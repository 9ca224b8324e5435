/** The Pong payload (gnut_pong_payload_t) and its codec.

    The payload is a fixed 14-byte record: port (2 bytes), IPv4 address
    (4 bytes), number of shared files (4 bytes) and kilobytes shared (4 bytes).
    The library writes every field with sxs_htons/sxs_htonl, so all of them are
    big-endian on the wire, and that is what this model encodes. (The Gnutella
    0.6 protocol draft puts the port and both counts in little-endian order;
    the library does not follow it there.) */
module GnutPongMsg {
  import opened ByteOrder
  import opened Wrappers

  /** gnut_pong_payload_t. The address is the 32-bit s_addr of a struct
      in_addr, taken as an opaque value. */
  datatype PongPayload = PongPayload(portNum: uint16, ipAddr: uint32, numSharedFiles: uint32, kbShared: uint32)

  /** Byte offsets of the four fields and the payload size. */
  const PortOffset: nat := 0
  const IpOffset: nat := 2
  const SharedFilesOffset: nat := 6
  const KbSharedOffset: nat := 10
  const PongPayloadLen: nat := 14

  /** The one way a Pong payload fails to parse: fewer than 14 bytes. */
  datatype PongError = TruncatedPayload

  /** The wire form of a Pong payload: each field in network order, in
      declaration order. */
  function EncodePong(pl: PongPayload): (raw: seq<uint8>)
    ensures |raw| == PongPayloadLen
  {
    BE16(pl.portNum) + BE32(pl.ipAddr) + BE32(pl.numSharedFiles) + BE32(pl.kbShared)
  }

  /** Reads the four fields back from their offsets, converting each from
      network order with the inverse of the conversion EncodePong applied. */
  function DecodePong(raw: seq<uint8>): (r: Result<PongPayload, PongError>)
    ensures r.Err? <==> |raw| < PongPayloadLen
  {
    if |raw| < PongPayloadLen then Err(TruncatedPayload)
    else Ok(PongPayload(FromBE16(raw[PortOffset..IpOffset]),
                        FromBE32(raw[IpOffset..SharedFilesOffset]),
                        FromBE32(raw[SharedFilesOffset..KbSharedOffset]),
                        FromBE32(raw[KbSharedOffset..PongPayloadLen])))
  }

  /** _gnut_calc_pong_msg_payload_len: the size of the encoding, whatever the
      field values are. */
  function CalcPongPayloadLen(pl: PongPayload): (n: nat)
    ensures n == |EncodePong(pl)|
  {
    2 + 4 + 4 + 4
  }

  /** Where each field lands in the encoding. */
  lemma EncodePongLayout(pl: PongPayload)
    ensures EncodePong(pl)[PortOffset..IpOffset] == BE16(pl.portNum)
    ensures EncodePong(pl)[IpOffset..SharedFilesOffset] == BE32(pl.ipAddr)
    ensures EncodePong(pl)[SharedFilesOffset..KbSharedOffset] == BE32(pl.numSharedFiles)
    ensures EncodePong(pl)[KbSharedOffset..PongPayloadLen] == BE32(pl.kbShared)
  {
    var raw := EncodePong(pl);
    assert raw == BE16(pl.portNum) + BE32(pl.ipAddr) + BE32(pl.numSharedFiles) + BE32(pl.kbShared);
  }

  /** Decoding an encoded payload gives the payload back, for every value of
      every field. */
  lemma PongRoundTrip(pl: PongPayload)
    ensures DecodePong(EncodePong(pl)) == Ok(pl)
  {
    EncodePongLayout(pl);
    BE16RoundTrip(pl.portNum);
    BE32RoundTrip(pl.ipAddr);
    BE32RoundTrip(pl.numSharedFiles);
    BE32RoundTrip(pl.kbShared);
  }

  /** Port 6346, address 127.0.0.1, 42 files and 1024 KB shared, on the wire. */
  lemma PongExampleBytes()
    ensures EncodePong(PongPayload(6346, 0x7f00_0001, 42, 1024))
         == [0x18, 0xca, 0x7f, 0x00, 0x00, 0x01, 0x00, 0x00, 0x00, 0x2a, 0x00, 0x00, 0x04, 0x00]
    ensures DecodePong([0x18, 0xca, 0x7f, 0x00, 0x00, 0x01, 0x00, 0x00, 0x00, 0x2a, 0x00, 0x00, 0x04, 0x00])
         == Ok(PongPayload(6346, 0x7f00_0001, 42, 1024))
  {
    PongRoundTrip(PongPayload(6346, 0x7f00_0001, 42, 1024));
  }

  /** Decoding reads exactly the first 14 bytes: re-encoding a decoded payload
      reproduces them, and anything after them is ignored. */
  lemma DecodePongEncode(raw: seq<uint8>)
    requires |raw| >= PongPayloadLen
    ensures DecodePong(raw).Ok?
    ensures EncodePong(DecodePong(raw).value) == raw[..PongPayloadLen]
    ensures DecodePong(raw) == DecodePong(raw[..PongPayloadLen])
  {
    FromBE16RoundTrip(raw[PortOffset..IpOffset]);
    FromBE32RoundTrip(raw[IpOffset..SharedFilesOffset]);
    FromBE32RoundTrip(raw[SharedFilesOffset..KbSharedOffset]);
    FromBE32RoundTrip(raw[KbSharedOffset..PongPayloadLen]);
    var head := raw[..PongPayloadLen];
    assert head[PortOffset..IpOffset] == raw[PortOffset..IpOffset];
    assert head[IpOffset..SharedFilesOffset] == raw[IpOffset..SharedFilesOffset];
    assert head[SharedFilesOffset..KbSharedOffset] == raw[SharedFilesOffset..KbSharedOffset];
    assert head[KbSharedOffset..PongPayloadLen] == raw[KbSharedOffset..PongPayloadLen];
    assert head == raw[PortOffset..IpOffset] + raw[IpOffset..SharedFilesOffset]
      + raw[SharedFilesOffset..KbSharedOffset] + raw[KbSharedOffset..PongPayloadLen];
  }

  /** Stores the network-order bytes of a 16-bit value at raw[at], leaving every
      other byte alone. */
  method StoreBE16(raw: array<uint8>, at: nat, x: uint16)
    requires at + 2 <= raw.Length
    modifies raw
    ensures raw[at..at + 2] == BE16(x)
    ensures forall k :: 0 <= k < raw.Length && !(at <= k < at + 2) ==> raw[k] == old(raw[k])
  {
    var b := BE16(x);
    raw[at] := b[0];
    raw[at + 1] := b[1];
  }

  /** Stores the network-order bytes of a 32-bit value at raw[at], leaving every
      other byte alone. */
  method StoreBE32(raw: array<uint8>, at: nat, x: uint32)
    requires at + 4 <= raw.Length
    modifies raw
    ensures raw[at..at + 4] == BE32(x)
    ensures forall k :: 0 <= k < raw.Length && !(at <= k < at + 4) ==> raw[k] == old(raw[k])
  {
    var b := BE32(x);
    raw[at] := b[0];
    raw[at + 1] := b[1];
    raw[at + 2] := b[2];
    raw[at + 3] := b[3];
  }

  /** _gnut_build_pong_msg_payload: writes the payload into the caller's buffer
      through a cursor that advances by each field's width. The buffer has no
      length parameter in the source; the caller must supply 14 bytes. */
  method BuildPongPayload(pl: PongPayload, raw: array<uint8>) returns (status: int)
    requires raw.Length >= PongPayloadLen
    modifies raw
    ensures status == 0
    ensures raw[..PongPayloadLen] == EncodePong(pl)
    ensures raw[PongPayloadLen..] == old(raw[PongPayloadLen..])
  {
    var cursor: nat := 0;
    StoreBE16(raw, cursor, pl.portNum);
    cursor := cursor + 2;
    StoreBE32(raw, cursor, pl.ipAddr);
    cursor := cursor + 4;
    StoreBE32(raw, cursor, pl.numSharedFiles);
    cursor := cursor + 4;
    StoreBE32(raw, cursor, pl.kbShared);
    cursor := cursor + 4;
    assert cursor == PongPayloadLen;
    EncodePongLayout(pl);
    assert raw[..PongPayloadLen] == raw[PortOffset..IpOffset] + raw[IpOffset..SharedFilesOffset]
      + raw[SharedFilesOffset..KbSharedOffset] + raw[KbSharedOffset..PongPayloadLen];
    status := 0;
  }

  /** _gnut_parse_pong_msg_payload: reads the fields through a cursor from the
      first rawLen bytes of raw. A buffer shorter than 14 bytes is reported as
      TruncatedPayload instead of being read past its end. */
  method ParsePongPayload(raw: array<uint8>, rawLen: uint32) returns (r: Result<PongPayload, PongError>)
    requires rawLen <= raw.Length
    ensures r == DecodePong(raw[..rawLen])
  {
    if rawLen < PongPayloadLen {
      return Err(TruncatedPayload);
    }
    var cursor: nat := 0;
    var port := FromBE16(raw[cursor..cursor + 2]);
    cursor := cursor + 2;
    var ip := FromBE32(raw[cursor..cursor + 4]);
    cursor := cursor + 4;
    var files := FromBE32(raw[cursor..cursor + 4]);
    cursor := cursor + 4;
    var kb := FromBE32(raw[cursor..cursor + 4]);
    cursor := cursor + 4;
    assert raw[..rawLen][PortOffset..IpOffset] == raw[0..2];
    assert raw[..rawLen][IpOffset..SharedFilesOffset] == raw[2..6];
    assert raw[..rawLen][SharedFilesOffset..KbSharedOffset] == raw[6..10];
    assert raw[..rawLen][KbSharedOffset..PongPayloadLen] == raw[10..14];
    r := Ok(PongPayload(port, ip, files, kb));
  }

  /** _gnut_free_pong_msg_payload: a Pong payload owns no heap memory, so
      releasing it does nothing; the empty frame says no memory changes. */
  method FreePongPayload(pl: PongPayload)
  {
  }

  // The decoder as the source writes it. The three 32-bit fields are converted
  // with the 16-bit sxs_ntohs: the natively loaded 32-bit value is truncated to
  // 16 bits, byte-swapped on a little-endian host, and widened back.

  /** One 32-bit field as the source's decoder reads it. */
  function SourceField32(b: seq<uint8>, host: HostOrder): (x: uint32)
    requires |b| == 4
    ensures x < 0x1_0000
  {
    Ntohs(HostLoad32(b, host) % 0x1_0000, host)
  }

  /** The source's decoder (which reads 14 bytes whatever the length). */
  function SourceDecodePong(raw: seq<uint8>, host: HostOrder): (pl: PongPayload)
    requires |raw| >= PongPayloadLen
    ensures pl.portNum == DecodePong(raw).value.portNum
  {
    NtohsOfHostLoad16(raw[PortOffset..IpOffset], host);
    PongPayload(Ntohs(HostLoad16(raw[PortOffset..IpOffset], host), host),
                SourceField32(raw[IpOffset..SharedFilesOffset], host),
                SourceField32(raw[SharedFilesOffset..KbSharedOffset], host),
                SourceField32(raw[KbSharedOffset..PongPayloadLen], host))
  }

  /** With the source's decoder a Pong does not survive a round trip on any
      host: the payload of port 6346, address 127.0.0.1, 42 files and 1024 KB
      comes back with a different address, because every 32-bit field is cut
      to 16 bits. */
  lemma SourcePongRoundTripFails(host: HostOrder)
    ensures SourceDecodePong(EncodePong(PongPayload(6346, 0x7f00_0001, 42, 1024)), host)
         != PongPayload(6346, 0x7f00_0001, 42, 1024)
  {
  }

  /** The source's decoder never looks at raw_pl_len, so on a 10-byte payload
      the KB-shared field comes from the 4 bytes after it. Two memories that
      hold the same 10 payload bytes (port 6346, 127.0.0.1, 42 files) and
      differ only past the payload decode to different values, while the
      corrected decoder reports the payload as truncated. */
  lemma SourceShortPongReadsPastEnd(host: HostOrder)
    ensures var a: seq<uint8> := [0x18, 0xca, 0x7f, 0, 0, 1, 0, 0, 0, 0x2a, 0, 0, 0, 0];
      var b: seq<uint8> := [0x18, 0xca, 0x7f, 0, 0, 1, 0, 0, 0, 0x2a, 0, 1, 0, 1];
      && a[..10] == b[..10]
      && DecodePong(a[..10]) == Err(TruncatedPayload)
      && SourceDecodePong(a, host).kbShared == 0
      && SourceDecodePong(b, host).kbShared == 1
  {
    var a: seq<uint8> := [0x18, 0xca, 0x7f, 0, 0, 1, 0, 0, 0, 0x2a, 0, 0, 0, 0];
    var b: seq<uint8> := [0x18, 0xca, 0x7f, 0, 0, 1, 0, 0, 0, 0x2a, 0, 1, 0, 1];
    assert a[KbSharedOffset..PongPayloadLen] == [0, 0, 0, 0];
    assert b[KbSharedOffset..PongPayloadLen] == [0, 1, 0, 1];
  }
}
