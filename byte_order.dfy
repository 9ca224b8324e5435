/** Unsigned integer widths used on the wire, and the byte-order conversions
    the library takes from its socket layer (sxs_htons, sxs_htonl, sxs_ntohs,
    sxs_ntohl).

    A conversion to network order followed by a store to memory writes the
    value's big-endian bytes on every host, so the conversions are modelled as
    splitting a value into its big-endian bytes and joining them back. Where a
    source line loads bytes as a native integer WITHOUT converting, the host's
    own byte order matters; HostLoad16/HostLoad32 model such loads for both
    byte orders. */
module ByteOrder {

  type uint8 = x: int | 0 <= x < 0x100
  type uint16 = x: int | 0 <= x < 0x1_0000
  type uint32 = x: int | 0 <= x < 0x1_0000_0000

  /** The bytes that storing sxs_htons(x) leaves in memory. */
  function BE16(x: uint16): (b: seq<uint8>)
    ensures |b| == 2
    ensures b[0] as int * 0x100 + b[1] as int == x
  {
    [x / 0x100, x % 0x100]
  }

  /** sxs_ntohs applied to a 16-bit load of the two bytes b. */
  function FromBE16(b: seq<uint8>): (x: uint16)
    requires |b| == 2
    ensures x / 0x100 == b[0] && x % 0x100 == b[1]
  {
    b[0] as int * 0x100 + b[1] as int
  }

  /** The bytes that storing sxs_htonl(x) leaves in memory. */
  function BE32(x: uint32): (b: seq<uint8>)
    ensures |b| == 4
    ensures b[0] as int * 0x100_0000 + b[1] as int * 0x1_0000 + b[2] as int * 0x100 + b[3] as int == x
  {
    BE16(x / 0x1_0000) + BE16(x % 0x1_0000)
  }

  /** sxs_ntohl applied to a 32-bit load of the four bytes b. */
  function FromBE32(b: seq<uint8>): (x: uint32)
    requires |b| == 4
    ensures x / 0x1_0000 == FromBE16(b[..2]) && x % 0x1_0000 == FromBE16(b[2..])
  {
    FromBE16(b[..2]) * 0x1_0000 + FromBE16(b[2..])
  }

  /** Little-endian bytes of a 32-bit value (the Gnutella wire order for the
      header's payload length). */
  function LE32(x: uint32): (b: seq<uint8>)
    ensures |b| == 4
  {
    var be := BE32(x);
    [be[3], be[2], be[1], be[0]]
  }

  function FromLE32(b: seq<uint8>): (x: uint32)
    requires |b| == 4
  {
    FromBE32([b[3], b[2], b[1], b[0]])
  }

  lemma BE16RoundTrip(x: uint16)
    ensures FromBE16(BE16(x)) == x
  {
  }

  lemma FromBE16RoundTrip(b: seq<uint8>)
    requires |b| == 2
    ensures BE16(FromBE16(b)) == b
  {
  }

  /** Joining the big-endian bytes of x gives x back: sxs_ntohl undoes sxs_htonl. */
  lemma BE32RoundTrip(x: uint32)
    ensures FromBE32(BE32(x)) == x
  {
    var b := BE32(x);
    assert b[..2] == BE16(x / 0x1_0000);
    assert b[2..] == BE16(x % 0x1_0000);
    BE16RoundTrip(x / 0x1_0000);
    BE16RoundTrip(x % 0x1_0000);
  }

  /** Splitting a joined value gives the same four bytes back: every 4-byte
      pattern is the encoding of exactly one 32-bit value. */
  lemma FromBE32RoundTrip(b: seq<uint8>)
    requires |b| == 4
    ensures BE32(FromBE32(b)) == b
  {
    var hi, lo := FromBE16(b[..2]), FromBE16(b[2..]);
    var x := FromBE32(b);
    assert x / 0x1_0000 == hi && x % 0x1_0000 == lo;
    FromBE16RoundTrip(b[..2]);
    FromBE16RoundTrip(b[2..]);
    assert b == b[..2] + b[2..];
  }

  /** The positional meaning of network byte order: the first byte is the most
      significant. */
  lemma FromBE32Weights(b: seq<uint8>)
    requires |b| == 4
    ensures FromBE32(b) == b[0] as int * 0x100_0000 + b[1] as int * 0x1_0000 + b[2] as int * 0x100 + b[3] as int
  {
  }

  lemma LE32RoundTrip(x: uint32)
    ensures FromLE32(LE32(x)) == x
  {
    var be := BE32(x);
    assert [LE32(x)[3], LE32(x)[2], LE32(x)[1], LE32(x)[0]] == be;
    BE32RoundTrip(x);
  }

  lemma FromLE32RoundTrip(b: seq<uint8>)
    requires |b| == 4
    ensures LE32(FromLE32(b)) == b
  {
    FromBE32RoundTrip([b[3], b[2], b[1], b[0]]);
  }

  /** Byte order of the machine the library runs on. */
  datatype HostOrder = LittleEndianHost | BigEndianHost

  /** The value a host obtains by loading two bytes as a native 16-bit integer. */
  function HostLoad16(b: seq<uint8>, host: HostOrder): (x: uint16)
    requires |b| == 2
    ensures host == BigEndianHost ==> x == b[0] as int * 0x100 + b[1] as int
    ensures host == LittleEndianHost ==> x == b[0] as int + b[1] as int * 0x100
  {
    match host
    case BigEndianHost => FromBE16(b)
    case LittleEndianHost => FromBE16([b[1], b[0]])
  }

  /** The value a host obtains by loading four bytes as a native 32-bit integer. */
  function HostLoad32(b: seq<uint8>, host: HostOrder): (x: uint32)
    requires |b| == 4
    ensures host == BigEndianHost ==>
      x == b[0] as int * 0x100_0000 + b[1] as int * 0x1_0000 + b[2] as int * 0x100 + b[3] as int
    ensures host == LittleEndianHost ==>
      x == b[0] as int + b[1] as int * 0x100 + b[2] as int * 0x1_0000 + b[3] as int * 0x100_0000
  {
    match host
    case BigEndianHost => FromBE32(b)
    case LittleEndianHost => FromBE32([b[3], b[2], b[1], b[0]])
  }

  /** sxs_ntohs on a host of the given byte order: a byte swap on a
      little-endian host, the identity on a big-endian one. */
  function Ntohs(x: uint16, host: HostOrder): (y: uint16)
    ensures host == BigEndianHost ==> y == x
    ensures host == LittleEndianHost ==> y / 0x100 == x % 0x100 && y % 0x100 == x / 0x100
  {
    match host
    case BigEndianHost => x
    case LittleEndianHost => FromBE16([x % 0x100, x / 0x100])
  }

  /** Loading two bytes natively and converting with sxs_ntohs reads them as
      network order on both kinds of host: the model's FromBE16 is exactly what
      the source's "ntohs of a 16-bit load" computes. */
  lemma NtohsOfHostLoad16(b: seq<uint8>, host: HostOrder)
    requires |b| == 2
    ensures Ntohs(HostLoad16(b, host), host) == FromBE16(b)
  {
  }
}
