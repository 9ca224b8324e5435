/** Gnutella message headers (gnut_msg_hdr_t), the three header builders, and
    the message type (gnut_msg_t) whose payload is one of the implemented
    payload kinds.

    A header is a 16-byte message ID, a one-byte payload type, a one-byte TTL,
    a one-byte hop count and a 32-bit payload length. IDs this library
    generates are marked as coming from a modern servent, as section 2.2 of
    the Gnutella 0.6 protocol draft describes: byte 8 is 0xff and byte 15 is
    0x00 (bytes numbered 0-15). */
module GnutMsgs {
  import opened ByteOrder
  import opened Wrappers
  import GnutPongMsg
  import GnutByeMsg

  /** GNUT_MSG_ID_LEN, GNUT_INITIAL_TTL, GNUT_INITIAL_HOPS. */
  const MsgIdLen: nat := 16
  const InitialTtl: uint8 := 0x07
  const InitialHops: uint8 := 0x00

  /** The two ID bytes with fixed values. */
  const MarkIndex: nat := 8
  const LastIndex: nat := 15

  /** gnut_error_t: GNUT_SUCCESS (0) and GNUT_EBUILD_MSG_ID (1). */
  datatype GnutError = Success | EBuildMsgId

  /** The payload types the header documentation lists. */
  datatype MsgType = Ping | Pong | Bye | Push | Query | QueryHit

  /** The type tag of each payload type (0x40 for Push, as the documentation of
      gnut_build_msg_hdr gives it). */
  function TypeTag(t: MsgType): (tag: uint8)
    ensures TagType(tag) == Some(t)
  {
    match t
    case Ping => 0x00
    case Pong => 0x01
    case Bye => 0x02
    case Push => 0x40
    case Query => 0x80
    case QueryHit => 0x81
  }

  /** The payload type a tag names, if any. */
  function TagType(tag: uint8): (t: Option<MsgType>)
  {
    if tag == 0x00 then Some(Ping)
    else if tag == 0x01 then Some(Pong)
    else if tag == 0x02 then Some(Bye)
    else if tag == 0x40 then Some(Push)
    else if tag == 0x80 then Some(Query)
    else if tag == 0x81 then Some(QueryHit)
    else None
  }

  /** The six documented types have distinct tags, and a tag that names a type
      is that type's tag. */
  lemma TagRoundTrip(a: MsgType, b: MsgType, tag: uint8)
    ensures TypeTag(a) == TypeTag(b) ==> a == b
    ensures TagType(tag).Some? ==> TypeTag(TagType(tag).value) == tag
  {
  }

  /** The value held by a gnut_msg_hdr_t. */
  datatype MsgHeader = MsgHeader(messageId: seq<uint8>, msgType: uint8, ttl: uint8, hops: uint8, plLen: uint32)

  /** The IDs gnut_build_msg_id can produce: 16 bytes, byte 8 is 0xff, byte 15
      is 0x00, and every other byte is a value of rand() % 255, so at most 254. */
  ghost predicate IsGeneratedId(id: seq<uint8>)
  {
    && |id| == MsgIdLen
    && id[MarkIndex] == 0xff
    && id[LastIndex] == 0x00
    && forall i :: 0 <= i < MsgIdLen && i != MarkIndex && i != LastIndex ==> id[i] < 0xff
  }

  /** The ID gnut_build_msg_id builds from the sixteen values `draws` that
      rand() returns. */
  function GeneratedId(draws: seq<nat>): (id: seq<uint8>)
    requires |draws| == MsgIdLen
    ensures |id| == MsgIdLen
  {
    seq(MsgIdLen, i requires 0 <= i < MsgIdLen =>
      if i == MarkIndex then 0xff else if i == LastIndex then 0x00 else draws[i] % 255)
  }

  /** Every generated ID carries the marking and never has 0xff in a random
      position. */
  lemma GeneratedIdIsMarked(draws: seq<nat>)
    requires |draws| == MsgIdLen
    ensures IsGeneratedId(GeneratedId(draws))
  {
  }

  /** Conversely every marked ID is produced by some run of the random number
      generator: the ID's own bytes as the draws. */
  lemma MarkedIdIsGenerated(id: seq<uint8>)
    requires IsGeneratedId(id)
    ensures GeneratedId(seq(MsgIdLen, i requires 0 <= i < MsgIdLen => id[i] as nat)) == id
  {
  }

  /** The header a successful gnut_build_msg_hdr or
      gnut_build_msg_hdr_given_msg_id leaves: the given ID, type and payload
      length, with the initial TTL and hop count. */
  function NewHeader(id: seq<uint8>, msgType: uint8, plLen: uint32): (h: MsgHeader)
    ensures h.ttl == 7 && h.hops == 0
  {
    MsgHeader(id, msgType, InitialTtl, InitialHops, plLen)
  }

  /** A header built by gnut_build_msg_hdr carries a marked ID; the fields
      given to the builder come back verbatim. */
  lemma BuiltHeaderIsMarked(draws: seq<nat>, msgType: uint8, plLen: uint32)
    requires |draws| == MsgIdLen
    ensures var h := NewHeader(GeneratedId(draws), msgType, plLen);
      IsGeneratedId(h.messageId) && h.msgType == msgType && h.plLen == plLen
  {
    GeneratedIdIsMarked(draws);
  }

  /** gnut_msg_hdr_t, filled in place by the builders. */
  class Header {
    var messageId: array<uint8>
    var msgType: uint8
    var ttl: uint8
    var hops: uint8
    var plLen: uint32

    ghost predicate Valid()
      reads this
    {
      messageId.Length == MsgIdLen
    }

    /** The header's value. */
    function View(): (h: MsgHeader)
      reads this, messageId
    {
      MsgHeader(messageId[..], msgType, ttl, hops, plLen)
    }

    /** A zeroed header for the builders to fill in. */
    constructor ()
      ensures Valid() && fresh(messageId)
      ensures View() == MsgHeader(seq(MsgIdLen, _ => 0), 0, 0, 0, 0)
    {
      messageId := new uint8[MsgIdLen](_ => 0);
      msgType, ttl, hops, plLen := 0, 0, 0, 0;
    }

    /** gnut_build_msg_id: fills the ID with rand() % 255 byte by byte, then
        sets byte 8 to 0xff and byte 15 to 0x00. The values rand() returns are
        the parameter `draws`. Only the ID changes, and it always succeeds. */
    method BuildMsgId(draws: seq<nat>) returns (err: GnutError)
      requires Valid() && |draws| == MsgIdLen
      modifies messageId
      ensures err == Success
      ensures messageId[..] == GeneratedId(draws)
    {
      for i := 0 to MsgIdLen
        invariant forall k :: 0 <= k < i ==> messageId[k] == draws[k] % 255
      {
        messageId[i] := draws[i] % 255;
      }
      messageId[MarkIndex] := 0xff;
      messageId[LastIndex] := 0x00;
      err := Success;
    }

    /** gnut_build_msg_hdr: builds a fresh ID, then stores the type, the
        initial TTL and hop count and the payload length. A failure to build
        the ID would be returned as GNUT_EBUILD_MSG_ID before any other field
        is written; gnut_build_msg_id never fails, so neither does this. */
    method BuildMsgHdr(draws: seq<nat>, t: uint8, len: uint32) returns (err: GnutError)
      requires Valid() && |draws| == MsgIdLen
      modifies this, messageId
      ensures Valid() && messageId == old(messageId)
      ensures err == Success
      ensures View() == NewHeader(GeneratedId(draws), t, len)
      ensures IsGeneratedId(messageId[..])
    {
      var reterr := BuildMsgId(draws);
      if reterr != Success {
        return EBuildMsgId;
      }
      msgType := t;
      ttl := InitialTtl;
      hops := InitialHops;
      plLen := len;
      GeneratedIdIsMarked(draws);
      err := Success;
    }

    /** gnut_build_msg_hdr_given_msg_id: copies the caller's 16 ID bytes
        unchanged, then sets the other fields as gnut_build_msg_hdr does. */
    method BuildMsgHdrGivenMsgId(id: array<uint8>, t: uint8, len: uint32) returns (err: GnutError)
      requires Valid() && id.Length >= MsgIdLen
      modifies this, messageId
      ensures Valid() && messageId == old(messageId)
      ensures err == Success
      ensures View() == NewHeader(old(id[..MsgIdLen]), t, len)
    {
      ghost var given := id[..MsgIdLen];
      for i := 0 to MsgIdLen
        modifies messageId
        invariant forall k :: 0 <= k < i ==> messageId[k] == given[k]
        invariant forall k :: i <= k < MsgIdLen ==> id[k] == given[k]
      {
        messageId[i] := id[i];
      }
      msgType := t;
      ttl := InitialTtl;
      hops := InitialHops;
      plLen := len;
      err := Success;
    }
  }

  /** The payload of a gnut_msg_t. The source's union is untagged and holds only
      the Pong payload; here each implemented kind is a variant, the empty Ping
      payload included. */
  datatype Payload =
    | PingPayload
    | PongPayload(pong: GnutPongMsg.PongPayload)
    | ByePayload(bye: GnutByeMsg.ByeValue)

  /** gnut_msg_t. */
  datatype Message = Message(header: MsgHeader, payload: Payload)

  /** The type of a payload. */
  function PayloadType(p: Payload): (t: MsgType)
  {
    match p
    case PingPayload => Ping
    case PongPayload(_) => Pong
    case ByePayload(_) => Bye
  }

  // Specification-only helpers: the library has neither a header serialiser,
  // nor a Bye encoder, nor a dispatcher from type tag to payload decoder.
  // They are defined here to state what a consistent message is and the round
  // trips the builders and decoders complete.

  /** A Bye value as the decoder produces it: no NUL in the text, and the
      recorded length counting the terminator. */
  ghost predicate WellFormedBye(b: GnutByeMsg.ByeValue)
  {
    && (forall i :: 0 <= i < |b.desc| ==> b.desc[i] != 0)
    && b.descStringLen == GnutByeMsg.Wrap16(|b.desc| + 1)
  }

  /** The wire form of a payload. */
  function EncodePayload(p: Payload): (raw: seq<uint8>)
  {
    match p
    case PingPayload => []
    case PongPayload(pong) => GnutPongMsg.EncodePong(pong)
    case ByePayload(bye) => GnutByeMsg.EncodeBye(bye.code, bye.desc)
  }

  /** Why a raw payload could not be decoded for its header's type. */
  datatype PayloadError =
    | UnknownMessageType(tag: uint8)
    | PayloadLengthMismatch
    | PongFailed(pongError: GnutPongMsg.PongError)
    | ByeFailed(byeError: GnutByeMsg.ByeError)

  /** Decodes a payload with the decoder its header's type tag names: Ping
      payloads are empty, Pong and Bye have their own decoders, and every
      other tag is reported rather than misread. */
  function DecodePayload(tag: uint8, raw: seq<uint8>): (r: Result<Payload, PayloadError>)
    ensures r.Ok? ==> TypeTag(PayloadType(r.value)) == tag
    ensures TagType(tag).None? ==> r == Err(UnknownMessageType(tag))
  {
    if tag == TypeTag(Ping) then
      if |raw| == 0 then Ok(PingPayload) else Err(PayloadLengthMismatch)
    else if tag == TypeTag(Pong) then
      match GnutPongMsg.DecodePong(raw)
      case Ok(pong) => Ok(PongPayload(pong))
      case Err(e) => Err(PongFailed(e))
    else if tag == TypeTag(Bye) then
      match GnutByeMsg.DecodeBye(raw, true)
      case Ok(bye) => Ok(ByePayload(bye))
      case Err(e) => Err(ByeFailed(e))
    else Err(UnknownMessageType(tag))
  }

  /** Every payload the model can hold survives encoding and decoding under its
      own type tag. */
  lemma PayloadRoundTrip(p: Payload)
    requires p.ByePayload? ==> WellFormedBye(p.bye)
    ensures DecodePayload(TypeTag(PayloadType(p)), EncodePayload(p)) == Ok(p)
  {
    match p
    case PingPayload =>
    case PongPayload(pong) =>
      GnutPongMsg.PongRoundTrip(pong);
    case ByePayload(bye) =>
      GnutByeMsg.ByeRoundTrip(bye.code, bye.desc);
  }

  /** The length of a payload's wire form, which a header must carry. */
  function PayloadLen(p: Payload): (n: nat)
    ensures n == |EncodePayload(p)|
    ensures p.PongPayload? ==> n == GnutPongMsg.PongPayloadLen
  {
    match p
    case PingPayload => 0
    case PongPayload(pong) => GnutPongMsg.CalcPongPayloadLen(pong)
    case ByePayload(bye) => GnutByeMsg.CodeLen + |bye.desc| + 1
  }

  /** A message whose header names its payload's type and length. */
  ghost predicate Consistent(m: Message)
  {
    && m.header.msgType == TypeTag(PayloadType(m.payload))
    && m.header.plLen == PayloadLen(m.payload)
  }

  /** The header Header.BuildMsgHdr (or BuildMsgHdrGivenMsgId) leaves when
      given the payload's own type and length is enough for a reader: it
      frames exactly the payload's bytes, and the decoder its type tag names
      gives the payload back. */
  lemma BuiltMessageDecodes(id: seq<uint8>, p: Payload)
    requires PayloadLen(p) < 0x1_0000_0000
    requires p.ByePayload? ==> WellFormedBye(p.bye)
    ensures var h := NewHeader(id, TypeTag(PayloadType(p)), PayloadLen(p));
      && Consistent(Message(h, p))
      && h.plLen == |EncodePayload(p)|
      && DecodePayload(h.msgType, EncodePayload(p)) == Ok(p)
  {
    PayloadRoundTrip(p);
  }

  /** GNUT_MSG_ID_LEN + type + TTL + hops + 4-byte payload length. */
  const HeaderLen: nat := 23

  /** The 23-byte wire form of a header, the payload length in little-endian
      order as the Gnutella 0.6 protocol draft lays it out. */
  function EncodeHeader(h: MsgHeader): (raw: seq<uint8>)
    requires |h.messageId| == MsgIdLen
    ensures |raw| == HeaderLen
  {
    h.messageId + [h.msgType, h.ttl, h.hops] + LE32(h.plLen)
  }

  /** Reads a header from the first 23 bytes. */
  function DecodeHeader(raw: seq<uint8>): (r: Option<MsgHeader>)
    ensures r.Some? <==> |raw| >= HeaderLen
    ensures r.Some? ==> |r.value.messageId| == MsgIdLen
  {
    if |raw| < HeaderLen then None
    else Some(MsgHeader(raw[..MsgIdLen], raw[16], raw[17], raw[18], FromLE32(raw[19..HeaderLen])))
  }

  lemma HeaderRoundTrip(h: MsgHeader)
    requires |h.messageId| == MsgIdLen
    ensures DecodeHeader(EncodeHeader(h)) == Some(h)
  {
    var raw := EncodeHeader(h);
    assert raw[..MsgIdLen] == h.messageId;
    assert raw[19..HeaderLen] == LE32(h.plLen);
    LE32RoundTrip(h.plLen);
  }

  lemma DecodeHeaderEncode(raw: seq<uint8>)
    requires |raw| >= HeaderLen
    ensures EncodeHeader(DecodeHeader(raw).value) == raw[..HeaderLen]
  {
    FromLE32RoundTrip(raw[19..HeaderLen]);
    assert raw[..HeaderLen] == raw[..MsgIdLen] + [raw[16], raw[17], raw[18]] + raw[19..HeaderLen];
  }
}
