/** The Bye payload (gnut_bye_payload_t) and its decoder.

    A Bye payload is a 2-byte code followed by a NUL-terminated description.
    The decoder reads the code, measures the description, classifies that length
    against the payload length, and copies the text into a freshly allocated,
    NUL-terminated buffer whose size (text length + 1) it records in a 16-bit
    field.

    This model scans for the terminator only inside the payload (the source
    uses an unbounded strlen), reads the code in network order (the source
    loads it natively), and takes the exact-fit branch as accepting. The source
    as written is modelled at the end of the module. */
module GnutByeMsg {
  import opened ByteOrder
  import opened Wrappers

  /** sizeof(sxs_uint16_t): the code that precedes the description. */
  const CodeLen: nat := 2

  /** The decoder's failures. The source returns -2 when the description is
      not terminated inside the payload, and -1 or -3 when the allocation of
      the copy fails (-1 when the terminator is the payload's last byte, -3
      otherwise). Allocation failure is an input of the model. */
  datatype ByeError = MissingTerminator | AllocFailed(exactFit: bool)

  /** A decoded Bye payload: the code, the description without its terminator,
      and desc_string_len as the source records it. */
  datatype ByeValue = ByeValue(code: uint16, desc: seq<uint8>, descStringLen: uint16)

  /** The source's integer status for a decoding outcome. */
  function Status(r: Result<ByeValue, ByeError>): (status: int)
    ensures status == 0 <==> r.Ok?
    ensures status in {0, -1, -2, -3}
  {
    match r
    case Ok(_) => 0
    case Err(MissingTerminator) => -2
    case Err(AllocFailed(exactFit)) => if exactFit then -1 else -3
  }

  /** desc_string_len is 16 bits wide, so the recorded length wraps. */
  function Wrap16(n: nat): (w: uint16)
    ensures n < 0x1_0000 ==> w == n
  {
    n % 0x1_0000
  }

  /** Length of the text before the first NUL of s, or |s| when s holds none:
      strlen bounded by the end of the buffer. */
  function FirstNul(s: seq<uint8>): (n: nat)
    ensures n <= |s|
    ensures forall i :: 0 <= i < n ==> s[i] != 0
    ensures n < |s| ==> s[n] == 0
  {
    if |s| == 0 || s[0] == 0 then 0 else 1 + FirstNul(s[1..])
  }

  /** The three facts in FirstNul's contract determine its value. */
  lemma FirstNulAt(s: seq<uint8>, n: nat)
    requires n <= |s|
    requires forall i :: 0 <= i < n ==> s[i] != 0
    requires n < |s| ==> s[n] == 0
    ensures FirstNul(s) == n
  {
  }

  /** The bytes after the code (none when the payload is shorter than the code). */
  function DescArea(raw: seq<uint8>): seq<uint8>
  {
    if |raw| < CodeLen then [] else raw[CodeLen..]
  }

  /** _gnut_parse_bye_msg_payload on the payload's raw bytes, as a value. The
      description must end with a NUL inside the payload; a terminator that is
      the last byte is the exact fit, and one found earlier (bytes follow it)
      is accepted as well, as the source's else branch does. */
  function DecodeBye(raw: seq<uint8>, allocOk: bool): (r: Result<ByeValue, ByeError>)
    ensures r == Err(MissingTerminator) <==> forall i :: CodeLen <= i < |raw| ==> raw[i] != 0
    ensures r.Err? && r.error.AllocFailed? ==> !allocOk && r.error.exactFit == (raw[|raw| - 1] == 0 && FirstNul(DescArea(raw)) == |raw| - 3)
    ensures r.Ok? ==> allocOk && CodeLen + |r.value.desc| < |raw|
    ensures r.Ok? ==> r.value.code == FromBE16(raw[..CodeLen])
    ensures r.Ok? ==> r.value.desc == raw[CodeLen..CodeLen + |r.value.desc|] && raw[CodeLen + |r.value.desc|] == 0
    ensures r.Ok? ==> forall i :: 0 <= i < |r.value.desc| ==> r.value.desc[i] != 0
    ensures r.Ok? ==> r.value.descStringLen == Wrap16(|r.value.desc| + 1)
  {
    var text := DescArea(raw);
    var n := FirstNul(text);
    if n == |text| then
      assert forall i :: CodeLen <= i < |raw| ==> raw[i] == text[i - CodeLen];
      Err(MissingTerminator)
    else if !allocOk then
      Err(AllocFailed(n == |text| - 1))
    else
      Ok(ByeValue(FromBE16(raw[..CodeLen]), text[..n], Wrap16(n + 1)))
  }

  /** The recorded length is the description's length plus the terminator
      exactly when that fits in 16 bits. */
  lemma DescStringLenExact(raw: seq<uint8>)
    requires DecodeBye(raw, true).Ok?
    ensures DecodeBye(raw, true).value.descStringLen == |DecodeBye(raw, true).value.desc| + 1
        <==> |DecodeBye(raw, true).value.desc| < 0xffff
  {
  }

  /** Whether the allocation succeeds changes only the outcome, never the
      classification: a payload is rejected for its terminator either way. */
  lemma AllocOnlyAffectsAcceptedPayloads(raw: seq<uint8>)
    ensures DecodeBye(raw, false) == Err(MissingTerminator) <==> DecodeBye(raw, true) == Err(MissingTerminator)
    ensures DecodeBye(raw, true).Ok? <==> DecodeBye(raw, false).Err? && DecodeBye(raw, false).error.AllocFailed?
  {
  }

  /** The wire form of a Bye payload: code in network order, the text, one
      NUL. The library has no Bye encoder; this is a specification-only helper
      used to state the round trip. */
  function EncodeBye(code: uint16, desc: seq<uint8>): (raw: seq<uint8>)
    ensures |raw| == CodeLen + |desc| + 1
  {
    BE16(code) + desc + [0]
  }

  /** Decoding an encoded payload whose text holds no NUL gives back the code
      and the text, with the terminator counted in the recorded length. */
  lemma ByeRoundTrip(code: uint16, desc: seq<uint8>)
    requires forall i :: 0 <= i < |desc| ==> desc[i] != 0
    ensures DecodeBye(EncodeBye(code, desc), true) == Ok(ByeValue(code, desc, Wrap16(|desc| + 1)))
  {
    var raw := EncodeBye(code, desc);
    var text := DescArea(raw);
    assert text == desc + [0];
    var n := FirstNul(text);
    assert text[|desc|] == 0;
    assert forall i :: 0 <= i < |desc| ==> text[i] == desc[i];
    assert n == |desc|;
    assert raw[..CodeLen] == BE16(code);
    BE16RoundTrip(code);
    assert text[..n] == desc;
  }

  /** An accepted payload is the encoding of its decoded value, followed by
      whatever bytes come after the terminator. */
  lemma DecodeByeEncode(raw: seq<uint8>)
    requires DecodeBye(raw, true).Ok?
    ensures var v := DecodeBye(raw, true).value;
      raw == EncodeBye(v.code, v.desc) + raw[CodeLen + |v.desc| + 1..]
  {
    var v := DecodeBye(raw, true).value;
    FromBE16RoundTrip(raw[..CodeLen]);
    assert raw == raw[..CodeLen] + raw[CodeLen..CodeLen + |v.desc|] + [raw[CodeLen + |v.desc|]] + raw[CodeLen + |v.desc| + 1..];
  }

  /** Scans raw[from..rawLen) for a NUL and returns the length of the text
      before it, or rawLen - from when there is none. This is the source's
      strlen, stopped at the end of the payload. */
  method ScanDescription(raw: array<uint8>, from: nat, rawLen: nat) returns (n: nat)
    requires from <= rawLen <= raw.Length
    ensures n == FirstNul(raw[from..rawLen])
    ensures from + n <= rawLen
    ensures forall i :: from <= i < from + n ==> raw[i] != 0
    ensures from + n < rawLen ==> raw[from + n] == 0
  {
    n := 0;
    while from + n < rawLen && raw[from + n] != 0
      invariant from + n <= rawLen
      invariant forall i :: from <= i < from + n ==> raw[i] != 0
    {
      n := n + 1;
    }
  }

  /** The malloc/memcpy/NUL-store sequence of the decoder: a fresh buffer
      holding raw[from..from + n] followed by one NUL. */
  method CopyDescription(raw: array<uint8>, from: nat, n: nat) returns (copy: array<uint8>)
    requires from + n <= raw.Length
    ensures fresh(copy)
    ensures copy[..] == raw[from..from + n] + [0]
  {
    copy := new uint8[n + 1];
    for i := 0 to n
      invariant forall k :: 0 <= k < i ==> copy[k] == raw[from + k]
    {
      copy[i] := raw[from + i];
    }
    copy[n] := 0;
    assert copy[..n] == raw[from..from + n];
    assert copy[..] == copy[..n] + [0];
  }

  /** gnut_bye_payload_t, which the caller allocates and the decoder fills in.
      The description buffer is owned by the payload; `released` records that
      _gnut_free_bye_msg_payload has given it back. */
  class ByePayload {
    var code: uint16
    var descString: array?<uint8>
    var descStringLen: uint16
    ghost var released: bool

    constructor ()
      ensures code == 0 && descString == null && descStringLen == 0 && !released
    {
      code := 0;
      descString := null;
      descStringLen := 0;
      released := false;
    }

    /** _gnut_parse_bye_msg_payload on the first rawLen bytes of raw. The code
        is stored before the description is examined, as in the source; on a
        missing terminator the description fields are left as they were, and
        on an allocation failure the description pointer is null. */
    method Parse(raw: array<uint8>, rawLen: uint32, allocOk: bool) returns (status: int)
      requires rawLen <= raw.Length
      modifies this
      ensures status == Status(DecodeBye(raw[..rawLen], allocOk))
      ensures rawLen >= CodeLen ==> code == FromBE16(raw[..CodeLen])
      ensures rawLen < CodeLen ==> code == old(code)
      ensures DecodeBye(raw[..rawLen], allocOk) == Err(MissingTerminator) ==>
        descString == old(descString) && descStringLen == old(descStringLen) && released == old(released)
      ensures DecodeBye(raw[..rawLen], allocOk).Err? && DecodeBye(raw[..rawLen], allocOk).error.AllocFailed? ==>
        descString == null && descStringLen == old(descStringLen) && !released
      ensures DecodeBye(raw[..rawLen], allocOk).Ok? ==>
        descString != null && fresh(descString) && !released &&
        descString[..] == DecodeBye(raw[..rawLen], allocOk).value.desc + [0] &&
        descStringLen == DecodeBye(raw[..rawLen], allocOk).value.descStringLen
    {
      ghost var payload := raw[..rawLen];
      ghost var r := DecodeBye(payload, allocOk);
      if rawLen < CodeLen {
        assert r == Err(MissingTerminator);
        return -2;
      }
      assert payload[..CodeLen] == raw[..CodeLen];
      ghost var text := DescArea(payload);
      assert text == raw[CodeLen..rawLen];
      var cursor: nat := CodeLen;
      code := FromBE16(raw[..CodeLen]);
      var n := ScanDescription(raw, cursor, rawLen);
      assert n == FirstNul(DescArea(payload));
      if n == rawLen - CodeLen - 1 {
        // The terminator is the last byte of the payload.
        if !allocOk {
          assert r == Err(AllocFailed(true));
          descString := null;
          released := false;
          return -1;
        }
      } else if n > rawLen - CodeLen - 1 {
        // missing a null character terminating the description string
        assert r == Err(MissingTerminator);
        return -2;
      } else if !allocOk {
        assert r == Err(AllocFailed(false));
        descString := null;
        released := false;
        return -3;
      }
      assert text[..n] == raw[cursor..cursor + n];
      assert r == Ok(ByeValue(code, raw[cursor..cursor + n], Wrap16(n + 1)));
      var copy := CopyDescription(raw, cursor, n);
      descString := copy;
      released := false;
      descStringLen := Wrap16(n + 1);
      status := 0;
    }

    /** _gnut_free_bye_msg_payload: releases the description buffer when there
        is one. Freeing a buffer twice is undefined in C, so a second release
        of the same buffer is excluded. */
    method Free()
      requires descString != null ==> !released
      modifies this`released
      ensures released == (old(released) || descString != null)
    {
      if descString != null {
        released := true;
      }
    }
  }

  // The decoder as the source writes it. `mem` stands for the bytes at raw_pl
  // and after it in memory, since strlen does not stop at the payload's end;
  // every allocation is taken to succeed.

  /** The code as the source reads it: a native 16-bit load, never converted
      from network order. */
  function SourceByeCode(raw: seq<uint8>, host: HostOrder): (code: uint16)
    requires |raw| >= CodeLen
    ensures host == BigEndianHost ==> code == FromBE16(raw[..CodeLen])
    ensures host == LittleEndianHost ==> code == raw[0] as int + raw[1] as int * 0x100
  {
    HostLoad16(raw[..CodeLen], host)
  }

  /** The payload 00 01 'b' 'y' 'e' 00: code 1, description "bye". */
  const ByeExample: seq<uint8> := [0x00, 0x01, 0x62, 0x79, 0x65, 0x00]

  /** On a little-endian host the source reads the example's code as 256;
      the network-order reading gives 1. */
  lemma SourceByeCodeLittleEndian()
    ensures SourceByeCode(ByeExample, LittleEndianHost) == 0x100
    ensures DecodeBye(ByeExample, true) == Ok(ByeValue(1, [0x62, 0x79, 0x65], 4))
  {
    var text := DescArea(ByeExample);
    assert text == [0x62, 0x79, 0x65, 0x00];
    FirstNulAt(text, 3);
    assert ByeExample[..CodeLen] == [0x00, 0x01];
    assert text[..3] == [0x62, 0x79, 0x65];
  }

  /** size_t is 64 bits wide on the usual LP64 platforms; the source subtracts
      from raw_pl_len in that width. */
  const SizeTModulus: int := 0x1_0000_0000_0000_0000

  /** What the source's decoder ends up doing. */
  datatype SourceOutcome =
    | SourceAccepted(descLen: int)   // returns 0 with the int count descLen (negative only for wrapped lengths)
    | SourceRejected(status: int)    // returns the status
    | SourceNullWrite                // stores through the null pointer it has just assigned

  /** strlen from raw_pl + 2. `mem` is taken to end just before the NUL at
      which strlen stops: when mem[2..] holds no NUL, the count is all of
      mem[2..], as if that NUL came next. */
  function SourceStrlen(mem: seq<uint8>): (n: nat)
    requires |mem| >= CodeLen
    ensures CodeLen + n <= |mem|
  {
    FirstNul(mem[CodeLen..])
  }

  /** `desc_string_len = strlen(...)` stores the size_t count in an int: on
      the usual platforms the count is cut to 32 bits and read as two's
      complement, so a count of 2^31 or more becomes negative. */
  function SourceDescLen(n: nat): (d: int)
    ensures -0x8000_0000 <= d < 0x8000_0000
    ensures d % 0x1_0000_0000 == n % 0x1_0000_0000
    ensures n < 0x8000_0000 ==> d == n
  {
    var low := n % 0x1_0000_0000;
    if low < 0x8000_0000 then low else low - 0x1_0000_0000
  }

  /** The source's classification of the strlen result n. The int count is
      converted to size_t for both comparisons, and the unsigned subtractions
      wrap. In the exact-fit branch the test `desc_string = NULL` assigns null
      to the fresh buffer and is false, so the copy that follows writes
      through a null pointer. */
  function SourceByeOutcome(n: nat, rawLen: uint32): (o: SourceOutcome)
    ensures o.SourceAccepted? ==> o.descLen == SourceDescLen(n)
    ensures o.SourceAccepted? && n < 0x8000_0000 ==> o.descLen == n
  {
    var len := SourceDescLen(n) % SizeTModulus;
    var exactFit := (rawLen as int - CodeLen - 1) % SizeTModulus;
    var limit := (rawLen as int - CodeLen) % SizeTModulus;
    if len == exactFit then SourceNullWrite
    else if len > limit then SourceRejected(-2)
    else SourceAccepted(SourceDescLen(n))
  }

  /** In the exact-fit case, the one the protocol intends, the source writes
      through a null pointer; the corrected decoder accepts the payload. */
  lemma SourceExactFitWritesNull()
    ensures SourceByeOutcome(SourceStrlen(ByeExample), |ByeExample|) == SourceNullWrite
    ensures DecodeBye(ByeExample, true).Ok?
  {
    SourceByeCodeLittleEndian();
    assert ByeExample[CodeLen..] == DescArea(ByeExample);
  }

  /** A 4-byte payload 00 01 'a' 'b' with no NUL, followed in memory by a NUL:
      the source accepts it, having read the byte just past the payload; the
      corrected decoder reports the missing terminator. */
  lemma SourceOffByOneAccepts()
    ensures SourceStrlen([0x00, 0x01, 0x61, 0x62, 0x00]) == 2
    ensures SourceByeOutcome(2, 4) == SourceAccepted(2)
    ensures DecodeBye([0x00, 0x01, 0x61, 0x62], true) == Err(MissingTerminator)
  {
    var mem: seq<uint8> := [0x00, 0x01, 0x61, 0x62, 0x00];
    assert mem[CodeLen..] == [0x61, 0x62, 0x00];
    FirstNulAt(mem[CodeLen..], 2);
  }

  /** A 2-byte payload (code only, no room for a terminator) followed in memory
      by a NUL: the wrapped subtraction makes the source accept it; the
      corrected decoder reports the missing terminator. */
  lemma SourceShortPayloadAccepted()
    ensures SourceStrlen([0x00, 0x01, 0x00]) == 0
    ensures SourceByeOutcome(0, 2) == SourceAccepted(0)
    ensures SourceByeOutcome(0, 0) == SourceAccepted(0)
    ensures DecodeBye([0x00, 0x01], true) == Err(MissingTerminator)
    ensures DecodeBye([], true) == Err(MissingTerminator)
  {
    assert [0x00, 0x01, 0x00][CodeLen..] == [0x00];
  }

  /** The length of the text before the first NUL of a prefix of s. */
  lemma {:induction false} FirstNulPrefix(s: seq<uint8>, k: nat)
    requires k <= |s|
    ensures FirstNul(s[..k]) == if FirstNul(s) < k then FirstNul(s) else k
  {
    if k > 0 && s[0] != 0 {
      assert s[..k][1..] == s[1..][..k - 1];
      FirstNulPrefix(s[1..], k - 1);
    }
  }

  /** Away from the off-by-one boundary, for payloads long enough that the
      unsigned subtractions do not wrap, and for descriptions short enough to
      fit the int count (see SourceLongExactFitRejected for longer ones), the source's classification agrees
      with the corrected decoder: it accepts what the corrected decoder
      accepts with bytes after the NUL, it reaches the null write exactly on
      an exact fit, and it returns -2 exactly when the terminator is missing. */
  lemma SourceAgreesAwayFromBoundary(mem: seq<uint8>, rawLen: uint32)
    requires CodeLen + 1 <= rawLen <= |mem|
    requires SourceStrlen(mem) != rawLen - CodeLen
    requires SourceStrlen(mem) < 0x8000_0000
    ensures var d := DecodeBye(mem[..rawLen], true);
      var o := SourceByeOutcome(SourceStrlen(mem), rawLen);
      && (o.SourceAccepted? <==> d.Ok? && CodeLen + |d.value.desc| + 1 < rawLen)
      && (o.SourceNullWrite? <==> d.Ok? && CodeLen + |d.value.desc| + 1 == rawLen)
      && (o == SourceRejected(-2) <==> d == Err(MissingTerminator))
  {
    SourceOutcomeWithoutWrap(SourceStrlen(mem), rawLen);
    FirstNulPrefix(mem[CodeLen..], rawLen - CodeLen);
    assert mem[CodeLen..][..rawLen - CodeLen] == DescArea(mem[..rawLen]);
  }

  /** With at least 3 payload bytes and a count that fits the int, no
      conversion or subtraction wraps, and the source's tests compare the
      plain numbers. */
  lemma SourceOutcomeWithoutWrap(n: nat, rawLen: uint32)
    requires CodeLen + 1 <= rawLen
    requires n < 0x8000_0000
    ensures SourceByeOutcome(n, rawLen) ==
      if n == rawLen - CodeLen - 1 then SourceNullWrite
      else if n > rawLen - CodeLen then SourceRejected(-2)
      else SourceAccepted(n)
  {
    assert SourceDescLen(n) % SizeTModulus == n;
    assert (rawLen as int - CodeLen - 1) % SizeTModulus == rawLen - CodeLen - 1;
    assert (rawLen as int - CodeLen) % SizeTModulus == rawLen - CodeLen;
  }

  /** A description of 2^31 bytes or more that exactly fills the payload: the
      int count is negative, the size_t conversion makes it larger than the
      limit, and the source returns -2 for a payload the corrected decoder
      accepts. */
  lemma SourceLongExactFitRejected(mem: seq<uint8>, rawLen: uint32)
    requires CodeLen + 1 <= rawLen <= |mem|
    requires SourceStrlen(mem) == rawLen - CodeLen - 1
    requires SourceStrlen(mem) >= 0x8000_0000
    ensures SourceByeOutcome(SourceStrlen(mem), rawLen) == SourceRejected(-2)
    ensures DecodeBye(mem[..rawLen], true).Ok?
  {
    FirstNulPrefix(mem[CodeLen..], rawLen - CodeLen);
    assert mem[CodeLen..][..rawLen - CodeLen] == DescArea(mem[..rawLen]);
  }
}
