# libgnut message layer in Dafny

This project models the Gnutella message layer of libgnut, a C library. It
covers four parts:

- **Header builders** (`gnut_msgs.dfy`, module `GnutMsgs`). A
  `gnut_msg_hdr_t` becomes the class `Header`. It holds a 16-byte message-ID
  array, a type byte, a TTL, a hop count and a 32-bit payload length. The
  three builders are methods that fill the header in place:
  - `gnut_build_msg_id` fills the ID with `rand() % 255` in a loop, then sets
    byte 8 to 0xff and byte 15 to 0x00. This is the modern-servent marking of
    section 2.2 of the Gnutella 0.6 protocol draft.
  - `gnut_build_msg_hdr` adds the type, TTL 7, hop count 0 and the payload
    length.
  - `gnut_build_msg_hdr_given_msg_id` copies a caller's ID instead of building
    one.
- **Tagged payload** (also module `GnutMsgs`). The source's untagged union
  becomes the datatype `Payload`, with variants `PingPayload` (empty),
  `PongPayload` and `ByePayload`.
- **Pong payload** (`gnut_pong_msg.dfy`, module `GnutPongMsg`). It is a fixed
  14-byte record: port, IPv4 address, shared-file count and shared kilobytes.
  - The build method writes it into the caller's array through a cursor.
  - The parse method reads it back.
  - Both are proved against the pure functions `EncodePong` and `DecodePong`.
  - The source converts every field with `sxs_htons`/`sxs_htonl`, so the model
    stores every field big-endian. The Gnutella 0.6 draft puts the port and
    the counts in little-endian order; the library does not follow it.
- **Bye payload** (`gnut_bye_msg.dfy`, module `GnutByeMsg`). It is a 2-byte
  code followed by a NUL-terminated description.
  - The method `ByePayload.Parse` scans for the terminator in a loop,
    allocates a fresh array and copies the text into it with a NUL. It records
    the text length plus one in the 16-bit `descStringLen` field. That field
    wraps modulo 65536, as the source's field does.
  - `ByePayload.Free` releases the copy.
  - The pure function `DecodeBye` is the specification of `Parse`.

`byte_order.dfy` (module `ByteOrder`) models the socket layer's byte-order
conversions as pure big-endian split and join functions. It also models a
native load on either kind of host, which the as-written models need.
`wrappers.dfy` holds `Option` and `Result`.

Where the model departs from the code, it follows the behaviour the code
evidently intends. The "## Findings" table lists each departure.
Specifically:

- Pong parsing converts the 32-bit fields with the 32-bit inverse.
- Pong parsing reports `TruncatedPayload` for fewer than 14 bytes. The
  source never checks `raw_pl_len`.
- Bye parsing reads the code in network order.
- Bye parsing scans only inside the payload. A terminator missing from the
  payload returns -2.
- Bye parsing accepts the exact-fit case.

Other defects in the source do not change any behaviour in the model:

- `src/gnut_pong_msg.c:40` has the typo `tmp_`.
- `src/gnut_pong_msg.c:51-60` cast to non-pointer types, so the file does not
  compile as written.
- The Bye decoder is defined as `_gnut_parse_by_msg_payload`
  (`src/gnut_bye_msg.c:23`), but the header declares
  `_gnut_parse_bye_msg_payload`. The model calls it `ByePayload.Parse`.
- The documentation of `gnut_build_msg_hdr_given_msg_id` gives 0x04 for Push
  (`src/gnut_msgs.h:121`). The documentation of `gnut_build_msg_hdr` gives
  0x40 (`src/gnut_msgs.h:102`). The model uses 0x40.

When the Bye description is shorter than the rest of the payload, the model
follows the code and accepts it. In that case bytes follow the terminator.

Some functions are specification-only helpers. The library has no code for
them, and they exist only to state round trips and message consistency:

- `EncodeBye`
- `EncodeHeader` and `DecodeHeader`, a 23-byte header serialiser with the
  payload length little-endian, as in the Gnutella draft. This departs from
  the network order that the library uses for every field it converts. The
  library itself has no header serialiser, so no source behaviour depends on
  the choice
- `EncodePayload`, `DecodePayload`, `PayloadLen` and `Consistent`

## Model

| member | source | states |
|---|---|---|
| ByteOrder.BE16 | include/sxs/sxs.h:875-883 | `sxs_htons` stores a 16-bit value as two bytes, most significant first |
| ByteOrder.FromBE16 | include/sxs/sxs.h:895-903 | `sxs_ntohs` of a 16-bit load takes the first byte as the high byte and the second as the low byte |
| ByteOrder.BE32 | include/sxs/sxs.h:865-873 | `sxs_htonl` stores a 32-bit value as four bytes, most significant first |
| ByteOrder.FromBE32 | include/sxs/sxs.h:885-893 | `sxs_ntohl` of a 32-bit load takes the first two bytes as the high half and the last two as the low half |
| ByteOrder.HostLoad16 | src/gnut_bye_msg.c:31 | a native 16-bit load weighs the first byte high on a big-endian host and low on a little-endian one |
| ByteOrder.HostLoad32 | src/gnut_pong_msg.c:33-39 | a native 32-bit load weighs the bytes most significant first on a big-endian host and least significant first on a little-endian one |
| ByteOrder.Ntohs | include/sxs/sxs.h:895-903 | `sxs_ntohs` is the identity on a big-endian host and swaps the two bytes on a little-endian one |
| ByteOrder.BE16RoundTrip | include/sxs/sxs.h:875-903 | `sxs_ntohs` undoes `sxs_htons`: joining the two network-order bytes of a 16-bit value gives the value back |
| ByteOrder.FromBE16RoundTrip | include/sxs/sxs.h:875-903 | every 2-byte pattern is the network-order encoding of the 16-bit value it joins to |
| ByteOrder.BE32RoundTrip | include/sxs/sxs.h:865-893 | `sxs_ntohl` undoes `sxs_htonl` for every 32-bit value |
| ByteOrder.FromBE32RoundTrip | include/sxs/sxs.h:865-893 | every 4-byte pattern is the network-order encoding of exactly one 32-bit value |
| ByteOrder.FromBE32Weights | include/sxs/sxs.h:885-893 | network order is most-significant byte first: the joined value is b0·2^24 + b1·2^16 + b2·2^8 + b3 |
| ByteOrder.NtohsOfHostLoad16 | src/gnut_pong_msg.c:30 | a native 16-bit load followed by `sxs_ntohs` reads the bytes as network order on both little- and big-endian hosts |
| GnutPongMsg.EncodePong | src/gnut_pong_msg.c:45-64 | the built payload is 14 bytes long |
| GnutPongMsg.EncodePongLayout | src/gnut_pong_msg.c:49-61 | port at bytes 0-1, address at 2-5, shared files at 6-9, KB shared at 10-13, each in network order |
| GnutPongMsg.DecodePong | src/gnut_pong_msg.c:25-43 | parsing fails exactly when fewer than 14 bytes are supplied |
| GnutPongMsg.CalcPongPayloadLen | src/gnut_pong_msg.c:66-68 | the computed length equals the length of the encoding, for every field value |
| GnutPongMsg.PongRoundTrip | src/gnut_pong_msg.c:25-64 | parsing a built payload gives back every field, the 32-bit ones included |
| GnutPongMsg.PongExampleBytes | src/gnut_pong_msg.c:49-61 | port 6346, 127.0.0.1, 42 files, 1024 KB encode to 18 ca 7f 00 00 01 00 00 00 2a 00 00 04 00, which decodes back |
| GnutPongMsg.DecodePongEncode | src/gnut_pong_msg.c:25-43 | parsing reads exactly the first 14 bytes: re-encoding the result reproduces them and later bytes are ignored |
| GnutPongMsg.StoreBE16 | src/gnut_pong_msg.c:51-52 | the port store writes its two network-order bytes at the cursor and nothing else |
| GnutPongMsg.StoreBE32 | src/gnut_pong_msg.c:54-61 | each 32-bit store writes its four network-order bytes at the cursor and nothing else |
| GnutPongMsg.BuildPongPayload | src/gnut_pong_msg.c:45-64 | the first 14 bytes of the caller's buffer become the encoding, the rest of the buffer is unchanged, and the result is 0 |
| GnutPongMsg.ParsePongPayload | src/gnut_pong_msg.c:25-43 | the cursor-based parse of the first rawLen bytes yields what DecodePong specifies, including the error for short input |
| GnutPongMsg.FreePongPayload | src/gnut_pong_msg.c:70-72 | releasing a Pong payload changes no memory |
| GnutPongMsg.SourceField32 | src/gnut_pong_msg.c:33-39 | as written, a 32-bit field decoded with `sxs_ntohs` is always below 65536, on either host |
| GnutPongMsg.SourceDecodePong | src/gnut_pong_msg.c:25-43 | as written, the port is still decoded correctly |
| GnutPongMsg.SourcePongRoundTripFails | src/gnut_pong_msg.c:33-39 | as written, the address 127.0.0.1 does not survive build-then-parse on any host |
| GnutPongMsg.SourceShortPongReadsPastEnd | src/gnut_pong_msg.c:25-40 | as written, a 10-byte payload's KB-shared field is read from the 4 bytes after it, so two memories with the same payload decode differently; the corrected decoder reports it truncated |
| GnutByeMsg.Status | src/gnut_bye_msg.c:36-56 | the status is 0 exactly on success and otherwise one of -1, -2, -3 |
| GnutByeMsg.Wrap16 | src/gnut_bye_msg.h:29 | the 16-bit `desc_string_len` holds the length exactly when the length is below 65536 |
| GnutByeMsg.FirstNul | src/gnut_bye_msg.c:34 | the bounded scan returns a length whose bytes are all non-NUL, followed by a NUL unless the buffer ends there |
| GnutByeMsg.DecodeBye | src/gnut_bye_msg.c:23-57 | a missing terminator is reported exactly when no byte after the code is NUL; allocation failure is -1 for the exact fit and -3 otherwise; on success the code is the first two bytes in network order, the text is the bytes up to the first NUL, and the recorded length is the text length + 1 wrapped to 16 bits |
| GnutByeMsg.DescStringLenExact | src/gnut_bye_msg.c:54 | the recorded length is the text length plus one exactly when the text is shorter than 65535 bytes |
| GnutByeMsg.AllocOnlyAffectsAcceptedPayloads | src/gnut_bye_msg.c:36-49 | allocation failure never changes whether a terminator is missing; a payload fails allocation exactly when it would otherwise be accepted |
| GnutByeMsg.EncodeBye | src/gnut_bye_msg.h:26-30 | specification-only encoder: code, text and a NUL take 2 + length + 1 bytes |
| GnutByeMsg.ByeRoundTrip | src/gnut_bye_msg.c:29-56 | decoding the encoding of a NUL-free text returns the code, the text and the text length + 1 |
| GnutByeMsg.DecodeByeEncode | src/gnut_bye_msg.c:29-56 | an accepted payload is the encoding of its decoded code and text, followed by the bytes after the terminator |
| GnutByeMsg.ScanDescription | src/gnut_bye_msg.c:34 | the scan loop stops at the first NUL or at the end of the payload and never reads past rawLen |
| GnutByeMsg.CopyDescription | src/gnut_bye_msg.c:45-52 | the fresh buffer holds the scanned bytes followed by one NUL |
| GnutByeMsg.ByePayload.constructor | src/gnut_bye_msg.h:26-30 | an empty payload with no description buffer |
| GnutByeMsg.ByePayload.Parse | src/gnut_bye_msg.c:23-57 | the status is that of DecodeBye; the code is stored whenever two bytes exist; a missing terminator leaves the description alone; an allocation failure leaves a null description; on success the description is a fresh buffer holding the text and a NUL, with the recorded length |
| GnutByeMsg.ByePayload.Free | src/gnut_bye_msg.c:59-63 | releases the description buffer when there is one and otherwise changes nothing; releasing the same buffer twice is excluded by the precondition |
| GnutByeMsg.SourceByeCode | src/gnut_bye_msg.c:31 | as written, the code is the bytes in host order: right on a big-endian host, swapped on a little-endian one |
| GnutByeMsg.SourceByeCodeLittleEndian | src/gnut_bye_msg.c:31 | as written, on a little-endian host, 00 01 'b' 'y' 'e' 00 yields code 256, where the network-order decoder yields code 1 and "bye" |
| GnutByeMsg.SourceStrlen | src/gnut_bye_msg.c:34 | as written, `strlen` runs past the payload into whatever bytes follow it in memory |
| GnutByeMsg.SourceDescLen | src/gnut_bye_msg.c:27-34 | as written, storing the `strlen` count in the `int desc_string_len` gives a value in the 32-bit signed range, congruent to the count modulo 2^32, and equal to it below 2^31 |
| GnutByeMsg.SourceByeOutcome | src/gnut_bye_msg.c:36-52 | as written, the comparisons convert the `int` length to a 64-bit `size_t`; an accepted description has that `int` length, which is the strlen count whenever the count is below 2^31 |
| GnutByeMsg.SourceExactFitWritesNull | src/gnut_bye_msg.c:36-40 | as written, the exact-fit payload 00 01 'b' 'y' 'e' 00 reaches the write through a null pointer, which the corrected decoder accepts |
| GnutByeMsg.SourceOffByOneAccepts | src/gnut_bye_msg.c:41-49 | as written, a 4-byte payload with no NUL, followed in memory by one, is accepted; the corrected decoder reports the missing terminator |
| GnutByeMsg.SourceShortPayloadAccepted | src/gnut_bye_msg.c:36-41 | as written, payloads of 2 and 0 bytes are accepted through the wrapped subtraction; the corrected decoder reports the missing terminator |
| GnutByeMsg.SourceAgreesAwayFromBoundary | src/gnut_bye_msg.c:34-49 | for payloads of 3 bytes or more whose strlen count fits in an `int`, away from the off-by-one case, the source and the corrected decoder agree: accept with trailing bytes, exact fit, and -2 correspond |
| GnutByeMsg.SourceOutcomeWithoutWrap | src/gnut_bye_msg.c:36-49 | as written, with at least 3 payload bytes and a count below 2^31, the source reaches the null write on an exact fit, returns -2 when the count exceeds the payload after the code, and otherwise accepts the count |
| GnutByeMsg.SourceLongExactFitRejected | src/gnut_bye_msg.c:34-43 | as written, an exact-fit description of 2^31 bytes or more turns negative in the `int`, misses the exact-fit test and is rejected with -2, where the corrected decoder accepts it |
| GnutMsgs.TypeTag | src/gnut_msgs.h:101-103 | each payload type's documented tag names that type again |
| GnutMsgs.TagRoundTrip | src/gnut_msgs.h:101-103 | the six documented types have distinct tags, and each tag names its type |
| GnutMsgs.GeneratedId | src/gnut_msgs.c:33-37 | a generated ID is 16 bytes |
| GnutMsgs.GeneratedIdIsMarked | src/gnut_msgs.h:82-87 | every generated ID has 0xff at byte 8, 0x00 at byte 15, and values 0-254 everywhere else |
| GnutMsgs.MarkedIdIsGenerated | src/gnut_msgs.c:33-37 | every ID with that marking is produced by some sequence of `rand()` results, so the marking characterizes exactly the generated IDs |
| GnutMsgs.NewHeader | src/gnut_msgs.c:52-55 | a built header has TTL 7 and hop count 0 |
| GnutMsgs.BuiltHeaderIsMarked | src/gnut_msgs.c:47-55 | a header from `gnut_build_msg_hdr` carries a marked ID and the given type and payload length |
| GnutMsgs.Header.constructor | src/gnut_msgs.h:49-55 | a zeroed header with its own 16-byte ID array |
| GnutMsgs.Header.BuildMsgId | src/gnut_msgs.c:28-40 | the ID becomes the marked ID made from the `rand()` results, only the ID array changes, and the result is success |
| GnutMsgs.Header.BuildMsgHdr | src/gnut_msgs.c:42-58 | the header becomes a fresh marked ID, the given type, TTL 7, hop count 0 and the given length, and the result is success |
| GnutMsgs.Header.BuildMsgHdrGivenMsgId | src/gnut_msgs.c:60-73 | the ID becomes exactly the caller's first 16 bytes, even when they are the header's own array; the other fields are set as `gnut_build_msg_hdr` sets them; the result is success |
| GnutMsgs.DecodePayload | src/gnut_msgs.h:62-77 | specification-only dispatch: a decoded payload's type has the header's tag, and an unknown tag is reported as such |
| GnutMsgs.PayloadRoundTrip | src/gnut_msgs.h:62-77 | every Ping, Pong and well-formed Bye payload decodes back from its encoding under its own tag |
| GnutMsgs.PayloadLen | src/gnut_msgs.h:62-77 | the length a header must carry is the encoding's length, 14 for Pong |
| GnutMsgs.BuiltMessageDecodes | src/gnut_msgs.c:42-73 | a header that `gnut_build_msg_hdr` or `gnut_build_msg_hdr_given_msg_id` builds from a payload's tag and length frames exactly the payload's bytes, and the decoder that tag names gives the payload back |
| GnutMsgs.EncodeHeader | src/gnut_msgs.h:49-55 | specification-only serialiser: a header is 23 bytes on the wire |
| GnutMsgs.DecodeHeader | src/gnut_msgs.h:49-55 | specification-only: a header can be read exactly when 23 bytes are available, and it has a 16-byte ID |
| GnutMsgs.HeaderRoundTrip | src/gnut_msgs.h:49-55 | specification-only: reading a serialised header gives every field back |
| GnutMsgs.DecodeHeaderEncode | src/gnut_msgs.h:49-55 | specification-only: re-serialising a read header reproduces its 23 bytes |

## Left out

- The socket layer of `include/sxs/sxs.h` (connections, send and receive, select, socket options, name lookup) is network I/O and is not part of this model. Only the byte-order conversions are modelled, as pure functions.
- `srand(time(NULL))` and `rand()` are a clock and a global generator. The sixteen values `rand()` returns are a parameter of `BuildMsgId` and `BuildMsgHdr`.
- `GnutMsgs.Header.BuildMsgHdr`: the branch that returns `GNUT_EBUILD_MSG_ID` is kept, but it cannot be reached, because `gnut_build_msg_id` always succeeds. So no contract states what that branch leaves unwritten.
- `malloc` failure is a boolean input of `ByePayload.Parse`, because Dafny's allocation cannot fail.
- Validity of C memory and of freed buffers: `free` is modelled by the ghost flag `released`. The model does not capture reading a released buffer.
- The IP address's host byte order inside `struct in_addr` is not modelled: the address is an opaque 32-bit value.
- Push, Query and Query Hit payloads are not implemented in the source, so they exist only as type tags.
- Platform typedefs, export macros and configuration headers are replaced by the subset types `uint8`, `uint16` and `uint32`.
- `GnutByeMsg.SourceByeOutcome` models the unsigned subtractions with a 64-bit `size_t` and a 32-bit `int`, as on LP64 platforms. It does not model 32-bit platforms, where the subtractions wrap modulo 2^32. The same inputs are accepted there while the count is below 2^31.
- `GnutByeMsg.SourceAgreesAwayFromBoundary` claims agreement only for strlen counts below 2^31. Above that the `int` conversion makes the source differ, and `GnutByeMsg.SourceLongExactFitRejected` shows one such input.

## Findings

| source | as written | input that shows it | evidently intended | confidence | as-written member | corrected member |
|---|---|---|---|---|---|---|
| src/gnut_pong_msg.c:25-40 | `raw_pl_len` is never read, so the decoder always reads 14 bytes | a 10-byte payload 18 ca 7f 00 00 01 00 00 00 2a: its KB-shared field comes from the 4 bytes after it, so memories differing only there give 0 or 1 on either host | report a payload shorter than 14 bytes as truncated | medium, not executed | GnutPongMsg.SourceShortPongReadsPastEnd | GnutPongMsg.DecodePong |
| src/gnut_pong_msg.c:33-39 | the 32-bit address and counts are converted with the 16-bit `sxs_ntohs`, so they are cut to 16 bits | Pong of port 6346, address 127.0.0.1, 42 files, 1024 KB: the address comes back wrong on either host | convert with `sxs_ntohl`, the inverse of the `sxs_htonl` used by the builder | high, not executed | GnutPongMsg.SourcePongRoundTripFails | GnutPongMsg.PongRoundTrip |
| src/gnut_bye_msg.c:31 | the code is loaded natively without `sxs_ntohs` | payload 00 01 'b' 'y' 'e' 00 on a little-endian host gives code 256 | read the code in network order, as every other field is, giving code 1 | medium, not executed | GnutByeMsg.SourceByeCodeLittleEndian | GnutByeMsg.ByeRoundTrip |
| src/gnut_bye_msg.c:38 | `desc_string = NULL` assigns rather than compares, so the exact-fit branch nulls the fresh buffer and then copies into it | payload 00 01 'b' 'y' 'e' 00 (terminator is the last byte) | test `desc_string == NULL` and accept the exact fit | high, not executed | GnutByeMsg.SourceExactFitWritesNull | GnutByeMsg.ByeRoundTrip |
| src/gnut_bye_msg.c:41 | `desc_string_len > raw_pl_len - 2` lets a terminator just past the payload through the else branch | 4-byte payload 00 01 'a' 'b' followed in memory by a NUL: accepted, reading byte 4 | a terminator outside the payload is missing and returns -2 | high, not executed | GnutByeMsg.SourceOffByOneAccepts | GnutByeMsg.DecodeBye |
| src/gnut_bye_msg.c:36-41 | `raw_pl_len - 2 - 1` and `raw_pl_len - 2` wrap for payloads under 3 bytes, so the else branch accepts them | 2-byte payload 00 01 followed in memory by a NUL, or an empty payload | a payload with no room for a terminator returns -2 | high, not executed | GnutByeMsg.SourceShortPayloadAccepted | GnutByeMsg.DecodeBye |
