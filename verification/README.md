# Verification of the vendored protocol cores

A Dafny 4.11 model of the C and C++ protocol code vendored with the Amigo iOS
app, with proofs. The app's own Swift code is not modelled. `dafny verify
dfyconfig.toml` checks everything. There are four parts.

**nanopb, the protobuf codec.** `Wire` says what bytes a message has and what
message bytes have, as functions on sequences. `Decoder` and `Encoder` are the
imperative code over streams, substreams, the circular field iterator and the
mask of required fields; every method is proved equal to a function of `Wire`.
`RoundTrip`, `Confinement`, `Skipping`, `Typing` and `Varint` prove the laws of
those functions, `WireBytes` and `KnownBytes` fix the bytes themselves.
Descriptor tables are values (`Schema`); a message is one slot per field.
`PB_FIELD_32BIT` and `PB_ENABLE_MALLOC` are set, as in the Pods configuration.

    Bytes Bits Varint Schema Wire WireBytes KnownBytes Streams Iterator
    RequiredMask Decoder Encoder Confinement Skipping Merging RoundTrip
    Oversize Limits Typing Presence

**The DTLS handshake transport of BoringSSL.** `HmFragment` and `Receiver` are
the reassembly buffers and the ring as objects, refining `Incoming`; `Sender`
refines `Outgoing`; `Bitmap` and `RecordReader` are the replay window and the
record checks, which `DtlsWire` holds against the bytes of sealed records.
`Dispatch` says what becomes of a record by its type. `Flights` and `Numbering`
keep account of what a flight spread over many calls has written and of the
record numbers used. `Delivery` composes sender and receiver over a network that
loses, repeats and reorders records; `SenderRuns` and `Arrival` prove what holds
of either end in every run, and `Recovery` that a flight still held gets through
when it is sent again.

    Cbs Headers ReplayWindow DtlsRecord DtlsWire Fragments Reassembly Incoming
    DtlsReceiver Outgoing Tiling Flights Numbering Account DtlsSender Delivery
    Dispatch SenderRuns Arrival Resending Recovery

**The TLS 1.2 handshake, stream framing and cipher choice of BoringSSL.**
`Handshake` holds the transitions of both machines and `HandshakeMachines` the
drivers that mutate the handshake object; `HandshakeStages` writes down the
agreed course of messages; `HandshakeRun` composes the machines over two
channels, `HandshakeDrivers` proves that the drivers do such runs, and
`HandshakeSchedules` says which schedules complete them. `HandshakeCourses` and
`HandshakeTampering` take each end alone, against a channel that does anything.
`StreamFraming` is the flight buffer and the handshake buffer over a byte
stream, `StreamProgress` how far its reader gets. `CipherChoice` is the choice
with equal-preference groups.

    Handshake HandshakeStages ClientProgress ServerProgress HandshakeRun
    HandshakeMachines HandshakeDrivers HandshakeSchedules HandshakeCourses
    HandshakeTampering StreamFraming StreamProgress CipherChoice

**The lock-free reference count of BoringSSL** against the locked one: `Refcount`.

## What came out

Most of what the code and its comments promise holds. These are the places
where it does not, or where the promise has an exact condition.

- The 32-bit varint decoder says it accepts 32-bit values and sign-extended
  negative ones. It accepts more: 2^63 + 2^31 decodes to 2^31. `Varint.Accept32`
  is the exact set of canonical encodings it accepts.
- A message comes back from its encoding exactly when every length prefix in it
  fits 32 bits, because lengths are written as 64-bit varints and read with the
  32-bit decoder (`RoundTrip.MessageRoundTrip`). A valid message whose prefix
  does not fit is an array of 2^29 negative numbers of the type int8_t inside a
  submessage: ten bytes each, 5 GiB (`Oversize.RejectedMessage`).
- A packed array that fails cuts the whole stream short by its payload exactly
  if the loop left bytes of it, that is, if the array was full or an entry
  failed before the end (`Decoder.DecodePackedField`); a second entry for an
  array of one does it (`Decoder.PackedLeavesBytes`).
- Two occurrences of a required, optional or singular submessage do what one
  occurrence with both payloads does exactly if the payloads can be joined
  (`Merging.OccurrencesMerge`). `Merging.Joinable` says when: where the first
  payload is decoded to its end, both must carry every required field, or both
  ways fail; where a zero tag stops it, it must be rejected anyway or the second
  change nothing; where it fails, the second must not complete the field it
  fails on. There are inputs for each way of failing
  (`Merging.FirstLacksRequired`, `Merging.SecondLacksRequired`,
  `Merging.FirstStopped`, `Merging.FirstCutOff`). In a oneof the second replaces
  the first (`Merging.UnionReplaced`); with two optional fields sent one after
  the other only the second is left (`Merging.UnionDoesNotMerge`).
- What a table does not know is skipped exactly, whatever it is, so newer
  message types can be read by older ones (`Skipping.SkipsMessage`), as long as
  its outermost length prefixes fit 32 bits.
- The proto3 check leaves out exactly the fields at their default, except
  fixed-length bytes and submessages with a required member, which are always
  sent (`Presence.LeftOutIff`).
- Looking for tag 0 in an empty table finds the end marker, so a field nobody
  knows is skipped exactly if it is not field 0 of an empty message type
  (`Confinement.UnmatchedField`); the bytes 2, 0 make decoding fail for that
  type and no other (`Confinement.EmptyTableRejects`).
- Two ends of a handshake that finish on each other's Finished have hashed the
  same messages, whatever became of the others on the way
  (`HandshakeTampering.DoneEndsAgree`).
- A fragment exactly one flight ahead is not ignored, as the comment at
  `d1_both.cc:383` says, but is a fatal internal error: the comparison at line
  381 is `>` where line 268 has `>=` (`Incoming.NotIgnoredAtDistanceFlight`,
  `Delivery.GenuineRefused`).
- Over any number of calls, MTUs, refusals and retransmissions a flight is
  written without gap or overlap exactly if no packet failed after whole
  messages had been sealed into it: the position then stays behind those
  messages, and they are skipped (`SenderRuns.FlightIsTiled`). The guards of the
  seals tell when (`SenderRuns.SkippedBy`); it takes an MTU above 64 KiB, a
  counter about to overflow or a message two epochs old (`Flights.SkipsNeeds`).
  An empty message, one of 70000 bytes and an MTU of 128 KiB do it
  (`SenderRuns.MessageSkipped`).
- A flight that is still held can be sent again until every message of it has
  been delivered, whatever was lost before (`Recovery.FlightRecovers`), at any
  MTU up to 16397. Above that a message can be sealed into a record that no
  receiver takes, and is never delivered at that MTU
  (`Recovery.OversizedNeverArrives`).
- Record numbers, including those of records that were never sent, are unique
  exactly if no epoch seals more than 2^48 records
  (`SenderRuns.SequenceNumbersUnique`). The seal that uses the last number
  fails, but the counter restarts at 0, and the next seal succeeds with a number
  used before (`Numbering.OverflowReusesNumbers`). Runs get there
  (`SenderRuns.NumbersRunOut`).
- The assertion in `add_outgoing` fails exactly for an eighth message in an open
  flight or one above 4 GiB (`SenderRuns.QueueingAsserts`,
  `SenderRuns.EighthMessageAsserts`).
- The assertion at the end of `dtls1_update_mtu` fails exactly for an MTU too
  small that is not to be queried (`DtlsSender.Sender.UpdateMtu`).
- From any state of a TLS stream a fixed number of messages can still be taken,
  whatever the order of the steps (`StreamProgress.ReadsAllReadable`). They are
  all those before the first that is longer than allowed exactly if the flight is
  within INT_MAX or all of them are in front of it, because a longer flight can
  never be flushed (`StreamProgress.FlightStuck`). A limit below the size of a
  record can be passed by a message that comes whole in one
  (`StreamProgress.LimitPassed`).
- References taken and dropped again restore the count exactly if it did not
  saturate in between (`Refcount.BurstUndone`).
- The cipher choice is right for well-formed group flags. For other flags the
  exact condition is that a usable cipher lies in a group that is closed
  (`CipherChoice.ChooseCipher`).

## Model

| member | source | states |
|---|---|---|
| Varint.EncodeMinimal | AmigoIOS-master/Pods/nanopb/pb_encode.c:574-594 | a value takes at most k bytes exactly when it has at most 7k significant bits, so the encoder always uses the fewest bytes |
| Varint.EncodeLength64 | AmigoIOS-master/Pods/nanopb/pb_encode.c:574-594 | no 64-bit value needs more than the ten bytes of the local buffer |
| Varint.RoundTrip64 | AmigoIOS-master/Pods/nanopb/pb_decode.c:250-270 | the 64-bit decoder gives back every 64-bit value from its encoding, whatever follows, and consumes exactly the encoding |
| Varint.ZigzagInverse | AmigoIOS-master/Pods/nanopb/pb_encode.c:596-605 | zigzag maps every int64 to an unsigned word (odd for negatives), computed with shifts and complement, and the decoder undoes it |
| Varint.Read32Refines | AmigoIOS-master/Pods/nanopb/pb_decode.c:182-242 | on varints of up to ten bytes the bit-level 32-bit loop, with its 8-bit shift counter, is the group-by-group reading with the overflow rules spelled out |
| Varint.Read32Value | AmigoIOS-master/Pods/nanopb/pb_decode.c:182-242 | whenever the 32-bit loop accepts, it consumed the whole varint and the result is the varint value modulo 2^32 |
| Varint.DecodersAgree | AmigoIOS-master/Pods/nanopb/pb_decode.c:182-270 | on every input that both decoders accept they consume the same bytes and the 32-bit result is the 64-bit one modulo 2^32; there is no length restriction |
| Varint.Accept32 | AmigoIOS-master/Pods/nanopb/pb_decode.c:182-242 | exactly which canonical encodings of 64-bit values the 32-bit decoder accepts, and what it returns: values below 2^32, and larger values with bits 31 and 63 set whose seven-bit groups between bits 35 and 62 are each all zeros or all ones |
| Varint.RoundTrip32 | AmigoIOS-master/Pods/nanopb/pb_decode.c:182-247 | every canonical 32-bit value is accepted and returned |
| Varint.NegativeInt32 | AmigoIOS-master/Pods/nanopb/pb_decode.c:199-214 | every negative int32, encoded as its 64-bit sign extension, is accepted and returned as its low word |
| Varint.AcceptsMoreThanInt32 | AmigoIOS-master/Pods/nanopb/pb_decode.c:199-214 | counterexample: 2^63 + 2^31 is neither a 32-bit value nor a sign-extended one, yet the overflow check lets it through |
| WireBytes.VarintByte | AmigoIOS-master/Pods/nanopb/pb_encode.c:574-594 | byte i of an encoding holds bits 7i to 7i + 6 of the value, and its top bit is set exactly if it is not the last |
| WireBytes.LittleEndianByte | AmigoIOS-master/Pods/nanopb/pb_encode.c:607-633 | byte i of a fixed-width number is bits 8i to 8i + 7 of the value, least significant byte first |
| WireBytes.FixedWords | AmigoIOS-master/Pods/nanopb/pb_decode.c:1254-1287 | four bytes read stand for the sum of the bytes with the weights 1, 2^8, 2^16 and 2^24, and eight for two such words, the low one first |
| WireBytes.MaskedByte | AmigoIOS-master/Pods/nanopb/pb_encode.c:607-633 | shifting a word right by 8i and masking with 0xFF gives byte i of the encoding |
| WireBytes.OrByte | AmigoIOS-master/Pods/nanopb/pb_decode.c:1254-1287 | or-ing in the next byte, shifted to its place, continues the number that the bytes before it stand for |
| KnownBytes.Unsigned | AmigoIOS-master/Pods/nanopb/pb_encode.c:574-594 | known bytes: 150 in field 1 is 08 96 01 |
| KnownBytes.Negative | AmigoIOS-master/Pods/nanopb/pb_encode.c:734-761 | known bytes: an int32 of -1 takes ten bytes behind its key |
| KnownBytes.Zigzagged | AmigoIOS-master/Pods/nanopb/pb_encode.c:596-605 | known bytes: a sint32 of -2 is 3, and a proto3 field that is 0 is not sent |
| KnownBytes.Fixed32 | AmigoIOS-master/Pods/nanopb/pb_encode.c:607-617 | known bytes: key 0D and the four bytes of the number, low byte first |
| KnownBytes.Fixed64 | AmigoIOS-master/Pods/nanopb/pb_encode.c:619-633 | known bytes: key 09 and the eight bytes of the number, low byte first |
| KnownBytes.Text | AmigoIOS-master/Pods/nanopb/pb_encode.c:674-680 | known bytes: "testing" in field 2 is 12 07 and the seven letters |
| KnownBytes.Nested | AmigoIOS-master/Pods/nanopb/pb_encode.c:682-730 | known bytes: the message of the first case as field 3 is 1A 03 08 96 01 |
| KnownBytes.Packed | AmigoIOS-master/Pods/nanopb/pb_encode.c:140-181 | known bytes: a packed array has one key and one length for all of it |
| KnownBytes.Tagged | AmigoIOS-master/Pods/nanopb/pb_encode.c:182-208 | known bytes: an array of bytes fields has a key and a length for each entry |
| Streams.OStream.BufWrite | AmigoIOS-master/Pods/nanopb/pb_encode.c:72-82 | the bytes land at the write position, the position moves past them and no other memory changes |
| Streams.OStream.Write | AmigoIOS-master/Pods/nanopb/pb_encode.c:101-119 | succeeds exactly when the budget has room and then appends; otherwise stream and memory are unchanged; a sizing stream always has room and only counts |
| Streams.OStream.EncodeVarint | AmigoIOS-master/Pods/nanopb/pb_encode.c:574-594 | appends the minimal varint all or nothing |
| Streams.VarintBuffer | AmigoIOS-master/Pods/nanopb/pb_encode.c:579-593 | the byte loop fills a prefix of its ten-byte buffer with the minimal encoding and never leaves the buffer |
| Streams.PutTwice | AmigoIOS-master/Pods/nanopb/pb_encode.c:101-119 | two writes in a row are one write of the concatenation |
| Streams.IStream.Read | AmigoIOS-master/Pods/nanopb/pb_decode.c:100-132 | succeeds exactly when enough bytes are left and then hands over and consumes that many; a failed read consumes nothing; the end of the stream never moves |
| Streams.IStream.ReadByte | AmigoIOS-master/Pods/nanopb/pb_decode.c:136-152 | hands over the next byte unless the stream is empty, keeping the end of the stream |
| Streams.IStream.DecodeVarint | AmigoIOS-master/Pods/nanopb/pb_decode.c:250-270 | the loop of shifts and ors computes the value of the varint modulo 2^64, consumes exactly it, and fails exactly on truncated or over-long input |
| Streams.IStream.DecodeVarint32Eof | AmigoIOS-master/Pods/nanopb/pb_decode.c:182-242 | accepts, returns and consumes what the specification of the 32-bit decoder says; eof is reported exactly on an empty stream |
| Streams.IStream.SkipVarint | AmigoIOS-master/Pods/nanopb/pb_decode.c:273-282 | consumes through the first byte without a continuation bit, and fails exactly when there is none |
| Streams.IStream.MakeSubstream | AmigoIOS-master/Pods/nanopb/pb_decode.c:367-380 | succeeds exactly when a length can be read and fits what is left; the substream holds exactly the next length bytes and the parent keeps exactly what follows them |
| Streams.IStream.CloseSubstream | AmigoIOS-master/Pods/nanopb/pb_decode.c:382-395 | puts the parent behind the last byte of the substream however much of it was read |
| Iterator.OffsetsFindMembers | AmigoIOS-master/Pods/nanopb/pb.h:389-403 | for a table generated from a struct, the relative offsets of the macros sum up to the true offsets of every data and size member, union members included |
| Iterator.FieldIter.Begin | AmigoIOS-master/Pods/nanopb/pb_common.c:8-18 | positions on the first field with consistent pointers and required count, and reports whether there is a field |
| Iterator.FieldIter.Next | AmigoIOS-master/Pods/nanopb/pb_common.c:20-76 | moves to the next field, wrapping to the first, and keeps pData and pSize at the closed-form offsets and required_field_index at the number of required fields before the position |
| Iterator.FieldIter.Find | AmigoIOS-master/Pods/nanopb/pb_common.c:78-95 | from any position, finds the field with the tag exactly when the table has it, and otherwise ends where it began; an empty table matches tag 0 only |
| RequiredMask.MarkSeen | AmigoIOS-master/Pods/nanopb/pb_decode.c:988-993 | sets in the two-word mask exactly the bit of the given required field |
| RequiredMask.WordFull | AmigoIOS-master/Pods/nanopb/pb_decode.c:1029-1044 | comparing a mask word with its n low bits set is asking whether each of the n fields it covers was seen |
| RequiredMask.CountRequired | AmigoIOS-master/Pods/nanopb/pb_decode.c:1008-1022 | seeking to the end from any position, with the fixup for the last field, counts all required fields of the table |
| RequiredMask.CheckRequired | AmigoIOS-master/Pods/nanopb/pb_decode.c:1006-1046 | passes exactly when each of the first 64 required fields was seen |
| Confinement.LeftFold | AmigoIOS-master/Pods/nanopb/pb_decode.c:919-997 | if a parses to its end, decoding a followed by b is decoding a and then decoding b into the result, for every b, failing or not |
| Confinement.UnknownFieldsInvisible | AmigoIOS-master/Pods/nanopb/pb_decode.c:933-962 | a well-formed field whose tag is not in the table changes nothing at any place between fields |
| Confinement.UnmatchedField | AmigoIOS-master/Pods/nanopb/pb_decode.c:925-962 | a field that is not in the table and can be skipped changes nothing exactly if it is not field 0 of an empty table, which fails |
| Confinement.EmptyTableRejects | AmigoIOS-master/Pods/nanopb/pb_common.c:78-95 | input: key and payload 2, 0 are skipped by every table that has a field, and rejected by the empty one |
| Merging.MessagesMerge | AmigoIOS-master/Pods/nanopb/pb_decode.c:919-1049 | for all payloads, decoding a message from two payloads in turn is decoding it from their concatenation exactly if they can be joined: the first ends and both carry every required field or both ways fail; or a zero tag stops the first, and it is rejected anyway or the second changes nothing; or the first fails and the second does not complete the field it fails on |
| Merging.OccurrencesMerge | AmigoIOS-master/Pods/nanopb/pb_decode.c:1463-1485 | for all payloads, two occurrences of a required, optional or singular submessage do what one occurrence with both payloads does exactly if the payloads can be joined |
| Merging.FirstLacksRequired | AmigoIOS-master/Pods/nanopb/pb_decode.c:1024-1046 | input: a required field in the second payload only; in turn the first is rejected, joined they are accepted |
| Merging.SecondLacksRequired | AmigoIOS-master/Pods/nanopb/pb_decode.c:1024-1046 | input: the same field in the first payload only; in turn the second is rejected |
| Merging.FirstStopped | AmigoIOS-master/Pods/nanopb/pb_decode.c:284-314 | input: a zero tag and then a field; in turn the field is set, joined it is not reached |
| Merging.FirstCutOff | AmigoIOS-master/Pods/nanopb/pb_decode.c:182-242 | input: a key and its value in different payloads; in turn the first is rejected, joined the field is set |
| Merging.UnionReplaced | AmigoIOS-master/Pods/nanopb/pb_decode.c:461-470 | what a oneof member is decoded to does not depend on what the union held |
| Merging.EntryAppended | AmigoIOS-master/Pods/nanopb/pb_decode.c:448-459 | what an array entry is decoded to does not depend on the entries before it |
| Merging.UnionDoesNotMerge | AmigoIOS-master/Pods/nanopb/pb_decode.c:461-470 | input: field 1 and then field 2 of a submessage in a oneof leave field 2 alone, both in one payload leave both |
| Confinement.LoopConfined | AmigoIOS-master/Pods/nanopb/pb_decode.c:919-997 | a successful field loop leaves a suffix of its input, empty unless a zero tag stopped it, and what it consumed determines the result regardless of what follows |
| Confinement.LocalDelimited | AmigoIOS-master/Pods/nanopb/pb_decode.c:367-395 | a length-delimited payload takes exactly its declared length from the input, and depends on nothing behind it |
| Confinement.LocalSkip | AmigoIOS-master/Pods/nanopb/pb_decode.c:316-326 | skipping a field depends only on the bytes it skips |
| Confinement.LocalTurn | AmigoIOS-master/Pods/nanopb/pb_decode.c:919-997 | one turn of the field loop consumes at least one byte and can be split off in front of any continuation |
| Skipping.SkipsValue | AmigoIOS-master/Pods/nanopb/pb_decode.c:316-326 | what the encoder writes for a value of any type is skipped exactly, in front of anything, or rejected when its length prefix exceeds 32 bits |
| Skipping.SkipsIff | AmigoIOS-master/Pods/nanopb/pb_decode.c:316-326 | skipping fails exactly on a value that is cut off and on the wire types 3, 4, 6 and 7 |
| Skipping.SkipsSlot | AmigoIOS-master/Pods/nanopb/pb_decode.c:933-962 | a field of any rule, set, unset, packed or with a key for each entry, is skipped whole by a table that does not have it |
| Skipping.SkipsMessage | AmigoIOS-master/Pods/nanopb/pb_decode.c:933-962 | main result: decoding the encoding of a message type with other tags leaves the destination alone and goes on behind it, or fails exactly when one of its outermost length prefixes exceeds 32 bits |
| Skipping.NewFieldsSkipped | AmigoIOS-master/Pods/nanopb/pb_decode.c:919-1049 | fields that only a newer message type has, at any place between the others, do not change what an older receiver decodes |
| Limits.EntriesExactly | AmigoIOS-master/Pods/nanopb/pb_decode.c:448-459 | entries with a key each, numbers in unpacked form included, go behind those already there exactly if the array has room for all of them; otherwise decoding fails |
| Limits.PackedExactly | AmigoIOS-master/Pods/nanopb/pb_decode.c:428-447 | a packed array goes behind the entries already there exactly if the array has room for all of it; otherwise decoding fails |
| Limits.FirstRequiredTracked | AmigoIOS-master/Pods/nanopb/pb_decode.c:1006-1046 | a message in which one required field is missing is rejected exactly if that is one of the first 64 |
| Limits.SeenAreRequired | AmigoIOS-master/Pods/nanopb/pb_decode.c:988-993 | nothing but the first 64 required fields is ever marked, and no mark is taken back |
| Typing.NumberVerdict | AmigoIOS-master/Pods/nanopb/pb_decode.c:1289-1372 | a varint field takes exactly the values that mean a number within the range of its size: signed fields of up to 32 bits read the low 32 bits, wider ones all 64, zigzag fields half the value with the sign of its parity |
| Typing.BlobVerdict | AmigoIOS-master/Pods/nanopb/pb_decode.c:1391-1461 | bytes are taken if they leave room for their header, strings for their terminator, and fixed-length bytes in full length or empty; a string ends at its first NUL |
| Typing.MessageTyped | AmigoIOS-master/Pods/nanopb/pb_decode.c:901-1049 | main result: whatever the input, decoding into a struct of the C types leaves one of the C types: numbers in range, strings terminated, arrays within their size, at most one member of a union, at every depth |
| Typing.DecodedTyped | AmigoIOS-master/Pods/nanopb/pb_decode.c:1051-1063 | the same for a struct reset to defaults first |
| Decoder.DecVarint | AmigoIOS-master/Pods/nanopb/pb_decode.c:1289-1324 | a signed field gets the varint in two's complement if it fits the field, and decoding fails when it does not |
| Decoder.DecUvarint | AmigoIOS-master/Pods/nanopb/pb_decode.c:1326-1348 | an unsigned field gets the varint, or decoding fails when it does not fit the field |
| Decoder.DecSvarint | AmigoIOS-master/Pods/nanopb/pb_decode.c:1350-1372 | a zigzag field gets the unfolded number, or decoding fails when it does not fit the field |
| Decoder.DecodeFixed32 | AmigoIOS-master/Pods/nanopb/pb_decode.c:1254-1267 | the shifts and ors compute the number whose low byte comes first; too short an input is left alone |
| Decoder.DecodeFixed64 | AmigoIOS-master/Pods/nanopb/pb_decode.c:1269-1287 | the same for eight bytes |
| Decoder.DecFixed | AmigoIOS-master/Pods/nanopb/pb_decode.c:1374-1389 | a fixed field gets that number, or decoding fails on too short an input |
| Decoder.DecBytes | AmigoIOS-master/Pods/nanopb/pb_decode.c:1391-1426 | a bytes field gets the declared number of bytes, or decoding fails when they overflow the field |
| Decoder.DecString | AmigoIOS-master/Pods/nanopb/pb_decode.c:1428-1461 | a string field gets the payload up to its first NUL, or decoding fails when payload and terminator overflow the field |
| Decoder.DecFixedLengthBytes | AmigoIOS-master/Pods/nanopb/pb_decode.c:1487-1508 | a fixed-length field accepts exactly its length, or an empty payload that zeroes it |
| Decoder.DecSubmessage | AmigoIOS-master/Pods/nanopb/pb_decode.c:1463-1485 | the payload is decoded as a message, into defaults for a new array entry and into the present contents otherwise; on success the parent has advanced by exactly the declared length |
| Decoder.FieldSetToDefault | AmigoIOS-master/Pods/nanopb/pb_decode.c:812-882 | the slot gets its default: no has flag, count zero, no union member, the declared value or zeros |
| Decoder.MessageSetToDefaults | AmigoIOS-master/Pods/nanopb/pb_decode.c:884-895 | every field of the struct, at every depth, gets its default |
| Decoder.DecodePacked | AmigoIOS-master/Pods/nanopb/pb_decode.c:428-447 | the loop over a packed array yields the old entries followed by the decoded ones, succeeds exactly when every entry decodes, none is cut and the array has room, and otherwise leaves exactly the bytes behind the failed entry or those there was no room for |
| Decoder.DecodePackedField | AmigoIOS-master/Pods/nanopb/pb_decode.c:428-447 | the packed branch stores the array or fails; a failure has moved the end of the stream, by the length of the payload, exactly if the loop left bytes of it |
| Decoder.PackedLeavesBytes | AmigoIOS-master/Pods/nanopb/pb_decode.c:428-447 | input: a second entry for an array of one is left behind, whereas an entry cut off at the end is not |
| Decoder.DecodeStaticField | AmigoIOS-master/Pods/nanopb/pb_decode.c:401-475 | writes exactly the slot that the last-one-wins meaning of the field names: has flag set, entry appended, or union member replaced |
| Decoder.SkipField | AmigoIOS-master/Pods/nanopb/pb_decode.c:316-326 | leaves what follows one value of the wire type, which is exactly what the encoder writes for a value (Skipping.SkipsValue), and fails on unknown wire types and truncation |
| Decoder.DecodeField | AmigoIOS-master/Pods/nanopb/pb_decode.c:925-996 | one turn of the loop: an unknown field is skipped, a known one stored, and a required one marked in the mask |
| Decoder.DecodeNoInit | AmigoIOS-master/Pods/nanopb/pb_decode.c:901-1049 | the streaming loop over iterator, mask and struct computes the message that the byte sequence means, fails exactly when it has no meaning or a required field is missing, and stops at the right byte; it terminates because each nesting level works on fewer bytes |
| Decoder.Decode | AmigoIOS-master/Pods/nanopb/pb_decode.c:1051-1063 | the same from a struct reset to defaults |
| RoundTrip.MessageRoundTrip | AmigoIOS-master/Pods/nanopb/pb_encode.c:494-516 | main result: for every well-formed table and every valid message, decoding the encoding yields the same observable message if every nested length prefix fits 32 bits, and is rejected otherwise |
| Oversize.RejectedMessage | AmigoIOS-master/Pods/nanopb/pb_encode.c:682-730 | input: a valid message with a submessage of 2^29 one-byte numbers, all of them -1, has an encoding of 5 GiB, which the decoder rejects |
| RoundTrip.LoopRoundTrip | AmigoIOS-master/Pods/nanopb/pb_decode.c:919-997 | the same from any field on: after i fields the decoder holds exactly the first i fields of the message and the defaults of the others |
| RoundTrip.RoundTripBelow4G | AmigoIOS-master/Pods/nanopb/pb_decode.c:1051-1063 | every valid message can be encoded, and the round trip is unconditional when the encoding is below 4 GiB |
| RoundTrip.MessageEncodes | AmigoIOS-master/Pods/nanopb/pb_encode.c:494-516 | a message with typed slots always has an encoding |
| RoundTrip.MessageFits | AmigoIOS-master/Pods/nanopb/pb_encode.c:682-730 | in an encoding below 4 GiB every nested length prefix fits 32 bits |
| RoundTrip.ValueRoundTrip | AmigoIOS-master/Pods/nanopb/pb_encode.c:682-868 | the round trip for one value, submessages included, in front of any continuation |
| RoundTrip.NumberRoundTrip | AmigoIOS-master/Pods/nanopb/pb_encode.c:734-808 | every number of the C type of its field survives, for all five integer encodings and all four widths |
| RoundTrip.BlobRoundTrip | AmigoIOS-master/Pods/nanopb/pb_encode.c:810-868 | bytes, NUL-terminated strings and fixed-length bytes survive |
| RoundTrip.PackedRoundTrip | AmigoIOS-master/Pods/nanopb/pb_encode.c:126-181 | a packed array is decoded entry by entry behind the entries already there |
| RoundTrip.UnpackedRoundTrip | AmigoIOS-master/Pods/nanopb/pb_encode.c:182-208 | an array of submessages, strings or bytes is decoded entry by entry behind the entries already there |
| RoundTrip.ArrayRoundTrip | AmigoIOS-master/Pods/nanopb/pb_encode.c:126-211 | a repeated field of any type is decoded to its entries, or is rejected when a length prefix does not fit |
| RoundTrip.SlotRoundTrip | AmigoIOS-master/Pods/nanopb/pb_encode.c:307-392 | required, optional, singular, repeated and oneof fields, set or unset, are decoded to the same slot |
| RoundTrip.DefaultIsStored | AmigoIOS-master/Pods/nanopb/pb_encode.c:215-303 | a singular value that the proto3 check leaves out is what the decoder starts from |
| RoundTrip.DefaultsAreStored | AmigoIOS-master/Pods/nanopb/pb_encode.c:215-303 | a submessage that the proto3 check leaves out is, observably, the default submessage at every depth |
| Presence.LeftOutIff | AmigoIOS-master/Pods/nanopb/pb_encode.c:215-303 | the value of a proto3 field is left out if and only if it is, observably, what the decoder starts from and the field is not always sent, as fixed-length bytes and submessages with a required member are |
| Presence.EmptyMessage | AmigoIOS-master/Pods/nanopb/pb_decode.c:812-895 | an empty input is accepted exactly if nothing is required, and leaves every member at the value of its descriptor, without entries or union member |
| Limits.MessageEncodesIff | AmigoIOS-master/Pods/nanopb/pb_encode.c:494-516 | exactly which messages have an encoding: all that is sent is within range and within the size of its field and array, and what is not sent is not looked at |
| Limits.ValueEncodesIff | AmigoIOS-master/Pods/nanopb/pb_encode.c:734-868 | the same for one value: numbers of a size that exists, bytes that leave room for their header, strings that may fill their array |
| Encoder.EncodeTag | AmigoIOS-master/Pods/nanopb/pb_encode.c:635-639 | appends the key of field number and wire type all or nothing |
| Encoder.EncodeString | AmigoIOS-master/Pods/nanopb/pb_encode.c:674-680 | appends length and payload, or fails when the two do not fit the budget |
| Encoder.EncodeFixed32 | AmigoIOS-master/Pods/nanopb/pb_encode.c:607-617 | the shifts and masks append the four bytes of the number, low byte first |
| Encoder.EncodeFixed64 | AmigoIOS-master/Pods/nanopb/pb_encode.c:619-633 | the same for eight bytes |
| Encoder.EncNumber | AmigoIOS-master/Pods/nanopb/pb_encode.c:734-808 | appends the varint, zigzag or fixed form of the number; refuses integer sizes that do not exist |
| Encoder.EncBlob | AmigoIOS-master/Pods/nanopb/pb_encode.c:810-868 | appends the delimited bytes; refuses bytes longer than the field |
| Encoder.EncodeSubmessage | AmigoIOS-master/Pods/nanopb/pb_encode.c:682-730 | the sizing pass and the writing pass agree at every nesting depth, so the size-changed error cannot happen; the result is the length prefix and the submessage |
| Encoder.EncodeEntries | AmigoIOS-master/Pods/nanopb/pb_encode.c:157-163 | the loop over a packed array appends the entries in order, on sizing and real streams alike |
| Encoder.EncodeEntriesTagged | AmigoIOS-master/Pods/nanopb/pb_encode.c:182-208 | the loop over an unpacked array appends each entry behind its own tag |
| Encoder.PackedSize | AmigoIOS-master/Pods/nanopb/pb_encode.c:145-165 | 4 or 8 bytes an entry, or a sizing pass, give the number of bytes the entries will take |
| Encoder.EncodePackedArray | AmigoIOS-master/Pods/nanopb/pb_encode.c:140-181 | tag, size and entries; the size announced is the size written |
| Encoder.EncodeSized | AmigoIOS-master/Pods/nanopb/pb_encode.c:167-180 | size and entries; a sizing stream that only adds the size counts what a real stream writes |
| Encoder.EncodeArray | AmigoIOS-master/Pods/nanopb/pb_encode.c:126-211 | nothing for an empty array, an error above the maximum, else packed or tagged entries |
| Encoder.CheckDefaultValue | AmigoIOS-master/Pods/nanopb/pb_encode.c:215-303 | true exactly when the value is observably the default: zero, empty, or a submessage with nothing set at any depth |
| Encoder.CheckDefaultSlot | AmigoIOS-master/Pods/nanopb/pb_encode.c:215-303 | the same for a field inside a submessage, by has flag, count, union selector or value |
| Encoder.EncodeBasicField | AmigoIOS-master/Pods/nanopb/pb_encode.c:307-392 | appends nothing for unset fields and the field's wire form for set ones |
| Encoder.EncodeFields | AmigoIOS-master/Pods/nanopb/pb_encode.c:494-516 | pb_encode appends exactly the encoding of the message, succeeds exactly when there is one and it fits, and never writes outside the budget |
| Encoder.GetEncodedSize | AmigoIOS-master/Pods/nanopb/pb_encode.c:533-542 | the size found is the length of the encoding, and failure means there is none |
| Encoder.FixedPackedSize | AmigoIOS-master/Pods/nanopb/pb_encode.c:146-153 | entries of fixed width take 4 or 8 bytes each |
| Encoder.SizingEqualsWriting | AmigoIOS-master/Pods/nanopb/pb_encode.c:101-119 | a sizing run and a real run of one encoding advance bytes_written alike, and the real run succeeds exactly when the size found fits |
| ReplayWindow.ToU64Be | AmigoIOS-master/Pods/BoringSSL-GRPC/ssl/dtls_record.cc:128-136 | the loop of shifts computes the big-endian value of eight bytes |
| ReplayWindow.Bitmap.ShouldDiscard | AmigoIOS-master/Pods/BoringSSL-GRPC/ssl/dtls_record.cc:140-150 | a number is a replay exactly when it was accepted before or lies 64 or more below the highest accepted |
| ReplayWindow.Bitmap.Record | AmigoIOS-master/Pods/BoringSSL-GRPC/ssl/dtls_record.cc:155-175 | shifting and or-ing the 64-bit map adds exactly this number to the accepted set the map stands for |
| DtlsRecord.NumberEpoch | AmigoIOS-master/Pods/BoringSSL-GRPC/ssl/dtls_record.cc:225-227 | the two epoch bytes are the top 16 bits of the record number, so numbers of different epochs differ |
| DtlsWire.SequenceUpdate | AmigoIOS-master/Pods/BoringSSL-GRPC/ssl/tls_record.cc:154-163 | the big-endian counter goes up by one, and fails and restarts at zero exactly at its maximum |
| DtlsWire.WriteRecord | AmigoIOS-master/Pods/BoringSSL-GRPC/ssl/dtls_record.cc:315-350 | the header is type, version, epoch, the last six bytes of the write sequence and the length, each high byte first, in front of what the cipher made; bodies of 64 KiB fail |
| DtlsWire.RecordParses | AmigoIOS-master/Pods/BoringSSL-GRPC/ssl/dtls_record.cc:192-205 | a record written so is read back with its type, version, epoch, number and body, whatever follows, exactly if the body is at most SSL3_RT_MAX_ENCRYPTED_LENGTH |
| DtlsWire.SealedIsJudged | AmigoIOS-master/Pods/BoringSSL-GRPC/ssl/dtls_record.cc:177-272 | main result: a sealed record is discarded exactly if its body is too long, its version or epoch foreign, its number stale or its body not authentic, and otherwise handed on with its type and plaintext; exactly its bytes are consumed, or the whole packet if version or length are wrong |
| DtlsWire.FreshIsOpened | AmigoIOS-master/Pods/BoringSSL-GRPC/ssl/dtls_record.cc:177-272 | a sealed record of the reader's epoch is opened with its plaintext if and only if lengths and version are right and it is no replay |
| DtlsWire.CutOffIsDiscarded | AmigoIOS-master/Pods/BoringSSL-GRPC/ssl/dtls_record.cc:192-205 | a packet that ends within a record is discarded whole |
| DtlsRecord.RecordReader.OpenRecord | AmigoIOS-master/Pods/BoringSSL-GRPC/ssl/dtls_record.cc:177-272 | answers and consumes what the byte-level theorems (DtlsWire.SealedIsJudged) are about; a record that is handed on was never accepted before in any epoch and is remembered from then on |
| DtlsRecord.RecordReader.NextEpoch | AmigoIOS-master/Pods/BoringSSL-GRPC/ssl/dtls_method.cc:81-95 | the epoch advances and the window is cleared; what was accepted in earlier epochs can still never be accepted again |
| Fragments.FragmentRoundTrip | AmigoIOS-master/Pods/BoringSSL-GRPC/ssl/d1_both.cc:459-473 | parsing gives back every fragment whose header fields fit, whatever follows it |
| Headers.FragmentHeader | AmigoIOS-master/Pods/BoringSSL-GRPC/ssl/d1_both.cc:511-523 | the header of a fragment byte by byte: type, 24-bit message length, sequence number, offset and fragment length, each high byte first |
| Headers.BigEndianByte | AmigoIOS-master/Pods/BoringSSL-GRPC/ssl/d1_both.cc:511-523 | byte i of an n-byte field is bits 8(n - 1 - i) and up of its value |
| Fragments.FinishMessage | AmigoIOS-master/Pods/BoringSSL-GRPC/ssl/d1_both.cc:511-537 | patching the length makes exactly the unfragmented message, and fails exactly for bodies of 2^24 bytes or more |
| Reassembly.BitRangeBit | AmigoIOS-master/Pods/BoringSSL-GRPC/ssl/d1_both.cc:201-205 | exactly the bits from start up to end are set |
| Reassembly.MarkBits | AmigoIOS-master/Pods/BoringSSL-GRPC/ssl/d1_both.cc:222-236 | exactly the bytes of the range are added to the mask, over any number of mask bytes, without leaving it |
| Reassembly.AllMarked | AmigoIOS-master/Pods/BoringSSL-GRPC/ssl/d1_both.cc:238-247 | the byte-wise test succeeds exactly when every byte of the message is marked |
| Reassembly.HmFragment.constructor | AmigoIOS-master/Pods/BoringSSL-GRPC/ssl/d1_both.cc:152-199 | a new fragment has received nothing; an empty message is complete at once |
| Reassembly.HmFragment.Mark | AmigoIOS-master/Pods/BoringSSL-GRPC/ssl/d1_both.cc:211-251 | the set of received bytes grows by the range; bits past the message stay clear; the mask is freed exactly on completion |
| Reassembly.HmFragment.CompleteWhenUnmasked | AmigoIOS-master/Pods/BoringSSL-GRPC/ssl/d1_both.cc:183-251 | in every valid state the mask is NULL exactly when all bytes have arrived |
| Reassembly.HmFragment.Store | AmigoIOS-master/Pods/BoringSSL-GRPC/ssl/d1_both.cc:399-402 | the body is copied to its place, its bytes count as received, and no other byte changes |
| Incoming.InsertKeepsRing | AmigoIOS-master/Pods/BoringSSL-GRPC/ssl/d1_both.cc:265-295 | after any fragment every occupied slot i holds a message whose number is congruent to i and within one flight of the read number, and a fragment meets only its own message, so the assertion on frag->seq cannot fail |
| Incoming.InsertKeepsPure | AmigoIOS-master/Pods/BoringSSL-GRPC/ssl/d1_both.cc:362-402 | a fragment of the current epoch does not mix epochs in the ring |
| Incoming.OpenKeepsPure | AmigoIOS-master/Pods/BoringSSL-GRPC/ssl/d1_both.cc:297-406 | neither does a whole record of any kind |
| Incoming.NextKeepsPure | AmigoIOS-master/Pods/BoringSSL-GRPC/ssl/d1_both.cc:426-438 | moving on drops the only message that may be older than the epoch |
| Incoming.SetReadStateKeepsPure | AmigoIOS-master/Pods/BoringSSL-GRPC/ssl/dtls_method.cc:81-95 | an epoch change that is let through leaves no fragment of the old epoch except those of the message being read |
| Incoming.NotIgnoredAtDistanceFlight | AmigoIOS-master/Pods/BoringSSL-GRPC/ssl/d1_both.cc:380-385 | of the fragments at least one flight ahead, all are ignored except those exactly one flight ahead, which are fatal |
| DtlsReceiver.Receiver.IsCurrentMessageComplete | AmigoIOS-master/Pods/BoringSSL-GRPC/ssl/d1_both.cc:255-259 | true exactly when every byte of the next message has arrived |
| DtlsReceiver.Receiver.GetIncomingMessage | AmigoIOS-master/Pods/BoringSSL-GRPC/ssl/d1_both.cc:265-295 | hands out the slot of the message, new when empty; refuses numbers out of range and contradictory headers without changing anything |
| DtlsReceiver.Receiver.InsertFragment | AmigoIOS-master/Pods/BoringSSL-GRPC/ssl/d1_both.cc:362-402 | the object graph of ring, buffers and masks takes the step the ring theorems are about, with the same errors |
| DtlsReceiver.Receiver.InsertFragments | AmigoIOS-master/Pods/BoringSSL-GRPC/ssl/d1_both.cc:350-405 | the same for all fragments of a record, in order, up to the first bad one |
| DtlsReceiver.Receiver.OpenHandshake | AmigoIOS-master/Pods/BoringSSL-GRPC/ssl/d1_both.cc:297-406 | the same for a record of any type, ChangeCipherSpec and stray application data included |
| DtlsReceiver.Receiver.GetMessage | AmigoIOS-master/Pods/BoringSSL-GRPC/ssl/d1_both.cc:408-424 | offers exactly the next message in order, once it is complete |
| DtlsReceiver.Receiver.NextMessage | AmigoIOS-master/Pods/BoringSSL-GRPC/ssl/d1_both.cc:426-438 | frees the slot of the message that was read and advances; that a message is being read, the first assertion at its head, is up to the caller, and that it is complete, the second, follows from it |
| DtlsReceiver.Receiver.HasUnprocessedHandshakeData | AmigoIOS-master/Pods/BoringSSL-GRPC/ssl/d1_both.cc:440-457 | true exactly when a ChangeCipherSpec or any fragment other than of the message being read is waiting |
| DtlsReceiver.Receiver.SetReadState | AmigoIOS-master/Pods/BoringSSL-GRPC/ssl/dtls_method.cc:81-95 | refused exactly when unprocessed handshake data is waiting, and then changes nothing |
| DtlsReceiver.Receiver.TakeChangeCipherSpec | AmigoIOS-master/Pods/BoringSSL-GRPC/ssl/d1_both.cc:485-489 | a waiting ChangeCipherSpec is handed over once |
| DtlsReceiver.Receiver.OpenChangeCipherSpec | AmigoIOS-master/Pods/BoringSSL-GRPC/ssl/d1_both.cc:475-490 | a pending ChangeCipherSpec is handed over without another record; otherwise the record is processed, and dropped if it is in order and brings none |
| Dispatch.ChangeCipherSpecVerdict | AmigoIOS-master/Pods/BoringSSL-GRPC/ssl/d1_both.cc:319-338 | a ChangeCipherSpec is flagged exactly if it is unencrypted and holds the one byte 1; otherwise it is fatal and changes nothing |
| Dispatch.OtherVerdict | AmigoIOS-master/Pods/BoringSSL-GRPC/ssl/d1_both.cc:306-347 | application data is dropped under a cipher and fatal without one, every other type is fatal, and neither changes anything |
| Dispatch.HandshakeVerdict | AmigoIOS-master/Pods/BoringSSL-GRPC/ssl/d1_both.cc:350-405 | the fragments of a record are taken one after another up to the first that is refused, which is fatal, as is what is no fragment |
| Dispatch.FragmentVerdict | AmigoIOS-master/Pods/BoringSSL-GRPC/ssl/d1_both.cc:362-405 | exactly which fragments of the flight being read are refused: those out of their message, of an over-long one, of any but the next in the first encrypted epoch, or of another type or length than what is buffered; nothing changes then |
| Dispatch.CcsPending | AmigoIOS-master/Pods/BoringSSL-GRPC/ssl/d1_both.cc:334-338 | main result: over every run a ChangeCipherSpec is pending exactly if one has arrived in the unencrypted epoch and none was taken since |
| Dispatch.ReadStateChanges | AmigoIOS-master/Pods/BoringSSL-GRPC/ssl/dtls_method.cc:81-95 | over every run the read epoch changes exactly if none is pending and nothing but the message being read is buffered |
| Outgoing.SealStep | AmigoIOS-master/Pods/BoringSSL-GRPC/ssl/d1_both.cc:644-733 | sealing continues the current message where it stood, under the epoch it was queued in, within the given size, and changes nothing but counters and offset |
| Outgoing.PacketPath | AmigoIOS-master/Pods/BoringSSL-GRPC/ssl/d1_both.cc:739-780 | a packet that is sent is not empty, fits the MTU, and its records continue the flight contiguously from where it stood |
| Tiling.TilesBody | AmigoIOS-master/Pods/BoringSSL-GRPC/ssl/d1_both.cc:644-733 | the bodies of a message's fragments, put together, are the message; an empty message is sent as one fragment |
| Tiling.FlightTiled | AmigoIOS-master/Pods/BoringSSL-GRPC/ssl/d1_both.cc:782-827 | the records of a completely sent flight fall into one run per message, each tiling its message without gap or overlap, and there are no others |
| DtlsSender.Sender.AddOutgoing | AmigoIOS-master/Pods/BoringSSL-GRPC/ssl/d1_both.cc:555-594 | queues behind a flight still open or starts a new one, under the current epoch, and numbers handshake messages only; refused exactly when the flight is full or the message too long |
| DtlsSender.Sender.SealRecord | AmigoIOS-master/Pods/BoringSSL-GRPC/ssl/dtls_record.cc:294-335 | the record gets the next number of its epoch; nothing is used up when it does not fit |
| DtlsSender.Sender.SealNextMessage | AmigoIOS-master/Pods/BoringSSL-GRPC/ssl/d1_both.cc:644-733 | takes the step that SealStep is about |
| DtlsSender.Sender.SealNextPacket | AmigoIOS-master/Pods/BoringSSL-GRPC/ssl/d1_both.cc:739-780 | a packet that is made is not empty, fits and carries the flight on from the position it had |
| DtlsSender.Sender.UpdateMtu | AmigoIOS-master/Pods/BoringSSL-GRPC/ssl/d1_both.cc:615-632 | an MTU that is large enough is kept, else the one the transport knows is taken if it is in range, else the default; the assertion at the end holds exactly if it was large enough or could be queried |
| DtlsSender.Sender.SendPacket | AmigoIOS-master/Pods/BoringSSL-GRPC/ssl/d1_both.cc:797-815 | a refused packet leaves the position where it was, so it will be sealed again; a sent one moves it to the end of what is in it; it fails exactly if the guards say so, and a failed one leaves the position exactly if no message was sealed into it before |
| DtlsSender.Sender.SendFlight | AmigoIOS-master/Pods/BoringSSL-GRPC/ssl/d1_both.cc:782-827 | terminates for every transport; what was written is one contiguous piece of the flight, up to the state in which the last packet was begun, every packet fits the MTU, refused packets are not part of it, and on success the whole rest of the flight was written; a failed packet went on from there exactly if it skips no message |
| DtlsSender.Sender.FlushFlight | AmigoIOS-master/Pods/BoringSSL-GRPC/ssl/d1_both.cc:829-834 | the flight is closed; what is written continues it from where it stood; once nothing is left, all that was written since it was begun, over however many calls, tiles every message exactly if none was skipped |
| DtlsSender.Sender.Retransmit | AmigoIOS-master/Pods/BoringSSL-GRPC/ssl/d1_both.cc:836-845 | the flight is written again from the first byte of the first message; on success what this call wrote tiles each message by a run of its own |
| Flights.SealOutcome | AmigoIOS-master/Pods/BoringSSL-GRPC/ssl/d1_both.cc:644-733 | whether sealing the next message makes progress, has no room or fails, how much of it fits and how long the record is, by its guards alone |
| Flights.PacketFailsIff | AmigoIOS-master/Pods/BoringSSL-GRPC/ssl/d1_both.cc:739-780 | a packet fails exactly if its first message is unsendable, has no room or overflows a counter or length, or a later one fails once whole messages are in |
| Flights.SkipsIff | AmigoIOS-master/Pods/BoringSSL-GRPC/ssl/d1_both.cc:739-780 | a packet fails with messages already in it exactly if the messages before fit whole and the next one meets a failing guard |
| Flights.FailedPosition | AmigoIOS-master/Pods/BoringSSL-GRPC/ssl/d1_both.cc:797-806 | a failed packet leaves the position where it was exactly if no message had been sealed into it |
| Flights.SkipsNeeds | AmigoIOS-master/Pods/BoringSSL-GRPC/ssl/d1_both.cc:739-780 | that takes an MTU above 64 KiB, a record counter within a flight of its end, or a message that is no longer sendable |
| Flights.SmallThenLargeSkips | AmigoIOS-master/Pods/BoringSSL-GRPC/ssl/d1_both.cc:739-806 | input: an empty message and one of 70000 bytes at an MTU of 128 KiB; the first is sealed, the second fails, and sending goes on with the second |
| Flights.FlightComplete | AmigoIOS-master/Pods/BoringSSL-GRPC/ssl/d1_both.cc:782-834 | a flight written to its end is tiled, message by message, exactly if none was skipped |
| Flights.EpochChangeKeepsFlight | AmigoIOS-master/Pods/BoringSSL-GRPC/ssl/dtls_method.cc:97-107 | a message queued before the write epoch changes is sealed afterwards as it would have been before; after a second change it cannot be sealed |
| Numbering.DistinctIff | AmigoIOS-master/Pods/BoringSSL-GRPC/ssl/dtls_record.cc:294-335 | two of the sealed records share epoch and number exactly if some epoch sealed more than 2^48 |
| Numbering.TakenIff | AmigoIOS-master/Pods/BoringSSL-GRPC/ssl/dtls_record.cc:294-335 | the number an epoch would use next has been used exactly if it sealed 2^48 records |
| Numbering.OverflowReusesNumbers | AmigoIOS-master/Pods/BoringSSL-GRPC/ssl/tls_record.cc:154-163 | sealing makes the next number a used one exactly if the counter stood at its last value; that seal fails and the counter starts over at 0 |
| SenderRuns.FlightIsTiled | AmigoIOS-master/Pods/BoringSSL-GRPC/ssl/d1_both.cc:782-845 | main result: over every run, with any MTUs, refused packets, failed seals and retransmissions, what was taken since the flight was begun or rewound is the flight up to the current position, and tiles every message when that is the end, exactly if the guards let no packet skip a message |
| SenderRuns.SkippedBy | AmigoIOS-master/Pods/BoringSSL-GRPC/ssl/d1_both.cc:739-806 | a step makes a message skipped exactly if it sends a packet of which the guards say so beforehand; only a new or rewound flight ends it |
| SenderRuns.MessageSkipped | AmigoIOS-master/Pods/BoringSSL-GRPC/ssl/d1_both.cc:739-806 | input, over a run from the start: after queueing an empty message and one of 70000 bytes, one packet at an MTU of 128 KiB moves past the first with nothing on the network |
| SenderRuns.SequenceNumbersUnique | AmigoIOS-master/Pods/BoringSSL-GRPC/ssl/dtls_record.cc:294-335 | over every run no two records sealed, sent or not, share epoch and number exactly if no epoch seals more than 2^48; the next number of either epoch is a used one exactly from 2^48 on |
| SenderRuns.NumbersRunOut | AmigoIOS-master/Pods/BoringSSL-GRPC/ssl/tls_record.cc:154-163 | for every n some run seals n records in one epoch; from 2^48 + 1 on numbers repeat |
| SenderRuns.UnansweredKept | AmigoIOS-master/Pods/BoringSSL-GRPC/ssl/dtls_method.cc:71-79 | over every run without an answer or a new flight the last flight stays for retransmission, the end of the handshake included |
| SenderRuns.FinishDropsAnswered | AmigoIOS-master/Pods/BoringSSL-GRPC/ssl/dtls_method.cc:71-79 | a flight that was closed and answered is dropped at the end of the handshake; one still open is not |
| SenderRuns.QueueingAsserts | AmigoIOS-master/Pods/BoringSSL-GRPC/ssl/d1_both.cc:555-594 | the assertion that a message can be queued fails exactly if the open flight is full or the message is above 4 GiB |
| SenderRuns.EighthMessageAsserts | AmigoIOS-master/Pods/BoringSSL-GRPC/ssl/d1_both.cc:555-594 | input: after n messages without a flush the next one fails the assertion exactly for n = 7 |
| Delivery.DeliveredIsPrefix | AmigoIOS-master/Pods/BoringSSL-GRPC/ssl/d1_both.cc:352-438 | main result: over every run of queueing, MTUs, failed writes, retransmissions, loss, duplication, reordering and epoch changes, the messages the receiver consumed are a byte-identical prefix of those queued, and the one it is offered is the next |
| Delivery.RunKeeps | AmigoIOS-master/Pods/BoringSSL-GRPC/ssl/d1_both.cc:644-845 | every run, from any state that satisfies it, keeps the invariant that ties queue, network, ring and log together |
| Delivery.StepSound | AmigoIOS-master/Pods/BoringSSL-GRPC/ssl/d1_both.cc:255-438 | every step of either end keeps the bounds of queue, counters and ring that the indexing relies on: every occupied slot holds a message within one flight of the read number and congruent to its slot, and a message that is being read is complete; whether a message can be queued is QueueingAsserts |
| Delivery.StepKeeps | AmigoIOS-master/Pods/BoringSSL-GRPC/ssl/d1_both.cc:644-845 | every single step of either end or the network keeps the invariant behind it |
| Delivery.AcceptedOnceAndPure | AmigoIOS-master/Pods/BoringSSL-GRPC/ssl/dtls_record.cc:225-259 | over every such run each epoch and number passes the record layer at most once, and every buffered fragment other than of the message being read came in the current epoch |
| Delivery.RecordsAreGenuine | AmigoIOS-master/Pods/BoringSSL-GRPC/ssl/d1_both.cc:650-656 | over every such run each record on the network is a piece of a queued message, sealed under the epoch that message was queued in, or a ChangeCipherSpec |
| Delivery.CompleteIsQueued | AmigoIOS-master/Pods/BoringSSL-GRPC/ssl/d1_both.cc:408-424 | a complete message in the ring is the sender's message of that number, byte for byte |
| Delivery.InsertAgrees | AmigoIOS-master/Pods/BoringSSL-GRPC/ssl/d1_both.cc:352-403 | a piece of a queued message, at any time and however often, keeps all buffered bytes equal to the sender's |
| Delivery.GenuineRefused | AmigoIOS-master/Pods/BoringSSL-GRPC/ssl/d1_both.cc:362-391 | a genuine fragment causes an error exactly when its message is too long for the receiver, is not the only one allowed in the encrypted epoch, or is one flight ahead |
| Arrival.CoveredIsDelivered | AmigoIOS-master/Pods/BoringSSL-GRPC/ssl/d1_both.cc:352-424 | liveness over every run that does not move on from the next message: once every byte of it has been in some fragment that passed the record layer, it is offered, identical to what was sent, whatever other fragments, repetitions, losses, replays, errors and epoch changes lay between |
| Resending.PacketSucceeds | AmigoIOS-master/Pods/BoringSSL-GRPC/ssl/d1_both.cc:739-780 | a packet is made whenever every message of the flight has the current or the previous epoch, the MTU leaves room for a byte of a message and none for more than a record can hold, and both counters have numbers for what is left |
| Resending.PathBudget | AmigoIOS-master/Pods/BoringSSL-GRPC/ssl/d1_both.cc:644-733 | sending takes at most one record for each byte of a message, and one for an empty message or a ChangeCipherSpec |
| Resending.SendRest | AmigoIOS-master/Pods/BoringSSL-GRPC/ssl/d1_both.cc:782-827 | from any position such a flight can be sent to its end; then the records taken tile it, are those added to the log since, in order, and are all on the network |
| Recovery.RunWindow | AmigoIOS-master/Pods/BoringSSL-GRPC/ssl/dtls_record.cc:225-259 | over every run the receiver has only accepted numbers of records that were sealed in that epoch |
| Recovery.Round | AmigoIOS-master/Pods/BoringSSL-GRPC/ssl/d1_both.cc:836-845 | sending the flight again and receiving the records of the next message in order delivers that message and leaves a state from which the others can be delivered likewise |
| Recovery.FlightRecovers | AmigoIOS-master/Pods/BoringSSL-GRPC/ssl/d1_both.cc:782-845 | main result: from every state of every run in which the messages not yet read are held and are of the receiver's epoch, a continuation of rewinding, sending at the given MTU, arrivals and reading delivers every queued message, whatever was lost before |
| Recovery.OneMessageRecovers | AmigoIOS-master/Pods/BoringSSL-GRPC/ssl/d1_both.cc:782-845 | so one queued message of any length the receiver allows is delivered at every MTU from 26 to 16397 |
| Recovery.OversizedNeverArrives | AmigoIOS-master/Pods/BoringSSL-GRPC/ssl/dtls_record.cc:253-257 | and one that is sealed into a single record of more than 2^14 bytes is never delivered, however often it is sent and arrives |
| HandshakeRun.RunsDoNotFail | AmigoIOS-master/Pods/BoringSSL-GRPC/ssl/handshake_client.cc:1707-1789 | main result: for every agreed outcome of the negotiation and every schedule with any number of waits on the application, neither machine ever gets an unexpected message or fails, and unless both are done one of them can move |
| HandshakeRun.RunsAgree | AmigoIOS-master/Pods/BoringSSL-GRPC/ssl/handshake.cc:380-476 | over every run each Finished vouches for exactly what its reader has hashed, and when both ends are done nothing is left on the wire and both have hashed the same, whole course |
| HandshakeRun.RunsCanComplete | AmigoIOS-master/Pods/BoringSSL-GRPC/ssl/handshake_client.cc:1707-1789 | however a run began, some continuation within the rank of the state reached completes the handshake on both sides |
| HandshakeSchedules.ScheduleCompletes | AmigoIOS-master/Pods/BoringSSL-GRPC/ssl/handshake_client.cc:1707-1789 | main result: every schedule completes the handshake if it gives the turn often enough to an end that can move, the rank of the start being enough, whatever other turns lie between; and until it is complete some end can move |
| HandshakeSchedules.AlternationCompletes | AmigoIOS-master/Pods/BoringSSL-GRPC/ssl/handshake_server.cc:1539-1621 | ends that take turns, with an application that answers, complete it within the rank of any state |
| HandshakeSchedules.DoneStays | AmigoIOS-master/Pods/BoringSSL-GRPC/ssl/handshake.cc:491-628 | a completed handshake stays complete, whatever turns follow |
| HandshakeRun.NoDeadlock | AmigoIOS-master/Pods/BoringSSL-GRPC/ssl/handshake_server.cc:1539-1621 | in no reachable state do both ends wait for each other |
| HandshakeRun.CanComplete | AmigoIOS-master/Pods/BoringSSL-GRPC/ssl/handshake_server.cc:1539-1621 | from every reachable state the handshake can be completed, in a number of turns bounded by the rank of the state |
| HandshakeRun.ClientAdvances | AmigoIOS-master/Pods/BoringSSL-GRPC/ssl/handshake_client.cc:1707-1789 | the client never moves back, and each turn in which it has what it waits for lowers its rank |
| HandshakeRun.ServerAdvances | AmigoIOS-master/Pods/BoringSSL-GRPC/ssl/handshake_server.cc:1539-1621 | the server never moves back, and each turn in which it has what it waits for lowers its rank |
| HandshakeRun.ActKeeps | AmigoIOS-master/Pods/BoringSSL-GRPC/ssl/handshake.cc:491-628 | every turn of either end keeps the invariant: both stand somewhere in the agreed course and what is under way is exactly what lies between |
| HandshakeRun.FinishedVerifies | AmigoIOS-master/Pods/BoringSSL-GRPC/ssl/handshake.cc:380-429 | every Finished that arrives vouches for exactly the messages its reader has hashed |
| HandshakeRun.EndState | AmigoIOS-master/Pods/BoringSSL-GRPC/ssl/handshake_server.cc:1511-1537 | when both are done nothing is left on the wire or unsent, and both have hashed the same, whole course |
| HandshakeRun.FullCourse | AmigoIOS-master/Pods/BoringSSL-GRPC/ssl/handshake_client.cc:1457-1564 | the full handshake is the message sequence of RFC 5246 section 7.3 figure 1 with the negotiated options, each message once, the client's Finished first |
| HandshakeRun.ResumedCourse | AmigoIOS-master/Pods/BoringSSL-GRPC/ssl/handshake_client.cc:752-758 | the resumed handshake is that of figure 2 with the ticket of RFC 5077 section 3.3, each message once, the server's Finished first |
| HandshakeTampering.ClientFinishes | AmigoIOS-master/Pods/BoringSSL-GRPC/ssl/handshake.cc:380-429 | main result: whatever items reach the client, in whatever order, altered or invented, a client that is done has hashed one of its legal courses to the end and taken exactly one Finished, the server's, over exactly the messages it had hashed before; ServerKeyExchange came with ECDHE and not with RSA, and CertificateStatus and CertificateRequest only where allowed |
| HandshakeTampering.ServerFinishes | AmigoIOS-master/Pods/BoringSSL-GRPC/ssl/handshake.cc:380-429 | main result: the same for the server, whose course follows from its configuration but for the client's certificate, which is there when it insists on one |
| HandshakeTampering.DoneEndsAgree | AmigoIOS-master/Pods/BoringSSL-GRPC/ssl/handshake.cc:380-429 | main result: if the Finished that each end took is one the other sent, two ends that are done have hashed the same messages and settled on the same parameters, however everything else was altered, dropped or injected |
| HandshakeTampering.ClientStops | AmigoIOS-master/Pods/BoringSSL-GRPC/ssl/handshake_client.cc:1707-1789 | exactly which message stops the client in which state, where it asks the application and where it flushes or waits for ChangeCipherSpec; it never waits for a message that is there |
| HandshakeTampering.ServerStops | AmigoIOS-master/Pods/BoringSSL-GRPC/ssl/handshake_server.cc:1539-1621 | the same for the server |
| HandshakeTampering.ClientFailsIff | AmigoIOS-master/Pods/BoringSSL-GRPC/ssl/handshake.cc:491-600 | the driver fails exactly on such a message, on a message in place of ChangeCipherSpec and on ChangeCipherSpec in place of a message |
| HandshakeTampering.ServerFailsIff | AmigoIOS-master/Pods/BoringSSL-GRPC/ssl/handshake.cc:491-600 | the same for the server |
| HandshakeTampering.ClientRefuses | AmigoIOS-master/Pods/BoringSSL-GRPC/ssl/handshake.cc:400-408 | a client that turns to such a message, a Finished over other messages than it has hashed among them, stays where it is for good |
| HandshakeTampering.ServerRefuses | AmigoIOS-master/Pods/BoringSSL-GRPC/ssl/handshake.cc:400-408 | the same for the server |
| HandshakeCourses.ClientStepKeeps | AmigoIOS-master/Pods/BoringSSL-GRPC/ssl/handshake_client.cc:1707-1789 | in every state the messages the client has hashed are those of one of its legal courses up to that state, whatever the inbox |
| HandshakeCourses.ServerStepKeeps | AmigoIOS-master/Pods/BoringSSL-GRPC/ssl/handshake_server.cc:1539-1621 | the same for the server |
| ClientProgress.ClientHelloMoves | AmigoIOS-master/Pods/BoringSSL-GRPC/ssl/handshake_client.cc:385-759 | the client sends ClientHello and takes ServerHello as the next message of the course, in full and resumed handshakes |
| ClientProgress.ClientCertificateMoves | AmigoIOS-master/Pods/BoringSSL-GRPC/ssl/handshake_client.cc:771-819 | it takes the server's Certificate exactly when the cipher has one |
| ClientProgress.ClientStatusMoves | AmigoIOS-master/Pods/BoringSSL-GRPC/ssl/handshake_client.cc:821-889 | it takes CertificateStatus when the server sends it, and goes on when it was promised but does not come |
| ClientProgress.ClientKeyExchangeMoves | AmigoIOS-master/Pods/BoringSSL-GRPC/ssl/handshake_client.cc:891-1071 | it takes ServerKeyExchange exactly in the cases in which the server sends it, the optional PSK hint included |
| ClientProgress.ClientRequestMoves | AmigoIOS-master/Pods/BoringSSL-GRPC/ssl/handshake_client.cc:1073-1167 | it takes CertificateRequest when it comes, and ServerHelloDone |
| ClientProgress.ClientReplyMoves | AmigoIOS-master/Pods/BoringSSL-GRPC/ssl/handshake_client.cc:1169-1455 | its Certificate, key exchange and CertificateVerify are what the course has next |
| ClientProgress.ClientFinishedMoves | AmigoIOS-master/Pods/BoringSSL-GRPC/ssl/handshake_client.cc:1457-1564 | its last flight is ChangeCipherSpec, the negotiated extensions and a Finished over everything before it |
| ClientProgress.ClientTicketMoves | AmigoIOS-master/Pods/BoringSSL-GRPC/ssl/handshake_client.cc:1566-1647 | it takes NewSessionTicket exactly when it was promised one |
| ClientProgress.ClientCipherMoves | AmigoIOS-master/Pods/BoringSSL-GRPC/ssl/handshake_client.cc:1649-1656 | it goes on once ChangeCipherSpec has been read |
| ClientProgress.ClientVerifyMoves | AmigoIOS-master/Pods/BoringSSL-GRPC/ssl/handshake_client.cc:1658-1672 | the server's Finished matches its own transcript |
| ClientProgress.ClientEndMoves | AmigoIOS-master/Pods/BoringSSL-GRPC/ssl/handshake_client.cc:1674-1705 | it ends with the whole course behind it |
| ServerProgress.ServerHelloMoves | AmigoIOS-master/Pods/BoringSSL-GRPC/ssl/handshake_server.cc:426-684 | the server takes ClientHello once, however often certificate and parameter selection make it wait |
| ServerProgress.ServerParametersMoves | AmigoIOS-master/Pods/BoringSSL-GRPC/ssl/handshake_server.cc:686-752 | it answers with ServerHello and goes to the full or the resumed course |
| ServerProgress.ServerCertificateMoves | AmigoIOS-master/Pods/BoringSSL-GRPC/ssl/handshake_server.cc:754-840 | it sends Certificate and CertificateStatus as the course has them |
| ServerProgress.ServerKeyExchangeMoves | AmigoIOS-master/Pods/BoringSSL-GRPC/ssl/handshake_server.cc:842-912 | it sends ServerKeyExchange exactly for ephemeral ciphers and PSK hints, once, whatever the waits on signing |
| ServerProgress.ServerHelloDoneMoves | AmigoIOS-master/Pods/BoringSSL-GRPC/ssl/handshake_server.cc:914-947 | it sends CertificateRequest when it wants one, and ServerHelloDone |
| ServerProgress.ServerClientCertificateMoves | AmigoIOS-master/Pods/BoringSSL-GRPC/ssl/handshake_server.cc:949-1056 | it takes the client's Certificate exactly when it asked, empty or not |
| ServerProgress.ServerKeyMoves | AmigoIOS-master/Pods/BoringSSL-GRPC/ssl/handshake_server.cc:1058-1267 | it takes ClientKeyExchange |
| ServerProgress.ServerVerifyMoves | AmigoIOS-master/Pods/BoringSSL-GRPC/ssl/handshake_server.cc:1269-1363 | it takes CertificateVerify exactly when the client sent a certificate |
| ServerProgress.ServerCipherMoves | AmigoIOS-master/Pods/BoringSSL-GRPC/ssl/handshake_server.cc:1365-1377 | it goes on once ChangeCipherSpec has been read |
| ServerProgress.ServerNextProtoMoves | AmigoIOS-master/Pods/BoringSSL-GRPC/ssl/handshake_server.cc:1379-1413 | it takes NextProtocol exactly when it was negotiated |
| ServerProgress.ServerChannelIdMoves | AmigoIOS-master/Pods/BoringSSL-GRPC/ssl/handshake_server.cc:1415-1437 | it takes ChannelID exactly when it was negotiated |
| ServerProgress.ServerCheckMoves | AmigoIOS-master/Pods/BoringSSL-GRPC/ssl/handshake_server.cc:1439-1461 | the client's Finished matches its own transcript |
| ServerProgress.ServerFinishedMoves | AmigoIOS-master/Pods/BoringSSL-GRPC/ssl/handshake_server.cc:1463-1509 | its last flight is the ticket if promised, ChangeCipherSpec and a Finished over everything before it |
| ServerProgress.ServerEndMoves | AmigoIOS-master/Pods/BoringSSL-GRPC/ssl/handshake_server.cc:1511-1537 | it ends with the whole course behind it |
| HandshakeMachines.ClientMachine.Greet | AmigoIOS-master/Pods/BoringSSL-GRPC/ssl/handshake_client.cc:385-759 | on the fields, does the step of the run theorems for its states, and only moves forward |
| HandshakeMachines.ClientMachine.ReadCertificate | AmigoIOS-master/Pods/BoringSSL-GRPC/ssl/handshake_client.cc:771-889 | likewise, including a wait for certificate verification |
| HandshakeMachines.ClientMachine.ReadKeyExchange | AmigoIOS-master/Pods/BoringSSL-GRPC/ssl/handshake_client.cc:891-1167 | likewise, with the errors for a missing or unexpected ServerKeyExchange |
| HandshakeMachines.ClientMachine.SendReply | AmigoIOS-master/Pods/BoringSSL-GRPC/ssl/handshake_client.cc:1169-1455 | likewise, with repeatable waits for certificate and signature, each message added once |
| HandshakeMachines.ClientMachine.SendFinishedFlight | AmigoIOS-master/Pods/BoringSSL-GRPC/ssl/handshake_client.cc:1457-1536 | likewise, ending in a flush |
| HandshakeMachines.ClientMachine.FinishFlightStep | AmigoIOS-master/Pods/BoringSSL-GRPC/ssl/handshake_client.cc:1538-1564 | likewise, branching on resumption |
| HandshakeMachines.ClientMachine.ReadTicket | AmigoIOS-master/Pods/BoringSSL-GRPC/ssl/handshake_client.cc:1566-1656 | likewise, ending in the wait for ChangeCipherSpec |
| HandshakeMachines.ClientMachine.ReadFinished | AmigoIOS-master/Pods/BoringSSL-GRPC/ssl/handshake_client.cc:1658-1705 | likewise; a Finished over another transcript is refused for good (HandshakeTampering) |
| HandshakeMachines.ClientMachine.Handshake | AmigoIOS-master/Pods/BoringSSL-GRPC/ssl/handshake_client.cc:1707-1789 | the driver loop ends after at most 40 turns, done or at a wait it cannot resolve, having done exactly that many actions of the run theorems |
| HandshakeMachines.ClientMachine.Resolve | AmigoIOS-master/Pods/BoringSSL-GRPC/ssl/handshake.cc:491-600 | the switch over what the machine waits for flushes, reads or fails as the actions of the run theorems do, and goes on exactly if that lets the machine move |
| HandshakeMachines.ClientMachine.RunHandshake | AmigoIOS-master/Pods/BoringSSL-GRPC/ssl/handshake.cc:491-628 | the driver ends for every inbox: done, failed, waiting for the application, or waiting for input when all of it is used up; what it did is a sequence of the actions of the run theorems |
| HandshakeMachines.ServerMachine.Greet | AmigoIOS-master/Pods/BoringSSL-GRPC/ssl/handshake_server.cc:426-560 | on the fields, does the step of the run theorems for its states, and only moves forward |
| HandshakeMachines.ServerMachine.SendHello | AmigoIOS-master/Pods/BoringSSL-GRPC/ssl/handshake_server.cc:572-752 | likewise, taking ClientHello when parameters have been selected |
| HandshakeMachines.ServerMachine.SendCertificate | AmigoIOS-master/Pods/BoringSSL-GRPC/ssl/handshake_server.cc:754-840 | likewise |
| HandshakeMachines.ServerMachine.SendKeyExchange | AmigoIOS-master/Pods/BoringSSL-GRPC/ssl/handshake_server.cc:842-912 | likewise, with a repeatable wait for the signature |
| HandshakeMachines.ServerMachine.SendHelloDone | AmigoIOS-master/Pods/BoringSSL-GRPC/ssl/handshake_server.cc:914-947 | likewise, ending in a flush |
| HandshakeMachines.ServerMachine.ReadCertificate | AmigoIOS-master/Pods/BoringSSL-GRPC/ssl/handshake_server.cc:949-1056 | likewise, refusing an empty certificate when one is required |
| HandshakeMachines.ServerMachine.ReadKeyExchange | AmigoIOS-master/Pods/BoringSSL-GRPC/ssl/handshake_server.cc:1058-1363 | likewise, with a repeatable wait for decryption |
| HandshakeMachines.ServerMachine.ReadCipher | AmigoIOS-master/Pods/BoringSSL-GRPC/ssl/handshake_server.cc:1365-1377 | likewise, around the wait for ChangeCipherSpec |
| HandshakeMachines.ServerMachine.ReadExtensions | AmigoIOS-master/Pods/BoringSSL-GRPC/ssl/handshake_server.cc:1379-1437 | likewise |
| HandshakeMachines.ServerMachine.ReadFinished | AmigoIOS-master/Pods/BoringSSL-GRPC/ssl/handshake_server.cc:1439-1461 | likewise; a Finished over another transcript is refused for good (HandshakeTampering) |
| HandshakeMachines.ServerMachine.SendFinishedFlight | AmigoIOS-master/Pods/BoringSSL-GRPC/ssl/handshake_server.cc:1463-1509 | likewise, ending in a flush |
| HandshakeMachines.ServerMachine.FinishHandshake | AmigoIOS-master/Pods/BoringSSL-GRPC/ssl/handshake_server.cc:1511-1537 | likewise |
| HandshakeMachines.ServerMachine.Handshake | AmigoIOS-master/Pods/BoringSSL-GRPC/ssl/handshake_server.cc:1539-1621 | the driver loop ends after at most 20 turns, done or at a wait it cannot resolve, having done exactly that many actions of the run theorems |
| HandshakeMachines.ServerMachine.Resolve | AmigoIOS-master/Pods/BoringSSL-GRPC/ssl/handshake.cc:491-600 | as for the client |
| HandshakeMachines.ServerMachine.RunHandshake | AmigoIOS-master/Pods/BoringSSL-GRPC/ssl/handshake.cc:491-628 | as for the client |
| HandshakeDrivers.ClientDriverRuns | AmigoIOS-master/Pods/BoringSSL-GRPC/ssl/handshake.cc:491-628 | whatever a client driver does on its own is a run of the connection, so the run theorems hold of it |
| HandshakeDrivers.ServerDriverRuns | AmigoIOS-master/Pods/BoringSSL-GRPC/ssl/handshake.cc:491-628 | the same for the server |
| HandshakeDrivers.Converse | AmigoIOS-master/Pods/BoringSSL-GRPC/ssl/handshake.cc:491-628 | main result: client and server objects driven by any sequence of calls, with any answers of the application, never fail; unless both are done one can move on; when both are done nothing is left over and they have hashed the same course |
| HandshakeDrivers.CallBoth | AmigoIOS-master/Pods/BoringSSL-GRPC/ssl/handshake.cc:491-628 | one call of each driver, from any state of a run, completes the handshake or lowers the rank that bounds what is left |
| HandshakeDrivers.Complete | AmigoIOS-master/Pods/BoringSSL-GRPC/ssl/handshake.cc:491-628 | main result: two newly made objects, called in turn by an application that answers, complete the handshake, for every agreed negotiation; the loop ends, and both have hashed the whole course |
| CipherChoice.ChooseCipher | AmigoIOS-master/Pods/BoringSSL-GRPC/ssl/handshake_server.cc:357-424 | main result: the choice is the allow-list's most preferred among the usable ciphers of the first group that has any; for any flags at all, none is chosen exactly when every usable cipher lies in a last group that is never closed |
| CipherChoice.NoneMeansNoUsable | AmigoIOS-master/Pods/BoringSSL-GRPC/ssl/internal.h:1860-1893 | with well-formed group flags none is chosen exactly when no cipher is usable |
| CipherChoice.BestIsUnique | AmigoIOS-master/Pods/BoringSSL-GRPC/ssl/handshake_server.cc:357-424 | at most one cipher meets the description, so it determines the choice |
| CipherChoice.UngroupedIsFirst | AmigoIOS-master/Pods/BoringSSL-GRPC/ssl/handshake_server.cc:372-380 | without groups the choice is the first usable cipher of the list that has priority |
| StreamFraming.MessageRoundTrip | AmigoIOS-master/Pods/BoringSSL-GRPC/ssl/s3_both.cc:399-425 | parsing gives back every message with a 24-bit length, whatever follows |
| StreamFraming.RecordRoundTrip | AmigoIOS-master/Pods/BoringSSL-GRPC/ssl/tls_record.cc:206-260 | parsing gives back a record body, whatever follows, exactly if the read cipher accepts the version in the header, any 3.x one before encryption, and the body is at most SSL3_RT_MAX_ENCRYPTED_LENGTH |
| StreamFraming.ChunksConcat | AmigoIOS-master/Pods/BoringSSL-GRPC/ssl/s3_both.cc:184-205 | the pieces put together are the message, for every fragment size |
| StreamFraming.ChunkSizes | AmigoIOS-master/Pods/BoringSSL-GRPC/ssl/s3_both.cc:184-205 | every piece but the last is as long as max_send_fragment allows, and only an empty message has an empty piece |
| Headers.StreamHeaders | AmigoIOS-master/Pods/BoringSSL-GRPC/ssl/s3_both.cc:167-178 | the headers in a stream byte by byte: type and 24-bit length of a message; type 22, version and length of a record |
| Headers.OtherTypeFails | AmigoIOS-master/Pods/BoringSSL-GRPC/ssl/s3_both.cc:547-551 | a record of another type is never taken for one of handshake messages |
| StreamFraming.StreamWriter.AddMessage | AmigoIOS-master/Pods/BoringSSL-GRPC/ssl/s3_both.cc:184-205 | the flight gains the message cut into pieces of at most max_send_fragment, each in its own record; an empty message gives one empty record |
| StreamFraming.StreamWriter.Flush | AmigoIOS-master/Pods/BoringSSL-GRPC/ssl/s3_both.cc:231-279 | for every transport, the bytes handed over are those from the offset on, each once and in order; after an error the offset says how many, and after success the flight is gone; nothing is handed over after a shutdown, for a flight above INT_MAX or behind data that does not leave the write buffer |
| StreamFraming.MessagePrefix | AmigoIOS-master/Pods/BoringSSL-GRPC/ssl/s3_both.cc:399-425 | a message that can be parsed from what has arrived is not changed by what arrives later |
| StreamFraming.StreamReader.GetMessage | AmigoIOS-master/Pods/BoringSSL-GRPC/ssl/s3_both.cc:427-439 | offers exactly the first complete message of the buffer |
| StreamFraming.StreamReader.CanAccept | AmigoIOS-master/Pods/BoringSSL-GRPC/ssl/s3_both.cc:441-459 | refuses more data exactly when the buffer holds a complete message or the header announces one longer than allowed |
| StreamFraming.StreamReader.NextMessage | AmigoIOS-master/Pods/BoringSSL-GRPC/ssl/s3_both.cc:562-583 | removes exactly the first message and keeps what follows |
| StreamFraming.StepKeeps | AmigoIOS-master/Pods/BoringSSL-GRPC/ssl/s3_both.cc:184-583 | every step of either end keeps this: bytes under way are whole records, and buffer and records continue the message stream where the delivered messages end |
| StreamFraming.RunKeeps | AmigoIOS-master/Pods/BoringSSL-GRPC/ssl/s3_both.cc:184-583 | the same over every run |
| StreamFraming.RecoversMessages | AmigoIOS-master/Pods/BoringSSL-GRPC/ssl/s3_both.cc:184-583 | main result: for every fragment size, every sequence of partial writes and every pace of the reader, the messages taken are a prefix of those added, and all of them once everything written has been opened and read |
| StreamProgress.ReadsAllReadable | AmigoIOS-master/Pods/BoringSSL-GRPC/ssl/s3_both.cc:231-279 | main result: over every run and for every limit, a continuation that adds nothing takes as many messages as can still be taken, and no continuation takes more unless it adds to a flight within INT_MAX; with a limit of at least a record's size these are all messages before the first that is too long, exactly if the flight is within INT_MAX or all of them are in front of it |
| StreamProgress.Drain | AmigoIOS-master/Pods/BoringSSL-GRPC/ssl/s3_both.cc:231-279 | from every state and for every limit, what can still be taken is taken by writing, opening and reading |
| StreamProgress.NeverMore | AmigoIOS-master/Pods/BoringSSL-GRPC/ssl/s3_both.cc:441-583 | what can still be taken is changed by no step but adding a message to a flight that can be flushed |
| StreamProgress.ReachIs | AmigoIOS-master/Pods/BoringSSL-GRPC/ssl/s3_both.cc:441-583 | it is at least the messages before the first that is too long, as far as they are in front of a flight that cannot be flushed, and exactly those if the limit is not below the size of a record |
| StreamProgress.FlightStuck | AmigoIOS-master/Pods/BoringSSL-GRPC/ssl/s3_both.cc:241-244 | input: n empty messages added without a flush can be taken exactly if 9 n is at most INT_MAX |
| StreamProgress.LimitPassed | AmigoIOS-master/Pods/BoringSSL-GRPC/ssl/s3_both.cc:441-459 | input: with a limit below the size of a record, a message longer than the limit that comes in one record is taken |
| Refcount.BurstUndone | AmigoIOS-master/Pods/BoringSSL-GRPC/crypto/refcount_lock.c:29-51 | n references taken and dropped again leave the count as it was exactly if it did not reach the maximum on the way or stood there before |
| Refcount.StepIsLockedOrSilent | AmigoIOS-master/Pods/BoringSSL-GRPC/crypto/refcount_c11.c:37-65 | each atomic access of any thread either changes nothing or is one whole operation of the locked counter |
| Refcount.Linearises | AmigoIOS-master/Pods/BoringSSL-GRPC/crypto/refcount_c11.c:37-65 | main result: every interleaving of the compare-and-swap loops, spurious failures included, has the outcomes and the final count of the locked operations in the order of effect |
| Refcount.BalancedCounts | AmigoIOS-master/Pods/BoringSSL-GRPC/crypto/refcount_lock.c:29-51 | with balanced references the count is the number of references until it saturates, nothing aborts, and exactly one decrement reports zero, none once saturated |
| Refcount.LockFreeCounts | AmigoIOS-master/Pods/BoringSSL-GRPC/crypto/refcount_c11.c:37-65 | the same for every concurrent run of the lock-free counter |

## Left out

Contracts that say less than the code could be held to:

- RoundTrip.MessageRoundTrip: encodings of 2^63 bytes or more are excluded, no object is that large; equality is of observable contents, so data behind a false has flag and inactive union members are not compared.
- Decoder.Decode: a struct is one typed slot per field instead of raw memory, so overlap of union members and uninitialised bytes are not modelled; a message type cannot contain itself, which C rules out for static allocation.
- Decoder.DecodeNoInit: where the struct has no defaults yet, the slots are whatever the caller passed, and a descriptor with two fields of one tag is excluded.
- Encoder.EncodeFields: values are of the C types of their fields, strings are terminated within their buffer, and every object is below 2^64 bytes.
- Streams.OStream.Write: the stream writes to a buffer or only counts; other callbacks and the wrap of bytes_written are not modelled.
- DtlsRecord.RecordReader.OpenRecord: what the cipher's Open yields for the record body is a parameter.
- DtlsReceiver.Receiver.NextMessage: handshake_read_seq and r_epoch are unbounded, the code's 16-bit wrap is not modelled.
- DtlsSender.Sender.SealRecord: the cipher is the identity with nonce, tag and padding; in the runs a record is a value with its length on the wire, its bytes are those of DtlsWire.WriteRecord.
- DtlsWire.WriteRecord: the ciphertext is a parameter and is put behind the header, where the cipher has written it.
- SenderRuns.FlightIsTiled: the network of the run takes a packet whole or refuses it, and BIO_flush, which changes no state of the sender, is not a step of it.
- Delivery.DeliveredIsPrefix: what the network delivers is a record that was sealed, which is what ideal encryption gives; in the unencrypted first epoch this assumes nobody forges records.
- HandshakeRun.RunsDoNotFail: the two ends agree on the outcome of the negotiation, a cipher has a certificate as its type demands, and a client has a certificate when the server insists on one.
- HandshakeRun.RunsAgree: a Finished message carries the transcript it authenticates instead of a hash.
- HandshakeTampering.DoneEndsAgree: that nobody but the peer can make a Finished is a condition on the run, as it is cryptography; what is in the messages beside their kind and the negotiated parameters is not modelled.
- HandshakeMachines.ClientMachine.RunHandshake: waits for certificates, keys and tickets are one kind of wait, answered by the parameter ready, and stay until the next call instead of being handed to the caller; what one call flushes the other end finds whole.
- Merging.OccurrencesMerge: the two payloads together are shorter than 4 GiB, as one occurrence needs, and the slot holds a message of the field's type.
- Recovery.FlightRecovers: the MTU and the counters leave every guard of the seals room, which suffices but is not needed; a message of an epoch the receiver has not reached is not delivered before it does.
- Refcount.Linearises: atomic accesses are sequentially consistent.
- Refcount.LockFreeCounts: balance is required in the order in which the operations take effect.
- CipherChoice.ChooseCipher: version and server configuration are one compatibility predicate, and the parsed client list is a parameter.

Not modelled:

- nanopb callback fields, extensions, pointer fields and pb_release: foreign code, or more cases of the same claims.
- nanopb fixed-count arrays: the proto3 default check reads their data as a count.
- nanopb delimited and null-terminated variants, PB_WITHOUT_64BIT, PB_BUFFER_ONLY and error strings.
- Allocation failure, message and info callbacks, error queues and BIO internals.
- DTLS timers, which the runs replace by retransmission at any time, and HelloVerifyRequest with its cookie.
- The transfer of DTLS application data and alerts beyond the record checks.
- TLS 1.3, early data, False Start, SSL 3.0 and V2 ClientHello branches of the handshake.
- Parsing and contents of handshake messages, key exchange, signatures, certificates, the session cache, and handing a handshake to another process.
- Encryption of stream records, and the close of a connection by an alert.
- The Swift code of the app, and the sign-in and Firebase libraries.
