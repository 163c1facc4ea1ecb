# Kiosk transactions: a verified model

This project models the parts of the web-container kiosk framework that move money and messages, and proves what they promise:

- the host message codecs (fixed-field messages and ISO 8583 messages, clause 4 of the standard),
- length-prefixed framing and the persistent TCP session to the host,
- the durable outbox that delivers financial messages,
- the resumable executor of operation finalizers,
- the cash acceptance session with its recovery, the deposit workflow and the withdrawal orchestrator,
- the supervisor that decides when the host session is ready.

## How it is built

Code that computes is a function. Code that updates state exists twice. Once it is a pure specification on values (`PackMessage`, `Session.Step`, `Outbox.Claim`, `CashAcceptance.Step` and so on), about which the lemmas speak. Once it is the source's own form, a class with fields or a loop over a buffer, and each of its methods is proved to do to the fields exactly what the specification says. The two workflows, `Deposit` and `Withdrawal`, are only written in the source's form: a course says what every port answers, it is arbitrary, and the methods' postconditions say for each course how the operation ends.

The results are of two kinds. Some say what never happens, over all runs. Others say what has to happen: that an arriving response is delivered, an unknown result becomes uncertain, an approved deposit is committed, a rejected session is retried, an undisturbed finalization completes. The second kind is stated on states and logs, apart from the functions that compute the steps.

Asynchronous code is cut at its awaits. An event is the code between two awaits, and a run is any sequence of events: an event that cannot occur in a state leaves it unchanged, timeouts and failures may come whenever the code has a timer or a promise armed, and a process may stop at any event. The lemmas about runs hold for every sequence of events, except for hypotheses stated in them.

| files | what they hold |
|---|---|
| `Prelude`, `ByteText` | bytes, options, results; decimal and hexadecimal text |
| `FieldCodecs`, `FieldWire`, `FieldRoundTrip`, `CountFields` | one field on the wire, and exactly when it reads back, as a value or as the count of a group |
| `WireLayout`, `FieldLayout` | digits, frames and fields byte by byte: which bytes a value is packed to, and which value or failure bytes are read as |
| `FixedField`, `FixedFieldRoundTrip` | fixed-field messages with repeating groups |
| `Bitmap`, `Iso8583`, `IsoRoundTrip` | ISO 8583 messages |
| `MessagePacking`, `MessageReading`, `IsoReading`, `TrailingBytes` | when a message can be packed and what stands where; when bytes are a message, and what a partial result holds; nothing may follow a message |
| `ExactRoundTrip`, `ExactMessages`, `Profiles` | whole messages as equivalences; which profiles are accepted |
| `Framing`, `FrameStream` | frames, and cutting a byte stream into frames |
| `Session`, `SessionSafety`, `SessionProgress`, `PersistentSession` | the TCP session, its safety over all runs, what it delivers, its object |
| `Outbox`, `OutboxRuns` | tables and transactions; workers, inquiries and operators as events, any number of them on one record |
| `OutboxRows` | what happens to one row, over all runs |
| `OutboxSafety`, `OutboxOverlap`, `OutboxReplay`, `OutboxClaims` | when a message is sent again; what overlap breaks; responses and numbering; leases |
| `OutboxOutcomes` | what each answer of a transport, an inquiry or an operator comes to, and which record is next |
| `OutboxStore`, `OutboxWorker` | the store object, the worker and the inquiry service |
| `FinalizationPlan`, `FinalizationRuns`, `FinalizationRunner` | plan order, plan execution, its object |
| `FinalizationSafety`, `FinalizationRepeats`, `FinalizationOutcomes` | its safety over all histories; when a completed step is repeated; what undisturbed and failing runs come to |
| `CashNotes`, `CashAcceptance`, `CashSafety`, `CashOutcomes`, `CashSession` | note counting; the cash session and its recovery, its safety, what becomes of the cash, its object |
| `Deposit`, `Withdrawal` | the two workflows |
| `Supervisor`, `SupervisorSession` | the host session supervisor, its object |
| `SupervisorSafety`, `SupervisorControls`, `SupervisorStopping`, `SupervisorProgress` | what ready means; what becomes of a control; ready while stopping; what the supervisor does about its session |

## Findings

Some promises hold only under a condition. Each is stated with that condition, and where it fails with a construction:

- Profile validation accepts definitions that lose values (`packages/host-message/src/registries.ts:134-161`, `Profiles.AcceptedProfileCanLoseValues`). `FieldRoundTrip.Recoverable` is the exact condition for one field and `CountFields.CountRecoverable` for the count of a group; `ExactRoundTrip` and `ExactMessages` lift them to whole messages.
- A scalar that is `optional` in a fixed-field message and absent is never restored: packing skips it and decoding reads it (`packages/host-message/src/fixed-field-codec.ts:25-29`, `FixedFieldRoundTrip.AbsentOptionalIsNeverRestored`).
- An ASCII frame length that starts with a UTF-8 byte-order mark is accepted, because the text decoder drops the mark (`packages/kiosk-host-native-channel/src/framing.ts:68-147`, `Framing.DecodedFrameReencodes`).
- The outbox's state updates check neither owner nor status (`packages/kiosk-host-delivery/src/sqlite-store.ts:185-197`). Whenever a live worker's lease has run out, a continuation sends the message twice with nothing between the sends. A reconciled record is left exactly when a worker or an inquiry still at work on it comes to an outcome other than a response, and whenever one is at work, a response brought in by another caller (or, for an uncertain record, an operator) can put the record there (`OutboxOverlap`).
- `reconcile` reports `reconciled` even when the response id belongs to another record (`packages/kiosk-host-delivery/src/reconciliation.ts:72-75`, `OutboxSafety.FoundReconcilesIff`).
- A save that stores a completed step and then throws makes the executor store `failed` over it and run the step again; this is the only way a completed step is repeated (`packages/kiosk-runtime/src/finalization-runner.ts:79-88`, `FinalizationRepeats.NeverAgain` and `FinalizationRepeats.OverwritingRepeats`).
- Two different plans can share a plan version when an id or a version holds a separator (`packages/kiosk-runtime/src/finalization-runner.ts:33-43`, `FinalizationPlan.PlanVersionCollision`).
- An abort that passes its guards while `acceptBatch` or `authorize` is in flight allows the device to receive both cashInRollback and cashInEnd; nothing else does (`packages/xfs-device-service/src/cash-acceptance.ts:217-224`, `CashSafety.OverlapAllowsBoth` and `CashSafety.NeverBoth`).
- A commit that passes its guards while `acceptBatch` or `authorize` is in flight allows a second one, and the device receives cashInEnd twice; nothing else does (`packages/xfs-device-service/src/cash-acceptance.ts:187-196`, `CashSafety.OverlapCommitsTwice` and `CashSafety.CommitsEverythingOnce`).
- `dispose` called when an establish or heartbeat has returned a result that makes ready, and its caller has yet to see it, can leave the supervisor `ready` after the transport disconnected; called otherwise it cannot, whether or not a `start` is pending (`packages/kiosk-host-session/src/supervisor.ts:118-177`, `SupervisorStopping.ReadyWhileStoppingIff`).

## Model

| member | source | states |
|---|---|---|
| ByteText.HexToBytesInPlace | packages/host-message/src/bytes.ts:41-50 | the loop that fills the output buffer gives the bytes of the text, and fails exactly for text that is not pairs of hexadecimal digits |
| ByteText.HexOfBytes | packages/host-message/src/bytes.ts:38-50 | parsing the printed form of any bytes gives the bytes back |
| ByteText.BytesOfHex | packages/host-message/src/bytes.ts:38-50 | printing parsed text gives the text back if and only if it is upper-case |
| ByteText.DecimalLengthRoundTrip | packages/host-message/src/bytes.ts:52-95 | a length that fits its prefix is read back, in ASCII and in BCD |
| FieldWire.StripPaddingInPlace | packages/host-message/src/field-wire.ts:70-82 | the window that the two loops leave is the value without its run of pad bytes on the padded side |
| FieldWire.ByteCursor.Read | packages/host-message/src/bytes.ts:4-25 | returns the next bytes and moves past them exactly when that many are left, and otherwise does not move |
| FieldWire.UnpackWireField | packages/host-message/src/field-wire.ts:115-169 | reading through the cursor gives the specified result and moves the cursor exactly as far as specified, on success and on every failure |
| FieldRoundTrip.RoundTrip | packages/host-message/src/field-wire.ts:84-169 | a packed field reads back as itself and consumes its own bytes, whatever follows, if and only if the value is recoverable: case of hexadecimal text, parity of BCD digits, and how padding meets the edge of the value |
| FieldRoundTrip.Truncation | packages/host-message/src/field-wire.ts:115-169 | a recoverable field cut anywhere is reported as truncated |
| WireLayout.NumeralDigits | packages/host-message/src/bytes.ts:52-72 | a padded numeral shows the decimal digits of its number, the weightiest first |
| WireLayout.PrefixHoldsLength | packages/host-message/src/bytes.ts:52-72 | a length has a prefix if and only if it is below ten to the width, and the prefix then holds its digits, one a byte in ASCII and two a byte in BCD |
| WireLayout.PrefixIsReadIff | packages/host-message/src/bytes.ts:74-95 | bytes are read as a length if and only if they hold its digits; half a byte left over in front is not looked at |
| WireLayout.HexDigits | packages/host-message/src/bytes.ts:38-50 | the hexadecimal digits stand for their usual values, in either case, and are printed in upper case |
| FieldLayout.EncodedIff | packages/host-message/src/field-codecs.ts:22-113 | a value is encoded if and only if bytes stand for it, character by character or half byte by half byte with the pad nibble on its side, and to these bytes |
| FieldLayout.PackedIff | packages/host-message/src/field-wire.ts:30-113 | a field is packed to a wire if and only if the value is within its rules and the wire is its bytes padded to the fixed width on the right side, or behind two digits (LLVAR) or three (LLLVAR) that count its bytes or characters within the limit |
| FieldLayout.StrippedIff | packages/host-message/src/field-wire.ts:70-82 | stripping keeps the one part that does not begin (or end) with the pad byte and is followed on the other side by nothing but it |
| FieldLayout.ReadIff | packages/host-message/src/field-codecs.ts:49-155 | bytes are read as a value if and only if each character or digit of the value is the byte or half byte at its place; an odd BCD count leaves out the half byte on the padded side |
| FieldLayout.FixedIsRead | packages/host-message/src/field-wire.ts:120-169 | a field of fixed width is truncated exactly when fewer bytes are left, and otherwise is the value its bytes stand for, or fails to decode or to be valid |
| FieldLayout.VariableIsRead | packages/host-message/src/field-wire.ts:127-169 | a field behind a prefix: a cut prefix, one that is no number, one beyond the limit and a cut body have each their own failure and position; otherwise as many bytes, or digits two a byte, as the prefix says are read |
| CountFields.CountReadsBackIff | packages/host-message/src/fixed-field-codec.ts:93-96 | a packed count field reads back as a numeral of its number, consuming exactly its own bytes, if and only if a condition known before packing holds: the numeral's edge survives stripping, only zeros or what is cut off again stand around it, and the validation allows it with these zeros |
| CountFields.CountRoundTrip | packages/host-message/src/fixed-field-codec.ts:93-96 | such a count reads back as the same numeral whatever follows it |
| FixedField.FixedFieldMessageCodec.Pack | packages/host-message/src/fixed-field-codec.ts:20-46 | the loop over uses and parts packs the message the specification describes, or fails with the same failure |
| FixedField.FixedFieldMessageCodec.PackGroupLoop | packages/host-message/src/fixed-field-codec.ts:80-125 | count, items and fill of a repeating group, or the failure of the first offending item |
| MessagePacking.MessagePacksIff | packages/host-message/src/fixed-field-codec.ts:20-46 | a message is packed if and only if each use can be (forbidden, or absent and optional, or known and packable) and the whole is within both limits, and then is the wires of the uses in order |
| MessagePacking.UsePacksIff | packages/host-message/src/fixed-field-codec.ts:22-40 | a use is packed if and only if the given fields meet it: presence, item limits of group and service, every field of every item, the fixed area |
| MessagePacking.UseFailsAs | packages/host-message/src/fixed-field-codec.ts:26-92 | the failures of an absent required field, an absent group and too many items |
| MessagePacking.GroupLayout | packages/host-message/src/fixed-field-codec.ts:88-124 | a packed group is the count of its items, every field of every item in order, and a fill up to the fixed area, of spaces unless told otherwise |
| FixedField.FixedFieldMessageCodec.Unpack | packages/host-message/src/fixed-field-codec.ts:48-78 | the loop over uses decodes exactly as specified: complete, partial or failed |
| FixedField.FixedFieldMessageCodec.UnpackGroupLoop | packages/host-message/src/fixed-field-codec.ts:127-182 | count, items and the rest of a fixed area are read as specified, and a failure keeps the fields decoded so far |
| MessageReading.CompleteIff | packages/host-message/src/fixed-field-codec.ts:48-182 | bytes decode completely to some fields if and only if these lie in them one after another up to the last byte, forbidden and absent tail uses without a value, every group with its count, both item limits and its area, and nothing else is in the result |
| MessageReading.PartialIff | packages/host-message/src/failures.ts:22-30 | allowing partial results changes exactly the answers that fail with truncated, decodeFailed, validationFailed or invalidLengthPrefix |
| MessageReading.PartialHolds | packages/host-message/src/fixed-field-codec.ts:48-78 | a partial result holds the fields before the failing one, with the values they have in the bytes, and nothing else but the count of a group that failed in its items; consumedBytes is where the failing field was left |
| TrailingBytes.CompleteUsesAll | packages/host-message/src/fixed-field-codec.ts:68-73 | for every definition without an optional tail, whatever is appended to bytes that decode completely makes them fail with trailingBytes |
| TrailingBytes.NeitherIsThePrefix | packages/host-message/src/fixed-field-codec.ts:68-73 | of two byte strings that decode completely neither is the beginning of the other |
| TrailingBytes.PackedThenMore | packages/host-message/src/fixed-field-codec.ts:20-78 | a packed message of the round trip with anything behind it fails with trailingBytes |
| FixedFieldRoundTrip.MessageRoundTrip | packages/host-message/src/fixed-field-codec.ts:20-182 | a packed well-formed message decodes completely to its canonical fields, with groups, fixed areas and optional tails, where the decoder skips exactly the absent tail uses |
| FixedFieldRoundTrip.MessageRestored | packages/host-message/src/fixed-field-codec.ts:20-182 | the decoded message has exactly the packed keys, the same scalars and group items, and for each group a count field denoting the number of items |
| FixedFieldRoundTrip.TruncatedMessage | packages/host-message/src/fixed-field-codec.ts:48-78 | a strict prefix of a message without optional tails never decodes completely: it fails, or yields a partial result that agrees with the whole message on every field and consumed no more than it received |
| FixedFieldRoundTrip.AbsentOptionalIsNeverRestored | packages/host-message/src/fixed-field-codec.ts:25-29 | a message whose optional scalar is absent never comes back with exactly its own keys |
| Bitmap.SetBitmapBit | packages/host-message/src/iso8583-codec.ts:155-160 | sets the bit of one element in place and no other |
| Bitmap.ReadBitmapElements | packages/host-message/src/iso8583-codec.ts:162-169 | the loop lists exactly the elements from 2 on whose bit is set |
| Bitmap.ReadingGivesElements | packages/host-message/src/iso8583-codec.ts:155-169 | a bitmap that holds an ascending list of elements reads back as that list |
| Iso8583.Iso8583MessageCodec.BuildBitmap | packages/host-message/src/iso8583-codec.ts:38-41 | the bitmap set bit by bit holds exactly the present elements, and bit 1 exactly when there is a second half |
| Iso8583.Iso8583MessageCodec.CollectPresent | packages/host-message/src/iso8583-codec.ts:25-37 | the present entries in element order, or the first forbidden or missing field |
| Iso8583.Iso8583MessageCodec.Pack | packages/host-message/src/iso8583-codec.ts:20-60 | type, bitmap and fields are written as specified, or packing fails with the same failure |
| Iso8583.Iso8583MessageCodec.Unpack | packages/host-message/src/iso8583-codec.ts:62-114 | the header checks and the loop over elements decode exactly as specified |
| MessagePacking.IsoPacksIff | packages/host-message/src/iso8583-codec.ts:20-60 | an ISO message is packed if and only if no forbidden field and every required one is given, each given one can be packed and the whole is within both limits; the fields follow the header by ascending data element |
| MessagePacking.HeaderLayout | packages/host-message/src/iso8583-codec.ts:38-46 | the header is the type, one digit a byte or two, and 8 or 16 bytes of bitmap, raw or hexadecimal, in which bit e from the highest on is set exactly for the present element e, and bit 1 for a second half |
| IsoReading.CompleteIff | packages/host-message/src/iso8583-codec.ts:62-169 | bytes decode completely to some fields if and only if they are the expected type, a bitmap that announces only defined and permitted and all required elements, and the announced fields by ascending element up to the last byte |
| IsoReading.Refusals | packages/host-message/src/iso8583-codec.ts:66-94 | another type, a set bit without a use and a required element whose bit is not set are refused, each with its failure and in this order |
| IsoReading.BadBitmapIsRefused | packages/host-message/src/iso8583-codec.ts:127-135 | a hexadecimal bitmap with another character in either half is refused, with or without partial results |
| IsoReading.PartialIff | packages/host-message/src/iso8583-codec.ts:96-114 | allowing partial results changes exactly the answers that fail with one of the four failures that may be partial |
| TrailingBytes.CompleteIsoUsesAll | packages/host-message/src/iso8583-codec.ts:112-112 | whatever is appended to bytes that decode completely makes them fail with trailingBytes |
| TrailingBytes.NeitherIsoIsThePrefix | packages/host-message/src/iso8583-codec.ts:112-112 | of two byte strings that decode completely neither is the beginning of the other |
| TrailingBytes.PackedIsoThenMore | packages/host-message/src/iso8583-codec.ts:20-114 | a packed message of the round trip with anything behind it fails with trailingBytes |
| IsoRoundTrip.BitmapListsPresent | packages/host-message/src/iso8583-codec.ts:37-41 | the bitmap read back lists the present elements in ascending order, and a second bitmap is written if and only if one of them exceeds 64 |
| IsoRoundTrip.HeaderRoundTrip | packages/host-message/src/iso8583-codec.ts:62-94 | the decoder passes the header of a packed message, in both type and both bitmap encodings, and goes on with exactly the present elements |
| IsoRoundTrip.MessageRoundTrip | packages/host-message/src/iso8583-codec.ts:20-169 | a packed message of an accepted definition decodes to exactly its present fields when they are recoverable |
| IsoRoundTrip.TruncatedMessage | packages/host-message/src/iso8583-codec.ts:62-144 | a strict prefix never decodes completely; with partial results allowed every decoded field equals the whole message's |
| ExactRoundTrip.IsoMessageRestoredIff | packages/host-message/src/iso8583-codec.ts:20-169 | every packed ISO message comes back as exactly its present fields if and only if every present value is recoverable |
| ExactMessages.MessageRestoredIff | packages/host-message/src/fixed-field-codec.ts:20-182 | every packed fixed-field message, with groups, areas and optional tails, comes back unchanged if and only if its present values, items and counts are recoverable, its absent uses are forbidden or end the message, and no present tail use ends it with nothing written; items of a fixed area have no field that counts hexadecimal digits |
| ExactRoundTrip.LostValue | packages/host-message/src/field-wire.ts:84-169 | a value that is not recoverable is not what the decoder returns, unless the decoder takes digits for bytes and reads past the value |
| ExactRoundTrip.ReadingNeedsTheWire | packages/host-message/src/field-wire.ts:115-169 | wherever the decoder returns a value it has consumed at least the bytes that packing the value writes |
| ExactMessages.FillCanHideALoss | packages/host-message/src/fixed-field-codec.ts:127-182 | why such a field is left out: a group with a fixed area that comes back although its item is not recoverable, because the reader strips the fill it read too far |
| Profiles.ValidateDefinitions | packages/host-message/src/registries.ts:109-123 | the loop accepts exactly the definitions with distinct ids, distinct data elements in 2..128 and lengths within the limit |
| Profiles.ValidateMessage | packages/host-message/src/registries.ts:163-202 | the loop accepts exactly the messages whose uses are defined, whose scalars are distinct and whose optional scalars stay at the tail |
| Profiles.ValidateProfile | packages/host-message/src/registries.ts:99-132 | a profile is accepted if and only if it meets the stated conditions as a whole |
| Profiles.AcceptedIsoProfile | packages/host-message/src/registries.ts:99-202 | every message of an accepted ISO profile is in the domain of the ISO round trip, for both type and both bitmap encodings |
| Profiles.AcceptedProfileCanLoseValues | packages/host-message/src/registries.ts:134-161 | an accepted profile under which a packed value decodes completely to another value |
| Framing.DecodeBcdLength | packages/kiosk-host-native-channel/src/framing.ts:139-146 | the loop over nibbles computes the number whose decimal digits the bytes show, or nothing when one is no digit |
| Framing.EncodeFrameInPlace | packages/kiosk-host-native-channel/src/framing.ts:52-66 | header, length and payload copied into one buffer are the specified frame, or encoding throws for the same reason |
| Framing.FrameRoundTrip | packages/kiosk-host-native-channel/src/framing.ts:52-93 | for every accepted option set, an encoded frame decodes to its payload whatever bytes follow, and consumes exactly the frame |
| Framing.CutFrameIsIncomplete | packages/kiosk-host-native-channel/src/framing.ts:68-93 | every strict prefix of an encoded frame is incomplete |
| Framing.EncodeSucceedsIff | packages/kiosk-host-native-channel/src/framing.ts:52-66 | encoding succeeds if and only if the frame is within the limit and its length below ten to the number of digits |
| WireLayout.FrameLayout | packages/kiosk-host-native-channel/src/framing.ts:52-66 | a frame is the header, the digits of the declared number and the payload; the number is the payload's length, plus the header's and the length field's exactly where their flags say so, case by case |
| WireLayout.DecodedFrameLength | packages/kiosk-host-native-channel/src/framing.ts:116-118 | the number a complete frame declares is the same function of its payload, case by case in the two flags |
| WireLayout.FrameIsReadAs | packages/kiosk-host-native-channel/src/framing.ts:68-93 | which bytes are incomplete, invalid and complete, with the payload and the bytes consumed, for every declared number |
| WireLayout.LengthIsReadIff | packages/kiosk-host-native-channel/src/framing.ts:131-147 | a length field is read as a number if and only if it holds its digits, behind a byte-order mark in ASCII |
| Framing.DecodedFrameReencodes | packages/kiosk-host-native-channel/src/framing.ts:68-147 | encoding a decoded payload gives the consumed bytes back if and only if the length field does not open with a byte-order mark |
| FrameStream.MoreBytesKeepTheFrame | packages/kiosk-host-native-channel/src/framing.ts:68-93 | a complete or invalid decision stands, with the same payload, whatever bytes follow |
| FrameStream.ParseContinues | packages/kiosk-host-native-channel/src/persistent-session.ts:205-223 | draining a buffer in two goes gives the frames of one go |
| FrameStream.ChunkIndependence | packages/kiosk-host-native-channel/src/persistent-session.ts:194-223 | two ways of cutting the same bytes into data events route the same payloads, stop at the same bad frame and leave the same buffer |
| FrameStream.EncodedStreamInChunks | packages/kiosk-host-native-channel/src/persistent-session.ts:194-223 | the encoded payloads p1..pn, cut in any way, route exactly p1..pn and leave an empty buffer |
| SessionSafety.UnknownEndsItsGeneration | packages/kiosk-host-native-channel/src/persistent-session.ts:115-154 | an exchange that ends unknown is the last one bound to its connection generation |
| SessionSafety.ResponseAnswersItsRequest | packages/kiosk-host-native-channel/src/persistent-session.ts:225-252 | a delivered response is a frame of the byte stream of the generation its request was bound to, and came after the binding |
| SessionSafety.FramesAnswerOnce | packages/kiosk-host-native-channel/src/persistent-session.ts:240-252 | no frame answers two exchanges, and answers come in the order of the exchanges |
| SessionSafety.NotSentIffNeverWritten | packages/kiosk-host-native-channel/src/persistent-session.ts:115-154 | a finished exchange is notSent if and only if no write was issued for it; every write went to the socket of its generation |
| SessionSafety.OneAtATime | packages/kiosk-host-native-channel/src/async-tools.ts:8-19 | of two exchanges the first is finished or the second has not begun; the pending one is bound to the live connection |
| SessionSafety.SocketsAreAdoptedOnce | packages/kiosk-host-native-channel/src/persistent-session.ts:177-192 | no socket id is adopted twice, even when the network layer reuses it |
| SessionSafety.RoutedFramesOfGeneration | packages/kiosk-host-native-channel/src/persistent-session.ts:194-262 | with a router that never throws, what was routed on a connection is exactly what its bytes parse to |
| SessionSafety.EncodedPayloadsAreRouted | packages/kiosk-host-native-channel/src/persistent-session.ts:194-262 | a peer that sends encoded payloads has exactly those routed, in order, over the whole session machine |
| SessionSafety.NothingIsAdoptedAfterDispose | packages/kiosk-host-native-channel/src/persistent-session.ts:92-113 | after dispose no further connection is adopted, whatever still happens |
| SessionProgress.ResponseIsTaken | packages/kiosk-host-native-channel/src/persistent-session.ts:225-252 | in every run, the first frame of a chunk that the router takes for the response resolves the pending exchange of the live connection with its payload |
| SessionProgress.ResponseIsDelivered | packages/kiosk-host-native-channel/src/persistent-session.ts:142-252 | and the exchange, awaiting its response, ends with that payload, whatever frames for others stand in front of it; the connection stays unless a later frame breaks it |
| SessionProgress.ExchangeSucceeds | packages/kiosk-host-native-channel/src/persistent-session.ts:115-252 | in every run, an exchange whose frame is written and whose answer arrives in any pieces ends with the answer |
| SessionProgress.ExchangeIsWritten | packages/kiosk-host-native-channel/src/persistent-session.ts:129-141 | in every run, an exchange on a live connection is bound to it, shown to the router and written to its socket |
| SessionProgress.ExchangeConnects | packages/kiosk-host-native-channel/src/persistent-session.ts:124-141 | without a connection it opens one first, and is bound to the socket that is adopted |
| SessionProgress.RefusedIsNotSent | packages/kiosk-host-native-channel/src/persistent-session.ts:116-123 | an exchange of a disposed session, or one that cannot be framed, ends as notSent |
| SessionProgress.FailedStartIsNotSent | packages/kiosk-host-native-channel/src/persistent-session.ts:124-128 | so does one whose connection cannot be opened |
| SessionProgress.OtherFramesChangeNothing | packages/kiosk-host-native-channel/src/persistent-session.ts:205-262 | frames that are not for the pending exchange leave it waiting and the connection up |
| SessionProgress.CloseLoses | packages/kiosk-host-native-channel/src/persistent-session.ts:194-282 | a close or an error of the live socket ends the pending exchange as unknown and schedules a reconnect |
| SessionProgress.BadFrameLoses | packages/kiosk-host-native-channel/src/persistent-session.ts:205-223 | so does a frame that does not decode, after the frames before it were routed |
| SessionProgress.LostReturnsUnknown | packages/kiosk-host-native-channel/src/persistent-session.ts:142-153 | an exchange whose connection was lost returns unknown and takes nothing else down |
| SessionProgress.TimeoutEndsUnknown | packages/kiosk-host-native-channel/src/persistent-session.ts:134-153 | a failed write and a response that does not come in time end the exchange as unknown and drop its connection, if it is still the live one |
| SessionProgress.AttemptOpens | packages/kiosk-host-native-channel/src/persistent-session.ts:156-175 | start and the reconnect timer open a connection when there is none and none is being opened |
| SessionProgress.NewSocketIsAdopted | packages/kiosk-host-native-channel/src/persistent-session.ts:177-192 | an opened socket that was never given up becomes the connection of the next generation, with an empty buffer |
| SessionProgress.FailedAttemptIsRetried | packages/kiosk-host-native-channel/src/persistent-session.ts:163-175 | a failed attempt of a started session arms the reconnect timer |
| SessionProgress.DisposeEndsWork | packages/kiosk-host-native-channel/src/persistent-session.ts:92-113 | dispose ends the pending exchange as unknown, gives up the socket and disarms the timer |
| SessionProgress.RouterSeesOpenExchange | packages/kiosk-host-native-channel/src/persistent-session.ts:225-234 | in every run the router is shown only an exchange that is under way, unanswered and on the live connection |
| SessionProgress.LateSocketIsNeverAdopted | packages/kiosk-host-native-channel/src/persistent-session.ts:177-185 | a socket that connects after its attempt was given up is never adopted in any continuation |
| PersistentSession.HostSession.DrainFrames | packages/kiosk-host-native-channel/src/persistent-session.ts:205-223 | the loop terminates and leaves the fields as the specified drain does, connection loss included |
| PersistentSession.HostSession.RoutePayload | packages/kiosk-host-native-channel/src/persistent-session.ts:225-262 | a payload resolves the pending exchange of this generation, is passed on, or drops the connection, exactly as specified; `SessionProgress` says what that comes to |
| PersistentSession.HostSession.DropConnection | packages/kiosk-host-native-channel/src/persistent-session.ts:270-282 | retires the socket id, empties the buffer, settles the pending exchange as unknown and arms the reconnect timer |
| PersistentSession.HostSession.FinishConnection | packages/kiosk-host-native-channel/src/persistent-session.ts:177-192 | adopts a new socket with a new generation and an empty buffer, or refuses it when disposed or used before |
| PersistentSession.HostSession.FailExchange | packages/kiosk-host-native-channel/src/persistent-session.ts:147-153 | a failed exchange ends unknown and takes the connection down only when it is of the current generation |
| PersistentSession.HostSession.BeginExchange | packages/kiosk-host-native-channel/src/persistent-session.ts:115-133 | refuses, awaits a connection, or binds to the live one |
| PersistentSession.HostSession.Dispose | packages/kiosk-host-native-channel/src/persistent-session.ts:92-113 | settles the pending exchange as unknown, retires the socket and disarms the timer |
| OutboxSafety.ResendNeedsReopening | packages/kiosk-host-delivery/src/worker.ts:23-74 | in every run without overlap, two sends of a record are separated by a reported notSent, an inquiry's not-found under retry, or an operator's confirmedNotSent; workers may stop anywhere |
| OutboxSafety.AttemptBound | packages/kiosk-host-delivery/src/worker.ts:64-73 | a record is sent at most maxAttempts times plus once for each reopening by an inquiry or an operator |
| OutboxRows.RowsStayInOrder | packages/kiosk-host-delivery/src/sqlite-store.ts:93-197 | in every run, however many calls are at work on one record, a row is leased if and only if it has an owner and an expiry, and a row waiting for an attempt has a time for it |
| OutboxRows.AttemptsCountClaims | packages/kiosk-host-delivery/src/sqlite-store.ts:147-169 | in every run the stored attempt count of a record is the number of claims that handed it out |
| OutboxSafety.ReconciledIsFinal | packages/kiosk-host-delivery/src/sqlite-store.ts:93-197 | no event of a run without overlap takes a record out of reconciled; calls that the code refuses by itself count as no overlap |
| OutboxSafety.AbandonedLeaseIsNotRetried | packages/kiosk-host-delivery/src/sqlite-store.ts:100-105 | the lease of a worker that stopped leads to uncertain or to an arriving response, never to a new attempt |
| OutboxSafety.FoundReconcilesIff | packages/kiosk-host-delivery/src/reconciliation.ts:72-75 | an inquiry that finds a response reconciles the record if and only if that response id was not stored before |
| OutboxOverlap.OverlapSendsTwice | packages/kiosk-host-delivery/src/sqlite-store.ts:185-197 | from every reachable state in which a live worker's lease ran out before its send, under any policies, a continuation in which the record is sent twice with nothing between the sends, and both sends are under way at once |
| OutboxOverlap.ReconciledIsLeftIff | packages/kiosk-host-delivery/src/sqlite-store.ts:185-197 | in every run, overlapping or not, the next event takes a record out of reconciled if and only if it ends a call still at work on the record with an outcome other than a response |
| OutboxOverlap.ResponseIsUndone | packages/kiosk-host-delivery/src/reconciliation.ts:48-84 | from every reachable state with a worker or an inquiry at work on a record, a response brought in by another caller reconciles the record, and any outcome of the call but a response undoes that |
| OutboxOverlap.DecisionIsUndone | packages/kiosk-host-delivery/src/reconciliation.ts:48-84 | the same for an operator who confirms an uncertain record as delivered while an inquiry or a worker is at work on it |
| OutboxOverlap.OverlapLeavesReconciled | packages/kiosk-host-delivery/src/sqlite-store.ts:185-197 | from every reachable state in which a live worker's lease ran out, and for every outcome that is no response, a continuation in which the lease expires, an operator confirms the record as delivered and the outcome takes it out of reconciled |
| OutboxReplay.EveryResponseOnce | packages/kiosk-host-delivery/src/sqlite-reconciliation.ts:47-95 | after any run, however many calls are at work on one record, the messages of a transaction are numbered 1..n in the order written, and each stored response has exactly one inbound message and one audit row |
| OutboxReplay.ReplayChangesNothing | packages/kiosk-host-delivery/src/sqlite-reconciliation.ts:51-60 | once a response is stored, in every continuation its id applied again, for whichever record, changes nothing and is reported as duplicate for its own record and as conflict for any other |
| OutboxReplay.ResponsesAreForever | packages/kiosk-host-delivery/src/sqlite-reconciliation.ts:47-95 | a stored response keeps its record over any continuation of any run |
| OutboxReplay.AppendedNumber | packages/kiosk-host-delivery/src/sqlite-reconciliation.ts:170-196 | an inserted message extends the numbers of its transaction by the next one and leaves other transactions alone |
| OutboxClaims.LeaseExcludes | packages/kiosk-host-delivery/src/sqlite-store.ts:133-171 | in every run, between two claims that hand out the same record there is an event that ends the first lease: a claim after it ran out, or the outcome of a call at work on the record, or a response for it |
| OutboxClaims.OnlyDueRecordsAreClaimed | packages/kiosk-host-delivery/src/sqlite-store.ts:147-169 | in every run a record that is handed out was due under its registered policy version, and its attempts are now the number of claims that handed it out |
| OutboxClaims.RetryWaits | packages/kiosk-host-delivery/src/worker.ts:69-73 | in every run a record reported as not sent is handed out again only by a claim after the policy's delay, unless other work on it was concluded in between |
| OutboxClaims.EnqueueIsIdempotent | packages/kiosk-host-delivery/src/sqlite-store.ts:30-41 | a repeated enqueue changes nothing, and its key is refused to any other record or transaction |
| OutboxClaims.KeysStayUnique | packages/kiosk-host-delivery/src/sqlite-store.ts:30-87 | no two records ever share an idempotency key |
| OutboxOutcomes.UnknownLeavesUncertain | packages/kiosk-host-delivery/src/worker.ts:44-63 | for every state with a call sending an existing record, an unknown result and an exception leave the record uncertain, without a lease and a next attempt |
| OutboxOutcomes.ConflictLeavesUncertain | packages/kiosk-host-delivery/src/worker.ts:54-57 | a response id of another record leaves it uncertain as well, and changes no response |
| OutboxOutcomes.NotSentIsRetriedOrFails | packages/kiosk-host-delivery/src/worker.ts:64-73 | notSent schedules the attempt after the policy's delay, and fails the record when the attempts are used up |
| OutboxOutcomes.ResponseReconciles | packages/kiosk-host-delivery/src/worker.ts:48-58 | a new response id reconciles the record, with its message and audit row |
| OutboxOutcomes.MissingPayloadFails | packages/kiosk-host-delivery/src/worker.ts:28-32 | a record whose payload is gone fails and is not sent |
| OutboxOutcomes.InquiryBeginsIff | packages/kiosk-host-delivery/src/reconciliation.ts:51-58 | the host is asked if and only if the record is uncertain under its registered policy version and the policy says so |
| OutboxOutcomes.InquiryEndsAs | packages/kiosk-host-delivery/src/reconciliation.ts:59-84 | found reconciles, not found schedules a retry at once or changes nothing as the policy says, unavailable changes nothing |
| OutboxOutcomes.OperatorDecidesIff | packages/kiosk-host-delivery/src/sqlite-reconciliation.ts:113-155 | an operator's decision is written if and only if operator and reason are given and the record is uncertain or failed; each decision with its status and retry time |
| OutboxOutcomes.ClaimLeasesDueRecord | packages/kiosk-host-delivery/src/sqlite-store.ts:147-169 | a due record under its registered policy version is leased to the caller for the policy's time and counted; under another version it becomes uncertain and is not handed out |
| OutboxOutcomes.ClaimOfOthersOnlyExpires | packages/kiosk-host-delivery/src/sqlite-store.ts:141-152 | a claim of a record that is not due hands nothing out and only turns leases that ran out into uncertain records |
| OutboxOutcomes.NothingDueOnlyExpires | packages/kiosk-host-delivery/src/sqlite-store.ts:97-112 | so does claimNext when nothing is due |
| OutboxOutcomes.ClaimWithoutPolicyFails | packages/kiosk-host-delivery/src/sqlite-store.ts:153-153 | a claim of a due record whose policy is not registered fails and changes nothing |
| OutboxOutcomes.EnqueuedRecordIsDue | packages/kiosk-host-delivery/src/sqlite-store.ts:42-85 | a new record is pending and due at once, with no attempt made, and its outbound message is the next one of its transaction |
| OutboxOutcomes.DueRecordIsSent | packages/kiosk-host-delivery/src/worker.ts:23-43 | in every run, a due record under its registered policy version is claimed and sent, as one more attempt |
| OutboxOutcomes.EnqueuedIsDelivered | packages/kiosk-host-delivery/src/worker.ts:23-58 | in every run, a record enqueued anew, claimed, sent and answered with a new response id is sent once and reconciled with that response |
| OutboxOutcomes.NextDueIsOldest | packages/kiosk-host-delivery/src/sqlite-store.ts:106-111 | the record claimed next has been due the longest, then was enqueued first, then has the first id in text order |
| Outbox.Policy.RetryDelay | packages/kiosk-host-delivery/src/worker.ts:69-70 | the delay after an attempt is that attempt's entry of the list, and the last entry from then on; the index is always in range |
| OutboxStore.HostDeliveryStore.Enqueue | packages/kiosk-host-delivery/src/sqlite-store.ts:30-87 | the row and its numbered outbound message are written together or not at all |
| OutboxStore.HostDeliveryStore.NextNumber | packages/kiosk-host-delivery/src/sqlite-store.ts:65-68 | one more than the largest number of the transaction |
| OutboxStore.HostDeliveryStore.FirstDue | packages/kiosk-host-delivery/src/sqlite-store.ts:106-111 | a due row that no due row precedes by attempt time, creation time and id; none only if nothing is due |
| OutboxStore.HostDeliveryStore.ClaimNext | packages/kiosk-host-delivery/src/sqlite-store.ts:93-131 | a claim of the first due row, only the expiry of leases when nothing is due, and no change at all when the policy is not registered |
| OutboxStore.HostDeliveryStore.Claim | packages/kiosk-host-delivery/src/sqlite-store.ts:133-171 | the specified claim, rolled back as a whole when the policy is not registered |
| OutboxStore.HostDeliveryStore.UpdateState | packages/kiosk-host-delivery/src/sqlite-store.ts:185-197 | sets status and next attempt time and clears the lease of an existing row, whatever its state |
| OutboxStore.HostDeliveryStore.ApplyResponse | packages/kiosk-host-delivery/src/sqlite-reconciliation.ts:47-95 | response, inbound message, audit row and reconciled status are written together or not at all |
| OutboxStore.HostDeliveryStore.ApplyManualResolution | packages/kiosk-host-delivery/src/sqlite-reconciliation.ts:113-155 | an identified operator resolves an uncertain or failed record; every refusal leaves the tables as they are |
| OutboxWorker.HostDeliveryWorker.RunOnce | packages/kiosk-host-delivery/src/worker.ts:23-74 | an undisturbed call works on the named record, or without a name on the next due one; for each answer the record is left as it says (uncertain after unknown, exception and conflict, reconciled, retried, failed), and the reported status is the record's |
| OutboxWorker.UncertainReconciliation.Reconcile | packages/kiosk-host-delivery/src/reconciliation.ts:48-84 | asks if and only if the record is uncertain under its registered inquiry policy; for each answer the tables and the reported result are as it says, `reconciled` being reported even when nothing could be applied |
| FinalizationPlan.TopologicalSort | packages/kiosk-runtime/src/finalization-runner.ts:134-151 | succeeds if and only if there is no dependency cycle and no unknown dependency, and then lists every finalizer once with its dependencies before it; the error names the kind of failure |
| FinalizationPlan.Sorter.Visit | packages/kiosk-runtime/src/finalization-runner.ts:138-148 | the recursion terminates on every graph, extends the result in order, and an error comes with a cycle or an unknown dependency |
| FinalizationPlan.PlanExcludesErrors | packages/kiosk-runtime/src/finalization-runner.ts:134-151 | a plan order exists only for graphs without cycles and unknown dependencies |
| FinalizationPlan.PlanVersionIsInjective | packages/kiosk-runtime/src/finalization-runner.ts:33-43 | plans without bars in ids and versions, and with the at sign only in ids or only in versions, are equal when their version strings are |
| FinalizationPlan.PlanVersionCollision | packages/kiosk-runtime/src/finalization-runner.ts:33-43 | for all texts: a bar in an id or a version, and an at sign on both sides, make two different plans share a version string |
| FinalizationRunner.Runner.Execute | packages/kiosk-runtime/src/finalization-runner.ts:67-91 | the loop over the plan saves and calls exactly what the specification says, whichever call fails or stops it |
| FinalizationRunner.Runner.ExecuteStep | packages/kiosk-runtime/src/finalization-runner.ts:74-89 | a step is stored running, called, and stored completed, or stored failed with its record |
| FinalizationRunner.Runner.Run | packages/kiosk-runtime/src/finalization-runner.ts:45-55 | loads or creates the record, refuses another plan version, stores the recovery context once, and executes |
| FinalizationRunner.Runner.Resume | packages/kiosk-runtime/src/finalization-runner.ts:57-65 | executes the stored record, and refuses another plan version or a record without recovery context |
| FinalizationSafety.StoredRecordsAreInOrder | packages/kiosk-runtime/src/finalization-runner.ts:67-91 | whatever the saves do, in every record ever stored the completed steps are a prefix of the plan, and the record is completed only when every step is |
| FinalizationSafety.DependenciesFirst | packages/kiosk-runtime/src/finalization-runner.ts:73-80 | whatever the saves do, a finalizer is called only after everything it depends on is stored as completed |
| FinalizationRepeats.NeverAgain | packages/kiosk-runtime/src/finalization-runner.ts:73-89 | a finalizer whose step was once stored as completed is never called again, over any history, as long as no save of a completed step writes and throws with the save of the failed step landing over it |
| FinalizationSafety.CallsAreCounted | packages/kiosk-runtime/src/finalization-runner.ts:76-81 | whatever the saves do, a completed step was called at least once, and no step more often than its stored attempt count |
| FinalizationRepeats.OverwritingRepeats | packages/kiosk-runtime/src/finalization-runner.ts:79-88 | the converse: after any history, a call in which that happens to a step makes the next run call its finalizer again |
| FinalizationRepeats.EveryStepCanRepeat | packages/kiosk-runtime/src/finalization-runner.ts:79-88 | for every plan, history and step that is next in it, a run whose saves behave so makes the step repeat |
| FinalizationOutcomes.UndisturbedRunCompletes | packages/kiosk-runtime/src/finalization-runner.ts:45-91 | after any history, a run that nothing disturbs calls every finalizer that is not completed, once and in plan order, stores each as completed with its attempt counted, and then the operation |
| FinalizationOutcomes.UndisturbedResumeCompletes | packages/kiosk-runtime/src/finalization-runner.ts:57-91 | resume does the same with the stored record, provided that it holds a recovery context |
| FinalizationOutcomes.FailureIsStored | packages/kiosk-runtime/src/finalization-runner.ts:79-88 | after any history, a run whose finalizer at some position fails calls the unfinished ones before it and this one, none later, and stores its step and the operation as failed, the others done or untouched |
| FinalizationOutcomes.FailedStepIsNext | packages/kiosk-runtime/src/finalization-runner.ts:73-79 | what is left after such a failure is the failed step first, then the later ones that are not completed |
| FinalizationOutcomes.OtherPlanIsRefused | packages/kiosk-runtime/src/finalization-runner.ts:57-64 | a stored record of another plan version, or without recovery context on resume, is refused with nothing saved and nothing called |
| CashNotes.MergeNotesInMap | packages/xfs-device-service/src/cash-acceptance.ts:330-339 | the loop over a map merges the notes by id in order of first appearance |
| CashNotes.BatchCount | packages/xfs-device-service/src/cash-acceptance-policy.ts:17-26 | a batch changes the count of each note id by what the device reported, but never below zero |
| CashNotes.NotesAreConserved | packages/xfs-device-service/src/cash-acceptance.ts:105-110 | after any batches the counts per note id and the refused count equal the reported sums if and only if no running sum was negative |
| CashNotes.HonestDeviceIsConserved | packages/xfs-device-service/src/cash-acceptance.ts:105-110 | a device that reports no negative counts loses no note and no refusal |
| CashNotes.SnapshotIsCanonical | packages/xfs-device-service/src/cash-acceptance-policy.ts:17-26 | a snapshot lists each note id once, in ascending order, with a positive count |
| CashSafety.NeverBoth | packages/xfs-device-service/src/cash-acceptance.ts:187-246 | the device never receives both cashInEnd and cashInRollback for an operation, crash and recovery included, when no abort passes its guards while an acceptBatch or authorize is in flight |
| CashSafety.OverlapAllowsBoth | packages/xfs-device-service/src/cash-acceptance.ts:217-224 | the converse: from every state in which an abort passes its guards during an acceptBatch or authorize, a continuation in which the device receives both |
| CashSafety.FlagIsStoredFirst | packages/xfs-device-service/src/cash-acceptance-recovery.ts:33-41 | whenever cashInEnd was called the stored commit flag is set, so recovery only observes then |
| CashSafety.CommitsAreAuthorized | packages/xfs-device-service/src/cash-acceptance-policy.ts:28-37 | cashInEnd is called only with an approved authorization for this operation and for the revision and hash of a snapshot it really took |
| CashSafety.EarlierAuthorizationIsStale | packages/xfs-device-service/src/cash-acceptance.ts:105-111 | every batch raises the revision by one, and an authorization given before it no longer admits a commit |
| CashSafety.CommitsEverythingOnce | packages/xfs-device-service/src/cash-acceptance.ts:187-196 | when commits that pass their guards wait for acceptBatch and authorize, the device receives cashInEnd at most once, for the snapshot of every batch ever counted |
| CashSafety.OverlapCommitsTwice | packages/xfs-device-service/src/cash-acceptance.ts:187-196 | the converse: from every state in which a commit passes its guards during an acceptBatch or authorize, a continuation in which the device receives cashInEnd twice |
| CashOutcomes.RecoveryRollsBackIff | packages/xfs-device-service/src/cash-acceptance-recovery.ts:17-41 | in every reachable crashed state, recovery tells the device to roll back if and only if the stored operation is unresolved, its commit flag is not set and the status is active, escrow or cash-in-active; otherwise nothing changes |
| CashOutcomes.BatchIsEscrowed | packages/xfs-device-service/src/cash-acceptance.ts:84-118 | a batch the device reports is counted and escrowed under the next revision, with its hash stored |
| CashOutcomes.AnswerEscrowsAgain | packages/xfs-device-service/src/cash-acceptance.ts:173-185 | an answer for exactly the shown snapshot, approving or not, escrows again; any other leaves the operation authorizing |
| CashOutcomes.ApprovedEscrowIsCommitted | packages/xfs-device-service/src/cash-acceptance.ts:187-215 | a commit with an approved and exact authorization tells the device cashInEnd once and completes the operation |
| CashOutcomes.OtherCommitsAreRefused | packages/xfs-device-service/src/cash-acceptance.ts:187-191 | every other commit changes nothing |
| CashOutcomes.AbortRollsBack | packages/xfs-device-service/src/cash-acceptance.ts:217-233 | an admitted abort tells the device to roll back, and the operation is closed when the cash is taken or left for an intervention |
| CashOutcomes.AbortRetracts | packages/xfs-device-service/src/cash-acceptance.ts:234-245 | cash that is not taken is retracted where the policy says so, and then the operation is closed |
| CashOutcomes.OtherAbortsTellNothing | packages/xfs-device-service/src/cash-acceptance.ts:217-222 | any other abort tells the device nothing; with the flag set the operation is stored as failed |
| CashOutcomes.RefusedNotesAreOffered | packages/xfs-device-service/src/cash-acceptance.ts:120-151 | refused notes are offered to the customer; taken they leave the escrow as it is, left for an intervention they close the operation |
| CashOutcomes.RefusedNotesAreRetracted | packages/xfs-device-service/src/cash-acceptance.ts:120-171 | refused notes that the customer leaves are retracted where the policy says so, and the operation is closed |
| CashOutcomes.DepositIsCommitted | packages/xfs-device-service/src/cash-acceptance.ts:84-215 | from the start: a batch, an approval of its snapshot and a commit end completed, with cashInEnd for exactly that snapshot and nothing else told |
| CashSession.ActiveSession.AcceptBatch | packages/xfs-device-service/src/cash-acceptance.ts:84-118 | record and snapshot after a batch, for every failure of store and device; a snapshot is returned if and only if the phase admits it and every write and the device succeed, and it is stored with the next revision |
| CashSession.ActiveSession.Authorize | packages/xfs-device-service/src/cash-acceptance.ts:173-185 | returns an authorization if and only if the operation is escrowed, both writes land and the answer is exact and approving, and then it admits a commit of the current snapshot |
| CashSession.ActiveSession.Commit | packages/xfs-device-service/src/cash-acceptance.ts:187-215 | the device is told to commit if and only if the authorization admits it and the flag and its evidence are stored; committed is reported if and only if the rest succeeds too |
| CashSession.ActiveSession.Abort | packages/xfs-device-service/src/cash-acceptance.ts:217-246 | with the commit flag set the device is told nothing; otherwise rollback, and a retract of what was not taken; what the caller is told follows from the course, case by case |
| CashSession.ActiveSession.AwaitTaking | packages/xfs-device-service/src/cash-acceptance.ts:225-245 | after the rollback the device is told at most a retract, and only for cash that was not taken; a reported return or retract is stored as the end |
| CashSession.AcceptIsARun | packages/xfs-device-service/src/cash-acceptance.ts:84-118 | an undisturbed acceptBatch does what its events do |
| CashSession.AuthorizeIsARun | packages/xfs-device-service/src/cash-acceptance.ts:173-185 | an undisturbed authorize does what its events do |
| CashSession.CommitIsARun | packages/xfs-device-service/src/cash-acceptance.ts:187-215 | an undisturbed commit does what its three events do |
| CashSession.AbortIsARun | packages/xfs-device-service/src/cash-acceptance.ts:217-246 | an undisturbed abort does what its events do |
| Deposit.DepositWorkflow.Run | packages/deposit-orchestration/src/workflow.ts:44-66 | for every course the status is what the course says: completed if and only if the operation began, the customer confirmed, the host granted exactly the escrow, every write landed, the device committed and the inventory after was captured, and then everything a completed outcome claims holds, the notes refused in each round and those accepted accounted for; declined, timed out, cancelled and failed each by their own condition, with the cash where the abort says, intervention otherwise; the device is told cashInEnd if and only if the cash was released and the flag stored; a started session is closed exactly once, and never told both to commit and to roll back |
| Deposit.DepositWorkflow.CollectAndReview | packages/deposit-orchestration/src/workflow.ts:82-100 | the review loop ends confirmed, ended or without a decision: confirmed in the first round in which the customer confirms while every round before asked for more, and without a decision if and only if the policy allows no batch |
| Deposit.DepositWorkflow.Commit | packages/deposit-orchestration/src/workflow.ts:199-221 | completed if and only if the commit and the capture after it succeed; the device is told cashInEnd if and only if the flag is stored; any failure is an intervention after one abort |
| Deposit.DepositWorkflow.AuthorizeAndCommit | packages/deposit-orchestration/src/workflow.ts:164-197 | completed if and only if the host approved exactly, every write landed, the device committed and the inventory after was captured; declined if and only if the host declined and the cash came back; the device is told cashInEnd if and only if authorization, mark and flag succeeded |
| Deposit.DepositWorkflow.PersistEscrow | packages/deposit-orchestration/src/workflow.ts:116-134 | the escrow facts are those of the latest snapshot; the operation goes on if and only if the mark landed and newly refused notes, if any, were taken or retracted |
| Deposit.OverwritingTheMarkIsHarmless | packages/deposit-orchestration/src/outcome.ts:77-98 | overwriting the reconciliation mark loses no open question, because whatever set it leaves another trace |
| Withdrawal.WithdrawalOrchestrator.RunAdmitted | packages/withdrawal-orchestration/src/orchestrator.ts:59-187 | for every course: cash is presented, once, if and only if host, dispense, every gate, presentation authority and, where the policy asks for it, the returned card allow it; completed if and only if it was presented, taken and the card is back; timed out after a presentation if and only if it was retracted and the card is settled; declined if and only if the host said no and cash and card are settled; every outcome but intervention leaves cash and card settled, and the cash is never left pending; dispense and presentation are recorded as their answers, or the exit, say |
| Withdrawal.WithdrawalOrchestrator.EvaluateGates | packages/withdrawal-orchestration/src/policy.ts:48-59 | returns the first answer that is not an approval, and approval only when every gate of the policy approved |
| Withdrawal.AllGatesApprove | packages/withdrawal-orchestration/src/policy.ts:48-59 | the gates approve if and only if each is registered and approves |
| Withdrawal.WithdrawalOrchestrator.Present | packages/withdrawal-orchestration/src/orchestrator.ts:153-181 | the outcome of a presentation by what its ports answer; without presentation authority nothing is shown, and a failed presentation ends as an intervention |
| Withdrawal.WithdrawalOrchestrator.Verify | packages/withdrawal-orchestration/src/orchestrator.ts:127-151 | goes on if and only if all gates approve and, where required, the card is returned; otherwise the cash is taken back and the outcome is the gate's or the card's |
| Withdrawal.WithdrawalOrchestrator.TransferCash | packages/withdrawal-orchestration/src/orchestrator.ts:284-304 | afterwards the cash is where the exit says: ended, transferred to recovery, or unknown; never pending |
| SupervisorSafety.ReadyIsEarned | packages/kiosk-host-session/src/supervisor.ts:88-177 | while not stopping, ready means that the transport is connected on the current generation, that an establish was accepted for it with no disconnect since, and that fewer heartbeats of the run failed in a row than the threshold |
| SupervisorSafety.FailuresAreCounted | packages/kiosk-host-session/src/supervisor.ts:153-177 | at any time of any run the failure count is the number of heartbeats that failed in a row since the last activation, accepted establish or accepted heartbeat |
| SupervisorControls.CancelledControlIsHarmless | packages/kiosk-host-session/src/control-operation.ts:20-47 | in every run, whatever a cancelled control still does changes no state, task, activation or failure count |
| SupervisorControls.SupersededControlReturnsNothing | packages/kiosk-host-session/src/supervisor.ts:179-209 | a control that a later one superseded before it returned never returns a result in any continuation, and nothing it or its caller still does changes anything |
| SupervisorControls.FirstOutcomeCounts | packages/kiosk-host-session/src/control-operation.ts:23-46 | in every run the first outcome of a control stays, whatever the hook still answers, times out or is cancelled |
| SupervisorStopping.NeverReadyWhileStopping | packages/kiosk-host-session/src/supervisor.ts:71-86 | when dispose is called and no result that its caller has yet to see makes the supervisor ready, the supervisor is never ready again, in any continuation and with any start pending; when there is no late result at all, no task is scheduled any more |
| SupervisorStopping.ReadyAfterDisconnectWhileStopping | packages/kiosk-host-session/src/supervisor.ts:118-177 | from every other reachable state, a continuation after dispose in which the caller's late result makes the supervisor ready while stopping, and it stays so after the transport disconnected |
| SupervisorStopping.ReadyWhileStoppingIff | packages/kiosk-host-session/src/supervisor.ts:71-177 | both together: dispose can be followed by a ready supervisor if and only if a late result makes ready: an accepted establish or heartbeat, or a failed heartbeat that stays below the threshold (counted from zero when a pending start can clear the count first), of the live generation |
| SupervisorProgress.AcceptedEstablishIsReady | packages/kiosk-host-session/src/supervisor.ts:127-132 | from every state, an accepted establish of the live generation makes the session ready, clears the failures and schedules a heartbeat where there is one |
| SupervisorProgress.RejectedEstablishIsRetried | packages/kiosk-host-session/src/supervisor.ts:133-134 | a rejected or timed-out establish degrades the session and schedules a retry |
| SupervisorProgress.RetryEstablishesAgain | packages/kiosk-host-session/src/supervisor.ts:144-148 | the retry, when it fires on the live generation, begins a new establish |
| SupervisorProgress.AcceptedHeartbeatGoesOn | packages/kiosk-host-session/src/supervisor.ts:163-167 | an accepted heartbeat keeps the session ready, clears the failures and schedules the next one |
| SupervisorProgress.FailedHeartbeatIsCounted | packages/kiosk-host-session/src/supervisor.ts:168-176 | a failed one is counted: below the threshold ready with the next heartbeat scheduled, at the threshold degraded with a retry scheduled |
| SupervisorProgress.HeartbeatIsSent | packages/kiosk-host-session/src/supervisor.ts:154-161 | a heartbeat that is due on the live generation is sent |
| SupervisorProgress.StaleTaskDoesNothing | packages/kiosk-host-session/src/supervisor.ts:144-161 | a retry or heartbeat of a generation that is gone does nothing |
| SupervisorProgress.ConnectionIsEstablished | packages/kiosk-host-session/src/supervisor.ts:88-116 | a new connection is established under its own generation, whatever was under way |
| SupervisorProgress.DisconnectEndsWork | packages/kiosk-host-session/src/supervisor.ts:98-101 | a lost connection leaves no control, task or activation |
| SupervisorProgress.ReconnectingIsShown | packages/kiosk-host-session/src/supervisor.ts:94-97 | a connection attempt is shown as connecting |
| SupervisorProgress.StartConnects | packages/kiosk-host-session/src/supervisor.ts:51-64 | start shows connecting, and its failure disconnected |
| SupervisorProgress.DegradedSessionRecovers | packages/kiosk-host-session/src/supervisor.ts:118-149 | a degraded session whose retry is accepted is ready again |
| SupervisorProgress.StartedSessionGetsReady | packages/kiosk-host-session/src/supervisor.ts:51-132 | from the start, a connection and an accepted establish make a ready session with a heartbeat scheduled where there is one |
| SupervisorProgress.RepeatedCallsDoNothing | packages/kiosk-host-session/src/supervisor.ts:51-72 | a repeated start or dispose changes nothing, nor does a start after dispose was called |
| SupervisorProgress.SettledActivationAllowsAnother | packages/kiosk-host-session/src/supervisor.ts:65-115 | a start that resumes on a live connection establishes it anew once the activation of its generation is over, and not while it is under way |
| SupervisorProgress.DisposeRunsShutdown | packages/kiosk-host-session/src/supervisor.ts:71-76 | dispose runs the shutdown hook if and only if there is one and the transport is connected on a generation |
| SupervisorProgress.DisposeWaitsForShutdown | packages/kiosk-host-session/src/supervisor.ts:76-76 | dispose goes no further while its shutdown is under way |
| SupervisorProgress.DisposeComesToItsEnd | packages/kiosk-host-session/src/supervisor.ts:77-84 | once the shutdown is over dispose ends all work and stops the supervisor |
| SupervisorSession.HostSessionSupervisor.ActivateGeneration | packages/kiosk-host-session/src/supervisor.ts:104-116 | a new generation cancels all work and begins an establish of its own |
| SupervisorSession.HostSessionSupervisor.InvalidateWork | packages/kiosk-host-session/src/supervisor.ts:241-248 | advances the epoch, cancels the control and the task, and forgets the activation |
| SupervisorSession.HostSessionSupervisor.RunControl | packages/kiosk-host-session/src/supervisor.ts:179-202 | cancels the previous control and starts one under a new epoch |
| SupervisorSession.HostSessionSupervisor.ReturnControl | packages/kiosk-host-session/src/supervisor.ts:203-208 | a result passes only in its own epoch and on its own generation |
| SupervisorSession.HostSessionSupervisor.AfterHeartbeat | packages/kiosk-host-session/src/supervisor.ts:163-176 | an accepted heartbeat clears the failures, one below the threshold is counted, and the one that reaches it degrades the session |

## Left out

- ExactMessages.MessageRestoredIff: the keys of a message and the fields of an item are distinct, and the items of a fixed area have no hexadecimal field behind a prefix that counts digits, because `WellFormed` is not necessary then (`ExactMessages.FillCanHideALoss`).
- MessageReading.CompleteIff: the keys of a message and the fields of an item are distinct, as for the whole messages above.
- Framing.FrameRoundTrip: the text decoder is modelled as dropping a leading byte-order mark and otherwise keeping digits as digits; its treatment of invalid UTF-8 only matters as "not a digit".
- CashSession.ActiveSession.AcceptBatch: the methods run one call at a time; interleaved calls, the refused-media call and crashes are in the events of `CashAcceptance`.
- OutboxWorker.HostDeliveryWorker.RunOnce: runs one call at a time; interleaved and stopped workers are in the events of `OutboxRuns`.
- OutboxSafety.ResendNeedsReopening: assumes that calls the code lets in do not overlap on one record and that a live worker finishes before its lease runs out; `OutboxOverlap` shows why.
- FinalizationRepeats.NeverAgain: like all results about histories it assumes that runs of one operation do not overlap and that resume is given a record of the store.
- SupervisorSafety.ReadyIsEarned: the transport's events arrive as it changes and a new connection raises its generation, as the persistent session guarantees; what holds while stopping is in `SupervisorStopping`.
- Encodings and checks that the code delegates: `utf8` and custom field codecs are not part of this model, and a validation pattern is any predicate on strings. Characters are single code units below the surrogates.
- Range checks that the model's types make true (padding bytes, BCD nibbles, whole lengths), safe summaries, data classification and registry freezing.
- Message texts, failure details, audit texts, lifecycle notifications and their subscribers; a lifecycle or router callback that calls back into the session is not modelled.
- SQL, the database engine, encryption and the payload vault: tables are maps and sequences, a transaction is one step, and whether a payload is available is the environment's choice. Foreign keys to the transaction table are not checked.
- The snapshot hash is any function of revision, notes and refused count. Evidence and lease calls appear only as points where a call may fail.
- The order of promise jobs is any order, with one exception that the code guarantees: once its shutdown has settled, `dispose` goes on before a control started after it returns to its caller.
- Back-off delays, timer lengths and real clocks: a timer may fire whenever it is armed, and outbox times are numbers given by the caller.
- TLS and connection parameters, the inbound message coordinator beyond its place in routing, and lifecycle states that no decision reads.
- Outcome reasons, triggers and safe summaries of deposits and withdrawals; the host protocol's completion message and the recovery barrier in front of both workflows.
- Withdrawal planning, the cash delivery session behind its port, and card custody behind its port.
- The flow engine, command system, plugins, configuration, user interface and device adapters.
