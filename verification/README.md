# HotFIX: a verified model of the FIX codec, the replay, the stores and the schedule

This project models the core of the HotFIX engine and proves what it is built for:

- **The tag=value codec** (`crates/hotfix-message`). Field maps are insertion-ordered maps from
  tags to bytes, with repeating groups hanging off their count tags to any depth. The printer
  computes BodyLength before it writes and appends a byte-sum checksum; the parser is a class with
  a position, tells header, body and trailer apart by dictionary tag sets, and ends a group on the
  first tag the group cannot absorb. An independent grammar (`RunConforms`, `BodyConforms`) says
  what well-formed groups and bodies are; the parser is sound and complete for it, and parser and
  printer undo each other in both directions. What is rejected, and with which error, is said
  for every byte string that passes the integrity check (`Verdicts.BuildVerdict`).
- **The dictionary** behind it: components refer to components, groups nest, and everything is
  flattened into one layout per message type.
- **The stream framer** (`crates/hotfix/src/message/parser.rs`), which cuts bytes into messages.
- **Numbering, resending and judging a resend** (`session/ctx.rs`, `session/outbound.rs`,
  `message.rs`, `message/verification.rs`). The replay is modelled twice: as events, where it is
  proved to be exactly what is wanted, and as the bytes `resend_messages` puts on the wire, which a
  peer running the same code frames, builds and verifies.
- **The file store** against the in-memory store, with restarts and unfinished writes.
- **Session schedules**: "is it active" against "which window is it in".

Reading order: `Decimal`, `Fields`, `Wire`, `Layouts`, `Grammar`, `Encoder`, `Lengths`, `Messages`,
`Assembly`, `Reading`, `Builder` for the codec; `BodyLengths`, `BodyGrammar`, `Alignment`,
`RoundTrip`, `Rebuilding`, `Reverse`, `RequiredFields`, `TopLevelFields`, `Corruption`,
`GroupRejections`, `Rejections`, `Verdicts` for its main theorems; `Dictionaries`; `Framing`,
`Transport`; `Timestamps`, `Outbound`, `Verification`, `Replay`, `Resending`, `Rereading`,
`ReplayBytes`, `ReplayWire` (with `ReplayAccepted`), `Ledger`, `Recovery` for the session;
`StoreFiles`, `Stores` (with `StoreRuns`), `FileLedger`; `Schedule`. `Examples` shows that the
hypotheses of the round trip and of the replay can be met.

Code that changes things step by step is modelled by methods and classes (`Messages.Message`,
`Builder.Parser`, `Framing.StreamParser`, `Stores.FileStore`, `Ledger.SessionCtx`, the loops of the
writer and of `resend_messages`), each proved against a function of the inputs or of the old state;
the theorems are about those functions.

Where the code and its own words disagree, the model follows the code:

- The last gap fill of an answer announces the last administrative number itself, not the number
  behind it (`session/outbound.rs:114-119`). A peer therefore stops one short, and its own handler
  refuses the gap fill if it stands for a single message: `Replay.PeerAccepts`,
  `Replay.NextMessageFits`.
- The checksum is compared only if it consists of three digits; anything else in its place is
  accepted: `RoundTrip.IntegrityRendered`, with inputs in `Corruption.UnreadCheckSum`.
- A message that cannot be prepared for resending is said to be sent as the original. That is so
  exactly if it has no SendingTime; one whose SendingTime does not parse loses it:
  `Outbound.UnpreparedSent`, with an input in `Outbound.DateOnlyLost`.
- Opening a file store reads the sequence numbers and then empties their file, so a second restart
  without a write in between forgets them: `StoreRuns.ReopenRecovers`,
  `StoreRuns.SecondReopenForgets`. Which restarts make numbers be used twice is said exactly by
  `FileLedger.NumbersReused`.
- A weekly schedule with fractions of a second is checked with whole seconds but bounded with the
  exact times. Activity is membership in a window exactly for whole seconds, and "same period" means
  equal bounds, and is reflexive where active, exactly for a whole start: `Schedule.ActivityExact`,
  `Schedule.SameExact`, with an input in `Schedule.SubSecondGap`.
- The framer adds up a message's length with wrap-around. Its loop ends for every input but those
  whose announced length makes the sum zero: `Framing.StallsExactly`, with an input in
  `Framing.StallingHeader`. A call that does not end also keeps back the messages it has cut off, so
  what callers get is independent of the chunks exactly for streams that do not stall or hold no
  message before they do: `Framing.DeliveryExact`, with an input in `Framing.StallKeepsBack`.
- Milliseconds of a timestamp are weighed without looking whether they are digits:
  `Timestamps.TimeReprinted`, with an input in `Timestamps.LooseMillis`.
- Required fields are looked for in group entries only, not at the top level of a body. Every valid
  message of a type has its required body fields exactly if the dictionary requires none there:
  `TopLevelFields.TopLevelUnchecked`, with an input in `Examples.ResetWithoutNumber`.

## Model

| member | source | states |
|---|---|---|
| `Grammar.RunSound` | crates/hotfix-message/src/builder.rs:266-355 | a run of group entries that is accepted is in the grammar: at least one entry, each opening with the delimiter, declared tags in strictly increasing declaration order, nested groups likewise, the field behind not absorbable; and no field is lost, added or reordered |
| `Grammar.RunComplete` | crates/hotfix-message/src/builder.rs:266-355 | conversely every run of the grammar, followed by any field it cannot absorb, is parsed to exactly its entries, leaving exactly what follows |
| `GroupRejections.RunRejected` | crates/hotfix-message/src/builder.rs:266-355 | a run is rejected with an error if and only if, behind complete entries and the conforming beginning of one, that is the first thing wrong: `InvalidGroupFieldOrder` with the tag of a field that is no delimiter or comes no later in the declaration than one already there, and the count tag of its own group at whatever depth; `Malformed` if the fields run out |
| `Builder.ParseGroups` | crates/hotfix-message/src/builder.rs:266-355 | the position-advancing loop terminates with bytes remaining as its measure, none of its `expect`s can fire, and it returns what the grammar's parser returns: entries, next field, position or error |
| `Builder.JoinEntry` | crates/hotfix-message/src/builder.rs:304-347 | a field that belongs to the open entry is stored there, with the nested group it counts parsed and filed, the declared order checked, or the same error as the grammar's parser gives |
| `Builder.GroupsFiled` | crates/hotfix-message/src/parts.rs:59-74 | the entries of one parsed run always share start and delimiter tag, so filing them under their count tag cannot fail |
| `Fields.SetGroups` | crates/hotfix-message/src/parts.rs:59-74 | filing succeeds exactly for a non-empty list whose entries agree on start and delimiter tag; then that list is what is found under the start tag, every other run and all fields are unchanged |
| `Fields.InsertedField` | crates/hotfix-message/src/field_map.rs:30-40 | storing a field makes its value the one found under its tag, changes no other lookup and keeps tags unique |
| `BodyGrammar.BodySound` | crates/hotfix-message/src/builder.rs:192-243 | an accepted body is in the body grammar, with every group's required fields present, and together with the rest makes up exactly the fields read |
| `BodyGrammar.BodyComplete` | crates/hotfix-message/src/builder.rs:192-243 | every body of the grammar in front of a trailer field is parsed to exactly its syntax |
| `Rejections.BodyRejected` | crates/hotfix-message/src/builder.rs:192-243 | a body is rejected with an error if and only if, behind the longest conforming beginning, the next field is undeclared, not absorbed and no trailer field (`InvalidField` with its tag), declared but not in the dictionary (the same), counts a run that is rejected (the error of the run) or one that lacks a required field, or nothing is left (`Malformed`) |
| `Builder.BuildBody` | crates/hotfix-message/src/builder.rs:192-243 | the loop that fills the body map in place computes the map the parsed syntax stands for, or the same error |
| `Builder.BuildHeader` | crates/hotfix-message/src/builder.rs:166-190 | takes in exactly the leading fields whose tags are header tags, later values replacing earlier ones |
| `Builder.BuildTrailer` | crates/hotfix-message/src/builder.rs:255-264 | takes in the fields up to the CheckSum field |
| `Builder.VerifyIntegrity` | crates/hotfix-message/src/builder.rs:90-164 | finds begin string, body length, checksum and type in the order of the code, with its errors, and leaves the position behind field 35 |
| `Builder.BuildMessage` | crates/hotfix-message/src/builder.rs:52-88 | the whole of `build`, imperative, equals the function all theorems about reading are stated for: what it returns is said by `Reverse.BuildThenEncode` where it is `Valid` and by the `Verdicts` rows where it is not |
| `Verdicts.BuildVerdict` | crates/hotfix-message/src/builder.rs:469-498 | for every byte string that passes the integrity check: `Invalid` with a reason and a message if and only if that reason is what is wrong with the fields behind the envelope and the message holds just the header; `Garbled(MalformedMessage)` if and only if the fields run out; `Valid` if and only if nothing is wrong |
| `Verdicts.UnknownType` | crates/hotfix-message/src/builder.rs:174-190 | for every such byte string: `Invalid` with `InvalidMsgType` of a type, and the header, if and only if a field stands behind the header, that type is the last one sent in it, and the dictionary has no such message |
| `Verdicts.HeaderHolds` | crates/hotfix-message/src/builder.rs:166-190 | the header of a message, valid or not, holds for every tag the value sent last in its leading fields and the header fields behind them, and nothing else |
| `Verdicts.MalformedRunsOut` | crates/hotfix-message/src/builder.rs:192-243 | a body is malformed only if it lacks every field that each level leaves alone, such as the checksum |
| `Verdicts.IntegrityVerdict` | crates/hotfix-message/src/builder.rs:90-164 | a rendered field list that ends in a field as long as a checksum is garbled for the first thing wrong with it (begin string, body length, checksum, type, in that order), and otherwise yields these fields and the position behind the type |
| `Verdicts.UnknownField` | crates/hotfix-message/src/builder.rs:245-253 | a message whose one body field is undeclared is `Valid` if and only if the tag is at least 5000, is not in the dictionary and user-defined fields are not validated; it then holds that field, and otherwise is invalid for that tag |
| `Builder.Parser.ParseFieldAt` | crates/hotfix-message/src/builder.rs:436-447 | finds the field at a position: tag up to the equal sign, value up to the separator |
| `Builder.Parser.NextField` | crates/hotfix-message/src/builder.rs:429-434 | yields the first of the remaining fields and leaves the others |
| `Builder.TagFromBytes` | crates/hotfix-message/src/builder.rs:460-467 | the digit loop gives the value of the bytes modulo 2^32, and no tag for zero |
| `Builder.CheckRequiredFieldsInGroups` | crates/hotfix-message/src/builder.rs:357-381 | the recursive check returns the first required field missing in any entry at any depth |
| `Builder.CheckEntry` | crates/hotfix-message/src/builder.rs:357-381 | the same for one entry: its own required fields first, then its nested groups |
| `Assembly.MissingCorrect` | crates/hotfix-message/src/builder.rs:357-381 | that check passes if and only if every entry at every depth has every field its own specification requires |
| `Rejections.MissingNamed` | crates/hotfix-message/src/builder.rs:357-381 | what the check reports is a field that is really missing: required by the group named, at whatever depth, and absent from one of its entries |
| `Rejections.FirstMissingNamed` | crates/hotfix-message/src/builder.rs:357-381 | behind complete entries, the first required field an entry lacks is the one reported, with the count tag of the group |
| `RequiredFields.RequiredAtEveryDepth` | crates/hotfix-message/src/builder.rs:202-227 | if `build` returns `Valid`, every group at any nesting depth is declared for the message type and every entry of it contains every field its specification marks required |
| `TopLevelFields.TopLevelUnchecked` | crates/hotfix-message/src/builder.rs:192-243 | for every type whose messages may end behind the header: all valid messages of the type have the fields its layout requires at the top level if and only if the layout requires none there |
| `TopLevelFields.BareValid` | crates/hotfix-message/src/builder.rs:192-243 | a message of such a type without a single body field is `Valid` |
| `Examples.ResetWithoutNumber` | crates/hotfix-message/src/builder.rs:192-243 | a SequenceReset without the NewSeqNo its definition requires is `Valid` |
| `Wire.TokensRendered` | crates/hotfix-message/src/builder.rs:429-447 | reading rendered fields from the position where they start gives exactly those fields |
| `Wire.FieldAtRendered` | crates/hotfix-message/src/builder.rs:436-447 | a rendered field, whatever stands before and behind it, is read back with the position of its separator |
| `Wire.TagsWrap` | crates/hotfix-message/src/builder.rs:460-467 | a printed tag of any size is read modulo 2^32, and as no tag if that is zero |
| `Decimal.ParsePrinted` | crates/hotfix-message/src/encoding/field_types/primitives.rs:33-62 | a printed number, zero-padded or not, parses back to itself if it fits the type |
| `Decimal.PrintHorner` | crates/hotfix-message/src/encoding/field_types/primitives.rs:33-62 | a numeral without leading zeros is the printed form of its value |
| `Decimal.ParsedExactly` | crates/hotfix-message/src/encoding/field_types/primitives.rs:33-62 | exactly the non-empty digit strings of a value below the limit, with or without a plus sign, parse, and to that place value |
| `Encoder.WriteMap` | crates/hotfix-message/src/encoder.rs:17-50 | the recursive writer appends the leading fields in the order asked for, then all others in insertion order, each followed by the entries of the group it counts |
| `Encoder.WriteField` | crates/hotfix-message/src/encoder.rs:23-35 | appends tag, equal sign, value and separator, then the entries counted by that field |
| `Encoder.WriteEntries` | crates/hotfix-message/src/encoder.rs:29-33 | appends the entries of a group one after the other, each with its own groups |
| `Encoder.WriteLeading` | crates/hotfix-message/src/encoder.rs:37-41 | appends the fields asked for first, skipping absent ones |
| `Encoder.WriteOthers` | crates/hotfix-message/src/encoder.rs:43-47 | appends every remaining field once, in insertion order |
| `Lengths.LengthConserved` | crates/hotfix-message/src/field_map.rs:48-63 | the precomputed recursive length is the number of bytes written plus the length of groups without a count field, which are never written |
| `BodyLengths.WrittenLength` | crates/hotfix-message/src/encoder.rs:37-47 | the same whichever fields are written first |
| `BodyLengths.BodyLengthExact` | crates/hotfix-message/src/message.rs:44-56 | the bytes between the end of field 9 and the start of field 10, plus orphan groups, number exactly the announced BodyLength |
| `BodyLengths.CheckSumExact` | crates/hotfix-message/src/message.rs:58-67 | the message ends in seven bytes that print the byte sum of everything before them, modulo 256, in three digits |
| `Messages.ComputeCheckSum` | crates/hotfix-message/src/encoding/field_types/checksum.rs:19-29 | wrap-around addition gives the byte sum modulo 256 |
| `Messages.CheckSumPrinted` | crates/hotfix-message/src/encoding/field_types/checksum.rs:32-68 | three printed digits parse back to the checksum |
| `Messages.CheckSumWraps` | crates/hotfix-message/src/encoding/field_types/checksum.rs:44-76 | three digits are read modulo 256 |
| `Messages.Message.Encode` | crates/hotfix-message/src/message.rs:41-68 | encodes the message as it was and leaves it with BodyLength and CheckSum set |
| `Messages.Message.constructor` | crates/hotfix-message/src/message.rs:21-31 | a new message has fields 8 and 35 and nothing else |
| `Alignment.BuildAligned` | crates/hotfix-message/src/builder.rs:204-229 | reading back the syntax of any labelled map rebuilds that map, at every depth, with runs in the order of their count fields |
| `Alignment.AlignedLookup` | crates/hotfix-message/src/field_map.rs:42-46 | that order makes no difference to the entries found under a count tag |
| `RoundTrip.EncodeThenBuild` | crates/hotfix-message/src/message.rs:41-68 | for every message the dictionary describes, groups nested to any depth, `build(encode(m))` is `Valid` and holds the same header, body, trailer and group contents, with BodyLength and CheckSum set |
| `Examples.ReportDescribable` | crates/hotfix-message/src/encoder.rs:97-180 | the round trip's hypotheses are met by an execution report with a party that has a sub-party, for all values free of the separator |
| `RoundTrip.IntegrityRendered` | crates/hotfix-message/src/builder.rs:90-134 | a rendered message with the right tags and length passes the integrity check unless its checksum is three digits and wrong; otherwise the checksum is not looked at |
| `Reverse.BuildThenEncode` | crates/hotfix-message/src/builder.rs:166-264 | for canonical bytes that build as `Valid`, the message is assembled from the one way to divide the fields into header, body syntax (by the layout of the message type) and trailer; encoding it gives back exactly those bytes if and only if no tag is repeated at one level of these |
| `Reverse.SectionsUnique` | crates/hotfix-message/src/builder.rs:166-264 | header tags, message type and layout leave only one way to divide a field list |
| `Reverse.LengthShrinks` | crates/hotfix-message/src/field_map.rs:48-63 | what was built never announces more bytes than were read, and as many exactly if no tag was repeated |
| `Rebuilding.BuiltLength` | crates/hotfix-message/src/builder.rs:326-353 | a map built from syntax is as long as the syntax exactly when no tag is repeated at one level, at any depth |
| `Rebuilding.BuiltNodes` | crates/hotfix-message/src/encoder.rs:17-50 | writing a map built from such syntax gives the syntax back |
| `Corruption.OneByteDetected` | crates/hotfix-message/src/builder.rs:90-134 | if a message with a three-digit checksum passes, no message that differs from it in one byte before the checksum passes, whatever that byte was part of |
| `Corruption.UnreadCheckSum` | crates/hotfix-message/src/builder.rs:121-127 | any three bytes that are not all digits can replace the checksum of a sent message and it still passes the integrity check |
| `Dictionaries.FlatteningFaithful` | crates/hotfix-message/src/builder.rs:551-637 | for every acyclic set of components the flattened layout is that of the definition with all components written out in place: fields in order, a group contributing its count tag, groups at every depth |
| `Dictionaries.EveryGroupReached` | crates/hotfix-message/src/builder.rs:575-637 | every group key at every level is a field tag of that level and leads to that group, so the parser reaches it |
| `Dictionaries.LastGroupWins` | crates/hotfix-message/src/builder.rs:611-632 | of several groups counted by one tag at one level the last one is kept |
| `Dictionaries.FlattenedWellFormed` | crates/hotfix-message/src/builder.rs:519-525 | if no group is empty once components are written out, every group has a delimiter, so `delimiter_tag` cannot panic |
| `Dictionaries.ExtractGroups` | crates/hotfix-message/src/builder.rs:601-637 | the map filled item by item is the function the theorems are about |
| `Dictionaries.CollectGroups` | crates/hotfix-message/src/builder.rs:563-566 | the loop over the items of a message, component or group extends one map by the groups of each |
| `Dictionaries.ExtendInsert` | crates/hotfix-message/src/builder.rs:611-619 | inserting into a map that another is then extended by is extending first and inserting then |
| `Framing.StreamParser.Parse` | crates/hotfix/src/message/parser.rs:40-60 | appends the chunk and delivers exactly the frames of old buffer plus chunk, keeping the rest; reports `stalled` exactly where the original would cut off empty messages forever |
| `Framing.StreamParser.ParseHeader` | crates/hotfix/src/message/parser.rs:72-107 | the length of the frame, digits and sum with their wrap-around, or nothing while the first two fields are incomplete |
| `Framing.NominalWeighs` | crates/hotfix/src/message/parser.rs:93-99 | whatever the bytes of the announced length are, the loop adds up their place values, each byte taken modulo 256, modulo 2^64 |
| `Framing.StallsExactly` | crates/hotfix/src/message/parser.rs:43-57 | the loop fails to make progress if and only if the announced length is 2^64 less the bytes of the first two fields and of the checksum field |
| `Framing.StalledForGood` | crates/hotfix/src/message/parser.rs:43-57 | whatever arrives behind such a header, nothing is delivered |
| `Framing.StallingHeader` | crates/hotfix/src/message/parser.rs:105-107 | one such header |
| `Framing.DeliveryExact` | crates/hotfix/src/message/parser.rs:40-60 | callers get exactly the messages of a stream for every way to cut it into chunks if and only if the stream does not stall or holds no message before it does |
| `Framing.StallKeepsBack` | crates/hotfix/src/message/parser.rs:40-60 | a message followed by a stalling header is handed out if they come in two chunks and is not if they come in one |
| `Framing.AllHandedOut` | crates/hotfix/src/message/parser.rs:40-60 | a stream that does not stall is handed out in full by every chunking, from any leftover |
| `Framing.PartHandedOut` | crates/hotfix/src/message/parser.rs:40-60 | no chunking of any stream hands out anything but a first part of its messages, in order |
| `Framing.ChunkingIrrelevant` | crates/hotfix/src/message/parser.rs:43-57 | the loop cuts off the same messages and leaves the same rest for any list of chunks as for their concatenation, handed out or not |
| `Framing.FramesResume` | crates/hotfix/src/message/parser.rs:40-60 | framing can stop at any byte and go on with the leftover |
| `Framing.BytesConserved` | crates/hotfix/src/message/parser.rs:40-60 | delivered messages followed by the leftover are the input |
| `Framing.LeftoverIncomplete` | crates/hotfix/src/message/parser.rs:40-60 | the leftover holds no complete message |
| `Framing.StreamRoundTrip` | crates/hotfix/src/message/parser.rs:40-107 | any chunking of a concatenation of encoded messages hands out exactly those messages and leaves an empty buffer |
| `Framing.EncodedFrame` | crates/hotfix/src/message/parser.rs:72-107 | the frame at the front of an encoded message followed by anything is that message |
| `Framing.FrameMeetsBuilder` | crates/hotfix-message/src/builder.rs:96-114 | a byte string that starts with fields 8 and 9 and a plain BodyLength meets the builder's length check if and only if it is exactly one frame and its length did not wrap around |
| `Transport.SentAndReceived` | crates/hotfix/src/message/parser.rs:40-107 | however a stream of encoded messages is cut up, what is handed out builds to the messages that were sent, in order, with nothing left over |
| `Timestamps.TimeRoundTrip` | crates/hotfix-message/src/encoding/field_types/timestamp.rs:18-26 | a printed timestamp parses back to itself |
| `Timestamps.WrittenForm` | crates/hotfix-message/src/encoding/field_types/timestamp.rs:93-98 | a timestamp is written as year, month, day, hour, minute, second and millisecond, zero-padded to 4, 2, 2, 2, 2, 2 and 3 digits, with a dash, two colons and a dot between them |
| `Timestamps.TimeReprinted` | crates/hotfix-message/src/encoding/field_types/time.rs:172-199 | a parsed timestamp prints back to its bytes exactly if its milliseconds were there and were digits |
| `Timestamps.LooseMillis` | crates/hotfix-message/src/encoding/field_types/time.rs:172-181 | a timestamp with a colon among its milliseconds is read as a tenth of a second |
| `Timestamps.AtMostIsRank` | crates/hotfix-message/src/encoding/field_types/timestamp.rs:5-9 | the derived order of timestamps is that of one number per timestamp, and is total on legal ones |
| `Timestamps.ShortForm` | crates/hotfix-message/src/encoding/field_types/time.rs:172-199 | milliseconds may be left out and are then zero |
| `Timestamps.OtherLengths` | crates/hotfix-message/src/encoding/field_types/timestamp.rs:18-25 | no other length is a timestamp |
| `Outbound.GenerateMessage` | crates/hotfix/src/message.rs:94-110 | the bytes are the encoding of the payload stamped with parties, number and time |
| `Outbound.StampMessage` | crates/hotfix/src/message.rs:101-105 | a fresh message holding type, parties, number and time, in that order |
| `Recovery.SentContent` | crates/hotfix/src/message.rs:94-110 | what goes out for a payload builds to its body and, for every header tag, to the last value the payload sets or else the stamp: begin string, type, parties, number, time |
| `Outbound.PrepareMessageForResend` | crates/hotfix/src/message.rs:61-92 | changes the header in place as specified, on all four paths, and reports an error exactly if there is no SendingTime, or none that parses when it is needed |
| `Outbound.FlagRead` | crates/hotfix-message/src/encoding/field_types/primitives.rs:150-158 | exactly the letters Y and N are read as a flag |
| `Outbound.ResentLookup` | crates/hotfix/src/message.rs:71-91 | a resent header says: sent now, possible duplicate, first sent at the original time; every other value is unchanged |
| `Outbound.OriginalTimeKept` | crates/hotfix/src/message.rs:52-60 | however often a message is resent it reports the time it was first sent |
| `Outbound.UnpreparedSent` | crates/hotfix/src/session/outbound.rs:97-105 | a message goes out with a SendingTime if and only if it could be prepared; if it could not, it goes out as it was if and only if it had none, and is otherwise what is left without its SendingTime |
| `Outbound.DateOnlyLost` | crates/hotfix/src/message.rs:82-84 | a header whose SendingTime is a date without a time goes out without that field |
| `Verification.ResentTimes` | crates/hotfix/src/message/verification.rs:119-175 | a resent message passes the receiver's time checks if and only if it had a SendingTime, the time it was first sent can be read and has passed, and the receiver's clock finds the new SendingTime accurate |
| `Verification.GapFillFlags` | crates/hotfix/src/message/verification.rs:45-70 | a gap fill is checked for too high and too low numbers and never for its original time |
| `Verification.FlagsByType` | crates/hotfix/src/message/verification.rs:45-70 | which checks apply, for every type: too high is not checked for ResendRequest, Reject, Logout and a reset, too low not for Logout and a reset; the original time is asked of possible duplicates other than SequenceReset |
| `Verification.PartiesChecked` | crates/hotfix/src/message/verification.rs:177-192 | the version is refused if it is not the receiver's, then the parties unless the sender named is the receiver's counterparty and the target named the receiver; all else passes |
| `Verification.TimesChecked` | crates/hotfix/src/message/verification.rs:119-175 | each time issue arises if and only if its condition holds and no earlier one does |
| `Verification.VerifiedInOrder` | crates/hotfix/src/message/verification.rs:73-108 | version and parties come before times, times before the number, and a missing number counts as zero |
| `Verification.NumberChecked` | crates/hotfix/src/message/verification.rs:194-219 | a number is let through if and only if it is the expected one, or higher or lower where that is not checked; otherwise it is a gap above and too low below, with both numbers |
| `Replay.ReplayExact` | crates/hotfix/src/session/outbound.rs:63-119 | over a contiguous stored range the replay consists of exactly one resend per application message under its own number and one gap fill per maximal administrative run, in increasing order |
| `Replay.FillsOnlyAdmin` | crates/hotfix/src/session/outbound.rs:83-95 | no gap fill covers an application message |
| `Replay.ReceivedExactly` | crates/hotfix/src/message/verification.rs:194-219 | an event is flagged if and only if it does not carry the expected number, as too low below and as a gap above, and then changes nothing; a resend is otherwise taken, and a gap fill if and only if it leads forward |
| `Replay.PeerAccepts` | crates/hotfix/src/message/verification.rs:194-219 | a peer expecting the first number raises no gap and no too-low issue and ends at last+1, or at the last number itself after a trailing administrative run; it refuses a gap fill exactly if that run is a single message (`Replay.ReceivedExactly` says what it does with any other number) |
| `Replay.NextMessageFits` | crates/hotfix/src/session/outbound.rs:114-119 | the sender's next message continues the peer's numbering if and only if the range did not end in an administrative message |
| `Replay.GapsNoticed` | crates/hotfix/src/session/outbound.rs:58-119 | if numbers are missing from the store, the peer raises no issue if and only if the first number is the expected one and none is missing right behind an application message |
| `Resending.ResendMessages` | crates/hotfix/src/session/outbound.rs:51-122 | the loop over stored bytes sends exactly the specified answer, reading the clock once per message, and stops at the first message that cannot be read |
| `Resending.SendSequenceReset` | crates/hotfix/src/session/outbound.rs:25-49 | the bytes of a gap fill with the given number and NewSeqNo |
| `Resending.SendAgain` | crates/hotfix/src/session/outbound.rs:97-105 | marks the message and encodes it, ignoring an error in marking |
| `Resending.LoadStored` | crates/hotfix/src/session/outbound.rs:67-76 | builds a stored message and reads its number, with both ways to fail |
| `Resending.ReadExactly` | crates/hotfix/src/session/outbound.rs:67-76 | a stored message that is invalid is still resent from its header; one that is garbled or has no number stops the answer with its own failure |
| `Rereading.ReheadedDescribable` | crates/hotfix/src/session/outbound.rs:97-105 | a message that was sent and read back can be sent again under any good header of the same type, groups included |
| `Rereading.AsReadHeader` | crates/hotfix-message/src/builder.rs:166-190 | reading a sent message finds in its header every value that was put there, BodyLength aside |
| `Rereading.AlignedAgain` | crates/hotfix-message/src/builder.rs:204-229 | sending and reading a message a second time changes nothing more in its body |
| `ReplayBytes.AnswerIsReplay` | crates/hotfix/src/session/outbound.rs:51-122 | over a contiguous range of readable messages nothing fails and the bytes sent are those of the replay's events, each in its place |
| `ReplayBytes.AnswerStops` | crates/hotfix/src/session/outbound.rs:66-76 | an answer stops at the first message that cannot be read, with its failure, and has sent the replay of the messages before, without the gap fill of a run still open |
| `ReplayWire.TakeResent` | crates/hotfix/src/message/verification.rs:73-108 | a peer builds the bytes of a resent message to the body and trailer first sent and the header restamped, and judges them: too low below the expected number and a gap above, with that number unchanged, and accepted at it, moving on by one |
| `ReplayWire.ResentContent` | crates/hotfix/src/session/outbound.rs:97-105 | building a resent byte string gives the body first sent, groups included, the same trailer, SendingTime now, PossDupFlag, the original time, and every other header value unchanged |
| `ReplayWire.GapFillContent` | crates/hotfix/src/message/sequence_reset.rs:19-29 | building a gap fill gives a SequenceReset with its number, GapFillFlag and NewSeqNo, PossDupFlag, and the time it is sent as both its times |
| `ReplayWire.TimelyByClock` | crates/hotfix/src/message/verification.rs:151-175 | with a clock that does not go back, a message sent before the first reading satisfies the time hypothesis at every later one |
| `ReplayWire.TakeGapFill` | crates/hotfix/src/message/sequence_reset.rs:19-29 | a peer reads the bytes of a gap fill, verifies them and treats them as the gap fill they announce |
| `ReplayWire.ResetHandled` | crates/hotfix/src/session/inbound.rs:275-321 | a sequence reset is taken if and only if it has a NewSeqNo beyond the expected number, which then is the expected one |
| `ReplayWire.WrongPartiesFlagged` | crates/hotfix/src/message/verification.rs:73-108 | the bytes of any message with the wrong version or parties are flagged as such and change nothing, whatever else the message says |
| `ReplayAccepted.ReplayOnTheWire` | crates/hotfix/src/session/outbound.rs:51-122 | for every contiguous range of stored messages the answer is sent without failure, one byte string per event, and each builds to the message or gap the event stands for; a peer raises no issue with numbers, parties or times, ends where `Replay.PeerAccepts` says, and refuses a gap fill only for a lone trailing administrative message |
| `ReplayAccepted.AnswerKinds` | crates/hotfix/src/message.rs:32-44 | no byte string of an answer builds to a Logon, Heartbeat, TestRequest, ResendRequest, Reject or Logout, and every stored message outside the seven administrative types is sent again with its content |
| `Examples.ContextReady` | crates/hotfix/src/message/sequence_reset.rs:15-29 | the replay's hypotheses on the dictionary are met by one that has the standard header fields and SequenceReset |
| `Recovery.ResendAfterSends` | crates/hotfix/src/session/inbound.rs:323-372 | after any number of successful sends since a reset, a request for any range is answered from the store, up to the last message sent if the end asked for is zero or beyond it and up to that end otherwise: one byte string per event of the replay of just these messages, each building to what the event stands for; the peer raises no issue and ends behind the range, at its end if that is administrative, or where it was if the range is empty |
| `Recovery.OnResendRequest` | crates/hotfix/src/session/inbound.rs:344-369 | the handler clips the range, fetches it from the store and resends it, which is the answer `Recovery.ResendAfterSends` is about |
| `Ledger.RunSafe` | crates/hotfix/src/session/ctx.rs:57-90 | over every run of sends, with failures of either store call and resets, since the last reset: no number is written twice, written numbers strictly increase, and every written message was stored under its number just before and can still be fetched unchanged |
| `Ledger.EverythingWritten` | crates/hotfix/src/session/outbound.rs:15-23 | over every run with failures and resets, the messages written since the last reset are exactly one for each send that succeeded and goes to the writer, in order, each the stamped and encoded payload under the number it took |
| `Ledger.StoredNumbers` | crates/hotfix/src/session/ctx.rs:57-90 | from a fresh store the stored numbers are within 1 to the last number taken, and are all of them if and only if no send since the last reset advanced the number without storing under it |
| `Recovery.SmoothRun` | crates/hotfix/src/session/ctx.rs:57-90 | if all sends succeed from a fresh store, it holds exactly the messages sent, under 1 to n |
| `Recovery.SliceHeld` | crates/hotfix-store/src/in_memory.rs:37-45 | any range of such a store is returned complete and in order |
| `Ledger.SessionCtx.PrepareMessage` | crates/hotfix/src/session/ctx.rs:57-90 | number, advance, store, in that order; a message is handed out exactly if both store calls succeeded |
| `Ledger.SessionCtx.SendMessage` | crates/hotfix/src/session/outbound.rs:15-23 | succeeds exactly if both store calls do; it then has stored and after that written the stamped and encoded payload under the next number, which it returns, and otherwise has written nothing |
| `Ledger.SessionCtx.ResetNumbers` | crates/hotfix/src/session.rs:503-509 | a reset before logon clears numbers and messages and starts a new epoch |
| `StoreFiles.LoadMessageIndex` | crates/hotfix-store/src/file.rs:164-191 | reads the index line by line, later lines replacing earlier ones |
| `StoreFiles.LineRoundTrip` | crates/hotfix-store/src/file.rs:209-215 | a printed index line loads back to the entry it was printed from and contains no line break |
| `StoreFiles.LineLoaded` | crates/hotfix-store/src/file.rs:174-188 | a line of three numbers between commas replaces the entry of the first; every other line changes nothing |
| `StoreFiles.LoadAppended` | crates/hotfix-store/src/file.rs:164-191 | a line appended to a terminated index file is loaded last |
| `StoreFiles.SeqnumsRoundTrip` | crates/hotfix-store/src/file.rs:141-199 | zero-padded print and colon-split parse are inverse on all pairs of 64-bit numbers |
| `StoreFiles.SeqnumsRead` | crates/hotfix-store/src/file.rs:120-162 | the number file is read as two numbers if and only if it is blank and both are zero, or it consists of just these numbers with one colon between them, blanks aside |
| `Stores.FileStore.Apply` | crates/hotfix-store/src/file.rs:307-361 | every operation of the store, a restart and a stop between body and index write included, makes the specified step; only opening can fail |
| `Stores.FileStore.OpenFiles` | crates/hotfix-store/src/file.rs:47-93 | opening takes the numbers from their file, empties it, loads the index and restarts the offset at the real body length |
| `Stores.FileStore.Add` | crates/hotfix-store/src/file.rs:201-227 | appends the bytes, then the index line, then indexes them at the old offset |
| `Stores.FileStore.WriteSeqnumsWith` | crates/hotfix-store/src/file.rs:193-199 | replaces the number file and both counters |
| `Stores.FileStore.PerformReset` | crates/hotfix-store/src/file.rs:229-285 | leaves the state of a fresh store |
| `Stores.FileStore.GetSlice` | crates/hotfix-store/src/file.rs:287-305 | returns exactly the messages of the range that the plain store would hold, in order (`Stores.SliceExact` says which) |
| `Stores.InMemoryMessageStore.AddMessage` | crates/hotfix-store/src/in_memory.rs:32-35 | the message is stored under its number, replacing any other; nothing else changes |
| `Stores.InMemoryMessageStore.IncrementSenderSeqNumber` | crates/hotfix-store/src/in_memory.rs:55-58 | the sender number alone goes up by one |
| `Stores.InMemoryMessageStore.IncrementTargetSeqNumber` | crates/hotfix-store/src/in_memory.rs:60-63 | the target number alone goes up by one |
| `Stores.InMemoryMessageStore.SetTargetSeqNumber` | crates/hotfix-store/src/in_memory.rs:65-68 | the target number alone is set |
| `Stores.InMemoryMessageStore.ResetStore` | crates/hotfix-store/src/in_memory.rs:70-76 | both numbers are zero and no message is left |
| `Stores.InMemoryMessageStore.GetSlice` | crates/hotfix-store/src/in_memory.rs:37-45 | returns the stored messages of the range in order (`Stores.SliceExact` says which) |
| `Stores.SliceExact` | crates/hotfix-store/src/in_memory.rs:37-45 | for every store, with or without gaps, and every range: a slice is the messages of exactly the stored numbers of the range, once each, in increasing order |
| `StoreRuns.RunLeaves` | crates/hotfix-store/src/in_memory.rs:32-76 | after every run of the plain store: the sender's number is how often it was advanced since the last reset, the target's how often since it was last set, counted from there (from zero after a reset), and under every number is the message added last, if any was since the last reset |
| `StoreRuns.AddKeeps` | crates/hotfix-store/src/file.rs:201-227 | adding, also under a number already used, keeps the invariant (entries inside the body, latest bytes per number, offset equal to body length, files agreeing with memory) and does what the plain store does |
| `StoreRuns.OpenKeeps` | crates/hotfix-store/src/file.rs:47-93 | a restart, with any stray bytes at the end of the body, keeps every message and the invariant |
| `StoreRuns.RunKeepsMessages` | crates/hotfix-store/src/file.rs:164-227 | every run, restarts and unfinished adds included, can be carried out, keeps the invariant and holds exactly the messages a plain map would |
| `StoreRuns.ReopenRecovers` | crates/hotfix-store/src/file.rs:56-77 | a restart recovers the live numbers if and only if one was written since the last open or reset, or both are zero |
| `StoreRuns.SecondReopenForgets` | crates/hotfix-store/src/file.rs:56-77 | after any run two restarts in a row leave both numbers at zero |
| `StoreRuns.FileRefinesMemory` | crates/hotfix-store/src/file.rs:193-361 | the file store agrees with the in-memory store, numbers and messages, after every step of a run if and only if every restart comes where a number was written since the last open or reset or both are zero |
| `FileLedger.NumbersReused` | crates/hotfix-store/src/file.rs:56-77 | over every run of sends, receipts, restarts and resets, no number is written twice since the last reset if and only if nothing is sent between a restart that came while the sender's number was not in its file and the next reset |
| `FileLedger.LossRepeats` | crates/hotfix/src/session/ctx.rs:57-90 | a send after such a restart writes number one again |
| `Schedule.ActiveInWindow` | crates/hotfix/src/session_schedule.rs:155-213 | for every schedule a configuration can produce, a moment is active if and only if some repeated window contains it (whole seconds), active moments lie in their window (whole start), and the bounds computed for an active moment are that window's, across midnight and week wrap |
| `Schedule.ActivityExact` | crates/hotfix/src/session_schedule.rs:195-213 | "active if and only if in a window" holds for all moments if and only if the schedule is not weekly or has whole seconds; "active only in a window" if and only if a weekly start is a whole second |
| `Schedule.OneWindow` | crates/hotfix/src/session_schedule.rs:339-427 | windows never overlap |
| `Schedule.SameIffBounds` | crates/hotfix/src/session_schedule.rs:98-153 | two moments are in the same period if and only if both are active and their bounds are equal, wherever a weekly start is a whole second |
| `Schedule.SameExact` | crates/hotfix/src/session_schedule.rs:98-153 | that equivalence for all moments, and reflexivity on active moments, hold if and only if a weekly start is a whole second |
| `Schedule.SameIsEquivalence` | crates/hotfix/src/session_schedule.rs:98-122 | sharing a period is reflexive exactly on active moments, symmetric and transitive |
| `Schedule.OutsideExactly` | crates/hotfix/src/session_schedule.rs:98-122 | two moments are compared if and only if both are active; otherwise the answer names the one, or both, that are not |
| `Schedule.WeeklyTruncates` | crates/hotfix/src/session_schedule.rs:195-213 | activity of a weekly schedule depends on its times cut to whole seconds |
| `Schedule.SubSecondGap` | crates/hotfix/src/session_schedule.rs:319-321 | a weekly schedule with half a second in its start is active at a moment no window contains |
| `Schedule.EveryProducible` | crates/hotfix/src/session_schedule.rs:216-305 | every schedule of the stated form comes from some configuration |
| `Schedule.ConfigMeans` | crates/hotfix/src/session_schedule.rs:216-305 | what every configuration means: when it is refused, when it runs around the clock, and otherwise that its windows are the configured times on the configured days |

## Left out

- The session event loop and its states: queuing, logon and logout, rejects, heartbeats, and what a session does about an issue once it is raised. `ReplayWire.Take` covers application messages and sequence resets only, the two kinds an answer consists of.
- Sockets, TLS, timers, the MongoDB store, the web parts, XML dictionary reading, code generation.
- Field maps are values: aliasing between a message and its parts is not modelled.
- A message type that is not UTF-8 (the original panics on it), and other UTF-8 checks of values; texts are bytes.
- Overflow panics of debug builds: tags and frame lengths wrap around as in release builds; the length sums of the encoder and the builder and the offsets of the file store do not wrap.
- Messages of 2^64 bytes and more, and numbers that do not fit 64 bits: `RoundTrip.Sendable`, `ReplayWire.Short` and `StoreRuns.Bounded` shut them out.
- The order in which nested groups are checked for missing required fields is that of a hash map in the original; here it is the order of the list of groups.
- The errors `InvalidGroup` and `InvalidComponent`, and the I/O errors of encoding into a vector: `build` and `encode` never return them. Names missing from a dictionary panic while it is flattened; the model requires that they are there.
- Collecting header and trailer tags from the StandardHeader and StandardTrailer components: the tag sets are given.
- That the in-memory store loses everything in a restart: in `Stores.StepMem` a restart changes nothing, because that is what a caller of the file store expects.
- Half-written numbers or index lines, and writes that fail while the process goes on; whitespace other than ASCII in the store's text files; the session creation time.
- Daylight-saving changes: schedules are in a fixed offset from UTC. The bounds of a `NonStop` schedule, which depend on the clock, are not modelled.
- The calendar arithmetic of the 120-second SendingTime check: which times the receiver finds accurate is a parameter (`Verification.Receiver`), and the replay theorems ask that it finds the sender's clock accurate.
- Running out of memory: for a range that starts behind its end the stores ask for a capacity of `end - begin + 1`, which wraps around and may be more than a vector can hold; the model returns the empty slice.
- FileLedger.NumbersReused: sends whose store calls fail, and a stop between the two store calls of a send, are not part of these runs; `Ledger.RunSafe` and `StoreRuns.RunKeepsMessages` cover them one at a time.
- Ledger.RunSafe: the number a message carries is the one it is stored under; a payload that overwrites MsgSeqNum itself is not excluded there, only in `Recovery.Conforms`.
