# Verified model of the sandesh compiler

Sandesh is an IDL compiler in the Thrift family. This project models, in Dafny, the parts of it
whose correctness is not visible from any single function, and proves what they are for:

- **The C buffer codec** (`Memory`, `Wire`, `Schema`, `Writer`, `Reader`, `Codec`, `WireVectors`). `t_c_generator` turns a
  schema into C statements: bounds checks, copies, offset increments, loops and nested calls. The
  model is the same in shape: `EmitSandesh` and `EmitReader` build statement lists from a schema,
  `Writer.Exec` runs the writer's statements on a real array, and `Reader.ReadLoop` runs the reader's
  field loop and switch. `EncSandesh` is the independent reference: what the bytes should be.
- **MD5 and fingerprints** (`Md5`, `Md5Vectors`, `Material`, `Record`). The streaming context of `md5.c` against
  the one-shot digest of RFC 1321, the text each type prints for its fingerprint against a parser
  that inverts it, and the key-ordered member list of a record.
- **The emitted send path** (`RateLimit`, `SendPath`). The rate limiter over a circular buffer of
  time stamps, the drop log flag, drop statistics and sequence numbers, over whole runs.
- **Constants** (`Constants`). Resolution, validation and rendering of constant values as a small
  type checker with a soundness theorem.
- **UVE statistics** (`Annotation`, `DerivedStats`, `LoadUve`), **dense reflection** (`Reflection`)
  and **doc comments** (`DocText`).

Modules that the source writes as state changed in place are classes with a `View` or a ghost
abstraction (`Md5.State`, `Record.RecordType`, `SendPath.Sender`, `Reflection.Generator`,
`LoadUve.Data`) or methods with loops; each is proved equal to a specification function, and the
theorems are about that function.

## Where the code does not do what it seems to promise

Each of these is a lemma with a concrete input, beside the rule for all inputs given in parentheses.

- `thrift_binary_protocol_skip_from_buffer` skips nothing for an IP address, so a reader that does not
  know such a field goes on inside it (`Codec.UnknownAddressDerails`; `SkipBaseExact`, `SkipExact`).
- The same routine adds the -1 of a failed nested skip to its total, so a truncated record that the
  reader does not know can be accepted (`Codec.CutRecordAccepted`; `PrefixRead` for every prefix,
  `PrefixRejectedAcross` where the cut is noticed).
- The rate limiter forgets grants when the limit goes down, so a limit that dips and recovers within
  one second lets an extra call through (`RateLimit.DipLetsOneThrough`; `GrantRule`).
- The validator accepts an enumerator with a dot in its name, a constant behind a typedef, an
  exception's members and a repeated member name, and the generators then throw
  (`Constants.DottedEnumeratorThrows`, `TypedefThrows`, `ExceptionThrows`, `RepeatedNameThrows`;
  `ThrowsExactly` for every type, `ParsedRule` on the value as parsed).
- The validator does not look at the tag of a value where a container is declared, so a number passes for
  a list; and a name for a double constant given as an integer takes over a double that was never set
  (`Constants.NumberForList`, `ValidIffFits`; `LookupTakesLive`).
- A type of another program with the same shape marks the shared fingerprint as reflected, and the
  program's own type is then never defined; all enums share one shape
  (`Reflection.ForeignTwinHidesDefinition`; `DefinedIffOwnMetFirst`, `AllOwnDefinedIff`).

## Model

| member | source | states |
|---|---|---|
| `Wire.PutValue64` | library/c/sandesh.h:96-102 | the shifts store the value most significant byte first |
| `Wire.GetValue64` | library/c/sandesh.h:86-94 | the inverse of PutValue64: the value found is the one whose eight network-order bytes these are |
| `Wire.BigFromBig` | library/c/sandesh.h:86-102 | reading and then storing network-order bytes of any width gives the same bytes |
| `Schema.NetInverse` | compiler/generate/t_c_generator.cc:1889-2065 | storing an integer of any width in network order and loading it, signed or not, gives it back |
| `WireVectors.NumberVectors` | compiler/generate/t_c_generator.cc:1839-1976 | the very bytes of bool, byte and number fields: type code, key, value in network order |
| `WireVectors.MoreVectors` | compiler/generate/t_c_generator.cc:2009-2199 | the same for enums, 64-bit numbers and UUIDs |
| `WireVectors.UnsignedVectors` | compiler/generate/t_c_generator.cc:1919-2065 | the same for unsigned numbers and IPv4 addresses |
| `WireVectors.TextVectors` | compiler/generate/t_c_generator.cc:2067-2181 | the same for texts and for addresses of both families |
| `WireVectors.ContainerVectors` | compiler/generate/t_c_generator.cc:2450-2531 | the same for a list and a record |
| `WireVectors.MessageVector` | compiler/generate/t_c_generator.cc:1232-1311 | the same for a whole message |
| `WireVectors.Ranges` | compiler/generate/t_c_generator.cc:1866-2065 | which numbers each type has |
| `WireVectors.NotEncoded` | compiler/generate/t_c_generator.cc:2122-2208 | doubles and addresses of another family are never encoded |
| `Memory.Memcpy` | compiler/generate/t_c_generator.cc:1090-1103 | the copy replaces exactly the target range of the buffer |
| `Writer.Exec` | compiler/generate/t_c_generator.cc:1232-1311 | executing emitted statements on the array, stopping at the first failed check, has the effect of their meaning as a function |
| `Writer.ExecFor` | compiler/generate/t_c_generator.cc:2450-2501 | the emitted list loop does the same element by element |
| `Writer.ExecOp` | compiler/generate/t_c_generator.cc:2404-2415 | one statement, a nested call on the remaining slice included |
| `Writer.WritesJoin` | compiler/generate/t_c_generator.cc:1075-1166 | code that writes one encoding or fails, followed by code that writes another or fails, writes the concatenation or fails, with the limit respected throughout |
| `Writer.BaseWrites` | compiler/generate/t_c_generator.cc:1839-2208 | for every base type the emitted statements write exactly its encoding if it fits and fail otherwise |
| `Writer.AddressWrites` | compiler/generate/t_c_generator.cc:2122-2152 | an address is written with its family, and a family that is neither IPv4 nor IPv6 fails |
| `Writer.ElemsWrite` | compiler/generate/t_c_generator.cc:2450-2531 | the loop over a list writes the encodings of all elements from any position on, or fails |
| `Writer.ListWrites` | compiler/generate/t_c_generator.cc:2450-2531 | element type, count and elements, or failure |
| `Writer.CallWrites` | compiler/generate/t_c_generator.cc:2404-2415 | a nested struct call writes into the rest of the caller's slice, never past its limit, and the caller moves on by what was written |
| `Writer.StructWrites` | compiler/generate/t_c_generator.cc:1232-1311 | for every schema and value, nested to any depth, the struct writer writes the encoding iff it fits |
| `Writer.SandeshWrites` | compiler/generate/t_c_generator.cc:1232-1311 | the same for a sandesh, with its name in front |
| `Writer.WriteSandesh` | compiler/generate/t_c_generator.cc:1232-1311 | returns exactly the encoded length iff it fits in the buffer length and -1 otherwise; no byte at or past the buffer length changes |
| `Writer.WriteStruct` | compiler/generate/t_c_generator.cc:1232-1311 | the same for a nested struct's own writer |
| `Reader.ReadLoop` | compiler/generate/t_c_generator.cc:1618-1781 | the field loop with its switch on the field id, wire type test and skipping computes the recursive reader |
| `Reader.ReadField` | compiler/generate/t_c_generator.cc:2639-2729 | the statements emitted for one field, run in order, compute their meaning |
| `Reader.ReadAssign` | compiler/generate/t_c_generator.cc:2741-2858 | assignments, the list loop and the nested reader compute their meaning |
| `Codec.BaseReads` | compiler/generate/t_c_generator.cc:2639-2729 | wherever an encoding of a base value stands, the emitted reader consumes exactly it and yields the value (bool normalised, empty string as NULL) |
| `Codec.StringReads` | compiler/generate/t_c_generator.cc:2092-2120 | the same for strings, through the signed length prefix |
| `Codec.ListReads` | compiler/generate/t_c_generator.cc:2792-2858 | the same for lists of base types |
| `Codec.StructReads` | compiler/generate/t_c_generator.cc:1618-1781 | the same for structs, with every isset flag set |
| `Codec.FieldsRead` | compiler/generate/t_c_generator.cc:1683-1748 | for any sequence of fields with values on the wire, in any order and with repetitions, read by the reader of any schema that knows them or can skip them: exactly the members both sides share are set, each to the last value the wire has for it, and the stop byte is the last consumed |
| `Codec.MessageReads` | compiler/generate/t_c_generator.cc:1618-1781 | the same for a whole message followed by any bytes: writer and reader of different schema versions |
| `Codec.MessageSets` | compiler/generate/t_c_generator.cc:2639-2752 | member by member: a flag is set iff the message carries the field, and then the member holds the last value it has there; any other member is all zero |
| `Codec.NormEncodesSame` | compiler/generate/t_c_generator.cc:2092-2120 | what is read back, with bools normalised and empty strings as NULL, encodes to the same bytes |
| `Codec.RoundTrip` | compiler/generate/t_c_generator.cc:1232-1311 | reading what was written, whatever follows it, returns the value, all flags set and exactly the encoded length |
| `Codec.WireOrder` | compiler/generate/t_c_generator.cc:1683-1748 | every permutation of the encoded fields decodes to the same struct |
| `Codec.PrefixRejected` | compiler/generate/t_c_generator.cc:1808-1827 | every strict prefix of a message, in any field order, is rejected by the reader of its type |
| `Codec.PrefixRejectedAcross` | compiler/generate/t_c_generator.cc:1683-1748 | the same for the reader of any other schema whose skipped fields can be measured, wherever the cut is noticed: in a header, in a field that is known or not a record, or in a header directly inside an unknown record; the other fields do not matter |
| `Codec.PrefixRead` | compiler/generate/t_c_generator.cc:1683-1748 | the exact result of reading any strict prefix by such a reader: rejected unless the cut is inside a member's value of an unknown record and skipping that record does not give up, and then read on from where the skip ended |
| `Codec.CutRecordAccepted` | library/c/protocol/thrift_protocol.c:153-336 | ten bytes of a seventeen-byte encoding are accepted as a message of seven when the reader does not know the record in it |
| `Codec.FailureInsideRecord` | library/c/protocol/thrift_protocol.c:153-336 | a failed skip inside a record, added as -1 to the unsigned total, resumes the scan at the low byte of the field key, which ends the record if it is zero |
| `Codec.SkipCutRecord` | library/c/protocol/thrift_protocol.c:153-336 | a cut record, at every depth: skipping comes exactly to the member the cut is in and goes on after its own skip, or from the low byte of its key if that fails; it gives up at once if the cut is in a header or before the stop byte |
| `Codec.SkipCut` | library/c/protocol/thrift_protocol.c:153-336 | a cut value of any other skippable type is noticed |
| `Codec.StringCut` | compiler/generate/t_c_generator.cc:2092-2120 | a string cut short in its length or its characters is rejected |
| `Codec.ListCut` | compiler/generate/t_c_generator.cc:2811-2838 | a list cut short in its header or in any element is rejected |
| `Codec.NullString` | compiler/generate/t_c_generator.cc:2092-2120 | a zero or negative length reads as NULL and takes four bytes |
| `Codec.AnyBool` | compiler/generate/t_c_generator.cc:1852-1864 | any byte but zero is true |
| `Codec.UnknownFamily` | compiler/generate/t_c_generator.cc:2154-2181 | an address family that is neither of the two is rejected |
| `Codec.SkipAny` | library/c/protocol/thrift_protocol.c:153-336 | any bytes will do for a skipped value of fixed size, and an unknown type code takes none |
| `Codec.SkipNullString` | library/c/protocol/thrift_protocol.c:153-336 | a skipped string of zero or negative length takes four bytes |
| `Codec.SkipListHeader` | library/c/protocol/thrift_protocol.c:153-336 | a skipped list: a negative count gives up, zero takes the header, any other reads bytes never set |
| `Codec.SkipBaseExact` | library/c/protocol/thrift_protocol.c:153-336 | skipping a base value takes exactly its encoding iff it is not an IP address |
| `Codec.SkipExact` | library/c/protocol/thrift_protocol.c:153-336 | skipping takes exactly the encoding of any value with no address and no non-empty list inside, at any depth; outside records, of no other value |
| `Codec.LuckyAddressSkips` | library/c/protocol/thrift_protocol.c:153-336 | in a record the converse fails: an IPv6 address is misread as three fields that end where the record does |
| `Codec.UnknownAddressDerails` | library/c/protocol/thrift_protocol.c:153-336 | an unknown address field makes the reader stop one byte early in a nine-byte record |
| `Codec.WriteThenRead` | compiler/generate/t_c_generator.cc:1618-1781 | writer and reader on one array: success iff the message fits, and then the value and the same length come back |
| `Md5.Chooses` | compiler/md5.c:199-205 | F takes y where x is one and z where it is zero |
| `Md5.ChoosesByLast` | compiler/md5.c:225-231 | G takes x where z is one and y where it is zero |
| `Md5.Parity` | compiler/md5.c:251-257 | H is the parity of its arguments |
| `Md5.TurnsOver` | compiler/md5.c:277-283 | I turns y over except where x is zero and z is one |
| `Md5.SumWraps` | compiler/md5.c:303-309 | sums are modulo 2^32 |
| `Md5.Rotates` | compiler/md5.c:197-197 | rotation to the left: low bits move up and high bits come in below |
| `Md5.Round1` | compiler/md5.c:199-223 | sixteen unrolled steps with rotating registers are steps 0 to 15 of the tables in section 3.4 of RFC 1321 |
| `Md5.Round2` | compiler/md5.c:225-249 | the same for steps 16 to 31 |
| `Md5.Round3` | compiler/md5.c:251-275 | the same for steps 32 to 47 |
| `Md5.Round4` | compiler/md5.c:277-301 | the same for steps 48 to 63 |
| `Md5.Process` | compiler/md5.c:131-310 | a block is absorbed as the table-driven loop of 64 steps and the final additions say |
| `Md5.WordView` | compiler/md5.c:147-195 | a word is the one assembled from four bytes iff those are its bytes, least significant first |
| `Md5.InitialBytes` | compiler/md5.c:312-320 | the initial words and the order of the digest, as the byte sequences of sections 3.3 and 3.5 of RFC 1321 |
| `Md5.State.constructor` | compiler/md5.c:312-320 | the fresh context represents the empty message |
| `Md5.State.Bump` | compiler/md5.c:322-338 | the two counter words hold 8 times the byte count mod 2^64 after every append, carry included |
| `Md5.CountAdds` | compiler/md5.c:322-338 | the carry test and the shift keep that counter law for every count |
| `Md5.State.Append` | compiler/md5.c:322-358 | whatever was appended before, the context now represents the message so far followed by the data: full blocks absorbed, the rest in the buffer |
| `Md5.State.Finish` | compiler/md5.c:360-381 | the digest is the one-shot MD5 of the whole message, and what was processed is the message padded to a block boundary |
| `Md5.PadLength` | compiler/md5.c:360-381 | the pad length taken from the low counter word is the one that ends at 56 mod 64 for the real length |
| `Md5.LengthBytes` | compiler/md5.c:360-381 | the eight bytes taken from the two counter words are the 64-bit length, least significant first |
| `Md5.DigestOf` | compiler/md5.c:312-381 | init, any sequence of appends and finish give the digest of the concatenation |
| `Md5Vectors.DigestOfAbc` | compiler/md5.c:131-381 | the digest of "abc" is the one in section A.5 of RFC 1321, byte for byte |
| `Material.MaterialIsName` | compiler/main.cc:1334-1366 | the material of every base type is the name the compiler creates it with |
| `Material.ContainerTexts` | compiler/parse/t_map.h:48-51 | the very text of lists, sets, maps and typedefs |
| `Material.RecordTexts` | compiler/parse/t_field.h:161-167 | the very text of records: decimal keys and the mark of optional members |
| `Material.TextIsPrint` | compiler/parse/t_base_type.h:210-253 | what a type prints depends only on its shape: typedefs, names, enum identity, string flags and required or default status are gone |
| `Material.NotOptional` | compiler/parse/t_field.h:161-167 | no type's material starts like the optional mark, so the mark is unambiguous |
| `Material.PrintAscii` | compiler/parse/t_base_type.h:210-253 | material of every depth is plain ASCII |
| `Material.ParsePrint` | compiler/parse/t_map.h:48-51 | the parser inverts the printer on every shape of any depth, whatever text follows |
| `Material.FieldsParse` | compiler/parse/t_sandesh.h:86-95 | the same for a record's fields from any position |
| `Material.MaterialIdentifiesShape` | compiler/parse/t_struct.h:108-117 | two types print the same material iff they have the same shape |
| `Record.LowerBound` | compiler/parse/t_sandesh.h:75-78 | the first half of equal_range on a sorted list |
| `Record.UpperBound` | compiler/parse/t_sandesh.h:75-78 | the second half of equal_range |
| `Record.InsertInOrder` | compiler/parse/t_sandesh.h:75-84 | inserts in key order; false, and no change, iff the key is present |
| `Record.RecordType.Append` | compiler/parse/t_sandesh.h:72-84 | grows the member list always, the key-ordered list iff the key is new, and keeps the latter equal to the ordered members |
| `Record.RecordType.FingerprintMaterial` | compiler/parse/t_sandesh.h:86-95 | the accumulated text is the material of the record over its key-ordered members |
| `Record.PrintMembers` | compiler/parse/t_sandesh.h:86-95 | the loop builds the recursive text |
| `Record.OrderedSorted` | compiler/parse/t_field.h:174-178 | after any appends the key-ordered list is strictly sorted |
| `Record.OrderedIsFirsts` | compiler/parse/t_sandesh.h:72-84 | it holds exactly the first member appended for each key |
| `Record.OrderIrrelevant` | compiler/parse/t_sandesh.h:72-103 | two append orders of the same distinct-key members give the same list, material and fingerprint |
| `Record.GenerateFingerprint` | compiler/parse/parse.cc:13-19 | init, append and finish compute the MD5 of the material |
| `Record.FingerprintIdentifiesShape` | compiler/parse/parse.cc:13-19 | two types share a fingerprint iff they share their shape or their materials are two different byte messages with one MD5 digest |
| `Record.BytesIdentifyShape` | compiler/parse/parse.cc:13-19 | the bytes handed to MD5 determine the shape |
| `Record.BytesAreCodes` | compiler/parse/parse.cc:13-19 | those bytes are the codes of the characters |
| `RateLimit.GrantRule` | compiler/generate/t_cpp_generator.cc:5155-5192 | for every history of limits and every nondecreasing positive clock: granted iff the limit is positive and either the buffer still holds fewer stamps than the limit or fewer calls were granted in this second |
| `RateLimit.KeptOnBuffer` | compiler/generate/t_cpp_generator.cc:5164-5174 | the number of grants the buffer still knows is the number of its positive stamps |
| `RateLimit.RunHolds` | compiler/generate/t_cpp_generator.cc:5164-5174 | across all resizes the buffer is zeros followed by the latest grants |
| `RateLimit.RisingKeeps` | compiler/generate/t_cpp_generator.cc:5164-5174 | with limits that never decrease no grant of a second is forgotten while it matters |
| `RateLimit.RisingRule` | compiler/generate/t_cpp_generator.cc:5155-5192 | with such limits a call is granted iff fewer earlier calls than its limit were granted in the same second |
| `RateLimit.NoSecondExceeds` | compiler/generate/t_cpp_generator.cc:5155-5192 | no second gets more grants than its limit |
| `RateLimit.DipLetsOneThrough` | compiler/generate/t_cpp_generator.cc:5164-5174 | limits 2, 2, 1, 2 in one second grant three calls |
| `SendPath.Sender.constructor` | compiler/generate/t_cpp_generator.cc:3737-3769 | the statics start with an empty buffer, the flag set and sequence number 1 |
| `SendPath.Sender.IsRatelimitPass` | compiler/generate/t_cpp_generator.cc:5155-5192 | the emitted code decides and updates as the limiter's step; a grant sets the drop log flag |
| `SendPath.Sender.Send` | compiler/generate/t_cpp_generator.cc:1370-1469 | outcome and new state are the send step's |
| `SendPath.DropsAccounted` | compiler/generate/t_cpp_generator.cc:1370-1469 | over every run the drop statistics grow by exactly the reasons of the dropped calls |
| `SendPath.CallsConserved` | compiler/generate/t_cpp_generator.cc:1370-1469 | read off the counters alone: the calls that are neither tests nor in the drop statistics are exactly those the sequence number moved on by, mod 2^32 |
| `SendPath.NumbersConsecutive` | compiler/generate/t_cpp_generator.cc:1136-1151 | from any state dispatched messages carry consecutive numbers mod 2^32, whatever is dropped between |
| `SendPath.KthNumber` | compiler/generate/t_cpp_generator.cc:3737-3745 | from the start the k-th dispatched message carries k mod 2^32 |
| `SendPath.QuietStretch` | compiler/generate/t_cpp_generator.cc:1370-1469 | a stretch without grants logs one rate-limit drop if the flag was set and a call was rejected, and none otherwise |
| `SendPath.OneLogBetweenGrants` | compiler/generate/t_cpp_generator.cc:5188-5191 | between consecutive grants there is exactly one rate-limit drop log if any call was rejected |
| `SendPath.LimiterRun` | compiler/generate/t_cpp_generator.cc:1370-1469 | the limiter sees exactly the calls that are neither test-logged nor switched off |
| `SendPath.AdmittedWithinLimit` | compiler/generate/t_cpp_generator.cc:1370-1469 | a call that reaches the limiter is admitted iff its second has not used up the limit |
| `SendPath.OutcomeRule` | compiler/generate/t_cpp_generator.cc:1370-1469 | for every history of limits, what becomes of every call and for which reason: test-logged, switched off, no room in the buffer and the second, level not below the sending level, or dispatched with the current number |
| `SendPath.DispatchedRule` | compiler/generate/t_cpp_generator.cc:1442-1466 | with limits that never decrease: dispatched iff neither a test nor switched off, with room in its second and below the sending level |
| `Constants.SplittingsAgree` | compiler/parse/t_const_value.h:72-92 | the qualified split and the last-dot split of an identifier agree iff the former leaves no dot |
| `Constants.QualifiedParts` | compiler/parse/t_const_value.h:146-158 | one or two dot-free qualifiers are dropped, and a name without one throws |
| `Search.FindNamed` | compiler/parse/t_enum.h:47-56 | the loop returns the first element of the name, for enumerators and for struct members |
| `Search.FirstIsFirst` | compiler/parse/t_enum.h:47-56 | no element before the one found has the name |
| `Constants.FindMemberType` | compiler/main.cc:762-911 | the validator's search ends with the last declared member of the name |
| `Constants.ResolveAttaches` | compiler/parse/t_scope.h:100-219 | what resolution does to a value of any type: every enum position gets the enum of its type, members being taken as the first of their name in key order, and below an exception or a typedef nothing changes |
| `Constants.RendersExactly` | compiler/generate/t_cpp_generator.cc:876-1008 | for every type and every value, checked or not: rendering reaches no throw iff members are known and base types have constants, every number asked for is found and, in C++, UUID literals are well formed |
| `Constants.ValidShape` | compiler/main.cc:762-911 | the validator has checked the first of these everywhere but behind a typedef |
| `Constants.BaseValidIffLive` | compiler/main.cc:762-842 | a base value is accepted iff the slot the generators print is the one its tag makes live, save two types the validator knows no constants of |
| `Constants.ValidIffFits` | compiler/main.cc:762-911 | at every depth up to typedefs: a value is accepted, with containers tagged as such, iff everything that would be rendered is live and of its type |
| `Constants.NumberForList` | compiler/main.cc:887-911 | a number is accepted for a list, and the empty list beside it is rendered |
| `Constants.LookupTakesLive` | compiler/parse/t_scope.h:125-182 | a name for a constant of a base type takes over what is live in it, iff the type is not UUID or address and no integer was given for a double |
| `Constants.LookupTakesContainers` | compiler/parse/t_scope.h:183-203 | a name for a map or list constant takes over its content |
| `Constants.LookupThrows` | compiler/parse/t_scope.h:125-142 | an unknown name throws, and so does a void constant |
| `Constants.TrueTypeIsTrue` | compiler/parse/parse.cc:21-27 | the type behind all typedefs |
| `Constants.EnumNumberKept` | compiler/parse/t_scope.h:206-219 | a number given for an enum keeps its value under the name found for it, which passes the validator, and is refused iff no enumerator has it |
| `Constants.Soundness` | compiler/generate/t_cpp_generator.cc:876-1008 | derived from the exact rule for such types without typedefs: whatever resolves and validates never makes the Python generator throw, and the C++ generator only for a malformed UUID |
| `Constants.ThrowsExactly` | compiler/generate/t_py_generator.cc:650-769 | for every type and every value that validates: Python throws iff some number is not found or a value behind a typedef is misshapen, and C++ iff that or a UUID literal is malformed |
| `Constants.TypedefFreeRule` | compiler/generate/t_py_generator.cc:650-769 | for every type without typedefs, exceptions and repeated names included: only the names and the UUID literals matter |
| `Constants.ParsedRule` | compiler/parse/t_scope.h:100-219 | the exact rule on the value as parsed, for every type without typedefs, with exceptions, repeated names and dotted enumerators at any depth: each enum position needs the enum of the resolver's type there, with the last name in it, and none may stand where resolution does not go |
| `Constants.ExceptionRule` | compiler/parse/t_scope.h:100-219 | the case of an exception: resolution leaves a freshly parsed constant as it is and, if valid, it renders iff no enum stands in it |
| `Constants.RepeatedNameRule` | compiler/parse/t_scope.h:100-219 | the case of a repeated name: an enum member renders iff its last name is an enumerator of the first such member in key order, although it was validated against the last declared |
| `Constants.ValidNames` | compiler/parse/t_const_value.h:146-158 | where enumerators have no dots, no exception is involved and repeated names agree in type, whatever resolution and validation accept has every number found |
| `Constants.DottedEnumeratorThrows` | compiler/parse/t_const_value.h:146-158 | an enumerator with a dot in its name validates and then throws |
| `Constants.ExceptionThrows` | compiler/parse/t_scope.h:100-219 | an enum inside an exception stays unresolved and throws in C++ |
| `Constants.RepeatedNameThrows` | compiler/main.cc:762-911 | two members of one name: resolver and validator disagree on the type, and C++ throws |
| `Constants.TypedefThrows` | compiler/main.cc:762-911 | nothing is checked behind a typedef, and C++ throws on an unknown member |
| `Reflection.Generator.Generate` | compiler/generate/t_cpp_generator.cc:3229-3340 | the visited set and the output grow as the walk's step on that type |
| `Reflection.Generator.GenerateMembers` | compiler/generate/t_cpp_generator.cc:3255-3266 | the members' loop and the closing void |
| `Reflection.VisitsShape` | compiler/generate/t_cpp_generator.cc:3235-3241 | within one program the walk depends only on shapes |
| `Reflection.PartShorter` | compiler/generate/t_cpp_generator.cc:3247-3266 | a part's material is shorter than the whole's |
| `Reflection.VisitGood` | compiler/generate/t_cpp_generator.cc:3229-3340 | every call, whatever is foreign, keeps: marked is exactly what was met, written or still open exactly what was first met as own, each definition once and after those of its parts not first met as foreign |
| `Reflection.EachDefinedOnceAfterItsParts` | compiler/generate/t_cpp_generator.cc:3229-3340 | for every list of types of one program with collision-free fingerprints: each reachable structural type is defined exactly once and after everything it is made of |
| `Reflection.DefinedIffOwnMetFirst` | compiler/generate/t_cpp_generator.cc:3229-3340 | for every program, whatever it includes: a shape is defined iff the first type met with that shape is the program's own, once, and after those of its parts that are defined |
| `Reflection.AllOwnDefinedIff` | compiler/generate/t_cpp_generator.cc:3229-3340 | on the input alone: all own types are defined iff in the plain preorder of the types, marks ignored and foreign types not entered, each own type has a shape first met as own |
| `Reflection.OwnDefinedOnceAfterTheirParts` | compiler/generate/t_cpp_generator.cc:3229-3340 | if no reachable own type has the shape of a reachable foreign one, exactly the own types are defined, each once and after its own parts |
| `Reflection.HiddenStays` | compiler/generate/t_cpp_generator.cc:3237-3241 | a shape marked but not written is never written by any later walk, collisions or not |
| `Reflection.ForeignHides` | compiler/generate/t_cpp_generator.cc:3242-3245 | a foreign type met first hides its shape for good |
| `Reflection.ForeignAre` | compiler/generate/t_cpp_generator.cc:3242-3245 | what another program owns: its records and enums |
| `Reflection.UniverseIffNoCollision` | compiler/generate/t_cpp_generator.cc:3237-3241 | fingerprints of a closed set of shapes are distinct iff no two of their materials collide under MD5 |
| `Reflection.ForeignTwinHidesDefinition` | compiler/generate/t_cpp_generator.cc:3242-3245 | a member of a foreign record type in one own record suppresses the definition of another own record of that shape |
| `Annotation.AnnoRoundTrip` | compiler/generate/t_cpp_generator.cc:2455-2509 | taking apart a printed statistics annotation recovers period, pre-algorithm, raw, composite and sub-composite names, algorithm and arguments |
| `Annotation.ParsedPeriod` | compiler/generate/t_cpp_generator.cc:2473-2489 | no minus sign reaches atoi, so a parsed period is never negative but for the mark of absence |
| `Annotation.NoColon` | compiler/generate/t_cpp_generator.cc:2457-2470 | without a colon the whole text is the algorithm and is also taken apart as the rest |
| `Annotation.AtoiVectors` | compiler/generate/t_cpp_generator.cc:2476-2484 | blanks, sign and digits of a period |
| `DerivedStats.CacheAttrInfo` | compiler/generate/t_cpp_generator.cc:2392-2424 | passes its asserts iff no mandatory member is annotated; then holds exactly the members without statistics, mandatory iff not optional and hidden iff annotated so |
| `DerivedStats.RawTypeWalks` | compiler/generate/t_cpp_generator.cc:2511-2563 | the raw type is what the path of raw, composite and sub-composite names leads to, inside a map for an mstats statistic |
| `DerivedStats.StatInfo` | compiler/generate/t_cpp_generator.cc:2436-2591 | passes its asserts iff the declaration is well formed; hidden as annotated, and of a periodic category iff its period, default included, is not zero |
| `DerivedStats.DerivedStatsInfo` | compiler/generate/t_cpp_generator.cc:2426-2606 | passes iff every declaration does; the statistics map holds exactly the annotated members, and the raw map is the exact inverse of the raw-attribute relation |
| `LoadUve.Classify` | compiler/generate/t_cpp_generator.cc:3881-3887 | both passes: every member is in exactly one of the two maps |
| `LoadUve.Lookup` | compiler/generate/t_cpp_generator.cc:3906-3930 | later lookups never miss, never meet an unhandled category, and periodic categories have a positive period |
| `LoadUve.Data.LoadStat` | compiler/generate/t_cpp_generator.cc:3920-3963 | the emitted code for one statistic, by category and kind of load |
| `LoadUve.Data.LoadMember` | compiler/generate/t_cpp_generator.cc:3897-3966 | the emitted code for one member, and its share of the send decision |
| `LoadUve.Data.Load` | compiler/generate/t_cpp_generator.cc:3891-3974 | all flags and flushes after the load by category, nothing else changed; sends iff not periodic, or deleted, or a periodic statistic is set |
| `LoadUve.Declarative` | compiler/generate/t_cpp_generator.cc:3891-3974 | the same effect said of the declarations alone |
| `LoadUve.LoadStruct` | compiler/generate/t_cpp_generator.cc:3881-3974 | classification and load together: runs iff no assert fails, and does what the declarations say |
| `LoadUve.PeriodicLeaves` | compiler/generate/t_cpp_generator.cc:3891-3974 | member by member and flush by flush what a periodic load does; it leaves set, of the optional members other than `deleted`, only visible statistics whose period divides the cycle, iff no other statistic was set without a result; if none was, it sends iff one of those is set or the object is deleted |
| `LoadUve.SyncLeaves` | compiler/generate/t_cpp_generator.cc:3891-3974 | a sync load leaves no hidden and no periodic member set, iff none was a statistic set without a result; it flushes nothing |
| `LoadUve.SyncKeeps` | compiler/generate/t_cpp_generator.cc:3891-3974 | member by member what a sync load keeps: visible plain members, and visible statistics without a period as FillResult says |
| `LoadUve.IntrospectKeeps` | compiler/generate/t_cpp_generator.cc:3891-3974 | member by member what an introspect load does; it clears nothing iff FillResult clears no set statistic, and flushes nothing |
| `LoadUve.DefaultPeriod` | compiler/generate/t_cpp_generator.cc:2568-2587 | a visible statistic declared without a period is due on every cycle of a periodic struct and on none of any other; with one, on its multiples |
| `DocText.SplitLines` | compiler/main.cc:439-455 | the loop splits at newlines and drops a blank last line |
| `DocText.ScanStars` | compiler/main.cc:466-503 | the scan with its early exit computes the star column, clearing blank lines as it goes |
| `DocText.FindMinLead` | compiler/main.cc:514-525 | the least indentation of the nonblank lines |
| `DocText.JoinLines` | compiler/main.cc:548-553 | every line followed by a newline |
| `DocText.CleanUp` | compiler/main.cc:432-558 | the passes in order compute the cleaned text, or nothing for a text without content |
| `DocText.LineByLine` | compiler/main.cc:439-553 | the lines of the result are those of the comment one for one, but a blank last and a blank first one; each is a contiguous part of its line with the line's ink, later ones without their star |
| `DocText.CleanLineSlice` | compiler/main.cc:462-540 | a cleaned line is a contiguous part of its line and, if visible, does not end in a blank |
| `DocText.OnlyCrGoes` | compiler/main.cc:434-437 | carriage returns go and nothing else |
| `DocText.BlanksAre` | compiler/main.cc:462-463 | blanks are spaces and tabs |
| `DocText.ScanMeans` | compiler/main.cc:466-503 | the scan finds a star column iff every nonblank line has its first visible character, a star, there |
| `DocText.CleaningKeepsInk` | compiler/main.cc:432-558 | the visible characters come out in order, minus one star per nonblank later line iff those share a star column |
| `DocText.NullHasNoInk` | compiler/main.cc:432-558 | a text is cleaned to nothing iff without carriage returns it is one line of blanks, and then it has no visible character |
| `DocText.UnstarredIs` | compiler/main.cc:505-512 | what is kept of a later line is the text right of the star, or the line itself |
| `DocText.IndentationKept` | compiler/main.cc:514-540 | later nonblank lines keep their indentation differences, with minimum zero |
| `DocText.LongerOnlyByNewline` | compiler/main.cc:439-555 | the result is at most one character longer, and longer iff it is the input and a newline |
| `DocText.BoundFailsIff` | compiler/main.cc:439-555 | of the function on arbitrary text: the result is longer than the text iff nothing needed cleaning: no carriage return, no blank last line, a visible first character, no trailing blanks, and later lines without a star column, with one that is not indented, and with nonempty blank lines only after a line that breaks the star column |
| `DocText.TidyMeans` | compiler/main.cc:466-503 | the scan clears no line iff every nonempty line of blanks stands after lines that do not share a star column |
| `DocText.OneLetterFails` | compiler/main.cc:432-558 | of the function on arbitrary text: the shortest one that comes out longer |
| `DocText.BlankEndKeepsBound` | compiler/main.cc:555-556 | a text that ends in a blank never comes out longer, so the asserted bound holds for it |
| `DocText.ScanDocText` | compiler/sandeshl.ll:386-396 | the only caller, for every doc comment: it passes the text with a blank for the closing star, the cleaned text fits where it was, and null comes back iff the comment is one line of blanks |

## Left out

- Optional, required and auto-generated fields, doubles, maps, sets and lists of anything but base types in the C buffer codec: the emitted buffer code does not support them as written.
- The stream writer and reader of the C generator: the same statements over a transport object.
- Writer.WriteSandesh: offsets are unbounded, so wrap-around of the 32-bit offset past 2^31 bytes is not modelled.
- Codec.RoundTrip: strings are byte sequences, so a byte 0 inside a string, which the C reader's terminator would hide, is kept.
- Codec.SkipExact: one direction only for records, since a misread address can fall back in step by chance (LuckyAddressSkips); skipping a non-empty list, whose element type takes in bytes the C code never set, is one outcome, `Derailed`.
- Codec.MessageReads: the fields the reader does not know must be ones the skip routine measures, and those it knows must agree in type, nested records included.
- Md5.State.Append: pieces of 2^31 - 63 bytes or more, where the int arithmetic of the offset test overflows, are excluded; negative lengths, which the code ignores, are not represented.
- Md5.Process: the aligned little-endian cast of the block is not modelled apart from the word view it relies on.
- Record.GenerateFingerprint: the stored fingerprint fields of nested types are not modelled, only their values.
- Constants.Soundness: stated for the types for which it holds; ThrowsExactly is the rule for all types. Values are rewritten as values, so sharing of constant objects between uses is not captured, nor is the rendered text.
- SendPath.Sender.Send: the function emitted with a rate limit, as for system logs; calls follow one another; the mutex, the flag's write outside it, log text and object release are not modelled, and the circular buffer is a bounded sequence.
- Reflection.Generator.Generate: definitions are recorded by shape; their text and the declaration pass, which makes the same walk, are not.
- Annotation.AnnoRoundTrip: names are free of the separators that would end them, and overflow in atoi is not modelled.
- DerivedStats.StatInfo: typedefs among member types are taken as resolved.
- LoadUve.Data.Load: member names are distinct, as C++ demands of the emitted struct; the algorithms behind IsResult, FillResult and Flush are parameters.
- Service, client and processor generation, the HTML, XSD, doc and JSON outputs, the lexer and parser, file handling and the command line.
