# Catena device control: a verified model

Catena controls broadcast devices. A device is a tree of typed parameters, addressed by
oids that look like JSON pointers, described by descriptors and constraints, guarded by
scopes, and written in batches. Clients watch it over streaming connections. This project
models the parts of the SDK where that can go wrong and proves what holds of them.

## What is modelled

**The C++ parameter engine.** `Types` has the values, the wire messages, the shapes (the C++
types) and the descriptors. `Constraints` is the range arithmetic. `StructInfo` is the
recursive codec for structs, struct arrays, variants and variant arrays with the leaf codecs;
`CodecProperties` has the round trips, `Messages` says which message carries which value and
`Acceptance` which messages are taken. `Text` and `Paths` are the string loops and the oid
parser, printer and cursor; `Grammar` has the texts that parse, `Escaping` the escaping of
names and back. `Navigation` says where a path leads inside a value and what a write there
does; `Transactions` has validation, `tryMultiSetValue`, `commitMultiSetValue` and `setValue`
as functions of the device's values; `DeviceModel` has the objects whose methods compute these
functions while they change their fields. `BatchProperties`, `BatchOutcome`, `BatchOrder`,
`BatchConformance`, `BatchLimits`, `SingleWrites`, `Refusals`, `DeviceSafety`,
`DeviceProperties` and `Authorization` have the theorems; `Parts` speaks of all the params
inside a value, and `Spelling` of the different texts of one path.

**The connection queues.** `PriorityQueue` is the bounded priority queue of the C++ SDK, and
`QueueByPriority` says what it does in terms of priorities. `StreamingQueue` is the Go queue:
every goroutine's stretch between taking the lock and giving it up is one event of a state
machine, so the theorems are about all interleavings. `StreamingRules` has the rules of its
events, `FairRuns` its infinite runs.

**The tree listings.** `ParamInfo` is the Go listing of parameter descriptors, `Requests` what
it answers, `Subscriptions` the expansion and removal of wildcard subscriptions, `Subscribing`
what they stand for, `Imports` the import resolution of the code generator.

**Base64.** `Base64` has both directions, with a 32-bit accumulator that overflows.

## What came out

Most of what the code promises holds. Where it does not, the model keeps the code's behaviour
and a lemma says exactly when the promise holds, or shows inputs for which it fails:

- An accepted batch none of whose entries writes inside what another one writes commits if and
  only if every array has room for all its appends and no oid ends in the index that stands for
  "no index" (`BatchOutcome.AcceptedCommitsIff`). Each entry is checked against the array as it was
  before the batch, because the tracker pointer of a top-level param is null when the param is
  copied, so its copies share nothing. Two appends to an array with room for one are accepted and
  then dereference a null pointer (`BatchLimits.DoubleAppendCrashes`, `BatchLimits.TwoForOne`), as
  does the index 18446744073709551613 (`BatchLimits.SentinelAccepted`,
  `BatchLimits.ReservedIndexCrashes`).
- Such a batch is accepted and commits in every order, and all orders leave the same device if and
  only if the entries for one place, or for the end of one array, decode to the same value
  (`BatchOrder.AcceptedOrderIff`).
- For the same reason two element writes can together exceed `total_length`
  (`BatchLimits.TotalLengthExceeded`). That is the only bound a committed batch can break: the
  device stays conforming exactly if the lengths written into each array of strings fit together
  (`BatchConformance.BatchConformsIff`). A run of single writes breaks none
  (`DeviceSafety.RunSafe`).
- Oids are compared as texts, so `/a/1` and `/a/01` are not seen to overlap
  (`BatchLimits.SpellingsDoNotOverlap`): a batch that gives both different values is accepted
  in either order and leaves a different device in each
  (`BatchLimits.SpellingsMakeOrderMatter`). The test sees that a canonical oid is below another
  one exactly if that one is canonical too (`Spelling.OverlapIffCanonical`). A wildcard
  subscription to a param spelled otherwise is not undone by removing it
  (`Subscriptions.AddThenRemove`).
- An oid that does not parse makes `tryMultiSetValue` throw, from the loop that resets the
  trackers and outside its `try`, exactly if the validation gets as far: if the entries before it
  are acceptable and it overlaps none of them (`BatchProperties.EscapesIff`).
- Clamping to a maximum off the step grid gives a value that one application of the constraint
  does not leave alone (`Constraints.ApplyIntOnceIff`), and that does not survive a round trip;
  an empty variant array does not either (`CodecProperties.RoundTripIff`).
- `unescape_` undoes `escape_` if and only if the text has no `~1` in it, because the
  replacements come in the other order than section 4 of RFC 6901 has them, and fewer than a
  thousand `~` and fewer than a thousand `/`, because the loops stop there
  (`Escaping.UnescapedEscapedIff`, `Escaping.ThousandTildes`).
- `split` repeats a piece of the text if and only if the delimiter occurs a thousand times or more
  (`Text.Split`), and so does `subs` (`Text.Subs`).
- A parameter listing and the requests for its parts agree, and no oid is listed twice, if and
  only if no listed name holds a solidus and nothing is listed below an empty name at the top
  (`ParamInfo.AgreeIff`).
- With param files that are not imports themselves the loader returns the expansion of a file
  (`Imports.CleanBody`), and no import is left in it (`Imports.NoneLeft`). Cycles of imports are
  never loaded (`Imports.CycleNeverLoads`).

Where the code and its comments differ the model follows the code: the comment above the path
grammar mentions segments with `~0` and `~1`, which the grammar refuses; a comment at array
traversal promises not to enter nested elements, which it does; `Connect::operator<` is
documented as less-than on priorities but also orders connections of one priority, and holds of
a connection and itself.

## Model

| member | source | states |
|---|---|---|
| `Constraints.ApplyIntInRange` | sdks/cpp/common/include/RangeConstraint.h:169-186 | an applied integer lies in the range, for every input |
| `Constraints.ApplyIntIsGreatestGridPoint` | sdks/cpp/common/include/RangeConstraint.h:180-184 | inside the range the result is the greatest grid point not above the input |
| `Constraints.ApplyIntMonotone` | sdks/cpp/common/include/RangeConstraint.h:169-186 | greater inputs never give smaller results |
| `Constraints.SatisfiedIffFixed` | sdks/cpp/common/include/RangeConstraint.h:135-140 | a value satisfies the range if and only if applying the range leaves it alone |
| `Constraints.ApplyIntTwice` | sdks/cpp/common/include/RangeConstraint.h:169-186 | two applications always give a value that satisfies the range |
| `Constraints.ApplyIntOnceIff` | sdks/cpp/common/include/RangeConstraint.h:174-184 | one application does so for every input exactly when the step is zero, the maximum is on the grid, or nothing lies above the maximum |
| `Constraints.ApplyFloatInRange` | sdks/cpp/common/include/RangeConstraint.h:187-212 | an applied float lies in the range |
| `Constraints.ApplyFloatIsNearest` | sdks/cpp/common/include/RangeConstraint.h:196-207 | rounding moves an in-range float by at most half a step |
| `Constraints.ApplyFloatTwice` | sdks/cpp/common/include/RangeConstraint.h:187-212 | two applications always reach a float that the range leaves alone |
| `Constraints.ApplyFloatSettles` | sdks/cpp/common/include/RangeConstraint.h:196-207 | from inside the range one application does, even where rounding passed the maximum |
| `Constraints.ApplyFloatFixedIff` | sdks/cpp/common/include/RangeConstraint.h:187-212 | applying the range leaves a float alone exactly if it is in the range and the step is zero, it is on the grid, or it is the maximum and the grid point nearest to it lies above |
| `Constraints.ApplyFloatMonotone` | sdks/cpp/common/include/RangeConstraint.h:187-212 | greater inputs never give smaller floats |
| `Constraints.SatisfiedFloatIff` | sdks/cpp/common/include/RangeConstraint.h:142-157 | a float satisfies a range with a step exactly if it is in the range and within a ten thousandth of the step from the nearest grid point, or from the maximum if that lies above |
| `StructInfo.ValidFieldsIff` | sdks/cpp/common/include/StructInfo.h:240-270 | a struct is valid if and only if it has every field and every field is valid, so the statuses that decoding discards are all OK |
| `StructInfo.ValidItemsIff` | sdks/cpp/common/include/StructInfo.h:343-369 | an array of structs or variants is valid if and only if every element is |
| `StructInfo.ValidStringsIff` | sdks/cpp/common/src/StructInfo.cpp:343-360 | a string array passes its loop if and only if every string meets the constraint and the summed length is within the limit |
| `StructInfo.ValidFromProto` | sdks/cpp/common/include/StructInfo.h:240-270 | the recursive validation computes its specification, with the error of the first failure |
| `StructInfo.ValidStringList` | sdks/cpp/common/src/StructInfo.cpp:331-362 | the string array loop: stops at the first bad string, and the length check has the last word |
| `StructInfo.ValidList` | sdks/cpp/common/include/StructInfo.h:538-563 | the element loop of the other arrays |
| `StructInfo.FromProto` | sdks/cpp/common/include/StructInfo.h:280-308 | decoding errs and leaves the destination alone, or succeeds with a value that does not depend on it |
| `StructInfo.FillArray` | sdks/cpp/common/include/StructInfo.h:378-394 | the array is cleared and filled with what each element decodes to |
| `StructInfo.ToProto` | sdks/cpp/common/include/StructInfo.h:200-233 | encoding succeeds exactly when every part may be read, and gives all of the value or nothing |
| `StructInfo.FieldsToProto` | sdks/cpp/common/include/StructInfo.h:207-232 | the field loop stops encoding after the first failure |
| `StructInfo.ListToProto` | sdks/cpp/common/include/StructInfo.h:318-338 | the element loop |
| `Acceptance.ValidIff` | sdks/cpp/common/src/StructInfo.cpp:77-362 | a message is valid if and only if it is of the kind of the type, the client may write every part, no field is missing, the alternative exists, lengths are within their limits and choices are met; nothing is asked of a number with a range |
| `Acceptance.RefusedFor` | sdks/cpp/common/src/StructInfo.cpp:77-362 | a refused message gets the status of a fault that some part of it has: no authorisation, too long, or malformed; missing authorisation for the param itself comes first |
| `Acceptance.LengthFirst` | sdks/cpp/common/src/StructInfo.cpp:331-345 | a list with too many elements and a text that is too long are told so whatever else is wrong |
| `Acceptance.TextsStatus` | sdks/cpp/common/src/StructInfo.cpp:343-360 | which of the two errors a list of texts gets |
| `CodecProperties.DecodeConforms` | sdks/cpp/common/include/StructInfo.h:280-308 | whatever a valid message decodes to has the type, the ranges, the choices and the lengths its descriptors ask for |
| `CodecProperties.RoundTripIff` | sdks/cpp/common/include/StructInfo.h:516-582 | decoding what was encoded restores a conforming value exactly when each number in it satisfies its range or is left alone by it (on the grid, or a maximum that rounds up) and no variant array in it is empty |
| `CodecProperties.EncodeAfterDecode` | sdks/cpp/common/include/StructInfo.h:200-308 | encoding what was decoded gives the message back without unknown fields and with ranges applied |
| `Messages.EncodedIff` | sdks/cpp/common/include/StructInfo.h:200-536 | exactly one message carries a value as it is, fields by name and elements in order, and that is the one it is encoded as |
| `Messages.DecodedCarries` | sdks/cpp/common/include/StructInfo.h:280-582 | what a valid message decodes to is what it carries, field by field and element by element, with each number brought into its range |
| `Text.NoMatch` | sdks/cpp/common/src/utils.cpp:53-73 | without a match nothing is replaced |
| `Text.NextMatch` | sdks/cpp/common/src/utils.cpp:58-68 | otherwise the text before the next match stays, and the match is replaced |
| `Text.Subs` | sdks/cpp/common/src/utils.cpp:53-73 | `subs` replaces every match from left to right below a thousand; from there on it replaces the first thousand and appends all that follows the 999th once more |
| `Text.FirstReplacedIs` | sdks/cpp/common/src/utils.cpp:58-68 | replacing the first matches and then the rest is replacing all |
| `Text.Split` | sdks/cpp/common/src/utils.cpp:75-88 | every piece ends at the first match after it begins, and joining the pieces gives the text back exactly below a thousand matches |
| `Paths.NumberOfDigits` | sdks/cpp/common/src/Path.cpp:83-87 | a printed index is read back as the same number |
| `Paths.ParsePrinted` | sdks/cpp/common/src/Path.cpp:205-223 | parsing the print of any path restores it |
| `Paths.PrintParsed` | sdks/cpp/common/src/Path.cpp:41-103 | the print of whatever was parsed parses to the same path |
| `Paths.PrintPrefix` | sdks/cpp/common/src/Device.cpp:61-65 | a path's print starts with the print of every path it extends, which makes the textual overlap test sound |
| `Escaping.UnescapedEscapedIff` | sdks/cpp/common/src/Path.cpp:193-203 | unescaping undoes escaping if and only if the text has no `~1` and fewer than a thousand of either character |
| `Escaping.ThousandTildes` | sdks/cpp/common/src/utils.cpp:53-73 | a thousand tildes have no `~1` and do not come back, one fewer do |
| `Escaping.EscapedMarks` | sdks/cpp/common/src/Path.cpp:193-196 | escaping leaves a text without either character alone, and puts a tilde into any other one, however long |
| `Paths.EscapedIsEscape` | sdks/cpp/common/src/Path.cpp:193-196 | below a thousand of either character the loops escape all of them |
| `Paths.Path.FromJptr` | sdks/cpp/common/src/Path.cpp:41-103 | the constructor accepts exactly the grammar and yields the parsed segments |
| `Grammar.Characters` | sdks/cpp/common/src/Path.cpp:41-60 | the letters, digits and the underscore of the grammar |
| `Grammar.ParseIff` | sdks/cpp/common/src/Path.cpp:41-103 | exactly the texts parse that are segments with a solidus before each, and to what their segments stand for, unless an index exceeds 64 bits |
| `Paths.Path.Pop` | sdks/cpp/common/src/Path.cpp:173-177 | the cursor moves one segment, or stays at the end |
| `Paths.Path.PopBack` | sdks/cpp/common/src/Path.cpp:179-187 | the last segment goes, and the cursor stays in bounds |
| `Paths.Path.Rewind` | sdks/cpp/common/include/Path.h:257-257 | the cursor goes back to the front, the segments stay |
| `Paths.Path.Unpop` | sdks/cpp/common/include/Path.h:262-262 | undoes one pop |
| `Paths.Path.PushIndex` | sdks/cpp/common/include/Path.h:282-284 | appends an index |
| `Paths.Path.PushString` | sdks/cpp/common/include/Path.h:268-276 | appends the name as the two escaping loops leave it, or the end index for `-` |
| `Paths.Path.ToString` | sdks/cpp/common/src/Path.cpp:205-223 | the print of the segments from the start index on |
| `Paths.Path.Fqoid` | sdks/cpp/common/src/Path.cpp:229-231 | the full oid does not depend on the cursor |
| `Navigation.AtTyped` | sdks/cpp/common/include/ParamWithValue.h:572-682 | what a path finds has the type and the descriptor it is handed out with |
| `Navigation.AtFails` | sdks/cpp/common/include/ParamWithValue.h:572-682 | a path that leads nowhere has a step that cannot be taken, for the reason its status gives |
| `Navigation.AtPut` | sdks/cpp/common/include/ParamWithValue.h:203-205 | what was written at a path is found there |
| `Navigation.AtUnaffected` | sdks/cpp/common/include/ParamWithValue.h:572-682 | a write is invisible along every path apart from its own |
| `Navigation.AtAncestor` | sdks/cpp/common/include/ParamWithValue.h:572-682 | a write below a param shows up there as the same write |
| `Navigation.PutsCommute` | sdks/cpp/common/src/Device.cpp:107-148 | writes apart from each other commute, appends included |
| `Transactions.AtReadable` | sdks/cpp/common/src/Device.cpp:276-314 | params are only handed out to clients that may read them |
| `Transactions.DestinationTyped` | sdks/cpp/common/src/Device.cpp:109-127 | the param the commit writes is the one the path leads to, or the element appended |
| `Parts.DefaultParts` | sdks/cpp/common/include/ParamWithValue.h:449-449 | a default constructed element is zero or empty in every part |
| `SingleWrites.AcceptIff` | sdks/cpp/common/include/ParamWithValue.h:756-838 | an entry is acceptable if and only if its path leads to a param that takes the value with a size within `max_length`, or to an array with such an element, or with room for one more, that takes it and whose texts fit together |
| `SingleWrites.TextAcceptedIff` | sdks/cpp/common/include/ParamWithValue.h:763-776 | a text param takes exactly the texts of its writers that are within `max_length` and `total_length`, and among its choices if they are strict |
| `SingleWrites.SetValueIff` | sdks/cpp/common/src/Device.cpp:152-162 | `setValue` succeeds exactly for such an entry that does not end in the reserved index |
| `SingleWrites.IntStored` | sdks/cpp/common/src/StructInfo.cpp:92-106 | a writer may set a ranged integer to anything: the nearest end is stored, or the last multiple of the step up to it |
| `SingleWrites.FloatStored` | sdks/cpp/common/src/StructInfo.cpp:132-146 | the same for a float: the nearest end, and otherwise the nearest grid point, the upper one of two, or the maximum if that lies above it |
| `SingleWrites.BatchTexts` | sdks/cpp/common/src/Device.cpp:50-150 | where a committed batch writes a text, the last one is found, and it is within both lengths |
| `SingleWrites.WritersOnly` | sdks/cpp/common/src/Authorizer.cpp:67-89 | nobody changes what is read-only, nor anything without its write scope |
| `Refusals.RefusedEntry` | sdks/cpp/common/include/ParamWithValue.h:756-838 | a refused entry gets the status of the step at which its path fails, or that of a fault of its value, its index or the sizes |
| `Refusals.RefusedBatch` | sdks/cpp/common/src/Device.cpp:50-102 | a batch answered with an error has too many entries, or the error is that of the first entry that overlaps an earlier one or is refused |
| `Refusals.SetAnswered` | sdks/cpp/common/src/Device.cpp:152-162 | the four ways `setValue` ends: an exception for an oid that does not parse, the status of the refusal, a null pointer for the reserved index, or OK |
| `Refusals.CommitLast` | sdks/cpp/common/src/Device.cpp:104-150 | a commit goes on after an error, and answers with the status of its last entry |
| `Refusals.CommitStops` | sdks/cpp/common/src/Device.cpp:104-150 | it stops at an oid that does not parse, with an error or an exception, after the entries before it |
| `Refusals.CommitInvalid` | sdks/cpp/common/src/Device.cpp:104-129 | committing a value that is not valid gives its status and changes nothing, but for the default element that an append leaves |
| `BatchProperties.TryEntriesIff` | sdks/cpp/common/src/Device.cpp:57-88 | the validation loop ends with OK exactly for batches whose oids parse, whose values are each acceptable to the device as it is, and of which no two overlap |
| `BatchProperties.TryIff` | sdks/cpp/common/src/Device.cpp:50-102 | `tryMultiSetValue` answers OK exactly for those batches, given multi-set is enabled |
| `BatchProperties.EscapesIff` | sdks/cpp/common/src/Device.cpp:57-98 | `tryMultiSetValue` throws exactly if multi-set is allowed and some oid does not parse while all entries before it are acceptable and overlap neither each other nor it |
| `BatchProperties.SetValueThrowsIff` | sdks/cpp/common/src/Device.cpp:152-162 | `setValue` throws exactly if its oid does not parse |
| `BatchProperties.DisjointTextsApart` | sdks/cpp/common/src/Device.cpp:60-67 | non-overlapping canonical oids address subtrees apart, or both append |
| `BatchProperties.AcceptedResolves` | sdks/cpp/common/include/ParamWithValue.h:756-838 | an accepted entry leads to something its value is valid for, with room if it appends |
| `BatchProperties.ResolvedCommits` | sdks/cpp/common/src/Device.cpp:107-129 | such an entry is written and nothing else changes; without room the commit dereferences null |
| `BatchProperties.SentinelCrashes` | sdks/cpp/common/include/Path.h:94-94 | an entry that ends in the reserved index never commits |
| `BatchProperties.AppendSeen` | sdks/cpp/common/include/ParamWithValue.h:437-453 | an append makes its array one longer and leaves the way to it as it was |
| `BatchProperties.WriteFrame` | sdks/cpp/common/src/Device.cpp:104-150 | a write leaves the targets, lengths and limits of the other entries as they were |
| `BatchOutcome.CommitIff` | sdks/cpp/common/src/Device.cpp:104-150 | a consistent batch commits completely if and only if its appends fit, and otherwise dereferences null |
| `BatchOutcome.SentinelNeverCommits` | sdks/cpp/common/src/Device.cpp:104-150 | a commit that runs to its end met no reserved index |
| `BatchOutcome.CanonicalNoneInside` | sdks/cpp/common/src/Device.cpp:60-67 | no entry of an accepted batch with canonical oids writes inside what another one writes |
| `BatchOutcome.AcceptedCommitsIff` | sdks/cpp/common/src/Device.cpp:50-150 | an accepted batch without entries inside one another commits with OK if and only if every array has room for all its appends and it avoids the reserved index; entries for one place, however spelled, included |
| `BatchOrder.SwapTwo` | sdks/cpp/common/src/Device.cpp:107-148 | two neighbours apart from each other may be swapped |
| `BatchOrder.SwapSame` | sdks/cpp/common/src/Device.cpp:107-148 | so may two for one place that decode to the same value |
| `BatchOrder.OrderIndependent` | sdks/cpp/common/src/Device.cpp:104-150 | every permutation of a batch whose entries for one place decode alike commits with the same result |
| `BatchOrder.AcceptedOrderIff` | sdks/cpp/common/src/Device.cpp:50-150 | an accepted batch that commits does so in every order, and all orders end with the same device if and only if its entries for one place, or for the end of one array, decode to the same value |
| `BatchOrder.AcceptedAnyOrder` | sdks/cpp/common/src/Device.cpp:50-102 | whether a batch is accepted does not depend on its order |
| `BatchOrder.RestUnchanged` | sdks/cpp/common/src/Device.cpp:104-150 | nothing outside the batch changes |
| `BatchOrder.PayloadReadsBack` | sdks/cpp/common/src/Device.cpp:104-150 | after the commit the last entry for each place reads back as what it decodes to |
| `BatchOrder.AppendReadsBack` | sdks/cpp/common/include/ParamWithValue.h:437-453 | an append reads back behind the elements there were and the appends to its array before it |
| `BatchConformance.ConformsIffParts` | sdks/cpp/common/include/StructInfo.h:240-308 | a value conforms to its descriptors if and only if each param inside it meets its own constraint and bounds |
| `BatchConformance.BatchConformsIff` | sdks/cpp/common/src/Device.cpp:50-150 | an accepted batch that commits leaves a conforming device conforming exactly if for every array of strings the lengths that its writes leave there, replayed from the array as it was, sum up to no more than the total length |
| `BatchLimits.DoubleAppendCrashes` | sdks/cpp/common/src/Device.cpp:60-83 | two appends to an array with room for one are accepted and crash the commit |
| `BatchLimits.TwoForOne` | sdks/cpp/common/src/Device.cpp:50-150 | that happens to a conforming device with one array of strings |
| `BatchLimits.SentinelAccepted` | sdks/cpp/common/src/Device.cpp:72-80 | whatever a param accepts it also accepts with the reserved index behind its oid, which never commits |
| `BatchLimits.ReservedIndexCrashes` | sdks/cpp/common/src/Device.cpp:152-162 | on the same device `setValue` of an empty array to `/a/18446744073709551613` crashes |
| `BatchLimits.SpellingsDoNotOverlap` | sdks/cpp/common/src/Device.cpp:62-63 | two spellings of one index parse to the same path and do not overlap |
| `BatchLimits.SpellingsMakeOrderMatter` | sdks/cpp/common/src/Device.cpp:57-148 | so a batch that writes one element under both spellings is accepted in either order, the last entry stays, and the two orders give different devices |
| `Spelling.OverlapIffCanonical` | sdks/cpp/common/src/Device.cpp:60-67 | of two oids, the longer one canonical and below the other, the overlap test sees that exactly if the other is canonical too |
| `BatchLimits.TotalLengthExceeded` | sdks/cpp/common/include/ParamWithValue.h:148-157 | `tryMultiSetValue` answers OK to two element writes that exceed the total length together, and they commit |
| `DeviceSafety.AcceptedKeepsBounds` | sdks/cpp/common/include/ParamWithValue.h:786-838 | an accepted element write keeps its array within both bounds |
| `DeviceSafety.SetValueSafe` | sdks/cpp/common/src/Device.cpp:152-162 | `setValue` writes the decoded value or changes nothing, it succeeds exactly for acceptable entries, and a device that conformed conforms afterwards |
| `DeviceSafety.RunSafe` | sdks/cpp/common/src/Device.cpp:152-162 | ranges, choices, array lengths and summed string lengths hold in every state a run of single writes reaches |
| `DeviceModel.ParamWithValue.GetParam` | sdks/cpp/common/include/ParamWithValue.h:255-264 | follows the path segment by segment to what it leads to, or gives the status of the step that fails |
| `DeviceModel.ParamWithValue.Step` | sdks/cpp/common/include/ParamWithValue.h:572-682 | one segment: the overloads for vectors, structs and variants |
| `DeviceModel.ParamWithValue.PopChild` | sdks/cpp/common/include/ParamWithValue.h:572-682 | takes the front off the path and says which child it names, or why none |
| `DeviceModel.ParamWithValue.FromProto` | sdks/cpp/common/include/ParamWithValue.h:203-205 | writes through the reference into the device, or changes nothing |
| `DeviceModel.ParamWithValue.ToProto` | sdks/cpp/common/include/ParamWithValue.h:164-166 | encodes the referenced value |
| `DeviceModel.ParamWithValue.AddBack` | sdks/cpp/common/include/ParamWithValue.h:437-453 | grows the array by a default element and refers to it, or changes nothing |
| `DeviceModel.ParamWithValue.PopBack` | sdks/cpp/common/include/ParamWithValue.h:480-491 | takes the last element away, with an error for the other types and for empty arrays |
| `DeviceModel.ParamWithValue.ValidateSetValue` | sdks/cpp/common/include/ParamWithValue.h:360-372 | routes by the message's kind to the two validations |
| `DeviceModel.ParamWithValue.ValidateWholeWrite` | sdks/cpp/common/include/ParamWithValue.h:756-774 | setting a whole value: index, validity and length, in that order |
| `DeviceModel.ParamWithValue.ValidateElementWrite` | sdks/cpp/common/include/ParamWithValue.h:786-838 | setting or appending an element: status and trackers, which keep a write that breaks a bound |
| `DeviceModel.ParamWithValue.InitTrackers` | sdks/cpp/common/include/ParamWithValue.h:789-798 | trackers that are not set yet are taken from the array |
| `DeviceModel.Device.GetParam` | sdks/cpp/common/src/Device.cpp:276-314 | finds the top-level param and what the rest of the path leads to |
| `DeviceModel.Device.TryMultiSetValue` | sdks/cpp/common/src/Device.cpp:50-102 | computes the specified outcome and changes no value |
| `DeviceModel.Device.ResetTrackers` | sdks/cpp/common/src/Device.cpp:90-98 | the reset loop throws exactly when an oid it got does not parse |
| `DeviceModel.Device.CommitMultiSetValue` | sdks/cpp/common/src/Device.cpp:104-150 | the new values and the outcome are those of the specified commit |
| `DeviceModel.Device.SetValue` | sdks/cpp/common/src/Device.cpp:152-162 | a batch of one, validated and then committed |
| `DeviceModel.Device.GetValue` | sdks/cpp/common/src/Device.cpp:164-192 | the encoded value, or the status of what went wrong |
| `DeviceModel.AppendThenFill` | sdks/cpp/common/src/Device.cpp:118-129 | filling the element just appended is the same as appending it filled |
| `DeviceProperties.SetThenGet` | sdks/cpp/common/src/Device.cpp:152-192 | what `setValue` stores `getValue` gives back to the same client, without unknown fields and with ranges applied; what was appended it gives back at the index the append created |
| `DeviceProperties.GetIff` | sdks/cpp/common/src/Device.cpp:164-192 | `getValue` answers with a message exactly if the oid parses, does not stand for the end of an array, and leads to a param of which the client may read every part; otherwise with the reason |
| `DeviceProperties.ShadowRefines` | sdks/cpp/common/include/ParamWithValue.h:786-838 | after any run of accepted element writes the trackers equal the count and lengths of the array those writes would give, so each such array is within both bounds |
| `Authorization.EncodedIffAllReadable` | sdks/cpp/common/include/StructInfo.h:200-233 | a value is encoded if and only if the client may read every param inside it |
| `Authorization.ValidNeedsWriteAuthz` | sdks/cpp/common/include/StructInfo.h:240-270 | a message that validates decodes to params the client may write, every one of them |
| `Authorization.SetValueAuthorised` | sdks/cpp/common/src/Device.cpp:152-162 | `setValue` changes the device only where the client may write |
| `PriorityQueue.LessOrders` | sdks/cpp/common/include/rpc/Connect.h:89-92 | with object ids given out once, the comparison orders the connections |
| `QueueByPriority.LessIsOutranked` | sdks/cpp/common/include/rpc/Connect.h:89-92 | of two connections the one with the lower priority is less, and of two with one priority the newer |
| `QueueByPriority.SortedIff` | sdks/cpp/common/src/ConnectionQueue.cpp:54-59 | a sorted queue is ascending in priority, the older connections of one priority last |
| `QueueByPriority.Registered` | sdks/cpp/common/src/ConnectionQueue.cpp:38-75 | a registration succeeds exactly if there is room, a cancelled connection, or one with a lower priority, or the same that is newer; whoever is evicted is outranked by all who stay |
| `QueueByPriority.HighestStay` | sdks/cpp/common/src/ConnectionQueue.cpp:38-75 | without cancellations and departures nobody outside the queue outranks anybody in it, and it is full or holds all |
| `PriorityQueue.RegisterKeeps` | sdks/cpp/common/src/ConnectionQueue.cpp:38-75 | for every strict weak order a registration keeps the queue sorted, without duplicates and within its bound, and whoever is missing afterwards was shut down |
| `PriorityQueue.RunKeeps` | sdks/cpp/common/src/ConnectionQueue.cpp:38-85 | the same over every run with cancellations and departures; nobody is shut down twice or while in the queue |
| `PriorityQueue.RankedKeeps` | sdks/cpp/common/src/ConnectionQueue.cpp:54-59 | inserting all arrivals arranges them by rank and then by arrival |
| `PriorityQueue.QueueHoldsTheGreatest` | sdks/cpp/common/src/ConnectionQueue.cpp:38-75 | without cancellations and departures the queue is exactly the greatest entries of all that registered |
| `PriorityQueue.ConnectionQueue.EraseCancelled` | sdks/cpp/common/src/ConnectionQueue.cpp:45-53 | drops exactly the cancelled connections and shuts each of them down |
| `PriorityQueue.ConnectionQueue.FindGreater` | sdks/cpp/common/src/ConnectionQueue.cpp:54-59 | the first place whose entry is greater than the newcomer |
| `PriorityQueue.ConnectionQueue.InsertAndEvict` | sdks/cpp/common/src/ConnectionQueue.cpp:62-68 | inserts, shuts the first entry down and removes it |
| `PriorityQueue.ConnectionQueue.RegisterConnection` | sdks/cpp/common/src/ConnectionQueue.cpp:38-75 | the new queue, the answer and the shutdowns are those of the specified registration; null is refused |
| `PriorityQueue.ConnectionQueue.DeregisterConnection` | sdks/cpp/common/src/ConnectionQueue.cpp:77-85 | takes the first occurrence out |
| `StreamingQueue.StepKeeps` | sdks/go/pkg/catena/connection_queue.go:97-261 | every event keeps the invariant, in which a sleeping waiter's connection is still registered |
| `StreamingQueue.RunKeeps` | sdks/go/pkg/catena/connection_queue.go:88-261 | the invariant holds in every reachable state: no lost wakeup, `Done` closed at most once, channels within their capacity |
| `StreamingQueue.NothingComesBack` | sdks/go/pkg/catena/connection_queue.go:106-151 | ids are never used again, and once the queue is shutting down no connection is added, however the run goes on |
| `StreamingQueue.WithinMaximum` | sdks/go/pkg/catena/connection_queue.go:114-126 | there are never more connections than a maximum that stays |
| `StreamingQueue.WhenReturned` | sdks/go/pkg/catena/connection_queue.go:183-225 | a shutdown waits for exactly the connections there are, or those of its owner; when it has returned they are gone, and after a full shutdown there is none |
| `StreamingRules.SparesOthers` | sdks/go/pkg/catena/connection_queue.go:206-260 | whatever the shutdown of one owner does leaves the connections of all others as they are |
| `StreamingRules.ForcedAfterDeadline` | sdks/go/pkg/catena/connection_queue.go:238-252 | no connection is forced to close before the deadline of the shutdown that does it |
| `StreamingRules.DoneClosedIff` | sdks/go/pkg/catena/connection_queue.go:231-236 | `Done` is closed, once, for exactly the connections that some shutdown came to |
| `StreamingRules.AdmittedIff` | sdks/go/pkg/catena/connection_queue.go:106-138 | a connection is admitted exactly if the queue is not shutting down and has room or no maximum, and starts with its initial update; a refusal changes nothing |
| `StreamingRules.IdsConsecutive` | sdks/go/pkg/catena/connection_queue.go:118-128 | identifiers are given out one after the other |
| `StreamingRules.SettingsKept` | sdks/go/pkg/catena/connection_queue.go:98-185 | the maximum in force is the one set last, and only a shutdown makes the queue shut down |
| `StreamingRules.OfferedIff` | sdks/go/pkg/catena/connection_queue.go:156-170 | an update goes to exactly the registered connections with fewer than a hundred waiting, unless it is a value of a scope that they may not read |
| `StreamingRules.GoesIff` | sdks/go/pkg/catena/connection_queue.go:106-252 | a connection goes only when it is deregistered or by its own watchdog, and comes only by being admitted |
| `StreamingQueue.LateWatchdog` | sdks/go/pkg/catena/connection_queue.go:239-250 | a watchdog that fires late removes nothing, and whoever it wakes can go back to sleep |
| `StreamingQueue.MoveProgresses` | sdks/go/pkg/catena/connection_queue.go:227-261 | after the deadline every unfinished waiter has an event that brings it closer to its end |
| `FairRuns.WaiterStep` | sdks/go/pkg/catena/connection_queue.go:227-261 | whatever event happens, an expired waiter goes from entering to waiting, to being woken without its connection, to its end, and never back |
| `FairRuns.ExpiredReturns` | sdks/go/pkg/catena/connection_queue.go:183-261 | on every infinite run on which nothing that is due stays possible for ever without being done, a shutdown whose deadline has passed returns, whatever else happens |
| `StreamingQueue.ChannelFollowsOwnHistory` | sdks/go/pkg/catena/connection_queue.go:156-170 | a channel is determined by the broadcasts while its connection was registered and by its own reads, whatever other consumers do |
| `StreamingQueue.DeliveredInOrder` | sdks/go/pkg/catena/connection_queue.go:156-170 | what enters a channel is an in-order selection of the broadcasts it may read |
| `StreamingQueue.AllDelivered` | sdks/go/pkg/catena/connection_queue.go:164-168 | all of them enter as long as its own buffer is never found full |
| `StreamingQueue.ScopeRespected` | sdks/go/pkg/catena/connection_queue.go:161-163 | everything in a channel was broadcast, a value only with a scope the client holds |
| `StreamingQueue.Delivery` | sdks/go/pkg/catena/connection_queue.go:118-170 | from its registration on a connection gets its initial update and then such a selection, and has read a prefix of it |
| `StreamingQueue.ConnectionQueue.constructor` | sdks/go/pkg/catena/connection_queue.go:88-95 | the initial state |
| `StreamingQueue.ConnectionQueue.SetMaxConnections` | sdks/go/pkg/catena/connection_queue.go:98-102 | one event |
| `StreamingQueue.ConnectionQueue.RegisterOwnedConnection` | sdks/go/pkg/catena/connection_queue.go:106-138 | one event, with the refusals while shutting down and at the maximum |
| `StreamingQueue.ConnectionQueue.DeregisterConnection` | sdks/go/pkg/catena/connection_queue.go:142-151 | one event, harmless when repeated |
| `StreamingQueue.ConnectionQueue.NotifyUpdate` | sdks/go/pkg/catena/connection_queue.go:156-170 | one event, whatever order the map is ranged over in |
| `StreamingQueue.ConnectionQueue.BeginShutdown` | sdks/go/pkg/catena/connection_queue.go:183-199 | one event: the flag, and a waiter for every connection |
| `StreamingQueue.ConnectionQueue.BeginShutdownOwner` | sdks/go/pkg/catena/connection_queue.go:206-223 | one event: a waiter for every connection of the owner |
| `StreamingQueue.ConnectionQueue.EnterShutdownConnection` | sdks/go/pkg/catena/connection_queue.go:227-259 | one event: up to the first wait |
| `StreamingQueue.ConnectionQueue.WakeShutdownConnection` | sdks/go/pkg/catena/connection_queue.go:253-260 | one event: from one wait to the next |
| `StreamingQueue.ConnectionQueue.ForceClose` | sdks/go/pkg/catena/connection_queue.go:240-250 | one event: the watchdog |
| `ParamInfo.SortedKeys` | sdks/go/pkg/catena/param_info.go:205-209 | the keys of the map, strictly ascending |
| `ParamInfo.AscendingUnique` | sdks/go/pkg/catena/param_info.go:205-209 | there is one such arrangement, so map order does not matter |
| `ParamInfo.FlattenParamInfos` | sdks/go/pkg/catena/param_info.go:204-231 | computes the specified listing |
| `ParamInfo.FindParamDescriptor` | sdks/go/pkg/catena/param_info.go:233-255 | finds the descriptor the parts lead to, or nothing |
| `ParamInfo.ParamInfosForRequest` | sdks/go/pkg/catena/param_info.go:97-105 | the specified answer, with the leading solidus dropped and an error without params |
| `Requests.BeforeIff` | sdks/go/pkg/catena/param_info.go:205-209 | keys are ordered by the first character in which they differ |
| `Requests.FoundIff` | sdks/go/pkg/catena/param_info.go:233-255 | a descriptor is found exactly where the names lead to one |
| `Requests.WholeAnswered` | sdks/go/pkg/catena/param_info.go:257-260 | a request for everything has a line for each path of names that leads to a descriptor, in order, a plain one for the first level |
| `Requests.OidAnswered` | sdks/go/pkg/catena/param_info.go:262-275 | a plain request for an oid has its own line only, a recursive one that line and then one for each path below; both find it exactly if the names lead there |
| `ParamInfo.SlashedParts` | sdks/go/pkg/catena/param_info.go:238-238 | joining what was split gives the oid back |
| `ParamInfo.SubtreeListing` | sdks/go/pkg/catena/param_info.go:257-275 | a recursive request gives exactly the lines of the full listing at or below its oid, in order, and finds nothing exactly if there are none, if no listed name holds a solidus and nothing is listed below an empty name at the top |
| `ParamInfo.ListedOnce` | sdks/go/pkg/catena/param_info.go:204-231 | then no oid is listed twice |
| `ParamInfo.OidDeterminesPath` | sdks/go/pkg/catena/param_info.go:204-255 | where no oid is listed twice, an oid is listed for one path of names only |
| `ParamInfo.AgreeIff` | sdks/go/pkg/catena/param_info.go:204-275 | every request agrees with the listing and no oid is listed twice if and only if no listed name holds a solidus and nothing is listed below an empty name at the top |
| `ParamInfo.SlashedNameNotFound` | sdks/go/pkg/catena/param_info.go:233-255 | a single name with a solidus is listed and cannot be requested |
| `ParamInfo.AgreementAlone` | sdks/go/pkg/catena/param_info.go:204-275 | a device with such names on which every request agrees, but the empty oid is listed twice |
| `Subscriptions.TraverseParams` | sdks/cpp/common/src/ParamVisitor.cpp:37-91 | terminates on nested arrays and variants, and inserts exactly the readable params at or below the path that are not array elements |
| `Subscriptions.TraverseElements` | sdks/cpp/common/src/ParamVisitor.cpp:44-65 | the elements, all that is below each of them |
| `Subscriptions.TraverseSubParams` | sdks/cpp/common/src/ParamVisitor.cpp:67-90 | the sub-params by name |
| `Subscriptions.TraverseChild` | sdks/cpp/common/src/ParamVisitor.cpp:78-89 | inserts exactly what is below through the one step |
| `Subscriptions.EveryStep` | sdks/cpp/common/src/ParamVisitor.cpp:37-91 | no step to a readable param is missed, as long as array lengths fit 32 bits |
| `Subscriptions.EveryConformingStep` | sdks/cpp/common/src/ParamVisitor.cpp:37-91 | on a conforming device they do |
| `Subscriptions.TraverseTop` | sdks/cpp/common/src/SubscriptionManager.cpp:69-82 | all readable params of the device |
| `Subscriptions.Extend` | sdks/cpp/common/src/SubscriptionManager.cpp:51-82 | the set of a device grows by the oid, by what the wildcard's walk finds, or not at all with the error |
| `Subscriptions.SubscriptionManager.AddSubscription` | sdks/cpp/common/src/SubscriptionManager.cpp:35-84 | the status, the oids added to the device's slot, and that other slots stay |
| `Subscriptions.SubscriptionManager.RemoveSubscription` | sdks/cpp/common/src/SubscriptionManager.cpp:87-121 | a wildcard removes every oid that starts with its base, another oid itself; the error when there is none; other slots stay |
| `Subscriptions.Removed` | sdks/cpp/common/src/SubscriptionManager.cpp:98-118 | a wildcard takes away exactly what starts with its base, another oid itself and nothing else |
| `Subscribing.TakenIff` | sdks/cpp/common/src/SubscriptionManager.cpp:35-84 | one oid is taken if and only if a param can be read there and it is new, a wildcard if and only if its base can be read or is everything; the errors otherwise |
| `Subscribing.StandsFor` | sdks/cpp/common/src/SubscriptionManager.cpp:52-82 | a wildcard with a canonical base stands for exactly the canonical oids at and below it that could be subscribed to one by one and are not array elements |
| `Subscriptions.SubscriptionManager.IsSubscribed` | sdks/cpp/common/src/SubscriptionManager.cpp:134-137 | membership in the slot's set |
| `Spelling.PrefixIffCanonical` | sdks/cpp/common/src/SubscriptionManager.cpp:98-106 | a base starts the oids below it exactly if it is spelled canonically |
| `Subscriptions.AddThenRemove` | sdks/cpp/common/src/SubscriptionManager.cpp:35-121 | removing a wildcard leaves nothing that starts with its base and keeps everything else, and it takes away all that adding it inserted exactly if the base is canonical or adds nothing new below it |
| `Imports.ExpandsToItself` | tools/codegen/DeviceModel.js:106-114 | a tree without imports is its own expansion, so the second walk changes nothing |
| `Imports.NoneLeft` | tools/codegen/DeviceModel.js:94-116 | with param files that are not imports themselves an expansion has no import left |
| `Imports.ImportFreeLoadsIff` | tools/codegen/DeviceModel.js:71-116 | a file without imports loads exactly if its tables go no more than a hundred levels deep, and unchanged |
| `Imports.SecondWalk` | tools/codegen/DeviceModel.js:98-115 | an import that an imported file left is followed by the second walk, from the file at which it has arrived |
| `Imports.NoCyclicExpansion` | tools/codegen/DeviceModel.js:94-116 | whatever imports lead from it into a cycle of files, of any length and through params or commands, has no expansion of any depth |
| `Imports.CycleNeverLoads` | tools/codegen/DeviceModel.js:71-116 | and the loader never gets a result for it, whatever else the files are |
| `Imports.CleanBody` | tools/codegen/DeviceModel.js:71-116 | with param files that are not imports themselves, what a file becomes is its expansion, each import resolved against its own file, as far as the depth bound allows it |
| `Imports.LeftOverStays` | tools/codegen/DeviceModel.js:98-115 | an import is left exactly where the imported file consists of one |
| `Imports.Load` | tools/codegen/DeviceModel.js:71-86 | terminates for all files; returns exactly what the file becomes, an imported file being expanded where it stands and once more where it is imported, and throws exactly if there is no such thing |
| `Imports.Walk` | tools/codegen/DeviceModel.js:94-116 | the same for a table |
| `Imports.WalkEntry` | tools/codegen/DeviceModel.js:98-115 | the same for one entry, with its second walk |
| `Base64.LettersSpelled` | sdks/cpp/common/include/utils.h:50-51 | the alphabet of 64 letters |
| `Base64.StreamIsEncoding` | sdks/cpp/common/src/utils.cpp:91-110 | the padded stream of six-bit groups is the encoding of section 4 of RFC 4648, of length 4 * ceil(n / 3) |
| `Base64.WrapKeeps` | sdks/cpp/common/src/utils.cpp:96-96 | the overflow of the accumulator never reaches the bits that are looked at |
| `Base64.ToBase64` | sdks/cpp/common/src/utils.cpp:91-110 | gives the encoding of the standard for every input |
| `Base64.FromBase64` | sdks/cpp/common/src/utils.cpp:112-127 | gives the bytes of the six-bit groups up to the first padding, skipping what is not in the alphabet |
| `Base64.OctetsOfSextets` | sdks/cpp/common/src/utils.cpp:112-127 | regrouping the six-bit groups gives the bytes back |
| `Base64.DecodingEncoding` | sdks/cpp/common/src/utils.cpp:91-127 | decoding undoes encoding, for every byte string |
| `Base64.DecodingIgnores` | sdks/cpp/common/src/utils.cpp:112-127 | characters outside the alphabet do not matter wherever they stand, nor does anything behind the first padding |

## Left out

- BatchOutcome.AcceptedCommitsIff: for accepted batches without entries inside one another, which the overlap test ensures of canonical oids only; when an entry writes inside what another one writes, whether it still leads somewhere at its turn depends on the values before it.
- BatchOrder.AcceptedOrderIff: for the same batches, and those that commit.
- BatchConformance.BatchConformsIff: for the same batches.
- BatchProperties.DisjointTextsApart: for canonical oids; `Spelling.OverlapIffCanonical` says what the test sees of the others.
- StructInfo.FromProto: takes the old destination and gives the new one as values, and `StructInfo.ToProto` gives a fresh message; writing through the pointer into the device is in `DeviceModel.ParamWithValue.FromProto`. Aliasing of source and destination is not captured.
- Subscriptions.SubscriptionManager.AddSubscription: the arrays of the device are short enough for the 32-bit length of the traversal, which their maximum lengths ensure; for `/*` the names of the top-level params are words, as the code generator declares a C++ variable by each of them (tools/codegen/cpp/param.js:414-419).
- Subscriptions.TraverseTop: the same.
- Imports.Load: the parsed files are values, so one file object shared by two imports is not captured; which of the errors is thrown is stated for an invalid file only.
- ParamInfo.FlattenParamInfos: the name, type, template and length of a line are those of its descriptor and not modelled further.
- StreamingQueue.RunKeeps: the id counter does not overflow.
- Constraints.ApplyFloatIsNearest: floats are exact reals; rounding of IEEE arithmetic, NaN and the tolerance at the last bit are left out.
- Constraints.ApplyIntInRange: the difference of a value and the minimum does not overflow 32 bits, where the C++ behaviour is undefined.
- Constraints.ApplyIntIsGreatestGridPoint: likewise no overflow of that difference.
- Constraints.ApplyIntMonotone: likewise no overflow of that difference.
- Constraints.SatisfiedIffFixed: likewise no overflow of that difference.
- Constraints.ApplyIntTwice: likewise no overflow of that difference.
- Constraints.ApplyIntOnceIff: likewise no overflow of that difference.
- Navigation through `EmptyValue` templates, commands and their coroutines, language packs and menus.
- Messages of exceptions, logging, signals to listeners and push updates of the C++ server.
- Sockets, HTTP, gRPC, files, JSON and protobuf encoding, token decoding; authorisation is a set of scopes.
- Mutexes of the C++ SDK: device and subscription operations are sequential, as their callers hold the lock.
- The validator of the code generator and the rules of URLs are parameters of `Imports.World`.
