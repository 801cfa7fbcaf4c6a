# A verified model of the JSON engine and the test execution framework

The repository is a hardware validation framework.  This project models the two parts in which most of its logic lies,
and proves what they promise.

**The JSON engine** (cJSON and cJSON_Utils, which every configuration loader uses).  Items are the datatype
`JsonTree.Json`, with members as an ordered list; `Sem` gives the abstract value in which member order does not matter.
On it stand JSON Pointer, JSON Patch, JSON Merge Patch, the mergesort, both comparisons, the printer over a growing
buffer, the recursive-descent parser with its two-scan string literals, and the doubly linked child list.

**The test execution framework**: the resource manager, the scheduler's pending list, the queues of the engine and of the
logger, the join that decides which tests are available, and the GPIO configuration from file to driver.

Code that works step by step is written as methods and classes over the same state (arrays, indices, links, offset and
depth), each proved to compute a specification function; the properties are lemmas about those functions.  Calls that the
program serialises with a lock are atomic steps, and the properties hold for every interleaving of them.  Failures of
libgpiod are nondeterministic.  Characters stand for bytes.

| module | what it models |
|---|---|
| `CString`, `JsonTree`, `MergeSort` | key comparison, items and their meaning, sorting of members |
| `Compare`, `JsonPointer`, `MergePatch`, `PatchApply`, `PatchGenerate`, `PatchRoundTrip`, `PatchChanges`, `PatchOperations` | cJSON_Utils, on values |
| `ListTail`, `LinkedTree`, `PatchDocument` | documents with the tails of their member lists, sorted by tests |
| `StringLiteral`, `LiteralPieces`, `Printer`, `PrintLayout`, `Parser`, `JsonGrammar`, `NumberTokens`, `PrintParse` | printing and parsing |
| `ParseBuffer`, `PrintBuffer` | both over their buffers |
| `ChildList`, `SortList` | child lists and their sorting, in place |
| `FunctionTable`, `ResourceManager`, `Scheduler`, `Queues`, `Availability` | the framework's services |
| `GpioConfig`, `GpioDriver` | GPIO configuration and driver |

Verify with `dafny verify dfyconfig.toml`.

Where code and promise differ, the model follows the code, and a lemma gives the exact condition:

- JSON Patch round trip: `PatchExactly` (keys), `AddedKeyExact`, `CaseTwinsFail`; per pair, `PatchRoundTrip` (depth)
- merge patch round trip: `RoundTripExactly` (keys), `OutOfOrderLost`, `TwinLost`; per pair, `MergePatchRoundTrip` (depth, null members)
- patches after a test: `TestThenAdd`, `AddLost`
- printing and parsing: `PrintThenParse` (nesting)
- distinct resource names: `RunDistinct`, `LongNamesCollide`
- nothing logged is lost: `DrainsExactly`, `LateMessageLost`
- the parameter table is not overrun: `OverrunExactly`
- the chip of each GPIO line: `ChipsSurvive`, `BlankFirstChip`

## Model

| member | source | states |
|---|---|---|
| `PatchRoundTrip.PatchRoundTrip` | third-party/--/cJSON-1.7.19/cJSON_Utils.c:1141-1279 | Section 4 of RFC 6902: all patches generated for `from` and `to` apply with status 0 to any copy of `from` (members in any order) and the result equals `to` up to member order, if and only if every value that the patches hold (what `to` has where `from` has nothing of its kind) nests at most 10000 deep. Holds in every mix of case modes of generation and application, for array indices below 2^64 and distinct keys that stay distinct when case is folded and that survive the in-place decoder; this includes all lower-case keys without `~` and `/` |
| `PatchRoundTrip.PatchExactly` | third-party/--/cJSON-1.7.19/cJSON_Utils.c:1141-1279 | In every mix of case modes, all pairs over a set of keys that need no deeper copy make the round trip if and only if these keys stay distinct when case is folded and each of them survives the in-place decoder |
| `PatchRoundTrip.ShallowCopyable` | third-party/--/cJSON-1.7.19/cJSON_Utils.c:1096-1134 | No copy is too deep when the target itself nests at most 10000 deep |
| `PatchRoundTrip.DeepPatch` | third-party/--/cJSON-1.7.19/cJSON_Utils.c:1096-1279 | Otherwise one of the generated patches lacks its value, and no document accepts it |
| `PatchRoundTrip.PatchesApply` | third-party/--/cJSON-1.7.19/cJSON_Utils.c:1141-1279 | The step behind it: patches generated for one part of a document, applied to the whole document, change exactly that part into its target and nothing else |
| `PatchRoundTrip.PatchesEmpty` | third-party/--/cJSON-1.7.19/cJSON_Utils.c:1141-1279 | No patch is generated if and only if both items denote the same value up to member order |
| `PatchChanges.PatchesNeeded` | third-party/--/cJSON-1.7.19/cJSON_Utils.c:1096-1279 | Every generated patch is needed: it names a place that both values have and at which they differ, and changes no more than the difference there: another kind or scalar is replaced, the surplus of an array removed or appended, a key removed or added; what it adds is what `to` has there |
| `PatchRoundTrip.AddedKeyExact` | third-party/--/cJSON-1.7.19/cJSON_Utils.c:359-390 | Why keys are restricted: a generated patch that adds a member with key k always applies with status 0, and gives the target if and only if k contains no `/` and every character before an escape still stands where the decoder leaves it |
| `PatchRoundTrip.CaseTwinsFail` | third-party/--/cJSON-1.7.19/cJSON_Utils.c:430-481 | Two keys that differ only in case defeat the round trip in every mix of case modes: `detach_path` looks members up ignoring case, so the patch applies with status 0 and leaves the wrong member |
| `PatchApply.DecodePointerInPlace` | third-party/--/cJSON-1.7.19/cJSON_Utils.c:359-390 | The array loop of `decode_pointer_inplace` leaves exactly the characters of the specification `DecodeFrom`, with `~1` written one place too far, as the source does |
| `PatchApply.DecodeExact` | third-party/--/cJSON-1.7.19/cJSON_Utils.c:359-390 | Decoding in place undoes encoding if and only if the key survives |
| `PatchApply.StopsAtBadEscape` | third-party/--/cJSON-1.7.19/cJSON_Utils.c:359-390 | At any other escape the decoder gives up: the token keeps its length, and its end from there on |
| `PatchDocument.Document.ApplyPatches` | third-party/--/cJSON-1.7.19/cJSON_Utils.c:1038-1094 | A patch document that is no array is refused with 1 and changes nothing; otherwise patches apply one after the other, up to the first failure, with its status, on a document whose member lists have the tails that the program gives them; excluded are runs that would append behind an item that is gone |
| `PatchDocument.StepOnWhole` | third-party/--/cJSON-1.7.19/cJSON_Utils.c:807-1036 | On a document whose member lists all end at the `prev` of their first child, one patch has the status and the result that it has on the value of the document; only a test can leave the document otherwise |
| `PatchDocument.RunOnWhole` | third-party/--/cJSON-1.7.19/cJSON_Utils.c:1038-1094 | So does a run of patches, as long as the document stays like that, and without tests it does (`NoTests`) |
| `PatchDocument.RoundTrip` | third-party/--/cJSON-1.7.19/cJSON_Utils.c:1038-1279 | The round trip of generated patches holds on documents with their lists, under the same exact condition: generated patches contain no test |
| `PatchDocument.AddErases` | third-party/--/cJSON-1.7.19/cJSON_Utils.c:960-1035 | On any document, adding at a path does what it does to the value of the document if and only if the list that is appended to ends at its tail |
| `PatchDocument.TestThenAdd` | third-party/--/cJSON-1.7.19/cJSON_Utils.c:831-835 | A test sorts the object it compares in place. A member added to that object afterwards is there, with all others, if and only if the first and the last member had the least and the greatest key already, or the added key is its greatest key and replaced |
| `PatchDocument.AddLost` | third-party/--/cJSON-1.7.19/cJSON_Utils.c:831-835 | If the first member has not the least key, the list has no tail after the test: adding a new key returns 0 and adds nothing |
| `PatchDocument.AddLostExample` | third-party/--/cJSON-1.7.19/cJSON_Utils.c:831-835 | The smallest such run: testing the document b: 1, a: 2 against an equal object and then adding c returns 0 and leaves c out |
| `PatchDocument.TestOfTidy` | third-party/--/cJSON-1.7.19/cJSON_Utils.c:831-835 | A test of a document whose objects list their members in strictly ascending order changes nothing at all |
| `PatchOperations.AddExact` | third-party/--/cJSON-1.7.19/cJSON_Utils.c:940-1035 | Section 4.1 of RFC 6902 at a container of the document: the value is inserted, appended or set as a member; status 10 and no change for an index greater than the number of elements, status 8 for a value too deep to copy |
| `PatchOperations.RemoveExact` | third-party/--/cJSON-1.7.19/cJSON_Utils.c:887-903 | Section 4.2: the child is taken out, or status 13 and no change when there is none |
| `PatchOperations.ReplaceExact` | third-party/--/cJSON-1.7.19/cJSON_Utils.c:887-1035 | Section 4.3: the child is replaced in its place, or status 13 and no change when there is none; a value too deep to copy gives status 8 and has cost the child |
| `PatchOperations.MoveExact` | third-party/--/cJSON-1.7.19/cJSON_Utils.c:906-1035 | Section 4.4: the value taken out is put into what is left, at its place there; status 5 and no change when there is nothing to take, status 10 with the value lost when there is no such place |
| `PatchOperations.CopyExact` | third-party/--/cJSON-1.7.19/cJSON_Utils.c:906-1035 | Section 4.5: a copy of the value is put at the place; status 6 for a value too deep to copy |
| `PatchOperations.TestExact` | third-party/--/cJSON-1.7.19/cJSON_Utils.c:831-835 | Section 4.6: status 0 if and only if there is a value at the path and it equals the given one up to member order, otherwise 1; the document keeps its meaning, although the compared members are sorted in place |
| `PatchOperations.RootExact` | third-party/--/cJSON-1.7.19/cJSON_Utils.c:839-884 | Add and replace at the empty path make a copy of the value the document, or give status 8 for a value too deep to copy; remove there leaves an invalid item |
| `PatchOperations.MissingExact` | third-party/--/cJSON-1.7.19/cJSON_Utils.c:887-1035 | Where a path leads to no container, remove and replace give status 13, add gives 9 (or 8 for a value too deep to copy), and nothing changes |
| `PatchOperations.MoveLost` | third-party/--/cJSON-1.7.19/cJSON_Utils.c:906-1035 | A move whose target has no container gives status 9 after the value was taken out, so it is lost |
| `PatchOperations.CopyMissing` | third-party/--/cJSON-1.7.19/cJSON_Utils.c:906-1035 | A copy whose target has no container gives status 9 (or 6 for a value too deep to copy), and nothing changes |
| `PatchOperations.NoIndexRefused` | third-party/--/cJSON-1.7.19/cJSON_Utils.c:887-1001 | A token that is no index and not `-`: status 11 when added to an array, 13 when removed or replaced in it, and nothing changes |
| `PatchOperations.SlashFreeRefused` | third-party/--/cJSON-1.7.19/cJSON_Utils.c:887-980 | A path without a slash: status 9 for add (8 for a value too deep to copy), 13 for remove and replace, and nothing changes |
| `PatchOperations.MalformedRefused` | third-party/--/cJSON-1.7.19/cJSON_Utils.c:817-829 | A patch without a string as its path gives status 2, another word than the six operations of RFC 6902 gives 3, and nothing changes |
| `PatchOperations.FromRefused` | third-party/--/cJSON-1.7.19/cJSON_Utils.c:906-930 | A move or copy without a "from" gives status 4 (5 for one that is no string), and nothing changes |
| `PatchOperations.ValueMissing` | third-party/--/cJSON-1.7.19/cJSON_Utils.c:831-949 | Without a "value", test gives 1 and add gives 7 without a change; replace gives 7 after it has removed the old value |
| `PatchOperations.GetItemExact` | third-party/--/cJSON-1.7.19/cJSON_Utils.c:730-740 | The members of a patch are found under their keys in any order, whatever other members it has, in either case mode, for keys that stay distinct when case is folded |
| `PatchGenerate.PatchArray.CreatePatches` | third-party/--/cJSON-1.7.19/cJSON_Utils.c:1141-1279 | The loops over arrays and sorted members append exactly the patches of the specification `Patches`, behind those already in the array |
| `PrintParse.PrintThenParse` | third-party/cjson-1.7.19/cJSON.c:1363-1881 | Parsing the formatted or unformatted text of an item gives back the same item with the same member order, if and only if its arrays and objects nest at most 1000 deep; otherwise the parser refuses it |
| `PrintParse.ParseThenPrint` | third-party/cjson-1.7.19/cJSON.c:1142-1881 | The other way round, for texts in which every number is an int (written in any decimal form, within the range of `int`): the item that the parser returns holds these numbers as they are written, can be printed, formatted or not, and parsing that text gives the item again |
| `NumberTokens.NumbersAsWritten` | third-party/cjson-1.7.19/cJSON.c:307-408 | The part about numbers: found by a scan that only knows string literals, the numbers of such a text are those of the item, in order, neither truncated nor saturated |
| `PrintParse.ParsedValue` | third-party/cjson-1.7.19/cJSON.c:1363-1415 | What the parser returns for any text holds no NUL in strings and nests within the limit; its numbers are the ints of `valueint`, which is all there is of them for the texts of `ParseThenPrint` |
| `PrintParse.ParsePrinted` | third-party/cjson-1.7.19/cJSON.c:1363-1415 | The same inside any text and any number of open containers: the parser consumes exactly the printed characters |
| `PrintParse.ParsePrintedMembers` | third-party/cjson-1.7.19/cJSON.c:1652-1767 | The printed members of an object, with their indentation and commas, are read back in order up to the closing brace |
| `PrintParse.StrtodInt` | third-party/cjson-1.7.19/cJSON.c:307-408 | A printed int is read back as the same int, using all its characters |
| `MergePatch.MergePatchRoundTrip` | third-party/--/cJSON-1.7.19/cJSON_Utils.c:1391-1471 | For keys that `strcmp` and the case-insensitive comparison order alike: a generated patch always merges into any copy of `from`, and the merge gives `to` (or no patch is generated for two equal objects) if and only if the pair is expressible (every null member of `to` outside arrays is already in `from`, unchanged) and every value that the patch holds nests at most 10000 deep |
| `MergePatch.RoundTripExactly` | third-party/--/cJSON-1.7.19/cJSON_Utils.c:1391-1471 | In either case mode, all expressible pairs over a set of keys that need no deeper copy make this round trip if and only if `strcmp` and the case-insensitive comparison order these keys alike |
| `MergePatch.LowerKeysOrdered` | third-party/--/cJSON-1.7.19/cJSON_Utils.c:1391-1471 | All sets of lower-case keys are among them |
| `MergePatch.MergeIsRfc` | third-party/--/cJSON-1.7.19/cJSON_Utils.c:1321-1379 | `merge_patch` computes the merge of section 2 of RFC 7396 on abstract values, whatever the member order, and fails exactly when a value it must copy nests too deep for `cJSON_Duplicate` |
| `MergePatch.GenerateDescribes` | third-party/--/cJSON-1.7.19/cJSON_Utils.c:1391-1471 | For keys that both comparisons order alike and values that can be copied, the generated patch denotes the difference of both items, in either case mode, and there is none only for two equal objects |
| `MergePatch.WalkChanges` | third-party/--/cJSON-1.7.19/cJSON_Utils.c:1414-1462 | Walking two lists in the order of `strcmp` treats every key by itself: null for a removed member, a copy for a new one, an inner patch for a changed one, nothing for an equal one or a failed copy |
| `MergePatch.GenerateSound` | third-party/--/cJSON-1.7.19/cJSON_Utils.c:1391-1471 | Every generated patch is one that merging accepts, also when copies failed |
| `MergePatch.NotMergeableLost` | third-party/--/cJSON-1.7.19/cJSON_Utils.c:1391-1471 | When a copy fails, the patch is missing or merging it does not give `to` |
| `MergePatch.ShallowMergeable` | third-party/--/cJSON-1.7.19/cJSON_Utils.c:1391-1471 | No copy fails when the target itself nests at most 10000 deep |
| `MergePatch.DiffThenMerge` | third-party/--/cJSON-1.7.19/cJSON_Utils.c:1391-1471 | The RFC merge of the difference gives the target exactly for the expressible pairs |
| `MergePatch.NoNullsExpressible` | third-party/--/cJSON-1.7.19/cJSON_Utils.c:1391-1471 | A target without null members outside arrays is always expressible |
| `MergePatch.OutOfOrderLost` | third-party/--/cJSON-1.7.19/cJSON_Utils.c:1391-1471 | For any two keys x and y that the comparisons order differently, the pair {x: {y, x}} to {x: {y}} is lost: the lists are sorted ignoring case but walked with `strcmp`, so the patch adds y and then removes it, and merging leaves an empty object. Not so for keys that differ only in case when case is ignored |
| `MergePatch.TwinLost` | third-party/--/cJSON-1.7.19/cJSON_Utils.c:1391-1471 | That remaining case: the comparison and the generation both sort the two keys, which restores their order, so the patch only removes x; merging removes y instead, the first of both |
| `MergePatch.MergePatch` | third-party/--/cJSON-1.7.19/cJSON_Utils.c:1321-1379 | The loop of `merge_patch` over the patch members computes the specification `Merge`, failures included |
| `MergePatch.GenerateMergePatch` | third-party/--/cJSON-1.7.19/cJSON_Utils.c:1391-1471 | The lockstep loop of `generate_merge_patch` computes the specification `Generate`, in which inner patches are made of values as the comparison has sorted them |
| `MergePatch.DuplicateExact` | third-party/cjson-1.7.19/cJSON.c:2769-2857 | A recursive copy is the same item, and fails exactly when it nests beyond the limit of 10000 |
| `PrintBuffer.PrintPreallocated` | third-party/cjson-1.7.19/cJSON.c:1343-1360 | Printing into a caller's buffer succeeds if and only if every item has a known type and the buffer holds the text and two more characters; it then starts with the text and a NUL |
| `PrintBuffer.PrintBuffered` | third-party/cjson-1.7.19/cJSON.c:1312-1341 | Every non-negative starting size gives the same text, whenever it and two more characters stay within the largest int |
| `PrintBuffer.PrintText` | third-party/cjson-1.7.19/cJSON.c:1234-1299 | `cJSON_Print` and `cJSON_PrintUnformatted` return the text of the pure printer, with the same exact bound |
| `PrintBuffer.Buffer.Ensure` | third-party/cjson-1.7.19/cJSON.c:485-568 | Space is granted if and only if it and one more character fit the limit; text, offset and depth stay, also when the buffer moves |
| `PrintBuffer.Buffer.UpdateOffset` | third-party/cjson-1.7.19/cJSON.c:571-581 | The offset moves to the NUL behind the last text written |
| `PrintBuffer.Buffer.PrintValue` | third-party/cjson-1.7.19/cJSON.c:1418-1489 | Behind the text so far stands the text of the pure printer; success if and only if all types are known and two more characters fit; every write stays inside what `Ensure` reserved |
| `PrintBuffer.Buffer.PrintString` | third-party/cjson-1.7.19/cJSON.c:949-1068 | The two loops of `print_string_ptr` reserve and write exactly the quoted and escaped string |
| `PrintBuffer.Buffer.PrintArray` | third-party/cjson-1.7.19/cJSON.c:1590-1649 | Brackets, elements and separators as in the pure printer; the depth is restored |
| `PrintBuffer.Buffer.PrintObject` | third-party/cjson-1.7.19/cJSON.c:1770-1881 | Braces, indented lines, keys and commas as in the pure printer; the depth is restored |
| `PrintLayout.ArrayLayout` | third-party/cjson-1.7.19/cJSON.c:1590-1649 | The text of an array: the texts of its elements between brackets, joined by a comma, and a space when formatted |
| `PrintLayout.ObjectLayout` | third-party/cjson-1.7.19/cJSON.c:1770-1881 | The text of an object: unformatted, its pairs joined by commas between braces; formatted, one line for each member, indented by its depth, with a tab behind the colon |
| `PrintLayout.IntLayout` | third-party/cjson-1.7.19/cJSON.c:591-659 | The text of a number: its sign and decimal digits, without leading zeros |
| `PrintLayout.EscapeIsPiece` | third-party/cjson-1.7.19/cJSON.c:949-1068 | What is written for a character is a JSON escape, or the character itself where section 7 of RFC 8259 allows it, and denotes that character |
| `PrintLayout.EscapeShortest` | third-party/cjson-1.7.19/cJSON.c:949-1068 | No shorter piece of a literal denotes that character |
| `ChildList.Parent.Append` | third-party/cjson-1.7.19/cJSON.c:2012-2043 | Whatever child the `prev` of the first one is: the item becomes the last child behind it, cutting off the children after it, or is not appended when there is none; so in a list that ends there the item becomes the last child, and the list stays like that |
| `ChildList.Parent.Insert` | third-party/cjson-1.7.19/cJSON.c:2319-2350 | The item is put before position `which`, behind the last child when there is none there; the links stay consistent |
| `ChildList.Parent.Detach` | third-party/cjson-1.7.19/cJSON.c:2243-2276 | Exactly the given child leaves the list, with its own links cleared; an item of no list changes nothing; what the `prev` of the first child is afterwards is `DetachTail` of what it was |
| `ChildList.Parent.DetachAt` | third-party/cjson-1.7.19/cJSON.c:2279-2286 | Detaching by position removes exactly that child, or nothing outside the list |
| `ChildList.Parent.Replace` | third-party/cjson-1.7.19/cJSON.c:2353-2399 | The replacement stands exactly where the item stood; the item's links are cleared; replacing by itself changes nothing |
| `ChildList.Parent.GetItem` | third-party/cjson-1.7.19/cJSON.c:1907-1923 | The walk along `next` finds the child at an index, or nothing behind the end |
| `SortList.SortItems` | third-party/--/cJSON-1.7.19/cJSON_Utils.c:484-593 | The relinked nodes are, in order, those of the mergesort `Sort`: a permutation of the same nodes, every `prev` of a non-head node its predecessor, the last `next` null; a head that was the head keeps its `prev`, another one has none; both halves are shorter, so it ends |
| `SortList.SortObject` | third-party/--/cJSON-1.7.19/cJSON_Utils.c:595-602 | The children are sorted, and the `prev` of the first one is what `SortedTail` says: the same child as before if the first child stays first, otherwise none |
| `LinkedTree.WholeSorted` | third-party/--/cJSON-1.7.19/cJSON_Utils.c:595-602 | Sorting members with distinct keys keeps the end of the list where appending looks for it if and only if the first and the last member have the least and the greatest key; there is nothing to append to if and only if the first one has not |
| `LinkedTree.SortedErases` | third-party/--/cJSON-1.7.19/cJSON_Utils.c:595-602 | Sorting members together with their tail orders them as sorting their values does |
| `SortList.Middle` | third-party/--/cJSON-1.7.19/cJSON_Utils.c:509-521 | The two-pointer walk stops at the first node of the second half; neither half is empty |
| `SortList.MergeLists` | third-party/--/cJSON-1.7.19/cJSON_Utils.c:532-592 | The merging loop relinks two disjoint lists into their merge, the second list winning ties |
| `MergeSort.SortOrdered` | third-party/--/cJSON-1.7.19/cJSON_Utils.c:484-593 | The result is ordered by key, for every list and key function |
| `MergeSort.SortMembersSound` | third-party/--/cJSON-1.7.19/cJSON_Utils.c:595-602 | Sorting an object keeps its members and its meaning and orders distinct keys strictly |
| `CString.CompareStrings` | third-party/--/cJSON-1.7.19/cJSON_Utils.c:83-110 | The byte loop decides equality and order of two keys, folding case when asked to |
| `Compare.ComparisonsAgree` | third-party/--/cJSON-1.7.19/cJSON_Utils.c:604-690 | The sorting comparison and the looking-up comparison of `cJSON_Compare` agree on all items with distinct keys and known types, in both case modes, and both decide equality up to member order |
| `Compare.CompareJsonDecides` | third-party/--/cJSON-1.7.19/cJSON_Utils.c:604-690 | `compare_json` holds if and only if both items denote the same value up to member order |
| `Compare.CompareLookupDecides` | third-party/cjson-1.7.19/cJSON.c:3057-3180 | The two-way lookup holds if and only if both items denote the same value up to member order |
| `Compare.CompareJsonWalk` | third-party/--/cJSON-1.7.19/cJSON_Utils.c:604-690 | The lockstep walk computes `CompareJson`, and leaves both arguments as `Walked` says: objects sorted up to the first difference |
| `Compare.WalkedKeeps` | third-party/--/cJSON-1.7.19/cJSON_Utils.c:604-690 | What is left has the same keys and the same meaning |
| `JsonPointer.PointerRoundTrip` | third-party/--/cJSON-1.7.19/cJSON_Utils.c:198-346 | Sections 3 and 4 of RFC 6901: a pointer is found exactly for the nodes of the tree, and following it leads back to that very node, for all keys including empty ones and ones with `~` or `/` |
| `JsonPointer.FindPointerSpells` | third-party/--/cJSON-1.7.19/cJSON_Utils.c:198-259 | The depth-first search spells the steps from the root to the node, and finds nothing outside the tree |
| `JsonPointer.LocatePath` | third-party/--/cJSON-1.7.19/cJSON_Utils.c:301-346 | Following the text of any path arrives where its steps lead, and nowhere when they lead nowhere, if arrays meet indices and objects keys |
| `JsonPointer.EncodedMatches` | third-party/--/cJSON-1.7.19/cJSON_Utils.c:120-195 | An encoded token matches a key if and only if both keys are equal in the case mode |
| `JsonPointer.ComparePointers` | third-party/--/cJSON-1.7.19/cJSON_Utils.c:120-154 | The loop of `compare_pointers` decides `TokenMatches` |
| `JsonPointer.DecodeDecimal` | third-party/--/cJSON-1.7.19/cJSON_Utils.c:274-299 | The decimal text of an index below 2^64 is decoded to that index, whatever token follows |
| `JsonPointer.DecodeIndexExact` | third-party/--/cJSON-1.7.19/cJSON_Utils.c:274-299 | In both directions: exactly tokens made of digits without a leading zero denote an index, their number modulo 2^64; the empty token denotes 0 |
| `JsonPointer.TokenMatchesExact` | third-party/--/cJSON-1.7.19/cJSON_Utils.c:120-154 | Section 4 of RFC 6901 for any token: it matches exactly the keys equal, in the case mode, to what replacing `~1` and then `~0` makes of it; with any other escape it matches none |
| `JsonPointer.EncodeUnescaped` | third-party/--/cJSON-1.7.19/cJSON_Utils.c:173-195 | These replacements undo the encoding of every key |
| `JsonPointer.LocateExact` | third-party/--/cJSON-1.7.19/cJSON_Utils.c:301-346 | For any pointer, whatever its tokens: a node is found if and only if each token names a child of the node before, an element by its index or the first member whose key it denotes |
| `JsonPointer.GetItemFromPointer` | third-party/--/cJSON-1.7.19/cJSON_Utils.c:301-346 | The loop over tokens computes `Locate` |
| `StringLiteral.OutputFits` | third-party/cjson-1.7.19/cJSON.c:819-946 | What the second scan writes, with its NUL, never exceeds what the first scan allocated, also when a short escape lets both scans fall out of step |
| `StringLiteral.ScansAgree` | third-party/cjson-1.7.19/cJSON.c:819-946 | When every backslash-u has four hex digits, the second scan ends exactly at the closing quote that the first one found |
| `StringLiteral.Utf16LiteralDenotes` | third-party/cjson-1.7.19/cJSON.c:698-816 | Section 7 of RFC 8259: an escape or a surrogate pair becomes the UTF-8 encoding of its code point; any other surrogate is refused |
| `StringLiteral.Utf8RoundTrip` | third-party/cjson-1.7.19/cJSON.c:761-809 | Section 3 of RFC 3629: decoding the bytes written for a code point gives that code point |
| `StringLiteral.UnescapeEscape` | third-party/cjson-1.7.19/cJSON.c:819-1068 | Reading an escaped string back gives the string, for every string without NUL |
| `LiteralPieces.LiteralDenotes` | third-party/cjson-1.7.19/cJSON.c:819-946 | Section 7 of RFC 8259 for whole literals: any sequence of plain characters, the eight two-character escapes, four-digit escapes and surrogate pairs between quotes denotes the concatenation of what each denotes, up to its first NUL, and the parser stops behind the closing quote |
| `LiteralPieces.LiteralRefused` | third-party/cjson-1.7.19/cJSON.c:819-946 | Behind such pieces, any other escape, one cut short by the end, or a surrogate that is not part of a pair makes the literal refused |
| `LiteralPieces.UnterminatedRefused` | third-party/cjson-1.7.19/cJSON.c:833-854 | A literal whose end the first scan does not find is refused |
| `LiteralPieces.IncompleteHexIsNul` | third-party/cjson-1.7.19/cJSON.c:661-696 | Where the four digits are not all hexadecimal, the escape is read as a NUL instead of being refused |
| `LiteralPieces.Utf8Layout` | third-party/cjson-1.7.19/cJSON.c:761-809 | The bytes written for each range of code points, bit field by bit field as in section 3 of RFC 3629 |
| `Parser.ParseValue` | third-party/cjson-1.7.19/cJSON.c:1363-1415 | A successful parse strictly advances and stays inside the text; the recursion ends on every input |
| `JsonGrammar.ParseValueExact` | third-party/cjson-1.7.19/cJSON.c:1363-1767 | The parser as a grammar: at any place in any text, it delivers a value and stops at a place if and only if the text between spells this value, with blanks (any character up to the space) between its parts, and it nests within the 1000 levels |
| `JsonGrammar.ParseExact` | third-party/cjson-1.7.19/cJSON.c:1085-1219 | For every text: the entry point returns an item if and only if the text, behind a byte order mark and blanks, spells it within 1000 levels, and only blanks follow where a terminated text is demanded; all else is refused |
| `NumberTokens.NumberDenotes` | third-party/cjson-1.7.19/cJSON.c:307-380 | A sign, digits and a fraction denote the decimal number that they spell |
| `NumberTokens.ScientificDenotes` | third-party/cjson-1.7.19/cJSON.c:307-380 | So do they with an exponent behind them |
| `NumberTokens.NumberTruncated` | third-party/cjson-1.7.19/cJSON.c:380-408 | The int of a number is its integer part, saturated to the range of an int |
| `ParseBuffer.Buffer.ParseValue` | third-party/cjson-1.7.19/cJSON.c:1363-1415 | On every input, the parser over offset and depth delivers what the pure parser does; the offset never passes the length, the depth never exceeds the nesting limit and is restored on success |
| `ParseBuffer.Buffer.SkipWhitespace` | third-party/cjson-1.7.19/cJSON.c:1085-1108 | Skipping whitespace, with its step back at the end, keeps the offset inside the text |
| `ParseBuffer.Buffer.SecondScan` | third-party/cjson-1.7.19/cJSON.c:856-921 | Every byte written by the second scan lies inside the allocated output, which then holds the unescaped characters |
| `ParseBuffer.Buffer.ParseString` | third-party/cjson-1.7.19/cJSON.c:819-946 | Both scans together deliver the string and leave the offset behind the closing quote |
| `ParseBuffer.Buffer.ParseArray` | third-party/cjson-1.7.19/cJSON.c:1492-1587 | The element loop delivers the elements; depth and offset as above |
| `ParseBuffer.Buffer.ParseObject` | third-party/cjson-1.7.19/cJSON.c:1652-1767 | The member loop delivers the members; depth and offset as above |
| `ParseBuffer.Buffer.Parse` | third-party/cjson-1.7.19/cJSON.c:1142-1219 | The entry point computes the pure parser, with the byte order mark and the demand for a terminating NUL |
| `ResourceManager.RunConsistent` | src/services/resource-manager.c:109-298 | Over every interleaving of register, acquire and release, from any consistent table: BUSY means owned, names are distinct and the table is not overrun, if and only if no registration stores a name that is already there (one that is new, but not when cut to 63 bytes) |
| `ResourceManager.RunOwned` | src/services/resource-manager.c:109-298 | For all names whatsoever, a resource is BUSY exactly when it has an owner, over every interleaving |
| `ResourceManager.RunDistinct` | src/services/resource-manager.c:109-143 | Over every interleaving, names stay distinct if and only if no registration stores a name that is already there; the condition depends on the registered names alone |
| `ResourceManager.ShortNamesClear` | src/services/resource-manager.c:109-143 | Names below 64 bytes always meet that condition |
| `ResourceManager.RegisterExact` | src/services/resource-manager.c:109-143 | One registration keeps the table consistent if and only if it is refused or its name, cut to 63 bytes, is new |
| `ResourceManager.RegisterStatus` | src/services/resource-manager.c:109-143 | Status 0 and one more free resource, under the name cut to 63 bytes, if there is room and the name is not there; -1 and no change otherwise |
| `ResourceManager.LongNamesCollide` | src/services/resource-manager.c:109-143 | Registering two names from an empty table keeps it consistent if and only if they are not cut to the same name, or the second one is what is stored of the first |
| `ResourceManager.AcquireAllOrNothing` | src/services/resource-manager.c:194-253 | For all names: acquire takes all devices of an available function if and only if all are free, and otherwise changes nothing; for an unavailable function, and without any registered resource, it takes nothing and still reports 0 |
| `ResourceManager.IsAvailableExact` | src/services/resource-manager.c:145-192 | True if and only if the first function of the name is available and, where anything is registered, the first resource named like each of its devices is there and free |
| `ResourceManager.AvailableToAcquire` | src/services/resource-manager.c:145-253 | The query is true if and only if the function is available and acquiring it at once would report success |
| `ResourceManager.OthersKeep` | src/services/resource-manager.c:194-298 | No step takes or frees a resource of another instance |
| `ResourceManager.OthersKeepAll` | src/services/resource-manager.c:194-298 | Nor does any run of steps of others, for all names, and none makes a resource the instance's own |
| `ResourceManager.AcquireThenRelease` | src/services/resource-manager.c:194-298 | For all names: after acquire, any steps of other instances, and release, exactly what was taken is as it was before, and nothing else changed in the release |
| `ResourceManager.Manager.Acquire` | src/services/resource-manager.c:194-253 | The checking and marking loops produce the table and status of `AfterAcquire` |
| `ResourceManager.Manager.Release` | src/services/resource-manager.c:255-298 | The releasing loops produce the table of `AfterRelease` |
| `ResourceManager.Manager.Register` | src/services/resource-manager.c:109-143 | Registering appends a free resource, or refuses a full table or a known name |
| `ResourceManager.Manager.CheckAvailable` | src/services/resource-manager.c:145-192 | True exactly when the function is available and no registered table lacks or has busy one of its devices |
| `FunctionTable.GetDeviceByIndex` | src/services/function-manager.c:179-192 | The lookup gives the device at that index of the first function of that name whose list is long enough, available or not, and nothing if there is none |
| `FunctionTable.DevicesByIndex` | src/services/function-manager.c:153-192 | With distinct function names these are exactly the devices of the function of that name |
| `FunctionTable.DevicesOfExact` | src/services/function-manager.c:153-177 | The devices of a function are those of the first one of its name, if that one is available, and none otherwise |
| `Scheduler.Scheduler.GetNextInstance` | src/services/test-scheduler.c:118-144 | With a free slot, the earliest pending instance whose devices are all free is handed out and only it is removed, the others keep their order; without one, nothing changes |
| `Scheduler.NextExact` | src/services/test-scheduler.c:118-144 | An instance is handed out if and only if there is a free slot and one can run; it is the first that can run, and exactly it leaves the list |
| `Scheduler.SubmitExact` | src/services/test-scheduler.c:94-116 | An instance runs at once if and only if all slots are taken and its devices are free; otherwise it is the last one waiting, or refused with 128 waiting |
| `Scheduler.Scheduler.RemovePending` | src/services/test-scheduler.c:7-25 | The shifting loop removes exactly one pending instance and keeps the order |
| `Scheduler.Scheduler.Submit` | src/services/test-scheduler.c:94-116 | Accepted at once only when all slots are taken and the devices are free; otherwise appended, or refused when the list is full |
| `Scheduler.HandedOutCanAcquire` | src/services/test-scheduler.c:118-144 | An instance handed out acquires all its devices, whatever is registered and released in between, as long as nobody acquires |
| `Scheduler.AskedCanAcquire` | src/services/test-scheduler.c:118-144 | The same for the instance that one step of a run hands out |
| `Scheduler.AllAccounted` | src/services/test-scheduler.c:94-144 | Over every run, the instances handed out plus those waiting are exactly those submitted as pending |
| `Queues.ExecutionQueue.Push` | src/services/test-engine.c:168-194 | A push is refused exactly when 128 are queued; otherwise it extends the history of accepted instances, and the ring still holds accepted minus delivered |
| `Queues.ExecutionQueue.Pop` | src/services/test-engine.c:196-227 | A pop extends the history of delivered instances by the next accepted one; a stopped engine delivers nothing |
| `Queues.MessageQueue.Enqueue` | src/common/logger.c:69-87 | Messages are queued in order, cut to the slot size, and refused exactly when 128 are waiting |
| `Queues.MessageQueue.Dequeue` | src/common/logger.c:89-108 | The oldest waiting message is delivered; nothing only when none waits and the logger has stopped |
| `Queues.RingAppend` | src/services/test-engine.c:168-194 | Writing behind the last element of the ring appends it, also across the wrap-around |
| `Queues.RingDrop` | src/services/test-engine.c:196-227 | Advancing the read index drops the first element, also across the wrap-around |
| `Queues.RunsInOrder` | src/common/logger.c:69-121 | Over every interleaving: what was accepted is what was printed, then what the worker holds, then what is queued |
| `Queues.WorkerDrains` | src/common/logger.c:110-180 | If nothing is logged after deinit, the worker returns only when every accepted message was printed once, in order |
| `Queues.LateMessageLost` | src/common/logger.c:168-180 | After any calls that end the logging, the worker may return, and then whatever is logged is accepted and never printed |
| `Queues.DrainsExactly` | src/common/logger.c:69-180 | For any calls of log and deinit: whenever the worker returns it has printed every accepted message, under every interleaving of its steps with these calls, if and only if no log follows a deinit |
| `Queues.WorkerReturns` | src/common/logger.c:110-121 | After deinit the worker does return, after a number of its own steps that its queue bounds |
| `Availability.AvailableExactly` | src/services/test-manager.c:32-72 | A configured test ends up available if and only if its function is configured, needs at least one device, and every device it needs is both defined and named by an enabled binding |
| `Availability.QueryTest` | src/services/test-manager.c:135-148 | The start-up sequence and one query answer exactly that, for every configuration with in-range counts and distinct names |
| `Availability.TestsInOrder` | src/services/test-manager.c:45-71 | The tests are listed function by function, those of one function in the order of their definitions, each with every function of its name |
| `Availability.DevicesInOrder` | src/services/dm.c:40-75 | The devices are listed in the order of the bindings that enable them |
| `Availability.FunctionsInOrder` | src/services/function-manager.c:40-88 | The functions are listed in the order of their definitions |
| `Availability.DeviceManager.Prepare` | src/services/dm.c:23-80 | The join of definitions and enabled bindings, in order; the table is never overrun |
| `Availability.FunctionManager.Prepare` | src/services/function-manager.c:23-90 | The functions whose devices all exist, in order; the table is never overrun |
| `Availability.MatchDevices` | src/services/function-manager.c:57-79 | The matching loop with its 8-bit index ends, and counts all devices if and only if each of them exists |
| `Availability.TestManager.Prepare` | src/services/test-manager.c:32-72 | The tests of the available functions, in order; the table is never overrun |
| `Availability.RoomForTests` | src/services/test-manager.c:52-71 | With distinct function names no test is listed twice, so there is room for every test that is added |
| `Availability.TestManager.IsAvailable` | src/services/test-manager.c:135-148 | True exactly when a listed test has that name |
| `GpioConfig.ParameterTable.GetGpio` | src/config/platform.c:23-140 | For every configuration that does not make it write past the table, the appending loops fill it with as much of the flattened meaning (chip, lines, line chips, directions, active-low flags) as there are slots |
| `GpioConfig.ListFormRead` | src/config/platform.c:23-140 | A configuration in list form, its members in any order, means exactly its own chip, lines, line chips, directions and flags |
| `GpioConfig.SingleFormRead` | src/config/platform.c:23-140 | So does one in single form, with one line, direction, flag and an optional line chip |
| `GpioConfig.AnySingleRead` | src/config/platform.c:23-140 | Single values of any kind: text is cut to 127 bytes (62 for a line chip), numbers are taken modulo 2^32, and another kind counts as missing |
| `GpioConfig.DefaultsRead` | src/config/platform.c:23-140 | An empty configuration means line 0 as an input of a chip without a name |
| `GpioConfig.ListsConcat` | src/config/platform.c:46-130 | Lists are read element by element, and elements of another kind are skipped (`ListOfOne`) |
| `GpioConfig.FlatLayout` | src/config/platform.c:34-136 | Where each parameter stands in the table: the chip, the lines, their chips, the directions, the flags |
| `GpioConfig.OverrunExactly` | src/config/platform.c:23-140 | It writes past the last slot if and only if the list of directions or of flags is missing and what comes before it fills the 32 slots, as those branches do not look at the limit |
| `GpioConfig.GpioConfiguration.Open` | src/services/validation-runtime.c:66-145 | The loop with its four indices and the defaults behind it compute `Rebuilt` |
| `GpioConfig.RebuiltFromTable` | src/services/validation-runtime.c:66-145 | From the configuration to the opened device: rebuilding from the table that `GetGpio` fills gives back what its 32 slots hold of the configuration, and all lines that can be opened |
| `GpioConfig.RebuiltFromFlat` | src/services/validation-runtime.c:66-145 | From a zeroed configuration the first eight lines, directions and flags come back in order with their counts, and an empty list gives one default where there is a line; a line keeps its own chip and gets the default one when it has none, or when the list of line chips starts with a blank |
| `GpioConfig.FirstChipWins` | src/services/validation-runtime.c:66-145 | In a table of any order, the default chip is the first one that is not blank |
| `GpioConfig.OwnChipKept` | src/services/validation-runtime.c:66-145 | In a table of any order, a line chip that is not blank stands at its place |
| `GpioConfig.ChipsSurvive` | src/services/validation-runtime.c:131-135 | The driver requests each line from the chip that the configuration names for it, if and only if those of its line chips that were cut from the table, or that follow a blank first one, name the default chip |
| `GpioConfig.BlankFirstChip` | src/services/validation-runtime.c:131-135 | A configuration for which it does not: a blank first line chip sends the second line to the default chip |
| `GpioDriver.OpenControlClose` | src/plugins/gpio_linux/gpio-device.c:13-336 | Over every run of open, any number of configurations and close, whatever calls of the library fail, chips, requests and temporary objects are in the end as they were: everything obtained was released exactly once, and nothing of others was touched |
| `GpioDriver.Device.SetConfiguration` | src/plugins/gpio_linux/gpio-device.c:162-326 | Success if and only if there are at most 8 lines, each with a chip whose path fits, and no library call failed; the held lines are always the first ones of the configuration, each requested from its chip with its offset and direction; after a failure nothing is held, except before a line without a chip |
| `GpioDriver.LineRequested` | src/plugins/gpio_linux/gpio-device.c:192-318 | What is held for line i of a configuration with any meaning: one entry with the offset of that line, an output if and only if its direction (or the first one, where the list is shorter) is not 0, never active, requested from the chip opened under the path of its own name |
| `GpioDriver.ConfiguredLine` | src/plugins/gpio_linux/gpio-device.c:162-326 | From the members of the configuration object to the request: the lines of a configuration in list form that fits the table are requested as it says |
| `GpioDriver.ReachableExact` | src/plugins/gpio_linux/gpio-device.c:192-225 | Which configurations the driver can serve, in terms of names: each line's chip is not blank and its path, behind /dev/ unless it is absolute, fits 64 bytes |
| `GpioDriver.Device.RequestLine` | src/plugins/gpio_linux/gpio-device.c:226-318 | The three temporary objects are freed on every path; a request is obtained with consumer, offset and direction as configured, or not at all |
| `GpioDriver.Device.OpenLine` | src/plugins/gpio_linux/gpio-device.c:192-322 | A chip is kept open exactly when its line was requested |
| `GpioDriver.Device.ReleaseAll` | src/plugins/gpio_linux/gpio-device.c:179-190 | Every request and chip held in a slot is released once, and only those |
| `GpioDriver.Device.Close` | src/plugins/gpio_linux/gpio-device.c:43-70 | Close leaves nothing of the device open |

## Left out

- Numbers: `valuedouble`, the binary rounding of `strtod`, the texts of `%1.15g` and `%1.17g`, and `compare_double` are not modelled; numbers are ints, read as decimals that are truncated and saturated, and printed with `%d`.
- PrintParse.ParseThenPrint: texts with a number that is no int are excluded; for 1e400 the program itself prints null, and for 1.5 it prints the fraction that the model does not have.
- Trees in merging, comparing, printing and parsing are values: update in place, aliasing and item identity are modelled only for the child list, `sort_list`, the token buffer of `decode_pointer_inplace`, and the print and parse buffers; of documents under patches only the tails of the member lists are modelled besides their values.
- Generating patches sorts both arguments in place; what is then appended to these items themselves is not modelled, and patches apply to copies.
- PatchOperations: paths that lead through a container by a token of the other kind (a key for an array) before their last token are stated for pointers only (`LocateExact`), not operation by operation.
- PatchDocument.Document.ApplyPatches: appending behind an item that is gone has no defined meaning in the program (a test leaves the `prev` of the first member at another one, that member is removed, and a member is added); such runs are excluded.
- Memory: allocation failures, the hooks and the manual reallocation branch of `ensure` are not modelled; raw, reference and const-key items neither.
- Parse errors: the error position, `return_parse_end` and the offset after a failed parse are not specified.
- Patch operation `move` whose "from" is no string has no defined behaviour in C; the model returns 5.
- Renaming in `add_item_to_object` and `replace_item_in_object` is left out of the child list, as it would only add easy members; keys are constant there.
- Masks and shifts of the UTF-8 encoder are written as division and remainder.
- PrintBuffer.PrintPreallocated: the length argument is the length of the array; the negative length that the source refuses cannot be given.
- Queues.ExecutionQueue.Pop: waiting on the condition variable is a precondition, as for `Dequeue`.
- Scheduler: it takes no lock, and its calls are modelled as atomic; no cap on running instances is claimed, because nothing decrements their number.
- Counters of the scheduler and of the device, function and test managers come from `malloc`; they are assumed to start at 0.
- Engine: the worker's use of acquire, run and release, its thread, results and the registration of implementations are left out; it ignores the result of acquire, so no disjointness of running tests is claimed.
- Availability.QueryTest: names are compared whole; that the loaders cut them to their buffers happens before.  More than 128 devices of a function, where the 8-bit index would not end, cannot be loaded.
- GpioDriver: reading and writing levels and the failure of `malloc` in open are left out.
- I2C, V4L2, plug-in loading, files, timestamps, the command line and the reporters are left out: they would only add easy members or belong to the system outside.
