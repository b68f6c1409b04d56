# JSON and handshake model of the EMV core client

This project models the JSON code and the request/response handshake of the EMV core
client, and proves what they compute:

- **Documents** (`demo/cJSON_Utils.c`): JSON Pointer (RFC 6901), generation and application of
  JSON Patch (RFC 6902) and JSON Merge Patch (RFC 7396), the two comparisons, and the merge
  sort on linked nodes they rest on.
- **Trees and texts** (`demo/cJSON.c`): list operations and duplication on linked nodes, the
  parser over a buffer with offset and depth, the two-pass string decoder, UTF-16 escapes and
  UTF-8, the printer into growing or fixed buffers, and the in-place minifier.
- **The streaming scanner** (`libotikiosk/src/mjson.c`): the automaton with its explicit stack,
  the path look-up on top of it, the escape and base64 codecs.
- **The handshake** (`libotikiosk/src/libotikiosk.c`): the caller and the receiver thread as
  interleaved steps on the shared buffer, length, id and two semaphores.

## How the model is laid out

Text is a `string` with one char for one byte. `Json.JSON` is a tree as cJSON holds it, children
in the order of their links; `Json.Sem` forgets the order of members and is what two documents
are judged by. An algorithm appears as a function that says what it computes, as a method with
the source's loops and updates that is proved to compute it, and in theorems about the function.
Sorting, the list operations, duplication and the parser work on `Items.Item` objects with
`next`, `prev` and `child`; `Shapes.Built` says that the heap holds a tree with circular sibling
lists and `Shapes.TreeOf` which document it stands for. Patching, merging, comparing and printing
work on trees as values.

| files | subject |
|---|---|
| `Json`, `KeyOrder`, `Members`, `Numbers`, `Text` | trees, keys, member lists, decimal numbers, positions in texts |
| `Pointer`, `PointerDecode`, `PointerExact` | JSON Pointer and its in-place decoder |
| `Patch`, `PatchContext`, `PatchWalk`, `PatchRoundTrip`, `PatchDocument`, `PatchLimits`, `PatchOutcomes` | JSON Patch |
| `Merge`, `MergePatch`, `MergeLimits`, `Compare`, `CaseFold`, `TreeLoops` | JSON Merge Patch, comparison, and the loops of both |
| `Items`, `Shapes`, `Sorting`, `SortOrder`, `ItemList`, `Duplication` | linked nodes and the trees they form |
| `Bits`, `Utf8`, `StringLiteral`, `StringMeaning`, `LiteralPlaces` | bit operations, string literals |
| `Syntax`, `ParseSyntax`, `ParseAccepts` | the texts that spell documents, and what is read from them |
| `Printing`, `PrintBuffer`, `Layout`, `Parser`, `Parsing`, `ParseRender` | printing, parsing |
| `MinifyText`, `MinifyRendered`, `MinifySyntax`, `Minifying` | minifying |
| `Scanner`, `ScanSyntax`, `ScanAccepts`, `Finder`, `FeedSyntax`, `FindSyntax`, `FindSteps`, `FindPaths`, `FindTree` | the streaming scanner and the path look-up |
| `Codec`, `EscapeMeaning`, `Base64Meaning` | its codecs |
| `Handshake` | the two-semaphore handshake |

Where the code departs from what its documentation promises, the code is modelled, and an
if-and-only-if says when the promise is kept: the in-place pointer decoder
(`PointerDecode.DecodeUndoesEncode`), removal without regard to case (`PatchLimits.RemoveExactly`),
the merge-patch walk (`MergeLimits.DropExactly`), appending to a sorted list
(`ItemList.SortThenAdd`), the escaped closing quote of the minifier (`Minifying.MinifyPrint`).
`FindSyntax.FindIsHunt` says exactly what a path finds that does not resolve, and
`FindPaths.MatchesExactly` when it finds anything. Concrete failures are shown by
`FindSyntax.NoBackOut` and `Handshake.Torn`.

Some parameters stand for what the code gets from outside: `strtod` for the int value of a
numeral with a fraction or an exponent, `idOf` for parse_id of a message. `cs` is the
case-sensitivity flag. `Good(j, keys)` says that j's keys lie in the set `keys` and are distinct
within each object; `Outer(j, top, keys)` gives the outermost object a key set of its own.

## Model

| member | source | states |
|---|---|---|
| PatchRoundTrip.RoundTrip | Emv-Core-client-armv8a-poky-linux-0.9-58/Emv-Core-client/demo/cJSON_Utils.c:1141-1279 | diff then apply: applying the generated patches of (from, to) in order to from returns 0 and yields a document equal to `to` up to member order, for height at most 10000. Keys that are only walked through may be any the mode tells apart; added ones must survive the in-place decoder; removed or wholly replaced ones must moreover have no sibling that differs in case alone |
| PatchRoundTrip.ItemsRoundTrip | Emv-Core-client-armv8a-poky-linux-0.9-58/Emv-Core-client/demo/cJSON_Utils.c:1170-1213 | the same for arrays from any position on: common items are patched in place, leftover items removed at the same index, new ones appended with `/-` |
| PatchRoundTrip.MembersRoundTrip | Emv-Core-client-armv8a-poky-linux-0.9-58/Emv-Core-client/demo/cJSON_Utils.c:1215-1273 | the same for two sorted member lists walked side by side over an unsorted target, whatever has been patched so far |
| PatchContext.ApplyBelow | Emv-Core-client-armv8a-poky-linux-0.9-58/Emv-Core-client/demo/cJSON_Utils.c:807-1036 | context lemma: a patch whose path goes through a child acts on the subtree at that child and on nothing else |
| PatchContext.CreateUnder | Emv-Core-client-armv8a-poky-linux-0.9-58/Emv-Core-client/demo/cJSON_Utils.c:1141-1279 | generating under a path prefix is generating at the root and prefixing every path |
| PatchDocument.PatchesRoundTrip | Emv-Core-client-armv8a-poky-linux-0.9-58/Emv-Core-client/demo/cJSON_Utils.c:1038-1094 | the round trip with the patches as the JSON array the API hands out and takes in |
| PatchDocument.ReadWritten | Emv-Core-client-armv8a-poky-linux-0.9-58/Emv-Core-client/demo/cJSON_Utils.c:742-781 | a composed patch object is read back as the operation, path and value it was composed of |
| PatchDocument.Document.Detach | Emv-Core-client-armv8a-poky-linux-0.9-58/Emv-Core-client/demo/cJSON_Utils.c:430-481 | detach_path: whether the node was found and the whole new document |
| PatchDocument.Document.Insert | Emv-Core-client-armv8a-poky-linux-0.9-58/Emv-Core-client/demo/cJSON_Utils.c:966-1016 | the insertion part of apply_patch: status and whole new document, array index, `-` and object member alike |
| PatchDocument.Document.Apply | Emv-Core-client-armv8a-poky-linux-0.9-58/Emv-Core-client/demo/cJSON_Utils.c:807-1036 | apply_patch: status code and new document for every patch object, malformed ones included |
| PatchDocument.Document.ApplyAll | Emv-Core-client-armv8a-poky-linux-0.9-58/Emv-Core-client/demo/cJSON_Utils.c:1038-1094 | patches are applied in order up to the first that fails; its status is returned and the earlier changes stay |
| PatchOutcomes.RemoveOutcome | Emv-Core-client-armv8a-poky-linux-0.9-58/Emv-Core-client/demo/cJSON_Utils.c:884-903 | a removal that succeeds takes exactly the named child and its subtree out of the document, so that the number of nodes falls by theirs; it ends with status 13 and an unchanged document if and only if the path names no child |
| PatchOutcomes.ReplaceOutcome | Emv-Core-client-armv8a-poky-linux-0.9-58/Emv-Core-client/demo/cJSON_Utils.c:884-1016 | a replacement puts the value in place of the named item, or takes the named member away and inserts the value under its key; status 13 and no change when the path names none; where the value is missing or too high the old node is gone all the same |
| PatchOutcomes.AddOutcome | Emv-Core-client-armv8a-poky-linux-0.9-58/Emv-Core-client/demo/cJSON_Utils.c:905-1016 | an addition: 8 for a value that cannot be copied, 9 when the parent does not resolve, 10 and 11 for a bad index; otherwise one item more at its index, or the first member with the key replaced by a new last one |
| PatchOutcomes.AddElsewhere | Emv-Core-client-armv8a-poky-linux-0.9-58/Emv-Core-client/demo/cJSON_Utils.c:826-1016 | additions at the root, without a value and on paths without a slash |
| PatchOutcomes.OnePlace | Emv-Core-client-armv8a-poky-linux-0.9-58/Emv-Core-client/demo/cJSON_Utils.c:430-481 | a path names at most one child of one container |
| PatchOutcomes.MalformedIsRefused | Emv-Core-client-armv8a-poky-linux-0.9-58/Emv-Core-client/demo/cJSON_Utils.c:807-850 | a patch without a path string is refused with 2, one without a known operation with 3, and the document stays as it is |
| PatchOutcomes.StopsAtFirst | Emv-Core-client-armv8a-poky-linux-0.9-58/Emv-Core-client/demo/cJSON_Utils.c:1038-1094 | a list of patches applies as a whole, or stops at one patch whose status it returns with all earlier ones applied |
| PatchDocument.CreatePatches | Emv-Core-client-armv8a-poky-linux-0.9-58/Emv-Core-client/demo/cJSON_Utils.c:1141-1279 | the recursive generator with its appended list computes the specified operations |
| PatchDocument.CreateForItems | Emv-Core-client-armv8a-poky-linux-0.9-58/Emv-Core-client/demo/cJSON_Utils.c:1170-1213 | the loops over common, leftover and new items |
| PatchDocument.CreateForMembers | Emv-Core-client-armv8a-poky-linux-0.9-58/Emv-Core-client/demo/cJSON_Utils.c:1215-1273 | the two-pointer loop over sorted members |
| PatchDocument.GetItemFromPointer | Emv-Core-client-armv8a-poky-linux-0.9-58/Emv-Core-client/demo/cJSON_Utils.c:301-346 | the pointer walk returns the address the token-by-token specification resolves to, or nothing |
| PatchLimits.AddRoundTripsExactly | Emv-Core-client-armv8a-poky-linux-0.9-58/Emv-Core-client/demo/cJSON_Utils.c:359-390 | adding a member to any object whose keys the mode tells apart round trips if and only if the key is decodable: the in-place decoder is the only limit |
| PatchLimits.RemoveExactly | Emv-Core-client-armv8a-poky-linux-0.9-58/Emv-Core-client/demo/cJSON_Utils.c:466 | a removal takes the right member if and only if the in-place decoder gets its key right and no earlier key differs from it in case alone, in both modes, because detach_path always ignores case |
| PatchLimits.StoredIsNoCaseVariant | Emv-Core-client-armv8a-poky-linux-0.9-58/Emv-Core-client/demo/cJSON_Utils.c:359-390 | what the in-place decoder makes of an escaped key is the key or differs from it in more than case |
| PatchLimits.CoherentIsHandled | Emv-Core-client-armv8a-poky-linux-0.9-58/Emv-Core-client/demo/cJSON_Utils.c:1141-1279 | the round trip's conditions hold when all keys are decodable and no two differ in case alone |
| PatchLimits.PlainKeys | Emv-Core-client-armv8a-poky-linux-0.9-58/Emv-Core-client/demo/cJSON_Utils.c:359-390 | keys without capitals, `~` and `/` are decodable and differ in more than case |
| Pointer.PointerRoundTrip | Emv-Core-client-armv8a-poky-linux-0.9-58/Emv-Core-client/demo/cJSON_Utils.c:198-259 | the text found for a node is the RFC 6901 pointer of that node and resolves to that very node if and only if no earlier sibling on the way carries the same key; `~` and `/` in keys included |
| Pointer.FindPointerExact | Emv-Core-client-armv8a-poky-linux-0.9-58/Emv-Core-client/demo/cJSON_Utils.c:198-259 | the search finds every node of the tree and nothing else, with its standard pointer text |
| Pointer.ComparePointersExact | Emv-Core-client-armv8a-poky-linux-0.9-58/Emv-Core-client/demo/cJSON_Utils.c:120-154 | comparing a name with an encoded token and any rest succeeds exactly when name and token are the same key |
| Pointer.DecodeDecimal | Emv-Core-client-armv8a-poky-linux-0.9-58/Emv-Core-client/demo/cJSON_Utils.c:274-299 | a decimal index below 2^64 survives printing and decoding |
| PointerExact.ResolveExact | Emv-Core-client-armv8a-poky-linux-0.9-58/Emv-Core-client/demo/cJSON_Utils.c:301-346 | a well-formed pointer resolves to an address if and only if its tokens lead there one by one: a decimal index below the length, or the escaped key of a member and of none before it |
| PointerExact.DecodeIndexExact | Emv-Core-client-armv8a-poky-linux-0.9-58/Emv-Core-client/demo/cJSON_Utils.c:274-299 | an array token is the decimal number it spells modulo 2^64; a leading zero in front of other digits and any other char behind the first make it no index |
| Pointer.ResolveIsValid | Emv-Core-client-armv8a-poky-linux-0.9-58/Emv-Core-client/demo/cJSON_Utils.c:301-346 | a pointer that resolves leads to a node of the tree |
| PatchDocument.DecodeIndexLoop | Emv-Core-client-armv8a-poky-linux-0.9-58/Emv-Core-client/demo/cJSON_Utils.c:274-299 | the digit loop, with its test of the first char instead of the current one and the 64-bit wrap |
| PatchDocument.ComparePointersLoop | Emv-Core-client-armv8a-poky-linux-0.9-58/Emv-Core-client/demo/cJSON_Utils.c:120-154 | the comparison loop computes the specified relation |
| PatchDocument.FindPointerFromObjectTo | Emv-Core-client-armv8a-poky-linux-0.9-58/Emv-Core-client/demo/cJSON_Utils.c:198-259 | the recursive search over the children computes the specified pointer text, keys escaped into a buffer of the counted size |
| PatchDocument.EncodeStringAsPointer | Emv-Core-client-armv8a-poky-linux-0.9-58/Emv-Core-client/demo/cJSON_Utils.c:172-196 | the escaping loop writes the escaped key and its terminator and nothing before it |
| PointerDecode.DecodeUndoesEncode | Emv-Core-client-armv8a-poky-linux-0.9-58/Emv-Core-client/demo/cJSON_Utils.c:359-390 | decode_pointer_inplace undoes encode_string_as_pointer if and only if the key is decodable, a condition on the key's chars |
| PointerDecode.DecodePointerInPlace | Emv-Core-client-armv8a-poky-linux-0.9-58/Emv-Core-client/demo/cJSON_Utils.c:359-390 | the loop over the NUL-terminated buffer computes the specified text in place |
| Compare.ComparisonsAgree | Emv-Core-client-armv8a-poky-linux-0.9-58/Emv-Core-client/demo/cJSON_Utils.c:604-690 | sort-and-walk compare_json and double-lookup cJSON_Compare agree, and both are equality of unordered objects |
| Compare.CompareByLookupExact | Emv-Core-client-armv8a-poky-linux-0.9-58/Emv-Core-client/demo/cJSON.c:3030-3153 | cJSON_Compare is equality of unordered objects |
| Compare.CompareJsonExact | Emv-Core-client-armv8a-poky-linux-0.9-58/Emv-Core-client/demo/cJSON_Utils.c:604-690 | compare_json is equality of unordered objects |
| CaseFold.CompareFold | Emv-Core-client-armv8a-poky-linux-0.9-58/Emv-Core-client/demo/cJSON_Utils.c:604-690 | without regard to case both comparisons are equality of the documents read with all keys in small letters |
| CaseFold.CompareLower | Emv-Core-client-armv8a-poky-linux-0.9-58/Emv-Core-client/demo/cJSON_Utils.c:604-690 | on any documents, repeated keys included, both comparisons without regard to case are those with regard to case of the documents in small letters |
| CaseFold.CreateLower | Emv-Core-client-armv8a-poky-linux-0.9-58/Emv-Core-client/demo/cJSON_Utils.c:1141-1279 | the patches generated without regard to case are those generated with regard to case for the documents in small letters, but for the case of the keys in them |
| TreeLoops.CompareJsonLoop | Emv-Core-client-armv8a-poky-linux-0.9-58/Emv-Core-client/demo/cJSON_Utils.c:604-690 | the loops of compare_json compute its specification |
| TreeLoops.CompareLoop | Emv-Core-client-armv8a-poky-linux-0.9-58/Emv-Core-client/demo/cJSON.c:3030-3153 | the loops of cJSON_Compare compute its specification |
| KeyOrder.CompareStringsLoop | Emv-Core-client-armv8a-poky-linux-0.9-58/Emv-Core-client/demo/cJSON_Utils.c:83-109 | compare_strings has the sign of strcmp, with or without case folding |
| KeyOrder.CompareStringsExact | Emv-Core-client-armv8a-poky-linux-0.9-58/Emv-Core-client/demo/cJSON_Utils.c:83-109 | compare_strings is negative if and only if the first text, folded as the mode says, ends or goes on with the smaller char where the two first differ, and 0 if and only if there is no difference |
| KeyOrder.ToLowerExact | Emv-Core-client-armv8a-poky-linux-0.9-58/Emv-Core-client/demo/cJSON_Utils.c:101-108 | folding maps the 26 capitals to their small letters and leaves every other char alone |
| KeyOrder.CmpTransitive | Emv-Core-client-armv8a-poky-linux-0.9-58/Emv-Core-client/demo/cJSON_Utils.c:83-109 | the key order is transitive, strictly if one step is strict |
| MergePatch.MergeIntoExact | Emv-Core-client-armv8a-poky-linux-0.9-58/Emv-Core-client/demo/cJSON_Utils.c:1321-1379 | merge_patch computes MergePatch of RFC 7396, and succeeds if and only if every value it copies is at most 10000 high |
| CaseFold.MergeFold | Emv-Core-client-armv8a-poky-linux-0.9-58/Emv-Core-client/demo/cJSON_Utils.c:1321-1379 | merge_patch without regard to case computes MergePatch of RFC 7396 on the documents read without regard to case, and fails exactly on values too high to copy; target and patch may spell the same key differently |
| CaseFold.MergeLower | Emv-Core-client-armv8a-poky-linux-0.9-58/Emv-Core-client/demo/cJSON_Utils.c:1321-1379 | on any target and patch, merging without regard to case is merging with regard to case in small letters |
| MergePatch.GenerateExact | Emv-Core-client-armv8a-poky-linux-0.9-58/Emv-Core-client/demo/cJSON_Utils.c:1391-1471 | the generator computes the difference patch, and returns NULL exactly for two equal objects; the outermost keys are unrestricted in case-sensitive mode, keys further down must be ordered alike by strcmp and by its folding counterpart |
| MergePatch.MergeRoundTrip | Emv-Core-client-armv8a-poky-linux-0.9-58/Emv-Core-client/demo/cJSON_Utils.c:1391-1471 | merging the generated patch into the source yields the target if and only if the target is reproducible: no null it would need to set, no null below an object it would need to add; keys as for the generator |
| MergePatch.MergeRoundTripNullFree | Emv-Core-client-armv8a-poky-linux-0.9-58/Emv-Core-client/demo/cJSON_Utils.c:1391-1471 | a target without null members is always reproduced |
| MergeLimits.DropExactly | Emv-Core-client-armv8a-poky-linux-0.9-58/Emv-Core-client/demo/cJSON_Utils.c:1391-1471 | dropping one member of any object round trips if and only if strcmp puts the key that follows it in the sorted list behind it: the lists are sorted in the given mode but walked by strcmp; a key that is overtaken is deleted again |
| MergeLimits.DropBelowExactly | Emv-Core-client-armv8a-poky-linux-0.9-58/Emv-Core-client/demo/cJSON_Utils.c:1452 | one level further down the generator never regards case: dropping a member of an inner object round trips if and only if strcmp agrees with the order without regard to case, in both modes |
| MergeLimits.FlatRoundTrip | Emv-Core-client-armv8a-poky-linux-0.9-58/Emv-Core-client/demo/cJSON_Utils.c:1391-1471 | in case-sensitive mode objects of scalars round trip under any keys |
| Merge.MergeDiff | Emv-Core-client-armv8a-poky-linux-0.9-58/Emv-Core-client/demo/cJSON_Utils.c:1391-1471 | on meanings: applying the difference gives the target if and only if it is reproducible |
| TreeLoops.MergePatchLoop | Emv-Core-client-armv8a-poky-linux-0.9-58/Emv-Core-client/demo/cJSON_Utils.c:1321-1379 | the loop over the patch's members computes merge_patch |
| TreeLoops.GenerateLoop | Emv-Core-client-armv8a-poky-linux-0.9-58/Emv-Core-client/demo/cJSON_Utils.c:1391-1471 | the two-pointer loop computes the generator |
| Sorting.SortList | Emv-Core-client-armv8a-poky-linux-0.9-58/Emv-Core-client/demo/cJSON_Utils.c:484-593 | sort_list on linked nodes: the very same nodes in the order of the merge sort, next acyclic, next.prev correct, head.prev stale or NULL exactly as the code leaves it |
| Sorting.Split | Emv-Core-client-armv8a-poky-linux-0.9-58/Emv-Core-client/demo/cJSON_Utils.c:522-549 | the slow and fast pointer cut the chain in the middle and mend both ends |
| Sorting.MergeChains | Emv-Core-client-armv8a-poky-linux-0.9-58/Emv-Core-client/demo/cJSON_Utils.c:553-590 | merging rewires two chains into one |
| Sorting.MergeSortSorts | Emv-Core-client-armv8a-poky-linux-0.9-58/Emv-Core-client/demo/cJSON_Utils.c:484-593 | the order is a permutation without descents, for every length and both modes |
| SortOrder.MergeSortIs | Emv-Core-client-armv8a-poky-linux-0.9-58/Emv-Core-client/demo/cJSON_Utils.c:484-602 | sort_list puts the nodes in the order of the texts of their keys; nodes whose keys compare equal come out in the reverse of their order, whatever the keys are |
| SortOrder.SortMembersIs | Emv-Core-client-armv8a-poky-linux-0.9-58/Emv-Core-client/demo/cJSON_Utils.c:484-602 | so does the sort of member lists used by diff, merge and comparison |
| SortOrder.SortsAlike | Emv-Core-client-armv8a-poky-linux-0.9-58/Emv-Core-client/demo/cJSON_Utils.c:484-602 | the two sorts give the same list, repeated keys included |
| ItemList.SortObject | Emv-Core-client-armv8a-poky-linux-0.9-58/Emv-Core-client/demo/cJSON_Utils.c:595-602 | the children after sort_object, and what their head's prev is |
| ItemList.SortThenAdd | Emv-Core-client-armv8a-poky-linux-0.9-58/Emv-Core-client/demo/cJSON.c:1985-2016 | appending to a sorted list puts the item at the end if and only if sorting moved neither end; otherwise it is lost or misplaced |
| ItemList.AddItemToArray | Emv-Core-client-armv8a-poky-linux-0.9-58/Emv-Core-client/demo/cJSON.c:1985-2016 | add_item_to_array refines append and keeps the circular list; with a NULL head.prev the item is silently dropped |
| ItemList.DetachItemViaPointer | Emv-Core-client-armv8a-poky-linux-0.9-58/Emv-Core-client/demo/cJSON.c:2216-2250 | detaching refines removal at an index, keeps the circular list and frees the item's links |
| ItemList.InsertItemInArray | Emv-Core-client-armv8a-poky-linux-0.9-58/Emv-Core-client/demo/cJSON.c:2292-2324 | inserting refines insertion at an index, at the end when the index is too large |
| ItemList.InsertItemOrFail | Emv-Core-client-armv8a-poky-linux-0.9-58/Emv-Core-client/demo/cJSON_Utils.c:693-728 | insert_item_in_array refuses an index behind the end and leaves the list alone |
| ItemList.ReplaceItemViaPointer | Emv-Core-client-armv8a-poky-linux-0.9-58/Emv-Core-client/demo/cJSON.c:2326-2373 | replacing refines update at an index, for head, tail and middle |
| ItemList.BuiltKids | Emv-Core-client-armv8a-poky-linux-0.9-58/Emv-Core-client/demo/cJSON.c:1985-2373 | every sibling list of a parsed or duplicated tree meets the precondition of the list operations |
| ItemList.GetArrayItem | Emv-Core-client-armv8a-poky-linux-0.9-58/Emv-Core-client/demo/cJSON.c:1880-1897 | the walk returns the item at the index or NULL |
| Duplication.Duplicate | Emv-Core-client-armv8a-poky-linux-0.9-58/Emv-Core-client/demo/cJSON.c:2742-2831 | cJSON_Duplicate returns a fresh tree of the same shape and contents, which stands for the same document, if and only if the height is at most 10000; only child and next of the source are relied on, so sorted trees are covered, and the copy's lists are circular again |
| Duplication.DuplicateRec | Emv-Core-client-armv8a-poky-linux-0.9-58/Emv-Core-client/demo/cJSON.c:2747-2831 | the same at every depth of the recursion, children relinked in order |
| Duplication.ParseAndDuplicate | Emv-Core-client-armv8a-poky-linux-0.9-58/Emv-Core-client/demo/cJSON.c:2742-2831 | a document that the parser returns can always be duplicated: parsing refuses nesting above 1000 and a tree is no higher than its document is nested; original and copy share no node, are both built, and stand for the parsed document |
| Utf8.EncodingIsUtf8 | Emv-Core-client-armv8a-poky-linux-0.9-58/Emv-Core-client/demo/cJSON.c:736-780 | the encoding loop yields the encoding of section 3 of RFC 3629 for every scalar value |
| Utf8.EncodingUnique | Emv-Core-client-armv8a-poky-linux-0.9-58/Emv-Core-client/demo/cJSON.c:736-780 | no other byte sequence encodes the same code point |
| Utf8.WriteUtf8 | Emv-Core-client-armv8a-poky-linux-0.9-58/Emv-Core-client/demo/cJSON.c:761-777 | the loop that writes the bytes from the back with `|`, `&` and `>>`, and what it leaves untouched |
| Utf8.Utf16LiteralToUtf8 | Emv-Core-client-armv8a-poky-linux-0.9-58/Emv-Core-client/demo/cJSON.c:671-789 | the whole conversion with the bit operations of the source: chars used, bytes written and what stays untouched, or nothing for an invalid escape |
| Utf8.ContinuationBits | Emv-Core-client-armv8a-poky-linux-0.9-58/Emv-Core-client/demo/cJSON.c:770 | setting and clearing mark bits yields 0x80 plus the last six bits |
| Utf8.ParseHex4 | Emv-Core-client-armv8a-poky-linux-0.9-58/Emv-Core-client/demo/cJSON.c:634-667 | four hexadecimal digits, or 0 |
| Utf8.PairBits | Emv-Core-client-armv8a-poky-linux-0.9-58/Emv-Core-client/demo/cJSON.c:726 | the masks, shift and or of the source yield the code point of a surrogate pair of section 2.2 of RFC 2781 |
| Utf8.ReadLiteral | Emv-Core-client-armv8a-poky-linux-0.9-58/Emv-Core-client/demo/cJSON.c:671-734 | an escape or surrogate pair never yields a surrogate and never reaches behind the literal |
| StringLiteral.DecodeBound | Emv-Core-client-armv8a-poky-linux-0.9-58/Emv-Core-client/demo/cJSON.c:792-919 | the second pass writes at most as many bytes as the first pass counted steps, also where bad digits put the two passes out of step |
| StringLiteral.MeasureString | Emv-Core-client-armv8a-poky-linux-0.9-58/Emv-Core-client/demo/cJSON.c:804-834 | the first pass finds the closing quote and counts the escapes |
| StringLiteral.DecodeString | Emv-Core-client-armv8a-poky-linux-0.9-58/Emv-Core-client/demo/cJSON.c:837-897 | the second pass writes inside the allocation on every input and leaves the decoded text and its terminator there |
| StringLiteral.ParseStringLoop | Emv-Core-client-armv8a-poky-linux-0.9-58/Emv-Core-client/demo/cJSON.c:792-919 | both passes: result, error and error offset for every buffer |
| StringMeaning.LiteralDecodes | Emv-Core-client-armv8a-poky-linux-0.9-58/Emv-Core-client/demo/cJSON.c:792-919 | a well-formed literal of section 7 of RFC 8259 anywhere in a buffer is decoded to its meaning up to the first NUL |
| StringMeaning.StringRoundTrip | Emv-Core-client-armv8a-poky-linux-0.9-58/Emv-Core-client/demo/cJSON.c:922-1041 | a printed string is parsed back to the same C string, exactly up to its closing quote |
| StringMeaning.PiecesOf | Emv-Core-client-armv8a-poky-linux-0.9-58/Emv-Core-client/demo/cJSON.c:922-1041 | every printed string is a well-formed literal that means it |
| Numbers.SignedReads | Emv-Core-client-armv8a-poky-linux-0.9-58/Emv-Core-client/demo/cJSON.c:578-581 | a printed int is a numeral that strtod reads whole and that means the same number |
| Numbers.SignedReadsBefore | Emv-Core-client-armv8a-poky-linux-0.9-58/Emv-Core-client/demo/cJSON.c:307-381 | the same with other text behind it |
| Parser.ParseValue | Emv-Core-client-armv8a-poky-linux-0.9-58/Emv-Core-client/demo/cJSON.c:1336-1388 | for every buffer: success strictly advances inside the buffer and the tree is nested at most 1000 deep; an error lies at or behind the start |
| Parser.ParseItems | Emv-Core-client-armv8a-poky-linux-0.9-58/Emv-Core-client/demo/cJSON.c:1465-1560 | the same for the loop of parse_array |
| Parser.ParseMembers | Emv-Core-client-armv8a-poky-linux-0.9-58/Emv-Core-client/demo/cJSON.c:1625-1740 | the same for the loop of parse_object |
| Parser.SkipSpace | Emv-Core-client-armv8a-poky-linux-0.9-58/Emv-Core-client/demo/cJSON.c:1058-1081 | the step back of buffer_skip_whitespace never goes before its start |
| Parser.Parse | Emv-Core-client-armv8a-poky-linux-0.9-58/Emv-Core-client/demo/cJSON.c:1115-1192 | end and error position lie in the buffer, and a required terminator is there |
| Parsing.ParseBuffer.SkipWhitespace | Emv-Core-client-armv8a-poky-linux-0.9-58/Emv-Core-client/demo/cJSON.c:1058-1081 | the loop on the buffer's offset |
| Parsing.ParseBuffer.ParseNumber | Emv-Core-client-armv8a-poky-linux-0.9-58/Emv-Core-client/demo/cJSON.c:307-381 | the loop that collects at most 63 chars, saturation to int, and the new offset |
| Parsing.ParseBuffer.ParseValue | Emv-Core-client-armv8a-poky-linux-0.9-58/Emv-Core-client/demo/cJSON.c:1336-1388 | on success a fresh tree of nodes with circular sibling lists that stands for the specified value, linked to nothing else; new offset and depth are the specified ones; on an error no node |
| Parsing.ParseBuffer.ParseArray | Emv-Core-client-armv8a-poky-linux-0.9-58/Emv-Core-client/demo/cJSON.c:1465-1560 | the same for arrays: the head's prev is set to the tail and the list is hung below the new node |
| Parsing.ParseBuffer.ParseObject | Emv-Core-client-armv8a-poky-linux-0.9-58/Emv-Core-client/demo/cJSON.c:1625-1740 | the same for objects |
| Parsing.ParseBuffer.ItemsLoop | Emv-Core-client-armv8a-poky-linux-0.9-58/Emv-Core-client/demo/cJSON.c:1499-1541 | the do loop of parse_array strings the element nodes together by next and prev, in the order of the specified items |
| Parsing.ParseBuffer.MembersLoop | Emv-Core-client-armv8a-poky-linux-0.9-58/Emv-Core-client/demo/cJSON.c:1657-1721 | the do loop of parse_object does so with the member nodes and their keys |
| Parsing.ParseBuffer.Parse | Emv-Core-client-armv8a-poky-linux-0.9-58/Emv-Core-client/demo/cJSON.c:1115-1192 | the entry point with BOM, white space and the position reported; the document comes back as a built tree |
| ParseSyntax.TextParsed | Emv-Core-client-armv8a-poky-linux-0.9-58/Emv-Core-client/demo/cJSON.c:1115-1192 | every text that spells a document is parsed to that document, white space up to char 32 around any token, any well-formed literal, any numeral of at most 63 chars, byte order mark or none; it is refused if and only if it is nested more than 1000 deep |
| ParseSyntax.ValueParsed | Emv-Core-client-armv8a-poky-linux-0.9-58/Emv-Core-client/demo/cJSON.c:1336-1740 | the same for a value anywhere in a buffer and at any depth, with the offset behind it |
| ParseAccepts.TextAccepted | Emv-Core-client-armv8a-poky-linux-0.9-58/Emv-Core-client/demo/cJSON.c:1115-1192 | conversely, whatever is accepted is a text that spells a document, and the result is that document; only the value of numerals with a fraction or an exponent is left to strtod |
| ParseAccepts.ValueAccepted | Emv-Core-client-armv8a-poky-linux-0.9-58/Emv-Core-client/demo/cJSON.c:1336-1740 | the same for a value anywhere in a buffer |
| LiteralPlaces.WellFormedReads | Emv-Core-client-armv8a-poky-linux-0.9-58/Emv-Core-client/demo/cJSON.c:792-919 | every well-formed literal of section 7 of RFC 8259 is among the literals of those texts, with its meaning as a C string |
| ParseRender.PrintedSpelling | Emv-Core-client-armv8a-poky-linux-0.9-58/Emv-Core-client/demo/cJSON.c:1391-1854 | every printed document, formatted or not, is a text that spells it, with white space of RFC 8259 only |
| ParseRender.PrintThenParse | Emv-Core-client-armv8a-poky-linux-0.9-58/Emv-Core-client/demo/cJSON.c:1115-1192 | parsing the formatted or unformatted rendering returns an equal tree and stops at the terminator if and only if containers are nested at most 1000 deep; deeper ones are refused |
| ParseRender.ValueRound | Emv-Core-client-armv8a-poky-linux-0.9-58/Emv-Core-client/demo/cJSON.c:1336-1740 | the same for a value printed anywhere in a buffer, at any indentation and depth, refused when nested too deep |
| PrintBuffer.Buffer.Ensure | Emv-Core-client-armv8a-poky-linux-0.9-58/Emv-Core-client/demo/cJSON.c:458-541 | room is granted if and only if the total fits the limit; contents survive a reallocation |
| PrintBuffer.Buffer.UpdateOffset | Emv-Core-client-armv8a-poky-linux-0.9-58/Emv-Core-client/demo/cJSON.c:544-554 | the counted text becomes what was printed, up to the terminator |
| PrintBuffer.Buffer.PrintString | Emv-Core-client-armv8a-poky-linux-0.9-58/Emv-Core-client/demo/cJSON.c:922-1041 | counting, ensuring and escaping: counted text plus C string equal the old text plus the quoted string |
| PrintBuffer.Buffer.PrintNumber | Emv-Core-client-armv8a-poky-linux-0.9-58/Emv-Core-client/demo/cJSON.c:564-631 | the same for ints |
| PrintBuffer.Buffer.PrintValue | Emv-Core-client-armv8a-poky-linux-0.9-58/Emv-Core-client/demo/cJSON.c:1391-1462 | printing appends exactly the rendering and succeeds exactly when two bytes more than it fit the limit |
| PrintBuffer.Buffer.PrintArray | Emv-Core-client-armv8a-poky-linux-0.9-58/Emv-Core-client/demo/cJSON.c:1563-1622 | the same for arrays, depth restored |
| PrintBuffer.Buffer.PrintObject | Emv-Core-client-armv8a-poky-linux-0.9-58/Emv-Core-client/demo/cJSON.c:1743-1854 | the same for objects, depth restored |
| PrintBuffer.Print | Emv-Core-client-armv8a-poky-linux-0.9-58/Emv-Core-client/demo/cJSON.c:1207-1283 | the text comes back in an allocation of its own size, unless it does not fit an int |
| PrintBuffer.PrintBuffered | Emv-Core-client-armv8a-poky-linux-0.9-58/Emv-Core-client/demo/cJSON.c:1285-1314 | any starting size of 0 or more yields the same text |
| PrintBuffer.PrintPreallocated | Emv-Core-client-armv8a-poky-linux-0.9-58/Emv-Core-client/demo/cJSON.c:1316-1333 | a given buffer suffices if and only if it is two bytes longer than the text |
| Layout.PrintIsLaidOut | Emv-Core-client-armv8a-poky-linux-0.9-58/Emv-Core-client/demo/cJSON.c:1391-1854 | the formatted print is the unformatted one laid out char by char: one member to a line, a tab for every container around it, a blank behind a comma in an array and a tab behind a colon |
| EscapeMeaning.EscapeIsShortest | Emv-Core-client-armv8a-poky-linux-0.9-58/Emv-Core-client/demo/cJSON.c:922-1041 | no well-formed literal with the same meaning is shorter than the printed one |
| Minifying.MinifyPrint | Emv-Core-client-armv8a-poky-linux-0.9-58/Emv-Core-client/demo/cJSON.c:2860-2928 | minifying the formatted print gives the unformatted one if and only if no key, and no string value with white space behind it, ends in a backslash |
| MinifySyntax.MinifyThenParse | Emv-Core-client-armv8a-poky-linux-0.9-58/Emv-Core-client/demo/cJSON.c:2833-2928 | a document with white space and comments around any token is minified to the same tokens with nothing between them, and that is parsed to the document when it is nested at most 1000 deep |
| Minifying.MinifyTwice | Emv-Core-client-armv8a-poky-linux-0.9-58/Emv-Core-client/demo/cJSON.c:2882-2928 | minifying is idempotent on every text |
| Minifying.MinifyInPlace | Emv-Core-client-armv8a-poky-linux-0.9-58/Emv-Core-client/demo/cJSON.c:2882-2928 | in place equals out of place: the write cursor never passes the read cursor; bytes behind the old terminator stay |
| Minifying.MinifyStringInPlace | Emv-Core-client-armv8a-poky-linux-0.9-58/Emv-Core-client/demo/cJSON.c:2860-2880 | the loop of minify_string |
| Scanner.AutomatonIsGrammar | Emv-Core-client-armv8a-poky-linux-0.9-58/Emv-Core-client/libotikiosk/src/mjson.c:233-337 | the automaton accepts exactly the recursive grammar with optional trailing comma, with the same callbacks and the same error codes |
| Scanner.Mjson | Emv-Core-client-armv8a-poky-linux-0.9-58/Emv-Core-client/libotikiosk/src/mjson.c:233-337 | the loop with its 20-byte stack performs that run |
| Scanner.PassStringLoop | Emv-Core-client-armv8a-poky-linux-0.9-58/Emv-Core-client/libotikiosk/src/mjson.c:219-231 | the closing quote or an error |
| ScanSyntax.ScanText | Emv-Core-client-armv8a-poky-linux-0.9-58/Emv-Core-client/libotikiosk/src/mjson.c:233-337 | every text that spells a document, with white space of RFC 8259 around any token, is consumed up to its end and reported in preorder with exact spans if and only if it is nested at most 20 deep; otherwise the result is TOO_DEEP |
| ScanSyntax.ReadSyntax | Emv-Core-client-armv8a-poky-linux-0.9-58/Emv-Core-client/libotikiosk/src/mjson.c:233-337 | the same for a value inside any text and container |
| ScanAccepts.ScanAccepted | Emv-Core-client-armv8a-poky-linux-0.9-58/Emv-Core-client/libotikiosk/src/mjson.c:233-337 | conversely, what is accepted without a comma in front of a closing bracket and without an empty numeral begins with a spelled document, which ends where mjson says and whose nodes are what it reported |
| ScanAccepts.BesidesAccepted | Emv-Core-client-armv8a-poky-linux-0.9-58/Emv-Core-client/libotikiosk/src/mjson.c:233-337 | both exceptions occur: `[null,]` and a lone minus sign are accepted |
| FindTree.ScanPrinted | Emv-Core-client-armv8a-poky-linux-0.9-58/Emv-Core-client/libotikiosk/src/mjson.c:233-337 | texts printed by cJSON, formatted or not, are among them |
| EscapeMeaning.WellFormedCloses | Emv-Core-client-armv8a-poky-linux-0.9-58/Emv-Core-client/libotikiosk/src/mjson.c:219-231 | the end of every well-formed literal of RFC 8259 is found |
| Finder.RunInside | Emv-Core-client-armv8a-poky-linux-0.9-58/Emv-Core-client/libotikiosk/src/mjson.c:233-337 | every callback's span lies inside the text, and keys carry their quotes, for every input |
| Finder.Search.Handle | Emv-Core-client-armv8a-poky-linux-0.9-58/Emv-Core-client/libotikiosk/src/mjson.c:358-411 | mjson_get_cb updates its fields as specified |
| Finder.FindLoop | Emv-Core-client-armv8a-poky-linux-0.9-58/Emv-Core-client/libotikiosk/src/mjson.c:413-420 | mjson_find feeds the scan's callbacks in order |
| FindSteps.FindResolves | Emv-Core-client-armv8a-poky-linux-0.9-58/Emv-Core-client/libotikiosk/src/mjson.c:358-420 | in every spelled document a path of keys and array indices that leads to a node finds that very node, with its token and exact span |
| FindTree.FindMatchesLookup | Emv-Core-client-armv8a-poky-linux-0.9-58/Emv-Core-client/libotikiosk/src/mjson.c:413-420 | in a document that both libraries read, the path of one key finds a text that cJSON parses to the value get_object_item finds case-sensitively, and nothing where that finds nothing |
| FindTree.FindInPrinted | Emv-Core-client-armv8a-poky-linux-0.9-58/Emv-Core-client/libotikiosk/src/mjson.c:413-420 | so it is in every text cJSON prints, formatted or not |
| FindSyntax.FindField | Emv-Core-client-armv8a-poky-linux-0.9-58/Emv-Core-client/libotikiosk/src/mjson.c:413-420 | the path of one key finds the first outermost member whose name is spelled like it, or nothing if there is none |
| FindSyntax.FindIsHunt | Emv-Core-client-armv8a-poky-linux-0.9-58/Emv-Core-client/libotikiosk/src/mjson.c:358-420 | for any spelled document and path of keys mjson_find returns exactly what a function of the document says: each key is used up by the first later member with that key at that key's depth, wherever it is, and the value behind the last one is the match; its exact span, or no match |
| FindPaths.MatchesExactly | Emv-Core-client-armv8a-poky-linux-0.9-58/Emv-Core-client/libotikiosk/src/mjson.c:358-420 | for any number of keys: a path matches something if and only if its keys are a subsequence of the document's keys in the order of the text, each at the depth of its place in the path |
| FindSyntax.FindTwoKeys | Emv-Core-client-armv8a-poky-linux-0.9-58/Emv-Core-client/libotikiosk/src/mjson.c:358-420 | for two keys: the match is in the first member, from the one with the first key on, whose value is an object holding the second key; there is none if and only if there is no such member |
| FindSyntax.UnresolvedIsLost | Emv-Core-client-armv8a-poky-linux-0.9-58/Emv-Core-client/libotikiosk/src/mjson.c:389-395 | a path of two keys that does not resolve is not found if and only if no member behind the first key's holds the second key |
| FindSyntax.NoBackOut | Emv-Core-client-armv8a-poky-linux-0.9-58/Emv-Core-client/libotikiosk/src/mjson.c:389-395 | a path that does not resolve may match elsewhere: behind a matched key with another value than an object the next member is searched for the rest |
| Codec.StringThroughText | Emv-Core-client-armv8a-poky-linux-0.9-58/Emv-Core-client/libotikiosk/src/mjson.c:565-577 | for NUL-free strings the closing quote of the printed string is found, and unescaping returns the string if and only if the destination is longer than it |
| EscapeMeaning.DecodedExactly | Emv-Core-client-armv8a-poky-linux-0.9-58/Emv-Core-client/libotikiosk/src/mjson.c:438-453 | unescaping gives a well-formed literal its meaning of RFC 8259 if and only if nothing in it is spelled by its number; such a literal is refused |
| EscapeMeaning.PrintedDecodes | Emv-Core-client-armv8a-poky-linux-0.9-58/Emv-Core-client/libotikiosk/src/mjson.c:438-453 | so it undoes the printing of cJSON exactly for strings whose control chars all have a short escape |
| Base64Meaning.EncodedIsRfc | Emv-Core-client-armv8a-poky-linux-0.9-58/Emv-Core-client/libotikiosk/src/mjson.c:580-592 | what is written for a string is its encoding of section 4 of RFC 4648: four digits of the 24-bit number of every three bytes, `=` for missing ones |
| Codec.DecodeBody | Emv-Core-client-armv8a-poky-linux-0.9-58/Emv-Core-client/libotikiosk/src/mjson.c:438-453 | unescaping undoes printing |
| Codec.PrintedCloses | Emv-Core-client-armv8a-poky-linux-0.9-58/Emv-Core-client/libotikiosk/src/mjson.c:219-231 | the scanner's string pass ends at the closing quote of a printed string |
| Codec.Unescape | Emv-Core-client-armv8a-poky-linux-0.9-58/Emv-Core-client/libotikiosk/src/mjson.c:438-453 | the loop: length, contents and terminator, or -1 for an unknown escape or lack of room |
| Codec.PrintStr | Emv-Core-client-armv8a-poky-linux-0.9-58/Emv-Core-client/libotikiosk/src/mjson.c:565-577 | the text and its length |
| Codec.Esc | Emv-Core-client-armv8a-poky-linux-0.9-58/Emv-Core-client/libotikiosk/src/mjson.c:211-217 | the table search in both directions |
| Codec.Base64Back | Emv-Core-client-armv8a-poky-linux-0.9-58/Emv-Core-client/libotikiosk/src/mjson.c:480-497 | decoding what was encoded returns the bytes, as many as there is room for: all of them when dlen is at least their number |
| Codec.DecodeBase64 | Emv-Core-client-armv8a-poky-linux-0.9-58/Emv-Core-client/libotikiosk/src/mjson.c:480-497 | the decoding loop, also on malformed input |
| Codec.PrintBase64 | Emv-Core-client-armv8a-poky-linux-0.9-58/Emv-Core-client/libotikiosk/src/mjson.c:580-592 | the encoding loop |
| Handshake.Exclusion | Emv-Core-client-armv8a-poky-linux-0.9-58/Emv-Core-client/libotikiosk/src/libotikiosk.c:225-261 | in every timely interleaving the receiver has no step while the caller is between its successful wait and its post: buffer and length are not written |
| Handshake.OkMeansWholeMessage | Emv-Core-client-armv8a-poky-linux-0.9-58/Emv-Core-client/libotikiosk/src/libotikiosk.c:225-261 | OK means one whole received message that fits the caller's buffer, with the awaited id if that id did not change between check and announcement |
| Handshake.TooLongExactly | Emv-Core-client-armv8a-poky-linux-0.9-58/Emv-Core-client/libotikiosk/src/libotikiosk.c:244-250 | the comparison with the caller's capacity returns an error if and only if the announced message is longer, and nothing is copied then |
| Handshake.ReturnsExactly | Emv-Core-client-armv8a-poky-linux-0.9-58/Emv-Core-client/libotikiosk/src/libotikiosk.c:239-261 | which step makes a call return which of its three results |
| Handshake.NothingAwaited | Emv-Core-client-armv8a-poky-linux-0.9-58/Emv-Core-client/libotikiosk/src/libotikiosk.c:255 | once a call has returned OK no message is taken for an answer any more |
| Handshake.RunKeeps | Emv-Core-client-armv8a-poky-linux-0.9-58/Emv-Core-client/libotikiosk/src/libotikiosk.c:327-344 | the invariant holds in every reachable state of every timely run |
| Handshake.Torn | Emv-Core-client-armv8a-poky-linux-0.9-58/Emv-Core-client/libotikiosk/src/libotikiosk.c:340-342 | without the timing assumption a run returns OK for a mixture of two messages |
| Handshake.WholeRun | Emv-Core-client-armv8a-poky-linux-0.9-58/Emv-Core-client/libotikiosk/src/libotikiosk.c:225-261 | a concrete timely run comes back with OK, a stable id and the whole message, so the theorems about timely OK runs speak of something |
| Handshake.AcceptedExactly | Emv-Core-client-armv8a-poky-linux-0.9-58/Emv-Core-client/libotikiosk/src/libotikiosk.c:225-261 | after a stable OK the check for any id passes if and only if it is the id the call awaited |
| Handshake.PayTransactionRefuses | Emv-Core-client-armv8a-poky-linux-0.9-58/Emv-Core-client/libotikiosk/src/libotikiosk.c:558-575 | PayTransaction awaits id 7 and checks id 6: what it receives is refused |

## Left out

- Floating point: `%1.15g`, `compare_double`, hexadecimal numerals, infinities and NaN in strtod. Numbers are ints; where a numeral has a fraction or an exponent its span is exact and its int value is a parameter.
- Raw items, reference items, constant keys, NULL strings, allocator hooks and failing allocations.
- The patch operations `move`, `copy` and `test`, and removing the whole document: `Patch.ApplyOp` answers `NotModelled` for them.
- TreeLoops.CompareJsonLoop: leaves its arguments as they are, where the code leaves both with sorted members. On values a sort yields a new list. The rewiring itself is proved on nodes in `Sorting` and `ItemList`, and `SortOrder.SortsAlike` ties the two.
- TreeLoops.GenerateLoop: likewise.
- PatchDocument.CreatePatches: likewise.
- PatchDocument.Document.Detach: the document is a tree as a value; the relinking a removal does is `ItemList.DetachItemViaPointer`. Keys of nodes are constant in `Items`, so an item that is renamed when it is added to an object cannot be followed on nodes.
- PatchDocument.Document.Insert: likewise; the splices are `ItemList.InsertItemOrFail` and `ItemList.AddItemToArray`.
- PatchDocument.Document.Apply: likewise, and without the operations named above.
- PatchDocument.Document.ApplyAll: likewise.
- PatchRoundTrip.RoundTrip: states one direction. Where a key that is added, removed or replaced does not meet the condition, several wrong operations might still make up for each other; the exact conditions are proved for the single operations in `PatchLimits`.
- Parsing.ParseBuffer.ReadItem: creates a node when its value has been read, where the code links the empty node first. Nothing else can reach the list under construction, and on an error the code frees it.
- StringLiteral.ParseStringLoop: the buffer's length is a parameter, as parse_string takes it; that the length fits size_t is not modelled.
- Scanner.Mjson: strtod is taken to stop at the end of the text; the code hands it no length.
- Finder.Search.Handle: an index path without its closing bracket makes the code read behind the path; here the path ends with its terminator.
- Handshake.OkMeansWholeMessage: reads and writes of the shared int variables are single steps, and only one thread calls send_receive. The 100 ms are a nondeterministic expiry.
- The callback type of mjson is a list of recorded calls; `mjson_printf`, `mjson_vprintf`, the fixed and dynamic output buffers and the JSON-RPC dispatcher with its function pointers.
- The optional strtod replacement of mjson.c.
- Sockets, poll, host names, thread creation, clocks and logging.
- `kiosk_commands.c`: field-by-field look-ups over mjson_find; its id checks enter `Handshake` only as an abstract function of the message.
- `otiKioskDemo.c`: a console demo.
