# Verified models of Embox

Dafny models of six pieces of Embox and the libraries it ships, each proved against what the code is for:

- libfdt, the flattened device tree library: reader, in-place editor, NOP editor, checker, sequential writer, overlay merge and
  overlay renumbering (`Fdt*.dfy`)
- CoreMark's linked list: the in-place bottom-up mergesort with a comparator that rewrites what it compares, and the benchmark
  step that puts the list back (`MergeSpec.dfy`, `CoreMark*.dfy`)
- the kernel's critical-section dispatcher (`Critical.dfy`, `CriticalKernel.dfy`)
- the journal's credits, log ring and checkpoints (`JournalSpec.dfy`, `Journal.dfy`)
- decimal numbers of any length (`Bignum.dfy`)
- the console lock of `printk` on several cores, and what comes out on the console (`Printk.dfy`)

## How the models are built

**libfdt.** A structure block is read in two steps. `Scan` turns bytes into tokens with names resolved through the strings block
(`FdtTokens`); `TreeOf` turns tokens into a tree in first-child, next-sibling form (`FdtTree`), so that "what is left of a level"
is itself a tree. `At(t, off)` is what is left of the level at a byte offset and `Put(t, off, u)` replaces it. One theorem,
`SpliceTree`, says that a byte splice at an offset is a `Put` at that offset; every editor is proved through it. Readers take the
header and the bytes as a value (`Blob`); editors and the writer change an object with header fields and a byte array (`Fdt`).
Every method that walks by offset and depth is proved against a function on tokens and that against the tree, without assuming
that the blob is well formed: the clauses that speak of the tree are conditional on its existence. The writer keeps strings below
the end of the buffer with negative name offsets; the same `Scan` reads them with another base. Stores that keep lengths (phandles,
references) keep the shape of the tree (`FdtShape`) and so the meaning of every offset. `FdtListed` says which cell each
word of the local fixups names. What overlays do to lookups is derived from
one description of a merged node (`FdtMergeLaws.MergedNode`): each subnode goes to the first child that matches among the names
there when its turn comes, or to a new one in front, and a child is the merge of what went there. The format is that of sections
5.2 to 5.5 of the Devicetree Specification. The readers and the full check take every version from 16 on, the writer and the editors
version 17.

**CoreMark.** Nodes and data are heap objects. The links of a list are compared as a map, so that relinking one node is one map
update. `MergeSpec` has the sort on values: runs merged two by two, and stability as "for every key, the elements with that key are
in the order they had". What the nested benchmarks answer is a function of the datum, given in advance: a datum is calculated at
most once before its cache is dropped, so every run is covered.

**Critical sections.** A word is the set of its one bits. Each masked section of `critical.c` is an atomic step; a run is any
sequence of requests, loop turns and count changes on any CPU. A callback is the list of steps that happen before it returns and
the CPU it returns on, so the loop is proved for every finite part of every execution.

**Journal.** Transactions and journal blocks are values in the order of the lists; a journal block has an identity, as its address
is one in the code. The file system's callbacks are contracts: `commit` appends the running transaction and starts a new one, as
`ext3_journal.c` does when its writes succeed, and the space test is that of ext3.

**printk.** Loads, the compare-and-swap and the release are atomic steps; the core number is read once per call, so preemption and
migration are all interleavings of the steps of calls.

Where code and documentation disagree the code is followed. The comment on `core_list_find` says an index is searched "if not 0";
the code searches by index whenever it is not negative. fdt_num_mem_rsv stops at the first entry of size 0, so a reserved range of
size 0 hides the ranges behind it (`FdtSession.CountsReserved` states exactly when). An overlay node without a unit address merges
into the first base node that matches it with one, so the override law does not hold for all names: `FdtMergeLaws.UnitAddressClash`
is where it fails and `FdtMergeLaws.LawExactly` says exactly when it holds. Applying an overlay twice has a condition of its own
(`FdtMergeAgain.AppliedTwice`, `FdtMergeAgain.IdempotentExactly`). fdt_get_path takes a name off by going back to the slash before
it, so a name that holds a slash leaves a part of itself behind (`FdtGetPath.SlashLeft`; `FdtGetPath.GetPath` states exactly when).
The room test for a new string is an unsigned difference that also passes when the string would begin in front of the buffer
(`FdtSw.RoomTestExactly`, `FdtSession.NameOverruns`). `hello_srs.c` line 75 leaves the accumulator uninitialised; the
model starts it at zero, as the sums need.

## Model

| member | source | states |
|---|---|---|
| `FdtTokens.ScanDec` | third-party/libfdt/fdt.c:162-221 | scanning a structure block yields tokens whose bytes are exactly the front of the block and whose last is FDT_END |
| `FdtTokens.DecScan` | third-party/libfdt/fdt.c:162-221 | bytes that decode to tokens without FDT_END, then FDT_END, scan to exactly those tokens, whatever follows |
| `FdtTokens.SpliceStream` | third-party/libfdt/fdt_rw.c:54-95 | cutting the bytes of some tokens out of a block and putting the bytes of others in replaces those tokens in the stream and no others, also when the string table has grown |
| `FdtTokens.BigEndian32` | third-party/libfdt/include/libfdt.h:141-149 | numbers are ordered as the byte strings of their cells are, and no two cells hold the same: with all 32-bit values in range there is one such reading |
| `FdtTree.ParseFlat` | third-party/libfdt/fdt.c:247-285 | parsing the flattened form of a level gives the level back and stops at the tag that closes it |
| `FdtTree.FlatParse` | third-party/libfdt/fdt.c:247-285 | whatever parses is the flattened form of its tree followed by the closing tag |
| `FdtTree.TreeOfFlat` | third-party/libfdt/fdt_check.c:13-96 | a stream has a tree exactly when it is that tree flattened and then FDT_END: parsing and flattening are inverse |
| `FdtTree.SpliceTree` | third-party/libfdt/fdt_rw.c:54-95 | a byte splice at the offset of a place in the tree is the tree edit at that place, for every offset and every replacement |
| `FdtBlob.OffsetPtr` | third-party/libfdt/fdt.c:140-160 | for every offset and length, a place if and only if the bytes lie inside the structure block, which before version 17 reaches to the end of the blob; no 32-bit sum lets others through |
| `FdtBlob.NextTag` | third-party/libfdt/fdt.c:162-221 | returns the tag and the aligned next offset, or FDT_END with BADSTRUCTURE or TRUNCATED, for every offset; never reads outside the structure block |
| `FdtBlob.TagAtSuffix` | third-party/libfdt/fdt.c:162-221 | at every token boundary fdt_next_tag returns the tag of the token there and the offset of the next |
| `FdtRo.CheckNodeOffset` | third-party/libfdt/fdt.c:223-233 | succeeds exactly for aligned offsets of FDT_BEGIN_NODE and returns the offset behind the name, else BADOFFSET |
| `FdtRo.NextNode` | third-party/libfdt/fdt.c:247-285 | from any node, or from -1, stops at the next FDT_BEGIN_NODE with the depth counted, at the tag that takes the depth below zero, or at the end |
| `FdtRo.NodeEndOffset` | third-party/libfdt/fdt_wip.c:73-81 | for a node of the tree, the offset behind its matching FDT_END_NODE, however deep its content |
| `FdtRo.GetName` | third-party/libfdt/fdt_ro.c:303-339 | the name of the node at the offset, BADOFFSET for anything else |
| `FdtRo.NodenameEq` | third-party/libfdt/fdt_ro.c:13-32 | true exactly when the name is equal, or is the argument followed by a unit address and the argument has none; false for every offset that the node check refuses |
| `FdtRo.SubnodeOffset` | third-party/libfdt/fdt_ro.c:225-242 | the first child of the node that matches under the unit-address rule, NOTFOUND when there is none |
| `FdtEdit.FirstKid` | third-party/libfdt/fdt_ro.c:225-241 | a search among children finds one whenever one on the level matches, and never one behind another that matches |
| `FdtEdit.KidMatches` | third-party/libfdt/fdt_ro.c:225-241 | what it finds is a node of the level and matches |
| `FdtRo.FirstSubnode` | third-party/libfdt/fdt.c:287-296 | the first child of the node in the tree, NOTFOUND when it has none |
| `FdtRo.NextSubnode` | third-party/libfdt/fdt.c:298-313 | the next node on the same level in the tree, NOTFOUND behind the last |
| `FdtRo.WalksOf` | third-party/libfdt/fdt.c:247-313 | the flat walks from a node that count depth find its end, its first matching child and its first matching later sibling |
| `FdtGetPath.Subnodes` | third-party/libfdt/include/libfdt.h:239-242 | the first/next loop enumerates exactly the children of the node, in order |
| `FdtProps.GetString` | third-party/libfdt/fdt_ro.c:34-98 | on a finished blob of version 16 or later succeeds exactly when a terminated string starts at the offset inside the strings block, which before version 17 reaches to the end of the blob, and returns it |
| `FdtProps.StringEq` | third-party/libfdt/fdt_ro.c:105-112 | true exactly when the string at the name offset is the given one |
| `FdtProps.NextProp` | third-party/libfdt/fdt_ro.c:201-223 | skips NOPs and stops at the next property of the level, NOTFOUND at a subnode or the end of the level |
| `FdtProps.CheckPropOffset` | third-party/libfdt/fdt.c:235-245 | succeeds exactly for aligned offsets of FDT_PROP |
| `FdtProps.FirstPropertyOffset` | third-party/libfdt/fdt_ro.c:341-349 | the first property of the node in the tree |
| `FdtProps.NextPropertyOffset` | third-party/libfdt/fdt_ro.c:351-357 | the next property of the same node in the tree |
| `FdtProps.GetProperty` | third-party/libfdt/fdt_ro.c:397-425 | the offset of the first property of that name of the node, NOTFOUND when it has none |
| `FdtEdit.FirstProp` | third-party/libfdt/fdt_ro.c:397-432 | a search for a property finds one whenever one is in front of the first subnode, and never one behind another of that name |
| `FdtProps.GetpropByOffset` | third-party/libfdt/fdt_ro.c:472-503 | name and value of the property at the offset, with the exact conditions for success |
| `FdtGetprop.Getprop` | third-party/libfdt/fdt_ro.c:454-470 | the value of the first property of that name of the node, none when it has none or the offset is no node |
| `FdtGetprop.SetThenGet` | third-party/libfdt/fdt_rw.c:281-300 | after fdt_setprop succeeds fdt_getprop returns the value that was set, and for every other name what it returned before |
| `FdtRw.Memmove` | third-party/libfdt/fdt_rw.c:54-68 | the destination becomes what the source was, for every overlap, and nothing else changes |
| `FdtRw.Splice` | third-party/libfdt/fdt_rw.c:54-68 | the exact error for every argument; on success everything behind the splice point has moved by the difference |
| `FdtRw.OrderedExactly` | third-party/libfdt/fdt_rw.c:13-24 | on a blob whose blocks lie inside it the test with its 32-bit sums refuses exactly the layouts whose blocks are out of order |
| `FdtRw.SpliceStruct` | third-party/libfdt/fdt_rw.c:83-95 | NOSPACE exactly when the data would not fit; on success the block before and behind the splice and the strings are as before |
| `FdtRw.StorePropHeader` | third-party/libfdt/fdt_rw.c:233-235 | the three cells of a property header are written and nothing else |
| `FdtRw.SpliceBlob` | third-party/libfdt/fdt_rw.c:54-95 | SpliceTree for two states of a blob |
| `FdtRw.DelNode` | third-party/libfdt/fdt_rw.c:389-401 | on success the parsed tree is the old one without that node; fails with everything unchanged exactly when there is no such node or the layout is bad |
| `FdtRw.AddSubnode` | third-party/libfdt/fdt_rw.c:340-387 | EXISTS when a child matches, NOSPACE exactly when it does not fit; on success the parsed tree is the old one with an empty node behind the properties of the parent, at the offset returned |
| `FdtSetprop.FindString` | third-party/libfdt/fdt.c:315-325 | a place in the table where the terminated string stands, none exactly when there is none |
| `FdtSetprop.FindAddString` | third-party/libfdt/fdt_rw.c:127-155 | an offset that resolves to the name; the table grows by exactly the name when it is new, every name already resolvable stays so, NOSPACE exactly when it does not fit |
| `FdtSetprop.NameReused` | third-party/libfdt/fdt_rw.c:127-156 | a name that is in the table as a terminated string, were it the end of a longer one, takes no room |
| `FdtSetprop.UndoString` | third-party/libfdt/fdt_rw.c:98-103 | taking the last string off again leaves the blocks and sizes as they were before it was added |
| `FdtSetprop.ResizeProperty` | third-party/libfdt/fdt_rw.c:186-204 | finds the property of the node and makes its value area the new length, or reports why not with nothing changed |
| `FdtSetprop.AddProperty` | third-party/libfdt/fdt_rw.c:206-237 | room and header for a new first property with its name in the strings, or nothing changed, including rollback of a string just added |
| `FdtSetprop.SetpropPlaceholder` | third-party/libfdt/fdt_rw.c:262-279 | room for the value in the old property, or in a new first one; the exact error otherwise, with nothing changed |
| `FdtSetprop.Setprop` | third-party/libfdt/fdt_rw.c:281-295 | on success the parsed tree is the old one with that property of that node set, or put first; NOSPACE exactly when the bytes needed do not fit; on every failure blocks, header and tree are as before |
| `FdtEdit.FindPropEdit` | third-party/libfdt/fdt_ro.c:397-425 | replacing at the offset the search finds is setting the first property of that name |
| `FdtEdit.SetPropVals` | third-party/libfdt/fdt_rw.c:262-279 | a property that is set has its new value and every other the one it had |
| `FdtEdit.SetPropPlace` | third-party/libfdt/fdt_rw.c:262-279 | it is where the first of that name was, or else in front of everything |
| `FdtEdit.AddKidAt` | third-party/libfdt/fdt_rw.c:362-371 | inserting behind the leading properties and NOPs is adding a first child |
| `FdtEdit.LeadOnly` | third-party/libfdt/fdt_rw.c:358-366 | only properties and NOPs are in front of a new subnode |
| `FdtWip.NopNode` | third-party/libfdt/fdt_wip.c:83-94 | on success the node is replaced by as many NOPs as it had words and the strings are untouched; fails exactly when there is no such node |
| `FdtWip.NopMeansDeleted` | third-party/libfdt/fdt_wip.c:83-94 | without its NOPs the tree after fdt_nop_node is the tree after fdt_del_node, for every node |
| `FdtWip.NopKeepsOffsets` | third-party/libfdt/fdt_wip.c:51-94 | the NOP form keeps the size of the tree, and every offset outside the node still has the tag, name and value it had |
| `FdtWip.AddThenDelete` | third-party/libfdt/fdt_rw.c:340-401 | fdt_add_subnode and then fdt_del_node at the offset returned restore the structure block, the strings block and the header byte for byte |
| `FdtOverlay.ApplyNode` | third-party/libfdt/fdt_overlay.c:767-812 | although offsets move under it, on success the content of the target is the recursive override-merge of the two nodes and nothing outside the target has changed; on failure nothing outside has; it does succeed whenever the base has room for what the overlay can take |
| `FdtOverlay.ApplyProps` | third-party/libfdt/fdt_overlay.c:774-791 | the property loop sets each property of the overlay node in the target, in order |
| `FdtOverlay.EnsureKid` | third-party/libfdt/fdt_overlay.c:793-803 | the child the merge goes on in: the first that matches, or a new empty one |
| `FdtMergeLaws.MergedNode` | third-party/libfdt/fdt_overlay.c:767-812 | for every base and any number of overlays merged one after another: the properties of a merged node, the names of its children in order, and each child as the merge of exactly the subnodes that went there, in order |
| `FdtMergeLaws.MergeLookup` | third-party/libfdt/fdt_overlay.c:767-812 | at every relative path a property has the last value the overlays give it, else the one the base had, whenever each subnode lands under its own name: the first match among the names there when its turn comes is its own, or there is none |
| `FdtMergeLaws.LawExactly` | third-party/libfdt/fdt_overlay.c:767-812 | for a property that is nowhere in the base and tells overlay nodes at the same path apart, that law holds at all paths if and only if every subnode lands under its own name |
| `FdtMergeLaws.PathValue` | third-party/libfdt/fdt_ro.c:250-509 | what fdt_path_offset and then fdt_getprop read below a node is the lookup at the names of the nodes the path leads to |
| `FdtMergeLaws.MergedBlob` | third-party/libfdt/fdt_overlay.c:767-812 | read off the merged blob with those two calls, every path that leads somewhere finds the value of the overlays for that node, else that of the base |
| `FdtMergeAgain.MergeIdempotent` | third-party/libfdt/fdt_overlay.c:767-812 | applying the same overlays a second time changes nothing whenever each subnode, searched for among the names there are in the end, is found where it went |
| `FdtMergeAgain.IdempotentExactly` | third-party/libfdt/fdt_overlay.c:767-812 | for overlays whose subnodes each have a property that no sibling has, the second application changes nothing if and only if that condition holds |
| `FdtMergeAgain.ApplyTwice` | third-party/libfdt/fdt_overlay.c:767-812 | on a blob: when both applications succeed the second leaves the tree as it was under that condition, for marked overlays exactly then; with room for twice the overlay both succeed |
| `FdtMergeAgain.AppliedTwice` | third-party/libfdt/fdt_rw.c:362-371 | for every name and the same name with a unit address: an overlay that brings both in this order is applied correctly once, and a second time merges the first node into the second |
| `FdtMergeLaws.UnitAddressClash` | third-party/libfdt/fdt_ro.c:13-32 | for every name and the same name with a unit address: the law fails for an overlay node without the address when only the node with it is there, and holds when it stands behind one without |
| `FdtCheck.NumMemRsv` | third-party/libfdt/fdt_ro.c:189-199 | the index of the first entry of size 0, TRUNCATED exactly when there is none inside the blob |
| `FdtCheck.HeaderExactly` | third-party/libfdt/fdt.c:52-138 | from version 16 on the header check passes exactly the headers that name a supported version and put every block between the header and the end of the blob, as unbounded sums; such a blob can be walked, and read unless it is of 2147483647 bytes |
| `FdtCheck.CheckStructure` | third-party/libfdt/fdt_check.c:32-96 | accepts exactly the streams that parse, with properties that resolve and at most one top-level node; of a blob that fdt_ro_probe_ finds too long only one without nodes and properties |
| `FdtCheck.PassesIff` | third-party/libfdt/fdt_check.c:32-96 | the depth counter and the flag accept exactly the balanced streams with one nameless root at most and nothing behind it |
| `FdtCheck.TopLevelMeans` | third-party/libfdt/fdt_check.c:39-85 | in what the loop accepts every node of the top level is nameless and the last thing there |
| `FdtCheck.TopLevelElse` | third-party/libfdt/fdt_check.c:39-85 | and in a tree it does not accept one is not |
| `FdtCheck.CheckFull` | third-party/libfdt/fdt_check.c:13-96 | for every blob of version 16 or later and every buffer size: returns 0 if and only if the header is in the buffer and good, the reservation map is terminated, and the structure block is the encoding of a tree with at most one top-level node, nameless and last, whose property names all resolve |
| `FdtSw.GrabSpace` | third-party/libfdt/fdt_sw.c:94-107 | grows the structure block exactly when it stays clear of the strings |
| `FdtSw.BeginNode` | third-party/libfdt/fdt_sw.c:219-234 | appends exactly one node start to what has been written, or fails with nothing changed; the exact error |
| `FdtSw.EndNode` | third-party/libfdt/fdt_sw.c:236-248 | appends exactly one node end, or fails with nothing changed; the exact error |
| `FdtSw.AddString` | third-party/libfdt/fdt_sw.c:250-265 | stays inside the buffer exactly when the strings with this one do; then it puts the string in front of the table that grows down and returns a negative offset that resolves to it while every other offset resolves as before, or 0 exactly when it does not fit |
| `FdtSw.RoomTestExactly` | third-party/libfdt/fdt_sw.c:257-259 | the unsigned comparison lets a string through if and only if it fits or would begin in front of the buffer |
| `FdtSw.NameOffset` | third-party/libfdt/fdt_sw.c:276-313 | with or without reuse of names, an offset that resolves to the name; inside the buffer exactly when the strings with the bytes it needs are, none for a name that is reused |
| `FdtSw.SwNameReused` | third-party/libfdt/fdt_sw.c:276-309 | a name that is in the table takes no room, unless the blob was created without de-duplication |
| `FdtSw.Property` | third-party/libfdt/fdt_sw.c:293-335 | inside the buffer exactly when the strings with the bytes the name needs are; then it appends exactly one property with that name and value, or fails with what was written, the strings and the sizes unchanged, including rollback of a name just added |
| `FdtSw.GetSwString` | third-party/libfdt/fdt_ro.c:34-98 | on a blob being written succeeds exactly when a terminated string starts that far below the end of the buffer, and returns it; BADSTATE exactly while the structure block is empty |
| `FdtSw.Relocate` | third-party/libfdt/fdt_sw.c:355-376 | the loop turns every negative name offset into the real one and leaves every token and value as it was |
| `FdtSw.Finish` | third-party/libfdt/fdt_sw.c:337-384 | the finished blob scans to exactly what was written, every name resolved, then FDT_END and nothing behind it; fails with nothing changed exactly when FDT_END does not fit |
| `FdtSession.Create` | third-party/libfdt/fdt_sw.c:109-141 | the error for every size and flag word; on success an empty reservation map |
| `FdtSession.AddReservemapEntry` | third-party/libfdt/fdt_sw.c:188-206 | appends exactly one range to the map, or fails with nothing changed |
| `FdtSession.FinishReservemap` | third-party/libfdt/fdt_sw.c:208-217 | terminates the map and opens an empty structure block |
| `FdtSession.ProbesMean` | third-party/libfdt/fdt_sw.c:13-92 | a finished blob refuses every call of the writer, one being written takes ranges until the map is closed and tokens from then on; the error for each |
| `FdtSession.BigEndian64` | third-party/libfdt/include/libfdt.h:161-173 | addresses and sizes of the map are ordered as their byte strings are |
| `FdtSession.Run` | third-party/libfdt/fdt_sw.c:94-384 | every run of create, reserve, begin, property, end and finish calls, with the blob resized anywhere between them, that is finished gives a blob that reads back as exactly the ranges and exactly the calls that were not refused, in order, also when the caller went on after a refusal; nothing is refused when the flags are known and the blob has that many bytes at every size it takes, and nothing is written in front of the buffer when the names together fit at every size |
| `FdtSession.NameOverruns` | third-party/libfdt/fdt_sw.c:250-265 | a run in a buffer of 200 bytes that comes to write in front of it although every name is shorter than the buffer |
| `FdtSession.CountsReserved` | third-party/libfdt/fdt_ro.c:175-199 | reading the map back finds all reserved ranges exactly when none of them has size 0, else those before the first that has |
| `FdtSession.RunThenCheck` | third-party/libfdt/fdt_check.c:13-96 | what a run finishes passes fdt_check_full exactly when the calls that were not refused were balanced with one nameless root at most and nothing behind it |
| `FdtSession.MoveEnds` | third-party/libfdt/fdt_sw.c:169-179 | head and string tail arrive whole for every relative position of the two buffers |
| `FdtSession.Resize` | third-party/libfdt/fdt_sw.c:148-186 | the exact error, with nothing changed; on success the head and the tail of the old buffer are in the new |
| `FdtSession.ResizeKeeps` | third-party/libfdt/fdt_sw.c:148-186 | a resized blob has had the same written to it and holds the same reserved ranges, in every state of the writer |
| `FdtPack.Pack` | third-party/libfdt/fdt_rw.c:403-507 | packing in place keeps the map as counted, the structure block, the strings and so the tree, and never grows the blob, for every terminated map with which the moves are safe; BADLAYOUT with nothing changed when the blocks are out of order |
| `FdtPack.PackIdempotent` | third-party/libfdt/fdt_rw.c:403-507 | packing a packed blob changes no byte and no header field |
| `FdtPack.Arrived3` | third-party/libfdt/fdt_rw.c:403-424 | three overlapping moves in this order lose no byte of any block when no block is run over before its turn |
| `FdtPack.SafeExactly` | third-party/libfdt/fdt_rw.c:403-424 | the three blocks survive the moves whatever their bytes if and only if no block is run over before its turn, other than by a move to the same place |
| `FdtPack.Unterminated` | third-party/libfdt/fdt_rw.c:494-507 | blobs with their blocks in order and room for one map entry, whose map is counted exactly when that entry ends it |
| `FdtPath.ChainFlat` | third-party/libfdt/fdt_ro.c:623-659 | the nodes open in the flat walk are the ancestors in the tree |
| `FdtPath.ChainNode` | third-party/libfdt/fdt_ro.c:623-659 | exactly the nodes of the tree have a chain of ancestors |
| `FdtPath.ChainParent` | third-party/libfdt/fdt_ro.c:673-681 | the node before the last of a chain has the last among its children |
| `FdtPath.SupernodeAtdepthOffset` | third-party/libfdt/fdt_ro.c:623-659 | the ancestor at that depth, NOTFOUND below the node, the depth of the node; negative exactly for offsets that are no node |
| `FdtPath.NodeDepth` | third-party/libfdt/fdt_ro.c:661-671 | the number of ancestors of the node |
| `FdtPath.ParentOffset` | third-party/libfdt/fdt_ro.c:673-681 | the true parent in the tree, NOTFOUND for the root |
| `FdtGetPath.GetPath` | third-party/libfdt/fdt_ro.c:571-621 | for every blob with one nameless root in front: the path of the node is returned if and only if it fits with a slash behind it and no node closed in front of it holds a slash in its name and has a path that fits; NOSPACE whenever it does not fit; the exact text written in every case; BADOFFSET for places that are no node; it reads in front of the buffer exactly behind the root with fewer than two slashes to spare |
| `FdtGetPath.PathWritten` | third-party/libfdt/fdt_ro.c:585-606 | what the walk has written at a node is its path exactly under those two conditions |
| `FdtPen.Arrives` | third-party/libfdt/fdt_ro.c:582-606 | the walk comes to a node with exactly as many names of its ancestors and itself as fit, or, when a node closed before held a slash, with slashes that no name accounts for |
| `FdtPen.LevelLeft` | third-party/libfdt/fdt_ro.c:582-606 | nodes that are passed leave the text as it was exactly when none of those written holds a slash |
| `FdtGetPath.NoneToSpare` | third-party/libfdt/fdt_ro.c:585-590 | without such a node there is no slash to spare, so every offset behind the root makes the source read in front of the buffer |
| `FdtGetPath.SlashLeft` | third-party/libfdt/fdt_ro.c:585-590 | behind a node named a/q a node c gets the path /a/c, for all such names |
| `FdtGetPath.PathOffset` | third-party/libfdt/fdt_ro.c:250-296 | where the names between the slashes lead from the root or from the node of the alias in front, each time to the first child that matches; BADPATH for an empty path or no such alias |
| `FdtGetPath.GetAlias` | third-party/libfdt/fdt_ro.c:528-554 | the value of that property of the aliases node up to its first NUL, when it starts with a slash and ends in a NUL |
| `FdtGetPath.AliasMeans` | third-party/libfdt/fdt_ro.c:540-552 | an alias stands for what is in front of the first NUL of a value that starts with a slash and ends in a NUL, and no other value is one |
| `FdtGetPath.PathRoundTrip` | third-party/libfdt/fdt_ro.c:250-621 | for every node of such a blob: looking up its path gives the node back if and only if every name on the way below the root is filled and holds no slash and no earlier sibling matches it under the unit-address rule |
| `FdtGetPath.CompsPath` | third-party/libfdt/fdt_ro.c:571-621 | splitting a path at its slashes gives the names it was written from if and only if each is filled and holds no slash |
| `FdtMaxPhandle.GetPhandle` | third-party/libfdt/fdt_ro.c:511-526 | the number in the first "phandle" if that has four bytes, else the one in the first "linux,phandle" if that has, else 0 |
| `FdtMaxPhandle.SetPhandle` | third-party/libfdt/fdt_ro.c:511-526 | what fdt_setprop puts into a "phandle" is what is read back; what it puts into a "linux,phandle" is, exactly when there is no "phandle" of four bytes |
| `FdtMaxPhandle.PhandleMeans` | third-party/libfdt/fdt_ro.c:511-526 | the same of the phandle that the highest is taken of |
| `FdtMaxPhandle.FindMaxPhandle` | third-party/libfdt/fdt_ro.c:114-140 | the highest phandle of all nodes of the tree |
| `FdtMaxPhandle.MaxIsMax` | third-party/libfdt/fdt_ro.c:114-140 | no node has a higher one |
| `FdtMaxPhandle.MaxIsThere` | third-party/libfdt/fdt_ro.c:114-140 | unless it is 0 some node has it |
| `FdtMaxPhandle.BeginIsNode` | third-party/libfdt/fdt.c:247-285 | every FDT_BEGIN_NODE of the stream is a node of the tree |
| `FdtPhandle.PhandleAddOffset` | third-party/libfdt/fdt_overlay.c:101-120 | adds to the four-byte cell in place when there is room, else the exact failure with nothing changed; the tree keeps its shape |
| `FdtPhandle.AdjustNodePhandles` | third-party/libfdt/fdt_overlay.c:137-158 | succeeds exactly when every phandle below the node has four bytes and room, and then exactly those cells are higher |
| `FdtListed.CellOfNode` | third-party/libfdt/fdt_overlay.c:137-158 | the cells it moves include those of both phandle properties of every node |
| `FdtListed.NodeOfCell` | third-party/libfdt/fdt_overlay.c:137-158 | and no others |
| `FdtListed.OkAt` | third-party/libfdt/fdt_overlay.c:101-112 | where no length is refused both have four bytes wherever they are |
| `FdtListed.NotOkAt` | third-party/libfdt/fdt_overlay.c:101-112 | where one is refused some has not |
| `FdtPhandle.PhandlesApart` | third-party/libfdt/fdt_overlay.c:137-158 | no two phandle cells of a tree overlap |
| `FdtPhandle.CanExactly` | third-party/libfdt/fdt_overlay.c:101-158 | cells that do not overlap have room one after another if and only if all of them have it in the original block |
| `FdtPhandle.Renumbered` | third-party/libfdt/fdt_overlay.c:101-158 | a phandle cell of a tree is higher by the distance without wrapping; any cell that touches none is as it was |
| `FdtPhandle.RenumberedApart` | third-party/libfdt/fdt_overlay.c:101-158 | what was not 0 exceeds the distance, and cells are equal after exactly when they were before |
| `FdtFixups.FixProperty` | third-party/libfdt/fdt_overlay.c:211-248 | fails exactly for a list that is not of whole words or a property that does not exist; else every cell at an offset that a word of the list gives, unless another of them touches it, is higher by delta modulo 2^32, and every byte outside of them is as it was |
| `FdtFixups.FixedMeans` | third-party/libfdt/fdt_overlay.c:237-247 | that, for each word of the list and each byte of the block |
| `FdtFixups.StrayReference` | third-party/libfdt/fdt_overlay.c:211-248 | a listed offset behind the value changes exactly the four bytes there and none of the value; on the tag of the next token it leaves a blob with no tree unless the sum is a tag again |
| `FdtFixups.UpdateLocalNodeReferences` | third-party/libfdt/fdt_overlay.c:201-269 | succeeds exactly when every listed property and node exists, and then exactly the listed cells are higher, each as often as it is listed; the fixups themselves are untouched |
| `FdtListed.OwnList` | third-party/libfdt/fdt_overlay.c:211-248 | the cell that a word of a list names: that many bytes into the value of the property of the same name of the node the list is about |
| `FdtListed.KidList` | third-party/libfdt/fdt_overlay.c:248-266 | the lists of a subnode are about the child that a search for its name finds |
| `FdtListed.NamedRaised` | third-party/libfdt/fdt_overlay.c:201-269 | a cell that a word names, unless one that another word names touches it, is higher by the distance modulo 2^32 |
| `FdtListed.UnnamedStays` | third-party/libfdt/fdt_overlay.c:201-269 | a byte of no cell that a word names is as it was |
| `FdtListed.GoodLists` | third-party/libfdt/fdt_overlay.c:211-234 | where the pass succeeds every list before the first subnode is of whole words and for a property that is there |
| `FdtListed.BadList` | third-party/libfdt/fdt_overlay.c:211-234 | where the property loop fails some list is not |
| `FdtListed.GoodKids` | third-party/libfdt/fdt_overlay.c:248-266 | where the subnode loop succeeds each subnode has a child of its name and the pass succeeds there |
| `FdtListed.BadKid` | third-party/libfdt/fdt_overlay.c:248-266 | where it fails some subnode has not |
| `FdtRenumber.UpdateLocalReferences` | third-party/libfdt/fdt_overlay.c:288-306 | the same from the root for the node at /__local_fixups__, and nothing without it |
| `FdtRenumber.Renumber` | third-party/libfdt/fdt_overlay.c:174-306 | succeeds if and only if every phandle of the overlay has four bytes and room and everything listed exists; then every phandle that no listed word touches is higher by the distance without overflow, every cell that a word names and nothing else touches is so modulo 2^32, every byte of neither is as it was, and every cell that none overlaps in part is higher as often as it is listed |
| `FdtRenumber.PhandleRaised` | third-party/libfdt/fdt_overlay.c:174-306 | the first of these for any phandle property of any node |
| `FdtRenumber.WordRaised` | third-party/libfdt/fdt_overlay.c:174-306 | the second for any word of any list |
| `FdtRenumber.RestStays` | third-party/libfdt/fdt_overlay.c:174-306 | the third for any byte |
| `FdtRenumber.AdjustLocalPhandles` | third-party/libfdt/fdt_overlay.c:174-180 | succeeds if and only if every phandle cell of the original block has four bytes and room; the fixups node is what it was unless it holds a phandle |
| `FdtRenumber.ReferenceKept` | third-party/libfdt/fdt_overlay.c:174-306 | a reference listed once equals a phandle after both passes exactly when it did before; one listed more often still names its node if and only if the surplus wraps to nothing |
| `FdtRenumber.ListedTwice` | third-party/libfdt/fdt_overlay.c:237-247 | a blob that lists a location twice is renumbered without complaint, and its reference no longer names the node it named, for any distance but 0 |
| `FdtRenumber.ListedBehind` | third-party/libfdt/fdt_overlay.c:237-247 | a blob with a value of two cells and a list of the second: the reference moves with the phandle it names and the literal in front of it stays |
| `FdtRenumber.RenumberAbove` | third-party/libfdt/fdt_overlay.c:1040-1061 | with the highest phandle of the base as the distance, every overlay phandle that is not 0 and that no reference touches ends above every four-byte "phandle" of the base and above every four-byte "linux,phandle" of a node without one |
| `FdtShape.CellStored` | third-party/libfdt/fdt_overlay.c:118-119 | a store into a property value is an edit of that value alone |
| `FdtFrozen.KeepNode` | third-party/libfdt/fdt_overlay.c:236-247 | a store into a property outside a node leaves the content of the node alone |
| `CoreMarkData.CalcFunc` | third-party/coremark/core_list_join.c:63-95 | with bit 7 set the low seven bits; otherwise the low seven bits of the answer of a nested benchmark for operations 0 and 1 and of the datum itself for all others; afterwards bit 7 is set, the low seven bits are the result and the upper byte is kept |
| `CoreMarkData.TouchTwice` | third-party/coremark/core_list_join.c:63-118 | a second comparison changes nothing, and neither the key nor the backup byte is ever changed |
| `CoreMarkData.CmpComplex` | third-party/coremark/core_list_join.c:101-105 | the difference of the two keys, which are then the low seven bits of the data, with bit 7 set in both |
| `CoreMarkData.CmpIdx` | third-party/coremark/core_list_join.c:112-118 | the difference of the two indices; both low bytes are what the high bytes were, and those are kept |
| `CoreMarkData.RegenRestores` | third-party/coremark/core_list_join.c:112-118 | exactly the data whose low byte equals its high byte comes back, whatever the low byte has become |
| `MergeSpec.MergeSorted` | third-party/coremark/core_list_join.c:457-483 | merging sorted runs gives a sorted run |
| `MergeSpec.MergeOnly` | third-party/coremark/core_list_join.c:457-483 | merging sorted runs keeps the order of elements with equal keys, those of the first run before those of the second |
| `MergeSpec.PassStable` | third-party/coremark/core_list_join.c:434-486 | a pass keeps the elements and, for every key, the order of the elements with that key |
| `MergeSpec.StableUnique` | third-party/coremark/core_list_join.c:406-425 | there is only one stable sort of a list |
| `CoreMarkLinks.TakeFirst` | third-party/coremark/core_list_join.c:463-482 | relinking the head of the first run behind the merged list keeps all three chains |
| `CoreMarkLinks.TakeSecond` | third-party/coremark/core_list_join.c:463-482 | relinking the head of the second run behind the merged list keeps all three chains |
| `CoreMarkSort.MergeRuns` | third-party/coremark/core_list_join.c:456-484 | the loop that relinks two runs computes their stable merge and leaves the rest of the list intact; two or more nodes are all touched by a comparison |
| `CoreMarkSort.OnePass` | third-party/coremark/core_list_join.c:434-488 | one pass merges the runs two by two, whatever the comparator rewrites |
| `CoreMarkSort.MergeSort` | third-party/coremark/core_list_join.c:426-496 | terminates on every list that is not empty and returns a stable sorted permutation of the same nodes by keys that are recorded in the data of every node when there are two or more |
| `CoreMarkBench.Find` | third-party/coremark/core_list_join.c:370-380 | the first node that matches by index or by data, or null |
| `CoreMarkBench.Reverse` | third-party/coremark/core_list_join.c:395-404 | the same nodes in reverse order |
| `CoreMarkBench.Promote` | third-party/coremark/core_list_join.c:161-167 | the node behind the found one moves behind the head, and the others keep their order |
| `CoreMarkBench.Remove` | third-party/coremark/core_list_join.c:316-327 | the links and data pointers after a removal |
| `CoreMarkBench.UndoRemove` | third-party/coremark/core_list_join.c:345-355 | the links and data pointers after putting a node back |
| `CoreMarkBench.RemoveUndone` | third-party/coremark/core_list_join.c:316-355 | removing and putting back restores every link and every data pointer |
| `CoreMarkBench.SortBack` | third-party/coremark/core_list_join.c:187-188 | sorting by index puts every node and every datum back |
| `CoreMarkBench.BenchList` | third-party/coremark/core_list_join.c:132-199 | for every list of at least three nodes in index order whose data bytes agree, every link, data pointer and datum is what it was, for any number of searches, either finder mode and any results of the nested benchmarks |
| `Critical.MaskOrder` | src/kernel/critical.c:91-94 | the test of the queueing loop compares masks by inclusion |
| `Critical.PendingQueued` | src/include/kernel/critical.h:249-251 | the pending bit is set exactly while the dispatcher is queued |
| `Critical.QueuedOnce` | src/kernel/critical.c:82-100 | no dispatcher is in a queue twice |
| `Critical.InsertOrdered` | src/kernel/critical.c:91-98 | the new entry goes behind every mask inside its own, so the queue stays ordered by inclusion and by time of request among equal masks |
| `Critical.RequestKeeps` | src/kernel/critical.c:70-103 | a request on any CPU keeps order, masks, membership and the balance of accepted and dispatched requests |
| `Critical.RequestMeans` | src/kernel/critical.c:79-100 | a request of a dispatcher that is not pending puts it and nothing else into the queue of its CPU, where the others keep their order, makes it pending and counts it as accepted; every other queue, mask and count is as it was; of a pending one it does nothing |
| `Critical.TurnMeans` | src/kernel/critical.c:31-44 | a turn takes exactly the head of the queue, which is then not pending and counted as dispatched; all else is as it was |
| `Critical.TakeKeeps` | src/kernel/critical.c:31-44 | a turn of the loop on any CPU keeps the same |
| `Critical.HeadRunnable` | src/kernel/critical.c:53-68 | if any queued dispatcher may run then the first may |
| `Critical.RunKeeps` | src/kernel/critical.c:21-103 | over every run of requests, turns and count changes on all CPUs the queues stay ordered and first-in first-out among equal masks, each dispatcher is queued at most once, and accepted requests are dispatches plus those still queued |
| `CriticalKernel.Kernel.RequestDispatch` | src/kernel/critical.c:70-103 | when the whole call returns nothing queued may run on the CPU it is then on, whatever happened in between; for a dispatcher that was pending nothing is done, and something may run exactly when the first in the queue may |
| `CriticalKernel.Kernel.QueueRequest` | src/kernel/critical.c:79-100 | the masked section: for a dispatcher that is not pending the queue of the CPU has it in addition, it is pending and accepted once more, and no other queue, mask or count changes; for a pending one nothing changes |
| `CriticalKernel.Kernel.NextPending` | src/kernel/critical.c:31-44 | takes from the head of the queue the runnable dispatcher that comes before all others queued there, and nothing else, or finds that nothing queued may run |
| `CriticalKernel.Kernel.DispatchRequired` | src/kernel/critical.c:53-68 | true exactly when some queued dispatcher may run |
| `CriticalKernel.Kernel.DispatchPending` | src/kernel/critical.c:21-51 | whatever the dispatch functions do and wherever they return, each dispatcher that ran was the first that might on the CPU the loop was then on, and the loop is left only when nothing queued may run on the CPU it is then on |
| `CriticalKernel.TurnThenCallback` | src/kernel/critical.c:31-48 | each dispatch is a turn on the CPU the thread is on, followed by what the dispatch function does |
| `CriticalKernel.DoAppend` | src/kernel/critical.c:21-103 | a run is its steps one after another |
| `JournalSpec.WrapInRing` | src/fs/journal.h:310-315 | one wrap brings the tail back into the ring if and only if the transaction logged less than what is left of the ring and one round more, so always when it logged no more than the ring holds |
| `JournalSpec.AroundMore` | src/fs/journal.h:310-315 | passing no more than the ring holds with one wrap is addition modulo the length of the ring |
| `JournalSpec.LoggedAppend` | src/fs/journal.c:149-150 | the log blocks of a list of transactions are those of each together |
| `JournalSpec.SectorsApart` | src/fs/journal.h:320-321 | block number and sector number name each disk sector once |
| `JournalSpec.ReplayLatest` | src/fs/journal.c:125-147 | writing journal blocks home in order leaves the latest version of each block and the rest of the disk alone |
| `JournalSpec.CheckpointMeans` | src/fs/journal.c:114-219 | after a checkpoint a logged sector is clean exactly when its latest journal block was in a checkpointed transaction, and then the cache agrees with the disk; otherwise it is dirty, flagged, and holds that block |
| `JournalSpec.CheckpointPins` | src/fs/journal.c:114-166 | what is still in the log stays pinned |
| `Journal.Journal.Start` | src/fs/journal.c:64-87 | reserves the credits out of the free space, checkpointing first exactly when they do not fit, which carries the committed blocks to disk; gives a handle if and only if memory, the transaction limit and the space after that checkpoint allow it, and otherwise leaves the running transaction unchanged |
| `Journal.Journal.Stop` | src/fs/journal.c:89-112 | the last handle of the running transaction, or of one that a forced commit left waiting, commits what runs and checkpoints: the disk is the replay of the whole log, the cache is clean and all space is free; any other handle only counts down |
| `Journal.Journal.Commit` | src/fs/driver/ext3/ext3_journal.c:22-46 | the running transaction joins the checkpoint list and a new one runs; log, cache and space are unchanged |
| `Journal.Journal.DirtyBlock` | src/fs/journal.c:168-219 | the block becomes the latest of its home block, in the log and in every sector of the cache, dirty and flagged; other buffers, the space and the tail are as they were |
| `Journal.Journal.CleanBlock` | src/fs/journal.c:125-145 | the sector loop with its early exit clears exactly the buffers whose latest journal block this is |
| `Journal.Journal.Checkpoint` | src/fs/journal.c:114-166 | home blocks become the replay of the listed transactions in order, exactly the buffers last written by them are cleaned, the tail moves on by their log blocks modulo the length of the ring, and their credits are free |
| `Journal.Run` | src/fs/journal.c:64-266 | over any run of start, dirty, stop, commit and checkpoint, free space plus the credits of the running and all uncheckpointed transactions is constant, the tail stays in the ring, and no block is lost: the home blocks once everything in the log is written to them are what the accepted blocks, in order, make of what they were |
| `Bignum.AddRow` | src/service/hello_srs.c:13-15 | the inner loop adds one digit times the number, shifted |
| `Bignum.Multiply` | src/service/hello_srs.c:10-19 | onto a zeroed accumulator, digit sums worth exactly the product, each at most 81 times the length |
| `Bignum.TopEmpty` | src/service/hello_srs.c:34-39 | the top place of a product is empty, so nothing is carried past it |
| `Bignum.Carry` | src/service/hello_srs.c:32-45 | the same number in normal form, zero above its length |
| `Bignum.Assignment` | src/service/hello_srs.c:21-30 | the number moves over and the accumulator is zero |
| `Bignum.MultiplyBy` | src/service/hello_srs.c:107-112 | for every product that fits, multiply, carry and assign replace a by a times b in normal form and leave the accumulator zero |
| `Bignum.Read` | src/service/hello_srs.c:47-59 | the decimal digits of the number, lowest first |
| `Bignum.Factorial` | src/service/hello_srs.c:100-112 | the loop yields the digits of n factorial for every n whose factorial fits the array |
| `Printk.StepKeeps` | src/lib/printk.c:42-61 | each atomic step keeps: at most one call holds the lock, the owner is the core that call read or nobody when there is none, no call spins past the limit |
| `Printk.RunKeeps` | src/lib/printk.c:37-76 | the same over every interleaving of calls on all cores, nested or preempted or moved |
| `Printk.NobodyHolds` | src/lib/printk.c:37-61 | the owner is nobody exactly when no active call holds the lock |
| `Printk.OwnerChanges` | src/lib/printk.c:47-61 | only the call that holds the lock releases it, only a call that found it free takes it, and a holder keeps it until it leaves |
| `Printk.OneAtATime` | src/lib/printk.c:22-35 | one message at a time: between two characters that a call prints under the lock no other call prints under it, in every reachable state |
| `Printk.SpinLimit` | src/lib/printk.c:49-54 | in every run every call makes at most the limit of attempts |
| `Printk.Console.PrintkLock` | src/lib/printk.c:42-55 | with any interference ends, holding the lock exactly when it reports so; without the lock it either found its own core inside at once or made every attempt up to the limit |
| `Printk.Console.PrintkUnlock` | src/lib/printk.c:57-61 | releases exactly when this call had taken the lock |
| `Printk.Console.Vprintk` | src/lib/printk.c:64-76 | the whole text goes out in order, every character under the lock or, when it was not taken, none; the call ends and the invariant holds |

## Left out

- FdtRw.DelNode: the offset is a node of a readable blob, or one the offset check refuses; an offset inside another token is not modelled, and the same holds for FdtRw.AddSubnode, FdtSetprop.Setprop and FdtWip.NopNode.
- FdtWip.NopNode: structure and strings blocks do not overlap; FdtPhandle.AdjustNodePhandles and what builds on it ask the same.
- FdtSw.Property: where it writes in front of the buffer there is no result; FdtSession.Run ends there.
- FdtSession.Run: a resize leaves the blob where it is; moving it to another buffer is FdtSession.Resize and FdtSession.ResizeKeeps alone.
- FdtSession.Create: a buffer of exactly 2147483647 bytes is not modelled; blobs of that total size are left out except in FdtCheck.CheckFull.
- FdtPack.Pack: the map is terminated and the moves are safe and stay inside the blob; the source tests neither (FdtPack.Unterminated, FdtPack.SafeExactly).
- FdtGetPath.GetPath: where it reads in front of the buffer there is no result.
- FdtFixups.UpdateLocalNodeReferences: listed offsets stay inside the values they point into and outside the fixups node; the source does not test this (FdtFixups.StrayReference is one list that does not).
- FdtRenumber.Renumber: the same of the lists as the second pass reads them; a cell that a listed one overlaps only in part is given by FdtFixups.UpdateLocalNodeReferences alone.
- FdtOverlay.ApplyNode: on failure the target may be half merged, as in the source; only what is outside it is stated.
- Journal.Journal.Stop: a handle whose transaction a checkpoint has freed is not stopped; the source would use the freed transaction.
- Journal.Journal.Commit: writing descriptor and commit blocks to the log, and its failures, are not modelled.
- CoreMarkBench.BenchList: the checksum it returns is not modelled, nor are the counters in the results structure.
- Bignum.Factorial: request parsing and printing around the loop are not modelled; the accumulator is zero at first, although hello_srs.c leaves it uninitialised at line 75.
- Printk.Console.Vprintk: formatting is not modelled; the text is given.
- libfdt: blob versions below 16, and versions other than 17 in the writer and the editors, the alignment test of the blob's address, fdt_open_into, the memory reservation editor, fdt_set_name, fdt_appendprop, fdt_delprop, fdt_nop_property, in-place setprop, string lists, address cells, compatible and phandle searches, `__fixups__`, conflicting phandles, symbol update and targets of overlays.
- CoreMark: list creation, the state and matrix benchmarks.
- Memory ordering on real hardware: the steps of `printk.c` and `critical.c` are taken as atomic.
- The journal's log writer, superblock update and slab allocation.
