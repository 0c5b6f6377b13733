# Verification of the boot loader's core components

This project models five components of the repository in Dafny and proves what
they promise. Each model follows its source step by step: same branches, same
error codes, same constants.

**The heap allocator** (`lib/libc/stdlib.c`; modules `Heap*`). The arena is a
run of chunks with boundary tags in word memory, 128 bins, the bit index over
blocks of bins, the last remainder and the top chunk. `HeapAllocator.Heap` has
malloc, free, realloc, calloc, memalign and mallinfo with their searches and
merges. Every operation keeps all invariants of the tiling, the tags and the
bins; the chunk malloc takes is the one that best fit promises; free memory is
never left in pieces; and to its callers the heap is a set of separate blocks
that keep what is stored in them (`HeapClient.Client`).

**The flattened device tree** (`lib/fdt`; modules `Fdt*`). Bytes are read as
tokens, tokens as a tree. `FdtWriter.Writer` is the sequential writer: what it
finished reads back as what was written, and is a tree like any other
(`FdtFinished`). `FdtEdit.Blob` edits a blob by splicing: every operation equals
the edit of the abstract tree, or changes nothing when there is no room. On top
stand in-place changes and NOPs, paths with their round trip, and the application
of an overlay: raising phandles, moving the references to them, finding the
targets of the fragments and merging each into its own (`FdtMerge.Apply`). Where
32-bit tests wrap around, they do so in the model, and the inputs that then pass
are stated exactly. The format is that of sections 5.4 and 5.5 of the Devicetree
Specification, version 0.4.

**The Kconfig simplifier** (`scripts/kconfig/expr.c`; modules `KconfigExpr`,
`KconfigEq`, `KconfigJoin`, `KconfigDups`, `KconfigTransform`). Expressions have
values n, m and y. Each rewriting keeps the value under every assignment, and
ends. Where it does not, the exact condition is stated.

**The Kconfig symbol engine** (`scripts/kconfig/symbol.c`; modules
`KconfigGraph`, `KconfigValue`, `KconfigCalc`). The search for recursive
dependencies finds an error if and only if there is a cycle. The recursive
computation stores what the configuration defines, and a value that the user may
set is the value that comes out. One family of accepted values is not: a value
that a symbol has by default above its prompt.

**Scheduler and semaphore** (`common/thread.c`, `common/semaphore.c`; modules
`Sched*`). A run of the system is any sequence of the regions that run with
preemption off. After every rescheduling exactly one thread runs, it has top
priority, round robin is fair, and no wakeup is lost.

**The file system core** (`common/vfs.c`; modules `Vfs*`). Over any sequence of
operations no open file refers to a freed node and no two share a descriptor,
with mounts inside mounts too. What an unlink or an umount puts out of reach is
stated exactly (`VfsReach`).

The invariants that hold over whole runs are the predicates `Valid` (of
`HeapAllocator.Heap`, `FdtEdit.Blob`, `SchedKernel.Kernel`, `Vfs.FileSystem`),
`Building` and `Complete` (of `FdtWriter.Writer`), `Inv` (of
`HeapClient.Client`) and `Settled` (of `KconfigCalc.Engine`): each operation
asks for its class's invariant and gives it back, so they hold after any run.

Two hypotheses appear in the Kconfig theorems: a bool is never m, and a tristate
is m only while modules are on (`KconfigExpr.Sound`); and constants that are
compared with bools and tristates can be told apart (`KconfigExpr.Clear`), which
y, m and n always can. Where the source's comment on `expr_join_and` promises a
rule for all constants, the code is followed and the rule's exact condition is
proved.

Check the project with `dafny verify dfyconfig.toml` (Dafny 4.11).

## Model

| member | source | states |
|---|---|---|
| HeapSizes.RequestFits | lib/libc/stdlib.c:1417-1420 | the padded size of a request is a multiple of 16 that holds the bytes and one header word, unless the padding wraps around 64 bits |
| HeapBins.BinIndexMonotone | lib/libc/stdlib.c:1633-1644 | a smaller chunk never has a higher bin, across all the uneven bin widths |
| HeapBins.SmallBinExact | lib/libc/stdlib.c:1646-1656 | a small bin holds chunks of one size only |
| HeapBins.SomeBitAbove | lib/libc/stdlib.c:2461-2471 | comparing the bit of a block with `binblocks` as numbers tells whether any bit at or above it is set, so the scan over blocks ends |
| HeapTags.ReadHead | lib/libc/stdlib.c:1449-1495 | a size field gives the size, whether the chunk below is in use and, when not, where that chunk begins |
| HeapTags.Seal | lib/libc/stdlib.c:1509-1521 | after `set_head` and `set_foot` of one chunk all boundary tags agree with the tiling again |
| HeapTags.SealSplit | lib/libc/stdlib.c:2494-2501 | the same for a chunk cut in two |
| HeapBins.LinkBinned | lib/libc/stdlib.c:1919-1946 | `frontlink` keeps the bin sorted by decreasing size, the new chunk behind all larger ones |
| HeapBins.UnlinkBinned | lib/libc/stdlib.c:1951-1957 | taking a chunk off its list keeps every list sorted and every other chunk listed once |
| HeapTotals.LayoutUnique | lib/libc/stdlib.c:1353-1386 | two arenas with the same bounds and the same chunks in use are laid out alike whatever calls led there: free neighbours are always merged |
| HeapTotals.Conservation | lib/libc/stdlib.c:3411-3441 | chunks in use, chunks on the lists and `top` add up to all memory handed out by the system |
| HeapTotals.FreeIsBinned | lib/libc/stdlib.c:1353-1386 | the free chunks are `top` and the chunks on the lists, each of them once |
| HeapTotals.SumAll | lib/libc/stdlib.c:1353-1386 | the sizes of all chunks add up to the size of the arena |
| HeapChoice.BestFitIsSmallest | lib/libc/stdlib.c:2331-2592 | the chunk found by the scan is the smallest of all chunks in the bins that fit, although only a lossy bit index says which bins are filled |
| HeapChoice.HigherBinsFit | lib/libc/stdlib.c:2394-2420 | a chunk from a bin above the request's own always fits |
| HeapChoice.OddBinsEmpty | lib/libc/stdlib.c:1646-1656 | sizes are multiples of 16, so every second small bin stays empty |
| HeapChoice.RebinnedBestFit | lib/libc/stdlib.c:2441-2453 | a best fit found after `last_remainder` went into its bin was one before |
| HeapAllocator.Heap.constructor | lib/libc/stdlib.c:1596-1621 | an arena not yet started: no chunks, all bins empty |
| HeapAllocator.Heap.Frontlink | lib/libc/stdlib.c:1919-1946 | links a free chunk into the bin of its size and marks the block of the bin |
| HeapAllocator.Heap.Unlink | lib/libc/stdlib.c:1951-1957 | takes a chunk off whichever list it is on |
| HeapAllocator.Heap.ScanBin | lib/libc/stdlib.c:2487-2516 | the last chunk of a bin that fits, and so the smallest one; no fit only if none is large enough |
| HeapAllocator.Heap.TryExact | lib/libc/stdlib.c:2360-2420 | an exact fit from the request's own bin, or proof that there is none, and the bin from which larger chunks are to be sought |
| HeapAllocator.Heap.SearchBlock | lib/libc/stdlib.c:2481-2527 | the first bin of a block that holds a chunk large enough, and its smallest fitting chunk |
| HeapAllocator.Heap.SearchBlocks | lib/libc/stdlib.c:2456-2555 | the search over all blocks from a bin upwards: the smallest fitting chunk of those bins, or proof that none fits; bits are cleared only for blocks whose bins are all empty |
| HeapAllocator.Heap.ClearBlock | lib/libc/stdlib.c:2529-2540 | clears a block's bit only once all its bins have been found empty, walking back over them |
| HeapAllocator.Heap.ExtendTop | lib/libc/stdlib.c:2139-2250 | lengthens `top` by memory from the system; on failure nothing changes |
| HeapAllocator.Heap.TryRemainder | lib/libc/stdlib.c:2422-2454 | `last_remainder` serves the request if it is large enough, split or whole; else it goes to its bin |
| HeapAllocator.Heap.TryBins | lib/libc/stdlib.c:2456-2555 | the best fit from the bins is split or taken whole |
| HeapAllocator.Heap.TryTop | lib/libc/stdlib.c:2558-2591 | the front of `top`, extended when too small, serves what no bin can |
| HeapAllocator.Heap.Malloc | lib/libc/stdlib.c:2331-2592 | which chunk is chosen (exact bin, remainder, best fit, then `top`), that it is aligned and large enough, that no other chunk in use changes, that all heap invariants hold again, and when it fails |
| HeapAllocator.Heap.Allocate | lib/libc/stdlib.c:2331-2592 | the same for a padded size; failure means that no bin fits and the system has no more |
| HeapAllocator.Heap.Free | lib/libc/stdlib.c:2621-2716 | the chunk is merged with its free neighbours and put in the place its size says; every other chunk in use keeps its data |
| HeapFree.ReleasedBorders | lib/libc/stdlib.c:2621-2716 | after merging, both neighbours of the merged chunk are in use: no two free chunks touch |
| HeapFree.ReleasedBins | lib/libc/stdlib.c:2682-2707 | the neighbours that are merged are off their lists, the result is on none yet |
| HeapAllocator.Heap.Resize | lib/libc/stdlib.c:2961-2982 | the chunk is cut if what is left over can be a chunk, and the rest is freed |
| HeapAllocator.Heap.TryGrow | lib/libc/stdlib.c:2839-2931 | growing forward, backward, both ways or into `top` keeps the data that fit |
| HeapAllocator.Heap.Realloc | lib/libc/stdlib.c:2759-2982 | the block becomes one of at least the new size with the first min(old, new) bytes, on every path; on failure nothing changes; zero bytes free it |
| HeapAllocator.Heap.MoveOut | lib/libc/stdlib.c:2933-2957 | the path that allocates, copies and frees |
| HeapAllocator.Heap.CopyWords | lib/libc/stdlib.c:548-566 | an upward copy is right although the two ranges may overlap |
| HeapAllocator.Heap.Calloc | lib/libc/stdlib.c:3172-3241 | all bytes asked for are zero, also when fresh memory is not cleared again |
| HeapAllocator.Heap.Memalign | lib/libc/stdlib.c:3008-3117 | the block begins at a multiple of the alignment, is large enough, and what was allotted too much is free again |
| HeapAllocator.Heap.Mallinfo | lib/libc/stdlib.c:3411-3448 | `fordblks` is the sum of all free chunks and `uordblks` the sum of all chunks in use |
| HeapClient.BlocksApart | lib/libc/stdlib.c:1353-1386 | two live blocks share no byte and lie inside the arena |
| HeapClient.Client.Malloc | lib/libc/stdlib.c:2331-2592 | as its callers see it: one more block, all other blocks with their contents unchanged |
| HeapClient.Client.Calloc | lib/libc/stdlib.c:3172-3241 | one more block, all of it zero |
| HeapClient.Client.Free | lib/libc/stdlib.c:2621-2716 | one block less |
| HeapClient.Client.Realloc | lib/libc/stdlib.c:2759-2982 | the block with a new size, its contents kept up to the smaller size |
| HeapClient.Client.Store | lib/libc/stdlib.c:1417-1420 | a word written by the owner of a block changes that block there and no other |
| HeapClient.Client.Load | lib/libc/stdlib.c:1417-1420 | the word last stored at a place in a block is what is read, whatever calls came between |
| KconfigEq.EliminateYnOk | scripts/kconfig/expr.c:317-398 | afterwards no operand is y or n, and an expression that had one has become smaller |
| KconfigEq.EliminateYnValue | scripts/kconfig/expr.c:317-398 | the value is the same under every assignment |
| KconfigEq.ExprEqSound | scripts/kconfig/expr.c:253-304 | expressions found equal have equal values under every assignment |
| KconfigEq.LeavesFactor | scripts/kconfig/expr.c:151-191 | taking common leaves out of two trees takes one common value c off both: old = c op new |
| KconfigEq.EliminateEqFactor | scripts/kconfig/expr.c:222-242 | old1 = c op new1 and old2 = c op new2 for one c and every assignment |
| KconfigEq.Superset | scripts/kconfig/menu.c:457-471 | when the second operand reduces to y the first never exceeds it, as the submenu test needs |
| KconfigExpr.CompareTextZero | scripts/kconfig/expr.c:1031-1103 | text comparison is zero exactly for equal texts |
| KconfigExpr.CompareConst | scripts/kconfig/expr.c:999-1103 | when a bool or tristate symbol equals a constant, numbers compared as numbers |
| KconfigJoin.JoinOk | scripts/kconfig/expr.c:432-588 | every rule of `expr_join_or` and `expr_join_and` gives the value of both operands together, if the constants in them can be told apart; the result is one of the operands or a leaf |
| KconfigJoin.JoinAndExact | scripts/kconfig/expr.c:541-553 | the rule a='b' && a!='c' -> a='b' is right for a tristate exactly when no value of a equals both constants |
| KconfigJoin.JoinAndCounterexample | scripts/kconfig/expr.c:541-553 | with the constants 1 and 0x1 the rule changes the value |
| KconfigDups.Tree.EliminateDups1 | scripts/kconfig/expr.c:597-652 | one pass over pairs of leaves, in place: value kept, and the count says whether anything was joined |
| KconfigDups.Tree.EliminateDups | scripts/kconfig/expr.c:665-687 | passes until nothing can be joined: the value is the same under every assignment with told-apart constants, no pair of leaves is left to join, and it ends because the tree shrinks |
| KconfigDups.Tree.EliminateCommon | scripts/kconfig/expr.c:151-191 | the in-place elimination of common leaves of two trees computes what the function on values does |
| KconfigDups.Tree.EliminateEqual | scripts/kconfig/expr.c:222-242 | the same for `expr_eliminate_eq` |
| KconfigDups.ExprEliminateDups | scripts/kconfig/expr.c:665-687 | the same for a whole expression that may be missing |
| KconfigTransform.Transform | scripts/kconfig/expr.c:695-850 | ends although De Morgan's rule makes the expression grow: a weight falls |
| KconfigTransform.TransformOk | scripts/kconfig/expr.c:695-850 | the value is the same under every assignment and negation is left on plain symbols only |
| KconfigTransform.NormalStays | scripts/kconfig/expr.c:695-850 | an expression in that form is not changed |
| KconfigTransform.TransformTwice | scripts/kconfig/expr.c:695-850 | so a second run changes nothing |
| KconfigTransform.TransBoolKeepsN | scripts/kconfig/expr.c:403-427 | on such an expression the rewrite of `!= n` to the symbol keeps whether the value is n |
| KconfigTransform.TransBoolNegated | scripts/kconfig/expr.c:403-427 | below a negation it would not, exactly for a symbol that is m |
| KconfigTransform.MenuDependency | scripts/kconfig/menu.c:380-388 | the dependency computed for a bool entry is n exactly when the inherited or the own one is, either of them may be missing; always for comparisons with y, m and n, and for other constants whenever they can be told apart |
| KconfigGraph.Checker.CheckDeps | scripts/kconfig/symbol.c:1245-1274 | a symbol that is reported lies on a cycle; when none is reported the symbol and all it needs are sound; it ends |
| KconfigGraph.Checker.CheckSymDeps | scripts/kconfig/symbol.c:1160-1206 | the same for what one symbol needs, with the stack restored |
| KconfigGraph.Checker.CheckProps | scripts/kconfig/symbol.c:1183-1201 | the conditions of properties and the values of defaults |
| KconfigGraph.Checker.CheckExpr | scripts/kconfig/symbol.c:1125-1157 | the symbols in an expression |
| KconfigGraph.Checker.CheckAll | scripts/kconfig/parser.y:517-520 | over all symbols: no error is reported if and only if the dependencies have no cycle, and then the order in which symbols were left is one in which everything comes after what it needs |
| KconfigGraph.OrderedAcyclic | scripts/kconfig/symbol.c:1245-1274 | where there is such an order there is no cycle |
| KconfigGraph.BackEdge | scripts/kconfig/symbol.c:1250-1253 | meeting a symbol that is on the stack closes a cycle |
| KconfigValue.TakesEffect | scripts/kconfig/symbol.c:473-528 | when a value within the range, or the value a symbol has already, is what is computed afterwards |
| KconfigValue.AcceptedValue | scripts/kconfig/symbol.c:494-528 | an accepted value becomes the value of the symbol in the whole configuration, except exactly for one that the symbol had from a default above its prompt |
| KconfigValue.AbovePromptExample | scripts/kconfig/symbol.c:498-500 | a tristate that is y by default behind a prompt visible as m: setting it to y is accepted and makes it m |
| KconfigValue.SameOn | scripts/kconfig/symbol.c:319-460 | setting one symbol changes nothing among symbols that do not need it |
| KconfigValue.SameBelow | scripts/kconfig/symbol.c:319-460 | what a symbol is computed from does not depend on its own setting |
| KconfigCalc.Engine.CalcExpr | scripts/kconfig/expr.c:1031-1103 | computes the expression's value from the symbols' values, computing those first |
| KconfigCalc.Engine.CalcVisibility | scripts/kconfig/symbol.c:171-232 | the visibility and the direct, reverse and weak reverse dependencies |
| KconfigCalc.Engine.CalcDefault | scripts/kconfig/symbol.c:77-87 | the first default whose condition is not n, bounded by the condition |
| KconfigCalc.Engine.CalcValue | scripts/kconfig/symbol.c:319-460 | stores exactly the value that the configuration and the settings define, and everything computed on the way is right too; what was computed before stays |
| KconfigCalc.Engine.ClearAllValid | scripts/kconfig/symbol.c:462-471 | computes MODULES anew; when modules come out on or off as before, all that counts as computed is right |
| KconfigCalc.Engine.SetTristate | scripts/kconfig/symbol.c:494-528 | which values are accepted, and that the accepted value is then the computed one, with the one exception; for a symbol that MODULES does not need |
| FdtTokens.ReadTag | lib/fdt/fdt.c:179-231 | `fdt_next_tag` step by step computes the tag and the next offset, all error cases included |
| FdtTokens.NextTagWalks | lib/fdt/fdt.c:179-231 | walking from tag to tag over a block visits exactly its tokens |
| FdtTokens.WritesSplice | lib/fdt/fdt_rw.c:54-95 | replacing the bytes of some tokens replaces those tokens and no others |
| FdtBytes.FindString | lib/fdt/fdt.c:325-335 | the first place where the string stands with its zero byte, the tail of another string included |
| FdtBytes.GetStringIs | lib/fdt/fdt_ro.c:34-98 | a string is read exactly where it stands |
| FdtWriter.NoRoomExact | lib/fdt/fdt_sw.c:250-265 | the unsigned test for room is right if and only if old and new strings are not longer than the buffer |
| FdtWriter.Writer.constructor | lib/fdt/fdt_sw.c:109-146 | an empty tree in a buffer that has been cleared, and only there |
| FdtWriter.Writer.AddReserveEntry | lib/fdt/fdt_sw.c:188-206 | reserves room for an entry, or reports that there is none |
| FdtWriter.Writer.FinishReservemap | lib/fdt/fdt_sw.c:208-217 | closes the map and starts the structure |
| FdtWriter.Writer.BeginNode | lib/fdt/fdt_sw.c:219-234 | adds the opening of a node to what has been written, or nothing |
| FdtWriter.Writer.EndNode | lib/fdt/fdt_sw.c:236-248 | adds its end, or nothing |
| FdtWriter.Writer.AddString | lib/fdt/fdt_sw.c:250-265 | puts a string in front of the others when there is room; says exactly which strings pass the test for room and are then copied to a place in front of the buffer |
| FdtWriter.Writer.FindAddString | lib/fdt/fdt_sw.c:276-291 | a name found in the strings, or in the tail of one, is shared; else it is added at the lower end |
| FdtWriter.Writer.Property | lib/fdt/fdt_sw.c:293-335 | adds the property, or takes a new name back and adds nothing, unless the name is one that goes astray |
| FdtWriter.Writer.Finish | lib/fdt/fdt_sw.c:337-384 | moves the strings behind the structure and turns every distance into an offset; when there is no room for the end nothing changes |
| FdtWriter.Writer.CorrectOffsets | lib/fdt/fdt_sw.c:359-374 | every name offset, and nothing else, is corrected |
| FdtFinished.FinishedIs | lib/fdt/fdt_sw.c:219-384 | a finished block is the tree n if and only if the calls made, read as items, are those that write n |
| FdtFinished.WriteNode | lib/fdt/fdt_sw.c:219-335 | the calls for a tree, made in order, add exactly the events of that tree |
| FdtFinished.Finished | lib/fdt/fdt_sw.c:337-384 | the buffer of a finished writer is a tree that can be read and edited as any other, its root at offset 0 |
| FdtFinished.WriteTree | lib/fdt/fdt_sw.c:109-384 | round trip on trees: when every call succeeds, what is in the buffer is the tree that was written |
| FdtWriter.Writer.ReadEvents | lib/fdt/fdt_sw.c:219-384 | round trip: reading the finished tree gives back exactly the nodes, names and values that were written |
| FdtTree.ItemsAround | lib/fdt/fdt_rw.c:54-95 | replacing one node of a tree replaces its part of the written run and no other |
| FdtTree.SetPropReads | lib/fdt/fdt_rw.c:276-289 | after setting a property it reads as set, any other as before |
| FdtEdit.Blob.Splice | lib/fdt/fdt_rw.c:54-68 | all bytes behind the place are moved, or nothing when there is no room |
| FdtEdit.Blob.SpliceStruct | lib/fdt/fdt_rw.c:83-95 | the structure with a gap or without a part, the strings unchanged |
| FdtEdit.Blob.FindAddString | lib/fdt/fdt_rw.c:127-153 | the offset of the name, added at the end when new |
| FdtEdit.Blob.FindProperty | lib/fdt/fdt_ro.c:401-429 | the first property of that name, where it stands, or that there is none |
| FdtEdit.Blob.GetProp | lib/fdt/fdt_ro.c:458-513 | reads what the tree has for the name |
| FdtEdit.Blob.AddProperty | lib/fdt/fdt_rw.c:202-233 | the property comes first in its node; without room the tree is unchanged and a new name is taken back |
| FdtEdit.Blob.SetProp | lib/fdt/fdt_rw.c:276-289 | the tree with that property set, or unchanged when there is no room; the node stays where it is |
| FdtEdit.Blob.AppendProp | lib/fdt/fdt_rw.c:291-316 | the tree with the data appended, or unchanged |
| FdtEdit.Blob.DelProp | lib/fdt/fdt_rw.c:318-331 | the tree without the property, or not found |
| FdtEdit.Blob.NextNode | lib/fdt/fdt.c:257-295 | the next node and its depth, related to the children of the node the walk began at |
| FdtEdit.Blob.NameMatches | lib/fdt/fdt_ro.c:13-32 | the whole name, or the name up to its unit address |
| FdtEdit.Blob.SubnodeOffset | lib/fdt/fdt_ro.c:225-242 | the first child that the name stands for, or that there is none |
| FdtEdit.Blob.AddSubnode | lib/fdt/fdt_rw.c:333-375 | a new first child, with its offset; exists exactly when a child answers to the name; else unchanged |
| FdtEdit.Blob.DelNode | lib/fdt/fdt_rw.c:382-394 | the tree without that child and all below it |
| FdtEdit.Blob.NopProperty | lib/fdt/fdt_wip.c:59-71 | the same tree as deleting gives, while every other token keeps its offset |
| FdtEdit.Blob.NopNode | lib/fdt/fdt_wip.c:83-94 | the same for a node |
| FdtChange.PropChanged | lib/fdt/fdt_rw.c:184-233 | replacing tokens of one property changes that property of that node and nothing else |
| FdtChange.NodeAdded | lib/fdt/fdt_rw.c:333-375 | inserting an empty node's tokens adds one child |
| FdtChange.NodeRemoved | lib/fdt/fdt_rw.c:382-394 | taking a node's tokens out, or overwriting them, removes that child |
| FdtChange.NodeKept | lib/fdt/fdt_rw.c:276-289 | a change inside a node does not move the node |
| FdtInPlace.TooShortExact | lib/fdt/fdt_wip.c:25-26 | the 32-bit test against the length is right for properties of every length if and only if idx + len fits 32 bits, and otherwise for those shorter than the wrapped sum; the rest are the copies that go astray |
| FdtInPlace.AstrayExample | lib/fdt/fdt_wip.c:25-28 | a word at 0xfffffffc passes the test of a property of four bytes |
| FdtInPlace.Patch | lib/fdt/fdt_wip.c:13-31 | some bytes of one property change; every node stays where it is; a copy that goes astray, and exactly which does, begins behind the buffer and leaves the tree as it was |
| FdtInPlace.NodeStands | lib/fdt/fdt_wip.c:13-31 | after a change of data every node begins at the same token and offset |
| FdtPhandle.FindMaxPhandle | lib/fdt/fdt_ro.c:114-140 | no phandle of the tree is greater, and one is equal unless there is none |
| FdtPhandle.AddOffset | lib/fdt/fdt_overlay.c:101-124 | raises one phandle property, with each of its errors |
| FdtPhandle.AdjustPhandles | lib/fdt/fdt_overlay.c:141-162 | does to the block what `Adjust` does to the tree; nothing moves |
| FdtPhandle.AdjustRaises | lib/fdt/fdt_overlay.c:141-162 | afterwards every node's phandle is greater by exactly delta, and nodes without one still have none |
| FdtPhandle.AboveBase | lib/fdt/fdt_overlay.c:815-830 | with delta the greatest phandle of the base tree, every phandle of the overlay that was not 0 ends above all of the base tree's |
| FdtFixups.UpdateReferences | lib/fdt/fdt_overlay.c:205-291 | does to the block what `Fix` does to the tree; the fixups themselves are unchanged |
| FdtFixups.UpdateLocalReferences | lib/fdt/fdt_overlay.c:310-328 | the same from the root, and nothing when there are no fixups |
| FdtFixups.MoveAll | lib/fdt/fdt_overlay.c:239-266 | the references of one property; all reads lie within the property exactly when all listed words do, and a write goes astray exactly if one of the offsets it comes to does |
| FdtFixups.AstrayReference | lib/fdt/fdt_overlay.c:239-266 | which offsets pass the test although the word lies behind the property, 0xfffffffc for one; the tree is as it was |
| FdtReferences.FixReads | lib/fdt/fdt_overlay.c:205-291 | every property of every node, listed or not, is afterwards its old data with exactly the words moved that the fixups list for it |
| FdtReferences.MovedWords | lib/fdt/fdt_overlay.c:239-266 | a word ends greater by delta for every time that it is listed, if no listed word overlaps it in part |
| FdtReferences.LocalizedReads | lib/fdt/fdt_overlay.c:141-328 | what both passes leave of every property: raised if it is a phandle, then moved wherever the fixups list it |
| FdtReferences.PhandleMoved | lib/fdt/fdt_overlay.c:141-328 | a phandle ends greater by delta, and by delta again for each time that the fixups, by then raised themselves, list it |
| FdtReferences.ReferenceExact | lib/fdt/fdt_overlay.c:141-328 | a word that held the phandle of a node holds it in the end if and only if it was raised as often as that phandle, up to multiples of 2^32 |
| FdtReferences.ReferenceFollows | lib/fdt/fdt_overlay.c:141-328 | when no node of the fixups has two properties of one name: if and only if it is itself a phandle, or listed once, up to multiples of 2^32 |
| FdtReferences.FixupFollows | lib/fdt/fdt_overlay.c:178-291 | each reference listed in the fixups that named a node of the overlay names that node in the tree that is left, if no property and no word is listed twice |
| FdtReferences.RaisedTwice | lib/fdt/fdt_overlay.c:141-328 | fixups with two properties named "phandle": a reference listed once that does not follow |
| FdtReferences.PhandlesAbove | lib/fdt/fdt_overlay.c:815-831 | in the tree that both passes leave, every phandle is greater by exactly delta, and all are above the base tree's |
| FdtReferences.OthersKept | lib/fdt/fdt_overlay.c:141-328 | a property that is no phandle and that nothing is listed for is as it was |
| FdtReferences.Localize | lib/fdt/fdt_overlay.c:823-833 | both passes over the block, equal to those on the tree; every node stays where it is |
| FdtOverlay.ApplyNode | lib/fdt/fdt_overlay.c:542-587 | the target becomes the merge of the two nodes and nothing outside it changes, even when room runs out half way |
| FdtOverlay.MergeReads | lib/fdt/fdt_overlay.c:542-587 | in the merge a property reads as the overlay has it last, or as before where the overlay has none |
| FdtOverlay.MergeKidsReads | lib/fdt/fdt_overlay.c:542-587 | a child of the merge is the child merged with the overlay's, or the one that was there, if no name stands for another |
| FdtOverlay.ParentKept | lib/fdt/fdt_overlay.c:542-587 | edits inside a child never move its parent |
| FdtOverlay.FirstSubnode | lib/fdt/fdt.c:297-306 | the first child, or that there is none |
| FdtOverlay.NextSubnode | lib/fdt/fdt.c:308-323 | the next child, or that there is none |
| FdtPath.PathOffset | lib/fdt/fdt_ro.c:250-300 | finds the node that the names lead to, or that there is none |
| FdtPath.NextInOrder | lib/fdt/fdt.c:257-295 | the next node in order with its path and depth, and no node is passed over |
| FdtPath.GetPath | lib/fdt/fdt_ro.c:549-599 | gives the path exactly when the buffer holds it and a zero byte, for trees with no slash in a name |
| FdtPath.PathRoundTrip | lib/fdt/fdt_ro.c:250-300 | the names in a node's path lead back to the node, if no name is empty or has a slash and none stands for a sibling |
| FdtPath.PathFindsNode | lib/fdt/fdt_ro.c:549-599 | so looking the path up gives the node's own offset |
| FdtPath.PathBack | lib/fdt/fdt_ro.c:549-599 | fdt_path_offset called with what fdt_get_path gave returns the offset of that node, whenever the buffer suffices |
| FdtMerge.NodeByPhandle | lib/fdt/fdt_ro.c:688-711 | the first node of that phandle in the order in which nodes are written, or that there is none |
| FdtMerge.TargetOffset | lib/fdt/fdt_overlay.c:30-85 | the node that a fragment is for, by phandle or by path, with each error in its order |
| FdtMerge.RootKept | lib/fdt/fdt_overlay.c:606-634 | an edit anywhere in the tree leaves the root at its offset |
| FdtMerge.MergeOne | lib/fdt/fdt_overlay.c:606-634 | one fragment: its overlay is merged into its target, or the tree is unchanged for lack of one |
| FdtMerge.OverlayMerge | lib/fdt/fdt_overlay.c:606-634 | the tree becomes what merging the fragments in turn makes of it, each on what those before it have left |
| FdtMerge.Apply | lib/fdt/fdt_overlay.c:815-850 | the whole application: the base tree becomes the merge of the overlay with its phandles and references moved by the greatest phandle of the base |
| SchedOrder.OrderSteps | common/thread.c:104-110 | stepping with `next_thread` goes through every thread once, the current one last |
| SchedOrder.BestIs | common/thread.c:124-141 | what the loop keeps is the first ready thread of highest priority |
| SchedOrder.SelectIsTop | common/thread.c:124-141 | the thread selected is ready and none that is ready has a higher priority |
| SchedOrder.RoundRobin | common/thread.c:112-157 | while the ready threads and priorities stay as they are, every thread of top priority is selected within as many calls as there are such threads |
| SchedOrder.SelectedInTurn | common/thread.c:112-157 | namely at the call that is its turn in the order |
| SchedKernel.Kernel.constructor | common/thread.c:211-263 | the state in which the scheduler starts, idle thread last and current |
| SchedKernel.Kernel.PickNext | common/thread.c:124-141 | the search of `sched_thread` |
| SchedKernel.Kernel.Schedule | common/thread.c:112-157 | selects a ready thread of top priority and makes it the only running one; a dead current thread leaves the list; a current thread that was running is ready again |
| SchedKernel.Kernel.Tick | common/thread.c:182-195 | every sleeper's time falls by one and ends its sleep at zero; no other thread is touched |
| SchedKernel.Kernel.Msleep | common/thread.c:198-208 | the current thread is blocked for the given time, rounded up to at least one tick |
| SchedKernel.Kernel.EndPoint | common/thread.c:26-41 | the current thread is dead with its exit code |
| SchedKernel.Kernel.Create | common/thread.c:43-73 | a new ready thread of priority 1 at the end of the list, or nothing |
| SchedKernel.Kernel.SetPriority | common/thread.c:75-87 | rejects what is not positive |
| SchedKernel.Kernel.Destroy | common/thread.c:89-102 | the record of a dead thread is in no list any more when it is freed |
| SchedKernel.Kernel.SemInit | common/semaphore.c:6-12 | a semaphore with that count and nobody waiting |
| SchedKernel.Kernel.SemWait | common/semaphore.c:14-43 | one turn of the loop: takes one if there is one, else goes to sleep at the end of the list |
| SchedKernel.Kernel.BestWaiter | common/semaphore.c:54-61 | the waiting thread of highest priority that has waited longest |
| SchedKernel.Kernel.SemPost | common/semaphore.c:45-73 | one more may pass, and that thread is woken and off the list |
| SchedState.NeverNegative | common/semaphore.c:14-73 | a semaphore that starts at zero or more is never negative, and its count is start plus posts minus waits |
| SchedState.NoLostWakeup | common/semaphore.c:14-73 | whenever the count is positive and threads sleep on the semaphore, a woken thread is ready that will take it |
| SchedState.FairTaken | common/semaphore.c:22-30 | taking one keeps the balance between the count and the woken threads |
| SchedState.FairPosted | common/semaphore.c:45-68 | so does a post |
| Vfs.FileSystem.constructor | common/vfs.c:294-329 | a root directory, no files |
| Vfs.FileSystem.AllocFd | common/vfs.c:95-119 | the first free descriptor from the counter on; none only when all are in use |
| Vfs.FileSystem.FindFile | common/vfs.c:68-78 | the open file with that descriptor, or that there is none |
| Vfs.FileSystem.CreateNode | common/vfs.c:243-273 | exactly when a node is made, and the tree with it; the links still agree |
| Vfs.FileSystem.Mknod | common/vfs.c:336-402 | the same, and every open file keeps its node |
| Vfs.FileSystem.AllocDirNode | common/vfs.c:404-410 | a directory in no tree |
| Vfs.FileSystem.LookupEx | common/vfs.c:132-201 | finds what the path names in the tree, mounts followed, including entries made on demand; a target found without following the last mount is no root of a mounted tree |
| Vfs.FileSystem.FollowMount | common/vfs.c:34-43 | ends after one step: nothing is mounted on the root of a mounted tree |
| Vfs.FileSystem.Unlink | common/vfs.c:412-461 | each error in the order in which it is looked for; on success the leaf is out of the tree and no open file was on it |
| Vfs.FileSystem.Open | common/vfs.c:477-520 | each error in its order; else a descriptor that no open file has, for the node that the path names |
| Vfs.FileSystem.Close | common/vfs.c:622-650 | the file with that descriptor is gone, the others are not |
| Vfs.FileSystem.TryMount | common/vfs.c:678-704 | mounts the tree that the file system made, or nothing, with each error |
| Vfs.FileSystem.DoMount | common/vfs.c:706-740 | the first file system of that name, or the first on a block device that accepts, is mounted on the directory the target names; each error in its order, and then nothing changes |
| Vfs.FileSystem.UnderRoot | common/vfs.c:742-752 | whether the parent links lead to that root |
| Vfs.FileSystem.FreeSubtree | common/vfs.c:275-292 | frees exactly the nodes below, each once |
| Vfs.FileSystem.Umount | common/vfs.c:754-784 | refused exactly when the path names no mount point or an open file is below the mounted root; else exactly that tree is freed, and all open files, those in file systems mounted further down too, keep their nodes |
| VfsReach.CutLoses | common/vfs.c:412-461 | an unlink leaves everything that remains within reach of the root if and only if nothing is mounted on what it removes |
| VfsReach.UnmountLoses | common/vfs.c:754-784 | an umount does if and only if nothing is mounted inside the tree that it frees |
| VfsReach.LosesMount | common/vfs.c:412-461 | a run that ends with a mounted tree that nothing leads to |
| VfsTree.UnmountKeeps | common/vfs.c:754-784 | freeing a mounted tree leaves no link into it |
| VfsTree.CutKeeps | common/vfs.c:436-458 | taking a leaf out keeps parent and child links in agreement |
| VfsTree.AttachKeeps | common/vfs.c:243-273 | so does a new child |
| VfsTree.BelowAll | common/vfs.c:275-292 | what lies below a node by parent links is the node and what lies below its children by child links |
| VfsTree.BelowApart | common/vfs.c:275-292 | the subtrees of two children share no node |
| VfsPath.WalkGrew | common/vfs.c:132-201 | entries made on demand do not change where earlier names led |

## Left out

- `malloc_trim`, its call from `free`, `mmap`, a foreign caller of `sbrk` and the fenceposts that follow from one; `top_pad` is 0, as configured.
- HeapAllocator.Heap.Frontlink: the forward and backward words of free chunks are not in the modelled memory, since a bin is a sequence of chunks; that list words do not hit user data holds by representation.
- HeapAllocator.Heap.Unlink: the same.
- `sbrk` itself: it is a contract (it fails, or hands out the next bytes, zeroed, up to a limit that is a page boundary), so the correction call of `malloc_extend_top` never fails.
- `cfree`, `valloc`, `pvalloc`, `malloc_usable_size` and the statistics printing of the allocator.
- HeapAllocator.Heap.Mallinfo: the free chunks are counted in an `int` in the original, here without bound.
- HeapAllocator.Heap.Memalign: stated for an alignment that is a power of two, as the original demands of its callers.
- FdtWriter.Writer.Property: says nothing of the state once a name has been copied to a place in front of the buffer; that happens exactly to names that are not shared and are longer than what is left of the whole buffer beside the strings.
- FdtEdit.Blob.SetProp: the header words are fields of an object and not bytes of the buffer; 32-bit wrap-around of offsets in corrupt blobs is not modelled.
- FdtInPlace.Patch: what a copy that goes astray hits behind the buffer is not part of the model; addresses have 64 bits.
- FdtFixups.MoveOne: a word read from behind the property can be any word.
- FdtFixups.UpdateReferences: asks, at the root, that no child of the fixups stands for the fixups themselves.
- FdtPath.PathOffset: absolute paths only; aliases are not modelled.
- FdtPath.GetPath: the buffer is the sequence of bytes written so far; asks that names below the root have no slash in them, as the format says.
- FdtMerge.TargetOffset: asks that a target path is a string within its property and no alias.
- FdtMerge.Apply: for overlays without `__fixups__` and `__symbols__`; erasing the magic number is left out, and for lack of room nothing is said but that the base is a tree still.
- Of the overlay: resolving `__fixups__` against `__symbols__`, and the update of symbols.
- Of the device tree library: versions below 17, the `FDT_ASSUME` switches, `fdt_open_into`, `fdt_pack`, the reserve map after creation, string lists and the search by property or compatible.
- KconfigJoin.JoinOk: needs constants that can be told apart, since numeric constants compare as numbers; `KconfigJoin.JoinAndExact` says exactly when one rule is right, for the others the condition is only sufficient.
- KconfigCalc.Engine.CalcValue: bool and tristate symbols without choice groups; string, int and hex symbols have fixed texts; the flags that say what to write are left out.
- KconfigCalc.Engine.SetTristate: for a symbol that MODULES does not need, in an acyclic configuration where what MODULES needs compares no tristate symbols; the value must have been asked for before.
- KconfigGraph.Checker.CheckDeps: without choice groups and without the printed report.
- `strtoll` is a parameter of the Kconfig model; `expr_trans_compare`, choice groups, reading and writing of files, the menus and the preprocessor are not part of it.
- SchedKernel.Kernel.SemWait: one call is one pass through the locked region; `sched_yield` between passes is a call of Schedule. Saved contexts are abstract, and no tick falls between the two stores of `sched_msleep`.
- Threads and semaphores are records in maps of the kernel object, so there is no aliasing between them; more than one CPU is not modelled, and the tick counter is left out.
- Vfs.FileSystem.DoMount: what a file system's mount operation builds is built by the other operations before the call; the operations of nodes and file systems do not call back into the core, except that a lookup on demand makes an entry.
- Vfs.FileSystem.Open: a positive answer of a node's open operation is returned as it is, as in the original, and then says nothing about descriptors.
- The descriptor counter wraps from the largest int to 0, as the original tests for; failing memory in path lookup, `vfs_mkdir_p`, reading, writing, seeking and ioctl are not modelled, nor is the back pointer from a mount to its directory.
- Drivers, the console, hashing, the boot-device sort and the other libraries of the repository: easier or hardware-bound.
