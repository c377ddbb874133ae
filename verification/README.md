# Verified model of the kernel's hard parts

A Dafny model of the parts of the Ilobilix kernel, and of its symbol compressor, in which most can go wrong without
anyone noticing. Every operation is written in the form of the source (classes with fields, arrays changed in place,
loops) and proved against a plain specification; what the specification means is proved beside it.

| part | files | plain specification |
|---|---|---|
| intrusive red-black tree | `Rb*.dfy` | a sequence sorted by key, and by age among equal keys |
| buddy allocator | `Dyadic.dfy`, `Pmm*.dfy` | the set of free frames and the set of live blocks |
| symbol compressor and the kernel's decoder | `Bytes.dfy`, `Ks*.dfy` | a list of names and addresses |
| four-level page tables | `Pt*.dfy`, `PageTables.dfy` | a function from address space and page to leaf entry |
| ticket lock and reader/writer lock | `FiniteSets.dfy`, `Rw*.dfy` | at most one writer, or readers |
| initialisation graph | `InitGraph.dfy`, `InitEngine.dfy` | a topological order |
| scheduler queues of one CPU | `Sched*.dfy` | two stable queues and one running thread |
| paged objects and tmpfs | `PagedObject.dfy`, `Tmpfs.dfy` | a sequence of bytes |
| process mappings | `Vm*.dfy` | a function from page to what it shows, and page tables that agree with it |
| initial process stack | `StackImage.dfy`, `StackBuild.dfy` | argument, environment and auxiliary lists |
| clock arithmetic | `FreqFrac.dfy` | exact fractions |

Pointers are indices into sequences, and 0 is the null pointer; index 0 of the tree's arrays is the temporary hook that
the source makes on the stack for every operation. Ghost state describes what the source never writes down: the
in-order position of every tree node, the tiling of every memory chunk, the place of every page table in its tree, the
owner of every ticket. `Sizes.dfy` has the sizes that several parts share.

## What the proofs brought to light

- `lookup(name)` in `symbols.cpp` computes `mid - 1` without a sign. When the name comes before all symbols, or there is
  no symbol, the search goes on at an index far outside the tables. `KsLookup.LookupName` proves that this happens for
  these names and no others; `KsLookup.BeforeAll` is one. `lookup(addr)` reads the first symbol even if there is none.
- `vmspace::unmap` computes `address + length` in 64 bits. When that wraps around, the range ends before it starts: a
  mapping around it is cut into pieces that overlap and still show all its pages, while the page map is asked to unmap
  almost every page there is (`VmSpace.Space.Unmap`, `VmSpace.FarMatters`, `VmSpace.UnmapWraps`).
- `vmspace::protect` panics when the page map has no table for a page of a mapping that it hits, and so for the most
  ordinary call, on a mapping that has not been used yet. Where the table is there and the page was never touched, the
  page shows frame 0 from then on instead of its object (`VmSpace.Space.Protect`, `VmPages.FreshMissing`,
  `VmPages.ProtectBacked`).
- `vmspace::protect` of an empty range inside a mapping splits it and leaves an empty mapping with the start page of
  the tail; erasing goes by start page and would then hit both. A length above 2^64 - 4096 is rounded to an empty range as
  well (`VmSpace.Space.Protect`, `VmSpace.ProtectWraps`).
- `ops::write` of tmpfs with a range beyond 2^64, as a write at offset -1 asks for, goes around and overwrites the first
  bytes, and leaves bytes other than zero behind the end of the file (`Tmpfs.Inode.Write`, `Tmpfs.WriteGoesAround`).
- `ops::read` of tmpfs computes a length that wraps around when the offset is behind the end of the file, and goes around
  as well (`Tmpfs.Inode.Read`, `Tmpfs.ReadOverruns`). A write of no bytes behind the end extends the file.
- The assertion on entry to `write_unlock`, which debug builds check, takes a count of zero for a sign of a writer, but a
  reader that waits for the writer is counted already. It fails exactly then (`RwLock.EntryChecks`,
  `RwLock.WriterMeetsReader`).
- `freqfrac::ticks` shifts in 64 bits. At 3 GHz, times from 8.6 seconds on come out far too short, and 2^33 nanoseconds as
  none at all (`FreqFrac.TicksBack`, `FreqFrac.TicksWrap`). `nanos` falls back to nearly zero where the product exceeds
  128 bits (`FreqFrac.NanosMonotone`).
- `freqfrac::init` overflows for frequencies from 2^35 Hz on (`FreqFrac.InitExact`, `FreqFrac.InitOverflows`).
- A protection without the right to read allows nothing at all, not even writing or running, as the bit for reading is the
  processor's bit for being present (`VmPages.AccessIs`).
- For lengths above 2^64 - 4096 the counters in the page map's loops wrap around before they get there: `unmap` never
  returns, `map` panics or never returns, and `protect` never returns unless it meets a missing table (outcome `Unending`
  of `PageTables.Memory.Unmap`, `Map` and `Protect`).
- `protect` of the page map gives flags to pages that were never mapped, which then show the frame at physical address 0,
  and `translate` answers 0 for them without an error once their table exists (`PageTables.Memory.Protect`, `Translate`).
- `pmm::allocator` computes sizes in 64 bits, so that a request of 2^52 + 1 pages is answered with one page
  (`Pmm.Allocator.Alloc`, `Pmm.AskedWraps`).
- The compressor writes token offsets in 16 bits without checking that they fit. The kernel's lookups answer if and only
  if they do (`KsWrite.Generate`, `KsTables.TextsTooLong`).
- An edge of the initialisation graph that is made after its source was activated is never counted down, so that its
  target is never activated (`InitGraph.LateEdge`).
- `schedule` does not set the schedule time of a thread that follows the idle one. Such a thread is charged again for the
  time since it ran before (`Sched.Cpu.Schedule`).
- The length that `compress_symbols` keeps while scanning is too long by one for every replacement. This is harmless
  because the bytes behind a symbol are zero and code 0 is the last to become a token (`KsInPlace.ReplaceAt`).
- A sleeper whose time has come becomes ready even if it had been killed, and gets the virtual time of the first thread
  of the sleep queue, while the comment beside it speaks of starving other threads (`Sched.Cpu.SleeperPass`).
- In `_remove` of the tree, the second test for `_head == z` never holds, as the head was moved on before it.

## Model

| member | source | states |
|---|---|---|
| RbTree.RbTree.Insert | kernel/interfaces/lib/rbtree.cppm:468-482 | Inserting keeps the tree red-black, the thread, the cached head and the size right, and puts the item behind all items of the same key and before all greater ones |
| RbTree.RbTree.Remove | kernel/interfaces/lib/rbtree.cppm:484-491 | Removing takes exactly that item out of the in-order sequence and keeps the whole invariant |
| RbTree.RbTree.constructor | kernel/interfaces/lib/rbtree.cppm:439 | An empty tree meets the invariant |
| RbTree.RbTree.SetKey | kernel/source/system/scheduler.cpp:404-408 | The key of an item that is in no tree is written, as `sleep_until` is before queueing; the tree stays intact |
| RbTree.RbTree.First | kernel/interfaces/lib/rbtree.cppm:502-507 | The cached head is the first item of the in-order walk |
| RbTree.RbTree.Last | kernel/interfaces/lib/rbtree.cppm:509-516 | Walking right from the root reaches the last item of the in-order walk |
| RbTree.RbTree.Contains | kernel/interfaces/lib/rbtree.cppm:518-533 | The search answers whether some item has an equivalent key |
| RbTree.RbTree.RotateLeft | kernel/interfaces/lib/rbtree.cppm:85-99 | The links become those of a left turn at x, whatever the shape around it |
| RbTree.RbTree.RotateRight | kernel/interfaces/lib/rbtree.cppm:101-115 | The mirror image of the left turn |
| RbTree.RbTree.FindParent | kernel/interfaces/lib/rbtree.cppm:175-182 | The walk down ends at the node under which the item comes last among its equals |
| RbTree.RbTree.ThreadIn | kernel/interfaces/lib/rbtree.cppm:187-215 | The item joins successor, predecessor and head at its place in the order |
| RbTree.RbTree.InsertBelow | kernel/interfaces/lib/rbtree.cppm:169-218 | Threading, linking and repair together insert at that place and end red-black |
| RbTree.RbTree.InsertFixup | kernel/interfaces/lib/rbtree.cppm:117-167 | From one red node under a red parent back to a red-black tree, with the order of items untouched |
| RbTree.RbTree.Unthread | kernel/interfaces/lib/rbtree.cppm:322-340 | The item leaves successor, predecessor and head |
| RbTree.RbTree.Transplant | kernel/interfaces/lib/rbtree.cppm:220-230 | One subtree takes the slot of another; an absent one leaves its parent in the temporary hook |
| RbTree.RbTree.Minimum | kernel/interfaces/lib/rbtree.cppm:232-238 | The leftmost node below x is the first of its part of the order |
| RbTree.RbTree.Unlink | kernel/interfaces/lib/rbtree.cppm:342-374 | The item leaves the links; the subtree that moved up lacks one black exactly when a black slot was lost |
| RbTree.RbTree.RemoveFixup | kernel/interfaces/lib/rbtree.cppm:248-316 | From a node, possibly absent and known only to the temporary hook, that lacks a black back to a red-black tree, order untouched |
| RbShape.RotateLeftKeepsTree | kernel/interfaces/lib/rbtree.cppm:85-99 | A left turn keeps links, parents and the in-order walk consistent |
| RbShape.RotateRightKeepsTree | kernel/interfaces/lib/rbtree.cppm:101-115 | So does a right turn |
| RbPaint.TurnLeftKeepsEven | kernel/interfaces/lib/rbtree.cppm:85-99 | How a left turn with repainting changes the black heights on both sides of every node |
| RbPaint.TurnRightKeepsEven | kernel/interfaces/lib/rbtree.cppm:101-115 | The same for a right turn |
| RbInsert.Recolour | kernel/interfaces/lib/rbtree.cppm:123-130 | Red uncle: repainting moves the only red-red edge two levels up and keeps the black heights |
| RbInsert.TurnLeftInner | kernel/interfaces/lib/rbtree.cppm:133-137 | The inner case of the left side becomes the outer one |
| RbInsert.TurnRightOuter | kernel/interfaces/lib/rbtree.cppm:138-140 | The outer case of the left side removes the red-red edge |
| RbInsert.TurnRightInner | kernel/interfaces/lib/rbtree.cppm:155-159 | The inner case of the right side becomes the outer one |
| RbInsert.TurnLeftOuter | kernel/interfaces/lib/rbtree.cppm:160-162 | The outer case of the right side removes the red-red edge |
| RbInsert.LinkFixing | kernel/interfaces/lib/rbtree.cppm:183-212 | A new red leaf leaves at most the edge to its parent wrong |
| RbInsert.BlackRoot | kernel/interfaces/lib/rbtree.cppm:166 | Painting the root black ends the repair |
| RbRemove.RedSiblingLeft | kernel/interfaces/lib/rbtree.cppm:255-261 | A red sibling is turned away and the missing black stays where it was |
| RbRemove.BlackNephewsLeft | kernel/interfaces/lib/rbtree.cppm:262-266 | With two black nephews the missing black moves up one level |
| RbRemove.InnerNephewLeft | kernel/interfaces/lib/rbtree.cppm:269-275 | A red inner nephew becomes a red outer one |
| RbRemove.OuterNephewLeft | kernel/interfaces/lib/rbtree.cppm:276-280 | A red outer nephew supplies the missing black, and only the root may still need painting |
| RbRemove.RedSiblingRight | kernel/interfaces/lib/rbtree.cppm:286-292 | Mirror image of the red sibling case |
| RbRemove.BlackNephewsRight | kernel/interfaces/lib/rbtree.cppm:293-297 | Mirror image of the black nephews case |
| RbRemove.InnerNephewRight | kernel/interfaces/lib/rbtree.cppm:300-306 | Mirror image of the inner nephew case |
| RbRemove.OuterNephewRight | kernel/interfaces/lib/rbtree.cppm:307-311 | Mirror image of the outer nephew case |
| RbRemove.Blacken | kernel/interfaces/lib/rbtree.cppm:315 | Painting the node that lacks a black, red or at the root, makes the tree red-black |
| RbUnlink.UnlinkOuter | kernel/interfaces/lib/rbtree.cppm:346-355 | Splicing out a node with at most one child removes it from the order; its colour decides whether a black is missing |
| RbUnlink.UnlinkInner | kernel/interfaces/lib/rbtree.cppm:356-374 | Replacing a node by the leftmost one of its right subtree, next to it or deeper, does the same with that one's colour |
| RbUnlink.ReplaceRenames | kernel/interfaces/lib/rbtree.cppm:362-372 | The pointer writes of the replacement amount to a splice and a renaming |
| RbEdit.LinkKeepsTree | kernel/interfaces/lib/rbtree.cppm:183-211 | Linking a leaf at a position of the order keeps the links consistent |
| RbEdit.SpliceKeepsTree | kernel/interfaces/lib/rbtree.cppm:220-230 | Splicing a node out keeps them consistent |
| RbEdit.RenameKeepsTree | kernel/interfaces/lib/rbtree.cppm:370-373 | Putting another node in the slot keeps them consistent |
| RbThread.InsertThreaded | kernel/interfaces/lib/rbtree.cppm:189-207 | After the four writes successor and predecessor are inverse to each other along the new order |
| RbThread.DeleteThreaded | kernel/interfaces/lib/rbtree.cppm:328-340 | And after a removal along the shorter order |
| RbThread.InsertSorted | kernel/interfaces/lib/rbtree.cppm:178-181 | Inserting at that place keeps the order sorted by key |
| RbMeaning.BelowInOrder | kernel/interfaces/lib/rbtree.cppm:399-404 | The links, read as a binary tree, have exactly the threaded sequence as their in-order walk |
| RbMeaning.BelowRedBlack | kernel/interfaces/lib/rbtree.cppm:117-167 | That tree has equal black heights and no red node with a red child |
| RbMeaning.TreeMeaning | kernel/interfaces/lib/rbtree.cppm:518-533 | The height h of a tree of n items satisfies 2^h <= (n + 1)^2 |
| RbStable.RunStable | kernel/interfaces/lib/rbtree.cppm:169-218 | After any run of insertions and removals the sequence is sorted by key and, among equal keys, by time of insertion |
| RbStable.StableUnique | kernel/interfaces/lib/rbtree.cppm:169-218 | Keys and ages leave only one such sequence, so the thread is the stable sort of its items |
| RbRun.Apply | kernel/interfaces/lib/rbtree.cppm:468-491 | One insertion or removal on the links does to them what it does to the plain sequence |
| RbRun.Execute | kernel/interfaces/lib/rbtree.cppm:468-491 | A whole run of the tree: its items are the plain sequence after that run, sorted by key and then by age |
| Pmm.Allocator.Alloc | kernel/source/system/memory/pmm.cpp:243-283 | For n pages whose size fits 64 bits it succeeds exactly when some chunk holds a naturally aligned free run of the least power of two of at least n pages, and never above 2^15; it hands one out, of less than twice n pages, and changes nothing else. Otherwise the block is too small |
| Pmm.Allocator.Free | kernel/source/system/memory/pmm.cpp:227-241 | Gives back exactly the frames of the block of that order, and no other; a size of no pages in 64 bits, or more than 2^15, changes nothing |
| Pmm.PlainAsk | kernel/source/system/memory/pmm.cpp:42-47 | The order of a request is the least one whose block holds it |
| Pmm.AskedWraps | kernel/source/system/memory/pmm.cpp:243-250 | A request of 2^52 + 1 pages comes down to one page |
| Pmm.Allocator.Refill | kernel/source/system/memory/pmm.cpp:252-273 | If the list is still empty after splitting and coalescing, there was no free run of that order at all |
| Pmm.Allocator.SplitTo | kernel/source/system/memory/pmm.cpp:126-160 | Splits without changing which frames are free; failing means that all larger lists are empty |
| Pmm.Allocator.CoalesceTo | kernel/source/system/memory/pmm.cpp:162-225 | Ends, keeps the free frames, and leaves no two mergeable buddies below the target order |
| Pmm.Allocator.CoalesceOrder | kernel/source/system/memory/pmm.cpp:170-224 | The same for one order, although lists change during the scan and it starts over after every merge |
| Pmm.Allocator.NextLeftHalf | kernel/source/system/memory/pmm.cpp:177-182 | The inner loop stops at the next left half with a block behind it, having passed no mergeable block |
| Pmm.Allocator.MergeOne | kernel/source/system/memory/pmm.cpp:184-221 | Both buddies leave their list and one larger block enters the next, with the lower orders untouched |
| Pmm.Allocator.SplitOne | kernel/source/system/memory/pmm.cpp:138-158 | One block becomes two free buddies chained to each other and to what follows |
| Pmm.Allocator.TakeHead | kernel/source/system/memory/pmm.cpp:275-282 | The head of the list is a free run of the order and becomes the only new live block; the checks before it hold |
| Pmm.Allocator.AddRange | kernel/source/system/memory/pmm.cpp:88-124 | Exactly the whole pages of an acceptable range become free, cut into chunks of the greatest possible orders; all other chunks stay, and the rest in bytes is returned |
| Pmm.Allocator.AddBlock | kernel/source/system/memory/pmm.cpp:113-120 | Frame c becomes the base of a new chunk of order o, free in full; all other chunks stay |
| Pmm.RunsStay | kernel/source/system/memory/pmm.cpp:88-124 | Every free run that could be handed out before a range is added still can be after it |
| Pmm.CutStays | kernel/source/system/memory/pmm.cpp:98-120 | What an earlier round of the loop has cut, later rounds leave |
| Pmm.Allocator.constructor | kernel/source/system/memory/pmm.cpp:30-33 | Initially nothing is free or handed out, and no frame is managed |
| Pmm.Allocator.Put | kernel/source/system/memory/pmm.cpp:49-56 | The pointer writes that push onto a list |
| Pmm.Allocator.Rem | kernel/source/system/memory/pmm.cpp:58-65 | The pointer writes that pop a list |
| Pmm.Allocator.Unlink | kernel/source/system/memory/pmm.cpp:200-209 | The pointer writes that take a page out of the middle of a list |
| Pmm.ChunkOrder | kernel/source/system/memory/pmm.cpp:98-111 | The greatest order that fits the size and the alignment, or none when the base is not page aligned |
| PmmLists.PushKeepsLinked | kernel/source/system/memory/pmm.cpp:49-56 | Pushing keeps all free lists well-formed and disjoint |
| PmmLists.DropKeepsLinked | kernel/source/system/memory/pmm.cpp:200-209 | So does taking any member out |
| PmmTiles.SplitKeepsTiled | kernel/source/system/memory/pmm.cpp:141-155 | Splitting keeps every chunk tiled by aligned blocks, with the record of each pointing to the next or to 0 at the end |
| PmmTiles.MergeKeepsTiled | kernel/source/system/memory/pmm.cpp:214-217 | Merging keeps it |
| PmmTiles.AddKeepsTiled | kernel/source/system/memory/pmm.cpp:113-120 | Adding a chunk keeps it |
| PmmTiles.UseKeepsTiled | kernel/source/system/memory/pmm.cpp:237-280 | Marking a block used or free keeps it |
| PmmState.SplitKeepsOk | kernel/source/system/memory/pmm.cpp:138-158 | Lists, page records and tiling agree after a split, with the same free frames and live blocks |
| PmmState.MergeKeepsOk | kernel/source/system/memory/pmm.cpp:184-221 | And after a merge |
| PmmState.TakeKeepsOk | kernel/source/system/memory/pmm.cpp:275-280 | And after handing out, which moves exactly one block from free to live |
| PmmState.GiveKeepsOk | kernel/source/system/memory/pmm.cpp:234-239 | And after taking back |
| PmmState.GrowKeepsOk | kernel/source/system/memory/pmm.cpp:113-120 | And after adding a chunk |
| PmmComplete.RunIsCovered | kernel/source/system/memory/pmm.cpp:162-225 | Without mergeable buddies a single free block covers every aligned free run |
| PmmComplete.RunNeedsBlock | kernel/source/system/memory/pmm.cpp:243-273 | So a run of an order exists exactly when a list of that order or above is non-empty |
| PmmComplete.NothingToHandOut | kernel/source/system/memory/pmm.cpp:261-271 | Empty lists after coalescing mean that there was no such run before it |
| PmmComplete.LiveDisjoint | kernel/source/system/memory/pmm.cpp:243-283 | Blocks that are handed out are aligned, disjoint and hold no free frame |
| Dyadic.Nested | kernel/source/system/memory/pmm.cpp:103-108 | Two aligned power-of-two blocks are disjoint or one holds the other |
| Dyadic.FrameAligned | kernel/source/system/memory/pmm.cpp:103 | Alignment of byte addresses and of frame numbers are the same |
| KsInPlace.FindToken | dependencies/kallsyms/kallsyms.c:531-541 | The first occurrence of the pair, or none |
| KsInPlace.ReplaceAt | dependencies/kallsyms/kallsyms.c:564-577 | One round with the size that is too long by one per replacement moves only zero bytes too many |
| KsInPlace.ReplaceInPlace | dependencies/kallsyms/kallsyms.c:550-579 | In place, every left-to-right occurrence of the pair is replaced and the tail stays zero |
| KsTokens.ReplaceKeepsMeaning | dependencies/kallsyms/kallsyms.c:545-584 | A symbol with the pair replaced expands to the same characters |
| KsTokens.ReplaceLeavesNoPair | dependencies/kallsyms/kallsyms.c:575-577 | No occurrence is left, and nothing but old codes and the new one appears |
| KsTokens.NewTokenOk | dependencies/kallsyms/kallsyms.c:614-624 | A token over codes in use keeps the table free of cycles |
| KsCompress.Compressor.LearnSymbol | dependencies/kallsyms/kallsyms.c:505-511 | Adds the symbol's adjacent pairs to the counts |
| KsCompress.Compressor.ForgetSymbol | dependencies/kallsyms/kallsyms.c:514-520 | Takes them off again |
| KsCompress.Compressor.CompressSymbol | dependencies/kallsyms/kallsyms.c:550-582 | The counts stay the true pair counts of all symbols after one of them changed in place |
| KsCompress.Compressor.CompressSymbols | dependencies/kallsyms/kallsyms.c:545-584 | So they do after a whole pass, in which every symbol has the pair replaced |
| KsCompress.Compressor.FindBestToken | dependencies/kallsyms/kallsyms.c:587-601 | The first of the pairs with the greatest count |
| KsCompress.Compressor.BuildInitialTokenTable | dependencies/kallsyms/kallsyms.c:523-529 | Afterwards the counts are the pair counts of all symbols |
| KsCompress.Compressor.InsertRealSymbols | dependencies/kallsyms/kallsyms.c:633-644 | A code is a literal exactly when it occurs in some symbol |
| KsCompress.Compressor.OptimizeResult | dependencies/kallsyms/kallsyms.c:604-630 | The unused codes from 255 down become tokens, each for the pair that is most frequent then, until no symbol has a pair or no code is unused; every symbol still expands to its name, and the counts are exact |
| KsCompress.Compressor.OptimizeTokenTable | dependencies/kallsyms/kallsyms.c:646-653 | From the uncompressed symbols on: every symbol expands to its name, and no symbol has a pair or no code is unused |
| KsTables.WriteNames | dependencies/kallsyms/kallsyms.c:386-432 | The stream of ULEB128-prefixed symbols and a marker for every 256th; it fails exactly on an empty or too long symbol |
| KsTables.WriteTokens | dependencies/kallsyms/kallsyms.c:441-457 | The expanded tokens, NUL-terminated, and in 16 bits where each begins; nothing is cut if and only if the last one begins below 2^16 |
| KsTables.IndexIs | dependencies/kallsyms/kallsyms.c:441-457 | The 16-bit beginnings are all right if and only if the last one is |
| KsTables.TextsTooLong | dependencies/kallsyms/kallsyms.c:441-457 | Seventeen tokens that double each other are too long for them |
| KsTables.ExpandSymbol | dependencies/kallsyms/kallsyms.c:310-333 | The recursion ends and yields the expansion |
| KsTables.DepthSmaller | dependencies/kallsyms/kallsyms.c:310-333 | The measure by which it ends: a token's codes nest less deeply than the token |
| KsTables.JoinAt | dependencies/kallsyms/kallsyms.c:388-426 | A part of the stream is found at the length of what was written before it |
| KsLookup.WriteSeqs | dependencies/kallsyms/kallsyms.c:490-498 | Three big-endian bytes for every symbol in the order of names |
| KsWrite.WriteOffsets | dependencies/kallsyms/kallsyms.c:461-479 | Offset and base give the address back; it fails exactly when one is below the first or 4 GiB or more above it |
| KsWrite.WriteSrc | dependencies/kallsyms/kallsyms.c:360-499 | The tables belong to the symbols (codes, addresses and the order of names) if and only if no token offset was cut to 16 bits |
| KsWrite.Generate | dependencies/kallsyms/kallsyms.c:758-764 | From the sorted symbols to tables for which the kernel's lookups answer, if and only if no token offset was cut |
| KsWrite.GenerateAndLookup | dependencies/kallsyms/kallsyms.c:758-764 | Generating the tables and looking up any name in them: the lowest address of that name is found |
| KsDecode.SymSeq | kernel/source/system/bin/elf/symbols.cpp:47-53 | Reads back the number that was written |
| KsDecode.SymOffset | kernel/source/system/bin/elf/symbols.cpp:55-69 | From the marker over at most 255 symbols to exactly the offset of symbol pos |
| KsDecode.SkipSymbol | kernel/source/system/bin/elf/symbols.cpp:62-65 | One- and two-byte lengths both lead to the next symbol |
| KsDecode.LengthAt | kernel/source/system/bin/elf/symbols.cpp:73-84 | Decoding the length bytes of a record gives its length and where its codes begin |
| KsDecode.ExpandName | kernel/source/system/bin/elf/symbols.cpp:71-116 | The buffer gets the symbol's name without its type character, as far as it fits, a NUL, and is otherwise unchanged |
| KsDecode.CopyToken | kernel/source/system/bin/elf/symbols.cpp:97-111 | A token's characters are copied in turn; it stops early only when one byte is left |
| KsLookup.NameInBuffer | kernel/source/system/bin/elf/symbols.cpp:113-115 | The C string in the buffer is the name, cut off where it does not fit |
| KsLookup.CompareTransitive | dependencies/kallsyms/kallsyms.c:335-352 | Comparing names is a total order, as the binary search needs |
| KsLookup.LookupName | kernel/source/system/bin/elf/symbols.cpp:159-193 | Finds the lowest address of the symbols of that name; it reads outside the tables if and only if the name comes before all symbols |
| KsLookup.BeforeAll | kernel/source/system/bin/elf/symbols.cpp:161-183 | A name before the only symbol has no other outcome than a read outside the tables |
| KsLookup.SearchName | kernel/source/system/bin/elf/symbols.cpp:161-183 | Where the binary search ends, with the wrap-around of the upper bound |
| KsLookup.FirstIsLowest | kernel/source/system/bin/elf/symbols.cpp:185-192 | The first entry of that name has the lowest address |
| KsLookup.LookupAddr | kernel/source/system/bin/elf/symbols.cpp:119-157 | The nearest symbol at or below the address, its name and the distance; nothing when no higher symbol follows; without any symbol it reads a table that is empty |
| KsLookup.SearchAddr | kernel/source/system/bin/elf/symbols.cpp:124-137 | Going back over equal offsets ends at the first symbol of that address |
| KsLookup.BisectAddr | kernel/source/system/bin/elf/symbols.cpp:124-132 | The binary search ends at the last symbol at or below the address, or at the first of all |
| PtEntry.ArchRoundTrip | kernel/source/arch/x86_64/system/pagemap.cpp:75-167 | Flags and caching survive translation to entry bits and back, device memory as strongly uncacheable, and never touch the address bits |
| PtEntry.TableEntryLinks | kernel/source/system/memory/pagemap.cpp:36-39 | An entry made for a new table leads back to it |
| PtEntry.ReflaggedKeepsAddr | kernel/interfaces/system/memory/pagemap.cppm:102-135 | Replacing flags keeps the address, sets exactly those flags, and doing it twice changes nothing |
| PtEntry.LeafEntryHolds | kernel/interfaces/system/memory/pagemap.cppm:102-135 | An entry holds the address and the flags it was made from |
| PtState.WalkFollowsRoles | kernel/source/system/memory/pagemap.cpp:45-70 | The walk meets exactly the tables whose place in the tree it is |
| PtState.KernelHalfShared | kernel/source/arch/x86_64/system/pagemap.cpp:217-223 | In every state that meets the invariant the kernel half walks to the same entries in all address spaces |
| PtState.PagesApart | kernel/source/system/memory/pagemap.cpp:45-70 | Two pages with the same entry are the same page of one address space, or of the kernel half |
| PtSteps.AddKeepsOk | kernel/source/system/memory/pagemap.cpp:33-39 | Adding an empty table keeps the forest consistent |
| PtSteps.AddKeepsLeaf | kernel/source/system/memory/pagemap.cpp:33-39 | and maps nothing in any address space |
| PtSteps.SetKeepsOk | kernel/source/system/memory/pagemap.cpp:107-112 | Writing a leaf entry keeps the forest consistent |
| PtSteps.SetMeaning | kernel/source/system/memory/pagemap.cpp:107-112 | It changes that page, for the kernel half in all address spaces, and no other |
| PtSteps.EditedOnce | kernel/source/system/memory/pagemap.cpp:86-115 | A range that does not wrap around edits each page once, by its own number |
| PtSteps.DoneOnce | kernel/source/system/memory/pagemap.cpp:72-117 | So after such an operation every leaf of every address space is known |
| PtFrames.PageAddrIs | kernel/source/system/memory/pagemap.cpp:104-112 | As a number, the address of page k is that of the first page plus k pages, modulo 2^64 |
| PtFrames.MappedFrames | kernel/source/system/memory/pagemap.cpp:104-112 | After mapping, the k-th page of the range shows the k-th frame from the first on, in the 40 bits of an entry |
| PtFrames.FramesApart | kernel/source/system/memory/pagemap.cpp:104-112 | Two pages of one mapping never share a frame |
| PtNumber.DigitsAre | kernel/interfaces/system/memory/pagemap.cppm:102-135 | Masking an address, digit by digit, keeps the number of its middle bits |
| PtNumber.ChainAtIs | kernel/source/system/memory/pagemap.cpp:104-112 | Adding a power of two, digit by digit, is addition modulo the width |
| PageTables.IndexAt | kernel/source/system/memory/pagemap.cpp:53-66 | Shifting and masking an address gives the indices of its page number |
| PageTables.Memory.GetLvl | kernel/source/system/memory/pagemap.cpp:24-43 | Follows an entry, or makes an empty table without changing any mapping |
| PageTables.Memory.GetPte | kernel/source/system/memory/pagemap.cpp:45-70 | The entry of the page, or nothing exactly when a table is missing; mappings are unchanged, and every table that was there stays |
| PageTables.Memory.Map | kernel/source/system/memory/pagemap.cpp:72-117 | Exactly the pages of the range get entries, for consecutive frames; all other leaves are unchanged, and every table stays; for a length that the counter never reaches, the same holds of one lap, after which it goes on for ever |
| PageTables.Memory.Unmap | kernel/source/system/memory/pagemap.cpp:204-233 | Exactly the pages of the range are zeroed; holes are no error, and no table comes or goes; it does not end exactly for a length that the counter never reaches |
| PageTables.Memory.Protect | kernel/source/system/memory/pagemap.cpp:172-202 | It fails if and only if a page of the range has no table, at the first such page; flags up to there and nothing else change, and no table comes or goes; a page never mapped shows frame 0 afterwards |
| PageTables.Memory.Translate | kernel/source/system/memory/pagemap.cpp:255-274 | The address bits of the leaf; an error exactly for a missing table or an address that is not canonical |
| PageTables.Memory.constructor | kernel/source/arch/x86_64/system/pagemap.cpp:206-215 | The kernel's page map starts empty |
| PageTables.Memory.FillKernelHalf | kernel/source/arch/x86_64/system/pagemap.cpp:213-216 | Every entry of the kernel half gets a table |
| PageTables.Memory.MapKernel | kernel/source/system/memory/pagemap.cpp:345-380 | Each segment of the kernel binary is mapped, one after the other, and the kernel half stays filled, so that address spaces can be made |
| PageTables.Memory.Open | kernel/source/arch/x86_64/system/pagemap.cpp:217-223 | In any state after the kernel half was filled, a new address space has an empty user half and the kernel half of all others |
| PageTables.Memory.FreeTree | kernel/source/system/memory/pagemap.cpp:280-294 | Frees each table of the subtree once and nothing it points to as a leaf |
| PageTables.Memory.Close | kernel/source/system/memory/pagemap.cpp:276-295 | Frees exactly the tables of the user half and the root |
| PtSpaces.OpenMeaning | kernel/source/arch/x86_64/system/pagemap.cpp:217-223 | What the new address space shows, and that the others are unchanged |
| PtSpaces.WholeTree | kernel/source/system/memory/pagemap.cpp:280-295 | Everything an address space owns is its root or below its user half |
| PtSpaces.CloseKeepsOk | kernel/source/system/memory/pagemap.cpp:276-295 | The forest is consistent without it |
| PtSpaces.CloseMeaning | kernel/source/system/memory/pagemap.cpp:276-295 | The other address spaces show what they showed |
| PtAccess.PermitsIs | kernel/source/system/memory/pagemap.cpp:33-39 | The processor lets an access through if and only if the leaf entry does, as all tables above allow everything |
| PtAccess.CachedAs | kernel/source/arch/x86_64/system/pagemap.cpp:75-132 | The caching bits of an entry select, from the register as it is written at the start, the memory type that was asked for |
| PtRun.StepBooted | kernel/source/arch/x86_64/system/pagemap.cpp:206-223 | Each operation keeps the forest consistent and the kernel half filled |
| PtRun.RunCoherent | kernel/source/arch/x86_64/system/pagemap.cpp:206-223 | After any run of operations on any address spaces, all of them walk to the same entries in the kernel half |
| PtRun.RunIsolated | kernel/source/system/memory/pagemap.cpp:72-295 | An address space that no operation of the run is about shows in its user half what it showed before |
| RwLock.StepKeeps | kernel/interfaces/lib/spinlock.cppm:55-79 | Every atomic step of every thread keeps the invariant of both ticket locks and the reader count |
| RwLock.TicketsFit | kernel/interfaces/lib/spinlock.cppm:55-60 | Fewer tickets are out than 64 bits can tell apart |
| RwLock.WaitEnds | kernel/interfaces/lib/spinlock.cppm:57-59 | A spinning thread goes on exactly when its own ticket is served, wrap-around included |
| RwLock.UnlockNotRefused | kernel/interfaces/lib/spinlock.cppm:62-71 | Unlocking never finds the lock free |
| RwLock.FirstComeFirstServed | kernel/interfaces/lib/spinlock.cppm:55-60 | Of the threads waiting for a lock the one with the earliest ticket gets it |
| RwLock.GroupHolds | kernel/interfaces/lib/rwlock.cppm:39-60 | While the count may change, the readers hold the global lock together exactly when one is counted |
| RwLock.Exclusion | kernel/interfaces/lib/rwlock.cppm:39-94 | In every interleaving of any number of threads a writer, upgraded or not, is alone |
| RwLock.ReaderSeesLock | kernel/interfaces/lib/rwlock.cppm:52-55 | In every state with a reader the global lock is taken and a reader is counted |
| RwLock.WriterSeesLock | kernel/interfaces/lib/rwlock.cppm:62-76 | With a writer the lock is taken, and the count is zero if and only if no first reader waits |
| RwLock.WriterMeetsReader | kernel/interfaces/lib/rwlock.cppm:62-76 | A run at whose end a thread writes and a reader is counted: the assertion on entry to write_unlock fails |
| RwLock.ServingStays | kernel/interfaces/lib/rwlock.cppm:39-94 | While a thread reads or writes, no step of any other thread moves the served ticket of the global lock |
| RwLock.EntryChecks | kernel/interfaces/lib/rwlock.cppm:52-76 | The loads of the entry checks, with any steps of others in between: they hold for every reader, and for a writer exactly when no first reader waits at the last one |
| RwLock.NoDeadlock | kernel/interfaces/lib/rwlock.cppm:39-94 | In every reachable state with an operation under way some thread can go on, or a thread is reading or writing |
| RwProgress.CanComeToRest | kernel/interfaces/lib/rwlock.cppm:39-94 | From every reachable state the threads can go on so that all are idle, no reader is counted and both locks are free |
| RwProgress.EveryOperationCompletes | kernel/interfaces/lib/rwlock.cppm:39-94 | In every reachable state, each operation that a thread can begin there can be completed: locking ends with it reading or writing, an upgrade with it writing, unlocking with it idle |
| RwProgress.WriterLeaves | kernel/interfaces/lib/rwlock.cppm:62-66 | Five steps of a writer alone serve the next ticket of the global lock, leave the writer idle and change nothing else |
| RwProgress.IdleIsFree | kernel/interfaces/lib/rwlock.cppm:39-94 | When all threads are idle, nothing is locked or counted |
| InitEngine.Engines.Run | kernel/interfaces/lib/initgraph.cppm:171-230 | Ends; activates nodes once, behind their predecessors; reports exactly the nodes on or behind a circle, an undone node of another engine, or an edge made too late |
| InitEngine.Engines.Activate | kernel/interfaces/lib/initgraph.cppm:188-210 | One round: the assertions hold, and counts and queue stay exact |
| InitEngine.Engines.Release | kernel/interfaces/lib/initgraph.cppm:200-209 | Each edge of an activated node lowers its target's count once, and those that reach zero are queued |
| InitEngine.Engines.Start | kernel/interfaces/lib/initgraph.cppm:179-186 | The queue starts with exactly the wanted nodes that wait for nothing |
| InitEngine.Engines.Want | kernel/interfaces/lib/initgraph.cppm:176-177 | Exactly the nodes of the engine become wanted |
| InitEngine.Engines.RealiseNode | kernel/interfaces/lib/initgraph.cppm:234-240 | A new node waits for nothing and belongs to its engine |
| InitEngine.Engines.RealiseEdge | kernel/interfaces/lib/initgraph.cppm:242-249 | A new edge counts once for its target, and is open whether or not its source has been activated |
| InitGraph.IncomingZero | kernel/interfaces/lib/initgraph.cppm:208 | A count of zero means that no open edge leads there |
| InitGraph.GoBack | kernel/interfaces/lib/initgraph.cppm:212-223 | From a node that is left over, going back along open edges comes to a circle, to a node that is done, or leaves the engine |
| InitGraph.StuckStays | kernel/interfaces/lib/initgraph.cppm:212-223 | Nothing on such a path is ever activated |
| InitGraph.LeftOver | kernel/interfaces/lib/initgraph.cppm:212-226 | Hence the two are the same |
| InitGraph.LateEdge | kernel/interfaces/lib/initgraph.cppm:242-249 | The target of an edge whose source was activated before the edge was made is never activated |
| SchedState.OneHook | kernel/source/system/scheduler.cpp:33-60 | In every state between operations no thread is in both queues, the running one is in neither, keys are those under which threads were queued, and none is lost |
| SchedState.KeyOrder | kernel/source/system/scheduler.cpp:33-60 | The sleep queue has those without a time in front of all others, and these by their time |
| Sched.Cpu.PrepareSleep | kernel/source/system/scheduler.cpp:242-252 | The running thread becomes a sleeper with its duration, in nanoseconds of 64 bits, and its lock, in no queue yet, and nothing else changes |
| Sched.Cpu.WakeUp | kernel/source/system/scheduler.cpp:254-272 | Wakes exactly a sleeping thread, without moving it |
| Sched.Cpu.Yield | kernel/source/system/scheduler.cpp:395-418 | A sleeper is queued under its due time, and then the choice of `schedule` is made, with the run queue as it leaves it |
| Sched.Cpu.Park | kernel/source/system/scheduler.cpp:402-411 | The sleeper joins the sleep queue under now plus its duration in 64 bits, or the time it had |
| Sched.Cpu.Spawn | kernel/source/system/scheduler.cpp:438-475 | A new thread is queued by its virtual time |
| Sched.Cpu.SleeperPass | kernel/source/system/scheduler.cpp:539-583 | One pass makes exactly the sleepers of now or earlier ready, with the first one's virtual time, and the woken untimed ones, in the order of the sleep queue; killed ones go to the dead, and the others stay in their order |
| Sched.RestNotDue | kernel/source/system/scheduler.cpp:566-567 | Stopping at the first that is not due passes over none that is |
| Sched.Cpu.FindNext | kernel/source/system/scheduler.cpp:606-638 | Takes the oldest of the ready threads with the least virtual time; it and the killed ones before it leave the run queue, and the rest stays as it is |
| Sched.Cpu.PutAway | kernel/source/system/scheduler.cpp:641-681 | The thread that ran is charged and goes on, is queued again under its new virtual time, or is left asleep or dead |
| Sched.Cpu.Charge | kernel/source/system/scheduler.cpp:648-681 | With d the time since dispatch, the thread is charged c with c * weight <= 1024 * d < (c + 1) * weight if and only if product and sum fit 64 bits; it is queued again behind its equals, or its sleep lock is freed when it sleeps |
| SchedCharge.ChargeIsFair | kernel/source/system/scheduler.cpp:658-662 | The virtual time grows by 1024 * d over the weight, rounded down, if and only if nothing exceeds 64 bits |
| SchedCharge.NormalPays | kernel/source/system/scheduler.cpp:658-662 | A thread of normal weight is charged exactly the time it ran |
| SchedCharge.HeavierPaysLess | kernel/source/system/scheduler.cpp:658-662 | Of two threads that ran equally long the heavier one is never charged more |
| Sched.Cpu.Schedule | kernel/source/system/scheduler.cpp:589-710 | The first ready thread by virtual time, else the running one, else the idle one takes the CPU; the one that ran is charged as in Charge; exactly the killed ones it came upon are dead, and the reaper is roused if there are any; the run queue is that of before after exactly those steps; no panic branch is reached and the invariant is kept |
| Sched.ScheduleMoves | kernel/source/system/scheduler.cpp:602-668 | Searching and requeueing together are a run of the queue in which threads leave at its head only |
| SchedQueue.NoOvertaking | kernel/source/system/scheduler.cpp:602-638 | In any such run, whoever waits behind another one goes on waiting until that one has been taken |
| SchedQueue.QueuedBehind | kernel/interfaces/lib/rbtree.cppm:175-181 | A thread is queued behind all that wait under the same key or a smaller one |
| SchedRun.Serve | kernel/source/system/scheduler.cpp:395-710 | The timer, a yield, a pass of the sleeper, a new, a woken and a sleeping thread: each does to the run queue exactly its own operations, and whoever is first in it is dispatched |
| SchedRun.InOrder | kernel/source/system/scheduler.cpp:602-638 | Over any run of these, a thread that waited behind another one leaves the run queue later, so that equal keys are dispatched in the order in which they were queued |
| SchedRun.DispatchedLeaves | kernel/source/system/scheduler.cpp:613-619 | The thread that is dispatched leaves the run queue then |
| SchedRun.QueuedWaitsBehind | kernel/source/system/scheduler.cpp:666-668 | A thread that is queued waits behind those with the same virtual time or less |
| SchedState.RequeueKeeps | kernel/source/system/scheduler.cpp:662-668 | Charging and requeueing the running thread writes its key only while it is in no queue |
| SchedState.WakeKeeps | kernel/source/system/scheduler.cpp:544-581 | Moving a sleeper writes its keys only between the two queues |
| SchedState.ParkKeeps | kernel/source/system/scheduler.cpp:402-411 | So does going to sleep |
| SchedState.DispatchKeeps | kernel/source/system/scheduler.cpp:690-700 | Switching leaves exactly one running thread, in no queue |
| SchedState.KillKeeps | kernel/source/system/scheduler.cpp:628-632 | A thread may be marked killed at any time |
| PagedObject.MemObject.GetPage | kernel/source/system/memory/vmm.cpp:20-32 | A page that comes into being reads as zeros; it fails exactly when the page is missing and the request is refused |
| PagedObject.MemObject.Read | kernel/source/system/memory/vmm.cpp:34-58 | The buffer gets the bytes of the range, going around at 2^64, up to the first refused page; its rest and the object are unchanged |
| PagedObject.MemObject.Write | kernel/source/system/memory/vmm.cpp:60-84 | Exactly the bytes of the range are replaced, going around at 2^64, up to the first refused page |
| PagedObject.MemObject.Clear | kernel/source/system/memory/vmm.cpp:86-108 | Exactly those bytes get the value |
| PagedObject.MemObject.CopyTo | kernel/source/system/memory/vmm.cpp:110-137 | The other object gets exactly the bytes of the range, up to the first page that either refuses |
| PagedObject.SpliceReplaces | kernel/source/system/memory/vmm.cpp:66-81 | Writing into one page changes only those bytes of the object |
| PagedObject.ReplacedPlain | kernel/source/system/memory/vmm.cpp:60-84 | A range that ends below 2^64 is replaced byte by byte, without going around |
| PagedObject.MemObject.Store | kernel/source/system/memory/vmm.cpp:66-81 | One page of a transfer extends what was transferred before |
| Tmpfs.Inode.Read | kernel/source/drivers/fs/tmpfs.cpp:40-55 | Reads the bytes of the file up to its end if and only if the offset is not behind the end and the range ends below 2^64; otherwise it overruns the buffer or goes around to the first byte |
| Tmpfs.Inode.Write | kernel/source/drivers/fs/tmpfs.cpp:57-71 | The file is the old one overwritten, with zeros in the gap, if and only if the range ends below 2^64; otherwise the bytes go around to the first ones |
| Tmpfs.WriteGoesAround | kernel/source/drivers/fs/tmpfs.cpp:57-71 | Two bytes written at offset 2^64 - 1: byte 0 is overwritten, and no file can be in the object any more |
| Tmpfs.AskedIs | kernel/source/drivers/fs/tmpfs.cpp:40-52 | The length that a read computes is what is left of the file exactly without wrapping around |
| Tmpfs.ReadOverruns | kernel/source/drivers/fs/tmpfs.cpp:40-52 | One byte at offset 1 of an empty file: the length becomes 2^64 - 1 |
| Tmpfs.Inode.Truncate | kernel/source/drivers/fs/tmpfs.cpp:73-90 | The file is cut, or extended with zeros |
| Tmpfs.Inode.Map | kernel/source/drivers/fs/tmpfs.cpp:92-104 | A private mapping is a fresh and exact copy, a shared one the memory itself |
| Tmpfs.ReadBack | kernel/source/drivers/fs/tmpfs.cpp:40-71 | What was written is read back |
| Tmpfs.WriteFrame | kernel/source/drivers/fs/tmpfs.cpp:57-71 | Other bytes are as they were, or zero in the gap |
| Tmpfs.Regrown | kernel/source/drivers/fs/tmpfs.cpp:73-90 | What was cut off does not come back |
| Tmpfs.BlocksHold | kernel/source/drivers/fs/tmpfs.cpp:64-70 | The number of 512-byte blocks holds the file and is not one too many if and only if the rounding fits 64 bits |
| Tmpfs.ReadAt | kernel/source/drivers/fs/tmpfs.cpp:40-55 | A read gets byte offset + k as its byte k, and as many as were asked for as far as the file has them |
| Tmpfs.TruncatedAt | kernel/source/drivers/fs/tmpfs.cpp:73-90 | Truncating keeps every byte below the new size and appends zeros |
| VmSpace.Space.Unmap | kernel/source/system/memory/vmm.cpp:231-287 | Page by page: touchable mappings vanish in the range and all else stays, and mappings stay disjoint, unless the end wraps around at 2^64 and a mapping is hit; exactly the entries of the touched pages are zeroed, and the page tables stay in agreement with the mappings |
| VmSpace.Space.Protect | kernel/source/system/memory/vmm.cpp:314-395 | It panics if and only if a touched page has no table. Otherwise touchable mappings in the range change their protection only; mappings stay disjoint, and non-empty if and only if the length is neither 0 nor too great to be rounded up, or no mapping contains the empty range; page tables and mappings stay in agreement if and only if every touched page had been faulted in |
| VmSpace.Space.Edit | kernel/source/system/memory/vmm.cpp:242-284 | The loop of both operations, for any range of pages, wrapped around or not: the mappings and the page tables afterwards, and when it panics |
| VmSpace.Space.CallPageMap | kernel/source/system/memory/vmm.cpp:386-391 | The page map does its part for one mapping, or fails exactly because a table is missing |
| VmSpace.Space.Fault | kernel/source/system/memory/vmm.cpp:450-520 | It refuses if and only if no mapping shows the page, its object has no frame and gets none, or the entry holds that frame already; it panics only without free memory; in every other case the entry of the page gets the frame with the protection of its mapping, and no other entry changes |
| VmSpace.Space.MapIn | kernel/source/system/memory/vmm.cpp:504-517 | A fault is refused exactly when the page is mapped to that very frame |
| VmSpace.Space.GetPage | kernel/source/system/memory/vmm.cpp:20-32 | A page that the object has keeps its frame, and one that it has not gets what is granted |
| VmPages.FreshMissing | kernel/source/system/memory/vmm.cpp:314-391 | A process that protects page 5 of a mapping it has not used yet meets no table, so that the kernel panics |
| VmPages.UnmapBacked | kernel/source/system/memory/vmm.cpp:231-287 | After unmapping, every entry of the user half still holds the frame and the flags of what the mappings show there |
| VmPages.ProtectBacked | kernel/source/system/memory/vmm.cpp:314-391 | After protecting, every entry holds the frame of what the mappings show if and only if each touched page had been faulted in; any other one shows frame 0 |
| VmPages.ProtectEnforced | kernel/source/system/memory/vmm.cpp:319-328 | With no mapping above the user half, the entries have the flags of the protection that the mappings show, after protecting as before |
| VmPages.AccessIs | kernel/source/system/memory/vmm.cpp:319-328 | A user may read a page that is there if its protection says so, and write or run it if it says that too; without the right to read, nothing is allowed |
| VmPages.FaultBacked | kernel/source/system/memory/vmm.cpp:497-515 | A fault keeps both |
| VmPages.OthersAgree | kernel/source/system/memory/vmm.cpp:231-395 | What one process unmaps or protects changes no entry in the user half of another |
| VmPages.EditedIs | kernel/source/system/memory/pagemap.cpp:172-233 | Clearing or protecting an entry more than once, for pages that share it, is the same as once |
| VmTree.FarMatters | kernel/source/system/memory/vmm.cpp:231-287 | A range that wraps around does what the caller meant if and only if nothing touchable lies in the range that was meant |
| VmTree.UnmapWraps | kernel/source/system/memory/vmm.cpp:231-280 | Page 5 of pages 1 to 9, with length 2^64 - 0x3000: the pieces overlap |
| VmTree.ProtectWraps | kernel/source/system/memory/vmm.cpp:314-395 | The same mapping with length 2^64 - 1 or 0: an empty mapping is left |
| VmTree.CutShows | kernel/source/system/memory/vmm.cpp:255-280 | Head, tail and middle together show what the mapping showed outside the range |
| VmTree.CutsOk | kernel/source/system/memory/vmm.cpp:231-395 | Cutting keeps mappings disjoint if and only if the range does not end before it starts, and when it makes an empty one |
| VmTree.EraseOne | kernel/source/system/memory/vmm.cpp:249 | Erasing by start page removes that mapping alone |
| VmTree.OneView | kernel/source/system/memory/vmm.cpp:231-395 | A page shows at most one thing |
| VmTree.PagesCover | kernel/interfaces/lib/math.cppm:65-68 | Rounding up gives as many pages as are needed and not one more |
| VmTree.UntouchableBit | kernel/interfaces/system/memory/vmm.cppm:28 | A mapping is left alone if and only if flag 0x40 is set |
| StackBuild.Build | kernel/source/system/bin/elf/exec.cpp:188-296 | The required size is used up exactly, the stack pointer is 16-byte aligned, and reading upwards from it gives back arguments, environment, each with a null pointer behind it, and the auxiliary vector, in which entry point and program headers are found under their types |
| StackBuild.AuxvOk | kernel/source/system/bin/elf/exec.cpp:258-267 | The loader's vector has the six entries that the size counts on and ends with its only AT_NULL |
| StackBuild.AuxvTells | kernel/source/system/bin/elf/exec.cpp:258-267 | Looking up types 9, 3, 4 and 5 gives the entry point, the program headers, their size and their number |
| StackImage.RoundTrip | kernel/source/system/bin/elf/exec.cpp:215-287 | That reading, for any strings without NUL and any words that point to them |
| StackImage.StringThere | kernel/source/system/bin/elf/exec.cpp:225-241 | A string is found at its pointer, whatever lies below |
| StackBuild.SizeIsAligned | kernel/source/system/bin/elf/exec.cpp:191-207 | The required size is a multiple of 16 in both parities |
| StackBuild.StackBuffer.PutStrings | kernel/source/system/bin/elf/exec.cpp:225-241 | The strings and the pointers to them, in both loops |
| StackBuild.StackBuffer.PutAux | kernel/source/system/bin/elf/exec.cpp:250-267 | The auxiliary vector, type below value |
| StackBuild.StackBuffer.PutWords | kernel/source/system/bin/elf/exec.cpp:272-285 | The pointers, the last first |
| StackBuild.StackBuffer.Align | kernel/source/system/bin/elf/exec.cpp:243 | The padding keeps what was put and stays zero |
| FreqFrac.InitExact | kernel/interfaces/lib/math.cppm:153-158 | The fraction is 10^9 over that frequency, rounded down, if and only if the frequency is below 2^35 |
| FreqFrac.InitOverflows | kernel/interfaces/lib/math.cppm:153-158 | The fraction for 2^35 Hz is wrong |
| FreqFrac.NanosMonotone | kernel/interfaces/lib/math.cppm:168-174 | Up to a number of ticks, more ticks are no less time, if and only if its product fits 128 bits |
| FreqFrac.NanosBound | kernel/interfaces/lib/math.cppm:168-174 | Never more than the exact time; less by under 1 ns plus 2 ns per second if and only if the saturated clock has not stood still for too long |
| FreqFrac.TicksBack | kernel/interfaces/lib/math.cppm:168-179 | There and back never exceeds the time, and falls short by no more than a tick rounded up if and only if the shifted time fits 64 bits |
| FreqFrac.TicksWrap | kernel/interfaces/lib/math.cppm:176-179 | At 3 GHz, 2^33 nanoseconds come out as no ticks at all |
| FreqFrac.DropsBack | kernel/interfaces/lib/math.cppm:168-174 | Where the product exceeds 128 bits the time drops from the greatest one to nearly zero |

## Left out

Whole parts:

- `vmspace::map`: its split branch inserts an empty tail and computes a wrong tail offset when the new range starts first, so that it is not pointwise.
- `vmspace::is_mapped`, `find_free_region` and the unmapping of a whole object: the first starts its coverage at 0, the others add only easy members.
- Large pages and other page sizes: the caching bit of large pages lies inside the address mask, and the walk does not tell large leaves from tables.
- TLB invalidation, interrupts, preemption counters, floating-point state and all device code.
- The bootstrap allocator, the page database's own memory, the choice between the three allocators, and `mem.used`.
- Reading and filtering of the symbol map, assembler text, and `qsort`: the sorted orders are parameters with the properties that the comparison functions give them.
- Module symbols, which are searched when the kernel's own table has no answer.
- Kernel locks around the modelled operations, other than the reader/writer lock itself.

Where the model abstracts:

- RbTree.RbTree.Insert: keys are integers; any strict weak order on finitely many items can be written so.
- Pmm.Allocator.Alloc: works on frame numbers, with the higher-half offset aligned to the largest block, and the bit trick of `next_pow2` is replaced by the order it yields.
- Pmm.Allocator.AddRange: page records of fresh memory start zeroed, the memory was not managed before, and its end fits 64 bits.
- Pmm.Allocator.Free: the caller gives back a live block with the size it asked for, as the checks in the source demand.
- KsWrite.Generate: names are NUL-free and shorter than the common limit, and there are fewer than 2^24 symbols.
- KsLookup.LookupAddr: offset and base of a symbol do not wrap around at 64 bits when added, as `KsWrite.WriteOffsets` made them.
- PageTables.Memory.Map: a failed allocation, which panics, is an outcome of its own; tables come from a set of free frames. The undo branch for a failed walk cannot be reached.
- PageTables.Memory.Protect: page numbers wrap around as they do in the walk.
- RwProgress.EveryOperationCompletes: that threads can go on so, not that every scheduler of the threads lets them.
- RwLock.Exclusion: memory accesses are sequentially consistent; the run goes on after a failed assertion in write_unlock. The blocking, interrupt and preemption variants and try_lock are not modelled.
- InitEngine.Engines.Run: activating a node changes nothing in the graph. An engine runs only after earlier runs have succeeded, as a failed one panics.
- Sched.Cpu.Schedule: each operation is atomic, for one CPU; saving and loading of contexts, the reaper's deletion of dead threads and its sleep without the lock are not modelled.
- Sched.Cpu.Charge: the table from priorities to weights is not modelled; a thread has its weight.
- Sched.Cpu.Yield: preemption is enabled, as it must be for the switch to happen at once; the wake reason that a sleeper gets back later is only stored.
- PagedObject.MemObject.Read: requests for pages are refused from some number on, and memory objects never refuse, as running out of memory panics.
- PagedObject.MemObject.CopyTo: the two objects are different ones.
- Tmpfs.Inode.Map: writes through a shared mapping behind the end of the file are not modelled.
- Tmpfs.Inode.Write: what later operations do after a write that went around is not modelled.
- VmSpace.Space.Unmap: the tree is a set, erased from by start page.
- VmSpace.Space.Protect: the state after a panic is not described.
- VmSpace.Space.Fault: the copy-on-write branch is not modelled; it calls `map`, which takes the lock that the branch holds. The frames of all objects that a process maps are in one map, and addresses are those that the processor translates.
- StackBuild.Build: the strings fit the stack, and contain no NUL; copying the finished buffer into the stack's memory object is left to that object.
- FreqFrac.InitExact: a frequency of 0 is no input, as `init` would divide by it; nor is the object without a frequency, by whose 0 `ticks` would divide.
