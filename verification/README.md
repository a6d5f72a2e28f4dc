# FlakeWM, verified

A Dafny model of the data structures and protocols at the core of FlakeWM and of the libdrm code it ships, with proofs of what they promise. Each module follows one source file and takes its form: code that mutates objects, arrays and lists is modelled by classes, arrays and loops proved against specifications; pure code by functions and lemmas.

| file | models |
|---|---|
| `SkipList.dfy` | the skip list of `libs/libdrm/xf86drmSL.c` as a sorted finite map |
| `VaHoles.dfy`, `VaManager.dfy`, `VaRanges.dfy` | the GPU virtual-address allocator of `libs/libdrm/amdgpu/amdgpu_vamgr.c` |
| `AtomicCommit.dfy`, `AtomicRequest.dfy` | atomic modeset requests of `libs/libdrm/xf86drmMode.c`, up to the ioctl |
| `CommandStream.dfy` | command streams and their buffer index cache in `libs/libdrm/etnaviv/etnaviv_cmd_stream.c` |
| `BlurKernel.dfy`, `BlurPass.dfy` | the blur kernel of `src/render/blur_kernel.h` and the Vulkan and GLES2 convolution passes |
| `RoundedCorners.dfy` | rounded-corner masks of `src/render/backdrop_blur_renderer.cc` |
| `Shortcut.dfy`, `KeyBindings.dfy` | shortcut grammar and key handling of `src/input/key_binding_manager.cc` |
| `SelectionPersist.dfy` | clipboard persistence of `src/input/selection_persist.cc` |
| `HashTable.dfy` | the move-to-front hash table of `libs/libdrm/xf86drmHash.c` |
| `LehmerRandom.dfy`, `LehmerPeriod.dfy` | the Lehmer generator of `libs/libdrm/xf86drmRandom.c` |
| `Arithmetic.dfy`, `Option.dfy` | shared helpers |

The main results are statements over every input, every run or every reachable state: refinement of finite maps by the skip list and the hash table, whose chains are in the order of last use, exact partition and optimal search for the allocator, last-writer-wins through sorting, in-place thinning and flattening for atomic requests, independence of command streams under any interleaving although they share an index cache, exactness of tap folding and of successive over-blends, equality of the scanline corner builder with a geometric definition, round trip and order-independence of shortcuts, pairing of swallowed presses and releases in every run of the key manager, and faithful copying of the clipboard under every schedule.

## Where the code does not do what one might expect

The model follows the code. These expectations fail, each with a counterexample and the exact condition under which they hold:

- The Vulkan blur pass and the GLES2 shader do not agree at the border. The stretched edge column is drawn with a bilinear filter that is clamped to the whole texture (`libs/wlroots/render/vulkan/renderer.c`, lines 1583 to 1585 and 2035 to 2037), so on the half of the edge next to the content it mixes in the neighbouring texel, and when the texture is larger than the image, as for the scratch buffer of the second pass, on the other half whatever lies beyond. `BlurPass.PassEqualsShader`, `BlurPass.KernelPassExact` and `BlurPass.ConfinedAgrees` say exactly where, when and why, and `BlurPass.BleedExample` shows one pixel. The comment that `size` is the whole of `source` (line 288 of `vulkan_blur_pipeline.cc`) does not hold for that second pass below full resolution.
- A shortcut printed for a key whose name is also a modifier alias, such as `ISO_Level3_Shift`, is refused by the parser: `Shortcuts.RoundTrip`, `Shortcuts.LevelShiftRefused`.
- A key pressed during a capture grab and released after it is not paired: `KeyBindings.ReleaseKeepsToPress`, `KeyBindings.GrabBreaksPairing`.
- Duplicate removal in an atomic commit leaves duplicates of a property set three times or more: `AtomicCommit.DuplicatesLeft`, `AtomicCommit.ThreeWrites`.
- The comparator of the atomic sort keeps the order of two ids only if they are less than 2^31 apart, or just 2^31 with the smaller one first, and can run in a circle: `AtomicCommit.DifferenceOrder`, `AtomicCommit.CompareCircle`.
- The hash table iteration visits the first chain twice and never the last: `HashTables.VisitsOnceIff`, `HashTables.KeyZeroTwice`.
- Allocating a block of size 0 inside a hole splits it into two touching holes: `VaHoles.SubtractNothing`, `VaManager.VaMgr.ZeroSizeSplits`. Freeing a range at address 0 does nothing: `VaRanges.VaRangeManager.AllocThenFree`, `VaRanges.AddressZeroIsLost`.
- Deleting a command stream that has not been flushed leaves dangling cache entries and references: `CommandStreams.DeletedStream`, `CommandStreams.DeleteUnflushed`.
- The relocations of a command stream of more than 4 GiB need not have ascending offsets, as the kernel demands, because byte offsets wrap in 32 bits: `CommandStreams.SubmissionsAscend`, `CommandStreams.FarRelocsCollide`.
- The remainder left to the Gaussian can be below the coarse sigma the comment of `PlanBlur` speaks of: `BlurKernel.RemainderExact`, `BlurKernel.PlanBlur`, `BlurKernel.RemainderBelowCoarse`.
- The header comment of `xf86drmRandom.c` gives the period of the generator as 2^31 - 1; it is 2^31 - 2: `LehmerPeriod.PeriodExact`.

## Modelling choices

- Allocation failures, keyboards, xkb names, pipes, event sources, the random generator and the results of `read` and `write` are parameters, so that the theorems hold for all of them. A `write` script or `read` script lists what the kernel returns; when it ends, the call would block.
- Pixel and weight arithmetic is over exact reals, one colour channel of an opaque image; `exp` and `sqrt` are parameters with the properties used. Corner coverage is exact integer arithmetic in eighths of a pixel.
- Machine words are explicit where they matter: the generator wraps in words of at least 32 bits and the hash in 64, byte offsets in command streams wrap in 32, the atomic comparator truncates to 32 bits, and the allocator is proved for requests that do not overflow 64 bits.
- A stream's client references, the history of key events, what capture callbacks were told and which actions ran, and the bytes that arrived or were received are recorded as fields so that contracts can speak of them.
- Modifier masks are sets of the eight modifiers. Actions and capture callbacks do not call back into the manager.
- Keys on a keyboard without a keymap are ignored by the code and leave no entry in the history.

## Model

| member | source | states |
|---|---|---|
| `SkipLists.RandomLevel` | libs/libdrm/xf86drmSL.c:90-99 | the level is between 1 and 16 for every generator state |
| `SkipLists.SkipList.constructor` | libs/libdrm/xf86drmSL.c:101-116 | a new list is valid and empty |
| `SkipLists.SkipList.Locate` | libs/libdrm/xf86drmSL.c:138-153 | for any tower heights the search ends where a linear scan of level 0 would: it returns the first entry not below the key, and `update[i]` is the last entry below the key on level i |
| `SkipLists.SkipList.Insert` | libs/libdrm/xf86drmSL.c:155-186 | finite-map insert with its three return codes; the invariant (sorted levels, counts, level bound) survives any random level |
| `SkipLists.SkipList.Delete` | libs/libdrm/xf86drmSL.c:188-213 | finite-map delete with its return codes, including the level shrink |
| `SkipLists.SkipList.Shrink` | libs/libdrm/xf86drmSL.c:210-210 | after a delete the top level is non-empty again or the level is 0 |
| `SkipLists.SkipList.Lookup` | libs/libdrm/xf86drmSL.c:215-229 | finds exactly the keys of the map and hands back the entry, not its value |
| `SkipLists.SkipList.LookupNeighbors` | libs/libdrm/xf86drmSL.c:231-255 | the greatest key below and the least key at or above, with the head's key 0 when nothing is below |
| `SkipLists.SkipList.NextEntry` | libs/libdrm/xf86drmSL.c:257-274 | one step of the iteration along level 0 |
| `SkipLists.SkipList.FirstEntry` | libs/libdrm/xf86drmSL.c:276-284 | the iteration starts at the least key |
| `SkipLists.SkipList.Traverse` | libs/libdrm/xf86drmSL.c:257-284 | First and Next list the whole chain once |
| `SkipLists.SkipList.Run` | libs/libdrm/xf86drmSL.c:138-229 | every run of inserts, deletes and lookups returns what the finite map returns, for every generator state |
| `SkipLists.LevelsAreSortedLists` | libs/libdrm/xf86drmSL.c:138-213 | each level is a linked list of exactly the entries tall enough for it, in key order; levels above `level` are empty and those up to it are not |
| `SkipLists.ItemsAreTheMap` | libs/libdrm/xf86drmSL.c:257-284 | the listing is strictly ascending, as long as the map, and holds exactly its pairs |
| `SkipLists.MapSize` | libs/libdrm/xf86drmSL.c:184-184 | the count is the size of the map |
| `SkipLists.NeighborsAt` | libs/libdrm/xf86drmSL.c:231-255 | the neighbours of the search position are the order-theoretic neighbours in the map |
| `SkipLists.SpliceLinked` | libs/libdrm/xf86drmSL.c:178-182 | relinking one tower leaves every pointer of every level right |
| `SkipLists.DeleteLinked` | libs/libdrm/xf86drmSL.c:201-205 | unlinking one tower leaves every pointer of every level right |
| `SkipLists.IterationAfterDelete` | libs/libdrm/xf86drmSL.c:188-213 | the iteration position survives a delete if and only if it was not the deleted entry |
| `VaHoles.BlockInOneHole` | libs/libdrm/amdgpu/amdgpu_vamgr.c:100-165 | in a canonical hole list a free block lies in a single hole, so searching hole by hole misses nothing |
| `VaHoles.NeverTouching` | libs/libdrm/amdgpu/amdgpu_vamgr.c:167-221 | distinct holes neither overlap nor touch |
| `VaHoles.CanonicalUnique` | libs/libdrm/amdgpu/amdgpu_vamgr.c:72-221 | the hole list is determined by the set of free addresses |
| `VaHoles.SubtractCanonical` | libs/libdrm/amdgpu/amdgpu_vamgr.c:72-98 | taking a non-empty block out of a hole keeps the list canonical |
| `VaHoles.SubtractFree` | libs/libdrm/amdgpu/amdgpu_vamgr.c:72-98 | and removes exactly the addresses of the block |
| `VaHoles.SubtractNothing` | libs/libdrm/amdgpu/amdgpu_vamgr.c:72-98 | a block of size 0 keeps the list canonical if and only if it is not strictly inside the hole |
| `VaHoles.GiveBackCanonical` | libs/libdrm/amdgpu/amdgpu_vamgr.c:167-221 | giving a block back, with any of the four coalescing cases, keeps the list canonical |
| `VaHoles.GiveBackFree` | libs/libdrm/amdgpu/amdgpu_vamgr.c:167-221 | and frees exactly the addresses of the block |
| `VaHoles.TakePartition` | libs/libdrm/amdgpu/amdgpu_vamgr.c:72-98 | holes and live blocks still partition the range after a block is taken |
| `VaHoles.GiveBackPartition` | libs/libdrm/amdgpu/amdgpu_vamgr.c:167-221 | and after one is given back |
| `VaHoles.HolesDetermined` | libs/libdrm/amdgpu/amdgpu_vamgr.c:72-221 | the hole list is determined by the live blocks alone |
| `VaManager.AlignUpLeast` | libs/libdrm/amdgpu/amdgpu_vamgr.c:125-127 | rounding up gives the least aligned address |
| `VaManager.AlignDownGreatest` | libs/libdrm/amdgpu/amdgpu_vamgr.c:149-150 | rounding down gives the greatest |
| `VaManager.LowIsBest` | libs/libdrm/amdgpu/amdgpu_vamgr.c:117-137 | the first fit from the bottom is the least aligned address whose whole block is free |
| `VaManager.HighIsBest` | libs/libdrm/amdgpu/amdgpu_vamgr.c:138-160 | the first fit from the top is the greatest |
| `VaManager.NoCandidate` | libs/libdrm/amdgpu/amdgpu_vamgr.c:163-164 | if no hole fits, no aligned free block exists at all |
| `VaManager.VaMgr.constructor` | libs/libdrm/amdgpu/amdgpu_vamgr.c:44-60 | a new manager has one hole, or none for an empty range, and no live block |
| `VaManager.VaMgr.SubtractHole` | libs/libdrm/amdgpu/amdgpu_vamgr.c:72-98 | the mutated list is the specified one; a missing node changes nothing |
| `VaManager.VaMgr.FindVa` | libs/libdrm/amdgpu/amdgpu_vamgr.c:100-165 | optimal and complete search with its error codes; success adds one live block and the partition invariant is kept; a request of size 0 picks a hole, takes nothing and may still split it |
| `VaManager.VaMgr.FreeVa` | libs/libdrm/amdgpu/amdgpu_vamgr.c:167-221 | gives a live block back; it stays reserved exactly when there is no memory for a node and neither neighbouring address is free |
| `VaManager.VaMgr.NeighboursFree` | libs/libdrm/amdgpu/amdgpu_vamgr.c:185-207 | a block joins a hole exactly when the address next to it is free |
| `VaManager.VaMgr.AllocThenFree` | libs/libdrm/amdgpu/amdgpu_vamgr.c:100-221 | freeing what was just allocated restores the hole list exactly |
| `VaManager.VaMgr.ZeroSizeSplits` | libs/libdrm/amdgpu/amdgpu_vamgr.c:72-136 | a concrete request of size 0 that leaves two touching holes |
| `VaManager.VaMgr.Run` | libs/libdrm/amdgpu/amdgpu_vamgr.c:72-221 | in every run of allocations and frees, with any memory failures, holes and the live blocks of a reference partition the range, and every search reports the best place among what the live blocks leave |
| `VaRanges.VaRangeManager.Alloc` | libs/libdrm/amdgpu/amdgpu_vamgr.c:238-300 | the manager chosen by the flags, or the 32-bit one when that search failed, gains the block its search found; all others are untouched; a failure leaves everything as it was, unless there is no memory for handle and hole and no free address next to the block, which is then lost |
| `VaRanges.VaRangeManager.Free` | libs/libdrm/amdgpu/amdgpu_vamgr.c:302-312 | gives the block of a handle back, or keeps it reserved exactly when there is no memory for its hole and no free address next to it; a handle at address 0 is ignored |
| `VaRanges.VaRangeManager.AllocThenFree` | libs/libdrm/amdgpu/amdgpu_vamgr.c:238-312 | the round trip restores every hole list if and only if the address handed out was not 0, so always when every manager starts above 0 |
| `VaRanges.VaRangeManager.SameLiveSameHoles` | libs/libdrm/amdgpu/amdgpu_vamgr.c:72-221 | equal live sets mean equal hole lists |
| `VaRanges.AddressZeroIsLost` | libs/libdrm/amdgpu/amdgpu_vamgr.c:302-312 | a concrete manager that hands out address 0 and does not get it back |
| `AtomicCommit.ApplyIsLastWriter` | libs/libdrm/xf86drmMode.c:1460-1491 | applying a log in order gives each property its last written value |
| `AtomicCommit.DifferenceOrder` | libs/libdrm/xf86drmMode.c:1503-1514 | the sign of the 32-bit difference orders two ids if and only if they are less than 2^31 apart, or 2^31 apart with the smaller one first |
| `AtomicCommit.CompareIsOrder` | libs/libdrm/xf86drmMode.c:1503-1514 | for ids below 2^31 the comparator is the lexicographic order |
| `AtomicCommit.CompareCircle` | libs/libdrm/xf86drmMode.c:1503-1514 | beyond that it is no order: three ids that go round in a circle |
| `AtomicCommit.SortIsSort` | libs/libdrm/xf86drmMode.c:1542-1544 | a sorted permutation exists |
| `AtomicCommit.SortUnique` | libs/libdrm/xf86drmMode.c:1542-1544 | and is unique, so it does not matter how `qsort` works |
| `AtomicCommit.SortedMeaning` | libs/libdrm/xf86drmMode.c:1542-1544 | any sorted permutation of the items keeps their meaning, for all 32-bit ids |
| `AtomicCommit.SameWritesSameMeaning` | libs/libdrm/xf86drmMode.c:1503-1544 | any permutation that keeps the order per property has the same meaning |
| `AtomicCommit.ThinMeaning` | libs/libdrm/xf86drmMode.c:1546-1563 | the duplicate removal keeps the meaning for runs of any length |
| `AtomicCommit.ThinHalvesRuns` | libs/libdrm/xf86drmMode.c:1546-1563 | a run of n duplicates shrinks to (n + 1) / 2 |
| `AtomicCommit.DuplicatesLeft` | libs/libdrm/xf86drmMode.c:1542-1563 | of n recorded writes to a property (n + 1) / 2 are submitted: no duplicate remains if and only if no property was set more than twice |
| `AtomicCommit.ThreeWrites` | libs/libdrm/xf86drmMode.c:1546-1563 | a concrete log of three writes to one property of which two are submitted |
| `AtomicCommit.SortedIsGrouped` | libs/libdrm/xf86drmMode.c:1503-1544 | equal keys are adjacent after the sort |
| `AtomicRequest.RemoveOverwritten` | libs/libdrm/xf86drmMode.c:1546-1563 | the in-place loop computes the thinned list, and the object count it keeps while the array shrinks is the number of object groups left |
| `AtomicRequest.Flatten` | libs/libdrm/xf86drmMode.c:1592-1603 | the four arrays encode the list: group counts sum to its length and reading them back gives its writes in order |
| `AtomicRequest.RenumberKeepsWrites` | libs/libdrm/xf86drmMode.c:1565-1566 | renumbering changes neither writes nor groups |
| `AtomicRequest.AtomicReq.constructor` | libs/libdrm/xf86drmMode.c:1369-1382 | a new request is empty |
| `AtomicRequest.AtomicReq.AddProperty` | libs/libdrm/xf86drmMode.c:1460-1491 | appends one item whose cursor is its position, or fails and leaves the recording alone |
| `AtomicRequest.AtomicReq.SetCursor` | libs/libdrm/xf86drmMode.c:1454-1458 | sets the cursor; within the recording this rolls it back to a prefix |
| `AtomicRequest.AtomicReq.Duplicate` | libs/libdrm/xf86drmMode.c:1384-1411 | an independent copy with the same recording |
| `AtomicRequest.AtomicReq.Merge` | libs/libdrm/xf86drmMode.c:1413-1445 | appends the other recording with cursors renumbered, or fails and changes nothing |
| `AtomicRequest.AtomicReq.Commit` | libs/libdrm/xf86drmMode.c:1516-1603 | for all ids, what is submitted applies to the same settings as the request's items in insertion order; for ids below 2^31 it does not depend on how `qsort` works |
| `AtomicRequest.CommitMeaning` | libs/libdrm/xf86drmMode.c:1516-1603 | sorting and thinning together keep last-writer-wins, whatever sorted order `qsort` leaves |
| `AtomicRequest.MergeOverrides` | libs/libdrm/xf86drmMode.c:1413-1445 | after a merge the augmenting request overrides the base |
| `CommandStreams.Grow` | libs/libdrm/etnaviv/etnaviv_cmd_stream.c:34-45 | the new capacity holds one more row and never shrinks |
| `CommandStreams.CacheAgrees` | libs/libdrm/etnaviv/etnaviv_cmd_stream.c:153-155 | the cached index is what a linear search of the stream's table gives |
| `CommandStreams.UnreferencedIsUncached` | libs/libdrm/etnaviv/etnaviv_cmd_stream.c:213-218 | a buffer nobody references is in no table and in no cache |
| `CommandStreams.AppendBo` | libs/libdrm/etnaviv/etnaviv_cmd_stream.c:128-142 | both tables get the same row and the buffer one reference |
| `CommandStreams.Bo2Idx` | libs/libdrm/etnaviv/etnaviv_cmd_stream.c:144-175 | fast and slow path return the row of the buffer, added once if it was missing; only flags asked for are added, to that row alone |
| `CommandStreams.Emit` | libs/libdrm/etnaviv/etnaviv_cmd_stream.c:262-262 | one more word, and every stream stays valid |
| `CommandStreams.Relocate` | libs/libdrm/etnaviv/etnaviv_cmd_stream.c:247-263 | the relocation names the row of its buffer and is placed at the current end of the stream |
| `CommandStreams.RelocKeepsGood` | libs/libdrm/etnaviv/etnaviv_cmd_stream.c:247-263 | relocations stay inside the stream, keep naming rows with the requested handles and, up to 4 GiB, stay strictly ascending |
| `CommandStreams.Perf` | libs/libdrm/etnaviv/etnaviv_cmd_stream.c:265-279 | the performance request names the row of its buffer |
| `CommandStreams.FlushConsistent` | libs/libdrm/etnaviv/etnaviv_cmd_stream.c:213-218 | a flush gives back one reference per row and clears the cache entry of every buffer in its table, also one set by another stream, and of no other buffer; every count and cache entry stays right |
| `CommandStreams.Flush` | libs/libdrm/etnaviv/etnaviv_cmd_stream.c:177-228 | the pending submission is handed over, exactly the buffers of the table lose one reference each and their cache entry, and the stream is empty again |
| `CommandStreams.ResetBuffer` | libs/libdrm/etnaviv/etnaviv_cmd_stream.c:109-121 | all tables are emptied |
| `CommandStreams.DeletedStream` | libs/libdrm/etnaviv/etnaviv_cmd_stream.c:99-107 | deleting a stream keeps caches and counts right if and only if its table is empty |
| `CommandStreams.DeleteUnflushed` | libs/libdrm/etnaviv/etnaviv_cmd_stream.c:99-107 | a concrete stream deleted before it was flushed, whose buffer keeps a reference and a dangling cache entry |
| `CommandStreams.OneRowPerHandle` | libs/libdrm/etnaviv/etnaviv_drm.h:146-149 | where handles identify buffers, each has one row |
| `CommandStreams.NewStream` | libs/libdrm/etnaviv/etnaviv_cmd_stream.c:58-97 | size 0 is refused, any other 32-bit size is rounded up to an even number of words, modulo 2^32 |
| `CommandStreams.OffsetsFit` | libs/libdrm/etnaviv/etnaviv_cmd_stream.c:259-259 | 32-bit byte offsets ascend with the words if and only if there are at most 2^30 of them |
| `CommandStreams.SubmissionsAscend` | libs/libdrm/etnaviv/etnaviv_cmd_stream.c:177-263 | every submission of a stream, in every run of commands, has ascending relocations if and only if the stream is at most 4 GiB |
| `CommandStreams.FarRelocsCollide` | libs/libdrm/etnaviv/etnaviv_cmd_stream.c:247-263 | for every larger stream, concrete commands that submit two relocations with the same offset |
| `CommandStreams.StreamsIndependent` | libs/libdrm/etnaviv/etnaviv_cmd_stream.c:144-228 | however streams are interleaved, each has the tables and submissions it would have if no other stream were used, although they share buffers and the index cached in them |
| `CommandStreams.RunAlone` | libs/libdrm/etnaviv/etnaviv_cmd_stream.c:144-228 | the same of the code with its cache: the pending and past submissions of a stream are those of a run without commands for other streams |
| `CommandStreams.FindAgrees` | libs/libdrm/etnaviv/etnaviv_cmd_stream.c:157-166 | searching the table of buffers finds the position of the buffer in the reference |
| `CommandStreams.Run` | libs/libdrm/etnaviv/etnaviv_cmd_stream.c:58-279 | every interleaving of commands on any number of streams yields exactly the tables, submissions and client references of a reference without a cache; caches and reference counts are right, also without the flushed streams that were deleted, and every submission names the right rows, with ascending offsets up to 4 GiB |
| `BlurKernel.ChainVarianceClosed` | src/render/blur_kernel.h:121-127 | the variances of the halvings and expansions add up to (4^n - 1) / 3 |
| `BlurKernel.PlanBlur` | src/render/blur_kernel.h:135-149 | the deepest level that leaves a sigma of 2, and a remainder with which the whole chain has exactly the requested variance; the remainder is at least the coarse sigma if and only if 3 sigma^2 >= 13 * 4^levels - 1 |
| `BlurKernel.RoomForChain` | src/render/blur_kernel.h:145-148 | the clamp to a non-negative variance never takes effect |
| `BlurKernel.CoarseRange` | src/render/blur_kernel.h:116-119 | below full resolution the remainder has a variance above 11/3, and below 16 unless the level limit was reached |
| `BlurKernel.RemainderExact` | src/render/blur_kernel.h:87-93 | the exact condition under which the remainder keeps to the coarse sigma, for every variance and number of levels |
| `BlurKernel.RemainderBelowCoarse` | src/render/blur_kernel.h:87-93 | with sigma 4 the remainder is smaller than the coarse sigma |
| `BlurKernel.FoldingExact` | src/render/blur_kernel.h:180-195 | for every signal and radius, bilinear fetches at the folded taps give the direct convolution with the normalised whole-pixel weights |
| `BlurKernel.TapsNormalised` | src/render/blur_kernel.h:162-195 | the weights sum to one |
| `BlurKernel.FoldedShape` | src/render/blur_kernel.h:151-160 | how many taps there are, each with positive weight and within the radius |
| `BlurKernel.SampleGaussian` | src/render/blur_kernel.h:172-178 | the weights are the samples of the bell and the total is their two-sided mass |
| `BlurKernel.BuildBlurTaps` | src/render/blur_kernel.h:164-196 | all of this for every sigma, with at most 33 taps |
| `BlurPass.AddSample` | src/render/vulkan_blur_pipeline.cc:347-374 | a drawn box blends the sampled source over exactly the pixels inside it |
| `BlurPass.SpanPosition` | src/render/vulkan_blur_pipeline.cc:385-432 | where each pixel of the content and edge boxes samples the source |
| `BlurPass.DrawShiftedSample` | src/render/vulkan_blur_pipeline.cc:330-433 | content and stretched edge cover every pixel of the image exactly once and no other pixel, for every shift and both directions |
| `BlurPass.OverBlend` | src/render/vulkan_blur_pipeline.cc:315-322 | drawing over with alpha = weight / accumulated weight keeps the canvas a weighted mean |
| `BlurPass.DrawTaps` | src/render/vulkan_blur_pipeline.cc:315-322 | after the last tap the canvas scaled by the accumulated weight is the sum of the taps |
| `BlurPass.DrawConvolution` | src/render/vulkan_blur_pipeline.cc:293-328 | the canvas is the weighted sum of its taps, whatever the sampler, and nothing outside the image changes |
| `BlurPass.PixelAgrees` | src/render/backdrop_blur_renderer.cc:67-90 | where a drawn sample is exact it equals the clamped sample of the shader on every line |
| `BlurPass.PixelDiffers` | src/render/vulkan_blur_pipeline.cc:385-432 | where it is not, an explicit line shows the difference |
| `BlurPass.BleedExample` | src/render/vulkan_blur_pipeline.cc:387-396 | a concrete line where a pixel differs by a quarter |
| `BlurPass.PassEqualsShader` | src/render/vulkan_blur_pipeline.cc:293-433 | at each pixel the pass draws what the shader computes for every image, if and only if no tap reads the inner half of its stretched edge (or beyond the image in a larger texture) there |
| `BlurPass.KernelPassExact` | src/render/vulkan_blur_pipeline.cc:293-433 | for Gaussian taps and any texture that holds the image, the pass draws what the shader computes at every pixel of every image if and only if the radius is one pixel or the image is one pixel long in that direction |
| `BlurPass.ConfinedAgrees` | src/render/vulkan_blur_pipeline.cc:338-345 | the filter reaching out of the edge box is the only cause: confined to the box, every pixel would agree |
| `RoundedCorners.CornerCoverage` | src/render/backdrop_blur_renderer.cc:95-106 | counts the samples of a pixel inside the circle, in sixteenths |
| `RoundedCorners.CornerMonotone` | src/render/backdrop_blur_renderer.cc:95-106 | coverage grows towards the inside of a row |
| `RoundedCorners.FullBeyond` | src/render/backdrop_blur_renderer.cc:565-568 | so after the first fully covered pixel all others are |
| `RoundedCorners.ScanSide` | src/render/backdrop_blur_renderer.cc:559-593 | the scan with its early exit sorts the pixels of one side by level and stops where full coverage begins |
| `RoundedCorners.ScanIsCoverage` | src/render/backdrop_blur_renderer.cc:553-557 | the level a scan assigns is the number of samples inside the rounded rectangle, defined geometrically |
| `RoundedCorners.BuildRow` | src/render/backdrop_blur_renderer.cc:552-600 | a whole row |
| `RoundedCorners.BuildRoundedRegions` | src/render/backdrop_blur_renderer.cc:547-610 | for every box and radii within half the smaller side, a pixel is in `partial[l - 1]` iff its coverage is l, opaque iff it is 16, and nowhere iff it is 0, within the clip |
| `RoundedCorners.OneRegionPerPixel` | src/render/backdrop_blur_renderer.cc:547-610 | every pixel of the box has exactly one coverage, between 0 and 16 |
| `RoundedCorners.RegionsDisjoint` | src/render/backdrop_blur_renderer.cc:547-610 | regions sorted by coverage are pairwise disjoint and together hold exactly the covered pixels inside the clip |
| `RoundedCorners.BuildDisjoint` | src/render/backdrop_blur_renderer.cc:547-610 | the builder, started on empty regions, gives such regions |
| `RoundedCorners.ScaledRadius` | src/render/backdrop_blur_renderer.cc:542-543 | a scaled radius is the nearest pixel count within the limits |
| `RoundedCorners.ScaledRadii` | src/render/backdrop_blur_renderer.cc:529-545 | the radii handed to the builder always fit |
| `Shortcuts.TrimStrips` | src/input/key_binding_manager.cc:39-49 | the white space at both ends is removed and nothing else |
| `Shortcuts.ParseShortcut` | src/input/key_binding_manager.cc:316-371 | the parser computes the declared meaning: each modifier at most once, exactly one known key, no plus sign at the end, and only `:no` as suffix |
| `Shortcuts.KeyOfMeaning` | src/input/key_binding_manager.cc:351-361 | the keysym is that of the one piece naming a key |
| `Shortcuts.DoublingPlus` | src/input/key_binding_manager.cc:338-344 | doubling any plus sign of any string changes nothing |
| `Shortcuts.PermutingParts` | src/input/key_binding_manager.cc:332-370 | the parts may come in any order, with any spacing and suffix |
| `Shortcuts.BuildShortcut` | src/input/key_binding_manager.cc:393-431 | prints the modifiers in table order and then the key, joined by plus signs; nothing for a key without a name |
| `Shortcuts.TablesAgree` | src/input/key_binding_manager.cc:399-408 | every printed modifier name is read back as that modifier |
| `Shortcuts.RoundTrip` | src/input/key_binding_manager.cc:316-431 | parsing what was printed gives back modifiers and lowered keysym, if and only if the key's name is not a modifier's name; otherwise it is refused |
| `Shortcuts.StandardRoundTrip` | src/input/key_binding_manager.cc:60-90 | the same for the two tables of the source |
| `Shortcuts.LevelShiftRefused` | src/input/key_binding_manager.cc:82-82 | the level-3 shift key is printed as a shortcut the parser refuses |
| `KeyBindings.ModifiersMatch` | src/input/key_binding_manager.cc:471-475 | all required modifiers are active and only locks may be active besides |
| `KeyBindings.PairedWithoutGrabs` | src/input/key_binding_manager.cc:230-314 | without grabs a release is swallowed exactly when the most recent press of the key since its last release was |
| `KeyBindings.PairedExactly` | src/input/key_binding_manager.cc:230-314 | with grabs a free release keeps to its press if and only if the key was not pressed during a grab, unless a binding already held it |
| `KeyBindings.Manager.constructor` | src/input/key_binding_manager.h:122-131 | a new manager holds nothing |
| `KeyBindings.Manager.Register` | src/input/key_binding_manager.cc:94-121 | refused exactly for a bad shortcut, a missing action, an unknown type or a shortcut already bound; ids and shortcuts stay unique |
| `KeyBindings.Manager.Update` | src/input/key_binding_manager.cc:123-148 | changes the shortcut of exactly one binding, if and only if the shortcut is good, the binding exists and no other has it |
| `KeyBindings.Manager.Unregister` | src/input/key_binding_manager.cc:150-155 | removes exactly the binding with the id |
| `KeyBindings.Manager.GrabNextKey` | src/input/key_binding_manager.cc:192-197 | starts a grab with nothing captured |
| `KeyBindings.Manager.CancelGrab` | src/input/key_binding_manager.cc:199-204 | ends it |
| `KeyBindings.Manager.BlockAll` | src/input/key_binding_manager.cc:210-216 | blocks nest and an unblock too many is ignored |
| `KeyBindings.Manager.BlockType` | src/input/key_binding_manager.cc:218-228 | the same for one type, unknown types are ignored |
| `KeyBindings.Manager.HandleCapturedKey` | src/input/key_binding_manager.cc:433-469 | exactly the first capturable key is told when pressed, its release is told as the same shortcut and ends the grab |
| `KeyBindings.Manager.Repeat` | src/input/key_binding_manager.cc:259-269 | a held key repeats its binding unless that is inhibited, blocked or not to repeat |
| `KeyBindings.Manager.FindMatch` | src/input/key_binding_manager.cc:274-293 | the first binding for the first keysym that has one |
| `KeyBindings.Manager.HandleKey` | src/input/key_binding_manager.cc:230-305 | when a press or release is swallowed, which binding a press starts or repeats, and that an action runs only for a press while nothing inhibits, blocks or grabs |
| `KeyBindings.Manager.ForgetKeyboard` | src/input/key_binding_manager.cc:307-314 | the keys of the keyboard are no longer held and its grab is over; no keyboard ends a grab that has captured nothing |
| `KeyBindings.Run` | src/input/key_binding_manager.cc:94-314 | every interleaving of calls swallows the same events, runs the same actions and tells capture callbacks the same as a reference that keeps no list of held keys but only what happened |
| `KeyBindings.ReleaseFollowsPress` | src/input/key_binding_manager.cc:230-305 | in every run without grabs a release is swallowed if and only if the press it ends was |
| `KeyBindings.ReleaseKeepsToPress` | src/input/key_binding_manager.cc:230-314 | in every run, a release outside a grab keeps to the press it ends if and only if that press was not made during a grab or an earlier press still held the key |
| `KeyBindings.ReleaseSwallowed` | src/input/key_binding_manager.cc:236-248 | a release outside a grab is swallowed if and only if some press of the key was taken by a binding and not released or forgotten since |
| `KeyBindings.GrabSwallows` | src/input/key_binding_manager.cc:433-469 | in every run, every press and release during a grab is swallowed |
| `KeyBindings.OnlyPressesRun` | src/input/key_binding_manager.cc:259-299 | an action runs only for a press that nothing inhibits, blocks or captures, and is that of a binding whose type is not blocked |
| `KeyBindings.FreshPressRuns` | src/input/key_binding_manager.cc:271-299 | a press of a key that is not held is swallowed, outside grabs, if and only if it runs a binding |
| `KeyBindings.GrabBreaksPairing` | src/input/key_binding_manager.cc:433-469 | a concrete run where a modifier pressed in a grab is released unswallowed after it |
| `SelectionPersist.FaithfulCopy` | src/input/selection_persist.cc:143-170 | for one entry: however the owner's bytes are cut up, interrupted and delayed, at end of file the copy is exactly those bytes if and only if they fit under what the limit leaves |
| `SelectionPersist.InterleavedCopy` | src/input/selection_persist.cc:143-170 | for any number of entries read in any interleaving: each ends up exact or failed, and all are exact if and only if all bytes together fit under the limit |
| `SelectionPersist.FlushedInOrder` | src/input/selection_persist.cc:107-122 | under every schedule of partial writes and interruptions the reader has received exactly the data up to the offset, and on a healthy pipe it is done exactly when it has all of it |
| `SelectionPersist.FlushWriter` | src/input/selection_persist.cc:107-122 | the loop does what that specification says for every schedule |
| `SelectionPersist.Selection.constructor` | src/input/selection_persist.cc:231-274 | entries start empty and reading |
| `SelectionPersist.Selection.Drain` | src/input/selection_persist.cc:143-170 | reads until the owner makes it wait or the entry is finished; only this entry and the total change |
| `SelectionPersist.Selection.DestroyWriter` | src/input/selection_persist.cc:98-105 | one descriptor is closed and its writer gone |
| `SelectionPersist.Selection.OnWritable` | src/input/selection_persist.cc:124-130 | one reader is sent what its pipe takes, and its pipe is closed exactly when it is done or hung up |
| `SelectionPersist.Selection.SendSelection` | src/input/selection_persist.cc:184-210 | every descriptor is closed on the spot or held by one new writer |
| `SelectionPersist.Selection.RemoveEntry` | src/input/selection_persist.cc:177-182 | the writers of an entry are closed before it is dropped |
| `SelectionPersist.Selection.DestroySelection` | src/input/selection_persist.cc:212-224 | in the end every descriptor given was closed exactly once |
| `SelectionPersist.Selection.DrainAll` | src/input/selection_persist.cc:335-338 | every entry is woken once, in order, sharing one total |
| `SelectionPersist.Selection.KeepFinished` | src/input/selection_persist.cc:339-343 | exactly the complete, successful and non-empty entries are kept |
| `SelectionPersist.Selection.Install` | src/input/selection_persist.cc:327-367 | what is installed is exactly the entries that were read to the end; with none, the selection is destroyed |
| `SelectionPersist.Step` | src/input/selection_persist.cc:98-367 | one event leads to the next state of the reference |
| `SelectionPersist.InstalledStays` | src/input/selection_persist.cc:98-367 | from installation to destruction, through every run of events, the selection offers the same mime types with the same data |
| `SelectionPersist.RunFollows` | src/input/selection_persist.cc:143-175 | in every run, while the owner is there, entries and total are those of the reads in their order, whatever requests and writes come between |
| `SelectionPersist.InstalledIsSent` | src/input/selection_persist.cc:98-367 | in every run, at every moment, each copy offered is exactly the bytes its owner sent for that mime type up to the end of file |
| `SelectionPersist.AllIsInstalled` | src/input/selection_persist.cc:327-367 | and if every pipe ran to its end and all bytes fit under the limit, everything that was sent is installed |
| `SelectionPersist.Run` | src/input/selection_persist.cc:98-367 | under every schedule of events the entries, the total and what closed readers had received are those of the reference; the total stays within 64 MiB, open and closed readers have received prefixes, every descriptor given was closed once or is held by one writer, and what is offered is exactly what the owner sent up to the end of file |
| `SelectionPersist.RunToEnd` | src/input/selection_persist.cc:98-367 | after the final destruction the closed descriptors are exactly those of the requests made while the selection was alive, each closed once |
| `HashTables.BuildScatter` | libs/libdrm/xf86drmHash.c:84-94 | the scatter table is the first 256 outputs from seed 37 |
| `HashTables.HashHash` | libs/libdrm/xf86drmHash.c:80-103 | the chain number of a key |
| `HashTables.WrapIsHarmless` | libs/libdrm/xf86drmHash.c:96-101 | word wrap-around does not change the chain: it is that of the unbounded polynomial |
| `HashTables.HashTable.constructor` | libs/libdrm/xf86drmHash.c:105-114 | a new table is empty |
| `HashTables.HashTable.HashFind` | libs/libdrm/xf86drmHash.c:136-165 | finds exactly the keys of the map, leaves the found bucket at the head of its chain, keeps every chain ordered by most recent touch, and counts a hit at the head, a partial behind it and a miss otherwise |
| `HashTables.HashTable.Lookup` | libs/libdrm/xf86drmHash.c:167-178 | map lookup with its return codes; a key that is found is touched, and nothing else |
| `HashTables.HashTable.Insert` | libs/libdrm/xf86drmHash.c:180-197 | map insert with its return codes, including failed allocation; a key that is found or added is touched, and nothing else |
| `HashTables.HashTable.Delete` | libs/libdrm/xf86drmHash.c:199-214 | map delete: unlinking the head removes the right entry; only the key itself is touched |
| `HashTables.HashTable.NextEntry` | libs/libdrm/xf86drmHash.c:216-231 | one step of the iteration over what is left to visit |
| `HashTables.HashTable.Traverse` | libs/libdrm/xf86drmHash.c:216-242 | what First and Next list |
| `HashTables.HashTable.Run` | libs/libdrm/xf86drmHash.c:139-214 | every run of operations returns what the map returns, and touches exactly the keys that are found or added, in order |
| `HashTables.TouchIsLastUse` | libs/libdrm/xf86drmHash.c:136-214 | over every run from an empty table, of two keys in it the one touched later is the one named later by an operation |
| `HashTables.RunFromEmpty` | libs/libdrm/xf86drmHash.c:136-214 | after every run on a new table each chain lists exactly the keys of the map that hash to it, the most recently used first |
| `HashTables.VisitsOnceIff` | libs/libdrm/xf86drmHash.c:216-242 | the iteration visits every entry once if and only if the first and the last chain are empty |
| `HashTables.VisitedTwice` | libs/libdrm/xf86drmHash.c:239-241 | entries of the first chain are visited twice |
| `HashTables.NeverVisited` | libs/libdrm/xf86drmHash.c:220-230 | entries of the last chain are never visited |
| `HashTables.KeyZeroTwice` | libs/libdrm/xf86drmHash.c:216-242 | a table holding only key 0 lists it twice |
| `LehmerRandom.RandomState.constructor` | libs/libdrm/xf86drmRandom.c:83-111 | illegal seeds are replaced by the closest legal one |
| `LehmerRandom.RandomState.Random` | libs/libdrm/xf86drmRandom.c:119-131 | with wrap-around in words of 32 bits or more the step is exactly 48271 * seed mod 2^31 - 1 |
| `LehmerRandom.SchrageExact` | libs/libdrm/xf86drmRandom.c:125-128 | Schrage's formula without wrap-around |
| `LehmerRandom.NextInRange` | libs/libdrm/xf86drmRandom.c:119-131 | the state stays between 1 and m - 1 |
| `LehmerRandom.NextInjective` | libs/libdrm/xf86drmRandom.c:119-131 | the step is injective |
| `LehmerPeriod.IterateIsPower` | libs/libdrm/xf86drmRandom.c:119-131 | the n-th output is 48271^n * seed mod m |
| `LehmerPeriod.CheckConstant` | libs/libdrm/xf86drmRandom.c:99-99 | the 10000th output from seed 1 is 399268537 |
| `LehmerPeriod.OrderExact` | libs/libdrm/xf86drmRandom.c:96-98 | 48271 has order exactly 2^31 - 2 modulo 2^31 - 1 |
| `LehmerPeriod.PeriodExact` | libs/libdrm/xf86drmRandom.c:119-131 | from every legal seed the state returns exactly at the multiples of 2^31 - 2 |
| `LehmerPeriod.EveryValueProduced` | libs/libdrm/xf86drmRandom.c:119-131 | and every legal value comes up within one period |

## Left out

- Destruction of lists, tables and generators, debug dumps and magic numbers of single entries: they only free memory.
- Mutexes: each operation is modelled as one step.
- `amdgpu_va_manager_init2` and the query functions: fixed arithmetic on device constants.
- `drmModeAtomicGetCursor`, `drmModeAtomicFree` and everything after the ioctl of a commit.
- What a request does once its cursor was set beyond the recording: it would read unwritten memory.
- AtomicRequest.AtomicReq.Commit: says nothing where the comparator runs in a circle on the recorded ids, because `qsort` then promises nothing, or for more than 2^31 items.
- VaManager.VaMgr.FindVa: leaves out requests whose 64-bit sums wrap around.
- VaRanges.VaRangeManager.Alloc: leaves out requests of size 0, whose effect is stated for FindVa, and those whose 64-bit sums wrap around.
- The contents of the command buffer, fences, timestamps and the reset callback of command streams; the flags, domain and signal of performance requests.
- The size and latency side of the buffer cache that takes unreferenced buffers; only its safety is stated.
- `SigmaForBlurOffset`, the resampling blits between levels, the target cache, gamma encoding, float rounding and translucent sources.
- How the rounded regions are drawn afterwards, and overflow of squared radii beyond 46340 pixels.
- Descriptions and listing of key bindings, type names, and modifier bits beyond the eight named ones.
- Truncation of keysym names to 63 characters: the name is whatever the keysym library yields.
- The set-up of pipes and the ignored X11 mime types when a selection is created, and the closing of the read ends of those pipes.
- Seat events, event-loop registration and replacement of one selection by the next.
- `drmRandomDouble`.
