# Dafny model of the LRU cache engines

This project models a weighted LRU cache with three interchangeable engines (a map engine, a pointer
radix trie and an arena radix trie), sharding, pressure-driven shedding, lock-free publication of
pressure samples, and serialized delivery of eviction callbacks. It proves what these promise:

* **Three engines, one specification.** `Engines` defines the recency-list specification (`Next`,
  `Reply`) and shows that the map, pointer and arena engines answer every sequence of operations as
  it does, for every hash function: same results, same notices to the eviction callbacks (key, value and
  reason) in the same order, same recency order, and counters that tell the notices of each reason and the
  operations of each kind (`Reasons`). `Conservation` shows over every run that each stored value is still
  held or was reported exactly once, `Notices` which entries are reported under which reason, and
  `Recency` that the list is in the order of the last uses and holds what was last written. `LruPolicy`,
  `PutOutcomes` and `ShedOutcomes` say on the list alone what Put, Replace and shedding leave; `MapCache`
  and `TrieCache` carry the bound of 2*maxSize entries and the conservation of entries and weights in their
  invariants. `Sharding` divides the capacity among shards of any engine.
* **The compressed trie.** `RadixTrie`, `TrieContents`, `ArenaTrie`: insert, erase with upward
  compression and DeletePrefix refine a finite map from byte strings. `TrieKeys` reads keys back from
  the nodes. `TrieOrder` and `TrieSweep` hold the argument for the stackless sweep and its 512-byte key
  buffer. `TrieShape` shows that the shape is a function of the contents. `Renumbering` and `RecencyList`
  cover compaction and the intrusive list.
* **The arena.** `Spans`, `LabelSpace`, `LabelArena`: the byte-span allocator for edge labels keeps
  labels, free spans and the hand-off span disjoint, and no operation changes a text it is not about.
  `LabelRuns` shows that bytes handed out as zero-copy strings are never overwritten over any run.
  `TrieLabels` lists the edits each trie operation makes to the edges, and `LabelledTrie` is the trie that
  keeps its edges in the allocator: over every operation the allocator spells exactly the edges.
* **The hash index.** `ProbeTable` and `NodeIndex`: open addressing with back-shift deletion, collision
  peers, the 21-bit-tag fast delete, rebuilding and renumbering. A probe that verifies keys on the nodes
  agrees with the trie walk.
* **Two concurrent protocols.** `EvictCallbacks` (steps), `EvictCallbacksSafety` (invariant),
  `EvictCallbacksRuns` (theorems), `EvictCallbacksEnds` (every call ends, under any schedule) and
  `EvictCallbacksOrder` (order of delivery) model the callback hold and pending queue as interleaved atomic
  steps of goroutines with nested calls; `Seqlock` does so for publishing, invalidating, reclaiming and
  reading pressure samples, and `SeqlockAlone` says what each writer and reader does undisturbed.
* **Prefix helpers.** `PrefixCompare` and `DigitTables`.

Conventions: a value is opaque; the hash is an arbitrary function parameter; the weight of an entry is
given with the operation; a pressure sample above the eviction threshold is an optional parameter that
carries the target, the products of the retention ratio (any numbers) and the two watermarks. Capacities
and totals of weights are 64-bit unsigned numbers (`U64`), so that the absence of overflow is proved at
every assignment. A notice carries the key where an entry callback is registered. Node ids
are indices into a sequence, `NIL` is -1; a ghost map gives the string each live node spells.
Verify with `dafny verify dfyconfig.toml`.

## Model

| member | source | states |
|---|---|---|
| `EvictCallbacksRuns.ExactlyOnce` | pressure.go:5252-5318 | in every reachable state of every interleaving the delivered events are a sub-multiset of the submitted ones, and once every call has returned they are equal: each event is delivered exactly once |
| `EvictCallbacksRuns.NothingStranded` | pressure.go:5076-5107 | whenever the pending queue or its flag is set, some activation holds the callback mutex and has not yet looked at the queue for the last time; so a free mutex means an empty queue |
| `EvictCallbacksRuns.Serialized` | pressure.go:4856-4880 | two activations that are both inside user callbacks are the same activation |
| `EvictCallbacksRuns.NoSelfDeadlock` | pressure.go:4828-4880 | a re-entrant call from a callback never blocks on the mutex its own goroutine holds |
| `EvictCallbacksRuns.Progress` | pressure.go:4961-5039 | while any call is unfinished, some activation can take a step or the tag lease can be given back: no deadlock |
| `EvictCallbacksEnds.EveryRunEnds` | pressure.go:5302-5340 | every run without new calls, under any schedule and any answers of TryLock and the stack searches, reaches a state in which all calls have returned and exactly the submitted events have been delivered |
| `EvictCallbacksEnds.CanEnd` | pressure.go:5302-5340 | from every reachable state some run without new calls brings all calls to their end with every event delivered |
| `EvictCallbacksEnds.StepsDown` | pressure.go:5302-5318 | every step of every activation lowers the counts in lexicographic order: callers that may hand over or take the mutex, the pending flag, possible second holds, the work of the holder, the work of the callers |
| `EvictCallbacksOrder.InOrder` | options.go:349-352 | in every reachable state the deliveries of one call are in the order of its batch, none repeated, also when they were handed to the holder |
| `EvictCallbacksRuns.ReachableInv` | pressure.go:4961-5039 | the protocol invariant and the conservation law hold in every reachable state |
| `EvictCallbacksRuns.ActionKeeps` | pressure.go:5252-5289 | every atomic action of every activation, nested call, return and lease change keeps invariant and conservation |
| `EvictCallbacksRuns.MoveConserves` | pressure.go:5076-5107 | one step moves events between an activation, the queue and the delivered ones without losing or copying any |
| `EvictCallbacksSafety.StepShared` | pressure.go:4987-5039 | each step keeps what holds of the hold sequence, the contended flag, the registered holder and the pending flag at each point of the holder's program |
| `EvictCallbacksSafety.StepOwn` | pressure.go:4828-4902 | each step re-establishes what the moving activation may rely on at its next point |
| `EvictCallbacksSafety.StepOther` | pressure.go:5160-5169 | each step keeps what every other activation relies on; this is the handshake between enqueuers and the fast unlock |
| `ProbeTable.Backshift` | arena_radix.go:894-914 | back-shift deletion removes exactly the entry of one slot, keeps every other entry reachable from its home with no empty slot between, and terminates on the cyclic table |
| `ProbeTable.NothingBehindEmpty` | arena_radix.go:769-792 | an entry is always met before the first empty slot when probing from its home |
| `ProbeTable.FreeSlotFor` | arena_radix.go:861-874 | the probe loop ends at an empty slot with no empty slot before it on the chain |
| `ProbeTable.Place` | arena_radix.go:861-874 | inserting one entry keeps all probe chains and adds exactly that entry |
| `ProbeTable.Rehash` | arena_radix.go:876-892 | rehashing into any capacity that satisfies the 80% rule keeps exactly the (renumbered) entries, all reachable |
| `ProbeTable.EmptySlotExists` | arena_radix.go:751-757 | the 80% load rule leaves an empty slot, so every probe loop ends |
| `NodeIndex.CountsAddUp` | arena_radix.go:1390-1417 | occupied slots plus collision peers count every live node exactly once |
| `NodeIndex.HomeOfTag21` | arena_radix.go:1635-1656 | with at most 2^21 slots the stored 21-bit tag determines the home position |
| `NodeIndex.Index.Total` | arena_radix.go:1359-1386 | hashCount + collisionCount equals the number of live nodes in every valid state |
| `NodeIndex.Index.LookupAt` | arena_radix.go:769-792 | a verified hit is the slot of the node that spells the key; otherwise no slot spells it, and `matched` tells exactly whether a slot has the key's 64-bit hash |
| `NodeIndex.Index.Probe` | arena_radix.go:1324-1417 | the accelerated lookup, which verifies keys on the nodes: a hit is the live node that spells the key, a guaranteed miss means no live node does, and the miss is guaranteed exactly when no slot has the hash; for every hash function |
| `NodeIndex.Index.PresentHash` | arena_radix_lru.go:355-380 | the hash of every live node has a slot |
| `NodeIndex.Index.AbsentKey` | arena_radix.go:1419-1447 | a hash without a slot belongs to no live key |
| `NodeIndex.Index.InsertNew` | arena_radix.go:861-874 | a node with a new hash gets its own slot and nothing else changes |
| `NodeIndex.Index.Displace` | arena_radix.go:2123-2147 | the node takes over the slot of its hash and the former node becomes a peer; the indexed keys change by that node only |
| `NodeIndex.Index.Promote` | arena_radix.go:2119-2176 | a live or just inserted node ends up in the slot of its hash |
| `NodeIndex.Index.RemovePeer` | arena_radix.go:2209-2230 | a collision peer leaves and every other node stays indexed |
| `NodeIndex.Index.PopPeer` | arena_radix.go:2178-2207 | the last usable peer of a hash is found, skipping stale ones, with the saturating count |
| `NodeIndex.Index.LastUsable` | arena_radix.go:2178-2207 | under the invariant the last peer is always usable, so no live peer is ever dropped |
| `NodeIndex.Index.RemoveAt` | arena_radix.go:2232-2245 | the node of a slot leaves; a peer is promoted or the slot is deleted, and exactly that node is gone |
| `NodeIndex.Index.Remove` | arena_radix.go:2247-2273 | exactly the given node leaves the index |
| `NodeIndex.Index.FastProbeHits` | arena_radix.go:1635-1656 | without peers the fast probe meets the node's own slot, with the same 21-bit tag, before any empty slot |
| `NodeIndex.Index.RemoveFast` | arena_radix.go:1635-1656 | the tag-only delete removes the same node as the full-hash delete, or, when no tag is stored, changes nothing |
| `NodeIndex.Index.Rebuild` | arena_radix.go:1832-1872 | rebuilding indexes all live nodes again |
| `NodeIndex.Index.Renumber` | arena_radix.go:1879-1919 | all branches of the index compaction yield a valid index of the same keys under the new numbers |
| `NodeIndex.RemapInPlace` | arena_radix.go:1879-1919 | the in-place branch renumbers every slot and keeps all probe chains |
| `RadixTrie.FindChild` | arena_radix.go:1134-1148 | the sorted sibling walk finds the child with the byte, or exactly the place where it belongs |
| `RadixTrie.Walk` | radix_lru.go:487-512 | the walk returns the node that holds the key, or no node holds it |
| `RadixTrie.PrefixAnc` | arena_radix_lru.go:163-182 | a live node whose path is a prefix of another's is its ancestor |
| `RadixTrie.PathsDiffer` | arena_radix.go:1285-1312 | different live nodes spell different strings |
| `RadixTrie.LeafLinked` | arena_radix.go:1151-1160 | linking a leaf at its place keeps links, paths and sibling order |
| `RadixTrie.SplitLinked` | arena_radix.go:1195-1260 | cutting an edge keeps links, paths and sibling order |
| `RadixTrie.CutLinked` | arena_radix.go:1163-1175 | taking a subtree out keeps the rest well linked |
| `RadixTrie.MergeLinked` | arena_radix.go:1178-1192 | letting an only child replace its parent keeps everything else well linked |
| `TrieContents.EntryAt` | arena_radix.go:1285-1312 | a node has a value exactly when its path is a key of the contents, with that value |
| `TrieContents.ContentsWith` | arena_radix.go:1195-1260 | adding nodes with one new value changes the map at that key only |
| `TrieContents.ContentsWithout` | arena_radix.go:1510-1548 | removing nodes changes the map by the removed keys only |
| `ArenaTrie.Trie.Alloc` | arena_radix.go:1031-1051 | an id that is not live is handed out and no live node changes |
| `ArenaTrie.Trie.Release` | arena_radix.go:1054-1070 | the node is blanked and its id joins the free ids, which stay exactly the ids that are not live |
| `ArenaTrie.Trie.Insert` | arena_radix.go:1195-1260 | the trie's map changes at the inserted key only; existing nodes keep ids, paths and values; path compression is kept |
| `ArenaTrie.Trie.Divide` | radix_lru.go:428-484 | the split branch of the insertion |
| `ArenaTrie.Trie.CompressUp` | arena_radix.go:1510-1548 | upward pruning and merging restores compression, keeps the map, and keeps the ids of value nodes |
| `ArenaTrie.Trie.Erase` | arena_radix.go:1658-1674 | the erased key and no other leaves the map; other value nodes keep their ids |
| `ArenaTrie.Trie.Find` | radix_lru.go:487-512 | the walk agrees with the trie's map |
| `TrieKeys.FillKeyBuf` | arena_radix.go:933-945 | writing edges backwards succeeds exactly for the true key length, and then the buffer holds the key |
| `TrieKeys.VerifyKey` | arena_radix.go:1264-1283 | the check succeeds exactly for the node's own key, also past the saturated 17-bit length |
| `TrieKeys.ReconstructKey` | arena_radix.go:950-970 | reconstruction returns the key by both routes |
| `ArenaTrie.Trie.InitKeyBuf` | arena_radix_lru.go:1089-1095 | the buffer is seeded with the key exactly when it is not empty and fits into 512 bytes |
| `ArenaTrie.Trie.AppendKeyBuf` | arena_radix_lru.go:1099-1104 | the edge is copied exactly when it fits, and the position advances in any case |
| `ArenaTrie.Trie.FreeSubtree` | arena_radix_lru.go:1152-1207 | the stackless sweep terminates, reports every entry below the node once with its correct key and in lexicographic order, and frees every node once, after its descendants |
| `ArenaTrie.Trie.Retreat` | arena_radix_lru.go:1152-1207 | backtracking frees finished nodes and keeps the key buffer right when keys cross its limit |
| `ArenaTrie.Trie.Sever` | radix_lru.go:659-705 | the subtree below a child goes and the rest is untouched |
| `ArenaTrie.Trie.FindPart` | radix_lru.go:1123-1154 | the descent ends at the node below which exactly the keys with the prefix lie, or no key has the prefix |
| `ArenaTrie.Trie.DeletePrefix` | arena_radix_lru.go:967-1005 | exactly the entries whose key starts with the prefix leave; each is reported once |
| `ArenaTrie.Trie.NumberLive` | arena_radix.go:1947-2008 | the live nodes get dense new numbers |
| `ArenaTrie.Trie.Compact` | arena_radix.go:1947-2008 | renumbering yields a well-formed trie with no free ids and the same map |
| `TrieOrder.ToFirstChild` | arena_radix_lru.go:1152-1207 | stepping to the first child visits exactly one more node in lexicographic order |
| `TrieOrder.ToNextSibling` | arena_radix_lru.go:1152-1207 | stepping to a sibling passes exactly the nodes of the finished subtree |
| `TrieOrder.ToParent` | arena_radix_lru.go:1152-1207 | stepping to the parent passes no further node |
| `TrieShape.Canonical` | arena_radix_lru.go:184-230 | two well-formed tries with the same contents are equal up to the numbering of nodes |
| `TrieShape.NodeInShape` | radix_lru.go:265-285 | every node of a compressed trie is the root, a key, or a point where two keys part |
| `TrieShape.ShapeNode` | radix_lru.go:265-285 | every such string has a node |
| `TrieShape.EntryBelow` | radix_lru.go:265-285 | every node other than the root has an entry at or below it |
| `TrieShape.InsertThenErase` | radix_lru.go:428-543 | inserting an absent key and erasing it again restores contents and shape, whatever the history |
| `Renumbering.MovedLinked` | arena_radix.go:1947-2008 | the renumbered nodes are well linked under the same paths |
| `Renumbering.MovedCompact` | arena_radix.go:1947-2008 | path compression survives renumbering |
| `Renumbering.MovedContents` | arena_radix.go:1947-2008 | the map survives renumbering |
| `Spans.MergeAdjacent` | arena_radix.go:268-285 | the table ends with no two spans touching and exactly the same bytes free |
| `Spans.RecordFree` | arena_radix.go:289-319 | the table stays in bounds, without touching spans and off the tail; the bytes become free, unless the table is full with no neighbour, when the smallest span is kept or displaced by size |
| `Spans.Lost` | arena_radix.go:289-319 | what one recording loses: nothing, or from a full table one span that is no longer than any that stays |
| `Spans.TakeFree` | arena_radix.go:324-343 | a best-fit span is taken, exactly its first bytes stop being free; failure means no span is large enough |
| `Spans.TrimTail` | arena_radix.go:232-254 | only free bytes are cut off, free bytes before the new end stay as they were, and no span or hand-off span ends at the tail |
| `LabelSpace.HeaderRoundTrip` | arena_radix.go:188-195 | the four-byte little-endian header of a long label reads back as its length |
| `LabelSpace.FreeSpaceChanged` | arena_radix.go:348-396 | changing only free space by vacant bytes keeps every label, span and handed-out byte sound |
| `LabelSpace.WriteVacant` | arena_radix.go:513-540 | a write into vacant bytes changes no label and no handed-out byte |
| `LabelArena.LiveFits` | arena_radix_lru.go:232-254 | the live bytes never exceed the arena |
| `LabelArena.Arena.Load` | arena_radix.go:198-209 | a node's label reads as its text, short or with a header |
| `LabelArena.Arena.Release` | arena_radix.go:348-396 | the live count drops by the raw length; pinned or exposed bytes are left alone; otherwise these bytes become free and free bytes stay free, except that a full table may lose one whole span, which is no longer than any span left in it; no other label changes |
| `LabelArena.Arena.Recycle` | arena_radix.go:348-396 | released bytes go to the hand-off span of a running Put or to the table, with the same account of what a full table loses |
| `LabelArena.FreedAll` | arena_radix.go:289-319 | while the table has a free slot a release makes exactly its bytes free: nothing leaks |
| `LabelArena.Arena.ClearLabel` | arena_radix.go:399-416 | the label becomes empty, its bytes are freed with the same account, every other text stays |
| `LabelArena.Arena.TakeRaw` | arena_radix.go:456-485 | bytes come from the hand-off span or the table and are used by nobody; failure means neither is large enough |
| `LabelArena.Arena.TryTake` | arena_radix.go:456-485 | the same for a payload with its header written |
| `LabelArena.Arena.EnsureCap` | arena_radix.go:421-438 | room is made without changing any text |
| `LabelArena.Arena.Grow` | arena_radix.go:442-451 | a larger array holds the same texts and nothing of it is handed out |
| `LabelArena.Arena.Rebuild` | arena_radix.go:1799-1830 | all texts packed into a fresh array, with no free spans and size equal to the live bytes |
| `LabelArena.Arena.Compact` | arena_radix.go:1772-1779 | compaction keeps all texts |
| `LabelArena.Arena.CompactExact` | arena_radix.go:1782-1795 | the arena is packed to exactly its live bytes |
| `LabelArena.Arena.SetPrefix` | arena_radix.go:489-540 | one text changes, all others stay |
| `LabelArena.Arena.SetFromSlice` | arena_radix.go:545-572 | the text becomes a copy of arena bytes that stay intact meanwhile |
| `LabelArena.Arena.Split` | arena_radix.go:577-638 | the new node gets the first bytes, the old one the rest, in all in-place and copying branches |
| `LabelArena.Arena.SplitShort` | arena_radix.go:577-638 | both halves share the old bytes and a freed header is recycled |
| `LabelArena.Arena.SplitLong` | arena_radix.go:577-638 | the header is rewritten in place when nobody holds the bytes |
| `LabelArena.Arena.Merge` | arena_radix.go:666-740 | the child gets the concatenation, the parent loses its label, all other texts stay, in all branches |
| `LabelArena.Arena.MergeLong` | arena_radix.go:666-740 | a long label is extended over the adjacent one by rewriting its header |
| `LabelArena.Arena.MergeCopy` | arena_radix.go:642-662 | the concatenation is copied before the old bytes are released |
| `LabelArena.Arena.TryCollapse` | arena_radix.go:1452-1507 | the collapse happens exactly under its conditions and then joins parent and child over the dead leaf's bytes; otherwise nothing changes |
| `LabelArena.Arena.Pin` | arena_radix.go:1678-1694 | the key bytes given to a callback become handed out |
| `LabelArena.Arena.Expose` | arena_radix.go:214-218 | the bytes given to an iterator become handed out |
| `LabelArena.Arena.FinishPut` | arena_radix.go:258-265 | the unused hand-off span goes back and none remains |
| `LabelArena.Arena.FreeSubtreeLabel` | arena_radix.go:1076-1111 | the label of a swept node goes, all others stay |
| `LabelArena.Arena.Reset` | arena_radix.go:1705-1745 | the empty arena reuses its array only if no handed-out byte can be overwritten |
| `LabelArena.Arena.Renumber` | arena_radix.go:1975-1996 | the labels move with their nodes to the new numbers and every text stays, provided every labelled node has a new number |
| `LabelRuns.Step` | arena_radix.go:345-740 | every operation keeps the arena sound and leaves every byte handed out before it as it was |
| `LabelRuns.Run` | arena_radix.go:345-740 | over any run of operations a handed-out byte of the same backing array is never overwritten |
| `TrieLabels.SplitLabels` | arena_radix.go:577-638 | the trie's split changes the labels by one split, whose replay on the old labels gives the new ones |
| `TrieLabels.MergeLabels` | arena_radix.go:666-740 | the trie's merge changes the labels by one merge |
| `TrieLabels.FreedLabels` | arena_radix_lru.go:1152-1207 | freeing the swept nodes one by one clears exactly their labels |
| `LabelledTrie.CollapseLabels` | arena_radix.go:1452-1507 | pruning a leaf and then merging its parent give the labels of the in-place collapse |
| `LabelledTrie.MovedLabels` | arena_radix.go:1947-2008 | every labelled node is live, so the labels of the renumbered trie are the old labels under the new numbers |
| `LabelledTrie.Labelled.Edge` | arena_radix.go:198-209 | the bytes read from the arena for a node are its edge |
| `LabelledTrie.Labelled.Follow` | arena_radix.go:1510-1548 | the allocator calls of an operation, with the in-place collapse tried first, take the arena from the old edges to the new ones and overwrite no handed-out byte |
| `LabelledTrie.Labelled.Insert` | arena_radix.go:1195-1260 | after an insertion the arena spells exactly the edges of the trie, the map changes at the key only, and handed-out bytes stay |
| `LabelledTrie.Labelled.Erase` | arena_radix.go:1658-1674 | the same after an erasure with upward compression |
| `LabelledTrie.Labelled.DeletePrefix` | arena_radix_lru.go:967-1005 | the same after a subtree is severed and swept |
| `LabelledTrie.Labelled.Compact` | arena_radix.go:1947-2008 | nodes and labels are renumbered together, the arena is packed to exactly its live bytes and still spells every edge |
| `LabelledTrie.Labelled.Clear` | arena_radix.go:1705-1745 | the empty trie and the empty arena agree, and handed-out bytes stay |
| `LruPolicy.RoomLongest` | pressure.go:4115-4133 | for a positive weight the eviction loop of Put keeps the longest prefix of the recency order that admits the entry |
| `LruPolicy.RoomZero` | pressure.go:4115-4133 | for weight zero exactly the last entry goes if the weightless entries, or both the weight and the number of entries, have reached the capacity; otherwise all stay |
| `LruPolicy.RoomBound` | pressure.go:4115-4133 | the insertion keeps the weight within the capacity and the length within twice the capacity |
| `LruPolicy.UpdateRoomLongest` | map_lru.go:372-399 | an update keeps as many of the other entries as fit |
| `LruPolicy.CanFitGrowth` | map_lru.go:587-612 | the two-ended scan answers exactly whether the new weight and all strictly newer entries fit, and none of its 64-bit sums overflows |
| `LruPolicy.GrownMeans` | map_lru.go:614-638 | growth in place keeps everything newer and evicts the shortest possible suffix of older entries |
| `LruPolicy.ShrunkMeans` | map_lru.go:614-638 | a shrink keeps the position and evicts at most the last entry |
| `LruPolicy.ReplaceSurvives` | map_lru.go:614-638 | after Replace the key is still there exactly if its weight does not grow or the new weight fits beside all newer entries; if it is not, every other entry stays |
| `PutOutcomes.PutWeightless` | pressure.go:4115-4133 | Put of a new weightless entry: it comes to the front, and the last entry goes exactly under those two conditions |
| `PutOutcomes.PutWeighted` | pressure.go:4115-4133 | Put of a new entry with weight: as many of the most recent entries stay as are admitted beside it |
| `PutOutcomes.PutHeld` | map_lru.go:372-399 | Put of a held key: it moves to the front; all others stay if they fit, unless it shrinks to weight zero at the limit on weightless entries, when exactly one goes; if they do not fit, as many of the most recent stay as do |
| `PutOutcomes.ReplaceShrinking` | map_lru.go:614-638 | Replace with a weight that is not larger keeps the place; exactly when the last entry goes |
| `PutOutcomes.ReplaceGrowing` | map_lru.go:614-638 | Replace with a larger weight keeps the place and everything newer and as many older entries as fit, or the entry goes alone |
| `ShedOutcomes.ShedResult` | pressure.go:4040-4105 | one pass ends with weight at most max(target, protected weight); with retention 0 only the protected entry is left; otherwise at least as many weightless entries stay as there were or as their goal allows (the larger of retained share and watermark, at least one for a weightless protected entry), and no more than the goal unless the list is short enough; the protected entry survives |
| `ShedOutcomes.ShedIsGreedy` | pressure.go:4052-4105 | the pass removes, again and again, the last entry that serves a goal missed at that moment, and stops exactly when no entry does |
| `LruPolicy.ShedGoalsMet` | pressure.go:4088-4105 | the same from any point of the pass and for any goals |
| `LruPolicy.ShedTight` | pressure.go:4088-4105 | nothing is evicted once the goals are met: with its last victim put back a goal would be missed |
| `LruPolicy.ShedKeeps` | map_lru.go:908-932 | the protected entry survives and nothing new appears |
| `LruPolicy.ShedWhole` | map_lru.go:908-932 | a pass that evicts nothing changes nothing |
| `MapCache.Cache.Erase` | map_lru.go:479-496 | exactly one entry leaves and its weight is booked under the reason |
| `MapCache.Cache.ShedPass` | map_lru.go:908-932 | the loop computes the specified pass, reports its victims in order and books them as pressure evictions |
| `MapCache.Cache.Insert` | map_lru.go:419-477 | the insertion branch, with evictions reported from the least recently used on |
| `MapCache.Cache.Update` | map_lru.go:372-399 | the entry moves to the front, others make room for it, and the overwritten value is reported after them |
| `MapCache.Cache.Put` | map_lru.go:419-477 | recency order, notices (capacity evictions, then the overwritten value, then the entries shed), counters and accepted weight after Put; an oversized entry changes nothing; the invariant carries the 2*maxSize bound and both conservation laws |
| `MapCache.Cache.Get` | map_lru.go:548-565 | the value found and the entry at the front |
| `MapCache.Cache.Delete` | map_lru.go:528-544 | exactly the entry leaves and is reported, then shedding, with all counters |
| `MapCache.Cache.Replace` | map_lru.go:647-688 | in place with the older entries that must go, or only the entry itself; notices in the same order as for Put, and counters |
| `MapCache.Cache.DeletePrefix` | map_lru.go:729-743 | exactly the matching entries leave and are reported, in whatever order the map yields them |
| `MapCache.Cache.Clear` | map_lru.go:696-727 | everything is deleted, reported and booked at once |
| `MapCache.UnmatchedIn` | map_lru.go:729-743 | an entry survives the scan exactly when its key does not start with the prefix |
| `MapCache.FillToBound` | pressure.go:4115-4133 | the bound is tight: for every capacity a run of Puts reaches exactly 2*maxSize entries |
| `RecencyList.List.PushFront` | arena_radix.go:1576-1587 | the links spell the list with the node in front |
| `RecencyList.List.Remove` | arena_radix.go:1590-1611 | the links spell the list without the node; a node that is not linked leaves the list as it is |
| `RecencyList.List.MoveToFront` | arena_radix.go:1551-1573 | the links spell the list with the node moved to the front |
| `RecencyList.List.Renumber` | arena_radix.go:1947-2008 | the links spell the same list under new numbers |
| `TrieCache.Cache.Lookup` | arena_radix.go:1315-1447 | the index probe, the walk and the healing promotion after a walk find the position of the key in the recency order or its absence, and leave a valid index |
| `TrieCache.Cache.Leave` | arena_radix.go:1678-1703 | by the tag-only delete under its guard, or by the full hash, exactly the node leaves the index |
| `TrieCache.Cache.EraseNode` | arena_radix.go:1678-1703 | the node leaves index, list and trie, the recency order loses that entry only, and the notice has its value and, where asked for, its reconstructed key |
| `TrieCache.Cache.Join` | arena_radix_lru.go:647-696 | a new node joins trie, list and index and shows as the first entry |
| `TrieCache.Cache.MakeRoom` | radix_lru.go:780-809 | the eviction loop of an update |
| `TrieCache.Cache.Update` | arena_radix_lru.go:560-586 | an update does to the order what the map engine does, and after evictions puts the node into the slot of its hash again |
| `TrieCache.Cache.Insert` | arena_radix_lru.go:602-636 | pre-insert eviction and insertion do to the order what the map engine does |
| `TrieCache.Cache.ShedPass` | arena_radix.go:2059-2094 | the pass along the links, with the arena engine's early return, computes the specified pass |
| `TrieCache.Cache.Put` | radix_lru.go:824-880 | Put of both trie engines meets the same specification as the map engine, with notices and counters |
| `TrieCache.Cache.Get` | arena_radix_lru.go:762-779 | Get as specified |
| `TrieCache.Cache.Delete` | arena_radix_lru.go:723-754 | Delete as specified, with notices and counters |
| `TrieCache.Cache.DropReported` | arena_radix_lru.go:1044-1078 | a node reported by the sweep leaves index, list and totals, and its notice is the one of its entry |
| `TrieCache.Cache.CanFit` | arena_radix_lru.go:805-830 | the two-ended scan over list links answers exactly whether the entry fits in place, and none of its 64-bit sums overflows |
| `TrieCache.Cache.Grow` | arena_radix_lru.go:832-858 | the growth branch as specified |
| `TrieCache.Cache.Shrink` | radix_lru.go:976-1002 | the shrinking branch as specified |
| `TrieCache.Cache.Replace` | arena_radix_lru.go:871-916 | Replace as specified, with notices and counters |
| `TrieCache.Cache.DeletePrefix` | arena_radix_lru.go:967-1005 | the subtree sweep leaves what the map engine's full scan leaves, in the same order, and reports the same entries |
| `TrieCache.Cache.Compact` | arena_radix.go:1947-2008 | compaction of trie, list and index is lossless: same entries, same order, no free nodes, a valid index |
| `TrieCache.Cache.Clear` | radix_lru.go:1055-1121 | everything is deleted, reported from the most to the least recently used, and booked |
| `Engines.StepMap` | map_lru.go:419-781 | every operation of the map engine gives the order, the results and the notices of the recency-list specification; each counter of removals grows by the number of notices with its reason, and the other counters by the kind of operation |
| `Engines.StepTrie` | radix_lru.go:824-1192 | every operation of the pointer engine and of the arena engine does too |
| `Engines.PutReturns` | map_lru.go:419-477 | Put hands back the values evicted for capacity, then those shed, and never the overwritten one |
| `Reasons.PutBooked` | map_lru.go:190-203 | after a Put each counter has grown by the number of its notices; a Put of a held key counts as updated, of a new one as inserted |
| `Reasons.ReplaceBooked` | map_lru.go:190-203 | the same for Replace, which counts as replaced or as self-evicted |
| `Reasons.DeleteBooked` | pressure.go:5396-5414 | the same for Delete |
| `Notices.TellsReplaced` | options.go:42-48 | exactly the value overwritten by Put or Replace is reported as replaced, exactly the entries deleted are reported as deleted, each with the key of its entry where keys are reported |
| `Notices.TellsEvicted` | options.go:350-352 | capacity notices are about entries held before, pressure notices about entries the operation leaves, both from the least recently used entry on |
| `Notices.OpSheds` | pressure.go:4052-4105 | every operation that takes effect under a sample above the threshold sheds after its own change, removing the last needed entry until none is needed, and spares the entry it wrote |
| `Notices.OpLeaves` | map_lru.go:419-781 | every other operation but Get leaves just its own change |
| `Notices.Named` | options.go:75-81 | with an entry callback every notice of every run names a key |
| `Recency.OrderOfUse` | map_lru.go:548-565 | after every run the entries are in the order of their last accepted Put or Get |
| `Recency.LastWritten` | map_lru.go:548-565 | after every run an entry has the value and weight of the last operation that wrote its key, not deleted since, and Get answers accordingly |
| `Engines.RunMap` | map_lru.go:419-781 | the same over every sequence of operations, with the counters |
| `Engines.RunTrie` | arena_radix_lru.go:643-1043 | the same over every sequence of operations, with the counters |
| `Engines.Lockstep` | arena_radix_lru.go:643-1043 | started empty, the three engines give the same results, the same notices with key, value and reason, and the same recency order for every run and every hash function |
| `Conservation.RunConserves` | options.go:67-81 | over every run from every state, each key and value is held at the end plus reported as often as it was held at the start plus stored: no value is lost, reported twice or reported while it is still held |
| `Conservation.StepConserves` | options.go:341-344 | the same for one operation of any kind |
| `Conservation.CapacityInOrder` | options.go:350-352 | capacity evictions are reported from the least recently used entry on |
| `Conservation.PressureInOrder` | options.go:350-352 | so are the entries shed under pressure, as a subsequence of the list read from its tail |
| `Sharding.Divide` | sharded_lru.go:149-215 | shard capacities sum to the total, differ by at most one, and are positive when there are no more shards than capacity |
| `Sharding.TotalBound` | sharded_lru.go:442-458 | whatever the shards hold, and whichever engines they run, together they hold at most twice the capacity |
| `Sharding.NewShards` | sharded_lru.go:137-215 | for each of the three engines the constructed shards are empty, valid, disjoint in memory, and their capacities sum to maxSize |
| `Seqlock.ReadsOnePublication` | pressure.go:2927-2943 | a successful lock-free read returns the tuple of one even-numbered publication for the requested epoch that its committer allowed to be used, with no reclamation completed between that publication and the reader's last check |
| `Seqlock.ReadsFresh` | pressure.go:2889-2943 | what a reader gets goes back to a sample that a publisher committed with needsRefresh false: never to an invalidation, an elevated sample or a reclaimed one; republishing has changed nothing but the recovery epochs, upwards |
| `Seqlock.Source` | pressure.go:2895-2908 | a republication renews the usable publication before it |
| `Seqlock.PublicationsStay` | pressure.go:2864-2887 | what an even number stands for never changes over any run |
| `Seqlock.ReclaimBlocksReaders` | pressure.go:2794-2824 | while a reclamation is under way no reader passes its first or its last load |
| `Seqlock.StepKeeps` | pressure.go:2855-2922 | every step of every writer and reader keeps the invariant |
| `Seqlock.WriterKeeps` | pressure.go:2855-2909 | every store of publishing, invalidating, republishing and reclaiming keeps history and fields consistent |
| `SeqlockAlone.PublishDoes` | pressure.go:2864-2887 | all stores of a publisher together: exactly the sample is published, under a new even number, with needsRefresh as given |
| `SeqlockAlone.InvalidateDoes` | pressure.go:2889-2893 | all stores of an invalidation together |
| `SeqlockAlone.RepublishDoes` | pressure.go:2895-2908 | the recovery epochs become the larger ones; nothing happens if none would grow |
| `SeqlockAlone.ReclaimDoes` | pressure.go:2776-2824 | all stores of a reclamation together: the number stays odd and the epoch advances |
| `SeqlockAlone.ReadDoes` | pressure.go:2927-2943 | an undisturbed reader succeeds exactly if there is a usable sample for its epoch, and then it has the published fields |
| `SeqlockAlone.PublishThenRead` | pressure.go:2864-2943 | after a publication for use a reader gets it; after an invalidation or a reclamation none gets anything |
| `SeqlockAlone.FinishedReached` | pressure.go:2864-2908 | the stores of a writer are a finite run of its steps |
| `SeqlockAlone.ReadReached` | pressure.go:2927-2943 | the loads of a reader are a finite run of its steps |
| `PrefixCompare.LongestCommonPrefix` | pressure.go:1668-1689 | the word-wise comparison returns the length of the longest common prefix, for all strings |
| `PrefixCompare.WordDiff` | pressure.go:1668-1689 | the trailing zeros of the difference of two words, divided by eight, lead to the first differing byte |
| `DigitTables.Init` | pressure.go:1532-1569 | the four tables hold every byte and the digits of every number of two, three and four digits |
| `DigitTables.FillTwo` | pressure.go:1541-1549 | entry `i` of the two-digit table spells `i` |
| `DigitTables.FillThree` | pressure.go:1550-1559 | entry `i` of the three-digit table spells `i` |
| `DigitTables.FillFour` | pressure.go:1560-1567 | the flat table holds the four digits of every number below 10000 |
| `DigitTables.ParseTwo` | pressure.go:1571-1577 | a number is returned exactly for two digits, and the table entry spells them |
| `DigitTables.ParseThree` | pressure.go:1579-1585 | the same for three digits |
| `DigitTables.ParseFour` | pressure.go:1587-1593 | the same for four digits |
| `DigitTables.Clone` | pressure.go:1595-1624 | the clone read from the filled tables equals its argument |
| `DigitTables.Concat` | pressure.go:1626-1665 | the concatenation read from the filled tables equals plain concatenation |

## Left out

- EvictCallbacksRuns.ExactlyOnce: assumes that callbacks return; after a panic the source drops pending work on purpose.
- EvictCallbacksEnds.EveryRunEnds: goroutines that are not scheduled at all, and new calls or lease borrowings without end, are outside the statement.
- Stack inspection in the callback protocol: a stack capture shows the true holder, the answer to "is a child of the holder" is arbitrary, TryLock may fail spuriously, and the tag lease can be borrowed by another cache; goroutine-stack parsing, pprof labels and goroutine-id snapshots are not modelled.
- The enqueue variant with hold sequence 0 (`enqueuePendingCallback`), which only the repository's tests use; hold numbers are unbounded.
- TrieCache.Cache.Insert: the evictions forced when the node arena or the label arena reaches its uint32 limit are not modelled; node ids are unbounded integers here.
- LabelArena.Arena.EnsureCap: the panics on an exhausted 4 GiB arena are the precondition that live plus needed bytes fit.
- LabelArena.Arena.Rebuild: the skip of nodes without a parent is not modelled, since every labelled node has one when it is called.
- ArenaTrie.Trie.Alloc: free ids are kept as a sequence rather than threaded through the `next` field; the two-node recycling of the pointer engine is covered by the same sequence.
- LabelledTrie.Labelled.Insert: requires that the arena has room to copy its live bytes and the new key once more, which is enough for every allocator call of the operation; the source panics only when one call finds no room for the label it copies. `Erase`, `DeletePrefix` and `Follow` require the same.
- TrieCache.Cache.EraseNode: the trie inside a cache holds its edges as byte strings; that the label allocator spells them is the invariant of `LabelledTrie.Labelled`, which the cache does not contain. The same holds for `TrieCache.Cache.Compact`.
- NodeIndex.Index.Remove: the hash of a node's key, which the source computes from its edges, is kept in a table beside the index.
- MapCache.Cache.DeletePrefix: Go's map is represented by the recency order itself, and the order in which matching entries are deleted is arbitrary, so their notices are given as a multiset.
- Engines.Lockstep: all three engines see the same samples and watermarks; how the watermarks evolve is not modelled (after mixed zero and positive weights it differs between engines), nor when the engines decide to compact on their own.
- Sharding.NewShards: which shard a key goes to, the arena engine's single hash for shard and slot, and the loops over all shards in Len, DeletePrefix and EvaluateMemoryPressure are not modelled; zero shards or more shards than capacity, where the source panics, are excluded by the precondition.
- TrieCache.Cache.Compact: the pointer engine's compaction only resets counters and is not modelled.
- LruPolicy.ShedOutcome: the products of length and retention ratio are arbitrary numbers; floating-point rounding is not modelled.
- Seqlock.ReadsOnePublication: memory is sequentially consistent, as Go's atomics are; sampler slots, panicked lineages and re-entrant reclaim tracking are not modelled.
- Options, threshold reconciliation, memory metrics, iterators, Peek, Stats, the runtime invariant checkers themselves, otellru and cmd/benchcheck.
- Memory layout, allocation counts, peak and slack counters and the pacing of compaction.
