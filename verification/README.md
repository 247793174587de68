# Verified model of turbokv's shared cache and L3 queue

turbokv keeps a cache in shared memory: one primary process writes, any number of worker processes read without locks.
Workers hand writes to the primary through rings of bytes, the primary tells everybody what it changed through a
second kind of ring, and a queue in every process forwards operations to an external L3 store. This project models
these four mechanisms in Dafny and proves what they are relied on for.

- **The arena** (`Arena.dfy` with `ArenaState`, `ArenaSteps`, `Shifting`, `HeadBlocks`, `LogLayout`, `Probing`,
  `Allocation`, `Relief`, `Eviction`, `Pressure`, `Expiry`, `Lifetimes`, `MissedSweep`). An open-addressed index over
  a circular log, as a class over arrays with the same loops as the C++ code. Its abstract value is the map `View`
  from keys to records; its invariant is `Valid`. `Relief` says what index pressure costs, `Eviction` that the tail
  stops in time, `Pressure` holds two arenas at their limits, `Lifetimes` adds the clock and the timer that sweeps one
  slice at a time, and `MissedSweep` is a run in which a pass misses an entry.
- **Readers** (`SharedMemory`, `Readers`, `ConcurrentReads`, `QuietReads`, `StaleReads`). Every store the arena makes
  is recorded as an event and proved legal. A second machine interleaves any legal stores with the single loads of a
  read, bytes included. `QuietReads` is about reads that no store disturbs, `StaleReads` runs it on the one case in
  which a hit is stale.
- **The invalidation ring** (`Invalidation`, `InvalidationReads`, and `RingAppend` and `RingRead` of the arena).
- **The submission rings** (`Submissions`, `SubmitItems`, `SubmitQueue`, `SubmitRing`, `Ownership`, `Claims`,
  `Draining`). A machine of single byte stores; a class whose methods are runs of that machine; processes that claim,
  release and crash; and the drain into the arena.
- **The L3 queue** (`QueueModel` and the other `Queue*` files, `L3Queue`). One step for each stretch of code between
  two awaits; a class whose methods are those steps; theorems over all runs.
- **Keys** (`KeyEncoding`). UTF-16 keys, their UTF-8 bytes (RFC 3629, section 3), and the check that tells them apart.

Run `dafny verify --resource-limit 2000000 --verification-time-limit 0 dfyconfig.toml` to verify everything.

## How the source is read

- Steps are sequentially consistent: acquire and release become program order.
- Log positions, ring positions and operation counters are unbounded, as 64-bit counters never wrap in practice.
  Fields that are 32 bits wide are cut to 32 bits, and the expiry clock wraps.
- A power-of-two mask is a remainder (`Wrapping.PhysIsMod`); nothing needs the number of slots or the ring size to be
  a power of two.
- The hash is an arbitrary function of the key, so collisions are possible everywhere.
- Lengths are those callers can pass (keys up to 1024 bytes, values up to 4 MiB), so no 32-bit size is ever cut off.
- Reference bits are booleans that a reader may set at any moment; any second-chance decision is possible.
- The `memset` of `storeClear` goes slot by slot, the hash of a slot before its position.
- Clocks and process liveness are parameters. Process ids are not used twice.
- A drained submission is, for expiry, a `Set` of `Lifetimes`, followed by a `Delete` if it was refused.
- An adapter call of the L3 queue takes effect before its attempt settles, or not at all.
- Listeners and adapters do not call back into the queue during a step.

## Where code and comments disagree

- `src/store_ops.h:292` says that nothing is touched when the allocation fails. The index-pressure loop before it may
  already have evicted keys: `Pressure.LosingCall` is such a call. The condition is the guard of that loop: a set
  refused for its size costs no binding when `live` is below the ceiling, and with few enough segments in the log
  exactly then (`StoreSet`, `Relief.RefusedSizeCost`). With more segments the loop may also spend its rounds on dead
  records or second chances and spare all bindings at the ceiling; `StoreSet` promises it when only dead records are
  in reach.
- `src/store_ops.h:259-263` says that the loop keeps the index below its ceiling. It does when the segments between
  tail and head and the second chances fit under its guard (`RelieveIndex`). It does not when the guard runs out on
  dead records: `Pressure.PastTheCeiling` fills every slot that way, and `Pressure.FullIndexRefuses` then reaches the
  branch for a full index.
- `src/binding.cc:426` accepts that a rejected record stops its ring. `src/submit.h:198` lets a key of length 0
  through, which the consumer rejects (`SubmitRings.EmptyKeyWedges`). A submission is applied by some run if and only
  if it and all before it are `Admissible` (`SubmitQueue.AppliedIffAdmissible`).
- `src/store_ops.h:21-27` wants every TTL clamped to 2^31 ms for the comparison to be right. An entry that nobody
  sweeps reads as live again 2^31 ms after its deadline (`Expiry.ExpiredComesBack`), and one whose deadline is 0
  modulo 2^32 never expires (`Expiry.ZeroSumNeverExpires`). `Lifetimes` proves the exact behaviour otherwise.
- `src/store_ops.h:376-379` says that after a clear every position published before is stale. While the clear runs,
  position 0 is not, if the tail has never moved: the wiped slots read as 0 until the tail is published.
  `StaleReads.StaleHitExample` reads an overwritten value that way, `StaleReads.StaleHitIff` is the exact condition,
  and `HitIsNotRetired` covers all other reads.
- `src/turbokv.js:3708-3713` sizes the slices so that expired entries go within one pass. A removal between two slices
  may move an entry below the cursor, and that pass misses it (`MissedSweep.MissedEntry`). It survives at most as many
  passes as it is slots away from home (`Lifetimes.TimedArena.SurvivesFewPasses`).

## Model

| member | source | states |
|---|---|---|
| `Arenas.Arena.IndexRemove` | src/store_ops.h:53-82 | Removing a slot takes exactly one (hash, position) pair out of the index, keeps every other pair, restores that no empty slot lies on the path from home to entry across wrap-around, repairs every back-pointer in the log and leaves an empty slot; ends even on a full table, since each shift lowers the total displacement. Entries only move back towards the removed slot, and each that moves comes closer to its home, on a full table too. Every entry that stays keeps its reference bit, wherever it moves. |
| `Probing.ShiftOne` | src/store_ops.h:62-80 | Moving an entry whose home is not between hole and entry into the hole keeps every other entry reachable with one hole further on, and brings the entry strictly closer to home. |
| `Probing.ShiftLowersDisplacement` | src/store_ops.h:62-81 | Each shift strictly lowers the sum of all distances from home: the reason the outer loop ends. |
| `Probing.ScanEnds` | src/store_ops.h:66-69 | When the scan meets an empty slot, no entry has the hole on its path, so the table is whole again. |
| `Probing.EmptyIsCut` | src/store_ops.h:66-69 | An empty slot cuts the circle: no entry lies beyond it on its path from home. |
| `ArenaSteps.CutAtLast` | src/store_ops.h:299-333 | An entry that takes the slot of the cut leaves the cut where it is: a full table, filled through its last empty slot, can still be cut open, so no shift goes all the way round. |
| `Probing.EmptyEndsProbe` | src/store.h:371-373 | An empty slot on the probe path proves that the hash is nowhere beyond it. |
| `Arenas.Arena.FindSlot` | src/store.h:368-380 | Returns the slot of the key if the key is live and -1 only if it is not, past other keys with the same hash. |
| `Arenas.Arena.FindFreeSlot` | src/store.h:382-390 | Returns the first empty slot on the probe path, and -1 only when no slot is empty. |
| `ArenaSteps.OnlyKeyAtHome` | src/store_ops.h:413-414 | The only key of an index sits at the remainder of its hash by the number of slots. |
| `ArenaState.HashIsKept` | src/store_ops.h:411-412 | A 64-bit hash is used as it is, but 0 and 1 are moved up by 2. |
| `Arenas.Arena.MoveEntry` | src/store_ops.h:74-78 | Position, back-pointer and hash are stored in this order; each single store is legal for concurrent readers. |
| `Arenas.Arena.UnlinkSlot` | src/store_ops.h:86-94 | The key of the slot loses its binding, every other binding stays; `live` and `liveBytes` remain the count and the block-size sum of the indexed entries. |
| `LogLayout.LogIsTiled` | src/store_ops.h:112-130 | Every byte position from tail to head lies in exactly one segment: a record, a pad or an implicit gap. |
| `LogLayout.AppendSeg` | src/store_ops.h:209-232 | A segment placed at the head by the allocator keeps the parse of the whole log, within one lap of the tail. |
| `LogLayout.SegsDisjoint` | src/store_ops.h:117-121 | Two segments of the log never share a physical address, although positions wrap. |
| `Arenas.Arena.ReadTail` | src/store_ops.h:128-136 | What the tail walk reads at the tail is the header of the segment the allocator placed there. |
| `Arenas.Arena.LiveAtTail` | src/store_ops.h:132-136 | The three comparisons are true exactly when the record at the tail is indexed. |
| `Arenas.Arena.DropTail` | src/store_ops.h:117-193 | One segment is passed. Its record is evicted, or published again at the head in place or by copy with all bindings kept; the latter for sure when its reference bit is set, a chance is left, and its bytes lie where the head is or a copy fits. Whatever else is bound stays where it is; the guard against a corrupt length is unreachable. |
| `Arenas.Arena.ChooseChance` | src/store_ops.h:138-183 | A record whose bit is set is given up only if the budget is spent or neither way is open. |
| `Arenas.Arena.Republish` | src/store_ops.h:157-165 | The zero-copy second chance changes no binding and no data byte: the same record is announced one lap later. |
| `Arenas.Arena.CopyTail` | src/store_ops.h:167-183 | The copying second chance writes a byte-identical record into free space and changes no binding. |
| `Arenas.Arena.LogAlloc` | src/store_ops.h:195-235 | The block is disjoint from everything between tail and head and does not straddle the end; half the region or less, with the guard out of reach, always succeeds, and more than half fails without touching anything. Eviction stops as soon as the block fits: whatever is bound at or beyond the final tail stays bound, and if the tail moved, the block reaches, one lap later, over the beginning of the very last segment that was passed. The region is filled up only where the block would cross its end. A record whose bit was set is lost only after its second chance, or once 16 were given, or where no way was open. |
| `Eviction.RoomWalkPasses` | src/store_ops.h:205-227 | Why eviction stops in time: each segment passed while the free bytes are fewer than what is needed at the head, the block or the rest of the region, begins where the block is going to end one lap later, whatever second chances and fillers follow. |
| `Eviction.WalkGoesOn` | src/store_ops.h:117-193 | Over every walk of the tail: what was bound or got a second chance at or beyond the tail is bound, bits stay set, the chances spent are the records placed, and a record whose bit was set is below the tail only with an excuse. |
| `Allocation.DropLowersRank` | src/store_ops.h:205-227 | Passing a segment lowers the rank made of second chances left, wrap to come and bytes still to free. |
| `Allocation.WrapLowersRank` | src/store_ops.h:209-226 | Filling up to the end of the region lowers the same rank. |
| `Allocation.GuardIsOutOfReach` | src/store_ops.h:205 | For every record a caller can ask for the rank stays below the iteration guard, so the guard never ends the loop. |
| `Arenas.Arena.StoreSet` | src/store_ops.h:252-340 | Success binds the key to the new record, the last in the log, with its reference bit set, and appends one invalidation. Every other binding that the tail has not passed stays. If the tail moved, the last segment it passed lay in the way of the block, or the index was at its ceiling and is no more than one below it. Failure leaves a submap and appends nothing. A block to be had and a free index slot before the call make it succeed. A set refused for its size leaves every binding alone when `live` was below the ceiling, and, while segments and second chances fit under the guard of the loop, only then. When the block fits as it is and the index is below its ceiling, or only dead segments lie in reach of the guard, nothing is evicted, and the set succeeds exactly when a slot is free. |
| `Arenas.Arena.RelieveIndex` | src/store_ops.h:282-287 | Below the ceiling nothing changes; otherwise `live` ends no more than one below it, and what the tail has not passed stays bound. If the segments between tail and head and the second chances fit under the guard, `live` ends below the ceiling. If all segments in reach of the guard are dead, only the tail moves and `live` stays at or above the ceiling. |
| `Relief.RefusedSizeCost` | src/store_ops.h:291-292 | For a size that is refused, with few segments in the log: all bindings stay exactly when the index was below its ceiling before the call. |
| `Pressure.LosingCall` | src/store_ops.h:282-292 | A concrete call: an arena at its ceiling, a set refused for its size, and afterwards a binding of another key is gone. |
| `Pressure.PastTheCeiling` | src/store_ops.h:282-287 | A concrete run of sets after which every slot is taken, past the ceiling: the guard runs out on dead records at every call. |
| `Pressure.FullIndexRefuses` | src/store_ops.h:299-310 | In that arena a set of a new key that has its block is refused because no slot is free: the branch for a full index is reachable. |
| `Arenas.Arena.AbandonBlock` | src/store_ops.h:299-310 | A block without a slot becomes a pad: the log still parses and bindings are as they were after eviction. |
| `Arenas.Arena.ReplaceEntry` | src/store_ops.h:312-337 | The predecessor goes and the new record takes its binding; the second search for a slot cannot fail. |
| `Arenas.Arena.WriteRecord` | src/store_ops.h:319-332 | After the stores between the two lock stores the bytes of the block are exactly the encoded record, and nothing outside the block changed. |
| `Arenas.Arena.StoreDelete` | src/store_ops.h:365-374 | The key has no binding, every other binding is untouched, the result tells whether it was there, and one invalidation is appended in either case. |
| `Arenas.Arena.StoreClear` | src/store_ops.h:380-388 | No binding is left, the tail is at the head, and one flush-all invalidation is appended. |
| `Arenas.Arena.StoreGet` | src/store_ops.h:407-488 | Hits exactly when the key is bound, not shadowed by another key with its hash, fits the scratch buffer and has not expired; then it returns the bound value, flags, expiry and length. |
| `Arenas.Arena.StoreHas` | src/store_ops.h:392-403 | True exactly when the key is bound and has not expired, also behind a collision that hides it from a read. |
| `ArenaSteps.ShadowNeedsCollision` | src/store_ops.h:454-455 | A live key is missed for this reason only if another live key has the same 64-bit hash. |
| `ArenaSteps.CollisionShadowsOne` | src/store_ops.h:454-485 | Of two live keys with one hash, one is always missed: reads are not complete under collisions. |
| `Records.HeaderRoundTrip` | src/store.h:38-49 | Every header field decodes to what was encoded. |
| `Wrapping.PhysIsMod` | src/store.h:67-71 | The address function of the model is the remainder of the position by the capacity. |
| `Wrapping.PhysDisjoint` | src/store_ops.h:121 | Two blocks within one lap have disjoint addresses: why a published record is not overwritten before the tail passes it. |
| `ArenaSteps.BootIsValid` | src/store.h:184-279 | A fresh arena satisfies the whole invariant. |
| `Arenas.Arena.constructor` | src/store.h:184-279 | A fresh arena has no binding and no history. |
| `Arenas.Arena.SweepExpired` | src/binding.cc:730-764 | Removes only expired entries, appends exactly one invalidation for each, and keeps all others. Whatever is still in a slot that was looked at has not expired, or has moved there from further away from its home. Whatever set of passed expiry times was absent below the cursor stays absent below the returned one, although shifts refill scanned slots. A call that is not done has used up its slots. |
| `ArenaSteps.CleanMeansFresh` | src/binding.cc:741-760 | Clean up to the last slot means that no binding at all carries one of those expiry times. |
| `Expiry.ExpiryIsExact` | src/store_ops.h:25-30 | With a clamped TTL, across wraps of the 32-bit clock an entry reads as expired exactly from its deadline on, for 2^31 ms. A longer TTL counts as 2^31 - 1 ms. |
| `Lifetimes.TimedArena.Get` | src/binding.cc:629-638 | No read after the TTL: over every sequence of sets, deletes, clears, reads and single slices of the sweep, in any order, with a clock that does not wrap, until 2^31 ms after `swept` an expiry time hides a binding from a read exactly from its true deadline on. A read hits exactly when the key is bound, not shadowed, small enough, and before its deadline. |
| `Lifetimes.TimedArena.Has` | src/store_ops.h:392-403 | The same for the test of presence, collisions aside. |
| `Lifetimes.TimedArena.Set` | src/binding.cc:600-627 | A successful set with a TTL gives the new entry the deadline now plus the clamped TTL and leaves all other deadlines alone; every binding keeps a 32-bit expiry that agrees with its deadline; entries only come closer to home. |
| `Lifetimes.TimedArena.Tick` | src/turbokv.js:3714-3735 | One slice of the timer, whatever ran since the one before: only what is past its deadline goes; the cursor advances by the slots used, or the pass is done and the next begins. `swept` is then at least the beginning of every pass that is exhausted: since it began more passes have ended than any entry was slots away from home. |
| `Lifetimes.TimedArena.SurvivesFewPasses` | src/turbokv.js:3731-3733 | Sweeps find everything in the end: with any sets, deletes and clears between the slices, an entry that is overdue when a pass begins and sits d slots from its home is gone when 1 + d passes have ended since. |
| `Lifetimes.RankIsDisplacement` | src/store.h:368-380 | What is remembered of an entry when a pass begins is its distance from home. |
| `MissedSweep.MissedEntry` | src/store_ops.h:53-82 | A concrete run in which one pass misses an entry: overdue before the pass began and still bound when it has ended, because a delete between two slices moved it below the cursor. |
| `Lifetimes.TimedArena.SweepPass` | src/binding.cc:730-764 | A pass with nothing between its slices, at any times, removes only entries past their deadline and leaves none whose deadline had passed when it began, on a full index too. |
| `Lifetimes.ExpiredMeansOverdue` | src/store_ops.h:15-27 | Until 2^31 ms after `swept`, the 32-bit test on a binding of a live arena is true exactly when its deadline has passed. |
| `Expiry.ExpiredComesBack` | src/store_ops.h:23-27 | From 2^31 ms after its deadline an entry that is still there reads as live again: why the sweeps must come that often. |
| `Expiry.ZeroSumNeverExpires` | src/store_ops.h:26 | When clock plus TTL is 0 modulo 2^32 the entry never expires: the case the deadlines above leave out. |
| `SharedMemory.StepKeepsMemInv` | src/store_ops.h:63-80 | Every legal single store keeps that announced records are complete, current and unharmed in memory. |
| `Readers.HitIsOneCompleteSet` | src/store_ops.h:407-488 | In every interleaving of one read with any legal stores, a hit is the value, flags, expiry and length of one completely published record of that very key, not expired. |
| `Readers.HitIsNotRetired` | src/store_ops.h:417-420 | In every interleaving, clears included, a hit is never a record whose overwrite, delete or eviction was complete when the read began, but for one case: the first record of a log whose tail has never moved, retired before the read, with a clear during the read. |
| `Readers.HitIsCurrentOrNewer` | src/store_ops.h:461-473 | That case aside, a read that begins between two operations returns what was bound then or something set later. |
| `StaleReads.StaleHitIff` | src/store_ops.h:380-385 | The exact condition. Some execution of a read of a key whose home slot holds its hash hits a record retired before it, if and only if the tail has never moved and the first record of the log is retired and is one that read would return. |
| `StaleReads.StaleHitExample` | src/store_ops.h:382-385 | That execution on a real arena: two sets of one key, a reader that has matched the slot, then storeClear wipes the index before it moves the tail, and the read returns the first value. |
| `StaleReads.ReadAlone` | src/store_ops.h:426-488 | The second half of a read alone: a reader that has loaded the position of a current record of its key, with that hash, in time and in size, goes on without interference to return exactly that record. |
| `QuietReads.QuietReadFinds` | src/store_ops.h:407-488 | From its first load on, past slots with other hashes: for every valid arena and every key that is bound, not shadowed, small enough and not expired, some execution of the lock-free read without stores returns the value, flags, expiry and length bound to it. |
| `QuietReads.QuietReadNeverMisses` | src/store_ops.h:407-488 | In no execution without stores, in whatever order the bytes are loaded, does such a read miss unless it gives up; and where it has hit, it returns what is bound. |
| `QuietReads.QuietReadIff` | src/store_ops.h:407-488 | The lock-free read refines storeGet: without stores it can hit if and only if storeGet hits. |
| `Readers.LoadsStayInside` | src/store_ops.h:452-458 | However stale its position is, no load of a reader leaves the data region. |
| `ConcurrentReads.AnyInterleaving` | src/store_ops.h:405-406 | Any way to put the loads of a read between the stores of a legal run is an execution the reader theorems speak of. |
| `ConcurrentReads.ReadDuringOperations` | src/store_ops.h:407-488 | The same for the stores the operations of an arena really make: a read that runs while they run misses, or all it returns are the arguments of one call of storeSet for its key that returned true. |
| `ConcurrentReads.ReadIsCurrentOrNewer` | src/store_ops.h:471-473 | No stale reads, in terms of bindings, clears during the read included once the tail has moved: what the arena bound to the key when the read began, or a set not complete at that moment. |
| `Arenas.Arena.RingAppend` | src/store_ops.h:242-249 | The array keeps the tail end of the history, one record longer. |
| `Arenas.Arena.RingRead` | src/binding.cc:1046-1089 | Without a concurrent writer: reports a wrap exactly when the cursor is beyond the head or a whole ring behind it, and returns the history from its cursor on, up to the head or the limit. |
| `InvalidationReads.BeginsValid` | src/binding.cc:1046-1052 | The ring of an arena between two operations, with a reader at its start, is a state the two theorems below begin with. |
| `InvalidationReads.ReadIsExactOrWrapped` | src/binding.cc:1053-1083 | In every interleaving with appends, also with one half done, a read that does not report a wrap returned exactly the history from its cursor on, to its limit or at least to where the head was when it began. |
| `InvalidationReads.WrapMeansOutOfReach` | src/binding.cc:1053-1083 | No false alarm: in every interleaving with appends a read reports a wrap only if, by its end, the head was a whole ring ahead of its cursor, or the cursor was beyond the head when it began. |
| `InvalidationReads.ReadEnds` | src/binding.cc:1053-1083 | From every state of a read its own loads alone lead to its end. |
| `InvalidationReads.ChainMissesNothing` | src/binding.cc:1046-1083 | Over every execution in which a reader starts each read where the one before ended, between and during appends: as long as no read reported a wrap, all it got so far, joined, is exactly the history from its first cursor on. |
| `Submissions.HeaderRoundTrip` | src/submit.h:54-68 | The 24-byte header decodes to what was encoded. |
| `Submissions.PushedValidatesIffAdmissible` | src/submit.h:263-274 | What a push wrote passes validation exactly when its operation, key length and value length are admissible. Admissible are sets and deletes of a key that is not empty, within the bounds, the empty value included. |
| `Submissions.SkipValidates` | src/submit.h:266 | A SKIP over the rest of the buffer always passes validation. |
| `SubmitRings.SubmitRing.Push` | src/submit.h:198-253 | Accepts exactly when the record is at most half the ring and there is a position behind the head where it lies in one piece within one lap of the tail; then it is published at the first such position, at the end of the queue, and every byte store was one the ring allows; otherwise nothing changes. |
| `SubmitQueue.AcceptsIffPlaceable` | src/submit.h:204-229 | The test of the push, head and filler arithmetic included, is true exactly when such a position exists, and it finds the first. |
| `SubmitRings.SubmitRing.FillBlock` | src/submit.h:231-246 | After the stores the block parses as the filler, if any, followed by exactly this record. |
| `SubmitRings.SubmitRing.TakeItem` | src/binding.cc:409-429 | The consumer reads back the very item that lies there and refuses it only if it is not admissible. |
| `SubmitQueue.EmptyRingAccepts` | src/submit.h:204-229 | An empty ring accepts every record of at most half its size, wherever its head is. |
| `SubmitQueue.TakeStep` | src/binding.cc:399-429 | In every reachable state the next turn of the drain goes past the next item, except exactly a submission that is not admissible. |
| `SubmitQueue.FifoDelivery` | src/submit.h:198-253 | In every interleaving of byte stores, publications, crashes and drain steps the applied submissions are a prefix of the published ones, each once, in order and byte for byte; all of them when the ring is empty. |
| `SubmitQueue.PassedMeansApplied` | src/binding.cc:488-525 | Once the published tail has passed the end of a record, that submission has been applied; and one counts as applied exactly when the consumer is past it. |
| `SubmitQueue.NeverStuck` | src/submit.h:262-274 | In every reachable state, if the next submission is admissible, the next turn rejects nothing. |
| `SubmitQueue.BlockedForever` | src/binding.cc:426-429 | Once the next submission is one that is not admissible, nothing is applied any more and the tail never passes it. |
| `SubmitQueue.InadmissibleWedges` | src/binding.cc:426-429 | For every run: if the submission at place x is not admissible, at most x submissions are ever applied, wherever the consumer was when it was published. |
| `SubmitQueue.NextIsDelivered` | src/binding.cc:399-429 | From every reachable state, an admissible next submission has a run that applies exactly it. |
| `SubmitQueue.AppliedIffAdmissible` | src/submit.h:262-274 | The exact condition: some run applies the submission at place x if and only if it and all before it are admissible. |
| `SubmitRings.EmptyKeyWedges` | src/submit.h:198-253 | A delete of the empty key is accepted and published by an empty ring, and no run ever applies anything from it. |
| `Ownership.OneOwner` | src/binding.cc:293-321 | In every state the invariant allows, two live processes hold different rings. |
| `Claims.ClaimAlone` | src/binding.cc:300-317 | From every valid state, a claim of one ring that nobody disturbs comes to the swap and holds the ring if and only if the ring was free, or in the second pass owned by another process that is gone; nothing else changes, what is queued included. |
| `Claims.WholeClaim` | src/binding.cc:293-321 | The two passes of an undisturbed claim end with the first free ring, else with the first whose owner is gone, and with none only if every ring has an owner that lives or is the process itself. |
| `Claims.GivenBack` | src/binding.cc:562-575 | A ring that is released, or whose owner crashed, is there to be claimed by every other live process. |
| `Claims.HolderCanPush` | src/submit.h:198-253 | Whoever holds a ring can publish any record there is a place for, by moves of its own, filler included. |
| `Claims.RingDelivers` | src/binding.cc:369-483 | Whoever holds or held a ring, an admissible submission that is next in it is delivered by moves of the consumer. |
| `Claims.TwoHolders` | src/binding.cc:293-321 | A run from a fresh segment in which two live processes hold two rings. |
| `Claims.Takeover` | src/binding.cc:300-317 | A run from a fresh segment for every admissible record: a process claims a ring, publishes the record and crashes; another takes the ring over with the record in it, and the drain delivers it. |
| `Ownership.MoveKeepsInv` | src/binding.cc:300-317 | Every step of claiming, checking liveness, swapping, releasing, crashing, pushing and draining keeps the invariant. |
| `Ownership.NeverTwoOwners` | src/binding.cc:293-321 | Over every run from a fresh segment, with process ids not used twice, no two live processes hold the same ring. |
| `Ownership.RingMoves` | src/binding.cc:293-321 | Whatever processes do, each ring sees a run of its own machine. |
| `Ownership.DeliverySurvives` | src/binding.cc:562-575 | Delivery stays first-in first-out and loses nothing across releases, crashes in the middle of a push, and reclaims. |
| `Draining.ApplySubmission` | src/binding.cc:432-477 | One invalidation announces the key of the submission; right after, the key is bound to the submitted value or to nothing, never to its predecessor. A delete, or a set that is refused, removes exactly its key; any other set is stored if its size can be had and a slot is free. Other bindings that the tail has not passed stay. |
| `Draining.DrainRing` | src/binding.cc:369-483 | The submissions applied are the next ones of the ring, in order, each acknowledged and answered as in the row above. A drain that applied less than its budget reached the head or a submission that is not admissible: the step cap never matters. |
| `L3Queues.L3Queue.Push` | src/l3/queue.js:201-254 | Shed exactly when the byte bound would be exceeded, and then nothing changes; otherwise one push step of the machine, coalescing included. An accepted push is recorded as the newest. |
| `L3Queues.L3Queue.PushClear` | src/l3/queue.js:283-316 | One clear step of the machine: gate, replacement of an unsent clear, and dropping of what is queued. |
| `L3Queues.L3Queue.DropPending` | src/l3/queue.js:323-336 | The loop over the chains removes exactly the unsent operations of keys, takes them off the books, and hands their pushes to the clear. |
| `L3Queues.L3Queue.RunHead` | src/l3/queue.js:359-386 | The head of the run loop ends, waits at the gate, or claims and sends. |
| `L3Queues.L3Queue.AttemptSettled` | src/l3/queue.js:409-450 | A settled attempt is repeated exactly when it failed, the queue is open, and it is a clear or before its deadline, unless reading the clock threw, which abandons it in an open queue too; otherwise wire, books, gate, promises and waiters are updated and the run loop goes on. Those who wait for the drain are woken only when nothing is outstanding. |
| `L3Queues.L3Queue.WireWake` | src/l3/queue.js:376 | The clear goes out once the wire is empty. |
| `L3Queues.L3Queue.GateWake` | src/l3/queue.js:364 | A released chain looks at the gate and at its pending slot again. |
| `L3Queues.L3Queue.BackoffWake` | src/l3/queue.js:432-436 | The next attempt begins after the backoff. |
| `L3Queues.L3Queue.OutstandingKind` | src/l3/queue.js:194-199 | Nothing exactly when no operation for the key is queued or in flight, otherwise the newest one. |
| `L3Queues.L3Queue.Drain` | src/l3/queue.js:475 | Resolves at once exactly when nothing is outstanding; otherwise exactly one more waits, and nothing else changes. |
| `L3Queues.L3Queue.Shut` | src/l3/queue.js:162-165 | Closing is one step of the machine: nothing that is queued or in flight changes, and from then on no attempt is repeated. |
| `QueueRuns.StepKeepsInv` | src/l3/queue.js:358-464 | Every step keeps the whole invariant; in particular every chain between two steps has a run loop that waits for something. |
| `QueueFrames.OnlyEmptyWakes` | src/l3/queue.js:450 | From every valid state a step wakes those who wait for the drain only if it leaves nothing outstanding; a drain of a busy queue adds exactly one of them. |
| `QueueFrames.WaitersAreTheDrains` | src/l3/queue.js:475 | Over every run: those who wait are exactly the drains since the queue was last empty. |
| `QueueFrames.OpsAreThePushes` | src/l3/queue.js:201-254 | Over every run the operations the queue answers for are all its pushes in order, but those of keys beyond the byte bound; and it is closed exactly if it was told to close. |
| `QueueFrames.LogIsComplete` | src/l3/queue.js:376-450 | Over every run whatever has landed or is on the wire is logged as sent, and `failed` counts exactly the settlements that are false. |
| `QueueTheorems.Quiescence` | src/l3/queue.js:201-464 | If no operation was abandoned, a drained queue leaves in L3 exactly what it held at the start with the accepted pushes applied one at a time in push order, clears included. |
| `QueueTheorems.StoreAndQueueMeanThePushes` | src/l3/queue.js:201-464 | At every moment the store, whatever it held at the start, and what is outstanding on top of it mean the same. |
| `QueueTheorems.ClearBarrier` | src/l3/queue.js:256-279 | Of two operations sent one after the other, one of them a clear, the first was pushed first and is settled before the second is sent. |
| `QueueTheorems.LaterPushWaitsForClear` | src/l3/queue.js:269-270 | An operation pushed after a clear is sent only once that clear has settled, also when a later clear took its place. |
| `QueueTheorems.ClearIsAlone` | src/l3/queue.js:371-376 | While a clear is at the adapter nothing else is on the wire. |
| `QueueTheorems.StepSettlesOnce` | src/l3/queue.js:448-449 | What a step settles was not settled before, and no outcome changes. |
| `QueueTheorems.NothingSettlesTwice` | src/l3/queue.js:448-449 | Over every run no push is in two settlements. |
| `QueueTheorems.DrainedMeansSettled` | src/l3/queue.js:442-450 | When nothing is outstanding, exactly the accepted pushes are settled. |
| `QueueTheorems.TrueMeansLanded` | src/l3/queue.js:223-240 | A push that settled true reached L3 itself, or an operation did that was pushed no earlier and is for the same key or a clear. |
| `QueueTheorems.TheBooks` | src/l3/queue.js:201-351 | #count and #bytes are what is queued and in flight, the bytes of keys stay within the bound, and the gate is armed exactly while a clear is outstanding. |
| `QueueTheorems.SomethingMoves` | src/l3/queue.js:358-464 | While something is outstanding, some step other than a push or a repetition is enabled. |
| `QueueTheorems.RankFalls` | src/l3/queue.js:358-464 | Every such step leaves fewer outstanding operations, or as many and a shorter way to the next settlement. |
| `QueueTheorems.EveryRunEnds` | src/l3/queue.js:358-464 | A run of such steps with at most f repetitions has a bounded length, from every state. |
| `QueueTheorems.EveryRunDrains` | src/l3/queue.js:442-475 | Every run of such steps that goes on until none but repetitions is enabled has emptied the queue: all accepted pushes are settled and nobody waits for the drain. |
| `QueueTheorems.CanDrain` | src/l3/queue.js:475 | From every state such steps lead to an empty queue, where nobody waits for the drain any more. |
| `KeyEncoding.EncodeIsInjective` | src/binding.cc:70-104 | Two well-formed keys with the same UTF-8 bytes are the same key. |
| `KeyEncoding.Utf8IsStandard` | src/binding.cc:72-76 | The encoding of a code point is the shortest form of RFC 3629: lead byte, continuation bytes and bits. |
| `KeyEncoding.AsciiIsItself` | src/binding.cc:72-76 | A key of ASCII characters is its own encoding. |
| `KeyEncoding.AcceptedKeysDiffer` | src/binding.cc:70-104 | Two different keys that are accepted have different bytes. |
| `KeyEncoding.ReplacementShows` | src/binding.cc:81-85 | Every unpaired surrogate leaves U+FFFD in the bytes, where the byte scan finds it. |
| `KeyEncoding.ReadKey` | src/binding.cc:70-104 | Accepts a key exactly when its encoding has at most 1024 bytes and every surrogate is paired, and returns that encoding. |
| `KeyEncoding.AllPaired` | src/binding.cc:92-98 | The scan over the units succeeds exactly on well-formed strings. |
| `KeyEncoding.UnpairedWouldCollide` | src/binding.cc:76-80 | Three different strings share their bytes; only the well-formed one is accepted. |

## Left out

- L1, pending marks, the promotion guard, recovery and the outbox (`src/turbokv.js`).
- Writes of other processes to L3 while the queue runs; between its own operations the store does not change.
- `storeHas` among concurrent stores, value encoding, compression, statistics counters, heap estimates and the binding
  layer.
- `create`, `attachReadOnly`, `geometryOk` and the layout of segments: a fresh arena and a fresh ring are given.
- Tombstone mode of `indexRemove` and every switch for experiments; a refused set during a drain is a parameter.
- Weak-memory effects beyond program order.
- Timers and the clock of the L3 queue: an attempt settles, before or after its deadline, and a backoff ends.
- Rings whose owner writes outside the protocol: the clamp of head minus tail and the header snapshot have no effect
  here.
- The outer loop of the drain over all rings; one ring is drained at a time.
- The ids a promise settles with stand for the promise; the order in which one settlement resolves several is not
  modelled.
- Lifetimes.TimedArena.Set: gives no deadline to an entry whose clock plus TTL is 0 modulo 2^32, for which
  `ZeroSumNeverExpires` holds.
