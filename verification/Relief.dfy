/** Index pressure: how far the loop that relieves the index gets before its guard stops it. */
module Relief {
  import opened Bytes
  import opened Wrapping
  import opened Records
  import opened LogLayout
  import opened SharedMemory
  import opened Probing
  import opened Shifting
  import opened ArenaState
  import opened Allocation
  import opened ArenaSteps

  /** The guard of the loop. */
  function GuardMax(slots: nat): nat {
    slots * 2 + 64
  }

  /** The next n segments from the tail on are dead: no slot points at any of them. */
  ghost predicate DeadAhead(lay: Layout, live: set<nat>, tail: nat, n: nat)
    decreases n
  {
    n == 0 || (tail in lay && tail !in live && DeadAhead(lay, live, tail + lay[tail].len, n - 1))
  }

  /** Where the tail stands after n segments. */
  function Passed(lay: Layout, tail: nat, n: nat): (t: nat)
    ensures tail <= t
    decreases n
  {
    if n == 0 || tail !in lay then tail else Passed(lay, tail + lay[tail].len, n - 1)
  }

  /** `lay` is what is left of `lay0` from position t on. */
  ghost predicate LaterPart(lay: Layout, lay0: Layout, t: nat) {
    && (forall p | p in lay :: p in lay0 && lay[p] == lay0[p])
    && (forall p | p in lay0 && t <= p :: p in lay)
  }

  lemma LaterPartNext(lay: Layout, lay0: Layout, t: nat, len: nat)
    requires LaterPart(lay, lay0, t) && len > 0
    ensures LaterPart(lay - {t}, lay0, t + len)
  {
  }

  lemma OneSegmentLess(lay: Layout, t: nat)
    requires t in lay
    ensures |lay - {t}| + 1 == |lay|
  {
    assert (lay - {t}).Keys == lay.Keys - {t};
    assert |(lay - {t}).Keys| == |lay - {t}| && |lay.Keys| == |lay|;
  }

  lemma SegmentMoves(lay: Layout, t: nat, h: nat, g: Seg)
    requires t in lay && h !in lay
    ensures |(lay - {t})[h := g]| == |lay|
  {
    var rest := lay - {t};
    OneSegmentLess(lay, t);
    assert rest[h := g].Keys == rest.Keys + {h};
    assert |rest[h := g].Keys| == |rest[h := g]| && |rest.Keys| == |rest|;
  }

  lemma EmptyLayout(cap: nat, lay: Layout, t: nat)
    requires LogInv(cap, lay, t, t)
    ensures lay == map[]
  {
    hide SegOk;
    hide Chained;
    SegsBelowHead(cap, lay, t, t);
    assert forall p: nat :: p !in lay;
  }

  lemma FirstSegment(cap: nat, lay: Layout, tail: nat, head: nat)
    requires LogInv(cap, lay, tail, head) && tail < head
    ensures tail in lay && 8 <= lay[tail].len && tail + lay[tail].len <= head
  {
    assert SegOk(cap, tail, lay[tail]);
  }

  /** Each segment takes 8 bytes at least, so the log holds no more than an eighth of its bytes. */
  lemma {:induction false} SegmentsAreBytes(cap: nat, lay: Layout, tail: nat, head: nat)
    requires LogInv(cap, lay, tail, head)
    ensures 8 * |lay| <= head - tail
    decreases head - tail
  {
    hide LogInv;
    LogBounds(cap, lay, tail, head);
    if tail < head {
      FirstSegment(cap, lay, tail, head);
      DropSeg(cap, lay, tail, head);
      OneSegmentLess(lay, tail);
      SegmentsAreBytes(cap, lay - {tail}, tail + lay[tail].len, head);
    } else {
      EmptyLayout(cap, lay, tail);
    }
  }

  lemma LogBounds(cap: nat, lay: Layout, tail: nat, head: nat)
    requires LogInv(cap, lay, tail, head)
    ensures tail <= head
  {
    hide SegOk;
    hide Chained;
  }

  /** With nothing between tail and head no slot is occupied. */
  lemma NothingIndexed(f: seq<byte> -> nat, m: Mem, lay: Layout, tail: nat, head: nat, inserts: nat)
    requires ArenaInv(f, m, lay, tail, head, inserts) && (|lay| == 0 || tail >= head)
    ensures Count(m.hash) == 0
  {
    hide LogInv;
    hide MemInv;
    hide BytesInv;
    hide BookInv;
    if tail >= head {
      LogBounds(|m.data|, lay, tail, head);
      EmptyLayout(|m.data|, lay, tail);
    }
    forall x | 0 <= x < |m.hash|
      ensures m.hash[x] == EMPTY
    {
      assert SlotOk(m, lay, x);
    }
    SumZero(Ones(m.hash));
  }

  /** One advance of the tail: one segment less, or one second chance less; and a dead segment is passed
      without any other effect. */
  ghost predicate Advanced(m0: Mem, lay0: Layout, t0: nat, h0: nat, b0: nat,
                           m: Mem, lay: Layout, t: nat, h: nat, b: nat)
    requires |m0.hash| == |m0.off|
  {
    && |lay| + b + 1 == |lay0| + b0
    && (t0 !in Indexed(m0) ==>
          && t0 in lay0 && b == b0 && h == h0 && t == t0 + lay0[t0].len
          && lay == lay0 - {t0} && m == m0.(tailPub := t))
  }

  lemma DeadIsAdvanced(m0: Mem, lay0: Layout, t0: nat, h: nat, b: nat, m: Mem, lay: Layout, t: nat)
    requires |m0.hash| == |m0.off| && t0 in lay0 && t == t0 + lay0[t0].len
    requires lay == lay0 - {t0} && m == m0.(tailPub := t)
    ensures Advanced(m0, lay0, t0, h, b, m, lay, t, h, b)
  {
    OneSegmentLess(lay0, t0);
  }

  lemma LiveIsAdvanced(m0: Mem, lay0: Layout, t0: nat, h0: nat, b0: nat,
                       m: Mem, lay: Layout, t: nat, h: nat, b: nat, g: Seg)
    requires |m0.hash| == |m0.off| && t0 in Indexed(m0) && t0 in lay0 && h0 !in lay0
    requires if b == b0 then lay == lay0 - {t0} else b + 1 == b0 && lay == (lay0 - {t0})[h0 := g]
    ensures Advanced(m0, lay0, t0, h0, b0, m, lay, t, h, b)
  {
    if b == b0 {
      OneSegmentLess(lay0, t0);
    } else {
      SegmentMoves(lay0, t0, h0, g);
    }
  }

  /** After `done` rounds over a dead stretch of the log nothing has changed but the tail. */
  ghost predicate DeadRounds(m0: Mem, lay0: Layout, t0: nat, h0: nat,
                             m: Mem, lay: Layout, t: nat, h: nat, done: nat, n: nat)
    requires |m0.hash| == |m0.off| && done <= n
  {
    DeadAhead(lay0, Indexed(m0), t0, n) ==>
      && m == m0.(tailPub := t) && h == h0 && LaterPart(lay, lay0, t)
      && DeadAhead(lay0, Indexed(m0), t, n - done) && Passed(lay0, t0, n) == Passed(lay0, t, n - done)
  }

  lemma NoRounds(m: Mem, lay: Layout, t: nat, h: nat, n: nat)
    requires |m.hash| == |m.off| && m.tailPub == t
    ensures DeadRounds(m, lay, t, h, m, lay, t, h, 0, n)
  {
    hide DeadAhead;
    hide Passed;
    hide Indexed;
    assert m == m.(tailPub := t);
  }

  lemma OneMoreRound(m0: Mem, lay0: Layout, t0: nat, h0: nat, m1: Mem, lay1: Layout, t1: nat, h1: nat, b1: nat,
                     m: Mem, lay: Layout, t: nat, h: nat, b: nat, done: nat, n: nat)
    requires |m0.hash| == |m0.off| && |m1.hash| == |m1.off| && done < n
    requires DeadRounds(m0, lay0, t0, h0, m1, lay1, t1, h1, done, n)
    requires Advanced(m1, lay1, t1, h1, b1, m, lay, t, h, b) && (t1 in lay1 ==> lay1[t1].len > 0)
    ensures DeadRounds(m0, lay0, t0, h0, m, lay, t, h, done + 1, n)
  {
    if DeadAhead(lay0, Indexed(m0), t0, n) {
      assert Indexed(m1) == Indexed(m0);
      LaterPartNext(lay1, lay0, t1, lay1[t1].len);
    }
  }

  lemma AdvanceCounts(m0: Mem, lay0: Layout, t0: nat, h0: nat, b0: nat, m: Mem, lay: Layout, t: nat, h: nat, b: nat)
    requires |m0.hash| == |m0.off| && Advanced(m0, lay0, t0, h0, b0, m, lay, t, h, b)
    requires DropStep(m0, lay0, t0, h0, b0, m, t, h, b)
    ensures |lay| + b + 1 == |lay0| + b0 && t0 <= t
  {
    hide View;
    hide KeysDiffer;
    hide Count;
  }

  /** What relieving the index has done. `below` and `below'`: whether the index was and is below its
      ceiling; n: the guard. */
  ghost predicate Relieved(m0: Mem, lay0: Layout, t0: nat, h0: nat, m: Mem, lay: Layout, t: nat, h: nat,
                           below: bool, below': bool, n: nat)
    requires |m0.hash| == |m0.off|
  {
    && (below ==> below' && m == m0 && lay == lay0 && t == t0 && h == h0)
    && (|lay0| + SECOND_CHANCES <= n ==> below')
    && (!below && DeadAhead(lay0, Indexed(m0), t0, n) ==>
          !below' && m == m0.(tailPub := t) && h == h0 && LaterPart(lay, lay0, t) && t == Passed(lay0, t0, n))
  }

  lemma RoundsEnd(m0: Mem, lay0: Layout, t0: nat, h0: nat, m: Mem, lay: Layout, t: nat, h: nat, done: nat,
                  below: bool, below': bool, n: nat, budget: nat)
    requires |m0.hash| == |m0.off| && done <= n && DeadRounds(m0, lay0, t0, h0, m, lay, t, h, done, n)
    requires (below ==> done == 0) && (done == 0 ==> m == m0 && lay == lay0 && t == t0 && h == h0)
    requires |lay| + budget + done == |lay0| + SECOND_CHANCES
    requires (m.hash == m0.hash ==> below' == below) && (|lay| == 0 || t >= h ==> below')
    requires below' || t >= h || done == n
    ensures Relieved(m0, lay0, t0, h0, m, lay, t, h, below, below', n)
  {
    hide Indexed;
  }

  /** A block of n bytes, n at most half the region, fits behind the head as it is. */
  predicate Roomy(n: nat, cap: nat, tail: nat, head: nat) {
    cap > 0 && 2 * n <= cap && tail <= head && !Straddles(n, cap, head) && n <= cap - (head - tail)
  }

  /** The tests of the allocation loop: a block that fits as it is needs no round, and whoever lacks room for
      what is left of the region lacks room for the block. */
  lemma AllocationTest(n: nat, cap: nat, tail: nat, head: nat)
    requires HEADER <= n && HEADER <= cap && tail <= head <= tail + cap
    ensures Straddles(n, cap, head) <==> GapAt(Phys(head, cap), cap) != 0 || Phys(head, cap) + n > cap
    ensures Roomy(n, cap, tail, head) <==> 2 * n <= cap && !Straddles(n, cap, head) && n <= cap - (head - tail)
    ensures cap - (head - tail) < (if Straddles(n, cap, head) then cap - Phys(head, cap) else n) ==>
              n > cap - (head - tail)
    ensures head == 0 && 2 * n <= cap ==> Roomy(n, cap, tail, head)
    ensures 0 < GUARD && (Obtainable(n, cap) ==> 2 * n <= cap && RankBound(n) < GUARD)
  {
    PhysZero(cap);
    hide Phys;
    hide RankBound;
  }

  /** What making room for n bytes spares: all bindings when the size is refused below the ceiling or with
      only dead segments in reach; and all of them when the block fits as it is and the index is below its
      ceiling or cannot be relieved. */
  ghost predicate Spared(n: nat, cap: nat, m0: Mem, lay0: Layout, t0: nat, h0: nat, m: Mem, lay: Layout, t: nat,
                         pos: int, below: bool, below': bool, guard: nat)
    requires |m0.hash| == |m0.off|
  {
    && (2 * n > cap && (below || DeadAhead(lay0, Indexed(m0), t0, guard)) ==> m == m0.(tailPub := t))
    && (|lay0| + SECOND_CHANCES <= guard ==> below')
    && (Quiet(n, cap, m0, lay0, t0, h0, below, guard) ==>
          && pos == h0 && m == m0.(tailPub := t) && LaterPart(lay, lay0, t)
          && t == if below then t0 else Passed(lay0, t0, guard))
  }

  /** Nothing that is bound has to go for a set of n bytes. */
  ghost predicate Quiet(n: nat, cap: nat, m: Mem, lay: Layout, tail: nat, head: nat, below: bool, guard: nat)
    requires |m.hash| == |m.off|
  {
    Roomy(n, cap, tail, head) && (below || DeadAhead(lay, Indexed(m), tail, guard))
  }

  lemma RoomIsSpared(n: nat, cap: nat, m0: Mem, lay0: Layout, t0: nat, h0: nat, m1: Mem, lay1: Layout, t1: nat, h1: nat,
                     m: Mem, lay: Layout, t: nat, pos: int, below: bool, below1: bool, below': bool, guard: nat)
    requires |m0.hash| == |m0.off| && m0.tailPub == t0 && t0 <= t1 && (below1 ==> below')
    requires Relieved(m0, lay0, t0, h0, m1, lay1, t1, h1, below, below1, guard)
    requires 2 * n > cap || Roomy(n, cap, t1, h1) ==> m == m1 && lay == lay1 && t == t1
    requires Roomy(n, cap, t1, h1) ==> pos == h1
    requires t1 <= h1
    ensures Spared(n, cap, m0, lay0, t0, h0, m, lay, t, pos, below, below', guard)
  {
    hide Indexed;
    hide DeadAhead;
    hide Passed;
    hide Straddles;
    assert m0 == m0.(tailPub := t0);
  }

  // ------------------------------------------------------------------------- what a set does

  /** Only the predecessor of `key` lost its slot, and only the record at p got one. */
  ghost predicate Rebound(m0: Mem, m: Mem, p: nat, key: seq<byte>)
    requires |m0.hash| == |m0.off| && |m.hash| == |m.off|
  {
    forall q | q in Indexed(m) && q != p :: q in Indexed(m0) && q in m0.book && m0.book[q].key != key
  }

  lemma ReboundBy(m0: Mem, m2: Mem, m: Mem, p: nat, key: seq<byte>)
    requires |m0.hash| == |m0.off| && |m2.hash| == |m2.off| && |m.hash| == |m.off| && m2.book == m0.book
    requires Indexed(m2) <= Indexed(m0) && Indexed(m) <= Indexed(m2) + {p} && key !in Keys(m2)
    requires forall x | 0 <= x < |m2.hash| && m2.hash[x] != EMPTY :: m2.off[x] in m2.book
    ensures Rebound(m0, m, p, key)
  {
    forall q | q in Indexed(m) && q != p
      ensures q in Indexed(m0) && q in m0.book && m0.book[q].key != key
    {
      var x :| 0 <= x < |m2.hash| && m2.hash[x] != EMPTY && m2.off[x] == q;
      assert SlotFor(m2, x, m2.book[q].key);
    }
  }

  /** The record r of n bytes was placed at p in the stead of any earlier entry for `key`. */
  ghost predicate Replaced(m0: Mem, lay0: Layout, live0: nat, m: Mem, lay: Layout, live: nat, p: nat, n: nat,
                           key: seq<byte>, r: Rec) {
    && SameShape(m0, m) && KeysDiffer(m0) && KeysDiffer(m) && View(m) == View(m0)[key := r]
    && Rebound(m0, m, p, key) && lay == lay0[p := Entry(n)] && live <= live0 + 1 && Drifts(m0, m, {r})
  }

  lemma ReplacedBy(m0: Mem, lay0: Layout, live0: nat, m2: Mem, live2: nat, m: Mem, lay: Layout, live: nat,
                   p: nat, n: nat, key: seq<byte>, r: Rec)
    requires SameShape(m0, m2) && SameShape(m2, m) && KeysDiffer(m0) && KeysDiffer(m2) && KeysDiffer(m)
    requires View(m2) == View(m0) || View(m2) == View(m0) - {key}
    requires View(m) == View(m2)[key := r] && m2.book == m0.book && key !in Keys(m2)
    requires Indexed(m2) <= Indexed(m0) && Indexed(m) <= Indexed(m2) + {p}
    requires forall x | 0 <= x < |m2.hash| && m2.hash[x] != EMPTY :: m2.off[x] in m2.book
    requires lay == lay0[p := Entry(n)] && live2 <= live0 && live == live2 + 1
    requires Drifts(m0, m2, {}) && Drifts(m2, m, {r})
    ensures Replaced(m0, lay0, live0, m, lay, live, p, n, key, r)
  {
    hide *;
    ShapeTwice(m0, m2, m);
    ReboundBy(m0, m2, m, p, key);
    DriftsTwice(m0, m2, m, {r});
    ReplacedParts(m0, lay0, live0, m, lay, live, p, n, key, r);
  }

  lemma ReplacedParts(m0: Mem, lay0: Layout, live0: nat, m: Mem, lay: Layout, live: nat, p: nat, n: nat,
                      key: seq<byte>, r: Rec)
    requires SameShape(m0, m) && KeysDiffer(m0) && KeysDiffer(m) && View(m) == View(m0)[key := r]
    requires Rebound(m0, m, p, key) && lay == lay0[p := Entry(n)] && live <= live0 + 1 && Drifts(m0, m, {r})
    ensures Replaced(m0, lay0, live0, m, lay, live, p, n, key, r)
  {
  }

  lemma PlacedDrifts(m0: Mem, m1: Mem, lay1: Layout, live1: nat, m: Mem, lay: Layout, live: nat, p: nat, n: nat,
                     key: seq<byte>, r: Rec)
    requires Shrunk(m0, m1) && Replaced(m1, lay1, live1, m, lay, live, p, n, key, r)
    ensures Drifts(m0, m, {r})
  {
    hide Drifts;
    hide View;
    hide KeysDiffer;
    hide Rebound;
    hide Shrunk;
    ShrunkSubmap(m0, m1);
    DriftsTwice(m0, m1, m, {r});
  }

  lemma PlacedIsDone(m0: Mem, m1: Mem, lay1: Layout, live1: nat, m: Mem, lay: Layout, live: nat, p: nat, n: nat,
                     key: seq<byte>, r: Rec)
    requires Shrunk(m0, m1) && Replaced(m1, lay1, live1, m, lay, live, p, n, key, r)
    ensures SetDone(m0, m, key, r) && |m.hash| == |m.off| == |m0.hash| == |m0.off| && KeysDiffer(m0) && KeysDiffer(m)
    ensures key in View(m) && View(m)[key] == r && Drifts(m0, m, {r})
  {
    hide *;
    PlacedDrifts(m0, m1, lay1, live1, m, lay, live, p, n, key, r);
    ShrunkSubmap(m0, m1);
    ReplacedGives(m1, lay1, live1, m, lay, live, p, n, key, r);
    ShapeTwice(m0, m1, m);
    DoneBySubmap(m0, m1, m, key, r);
  }

  lemma ReplacedGives(m0: Mem, lay0: Layout, live0: nat, m: Mem, lay: Layout, live: nat, p: nat, n: nat,
                      key: seq<byte>, r: Rec)
    requires Replaced(m0, lay0, live0, m, lay, live, p, n, key, r)
    ensures SameShape(m0, m) && |m0.hash| == |m0.off| == |m.hash| == |m.off|
    ensures KeysDiffer(m0) && KeysDiffer(m) && View(m) == View(m0)[key := r]
  {
    hide View;
    hide KeysDiffer;
    hide Rebound;
    hide Drifts;
  }

  lemma DoneBySubmap(m0: Mem, m1: Mem, m: Mem, key: seq<byte>, r: Rec)
    requires |m0.hash| == |m0.off| && |m1.hash| == |m1.off| && |m.hash| == |m.off|
    requires KeysDiffer(m0) && KeysDiffer(m1) && KeysDiffer(m)
    requires Submap(View(m1), View(m0)) && View(m) == View(m1)[key := r]
    ensures SetDone(m0, m, key, r) && key in View(m) && View(m)[key] == r
  {
    hide View;
    hide KeysDiffer;
  }

  /** A set of n bytes that had to evict nothing: the record, or a pad when the index is full, lies at the
      old head, and every other binding and segment is as it was. */
  ghost predicate QuietSet(n: nat, m0: Mem, lay0: Layout, h0: nat, m: Mem, lay: Layout, h: nat,
                           key: seq<byte>, ok: bool)
    requires |m0.hash| == |m0.off| && |m.hash| == |m.off| && KeysDiffer(m0) && KeysDiffer(m)
    requires ok ==> key in View(m)
  {
    && h == h0 + n
    && (forall p | p in lay ::
          if p == h0 then lay[p] == if ok then Entry(n) else Pad(n) else p in lay0 && lay[p] == lay0[p])
    && (if ok then Rebound(m0, m, h0, key) else Indexed(m) == Indexed(m0))
    && View(m) == if ok then View(m0)[key := View(m)[key]] else View(m0)
  }

  /** What a set of n bytes leaves behind, beyond the binding of its key. A size that is refused costs no
      binding below the ceiling, nor when only dead segments are in reach of the guard. With few segments the
      ceiling holds afterwards, and a refusal at the ceiling has cost a binding (RefusedSizeCost). Where
      nothing bound has to go nothing goes, and the set succeeds exactly when the index has a free slot. */
  ghost predicate SetOutcome(n: nat, cap: nat, key: seq<byte>, m0: Mem, lay0: Layout, t0: nat, h0: nat, live0: nat,
                             m: Mem, lay: Layout, t: nat, h: nat, live: nat, maxLive: nat, ok: bool)
    requires |m0.hash| == |m0.off| && |m.hash| == |m.off| && KeysDiffer(m0) && KeysDiffer(m)
    requires ok ==> key in View(m)
  {
    var guard := GuardMax(|m0.hash|);
    && (2 * n > cap && (live0 < maxLive || DeadAhead(lay0, Indexed(m0), t0, guard)) ==> View(m) == View(m0))
    && (|lay0| + SECOND_CHANCES <= guard ==> live <= maxLive && (2 * n > cap ==> live < maxLive))
    && (Quiet(n, cap, m0, lay0, t0, h0, live0 < maxLive, guard) ==>
          && (ok <==> live0 < |m0.hash|) && QuietSet(n, m0, lay0, h0, m, lay, h, key, ok)
          && t == if live0 < maxLive then t0 else Passed(lay0, t0, guard))
  }

  /** The size was refused. */
  lemma RefusedOutcome(n: nat, cap: nat, key: seq<byte>, m0: Mem, lay0: Layout, t0: nat, h0: nat, live0: nat,
                       m: Mem, lay: Layout, t: nat, pos: int, h: nat, live: nat, maxLive: nat)
    requires |m0.hash| == |m0.off| && |m.hash| == |m.off| && KeysDiffer(m0) && KeysDiffer(m) && pos < 0
    requires Spared(n, cap, m0, lay0, t0, h0, m, lay, t, pos, live0 < maxLive, live < maxLive, GuardMax(|m0.hash|))
    requires forall x | 0 <= x < |m0.hash| && m0.hash[x] != EMPTY :: m0.off[x] in m0.book
    ensures SetOutcome(n, cap, key, m0, lay0, t0, h0, live0, m, lay, t, h, live, maxLive, false)
  {
    hide View;
    hide KeysDiffer;
    hide DeadAhead;
    hide Passed;
    hide Indexed;
    hide Straddles;
    if m == m0.(tailPub := t) {
      SameSlotsSameView(m0, m);
    }
  }

  /** The index was full: the block became a pad. */
  lemma FullOutcome(n: nat, cap: nat, key: seq<byte>, m0: Mem, lay0: Layout, t0: nat, h0: nat, live0: nat,
                    m1: Mem, lay1: Layout, pos: nat, m: Mem, lay: Layout, t: nat, live: nat, maxLive: nat)
    requires |m0.hash| == |m0.off| && |m.hash| == |m.off| && KeysDiffer(m0) && KeysDiffer(m)
    requires 2 * n <= cap && |m1.hash| == |m0.hash|
    requires Spared(n, cap, m0, lay0, t0, h0, m1, lay1, t, pos, live0 < maxLive, live < maxLive, GuardMax(|m0.hash|))
    requires m == m1.(data := m.data) && lay == lay1[pos := Pad(n)]
    requires live0 == Count(m0.hash) && Count(m1.hash) == |m0.hash|
    requires forall x | 0 <= x < |m0.hash| && m0.hash[x] != EMPTY :: m0.off[x] in m0.book
    ensures SetOutcome(n, cap, key, m0, lay0, t0, h0, live0, m, lay, t, pos + n, live, maxLive, false)
  {
    hide KeysDiffer;
    hide DeadAhead;
    hide Passed;
    hide Roomy;
    hide Count;
    if Quiet(n, cap, m0, lay0, t0, h0, live0 < maxLive, GuardMax(|m0.hash|)) {
      assert m.hash == m0.hash && m.off == m0.off && m.book == m0.book;
      SameSlotsSameView(m0, m);
    }
  }

  /** The record was placed. */
  lemma PlacedOutcome(n: nat, cap: nat, key: seq<byte>, m0: Mem, lay0: Layout, t0: nat, h0: nat, live0: nat,
                      m1: Mem, lay1: Layout, pos: nat, live1: nat, m: Mem, lay: Layout, t: nat, live: nat, maxLive: nat)
    requires |m0.hash| == |m0.off| && |m.hash| == |m.off| && KeysDiffer(m0) && KeysDiffer(m) && key in View(m)
    requires 2 * n <= cap && |m1.hash| == |m0.hash|
    requires Spared(n, cap, m0, lay0, t0, h0, m1, lay1, t, pos, live0 < maxLive, live1 < maxLive, GuardMax(|m0.hash|))
    requires Replaced(m1, lay1, live1, m, lay, live, pos, n, key, View(m)[key])
    requires live0 == Count(m0.hash) && Count(m1.hash) < |m0.hash|
    requires forall x | 0 <= x < |m0.hash| && m0.hash[x] != EMPTY :: m0.off[x] in m0.book
    ensures SetOutcome(n, cap, key, m0, lay0, t0, h0, live0, m, lay, t, pos + n, live, maxLive, true)
  {
    hide KeysDiffer;
    hide View;
    hide DeadAhead;
    hide Passed;
    hide Roomy;
    hide Count;
    hide Rebound;
    hide QuietSet;
    if Quiet(n, cap, m0, lay0, t0, h0, live0 < maxLive, GuardMax(|m0.hash|)) {
      QuietlyPlaced(n, m0, lay0, h0, m1, lay1, t, m, lay, key);
    }
  }

  lemma QuietlyPlaced(n: nat, m0: Mem, lay0: Layout, h0: nat, m1: Mem, lay1: Layout, t: nat, m: Mem, lay: Layout,
                      key: seq<byte>)
    requires |m0.hash| == |m0.off| && |m.hash| == |m.off| && KeysDiffer(m0) && KeysDiffer(m) && key in View(m)
    requires m1 == m0.(tailPub := t) && LaterPart(lay1, lay0, t) && KeysDiffer(m1)
    requires Rebound(m1, m, h0, key) && lay == lay1[h0 := Entry(n)]
    requires View(m) == View(m1)[key := View(m)[key]]
    requires forall x | 0 <= x < |m0.hash| && m0.hash[x] != EMPTY :: m0.off[x] in m0.book
    ensures QuietSet(n, m0, lay0, h0, m, lay, h0 + n, key, true)
  {
    hide View;
    hide KeysDiffer;
    SameSlotsSameView(m0, m1);
    assert Indexed(m1) == Indexed(m0);
  }

  /** The end of the operation does not matter to the outcome of a set. */
  lemma OutcomeStays(n: nat, cap: nat, key: seq<byte>, m0: Mem, lay0: Layout, t0: nat, h0: nat, live0: nat,
                     m1: Mem, m: Mem, lay: Layout, t: nat, h: nat, live: nat, maxLive: nat, ok: bool)
    requires |m0.hash| == |m0.off| && |m1.hash| == |m1.off| && KeysDiffer(m0) && KeysDiffer(m1)
    requires ok ==> key in View(m1)
    requires SetOutcome(n, cap, key, m0, lay0, t0, h0, live0, m1, lay, t, h, live, maxLive, ok)
    requires m == m1.(retired := m.retired) && KeysDiffer(m) && View(m) == View(m1)
    ensures SetOutcome(n, cap, key, m0, lay0, t0, h0, live0, m, lay, t, h, live, maxLive, ok)
  {
    hide View;
    hide KeysDiffer;
    hide DeadAhead;
    hide Passed;
    hide Roomy;
    hide Straddles;
    assert Indexed(m) == Indexed(m1);
  }

  /** A REFUSED SIZE. With few segments in the log it leaves every binding alone exactly when the index was
      below its ceiling. */
  lemma RefusedSizeCost(n: nat, cap: nat, key: seq<byte>, m0: Mem, lay0: Layout, t0: nat, h0: nat, live0: nat,
                        m: Mem, lay: Layout, t: nat, h: nat, live: nat, maxLive: nat)
    requires |m0.hash| == |m0.off| && |m.hash| == |m.off| && KeysDiffer(m0) && KeysDiffer(m)
    requires forall x | 0 <= x < |m0.hash| && m0.hash[x] != EMPTY :: m0.off[x] in m0.book
    requires forall x | 0 <= x < |m.hash| && m.hash[x] != EMPTY :: m.off[x] in m.book
    requires live0 == Count(m0.hash) && live == Count(m.hash)
    requires 2 * n > cap && |lay0| + SECOND_CHANCES <= GuardMax(|m0.hash|)
    requires SetOutcome(n, cap, key, m0, lay0, t0, h0, live0, m, lay, t, h, live, maxLive, false)
    ensures View(m) == View(m0) <==> live0 < maxLive
  {
    hide View;
    hide KeysDiffer;
    hide Count;
    hide Quiet;
    hide QuietSet;
    CountIsSize(m0);
    CountIsSize(m);
  }

  // ------------------------------------------------------------------ a count of the bindings

  lemma IndexedKeys(m: Mem)
    requires |m.hash| == |m.off| && KeysDiffer(m)
    requires forall x | 0 <= x < |m.hash| && m.hash[x] != EMPTY :: m.off[x] in m.book
    ensures forall q | q in Indexed(m) :: q in m.book && m.book[q].key in View(m).Keys
  {
    hide KeysDiffer;
    hide View;
    forall q | q in Indexed(m)
      ensures q in m.book && m.book[q].key in View(m).Keys
    {
      var x :| 0 <= x < |m.hash| && m.hash[x] != EMPTY && m.off[x] == q;
      assert SlotFor(m, x, m.book[q].key);
    }
  }

  /** The number of occupied slots is the number of bindings. */
  lemma CountIsSize(m: Mem)
    requires |m.hash| == |m.off| && KeysDiffer(m)
    requires forall x | 0 <= x < |m.hash| && m.hash[x] != EMPTY :: m.off[x] in m.book
    ensures |View(m)| == Count(m.hash)
  {
    hide View;
    var slots := Occupied(m.hash, |m.hash|);
    OccupiedCount(m.hash, |m.hash|);
    assert m.hash[..|m.hash|] == m.hash;
    KeysOfSlots(m, slots);
    assert KeysAt(m, slots) == Keys(m) by {
      KeysAtAll(m, slots);
    }
    assert |View(m).Keys| == |View(m)|;
  }

  ghost function Occupied(h: seq<nat>, n: nat): (s: set<nat>)
    requires n <= |h|
  {
    set x: nat | x < n && h[x] != EMPTY
  }

  lemma {:induction false} OccupiedCount(h: seq<nat>, n: nat)
    requires n <= |h|
    ensures |Occupied(h, n)| == Count(h[..n])
  {
    if n > 0 {
      OccupiedCount(h, n - 1);
      var a, c := Occupied(h, n - 1), Ones(h[..n]);
      assert Occupied(h, n) == if h[n - 1] == EMPTY then a else a + {n - 1};
      assert c == Ones(h[..n - 1]) + [if h[n - 1] == EMPTY then 0 else 1];
      SumAppend(Ones(h[..n - 1]), if h[n - 1] == EMPTY then 0 else 1);
    }
  }

  lemma {:induction false} SumAppend(c: seq<nat>, v: nat)
    ensures Sum(c + [v]) == Sum(c) + v
  {
    if c == [] {
      assert [] + [v] == [v] && [v][1..] == [];
    } else {
      assert (c + [v])[1..] == c[1..] + [v];
      SumAppend(c[1..], v);
    }
  }

  ghost predicate BoundSlots(m: Mem, slots: set<nat>) {
    forall x | x in slots :: x < |m.hash| && x < |m.off| && m.hash[x] != EMPTY && m.off[x] in m.book
  }

  ghost function KeysAt(m: Mem, slots: set<nat>): set<seq<byte>>
    requires BoundSlots(m, slots)
  {
    set x | x in slots :: m.book[m.off[x]].key
  }

  lemma {:induction false} KeysOfSlots(m: Mem, slots: set<nat>)
    requires KeysDiffer(m) && BoundSlots(m, slots)
    ensures |KeysAt(m, slots)| == |slots|
    decreases slots
  {
    if slots != {} {
      var x :| x in slots;
      var rest, k := slots - {x}, m.book[m.off[x]].key;
      KeysOfSlots(m, rest);
      assert SlotFor(m, x, k);
      forall y | y in rest
        ensures m.book[m.off[y]].key != k
      {
        assert SlotFor(m, y, m.book[m.off[y]].key);
      }
      assert KeysAt(m, slots) == KeysAt(m, rest) + {k};
    }
  }

  lemma KeysAtAll(m: Mem, slots: set<nat>)
    requires |m.hash| == |m.off| && slots == Occupied(m.hash, |m.hash|) && BoundSlots(m, slots)
    ensures KeysAt(m, slots) == Keys(m)
  {
    forall k
      ensures k in KeysAt(m, slots) <==> k in Keys(m)
    {
      if k in KeysAt(m, slots) {
        var x :| x in slots && m.book[m.off[x]].key == k;
        assert SlotFor(m, x, k);
      }
      if k in Keys(m) {
        var x: nat :| SlotFor(m, x, k);
        assert x in slots;
      }
    }
  }
}
