/** A pass of the sweep may miss an entry: a delete between two slices moves it below the cursor. The pass after
    that finds it, as SurvivesFewPasses in Lifetimes promises. */
module MissedSweep {
  import opened Bytes
  import opened Wrapping
  import opened Records
  import opened Probing
  import opened SharedMemory
  import opened Expiry
  import opened LogLayout
  import opened ArenaState
  import opened Shifting
  import opened ArenaSteps
  import opened Relief
  import opened Arenas
  import opened Pressure
  import opened Lifetimes

  const A: seq<byte> := [0]
  const B: seq<byte> := [1]

  /** Both keys have their home at slot 2. */
  function HomeTwo(key: seq<byte>): nat {
    if key == A then 2 else 18
  }

  lemma Homes()
    ensures Home(HashOf(HomeTwo, A), SLOTS) == Home(HashOf(HomeTwo, B), SLOTS) == 2
    ensures HashOf(HomeTwo, A) != HashOf(HomeTwo, B)
  {
  }

  /** The key is bound at slot x. */
  ghost predicate BoundAt(m: Mem, key: seq<byte>, x: nat) {
    |m.hash| == |m.off| == SLOTS && SlotFor(m, x, key)
  }

  /** One key alone is bound at its home. */
  lemma AloneAtTwo(m: Mem, lay: Layout, tail: nat, head: nat, inserts: nat, key: seq<byte>)
    requires ArenaInv(HomeTwo, m, lay, tail, head, inserts) && |m.hash| == |m.off| == SLOTS && KeysDiffer(m)
    requires View(m).Keys == {key} && (key == A || key == B)
    ensures BoundAt(m, key, 2) && forall x: nat | x < SLOTS && x != 2 :: m.hash[x] == EMPTY
  {
    hide ArenaInv;
    hide HashOf;
    hide Home;
    hide View;
    hide KeysDiffer;
    Homes();
    OnlyKeyAtHome(HomeTwo, m, lay, tail, head, inserts, key);
    SlotsPointAtRecords(HomeTwo, m, lay, tail, head, inserts);
    forall x: nat | x < SLOTS && m.hash[x] != EMPTY
      ensures x == 2 && SlotFor(m, x, key)
    {
      SlotIsBinding(m, x);
      SlotIsBinding(m, 2);
      OneSlot(m, x, 2, key);
    }
  }

  lemma OneSlot(m: Mem, x: nat, y: nat, key: seq<byte>)
    requires KeysDiffer(m) && SlotFor(m, x, key) && SlotFor(m, y, key)
    ensures x == y
  {
  }

  /** What came closest to home stays there. */
  lemma StaysAtTwo(m0: Mem, m: Mem, r: Rec, x: nat)
    requires |m0.hash| == |m0.off| == SLOTS && forall y: nat | y < SLOTS && y != 2 :: m0.hash[y] == EMPTY
    requires Drifts(m0, m, {r}) && x < |m.hash| && m.hash[x] != EMPTY && m.off[x] in m.book && m.book[m.off[x]] != r
    requires Home(m.hash[x], SLOTS) == 2
    ensures x == 2
  {
    hide Home;
    var y: nat :| Kept(m0, m, x, y);
  }

  /** An entry with its home at 2 sits right behind it when all else is empty. */
  lemma RightBehindTwo(h: seq<nat>, y: nat)
    requires |h| == SLOTS && Reachable(h) && y < SLOTS && h[y] != EMPTY && y != 2 && Home(h[y], SLOTS) == 2
    requires forall z: nat | z < SLOTS && z != 2 && z != y :: h[z] == EMPTY
    ensures y == 3
  {
    hide Home;
    hide Unbroken;
    NoGapBefore(h, 3, y);
    assert Dist(2, 3, SLOTS) == 1;
  }

  lemma NoGapBefore(h: seq<nat>, x: nat, y: nat)
    requires Reachable(h) && x < |h| && y < |h|
    ensures h[x] == EMPTY != h[y] ==> !(Dist(Home(h[y], |h|), x, |h|) < Displacement(h[y], y, |h|))
  {
  }

  /** The second key, which finds the home taken, is bound behind it. */
  lemma BesideAtThree(m0: Mem, m: Mem, r: Rec, lay: Layout, tail: nat, head: nat, inserts: nat)
    requires |m0.hash| == |m0.off| == SLOTS && forall x: nat | x < SLOTS && x != 2 :: m0.hash[x] == EMPTY
    requires |m.hash| == |m.off| == SLOTS && KeysDiffer(m) && Drifts(m0, m, {r}) && r.key == B
    requires ArenaInv(HomeTwo, m, lay, tail, head, inserts) && View(m).Keys == {A, B}
    ensures BoundAt(m, A, 2) && BoundAt(m, B, 3) && forall x: nat | x < SLOTS && x != 2 && x != 3 :: m.hash[x] == EMPTY
  {
    hide ArenaInv;
    hide HashOf;
    hide View;
    hide KeysDiffer;
    hide Drifts;
    hide Home;
    hide Reachable;
    Homes();
    SlotsPointAtRecords(HomeTwo, m, lay, tail, head, inserts);
    var x := BindingIsSlot(m, A);
    var y := BindingIsSlot(m, B);
    SlotIsKeyed(m, x, A);
    SlotIsKeyed(m, y, B);
    StaysAtTwo(m0, m, r, x);
    forall z: nat | z < SLOTS && m.hash[z] != EMPTY
      ensures z == x || z == y
    {
      SlotIsBinding(m, z);
      OneSlot(m, z, if m.book[m.off[z]].key == A then x else y, m.book[m.off[z]].key);
    }
    RightBehindTwo(m.hash, y);
  }

  lemma SlotIsKeyed(m: Mem, x: nat, k: seq<byte>)
    requires |m.hash| == |m.off| && KeysDiffer(m) && k in View(m)
    requires x < |m.hash| && m.hash[x] != EMPTY && m.off[x] in m.book && View(m)[k] == m.book[m.off[x]]
    ensures m.book[m.off[x]].key == k && SlotFor(m, x, k)
  {
    hide KeysDiffer;
    var y: nat :| SlotFor(m, y, k);
  }

  // ------------------------------------------------------------------------------- the run

  lemma RunNumbers()
    ensures 16 <= SLOTS <= SLOT_PAD && 4096 <= REGION && REGION % 8 == 0 && |A| == |B| == 1 && A != B
    ensures 1 + 0 <= 1000 && Align8(HEADER + 1 + 0) == SMALL <= REGION / 4 && SMALL < TWO_32 && 1 < TWO_16 && 0 < TWO_32
    ensures 2 * SMALL <= REGION / 2 && 2 < CEILING < SLOTS == 16 && SLOTS * 3 / 4 == CEILING && 100 < HALF
  {
  }

  /** Sets a key of one byte to the empty value, early in the life of an arena. */
  method SetOne(c: TimedArena, key: seq<byte>, ttlMs: nat, t: nat) returns (ghost r: Rec)
    requires c.Valid() && c.arena.hash.Length == SLOTS && c.arena.data.Length == REGION && |key| == 1
    requires c.arena.live < CEILING && c.arena.logHead <= REGION / 2 && c.time <= t
    modifies c`time, c`due, c.arena, c.arena.hash, c.arena.off, c.arena.hints, c.arena.data, c.arena.ring
    ensures c.Valid() && c.time == t && c.arena.inserts == old(c.arena.inserts) + 1 == r.id && r.key == key
    ensures c.arena.logHead <= old(c.arena.logHead) + SMALL
    ensures |c.arena.m.hash| == |c.arena.m.off| == |old(c.arena.m).hash| == |old(c.arena.m).off| == SLOTS
    ensures KeysDiffer(c.arena.m) && KeysDiffer(old(c.arena.m))
    ensures View(c.arena.m) == View(old(c.arena.m))[key := r] && Drifts(old(c.arena.m), c.arena.m, {r})
    ensures c.due == DueAfter(old(c.due), c.arena.inserts, t, ttlMs)
  {
    hide *;
    RunNumbers();
    c.Parts();
    ghost var a := c.arena;
    a.PartsOfValid();
    LayoutOf(a.hashFn, a.m, a.lay, a.logTail, a.logHead, a.inserts);
    LogBounds(a.data.Length, a.lay, a.logTail, a.logHead);
    ghost var m0, lay0, t0, h0, live0 := a.m, a.lay, a.logTail, a.logHead, a.live;
    BelowIsQuiet(SMALL, m0, lay0, t0, h0);
    var ok := c.Set(key, [], 0, 0, ttlMs, 0, t);
    c.Parts();
    a.PartsOfValid();
    QuietOutcome(SMALL, REGION, key, m0, lay0, t0, h0, live0, a.m, a.lay, a.logTail, a.logHead, a.live, a.maxLive, ok);
    r := View(a.m)[key];
    QuietSetParts(SMALL, m0, lay0, h0, a.m, a.lay, a.logHead, key);
    KeyOfBinding(a.m, key);
  }

  lemma KeyOfBinding(m: Mem, k: seq<byte>)
    requires |m.hash| == |m.off| && KeysDiffer(m) && k in View(m)
    ensures View(m)[k].key == k
  {
    hide KeysDiffer;
    var x: nat :| SlotFor(m, x, k);
  }

  /** A is bound at its home and B behind it; nothing else is bound. */
  ghost predicate Pair(m: Mem, a: Rec, b: Rec) {
    && BoundAt(m, A, 2) && m.book[m.off[2]] == a && BoundAt(m, B, 3) && m.book[m.off[3]] == b
    && forall x: nat | x < SLOTS && x != 2 && x != 3 :: m.hash[x] == EMPTY
  }

  lemma PairOf(m: Mem, a: Rec, b: Rec)
    requires |m.hash| == |m.off| && KeysDiffer(m) && View(m) == map[A := a, B := b]
    requires BoundAt(m, A, 2) && BoundAt(m, B, 3) && forall x: nat | x < SLOTS && x != 2 && x != 3 :: m.hash[x] == EMPTY
    ensures Pair(m, a, b)
  {
    hide View;
    hide KeysDiffer;
    ViewHas(m, 2, A);
    ViewHas(m, 3, B);
  }

  /** No slot of the slice holds an entry that is overdue. */
  ghost predicate NoneDue(m: Mem, due: map<nat, nat>, from: nat, slice: nat, t: nat) {
    forall x: nat | from <= x < from + slice :: !OverdueAt(m, due, x, t)
  }

  lemma NothingToSweep(m: Mem, inserts: nat, due: map<nat, nat>, swept: nat, time: nat, from: nat, slice: nat, t: nat)
    requires |m.hash| == |m.off| && KeysDiffer(m) && Alive(View(m), inserts, due, swept, time)
    requires time <= t < swept + HALF && NoneDue(m, due, from, slice, t)
    ensures NoneToSweep(m, from, slice, Clock(t))
  {
    hide Clock;
    hide View;
    hide KeysDiffer;
    hide Alive;
    hide Expired;
    forall x: nat | from <= x < from + slice && x < |m.hash| && m.hash[x] != EMPTY && m.off[x] in m.book
      ensures !Expired(m.book[m.off[x]].expiresAt, Clock(t))
    {
      assert !OverdueAt(m, due, x, t);
      SlotIsBinding(m, x);
      ExpiredMeansOverdue(View(m), inserts, due, swept, time, m.book[m.off[x]].key, t);
    }
  }

  lemma RetiringKeepsView(m: Mem, m': Mem)
    requires |m.hash| == |m.off| && KeysDiffer(m) && m' == m.(retired := m'.retired)
    ensures KeysDiffer(m') && View(m') == View(m)
  {
    assert forall x: nat, k :: SlotFor(m', x, k) <==> SlotFor(m, x, k);
    hide SlotFor;
    forall k
      ensures k in View(m') <==> k in View(m)
      ensures k in View(m') ==> View(m')[k] == View(m)[k]
    {
      if k in View(m) {
        var x: nat :| SlotFor(m, x, k);
        assert SlotFor(m', x, k);
      }
    }
  }

  /** A tick that finds nothing to remove. */
  method QuietTick(c: TimedArena, slice: nat, t: nat) returns (done: bool)
    requires c.Valid() && slice > 0 && c.time <= t < c.swept + HALF && c.cursor < c.arena.hash.Length
    requires NoneDue(c.arena.m, c.due, c.cursor, slice, t)
    modifies c`time, c`swept, c`cursor, c`begun, c`ranks
    modifies c.arena, c.arena.hash, c.arena.off, c.arena.hints, c.arena.data, c.arena.ring
    ensures c.Valid() && c.time == t && c.swept >= old(c.swept)
    ensures done == (old(c.cursor) + slice >= c.arena.hash.Length)
    ensures c.cursor == if done then 0 else old(c.cursor) + slice
    ensures c.begun == old(c.begun) + if done then [t] else []
    ensures |c.arena.m.hash| == |c.arena.m.off| && |old(c.arena.m).hash| == |old(c.arena.m).off|
    ensures KeysDiffer(c.arena.m) && KeysDiffer(old(c.arena.m)) && View(c.arena.m) == View(old(c.arena.m))
    ensures c.arena.m == old(c.arena.m).(retired := c.arena.m.retired)
  {
    hide *;
    c.Parts();
    ghost var m0 := c.arena.m;
    NothingToSweep(m0, c.arena.inserts, c.due, c.swept, c.time, c.cursor, slice, t);
    var removed;
    removed, done := c.Tick(slice, t);
    c.Parts();
    RetiringKeepsView(m0, c.arena.m);
  }

  /** A is bound for good, at time 0. */
  method FirstKey() returns (c: TimedArena, ghost a: Rec)
    ensures c.Valid() && c.time == c.swept == c.cursor == 0 && c.begun == [0] && c.due == map[]
    ensures a.id == c.arena.inserts
    ensures fresh(c) && fresh(c.arena) && fresh(c.arena.hash) && fresh(c.arena.off) && fresh(c.arena.hints)
    ensures fresh(c.arena.data) && fresh(c.arena.ring)
    ensures c.arena.hash.Length == SLOTS && c.arena.data.Length == REGION && c.arena.hashFn == HomeTwo
    ensures c.arena.live < CEILING && c.arena.logHead <= REGION / 2
    ensures |c.arena.m.hash| == |c.arena.m.off| && KeysDiffer(c.arena.m) && View(c.arena.m) == map[A := a]
    ensures BoundAt(c.arena.m, A, 2) && forall x: nat | x < SLOTS && x != 2 :: c.arena.m.hash[x] == EMPTY
  {
    hide *;
    RunNumbers();
    c := new TimedArena(HomeTwo, SLOTS, REGION, 16, 0);
    a := SetOne(c, A, 0, 0);
    c.Parts();
    AloneInArena(c.arena, A);
    LiveIsSize(c.arena);
    DueNumbers(a.id);
  }

  lemma AloneInArena(a: Arena, key: seq<byte>)
    requires a.Valid() && a.hashFn == HomeTwo && a.hash.Length == SLOTS && (key == A || key == B)
    requires |a.m.hash| == |a.m.off| && KeysDiffer(a.m) && View(a.m).Keys == {key}
    ensures BoundAt(a.m, key, 2) && forall x: nat | x < SLOTS && x != 2 :: a.m.hash[x] == EMPTY
  {
    hide *;
    a.PartsOfValid();
    AloneAtTwo(a.m, a.lay, a.logTail, a.logHead, a.inserts, key);
  }

  lemma PairInArena(a: Arena, m0: Mem, r0: Rec, r: Rec)
    requires a.Valid() && a.hashFn == HomeTwo && a.hash.Length == SLOTS && r.key == B
    requires |m0.hash| == |m0.off| == SLOTS && forall x: nat | x < SLOTS && x != 2 :: m0.hash[x] == EMPTY
    requires |a.m.hash| == |a.m.off| && KeysDiffer(a.m) && View(a.m) == map[A := r0, B := r] && Drifts(m0, a.m, {r})
    ensures Pair(a.m, r0, r)
  {
    hide *;
    RunNumbers();
    a.PartsOfValid();
    BesideAtThree(m0, a.m, r, a.lay, a.logTail, a.logHead, a.inserts);
    PairOf(a.m, r0, r);
  }

  /** And B for one millisecond, at the same time. */
  method TwoKeys() returns (c: TimedArena, ghost a: Rec, ghost b: Rec)
    ensures c.Valid() && c.time == c.swept == c.cursor == 0 && c.begun == [0] && c.due == map[b.id := 1] && a.id != b.id
    ensures fresh(c) && fresh(c.arena) && fresh(c.arena.hash) && fresh(c.arena.off) && fresh(c.arena.hints)
    ensures fresh(c.arena.data) && fresh(c.arena.ring) && c.arena.hash.Length == SLOTS && c.arena.hashFn == HomeTwo
    ensures |c.arena.m.hash| == |c.arena.m.off| && KeysDiffer(c.arena.m) && View(c.arena.m) == map[A := a, B := b]
    ensures Pair(c.arena.m, a, b)
  {
    hide *;
    RunNumbers();
    c, a := FirstKey();
    ghost var m0 := c.arena.m;
    b := SetOne(c, B, 1, 0);
    c.Parts();
    PairInArena(c.arena, m0, a, b);
    DueNumbers(b.id);
  }

  lemma DueNumbers(i: nat)
    ensures DueAfter(map[], i, 0, 0) == map[] && DueAfter(map[], i, 0, 1) == map[i := 1]
  {
  }

  /** Which slots may be swept when, without finding anything. */
  lemma PairIsNotDue(m: Mem, a: Rec, b: Rec)
    requires Pair(m, a, b) && a.id != b.id
    ensures var due := map[b.id := 1]; NoneDue(m, due, 0, 4, 0) && NoneDue(m, due, 4, 12, 1) && NoneDue(m, due, 0, 3, 2)
  {
  }

  lemma AloneIsNotDue(m: Mem, due: map<nat, nat>)
    requires BoundAt(m, B, 2) && forall x: nat | x < SLOTS && x != 2 :: m.hash[x] == EMPTY
    ensures NoneDue(m, due, 3, 13, 3)
  {
  }

  lemma PairStays(m: Mem, m': Mem, a: Rec, b: Rec)
    requires Pair(m, a, b) && m' == m.(retired := m'.retired)
    ensures Pair(m', a, b)
  {
  }

  /** The first pass, in two slices; the second begins at time 1. */
  method FirstPass(c: TimedArena, ghost a: Rec, ghost b: Rec)
    requires c.Valid() && c.arena.hash.Length == SLOTS && c.time == c.swept == c.cursor == 0 && c.begun == [0]
    requires c.due == map[b.id := 1] && a.id != b.id && Pair(c.arena.m, a, b)
    modifies c`time, c`swept, c`cursor, c`begun, c`ranks
    modifies c.arena, c.arena.hash, c.arena.off, c.arena.hints, c.arena.data, c.arena.ring
    ensures c.Valid() && c.time == 1 && c.cursor == 0 && c.begun == [0, 1] && Pair(c.arena.m, a, b)
    ensures |c.arena.m.hash| == |c.arena.m.off| && |old(c.arena.m).hash| == |old(c.arena.m).off|
    ensures KeysDiffer(c.arena.m) && KeysDiffer(old(c.arena.m)) && View(c.arena.m) == View(old(c.arena.m))
  {
    hide *;
    RunNumbers();
    PairIsNotDue(c.arena.m, a, b);
    ghost var m := c.arena.m;
    var done := QuietTick(c, 4, 0);
    PairStays(m, c.arena.m, a, b);
    PairIsNotDue(c.arena.m, a, b);
    m := c.arena.m;
    done := QuietTick(c, 12, 1);
    PairStays(m, c.arena.m, a, b);
  }

  /** A MISSED ENTRY. B is overdue when the second pass begins, at time 1. The pass has looked at the slots 0 to 2
      when A is removed from slot 2 and B moves there. At the end of the pass B is still bound. */
  method MissedEntry() returns (c: TimedArena)
    ensures c.Valid() && c.begun == [0, 1, 3] && c.cursor == 0
    ensures |c.arena.m.hash| == |c.arena.m.off| && KeysDiffer(c.arena.m)
    ensures B in View(c.arena.m) && Overdue(View(c.arena.m)[B], c.due, c.begun[1])
  {
    hide *;
    RunNumbers();
    ghost var a, b;
    c, a, b := TwoKeys();
    FirstPass(c, a, b);
    PairIsNotDue(c.arena.m, a, b);
    var done := QuietTick(c, 3, 2);
    var had := c.Delete(A, 0, 2);
    c.Parts();
    AloneInArena(c.arena, B);
    AloneIsNotDue(c.arena.m, c.due);
    done := QuietTick(c, 13, 3);
    BIsDue(b);
  }

  lemma BIsDue(b: Rec)
    ensures Overdue(b, map[b.id := 1], 1)
  {
  }
}
