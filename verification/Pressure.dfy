/** Two arenas at the limits of their index. In one a set that is refused for its size loses a binding. In the
    other the loop that relieves the index passes nothing but dead segments, so that the index grows past its
    ceiling until every slot is taken and a set of a new key is refused. */
module Pressure {
  import opened Bytes
  import opened Wrapping
  import opened Records
  import opened Probing
  import opened SharedMemory
  import opened LogLayout
  import opened ArenaState
  import opened Allocation
  import opened ArenaSteps
  import opened Relief
  import opened Arenas

  const SLOTS: nat := 16
  const CEILING: nat := 12
  const REGION: nat := 0x1_0000
  /** A key that is not among the first ones. */
  const OTHER: byte := 255
  /** The block of an entry with a key of one byte and no value. */
  const SMALL: nat := 48
  /** The segments that one call of the relieving loop can pass. */
  const REACH: nat := 96

  /** The keys of one byte below n. */
  ghost function FirstKeys(n: nat): (s: set<seq<byte>>)
    requires n <= 256
    ensures |s| == n && forall k | k in s :: |k| == 1 && k[0] < n
  {
    if n == 0 then {} else FirstKeys(n - 1) + {[n - 1]}
  }

  /** Every segment takes SMALL bytes, the bound keys are the first n, and what the slots point at starts at
      `from` or later. */
  ghost predicate Uniform(m: Mem, lay: Layout, head: nat, live: nat, from: nat, n: nat) {
    && |m.hash| == |m.off| == SLOTS && KeysDiffer(m) && n <= SLOTS && live == n && View(m).Keys == FirstKeys(n)
    && (forall p | p in lay :: lay[p].len == SMALL)
    && (forall q | q in Indexed(m) :: from <= q) && from <= head
  }

  lemma {:induction false} DeadStretch(cap: nat, lay: Layout, bound: set<nat>, tail: nat, head: nat, p: nat, n: nat)
    requires LogInv(cap, lay, tail, head) && (p == head || p in lay) && p + SMALL * n <= head
    requires (forall q | q in lay :: lay[q].len == SMALL) && (forall q | q in bound :: p + SMALL * n <= q)
    ensures DeadAhead(lay, bound, p, n) && Passed(lay, p, n) == p + SMALL * n
    decreases n
  {
    hide SegOk;
    if n > 0 {
      assert Chained(lay, head, p);
      DeadStretch(cap, lay, bound, tail, head, p + SMALL, n - 1);
    }
  }

  lemma EarlyIsRoomy(n: nat, tail: nat, head: nat)
    requires n <= REGION / 4 && tail <= head <= REGION / 2
    ensures Roomy(n, REGION, tail, head)
  {
  }

  /** A set of a small key before anything has to go: nothing does. */
  lemma SetIsQuiet(m: Mem, lay: Layout, tail: nat, head: nat, live: nat, from: nat, n: nat)
    requires Uniform(m, lay, head, live, from, n) && LogInv(REGION, lay, tail, head) && head <= REGION / 2
    requires n < CEILING || tail + SMALL * REACH <= from
    ensures Quiet(SMALL, REGION, m, lay, tail, head, live < CEILING, REACH)
    ensures n >= CEILING ==> Passed(lay, tail, REACH) == tail + SMALL * REACH
  {
    hide View;
    hide KeysDiffer;
    hide Roomy;
    LogBounds(REGION, lay, tail, head);
    EarlyIsRoomy(SMALL, tail, head);
    if n >= CEILING {
      DeadStretch(REGION, lay, Indexed(m), tail, head, tail, REACH);
    }
  }

  lemma KeysAfter(v0: map<seq<byte>, Rec>, v: map<seq<byte>, Rec>, k: byte, n: nat, ok: bool)
    requires n <= SLOTS && v0.Keys == FirstKeys(n) && (k == n || (k == 0 && n == 1 && ok))
    requires if ok then [k] in v && v == v0[[k] := v[[k]]] else v == v0
    ensures v.Keys == FirstKeys(if k == n && ok then n + 1 else n) && |v| == if k == n && ok then n + 1 else n
  {
    if ok && k == n {
      assert v.Keys == v0.Keys + {[k]} == FirstKeys(n + 1);
    } else if ok {
      assert FirstKeys(1) == FirstKeys(0) + {[0]};
      assert v.Keys == v0.Keys;
    }
    assert |v.Keys| == |v|;
  }

  /** The small key k was set, for the first time or again. */
  lemma UniformStays(m0: Mem, lay0: Layout, head0: nat, live0: nat, from: nat, n: nat,
                     m: Mem, lay: Layout, head: nat, live: nat, k: byte, ok: bool)
    requires |m0.hash| == |m0.off| && KeysDiffer(m0) && |m.hash| == |m.off| == SLOTS && KeysDiffer(m)
    requires (ok ==> [k] in View(m)) && QuietSet(SMALL, m0, lay0, head0, m, lay, head, [k], ok)
    requires (k == n && (ok <==> n < SLOTS)) || (k == 0 && n == 1 && ok)
    requires Uniform(m0, lay0, head0, live0, from, n) && live == Count(m.hash)
    requires forall x | 0 <= x < |m.hash| && m.hash[x] != EMPTY :: m.off[x] in m.book
    requires forall x | 0 <= x < |m0.hash| && m0.hash[x] != EMPTY :: m0.off[x] in m0.book
    ensures Uniform(m, lay, head, live, if k == n then from else head0, if k == n && ok then n + 1 else n)
  {
    hide View;
    hide Keys;
    hide KeysDiffer;
    hide Count;
    hide Rebound;
    hide Indexed;
    hide FirstKeys;
    KeysAfter(View(m0), View(m), k, n, ok);
    CountIsSize(m);
    if ok {
      OnlyNewer(m0, m, head0, from, k, n);
    }
  }

  lemma OnlyNewer(m0: Mem, m: Mem, p: nat, from: nat, k: byte, n: nat)
    requires |m.hash| == |m.off| && |m0.hash| == |m0.off| && KeysDiffer(m0) && Rebound(m0, m, p, [k])
    requires n <= SLOTS && View(m0).Keys == FirstKeys(n) && (k == n || (k == 0 && n == 1)) && from <= p
    requires forall q | q in Indexed(m0) :: from <= q
    requires forall x | 0 <= x < |m0.hash| && m0.hash[x] != EMPTY :: m0.off[x] in m0.book
    ensures forall q | q in Indexed(m) :: (if k == n then from else p) <= q
  {
    hide KeysDiffer;
    hide View;
    IndexedKeys(m0);
  }

  ghost predicate Small(a: Arena, from: nat, n: nat)
    reads a, a.hash, a.off, a.data, a.ring
  {
    && a.Valid() && a.hash.Length == SLOTS && a.data.Length == REGION
    && Uniform(a.m, a.lay, a.logHead, a.live, from, n)
  }

  /** What the outcome of a set says when nothing has to go. */
  lemma QuietOutcome(n: nat, cap: nat, key: seq<byte>, m0: Mem, lay0: Layout, t0: nat, h0: nat, live0: nat,
                     m: Mem, lay: Layout, t: nat, h: nat, live: nat, maxLive: nat, ok: bool)
    requires |m0.hash| == |m0.off| && |m.hash| == |m.off| && KeysDiffer(m0) && KeysDiffer(m) && (ok ==> key in View(m))
    requires SetOutcome(n, cap, key, m0, lay0, t0, h0, live0, m, lay, t, h, live, maxLive, ok)
    requires Quiet(n, cap, m0, lay0, t0, h0, live0 < maxLive, GuardMax(|m0.hash|))
    ensures (ok <==> live0 < |m0.hash|) && QuietSet(n, m0, lay0, h0, m, lay, h, key, ok)
    ensures t == (if live0 < maxLive then t0 else Passed(lay0, t0, GuardMax(|m0.hash|))) && h == h0 + n
  {
  }

  lemma QuietSetParts(n: nat, m0: Mem, lay0: Layout, h0: nat, m: Mem, lay: Layout, h: nat, key: seq<byte>)
    requires |m0.hash| == |m0.off| && |m.hash| == |m.off| && KeysDiffer(m0) && KeysDiffer(m) && key in View(m)
    requires QuietSet(n, m0, lay0, h0, m, lay, h, key, true)
    ensures Rebound(m0, m, h0, key) && View(m) == View(m0)[key := View(m)[key]]
  {
    hide View;
    hide KeysDiffer;
    hide Rebound;
  }

  lemma BelowIsQuiet(n: nat, m: Mem, lay: Layout, tail: nat, head: nat)
    requires |m.hash| == |m.off| && n <= REGION / 4 && tail <= head <= REGION / 2
    ensures Quiet(n, REGION, m, lay, tail, head, true, GuardMax(|m.hash|))
  {
    EarlyIsRoomy(n, tail, head);
  }

  lemma ModestNumbers(n: nat)
    requires n <= 1000
    ensures Align8(HEADER + n) <= REGION / 4 && Align8(HEADER + n) <= n + 47 && REGION / 4 < TWO_32 && 1000 < TWO_16
    ensures SLOTS * 3 / 4 == CEILING < SLOTS
  {
  }

  /** A set in the first half of a log that has wrapped nowhere, below the ceiling: it succeeds and evicts
      nothing. */
  method SetEarly(a: Arena, key: seq<byte>, val: seq<byte>, rawLen: nat, flags: byte, expiresAt: nat, writerId: nat)
    returns (ghost r: Rec)
    requires a.Valid() && a.hash.Length == SLOTS && a.data.Length == REGION
    requires a.live < CEILING && a.logHead <= REGION / 2
    requires |key| + |val| <= 1000 && rawLen < TWO_32 && expiresAt < TWO_32
    modifies a, a.hash, a.off, a.hints, a.data, a.ring
    ensures a.Valid() && old(a.trace) <= a.trace && a.inserts == old(a.inserts) + 1
    ensures a.logTail == old(a.logTail) && a.logHead <= old(a.logHead) + |key| + |val| + 47
    ensures |old(a.m).hash| == |old(a.m).off| == |a.m.hash| == |a.m.off| == SLOTS
    ensures KeysDiffer(old(a.m)) && KeysDiffer(a.m) && View(a.m) == View(old(a.m))[key := r]
    ensures Carries(r, key, val, rawLen, flags, expiresAt, a.inserts)
    ensures Rebound(old(a.m), a.m, old(a.logHead), key)
  {
    hide *;
    a.PartsOfValid();
    LayoutOf(a.hashFn, a.m, a.lay, a.logTail, a.logHead, a.inserts);
    LogBounds(a.data.Length, a.lay, a.logTail, a.logHead);
    ModestNumbers(|key| + |val|);
    ghost var need := Align8(HEADER + |key| + |val|);
    ghost var m0, lay0, t0, h0, live0 := a.m, a.lay, a.logTail, a.logHead, a.live;
    BelowIsQuiet(need, m0, lay0, t0, h0);
    var ok := a.StoreSet(key, val, rawLen, flags, expiresAt, writerId);
    a.PartsOfValid();
    QuietOutcome(need, REGION, key, m0, lay0, t0, h0, live0, a.m, a.lay, a.logTail, a.logHead, a.live, a.maxLive, ok);
    r := View(a.m)[key];
    QuietSetParts(need, m0, lay0, h0, a.m, a.lay, a.logHead, key);
  }

  lemma SmallParts(a: Arena, from: nat, n: nat)
    requires Small(a, from, n)
    ensures a.Valid() && a.hash.Length == SLOTS && a.data.Length == REGION && n == a.live <= SLOTS
    ensures Uniform(a.m, a.lay, a.logHead, a.live, from, n)
  {
  }

  lemma SmallAgain(a: Arena, from: nat, n: nat)
    requires a.Valid() && a.hash.Length == SLOTS && a.data.Length == REGION
    requires Uniform(a.m, a.lay, a.logHead, a.live, from, n)
    ensures Small(a, from, n)
  {
  }

  lemma SmallNumbers()
    ensures Align8(HEADER + 1 + 0) == SMALL < TWO_32 && 1 < TWO_16
    ensures GuardMax(SLOTS) == REACH && SLOTS * 3 / 4 == CEILING < SLOTS < 256
  {
  }

  /** Sets the key k to the empty value. */
  method SetKey(a: Arena, k: byte, ghost from: nat, ghost n: nat) returns (ok: bool)
    requires Small(a, from, n) && a.logHead <= REGION / 2 && (k == n || (k == 0 && n == 1))
    requires n < CEILING || a.logTail + SMALL * REACH <= from
    modifies a, a.hash, a.off, a.hints, a.data, a.ring
    ensures ok <==> n < SLOTS
    ensures Small(a, if k == n then from else old(a.logHead), if k == n && ok then n + 1 else n)
    ensures a.logHead == old(a.logHead) + SMALL
    ensures a.logTail == old(a.logTail) + if n < CEILING then 0 else SMALL * REACH
  {
    hide *;
    SmallParts(a, from, n);
    a.PartsOfValid();
    LayoutOf(a.hashFn, a.m, a.lay, a.logTail, a.logHead, a.inserts);
    SlotsAllBound(a.hashFn, a.m, a.lay, a.logTail, a.logHead, a.inserts);
    SetIsQuiet(a.m, a.lay, a.logTail, a.logHead, a.live, from, n);
    SmallNumbers();
    ghost var m0, lay0, t0, h0, live0 := a.m, a.lay, a.logTail, a.logHead, a.live;
    ok := a.StoreSet([k], [], 0, 0, 0, 0);
    a.PartsOfValid();
    SlotsAllBound(a.hashFn, a.m, a.lay, a.logTail, a.logHead, a.inserts);
    QuietOutcome(SMALL, REGION, [k], m0, lay0, t0, h0, live0, a.m, a.lay, a.logTail, a.logHead, a.live, a.maxLive, ok);
    UniformStays(m0, lay0, h0, live0, from, n, a.m, a.lay, a.logHead, a.live, k, ok);
    SmallAgain(a, if k == n then from else h0, if k == n && ok then n + 1 else n);
  }

  /** An arena where the key 0 was set over and over: one live entry behind a long dead stretch. */
  method OverwrittenOften(f: seq<byte> -> nat) returns (a: Arena)
    ensures fresh(a) && fresh(a.hash) && fresh(a.off) && fresh(a.hints) && fresh(a.data) && fresh(a.ring)
    ensures Small(a, SMALL * 599, 1) && a.logHead == SMALL * 600 && a.logTail == 0
  {
    a := EmptyArena(f);
    hide Small;
    var ok := SetKey(a, 0, 0, 0);
    var i := 1;
    while i < 600
      invariant 1 <= i <= 600
      invariant fresh(a) && fresh(a.hash) && fresh(a.off) && fresh(a.hints) && fresh(a.data) && fresh(a.ring)
      invariant Small(a, SMALL * (i - 1), 1) && a.logHead == SMALL * i && a.logTail == 0
    {
      ok := SetKey(a, 0, SMALL * (i - 1), 1);
      i := i + 1;
    }
  }

  method EmptyArena(f: seq<byte> -> nat) returns (a: Arena)
    ensures fresh(a) && fresh(a.hash) && fresh(a.off) && fresh(a.hints) && fresh(a.data) && fresh(a.ring)
    ensures Small(a, 0, 0) && a.logHead == 0 && a.logTail == 0
  {
    a := new Arena(f, SLOTS, REGION, 16);
    hide Arena.Valid;
    hide View;
    hide KeysDiffer;
    a.PartsOfValid();
  }

  /** THE CEILING CAN FAIL. With the dead stretch in front of the tail each further key is set without the index
      being relieved, until all slots are taken; */
  method PastTheCeiling(f: seq<byte> -> nat) returns (a: Arena)
    ensures fresh(a) && fresh(a.hash) && fresh(a.off) && fresh(a.hints) && fresh(a.data) && fresh(a.ring)
    ensures Small(a, SMALL * 599, SLOTS) && a.logHead == SMALL * 615 && a.logTail == SMALL * REACH * (SLOTS - CEILING)
    ensures a.live == a.hash.Length > a.maxLive
  {
    hide Small;
    a := OverwrittenOften(f);
    var k := 1;
    while k < SLOTS
      invariant 1 <= k <= SLOTS
      invariant fresh(a) && fresh(a.hash) && fresh(a.off) && fresh(a.hints) && fresh(a.data) && fresh(a.ring)
      invariant Small(a, SMALL * 599, k) && a.logHead == SMALL * (599 + k)
      invariant a.logTail == if k <= CEILING then 0 else SMALL * REACH * (k - CEILING)
    {
      var ok := SetKey(a, k, SMALL * 599, k);
      k := k + 1;
    }
    SmallNow(a, SMALL * 599, SLOTS);
  }

  lemma SmallNow(a: Arena, from: nat, n: nat)
    requires Small(a, from, n)
    ensures a.Valid() && a.hash.Length == SLOTS && a.data.Length == REGION && a.live == n && a.maxLive == CEILING
    ensures |a.m.hash| == |a.m.off| && KeysDiffer(a.m) && View(a.m).Keys == FirstKeys(n)
    ensures LogInv(REGION, a.lay, a.logTail, a.logHead)
  {
    hide *;
    SmallParts(a, from, n);
    a.PartsOfValid();
    UniformParts(a.m, a.lay, a.logHead, a.live, from, n);
    SmallNumbers();
    LayoutOf(a.hashFn, a.m, a.lay, a.logTail, a.logHead, a.inserts);
  }

  lemma UniformParts(m: Mem, lay: Layout, head: nat, live: nat, from: nat, n: nat)
    requires Uniform(m, lay, head, live, from, n)
    ensures |m.hash| == |m.off| && KeysDiffer(m) && View(m).Keys == FirstKeys(n)
  {
  }

  /** and then a set of a new key is refused, although its block was had. */
  method FullIndexRefuses(f: seq<byte> -> nat) returns (a: Arena, ok: bool)
    ensures a.Valid() && !ok && a.live == a.hash.Length && a.logHead == SMALL * 616
  {
    hide Small;
    a := PastTheCeiling(f);
    ok := SetKey(a, SLOTS, SMALL * 599, SLOTS);
    SmallParts(a, SMALL * 599, SLOTS);
  }

  /** An arena at its ceiling, with few segments in its log. */
  method AtTheCeiling(f: seq<byte> -> nat) returns (a: Arena)
    ensures fresh(a) && fresh(a.hash) && fresh(a.off) && fresh(a.hints) && fresh(a.data) && fresh(a.ring)
    ensures Small(a, 0, CEILING) && a.logHead == SMALL * CEILING && a.logTail == 0
  {
    a := EmptyArena(f);
    hide Small;
    var k := 0;
    while k < CEILING
      invariant 0 <= k <= CEILING
      invariant fresh(a) && fresh(a.hash) && fresh(a.off) && fresh(a.hints) && fresh(a.data) && fresh(a.ring)
      invariant Small(a, 0, k) && a.logHead == SMALL * k && a.logTail == 0
    {
      var ok := SetKey(a, k, 0, k);
      k := k + 1;
    }
  }

  lemma LargeBlock()
    ensures REGION < 2 * Align8(HEADER + 1 + REGION) && Align8(HEADER + 1 + REGION) < TWO_32 && 1 < TWO_16
    ensures SMALL * CEILING <= 8 * (GuardMax(SLOTS) - SECOND_CHANCES) && GuardMax(SLOTS) >= SECOND_CHANCES
  {
  }

  /** A LOSING CALL. A set that is refused for its size, at the ceiling, has lost a binding of another key. */
  method LosingCall(f: seq<byte> -> nat) returns (a: Arena, ok: bool, ghost before: map<seq<byte>, Rec>)
    ensures a.Valid() && |a.m.hash| == |a.m.off| && KeysDiffer(a.m) && before.Keys == FirstKeys(CEILING)
    ensures !ok && Submap(View(a.m), before) && View(a.m) != before
  {
    hide *;
    a := AtTheCeiling(f);
    SmallNow(a, 0, CEILING);
    LargeBlock();
    SegmentsAreBytes(REGION, a.lay, a.logTail, a.logHead);
    before := View(a.m);
    ok := a.StoreSet([OTHER], seq(REGION, _ => 0), 0, 0, 0, 0);
    a.PartsOfValid();
  }
}
