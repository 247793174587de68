/** The hash column of the open-addressed index, as a value: linear probing, the reachability
    invariant every probe relies on, and what one step of backward-shift deletion does to it.
    A slot holds 0 when it is empty. Slots form a circle of n = |h| slots. */
module Probing {
  import opened Wrapping

  const EMPTY: nat := 0

  function Next(i: nat, n: nat): (j: nat)
    requires i < n
    ensures j < n
  {
    if i + 1 == n then 0 else i + 1
  }

  /** How many forward steps lead from slot a to slot b. */
  function Dist(a: nat, b: nat, n: nat): (d: nat)
    requires a < n && b < n
    ensures d < n
  {
    if a <= b then b - a else b - a + n
  }

  function Home(v: nat, n: nat): (k: nat)
    requires n > 0
    ensures k < n
  {
    Phys(v, n)
  }

  /** The number of slots an occupied slot x lies beyond the home of its entry. */
  function Displacement(v: nat, x: nat, n: nat): (d: nat)
    requires x < n
    ensures d < n
  {
    if v == EMPTY then 0 else Dist(Home(v, n), x, n)
  }

  /** No empty slot lies between the home of an entry and the slot it sits in. */
  ghost predicate Unbroken(h: seq<nat>) {
    forall x, y | 0 <= x < |h| && 0 <= y < |h| && h[x] != EMPTY ::
      Dist(Home(h[x], |h|), y, |h|) < Displacement(h[x], x, |h|) ==> h[y] != EMPTY
  }

  /** No entry lies beyond slot c on its path from home: the circle may be cut open behind c. */
  ghost predicate CutAt(h: seq<nat>, c: nat) {
    c < |h| && forall x | 0 <= x < |h| && h[x] != EMPTY :: Displacement(h[x], x, |h|) <= Dist(Home(h[x], |h|), c, |h|)
  }

  /** What every probe and every removal relies on. There is a cut even when no slot is empty: the slot that
      was filled last. */
  ghost predicate Reachable(h: seq<nat>) {
    Unbroken(h) && (|h| > 0 ==> exists c: nat :: CutAt(h, c))
  }

  lemma EmptyIsCut(h: seq<nat>, e: nat)
    requires Unbroken(h) && e < |h| && h[e] == EMPTY
    ensures CutAt(h, e) && Reachable(h)
  {
    forall x | 0 <= x < |h| && h[x] != EMPTY
      ensures Displacement(h[x], x, |h|) <= Dist(Home(h[x], |h|), e, |h|)
    {
    }
  }

  /** Slot i is empty and is the only slot that may break reachability. */
  ghost predicate ReachableBut(h: seq<nat>, i: nat) {
    i < |h| && h[i] == EMPTY &&
    forall x, y | 0 <= x < |h| && 0 <= y < |h| && y != i && h[x] != EMPTY ::
      Dist(Home(h[x], |h|), y, |h|) < Displacement(h[x], x, |h|) ==> h[y] != EMPTY
  }

  /** The decision of the source: an entry with home k at slot j has to stay there when k lies
      cyclically after the hole i and not after j. */
  predicate MustStay(i: nat, j: nat, k: nat) {
    if i <= j then i < k <= j else i < k || k <= j
  }

  lemma MustStayMeansHomeAfterHole(i: nat, j: nat, k: nat, n: nat)
    requires i < n && j < n && k < n && i != j
    ensures MustStay(i, j, k) <==> 0 < Dist(i, k, n) <= Dist(i, j, n)
  {
  }

  /** Every slot from just after the hole i up to j is occupied by an entry that has to stay. */
  ghost predicate Scanned(h: seq<nat>, i: nat, j: nat) {
    i < |h| && j < |h| &&
    forall y :: 0 <= y < |h| && 0 < Dist(i, y, |h|) <= Dist(i, j, |h|) ==>
      h[y] != EMPTY && 0 < Dist(i, Home(h[y], |h|), |h|) <= Dist(i, y, |h|)
  }

  lemma ScanOne(h: seq<nat>, i: nat, j: nat)
    requires Scanned(h, i, j) && h[i] == EMPTY && h[Next(j, |h|)] != EMPTY
    requires MustStay(i, Next(j, |h|), Home(h[Next(j, |h|)], |h|))
    ensures Scanned(h, i, Next(j, |h|))
    ensures Dist(i, Next(j, |h|), |h|) == Dist(i, j, |h|) + 1
  {
    var n, j' := |h|, Next(j, |h|);
    MustStayMeansHomeAfterHole(i, j', Home(h[j'], n), n);
    assert Dist(i, j', n) == Dist(i, j, n) + 1;
    forall y | 0 <= y < n && 0 < Dist(i, y, n) <= Dist(i, j', n)
      ensures h[y] != EMPTY && 0 < Dist(i, Home(h[y], n), n) <= Dist(i, y, n)
    {
      assert y == j' || Dist(i, y, n) <= Dist(i, j, n);
    }
  }

  /** The scan met an empty slot: nothing was displaced across the hole, so every entry is
      reachable again. */
  lemma ScanEnds(h: seq<nat>, i: nat, j: nat)
    requires ReachableBut(h, i) && Scanned(h, i, j) && h[Next(j, |h|)] == EMPTY
    ensures Reachable(h)
  {
    var n, e := |h|, Next(j, |h|);
    forall x, y | 0 <= x < n && 0 <= y < n && h[x] != EMPTY &&
      Dist(Home(h[x], n), y, n) < Displacement(h[x], x, n)
      ensures h[y] != EMPTY
    {
      if y == i {
        NoPathThroughHole(h, i, j, x);
      }
    }
    EmptyIsCut(h, e);
  }

  /** A probe path that passes i and later x passes every slot between them. */
  lemma PathPasses(k: nat, i: nat, e: nat, x: nat, n: nat)
    requires k < n && i < n && e < n && x < n
    requires Dist(k, i, n) < Dist(k, x, n) && Dist(i, e, n) < Dist(i, x, n)
    ensures Dist(k, e, n) < Dist(k, x, n)
  {
  }

  lemma NoPathThroughHole(h: seq<nat>, i: nat, j: nat, x: nat)
    requires ReachableBut(h, i) && Scanned(h, i, j) && h[Next(j, |h|)] == EMPTY
    requires x < |h| && h[x] != EMPTY
    ensures Dist(Home(h[x], |h|), i, |h|) >= Displacement(h[x], x, |h|)
  {
    var n, e, k := |h|, Next(j, |h|), Home(h[x], |h|);
    if Dist(i, x, n) > Dist(i, j, n) {
      assert Dist(i, e, n) == Dist(i, j, n) + 1;
      if Dist(k, i, n) < Dist(k, x, n) && e != x {
        PathPasses(k, i, e, x, n);
      }
    }
  }

  /** Moving the entry at j into the hole i makes j the only hole. */
  lemma ShiftOne(h: seq<nat>, i: nat, j: nat)
    requires ReachableBut(h, i) && j < |h| && j != i && h[j] != EMPTY
    requires !MustStay(i, j, Home(h[j], |h|))
    ensures ReachableBut(h[i := h[j]][j := EMPTY], j)
    ensures Displacement(h[j], i, |h|) < Displacement(h[j], j, |h|)
  {
    var n, g := |h|, h[i := h[j]][j := EMPTY];
    forall x, y | 0 <= x < n && 0 <= y < n && y != j && g[x] != EMPTY &&
      Dist(Home(g[x], n), y, n) < Displacement(g[x], x, n)
      ensures g[y] != EMPTY
    {
      if y != i {
        if x == i {
          assert Dist(Home(h[j], n), y, n) < Displacement(h[j], j, n);
        }
        assert h[y] != EMPTY;
      }
    }
  }

  lemma VacateOne(h: seq<nat>, i: nat)
    requires Reachable(h) && i < |h|
    ensures ReachableBut(h[i := EMPTY], i)
  {
  }

  // ------------------------------------------------------------- sums over the slots

  function Sum(c: seq<nat>): nat {
    if c == [] then 0 else c[0] + Sum(c[1..])
  }

  lemma {:induction false} SumUpdate(c: seq<nat>, i: nat, v: nat)
    requires i < |c|
    ensures Sum(c[i := v]) + c[i] == Sum(c) + v
  {
    if i == 0 {
      assert c[i := v][1..] == c[1..];
    } else {
      SumUpdate(c[1..], i - 1, v);
      assert c[i := v][1..] == c[1..][i - 1 := v];
    }
  }

  lemma {:induction false} SumZero(c: seq<nat>)
    requires forall k :: 0 <= k < |c| ==> c[k] == 0
    ensures Sum(c) == 0
  {
    if c != [] {
      SumZero(c[1..]);
    }
  }

  function Displacements(h: seq<nat>): (c: seq<nat>)
    ensures |c| == |h|
  {
    seq(|h|, x requires 0 <= x < |h| => Displacement(h[x], x, |h|))
  }

  /** What makes backward shifting stop even on a full table: each shift lowers this. */
  function TotalDisplacement(h: seq<nat>): nat {
    Sum(Displacements(h))
  }

  lemma ShiftLowersDisplacement(h: seq<nat>, i: nat, j: nat)
    requires i < |h| && j < |h| && i != j && h[j] != EMPTY && h[i] == EMPTY
    requires Displacement(h[j], i, |h|) < Displacement(h[j], j, |h|)
    ensures TotalDisplacement(h[i := h[j]][j := EMPTY]) < TotalDisplacement(h)
  {
    var n, c := |h|, Displacements(h);
    var c1 := c[i := Displacement(h[j], i, n)];
    SumUpdate(c, i, Displacement(h[j], i, n));
    SumUpdate(c1, j, 0);
    assert Displacements(h[i := h[j]][j := EMPTY]) == c1[j := 0];
  }

  /** The probe sequence of v reaches every slot: after d steps it is at the slot d beyond home. */
  function Probe(v: nat, d: nat, n: nat): (i: nat)
    requires 0 < n && d < n
    ensures i < n && Dist(Home(v, n), i, n) == d
  {
    var k := Home(v, n) + d;
    if k < n then k else k - n
  }

  /** An empty slot on the probe path proves that no entry with this home lies beyond it. */
  lemma EmptyEndsProbe(h: seq<nat>, v: nat, d: nat, x: nat)
    requires Reachable(h) && |h| > 0 && d < |h| && x < |h|
    requires h[Probe(v, d, |h|)] == EMPTY && v != EMPTY
    requires d <= Dist(Home(v, |h|), x, |h|)
    ensures h[x] != v
  {
    var y := Probe(v, d, |h|);
  }
}
