/** Why the allocation loop ends: a rank that every iteration lowers, and how large it can be. */
module Allocation {
  import opened Bytes
  import opened Wrapping
  import opened Records
  import opened LogLayout

  /** Second chances per allocation, and the iteration guard of the source. */
  const SECOND_CHANCES: nat := 16
  const GUARD: nat := 0x40_0000

  /** Bytes that still have to be freed before n fit. */
  function Deficit(n: nat, cap: nat, tail: nat, head: nat): nat {
    if tail <= head && head - tail <= cap && n <= cap - (head - tail) then 0
    else if tail <= head && head - tail <= cap then n - (cap - (head - tail)) else n
  }

  /** How many segments that carry a header (40 bytes or more) cover x bytes. */
  function Pieces(x: nat): nat {
    (x + HEADER - 1) / HEADER
  }

  /** The most drops one allocation stage can take: a wrap gap may precede each piece. */
  function Stage(n: nat): nat {
    2 * Pieces(n) + 1
  }

  /** A block of n bytes at the head would cross the end of the data region. */
  predicate Straddles(n: nat, cap: nat, head: nat)
    requires cap > 0
  {
    GapAt(Phys(head, cap), cap) != 0 || Phys(head, cap) + n > cap
  }

  /** The rank: second chances left, then the wrap still to come, then bytes still to free. */
  function Rank(n: nat, cap: nat, tail: nat, head: nat, budget: nat): nat
    requires cap > 0
  {
    budget * (Stage(n) + 3) + (if Straddles(n, cap, head) then Stage(n) + 1 else 0)
    + 2 * Pieces(Deficit(n, cap, tail, head)) + (if GapAt(Phys(tail, cap), cap) != 0 then 1 else 0)
  }

  /** The largest rank an allocation of n bytes can start with. */
  function RankBound(n: nat): nat {
    (SECOND_CHANCES + 2) * Stage(n) + 3 * SECOND_CHANCES + 1
  }

  /** A block of n bytes is at most half the region and the guard cannot stop its allocation. */
  predicate Obtainable(n: nat, cap: nat) {
    2 * n <= cap && RankBound(n) < GUARD
  }

  lemma PiecesMonotone(x: nat, y: nat)
    ensures x <= y ==> Pieces(x) <= Pieces(y)
    ensures x + HEADER <= y ==> Pieces(x) + 1 <= Pieces(y)
    ensures x > 0 ==> Pieces(x) >= 1
    ensures Pieces(0) == 0
  {
  }

  lemma RankStartsBelowBound(n: nat, cap: nat, tail: nat, head: nat)
    requires cap > 0
    ensures Rank(n, cap, tail, head, SECOND_CHANCES) <= RankBound(n)
  {
    hide Phys;
    hide GapAt;
    PiecesMonotone(Deficit(n, cap, tail, head), n);
  }

  lemma OneChanceLess(budget: nat, k: nat)
    requires budget > 0
    ensures budget * k == (budget - 1) * k + k
  {
  }

  /** Passing a segment at the tail, with or without a second chance, lowers the rank. */
  lemma DropLowersRank(n: nat, cap: nat, lay: Layout, t0: nat, h0: nat, b0: nat, t: nat, h: nat, b: nat)
    requires LogInv(cap, lay, t0, h0) && t0 < h0 && t0 in lay && HEADER <= cap
    requires t == t0 + lay[t0].len
    requires (b == b0 && h == h0) || (b + 1 == b0 && h == h0 + lay[t0].len && !lay[t0].Gap?)
    requires n > cap - (h0 - t0)
    ensures Rank(n, cap, t, h, b) < Rank(n, cap, t0, h0, b0)
  {
    assert SegOk(cap, t0, lay[t0]);
    var d0, d := Deficit(n, cap, t0, h0), Deficit(n, cap, t, h);
    PiecesMonotone(d, d0);
    if b == b0 {
      AfterGap(cap, t0, lay[t0]);
      if !lay[t0].Gap? {
        PiecesMonotone(0, d0);
        PiecesMonotone(d, if d0 >= HEADER then d0 - HEADER else 0);
        PiecesMonotone(if d0 >= HEADER then d0 - HEADER else 0, d0);
      }
    } else {
      OneChanceLess(b0, Stage(n) + 3);
    }
  }

  /** A gap ends at the end of the region, so no gap follows a gap. */
  lemma AfterGap(cap: nat, p: nat, g: Seg)
    requires HEADER <= cap && SegOk(cap, p, g)
    ensures g.Gap? ==> GapAt(Phys(p, cap), cap) != 0 && GapAt(Phys(p + g.len, cap), cap) == 0
    ensures !g.Gap? ==> GapAt(Phys(p, cap), cap) == 0
  {
    PhysAdd(p, g.len, cap);
  }

  /** Filling up to the end of the region lowers the rank. */
  lemma WrapLowersRank(n: nat, cap: nat, tail: nat, head: nat, budget: nat)
    requires HEADER <= cap && n <= cap && tail <= head && Straddles(n, cap, head)
    requires cap - Phys(head, cap) <= cap - (head - tail) && head - tail <= cap
    ensures Rank(n, cap, tail, head + (cap - Phys(head, cap)), budget) < Rank(n, cap, tail, head, budget)
  {
    var h := head + (cap - Phys(head, cap));
    PhysAdd(head, cap - Phys(head, cap), cap);
    assert Phys(h, cap) == 0;
    PiecesMonotone(Deficit(n, cap, tail, h), n);
  }

  /** ALLOCATION SUCCEEDS. For every record the callers can ask for (a key of at most 1024 bytes and
      a value of at most 4 MiB) the guard of the loop is out of reach. */
  lemma GuardIsOutOfReach(n: nat)
    requires n <= Align8(HEADER + 1024 + 0x40_0000)
    ensures RankBound(n) < GUARD
  {
    PiecesMonotone(n, Align8(HEADER + 1024 + 0x40_0000));
  }
}
