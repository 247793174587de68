/** Monotonic positions in a circular buffer of `cap` bytes. A position is mapped to its physical
    address by stepping back whole laps, which is `pos % cap` (PhysIsMod) without asking the
    verifier for arithmetic that is not linear. */
module Wrapping {

  function Phys(pos: nat, cap: nat): (r: nat)
    requires cap > 0
    ensures r < cap
    decreases pos
  {
    if pos < cap then pos else Phys(pos - cap, cap)
  }

  lemma PhysZero(cap: nat)
    requires cap > 0
    ensures Phys(0, cap) == 0
  {
  }

  lemma {:induction false} PhysIsMod(pos: nat, cap: nat)
    requires cap > 0
    ensures Phys(pos, cap) == pos % cap
    decreases pos
  {
    if pos < cap {
      assert pos % cap == pos;
    } else {
      PhysIsMod(pos - cap, cap);
      ModMinusLap(pos, cap);
    }
  }

  lemma ModMinusLap(pos: nat, cap: nat)
    requires 0 < cap <= pos
    ensures (pos - cap) % cap == pos % cap
  {
    var q, r := (pos - cap) / cap, (pos - cap) % cap;
    assert pos == (q + 1) * cap + r;
    QuotientIsUnique(pos / cap, pos % cap, q + 1, r, cap);
  }

  lemma QuotientIsUnique(q: nat, r: nat, q': nat, r': nat, cap: nat)
    requires q * cap + r == q' * cap + r' && r < cap && r' < cap
    ensures r == r'
  {
    if q < q' {
      SmallerQuotient(q, r, q', cap);
    } else if q' < q {
      SmallerQuotient(q', r', q, cap);
    }
  }

  lemma SmallerQuotient(q: nat, r: nat, q': nat, cap: nat)
    requires q < q' && r < cap
    ensures q * cap + r < q' * cap
  {
    assert q' * cap == q * cap + (q' - q) * cap;
    assert (q' - q) * cap == cap + (q' - q - 1) * cap;
  }

  /** Moving forward by `len` bytes that do not straddle the end. */
  lemma {:induction false} PhysAdd(pos: nat, len: nat, cap: nat)
    requires cap > 0 && Phys(pos, cap) + len <= cap
    ensures Phys(pos + len, cap) == if Phys(pos, cap) + len == cap then 0 else Phys(pos, cap) + len
    decreases pos
  {
    if pos >= cap {
      PhysAdd(pos - cap, len, cap);
    }
  }

  lemma {:induction false} PhysAligned(pos: nat, cap: nat)
    requires cap > 0 && cap % 8 == 0 && pos % 8 == 0
    ensures Phys(pos, cap) % 8 == 0
    decreases pos
  {
    if pos >= cap {
      PhysAligned(pos - cap, cap);
    }
  }

  /** Two blocks that both lie inside one window of `cap` bytes have disjoint addresses: the fact
      every "nobody overwrites a published record" argument rests on. */
  lemma {:induction false} PhysDisjoint(p: nat, lp: nat, q: nat, lq: nat, cap: nat)
    requires cap > 0 && p + lp <= q && q + lq <= p + cap
    requires Phys(p, cap) + lp <= cap && Phys(q, cap) + lq <= cap
    ensures Phys(p, cap) + lp <= Phys(q, cap) || Phys(q, cap) + lq <= Phys(p, cap)
    decreases p
  {
    if p >= cap {
      PhysDisjoint(p - cap, lp, q - cap, lq, cap);
    } else if q >= cap {
      assert Phys(q, cap) == Phys(q - cap, cap);
      assert Phys(q - cap, cap) == q - cap;
    }
  }

  /** Within one lap, only the position exactly one lap ahead has the same address. */
  lemma {:induction false} PhysSame(p: nat, q: nat, cap: nat)
    requires cap > 0 && p < q <= p + cap && Phys(p, cap) == Phys(q, cap)
    ensures q == p + cap
    decreases p
  {
    if p >= cap {
      PhysSame(p - cap, q - cap, cap);
    } else if q >= cap {
      assert Phys(q, cap) == Phys(q - cap, cap);
    }
  }

  lemma SumAligned(a: nat, b: nat)
    requires a % 8 == 0 && b % 8 == 0
    ensures (a + b) % 8 == 0
  {
  }

  function Align8(n: nat): (r: nat)
    ensures n <= r < n + 8 && r % 8 == 0
  {
    (n + 7) / 8 * 8
  }
}
