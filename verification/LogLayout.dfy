/** The circular log between its tail and its head, as the segments it parses into. */
module LogLayout {
  import opened Wrapping
  import opened Records

  /** An implicit wrap gap (nothing is written there), a pad record, or an entry. */
  datatype Seg = Gap(len: nat) | Pad(len: nat) | Entry(len: nat)

  /** Segments by log position. */
  type Layout = map<nat, Seg>

  /** The wrap remainder that is too small for a header; allocator and tail walk share this rule. */
  function GapAt(phys: nat, cap: nat): (g: nat)
    requires phys < cap
  {
    if cap - phys < HEADER then cap - phys else 0
  }

  ghost predicate SegOk(cap: nat, p: nat, g: Seg)
    requires cap > 0
  {
    && p % 8 == 0 && g.len % 8 == 0 && g.len > 0 && Phys(p, cap) + g.len <= cap
    && (if GapAt(Phys(p, cap), cap) != 0 then g == Gap(GapAt(Phys(p, cap), cap))
        else !g.Gap? && HEADER <= g.len)
  }

  /** The segment at p ends at the head or where another segment begins. */
  ghost predicate Chained(lay: Layout, head: nat, p: nat) {
    p in lay && (p + lay[p].len == head || p + lay[p].len in lay)
  }

  /** The segments follow one another without holes from tail to head and fit into one lap. */
  ghost predicate LogInv(cap: nat, lay: Layout, tail: nat, head: nat) {
    && cap > 0 && cap % 8 == 0 && tail % 8 == 0 && head % 8 == 0 && tail <= head <= tail + cap
    && (tail == head || tail in lay)
    && (forall p | p in lay :: SegOk(cap, p, lay[p]) && tail <= p && p + lay[p].len <= head)
    && (forall p {:trigger Chained(lay, head, p)} | p in lay :: Chained(lay, head, p))
    && (forall p, q | p in lay && q in lay && p < q :: p + lay[p].len <= q)
  }

  /** A new block of len bytes at the head: beyond every segment, within one lap of the tail. */
  ghost predicate FreeBlock(cap: nat, tail: nat, head: nat, len: nat) {
    cap > 0 && head + len <= tail + cap && Phys(head, cap) + len <= cap
  }

  lemma AppendSeg(cap: nat, lay: Layout, tail: nat, head: nat, g: Seg)
    requires LogInv(cap, lay, tail, head) && SegOk(cap, head, g) && FreeBlock(cap, tail, head, g.len)
    ensures LogInv(cap, lay[head := g], tail, head + g.len)
    ensures head !in lay
  {
    hide Phys;
    hide SegOk;
    hide Chained;
    SegsBelowHead(cap, lay, tail, head);
    SegLen(cap, head, g);
    SumAligned(head, g.len);
    assert head + g.len <= tail + cap;
    var lay', head' := lay[head := g], head + g.len;
    AppendKeepsChain(cap, lay, tail, head, g, lay', head');
    assert tail in lay';
    forall p | p in lay'
      ensures SegOk(cap, p, lay'[p]) && tail <= p && p + lay'[p].len <= head'
    {
      assert p != head ==> p in lay && lay'[p] == lay[p];
    }
    forall p, q | p in lay' && q in lay' && p < q
      ensures p + lay'[p].len <= q
    {
      if q == head {
        assert p in lay && p + lay[p].len <= head;
      }
    }
  }

  lemma SegLen(cap: nat, p: nat, g: Seg)
    requires cap > 0 && SegOk(cap, p, g)
    ensures g.len > 0 && g.len % 8 == 0
  {
  }

  lemma SegsBelowHead(cap: nat, lay: Layout, tail: nat, head: nat)
    requires LogInv(cap, lay, tail, head)
    ensures forall p | p in lay :: p < head
  {
    hide Phys;
    forall p | p in lay
      ensures p < head
    {
      assert SegOk(cap, p, lay[p]);
    }
  }

  lemma AppendKeepsChain(cap: nat, lay: Layout, tail: nat, head: nat, g: Seg, lay': Layout, head': nat)
    requires LogInv(cap, lay, tail, head) && head !in lay && lay' == lay[head := g] && head' == head + g.len
    ensures forall p | p in lay' :: Chained(lay', head', p)
  {
    hide SegOk;
    forall p | p in lay'
      ensures Chained(lay', head', p)
    {
      assert p != head ==> Chained(lay, head, p);
    }
  }

  lemma DropSeg(cap: nat, lay: Layout, tail: nat, head: nat)
    requires LogInv(cap, lay, tail, head) && tail < head
    ensures tail in lay && LogInv(cap, lay - {tail}, tail + lay[tail].len, head)
  {
    hide Phys;
    var lay', tail' := lay - {tail}, tail + lay[tail].len;
    assert SegOk(cap, tail, lay[tail]) && Chained(lay, head, tail);
    SumAligned(tail, lay[tail].len);
    forall p | p in lay'
      ensures SegOk(cap, p, lay'[p]) && tail' <= p && p + lay'[p].len <= head
      ensures Chained(lay', head, p)
    {
      assert tail < p && Chained(lay, head, p);
    }
  }

  /** The segment at the tail moves to the head. */
  lemma RotateSeg(cap: nat, lay: Layout, tail: nat, head: nat)
    requires LogInv(cap, lay, tail, head) && tail < head && tail in lay
    requires SegOk(cap, head, lay[tail]) && FreeBlock(cap, tail + lay[tail].len, head, lay[tail].len)
    ensures LogInv(cap, (lay - {tail})[head := lay[tail]], tail + lay[tail].len, head + lay[tail].len)
  {
    hide SegOk;
    DropSeg(cap, lay, tail, head);
    AppendSeg(cap, lay - {tail}, tail + lay[tail].len, head, lay[tail]);
  }

  /** Two segments occupy disjoint addresses, although positions wrap. */
  lemma SegsDisjoint(cap: nat, lay: Layout, tail: nat, head: nat, p: nat, q: nat)
    requires LogInv(cap, lay, tail, head) && p in lay && q in lay && p != q
    ensures Phys(p, cap) + lay[p].len <= Phys(q, cap) || Phys(q, cap) + lay[q].len <= Phys(p, cap)
  {
    if p < q {
      PhysDisjoint(p, lay[p].len, q, lay[q].len, cap);
    } else {
      PhysDisjoint(q, lay[q].len, p, lay[p].len, cap);
    }
  }

  /** A free block at the head touches no segment. */
  lemma BlockDisjoint(cap: nat, lay: Layout, tail: nat, head: nat, len: nat, p: nat)
    requires LogInv(cap, lay, tail, head) && FreeBlock(cap, tail, head, len) && p in lay
    ensures Phys(p, cap) + lay[p].len <= Phys(head, cap) || Phys(head, cap) + len <= Phys(p, cap)
  {
    PhysDisjoint(p, lay[p].len, head, len, cap);
  }

  /** Every position between tail and head lies in exactly one segment. */
  lemma {:induction false} LogIsTiled(cap: nat, lay: Layout, tail: nat, head: nat, x: nat)
    requires LogInv(cap, lay, tail, head) && tail <= x < head
    ensures exists p :: p in lay && p <= x < p + lay[p].len
    ensures forall p, q | p in lay && q in lay && p <= x < p + lay[p].len && q <= x < q + lay[q].len :: p == q
    decreases head - tail
  {
    if x >= tail + lay[tail].len {
      DropSeg(cap, lay, tail, head);
      LogIsTiled(cap, lay - {tail}, tail + lay[tail].len, head, x);
      var p :| p in lay - {tail} && p <= x < p + (lay - {tail})[p].len;
      assert p in lay && lay[p] == (lay - {tail})[p];
    }
  }
}
