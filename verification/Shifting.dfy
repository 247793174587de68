/** Backward-shift deletion over the whole arena state: index columns, back-pointers in the log
    and the accounting of what is indexed. */
module Shifting {
  import opened Bytes
  import opened Wrapping
  import opened Records
  import opened Probing
  import opened SharedMemory
  import opened LogLayout
  import opened ArenaState

  /** `m` after the slot field of the entry at `pos` was set to i. */
  function WithSlotField(m: Mem, pos: nat, i: nat): (m': Mem)
    requires |m.data| > 0 && BodyAt(m, pos) <= |m.data|
  {
    m.(data := Splice(m.data, Phys(pos, |m.data|) + SLOT_AT, LE(i, 4)))
  }

  lemma SlotFieldWritten(m: Mem, pos: nat, i: nat)
    requires |m.data| > 0 && BodyAt(m, pos) <= |m.data| && i < TWO_32
    ensures SlotField(WithSlotField(m, pos, i).data, pos) == i
    ensures SeqField(WithSlotField(m, pos, i).data, pos) == SeqField(m.data, pos)
    ensures BlockField(WithSlotField(m, pos, i).data, pos) == BlockField(m.data, pos)
  {
    Widths();
    FromLEOfLE(i, 4);
    var a := Phys(pos, |m.data|);
    SpliceElsewhere(m.data, a + SLOT_AT, LE(i, 4), a, a + SLOT_AT);
    if a + HEADER <= |m.data| {
      SpliceElsewhere(m.data, a + SLOT_AT, LE(i, 4), a + BLOCK_AT, a + BLOCK_AT + 4);
    }
  }

  /** Bytes outside a segment do not matter to what its header says. */
  lemma HeaderElsewhere(data: seq<byte>, a: nat, s: seq<byte>, p: nat)
    requires |data| > 0 && a + |s| <= |data|
    requires Phys(p, |data|) + HEADER <= a || a + |s| <= Phys(p, |data|)
    ensures var d := Splice(data, a, s);
            SlotField(d, p) == SlotField(data, p) && SeqField(d, p) == SeqField(data, p) &&
            BlockField(d, p) == BlockField(data, p)
  {
    hide Splice;
    hide FromLE;
    hide Phys;
    var b := Phys(p, |data|);
    if b + LEAD <= |data| {
      SpliceElsewhere(data, a, s, b + SLOT_AT, b + LEAD);
      SpliceElsewhere(data, a, s, b, b + SLOT_AT);
    }
    if b + HEADER <= |data| {
      SpliceElsewhere(data, a, s, b + BLOCK_AT, b + BLOCK_AT + 4);
    }
  }

  lemma OtherSegUnchanged(m: Mem, lay: Layout, tail: nat, head: nat, pos: nat, i: nat, p: nat)
    requires LogInv(|m.data|, lay, tail, head) && pos in lay && !lay[pos].Gap? && p in lay && !lay[p].Gap? && p != pos
    ensures BodyAt(m, pos) <= |m.data|
    ensures SlotField(WithSlotField(m, pos, i).data, p) == SlotField(m.data, p)
    ensures SeqField(WithSlotField(m, pos, i).data, p) == SeqField(m.data, p)
    ensures BlockField(WithSlotField(m, pos, i).data, p) == BlockField(m.data, p)
  {
    hide Phys;
    hide SlotField;
    hide SeqField;
    hide BlockField;
    hide LE;
    hide Splice;
    hide Chained;
    SegsDisjoint(|m.data|, lay, tail, head, pos, p);
    assert SegOk(|m.data|, pos, lay[pos]) && SegOk(|m.data|, p, lay[p]);
    HeaderElsewhere(m.data, Phys(pos, |m.data|) + SLOT_AT, LE(i, 4), p);
  }

  lemma SlotFieldKeepsBytes(m: Mem, lay: Layout, tail: nat, head: nat, pos: nat, i: nat)
    requires LogInv(|m.data|, lay, tail, head) && BytesInv(m, lay)
    requires pos in lay && lay[pos].Entry? && i < |m.hash| <= SLOT_PAD
    ensures BodyAt(m, pos) <= |m.data| && BytesInv(WithSlotField(m, pos, i), lay)
  {
    hide Phys;
    hide LE;
    hide FromLE;
    assert SegOk(|m.data|, pos, lay[pos]);
    var m' := WithSlotField(m, pos, i);
    SlotFieldWritten(m, pos, i);
    forall p | p in lay
      ensures SegBytes(m', lay, p)
    {
      assert SegBytes(m, lay, p);
      if p != pos && !lay[p].Gap? {
        OtherSegUnchanged(m, lay, tail, head, pos, i, p);
      }
    }
  }

  /** The slot field may be written while readers look on: no immutable byte is touched. */
  lemma SlotFieldUnprotected(m: Mem, lay: Layout, tail: nat, head: nat, pos: nat, a: nat)
    requires MemInv(m) && LogInv(|m.data|, lay, tail, head) && BytesInv(m, lay)
    requires pos in lay && !lay[pos].Gap?
    requires Phys(pos, |m.data|) + SLOT_AT <= a < Phys(pos, |m.data|) + LEAD
    ensures Writable(m, a)
  {
    hide Phys;
    hide Rec.Head;
    hide Rec.Image;
    assert SegOk(|m.data|, pos, lay[pos]);
    forall p: nat | Protected(m, p, a)
      ensures false
    {
      assert SegBytes(m, lay, p) && SegOk(|m.data|, p, lay[p]);
      if p != pos {
        SegsDisjoint(|m.data|, lay, tail, head, pos, p);
      }
    }
  }

  lemma SlotFieldWritable(m: Mem, lay: Layout, tail: nat, head: nat, j: nat, a: nat)
    requires MemInv(m) && LogInv(|m.data|, lay, tail, head) && BytesInv(m, lay)
    requires j < |m.hash| && m.hash[j] != EMPTY && SlotOk(m, lay, j) && a == Phys(m.off[j], |m.data|) + SLOT_AT
    ensures BlockWritable(m, a, 4) && BodyAt(m, m.off[j]) == a + 4 <= |m.data|
  {
    var pos := m.off[j];
    assert SegOk(|m.data|, pos, lay[pos]);
    forall k | a <= k < a + 4
      ensures Writable(m, k)
    {
      SlotFieldUnprotected(m, lay, tail, head, pos, k);
    }
  }

  /** Announcing in the vacated slot i what slot j announces is allowed: the position first, */
  lemma MoveOffIsLegal(m: Mem, i: nat, j: nat)
    requires MemInv(m) && i < |m.hash| && j < |m.hash| && m.hash[i] == EMPTY && m.hash[j] != EMPTY
    ensures Legal(m, OffStore(i, m.off[j]))
  {
    assert Current(m, m.off[j]);
  }

  /** then the hash. */
  lemma MoveHashIsLegal(m: Mem, m1: Mem, i: nat, j: nat)
    requires MemInv(m) && i < |m.hash| && j < |m.hash| && m.hash[j] != EMPTY
    requires m1 == m.(off := m.off[i := m.off[j]], data := m1.data) && |m1.data| == |m.data|
    ensures Legal(m1, HashStore(i, m.hash[j]))
  {
    assert Current(m, m.off[j]);
  }

  lemma MovedBySteps(m: Mem, m': Mem, i: nat, j: nat)
    requires |m.data| > 0 && |m.hash| == |m.off| && i < |m.hash| && j < |m.hash|
    requires BodyAt(m, m.off[j]) <= |m.data|
    requires m' == m.(off := m.off[i := m.off[j]],
                      data := Splice(m.data, Phys(m.off[j], |m.data|) + SLOT_AT, LE(i, 4)),
                      hash := m.hash[i := m.hash[j]])
    ensures m' == Moved(m, i, j)
  {
  }

  // --------------------------------------------------------------- one deletion, step by step

  function Vacated(m: Mem, i: nat): Mem
    requires i < |m.hash|
  {
    m.(hash := m.hash[i := EMPTY])
  }

  /** A deletion that began in m0 at slot i0 is about to vacate slot i of m. With i vacated, the
      index holds every pair of m0 but one, all back-pointers are right, and i is the only slot
      that may cut a probe path. */
  ghost predicate MidShift(m0: Mem, i0: nat, m: Mem, i: nat, lay: Layout) {
    && |m.data| > 0 && |m.hash| == |m.off| == |m0.hash| == |m0.off|
    && m.book == m0.book && m.retired == m0.retired && m.tailPub == m0.tailPub && |m.data| == |m0.data|
    && i < |m.hash| && i0 < |m.hash|
    && var g := m.hash[i := EMPTY];
       && ReachableBut(g, i)
       && Pairs(g, m.off) == Pairs(m0.hash, m0.off) - {(m0.hash[i0], m0.off[i0])}
       && SlotsOk(Vacated(m, i), lay)
       && Count(g) + 1 == Count(m0.hash)
       && Sum(Blocks(g, m.off, m.book)) + BlockOf(m.book, m0.off[i0]) == IndexedBytes(m0)
  }

  lemma CountUpdate(h: seq<nat>, i: nat, v: nat)
    requires i < |h|
    ensures Count(h[i := v]) + (if h[i] == EMPTY then 0 else 1) == Count(h) + if v == EMPTY then 0 else 1
  {
    var b := if v == EMPTY then 0 else 1;
    SumUpdate(Ones(h), i, b);
    assert Ones(h[i := v]) == Ones(h)[i := b];
  }

  lemma BlocksUpdate(h: seq<nat>, o: seq<nat>, book: map<nat, Rec>, i: nat, v: nat, p: nat)
    requires |h| == |o| && i < |h|
    ensures Sum(Blocks(h[i := v], o[i := p], book)) + (if h[i] == EMPTY then 0 else BlockOf(book, o[i]))
            == Sum(Blocks(h, o, book)) + if v == EMPTY then 0 else BlockOf(book, p)
  {
    var b := if v == EMPTY then 0 else BlockOf(book, p);
    SumUpdate(Blocks(h, o, book), i, b);
    assert Blocks(h[i := v], o[i := p], book) == Blocks(h, o, book)[i := b];
  }

  lemma DeletionBegins(m: Mem, lay: Layout, i: nat)
    requires IndexInv(m, lay) && i < |m.hash| && m.hash[i] != EMPTY
    ensures MidShift(m, i, m, i, lay)
  {
    hide SlotsOk;
    VacateOne(m.hash, i);
    CountUpdate(m.hash, i, EMPTY);
    BlocksUpdate(m.hash, m.off, m.book, i, EMPTY, m.off[i]);
    assert m.off[i := m.off[i]] == m.off;
    VacatedPairs(m, lay, i);
    VacatedSlots(m, lay, i);
    hide Reachable;
    hide ReachableBut;
    hide KeysDiffer;
    hide Pairs;
  }

  lemma VacatedPairs(m: Mem, lay: Layout, i: nat)
    requires SlotsOk(m, lay) && i < |m.hash| && m.hash[i] != EMPTY
    ensures Pairs(m.hash[i := EMPTY], m.off) == Pairs(m.hash, m.off) - {(m.hash[i], m.off[i])}
  {
    var g, d := m.hash[i := EMPTY], Pairs(m.hash, m.off) - {(m.hash[i], m.off[i])};
    assert SlotOk(m, lay, i);
    forall pr
      ensures pr in Pairs(g, m.off) <==> pr in d
    {
      if pr in Pairs(g, m.off) {
        var x :| 0 <= x < |g| && g[x] != EMPTY && pr == (g[x], m.off[x]);
        assert SlotOk(m, lay, x) && m.hash[x] == g[x];
      }
      if pr in d {
        var x :| 0 <= x < |m.hash| && m.hash[x] != EMPTY && pr == (m.hash[x], m.off[x]);
        assert g[x] == m.hash[x];
      }
    }
  }

  lemma VacatedSlots(m: Mem, lay: Layout, i: nat)
    requires SlotsOk(m, lay) && i < |m.hash|
    ensures SlotsOk(Vacated(m, i), lay)
  {
    var v := Vacated(m, i);
    forall x | 0 <= x < |v.hash|
      ensures SlotOk(v, lay, x)
    {
      assert SlotOk(m, lay, x);
    }
  }

  /** The memory after the entry at slot j was copied into the vacated slot i. */
  function Moved(m: Mem, i: nat, j: nat): (m': Mem)
    requires |m.data| > 0 && |m.hash| == |m.off| && i < |m.hash| && j < |m.hash|
    requires BodyAt(m, m.off[j]) <= |m.data|
  {
    WithSlotField(m.(off := m.off[i := m.off[j]]), m.off[j], i).(hash := m.hash[i := m.hash[j]])
  }

  lemma MovedBytes(m: Mem, i: nat, j: nat, lay: Layout, tail: nat, head: nat)
    requires LogInv(|m.data|, lay, tail, head) && BytesInv(m, lay) && |m.hash| <= SLOT_PAD && SlotsOk(m, lay)
    requires |m.hash| == |m.off| && i < |m.hash| && j < |m.hash| && m.hash[j] != EMPTY
    ensures BodyAt(m, m.off[j]) <= |m.data| && BytesInv(Moved(m, i, j), lay)
  {
    hide Chained;
    hide Splice;
    hide LE;
    hide FromLE;
    hide Phys;
    hide BytesInv;
    assert SlotOk(m, lay, j);
    assert SegOk(|m.data|, m.off[j], lay[m.off[j]]);
    SlotFieldKeepsBytes(m, lay, tail, head, m.off[j], i);
    SlotsDoNotMatter(WithSlotField(m, m.off[j], i), Moved(m, i, j), lay);
  }

  lemma ShiftMoves(m0: Mem, i0: nat, m: Mem, i: nat, j: nat, lay: Layout, tail: nat, head: nat)
    requires LogInv(|m.data|, lay, tail, head) && BytesInv(m, lay) && |m.hash| <= SLOT_PAD
    requires MidShift(m0, i0, m, i, lay) && m.hash[i] == EMPTY
    requires j < |m.hash| && j != i && m.hash[j] != EMPTY && !MustStay(i, j, Home(m.hash[j], |m.hash|))
    ensures BodyAt(m, m.off[j]) <= |m.data|
    ensures MidShift(m0, i0, Moved(m, i, j), j, lay) && BytesInv(Moved(m, i, j), lay)
    ensures TotalDisplacement(Moved(m, i, j).hash[j := EMPTY]) < TotalDisplacement(m.hash)
  {
    hide ReachableBut;
    hide Sum;
    hide Pairs;
    hide LogInv;
    hide BytesInv;
    hide Splice;
    hide LE;
    hide FromLE;
    hide Phys;
    hide SlotsOk;
    assert m.hash[i := EMPTY] == m.hash && Vacated(m, i) == m;
    MovedBytes(m, i, j, lay, tail, head);
    ShiftOne(m.hash, i, j);
    ShiftLowersDisplacement(m.hash, i, j);
    MovedPairs(m, i, j, lay);
    MovedSums(m, i, j);
    MovedSlots(m, i, j, lay, tail, head);
  }

  lemma MovedSums(m: Mem, i: nat, j: nat)
    requires |m.data| > 0 && |m.hash| == |m.off| && i < |m.hash| && j < |m.hash| && i != j
    requires BodyAt(m, m.off[j]) <= |m.data| && m.hash[i] == EMPTY && m.hash[j] != EMPTY
    ensures var m' := Moved(m, i, j);
            Count(m'.hash[j := EMPTY]) == Count(m.hash) &&
            Sum(Blocks(m'.hash[j := EMPTY], m'.off, m'.book)) == Sum(Blocks(m.hash, m.off, m.book))
  {
    var m' := Moved(m, i, j);
    CountUpdate(m.hash, i, m.hash[j]);
    CountUpdate(m'.hash, j, EMPTY);
    BlocksUpdate(m.hash, m.off, m.book, i, m.hash[j], m.off[j]);
    BlocksUpdate(m'.hash, m'.off, m.book, j, EMPTY, m'.off[j]);
    assert m'.off[j := m'.off[j]] == m'.off;
  }

  lemma MovedSlots(m: Mem, i: nat, j: nat, lay: Layout, tail: nat, head: nat)
    requires LogInv(|m.data|, lay, tail, head) && |m.hash| == |m.off| && |m.hash| <= SLOT_PAD
    requires SlotsOk(m, lay)
    requires i < |m.hash| && j < |m.hash| && i != j && m.hash[i] == EMPTY && m.hash[j] != EMPTY
    requires BodyAt(m, m.off[j]) <= |m.data|
    ensures SlotsOk(Vacated(Moved(m, i, j), j), lay)
  {
    hide LE;
    hide FromLE;
    hide Phys;
    var m', pos := Moved(m, i, j), m.off[j];
    assert m'.data == WithSlotField(m, pos, i).data;
    SlotFieldWritten(m, pos, i);
    assert SlotOk(m, lay, j);
    forall x | 0 <= x < |m.hash|
      ensures SlotOk(Vacated(m', j), lay, x)
    {
      assert SlotOk(m, lay, x);
      if x != i && x != j && m.hash[x] != EMPTY {
        OtherSegUnchanged(m, lay, tail, head, pos, i, m.off[x]);
      }
    }
  }

  lemma MovedPairs(m: Mem, i: nat, j: nat, lay: Layout)
    requires |m.data| > 0 && |m.hash| == |m.off| && i < |m.hash| && j < |m.hash| && i != j
    requires BodyAt(m, m.off[j]) <= |m.data| && m.hash[i] == EMPTY && m.hash[j] != EMPTY
    ensures var m' := Moved(m, i, j); Pairs(m'.hash[j := EMPTY], m'.off) == Pairs(m.hash, m.off)
  {
    var m' := Moved(m, i, j);
    var g' := m'.hash[j := EMPTY];
    forall pr
      ensures pr in Pairs(g', m'.off) <==> pr in Pairs(m.hash, m.off)
    {
      if pr in Pairs(g', m'.off) {
        var x :| 0 <= x < |g'| && g'[x] != EMPTY && pr == (g'[x], m'.off[x]);
        var y := if x == i then j else x;
        assert m.hash[y] != EMPTY && pr == (m.hash[y], m.off[y]);
      }
      if pr in Pairs(m.hash, m.off) {
        var y :| 0 <= y < |m.hash| && m.hash[y] != EMPTY && pr == (m.hash[y], m.off[y]);
        var x := if y == j then i else y;
        assert g'[x] != EMPTY && pr == (g'[x], m'.off[x]);
      }
    }
  }

  /** The scan ended at an empty slot: the index is whole again, one entry shorter. */
  lemma DeletionEnds(m0: Mem, i0: nat, m: Mem, i: nat, lay: Layout)
    requires IndexInv(m0, lay) && i0 < |m0.hash| && m0.hash[i0] != EMPTY && m0.off[i0] in m0.book
    requires MidShift(m0, i0, m, i, lay) && m.hash[i] == EMPTY
    requires Reachable(m.hash)
    ensures IndexInv(m, lay)
    ensures Indexed(m) == Indexed(m0) - {m0.off[i0]}
    ensures View(m) == View(m0) - {m0.book[m0.off[i0]].key}
  {
    hide Reachable;
    hide ReachableBut;
    assert m.hash[i := EMPTY] == m.hash;
    assert Vacated(m, i) == m;
    IndexedAfter(m0, i0, m, lay);
    KeysStayDifferent(m0, m, lay);
    assert SlotOk(m0, lay, i0);
    ViewShrinks(m0, m, i0);
  }

  lemma IndexedAfter(m0: Mem, i0: nat, m: Mem, lay: Layout)
    requires IndexInv(m0, lay) && |m.hash| == |m.off| && i0 < |m0.hash| && m0.hash[i0] != EMPTY
    requires Pairs(m.hash, m.off) == Pairs(m0.hash, m0.off) - {(m0.hash[i0], m0.off[i0])}
    ensures Indexed(m) == Indexed(m0) - {m0.off[i0]}
  {
    IndexedFromPairs(m0, lay);
    var p0 := m0.off[i0];
    assert (m0.hash[i0], p0) in Pairs(m0.hash, m0.off);
    forall p
      ensures p in Indexed(m) <==> p in Indexed(m0) - {p0}
    {
      if p in Indexed(m) {
        var x :| 0 <= x < |m.hash| && m.hash[x] != EMPTY && m.off[x] == p;
        assert (m.hash[x], p) in Pairs(m.hash, m.off);
        assert (m.hash[x], p) in Pairs(m0.hash, m0.off);
      }
      if p in Indexed(m0) - {p0} {
        var x :| 0 <= x < |m0.hash| && m0.hash[x] != EMPTY && m0.off[x] == p;
        assert (m0.hash[x], p) in Pairs(m.hash, m.off);
      }
    }
  }

  /** A position is paired with one hash only. */
  lemma IndexedFromPairs(m: Mem, lay: Layout)
    requires IndexInv(m, lay)
    ensures forall a, b, p | (a, p) in Pairs(m.hash, m.off) && (b, p) in Pairs(m.hash, m.off) :: a == b
  {
    forall a, b, p | (a, p) in Pairs(m.hash, m.off) && (b, p) in Pairs(m.hash, m.off)
      ensures a == b
    {
      var x :| 0 <= x < |m.hash| && m.hash[x] != EMPTY && (a, p) == (m.hash[x], m.off[x]);
      var y :| 0 <= y < |m.hash| && m.hash[y] != EMPTY && (b, p) == (m.hash[y], m.off[y]);
      assert SlotOk(m, lay, x) && SlotOk(m, lay, y);
    }
  }

  lemma KeysStayDifferent(m0: Mem, m: Mem, lay: Layout)
    requires IndexInv(m0, lay) && |m.data| > 0 && |m.hash| == |m.off| && m.book == m0.book
    requires SlotsOk(m, lay)
    requires Indexed(m) <= Indexed(m0)
    ensures KeysDiffer(m)
  {
    forall x: nat, y: nat, k | SlotFor(m, x, k) && SlotFor(m, y, k)
      ensures x == y
    {
      assert SlotOk(m, lay, x) && SlotOk(m, lay, y);
      assert m.off[x] in Indexed(m) && m.off[y] in Indexed(m);
      var x' :| 0 <= x' < |m0.hash| && m0.hash[x'] != EMPTY && m0.off[x'] == m.off[x];
      var y' :| 0 <= y' < |m0.hash| && m0.hash[y'] != EMPTY && m0.off[y'] == m.off[y];
      assert SlotFor(m0, x', k) && SlotFor(m0, y', k);
    }
  }

  lemma ViewShrinks(m0: Mem, m: Mem, i0: nat)
    requires |m0.hash| == |m0.off| && |m.hash| == |m.off| && KeysDiffer(m0) && KeysDiffer(m) && m.book == m0.book
    requires i0 < |m0.hash| && m0.hash[i0] != EMPTY && m0.off[i0] in m0.book
    requires Indexed(m) == Indexed(m0) - {m0.off[i0]}
    ensures View(m) == View(m0) - {m0.book[m0.off[i0]].key}
  {
    var k0 := m0.book[m0.off[i0]].key;
    assert SlotFor(m0, i0, k0);
    forall k
      ensures k in View(m) ==> k in View(m0) && k != k0 && View(m)[k] == View(m0)[k]
    {
      if k in View(m) {
        var x: nat :| SlotFor(m, x, k);
        assert m.off[x] in Indexed(m);
        var y :| 0 <= y < |m0.hash| && m0.hash[y] != EMPTY && m0.off[y] == m.off[x];
        assert SlotFor(m0, y, k);
      }
    }
    forall k
      ensures k in View(m0) && k != k0 ==> k in View(m)
    {
      if k in View(m0) && k != k0 {
        var y: nat :| SlotFor(m0, y, k);
        assert m0.off[y] in Indexed(m0) && m0.off[y] != m0.off[i0];
        assert m0.off[y] in Indexed(m);
        var x :| 0 <= x < |m.hash| && m.hash[x] != EMPTY && m.off[x] == m0.off[y];
        assert SlotFor(m, x, k);
      }
    }
  }

  lemma MovedOnly(m: Mem, m': Mem, i: nat, j: nat)
    requires |m.data| > 0 && |m.hash| == |m.off| && i < |m.hash| && j < |m.hash| && i != j
    requires BodyAt(m, m.off[j]) <= |m.data| && m' == Moved(m, i, j)
    ensures m' == m.(hash := m'.hash, off := m'.off, data := m'.data) && |m'.data| == |m.data|
    ensures m'.hash[j := EMPTY] == Moved(m, i, j).hash[j := EMPTY]
    ensures m'.hash == m.hash[i := m.hash[j]] && m'.off == m.off[i := m.off[j]]
  {
  }

  // ------------------------------------------------------------- how far entries move

  /** The entry at slot x of m sat at slot y of m0: the same slot, or one further from home. */
  ghost predicate CameFrom(m0: Mem, m: Mem, i0: nat, x: nat, y: nat) {
    && |m.hash| == |m.off| == |m0.hash| == |m0.off| && i0 < |m.hash| && x < |m.hash| && y < |m.hash|
    && m0.hash[y] == m.hash[x] != EMPTY && m.off[x] == m0.off[y]
    && Dist(i0, x, |m.hash|) <= Dist(i0, y, |m.hash|)
    && (x == y || Displacement(m.hash[x], x, |m.hash|) < Displacement(m.hash[x], y, |m.hash|))
  }

  /** Entries only moved back towards i0, and towards their homes. */
  ghost predicate MovedBack(m0: Mem, m: Mem, i0: nat) {
    forall x: nat | x < |m.hash| && m.hash[x] != EMPTY :: exists y: nat :: CameFrom(m0, m, i0, x, y)
  }

  /** The record at slot x of m was at slot y of m0: the same slot, or one further from home. */
  ghost predicate Kept(m0: Mem, m: Mem, x: nat, y: nat) {
    && |m.hash| == |m.off| == |m0.hash| == |m0.off| && x < |m.hash| && y < |m.hash|
    && m0.hash[y] == m.hash[x] != EMPTY && m0.off[y] in m0.book && m.off[x] in m.book
    && m.book[m.off[x]] == m0.book[m0.off[y]]
    && (x == y || Displacement(m.hash[x], x, |m.hash|) < Displacement(m.hash[x], y, |m.hash|))
  }

  /** Apart from the records in `extra` nothing new is indexed, and what was there stayed in its slot or moved
      towards its home. */
  ghost predicate Drifts(m0: Mem, m: Mem, extra: set<Rec>) {
    && |m.hash| == |m.off| == |m0.hash| == |m0.off|
    && forall x: nat | x < |m.hash| && m.hash[x] != EMPTY && m.off[x] in m.book && m.book[m.off[x]] !in extra ::
         exists y: nat :: Kept(m0, m, x, y)
  }

  lemma SameDrifts(m0: Mem, m1: Mem, m: Mem, extra: set<Rec>)
    requires Drifts(m0, m1, extra) && m.hash == m1.hash && m.off == m1.off && m.book == m1.book
    ensures Drifts(m0, m, extra)
  {
    forall x: nat | x < |m.hash| && m.hash[x] != EMPTY && m.off[x] in m.book && m.book[m.off[x]] !in extra
      ensures exists y: nat :: Kept(m0, m, x, y)
    {
      var y: nat :| Kept(m0, m1, x, y);
      assert Kept(m0, m, x, y);
    }
  }

  lemma NothingDrifts(m: Mem)
    requires |m.hash| == |m.off|
    ensures Drifts(m, m, {})
  {
    forall x: nat | x < |m.hash| && m.hash[x] != EMPTY && m.off[x] in m.book
      ensures exists y: nat :: Kept(m, m, x, y)
    {
      assert Kept(m, m, x, x);
    }
  }

  lemma DriftsTwice(m0: Mem, m1: Mem, m: Mem, extra: set<Rec>)
    requires Drifts(m0, m1, {}) && Drifts(m1, m, extra)
    ensures Drifts(m0, m, extra)
  {
    hide Home;
    forall x: nat | x < |m.hash| && m.hash[x] != EMPTY && m.off[x] in m.book && m.book[m.off[x]] !in extra
      ensures exists y: nat :: Kept(m0, m, x, y)
    {
      var z: nat :| Kept(m1, m, x, z);
      var y: nat :| Kept(m0, m1, z, y);
      assert Kept(m0, m, x, y);
    }
  }

  lemma MovedDrifts(m0: Mem, m: Mem, i: nat)
    requires |m.hash| == |m.off| == |m0.hash| == |m0.off| && m.book == m0.book && MovedBack(m0, m, i)
    ensures Drifts(m0, m, {})
  {
    hide Home;
    forall x: nat | x < |m.hash| && m.hash[x] != EMPTY && m.off[x] in m.book
      ensures exists y: nat :: Kept(m0, m, x, y)
    {
      var y: nat :| CameFrom(m0, m, i, x, y);
      assert Kept(m0, m, x, y);
    }
  }

  /** The record of a slot is published again at h. */
  lemma AgainDrifts(m0: Mem, m: Mem, slot: nat, h: nat)
    requires |m0.hash| == |m0.off| && slot < |m0.hash| && m0.off[slot] in m0.book && h !in m0.book
    requires m.hash == m0.hash && m.off == m0.off[slot := h] && m.book == m0.book[h := m0.book[m0.off[slot]]]
    requires forall x | 0 <= x < |m0.hash| && m0.hash[x] != EMPTY :: m0.off[x] in m0.book
    ensures Drifts(m0, m, {})
  {
    forall x: nat | x < |m.hash| && m.hash[x] != EMPTY && m.off[x] in m.book
      ensures exists y: nat :: Kept(m0, m, x, y)
    {
      assert Kept(m0, m, x, x);
    }
  }

  /** A record r gets an empty slot. */
  lemma InsertDrifts(m0: Mem, m: Mem, slot: nat, pos: nat, r: Rec)
    requires |m0.hash| == |m0.off| && slot < |m0.hash| && m0.hash[slot] == EMPTY && pos !in m0.book
    requires m.hash == m0.hash[slot := r.hash] && m.off == m0.off[slot := pos] && m.book == m0.book[pos := r]
    requires forall x | 0 <= x < |m0.hash| && m0.hash[x] != EMPTY :: m0.off[x] in m0.book
    ensures Drifts(m0, m, {r})
  {
    forall x: nat | x < |m.hash| && m.hash[x] != EMPTY && m.off[x] in m.book && m.book[m.off[x]] !in {r}
      ensures exists y: nat :: Kept(m0, m, x, y)
    {
      assert Kept(m0, m, x, x);
    }
  }

  /** On the way from i0 the hole i does not lie beyond the cut c. */
  ghost predicate HoleBefore(m0: Mem, m: Mem, i0: nat, i: nat, c: nat) {
    && |m.hash| == |m.off| == |m0.hash| == |m0.off| && i0 < |m.hash| && i < |m.hash|
    && CutAt(Vacated(m, i).hash, c) && Dist(i0, i, |m.hash|) <= Dist(i0, c, |m.hash|)
    && MovedBack(m0, Vacated(m, i), i0)
  }

  lemma HoleBeforeBegins(m: Mem, i: nat, c: nat)
    requires |m.hash| == |m.off| && i < |m.hash| && m.hash[i] != EMPTY && CutAt(m.hash, c)
    ensures HoleBefore(m, m, i, i, c)
  {
    hide Home;
    var v := Vacated(m, i);
    forall x: nat | x < |v.hash| && v.hash[x] != EMPTY
      ensures exists y: nat :: CameFrom(m, v, i, x, y)
    {
      assert CameFrom(m, v, i, x, x);
    }
  }

  /** An entry whose path passes the hole i, and does not pass the cut, sits between the two. */
  lemma BeforeCut(i0: nat, i: nat, j: nat, k: nat, c: nat, n: nat)
    requires i0 < n && i < n && j < n && k < n && c < n && i != j
    requires !MustStay(i, j, k) && Dist(k, j, n) <= Dist(k, c, n) && Dist(i0, i, n) <= Dist(i0, c, n)
    ensures Dist(i0, i, n) < Dist(i0, j, n) <= Dist(i0, c, n)
    ensures Dist(k, i, n) < Dist(k, j, n)
  {
    MustStayMeansHomeAfterHole(i, j, k, n);
  }

  lemma CutStays(h: seq<nat>, i: nat, j: nat, c: nat)
    requires i < |h| && j < |h| && i != j && CutAt(h, c)
    requires Dist(Home(h[j], |h|), i, |h|) <= Dist(Home(h[j], |h|), j, |h|)
    ensures CutAt(h[i := h[j]][j := EMPTY], c)
  {
    hide Home;
    hide Dist;
  }

  lemma HoleStaysBefore(m0: Mem, i0: nat, m: Mem, i: nat, j: nat, c: nat)
    requires |m.data| > 0 && HoleBefore(m0, m, i0, i, c) && m.hash[i] == EMPTY
    requires j < |m.hash| && j != i && m.hash[j] != EMPTY && BodyAt(m, m.off[j]) <= |m.data|
    requires !MustStay(i, j, Home(m.hash[j], |m.hash|))
    ensures HoleBefore(m0, Moved(m, i, j), i0, j, c)
  {
    hide Home;
    hide MustStay;
    hide Phys;
    hide Splice;
    hide CutAt;
    hide Dist;
    var n := |m.hash|;
    assert m.hash[i := EMPTY] == m.hash && Vacated(m, i) == m;
    CutReaches(m.hash, j, c);
    BeforeCut(i0, i, j, Home(m.hash[j], n), c, n);
    CutStays(m.hash, i, j, c);
    var v := Vacated(Moved(m, i, j), j);
    forall x: nat | x < n && v.hash[x] != EMPTY
      ensures exists y: nat :: CameFrom(m0, v, i0, x, y)
    {
      var x' := if x == i then j else x;
      var y: nat :| CameFrom(m0, m, i0, x', y);
      assert CameFrom(m0, v, i0, x, y);
    }
  }

  lemma CutReaches(h: seq<nat>, j: nat, c: nat)
    requires CutAt(h, c) && j < |h| && h[j] != EMPTY
    ensures Dist(Home(h[j], |h|), j, |h|) <= Dist(Home(h[j], |h|), c, |h|) && c < |h|
  {
  }

  // ------------------------------------------------------------- the loop of one deletion

  /** The invariant of the deletion loop, for any cut c. */
  ghost predicate Deleting(m0: Mem, i0: nat, m: Mem, i: nat, c: nat, lay: Layout) {
    && MidShift(m0, i0, m, i, lay) && BytesInv(m, lay)
    && HoleBefore(m0, m, i0, i, c)
  }

  lemma DeletingBegins(m: Mem, lay: Layout, i: nat) returns (c: nat)
    requires IndexInv(m, lay) && BytesInv(m, lay) && i < |m.hash| && m.hash[i] != EMPTY
    ensures Deleting(m, i, m, i, c, lay) && m.off[i] in m.book
  {
    hide MidShift;
    hide BytesInv;
    hide Unbroken;
    hide CutAt;
    assert SlotOk(m, lay, i);
    DeletionBegins(m, lay, i);
    c :| CutAt(m.hash, c);
    HoleBeforeBegins(m, i, c);
  }

  lemma DeletingVacated(m0: Mem, i0: nat, m1: Mem, m: Mem, i: nat, c: nat, lay: Layout)
    requires Deleting(m0, i0, m1, i, c, lay) && i < |m1.hash| && m == m1.(hash := m1.hash[i := EMPTY])
    ensures Deleting(m0, i0, m, i, c, lay) && ReachableBut(m.hash, i) && m.hash[i := EMPTY] == m.hash
  {
    hide BytesInv;
    hide ReachableBut;
    hide Count;
    hide SlotsOk;
    hide MovedBack;
    assert m.hash[i := EMPTY] == m.hash && Vacated(m, i) == Vacated(m1, i) == m;
    SlotsDoNotMatter(m1, m, lay);
  }

  lemma DeletingShifts(m0: Mem, i0: nat, m: Mem, i: nat, j: nat, c: nat, lay: Layout, tail: nat, head: nat)
    requires LogInv(|m.data|, lay, tail, head) && |m.hash| <= SLOT_PAD && Deleting(m0, i0, m, i, c, lay)
    requires i < |m.hash| && m.hash[i] == EMPTY && m.hash[i := EMPTY] == m.hash
    requires j < |m.hash| && j != i && m.hash[j] != EMPTY && !MustStay(i, j, Home(m.hash[j], |m.hash|))
    ensures |m.hash| == |m.off| && |m.data| > 0 && BytesInv(m, lay) && SlotOk(m, lay, j)
    ensures BodyAt(m, m.off[j]) <= |m.data|
    ensures Deleting(m0, i0, Moved(m, i, j), j, c, lay)
    ensures TotalDisplacement(Moved(m, i, j).hash[j := EMPTY]) < TotalDisplacement(m.hash)
  {
    hide BytesInv;
    hide LogInv;
    hide Moved;
    hide Home;
    ShiftMoves(m0, i0, m, i, j, lay, tail, head);
    assert Vacated(m, i) == m && SlotOk(m, lay, j);
    hide MidShift;
    hide TotalDisplacement;
    HoleStaysBefore(m0, i0, m, i, j, c);
  }

  /** What one deletion has done when it ends: exactly one pair is gone. */
  ghost predicate Deleted(m0: Mem, i0: nat, m: Mem, lay: Layout) {
    && |m.hash| == |m.off| == |m0.hash| == |m0.off| && |m.data| == |m0.data| && i0 < |m0.hash|
    && m0.off[i0] in m0.book && KeysDiffer(m0)
    && BytesInv(m, lay) && IndexInv(m, lay)
    && Pairs(m.hash, m.off) == Pairs(m0.hash, m0.off) - {(m0.hash[i0], m0.off[i0])}
    && Indexed(m) == Indexed(m0) - {m0.off[i0]}
    && View(m) == View(m0) - {m0.book[m0.off[i0]].key}
    && Count(m.hash) + 1 == Count(m0.hash)
    && IndexedBytes(m) + BlockOf(m.book, m0.off[i0]) == IndexedBytes(m0)
    && (exists x :: 0 <= x < |m.hash| && m.hash[x] == EMPTY)
    && MovedBack(m0, m, i0)
  }

  lemma DeletedParts(m0: Mem, i0: nat, m: Mem, lay: Layout)
    requires Deleted(m0, i0, m, lay)
    ensures |m.hash| == |m.off| == |m0.hash| == |m0.off| && |m.data| == |m0.data| && i0 < |m0.hash|
    ensures m0.off[i0] in m0.book && KeysDiffer(m0) && KeysDiffer(m) && BytesInv(m, lay) && IndexInv(m, lay)
    ensures Indexed(m) == Indexed(m0) - {m0.off[i0]}
    ensures View(m) == View(m0) - {m0.book[m0.off[i0]].key}
    ensures Count(m.hash) + 1 == Count(m0.hash)
    ensures IndexedBytes(m) + BlockOf(m.book, m0.off[i0]) == IndexedBytes(m0)
    ensures exists x :: 0 <= x < |m.hash| && m.hash[x] == EMPTY
    ensures MovedBack(m0, m, i0)
  {
  }

  lemma DeletingEnds(m0: Mem, i0: nat, m: Mem, i: nat, c: nat, lay: Layout)
    requires IndexInv(m0, lay) && i0 < |m0.hash| && m0.hash[i0] != EMPTY && m0.off[i0] in m0.book
    requires Deleting(m0, i0, m, i, c, lay) && i < |m.hash| && m.hash[i] == EMPTY && m.hash[i := EMPTY] == m.hash
    requires Reachable(m.hash)
    ensures Deleted(m0, i0, m, lay)
  {
    hide Reachable;
    hide BytesInv;
    DeletionEnds(m0, i0, m, i, lay);
    assert Vacated(m, i) == m;
    hide Pairs;
    hide Indexed;
    hide View;
    hide SlotsOk;
    hide KeysDiffer;
    hide MovedBack;
    hide ReachableBut;
    hide Count;
  }
}
