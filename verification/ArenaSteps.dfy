/** What one step of an operation does to the arena invariant and to the abstract map. */
module ArenaSteps {
  import opened Bytes
  import opened Wrapping
  import opened Records
  import opened Probing
  import opened SharedMemory
  import opened LogLayout
  import opened ArenaState
  import opened HeadBlocks
  import opened Shifting
  import opened Allocation
  import opened Expiry
  import opened Invalidation

  type Hash = seq<byte> -> nat

  /** The bindings of a are bindings of b. */
  ghost predicate Submap(a: map<seq<byte>, Rec>, b: map<seq<byte>, Rec>) {
    forall k | k in a :: k in b && a[k] == b[k]
  }

  /** The book keeps every record, and what is new in it is a record it has already, at another position,
      or one of `extra`. */
  ghost predicate Grows(a: map<nat, Rec>, b: map<nat, Rec>, extra: set<Rec>) {
    && (forall p | p in a :: p in b && b[p] == a[p])
    && (forall p | p in b :: b[p] in extra || b[p] in a.Values)
  }

  /** One tail advance took the arena from (m0, t0, h0) to (m, t, h) and the budget of second
      chances from b0 to b: the tail passed exactly one segment; either the head stayed and at most
      the key of that segment was evicted, or one second chance was spent, the head moved by as
      much as the tail and no binding changed. */
  ghost predicate DropStep(m0: Mem, lay0: Layout, t0: nat, h0: nat, b0: nat, m: Mem, t: nat, h: nat, b: nat) {
    && SameShape(m0, m) && m.retired == m0.retired && Grows(m0.book, m.book, {}) && Drifts(m0, m, {})
    && KeysDiffer(m0) && KeysDiffer(m) && Count(m.hash) <= Count(m0.hash)
    && t0 in lay0 && t == t0 + lay0[t0].len
    && if b == b0 then h == h0 && (View(m) == View(m0) || Evicts(m0, m, t0))
       else b + 1 == b0 && h == h0 + lay0[t0].len && View(m) == View(m0)
  }

  ghost predicate SameShape(m0: Mem, m: Mem) {
    |m.hash| == |m.off| == |m0.hash| == |m0.off| && |m.data| == |m0.data| > 0
  }

  /** The record at p lost its binding, and nothing else changed. */
  ghost predicate Evicts(m0: Mem, m: Mem, p: nat)
    requires SameShape(m0, m) && KeysDiffer(m0) && KeysDiffer(m)
  {
    p in m0.book && View(m) == View(m0) - {m0.book[p].key}
  }

  lemma DropStepShrinks(m0: Mem, lay0: Layout, t0: nat, h0: nat, b0: nat, m: Mem, t: nat, h: nat, b: nat)
    requires DropStep(m0, lay0, t0, h0, b0, m, t, h, b)
    ensures |m.hash| == |m.off| && |m0.hash| == |m0.off| && KeysDiffer(m) && KeysDiffer(m0)
    ensures Submap(View(m), View(m0))
  {
    hide View;
    hide Count;
    hide KeysDiffer;
    hide Drifts;
  }

  lemma PassIsDropStep(m0: Mem, lay0: Layout, t0: nat, h: nat, b: nat, m1: Mem, m: Mem, t: nat)
    requires SameShape(m0, m1) && m1 == m0.(hash := m1.hash, off := m1.off, data := m1.data)
    requires KeysDiffer(m0) && KeysDiffer(m1) && (m1 == m0 || (Evicts(m0, m1, t0) && Count(m1.hash) <= Count(m0.hash)))
    requires m == m1.(tailPub := t) && KeysDiffer(m) && View(m) == View(m1) && Drifts(m0, m1, {})
    requires t0 in lay0 && t == t0 + lay0[t0].len
    ensures DropStep(m0, lay0, t0, h, b, m, t, h, b)
  {
    SameDrifts(m0, m1, m, {});
    hide Drifts;
    hide View;
    hide Count;
    hide KeysDiffer;
  }

  lemma AgainIsDropStep(m0: Mem, lay0: Layout, t0: nat, h0: nat, b: nat, m: Mem, t: nat, h: nat)
    requires SameShape(m0, m) && t0 in m0.book && h0 !in m0.book
    requires m == m0.(book := m0.book[h0 := m0.book[t0]], off := m.off, data := m.data, tailPub := t)
    requires KeysDiffer(m0) && KeysDiffer(m) && View(m) == View(m0) && Drifts(m0, m, {})
    requires t0 in lay0 && t == t0 + lay0[t0].len && h == h0 + lay0[t0].len
    ensures DropStep(m0, lay0, t0, h0, b + 1, m, t, h, b)
  {
    hide View;
    hide Count;
    hide KeysDiffer;
    hide Drifts;
  }

  /** The tail passes a segment that no slot points at. */
  lemma TailPasses(f: Hash, m: Mem, m': Mem, lay: Layout, tail: nat, head: nat, inserts: nat)
    requires ArenaInv(f, m, lay, tail, head, inserts) && tail < head
    requires tail in lay && tail !in Indexed(m)
    requires m' == m.(tailPub := tail + lay[tail].len) && MemInv(m')
    ensures ArenaInv(f, m', lay - {tail}, tail + lay[tail].len, head, inserts)
    ensures KeysDiffer(m) && KeysDiffer(m')
    ensures View(m') == View(m) && IndexedBytes(m') == IndexedBytes(m)
  {
    hide Phys;
    hide SegOk;
    hide SlotField;
    hide SeqField;
    hide BlockField;
    hide Reachable;
    hide Holds;
    hide Rec.Fits;
    HeadIsFresh(f, m, lay, tail, head, inserts);
    DropSeg(|m.data|, lay, tail, head);
    hide LogInv;
    BytesPassed(m, m', lay, tail);
    SlotsPassed(m, m', lay, tail);
    SlotsAreInBook(m, lay);
    hide MemInv;
    hide BytesInv;
    hide SlotsOk;
    SameSlotsSameView(m, m');
  }

  lemma BytesPassed(m: Mem, m': Mem, lay: Layout, tail: nat)
    requires BytesInv(m, lay) && tail in lay && lay[tail].len > 0 && m.tailPub == tail
    requires m' == m.(tailPub := tail + lay[tail].len)
    ensures BytesInv(m', lay - {tail})
  {
    var lay' := lay - {tail};
    forall p | p in lay'
      ensures SegBytes(m', lay', p)
    {
      assert SegBytes(m, lay, p);
    }
    forall p | p in m'.book && m'.tailPub <= p
      ensures p in lay' && lay'[p].Entry?
    {
      assert p in lay && lay[p].Entry?;
    }
  }

  lemma SlotsPassed(m: Mem, m': Mem, lay: Layout, tail: nat)
    requires SlotsOk(m, lay) && tail in lay && tail !in Indexed(m)
    requires m' == m.(tailPub := tail + lay[tail].len)
    ensures SlotsOk(m', lay - {tail})
  {
    forall x | 0 <= x < |m.hash|
      ensures SlotOk(m', lay - {tail}, x)
    {
      assert SlotOk(m, lay, x);
      assert m.hash[x] != EMPTY ==> m.off[x] in Indexed(m);
    }
  }

  /** The view depends on the slots and on the records they point at. */
  lemma SameSlotsSameView(m: Mem, m': Mem)
    requires |m.hash| == |m.off| == |m'.off| && m'.hash == m.hash && KeysDiffer(m)
    requires forall x | 0 <= x < |m.hash| && m.hash[x] != EMPTY ::
               m.off[x] in m.book && m'.off[x] in m'.book && m'.book[m'.off[x]] == m.book[m.off[x]]
    ensures KeysDiffer(m') && View(m') == View(m) && IndexedBytes(m') == IndexedBytes(m)
  {
    assert forall x: nat, k :: SlotFor(m', x, k) <==> SlotFor(m, x, k);
    assert Blocks(m'.hash, m'.off, m'.book) == Blocks(m.hash, m.off, m.book);
    forall k
      ensures k in View(m') <==> k in View(m)
      ensures k in View(m') ==> View(m')[k] == View(m)[k]
    {
      if k in View(m) {
        var x: nat :| SlotFor(m, x, k);
        assert SlotFor(m', x, k);
      }
    }
  }

  lemma SameLength(d: seq<byte>, d': seq<byte>, q: nat, len: nat)
    requires SameOutside(d, d', q, len)
    ensures |d'| == |d|
  {
  }

  lemma BytesAdded(m: Mem, lay: Layout, head: nat, g: Seg)
    requires BytesInv(m, lay) && head !in lay && head !in m.book && !g.Entry?
    requires g.Pad? ==> SlotField(m.data, head) == SLOT_PAD && BlockField(m.data, head) == g.len
    ensures BytesInv(m, lay[head := g])
  {
    hide SlotField;
    hide SeqField;
    hide BlockField;
    var lay' := lay[head := g];
    forall p | p in lay'
      ensures SegBytes(m, lay', p)
    {
      assert p != head ==> SegBytes(m, lay, p);
    }
    forall p | p in m.book && m.tailPub <= p
      ensures p in lay' && lay'[p].Entry?
    {
      assert p in lay && lay[p].Entry? && p != head;
    }
  }

  /** A gap or a pad is added at the head. */
  lemma SegAppended(f: Hash, m: Mem, m': Mem, lay: Layout, tail: nat, head: nat, inserts: nat, g: Seg)
    requires ArenaInv(f, m, lay, tail, head, inserts) && !g.Entry?
    requires SegOk(|m.data|, head, g) && FreeBlock(|m.data|, tail, head, g.len)
    requires m' == m.(data := m'.data) && SameOutside(m.data, m'.data, head, g.len) && MemInv(m')
    requires g.Pad? ==> SlotField(m'.data, head) == SLOT_PAD && BlockField(m'.data, head) == g.len
    ensures ArenaInv(f, m', lay[head := g], tail, head + g.len, inserts)
    ensures KeysDiffer(m) && KeysDiffer(m')
    ensures View(m') == View(m) && IndexedBytes(m') == IndexedBytes(m)
  {
    hide Phys;
    hide SegOk;
    hide LogInv;
    hide SameOutside;
    hide FreeBlock;
    hide HashOf;
    hide Reachable;
    hide BytesInv;
    HeadIsFresh(f, m, lay, tail, head, inserts);
    SameLength(m.data, m'.data, head, g.len);
    var lay' := lay[head := g];
    AppendSeg(|m.data|, lay, tail, head, g);
    BlockWriteKeeps(m, m', lay, tail, head, g.len);
    BytesAdded(m', lay, head, g);
    forall x | 0 <= x < |m.hash|
      ensures SlotOk(m', lay', x)
    {
      assert SlotOk(m', lay, x);
    }
    SameSlotsSameView(m, m');
  }

  /** The entry at the tail is published again at the head, by either of the two ways: the bytes
      of every other segment header stay, and those at the head are those of the record. */
  ghost predicate Reappends(f: Hash, m: Mem, m': Mem, lay: Layout, tail: nat, head: nat, inserts: nat, slot: nat) {
    && ArenaInv(f, m, lay, tail, head, inserts) && tail < head
    && slot < |m.hash| && m.hash[slot] != EMPTY && m.off[slot] == tail
    && tail in m.book && tail in lay
    && m' == m.(data := m'.data, book := m.book[head := m.book[tail]], off := m.off[slot := head],
                tailPub := tail + lay[tail].len)
    && |m'.data| == |m.data| && MemInv(m')
    && SegOk(|m.data|, head, lay[tail]) && FreeBlock(|m.data|, tail + lay[tail].len, head, lay[tail].len)
    && HeadersSame(m.data, m'.data, lay, tail)
    && SlotField(m'.data, head) == slot && SeqField(m'.data, head) % 2 == 0
  }

  /** Every segment header but the one at `skip` reads the same. */
  ghost predicate HeadersSame(d: seq<byte>, d': seq<byte>, lay: Layout, skip: nat) {
    && |d| > 0 && |d'| > 0
    && forall p | p in lay && !lay[p].Gap? && p != skip ::
         && SlotField(d', p) == SlotField(d, p) && SeqField(d', p) == SeqField(d, p)
         && BlockField(d', p) == BlockField(d, p)
  }

  lemma Reappended(f: Hash, m: Mem, m': Mem, lay: Layout, tail: nat, head: nat, inserts: nat, slot: nat)
    requires Reappends(f, m, m', lay, tail, head, inserts, slot)
    ensures ArenaInv(f, m', (lay - {tail})[head := lay[tail]], tail + lay[tail].len, head + lay[tail].len, inserts)
    ensures |m.hash| == |m.off| == |m'.off| == |m'.hash| && KeysDiffer(m) && KeysDiffer(m')
    ensures View(m') == View(m) && IndexedBytes(m') == IndexedBytes(m)
  {
    hide *;
    ReappendedLog(f, m, m', lay, tail, head, inserts, slot);
    ReappendedBytes(f, m, m', lay, tail, head, inserts, slot);
    ReappendedSlots(f, m, m', lay, tail, head, inserts, slot);
    ReappendedSame(f, m, m', lay, tail, head, inserts, slot);
    Compose(f, m', (lay - {tail})[head := lay[tail]], tail + lay[tail].len, head + lay[tail].len, inserts);
  }

  lemma Compose(f: Hash, m: Mem, lay: Layout, tail: nat, head: nat, inserts: nat)
    requires MemInv(m) && m.tailPub == tail && 0 < |m.hash| <= SLOT_PAD
    requires LogInv(|m.data|, lay, tail, head) && BytesInv(m, lay)
    requires Reachable(m.hash) && SlotsOk(m, lay) && KeysDiffer(m) && BookInv(f, m, inserts)
    ensures ArenaInv(f, m, lay, tail, head, inserts)
  {
  }

  lemma ReappendedLog(f: Hash, m: Mem, m': Mem, lay: Layout, tail: nat, head: nat, inserts: nat, slot: nat)
    requires Reappends(f, m, m', lay, tail, head, inserts, slot)
    ensures tail in lay && MemInv(m') && m'.tailPub == tail + lay[tail].len && 0 < |m'.hash| <= SLOT_PAD
    ensures LogInv(|m'.data|, (lay - {tail})[head := lay[tail]], tail + lay[tail].len, head + lay[tail].len)
    ensures Reachable(m'.hash) && BookInv(f, m', inserts)
  {
    hide SegOk;
    hide BytesInv;
    hide HeadersSame;
    RotateSeg(|m.data|, lay, tail, head);
    hide MemInv;
    hide LogInv;
    hide Reachable;
    hide SlotsOk;
  }

  lemma ReappendedBytes(f: Hash, m: Mem, m': Mem, lay: Layout, tail: nat, head: nat, inserts: nat, slot: nat)
    requires Reappends(f, m, m', lay, tail, head, inserts, slot)
    ensures BytesInv(m', (lay - {tail})[head := lay[tail]])
  {
    hide Phys;
    hide SlotField;
    hide SeqField;
    hide BlockField;
    hide Reachable;
    HeadIsFresh(f, m, lay, tail, head, inserts);
    assert SlotOk(m, lay, slot);
    hide MemInv;
    hide LogInv;
    hide SegOk;
    hide BytesInv;
    hide HeadersSame;
    hide FreeBlock;
    BytesRotate(m, m', lay, tail, head);
  }

  lemma BytesRotate(m: Mem, m': Mem, lay: Layout, tail: nat, head: nat)
    requires BytesInv(m, lay) && m.tailPub == tail && tail in lay && lay[tail].Entry? && tail in m.book && tail < head
    requires m'.book == m.book[head := m.book[tail]] && m'.tailPub == tail + lay[tail].len && lay[tail].len > 0
    requires |m'.data| == |m.data| && |m'.hash| == |m.hash| && head !in lay
    requires HeadersSame(m.data, m'.data, lay, tail)
    requires SlotField(m'.data, head) < |m.hash| && SeqField(m'.data, head) % 2 == 0
    ensures BytesInv(m', (lay - {tail})[head := lay[tail]])
  {
    hide Phys;
    hide SlotField;
    hide SeqField;
    hide BlockField;
    var lay' := (lay - {tail})[head := lay[tail]];
    assert SegBytes(m, lay, tail);
    forall p | p in lay'
      ensures SegBytes(m', lay', p)
    {
      assert p != head ==> SegBytes(m, lay, p);
    }
    forall p | p in m'.book && m'.tailPub <= p
      ensures p in lay' && lay'[p].Entry?
    {
      assert p != head ==> p in lay && lay[p].Entry?;
    }
  }

  lemma ReappendedSlots(f: Hash, m: Mem, m': Mem, lay: Layout, tail: nat, head: nat, inserts: nat, slot: nat)
    requires Reappends(f, m, m', lay, tail, head, inserts, slot)
    ensures SlotsOk(m', (lay - {tail})[head := lay[tail]])
  {
    hide Phys;
    HeadIsFresh(f, m, lay, tail, head, inserts);
    assert SlotOk(m, lay, slot);
    hide BytesInv;
    hide LogInv;
    hide SegOk;
    SlotsRotate(m, m', lay, tail, head, slot);
  }

  lemma SlotsRotate(m: Mem, m': Mem, lay: Layout, tail: nat, head: nat, slot: nat)
    requires SlotsOk(m, lay) && |m'.data| == |m.data| && m'.hash == m.hash
    requires slot < |m.hash| && m.hash[slot] != EMPTY && m.off[slot] == tail && m'.off == m.off[slot := head]
    requires tail in lay && lay[tail].Entry? && tail in m.book && m'.book == m.book[head := m.book[tail]]
    requires HeadersSame(m.data, m'.data, lay, tail)
    requires SlotField(m'.data, head) == slot && head !in lay
    ensures SlotsOk(m', (lay - {tail})[head := lay[tail]])
  {
    hide Phys;
    var lay' := (lay - {tail})[head := lay[tail]];
    assert SlotOk(m, lay, slot);
    forall x | 0 <= x < |m.hash|
      ensures SlotOk(m', lay', x)
    {
      assert SlotOk(m, lay, x);
    }
  }

  lemma ReappendedSame(f: Hash, m: Mem, m': Mem, lay: Layout, tail: nat, head: nat, inserts: nat, slot: nat)
    requires Reappends(f, m, m', lay, tail, head, inserts, slot)
    ensures |m.hash| == |m.off| == |m'.off| == |m'.hash| && KeysDiffer(m) && KeysDiffer(m')
    ensures View(m') == View(m) && IndexedBytes(m') == IndexedBytes(m)
  {
    hide LogInv;
    hide MemInv;
    hide SegOk;
    hide BytesInv;
    hide BookInv;
    HeadIsFresh(f, m, lay, tail, head, inserts);
    SlotsAreInBook(m, lay);
    SameSlotsSameView(m, m');
  }

  lemma HeadIsFresh(f: Hash, m: Mem, lay: Layout, tail: nat, head: nat, inserts: nat)
    requires ArenaInv(f, m, lay, tail, head, inserts)
    ensures head !in lay && head !in m.book && forall p | p in lay :: p < head && lay[p].len > 0
  {
    assert forall p | p in lay :: SegOk(|m.data|, p, lay[p]);
  }

  /** What a probe needs to know about the slots. */
  lemma SlotsPointAtRecords(f: Hash, m: Mem, lay: Layout, tail: nat, head: nat, inserts: nat)
    requires ArenaInv(f, m, lay, tail, head, inserts)
    ensures |m.hash| == |m.off| && Reachable(m.hash) && SlotsOk(m, lay)
    ensures forall x | 0 <= x < |m.hash| && m.hash[x] != EMPTY ::
              m.off[x] in m.book && m.tailPub <= m.off[x] && m.hash[x] == HashOf(f, m.book[m.off[x]].key)
  {
    forall x | 0 <= x < |m.hash| && m.hash[x] != EMPTY
      ensures m.off[x] in m.book && m.tailPub <= m.off[x] && m.hash[x] == HashOf(f, m.book[m.off[x]].key)
    {
      assert SlotOk(m, lay, x) && Current(m, m.off[x]);
    }
  }

  /** The first `probes` slots on the probe path of hv do not hold `key`. */
  ghost predicate NotAmongFirst(m: Mem, hv: nat, probes: nat, key: seq<byte>)
    requires |m.hash| > 0
  {
    forall y: nat | y < |m.hash| && Dist(Home(hv, |m.hash|), y, |m.hash|) < probes :: !SlotFor(m, y, key)
  }

  lemma SearchBegins(m: Mem, hv: nat, key: seq<byte>)
    requires |m.hash| > 0
    ensures NotAmongFirst(m, hv, 0, key) && Home(hv, |m.hash|) == Probe(hv, 0, |m.hash|)
  {
  }

  lemma NotAmongNext(m: Mem, hv: nat, probes: nat, i: nat, key: seq<byte>)
    requires |m.hash| > 0 && probes < |m.hash| && i == Probe(hv, probes, |m.hash|)
    requires NotAmongFirst(m, hv, probes, key) && !SlotFor(m, i, key)
    ensures NotAmongFirst(m, hv, probes + 1, key)
    ensures probes + 1 < |m.hash| ==> Next(i, |m.hash|) == Probe(hv, probes + 1, |m.hash|)
  {
    hide Home;
  }

  lemma WrongHash(f: Hash, m: Mem, lay: Layout, tail: nat, head: nat, inserts: nat, i: nat, key: seq<byte>)
    requires ArenaInv(f, m, lay, tail, head, inserts) && i < |m.hash|
    ensures m.hash[i] != HashOf(f, key) ==> !SlotFor(m, i, key)
  {
    SlotsPointAtRecords(f, m, lay, tail, head, inserts);
  }

  lemma ProbedEverywhere(m: Mem, hv: nat, key: seq<byte>)
    requires |m.hash| == |m.off| > 0 && NotAmongFirst(m, hv, |m.hash|, key)
    ensures key !in Keys(m)
  {
    hide Home;
  }

  /** An empty slot ends the search: the key is nowhere. */
  lemma ProbeEndsAtEmpty(f: Hash, m: Mem, lay: Layout, tail: nat, head: nat, inserts: nat, probes: nat, key: seq<byte>)
    requires ArenaInv(f, m, lay, tail, head, inserts) && probes < |m.hash|
    requires NotAmongFirst(m, HashOf(f, key), probes, key)
    requires m.hash[Probe(HashOf(f, key), probes, |m.hash|)] == EMPTY
    ensures |m.hash| == |m.off| && key !in Keys(m)
  {
    SlotsPointAtRecords(f, m, lay, tail, head, inserts);
    hide ArenaInv;
    var hv, n := HashOf(f, key), |m.hash|;
    forall y: nat | y < n
      ensures !SlotFor(m, y, key)
    {
      if Dist(Home(hv, n), y, n) >= probes {
        EmptyEndsProbe(m.hash, hv, probes, y);
      }
    }
  }

  /** An occupied slot points at a record in the log, the tail has not passed it, and its block is
      counted. */
  lemma SlotAt(f: Hash, m: Mem, lay: Layout, tail: nat, head: nat, inserts: nat, x: nat)
    requires ArenaInv(f, m, lay, tail, head, inserts) && x < |m.hash| && m.hash[x] != EMPTY
    ensures |m.hash| == |m.off| && m.off[x] in m.book && tail <= m.off[x] && m.tailPub == tail
    ensures IndexInv(m, lay) && BytesInv(m, lay) && LogInv(|m.data|, lay, tail, head) && |m.hash| <= SLOT_PAD
  {
    assert SlotOk(m, lay, x) && Current(m, m.off[x]);
  }

  /** Taking entries out of the index leaves the rest of the invariant alone. */
  lemma RemovalKeeps(f: Hash, m: Mem, m': Mem, lay: Layout, tail: nat, head: nat, inserts: nat)
    requires ArenaInv(f, m, lay, tail, head, inserts) && MemInv(m')
    requires m' == m.(hash := m'.hash, off := m'.off, data := m'.data)
    requires |m'.hash| == |m.hash| && |m'.data| == |m.data| && BytesInv(m', lay) && IndexInv(m', lay)
    ensures ArenaInv(f, m', lay, tail, head, inserts)
    ensures SameShape(m, m') && KeysDiffer(m) && KeysDiffer(m')
  {
    hide LogInv;
    hide BytesInv;
    hide Reachable;
    hide SlotsOk;
  }

  lemma SlotsAreInBook(m: Mem, lay: Layout)
    requires SlotsOk(m, lay)
    ensures forall x | 0 <= x < |m.hash| && m.hash[x] != EMPTY :: m.off[x] in m.book && m.off[x] in lay
  {
    forall x | 0 <= x < |m.hash| && m.hash[x] != EMPTY
      ensures m.off[x] in m.book && m.off[x] in lay
    {
      assert SlotOk(m, lay, x);
    }
  }

  /** A fresh entry: its record is written into a free block at the head and its slot is the first
      empty one on the probe path of its hash. */
  ghost predicate Inserts(f: Hash, m: Mem, m': Mem, lay: Layout, tail: nat, head: nat, inserts: nat,
                          slot: nat, r: Rec) {
    && ArenaInv(f, m, lay, tail, head, inserts)
    && slot < |m.hash| && FirstFree(m.hash, r.hash, slot)
    && r.hash == HashOf(f, r.key) && r.id == inserts + 1 && r.key !in Keys(m)
    && SegOk(|m.data|, head, Entry(r.blockSize)) && FreeBlock(|m.data|, tail, head, r.blockSize)
    && SameOutside(m.data, m'.data, head, r.blockSize)
    && SlotField(m'.data, head) == slot && SeqField(m'.data, head) % 2 == 0
    && m' == m.(data := m'.data, book := m.book[head := r], off := m.off[slot := head],
                hash := m.hash[slot := r.hash])
    && MemInv(m')
  }

  lemma EntryInserted(f: Hash, m: Mem, m': Mem, lay: Layout, tail: nat, head: nat, inserts: nat,
                      slot: nat, r: Rec)
    requires Inserts(f, m, m', lay, tail, head, inserts, slot, r)
    ensures ArenaInv(f, m', lay[head := Entry(r.blockSize)], tail, head + r.blockSize, inserts + 1)
    ensures |m.hash| == |m.off| == |m'.off| == |m'.hash| && KeysDiffer(m) && KeysDiffer(m')
    ensures View(m') == View(m)[r.key := r]
    ensures Count(m'.hash) == Count(m.hash) + 1
    ensures IndexedBytes(m') == IndexedBytes(m) + r.blockSize
  {
    hide *;
    InsertedLog(f, m, m', lay, tail, head, inserts, slot, r);
    InsertedBytes(f, m, m', lay, tail, head, inserts, slot, r);
    InsertedIndex(f, m, m', lay, tail, head, inserts, slot, r);
    Compose(f, m', lay[head := Entry(r.blockSize)], tail, head + r.blockSize, inserts + 1);
  }

  lemma InsertedLog(f: Hash, m: Mem, m': Mem, lay: Layout, tail: nat, head: nat, inserts: nat, slot: nat, r: Rec)
    requires Inserts(f, m, m', lay, tail, head, inserts, slot, r)
    ensures MemInv(m') && m'.tailPub == tail && 0 < |m'.hash| <= SLOT_PAD
    ensures LogInv(|m'.data|, lay[head := Entry(r.blockSize)], tail, head + r.blockSize)
    ensures Reachable(m'.hash) && BookInv(f, m', inserts + 1)
    ensures Count(m'.hash) == Count(m.hash) + 1
  {
    hide SegOk;
    hide MemInv;
    hide BytesInv;
    hide SlotsOk;
    hide KeysDiffer;
    hide FreeBlock;
    hide LogInv;
    hide SlotField;
    hide SeqField;
    AppendSeg(|m.data|, lay, tail, head, Entry(r.blockSize));
    InsertKeepsReachable(m.hash, r.hash, slot);
    SlotIsFree(m.hash, r.hash, slot);
    CountUpdate(m.hash, slot, r.hash);
    hide Reachable;
    hide FirstFree;
  }

  lemma InsertedBytes(f: Hash, m: Mem, m': Mem, lay: Layout, tail: nat, head: nat, inserts: nat, slot: nat, r: Rec)
    requires Inserts(f, m, m', lay, tail, head, inserts, slot, r)
    ensures BytesInv(m', lay[head := Entry(r.blockSize)])
    ensures SlotsOk(m', lay[head := Entry(r.blockSize)])
  {
    hide MemInv;
    hide BytesInv;
    hide SlotsOk;
    hide KeysDiffer;
    hide Reachable;
    hide FreeBlock;
    hide LogInv;
    hide SameOutside;
    hide SlotField;
    hide SeqField;
    hide SegOk;
    hide Phys;
    HeadIsFresh(f, m, lay, tail, head, inserts);
    SlotIsFree(m.hash, r.hash, slot);
    var w := m.(data := m'.data);
    BlockWriteKeeps(m, w, lay, tail, head, r.blockSize);
    BytesAppended(w, m', lay, head, r);
    SlotsAppended(w, m', lay, head, slot, r);
  }

  lemma BytesAppended(w: Mem, m': Mem, lay: Layout, head: nat, r: Rec)
    requires BytesInv(w, lay) && m'.data == w.data && |m'.hash| == |w.hash| && m'.tailPub == w.tailPub
    requires head !in lay && head !in w.book && m'.book == w.book[head := r]
    requires SlotField(m'.data, head) < |w.hash| && SeqField(m'.data, head) % 2 == 0
    ensures BytesInv(m', lay[head := Entry(r.blockSize)])
  {
    hide Phys;
    hide SlotField;
    hide SeqField;
    hide BlockField;
    var lay' := lay[head := Entry(r.blockSize)];
    forall p | p in lay'
      ensures SegBytes(m', lay', p)
    {
      assert p != head ==> SegBytes(w, lay, p);
    }
    forall p | p in m'.book && m'.tailPub <= p
      ensures p in lay' && lay'[p].Entry?
    {
      assert p != head ==> p in lay && lay[p].Entry?;
    }
  }

  lemma SlotsAppended(w: Mem, m': Mem, lay: Layout, head: nat, slot: nat, r: Rec)
    requires SlotsOk(w, lay) && m'.data == w.data && slot < |w.hash|
    requires head !in lay && m'.book == w.book[head := r]
    requires m'.hash == w.hash[slot := r.hash] && m'.off == w.off[slot := head]
    requires SlotField(m'.data, head) == slot
    ensures SlotsOk(m', lay[head := Entry(r.blockSize)])
  {
    hide Phys;
    hide SlotField;
    var lay' := lay[head := Entry(r.blockSize)];
    forall x | 0 <= x < |m'.hash|
      ensures SlotOk(m', lay', x)
    {
      assert SlotOk(w, lay, x);
    }
  }

  lemma InsertedIndex(f: Hash, m: Mem, m': Mem, lay: Layout, tail: nat, head: nat, inserts: nat, slot: nat, r: Rec)
    requires Inserts(f, m, m', lay, tail, head, inserts, slot, r)
    ensures |m.hash| == |m.off| == |m'.off| == |m'.hash| && KeysDiffer(m) && KeysDiffer(m')
    ensures View(m') == View(m)[r.key := r]
    ensures IndexedBytes(m') == IndexedBytes(m) + r.blockSize
  {
    HeadIsFresh(f, m, lay, tail, head, inserts);
    SlotsAreInBook(m, lay);
    hide LogInv;
    hide MemInv;
    hide BytesInv;
    hide SegOk;
    InsertedView(m, m', head, slot, r);
    InsertedSum(m, m', head, slot, r);
  }

  /** slot is the first empty slot on the probe path of v. */
  ghost predicate FirstFree(h: seq<nat>, v: nat, slot: nat) {
    && slot < |h| && h[slot] == EMPTY
    && forall y | 0 <= y < |h| :: Dist(Home(v, |h|), y, |h|) < Dist(Home(v, |h|), slot, |h|) ==> h[y] != EMPTY
  }

  /** The first `probes` slots on the probe path of v are taken. */
  ghost predicate TakenFirst(h: seq<nat>, v: nat, probes: nat)
    requires |h| > 0
  {
    forall y | 0 <= y < |h| && Dist(Home(v, |h|), y, |h|) < probes :: h[y] != EMPTY
  }

  lemma FreeSearchBegins(h: seq<nat>, v: nat)
    requires |h| > 0
    ensures TakenFirst(h, v, 0) && Home(v, |h|) == Probe(v, 0, |h|)
  {
  }

  lemma FreeSearchStep(h: seq<nat>, v: nat, probes: nat, i: nat)
    requires |h| > 0 && probes < |h| && i == Probe(v, probes, |h|) && TakenFirst(h, v, probes)
    ensures h[i] == EMPTY ==> FirstFree(h, v, i)
    ensures h[i] != EMPTY ==> TakenFirst(h, v, probes + 1)
    ensures probes + 1 < |h| ==> Next(i, |h|) == Probe(v, probes + 1, |h|)
  {
    hide Home;
  }

  lemma AllTaken(h: seq<nat>, v: nat)
    requires |h| > 0 && TakenFirst(h, v, |h|)
    ensures forall x | 0 <= x < |h| :: h[x] != EMPTY
  {
    hide Home;
  }

  lemma InsertKeepsReachable(h: seq<nat>, v: nat, slot: nat)
    requires Reachable(h) && FirstFree(h, v, slot)
    ensures Reachable(h[slot := v])
  {
    EmptyIsCut(h, slot);
    CutAtLast(h, v, slot);
  }

  /** The slot filled last is a cut. */
  lemma CutAtLast(h: seq<nat>, v: nat, slot: nat)
    requires slot < |h| && h[slot] == EMPTY && CutAt(h, slot)
    ensures CutAt(h[slot := v], slot)
  {
    hide Home;
  }

  lemma InsertedSlots(m: Mem, m': Mem, head: nat, slot: nat, r: Rec)
    requires |m.hash| == |m.off| && KeysDiffer(m) && slot < |m.hash| && m.hash[slot] == EMPTY
    requires head !in m.book && m'.book == m.book[head := r] && r.hash != EMPTY
    requires forall x | 0 <= x < |m.hash| && m.hash[x] != EMPTY :: m.off[x] in m.book
    requires m'.hash == m.hash[slot := r.hash] && m'.off == m.off[slot := head]
    ensures forall x: nat, k :: SlotFor(m', x, k) <==> if x == slot then k == r.key else SlotFor(m, x, k)
    ensures forall x: nat, k | SlotFor(m, x, k) ::
              && x < |m.off| && x < |m'.off| && m'.off[x] == m.off[x]
              && m.off[x] in m.book && m'.book[m.off[x]] == m.book[m.off[x]]
    ensures m'.off[slot] == head && m'.book[head] == r
    ensures forall k | k in Keys(m) :: exists x: nat :: SlotFor(m, x, k)
  {
  }

  lemma InsertedView(m: Mem, m': Mem, head: nat, slot: nat, r: Rec)
    requires |m.hash| == |m.off| && KeysDiffer(m) && slot < |m.hash| && m.hash[slot] == EMPTY
    requires head !in m.book && m'.book == m.book[head := r] && r.hash != EMPTY
    requires forall x | 0 <= x < |m.hash| && m.hash[x] != EMPTY :: m.off[x] in m.book
    requires m'.hash == m.hash[slot := r.hash] && m'.off == m.off[slot := head]
    requires r.key !in Keys(m)
    ensures KeysDiffer(m') && View(m') == View(m)[r.key := r]
  {
    hide SlotFor;
    InsertedSlots(m, m', head, slot, r);
    assert KeysDiffer(m') && SlotFor(m', slot, r.key);
    forall k | k != r.key
      ensures k in View(m') <==> k in View(m)
      ensures k in View(m') ==> View(m')[k] == View(m)[k]
    {
      if k in View(m) {
        var x: nat :| SlotFor(m, x, k);
        assert SlotFor(m', x, k);
      }
    }
  }

  lemma InsertedSum(m: Mem, m': Mem, head: nat, slot: nat, r: Rec)
    requires |m.hash| == |m.off| && slot < |m.hash| && m.hash[slot] == EMPTY
    requires head !in m.book && m'.book == m.book[head := r] && r.hash != EMPTY
    requires forall x | 0 <= x < |m.hash| && m.hash[x] != EMPTY :: m.off[x] in m.book
    requires m'.hash == m.hash[slot := r.hash] && m'.off == m.off[slot := head]
    ensures IndexedBytes(m') == IndexedBytes(m) + r.blockSize
  {
    BlocksUpdate(m.hash, m.off, m'.book, slot, r.hash, head);
    assert Blocks(m.hash, m.off, m'.book) == Blocks(m.hash, m.off, m.book);
  }

  // --------------------------------------------------------------------- end of an operation

  ghost function BookIds(m: Mem): set<nat> {
    set p | p in m.book :: m.book[p].id
  }

  ghost function IndexedIds(m: Mem): set<nat>
    requires |m.hash| == |m.off|
  {
    set x | 0 <= x < |m.hash| && m.hash[x] != EMPTY && m.off[x] in m.book :: m.book[m.off[x]].id
  }

  /** At the end of an operation everything that is no longer indexed is retired. */
  lemma RetireSettles(f: Hash, m: Mem, m': Mem, lay: Layout, tail: nat, head: nat, inserts: nat)
    requires ArenaInv(f, m, lay, tail, head, inserts)
    requires m' == m.(retired := m.retired + (BookIds(m) - IndexedIds(m))) && MemInv(m')
    ensures ArenaInv(f, m', lay, tail, head, inserts) && Settled(m')
    ensures SameShape(m, m') && KeysDiffer(m) && KeysDiffer(m')
    ensures View(m') == View(m) && IndexedBytes(m') == IndexedBytes(m)
  {
    hide Phys;
    hide Settled;
    hide MemInv;
    hide LogInv;
    hide BytesInv;
    hide SlotField;
    SlotsAreInBook(m, lay);
    SlotsDoNotMatter(m, m', lay);
    SameSlotsSameView(m, m');
    EverythingElseRetired(m, m');
    RetiredIdsKnown(f, m, inserts);
    forall x | 0 <= x < |m.hash|
      ensures SlotOk(m', lay, x)
    {
      assert SlotOk(m, lay, x);
    }
  }

  lemma RetiredIdsKnown(f: Hash, m: Mem, inserts: nat)
    requires BookInv(f, m, inserts)
    ensures forall i | i in BookIds(m) :: i <= inserts
  {
    hide HashOf;
  }

  lemma EverythingElseRetired(m: Mem, m': Mem)
    requires MemInv(m) && m' == m.(retired := m.retired + (BookIds(m) - IndexedIds(m)))
    ensures Settled(m')
  {
    hide Holds;
    forall p | p in m'.book && m'.book[p].id !in m'.retired
      ensures exists i :: Binds(m', i, m'.book[p])
    {
      assert m.book[p].id in BookIds(m);
      var x :| 0 <= x < |m.hash| && m.hash[x] != EMPTY && m.off[x] in m.book && m.book[m.off[x]].id == m.book[p].id;
      assert Binds(m', x, m'.book[p]);
    }
  }

  // --------------------------------------------------------------------- reading the tail

  /** A segment that is not a gap starts where a header fits, and the other way round. */
  lemma TailSegment(f: Hash, m: Mem, lay: Layout, tail: nat, head: nat, inserts: nat)
    requires ArenaInv(f, m, lay, tail, head, inserts) && tail < head
    ensures |m.data| > 0 && tail in lay && |m.hash| == |m.off| > 0
    ensures lay[tail].len > 0 && Phys(tail, |m.data|) + lay[tail].len <= |m.data|
    ensures GapAt(Phys(tail, |m.data|), |m.data|) != 0 ==> lay[tail] == Gap(GapAt(Phys(tail, |m.data|), |m.data|))
    ensures GapAt(Phys(tail, |m.data|), |m.data|) == 0 ==> !lay[tail].Gap? && lay[tail].len >= HEADER
    ensures !lay[tail].Entry? ==> tail !in Indexed(m)
  {
    hide Phys;
    assert SegOk(|m.data|, tail, lay[tail]);
    if tail in Indexed(m) {
      var x :| 0 <= x < |m.hash| && m.hash[x] != EMPTY && m.off[x] == tail;
      assert SlotOk(m, lay, x);
    }
  }

  lemma TailIsPublished(f: Hash, m: Mem, lay: Layout, tail: nat, head: nat, inserts: nat)
    requires ArenaInv(f, m, lay, tail, head, inserts)
    ensures m.tailPub == tail
  {
  }

  lemma SlotIsSmall(f: Hash, m: Mem, lay: Layout, tail: nat, head: nat, inserts: nat, slot: nat)
    requires ArenaInv(f, m, lay, tail, head, inserts) && slot < |m.hash|
    ensures slot < SLOT_PAD
  {
  }

  lemma LogWithinLap(f: Hash, m: Mem, lay: Layout, tail: nat, head: nat, inserts: nat)
    requires ArenaInv(f, m, lay, tail, head, inserts)
    ensures tail <= head <= tail + |m.data|
  {
  }

  lemma EvictedTail(m0: Mem, m: Mem, p: nat)
    requires SameShape(m0, m) && KeysDiffer(m0) && KeysDiffer(m)
    requires p in m0.book && View(m) == View(m0) - {m0.book[p].key}
    ensures Evicts(m0, m, p)
  {
  }

  /** What the header at the tail says. */
  lemma TailHeader(f: Hash, m: Mem, lay: Layout, tail: nat, head: nat, inserts: nat, a: nat)
    requires ArenaInv(f, m, lay, tail, head, inserts) && tail < head && tail in lay && !lay[tail].Gap?
    requires a == Phys(tail, |m.data|)
    ensures a + HEADER <= |m.data|
    ensures FromLE(m.data[a + BLOCK_AT..a + BLOCK_AT + 4]) == lay[tail].len
    ensures FromLE(m.data[a + SLOT_AT..a + SLOT_AT + 4]) == SlotField(m.data, tail)
    ensures SlotField(m.data, tail) == SLOT_PAD <==> lay[tail].Pad?
    ensures lay[tail].Entry? ==>
              tail in m.book && FromLE(m.data[a + HASH_AT..a + HASH_AT + 8]) == m.book[tail].hash &&
              m.book[tail].blockSize == lay[tail].len
  {
    hide FromLE;
    hide Phys;
    hide Holds;
    assert SegOk(|m.data|, tail, lay[tail]) && SegBytes(m, lay, tail);
    hide IndexInv;
    hide BookInv;
    hide Decodes;
    LeadFields(m.data, tail, a);
    if lay[tail].Entry? {
      RecordDecodes(m, tail);
      DecodedHash(m.data, a, m.book[tail]);
    }
  }

  lemma DecodedHash(d: seq<byte>, a: nat, r: Rec)
    requires Decodes(d, a, r)
    ensures a + HEADER <= |d| && FromLE(d[a + HASH_AT..a + HASH_AT + 8]) == r.hash
    ensures FromLE(d[a + BLOCK_AT..a + BLOCK_AT + 4]) == r.blockSize
  {
  }

  /** The test of the tail walk finds out whether the entry at the tail is indexed. */
  lemma LiveMeansIndexed(f: Hash, m: Mem, lay: Layout, tail: nat, head: nat, inserts: nat)
    requires ArenaInv(f, m, lay, tail, head, inserts) && tail in lay && lay[tail].Entry? && tail in m.book
    ensures |m.hash| == |m.off|
    ensures var slot := SlotField(m.data, tail);
            (slot < |m.hash| && m.off[slot] == tail && m.hash[slot] == m.book[tail].hash) <==> tail in Indexed(m)
    ensures tail in Indexed(m) ==> m.hash[SlotField(m.data, tail)] != EMPTY
  {
    hide Phys;
    hide FromLE;
    var slot := SlotField(m.data, tail);
    if tail in Indexed(m) {
      var x :| 0 <= x < |m.hash| && m.hash[x] != EMPTY && m.off[x] == tail;
      assert SlotOk(m, lay, x) && Current(m, m.off[x]);
    }
    assert m.book[tail].Fits();
  }

  /** A record that was copied may be published, */
  lemma CopyMayBePublished(m: Mem, w: Mem, from: nat, to: nat)
    requires MemInv(m) && Current(m, from) && to !in m.book
    requires w == m.(data := w.data) && |w.data| == |m.data| && Holds(w, to, m.book[from])
    ensures Legal(w, Publish(to, m.book[from]))
  {
    hide Holds;
    hide InRegion;
    forall q | q in w.book && w.book[q].id == m.book[from].id
      ensures w.book[q] == m.book[from]
    {
      SameIdSameRecord(m, q, from);
    }
  }

  /** and the slot may announce the copy. */
  lemma CopyMayBeAnnounced(m: Mem, w: Mem, from: nat, to: nat, slot: nat)
    requires MemInv(m) && slot < |m.hash| && m.hash[slot] != EMPTY && m.off[slot] == from && from in m.book
    requires w == m.(data := w.data, book := m.book[to := m.book[from]]) && |w.data| == |m.data|
    ensures Current(m, from) && Legal(w, OffStore(slot, to))
  {
    assert Current(m, m.off[slot]);
  }

  lemma HeadersOutside(m: Mem, d: seq<byte>, lay: Layout, tail: nat, head: nat, len: nat)
    requires LogInv(|m.data|, lay, tail, head) && FreeBlock(|m.data|, tail, head, len)
    requires SameOutside(m.data, d, head, len)
    ensures HeadersSame(m.data, d, lay, tail)
  {
    hide Phys;
    hide FromLE;
    forall p | p in lay && !lay[p].Gap? && p != tail
      ensures SlotField(d, p) == SlotField(m.data, p) && SeqField(d, p) == SeqField(m.data, p)
      ensures BlockField(d, p) == BlockField(m.data, p)
    {
      assert SegOk(|m.data|, p, lay[p]);
      BlockDisjoint(|m.data|, lay, tail, head, len, p);
      FieldsOutside(m.data, d, head, len, p);
    }
  }

  /** Zero-copy second chance: the head has reached the address of the tail, so the record is
      already where it is published again. */
  lemma RepublishInPlace(f: Hash, m: Mem, m': Mem, lay: Layout, tail: nat, head: nat, inserts: nat, slot: nat)
    requires ArenaInv(f, m, lay, tail, head, inserts) && tail < head && tail in lay && lay[tail].Entry?
    requires slot < |m.hash| && m.hash[slot] != EMPTY && m.off[slot] == tail && tail in m.book
    requires Phys(head, |m.data|) == Phys(tail, |m.data|)
    requires m' == m.(book := m.book[head := m.book[tail]], off := m.off[slot := head],
                      tailPub := tail + lay[tail].len) && MemInv(m')
    ensures Reappends(f, m, m', lay, tail, head, inserts, slot)
  {
    hide Phys;
    RepublishFits(|m.data|, lay, tail, head);
    SameAddressSameFields(m.data, tail, head);
    assert SegBytes(m, lay, tail) && SlotOk(m, lay, slot);
    hide LogInv;
    hide SegOk;
    hide FreeBlock;
    hide SlotField;
    hide SeqField;
    hide BlockField;
    hide Reachable;
  }

  lemma RepublishFits(cap: nat, lay: Layout, tail: nat, head: nat)
    requires LogInv(cap, lay, tail, head) && tail < head && tail in lay && Phys(head, cap) == Phys(tail, cap)
    ensures SegOk(cap, head, lay[tail]) && FreeBlock(cap, tail + lay[tail].len, head, lay[tail].len)
  {
    PhysSame(tail, head, cap);
    hide Phys;
    assert SegOk(cap, tail, lay[tail]);
  }

  lemma SameAddressSameFields(d: seq<byte>, p: nat, q: nat)
    requires |d| > 0 && Phys(p, |d|) == Phys(q, |d|)
    ensures SlotField(d, p) == SlotField(d, q) && SeqField(d, p) == SeqField(d, q)
  {
  }

  lemma RepublishHolds(m: Mem, tail: nat, head: nat)
    requires MemInv(m) && tail in m.book && m.tailPub <= tail && Phys(head, |m.data|) == Phys(tail, |m.data|)
    ensures Holds(m, head, m.book[tail])
  {
    hide Phys;
    assert Holds(m, tail, m.book[tail]);
  }

  lemma FreeIsWritable(m: Mem, lay: Layout, tail: nat, head: nat, len: nat)
    requires MemInv(m) && LogInv(|m.data|, lay, tail, head) && BytesInv(m, lay)
    requires FreeBlock(|m.data|, tail, head, len)
    ensures BlockWritable(m, Phys(head, |m.data|), len)
  {
    hide Phys;
    hide Writable;
    hide LogInv;
    hide BytesInv;
    forall k | Phys(head, |m.data|) <= k < Phys(head, |m.data|) + len
      ensures Writable(m, k)
    {
      FreeBlockUnprotected(m, lay, tail, head, len, k);
    }
  }

  /** The record at the tail, as a source of bytes. */
  lemma TailImage(f: Hash, m: Mem, lay: Layout, tail: nat, head: nat, inserts: nat, len: nat)
    requires ArenaInv(f, m, lay, tail, head, inserts) && tail in lay && lay[tail] == Entry(len) && tail in m.book
    ensures |m.data| > 0 && SegOk(|m.data|, tail, Entry(len)) && head % 8 == 0
    ensures var a0, r := Phys(tail, |m.data|), m.book[tail];
            && a0 + len <= |m.data| && LEAD + |r.Image()| <= len
            && m.data[a0 + LEAD..a0 + LEAD + |r.Image()|] == r.Image()
  {
    hide Phys;
    hide Rec.Image;
    hide IndexInv;
    hide BookInv;
    hide SlotField;
    hide SeqField;
    hide BlockField;
    assert SegOk(|m.data|, tail, lay[tail]) && SegBytes(m, lay, tail) && Holds(m, tail, m.book[tail]);
  }

  /** There is room for a copy at the head. */
  lemma RoomToCopy(f: Hash, m: Mem, lay: Layout, tail: nat, head: nat, inserts: nat, len: nat)
    requires ArenaInv(f, m, lay, tail, head, inserts) && tail in lay && lay[tail] == Entry(len) && tail in m.book
    requires head + len <= tail + |m.data| && Phys(head, |m.data|) + len <= |m.data|
    ensures FreeBlock(|m.data|, tail, head, len) && SegOk(|m.data|, head, Entry(len))
    ensures BlockWritable(m, Phys(head, |m.data|), len)
    ensures var a0, a, r := Phys(tail, |m.data|), Phys(head, |m.data|), m.book[tail];
            && a0 + len <= |m.data| && (a0 + len <= a || a + len <= a0)
            && LEAD + |r.Image()| <= len && m.data[a0 + LEAD..a0 + LEAD + |r.Image()|] == r.Image()
  {
    TailImage(f, m, lay, tail, head, inserts, len);
    hide Phys;
    hide Rec.Image;
    hide MemInv;
    hide LogInv;
    hide BytesInv;
    hide IndexInv;
    hide BookInv;
    hide BlockWritable;
    BlockDisjoint(|m.data|, lay, tail, head, len, tail);
    FreeIsWritable(m, lay, tail, head, len);
  }

  /** Everything that allows the copy to be made and then published. */
  lemma CopyMayStart(f: Hash, m: Mem, lay: Layout, tail: nat, head: nat, inserts: nat, slot: nat, len: nat)
    requires ArenaInv(f, m, lay, tail, head, inserts) && slot < |m.hash| && m.hash[slot] != EMPTY
    requires |m.hash| == |m.off| && m.off[slot] == tail
    requires tail in lay && lay[tail] == Entry(len) && tail in m.book
    requires head + len <= tail + |m.data| && Phys(head, |m.data|) + len <= |m.data|
    ensures m.tailPub == tail && slot < SLOT_PAD && HEADER <= len
    ensures BlockWritable(m, Phys(head, |m.data|), len)
    ensures var a0, a, r := Phys(tail, |m.data|), Phys(head, |m.data|), m.book[tail];
            && a0 + len <= |m.data| && (a0 + len <= a || a + len <= a0)
            && LEAD + |r.Image()| <= len && m.data[a0 + LEAD..a0 + LEAD + |r.Image()|] == r.Image()
    ensures forall d | |d| == |m.data| && Holds(m.(data := d), head, m.book[tail]) ::
              Legal(m.(data := d), Publish(head, m.book[tail])) &&
              Legal(m.(data := d, book := m.book[head := m.book[tail]]), OffStore(slot, head))
  {
    hide ArenaInv;
    hide Phys;
    hide Holds;
    hide Legal;
    hide Rec.Image;
    hide BlockWritable;
    HeadIsFresh(f, m, lay, tail, head, inserts);
    SlotAt(f, m, lay, tail, head, inserts, slot);
    SlotIsSmall(f, m, lay, tail, head, inserts, slot);
    RoomToCopy(f, m, lay, tail, head, inserts, len);
    BlockHoldsHeader(f, m, lay, tail, head, inserts);
    forall d | |d| == |m.data| && Holds(m.(data := d), head, m.book[tail])
      ensures Legal(m.(data := d), Publish(head, m.book[tail]))
      ensures Legal(m.(data := d, book := m.book[head := m.book[tail]]), OffStore(slot, head))
    {
      CopyMayBeAnnounced(m, m.(data := d, book := m.book[head := m.book[tail]]), tail, head, slot);
      CopyMayBePublished(m, m.(data := d), tail, head);
    }
  }

  lemma BlockHoldsHeader(f: Hash, m: Mem, lay: Layout, tail: nat, head: nat, inserts: nat)
    requires ArenaInv(f, m, lay, tail, head, inserts) && tail in lay && lay[tail].Entry?
    ensures MemInv(m) && HEADER <= lay[tail].len
  {
    assert SegOk(|m.data|, tail, lay[tail]);
  }

  /** The copying second chance as a whole. */
  lemma CopyDone(f: Hash, m: Mem, m': Mem, lay: Layout, tail: nat, head: nat, inserts: nat, slot: nat, len: nat)
    requires |m.hash| == |m.off| && |m.data| > 0 && tail < head && tail in lay && lay[tail] == Entry(len)
    requires slot < |m.hash| && m.hash[slot] != EMPTY && m.off[slot] == tail && tail in m.book
    requires head + len <= tail + |m.data| && Phys(head, |m.data|) + len <= |m.data|
    requires ArenaInv(f, m, lay, tail, head, inserts)
    requires SameOutside(m.data, m'.data, head, len)
    requires SlotField(m'.data, head) == slot && SeqField(m'.data, head) % 2 == 0
    requires m' == m.(data := m'.data, book := m.book[head := m.book[tail]], off := m.off[slot := head],
                      tailPub := tail + len) && MemInv(m')
    ensures ArenaInv(f, m', (lay - {tail})[head := Entry(len)], tail + len, head + len, inserts)
    ensures |m'.off| == |m'.hash| && KeysDiffer(m) && KeysDiffer(m')
    ensures View(m') == View(m) && IndexedBytes(m') == IndexedBytes(m)
  {
    hide *;
    RoomToCopy(f, m, lay, tail, head, inserts, len);
    CopyReappends(f, m, m', lay, tail, head, inserts, slot);
    Reappended(f, m, m', lay, tail, head, inserts, slot);
  }

  lemma CopyReappends(f: Hash, m: Mem, m': Mem, lay: Layout, tail: nat, head: nat, inserts: nat, slot: nat)
    requires ArenaInv(f, m, lay, tail, head, inserts) && tail < head && tail in lay && lay[tail].Entry?
    requires slot < |m.hash| && m.hash[slot] != EMPTY && m.off[slot] == tail && tail in m.book
    requires FreeBlock(|m.data|, tail, head, lay[tail].len) && SegOk(|m.data|, head, lay[tail])
    requires SameOutside(m.data, m'.data, head, lay[tail].len)
    requires SlotField(m'.data, head) == slot && SeqField(m'.data, head) % 2 == 0
    requires m' == m.(data := m'.data, book := m.book[head := m.book[tail]], off := m.off[slot := head],
                      tailPub := tail + lay[tail].len) && MemInv(m')
    ensures Reappends(f, m, m', lay, tail, head, inserts, slot)
  {
    hide Phys;
    HeadersOutside(m, m'.data, lay, tail, head, lay[tail].len);
    hide SegOk;
    hide BytesInv;
    hide IndexInv;
    hide HeadersSame;
    hide SlotField;
    hide SeqField;
  }

  // --------------------------------------------------------------------- making room

  /** The arena only lost bindings: what every step that makes room does. */
  ghost predicate Shrunk(m0: Mem, m: Mem) {
    && SameShape(m0, m) && m.retired == m0.retired && Grows(m0.book, m.book, {}) && Drifts(m0, m, {})
    && KeysDiffer(m0) && KeysDiffer(m) && Submap(View(m), View(m0)) && Count(m.hash) <= Count(m0.hash)
  }

  lemma ShrunkRefl(f: Hash, m: Mem, lay: Layout, tail: nat, head: nat, inserts: nat)
    requires ArenaInv(f, m, lay, tail, head, inserts)
    ensures Shrunk(m, m)
  {
    NothingDrifts(m);
    hide Drifts;
  }

  lemma ShrunkByDrop(m0: Mem, m1: Mem, lay: Layout, t0: nat, h0: nat, b0: nat, m: Mem, t: nat, h: nat, b: nat)
    requires Shrunk(m0, m1) && DropStep(m1, lay, t0, h0, b0, m, t, h, b)
    ensures Shrunk(m0, m)
  {
    DropStepShrinks(m1, lay, t0, h0, b0, m, t, h, b);
    DriftsTwice(m0, m1, m, {});
    hide Drifts;
    hide View;
    hide Count;
    hide KeysDiffer;
  }

  lemma ShrunkByData(m0: Mem, m1: Mem, m: Mem)
    requires Shrunk(m0, m1) && SameShape(m1, m) && m == m1.(data := m.data) && KeysDiffer(m) && View(m) == View(m1)
    ensures Shrunk(m0, m)
  {
    SameDrifts(m0, m1, m, {});
    hide Drifts;
    hide View;
    hide Count;
    hide KeysDiffer;
  }

  /** The head stands where a wrap gap begins. */
  lemma GapFits(f: Hash, m: Mem, lay: Layout, tail: nat, head: nat, inserts: nat)
    requires ArenaInv(f, m, lay, tail, head, inserts)
    ensures |m.data| > 0
    ensures var g := GapAt(Phys(head, |m.data|), |m.data|);
            g != 0 && g <= |m.data| - (head - tail) ==>
              SegOk(|m.data|, head, Gap(g)) && FreeBlock(|m.data|, tail, head, g) &&
              SameOutside(m.data, m.data, head, g)
  {
    hide Phys;
    hide MemInv;
    hide BytesInv;
    hide IndexInv;
    hide BookInv;
    hide Chained;
    PhysAligned(head, |m.data|);
  }

  /** A block of n bytes, n a multiple of 8, fits at the head. */
  lemma BlockFits(f: Hash, m: Mem, lay: Layout, tail: nat, head: nat, inserts: nat, n: nat)
    requires ArenaInv(f, m, lay, tail, head, inserts)
    requires n % 8 == 0 && HEADER <= n && Phys(head, |m.data|) + n <= |m.data| && n <= |m.data| - (head - tail)
    ensures SegOk(|m.data|, head, Pad(n)) && SegOk(|m.data|, head, Entry(n)) && FreeBlock(|m.data|, tail, head, n)
    ensures BlockWritable(m, Phys(head, |m.data|), n)
  {
    hide Phys;
    hide BlockWritable;
    FreeIsWritable(m, lay, tail, head, n);
  }

  /** The rest of the data region after the head is a multiple of 8. */
  lemma PadIsAligned(f: Hash, m: Mem, lay: Layout, tail: nat, head: nat, inserts: nat)
    requires ArenaInv(f, m, lay, tail, head, inserts)
    ensures |m.data| > 0 && (|m.data| - Phys(head, |m.data|)) % 8 == 0
  {
    hide Phys;
    hide MemInv;
    hide IndexInv;
    hide BytesInv;
    hide SegOk;
    hide Chained;
    PhysAligned(head, |m.data|);
  }

  lemma LayoutOf(f: Hash, m: Mem, lay: Layout, tail: nat, head: nat, inserts: nat)
    requires ArenaInv(f, m, lay, tail, head, inserts)
    ensures LogInv(|m.data|, lay, tail, head)
  {
  }

  /** A second chance is given to an entry, never to a gap. */
  lemma DropLowersRankOf(f: Hash, m0: Mem, lay: Layout, t0: nat, h0: nat, inserts: nat, b0: nat,
                         m: Mem, t: nat, h: nat, b: nat, n: nat)
    requires ArenaInv(f, m0, lay, t0, h0, inserts) && t0 < h0 && HEADER <= |m0.data|
    requires DropStep(m0, lay, t0, h0, b0, m, t, h, b) && (b != b0 ==> t0 in lay && !lay[t0].Gap?)
    requires n > |m0.data| - (h0 - t0)
    ensures |m.data| == |m0.data| && Rank(n, |m.data|, t, h, b) < Rank(n, |m0.data|, t0, h0, b0)
  {
    hide Phys;
    hide View;
    hide KeysDiffer;
    hide Rank;
    LayoutOf(f, m0, lay, t0, h0, inserts);
    hide ArenaInv;
    hide LogInv;
    DropLowersRank(n, |m0.data|, lay, t0, h0, b0, t, h, b);
  }

  // --------------------------------------------------------------------- a new record

  lemma NumberIsFresh(f: Hash, m: Mem, lay: Layout, tail: nat, head: nat, inserts: nat)
    requires ArenaInv(f, m, lay, tail, head, inserts)
    ensures |m.off| == |m.hash| && |m.data| > 0 && head !in m.book && inserts + 1 !in m.retired
    ensures forall p | p in m.book :: m.book[p].id != inserts + 1
  {
    HeadIsFresh(f, m, lay, tail, head, inserts);
    hide LogInv;
    hide BytesInv;
    hide IndexInv;
    hide HashOf;
  }

  /** The three announcements of a fresh record, in the order the writer makes them. */
  lemma FreshMayBeAnnounced(f: Hash, m: Mem, w: Mem, lay: Layout, tail: nat, head: nat, inserts: nat, slot: nat, r: Rec)
    requires ArenaInv(f, m, lay, tail, head, inserts) && slot < |m.hash| && m.hash[slot] == EMPTY
    requires r.Fits() && r.id == inserts + 1
    requires w == m.(data := w.data) && |w.data| == |m.data| && Holds(w, head, r)
    ensures |m.off| == |m.hash|
    ensures Legal(w, Publish(head, r))
    ensures Legal(w.(book := m.book[head := r]), OffStore(slot, head))
    ensures Legal(w.(book := m.book[head := r], off := m.off[slot := head]), HashStore(slot, r.hash))
  {
    NumberIsFresh(f, m, lay, tail, head, inserts);
    hide ArenaInv;
    hide Holds;
    hide Rec.Fits;
  }

  lemma Inserting(f: Hash, m: Mem, m': Mem, lay: Layout, tail: nat, head: nat, inserts: nat, slot: nat, r: Rec)
    requires ArenaInv(f, m, lay, tail, head, inserts) && |m.hash| == |m.off|
    requires FirstFree(m.hash, r.hash, slot)
    requires r.hash == HashOf(f, r.key) && r.id == inserts + 1 && r.key !in Keys(m)
    requires r.Fits() && Phys(head, |m.data|) + r.blockSize <= |m.data| && r.blockSize <= |m.data| - (head - tail)
    requires SameOutside(m.data, m'.data, head, r.blockSize)
    requires SlotField(m'.data, head) == slot && SeqField(m'.data, head) % 2 == 0
    requires m' == m.(data := m'.data, book := m.book[head := r], off := m.off[slot := head],
                      hash := m.hash[slot := r.hash])
    requires MemInv(m')
    ensures ArenaInv(f, m', lay[head := Entry(r.blockSize)], tail, head + r.blockSize, inserts + 1)
    ensures SameShape(m, m') && KeysDiffer(m) && KeysDiffer(m') && View(m') == View(m)[r.key := r]
    ensures Count(m'.hash) == Count(m.hash) + 1
    ensures IndexedBytes(m') == IndexedBytes(m) + r.blockSize
  {
    hide ArenaInv;
    hide MemInv;
    hide Phys;
    hide SegOk;
    hide FreeBlock;
    hide FirstFree;
    hide SameOutside;
    hide SlotField;
    hide SeqField;
    hide Keys;
    hide BlockWritable;
    hide Inserts;
    PayloadFits(r);
    FitsAligned(r);
    BlockFits(f, m, lay, tail, head, inserts, r.blockSize);
    InsertsIntro(f, m, m', lay, tail, head, inserts, slot, r);
    EntryInserted(f, m, m', lay, tail, head, inserts, slot, r);
  }

  lemma SlotIsFree(h: seq<nat>, v: nat, slot: nat)
    requires FirstFree(h, v, slot)
    ensures slot < |h| && h[slot] == EMPTY
  {
  }

  /** Retiring what is not indexed is legal. */
  lemma RetireIsLegal(m: Mem)
    requires |m.data| > 0 && |m.hash| == |m.off|
    ensures Legal(m, Retire(BookIds(m) - IndexedIds(m)))
  {
    forall i | 0 <= i < |m.hash| && m.hash[i] != EMPTY && m.off[i] in m.book
      ensures m.book[m.off[i]].id in IndexedIds(m)
    {
    }
  }

  lemma FitsAligned(r: Rec)
    requires r.Fits()
    ensures r.blockSize % 8 == 0 && r.hash != EMPTY
  {
  }

  lemma InsertsIntro(f: Hash, m: Mem, m': Mem, lay: Layout, tail: nat, head: nat, inserts: nat, slot: nat, r: Rec)
    requires ArenaInv(f, m, lay, tail, head, inserts) && |m.hash| == |m.off|
    requires FirstFree(m.hash, r.hash, slot)
    requires r.hash == HashOf(f, r.key) && r.id == inserts + 1 && r.key !in Keys(m)
    requires |m.data| > 0 && SegOk(|m.data|, head, Entry(r.blockSize)) && FreeBlock(|m.data|, tail, head, r.blockSize)
    requires SameOutside(m.data, m'.data, head, r.blockSize)
    requires SlotField(m'.data, head) == slot && SeqField(m'.data, head) % 2 == 0
    requires m' == m.(data := m'.data, book := m.book[head := r], off := m.off[slot := head],
                      hash := m.hash[slot := r.hash])
    requires MemInv(m')
    ensures Inserts(f, m, m', lay, tail, head, inserts, slot, r)
    ensures SameShape(m, m') && KeysDiffer(m)
  {
    hide Phys;
    hide SlotField;
    hide SeqField;
  }

  /** Counting up the operation counter changes nothing. */
  lemma CounterMayGrow(f: Hash, m: Mem, lay: Layout, tail: nat, head: nat, inserts: nat)
    requires ArenaInv(f, m, lay, tail, head, inserts)
    ensures ArenaInv(f, m, lay, tail, head, inserts + 1)
  {
    hide MemInv;
    hide LogInv;
    hide IndexInv;
    hide BytesInv;
  }

  // --------------------------------------------------------------------- whole operations

  /** A set that succeeded: key is bound to r and every other key kept its binding or lost it. */
  ghost predicate SetDone(m0: Mem, m: Mem, key: seq<byte>, r: Rec) {
    && |m0.hash| == |m0.off| && |m.hash| == |m.off| && KeysDiffer(m0) && KeysDiffer(m)
    && key in View(m) && View(m)[key] == r
    && forall k | k in View(m) && k != key :: k in View(m0) && View(m)[k] == View(m0)[k]
  }

  /** The record a set wrote. */
  predicate Carries(r: Rec, key: seq<byte>, val: seq<byte>, rawLen: nat, flags: byte, expiresAt: nat, id: nat) {
    r.key == key && r.val == val && r.rawLen == rawLen && r.flags == flags && r.expiresAt == expiresAt && r.id == id
  }

  lemma ShrunkTwice(m0: Mem, m1: Mem, m2: Mem)
    requires Shrunk(m0, m1) && Shrunk(m1, m2)
    ensures Shrunk(m0, m2)
  {
    DriftsTwice(m0, m1, m2, {});
    hide Drifts;
    hide View;
    hide Count;
    hide KeysDiffer;
  }

  /** Where the first record lies does not change while room is made. */
  ghost predicate Origin(book: map<nat, Rec>, logHead: nat) {
    if book == map[] then logHead == 0 else 0 in book
  }

  lemma GrowsTwice(a: map<nat, Rec>, b: map<nat, Rec>, c: map<nat, Rec>, extra: set<Rec>)
    requires Grows(a, b, {}) && Grows(b, c, extra)
    ensures Grows(a, c, extra)
  {
    forall p | p in c
      ensures c[p] in extra || c[p] in a.Values
    {
      if c[p] in b.Values {
        var q :| q in b && b[q] == c[p];
        assert b[q] in a.Values;
      }
    }
  }

  lemma GrowsByOne(a: map<nat, Rec>, p: nat, r: Rec)
    requires p !in a
    ensures Grows(a, a[p := r], {r})
  {
  }

  /** A completed call of storeSet: its arguments and the number it got. */
  datatype SetCall = SetCall(key: seq<byte>, val: seq<byte>, rawLen: nat, flags: byte, expiresAt: nat, id: nat)

  function CallOf(r: Rec): SetCall {
    SetCall(r.key, r.val, r.rawLen, r.flags, r.expiresAt, r.id)
  }

  /** Every record in the book was written by one of these calls. */
  ghost predicate Written(book: map<nat, Rec>, sets: seq<SetCall>) {
    forall p | p in book :: CallOf(book[p]) in sets
  }

  lemma CarriesCall(r: Rec, key: seq<byte>, val: seq<byte>, rawLen: nat, flags: byte, expiresAt: nat, id: nat)
    requires Carries(r, key, val, rawLen, flags, expiresAt, id)
    ensures CallOf(r) == SetCall(key, val, rawLen, flags, expiresAt, id)
  {
  }

  lemma StillWritten(a: map<nat, Rec>, b: map<nat, Rec>, sets: seq<SetCall>)
    requires Written(a, sets) && Grows(a, b, {})
    ensures Written(b, sets)
  {
    forall p | p in b
      ensures CallOf(b[p]) in sets
    {
      var q :| q in a && a[q] == b[p];
    }
  }

  lemma OneMoreWritten(a: map<nat, Rec>, b: map<nat, Rec>, r: Rec, sets: seq<SetCall>, call: SetCall)
    requires Written(a, sets) && Grows(a, b, {r}) && call == CallOf(r)
    ensures Written(b, sets + [call])
  {
    forall p | p in b
      ensures CallOf(b[p]) in sets + [call]
    {
      if b[p] != r {
        var q :| q in a && a[q] == b[p];
      }
    }
  }

  lemma OriginWith(b0: map<nat, Rec>, h0: nat, b: map<nat, Rec>, extra: set<Rec>, pos: nat, h: nat)
    requires Origin(b0, h0) && Grows(b0, b, extra) && pos in b && (h0 == 0 ==> pos == 0)
    ensures Origin(b, h)
  {
  }

  lemma OriginStays(f: Hash, m0: Mem, h0: nat, m: Mem, lay: Layout, tail: nat, head: nat, h: nat, inserts: nat)
    requires Origin(m0.book, h0) && Grows(m0.book, m.book, {}) && ArenaInv(f, m, lay, tail, head, inserts)
    requires h0 == 0 ==> head == 0 && h == 0
    ensures Origin(m.book, h)
  {
    if m0.book == map[] {
      EmptyLog(f, m, lay, tail, inserts);
    }
  }

  /** A log that never held anything: no record, no occupied slot. */
  lemma EmptyLog(f: Hash, m: Mem, lay: Layout, tail: nat, inserts: nat)
    requires ArenaInv(f, m, lay, tail, 0, inserts)
    ensures m.book == map[] && tail == 0 && forall x | 0 <= x < |m.hash| :: m.hash[x] == EMPTY
  {
    HeadIsFresh(f, m, lay, tail, 0, inserts);
    assert forall p: nat :: p !in lay;
    assert forall p | p in m.book :: m.tailPub <= p;
    assert m.book == map[];
  }

  /** A full index means that something was stored before. */
  lemma FullIsNotEmpty(f: Hash, m0: Mem, h0: nat, m: Mem, lay: Layout, tail: nat, head: nat, inserts: nat)
    requires Origin(m0.book, h0) && Grows(m0.book, m.book, {}) && ArenaInv(f, m, lay, tail, head, inserts)
    requires h0 == 0 ==> head == 0
    requires forall x | 0 <= x < |m.hash| :: m.hash[x] != EMPTY
    ensures forall h: nat :: Origin(m.book, h)
  {
    if m0.book == map[] {
      EmptyLog(f, m, lay, tail, inserts);
      NotBothFullAndEmpty(m.hash);
    }
  }

  lemma NotBothFullAndEmpty(h: seq<nat>)
    requires |h| > 0 && forall x | 0 <= x < |h| :: h[x] == EMPTY
    ensures exists x :: 0 <= x < |h| && h[x] == EMPTY
  {
    assert h[0] == EMPTY;
  }

  /** A full index has as many entries as slots. */
  lemma FullCount(h: seq<nat>)
    requires forall x | 0 <= x < |h| :: h[x] != EMPTY
    ensures Count(h) == |h|
  {
    SumOfOnes(Ones(h));
  }

  lemma {:induction false} SumOfOnes(c: seq<nat>)
    requires forall k :: 0 <= k < |c| ==> c[k] == 1
    ensures Sum(c) == |c|
  {
    if c != [] {
      SumOfOnes(c[1..]);
    }
  }

  lemma FreeMeansRoom(h: seq<nat>, v: nat, slot: nat)
    requires FirstFree(h, v, slot)
    ensures Count(h) < |h|
  {
    SumBelow(Ones(h), slot);
  }

  lemma {:induction false} SumBelow(c: seq<nat>, z: nat)
    requires (forall k :: 0 <= k < |c| ==> c[k] <= 1) && z < |c| && c[z] == 0
    ensures Sum(c) < |c|
  {
    if z > 0 {
      SumBelow(c[1..], z - 1);
    } else {
      SumAtMost(c[1..]);
    }
  }

  lemma {:induction false} SumAtMost(c: seq<nat>)
    requires forall k :: 0 <= k < |c| ==> c[k] <= 1
    ensures Sum(c) <= |c|
  {
    if c != [] {
      SumAtMost(c[1..]);
    }
  }

  lemma SetDoneSame(m0: Mem, m1: Mem, m: Mem, key: seq<byte>)
    requires |m1.hash| == |m1.off| && KeysDiffer(m1) && key in View(m1) && SetDone(m0, m1, key, View(m1)[key])
    requires |m.hash| == |m.off| && KeysDiffer(m) && View(m) == View(m1)
    ensures SetDone(m0, m, key, View(m)[key])
  {
    hide View;
    hide KeysDiffer;
  }

  lemma SlotForParts(m: Mem, x: nat, key: seq<byte>)
    requires SlotFor(m, x, key)
    ensures x < |m.hash| && x < |m.off| && m.hash[x] != EMPTY && m.off[x] in m.book && m.book[m.off[x]].key == key
  {
  }

  lemma AbsentUnchanged(m: Mem, key: seq<byte>)
    requires |m.hash| == |m.off| && KeysDiffer(m) && key !in Keys(m)
    ensures key !in View(m) && View(m) - {key} == View(m)
  {
  }

  lemma ViewHas(m: Mem, x: nat, key: seq<byte>)
    requires SlotFor(m, x, key) && |m.hash| == |m.off| && KeysDiffer(m)
    ensures key in View(m) && View(m)[key] == m.book[m.off[x]]
  {
  }

  /** The state after storeClear: an empty index over an empty log. */
  lemma Cleared(f: Hash, m0: Mem, m: Mem, lay0: Layout, tail0: nat, head: nat, inserts: nat)
    requires ArenaInv(f, m0, lay0, tail0, head, inserts) && MemInv(m)
    requires |m.hash| == |m.off| == |m0.hash| && forall x | 0 <= x < |m.hash| :: m.hash[x] == EMPTY
    requires m == m0.(hash := m.hash, off := m.off, tailPub := head)
    ensures ArenaInv(f, m, map[], head, head, inserts)
    ensures KeysDiffer(m) && View(m) == map[] && Count(m.hash) == 0 && IndexedBytes(m) == 0
  {
    hide Phys;
    HeadIsFresh(f, m0, lay0, tail0, head, inserts);
    forall p | p in m.book
      ensures p < head
    {
      assert p in m0.book && (m0.tailPub <= p ==> p in lay0);
    }
    EmptyIsCut(m.hash, 0);
    SumZero(Ones(m.hash));
    SumZero(Blocks(m.hash, m.off, m.book));
    assert forall x: nat, k :: !SlotFor(m, x, k);
    assert View(m) == map[];
    hide MemInv;
  }

  lemma NewRecordFits(f: Hash, r: Rec)
    requires |r.key| < TWO_16 && r.hash == HashOf(f, r.key) && r.expiresAt < TWO_32 && r.rawLen < TWO_32
    requires r.blockSize == Align8(HEADER + |r.key| + |r.val|) < TWO_32
    ensures r.Fits()
  {
  }

  lemma NeedHoldsHeader(n: nat)
    ensures LEAD < HEADER <= Align8(HEADER + n)
  {
  }

  lemma ShapeTwice(m0: Mem, m1: Mem, m: Mem)
    requires SameShape(m0, m1) && SameShape(m1, m)
    ensures SameShape(m0, m) && |m.hash| == |m.off| == |m1.hash| == |m1.off| == |m0.hash| == |m0.off|
  {
  }

  lemma CarriesItself(r: Rec)
    ensures Carries(r, r.key, r.val, r.rawLen, r.flags, r.expiresAt, r.id)
  {
  }

  lemma OneMoreIndexed(m: Mem, m': Mem, slot: nat, pos: nat)
    requires |m.hash| == |m.off| == |m'.hash| == |m'.off| && slot < |m.off|
    requires (forall x | 0 <= x < |m.hash| && x != slot :: m'.hash[x] == m.hash[x] && m'.off[x] == m.off[x])
    requires m'.off[slot] == pos
    ensures Indexed(m') <= Indexed(m) + {pos}
  {
  }

  lemma SlotsAllBound(f: Hash, m: Mem, lay: Layout, tail: nat, head: nat, inserts: nat)
    requires ArenaInv(f, m, lay, tail, head, inserts)
    ensures |m.hash| == |m.off| && forall x | 0 <= x < |m.hash| && m.hash[x] != EMPTY :: m.off[x] in m.book
  {
    SlotsPointAtRecords(f, m, lay, tail, head, inserts);
  }

  lemma NoKeyLeft(m0: Mem, m: Mem, key: seq<byte>)
    requires |m.hash| == |m.off| && KeysDiffer(m)
    requires |m0.hash| == |m0.off| && KeysDiffer(m0) && View(m) == View(m0) - {key}
    ensures key !in Keys(m)
  {
  }

  lemma ShrunkSubmap(m0: Mem, m: Mem)
    requires Shrunk(m0, m)
    ensures SameShape(m0, m) && KeysDiffer(m0) && KeysDiffer(m)
    ensures Submap(View(m), View(m0)) && Grows(m0.book, m.book, {}) && Drifts(m0, m, {})
    ensures Count(m.hash) <= Count(m0.hash)
  {
    hide Drifts;
  }

  /** The only key of an index sits in its home slot, which is the remainder of the hash by the number of slots. */
  lemma OnlyKeyAtHome(f: Hash, m: Mem, lay: Layout, tail: nat, head: nat, inserts: nat, key: seq<byte>)
    requires ArenaInv(f, m, lay, tail, head, inserts) && |m.hash| == |m.off| && KeysDiffer(m) && View(m).Keys == {key}
    ensures |m.hash| > 0 && m.hash[Home(HashOf(f, key), |m.hash|)] == HashOf(f, key) != EMPTY
    ensures Home(HashOf(f, key), |m.hash|) == HashOf(f, key) % |m.hash|
  {
    hide HashOf;
    hide LogInv;
    hide BytesInv;
    hide MemInv;
    hide View;
    SlotsPointAtRecords(f, m, lay, tail, head, inserts);
    PhysIsMod(HashOf(f, key), |m.hash|);
    var x: nat :| SlotFor(m, x, key);
    var k := Home(HashOf(f, key), |m.hash|);
    if k != x {
      assert Dist(k, k, |m.hash|) < Displacement(m.hash[x], x, |m.hash|);
      assert SlotFor(m, k, m.book[m.off[k]].key);
      assert m.book[m.off[k]].key in Keys(m);
    }
  }

  // --------------------------------------------------------------------- reading

  /** A slot before the one of `key` on its probe path has the same hash: a read of `key` stops there. */
  ghost predicate Shadowed(m: Mem, hv: nat, key: seq<byte>) {
    exists x: nat, y: nat :: ShadowedBy(m, hv, key, x, y)
  }

  ghost predicate ShadowedBy(m: Mem, hv: nat, key: seq<byte>, x: nat, y: nat) {
    && x < |m.hash| && SlotFor(m, y, key) && m.hash[x] == hv && x != y
    && Dist(Home(hv, |m.hash|), x, |m.hash|) < Dist(Home(hv, |m.hash|), y, |m.hash|)
  }

  /** A key is shadowed only by another live key with the same hash. */
  lemma ShadowNeedsCollision(f: Hash, m: Mem, lay: Layout, tail: nat, head: nat, inserts: nat, key: seq<byte>)
    requires ArenaInv(f, m, lay, tail, head, inserts) && Shadowed(m, HashOf(f, key), key)
    ensures exists k :: k in Keys(m) && k != key && HashOf(f, k) == HashOf(f, key)
  {
    hide HashOf;
    hide MemInv;
    hide LogInv;
    hide BytesInv;
    SlotsPointAtRecords(f, m, lay, tail, head, inserts);
    var x: nat, y: nat :| ShadowedBy(m, HashOf(f, key), key, x, y);
    assert SlotFor(m, x, m.book[m.off[x]].key);
  }

  /** Of two live keys with the same hash one is always shadowed, so that a read misses it. */
  lemma CollisionShadowsOne(f: Hash, m: Mem, lay: Layout, tail: nat, head: nat, inserts: nat,
                            a: seq<byte>, b: seq<byte>)
    requires ArenaInv(f, m, lay, tail, head, inserts)
    requires a in Keys(m) && b in Keys(m) && a != b && HashOf(f, a) == HashOf(f, b)
    ensures Shadowed(m, HashOf(f, a), a) || Shadowed(m, HashOf(f, b), b)
  {
    hide HashOf;
    hide MemInv;
    hide LogInv;
    hide BytesInv;
    SlotsPointAtRecords(f, m, lay, tail, head, inserts);
    var hv, n := HashOf(f, a), |m.hash|;
    var x: nat :| SlotFor(m, x, a);
    var y: nat :| SlotFor(m, y, b);
    if Dist(Home(hv, n), x, n) < Dist(Home(hv, n), y, n) {
      assert ShadowedBy(m, hv, b, x, y);
    } else {
      assert Dist(Home(hv, n), y, n) != Dist(Home(hv, n), x, n);
      assert ShadowedBy(m, hv, a, y, x);
    }
  }

  /** No slot among the first `probes` on the probe path of hv holds the hash hv. */
  ghost predicate NoHashAmongFirst(m: Mem, hv: nat, probes: nat)
    requires |m.hash| > 0
  {
    forall y: nat | y < |m.hash| && Dist(Home(hv, |m.hash|), y, |m.hash|) < probes :: m.hash[y] != hv
  }

  lemma ProbeBegins(m: Mem, hv: nat)
    requires |m.hash| > 0
    ensures NoHashAmongFirst(m, hv, 0) && Home(hv, |m.hash|) == Probe(hv, 0, |m.hash|)
  {
  }

  lemma NoHashAmongNext(m: Mem, hv: nat, probes: nat, i: nat)
    requires |m.hash| > 0 && probes < |m.hash| && i == Probe(hv, probes, |m.hash|)
    requires NoHashAmongFirst(m, hv, probes) && m.hash[i] != hv
    ensures NoHashAmongFirst(m, hv, probes + 1)
    ensures probes + 1 < |m.hash| ==> Next(i, |m.hash|) == Probe(hv, probes + 1, |m.hash|)
  {
    hide Home;
  }

  lemma EmptyMeansAbsent(f: Hash, m: Mem, lay: Layout, tail: nat, head: nat, inserts: nat, probes: nat, key: seq<byte>)
    requires ArenaInv(f, m, lay, tail, head, inserts) && probes < |m.hash|
    requires NoHashAmongFirst(m, HashOf(f, key), probes)
    requires m.hash[Probe(HashOf(f, key), probes, |m.hash|)] == EMPTY
    ensures |m.hash| == |m.off| && KeysDiffer(m) && key !in View(m)
  {
    SlotsPointAtRecords(f, m, lay, tail, head, inserts);
    assert KeysDiffer(m);
    NotYetSeen(f, m, probes, key);
    ProbeEndsAtEmpty(f, m, lay, tail, head, inserts, probes, key);
  }

  lemma NotYetSeen(f: Hash, m: Mem, probes: nat, key: seq<byte>)
    requires |m.hash| == |m.off| > 0 && NoHashAmongFirst(m, HashOf(f, key), probes)
    requires forall x | 0 <= x < |m.hash| && m.hash[x] != EMPTY ::
               m.off[x] in m.book && m.hash[x] == HashOf(f, m.book[m.off[x]].key)
    ensures NotAmongFirst(m, HashOf(f, key), probes, key)
  {
    hide Home;
    hide HashOf;
  }

  lemma AllSlotsDiffer(f: Hash, m: Mem, lay: Layout, tail: nat, head: nat, inserts: nat, key: seq<byte>)
    requires ArenaInv(f, m, lay, tail, head, inserts) && NoHashAmongFirst(m, HashOf(f, key), |m.hash|)
    ensures |m.hash| == |m.off| && KeysDiffer(m) && key !in View(m)
  {
    SlotsPointAtRecords(f, m, lay, tail, head, inserts);
    assert KeysDiffer(m);
    NotYetSeen(f, m, |m.hash|, key);
    ProbedEverywhere(m, HashOf(f, key), key);
  }

  /** The first slot with the right hash is the slot of the key exactly when nothing shadows it. */
  lemma FirstMatchDecides(f: Hash, m: Mem, lay: Layout, tail: nat, head: nat, inserts: nat, probes: nat, i: nat,
                          key: seq<byte>)
    requires ArenaInv(f, m, lay, tail, head, inserts) && probes < |m.hash|
    requires NoHashAmongFirst(m, HashOf(f, key), probes)
    requires i == Probe(HashOf(f, key), probes, |m.hash|) && m.hash[i] == HashOf(f, key)
    ensures |m.hash| == |m.off| && KeysDiffer(m) && m.off[i] in m.book
    ensures m.book[m.off[i]].key == key <==> key in View(m) && !Shadowed(m, HashOf(f, key), key)
    ensures m.book[m.off[i]].key == key ==> View(m)[key] == m.book[m.off[i]]
  {
    hide View;
    hide KeysDiffer;
    hide SlotsOk;
    hide Reachable;
    hide HashOf;
    hide MemInv;
    hide LogInv;
    hide BytesInv;
    hide Shadowed;
    hide View;
    hide KeysDiffer;
    hide NoHashAmongFirst;
    SlotsPointAtRecords(f, m, lay, tail, head, inserts);
    if m.book[m.off[i]].key == key {
      SlotForIntro(m, i);
      MatchIsKey(m, HashOf(f, key), probes, i, key);
    } else {
      MatchIsOther(f, m, HashOf(f, key), probes, i, key);
    }
  }

  lemma SlotForIntro(m: Mem, x: nat)
    requires x < |m.hash| && x < |m.off| && m.hash[x] != EMPTY && m.off[x] in m.book
    ensures SlotFor(m, x, m.book[m.off[x]].key)
  {
  }

  lemma MatchIsKey(m: Mem, hv: nat, probes: nat, i: nat, key: seq<byte>)
    requires |m.hash| == |m.off| && KeysDiffer(m) && SlotFor(m, i, key)
    requires probes < |m.hash| && i == Probe(hv, probes, |m.hash|) && NoHashAmongFirst(m, hv, probes)
    ensures key in View(m) && View(m)[key] == m.book[m.off[i]] && !Shadowed(m, hv, key)
  {
    hide Home;
    hide View;
    forall x: nat, y: nat
      ensures !ShadowedBy(m, hv, key, x, y)
    {
      if SlotFor(m, y, key) {
        assert y == i;
      }
    }
  }

  lemma MatchIsOther(f: Hash, m: Mem, hv: nat, probes: nat, i: nat, key: seq<byte>)
    requires |m.hash| == |m.off| && KeysDiffer(m) && i < |m.hash| && hv == HashOf(f, key) == m.hash[i]
    requires forall x | 0 <= x < |m.hash| && m.hash[x] != EMPTY ::
               m.off[x] in m.book && m.hash[x] == HashOf(f, m.book[m.off[x]].key)
    requires probes < |m.hash| && i == Probe(hv, probes, |m.hash|) && NoHashAmongFirst(m, hv, probes)
    requires m.book[m.off[i]].key != key
    ensures key in View(m) ==> Shadowed(m, hv, key)
  {
    hide Home;
    hide View;
    hide HashOf;
    if key in View(m) {
      var y: nat :| SlotFor(m, y, key);
      assert m.hash[y] == hv && y != i;
      assert ShadowedBy(m, hv, key, i, y);
    }
  }

  lemma SlotDecodes(f: Hash, m: Mem, lay: Layout, tail: nat, head: nat, inserts: nat, i: nat)
    requires ArenaInv(f, m, lay, tail, head, inserts) && i < |m.hash| && m.hash[i] != EMPTY
    ensures |m.hash| == |m.off| && m.off[i] in m.book && m.tailPub <= m.off[i] && |m.data| > 0
    ensures Decodes(m.data, Phys(m.off[i], |m.data|), m.book[m.off[i]])
    ensures var a := Phys(m.off[i], |m.data|); a + HEADER <= |m.data| && FromLE(m.data[a..a + 4]) % 2 == 0
    ensures m.book[m.off[i]].hash == m.hash[i]
  {
    hide Phys;
    hide FromLE;
    SlotAt(f, m, lay, tail, head, inserts, i);
    var p := m.off[i];
    RecordDecodes(m, p);
    assert p in lay && SegBytes(m, lay, p) && SegOk(|m.data|, p, lay[p]);
    LeadFields(m.data, p, Phys(p, |m.data|));
    assert Current(m, p);
  }

  // --------------------------------------------------------------------- sweeping

  /** No entry in the first i slots carries one of these expiry times. */
  ghost predicate CleanBelow(m: Mem, i: nat, times: set<nat>) {
    forall x: nat | x < i && x < |m.hash| && x < |m.off| && m.hash[x] != EMPTY ::
      m.off[x] in m.book && m.book[m.off[x]].expiresAt !in times
  }

  /** The expiry times that read as passed at `now`. */
  ghost function PassedAt(now: nat): set<nat> {
    set e: nat | e < TWO_32 && Expired(e, now)
  }

  /** Removing slot i only moves entries back towards i, so no unexamined entry slips below i. */
  lemma RemovalKeepsClean(m0: Mem, m: Mem, i: nat, times: set<nat>)
    requires CleanBelow(m0, i, times) && MovedBack(m0, m, i) && m.book == m0.book
    ensures CleanBelow(m, i, times)
  {
    forall x: nat | x < i && x < |m.hash| && x < |m.off| && m.hash[x] != EMPTY
      ensures m.off[x] in m.book && m.book[m.off[x]].expiresAt !in times
    {
      var y: nat :| CameFrom(m0, m, i, x, y);
      assert y < i;
    }
  }

  lemma CleanNext(m: Mem, i: nat, times: set<nat>, now: nat)
    requires CleanBelow(m, i, times) && i < |m.hash| == |m.off| && times <= PassedAt(now)
    requires m.hash[i] != EMPTY ==> m.off[i] in m.book && !Expired(m.book[m.off[i]].expiresAt, now)
    ensures CleanBelow(m, i + 1, times)
  {
  }

  lemma NothingBelowZero(m: Mem, times: set<nat>)
    ensures CleanBelow(m, 0, times)
  {
  }

  /** Once all slots are clean, no binding carries one of these times. */
  lemma CleanMeansFresh(m: Mem, times: set<nat>)
    requires |m.hash| == |m.off| && KeysDiffer(m) && CleanBelow(m, |m.hash|, times)
    ensures forall k | k in View(m) :: View(m)[k].expiresAt !in times
  {
    forall k | k in View(m)
      ensures View(m)[k].expiresAt !in times
    {
      var x: nat :| SlotFor(m, x, k);
    }
  }

  /** Between v0 and v only expired bindings were lost, and each left a record in the ring. */
  ghost predicate Swept(f: Hash, v0: map<seq<byte>, Rec>, v: map<seq<byte>, Rec>,
                        h0: seq<RingRec>, h: seq<RingRec>, now: nat) {
    && Submap(v, v0) && h0 <= h
    && forall k | k in v0 && k !in v :: Expired(v0[k].expiresAt, now) && Announces(h, |h0|, HashOf(f, k))
  }

  /** A record with this hash was appended at or after position n. */
  ghost predicate Announces(h: seq<RingRec>, n: nat, hv: nat) {
    exists q :: n <= q < |h| && h[q].hash == hv
  }

  lemma SweptOneMore(f: Hash, v0: map<seq<byte>, Rec>, v1: map<seq<byte>, Rec>, v: map<seq<byte>, Rec>,
                     h0: seq<RingRec>, h1: seq<RingRec>, r: RingRec, k0: seq<byte>, now: nat)
    requires Swept(f, v0, v1, h0, h1, now) && v == v1 - {k0} && r.hash == HashOf(f, k0)
    requires k0 in v1 && Expired(v1[k0].expiresAt, now)
    ensures Swept(f, v0, v, h0, h1 + [r], now)
  {
    hide HashOf;
    hide Expired;
    var h := h1 + [r];
    forall k | k in v0 && k !in v
      ensures Expired(v0[k].expiresAt, now) && Announces(h, |h0|, HashOf(f, k))
    {
      if k == k0 {
        assert h[|h1|].hash == HashOf(f, k);
      } else {
        var q :| |h0| <= q < |h1| && h1[q].hash == HashOf(f, k);
        assert h[q] == h1[q];
      }
    }
  }

  lemma SweptNothing(f: Hash, v: map<seq<byte>, Rec>, h: seq<RingRec>, now: nat)
    ensures Swept(f, v, v, h, h, now)
  {
  }

  /** Slot i held an expired entry; it was removed and announced. */
  ghost predicate SweepGone(f: Hash, m0: Mem, m: Mem, i: nat, now: nat, h0: seq<RingRec>, h: seq<RingRec>) {
    && SameShape(m0, m) && KeysDiffer(m0) && KeysDiffer(m) && m.book == m0.book
    && i < |m0.hash| && m0.hash[i] != EMPTY && m0.off[i] in m0.book
    && var r := m0.book[m0.off[i]];
       && r.key in View(m0) && View(m0)[r.key] == r && Expired(r.expiresAt, now)
       && View(m) == View(m0) - {r.key}
       && (exists v, w :: h == h0 + [RingRec(HashOf(f, r.key), v, w)])
       && MovedBack(m0, m, i) && Drifts(m0, m, {})
  }

  lemma SweepGoneIntro(f: Hash, m0: Mem, m: Mem, i: nat, now: nat, h0: seq<RingRec>, h: seq<RingRec>, v: nat)
    requires SameShape(m0, m) && KeysDiffer(m0) && KeysDiffer(m) && m.book == m0.book
    requires i < |m0.hash| && m0.hash[i] != EMPTY && m0.off[i] in m0.book
    requires var r := m0.book[m0.off[i]];
             r.key in View(m0) && View(m0)[r.key] == r && Expired(r.expiresAt, now) && View(m) == View(m0) - {r.key}
    requires h == h0 + [RingRec(HashOf(f, m0.book[m0.off[i]].key), v, 0)]
    requires MovedBack(m0, m, i) && Drifts(m0, m, {})
    ensures SweepGone(f, m0, m, i, now, h0, h)
  {
    hide View;
    hide KeysDiffer;
    hide HashOf;
    hide Expired;
    hide Count;
    hide MovedBack;
    hide Drifts;
  }

  lemma SweepGoneParts(f: Hash, m0: Mem, m: Mem, i: nat, now: nat, h0: seq<RingRec>, h: seq<RingRec>,
                       v: map<seq<byte>, Rec>, g: seq<RingRec>, times: set<nat>)
    requires SweepGone(f, m0, m, i, now, h0, h)
    requires |m0.hash| == |m0.off| && KeysDiffer(m0) && Swept(f, v, View(m0), g, h0, now)
    ensures |m.hash| == |m.off| && KeysDiffer(m) && Swept(f, v, View(m), g, h, now)
    ensures |h| == |h0| + 1 && Drifts(m0, m, {})
    ensures i < |m0.hash| && m0.hash[i] != EMPTY && m0.off[i] in m0.book && Expired(m0.book[m0.off[i]].expiresAt, now)
    ensures CleanBelow(m0, i, times) ==> CleanBelow(m, i, times)
  {
    hide View;
    hide KeysDiffer;
    hide HashOf;
    hide Expired;
    hide Swept;
    hide Count;
    hide MovedBack;
    hide Drifts;
    hide CleanBelow;
    var r := m0.book[m0.off[i]];
    var a, b :| h == h0 + [RingRec(HashOf(f, r.key), a, b)];
    SweptOneMore(f, v, View(m0), View(m), g, h0, RingRec(HashOf(f, r.key), a, b), r.key, now);
    if CleanBelow(m0, i, times) {
      RemovalKeepsClean(m0, m, i, times);
    }
  }

  /** Slots c to i were looked at: what is still there has not expired or has moved towards its home. */
  ghost predicate Combed(m0: Mem, m: Mem, c: nat, i: nat, now: nat) {
    && |m.hash| == |m.off| == |m0.hash| == |m0.off|
    && forall x: nat | x < |m.hash| && m.hash[x] != EMPTY && m.off[x] in m.book ::
         exists y: nat :: StayedOrMoved(m0, m, c, i, now, x, y)
  }

  ghost predicate StayedOrMoved(m0: Mem, m: Mem, c: nat, i: nat, now: nat, x: nat, y: nat) {
    Kept(m0, m, x, y) && (x == y && c <= x < i ==> !Expired(m.book[m.off[x]].expiresAt, now))
  }

  lemma CombedNothing(m: Mem, c: nat, now: nat)
    requires |m.hash| == |m.off|
    ensures Combed(m, m, c, c, now)
  {
    forall x: nat | x < |m.hash| && m.hash[x] != EMPTY && m.off[x] in m.book
      ensures exists y: nat :: StayedOrMoved(m, m, c, c, now, x, y)
    {
      assert StayedOrMoved(m, m, c, c, now, x, x);
    }
  }

  lemma CombedDrifts(m0: Mem, m1: Mem, m: Mem, c: nat, i: nat, now: nat)
    requires Combed(m0, m1, c, i, now) && Drifts(m1, m, {})
    ensures Combed(m0, m, c, i, now)
  {
    hide Home;
    hide Expired;
    forall x: nat | x < |m.hash| && m.hash[x] != EMPTY && m.off[x] in m.book
      ensures exists y: nat :: StayedOrMoved(m0, m, c, i, now, x, y)
    {
      var z: nat :| Kept(m1, m, x, z);
      var y: nat :| StayedOrMoved(m0, m1, c, i, now, z, y);
      assert StayedOrMoved(m0, m, c, i, now, x, y);
    }
  }

  lemma CombedNext(m0: Mem, m: Mem, c: nat, i: nat, now: nat)
    requires Combed(m0, m, c, i, now) && i < |m.hash|
    requires m.hash[i] != EMPTY ==> m.off[i] in m.book && !Expired(m.book[m.off[i]].expiresAt, now)
    ensures Combed(m0, m, c, i + 1, now)
  {
    hide Home;
    hide Expired;
    var i' := i + 1;
    forall x: nat | x < |m.hash| && m.hash[x] != EMPTY && m.off[x] in m.book
      ensures exists y: nat :: StayedOrMoved(m0, m, c, i', now, x, y)
    {
      var y: nat :| StayedOrMoved(m0, m, c, i, now, x, y);
      assert StayedOrMoved(m0, m, c, i', now, x, y);
    }
  }

  lemma CombedEnds(m0: Mem, m1: Mem, m: Mem, c: nat, i: nat, n: nat, now: nat)
    requires Combed(m0, m1, c, i, now) && m.hash == m1.hash && m.off == m1.off && m.book == m1.book && |m.hash| == n
    ensures Combed(m0, m, c, if i >= n then n else i, now)
  {
    hide Home;
    hide Expired;
    var i' := if i >= n then n else i;
    forall x: nat | x < |m.hash| && m.hash[x] != EMPTY && m.off[x] in m.book
      ensures exists y: nat :: StayedOrMoved(m0, m, c, i', now, x, y)
    {
      var y: nat :| StayedOrMoved(m0, m1, c, i, now, x, y);
      assert StayedOrMoved(m0, m, c, i', now, x, y);
    }
  }

  lemma CombedIsDrift(m0: Mem, m: Mem, c: nat, i: nat, now: nat)
    requires Combed(m0, m, c, i, now)
    ensures Drifts(m0, m, {})
  {
    hide Kept;
    hide Expired;
    forall x: nat | x < |m.hash| && m.hash[x] != EMPTY && m.off[x] in m.book
      ensures exists y: nat :: Kept(m0, m, x, y)
    {
      var y: nat :| StayedOrMoved(m0, m, c, i, now, x, y);
    }
  }

  /** None of the n slots from c on holds an expired entry. */
  ghost predicate NoneToSweep(m: Mem, c: nat, n: nat, now: nat) {
    forall x: nat | c <= x < c + n && x < |m.hash| && x < |m.off| && m.hash[x] != EMPTY && m.off[x] in m.book ::
      !Expired(m.book[m.off[x]].expiresAt, now)
  }

  lemma CleanSame(m0: Mem, m: Mem, i: nat, n: nat, times: set<nat>)
    requires m.hash == m0.hash && m.off == m0.off && m.book == m0.book && |m.hash| == n
    ensures CleanBelow(m0, i, times) ==> CleanBelow(m, if i >= n then n else i, times)
  {
  }

  /** A fresh arena satisfies the invariant. */
  lemma BootIsValid(f: Hash, m: Mem)
    requires Boot(m) && |m.hash| <= SLOT_PAD && |m.data| % 8 == 0
    ensures MemInv(m) && ArenaInv(f, m, map[], 0, 0, 0) && Settled(m)
    ensures View(m) == map[] && Count(m.hash) == 0 && IndexedBytes(m) == 0
  {
    EmptyIsCut(m.hash, 0);
    SumZero(Ones(m.hash));
    SumZero(Blocks(m.hash, m.off, m.book));
    assert forall x: nat, k :: !SlotFor(m, x, k);
    assert View(m) == map[];
  }
}
