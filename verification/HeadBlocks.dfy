/** Writing a block at the head of the log: it disturbs nothing that is indexed or published. */
module HeadBlocks {
  import opened Bytes
  import opened Wrapping
  import opened Records
  import opened Probing
  import opened SharedMemory
  import opened LogLayout
  import opened ArenaState

  /** d differs from d0 only inside the block of len bytes at position q. */
  ghost predicate SameOutside(d0: seq<byte>, d: seq<byte>, q: nat, len: nat) {
    && |d| == |d0| > 0
    && Phys(q, |d|) + len <= |d|
    && forall a | 0 <= a < |d| && !(Phys(q, |d|) <= a < Phys(q, |d|) + len) :: d[a] == d0[a]
  }

  lemma NothingWritten(m: Mem, q: nat, a: nat, len: nat)
    requires BlockWritable(m, a, len) && a == Phys(q, |m.data|)
    ensures SameOutside(m.data, m.data, q, len) && a + len <= |m.data|
  {
  }

  lemma Offsets()
    ensures 4 <= SEQ_AT + 4 <= SLOT_AT + 4 <= LEAD <= HEADER - 1 && SLOT_PAD < TWO_32
  {
  }

  lemma PayloadFits(r: Rec)
    requires r.Fits()
    ensures HEADER + |r.key| + |r.val| <= r.blockSize
  {
  }

  /** A store inside the block. */
  lemma SpliceInBlock(d0: seq<byte>, d: seq<byte>, q: nat, len: nat, a: nat, s: seq<byte>)
    requires SameOutside(d0, d, q, len)
    requires Phys(q, |d|) <= a && a + |s| <= Phys(q, |d|) + len
    ensures SameOutside(d0, Splice(d, a, s), q, len)
  {
    hide Phys;
  }

  /** The value of the sequence lock while a block is being written, and once it is complete. */
  function SeqOpen(v: nat): nat {
    if v % 2 == 1 then v else v + 1
  }

  function SeqClosed(v: nat): (r: nat)
    ensures r % 2 == 0 && r < TWO_32
  {
    (SeqOpen(v) + 1) % TWO_32
  }

  /** A published record never lies in a free block. */
  lemma FreeBlockUnprotected(m: Mem, lay: Layout, tail: nat, head: nat, len: nat, a: nat)
    requires MemInv(m) && LogInv(|m.data|, lay, tail, head) && BytesInv(m, lay)
    requires FreeBlock(|m.data|, tail, head, len)
    requires Phys(head, |m.data|) <= a < Phys(head, |m.data|) + len
    ensures Writable(m, a)
  {
    hide Phys;
    hide Rec.Head;
    hide Rec.Image;
    forall p: nat | Protected(m, p, a)
      ensures false
    {
      assert SegBytes(m, lay, p) && SegOk(|m.data|, p, lay[p]);
      BlockDisjoint(|m.data|, lay, tail, head, len, p);
    }
  }

  lemma FieldsOutside(d0: seq<byte>, d: seq<byte>, q: nat, len: nat, p: nat)
    requires SameOutside(d0, d, q, len) && Phys(p, |d|) + HEADER <= |d|
    requires Phys(p, |d|) + HEADER <= Phys(q, |d|) || Phys(q, |d|) + len <= Phys(p, |d|)
    ensures SlotField(d, p) == SlotField(d0, p) && SeqField(d, p) == SeqField(d0, p)
    ensures BlockField(d, p) == BlockField(d0, p)
  {
    hide Phys;
    hide FromLE;
    var b := Phys(p, |d|);
    SameSlice(d0, d, b + SLOT_AT, b + LEAD);
    SameSlice(d0, d, b, b + SLOT_AT);
    SameSlice(d0, d, b + BLOCK_AT, b + BLOCK_AT + 4);
  }

  lemma SameSlice(d0: seq<byte>, d: seq<byte>, lo: nat, hi: nat)
    requires lo <= hi <= |d| == |d0| && forall k | lo <= k < hi :: d[k] == d0[k]
    ensures d[lo..hi] == d0[lo..hi]
  {
  }

  /** Filling a free block keeps what every segment header says and every slot points at. */
  lemma BlockWriteKeeps(m: Mem, m': Mem, lay: Layout, tail: nat, head: nat, len: nat)
    requires LogInv(|m.data|, lay, tail, head) && FreeBlock(|m.data|, tail, head, len)
    requires BytesInv(m, lay) && SlotsOk(m, lay)
    requires m' == m.(data := m'.data) && SameOutside(m.data, m'.data, head, len)
    ensures BytesInv(m', lay) && SlotsOk(m', lay)
    ensures forall p | p in lay && !lay[p].Gap? ::
              SlotField(m'.data, p) == SlotField(m.data, p)
  {
    hide Phys;
    hide FromLE;
    forall p | p in lay && !lay[p].Gap?
      ensures SlotField(m'.data, p) == SlotField(m.data, p)
      ensures SeqField(m'.data, p) == SeqField(m.data, p)
      ensures BlockField(m'.data, p) == BlockField(m.data, p)
    {
      assert SegOk(|m.data|, p, lay[p]);
      BlockDisjoint(|m.data|, lay, tail, head, len, p);
      FieldsOutside(m.data, m'.data, head, len, p);
    }
    forall p | p in lay
      ensures SegBytes(m', lay, p)
    {
      assert SegBytes(m, lay, p);
    }
    forall x | 0 <= x < |m.hash|
      ensures SlotOk(m', lay, x)
    {
      assert SlotOk(m, lay, x);
    }
  }

  /** The bytes at address a decode to the fields, key and value of r. */
  ghost predicate Decodes(d: seq<byte>, a: nat, r: Rec) {
    && a + HEADER + |r.key| + |r.val| <= |d|
    && FromLE(d[a + HASH_AT..a + HASH_AT + 8]) == r.hash
    && FromLE(d[a + EXPIRES_AT..a + EXPIRES_AT + 4]) == r.expiresAt
    && FromLE(d[a + RAW_AT..a + RAW_AT + 4]) == r.rawLen
    && FromLE(d[a + STORED_AT..a + STORED_AT + 4]) == |r.val|
    && FromLE(d[a + BLOCK_AT..a + BLOCK_AT + 4]) == r.blockSize
    && FromLE(d[a + KEYLEN_AT..a + KEYLEN_AT + 2]) == |r.key|
    && d[a + FLAGS_AT] == r.flags
    && d[a + HEADER..a + HEADER + |r.key|] == r.key
    && d[a + HEADER + |r.key|..a + HEADER + |r.key| + |r.val|] == r.val
  }

  /** Do the bytes at address a hold this key? The comparison of the source: length, then bytes. */
  predicate KeyBytesAt(d: seq<byte>, a: nat, key: seq<byte>) {
    && a + HEADER <= |d| && FromLE(d[a + KEYLEN_AT..a + KEYLEN_AT + 2]) == |key|
    && a + HEADER + |key| <= |d| && d[a + HEADER..a + HEADER + |key|] == key
  }

  lemma KeyBytesDecide(d: seq<byte>, a: nat, r: Rec, key: seq<byte>)
    requires Decodes(d, a, r)
    ensures KeyBytesAt(d, a, key) <==> r.key == key
  {
    hide FromLE;
  }

  /** A record that the tail has not passed decodes to what was stored. */
  lemma RecordDecodes(m: Mem, p: nat)
    requires MemInv(m) && p in m.book && m.tailPub <= p
    ensures Decodes(m.data, Phys(p, |m.data|), m.book[p])
  {
    hide Rec.Head;
    hide Rec.Image;
    hide Phys;
    hide Decodes;
    assert Holds(m, p, m.book[p]);
    ImageDecodes(m.data, Phys(p, |m.data|), m.book[p]);
  }

  lemma ImageDecodes(d: seq<byte>, a: nat, r: Rec)
    requires r.Fits() && a + LEAD + |r.Image()| <= |d| && d[a + LEAD..a + LEAD + |r.Image()|] == r.Image()
    ensures Decodes(d, a, r)
  {
    hide Rec.Head;
    hide Rec.Image;
    hide FromLE;
    HeaderRoundTrip(r);
    FieldOfRecord(d, a, r, HASH_AT, 8);
    FieldOfRecord(d, a, r, EXPIRES_AT, 4);
    FieldOfRecord(d, a, r, RAW_AT, 4);
    FieldOfRecord(d, a, r, STORED_AT, 4);
    FieldOfRecord(d, a, r, BLOCK_AT, 4);
    FieldOfRecord(d, a, r, KEYLEN_AT, 2);
    RecordPayload(d, a, r);
  }

  lemma FieldOfRecord(d: seq<byte>, a: nat, r: Rec, at: nat, w: nat)
    requires a + LEAD + |r.Image()| <= |d| && d[a + LEAD..a + LEAD + |r.Image()|] == r.Image()
    requires LEAD <= at && at + w <= HEADER
    ensures FromLE(d[a + at..a + at + w]) == Field(r.Head(), at, w)
  {
    hide Rec.Head;
    hide Rec.Image;
    hide FromLE;
    SubSlice(d, a + LEAD, r.Image(), at - LEAD, at - LEAD + w);
    assert r.Image()[at - LEAD..at - LEAD + w] == r.Image()[..HEADER - LEAD][at - LEAD..at - LEAD + w];
  }

  lemma RecordPayload(d: seq<byte>, a: nat, r: Rec)
    requires a + LEAD + |r.Image()| <= |d| && d[a + LEAD..a + LEAD + |r.Image()|] == r.Image()
    ensures d[a + FLAGS_AT] == r.Head()[FLAGS_AT - LEAD]
    ensures d[a + HEADER..a + HEADER + |r.key|] == r.key
    ensures d[a + HEADER + |r.key|..a + HEADER + |r.key| + |r.val|] == r.val
  {
    hide Rec.Head;
    hide Rec.Image;
    var im := r.Image();
    SubSlice(d, a + LEAD, im, HEADER - LEAD, HEADER - LEAD + |r.key|);
    SubSlice(d, a + LEAD, im, HEADER - LEAD + |r.key|, |im|);
    assert im[HEADER - LEAD + |r.key|..|im|] == im[HEADER - LEAD + |r.key|..];
    assert im[..HEADER - LEAD][FLAGS_AT - LEAD] == im[FLAGS_AT - LEAD];
    assert d[a + LEAD..a + LEAD + |im|][FLAGS_AT - LEAD] == d[a + FLAGS_AT];
  }

  /** The stores that copy a record leave its bytes behind. */
  lemma RecordCopied(d0: seq<byte>, d2: seq<byte>, d4: seq<byte>, a0: nat, a: nat, len: nat, r: Rec,
                     slot: nat, v: nat, w: nat)
    requires HEADER <= len && a + len <= |d0| && a0 + len <= |d0| && slot < TWO_32 && w < TWO_32
    requires LEAD + |r.Image()| <= len && d0[a0 + LEAD..a0 + LEAD + |r.Image()|] == r.Image()
    requires a0 + len <= a || a + len <= a0
    requires var d1 := Splice(d0, a + SEQ_AT, LE(v, 4)); d2 == Splice(d1, a + LEAD, d1[a0 + LEAD..a0 + len])
    requires d4 == Splice(Splice(d2, a + SLOT_AT, LE(slot, 4)), a + SEQ_AT, LE(w, 4))
    ensures FromLE(d4[a + SLOT_AT..a + LEAD]) == slot && FromLE(d4[a..a + SLOT_AT]) == w
    ensures d4[a + LEAD..a + LEAD + |r.Image()|] == r.Image()
  {
    hide *;
    Offsets();
    var d1, d3 := Splice(d0, a + SEQ_AT, LE(v, 4)), Splice(d2, a + SLOT_AT, LE(slot, 4));
    BodyCopied(d0, d1, d2, a0, a, len, r.Image(), d1[a0 + LEAD..a0 + len], v);
    LeadWritten(d2, d3, d4, a, slot, w);
    BodyStays(d2, d3, d4, a, slot, w, |r.Image()|);
  }

  lemma BodyStays(d2: seq<byte>, d3: seq<byte>, d4: seq<byte>, a: nat, slot: nat, w: nat, n: nat)
    requires a + LEAD + n <= |d2|
    requires d3 == Splice(d2, a + SLOT_AT, LE(slot, 4))
    requires d4 == Splice(d3, a + SEQ_AT, LE(w, 4))
    ensures d4[a + LEAD..a + LEAD + n] == d2[a + LEAD..a + LEAD + n]
  {
    hide LE;
    hide Splice;
    SpliceElsewhere(d2, a + SLOT_AT, LE(slot, 4), a + LEAD, a + LEAD + n);
    SpliceElsewhere(d3, a + SEQ_AT, LE(w, 4), a + LEAD, a + LEAD + n);
  }

  lemma LeadWritten(d2: seq<byte>, d3: seq<byte>, d4: seq<byte>, a: nat, slot: nat, w: nat)
    requires a + LEAD <= |d2| && slot < TWO_32 && w < TWO_32
    requires d3 == Splice(d2, a + SLOT_AT, LE(slot, 4))
    requires d4 == Splice(d3, a + SEQ_AT, LE(w, 4))
    ensures FromLE(d4[a + SLOT_AT..a + LEAD]) == slot && FromLE(d4[a..a + SLOT_AT]) == w
  {
    hide LE;
    hide FromLE;
    hide Splice;
    Widths();
    FromLEOfLE(slot, 4);
    FromLEOfLE(w, 4);
    SpliceElsewhere(d3, a + SEQ_AT, LE(w, 4), a + SLOT_AT, a + LEAD);
    assert d4[a + SEQ_AT..a + SEQ_AT + |LE(w, 4)|] == LE(w, 4);
  }

  lemma BodyCopied(d0: seq<byte>, d1: seq<byte>, d2: seq<byte>, a0: nat, a: nat, len: nat, im: seq<byte>,
                   body: seq<byte>, v: nat)
    requires HEADER <= len && a + len <= |d0| && a0 + len <= |d0|
    requires LEAD + |im| <= len && d0[a0 + LEAD..a0 + LEAD + |im|] == im
    requires a0 + len <= a || a + len <= a0
    requires d1 == Splice(d0, a + SEQ_AT, LE(v, 4)) && body == d1[a0 + LEAD..a0 + len]
    requires d2 == Splice(d1, a + LEAD, body)
    ensures d2[a + LEAD..a + LEAD + |im|] == im
  {
    hide LE;
    hide Splice;
    SpliceElsewhere(d0, a + SEQ_AT, LE(v, 4), a0 + LEAD, a0 + LEAD + |im|);
    assert d2[a + LEAD..a + LEAD + |body|] == body;
    SubSlice(d2, a + LEAD, body, 0, |im|);
    assert body[..|im|] == d1[a0 + LEAD..a0 + LEAD + |im|];
  }

  /** Reading the lead of a block back. */
  lemma LeadFields(d: seq<byte>, q: nat, a: nat)
    requires |d| > 0 && a == Phys(q, |d|) && a + HEADER <= |d|
    ensures SlotField(d, q) == FromLE(d[a + SLOT_AT..a + LEAD])
    ensures SeqField(d, q) == FromLE(d[a..a + SLOT_AT])
    ensures BlockField(d, q) == FromLE(d[a + BLOCK_AT..a + BLOCK_AT + 4])
  {
  }

  lemma HoldsAt(m: Mem, q: nat, a: nat, r: Rec)
    requires |m.data| > 0 && a == Phys(q, |m.data|)
    requires a + LEAD + |r.Image()| <= |m.data| && m.data[a + LEAD..a + LEAD + |r.Image()|] == r.Image()
    ensures Holds(m, q, r)
  {
    hide Rec.Image;
  }

  lemma PadWritten(d1: seq<byte>, d2: seq<byte>, d3: seq<byte>, a: nat, len: nat, v: nat)
    requires a + HEADER <= |d1| && len < TWO_32 && d1[a + SLOT_AT..a + LEAD] == LE(SLOT_PAD, 4)
    requires d2 == Splice(d1, a + BLOCK_AT, LE(len, 4)) && d3 == Splice(d2, a + SEQ_AT, LE(v, 4))
    ensures FromLE(d3[a + SLOT_AT..a + LEAD]) == SLOT_PAD
    ensures FromLE(d3[a + BLOCK_AT..a + BLOCK_AT + 4]) == len
  {
    hide LE;
    hide FromLE;
    hide Splice;
    Widths();
    FromLEOfLE(SLOT_PAD, 4);
    FromLEOfLE(len, 4);
    SpliceElsewhere(d1, a + BLOCK_AT, LE(len, 4), a + SLOT_AT, a + LEAD);
    SpliceElsewhere(d2, a + SEQ_AT, LE(v, 4), a + SLOT_AT, a + LEAD);
    SpliceElsewhere(d2, a + SEQ_AT, LE(v, 4), a + BLOCK_AT, a + BLOCK_AT + 4);
  }

  lemma SlotWritten(d1: seq<byte>, d2: seq<byte>, d3: seq<byte>, d4: seq<byte>, d5: seq<byte>,
                    a: nat, r: Rec, slot: nat, w: nat)
    requires a + HEADER + |r.key| + |r.val| <= |d1| && slot < TWO_32 && w < TWO_32
    requires d1[a + SLOT_AT..a + LEAD] == LE(slot, 4)
    requires d2 == Splice(d1, a + LEAD, r.Head()[..HEADER - LEAD - 1]) && d3 == Splice(d2, a + HEADER, r.key)
    requires d4 == Splice(d3, a + HEADER + |r.key|, r.val) && d5 == Splice(d4, a + SEQ_AT, LE(w, 4))
    ensures FromLE(d5[a + SLOT_AT..a + LEAD]) == slot && FromLE(d5[a..a + SLOT_AT]) == w
  {
    hide Rec.Head;
    hide LE;
    hide FromLE;
    hide Splice;
    Widths();
    FromLEOfLE(slot, 4);
    FromLEOfLE(w, 4);
    SpliceElsewhere(d1, a + LEAD, r.Head()[..HEADER - LEAD - 1], a + SLOT_AT, a + LEAD);
    SpliceElsewhere(d2, a + HEADER, r.key, a + SLOT_AT, a + LEAD);
    SpliceElsewhere(d3, a + HEADER + |r.key|, r.val, a + SLOT_AT, a + LEAD);
    SpliceElsewhere(d4, a + SEQ_AT, LE(w, 4), a + SLOT_AT, a + LEAD);
    assert d5[a + SEQ_AT..a + SEQ_AT + |LE(w, 4)|] == LE(w, 4);
  }

  /** The six stores that write a record leave exactly its bytes behind. */
  lemma RecordWritten(d0: seq<byte>, d2: seq<byte>, d4: seq<byte>, d5: seq<byte>,
                      a: nat, r: Rec, slot: nat, v: nat, w: nat)
    requires r.Fits() && a + r.blockSize <= |d0| && HEADER + |r.key| + |r.val| <= r.blockSize && slot < TWO_32
    requires w < TWO_32 && r.tail == d0[a + HEADER - 1]
    requires d2 == Splice(Splice(Splice(d0, a + SEQ_AT, LE(v, 4)), a + SLOT_AT, LE(slot, 4)),
                          a + LEAD, r.Head()[..HEADER - LEAD - 1])
    requires d4 == Splice(Splice(d2, a + HEADER, r.key), a + HEADER + |r.key|, r.val)
    requires d5 == Splice(d4, a + SEQ_AT, LE(w, 4))
    ensures FromLE(d5[a + SLOT_AT..a + LEAD]) == slot && FromLE(d5[a..a + SLOT_AT]) == w
    ensures d5[a + LEAD..a + LEAD + |r.Image()|] == r.Image()
  {
    hide Rec.Head;
    hide Rec.Image;
    hide LE;
    hide FromLE;
    hide Splice;
    var d1 := Splice(Splice(d0, a + SEQ_AT, LE(v, 4)), a + SLOT_AT, LE(slot, 4));
    var d3 := Splice(d2, a + HEADER, r.key);
    SlotWritten(d1, d2, d3, d4, d5, a, r, slot, w);
    HeadWritten(d0, d1, d2, a, r, slot, v);
    PayloadWritten(d2, d3, d4, d5, a, r, w);
  }

  lemma HeadWritten(d0: seq<byte>, d1: seq<byte>, d2: seq<byte>, a: nat, r: Rec, slot: nat, v: nat)
    requires a + HEADER <= |d0| && r.tail == d0[a + HEADER - 1]
    requires d1 == Splice(Splice(d0, a + SEQ_AT, LE(v, 4)), a + SLOT_AT, LE(slot, 4))
    requires d2 == Splice(d1, a + LEAD, r.Head()[..HEADER - LEAD - 1])
    ensures d2[a + LEAD..a + HEADER] == r.Head()
  {
    hide LE;
    hide Splice;
    LastHeaderByte(r);
    hide Rec.Head;
    HeadAndTail(d1, d2, a + LEAD, r.Head());
  }

  lemma LastHeaderByte(r: Rec)
    ensures r.Head()[HEADER - LEAD - 1] == r.tail
  {
    hide LE;
  }

  /** All of h but its last byte was written at b, and its last byte was there already. */
  lemma HeadAndTail(d: seq<byte>, d': seq<byte>, b: nat, h: seq<byte>)
    requires |h| > 0 && b + |h| <= |d| && d' == Splice(d, b, h[..|h| - 1]) && d[b + |h| - 1] == h[|h| - 1]
    ensures d'[b..b + |h|] == h
  {
    hide Splice;
    var s := h[..|h| - 1];
    assert d'[b..b + |s|] == s;
    forall k | 0 <= k < |h|
      ensures d'[b..b + |h|][k] == h[k]
    {
      if k < |s| {
        assert d'[b..b + |s|][k] == s[k];
      }
    }
  }

  lemma PayloadWritten(d2: seq<byte>, d3: seq<byte>, d4: seq<byte>, d5: seq<byte>, a: nat, r: Rec, w: nat)
    requires a + HEADER + |r.key| + |r.val| <= |d2| && d2[a + LEAD..a + HEADER] == r.Head()
    requires d3 == Splice(d2, a + HEADER, r.key)
    requires d4 == Splice(d3, a + HEADER + |r.key|, r.val)
    requires d5 == Splice(d4, a + SEQ_AT, LE(w, 4))
    ensures d5[a + LEAD..a + LEAD + |r.Image()|] == r.Image()
  {
    hide LE;
    hide Splice;
    hide Rec.Image;
    hide Rec.Head;
    var b, c := a + HEADER, a + HEADER + |r.key|;
    SpliceElsewhere(d2, b, r.key, a + LEAD, b);
    SpliceElsewhere(d3, c, r.val, a + LEAD, b);
    SpliceElsewhere(d3, c, r.val, b, c);
    SpliceElsewhere(d4, a + SEQ_AT, LE(w, 4), a + LEAD, b);
    SpliceElsewhere(d4, a + SEQ_AT, LE(w, 4), b, c);
    SpliceElsewhere(d4, a + SEQ_AT, LE(w, 4), c, c + |r.val|);
    ThreeSlices(d5, a + LEAD, b, c, c + |r.val|);
    ImageIs(r);
  }

  lemma ThreeSlices(d: seq<byte>, a: nat, b: nat, c: nat, e: nat)
    requires a <= b <= c <= e <= |d|
    ensures d[a..e] == d[a..b] + d[b..c] + d[c..e]
  {
  }

  lemma ImageIs(r: Rec)
    ensures r.Image() == r.Head() + r.key + r.val
  {
    hide Rec.Head;
  }
}
