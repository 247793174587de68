/** The memory the writer shares with lock-free readers, as a state machine over single stores.

    Every store the writer makes is an Event. `Legal` says when a store is allowed; the class
    Arena proves that all its stores are legal, and module Readers proves what a reader may rely
    on when legal stores are interleaved with its loads. Publish and Retire change no memory:
    Publish records that the bytes of a record are complete, Retire that an operation has ended
    which overwrote, deleted or evicted those records. */
module SharedMemory {
  import opened Bytes
  import opened Wrapping
  import opened Records
  import opened Probing

  /** hash, off: the two columns of the index. data: the log bytes. tailPub: the published tail.
      book: every record ever completed, by log position. retired: ids of records whose
      overwrite, delete or eviction is complete. */
  datatype Mem = Mem(hash: seq<nat>, off: seq<nat>, data: seq<byte>, tailPub: nat,
                     book: map<nat, Rec>, retired: set<nat>)

  datatype Event =
    | HashStore(slot: nat, value: nat)
    | OffStore(slot: nat, pos: nat)
    | ZeroOff(slot: nat)
    | ByteStore(addr: nat, b: byte)
    | TailStore(tail: nat)
    | Publish(pos: nat, rec: Rec)
    | Retire(ids: set<nat>)

  /** The first address of the immutable part of the record at `pos`. */
  function BodyAt(m: Mem, pos: nat): nat
    requires |m.data| > 0
  {
    Phys(pos, |m.data|) + LEAD
  }

  /** The bytes of `r` are in the data region at position `pos`. */
  ghost predicate Holds(m: Mem, pos: nat, r: Rec)
    requires |m.data| > 0
  {
    var a := BodyAt(m, pos);
    a + |r.Image()| <= |m.data| && m.data[a..a + |r.Image()|] == r.Image()
  }

  /** A record never crosses the end of the data region. */
  ghost predicate InRegion(m: Mem, pos: nat)
    requires |m.data| > 0 && pos in m.book
  {
    BodyAt(m, pos) + |m.book[pos].Image()| <= |m.data|
  }

  /** Address a belongs to a completed record that the published tail has not passed. */
  ghost predicate Protected(m: Mem, pos: nat, a: nat)
    requires |m.data| > 0
  {
    pos in m.book && m.tailPub <= pos && BodyAt(m, pos) <= a < BodyAt(m, pos) + |m.book[pos].Image()|
  }

  /** The writer may change the byte at address a. */
  ghost predicate Writable(m: Mem, a: nat)
    requires |m.data| > 0
  {
    forall p: nat :: !Protected(m, p, a)
  }

  /** A slot may announce `pos`: it is complete and not retired. */
  ghost predicate Current(m: Mem, pos: nat) {
    pos in m.book && m.book[pos].id !in m.retired
  }

  ghost predicate Legal(m: Mem, e: Event)
    requires |m.data| > 0
  {
    match e
    case HashStore(i, v) =>
      i < |m.hash| && i < |m.off| &&
      (v == EMPTY || (Current(m, m.off[i]) && m.book[m.off[i]].hash == v))
    case OffStore(i, p) =>
      i < |m.hash| && i < |m.off| && Current(m, p) &&
      (m.hash[i] == EMPTY || m.book[p].hash == m.hash[i])
    case ZeroOff(i) =>
      i < |m.hash| && i < |m.off| && m.hash[i] == EMPTY && (0 in m.book || m.book == map[])
    case ByteStore(a, b) =>
      a < |m.data| && Writable(m, a)
    case TailStore(t) =>
      m.tailPub <= t
    case Publish(p, r) =>
      r.Fits() && Holds(m, p, r) && r.id !in m.retired &&
      (p in m.book ==> m.book[p] == r) &&
      forall q | q in m.book :: m.book[q].id == r.id ==> m.book[q] == r
    case Retire(ids) =>
      forall i | 0 <= i < |m.hash| && i < |m.off| :: m.hash[i] != EMPTY && m.off[i] in m.book ==>
        m.book[m.off[i]].id !in ids
  }

  function Step(m: Mem, e: Event): (m': Mem)
    ensures |m'.hash| == |m.hash| && |m'.off| == |m.off| && |m'.data| == |m.data|
  {
    match e
    case HashStore(i, v) => if i < |m.hash| then m.(hash := m.hash[i := v]) else m
    case OffStore(i, p) => if i < |m.off| then m.(off := m.off[i := p]) else m
    case ZeroOff(i) => if i < |m.off| then m.(off := m.off[i := 0]) else m
    case ByteStore(a, b) => if a < |m.data| then m.(data := m.data[a := b]) else m
    case TailStore(t) => m.(tailPub := t)
    case Publish(p, r) => m.(book := m.book[p := r])
    case Retire(ids) => m.(retired := m.retired + ids)
  }

  lemma WritableSame(m: Mem, m': Mem, a: nat)
    requires |m.data| == |m'.data| > 0 && m.book == m'.book && m.tailPub == m'.tailPub
    ensures Writable(m, a) == Writable(m', a)
  {
    assert forall p: nat :: Protected(m, p, a) == Protected(m', p, a);
  }

  /** Every byte of a block may be written. */
  ghost predicate BlockWritable(m: Mem, a: nat, len: nat) {
    |m.data| > 0 && a + len <= |m.data| && forall k | a <= k < a + len :: Writable(m, k)
  }

  lemma StillWritable(m: Mem, m': Mem, a: nat, len: nat)
    requires BlockWritable(m, a, len)
    requires |m.data| == |m'.data| && m.book == m'.book && m.tailPub == m'.tailPub
    ensures BlockWritable(m', a, len)
  {
    forall k | a <= k < a + len
      ensures Writable(m', k)
    {
      WritableSame(m, m', k);
    }
  }

  /** What holds after every single store. */
  ghost predicate MemInv(m: Mem) {
    && |m.data| > 0 && |m.hash| == |m.off| > 0
    && (forall p | p in m.book :: m.book[p].Fits() && InRegion(m, p))
    && (forall p | p in m.book && m.tailPub <= p :: Holds(m, p, m.book[p]))
    && (forall i | 0 <= i < |m.hash| && m.hash[i] != EMPTY ::
          Current(m, m.off[i]) && m.book[m.off[i]].hash == m.hash[i])
    && (forall p, q | p in m.book && q in m.book && m.book[p].id == m.book[q].id ::
          m.book[p] == m.book[q])
  }

  /** A freshly created arena: empty index, nothing published. */
  ghost predicate Boot(m: Mem) {
    && |m.data| > 0 && |m.hash| == |m.off| > 0 && m.tailPub == 0
    && m.book == map[] && m.retired == {}
    && forall i | 0 <= i < |m.hash| :: m.hash[i] == EMPTY
  }

  lemma StepKeepsMemInv(m: Mem, e: Event)
    requires MemInv(m) && Legal(m, e)
    ensures MemInv(Step(m, e))
  {
    hide Rec.Image;
    hide Rec.Head;
    hide Rec.Fits;
    hide Phys;
    if e.ByteStore? {
      ByteStoreKeepsMemInv(m, e);
    } else if e.HashStore? || e.OffStore? || e.ZeroOff? {
      SlotStoreKeepsMemInv(m, e);
    } else if e.Publish? {
      PublishKeepsMemInv(m, e.pos, e.rec);
    } else {
      var m' := Step(m, e);
      assert m'.data == m.data && m'.hash == m.hash && m'.off == m.off && m'.book == m.book;
      forall p | p in m'.book && m'.tailPub <= p
        ensures Holds(m', p, m'.book[p])
      {
        assert Holds(m, p, m.book[p]);
      }
      forall i | 0 <= i < |m'.hash| && m'.hash[i] != EMPTY
        ensures Current(m', m'.off[i]) && m'.book[m'.off[i]].hash == m'.hash[i]
      {
        assert Current(m, m.off[i]);
      }
    }
  }

  lemma SameBytesSameRecords(m: Mem, m': Mem)
    requires |m.data| > 0 && m'.data == m.data
    ensures forall p: nat, r :: Holds(m', p, r) <==> Holds(m, p, r)
  {
    hide Rec.Image;
    hide Phys;
  }

  lemma PublishKeepsMemInv(m: Mem, p: nat, r: Rec)
    requires MemInv(m) && Legal(m, Publish(p, r))
    ensures MemInv(Step(m, Publish(p, r)))
  {
    hide Rec.Image;
    hide Rec.Head;
    hide Rec.Fits;
    hide Phys;
    hide Holds;
    var m' := Step(m, Publish(p, r));
    SameBytesSameRecords(m, m');
    FittingRecord(m, m', p, r);
    forall q | q in m'.book && m'.tailPub <= q
      ensures Holds(m', q, m'.book[q])
    {
      if q != p {
        assert Holds(m, q, m.book[q]);
      }
    }
    forall i | 0 <= i < |m'.hash| && m'.hash[i] != EMPTY
      ensures Current(m', m'.off[i]) && m'.book[m'.off[i]].hash == m'.hash[i]
    {
      assert Current(m, m.off[i]);
    }
    forall q, s | q in m'.book && s in m'.book && m'.book[q].id == m'.book[s].id
      ensures m'.book[q] == m'.book[s]
    {
      if q != p && s != p {
        assert m.book[q] == m.book[s];
      }
    }
  }

  lemma FittingRecord(m: Mem, m': Mem, p: nat, r: Rec)
    requires |m.data| > 0 && Holds(m, p, r) && m'.data == m.data && p in m'.book && m'.book[p] == r
    ensures InRegion(m', p)
  {
    hide Rec.Image;
    hide Phys;
  }

  lemma OtherBytesHold(m: Mem, m': Mem, a: nat, b: byte, p: nat, r: Rec)
    requires |m.data| > 0 && a < |m.data| && m'.data == m.data[a := b] && Holds(m, p, r)
    requires !(BodyAt(m, p) <= a < BodyAt(m, p) + |r.Image()|)
    ensures |m'.data| == |m.data| && Holds(m', p, r)
  {
    hide Rec.Image;
    hide Phys;
    var lo, hi := BodyAt(m, p), BodyAt(m, p) + |r.Image()|;
    assert m'.data[lo..hi] == m.data[lo..hi];
  }

  lemma ByteStoreKeepsMemInv(m: Mem, e: Event)
    requires MemInv(m) && Legal(m, e) && e.ByteStore?
    ensures MemInv(Step(m, e))
  {
    hide Rec.Image;
    hide Rec.Head;
    hide Rec.Fits;
    hide Phys;
    hide Holds;
    var m' := Step(m, e);
    forall p | p in m.book && m.tailPub <= p
      ensures Holds(m', p, m.book[p])
    {
      assert Holds(m, p, m.book[p]) && !Protected(m, p, e.addr);
      OtherBytesHold(m, m', e.addr, e.b, p, m.book[p]);
    }
  }

  lemma SlotStoreKeepsMemInv(m: Mem, e: Event)
    requires MemInv(m) && Legal(m, e) && (e.HashStore? || e.OffStore? || e.ZeroOff?)
    ensures MemInv(Step(m, e))
  {
    hide Rec.Image;
    hide Rec.Head;
    hide Rec.Fits;
    hide Phys;
    var m' := Step(m, e);
    assert m'.data == m.data && m'.book == m.book && m'.tailPub == m.tailPub;
    forall p | p in m.book && m.tailPub <= p
      ensures Holds(m', p, m.book[p])
    {
      assert Holds(m, p, m.book[p]);
    }
    forall i | 0 <= i < |m'.hash| && m'.hash[i] != EMPTY
      ensures Current(m', m'.off[i]) && m'.book[m'.off[i]].hash == m'.hash[i]
    {
      assert i != e.slot ==> Current(m, m.off[i]);
    }
  }

  /** Index slot i binds record r. */
  ghost predicate Binds(m: Mem, i: nat, r: Rec) {
    i < |m.hash| && i < |m.off| && m.hash[i] != EMPTY && m.off[i] in m.book && m.book[m.off[i]] == r
  }

  /** Every completed record is either retired or still in the index: the state between two
      operations of the writer. */
  ghost predicate Settled(m: Mem) {
    forall p | p in m.book && m.book[p].id !in m.retired :: exists i :: Binds(m, i, m.book[p])
  }

  lemma SameIdSameRecord(m: Mem, p: nat, p': nat)
    requires MemInv(m) && p in m.book && p' in m.book && m.book[p].id == m.book[p'].id
    ensures m.book[p] == m.book[p']
  {
  }

  // ------------------------------------------------------------------ whole runs

  function Run(m: Mem, t: seq<Event>): (m': Mem)
    ensures |m'.hash| == |m.hash| && |m'.off| == |m.off| && |m'.data| == |m.data|
  {
    if t == [] then m else Step(Run(m, t[..|t| - 1]), t[|t| - 1])
  }

  ghost predicate LegalRun(m: Mem, t: seq<Event>)
    requires |m.data| > 0
  {
    t == [] || (LegalRun(m, t[..|t| - 1]) && Legal(Run(m, t[..|t| - 1]), t[|t| - 1]))
  }

  lemma {:induction false} RunKeepsMemInv(m: Mem, t: seq<Event>)
    requires Boot(m) && LegalRun(m, t)
    ensures MemInv(Run(m, t))
  {
    if t != [] {
      RunKeepsMemInv(m, t[..|t| - 1]);
      StepKeepsMemInv(Run(m, t[..|t| - 1]), t[|t| - 1]);
    }
  }

  lemma RunExtends(m: Mem, t: seq<Event>, e: Event)
    requires |m.data| > 0 && LegalRun(m, t) && Legal(Run(m, t), e)
    ensures LegalRun(m, t + [e]) && Run(m, t + [e]) == Step(Run(m, t), e)
  {
    assert (t + [e])[..|t + [e]| - 1] == t;
  }
}
