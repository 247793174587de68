/** One submission ring in shared memory: the producer's push and the consumer's drain. Every store
    they make is a step of the machine in SubmitQueue. */
module SubmitRings {
  import opened Bytes
  import opened Wrapping
  import opened Submissions
  import opened SubmitItems
  import opened SubmitQueue

  lemma TailBeforeHead(s: Ring)
    requires RingInv(s)
    ensures 0 < |s.data| < TWO_32 && |s.data| % 8 == 0 && s.head % 8 == 0 && s.tail <= s.head <= s.tail + |s.data|
  {
    hide LaidOut;
    hide ConsumerInv;
    hide FlowInv;
    hide Followed;
  }

  lemma MayStore(s: Ring, q: nat, b: byte)
    requires RingInv(s) && s.producer.Writing? && s.head <= q < s.head + Total(NewItems(s.head, s.producer.r, |s.data|))
    ensures Enabled(s, StoreByte(q, b))
  {
    hide RingInv;
    hide NewItems;
    hide Total;
    TailBeforeHead(s);
  }

  lemma SpliceTwice(d: seq<byte>, a: nat, s: seq<byte>, t: seq<byte>)
    requires a + |s| + |t| <= |d|
    ensures Splice(Splice(d, a, s), a + |s|, t) == Splice(d, a, s + t)
  {
    assert d[..a] + s + d[a + |s|..] == Splice(d, a, s);
    assert Splice(d, a, s)[..a + |s|] == d[..a] + s;
    assert Splice(d, a, s)[a + |s| + |t|..] == d[a + |s| + |t|..];
  }

  /** A record of n bytes behind its filler: the addresses it takes. */
  lemma Placed(head: nat, n: nat, cap: nat, pad: nat)
    requires cap > 0 && cap % 8 == 0 && head % 8 == 0 && HEADER <= n && 2 * n <= cap
    requires pad == PadAt(head, n, cap)
    ensures pad % 8 == 0 && Phys(head + pad, cap) + n <= cap && GapAt(Phys(head + pad, cap), cap) == 0
    ensures pad > 0 ==> pad == cap - Phys(head, cap) && Phys(head + pad, cap) == 0
  {
    PhysAligned(head, cap);
    if pad > 0 {
      PhysAdd(head, pad, cap);
    }
  }

  /** The block of a push is laid out once the SKIP, if there is one, and the record are stored. */
  lemma Filled(head: nat, r: Submission, cap: nat, d0: seq<byte>, d: seq<byte>, pad: nat)
    requires |d0| == cap && 0 < cap < TWO_32 && cap % 8 == 0 && head % 8 == 0 && r.Fits() && r.op != OP_SKIP
    requires pad == PadAt(head, r.Size(), cap) && 2 * r.Size() <= cap && r.Size() + pad <= cap
    requires pad >= HEADER ==> d0[Phys(head, cap)..Phys(head, cap) + HEADER] == EncodeHeader(pad, OP_SKIP, 0, 0, 0, 0)
    requires Phys(head + pad, cap) + |r.Image()| <= cap && d == Splice(d0, Phys(head + pad, cap), r.Image())
    ensures LaidOut(d, head, NewItems(head, r, cap))
  {
    hide Phys;
    hide PadAt;
    hide Splice;
    hide EncodeHeader;
    hide Submission.Image;
    hide Submission.Fits;
    hide LaidOut;
    Placed(head, r.Size(), cap, pad);
    var off, at := Phys(head, cap), Phys(head + pad, cap);
    assert ItemAt(d, head + pad, Data(r));
    OneItem(d, head + pad, Data(r));
    if pad >= HEADER {
      SpliceElsewhere(d0, at, r.Image(), off, off + HEADER);
      assert ItemAt(d, head, Skip(pad));
      OneItem(d, head, Skip(pad));
    } else if pad > 0 {
      assert ItemAt(d, head, Gap(pad));
      OneItem(d, head, Gap(pad));
    } else {
      assert NewItems(head, r, cap) == [Data(r)];
      return;
    }
    LaidOutAppend(d, head, Filler(pad), [Data(r)]);
  }

  lemma OneItem(d: seq<byte>, pos: nat, it: Item)
    requires |d| > 0 && ItemAt(d, pos, it)
    ensures LaidOut(d, pos, [it]) && Total([it]) == Len(it)
  {
    hide ItemAt;
    hide Len;
    assert [it][1..] == [];
  }

  class SubmitRing {
    const bd: Bounds
    const data: array<byte>
    var head: nat
    var tail: nat
    // What the proof keeps: the state of the machine, and the run that led to it.
    ghost const start: Ring
    ghost var s: Ring
    ghost var run: seq<Step>

    constructor (cap: nat, bounds: Bounds)
      requires 0 < cap < TWO_32 && cap % 8 == 0
      ensures Valid() && fresh(data) && data.Length == cap && bd == bounds && head == tail == 0 && s.accepted == []
    {
      bd := bounds;
      var d := new byte[cap](_ => 0);
      data, head, tail := d, 0, 0;
      start, s, run := Unused(d[..]), Unused(d[..]), [];
    }

    ghost predicate Wired()
      reads this, data
    {
      && 0 < data.Length < TWO_32 && data.Length % 8 == 0
      && s.data == data[..] && s.head == head && s.tail == tail
      && start == Unused(start.data) && |start.data| == data.Length
      && LegalRun(start, bd, run) && Run(start, bd, run) == s && RingInv(s)
    }

    /** Between two operations: no push and no drain is under way. */
    ghost predicate Valid()
      reads this, data
    {
      Wired() && s.producer.Idle? && s.consumer.Resting?
    }

    lemma Sizes()
      requires Wired()
      ensures |s.data| == data.Length > 0 && data.Length < TWO_32 && s.data == data[..]
      ensures s.head == head && s.tail == tail && RingInv(s)
    {
    }

    ghost method Advance(a: Step)
      requires RingInv(s) && Enabled(s, a) && LegalRun(start, bd, run) && Run(start, bd, run) == s
      modifies this`s, this`run
      ensures s == Next(old(s), bd, a) && RingInv(s) && run == old(run) + [a]
      ensures LegalRun(start, bd, run) && Run(start, bd, run) == s
    {
      hide RingInv;
      hide Enabled;
      hide Next;
      RunExtends(start, bd, run, a);
      StepKeepsInv(s, bd, a);
      s, run := Next(s, bd, a), run + [a];
    }

    // ----------------------------------------------------------------------- producer

    method StoreByte(ghost q: nat, a: nat, b: byte)
      requires Wired() && Enabled(s, SubmitQueue.StoreByte(q, b)) && a == Phys(q, data.Length)
      modifies this`s, this`run, data
      ensures Wired() && s == old(s).(data := old(s).data[a := b])
    {
      hide LegalRun;
      hide Run;
      hide RingInv;
      Advance(SubmitQueue.StoreByte(q, b));
      data[a] := b;
      assert data[..] == s.data;
    }

    /** Copies bytes into the block of the push under way, from position q on. */
    method StoreBytes(ghost q: nat, a: nat, bytes: seq<byte>)
      requires Wired() && s.producer.Writing? && a + |bytes| <= data.Length
      requires (bytes != [] ==> a == Phys(q, data.Length))
      requires head <= q && q + |bytes| <= head + Total(NewItems(head, s.producer.r, data.Length))
      modifies this`s, this`run, data
      ensures Wired() && s == old(s).(data := Splice(old(s).data, a, bytes))
    {
      hide LegalRun;
      hide Run;
      hide RingInv;
      hide Splice;
      hide Phys;
      hide NewItems;
      hide Total;
      var k := 0;
      SpliceNothing(s.data, a);
      while k < |bytes|
        invariant 0 <= k <= |bytes|
        invariant Wired() && s == old(s).(data := Splice(old(s).data, a, bytes[..k]))
      {
        PhysAdd(q, k, data.Length);
        MayStore(s, q + k, bytes[k]);
        StoreByte(q + k, a + k, bytes[k]);
        SpliceNext(old(s).data, a, bytes, k);
        k := k + 1;
      }
      assert bytes[..k] == bytes;
    }

    /** Key and value, one behind the other. */
    method WriteBody(ghost q: nat, a: nat, key: seq<byte>, val: seq<byte>)
      requires Wired() && s.producer.Writing? && (key + val != [] ==> a == Phys(q, data.Length))
      requires a + |key| + |val| <= data.Length
      requires head <= q && q + |key| + |val| <= head + Total(NewItems(head, s.producer.r, data.Length))
      modifies this`s, this`run, data
      ensures Wired() && s == old(s).(data := Splice(old(s).data, a, key + val))
    {
      hide *;
      Sizes();
      StoreBytes(q, a, key);
      Sizes();
      if val != [] {
        PhysAdd(q, |key|, data.Length);
      }
      StoreBytes(q + |key|, a + |key|, val);
      SpliceTwice(old(s).data, a, key, val);
    }

    /** The header, and the body behind it. */
    method WriteRecord(ghost q: nat, a: nat, ghost r: Submission, header: seq<byte>, key: seq<byte>, val: seq<byte>)
      requires Wired() && s.producer.Writing? && s.producer.r == r && a == Phys(q, data.Length)
      requires header + (key + val) == r.Image() && |header| == HEADER && r.key == key && r.val == val
      requires head <= q && q + r.Size() <= head + Total(NewItems(head, r, data.Length)) && a + r.Size() <= data.Length
      modifies this`s, this`run, data
      ensures Wired() && s == old(s).(data := Splice(old(s).data, a, r.Image()))
    {
      hide *;
      Sizes();
      StoreBytes(q, a, header);
      Sizes();
      PhysAdd(q, HEADER, data.Length);
      WriteBody(q + HEADER, a + HEADER, key, val);
      SpliceTwice(old(s).data, a, header, key + val);
    }

    /** Stores everything between the head and the new head: the SKIP if one fits there, then the
        record, at the start of the buffer when it would straddle the end. */
    method FillBlock(ghost r: Submission, off: nat, pad: nat, header: seq<byte>, key: seq<byte>, val: seq<byte>)
      requires Wired() && s.producer.Writing? && s.producer.r == r && off == Phys(head, data.Length)
      requires header + (key + val) == r.Image() && |header| == HEADER && r.key == key && r.val == val
      requires r.Fits() && r.op != OP_SKIP && head % 8 == 0
      requires pad == PadAt(head, r.Size(), data.Length) && 2 * r.Size() <= data.Length && r.Size() + pad <= data.Length
      modifies this`s, this`run, data
      ensures Wired() && s == old(s).(data := s.data) && |s.data| == data.Length > 0
      ensures LaidOut(s.data, head, NewItems(head, r, data.Length))
    {
      hide Wired;
      hide Phys;
      hide NewItems;
      hide Total;
      hide Splice;
      hide PadAt;
      hide Submission.Image;
      hide Submission.Fits;
      hide LaidOut;
      hide EncodeHeader;
      Sizes();
      NewItemsSize(head, r, data.Length);
      Placed(head, r.Size(), data.Length, pad);
      if pad >= HEADER {
        StoreBytes(head, off, EncodeHeader(pad, OP_SKIP, 0, 0, 0, 0));
        Sizes();
      }
      ghost var d0 := s.data;
      WriteRecord(head + pad, if pad > 0 then 0 else off, r, header, key, val);
      Sizes();
      Filled(head, r, data.Length, d0, s.data, pad);
    }

    /** Publishes a submission at the first place for it. False when it is more than half the ring or there is no
        place between head and tail, and then nothing changed. */
    method Push(op: byte, flags: byte, ttlMs: nat, key: seq<byte>, val: seq<byte>) returns (ok: bool)
      requires Valid() && op != OP_SKIP && Submission(op, flags, ttlMs, key, val).Fits()
      modifies this`head, this`s, this`run, data
      ensures Valid()
      ensures old(tail) <= old(head) <= old(tail) + data.Length && data.Length > 0
      ensures var r := Submission(op, flags, ttlMs, key, val);
              && (ok <==> 2 * r.Size() <= data.Length &&
                          exists q: nat :: Placeable(q, old(head), old(tail), r.Size(), data.Length))
              && (ok ==>
                    && r.Size() <= head && Placeable(head - r.Size(), old(head), old(tail), r.Size(), data.Length)
                    && forall q: nat | Placeable(q, old(head), old(tail), r.Size(), data.Length) ::
                         head <= q + r.Size())
              && (ok ==> s.accepted == old(s.accepted) + [SubmitItems.Push(r, head)] && s.delivered == old(s.delivered))
      ensures !ok ==> s == old(s)
    {
      hide Wired;
      hide LegalRun;
      hide Run;
      hide RingInv;
      hide Phys;
      hide NewItems;
      hide Total;
      hide LaidOut;
      hide EncodeHeader;
      hide Submission.Fits;
      Sizes();
      TailBeforeHead(s);
      ghost var r := Submission(op, flags, ttlMs, key, val);
      var cap, need := data.Length, Align8(HEADER + |key| + |val|);
      AcceptsIffPlaceable(head, tail, need, cap);
      if need > cap / 2 {
        return false;
      }
      var off, pad := Phys(head, cap), 0;
      var remain := cap - off;
      if remain < HEADER || off + need > cap {
        pad := remain;
      }
      if cap - (head - tail) < need + pad {
        return false;
      }
      NewItemsSize(head, r, cap);
      Begin(r);
      Sizes();
      ghost var header := EncodeHeader(need, op, flags, |key|, |val|, ttlMs);
      assert header + (key + val) == header + key + val;
      FillBlock(r, off, pad, EncodeHeader(need, op, flags, |key|, |val|, ttlMs), key, val);
      Publish(head + pad + need, r);
      ok := true;
    }

    ghost method Begin(r: Submission)
      requires Wired() && Enabled(s, BeginPush(r))
      modifies this`s, this`run
      ensures Wired() && s == old(s).(producer := Writing(r, tail))
    {
      hide LegalRun;
      hide Run;
      hide RingInv;
      Advance(BeginPush(r));
    }

    /** The one store that publishes the record. */
    method Publish(h: nat, ghost r: Submission)
      requires Wired() && s.producer.Writing? && s.producer.r == r && |s.data| == data.Length > 0
      requires LaidOut(s.data, head, NewItems(head, r, data.Length))
      requires h == head + Total(NewItems(head, r, data.Length))
      modifies this`head, this`s, this`run
      ensures Wired() && s.producer.Idle? && s.consumer == old(s).consumer && s.delivered == old(s.delivered)
      ensures head == h && s.accepted == old(s.accepted) + [SubmitItems.Push(r, h)]
    {
      hide LegalRun;
      hide Run;
      hide RingInv;
      hide LaidOut;
      hide NewItems;
      hide Total;
      TailBeforeHead(s);
      Advance(PublishHead);
      head := h;
    }

    // ----------------------------------------------------------------------- consumer

    /** The consumer loads the head and starts to walk. */
    method LoadHead() returns (h: nat)
      requires Valid()
      modifies this`s, this`run
      ensures Wired() && h == head && s == old(s).(consumer := Walking(tail, h), seen := |s.items|)
    {
      hide LegalRun;
      hide Run;
      hide RingInv;
      TailBeforeHead(s);
      Advance(SubmitQueue.LoadHead);
      h := head;
    }

    /** One turn of the drain loop: reads what lies at pos and goes past it, unless the record does
        not pass validation. */
    method TakeItem(pos: nat, seenHead: nat) returns (t: Taken)
      requires Wired() && s.consumer == Walking(pos, seenHead) && pos < seenHead
      modifies this`s, this`run
      ensures Wired() && |old(s).data| > 0 && old(s).done < |old(s).items|
      ensures t == Take(old(s).data, bd, pos, seenHead)
      ensures t == if Refused(old(s).items[old(s).done], bd) then Stuck
                   else Taken(Len(old(s).items[old(s).done]), QueuedItem(pos, old(s).items[old(s).done]))
      ensures s == if t.Stuck? then old(s).(consumer := Walking(pos, pos), seen := old(s).done)
                   else old(s).(consumer := Walking(pos + t.len, seenHead), done := old(s).done + 1,
                                delivered := old(s).delivered + t.applied)
    {
      hide LegalRun;
      hide Run;
      hide RingInv;
      hide Phys;
      hide DecodeHeader;
      hide Validate;
      hide Refused;
      hide Len;
      TailBeforeHead(s);
      TakeStep(s, bd);
      var cap, off := data.Length, Phys(pos, data.Length);
      var gap := GapAt(off, cap);
      if gap != 0 {
        t := Taken(gap, []);
      } else {
        var h := DecodeHeader(data[off..off + HEADER]);
        var avail := seenHead - pos;
        if avail > cap - off {
          avail := cap - off;
        }
        if !Validate(h, avail, bd.maxKey, bd.maxVal) {
          t := Stuck;
        } else if h.op == OP_SKIP {
          t := Taken(h.len, []);
        } else {
          PayloadInside(h, avail);
          var k := off + HEADER;
          var v := k + h.keyLen;
          var r := Submission(h.op, h.flags, h.ttlMs, data[k..v], data[v..v + h.valLen]);
          t := Taken(h.len, [SubmitItems.Push(r, pos + h.len)]);
        }
      }
      Advance(SubmitQueue.TakeItem);
    }

    lemma PayloadInside(h: Header, avail: nat)
      requires Validate(h, avail, bd.maxKey, bd.maxVal) && h.op != OP_SKIP
      ensures HEADER + h.keyLen + h.valLen <= avail
    {
    }

    /** The consumer publishes how far it got. */
    method StoreTail(pos: nat)
      requires Wired() && s.consumer.Walking? && s.consumer.pos == pos
      modifies this`tail, this`s, this`run
      ensures Wired() && s.consumer.Resting? && tail == pos && old(s).done <= |old(s).items|
      ensures s == old(s).(tail := pos, consumer := Resting, items := old(s).items[old(s).done..], done := 0, seen := 0)
    {
      hide LegalRun;
      hide Run;
      hide LaidOut;
      hide CountersInv;
      hide FlowInv;
      hide Total;
      TailBeforeHead(s);
      Advance(SubmitQueue.StoreTail);
      tail := pos;
    }
  }

  /** A delete of the empty key is pushed without complaint and wedges the ring: whatever happens
      afterwards, nothing is ever applied from it. */
  method EmptyKeyWedges(cap: nat, bounds: Bounds) returns (ring: SubmitRing)
    requires 64 <= cap < TWO_32 && cap % 8 == 0
    ensures ring.Valid() && ring.bd == bounds
    ensures |ring.s.accepted| == 1 && ring.s.accepted[0].r == Submission(OP_DEL, 0, 0, [], [])
    ensures forall run | LegalRun(ring.s, bounds, run) :: Run(ring.s, bounds, run).delivered == []
  {
    hide SubmitRing.Wired;
    hide RingInv;
    hide LegalRun;
    hide Run;
    hide Phys;
    ring := new SubmitRing(cap, bounds);
    ring.Sizes();
    AppliedInOrder(ring.s);
    EmptyRingAccepts(0, HEADER, cap);
    var ok := ring.Push(OP_DEL, 0, 0, [], []);
    ring.Sizes();
    forall run | LegalRun(ring.s, bounds, run)
      ensures Run(ring.s, bounds, run).delivered == []
    {
      InadmissibleWedges(ring.s, bounds, run, 0);
    }
  }
}
