/** The submission ring as a machine of single steps: one producer, one consumer, bytes in between.

    The producer works with a tail it loaded earlier and the consumer with a head it loaded earlier.
    The producer may store the bytes of its block in any order, and it may vanish at any moment: it
    crashed, or the ring was released and claimed again. What it left unpublished is then simply
    overwritten by the next producer. */
module SubmitQueue {
  import opened Bytes
  import opened Wrapping
  import opened Submissions
  import opened SubmitItems

  /** The producer is idle, or fills the block of its record with the tail it saw. */
  datatype Producer = Idle | Writing(r: Submission, seenTail: nat)

  /** The consumer is at rest, or walks from its local tail towards the head it saw. */
  datatype Consumer = Resting | Walking(pos: nat, seenHead: nat)

  /** The shared bytes, the two counters and the two local states. The rest is what the proof keeps:
      the items between tail and head, how many of them the consumer has passed and how many lie
      below the head it saw, and the submissions published and applied so far. */
  datatype Ring = Ring(data: seq<byte>, head: nat, tail: nat, producer: Producer, consumer: Consumer,
                       items: seq<Item>, done: nat, seen: nat, accepted: seq<Push>, delivered: seq<Push>)
  {
    /** Where the consumer is. */
    function At(): nat {
      if consumer.Walking? then consumer.pos else tail
    }
  }

  datatype Bounds = Bounds(maxKey: nat, maxVal: nat)

  datatype Step =
    | BeginPush(r: Submission)
    | StoreByte(q: nat, b: byte)
    | PublishHead
    | Vanish
    | LoadHead
    | TakeItem
    | StoreTail

  /** The filler before a record of n bytes at this head: a gap, a SKIP, or nothing. */
  function PadAt(head: nat, n: nat, cap: nat): nat
    requires cap > 0
  {
    var off := Phys(head, cap);
    if cap - off < HEADER || off + n > cap then cap - off else 0
  }

  function Filler(pad: nat): seq<Item> {
    if pad == 0 then [] else if pad >= HEADER then [Skip(pad)] else [Gap(pad)]
  }

  /** Does the ring take a record of n bytes, as seen with this tail? */
  predicate Accepts(head: nat, tail: nat, n: nat, cap: nat)
    requires cap > 0 && tail <= head <= tail + cap
  {
    2 * n <= cap && n + PadAt(head, n, cap) <= cap - (head - tail)
  }

  /** A record of n bytes may lie at q: behind the head, in one piece, and within one lap of the tail. */
  predicate Placeable(q: nat, head: nat, tail: nat, n: nat, cap: nat)
    requires cap > 0
  {
    head <= q && Phys(q, cap) + n <= cap && q + n <= tail + cap
  }

  /** A RECORD IS TAKEN EXACTLY WHEN THERE IS A PLACE FOR IT, and then it goes to the first one. */
  lemma AcceptsIffPlaceable(head: nat, tail: nat, n: nat, cap: nat)
    requires cap > 0 && HEADER <= n && tail <= head <= tail + cap
    ensures Accepts(head, tail, n, cap) <==> 2 * n <= cap && exists q: nat :: Placeable(q, head, tail, n, cap)
    ensures Accepts(head, tail, n, cap) ==> Placeable(head + PadAt(head, n, cap), head, tail, n, cap)
    ensures forall q: nat | 2 * n <= cap && Placeable(q, head, tail, n, cap) :: head + PadAt(head, n, cap) <= q
  {
    var off, pad := Phys(head, cap), PadAt(head, n, cap);
    PhysAdd(head, pad, cap);
    forall q: nat | 2 * n <= cap && Placeable(q, head, tail, n, cap)
      ensures head + pad <= q
    {
      if q < head + pad {
        PhysAdd(head, q - head, cap);
      }
    }
    if Accepts(head, tail, n, cap) {
      assert Placeable(head + pad, head, tail, n, cap);
    }
  }

  /** Everything a push adds. */
  function NewItems(head: nat, r: Submission, cap: nat): seq<Item>
    requires cap > 0
  {
    Filler(PadAt(head, r.Size(), cap)) + [Data(r)]
  }

  lemma NewItemsSize(head: nat, r: Submission, cap: nat)
    requires cap > 0
    ensures Total(NewItems(head, r, cap)) == PadAt(head, r.Size(), cap) + r.Size()
    ensures Queued(head, NewItems(head, r, cap)) == [Push(r, head + Total(NewItems(head, r, cap)))]
  {
    hide PadAt;
    var pad := PadAt(head, r.Size(), cap);
    QueuedAppend(head, Filler(pad), [Data(r)]);
    assert [Data(r)][1..] == [];
    if pad > 0 {
      assert Filler(pad)[1..] == [];
    }
  }

  /** An empty ring takes every record of at most half its size, wherever its head is. */
  lemma EmptyRingAccepts(head: nat, n: nat, cap: nat)
    requires cap > 0 && HEADER <= n && 2 * n <= cap
    ensures Accepts(head, head, n, cap) && exists q: nat :: Placeable(q, head, head, n, cap)
  {
    AcceptsIffPlaceable(head, head, n, cap);
  }

  // -------------------------------------------------------------------------- the consumer

  /** What one turn of the drain loop makes of the bytes at pos. */
  datatype Taken = Taken(len: nat, applied: seq<Push>) | Stuck

  /** The bytes that may belong to the record at pos. */
  function Avail(cap: nat, pos: nat, seenHead: nat): nat
    requires cap > 0 && pos <= seenHead
  {
    var room := cap - Phys(pos, cap);
    if seenHead - pos > room then room else seenHead - pos
  }

  function Take(data: seq<byte>, bd: Bounds, pos: nat, seenHead: nat): (t: Taken)
    requires |data| > 0 && pos < seenHead
  {
    var off := Phys(pos, |data|);
    if GapAt(off, |data|) != 0 then Taken(GapAt(off, |data|), [])
    else
      var h := DecodeHeader(data[off..off + HEADER]);
      if !Validate(h, Avail(|data|, pos, seenHead), bd.maxKey, bd.maxVal) then Stuck
      else if h.op == OP_SKIP then Taken(h.len, [])
      else
        var k := off + HEADER;
        var r := Submission(h.op, h.flags, h.ttlMs, data[k..k + h.keyLen], data[k + h.keyLen..k + h.keyLen + h.valLen]);
        Taken(h.len, [Push(r, pos + h.len)])
  }

  /** A record that the consumer is going to refuse. */
  predicate Refused(it: Item, bd: Bounds) {
    it.Data? && !Admissible(it.r, bd.maxKey, bd.maxVal)
  }

  /** The consumer reads back exactly the item that was put there, and refuses it only if the
      submission was not admissible. */
  lemma TakeReadsItem(data: seq<byte>, bd: Bounds, pos: nat, seenHead: nat, it: Item)
    requires |data| > 0 && ItemAt(data, pos, it) && pos + Len(it) <= seenHead
    ensures Take(data, bd, pos, seenHead) == if Refused(it, bd) then Stuck else Taken(Len(it), QueuedItem(pos, it))
  {
    hide Phys;
    hide EncodeHeader;
    hide DecodeHeader;
    hide Validate;
    hide Admissible;
    if it.Skip? {
      SkipValidates(it.len, Avail(|data|, pos, seenHead), bd.maxKey, bd.maxVal);
      HeaderRoundTrip(it.len, OP_SKIP, 0, 0, 0, 0);
    } else if it.Data? {
      TakeReadsRecord(data, bd, pos, seenHead, it.r);
    }
  }

  lemma TakeReadsRecord(data: seq<byte>, bd: Bounds, pos: nat, seenHead: nat, r: Submission)
    requires |data| > 0 && ItemAt(data, pos, Data(r)) && pos + r.Size() <= seenHead
    ensures Take(data, bd, pos, seenHead) ==
            if Admissible(r, bd.maxKey, bd.maxVal) then Taken(r.Size(), [Push(r, pos + r.Size())]) else Stuck
  {
    hide Submission.Image;
    hide Phys;
    hide EncodeHeader;
    hide DecodeHeader;
    hide Validate;
    hide Admissible;
    var off, n := Phys(pos, |data|), HEADER + |r.key| + |r.val|;
    SubSlice(data, off, r.Image(), 0, HEADER);
    SubSlice(data, off, r.Image(), HEADER, HEADER + |r.key|);
    SubSlice(data, off, r.Image(), HEADER + |r.key|, n);
    HeaderRoundTrip(r.Size(), r.op, r.flags, |r.key|, |r.val|, r.ttlMs);
    PushedValidatesIffAdmissible(r, Avail(|data|, pos, seenHead), bd.maxKey, bd.maxVal);
  }

  // -------------------------------------------------------------------------- the machine

  ghost predicate Enabled(s: Ring, a: Step) {
    |s.data| > 0 && s.tail <= s.head <= s.tail + |s.data| &&
    match a
    case BeginPush(r) =>
      s.producer.Idle? && r.Fits() && r.op != OP_SKIP && Accepts(s.head, s.tail, r.Size(), |s.data|)
    case StoreByte(q, _) =>
      s.producer.Writing? && s.head <= q < s.head + Total(NewItems(s.head, s.producer.r, |s.data|))
    case PublishHead =>
      s.producer.Writing? && LaidOut(s.data, s.head, NewItems(s.head, s.producer.r, |s.data|))
    case Vanish => true
    case LoadHead => s.consumer.Resting?
    case TakeItem => s.consumer.Walking? && s.consumer.pos < s.consumer.seenHead
    case StoreTail => s.consumer.Walking? && s.done <= |s.items|
  }

  ghost function Next(s: Ring, bd: Bounds, a: Step): (s': Ring)
    requires Enabled(s, a)
    ensures |s'.data| == |s.data|
  {
    match a
    case BeginPush(r) => s.(producer := Writing(r, s.tail))
    case StoreByte(q, b) => s.(data := s.data[Phys(q, |s.data|) := b])
    case PublishHead =>
      var ni := NewItems(s.head, s.producer.r, |s.data|);
      s.(head := s.head + Total(ni), producer := Idle,
         items := s.items + ni, accepted := s.accepted + [Push(s.producer.r, s.head + Total(ni))])
    case Vanish => s.(producer := Idle)
    case LoadHead => s.(consumer := Walking(s.tail, s.head), seen := |s.items|)
    case TakeItem =>
      (match Take(s.data, bd, s.consumer.pos, s.consumer.seenHead)
       case Stuck => s.(consumer := Walking(s.consumer.pos, s.consumer.pos), seen := s.done)
       case Taken(len, applied) =>
         s.(consumer := Walking(s.consumer.pos + len, s.consumer.seenHead),
            done := s.done + 1, delivered := s.delivered + applied))
    case StoreTail =>
      s.(tail := s.consumer.pos, consumer := Resting, items := s.items[s.done..], done := 0, seen := 0)
  }

  /** A step of the consumer. */
  predicate Consumes(a: Step) {
    a.LoadHead? || a.TakeItem? || a.StoreTail?
  }

  /** An unused ring. */
  function Unused(data: seq<byte>): Ring {
    Ring(data, 0, 0, Idle, Resting, [], 0, 0, [], [])
  }

  ghost predicate LegalRun(s: Ring, bd: Bounds, run: seq<Step>)
    decreases |run|
  {
    run == [] || (Enabled(s, run[0]) && LegalRun(Next(s, bd, run[0]), bd, run[1..]))
  }

  ghost function Run(s: Ring, bd: Bounds, run: seq<Step>): Ring
    requires LegalRun(s, bd, run)
    decreases |run|
  {
    if run == [] then s else Run(Next(s, bd, run[0]), bd, run[1..])
  }

  lemma {:induction false} RunExtends(s: Ring, bd: Bounds, run: seq<Step>, a: Step)
    requires LegalRun(s, bd, run) && Enabled(Run(s, bd, run), a)
    ensures LegalRun(s, bd, run + [a]) && Run(s, bd, run + [a]) == Next(Run(s, bd, run), bd, a)
    decreases |run|
  {
    hide Enabled;
    hide Next;
    if run == [] {
      assert run + [a] == [a] && [a][1..] == [];
      assert LegalRun(Next(s, bd, a), bd, []);
    } else {
      assert (run + [a])[1..] == run[1..] + [a];
      RunExtends(Next(s, bd, run[0]), bd, run[1..], a);
    }
  }

  // ------------------------------------------------------------------------- the invariant

  ghost predicate CountersInv(s: Ring) {
    && |s.data| > 0 && |s.data| % 8 == 0 && |s.data| < TWO_32
    && s.head == s.tail + Total(s.items) && Total(s.items) <= |s.data| && s.head % 8 == 0
    && (s.producer.Writing? ==>
        && s.producer.seenTail <= s.tail <= s.head <= s.producer.seenTail + |s.data|
        && s.producer.r.Fits() && s.producer.r.op != OP_SKIP
        && Accepts(s.head, s.producer.seenTail, s.producer.r.Size(), |s.data|))
  }

  ghost predicate ConsumerInv(s: Ring) {
    && s.done <= |s.items| && s.seen <= |s.items|
    && s.At() == s.tail + Total(s.items[..s.done])
    && (s.consumer.Walking? ==> s.done <= s.seen && s.consumer.seenHead == s.tail + Total(s.items[..s.seen]))
    && (s.consumer.Resting? ==> s.done == 0)
  }

  /** Whatever was published has been applied or is still in the ring behind the consumer, in order. */
  ghost predicate FlowInv(s: Ring) {
    && s.done <= |s.items|
    && s.accepted == s.delivered + Queued(s.At(), s.items[s.done..])
    && forall x | 0 <= x < |s.delivered| :: s.delivered[x].end <= s.At()
  }

  /** A gap or a SKIP is always followed by a submission, since both are published at once. */
  predicate Followed(items: seq<Item>) {
    forall x | 0 <= x < |items| && !items[x].Data? :: x + 1 < |items| && items[x + 1].Data?
  }

  ghost predicate RingInv(s: Ring) {
    && CountersInv(s) && LaidOut(s.data, s.tail, s.items) && ConsumerInv(s) && FlowInv(s) && Followed(s.items)
  }

  lemma UnusedIsValid(data: seq<byte>)
    requires 0 < |data| < TWO_32 && |data| % 8 == 0
    ensures RingInv(Unused(data))
  {
  }

  /** The block a producer fills ends within one lap of the tail. */
  lemma BlockWithinLap(s: Ring)
    requires CountersInv(s) && s.producer.Writing?
    ensures s.head + Total(NewItems(s.head, s.producer.r, |s.data|)) <= s.tail + |s.data|
    ensures Total(NewItems(s.head, s.producer.r, |s.data|)) % 8 == 0
  {
    hide PadAt;
    NewItemsSize(s.head, s.producer.r, |s.data|);
    PadAligned(s.head, s.producer.r.Size(), |s.data|);
  }

  lemma PadAligned(head: nat, n: nat, cap: nat)
    requires cap > 0 && cap % 8 == 0 && head % 8 == 0
    ensures PadAt(head, n, cap) % 8 == 0
  {
    PhysAligned(head, cap);
  }

  lemma StoreByteKeepsInv(s: Ring, bd: Bounds, q: nat, b: byte)
    requires RingInv(s) && Enabled(s, StoreByte(q, b))
    ensures RingInv(Next(s, bd, StoreByte(q, b)))
  {
    hide Followed;
    hide NewItems;
    hide LaidOut;
    hide Accepts;
    hide Queued;
    BlockWithinLap(s);
    LaidOutElsewhere(s.data, Next(s, bd, StoreByte(q, b)).data, s.tail, s.items, q);
  }

  lemma PublishKeepsInv(s: Ring, bd: Bounds)
    requires RingInv(s) && Enabled(s, PublishHead)
    ensures RingInv(Next(s, bd, PublishHead))
  {
    hide Followed;
    hide NewItems;
    hide LaidOut;
    hide Accepts;
    hide Queued;
    hide Total;
    var ni := NewItems(s.head, s.producer.r, |s.data|);
    var s' := Next(s, bd, PublishHead);
    BlockWithinLap(s);
    NewItemsSize(s.head, s.producer.r, |s.data|);
    StillFollowed(s.items, s.head, s.producer.r, |s.data|);
    LaidOutAppend(s.data, s.tail, s.items, ni);
    QueuedAppend(s.tail, s.items, ni);
    assert s'.items[..s.done] == s.items[..s.done];
    assert s'.items[..s.seen] == s.items[..s.seen];
    assert s'.items[s.done..] == s.items[s.done..] + ni;
    QueuedAppend(s.At(), s.items[s.done..], ni);
    LaidOutFrom(s.data, s.tail, s.items, s.done);
  }

  lemma StillFollowed(items: seq<Item>, head: nat, r: Submission, cap: nat)
    requires cap > 0 && Followed(items)
    ensures Followed(items + NewItems(head, r, cap))
  {
    hide PadAt;
  }

  lemma LoadHeadKeepsInv(s: Ring, bd: Bounds)
    requires RingInv(s) && Enabled(s, LoadHead)
    ensures RingInv(Next(s, bd, LoadHead))
  {
    hide Followed;
    hide NewItems;
    hide LaidOut;
    hide Accepts;
    hide Queued;
    hide Total;
    assert s.items[..|s.items|] == s.items;
  }

  /** The item the consumer is looking at. */
  lemma ItemAhead(s: Ring)
    requires RingInv(s) && s.consumer.Walking? && s.consumer.pos < s.consumer.seenHead
    ensures s.done < s.seen && ItemAt(s.data, s.consumer.pos, s.items[s.done])
    ensures s.consumer.pos + Len(s.items[s.done]) == s.tail + Total(s.items[..s.done + 1]) <= s.consumer.seenHead
  {
    hide ItemAt;
    hide Total;
    hide Len;
    hide Queued;
    LaidOutFrom(s.data, s.tail, s.items, s.done);
    OneMore(s.tail, s.items, s.done);
    MoreItemsMoreBytes(s.items, s.done + 1, s.seen);
  }

  /** The consumer goes past whatever was published, except a submission that is not admissible. */
  lemma TakeStep(s: Ring, bd: Bounds)
    requires RingInv(s) && Enabled(s, TakeItem)
    ensures s.done < |s.items|
    ensures Take(s.data, bd, s.consumer.pos, s.consumer.seenHead) ==
            var it := s.items[s.done];
            if Refused(it, bd) then Stuck else Taken(Len(it), QueuedItem(s.consumer.pos, it))
  {
    hide ItemAt;
    hide Take;
    hide Refused;
    hide Len;
    hide QueuedItem;
    hide LaidOut;
    hide Total;
    ItemAhead(s);
    TakeReadsItem(s.data, bd, s.consumer.pos, s.consumer.seenHead, s.items[s.done]);
  }

  lemma TakeKeepsInv(s: Ring, bd: Bounds)
    requires RingInv(s) && Enabled(s, TakeItem)
    ensures RingInv(Next(s, bd, TakeItem))
  {
    hide Followed;
    hide NewItems;
    hide LaidOut;
    hide Accepts;
    hide Queued;
    hide Total;
    hide Len;
    hide Take;
    hide Refused;
    hide ItemAt;
    ItemAhead(s);
    TakeStep(s, bd);
    OneMore(s.At(), s.items, s.done);
  }

  lemma StoreTailKeepsInv(s: Ring, bd: Bounds)
    requires RingInv(s) && Enabled(s, StoreTail)
    ensures RingInv(Next(s, bd, StoreTail))
  {
    hide LaidOut;
    hide Queued;
    hide PadAt;
    hide Len;
    LaidOutFrom(s.data, s.tail, s.items, s.done);
    var rest := s.items[s.done..];
    assert rest[..0] == [] && rest[0..] == rest;
  }

  lemma StepKeepsInv(s: Ring, bd: Bounds, a: Step)
    requires RingInv(s) && Enabled(s, a)
    ensures RingInv(Next(s, bd, a))
  {
    hide LaidOut;
    hide Queued;
    hide Total;
    hide PadAt;
    match a
    case StoreByte(q, b) => StoreByteKeepsInv(s, bd, q, b);
    case PublishHead => PublishKeepsInv(s, bd);
    case LoadHead => LoadHeadKeepsInv(s, bd);
    case TakeItem => TakeKeepsInv(s, bd);
    case StoreTail => StoreTailKeepsInv(s, bd);
    case _ =>
  }

  lemma {:induction false} RunKeepsInv(s: Ring, bd: Bounds, run: seq<Step>)
    requires RingInv(s) && LegalRun(s, bd, run)
    ensures RingInv(Run(s, bd, run))
    decreases |run|
  {
    hide RingInv;
    hide Enabled;
    hide Next;
    if run != [] {
      StepKeepsInv(s, bd, run[0]);
      RunKeepsInv(Next(s, bd, run[0]), bd, run[1..]);
    }
  }

  // ---------------------------------------------------------------------------- theorems

  /** In every interleaving the applied submissions are the published ones, each once, in order and
      byte for byte, up to the ones that are still in the ring; and when the ring is empty they are
      all of them. */
  lemma FifoDelivery(data: seq<byte>, bd: Bounds, run: seq<Step>)
    requires 0 < |data| < TWO_32 && |data| % 8 == 0 && LegalRun(Unused(data), bd, run)
    ensures var s := Run(Unused(data), bd, run);
            && s.delivered <= s.accepted
            && (s.consumer.Resting? && s.tail == s.head ==> s.delivered == s.accepted)
  {
    hide LegalRun;
    hide Run;
    hide LaidOut;
    hide CountersInv;
    hide Len;
    UnusedIsValid(data);
    RunKeepsInv(Unused(data), bd, run);
    var s := Run(Unused(data), bd, run);
    if s.consumer.Resting? && s.tail == s.head {
      NothingBetween(s);
    }
  }

  lemma NothingBetween(s: Ring)
    requires CountersInv(s) && s.tail == s.head
    ensures s.items == []
  {
  }

  /** Drain acknowledgement: once the published tail has passed the end of a record, the submission
      has been applied; and one that was applied lies below the consumer. */
  lemma PassedMeansApplied(data: seq<byte>, bd: Bounds, run: seq<Step>, x: nat)
    requires 0 < |data| < TWO_32 && |data| % 8 == 0 && LegalRun(Unused(data), bd, run)
    requires x < |Run(Unused(data), bd, run).accepted|
    ensures var s := Run(Unused(data), bd, run);
            && (s.accepted[x].end <= s.tail ==> x < |s.delivered|)
            && (s.accepted[x].end <= s.At() <==> x < |s.delivered|)
  {
    hide LegalRun;
    hide Run;
    hide LaidOut;
    hide Len;
    hide CountersInv;
    hide Queued;
    hide Total;
    UnusedIsValid(data);
    RunKeepsInv(Unused(data), bd, run);
    var s := Run(Unused(data), bd, run);
    QueuedEndLater(s.At(), s.items[s.done..]);
    if x >= |s.delivered| {
      assert s.accepted[x] == Queued(s.At(), s.items[s.done..])[x - |s.delivered|];
    }
  }

  /** A ring whose next record is going to be refused. */
  predicate Blocked(s: Ring, bd: Bounds) {
    s.done < |s.items| && Refused(s.items[s.done], bd)
  }

  /** As long as the next submission to apply is admissible, the consumer does not stop. */
  lemma NeverStuck(data: seq<byte>, bd: Bounds, run: seq<Step>)
    requires 0 < |data| < TWO_32 && |data| % 8 == 0 && LegalRun(Unused(data), bd, run)
    requires Enabled(Run(Unused(data), bd, run), TakeItem)
    requires var s := Run(Unused(data), bd, run);
             |s.delivered| < |s.accepted| ==> Admissible(s.accepted[|s.delivered|].r, bd.maxKey, bd.maxVal)
    ensures var s := Run(Unused(data), bd, run);
            Take(s.data, bd, s.consumer.pos, s.consumer.seenHead).Taken?
  {
    hide LegalRun;
    hide Run;
    hide RingInv;
    hide Take;
    hide Admissible;
    UnusedIsValid(data);
    RunKeepsInv(Unused(data), bd, run);
    NextTaken(Run(Unused(data), bd, run), bd);
  }

  lemma NextTaken(s: Ring, bd: Bounds)
    requires RingInv(s) && Enabled(s, TakeItem)
    requires |s.delivered| < |s.accepted| ==> Admissible(s.accepted[|s.delivered|].r, bd.maxKey, bd.maxVal)
    ensures s.done < |s.items|
    ensures Take(s.data, bd, s.consumer.pos, s.consumer.seenHead) ==
            Taken(Len(s.items[s.done]), QueuedItem(s.consumer.pos, s.items[s.done]))
  {
    hide LaidOut;
    hide Len;
    hide CountersInv;
    hide Take;
    hide Total;
    hide Admissible;
    TakeStep(s, bd);
    if Refused(s.items[s.done], bd) {
      NextIsAccepted(s);
    }
  }

  lemma NextIsAccepted(s: Ring)
    requires FlowInv(s) && s.done < |s.items| && s.items[s.done].Data?
    ensures |s.delivered| < |s.accepted| && s.accepted[|s.delivered|].r == s.items[s.done].r
  {
    hide Len;
    assert s.items[s.done..][0] == s.items[s.done];
  }

  /** A submission that is not admissible wedges the ring: nothing is ever applied again, and the
      tail stays at or before it, whatever producer and consumer do. */
  lemma {:induction false} BlockedForever(s: Ring, bd: Bounds, run: seq<Step>)
    requires RingInv(s) && Blocked(s, bd) && LegalRun(s, bd, run)
    ensures var s' := Run(s, bd, run);
            Blocked(s', bd) && s'.delivered == s.delivered && s'.tail <= s'.At() == s.At()
    decreases |run|
  {
    hide RingInv;
    hide Enabled;
    hide Next;
    hide Refused;
    if run == [] {
      BlockedTail(s);
    } else {
      BlockedStep(s, bd, run[0]);
      StepKeepsInv(s, bd, run[0]);
      BlockedForever(Next(s, bd, run[0]), bd, run[1..]);
    }
  }

  lemma BlockedTail(s: Ring)
    requires RingInv(s)
    ensures s.tail <= s.At()
  {
    hide LaidOut;
    hide FlowInv;
    hide CountersInv;
  }

  lemma BlockedStep(s: Ring, bd: Bounds, a: Step)
    requires RingInv(s) && Blocked(s, bd) && Enabled(s, a)
    ensures var s' := Next(s, bd, a);
            Blocked(s', bd) && s'.delivered == s.delivered && s'.At() == s.At()
  {
    hide LaidOut;
    hide FlowInv;
    hide CountersInv;
    hide Take;
    hide Refused;
    hide Total;
    hide NewItems;
    hide Accepts;
    if a.TakeItem? {
      TakeStep(s, bd);
    }
  }

  // ------------------------------------------------------------ which submissions get through

  /** Everything applied so far was admissible. */
  ghost predicate AppliedAdmissible(s: Ring, bd: Bounds) {
    forall x | 0 <= x < |s.delivered| :: Admissible(s.delivered[x].r, bd.maxKey, bd.maxVal)
  }

  lemma StepAppliesAdmissible(s: Ring, bd: Bounds, a: Step)
    requires RingInv(s) && AppliedAdmissible(s, bd) && Enabled(s, a)
    ensures AppliedAdmissible(Next(s, bd, a), bd) && s.accepted <= Next(s, bd, a).accepted
  {
    hide LaidOut;
    hide Len;
    hide RingInv;
    hide Take;
    hide Total;
    hide Admissible;
    hide NewItems;
    hide Accepts;
    if a.TakeItem? {
      TakeStep(s, bd);
    }
  }

  /** WEDGED. However far back in the queue it is, a submission that is not admissible is never
      applied, and neither is anything behind it, whatever producers and consumer do. */
  lemma {:induction false} InadmissibleWedges(s: Ring, bd: Bounds, run: seq<Step>, x: nat)
    requires RingInv(s) && AppliedAdmissible(s, bd) && LegalRun(s, bd, run)
    requires x < |s.accepted| && !Admissible(s.accepted[x].r, bd.maxKey, bd.maxVal)
    ensures |Run(s, bd, run).delivered| <= x
    decreases |run|
  {
    hide RingInv;
    hide Enabled;
    hide Next;
    hide Admissible;
    if run == [] {
      AppliedInOrder(s);
    } else {
      StepAppliesAdmissible(s, bd, run[0]);
      StepKeepsInv(s, bd, run[0]);
      InadmissibleWedges(Next(s, bd, run[0]), bd, run[1..], x);
    }
  }

  lemma AppliedInOrder(s: Ring)
    requires RingInv(s)
    ensures s.delivered <= s.accepted
  {
    hide LaidOut;
    hide CountersInv;
    hide ConsumerInv;
    hide Queued;
  }

  /** Two runs, one after the other. */
  lemma {:induction false} RunsJoin(s: Ring, bd: Bounds, a: seq<Step>, b: seq<Step>)
    requires LegalRun(s, bd, a) && LegalRun(Run(s, bd, a), bd, b)
    ensures LegalRun(s, bd, a + b) && Run(s, bd, a + b) == Run(Run(s, bd, a), bd, b)
    decreases |a|
  {
    hide Enabled;
    hide Next;
    if a == [] {
      assert a + b == b;
    } else {
      assert (a + b)[1..] == a[1..] + b;
      RunsJoin(Next(s, bd, a[0]), bd, a[1..], b);
    }
  }

  /** A consumer that has taken everything below the head it saw, or that stopped, starts again. */
  lemma StartAgain(s: Ring, bd: Bounds) returns (run: seq<Step>)
    requires RingInv(s)
    ensures LegalRun(s, bd, run) && RingInv(Run(s, bd, run))
    ensures var t := Run(s, bd, run);
            && t.consumer.Walking? && t.consumer.seenHead == t.head
            && t.delivered == s.delivered && t.accepted == s.accepted
    ensures forall a | a in run :: Consumes(a)
  {
    hide LaidOut;
    hide Queued;
    hide Len;
    hide Total;
    hide Accepts;
    hide NewItems;
    hide FlowInv;
    hide RingInv;
    RestingBounds(s);
    if s.consumer.Walking? {
      StoreTailKeepsInv(s, bd);
      var t := Next(s, bd, StoreTail);
      RestingBounds(t);
      LoadHeadKeepsInv(t, bd);
      run := [StoreTail, LoadHead];
      assert run[1..] == [LoadHead] && [LoadHead][1..] == [];
      assert LegalRun(Next(t, bd, LoadHead), bd, []);
      assert LegalRun(t, bd, [LoadHead]);
    } else {
      LoadHeadKeepsInv(s, bd);
      run := [LoadHead];
      assert run[1..] == [];
      assert LegalRun(Next(s, bd, LoadHead), bd, []);
    }
  }

  lemma RestingBounds(s: Ring)
    requires RingInv(s)
    ensures |s.data| > 0 && s.tail <= s.head <= s.tail + |s.data| && s.done <= |s.items|
  {
    hide LaidOut;
    hide Queued;
  }

  lemma QueuedNothing(pos: nat, items: seq<Item>)
    ensures |items| == 0 ==> |Queued(pos, items)| == 0
  {
  }

  /** What is still to be applied lies between the consumer and the head. */
  lemma SomethingAhead(s: Ring)
    requires RingInv(s) && |s.delivered| < |s.accepted|
    ensures s.At() < s.head && s.done < |s.items|
    ensures s.items[s.done].Data? || (s.done + 1 < |s.items| && s.items[s.done + 1].Data?)
  {
    hide LaidOut;
    hide QueuedItem;
    hide Len;
    QueuedNothing(s.At(), s.items[s.done..]);
    LaidOutFrom(s.data, s.tail, s.items, s.done);
    assert s.items[s.done..][0] == s.items[s.done];
  }

  /** One turn past a filler, or the application of the next submission. */
  lemma OneTurn(s: Ring, bd: Bounds)
    requires RingInv(s) && s.consumer.Walking? && s.consumer.seenHead == s.head && |s.delivered| < |s.accepted|
    requires Admissible(s.accepted[|s.delivered|].r, bd.maxKey, bd.maxVal)
    ensures Enabled(s, TakeItem) && s.done < |s.items|
    ensures var t := Next(s, bd, TakeItem);
            && RingInv(t) && t.accepted == s.accepted && t.items == s.items && t.done == s.done + 1
            && t.consumer.Walking? && t.consumer.seenHead == t.head
            && t.delivered == s.delivered + if s.items[s.done].Data? then [s.accepted[|s.delivered|]] else []
  {
    hide LaidOut;
    hide Len;
    hide RingInv;
    hide Take;
    hide Total;
    hide Admissible;
    RestingBounds(s);
    SomethingAhead(s);
    TakeKeepsInv(s, bd);
    NextTaken(s, bd);
    AppliedInOrder(Next(s, bd, TakeItem));
  }

  /** An admissible submission that is next gets through: the consumer has only to go on. */
  lemma NextIsDelivered(s: Ring, bd: Bounds) returns (run: seq<Step>)
    requires RingInv(s) && |s.delivered| < |s.accepted|
    requires Admissible(s.accepted[|s.delivered|].r, bd.maxKey, bd.maxVal)
    ensures LegalRun(s, bd, run) && RingInv(Run(s, bd, run)) && Run(s, bd, run).accepted == s.accepted
    ensures Run(s, bd, run).delivered == s.delivered + [s.accepted[|s.delivered|]]
    ensures forall a | a in run :: Consumes(a)
  {
    hide RingInv;
    hide Enabled;
    hide Next;
    hide Admissible;
    var first := StartAgain(s, bd);
    var t := Run(s, bd, first);
    SomethingAhead(t);
    OneTurn(t, bd);
    var u := Next(t, bd, TakeItem);
    var rest := [TakeItem];
    assert rest[1..] == [] && LegalRun(u, bd, []);
    if !t.items[t.done].Data? {
      OneTurn(u, bd);
      rest := [TakeItem, TakeItem];
      assert rest[1..] == [TakeItem] && [TakeItem][1..] == [];
      assert LegalRun(Next(u, bd, TakeItem), bd, []);
      assert LegalRun(u, bd, [TakeItem]);
    }
    RunsJoin(s, bd, first, rest);
    run := first + rest;
  }

  lemma {:induction false} DeliverUpTo(s: Ring, bd: Bounds, x: nat) returns (run: seq<Step>)
    requires RingInv(s) && x < |s.accepted|
    requires forall y | 0 <= y <= x :: Admissible(s.accepted[y].r, bd.maxKey, bd.maxVal)
    ensures LegalRun(s, bd, run) && x < |Run(s, bd, run).delivered|
    decreases x + 1 - |s.delivered|
  {
    hide RingInv;
    hide Enabled;
    hide Next;
    hide Admissible;
    if x < |s.delivered| {
      run := [];
    } else {
      var first := NextIsDelivered(s, bd);
      var rest := DeliverUpTo(Run(s, bd, first), bd, x);
      RunsJoin(s, bd, first, rest);
      run := first + rest;
    }
  }

  /** EXACTLY THE ADMISSIBLE. Published submission x can still be applied if and only if it and every
      submission published before it are admissible. */
  lemma AppliedIffAdmissible(s: Ring, bd: Bounds, x: nat)
    requires RingInv(s) && AppliedAdmissible(s, bd) && x < |s.accepted|
    ensures (exists run :: LegalRun(s, bd, run) && x < |Run(s, bd, run).delivered|) <==>
            (forall y | 0 <= y <= x :: Admissible(s.accepted[y].r, bd.maxKey, bd.maxVal))
  {
    hide RingInv;
    hide Enabled;
    hide Next;
    hide Admissible;
    if run :| LegalRun(s, bd, run) && x < |Run(s, bd, run).delivered| {
      forall y | 0 <= y <= x
        ensures Admissible(s.accepted[y].r, bd.maxKey, bd.maxVal)
      {
        if !Admissible(s.accepted[y].r, bd.maxKey, bd.maxVal) {
          InadmissibleWedges(s, bd, run, y);
        }
      }
    }
    if forall y | 0 <= y <= x :: Admissible(s.accepted[y].r, bd.maxKey, bd.maxVal) {
      var run := DeliverUpTo(s, bd, x);
    }
  }

  /** Every state a ring can be in is one the results above speak of. */
  lemma {:induction false} ReachedAppliesAdmissible(s: Ring, bd: Bounds, run: seq<Step>)
    requires RingInv(s) && AppliedAdmissible(s, bd) && LegalRun(s, bd, run)
    ensures RingInv(Run(s, bd, run)) && AppliedAdmissible(Run(s, bd, run), bd)
    decreases |run|
  {
    hide RingInv;
    hide Enabled;
    hide Next;
    hide AppliedAdmissible;
    if run != [] {
      StepAppliesAdmissible(s, bd, run[0]);
      StepKeepsInv(s, bd, run[0]);
      ReachedAppliesAdmissible(Next(s, bd, run[0]), bd, run[1..]);
    }
  }
}
