/** The primary applies the submissions of a ring to the arena. */
module Draining {
  import opened Bytes
  import opened Wrapping
  import opened Expiry
  import opened Invalidation
  import opened ArenaState
  import opened ArenaSteps
  import opened Allocation
  import opened Eviction
  import opened Arenas
  import opened Submissions
  import opened SubmitItems
  import opened SubmitQueue
  import opened SubmitRings
  import opened SharedMemory
  import Records

  type Store = map<seq<byte>, Records.Rec>

  /** What applying r makes of the bindings v, whether or not the arena could store it: its key is
      bound to its value or to nothing, never to what it was bound to before; every other key
      keeps its binding or loses it. */
  ghost predicate Applies(r: Submission, t: nat, v: Store, v': Store) {
    && (forall k | k in v' && k != r.key :: k in v && v'[k] == v[k])
    && (r.op == OP_SET && r.key in v' ==>
          && v'[r.key].key == r.key && v'[r.key].val == r.val && v'[r.key].rawLen == |r.val|
          && v'[r.key].flags == r.flags && v'[r.key].expiresAt == ExpiryAt(t, r.ttlMs))
    && (r.op != OP_SET ==> v' == v - {r.key})
  }

  /** Every other key whose record the tail has not passed is bound as before. */
  ghost predicate Spares(m0: Mem, m: Mem, tail: nat, key: seq<byte>)
    requires |m.hash| == |m.off| && KeysDiffer(m)
  {
    forall x: nat, k | SlotFor(m0, x, k) && k != key && tail <= m0.off[x] ::
      k in View(m) && View(m)[k] == m0.book[m0.off[x]]
  }

  lemma SparesAfterSet(n: nat, a: LogState, z: LogState, key: seq<byte>, live0: nat, live: nat, maxLive: nat, ok: bool)
    requires |a.m.data| > 0 && |z.m.hash| == |z.m.off| && KeysDiffer(z.m) && (ok ==> key in View(z.m))
    requires SetCost(n, key, a, z, live0, live, maxLive, ok)
    ensures Spares(a.m, z.m, z.tail, key)
  {
    hide View;
    hide KeysDiffer;
    hide TailHadToMove;
    hide WrapsHadToBe;
    hide LossesExcused;
    hide FreshEntry;
  }

  lemma SparesAfterDelete(m0: Mem, m1: Mem, m: Mem, tail: nat, key: seq<byte>)
    requires |m1.hash| == |m1.off| && KeysDiffer(m1) && |m.hash| == |m.off| && KeysDiffer(m)
    requires Spares(m0, m1, tail, key) && View(m) == View(m1) - {key}
    ensures Spares(m0, m, tail, key)
  {
    hide View;
    hide KeysDiffer;
  }

  lemma SparesItself(m: Mem, tail: nat, key: seq<byte>)
    requires |m.hash| == |m.off| && KeysDiffer(m)
    ensures Spares(m, m, tail, key)
  {
    hide View;
    hide KeysDiffer;
    forall x: nat, k | SlotFor(m, x, k)
      ensures k in View(m) && View(m)[k] == m.book[m.off[x]]
    {
      ViewHas(m, x, k);
    }
  }

  /** Record x of the history announces the key of r on behalf of this writer. */
  ghost predicate Announced(f: seq<byte> -> nat, r: Submission, rec: RingRec, writerId: nat) {
    rec.hash == HashOf(f, r.key) && rec.writerId == writerId
  }

  /** Is a block for this record to be had in an arena of so many bytes? */
  predicate Storable(dataBytes: nat, r: Submission)
    requires dataBytes > 0
  {
    Obtainable(Align8(Records.HEADER + |r.key| + |r.val|), dataBytes)
  }

  /** Limits that keep every submission within the arena's fields. */
  predicate Fitting(bd: Bounds) {
    bd.maxKey < TWO_16 && Records.HEADER + bd.maxKey + bd.maxVal + 8 <= TWO_32
  }

  lemma SubmissionFits(r: Submission, bd: Bounds)
    requires Fitting(bd) && Admissible(r, bd.maxKey, bd.maxVal)
    ensures |r.key| < TWO_16 && |r.val| < TWO_32 && Align8(Records.HEADER + |r.key| + |r.val|) < TWO_32
  {
  }

  lemma AnnouncedByLast(f: seq<byte> -> nat, r: Submission, h: seq<RingRec>, version: nat, writerId: nat)
    ensures |h + [RingRec(HashOf(f, r.key), version, writerId)]| == |h| + 1
    ensures Announced(f, r, (h + [RingRec(HashOf(f, r.key), version, writerId)])[|h|], writerId)
  {
  }

  /** The set of a submission. */
  method ApplySet(arena: Arena, r: Submission, bd: Bounds, t: nat, writerId: nat) returns (stored: bool)
    requires arena.Valid() && Fitting(bd) && Admissible(r, bd.maxKey, bd.maxVal) && r.op == OP_SET
    modifies arena, arena.hash, arena.off, arena.hints, arena.data, arena.ring
    ensures arena.Valid() && old(arena.trace) <= arena.trace
    ensures KeysDiffer(old(arena.m)) && |old(arena.m).hash| == |old(arena.m).off|
    ensures KeysDiffer(arena.m) && |arena.m.hash| == |arena.m.off| && arena.data.Length > 0
    ensures Spares(old(arena.m), arena.m, arena.logTail, r.key)
    ensures if stored then Applies(r, t, View(old(arena.m)), View(arena.m)) && r.key in View(arena.m)
            else Submap(View(arena.m), View(old(arena.m)))
    ensures if stored then |arena.history| == |old(arena.history)| + 1 && old(arena.history) <= arena.history &&
                           Announced(arena.hashFn, r, arena.history[|old(arena.history)|], writerId)
            else arena.history == old(arena.history)
    ensures Storable(arena.data.Length, r) && old(arena.live) < arena.hash.Length ==> stored
  {
    hide *;
    arena.ShapeOfValid();
    SubmissionFits(r, bd);
    ghost var a, live0, h0 := LogState(arena.m, arena.hints[..], arena.lay, arena.logTail, arena.logHead), arena.live,
                              arena.history;
    stored := arena.StoreSet(r.key, r.val, |r.val|, r.flags, ExpiryAt(t, r.ttlMs), writerId);
    arena.ShapeOfValid();
    SparesAfterSet(Align8(Records.HEADER + |r.key| + |r.val|), a,
                   LogState(arena.m, arena.hints[..], arena.lay, arena.logTail, arena.logHead), r.key,
                   live0, arena.live, arena.maxLive, stored);
    if stored {
      StoredApplies(r, t, a.m, arena.m, arena.inserts);
      AnnouncedByLast(arena.hashFn, r, h0, Records.Version(arena.inserts), writerId);
    }
    StorableMeans(arena.data.Length, r);
  }

  lemma StorableMeans(dataBytes: nat, r: Submission)
    requires dataBytes > 0
    ensures Storable(dataBytes, r) <==> Obtainable(Align8(Records.HEADER + |r.key| + |r.val|), dataBytes)
  {
  }

  /** The delete of a submission, or of one whose set was turned down. */
  method ApplyDelete(arena: Arena, r: Submission, t: nat, writerId: nat, ghost m0: Mem)
    requires arena.Valid() && |arena.m.hash| == |arena.m.off| && KeysDiffer(arena.m)
    requires |m0.hash| == |m0.off| && KeysDiffer(m0) && Spares(m0, arena.m, arena.logTail, r.key)
    requires if r.op == OP_SET then Submap(View(arena.m), View(m0)) else View(arena.m) == View(m0)
    modifies arena, arena.hash, arena.off, arena.hints, arena.data, arena.ring
    ensures arena.Valid() && old(arena.trace) <= arena.trace
    ensures KeysDiffer(arena.m) && |arena.m.hash| == |arena.m.off|
    ensures Spares(m0, arena.m, arena.logTail, r.key) && Applies(r, t, View(m0), View(arena.m))
    ensures View(arena.m) == View(old(arena.m)) - {r.key}
    ensures |arena.history| == |old(arena.history)| + 1 && old(arena.history) <= arena.history
    ensures Announced(arena.hashFn, r, arena.history[|old(arena.history)|], writerId)
  {
    hide *;
    ghost var m1, h1 := arena.m, arena.history;
    var had := arena.StoreDelete(r.key, writerId);
    arena.ShapeOfValid();
    SparesAfterDelete(m0, m1, arena.m, arena.logTail, r.key);
    RefusedApplies(r, t, View(m0), View(m1));
    AnnouncedByLast(arena.hashFn, r, h1, Records.Version(arena.inserts), writerId);
  }

  /** One submission, applied at clock t. `refuse` stands for any reason the arena may have to turn a
      set down; the key is then removed, so that its predecessor does not survive. */
  method ApplySubmission(arena: Arena, r: Submission, bd: Bounds, t: nat, writerId: nat, refuse: bool)
    requires arena.Valid() && Fitting(bd) && Admissible(r, bd.maxKey, bd.maxVal)
    modifies arena, arena.hash, arena.off, arena.hints, arena.data, arena.ring
    ensures arena.Valid() && old(arena.trace) <= arena.trace
    ensures KeysDiffer(old(arena.m)) && |old(arena.m).hash| == |old(arena.m).off|
    ensures Applies(r, t, View(old(arena.m)), View(arena.m))
    ensures |arena.history| == |old(arena.history)| + 1 && old(arena.history) <= arena.history
    ensures Announced(arena.hashFn, r, arena.history[|old(arena.history)|], writerId)
    ensures r.op != OP_SET || refuse ==> View(arena.m) == View(old(arena.m)) - {r.key}
    ensures Spares(old(arena.m), arena.m, arena.logTail, r.key)
    ensures r.op == OP_SET && !refuse && Storable(arena.data.Length, r) && old(arena.live) < arena.hash.Length ==>
              r.key in View(arena.m)
  {
    hide *;
    arena.ShapeOfValid();
    ghost var m0 := arena.m;
    SparesItself(m0, arena.logTail, r.key);
    SubmapItself(View(m0));
    if r.op == OP_SET {
      var stored := false;
      if !refuse {
        stored := ApplySet(arena, r, bd, t, writerId);
      }
      if !stored {
        ApplyDelete(arena, r, t, writerId, m0);
      }
    } else {
      ApplyDelete(arena, r, t, writerId, m0);
    }
  }

  lemma SubmapItself(v: Store)
    ensures Submap(v, v)
  {
  }

  lemma StoredApplies(r: Submission, t: nat, m0: Mem, m: Mem, id: nat)
    requires |m0.hash| == |m0.off| && |m.hash| == |m.off| && KeysDiffer(m0) && KeysDiffer(m)
    requires r.op == OP_SET && r.key in View(m) && SetDone(m0, m, r.key, View(m)[r.key])
    requires Carries(View(m)[r.key], r.key, r.val, |r.val|, r.flags, ExpiryAt(t, r.ttlMs), id)
    ensures Applies(r, t, View(m0), View(m))
  {
    hide View;
    hide KeysDiffer;
    hide ExpiryAt;
  }

  lemma RefusedApplies(r: Submission, t: nat, v: Store, v': Store)
    requires if r.op == OP_SET then Submap(v', v) else v' == v
    ensures Applies(r, t, v, v' - {r.key})
  {
  }

  /** What a drain did: the submissions it applied, the invalidation record of each, and the bindings
      before the first and after each of them. */
  datatype Log = Log(views: seq<Store>, pushes: seq<Push>, recs: seq<RingRec>)

  /** The terms of a drain: the arena, the clock at each submission, and which of them are to be refused. */
  datatype Terms = Terms(f: seq<byte> -> nat, slots: nat, dataBytes: nat, clock: nat -> nat, refuse: nat -> bool,
                         writerId: nat)

  ghost function TermsOf(arena: Arena, clock: nat -> nat, refuse: nat -> bool, writerId: nat): Terms {
    Terms(arena.hashFn, arena.hash.Length, arena.data.Length, clock, refuse, writerId)
  }

  /** The bindings after submission x, once more than Applies: nothing but its key goes when it is a delete or is
      refused, and a set that is not refused is stored if its size can be had and a slot is free. */
  ghost predicate Answered(e: Terms, x: nat, r: Submission, v: Store, v': Store) {
    && Applies(r, e.clock(x), v, v')
    && (r.op != OP_SET || e.refuse(x) ==> v' == v - {r.key})
    && (r.op == OP_SET && !e.refuse(x) && e.dataBytes > 0 && Storable(e.dataBytes, r) && |v| < e.slots ==> r.key in v')
  }

  /** DRAIN ACKNOWLEDGEMENT. Submission by submission, in order: one record that announces its key,
      and the bindings right after it. */
  ghost predicate Acknowledged(e: Terms, log: Log) {
    && |log.views| == |log.pushes| + 1 && |log.recs| == |log.pushes|
    && forall x: nat | x < |log.pushes| ::
         && Answered(e, x, log.pushes[x].r, log.views[x], log.views[x + 1])
         && Announced(e.f, log.pushes[x].r, log.recs[x], e.writerId)
  }

  /** The log leads from the bindings v0 and the history h0 to v and h. */
  ghost predicate Leads(log: Log, v0: Store, h0: seq<RingRec>, v: Store, h: seq<RingRec>) {
    && |log.views| == |log.pushes| + 1
    && log.views[0] == v0 && log.views[|log.pushes|] == v && h == h0 + log.recs
  }

  lemma NothingLogged(e: Terms, v: Store, h: seq<RingRec>)
    ensures Acknowledged(e, Log([v], [], [])) && Leads(Log([v], [], []), v, h, v, h)
  {
  }

  lemma LogNext(e: Terms, log: Log, p: Push, v0: Store, h0: seq<RingRec>, v: Store, v': Store, h: seq<RingRec>,
                h': seq<RingRec>, log': Log)
    requires Acknowledged(e, log) && Leads(log, v0, h0, v, h)
    requires |h'| == |h| + 1 && h <= h' && Announced(e.f, p.r, h'[|h|], e.writerId)
    requires Answered(e, |log.pushes|, p.r, v, v')
    requires log' == Log(log.views + [v'], log.pushes + [p], log.recs + [h'[|h|]])
    ensures Acknowledged(e, log') && Leads(log', v0, h0, v', h')
  {
    hide Answered;
    hide Announced;
    forall x: nat | x < |log'.pushes|
      ensures Answered(e, x, log'.pushes[x].r, log'.views[x], log'.views[x + 1])
      ensures Announced(e.f, log'.pushes[x].r, log'.recs[x], e.writerId)
    {
      if x < |log.pushes| {
        assert log'.views[x + 1] == log.views[x + 1] && log'.recs[x] == log.recs[x];
      }
    }
  }

  lemma ItIsAnswered(e: Terms, x: nat, r: Submission, v: Store, v': Store)
    requires Applies(r, e.clock(x), v, v')
    requires r.op != OP_SET || e.refuse(x) ==> v' == v - {r.key}
    requires r.op == OP_SET && !e.refuse(x) && e.dataBytes > 0 && Storable(e.dataBytes, r) && |v| < e.slots ==>
               r.key in v'
    ensures Answered(e, x, r, v, v')
  {
    hide Applies;
    hide Storable;
  }

  /** Applies one more submission and logs it. */
  method ApplyNext(arena: Arena, p: Push, bd: Bounds, n: nat, writerId: nat, clock: nat -> nat, refuse: nat -> bool,
                   ghost log: Log, ghost v0: Store, ghost h0: seq<RingRec>) returns (ghost log': Log)
    requires arena.Valid() && Fitting(bd) && Admissible(p.r, bd.maxKey, bd.maxVal) && n == |log.pushes|
    requires |arena.m.hash| == |arena.m.off| && KeysDiffer(arena.m)
    requires Acknowledged(TermsOf(arena, clock, refuse, writerId), log)
    requires Leads(log, v0, h0, View(arena.m), arena.history)
    modifies arena, arena.hash, arena.off, arena.hints, arena.data, arena.ring
    ensures arena.Valid() && |arena.m.hash| == |arena.m.off| && KeysDiffer(arena.m)
    ensures Acknowledged(TermsOf(arena, clock, refuse, writerId), log')
    ensures Leads(log', v0, h0, View(arena.m), arena.history)
    ensures log'.pushes == log.pushes + [p]
  {
    hide Arena.Valid;
    hide View;
    hide KeysDiffer;
    hide Acknowledged;
    hide Leads;
    hide Applies;
    hide Announced;
    hide Admissible;
    hide Spares;
    hide Answered;
    hide Storable;
    ghost var v, h, live0 := View(arena.m), arena.history, arena.live;
    LiveIsSize(arena);
    ApplySubmission(arena, p.r, bd, clock(n), writerId, refuse(n));
    arena.ShapeOfValid();
    ItIsAnswered(TermsOf(arena, clock, refuse, writerId), n, p.r, v, View(arena.m));
    log' := Log(log.views + [View(arena.m)], log.pushes + [p], log.recs + [arena.history[|h|]]);
    LogNext(TermsOf(arena, clock, refuse, writerId), log, p, v0, h0, v, View(arena.m), h, arena.history, log');
  }

  ghost predicate NextIsData(s: Ring) {
    s.done < |s.items| && s.items[s.done].Data?
  }

  /** Behind a gap or a SKIP there is a submission; in front of neither is there another one. */
  lemma FillerIsFollowed(s: Ring, s': Ring, pos: nat, t: Taken)
    requires SubmitQueue.RingInv(s) && s.done < |s.items| && s'.items == s.items && s'.done == s.done + 1
    requires t == Taken(Len(s.items[s.done]), QueuedItem(pos, s.items[s.done]))
    ensures t.applied == [] ==> !NextIsData(s) && NextIsData(s')
  {
    hide LaidOut;
    hide ConsumerInv;
    hide FlowInv;
    hide CountersInv;
    hide Len;
  }

  lemma AppliedIsAdmissible(it: Item, bd: Bounds, pos: nat, p: Push)
    requires !Refused(it, bd) && QueuedItem(pos, it) == [p]
    ensures Admissible(p.r, bd.maxKey, bd.maxVal)
  {
    hide Admissible;
    hide Len;
  }

  lemma WalkEndsAtHead(s: Ring)
    requires SubmitQueue.RingInv(s) && s.consumer.Walking?
    ensures s.consumer.pos <= s.consumer.seenHead
  {
    hide LaidOut;
    hide FlowInv;
    hide CountersInv;
    hide Total;
    MoreItemsMoreBytes(s.items, s.done, s.seen);
  }

  lemma StuckIsBlocked(s: Ring, s': Ring, bd: Bounds, t: Taken)
    requires s.done < |s.items| && s'.items == s.items && s'.done == s.done && t.Stuck?
    requires t.Stuck? ==> Refused(s.items[s.done], bd)
    ensures Blocked(s', bd)
  {
    hide Refused;
  }

  lemma StillBlocked(s: Ring, s': Ring, bd: Bounds)
    requires s.done <= |s.items| && s'.items == s.items[s.done..] && s'.done == 0
    ensures Blocked(s, bd) ==> Blocked(s', bd)
  {
    hide Refused;
  }

  /** One turn of the drain loop. */
  method Turn(ring: SubmitRing, arena: Arena, pos: nat, h: nat, n: nat, writerId: nat, clock: nat -> nat,
              refuse: nat -> bool, ghost log: Log, ghost v0: Store, ghost h0: seq<RingRec>)
    returns (t: Taken, ghost log': Log)
    requires ring.Wired() && ring.s.producer.Idle? && ring.s.consumer == Walking(pos, h) && pos < h
    requires arena.Valid() && Fitting(ring.bd) && ring.data != arena.data && n == |log.pushes|
    requires |arena.m.hash| == |arena.m.off| && KeysDiffer(arena.m)
    requires Acknowledged(TermsOf(arena, clock, refuse, writerId), log)
    requires Leads(log, v0, h0, View(arena.m), arena.history)
    modifies ring`s, ring`run, arena, arena.hash, arena.off, arena.hints, arena.data, arena.ring
    ensures ring.Wired() && ring.s.producer.Idle? && ring.s.accepted == old(ring.s.accepted)
    ensures ring.s.consumer == if t.Stuck? then Walking(pos, pos) else Walking(pos + t.len, h)
    ensures t.Stuck? ==> log' == log && ring.s.delivered == old(ring.s.delivered) && Blocked(ring.s, ring.bd)
    ensures t.Taken? ==> log'.pushes == log.pushes + t.applied && ring.s.delivered == old(ring.s.delivered) + t.applied
    ensures t.Taken? ==> |t.applied| <= 1 && (t.applied == [] ==> !NextIsData(old(ring.s)) && NextIsData(ring.s))
    ensures arena.Valid() && |arena.m.hash| == |arena.m.off| && KeysDiffer(arena.m)
    ensures Acknowledged(TermsOf(arena, clock, refuse, writerId), log')
    ensures Leads(log', v0, h0, View(arena.m), arena.history)
  {
    hide Arena.Valid;
    hide SubmitRing.Wired;
    hide View;
    hide KeysDiffer;
    hide Acknowledged;
    hide Leads;
    hide Refused;
    hide Admissible;
    hide NextIsData;
    hide Len;
    hide Blocked;
    ring.Sizes();
    log' := log;
    ghost var s0 := ring.s;
    t := ring.TakeItem(pos, h);
    if t.Stuck? {
      StuckIsBlocked(s0, ring.s, ring.bd, t);
    } else {
      FillerIsFollowed(s0, ring.s, pos, t);
      if t.applied != [] {
        AppliedIsAdmissible(s0.items[s0.done], ring.bd, pos, t.applied[0]);
        log' := ApplyNext(arena, t.applied[0], ring.bd, n, writerId, clock, refuse, log, v0, h0);
      }
    }
  }

  /** Applies what lies in the ring, up to `budget` submissions. The cap on the number of turns never
      matters: a drain that applied less than its budget reached the head it saw, or stopped at a
      submission that is not admissible. */
  method DrainRing(ring: SubmitRing, arena: Arena, budget: nat, writerId: nat, clock: nat -> nat, refuse: nat -> bool)
    returns (applied: nat, ghost log: Log)
    requires ring.Valid() && arena.Valid() && Fitting(ring.bd) && ring.data != arena.data && budget > 0
    modifies ring`tail, ring`s, ring`run, arena, arena.hash, arena.off, arena.hints, arena.data, arena.ring
    ensures ring.Valid() && arena.Valid() && applied == |log.pushes| <= budget
    ensures ring.s.accepted == old(ring.s.accepted) && ring.s.delivered == old(ring.s.delivered) + log.pushes
    ensures Acknowledged(TermsOf(arena, clock, refuse, writerId), log)
    ensures KeysDiffer(old(arena.m)) && |old(arena.m).hash| == |old(arena.m).off|
    ensures |arena.m.hash| == |arena.m.off| && KeysDiffer(arena.m)
    ensures Leads(log, View(old(arena.m)), old(arena.history), View(arena.m), arena.history)
    ensures applied < budget ==> ring.tail == ring.head || Blocked(ring.s, ring.bd)
  {
    hide Arena.Valid;
    hide SubmitRing.Wired;
    hide View;
    hide KeysDiffer;
    hide Acknowledged;
    hide Leads;
    hide Refused;
    hide Admissible;
    hide NextIsData;
    hide Blocked;
    hide Len;
    arena.ShapeOfValid();
    ghost var v0, h0 := View(arena.m), arena.history;
    NothingLogged(TermsOf(arena, clock, refuse, writerId), v0, h0);
    applied, log := 0, Log([v0], [], []);
    ring.Sizes();
    if ring.head == ring.tail {
      return;
    }
    var h := ring.LoadHead();
    var pos: nat := ring.tail;
    var steps, maxSteps, stuck := 0, budget * 4 + 64, false;
    ghost var filler := false;
    while pos < h && applied < budget && steps < maxSteps && !stuck
      invariant ring.Wired() && ring.s.producer.Idle? && ring.head == h && arena.Valid()
      invariant ring.s.consumer == Walking(pos, if stuck then pos else h)
      invariant ring.s.accepted == old(ring.s.accepted) && ring.s.delivered == old(ring.s.delivered) + log.pushes
      invariant |arena.m.hash| == |arena.m.off| && KeysDiffer(arena.m) && applied == |log.pushes| <= budget
      invariant Acknowledged(TermsOf(arena, clock, refuse, writerId), log)
      invariant Leads(log, v0, h0, View(arena.m), arena.history)
      invariant stuck || steps <= 2 * applied + if filler then 1 else 0
      invariant filler && !stuck ==> NextIsData(ring.s)
      invariant stuck ==> Blocked(ring.s, ring.bd)
      decreases maxSteps - steps
    {
      steps := steps + 1;
      var t;
      t, log := Turn(ring, arena, pos, h, applied, writerId, clock, refuse, log, v0, h0);
      if t.Stuck? {
        stuck := true;
      } else {
        filler := t.applied == [];
        applied := applied + |t.applied|;
        pos := pos + t.len;
      }
    }
    ring.Sizes();
    WalkEndsAtHead(ring.s);
    ghost var s0 := ring.s;
    ring.StoreTail(pos);
    StillBlocked(s0, ring.s, ring.bd);
  }
}
