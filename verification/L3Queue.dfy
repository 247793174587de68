/** The per-process L3 queue. Each method is the code between two awaits; every one of them is one
    step of the machine in QueueModel. */
module L3Queues {
  import opened QueueModel
  import opened QueueShape
  import opened QueueBarrier
  import opened QueueAccounts
  import opened QueueCovers
  import opened QueueStore
  import opened QueueRuns
  import opened QueueTheorems
  import opened QueueFrames

  class L3Queue {
    const maxBytes: nat
    var chains: map<Slot, Chain>
    var bytes: int
    var count: int
    var clears: int
    var gate: bool
    var onWire: int
    var closed: bool
    var drains: nat
    var shed: nat
    // Accepted pushes so far, and the promises that are settled.
    var pushes: nat
    var settled: map<nat, bool>
    // What the proof keeps: what L3 held at the start, the state of the machine, and the run that led to it.
    ghost const initial: map<string, string>
    ghost var g: Queue
    ghost var run: seq<Step>

    constructor (max: nat, ghost store: map<string, string>)
      ensures Valid() && maxBytes == max && g == Start(store) && initial == store
    {
      maxBytes := max;
      chains, bytes, count, clears, gate, onWire := map[], 0, 0, 0, false, 0;
      closed, drains, shed, pushes, settled := false, 0, 0, 0, map[];
      initial, g, run := store, Start(store), [];
      new;
      StartIsValid(store, maxBytes);
    }

    ghost predicate Mirrors()
      reads this
    {
      && chains == g.chains && bytes == g.bytes && count == g.count && clears == g.clears && gate == g.gate
      && onWire == g.onWire && closed == g.closed && drains == g.drains
      && pushes == |g.ops| && settled == g.settled
    }

    /** Between two steps. */
    ghost predicate Valid()
      reads this
    {
      Mirrors() && QueueInv(g, maxBytes) && Reached(initial, g, run, maxBytes)
    }

    /** The step that was just taken is one of the machine. */
    ghost method Took(s: Queue, a: Step)
      requires Mirrors() && QueueInv(s, maxBytes) && Reached(initial, s, run, maxBytes) && Steps(s, a, g, maxBytes)
      modifies this`run
      ensures Valid()
    {
      hide QueueInv;
      hide Enabled;
      hide Next;
      StepKeepsInv(s, a, maxBytes);
      RunExtends(Start(initial), run, a, maxBytes);
      run := run + [a];
    }

    // ------------------------------------------------------------------------ run loop

    /** The head of the run loop of a chain, up to the next await or the end of the loop. */
    method RunHead(slot: Slot)
      requires Mirrors() && slot in chains
      modifies this`chains, this`onWire, this`g
      ensures Mirrors() && g == Top(old(g), slot)
    {
      hide Bytes;
      hide Apply;
      g := Top(g, slot);
      var c := chains[slot];
      if c.pending.None? {
        chains := chains - {slot};
        return;
      }
      if slot != CLEAR && gate {
        chains := chains[slot := c.(phase := Gated(false))];
        return;
      }
      if slot == CLEAR {
        chains := chains[slot := Chain(None, c.pending, AtWire(onWire == 0))];
      } else {
        onWire := onWire + 1;
        chains := chains[slot := Chain(None, c.pending, Attempt(false))];
      }
    }

    /** The gate was released while the chain waited for it. */
    method GateWake(slot: Slot)
      requires Valid() && slot in chains && chains[slot].phase == Gated(true)
      modifies this`chains, this`onWire, this`g, this`run
      ensures Valid() && Steps(old(g), QueueModel.GateWake(slot), g, maxBytes)
    {
      hide QueueInv;
      hide Top;
      ghost var s := g;
      RunHead(slot);
      Took(s, QueueModel.GateWake(slot));
    }

    /** The wire is empty: the clear goes out. */
    method WireWake()
      requires Valid() && CLEAR in chains && chains[CLEAR].phase == AtWire(true)
      modifies this`chains, this`onWire, this`g, this`run
      ensures Valid() && Steps(old(g), QueueModel.WireWake, g, maxBytes)
    {
      hide QueueInv;
      hide Reached;
      hide Top;
      hide Queued;
      hide Finish;
      InflightOf(g, CLEAR, maxBytes);
      ghost var s := g;
      g := Send(g, CLEAR);
      onWire := onWire + 1;
      chains := chains[CLEAR := chains[CLEAR].(phase := Attempt(false))];
      Took(s, QueueModel.WireWake);
    }

    /** The adapter applies the operation of the attempt under way. Nothing in the queue sees it. */
    method Lands(slot: Slot)
      requires Valid() && slot in chains && chains[slot].phase == Attempt(false)
      modifies this`chains, this`g, this`run
      ensures Valid() && Steps(old(g), QueueModel.Lands(slot), g, maxBytes)
    {
      hide QueueInv;
      hide Reached;
      hide Apply;
      hide Top;
      hide Queued;
      hide Finish;
      hide Send;
      InflightOf(g, slot, maxBytes);
      ghost var s := g;
      g := Next(g, QueueModel.Lands(slot), maxBytes);
      chains := chains[slot := chains[slot].(phase := Attempt(true))];
      Took(s, QueueModel.Lands(slot));
    }

    /** The backoff after a failed attempt is over: the next attempt begins. */
    method BackoffWake(slot: Slot)
      requires Valid() && slot in chains && chains[slot].phase == Backoff
      modifies this`chains, this`g, this`run
      ensures Valid() && Steps(old(g), QueueModel.BackoffWake(slot), g, maxBytes)
    {
      hide QueueInv;
      hide Reached;
      hide Top;
      hide Queued;
      hide Finish;
      hide Send;
      hide Apply;
      ghost var s := g;
      g := Next(g, QueueModel.BackoffWake(slot), maxBytes);
      chains := chains[slot := chains[slot].(phase := Attempt(false))];
      Took(s, QueueModel.BackoffWake(slot));
    }

    /** An attempt has settled: it succeeded, or it failed before or after the deadline. A clear is
        repeated past the deadline, but nothing is once the queue is closed, and anything is abandoned
        when the clock of the caller throws. */
    method AttemptSettled(slot: Slot, success: bool, late: bool, clockThrew: bool)
      requires Valid() && slot in chains && chains[slot].phase.Attempt? && (success ==> chains[slot].phase.landed)
      modifies this
      ensures var v := if success then Success
                      else if !clockThrew && !old(closed) && (slot == CLEAR || !late) then Retry else Abandon;
              Steps(old(g), Settles(slot, v), g, maxBytes)
      ensures Valid() && shed == old(shed)
      ensures drains != old(drains) ==> count == 0 && drains == 0
    {
      hide QueueInv;
      hide Reached;
      hide Top;
      hide Finish;
      hide Enabled;
      hide Next;
      InflightOf(g, slot, maxBytes);
      SettlesIs(g, slot, maxBytes);
      ghost var s := g;
      if !success {
        var mayRetry := !closed && (slot == CLEAR || !late);
        if !clockThrew && mayRetry {
          g := Rephased(g, slot, Backoff);
          chains := chains[slot := chains[slot].(phase := Backoff)];
          StepFrame(s, Settles(slot, Retry), maxBytes);
          Took(s, Settles(slot, Retry));
          return;
        }
      }
      FinishOp(slot, success);
      RunHead(slot);
      StepFrame(s, Settles(slot, if success then Success else Abandon), maxBytes);
      Took(s, Settles(slot, if success then Success else Abandon));
    }

    /** The operation in flight is over: the wire, the books, the gate, the promises, in this order. */
    method FinishOp(slot: Slot, outcome: bool)
      requires Mirrors() && slot in chains && chains[slot].inflight.Some?
      modifies this`chains, this`onWire, this`bytes, this`count, this`clears, this`gate, this`settled, this`drains
      modifies this`g
      ensures Mirrors() && g == Finish(old(g), slot, outcome)
    {
      hide Disarm;
      hide Leave;
      var it := chains[slot].inflight.value;
      LeaveWire(slot, it);
      DisarmFields(g);
      if slot == CLEAR {
        DisarmGate();
      }
      g := Outcome(g, it, outcome);
      settled := settled + (map i | i in it.covers :: outcome);
      if count == 0 {
        drains := 0;
      }
    }

    method LeaveWire(slot: Slot, it: Item)
      requires Mirrors() && slot in chains
      modifies this`chains, this`onWire, this`bytes, this`count, this`g
      ensures Mirrors() && g == Leave(old(g), slot, it)
    {
      g := Leave(g, slot, it);
      chains := chains[slot := chains[slot].(inflight := None, phase := NotRunning)];
      onWire := onWire - 1;
      if onWire == 0 && CLEAR in chains && chains[CLEAR].phase.AtWire? {
        chains := chains[CLEAR := chains[CLEAR].(phase := AtWire(true))];
      }
      bytes := bytes - it.op.bytes;
      count := count - 1;
    }

    method DisarmGate()
      requires Mirrors()
      modifies this`clears, this`gate, this`chains, this`g
      ensures Mirrors() && g == Disarm(old(g))
    {
      g := Disarm(g);
      clears := clears - 1;
      if clears > 0 {
        return;
      }
      gate := false;
      chains := map k | k in chains :: if chains[k].phase.Gated? then chains[k].(phase := Gated(true)) else chains[k];
    }

    // --------------------------------------------------------------------------- push

    /** A set or a delete. False when the queue is full; then nothing changed. */
    method Push(name: string, val: Option<string>, size: nat) returns (accepted: bool)
      requires Valid()
      modifies this
      ensures Valid() && Steps(old(g), QueueModel.Push(Key(name), val, size), g, maxBytes)
      ensures accepted <==> old(bytes) + size <= maxBytes
      ensures !accepted ==> g == old(g) && shed == old(shed) + 1
      ensures accepted ==> g.ops == old(g.ops) + [Op(|old(g.ops)|, Key(name), val, size)] && drains == old(drains)
    {
      hide QueueInv;
      hide Reached;
      hide Top;
      hide Apply;
      hide Enabled;
      hide Next;
      hide Enqueue;
      hide Accept;
      ghost var s := g;
      var slot := Key(name);
      PushIs(s, slot, val, size, maxBytes);
      if bytes + size > maxBytes {
        shed := shed + 1;
        Took(s, QueueModel.Push(slot, val, size));
        return false;
      }
      var idle := slot !in chains;
      Take(slot, val, size);
      if idle {
        RunHead(slot);
      }
      StepFrame(s, QueueModel.Push(slot, val, size), maxBytes);
      Took(s, QueueModel.Push(slot, val, size));
      accepted := true;
    }

    /** The operation takes the pending slot of its chain, in place of the one that is there. */
    method Take(slot: Slot, val: Option<string>, size: nat)
      requires Mirrors()
      modifies this`chains, this`bytes, this`count, this`pushes, this`g
      ensures Mirrors() && g == Enqueue(Accept(old(g), slot, val, size), slot) && slot in chains
    {
      hide Boss;
      hide Apply;
      hide Enqueue;
      hide Accept;
      hide Taking;
      var op := Op(pushes, slot, val, size);
      Taken(g, slot, val, size);
      TakingIs(g.chains, slot, op);
      g := Enqueue(Accept(g, slot, val, size), slot);
      pushes := pushes + 1;
      var c := if slot in chains then chains[slot] else Chain(None, None, NotRunning);
      if c.pending.Some? {
        bytes := bytes - c.pending.value.op.bytes;
        count := count - 1;
        chains := chains[slot := c.(pending := Some(Item(op, c.pending.value.covers + {op.id})))];
        bytes := bytes + size;
        count := count + 1;
        return;
      }
      chains := chains[slot := c.(pending := Some(Item(op, {op.id})))];
      bytes := bytes + size;
      count := count + 1;
    }

    method ArmGate()
      requires Mirrors()
      modifies this`clears, this`gate, this`g
      ensures Mirrors() && g == Arm(old(g))
    {
      g := Arm(g);
      clears := clears + 1;
      gate := true;
    }

    /** A clear: arms the gate, takes the place of a clear not yet sent, and drops what is queued. */
    method PushClear(size: nat)
      requires Valid()
      modifies this
      ensures Valid() && Steps(old(g), QueueModel.Push(CLEAR, None, size), g, maxBytes)
      ensures shed == old(shed) && drains == old(drains)
      ensures g.ops == old(g.ops) + [Op(|old(g.ops)|, CLEAR, None, size)]
    {
      hide QueueInv;
      hide Reached;
      hide Top;
      hide Apply;
      hide Bytes;
      hide Disarm;
      hide Enqueue;
      hide Accept;
      hide Sweep;
      hide Enabled;
      hide Next;
      ghost var s := g;
      PushIs(s, CLEAR, None, size, maxBytes);
      var idle := CLEAR !in chains;
      var unsent := !idle && chains[CLEAR].pending.Some?;
      ArmGate();
      if unsent {
        DisarmGate();
      }
      HoldFields(s);
      assert g == Hold(s);
      TakenKeeps(s, size, maxBytes);
      Take(CLEAR, None, size);
      DropPending();
      if idle {
        RunHead(CLEAR);
      }
      StepFrame(s, QueueModel.Push(CLEAR, None, size), maxBytes);
      Took(s, QueueModel.Push(CLEAR, None, size));
    }

    /** Drops what is queued and not sent; its pushes go over to the pending clear. */
    method DropPending()
      requires Mirrors() && (exists r :: ShapeInv(g, r)) && OutInv(g)
      requires CLEAR in chains && chains[CLEAR].pending.Some?
      modifies this`chains, this`bytes, this`count, this`g
      ensures Mirrors() && g == Sweep(old(g)) && CLEAR in chains
    {
      hide ShapeInv;
      hide OutInv;
      hide Bytes;
      hide UnsentIds;
      hide UnsentCovers;
      hide Boss;
      hide Dropped;
      hide IdsAmong;
      hide CoversAmong;
      hide Emptied;
      ghost var r :| ShapeInv(g, r);
      ghost var s, done: set<Slot> := g, {};
      var todo, settles := chains.Keys, {};
      BytesOfNone(s.ops);
      NothingDropped(s);
      while todo != {}
        invariant g == s && done + todo == s.chains.Keys && done !! todo
        invariant chains == Dropped(s.chains, done)
        invariant settles == CoversAmong(s.chains, done)
        invariant bytes == s.bytes - Bytes(s.ops, IdsAmong(s.chains, done))
        invariant count == s.count - |IdsAmong(s.chains, done)|
        decreases todo
      {
        var k :| k in todo;
        todo := todo - {k};
        OneMoreDropped(s, r, done, k);
        done := done + {k};
        if k == CLEAR || chains[k].pending.None? {
          continue;
        }
        var it := chains[k].pending.value;
        bytes := bytes - it.op.bytes;
        count := count - 1;
        settles := settles + it.covers;
        chains := chains[k := chains[k].(pending := None)];
      }
      AllDropped(s, done);
      g := Sweep(g);
      var c := chains[CLEAR].pending.value;
      chains := chains[CLEAR := chains[CLEAR].(pending := Some(Item(c.op, c.covers + settles)))];
    }

    // --------------------------------------------------------------------- the others

    /** The newest operation that is still owed to L3 for a key: queued before in flight. */
    method OutstandingKind(name: string) returns (r: Option<Op>)
      requires Valid()
      ensures r.None? <==> forall i | i in g.out :: g.ops[i].slot != Key(name)
      ensures r.Some? ==> r.value.id in g.out && r.value == g.ops[r.value.id] && r.value.slot == Key(name)
      ensures r.Some? ==> forall i | i in g.out && g.ops[i].slot == Key(name) :: i <= r.value.id
    {
      hide AccountInv;
      hide GateInv;
      hide WireInv;
      hide CoverInv;
      hide LandInv;
      hide ViewInv;
      hide Reached;
      var k := Key(name);
      if k !in chains {
        return None;
      }
      assert ChainShape(g.ops, k, g.chains[k], false);
      PendingCarries(g.chains, k);
      var c := chains[k];
      if c.pending.Some? {
        return Some(c.pending.value.op);
      }
      r := if c.inflight.None? then None else Some(c.inflight.value.op);
    }

    /** Settled at once when nothing is outstanding, otherwise one more waiter and no other change. */
    method Drain() returns (idle: bool)
      requires Valid()
      modifies this`drains, this`g, this`run
      ensures Valid() && Steps(old(g), QueueModel.Drain, g, maxBytes) && idle == (old(count) == 0)
      ensures drains == old(drains) + (if idle then 0 else 1) && g == old(g).(drains := drains)
    {
      hide QueueInv;
      hide Reached;
      hide Top;
      hide Queued;
      hide Finish;
      hide Send;
      hide Apply;
      ghost var s := g;
      g := Next(g, QueueModel.Drain, maxBytes);
      idle := count == 0;
      if !idle {
        drains := drains + 1;
      }
      Took(s, QueueModel.Drain);
    }

    method Shut()
      requires Valid()
      modifies this`closed, this`g, this`run
      ensures Valid() && Steps(old(g), QueueModel.Close, g, maxBytes)
    {
      hide QueueInv;
      hide Reached;
      hide Top;
      hide Queued;
      hide Finish;
      hide Send;
      hide Apply;
      ghost var s := g;
      g := Next(g, QueueModel.Close, maxBytes);
      closed := true;
      Took(s, QueueModel.Close);
    }
  }

  /** The settling of an attempt, verdict by verdict. */
  lemma SettlesIs(s: Queue, slot: Slot, maxBytes: nat)
    requires slot in s.chains && s.chains[slot].phase.Attempt? && s.chains[slot].inflight.Some?
    ensures !s.closed ==> Steps(s, Settles(slot, Retry), Rephased(s, slot, Backoff), maxBytes)
    ensures slot in Finish(s, slot, true).chains && slot in Finish(s, slot, false).chains
    ensures s.chains[slot].phase.landed ==>
              Steps(s, Settles(slot, Success), Top(Finish(s, slot, true), slot), maxBytes)
    ensures Steps(s, Settles(slot, Abandon), Top(Finish(s, slot, false), slot), maxBytes)
  {
    hide Top;
    hide Finish;
    FinishCounts(s, slot, true);
    FinishCounts(s, slot, false);
  }

  /** A push, by the kind of its chain. */
  lemma PushIs(s: Queue, slot: Slot, val: Option<string>, size: nat, maxBytes: nat)
    ensures Sheds(s, slot, size, maxBytes) ==> Steps(s, QueueModel.Push(slot, val, size), s, maxBytes)
    ensures !Sheds(s, slot, size, maxBytes) && slot in s.chains ==>
              Steps(s, QueueModel.Push(slot, val, size), Queued(s, slot, val, size), maxBytes)
    ensures slot in Queued(s, slot, val, size).chains
    ensures !Sheds(s, slot, size, maxBytes) && slot !in s.chains ==>
              Steps(s, QueueModel.Push(slot, val, size), Top(Queued(s, slot, val, size), slot), maxBytes)
  {
    hide Top;
    hide Queued;
    QueuedFlights(s, slot, val, size);
  }

  // -------------------------------------------------------------------- dropping, chain by chain

  ghost function Dropped(chains: map<Slot, Chain>, done: set<Slot>): map<Slot, Chain> {
    map k | k in chains :: if k in done && k in Unsent(chains) then chains[k].(pending := None) else chains[k]
  }

  ghost function IdsAmong(chains: map<Slot, Chain>, done: set<Slot>): set<nat> {
    set k | k in Unsent(chains) && k in done :: chains[k].pending.value.op.id
  }

  ghost function CoversAmong(chains: map<Slot, Chain>, done: set<Slot>): set<nat> {
    set k, i | k in Unsent(chains) && k in done && i in chains[k].pending.value.covers :: i
  }

  lemma NothingDropped(s: Queue)
    ensures Dropped(s.chains, {}) == s.chains && IdsAmong(s.chains, {}) == {} && CoversAmong(s.chains, {}) == {}
  {
  }

  lemma AllDropped(s: Queue, done: set<Slot>)
    requires done == s.chains.Keys
    ensures Dropped(s.chains, done) == Emptied(s.chains) && IdsAmong(s.chains, done) == UnsentIds(s.chains)
    ensures CoversAmong(s.chains, done) == UnsentCovers(s.chains)
    ensures CLEAR in s.chains ==> Emptied(s.chains)[CLEAR] == s.chains[CLEAR]
  {
  }

  lemma OneMoreDropped(s: Queue, r: Option<Slot>, done: set<Slot>, k: Slot)
    requires ShapeInv(s, r) && OutInv(s) && k in s.chains && k !in done
    ensures k !in Unsent(s.chains) ==>
              Dropped(s.chains, done + {k}) == Dropped(s.chains, done) &&
              IdsAmong(s.chains, done + {k}) == IdsAmong(s.chains, done) &&
              CoversAmong(s.chains, done + {k}) == CoversAmong(s.chains, done)
    ensures k in Unsent(s.chains) ==>
              var it := s.chains[k].pending.value;
              && Dropped(s.chains, done + {k}) == Dropped(s.chains, done)[k := s.chains[k].(pending := None)]
              && CoversAmong(s.chains, done + {k}) == CoversAmong(s.chains, done) + it.covers
              && |IdsAmong(s.chains, done + {k})| == |IdsAmong(s.chains, done)| + 1
              && Bytes(s.ops, IdsAmong(s.chains, done + {k})) == Bytes(s.ops, IdsAmong(s.chains, done)) + it.op.bytes
    ensures k in Dropped(s.chains, done) && Dropped(s.chains, done)[k] == s.chains[k]
  {
    hide ShapeInv;
    hide OutInv;
    hide Bytes;
    hide CoversAmong;
    CoversOfOneMore(s.chains, done, k);
    if k in Unsent(s.chains) {
      OneMoreId(s, r, done, k);
    }
  }

  lemma CoversOfOneMore(chains: map<Slot, Chain>, done: set<Slot>, k: Slot)
    ensures CoversAmong(chains, done + {k}) ==
            CoversAmong(chains, done) + if k in Unsent(chains) then chains[k].pending.value.covers else {}
  {
  }

  lemma OneMoreId(s: Queue, r: Option<Slot>, done: set<Slot>, k: Slot)
    requires ShapeInv(s, r) && OutInv(s) && k in Unsent(s.chains) && k !in done
    ensures var ids, it := IdsAmong(s.chains, done), s.chains[k].pending.value;
            && IdsAmong(s.chains, done + {k}) == ids + {it.op.id} && it.op.id !in ids
            && Bytes(s.ops, ids + {it.op.id}) == Bytes(s.ops, ids) + it.op.bytes
  {
    hide ShapeInv;
    hide OutInv;
    hide Bytes;
    hide Carries;
    var it, ids := s.chains[k].pending.value, IdsAmong(s.chains, done);
    ItemKnown(s, r, k);
    PendingCarries(s.chains, k);
    CarriedOnce(s, r, k, it.op.id);
    forall x | x in Unsent(s.chains) && x in done
      ensures s.chains[x].pending.value.op.id != it.op.id
    {
      PendingCarries(s.chains, x);
      CarriedOnce(s, r, x, s.chains[x].pending.value.op.id);
    }
    BytesOfSum(s.ops, ids, {it.op.id});
    BytesOfOne(s.ops, it.op.id);
  }

  /** What taking the pending slot does to the fields of the queue. */
  lemma Taken(s: Queue, slot: Slot, val: Option<string>, size: nat)
    ensures var a, op, prev := Accept(s, slot, val, size), Op(|s.ops|, slot, val, size), PendingOf(s.chains, slot);
            && |a.ops| == |s.ops| + 1
            && var t := Enqueue(a, slot);
            && |t.ops| == |s.ops| + 1 && t.clears == s.clears && t.gate == s.gate && t.onWire == s.onWire
            && t.closed == s.closed && t.drains == s.drains && t.settled == s.settled
            && t.chains == s.chains[slot := Taking(s.chains, slot, op)]
            && t.bytes == s.bytes + size - (if prev.Some? then prev.value.op.bytes else 0)
            && t.count == s.count + (if prev.Some? then 0 else 1)
  {
    hide Boss;
    hide Apply;
    hide Taking;
  }

  lemma TakingIs(chains: map<Slot, Chain>, slot: Slot, op: Op)
    ensures PendingOf(chains, slot).Some? ==>
              var c := chains[slot];
              Taking(chains, slot, op) == c.(pending := Some(Item(op, c.pending.value.covers + {op.id})))
    ensures PendingOf(chains, slot).None? ==>
              var c := if slot in chains then chains[slot] else Chain(None, None, NotRunning);
              Taking(chains, slot, op) == c.(pending := Some(Item(op, {op.id})))
  {
    assert CoversOf(None) + {op.id} == {op.id};
  }

  /** The state in the middle of pushing a clear. */
  lemma TakenKeeps(s: Queue, size: nat, maxBytes: nat)
    requires QueueInv(s, maxBytes)
    ensures var t := Enqueue(Accept(Hold(s), CLEAR, None, size), CLEAR);
            && ShapeInv(t, if CLEAR in s.chains then None else Some(CLEAR)) && OutInv(t)
            && CLEAR in t.chains && t.chains[CLEAR].pending.Some?
  {
    hide ShapeInv;
    hide OutInv;
    hide AccountInv;
    hide GateInv;
    hide WireInv;
    hide CoverInv;
    hide LandInv;
    hide ViewInv;
    hide Disarm;
    ReleaseShape(s, None);
    ReleaseShape(Arm(s), None);
    HoldOut(s);
    HoldFields(s);
    EnqueueShape(Hold(s), CLEAR, None, size);
    EnqueueOut(Hold(s), CLEAR, None, size);
    EnqueueFields(Accept(Hold(s), CLEAR, None, size), CLEAR);
  }

  /** A chain that attempts something, or is about to, has an operation in flight. */
  lemma InflightOf(s: Queue, slot: Slot, maxBytes: nat)
    requires QueueInv(s, maxBytes) && slot in s.chains
    requires (s.chains[slot].phase.Attempt? || s.chains[slot].phase.AtWire?)
    ensures s.chains[slot].inflight.Some?
  {
    hide OutInv;
    hide AccountInv;
    hide GateInv;
    hide WireInv;
    hide CoverInv;
    hide LandInv;
    hide ViewInv;
    assert ChainShape(s.ops, slot, s.chains[slot], false);
  }
}
