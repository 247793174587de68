/** The shape of the L3 queue's chains: what every step keeps about the operations in them. */
module QueueShape {
  import opened QueueModel

  ghost predicate ItemShape(ops: seq<Op>, k: Slot, it: Item) {
    it.op.id < |ops| && ops[it.op.id] == it.op && it.op.slot == k && it.op.id in it.covers
  }

  predicate PhaseShape(k: Slot, c: Chain) {
    match c.phase
    case NotRunning => false
    case Gated(_) => c.inflight.None? && k != CLEAR
    case AtWire(_) => c.inflight.Some? && k == CLEAR
    case Attempt(_) => c.inflight.Some?
    case Backoff => c.inflight.Some?
  }

  /** A chain; `running` when its run loop is at its head, inside a step. */
  ghost predicate ChainShape(ops: seq<Op>, k: Slot, c: Chain, running: bool) {
    && (c.pending.Some? ==> ItemShape(ops, k, c.pending.value))
    && (c.inflight.Some? ==> ItemShape(ops, k, c.inflight.value))
    && (c.pending.Some? && c.inflight.Some? ==> c.inflight.value.op.id < c.pending.value.op.id)
    && if running then c.inflight.None? else PhaseShape(k, c)
  }

  ghost predicate ShapeInv(s: Queue, run: Option<Slot>) {
    && |s.boss| == |s.ops| && (forall i | 0 <= i < |s.ops| :: s.ops[i].id == i)
    && (run.Some? ==> run.value in s.chains)
    && forall k | k in s.chains :: ChainShape(s.ops, k, s.chains[k], run == Some(k))
  }

  lemma MoreOps(ops: seq<Op>, op: Op, k: Slot, c: Chain, running: bool)
    requires ChainShape(ops, k, c, running)
    ensures ChainShape(ops + [op], k, c, running)
  {
  }

  /** The chain of the push takes the new operation. */
  lemma EnqueueShape(s: Queue, slot: Slot, val: Option<string>, bytes: nat)
    requires ShapeInv(s, None)
    ensures ShapeInv(Enqueue(Accept(s, slot, val, bytes), slot), if slot in s.chains then None else Some(slot))
  {
    hide Taking;
    hide ChainShape;
    var a := Accept(s, slot, val, bytes);
    var q := Enqueue(a, slot);
    var op := a.ops[|s.ops|];
    TakingShape(s, slot, op);
    forall k | k in q.chains && k != slot
      ensures ChainShape(q.ops, k, q.chains[k], false)
    {
      MoreOps(s.ops, op, k, s.chains[k], false);
    }
  }

  lemma TakingShape(s: Queue, slot: Slot, op: Op)
    requires ShapeInv(s, None) && op.id == |s.ops| && op.slot == slot
    ensures ChainShape(s.ops + [op], slot, Taking(s.chains, slot, op), slot !in s.chains)
  {
    hide ItemShape;
    var c := Taking(s.chains, slot, op);
    NewItemShape(s.ops + [op], op, c.pending.value);
    if slot in s.chains {
      MoreOps(s.ops, op, slot, s.chains[slot], false);
      if c.inflight.Some? {
        SmallerId(s.ops, slot, c.inflight.value);
      }
    }
  }

  lemma NewItemShape(ops: seq<Op>, op: Op, it: Item)
    requires op.id < |ops| && ops[op.id] == op && it.op == op && op.id in it.covers
    ensures ItemShape(ops, op.slot, it)
  {
  }

  lemma SmallerId(ops: seq<Op>, k: Slot, it: Item)
    requires ItemShape(ops, k, it)
    ensures it.op.id < |ops|
  {
  }

  /** Only phases at the gate differ. */
  lemma DisarmFields(s: Queue)
    ensures var d := Disarm(s);
            && d == s.(chains := d.chains, clears := d.clears, gate := d.gate) && d.chains.Keys == s.chains.Keys
            && forall k | k in s.chains :: d.chains[k] == s.chains[k].(phase := d.chains[k].phase)
  {
  }

  lemma DisarmPhases(s: Queue)
    ensures var d := Disarm(s);
            && d.chains.Keys == s.chains.Keys
            && forall k | k in s.chains ::
                 d.chains[k].phase == s.chains[k].phase || (d.chains[k].phase.Gated? && s.chains[k].phase.Gated?)
  {
  }

  /** What concerns only counters, gate and phases at the gate keeps the shape. */
  lemma ReleaseShape(s: Queue, run: Option<Slot>)
    requires ShapeInv(s, run) && (run.Some? ==> s.chains[run.value].phase.NotRunning?)
    ensures ShapeInv(Disarm(s), run) && ShapeInv(Arm(s), run)
  {
    hide ItemShape;
    hide Disarm;
    DisarmFields(s);
    DisarmPhases(s);
  }

  lemma SweepShape(s: Queue, run: Option<Slot>)
    requires ShapeInv(s, run) && CLEAR in s.chains && s.chains[CLEAR].pending.Some?
    ensures ShapeInv(Sweep(s), run)
  {
    hide ItemShape;
    hide Bytes;
    hide UnsentCovers;
    hide UnsentIds;
    var c := s.chains[CLEAR].pending.value;
    var covers := c.covers + UnsentCovers(s.chains);
    assert ItemShape(s.ops, CLEAR, Item(c.op, covers)) by {
      WiderShape(s.ops, CLEAR, c, covers);
    }
  }

  lemma WiderShape(ops: seq<Op>, k: Slot, it: Item, covers: set<nat>)
    requires ItemShape(ops, k, it) && it.covers <= covers
    ensures ItemShape(ops, k, Item(it.op, covers))
  {
  }

  lemma QueuedShape(s: Queue, slot: Slot, val: Option<string>, bytes: nat)
    requires ShapeInv(s, None)
    ensures ShapeInv(Queued(s, slot, val, bytes), if slot in s.chains then None else Some(slot))
  {
    hide ShapeInv;
    if slot == CLEAR {
      ReleaseShape(s, None);
      ReleaseShape(Arm(s), None);
      EnqueueShape(Hold(s), slot, val, bytes);
      SweepShape(Enqueue(Accept(Hold(s), CLEAR, val, bytes), CLEAR), if slot in s.chains then None else Some(slot));
    } else {
      EnqueueShape(s, slot, val, bytes);
    }
  }

  lemma TopShape(s: Queue, slot: Slot)
    requires ShapeInv(s, Some(slot))
    ensures ShapeInv(Top(s, slot), None)
  {
    hide ItemShape;
  }

  lemma LeaveShape(s: Queue, slot: Slot, it: Item)
    requires ShapeInv(s, None) && slot in s.chains
    ensures ShapeInv(Leave(s, slot, it), Some(slot)) && Leave(s, slot, it).chains[slot].phase.NotRunning?
  {
    hide ItemShape;
    var chains := s.chains[slot := s.chains[slot].(inflight := None, phase := NotRunning)];
    var chains' := Leave(s, slot, it).chains;
    forall k | k in chains'
      ensures ChainShape(s.ops, k, chains'[k], k == slot)
    {
      assert ChainShape(s.ops, k, s.chains[k], false);
      assert chains'[k] == chains[k] || chains'[k] == chains[k].(phase := AtWire(true));
    }
  }

  lemma FinishShape(s: Queue, slot: Slot, ok: bool)
    requires ShapeInv(s, None) && slot in s.chains && s.chains[slot].inflight.Some?
    ensures ShapeInv(Finish(s, slot, ok), Some(slot))
  {
    hide ChainShape;
    hide Leave;
    hide Disarm;
    var it := s.chains[slot].inflight.value;
    LeaveShape(s, slot, it);
    ReleaseShape(Leave(s, slot, it), Some(slot));
  }

  /** What the head of the run loop does to the chains, and what it leaves alone. */
  lemma TopParts(s: Queue, slot: Slot)
    requires slot in s.chains
    ensures Top(s, slot).store == s.store && Top(s, slot).settled == s.settled
    ensures var c, chains := s.chains[slot], Top(s, slot).chains;
            if c.pending.None? then chains == s.chains - {slot}
            else if slot != CLEAR && s.gate then chains == s.chains[slot := c.(phase := Gated(false))]
            else slot in chains && chains == s.chains[slot := chains[slot]] &&
                 chains[slot].pending.None? && chains[slot].inflight == c.pending
  {
  }
}
