/** The gate and the wire of the L3 queue: when a clear is outstanding, who waits for whom. */
module QueueBarrier {
  import opened QueueModel
  import opened QueueShape

  function ClearsOf(chains: map<Slot, Chain>): int {
    if CLEAR in chains
    then (if chains[CLEAR].pending.Some? then 1 else 0) + (if chains[CLEAR].inflight.Some? then 1 else 0)
    else 0
  }

  /** The gate is armed exactly while a clear is outstanding, and who waits for it waits for something. */
  ghost predicate GateInv(s: Queue) {
    && (s.gate <==> s.clears > 0) && s.clears == ClearsOf(s.chains)
    && forall k | k in s.chains :: s.chains[k].phase == Gated(false) ==> s.gate
  }

  /** Where the run loop of the chain is; a chain that does not exist has none. */
  function PhaseOf(chains: map<Slot, Chain>, k: Slot): Phase {
    if k in chains then chains[k].phase else NotRunning
  }

  predicate OnWire(p: Phase) {
    p.Attempt? || p.Backoff?
  }

  /** While a clear is on the wire nothing else is; a clear waits exactly as long as something is. */
  ghost predicate WireInv(s: Queue) {
    && s.onWire == |s.wire|
    && (forall k :: k in s.wire <==> OnWire(PhaseOf(s.chains, k)))
    && (CLEAR in s.wire ==> s.wire == {CLEAR})
    && (PhaseOf(s.chains, CLEAR).AtWire? ==> (PhaseOf(s.chains, CLEAR).released <==> s.wire == {}))
  }

  // ------------------------------------------------------------------------------ gate

  lemma HoldGate(s: Queue)
    requires GateInv(s)
    ensures var h := Hold(s);
            && h.gate && h.clears == s.clears + (if PendingOf(s.chains, CLEAR).Some? then 0 else 1)
            && h == s.(clears := h.clears, gate := true)
  {
  }

  lemma QueuedGate(s: Queue, slot: Slot, val: Option<string>, bytes: nat)
    requires GateInv(s)
    ensures GateInv(Queued(s, slot, val, bytes))
  {
    hide Bytes;
    hide UnsentIds;
    hide UnsentCovers;
    hide Boss;
    hide Apply;
    hide Hold;
    HoldGate(s);
  }

  lemma TopGate(s: Queue, slot: Slot)
    requires GateInv(s) && ShapeInv(s, Some(slot))
    ensures GateInv(Top(s, slot))
  {
    hide ItemShape;
  }

  lemma LeaveChains(s: Queue, slot: Slot, it: Item)
    requires slot in s.chains && s.chains[slot].phase != NotRunning && s.chains[slot].inflight.Some?
    ensures var l := Leave(s, slot, it);
            && l.gate == s.gate && l.clears == s.clears && l.chains.Keys == s.chains.Keys
            && (forall k | k in s.chains :: l.chains[k].pending == s.chains[k].pending)
            && (forall k | k in s.chains && k != slot :: l.chains[k].inflight == s.chains[k].inflight)
            && l.chains[slot].inflight.None?
            && (forall k | k in s.chains && l.chains[k].phase == Gated(false) :: s.chains[k].phase == Gated(false))
  {
  }

  lemma FinishGate(s: Queue, slot: Slot, ok: bool)
    requires GateInv(s) && ShapeInv(s, None) && slot in s.chains && s.chains[slot].inflight.Some?
    ensures GateInv(Finish(s, slot, ok))
  {
    hide ItemShape;
    hide Leave;
    assert ChainShape(s.ops, slot, s.chains[slot], false);
    LeaveChains(s, slot, s.chains[slot].inflight.value);
  }

  // ------------------------------------------------------------------------------ wire

  /** The same phases up to waiting at the gate, and the same wire. */
  ghost predicate SameWire(s: Queue, s': Queue) {
    && s'.wire == s.wire && s'.onWire == s.onWire
    && forall k :: PhaseOf(s'.chains, k) == PhaseOf(s.chains, k) ||
                   (PhaseOf(s.chains, k).Gated? && PhaseOf(s'.chains, k).Gated?)
  }

  lemma SameWireKeeps(s: Queue, s': Queue)
    requires WireInv(s) && SameWire(s, s')
    ensures WireInv(s')
  {
    hide PhaseOf;
  }

  lemma QueuedWire(s: Queue, slot: Slot, val: Option<string>, bytes: nat)
    requires WireInv(s) && GateInv(s)
    ensures WireInv(Queued(s, slot, val, bytes))
  {
    hide WireInv;
    hide Bytes;
    hide UnsentIds;
    hide UnsentCovers;
    hide Unsent;
    hide CoversOf;
    hide IdsOf;
    hide Boss;
    hide Apply;
    hide Hold;
    HoldGate(s);
    SameWireKeeps(s, Queued(s, slot, val, bytes));
  }

  lemma SendWire(s: Queue, slot: Slot)
    requires slot in s.chains && s.chains[slot].inflight.Some? && slot !in s.wire
    requires s.onWire == |s.wire| && CLEAR !in s.wire && (slot == CLEAR ==> s.wire == {})
    requires forall k | k != slot :: k in s.wire <==> OnWire(PhaseOf(s.chains, k))
    requires slot != CLEAR ==> !PhaseOf(s.chains, CLEAR).AtWire?
    ensures WireInv(Send(s, slot))
  {
    hide OnWire;
    var s' := Send(s, slot);
    assert PhaseOf(s'.chains, slot) == Attempt(false);
    assert OnWire(Attempt(false)) by {
      OnWireIsSent(Attempt(false));
    }
    forall k
      ensures k in s'.wire <==> OnWire(PhaseOf(s'.chains, k))
    {
      if k != slot {
        assert PhaseOf(s'.chains, k) == PhaseOf(s.chains, k);
      }
    }
  }

  lemma OnWireIsSent(p: Phase)
    ensures OnWire(p) <==> p.Attempt? || p.Backoff?
  {
  }

  /** The operation of a key is claimed and sent. */
  lemma TopSends(s: Queue, slot: Slot)
    requires WireInv(s) && GateInv(s) && ShapeInv(s, Some(slot)) && !OnWire(s.chains[slot].phase)
    requires s.chains[slot].pending.Some? && slot != CLEAR && !s.gate
    ensures WireInv(Top(s, slot))
  {
    hide ItemShape;
    hide OnWire;
    hide GateInv;
    hide Send;
    var s1 := s.(chains := s.chains[slot := Chain(None, s.chains[slot].pending, AtWire(s.onWire == 0))]);
    assert slot !in s.wire by {
      assert PhaseOf(s.chains, slot) == s.chains[slot].phase;
    }
    NoClearNoGate(s, slot);
    assert forall k | k != slot :: PhaseOf(s1.chains, k) == PhaseOf(s.chains, k);
    SendWire(s1, slot);
  }

  /** The run loop ends or waits. */
  lemma TopStays(s: Queue, slot: Slot)
    requires WireInv(s) && GateInv(s) && ShapeInv(s, Some(slot)) && !OnWire(s.chains[slot].phase)
    requires s.chains[slot].pending.None? || slot == CLEAR || s.gate
    ensures WireInv(Top(s, slot))
  {
    hide ItemShape;
    hide OnWire;
    hide GateInv;
    hide Send;
    var s' := Top(s, slot);
    assert slot !in s.wire by {
      assert PhaseOf(s.chains, slot) == s.chains[slot].phase;
    }
    assert forall k | k != slot :: PhaseOf(s'.chains, k) == PhaseOf(s.chains, k);
    assert !OnWire(PhaseOf(s'.chains, slot)) by {
      OnWireIsSent(PhaseOf(s'.chains, slot));
    }
  }

  /** Nothing leaves for L3 while a clear is outstanding but the clear itself. */
  lemma TopWire(s: Queue, slot: Slot)
    requires WireInv(s) && GateInv(s) && ShapeInv(s, Some(slot)) && !OnWire(s.chains[slot].phase)
    ensures WireInv(Top(s, slot))
  {
    hide Top;
    hide WireInv;
    hide GateInv;
    if s.chains[slot].pending.Some? && slot != CLEAR && !s.gate {
      TopSends(s, slot);
    } else {
      TopStays(s, slot);
    }
  }

  lemma NoClearNoGate(s: Queue, slot: Slot)
    requires WireInv(s) && GateInv(s) && ShapeInv(s, Some(slot)) && !s.gate && slot != CLEAR
    ensures CLEAR !in s.chains && CLEAR !in s.wire
  {
    hide ItemShape;
  }

  lemma SendClearWire(s: Queue)
    requires WireInv(s) && CLEAR in s.chains && s.chains[CLEAR].phase == AtWire(true) && s.chains[CLEAR].inflight.Some?
    ensures WireInv(Send(s, CLEAR))
  {
    hide Send;
    SendWire(s, CLEAR);
  }

  lemma LeaveWire(s: Queue, slot: Slot, it: Item)
    requires WireInv(s) && slot in s.chains && OnWire(s.chains[slot].phase)
    ensures WireInv(Leave(s, slot, it))
  {
    var s' := Leave(s, slot, it);
    assert slot in s.wire by {
      assert OnWire(PhaseOf(s.chains, slot));
    }
    assert forall k | k != slot && k != CLEAR :: PhaseOf(s'.chains, k) == PhaseOf(s.chains, k);
  }

  lemma DisarmWire(s: Queue)
    ensures SameWire(s, Disarm(s))
  {
    hide Disarm;
    DisarmFields(s);
    DisarmPhases(s);
  }

  lemma FinishWire(s: Queue, slot: Slot, ok: bool)
    requires WireInv(s) && slot in s.chains && s.chains[slot].inflight.Some? && OnWire(s.chains[slot].phase)
    ensures WireInv(Finish(s, slot, ok))
  {
    hide WireInv;
    hide Leave;
    hide OnWire;
    hide Disarm;
    hide PhaseOf;
    var it := s.chains[slot].inflight.value;
    LeaveWire(s, slot, it);
    DisarmWire(Leave(s, slot, it));
    SameWireKeeps(Leave(s, slot, it), Finish(s, slot, ok));
  }
}
