/** The clear barrier over whole runs: the order in which operations are sent to L3 and settled. */
module QueueLog {
  import opened QueueModel
  import opened QueueShape
  import opened QueueBarrier
  import opened QueueAccounts
  import opened QueueCovers
  import opened QueueStore

  function SentIds(log: seq<Event>): set<nat> {
    if log == [] then {}
    else SentIds(log[..|log| - 1]) + if log[|log| - 1].Sent? then {log[|log| - 1].id} else {}
  }

  function SettledIds(log: seq<Event>): set<nat> {
    if log == [] then {}
    else SettledIds(log[..|log| - 1]) + if log[|log| - 1].Settled? then log[|log| - 1].ids else {}
  }

  predicate IsClear(ops: seq<Op>, i: nat) {
    i < |ops| && ops[i].slot == CLEAR
  }

  /** What holds when x is sent: whatever was sent before it, if one of the two is a clear, was pushed
      before it and is settled; and if x is not a clear, every clear pushed before x is settled. */
  ghost predicate MaySend(ops: seq<Op>, log: seq<Event>, x: nat) {
    && (forall y | y in SentIds(log) && (IsClear(ops, x) || IsClear(ops, y)) :: y < x && y in SettledIds(log))
    && (!IsClear(ops, x) ==> forall c: nat | c < x && IsClear(ops, c) :: c in SettledIds(log))
  }

  ghost predicate Barrier(ops: seq<Op>, log: seq<Event>) {
    log == [] ||
    (Barrier(ops, log[..|log| - 1]) && (log[|log| - 1].Sent? ==> MaySend(ops, log[..|log| - 1], log[|log| - 1].id)))
  }

  /** Operation y is on the wire. */
  ghost predicate Flying(s: Queue, y: nat) {
    && y < |s.ops| && s.ops[y].slot in s.chains && OnWire(s.chains[s.ops[y].slot].phase)
    && s.chains[s.ops[y].slot].inflight.Some? && s.chains[s.ops[y].slot].inflight.value.op.id == y
  }

  ghost predicate SentInv(s: Queue) {
    && s.settled.Keys == SettledIds(s.log)
    && (forall y | y in SentIds(s.log) :: y < |s.ops| && (y in s.settled || Flying(s, y)))
  }

  /** A clear that has not been sent is younger than everything that has. */
  ghost predicate YoungClears(s: Queue) {
    CLEAR in s.chains ==>
      && (s.chains[CLEAR].pending.Some? ==> forall y | y in SentIds(s.log) :: y < s.chains[CLEAR].pending.value.op.id)
      && (s.chains[CLEAR].inflight.Some? && !OnWire(s.chains[CLEAR].phase) ==>
            forall y | y in SentIds(s.log) :: y < s.chains[CLEAR].inflight.value.op.id)
  }

  /** What is queued for a key is younger than every clear ever pushed. */
  ghost predicate YoungPending(s: Queue) {
    forall k | k in s.chains && k != CLEAR && s.chains[k].pending.Some? ::
      forall c: nat | IsClear(s.ops, c) :: c < s.chains[k].pending.value.op.id
  }

  ghost predicate LogInv(s: Queue) {
    Barrier(s.ops, s.log) && SentInv(s) && YoungClears(s) && YoungPending(s)
  }

  // ------------------------------------------------------------------------ more pushes

  lemma {:induction false} BarrierMoreOps(ops: seq<Op>, op: Op, log: seq<Event>)
    requires Barrier(ops, log) && forall y | y in SentIds(log) :: y < |ops|
    ensures Barrier(ops + [op], log)
  {
    if log != [] {
      var before := log[..|log| - 1];
      assert forall y | y in SentIds(before) :: y in SentIds(log);
      BarrierMoreOps(ops, op, before);
      if log[|log| - 1].Sent? {
        assert log[|log| - 1].id in SentIds(log);
        MaySendMoreOps(ops, op, before, log[|log| - 1].id);
      }
    }
  }

  lemma MaySendMoreOps(ops: seq<Op>, op: Op, log: seq<Event>, x: nat)
    requires MaySend(ops, log, x) && x < |ops| && forall y | y in SentIds(log) :: y < |ops|
    ensures MaySend(ops + [op], log, x)
  {
    hide SentIds;
    hide SettledIds;
    assert forall i: nat | i < |ops| :: IsClear(ops + [op], i) <==> IsClear(ops, i);
  }

  lemma QueuedLog(s: Queue, slot: Slot, val: Option<string>, bytes: nat)
    requires LogInv(s) && ShapeInv(s, None)
    ensures LogInv(Queued(s, slot, val, bytes))
  {
    hide Queued;
    hide Barrier;
    hide SentIds;
    hide SettledIds;
    hide YoungClears;
    hide YoungPending;
    hide SentInv;
    hide ShapeInv;
    var q := Queued(s, slot, val, bytes);
    QueuedFields(s, slot, val, bytes);
    QueuedFlights(s, slot, val, bytes);
    SentKnown(s);
    BarrierMoreOps(s.ops, Op(|s.ops|, slot, val, bytes), s.log);
    QueuedSent(s, q);
    QueuedYoungClears(s, slot, q);
    QueuedYoungPending(s, slot, q);
  }

  lemma SentKnown(s: Queue)
    requires SentInv(s)
    ensures forall y | y in SentIds(s.log) :: y < |s.ops|
  {
    hide Flying;
    hide SentIds;
  }

  lemma QueuedSent(s: Queue, q: Queue)
    requires SentInv(s) && q.settled == s.settled && q.log == s.log && |q.ops| == |s.ops| + 1
    requires q.ops[..|s.ops|] == s.ops
    requires Undisturbed(s.chains, q.chains)
    ensures SentInv(q)
  {
    hide SentIds;
    hide SettledIds;
    forall y | y in SentIds(q.log)
      ensures y < |q.ops| && (y in q.settled || Flying(q, y))
    {
      assert q.ops[y] == q.ops[..|s.ops|][y];
    }
  }

  lemma QueuedYoungClears(s: Queue, slot: Slot, q: Queue)
    requires SentInv(s) && YoungClears(s) && q.log == s.log && Undisturbed(s.chains, q.chains)
    requires q.chains.Keys == s.chains.Keys + {slot} && q.chains[slot].pending.Some?
    requires q.chains[slot].pending.value.op.id == |s.ops|
    requires slot != CLEAR ==> forall k | k in s.chains && k != slot :: q.chains[k] == s.chains[k]
    ensures YoungClears(q)
  {
    hide SentIds;
    hide SettledIds;
    hide Flying;
  }

  lemma QueuedYoungPending(s: Queue, slot: Slot, q: Queue)
    requires YoungPending(s) && |q.ops| == |s.ops| + 1 && q.ops[..|s.ops|] == s.ops && q.ops[|s.ops|].slot == slot
    requires q.chains.Keys == s.chains.Keys + {slot} && q.chains[slot].pending.Some?
    requires q.chains[slot].pending.value.op.id == |s.ops|
    requires slot == CLEAR ==> forall k | k in q.chains && k != CLEAR :: q.chains[k].pending.None?
    requires slot != CLEAR ==> forall k | k in s.chains && k != slot :: q.chains[k] == s.chains[k]
    ensures YoungPending(q)
  {
    forall k, c: nat | k in q.chains && k != CLEAR && q.chains[k].pending.Some? && IsClear(q.ops, c)
      ensures c < q.chains[k].pending.value.op.id
    {
      if c < |s.ops| {
        assert q.ops[c] == q.ops[..|s.ops|][c];
        assert IsClear(s.ops, c);
      }
    }
  }

  // ---------------------------------------------------------------------------- sending

  /** One more operation is sent. */
  lemma SendLog(ops: seq<Op>, log: seq<Event>, x: nat)
    requires Barrier(ops, log) && MaySend(ops, log, x)
    ensures Barrier(ops, log + [Sent(x)]) && SentIds(log + [Sent(x)]) == SentIds(log) + {x}
    ensures SettledIds(log + [Sent(x)]) == SettledIds(log)
  {
    assert (log + [Sent(x)])[..|log|] == log;
  }

  lemma UnsettledClear(s: Queue, c: nat)
    requires BossInv(s) && OutInv(s) && IsClear(s.ops, c) && c !in s.settled
    ensures CLEAR in s.chains
  {
    assert StandsFor(s.ops, s.boss[c], c);
    assert Carries(s.chains, s.ops[s.boss[c]].slot, s.boss[c]);
  }

  /** With the gate down every clear that was ever pushed is settled. */
  lemma ClearsSettled(s: Queue, c: nat)
    requires BossInv(s) && OutInv(s) && CLEAR !in s.chains && IsClear(s.ops, c)
    ensures c in s.settled
  {
    if c !in s.settled {
      UnsettledClear(s, c);
    }
  }

  /** A key's operation may be sent when no clear is outstanding. */
  lemma KeyMaySend(s: Queue, slot: Slot)
    requires LogInv(s) && BossInv(s) && OutInv(s) && CLEAR !in s.chains && slot != CLEAR
    requires slot in s.chains && s.chains[slot].pending.Some?
    requires var x := s.chains[slot].pending.value.op.id; x < |s.ops| && s.ops[x].slot == slot
    ensures MaySend(s.ops, s.log, s.chains[slot].pending.value.op.id)
  {
    hide BossInv;
    hide OutInv;
    hide Barrier;
    hide SentIds;
    hide SettledIds;
    hide Flying;
    var x := s.chains[slot].pending.value.op.id;
    forall c: nat | IsClear(s.ops, c)
      ensures c in s.settled
    {
      ClearsSettled(s, c);
    }
  }

  lemma FlyingOnWire(s: Queue, y: nat)
    requires WireInv(s) && Flying(s, y)
    ensures s.ops[y].slot in s.wire
  {
    assert OnWire(PhaseOf(s.chains, s.ops[y].slot));
  }

  /** A clear may be sent when the wire is empty. */
  lemma ClearMaySend(s: Queue)
    requires LogInv(s) && WireInv(s) && CLEAR in s.chains && s.chains[CLEAR].phase == AtWire(true)
    requires s.chains[CLEAR].inflight.Some?
    requires var x := s.chains[CLEAR].inflight.value.op.id; x < |s.ops| && s.ops[x].slot == CLEAR
    ensures MaySend(s.ops, s.log, s.chains[CLEAR].inflight.value.op.id)
  {
    hide Barrier;
    hide SentIds;
    hide SettledIds;
    hide YoungPending;
    assert s.wire == {} by {
      assert PhaseOf(s.chains, CLEAR) == AtWire(true);
    }
    forall y | y in SentIds(s.log)
      ensures y in s.settled
    {
      if Flying(s, y) {
        FlyingOnWire(s, y);
      }
    }
  }

  /** Steps that send and settle nothing. */
  lemma QuietLog(s: Queue, s': Queue)
    requires LogInv(s) && s'.ops == s.ops && s'.log == s.log && s'.settled == s.settled
    requires forall y | Flying(s, y) :: Flying(s', y)
    requires YoungClears(s') && YoungPending(s')
    ensures LogInv(s')
  {
    hide Barrier;
    hide SentIds;
    hide SettledIds;
    hide Flying;
    hide YoungClears;
    hide YoungPending;
  }

  /** A chain that is not on the wire changes without sending anything. */
  lemma OneChainQuiet(s: Queue, s': Queue, slot: Slot)
    requires LogInv(s) && s'.ops == s.ops && s'.log == s.log && s'.settled == s.settled
    requires slot in s.chains && !OnWire(s.chains[slot].phase)
    requires forall k | k in s.chains && k != slot :: k in s'.chains && s'.chains[k] == s.chains[k]
    requires YoungClears(s') && YoungPending(s')
    ensures LogInv(s')
  {
    hide Barrier;
    hide SentIds;
    hide SettledIds;
    hide YoungClears;
    hide YoungPending;
    QuietLog(s, s');
  }

  lemma TopLog(s: Queue, slot: Slot)
    requires LogInv(s) && ShapeInv(s, Some(slot)) && GateInv(s) && BossInv(s) && OutInv(s)
    requires !OnWire(s.chains[slot].phase)
    ensures LogInv(Top(s, slot))
  {
    hide LogInv;
    hide ShapeInv;
    hide GateInv;
    hide BossInv;
    hide OutInv;
    hide OnWire;
    hide Send;
    RunningShape(s, slot);
    var c := s.chains[slot];
    if c.pending.Some? && slot != CLEAR && !s.gate {
      NoClearWithoutGate(s, slot);
      KeyTopLog(s, slot);
    } else {
      QuietTop(s, slot);
    }
  }

  lemma RunningShape(s: Queue, slot: Slot)
    requires ShapeInv(s, Some(slot))
    ensures slot in s.chains && s.chains[slot].inflight.None?
    ensures s.chains[slot].pending.Some? ==>
              var op := s.chains[slot].pending.value.op; op.id < |s.ops| && s.ops[op.id] == op && op.slot == slot
  {
    assert ChainShape(s.ops, slot, s.chains[slot], true);
  }

  lemma NoClearWithoutGate(s: Queue, slot: Slot)
    requires GateInv(s) && ShapeInv(s, Some(slot)) && !s.gate && slot != CLEAR
    ensures CLEAR !in s.chains
  {
    hide ItemShape;
  }

  lemma QuietTop(s: Queue, slot: Slot)
    requires LogInv(s) && slot in s.chains && s.chains[slot].inflight.None? && !OnWire(s.chains[slot].phase)
    requires s.chains[slot].pending.None? || slot == CLEAR || s.gate
    ensures LogInv(Top(s, slot))
  {
    hide Barrier;
    hide SentIds;
    hide SettledIds;
    hide SentInv;
    OneChainQuiet(s, Top(s, slot), slot);
  }

  lemma KeyTopLog(s: Queue, slot: Slot)
    requires LogInv(s) && BossInv(s) && OutInv(s) && CLEAR !in s.chains && slot != CLEAR && !s.gate
    requires slot in s.chains && s.chains[slot].pending.Some? && !OnWire(s.chains[slot].phase)
    requires var op := s.chains[slot].pending.value.op; op.id < |s.ops| && s.ops[op.id] == op && op.slot == slot
    ensures LogInv(Top(s, slot))
  {
    hide BossInv;
    hide OutInv;
    hide Barrier;
    hide SentIds;
    hide SettledIds;
    hide IsClear;
    var x, t := s.chains[slot].pending.value.op.id, Top(s, slot);
    KeyMaySend(s, slot);
    SendLog(s.ops, s.log, x);
    assert t.log == s.log + [Sent(x)];
    forall y | y in SentIds(t.log)
      ensures y < |t.ops| && (y in t.settled || Flying(t, y))
    {
      if y != x && Flying(s, y) {
        assert s.ops[y].slot != slot;
      }
    }
  }

  lemma SendClearLog(s: Queue)
    requires LogInv(s) && WireInv(s) && ShapeInv(s, None) && CLEAR in s.chains && s.chains[CLEAR].phase == AtWire(true)
    requires s.chains[CLEAR].inflight.Some?
    ensures LogInv(Send(s, CLEAR))
  {
    hide WireInv;
    hide Barrier;
    hide SentIds;
    hide SettledIds;
    hide IsClear;
    var x, t := s.chains[CLEAR].inflight.value.op.id, Send(s, CLEAR);
    assert ChainShape(s.ops, CLEAR, s.chains[CLEAR], false);
    ClearMaySend(s);
    SendLog(s.ops, s.log, x);
    forall y | y in SentIds(t.log)
      ensures y < |t.ops| && (y in t.settled || Flying(t, y))
    {
      if y != x && Flying(s, y) {
        assert s.ops[y].slot != CLEAR;
      }
    }
  }

  lemma SettleLog(ops: seq<Op>, log: seq<Event>, ids: set<nat>, ok: bool)
    requires Barrier(ops, log)
    ensures Barrier(ops, log + [Settled(ids, ok)]) && SentIds(log + [Settled(ids, ok)]) == SentIds(log)
    ensures SettledIds(log + [Settled(ids, ok)]) == SettledIds(log) + ids
  {
    assert (log + [Settled(ids, ok)])[..|log|] == log;
  }

  lemma FinishLog(s: Queue, slot: Slot, ok: bool)
    requires LogInv(s) && ShapeInv(s, None) && slot in s.chains && s.chains[slot].inflight.Some?
    requires OnWire(s.chains[slot].phase)
    ensures LogInv(Finish(s, slot, ok))
  {
    hide Finish;
    hide Barrier;
    hide SentIds;
    hide SettledIds;
    hide IsClear;
    hide ShapeInv;
    var it, f := s.chains[slot].inflight.value, Finish(s, slot, ok);
    FinishSame(s, slot, ok);
    FinishFields(s, slot, ok);
    SettleLog(s.ops, s.log, it.covers, ok);
    FinishSent(s, slot, it, f);
    FinishYoung(s, slot, f);
  }

  lemma FinishSent(s: Queue, slot: Slot, it: Item, f: Queue)
    requires SentInv(s) && ShapeInv(s, None) && slot in s.chains && s.chains[slot].inflight == Some(it)
    requires f.ops == s.ops && f.settled.Keys == s.settled.Keys + it.covers && f.chains.Keys == s.chains.Keys
    requires SentIds(f.log) == SentIds(s.log) && SettledIds(f.log) == SettledIds(s.log) + it.covers
    requires forall k | k in s.chains && k != slot :: f.chains[k].inflight == s.chains[k].inflight
    requires forall k | k in s.chains && k != slot && OnWire(s.chains[k].phase) ::
               f.chains[k].phase == s.chains[k].phase
    ensures SentInv(f)
  {
    hide SentIds;
    hide SettledIds;
    hide OnWire;
    assert ChainShape(s.ops, slot, s.chains[slot], false);
    forall y | y in SentIds(f.log)
      ensures y < |f.ops| && (y in f.settled || Flying(f, y))
    {
    }
  }

  lemma FinishYoung(s: Queue, slot: Slot, f: Queue)
    requires YoungClears(s) && YoungPending(s) && f.ops == s.ops && f.chains.Keys == s.chains.Keys && slot in s.chains
    requires SentIds(f.log) == SentIds(s.log)
    requires forall k | k in s.chains :: f.chains[k].pending == s.chains[k].pending
    requires forall k | k in s.chains :: f.chains[k].inflight == if k == slot then None else s.chains[k].inflight
    requires forall k | k in s.chains && k != slot :: OnWire(f.chains[k].phase) <==> OnWire(s.chains[k].phase)
    ensures YoungClears(f) && YoungPending(f)
  {
    hide SentIds;
    hide IsClear;
    hide OnWire;
  }
}
