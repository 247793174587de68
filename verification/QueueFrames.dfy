/** What single steps of the queue leave alone, and what follows over runs: who waits for a drain, which pushes
    were accepted, what the log holds and how often an operation was abandoned. */
module QueueFrames {
  import opened QueueModel
  import opened QueueShape
  import opened QueueBarrier
  import opened QueueAccounts
  import opened QueueCovers
  import opened QueueStore
  import opened QueueLog
  import opened QueueRuns
  import opened QueueTheorems

  // ------------------------------------------------------------------------ single steps

  /** What a push that is not turned away adds to the accepted ones. */
  function Newly(s: Queue, a: Step, maxBytes: nat): seq<Op> {
    if a.Push? && (a.slot == CLEAR || s.bytes + a.bytes <= maxBytes) then [Op(|s.ops|, a.slot, a.val, a.bytes)] else []
  }

  lemma QueuedKeeps(s: Queue, slot: Slot, val: Option<string>, bytes: nat)
    ensures var q := Queued(s, slot, val, bytes);
            && q.drains == s.drains && q.closed == s.closed && q.failed == s.failed && q.log == s.log
            && q.ops == s.ops + [Op(|s.ops|, slot, val, bytes)] && q.landed == s.landed
  {
    hide Apply;
    hide Enqueue;
    hide Sweep;
    hide Hold;
    HoldFields(s);
    EnqueueFields(Accept(s, slot, val, bytes), slot);
    EnqueueFields(Accept(Hold(s), slot, val, bytes), slot);
    if slot == CLEAR {
      SweepFields(Enqueue(Accept(Hold(s), slot, val, bytes), slot));
    }
  }

  lemma FinishKeeps(s: Queue, slot: Slot, ok: bool)
    requires slot in s.chains && s.chains[slot].inflight.Some?
    ensures var f := Finish(s, slot, ok);
            && f.drains == (if f.count == 0 then 0 else s.drains) && f.closed == s.closed && f.ops == s.ops
            && f.failed == (if ok then s.failed else s.failed + 1) && f.landed == s.landed
  {
    hide Leave;
    hide Disarm;
    var it := s.chains[slot].inflight.value;
    LeaveFields(s, slot, it);
    DisarmFields(Leave(s, slot, it));
  }

  lemma TopKeeps(s: Queue, slot: Slot)
    requires slot in s.chains
    ensures var t := Top(s, slot);
            && t.drains == s.drains && t.closed == s.closed && t.ops == s.ops && t.failed == s.failed
            && t.count == s.count && t.landed == s.landed
  {
  }

  lemma StepFrame(s: Queue, a: Step, maxBytes: nat)
    requires Enabled(s, a)
    ensures var n := Next(s, a, maxBytes);
            && n.ops == s.ops + Newly(s, a, maxBytes)
            && n.closed == (s.closed || a.Close?)
            && n.failed == s.failed + (if a.Settles? && a.verdict == Abandon then 1 else 0)
            && n.landed == s.landed + (if a.Lands? then {s.chains[a.slot].inflight.value.op.id} else {})
            && n.drains == if a.Drain? && s.count != 0 then s.drains + 1
                           else if a.Settles? && a.verdict != Retry && n.count == 0 then 0 else s.drains
  {
    hide Queued;
    hide Finish;
    hide Top;
    match a
    case Push(slot, val, bytes) =>
      QueuedKeeps(s, slot, val, bytes);
      TopKeeps(Queued(s, slot, val, bytes), slot);
    case GateWake(slot) => TopKeeps(s, slot);
    case Settles(slot, v) =>
      FinishKeeps(s, slot, v == Success);
      TopKeeps(Finish(s, slot, v == Success), slot);
    case _ =>
  }

  // --------------------------------------------------------------------- waiting for the drain

  /** A WAITER KEEPS WAITING. A step wakes those who wait for the drain only when it leaves nothing
      outstanding, and a drain of a busy queue adds exactly one of them. */
  lemma OnlyEmptyWakes(s: Queue, a: Step, maxBytes: nat)
    requires QueueInv(s, maxBytes) && Enabled(s, a)
    ensures Next(s, a, maxBytes).drains < s.drains ==> Next(s, a, maxBytes).count == 0
    ensures a.Drain? ==> Next(s, a, maxBytes) == if s.count == 0 then s else s.(drains := s.drains + 1)
  {
    hide Next;
    StepFrame(s, a, maxBytes);
    if a.Drain? {
      DrainIs(s, maxBytes);
    }
  }

  lemma DrainIs(s: Queue, maxBytes: nat)
    ensures Next(s, Drain, maxBytes) == if s.count == 0 then s else s.(drains := s.drains + 1)
  {
  }

  function Drains(run: seq<Step>): nat {
    if run == [] then 0 else (if run[0].Drain? then 1 else 0) + Drains(run[1..])
  }

  /** Something is outstanding after every step of the run. */
  ghost predicate Busy(s: Queue, run: seq<Step>, maxBytes: nat)
    requires LegalRun(s, run, maxBytes)
    decreases |run|
  {
    run == [] || (Next(s, run[0], maxBytes).count != 0 && Busy(Next(s, run[0], maxBytes), run[1..], maxBytes))
  }

  /** While something is outstanding nobody who waits for the drain is woken, and each drain adds one. */
  lemma {:induction false} WaitersWait(s: Queue, run: seq<Step>, maxBytes: nat)
    requires QueueInv(s, maxBytes) && LegalRun(s, run, maxBytes) && Busy(s, run, maxBytes)
    ensures Run(s, run, maxBytes).drains == s.drains + Drains(run)
    decreases |run|
  {
    hide QueueInv;
    hide Enabled;
    hide Next;
    if run != [] {
      OnlyEmptyWakes(s, run[0], maxBytes);
      StepFrame(s, run[0], maxBytes);
      StepKeepsInv(s, run[0], maxBytes);
      WaitersWait(Next(s, run[0], maxBytes), run[1..], maxBytes);
    }
  }

  /** THE WAITERS. Those who wait for the drain are exactly the drains since the queue was last empty: none has
      been woken while something was outstanding, and none waits once nothing is. */
  lemma WaitersAreTheDrains(store: map<string, string>, s: Queue, before: seq<Step>, run: seq<Step>, maxBytes: nat)
    requires Reached(store, s, before, maxBytes) && s.count == 0
    requires LegalRun(s, run, maxBytes) && Busy(s, run, maxBytes)
    ensures s.drains == 0 && Run(s, run, maxBytes).drains == Drains(run)
  {
    hide QueueInv;
    hide Reached;
    ReachedIsValid(store, s, before, maxBytes);
    DrainOnlyIfBusy(s, maxBytes);
    WaitersWait(s, run, maxBytes);
  }

  // --------------------------------------------------------------------------- accepted pushes

  /** The pushes of a run that are not turned away, numbered on from those of s. */
  ghost function Accepted(s: Queue, run: seq<Step>, maxBytes: nat): seq<Op>
    requires LegalRun(s, run, maxBytes)
    decreases |run|
  {
    if run == [] then []
    else Newly(s, run[0], maxBytes) + Accepted(Next(s, run[0], maxBytes), run[1..], maxBytes)
  }

  lemma {:induction false} RunAccepts(s: Queue, run: seq<Step>, maxBytes: nat)
    requires LegalRun(s, run, maxBytes)
    ensures Run(s, run, maxBytes).ops == s.ops + Accepted(s, run, maxBytes)
    decreases |run|
  {
    hide Enabled;
    hide Next;
    hide Newly;
    if run == [] {
      assert s.ops + [] == s.ops;
    } else {
      StepFrame(s, run[0], maxBytes);
      RunAccepts(Next(s, run[0], maxBytes), run[1..], maxBytes);
    }
  }

  /** NO PUSH IS LOST. What the queue accounts for is every push of the run, in order, except those of keys that
      would have gone beyond maxBytes; a closed queue is one that was told to close. */
  lemma OpsAreThePushes(store: map<string, string>, s: Queue, run: seq<Step>, maxBytes: nat)
    requires Reached(store, s, run, maxBytes)
    ensures s.ops == Accepted(Start(store), run, maxBytes)
    ensures s.closed <==> Close in run
  {
    hide Accepted;
    RunAccepts(Start(store), run, maxBytes);
    RunCloses(Start(store), run, maxBytes);
  }

  lemma {:induction false} RunCloses(s: Queue, run: seq<Step>, maxBytes: nat)
    requires LegalRun(s, run, maxBytes)
    ensures Run(s, run, maxBytes).closed <==> s.closed || Close in run
    decreases |run|
  {
    hide Enabled;
    hide Next;
    if run != [] {
      StepFrame(s, run[0], maxBytes);
      RunCloses(Next(s, run[0], maxBytes), run[1..], maxBytes);
    }
  }

  // ------------------------------------------------------------------------------- the log

  /** How many settlements of the log are of abandoned operations. */
  function Abandoned(log: seq<Event>): nat {
    if log == [] then 0
    else Abandoned(log[..|log| - 1]) + if log[|log| - 1].Settled? && !log[|log| - 1].ok then 1 else 0
  }

  lemma {:induction false} MoreSends(log: seq<Event>, more: seq<Event>)
    requires OnlySends(log, more)
    ensures Abandoned(more) == Abandoned(log) && SentIds(log) <= SentIds(more)
    decreases |more|
  {
    if |more| == |log| {
      assert more == log;
    } else {
      assert more[..|more| - 1][..|log|] == log;
      MoreSends(log, more[..|more| - 1]);
    }
  }

  lemma OneMoreEvent(log: seq<Event>, t: seq<Event>)
    requires |t| <= 1 && forall e | e in t :: e.Settled?
    ensures Abandoned(log + t) == Abandoned(log) + (if t != [] && !t[0].ok then 1 else 0)
    ensures SentIds(log + t) == SentIds(log)
  {
    if t == [] {
      assert log + t == log;
    } else {
      assert (log + t)[..|log + t| - 1] == log;
    }
  }

  lemma StepLog(s: Queue, a: Step, maxBytes: nat)
    requires Enabled(s, a) && s.failed == Abandoned(s.log)
    ensures Next(s, a, maxBytes).failed == Abandoned(Next(s, a, maxBytes).log)
    ensures SentIds(s.log) <= SentIds(Next(s, a, maxBytes).log)
  {
    hide Next;
    StepFrame(s, a, maxBytes);
    NextLog(s, a, maxBytes);
    OneMoreEvent(s.log, Settlement(s, a));
    MoreSends(s.log + Settlement(s, a), Next(s, a, maxBytes).log);
  }

  /** Whatever is on the wire or has landed was sent, and the log says so. */
  ghost predicate SentToo(s: Queue) {
    && s.landed <= SentIds(s.log)
    && forall k | k in s.chains && OnWire(s.chains[k].phase) && s.chains[k].inflight.Some? ::
         s.chains[k].inflight.value.op.id in SentIds(s.log)
  }

  lemma SendSent(s: Queue, slot: Slot)
    requires SentToo(s) && slot in s.chains && s.chains[slot].inflight.Some?
    ensures SentToo(Send(s, slot))
  {
    var n := Send(s, slot);
    assert n.log[..|n.log| - 1] == s.log;
  }

  lemma TopSent(s: Queue, slot: Slot)
    requires SentToo(s) && slot in s.chains
    ensures SentToo(Top(s, slot))
  {
    hide SentIds;
    hide Send;
    var c := s.chains[slot];
    if c.pending.Some? && !(slot != CLEAR && s.gate) && slot != CLEAR {
      SendSent(s.(chains := s.chains[slot := Chain(None, c.pending, AtWire(s.onWire == 0))]), slot);
    }
  }

  lemma QueuedSent(s: Queue, slot: Slot, val: Option<string>, bytes: nat)
    requires SentToo(s)
    ensures SentToo(Queued(s, slot, val, bytes))
  {
    hide SentIds;
    hide Queued;
    QueuedKeeps(s, slot, val, bytes);
    QueuedFlights(s, slot, val, bytes);
  }

  lemma FinishSent(s: Queue, slot: Slot, ok: bool)
    requires SentToo(s) && slot in s.chains && s.chains[slot].inflight.Some?
    ensures SentToo(Finish(s, slot, ok))
  {
    hide Finish;
    var log := s.log;
    OneMoreEvent(log, [Settled(s.chains[slot].inflight.value.covers, ok)]);
    hide SentIds;
    FinishKeeps(s, slot, ok);
    FinishSame(s, slot, ok);
    FinishFields(s, slot, ok);
  }

  lemma StepSent(s: Queue, a: Step, maxBytes: nat)
    requires SentToo(s) && Enabled(s, a)
    ensures SentToo(Next(s, a, maxBytes))
  {
    hide Queued;
    hide Finish;
    hide Top;
    hide Send;
    hide SentIds;
    hide Apply;
    match a
    case Push(slot, val, bytes) =>
      QueuedSent(s, slot, val, bytes);
      TopSent(Queued(s, slot, val, bytes), slot);
    case GateWake(slot) => TopSent(s, slot);
    case WireWake => SendSent(s, CLEAR);
    case Settles(slot, v) =>
      FinishSent(s, slot, v == Success);
      TopSent(Finish(s, slot, v == Success), slot);
    case _ =>
  }

  lemma {:induction false} RunLogs(s: Queue, run: seq<Step>, maxBytes: nat)
    requires LegalRun(s, run, maxBytes) && SentToo(s) && s.failed == Abandoned(s.log)
    ensures SentToo(Run(s, run, maxBytes)) && Run(s, run, maxBytes).failed == Abandoned(Run(s, run, maxBytes).log)
    decreases |run|
  {
    hide Enabled;
    hide Next;
    hide SentToo;
    if run != [] {
      StepSent(s, run[0], maxBytes);
      StepLog(s, run[0], maxBytes);
      RunLogs(Next(s, run[0], maxBytes), run[1..], maxBytes);
    }
  }

  /** THE LOG IS COMPLETE. An operation that reached L3 or is on the wire is among those the log calls sent, and
      `failed` counts exactly the settlements of the log that are false. */
  lemma LogIsComplete(store: map<string, string>, s: Queue, run: seq<Step>, maxBytes: nat)
    requires Reached(store, s, run, maxBytes)
    ensures s.landed <= SentIds(s.log) && s.failed == Abandoned(s.log)
    ensures forall k | k in s.chains && OnWire(s.chains[k].phase) && s.chains[k].inflight.Some? ::
              s.chains[k].inflight.value.op.id in SentIds(s.log)
  {
    hide SentIds;
    hide Abandoned;
    StartLogs(store);
    RunLogs(Start(store), run, maxBytes);
  }

  lemma StartLogs(store: map<string, string>)
    ensures SentToo(Start(store)) && Start(store).failed == Abandoned(Start(store).log)
  {
  }
}
