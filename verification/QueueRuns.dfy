/** Whole runs of the L3 queue: the invariant of every step, and what follows from it. */
module QueueRuns {
  import opened QueueModel
  import opened QueueShape
  import opened QueueBarrier
  import opened QueueAccounts
  import opened QueueCovers
  import opened QueueStore
  import opened QueueLog

  ghost predicate QueueInv(s: Queue, maxBytes: nat) {
    && ShapeInv(s, None) && OutInv(s) && AccountInv(s, maxBytes) && GateInv(s) && WireInv(s)
    && CoverInv(s) && LandInv(s) && ViewInv(s) && LogInv(s)
  }

  /** The same inside a step, when the run loop of a chain is at its head. */
  ghost predicate RunningInv(s: Queue, slot: Slot, maxBytes: nat) {
    && ShapeInv(s, Some(slot)) && OutInv(s) && AccountInv(s, maxBytes) && GateInv(s) && WireInv(s)
    && CoverInv(s) && LandInv(s) && ViewInv(s) && LogInv(s) && !OnWire(s.chains[slot].phase)
  }

  lemma StartIsValid(store: map<string, string>, maxBytes: nat)
    ensures QueueInv(Start(store), maxBytes)
  {
  }

  lemma TopKeeps(s: Queue, slot: Slot, maxBytes: nat)
    requires RunningInv(s, slot, maxBytes)
    ensures QueueInv(Top(s, slot), maxBytes)
  {
    hide ShapeInv;
    hide OutInv;
    hide GateInv;
    hide WireInv;
    hide BossInv;
    hide LandInv;
    hide ViewInv;
    hide LogInv;
    hide AccountInv;
    hide Top;
    hide OnWire;
    hide ExactChain;
    RunningShape(s, slot);
    TopShape(s, slot);
    TopOut(s, slot);
    TopAccounts(s, slot, maxBytes);
    TopGate(s, slot);
    TopWire(s, slot);
    TopCovers(s, slot);
    NotAttempting(s.chains[slot].phase);
    TopLand(s, slot);
    TopView(s, slot);
    TopLog(s, slot);
  }

  lemma NotAttempting(p: Phase)
    requires !OnWire(p)
    ensures !p.Attempt?
  {
  }

  lemma TopAccounts(s: Queue, slot: Slot, maxBytes: nat)
    requires AccountInv(s, maxBytes) && slot in s.chains
    ensures AccountInv(Top(s, slot), maxBytes)
  {
    hide Bytes;
    hide Keyed;
  }

  lemma PushKeeps(s: Queue, slot: Slot, val: Option<string>, bytes: nat, maxBytes: nat)
    requires QueueInv(s, maxBytes) && !Sheds(s, slot, bytes, maxBytes)
    ensures var q := Queued(s, slot, val, bytes);
            if slot in s.chains then QueueInv(q, maxBytes) else RunningInv(q, slot, maxBytes)
  {
    hide ShapeInv;
    hide OutInv;
    hide GateInv;
    hide WireInv;
    hide CoverInv;
    hide LandInv;
    hide ViewInv;
    hide LogInv;
    hide AccountInv;
    hide Queued;
    QueuedShape(s, slot, val, bytes);
    QueuedOut(s, slot, val, bytes);
    QueuedAccounts(s, slot, val, bytes, maxBytes);
    QueuedGate(s, slot, val, bytes);
    QueuedWire(s, slot, val, bytes);
    QueuedCovers(s, slot, val, bytes);
    QueuedLand(s, slot, val, bytes);
    QueuedView(s, slot, val, bytes);
    QueuedLog(s, slot, val, bytes);
    QueuedFlights(s, slot, val, bytes);
  }

  lemma FinishKeeps(s: Queue, slot: Slot, ok: bool, maxBytes: nat)
    requires QueueInv(s, maxBytes) && slot in s.chains && s.chains[slot].inflight.Some? && s.chains[slot].phase.Attempt?
    requires ok ==> s.chains[slot].phase.landed
    ensures RunningInv(Finish(s, slot, ok), slot, maxBytes)
  {
    hide ShapeInv;
    hide OutInv;
    hide GateInv;
    hide WireInv;
    hide CoverInv;
    hide ViewInv;
    hide LogInv;
    hide AccountInv;
    hide Finish;
    FinishShape(s, slot, ok);
    FinishOut(s, slot, ok);
    FinishAccounts(s, slot, ok, maxBytes);
    FinishGate(s, slot, ok);
    FinishWire(s, slot, ok);
    FinishCovers(s, slot, ok);
    FinishLand(s, slot, ok);
    FinishView(s, slot, ok);
    FinishLog(s, slot, ok);
    FinishSame(s, slot, ok);
    FinishFields(s, slot, ok);
  }

  /** The gate let a chain go: its run loop is at the head again. */
  lemma WokenIsRunning(s: Queue, slot: Slot, maxBytes: nat)
    requires QueueInv(s, maxBytes) && slot in s.chains && s.chains[slot].phase == Gated(true)
    ensures RunningInv(s, slot, maxBytes)
  {
    hide OutInv;
    hide GateInv;
    hide WireInv;
    hide CoverInv;
    hide LandInv;
    hide ViewInv;
    hide LogInv;
    hide AccountInv;
    hide ItemShape;
  }

  /** The phase of a chain that has an operation in flight changes. */
  function Rephased(s: Queue, slot: Slot, p: Phase): Queue
    requires slot in s.chains
  {
    s.(chains := s.chains[slot := s.chains[slot].(phase := p)])
  }

  lemma RephasedKeeps(s: Queue, slot: Slot, p: Phase, maxBytes: nat)
    requires QueueInv(s, maxBytes) && slot in s.chains && OnWire(s.chains[slot].phase) && OnWire(p)
    requires p != Attempt(true)
    ensures QueueInv(Rephased(s, slot, p), maxBytes)
  {
    hide ItemShape;
    hide AccountInv;
    hide OutInv;
    hide CoverInv;
    hide LandInv;
    hide ViewInv;
    hide LogInv;
    hide WireInv;
    var r := Rephased(s, slot, p);
    RephasedWire(s, slot, p);
    RephasedOut(s, slot, p);
    SameItemsCovers(s, r);
    SameLandings(s, r);
    RephasedView(s, slot, p);
    RephasedLog(s, slot, p);
    RephasedAccounts(s, slot, p, maxBytes);
  }

  lemma RephasedAccounts(s: Queue, slot: Slot, p: Phase, maxBytes: nat)
    requires AccountInv(s, maxBytes) && slot in s.chains
    ensures AccountInv(Rephased(s, slot, p), maxBytes)
  {
    hide Bytes;
    hide Keyed;
  }

  lemma RephasedWire(s: Queue, slot: Slot, p: Phase)
    requires WireInv(s) && slot in s.chains && OnWire(s.chains[slot].phase) && OnWire(p)
    ensures WireInv(Rephased(s, slot, p))
  {
    var r := Rephased(s, slot, p);
    assert PhaseOf(s.chains, slot) == s.chains[slot].phase;
    assert forall k | k != slot :: PhaseOf(r.chains, k) == PhaseOf(s.chains, k);
  }

  lemma RephasedOut(s: Queue, slot: Slot, p: Phase)
    requires OutInv(s) && slot in s.chains
    ensures OutInv(Rephased(s, slot, p))
  {
    var r := Rephased(s, slot, p);
    forall k, i: nat
      ensures Carries(r.chains, k, i) <==> Carries(s.chains, k, i)
    {
    }
  }

  lemma RephasedView(s: Queue, slot: Slot, p: Phase)
    requires ViewInv(s) && slot in s.chains
    ensures ViewInv(Rephased(s, slot, p))
  {
    hide Expect;
    hide Lookup;
    var r := Rephased(s, slot, p);
    forall name
      ensures Expect(r.chains, r.store, name) == Expect(s.chains, s.store, name)
    {
      SameExpect(s.chains, r.chains, s.store, name);
    }
  }

  lemma RephasedLog(s: Queue, slot: Slot, p: Phase)
    requires LogInv(s) && slot in s.chains && OnWire(s.chains[slot].phase) && OnWire(p)
    ensures LogInv(Rephased(s, slot, p))
  {
    hide Barrier;
    hide SentIds;
    hide SettledIds;
    hide IsClear;
    hide SentInv;
    hide OnWire;
    QuietLog(s, Rephased(s, slot, p));
  }

  lemma LandsKeeps(s: Queue, slot: Slot, maxBytes: nat)
    requires QueueInv(s, maxBytes) && Enabled(s, Lands(slot))
    ensures QueueInv(Next(s, Lands(slot), maxBytes), maxBytes)
  {
    hide ItemShape;
    hide AccountInv;
    hide OutInv;
    hide CoverInv;
    hide LandInv;
    hide ViewInv;
    hide LogInv;
    hide WireInv;
    var n, r := Next(s, Lands(slot), maxBytes), Rephased(s, slot, Attempt(true));
    LandsLand(s, slot);
    LandsView(s, slot);
    RephasedWire(s, slot, Attempt(true));
    RephasedOut(s, slot, Attempt(true));
    RephasedLog(s, slot, Attempt(true));
    RephasedAccounts(s, slot, Attempt(true), maxBytes);
    SameItemsCovers(s, n);
    StoreDoesNotMatter(r, n, maxBytes);
  }

  lemma StoreDoesNotMatter(r: Queue, n: Queue, maxBytes: nat)
    requires n == r.(store := n.store, landed := n.landed)
    requires OutInv(r) && AccountInv(r, maxBytes) && WireInv(r) && LogInv(r)
    ensures OutInv(n) && AccountInv(n, maxBytes) && WireInv(n) && LogInv(n)
  {
    hide Bytes;
    hide Keyed;
    hide Barrier;
    hide SentIds;
    hide SettledIds;
    hide Carries;
    QuietLog(r, n);
  }

  lemma WireWakeKeeps(s: Queue, maxBytes: nat)
    requires QueueInv(s, maxBytes) && Enabled(s, WireWake)
    ensures QueueInv(Send(s, CLEAR), maxBytes)
  {
    hide ItemShape;
    hide AccountInv;
    hide OutInv;
    hide CoverInv;
    hide LandInv;
    hide ViewInv;
    hide LogInv;
    hide WireInv;
    var n, r := Send(s, CLEAR), Rephased(s, CLEAR, Attempt(false));
    SendClearWire(s);
    SendClearLog(s);
    RephasedOut(s, CLEAR, Attempt(false));
    RephasedView(s, CLEAR, Attempt(false));
    RephasedAccounts(s, CLEAR, Attempt(false), maxBytes);
    SameItemsCovers(s, n);
    SameLandings(s, n);
    WireDoesNotMatter(r, n, maxBytes);
  }

  lemma WireDoesNotMatter(r: Queue, n: Queue, maxBytes: nat)
    requires n == r.(onWire := n.onWire, wire := n.wire, log := n.log)
    requires OutInv(r) && AccountInv(r, maxBytes) && ViewInv(r)
    ensures OutInv(n) && AccountInv(n, maxBytes) && ViewInv(n)
  {
    hide Bytes;
    hide Keyed;
    hide Carries;
    hide Expect;
    hide Lookup;
  }

  /** Waiting for the queue to drain, or closing it, touches nothing the invariant is about. */
  lemma OtherFieldsDoNotMatter(s: Queue, n: Queue, maxBytes: nat)
    requires QueueInv(s, maxBytes) && n == s.(closed := n.closed, drains := n.drains)
    requires n.drains > 0 ==> n.count > 0
    ensures QueueInv(n, maxBytes)
  {
    hide ItemShape;
    hide Bytes;
    hide Keyed;
    hide Carries;
    hide Expect;
    hide Lookup;
    hide CoverInv;
    hide LandInv;
    hide LogInv;
    SameItemsCovers(s, n);
    SameLandings(s, n);
    QuietDrain(s, n);
  }

  lemma QuietDrain(s: Queue, n: Queue)
    requires LogInv(s) && n == s.(closed := n.closed, drains := n.drains)
    ensures LogInv(n)
  {
    hide Barrier;
    hide SentIds;
    hide SettledIds;
    hide IsClear;
    QuietLog(s, n);
  }

  lemma StepKeepsInv(s: Queue, a: Step, maxBytes: nat)
    requires QueueInv(s, maxBytes) && Enabled(s, a)
    ensures QueueInv(Next(s, a, maxBytes), maxBytes)
  {
    hide QueueInv;
    hide RunningInv;
    hide Queued;
    hide Top;
    hide Finish;
    hide Send;
    hide Apply;
    match a
    case Push(slot, val, bytes) =>
      if !Sheds(s, slot, bytes, maxBytes) {
        PushKeeps(s, slot, val, bytes, maxBytes);
        if slot !in s.chains {
          TopKeeps(Queued(s, slot, val, bytes), slot, maxBytes);
        }
      }
    case GateWake(slot) =>
      WokenIsRunning(s, slot, maxBytes);
      TopKeeps(s, slot, maxBytes);
    case WireWake =>
      WireWakeKeeps(s, maxBytes);
    case Lands(slot) =>
      LandsKeeps(s, slot, maxBytes);
    case Settles(slot, v) =>
      if v == Retry {
        RephasedKeeps(s, slot, Backoff, maxBytes);
      } else {
        FinishKeeps(s, slot, v == Success, maxBytes);
        TopKeeps(Finish(s, slot, v == Success), slot, maxBytes);
      }
    case BackoffWake(slot) =>
      RephasedKeeps(s, slot, Attempt(false), maxBytes);
    case Drain =>
      DrainOnlyIfBusy(s, maxBytes);
      OtherFieldsDoNotMatter(s, Next(s, Drain, maxBytes), maxBytes);
    case Close =>
      DrainOnlyIfBusy(s, maxBytes);
      OtherFieldsDoNotMatter(s, Next(s, Close, maxBytes), maxBytes);
  }

  lemma DrainOnlyIfBusy(s: Queue, maxBytes: nat)
    requires QueueInv(s, maxBytes)
    ensures s.count >= 0 && (s.drains > 0 ==> s.count > 0)
  {
    hide ShapeInv;
    hide OutInv;
    hide GateInv;
    hide WireInv;
    hide CoverInv;
    hide LandInv;
    hide ViewInv;
    hide LogInv;
    hide Bytes;
  }
}
