/** What the L3 queue is for, over every run of it. */
module QueueTheorems {
  import opened QueueModel
  import opened QueueShape
  import opened QueueBarrier
  import opened QueueAccounts
  import opened QueueCovers
  import opened QueueStore
  import opened QueueLog
  import opened QueueRuns

  ghost predicate LegalRun(s: Queue, run: seq<Step>, maxBytes: nat)
    decreases |run|
  {
    run == [] || (Enabled(s, run[0]) && LegalRun(Next(s, run[0], maxBytes), run[1..], maxBytes))
  }

  ghost function Run(s: Queue, run: seq<Step>, maxBytes: nat): Queue
    requires LegalRun(s, run, maxBytes)
    decreases |run|
  {
    if run == [] then s else Run(Next(s, run[0], maxBytes), run[1..], maxBytes)
  }

  /** The accepted pushes applied to a store one at a time, in push order. */
  function Applied(store: map<string, string>, ops: seq<Op>): map<string, string> {
    if ops == [] then store else Apply(Applied(store, ops[..|ops| - 1]), ops[|ops| - 1].slot, ops[|ops| - 1].val)
  }

  ghost predicate SpecInv(store: map<string, string>, s: Queue) {
    s.spec == Applied(store, s.ops)
  }

  lemma StepKeepsSpec(store: map<string, string>, s: Queue, a: Step, maxBytes: nat)
    requires SpecInv(store, s) && Enabled(s, a)
    ensures SpecInv(store, Next(s, a, maxBytes)) && s.ops <= Next(s, a, maxBytes).ops
  {
    hide Apply;
    hide Queued;
    hide Finish;
    hide Send;
    if a.Push? {
      QueuedFields(s, a.slot, a.val, a.bytes);
      QueuedFlights(s, a.slot, a.val, a.bytes);
      var ops := Queued(s, a.slot, a.val, a.bytes).ops;
      assert ops[..|s.ops|] == s.ops;
      SendSame(Queued(s, a.slot, a.val, a.bytes), a.slot);
    } else if a.Settles? && a.verdict != Retry {
      FinishSame(s, a.slot, a.verdict == Success);
      FinishFields(s, a.slot, a.verdict == Success);
      SendSame(Finish(s, a.slot, a.verdict == Success), a.slot);
    } else if a.GateWake? {
      SendSame(s, a.slot);
    } else if a.WireWake? {
      SentSame(s, CLEAR);
    }
  }

  lemma SentSame(s: Queue, slot: Slot)
    requires slot in s.chains && s.chains[slot].inflight.Some?
    ensures Send(s, slot).ops == s.ops && Send(s, slot).spec == s.spec
  {
  }

  lemma SendSame(s: Queue, slot: Slot)
    ensures slot in s.chains ==> Top(s, slot).ops == s.ops && Top(s, slot).spec == s.spec
  {
  }

  lemma {:induction false} RunKeepsInv(store: map<string, string>, s: Queue, run: seq<Step>, maxBytes: nat)
    requires QueueInv(s, maxBytes) && SpecInv(store, s) && LegalRun(s, run, maxBytes)
    ensures QueueInv(Run(s, run, maxBytes), maxBytes) && SpecInv(store, Run(s, run, maxBytes))
    decreases |run|
  {
    hide QueueInv;
    hide SpecInv;
    hide Enabled;
    hide Next;
    if run != [] {
      StepKeepsInv(s, run[0], maxBytes);
      StepKeepsSpec(store, s, run[0], maxBytes);
      RunKeepsInv(store, Next(s, run[0], maxBytes), run[1..], maxBytes);
    }
  }

  lemma {:induction false} RunExtends(s: Queue, run: seq<Step>, a: Step, maxBytes: nat)
    requires LegalRun(s, run, maxBytes) && Enabled(Run(s, run, maxBytes), a)
    ensures LegalRun(s, run + [a], maxBytes)
    ensures Run(s, run + [a], maxBytes) == Next(Run(s, run, maxBytes), a, maxBytes)
    decreases |run|
  {
    hide Enabled;
    hide Next;
    if run == [] {
      assert run + [a] == [a] && [a][1..] == [];
      assert LegalRun(Next(s, a, maxBytes), [], maxBytes);
    } else {
      assert (run + [a])[1..] == run[1..] + [a];
      RunExtends(Next(s, run[0], maxBytes), run[1..], a, maxBytes);
    }
  }

  /** A state that the queue can be in when L3 held `store` at its start. */
  ghost predicate Reached(store: map<string, string>, s: Queue, run: seq<Step>, maxBytes: nat) {
    LegalRun(Start(store), run, maxBytes) && s == Run(Start(store), run, maxBytes)
  }

  lemma ReachedIsValid(store: map<string, string>, s: Queue, run: seq<Step>, maxBytes: nat)
    requires Reached(store, s, run, maxBytes)
    ensures QueueInv(s, maxBytes) && SpecInv(store, s)
  {
    hide QueueInv;
    StartIsValid(store, maxBytes);
    RunKeepsInv(store, Start(store), run, maxBytes);
  }

  // ------------------------------------------------------------------------ quiescence

  /** QUIESCENCE. Unless an operation was abandoned, a drained queue leaves in L3 exactly what the
      accepted pushes make of what it held, applied one at a time in push order: no matter how keys overtook each
      other, what was coalesced, what clears dropped, and how often attempts were repeated. */
  lemma Quiescence(store: map<string, string>, s: Queue, run: seq<Step>, maxBytes: nat)
    requires Reached(store, s, run, maxBytes) && s.count == 0 && s.failed == 0
    ensures s.store == Applied(store, s.ops)
  {
    hide QueueInv;
    hide Reached;
    ReachedIsValid(store, s, run, maxBytes);
    forall name: string
      ensures Lookup(s.store, name) == Lookup(s.spec, name)
    {
      NothingExpected(s, maxBytes, name);
    }
    SameLookups(s.store, s.spec);
  }

  lemma SameLookups(a: map<string, string>, b: map<string, string>)
    requires forall name: string :: Lookup(a, name) == Lookup(b, name)
    ensures a == b
  {
    forall name
      ensures name in a <==> name in b
      ensures name in a ==> name in b && a[name] == b[name]
    {
      assert Lookup(a, name) == Lookup(b, name);
    }
  }

  lemma NothingOut(s: Queue, maxBytes: nat)
    requires AccountInv(s, maxBytes) && OutInv(s) && s.count == 0
    ensures s.out == {} && forall k | k in s.chains :: s.chains[k].pending.None? && s.chains[k].inflight.None?
  {
    hide Bytes;
    forall k | k in s.chains
      ensures s.chains[k].pending.None? && s.chains[k].inflight.None?
    {
      PendingCarries(s.chains, k);
    }
  }

  lemma NothingExpected(s: Queue, maxBytes: nat, name: string)
    requires QueueInv(s, maxBytes) && s.count == 0 && s.failed == 0
    ensures Lookup(s.store, name) == Lookup(s.spec, name)
  {
    hide ShapeInv;
    hide WireInv;
    hide CoverInv;
    hide LandInv;
    hide LogInv;
    hide Lookup;
    hide AccountInv;
    hide OutInv;
    NothingOut(s, maxBytes);
    assert Expect(s.chains, s.store, name) == Lookup(s.spec, name);
  }

  /** At every moment, drained or not: what is outstanding on top of the store means the same. */
  lemma StoreAndQueueMeanThePushes(store: map<string, string>, s: Queue, run: seq<Step>, maxBytes: nat, name: string)
    requires Reached(store, s, run, maxBytes) && s.failed == 0
    ensures Expect(s.chains, s.store, name) == Lookup(Applied(store, s.ops), name)
  {
    hide ShapeInv;
    hide WireInv;
    hide CoverInv;
    hide LandInv;
    hide LogInv;
    hide Lookup;
    hide AccountInv;
    hide OutInv;
    hide GateInv;
    hide Expect;
    hide Reached;
    ReachedIsValid(store, s, run, maxBytes);
  }

  // --------------------------------------------------------------------------- barrier

  lemma {:induction false} BarrierAt(ops: seq<Op>, log: seq<Event>, j: nat)
    requires Barrier(ops, log) && j < |log| && log[j].Sent?
    ensures MaySend(ops, log[..j], log[j].id)
    decreases |log|
  {
    hide MaySend;
    if j < |log| - 1 {
      assert log[..|log| - 1][..j] == log[..j];
      BarrierAt(ops, log[..|log| - 1], j);
    }
  }

  lemma {:induction false} SentAt(log: seq<Event>, i: nat)
    requires i < |log| && log[i].Sent?
    ensures log[i].id in SentIds(log)
    decreases |log|
  {
    if i < |log| - 1 {
      SentAt(log[..|log| - 1], i);
    }
  }

  /** Is push x settled by one of the first n events? */
  ghost predicate SettledBefore(log: seq<Event>, n: nat, x: nat)
    requires n <= |log|
  {
    exists m: nat :: m < n && log[m].Settled? && x in log[m].ids
  }

  lemma {:induction false} SettledAt(log: seq<Event>, n: nat, x: nat)
    requires n <= |log| && x in SettledIds(log[..n])
    ensures SettledBefore(log, n, x)
    decreases n
  {
    assert n > 0;
    assert log[..n][..n - 1] == log[..n - 1];
    if x in SettledIds(log[..n - 1]) {
      SettledAt(log, n - 1, x);
      var m: nat :| m < n - 1 && log[m].Settled? && x in log[m].ids;
    } else {
      assert log[n - 1].Settled? && x in log[n - 1].ids;
    }
  }

  /** CLEAR BARRIER. Of two operations sent one after the other, one of them a clear, the first was
      pushed first and is settled before the second is sent. So nothing pushed before a clear is sent
      after it, nothing sent before it is still on the wire when it goes out, and nothing is sent
      until it settles. */
  lemma ClearBarrier(store: map<string, string>, s: Queue, run: seq<Step>, maxBytes: nat, i: nat, j: nat)
    requires Reached(store, s, run, maxBytes) && i < j < |s.log| && s.log[i].Sent? && s.log[j].Sent?
    requires IsClear(s.ops, s.log[i].id) || IsClear(s.ops, s.log[j].id)
    ensures s.log[i].id < s.log[j].id && SettledBefore(s.log, j, s.log[i].id)
  {
    hide QueueInv;
    hide Reached;
    hide SentIds;
    hide SettledIds;
    hide SettledBefore;
    ReachedIsValid(store, s, run, maxBytes);
    LogParts(s, maxBytes);
    BarrierAt(s.ops, s.log, j);
    SentAt(s.log[..j], i);
    SettledAt(s.log, j, s.log[i].id);
  }

  /** An operation pushed after a clear is sent only once that clear is settled, also when the clear
      never goes out itself because a later clear took its place. */
  lemma LaterPushWaitsForClear(store: map<string, string>, s: Queue, run: seq<Step>, maxBytes: nat, j: nat, c: nat)
    requires Reached(store, s, run, maxBytes) && j < |s.log| && s.log[j].Sent? && !IsClear(s.ops, s.log[j].id)
    requires c < s.log[j].id && IsClear(s.ops, c)
    ensures SettledBefore(s.log, j, c)
  {
    hide QueueInv;
    hide Reached;
    hide SentIds;
    hide SettledIds;
    hide SettledBefore;
    ReachedIsValid(store, s, run, maxBytes);
    LogParts(s, maxBytes);
    BarrierAt(s.ops, s.log, j);
    SettledAt(s.log, j, c);
  }

  lemma LogParts(s: Queue, maxBytes: nat)
    requires QueueInv(s, maxBytes)
    ensures Barrier(s.ops, s.log)
  {
    hide ShapeInv;
    hide OutInv;
    hide AccountInv;
    hide GateInv;
    hide WireInv;
    hide CoverInv;
    hide LandInv;
    hide ViewInv;
    hide SentInv;
    hide Barrier;
  }

  /** While a clear is at the adapter nothing else is on the wire. */
  lemma ClearIsAlone(store: map<string, string>, s: Queue, run: seq<Step>, maxBytes: nat, k: Slot)
    requires Reached(store, s, run, maxBytes) && CLEAR in s.chains && k in s.chains
    requires OnWire(s.chains[CLEAR].phase) && OnWire(s.chains[k].phase)
    ensures k == CLEAR && s.onWire == 1
  {
    hide ShapeInv;
    hide OutInv;
    hide AccountInv;
    hide GateInv;
    hide CoverInv;
    hide LandInv;
    hide ViewInv;
    hide LogInv;
    hide Reached;
    ReachedIsValid(store, s, run, maxBytes);
    assert OnWire(PhaseOf(s.chains, CLEAR)) && OnWire(PhaseOf(s.chains, k));
  }

  // ------------------------------------------------------------------------ accounting

  /** Only an accepted push and the end of an attempt touch the outcomes. */
  lemma NextSettled(s: Queue, a: Step, maxBytes: nat)
    requires Enabled(s, a)
    ensures Next(s, a, maxBytes).settled ==
              match a
              case Push(slot, val, bytes) =>
                if Sheds(s, slot, bytes, maxBytes) then s.settled else Queued(s, slot, val, bytes).settled
              case Settles(slot, v) => if v == Retry then s.settled else Finish(s, slot, v == Success).settled
              case _ => s.settled
  {
    hide Queued;
    hide Finish;
    hide Top;
    match a
    case Push(slot, val, bytes) => TopParts(Queued(s, slot, val, bytes), slot);
    case GateWake(slot) => TopParts(s, slot);
    case Settles(slot, v) => TopParts(Finish(s, slot, v == Success), slot);
    case _ =>
  }

  /** What a step settles: the pushes of the item whose attempt is over. */
  function Settlement(s: Queue, a: Step): seq<Event>
    requires Enabled(s, a)
  {
    if a.Settles? && a.verdict != Retry
    then [Settled(s.chains[a.slot].inflight.value.covers, a.verdict == Success)] else []
  }

  /** EVERY PROMISE SETTLES ONCE. What a step settles was not settled before, and no outcome changes. */
  lemma StepSettlesOnce(s: Queue, a: Step, maxBytes: nat)
    requires QueueInv(s, maxBytes) && Enabled(s, a)
    ensures var t := Settlement(s, a);
            if t == [] then Next(s, a, maxBytes).settled == s.settled
            else t[0].ids !! s.settled.Keys &&
                 Next(s, a, maxBytes).settled == s.settled + (map i | i in t[0].ids :: t[0].ok)
  {
    hide ShapeInv;
    hide OutInv;
    hide AccountInv;
    hide GateInv;
    hide WireInv;
    hide LandInv;
    hide ViewInv;
    hide LogInv;
    hide BossInv;
    hide ExactChain;
    hide Queued;
    hide Apply;
    hide Finish;
    hide Next;
    NextSettled(s, a, maxBytes);
    if a.Push? {
      QueuedFields(s, a.slot, a.val, a.bytes);
    } else if a.Settles? && a.verdict != Retry {
      FinishFields(s, a.slot, a.verdict == Success);
      SettledOnce(s, a.slot, s.chains[a.slot].inflight.value, a.verdict == Success);
    }
  }

  /** `more` is `log` with nothing but sends after it. */
  ghost predicate OnlySends(log: seq<Event>, more: seq<Event>) {
    log <= more && forall k | |log| <= k < |more| :: more[k].Sent?
  }

  lemma TopSendsOnly(s: Queue, slot: Slot)
    requires slot in s.chains
    ensures OnlySends(s.log, Top(s, slot).log)
  {
  }

  lemma NextLog(s: Queue, a: Step, maxBytes: nat)
    requires Enabled(s, a)
    ensures OnlySends(s.log + Settlement(s, a), Next(s, a, maxBytes).log)
  {
    hide Queued;
    hide Finish;
    hide Top;
    match a
    case Push(slot, val, bytes) =>
      QueuedFields(s, slot, val, bytes);
      TopSendsOnly(Queued(s, slot, val, bytes), slot);
    case GateWake(slot) => TopSendsOnly(s, slot);
    case Settles(slot, v) =>
      FinishSame(s, slot, v == Success);
      TopSendsOnly(Finish(s, slot, v == Success), slot);
    case _ =>
  }

  /** No push is in two settlements of the log, and what is in one is settled. */
  ghost predicate SettledApart(log: seq<Event>, settled: map<nat, bool>) {
    && (forall k | 0 <= k < |log| && log[k].Settled? :: log[k].ids <= settled.Keys)
    && (forall j, k | 0 <= j < k < |log| && log[j].Settled? && log[k].Settled? :: log[j].ids !! log[k].ids)
  }

  lemma {:induction false} RunSettlesApart(s: Queue, run: seq<Step>, maxBytes: nat)
    requires QueueInv(s, maxBytes) && LegalRun(s, run, maxBytes) && SettledApart(s.log, s.settled)
    ensures SettledApart(Run(s, run, maxBytes).log, Run(s, run, maxBytes).settled)
    decreases |run|
  {
    hide QueueInv;
    hide Enabled;
    hide Next;
    hide SettledApart;
    if run != [] {
      StepSettlesOnce(s, run[0], maxBytes);
      NextLog(s, run[0], maxBytes);
      var s1 := Next(s, run[0], maxBytes);
      StillApart(s.log, s.settled, Settlement(s, run[0]), s1.log, s1.settled);
      StepKeepsInv(s, run[0], maxBytes);
      RunSettlesApart(Next(s, run[0], maxBytes), run[1..], maxBytes);
    }
  }

  lemma StillApart(log: seq<Event>, settled: map<nat, bool>, t: seq<Event>, log': seq<Event>, settled': map<nat, bool>)
    requires SettledApart(log, settled) && OnlySends(log + t, log') && |t| <= 1
    requires if t == [] then settled' == settled
             else t[0].Settled? && t[0].ids !! settled.Keys && settled' == settled + (map i | i in t[0].ids :: t[0].ok)
    ensures SettledApart(log', settled')
  {
    forall k | 0 <= k < |log'| && log'[k].Settled?
      ensures k < |log + t| && log'[k] == (log + t)[k] && log'[k].ids <= settled'.Keys
    {
      assert k < |log + t|;
      assert log'[k] == (log + t)[k];
    }
  }

  /** Over every run, no push is settled twice. */
  lemma NothingSettlesTwice(store: map<string, string>, s: Queue, run: seq<Step>, maxBytes: nat, j: nat, k: nat)
    requires Reached(store, s, run, maxBytes) && j < k < |s.log| && s.log[j].Settled? && s.log[k].Settled?
    ensures s.log[j].ids !! s.log[k].ids
  {
    hide QueueInv;
    hide LegalRun;
    hide Run;
    StartIsValid(store, maxBytes);
    RunSettlesApart(Start(store), run, maxBytes);
  }

  /** When the queue is drained every push has been settled. */
  lemma DrainedMeansSettled(store: map<string, string>, s: Queue, run: seq<Step>, maxBytes: nat, i: nat)
    requires Reached(store, s, run, maxBytes) && s.count == 0
    ensures i < |s.ops| <==> i in s.settled
  {
    hide QueueInv;
    hide Reached;
    ReachedIsValid(store, s, run, maxBytes);
    IdleMeansSettled(s, maxBytes, i);
  }

  lemma IdleMeansSettled(s: Queue, maxBytes: nat, i: nat)
    requires QueueInv(s, maxBytes) && s.count == 0
    ensures i < |s.ops| <==> i in s.settled
  {
    hide QueueInv;
    CoverParts(s, maxBytes);
    NothingOut(s, maxBytes);
  }

  lemma CoverParts(s: Queue, maxBytes: nat)
    requires QueueInv(s, maxBytes)
    ensures OutInv(s) && AccountInv(s, maxBytes) && BossInv(s)
  {
    hide ShapeInv;
    hide OutInv;
    hide AccountInv;
    hide GateInv;
    hide WireInv;
    hide LandInv;
    hide ViewInv;
    hide LogInv;
    hide BossInv;
  }

  /** TRUE MEANS LANDED. A push that settled true reached L3 itself, or an operation did that was
      pushed no earlier and is for the same key or a clear. */
  lemma TrueMeansLanded(store: map<string, string>, s: Queue, run: seq<Step>, maxBytes: nat, i: nat)
    requires Reached(store, s, run, maxBytes) && i in s.settled && s.settled[i]
    ensures i < |s.boss| && s.boss[i] in s.landed && StandsFor(s.ops, s.boss[i], i)
  {
    hide QueueInv;
    hide Reached;
    ReachedIsValid(store, s, run, maxBytes);
    CoverParts(s, maxBytes);
  }

  /** THE BOOKS. #count and #bytes are what is queued and in flight, operations of keys never exceed
      maxBytes, and the gate is armed exactly while a clear is outstanding. */
  lemma TheBooks(store: map<string, string>, s: Queue, run: seq<Step>, maxBytes: nat)
    requires Reached(store, s, run, maxBytes)
    ensures s.count == |s.out| && s.bytes == Bytes(s.ops, s.out)
    ensures forall i | i in s.out :: i < |s.ops| && Carries(s.chains, s.ops[i].slot, i)
    ensures forall k, i: nat | Carries(s.chains, k, i) :: i in s.out
    ensures Bytes(s.ops, Keyed(s.ops, s.out)) <= maxBytes
    ensures s.gate <==> CLEAR in s.chains && (s.chains[CLEAR].pending.Some? || s.chains[CLEAR].inflight.Some?)
  {
    hide ShapeInv;
    hide WireInv;
    hide CoverInv;
    hide LandInv;
    hide ViewInv;
    hide LogInv;
    hide Bytes;
    hide Reached;
    ReachedIsValid(store, s, run, maxBytes);
  }

  // -------------------------------------------------------------------------- progress

  /** A step the queue takes by itself or the adapter makes it take. */
  predicate Internal(a: Step) {
    !a.Push? && !a.Drain? && !a.Close?
  }

  /** What the wire is busy with can go on. */
  lemma WireMoves(s: Queue, maxBytes: nat) returns (a: Step)
    requires QueueInv(s, maxBytes) && s.wire != {}
    ensures Enabled(s, a) && Internal(a) && (a.Settles? ==> a.verdict != Retry)
  {
    hide OutInv;
    hide AccountInv;
    hide GateInv;
    hide CoverInv;
    hide LandInv;
    hide ViewInv;
    hide LogInv;
    hide ItemShape;
    var k :| k in s.wire;
    assert OnWire(PhaseOf(s.chains, k));
    assert ChainShape(s.ops, k, s.chains[k], false);
    match s.chains[k].phase
    case Attempt(landed) => a := if landed then Settles(k, Success) else Lands(k);
    case Backoff => a := BackoffWake(k);
  }

  /** An outstanding clear can go on, or the wire it waits for can. */
  lemma ClearMoves(s: Queue, maxBytes: nat) returns (a: Step)
    requires QueueInv(s, maxBytes) && CLEAR in s.chains
    ensures Enabled(s, a) && Internal(a) && (a.Settles? ==> a.verdict != Retry)
  {
    hide OutInv;
    hide AccountInv;
    hide GateInv;
    hide CoverInv;
    hide LandInv;
    hide ViewInv;
    hide LogInv;
    hide ItemShape;
    assert ChainShape(s.ops, CLEAR, s.chains[CLEAR], false);
    if s.chains[CLEAR].phase == AtWire(true) {
      a := WireWake;
    } else {
      BusyWire(s);
      a := WireMoves(s, maxBytes);
    }
  }

  lemma BusyWire(s: Queue)
    requires WireInv(s) && CLEAR in s.chains && PhaseShape(CLEAR, s.chains[CLEAR])
    requires s.chains[CLEAR].phase != AtWire(true)
    ensures s.wire != {}
  {
    assert PhaseOf(s.chains, CLEAR) == s.chains[CLEAR].phase;
    if s.chains[CLEAR].phase.AtWire? {
    } else {
      assert CLEAR in s.wire;
    }
  }

  /** PROGRESS. As long as something is outstanding, some step other than a push is enabled. */
  lemma SomethingMoves(s: Queue, maxBytes: nat) returns (a: Step)
    requires QueueInv(s, maxBytes) && s.count > 0
    ensures Enabled(s, a) && Internal(a) && (a.Settles? ==> a.verdict != Retry)
  {
    hide CoverInv;
    hide LandInv;
    hide ViewInv;
    hide LogInv;
    hide ItemShape;
    hide Bytes;
    hide WireInv;
    var i :| i in s.out;
    var k := s.ops[i].slot;
    assert Carries(s.chains, k, i);
    assert ChainShape(s.ops, k, s.chains[k], false);
    match s.chains[k].phase
    case Gated(released) =>
      if released {
        a := GateWake(k);
      } else {
        assert s.gate;
        a := ClearMoves(s, maxBytes);
      }
    case AtWire(_) => a := ClearMoves(s, maxBytes);
    case _ =>
      SomeoneOnWire(s, k);
      a := WireMoves(s, maxBytes);
  }

  lemma SomeoneOnWire(s: Queue, k: Slot)
    requires WireInv(s) && k in s.chains && (s.chains[k].phase.Attempt? || s.chains[k].phase.Backoff?)
    ensures s.wire != {}
  {
    assert OnWire(PhaseOf(s.chains, k));
  }

  /** How far a run loop is from its next settlement. */
  function Distance(p: Phase): nat {
    match p
    case NotRunning => 0
    case Gated(released) => if released then 4 else 1
    case AtWire(_) => 3
    case Attempt(landed) => if landed then 1 else 2
    case Backoff => 3
  }

  ghost function SomeSlot(chains: map<Slot, Chain>): (k: Slot)
    requires |chains| > 0
    ensures k in chains
  {
    var k :| k in chains;
    k
  }

  ghost function Distances(chains: map<Slot, Chain>): nat
    decreases |chains|
  {
    if |chains| == 0 then 0
    else var k := SomeSlot(chains); Distance(chains[k].phase) + Distances(chains - {k})
  }

  lemma {:induction false} DistancesSplit(chains: map<Slot, Chain>, k: Slot)
    requires k in chains
    ensures Distances(chains) == Distance(chains[k].phase) + Distances(chains - {k})
    decreases |chains|
  {
    hide Distance;
    hide SomeSlot;
    var x := SomeSlot(chains);
    if x != k {
      var a, b := chains - {x}, chains - {k};
      assert |a| < |chains| && |b| < |chains|;
      DistancesSplit(a, k);
      DistancesSplit(b, x);
      assert a - {k} == b - {x};
    }
  }

  lemma OnePhase(a: map<Slot, Chain>, b: map<Slot, Chain>, k: Slot)
    requires k in a && k in b && b - {k} == a - {k}
    ensures Distances(b) - Distances(a) == Distance(b[k].phase) - Distance(a[k].phase)
  {
    hide Distance;
    DistancesSplit(a, k);
    DistancesSplit(b, k);
  }

  /** RANK. Every step that is neither a push nor a repetition brings the queue closer to empty: fewer
      outstanding operations, or as many and a shorter way to the next settlement. */
  lemma RankFalls(s: Queue, a: Step, maxBytes: nat)
    requires QueueInv(s, maxBytes) && Enabled(s, a) && Internal(a) && !(a.Settles? && a.verdict == Retry)
    ensures var n := Next(s, a, maxBytes);
            0 <= n.count <= s.count && (n.count < s.count || Distances(n.chains) < Distances(s.chains))
  {
    hide QueueInv;
    hide Distances;
    hide Finish;
    hide Apply;
    hide Top;
    var n := Next(s, a, maxBytes);
    StepKeepsInv(s, a, maxBytes);
    DrainOnlyIfBusy(n, maxBytes);
    match a
    case Settles(slot, v) => FinishCounts(s, slot, v == Success);
    case GateWake(slot) => TopFalls(s, slot);
    case WireWake => OnePhase(s.chains, n.chains, CLEAR);
    case Lands(slot) => OnePhase(s.chains, n.chains, slot);
    case BackoffWake(slot) => OnePhase(s.chains, n.chains, slot);
  }

  lemma TopFalls(s: Queue, slot: Slot)
    requires slot in s.chains && s.chains[slot].phase == Gated(true)
    ensures Top(s, slot).count == s.count && Distances(Top(s, slot).chains) < Distances(s.chains)
  {
    hide Distances;
    var n := Top(s, slot);
    if slot in n.chains {
      OnePhase(s.chains, n.chains, slot);
    } else {
      DistancesSplit(s.chains, slot);
    }
  }

  lemma FinishCounts(s: Queue, slot: Slot, ok: bool)
    requires slot in s.chains && s.chains[slot].inflight.Some?
    ensures Finish(s, slot, ok).count == s.count - 1 && slot in Finish(s, slot, ok).chains
    ensures Top(Finish(s, slot, ok), slot).count == s.count - 1
  {
    hide Leave;
    hide Disarm;
    LeaveFields(s, slot, s.chains[slot].inflight.value);
    LeaveCount(s, slot, s.chains[slot].inflight.value);
    DisarmFields(Leave(s, slot, s.chains[slot].inflight.value));
  }

  lemma LeaveCount(s: Queue, slot: Slot, it: Item)
    requires slot in s.chains
    ensures Leave(s, slot, it).count == s.count - 1
  {
  }

  /** From every state the queue can be emptied, and then nobody waits for it any more. */
  lemma {:induction false} CanDrain(s: Queue, maxBytes: nat) returns (run: seq<Step>)
    requires QueueInv(s, maxBytes)
    ensures LegalRun(s, run, maxBytes)
    ensures Run(s, run, maxBytes).count == 0 && Run(s, run, maxBytes).drains == 0
    ensures forall a | a in run :: Internal(a)
    decreases s.count, Distances(s.chains)
  {
    hide QueueInv;
    hide Enabled;
    hide Next;
    hide Distances;
    DrainOnlyIfBusy(s, maxBytes);
    if s.count == 0 {
      run := [];
    } else {
      var a := SomethingMoves(s, maxBytes);
      RankFalls(s, a, maxBytes);
      StepKeepsInv(s, a, maxBytes);
      var rest := CanDrain(Next(s, a, maxBytes), maxBytes);
      run := [a] + rest;
      assert run[1..] == rest;
    }
  }

  // --------------------------------------------------------------- every run comes to an end

  predicate Repeats(a: Step) {
    a.Settles? && a.verdict == Retry
  }

  function Repetitions(run: seq<Step>): nat {
    if run == [] then 0 else (if Repeats(run[0]) then 1 else 0) + Repetitions(run[1..])
  }

  lemma {:induction false} DistancesBound(chains: map<Slot, Chain>)
    ensures Distances(chains) <= 4 * |chains|
    decreases |chains|
  {
    hide SomeSlot;
    if |chains| > 0 {
      var k := SomeSlot(chains);
      assert |chains - {k}| == |chains| - 1;
      DistancesBound(chains - {k});
    }
  }

  /** How many steps are left at most, with f repetitions to come and no more than c chains. */
  ghost function StepsLeft(s: Queue, f: nat, c: nat): int {
    s.count * (4 * c + 1) + Distances(s.chains) + 3 * f
  }

  lemma Fewer(count: int, count': int, d: nat, d': nat, w: nat)
    requires 0 <= count' <= count && d' < w && (count' < count || d' < d)
    ensures count' * w + d' < count * w + d
  {
    if count' < count {
      var k := count - count';
      assert count * w == count' * w + k * w;
      assert k * w == w + (k - 1) * w;
      assert (k - 1) * w >= 0;
    }
  }

  lemma NoNewChains(s: Queue, a: Step, maxBytes: nat)
    requires Enabled(s, a) && Internal(a)
    ensures |Next(s, a, maxBytes).chains| <= |s.chains|
  {
    hide Finish;
    hide Apply;
    var n := Next(s, a, maxBytes);
    if a.Settles? && a.verdict != Retry {
      FinishFields(s, a.slot, a.verdict == Success);
    }
    assert n.chains.Keys <= s.chains.Keys;
    SmallerSet(n.chains.Keys, s.chains.Keys);
    assert |n.chains.Keys| == |n.chains| && |s.chains.Keys| == |s.chains|;
  }

  lemma SmallerSet(a: set<Slot>, b: set<Slot>)
    requires a <= b
    ensures |a| <= |b|
  {
    assert b == a + (b - a);
  }

  lemma StepsLeftFalls(s: Queue, a: Step, maxBytes: nat, f: nat, c: nat)
    requires QueueInv(s, maxBytes) && Enabled(s, a) && Internal(a) && |s.chains| <= c && (Repeats(a) ==> f > 0)
    ensures var n := Next(s, a, maxBytes);
            && |n.chains| <= c && n.count >= 0
            && StepsLeft(n, if Repeats(a) then f - 1 else f, c) < StepsLeft(s, f, c)
  {
    hide QueueInv;
    hide Distances;
    hide Next;
    var n := Next(s, a, maxBytes);
    NoNewChains(s, a, maxBytes);
    DistancesBound(n.chains);
    StepKeepsInv(s, a, maxBytes);
    DrainOnlyIfBusy(n, maxBytes);
    if Repeats(a) {
      RepeatCosts(s, a, maxBytes);
    } else {
      RankFalls(s, a, maxBytes);
      Fewer(s.count, n.count, Distances(s.chains), Distances(n.chains), 4 * c + 1);
    }
  }

  lemma RepeatCosts(s: Queue, a: Step, maxBytes: nat)
    requires Enabled(s, a) && Repeats(a)
    ensures var n := Next(s, a, maxBytes);
            n.count == s.count && Distances(n.chains) <= Distances(s.chains) + 2
  {
    hide Distances;
    hide Finish;
    hide Top;
    OnePhase(s.chains, Next(s, a, maxBytes).chains, a.slot);
  }

  /** EVERY RUN ENDS. Without pushes, and with at most f repeated attempts, the queue takes only a bounded
      number of steps, in whatever order they come. */
  lemma {:induction false} EveryRunEnds(s: Queue, run: seq<Step>, maxBytes: nat, f: nat, c: nat)
    requires QueueInv(s, maxBytes) && LegalRun(s, run, maxBytes) && |s.chains| <= c
    requires (forall i | 0 <= i < |run| :: Internal(run[i])) && Repetitions(run) <= f
    ensures |run| <= StepsLeft(s, f, c)
    decreases |run|
  {
    hide QueueInv;
    hide Enabled;
    hide Next;
    hide StepsLeft;
    hide Repeats;
    if run == [] {
      NoNegativeRank(s, maxBytes, f, c);
    } else {
      StepsLeftFalls(s, run[0], maxBytes, f, c);
      StepKeepsInv(s, run[0], maxBytes);
      EveryRunEnds(Next(s, run[0], maxBytes), run[1..], maxBytes, if Repeats(run[0]) then f - 1 else f, c);
    }
  }

  lemma NoNegativeRank(s: Queue, maxBytes: nat, f: nat, c: nat)
    requires QueueInv(s, maxBytes)
    ensures StepsLeft(s, f, c) >= 0
  {
    hide QueueInv;
    hide Distances;
    DrainOnlyIfBusy(s, maxBytes);
    assert s.count * (4 * c + 1) >= 0;
  }

  /** Nothing can go on by itself. */
  ghost predicate Stopped(s: Queue) {
    forall a | Internal(a) && !Repeats(a) :: !Enabled(s, a)
  }

  /** EVERY RUN DRAINS. A run that goes on as long as a step is enabled is bounded, as above, and where it
      stops nothing is outstanding, every push is settled and nobody waits for the drain. */
  lemma EveryRunDrains(store: map<string, string>, s: Queue, before: seq<Step>, run: seq<Step>, maxBytes: nat)
    requires Reached(store, s, before, maxBytes) && LegalRun(s, run, maxBytes)
    requires forall i | 0 <= i < |run| :: Internal(run[i])
    requires Stopped(Run(s, run, maxBytes))
    ensures |run| <= StepsLeft(s, Repetitions(run), |s.chains|)
    ensures var t := Run(s, run, maxBytes);
            t.count == 0 && t.drains == 0 && forall i: nat :: i < |t.ops| <==> i in t.settled
  {
    hide QueueInv;
    hide Reached;
    hide Stopped;
    hide Enabled;
    hide Run;
    hide LegalRun;
    ReachedIsValid(store, s, before, maxBytes);
    EveryRunEnds(s, run, maxBytes, Repetitions(run), |s.chains|);
    RunKeepsInv(store, s, run, maxBytes);
    var t := Run(s, run, maxBytes);
    StoppedIsIdle(t, maxBytes);
    DrainOnlyIfBusy(t, maxBytes);
    forall i: nat
      ensures i < |t.ops| <==> i in t.settled
    {
      IdleMeansSettled(t, maxBytes, i);
    }
  }

  lemma StoppedIsIdle(s: Queue, maxBytes: nat)
    requires QueueInv(s, maxBytes) && Stopped(s)
    ensures s.count <= 0
  {
    hide QueueInv;
    hide Enabled;
    if s.count > 0 {
      var a := SomethingMoves(s, maxBytes);
    }
  }
}
