/** Ring ownership: processes claim rings by compare-and-swap on their owner fields, release them, and
    crash. Process ids are not used twice. */
module Ownership {
  import opened Bytes
  import opened Submissions
  import opened SubmitItems
  import opened SubmitQueue

  /** A claim under way: the ring looked at, the owner it had, and whether the two passes of the
      claim let it try: the owner was 0, or in the second pass not this process and not alive. */
  datatype Claim = NoClaim | Looked(ring: nat, owner: nat, secondPass: bool) | MayTry(ring: nat, owner: nat)

  /** A push under way, as the process knows it: the record, and head and tail as it loaded them. */
  datatype Pushing = NotPushing | Pushing(r: Submission, head: nat, tail: nat)

  datatype Process = Process(holds: int, claim: Claim, push: Pushing)

  datatype System = System(owners: seq<nat>, rings: seq<Ring>, alive: map<nat, Process>, born: set<nat>)

  datatype Action =
    | Spawn
    | Crash
    | LoadOwner(ring: nat, secondPass: bool)
    | CheckOwner
    | Swap
    | Release
    | Begin(r: Submission)
    | Store(q: nat, b: byte)
    | Publish

  datatype Move = Worker(pid: nat, a: Action) | Consumer(ring: nat, step: Step)

  ghost predicate MayMove(s: System, mv: Move) {
    |s.owners| == |s.rings| &&
    match mv
    case Consumer(i, a) => i < |s.rings| && Consumes(a) && Enabled(s.rings[i], a)
    case Worker(pid, a) =>
      if a.Spawn? then pid > 0 && pid !in s.born
      else pid in s.alive && MayAct(s, s.alive[pid], a)
  }

  ghost predicate MayAct(s: System, p: Process, a: Action)
    requires |s.owners| == |s.rings|
  {
    match a
    case Spawn => false
    case Crash => true
    case LoadOwner(i, _) => p.holds < 0 && i < |s.owners|
    case CheckOwner => p.claim.Looked?
    case Swap => p.claim.MayTry? && p.claim.ring < |s.owners|
    case Release => 0 <= p.holds < |s.rings| && p.push.NotPushing?
    case Begin(r) =>
      0 <= p.holds < |s.rings| && p.push.NotPushing? && Enabled(s.rings[p.holds], Vanish) &&
      Enabled(s.rings[p.holds].(producer := Idle), BeginPush(r))
    case Store(q, _) =>
      0 <= p.holds < |s.rings| && p.push.Pushing? && |s.rings[p.holds].data| > 0 &&
      p.push.head <= q < p.push.head + Total(NewItems(p.push.head, p.push.r, |s.rings[p.holds].data|))
    case Publish =>
      0 <= p.holds < |s.rings| && p.push.Pushing? && |s.rings[p.holds].data| > 0 &&
      LaidOut(s.rings[p.holds].data, p.push.head, NewItems(p.push.head, p.push.r, |s.rings[p.holds].data|))
  }

  /** What the claim does with the owner it saw: a free ring may be tried in both passes, an owned one
      only in the second, and only when the owner is another process that is gone. */
  function Checked(s: System, pid: nat, c: Claim): Claim
    requires c.Looked?
  {
    if c.owner != 0 && (!c.secondPass || c.owner == pid || c.owner in s.alive) then NoClaim
    else MayTry(c.ring, c.owner)
  }

  function WithProcess(s: System, pid: nat, p: Process): System {
    s.(alive := s.alive[pid := p])
  }

  function WithRing(s: System, i: nat, r: Ring): System
    requires i < |s.rings|
  {
    s.(rings := s.rings[i := r])
  }

  /** The bytes and the head are shared: what a process stores changes them whatever the ring's own
      state says about who is pushing. The run of the machine in SubmitQueue keeps up: a new push
      first forgets the one that a process which is gone left unfinished. */
  ghost function Acted(s: System, pid: nat, a: Action, bd: Bounds): System
    requires |s.owners| == |s.rings| && pid in s.alive && MayAct(s, s.alive[pid], a)
  {
    var p := s.alive[pid];
    match a
    case Crash => s.(alive := s.alive - {pid})
    case LoadOwner(i, second) => WithProcess(s, pid, p.(claim := Looked(i, s.owners[i], second)))
    case CheckOwner => WithProcess(s, pid, p.(claim := Checked(s, pid, p.claim)))
    case Swap =>
      if s.owners[p.claim.ring] == p.claim.owner
      then WithProcess(s, pid, Process(p.claim.ring, NoClaim, NotPushing)).(owners := s.owners[p.claim.ring := pid])
      else WithProcess(s, pid, p.(claim := NoClaim))
    case Release => WithProcess(s, pid, p.(holds := -1)).(owners := s.owners[p.holds := 0])
    case Begin(r) =>
      var ring := s.rings[p.holds];
      WithRing(WithProcess(s, pid, p.(push := Pushing(r, ring.head, ring.tail))), p.holds,
               Next(ring.(producer := Idle), bd, BeginPush(r)))
    case Store(q, b) =>
      var ring := s.rings[p.holds];
      WithRing(s, p.holds, ring.(data := ring.data[Wrapping.Phys(q, |ring.data|) := b]))
    case Publish =>
      var ring, ni := s.rings[p.holds], NewItems(p.push.head, p.push.r, |s.rings[p.holds].data|);
      var head := p.push.head + Total(ni);
      WithRing(WithProcess(s, pid, p.(push := NotPushing)), p.holds,
               ring.(head := head, producer := Idle, items := ring.items + ni,
                     accepted := ring.accepted + [Push(p.push.r, head)]))
  }

  ghost function Moved(s: System, mv: Move, bd: Bounds): System
    requires MayMove(s, mv)
  {
    match mv
    case Consumer(i, a) => WithRing(s, i, Next(s.rings[i], bd, a))
    case Worker(pid, a) =>
      if a.Spawn? then s.(alive := s.alive[pid := Process(-1, NoClaim, NotPushing)], born := s.born + {pid})
      else Acted(s, pid, a, bd)
  }

  // ------------------------------------------------------------------------ the invariant

  ghost predicate ClaimOk(s: System, c: Claim) {
    c.MayTry? && c.owner != 0 ==> c.owner in s.born && c.owner !in s.alive
  }

  /** Ring i is held by process pid: its owner field says so, and the ring is in the middle of exactly
      the push that the process is making. */
  ghost predicate HoldOk(s: System, pid: nat, p: Process)
    requires |s.owners| == |s.rings|
  {
    p.holds >= 0 ==>
      && p.holds < |s.owners| && s.owners[p.holds] == pid
      && (p.push.Pushing? ==>
            && s.rings[p.holds].producer == Writing(p.push.r, p.push.tail)
            && s.rings[p.holds].head == p.push.head)
  }

  ghost predicate ProcessOk(s: System, pid: nat, p: Process)
    requires |s.owners| == |s.rings|
  {
    && pid in s.born && pid != 0 && ClaimOk(s, p.claim) && HoldOk(s, pid, p)
    && (if p.holds < 0 then p.push.NotPushing? else p.claim.NoClaim?)
    && (p.claim.Looked? && p.claim.owner != 0 ==> p.claim.owner in s.born)
  }

  ghost predicate SystemInv(s: System) {
    && |s.owners| == |s.rings|
    && (forall i | 0 <= i < |s.owners| && s.owners[i] != 0 :: s.owners[i] in s.born)
    && (forall i | 0 <= i < |s.rings| :: RingInv(s.rings[i]))
    && forall pid | pid in s.alive :: ProcessOk(s, pid, s.alive[pid])
  }

  /** MUTUAL EXCLUSION. No two live processes hold the same ring. */
  lemma OneOwner(s: System, p: nat, q: nat)
    requires SystemInv(s) && p in s.alive && q in s.alive && p != q
    requires 0 <= s.alive[p].holds && 0 <= s.alive[q].holds
    ensures s.alive[p].holds != s.alive[q].holds
  {
    hide RingInv;
    assert ProcessOk(s, p, s.alive[p]) && ProcessOk(s, q, s.alive[q]);
  }

  // ------------------------------------------------- a ring sees a run of its own machine

  lemma OneStep(r: Ring, bd: Bounds, a: Step)
    requires Enabled(r, a)
    ensures LegalRun(r, bd, [a]) && Run(r, bd, [a]) == Next(r, bd, a)
  {
    hide Enabled;
    hide Next;
    RunExtends(r, bd, [], a);
    assert [] + [a] == [a];
  }

  lemma TwoSteps(r: Ring, bd: Bounds, a: Step, b: Step)
    requires Enabled(r, a) && Enabled(Next(r, bd, a), b)
    ensures LegalRun(r, bd, [a, b]) && Run(r, bd, [a, b]) == Next(Next(r, bd, a), bd, b)
  {
    hide Enabled;
    hide Next;
    OneStep(r, bd, a);
    RunExtends(r, bd, [a], b);
    assert [a] + [b] == [a, b];
  }

  /** Whatever a process does to its ring is what the machine of the ring allows. */
  lemma WorkerRing(s: System, pid: nat, a: Action, bd: Bounds) returns (run: seq<Step>)
    requires SystemInv(s) && MayMove(s, Worker(pid, a)) && (a.Begin? || a.Store? || a.Publish?)
    ensures var i := s.alive[pid].holds;
            && LegalRun(s.rings[i], bd, run)
            && Run(s.rings[i], bd, run) == Moved(s, Worker(pid, a), bd).rings[i]
  {
    hide RingInv;
    hide LaidOut;
    hide NewItems;
    hide Accepts;
    hide LegalRun;
    hide Run;
    var p := s.alive[pid];
    var ring := s.rings[p.holds];
    assert ProcessOk(s, pid, p);
    RingBounds(ring);
    match a
    case Begin(r) =>
      run := [Vanish, BeginPush(r)];
      TwoSteps(ring, bd, Vanish, BeginPush(r));
    case Store(q, b) =>
      run := [StoreByte(q, b)];
      OneStep(ring, bd, StoreByte(q, b));
    case Publish =>
      run := [PublishHead];
      OneStep(ring, bd, PublishHead);
  }

  lemma RingBounds(r: Ring)
    requires RingInv(r)
    ensures |r.data| > 0 && r.tail <= r.head <= r.tail + |r.data|
  {
    hide LaidOut;
    hide ConsumerInv;
    hide FlowInv;
    hide Followed;
  }

  /** Every move of the system is a run of the machine for every ring. */
  lemma RingMoves(s: System, mv: Move, bd: Bounds, i: nat) returns (run: seq<Step>)
    requires SystemInv(s) && MayMove(s, mv) && i < |s.rings|
    ensures |Moved(s, mv, bd).rings| == |s.rings| && LegalRun(s.rings[i], bd, run)
    ensures Run(s.rings[i], bd, run) == Moved(s, mv, bd).rings[i]
  {
    hide RingInv;
    hide Next;
    hide Enabled;
    hide LaidOut;
    hide NewItems;
    hide ProcessOk;
    run := [];
    if mv.Consumer? {
      if mv.ring == i {
        run := [mv.step];
        OneStep(s.rings[i], bd, mv.step);
      }
    } else if (mv.a.Begin? || mv.a.Store? || mv.a.Publish?) && s.alive[mv.pid].holds == i {
      run := WorkerRing(s, mv.pid, mv.a, bd);
    }
  }

  // ---------------------------------------------------------------------------- each move

  lemma RingsStayValid(s: System, mv: Move, bd: Bounds)
    requires SystemInv(s) && MayMove(s, mv)
    ensures |Moved(s, mv, bd).rings| == |s.rings|
    ensures forall i | 0 <= i < |s.rings| :: RingInv(Moved(s, mv, bd).rings[i])
  {
    hide RingInv;
    hide Moved;
    hide LegalRun;
    hide Run;
    hide MayMove;
    hide ProcessOk;
    RingCount(s, mv, bd);
    forall i | 0 <= i < |s.rings|
      ensures RingInv(Moved(s, mv, bd).rings[i])
    {
      var run := RingMoves(s, mv, bd, i);
      RunKeepsInv(s.rings[i], bd, run);
    }
  }

  lemma RingCount(s: System, mv: Move, bd: Bounds)
    requires MayMove(s, mv)
    ensures |Moved(s, mv, bd).rings| == |s.rings| == |Moved(s, mv, bd).owners|
  {
    hide Next;
    hide Enabled;
    hide LaidOut;
    hide NewItems;
  }

  /** What a move leaves alone for a process that did not make it. */
  ghost predicate Bystander(s: System, t: System, q: nat)
    requires q in s.alive
  {
    && |t.owners| == |s.owners| && |t.rings| == |s.rings| && s.born <= t.born
    && (0 <= s.alive[q].holds < |s.owners| ==>
          && t.owners[s.alive[q].holds] == s.owners[s.alive[q].holds]
          && (s.alive[q].holds < |s.rings| ==>
                && t.rings[s.alive[q].holds].producer == s.rings[s.alive[q].holds].producer
                && t.rings[s.alive[q].holds].head == s.rings[s.alive[q].holds].head))
    && (forall x | x in t.alive && x !in s.alive :: x !in s.born)
  }

  lemma BystanderKeeps(s: System, t: System, q: nat)
    requires q in s.alive && |s.owners| == |s.rings| && ProcessOk(s, q, s.alive[q]) && Bystander(s, t, q)
    ensures ProcessOk(t, q, s.alive[q])
  {
  }

  lemma OthersStandBy(s: System, pid: nat, a: Action, bd: Bounds, q: nat)
    requires SystemInv(s) && MayMove(s, Worker(pid, a)) && q in s.alive && q != pid
    ensures Bystander(s, Moved(s, Worker(pid, a), bd), q)
  {
    hide RingInv;
    hide Next;
    hide Enabled;
    hide LaidOut;
    hide NewItems;
    assert ProcessOk(s, q, s.alive[q]);
    if pid in s.alive {
      assert ProcessOk(s, pid, s.alive[pid]);
    }
  }

  lemma ActorStaysOk(s: System, pid: nat, a: Action, bd: Bounds)
    requires SystemInv(s) && MayMove(s, Worker(pid, a)) && !a.Crash?
    ensures var t := Moved(s, Worker(pid, a), bd);
            |t.owners| == |t.rings| && pid in t.alive && ProcessOk(t, pid, t.alive[pid])
  {
    hide RingInv;
    hide Enabled;
    hide LaidOut;
    hide NewItems;
    if pid in s.alive {
      assert ProcessOk(s, pid, s.alive[pid]);
    }
  }

  lemma ConsumerStandsBy(s: System, i: nat, a: Step, bd: Bounds, q: nat)
    requires SystemInv(s) && MayMove(s, Consumer(i, a)) && q in s.alive
    ensures Bystander(s, Moved(s, Consumer(i, a), bd), q)
  {
    hide RingInv;
    hide Take;
    hide LaidOut;
    hide ProcessOk;
  }

  lemma OwnersStayBorn(s: System, mv: Move, bd: Bounds)
    requires SystemInv(s) && MayMove(s, mv)
    ensures var t := Moved(s, mv, bd);
            forall i | 0 <= i < |t.owners| && t.owners[i] != 0 :: t.owners[i] in t.born
  {
    hide RingInv;
    hide Next;
    hide Enabled;
    hide LaidOut;
    hide NewItems;
    if mv.Worker? && mv.pid in s.alive {
      assert ProcessOk(s, mv.pid, s.alive[mv.pid]);
    }
  }

  lemma MoveKeepsInv(s: System, mv: Move, bd: Bounds)
    requires SystemInv(s) && MayMove(s, mv)
    ensures SystemInv(Moved(s, mv, bd))
  {
    hide RingInv;
    hide MayMove;
    hide Moved;
    hide ProcessOk;
    hide Bystander;
    var t := Moved(s, mv, bd);
    RingCount(s, mv, bd);
    RingsStayValid(s, mv, bd);
    OwnersStayBorn(s, mv, bd);
    AliveAfter(s, mv, bd);
    forall q | q in t.alive
      ensures ProcessOk(t, q, t.alive[q])
    {
      if mv.Consumer? {
        ConsumerStandsBy(s, mv.ring, mv.step, bd, q);
        BystanderKeeps(s, t, q);
      } else if q != mv.pid {
        OthersStandBy(s, mv.pid, mv.a, bd, q);
        BystanderKeeps(s, t, q);
      } else {
        ActorStaysOk(s, mv.pid, mv.a, bd);
      }
    }
  }

  lemma AliveAfter(s: System, mv: Move, bd: Bounds)
    requires MayMove(s, mv)
    ensures var t := Moved(s, mv, bd);
            && (forall q | q in t.alive && (mv.Consumer? || q != mv.pid) :: q in s.alive && t.alive[q] == s.alive[q])
            && (mv.Worker? && mv.pid in t.alive ==> !mv.a.Crash?)
  {
    hide Next;
    hide Enabled;
    hide LaidOut;
    hide NewItems;
  }

  // ---------------------------------------------------------------------------- whole runs

  ghost predicate LegalMoves(s: System, moves: seq<Move>, bd: Bounds)
    decreases |moves|
  {
    moves == [] || (MayMove(s, moves[0]) && LegalMoves(Moved(s, moves[0], bd), moves[1..], bd))
  }

  ghost function After(s: System, moves: seq<Move>, bd: Bounds): System
    requires LegalMoves(s, moves, bd)
    decreases |moves|
  {
    if moves == [] then s else After(Moved(s, moves[0], bd), moves[1..], bd)
  }

  /** A fresh segment: free rings, nobody alive. */
  ghost predicate Fresh(s: System) {
    && |s.owners| == |s.rings| && s.alive == map[] && (forall i | 0 <= i < |s.owners| :: s.owners[i] == 0)
    && forall i | 0 <= i < |s.rings| ::
         s.rings[i] == Unused(s.rings[i].data) && 0 < |s.rings[i].data| < TWO_32 && |s.rings[i].data| % 8 == 0
  }

  lemma FreshIsValid(s: System)
    requires Fresh(s)
    ensures SystemInv(s)
  {
    hide RingInv;
    forall i | 0 <= i < |s.rings|
      ensures RingInv(s.rings[i])
    {
      UnusedIsValid(s.rings[i].data);
    }
  }

  lemma {:induction false} MovesKeepInv(s: System, moves: seq<Move>, bd: Bounds)
    requires SystemInv(s) && LegalMoves(s, moves, bd)
    ensures SystemInv(After(s, moves, bd))
    decreases |moves|
  {
    hide SystemInv;
    hide MayMove;
    hide Moved;
    if moves != [] {
      MoveKeepsInv(s, moves[0], bd);
      MovesKeepInv(Moved(s, moves[0], bd), moves[1..], bd);
    }
  }

  /** EXCLUSIVE OWNERSHIP, over every run of claims, pushes, drains, releases and crashes. */
  lemma NeverTwoOwners(s: System, moves: seq<Move>, bd: Bounds, p: nat, q: nat)
    requires Fresh(s) && LegalMoves(s, moves, bd) && p != q
    requires var t := After(s, moves, bd);
             p in t.alive && q in t.alive && 0 <= t.alive[p].holds && 0 <= t.alive[q].holds
    ensures After(s, moves, bd).alive[p].holds != After(s, moves, bd).alive[q].holds
  {
    hide SystemInv;
    hide LegalMoves;
    hide After;
    FreshIsValid(s);
    MovesKeepInv(s, moves, bd);
    OneOwner(After(s, moves, bd), p, q);
  }

  /** DELIVERY SURVIVES. Whoever owned a ring and however its owners ended, what was applied from it is
      what was published into it, each submission once and in order; all of it once it is drained. */
  lemma DeliverySurvives(s: System, moves: seq<Move>, bd: Bounds, i: nat)
    requires Fresh(s) && LegalMoves(s, moves, bd) && i < |After(s, moves, bd).rings|
    ensures var r := After(s, moves, bd).rings[i];
            && r.delivered <= r.accepted
            && (r.consumer.Resting? && r.tail == r.head ==> r.delivered == r.accepted)
  {
    hide RingInv;
    hide ProcessOk;
    hide LegalMoves;
    hide After;
    FreshIsValid(s);
    MovesKeepInv(s, moves, bd);
    InOrder(After(s, moves, bd).rings[i]);
  }

  lemma InOrder(r: Ring)
    requires RingInv(r)
    ensures r.delivered <= r.accepted
    ensures r.consumer.Resting? && r.tail == r.head ==> r.delivered == r.accepted
  {
    hide LaidOut;
    hide Len;
    hide CountersInv;
    if r.consumer.Resting? && r.tail == r.head {
      NothingBetween(r);
    }
  }
}
