/** Claims succeed: when a process gets a ring, what a claim that nobody disturbs ends with, and runs in which
    processes hold rings, push, crash, and are succeeded. */
module Claims {
  import opened Bytes
  import opened Wrapping
  import opened Submissions
  import opened SubmitItems
  import opened SubmitQueue
  import opened Ownership

  // ----------------------------------------------------------------------- composing runs

  lemma {:induction false} Join(s: System, a: seq<Move>, b: seq<Move>, bd: Bounds)
    requires LegalMoves(s, a, bd) && LegalMoves(After(s, a, bd), b, bd)
    ensures LegalMoves(s, a + b, bd)
    ensures After(s, a + b, bd) == After(After(s, a, bd), b, bd)
    decreases |a|
  {
    hide MayMove;
    hide Moved;
    if a == [] {
      assert a + b == b;
    } else {
      assert (a + b)[1..] == a[1..] + b && (a + b)[0] == a[0];
      Join(Moved(s, a[0], bd), a[1..], b, bd);
    }
  }

  lemma One(s: System, mv: Move, bd: Bounds)
    requires MayMove(s, mv)
    ensures LegalMoves(s, [mv], bd) && After(s, [mv], bd) == Moved(s, mv, bd)
  {
    hide MayMove;
    hide Moved;
    assert [mv][1..] == [];
    assert LegalMoves(Moved(s, mv, bd), [], bd);
  }

  lemma Then(s: System, a: seq<Move>, mv: Move, bd: Bounds)
    requires LegalMoves(s, a, bd) && MayMove(After(s, a, bd), mv)
    ensures LegalMoves(s, a + [mv], bd)
    ensures After(s, a + [mv], bd) == Moved(After(s, a, bd), mv, bd)
  {
    hide MayMove;
    hide Moved;
    hide LegalMoves;
    hide After;
    One(After(s, a, bd), mv, bd);
    Join(s, a, [mv], bd);
  }

  // --------------------------------------------------------------------- one claim, alone

  /** May this process take ring i? It is free, or, in the second pass, its owner is another process that is
      gone. */
  predicate Free(s: System, pid: nat, i: nat, secondPass: bool)
    requires i < |s.owners|
  {
    s.owners[i] == 0 || (secondPass && s.owners[i] != pid && s.owners[i] !in s.alive)
  }

  /** What a claim of ring i does that nobody disturbs: two moves, and a swap if there is one to make. */
  function Attempt(pid: nat, i: nat, secondPass: bool, swap: bool): seq<Move> {
    [Worker(pid, LoadOwner(i, secondPass)), Worker(pid, CheckOwner)] + if swap then [Worker(pid, Swap)] else []
  }

  /** A CLAIM TAKES WHAT IS FREE. Nobody disturbs it: it comes to the swap, and the process holds the ring, if and
      only if the ring is free; everything else is as it was, what is queued in the ring included. */
  lemma ClaimAlone(s: System, pid: nat, i: nat, secondPass: bool, bd: Bounds)
    requires SystemInv(s) && pid in s.alive && s.alive[pid].holds < 0 && i < |s.owners|
    ensures LegalMoves(s, Attempt(pid, i, secondPass, false), bd)
    ensures var t := After(s, Attempt(pid, i, secondPass, false), bd);
            && pid in t.alive && t == s.(alive := s.alive[pid := s.alive[pid].(claim := t.alive[pid].claim)])
            && (MayMove(t, Worker(pid, Swap)) <==> Free(s, pid, i, secondPass))
    ensures Free(s, pid, i, secondPass) ==>
              && LegalMoves(s, Attempt(pid, i, secondPass, true), bd)
              && After(s, Attempt(pid, i, secondPass, true), bd) ==
                 s.(owners := s.owners[i := pid], alive := s.alive[pid := Process(i, NoClaim, NotPushing)])
  {
    hide RingInv;
    assert ProcessOk(s, pid, s.alive[pid]);
    var load, check := Worker(pid, LoadOwner(i, secondPass)), Worker(pid, CheckOwner);
    One(s, load, bd);
    Then(s, [load], check, bd);
    assert [load] + [check] == Attempt(pid, i, secondPass, false);
    if Free(s, pid, i, secondPass) {
      Then(s, Attempt(pid, i, secondPass, false), Worker(pid, Swap), bd);
      assert Attempt(pid, i, secondPass, false) + [Worker(pid, Swap)] == Attempt(pid, i, secondPass, true);
    }
  }

  // ---------------------------------------------------------------------- the whole claim

  /** The ring that the two passes of a claim come to first, from ring i of this pass on; -1 if there is none. */
  function Found(s: System, pid: nat, i: nat, secondPass: bool): (r: int)
    requires i <= |s.owners|
    ensures -1 <= r < |s.owners|
    ensures r >= 0 ==> Free(s, pid, r, true)
    ensures r < 0 ==> forall x: nat | (if secondPass then i <= x else true) && x < |s.owners| :: !Free(s, pid, x, true)
    ensures !secondPass && (exists x: nat :: i <= x < |s.owners| && s.owners[x] == 0) ==> r >= 0 && s.owners[r] == 0
    decreases !secondPass, |s.owners| - i
  {
    if i == |s.owners| then (if secondPass then -1 else Found(s, pid, 0, true))
    else if Free(s, pid, i, secondPass) then i
    else Found(s, pid, i + 1, secondPass)
  }

  /** Only the claim of the process may differ. */
  ghost predicate SameButClaim(s: System, t: System, pid: nat)
    requires pid in s.alive
  {
    pid in t.alive && t == s.(alive := s.alive[pid := s.alive[pid].(claim := t.alive[pid].claim)])
  }

  lemma FreeStays(s: System, t: System, pid: nat, i: nat, secondPass: bool)
    requires pid in s.alive && SameButClaim(s, t, pid) && i <= |s.owners|
    ensures Found(t, pid, i, secondPass) == Found(s, pid, i, secondPass)
    decreases !secondPass, |s.owners| - i
  {
    if i == |s.owners| {
      if !secondPass {
        FreeStays(s, t, pid, 0, true);
      }
    } else {
      assert Free(t, pid, i, secondPass) == Free(s, pid, i, secondPass);
      FreeStays(s, t, pid, i + 1, secondPass);
    }
  }

  /** THE WHOLE CLAIM, if nobody disturbs it: the process ends with the first free ring, else with the first
      whose owner is gone, and with none only if all rings are held by processes that live. */
  lemma {:induction false} WholeClaim(s: System, pid: nat, i: nat, secondPass: bool, bd: Bounds)
    returns (moves: seq<Move>)
    requires SystemInv(s) && pid in s.alive && s.alive[pid].holds < 0 && i <= |s.owners|
    ensures LegalMoves(s, moves, bd) && forall mv | mv in moves :: mv.Worker? && mv.pid == pid
    ensures var r, t := Found(s, pid, i, secondPass), After(s, moves, bd);
            if r < 0 then SameButClaim(s, t, pid)
            else t == s.(owners := s.owners[r := pid], alive := s.alive[pid := Process(r, NoClaim, NotPushing)])
    decreases !secondPass, |s.owners| - i
  {
    hide SystemInv;
    hide MayMove;
    hide Moved;
    hide LegalMoves;
    hide After;
    if i == |s.owners| {
      if secondPass {
        moves := [];
        NoMoves(s, pid, bd);
      } else {
        moves := WholeClaim(s, pid, 0, true, bd);
      }
    } else {
      ClaimAlone(s, pid, i, secondPass, bd);
      if Free(s, pid, i, secondPass) {
        moves := Attempt(pid, i, secondPass, true);
      } else {
        var first := Attempt(pid, i, secondPass, false);
        var t := After(s, first, bd);
        StillValid(s, first, bd);
        FreeStays(s, t, pid, i + 1, secondPass);
        var rest := WholeClaim(t, pid, i + 1, secondPass, bd);
        Join(s, first, rest, bd);
        moves := first + rest;
      }
    }
  }

  lemma NoMoves(s: System, pid: nat, bd: Bounds)
    requires pid in s.alive
    ensures LegalMoves(s, [], bd) && After(s, [], bd) == s && SameButClaim(s, s, pid)
  {
  }

  lemma StillValid(s: System, moves: seq<Move>, bd: Bounds)
    requires SystemInv(s) && LegalMoves(s, moves, bd)
    ensures SystemInv(After(s, moves, bd))
  {
    MovesKeepInv(s, moves, bd);
  }

  /** A ring that was released, or whose owner has crashed, is there for every other live process. */
  lemma GivenBack(s: System, pid: nat, a: Action, q: nat, bd: Bounds)
    requires SystemInv(s) && pid in s.alive && q in s.alive && q != pid && 0 <= s.alive[pid].holds
    requires (a.Release? && s.alive[pid].push.NotPushing?) || a.Crash?
    ensures MayMove(s, Worker(pid, a))
    ensures var t := Moved(s, Worker(pid, a), bd);
            s.alive[pid].holds < |t.owners| && q in t.alive && Free(t, q, s.alive[pid].holds, a.Crash?)
  {
    hide RingInv;
    assert ProcessOk(s, pid, s.alive[pid]);
  }

  // --------------------------------------------------------------------- pushing what fits

  /** What the ring holds once the block of r is filled. */
  function Target(d: seq<byte>, head: nat, r: Submission): (t: seq<byte>)
    requires |d| > 0
    ensures |t| == |d|
  {
    var pad := PadAt(head, r.Size(), |d|);
    var off, at := Phys(head, |d|), Phys(head + pad, |d|);
    seq(|d|, a requires 0 <= a < |d| =>
      if at <= a < at + |r.Image()| then r.Image()[a - at]
      else if HEADER <= pad && off <= a < off + HEADER then EncodeHeader(pad, OP_SKIP, 0, 0, 0, 0)[a - off]
      else d[a])
  }

  lemma RecordThere(d: seq<byte>, head: nat, r: Submission)
    requires |d| > 0 && r.Fits() && r.op != OP_SKIP && 2 * r.Size() <= |d|
    ensures ItemAt(Target(d, head, r), head + PadAt(head, r.Size(), |d|), Data(r))
  {
    hide EncodeHeader;
    hide Submission.Image;
    hide Submission.Fits;
    var pad := PadAt(head, r.Size(), |d|);
    PhysAdd(head, pad, |d|);
    hide Phys;
    var t, at := Target(d, head, r), Phys(head + pad, |d|);
    assert t[at..at + |r.Image()|] == r.Image();
  }

  lemma SkipThere(d: seq<byte>, head: nat, r: Submission)
    requires 0 < |d| < TWO_32 && |d| % 8 == 0 && head % 8 == 0
    requires r.Size() + PadAt(head, r.Size(), |d|) <= |d| && PadAt(head, r.Size(), |d|) >= HEADER
    ensures ItemAt(Target(d, head, r), head, Skip(PadAt(head, r.Size(), |d|)))
  {
    hide EncodeHeader;
    hide Submission.Image;
    var pad := PadAt(head, r.Size(), |d|);
    PadAligned(head, r.Size(), |d|);
    PhysAdd(head, pad, |d|);
    hide Phys;
    var t, off := Target(d, head, r), Phys(head, |d|);
    var e := EncodeHeader(pad, OP_SKIP, 0, 0, 0, 0);
    assert Phys(head + pad, |d|) == 0 && |r.Image()| <= off && off + pad == |d|;
    forall k | 0 <= k < HEADER
      ensures t[off..off + HEADER][k] == e[k]
    {
      assert t[off..off + HEADER][k] == t[off + k];
    }
    assert t[off..off + HEADER] == e;
  }

  lemma TargetIsLaidOut(d: seq<byte>, head: nat, tail: nat, r: Submission)
    requires 0 < |d| < TWO_32 && |d| % 8 == 0 && head % 8 == 0 && tail <= head <= tail + |d|
    requires r.Fits() && r.op != OP_SKIP && Accepts(head, tail, r.Size(), |d|)
    ensures LaidOut(Target(d, head, r), head, NewItems(head, r, |d|))
  {
    hide Target;
    hide Submission.Fits;
    var n, pad, t := r.Size(), PadAt(head, r.Size(), |d|), Target(d, head, r);
    RecordThere(d, head, r);
    if pad >= HEADER {
      SkipThere(d, head, r);
    }
    LaidOutTwo(t, head, Filler(pad), r);
  }

  lemma LaidOutTwo(t: seq<byte>, head: nat, filler: seq<Item>, r: Submission)
    requires |t| > 0 && |filler| <= 1 && (filler != [] ==> ItemAt(t, head, filler[0]))
    requires ItemAt(t, head + Total(filler), Data(r))
    ensures LaidOut(t, head, filler + [Data(r)])
  {
    hide ItemAt;
    hide Len;
    assert [Data(r)][1..] == [] && LaidOut(t, head + Total(filler), [Data(r)]);
    if filler == [] {
      assert filler + [Data(r)] == [Data(r)];
    } else {
      assert (filler + [Data(r)])[1..] == [Data(r)] && filler[1..] == [];
    }
  }

  /** The bytes d0 of the ring with the first k bytes of the block at `head` stored. */
  ghost predicate Filling(d0: seq<byte>, d: seq<byte>, goal: seq<byte>, head: nat, k: nat) {
    && |d| == |d0| == |goal| > 0
    && (forall q | head <= q < head + k :: d[Phys(q, |d|)] == goal[Phys(q, |d|)])
    && (forall a | 0 <= a < |d| :: d[a] == d0[a] || d[a] == goal[a])
  }

  /** What differs lies in the block. */
  lemma GoalIsInBlock(d: seq<byte>, head: nat, r: Submission, a: nat) returns (q: nat)
    requires |d| > 0 && a < |d| && Target(d, head, r)[a] != d[a]
    requires 2 * r.Size() <= |d|
    ensures head <= q < head + Total(NewItems(head, r, |d|)) && a == Phys(q, |d|)
  {
    hide EncodeHeader;
    hide Submission.Image;
    var pad := PadAt(head, r.Size(), |d|);
    NewItemsSize(head, r, |d|);
    PhysAdd(head, pad, |d|);
    var off, at := Phys(head, |d|), Phys(head + pad, |d|);
    if at <= a < at + |r.Image()| {
      q := head + pad + (a - at);
      PhysAdd(head + pad, a - at, |d|);
    } else {
      q := head + (a - off);
      PhysAdd(head, a - off, |d|);
    }
  }

  lemma Filled(d0: seq<byte>, d: seq<byte>, head: nat, r: Submission)
    requires |d0| > 0 && 2 * r.Size() <= |d0|
    requires Filling(d0, d, Target(d0, head, r), head, Total(NewItems(head, r, |d0|)))
    ensures d == Target(d0, head, r)
  {
    hide Target;
    hide NewItems;
    hide Total;
    hide Phys;
    forall a | 0 <= a < |d|
      ensures d[a] == Target(d0, head, r)[a]
    {
      if Target(d0, head, r)[a] != d0[a] {
        var q := GoalIsInBlock(d0, head, r, a);
      }
    }
  }

  lemma OneMoreByte(d0: seq<byte>, d: seq<byte>, goal: seq<byte>, head: nat, k: nat)
    requires Filling(d0, d, goal, head, k)
    ensures var a := Phys(head + k, |d|); Filling(d0, d[a := goal[a]], goal, head, k + 1)
  {
    hide Phys;
  }

  /** Process pid is in the middle of pushing r into ring i. */
  ghost predicate Pushes(s: System, pid: nat, i: nat, r: Submission) {
    && |s.owners| == |s.rings| && i < |s.rings| && |s.rings[i].data| > 0 && pid in s.alive && s.alive[pid].holds == i
    && s.alive[pid].push.Pushing? && s.alive[pid].push.r == r && s.alive[pid].push.head == s.rings[i].head
  }

  lemma {:induction false} FillBlock(s: System, pid: nat, i: nat, r: Submission, goal: seq<byte>, k: nat, bd: Bounds)
    returns (moves: seq<Move>)
    requires Pushes(s, pid, i, r) && |goal| == |s.rings[i].data|
    requires k <= Total(NewItems(s.rings[i].head, r, |s.rings[i].data|))
    ensures LegalMoves(s, moves, bd) && forall mv | mv in moves :: mv.Worker? && mv.pid == pid
    ensures var t := After(s, moves, bd);
            && Pushes(t, pid, i, r) && t == WithRing(s, i, s.rings[i].(data := t.rings[i].data))
            && Filling(s.rings[i].data, t.rings[i].data, goal, s.rings[i].head, k)
  {
    hide NewItems;
    hide Total;
    hide Phys;
    hide LegalMoves;
    hide After;
    if k == 0 {
      moves := [];
      NoMoves(s, pid, bd);
    } else {
      var first := FillBlock(s, pid, i, r, goal, k - 1, bd);
      var t := After(s, first, bd);
      var q := s.rings[i].head + (k - 1);
      var mv := Worker(pid, Store(q, goal[Phys(q, |goal|)]));
      Then(s, first, mv, bd);
      OneMoreByte(s.rings[i].data, t.rings[i].data, goal, s.rings[i].head, k - 1);
      moves := first + [mv];
    }
  }

  /** A HOLDER CAN PUSH whatever there is a place for: some moves of its own publish the record, and nothing else
      is different afterwards. */
  lemma HolderCanPush(s: System, pid: nat, r: Submission, bd: Bounds) returns (moves: seq<Move>)
    requires SystemInv(s) && pid in s.alive && 0 <= s.alive[pid].holds < |s.rings| && s.alive[pid].push.NotPushing?
    requires r.Fits() && r.op != OP_SKIP
    requires var ring := s.rings[s.alive[pid].holds];
             && |ring.data| > 0 && 2 * r.Size() <= |ring.data|
             && exists q: nat :: Placeable(q, ring.head, ring.tail, r.Size(), |ring.data|)
    ensures LegalMoves(s, moves, bd) && forall mv | mv in moves :: mv.Worker? && mv.pid == pid
    ensures var i, t := s.alive[pid].holds, After(s, moves, bd);
            && |t.rings| == |s.rings| && t == s.(rings := s.rings[i := t.rings[i]])
            && t.rings[i].accepted == s.rings[i].accepted + [Push(r, t.rings[i].head)]
            && t.rings[i].delivered == s.rings[i].delivered && t.rings[i].tail == s.rings[i].tail
  {
    hide RingInv;
    hide LegalMoves;
    hide After;
    hide NewItems;
    hide Total;
    hide LaidOut;
    hide Accepts;
    hide Placeable;
    hide Target;
    hide Filling;
    hide Submission.Fits;
    var p, i := s.alive[pid], s.alive[pid].holds;
    var ring := s.rings[i];
    assert ProcessOk(s, pid, p);
    RingBounds(ring);
    CounterParts(ring);
    AcceptsIffPlaceable(ring.head, ring.tail, r.Size(), |ring.data|);
    var goal := Target(ring.data, ring.head, r);
    TargetIsLaidOut(ring.data, ring.head, ring.tail, r);
    One(s, Worker(pid, Begin(r)), bd);
    var s1 := Moved(s, Worker(pid, Begin(r)), bd);
    var fill := FillBlock(s1, pid, i, r, goal, Total(NewItems(ring.head, r, |ring.data|)), bd);
    var s2 := After(s1, fill, bd);
    Filled(ring.data, s2.rings[i].data, ring.head, r);
    Join(s, [Worker(pid, Begin(r))], fill, bd);
    Then(s, [Worker(pid, Begin(r))] + fill, Worker(pid, Publish), bd);
    moves := [Worker(pid, Begin(r))] + fill + [Worker(pid, Publish)];
  }

  lemma CounterParts(r: Ring)
    requires RingInv(r)
    ensures 0 < |r.data| < TWO_32 && |r.data| % 8 == 0 && r.head % 8 == 0
  {
    hide LaidOut;
    hide ConsumerInv;
    hide FlowInv;
    hide Followed;
  }

  // ----------------------------------------------------------------------------- draining

  function Drains(i: nat, run: seq<Step>): seq<Move> {
    if run == [] then [] else [Consumer(i, run[0])] + Drains(i, run[1..])
  }

  /** What the consumer does to one ring, as moves of the system. */
  lemma {:induction false} ConsumerMoves(s: System, i: nat, run: seq<Step>, bd: Bounds)
    requires |s.owners| == |s.rings| && i < |s.rings| && LegalRun(s.rings[i], bd, run)
    requires forall a | a in run :: Consumes(a)
    ensures LegalMoves(s, Drains(i, run), bd)
    ensures After(s, Drains(i, run), bd) == WithRing(s, i, Run(s.rings[i], bd, run))
    decreases |run|
  {
    hide Enabled;
    hide Next;
    if run == [] {
      assert s.rings[i := s.rings[i]] == s.rings;
    } else {
      var t := Moved(s, Consumer(i, run[0]), bd);
      assert Drains(i, run)[1..] == Drains(i, run[1..]);
      ConsumerMoves(t, i, run[1..], bd);
    }
  }

  /** Whoever holds a ring or held it, an admissible submission that is next in it gets through. */
  lemma RingDelivers(s: System, i: nat, bd: Bounds) returns (moves: seq<Move>)
    requires SystemInv(s) && i < |s.rings| && |s.rings[i].delivered| < |s.rings[i].accepted|
    requires Admissible(s.rings[i].accepted[|s.rings[i].delivered|].r, bd.maxKey, bd.maxVal)
    ensures LegalMoves(s, moves, bd)
    ensures var t := After(s, moves, bd);
            && |t.rings| == |s.rings| && t == s.(rings := s.rings[i := t.rings[i]])
            && t.rings[i].accepted == s.rings[i].accepted
            && t.rings[i].delivered == s.rings[i].delivered + [s.rings[i].accepted[|s.rings[i].delivered|]]
  {
    hide RingInv;
    hide LegalMoves;
    hide After;
    hide LegalRun;
    hide Run;
    hide Admissible;
    var run := NextIsDelivered(s.rings[i], bd);
    ConsumerMoves(s, i, run, bd);
    moves := Drains(i, run);
  }

  // ----------------------------------------------------------------------------- whole runs

  /** A new process claims ring i, which is free for it. */
  lemma SpawnAndClaim(s: System, pid: nat, i: nat, secondPass: bool, bd: Bounds) returns (moves: seq<Move>)
    requires SystemInv(s) && pid > 0 && pid !in s.born && i < |s.owners|
    requires s.owners[i] == 0 || (secondPass && s.owners[i] !in s.alive)
    ensures LegalMoves(s, moves, bd)
    ensures After(s, moves, bd) ==
            s.(owners := s.owners[i := pid], alive := s.alive[pid := Process(i, NoClaim, NotPushing)],
               born := s.born + {pid})
  {
    hide LegalMoves;
    hide After;
    hide RingInv;
    var spawn := Worker(pid, Spawn);
    One(s, spawn, bd);
    MoveKeepsInv(s, spawn, bd);
    var t := Moved(s, spawn, bd);
    ClaimAlone(t, pid, i, secondPass, bd);
    Join(s, [spawn], Attempt(pid, i, secondPass, true), bd);
    moves := [spawn] + Attempt(pid, i, secondPass, true);
  }

  /** Two processes that live hold two rings. */
  lemma TwoHolders(s: System, bd: Bounds) returns (moves: seq<Move>)
    requires Fresh(s) && |s.owners| >= 2 && s.born == {}
    ensures LegalMoves(s, moves, bd)
    ensures var t := After(s, moves, bd);
            1 in t.alive && 2 in t.alive && t.alive[1].holds == 0 && t.alive[2].holds == 1
  {
    hide LegalMoves;
    hide After;
    hide SystemInv;
    FreshIsValid(s);
    var a := SpawnAndClaim(s, 1, 0, false, bd);
    StillValid(s, a, bd);
    var b := SpawnAndClaim(After(s, a, bd), 2, 1, false, bd);
    Join(s, a, b, bd);
    moves := a + b;
  }

  /** A TAKEOVER. Process 1 claims ring 0 of a fresh segment, publishes r and crashes (moves a). Process 2 takes
      the ring over, with r still in it, and the drain delivers r (moves b). */
  lemma Takeover(s: System, r: Submission, bd: Bounds) returns (a: seq<Move>, b: seq<Move>)
    requires Fresh(s) && |s.owners| >= 1 && s.born == {}
    requires r.Fits() && 2 * r.Size() <= |s.rings[0].data| && Admissible(r, bd.maxKey, bd.maxVal)
    ensures LegalMoves(s, a, bd) && LegalMoves(After(s, a, bd), b, bd)
    ensures var m := After(s, a, bd);
            && |m.owners| > 0 && m.owners[0] == 1 && 1 !in m.alive && 1 in m.born
            && |m.rings| > 0 && m.rings[0].delivered == [] && m.rings[0].accepted == [Push(r, m.rings[0].head)]
            && var t := After(m, b, bd);
               && 2 in t.alive && t.alive[2].holds == 0 && |t.owners| > 0 && t.owners[0] == 2
               && |t.rings| > 0 && t.rings[0].delivered == m.rings[0].accepted
  {
    hide LegalMoves;
    hide After;
    hide SystemInv;
    hide Submission.Fits;
    FreshIsValid(s);
    var claim := SpawnAndClaim(s, 1, 0, false, bd);
    var s1 := After(s, claim, bd);
    StillValid(s, claim, bd);
    EmptyRingAccepts(0, r.Size(), |s.rings[0].data|);
    var push := HolderCanPush(s1, 1, r, bd);
    Join(s, claim, push, bd);
    StillValid(s1, push, bd);
    var s2 := After(s1, push, bd);
    Then(s, claim + push, Worker(1, Crash), bd);
    a := claim + push + [Worker(1, Crash)];
    StillValid(s, a, bd);
    var m := After(s, a, bd);
    var again := SpawnAndClaim(m, 2, 0, true, bd);
    StillValid(m, again, bd);
    var deliver := RingDelivers(After(m, again, bd), 0, bd);
    Join(m, again, deliver, bd);
    b := again + deliver;
  }
}
