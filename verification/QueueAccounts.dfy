/** The books of the L3 queue: #count and #bytes are exactly what is queued and in flight. */
module QueueAccounts {
  import opened QueueModel
  import opened QueueShape
  import opened QueueBarrier

  ghost predicate Carries(chains: map<Slot, Chain>, k: Slot, id: nat) {
    && k in chains
    && ((chains[k].pending.Some? && chains[k].pending.value.op.id == id) ||
        (chains[k].inflight.Some? && chains[k].inflight.value.op.id == id))
  }

  /** `out` is the set of the operations that are queued or in flight. */
  ghost predicate OutInv(s: Queue) {
    && (forall i | i in s.out :: i < |s.ops| && Carries(s.chains, s.ops[i].slot, i))
    && forall k, i: nat | Carries(s.chains, k, i) :: i in s.out
  }

  /** Those among ids that belong to a key. */
  function Keyed(ops: seq<Op>, ids: set<nat>): set<nat> {
    set i | i in ids && i < |ops| && ops[i].slot != CLEAR
  }

  ghost predicate AccountInv(s: Queue, maxBytes: nat) {
    && (forall i | i in s.out :: i < |s.ops|)
    && s.count == |s.out| && s.bytes == Bytes(s.ops, s.out)
    && Bytes(s.ops, Keyed(s.ops, s.out)) <= maxBytes
    && (s.drains > 0 ==> s.count > 0)
  }

  // ----------------------------------------------------------------------------- sums

  lemma {:induction false} BytesOfMore(ops: seq<Op>, op: Op, ids: set<nat>)
    requires forall i | i in ids :: i < |ops|
    ensures Bytes(ops + [op], ids) == Bytes(ops, ids)
  {
    assert (ops + [op])[..|ops|] == ops;
  }

  lemma {:induction false} BytesOfSum(ops: seq<Op>, a: set<nat>, b: set<nat>)
    requires a !! b
    ensures Bytes(ops, a + b) == Bytes(ops, a) + Bytes(ops, b)
  {
    if ops != [] {
      BytesOfSum(ops[..|ops| - 1], a, b);
    }
  }

  lemma BytesOfRest(ops: seq<Op>, ids: set<nat>, gone: set<nat>)
    requires gone <= ids
    ensures Bytes(ops, ids - gone) == Bytes(ops, ids) - Bytes(ops, gone)
    ensures |ids - gone| == |ids| - |gone|
  {
    assert (ids - gone) + gone == ids;
    BytesOfSum(ops, ids - gone, gone);
  }

  lemma {:induction false} BytesOfNone(ops: seq<Op>)
    ensures Bytes(ops, {}) == 0
  {
    if ops != [] {
      BytesOfNone(ops[..|ops| - 1]);
    }
  }

  lemma {:induction false} BytesOfOne(ops: seq<Op>, i: nat)
    requires i < |ops|
    ensures Bytes(ops, {i}) == ops[i].bytes
  {
    if i == |ops| - 1 {
      NotThatFar(ops[..i], i);
    } else {
      BytesOfOne(ops[..|ops| - 1], i);
    }
  }

  lemma {:induction false} NotThatFar(ops: seq<Op>, i: nat)
    requires i >= |ops|
    ensures Bytes(ops, {i}) == 0
  {
    if ops != [] {
      NotThatFar(ops[..|ops| - 1], i);
    }
  }

  lemma {:induction false} FewerBytes(ops: seq<Op>, a: set<nat>, b: set<nat>)
    requires a <= b
    ensures Bytes(ops, a) <= Bytes(ops, b)
  {
    BytesOfRest(ops, b, a);
  }

  // ---------------------------------------------------------------------------- pushes

  /** Removing operations from the books. */
  ghost predicate Without(s: Queue, s': Queue, gone: set<nat>) {
    && gone <= s.out && s'.out == s.out - gone && s'.ops == s.ops
    && s'.count == s.count - |gone| && s'.bytes == s.bytes - Bytes(s.ops, gone)
  }

  lemma WithoutKeeps(s: Queue, s': Queue, gone: set<nat>, maxBytes: nat)
    requires Without(s, s', gone) && AccountInv(s.(drains := 0), maxBytes) && (s'.drains > 0 ==> s'.count > 0)
    ensures AccountInv(s', maxBytes)
  {
    hide Bytes;
    BytesOfRest(s.ops, s.out, gone);
    FewerBytes(s.ops, Keyed(s.ops, s'.out), Keyed(s.ops, s.out));
  }

  lemma AcceptAccounts(s: Queue, slot: Slot, val: Option<string>, bytes: nat, maxBytes: nat)
    requires AccountInv(s, maxBytes) && !Sheds(s, slot, bytes, maxBytes)
    requires forall i | 0 <= i < |s.ops| :: s.ops[i].id == i
    ensures AccountInv(Accept(s, slot, val, bytes), maxBytes)
  {
    hide Bytes;
    hide Apply;
    var a := Accept(s, slot, val, bytes);
    var n, op := |s.ops|, a.ops[|s.ops|];
    BytesOfSum(a.ops, s.out, {n});
    BytesOfOne(a.ops, n);
    BytesOfMore(s.ops, op, s.out);
    var keyed := Keyed(a.ops, s.out);
    assert keyed == Keyed(s.ops, s.out);
    BytesOfMore(s.ops, op, keyed);
    if slot == CLEAR {
      assert Keyed(a.ops, a.out) == keyed;
    } else {
      FewerBytes(a.ops, Keyed(a.ops, a.out), a.out);
    }
  }

  lemma EnqueueWithout(s: Queue, slot: Slot)
    requires |s.ops| > 0 && ShapeOps(s)
    requires (PendingOf(s.chains, slot).Some? ==> PendingKnown(s, PendingOf(s.chains, slot).value))
    ensures Without(s, Enqueue(s, slot), IdsOf(PendingOf(s.chains, slot)))
  {
    hide Bytes;
    hide Taking;
    hide Boss;
    var p := PendingOf(s.chains, slot);
    if p.Some? {
      BytesOfOne(s.ops, p.value.op.id);
    } else {
      BytesOfNone(s.ops);
    }
  }

  ghost predicate ShapeOps(s: Queue) {
    forall i | 0 <= i < |s.ops| :: s.ops[i].id == i
  }

  ghost predicate PendingKnown(s: Queue, it: Item) {
    it.op.id < |s.ops| && s.ops[it.op.id] == it.op && it.op.id in s.out
  }

  lemma ItemKnown(s: Queue, run: Option<Slot>, k: Slot)
    requires ShapeInv(s, run) && OutInv(s) && k in s.chains
    ensures s.chains[k].pending.Some? ==> PendingKnown(s, s.chains[k].pending.value)
    ensures s.chains[k].inflight.Some? ==> PendingKnown(s, s.chains[k].inflight.value)
    ensures ShapeOps(s)
  {
    assert ChainShape(s.ops, k, s.chains[k], run == Some(k));
    if s.chains[k].pending.Some? {
      assert Carries(s.chains, k, s.chains[k].pending.value.op.id);
    }
    if s.chains[k].inflight.Some? {
      assert Carries(s.chains, k, s.chains[k].inflight.value.op.id);
    }
  }

  /** An operation is carried by one chain only, and only once there. */
  lemma CarriedOnce(s: Queue, run: Option<Slot>, k: Slot, i: nat)
    requires ShapeInv(s, run) && Carries(s.chains, k, i)
    ensures i < |s.ops| && s.ops[i].slot == k
    ensures s.chains[k].pending.Some? && s.chains[k].inflight.Some? ==>
              s.chains[k].inflight.value.op.id != s.chains[k].pending.value.op.id
  {
    assert ChainShape(s.ops, k, s.chains[k], run == Some(k));
  }

  lemma EnqueueOut(s: Queue, slot: Slot, val: Option<string>, bytes: nat)
    requires ShapeInv(s, None) && OutInv(s)
    ensures OutInv(Enqueue(Accept(s, slot, val, bytes), slot))
  {
    hide ShapeInv;
    hide Carries;
    hide Boss;
    hide Bytes;
    hide Apply;
    hide Taking;
    var q := Enqueue(Accept(s, slot, val, bytes), slot);
    var n := |s.ops|;
    TakingCarries(s, slot, q.ops[n]);
    forall i | i in q.out
      ensures i < |q.ops| && Carries(q.chains, q.ops[i].slot, i)
    {
      EnqueuedIsCarried(s, slot, q, q.ops[n], i);
    }
    forall k, i: nat | Carries(q.chains, k, i)
      ensures i in q.out
    {
      CarriedIsOut(s, slot, q, q.ops[n], k, i);
    }
  }

  lemma TakingCarries(s: Queue, slot: Slot, op: Op)
    ensures Carries(s.chains[slot := Taking(s.chains, slot, op)], slot, op.id)
  {
  }

  lemma EnqueuedIsCarried(s: Queue, slot: Slot, q: Queue, op: Op, i: nat)
    requires ShapeInv(s, None) && OutInv(s) && op.id == |s.ops| && op.slot == slot && q.ops == s.ops + [op]
    requires q.chains == s.chains[slot := Taking(s.chains, slot, op)]
    requires i == |s.ops| || (i in s.out && i !in IdsOf(PendingOf(s.chains, slot)))
    ensures i < |q.ops| && Carries(q.chains, q.ops[i].slot, i)
  {
    hide ChainShape;
    if i < |s.ops| {
      assert Carries(s.chains, s.ops[i].slot, i);
    }
  }

  lemma CarriedIsOut(s: Queue, slot: Slot, q: Queue, op: Op, k: Slot, i: nat)
    requires ShapeInv(s, None) && OutInv(s) && op.id == |s.ops| && op.slot == slot && q.ops == s.ops + [op]
    requires q.chains == s.chains[slot := Taking(s.chains, slot, op)]
    requires q.out == (s.out + {|s.ops|}) - IdsOf(PendingOf(s.chains, slot)) && Carries(q.chains, k, i)
    ensures i in q.out
  {
    hide ChainShape;
    var p := PendingOf(s.chains, slot);
    if p.Some? {
      assert Carries(s.chains, slot, p.value.op.id);
      CarriedOnce(s, None, slot, p.value.op.id);
    }
    if i != op.id {
      assert Carries(s.chains, k, i);
      CarriedOnce(s, None, k, i);
    }
  }

  lemma UnsentAreOut(s: Queue)
    requires OutInv(s)
    ensures UnsentIds(s.chains) <= s.out
  {
    forall k | k in Unsent(s.chains)
      ensures s.chains[k].pending.value.op.id in s.out
    {
      assert Carries(s.chains, k, s.chains[k].pending.value.op.id);
    }
  }

  lemma SweepOut(s: Queue, run: Option<Slot>)
    requires ShapeInv(s, run) && OutInv(s) && CLEAR in s.chains && s.chains[CLEAR].pending.Some?
    ensures OutInv(Sweep(s))
  {
    hide ShapeInv;
    hide Boss;
    hide Bytes;
    hide UnsentCovers;
    hide Carries;
    hide UnsentIds;
    var q := Sweep(s);
    UnsentAreOut(s);
    forall i | i in q.out
      ensures i < |q.ops| && Carries(q.chains, q.ops[i].slot, i)
    {
      SweptIsCarried(s, q, s.ops[i].slot, i);
    }
    forall k, i: nat | Carries(q.chains, k, i)
      ensures i in q.out
    {
      CarriedSurvives(s, run, q, k, i);
    }
  }

  lemma SweptIsCarried(s: Queue, q: Queue, k: Slot, i: nat)
    requires CLEAR in s.chains && s.chains[CLEAR].pending.Some? && q == Sweep(s)
    requires Carries(s.chains, k, i) && i !in UnsentIds(s.chains)
    ensures Carries(q.chains, k, i)
  {
    hide Boss;
    hide Bytes;
    hide UnsentCovers;
    if k in Unsent(s.chains) {
      assert s.chains[k].pending.value.op.id in UnsentIds(s.chains);
    }
  }

  lemma CarriedSurvives(s: Queue, run: Option<Slot>, q: Queue, k: Slot, i: nat)
    requires ShapeInv(s, run) && OutInv(s) && CLEAR in s.chains && s.chains[CLEAR].pending.Some? && q == Sweep(s)
    requires Carries(q.chains, k, i)
    ensures i in q.out
  {
    hide Boss;
    hide Bytes;
    hide UnsentCovers;
    hide ShapeInv;
    assert Carries(s.chains, k, i);
    CarriedOnce(s, run, k, i);
    forall x | x in Unsent(s.chains)
      ensures s.chains[x].pending.value.op.id != i
    {
      assert Carries(s.chains, x, s.chains[x].pending.value.op.id);
      CarriedOnce(s, run, x, s.chains[x].pending.value.op.id);
    }
  }

  lemma QueuedOut(s: Queue, slot: Slot, val: Option<string>, bytes: nat)
    requires ShapeInv(s, None) && OutInv(s)
    ensures OutInv(Queued(s, slot, val, bytes))
  {
    hide ShapeInv;
    hide Carries;
    if slot == CLEAR {
      var h := Hold(s);
      ReleaseShape(s, None);
      ReleaseShape(Arm(s), None);
      HoldOut(s);
      EnqueueShape(h, CLEAR, val, bytes);
      EnqueueOut(h, CLEAR, val, bytes);
      SweepOut(Enqueue(Accept(h, CLEAR, val, bytes), CLEAR), if CLEAR in s.chains then None else Some(CLEAR));
    } else {
      EnqueueOut(s, slot, val, bytes);
    }
  }

  lemma DisarmOut(s: Queue)
    requires OutInv(s)
    ensures OutInv(Disarm(s))
  {
    hide Disarm;
    DisarmFields(s);
    var d := Disarm(s);
    forall k, i: nat
      ensures Carries(d.chains, k, i) <==> Carries(s.chains, k, i)
    {
    }
  }

  lemma HoldOut(s: Queue)
    requires OutInv(s)
    ensures OutInv(Hold(s))
  {
    hide Carries;
    hide Disarm;
    DisarmOut(Arm(s));
    DisarmFields(Arm(s));
  }

  lemma TopCarries(s: Queue, slot: Slot, k: Slot, i: nat)
    requires slot in s.chains && s.chains[slot].inflight.None?
    ensures Carries(Top(s, slot).chains, k, i) <==> Carries(s.chains, k, i)
  {
    hide Top;
    TopParts(s, slot);
  }

  lemma TopOut(s: Queue, slot: Slot)
    requires ShapeInv(s, Some(slot)) && OutInv(s)
    ensures OutInv(Top(s, slot)) && Top(s, slot).out == s.out && Top(s, slot).ops == s.ops
  {
    hide Carries;
    hide ItemShape;
    assert s.chains[slot].inflight.None? by {
      assert ChainShape(s.ops, slot, s.chains[slot], true);
    }
    forall k, i: nat
      ensures Carries(Top(s, slot).chains, k, i) <==> Carries(s.chains, k, i)
    {
      TopCarries(s, slot, k, i);
    }
  }

  lemma LeaveOut(s: Queue, slot: Slot, it: Item)
    requires ShapeInv(s, None) && OutInv(s) && slot in s.chains && s.chains[slot].inflight == Some(it)
    ensures OutInv(Leave(s, slot, it))
  {
    hide ShapeInv;
    var l := Leave(s, slot, it);
    assert Carries(s.chains, slot, it.op.id);
    CarriedOnce(s, None, slot, it.op.id);
    forall k, i: nat
      ensures Carries(l.chains, k, i) <==> Carries(s.chains, k, i) && i != it.op.id
    {
      if Carries(s.chains, k, i) {
        CarriedOnce(s, None, k, i);
      }
    }
  }

  lemma FinishOut(s: Queue, slot: Slot, ok: bool)
    requires ShapeInv(s, None) && OutInv(s) && slot in s.chains && s.chains[slot].inflight.Some?
    ensures OutInv(Finish(s, slot, ok))
  {
    hide Carries;
    hide Leave;
    hide Disarm;
    hide ShapeInv;
    var it := s.chains[slot].inflight.value;
    LeaveOut(s, slot, it);
    DisarmOut(Leave(s, slot, it));
  }

  lemma SweepAccounts(s: Queue, maxBytes: nat)
    requires AccountInv(s, maxBytes) && OutInv(s) && CLEAR in s.chains && s.chains[CLEAR].pending.Some?
    requires s.chains[CLEAR].pending.value.op.id in s.out && ShapeOps(s)
    requires s.chains[CLEAR].pending.value.op.id < |s.ops| && s.ops[s.chains[CLEAR].pending.value.op.id].slot == CLEAR
    requires forall k | k in Unsent(s.chains) ::
               PendingKnown(s, s.chains[k].pending.value) && s.chains[k].pending.value.op.slot == k
    ensures AccountInv(Sweep(s), maxBytes)
  {
    hide Bytes;
    hide Boss;
    hide UnsentCovers;
    UnsentAreOut(s);
    var gone, c := UnsentIds(s.chains), s.chains[CLEAR].pending.value.op.id;
    BytesOfRest(s.ops, s.out, gone);
    FewerBytes(s.ops, Keyed(s.ops, s.out - gone), Keyed(s.ops, s.out));
    assert c in s.out - gone;
  }

  lemma EnqueueAccounts(s: Queue, slot: Slot, val: Option<string>, bytes: nat, maxBytes: nat)
    requires ShapeInv(s, None) && OutInv(s) && AccountInv(s, maxBytes) && !Sheds(s, slot, bytes, maxBytes)
    ensures AccountInv(Enqueue(Accept(s, slot, val, bytes), slot), maxBytes)
  {
    hide ShapeInv;
    hide Bytes;
    hide Apply;
    hide Taking;
    hide Boss;
    hide Carries;
    var a, n := Accept(s, slot, val, bytes), |s.ops|;
    var p := PendingOf(s.chains, slot);
    OpsShape(s);
    AcceptAccounts(s, slot, val, bytes, maxBytes);
    if slot in s.chains {
      ItemKnown(s, None, slot);
    }
    EnqueueWithout(a, slot);
    assert n in Enqueue(a, slot).out;
    WithoutKeeps(a, Enqueue(a, slot), IdsOf(p), maxBytes);
  }

  lemma OpsShape(s: Queue)
    requires ShapeInv(s, None)
    ensures ShapeOps(s)
  {
    hide ChainShape;
  }

  lemma HoldAccounts(s: Queue, maxBytes: nat)
    requires AccountInv(s, maxBytes)
    ensures AccountInv(Hold(s), maxBytes) && Hold(s).chains.Keys == s.chains.Keys
  {
    hide Disarm;
    hide Bytes;
    DisarmFields(Arm(s));
  }

  lemma QueuedAccounts(s: Queue, slot: Slot, val: Option<string>, bytes: nat, maxBytes: nat)
    requires ShapeInv(s, None) && OutInv(s) && AccountInv(s, maxBytes) && !Sheds(s, slot, bytes, maxBytes)
    ensures AccountInv(Queued(s, slot, val, bytes), maxBytes)
  {
    hide ShapeInv;
    hide OutInv;
    hide Bytes;
    hide Disarm;
    hide UnsentIds;
    hide UnsentCovers;
    hide AccountInv;
    hide Sweep;
    hide Boss;
    hide Apply;
    if slot == CLEAR {
      var h := Hold(s);
      ReleaseShape(s, None);
      ReleaseShape(Arm(s), None);
      HoldOut(s);
      HoldAccounts(s, maxBytes);
      EnqueueShape(h, CLEAR, val, bytes);
      EnqueueOut(h, CLEAR, val, bytes);
      EnqueueAccounts(h, CLEAR, val, bytes, maxBytes);
      SweepItems(Enqueue(Accept(h, CLEAR, val, bytes), CLEAR), if CLEAR in s.chains then None else Some(CLEAR));
      SweepAccounts(Enqueue(Accept(h, CLEAR, val, bytes), CLEAR), maxBytes);
    } else {
      EnqueueAccounts(s, slot, val, bytes, maxBytes);
    }
  }

  lemma SweepItems(s: Queue, run: Option<Slot>)
    requires ShapeInv(s, run) && OutInv(s) && CLEAR in s.chains && s.chains[CLEAR].pending.Some?
    ensures ShapeOps(s) && PendingKnown(s, s.chains[CLEAR].pending.value)
    ensures s.chains[CLEAR].pending.value.op.slot == CLEAR
    ensures forall k | k in Unsent(s.chains) ::
              PendingKnown(s, s.chains[k].pending.value) && s.chains[k].pending.value.op.slot == k
  {
    forall k | k in s.chains && s.chains[k].pending.Some?
      ensures PendingKnown(s, s.chains[k].pending.value) && s.chains[k].pending.value.op.slot == k
    {
      ItemKnown(s, run, k);
      assert ChainShape(s.ops, k, s.chains[k], run == Some(k));
    }
    ItemKnown(s, run, CLEAR);
  }

  lemma FinishAccounts(s: Queue, slot: Slot, ok: bool, maxBytes: nat)
    requires ShapeInv(s, None) && OutInv(s) && AccountInv(s, maxBytes)
    requires slot in s.chains && s.chains[slot].inflight.Some?
    ensures AccountInv(Finish(s, slot, ok), maxBytes)
  {
    hide ShapeInv;
    hide OutInv;
    hide Bytes;
    hide Disarm;
    hide WireFreed;
    var it := s.chains[slot].inflight.value;
    ItemKnown(s, None, slot);
    BytesOfOne(s.ops, it.op.id);
    DisarmFields(Leave(s, slot, it));
    WithoutKeeps(s, Finish(s, slot, ok), {it.op.id}, maxBytes);
  }
}
