/** Who settles whom: every accepted push is settled exactly once, by its own operation or by a later
    one that covers it. */
module QueueCovers {
  import opened QueueModel
  import opened QueueShape
  import opened QueueBarrier
  import opened QueueAccounts

  /** The item covers exactly the unsettled pushes that it is the boss of. */
  ghost predicate Exact(boss: seq<nat>, settled: map<nat, bool>, it: Item) {
    forall i: nat :: i in it.covers <==> i < |boss| && i !in settled && boss[i] == it.op.id
  }

  ghost predicate ExactChain(boss: seq<nat>, settled: map<nat, bool>, c: Chain) {
    && (c.pending.Some? ==> Exact(boss, settled, c.pending.value))
    && (c.inflight.Some? ==> Exact(boss, settled, c.inflight.value))
  }

  /** Operation b may stand for push i: it is no older, and for the same key or a clear. */
  predicate StandsFor(ops: seq<Op>, b: nat, i: nat) {
    i <= b < |ops| && (ops[b].slot == ops[i].slot || ops[b].slot == CLEAR)
  }

  ghost predicate BossInv(s: Queue) {
    && |s.boss| == |s.ops|
    && (forall i: nat | i < |s.boss| :: StandsFor(s.ops, s.boss[i], i))
    && (forall i: nat | i < |s.boss| && i !in s.settled :: s.boss[i] in s.out)
    && (forall i | i in s.settled :: i < |s.boss| && (s.settled[i] ==> s.boss[i] in s.landed))
  }

  ghost predicate CoverInv(s: Queue) {
    BossInv(s) && forall k | k in s.chains :: ExactChain(s.boss, s.settled, s.chains[k])
  }

  // -------------------------------------------------------------- handing pushes over

  /** `covers` are the unsettled pushes whose bosses are in `gone`. */
  ghost predicate Belong(boss: seq<nat>, settled: map<nat, bool>, covers: set<nat>, gone: set<nat>) {
    forall i: nat :: i in covers <==> i < |boss| && i !in settled && boss[i] in gone
  }

  lemma OthersExact(boss: seq<nat>, settled: map<nat, bool>, covers: set<nat>, gone: set<nat>, t: nat, it: Item)
    requires Belong(boss, settled, covers, gone) && Exact(boss, settled, it) && it.op.id !in gone && it.op.id != t
    ensures Exact(Boss(boss, covers, t), settled, it)
  {
  }

  lemma HeirExact(boss: seq<nat>, settled: map<nat, bool>, covers: set<nat>, gone: set<nat>, it: Item)
    requires Belong(boss, settled, covers, gone) && Exact(boss, settled, it) && it.op.id !in gone
    ensures Exact(Boss(boss, covers, it.op.id), settled, Item(it.op, it.covers + covers))
  {
  }

  lemma HandedOver(s: Queue, s': Queue, covers: set<nat>, gone: set<nat>, t: nat)
    requires BossInv(s) && Belong(s.boss, s.settled, covers, gone) && t !in gone && t in s.out && t == |s.ops| - 1
    requires forall g | g in gone :: g < |s.ops| && (s.ops[g].slot == s.ops[t].slot || s.ops[t].slot == CLEAR)
    requires s'.boss == Boss(s.boss, covers, t) && s'.out == s.out - gone && s'.ops == s.ops
    requires s'.settled == s.settled && s'.landed == s.landed
    ensures BossInv(s')
  {
    forall i: nat | i < |s'.boss|
      ensures StandsFor(s'.ops, s'.boss[i], i)
    {
      assert StandsFor(s.ops, s.boss[i], i);
    }
  }

  // -------------------------------------------------------------------------- pushing

  lemma AcceptBoss(s: Queue, slot: Slot, val: Option<string>, bytes: nat)
    requires BossInv(s)
    ensures BossInv(Accept(s, slot, val, bytes))
  {
    hide Apply;
    var a := Accept(s, slot, val, bytes);
    forall i: nat | i < |a.boss|
      ensures StandsFor(a.ops, a.boss[i], i)
    {
      if i < |s.boss| {
        assert StandsFor(s.ops, s.boss[i], i);
      }
    }
  }

  lemma StillExact(s: Queue, it: Item)
    requires BossInv(s) && Exact(s.boss, s.settled, it) && it.op.id != |s.ops|
    ensures Exact(s.boss + [|s.ops|], s.settled, it)
  {
  }

  lemma NewIsExact(s: Queue, op: Op)
    requires BossInv(s) && op.id == |s.ops|
    ensures Exact(s.boss + [|s.ops|], s.settled, Item(op, {op.id}))
  {
    forall i: nat | i < |s.boss|
      ensures s.boss[i] != |s.ops|
    {
      assert StandsFor(s.ops, s.boss[i], i);
    }
  }

  lemma PendingBelongs(boss: seq<nat>, settled: map<nat, bool>, p: Option<Item>)
    requires p.Some? ==> Exact(boss, settled, p.value)
    ensures Belong(boss, settled, CoversOf(p), IdsOf(p))
  {
  }

  lemma EnqueueCovers(s: Queue, slot: Slot, val: Option<string>, bytes: nat)
    requires ShapeInv(s, None) && CoverInv(s)
    ensures CoverInv(Enqueue(Accept(s, slot, val, bytes), slot))
  {
    hide ShapeInv;
    hide BossInv;
    hide Exact;
    hide Boss;
    hide Apply;
    hide Taking;
    hide Belong;
    hide CoversOf;
    hide IdsOf;
    var a := Accept(s, slot, val, bytes);
    var q := Enqueue(a, slot);
    var n, p := |s.ops|, PendingOf(s.chains, slot);
    var op := a.ops[n];
    AcceptBoss(s, slot, val, bytes);
    EnqueuedCovers(s, slot, a.boss, op);
    ThePrevious(s, slot, a);
    PendingBelongs(a.boss, a.settled, p);
    HandedOver(a, q, CoversOf(p), IdsOf(p), n);
    forall k | k in q.chains && k != slot
      ensures ExactChain(q.boss, q.settled, q.chains[k])
    {
      OtherChainExact(s, slot, k, a.boss, n);
    }
  }

  lemma ThePrevious(s: Queue, slot: Slot, a: Queue)
    requires ShapeInv(s, None) && CoverInv(s)
    requires |a.ops| == |s.ops| + 1 && a.ops[..|s.ops|] == s.ops && a.ops[|s.ops|].slot == slot
    requires a.boss == s.boss + [|s.ops|] && a.settled == s.settled
    ensures var p := PendingOf(s.chains, slot);
            && (p.Some? ==> Exact(a.boss, a.settled, p.value) && p.value.op.id < |s.ops|)
            && forall g | g in IdsOf(p) :: g < |s.ops| && a.ops[g].slot == slot
  {
    hide Exact;
    hide BossInv;
    if slot in s.chains && s.chains[slot].pending.Some? {
      assert ChainShape(s.ops, slot, s.chains[slot], false);
      var p := s.chains[slot].pending.value;
      assert a.ops[p.op.id] == a.ops[..|s.ops|][p.op.id];
      StillExact(s, p);
    }
  }

  lemma EnqueuedCovers(s: Queue, slot: Slot, boss: seq<nat>, op: Op)
    requires ShapeInv(s, None) && CoverInv(s) && op.id == |s.ops| && op.slot == slot && boss == s.boss + [op.id]
    ensures ExactChain(Boss(boss, CoversOf(PendingOf(s.chains, slot)), op.id), s.settled, Taking(s.chains, slot, op))
  {
    hide Exact;
    hide BossInv;
    hide Boss;
    hide Belong;
    var p := PendingOf(s.chains, slot);
    NewIsExact(s, op);
    if slot in s.chains {
      assert ChainShape(s.ops, slot, s.chains[slot], false);
      assert ExactChain(s.boss, s.settled, s.chains[slot]);
      if p.Some? {
        StillExact(s, p.value);
      }
    }
    PendingBelongs(boss, s.settled, p);
    HeirExact(boss, s.settled, CoversOf(p), IdsOf(p), Item(op, {op.id}));
    assert {op.id} + CoversOf(p) == CoversOf(p) + {op.id};
    if slot in s.chains && s.chains[slot].inflight.Some? {
      StillExact(s, s.chains[slot].inflight.value);
      OthersExact(boss, s.settled, CoversOf(p), IdsOf(p), op.id, s.chains[slot].inflight.value);
    }
  }

  lemma OtherChainExact(s: Queue, slot: Slot, k: Slot, boss: seq<nat>, n: nat)
    requires ShapeInv(s, None) && CoverInv(s) && n == |s.ops| && boss == s.boss + [n] && k in s.chains && k != slot
    ensures ExactChain(Boss(boss, CoversOf(PendingOf(s.chains, slot)), n), s.settled, s.chains[k])
  {
    hide Exact;
    hide BossInv;
    hide Boss;
    hide Belong;
    var p, c := PendingOf(s.chains, slot), s.chains[k];
    assert ChainShape(s.ops, k, c, false) && ExactChain(s.boss, s.settled, c);
    if p.Some? {
      assert ChainShape(s.ops, slot, s.chains[slot], false) && ExactChain(s.boss, s.settled, s.chains[slot]);
      StillExact(s, p.value);
    }
    PendingBelongs(boss, s.settled, p);
    if c.pending.Some? {
      StillExact(s, c.pending.value);
      OthersExact(boss, s.settled, CoversOf(p), IdsOf(p), n, c.pending.value);
    }
    if c.inflight.Some? {
      StillExact(s, c.inflight.value);
      OthersExact(boss, s.settled, CoversOf(p), IdsOf(p), n, c.inflight.value);
    }
  }

  /** Steps that touch only phases and counters. */
  lemma SameItemsCovers(s: Queue, s': Queue)
    requires CoverInv(s) && s'.ops == s.ops && s'.boss == s.boss && s'.settled == s.settled
    requires s'.out == s.out && s'.landed >= s.landed && s'.chains.Keys == s.chains.Keys
    requires forall k | k in s.chains ::
               s'.chains[k].pending == s.chains[k].pending && s'.chains[k].inflight == s.chains[k].inflight
    ensures CoverInv(s')
  {
    hide Exact;
    forall k | k in s'.chains
      ensures ExactChain(s'.boss, s'.settled, s'.chains[k])
    {
      assert ExactChain(s.boss, s.settled, s.chains[k]);
    }
  }

  lemma HoldCovers(s: Queue)
    requires CoverInv(s)
    ensures CoverInv(Hold(s))
  {
    hide CoverInv;
    hide Disarm;
    DisarmFields(Arm(s));
    SameItemsCovers(s, Hold(s));
  }

  lemma SweepBelong(s: Queue, run: Option<Slot>)
    requires ShapeInv(s, run) && CoverInv(s) && CLEAR in s.chains
    ensures Belong(s.boss, s.settled, UnsentCovers(s.chains), UnsentIds(s.chains))
  {
    forall i: nat
      ensures i in UnsentCovers(s.chains) <==> i < |s.boss| && i !in s.settled && s.boss[i] in UnsentIds(s.chains)
    {
      if i in UnsentCovers(s.chains) {
        var k :| k in Unsent(s.chains) && i in s.chains[k].pending.value.covers;
        assert ExactChain(s.boss, s.settled, s.chains[k]);
        assert s.chains[k].pending.value.op.id in UnsentIds(s.chains);
      }
      if i < |s.boss| && i !in s.settled && s.boss[i] in UnsentIds(s.chains) {
        var k :| k in Unsent(s.chains) && s.chains[k].pending.value.op.id == s.boss[i];
        assert ExactChain(s.boss, s.settled, s.chains[k]);
      }
    }
  }

  /** No other item has the id of one that is dropped. */
  lemma NotDropped(s: Queue, run: Option<Slot>, k: Slot, i: nat)
    requires ShapeInv(s, run) && Carries(s.chains, k, i)
    requires k in Unsent(s.chains) ==> i != s.chains[k].pending.value.op.id
    ensures i !in UnsentIds(s.chains)
  {
    hide ShapeInv;
    hide Carries;
    CarriedOnce(s, run, k, i);
    forall x | x in Unsent(s.chains)
      ensures s.chains[x].pending.value.op.id != i
    {
      assert Carries(s.chains, x, s.chains[x].pending.value.op.id) by {
        PendingCarries(s.chains, x);
      }
      CarriedOnce(s, run, x, s.chains[x].pending.value.op.id);
    }
  }

  lemma PendingCarries(chains: map<Slot, Chain>, k: Slot)
    requires k in chains
    ensures chains[k].pending.Some? ==> Carries(chains, k, chains[k].pending.value.op.id)
    ensures chains[k].inflight.Some? ==> Carries(chains, k, chains[k].inflight.value.op.id)
  {
  }

  lemma SweepCovers(s: Queue, run: Option<Slot>)
    requires ShapeInv(s, run) && OutInv(s) && CoverInv(s) && CLEAR in s.chains && s.chains[CLEAR].pending.Some?
    requires s.chains[CLEAR].pending.value.op.id == |s.ops| - 1
    ensures CoverInv(Sweep(s))
  {
    hide BossInv;
    hide Exact;
    hide Boss;
    hide Belong;
    hide UnsentIds;
    hide UnsentCovers;
    hide Bytes;
    hide OutInv;
    hide ShapeInv;
    var q, c := Sweep(s), s.chains[CLEAR].pending.value;
    var gone, covers := UnsentIds(s.chains), UnsentCovers(s.chains);
    SweepBelong(s, run);
    PendingCarries(s.chains, CLEAR);
    NotDropped(s, run, CLEAR, c.op.id);
    DroppedAreOlder(s, run);
    HandedOver(s, q, covers, gone, c.op.id);
    forall k | k in q.chains
      ensures ExactChain(q.boss, q.settled, q.chains[k])
    {
      SweptChainExact(s, run, k, covers, gone);
    }
  }

  lemma DroppedAreOlder(s: Queue, run: Option<Slot>)
    requires ShapeInv(s, run) && OutInv(s) && CLEAR in s.chains && s.chains[CLEAR].pending.Some?
    ensures forall g | g in UnsentIds(s.chains) :: g < |s.ops|
    ensures s.chains[CLEAR].pending.value.op.id in s.out
    ensures s.ops[s.chains[CLEAR].pending.value.op.id].slot == CLEAR
  {
    hide ShapeInv;
    hide OutInv;
    SweepItems(s, run);
  }

  lemma SweptChain(s: Queue, k: Slot)
    requires CLEAR in s.chains && s.chains[CLEAR].pending.Some? && k in s.chains
    ensures k in Sweep(s).chains && Sweep(s).chains[k].inflight == s.chains[k].inflight
    ensures var t := s.chains[CLEAR].pending.value;
            Sweep(s).chains[k].pending ==
            if k == CLEAR then Some(Item(t.op, t.covers + UnsentCovers(s.chains))) else None
  {
  }

  lemma SweptChainExact(s: Queue, run: Option<Slot>, k: Slot, covers: set<nat>, gone: set<nat>)
    requires ShapeInv(s, run) && CoverInv(s) && CLEAR in s.chains && s.chains[CLEAR].pending.Some? && k in s.chains
    requires gone == UnsentIds(s.chains) && Belong(s.boss, s.settled, covers, gone) && covers == UnsentCovers(s.chains)
    requires s.chains[CLEAR].pending.value.op.id == |s.ops| - 1
    ensures ExactChain(Boss(s.boss, covers, s.chains[CLEAR].pending.value.op.id), s.settled, Sweep(s).chains[k])
  {
    SweptChain(s, k);
    hide Sweep;
    hide BossInv;
    hide Exact;
    hide Boss;
    hide Belong;
    hide UnsentIds;
    hide UnsentCovers;
    hide Bytes;
    hide Carries;
    hide ItemShape;
    var c, t := s.chains[k], s.chains[CLEAR].pending.value;
    assert ExactChain(s.boss, s.settled, c) && ExactChain(s.boss, s.settled, s.chains[CLEAR]);
    assert ChainShape(s.ops, k, c, run == Some(k));
    assert ChainShape(s.ops, CLEAR, s.chains[CLEAR], run == Some(CLEAR));
    ItemIds(s.ops, k, c, run == Some(k));
    ItemIds(s.ops, CLEAR, s.chains[CLEAR], run == Some(CLEAR));
    PendingCarries(s.chains, k);
    if c.inflight.Some? {
      NotDropped(s, run, k, c.inflight.value.op.id);
      OthersExact(s.boss, s.settled, covers, gone, t.op.id, c.inflight.value);
    }
    if k == CLEAR {
      NotDropped(s, run, CLEAR, t.op.id);
      HeirExact(s.boss, s.settled, covers, gone, t);
    }
  }

  lemma ItemIds(ops: seq<Op>, k: Slot, c: Chain, running: bool)
    requires ChainShape(ops, k, c, running)
    ensures c.pending.Some? ==> c.pending.value.op.id < |ops| && ops[c.pending.value.op.id].slot == k
    ensures c.inflight.Some? ==> c.inflight.value.op.id < |ops| && ops[c.inflight.value.op.id].slot == k
  {
  }

  lemma QueuedCovers(s: Queue, slot: Slot, val: Option<string>, bytes: nat)
    requires ShapeInv(s, None) && OutInv(s) && CoverInv(s)
    ensures CoverInv(Queued(s, slot, val, bytes))
  {
    hide ShapeInv;
    hide OutInv;
    hide CoverInv;
    hide Bytes;
    hide Boss;
    hide UnsentIds;
    hide UnsentCovers;
    if slot == CLEAR {
      var h := Hold(s);
      HoldCovers(s);
      ReleaseShape(s, None);
      ReleaseShape(Arm(s), None);
      HoldOut(s);
      EnqueueShape(h, CLEAR, val, bytes);
      EnqueueOut(h, CLEAR, val, bytes);
      EnqueueCovers(h, CLEAR, val, bytes);
      LastIdIs(h);
      SweepCovers(Enqueue(Accept(h, CLEAR, val, bytes), CLEAR), if CLEAR in s.chains then None else Some(CLEAR));
    } else {
      EnqueueCovers(s, slot, val, bytes);
    }
  }

  lemma LastIdIs(s: Queue)
    requires ShapeInv(s, None)
    ensures forall i | 0 <= i < |s.ops| :: s.ops[i].id == i
  {
  }

  // --------------------------------------------------------------- sending, settling

  lemma TopCovers(s: Queue, slot: Slot)
    requires CoverInv(s) && slot in s.chains && s.chains[slot].inflight.None?
    ensures CoverInv(Top(s, slot))
  {
    hide Exact;
    hide BossInv;
    var t := Top(s, slot);
    assert BossInv(t) by {
      SameBoss(s, t);
    }
    forall k | k in t.chains
      ensures ExactChain(t.boss, t.settled, t.chains[k])
    {
      assert ExactChain(s.boss, s.settled, s.chains[k]);
    }
  }

  lemma SameBoss(s: Queue, s': Queue)
    requires BossInv(s) && s'.ops == s.ops && s'.boss == s.boss && s'.settled == s.settled && s'.out == s.out
    requires s'.landed >= s.landed
    ensures BossInv(s')
  {
  }

  /** Settling: the pushes an item covers get its outcome, and nobody else's. */
  lemma SettledOnce(s: Queue, k: Slot, it: Item, ok: bool)
    requires CoverInv(s) && k in s.chains && s.chains[k].inflight == Some(it)
    ensures it.covers !! s.settled.Keys
    ensures forall i | i in it.covers :: i < |s.boss| && s.boss[i] == it.op.id
  {
    hide BossInv;
    assert ExactChain(s.boss, s.settled, s.chains[k]);
  }

  lemma RestExact(boss: seq<nat>, settled: map<nat, bool>, settled': map<nat, bool>, it: Item, x: Item)
    requires Exact(boss, settled, it) && Exact(boss, settled, x) && x.op.id != it.op.id
    requires settled'.Keys == settled.Keys + it.covers
    ensures Exact(boss, settled', x)
  {
  }

  lemma FinishBoss(s: Queue, s': Queue, it: Item, ok: bool)
    requires BossInv(s) && Exact(s.boss, s.settled, it) && (ok ==> it.op.id in s.landed)
    requires s'.ops == s.ops && s'.boss == s.boss && s'.landed == s.landed && s'.out == s.out - {it.op.id}
    requires s'.settled == s.settled + (map i | i in it.covers :: ok)
    ensures BossInv(s')
  {
  }

  lemma FinishCovers(s: Queue, slot: Slot, ok: bool)
    requires ShapeInv(s, None) && CoverInv(s) && slot in s.chains && s.chains[slot].inflight.Some?
    requires ok ==> s.chains[slot].inflight.value.op.id in s.landed
    ensures CoverInv(Finish(s, slot, ok))
  {
    hide BossInv;
    hide Exact;
    hide ShapeInv;
    hide Leave;
    hide Disarm;
    var it, f := s.chains[slot].inflight.value, Finish(s, slot, ok);
    assert ExactChain(s.boss, s.settled, s.chains[slot]);
    FinishFields(s, slot, ok);
    FinishBoss(s, f, it, ok);
    forall k | k in f.chains
      ensures ExactChain(f.boss, f.settled, f.chains[k])
    {
      FinishedChainExact(s, slot, k, it, f);
    }
  }

  lemma LeaveFields(s: Queue, slot: Slot, it: Item)
    requires slot in s.chains
    ensures var l := Leave(s, slot, it);
            && l == s.(onWire := l.onWire, wire := l.wire, chains := l.chains, bytes := l.bytes, count := l.count,
                       out := s.out - {it.op.id})
            && l.chains.Keys == s.chains.Keys && l.chains[slot].inflight.None?
            && forall k | k in s.chains ::
                 l.chains[k] == s.chains[k].(phase := l.chains[k].phase, inflight := l.chains[k].inflight) &&
                 (k != slot ==> l.chains[k].inflight == s.chains[k].inflight)
  {
  }

  /** What finishing does to the fields that the covers depend on. */
  lemma FinishFields(s: Queue, slot: Slot, ok: bool)
    requires slot in s.chains && s.chains[slot].inflight.Some?
    ensures var it, f := s.chains[slot].inflight.value, Finish(s, slot, ok);
            && f.ops == s.ops && f.boss == s.boss && f.landed == s.landed && f.out == s.out - {it.op.id}
            && f.settled == s.settled + (map i | i in it.covers :: ok)
            && f.chains.Keys == s.chains.Keys
            && f.chains[slot].inflight.None?
            && (forall k | k in s.chains :: f.chains[k].pending == s.chains[k].pending)
            && (forall k | k in s.chains && k != slot :: f.chains[k].inflight == s.chains[k].inflight)
  {
    hide Leave;
    hide Disarm;
    LeaveFields(s, slot, s.chains[slot].inflight.value);
    DisarmFields(Leave(s, slot, s.chains[slot].inflight.value));
  }

  lemma FinishedChainExact(s: Queue, slot: Slot, k: Slot, it: Item, f: Queue)
    requires ShapeInv(s, None) && CoverInv(s) && slot in s.chains && s.chains[slot].inflight == Some(it)
    requires k in s.chains
    requires f.boss == s.boss && f.settled.Keys == s.settled.Keys + it.covers && f.chains.Keys == s.chains.Keys
    requires f.chains[k].pending == s.chains[k].pending
    requires f.chains[k].inflight == if k == slot then None else s.chains[k].inflight
    ensures ExactChain(f.boss, f.settled, f.chains[k])
  {
    hide BossInv;
    hide Exact;
    var c := s.chains[k];
    assert ExactChain(s.boss, s.settled, c) && ExactChain(s.boss, s.settled, s.chains[slot]);
    assert ChainShape(s.ops, k, c, false) && ChainShape(s.ops, slot, s.chains[slot], false);
    if c.pending.Some? {
      RestExact(s.boss, s.settled, f.settled, it, c.pending.value);
    }
    if k != slot && c.inflight.Some? {
      RestExact(s.boss, s.settled, f.settled, it, c.inflight.value);
    }
  }
}
