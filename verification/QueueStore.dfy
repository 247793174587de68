/** What L3 holds: the store together with what is still outstanding always means the pushes applied
    one after the other. */
module QueueStore {
  import opened QueueModel
  import opened QueueShape
  import opened QueueBarrier
  import opened QueueCovers

  function Lookup(store: map<string, string>, name: string): Option<string> {
    if name in store then Some(store[name]) else None
  }

  /** What the store is going to hold for a key: the queued operation wins, then an outstanding clear,
      then the operation in flight, then what is there. */
  function Expect(chains: map<Slot, Chain>, store: map<string, string>, name: string): Option<string> {
    var k := Key(name);
    if k in chains && chains[k].pending.Some? then chains[k].pending.value.op.val
    else if ClearsOf(chains) > 0 then None
    else if k in chains && chains[k].inflight.Some? then chains[k].inflight.value.op.val
    else Lookup(store, name)
  }

  /** As long as no operation was abandoned. */
  ghost predicate ViewInv(s: Queue) {
    s.failed == 0 ==> forall name :: Expect(s.chains, s.store, name) == Lookup(s.spec, name)
  }

  /** An attempt that has landed is what the store holds. */
  ghost predicate LandInv(s: Queue) {
    forall k | k in s.chains && s.chains[k].phase == Attempt(true) && s.chains[k].inflight.Some? ::
      && s.chains[k].inflight.value.op.id in s.landed
      && match k
         case CLEAR => s.store == map[]
         case Key(name) => Lookup(s.store, name) == s.chains[k].inflight.value.op.val
  }

  lemma ApplyLookup(store: map<string, string>, slot: Slot, val: Option<string>, name: string)
    ensures Lookup(Apply(store, slot, val), name) ==
            if slot == CLEAR then None else if slot == Key(name) then val else Lookup(store, name)
  {
  }

  // -------------------------------------------------------------------------- pushing

  /** The same chains up to phases. */
  ghost predicate SameItems(a: map<Slot, Chain>, b: map<Slot, Chain>) {
    a.Keys == b.Keys && forall k | k in a :: b[k] == a[k].(phase := b[k].phase)
  }

  lemma SameExpect(a: map<Slot, Chain>, b: map<Slot, Chain>, store: map<string, string>, name: string)
    requires SameItems(a, b)
    ensures Expect(a, store, name) == Expect(b, store, name) && ClearsOf(a) == ClearsOf(b)
  {
  }

  lemma QueuedView(s: Queue, slot: Slot, val: Option<string>, bytes: nat)
    requires ViewInv(s)
    ensures ViewInv(Queued(s, slot, val, bytes))
  {
    hide Expect;
    hide Lookup;
    hide Apply;
    hide Bytes;
    hide Boss;
    hide UnsentIds;
    hide UnsentCovers;
    hide Enqueue;
    hide Sweep;
    hide Hold;
    var q := Queued(s, slot, val, bytes);
    QueuedFields(s, slot, val, bytes);
    if s.failed == 0 {
      forall name
        ensures Expect(q.chains, q.store, name) == Lookup(q.spec, name)
      {
        ApplyLookup(s.spec, slot, val, name);
        if slot == CLEAR {
          ClearedExpect(s, val, bytes, name);
        } else {
          KeyedExpect(s, slot, val, bytes, name);
        }
      }
    }
  }

  lemma QueuedFields(s: Queue, slot: Slot, val: Option<string>, bytes: nat)
    ensures var q := Queued(s, slot, val, bytes);
            && q.failed == s.failed && q.spec == Apply(s.spec, slot, val) && q.store == s.store && q.landed == s.landed
            && q.settled == s.settled && q.log == s.log && q.ops == s.ops + [Op(|s.ops|, slot, val, bytes)]
  {
    hide Apply;
    hide Enqueue;
    hide Sweep;
    hide Hold;
    HoldFields(s);
    EnqueueFields(Accept(s, slot, val, bytes), slot);
    EnqueueFields(Accept(Hold(s), slot, val, bytes), slot);
    if slot == CLEAR {
      SweepFields(Enqueue(Accept(Hold(s), slot, val, bytes), slot));
    }
  }

  lemma HoldFields(s: Queue)
    ensures var h := Hold(s);
            && h == s.(clears := h.clears, gate := h.gate, chains := h.chains)
            && h.chains.Keys == s.chains.Keys
            && PendingOf(h.chains, CLEAR) == PendingOf(s.chains, CLEAR)
  {
  }

  lemma EnqueueFields(s: Queue, slot: Slot)
    requires |s.ops| > 0
    ensures var q := Enqueue(s, slot);
            && q == s.(chains := q.chains, bytes := q.bytes, count := q.count, out := q.out, boss := q.boss)
            && slot in q.chains && q.chains[slot].pending.Some?
  {
    hide Boss;
    hide CoversOf;
    hide IdsOf;
  }

  lemma SweepFields(s: Queue)
    requires CLEAR in s.chains && s.chains[CLEAR].pending.Some?
    ensures var q := Sweep(s);
            q == s.(chains := q.chains, bytes := q.bytes, count := q.count, out := q.out, boss := q.boss)
  {
    hide Boss;
    hide Bytes;
    hide UnsentIds;
    hide UnsentCovers;
    hide Emptied;
  }

  lemma ClearedExpect(s: Queue, val: Option<string>, bytes: nat, name: string)
    ensures var q := Queued(s, CLEAR, val, bytes); Expect(q.chains, q.store, name) == None
  {
    hide Apply;
    hide Bytes;
    hide Boss;
    hide UnsentIds;
    hide UnsentCovers;
    hide Lookup;
    hide Hold;
  }

  lemma KeyedExpect(s: Queue, slot: Slot, val: Option<string>, bytes: nat, name: string)
    requires slot != CLEAR
    ensures var q := Queued(s, slot, val, bytes);
            Expect(q.chains, q.store, name) == if slot == Key(name) then val else Expect(s.chains, s.store, name)
  {
    hide Apply;
    hide Bytes;
    hide Boss;
    hide Lookup;
  }

  // ----------------------------------------------------------------- sending, settling

  lemma TopExpect(s: Queue, slot: Slot, name: string)
    requires GateInv(s) && slot in s.chains && s.chains[slot].inflight.None?
    ensures Expect(Top(s, slot).chains, s.store, name) == Expect(s.chains, s.store, name)
  {
    hide Lookup;
    hide Top;
    TopParts(s, slot);
  }

  lemma TopView(s: Queue, slot: Slot)
    requires ViewInv(s) && GateInv(s) && slot in s.chains && s.chains[slot].inflight.None?
    ensures ViewInv(Top(s, slot))
  {
    hide Expect;
    hide Lookup;
    hide GateInv;
    var t := Top(s, slot);
    assert t.store == s.store && t.spec == s.spec && t.failed == s.failed;
    if s.failed == 0 {
      forall name
        ensures Expect(t.chains, t.store, name) == Lookup(t.spec, name)
      {
        TopExpect(s, slot, name);
      }
    }
  }

  /** A key whose operation is in flight is on the wire. */
  lemma InflightIsOnWire(s: Queue, name: string)
    requires ShapeInv(s, None) && WireInv(s) && Key(name) in s.chains && s.chains[Key(name)].inflight.Some?
    ensures Key(name) in s.wire
  {
    hide ItemShape;
    assert ChainShape(s.ops, Key(name), s.chains[Key(name)], false);
    assert OnWire(PhaseOf(s.chains, Key(name)));
  }

  lemma FinishExpect(s: Queue, slot: Slot, f: map<Slot, Chain>, name: string)
    requires slot in s.chains && s.chains[slot].inflight.Some? && s.chains[slot].phase == Attempt(true)
    requires ShapeInv(s, None) && WireInv(s) && LandInv(s) && f.Keys == s.chains.Keys
    requires forall k | k in f :: f[k].pending == s.chains[k].pending
    requires forall k | k in f :: f[k].inflight == if k == slot then None else s.chains[k].inflight
    ensures Expect(f, s.store, name) == Expect(s.chains, s.store, name)
  {
    hide ShapeInv;
    hide WireInv;
    if slot == CLEAR {
      if Key(name) in s.chains && s.chains[Key(name)].inflight.Some? {
        InflightIsOnWire(s, name);
        ClearAloneOnWire(s, name);
      }
    }
  }

  lemma ClearAloneOnWire(s: Queue, name: string)
    requires WireInv(s) && CLEAR in s.chains && s.chains[CLEAR].phase.Attempt?
    ensures Key(name) !in s.wire
  {
    assert OnWire(PhaseOf(s.chains, CLEAR));
  }

  lemma LandsLand(s: Queue, slot: Slot)
    requires LandInv(s) && WireInv(s) && slot in s.chains && s.chains[slot].phase == Attempt(false)
    requires s.chains[slot].inflight.Some?
    ensures LandInv(Next(s, Lands(slot), 0))
  {
    hide WireInv;
    hide Apply;
    hide Lookup;
    var n := Next(s, Lands(slot), 0);
    var op := s.chains[slot].inflight.value.op;
    forall k | k in n.chains && n.chains[k].phase == Attempt(true) && n.chains[k].inflight.Some?
      ensures n.chains[k].inflight.value.op.id in n.landed
      ensures k == CLEAR ==> n.store == map[]
      ensures k.Key? ==> Lookup(n.store, k.name) == n.chains[k].inflight.value.op.val
    {
      if k != slot {
        BothOnWire(s, k, slot);
      }
      if k.Key? {
        ApplyLookup(s.store, slot, op.val, k.name);
      } else {
        ClearEmpties(s.store, op.val);
      }
    }
  }

  lemma ClearEmpties(store: map<string, string>, val: Option<string>)
    ensures Apply(store, CLEAR, val) == map[]
  {
  }

  lemma BothOnWire(s: Queue, k: Slot, slot: Slot)
    requires WireInv(s) && k != slot && k in s.chains && slot in s.chains
    requires s.chains[k].phase.Attempt? && s.chains[slot].phase.Attempt?
    ensures k != CLEAR && slot != CLEAR
  {
    assert OnWire(PhaseOf(s.chains, k)) && OnWire(PhaseOf(s.chains, slot));
  }

  lemma LandsView(s: Queue, slot: Slot)
    requires ViewInv(s) && slot in s.chains && s.chains[slot].phase == Attempt(false) && s.chains[slot].inflight.Some?
    ensures ViewInv(Next(s, Lands(slot), 0))
  {
    hide Apply;
    hide Lookup;
    var n := Next(s, Lands(slot), 0);
    if s.failed == 0 {
      forall name
        ensures Expect(n.chains, n.store, name) == Lookup(n.spec, name)
      {
        assert Expect(s.chains, s.store, name) == Lookup(s.spec, name);
        ApplyLookup(s.store, slot, s.chains[slot].inflight.value.op.val, name);
      }
    }
  }

  /** No attempt has landed that had not landed before. */
  lemma SameLandings(s: Queue, s': Queue)
    requires LandInv(s) && s'.store == s.store && s'.landed == s.landed
    requires forall k | k in s'.chains && s'.chains[k].phase == Attempt(true) ::
               k in s.chains && s.chains[k].phase == Attempt(true) && s.chains[k].inflight == s'.chains[k].inflight
    ensures LandInv(s')
  {
    hide Lookup;
    forall k | k in s'.chains && s'.chains[k].phase == Attempt(true) && s'.chains[k].inflight.Some?
      ensures s'.chains[k].inflight.value.op.id in s'.landed
      ensures match k
              case CLEAR => s'.store == map[]
              case Key(name) => Lookup(s'.store, name) == s'.chains[k].inflight.value.op.val
    {
      assert k in s.chains && s.chains[k].phase == Attempt(true) && s.chains[k].inflight.Some?;
    }
  }

  lemma QueuedLand(s: Queue, slot: Slot, val: Option<string>, bytes: nat)
    requires LandInv(s)
    ensures LandInv(Queued(s, slot, val, bytes))
  {
    hide LandInv;
    hide Queued;
    QueuedFields(s, slot, val, bytes);
    QueuedFlights(s, slot, val, bytes);
    SameLandings(s, Queued(s, slot, val, bytes));
  }

  /** A push leaves alone what is in flight and where the run loops are. */
  ghost predicate Undisturbed(a: map<Slot, Chain>, b: map<Slot, Chain>) {
    && (forall k | k in a :: k in b && b[k].inflight == a[k].inflight)
    && (forall k | k in a && k in b :: b[k].phase == a[k].phase || (a[k].phase.Gated? && b[k].phase.Gated?))
    && (forall k | k in b && k !in a :: b[k].inflight.None? && b[k].phase.NotRunning?)
  }

  lemma EnqueueFlights(s: Queue, slot: Slot)
    requires |s.ops| > 0
    ensures var q := Enqueue(s, slot);
            && Undisturbed(s.chains, q.chains) && q.chains.Keys == s.chains.Keys + {slot} && q.wire == s.wire
            && (forall k | k in s.chains && k != slot :: q.chains[k] == s.chains[k])
            && q.chains[slot].pending.Some? && q.chains[slot].pending.value.op == s.ops[|s.ops| - 1]
  {
    hide Boss;
    hide CoversOf;
    hide IdsOf;
  }

  lemma SweepFlights(s: Queue)
    requires CLEAR in s.chains && s.chains[CLEAR].pending.Some?
    ensures var q := Sweep(s);
            && Undisturbed(s.chains, q.chains) && q.chains.Keys == s.chains.Keys && q.wire == s.wire
            && (forall k | k in q.chains && k != CLEAR :: q.chains[k].pending.None?)
            && q.chains[CLEAR].pending.Some? && q.chains[CLEAR].pending.value.op == s.chains[CLEAR].pending.value.op
  {
    hide Boss;
    hide Bytes;
    hide UnsentIds;
    hide UnsentCovers;
  }

  lemma HoldFlights(s: Queue)
    ensures var h := Hold(s); Undisturbed(s.chains, h.chains) && h.chains.Keys == s.chains.Keys && h.wire == s.wire
  {
    hide Disarm;
    DisarmFields(Arm(s));
    DisarmPhases(Arm(s));
  }

  lemma UndisturbedTwice(a: map<Slot, Chain>, b: map<Slot, Chain>, c: map<Slot, Chain>)
    requires Undisturbed(a, b) && Undisturbed(b, c)
    ensures Undisturbed(a, c)
  {
  }

  lemma QueuedFlights(s: Queue, slot: Slot, val: Option<string>, bytes: nat)
    ensures var q := Queued(s, slot, val, bytes);
            && Undisturbed(s.chains, q.chains) && q.chains.Keys == s.chains.Keys + {slot} && q.wire == s.wire
            && (slot == CLEAR ==> forall k | k in q.chains && k != CLEAR :: q.chains[k].pending.None?)
            && (slot != CLEAR ==> forall k | k in s.chains && k != slot :: q.chains[k] == s.chains[k])
            && q.chains[slot].pending.Some? && q.chains[slot].pending.value.op == Op(|s.ops|, slot, val, bytes)
  {
    hide Apply;
    hide Enqueue;
    hide Sweep;
    hide Hold;
    hide Undisturbed;
    if slot == CLEAR {
      var h := Hold(s);
      var e := Enqueue(Accept(h, slot, val, bytes), slot);
      HoldFields(s);
      HoldFlights(s);
      EnqueueFlights(Accept(h, slot, val, bytes), slot);
      SweepFlights(e);
      UndisturbedTwice(s.chains, h.chains, e.chains);
      UndisturbedTwice(s.chains, e.chains, Sweep(e).chains);
    } else {
      EnqueueFlights(Accept(s, slot, val, bytes), slot);
    }
  }

  lemma FinishView(s: Queue, slot: Slot, ok: bool)
    requires ViewInv(s) && ShapeInv(s, None) && WireInv(s) && LandInv(s)
    requires slot in s.chains && s.chains[slot].inflight.Some? && (ok ==> s.chains[slot].phase == Attempt(true))
    ensures ViewInv(Finish(s, slot, ok))
  {
    hide Expect;
    hide Lookup;
    hide ShapeInv;
    hide WireInv;
    hide LandInv;
    hide Finish;
    FinishSame(s, slot, ok);
    FinishFields(s, slot, ok);
    var f := Finish(s, slot, ok);
    if f.failed == 0 {
      forall name
        ensures Expect(f.chains, f.store, name) == Lookup(f.spec, name)
      {
        FinishExpect(s, slot, f.chains, name);
      }
    }
  }

  lemma FinishSame(s: Queue, slot: Slot, ok: bool)
    requires slot in s.chains && s.chains[slot].inflight.Some?
    ensures var f := Finish(s, slot, ok);
            && f.store == s.store && f.spec == s.spec && f.failed == (if ok then s.failed else s.failed + 1)
            && f.log == s.log + [Settled(s.chains[slot].inflight.value.covers, ok)] && f.wire == s.wire - {slot}
            && f.chains[slot].phase.NotRunning?
            && forall k | k in s.chains && k != slot ::
                 f.chains[k].phase == s.chains[k].phase ||
                 (f.chains[k].phase.Gated? && s.chains[k].phase.Gated?) ||
                 (f.chains[k].phase.AtWire? && s.chains[k].phase.AtWire?)
  {
    hide Leave;
    hide Disarm;
    var it := s.chains[slot].inflight.value;
    LeaveFields(s, slot, it);
    LeavePhases(s, slot, it);
    DisarmFields(Leave(s, slot, it));
    DisarmPhases(Leave(s, slot, it));
  }

  lemma LeavePhases(s: Queue, slot: Slot, it: Item)
    requires slot in s.chains
    ensures var l := Leave(s, slot, it);
            && l.chains.Keys == s.chains.Keys && l.wire == s.wire - {slot} && l.chains[slot].phase.NotRunning?
            && forall k | k in s.chains && k != slot ::
                 l.chains[k].phase == s.chains[k].phase || (l.chains[k].phase.AtWire? && s.chains[k].phase.AtWire?)
  {
  }

  lemma FinishLand(s: Queue, slot: Slot, ok: bool)
    requires LandInv(s) && slot in s.chains && s.chains[slot].inflight.Some?
    ensures LandInv(Finish(s, slot, ok))
  {
    hide LandInv;
    hide Finish;
    FinishSame(s, slot, ok);
    FinishFields(s, slot, ok);
    SameLandings(s, Finish(s, slot, ok));
  }

  lemma TopLand(s: Queue, slot: Slot)
    requires LandInv(s) && slot in s.chains && !s.chains[slot].phase.Attempt?
    ensures LandInv(Top(s, slot)) && Top(s, slot).landed == s.landed
  {
    hide LandInv;
    SameLandings(s, Top(s, slot));
  }
}
