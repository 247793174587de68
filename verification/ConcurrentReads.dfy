/** Reads that run while the operations of an arena do. The arena keeps the run of its own stores; an
    execution is any way to put the loads of a read between those stores. */
module ConcurrentReads {
  import opened Bytes
  import opened Records
  import opened SharedMemory
  import opened Expiry
  import opened Readers
  import opened ArenaState
  import opened ArenaSteps
  import opened Arenas

  /** The stores among the actions, in order. */
  function Stores(acts: seq<Action>): seq<Event> {
    if acts == [] then []
    else (if acts[0].Writer? then [acts[0].e] else []) + Stores(acts[1..])
  }

  ghost function Stored(s: System, e: Event): (s': System)
    ensures |s'.m.data| == |s.m.data|
  {
    s.(m := Step(s.m, e), zeroed := s.zeroed || e.ZeroOff?)
  }

  /** The loads are ones the reader may do where they are; nothing is asked of the stores. */
  ghost predicate Reads(s: System, q: Request, acts: seq<Action>)
    requires |s.m.data| > 0
    decreases |acts|
  {
    acts == [] ||
    match acts[0]
    case Writer(e) => Reads(Stored(s, e), q, acts[1..])
    case Reader(l) => Allowed(s, q, acts[0]) && Reads(Act(s, q, acts[0]), q, acts[1..])
  }

  lemma {:induction false} LegalPrefix(m: Mem, t: seq<Event>, n: nat)
    requires |m.data| > 0 && LegalRun(m, t) && n <= |t|
    ensures LegalRun(m, t[..n])
    decreases |t|
  {
    hide Legal;
    if n == |t| {
      assert t[..n] == t;
    } else {
      assert t[..|t| - 1][..n] == t[..n];
      LegalPrefix(m, t[..|t| - 1], n);
    }
  }

  lemma NextIsLegal(m: Mem, t: seq<Event>, e: Event, rest: seq<Event>)
    requires |m.data| > 0 && LegalRun(m, t + ([e] + rest))
    ensures Legal(Run(m, t), e) && LegalRun(m, (t + [e]) + rest) && Run(m, t + [e]) == Step(Run(m, t), e)
  {
    hide Legal;
    var all := t + ([e] + rest);
    LegalPrefix(m, all, |t| + 1);
    assert all[..|t| + 1] == t + [e] && (t + [e])[..|t|] == t;
    assert all == (t + [e]) + rest;
  }

  /** Stores of a legal run may be interleaved with loads in any way: the result is one of the
      interleavings that the theorems about readers speak of. */
  lemma {:induction false} AnyInterleaving(boot: Mem, before: seq<Event>, s: System, q: Request, acts: seq<Action>)
    requires |boot.data| > 0 && s.m == Run(boot, before) && Reads(s, q, acts)
    requires LegalRun(boot, before + Stores(acts))
    ensures Interleaving(s, q, acts) && After(s, q, acts).m == Run(boot, before + Stores(acts))
    decreases |acts|
  {
    hide Legal;
    hide Enabled;
    hide ReadStep;
    hide AddrOf;
    hide LegalRun;
    hide Run;
    if acts == [] {
      assert before + Stores(acts) == before;
    } else {
      var rest := acts[1..];
      if acts[0].Writer? {
        NextIsLegal(boot, before, acts[0].e, Stores(rest));
        assert before + Stores(acts) == (before + [acts[0].e]) + Stores(rest);
        AnyInterleaving(boot, before + [acts[0].e], Stored(s, acts[0].e), q, rest);
      } else {
        assert Stores(acts) == Stores(rest);
        AnyInterleaving(boot, before, Act(s, q, acts[0]), q, rest);
      }
    }
  }

  lemma WrittenByASet(a: Arena, p: nat)
    requires a.Valid() && p in a.m.book
    ensures CallOf(a.m.book[p]) in a.sets
  {
    hide Arena.Valid;
    a.PartsOfValid();
  }

  /** READS DURING OPERATIONS. A read begins at any store of an arena's life and its loads fall
      anywhere among the later stores. If it hits, all it returns comes from one completed set of its key:
      some call of StoreSet that returned true had these arguments. */
  lemma ReadDuringOperations(a: Arena, before: seq<Event>, q: Request, acts: seq<Action>)
    requires a.Valid() && before + Stores(acts) == a.trace && |a.boot.data| > 0
    requires Reads(Begin(Run(a.boot, before), q), q, acts)
    ensures Interleaving(Begin(Run(a.boot, before), q), q, acts)
    ensures After(Begin(Run(a.boot, before), q), q, acts).m == a.m
    ensures var ph := After(Begin(Run(a.boot, before), q), q, acts).ph;
            ph.Hit? ==>
              && ph.pos in a.m.book
              && var r := a.m.book[ph.pos];
                 && r.key == q.key && r.val == ph.val && r.flags == ph.flags
                 && r.expiresAt == ph.expiresAt && r.rawLen == ph.rawLen
                 && SetCall(q.key, ph.val, ph.rawLen, ph.flags, ph.expiresAt, r.id) in a.sets
  {
    hide Legal;
    hide ArenaInv;
    hide Settled;
    hide KeysDiffer;
    hide Reads;
    hide Interleaving;
    hide After;
    LegalPrefix(a.boot, a.trace, |before|);
    assert a.trace[..|before|] == before;
    AnyInterleaving(a.boot, before, Begin(Run(a.boot, before), q), q, acts);
    if After(Begin(Run(a.boot, before), q), q, acts).ph.Hit? {
      HitIsOneCompleteSet(a.boot, before, q, acts);
      WrittenByASet(a, After(Begin(Run(a.boot, before), q), q, acts).ph.pos);
    }
  }

  /** NO STALE READS. The read begins between two operations (m0 is the memory at that moment), and the tail has
      moved, or the first record of the log is current, or no clear runs during the read. Then a hit returns what
      m0 binds to the key, or the record of a set that was not complete at that moment: never a value that had
      been overwritten, deleted or evicted. */
  lemma ReadIsCurrentOrNewer(a: Arena, before: seq<Event>, q: Request, acts: seq<Action>)
    requires a.Valid() && before + Stores(acts) == a.trace && |a.boot.data| > 0
    requires !MayBeStale(Run(a.boot, before), acts)
    requires var m0 := Run(a.boot, before); Settled(m0) && |m0.hash| == |m0.off| && KeysDiffer(m0)
    requires Reads(Begin(Run(a.boot, before), q), q, acts)
    requires Interleaving(Begin(Run(a.boot, before), q), q, acts)
    requires After(Begin(Run(a.boot, before), q), q, acts).ph.Hit?
    ensures var m0, ph := Run(a.boot, before), After(Begin(Run(a.boot, before), q), q, acts).ph;
            && ph.pos in a.m.book
            && var r := a.m.book[ph.pos];
               (q.key in View(m0) && View(m0)[q.key] == r) || (forall p | p in m0.book :: m0.book[p].id != r.id)
  {
    hide Legal;
    hide ArenaInv;
    hide Settled;
    hide KeysDiffer;
    hide Reads;
    hide Interleaving;
    hide After;
    hide MayBeStale;
    hide View;
    ReadDuringOperations(a, before, q, acts);
    LegalPrefix(a.boot, a.trace, |before|);
    assert a.trace[..|before|] == before;
    HitIsCurrentOrNewer(a.boot, before, q, acts);
    var m0, r := Run(a.boot, before), a.m.book[After(Begin(Run(a.boot, before), q), q, acts).ph.pos];
    if i :| Binds(m0, i, r) {
      BoundIsInView(m0, i, r);
    }
  }

  lemma BoundIsInView(m: Mem, i: nat, r: Rec)
    requires |m.hash| == |m.off| && KeysDiffer(m) && Binds(m, i, r)
    ensures r.key in View(m) && View(m)[r.key] == r
  {
    assert SlotFor(m, i, r.key);
  }
}
