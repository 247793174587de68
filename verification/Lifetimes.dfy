/** Expiry over the life of an arena. The callers of the arena turn a TTL into a 32-bit clock value; here every
    entry also has its true deadline, in milliseconds that do not wrap, and the two are proved to agree for as
    long as the index is swept often enough. */
module Lifetimes {
  import opened Bytes
  import opened Wrapping
  import opened Records
  import opened Probing
  import opened SharedMemory
  import opened Expiry
  import opened ArenaState
  import opened Shifting
  import opened Invalidation
  import opened ArenaSteps
  import opened Relief
  import opened Arenas

  type Store = map<seq<byte>, Rec>

  /** When an entry with this TTL, set at t, expires. */
  function Deadline(t: nat, ttlMs: nat): nat {
    t + if ttlMs > TTL_MAX then TTL_MAX else ttlMs
  }

  /** v: the bindings; due: the deadline of each set, by its number, unless it has none or reads as having none;
      swept: a time up to which the sweeps have removed all that was overdue. Every binding carries its deadline,
      cut to 32 bits, and no binding is left whose deadline had passed at `swept`. */
  ghost predicate Alive(v: Store, inserts: nat, due: map<nat, nat>, swept: nat, time: nat) {
    && swept <= time
    && (forall i | i in due :: i <= inserts && Clock(due[i]) != 0)
    && (forall k | k in v :: v[k].id <= inserts && Dated(v[k], due, swept, time))
  }

  ghost predicate Dated(r: Rec, due: map<nat, nat>, swept: nat, time: nat) {
    if r.id in due then r.expiresAt == Clock(due[r.id]) && swept < due[r.id] <= time + TTL_MAX else r.expiresAt == 0
  }

  /** The deadline of r has passed. */
  ghost predicate Overdue(r: Rec, due: map<nat, nat>, t: nat) {
    r.id in due && due[r.id] <= t
  }

  /** Less than 2^31 ms after `swept`, the 32-bit comparison tells exactly whether a deadline passed. */
  lemma ExpiredMeansOverdue(v: Store, inserts: nat, due: map<nat, nat>, swept: nat, time: nat, k: seq<byte>, t: nat)
    requires Alive(v, inserts, due, swept, time) && k in v && time <= t < swept + HALF
    ensures Expired(v[k].expiresAt, Clock(t)) <==> Overdue(v[k], due, t)
  {
    hide Clock;
    hide Minus32;
    assert Dated(v[k], due, swept, time);
    if v[k].id in due {
      DifferenceOfClocks(t, due[v[k].id]);
    }
  }

  lemma AliveLater(v: Store, v': Store, inserts: nat, inserts': nat, due: map<nat, nat>, swept: nat, time: nat, t: nat)
    requires Alive(v, inserts, due, swept, time) && Submap(v', v) && inserts <= inserts' && time <= t
    ensures Alive(v', inserts', due, swept, t)
  {
    hide Clock;
    forall k | k in v'
      ensures v'[k].id <= inserts' && Dated(v'[k], due, swept, t)
    {
      assert Dated(v[k], due, swept, time);
    }
  }

  /** The deadlines after a set that got the number id. */
  function DueAfter(due: map<nat, nat>, id: nat, t: nat, ttlMs: nat): map<nat, nat> {
    if ExpiryAt(t, ttlMs) == 0 then due else due[id := Deadline(t, ttlMs)]
  }

  lemma AliveAfterSet(v: Store, v': Store, inserts: nat, due: map<nat, nat>, swept: nat, time: nat, t: nat,
                      key: seq<byte>, ttlMs: nat)
    requires Alive(v, inserts, due, swept, time) && time <= t && key in v'
    requires v'[key].id == inserts + 1 && v'[key].expiresAt == ExpiryAt(t, ttlMs)
    requires forall k | k in v' && k != key :: k in v && v'[k] == v[k]
    ensures Alive(v', inserts + 1, DueAfter(due, inserts + 1, t, ttlMs), swept, t)
  {
    var due' := DueAfter(due, inserts + 1, t, ttlMs);
    assert ttlMs > 0 ==> ExpiryAt(t, ttlMs) == Clock(Deadline(t, ttlMs));
    hide Clock;
    forall k | k in v'
      ensures v'[k].id <= inserts + 1 && Dated(v'[k], due', swept, t)
    {
      if k != key {
        assert Dated(v[k], due, swept, time);
      }
    }
  }

  /** The clock values of the deadlines that passed between `swept` and t. */
  ghost function Stale(due: map<nat, nat>, swept: nat, t: nat): set<nat> {
    set i | i in due && swept < due[i] <= t :: Clock(due[i])
  }

  /** All of them read as passed until 2^31 ms after `swept`. */
  lemma StaleIsPassed(inserts: nat, v: Store, due: map<nat, nat>, swept: nat, time: nat, t: nat, now: nat)
    requires Alive(v, inserts, due, swept, time) && t <= now < swept + HALF
    ensures Stale(due, swept, t) <= PassedAt(Clock(now))
  {
    hide Clock;
    hide Minus32;
    forall e | e in Stale(due, swept, t)
      ensures e in PassedAt(Clock(now))
    {
      var i :| i in due && swept < due[i] <= t && e == Clock(due[i]);
      DifferenceOfClocks(now, due[i]);
    }
  }

  lemma AliveAfterSweep(v: Store, inserts: nat, due: map<nat, nat>, swept: nat, time: nat, t: nat)
    requires Alive(v, inserts, due, swept, time) && swept <= t <= time
    requires forall k | k in v :: v[k].expiresAt !in Stale(due, swept, t)
    ensures Alive(v, inserts, due, t, time)
  {
    hide Clock;
    forall k | k in v
      ensures Dated(v[k], due, t, time)
    {
      assert Dated(v[k], due, swept, time);
      StaleHas(due, swept, t, v[k].id);
    }
  }

  lemma StaleHas(due: map<nat, nat>, swept: nat, t: nat, i: nat)
    ensures i in due && swept < due[i] <= t ==> Clock(due[i]) in Stale(due, swept, t)
  {
  }

  /** Only overdue bindings were lost. */
  ghost predicate LostInTime(v0: Store, v: Store, due: map<nat, nat>, t: nat) {
    Submap(v, v0) && forall k | k in v0 && k !in v :: Overdue(v0[k], due, t)
  }

  lemma SweptInTime(f: Hash, v0: Store, v1: Store, v: Store, inserts: nat, due: map<nat, nat>, swept: nat, time: nat,
                    now: nat, h0: seq<RingRec>, h: seq<RingRec>)
    requires Alive(v1, inserts, due, swept, time) && time <= now < swept + HALF && LostInTime(v0, v1, due, time)
    requires Swept(f, v1, v, h0, h, Clock(now))
    ensures LostInTime(v0, v, due, now)
  {
    hide Clock;
    hide Expired;
    hide Alive;
    hide HashOf;
    hide Announces;
    forall k | k in v0 && k !in v
      ensures Overdue(v0[k], due, now)
    {
      if k in v1 {
        ExpiredMeansOverdue(v1, inserts, due, swept, time, k, now);
      }
    }
  }

  lemma SweptIsSubmap(f: Hash, v0: Store, v: Store, h0: seq<RingRec>, h: seq<RingRec>, now: nat)
    requires Swept(f, v0, v, h0, h, now)
    ensures Submap(v, v0)
  {
  }

  lemma NothingAlive(inserts: nat, t: nat)
    ensures Alive(map[], inserts, map[], t, t)
  {
  }

  lemma NothingLost(v: Store, due: map<nat, nat>, t: nat)
    ensures LostInTime(v, v, due, t) && Submap(v, v)
  {
  }

  lemma LessIsSubmap(v: Store, k: seq<byte>)
    ensures Submap(v - {k}, v) && Submap(map[], v)
  {
  }

  lemma SetParts(m0: Mem, m: Mem, key: seq<byte>, val: seq<byte>, rawLen: nat, flags: byte, expiresAt: nat, id: nat)
    requires |m.hash| == |m.off| && KeysDiffer(m) && key in View(m) && SetDone(m0, m, key, View(m)[key])
    requires Carries(View(m)[key], key, val, rawLen, flags, expiresAt, id)
    ensures |m0.hash| == |m0.off| && KeysDiffer(m0)
    ensures View(m)[key].id == id && View(m)[key].expiresAt == expiresAt && View(m)[key].val == val
    ensures forall k | k in View(m) && k != key :: k in View(m0) && View(m)[k] == View(m0)[k]
  {
    hide View;
    hide KeysDiffer;
  }

  lemma AliveAfterStore(m0: Mem, m: Mem, inserts0: nat, inserts: nat, due: map<nat, nat>, swept: nat, time: nat, t: nat,
                        key: seq<byte>, val: seq<byte>, rawLen: nat, flags: byte, ttlMs: nat, ok: bool)
    requires |m0.hash| == |m0.off| && KeysDiffer(m0) && |m.hash| == |m.off| && KeysDiffer(m) && time <= t
    requires Alive(View(m0), inserts0, due, swept, time) && inserts == inserts0 + if ok then 1 else 0
    requires ok ==> key in View(m) && SetDone(m0, m, key, View(m)[key])
    requires ok ==> Carries(View(m)[key], key, val, rawLen, flags, ExpiryAt(t, ttlMs), inserts)
    requires !ok ==> Submap(View(m), View(m0))
    ensures Alive(View(m), inserts, if ok then DueAfter(due, inserts, t, ttlMs) else due, swept, t)
    ensures ok ==> View(m)[key].id == inserts && View(m)[key].val == val
  {
    hide *;
    if ok {
      SetParts(m0, m, key, val, rawLen, flags, ExpiryAt(t, ttlMs), inserts);
      AliveAfterSet(View(m0), View(m), inserts0, due, swept, time, t, key, ttlMs);
    } else {
      AliveLater(View(m0), View(m), inserts0, inserts, due, swept, time, t);
    }
  }

  // ------------------------------------------------------------------- passes over the index

  /** Slot x holds an entry that was overdue at t. */
  ghost predicate OverdueAt(m: Mem, due: map<nat, nat>, x: nat, t: nat) {
    x < |m.hash| && x < |m.off| && m.hash[x] != EMPTY && m.off[x] in m.book && Overdue(m.book[m.off[x]], due, t)
  }

  /** How far from home the record with number i sits. */
  ghost function RankOf(m: Mem, i: nat): nat
    requires exists x: nat :: Holding(m, x, i)
  {
    var x: nat :| Holding(m, x, i);
    Displacement(m.hash[x], x, |m.hash|)
  }

  ghost predicate Holding(m: Mem, x: nat, i: nat) {
    x < |m.hash| && x < |m.off| && m.hash[x] != EMPTY && m.off[x] in m.book && m.book[m.off[x]].id == i
  }

  /** The ranks of all records in the index. */
  ghost function RanksOf(m: Mem): map<nat, nat> {
    map i | i in BookIds(m) && exists x: nat :: Holding(m, x, i) :: RankOf(m, i)
  }

  lemma RankIsDisplacement(m: Mem, x: nat)
    requires MemInv(m) && |m.hash| == |m.off| && KeysDiffer(m)
    requires x < |m.hash| && m.hash[x] != EMPTY && m.off[x] in m.book
    ensures var i := m.book[m.off[x]].id; i in RanksOf(m) && RanksOf(m)[i] == Displacement(m.hash[x], x, |m.hash|)
  {
    hide Home;
    hide Holds;
    hide InRegion;
    hide Rec.Fits;
    var i := m.book[m.off[x]].id;
    assert Holding(m, x, i);
    forall y: nat | Holding(m, y, i)
      ensures y == x
    {
      assert m.book[m.off[y]] == m.book[m.off[x]];
      assert SlotFor(m, x, m.book[m.off[x]].key) && SlotFor(m, y, m.book[m.off[x]].key);
    }
  }

  /** begun[k]: when pass k began; the last pass is under way and has come to `cursor`. ranks[k]: how far from
      home each entry sat when pass k began. An entry that was overdue then and is still there has come closer
      to home by one step for every pass since, and by one more if the cursor is past it. */
  ghost predicate Hunted(m: Mem, due: map<nat, nat>, begun: seq<nat>, ranks: seq<map<nat, nat>>, cursor: nat) {
    && |m.hash| == |m.off| && |begun| == |ranks| > 0
    && forall k: nat, x: nat | k < |begun| && OverdueAt(m, due, x, begun[k]) :: Counted(m, ranks, |begun|, cursor, k, x)
  }

  ghost predicate Counted(m: Mem, ranks: seq<map<nat, nat>>, n: nat, cursor: nat, k: nat, x: nat)
    requires k < |ranks| == n && x < |m.hash| && x < |m.off| && m.off[x] in m.book
  {
    var i := m.book[m.off[x]].id;
    i in ranks[k] &&
    Displacement(m.hash[x], x, |m.hash|) + (n - 1 - k) + (if x < cursor then 1 else 0) <= ranks[k][i]
  }

  /** More passes have ended since pass k began than any entry was steps away from home. */
  ghost predicate Exhausted(ranks: seq<map<nat, nat>>, k: nat) {
    k < |ranks| && forall i | i in ranks[k] :: ranks[k][i] + k + 1 < |ranks|
  }

  /** AN ENTRY SURVIVES NO MORE PASSES THAN ITS DISTANCE FROM HOME. Whatever ran between the slices, an entry that
      was overdue when pass k began and sat d slots from home is gone when 1 + d passes have ended since. */
  lemma PassesEnd(m: Mem, due: map<nat, nat>, begun: seq<nat>, ranks: seq<map<nat, nat>>, cursor: nat, k: nat, x: nat)
    requires Hunted(m, due, begun, ranks, cursor) && k < |begun| && OverdueAt(m, due, x, begun[k])
    ensures var i := m.book[m.off[x]].id; i in ranks[k] && |begun| - 1 - k <= ranks[k][i] && !Exhausted(ranks, k)
  {
    assert Counted(m, ranks, |begun|, cursor, k, x);
  }

  /** What any other operation does: nothing overdue is new, and entries only come closer to home. */
  lemma HuntGoesOn(m0: Mem, m: Mem, extra: set<Rec>, due: map<nat, nat>, due': map<nat, nat>,
                   begun: seq<nat>, ranks: seq<map<nat, nat>>, cursor: nat)
    requires Hunted(m0, due, begun, ranks, cursor) && Drifts(m0, m, extra)
    requires forall y: nat, t: nat | OverdueAt(m0, due', y, t) :: OverdueAt(m0, due, y, t)
    requires forall r, k | r in extra && 0 <= k < |begun| :: !Overdue(r, due', begun[k])
    ensures Hunted(m, due', begun, ranks, cursor)
  {
    hide Home;
    forall k: nat, x: nat | k < |begun| && OverdueAt(m, due', x, begun[k])
      ensures Counted(m, ranks, |begun|, cursor, k, x)
    {
      var y: nat :| Kept(m0, m, x, y);
      assert OverdueAt(m0, due', y, begun[k]);
      assert Counted(m0, ranks, |begun|, cursor, k, y);
    }
  }

  /** A slice from the cursor on. */
  lemma HuntAdvances(m0: Mem, m: Mem, due: map<nat, nat>, begun: seq<nat>, ranks: seq<map<nat, nat>>,
                     cursor: nat, next: nat, now: nat)
    requires Hunted(m0, due, begun, ranks, cursor) && Combed(m0, m, cursor, next, now) && cursor <= next
    requires forall k: nat, y: nat | k < |begun| && OverdueAt(m0, due, y, begun[k]) ::
               Expired(m0.book[m0.off[y]].expiresAt, now)
    ensures Hunted(m, due, begun, ranks, next)
  {
    hide Home;
    hide Expired;
    forall k: nat, x: nat | k < |begun| && OverdueAt(m, due, x, begun[k])
      ensures Counted(m, ranks, |begun|, next, k, x)
    {
      var y: nat :| StayedOrMoved(m0, m, cursor, next, now, x, y);
      assert OverdueAt(m0, due, y, begun[k]);
      assert Counted(m0, ranks, |begun|, cursor, k, y);
    }
  }

  /** The end of a pass is the beginning of the next. */
  lemma HuntBeginsAgain(m: Mem, due: map<nat, nat>, begun: seq<nat>, ranks: seq<map<nat, nat>>, t: nat)
    requires Hunted(m, due, begun, ranks, |m.hash|) && MemInv(m) && KeysDiffer(m)
    ensures Hunted(m, due, begun + [t], ranks + [RanksOf(m)], 0)
  {
    hide Home;
    hide MemInv;
    hide KeysDiffer;
    hide RanksOf;
    var begun', ranks' := begun + [t], ranks + [RanksOf(m)];
    forall k: nat, x: nat | k < |begun'| && OverdueAt(m, due, x, begun'[k])
      ensures Counted(m, ranks', |begun'|, 0, k, x)
    {
      if k < |begun| {
        assert Counted(m, ranks, |begun|, |m.hash|, k, x);
      } else {
        RankIsDisplacement(m, x);
      }
    }
  }

  /** The latest beginning of a pass that is exhausted. */
  ghost function Horizon(begun: seq<nat>, ranks: seq<map<nat, nat>>, n: nat): (t: nat)
    requires n <= |begun| == |ranks|
    ensures forall k | 0 <= k < n && Exhausted(ranks, k) :: begun[k] <= t
    ensures t == 0 || exists k: nat :: k < n && Exhausted(ranks, k) && t == begun[k]
  {
    if n == 0 then 0
    else
      var t := Horizon(begun, ranks, n - 1);
      if Exhausted(ranks, n - 1) && begun[n - 1] > t then begun[n - 1] else t
  }

  /** A bound slot is a binding. */
  lemma SlotIsBinding(m: Mem, x: nat)
    requires |m.hash| == |m.off| && KeysDiffer(m) && x < |m.hash| && m.hash[x] != EMPTY && m.off[x] in m.book
    ensures var r := m.book[m.off[x]]; r.key in View(m) && View(m)[r.key] == r
  {
    hide View;
    hide KeysDiffer;
    assert SlotFor(m, x, m.book[m.off[x]].key);
    ViewHas(m, x, m.book[m.off[x]].key);
  }

  lemma BindingIsSlot(m: Mem, k: seq<byte>) returns (x: nat)
    requires |m.hash| == |m.off| && KeysDiffer(m) && k in View(m)
    ensures x < |m.hash| && m.hash[x] != EMPTY && m.off[x] in m.book && View(m)[k] == m.book[m.off[x]]
  {
    hide View;
    hide KeysDiffer;
    x :| SlotFor(m, x, k);
    ViewHas(m, x, k);
  }

  lemma OverdueThere(m: Mem, due: map<nat, nat>, x: nat, t: nat)
    requires x < |m.hash| == |m.off| && m.hash[x] != EMPTY && m.off[x] in m.book && Overdue(m.book[m.off[x]], due, t)
    ensures OverdueAt(m, due, x, t)
  {
  }

  lemma HuntAfterSet(m0: Mem, m: Mem, r: Rec, inserts: nat, due: map<nat, nat>, swept: nat, time: nat, t: nat,
                     ttlMs: nat, begun: seq<nat>, ranks: seq<map<nat, nat>>, cursor: nat)
    requires |m0.hash| == |m0.off| && KeysDiffer(m0) && Alive(View(m0), inserts, due, swept, time) && time <= t
    requires Hunted(m0, due, begun, ranks, cursor) && Drifts(m0, m, {r}) && r.id == inserts + 1
    requires forall k | 0 <= k < |begun| :: begun[k] <= time
    ensures Hunted(m, DueAfter(due, inserts + 1, t, ttlMs), begun, ranks, cursor)
  {
    var due' := DueAfter(due, inserts + 1, t, ttlMs);
    hide Clock;
    hide Hunted;
    hide Drifts;
    hide View;
    hide KeysDiffer;
    forall y: nat, u: nat | OverdueAt(m0, due', y, u)
      ensures OverdueAt(m0, due, y, u)
    {
      SlotIsBinding(m0, y);
    }
    HuntGoesOn(m0, m, {r}, due, due', begun, ranks, cursor);
  }

  lemma HuntStays(m0: Mem, m: Mem, due: map<nat, nat>, begun: seq<nat>, ranks: seq<map<nat, nat>>, cursor: nat)
    requires Hunted(m0, due, begun, ranks, cursor) && Drifts(m0, m, {})
    ensures Hunted(m, due, begun, ranks, cursor)
  {
    hide Hunted;
    hide Drifts;
    HuntGoesOn(m0, m, {}, due, due, begun, ranks, cursor);
  }

  lemma HuntEmpty(m: Mem, due: map<nat, nat>, begun: seq<nat>, ranks: seq<map<nat, nat>>, cursor: nat)
    requires |m.hash| == |m.off| && KeysDiffer(m) && View(m) == map[] && |begun| == |ranks| > 0
    ensures Hunted(m, due, begun, ranks, cursor)
  {
    hide View;
    hide KeysDiffer;
    forall x: nat, t: nat
      ensures !OverdueAt(m, due, x, t)
    {
      NothingAt(m, x);
    }
  }

  lemma NothingAt(m: Mem, x: nat)
    requires |m.hash| == |m.off| && KeysDiffer(m) && View(m) == map[]
    ensures !(x < |m.hash| && m.hash[x] != EMPTY && m.off[x] in m.book)
  {
    hide View;
    hide KeysDiffer;
    if x < |m.hash| && m.hash[x] != EMPTY && m.off[x] in m.book {
      SlotIsBinding(m, x);
    }
  }

  /** The slice at `now` finds whatever is overdue. */
  lemma HuntSlice(m0: Mem, m: Mem, inserts: nat, due: map<nat, nat>, swept: nat, time: nat,
                  begun: seq<nat>, ranks: seq<map<nat, nat>>, cursor: nat, next: nat, now: nat)
    requires |m0.hash| == |m0.off| && KeysDiffer(m0) && Alive(View(m0), inserts, due, swept, time)
    requires time <= now < swept + HALF && forall k | 0 <= k < |begun| :: begun[k] <= time
    requires Hunted(m0, due, begun, ranks, cursor) && Combed(m0, m, cursor, next, Clock(now)) && cursor <= next
    ensures Hunted(m, due, begun, ranks, next)
  {
    hide Clock;
    hide Hunted;
    hide Combed;
    hide View;
    hide KeysDiffer;
    hide Alive;
    hide Expired;
    forall k: nat, y: nat | k < |begun| && OverdueAt(m0, due, y, begun[k])
      ensures Expired(m0.book[m0.off[y]].expiresAt, Clock(now))
    {
      SlotIsBinding(m0, y);
      ExpiredMeansOverdue(View(m0), inserts, due, swept, time, m0.book[m0.off[y]].key, now);
    }
    HuntAdvances(m0, m, due, begun, ranks, cursor, next, Clock(now));
  }

  /** No binding is left that was overdue at the horizon. */
  lemma AliveAtHorizon(m: Mem, inserts: nat, due: map<nat, nat>, swept: nat, time: nat,
                       begun: seq<nat>, ranks: seq<map<nat, nat>>, cursor: nat, t: nat)
    requires |m.hash| == |m.off| && KeysDiffer(m) && Alive(View(m), inserts, due, swept, time) && swept <= t <= time
    requires Hunted(m, due, begun, ranks, cursor)
    requires t == swept || exists k: nat :: k < |begun| && Exhausted(ranks, k) && t == begun[k]
    ensures Alive(View(m), inserts, due, t, time)
  {
    hide Clock;
    hide Hunted;
    hide View;
    hide KeysDiffer;
    if t != swept {
      var k: nat :| k < |begun| && Exhausted(ranks, k) && t == begun[k];
      forall i | i in View(m)
        ensures Dated(View(m)[i], due, t, time)
      {
        assert Dated(View(m)[i], due, swept, time);
        var x := BindingIsSlot(m, i);
        if OverdueAt(m, due, x, t) {
          PassesEnd(m, due, begun, ranks, cursor, k, x);
        }
      }
    }
  }

  /** The arena as its callers use it: with TTLs, a clock, and a timer that sweeps one slice of the index at a
      time, with any other operations between two slices. */
  class TimedArena {
    const arena: Arena
    /** Where the next slice begins. */
    var cursor: nat
    ghost var time: nat
    ghost var swept: nat
    ghost var due: map<nat, nat>
    ghost var begun: seq<nat>
    ghost var ranks: seq<map<nat, nat>>

    ghost predicate Valid()
      reads this, arena, arena.hash, arena.off, arena.data, arena.ring
    {
      arena.Valid() && |arena.m.hash| == |arena.m.off| && KeysDiffer(arena.m)
      && Alive(View(arena.m), arena.inserts, due, swept, time)
      && Hunted(arena.m, due, begun, ranks, cursor) && InPass()
    }

    /** `swept` is not before the beginning of any pass that is exhausted. */
    ghost predicate InPass()
      reads this`cursor, this`time, this`swept, this`begun, this`ranks
    {
      && |begun| == |ranks| > 0 && cursor <= arena.hash.Length
      && (forall k | 0 <= k < |begun| :: begun[k] <= time)
      && (forall k | 0 <= k < |begun| && Exhausted(ranks, k) :: begun[k] <= swept)
    }

    /** Opens a fresh arena at time t. */
    constructor (f: seq<byte> -> nat, slots: nat, dataBytes: nat, ringCap: nat, ghost t: nat)
      requires 16 <= slots <= SLOT_PAD && 4096 <= dataBytes && dataBytes % 8 == 0 && ringCap > 0
      ensures Valid() && fresh(arena) && View(arena.m) == map[] && time == swept == t && due == map[]
      ensures fresh(arena.hash) && fresh(arena.off) && fresh(arena.hints) && fresh(arena.data) && fresh(arena.ring)
      ensures arena.hash.Length == slots && arena.data.Length == dataBytes && arena.hashFn == f
      ensures arena.live == 0 && arena.logHead == 0 && arena.logTail == 0 && cursor == 0 && begun == [t]
    {
      hide *;
      arena := new Arena(f, slots, dataBytes, ringCap);
      time, swept, due, begun, ranks, cursor := t, t, map[], [t], [map[]], 0;
      new;
      arena.PartsOfValid();
      HuntEmpty(arena.m, due, begun, ranks, cursor);
      NothingAlive(arena.inserts, t);
      FirstPass();
      Whole();
    }

    lemma FirstPass()
      requires begun == [time] && ranks == [map[]] && cursor == 0 && swept == time
      ensures InPass()
    {
    }

    lemma Parts()
      requires Valid()
      ensures arena.Valid() && |arena.m.hash| == |arena.m.off| == arena.hash.Length && KeysDiffer(arena.m)
      ensures Alive(View(arena.m), arena.inserts, due, swept, time) && swept <= time
      ensures Hunted(arena.m, due, begun, ranks, cursor) && InPass()
    {
      hide Arena.Valid;
      hide View;
      hide KeysDiffer;
      hide Hunted;
      hide InPass;
      arena.PartsOfValid();
    }

    lemma PassParts()
      requires InPass()
      ensures |begun| == |ranks| > 0 && cursor <= arena.hash.Length
      ensures forall k | 0 <= k < |begun| :: begun[k] <= time
    {
    }

    lemma Whole()
      requires arena.Valid() && |arena.m.hash| == |arena.m.off| && KeysDiffer(arena.m)
      requires Alive(View(arena.m), arena.inserts, due, swept, time)
      requires Hunted(arena.m, due, begun, ranks, cursor) && InPass()
      ensures Valid()
    {
    }

    /** SWEEPS FIND EVERYTHING IN THE END. A binding that was overdue when pass k began, and sat d slots from home,
        is still there only if no more than d passes have ended since. */
    lemma SurvivesFewPasses(key: seq<byte>, k: nat)
      requires |arena.m.hash| == |arena.m.off| && KeysDiffer(arena.m) && |begun| == |ranks|
      requires Valid() && k < |begun| && key in View(arena.m) && Overdue(View(arena.m)[key], due, begun[k])
      ensures var i := View(arena.m)[key].id; i in ranks[k] && |begun| - 1 - k <= ranks[k][i]
    {
      hide *;
      Parts();
      var x := BindingIsSlot(arena.m, key);
      OverdueThere(arena.m, due, x, begun[k]);
      PassesEnd(arena.m, due, begun, ranks, cursor, k, x);
    }

    /** Time goes by. */
    ghost method Pass(t: nat)
      requires InPass() && time <= t
      modifies this`time
      ensures InPass() && time == t
    {
      time := t;
    }

    /** Binds `key` to a value for ttlMs milliseconds from now, 0 for good. */
    method Set(key: seq<byte>, val: seq<byte>, rawLen: nat, flags: byte, ttlMs: nat, writerId: nat, t: nat)
      returns (ok: bool)
      requires Valid() && time <= t && |key| < TWO_16 && rawLen < TWO_32 && Align8(HEADER + |key| + |val|) < TWO_32
      modifies this`time, this`due, arena, arena.hash, arena.off, arena.hints, arena.data, arena.ring
      ensures Valid() && time == t
      ensures |arena.m.hash| == |arena.m.off| && KeysDiffer(arena.m)
      ensures ok ==> key in View(arena.m) && View(arena.m)[key].id == arena.inserts && View(arena.m)[key].val == val
      ensures arena.inserts == old(arena.inserts) + if ok then 1 else 0
      ensures due == if ok then DueAfter(old(due), arena.inserts, t, ttlMs) else old(due)
      ensures |old(arena.m).hash| == |old(arena.m).off| && KeysDiffer(old(arena.m))
      ensures Drifts(old(arena.m), arena.m, if ok then {View(arena.m)[key]} else {})
      ensures SetOutcome(Align8(HEADER + |key| + |val|), arena.data.Length, key,
                         old(arena.m), old(arena.lay), old(arena.logTail), old(arena.logHead), old(arena.live),
                         arena.m, arena.lay, arena.logTail, arena.logHead, arena.live, arena.maxLive, ok)
    {
      hide *;
      Parts();
      PassParts();
      ok := arena.StoreSet(key, val, rawLen, flags, ExpiryAt(t, ttlMs), writerId);
      arena.PartsOfValid();
      AliveAfterStore(old(arena.m), arena.m, old(arena.inserts), arena.inserts, due, swept, time, t,
                      key, val, rawLen, flags, ttlMs, ok);
      if ok {
        HuntAfterSet(old(arena.m), arena.m, View(arena.m)[key], old(arena.inserts), due, swept, time, t, ttlMs,
                     begun, ranks, cursor);
      } else {
        HuntStays(old(arena.m), arena.m, due, begun, ranks, cursor);
      }
      due := if ok then DueAfter(due, arena.inserts, t, ttlMs) else due;
      Pass(t);
      Whole();
    }

    /** Removes a key. */
    method Delete(key: seq<byte>, writerId: nat, ghost t: nat) returns (had: bool)
      requires Valid() && time <= t
      modifies this`time, arena, arena.hash, arena.off, arena.hints, arena.data, arena.ring
      ensures Valid() && time == t
      ensures |arena.m.hash| == |arena.m.off| && |old(arena.m).hash| == |old(arena.m).off|
      ensures KeysDiffer(arena.m) && KeysDiffer(old(arena.m)) && View(arena.m) == View(old(arena.m)) - {key}
      ensures had <==> key in View(old(arena.m))
    {
      hide *;
      Parts();
      ghost var v0 := View(arena.m);
      had := arena.StoreDelete(key, writerId);
      arena.PartsOfValid();
      LessIsSubmap(v0, key);
      AliveLater(v0, View(arena.m), old(arena.inserts), arena.inserts, due, swept, time, t);
      HuntStays(old(arena.m), arena.m, due, begun, ranks, cursor);
      Pass(t);
      Whole();
    }

    /** Removes every key. */
    method Clear(writerId: nat, ghost t: nat)
      requires Valid() && time <= t
      modifies this`time, arena, arena.hash, arena.off, arena.hints, arena.data, arena.ring
      ensures Valid() && time == t
      ensures |arena.m.hash| == |arena.m.off| && KeysDiffer(arena.m) && View(arena.m) == map[]
    {
      hide *;
      Parts();
      PassParts();
      ghost var v0 := View(arena.m);
      ghost var wiped := arena.StoreClear(writerId);
      arena.PartsOfValid();
      LessIsSubmap(v0, []);
      AliveLater(v0, View(arena.m), old(arena.inserts), arena.inserts, due, swept, time, t);
      HuntEmpty(arena.m, due, begun, ranks, cursor);
      Pass(t);
      Whole();
    }

    /** NO READ AFTER THE TTL, and none refused before it. Until 2^31 ms after `swept`, an expiry time hides a
        binding from a read exactly from its deadline on. */
    method Get(key: seq<byte>, scratchCap: nat, t: nat) returns (r: ReadResult)
      requires Valid() && time <= t < swept + HALF
      ensures |arena.m.hash| == |arena.m.off| && KeysDiffer(arena.m)
      ensures r.Found? <==>
                key in View(arena.m) && !Shadowed(arena.m, HashOf(arena.hashFn, key), key) &&
                |View(arena.m)[key].val| <= scratchCap && !Overdue(View(arena.m)[key], due, t)
      ensures r.Found? ==> r.val == View(arena.m)[key].val
    {
      hide *;
      Parts();
      r := arena.StoreGet(key, scratchCap, Clock(t));
      if key in View(arena.m) {
        ExpiredMeansOverdue(View(arena.m), arena.inserts, due, swept, time, key, t);
      }
    }

    /** The same for a test of presence. */
    method Has(key: seq<byte>, t: nat) returns (b: bool)
      requires Valid() && time <= t < swept + HALF
      ensures |arena.m.hash| == |arena.m.off| && KeysDiffer(arena.m)
      ensures b <==> key in View(arena.m) && !Overdue(View(arena.m)[key], due, t)
    {
      hide *;
      Parts();
      b := arena.StoreHas(key, Clock(t));
      if key in View(arena.m) {
        ExpiredMeansOverdue(View(arena.m), arena.inserts, due, swept, time, key, t);
      }
    }

    /** One slice of a pass that began at t0 with the bindings v0. */
    method SweepSlice(from: nat, slice: nat, now: nat, ghost v0: Store, ghost times: set<nat>, ghost t0: nat)
      returns (removed: nat, next: nat, done: bool)
      requires arena.Valid() && |arena.m.hash| == |arena.m.off| && KeysDiffer(arena.m)
      requires Alive(View(arena.m), arena.inserts, due, swept, time) && LostInTime(v0, View(arena.m), due, time)
      requires t0 <= time <= now < swept + HALF && times == Stale(due, swept, t0) && InPass()
      modifies this`time, arena, arena.hash, arena.off, arena.hints, arena.data, arena.ring
      ensures arena.Valid() && |arena.m.hash| == |arena.m.off| && KeysDiffer(arena.m) && time == now && InPass()
      ensures Alive(View(arena.m), arena.inserts, due, swept, time) && LostInTime(v0, View(arena.m), due, time)
      ensures arena.live + removed == old(arena.live)
      ensures !done ==> from <= next < arena.hash.Length && next - from + removed == slice
      ensures done ==> next == 0 && (from < arena.hash.Length ==> arena.hash.Length - from + removed <= slice)
      ensures CleanBelow(old(arena.m), from, times) ==>
                CleanBelow(arena.m, if done then arena.hash.Length else next, times)
      ensures Combed(old(arena.m), arena.m, from, if done then arena.hash.Length else next, Clock(now))
      ensures NoneToSweep(old(arena.m), from, slice, Clock(now)) ==>
                removed == 0 && arena.m == old(arena.m).(retired := arena.m.retired)
    {
      hide *;
      ghost var v1, i1, h1 := View(arena.m), arena.inserts, arena.history;
      StaleIsPassed(i1, v1, due, swept, time, t0, now);
      removed, next, done := arena.SweepExpired(from, slice, Clock(now), times);
      SweptInTime(arena.hashFn, v0, v1, View(arena.m), i1, due, swept, time, now, h1, arena.history);
      SweptIsSubmap(arena.hashFn, v1, View(arena.m), h1, arena.history, Clock(now));
      AliveLater(v1, View(arena.m), i1, arena.inserts, due, swept, time, now);
      Pass(now);
    }

    /** One tick of the timer: a slice from the cursor on. When the pass has come to its end the next one begins,
        and `swept` moves up to the beginning of the latest pass that is exhausted. */
    method Tick(slice: nat, t: nat) returns (removed: nat, done: bool)
      requires Valid() && slice > 0 && time <= t < swept + HALF
      modifies this`time, this`swept, this`cursor, this`begun, this`ranks,
               arena, arena.hash, arena.off, arena.hints, arena.data, arena.ring
      ensures Valid() && time == t && arena.live + removed == old(arena.live)
      ensures |arena.m.hash| == |arena.m.off| && |old(arena.m).hash| == |old(arena.m).off|
      ensures KeysDiffer(arena.m) && KeysDiffer(old(arena.m))
      ensures LostInTime(View(old(arena.m)), View(arena.m), due, t)
      ensures if done then old(cursor) < arena.hash.Length ==> arena.hash.Length - old(cursor) + removed <= slice
              else cursor + removed == old(cursor) + slice && cursor < arena.hash.Length
      ensures if done then cursor == 0 && begun == old(begun) + [t] && ranks == old(ranks) + [RanksOf(arena.m)]
              else begun == old(begun) && ranks == old(ranks)
      ensures swept >= old(swept) && forall k | 0 <= k < |begun| && Exhausted(ranks, k) :: begun[k] <= swept
      ensures swept == old(swept) || exists k: nat :: k < |begun| && Exhausted(ranks, k) && swept == begun[k]
      ensures NoneToSweep(old(arena.m), old(cursor), slice, Clock(t)) ==>
                removed == 0 && arena.m == old(arena.m).(retired := arena.m.retired)
    {
      hide *;
      Parts();
      PassParts();
      ghost var m0, i0 := arena.m, arena.inserts;
      NothingLost(View(m0), due, time);
      var next;
      removed, next, done := SweepSlice(cursor, slice, t, View(m0), Stale(due, swept, time), time);
      arena.PartsOfValid();
      ghost var far := if done then arena.hash.Length else next;
      HuntSlice(m0, arena.m, i0, due, swept, old(time), begun, ranks, cursor, far, t);
      EndSlice(done, next);
      Whole();
    }

    /** The end of a slice, maybe of a pass. */
    method EndSlice(done: bool, next: nat)
      requires |arena.m.hash| == |arena.m.off| == arena.hash.Length && KeysDiffer(arena.m)
      requires Alive(View(arena.m), arena.inserts, due, swept, time) && InPass() && arena.Valid()
      requires Hunted(arena.m, due, begun, ranks, if done then arena.hash.Length else next)
      requires if done then next == 0 else next < arena.hash.Length
      modifies this`cursor, this`begun, this`ranks, this`swept
      ensures cursor == next && InPass() && Hunted(arena.m, due, begun, ranks, cursor)
      ensures Alive(View(arena.m), arena.inserts, due, swept, time)
      ensures if done then begun == old(begun) + [time] && ranks == old(ranks) + [RanksOf(arena.m)]
              else begun == old(begun) && ranks == old(ranks)
      ensures swept >= old(swept) && forall k | 0 <= k < |begun| && Exhausted(ranks, k) :: begun[k] <= swept
      ensures swept == old(swept) || exists k: nat :: k < |begun| && Exhausted(ranks, k) && swept == begun[k]
    {
      hide Arena.Valid;
      hide Hunted;
      hide Alive;
      hide View;
      hide KeysDiffer;
      hide RanksOf;
      hide Exhausted;
      arena.PartsOfValid();
      cursor := next;
      if done {
        MemOf(arena);
        HuntBeginsAgain(arena.m, due, begun, ranks, time);
        begun, ranks := begun + [time], ranks + [RanksOf(arena.m)];
        ghost var t := Horizon(begun, ranks, |begun|);
        if t > swept {
          AliveAtHorizon(arena.m, arena.inserts, due, swept, time, begun, ranks, cursor, t);
          swept := t;
        }
      }
    }

    /** A full pass over the index with nothing between its slices, the n-th of them at time clock(n). It removes
        only what is overdue, and all that was overdue when it began. */
    method SweepPass(slice: nat, clock: nat -> nat) returns (removed: nat)
      requires Valid() && slice > 0 && time <= clock(0)
      requires forall i: nat, j: nat | i <= j :: clock(i) <= clock(j) < swept + HALF
      modifies this`time, this`swept, arena, arena.hash, arena.off, arena.hints, arena.data, arena.ring
      ensures Valid() && arena.live + removed == old(arena.live) && swept == clock(0)
      ensures |arena.m.hash| == |arena.m.off| && |old(arena.m).hash| == |old(arena.m).off|
      ensures KeysDiffer(arena.m) && KeysDiffer(old(arena.m))
      ensures LostInTime(View(old(arena.m)), View(arena.m), due, time)
    {
      hide *;
      Parts();
      ghost var v0, times := View(arena.m), Stale(due, swept, clock(0));
      NothingLost(v0, due, clock(0));
      AliveLater(v0, v0, arena.inserts, arena.inserts, due, swept, time, clock(0));
      NothingBelowZero(arena.m, times);
      Pass(clock(0));
      var from: nat, n: nat, done := 0, 0, false;
      removed := 0;
      while !done
        invariant arena.Valid() && |arena.m.hash| == |arena.m.off| == arena.hash.Length && KeysDiffer(arena.m)
        invariant Alive(View(arena.m), arena.inserts, due, swept, time) && clock(0) <= time <= clock(n)
        invariant swept == old(swept) && InPass() && Hunted(arena.m, due, begun, ranks, cursor)
        invariant LostInTime(v0, View(arena.m), due, time) && arena.live + removed == old(arena.live)
        invariant done || from <= arena.hash.Length
        invariant CleanBelow(arena.m, if done then arena.hash.Length else from, times)
        decreases if done then 0 else 1 + arena.hash.Length - from + arena.live
      {
        ghost var m1, from1 := arena.m, from;
        var gone;
        gone, from, done := SweepSlice(from, slice, clock(n), v0, times, clock(0));
        arena.PartsOfValid();
        CombedIsDrift(m1, arena.m, from1, if done then arena.hash.Length else from, Clock(clock(n)));
        HuntStays(m1, arena.m, due, begun, ranks, cursor);
        removed := removed + gone;
        n := n + 1;
      }
      CleanMeansFresh(arena.m, times);
      AliveAfterSweep(View(arena.m), arena.inserts, due, swept, time, clock(0));
      SweptTo(clock(0));
      Whole();
    }

    ghost method SweptTo(t: nat)
      requires InPass() && swept <= t
      modifies this`swept
      ensures InPass() && swept == t
    {
      hide Exhausted;
      swept := t;
    }
  }

  lemma MemOf(a: Arena)
    requires a.Valid()
    ensures MemInv(a.m)
  {
    hide ArenaInv;
    hide MemInv;
    hide KeysDiffer;
    hide Settled;
    hide Run;
    hide LegalRun;
  }
}
