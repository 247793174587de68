/** The read machine while no store is made: it probes past slots of other keys, and it finds exactly the entries
    that the index holds for it. */
module QuietReads {
  import opened Bytes
  import opened Wrapping
  import opened Records
  import opened Probing
  import opened SharedMemory
  import opened Expiry
  import opened LogLayout
  import opened ArenaState
  import opened HeadBlocks
  import opened ArenaSteps
  import opened Readers
  import opened StaleReads
  import opened Arenas

  /** No store is made, and the reader does not give up. */
  ghost predicate Quiet(acts: seq<Action>) {
    forall k | 0 <= k < |acts| :: acts[k].Reader? && !acts[k].l.GiveUp?
  }

  // ------------------------------------------------------------------------------ probing

  /** Slot x is the first on the probe path of hv that holds this hash. */
  ghost predicate FirstMatch(m: Mem, hv: nat, x: nat) {
    |m.hash| > 0 && x < |m.hash| && m.hash[x] == hv && NoHashAmongFirst(m, hv, Dist(Home(hv, |m.hash|), x, |m.hash|))
  }

  /** The record at p is the one to read, and the first match on the probe path points at it, with no empty slot
      before. */
  ghost predicate Findable(m: Mem, q: Request, p: nat) {
    && Readable(m, q, p) && |m.hash| > 0 && |m.hash| == |m.off|
    && (forall x: nat | FirstMatch(m, q.hash, x) :: m.off[x] == p)
    && (forall d: nat | d < |m.hash| && NoHashAmongFirst(m, q.hash, d) :: m.hash[Probe(q.hash, d, |m.hash|)] != EMPTY)
    && !NoHashAmongFirst(m, q.hash, |m.hash|)
  }

  /** What an arena binds to a key, and neither hides nor has let expire, is there to be found. */
  lemma BoundIsFindable(f: Hash, m: Mem, lay: Layout, tail: nat, head: nat, inserts: nat, q: Request) returns (p: nat)
    requires ArenaInv(f, m, lay, tail, head, inserts) && |m.hash| == |m.off| && KeysDiffer(m)
    requires q.hash == HashOf(f, q.key) && q.key in View(m) && !Shadowed(m, q.hash, q.key)
    requires |View(m)[q.key].val| <= q.scratchCap && !Expired(View(m)[q.key].expiresAt, q.now)
    ensures p in m.book && m.book[p] == View(m)[q.key] && Findable(m, q, p)
  {
    hide *;
    MemOfInv(f, m, lay, tail, head, inserts);
    forall x: nat | FirstMatch(m, q.hash, x)
      ensures x < |m.off| && m.off[x] in m.book && m.book[m.off[x]] == View(m)[q.key] && Readable(m, q, m.off[x])
    {
      MatchIsRight(f, m, lay, tail, head, inserts, q, x);
    }
    forall d: nat | d < |m.hash| && NoHashAmongFirst(m, q.hash, d)
      ensures m.hash[Probe(q.hash, d, |m.hash|)] != EMPTY
    {
      if m.hash[Probe(q.hash, d, |m.hash|)] == EMPTY {
        EmptyMeansAbsent(f, m, lay, tail, head, inserts, d, q.key);
      }
    }
    if NoHashAmongFirst(m, q.hash, |m.hash|) {
      AllSlotsDiffer(f, m, lay, tail, head, inserts, q.key);
    }
    var x := SomeMatch(m, q.hash, |m.hash|);
    p := m.off[x];
    OneTarget(m, q, x);
  }

  lemma MemOfInv(f: Hash, m: Mem, lay: Layout, tail: nat, head: nat, inserts: nat)
    requires ArenaInv(f, m, lay, tail, head, inserts)
    ensures MemInv(m) && |m.hash| == |m.off| > 0
  {
  }

  lemma MatchIsRight(f: Hash, m: Mem, lay: Layout, tail: nat, head: nat, inserts: nat, q: Request, x: nat)
    requires ArenaInv(f, m, lay, tail, head, inserts) && |m.hash| == |m.off| && KeysDiffer(m)
    requires q.hash == HashOf(f, q.key) && q.key in View(m) && !Shadowed(m, q.hash, q.key)
    requires |View(m)[q.key].val| <= q.scratchCap && !Expired(View(m)[q.key].expiresAt, q.now)
    requires FirstMatch(m, q.hash, x)
    ensures x < |m.off| && m.off[x] in m.book && m.book[m.off[x]] == View(m)[q.key] && Readable(m, q, m.off[x])
  {
    hide ArenaInv;
    hide NoHashAmongFirst;
    hide Shadowed;
    hide View;
    hide KeysDiffer;
    hide HashOf;
    hide Home;
    hide Expired;
    hide MemInv;
    hide Phys;
    hide Decodes;
    hide FromLE;
    HashIsNotEmpty(f, q.key);
    MemOfInv(f, m, lay, tail, head, inserts);
    ProbeReaches(q.hash, x, |m.hash|);
    FirstMatchDecides(f, m, lay, tail, head, inserts, Dist(Home(q.hash, |m.hash|), x, |m.hash|), x, q.key);
    SlotDecodes(f, m, lay, tail, head, inserts, x);
    KeyOf(m, q.key);
    SeqIsEven(m, m.off[x]);
  }

  lemma KeyOf(m: Mem, k: seq<byte>)
    requires |m.hash| == |m.off| && KeysDiffer(m) && k in View(m)
    ensures View(m)[k].key == k
  {
    hide KeysDiffer;
    var x: nat :| SlotFor(m, x, k);
  }

  lemma SeqIsEven(m: Mem, p: nat)
    requires |m.data| > 0 && Phys(p, |m.data|) + HEADER <= |m.data|
    requires var a := Phys(p, |m.data|); FromLE(m.data[a..a + 4]) % 2 == 0
    ensures SeqField(m.data, p) % 2 == 0
  {
    hide FromLE;
  }

  lemma ProbeReaches(hv: nat, x: nat, n: nat)
    requires x < n
    ensures Dist(Home(hv, n), x, n) < n && x == Probe(hv, Dist(Home(hv, n), x, n), n)
  {
    hide Home;
  }

  lemma {:induction false} SomeMatch(m: Mem, hv: nat, d: nat) returns (x: nat)
    requires |m.hash| > 0 && d <= |m.hash| && !NoHashAmongFirst(m, hv, d)
    ensures FirstMatch(m, hv, x)
  {
    hide Home;
    if NoHashAmongFirst(m, hv, d - 1) {
      x :| x < |m.hash| && Dist(Home(hv, |m.hash|), x, |m.hash|) < d && m.hash[x] == hv;
    } else {
      x := SomeMatch(m, hv, d - 1);
    }
  }

  lemma MatchesAgree(m: Mem, hv: nat, x: nat, y: nat)
    requires FirstMatch(m, hv, x) && FirstMatch(m, hv, y)
    ensures x == y
  {
    hide Home;
  }

  lemma OneTarget(m: Mem, q: Request, x: nat)
    requires |m.hash| == |m.off| > 0 && FirstMatch(m, q.hash, x) && Readable(m, q, m.off[x])
    requires forall d: nat | d < |m.hash| && NoHashAmongFirst(m, q.hash, d) ::
               m.hash[Probe(q.hash, d, |m.hash|)] != EMPTY
    requires !NoHashAmongFirst(m, q.hash, |m.hash|)
    ensures Findable(m, q, m.off[x])
  {
    hide NoHashAmongFirst;
    hide Readable;
    hide Home;
    forall y: nat | FirstMatch(m, q.hash, y)
      ensures m.off[y] == m.off[x]
    {
      MatchesAgree(m, q.hash, x, y);
    }
  }

  // ------------------------------------------------------------------------- no way to miss

  /** The bytes loaded so far are those of the block at address a. */
  ghost predicate Loading(d: seq<byte>, a: nat, got: map<nat, byte>) {
    forall k | k in got :: a + k < |d| && got[k] == d[a + k]
  }

  /** On the way to the record at p. */
  ghost predicate Going(m: Mem, q: Request, p: nat, ph: Phase)
    requires |m.data| > 0 && p in m.book && |m.hash| > 0 && Phys(p, |m.data|) + HEADER <= |m.data|
  {
    var a, r := Phys(p, |m.data|), m.book[p];
    match ph
    case ProbeSlot(i, d) => d < |m.hash| && i == Probe(q.hash, d, |m.hash|) && NoHashAmongFirst(m, q.hash, d)
    case Matched(x) => FirstMatch(m, q.hash, x)
    case Header(pos, got) => pos == p && Loading(m.data, a, got)
    case Body(pos, hd, got) => pos == p && hd == m.data[a..a + HEADER] && Loading(m.data, a, got)
    case Sealed(pos, hd, val) => pos == p && hd == m.data[a..a + HEADER] && val == r.val
    case Miss => false
    case Hit(pos, val, flags, exp, raw) =>
      pos == p && val == r.val && flags == r.flags && exp == r.expiresAt && raw == r.rawLen
  }

  lemma CollectIs(d: seq<byte>, a: nat, got: map<nat, byte>, lo: nat, hi: nat)
    requires Loading(d, a, got) && lo <= hi && Loaded(got, lo, hi)
    ensures lo < hi ==> a + hi <= |d|
    ensures a + hi <= |d| ==> Collect(got, lo, hi) == d[a + lo..a + hi]
  {
    if lo < hi {
      assert hi - 1 in got;
    }
  }

  lemma FirstIsFound(m: Mem, q: Request, p: nat, i: nat, d: nat)
    requires Findable(m, q, p) && d < |m.hash| && i == Probe(q.hash, d, |m.hash|) && NoHashAmongFirst(m, q.hash, d)
    ensures i < |m.hash| && m.hash[i] != EMPTY
    ensures m.hash[i] == q.hash ==> FirstMatch(m, q.hash, i)
    ensures m.hash[i] != q.hash ==> d + 1 < |m.hash| && NoHashAmongFirst(m, q.hash, d + 1)
    ensures m.hash[i] != q.hash ==> Next(i, |m.hash|) == Probe(q.hash, d + 1, |m.hash|)
  {
    hide Home;
    hide Readable;
    hide NoHashAmongFirst;
    if m.hash[i] != q.hash {
      NoHashAmongNext(m, q.hash, d, i);
    }
  }

  lemma ProbeGoesOn(m: Mem, q: Request, p: nat, ph: Phase)
    requires Findable(m, q, p) && |m.data| > 0 && p in m.book && Phys(p, |m.data|) + HEADER <= |m.data|
    requires Going(m, q, p, ph) && Enabled(m, q, ph, LoadHash)
    ensures Going(m, q, p, ReadStep(m, q, ph, LoadHash))
  {
    hide Findable;
    hide NoHashAmongFirst;
    hide Loading;
    hide Phys;
    hide Home;
    hide FirstMatch;
    FirstIsFound(m, q, p, ph.slot, ph.probes);
  }

  lemma HeaderGoesOn(m: Mem, q: Request, p: nat, ph: Phase)
    requires Readable(m, q, p) && |m.data| > 0 && |m.hash| > 0 && Phys(p, |m.data|) + HEADER <= |m.data|
    requires Going(m, q, p, ph) && Enabled(m, q, ph, DecideHeader)
    ensures Going(m, q, p, ReadStep(m, q, ph, DecideHeader))
  {
    hide Phys;
    hide FromLE;
    hide Expired;
    hide MemInv;
    hide Field;
    hide SeqOf;
    hide KeyLenOf;
    hide StoredLenOf;
    hide Loaded;
    hide Collect;
    HeaderThere(m, q, p);
    CollectIs(m.data, Phys(p, |m.data|), ph.got, 0, HEADER);
  }

  lemma BodyGoesOn(m: Mem, q: Request, p: nat, ph: Phase, l: Load)
    requires Readable(m, q, p) && |m.data| > 0 && |m.hash| > 0 && Phys(p, |m.data|) + HEADER <= |m.data|
    requires Going(m, q, p, ph) && (l.CompareKey? || l.LoadSeqAgain? || l.LoadTail?) && Enabled(m, q, ph, l)
    requires AddrOf(m, ph, l).0 + AddrOf(m, ph, l).1 <= |m.data|
    ensures Going(m, q, p, ReadStep(m, q, ph, l))
  {
    hide Phys;
    hide FromLE;
    hide Expired;
    hide MemInv;
    hide Field;
    hide SeqOf;
    hide KeyLenOf;
    hide StoredLenOf;
    hide Loaded;
    hide Collect;
    hide Loading;
    HeaderThere(m, q, p);
    var a, r := Phys(p, |m.data|), m.book[p];
    if l.CompareKey? {
      CollectIs(m.data, a, ph.got, HEADER, HEADER + |q.key|);
    } else if l.LoadSeqAgain? {
      LoadedParts(ph.got, HEADER, HEADER + |q.key|, HEADER + |q.key| + |r.val|);
      CollectIs(m.data, a, ph.got, HEADER + |q.key|, HEADER + |q.key| + |r.val|);
    }
  }

  lemma LoadGoesOn(m: Mem, q: Request, p: nat, ph: Phase, l: Load)
    requires Findable(m, q, p) && |m.data| > 0 && p in m.book && Phys(p, |m.data|) + HEADER <= |m.data|
    requires Going(m, q, p, ph) && Enabled(m, q, ph, l) && !l.GiveUp?
    requires AddrOf(m, ph, l).0 + AddrOf(m, ph, l).1 <= |m.data|
    ensures Going(m, q, p, ReadStep(m, q, ph, l))
  {
    hide Readable;
    hide NoHashAmongFirst;
    hide Phys;
    hide Home;
    hide AfterHeader;
    match l {
      case LoadHash => ProbeGoesOn(m, q, p, ph);
      case DecideHeader => HeaderGoesOn(m, q, p, ph);
      case CompareKey => BodyGoesOn(m, q, p, ph, l);
      case LoadSeqAgain => BodyGoesOn(m, q, p, ph, l);
      case LoadTail => BodyGoesOn(m, q, p, ph, l);
      case LoadTailEarly => TailIsBefore(m, q, p);
      case _ =>
    }
  }

  lemma TailIsBefore(m: Mem, q: Request, p: nat)
    requires Readable(m, q, p)
    ensures m.tailPub <= p
  {
  }

  lemma {:induction false} NoWayToMiss(s: System, q: Request, p: nat, acts: seq<Action>)
    requires Findable(s.m, q, p) && |s.m.data| > 0 && p in s.m.book && Phys(p, |s.m.data|) + HEADER <= |s.m.data|
    requires Going(s.m, q, p, s.ph) && Interleaving(s, q, acts) && Quiet(acts)
    ensures After(s, q, acts).m == s.m && Going(s.m, q, p, After(s, q, acts).ph)
    decreases |acts|
  {
    hide Findable;
    hide Going;
    hide Phys;
    hide ReadStep;
    hide Enabled;
    hide AddrOf;
    hide Legal;
    if acts != [] {
      LoadGoesOn(s.m, q, p, s.ph, acts[0].l);
      NoWayToMiss(Act(s, q, acts[0]), q, p, acts[1..]);
    }
  }

  /** The loads of hashes up to the first match. */
  lemma {:induction false} Probes(s: System, q: Request, p: nat, i: nat, d: nat) returns (acts: seq<Action>)
    requires Findable(s.m, q, p) && |s.m.data| > 0 && s.ph == ProbeSlot(i, d)
    requires d < |s.m.hash| && i == Probe(q.hash, d, |s.m.hash|) && NoHashAmongFirst(s.m, q.hash, d)
    ensures Quiet(acts) && Interleaving(s, q, acts)
    ensures var t := After(s, q, acts); t == s.(ph := t.ph) && t.ph.Matched? && FirstMatch(s.m, q.hash, t.ph.slot)
    decreases |s.m.hash| - d
  {
    hide Findable;
    hide NoHashAmongFirst;
    hide Home;
    hide FirstMatch;
    hide Interleaving;
    hide After;
    FirstIsFound(s.m, q, p, i, d);
    One(s, q, Reader(LoadHash));
    if s.m.hash[i] == q.hash {
      acts := [Reader(LoadHash)];
    } else {
      var rest := Probes(Act(s, q, Reader(LoadHash)), q, p, Next(i, |s.m.hash|), d + 1);
      Join(s, q, [Reader(LoadHash)], rest);
      acts := [Reader(LoadHash)] + rest;
    }
  }

  lemma QuietTogether(a: seq<Action>, b: seq<Action>)
    requires Quiet(a) && Quiet(b)
    ensures Quiet(a + b)
  {
  }

  lemma OneLoadIsQuiet(l: Load)
    requires !l.GiveUp?
    ensures Quiet([Reader(l)])
  {
  }

  lemma RecordLoadsAreQuiet(r: Rec)
    ensures Quiet([Reader(LoadOff)] + RecordLoads(r))
  {
    hide HeaderLoads;
    hide BodyLoads;
    hide Quiet;
    var header, body := HeaderLoads(HEADER), BodyLoads(|r.key| + |r.val|);
    HeaderLoadsAreQuiet(HEADER);
    BodyLoadsAreQuiet(|r.key| + |r.val|);
    OneLoadIsQuiet(LoadOff);
    OneLoadIsQuiet(DecideHeader);
    OneLoadIsQuiet(LoadSeqAgain);
    OneLoadIsQuiet(LoadTail);
    QuietTogether(header, [Reader(DecideHeader)]);
    QuietTogether(body, [Reader(LoadSeqAgain)]);
    QuietTogether(body + [Reader(LoadSeqAgain)], [Reader(LoadTail)]);
    QuietTogether(header + [Reader(DecideHeader)], PayloadLoads(r));
    QuietTogether([Reader(LoadOff)], RecordLoads(r));
  }

  lemma {:induction false} HeaderLoadsAreQuiet(n: nat)
    ensures Quiet(HeaderLoads(n))
  {
    hide Quiet;
    if n == 0 {
      NoLoadIsQuiet();
    } else {
      HeaderLoadsAreQuiet(n - 1);
      OneLoadIsQuiet(LoadHeaderByte(n - 1));
      QuietTogether(HeaderLoads(n - 1), [Reader(LoadHeaderByte(n - 1))]);
    }
  }

  lemma {:induction false} BodyLoadsAreQuiet(n: nat)
    ensures Quiet(BodyLoads(n))
  {
    hide Quiet;
    if n == 0 {
      NoLoadIsQuiet();
    } else {
      BodyLoadsAreQuiet(n - 1);
      OneLoadIsQuiet(LoadBodyByte(HEADER + n - 1));
      QuietTogether(BodyLoads(n - 1), [Reader(LoadBodyByte(HEADER + n - 1))]);
    }
  }

  lemma NoLoadIsQuiet()
    ensures Quiet([])
  {
  }

  /** From the begin of a read to the hit. */
  lemma WholeRead(m: Mem, q: Request, p: nat) returns (acts: seq<Action>)
    requires Findable(m, q, p)
    ensures |m.data| > 0 && |m.hash| > 0 && p in m.book && Quiet(acts) && Interleaving(Begin(m, q), q, acts)
    ensures var r := m.book[p]; After(Begin(m, q), q, acts).ph == Hit(p, r.val, r.flags, r.expiresAt, r.rawLen)
  {
    hide Readable;
    hide NoHashAmongFirst;
    hide Interleaving;
    hide After;
    hide Home;
    hide FirstMatch;
    hide RecordLoads;
    FindableParts(m, q, p);
    ProbeBegins(m, q.hash);
    var s := Begin(m, q);
    var first := Probes(s, q, p, s.ph.slot, 0);
    var t := After(s, q, first);
    MatchedAlone(t, q, t.ph.slot, p);
    RecordLoadsAreQuiet(m.book[p]);
    Join(s, q, first, [Reader(LoadOff)] + RecordLoads(m.book[p]));
    acts := first + ([Reader(LoadOff)] + RecordLoads(m.book[p]));
  }

  lemma FindableParts(m: Mem, q: Request, p: nat)
    requires Findable(m, q, p)
    ensures |m.data| > 0 && |m.hash| == |m.off| > 0 && p in m.book && Phys(p, |m.data|) + HEADER <= |m.data|
    ensures forall x: nat | FirstMatch(m, q.hash, x) :: x < |m.off| && m.off[x] == p
  {
    hide Phys;
    hide MemInv;
    hide Expired;
    hide NoHashAmongFirst;
    HeaderThere(m, q, p);
  }

  // ----------------------------------------------------------------------- no other hits

  /** A read that no store disturbs follows the probe path to the first match. */
  ghost predicate OnPath(m: Mem, q: Request, ph: Phase) {
    && |m.hash| == |m.off| > 0
    && match ph
       case ProbeSlot(i, d) => d < |m.hash| && i == Probe(q.hash, d, |m.hash|) && NoHashAmongFirst(m, q.hash, d)
       case Matched(x) => FirstMatch(m, q.hash, x)
       case Header(pos, _) => AtFirst(m, q, pos)
       case Body(pos, _, _) => AtFirst(m, q, pos)
       case Sealed(pos, _, _) => AtFirst(m, q, pos)
       case Miss => true
       case Hit(pos, _, _, _, _) => AtFirst(m, q, pos)
  }

  ghost predicate AtFirst(m: Mem, q: Request, pos: nat) {
    exists x: nat :: FirstMatch(m, q.hash, x) && x < |m.off| && m.off[x] == pos
  }

  lemma PathGoesOn(m: Mem, q: Request, ph: Phase, l: Load)
    requires |m.data| > 0 && OnPath(m, q, ph) && Enabled(m, q, ph, l)
    requires AddrOf(m, ph, l).0 + AddrOf(m, ph, l).1 <= |m.data|
    ensures OnPath(m, q, ReadStep(m, q, ph, l))
  {
    hide NoHashAmongFirst;
    hide Phys;
    hide Home;
    hide Loaded;
    hide Collect;
    hide FromLE;
    hide Field;
    hide Expired;
    hide SeqOf;
    hide KeyLenOf;
    hide StoredLenOf;
    if l.LoadHash? && m.hash[ph.slot] != q.hash {
      NoHashAmongNext(m, q.hash, ph.probes, ph.slot);
    }
  }

  lemma {:induction false} QuietPath(s: System, q: Request, acts: seq<Action>)
    requires |s.m.data| > 0 && OnPath(s.m, q, s.ph) && Interleaving(s, q, acts) && Quiet(acts)
    ensures After(s, q, acts).m == s.m && OnPath(s.m, q, After(s, q, acts).ph)
    decreases |acts|
  {
    hide OnPath;
    hide ReadStep;
    hide Enabled;
    hide AddrOf;
    hide Legal;
    if acts != [] {
      PathGoesOn(s.m, q, s.ph, acts[0].l);
      QuietPath(Act(s, q, acts[0]), q, acts[1..]);
    }
  }

  // --------------------------------------------------------------------------- theorems

  /** What a read of q is to find: the key is bound, not hidden by another with its hash, small enough, and has
      not expired. */
  ghost predicate ToBeFound(a: Arena, q: Request)
    requires |a.m.hash| == |a.m.off| && KeysDiffer(a.m)
    reads a
  {
    && q.key in View(a.m) && !Shadowed(a.m, q.hash, q.key)
    && |View(a.m)[q.key].val| <= q.scratchCap && !Expired(View(a.m)[q.key].expiresAt, q.now)
  }

  lemma PositionOf(a: Arena, q: Request) returns (p: nat)
    requires a.Valid() && q.hash == HashOf(a.hashFn, q.key) && |a.m.hash| == |a.m.off| && KeysDiffer(a.m)
    requires ToBeFound(a, q)
    ensures p in a.m.book && a.m.book[p] == View(a.m)[q.key] && Findable(a.m, q, p)
  {
    hide Arena.Valid;
    hide ArenaInv;
    hide Findable;
    hide View;
    hide KeysDiffer;
    hide Shadowed;
    hide Expired;
    hide HashOf;
    a.PartsOfValid();
    p := BoundIsFindable(a.hashFn, a.m, a.lay, a.logTail, a.logHead, a.inserts, q);
  }

  /** A READ FINDS WHAT IS BOUND. While no store is made, some execution of the read, from its very first load on,
      returns what the arena binds to the key, */
  lemma QuietReadFinds(a: Arena, q: Request) returns (acts: seq<Action>)
    requires a.Valid() && q.hash == HashOf(a.hashFn, q.key) && |a.m.hash| == |a.m.off| && KeysDiffer(a.m)
    requires ToBeFound(a, q)
    ensures |a.m.data| > 0 && |a.m.hash| > 0 && Quiet(acts) && Interleaving(Begin(a.m, q), q, acts)
    ensures var r, ph := View(a.m)[q.key], After(Begin(a.m, q), q, acts).ph;
            ph.Hit? && ph.val == r.val && ph.flags == r.flags && ph.expiresAt == r.expiresAt && ph.rawLen == r.rawLen
  {
    hide Arena.Valid;
    hide Findable;
    hide View;
    hide KeysDiffer;
    hide HashOf;
    hide Interleaving;
    hide After;
    var p := PositionOf(a, q);
    acts := WholeRead(a.m, q, p);
  }

  /** and no execution misses: wherever it stands, it has not missed, and if it has hit, it is what is bound. */
  lemma QuietReadNeverMisses(a: Arena, q: Request, acts: seq<Action>)
    requires a.Valid() && q.hash == HashOf(a.hashFn, q.key) && |a.m.hash| == |a.m.off| && KeysDiffer(a.m)
    requires ToBeFound(a, q)
    requires |a.m.data| > 0 && |a.m.hash| > 0 && Quiet(acts) && Interleaving(Begin(a.m, q), q, acts)
    ensures var r, ph := View(a.m)[q.key], After(Begin(a.m, q), q, acts).ph;
            && !ph.Miss?
            && (ph.Hit? ==>
                  ph.val == r.val && ph.flags == r.flags && ph.expiresAt == r.expiresAt && ph.rawLen == r.rawLen)
  {
    hide Arena.Valid;
    hide Findable;
    hide View;
    hide KeysDiffer;
    hide HashOf;
    hide Interleaving;
    hide After;
    hide NoHashAmongFirst;
    hide Phys;
    hide Home;
    var p := PositionOf(a, q);
    FindableParts(a.m, q, p);
    ProbeBegins(a.m, q.hash);
    NoWayToMiss(Begin(a.m, q), q, p, acts);
  }

  /** THE LOCK-FREE READ IS STOREGET. While no store is made, a read can hit if and only if storeGet hits. */
  lemma QuietReadIff(a: Arena, q: Request)
    requires a.Valid() && q.hash == HashOf(a.hashFn, q.key) && |a.m.hash| == |a.m.off| && KeysDiffer(a.m)
    requires |a.m.data| > 0 && |a.m.hash| > 0
    ensures (exists acts ::
               Quiet(acts) && Interleaving(Begin(a.m, q), q, acts) && After(Begin(a.m, q), q, acts).ph.Hit?) <==>
            ToBeFound(a, q)
  {
    hide Arena.Valid;
    hide View;
    hide KeysDiffer;
    hide HashOf;
    hide Interleaving;
    hide After;
    hide ToBeFound;
    if acts :| Quiet(acts) && Interleaving(Begin(a.m, q), q, acts) && After(Begin(a.m, q), q, acts).ph.Hit? {
      QuietHit(a, q, acts);
    }
    if ToBeFound(a, q) {
      var acts := QuietReadFinds(a, q);
    }
  }

  lemma QuietHit(a: Arena, q: Request, acts: seq<Action>)
    requires a.Valid() && q.hash == HashOf(a.hashFn, q.key) && |a.m.hash| == |a.m.off| && KeysDiffer(a.m)
    requires |a.m.data| > 0 && |a.m.hash| > 0 && Quiet(acts) && Interleaving(Begin(a.m, q), q, acts)
    requires After(Begin(a.m, q), q, acts).ph.Hit?
    ensures ToBeFound(a, q)
  {
    hide *;
    a.PartsOfValid();
    RunOf(a);
    var s := Begin(a.m, q);
    BeginsOnPath(a.m, q);
    QuietPath(s, q, acts);
    FittingHit(s, q, acts);
    HitIsOneCompleteSet(a.boot, a.trace, q, acts);
    var t := After(s, q, acts);
    var x := MatchOfHit(a.m, q, t);
    FirstMatchDecides(a.hashFn, a.m, a.lay, a.logTail, a.logHead, a.inserts,
                      Dist(Home(q.hash, |a.m.hash|), x, |a.m.hash|), x, q.key);
    FoundIf(a, q);
  }

  lemma BeginsOnPath(m: Mem, q: Request)
    requires |m.hash| == |m.off| > 0
    ensures Begin(m, q).m == m && OnPath(m, q, Begin(m, q).ph) && Fitting(Begin(m, q), q)
  {
    ProbeBegins(m, q.hash);
  }

  lemma MatchOfHit(m: Mem, q: Request, t: System) returns (x: nat)
    requires OnPath(m, q, t.ph) && t.ph.Hit? && Fitting(t, q)
    ensures x < |m.hash| == |m.off| && m.off[x] == t.ph.pos && m.hash[x] == q.hash && |t.ph.val| <= q.scratchCap
    ensures var d := Dist(Home(q.hash, |m.hash|), x, |m.hash|);
            d < |m.hash| && x == Probe(q.hash, d, |m.hash|) && NoHashAmongFirst(m, q.hash, d)
  {
    hide NoHashAmongFirst;
    hide Home;
    x :| FirstMatch(m, q.hash, x) && x < |m.off| && m.off[x] == t.ph.pos;
    ProbeReaches(q.hash, x, |m.hash|);
  }

  lemma FoundIf(a: Arena, q: Request)
    requires |a.m.hash| == |a.m.off| && KeysDiffer(a.m)
    requires q.key in View(a.m) && !Shadowed(a.m, q.hash, q.key)
    requires |View(a.m)[q.key].val| <= q.scratchCap && !Expired(View(a.m)[q.key].expiresAt, q.now)
    ensures ToBeFound(a, q)
  {
  }
}
