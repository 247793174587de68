/** Reads that no store disturbs hit; and the one way to a stale hit, exactly. A clear sets the positions of the
    index to 0 while a reader that matched a slot before may not have loaded its position yet. If the tail has
    never moved, the bytes at position 0 are still those of the first record, current or not. */
module StaleReads {
  import opened Bytes
  import opened Wrapping
  import opened Records
  import opened Probing
  import opened SharedMemory
  import opened Expiry
  import opened LogLayout
  import opened ArenaState
  import opened HeadBlocks
  import opened ArenaSteps
  import opened Relief
  import opened Readers
  import opened ConcurrentReads
  import opened Arenas
  import opened Pressure

  // -------------------------------------------------------------------- composing executions

  lemma MemIsThere(m: Mem)
    requires MemInv(m)
    ensures |m.data| > 0 && |m.hash| == |m.off|
  {
  }

  lemma {:induction false} Join(s: System, q: Request, a: seq<Action>, b: seq<Action>)
    requires |s.m.data| > 0 && Interleaving(s, q, a) && Interleaving(After(s, q, a), q, b)
    ensures Interleaving(s, q, a + b) && After(s, q, a + b) == After(After(s, q, a), q, b)
    decreases |a|
  {
    hide Enabled;
    hide ReadStep;
    hide AddrOf;
    hide Legal;
    if a == [] {
      assert a + b == b;
    } else {
      assert (a + b)[1..] == a[1..] + b && (a + b)[0] == a[0];
      Join(Act(s, q, a[0]), q, a[1..], b);
    }
  }

  lemma One(s: System, q: Request, a: Action)
    requires |s.m.data| > 0 && Allowed(s, q, a)
    ensures Interleaving(s, q, [a]) && After(s, q, [a]) == Act(s, q, a)
  {
    hide Enabled;
    hide ReadStep;
    hide AddrOf;
    hide Legal;
    assert [a][1..] == [];
  }

  lemma Then(s: System, q: Request, a: seq<Action>, l: Load)
    requires |s.m.data| > 0 && Interleaving(s, q, a) && Allowed(After(s, q, a), q, Reader(l))
    ensures Interleaving(s, q, a + [Reader(l)])
    ensures After(s, q, a + [Reader(l)]) == Act(After(s, q, a), q, Reader(l))
  {
    hide Interleaving;
    hide After;
    hide Allowed;
    hide Act;
    One(After(s, q, a), q, Reader(l));
    Join(s, q, a, [Reader(l)]);
  }

  function Writers(t: seq<Event>): (acts: seq<Action>)
    ensures |acts| == |t|
  {
    if t == [] then [] else [Writer(t[0])] + Writers(t[1..])
  }

  /** Stores of a legal run that happen in the middle of a read. */
  lemma {:induction false} StoresOnly(boot: Mem, before: seq<Event>, s: System, q: Request, t: seq<Event>)
    requires |boot.data| > 0 && s.m == Run(boot, before) && LegalRun(boot, before + t)
    ensures Stores(Writers(t)) == t && Interleaving(s, q, Writers(t))
    ensures var f := After(s, q, Writers(t)); f.m == Run(boot, before + t) && f.ph == s.ph && f.base == s.base
    decreases |t|
  {
    hide Legal;
    hide LegalRun;
    hide Run;
    if t == [] {
      assert before + t == before;
    } else {
      assert t == [t[0]] + t[1..] && Writers(t)[1..] == Writers(t[1..]);
      NextIsLegal(boot, before, t[0], t[1..]);
      assert before + t == (before + [t[0]]) + t[1..];
      StoresOnly(boot, before + [t[0]], Act(s, q, Writer(t[0])), q, t[1..]);
    }
  }

  // ------------------------------------------------------------------- a read that is not disturbed

  function ByteAt(d: seq<byte>, a: nat, k: nat): byte
    requires a + k < |d|
  {
    d[a + k]
  }

  /** The bytes at offsets lo..hi of the block at address a. */
  ghost function BytesAt(d: seq<byte>, a: nat, lo: nat, hi: nat): map<nat, byte>
    requires a + hi <= |d|
  {
    map k: nat | lo <= k < hi :: ByteAt(d, a, k)
  }

  function HeaderLoads(n: nat): seq<Action> {
    if n == 0 then [] else HeaderLoads(n - 1) + [Reader(LoadHeaderByte(n - 1))]
  }

  function BodyLoads(n: nat): seq<Action> {
    if n == 0 then [] else BodyLoads(n - 1) + [Reader(LoadBodyByte(HEADER + n - 1))]
  }

  lemma {:induction false} HeaderIsLoaded(s: System, q: Request, n: nat)
    requires |s.m.data| > 0 && s.ph.Header? && s.ph.got == map[] && n <= HEADER
    requires Phys(s.ph.pos, |s.m.data|) + HEADER <= |s.m.data|
    ensures Interleaving(s, q, HeaderLoads(n))
    ensures After(s, q, HeaderLoads(n)) ==
            s.(ph := Header(s.ph.pos, BytesAt(s.m.data, Phys(s.ph.pos, |s.m.data|), 0, n)))
  {
    hide Interleaving;
    hide After;
    hide Phys;
    if n == 0 {
      Nothing(s, q);
      assert BytesAt(s.m.data, Phys(s.ph.pos, |s.m.data|), 0, 0) == map[];
    } else {
      HeaderIsLoaded(s, q, n - 1);
      Then(s, q, HeaderLoads(n - 1), LoadHeaderByte(n - 1));
      OneMoreByte(s.m.data, Phys(s.ph.pos, |s.m.data|), 0, n - 1);
    }
  }

  lemma Nothing(s: System, q: Request)
    requires |s.m.data| > 0
    ensures Interleaving(s, q, []) && After(s, q, []) == s
  {
  }

  lemma OneMoreByte(d: seq<byte>, a: nat, lo: nat, n: nat)
    requires a + n < |d| && lo <= n
    ensures BytesAt(d, a, lo, n)[n := d[a + n]] == BytesAt(d, a, lo, n + 1)
  {
  }

  lemma {:induction false} BodyIsLoaded(s: System, q: Request, n: nat)
    requires |s.m.data| > 0 && s.ph.Body? && s.ph.got == map[] && |s.ph.hd| == HEADER
    requires n <= KeyLenOf(s.ph.hd) + StoredLenOf(s.ph.hd)
    requires Phys(s.ph.pos, |s.m.data|) + HEADER + n <= |s.m.data|
    ensures Interleaving(s, q, BodyLoads(n))
    ensures After(s, q, BodyLoads(n)) ==
            s.(ph := Body(s.ph.pos, s.ph.hd, BytesAt(s.m.data, Phys(s.ph.pos, |s.m.data|), HEADER, HEADER + n)))
  {
    hide Interleaving;
    hide After;
    hide Phys;
    hide KeyLenOf;
    hide StoredLenOf;
    if n == 0 {
      Nothing(s, q);
      assert BytesAt(s.m.data, Phys(s.ph.pos, |s.m.data|), HEADER, HEADER) == map[];
    } else {
      BodyIsLoaded(s, q, n - 1);
      Then(s, q, BodyLoads(n - 1), LoadBodyByte(HEADER + n - 1));
      OneMoreByte(s.m.data, Phys(s.ph.pos, |s.m.data|), HEADER, HEADER + n - 1);
    }
  }

  lemma Collected(d: seq<byte>, a: nat, lo: nat, mid: nat, end: nat, hi: nat)
    requires lo <= mid <= end <= hi && a + hi <= |d|
    ensures Loaded(BytesAt(d, a, lo, hi), mid, end)
    ensures Collect(BytesAt(d, a, lo, hi), mid, end) == d[a + mid..a + end]
  {
  }

  /** What a reader asks for is the record at `pos`, and its bytes are there. */
  ghost predicate Readable(m: Mem, q: Request, pos: nat) {
    && MemInv(m) && pos in m.book && m.tailPub <= pos && SeqField(m.data, pos) % 2 == 0
    && var r := m.book[pos];
       r.key == q.key && r.hash == q.hash && |r.val| <= q.scratchCap && !Expired(r.expiresAt, q.now)
  }

  /** The loads that follow the header, */
  function PayloadLoads(r: Rec): seq<Action> {
    BodyLoads(|r.key| + |r.val|) + [Reader(LoadSeqAgain)] + [Reader(LoadTail)]
  }

  /** and all that follow the load of the position. */
  function RecordLoads(r: Rec): seq<Action> {
    HeaderLoads(HEADER) + [Reader(DecideHeader)] + PayloadLoads(r)
  }

  lemma FieldIs(d: seq<byte>, a: nat, at: nat, w: nat)
    requires a + HEADER <= |d| && LEAD <= at && at + w <= HEADER
    ensures Field(d[a..a + HEADER][LEAD..], at, w) == FromLE(d[a + at..a + at + w])
  {
    hide FromLE;
    var hd := d[a..a + HEADER];
    assert hd[LEAD..] == d[a + LEAD..a + HEADER];
    SubSlice(d, a + LEAD, hd[LEAD..], at - LEAD, at - LEAD + w);
  }

  /** The header hd at address a is that of r, and the payload follows it. */
  ghost predicate Spelled(d: seq<byte>, a: nat, hd: seq<byte>, r: Rec) {
    && a + HEADER + |r.key| + |r.val| <= |d| && hd == d[a..a + HEADER]
    && SeqOf(hd) % 2 == 0 && SeqOf(hd) == FromLE(d[a..a + 4])
    && KeyLenOf(hd) == |r.key| && StoredLenOf(hd) == |r.val| && Field(hd[LEAD..], HASH_AT, 8) == r.hash
    && Field(hd[LEAD..], EXPIRES_AT, 4) == r.expiresAt && Field(hd[LEAD..], RAW_AT, 4) == r.rawLen
    && hd[FLAGS_AT] == r.flags
    && d[a + HEADER..a + HEADER + |r.key|] == r.key
    && d[a + HEADER + |r.key|..a + HEADER + |r.key| + |r.val|] == r.val
  }

  lemma HeaderThere(m: Mem, q: Request, pos: nat)
    requires Readable(m, q, pos)
    ensures |m.data| > 0 && Phys(pos, |m.data|) + HEADER <= |m.data|
    ensures var a := Phys(pos, |m.data|); Spelled(m.data, a, m.data[a..a + HEADER], m.book[pos])
  {
    hide Phys;
    hide FromLE;
    hide Expired;
    hide MemInv;
    hide Field;
    RecordDecodes(m, pos);
    var d, a := m.data, Phys(pos, |m.data|);
    LeadFields(d, pos, a);
    FieldIs(d, a, KEYLEN_AT, 2);
    FieldIs(d, a, STORED_AT, 4);
    FieldIs(d, a, HASH_AT, 8);
    FieldIs(d, a, EXPIRES_AT, 4);
    FieldIs(d, a, RAW_AT, 4);
    assert d[a..a + HEADER][SEQ_AT..SEQ_AT + 4] == d[a..a + 4];
  }

  /** From the load of the position on to the payload. */
  lemma HeaderAlone(s: System, q: Request, pos: nat)
    requires s.ph == Header(pos, map[]) && Readable(s.m, q, pos)
    ensures |s.m.data| > 0 && Phys(pos, |s.m.data|) + HEADER <= |s.m.data| && pos in s.m.book
    ensures var acts, a := HeaderLoads(HEADER) + [Reader(DecideHeader)], Phys(pos, |s.m.data|);
            Interleaving(s, q, acts) && After(s, q, acts) == s.(ph := Body(pos, s.m.data[a..a + HEADER], map[]))
  {
    hide Interleaving;
    hide After;
    hide Phys;
    hide FromLE;
    hide Expired;
    hide MemInv;
    hide Field;
    hide HeaderLoads;
    hide Collect;
    hide Loaded;
    hide BytesAt;
    hide KeyLenOf;
    hide StoredLenOf;
    hide SeqOf;
    HeaderThere(s.m, q, pos);
    HeaderIsLoaded(s, q, HEADER);
    Collected(s.m.data, Phys(pos, |s.m.data|), 0, 0, HEADER, HEADER);
    Then(s, q, HeaderLoads(HEADER), DecideHeader);
  }

  /** From there to the hit. */
  lemma BodyAlone(s: System, q: Request, pos: nat)
    requires |s.m.data| > 0 && Phys(pos, |s.m.data|) + HEADER <= |s.m.data| && pos in s.m.book
    requires var a := Phys(pos, |s.m.data|); s.ph == Body(pos, s.m.data[a..a + HEADER], map[])
    requires Readable(s.m, q, pos)
    ensures Interleaving(s, q, PayloadLoads(s.m.book[pos]))
    ensures var r := s.m.book[pos];
            After(s, q, PayloadLoads(r)) == s.(ph := Hit(pos, r.val, r.flags, r.expiresAt, r.rawLen))
  {
    hide Interleaving;
    hide After;
    hide Phys;
    hide FromLE;
    hide Expired;
    hide MemInv;
    hide Field;
    hide BodyLoads;
    hide Collect;
    hide Loaded;
    hide BytesAt;
    hide KeyLenOf;
    hide StoredLenOf;
    hide SeqOf;
    HeaderThere(s.m, q, pos);
    var d, a, r := s.m.data, Phys(pos, |s.m.data|), s.m.book[pos];
    var n := |r.key| + |r.val|;
    BodyIsLoaded(s, q, n);
    Collected(d, a, HEADER, HEADER, HEADER + |q.key|, HEADER + n);
    Collected(d, a, HEADER, HEADER + |q.key|, HEADER + n, HEADER + n);
    Collected(d, a, HEADER, HEADER, HEADER + n, HEADER + n);
    Then(s, q, BodyLoads(n), LoadSeqAgain);
    Then(s, q, BodyLoads(n) + [Reader(LoadSeqAgain)], LoadTail);
  }

  /** A READ ALONE HITS. From the load of the position on, with no store in between. */
  lemma ReadAlone(s: System, q: Request, pos: nat)
    requires s.ph == Header(pos, map[]) && Readable(s.m, q, pos)
    ensures |s.m.data| > 0 && Interleaving(s, q, RecordLoads(s.m.book[pos]))
    ensures var r := s.m.book[pos];
            After(s, q, RecordLoads(r)) == s.(ph := Hit(pos, r.val, r.flags, r.expiresAt, r.rawLen))
  {
    hide *;
    HeaderAlone(s, q, pos);
    var a := HeaderLoads(HEADER) + [Reader(DecideHeader)];
    BodyAlone(After(s, q, a), q, pos);
    Join(s, q, a, PayloadLoads(s.m.book[pos]));
    RecordLoadsAre(s.m.book[pos]);
  }

  lemma RecordLoadsAre(r: Rec)
    ensures RecordLoads(r) == HeaderLoads(HEADER) + [Reader(DecideHeader)] + PayloadLoads(r)
  {
    hide HeaderLoads;
    hide BodyLoads;
  }

  /** The rest of a read that has matched slot x, when the slot holds `pos` by now. */
  lemma MatchedAlone(s: System, q: Request, x: nat, pos: nat)
    requires s.ph == Matched(x) && x < |s.m.off| && s.m.off[x] == pos && Readable(s.m, q, pos)
    ensures pos in s.m.book && |s.m.data| > 0
    ensures var r := s.m.book[pos]; var acts := [Reader(LoadOff)] + RecordLoads(r);
            Interleaving(s, q, acts) && After(s, q, acts) == s.(ph := Hit(pos, r.val, r.flags, r.expiresAt, r.rawLen))
  {
    hide Interleaving;
    hide After;
    hide Phys;
    hide FromLE;
    hide Expired;
    hide RecordLoads;
    hide MemInv;
    hide SeqField;
    MemIsThere(s.m);
    One(s, q, Reader(LoadOff));
    ReadAlone(Act(s, q, Reader(LoadOff)), q, pos);
    Join(s, q, [Reader(LoadOff)], RecordLoads(s.m.book[pos]));
  }

  // ------------------------------------------------------------------------------- stale hits

  /** The record a read has hit was retired in m0. */
  ghost predicate StaleHit(m0: Mem, f: System) {
    f.ph.Hit? && f.ph.pos in f.m.book && f.m.book[f.ph.pos].id in m0.retired
  }

  /** A clear that comes between the load of the hash and the load of the position. */
  function Wiping(x: nat): seq<Event> {
    [HashStore(x, EMPTY), ZeroOff(x)]
  }

  lemma WipingIsLegal(boot: Mem, before: seq<Event>, x: nat)
    requires Boot(boot) && LegalRun(boot, before)
    requires var m := Run(boot, before); x < |m.hash| && x < |m.off| && 0 in m.book
    ensures LegalRun(boot, before + Wiping(x))
    ensures var m := Run(boot, before);
            Run(boot, before + Wiping(x)) == m.(hash := m.hash[x := EMPTY], off := m.off[x := 0])
  {
    var t := before + [HashStore(x, EMPTY)];
    RunExtends(boot, before, HashStore(x, EMPTY));
    RunExtends(boot, t, ZeroOff(x));
    assert t + [ZeroOff(x)] == before + Wiping(x);
  }

  /** THE EXACT CONDITION. For a key whose home slot holds its hash, some execution hits a record that was
      retired when the read began, if and only if the tail has never moved, the first record of the log is
      retired, and that record is one the read would return. */
  lemma StaleHitIff(boot: Mem, before: seq<Event>, q: Request)
    requires Boot(boot) && LegalRun(boot, before)
    requires var m := Run(boot, before);
             && |m.hash| > 0 && m.hash[Home(q.hash, |m.hash|)] == q.hash != EMPTY
             && |m.data| > 0 && SeqField(m.data, 0) % 2 == 0
             && forall p | p in m.book && m.book[p].key == q.key :: m.book[p].hash == q.hash
    ensures var m := Run(boot, before);
            (exists acts :: Interleaving(Begin(m, q), q, acts) && StaleHit(m, After(Begin(m, q), q, acts))) <==>
            (m.tailPub == 0 && 0 in m.book && m.book[0].id in m.retired && Readable(m, q, 0))
  {
    hide Interleaving;
    hide After;
    hide Readable;
    hide StaleHit;
    var m := Run(boot, before);
    if acts :| Interleaving(Begin(m, q), q, acts) && StaleHit(m, After(Begin(m, q), q, acts)) {
      StaleHitIsFirst(boot, before, q, acts);
    }
    if m.tailPub == 0 && 0 in m.book && m.book[0].id in m.retired && Readable(m, q, 0) {
      var acts := StaleExecution(boot, before, q);
    }
  }

  lemma StaleHitIsFirst(boot: Mem, before: seq<Event>, q: Request, acts: seq<Action>)
    requires Boot(boot) && LegalRun(boot, before)
    requires var m := Run(boot, before);
             && |m.hash| > 0 && |m.data| > 0 && SeqField(m.data, 0) % 2 == 0
             && forall p | p in m.book && m.book[p].key == q.key :: m.book[p].hash == q.hash
    requires Interleaving(Begin(Run(boot, before), q), q, acts)
    requires StaleHit(Run(boot, before), After(Begin(Run(boot, before), q), q, acts))
    ensures var m := Run(boot, before);
            m.tailPub == 0 && 0 in m.book && m.book[0].id in m.retired && Readable(m, q, 0)
  {
    hide Interleaving;
    hide After;
    hide SeqField;
    hide Expired;
    var m := Run(boot, before);
    HitIsNotRetired(boot, before, q, acts);
    HitIsOneCompleteSet(boot, before, q, acts);
    RunKeepsMemInv(boot, before);
    BookKeeps(Begin(m, q), q, acts);
    FittingHit(Begin(m, q), q, acts);
  }

  /** A hit fits the buffer of the reader. */
  lemma {:induction false} FittingHit(s: System, q: Request, acts: seq<Action>)
    requires |s.m.data| > 0 && Interleaving(s, q, acts) && Fitting(s, q)
    ensures Fitting(After(s, q, acts), q)
    decreases |acts|
  {
    hide FromLE;
    hide Expired;
    hide Field;
    hide Legal;
    if acts != [] {
      FittingHit(Act(s, q, acts[0]), q, acts[1..]);
    }
  }

  ghost predicate Fitting(s: System, q: Request) {
    match s.ph
    case Body(_, hd, _) => |hd| == HEADER && StoredLenOf(hd) <= q.scratchCap
    case Sealed(_, hd, val) => |val| <= q.scratchCap
    case Hit(_, val, _, _, _) => |val| <= q.scratchCap
    case _ => true
  }

  /** The execution: the hash is loaded, the clear wipes the slot, and the read goes on at position 0. */
  lemma StaleExecution(boot: Mem, before: seq<Event>, q: Request) returns (acts: seq<Action>)
    requires Boot(boot) && LegalRun(boot, before)
    requires var m := Run(boot, before);
             && |m.hash| > 0 && m.hash[Home(q.hash, |m.hash|)] == q.hash != EMPTY
             && 0 in m.book && m.book[0].id in m.retired && Readable(m, q, 0)
    ensures var m := Run(boot, before);
            && |m.data| > 0 && |m.hash| > 0 && Interleaving(Begin(m, q), q, acts)
            && StaleHit(m, After(Begin(m, q), q, acts))
  {
    var m := Run(boot, before);
    var x := Home(q.hash, |m.hash|);
    RunKeepsMemInv(boot, before);
    MemIsThere(m);
    WipingIsLegal(boot, before, x);
    acts := [Reader(LoadHash)] + Writers(Wiping(x)) + ([Reader(LoadOff)] + RecordLoads(m.book[0]));
    HitInWipe(boot, before, Wiping(x), q, x);
  }

  /** The same with any stores of a clear that leave the slot wiped. */
  lemma HitInWipe(boot: Mem, before: seq<Event>, wipe: seq<Event>, q: Request, x: nat)
    requires Boot(boot) && LegalRun(boot, before) && LegalRun(boot, before + wipe)
    requires var m, w := Run(boot, before), Run(boot, before + wipe);
             && x < |m.hash| == |m.off| && x == Home(q.hash, |m.hash|) && m.hash[x] == q.hash != EMPTY
             && w == m.(hash := w.hash, off := w.off) && w.off[x] == 0 && Readable(m, q, 0)
    ensures var m, w := Run(boot, before), Run(boot, before + wipe);
            && |m.data| > 0 && 0 in m.book
            && var r := m.book[0];
               var acts := [Reader(LoadHash)] + Writers(wipe) + ([Reader(LoadOff)] + RecordLoads(r));
               && Interleaving(Begin(m, q), q, acts)
               && After(Begin(m, q), q, acts).m == w
               && After(Begin(m, q), q, acts).ph == Hit(0, r.val, r.flags, r.expiresAt, r.rawLen)
  {
    hide Interleaving;
    hide After;
    hide Home;
    hide RecordLoads;
    hide Expired;
    hide SeqField;
    hide Run;
    hide LegalRun;
    RunKeepsMemInv(boot, before + wipe);
    var m, w, r := Run(boot, before), Run(boot, before + wipe), Run(boot, before).book[0];
    MemIsThere(m);
    hide MemInv;
    var s0 := Begin(m, q);
    One(s0, q, Reader(LoadHash));
    var s1 := Act(s0, q, Reader(LoadHash));
    StoresOnly(boot, before, s1, q, wipe);
    Join(s0, q, [Reader(LoadHash)], Writers(wipe));
    var a := [Reader(LoadHash)] + Writers(wipe);
    MatchedAlone(After(s0, q, a), q, x, 0);
    Join(s0, q, a, [Reader(LoadOff)] + RecordLoads(r));
  }

  // ---------------------------------------------------------------------------- a concrete run

  const KEY: seq<byte> := [7]
  const OLD: seq<byte> := [1]
  const NEW: seq<byte> := [2]

  lemma {:induction false} BookOfRun(m: Mem, t: seq<Event>, n: nat)
    requires |m.data| > 0 && n <= |t|
    ensures LegalRun(m, t) ==>
              forall p | p in Run(m, t[..n]).book ::
                p in Run(m, t).book && Run(m, t).book[p] == Run(m, t[..n]).book[p]
    decreases |t|
  {
    if n == |t| {
      assert t[..n] == t;
    } else {
      assert t[..|t| - 1][..n] == t[..n];
      BookOfRun(m, t[..|t| - 1], n);
    }
  }

  lemma FirstRecordThere(f: Hash, m: Mem, lay: Layout, tail: nat, head: nat, inserts: nat)
    requires ArenaInv(f, m, lay, tail, head, inserts) && tail == 0 && 0 in m.book
    ensures MemInv(m) && m.tailPub == 0 && SeqField(m.data, 0) % 2 == 0
    ensures forall p | p in m.book :: m.book[p].hash == HashOf(f, m.book[p].key)
  {
    hide SeqField;
    hide SlotField;
    hide LogInv;
    hide MemInv;
    hide HashOf;
    assert 0 in lay && SegBytes(m, lay, 0);
  }

  /** The first set of an arena puts its record at position 0. */
  lemma FirstSetAtZero(m0: Mem, m: Mem, key: seq<byte>)
    requires |m0.hash| == |m0.off| && |m.hash| == |m.off| && KeysDiffer(m0) && KeysDiffer(m)
    requires View(m0) == map[] && Rebound(m0, m, 0, key) && key in View(m)
    requires forall x | 0 <= x < |m0.hash| && m0.hash[x] != EMPTY :: m0.off[x] in m0.book
    ensures 0 in m.book && View(m)[key] == m.book[0]
  {
    hide View;
    hide KeysDiffer;
    IndexedKeys(m0);
    var x: nat :| SlotFor(m, x, key);
    assert m.off[x] in Indexed(m);
  }

  /** A record of the key that the index does not bind is retired between two operations. */
  lemma UnboundIsRetired(m: Mem, p: nat)
    requires |m.hash| == |m.off| && KeysDiffer(m) && Settled(m) && p in m.book
    requires m.book[p].key in View(m) && View(m)[m.book[p].key] != m.book[p]
    ensures m.book[p].id in m.retired
  {
    hide View;
    hide KeysDiffer;
    if m.book[p].id !in m.retired {
      var i :| Binds(m, i, m.book[p]);
      BoundIsInView(m, i, m.book[p]);
    }
  }

  lemma RunNumbers()
    ensures 16 <= SLOTS <= SLOT_PAD && 4096 <= REGION && REGION % 8 == 0 && 0 < CEILING && 2 < TWO_32 && 0 < TWO_32
    ensures |KEY| == |OLD| == |NEW| == 1 && OLD != NEW && 2 <= 1000 && 49 <= REGION / 2 && 1 < CEILING
  {
  }

  lemma OneKey(v: map<seq<byte>, Rec>, r1: Rec, r2: Rec)
    requires v == map[]
    ensures v[KEY := r1].Keys == {KEY} && |v[KEY := r1]| == 1 && v[KEY := r1][KEY := r2].Keys == {KEY}
    ensures v[KEY := r1][KEY] == r1 && v[KEY := r1][KEY := r2][KEY] == r2
  {
    assert |v[KEY := r1].Keys| == |v[KEY := r1]|;
  }

  lemma CarriesParts(r: Rec, key: seq<byte>, val: seq<byte>, rawLen: nat, flags: byte, expiresAt: nat, id: nat)
    requires Carries(r, key, val, rawLen, flags, expiresAt, id)
    ensures r.key == key && r.val == val && r.expiresAt == expiresAt && r.flags == flags && r.rawLen == rawLen
  {
  }

  lemma RunOf(a: Arena)
    requires a.Valid()
    ensures Boot(a.boot) && |a.boot.data| > 0 && LegalRun(a.boot, a.trace) && Run(a.boot, a.trace) == a.m
  {
    hide ArenaInv;
    hide KeysDiffer;
    hide Settled;
    hide MemInv;
    hide Run;
    hide LegalRun;
  }

  /** What was in the book stays there. */
  lemma BookOnlyGrew(a: Arena, t: seq<Event>, m: Mem)
    requires a.Valid() && t <= a.trace && |a.boot.data| > 0 && Run(a.boot, t) == m
    ensures forall p | p in m.book :: p in a.m.book && a.m.book[p] == m.book[p]
  {
    hide *;
    RunOf(a);
    BookOfRun(a.boot, a.trace, |t|);
    assert a.trace[..|t|] == t;
  }

  /** A fresh arena in which KEY was set twice: the first record is retired, and the tail has not moved. */
  method SetTwice(f: seq<byte> -> nat) returns (a: Arena)
    ensures fresh(a) && fresh(a.hash) && fresh(a.off) && fresh(a.hints) && fresh(a.data) && fresh(a.ring)
    ensures a.Valid() && a.hashFn == f && |a.m.hash| == |a.m.off| && KeysDiffer(a.m)
    ensures View(a.m).Keys == {KEY} && View(a.m)[KEY].val == NEW && a.logTail == 0
    ensures 0 in a.m.book && a.m.book[0].id in a.m.retired
    ensures a.m.book[0].key == KEY && a.m.book[0].val == OLD && a.m.book[0].expiresAt == 0
  {
    hide *;
    RunNumbers();
    a := new Arena(f, SLOTS, REGION, 16);
    a.PartsOfValid();
    SlotsAllBound(a.hashFn, a.m, a.lay, a.logTail, a.logHead, a.inserts);
    ghost var m0 := a.m;
    ghost var r1 := SetEarly(a, KEY, OLD, 1, 0, 0, 0);
    CarriesParts(r1, KEY, OLD, 1, 0, 0, a.inserts);
    FirstSetAtZero(m0, a.m, KEY);
    ghost var m1, t1 := a.m, a.trace;
    RunOf(a);
    OneKey(View(m0), r1, r1);
    LiveIsSize(a);
    ghost var r2 := SetEarly(a, KEY, NEW, 1, 0, 0, 0);
    CarriesParts(r2, KEY, NEW, 1, 0, 0, a.inserts);
    OneKey(View(m0), r1, r2);
    BookOnlyGrew(a, t1, m1);
    a.PartsOfValid();
    UnboundIsRetired(a.m, 0);
  }

  /** A STALE HIT. In that arena a reader loads the hash of the slot of KEY, storeClear wipes the index, and the
      reader goes on: it returns the value that the second set had replaced before the read began. */
  method StaleHitExample(f: seq<byte> -> nat)
    returns (a: Arena, ghost m0: Mem, ghost before: seq<Event>, ghost q: Request, ghost acts: seq<Action>)
    ensures a.Valid() && |a.boot.data| > 0 && before + Stores(acts) == a.trace && Run(a.boot, before) == m0
    ensures Settled(m0) && |m0.hash| == |m0.off| > 0 && KeysDiffer(m0)
    ensures q.key in View(m0) && View(m0)[q.key].val == NEW != OLD
    ensures |m0.data| > 0 && Interleaving(Begin(m0, q), q, acts)
    ensures After(Begin(m0, q), q, acts).ph.Hit? && After(Begin(m0, q), q, acts).ph.val == OLD
  {
    hide *;
    RunNumbers();
    a := SetTwice(f);
    a.PartsOfValid();
    RunOf(a);
    before, m0 := a.trace, a.m;
    q := Request(KEY, HashOf(f, KEY), 0, 1);
    OnlyKeyAtHome(f, m0, a.lay, a.logTail, a.logHead, a.inserts, KEY);
    FirstRecordThere(f, m0, a.lay, a.logTail, a.logHead, a.inserts);
    FirstIsReadable(m0, q);
    ghost var wiped := a.StoreClear(0);
    RunOf(a);
    ghost var wipe, rest := a.trace[|before|..wiped], a.trace[wiped..];
    WipeIsRun(a, before, wiped, m0);
    ghost var x := Home(q.hash, |m0.hash|);
    MemIsThere(m0);
    HitInWipe(a.boot, before, wipe, q, x);
    ghost var loads := [Reader(LoadHash)] + Writers(wipe) + ([Reader(LoadOff)] + RecordLoads(m0.book[0]));
    StoresOnly(a.boot, before + wipe, After(Begin(m0, q), q, loads), q, rest);
    Join(Begin(m0, q), q, loads, Writers(rest));
    acts := loads + Writers(rest);
    StoresOfLoads(m0.book[0], wipe, rest);
  }

  lemma FirstIsReadable(m: Mem, q: Request)
    requires MemInv(m) && m.tailPub == 0 && SeqField(m.data, 0) % 2 == 0 && 0 in m.book
    requires m.book[0].key == q.key && m.book[0].hash == q.hash && m.book[0].val == OLD && m.book[0].expiresAt == 0
    requires q.scratchCap == 1
    ensures Readable(m, q, 0)
  {
    hide MemInv;
    hide SeqField;
  }

  lemma WipeIsRun(a: Arena, before: seq<Event>, wiped: nat, m0: Mem)
    requires a.Valid() && before <= a.trace && |before| <= wiped <= |a.trace| && a.WipedAt(wiped, m0)
    ensures |a.boot.data| > 0 && |m0.hash| == |m0.off|
    ensures var wipe := a.trace[|before|..wiped];
            && before + wipe + a.trace[wiped..] == a.trace
            && LegalRun(a.boot, before) && LegalRun(a.boot, before + wipe)
            && var w := Run(a.boot, before + wipe);
               && w == m0.(hash := w.hash, off := w.off) && |w.hash| == |w.off| == |m0.hash|
               && forall x | 0 <= x < |m0.hash| :: w.off[x] == 0
  {
    hide Arena.Valid;
    hide Run;
    hide LegalRun;
    RunOf(a);
    assert before + a.trace[|before|..wiped] == a.trace[..wiped];
    LegalPrefix(a.boot, a.trace, wiped);
    LegalPrefix(a.boot, a.trace, |before|);
    assert a.trace[..|before|] == before;
  }

  lemma {:induction false} StoresJoin(a: seq<Action>, b: seq<Action>)
    ensures Stores(a + b) == Stores(a) + Stores(b)
  {
    if a == [] {
      assert a + b == b;
    } else {
      assert (a + b)[1..] == a[1..] + b && (a + b)[0] == a[0];
      StoresJoin(a[1..], b);
      var first := if a[0].Writer? then [a[0].e] else [];
      assert Stores(a) == first + Stores(a[1..]);
      assert Stores(a + b) == first + Stores(a[1..] + b);
    }
  }

  ghost predicate OnlyLoads(acts: seq<Action>) {
    forall k | 0 <= k < |acts| :: acts[k].Reader?
  }

  lemma {:induction false} NoStores(acts: seq<Action>)
    requires OnlyLoads(acts)
    ensures Stores(acts) == []
  {
    if acts != [] {
      NoStores(acts[1..]);
    }
  }

  lemma {:induction false} LoadsOnly(n: nat)
    ensures OnlyLoads(HeaderLoads(n)) && OnlyLoads(BodyLoads(n))
  {
    if n > 0 {
      LoadsOnly(n - 1);
    }
  }

  lemma {:induction false} StoresOfWriters(t: seq<Event>)
    ensures Stores(Writers(t)) == t
  {
    if t != [] {
      assert Writers(t)[1..] == Writers(t[1..]);
      StoresOfWriters(t[1..]);
    }
  }

  lemma StoresOfLoads(r: Rec, wipe: seq<Event>, rest: seq<Event>)
    ensures Stores([Reader(LoadHash)] + Writers(wipe) + ([Reader(LoadOff)] + RecordLoads(r)) + Writers(rest)) ==
            wipe + rest
  {
    hide HeaderLoads;
    hide BodyLoads;
    hide Stores;
    hide Writers;
    LoadsOnly(HEADER);
    LoadsOnly(|r.key| + |r.val|);
    var a, b := [Reader(LoadHash)], [Reader(LoadOff)] + RecordLoads(r);
    NoStores(a);
    NoStores(b);
    StoresOfWriters(wipe);
    StoresOfWriters(rest);
    StoresJoin(a, Writers(wipe));
    StoresJoin(a + Writers(wipe), b);
    StoresJoin(a + Writers(wipe) + b, Writers(rest));
  }
}
