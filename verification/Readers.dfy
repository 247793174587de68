/** The lock-free read path as a machine of single loads, interleaved with the stores of the
    writer. The loads of a header, and those of a key and value, may happen in any order and a
    byte at a time, so every torn read is covered. A reader may also give up at any moment, which
    covers the bounded retries. */
module Readers {
  import opened Bytes
  import opened Wrapping
  import opened Records
  import opened Probing
  import opened SharedMemory
  import opened Expiry

  /** The arguments of one read. */
  datatype Request = Request(key: seq<byte>, hash: nat, now: nat, scratchCap: nat)

  datatype Phase =
    | ProbeSlot(slot: nat, probes: nat)
    | Matched(slot: nat)
    | Header(pos: nat, got: map<nat, byte>)
    | Body(pos: nat, hd: seq<byte>, got: map<nat, byte>)
    | Sealed(pos: nat, hd: seq<byte>, val: seq<byte>)
    | Miss
    | Hit(pos: nat, val: seq<byte>, flags: byte, expiresAt: nat, rawLen: nat)

  datatype Load =
    | LoadHash
    | LoadOff
    | LoadTailEarly
    | LoadHeaderByte(k: nat)
    | DecideHeader
    | LoadBodyByte(k: nat)
    | CompareKey
    | LoadSeqAgain
    | LoadTail
    | GiveUp

  function SeqOf(hd: seq<byte>): nat
    requires |hd| == HEADER
  {
    FromLE(hd[SEQ_AT..SEQ_AT + 4])
  }

  function KeyLenOf(hd: seq<byte>): nat
    requires |hd| == HEADER
  {
    Field(hd[LEAD..], KEYLEN_AT, 2)
  }

  function StoredLenOf(hd: seq<byte>): nat
    requires |hd| == HEADER
  {
    Field(hd[LEAD..], STORED_AT, 4)
  }

  /** The bytes loaded for offsets lo..hi. */
  function Collect(got: map<nat, byte>, lo: nat, hi: nat): (s: seq<byte>)
    requires lo <= hi && forall k :: lo <= k < hi ==> k in got
    ensures |s| == hi - lo
  {
    seq(hi - lo, k requires 0 <= k < hi - lo => got[lo + k])
  }

  predicate Loaded(got: map<nat, byte>, lo: nat, hi: nat) {
    forall k :: lo <= k < hi ==> k in got
  }

  /** What the reader does once the header bytes are in: retry, miss, or go on to the payload. */
  function AfterHeader(m: Mem, q: Request, pos: nat, hd: seq<byte>): Phase
    requires |m.data| > 0 && |hd| == HEADER
  {
    if SeqOf(hd) % 2 == 1 then Header(pos, map[])
    else if HEADER + KeyLenOf(hd) + StoredLenOf(hd) > |m.data| - Phys(pos, |m.data|) then Header(pos, map[])
    else if StoredLenOf(hd) > q.scratchCap || KeyLenOf(hd) != |q.key| then Miss
    else Body(pos, hd, map[])
  }

  /** Is this load the next thing the reader may do? */
  predicate Enabled(m: Mem, q: Request, ph: Phase, l: Load)
    requires |m.data| > 0
  {
    match l
    case LoadHash => ph.ProbeSlot? && ph.slot < |m.hash|
    case LoadOff => ph.Matched? && ph.slot < |m.off|
    case LoadTailEarly => ph.Header?
    case LoadHeaderByte(k) => ph.Header? && k < HEADER
    case DecideHeader => ph.Header? && Loaded(ph.got, 0, HEADER)
    case LoadBodyByte(k) =>
      ph.Body? && |ph.hd| == HEADER && HEADER <= k < HEADER + KeyLenOf(ph.hd) + StoredLenOf(ph.hd)
    case CompareKey => ph.Body? && Loaded(ph.got, HEADER, HEADER + |q.key|)
    case LoadSeqAgain =>
      ph.Body? && |ph.hd| == HEADER && KeyLenOf(ph.hd) == |q.key| &&
      Loaded(ph.got, HEADER, HEADER + |q.key| + StoredLenOf(ph.hd)) &&
      Collect(ph.got, HEADER, HEADER + |q.key|) == q.key
    case LoadTail => ph.Sealed? && |ph.hd| == HEADER
    case GiveUp => ph.Header?
  }

  /** The address a load of data bytes touches: [AddrOf, AddrOf + width). */
  function AddrOf(m: Mem, ph: Phase, l: Load): (int, nat)
    requires |m.data| > 0
  {
    match l
    case LoadHeaderByte(k) => if ph.Header? then (Phys(ph.pos, |m.data|) + k, 1) else (0, 0)
    case LoadBodyByte(k) => if ph.Body? then (Phys(ph.pos, |m.data|) + k, 1) else (0, 0)
    case LoadSeqAgain => if ph.Body? then (Phys(ph.pos, |m.data|), 4) else (0, 0)
    case _ => (0, 0)
  }

  function ReadStep(m: Mem, q: Request, ph: Phase, l: Load): Phase
    requires |m.data| > 0 && Enabled(m, q, ph, l)
    requires AddrOf(m, ph, l).0 + AddrOf(m, ph, l).1 <= |m.data|
  {
    match l
    case LoadHash =>
      if m.hash[ph.slot] == EMPTY then Miss
      else if m.hash[ph.slot] == q.hash then Matched(ph.slot)
      else if ph.probes + 1 == |m.hash| then Miss
      else ProbeSlot(Next(ph.slot, |m.hash|), ph.probes + 1)
    case LoadOff => Header(m.off[ph.slot], map[])
    case LoadTailEarly => if m.tailPub > ph.pos then Miss else ph
    case LoadHeaderByte(k) => Header(ph.pos, ph.got[k := m.data[Phys(ph.pos, |m.data|) + k]])
    case DecideHeader => AfterHeader(m, q, ph.pos, Collect(ph.got, 0, HEADER))
    case LoadBodyByte(k) => Body(ph.pos, ph.hd, ph.got[k := m.data[Phys(ph.pos, |m.data|) + k]])
    case CompareKey => if Collect(ph.got, HEADER, HEADER + |q.key|) != q.key then Miss else ph
    case LoadSeqAgain =>
      var a := Phys(ph.pos, |m.data|);
      if FromLE(m.data[a..a + 4]) != SeqOf(ph.hd) || Field(ph.hd[LEAD..], HASH_AT, 8) != q.hash
      then Header(ph.pos, map[])
      else Sealed(ph.pos, ph.hd, Collect(ph.got, HEADER + |q.key|, HEADER + |q.key| + StoredLenOf(ph.hd)))
    case LoadTail =>
      var exp := Field(ph.hd[LEAD..], EXPIRES_AT, 4);
      if m.tailPub > ph.pos || Expired(exp, q.now) then Miss
      else Hit(ph.pos, ph.val, ph.hd[FLAGS_AT], exp, Field(ph.hd[LEAD..], RAW_AT, 4))
    case GiveUp => Miss
  }

  // ------------------------------------------------- one read among the stores of the writer

  /** `base`: the ids retired before the read began. `zeroed`: a storeClear wiped index positions
      while the read was going on. */
  datatype System = System(m: Mem, ph: Phase, base: set<nat>, zeroed: bool)

  datatype Action = Writer(e: Event) | Reader(l: Load)

  ghost predicate Allowed(s: System, q: Request, a: Action)
    requires |s.m.data| > 0
  {
    match a
    case Writer(e) => Legal(s.m, e)
    case Reader(l) =>
      Enabled(s.m, q, s.ph, l) &&
      AddrOf(s.m, s.ph, l).0 + AddrOf(s.m, s.ph, l).1 <= |s.m.data|
  }

  ghost function Act(s: System, q: Request, a: Action): (s': System)
    requires |s.m.data| > 0 && Allowed(s, q, a)
    ensures |s'.m.data| == |s.m.data|
  {
    match a
    case Writer(e) => s.(m := Step(s.m, e), zeroed := s.zeroed || e.ZeroOff?)
    case Reader(l) => s.(ph := ReadStep(s.m, q, s.ph, l))
  }

  /** The states a read can go through from `s`: every interleaving is one sequence of actions. */
  ghost predicate Interleaving(s: System, q: Request, acts: seq<Action>)
    requires |s.m.data| > 0
    decreases |acts|
  {
    acts == [] || (Allowed(s, q, acts[0]) && Interleaving(Act(s, q, acts[0]), q, acts[1..]))
  }

  ghost function After(s: System, q: Request, acts: seq<Action>): (s': System)
    requires |s.m.data| > 0 && Interleaving(s, q, acts)
    ensures |s'.m.data| == |s.m.data|
    decreases |acts|
  {
    if acts == [] then s else After(Act(s, q, acts[0]), q, acts[1..])
  }

  function Begin(m: Mem, q: Request): System
    requires |m.hash| > 0
  {
    System(m, ProbeSlot(Home(q.hash, |m.hash|), 0), m.retired, false)
  }

  // ------------------------------------------------------------------------- invariant

  /** Whatever was loaded of a record is right as long as the tail has not passed it. */
  ghost predicate Agrees(m: Mem, pos: nat, got: map<nat, byte>)
    requires pos in m.book
  {
    m.tailPub <= pos ==>
      forall k | k in got && k >= LEAD ::
        k - LEAD < |m.book[pos].Image()| && got[k] == m.book[pos].Image()[k - LEAD]
  }

  ghost predicate HeaderAgrees(m: Mem, pos: nat, hd: seq<byte>)
    requires pos in m.book
  {
    |hd| == HEADER && (m.tailPub <= pos ==> hd[LEAD..] == m.book[pos].Head())
  }

  /** `pos` was announced by an index slot during this read, or it is the position 0 of a slot that a clear
      has wiped. */
  ghost predicate Announced(s: System, pos: nat) {
    pos in s.m.book && (s.m.book[pos].id in s.base ==> s.zeroed && pos == 0)
  }

  ghost predicate PhaseInv(s: System, q: Request)
    requires |s.m.data| > 0
  {
    match s.ph
    case ProbeSlot(i, _) => i < |s.m.hash|
    case Matched(i) => i < |s.m.off| && Announced(s, s.m.off[i])
    case Header(pos, got) => Announced(s, pos) && Agrees(s.m, pos, got)
    case Body(pos, hd, got) =>
      Announced(s, pos) && HeaderAgrees(s.m, pos, hd) && Agrees(s.m, pos, got) &&
      KeyLenOf(hd) == |q.key| &&
      HEADER + KeyLenOf(hd) + StoredLenOf(hd) <= |s.m.data| - Phys(pos, |s.m.data|)
    case Sealed(pos, hd, val) =>
      Announced(s, pos) && HeaderAgrees(s.m, pos, hd) &&
      (s.m.tailPub <= pos ==> s.m.book[pos].key == q.key && val == s.m.book[pos].val)
    case Miss => true
    case Hit(pos, val, flags, exp, raw) =>
      Announced(s, pos) &&
      var r := s.m.book[pos];
      r.key == q.key && r.val == val && r.flags == flags && r.expiresAt == exp && r.rawLen == raw &&
      !Expired(exp, q.now)
  }

  ghost predicate ReadInv(s: System, q: Request) {
    MemInv(s.m) && s.base <= s.m.retired && PhaseInv(s, q)
  }

  lemma HeaderOfRecord(m: Mem, pos: nat, hd: seq<byte>)
    requires MemInv(m) && pos in m.book && HeaderAgrees(m, pos, hd) && m.tailPub <= pos
    ensures KeyLenOf(hd) == |m.book[pos].key| && StoredLenOf(hd) == |m.book[pos].val|
    ensures Field(hd[LEAD..], EXPIRES_AT, 4) == m.book[pos].expiresAt
    ensures Field(hd[LEAD..], RAW_AT, 4) == m.book[pos].rawLen
    ensures hd[FLAGS_AT] == m.book[pos].flags
  {
    hide Rec.Image;
    hide Rec.Head;
    HeaderRoundTrip(m.book[pos]);
    assert hd[LEAD..][FLAGS_AT - LEAD] == hd[FLAGS_AT];
  }

  /** A byte of a record that the tail has not passed reads as the byte that was written. */
  lemma LoadSeesRecord(m: Mem, pos: nat, k: nat)
    requires MemInv(m) && pos in m.book && m.tailPub <= pos
    requires LEAD <= k < LEAD + |m.book[pos].Image()|
    ensures Phys(pos, |m.data|) + k < |m.data|
    ensures m.data[Phys(pos, |m.data|) + k] == m.book[pos].Image()[k - LEAD]
  {
    hide Rec.Image;
    hide Rec.Head;
    var a := BodyAt(m, pos);
    assert Holds(m, pos, m.book[pos]);
    assert m.data[a..a + |m.book[pos].Image()|][k - LEAD] == m.data[a + (k - LEAD)];
  }

  lemma LoadHeaderKeepsReadInv(s: System, q: Request, k: nat)
    requires ReadInv(s, q) && Allowed(s, q, Reader(LoadHeaderByte(k)))
    ensures ReadInv(Act(s, q, Reader(LoadHeaderByte(k))), q)
  {
    hide Rec.Fits;
    hide FromLE;
    hide Expired;
    hide Field;
    hide Rec.Image;
    hide Rec.Head;
    hide Agrees;
    if s.m.tailPub <= s.ph.pos && k >= LEAD {
      LoadSeesRecord(s.m, s.ph.pos, k);
    }
    AgreesMore(s.m, s.ph.pos, s.ph.got, k, s.m.data[Phys(s.ph.pos, |s.m.data|) + k]);
  }

  lemma AgreesMore(m: Mem, pos: nat, got: map<nat, byte>, k: nat, b: byte)
    requires pos in m.book && Agrees(m, pos, got)
    requires m.tailPub <= pos && k >= LEAD ==>
               k - LEAD < |m.book[pos].Image()| && b == m.book[pos].Image()[k - LEAD]
    ensures Agrees(m, pos, got[k := b])
  {
    hide Rec.Image;
    hide Rec.Head;
  }

  lemma DecideKeepsReadInv(s: System, q: Request)
    requires ReadInv(s, q) && Allowed(s, q, Reader(DecideHeader))
    ensures ReadInv(Act(s, q, Reader(DecideHeader)), q)
  {
    hide Rec.Image;
    hide Rec.Head;
    var hd := Collect(s.ph.got, 0, HEADER);
    if s.m.tailPub <= s.ph.pos {
      var r := s.m.book[s.ph.pos];
      assert hd[LEAD..] == r.Image()[..HEADER - LEAD];
    }
    assert HeaderAgrees(s.m, s.ph.pos, hd);
  }

  lemma LoadBodyKeepsReadInv(s: System, q: Request, k: nat)
    requires ReadInv(s, q) && Allowed(s, q, Reader(LoadBodyByte(k)))
    ensures ReadInv(Act(s, q, Reader(LoadBodyByte(k))), q)
  {
    hide Rec.Fits;
    hide FromLE;
    hide Expired;
    hide Field;
    hide Rec.Image;
    hide Rec.Head;
    hide Agrees;
    if s.m.tailPub <= s.ph.pos {
      HeaderOfRecord(s.m, s.ph.pos, s.ph.hd);
      LoadSeesRecord(s.m, s.ph.pos, k);
    }
    AgreesMore(s.m, s.ph.pos, s.ph.got, k, s.m.data[Phys(s.ph.pos, |s.m.data|) + k]);
  }

  lemma LoadKeepsReadInv(s: System, q: Request, l: Load)
    requires ReadInv(s, q) && Allowed(s, q, Reader(l))
    ensures ReadInv(Act(s, q, Reader(l)), q)
  {
    hide Rec.Fits;
    hide FromLE;
    hide Expired;
    hide Field;
    hide Rec.Image;
    hide Rec.Head;
    if l.LoadHeaderByte? {
      LoadHeaderKeepsReadInv(s, q, l.k);
    } else if l.LoadBodyByte? {
      LoadBodyKeepsReadInv(s, q, l.k);
    } else if l.DecideHeader? {
      DecideKeepsReadInv(s, q);
    } else if l.LoadSeqAgain? || l.LoadTail? {
      LastLoadsKeepReadInv(s, q, l);
    } else if l.LoadHash? {
      assert s.m.hash[s.ph.slot] != EMPTY ==> Current(s.m, s.m.off[s.ph.slot]);
    }
  }

  lemma LastLoadsKeepReadInv(s: System, q: Request, l: Load)
    requires ReadInv(s, q) && Allowed(s, q, Reader(l)) && (l.LoadSeqAgain? || l.LoadTail?)
    ensures ReadInv(Act(s, q, Reader(l)), q)
  {
    hide Rec.Fits;
    hide FromLE;
    hide Expired;
    hide Field;
    hide Rec.Image;
    hide Rec.Head;
    if s.m.tailPub <= s.ph.pos {
      if l.LoadSeqAgain? {
        PayloadOfRecord(s, q);
      } else {
        HeaderOfRecord(s.m, s.ph.pos, s.ph.hd);
      }
    }
  }

  lemma LoadedParts(got: map<nat, byte>, lo: nat, mid: nat, hi: nat)
    requires Loaded(got, lo, hi) && lo <= mid <= hi
    ensures Loaded(got, lo, mid) && Loaded(got, mid, hi)
  {
  }

  /** What was loaded of a record that the tail has not passed is a slice of its image. */
  lemma CollectOfImage(m: Mem, pos: nat, got: map<nat, byte>, lo: nat, hi: nat)
    requires pos in m.book && m.tailPub <= pos && Agrees(m, pos, got)
    requires LEAD <= lo <= hi <= LEAD + |m.book[pos].Image()| && Loaded(got, lo, hi)
    ensures Collect(got, lo, hi) == m.book[pos].Image()[lo - LEAD..hi - LEAD]
  {
    hide Rec.Image;
    hide Rec.Head;
  }

  lemma PayloadIs(m: Mem, pos: nat, got: map<nat, byte>, n: nat)
    requires pos in m.book && m.tailPub <= pos && Agrees(m, pos, got) && n == HEADER + |m.book[pos].key|
    requires Loaded(got, HEADER, n + |m.book[pos].val|)
    ensures Loaded(got, HEADER, n) && m.book[pos].key == Collect(got, HEADER, n)
    ensures Loaded(got, n, n + |m.book[pos].val|) && m.book[pos].val == Collect(got, n, n + |m.book[pos].val|)
  {
    hide Rec.Image;
    hide Rec.Head;
    hide Agrees;
    hide Loaded;
    hide Collect;
    LoadedParts(got, HEADER, n, n + |m.book[pos].val|);
    CollectOfImage(m, pos, got, HEADER, n);
    CollectOfImage(m, pos, got, n, n + |m.book[pos].val|);
  }

  lemma PayloadOfRecord(s: System, q: Request)
    requires ReadInv(s, q) && Enabled(s.m, q, s.ph, LoadSeqAgain) && s.m.tailPub <= s.ph.pos
    ensures s.m.book[s.ph.pos].key == q.key
    ensures s.m.book[s.ph.pos].val ==
            Collect(s.ph.got, HEADER + |q.key|, HEADER + |q.key| + StoredLenOf(s.ph.hd))
  {
    hide Rec.Fits;
    hide FromLE;
    hide Expired;
    hide Field;
    hide Rec.Image;
    hide Rec.Head;
    hide Agrees;
    HeaderOfRecord(s.m, s.ph.pos, s.ph.hd);
    PayloadIs(s.m, s.ph.pos, s.ph.got, HEADER + |q.key|);
  }

  lemma StoreKeepsReadInv(s: System, q: Request, e: Event)
    requires ReadInv(s, q) && Legal(s.m, e)
    ensures ReadInv(Act(s, q, Writer(e)), q)
  {
    StepKeepsMemInv(s.m, e);
    StoreKeepsPhaseInv(s, q, e);
  }

  /** The record at `pos` is the same in m', and the tail has moved no further back. */
  ghost predicate Later(m: Mem, m': Mem, pos: nat) {
    pos in m.book && pos in m'.book && m'.book[pos] == m.book[pos] && m.tailPub <= m'.tailPub
  }

  lemma StoreIsLater(m: Mem, e: Event, pos: nat)
    requires |m.data| > 0 && Legal(m, e) && pos in m.book
    ensures Later(m, Step(m, e), pos)
  {
  }

  lemma AgreesLater(m: Mem, m': Mem, pos: nat, got: map<nat, byte>, hd: seq<byte>)
    requires Later(m, m', pos)
    ensures Agrees(m, pos, got) ==> Agrees(m', pos, got)
    ensures HeaderAgrees(m, pos, hd) ==> HeaderAgrees(m', pos, hd)
  {
    hide Rec.Image;
    hide Rec.Head;
  }

  lemma AnnouncedLater(s: System, e: Event, pos: nat)
    requires |s.m.data| > 0 && Legal(s.m, e) && Announced(s, pos)
    ensures Announced(System(Step(s.m, e), s.ph, s.base, s.zeroed || e.ZeroOff?), pos)
  {
    hide Legal;
    hide Step;
    StoreIsLater(s.m, e, pos);
  }

  /** The heart of both theorems: a slot the reader has matched can only come to hold a position that is complete
      and current, because positions are stored before hashes, or the 0 of a clear. */
  lemma MatchedStays(s: System, e: Event, i: nat)
    requires |s.m.data| > 0 && Legal(s.m, e) && i < |s.m.off| && Announced(s, s.m.off[i]) && s.base <= s.m.retired
    ensures Announced(System(Step(s.m, e), s.ph, s.base, s.zeroed || e.ZeroOff?), Step(s.m, e).off[i])
  {
    hide Rec.Fits;
    hide Holds;
    hide Writable;
  }

  lemma PositionStays(s: System, e: Event, pos: nat, got: map<nat, byte>, hd: seq<byte>)
    requires |s.m.data| > 0 && Legal(s.m, e) && Announced(s, pos)
    ensures var m := Step(s.m, e);
            && Announced(System(m, s.ph, s.base, s.zeroed || e.ZeroOff?), pos)
            && pos in m.book && m.book[pos] == s.m.book[pos] && s.m.tailPub <= m.tailPub
            && (Agrees(s.m, pos, got) ==> Agrees(m, pos, got))
            && (HeaderAgrees(s.m, pos, hd) ==> HeaderAgrees(m, pos, hd))
  {
    hide Step;
    hide Legal;
    hide Agrees;
    hide HeaderAgrees;
    AnnouncedLater(s, e, pos);
    StoreIsLater(s.m, e, pos);
    AgreesLater(s.m, Step(s.m, e), pos, got, hd);
  }

  lemma StoreKeepsPhaseInv(s: System, q: Request, e: Event)
    requires |s.m.data| > 0 && Legal(s.m, e) && PhaseInv(s, q) && s.base <= s.m.retired
    ensures PhaseInv(Act(s, q, Writer(e)), q)
  {
    hide Step;
    hide Legal;
    hide Announced;
    hide Agrees;
    hide HeaderAgrees;
    hide Expired;
    hide FromLE;
    hide Phys;
    match s.ph {
      case Matched(i) => MatchedStays(s, e, i);
      case Header(pos, got) => PositionStays(s, e, pos, got, []);
      case Body(pos, hd, got) => PositionStays(s, e, pos, got, hd);
      case Sealed(pos, hd, _) => PositionStays(s, e, pos, map[], hd);
      case Hit(pos, _, _, _, _) => PositionStays(s, e, pos, map[], []);
      case _ =>
    }
  }

  lemma {:induction false} ReadInvHolds(s: System, q: Request, acts: seq<Action>)
    requires ReadInv(s, q) && Interleaving(s, q, acts)
    ensures ReadInv(After(s, q, acts), q)
    ensures After(s, q, acts).base == s.base
    decreases |acts|
  {
    if acts != [] {
      match acts[0] {
        case Writer(e) => StoreKeepsReadInv(s, q, e);
        case Reader(l) => LoadKeepsReadInv(s, q, l);
      }
      ReadInvHolds(Act(s, q, acts[0]), q, acts[1..]);
    }
  }

  // -------------------------------------------------------------------------- theorems

  /** SOUNDNESS. Whatever the writer did before the read (any legal run from a fresh arena) and
      does during it, a hit delivers the value, flags, expiry and raw length of one completed
      set of the very key that was asked for, and that entry has not expired. */
  lemma HitIsOneCompleteSet(boot: Mem, before: seq<Event>, q: Request, acts: seq<Action>)
    requires Boot(boot) && LegalRun(boot, before)
    requires Interleaving(Begin(Run(boot, before), q), q, acts)
    requires After(Begin(Run(boot, before), q), q, acts).ph.Hit?
    ensures var s := After(Begin(Run(boot, before), q), q, acts);
            && s.ph.pos in s.m.book
            && var r := s.m.book[s.ph.pos];
               && r.key == q.key && r.val == s.ph.val && r.flags == s.ph.flags
               && r.expiresAt == s.ph.expiresAt && r.rawLen == s.ph.rawLen
               && !Expired(r.expiresAt, q.now)
  {
    RunKeepsMemInv(boot, before);
    ReadInvHolds(Begin(Run(boot, before), q), q, acts);
  }

  /** No storeClear wipes an index position. */
  ghost predicate NoClear(acts: seq<Action>) {
    forall k | 0 <= k < |acts| && acts[k].Writer? :: !acts[k].e.ZeroOff?
  }

  /** The one way to a stale hit: no record has been passed by the tail, the first record is retired, and a
      clear wipes index positions while the read goes on. */
  ghost predicate MayBeStale(m0: Mem, acts: seq<Action>) {
    m0.tailPub == 0 && 0 in m0.book && m0.book[0].id in m0.retired && !NoClear(acts)
  }

  /** FRESHNESS. A hit never delivers a value whose overwrite, delete or eviction was complete when the read
      began, clears included, but for the first record of a log whose tail has never moved. */
  lemma HitIsNotRetired(boot: Mem, before: seq<Event>, q: Request, acts: seq<Action>)
    requires Boot(boot) && LegalRun(boot, before)
    requires Interleaving(Begin(Run(boot, before), q), q, acts)
    requires After(Begin(Run(boot, before), q), q, acts).ph.Hit?
    ensures var m0, s := Run(boot, before), After(Begin(Run(boot, before), q), q, acts);
            s.ph.pos in s.m.book && (s.m.book[s.ph.pos].id in m0.retired ==> s.ph.pos == 0 && MayBeStale(m0, acts))
  {
    RunKeepsMemInv(boot, before);
    var s0 := Begin(Run(boot, before), q);
    var s := After(s0, q, acts);
    ReadInvHolds(s0, q, acts);
    if s.m.book[s.ph.pos].id in s0.base {
      if NoClear(acts) {
        NeverZeroed(s0, q, acts);
      }
      TailBehindHit(s0, q, acts);
      if 0 in s0.m.book {
        BookKeeps(s0, q, acts);
      } else {
        NewIsNotRetired(s0, q, acts);
      }
    }
  }

  lemma {:induction false} NeverZeroed(s: System, q: Request, acts: seq<Action>)
    requires |s.m.data| > 0 && Interleaving(s, q, acts)
    requires NoClear(acts)
    ensures After(s, q, acts).zeroed == s.zeroed
    decreases |acts|
  {
    if acts != [] {
      NeverZeroed(Act(s, q, acts[0]), q, acts[1..]);
    }
  }

  /** Once hit, always hit. */
  lemma {:induction false} HitStays(s: System, q: Request, acts: seq<Action>)
    requires |s.m.data| > 0 && Interleaving(s, q, acts) && s.ph.Hit?
    ensures After(s, q, acts).ph == s.ph
    decreases |acts|
  {
    if acts != [] {
      HitStays(Act(s, q, acts[0]), q, acts[1..]);
    }
  }

  /** The tail had not passed the position of a hit when the read began. */
  lemma {:induction false} TailBehindHit(s: System, q: Request, acts: seq<Action>)
    requires |s.m.data| > 0 && Interleaving(s, q, acts) && After(s, q, acts).ph.Hit? && !s.ph.Hit?
    ensures s.m.tailPub <= After(s, q, acts).ph.pos
    decreases |acts|
  {
    hide FromLE;
    hide Expired;
    hide Field;
    if acts != [] {
      var s1 := Act(s, q, acts[0]);
      if s1.ph.Hit? {
        HitStays(s1, q, acts[1..]);
      } else {
        TailBehindHit(s1, q, acts[1..]);
      }
    }
  }

  /** What is published during a read was not retired before it. */
  lemma {:induction false} NewIsNotRetired(s: System, q: Request, acts: seq<Action>)
    requires |s.m.data| > 0 && Interleaving(s, q, acts) && s.base <= s.m.retired
    ensures var f := After(s, q, acts); forall p | p in f.m.book && p !in s.m.book :: f.m.book[p].id !in s.base
    decreases |acts|
  {
    hide Rec.Fits;
    hide Holds;
    hide ReadStep;
    hide AddrOf;
    hide Enabled;
    if acts != [] {
      NewIsNotRetired(Act(s, q, acts[0]), q, acts[1..]);
      BookKeeps(Act(s, q, acts[0]), q, acts[1..]);
    }
  }

  lemma {:induction false} BookKeeps(s: System, q: Request, acts: seq<Action>)
    requires |s.m.data| > 0 && Interleaving(s, q, acts)
    ensures forall p | p in s.m.book :: p in After(s, q, acts).m.book && After(s, q, acts).m.book[p] == s.m.book[p]
    decreases |acts|
  {
    hide Rec.Fits;
    hide Holds;
    hide ReadStep;
    hide AddrOf;
    hide Enabled;
    if acts != [] {
      BookKeeps(Act(s, q, acts[0]), q, acts[1..]);
    }
  }

  /** REGULARITY. A read that begins between two operations returns, on a hit, either the record
      the index bound at that moment or one that was completed after it, with the same exception. */
  lemma HitIsCurrentOrNewer(boot: Mem, before: seq<Event>, q: Request, acts: seq<Action>)
    requires Boot(boot) && LegalRun(boot, before) && Settled(Run(boot, before))
    requires Interleaving(Begin(Run(boot, before), q), q, acts)
    requires After(Begin(Run(boot, before), q), q, acts).ph.Hit?
    requires !MayBeStale(Run(boot, before), acts)
    ensures var m0, s := Run(boot, before), After(Begin(Run(boot, before), q), q, acts);
            && s.ph.pos in s.m.book
            && var r := s.m.book[s.ph.pos];
               (exists i :: Binds(m0, i, r)) || (forall p | p in m0.book :: m0.book[p].id != r.id)
  {
    HitIsNotRetired(boot, before, q, acts);
    RunKeepsMemInv(boot, before);
    var m0, s0 := Run(boot, before), Begin(Run(boot, before), q);
    var s := After(s0, q, acts);
    ReadInvHolds(s0, q, acts);
    BookKeeps(s0, q, acts);
    var r := s.m.book[s.ph.pos];
    forall p | p in m0.book && m0.book[p].id == r.id
      ensures exists i :: Binds(m0, i, r)
    {
      SameIdSameRecord(s.m, p, s.ph.pos);
    }
  }

  /** MEMORY SAFETY. In every interleaving a load the reader may perform stays inside the data
      region, however stale its position is: `Allowed` never cuts a behaviour off. */
  lemma LoadsStayInside(boot: Mem, before: seq<Event>, q: Request, acts: seq<Action>, l: Load)
    requires Boot(boot) && LegalRun(boot, before)
    requires Interleaving(Begin(Run(boot, before), q), q, acts)
    requires var s := After(Begin(Run(boot, before), q), q, acts); |s.m.data| > 0 && Enabled(s.m, q, s.ph, l)
    ensures var s := After(Begin(Run(boot, before), q), q, acts);
            |s.m.data| > 0 && AddrOf(s.m, s.ph, l).0 + AddrOf(s.m, s.ph, l).1 <= |s.m.data|
  {
    RunKeepsMemInv(boot, before);
    ReadInvHolds(Begin(Run(boot, before), q), q, acts);
    var s := After(Begin(Run(boot, before), q), q, acts);
    if s.ph.Header? {
      assert InRegion(s.m, s.ph.pos);
    }
  }
}
