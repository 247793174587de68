/** Appends to the invalidation ring interleaved with reads of it, a single store or load at a time. Each
    read goes on where the one before it ended. */
module InvalidationReads {
  import opened Wrapping
  import opened Invalidation

  /** `history` is what has been published; `next` is the record being written, if there is one. */
  datatype Ring = Ring(slots: seq<RingRec>, head: nat, history: seq<RingRec>, next: Append)

  datatype Append = Idle | Writing(rec: RingRec)

  /** The reader: not started, collecting from position p on, or done. `part` is the hash already
      loaded of the record at p. */
  datatype Reader =
    | Begin(cursor: nat, max: nat)
    | Collecting(from: nat, head: nat, wrapped: bool, max: nat, got: seq<(nat, nat)>, part: Part)
    | Done(from: nat, head: nat, wrapped: bool, max: nat, got: seq<(nat, nat)>)

  datatype Part = NoPart | HashPart(hash: nat)

  datatype Step =
    | StartAppend(rec: RingRec)
    | StoreHash
    | StoreVersion
    | StoreWriter
    | PublishHead
    | LoadHead
    | LoadHash
    | LoadWriter
    | LoadHeadAgain
    | NextRead(max: nat)

  /** `outputs` joins what the finished reads returned, from position `first` on; `told` when one of them
      reported a wrap. */
  datatype State = State(ring: Ring, reader: Reader, first: nat, outputs: seq<(nat, nat)>, told: bool)

  /** The position the reader is at. */
  function At(rd: Reader): nat
    requires rd.Collecting?
  {
    rd.from + |rd.got|
  }

  predicate Enabled(s: State, a: Step) {
    |s.ring.slots| > 0 &&
    match a
    case StartAppend(_) => s.ring.next.Idle?
    case StoreHash => s.ring.next.Writing?
    case StoreVersion => s.ring.next.Writing?
    case StoreWriter => s.ring.next.Writing?
    case PublishHead =>
      s.ring.next.Writing? && s.ring.slots[Phys(s.ring.head, |s.ring.slots|)] == s.ring.next.rec
    case LoadHead => s.reader.Begin?
    case LoadHash =>
      s.reader.Collecting? && s.reader.part.NoPart? && At(s.reader) < s.reader.head && |s.reader.got| < s.reader.max
    case LoadWriter => s.reader.Collecting? && s.reader.part.HashPart?
    case LoadHeadAgain =>
      s.reader.Collecting? && s.reader.part.NoPart? &&
      (At(s.reader) >= s.reader.head || |s.reader.got| >= s.reader.max)
    case NextRead(_) => s.reader.Done?
  }

  /** The slot one lap behind the head: the one an append overwrites. */
  function WriteSlot(r: Ring): (i: nat)
    requires |r.slots| > 0
    ensures i < |r.slots|
  {
    Phys(r.head, |r.slots|)
  }

  function Next(s: State, a: Step): State
    requires Enabled(s, a)
  {
    var r, rd := s.ring, s.reader;
    var i := WriteSlot(r);
    match a
    case StartAppend(rec) => s.(ring := r.(next := Writing(rec)))
    case StoreHash => s.(ring := r.(slots := r.slots[i := r.slots[i].(hash := r.next.rec.hash)]))
    case StoreVersion => s.(ring := r.(slots := r.slots[i := r.slots[i].(version := r.next.rec.version)]))
    case StoreWriter => s.(ring := r.(slots := r.slots[i := r.slots[i].(writerId := r.next.rec.writerId)]))
    case PublishHead => s.(ring := r.(head := r.head + 1, history := r.history + [r.next.rec], next := Idle))
    case LoadHead =>
      var wrapped := Lapped(r.head, rd.cursor, |r.slots|);
      var from := if !wrapped then rd.cursor else if r.head > |r.slots| then r.head - |r.slots| else 0;
      s.(reader := Collecting(from, r.head, wrapped, rd.max, [], NoPart))
    case LoadHash => s.(reader := rd.(part := HashPart(r.slots[Phys(At(rd), |r.slots|)].hash)))
    case LoadWriter =>
      s.(reader := rd.(got := rd.got + [(rd.part.hash, r.slots[Phys(At(rd), |r.slots|)].writerId)], part := NoPart))
    case LoadHeadAgain =>
      s.(reader := Done(rd.from, rd.head, rd.wrapped || Lapped(r.head, rd.from, |r.slots|), rd.max, rd.got))
    case NextRead(max) =>
      s.(reader := Begin(rd.from + |rd.got|, max), outputs := s.outputs + rd.got, told := s.told || rd.wrapped)
  }

  /** While a record is being written, only the slot one lap behind the head is in doubt. */
  ghost predicate WriterInv(r: Ring) {
    && |r.slots| > 0 && r.head == |r.history|
    && forall p | 0 <= p < |r.history| < p + |r.slots| :: r.slots[Phys(p, |r.slots|)] == r.history[p]
  }

  /** Unless the writer has lapped the first position read, everything read is right. */
  ghost predicate ReaderInv(r: Ring, rd: Reader) {
    match rd
    case Begin(_, _) => true
    case Collecting(from, head, wrapped, max, got, part) =>
      && head <= r.head && |got| <= max && from + |got| <= head
      && (part.HashPart? ==> from + |got| < head && |got| < max)
      && (!wrapped && !Lapped(r.head, from, |r.slots|) ==>
            Exact(r.history, from, got) &&
            (part.HashPart? && from + |got| < |r.history| ==> part.hash == r.history[from + |got|].hash))
    case Done(from, head, wrapped, max, got) =>
      && from + |got| <= head <= |r.history| && |got| <= max && (|got| < max ==> from + |got| == head)
      && (!wrapped ==> Exact(r.history, from, got))
  }

  ghost predicate Inv(s: State) {
    WriterInv(s.ring) && ReaderInv(s.ring, s.reader)
  }

  lemma WriterStepKeepsInv(s: State, a: Step)
    requires Inv(s) && Enabled(s, a)
    requires (a.StartAppend? || a.StoreHash? || a.StoreVersion? || a.StoreWriter? || a.PublishHead?)
    ensures Inv(Next(s, a))
  {
    hide Phys;
    var r, r' := s.ring, Next(s, a).ring;
    forall p | 0 <= p < |r'.history| < p + |r'.slots|
      ensures r'.slots[Phys(p, |r'.slots|)] == r'.history[p]
    {
      if p < |r.history| {
        PhysDisjoint(p, 1, |r.history|, 1, |r.slots|);
      }
    }
  }

  lemma ReaderStepKeepsInv(s: State, a: Step)
    requires Inv(s) && Enabled(s, a) && (a.LoadHead? || a.LoadHash? || a.LoadWriter? || a.LoadHeadAgain? || a.NextRead?)
    ensures Inv(Next(s, a))
  {
    hide Phys;
    if a.LoadHash? || a.LoadWriter? {
      var p := At(s.reader);
      assert !Lapped(s.ring.head, s.reader.from, |s.ring.slots|) ==>
          s.ring.slots[Phys(p, |s.ring.slots|)] == s.ring.history[p];
    }
  }

  ghost predicate Execution(s: State, t: seq<Step>)
    decreases |t|
  {
    t == [] || (Enabled(s, t[0]) && Execution(Next(s, t[0]), t[1..]))
  }

  ghost function After(s: State, t: seq<Step>): State
    requires Execution(s, t)
    decreases |t|
  {
    if t == [] then s else After(Next(s, t[0]), t[1..])
  }

  lemma StepKeepsInv(s: State, a: Step)
    requires Inv(s) && Enabled(s, a)
    ensures Inv(Next(s, a)) && s.ring.history <= Next(s, a).ring.history && Next(s, a).first == s.first
  {
    if a.StartAppend? || a.StoreHash? || a.StoreVersion? || a.StoreWriter? || a.PublishHead? {
      WriterStepKeepsInv(s, a);
    } else {
      ReaderStepKeepsInv(s, a);
    }
  }

  lemma {:induction false} InvHolds(s: State, t: seq<Step>)
    requires Inv(s) && Execution(s, t)
    ensures Inv(After(s, t)) && s.ring.history <= After(s, t).ring.history
    decreases |t|
  {
    hide Inv;
    hide Enabled;
    hide Next;
    if t != [] {
      StepKeepsInv(s, t[0]);
      InvHolds(Next(s, t[0]), t[1..]);
    }
  }

  /** EXACT OR TOLD. In every interleaving with appends, also with one half done, a read that does
      not report a wrap has returned exactly the hashes and writers appended from its cursor on. */
  lemma ReadIsExactOrWrapped(s: State, t: seq<Step>)
    requires Inv(s) && s.reader.Begin? && Execution(s, t) && OneRead(t) && After(s, t).reader.Done?
    requires !After(s, t).reader.wrapped
    ensures var rd := After(s, t).reader;
            && rd.from == s.reader.cursor && Exact(After(s, t).ring.history, s.reader.cursor, rd.got)
            && (|rd.got| == s.reader.max || rd.from + |rd.got| >= |s.ring.history|)
  {
    InvHolds(s, t);
    CursorIsKept(s, t, s.reader.cursor);
    HeadIsNotOlder(s, t, |s.ring.history|, s.reader.max);
  }

  /** NO FALSE ALARM. A read reports a wrap only if the record at its cursor was out of reach: a whole ring behind
      the head by the end of the read, or not there yet at its begin. */
  lemma WrapMeansOutOfReach(s: State, t: seq<Step>)
    requires Inv(s) && s.reader.Begin? && Execution(s, t) && OneRead(t) && After(s, t).reader.Done?
    requires After(s, t).reader.wrapped
    ensures s.reader.cursor > |s.ring.history| || |After(s, t).ring.history| - s.reader.cursor >= |s.ring.slots|
  {
    InvHolds(s, t);
    AlarmIsTrue(s, t, s.reader.cursor, |s.ring.history|);
  }

  /** Why a reader that set out with this cursor believes in a wrap. */
  ghost predicate TrueAlarm(s: State, cursor: nat, h: nat, cap: nat) {
    && |s.ring.slots| == cap && s.ring.head == |s.ring.history| >= h
    && match s.reader
       case Begin(c, _) => c == cursor
       case Collecting(from, _, wrapped, _, _, _) =>
         if wrapped then cursor > h || |s.ring.history| - cursor >= cap else from == cursor <= |s.ring.history|
       case Done(_, _, wrapped, _, _) => wrapped ==> cursor > h || |s.ring.history| - cursor >= cap
  }

  lemma {:induction false} AlarmIsTrue(s: State, t: seq<Step>, cursor: nat, h: nat)
    requires TrueAlarm(s, cursor, h, |s.ring.slots|) && Execution(s, t) && OneRead(t)
    ensures TrueAlarm(After(s, t), cursor, h, |s.ring.slots|)
    decreases |t|
  {
    hide Phys;
    if t != [] {
      AlarmIsTrue(Next(s, t[0]), t[1..], cursor, h);
    }
  }

  /** A READ COMES TO ITS END. Its own loads alone lead from any state of it to the end. */
  lemma {:induction false} ReadEnds(s: State) returns (t: seq<Step>)
    requires Inv(s)
    ensures Execution(s, t) && OneRead(t) && After(s, t).reader.Done? && After(s, t).ring == s.ring
    decreases StepsToEnd(s.reader)
  {
    hide Phys;
    hide Exact;
    t := [];
    if !s.reader.Done? {
      var a := NextLoad(s);
      ReaderStepKeepsInv(s, a);
      var rest := ReadEnds(Next(s, a));
      t := [a] + rest;
      assert t[1..] == rest;
    }
  }

  function StepsToEnd(rd: Reader): nat {
    match rd
    case Begin(_, max) => 2 * max + 2
    case Collecting(_, _, _, max, got, part) =>
      if |got| > max then 0 else 1 + 2 * (max - |got|) - if part.HashPart? && |got| < max then 1 else 0
    case Done(_, _, _, _, _) => 0
  }

  lemma NextLoad(s: State) returns (a: Step)
    requires Inv(s) && !s.reader.Done?
    ensures Enabled(s, a) && (a.LoadHead? || a.LoadHash? || a.LoadWriter? || a.LoadHeadAgain?)
    ensures StepsToEnd(Next(s, a).reader) < StepsToEnd(s.reader) && Next(s, a).ring == s.ring
  {
    hide Phys;
    hide Exact;
    match s.reader {
      case Begin(_, _) => a := LoadHead;
      case Collecting(_, head, _, max, got, part) =>
        a := if part.HashPart? then LoadWriter
             else if At(s.reader) < head && |got| < max then LoadHash else LoadHeadAgain;
    }
  }

  /** No other read begins. */
  predicate OneRead(t: seq<Step>) {
    forall i | 0 <= i < |t| :: !t[i].NextRead?
  }

  /** The head a reader goes by is no older than the start of the read, and it keeps to its limit. */
  ghost predicate HeadFrom(r: Ring, rd: Reader, h: nat, max: nat) {
    h <= |r.history| &&
    match rd
    case Begin(_, m) => m == max
    case Collecting(_, head, _, m, _, _) => h <= head && m == max
    case Done(_, head, _, m, _) => h <= head && m == max
  }

  lemma {:induction false} HeadIsNotOlder(s: State, t: seq<Step>, h: nat, max: nat)
    requires HeadFrom(s.ring, s.reader, h, max) && Inv(s) && Execution(s, t) && OneRead(t)
    ensures HeadFrom(After(s, t).ring, After(s, t).reader, h, max)
    decreases |t|
  {
    if t != [] {
      StepKeepsInv(s, t[0]);
      HeadIsNotOlder(Next(s, t[0]), t[1..], h, max);
    }
  }

  /** An unwrapped read starts at the cursor it was given. */
  ghost predicate FromCursor(rd: Reader, cursor: nat) {
    match rd
    case Begin(c, _) => c == cursor
    case Collecting(from, _, wrapped, _, _, _) => !wrapped ==> from == cursor
    case Done(from, _, wrapped, _, _) => !wrapped ==> from == cursor
  }

  lemma {:induction false} CursorIsKept(s: State, t: seq<Step>, cursor: nat)
    requires FromCursor(s.reader, cursor) && Execution(s, t) && OneRead(t)
    ensures FromCursor(After(s, t).reader, cursor)
    decreases |t|
  {
    if t != [] {
      CursorIsKept(Next(s, t[0]), t[1..], cursor);
    }
  }

  /** Unless a wrap was reported, the outputs so far are the history from the first cursor on, and the read
      under way goes on behind them. */
  ghost predicate ChainInv(s: State) {
    !s.told ==> Exact(s.ring.history, s.first, s.outputs) && FromCursor(s.reader, s.first + |s.outputs|)
  }

  /** Where it all begins: the ring of an arena between two operations, and a reader with any cursor up to the
      head. Beyond the head, as with a cursor from another segment, only Inv holds. */
  lemma BeginsValid(slots: seq<RingRec>, history: seq<RingRec>, cursor: nat, max: nat)
    requires RingInv(slots, history)
    ensures var s := State(Ring(slots, |history|, history, Idle), Begin(cursor, max), cursor, [], false);
            Inv(s) && (cursor <= |history| ==> ChainInv(s))
  {
    hide Phys;
  }

  lemma ExactJoin(history: seq<RingRec>, from: nat, a: seq<(nat, nat)>, b: seq<(nat, nat)>)
    requires Exact(history, from, a) && Exact(history, from + |a|, b)
    ensures Exact(history, from, a + b)
  {
    forall k | 0 <= k < |a + b|
      ensures (a + b)[k] == (history[from + k].hash, history[from + k].writerId)
    {
      if k >= |a| {
        assert (a + b)[k] == b[k - |a|];
        assert from + |a| + (k - |a|) == from + k;
      }
    }
  }

  lemma ExactLater(history: seq<RingRec>, r: RingRec, from: nat, got: seq<(nat, nat)>)
    requires Exact(history, from, got)
    ensures Exact(history + [r], from, got)
  {
  }

  lemma StepKeepsChain(s: State, a: Step)
    requires Inv(s) && ChainInv(s) && Enabled(s, a)
    ensures ChainInv(Next(s, a))
  {
    hide Exact;
    hide WriterInv;
    hide Phys;
    if !s.told {
      if a.PublishHead? {
        ExactLater(s.ring.history, s.ring.next.rec, s.first, s.outputs);
      }
      if a.NextRead? && !s.reader.wrapped {
        ExactJoin(s.ring.history, s.first, s.outputs, s.reader.got);
      }
    }
  }

  /** NOTHING IS MISSED. Over every execution of appends and of reads that each go on where the one before
      ended, as long as no read reports a wrap their outputs, joined, are exactly the history from the
      first cursor on; with those of the read that has just ended. */
  lemma {:induction false} ChainMissesNothing(s: State, t: seq<Step>)
    requires Inv(s) && ChainInv(s) && Execution(s, t)
    ensures var f := After(s, t);
            && f.first == s.first && s.ring.history <= f.ring.history
            && (!f.told ==> Exact(f.ring.history, s.first, f.outputs))
            && (!f.told && f.reader.Done? && !f.reader.wrapped ==>
                  Exact(f.ring.history, s.first, f.outputs + f.reader.got))
    decreases |t|
  {
    hide Exact;
    hide Inv;
    hide Enabled;
    hide Next;
    if t == [] {
      LastOutput(s);
    } else {
      StepKeepsInv(s, t[0]);
      StepKeepsChain(s, t[0]);
      ChainMissesNothing(Next(s, t[0]), t[1..]);
    }
  }

  lemma LastOutput(s: State)
    requires Inv(s) && ChainInv(s)
    ensures !s.told && s.reader.Done? && !s.reader.wrapped ==> Exact(s.ring.history, s.first, s.outputs + s.reader.got)
  {
    hide Exact;
    if !s.told && s.reader.Done? && !s.reader.wrapped {
      ExactJoin(s.ring.history, s.first, s.outputs, s.reader.got);
    }
  }
}
