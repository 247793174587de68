/** What eviction costs: which records the tail passes, which of them are lost, and that it stops as soon as the
    block fits. */
module Eviction {
  import opened Bytes
  import opened Wrapping
  import opened Records
  import opened Probing
  import opened SharedMemory
  import opened LogLayout
  import opened ArenaState
  import opened Shifting
  import opened Allocation
  import opened ArenaSteps

  // --------------------------------------------------------------------- reference bits

  /** Slot x holds the entry at position p, and its reference bit is set. */
  ghost predicate MarkedAt(m: Mem, bits: seq<bool>, x: nat, p: nat) {
    x < |m.hash| && x < |m.off| && x < |bits| && m.hash[x] != EMPTY && m.off[x] == p && bits[x]
  }

  /** The record at p is bound and its reference bit is set. */
  ghost predicate Marked(m: Mem, bits: seq<bool>, p: nat) {
    exists x: nat :: MarkedAt(m, bits, x, p)
  }

  /** The reference bits of all entries but the one at `gone` have stayed set where they were set. */
  ghost predicate MarksStay(m0: Mem, bits0: seq<bool>, m: Mem, bits: seq<bool>, gone: nat) {
    forall p: nat | p != gone && Marked(m0, bits0, p) :: Marked(m, bits, p)
  }

  /** The entry of slot y is in slot x now, and its bit with it. */
  ghost predicate CarriedTo(m0: Mem, bits0: seq<bool>, y: nat, m: Mem, bits: seq<bool>, x: nat) {
    && y < |m0.hash| == |m0.off| == |bits0| && x < |m.hash| == |m.off| == |bits|
    && m0.hash[y] != EMPTY && m.hash[x] != EMPTY && m.off[x] == m0.off[y] && (bits0[y] ==> bits[x])
  }

  /** Apart from the one at position `gone` every entry still has a slot, other than slot i. */
  ghost predicate Carried(m0: Mem, bits0: seq<bool>, m: Mem, bits: seq<bool>, i: nat, gone: nat) {
    && |m0.hash| == |m0.off| == |bits0| == |m.hash| == |m.off| == |bits|
    && forall y: nat | y < |m0.hash| && m0.hash[y] != EMPTY && m0.off[y] != gone ::
         exists x: nat :: CarriedTo(m0, bits0, y, m, bits, x) && x != i
  }

  lemma CarriedBegins(m: Mem, bits: seq<bool>, i: nat)
    requires |m.hash| == |m.off| == |bits| && i < |m.hash|
    ensures Carried(m, bits, m, bits, i, m.off[i])
  {
    forall y: nat | y < |m.hash| && m.hash[y] != EMPTY && m.off[y] != m.off[i]
      ensures exists x: nat :: CarriedTo(m, bits, y, m, bits, x) && x != i
    {
      assert CarriedTo(m, bits, y, m, bits, y);
    }
  }

  lemma CarriedVacates(m0: Mem, bits0: seq<bool>, m1: Mem, bits1: seq<bool>, m: Mem, bits: seq<bool>, i: nat, gone: nat)
    requires Carried(m0, bits0, m1, bits1, i, gone) && i < |m1.hash|
    requires m.hash == m1.hash[i := EMPTY] && m.off == m1.off && bits == bits1[i := false]
    ensures Carried(m0, bits0, m, bits, i, gone)
  {
    forall y: nat | y < |m0.hash| && m0.hash[y] != EMPTY && m0.off[y] != gone
      ensures exists x: nat :: CarriedTo(m0, bits0, y, m, bits, x) && x != i
    {
      var x: nat :| CarriedTo(m0, bits0, y, m1, bits1, x) && x != i;
      assert CarriedTo(m0, bits0, y, m, bits, x);
    }
  }

  lemma CarriedShifts(m0: Mem, bits0: seq<bool>, m1: Mem, bits1: seq<bool>, m: Mem, bits: seq<bool>, i: nat, j: nat,
                      gone: nat)
    requires Carried(m0, bits0, m1, bits1, i, gone) && i < |m1.hash| && j < |m1.hash| && i != j && m1.hash[j] != EMPTY
    requires m.hash == m1.hash[i := m1.hash[j]] && m.off == m1.off[i := m1.off[j]] && bits == bits1[i := bits1[j]]
    ensures Carried(m0, bits0, m, bits, j, gone)
  {
    forall y: nat | y < |m0.hash| && m0.hash[y] != EMPTY && m0.off[y] != gone
      ensures exists x: nat :: CarriedTo(m0, bits0, y, m, bits, x) && x != j
    {
      var x: nat :| CarriedTo(m0, bits0, y, m1, bits1, x) && x != i;
      var x' := if x == j then i else x;
      assert CarriedTo(m0, bits0, y, m, bits, x');
    }
  }

  lemma CarriedMarks(m0: Mem, bits0: seq<bool>, m: Mem, bits: seq<bool>, i: nat, gone: nat)
    requires Carried(m0, bits0, m, bits, i, gone)
    ensures MarksStay(m0, bits0, m, bits, gone)
  {
    forall p: nat | p != gone && Marked(m0, bits0, p)
      ensures Marked(m, bits, p)
    {
      var y: nat :| MarkedAt(m0, bits0, y, p);
      var x: nat :| CarriedTo(m0, bits0, y, m, bits, x) && x != i;
      assert MarkedAt(m, bits, x, p);
    }
  }

  /** Nothing about slots and bits is different but that slot i, which held p, has a new position and its bit is
      cleared. */
  lemma OneSlotMoves(m0: Mem, bits0: seq<bool>, m: Mem, bits: seq<bool>, i: nat, h: nat)
    requires |m0.hash| == |m0.off| == |bits0| && i < |m0.hash|
    requires m.hash == m0.hash && m.off == m0.off[i := h] && bits == bits0[i := false]
    ensures MarksStay(m0, bits0, m, bits, m0.off[i])
  {
    forall p: nat | p != m0.off[i] && Marked(m0, bits0, p)
      ensures Marked(m, bits, p)
    {
      var y: nat :| MarkedAt(m0, bits0, y, p);
      assert MarkedAt(m, bits, y, p);
    }
  }

  lemma SameSlotsSameMarks(m0: Mem, m: Mem, bits: seq<bool>, gone: nat)
    requires m.hash == m0.hash && m.off == m0.off
    ensures MarksStay(m0, bits, m, bits, gone)
  {
    forall p: nat | p != gone && Marked(m0, bits, p)
      ensures Marked(m, bits, p)
    {
      var y: nat :| MarkedAt(m0, bits, y, p);
      assert MarkedAt(m, bits, y, p);
    }
  }

  lemma MarksStayTwice(m0: Mem, bits0: seq<bool>, m1: Mem, bits1: seq<bool>, m: Mem, bits: seq<bool>, gone: nat)
    requires MarksStay(m0, bits0, m1, bits1, gone) && MarksStay(m1, bits1, m, bits, gone)
    ensures MarksStay(m0, bits0, m, bits, gone)
  {
    hide Marked;
  }

  // ------------------------------------------------------------------------ one tail advance

  /** There is a way to keep a record of n bytes at the tail t when the head is h: its bytes are where the head
      is, or there is room for a copy. */
  predicate WayOpen(h: nat, t: nat, n: nat, cap: nat)
    requires cap > 0
  {
    Phys(h, cap) == Phys(t, cap) || (h + n <= t + cap && Phys(h, cap) + n <= cap)
  }

  /** One advance of the tail, in positions. Whatever is bound elsewhere stays bound there and keeps its bit. The
      segment at the tail goes, or its record is bound at the head instead and a second chance is spent; the
      latter for sure if its bit is set, a chance is left and there is a way. */
  ghost predicate Passes(m0: Mem, bits0: seq<bool>, lay0: Layout, t0: nat, h0: nat, c0: nat,
                         m: Mem, bits: seq<bool>, lay: Layout, t: nat, h: nat, c: nat)
    requires |m0.hash| == |m0.off| && |m.hash| == |m.off| && |m0.data| > 0
  {
    && t0 in lay0 && t == t0 + lay0[t0].len && MarksStay(m0, bits0, m, bits, t0)
    && (forall p | p in Indexed(m0) && p != t0 :: p in Indexed(m))
    && (if c == c0 then h == h0 && m.book == m0.book && lay == lay0 - {t0}
        else c + 1 == c0 && h == h0 + lay0[t0].len && lay == (lay0 - {t0})[h0 := Entry(lay0[t0].len)] &&
             t0 in m0.book && m.book == m0.book[h0 := m0.book[t0]] && h0 in Indexed(m))
    && (Marked(m0, bits0, t0) && c0 > 0 && WayOpen(h0, t0, lay0[t0].len, |m0.data|) ==> c != c0)
  }

  lemma MarkedIsIndexed(m: Mem, bits: seq<bool>, p: nat)
    requires |m.hash| == |m.off|
    ensures Marked(m, bits, p) ==> p in Indexed(m)
  {
  }

  lemma DeadPasses(m0: Mem, bits: seq<bool>, lay0: Layout, t0: nat, h: nat, c: nat, m: Mem, t: nat)
    requires |m0.hash| == |m0.off| && |m0.data| > 0 && t0 in lay0 && t == t0 + lay0[t0].len
    requires m == m0.(tailPub := t) && t0 !in Indexed(m0)
    ensures Passes(m0, bits, lay0, t0, h, c, m, bits, lay0 - {t0}, t, h, c)
  {
    SameSlotsSameMarks(m0, m, bits, t0);
    MarkedIsIndexed(m0, bits, t0);
  }

  /** Two slots never hold the same position. */
  lemma OneSlotPerPosition(m: Mem, x: nat, y: nat)
    requires |m.hash| == |m.off| && KeysDiffer(m) && x < |m.hash| && y < |m.hash|
    requires m.hash[x] != EMPTY && m.hash[y] != EMPTY && m.off[x] == m.off[y] && m.off[x] in m.book
    ensures x == y
  {
    assert SlotFor(m, x, m.book[m.off[x]].key) && SlotFor(m, y, m.book[m.off[x]].key);
  }

  lemma EvictionPasses(m0: Mem, bits0: seq<bool>, lay0: Layout, t0: nat, h: nat, c: nat, m1: Mem, bits: seq<bool>,
                       m: Mem, t: nat, x: nat)
    requires |m0.hash| == |m0.off| == |m1.hash| == |m1.off| && |m0.data| > 0 && KeysDiffer(m0)
    requires t0 in lay0 && t == t0 + lay0[t0].len && t0 in m0.book
    requires MarksStay(m0, bits0, m1, bits, t0) && Indexed(m1) == Indexed(m0) - {t0} && m1.book == m0.book
    requires m == m1.(tailPub := t)
    requires x < |m0.hash| && m0.hash[x] != EMPTY && m0.off[x] == t0
    requires x < |bits0| && bits0[x] && c > 0 ==> !WayOpen(h, t0, lay0[t0].len, |m0.data|)
    ensures Passes(m0, bits0, lay0, t0, h, c, m, bits, lay0 - {t0}, t, h, c)
  {
    hide WayOpen;
    hide KeysDiffer;
    SameSlotsSameMarks(m1, m, bits, t0);
    MarksStayTwice(m0, bits0, m1, bits, m, bits, t0);
    if Marked(m0, bits0, t0) {
      var y: nat :| MarkedAt(m0, bits0, y, t0);
      OneSlotPerPosition(m0, x, y);
    }
    assert Indexed(m) == Indexed(m1);
  }

  lemma ChancePasses(m0: Mem, bits0: seq<bool>, lay0: Layout, t0: nat, h0: nat, c0: nat, m: Mem, t: nat, h: nat, x: nat)
    requires |m0.hash| == |m0.off| == |bits0| && |m0.data| > 0 && c0 > 0
    requires t0 in lay0 && t == t0 + lay0[t0].len && h == h0 + lay0[t0].len && t0 in m0.book
    requires x < |m0.hash| && m0.hash[x] != EMPTY && m0.off[x] == t0
    requires m.hash == m0.hash && m.off == m0.off[x := h0] && m.book == m0.book[h0 := m0.book[t0]]
    ensures |m.hash| == |m.off|
    ensures Passes(m0, bits0, lay0, t0, h0, c0, m, bits0[x := false], (lay0 - {t0})[h0 := Entry(lay0[t0].len)],
                   t, h, c0 - 1)
  {
    hide WayOpen;
    OneSlotMoves(m0, bits0, m, bits0[x := false], x, h0);
    forall p | p in Indexed(m0) && p != t0
      ensures p in Indexed(m)
    {
      var y :| 0 <= y < |m0.hash| && m0.hash[y] != EMPTY && m0.off[y] == p;
      assert m.off[y] == p;
    }
    assert m.off[x] == h0;
  }

  // --------------------------------------------------------------------- a walk of the tail

  /** The log and what is bound in it, with the reference bits. */
  datatype LogState = LogState(m: Mem, bits: seq<bool>, lay: Layout, tail: nat, head: nat)

  ghost predicate Sound(y: LogState) {
    && |y.m.hash| == |y.m.off| && |y.m.data| > 0 && y.m.tailPub == y.tail
    && LogInv(|y.m.data|, y.lay, y.tail, y.head) && BytesInv(y.m, y.lay)
    && forall x | 0 <= x < |y.m.hash| && y.m.hash[x] != EMPTY :: y.m.off[x] in y.lay
  }

  lemma ArenaIsSound(f: Hash, m: Mem, bits: seq<bool>, lay: Layout, tail: nat, head: nat, inserts: nat)
    requires ArenaInv(f, m, lay, tail, head, inserts)
    ensures Sound(LogState(m, bits, lay, tail, head))
  {
    hide LogInv;
    hide BytesInv;
    hide MemInv;
    forall x | 0 <= x < |m.hash| && m.hash[x] != EMPTY
      ensures m.off[x] in lay
    {
      assert SlotOk(m, lay, x);
    }
  }

  /** The records placed from position h on. */
  ghost function Placed(book: map<nat, Rec>, h: nat): set<nat> {
    set p | p in book && h <= p
  }

  /** A segment of n bytes ended at t and began at `last`: it was in the log before the walk, or a record that got
      a second chance on it, or what was filled up to the end of the region. */
  ghost predicate LastSegment(a: LogState, book: map<nat, Rec>, last: nat, t: nat) {
    && |a.m.data| > 0 && last < t
    && if last in a.lay then t == last + a.lay[last].len
       else a.head <= last && if last in book then t == last + book[last].blockSize else Phys(t, |a.m.data|) == 0
  }

  /** Why a record at p whose bit was set when the walk began may be gone: it had its second chance, all chances
      are spent, or at some head on the walk no way was open. */
  ghost predicate Excused(a: LogState, book: map<nat, Rec>, head: nat, p: nat)
    requires p in a.lay && p in a.m.book && |a.m.data| > 0
  {
    || (exists q :: a.head <= q && q in book && book[q] == a.m.book[p])
    || |Placed(book, a.head)| >= 16
    || (exists h: nat :: a.head <= h <= head && !WayOpen(h, p, a.lay[p].len, |a.m.data|))
  }

  /** From state a the tail has walked to z, `left` second chances are left, and `last` is where the last segment
      began that was passed. */
  ghost predicate Walk(a: LogState, z: LogState, left: nat, last: nat)
    requires |a.m.hash| == |a.m.off| && |z.m.hash| == |z.m.off| && |a.m.data| > 0
  {
    && |z.m.data| == |a.m.data| && a.tail <= z.tail && a.head <= z.head
    && (forall p | p in a.m.book :: p in z.m.book && z.m.book[p] == a.m.book[p])
    && (forall p | p in z.m.book && p !in a.m.book :: a.head <= p && z.m.book[p] in a.m.book.Values)
    && Stays(a, z)
    && left + |Placed(z.m.book, a.head)| == SECOND_CHANCES
    && (forall p: nat | Marked(a.m, a.bits, p) && p < z.tail && p in a.lay && p in a.m.book ::
          Excused(a, z.m.book, z.head, p))
    && LaterSegments(a, z)
    && (z.tail > a.tail ==> LastSegment(a, z.m.book, last, z.tail))
  }

  /** What was bound, or got a second chance, at or beyond the tail is bound, and the bits that were set are. */
  ghost predicate Stays(a: LogState, z: LogState)
    requires |a.m.hash| == |a.m.off| && |z.m.hash| == |z.m.off|
  {
    && (forall p: nat | z.tail <= p && (p in Indexed(a.m) || (a.head <= p && p in z.m.book)) :: p in Indexed(z.m))
    && (forall p: nat | z.tail <= p && Marked(a.m, a.bits, p) :: Marked(z.m, z.bits, p))
  }

  /** The segments at or beyond the tail are still there; what is new is an entry or fills up the region. */
  ghost predicate LaterSegments(a: LogState, z: LogState)
    requires |a.m.data| > 0
  {
    && (forall p: nat | p in z.lay ::
          if p in a.lay then z.lay[p] == a.lay[p]
          else a.head <= p && (z.lay[p].Entry? || Phys(p, |a.m.data|) + z.lay[p].len == |a.m.data|))
    && (forall p: nat | p in a.lay && z.tail <= p :: p in z.lay)
  }

  lemma WalkBegins(a: LogState)
    requires Sound(a)
    ensures Walk(a, a, SECOND_CHANCES, 0) && OnlyEntries(a, a.lay)
  {
    hide BytesInv;
    BookBelowHead(a);
    assert Placed(a.m.book, a.head) == {};
  }

  lemma BookBelowHead(a: LogState)
    requires Sound(a)
    ensures (forall p | p in a.m.book :: p < a.head) && forall p | p in a.lay :: a.tail <= p < a.head
  {
    forall p | p in a.lay
      ensures a.tail <= p < a.head
    {
      assert SegOk(|a.m.data|, p, a.lay[p]);
    }
  }

  lemma StaysOn(a: LogState, y: LogState, z: LogState, left: nat, c: nat)
    requires Sound(y) && |a.m.hash| == |a.m.off| && |z.m.hash| == |z.m.off| && a.head <= y.head
    requires Stays(a, y) && y.tail < z.tail
    requires Passes(y.m, y.bits, y.lay, y.tail, y.head, left, z.m, z.bits, z.lay, z.tail, z.head, c)
    ensures Stays(a, z)
  {
    hide Marked;
    hide Indexed;
    hide WayOpen;
    hide LogInv;
    hide BytesInv;
  }

  /** What the segment at the tail is. */
  lemma TailSegmentIs(y: LogState)
    requires Sound(y) && y.tail in y.lay
    ensures |y.m.data| > 0
    ensures if y.lay[y.tail].Entry? then y.tail in y.m.book && y.m.book[y.tail].blockSize == y.lay[y.tail].len
            else y.tail !in y.m.book
  {
    hide LogInv;
    assert SegBytes(y.m, y.lay, y.tail);
  }

  lemma PassedSegment(a: LogState, y: LogState, book: map<nat, Rec>, t: nat)
    requires Sound(y) && |y.m.data| == |a.m.data| > 0 && LaterSegments(a, y) && y.tail in y.lay
    requires t == y.tail + y.lay[y.tail].len > y.tail
    requires forall p | p in y.m.book :: p in book && book[p] == y.m.book[p]
    requires forall p | p in book && p !in y.m.book :: y.head <= p
    requires y.tail < y.head
    ensures LastSegment(a, book, y.tail, t)
  {
    TailSegmentIs(y);
    hide Sound;
    if y.tail !in a.lay && !y.lay[y.tail].Entry? {
      PhysAdd(y.tail, y.lay[y.tail].len, |a.m.data|);
    }
    hide Phys;
  }

  lemma LaterStill(a: LogState, y: LogState, z: LogState, len: nat)
    requires |a.m.data| > 0 && LaterSegments(a, y) && y.tail < z.tail && a.head <= y.head
    requires forall p | p in a.lay :: p < a.head
    requires z.lay == y.lay - {y.tail} || z.lay == (y.lay - {y.tail})[y.head := Entry(len)]
    ensures LaterSegments(a, z)
  {
    hide Phys;
  }

  lemma SegmentsGoOn(a: LogState, y: LogState, z: LogState, left: nat, c: nat)
    requires Sound(a) && Sound(y) && |z.m.hash| == |z.m.off| && |y.m.data| == |a.m.data| && a.head <= y.head
    requires LaterSegments(a, y) && y.tail < z.tail
    requires Passes(y.m, y.bits, y.lay, y.tail, y.head, left, z.m, z.bits, z.lay, z.tail, z.head, c)
    ensures LaterSegments(a, z) && LastSegment(a, z.m.book, y.tail, z.tail)
  {
    hide *;
    SoundShape(a);
    SoundShape(y);
    BookBelowHead(a);
    BookBelowHead(y);
    PassedHead(y, z, left, c);
    PassAdvances(y, z, left, c);
    LaterStill(a, y, z, y.lay[y.tail].len);
    PassedSegment(a, y, z.m.book, z.tail);
  }

  lemma ChancesGoOn(a: LogState, y: LogState, z: LogState, left: nat, c: nat)
    requires Sound(y) && |z.m.hash| == |z.m.off| && a.head <= y.head
    requires left + |Placed(y.m.book, a.head)| == SECOND_CHANCES
    requires Passes(y.m, y.bits, y.lay, y.tail, y.head, left, z.m, z.bits, z.lay, z.tail, z.head, c)
    ensures c + |Placed(z.m.book, a.head)| == SECOND_CHANCES
  {
    hide Marked;
    hide Indexed;
    hide WayOpen;
    hide LogInv;
    hide BytesInv;
    hide MarksStay;
    BookBelowHead(y);
    if c != left {
      assert Placed(z.m.book, a.head) == Placed(y.m.book, a.head) + {y.head};
    } else {
      assert Placed(z.m.book, a.head) == Placed(y.m.book, a.head);
    }
  }

  /** The entry at the tail of y, if its bit was set at the begin, was still marked; so it gets its chance. */
  lemma ExcuseOfPassed(a: LogState, y: LogState, z: LogState, left: nat, c: nat, p: nat)
    requires Sound(a) && Sound(y) && |z.m.hash| == |z.m.off| && |y.m.data| == |a.m.data| && a.head <= y.head
    requires Stays(a, y) && LaterSegments(a, y) && y.tail == p < z.tail
    requires Marked(a.m, a.bits, p) && p in a.lay && p in a.m.book && p in y.m.book && y.m.book[p] == a.m.book[p]
    requires Passes(y.m, y.bits, y.lay, y.tail, y.head, left, z.m, z.bits, z.lay, z.tail, z.head, c)
    requires c + |Placed(z.m.book, a.head)| == SECOND_CHANCES
    ensures Excused(a, z.m.book, z.head, p)
  {
    hide Placed;
    hide Indexed;
    hide WayOpen;
    hide LogInv;
    hide BytesInv;
    hide MarksStay;
    assert Marked(y.m, y.bits, p);
    assert y.lay[p] == a.lay[p];
    if c != left {
      assert z.m.book[y.head] == a.m.book[p];
    }
  }

  lemma ExcuseStays(a: LogState, y: LogState, z: LogState, left: nat, c: nat, p: nat)
    requires |y.m.hash| == |y.m.off| && |z.m.hash| == |z.m.off| && |y.m.data| > 0 && |a.m.data| > 0
    requires p in a.lay && p in a.m.book && Excused(a, y.m.book, y.head, p)
    requires Passes(y.m, y.bits, y.lay, y.tail, y.head, left, z.m, z.bits, z.lay, z.tail, z.head, c)
    requires y.head !in y.m.book
    requires left + |Placed(y.m.book, a.head)| == SECOND_CHANCES == c + |Placed(z.m.book, a.head)|
    ensures Excused(a, z.m.book, z.head, p)
  {
    hide Placed;
    hide Indexed;
    hide WayOpen;
    hide MarksStay;
    if q :| a.head <= q && q in y.m.book && y.m.book[q] == a.m.book[p] {
      assert z.m.book[q] == a.m.book[p];
    }
  }

  /** What lies below the new tail lay below the old one or right at it. */
  lemma PassedOrAt(a: LogState, y: LogState, z: LogState, p: nat)
    requires Sound(y) && |a.m.data| > 0 && LaterSegments(a, y)
    requires y.tail in y.lay && z.tail == y.tail + y.lay[y.tail].len
    requires p in a.lay && p < z.tail
    ensures p <= y.tail
  {
    hide BytesInv;
    assert y.tail < p ==> p in y.lay;
  }

  /** One advance more. */
  lemma WalkGoesOn(a: LogState, y: LogState, z: LogState, left: nat, last: nat, c: nat)
    requires Sound(a) && Sound(y) && |z.m.hash| == |z.m.off| && |z.m.data| == |y.m.data|
    requires Walk(a, y, left, last)
    requires Passes(y.m, y.bits, y.lay, y.tail, y.head, left, z.m, z.bits, z.lay, z.tail, z.head, c)
    ensures y.tail < z.tail && Walk(a, z, c, y.tail)
  {
    hide Sound;
    hide Stays;
    hide LaterSegments;
    hide LastSegment;
    hide Excused;
    hide Marked;
    hide Placed;
    SoundShape(a);
    SoundShape(y);
    PassAdvances(y, z, left, c);
    StaysOn(a, y, z, left, c);
    SegmentsGoOn(a, y, z, left, c);
    ChancesGoOn(a, y, z, left, c);
    forall p: nat | Marked(a.m, a.bits, p) && p < z.tail && p in a.lay && p in a.m.book
      ensures Excused(a, z.m.book, z.head, p)
    {
      PassedOrAt(a, y, z, p);
      if p < y.tail {
        ExcuseStays(a, y, z, left, c, p);
      } else {
        ExcuseOfPassed(a, y, z, left, c, p);
      }
    }
  }

  lemma SoundShape(y: LogState)
    requires Sound(y)
    ensures |y.m.hash| == |y.m.off| && |y.m.data| > 0 && y.tail <= y.head
  {
  }

  lemma PassAdvances(y: LogState, z: LogState, left: nat, c: nat)
    requires Sound(y) && |z.m.hash| == |z.m.off|
    requires Passes(y.m, y.bits, y.lay, y.tail, y.head, left, z.m, z.bits, z.lay, z.tail, z.head, c)
    ensures |y.m.data| > 0 && y.tail < z.tail && y.head <= z.head && y.head !in y.m.book
    ensures y.tail in y.lay && z.tail == y.tail + y.lay[y.tail].len
    ensures (forall p | p in y.m.book :: p in z.m.book && z.m.book[p] == y.m.book[p])
    ensures forall p | p in z.m.book && p !in y.m.book :: p == y.head && z.m.book[p] in y.m.book.Values
  {
    hide Indexed;
    hide WayOpen;
    hide MarksStay;
    BookBelowHead(y);
    assert SegOk(|y.m.data|, y.tail, y.lay[y.tail]);
  }

  // ------------------------------------------------------------------ walking for a block

  /** Where a block of n bytes would end that is placed at the head, behind what fills up the region if need be. */
  function EndOf(n: nat, cap: nat, h: nat): (e: nat)
    requires cap > 0
    ensures h + n <= e
  {
    h + (if Straddles(n, cap, h) then cap - Phys(h, cap) else 0) + n
  }

  /** What was filled up was so because the block would have crossed the end of the region. */
  ghost predicate OnlyWraps(n: nat, a: LogState, z: LogState)
    requires |a.m.data| > 0
  {
    forall p: nat | p in z.lay && p !in a.lay && !z.lay[p].Entry? :: Straddles(n, |a.m.data|, p)
  }

  /** A walk that makes room for n bytes: the block, where it would end by now, reaches over the beginning of the
      last segment that was passed. */
  ghost predicate RoomWalk(n: nat, a: LogState, z: LogState, left: nat, last: nat)
    requires |a.m.hash| == |a.m.off| && |z.m.hash| == |z.m.off| && |a.m.data| > 0
  {
    && Walk(a, z, left, last) && OnlyWraps(n, a, z)
    && (z.tail > a.tail ==> last + |a.m.data| < EndOf(n, |a.m.data|, z.head))
  }

  lemma EndStays(n: nat, cap: nat, h: nat, g: nat)
    requires HEADER <= cap && 2 * n <= cap && Phys(h, cap) + g <= cap
    ensures EndOf(n, cap, h) <= EndOf(n, cap, h + g)
    ensures Phys(h, cap) + g == cap && Straddles(n, cap, h) ==> EndOf(n, cap, h + g) == EndOf(n, cap, h)
  {
    PhysAdd(h, g, cap);
  }

  lemma RoomWalkBegins(n: nat, a: LogState)
    requires Sound(a)
    ensures RoomWalk(n, a, a, SECOND_CHANCES, 0)
  {
    hide Sound;
    WalkBegins(a);
    SoundShape(a);
  }

  /** How head and segments change in one advance. */
  lemma PassedHead(y: LogState, z: LogState, left: nat, c: nat)
    requires |y.m.hash| == |y.m.off| && |z.m.hash| == |z.m.off| && |y.m.data| > 0
    requires Passes(y.m, y.bits, y.lay, y.tail, y.head, left, z.m, z.bits, z.lay, z.tail, z.head, c)
    ensures y.tail in y.lay
    ensures if c == left then z.head == y.head && z.lay == y.lay - {y.tail}
            else var len := y.lay[y.tail].len;
                 z.head == y.head + len && z.lay == (y.lay - {y.tail})[y.head := Entry(len)]
  {
    hide Indexed;
    hide WayOpen;
    hide MarksStay;
  }

  lemma OnlyWrapsStill(n: nat, a: LogState, y: LogState, z: LogState, len: nat)
    requires |a.m.data| > 0 && OnlyWraps(n, a, y)
    requires z.lay == y.lay - {y.tail} || z.lay == (y.lay - {y.tail})[y.head := Entry(len)]
    ensures OnlyWraps(n, a, z)
  {
    hide Straddles;
  }

  lemma RoomWalkOf(n: nat, a: LogState, z: LogState, left: nat, last: nat)
    requires |a.m.hash| == |a.m.off| && |z.m.hash| == |z.m.off| && |a.m.data| > 0
    requires Walk(a, z, left, last) && OnlyWraps(n, a, z) && last + |a.m.data| < EndOf(n, |a.m.data|, z.head)
    ensures RoomWalk(n, a, z, left, last)
  {
    hide Walk;
    hide OnlyWraps;
    hide EndOf;
  }

  lemma RoomWalkParts(n: nat, a: LogState, y: LogState, left: nat, last: nat)
    requires |a.m.hash| == |a.m.off| && |y.m.hash| == |y.m.off| && |a.m.data| > 0 && RoomWalk(n, a, y, left, last)
    ensures Walk(a, y, left, last) && OnlyWraps(n, a, y)
  {
    hide Walk;
    hide OnlyWraps;
    hide EndOf;
  }

  lemma RoomWalkPasses(n: nat, a: LogState, y: LogState, z: LogState, left: nat, last: nat, c: nat)
    requires Sound(a) && Sound(y) && Sound(z) && |z.m.data| == |y.m.data| >= HEADER && 2 * n <= |a.m.data|
    requires RoomWalk(n, a, y, left, last) && y.head <= y.tail + |y.m.data|
    requires |y.m.data| - (y.head - y.tail) <
             if Straddles(n, |y.m.data|, y.head) then |y.m.data| - Phys(y.head, |y.m.data|) else n
    requires Passes(y.m, y.bits, y.lay, y.tail, y.head, left, z.m, z.bits, z.lay, z.tail, z.head, c)
    ensures y.tail < z.tail && RoomWalk(n, a, z, c, y.tail)
  {
    hide *;
    SoundShape(a);
    SoundShape(y);
    SoundShape(z);
    RoomWalkParts(n, a, y, left, last);
    WalkShape(a, y, left, last);
    WalkGoesOn(a, y, z, left, last, c);
    PassedHead(y, z, left, c);
    OnlyWrapsStill(n, a, y, z, y.lay[y.tail].len);
    EndReaches(n, |y.m.data|, y.head);
    if c != left {
      SegmentFits(z, y.head);
      EndStays(n, |y.m.data|, y.head, y.lay[y.tail].len);
    }
    RoomWalkOf(n, a, z, c, y.tail);
  }

  lemma EndReaches(n: nat, cap: nat, h: nat)
    requires cap > 0
    ensures h + (if Straddles(n, cap, h) then cap - Phys(h, cap) else n) <= EndOf(n, cap, h)
  {
    hide Straddles;
    hide Phys;
  }

  lemma SegmentFits(z: LogState, p: nat)
    requires Sound(z) && p in z.lay
    ensures |z.m.data| > 0 && Phys(p, |z.m.data|) + z.lay[p].len <= |z.m.data|
  {
    hide BytesInv;
    hide Phys;
    assert SegOk(|z.m.data|, p, z.lay[p]);
  }

  lemma WalkShape(a: LogState, y: LogState, left: nat, last: nat)
    requires |a.m.hash| == |a.m.off| && |y.m.hash| == |y.m.off| && |a.m.data| > 0 && Walk(a, y, left, last)
    ensures |y.m.data| == |a.m.data| && a.tail <= y.tail && a.head <= y.head
  {
  }

  /** What fills the region up moves nothing but the head. */
  lemma RoomWalkFills(n: nat, a: LogState, y: LogState, z: LogState, left: nat, last: nat, g: Seg)
    requires Sound(a) && Sound(y) && |z.m.hash| == |z.m.off| && |z.m.data| == |y.m.data| >= HEADER
    requires 2 * n <= |a.m.data| && RoomWalk(n, a, y, left, last) && Straddles(n, |y.m.data|, y.head)
    requires z.m.hash == y.m.hash && z.m.off == y.m.off && z.m.book == y.m.book && z.bits == y.bits && z.tail == y.tail
    requires !g.Entry? && Phys(y.head, |y.m.data|) + g.len == |y.m.data|
    requires z.lay == y.lay[y.head := g] && z.head == y.head + g.len
    ensures RoomWalk(n, a, z, left, last)
  {
    hide Sound;
    hide Straddles;
    hide LastSegment;
    hide Excused;
    hide Placed;
    SoundShape(a);
    SoundShape(y);
    EndStays(n, |y.m.data|, y.head, g.len);
    SameSlotsSameMarks(y.m, z.m, y.bits, z.head);
    StaysSame(a, y, z);
    FillerIsLater(a, y, z, g);
    forall p: nat | Marked(a.m, a.bits, p) && p < z.tail && p in a.lay && p in a.m.book
      ensures Excused(a, z.m.book, z.head, p)
    {
      ExcuseOfLater(a, y.m.book, y.head, z.head, p);
    }
  }

  lemma StaysSame(a: LogState, y: LogState, z: LogState)
    requires |a.m.hash| == |a.m.off| && |y.m.hash| == |y.m.off| && |z.m.hash| == |z.m.off|
    requires z.m.hash == y.m.hash && z.m.off == y.m.off && z.m.book == y.m.book && z.bits == y.bits && z.tail == y.tail
    requires Stays(a, y)
    ensures Stays(a, z)
  {
    assert Indexed(z.m) == Indexed(y.m);
    hide Indexed;
    forall p: nat | z.tail <= p && Marked(a.m, a.bits, p)
      ensures Marked(z.m, z.bits, p)
    {
      var x: nat :| MarkedAt(y.m, y.bits, x, p);
      assert MarkedAt(z.m, z.bits, x, p);
    }
  }

  lemma FillerIsLater(a: LogState, y: LogState, z: LogState, g: Seg)
    requires Sound(a) && |y.m.data| == |a.m.data| && a.head <= y.head && LaterSegments(a, y) && z.tail == y.tail
    requires z.lay == y.lay[y.head := g] && Phys(y.head, |a.m.data|) + g.len == |a.m.data|
    ensures LaterSegments(a, z) && y.head !in a.lay
  {
    BookBelowHead(a);
    hide Sound;
    hide Phys;
  }

  lemma ExcuseOfLater(a: LogState, book: map<nat, Rec>, h: nat, h': nat, p: nat)
    requires p in a.lay && p in a.m.book && |a.m.data| > 0 && h <= h' && Excused(a, book, h, p)
    ensures Excused(a, book, h', p)
  {
    hide WayOpen;
    hide Placed;
  }

  // --------------------------------------------------------------- two walks, one after the other

  /** What a walk from a to z has cost, whatever it was for. */
  ghost predicate Frugal(a: LogState, z: LogState)
    requires |a.m.hash| == |a.m.off| && |z.m.hash| == |z.m.off| && |a.m.data| > 0
  {
    && |z.m.data| == |a.m.data| && a.tail <= z.tail && a.head <= z.head
    && (forall p | p in a.m.book :: p in z.m.book && z.m.book[p] == a.m.book[p])
    && (forall p | p in z.m.book && p !in a.m.book :: a.head <= p)
    && Stays(a, z) && LaterSegments(a, z)
    && (forall p: nat | Marked(a.m, a.bits, p) && p < z.tail && p in a.lay && p in a.m.book ::
          Excused(a, z.m.book, z.head, p))
  }

  lemma WalkIsFrugal(a: LogState, z: LogState, left: nat, last: nat)
    requires |a.m.hash| == |a.m.off| && |z.m.hash| == |z.m.off| && |a.m.data| > 0 && Walk(a, z, left, last)
    ensures Frugal(a, z) && (z.tail > a.tail ==> LastSegment(a, z.m.book, last, z.tail))
  {
    hide Stays;
    hide LaterSegments;
    hide LastSegment;
    hide Excused;
    hide Marked;
    hide Placed;
  }

  lemma StaysTwice(a: LogState, y: LogState, z: LogState)
    requires |a.m.hash| == |a.m.off| && |y.m.hash| == |y.m.off| && |z.m.hash| == |z.m.off|
    requires Stays(a, y) && Stays(y, z) && y.tail <= z.tail
    requires forall p | p in z.m.book && p !in y.m.book :: y.head <= p
    ensures Stays(a, z)
  {
    hide Marked;
    hide Indexed;
  }

  lemma SegmentsTwice(a: LogState, y: LogState, z: LogState)
    requires Sound(a) && |y.m.data| == |a.m.data| && LaterSegments(a, y) && LaterSegments(y, z)
    requires a.head <= y.head && y.tail <= z.tail
    ensures LaterSegments(a, z)
  {
    BookBelowHead(a);
    hide Sound;
    hide Phys;
  }

  lemma ExcusedTwice(a: LogState, y: LogState, z: LogState, p: nat)
    requires |a.m.hash| == |a.m.off| && |y.m.hash| == |y.m.off| && |z.m.hash| == |z.m.off| && |a.m.data| > 0
    requires Frugal(a, y) && Frugal(y, z) && Sound(a) && Sound(y)
    requires Marked(a.m, a.bits, p) && p < z.tail && p in a.lay && p in a.m.book
    ensures Excused(a, z.m.book, z.head, p)
  {
    hide Sound;
    hide Marked;
    hide Indexed;
    hide WayOpen;
    PlacedGrows(a, y, z);
    hide Placed;
    if p < y.tail {
      assert Excused(a, y.m.book, y.head, p);
      if q :| a.head <= q && q in y.m.book && y.m.book[q] == a.m.book[p] {
        assert z.m.book[q] == a.m.book[p];
      }
    } else {
      assert Excused(y, z.m.book, z.head, p);
    }
  }

  lemma PlacedGrows(a: LogState, y: LogState, z: LogState)
    requires a.head <= y.head && forall p | p in y.m.book :: p in z.m.book
    ensures |Placed(y.m.book, a.head)| <= |Placed(z.m.book, a.head)|
    ensures |Placed(z.m.book, y.head)| <= |Placed(z.m.book, a.head)|
  {
    FewerThan(Placed(y.m.book, a.head), Placed(z.m.book, a.head));
    FewerThan(Placed(z.m.book, y.head), Placed(z.m.book, a.head));
  }

  lemma FewerThan(a: set<nat>, b: set<nat>)
    requires a <= b
    ensures |a| <= |b|
  {
    assert b == a + (b - a);
  }

  lemma FrugalTwice(a: LogState, y: LogState, z: LogState)
    requires |a.m.hash| == |a.m.off| && |y.m.hash| == |y.m.off| && |z.m.hash| == |z.m.off| && |a.m.data| > 0
    requires Frugal(a, y) && Frugal(y, z) && Sound(a) && Sound(y)
    ensures Frugal(a, z)
  {
    forall p: nat | Marked(a.m, a.bits, p) && p < z.tail && p in a.lay && p in a.m.book
      ensures Excused(a, z.m.book, z.head, p)
    {
      ExcusedTwice(a, y, z, p);
    }
    hide Sound;
    hide Marked;
    hide Excused;
    hide Stays;
    hide LaterSegments;
    StaysTwice(a, y, z);
    SegmentsTwice(a, y, z);
  }

  // ----------------------------------------------------------- when the tail has to move at all

  /** What an allocation of n bytes leaves behind; `placed` if it has its block, at the head of z. Then it passed a
      segment only if the block, one lap later, reaches over the beginning of that segment. */
  ghost predicate RoomMade(n: nat, a: LogState, z: LogState, placed: bool)
    requires |a.m.hash| == |a.m.off| && |z.m.hash| == |z.m.off| && |a.m.data| > 0
  {
    && Frugal(a, z) && OnlyWraps(n, a, z)
    && (placed && z.tail > a.tail ==>
          exists last: nat :: LastSegment(a, z.m.book, last, z.tail) && last + |a.m.data| < z.head + n)
  }

  lemma RoomWalkEnds(n: nat, a: LogState, z: LogState, left: nat, last: nat)
    requires |a.m.hash| == |a.m.off| && |z.m.hash| == |z.m.off| && |a.m.data| > 0
    requires RoomWalk(n, a, z, left, last)
    ensures RoomMade(n, a, z, !Straddles(n, |a.m.data|, z.head)) && RoomMade(n, a, z, false)
  {
    hide Frugal;
    hide OnlyWraps;
    hide LastSegment;
    hide Straddles;
    hide Walk;
    WalkIsFrugal(a, z, left, last);
  }

  /** What is new in the log are entries, published again. */
  ghost predicate OnlyEntries(a: LogState, lay: Layout) {
    forall p | p in lay && p !in a.lay :: lay[p].Entry?
  }

  lemma PassedEntries(a: LogState, y: LogState, z: LogState, left: nat, c: nat)
    requires |y.m.hash| == |y.m.off| && |z.m.hash| == |z.m.off| && |y.m.data| > 0 && OnlyEntries(a, y.lay)
    requires Passes(y.m, y.bits, y.lay, y.tail, y.head, left, z.m, z.bits, z.lay, z.tail, z.head, c)
    ensures OnlyEntries(a, z.lay)
  {
    hide Indexed;
    hide MarksStay;
    hide WayOpen;
  }

  lemma PassedShape(m0: Mem, lay0: Layout, t0: nat, h0: nat, b0: nat, m: Mem, t: nat, h: nat, b: nat)
    requires DropStep(m0, lay0, t0, h0, b0, m, t, h, b)
    ensures |m.hash| == |m.off| && |m.data| == |m0.data| > 0
  {
    hide View;
    hide KeysDiffer;
    hide Count;
    hide Drifts;
    hide Evicts;
  }

  /** What relieving the index leaves behind. It passed a segment only if the index was at its ceiling, and has
      stopped right below it. */
  ghost predicate IndexRelieved(a: LogState, z: LogState, live0: nat, live: nat, maxLive: nat)
    requires |a.m.hash| == |a.m.off| && |z.m.hash| == |z.m.off| && |a.m.data| > 0
  {
    && Frugal(a, z) && OnlyEntries(a, z.lay)
    && (z.tail > a.tail ==>
          && live0 >= maxLive && live + 1 >= maxLive
          && exists last: nat :: LastSegment(a, z.m.book, last, z.tail))
  }

  lemma WalkRelieves(a: LogState, z: LogState, left: nat, last: nat, live0: nat, live: nat, maxLive: nat)
    requires |a.m.hash| == |a.m.off| && |z.m.hash| == |z.m.off| && |a.m.data| > 0 && Walk(a, z, left, last)
    requires OnlyEntries(a, z.lay)
    requires z.tail > a.tail ==> live0 >= maxLive && live + 1 >= maxLive
    ensures IndexRelieved(a, z, live0, live, maxLive)
  {
    hide Frugal;
    hide LastSegment;
    hide Walk;
    WalkIsFrugal(a, z, left, last);
  }

  /** Both together, for a set of n bytes: `placed` if there is a block for it at the head of z, `known` unless the
      guard stopped the allocation. The last segment passed lay in the way of the block, or the index was at its
      ceiling and is no more than one below it. */
  ghost predicate RoomFor(n: nat, a: LogState, z: LogState, placed: bool, known: bool,
                          live0: nat, live: nat, maxLive: nat)
    requires |a.m.hash| == |a.m.off| && |z.m.hash| == |z.m.off| && |a.m.data| > 0
  {
    && Frugal(a, z) && OnlyWraps(n, a, z)
    && (known && z.tail > a.tail ==>
          exists last: nat :: LastSegment(a, z.m.book, last, z.tail) &&
            ((placed && last + |a.m.data| < z.head + n) || (live0 >= maxLive && live + 1 >= maxLive)))
  }

  lemma LastSegmentLater(a: LogState, y: LogState, book: map<nat, Rec>, last: nat)
    requires LastSegment(a, y.m.book, last, y.tail) && y.tail <= y.head
    requires forall p | p in y.m.book :: p in book && book[p] == y.m.book[p]
    requires forall p | p in book && p !in y.m.book :: y.head <= p
    ensures LastSegment(a, book, last, y.tail)
  {
    hide Phys;
  }

  lemma LastSegmentFrom(a: LogState, y: LogState, book: map<nat, Rec>, last: nat, t: nat)
    requires Sound(a) && Sound(y) && |y.m.data| == |a.m.data| && a.head <= y.head && LaterSegments(a, y)
    requires OnlyEntries(a, y.lay)
    requires forall p | p in y.m.book :: p in book && book[p] == y.m.book[p]
    requires LastSegment(y, book, last, t)
    ensures LastSegment(a, book, last, t)
  {
    hide Phys;
    hide LogInv;
    BookBelowHead(a);
    if last in y.lay {
      assert SegBytes(y.m, y.lay, last);
    }
  }

  lemma WrapsTwice(n: nat, a: LogState, y: LogState, z: LogState)
    requires Sound(y) && |y.m.data| == |a.m.data| > 0 && LaterSegments(y, z) && OnlyWraps(n, y, z)
    requires OnlyEntries(a, y.lay)
    ensures OnlyWraps(n, a, z)
  {
    hide Sound;
    hide Straddles;
    hide Phys;
  }

  /** Relief, then an allocation. */
  lemma ReliefAndRoom(n: nat, a: LogState, y: LogState, z: LogState, placed: bool,
                      live0: nat, live1: nat, live: nat, maxLive: nat)
    requires Sound(a) && Sound(y) && |z.m.hash| == |z.m.off| && |a.m.hash| == |a.m.off| && |y.m.hash| == |y.m.off|
    requires |a.m.data| > 0 && |y.m.data| > 0
    requires IndexRelieved(a, y, live0, live1, maxLive) && RoomMade(n, y, z, placed)
    requires z.tail == y.tail ==> live == live1
    ensures RoomFor(n, a, z, placed, placed || z.tail == y.tail, live0, live, maxLive)
  {
    SoundShape(y);
    FrugalTwice(a, y, z);
    FrugalParts(a, y);
    FrugalParts(y, z);
    WrapsTwice(n, a, y, z);
    hide Sound;
    hide Frugal;
    hide OnlyWraps;
    hide LastSegment;
    hide LaterSegments;
    if placed && z.tail > y.tail {
      var last: nat :| LastSegment(y, z.m.book, last, z.tail) && last + |y.m.data| < z.head + n;
      LastSegmentFrom(a, y, z.m.book, last, z.tail);
    } else if z.tail == y.tail > a.tail {
      var last: nat :| LastSegment(a, y.m.book, last, y.tail);
      LastSegmentLater(a, y, z.m.book, last);
    }
  }

  lemma LessIsKnown(n: nat, a: LogState, z: LogState, placed: bool, known: bool, less: bool,
                    live0: nat, live: nat, maxLive: nat)
    requires |a.m.hash| == |a.m.off| && |z.m.hash| == |z.m.off| && |a.m.data| > 0 && (less ==> known)
    requires RoomFor(n, a, z, placed, known, live0, live, maxLive)
    ensures RoomFor(n, a, z, placed, less, live0, live, maxLive)
  {
    hide Frugal;
    hide OnlyWraps;
    hide LastSegment;
  }

  lemma FrugalParts(a: LogState, z: LogState)
    requires |a.m.hash| == |a.m.off| && |z.m.hash| == |z.m.off| && |a.m.data| > 0 && Frugal(a, z)
    ensures |z.m.data| == |a.m.data| && a.tail <= z.tail && a.head <= z.head && LaterSegments(a, z) && Stays(a, z)
    ensures forall p | p in a.m.book :: p in z.m.book && z.m.book[p] == a.m.book[p]
    ensures forall p | p in z.m.book && p !in a.m.book :: a.head <= p
  {
    hide Excused;
    hide Stays;
    hide LaterSegments;
  }

  // --------------------------------------------------------------------- what a set has cost

  /** Whatever was bound at a position p that the tail has not passed, and whatever got a second chance there, is
      bound to the same record still; the key that is set aside. */
  ghost predicate BindingsStay(a: LogState, z: LogState, aside: set<seq<byte>>)
    requires |z.m.hash| == |z.m.off| && KeysDiffer(z.m)
  {
    && (forall x: nat, k | SlotFor(a.m, x, k) && z.tail <= a.m.off[x] && k !in aside ::
          k in View(z.m) && View(z.m)[k] == a.m.book[a.m.off[x]])
    && (forall p: nat | p in z.m.book && a.head <= p && z.tail <= p && z.m.book[p].key !in aside ::
          z.m.book[p].key in View(z.m) && View(z.m)[z.m.book[p].key] == z.m.book[p])
  }

  /** The records but the one a successful set of n bytes has put at the end of the log. */
  ghost function Before(z: LogState, n: nat, ok: bool): map<nat, Rec> {
    if ok && n <= z.head then z.m.book - {z.head - n} else z.m.book
  }

  /** Every set but one that the guard of the allocation stops, which no size that callers can ask for meets. */
  predicate Priced(n: nat, cap: nat, ok: bool) {
    ok || 2 * n > cap || Obtainable(n, cap)
  }

  lemma PricedMeans(n: nat, cap: nat, ok: bool)
    ensures Priced(n, cap, ok) <==> ok || 2 * n > cap || Obtainable(n, cap)
  {
  }

  /** The tail moved only if the last segment it passed lay in the way, so that the end of the log now reaches over
      its beginning one lap later, or if the index was at its ceiling; then it is no more than one below it. */
  ghost predicate TailHadToMove(n: nat, a: LogState, z: LogState, live0: nat, live: nat, maxLive: nat, ok: bool)
    requires |a.m.data| > 0
  {
    Priced(n, |a.m.data|, ok) && z.tail > a.tail ==>
      exists last: nat :: LastSegment(a, Before(z, n, ok), last, z.tail) &&
        ((2 * n <= |a.m.data| && last + |a.m.data| < z.head) || (live0 >= maxLive && live + 1 >= maxLive))
  }

  /** The region was filled up only where the block would have crossed its end; and a block without a slot. */
  ghost predicate WrapsHadToBe(n: nat, a: LogState, z: LogState, ok: bool)
    requires |a.m.data| > 0
  {
    forall p: nat | p in z.lay && p !in a.lay && !z.lay[p].Entry? ::
      Straddles(n, |a.m.data|, p) || (!ok && p + n == z.head)
  }

  /** A record whose reference bit was set is gone only with an excuse. */
  ghost predicate LossesExcused(n: nat, a: LogState, z: LogState, ok: bool)
    requires |a.m.data| > 0
  {
    forall p: nat | Marked(a.m, a.bits, p) && p < z.tail && p in a.lay && p in a.m.book ::
      Excused(a, Before(z, n, ok), z.head, p)
  }

  /** The new entry is the last in the log, and its reference bit is set. */
  ghost predicate FreshEntry(n: nat, z: LogState, r: Rec) {
    n <= z.head && z.head - n in z.m.book && z.m.book[z.head - n] == r && Marked(z.m, z.bits, z.head - n)
  }

  /** WHAT A SET OF n BYTES COSTS: what the tail has not passed stays bound, and the tail stops as soon as it can. */
  ghost predicate SetCost(n: nat, key: seq<byte>, a: LogState, z: LogState, live0: nat, live: nat, maxLive: nat,
                          ok: bool)
    requires |a.m.data| > 0 && |z.m.hash| == |z.m.off| && KeysDiffer(z.m) && (ok ==> key in View(z.m))
  {
    && a.tail <= z.tail && a.head <= z.head && BindingsStay(a, z, if ok then {key} else {})
    && TailHadToMove(n, a, z, live0, live, maxLive, ok) && WrapsHadToBe(n, a, z, ok)
    && LossesExcused(n, a, z, ok) && (ok ==> FreshEntry(n, z, View(z.m)[key]))
  }

  lemma StayingIsBinding(a: LogState, y: LogState)
    requires |a.m.hash| == |a.m.off| && |y.m.hash| == |y.m.off| && KeysDiffer(y.m) && Stays(a, y)
    requires forall p | p in a.m.book :: p in y.m.book && y.m.book[p] == a.m.book[p]
    ensures BindingsStay(a, y, {})
  {
    hide View;
    hide KeysDiffer;
    hide Marked;
    forall x: nat, k | SlotFor(a.m, x, k) && y.tail <= a.m.off[x]
      ensures k in View(y.m) && View(y.m)[k] == a.m.book[a.m.off[x]]
    {
      assert a.m.off[x] in Indexed(a.m);
      IndexedIsBound(y.m, a.m.off[x]);
    }
    forall p: nat | p in y.m.book && a.head <= p && y.tail <= p
      ensures y.m.book[p].key in View(y.m) && View(y.m)[y.m.book[p].key] == y.m.book[p]
    {
      IndexedIsBound(y.m, p);
    }
  }

  lemma IndexedIsBound(m: Mem, p: nat)
    requires |m.hash| == |m.off| && KeysDiffer(m) && p in Indexed(m) && p in m.book
    ensures m.book[p].key in View(m) && View(m)[m.book[p].key] == m.book[p]
  {
    hide View;
    hide KeysDiffer;
    var x :| 0 <= x < |m.hash| && m.hash[x] != EMPTY && m.off[x] == p;
    assert SlotFor(m, x, m.book[p].key);
    ViewHas(m, x, m.book[p].key);
  }

  lemma BindingsLater(a: LogState, y: LogState, z: LogState, aside: set<seq<byte>>)
    requires |y.m.hash| == |y.m.off| && KeysDiffer(y.m) && |z.m.hash| == |z.m.off| && KeysDiffer(z.m)
    requires BindingsStay(a, y, {}) && z.tail == y.tail
    requires forall k | k in View(y.m) && k !in aside :: k in View(z.m) && View(z.m)[k] == View(y.m)[k]
    requires forall p | p in z.m.book && z.m.book[p].key !in aside :: p in y.m.book && y.m.book[p] == z.m.book[p]
    ensures BindingsStay(a, z, aside)
  {
    hide View;
    hide KeysDiffer;
  }

  lemma RoomParts(n: nat, a: LogState, y: LogState, placed: bool, known: bool, live0: nat, live: nat, maxLive: nat)
    requires |a.m.hash| == |a.m.off| && |y.m.hash| == |y.m.off| && |a.m.data| > 0 && KeysDiffer(y.m)
    requires RoomFor(n, a, y, placed, known, live0, live, maxLive)
    ensures a.tail <= y.tail && a.head <= y.head && BindingsStay(a, y, {}) && OnlyWraps(n, a, y)
    ensures forall p: nat | Marked(a.m, a.bits, p) && p < y.tail && p in a.lay && p in a.m.book ::
              Excused(a, y.m.book, y.head, p)
    ensures known && y.tail > a.tail ==>
              exists last: nat :: LastSegment(a, y.m.book, last, y.tail) &&
                ((placed && last + |a.m.data| < y.head + n) || (live0 >= maxLive && live + 1 >= maxLive))
  {
    hide OnlyWraps;
    hide LastSegment;
    hide Excused;
    hide KeysDiffer;
    hide LaterSegments;
    StaysOfFrugal(a, y);
    StayingIsBinding(a, y);
  }

  lemma StaysOfFrugal(a: LogState, z: LogState)
    requires |a.m.hash| == |a.m.off| && |z.m.hash| == |z.m.off| && |a.m.data| > 0 && Frugal(a, z)
    ensures Stays(a, z) && forall p | p in a.m.book :: p in z.m.book && z.m.book[p] == a.m.book[p]
  {
    hide Excused;
    hide Stays;
    hide LaterSegments;
  }

  /** What room for n bytes means for a set that has then put n bytes at the head, or nothing. */
  lemma RoomIsPaid(n: nat, a: LogState, y: LogState, z: LogState, placed: bool, known: bool,
                   live0: nat, live1: nat, live: nat, maxLive: nat, ok: bool)
    requires |a.m.hash| == |a.m.off| && |y.m.hash| == |y.m.off| && |a.m.data| > 0 && KeysDiffer(y.m)
    requires RoomFor(n, a, y, placed, known, live0, live1, maxLive) && (Priced(n, |a.m.data|, ok) ==> known)
    requires z.tail == y.tail && z.head == y.head + (if placed then n else 0) && live1 <= live
    requires (placed ==> 2 * n <= |a.m.data|) && Before(z, n, ok) == y.m.book
    ensures a.tail <= z.tail && a.head <= z.head && BindingsStay(a, y, {})
    ensures TailHadToMove(n, a, z, live0, live, maxLive, ok) && LossesExcused(n, a, z, ok) && OnlyWraps(n, a, y)
  {
    RoomParts(n, a, y, placed, known, live0, live1, maxLive);
    hide BindingsStay;
    hide LastSegment;
    hide Excused;
    hide KeysDiffer;
    hide RoomFor;
    hide OnlyWraps;
    hide Marked;
    hide Priced;
    forall p: nat | Marked(a.m, a.bits, p) && p < z.tail && p in a.lay && p in a.m.book
      ensures Excused(a, y.m.book, z.head, p)
    {
      ExcuseOfLater(a, y.m.book, y.head, z.head, p);
    }
  }

  lemma WrapsOf(n: nat, a: LogState, y: LogState, z: LogState, g: Seg, ok: bool)
    requires |a.m.data| > 0 && OnlyWraps(n, a, y)
    requires z.lay == y.lay || (z.lay == y.lay[y.head := g] && (g.Entry? || (!ok && z.head == y.head + n)))
    ensures WrapsHadToBe(n, a, z, ok)
  {
    hide Straddles;
  }

  /** A size that is refused, or the guard of the allocation. */
  lemma RefusedCost(n: nat, key: seq<byte>, a: LogState, y: LogState, known: bool, live0: nat, live: nat, maxLive: nat)
    requires |a.m.hash| == |a.m.off| && |y.m.hash| == |y.m.off| && |a.m.data| > 0 && KeysDiffer(y.m)
    requires RoomFor(n, a, y, false, known, live0, live, maxLive) && (Priced(n, |a.m.data|, false) ==> known)
    ensures SetCost(n, key, a, y, live0, live, maxLive, false)
  {
    hide RoomFor;
    hide KeysDiffer;
    hide Priced;
    hide BindingsStay;
    hide TailHadToMove;
    hide WrapsHadToBe;
    hide LossesExcused;
    hide OnlyWraps;
    RoomIsPaid(n, a, y, y, false, known, live0, live, live, maxLive, false);
    WrapsOf(n, a, y, y, Pad(n), false);
  }

  /** The index was full: the block became a pad. */
  lemma FullCost(n: nat, key: seq<byte>, a: LogState, y: LogState, z: LogState, live0: nat, live: nat, maxLive: nat)
    requires |a.m.hash| == |a.m.off| && |y.m.hash| == |y.m.off| && |a.m.data| > 0 && KeysDiffer(y.m)
    requires RoomFor(n, a, y, true, true, live0, live, maxLive) && 2 * n <= |a.m.data|
    requires |z.m.hash| == |z.m.off| && KeysDiffer(z.m) && View(z.m) == View(y.m) && z.m.book == y.m.book
    requires z.tail == y.tail && z.head == y.head + n && z.lay == y.lay[y.head := Pad(n)]
    ensures SetCost(n, key, a, z, live0, live, maxLive, false)
  {
    hide RoomFor;
    hide KeysDiffer;
    hide View;
    hide Priced;
    hide BindingsStay;
    hide TailHadToMove;
    hide WrapsHadToBe;
    hide LossesExcused;
    hide OnlyWraps;
    RoomIsPaid(n, a, y, z, true, true, live0, live, live, maxLive, false);
    WrapsOf(n, a, y, z, Pad(n), false);
    BindingsLater(a, y, z, {});
  }

  /** The record was placed. */
  lemma PlacedCost(n: nat, key: seq<byte>, a: LogState, y: LogState, z: LogState, r: Rec,
                   live0: nat, live1: nat, live: nat, maxLive: nat)
    requires |a.m.hash| == |a.m.off| && |y.m.hash| == |y.m.off| && |a.m.data| > 0 && KeysDiffer(y.m)
    requires RoomFor(n, a, y, true, true, live0, live1, maxLive) && 2 * n <= |a.m.data| && live1 <= live
    requires |z.m.hash| == |z.m.off| && KeysDiffer(z.m) && View(z.m) == View(y.m)[key := r] && r.key == key
    requires y.head !in y.m.book && z.m.book == y.m.book[y.head := r] && Marked(z.m, z.bits, y.head)
    requires z.tail == y.tail && z.head == y.head + n && z.lay == y.lay[y.head := Entry(n)]
    ensures SetCost(n, key, a, z, live0, live, maxLive, true)
  {
    hide RoomFor;
    hide KeysDiffer;
    hide View;
    hide Priced;
    hide BindingsStay;
    hide TailHadToMove;
    hide WrapsHadToBe;
    hide LossesExcused;
    hide OnlyWraps;
    hide Marked;
    assert Before(z, n, true) == y.m.book;
    RoomIsPaid(n, a, y, z, true, true, live0, live1, live, maxLive, true);
    WrapsOf(n, a, y, z, Entry(n), true);
    BindingsLater(a, y, z, {key});
  }

  /** The end of the operation does not matter to the cost. */
  lemma CostStays(n: nat, key: seq<byte>, a: LogState, y: LogState, z: LogState, live0: nat, live: nat, maxLive: nat,
                  ok: bool)
    requires |a.m.data| > 0 && |y.m.hash| == |y.m.off| && KeysDiffer(y.m) && (ok ==> key in View(y.m))
    requires |z.m.hash| == |z.m.off| && KeysDiffer(z.m) && View(z.m) == View(y.m)
    requires SetCost(n, key, a, y, live0, live, maxLive, ok)
    requires z == y.(m := y.m.(retired := z.m.retired))
    ensures SetCost(n, key, a, z, live0, live, maxLive, ok)
  {
    hide KeysDiffer;
    hide View;
    hide Straddles;
    hide LastSegment;
    hide Excused;
    hide Priced;
    hide FreshEntry;
    hide Marked;
    assert Before(z, n, ok) == Before(y, n, ok);
    if ok {
      FreshStays(n, y, z, View(y.m)[key]);
    }
  }

  lemma FreshStays(n: nat, y: LogState, z: LogState, r: Rec)
    requires FreshEntry(n, y, r) && z == y.(m := y.m.(retired := z.m.retired))
    ensures FreshEntry(n, z, r)
  {
    var x: nat :| MarkedAt(y.m, y.bits, x, z.head - n);
    assert MarkedAt(z.m, z.bits, x, z.head - n);
  }

  lemma FreshIsMarked(m: Mem, bits: seq<bool>, x: nat, p: nat)
    requires x < |m.hash| == |m.off| == |bits| && m.hash[x] != EMPTY && m.off[x] == p && bits[x]
    ensures Marked(m, bits, p)
  {
    assert MarkedAt(m, bits, x, p);
  }
}
