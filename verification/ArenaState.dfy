/** The invariant of the arena, over values, and what each kind of store does to it. */
module ArenaState {
  import opened Bytes
  import opened Wrapping
  import opened Records
  import opened Probing
  import opened SharedMemory
  import opened LogLayout

  /** The reduction of a 64-bit hash that keeps 0 and 1 free as sentinels. */
  function HashOf(f: seq<byte> -> nat, key: seq<byte>): (h: nat)
    ensures FIRST_HASH <= h < TWO_64
  {
    var h := f(key) % TWO_64;
    if h < FIRST_HASH then h + FIRST_HASH else h
  }

  lemma HashIsNotEmpty(f: seq<byte> -> nat, key: seq<byte>)
    ensures HashOf(f, key) != EMPTY
  {
  }

  /** A hash of 64 bits is taken as it is, but for the two sentinels. */
  lemma HashIsKept(f: seq<byte> -> nat, key: seq<byte>)
    ensures 2 <= f(key) < TWO_64 ==> HashOf(f, key) == f(key)
    ensures f(key) < 2 ==> HashOf(f, key) == f(key) + 2
  {
  }

  /** The slot field of the record at `pos`, as the bytes read. */
  function SlotField(data: seq<byte>, pos: nat): nat
    requires |data| > 0
  {
    var a := Phys(pos, |data|);
    if a + LEAD <= |data| then FromLE(data[a + SLOT_AT..a + LEAD]) else 0
  }

  function SeqField(data: seq<byte>, pos: nat): nat
    requires |data| > 0
  {
    var a := Phys(pos, |data|);
    if a + LEAD <= |data| then FromLE(data[a..a + SLOT_AT]) else 0
  }

  function BlockField(data: seq<byte>, pos: nat): nat
    requires |data| > 0
  {
    var a := Phys(pos, |data|);
    if a + HEADER <= |data| then FromLE(data[a + BLOCK_AT..a + BLOCK_AT + 4]) else 0
  }

  // ------------------------------------------------------------------- the index as a set

  /** The (hash, position) pairs the occupied slots hold. */
  ghost function Pairs(h: seq<nat>, o: seq<nat>): set<(nat, nat)>
    requires |h| == |o|
  {
    set x | 0 <= x < |h| && h[x] != EMPTY :: (h[x], o[x])
  }

  function Ones(h: seq<nat>): (c: seq<nat>)
    ensures |c| == |h|
  {
    seq(|h|, x requires 0 <= x < |h| => if h[x] == EMPTY then 0 else 1)
  }

  /** The number of occupied slots. */
  function Count(h: seq<nat>): nat {
    Sum(Ones(h))
  }

  ghost function BlockOf(book: map<nat, Rec>, p: nat): nat {
    if p in book then book[p].blockSize else 0
  }

  ghost function Blocks(h: seq<nat>, o: seq<nat>, book: map<nat, Rec>): (c: seq<nat>)
    requires |h| == |o|
    ensures |c| == |h|
  {
    seq(|h|, x requires 0 <= x < |h| => if h[x] == EMPTY then 0 else BlockOf(book, o[x]))
  }

  /** The sum of the block sizes of the indexed entries. */
  ghost function IndexedBytes(m: Mem): nat
    requires |m.hash| == |m.off|
  {
    Sum(Blocks(m.hash, m.off, m.book))
  }

  // ------------------------------------------------------------------------- invariants

  /** What the bytes at the start of each segment say. */
  ghost predicate SegBytes(m: Mem, lay: Layout, p: nat)
    requires |m.data| > 0 && p in lay
  {
    match lay[p]
    case Gap(_) => true
    case Pad(len) => SlotField(m.data, p) == SLOT_PAD && BlockField(m.data, p) == len
    case Entry(len) =>
      p in m.book && m.book[p].blockSize == len && SlotField(m.data, p) < |m.hash| &&
      SeqField(m.data, p) % 2 == 0
  }

  ghost predicate BytesInv(m: Mem, lay: Layout) {
    && |m.data| > 0
    && (forall p | p in lay :: SegBytes(m, lay, p))
    && (forall p | p in m.book && m.tailPub <= p :: p in lay && lay[p].Entry?)
  }

  /** Slot x is empty, or it points at an entry in the log whose slot field points back. */
  ghost predicate SlotOk(m: Mem, lay: Layout, x: nat)
    requires |m.data| > 0 && x < |m.hash| && x < |m.off|
  {
    m.hash[x] != EMPTY ==>
      m.off[x] in lay && lay[m.off[x]].Entry? && m.off[x] in m.book && SlotField(m.data, m.off[x]) == x
  }

  lemma SlotsDoNotMatter(m: Mem, m': Mem, lay: Layout)
    requires BytesInv(m, lay) && m'.data == m.data && m'.book == m.book && m'.tailPub == m.tailPub
    requires |m'.hash| == |m.hash|
    ensures BytesInv(m', lay)
  {
    forall p | p in lay
      ensures SegBytes(m', lay, p)
    {
      assert SegBytes(m, lay, p);
    }
  }

  ghost predicate SlotsOk(m: Mem, lay: Layout) {
    && |m.data| > 0 && |m.hash| == |m.off|
    && forall x | 0 <= x < |m.hash| :: SlotOk(m, lay, x)
  }

  /** Slot x holds an entry for key k. */
  ghost predicate SlotFor(m: Mem, x: nat, k: seq<byte>) {
    x < |m.hash| && x < |m.off| && m.hash[x] != EMPTY && m.off[x] in m.book && m.book[m.off[x]].key == k
  }

  /** No two slots index the same key. */
  ghost predicate KeysDiffer(m: Mem) {
    forall x: nat, y: nat, k :: SlotFor(m, x, k) && SlotFor(m, y, k) ==> x == y
  }

  ghost predicate IndexInv(m: Mem, lay: Layout) {
    && |m.data| > 0 && |m.hash| == |m.off|
    && Reachable(m.hash)
    && SlotsOk(m, lay)
    && KeysDiffer(m)
  }

  /** Hashes belong to their keys; ids come from the operation counter. */
  ghost predicate BookInv(f: seq<byte> -> nat, m: Mem, inserts: nat) {
    && (forall p | p in m.book :: m.book[p].hash == HashOf(f, m.book[p].key) && m.book[p].id <= inserts)
    && (forall i | i in m.retired :: i <= inserts)
  }

  /** The whole invariant; `head` is where the log ends. */
  ghost predicate ArenaInv(f: seq<byte> -> nat, m: Mem, lay: Layout, tail: nat, head: nat, inserts: nat) {
    && MemInv(m) && m.tailPub == tail && 0 < |m.hash| <= SLOT_PAD
    && LogInv(|m.data|, lay, tail, head)
    && BytesInv(m, lay) && IndexInv(m, lay) && BookInv(f, m, inserts)
  }

  // -------------------------------------------------------------------- the abstract map

  /** The positions of the indexed entries. */
  ghost function Indexed(m: Mem): set<nat>
    requires |m.hash| == |m.off|
  {
    set x | 0 <= x < |m.hash| && m.hash[x] != EMPTY :: m.off[x]
  }

  /** The keys that have a slot. */
  ghost function Keys(m: Mem): (ks: set<seq<byte>>)
    requires |m.hash| == |m.off|
    ensures forall k :: k in ks <==> exists x: nat :: SlotFor(m, x, k)
  {
    var ks := set x | 0 <= x < |m.hash| && m.hash[x] != EMPTY && m.off[x] in m.book :: m.book[m.off[x]].key;
    assert forall k, x: nat :: SlotFor(m, x, k) ==> k in ks;
    assert forall k | k in ks :: exists x: nat :: SlotFor(m, x, k) by {
      forall k | k in ks
        ensures exists x: nat :: SlotFor(m, x, k)
      {
        var x :| 0 <= x < |m.hash| && m.hash[x] != EMPTY && m.off[x] in m.book && m.book[m.off[x]].key == k;
        assert SlotFor(m, x, k);
      }
    }
    ks
  }

  ghost function RecordFor(m: Mem, k: seq<byte>): (r: Rec)
    requires |m.hash| == |m.off| && KeysDiffer(m) && k in Keys(m)
    ensures forall x: nat :: SlotFor(m, x, k) ==> r == m.book[m.off[x]]
  {
    var x: nat :| SlotFor(m, x, k);
    m.book[m.off[x]]
  }

  /** The abstract map the arena stands for. */
  ghost function View(m: Mem): (v: map<seq<byte>, Rec>)
    requires |m.hash| == |m.off| && KeysDiffer(m)
    ensures v.Keys == Keys(m)
    ensures forall x: nat, k :: SlotFor(m, x, k) ==> k in v && v[k] == m.book[m.off[x]]
  {
    map k | k in Keys(m) :: RecordFor(m, k)
  }
}
