/** The L2 arena: the single-writer operations over the index, the log and the invalidation ring. */
module Arenas {
  import opened Bytes
  import opened Wrapping
  import opened Records
  import opened Probing
  import opened SharedMemory
  import opened LogLayout
  import opened ArenaState
  import opened Shifting
  import opened HeadBlocks
  import opened Invalidation
  import opened Expiry
  import opened ArenaSteps
  import opened Allocation
  import opened Relief
  import opened Eviction

  datatype ReadResult = NotFound | Found(val: seq<byte>, flags: byte, expiresAt: nat, rawLen: nat)

  /** What a reader makes of the entry e when it asked for `key`. */
  function ReadOutcome(e: Rec, key: seq<byte>, scratchCap: nat, now: nat): ReadResult {
    if e.key == key && |e.val| <= scratchCap && !Expired(e.expiresAt, now)
    then Found(e.val, e.flags, e.expiresAt, e.rawLen) else NotFound
  }

  lemma OutcomeParts(e: Rec, key: seq<byte>, scratchCap: nat, now: nat)
    ensures ReadOutcome(e, key, scratchCap, now).Found? <==>
              e.key == key && |e.val| <= scratchCap && !Expired(e.expiresAt, now)
    ensures ReadOutcome(e, key, scratchCap, now).Found? ==>
              ReadOutcome(e, key, scratchCap, now) == Found(e.val, e.flags, e.expiresAt, e.rawLen)
  {
  }

  /** How an entry at the tail is kept: not at all, where it is, or by copying it to the head. */
  datatype Chance = NoChance | InPlace | ByCopy

  /** Everything about a set whose record was placed. */
  lemma PlacedSet(n: nat, key: seq<byte>, a: LogState, y: LogState, z: LogState, r: Rec,
                  live0: nat, live1: nat, live: nat, maxLive: nat)
    requires |a.m.hash| == |a.m.off| && |y.m.hash| == |y.m.off| == |a.m.hash| && |a.m.data| > 0 && KeysDiffer(y.m)
    requires RoomFor(n, a, y, true, true, live0, live1, maxLive) && 2 * n <= |a.m.data| && live1 <= live
    requires Spared(n, |a.m.data|, a.m, a.lay, a.tail, a.head, y.m, y.lay, y.tail, y.head, live0 < maxLive,
                    live1 < maxLive, GuardMax(|a.m.hash|))
    requires Shrunk(a.m, y.m) && Replaced(y.m, y.lay, live1, z.m, z.lay, live, y.head, n, key, r)
    requires |z.m.hash| == |z.m.off| && KeysDiffer(z.m) && View(z.m) == View(y.m)[key := r] && r.key == key
    requires y.head !in y.m.book && z.m.book == y.m.book[y.head := r] && Marked(z.m, z.bits, y.head)
    requires Grows(y.m.book, z.m.book, {r})
    requires z.tail == y.tail && z.head == y.head + n && z.lay == y.lay[y.head := Entry(n)]
    requires live0 == Count(a.m.hash) && Count(y.m.hash) < |a.m.hash|
    requires forall x | 0 <= x < |a.m.hash| && a.m.hash[x] != EMPTY :: a.m.off[x] in a.m.book
    ensures KeysDiffer(a.m) && key in View(z.m) && View(z.m)[key] == r && SetDone(a.m, z.m, key, r)
    ensures Grows(a.m.book, z.m.book, {r}) && Drifts(a.m, z.m, {r})
    ensures SetOutcome(n, |a.m.data|, key, a.m, a.lay, a.tail, a.head, live0, z.m, z.lay, z.tail, z.head, live, maxLive,
                       true)
    ensures SetCost(n, key, a, z, live0, live, maxLive, true)
  {
    hide *;
    PlacedCost(n, key, a, y, z, r, live0, live1, live, maxLive);
    PlacedIsDone(a.m, y.m, y.lay, live1, z.m, z.lay, live, y.head, n, key, r);
    PlacedOutcome(n, |a.m.data|, key, a.m, a.lay, a.tail, a.head, live0, y.m, y.lay, y.head, live1,
                  z.m, z.lay, z.tail, live, maxLive);
    ShrunkSubmap(a.m, y.m);
    GrowsTwice(a.m.book, y.m.book, z.m.book, {r});
  }

  /** Everything about a set whose block found no slot. */
  lemma FullSet(n: nat, key: seq<byte>, a: LogState, y: LogState, z: LogState, live0: nat, live: nat, maxLive: nat)
    requires |a.m.hash| == |a.m.off| && |y.m.hash| == |y.m.off| == |a.m.hash| && |a.m.data| > 0 && KeysDiffer(y.m)
    requires RoomFor(n, a, y, true, true, live0, live, maxLive) && 2 * n <= |a.m.data| && Shrunk(a.m, z.m)
    requires Spared(n, |a.m.data|, a.m, a.lay, a.tail, a.head, y.m, y.lay, y.tail, y.head, live0 < maxLive,
                    live < maxLive, GuardMax(|a.m.hash|))
    requires |z.m.hash| == |z.m.off| && KeysDiffer(z.m) && View(z.m) == View(y.m) && z.m == y.m.(data := z.m.data)
    requires z.tail == y.tail && z.head == y.head + n && z.lay == y.lay[y.head := Pad(n)]
    requires live0 == Count(a.m.hash) && Count(y.m.hash) == |a.m.hash|
    requires forall x | 0 <= x < |a.m.hash| && a.m.hash[x] != EMPTY :: a.m.off[x] in a.m.book
    ensures KeysDiffer(a.m) && Submap(View(z.m), View(a.m))
    ensures Grows(a.m.book, z.m.book, {}) && Drifts(a.m, z.m, {})
    ensures SetOutcome(n, |a.m.data|, key, a.m, a.lay, a.tail, a.head, live0, z.m, z.lay, z.tail, z.head, live, maxLive,
                       false)
    ensures SetCost(n, key, a, z, live0, live, maxLive, false)
  {
    hide *;
    ShrunkSubmap(a.m, z.m);
    FullCost(n, key, a, y, z, live0, live, maxLive);
    FullOutcome(n, |a.m.data|, key, a.m, a.lay, a.tail, a.head, live0, y.m, y.lay, y.head, z.m, z.lay, z.tail, live,
                maxLive);
  }

  class Arena {
    const hashFn: seq<byte> -> nat
    const maxLive: nat
    // Shared memory.
    const hash: array<nat>
    const off: array<nat>
    const hints: array<bool>
    const data: array<byte>
    const ring: array<RingRec>
    var tailPub: nat
    var ringHead: nat
    // The private state of the writer.
    var logHead: nat
    var logTail: nat
    var live: nat
    var liveBytes: nat
    var inserts: nat
    // What the proof keeps: the state of shared memory and the run of stores that led to it, the
    // segments of the log, every record ever appended to the ring, and every completed set.
    ghost const boot: Mem
    ghost var m: Mem
    ghost var trace: seq<Event>
    ghost var lay: Layout
    ghost var history: seq<RingRec>
    ghost var sets: seq<SetCall>

    /** A fresh arena: an empty index over an empty log. */
    constructor (f: seq<byte> -> nat, slots: nat, dataBytes: nat, ringCap: nat)
      requires 16 <= slots <= SLOT_PAD && 4096 <= dataBytes && dataBytes % 8 == 0 && ringCap > 0
      ensures Valid() && View(m) == map[] && history == [] && sets == [] && hashFn == f
      ensures live == 0 && logTail == 0 && logHead == 0 && lay == map[]
      ensures hash.Length == slots && data.Length == dataBytes && ring.Length == ringCap
      ensures fresh(hash) && fresh(off) && fresh(hints) && fresh(data) && fresh(ring)
    {
      hashFn, maxLive := f, slots * 3 / 4;
      var h, o := new nat[slots](_ => EMPTY), new nat[slots](_ => 0);
      var b := new bool[slots](_ => false);
      var d := new byte[dataBytes](_ => 0);
      var g := new RingRec[ringCap](_ => RingRec(0, 0, 0));
      hash, off, hints, data, ring := h, o, b, d, g;
      tailPub, ringHead, logHead, logTail, live, liveBytes, inserts := 0, 0, 0, 0, 0, 0, 0;
      boot := Mem(h[..], o[..], d[..], 0, map[], {});
      m := Mem(h[..], o[..], d[..], 0, map[], {});
      trace, lay, history, sets := [], map[], [], [];
      new;
      BootIsValid(hashFn, m);
    }

    /** The arrays are the shared memory, and every store so far was legal. */
    ghost predicate Wired()
      reads this`m, this`trace, this`tailPub, hash, off, data
    {
      && hash != off && hash.Length == off.Length == hints.Length > 0 && 0 < maxLive == hash.Length * 3 / 4
      && m.hash == hash[..] && m.off == off[..] && m.data == data[..] && m.tailPub == tailPub
      && Boot(boot) && LegalRun(boot, trace) && Run(boot, trace) == m
      && MemInv(m)
    }

    /** The plain facts of Wired, for proofs that need nothing else of it. */
    lemma Sizes()
      requires Wired()
      ensures |m.data| == data.Length > 0 && |m.hash| == |m.off| == hash.Length == off.Length == hints.Length > 0
      ensures m.hash == hash[..] && m.off == off[..] && m.data == data[..] && m.tailPub == tailPub && MemInv(m)
    {
    }

    // ------------------------------------------------------------ single stores

    ghost method Record(e: Event)
      requires Boot(boot) && LegalRun(boot, trace) && Run(boot, trace) == m && MemInv(m) && Legal(m, e)
      modifies this`m, this`trace
      ensures m == Step(old(m), e) && trace == old(trace) + [e]
      ensures LegalRun(boot, trace) && Run(boot, trace) == m && MemInv(m)
    {
      RunExtends(boot, trace, e);
      StepKeepsMemInv(m, e);
      m, trace := Step(m, e), trace + [e];
    }

    ghost method Publishing(p: nat, r: Rec)
      requires Wired() && Legal(m, Publish(p, r))
      modifies this`m, this`trace
      ensures Wired() && old(trace) <= trace && m == old(m).(book := old(m).book[p := r])
    {
      Record(Publish(p, r));
    }

    ghost method Retiring(ids: set<nat>)
      requires Wired() && Legal(m, Retire(ids))
      modifies this`m, this`trace
      ensures Wired() && old(trace) <= trace && m == old(m).(retired := old(m).retired + ids)
    {
      Record(Retire(ids));
    }

    method StoreHash(i: nat, v: nat)
      requires Wired() && i < hash.Length && Legal(m, HashStore(i, v))
      modifies this`m, this`trace, hash
      ensures Wired() && old(trace) <= trace
      ensures m == old(m).(hash := old(m).hash[i := v])
    {
      Record(HashStore(i, v));
      hash[i] := v;
      assert hash[..] == m.hash;
    }

    method StoreOff(i: nat, p: nat)
      requires Wired() && i < off.Length && Legal(m, OffStore(i, p))
      modifies this`m, this`trace, off
      ensures Wired() && old(trace) <= trace
      ensures m == old(m).(off := old(m).off[i := p])
    {
      Record(OffStore(i, p));
      off[i] := p;
      assert off[..] == m.off;
    }

    method StoreTail(t: nat)
      requires Wired() && tailPub <= t
      modifies this`m, this`trace, this`tailPub
      ensures Wired() && old(trace) <= trace
      ensures m == old(m).(tailPub := t)
    {
      Record(TailStore(t));
      tailPub := t;
    }

    method StoreByte(a: nat, b: byte)
      requires Wired() && a < data.Length && Writable(m, a)
      modifies this`m, this`trace, data
      ensures Wired() && old(trace) <= trace
      ensures m == old(m).(data := old(m).data[a := b])
    {
      Record(ByteStore(a, b));
      data[a] := b;
      assert data[..] == m.data;
    }

    /** Copies the bytes of s to address a, one store after the other. */
    method StoreBytes(a: nat, s: seq<byte>)
      requires Wired() && a + |s| <= data.Length
      requires BlockWritable(m, a, |s|)
      modifies this`m, this`trace, data
      ensures Wired() && old(trace) <= trace
      ensures m == old(m).(data := Splice(old(m).data, a, s))
    {
      hide MemInv;
      hide Run;
      hide LegalRun;
      hide Splice;
      hide Writable;
      var k := 0;
      SpliceNothing(m.data, a);
      while k < |s|
        invariant 0 <= k <= |s|
        invariant Wired() && old(trace) <= trace
        invariant m == old(m).(data := Splice(old(m).data, a, s[..k]))
      {
        WritableSame(old(m), m, a + k);
        StoreByte(a + k, s[k]);
        SpliceNext(old(m).data, a, s, k);
        k := k + 1;
      }
      assert s[..k] == s;
    }

    // ------------------------------------------------------------ index

    /** Walks forward from the hole i to the first slot that is empty (hv is EMPTY) or whose entry
        may move back into the hole. */
    method ScanForShift(i: nat) returns (j: nat, hv: nat)
      requires Wired() && i < hash.Length && m.hash[i] == EMPTY && ReachableBut(m.hash, i)
      ensures j < hash.Length && hv == m.hash[j]
      ensures hv == EMPTY ==> Reachable(m.hash)
      ensures hv != EMPTY ==> j != i && !MustStay(i, j, Home(hv, hash.Length))
    {
      var n := hash.Length;
      j := i;
      while true
        invariant j < n && Scanned(m.hash, i, j)
        decreases n - Dist(i, j, n)
      {
        var prev := j;
        j := Next(j, n);
        hv := hash[j];
        if hv == EMPTY {
          ScanEnds(m.hash, i, prev);
          return;
        }
        if !MustStay(i, j, Home(hv, n)) {
          return;
        }
        ScanOne(m.hash, i, prev);
      }
    }

    /** Copies the entry at slot j into the vacated slot i: position first, hash last. */
    method MoveEntry(i: nat, j: nat, ghost head: nat)
      requires Wired() && |m.hash| <= SLOT_PAD && LogInv(|m.data|, lay, logTail, head) && BytesInv(m, lay)
      requires i < hash.Length && j < hash.Length && i != j && m.hash[i] == EMPTY && m.hash[j] != EMPTY
      requires |m.hash| == |m.off| && SlotOk(m, lay, j)
      modifies this`m, this`trace, hash, off, hints, data
      ensures Wired() && old(trace) <= trace
      ensures BodyAt(old(m), old(m).off[j]) <= |old(m).data| && m == Moved(old(m), i, j)
      ensures hints.Length == hash.Length && hints[..] == old(hints[..])[i := old(hints[j])]
    {
      hide Wired;
      hide Writable;
      hide BlockWritable;
      hide Splice;
      hide LE;
      hide FromLE;
      hide Phys;
      hide SameOutside;
      hide SlotField;
      hide SeqField;
      hide BlockField;
      hide Moved;
      hide Legal;
      hide SlotOk;
      hide LogInv;
      hide BytesInv;
      hide MemInv;
      Sizes();
      var hv, pos := hash[j], off[j];
      ghost var m0 := m;
      var a := Phys(pos, data.Length) + SLOT_AT;
      SlotFieldWritable(m, lay, logTail, head, j, a);
      MoveOffIsLegal(m0, i, j);
      StoreOff(i, pos);
      hints[i] := hints[j];
      StillWritable(m0, m, a, 4);
      StoreBytes(a, LE(i, 4));
      MoveHashIsLegal(m0, m, i, j);
      StoreHash(i, hv);
      MovedBySteps(m0, m, i, j);
    }

    /** Backward-shift deletion of slot i0. Entries only move back towards i0, and towards their homes, and take
        their reference bits with them. */
    method IndexRemove(i0: nat, ghost head: nat)
      requires Wired() && |m.hash| <= SLOT_PAD
      requires LogInv(|m.data|, lay, logTail, head) && BytesInv(m, lay) && IndexInv(m, lay)
      requires i0 < hash.Length && m.hash[i0] != EMPTY
      modifies this`m, this`trace, hash, off, hints, data
      ensures Wired() && old(trace) <= trace
      ensures m == old(m).(hash := m.hash, off := m.off, data := m.data)
      ensures Deleted(old(m), i0, m, lay)
      ensures i0 < |old(m).off| && MarksStay(old(m), old(hints[..]), m, hints[..], old(m).off[i0])
    {
      hide Wired;
      hide Carried;
      hide MarksStay;
      hide IndexInv;
      hide BytesInv;
      hide LogInv;
      hide MemInv;
      hide Deleting;
      hide Deleted;
      hide Reachable;
      hide ReachableBut;
      hide Moved;
      hide TotalDisplacement;
      hide Home;
      hide SlotOk;
      Sizes();
      ghost var m0 := m;
      var i: nat := i0;
      ghost var c := DeletingBegins(m, lay, i0);
      ghost var bits0, gone := hints[..], m.off[i0];
      CarriedBegins(m, bits0, i0);
      while true
        invariant hints.Length == |m.hash| && Carried(m0, bits0, m, hints[..], i, gone)
        invariant Wired() && old(trace) <= trace && i < hash.Length == |m.hash| == |m.off|
        invariant m == m0.(hash := m.hash, off := m.off, data := m.data) && |m.data| == |m0.data| > 0
        invariant Deleting(m0, i0, m, i, c, lay)
        decreases TotalDisplacement(m.hash[i := EMPTY])
      {
        ghost var m1, bits1 := m, hints[..];
        StoreHash(i, EMPTY);
        Sizes();
        hints[i] := false;
        CarriedVacates(m0, bits0, m1, bits1, m, hints[..], i, gone);
        DeletingVacated(m0, i0, m1, m, i, c, lay);
        var j, hv := ScanForShift(i);
        if hv == EMPTY {
          DeletingEnds(m0, i0, m, i, c, lay);
          CarriedMarks(m0, bits0, m, hints[..], i, gone);
          return;
        }
        DeletingShifts(m0, i0, m, i, j, c, lay, logTail, head);
        ghost var m2, bits2 := m, hints[..];
        MoveEntry(i, j, head);
        Sizes();
        MovedOnly(m2, m, i, j);
        CarriedShifts(m0, bits0, m2, bits2, m, hints[..], i, j, gone);
        i := j;
      }
    }

    // ------------------------------------------------------------ probing

    /** The first slot without an entry on the probe path of hv, or -1. */
    method FindFreeSlot(hv: nat) returns (r: int)
      requires Wired()
      ensures r < 0 ==> forall x :: 0 <= x < |m.hash| ==> m.hash[x] != EMPTY
      ensures r >= 0 ==> FirstFree(m.hash, hv, r)
    {
      hide *;
      Sizes();
      var n := hash.Length;
      var i: nat, probes: nat := Home(hv, n), 0;
      FreeSearchBegins(m.hash, hv);
      while probes < n
        invariant probes <= n && (probes < n ==> i == Probe(hv, probes, n)) && TakenFirst(m.hash, hv, probes)
      {
        FreeSearchStep(m.hash, hv, probes, i);
        if hash[i] == EMPTY {
          return i;
        }
        probes, i := probes + 1, Next(i, n);
      }
      AllTaken(m.hash, hv);
      return -1;
    }

    function U(a: nat, w: nat): nat
      requires a + w <= data.Length
      reads data
    {
      FromLE(data[a..a + w])
    }

    /** What every operation starts from: `head` is the end of the parsed log. */
    ghost predicate Ready(head: nat)
      reads this`m, this`trace, this`tailPub, this`logTail, this`live, this`liveBytes, this`inserts, this`lay
      reads hash, off, data
    {
      && Wired() && ArenaInv(hashFn, m, lay, logTail, head, inserts)
      && live == Count(m.hash) && liveBytes == IndexedBytes(m)
    }

    lemma ReadyParts(head: nat)
      requires Ready(head)
      ensures Wired() && ArenaInv(hashFn, m, lay, logTail, head, inserts)
      ensures live == Count(m.hash) && liveBytes == IndexedBytes(m)
    {
    }

    lemma ReadyFromParts(head: nat)
      requires Wired() && ArenaInv(hashFn, m, lay, logTail, head, inserts)
      requires live == Count(m.hash) && liveBytes == IndexedBytes(m)
      ensures Ready(head)
    {
    }

    /** Does the occupied slot i hold an entry for `key`? Compares the bytes in the log. */
    method KeyMatches(i: nat, key: seq<byte>) returns (b: bool)
      requires Wired() && SlotsOk(m, lay) && i < hash.Length && m.hash[i] != EMPTY && m.tailPub <= m.off[i]
      ensures b <==> SlotFor(m, i, key)
    {
      assert SlotOk(m, lay, i);
      RecordDecodes(m, m.off[i]);
      KeyBytesDecide(m.data, Phys(m.off[i], |m.data|), m.book[m.off[i]], key);
      hide *;
      b := KeyBytesAt(data[..], Phys(off[i], data.Length), key);
    }

    /** The slot that holds `key`, or -1. */
    method FindSlot(hv: nat, key: seq<byte>, ghost head: nat) returns (r: int)
      requires Ready(head) && hv == HashOf(hashFn, key)
      ensures r < 0 ==> key !in Keys(m)
      ensures r >= 0 ==> SlotFor(m, r, key)
    {
      hide *;
      ReadyParts(head);
      Sizes();
      SlotsPointAtRecords(hashFn, m, lay, logTail, head, inserts);
      var n := hash.Length;
      var i: nat, probes: nat := Home(hv, n), 0;
      SearchBegins(m, hv, key);
      while probes < n
        invariant probes <= n && i < n && (probes < n ==> i == Probe(hv, probes, n))
        invariant NotAmongFirst(m, hv, probes, key)
      {
        var v := hash[i];
        if v == EMPTY {
          ProbeEndsAtEmpty(hashFn, m, lay, logTail, head, inserts, probes, key);
          return -1;
        }
        if v == hv {
          var same := KeyMatches(i, key);
          if same {
            return i;
          }
        }
        WrongHash(hashFn, m, lay, logTail, head, inserts, i, key);
        NotAmongNext(m, hv, probes, i, key);
        probes, i := probes + 1, Next(i, n);
      }
      ProbedEverywhere(m, hv, key);
      return -1;
    }

    // ------------------------------------------------------------ writing a block

    /** Stores s at offset `at` of the block at position q. */
    method StoreInBlock(ghost d0: seq<byte>, ghost q: nat, a: nat, ghost len: nat, at: nat, s: seq<byte>)
      requires Wired() && BlockWritable(m, a, len) && at + |s| <= len
      requires SameOutside(d0, m.data, q, len) && a == Phys(q, |m.data|)
      modifies this`m, this`trace, data
      ensures Wired() && old(trace) <= trace && BlockWritable(m, a, len)
      ensures m == old(m).(data := Splice(old(m).data, a + at, s))
      ensures SameOutside(d0, m.data, q, len)
    {
      SpliceInBlock(d0, m.data, q, len, a + at, s);
      StoreBytes(a + at, s);
      StillWritable(old(m), m, a, len);
    }

    /** A pad record over the whole block. */
    method WritePad(ghost q: nat, a: nat, len: nat)
      requires Wired() && BlockWritable(m, a, len) && a == Phys(q, data.Length) && HEADER <= len < TWO_32
      modifies this`m, this`trace, data
      ensures Wired() && old(trace) <= trace
      ensures m == old(m).(data := m.data) && SameOutside(old(m).data, m.data, q, len)
      ensures SlotField(m.data, q) == SLOT_PAD && BlockField(m.data, q) == len
    {
      hide Wired;
      hide Writable;
      hide BlockWritable;
      hide Splice;
      hide LE;
      hide FromLE;
      hide Phys;
      hide SameOutside;
      hide SlotField;
      hide SeqField;
      hide BlockField;
      Sizes();
      ghost var d0 := m.data;
      NothingWritten(m, q, a, len);
      var v := U(a, 4);
      StoreInBlock(d0, q, a, len, SEQ_AT, LE(SeqOpen(v), 4));
      StoreInBlock(d0, q, a, len, KEYLEN_AT, LE(0, 2));
      StoreInBlock(d0, q, a, len, HASH_AT, LE(0, 8));
      StoreInBlock(d0, q, a, len, STORED_AT, LE(0, 4));
      StoreInBlock(d0, q, a, len, RAW_AT, LE(0, 4));
      StoreInBlock(d0, q, a, len, SLOT_AT, LE(SLOT_PAD, 4));
      ghost var d1 := m.data;
      assert d1[a + SLOT_AT..a + LEAD] == LE(SLOT_PAD, 4);
      StoreInBlock(d0, q, a, len, BLOCK_AT, LE(len, 4));
      ghost var d2 := m.data;
      StoreInBlock(d0, q, a, len, SEQ_AT, LE(SeqClosed(v), 4));
      PadWritten(d1, d2, m.data, a, len, SeqClosed(v));
      LeadFields(m.data, q, a);
    }

    /** Opens the block and writes its slot and its header fields. */
    method WriteHead(ghost d0: seq<byte>, ghost q: nat, a: nat, ghost len: nat, open: nat, slot: nat, head: seq<byte>)
      requires Wired() && BlockWritable(m, a, len) && a == Phys(q, |m.data|) && SameOutside(d0, m.data, q, len)
      requires HEADER <= len && |head| == HEADER - LEAD - 1
      modifies this`m, this`trace, data
      ensures Wired() && old(trace) <= trace && BlockWritable(m, a, len) && SameOutside(d0, m.data, q, len)
      ensures a + LEAD + |head| <= |m.data| == |old(m).data| && m == old(m).(data := m.data)
      ensures m.data == Splice(Splice(Splice(old(m).data, a + SEQ_AT, LE(open, 4)), a + SLOT_AT, LE(slot, 4)),
                               a + LEAD, head)
    {
      hide Wired;
      hide Writable;
      hide BlockWritable;
      hide Splice;
      hide LE;
      hide Phys;
      hide SameOutside;
      NothingWritten(m, q, a, len);
      StoreInBlock(d0, q, a, len, SEQ_AT, LE(open, 4));
      StoreInBlock(d0, q, a, len, SLOT_AT, LE(slot, 4));
      StoreInBlock(d0, q, a, len, LEAD, head);
    }

    /** Writes the key and the value into the block. */
    method WritePayload(ghost d0: seq<byte>, ghost q: nat, a: nat, ghost len: nat, key: seq<byte>, val: seq<byte>)
      requires Wired() && BlockWritable(m, a, len) && a == Phys(q, |m.data|) && SameOutside(d0, m.data, q, len)
      requires HEADER + |key| + |val| <= len
      modifies this`m, this`trace, data
      ensures Wired() && old(trace) <= trace && BlockWritable(m, a, len) && SameOutside(d0, m.data, q, len)
      ensures a + HEADER + |key| + |val| <= |m.data| == |old(m).data| && m == old(m).(data := m.data)
      ensures m.data == Splice(Splice(old(m).data, a + HEADER, key), a + HEADER + |key|, val)
    {
      hide *;
      NothingWritten(m, q, a, len);
      StoreInBlock(d0, q, a, len, HEADER, key);
      StoreInBlock(d0, q, a, len, HEADER + |key|, val);
    }

    /** A complete record: slot, header fields, key and value between the two lock stores. `head` is
        the header from `hash` to `flags`; the byte after it is left as it is. */
    method WriteRecord(ghost q: nat, a: nat, slot: nat, ghost r: Rec, head: seq<byte>, key: seq<byte>, val: seq<byte>)
      requires Wired() && BlockWritable(m, a, r.blockSize) && a == Phys(q, data.Length) && r.Fits() && slot < SLOT_PAD
      requires r.key == key && r.val == val && head == r.Head()[..HEADER - LEAD - 1]
      requires r.tail == m.data[a + HEADER - 1]
      modifies this`m, this`trace, data
      ensures Wired() && old(trace) <= trace
      ensures m == old(m).(data := m.data) && SameOutside(old(m).data, m.data, q, r.blockSize)
      ensures SlotField(m.data, q) == slot && SeqField(m.data, q) % 2 == 0
      ensures Holds(m, q, r)
    {
      hide *;
      Sizes();
      Offsets();
      PayloadFits(r);
      ghost var d0 := m.data;
      NothingWritten(m, q, a, r.blockSize);
      var v := U(a, 4);
      WriteHead(d0, q, a, r.blockSize, SeqOpen(v), slot, head);
      ghost var d2 := m.data;
      WritePayload(d0, q, a, r.blockSize, key, val);
      ghost var d4 := m.data;
      StoreInBlock(d0, q, a, r.blockSize, SEQ_AT, LE(SeqClosed(v), 4));
      RecordWritten(d0, d2, d4, m.data, a, r, slot, SeqOpen(v), SeqClosed(v));
      LeadFields(m.data, q, a);
      HoldsAt(m, q, a, r);
    }

    /** Opens the block and copies everything behind the lead from address a0. */
    method CopyBody(ghost d0: seq<byte>, ghost q: nat, a: nat, len: nat, a0: nat, open: nat)
      requires Wired() && BlockWritable(m, a, len) && a == Phys(q, |m.data|) && SameOutside(d0, m.data, q, len)
      requires HEADER <= len && a0 + len <= data.Length
      modifies this`m, this`trace, data
      ensures Wired() && old(trace) <= trace && BlockWritable(m, a, len) && SameOutside(d0, m.data, q, len)
      ensures a + len <= |m.data| == |old(m).data| && m == old(m).(data := m.data)
      ensures var d1 := Splice(old(m).data, a + SEQ_AT, LE(open, 4));
              a0 + len <= |d1| && m.data == Splice(d1, a + LEAD, d1[a0 + LEAD..a0 + len])
    {
      hide *;
      Offsets();
      Sizes();
      NothingWritten(m, q, a, len);
      StoreInBlock(d0, q, a, len, SEQ_AT, LE(open, 4));
      Sizes();
      StoreInBlock(d0, q, a, len, LEAD, data[a0 + LEAD..a0 + len]);
    }

    /** Writes the slot field and closes the block. */
    method SealBlock(ghost d0: seq<byte>, ghost q: nat, a: nat, ghost len: nat, slot: nat, closed: nat)
      requires Wired() && BlockWritable(m, a, len) && a == Phys(q, |m.data|) && SameOutside(d0, m.data, q, len)
      requires HEADER <= len
      modifies this`m, this`trace, data
      ensures Wired() && old(trace) <= trace && SameOutside(d0, m.data, q, len)
      ensures a + len <= |m.data| == |old(m).data| && m == old(m).(data := m.data)
      ensures m.data == Splice(Splice(old(m).data, a + SLOT_AT, LE(slot, 4)), a + SEQ_AT, LE(closed, 4))
    {
      hide *;
      Offsets();
      NothingWritten(m, q, a, len);
      StoreInBlock(d0, q, a, len, SLOT_AT, LE(slot, 4));
      StoreInBlock(d0, q, a, len, SEQ_AT, LE(closed, 4));
    }

    /** The bytes of the record at address a0, whole, to the block at the head; the slot field is
        written again. */
    method CopyRecord(a0: nat, ghost q: nat, a: nat, len: nat, slot: nat, ghost r: Rec)
      requires Wired() && BlockWritable(m, a, len) && a == Phys(q, data.Length) && HEADER <= len && slot < SLOT_PAD
      requires a0 + len <= data.Length && (a0 + len <= a || a + len <= a0)
      requires LEAD + |r.Image()| <= len && m.data[a0 + LEAD..a0 + LEAD + |r.Image()|] == r.Image()
      modifies this`m, this`trace, data
      ensures Wired() && old(trace) <= trace
      ensures m == old(m).(data := m.data) && SameOutside(old(m).data, m.data, q, len)
      ensures SlotField(m.data, q) == slot && SeqField(m.data, q) % 2 == 0
      ensures Holds(m, q, r)
    {
      hide *;
      Offsets();
      Sizes();
      ghost var d0 := m.data;
      NothingWritten(m, q, a, len);
      var v := U(a, 4);
      CopyBody(d0, q, a, len, a0, SeqOpen(v));
      ghost var d2 := m.data;
      SealBlock(d0, q, a, len, slot, SeqClosed(v));
      RecordCopied(d0, d2, m.data, a0, a, len, r, slot, SeqOpen(v), SeqClosed(v));
      LeadFields(m.data, q, a);
      HoldsAt(m, q, a, r);
    }

    // ------------------------------------------------------------ the tail

    /** The size field of the record at `pos`. */
    method BlockSizeAt(pos: nat) returns (size: nat)
      requires Wired() && pos in m.book && m.tailPub <= pos
      ensures size == m.book[pos].blockSize == BlockOf(m.book, pos)
    {
      hide Wired;
      hide MemInv;
      hide FromLE;
      hide Phys;
      hide Decodes;
      Sizes();
      RecordDecodes(m, pos);
      DecodedHash(m.data, Phys(pos, |m.data|), m.book[pos]);
      size := U(Phys(pos, data.Length) + BLOCK_AT, 4);
    }

    /** Unlinks an index slot. The block stays in the log until the tail reaches it. */
    method UnlinkSlot(slot: nat, ghost head: nat)
      requires Ready(head) && slot < hash.Length && m.hash[slot] != EMPTY && logHead >= head
      modifies this`m, this`trace, this`live, this`liveBytes, hash, off, hints, data
      ensures Ready(head) && old(trace) <= trace
      ensures m == old(m).(hash := m.hash, off := m.off, data := m.data)
      ensures SameShape(old(m), m) && KeysDiffer(old(m)) && KeysDiffer(m)
      ensures Count(m.hash) + 1 == Count(old(m).hash)
      ensures Indexed(m) == Indexed(old(m)) - {old(m).off[slot]}
      ensures old(m).off[slot] in m.book && View(m) == View(old(m)) - {m.book[old(m).off[slot]].key}
      ensures exists x :: 0 <= x < |m.hash| && m.hash[x] == EMPTY
      ensures MovedBack(old(m), m, slot) && Drifts(old(m), m, {})
      ensures MarksStay(old(m), old(hints[..]), m, hints[..], old(m).off[slot]) && live + 1 == old(live)
    {
      hide *;
      ReadyParts(head);
      SlotAt(hashFn, m, lay, logTail, head, inserts, slot);
      Sizes();
      var pos := off[slot];
      IndexRemove(slot, head);
      Sizes();
      DeletedParts(old(m), slot, m, lay);
      MovedDrifts(old(m), m, slot);
      RemovalKeeps(hashFn, old(m), m, lay, logTail, head, inserts);
      var size := BlockSizeAt(pos);
      live := live - 1;
      liveBytes := liveBytes - size;
      ReadyFromParts(head);
    }

    /** Moves the tail over the segment it is at, which no slot points at. */
    method PassTail(len: nat)
      requires Ready(logHead) && logTail < logHead && |m.hash| == |m.off|
      requires logTail in lay && lay[logTail].len == len && logTail !in Indexed(m)
      modifies this`m, this`trace, this`tailPub, this`logTail, this`lay
      ensures Ready(logHead) && old(trace) <= trace
      ensures logTail == old(logTail) + len && lay == old(lay) - {old(logTail)}
      ensures m == old(m).(tailPub := logTail)
      ensures KeysDiffer(m) && KeysDiffer(old(m)) && View(m) == View(old(m))
    {
      hide Wired;
      hide Ready;
      hide ArenaInv;
      hide Count;
      hide IndexedBytes;
      hide MemInv;
      hide View;
      hide KeysDiffer;
      hide Indexed;
      ReadyParts(logHead);
      logTail := logTail + len;
      Sizes();
      TailIsPublished(hashFn, m, lay, old(logTail), logHead, inserts);
      StoreTail(logTail);
      Sizes();
      TailPasses(hashFn, old(m), m, lay, old(logTail), logHead, inserts);
      lay := lay - {old(logTail)};
      ReadyFromParts(logHead);
    }

    /** Reads the header at the tail. */
    method ReadTail() returns (slot: nat, size: nat, eh: nat)
      requires Ready(logHead) && logTail < logHead && GapAt(Phys(logTail, data.Length), data.Length) == 0
      ensures logTail in lay && !lay[logTail].Gap? && size == lay[logTail].len
      ensures slot == SlotField(m.data, logTail) && (slot == SLOT_PAD <==> lay[logTail].Pad?)
      ensures lay[logTail].Entry? ==> logTail in m.book && eh == m.book[logTail].hash
    {
      hide Wired;
      hide Ready;
      hide ArenaInv;
      hide FromLE;
      hide Phys;
      hide MemInv;
      hide SlotField;
      ReadyParts(logHead);
      Sizes();
      TailSegment(hashFn, m, lay, logTail, logHead, inserts);
      var a := Phys(logTail, data.Length);
      TailHeader(hashFn, m, lay, logTail, logHead, inserts, a);
      slot, size, eh := U(a + SLOT_AT, 4), U(a + BLOCK_AT, 4), U(a + HASH_AT, 8);
    }

    /** Is the entry at the tail the one its slot points at? */
    method LiveAtTail(slot: nat, eh: nat) returns (b: bool)
      requires Ready(logHead) && logTail in lay && lay[logTail].Entry? && logTail in m.book
      requires slot == SlotField(m.data, logTail) && eh == m.book[logTail].hash && |m.hash| == |m.off|
      ensures b <==> logTail in Indexed(m)
      ensures b ==> slot < |m.hash| && m.off[slot] == logTail && m.hash[slot] != EMPTY
    {
      hide Wired;
      hide Ready;
      hide ArenaInv;
      hide MemInv;
      hide SlotField;
      hide Indexed;
      ReadyParts(logHead);
      Sizes();
      LiveMeansIndexed(hashFn, m, lay, logTail, logHead, inserts);
      b := slot < hash.Length && off[slot] == logTail && hash[slot] == eh;
    }

    /** A reader may have set the reference bit at any moment. */
    method ReadHint(slot: nat) returns (b: bool)
      requires slot < hints.Length
      ensures hints[slot] ==> b
    {
      b := hints[slot];
      if !b {
        b := *;
      }
    }

    /** The stores both second chances end with: the slot announces the record at the head, then
        head and tail move on. */
    method AnnounceAtHead(slot: nat, size: nat, ghost r: Rec)
      requires Wired() && slot < hash.Length && m.tailPub == logTail
      requires Legal(m, Publish(logHead, r)) && Legal(m.(book := m.book[logHead := r]), OffStore(slot, logHead))
      modifies this`m, this`trace, this`tailPub, this`logHead, this`logTail, hints, off
      ensures Wired() && old(trace) <= trace
      ensures logTail == old(logTail) + size && logHead == old(logHead) + size
      ensures |old(m).off| == hash.Length
      ensures m == old(m).(book := old(m).book[old(logHead) := r], off := old(m).off[slot := old(logHead)],
                           tailPub := logTail)
      ensures slot < hints.Length && hints[..] == old(hints[..])[slot := false]
    {
      hide Wired;
      hide Legal;
      hide MemInv;
      Sizes();
      Publishing(logHead, r);
      Sizes();
      hints[slot] := false;
      StoreOff(slot, logHead);
      Sizes();
      logHead := logHead + size;
      logTail := logTail + size;
      StoreTail(logTail);
    }

    /** Zero-copy second chance: the record at the tail is published one lap ahead, where it
        already is. */
    method Republish(slot: nat, size: nat)
      requires Ready(logHead) && logTail < logHead && |m.hash| == |m.off| && |m.data| > 0
      requires logTail in lay && lay[logTail] == Entry(size) && logTail in m.book
      requires slot < hash.Length && slot < |m.hash| && m.hash[slot] != EMPTY && m.off[slot] == logTail
      requires Phys(logHead, |m.data|) == Phys(logTail, |m.data|)
      modifies this`m, this`trace, this`tailPub, this`logHead, this`logTail, this`lay, hints, off
      ensures Ready(logHead) && old(trace) <= trace
      ensures logTail == old(logTail) + size && logHead == old(logHead) + size
      ensures |m.hash| == |m.off| && KeysDiffer(m) && KeysDiffer(old(m)) && View(m) == View(old(m))
      ensures Drifts(old(m), m, {})
      ensures m == old(m).(book := old(m).book[old(logHead) := old(m).book[old(logTail)]], off := m.off,
                           tailPub := logTail)
      ensures m.off == old(m).off[slot := old(logHead)] && hints[..] == old(hints[..])[slot := false]
      ensures lay == (old(lay) - {old(logTail)})[old(logHead) := Entry(size)]
    {
      hide Wired;
      hide Ready;
      hide ArenaInv;
      hide Count;
      hide IndexedBytes;
      hide MemInv;
      hide View;
      hide KeysDiffer;
      hide Indexed;
      hide Legal;
      hide Holds;
      hide Phys;
      hide Current;
      hide SegOk;
      hide FreeBlock;
      hide SlotField;
      hide SeqField;
      hide LogInv;
      hide BytesInv;
      hide IndexInv;
      hide Reappends;
      hide Drifts;
      ReadyParts(logHead);
      Sizes();
      ghost var m0, t, h := m, logTail, logHead;
      HeadIsFresh(hashFn, m, lay, t, h, inserts);
      SlotsAllBound(hashFn, m, lay, t, h, inserts);
      SlotAt(hashFn, m, lay, t, h, inserts, slot);
      RepublishHolds(m, t, h);
      CopyMayBeAnnounced(m0, m0.(book := m0.book[h := m0.book[t]]), t, h, slot);
      CopyMayBePublished(m0, m0, t, h);
      AnnounceAtHead(slot, size, m.book[t]);
      Sizes();
      RepublishInPlace(hashFn, m0, m, lay, t, h, inserts, slot);
      Reappended(hashFn, m0, m, lay, t, h, inserts, slot);
      lay := (lay - {t})[h := Entry(size)];
      AgainDrifts(m0, m, slot, h);
      ReadyFromParts(logHead);
    }

    /** Second chance by copying the record to the head. */
    method CopyTail(slot: nat, size: nat)
      requires Ready(logHead) && logTail < logHead && |m.hash| == |m.off| && |m.data| == data.Length > 0
      requires logTail in lay && lay[logTail] == Entry(size) && logTail in m.book
      requires slot < hash.Length && slot < |m.hash| && m.hash[slot] != EMPTY && m.off[slot] == logTail
      requires logHead + size <= logTail + |m.data| && Phys(logHead, |m.data|) + size <= |m.data|
      modifies this`m, this`trace, this`tailPub, this`logHead, this`logTail, this`lay, hints, off, data
      ensures Ready(logHead) && old(trace) <= trace
      ensures logTail == old(logTail) + size && logHead == old(logHead) + size
      ensures |m.hash| == |m.off| && KeysDiffer(m) && KeysDiffer(old(m)) && View(m) == View(old(m))
      ensures Drifts(old(m), m, {})
      ensures m == old(m).(book := old(m).book[old(logHead) := old(m).book[old(logTail)]], off := m.off,
                           data := m.data, tailPub := logTail)
      ensures m.off == old(m).off[slot := old(logHead)] && hints[..] == old(hints[..])[slot := false]
      ensures |m.data| == |old(m).data| && lay == (old(lay) - {old(logTail)})[old(logHead) := Entry(size)]
    {
      hide *;
      ReadyParts(logHead);
      Sizes();
      ghost var m0, t, h := m, logTail, logHead;
      HeadIsFresh(hashFn, m, lay, t, h, inserts);
      SlotsAllBound(hashFn, m, lay, t, h, inserts);
      CopyMayStart(hashFn, m, lay, t, h, inserts, slot, size);
      CopyRecord(Phys(logTail, data.Length), h, Phys(logHead, data.Length), size, slot, m.book[t]);
      Sizes();
      ghost var segs := lay;
      lay := (lay - {t})[h := Entry(size)];
      AnnounceAtHead(slot, size, m.book[t]);
      Sizes();
      CopyDone(hashFn, m0, m, segs, t, h, inserts, slot, size);
      AgainDrifts(m0, m, slot, h);
      ReadyFromParts(logHead);
    }

    /** Which second chance the indexed entry at the tail gets: none only if its bit is not set, the budget is spent
        or no way is open. */
    method ChooseChance(slot: nat, size: nat, budget: nat) returns (c: Chance)
      requires slot < hints.Length && logTail <= logHead <= logTail + data.Length && data.Length > 0
      requires size <= data.Length
      ensures hints[slot] && budget > 0 && WayOpen(logHead, logTail, size, data.Length) ==> !c.NoChance?
      ensures c.InPlace? ==> budget > 0 && Phys(logHead, data.Length) == Phys(logTail, data.Length)
      ensures c.ByCopy? ==>
                budget > 0 && logHead + size <= logTail + data.Length &&
                Phys(logHead, data.Length) + size <= data.Length
    {
      hide Phys;
      var protect := ReadHint(slot);
      if protect && budget > 0 {
        var hp, phys := Phys(logHead, data.Length), Phys(logTail, data.Length);
        var freeBytes := data.Length - (logHead - logTail);
        if hp == phys && size <= data.Length {
          return InPlace;
        }
        if freeBytes >= size && hp + size <= data.Length && hp != phys {
          return ByCopy;
        }
      }
      return NoChance;
    }

    /** Drops the indexed entry at the tail. */
    method EvictTail(slot: nat, size: nat, ghost budget: nat)
      requires Ready(logHead) && logTail < logHead && |m.hash| == |m.off|
      requires logTail in lay && lay[logTail] == Entry(size) && logTail in m.book
      requires slot < hash.Length && slot < |m.hash| && m.hash[slot] != EMPTY && m.off[slot] == logTail
      modifies this`m, this`trace, this`tailPub, this`logTail, this`lay, this`live, this`liveBytes,
               hash, off, hints, data
      ensures Ready(logHead) && old(trace) <= trace
      ensures DropStep(old(m), old(lay), old(logTail), logHead, budget, m, logTail, logHead, budget)
      ensures lay == old(lay) - {old(logTail)} && live + 1 == old(live)
      ensures |old(m).hash| == |old(m).off| && |m.hash| == |m.off| && |old(m).data| > 0
      ensures !(slot < |old(hints[..])| && old(hints[..])[slot] && budget > 0 &&
                WayOpen(logHead, old(logTail), size, |old(m).data|)) ==>
                Passes(old(m), old(hints[..]), old(lay), old(logTail), logHead, budget,
                       m, hints[..], lay, logTail, logHead, budget)
    {
      hide MarksStay;
      hide Passes;
      hide WayOpen;
      hide Count;
      hide Wired;
      hide Ready;
      hide View;
      hide KeysDiffer;
      hide Indexed;
      hide DropStep;
      hide Evicts;
      hide Drifts;
      ghost var m0, lay0, t, bits0 := m, lay, logTail, hints[..];
      UnlinkSlot(slot, logHead);
      EvictedTail(m0, m, t);
      ghost var m1 := m;
      PassTail(size);
      PassIsDropStep(m0, lay0, t, logHead, budget, m1, m, logTail);
      if !(slot < |bits0| && bits0[slot] && budget > 0 && WayOpen(logHead, t, size, |m0.data|)) {
        EvictionPasses(m0, bits0, lay0, t, logHead, budget, m1, hints[..], m, logTail, slot);
      }
    }

    /** Passes a gap, a pad or an entry that is no longer indexed. */
    method PassDead(size: nat, ghost budget: nat)
      requires Ready(logHead) && logTail < logHead && |m.hash| == |m.off|
      requires logTail in lay && lay[logTail].len == size && logTail !in Indexed(m)
      modifies this`m, this`trace, this`tailPub, this`logTail, this`lay
      ensures Ready(logHead) && old(trace) <= trace
      ensures DropStep(old(m), old(lay), old(logTail), logHead, budget, m, logTail, logHead, budget)
      ensures |old(m).hash| == |old(m).off|
      ensures Advanced(old(m), old(lay), old(logTail), logHead, budget, m, lay, logTail, logHead, budget)
      ensures |m.hash| == |m.off| && |old(m).data| > 0
      ensures Passes(old(m), hints[..], old(lay), old(logTail), logHead, budget,
                     m, hints[..], lay, logTail, logHead, budget)
    {
      hide Passes;
      hide Wired;
      hide Ready;
      hide View;
      hide KeysDiffer;
      hide Indexed;
      hide DropStep;
      hide Evicts;
      hide Drifts;
      ghost var m0, lay0, t := m, lay, logTail;
      ReadyParts(logHead);
      Sizes();
      NothingDrifts(m0);
      PassTail(size);
      PassIsDropStep(m0, lay0, t, logHead, budget, m0, m, logTail);
      DeadIsAdvanced(m0, lay0, t, logHead, budget, m, lay, logTail);
      DeadPasses(m0, hints[..], lay0, t, logHead, budget, m, logTail);
    }

    /** Publishes the entry at the tail again, in the chosen way. */
    method KeepTail(c: Chance, slot: nat, size: nat, ghost budget: nat)
      requires Ready(logHead) && logTail < logHead && |m.hash| == |m.off| && |m.data| == data.Length > 0
      requires logTail in lay && lay[logTail] == Entry(size) && logTail in m.book && logHead !in m.book
      requires slot < hash.Length && slot < |m.hash| && m.hash[slot] != EMPTY && m.off[slot] == logTail
      requires !c.NoChance?
      requires c.InPlace? ==> Phys(logHead, data.Length) == Phys(logTail, data.Length)
      requires c.ByCopy? ==>
                 logHead + size <= logTail + data.Length && Phys(logHead, data.Length) + size <= data.Length
      modifies this`m, this`trace, this`tailPub, this`logHead, this`logTail, this`lay, hints, off, data
      ensures Ready(logHead) && old(trace) <= trace
      ensures DropStep(old(m), old(lay), old(logTail), old(logHead), budget + 1, m, logTail, logHead, budget)
      ensures lay == (old(lay) - {old(logTail)})[old(logHead) := Entry(size)]
      ensures |old(m).hash| == |old(m).off| && |m.hash| == |m.off| && |old(m).data| > 0
      ensures Passes(old(m), old(hints[..]), old(lay), old(logTail), old(logHead), budget + 1,
                     m, hints[..], lay, logTail, logHead, budget)
    {
      hide Passes;
      hide Wired;
      hide Ready;
      hide View;
      hide KeysDiffer;
      hide Indexed;
      hide DropStep;
      hide Phys;
      hide Drifts;
      ReadyParts(logHead);
      Sizes();
      ghost var m0, lay0, t, h, bits0 := m, lay, logTail, logHead, hints[..];
      if c.InPlace? {
        Republish(slot, size);
      } else {
        CopyTail(slot, size);
      }
      AgainIsDropStep(m0, lay0, t, h, budget, m, logTail, logHead);
      ChancePasses(m0, bits0, lay0, t, h, budget + 1, m, logTail, logHead, slot);
    }

    /** The indexed entry at the tail: kept while the budget lasts and there is a way, else dropped. */
    method DropLive(slot: nat, size: nat, budget: nat) returns (left: nat)
      requires Ready(logHead) && logTail < logHead && |m.hash| == |m.off| && |m.data| == data.Length > 0
      requires logTail in lay && lay[logTail] == Entry(size) && logTail in m.book && logHead !in m.book
      requires slot < hash.Length && slot < |m.hash| && m.hash[slot] != EMPTY && m.off[slot] == logTail
      requires hints.Length == hash.Length && logHead <= logTail + data.Length && logHead !in lay && size <= data.Length
      modifies this`m, this`trace, this`tailPub, this`logHead, this`logTail, this`lay, this`live, this`liveBytes,
               hash, off, hints, data
      ensures Ready(logHead) && old(trace) <= trace
      ensures DropStep(old(m), old(lay), old(logTail), old(logHead), budget, m, logTail, logHead, left)
      ensures |old(m).hash| == |old(m).off|
      ensures Advanced(old(m), old(lay), old(logTail), old(logHead), budget, m, lay, logTail, logHead, left)
      ensures |m.hash| == |m.off| && |old(m).data| > 0 && live <= old(live) <= live + 1
      ensures Passes(old(m), old(hints[..]), old(lay), old(logTail), old(logHead), budget,
                     m, hints[..], lay, logTail, logHead, left)
    {
      hide Passes;
      hide WayOpen;
      hide Wired;
      hide Ready;
      hide Phys;
      hide DropStep;
      hide Advanced;
      ghost var m0, lay0, t, h := m, lay, logTail, logHead;
      var chance := ChooseChance(slot, size, budget);
      if chance.NoChance? {
        left := budget;
        EvictTail(slot, size, budget);
      } else {
        left := budget - 1;
        KeepTail(chance, slot, size, budget - 1);
      }
      LiveIsAdvanced(m0, lay0, t, h, budget, m, lay, logTail, logHead, left, Entry(size));
    }

    /** Advances the tail past one segment. An indexed entry whose reference bit is set is published
        again at the head instead of dropped, while `budget` lasts and one of the two ways is open. */
    method DropTail(budget: nat) returns (left: nat)
      requires Ready(logHead) && logTail < logHead
      modifies this`m, this`trace, this`tailPub, this`logHead, this`logTail, this`lay, this`live, this`liveBytes,
               hash, off, hints, data
      ensures Ready(logHead) && old(trace) <= trace
      ensures DropStep(old(m), old(lay), old(logTail), old(logHead), budget, m, logTail, logHead, left)
      ensures left != budget ==> old(logTail) in old(lay) && !old(lay)[old(logTail)].Gap?
      ensures |old(m).hash| == |old(m).off|
      ensures Advanced(old(m), old(lay), old(logTail), old(logHead), budget, m, lay, logTail, logHead, left)
      ensures |m.hash| == |m.off| && |old(m).data| > 0 && live <= old(live) <= live + 1
      ensures Passes(old(m), old(hints[..]), old(lay), old(logTail), old(logHead), budget,
                     m, hints[..], lay, logTail, logHead, left)
    {
      hide *;
      ReadyParts(logHead);
      Sizes();
      TailSegment(hashFn, m, lay, logTail, logHead, inserts);
      HeadIsFresh(hashFn, m, lay, logTail, logHead, inserts);
      LogWithinLap(hashFn, m, lay, logTail, logHead, inserts);
      left := budget;
      var gap := GapAt(Phys(logTail, data.Length), data.Length);
      if gap != 0 {
        PassDead(gap, budget);
        return;
      }
      var slot, size, eh := ReadTail();
      if size == 0 || size > data.Length {
        assert false;
      }
      if slot != SLOT_PAD {
        var liveHere := LiveAtTail(slot, eh);
        if liveHere {
          left := DropLive(slot, size, budget);
          return;
        }
      }
      PassDead(size, budget);
    }

    // ------------------------------------------------------------ allocation

    /** Steps over a wrap gap at the head; nothing is written. */
    method SkipGap(gap: nat)
      requires Ready(logHead) && |m.data| == data.Length > 0
      requires gap == GapAt(Phys(logHead, data.Length), data.Length) != 0
      requires gap <= data.Length - (logHead - logTail)
      modifies this`logHead, this`lay
      ensures Ready(logHead) && logHead == old(logHead) + gap && lay == old(lay)[old(logHead) := Gap(gap)]
    {
      hide Wired;
      hide Ready;
      hide ArenaInv;
      hide Phys;
      hide SegOk;
      hide FreeBlock;
      hide SameOutside;
      hide View;
      ReadyParts(logHead);
      Sizes();
      GapFits(hashFn, m, lay, logTail, logHead, inserts);
      SegAppended(hashFn, m, m, lay, logTail, logHead, inserts, Gap(gap));
      logHead, lay := logHead + gap, lay[logHead := Gap(gap)];
      ReadyFromParts(logHead);
    }

    /** Writes a pad record over the n free bytes at position pos, where the log ends. */
    method PadBlock(pos: nat, n: nat)
      requires Ready(pos) && |m.data| == data.Length > 0
      requires n % 8 == 0 && HEADER <= n < TWO_32
      requires Phys(pos, data.Length) + n <= data.Length && n <= data.Length - (pos - logTail)
      modifies this`m, this`trace, this`lay, data
      ensures Ready(pos + n) && old(trace) <= trace
      ensures SameShape(old(m), m) && m == old(m).(data := m.data) && lay == old(lay)[pos := Pad(n)]
      ensures KeysDiffer(m) && KeysDiffer(old(m)) && View(m) == View(old(m))
    {
      hide Wired;
      hide Ready;
      hide ArenaInv;
      hide MemInv;
      hide Phys;
      hide SegOk;
      hide FreeBlock;
      hide SameOutside;
      hide BlockWritable;
      hide View;
      hide KeysDiffer;
      hide SlotField;
      hide BlockField;
      hide Count;
      hide IndexedBytes;
      ReadyParts(pos);
      Sizes();
      BlockFits(hashFn, m, lay, logTail, pos, inserts, n);
      ghost var m0, lay0 := m, lay;
      lay := lay[pos := Pad(n)];
      WritePad(pos, Phys(pos, data.Length), n);
      Sizes();
      SegAppended(hashFn, m0, m, lay0, logTail, pos, inserts, Pad(n));
      ReadyFromParts(pos + n);
    }

    /** One tail advance on behalf of an allocation of n bytes. */
    method DropForRoom(n: nat, budget: nat, ghost m0: Mem) returns (left: nat)
      requires Ready(logHead) && Shrunk(m0, m) && logTail <= logHead && |m.data| == data.Length >= HEADER
      requires n > data.Length - (logHead - logTail) && n <= data.Length
      modifies this`m, this`trace, this`tailPub, this`logHead, this`logTail, this`lay, this`live, this`liveBytes,
               hash, off, hints, data
      ensures Ready(logHead) && old(trace) <= trace && Shrunk(m0, m)
      ensures Rank(n, data.Length, logTail, logHead, left) <
              Rank(n, data.Length, old(logTail), old(logHead), budget)
      ensures |old(m).hash| == |old(m).off| && |m.hash| == |m.off| && |old(m).data| > 0
      ensures Passes(old(m), old(hints[..]), old(lay), old(logTail), old(logHead), budget,
                     m, hints[..], lay, logTail, logHead, left)
    {
      hide Passes;
      hide Wired;
      hide Ready;
      hide ArenaInv;
      hide Phys;
      hide Shrunk;
      hide DropStep;
      hide Rank;
      hide View;
      ReadyParts(logHead);
      ghost var m1, lay1, t, h := m, lay, logTail, logHead;
      left := DropTail(budget);
      ShrunkByDrop(m0, m1, lay1, t, h, budget, m, logTail, logHead, left);
      DropLowersRankOf(hashFn, m1, lay1, t, h, inserts, budget, m, logTail, logHead, left, n);
    }

    /** Fills up to the end of the region: an implicit gap where no header fits, else a pad. */
    method WrapHead(n: nat, ghost budget: nat, ghost m0: Mem) returns (ghost g: Seg)
      requires Ready(logHead) && Shrunk(m0, m) && |m.data| == data.Length >= HEADER && logTail <= logHead
      requires Straddles(n, data.Length, logHead) && n <= data.Length && n < TWO_32
      requires data.Length - Phys(logHead, data.Length) <= data.Length - (logHead - logTail)
      modifies this`m, this`trace, this`logHead, this`lay, data
      ensures Ready(logHead) && old(trace) <= trace && Shrunk(m0, m)
      ensures Rank(n, data.Length, logTail, logHead, budget) < Rank(n, data.Length, logTail, old(logHead), budget)
      ensures !g.Entry? && Phys(old(logHead), data.Length) + g.len == data.Length && m == old(m).(data := m.data)
      ensures |m.data| == |old(m).data| && lay == old(lay)[old(logHead) := g] && logHead == old(logHead) + g.len
    {
      hide Wired;
      hide Ready;
      hide ArenaInv;
      hide Phys;
      hide Shrunk;
      hide Rank;
      hide View;
      ReadyParts(logHead);
      LogWithinLap(hashFn, m, lay, logTail, logHead, inserts);
      PadIsAligned(hashFn, m, lay, logTail, logHead, inserts);
      WrapLowersRank(n, data.Length, logTail, logHead, budget);
      var phys := Phys(logHead, data.Length);
      var gap := GapAt(phys, data.Length);
      if gap != 0 {
        SkipGap(gap);
        g := Gap(gap);
      } else {
        ghost var m1 := m;
        var pad := data.Length - phys;
        PadBlock(logHead, pad);
        g := Pad(pad);
        logHead := logHead + pad;
        ShrunkByData(m0, m1, m);
      }
    }

    /** Reserves a block for `need` bytes at the head, evicting from the tail until it fits, and no further. The
        block is not part of the log yet: the invariant holds up to its first byte. */
    method LogAlloc(need: nat) returns (pos: int)
      requires Ready(logHead) && HEADER <= need && Align8(need) < TWO_32 && HEADER <= data.Length
      modifies this`m, this`trace, this`tailPub, this`logHead, this`logTail, this`lay, this`live, this`liveBytes,
               hash, off, hints, data
      ensures old(trace) <= trace && Shrunk(old(m), m)
      ensures pos < 0 ==> Ready(logHead)
      ensures pos >= 0 ==> Ready(pos) && logHead == pos + Align8(need)
      ensures pos >= 0 ==> Phys(pos, data.Length) + Align8(need) <= data.Length &&
                           Align8(need) <= data.Length - (pos - logTail)
      ensures 2 * Align8(need) > data.Length ==> pos < 0
      ensures 2 * Align8(need) > data.Length || Roomy(Align8(need), data.Length, old(logTail), old(logHead)) ==>
                m == old(m) && live == old(live) && lay == old(lay) && logTail == old(logTail)
      ensures Roomy(Align8(need), data.Length, old(logTail), old(logHead)) ==> pos == old(logHead)
      ensures Obtainable(Align8(need), data.Length) ==> pos >= 0
      ensures old(logHead) == 0 ==> if 2 * Align8(need) <= data.Length then pos == 0 else logHead == 0
      ensures |old(m).hash| == |old(m).off| && |m.hash| == |m.off| && |old(m).data| > 0
      ensures RoomMade(Align8(need), LogState(old(m), old(hints[..]), old(lay), old(logTail), old(logHead)),
                       LogState(m, hints[..], lay, logTail, if pos >= 0 then pos else logHead), pos >= 0)
      ensures old(logTail) <= logTail && (logTail == old(logTail) ==> live == old(live))
      ensures 2 * Align8(need) > data.Length ==> hints[..] == old(hints[..]) && logHead == old(logHead)
    {
      hide *;
      var n, cap := Align8(need), data.Length;
      ghost var a, last: nat := LogState(m, hints[..], lay, logTail, logHead), 0;
      ReadyParts(logHead);
      Sizes();
      ShrunkRefl(hashFn, m, lay, logTail, logHead, inserts);
      LogWithinLap(hashFn, m, lay, logTail, logHead, inserts);
      AllocationTest(n, cap, logTail, logHead);
      ArenaIsSound(hashFn, m, hints[..], lay, logTail, logHead, inserts);
      SoundShape(a);
      RoomWalkBegins(n, a);
      RoomWalkEnds(n, a, a, SECOND_CHANCES, 0);
      if n > cap / 2 {
        return -1;
      }
      var budget: nat := SECOND_CHANCES;
      RankStartsBelowBound(n, cap, logTail, logHead);
      var guard: nat := 0;
      ghost var roomy := Roomy(n, cap, logTail, logHead);
      while guard < GUARD
        invariant roomy ==> guard == 0
        invariant guard == 0 ==> m == old(m) && live == old(live) && lay == old(lay)
        invariant guard == 0 ==> logTail == old(logTail) && logHead == old(logHead)
        invariant |a.m.hash| == |a.m.off| && |m.hash| == |m.off| && |a.m.data| == |m.data| == cap
        invariant RoomWalk(n, a, LogState(m, hints[..], lay, logTail, logHead), budget, last)
        invariant a.tail <= logTail && (logTail == a.tail ==> live == old(live))
        invariant guard + Rank(n, cap, logTail, logHead, budget) <= RankBound(n)
        invariant Ready(logHead) && old(trace) <= trace && Shrunk(old(m), m)
      {
        ReadyParts(logHead);
        Sizes();
        LogWithinLap(hashFn, m, lay, logTail, logHead, inserts);
        AllocationTest(n, cap, logTail, logHead);
        var phys := Phys(logHead, cap);
        var freeBytes := cap - (logHead - logTail);
        var wraps := GapAt(phys, cap) != 0 || phys + n > cap;
        ghost var y, left := LogState(m, hints[..], lay, logTail, logHead), budget;
        ArenaIsSound(hashFn, m, hints[..], lay, logTail, logHead, inserts);
        if freeBytes < (if wraps then cap - phys else n) {
          budget := DropForRoom(n, budget, old(m));
          ReadyParts(logHead);
          Sizes();
          ghost var z := LogState(m, hints[..], lay, logTail, logHead);
          ArenaIsSound(hashFn, m, hints[..], lay, logTail, logHead, inserts);
          RoomWalkPasses(n, a, y, z, left, last, budget);
          last := y.tail;
        } else if wraps {
          ghost var g := WrapHead(n, budget, old(m));
          ghost var z := LogState(m, hints[..], lay, logTail, logHead);
          RoomWalkFills(n, a, y, z, left, last, g);
        } else {
          RoomWalkEnds(n, a, y, left, last);
          pos := logHead;
          logHead := logHead + n;
          return;
        }
        guard := guard + 1;
      }
      RoomWalkEnds(n, a, LogState(m, hints[..], lay, logTail, logHead), budget, last);
      return -1;
    }

    // ------------------------------------------------------------ operations

    /** The ring holds the tail end of the history. */
    ghost predicate RingOk()
      reads this`ringHead, this`history, ring
    {
      RingInv(ring[..], history) && ringHead == |history|
    }

    /** The state between two operations. */
    ghost predicate Valid()
      reads this`m, this`trace, this`tailPub, this`logTail, this`logHead, this`live, this`liveBytes, this`inserts
      reads this`lay, this`ringHead, this`history, this`sets, hash, off, data, ring
    {
      && Ready(logHead) && RingOk() && Settled(m) && HEADER <= data.Length
      && |m.hash| == |m.off| && KeysDiffer(m) && BookOk()
    }

    lemma PartsOfValid()
      requires Valid()
      ensures Ready(logHead) && Wired() && ArenaInv(hashFn, m, lay, logTail, logHead, inserts)
      ensures RingOk() && Settled(m) && BookOk() && Origin(m.book, logHead) && Written(m.book, sets)
      ensures |m.hash| == |m.off| == hash.Length == off.Length == hints.Length > 0 && KeysDiffer(m)
      ensures |m.data| == data.Length && LEAD < HEADER <= data.Length && m.tailPub == tailPub
      ensures live == Count(m.hash) && 0 < maxLive == hash.Length * 3 / 4
      ensures m.hash == hash[..] && m.off == off[..] && m.data == data[..]
    {
      hide ArenaInv;
      hide KeysDiffer;
      hide Settled;
      hide RingOk;
      hide MemInv;
      hide Run;
      hide LegalRun;
      hide Origin;
      hide Written;
    }

    /** What makes the bindings well defined. */
    lemma ShapeOfValid()
      requires Valid()
      ensures |m.hash| == |m.off| == hash.Length && KeysDiffer(m) && data.Length > 0
    {
      hide KeysDiffer;
      hide ArenaInv;
      hide Settled;
      hide RingOk;
      hide MemInv;
      hide Run;
      hide LegalRun;
    }

    /** The first record ever written lies at position 0, and every record was written by a set. */
    ghost predicate BookOk()
      reads this`m, this`logHead, this`sets
    {
      Origin(m.book, logHead) && Written(m.book, sets)
    }

    /** Appends one invalidation record: the record first, then the head that publishes it. */
    method RingAppend(h: nat, version: nat, writerId: nat)
      requires RingOk()
      modifies this`ringHead, this`history, ring
      ensures RingOk() && history == old(history) + [RingRec(h, version, writerId)]
    {
      AppendKeepsRingInv(ring[..], history, RingRec(h, version, writerId));
      ring[Phys(ringHead, ring.Length)] := RingRec(h, version, writerId);
      assert ring[..] == old(ring[..])[Phys(|history|, ring.Length) := RingRec(h, version, writerId)];
      history := history + [RingRec(h, version, writerId)];
      ringHead := ringHead + 1;
    }

    /** The invalidations from `cursor` on, at most max of them; `next` is where to go on. Tells when
        the record at the cursor is out of reach, and then reads the oldest ones that are left. */
    method RingRead(cursor: nat, max: nat) returns (next: nat, head: nat, wrapped: bool, got: seq<(nat, nat)>)
      requires RingOk()
      ensures wrapped <==> cursor > |history| || |history| - cursor >= ring.Length
      ensures head == |history| && |got| <= max && |got| <= next <= head
      ensures Exact(history, next - |got|, got)
      ensures !wrapped ==> next == cursor + |got|
      ensures wrapped ==> next - |got| == if head > ring.Length then head - ring.Length else 0
      ensures |got| == max || next == head
    {
      hide Phys;
      head := ringHead;
      wrapped := cursor > head || head - cursor >= ring.Length;
      var from := cursor;
      if wrapped {
        from := if head > ring.Length then head - ring.Length else 0;
      }
      var p: nat := from;
      got := [];
      while p < head && |got| < max
        invariant p == from + |got| <= head && |got| <= max && Exact(history, from, got)
      {
        var r := ring[Phys(p, ring.Length)];
        assert ring[..][Phys(p, ring.Length)] == history[p];
        got := got + [(r.hash, r.writerId)];
        p := p + 1;
      }
      next := p;
      var head2 := ringHead;
      if !wrapped && head2 - from >= ring.Length {
        wrapped := true;
      }
    }

    /** Writes the record of a set into its block; then it may be announced in `slot`. */
    method WriteFresh(pos: nat, slot: nat, ghost r: Rec, head: seq<byte>, key: seq<byte>, val: seq<byte>)
      requires Ready(pos) && |m.hash| == |m.off| == hash.Length && |m.data| == data.Length > 0
      requires slot < |m.hash| && m.hash[slot] == EMPTY
      requires r.Fits() && r.key == key && r.val == val && r.id == inserts + 1
      requires Phys(pos, data.Length) + r.blockSize <= data.Length && r.blockSize <= data.Length - (pos - logTail)
      requires head == r.Head()[..HEADER - LEAD - 1] && r.tail == m.data[Phys(pos, data.Length) + HEADER - 1]
      modifies this`m, this`trace, data
      ensures Wired() && old(trace) <= trace && |m.hash| == |m.off| == hash.Length && |m.data| == data.Length > 0
      ensures m == old(m).(data := m.data) && SameOutside(old(m).data, m.data, pos, r.blockSize)
      ensures SlotField(m.data, pos) == slot && SeqField(m.data, pos) % 2 == 0
      ensures Legal(m, Publish(pos, r)) && Legal(m.(book := m.book[pos := r]), OffStore(slot, pos))
      ensures Legal(m.(book := m.book[pos := r], off := m.off[slot := pos]), HashStore(slot, r.hash))
    {
      hide Wired;
      hide Ready;
      hide ArenaInv;
      hide MemInv;
      hide Phys;
      hide SameOutside;
      hide SlotField;
      hide SeqField;
      hide BlockWritable;
      hide Holds;
      hide Legal;
      hide Rec.Fits;
      hide Rec.Head;
      hide Rec.Image;
      ReadyParts(pos);
      FitsAligned(r);
      PayloadFits(r);
      SlotIsSmall(hashFn, m, lay, logTail, pos, inserts, slot);
      BlockFits(hashFn, m, lay, logTail, pos, inserts, r.blockSize);
      ghost var m0 := m;
      WriteRecord(pos, Phys(pos, data.Length), slot, r, head, key, val);
      Sizes();
      FreshMayBeAnnounced(hashFn, m0, m, lay, logTail, pos, inserts, slot, r);
    }

    /** Writes the record of a set into its block and announces it in `slot`. */
    method PutRecord(pos: nat, slot: nat, ghost r: Rec, head: seq<byte>, key: seq<byte>, val: seq<byte>, hv: nat)
      requires Ready(pos) && |m.hash| == |m.off| == hash.Length && |m.data| == data.Length > 0 && hv == r.hash
      requires slot < |m.hash| && m.hash[slot] == EMPTY
      requires r.Fits() && r.key == key && r.val == val && r.id == inserts + 1
      requires Phys(pos, data.Length) + r.blockSize <= data.Length && r.blockSize <= data.Length - (pos - logTail)
      requires head == r.Head()[..HEADER - LEAD - 1] && r.tail == m.data[Phys(pos, data.Length) + HEADER - 1]
      modifies this`m, this`trace, hash, off, hints, data
      ensures Wired() && old(trace) <= trace && |m.data| == data.Length > 0
      ensures |old(m).hash| == |old(m).off| == hash.Length
      ensures SameOutside(old(m).data, m.data, pos, r.blockSize)
      ensures SlotField(m.data, pos) == slot && SeqField(m.data, pos) % 2 == 0
      ensures m == old(m).(data := m.data, book := old(m).book[pos := r], off := old(m).off[slot := pos],
                           hash := old(m).hash[slot := hv])
      ensures MemInv(m) && hints.Length == hash.Length && hints[slot]
    {
      hide *;
      WriteFresh(pos, slot, r, head, key, val);
      AnnounceFresh(pos, slot, r, hv);
      Sizes();
    }

    /** Places a record: writes it, announces it and counts it. */
    method InsertRecord(pos: nat, slot: nat, ghost r: Rec, head: seq<byte>, key: seq<byte>, val: seq<byte>,
                        hv: nat, size: nat)
      requires Ready(pos) && |m.hash| == |m.off| == hash.Length && |m.data| == data.Length > 0
      requires FirstFree(m.hash, hv, slot) && key !in Keys(m) && hv == HashOf(hashFn, key) == r.hash
      requires r.Fits() && r.key == key && r.val == val && r.blockSize == size && r.id == inserts + 1
      requires Phys(pos, data.Length) + size <= data.Length && size <= data.Length - (pos - logTail)
      requires head == r.Head()[..HEADER - LEAD - 1] && HEADER <= size
      requires r.tail == m.data[Phys(pos, data.Length) + HEADER - 1]
      requires logHead == pos + size
      modifies this`m, this`trace, this`lay, this`live, this`liveBytes, this`inserts, hash, off, hints, data
      ensures Ready(logHead) && old(trace) <= trace && inserts == old(inserts) + 1
      ensures m.book == old(m).book[pos := r] && pos !in old(m).book
      ensures SameShape(old(m), m) && KeysDiffer(old(m)) && KeysDiffer(m)
      ensures View(m) == View(old(m))[key := r] && Drifts(old(m), m, {r})
      ensures Indexed(m) <= Indexed(old(m)) + {pos} && lay == old(lay)[pos := Entry(size)] && live == old(live) + 1
      ensures Marked(m, hints[..], pos)
    {
      hide *;
      ReadyParts(pos);
      SlotIsFree(m.hash, hv, slot);
      HeadIsFresh(hashFn, m, lay, logTail, pos, inserts);
      SlotsAllBound(hashFn, m, lay, logTail, pos, inserts);
      ghost var m0, lay0 := m, lay;
      PutRecord(pos, slot, r, head, key, val, hv);
      Inserting(hashFn, m0, m, lay0, logTail, pos, inserts, slot, r);
      OneMoreIndexed(m0, m, slot, pos);
      HashIsNotEmpty(hashFn, key);
      Sizes();
      FreshIsMarked(m, hints[..], slot, pos);
      InsertDrifts(m0, m, slot, pos, r);
      lay := lay[pos := Entry(size)];
      inserts := inserts + 1;
      live := live + 1;
      liveBytes := liveBytes + size;
      ReadyFromParts(logHead);
    }

    /** Position first, hash last, then the reference bit of a fresh entry. */
    method AnnounceFresh(pos: nat, slot: nat, ghost r: Rec, hv: nat)
      requires Wired() && slot < hash.Length && |m.off| == |m.hash| == hash.Length && hv == r.hash && |m.data| > 0
      requires Legal(m, Publish(pos, r)) && Legal(m.(book := m.book[pos := r]), OffStore(slot, pos))
      requires Legal(m.(book := m.book[pos := r], off := m.off[slot := pos]), HashStore(slot, hv))
      modifies this`m, this`trace, hash, off, hints
      ensures Wired() && old(trace) <= trace
      ensures |old(m).off| == |old(m).hash| == hash.Length
      ensures m == old(m).(book := old(m).book[pos := r], off := old(m).off[slot := pos],
                           hash := old(m).hash[slot := hv])
      ensures hints.Length == hash.Length && hints[slot]
    {
      hide Wired;
      hide Legal;
      hide MemInv;
      Sizes();
      Publishing(pos, r);
      Sizes();
      StoreOff(slot, pos);
      Sizes();
      StoreHash(slot, hv);
      Sizes();
      hints[slot] := true;
    }

    /** The end of an operation: what it overwrote, deleted or evicted is retired. */
    ghost method Finish()
      requires Ready(logHead) && RingOk() && HEADER <= data.Length && BookOk()
      modifies this`m, this`trace
      ensures Valid() && old(trace) <= trace && m == old(m).(retired := m.retired)
      ensures SameShape(old(m), m) && |m.hash| == |m.off| && KeysDiffer(old(m)) && KeysDiffer(m)
      ensures View(m) == View(old(m))
    {
      hide Wired;
      hide Ready;
      hide ArenaInv;
      hide MemInv;
      hide Settled;
      hide RingOk;
      hide View;
      hide KeysDiffer;
      hide BookIds;
      hide IndexedIds;
      hide Legal;
      hide Count;
      hide IndexedBytes;
      ReadyParts(logHead);
      Sizes();
      RetireIsLegal(m);
      ghost var m0 := m;
      Retiring(BookIds(m) - IndexedIds(m));
      Sizes();
      RetireSettles(hashFn, m0, m, lay, logTail, logHead, inserts);
      ReadyFromParts(logHead);
    }

    /** Keeps the index below its load ceiling, as far as the guard allows. Below the ceiling it does
        nothing, and it stops right below. It gets there when the segments and the second chances fit under the
        guard, and it changes nothing but the tail when only dead segments lie within reach of the guard. */
    method RelieveIndex()
      requires Ready(logHead)
      modifies this`m, this`trace, this`tailPub, this`logHead, this`logTail, this`lay, this`live, this`liveBytes,
               hash, off, hints, data
      ensures Ready(logHead) && old(trace) <= trace && Shrunk(old(m), m)
      ensures (old(logHead) == 0 ==> logHead == 0) && old(logTail) <= logTail
      ensures |old(m).hash| == |old(m).off|
      ensures Relieved(old(m), old(lay), old(logTail), old(logHead), m, lay, logTail, logHead,
                       old(live) < maxLive, live < maxLive, GuardMax(hash.Length))
      ensures |m.hash| == |m.off| && |old(m).data| > 0
      ensures IndexRelieved(LogState(old(m), old(hints[..]), old(lay), old(logTail), old(logHead)),
                            LogState(m, hints[..], lay, logTail, logHead), old(live), live, maxLive)
    {
      hide *;
      ReadyParts(logHead);
      Sizes();
      ShrunkRefl(hashFn, m, lay, logTail, logHead, inserts);
      TailIsPublished(hashFn, m, lay, logTail, logHead, inserts);
      SlotsPointAtRecords(hashFn, m, lay, logTail, logHead, inserts);
      var budget: nat := SECOND_CHANCES;
      var guard: nat, guardMax: nat := 0, GuardMax(hash.Length);
      ghost var m0, lay0, t0, h0 := m, lay, logTail, logHead;
      ghost var a, last: nat := LogState(m, hints[..], lay, logTail, logHead), 0;
      ArenaIsSound(hashFn, m, hints[..], lay, logTail, logHead, inserts);
      SoundShape(a);
      WalkBegins(a);
      NoRounds(m, lay, logTail, logHead, guardMax);
      while live >= maxLive && logTail < logHead && guard < guardMax
        invariant Ready(logHead) && old(trace) <= trace && Shrunk(old(m), m) && guard <= guardMax
        invariant (old(logHead) == 0 ==> logHead == 0) && t0 <= logTail
        invariant |m.hash| == |m.off| && |m.data| == |a.m.data|
        invariant Walk(a, LogState(m, hints[..], lay, logTail, logHead), budget, last) && OnlyEntries(a, lay)
        invariant logTail > t0 ==> old(live) >= maxLive && live + 1 >= maxLive
        invariant old(live) < maxLive ==> guard == 0
        invariant guard == 0 ==> m == m0 && lay == lay0 && logTail == t0 && logHead == h0 && live == old(live)
        invariant |lay| + budget + guard == |lay0| + SECOND_CHANCES
        invariant DeadRounds(m0, lay0, t0, h0, m, lay, logTail, logHead, guard, guardMax)
        decreases guardMax - guard
      {
        ghost var m1, lay1, t, h, b := m, lay, logTail, logHead, budget;
        ghost var y := LogState(m, hints[..], lay, logTail, logHead);
        ReadyParts(logHead);
        ArenaIsSound(hashFn, m, hints[..], lay, logTail, logHead, inserts);
        SlotsPointAtRecords(hashFn, m, lay, logTail, logHead, inserts);
        TailSegment(hashFn, m, lay, logTail, logHead, inserts);
        budget := DropTail(budget);
        ghost var z := LogState(m, hints[..], lay, logTail, logHead);
        PassedShape(m1, lay1, t, h, b, m, logTail, logHead, budget);
        WalkGoesOn(a, y, z, b, last, budget);
        PassedEntries(a, y, z, b, budget);
        last := t;
        AdvanceCounts(m1, lay1, t, h, b, m, lay, logTail, logHead, budget);
        OneMoreRound(m0, lay0, t0, h0, m1, lay1, t, h, b, m, lay, logTail, logHead, budget, guard, guardMax);
        ShrunkByDrop(old(m), m1, lay1, t, h, b, m, logTail, logHead, budget);
        guard := guard + 1;
      }
      ReadyParts(logHead);
      if |lay| == 0 || logTail >= logHead {
        NothingIndexed(hashFn, m, lay, logTail, logHead, inserts);
      }
      WalkRelieves(a, LogState(m, hints[..], lay, logTail, logHead), budget, last, old(live), live, maxLive);
      RoundsEnd(m0, lay0, t0, h0, m, lay, logTail, logHead, guard, old(live) < maxLive, live < maxLive, guardMax,
                budget);
    }

    /** Takes the predecessor of `key` out of the index; finds the slot again, since the entries
        behind it may have shifted. */
    method RemovePredecessor(pos: nat, slot0: nat, hv: nat, key: seq<byte>) returns (slot: nat)
      requires Ready(pos) && hv == HashOf(hashFn, key) && FirstFree(m.hash, hv, slot0) && logHead >= pos
      requires |m.hash| == |m.off| == hash.Length && |m.data| == data.Length > 0 && KeysDiffer(m)
      modifies this`m, this`trace, this`live, this`liveBytes, hash, off, hints, data
      ensures Ready(pos) && old(trace) <= trace
      ensures m == old(m).(hash := m.hash, off := m.off, data := m.data) && SameShape(old(m), m)
      ensures FirstFree(m.hash, hv, slot) && key !in Keys(m)
      ensures KeysDiffer(m) && (View(m) == View(old(m)) || View(m) == View(old(m)) - {key})
      ensures Indexed(m) <= Indexed(old(m)) && live <= old(live) <= live + 1 && Drifts(old(m), m, {})
    {
      hide Wired;
      hide Ready;
      hide ArenaInv;
      hide MemInv;
      hide FirstFree;
      hide View;
      hide KeysDiffer;
      hide Keys;
      hide HashOf;
      hide Indexed;
      hide SlotFor;
      hide Drifts;
      slot := slot0;
      ghost var m1 := m;
      ReadyParts(pos);
      NothingDrifts(m);
      var existing := FindSlot(hv, key, pos);
      if existing >= 0 {
        SlotForParts(m, existing, key);
        UnlinkSlot(existing, pos);
        ReadyParts(pos);
        var again := FindFreeSlot(hv);
        if again < 0 {
          assert false;
        }
        slot := again;
        NoKeyLeft(m1, m, key);
      }
    }

    /** Takes the predecessor of `key` out of the index and writes the new record. */
    method ReplaceEntry(pos: nat, slot0: nat, need: nat, hv: nat, key: seq<byte>, val: seq<byte>, rawLen: nat,
                        flags: byte, expiresAt: nat) returns (ghost r: Rec)
      requires Ready(pos) && |m.hash| == |m.off| == hash.Length && |m.data| == data.Length > 0 && KeysDiffer(m)
      requires hv == HashOf(hashFn, key) && FirstFree(m.hash, hv, slot0)
      requires |key| < TWO_16 && rawLen < TWO_32 && expiresAt < TWO_32
      requires need == Align8(HEADER + |key| + |val|) < TWO_32 && logHead == pos + need
      requires Phys(pos, data.Length) + need <= data.Length && need <= data.Length - (pos - logTail)
      modifies this`m, this`trace, this`lay, this`live, this`liveBytes, this`inserts, hash, off, hints, data
      ensures Ready(logHead) && old(trace) <= trace && inserts == old(inserts) + 1
      ensures pos in m.book && Grows(old(m).book, m.book, {r})
      ensures Carries(r, key, val, rawLen, flags, expiresAt, inserts)
      ensures Replaced(old(m), old(lay), old(live), m, lay, live, pos, need, key, r)
      ensures pos !in old(m).book && m.book == old(m).book[pos := r] && Marked(m, hints[..], pos)
      ensures old(live) <= live && lay == old(lay)[pos := Entry(need)] && KeysDiffer(m) && KeysDiffer(old(m))
      ensures |m.hash| == |m.off| && View(m) == View(old(m))[key := r] && r.key == key
    {
      hide *;
      ghost var m1, lay1, live1 := m, lay, live;
      NeedHoldsHeader(|key| + |val|);
      var slot := RemovePredecessor(pos, slot0, hv, key);
      ghost var m2, live2 := m, live;
      var a := Phys(pos, data.Length);
      ReadyParts(pos);
      Sizes();
      SlotsAllBound(hashFn, m2, lay1, logTail, pos, inserts);
      var rec := Rec(key, val, hv, inserts + 1, expiresAt, rawLen, need, flags, data[a + HEADER - 1]);
      NewRecordFits(hashFn, rec);
      InsertRecord(pos, slot, rec, rec.Head()[..HEADER - LEAD - 1], key, val, hv, need);
      r := rec;
      GrowsByOne(m2.book, pos, r);
      CarriesItself(r);
      ReplacedBy(m1, lay1, live1, m2, live2, m, lay, live, pos, need, key, r);
      ReplacedGives(m1, lay1, live1, m, lay, live, pos, need, key, r);
    }

    /** Room in the index, then a block of `need` bytes. */
    method MakeRoom(need: nat) returns (pos: int)
      requires Ready(logHead) && HEADER <= data.Length && Origin(m.book, logHead)
      requires need % 8 == 0 && HEADER <= need < TWO_32
      modifies this`m, this`trace, this`tailPub, this`logHead, this`logTail, this`lay, this`live, this`liveBytes,
               hash, off, hints, data
      ensures old(trace) <= trace && Shrunk(old(m), m)
      ensures pos < 0 ==> Ready(logHead) && Origin(m.book, logHead)
      ensures pos >= 0 ==> Ready(pos) && logHead == pos + need && (old(logHead) == 0 ==> pos == 0)
      ensures pos >= 0 ==> Phys(pos, data.Length) + need <= data.Length && need <= data.Length - (pos - logTail)
      ensures 2 * need > data.Length ==> pos < 0
      ensures Obtainable(need, data.Length) ==> pos >= 0
      ensures |old(m).hash| == |old(m).off|
      ensures Spared(need, data.Length, old(m), old(lay), old(logTail), old(logHead), m, lay, logTail, pos,
                     old(live) < maxLive, live < maxLive, GuardMax(hash.Length))
      ensures |m.hash| == |m.off| && |old(m).data| > 0
      ensures RoomFor(need, LogState(old(m), old(hints[..]), old(lay), old(logTail), old(logHead)),
                      LogState(m, hints[..], lay, logTail, if pos >= 0 then pos else logHead), pos >= 0,
                      pos >= 0 || 2 * need > data.Length, old(live), live, maxLive)
    {
      hide *;
      ghost var m0, lay0, t0, h0 := m, lay, logTail, logHead;
      ghost var below := live < maxLive;
      ReadyParts(logHead);
      TailIsPublished(hashFn, m, lay, logTail, logHead, inserts);
      ghost var a, live0 := LogState(m, hints[..], lay, logTail, logHead), live;
      ArenaIsSound(hashFn, m, hints[..], lay, logTail, logHead, inserts);
      RelieveIndex();
      ReadyParts(logHead);
      LogWithinLap(hashFn, m, lay, logTail, logHead, inserts);
      ghost var ma, la, ta, ha, fits := m, lay, logTail, logHead, live < maxLive;
      ghost var y, live1 := LogState(m, hints[..], lay, logTail, logHead), live;
      ArenaIsSound(hashFn, m, hints[..], lay, logTail, logHead, inserts);
      pos := LogAlloc(need);
      ghost var z := LogState(m, hints[..], lay, logTail, if pos >= 0 then pos else logHead);
      SoundShape(a);
      SoundShape(y);
      ReliefAndRoom(need, a, y, z, pos >= 0, live0, live1, live, maxLive);
      LessIsKnown(need, a, z, pos >= 0, pos >= 0 || z.tail == y.tail, pos >= 0 || 2 * need > data.Length,
                  live0, live, maxLive);
      ReadyParts(if pos < 0 then logHead else pos);
      ShrunkTwice(m0, ma, m);
      ShrunkSubmap(m0, m);
      ShrunkSubmap(ma, m);
      RoomIsSpared(need, data.Length, m0, lay0, t0, h0, ma, la, ta, ha, m, lay, logTail, pos,
                   below, fits, live < maxLive, GuardMax(hash.Length));
      if pos < 0 {
        OriginStays(hashFn, m0, h0, m, lay, logTail, logHead, logHead, inserts);
      }
    }

    /** The index is full: the reserved block becomes a pad, so that the tail can step over it. */
    method AbandonBlock(pos: nat, need: nat, ghost m0: Mem, ghost h0: nat)
      requires Ready(pos) && Shrunk(m0, m) && Origin(m0.book, h0) && (h0 == 0 ==> pos == 0)
      requires forall x | 0 <= x < |m.hash| :: m.hash[x] != EMPTY
      requires need % 8 == 0 && HEADER <= need < TWO_32 && logHead == pos + need
      requires Phys(pos, data.Length) + need <= data.Length && need <= data.Length - (pos - logTail)
      modifies this`m, this`trace, this`lay, data
      ensures Ready(logHead) && old(trace) <= trace && Origin(m.book, logHead)
      ensures Shrunk(m0, m)
      ensures m == old(m).(data := m.data) && lay == old(lay)[pos := Pad(need)] && live == old(live)
      ensures KeysDiffer(m) && KeysDiffer(old(m)) && |m.hash| == |m.off| && View(m) == View(old(m))
    {
      hide *;
      ReadyParts(pos);
      Sizes();
      ShrunkSubmap(m0, m);
      FullIsNotEmpty(hashFn, m0, h0, m, lay, logTail, pos, inserts);
      ghost var m1 := m;
      PadBlock(pos, need);
      ShrunkByData(m0, m1, m);
      assert Ready(logHead);
    }

    /** A slot for the block at pos, and the record in it; without a slot the block is abandoned. */
    method UseBlock(pos: nat, need: nat, hv: nat, key: seq<byte>, val: seq<byte>, rawLen: nat, flags: byte,
                    expiresAt: nat, ghost m0: Mem, ghost h0: nat) returns (ok: bool, ghost r: Rec)
      requires Ready(pos) && |m.hash| == |m.off| == hash.Length && |m.data| == data.Length > 0 && KeysDiffer(m)
      requires Shrunk(m0, m) && Origin(m0.book, h0) && (h0 == 0 ==> pos == 0) && hv == HashOf(hashFn, key)
      requires |key| < TWO_16 && rawLen < TWO_32 && expiresAt < TWO_32
      requires need == Align8(HEADER + |key| + |val|) < TWO_32 && logHead == pos + need
      requires Phys(pos, data.Length) + need <= data.Length && need <= data.Length - (pos - logTail)
      modifies this`m, this`trace, this`lay, this`live, this`liveBytes, this`inserts, hash, off, hints, data
      ensures Ready(logHead) && old(trace) <= trace && inserts == old(inserts) + if ok then 1 else 0
      ensures |m.hash| == |m.off| && KeysDiffer(m) && |old(m).hash| == |old(m).off| && KeysDiffer(old(m))
      ensures ok ==> pos in m.book && Grows(old(m).book, m.book, {r})
      ensures ok ==> Carries(r, key, val, rawLen, flags, expiresAt, inserts)
      ensures ok ==> Replaced(old(m), old(lay), old(live), m, lay, live, pos, need, key, r)
      ensures ok ==> pos !in old(m).book && m.book == old(m).book[pos := r] && Marked(m, hints[..], pos) && r.key == key
      ensures ok ==> old(live) <= live && lay == old(lay)[pos := Entry(need)] && View(m) == View(old(m))[key := r]
      ensures !ok ==> Shrunk(m0, m) && Origin(m.book, logHead) && View(m) == View(old(m)) && live == old(live)
      ensures !ok ==> m == old(m).(data := m.data) && lay == old(lay)[pos := Pad(need)]
      ensures if ok then Count(old(m).hash) < hash.Length else Count(old(m).hash) == hash.Length
    {
      hide *;
      NeedHoldsHeader(|key| + |val|);
      ReadyParts(pos);
      Sizes();
      var slot := FindFreeSlot(hv);
      ok := slot >= 0;
      if ok {
        FreeMeansRoom(m.hash, hv, slot);
        r := ReplaceEntry(pos, slot, need, hv, key, val, rawLen, flags, expiresAt);
      } else {
        FullCount(m.hash);
        AbandonBlock(pos, need, m0, h0);
        r := *;
      }
    }

    /** Everything of a set but its announcement: room in the index, a block, a slot, the record. */
    method PlaceEntry(hv: nat, key: seq<byte>, val: seq<byte>, rawLen: nat, flags: byte, expiresAt: nat)
      returns (ok: bool)
      requires Ready(logHead) && HEADER <= data.Length && Origin(m.book, logHead) && hv == HashOf(hashFn, key)
      requires |key| < TWO_16 && rawLen < TWO_32 && expiresAt < TWO_32
      requires Align8(HEADER + |key| + |val|) < TWO_32
      modifies this`m, this`trace, this`tailPub, this`logHead, this`logTail, this`lay, this`live, this`liveBytes,
               this`inserts, hash, off, hints, data
      ensures Ready(logHead) && old(trace) <= trace && Origin(m.book, logHead)
      ensures |m.hash| == |m.off| && |old(m).hash| == |old(m).off| && KeysDiffer(m) && KeysDiffer(old(m))
      ensures ok ==> key in View(m) && SetDone(old(m), m, key, View(m)[key])
      ensures ok ==> Carries(View(m)[key], key, val, rawLen, flags, expiresAt, inserts) && inserts == old(inserts) + 1
      ensures !ok ==> Submap(View(m), View(old(m))) && inserts == old(inserts)
      ensures Grows(old(m).book, m.book, if ok then {View(m)[key]} else {})
      ensures Drifts(old(m), m, if ok then {View(m)[key]} else {})
      ensures 2 * Align8(HEADER + |key| + |val|) > data.Length ==> !ok
      ensures Obtainable(Align8(HEADER + |key| + |val|), data.Length) && Count(old(m).hash) < hash.Length ==> ok
      ensures SetOutcome(Align8(HEADER + |key| + |val|), data.Length, key,
                         old(m), old(lay), old(logTail), old(logHead), old(live),
                         m, lay, logTail, logHead, live, maxLive, ok)
      ensures |old(m).data| > 0
      ensures SetCost(Align8(HEADER + |key| + |val|), key,
                      LogState(old(m), old(hints[..]), old(lay), old(logTail), old(logHead)),
                      LogState(m, hints[..], lay, logTail, logHead), old(live), live, maxLive, ok)
    {
      hide *;
      ghost var m0, lay0, t0, h0, live0 := m, lay, logTail, logHead, live;
      ghost var a := LogState(m, hints[..], lay, logTail, logHead);
      ReadyParts(logHead);
      Sizes();
      SlotsAllBound(hashFn, m, lay, logTail, logHead, inserts);
      NeedHoldsHeader(|key| + |val|);
      var need := Align8(HEADER + |key| + |val|);
      var pos := MakeRoom(need);
      ShrunkSubmap(m0, m);
      ghost var m1, lay1, live1 := m, lay, live;
      if pos < 0 {
        ReadyParts(logHead);
        Sizes();
        PricedMeans(need, data.Length, false);
        RefusedCost(need, key, a, LogState(m, hints[..], lay, logTail, logHead), 2 * need > data.Length,
                    live0, live, maxLive);
        RefusedOutcome(need, data.Length, key, m0, lay0, t0, h0, live0, m, lay, logTail, pos, logHead, live, maxLive);
        return false;
      }
      ReadyParts(pos);
      Sizes();
      ghost var y := LogState(m, hints[..], lay, logTail, pos);
      ghost var r;
      ok, r := UseBlock(pos, need, hv, key, val, rawLen, flags, expiresAt, m0, h0);
      if !ok {
        FullSet(need, key, a, y, LogState(m, hints[..], lay, logTail, logHead), live0, live, maxLive);
        return false;
      }
      PlacedSet(need, key, a, y, LogState(m, hints[..], lay, logTail, logHead), r, live0, live1, live, maxLive);
      OriginWith(m0.book, h0, m.book, {r}, pos, logHead);
    }

    /** The end of a set: its announcement if it succeeded, and the notes of the proof. */
    method CompleteSet(hv: nat, key: seq<byte>, val: seq<byte>, rawLen: nat, flags: byte, expiresAt: nat, writerId: nat,
                       ghost book0: map<nat, Rec>, ok: bool)
      requires Ready(logHead) && RingOk() && HEADER <= data.Length && |m.hash| == |m.off| && KeysDiffer(m)
      requires Written(book0, sets) && Origin(m.book, logHead)
      requires ok ==> key in View(m) && Carries(View(m)[key], key, val, rawLen, flags, expiresAt, inserts)
      requires Grows(book0, m.book, if ok then {View(m)[key]} else {})
      modifies this`m, this`trace, this`ringHead, this`history, this`sets, ring
      ensures Valid() && old(trace) <= trace && m == old(m).(retired := m.retired)
      ensures |m.hash| == |m.off| && KeysDiffer(m) && View(m) == View(old(m))
      ensures sets == old(sets) + if ok then [SetCall(key, val, rawLen, flags, expiresAt, inserts)] else []
      ensures history == old(history) + if ok then [RingRec(hv, Version(inserts), writerId)] else []
    {
      hide *;
      if ok {
        RingAppend(hv, Version(inserts), writerId);
        CarriesCall(View(m)[key], key, val, rawLen, flags, expiresAt, inserts);
        OneMoreWritten(book0, m.book, View(m)[key], sets, SetCall(key, val, rawLen, flags, expiresAt, inserts));
        sets := sets + [SetCall(key, val, rawLen, flags, expiresAt, inserts)];
      } else {
        StillWritten(book0, m.book, sets);
      }
      BookIsOk();
      Finish();
    }

    lemma BookIsOk()
      requires Origin(m.book, logHead) && Written(m.book, sets)
      ensures BookOk()
    {
    }

    /** Binds `key` to a new value. False when the block or the slot cannot be had. It evicts no more than the block
        or the ceiling of the index makes necessary; a refused size costs nothing below the ceiling. */
    method StoreSet(key: seq<byte>, val: seq<byte>, rawLen: nat, flags: byte, expiresAt: nat, writerId: nat)
      returns (ok: bool)
      requires Valid() && |key| < TWO_16 && rawLen < TWO_32 && expiresAt < TWO_32
      requires Align8(HEADER + |key| + |val|) < TWO_32
      modifies this`m, this`trace, this`tailPub, this`logHead, this`logTail, this`lay, this`live, this`liveBytes,
               this`inserts, this`ringHead, this`history, this`sets, hash, off, hints, data, ring
      ensures Valid() && old(trace) <= trace
      ensures sets == old(sets) + if ok then [SetCall(key, val, rawLen, flags, expiresAt, inserts)] else []
      ensures KeysDiffer(old(m)) && |old(m).hash| == |old(m).off|
      ensures ok ==> key in View(m) && SetDone(old(m), m, key, View(m)[key])
      ensures ok ==> Carries(View(m)[key], key, val, rawLen, flags, expiresAt, inserts)
      ensures Drifts(old(m), m, if ok then {View(m)[key]} else {})
      ensures ok ==> inserts == old(inserts) + 1 &&
                     history == old(history) + [RingRec(HashOf(hashFn, key), Version(inserts), writerId)]
      ensures !ok ==> Submap(View(m), View(old(m))) && history == old(history) && inserts == old(inserts)
      ensures 2 * Align8(HEADER + |key| + |val|) > data.Length ==> !ok
      ensures Obtainable(Align8(HEADER + |key| + |val|), data.Length) && old(live) < hash.Length ==> ok
      ensures SetOutcome(Align8(HEADER + |key| + |val|), data.Length, key,
                         old(m), old(lay), old(logTail), old(logHead), old(live),
                         m, lay, logTail, logHead, live, maxLive, ok)
      ensures 2 * Align8(HEADER + |key| + |val|) > data.Length && |old(lay)| + SECOND_CHANCES <= GuardMax(hash.Length)
              ==> (View(m) == View(old(m)) <==> old(live) < maxLive)
      ensures |old(m).data| > 0
      ensures SetCost(Align8(HEADER + |key| + |val|), key,
                      LogState(old(m), old(hints[..]), old(lay), old(logTail), old(logHead)),
                      LogState(m, hints[..], lay, logTail, logHead), old(live), live, maxLive, ok)
    {
      hide *;
      PartsOfValid();
      ghost var a := LogState(m, hints[..], lay, logTail, logHead);
      ghost var m0, lay0, t0, h0, live0 := m, lay, logTail, logHead, live;
      ghost var need := Align8(HEADER + |key| + |val|);
      SlotsAllBound(hashFn, m, lay, logTail, logHead, inserts);
      var hv := HashOf(hashFn, key);
      ok := PlaceEntry(hv, key, val, rawLen, flags, expiresAt);
      ghost var m1 := m;
      ghost var y := LogState(m, hints[..], lay, logTail, logHead);
      CompleteSet(hv, key, val, rawLen, flags, expiresAt, writerId, m0.book, ok);
      CostStays(need, key, a, y, LogState(m, hints[..], lay, logTail, logHead), live0, live, maxLive, ok);
      SameDrifts(m0, m1, m, if ok then {View(m)[key]} else {});
      OutcomeStays(need, data.Length, key, m0, lay0, t0, h0, live0, m1, m, lay, logTail, logHead, live, maxLive, ok);
      if ok {
        SetDoneSame(m0, m1, m, key);
      }
      PartsOfValid();
      SlotsAllBound(hashFn, m, lay, logTail, logHead, inserts);
      if 2 * need > data.Length && |lay0| + SECOND_CHANCES <= GuardMax(hash.Length) {
        RefusedSizeCost(need, data.Length, key, m0, lay0, t0, h0, live0, m, lay, logTail, logHead, live, maxLive);
      }
    }

    /** Removes a key. The invalidation record is appended whether or not the key was here. */
    method StoreDelete(key: seq<byte>, writerId: nat) returns (had: bool)
      requires Valid()
      modifies this`m, this`trace, this`live, this`liveBytes, this`inserts, this`ringHead, this`history,
               hash, off, hints, data, ring
      ensures Valid() && old(trace) <= trace
      ensures KeysDiffer(old(m)) && |old(m).hash| == |old(m).off|
      ensures had <==> key in View(old(m))
      ensures View(m) == View(old(m)) - {key}
      ensures inserts == old(inserts) + 1 && Drifts(old(m), m, {})
      ensures history == old(history) + [RingRec(HashOf(hashFn, key), Version(inserts), writerId)]
    {
      hide Wired;
      hide Ready;
      hide ArenaInv;
      hide RingOk;
      hide Settled;
      hide KeysDiffer;
      hide HashOf;
      hide Origin;
      hide Count;
      hide IndexedBytes;
      hide SlotFor;
      hide Keys;
      hide View;
      hide MemInv;
      hide Drifts;
      ReadyParts(logHead);
      NothingDrifts(m);
      var hv := HashOf(hashFn, key);
      var slot := FindSlot(hv, key, logHead);
      had := slot >= 0;
      if had {
        Sizes();
        SlotForParts(m, slot, key);
        ViewHas(m, slot, key);
        UnlinkSlot(slot, logHead);
      } else {
        AbsentUnchanged(m, key);
      }
      ghost var m1 := m;
      Announce(hv, writerId);
      SameDrifts(old(m), m1, m, {});
    }

    method StoreZeroOff(i: nat)
      requires Wired() && i < off.Length && Legal(m, ZeroOff(i))
      modifies this`m, this`trace, off
      ensures Wired() && old(trace) <= trace
      ensures m == old(m).(off := old(m).off[i := 0])
    {
      Record(ZeroOff(i));
      off[i] := 0;
      assert off[..] == m.off;
    }

    /** Wipes the index, slot by slot. */
    method WipeIndex()
      requires Wired() && Origin(m.book, logHead)
      modifies this`m, this`trace, hash, off, hints
      ensures Wired() && old(trace) <= trace
      ensures m == old(m).(hash := m.hash, off := m.off) && |m.hash| == |m.off| == hash.Length
      ensures forall x | 0 <= x < |m.hash| :: m.hash[x] == EMPTY && m.off[x] == 0
    {
      hide MemInv;
      hide Run;
      hide LegalRun;
      var i := 0;
      while i < hash.Length
        invariant 0 <= i <= hash.Length && Wired() && old(trace) <= trace
        invariant m == old(m).(hash := m.hash, off := m.off) && |m.hash| == |m.off| == hash.Length
        invariant forall x | 0 <= x < i :: m.hash[x] == EMPTY && m.off[x] == 0
      {
        StoreHash(i, EMPTY);
        StoreZeroOff(i);
        hints[i] := false;
        i := i + 1;
      }
    }

    /** After the first n stores of the arena the index is wiped and all else is as it was in m0. */
    ghost predicate WipedAt(n: nat, m0: Mem)
      reads this`trace
    {
      && |boot.data| > 0 && n <= |trace| && |m0.hash| == |m0.off|
      && var w := Run(boot, trace[..n]);
         && w == m0.(hash := w.hash, off := w.off) && |w.hash| == |w.off| == |m0.hash|
         && forall x | 0 <= x < |w.hash| :: w.hash[x] == EMPTY && w.off[x] == 0
    }

    lemma WipedNow(m0: Mem)
      requires Wired() && m == m0.(hash := m.hash, off := m.off) && |m.hash| == |m.off| == |m0.hash| == |m0.off|
      requires forall x | 0 <= x < |m.hash| :: m.hash[x] == EMPTY && m.off[x] == 0
      ensures WipedAt(|trace|, m0)
    {
      hide MemInv;
      hide Run;
      hide LegalRun;
      assert trace[..|trace|] == trace;
    }

    /** Empties the index and moves the tail up to the head. */
    method DropAll() returns (ghost wiped: nat)
      requires Ready(logHead) && BookOk()
      modifies this`m, this`trace, this`tailPub, this`logTail, this`lay, this`live, this`liveBytes, hash, off, hints
      ensures Ready(logHead) && BookOk() && old(trace) <= trace
      ensures |m.hash| == |m.off| && KeysDiffer(m) && View(m) == map[] && live == 0 && liveBytes == 0
      ensures logTail == logHead && m.data == old(m).data
      ensures |old(trace)| <= wiped && WipedAt(wiped, old(m))
    {
      hide Wired;
      hide Ready;
      hide ArenaInv;
      hide KeysDiffer;
      hide Origin;
      hide Count;
      hide IndexedBytes;
      hide MemInv;
      hide View;
      ReadyParts(logHead);
      ghost var m0, lay0, t := m, lay, logTail;
      LogWithinLap(hashFn, m, lay, logTail, logHead, inserts);
      TailIsPublished(hashFn, m, lay, logTail, logHead, inserts);
      WipeIndex();
      Sizes();
      WipedNow(m0);
      wiped := |trace|;
      ghost var upToNow := trace;
      logTail := logHead;
      StoreTail(logTail);
      Sizes();
      assert trace[..wiped] == upToNow[..wiped];
      live, liveBytes, lay := 0, 0, map[];
      Cleared(hashFn, m0, m, lay0, t, logHead, inserts);
      ReadyFromParts(logHead);
    }

    /** The end of a delete or a clear: counts it and appends its invalidation record. */
    method Announce(h: nat, writerId: nat)
      requires Ready(logHead) && RingOk() && HEADER <= data.Length && BookOk()
      requires |m.hash| == |m.off| && KeysDiffer(m)
      modifies this`m, this`trace, this`inserts, this`ringHead, this`history, ring
      ensures Valid() && old(trace) <= trace && m == old(m).(retired := m.retired)
      ensures View(m) == View(old(m)) && inserts == old(inserts) + 1
      ensures history == old(history) + [RingRec(h, Version(inserts), writerId)]
    {
      hide Wired;
      hide Ready;
      hide ArenaInv;
      hide RingOk;
      hide Settled;
      hide KeysDiffer;
      hide Origin;
      hide Count;
      hide IndexedBytes;
      hide MemInv;
      hide View;
      ReadyParts(logHead);
      inserts := inserts + 1;
      CounterMayGrow(hashFn, m, lay, logTail, logHead, inserts - 1);
      ReadyFromParts(logHead);
      RingAppend(h, Version(inserts), writerId);
      Finish();
    }

    /** Drops everything. The log is not rewound: the tail moves up to the head. */
    method StoreClear(writerId: nat) returns (ghost wiped: nat)
      requires Valid()
      modifies this`m, this`trace, this`tailPub, this`logTail, this`lay, this`live, this`liveBytes, this`inserts,
               this`ringHead, this`history, hash, off, hints, ring
      ensures Valid() && old(trace) <= trace
      ensures View(m) == map[] && live == 0 && liveBytes == 0 && logTail == logHead
      ensures m.data == old(m).data && inserts == old(inserts) + 1
      ensures history == old(history) + [RingRec(RING_FLUSH_ALL, Version(inserts), writerId)]
      ensures |old(trace)| <= wiped <= |trace| && WipedAt(wiped, old(m))
    {
      hide Wired;
      hide Ready;
      hide ArenaInv;
      hide RingOk;
      hide Settled;
      hide KeysDiffer;
      hide Origin;
      hide Count;
      hide IndexedBytes;
      hide MemInv;
      hide View;
      wiped := DropAll();
      ghost var upToNow := trace;
      Announce(RING_FLUSH_ALL, writerId);
      assert trace[..wiped] == upToNow[..wiped];
    }

    /** Is the key bound and not expired? Unlike a read this finds keys behind a collision. */
    method StoreHas(key: seq<byte>, now: nat) returns (b: bool)
      requires Valid()
      ensures b <==> key in View(m) && !Expired(View(m)[key].expiresAt, now)
    {
      hide Wired;
      hide Ready;
      hide ArenaInv;
      hide Settled;
      hide RingOk;
      hide Origin;
      hide View;
      hide KeysDiffer;
      hide HashOf;
      hide FromLE;
      hide Phys;
      hide Expired;
      hide SlotFor;
      hide MemInv;
      ReadyParts(logHead);
      Sizes();
      var slot := FindSlot(HashOf(hashFn, key), key, logHead);
      if slot < 0 {
        return false;
      }
      SlotForParts(m, slot, key);
      SlotDecodes(hashFn, m, lay, logTail, logHead, inserts, slot);
      ViewHas(m, slot, key);
      var pos := off[slot];
      var exp := U(Phys(pos, data.Length) + EXPIRES_AT, 4);
      if tailPub > pos {
        return false;
      }
      b := !Expired(exp, now);
    }

    /** The value of a key, read through the index and the bytes of the log. The first slot whose
        hash matches decides: when it belongs to another key the read misses. */
    method StoreGet(key: seq<byte>, scratchCap: nat, now: nat) returns (r: ReadResult)
      requires Valid()
      ensures r.Found? <==>
                key in View(m) && !Shadowed(m, HashOf(hashFn, key), key) &&
                |View(m)[key].val| <= scratchCap && !Expired(View(m)[key].expiresAt, now)
      ensures r.Found? ==> var e := View(m)[key];
                           r == Found(e.val, e.flags, e.expiresAt, e.rawLen)
    {
      hide *;
      PartsOfValid();
      var hv, n := HashOf(hashFn, key), hash.Length;
      var i: nat, probes: nat := Home(hv, n), 0;
      ProbeBegins(m, hv);
      while probes < n
        invariant probes <= n && i < n && (probes < n ==> i == Probe(hv, probes, n))
        invariant NoHashAmongFirst(m, hv, probes)
      {
        if hash[i] == EMPTY {
          EmptyMeansAbsent(hashFn, m, lay, logTail, logHead, inserts, probes, key);
          return NotFound;
        }
        if hash[i] == hv {
          FirstMatchDecides(hashFn, m, lay, logTail, logHead, inserts, probes, i, key);
          r := ReadEntry(i, key, scratchCap, now);
          OutcomeParts(m.book[m.off[i]], key, scratchCap, now);
          return;
        }
        NoHashAmongNext(m, hv, probes, i);
        probes, i := probes + 1, Next(i, n);
      }
      AllSlotsDiffer(hashFn, m, lay, logTail, logHead, inserts, key);
      return NotFound;
    }

    /** The entry of slot i, if it is the one for `key`. */
    method ReadEntry(i: nat, key: seq<byte>, scratchCap: nat, now: nat) returns (r: ReadResult)
      requires Ready(logHead) && i < hash.Length && i < |m.hash| == |m.off| && m.hash[i] == HashOf(hashFn, key)
      requires m.off[i] in m.book
      ensures r == ReadOutcome(m.book[m.off[i]], key, scratchCap, now)
    {
      hide Wired;
      hide Ready;
      hide ArenaInv;
      hide HashOf;
      hide FromLE;
      hide Phys;
      hide MemInv;
      hide Decodes;
      hide ReadOutcome;
      ReadyParts(logHead);
      Sizes();
      SlotDecodes(hashFn, m, lay, logTail, logHead, inserts, i);
      TailIsPublished(hashFn, m, lay, logTail, logHead, inserts);
      r := ReadRecord(i, Phys(off[i], data.Length), key, scratchCap, now, m.book[m.off[i]]);
    }

    /** The record e at address phys, read through slot i. Without a concurrent writer the sequence
        lock is even and does not change, so the first round of the retry loop decides. */
    method ReadRecord(i: nat, phys: nat, key: seq<byte>, scratchCap: nat, now: nat, ghost e: Rec)
      returns (r: ReadResult)
      requires i < hash.Length == off.Length && hash[i] == e.hash && tailPub <= off[i]
      requires Decodes(data[..], phys, e) && phys + HEADER <= data.Length && FromLE(data[..][phys..phys + 4]) % 2 == 0
      ensures r == ReadOutcome(e, key, scratchCap, now)
    {
      hide FromLE;
      hide Expired;
      for retry := 0 to 4096
        invariant retry == 0
      {
        var s1 := U(phys + SEQ_AT, 4);
        if s1 % 2 == 1 {
          continue;
        }
        var kl, sl := U(phys + KEYLEN_AT, 2), U(phys + STORED_AT, 4);
        var exp, eh := U(phys + EXPIRES_AT, 4), U(phys + HASH_AT, 8);
        assert kl == |e.key| && sl == |e.val| && exp == e.expiresAt && eh == e.hash && s1 % 2 == 0;
        if HEADER + kl + sl > data.Length - phys {
          continue;
        }
        if sl > scratchCap || kl != |key| {
          return NotFound;
        }
        if data[phys + HEADER..phys + HEADER + kl] != key {
          return NotFound;
        }
        var val := data[phys + HEADER + kl..phys + HEADER + kl + sl];
        if U(phys + SEQ_AT, 4) != s1 || eh != hash[i] {
          continue;
        }
        if tailPub > off[i] || Expired(exp, now) {
          return NotFound;
        }
        return Found(val, data[phys + FLAGS_AT], exp, U(phys + RAW_AT, 4));
      }
      return NotFound;
    }

    // ------------------------------------------------------------ sweep

    /** Removes the entry of slot i if there is one and it has expired, and announces it. */
    method SweepSlot(i: nat, now: nat) returns (gone: bool)
      requires Ready(logHead) && RingOk() && i < hash.Length && |m.hash| == |m.off| && KeysDiffer(m)
      modifies this`m, this`trace, this`live, this`liveBytes, this`inserts, this`ringHead, this`history,
               hash, off, hints, data, ring
      ensures Ready(logHead) && RingOk() && old(trace) <= trace
      ensures |m.hash| == |m.off| == hash.Length && KeysDiffer(m) && m.book == old(m).book
      ensures i < |m.hash| && Count(m.hash) + (if gone then 1 else 0) == Count(old(m).hash) && old(inserts) <= inserts
      ensures !gone ==> m == old(m) && history == old(history)
      ensures !gone && m.hash[i] != EMPTY ==> m.off[i] in m.book && !Expired(m.book[m.off[i]].expiresAt, now)
      ensures gone ==> SweepGone(hashFn, old(m), m, i, now, old(history), history)
    {
      hide Wired;
      hide Ready;
      hide ArenaInv;
      hide RingOk;
      hide View;
      hide KeysDiffer;
      hide HashOf;
      hide Expired;
      hide Count;
      hide IndexedBytes;
      hide FromLE;
      hide Phys;
      hide MemInv;
      hide SweepGone;
      ReadyParts(logHead);
      Sizes();
      if hash[i] == EMPTY {
        return false;
      }
      SlotDecodes(hashFn, m, lay, logTail, logHead, inserts, i);
      SlotsPointAtRecords(hashFn, m, lay, logTail, logHead, inserts);
      var phys := Phys(off[i], data.Length);
      if !Expired(U(phys + EXPIRES_AT, 4), now) {
        return false;
      }
      SweepRemove(i, U(phys + HASH_AT, 8), now);
      return true;
    }

    /** Removes the expired entry of slot i and announces its hash eh. */
    method SweepRemove(i: nat, eh: nat, now: nat)
      requires Ready(logHead) && RingOk() && i < hash.Length && i < |m.hash| == |m.off| && KeysDiffer(m)
      requires m.hash[i] != EMPTY && m.off[i] in m.book && Expired(m.book[m.off[i]].expiresAt, now)
      requires eh == HashOf(hashFn, m.book[m.off[i]].key)
      modifies this`m, this`trace, this`live, this`liveBytes, this`inserts, this`ringHead, this`history,
               hash, off, hints, data, ring
      ensures Ready(logHead) && RingOk() && old(trace) <= trace
      ensures SameShape(old(m), m) && KeysDiffer(m) && m.book == old(m).book
      ensures Count(m.hash) + 1 == Count(old(m).hash) && inserts == old(inserts) + 1
      ensures SweepGone(hashFn, old(m), m, i, now, old(history), history)
    {
      hide Wired;
      hide Ready;
      hide ArenaInv;
      hide RingOk;
      hide View;
      hide KeysDiffer;
      hide HashOf;
      hide Expired;
      hide Count;
      hide IndexedBytes;
      hide MemInv;
      hide MovedBack;
      hide Drifts;
      hide Indexed;
      hide SweepGone;
      ghost var m0 := m;
      ViewHas(m, i, m.book[m.off[i]].key);
      UnlinkSlot(i, logHead);
      ReadyParts(logHead);
      inserts := inserts + 1;
      CounterMayGrow(hashFn, m, lay, logTail, logHead, inserts - 1);
      ReadyFromParts(logHead);
      RingAppend(eh, Version(inserts), 0);
      SweepGoneIntro(hashFn, m0, m, i, now, old(history), history, Version(inserts));
    }

    /** Removes expired entries from slot `cursor` on, looking at no more than maxSlots slots. A slot
        that was emptied is looked at again, since the shift may have refilled it. What is left in a slot that
        was looked at has not expired, unless it moved there; and the entries below the cursor stay free of
        any expiry times that read as passed now. */
    method SweepExpired(cursor: nat, maxSlots: nat, now: nat, ghost times: set<nat>)
      returns (removed: nat, next: nat, done: bool)
      requires Valid() && times <= PassedAt(now)
      modifies this`m, this`trace, this`live, this`liveBytes, this`inserts, this`ringHead, this`history,
               hash, off, hints, data, ring
      ensures Valid() && old(trace) <= trace
      ensures |old(m).hash| == |old(m).off| && KeysDiffer(old(m)) && old(inserts) <= inserts
      ensures |m.hash| == |m.off| && KeysDiffer(m)
      ensures Swept(hashFn, View(old(m)), View(m), old(history), history, now)
      ensures live + removed == old(live) && |history| == |old(history)| + removed
      ensures if done then next == 0 else cursor <= next < hash.Length && next - cursor + removed == maxSlots
      ensures done && cursor < hash.Length ==> hash.Length - cursor + removed <= maxSlots
      ensures Combed(old(m), m, cursor, if done then hash.Length else next, now)
      ensures CleanBelow(old(m), cursor, times) ==> CleanBelow(m, if done then hash.Length else next, times)
      ensures NoneToSweep(old(m), cursor, maxSlots, now) ==> removed == 0 && m == old(m).(retired := m.retired)
    {
      hide Wired;
      hide Ready;
      hide ArenaInv;
      hide RingOk;
      hide Settled;
      hide View;
      hide KeysDiffer;
      hide Expired;
      hide Count;
      hide CleanBelow;
      hide Swept;
      hide Origin;
      hide SweepGone;
      hide PassedAt;
      hide Combed;
      hide Drifts;
      PartsOfValid();
      ghost var m0, v0, h0 := m, View(m), history;
      var i: nat, scanned := cursor, 0;
      removed := 0;
      SweptNothing(hashFn, v0, h0, now);
      CombedNothing(m, cursor, now);
      while i < hash.Length && scanned < maxSlots
        invariant Ready(logHead) && RingOk() && old(trace) <= trace && old(inserts) <= inserts
        invariant |m.hash| == |m.off| == hash.Length && KeysDiffer(m) && m.book == m0.book
        invariant Swept(hashFn, v0, View(m), h0, history, now) && |history| == |h0| + removed
        invariant Count(m.hash) + removed == Count(m0.hash)
        invariant cursor <= i && scanned == i - cursor + removed <= maxSlots
        invariant Combed(m0, m, cursor, i, now)
        invariant CleanBelow(m0, cursor, times) ==> CleanBelow(m, i, times)
        invariant NoneToSweep(m0, cursor, maxSlots, now) ==> removed == 0 && m == m0
        decreases maxSlots - scanned
      {
        ghost var m1, h1 := m, history;
        var gone := SweepSlot(i, now);
        if gone {
          SweepGoneParts(hashFn, m1, m, i, now, h1, history, v0, h0, times);
          CombedDrifts(m0, m1, m, cursor, i, now);
          removed := removed + 1;
        } else {
          if CleanBelow(m, i, times) {
            CleanNext(m, i, times, now);
          }
          CombedNext(m0, m, cursor, i, now);
          i := i + 1;
        }
        scanned := scanned + 1;
      }
      done := i >= hash.Length;
      next := if done then 0 else i;
      ReadyParts(logHead);
      ghost var m1 := m;
      BookIsOk();
      Finish();
      CleanSame(m1, m, i, hash.Length, times);
      CombedEnds(m0, m1, m, cursor, i, hash.Length, now);
    }
  }

  /** `live` is the number of bindings. */
  lemma LiveIsSize(a: Arena)
    requires a.Valid()
    ensures |a.m.hash| == |a.m.off| && KeysDiffer(a.m) && a.live == |View(a.m)|
  {
    hide *;
    a.PartsOfValid();
    SlotsAllBound(a.hashFn, a.m, a.lay, a.logTail, a.logHead, a.inserts);
    CountIsSize(a.m);
  }
}
