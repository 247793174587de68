/** What lies in a submission ring between tail and head: whole records, SKIP records and the gaps
    nobody writes, one after the other. */
module SubmitItems {
  import opened Bytes
  import opened Wrapping
  import opened Submissions

  type positive = n: int | n > 0 witness 1

  datatype Item = Gap(len: positive) | Skip(len: positive) | Data(r: Submission)

  /** A submission and the position where its record ends. */
  datatype Push = Push(r: Submission, end: nat)

  function Len(it: Item): positive {
    match it
    case Gap(len) => len
    case Skip(len) => len
    case Data(r) => r.Size()
  }

  function Total(items: seq<Item>): nat {
    if items == [] then 0 else Len(items[0]) + Total(items[1..])
  }

  function QueuedItem(pos: nat, it: Item): seq<Push> {
    if it.Data? then [Push(it.r, pos + Len(it))] else []
  }

  /** The submissions among the items, which start at position pos. */
  function Queued(pos: nat, items: seq<Item>): seq<Push>
    decreases |items|
  {
    if items == [] then [] else QueuedItem(pos, items[0]) + Queued(pos + Len(items[0]), items[1..])
  }

  /** The bytes at position pos are those of the item. */
  ghost predicate ItemAt(data: seq<byte>, pos: nat, it: Item)
    requires |data| > 0
  {
    var off := Phys(pos, |data|);
    match it
    case Gap(len) => len == GapAt(off, |data|) != 0
    case Skip(len) =>
      GapAt(off, |data|) == 0 && len == |data| - off && len % 8 == 0 && len < TWO_32 &&
      data[off..off + HEADER] == EncodeHeader(len, OP_SKIP, 0, 0, 0, 0)
    case Data(r) =>
      GapAt(off, |data|) == 0 && off + r.Size() <= |data| && r.Fits() && r.op != OP_SKIP &&
      data[off..off + |r.Image()|] == r.Image()
  }

  /** The items fill the ring from pos on. */
  ghost predicate LaidOut(data: seq<byte>, pos: nat, items: seq<Item>)
    requires |data| > 0
    decreases |items|
  {
    items == [] || (ItemAt(data, pos, items[0]) && LaidOut(data, pos + Len(items[0]), items[1..]))
  }

  lemma {:induction false} LaidOutAppend(data: seq<byte>, pos: nat, a: seq<Item>, b: seq<Item>)
    requires |data| > 0
    ensures LaidOut(data, pos, a + b) <==> LaidOut(data, pos, a) && LaidOut(data, pos + Total(a), b)
    decreases |a|
  {
    hide ItemAt;
    hide Len;
    if a == [] {
      assert a + b == b;
    } else {
      assert (a + b)[1..] == a[1..] + b;
      LaidOutAppend(data, pos + Len(a[0]), a[1..], b);
    }
  }

  lemma {:induction false} QueuedAppend(pos: nat, a: seq<Item>, b: seq<Item>)
    ensures Total(a + b) == Total(a) + Total(b)
    ensures Queued(pos, a + b) == Queued(pos, a) + Queued(pos + Total(a), b)
    decreases |a|
  {
    hide QueuedItem;
    hide Len;
    if a == [] {
      assert a + b == b;
    } else {
      assert (a + b)[1..] == a[1..] + b;
      QueuedAppend(pos + Len(a[0]), a[1..], b);
    }
  }

  /** One item further. */
  lemma OneMore(pos: nat, items: seq<Item>, k: nat)
    requires k < |items|
    ensures Total(items[..k + 1]) == Total(items[..k]) + Len(items[k])
    ensures Queued(pos, items[k..]) == QueuedItem(pos, items[k]) + Queued(pos + Len(items[k]), items[k + 1..])
  {
    hide QueuedItem;
    hide Len;
    assert items[..k + 1] == items[..k] + [items[k]];
    QueuedAppend(pos, items[..k], [items[k]]);
    assert items[k..][1..] == items[k + 1..];
  }

  /** What is laid out from the k-th item on. */
  lemma LaidOutFrom(data: seq<byte>, pos: nat, items: seq<Item>, k: nat)
    requires |data| > 0 && k <= |items| && LaidOut(data, pos, items)
    ensures LaidOut(data, pos + Total(items[..k]), items[k..])
    ensures Total(items) == Total(items[..k]) + Total(items[k..])
  {
    hide ItemAt;
    hide Len;
    assert items == items[..k] + items[k..];
    LaidOutAppend(data, pos, items[..k], items[k..]);
    QueuedAppend(pos, items[..k], items[k..]);
  }

  lemma {:induction false} MoreItemsMoreBytes(items: seq<Item>, j: nat, k: nat)
    requires j <= k <= |items|
    ensures Total(items[..j]) <= Total(items[..k])
    ensures j < k ==> Total(items[..j]) < Total(items[..k])
  {
    hide Len;
    if j < k {
      MoreItemsMoreBytes(items, j, k - 1);
      OneMore(0, items, k - 1);
    }
  }

  /** Everything still queued ends beyond the place it is queued from. */
  lemma {:induction false} QueuedEndLater(pos: nat, items: seq<Item>)
    ensures forall x | 0 <= x < |Queued(pos, items)| :: pos < Queued(pos, items)[x].end
    decreases |items|
  {
    hide Len;
    if items != [] {
      QueuedEndLater(pos + Len(items[0]), items[1..]);
    }
  }

  /** d and d' agree except at the address of position q. */
  ghost predicate SameButAt(d: seq<byte>, d': seq<byte>, q: nat) {
    |d'| == |d| > 0 && forall a | 0 <= a < |d| && a != Phys(q, |d|) :: d'[a] == d[a]
  }

  lemma ItemElsewhere(d: seq<byte>, d': seq<byte>, pos: nat, it: Item, q: nat)
    requires SameButAt(d, d', q) && ItemAt(d, pos, it)
    requires pos + Len(it) <= q < pos + |d|
    ensures ItemAt(d', pos, it)
  {
    hide Phys;
    hide EncodeHeader;
    hide Submission.Image;
    hide Submission.Fits;
    var off := Phys(pos, |d|);
    if it.Data? {
      PhysDisjoint(pos, it.r.Size(), q, 1, |d|);
      assert d'[off..off + |it.r.Image()|] == d[off..off + |it.r.Image()|];
    } else if it.Skip? {
      PhysDisjoint(pos, it.len, q, 1, |d|);
      assert d'[off..off + HEADER] == d[off..off + HEADER];
    }
  }

  /** A byte beyond the items, and less than a lap beyond their start, is none of theirs. */
  lemma {:induction false} LaidOutElsewhere(d: seq<byte>, d': seq<byte>, pos: nat, items: seq<Item>, q: nat)
    requires SameButAt(d, d', q) && LaidOut(d, pos, items)
    requires pos + Total(items) <= q < pos + |d|
    ensures LaidOut(d', pos, items)
    decreases |items|
  {
    hide ItemAt;
    hide SameButAt;
    hide Len;
    if items != [] {
      ItemElsewhere(d, d', pos, items[0], q);
      LaidOutElsewhere(d, d', pos + Len(items[0]), items[1..], q);
    }
  }
}
