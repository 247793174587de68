/** The invalidation ring: a single writer laps a fixed array; a reader keeps a cursor and is told
    when the writer has lapped it. */
module Invalidation {
  import opened Wrapping

  datatype RingRec = RingRec(hash: nat, version: nat, writerId: nat)

  /** Ring sentinel for "drop your entire L1". */
  const RING_FLUSH_ALL: nat := 0xFFFF_FFFF_FFFF_FFFF

  /** The array holds the last |ring| records of the history. */
  ghost predicate RingInv(ring: seq<RingRec>, history: seq<RingRec>) {
    && |ring| > 0
    && forall p | 0 <= p < |history| <= p + |ring| :: ring[Phys(p, |ring|)] == history[p]
  }

  lemma AppendKeepsRingInv(ring: seq<RingRec>, history: seq<RingRec>, r: RingRec)
    requires RingInv(ring, history)
    ensures RingInv(ring[Phys(|history|, |ring|) := r], history + [r])
  {
    hide Phys;
    var ring' := ring[Phys(|history|, |ring|) := r];
    forall p | 0 <= p < |history + [r]| <= p + |ring|
      ensures ring'[Phys(p, |ring|)] == (history + [r])[p]
    {
      if p < |history| {
        PhysDisjoint(p, 1, |history|, 1, |ring|);
      }
    }
  }

  /** Is the record at `cursor` out of reach for a reader that sees this head? The record exactly one
      lap behind the head counts: it may be the one being overwritten. A cursor beyond the head
      makes the unsigned difference huge. */
  predicate Lapped(head: nat, cursor: nat, cap: nat) {
    cursor > head || head - cursor >= cap
  }

  /** `got` is what was appended from position `from` on. */
  ghost predicate Exact(history: seq<RingRec>, from: nat, got: seq<(nat, nat)>) {
    && from + |got| <= |history|
    && forall k | 0 <= k < |got| :: got[k] == (history[from + k].hash, history[from + k].writerId)
  }
}
