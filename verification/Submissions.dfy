/** Records of the submission ring: a 24-byte header, the key bytes, the value bytes. */
module Submissions {
  import opened Bytes
  import opened Wrapping

  const HEADER: nat := 24
  const OP_SET: byte := 1
  const OP_DEL: byte := 2
  const OP_SKIP: byte := 3

  datatype Submission = Submission(op: byte, flags: byte, ttlMs: nat, key: seq<byte>, val: seq<byte>)
  {
    /** The size of the record, header and padding included. */
    function Size(): (n: nat)
      ensures HEADER + |key| + |val| <= n < HEADER + |key| + |val| + 8 && n % 8 == 0
    {
      Align8(HEADER + |key| + |val|)
    }

    /** What fits the 32-bit fields. */
    predicate Fits() {
      Size() < TWO_32 && ttlMs < TWO_32
    }

    /** The bytes of the record, without the padding at its end. */
    function Image(): (s: seq<byte>)
      ensures |s| == HEADER + |key| + |val|
      ensures s[..HEADER] == EncodeHeader(Size(), op, flags, |key|, |val|, ttlMs)
      ensures s[HEADER..HEADER + |key|] == key && s[HEADER + |key|..] == val
    {
      EncodeHeader(Size(), op, flags, |key|, |val|, ttlMs) + key + val
    }
  }

  datatype Header = Header(len: nat, op: byte, flags: byte, keyLen: nat, valLen: nat, ttlMs: nat)

  /** len, op, flags, a reserved half word, keyLen, valLen, ttlMs, a reserved word. */
  function EncodeHeader(len: nat, op: byte, flags: byte, keyLen: nat, valLen: nat, ttlMs: nat): (s: seq<byte>)
    ensures |s| == HEADER
  {
    LE(len, 4) + [op, flags] + LE(0, 2) + LE(keyLen, 4) + LE(valLen, 4) + LE(ttlMs, 4) + LE(0, 4)
  }

  function DecodeHeader(s: seq<byte>): (h: Header)
    requires |s| == HEADER
  {
    Header(FromLE(s[0..4]), s[4], s[5], FromLE(s[8..12]), FromLE(s[12..16]), FromLE(s[16..20]))
  }

  lemma HeaderRoundTrip(len: nat, op: byte, flags: byte, keyLen: nat, valLen: nat, ttlMs: nat)
    requires len < TWO_32 && keyLen < TWO_32 && valLen < TWO_32 && ttlMs < TWO_32
    ensures DecodeHeader(EncodeHeader(len, op, flags, keyLen, valLen, ttlMs)) ==
            Header(len, op, flags, keyLen, valLen, ttlMs)
  {
    hide LE;
    hide FromLE;
    Widths();
    FromLEOfLE(len, 4);
    FromLEOfLE(keyLen, 4);
    FromLEOfLE(valLen, 4);
    FromLEOfLE(ttlMs, 4);
    var s := EncodeHeader(len, op, flags, keyLen, valLen, ttlMs);
    assert s[0..4] == LE(len, 4);
    assert s[8..12] == LE(keyLen, 4);
    assert s[12..16] == LE(valLen, 4);
    assert s[16..20] == LE(ttlMs, 4);
  }

  /** The bytes to step over where no header fits before the end of the buffer. */
  function GapAt(off: nat, cap: nat): nat
    requires off < cap
  {
    if cap - off < HEADER then cap - off else 0
  }

  /** What the consumer accepts. Every field may be garbage. */
  predicate Validate(h: Header, avail: nat, maxKey: nat, maxVal: nat) {
    if h.len < HEADER || h.len > avail then false
    else if h.len % 8 != 0 then false
    else if h.op == OP_SKIP then h.keyLen == 0 && h.valLen == 0
    else if h.op != OP_SET && h.op != OP_DEL then false
    else if h.keyLen == 0 || h.keyLen > maxKey then false
    else if h.valLen > maxVal then false
    else HEADER + h.keyLen + h.valLen <= h.len && Align8(HEADER + h.keyLen + h.valLen) == h.len
  }

  /** What a producer has to keep to, since submitPush checks only the size. */
  predicate Admissible(r: Submission, maxKey: nat, maxVal: nat) {
    (r.op == OP_SET || r.op == OP_DEL) && 1 <= |r.key| <= maxKey && |r.val| <= maxVal
  }

  /** A record that was pushed passes validation exactly when it was admissible: a set or a delete of a key
      that is not empty, with key and value within the bounds, the empty value included. */
  lemma PushedValidatesIffAdmissible(r: Submission, avail: nat, maxKey: nat, maxVal: nat)
    requires r.Fits() && r.Size() <= avail && r.op != OP_SKIP
    ensures Validate(DecodeHeader(r.Image()[..HEADER]), avail, maxKey, maxVal) <==> Admissible(r, maxKey, maxVal)
    ensures Admissible(r, maxKey, maxVal) <==> r.op in {OP_SET, OP_DEL} && 0 < |r.key| <= maxKey && |r.val| <= maxVal
  {
    hide EncodeHeader;
    hide DecodeHeader;
    HeaderRoundTrip(r.Size(), r.op, r.flags, |r.key|, |r.val|, r.ttlMs);
  }

  /** A SKIP over the rest of the buffer always passes. */
  lemma SkipValidates(len: nat, avail: nat, maxKey: nat, maxVal: nat)
    requires HEADER <= len <= avail && len % 8 == 0 && len < TWO_32
    ensures Validate(DecodeHeader(EncodeHeader(len, OP_SKIP, 0, 0, 0, 0)), avail, maxKey, maxVal)
  {
    HeaderRoundTrip(len, OP_SKIP, 0, 0, 0, 0);
  }
}
