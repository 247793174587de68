/** The log record: a 40-byte header followed by the key bytes and the value bytes. */
module Records {
  import opened Bytes

  const HEADER: nat := 40
  /** The bytes before `hash`: the sequence lock (4) and the owning slot (4). */
  const LEAD: nat := 8
  const SLOT_PAD: nat := 0xFFFF_FFFF
  /** Hash values 0 and 1 are reserved as sentinels in the index. */
  const FIRST_HASH: nat := 2

  // Offsets inside a record.
  const SEQ_AT: nat := 0
  const SLOT_AT: nat := 4
  const HASH_AT: nat := 8
  const VERSION_AT: nat := 16
  const EXPIRES_AT: nat := 20
  const RAW_AT: nat := 24
  const STORED_AT: nat := 28
  const BLOCK_AT: nat := 32
  const KEYLEN_AT: nat := 36
  const FLAGS_AT: nat := 38

  /** The 32 bits of an operation number that are stored. */
  function Version(id: nat): (v: nat)
    ensures v < TWO_32
  {
    id % TWO_32
  }

  /** What one storeSet writes once and never changes. `version` is `id` cut to 32 bits; `id` is
      the 64-bit operation counter. `tail` is the one byte of the header that no field owns. */
  datatype Rec = Rec(
    key: seq<byte>, val: seq<byte>, hash: nat, id: nat, expiresAt: nat, rawLen: nat,
    blockSize: nat, flags: byte, tail: byte)
  {
    predicate Fits() {
      && |key| < TWO_16 && |val| < TWO_32 && FIRST_HASH <= hash < TWO_64
      && expiresAt < TWO_32 && rawLen < TWO_32 && blockSize < TWO_32
      && HEADER + |key| + |val| <= blockSize && blockSize % 8 == 0
    }

    /** The header bytes from offset LEAD on. */
    function Head(): (s: seq<byte>)
      ensures |s| == HEADER - LEAD
    {
      LE(hash, 8) + LE(Version(id), 4) + LE(expiresAt, 4) + LE(rawLen, 4) + LE(|val|, 4) +
      LE(blockSize, 4) + LE(|key|, 2) + [flags] + [tail]
    }

    /** All bytes of the record from offset LEAD on. */
    function Image(): (s: seq<byte>)
      ensures |s| == HEADER - LEAD + |key| + |val|
      ensures s[..HEADER - LEAD] == Head()
      ensures s[HEADER - LEAD..HEADER - LEAD + |key|] == key
      ensures s[HEADER - LEAD + |key|..] == val
    {
      Head() + key + val
    }
  }

  /** The value of the w-byte field at offset `at` of a header, `hd` being the header from LEAD. */
  function Field(hd: seq<byte>, at: nat, w: nat): nat
    requires LEAD <= at && at + w <= HEADER && |hd| == HEADER - LEAD
  {
    FromLE(hd[at - LEAD..at - LEAD + w])
  }

  /** Decoding the header gives back every field that was encoded. */
  lemma HeaderRoundTrip(r: Rec)
    requires r.Fits()
    ensures Field(r.Head(), HASH_AT, 8) == r.hash
    ensures Field(r.Head(), VERSION_AT, 4) == Version(r.id)
    ensures Field(r.Head(), EXPIRES_AT, 4) == r.expiresAt
    ensures Field(r.Head(), RAW_AT, 4) == r.rawLen
    ensures Field(r.Head(), STORED_AT, 4) == |r.val|
    ensures Field(r.Head(), BLOCK_AT, 4) == r.blockSize
    ensures Field(r.Head(), KEYLEN_AT, 2) == |r.key|
    ensures r.Head()[FLAGS_AT - LEAD] == r.flags
  {
    hide LE;
    hide FromLE;
    Widths();
    FromLEOfLE(r.hash, 8);
    FromLEOfLE(Version(r.id), 4);
    FromLEOfLE(r.expiresAt, 4);
    FromLEOfLE(r.rawLen, 4);
    FromLEOfLE(|r.val|, 4);
    FromLEOfLE(r.blockSize, 4);
    FromLEOfLE(|r.key|, 2);
    var s := r.Head();
    assert s[0..8] == LE(r.hash, 8);
    assert s[8..12] == LE(Version(r.id), 4);
    assert s[12..16] == LE(r.expiresAt, 4);
    assert s[16..20] == LE(r.rawLen, 4);
    assert s[20..24] == LE(|r.val|, 4);
    assert s[24..28] == LE(r.blockSize, 4);
    assert s[28..30] == LE(|r.key|, 2);
  }
}
