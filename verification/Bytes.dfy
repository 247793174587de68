/** Bytes and the little-endian encoding of the fixed-width fields of a record header. */
module Bytes {

  type byte = x: int | 0 <= x < 256

  const TWO_16: nat := 0x1_0000
  const TWO_32: nat := 0x1_0000_0000
  const TWO_64: nat := 0x1_0000_0000_0000_0000

  /** 256 to the power w: one more than the largest value of w bytes. */
  function Pow256(w: nat): (r: nat)
    ensures r > 0
  {
    if w == 0 then 1 else 256 * Pow256(w - 1)
  }

  /** The w-byte little-endian image of n; anything above w bytes is cut off, as a store to a
      w-byte field does. */
  function LE(n: nat, w: nat): (s: seq<byte>)
    ensures |s| == w
  {
    if w == 0 then [] else [n % 256] + LE(n / 256, w - 1)
  }

  function FromLE(s: seq<byte>): (n: nat)
    ensures n < Pow256(|s|)
  {
    if s == [] then 0 else s[0] + 256 * FromLE(s[1..])
  }

  lemma {:induction false} FromLEOfLE(n: nat, w: nat)
    requires n < Pow256(w)
    ensures FromLE(LE(n, w)) == n
  {
    if w > 0 {
      FromLEOfLE(n / 256, w - 1);
      assert LE(n, w)[1..] == LE(n / 256, w - 1);
    }
  }

  lemma Widths()
    ensures Pow256(1) == 256 && Pow256(2) == TWO_16 && Pow256(4) == TWO_32 && Pow256(8) == TWO_64
  {
    assert Pow256(2) == 256 * Pow256(1);
    assert Pow256(4) == 256 * Pow256(3);
    assert Pow256(6) == 256 * Pow256(5) == 256 * 256 * Pow256(4);
    assert Pow256(8) == 256 * Pow256(7) == 256 * 256 * Pow256(6);
  }

  /** `data` with the bytes of `s` written from address `a` on. */
  function Splice(data: seq<byte>, a: nat, s: seq<byte>): (r: seq<byte>)
    requires a + |s| <= |data|
    ensures |r| == |data|
    ensures r[a..a + |s|] == s
    ensures forall k :: 0 <= k < |data| && !(a <= k < a + |s|) ==> r[k] == data[k]
  {
    data[..a] + s + data[a + |s|..]
  }

  lemma SpliceNothing(data: seq<byte>, a: nat)
    requires a <= |data|
    ensures Splice(data, a, []) == data
  {
  }

  /** Copying one more byte. */
  lemma SpliceNext(data: seq<byte>, a: nat, s: seq<byte>, k: nat)
    requires a + |s| <= |data| && k < |s|
    ensures Splice(data, a, s[..k])[a + k := s[k]] == Splice(data, a, s[..k + 1])
  {
    var u, v := Splice(data, a, s[..k])[a + k := s[k]], Splice(data, a, s[..k + 1]);
    forall x | 0 <= x < |data|
      ensures u[x] == v[x]
    {
      if a <= x < a + k {
        assert Splice(data, a, s[..k])[a..a + k][x - a] == s[x - a];
      }
      if a <= x < a + k + 1 {
        assert v[a..a + k + 1][x - a] == s[x - a];
      }
    }
  }

  /** A slice that a splice does not touch keeps its contents. */
  lemma SpliceElsewhere(data: seq<byte>, a: nat, s: seq<byte>, lo: nat, hi: nat)
    requires a + |s| <= |data| && lo <= hi <= |data|
    requires hi <= a || a + |s| <= lo
    ensures Splice(data, a, s)[lo..hi] == data[lo..hi]
  {
    var r := Splice(data, a, s);
    forall k | 0 <= k < hi - lo
      ensures r[lo..hi][k] == data[lo..hi][k]
    {
      assert r[lo..hi][k] == r[lo + k];
    }
  }

  /** A slice of a string that lies in d is a slice of d. */
  lemma SubSlice(d: seq<byte>, a: nat, s: seq<byte>, lo: nat, hi: nat)
    requires a + |s| <= |d| && d[a..a + |s|] == s && lo <= hi <= |s|
    ensures d[a + lo..a + hi] == s[lo..hi]
  {
    forall k | lo <= k < hi
      ensures d[a + k] == s[k]
    {
      assert d[a..a + |s|][k] == d[a + k];
    }
    assert d[a + lo..a + hi] == s[lo..hi];
  }
}
