/** Keys: UTF-16 strings of the caller, stored as UTF-8 (RFC 3629, section 3). The conversion replaces
    every unpaired surrogate by U+FFFD, which would make different keys share their bytes. */
module KeyEncoding {
  import opened Bytes

  type unit = x: int | 0 <= x < 0x1_0000

  const KEY_MAX: nat := 1024
  const REPLACEMENT: seq<byte> := [0xEF, 0xBF, 0xBD]

  predicate High(u: unit) {
    0xD800 <= u <= 0xDBFF
  }

  predicate Low(u: unit) {
    0xDC00 <= u <= 0xDFFF
  }

  /** Does the string begin with a surrogate pair? */
  predicate Paired(s: seq<unit>) {
    |s| >= 2 && High(s[0]) && Low(s[1])
  }

  /** How many units the first character takes. */
  function Units(s: seq<unit>): (n: nat)
    requires s != []
    ensures 1 <= n <= |s|
  {
    if Paired(s) then 2 else 1
  }

  /** The code point of the first character; an unpaired surrogate counts as U+FFFD. */
  function CodePoint(s: seq<unit>): (c: nat)
    requires s != []
    ensures c < 0x11_0000 && !(0xD800 <= c <= 0xDFFF)
  {
    if Paired(s) then 0x1_0000 + (s[0] as int - 0xD800) * 0x400 + (s[1] as int - 0xDC00)
    else if High(s[0]) || Low(s[0]) then 0xFFFD
    else s[0]
  }

  /** The UTF-8 form of one code point. */
  function Utf8(c: nat): (b: seq<byte>)
    requires c < 0x11_0000
    ensures 1 <= |b| <= 4
  {
    if c < 0x80 then [c]
    else if c < 0x800 then [0xC0 + c / 0x40, 0x80 + c % 0x40]
    else if c < 0x1_0000 then [0xE0 + c / 0x1000, 0x80 + c / 0x40 % 0x40, 0x80 + c % 0x40]
    else [0xF0 + c / 0x4_0000, 0x80 + c / 0x1000 % 0x40, 0x80 + c / 0x40 % 0x40, 0x80 + c % 0x40]
  }

  function Encode(s: seq<unit>): (b: seq<byte>)
    ensures |s| <= |b|
  {
    if s == [] then []
    else
      TwoUnitsFourBytes(s);
      Utf8(CodePoint(s)) + Encode(s[Units(s)..])
  }

  lemma TwoUnitsFourBytes(s: seq<unit>)
    requires s != []
    ensures Units(s) <= |Utf8(CodePoint(s))|
  {
  }

  /** No surrogate without its partner. */
  predicate WellFormed(s: seq<unit>) {
    s == [] || ((Paired(s) || (!High(s[0]) && !Low(s[0]))) && WellFormed(s[Units(s)..]))
  }

  /** The bits of a byte behind its prefix. */
  function Bits(b: byte, prefix: byte): int {
    b as int - prefix as int
  }

  /** THE UTF-8 OF RFC 3629. The shortest of the four forms: a lead byte that tells the length, continuation bytes
      10xxxxxx, and between them the bits of the code point, the highest first. */
  lemma Utf8IsStandard(c: nat)
    requires c < 0x11_0000
    ensures var b := Utf8(c);
            && |b| == (if c < 0x80 then 1 else if c < 0x800 then 2 else if c < 0x1_0000 then 3 else 4)
            && (forall k | 1 <= k < |b| :: 0x80 <= b[k] < 0xC0)
            && (|b| == 1 ==> b[0] == c)
            && (|b| == 2 ==> 0xC0 <= b[0] < 0xE0 && c == Bits(b[0], 0xC0) * 0x40 + Bits(b[1], 0x80))
            && (|b| == 3 ==> 0xE0 <= b[0] < 0xF0 &&
                             c == (Bits(b[0], 0xE0) * 0x40 + Bits(b[1], 0x80)) * 0x40 + Bits(b[2], 0x80))
            && (|b| == 4 ==> 0xF0 <= b[0] < 0xF8 &&
                             c == ((Bits(b[0], 0xF0) * 0x40 + Bits(b[1], 0x80)) * 0x40 + Bits(b[2], 0x80)) * 0x40
                                  + Bits(b[3], 0x80))
  {
    assert c == c / 0x40 * 0x40 + c % 0x40;
    assert c / 0x40 == c / 0x1000 * 0x40 + c / 0x40 % 0x40;
    assert c / 0x1000 == c / 0x4_0000 * 0x40 + c / 0x1000 % 0x40;
  }

  /** A key of ASCII characters is its own encoding. */
  lemma {:induction false} AsciiIsItself(s: seq<unit>)
    requires forall k | 0 <= k < |s| :: s[k] < 0x80
    ensures WellFormed(s) && |Encode(s)| == |s| && forall k | 0 <= k < |s| :: Encode(s)[k] == s[k]
  {
    if s != [] {
      AsciiIsItself(s[1..]);
      assert Encode(s) == [s[0]] + Encode(s[1..]);
    }
  }

  // --------------------------------------------------------------------------- injective

  /** The length of the character that begins with this byte. */
  function Length(lead: byte): (n: nat)
    ensures 1 <= n <= 4
  {
    if lead < 0x80 then 1 else if lead < 0xE0 then 2 else if lead < 0xF0 then 3 else 4
  }

  /** The code point at the beginning of b. */
  function Scalar(b: seq<byte>): int
    requires b != [] && Length(b[0]) <= |b|
  {
    match Length(b[0])
    case 1 => b[0]
    case 2 => (b[0] as int - 0xC0) * 0x40 + (b[1] as int - 0x80)
    case 3 => (b[0] as int - 0xE0) * 0x1000 + (b[1] as int - 0x80) * 0x40 + (b[2] as int - 0x80)
    case _ =>
      (b[0] as int - 0xF0) * 0x4_0000 + (b[1] as int - 0x80) * 0x1000 +
      (b[2] as int - 0x80) * 0x40 + (b[3] as int - 0x80)
  }

  /** One character can be read off the front of any string of bytes that begins with it. */
  lemma ScalarRoundTrip(c: nat, rest: seq<byte>)
    requires c < 0x11_0000
    ensures var b := Utf8(c) + rest; Length(b[0]) == |Utf8(c)| && Scalar(b) == c
  {
    assert c == c / 0x40 * 0x40 + c % 0x40;
    assert c / 0x40 == c / 0x1000 * 0x40 + c / 0x40 % 0x40;
    assert c / 0x1000 == c / 0x4_0000 * 0x40 + c / 0x1000 % 0x40;
  }

  /** Well-formed strings with one first code point begin with the same units. */
  lemma SameUnits(s: seq<unit>, t: seq<unit>)
    requires s != [] && t != [] && WellFormed(s) && WellFormed(t) && CodePoint(s) == CodePoint(t)
    ensures Units(s) == Units(t) && s[..Units(s)] == t[..Units(t)]
  {
    if Paired(s) {
      assert s[0] == t[0] && s[1] == t[1];
    }
  }

  /** INJECTIVE. Two well-formed keys with the same bytes are the same key. */
  lemma {:induction false} EncodeIsInjective(s: seq<unit>, t: seq<unit>)
    requires WellFormed(s) && WellFormed(t) && Encode(s) == Encode(t)
    ensures s == t
  {
    hide Utf8;
    hide CodePoint;
    hide Scalar;
    hide Length;
    hide Paired;
    if s != [] && t != [] {
      var restS, restT := Encode(s[Units(s)..]), Encode(t[Units(t)..]);
      ScalarRoundTrip(CodePoint(s), restS);
      ScalarRoundTrip(CodePoint(t), restT);
      var n := |Utf8(CodePoint(s))|;
      assert Encode(s)[n..] == restS && Encode(t)[n..] == restT;
      SameUnits(s, t);
      EncodeIsInjective(s[Units(s)..], t[Units(t)..]);
      assert s == s[..Units(s)] + s[Units(s)..] && t == t[..Units(t)] + t[Units(t)..];
    }
  }

  // ------------------------------------------------------------------------- the byte scan

  predicate FoldedAt(b: seq<byte>, i: nat) {
    i + 3 <= |b| && b[i..i + 3] == REPLACEMENT
  }

  /** A replaced surrogate shows up in the bytes. */
  lemma {:induction false} ReplacementShows(s: seq<unit>) returns (i: nat)
    requires !WellFormed(s)
    ensures FoldedAt(Encode(s), i)
  {
    hide Utf8;
    if Paired(s) || (!High(s[0]) && !Low(s[0])) {
      var rest := s[Units(s)..];
      var j := ReplacementShows(rest);
      i := |Utf8(CodePoint(s))| + j;
      assert Encode(s)[i..i + 3] == Encode(rest)[j..j + 3];
    } else {
      i := 0;
      assert CodePoint(s) == 0xFFFD;
      Utf8OfReplacement();
      assert Encode(s)[0..3] == Utf8(0xFFFD);
    }
  }

  lemma Utf8OfReplacement()
    ensures Utf8(0xFFFD) == REPLACEMENT
  {
  }

  lemma NothingFolded(s: seq<unit>)
    requires forall x: nat :: !FoldedAt(Encode(s), x)
    ensures WellFormed(s)
  {
    hide Encode;
    if !WellFormed(s) {
      var x := ReplacementShows(s);
      assert false;
    }
  }

  datatype KeyResult = Refused | Accepted(bytes: seq<byte>)

  /** Reads a key. The units are looked at only when the bytes contain U+FFFD. */
  method ReadKey(s: seq<unit>) returns (r: KeyResult)
    ensures r.Accepted? <==> |Encode(s)| <= 1024 && WellFormed(s)
    ensures r.Accepted? ==> r.bytes == Encode(s)
  {
    hide Encode;
    var buf := Encode(s);
    if |buf| > KEY_MAX {
      return Refused;
    }
    var maybeFolded := false;
    var i: nat := 0;
    while i + 2 < |buf|
      invariant !maybeFolded && forall x: nat | x < i :: !FoldedAt(buf, x)
    {
      if buf[i] == 0xEF && buf[i + 1] == 0xBF && buf[i + 2] == 0xBD {
        assert buf[i..i + 3] == REPLACEMENT;
        maybeFolded := true;
        break;
      }
      assert buf[i..i + 3][0] == buf[i] && buf[i..i + 3][1] == buf[i + 1] && buf[i..i + 3][2] == buf[i + 2];
      i := i + 1;
    }
    if maybeFolded {
      if |s| <= KEY_MAX {
        var paired := AllPaired(s);
        if !paired {
          return Refused;
        }
      }
    } else {
      NothingFolded(s);
    }
    return Accepted(buf);
  }

  /** Looks for a surrogate without its partner. */
  method AllPaired(s: seq<unit>) returns (ok: bool)
    ensures ok <==> WellFormed(s)
  {
    var i: nat := 0;
    assert s[0..] == s;
    while i < |s|
      invariant i <= |s| && (WellFormed(s) <==> WellFormed(s[i..]))
    {
      var c := s[i];
      ghost var rest := s[i..];
      assert rest[Units(rest)..] == s[i + Units(rest)..];
      if 0xD800 <= c <= 0xDBFF {
        if i + 1 >= |s| || s[i + 1] < 0xDC00 || s[i + 1] > 0xDFFF {
          return false;
        }
        i := i + 1;
      } else if 0xDC00 <= c <= 0xDFFF {
        return false;
      }
      i := i + 1;
    }
    return true;
  }

  /** Two keys that are both accepted and share their bytes are one key. */
  lemma AcceptedKeysDiffer(s: seq<unit>, t: seq<unit>)
    requires |Encode(s)| <= KEY_MAX && WellFormed(s) && |Encode(t)| <= KEY_MAX && WellFormed(t) && s != t
    ensures Encode(s) != Encode(t)
  {
    if Encode(s) == Encode(t) {
      EncodeIsInjective(s, t);
    }
  }

  /** Without the scan there would be two keys for one entry. */
  lemma UnpairedWouldCollide()
    ensures Encode([0xD800]) == Encode([0xDC00]) == Encode([0xFFFD])
    ensures !WellFormed([0xD800]) && !WellFormed([0xDC00]) && WellFormed([0xFFFD])
  {
    assert CodePoint([0xD800]) == CodePoint([0xDC00]) == CodePoint([0xFFFD]);
    assert Encode([0xD800]) == Utf8(0xFFFD) + Encode([]);
    assert Encode([0xDC00]) == Utf8(0xFFFD) + Encode([]);
    assert Encode([0xFFFD]) == Utf8(0xFFFD) + Encode([]);
    assert WellFormed([0xFFFD][1..]);
  }
}
