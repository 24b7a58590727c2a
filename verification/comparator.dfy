/** `CtClassComparator`: orders classes by their fully qualified names, as
    `String.compareTo` orders strings: by their UTF-16 code units.  The product map of the factory
    enhancer is sorted with it, so two distinct product classes share a key
    exactly when they share a name.
 */
module Comparator {
  import opened Types

  /** A UTF-16 code unit. */
  predicate IsUnit(u: int) { 0 <= u < 0x10000 }
  predicate IsHigh(u: int) { 0xD800 <= u < 0xDC00 }
  predicate IsLow(u: int) { 0xDC00 <= u < 0xE000 }

  /** The code units of one character: itself below U+10000, otherwise a
      high surrogate followed by a low one. */
  function Units(c: char): (u: seq<int>)
    ensures |u| == 1 <==> (c as int) < 0x10000
    ensures |u| == 1 || |u| == 2
    ensures forall i :: 0 <= i < |u| ==> IsUnit(u[i])
    ensures |u| == 1 ==> !IsHigh(u[0]) && !IsLow(u[0])
    ensures |u| == 2 ==> IsHigh(u[0]) && IsLow(u[1])
  {
    var n := c as int;
    if n < 0x10000 then [n]
    else [0xD800 + (n - 0x10000) / 0x400, 0xDC00 + (n - 0x10000) % 0x400]
  }

  /** The UTF-16 code units of `s`, the form in which a Java string holds
      its characters. */
  function Utf16(s: string): (u: seq<int>)
    ensures forall i :: 0 <= i < |u| ==> IsUnit(u[i])
  {
    if s == [] then [] else Units(s[0]) + Utf16(s[1..])
  }

  /** Reads characters back from code units; a surrogate without its
      partner reads as U+FFFD. */
  function Decode(u: seq<int>): string
    decreases |u|
  {
    if u == [] then []
    else if |u| >= 2 && IsHigh(u[0]) && IsLow(u[1]) then
      [(0x10000 + (u[0] - 0xD800) * 0x400 + (u[1] - 0xDC00)) as char] + Decode(u[2..])
    else if 0 <= u[0] < 0xD800 || 0xE000 <= u[0] < 0x10000 then [u[0] as char] + Decode(u[1..])
    else ['\U{FFFD}'] + Decode(u[1..])
  }

  /** Decoding the units of one character yields it back. */
  lemma UnitsRoundTrip(c: char, rest: seq<int>)
    ensures Decode(Units(c) + rest) == [c] + Decode(rest)
  {
    var n := c as int;
    var u := Units(c) + rest;
    if n >= 0x10000 {
      var q, m := (n - 0x10000) / 0x400, (n - 0x10000) % 0x400;
      assert n == 0x10000 + q * 0x400 + m;
      assert u[2..] == rest;
    } else {
      assert u[1..] == rest;
    }
  }

  /** The encoding loses nothing. */
  lemma {:induction false} Utf16RoundTrip(s: string)
    ensures Decode(Utf16(s)) == s
  {
    if s != [] {
      UnitsRoundTrip(s[0], Utf16(s[1..]));
      Utf16RoundTrip(s[1..]);
      assert [s[0]] + s[1..] == s;
    }
  }

  lemma Utf16Injective(a: string, b: string)
    ensures Utf16(a) == Utf16(b) <==> a == b
  {
    if Utf16(a) == Utf16(b) {
      Utf16RoundTrip(a);
      Utf16RoundTrip(b);
    }
  }

  /** `String.compareTo` on code unit sequences: the difference of the first
      differing units, or else the difference of the lengths. */
  function CompareUnits(a: seq<int>, b: seq<int>): (r: int)
    decreases |a|
  {
    if a == [] || b == [] then |a| - |b|
    else if a[0] != b[0] then a[0] - b[0]
    else CompareUnits(a[1..], b[1..])
  }

  /** `String.compareTo`, which compares UTF-16 code units. */
  function CompareNames(a: string, b: string): (r: int)
    ensures r == 0 <==> a == b
  {
    CompareZero(Utf16(a), Utf16(b));
    Utf16Injective(a, b);
    CompareUnits(Utf16(a), Utf16(b))
  }

  lemma NamesAntisymmetric(a: string, b: string)
    ensures CompareNames(a, b) == -CompareNames(b, a)
  {
    CompareAntisymmetric(Utf16(a), Utf16(b));
  }

  /** `compare(o1, o2)` of the shared `INSTANCE`; the comparator keeps no
      state, so every comparison depends on the two names alone. */
  function Compare(c1: Type, c2: Type): (r: int)
    ensures r == 0 <==> c1.Name() == c2.Name()
    ensures r == -CompareNames(c2.Name(), c1.Name())
  {
    NamesAntisymmetric(c1.Name(), c2.Name());
    CompareNames(c1.Name(), c2.Name())
  }

  /** Lexicographic order, stated independently: a proper prefix comes
      first, otherwise the first position where the sequences differ
      decides. */
  predicate LexLess(a: seq<int>, b: seq<int>) {
    (|a| < |b| && a == b[..|a|])
    || exists k :: 0 <= k < |a| && k < |b| && a[..k] == b[..k] && a[k] < b[k]
  }

  lemma {:induction false} CompareZero(a: seq<int>, b: seq<int>)
    ensures CompareUnits(a, b) == 0 <==> a == b
    decreases |a|
  {
    if a != [] && b != [] && a[0] == b[0] {
      CompareZero(a[1..], b[1..]);
      assert a == [a[0]] + a[1..] && b == [b[0]] + b[1..];
    }
  }

  lemma {:induction false} CompareAntisymmetric(a: seq<int>, b: seq<int>)
    ensures CompareUnits(a, b) == -CompareUnits(b, a)
    decreases |a|
  {
    if a != [] && b != [] && a[0] == b[0] {
      CompareAntisymmetric(a[1..], b[1..]);
    }
  }

  lemma {:induction false} CompareNegativeIsLexLess(a: seq<int>, b: seq<int>)
    ensures CompareUnits(a, b) < 0 <==> LexLess(a, b)
    decreases |a|
  {
    if a == [] {
    } else if b == [] {
      assert !LexLess(a, b);
    } else if a[0] != b[0] {
      assert a[..0] == b[..0];
      forall k | 0 < k <= |a| && k <= |b|
        ensures a[..k] != b[..k]
      {
        assert a[..k][0] == a[0] && b[..k][0] == b[0];
      }
    } else {
      CompareNegativeIsLexLess(a[1..], b[1..]);
      if LexLess(a[1..], b[1..]) {
        if |a[1..]| < |b[1..]| && a[1..] == b[1..][..|a[1..]|] {
          assert a == b[..|a|];
        } else {
          var k :| 0 <= k < |a[1..]| && k < |b[1..]| && a[1..][..k] == b[1..][..k] && a[1..][k] < b[1..][k];
          assert a[..k + 1] == [a[0]] + a[1..][..k];
          assert b[..k + 1] == [b[0]] + b[1..][..k];
          assert a[k + 1] < b[k + 1];
        }
      }
      if LexLess(a, b) {
        if |a| < |b| && a == b[..|a|] {
          assert a[1..] == b[1..][..|a[1..]|];
        } else {
          var k :| 0 <= k < |a| && k < |b| && a[..k] == b[..k] && a[k] < b[k];
          assert k != 0;
          assert a[1..][..k - 1] == a[..k][1..] == b[..k][1..] == b[1..][..k - 1];
          assert a[1..][k - 1] < b[1..][k - 1];
        }
      }
    }
  }

  /** The order the comparator induces on classes is the lexicographic
      order of the UTF-16 code units of their names. */
  lemma ClassesOrderedByName(c1: Type, c2: Type)
    ensures Compare(c1, c2) < 0 <==> LexLess(Utf16(c1.Name()), Utf16(c2.Name()))
  {
    CompareNegativeIsLexLess(Utf16(c1.Name()), Utf16(c2.Name()));
  }

  /** Code unit order is not code point order: U+FF21 comes before
      U+1D400 as a character but after its high surrogate U+D835. */
  lemma SurrogatesSortBelowHighBmp()
    ensures "\U{FF21}"[0] < "\U{1D400}"[0]
    ensures CompareNames("\U{FF21}", "\U{1D400}") == 0xFF21 - 0xD835
  {
    assert Utf16("\U{FF21}") == [0xFF21];
    assert Utf16("\U{1D400}") == [0xD835, 0xDC00];
  }
}
