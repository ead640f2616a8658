/**
 String handling that the configuration parser, the cache keys and the partition
 table names rely on: splitting and joining on a delimiter, decimal numerals and
 hexadecimal digests. The round trips proved here are what makes those three
 encodings unambiguous.
 */
module Text {
  import opened Wrappers

  // ---------------------------------------------------------------- delimiters

  ghost predicate AllFree(parts: seq<string>, c: char) {
    forall i :: 0 <= i < |parts| ==> c !in parts[i]
  }

  /** strings.Join with a one-character separator. */
  function Join(parts: seq<string>, c: char): string
    requires |parts| >= 1
  {
    if |parts| == 1 then parts[0] else parts[0] + [c] + Join(parts[1..], c)
  }

  lemma JoinTwo(a: string, b: string, c: char)
    ensures Join([a, b], c) == a + [c] + b
  {
    assert [a, b][1..] == [b];
  }

  /** strings.Split with a one-character separator: it never returns an empty list. */
  function Split(s: string, c: char): (parts: seq<string>)
    ensures |parts| >= 1
    ensures AllFree(parts, c)
    ensures Join(parts, c) == s
  {
    if s == "" then [""]
    else
      var rest := Split(s[1..], c);
      if s[0] == c then
        var parts := [""] + rest;
        assert parts[1..] == rest;
        parts
      else
        var parts := [[s[0]] + rest[0]] + rest[1..];
        assert parts[1..] == rest[1..];
        parts
  }

  /** Two texts cut at their first delimiter have the same head and the same tail. */
  lemma CutUnique(x: string, u: string, y: string, v: string, c: char)
    requires c !in x && c !in y
    requires x + [c] + u == y + [c] + v
    ensures x == y && u == v
  {
    var l, r := x + [c] + u, y + [c] + v;
    assert forall i :: 0 <= i < |x| ==> l[i] == x[i];
    assert forall i :: 0 <= i < |y| ==> r[i] == y[i];
    assert l[|x|] == c && r[|y|] == c;
    assert |x| == |y|;
    assert x == l[..|x|] && y == r[..|x|];
    assert u == l[|x| + 1..] && v == r[|x| + 1..];
  }

  lemma DropPrefix(p: string, x: string, y: string)
    requires p + x == p + y
    ensures x == y
  {
    assert x == (p + x)[|p|..] && y == (p + y)[|p|..];
  }

  /** Two texts cut at their last delimiter have the same head and the same tail. */
  lemma CutLastUnique(x: string, u: string, y: string, v: string, c: char)
    requires c !in u && c !in v
    requires x + [c] + u == y + [c] + v
    ensures x == y && u == v
  {
    var l, r := x + [c] + u, y + [c] + v;
    assert forall i :: |x| < i < |l| ==> l[i] == u[i - |x| - 1];
    assert forall i :: |y| < i < |r| ==> r[i] == v[i - |y| - 1];
    assert l[|x|] == c && r[|y|] == c;
    assert |x| == |y|;
    assert x == l[..|x|] && y == r[..|x|];
    assert u == l[|x| + 1..] && v == r[|x| + 1..];
  }

  /** The separator shows up exactly when there is more than one part. */
  lemma JoinHasSeparator(parts: seq<string>, c: char)
    requires |parts| >= 1 && AllFree(parts, c)
    ensures c in Join(parts, c) <==> |parts| > 1
  {
    if |parts| > 1 {
      assert Join(parts, c)[|parts[0]|] == c;
    }
  }

  /** Delimiter-free lists are determined by what they join to. */
  lemma {:induction false} JoinInjective(a: seq<string>, b: seq<string>, c: char)
    requires |a| >= 1 && |b| >= 1 && AllFree(a, c) && AllFree(b, c)
    requires Join(a, c) == Join(b, c)
    ensures a == b
  {
    JoinHasSeparator(a, c);
    JoinHasSeparator(b, c);
    if |a| > 1 {
      CutUnique(a[0], Join(a[1..], c), b[0], Join(b[1..], c), c);
      JoinInjective(a[1..], b[1..], c);
      assert a == [a[0]] + a[1..] && b == [b[0]] + b[1..];
    }
  }

  /** Splitting undoes joining. */
  lemma SplitJoin(parts: seq<string>, c: char)
    requires |parts| >= 1 && AllFree(parts, c)
    ensures Split(Join(parts, c), c) == parts
  {
    JoinInjective(Split(Join(parts, c), c), parts, c);
  }

  /** A joined text is free of any character that its parts and its separator avoid. */
  lemma {:induction false} JoinFree(parts: seq<string>, c: char, d: char)
    requires |parts| >= 1 && c != d && AllFree(parts, d)
    ensures d !in Join(parts, c)
  {
    if |parts| > 1 {
      JoinFree(parts[1..], c, d);
    }
  }

  // ----------------------------------------------------------------- numerals

  predicate IsDigit(c: char) { '0' <= c <= '9' }

  function DigitChar(d: nat): char
    requires d < 10
  {
    ('0' as int + d) as char
  }

  function DigitValue(c: char): (d: nat)
    requires IsDigit(c)
    ensures d < 10
  {
    c as int - '0' as int
  }

  predicate AllDigits(s: string) {
    forall i :: 0 <= i < |s| ==> IsDigit(s[i])
  }

  /** The decimal numeral of a natural number (the %d verb). */
  function Decimal(n: nat): (s: string)
    ensures |s| >= 1 && AllDigits(s)
  {
    if n < 10 then [DigitChar(n)] else Decimal(n / 10) + [DigitChar(n % 10)]
  }

  /** The most significant digit comes first. */
  lemma DecimalExample()
    ensures Decimal(2023) == "2023"
  {
    assert Decimal(20) == "20" && Decimal(202) == "202";
  }

  /** The %d verb on a signed number. */
  function SignedDecimal(n: int): string {
    if n < 0 then "-" + Decimal(-n) else Decimal(n)
  }

  /** The number a digit string denotes; leading zeros are allowed. */
  function Numeral(s: string): nat
    requires AllDigits(s)
  {
    if s == "" then 0 else 10 * Numeral(s[..|s| - 1]) + DigitValue(s[|s| - 1])
  }

  lemma {:induction false} NumeralOfDecimal(n: nat)
    ensures Numeral(Decimal(n)) == n
  {
    var s := Decimal(n);
    if n < 10 {
      assert s[..|s| - 1] == "";
    } else {
      NumeralOfDecimal(n / 10);
      assert s[..|s| - 1] == Decimal(n / 10);
    }
  }

  /** The number a numeral printed by the %d verb denotes. */
  function SignedNumeral(s: string): int {
    if s != "" && s[0] == '-' && AllDigits(s[1..]) then -(Numeral(s[1..]) as int)
    else if AllDigits(s) then Numeral(s)
    else 0
  }

  lemma SignedNumeralOfDecimal(n: int)
    ensures SignedNumeral(SignedDecimal(n)) == n
  {
    if n < 0 {
      NumeralOfDecimal(-n);
      assert SignedDecimal(n)[1..] == Decimal(-n);
    } else {
      NumeralOfDecimal(n);
      assert IsDigit(Decimal(n)[0]);
    }
  }

  lemma SignedDecimalInjective(m: int, n: int)
    requires SignedDecimal(m) == SignedDecimal(n)
    ensures m == n
  {
    SignedNumeralOfDecimal(m);
    SignedNumeralOfDecimal(n);
  }

  lemma SignedDecimalCharacters(n: int)
    ensures |SignedDecimal(n)| >= 1
    ensures forall i :: 0 <= i < |SignedDecimal(n)| ==> SignedDecimal(n)[i] == '-' || IsDigit(SignedDecimal(n)[i])
  {
  }

  const UINT64_MAX: nat := 0xFFFF_FFFF_FFFF_FFFF

  /** strconv.ParseUint(s, 10, 64): digits only, at least one, no overflow. */
  function ParseUint64(s: string): (r: Option<nat>)
    ensures r.Some? ==> r.value <= UINT64_MAX
  {
    if s != "" && AllDigits(s) && Numeral(s) <= UINT64_MAX then Some(Numeral(s)) else None
  }

  lemma ParseUint64OfDecimal(n: nat)
    requires n <= UINT64_MAX
    ensures ParseUint64(Decimal(n)) == Some(n)
  {
    NumeralOfDecimal(n);
  }

  // -------------------------------------------------------------- hexadecimal

  type Byte = b: int | 0 <= b < 256

  function HexDigit(d: nat): char
    requires d < 16
  {
    if d < 10 then ('0' as int + d) as char else ('a' as int + d - 10) as char
  }

  /** hex.EncodeToString. */
  function Hex(bytes: seq<Byte>): (s: string)
    ensures |s| == 2 * |bytes|
  {
    if bytes == [] then ""
    else [HexDigit(bytes[0] / 16), HexDigit(bytes[0] % 16)] + Hex(bytes[1..])
  }

  /** Two lower-case digits for a byte, the high half first. */
  lemma HexExample()
    ensures Hex([0, 10, 171, 255]) == "000aabff"
  {
    var b: seq<Byte> := [0, 10, 171, 255];
    assert b[1..] == [10, 171, 255] && b[1..][1..] == [171, 255] && b[1..][1..][1..] == [255];
    assert Hex([255]) == "ff" && Hex([171, 255]) == "abff" && Hex([10, 171, 255]) == "0aabff";
  }

  lemma {:induction false} HexFree(bytes: seq<Byte>)
    ensures ':' !in Hex(bytes)
  {
    if bytes != [] {
      HexFree(bytes[1..]);
    }
  }

  lemma {:induction false} HexInjective(a: seq<Byte>, b: seq<Byte>)
    requires Hex(a) == Hex(b)
    ensures a == b
  {
    if a != [] {
      var s, t := Hex(a), Hex(b);
      assert |b| == |a|;
      assert s[0] == t[0] && s[1] == t[1];
      assert s[2..] == Hex(a[1..]) && t[2..] == Hex(b[1..]);
      HexInjective(a[1..], b[1..]);
      assert a == [a[0]] + a[1..] && b == [b[0]] + b[1..];
    }
  }
}
