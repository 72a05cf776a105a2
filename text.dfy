/**
 * Character-level helpers shared by the pipeline: decimal rendering with Python's
 * zero-padding (`f"{n:03d}"`), parsing digits back, ASCII case mapping and
 * `str.replace` with a count.
 */
module Text {

  predicate IsDigit(c: char) {
    '0' <= c <= '9'
  }

  predicate AllDigits(s: string) {
    forall i :: 0 <= i < |s| ==> IsDigit(s[i])
  }

  function DigitChar(d: nat): (c: char)
    requires d < 10
    ensures IsDigit(c) && c as int - '0' as int == d
  {
    ('0' as int + d) as char
  }

  /** `str(n)` for a non-negative integer: its decimal digits, no leading zeros. */
  function Decimal(n: nat): (s: string)
    ensures |s| >= 1 && AllDigits(s)
    decreases n
  {
    if n < 10 then [DigitChar(n)] else Decimal(n / 10) + [DigitChar(n % 10)]
  }

  function Zeros(k: nat): (s: string)
    ensures |s| == k && forall i :: 0 <= i < k ==> s[i] == '0'
  {
    if k == 0 then [] else Zeros(k - 1) + ['0']
  }

  /**
   * `f"{n:0{width}d}"`: the decimal digits of `n`, left-padded with '0' to AT LEAST
   * `width` characters. Python's width is a minimum, so nothing is ever cut off.
   */
  function PadNat(n: nat, width: nat): (s: string)
    ensures AllDigits(s)
    ensures |s| == if |Decimal(n)| < width then width else |Decimal(n)|
  {
    var d := Decimal(n);
    if |d| < width then Zeros(width - |d|) + d else d
  }

  /** `int(s)` for a string of ASCII digits. */
  function Value(s: string): nat
    requires AllDigits(s)
    decreases |s|
  {
    if s == [] then 0 else Value(s[..|s| - 1]) * 10 + (s[|s| - 1] as int - '0' as int)
  }

  function Pow10(k: nat): (p: nat)
    ensures p >= 1
  {
    if k == 0 then 1 else 10 * Pow10(k - 1)
  }

  lemma {:induction false} ValueOfDecimal(n: nat)
    ensures Value(Decimal(n)) == n
    decreases n
  {
    if n >= 10 {
      var d := Decimal(n / 10);
      ValueOfDecimal(n / 10);
      assert (d + [DigitChar(n % 10)])[..|d|] == d;
    }
  }

  lemma {:induction false} ValueOfZeros(k: nat)
    ensures Value(Zeros(k)) == 0
  {
    if k > 0 {
      ValueOfZeros(k - 1);
      assert Zeros(k)[..k - 1] == Zeros(k - 1);
    }
  }

  /** Leading zeros do not change the value of a digit string. */
  lemma {:induction false} ValueIgnoresLeadingZeros(k: nat, s: string)
    requires AllDigits(s)
    ensures AllDigits(Zeros(k) + s) && Value(Zeros(k) + s) == Value(s)
    decreases |s|
  {
    var z := Zeros(k);
    if s == [] {
      assert z + s == z;
      ValueOfZeros(k);
    } else {
      var t := s[..|s| - 1];
      ValueIgnoresLeadingZeros(k, t);
      assert (z + s)[..|z + s| - 1] == z + t;
    }
  }

  /** Round trip: parsing a zero-padded rendering gives the number back, whatever the width. */
  lemma PadNatRoundTrip(n: nat, width: nat)
    ensures Value(PadNat(n, width)) == n
  {
    var d := Decimal(n);
    ValueOfDecimal(n);
    if |d| < width {
      ValueIgnoresLeadingZeros(width - |d|, d);
    }
  }

  /** Distinct numbers always render to distinct padded strings. */
  lemma PadNatInjective(a: nat, b: nat, width: nat)
    ensures PadNat(a, width) == PadNat(b, width) <==> a == b
  {
    PadNatRoundTrip(a, width);
    PadNatRoundTrip(b, width);
  }

  lemma {:induction false} DecimalFits(n: nat, k: nat)
    requires k >= 1 && n < Pow10(k)
    ensures |Decimal(n)| <= k
    decreases k
  {
    if n >= 10 {
      assert k >= 2;
      DecimalFits(n / 10, k - 1);
    }
  }

  /** A number below 10^width renders to exactly `width` characters. */
  lemma PadNatExactWidth(n: nat, width: nat)
    requires width >= 1 && n < Pow10(width)
    ensures |PadNat(n, width)| == width
  {
    DecimalFits(n, width);
  }

  /** Minimum width, not truncation: `f"{1000:03d}"` is "1000". */
  lemma PadNatKeepsAllDigits()
    ensures PadNat(7, 3) == "007"
    ensures PadNat(1000, 3) == "1000"
  {
    assert Decimal(7) == "7";
    assert Zeros(2) == "00";
    assert Decimal(1) == "1";
    assert Decimal(10) == "10";
    assert Decimal(100) == "100";
    assert Decimal(1000) == "1000";
  }

  function LowerChar(c: char): char {
    if 'A' <= c <= 'Z' then (c as int - 'A' as int + 'a' as int) as char else c
  }

  function UpperChar(c: char): char {
    if 'a' <= c <= 'z' then (c as int - 'a' as int + 'A' as int) as char else c
  }

  /** `str.lower()`, restricted to ASCII letters. */
  function Lower(s: string): (r: string)
    ensures |r| == |s| && forall i :: 0 <= i < |s| ==> r[i] == LowerChar(s[i])
  {
    seq(|s|, i requires 0 <= i < |s| => LowerChar(s[i]))
  }

  /** `str.upper()`, restricted to ASCII letters. */
  function Upper(s: string): (r: string)
    ensures |r| == |s| && forall i :: 0 <= i < |s| ==> r[i] == UpperChar(s[i])
  {
    seq(|s|, i requires 0 <= i < |s| => UpperChar(s[i]))
  }

  /** Lower-casing an upper-cased string is the same as lower-casing the original. */
  lemma LowerOfUpper(s: string)
    ensures Lower(Upper(s)) == Lower(s)
  {
    forall i | 0 <= i < |s|
      ensures Lower(Upper(s))[i] == Lower(s)[i]
    {
      var c := s[i];
      if 'a' <= c <= 'z' {
        assert LowerChar(UpperChar(c)) == c;
      }
    }
  }

  /** Number of occurrences of `c` in `s`. */
  function Occurrences(s: string, c: char): nat {
    if s == [] then 0 else (if s[0] == c then 1 else 0) + Occurrences(s[1..], c)
  }

  /**
   * `s.replace(a, b, n)` for single characters: the first `n` occurrences of `a`
   * become `b`, every other character is kept.
   */
  function ReplaceFirst(s: string, a: char, b: char, n: nat): (r: string)
    ensures |r| == |s|
    ensures forall i :: 0 <= i < |s| ==>
              r[i] == if s[i] == a && Occurrences(s[..i], a) < n then b else s[i]
    decreases |s|
  {
    if s == [] then []
    else
      OccurrencesOfPrefixes(s, a);
      if s[0] == a && n > 0 then [b] + ReplaceFirst(s[1..], a, b, n - 1)
      else [s[0]] + ReplaceFirst(s[1..], a, b, n)
  }

  lemma OccurrencesOfPrefixes(s: string, c: char)
    requires s != []
    ensures Occurrences(s[..0], c) == 0
    ensures forall i :: 1 <= i <= |s| ==>
              Occurrences(s[..i], c) == (if s[0] == c then 1 else 0) + Occurrences(s[1..][..i - 1], c)
  {
    forall i | 1 <= i <= |s|
      ensures Occurrences(s[..i], c) == (if s[0] == c then 1 else 0) + Occurrences(s[1..][..i - 1], c)
    {
      assert s[..i][1..] == s[1..][..i - 1];
    }
  }
}
