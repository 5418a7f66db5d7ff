/** Decimal numerals as fmt's %d writes them, and the keys built from them. */
module Decimal {

  function Digit(d: nat): char
    requires d < 10
  {
    '0' + d as char
  }

  function Digits(n: nat): (s: string)
    ensures |s| > 0
  {
    if n < 10 then [Digit(n)] else Digits(n / 10) + [Digit(n % 10)]
  }

  lemma {:induction false} DigitsOnly(n: nat)
    ensures forall i :: 0 <= i < |Digits(n)| ==> '0' <= Digits(n)[i] <= '9'
  {
    if n >= 10 {
      DigitsOnly(n / 10);
    }
  }

  /** %d */
  function Format(n: int): string
    decreases n < 0
  {
    if n < 0 then "-" + Format(-n) else Digits(n)
  }

  /** A sign can only be in front. */
  lemma FormatDigits(n: int)
    ensures var s := Format(n);
            && |s| > 0 && (s[0] == '-' || '0' <= s[0] <= '9')
            && forall i :: 0 < i < |s| ==> '0' <= s[i] <= '9'
  {
    DigitsOnly(if n < 0 then -n else n);
  }

  /** Reads a numeral back; any other character counts as a zero. */
  function Read(s: string): nat {
    if s == [] then 0
    else
      var c := s[|s| - 1];
      10 * Read(s[..|s| - 1]) + if '0' <= c <= '9' then (c - '0') as nat else 0
  }

  function ReadInt(s: string): int {
    if s != [] && s[0] == '-' then 0 - Read(s[1..]) else Read(s)
  }

  lemma {:induction false} ReadDigits(n: nat)
    ensures Read(Digits(n)) == n
  {
    if n >= 10 {
      ReadDigits(n / 10);
      assert Digits(n)[..|Digits(n)| - 1] == Digits(n / 10);
    }
  }

  /** Formatting loses nothing. */
  lemma ReadFormat(n: int)
    ensures ReadInt(Format(n)) == n
  {
    if n < 0 {
      ReadDigits(-n);
      assert Format(n)[1..] == Digits(-n);
    } else {
      DigitsOnly(n);
      ReadDigits(n);
    }
  }

  /** "%d-%d" */
  function PairKey(a: int, b: int): string {
    Format(a) + "-" + Format(b)
  }

  /** The separator is the first '-' that is not in front: it cannot be confused with a sign. */
  lemma SeparatorPosition(a: int, b: int)
    ensures var k := PairKey(a, b); var n := |Format(a)|;
            && 0 < n < |k| && k[n] == '-' && k[..n] == Format(a) && k[n + 1..] == Format(b)
            && forall i :: 0 < i < n ==> k[i] != '-'
  {
    var k, n := PairKey(a, b), |Format(a)|;
    FormatDigits(a);
    forall i | 0 < i < n ensures k[i] != '-' {
      assert k[i] == Format(a)[i];
    }
  }

  /** Different pairs of numbers have different keys. */
  lemma PairKeyInjective(a: int, b: int, c: int, d: int)
    requires PairKey(a, b) == PairKey(c, d)
    ensures a == c && b == d
  {
    SeparatorPosition(a, b);
    SeparatorPosition(c, d);
    var k, m, n := PairKey(a, b), |Format(a)|, |Format(c)|;
    assert m == n;
    ReadFormat(a);
    ReadFormat(b);
    ReadFormat(c);
    ReadFormat(d);
  }
}
