/** Decimal rendering of natural numbers, with the parser that undoes it. */
module Decimals {
  predicate IsDigit(c: char) {
    '0' <= c <= '9'
  }

  function DigitValue(c: char): nat
    requires IsDigit(c)
  {
    c as int - '0' as int
  }

  function Digit(d: nat): (c: char)
    requires d < 10
    ensures IsDigit(c) && DigitValue(c) == d
  {
    ('0' as int + d) as char
  }

  function Render(n: nat): (s: string)
    ensures |s| >= 1 && forall i :: 0 <= i < |s| ==> IsDigit(s[i])
  {
    if n < 10 then [Digit(n)] else Render(n / 10) + [Digit(n % 10)]
  }

  function Value(s: string): nat
    requires forall i :: 0 <= i < |s| ==> IsDigit(s[i])
  {
    if s == [] then 0
    else 10 * Value(s[..|s| - 1]) + DigitValue(s[|s| - 1])
  }

  lemma {:induction false} ValueOfRender(n: nat)
    ensures Value(Render(n)) == n
  {
    var s := Render(n);
    if n < 10 {
      assert s[..0] == [] && Value(s[..0]) == 0;
    } else {
      ValueOfRender(n / 10);
      assert s[..|s| - 1] == Render(n / 10);
    }
  }

  lemma RenderInjective(m: nat, n: nat)
    requires Render(m) == Render(n)
    ensures m == n
  {
    ValueOfRender(m);
    ValueOfRender(n);
  }

  // ---------- Fixed width ----------

  /** At least two digits. */
  function Pad(n: nat): (s: string)
    ensures forall i :: 0 <= i < |s| ==> IsDigit(s[i])
  {
    if n < 10 then "0" + Render(n) else Render(n)
  }

  lemma PadFacts(n: nat)
    requires n < 100
    ensures |Pad(n)| == 2 && (Pad(n)[0] == '0' <==> n < 10)
  {
    if n >= 10 {
      assert Render(n) == Render(n / 10) + [Digit(n % 10)];
      assert Render(n / 10) == [Digit(n / 10)];
    }
  }

  lemma PadInjective(m: nat, n: nat)
    requires m < 100 && n < 100 && Pad(m) == Pad(n)
    ensures m == n
  {
    PadFacts(m);
    PadFacts(n);
    if m < 10 && n < 10 {
      assert Render(m) == Pad(m)[1..] == Pad(n)[1..] == Render(n);
      RenderInjective(m, n);
    } else if m >= 10 && n >= 10 {
      RenderInjective(m, n);
    }
  }

  lemma SameSuffix(a: string, b: string, c: string, d: string)
    requires a + b == c + d && |b| == |d|
    ensures a == c && b == d
  {
    assert (a + b)[..|a|] == a && (c + d)[..|c|] == c;
    assert (a + b)[|a|..] == b && (c + d)[|c|..] == d;
  }

  /** At least four digits. */
  function FourDigits(n: nat): (s: string)
    ensures forall i :: 0 <= i < |s| ==> IsDigit(s[i])
  {
    if n < 10_000 then Pad(n / 100) + Pad(n % 100) else Render(n)
  }

  lemma RenderLength(n: nat)
    requires n >= 10_000
    ensures |Render(n)| >= 5
    ensures n >= 1_000_000 ==> |Render(n)| >= 7
  {
    assert |Render(n / 1000)| >= 2;
    assert |Render(n / 100)| >= 3 && |Render(n / 10)| >= 4;
    if n >= 1_000_000 {
      assert |Render(n / 100_000)| >= 2;
      assert |Render(n / 10_000)| >= 3 && |Render(n / 1000)| >= 4 && |Render(n / 100)| >= 5;
    }
  }

  lemma FourDigitsInjective(m: nat, n: nat)
    requires FourDigits(m) == FourDigits(n)
    ensures m == n
  {
    if m >= 10_000 {
      RenderLength(m);
    } else {
      PadFacts(m / 100); PadFacts(m % 100);
    }
    if n >= 10_000 {
      RenderLength(n);
    } else {
      PadFacts(n / 100); PadFacts(n % 100);
    }
    if m < 10_000 && n < 10_000 {
      SameSuffix(Pad(m / 100), Pad(m % 100), Pad(n / 100), Pad(n % 100));
      PadInjective(m / 100, n / 100);
      PadInjective(m % 100, n % 100);
    } else if m >= 10_000 && n >= 10_000 {
      RenderInjective(m, n);
    }
  }

  // ---------- Reading a part ----------

  predicate Digits(s: string) {
    forall i :: 0 <= i < |s| ==> IsDigit(s[i])
  }

  /** The characters from `lo` to `hi` are the digits of `n`. */
  predicate Reads(s: string, lo: int, hi: int, n: int) {
    0 <= lo <= hi <= |s| && Digits(s[lo..hi]) && Value(s[lo..hi]) == n
  }

  lemma ReadsPart(before: string, part: string, after: string, n: nat)
    requires Digits(part) && Value(part) == n
    ensures Reads(before + part + after, |before|, |before| + |part|, n)
  {
    assert (before + part + after)[|before|..|before| + |part|] == part;
  }

  /** Three parts with dashes between them. */
  lemma DashedParts(k: string, a: string, b: string, c: string)
    requires k == a + "-" + b + "-" + c
    ensures |k| == |a| + |b| + |c| + 2 && k[|a|] == '-' && k[|a| + 1 + |b|] == '-'
    ensures k[0..|a|] == a && k[|a| + 1..|a| + 1 + |b|] == b && k[|a| + 2 + |b|..|k|] == c
  {}

  /** Two more digits. */
  lemma ValueOfTwo(s: string, t: string)
    requires Digits(s) && Digits(t) && |t| == 2
    ensures Digits(s + t) && Value(s + t) == 100 * Value(s) + Value(t)
  {
    var u := s + [t[0]];
    assert s + t == u + [t[1]] && u[..|s|] == s && (u + [t[1]])[..|u|] == u;
    assert t[..1] == [t[0]] && t[..1][..0] == [] && Value(t[..1]) == DigitValue(t[0]);
    assert Value(u) == 10 * Value(s) + DigitValue(t[0]);
    assert Value(s + t) == 10 * Value(u) + DigitValue(t[1]);
  }

  lemma RenderReads(n: nat)
    ensures Digits(Render(n)) && |Render(n)| >= 1 && Value(Render(n)) == n
  {
    ValueOfRender(n);
  }

  lemma PadReads(n: nat)
    requires n < 100
    ensures Digits(Pad(n)) && |Pad(n)| == 2 && Value(Pad(n)) == n
  {
    PadFacts(n);
    ValueOfRender(n);
    if n < 10 {
      var s := Pad(n);
      assert s == ['0', Digit(n)] && s[..1] == ['0'] && s[..1][..0] == [];
      assert Value(['0']) == 0;
    }
  }

  lemma FourDigitsReads(n: nat)
    ensures Digits(FourDigits(n)) && Value(FourDigits(n)) == n
    ensures n < 10_000 ==> |FourDigits(n)| == 4
  {
    hide Pad, Render;
    if n < 10_000 {
      PadReads(n / 100);
      PadReads(n % 100);
      ValueOfTwo(Pad(n / 100), Pad(n % 100));
    } else {
      ValueOfRender(n);
    }
  }
}
