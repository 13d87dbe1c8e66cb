/** Decimal notation of natural numbers. */
module Decimal {

  predicate IsDigit(c: char) { '0' <= c <= '9' }

  predicate AllDigits(s: string) {
    forall i :: 0 <= i < |s| ==> IsDigit(s[i])
  }

  /** The digits that s starts with. */
  function LeadingDigits(s: string): (d: string)
    ensures d <= s && AllDigits(d)
    ensures |d| < |s| ==> !IsDigit(s[|d|])
  {
    if s != "" && IsDigit(s[0]) then [s[0]] + LeadingDigits(s[1..]) else ""
  }

  lemma {:induction false} DigitsBefore(d: string, c: char, rest: string)
    requires AllDigits(d) && !IsDigit(c)
    ensures LeadingDigits(d + [c] + rest) == d
  {
    if d != "" {
      assert (d + [c] + rest)[1..] == d[1..] + [c] + rest;
      DigitsBefore(d[1..], c, rest);
    }
  }

  lemma {:induction false} DigitsAtEnd(d: string, rest: string)
    requires AllDigits(d) && (rest == "" || !IsDigit(rest[0]))
    ensures LeadingDigits(d + rest) == d
  {
    if rest == "" {
      assert d + rest == d;
    } else {
      DigitsBefore(d, rest[0], rest[1..]);
      assert d + rest == d + [rest[0]] + rest[1..];
    }
  }

  function DigitOf(n: nat): (c: char)
    requires n < 10
    ensures IsDigit(c)
  {
    "0123456789"[n]
  }

  function Itoa(n: nat): (s: string)
    ensures s != "" && AllDigits(s)
  {
    if n < 10 then [DigitOf(n)] else Itoa(n / 10) + [DigitOf(n % 10)]
  }

  function ParseNat(s: string): nat
    requires AllDigits(s)
  {
    if s == "" then 0 else 10 * ParseNat(s[..|s| - 1]) + (s[|s| - 1] as int - '0' as int)
  }

  lemma DigitValue(n: nat)
    requires n < 10
    ensures DigitOf(n) as int - '0' as int == n
  {
  }

  lemma {:induction false} ParseItoa(n: nat)
    ensures ParseNat(Itoa(n)) == n
  {
    DigitValue(n % 10);
    if n < 10 {
      assert [DigitOf(n)][..0] == "";
      assert ParseNat("") == 0;
    } else {
      ParseItoa(n / 10);
      var s := Itoa(n);
      assert s[..|s| - 1] == Itoa(n / 10);
    }
  }

  lemma ItoaInjective(m: nat, n: nat)
    requires Itoa(m) == Itoa(n)
    ensures m == n
  {
    ParseItoa(m);
    ParseItoa(n);
  }

  lemma ParseSnoc(a: string, c: char)
    requires AllDigits(a) && IsDigit(c)
    ensures AllDigits(a + [c]) && ParseNat(a + [c]) == 10 * ParseNat(a) + (c as int - '0' as int)
  {
    assert (a + [c])[..|a|] == a;
  }

  /** Two digits, the first one possibly a zero. */
  function Pad2(n: nat): (s: string)
    requires n < 100
    ensures |s| == 2 && AllDigits(s)
  {
    if n < 10 then "0" + Itoa(n) else
      assert Itoa(n) == Itoa(n / 10) + [DigitOf(n % 10)];
      Itoa(n)
  }

  lemma Pad2Digits(n: nat)
    requires n < 100
    ensures Pad2(n) == [DigitOf(n / 10), DigitOf(n % 10)]
  {
    if n < 10 {
      assert Itoa(n) == [DigitOf(n)] && n / 10 == 0 && n % 10 == n;
      assert "0" == [DigitOf(0)];
    } else {
      assert Itoa(n / 10) == [DigitOf(n / 10)];
    }
  }

  /** Writing two more digits multiplies by a hundred and adds. */
  lemma ParsePad2(a: string, n: nat)
    requires AllDigits(a) && n < 100
    ensures AllDigits(a + Pad2(n)) && ParseNat(a + Pad2(n)) == 100 * ParseNat(a) + n
  {
    var c, d := DigitOf(n / 10), DigitOf(n % 10);
    ParseSnoc(a, c);
    ParseSnoc(a + [c], d);
    DigitValue(n / 10);
    DigitValue(n % 10);
    Pad2Digits(n);
    assert a + Pad2(n) == a + [c] + [d];
  }
}
