/** The string operations of JavaScript that the extensions use. */
module JsText {
  import opened Decimal

  /** White space and line ends as String.prototype.trim knows them. */
  predicate IsJsSpace(c: char) {
    '\t' <= c <= '\r' || c == ' ' || c == '\U{A0}' || c == '\U{1680}' || '\U{2000}' <= c <= '\U{200A}'
    || c == '\U{2028}' || c == '\U{2029}' || c == '\U{202F}' || c == '\U{205F}' || c == '\U{3000}' || c == '\U{FEFF}'
  }

  predicate IsTrimmed(s: string) {
    s == "" || (!IsJsSpace(s[0]) && !IsJsSpace(s[|s| - 1]))
  }

  function JsTrim(s: string): (r: string)
    ensures IsTrimmed(r)
    ensures IsTrimmed(s) ==> r == s
  {
    if s != "" && IsJsSpace(s[0]) then JsTrim(s[1..])
    else if s != "" && IsJsSpace(s[|s| - 1]) then JsTrim(s[..|s| - 1])
    else s
  }

  predicate AllJsSpace(s: string) {
    forall i :: 0 <= i < |s| ==> IsJsSpace(s[i])
  }

  /** Trimming takes off white space, and nothing else. */
  lemma {:induction false} JsTrimParts(s: string) returns (a: string, b: string)
    ensures AllJsSpace(a) && AllJsSpace(b) && s == a + JsTrim(s) + b
    decreases |s|
  {
    hide IsJsSpace;
    if s != "" && IsJsSpace(s[0]) {
      assert JsTrim(s) == JsTrim(s[1..]);
      hide JsTrim, IsTrimmed;
      a, b := JsTrimParts(s[1..]);
      assert s == [s[0]] + s[1..];
      a := [s[0]] + a;
    } else if s != "" && IsJsSpace(s[|s| - 1]) {
      assert JsTrim(s) == JsTrim(s[..|s| - 1]);
      hide JsTrim, IsTrimmed;
      a, b := JsTrimParts(s[..|s| - 1]);
      assert s == s[..|s| - 1] + [s[|s| - 1]];
      b := b + [s[|s| - 1]];
    } else {
      a, b := "", "";
    }
  }

  function IntToString(n: int): string {
    if n < 0 then "-" + Itoa(-n) else Itoa(n)
  }

  lemma IntToStringNotEmpty(n: int)
    ensures IntToString(n) != "" && (IntToString(n)[0] == '-' <==> n < 0)
  {
  }

  lemma IntToStringInjective(m: int, n: int)
    requires IntToString(m) == IntToString(n)
    ensures m == n
  {
    IntToStringNotEmpty(m);
    IntToStringNotEmpty(n);
    if m < 0 {
      assert IntToString(m)[1..] == Itoa(-m) && IntToString(n)[1..] == Itoa(-n);
      ItoaInjective(-m, -n);
    } else {
      ItoaInjective(m, n);
    }
  }
}
