/** Placeholder tokens, texts seen as characters and tokens, and the source of fresh tokens. */
module Placeholders {
  import opened Wrappers
  import opened Text
  import opened Decimal
  import opened TokenText

  const OPEN := "__OC_I18N_"
  const CLOSE := "__"
  const CORE := "OC_I18N_"
  const FIRST_NUMBER: nat := 900000

  predicate IsDigits(d: string) {
    d != "" && AllDigits(d)
  }

  function Token(d: string): string {
    OPEN + d + CLOSE
  }

  /** Tokens are written with these brackets; the name is a string of digits. */
  const TOKENS := Brackets(OPEN, CLOSE)

  function TokenOf(n: nat): string {
    Token(Itoa(n))
  }

  // ---------------------------------------------------------------- documents

  predicate WellFormed(doc: Doc) {
    forall i :: 0 <= i < |doc| && doc[i].Tok? ==> IsDigits(doc[i].name)
  }

  /** The digits of the token that s starts with. */
  function TokenAt(s: string): (d: Option<string>)
    ensures d.Some? ==> IsDigits(d.value) && Token(d.value) <= s
  {
    if OPEN <= s then
      var d := LeadingDigits(s[|OPEN|..]);
      if d != "" && CLOSE <= s[|OPEN| + |d|..] then
        assert s == OPEN + s[|OPEN|..] && s[|OPEN|..] == d + s[|OPEN| + |d|..];
        Some(d)
      else None
    else None
  }

  /** The text s with its tokens found from the left, as a regular expression search does. */
  function Parse(s: string): (doc: Doc)
    ensures WellFormed(doc)
    decreases |s|
  {
    if s == "" then []
    else
      var d := TokenAt(s);
      if d.Some? then [Tok(d.value)] + Parse(s[|Token(d.value)|..]) else [Chr(s[0])] + Parse(s[1..])
  }

  lemma {:induction false} RenderParse(s: string)
    ensures Render(TOKENS, Parse(s)) == s
    decreases |s|
  {
    if s != "" {
      var d := TokenAt(s);
      var n := if d.Some? then |Token(d.value)| else 1;
      RenderParse(s[n..]);
      assert Parse(s)[1..] == Parse(s[n..]);
      assert s == s[..n] + s[n..];
    }
  }

  /** Without the opening of a token a text is its characters. */
  lemma {:induction false} ParsePlain(s: string)
    requires forall i: nat :: !OccursAt(s, OPEN, i)
    ensures Parse(s) == Chars(s)
  {
    if s != "" {
      assert s[0..] == s && !OccursAt(s, OPEN, 0);
      forall i: nat
        ensures !OccursAt(s[1..], OPEN, i)
      {
        assert !OccursAt(s, OPEN, i + 1);
        assert i < |s| ==> s[1..][i..] == s[i + 1..];
      }
      ParsePlain(s[1..]);
      assert Chars(s) == [Chr(s[0])] + Chars(s[1..]);
    }
  }

  function Hits(doc: Doc): set<string> {
    set i | 0 <= i < |doc| && doc[i].Tok? :: Token(doc[i].name)
  }

  /** The characters of the text nowhere spell OC_I18N_ and these digits; inside its tokens
      they may stand. */
  ghost predicate CleanFor(doc: Doc, d: string) {
    Lacks(doc, CORE + d)
  }

  lemma PrefixDrop(a: string, x: string, b: string, y: string)
    requires |a| == |b| && a + x <= b + y
    ensures x <= y && a == b
  {
    assert x == (a + x)[|a|..] && y == (b + y)[|a|..];
    assert a == (a + x)[..|a|] && b == (b + y)[..|a|];
  }

  lemma CleanTail(doc: Doc, d: string)
    requires CleanFor(doc, d) && doc != []
    ensures CleanFor(doc[1..], d)
  {
    LacksTail(doc, CORE + d);
  }

  // ---------------------------------------------------------------- where tokens can occur

  /** Every underscore of w is followed, inside w, by something else. */
  predicate NoDouble(w: string) {
    forall i :: 0 <= i < |w| && w[i] == '_' ==> i + 1 < |w| && w[i + 1] != '_'
  }

  lemma StartsDoubled(doc: Doc)
    requires doc != []
    ensures doc[0].Tok? ==> |Render(TOKENS, doc)| >= 2 && Render(TOKENS, doc)[0] == '_' && Render(TOKENS, doc)[1] == '_'
    ensures doc[0].Chr? ==> Render(TOKENS, doc)[0] == doc[0].c && Render(TOKENS, doc)[1..] == Render(TOKENS, doc[1..])
  {
    var first, rest := Show(TOKENS, doc[0]), Render(TOKENS, doc[1..]);
    assert Render(TOKENS, doc) == first + rest;
    hide Render;
    assert first == Show(TOKENS, doc[0]) && (doc[0].Tok? ==> first[0] == '_' && first[1] == '_');
  }

  /** Text without doubled underscores cannot reach into a token. */
  lemma {:induction false} PrefixIsChars(w: string, doc: Doc)
    requires w <= Render(TOKENS, doc) && NoDouble(w)
    ensures |w| <= |doc| && forall i :: 0 <= i < |w| ==> doc[i] == Chr(w[i])
  {
    if w != "" {
      var r := Render(TOKENS, doc);
      assert w[0] == r[0];
      StartsDoubled(doc);
      assert Render(TOKENS, doc[1..]) == r[1..];
      assert forall i :: 0 <= i < |w| - 1 ==> w[1..][i] == w[i + 1];
      PrefixIsChars(w[1..], doc[1..]);
      forall i | 0 <= i < |w|
        ensures doc[i] == Chr(w[i])
      {
        if i > 0 {
          assert doc[1..][i - 1] == Chr(w[1..][i - 1]);
        }
      }
    }
  }

  /** What a token looks like without its first two, and its first, characters. */
  function Without2(d: string): string { CORE + d + CLOSE }

  function Without1(d: string): string { "_" + Without2(d) }

  lemma TokenShape(d: string)
    ensures Token(d) == "_" + Without1(d) == CLOSE + Without2(d)
    ensures |Token(d)| == |OPEN| + |d| + 2
  {
  }

  lemma CoreNoDouble(d: string)
    requires IsDigits(d)
    ensures NoDouble(CORE + d)
  {
  }

  lemma CorePrefix(d: string, r: string)
    requires Without2(d) <= r
    ensures CORE + d <= r
  {
    assert CORE + d == Without2(d)[..|CORE + d|];
  }

  lemma CoreSpelled(doc: Doc, d: string)
    requires IsDigits(d) && Without2(d) <= Render(TOKENS, doc)
    ensures |CORE + d| <= |doc| && RunAt(doc, CORE + d, 0)
  {
    hide Render, Without2, IsDigits, NoDouble, RunAt;
    CorePrefix(d, Render(TOKENS, doc));
    CoreNoDouble(d);
    PrefixIsChars(CORE + d, doc);
    RunOfChars(doc, CORE + d);
  }

  /** In a clean text no token shows up that starts two characters before the text. */
  lemma NoCoreAhead(doc: Doc, d: string)
    requires CleanFor(doc, d) && IsDigits(d)
    ensures !(Without2(d) <= Render(TOKENS, doc))
  {
    hide Render, RunAt, IsDigits;
    if Without2(d) <= Render(TOKENS, doc) {
      CoreSpelled(doc, d);
      assert false;
    }
  }

  /** Nor one that starts one character before the text. */
  lemma NoTailAhead(doc: Doc, d: string)
    requires CleanFor(doc, d) && IsDigits(d)
    ensures !(Without1(d) <= Render(TOKENS, doc))
  {
    if Without1(d) <= Render(TOKENS, doc) {
      var r := Render(TOKENS, doc);
      assert r[0] == Without1(d)[0] && r[1] == Without1(d)[1];
      StartsDoubled(doc);
      CleanTail(doc, d);
      PrefixDrop("_", Without2(d), [doc[0].c], Render(TOKENS, doc[1..]));
      NoCoreAhead(doc[1..], d);
      assert false;
    }
  }

  lemma {:induction false} DigitsEnd(d: string, e: string, r: string)
    requires AllDigits(d) && AllDigits(e) && d + "_" <= e + r && r != "" && !IsDigit(r[0])
    ensures d == e
  {
    var x, y := d + "_", e + r;
    assert x[0] == y[0];
    if d != "" && e != "" {
      assert x[1..] == d[1..] + "_" && y[1..] == e[1..] + r;
      assert x[1..] <= y[1..];
      DigitsEnd(d[1..], e[1..], r);
      assert d == [d[0]] + d[1..] && e == [e[0]] + e[1..];
    }
  }

  /** A token that a token followed by anything starts with is that token. */
  lemma TokenPrefixFree(d: string, e: string, rest: string)
    requires IsDigits(d) && IsDigits(e) && Token(d) <= Token(e) + rest
    ensures d == e
  {
    assert Token(e) + rest == OPEN + (e + (CLOSE + rest));
    assert Token(d) == OPEN + (d + CLOSE);
    PrefixDrop(OPEN, d + CLOSE, OPEN, e + (CLOSE + rest));
    assert d + CLOSE == d + "_" + "_";
    DigitsEnd(d, e, CLOSE + rest);
  }

  lemma TokenNotAtChar(doc: Doc, d: string)
    requires CleanFor(doc, d) && IsDigits(d) && doc != [] && doc[0].Chr?
    ensures !(Token(d) <= Render(TOKENS, doc))
  {
    StartsDoubled(doc);
    CleanTail(doc, d);
    TokenShape(d);
    if Token(d) <= Render(TOKENS, doc) {
      assert Render(TOKENS, doc) == [doc[0].c] + Render(TOKENS, doc[1..]);
      PrefixDrop("_", Without1(d), [doc[0].c], Render(TOKENS, doc[1..]));
      NoTailAhead(doc[1..], d);
      assert false;
    }
  }

  /** At the start of a clean text there is a token exactly when the first item is that token. */
  lemma TokenAtStart(doc: Doc, d: string)
    requires WellFormed(doc) && CleanFor(doc, d) && IsDigits(d)
    ensures Token(d) <= Render(TOKENS, doc) <==> doc != [] && doc[0] == Tok(d)
  {
    if doc != [] {
      if doc[0].Chr? {
        TokenNotAtChar(doc, d);
      } else if Token(d) <= Render(TOKENS, doc) {
        TokenPrefixFree(d, doc[0].name, Render(TOKENS, doc[1..]));
      }
    }
  }

  /** Where the end of a token could begin another one. */
  lemma NoTokenAtEnd(doc: Doc, d: string, close: string)
    requires CleanFor(doc, d) && IsDigits(d) && (close == "_" || close == "__")
    ensures !(Token(d) <= close + Render(TOKENS, doc))
  {
    TokenShape(d);
    if Token(d) <= close + Render(TOKENS, doc) {
      if close == CLOSE {
        PrefixDrop(CLOSE, Without2(d), CLOSE, Render(TOKENS, doc));
        NoCoreAhead(doc, d);
      } else {
        PrefixDrop("_", Without1(d), "_", Render(TOKENS, doc));
        NoTailAhead(doc, d);
      }
      assert false;
    }
  }

  lemma DropRender(t: string, rest: string, o: nat)
    requires o <= |t|
    ensures (t + rest)[o..] == t[o..] + rest
  {
  }

  /** An occurrence of a token at a place strictly inside another one is at its end. */
  lemma OccurrenceAtEnd(e: string, rest: string, d: string, o: nat)
    requires IsDigits(e) && 0 < o < |Token(e)| && Token(d) <= (Token(e) + rest)[o..]
    ensures Token(e)[o..] == "_" || Token(e)[o..] == "__"
  {
    var t := Token(e);
    TokenShape(d);
    if o + 1 < |t| {
      var r := (t + rest)[o..];
      assert r[0] == Token(d)[0] && r[1] == Token(d)[1];
      assert t[o] == r[0] && t[o + 1] == r[1];
    }
  }

  /** No token occurs at a place inside another token of a clean text. */
  lemma NoTokenInside(doc: Doc, d: string, o: nat)
    requires WellFormed(doc) && CleanFor(doc, d) && IsDigits(d) && doc != [] && doc[0].Tok?
    requires 0 < o < |Show(TOKENS, doc[0])|
    ensures !OccursAt(Render(TOKENS, doc), Token(d), o)
  {
    var t, rest := Show(TOKENS, doc[0]), Render(TOKENS, doc[1..]);
    CleanTail(doc, d);
    if OccursAt(Render(TOKENS, doc), Token(d), o) {
      OccurrenceAtEnd(doc[0].name, rest, d, o);
      DropRender(t, rest, o);
      NoTokenAtEnd(doc[1..], d, t[o..]);
      assert false;
    }
  }

  // ---------------------------------------------------------------- substitution

  /** The text with every token d replaced by c. */
  function Subst(doc: Doc, d: string, c: Doc): Doc {
    if doc == [] then []
    else (if doc[0] == Tok(d) then c else [doc[0]]) + Subst(doc[1..], d, c)
  }

  lemma {:induction false} SubstAppend(a: Doc, b: Doc, d: string, c: Doc)
    ensures Subst(a + b, d, c) == Subst(a, d, c) + Subst(b, d, c)
  {
    if a == [] {
      assert a + b == b;
    } else {
      assert (a + b)[1..] == a[1..] + b;
      SubstAppend(a[1..], b, d, c);
    }
  }

  lemma {:induction false} SubstAbsent(doc: Doc, d: string, c: Doc)
    requires Tok(d) !in doc
    ensures Subst(doc, d, c) == doc
  {
    if doc != [] {
      assert doc[0] in doc && forall x :: x in doc[1..] ==> x in doc;
      SubstAbsent(doc[1..], d, c);
    }
  }

  lemma {:induction false} SubstMembers(doc: Doc, d: string, c: Doc, x: Item)
    ensures x in Subst(doc, d, c) <==> (x in doc && x != Tok(d)) || (x in c && Tok(d) in doc)
  {
    if doc != [] {
      SubstMembers(doc[1..], d, c, x);
      assert doc == [doc[0]] + doc[1..];
    }
  }

  lemma {:induction false} SubstCommutes(doc: Doc, d: string, c: Doc, e: string, b: Doc)
    requires d != e && Tok(d) !in b && Tok(e) !in c
    ensures Subst(Subst(doc, d, c), e, b) == Subst(Subst(doc, e, b), d, c)
  {
    if doc != [] {
      SubstCommutes(doc[1..], d, c, e, b);
      var head := if doc[0] == Tok(d) then c else [doc[0]];
      var head' := if doc[0] == Tok(e) then b else [doc[0]];
      SubstAppend(head, Subst(doc[1..], d, c), e, b);
      SubstAppend(head', Subst(doc[1..], e, b), d, c);
      SubstAbsent(c, e, b);
      SubstAbsent(b, d, c);
    }
  }

  lemma SubstWellFormed(doc: Doc, d: string, c: Doc)
    requires WellFormed(doc) && WellFormed(c)
    ensures WellFormed(Subst(doc, d, c))
  {
    var r := Subst(doc, d, c);
    forall i | 0 <= i < |r| && r[i].Tok?
      ensures IsDigits(r[i].name)
    {
      SubstMembers(doc, d, c, r[i]);
    }
  }

  /** A part of the text in which nothing is filled in is still there afterwards. */
  lemma SubstPart(doc: Doc, a: nat, b: nat, d: string, c: Doc) returns (k: nat)
    requires a <= b <= |doc|
    ensures k + |Subst(doc[a..b], d, c)| <= |Subst(doc, d, c)|
    ensures Subst(doc, d, c)[k..k + |Subst(doc[a..b], d, c)|] == Subst(doc[a..b], d, c)
  {
    k := |Subst(doc[..a], d, c)|;
    assert doc == doc[..a] + (doc[a..b] + doc[b..]);
    SubstAppend(doc[..a], doc[a..b] + doc[b..], d, c);
    SubstAppend(doc[a..b], doc[b..], d, c);
  }

  /** A run of characters is still there after filling in a token. */
  lemma RunStays(doc: Doc, run: string, i: nat, d: string, c: Doc) returns (k: nat)
    requires i + |run| <= |doc| && RunAt(doc, run, i)
    ensures k + |run| <= |Subst(doc, d, c)| && RunAt(Subst(doc, d, c), run, k)
  {
    SubstAbsent(doc[i..i + |run|], d, c);
    k := SubstPart(doc, i, i + |run|, d, c);
  }

  lemma CleanOutsideSubst(doc: Doc, d: string, c: Doc, e: string)
    requires CleanFor(Subst(doc, d, c), e)
    ensures CleanFor(doc, e)
  {
    hide Subst, RunAt;
    forall i: nat | i + |CORE + e| <= |doc|
      ensures !RunAt(doc, CORE + e, i)
    {
      if RunAt(doc, CORE + e, i) {
        var k := RunStays(doc, CORE + e, i, d, c);
        assert false;
      }
    }
  }

  /** If a text is clean after filling in a token, it was clean before. */
  lemma CleanBeforeSubst(doc: Doc, d: string, c: Doc, e: string)
    requires CleanFor(Subst(doc, d, c), e)
    ensures CleanFor(doc, e)
    ensures Tok(d) in doc ==> CleanFor(c, e)
  {
    CleanOutsideSubst(doc, d, c, e);
    if Tok(d) in doc {
      var i :| 0 <= i < |doc| && doc[i] == Tok(d);
      var k := SubstPart(doc, i, i + 1, d, c);
      assert doc[i..i + 1] == [Tok(d)];
      assert Subst([Tok(d)], d, c) == c;
      hide Lacks, Subst;
      LacksPart(Subst(doc, d, c), CORE + e, k, k + |c|);
    }
  }

  /** On a text that is clean for the token, replacing the token string replaces exactly the token items. */
  lemma {:induction false} ReplaceRender(doc: Doc, d: string, c: Doc)
    requires WellFormed(doc) && CleanFor(doc, d) && IsDigits(d)
    ensures ReplaceAll(Render(TOKENS, doc), Token(d), Render(TOKENS, c)) == Render(TOKENS, Subst(doc, d, c))
  {
    if doc != [] {
      var r, t, rest := Render(TOKENS, doc), Show(TOKENS, doc[0]), Render(TOKENS, doc[1..]);
      CleanTail(doc, d);
      ReplaceRender(doc[1..], d, c);
      TokenAtStart(doc, d);
      assert r[|t|..] == rest && r[..|t|] == t;
      if doc[0] == Tok(d) {
        RenderAppend(TOKENS, c, Subst(doc[1..], d, c));
      } else {
        forall o: nat | o < |t|
          ensures !OccursAt(r, Token(d), o)
        {
          if o > 0 {
            NoTokenInside(doc, d, o);
          } else {
            assert r[0..] == r;
          }
        }
        ReplaceSkips(r, Token(d), Render(TOKENS, c), |t|);
        RenderAppend(TOKENS, [doc[0]], Subst(doc[1..], d, c));
        assert Render(TOKENS, [doc[0]]) == t;
      }
    }
  }

  /** An occurrence of a token in a clean text is the first item or lies in the rest. */
  lemma OccurrenceSplit(doc: Doc, d: string, i: nat)
    requires WellFormed(doc) && CleanFor(doc, d) && IsDigits(d) && doc != []
    ensures OccursAt(Render(TOKENS, doc), Token(d), i) <==>
            (i == 0 && doc[0] == Tok(d))
            || (i >= |Show(TOKENS, doc[0])|
                && OccursAt(Render(TOKENS, doc[1..]), Token(d), i - |Show(TOKENS, doc[0])|))
  {
    var r, t, rest := Render(TOKENS, doc), Show(TOKENS, doc[0]), Render(TOKENS, doc[1..]);
    TokenAtStart(doc, d);
    assert r[0..] == r;
    if 0 < i < |t| {
      NoTokenInside(doc, d, i);
    } else if |t| <= i <= |r| {
      assert r[i..] == rest[i - |t|..];
    }
  }

  /** On a text that is clean for the token, its string is found exactly when it is an item. */
  lemma {:induction false} ContainsRender(doc: Doc, d: string)
    requires WellFormed(doc) && CleanFor(doc, d) && IsDigits(d)
    ensures Contains(Render(TOKENS, doc), Token(d)) <==> Tok(d) in doc
  {
    if doc == [] {
      assert forall i: nat :: !OccursAt("", Token(d), i);
    } else {
      CleanTail(doc, d);
      ContainsRender(doc[1..], d);
      forall i: nat
        ensures OccursAt(Render(TOKENS, doc), Token(d), i) <==>
                (i == 0 && doc[0] == Tok(d))
                || (i >= |Show(TOKENS, doc[0])|
                    && OccursAt(Render(TOKENS, doc[1..]), Token(d), i - |Show(TOKENS, doc[0])|))
      {
        OccurrenceSplit(doc, d, i);
      }
      if Tok(d) in doc[1..] {
        var i: nat :| OccursAt(Render(TOKENS, doc[1..]), Token(d), i);
        assert OccursAt(Render(TOKENS, doc), Token(d), i + |Show(TOKENS, doc[0])|);
      } else if doc[0] == Tok(d) {
        assert OccursAt(Render(TOKENS, doc), Token(d), 0);
      }
      assert doc == [doc[0]] + doc[1..];
    }
  }

  // ---------------------------------------------------------------- fresh tokens

  lemma TokenInjective(d: string, e: string)
    requires Token(d) == Token(e)
    ensures d == e
  {
    assert Token(d)[|OPEN|..|Token(d)| - 2] == d;
    assert Token(e)[|OPEN|..|Token(e)| - 2] == e;
  }

  lemma TokenOfInjective(m: nat, n: nat)
    requires TokenOf(m) == TokenOf(n)
    ensures m == n
  {
    TokenInjective(Itoa(m), Itoa(n));
    ItoaInjective(m, n);
  }

  ghost predicate IsNumbered(x: string, from: nat) {
    exists k: nat :: k >= from && x == TokenOf(k)
  }

  /** The used tokens with a number at or above the counter. */
  ghost function UsedFrom(used: set<string>, counter: nat): set<string> {
    set x | x in used && IsNumbered(x, counter)
  }

  lemma UsedFromShrinks(used: set<string>, n: nat)
    requires TokenOf(n) in used
    ensures |UsedFrom(used, n + 1)| < |UsedFrom(used, n)|
  {
    var a, b := UsedFrom(used, n), UsedFrom(used, n + 1);
    assert TokenOf(n) in a by {
      assert IsNumbered(TokenOf(n), n);
    }
    if TokenOf(n) in b {
      var k: nat :| k >= n + 1 && TokenOf(n) == TokenOf(k);
      TokenOfInjective(n, k);
      assert false;
    }
    assert b <= a - {TokenOf(n)};
    StrictSubset(b, a);
  }

  lemma StrictSubset<T>(b: set<T>, a: set<T>)
    requires b < a
    ensures |b| < |a|
  {
    var x :| x in a && x !in b;
    CardinalitySubset(b, a - {x});
  }

  lemma {:induction false} CardinalitySubset<T>(b: set<T>, a: set<T>)
    requires b <= a
    ensures |b| <= |a|
  {
    if b != {} {
      var x :| x in b;
      CardinalitySubset(b - {x}, a - {x});
    }
  }

  /** The least number at or above the counter whose token is not in use. */
  function NextNumber(used: set<string>, counter: nat): (n: nat)
    ensures n >= counter && TokenOf(n) !in used
    ensures forall k: nat :: counter <= k < n ==> TokenOf(k) in used
    decreases |UsedFrom(used, counter)|
  {
    if TokenOf(counter) in used then
      UsedFromShrinks(used, counter);
      NextNumber(used, counter + 1)
    else counter
  }

  class PlaceholderState {
    var counter: nat
    var used: set<string>

    constructor (text: string)
      ensures counter == FIRST_NUMBER && used == Hits(Parse(text))
    {
      counter, used := FIRST_NUMBER, Hits(Parse(text));
    }

    /** The least unused token from the counter on; it is never handed out again. */
    method Next() returns (candidate: string)
      modifies this
      ensures candidate == TokenOf(NextNumber(old(used), old(counter)))
      ensures used == old(used) + {candidate} && counter == NextNumber(old(used), old(counter)) + 1
    {
      while true
        invariant used == old(used)
        invariant NextNumber(used, counter) == NextNumber(used, old(counter))
        decreases |UsedFrom(used, counter)|
      {
        candidate := TokenOf(counter);
        if candidate in used {
          UsedFromShrinks(used, counter);
        }
        counter := counter + 1;
        if candidate in used {
          continue;
        }
        used := used + {candidate};
        return;
      }
    }
  }
}
