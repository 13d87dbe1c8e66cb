/** Texts that hold parts of placeholders outside whole ones: which of them are given back
    after masking and unmasking. */
module StrayParts {
  import opened Wrappers
  import opened Text
  import opened Decimal
  import opened TokenText
  import opened Placeholders
  import opened Masking

  /** Whole tokens are never stray: a text whose OC_I18N_ parts all belong to whole tokens
      has no stray part, whatever is handed out. */
  lemma WholeTokensAreNotStray(text: string)
    requires Lacks(Parse(text), CORE)
    ensures NoStray(text)
  {
    forall d: string | Token(d) in MaskText(text).snap.placeholders
      ensures CleanFor(Parse(text), d)
    {
      LacksLonger(Parse(text), CORE, CORE + d);
    }
  }

  /** The placeholder stands in the text at the one place it was put, and otherwise only
      across the end of that place. */
  ghost predicate OnlyInPlace(s: string, placeholder: string, at: nat) {
    forall p: nat :: OccursAt(s, placeholder, p) ==> at <= p < at + |placeholder|
  }

  lemma ReplacedInPlace(x: string, t: string, y: string, c: string)
    requires t != "" && OnlyInPlace(x + (t + y), t, |x|)
    ensures ReplaceAll(x + (t + y), t, c) == x + (c + y)
  {
    var s := x + (t + y);
    assert s[|x|..] == t + y && (t + y)[|t|..] == y && s[..|x|] == x;
    ReplaceSkips(s, t, c, |x|);
    forall q: nat
      ensures !OccursAt(y, t, q)
    {
      if OccursAt(y, t, q) {
        assert s[|x| + |t| + q..] == y[q..];
        assert OccursAt(s, t, |x| + |t| + q);
        assert false;
      }
    }
    ReplaceAbsent(y, t, c);
  }

  /** A replacement that begins differently shows at the first place it is put. */
  lemma ReplacementShows(s: string, t: string, c: string)
    requires t != "" && c != "" && c[0] != t[0] && Contains(s, t)
    ensures ReplaceAll(s, t, c) != s
  {
    var p := Index(s, t).value;
    ReplaceFirst(s, t, c, p);
    assert ReplaceAll(s, t, c)[p] == c[0];
    assert s[p] == s[p..][0] == t[0];
  }

  lemma ReplacedBefore(s: string, t: string, c: string, other: string, p: nat)
    requires t != "" && c != "" && c[0] != t[0] && Index(s, t) == Some(p) && p < |other| && other[p] == s[p]
    ensures ReplaceAll(s, t, c) != other
  {
    ReplaceFirst(s, t, c, p);
    hide ReplaceAll;
    assert ReplaceAll(s, t, c)[p] == c[0];
    assert s[p] == s[p..][0] == t[0];
  }

  lemma CancelLeft(head: string, a: string, b: string)
    requires head + a == head + b
    ensures a == b
  {
    assert a == (head + a)[|head|..] && b == (head + b)[|head|..];
  }

  lemma ReplacedAfter(x: string, t: string, y: string, c: string)
    requires t != "" && c != "" && c[0] != t[0] && Index(x + (t + y), t) == Some(|x|) && Contains(y, t)
    ensures ReplaceAll(x + (t + y), t, c) != x + (c + y)
  {
    hide ReplaceAll, Index, Contains;
    ReplaceBetween(x, t, y, c);
    ReplacementShows(y, t, c);
    if ReplaceAll(x + (t + y), t, c) == x + (c + y) {
      CancelLeft(x, c + ReplaceAll(y, t, c), c + y);
      CancelLeft(c, ReplaceAll(y, t, c), y);
      assert false;
    }
  }

  lemma ReplacedElsewhere(x: string, t: string, y: string, c: string)
    requires t != "" && c != "" && c[0] != t[0] && !OnlyInPlace(x + (t + y), t, |x|)
    ensures ReplaceAll(x + (t + y), t, c) != x + (c + y)
  {
    hide ReplaceAll, Index;
    var s := x + (t + y);
    OccursBetween(s, x, t, y);
    var p := Index(s, t).value;
    if p < |x| {
      ReplacedBefore(s, t, c, x + (c + y), p);
    } else {
      var q: nat :| OccursAt(s, t, q) && !(|x| <= q < |x| + |t|);
      assert s[q..] == y[q - |x| - |t|..];
      assert OccursAt(y, t, q - |x| - |t|);
      ReplacedAfter(x, t, y, c);
    }
  }

  // ---------------------------------------------------------------- the one match

  lemma PassCount(p: Pattern, m: Masked)
    requires m.snap.mapping.Keys <= m.snap.used
    ensures |MaskPass(p, m).snap.placeholders| == |m.snap.placeholders| + |FindAll(p, m.text, 0)|
    ensures MaskPass(p, m).snap.mapping.Keys <= MaskPass(p, m).snap.used
    ensures FindAll(p, m.text, 0) == [] ==> MaskPass(p, m) == m
  {
    EveryMatchMasked(m.text, 0, FindAll(p, m.text, 0), m.snap);
    assert m.text[0..] == m.text;
  }

  /** The text with one match masked. */
  function MaskOne(before: Masked, m: Match): Masked
    requires m.maskStart <= m.maskEnd <= |before.text|
  {
    Masked(before.text[..m.maskStart] + (FreshToken(before.snap) + before.text[m.maskEnd..]),
           Register(before.snap, before.text[m.maskStart..m.maskEnd]))
  }

  ghost predicate IsOnlyMatch(p: Pattern, text: string, m: Match) {
    FindAll(p, text, 0) == [m] && m.start < |text| && MatchAt(p, text, m.start) == Some(m)
  }

  lemma PassOfOne(p: Pattern, before: Masked)
    requires |FindAll(p, before.text, 0)| == 1
    ensures var m := FindAll(p, before.text, 0)[0];
            && IsOnlyMatch(p, before.text, m) && m.maskStart < m.maskEnd <= |before.text|
            && MaskPass(p, before) == MaskOne(before, m)
  {
    hide MatchAt, Register, FreshToken;
    var s, ms := before.text, FindAll(p, before.text, 0);
    FindAllMissesNothing(p, s, 0, ms);
    MaskFromStep(s, 0, ms, before.snap);
    assert ms == [ms[0]] && ms[1..] == [];
    var m := ms[0];
    assert s[0..m.maskStart] == s[..m.maskStart];
    assert s[..m.maskStart] + FreshToken(before.snap) + s[m.maskEnd..]
        == s[..m.maskStart] + (FreshToken(before.snap) + s[m.maskEnd..]);
  }

  /** A text with one placeholder has one match, in one of the passes. */
  lemma OneMatch(text: string) returns (p: Pattern, m: Match)
    requires |MaskText(text).snap.placeholders| == 1
    ensures IsOnlyMatch(p, text, m) && m.maskStart < m.maskEnd <= |text|
    ensures MaskText(text) == MaskOne(Unmasked(text), m)
  {
    hide MaskPass, FindAll, MaskOne, MatchAt;
    var m0 := Unmasked(text);
    var m1 := MaskPass(InlineCode, m0);
    var m2 := MaskPass(AngleLink, m1);
    PassCount(InlineCode, m0);
    PassCount(AngleLink, m1);
    PassCount(LinkUrl, m2);
    if FindAll(InlineCode, text, 0) != [] {
      p := InlineCode;
      PassOfOne(p, m0);
    } else if FindAll(AngleLink, text, 0) != [] {
      p := AngleLink;
      PassOfOne(p, m1);
    } else {
      p := LinkUrl;
      PassOfOne(p, m2);
    }
    m := FindAll(p, text, 0)[0];
  }

  /** A masked part that begins with an underscore is a link target between parentheses. */
  lemma MatchEdges(p: Pattern, s: string, m: Match)
    requires m.start < |s| && MatchAt(p, s, m.start) == Some(m) && m.maskStart < m.maskEnd <= |s|
    ensures s[m.maskStart] == '_' ==>
              0 < m.maskStart && s[m.maskStart - 1] == '(' && m.maskEnd < |s| && s[m.maskEnd] == ')'
  {
    if p.AngleLink? {
      assert s[m.start..][0] == s[m.start] == '<';
    }
  }

  // ---------------------------------------------------------------- a part between parentheses

  lemma {:induction false} ParseTail(s: string, a: nat)
    requires a <= |Parse(s)|
    ensures Parse(s)[a..] == Parse(Render(TOKENS, Parse(s)[a..]))
    decreases a
  {
    hide TokenAt, Render;
    if a == 0 {
      assert Parse(s)[0..] == Parse(s);
      RenderParse(s);
    } else {
      var rest := if TokenAt(s).Some? then s[|Token(TokenAt(s).value)|..] else s[1..];
      assert Parse(s)[1..] == Parse(rest);
      assert Parse(s)[a..] == Parse(rest)[a - 1..];
      ParseTail(rest, a - 1);
    }
  }

  lemma TokenAtStart(d: string, y: string)
    requires IsDigits(d)
    ensures TokenAt(Token(d) + y) == Some(d)
  {
    var s := Token(d) + y;
    assert s == OPEN + (d + (CLOSE + y));
    assert s[|OPEN|..] == d + (CLOSE + y);
    DigitsAtEnd(d, CLOSE + y);
    assert s[|OPEN| + |d|..] == CLOSE + y;
  }

  /** A token after a character that is in no token is found. */
  lemma TokenIsHit(x: string, d: string, y: string)
    requires IsDigits(d) && x != "" && !IsTokenChar(x[|x| - 1])
    ensures Token(d) in Hits(Parse(x + (Token(d) + y)))
  {
    hide Token, Parse, Render;
    var text := x + (Token(d) + y);
    var doc := Parse(text);
    RenderParse(text);
    assert Separated(text, |x|);
    var a := CutAt(doc, |x|);
    RenderCut(TOKENS, doc, a);
    var head, tail := Render(TOKENS, doc[..a]), Render(TOKENS, doc[a..]);
    assert tail == text[|x|..] == Token(d) + y;
    ParseTail(text, a);
    FirstIsToken(d, y);
    assert doc[a..][0] == doc[a];
    assert Token(doc[a].name) in Hits(doc);
  }

  lemma FirstIsToken(d: string, y: string)
    requires IsDigits(d)
    ensures Parse(Token(d) + y) != [] && Parse(Token(d) + y)[0] == Tok(d)
  {
    TokenAtStart(d, y);
    assert Token(d) != "";
  }

  lemma {:induction false} ReplacedLength(s: string, t: string, c: string)
    requires t != ""
    ensures |c| == |t| ==> |ReplaceAll(s, t, c)| == |s|
    ensures |c| < |t| ==> |ReplaceAll(s, t, c)| <= |s| && (Contains(s, t) ==> |ReplaceAll(s, t, c)| < |s|)
    ensures |c| > |t| ==> |ReplaceAll(s, t, c)| >= |s| && (Contains(s, t) ==> |ReplaceAll(s, t, c)| > |s|)
    decreases |s|
  {
    if s != "" {
      if t <= s {
        ReplacedLength(s[|t|..], t, c);
      } else {
        ReplacedLength(s[1..], t, c);
        if Contains(s, t) {
          var o: nat :| OccursAt(s, t, o);
          assert s[0..] == s && s[o..] == s[1..][o - 1..];
          assert OccursAt(s[1..], t, o - 1);
        }
      }
    }
  }

  /** Another string of the same length shows where it is put. */
  lemma OtherShows(s: string, t: string, c: string)
    requires t != "" && c != t && |c| == |t| && Contains(s, t)
    ensures ReplaceAll(s, t, c) != s
  {
    var p := Index(s, t).value;
    ReplaceFirst(s, t, c, p);
    hide ReplaceAll, Index;
    var rest := ReplaceAll(s[p + |t|..], t, c);
    if s[..p] + (c + rest) == s {
      SamePart(s, p, t, c, rest);
      assert false;
    }
  }

  lemma SamePart(s: string, p: nat, t: string, c: string, rest: string)
    requires OccursAt(s, t, p) && |c| == |t| && s[..p] + (c + rest) == s
    ensures c == t
  {
    assert s[p..] == c + rest;
    assert t == s[p..][..|t|] == c;
  }

  /** Between two characters that are not in t, the part is replaced apart from the rest. */
  lemma ReplacedBetweenOthers(x: string, t: string, y: string, c: string)
    requires t != "" && x != "" && y != "" && x[|x| - 1] !in t && y[0] !in t
    ensures ReplaceAll(x + (t + y), t, c) == ReplaceAll(x, t, c) + (c + ReplaceAll(y, t, c))
  {
    ReplaceAtCut(x, t + y, t, c);
    ReplaceAtCut(t, y, t, c);
    assert t[|t|..] == "" && ReplaceAll("", t, c) == "";
    assert ReplaceAll(t, t, c) == c + "";
  }

  lemma ElsewhereIsOutside(x: string, t: string, y: string)
    requires t != "" && x != "" && x[|x| - 1] !in t && !OnlyInPlace(x + (t + y), t, |x|)
    ensures Contains(x, t) || Contains(y, t)
  {
    var s := x + (t + y);
    var q: nat :| OccursAt(s, t, q) && !(|x| <= q < |x| + |t|);
    if q >= |x| + |t| {
      assert s[q..] == y[q - |x| - |t|..];
      assert OccursAt(y, t, q - |x| - |t|);
    } else {
      var k: nat := |x| - 1 - q;
      if k < |t| && q + |t| > |x| {
        CharAt(s, t, q, k);
        assert false;
      }
      assert x[q..][..|t|] == s[q..][..|t|] == t;
      assert OccursAt(x, t, q);
    }
  }

  lemma ReplacedElsewhereBetween(x: string, t: string, y: string, c: string)
    requires t != "" && x != "" && y != "" && x[|x| - 1] !in t && y[0] !in t && c != t
    requires !OnlyInPlace(x + (t + y), t, |x|)
    ensures ReplaceAll(x + (t + y), t, c) != x + (c + y)
  {
    hide ReplaceAll, OnlyInPlace, Contains;
    ElsewhereIsOutside(x, t, y);
    ReplacedBetweenOthers(x, t, y, c);
    ReplacedLength(x, t, c);
    ReplacedLength(y, t, c);
    var x', y' := ReplaceAll(x, t, c), ReplaceAll(y, t, c);
    if |c| == |t| {
      if x' + (c + y') == x + (c + y) {
        SameHalves(x', c + y', x, c + y);
        CancelLeft(c, y', y);
        if Contains(x, t) {
          OtherShows(x, t, c);
        } else {
          OtherShows(y, t, c);
        }
        assert false;
      }
    } else {
      assert |x' + (c + y')| == |x'| + |c| + |y'| != |x| + |c| + |y|;
    }
  }

  lemma SameHalves(a: string, b: string, a': string, b': string)
    requires a + b == a' + b' && |a| == |a'|
    ensures a == a' && b == b'
  {
    assert a == (a + b)[..|a|] && a' == (a' + b')[..|a|];
    CancelLeft(a, b, b');
  }

  lemma FreshIsNew(text: string) returns (d: string)
    ensures IsDigits(d) && FreshToken(Unmasked(text).snap) == Token(d) && Token(d) !in Hits(Parse(text))
  {
    hide Token, Hits, Parse;
    var n := NextNumber(Hits(Parse(text)), FIRST_NUMBER);
    d := Itoa(n);
    assert TokenOf(n) == Token(d);
  }

  /** A new token is none of those found in the text, so what it stands for is not itself. */
  lemma FreshIsNotItsOwn(text: string, m: Match)
    requires 0 < m.maskStart < m.maskEnd <= |text| && text[m.maskStart - 1] == '('
    ensures text[m.maskStart..m.maskEnd] != FreshToken(Unmasked(text).snap)
  {
    hide FreshToken, Hits, Parse, Token, IsDigits;
    var d := FreshIsNew(text);
    var x, c, y := text[..m.maskStart], text[m.maskStart..m.maskEnd], text[m.maskEnd..];
    assert text == x + (c + y);
    if c == Token(d) {
      TokenIsHit(x, d, y);
      assert false;
    }
  }

  /** With one placeholder the condition is exact: for every text, stray parts or not, it is
      given back exactly when the masked text holds the placeholder nowhere else. */
  lemma SinglePlaceholderExactly(text: string) returns (x: string, y: string)
    requires |MaskText(text).snap.placeholders| == 1
    ensures var r := MaskText(text);
            var t, c := r.snap.placeholders[0], Original(r.snap.mapping, r.snap.placeholders[0]);
            && r.text == x + (t + y) && text == x + (c + y) && t != "" && c != ""
            && Accepts(r.text, [t])
            && (Unmask(r.text, [t], r.snap.mapping) == text <==> OnlyInPlace(r.text, t, |x|))
  {
    hide MaskText, Accepts, OnlyInPlace, MatchAt, FindAll, Unmask, ReplaceAll;
    var r := MaskText(text);
    var p, m := OneMatch(text);
    x, y := text[..m.maskStart], text[m.maskEnd..];
    var t, c := r.snap.placeholders[0], text[m.maskStart..m.maskEnd];
    assert text == x + (c + y);
    SingleStandsFor(Unmasked(text), m);
    OccursBetween(r.text, x, t, y);
    AcceptsOne(r.text, t, |x|);
    UnmaskOne(r.text, t, r.snap.mapping);
    if OnlyInPlace(r.text, t, |x|) {
      ReplacedInPlace(x, t, y, c);
    } else if c[0] != '_' {
      ReplacedElsewhere(x, t, y, c);
    } else {
      MatchEdges(p, text, m);
      FreshIsNotItsOwn(text, m);
      NoParenthesis(Unmasked(text).snap);
      ReplacedElsewhereBetween(x, t, y, c);
    }
  }

  lemma SingleStandsFor(before: Masked, m: Match)
    requires m.maskStart <= m.maskEnd <= |before.text| && before.snap.placeholders == []
    ensures var snap := MaskOne(before, m).snap;
            && snap.placeholders == [FreshToken(before.snap)]
            && Original(snap.mapping, FreshToken(before.snap)) == before.text[m.maskStart..m.maskEnd]
            && FreshToken(before.snap) != "" && FreshToken(before.snap)[0] == '_'
  {
    FreshTokenEdges(before.snap);
    TokenShape(Itoa(NextNumber(before.snap.used, before.snap.counter)));
  }

  lemma NoParenthesis(snap: Snapshot)
    ensures '(' !in FreshToken(snap) && ')' !in FreshToken(snap)
  {
    var d := Itoa(NextNumber(snap.used, snap.counter));
    assert IsDigits(d);
    TokenIsTokenChars(d);
  }

  // ---------------------------------------------------------------- two texts

  lemma ItemIsFound(doc: Doc, d: string)
    requires Tok(d) in doc
    ensures Contains(Render(TOKENS, doc), Token(d))
  {
    var i :| 0 <= i < |doc| && doc[i] == Tok(d);
    RenderCut(TOKENS, doc, i);
    assert Render(TOKENS, doc[i..]) == Token(d) + Render(TOKENS, doc[i..][1..]);
    assert Render(TOKENS, doc)[|Render(TOKENS, doc[..i])|..] == Render(TOKENS, doc[i..]);
    assert OccursAt(Render(TOKENS, doc), Token(d), |Render(TOKENS, doc[..i])|);
  }

  /** A text that ends in its only code span. */
  lemma SpanMatches(head: string)
    requires '`' !in head
    ensures FindAll(InlineCode, head + "`x`", 0) == [Match(|head|, |head|, |head| + 3, |head| + 3)]
  {
    var s, n := head + "`x`", |head|;
    assert s[n] == '`' && s[n + 1] == 'x' && s[n + 2] == '`';
    NoMatchUpTo(InlineCode, s, 0, n);
    FirstAtIs(s, '`', n + 1, n + 2);
    FindAllStep(InlineCode, s, n, Some(Match(n, n, n + 3, n + 3)));
  }

  lemma SpanFirstPass(head: string, m0: Masked)
    requires '`' !in head && m0.text == head + "`x`" && TOKEN !in m0.snap.used && m0.snap.counter == 900000
    ensures MaskPass(InlineCode, m0) == Masked(head + TOKEN, Snapshot(900001, m0.snap.used + {TOKEN},
              m0.snap.placeholders + [TOKEN], m0.snap.mapping[TOKEN := "`x`"]))
  {
    var s, n := m0.text, |head|;
    var ms := [Match(n, n, n + 3, n + 3)];
    SpanMatches(head);
    FirstToken();
    hide TokenOf;
    assert NextNumber(m0.snap.used, 900000) == 900000;
    assert ms[1..] == [] && s[n..n + 3] == "`x`" && s[0..n] == head && s[n + 3..] == "";
    var snap' := Register(m0.snap, "`x`");
    assert MaskFrom(s, n + 3, [], snap') == Masked("", snap');
    MaskFromStep(s, 0, ms, m0.snap);
    assert head + TOKEN + "" == head + TOKEN;
  }

  lemma NoBrackets(head: string)
    requires '<' !in head && '[' !in head
    ensures '<' !in head + TOKEN && '[' !in head + TOKEN
  {
  }

  /** The one code span at the end gets the first placeholder. */
  lemma SpanMasked(head: string)
    requires '`' !in head && '<' !in head && '[' !in head && TOKEN !in Hits(Parse(head + "`x`"))
    ensures var r := MaskText(head + "`x`");
            r.text == head + TOKEN && r.snap.placeholders == [TOKEN] && Original(r.snap.mapping, TOKEN) == "`x`"
  {
    hide Parse, Hits, MaskPass;
    var m0 := Unmasked(head + "`x`");
    SpanFirstPass(head, m0);
    NoBrackets(head);
    var m1 := MaskPass(InlineCode, m0);
    NothingToMask(AngleLink, m1);
    NothingToMask(LinkUrl, m1);
  }

  const UNCLEAN := "__OC_I18N_900000`x`"

  lemma UncleanOccurrence(k: nat)
    ensures !OccursAt(UNCLEAN, TOKEN, k)
  {
    if k <= 1 {
      var rest := UNCLEAN[k..];
      assert rest[16] == UNCLEAN[k + 16] && rest[1] == UNCLEAN[k + 1];
      assert if k == 0 then rest[16] != TOKEN[16] else rest[1] != TOKEN[1];
    }
  }

  lemma UncleanHasNoToken()
    ensures TOKEN !in Hits(Parse(UNCLEAN))
  {
    var doc := Parse(UNCLEAN);
    if TOKEN in Hits(doc) {
      var i :| 0 <= i < |doc| && doc[i].Tok? && Token(doc[i].name) == TOKEN;
      ItemIsFound(doc, doc[i].name);
      RenderParse(UNCLEAN);
      var k: nat :| OccursAt(UNCLEAN, TOKEN, k);
      UncleanOccurrence(k);
      assert false;
    }
  }

  lemma UncleanNotInPlace(x: string, y: string)
    requires UNCLEAN == x + ("`x`" + y)
    ensures !OnlyInPlace("__OC_I18N_900000" + TOKEN, TOKEN, |x|)
  {
    assert (x + ("`x`" + y))[|x|] == '`';
    var s := "__OC_I18N_900000" + TOKEN;
    assert s[0..] == s == TOKEN + "OC_I18N_900000__";
    assert OccursAt(s, TOKEN, 0);
  }

  /** A text that ends in part of a token right before a masked span is accepted by the
      check and yet not given back: the hypothesis of MaskRoundTrip is needed. */
  lemma UncleanTextIsNotGivenBack()
    ensures !NoStray(UNCLEAN)
    ensures var r := MaskText(UNCLEAN);
            && r.snap.placeholders == [TOKEN]
            && Accepts(r.text, r.snap.placeholders)
            && Unmask(r.text, r.snap.placeholders, r.snap.mapping) != UNCLEAN
  {
    hide NoStray, MaskText, Accepts, Unmask, OnlyInPlace, Parse, Hits;
    var head := "__OC_I18N_900000";
    assert UNCLEAN == head + "`x`";
    UncleanHasNoToken();
    SpanMasked(head);
    var x, y := SinglePlaceholderExactly(UNCLEAN);
    UncleanNotInPlace(x, y);
    if NoStray(UNCLEAN) {
      MaskRoundTrip(UNCLEAN);
      assert false;
    }
  }

  const STRAY := "OC_I18N_`x`"

  lemma StrayIsPlain()
    ensures Parse(STRAY) == Chars(STRAY)
  {
    forall i: nat
      ensures !OccursAt(STRAY, OPEN, i)
    {
      if i <= 1 {
        assert STRAY[i..][0] == STRAY[i];
      }
    }
    ParsePlain(STRAY);
  }

  lemma StrayIsHarmless(d: string)
    requires Token(d) == TOKEN
    ensures CleanFor(Chars(STRAY), d)
  {
    TokenInjective(d, "900000");
    assert |CORE + d| > |STRAY|;
  }

  /** A stray part whose digits are not handed out does no harm. */
  lemma StrayTextIsGivenBack()
    ensures !Lacks(Parse(STRAY), CORE) && NoStray(STRAY)
    ensures var r := MaskText(STRAY);
            && r.snap.placeholders == [TOKEN]
            && Accepts(r.text, r.snap.placeholders)
            && Unmask(r.text, r.snap.placeholders, r.snap.mapping) == STRAY
  {
    hide MaskText, Accepts, Unmask, Parse, Hits, CleanFor, OnlyInPlace;
    assert STRAY == CORE + "`x`";
    StrayIsPlain();
    assert RunAt(Chars(STRAY), CORE, 0);
    assert TOKEN !in Hits(Parse(STRAY)) by {
      PlainHasNoHits(STRAY);
    }
    SpanMasked(CORE);
    forall d: string | Token(d) in MaskText(STRAY).snap.placeholders
      ensures CleanFor(Parse(STRAY), d)
    {
      StrayIsHarmless(d);
    }
    MaskRoundTrip(STRAY);
    var x, y := SinglePlaceholderExactly(STRAY);
  }

  lemma PlainHasNoHits(s: string)
    ensures Hits(Chars(s)) == {}
  {
  }
}
