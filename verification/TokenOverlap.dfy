/** Which strings a token can overlap in a text, and what therefore stays when the tokens of
    a text are filled in. */
module TokenOverlap {
  import opened Text
  import opened Placeholders
  import opened Masking

  /** Placed so that t begins o characters after w does, the two differ somewhere. */
  predicate ClashAt(w: string, t: string, o: int) {
    exists i :: 0 <= i < |w| && 0 <= i - o < |t| && w[i] != t[i - o]
  }

  /** In no text does t overlap w. */
  predicate Apart(w: string, t: string) {
    forall o :: -|t| < o < |w| ==> ClashAt(w, t, o)
  }

  lemma ClashInText(s: string, w: string, t: string, p: nat, o: nat)
    requires ClashAt(w, t, o - p) && OccursAt(s, w, p)
    ensures !OccursAt(s, t, o)
  {
    var i :| 0 <= i < |w| && 0 <= i - (o - p) < |t| && w[i] != t[i - (o - p)];
    var k: nat := i - (o - p);
    CharAt(s, w, p, i);
    if OccursAt(s, t, o) {
      CharAt(s, t, o, k);
      assert false;
    }
  }

  lemma ApartInText(s: string, w: string, t: string, p: nat, o: nat)
    requires Apart(w, t) && OccursAt(s, w, p) && OccursAt(s, t, o)
    ensures o + |t| <= p || p + |w| <= o
  {
    hide OccursAt, ClashAt;
    if p < o + |t| && o < p + |w| {
      assert ClashAt(w, t, o - p);
      ClashInText(s, w, t, p, o);
      assert false;
    }
  }

  // ---------------------------------------------------------------- what filling in keeps

  /** A part of the text that no occurrence touches is still there after replacing. */
  lemma {:induction false} ReplaceKeepsPart(s: string, t: string, c: string, w: string, p: nat)
    requires t != "" && OccursAt(s, w, p)
    requires forall o: nat :: OccursAt(s, t, o) ==> o + |t| <= p || p + |w| <= o
    ensures Contains(ReplaceAll(s, t, c), w)
    decreases |s|
  {
    if p == 0 {
      assert s[0..] == s;
      ReplaceSkips(s, t, c, |w|);
      assert s[..|w|] == w;
      assert OccursAt(ReplaceAll(s, t, c), w, 0);
    } else {
      assert s[0..] == s;
      var n, new_ := if t <= s then |t| else 1, if t <= s then c else [s[0]];
      assert t <= s ==> OccursAt(s, t, 0);
      assert s[n..][p - n..] == s[p..];
      forall o: nat | OccursAt(s[n..], t, o)
        ensures o + |t| <= p - n || p - n + |w| <= o
      {
        assert s[n..][o..] == s[n + o..];
        assert OccursAt(s, t, n + o);
      }
      ReplaceKeepsPart(s[n..], t, c, w, p - n);
      assert ReplaceAll(s, t, c) == new_ + ReplaceAll(s[n..], t, c);
      ContainsInTail(new_, ReplaceAll(s[n..], t, c), w);
    }
  }

  lemma ContainsInTail(a: string, b: string, w: string)
    requires Contains(b, w)
    ensures Contains(a + b, w)
  {
    var i: nat :| OccursAt(b, w, i);
    assert (a + b)[|a| + i..] == b[i..];
    assert OccursAt(a + b, w, |a| + i);
  }

  lemma ContainsInPart(s: string, t: string, w: string)
    requires Contains(s, t) && Contains(t, w)
    ensures Contains(s, w)
  {
    var i: nat :| OccursAt(s, t, i);
    var k: nat :| OccursAt(t, w, k);
    assert s[i..][..|t|] == t && s[i..] == t + s[i..][|t|..];
    assert s[i + k..] == s[i..][k..] == t[k..] + s[i..][|t|..];
    assert OccursAt(s, w, i + k);
  }

  lemma ReplaceKeepsApart(s: string, t: string, c: string, w: string)
    requires t != "" && Apart(w, t) && Contains(s, w)
    ensures Contains(ReplaceAll(s, t, c), w)
  {
    hide ReplaceAll, OccursAt, Apart;
    var p: nat :| OccursAt(s, w, p);
    forall o: nat | OccursAt(s, t, o)
      ensures o + |t| <= p || p + |w| <= o
    {
      ApartInText(s, w, t, p, o);
    }
    ReplaceKeepsPart(s, t, c, w, p);
  }

  /** Every piece of what is filled in is in the text afterwards. */
  lemma ReplaceBrings(s: string, t: string, c: string, w: string)
    requires t != "" && Contains(s, t) && Contains(c, w)
    ensures Contains(ReplaceAll(s, t, c), w)
  {
    var p := Index(s, t).value;
    ReplaceFirst(s, t, c, p);
    hide ReplaceAll, OccursAt;
    var rest := ReplaceAll(s[p + |t|..], t, c);
    ContainsAtHead(c, rest);
    ContainsInTail(s[..p], c + rest, c);
    ContainsInPart(s[..p] + (c + rest), c, w);
  }

  lemma ContainsAtHead(a: string, b: string)
    ensures Contains(a + b, a)
  {
    assert (a + b)[0..] == a + b;
    assert OccursAt(a + b, a, 0);
  }

  lemma {:induction false} UnmaskKeepsApart(s: string, ps: seq<string>, mapping: map<string, string>, w: string)
    requires "" !in ps && Contains(s, w) && forall k :: 0 <= k < |ps| ==> Apart(w, ps[k])
    ensures Contains(Unmask(s, ps, mapping), w)
    decreases |ps|
  {
    hide Apart, Contains, ReplaceAll, Original;
    if ps != [] {
      assert Apart(w, ps[0]) && ps[0] in ps;
      ReplaceKeepsApart(s, ps[0], Original(mapping, ps[0]), w);
      assert forall k :: 0 <= k < |ps| - 1 ==> ps[1..][k] == ps[k + 1];
      UnmaskKeepsApart(ReplaceAll(s, ps[0], Original(mapping, ps[0])), ps[1..], mapping, w);
    }
  }

  lemma {:induction false} UnmaskAppend(s: string, a: seq<string>, b: seq<string>, mapping: map<string, string>)
    requires "" !in a && "" !in b
    ensures Unmask(s, a + b, mapping) == Unmask(Unmask(s, a, mapping), b, mapping)
    decreases |a|
  {
    hide ReplaceAll, Original;
    if a == [] {
      assert a + b == b;
    } else {
      assert (a + b)[0] == a[0] && (a + b)[1..] == a[1..] + b && a[0] in a;
      UnmaskAppend(ReplaceAll(s, a[0], Original(mapping, a[0])), a[1..], b, mapping);
    }
  }

  /** What no text of the placeholders touches they leave as it is. */
  lemma {:induction false} UnmaskAbsent(s: string, ps: seq<string>, mapping: map<string, string>)
    requires "" !in ps && forall k :: 0 <= k < |ps| ==> !Contains(s, ps[k])
    ensures Unmask(s, ps, mapping) == s
    decreases |ps|
  {
    hide Contains, ReplaceAll, Original;
    if ps != [] {
      assert ps[0] in ps;
      ReplaceAbsent(s, ps[0], Original(mapping, ps[0]));
      assert forall k :: 0 <= k < |ps| - 1 ==> ps[1..][k] == ps[k + 1];
      UnmaskAbsent(s, ps[1..], mapping);
    }
  }

  /** Words are filled in on the two sides of a blank apart. */
  lemma {:induction false} UnmaskAtBlank(a: string, b: string, ps: seq<string>, mapping: map<string, string>)
    requires "" !in ps && forall k :: 0 <= k < |ps| ==> IsWord(ps[k])
    ensures Unmask(a + (" " + b), ps, mapping) == Unmask(a, ps, mapping) + (" " + Unmask(b, ps, mapping))
    decreases |ps|
  {
    hide ReplaceAll, Original;
    if ps != [] {
      var t, c := ps[0], Original(mapping, ps[0]);
      assert IsWord(t) && t in ps && IsSpace((" " + b)[0]);
      hide IsWord, IsSpace, IsCut;
      SpaceIsCut(a, " " + b, t);
      ReplaceAtCut(a, " " + b, t, c);
      ReplaceAfterBlank(" ", b, t, c);
      assert forall k :: 0 <= k < |ps| - 1 ==> ps[1..][k] == ps[k + 1];
      UnmaskAtBlank(ReplaceAll(a, t, c), ReplaceAll(b, t, c), ps[1..], mapping);
    }
  }

  // ---------------------------------------------------------------- tokens and the middles of tokens

  /** A token without the underscores that it can share with its neighbours. */
  function Middle(d: string): string {
    CORE + d
  }

  lemma MiddleInToken(d: string)
    ensures Contains(Token(d), Middle(d)) && OccursAt(Token(d), Middle(d), 2)
  {
    assert Token(d) == CLOSE + (Middle(d) + CLOSE);
    assert Token(d)[2..] == Middle(d) + CLOSE;
    assert Middle(d) == Token(d)[2..][..|Middle(d)|];
    assert OccursAt(Token(d), Middle(d), 2);
  }

  lemma NoPairInMiddle(e: string, k: nat)
    requires IsDigits(e) && k + 1 < |Middle(e)|
    ensures Middle(e)[k] != '_' || Middle(e)[k + 1] != '_'
  {
    var w := Middle(e);
    if k + 1 < |CORE| {
      assert w[k] == CORE[k] && w[k + 1] == CORE[k + 1];
    } else {
      assert w[k + 1] == e[k + 1 - |CORE|];
    }
  }

  lemma OnlyOneO(d: string, k: nat)
    requires IsDigits(d) && k < |Token(d)| && k != 2
    ensures Token(d)[k] != 'O'
  {
    if |OPEN| <= k < |OPEN| + |d| {
      assert Token(d)[k] == d[k - |OPEN|];
    } else if k < |OPEN| {
      assert Token(d)[k] == OPEN[k];
    }
  }

  lemma {:induction false} DigitsDiffer(d: string, e: string) returns (i: nat)
    requires |d| == |e| && d != e
    ensures i < |d| && d[i] != e[i]
  {
    i := 0;
    if d[0] == e[0] {
      assert d == [d[0]] + d[1..] && e == [e[0]] + e[1..];
      i := DigitsDiffer(d[1..], e[1..]);
      i := i + 1;
    }
  }

  /** A token and the middle of one overlap only in the place where the middle belongs, and
      there only when the digits agree. */
  lemma MiddleClash(e: string, d: string, o: int)
    requires IsDigits(d) && IsDigits(e) && -|Token(d)| < o < |Middle(e)|
    requires o != -2 || (|d| == |e| && d != e)
    ensures ClashAt(Middle(e), Token(d), o)
  {
    var w, t := Middle(e), Token(d);
    if o >= 0 {
      assert t[0] == '_' && t[1] == '_' && |t| > 2;
      if o + 1 < |w| {
        NoPairInMiddle(e, o);
        var i := if w[o] != '_' then o else o + 1;
        assert w[i] != t[i - o];
      } else {
        assert w[o] == e[|e| - 1] != t[o - o];
      }
    } else if o != -2 {
      assert w[0] == 'O';
      OnlyOneO(d, -o);
      assert w[0] != t[0 - o];
    } else {
      var i := DigitsDiffer(e, d);
      assert w[|CORE| + i] == e[i] && t[|CORE| + i - o] == d[i];
    }
  }

  lemma MiddleApart(e: string, d: string)
    requires IsDigits(d) && IsDigits(e) && |d| == |e| && d != e
    ensures Apart(Middle(e), Token(d))
  {
    hide ClashAt, Middle, Token;
    forall o | -|Token(d)| < o < |Middle(e)|
      ensures ClashAt(Middle(e), Token(d), o)
    {
      MiddleClash(e, d, o);
    }
  }

  // ---------------------------------------------------------------- strings that are apart from a token

  /** A string without underscores is part of a token, or no token can overlap it. */
  lemma PartOrApart(w: string, d: string)
    requires w != "" && '_' !in w
    ensures Contains(Token(d), w) || Apart(w, Token(d))
  {
    var t := Token(d);
    if !Contains(t, w) {
      forall o | -|t| < o < |w|
        ensures ClashAt(w, t, o)
      {
        assert t[0] == '_' && t[|t| - 1] == '_';
        if o >= 0 {
          assert w[o] != t[o - o];
        } else if o + |t| <= |w| {
          assert w[o + |t| - 1] != t[(o + |t| - 1) - o];
        } else {
          NotThere(w, t, o);
        }
      }
    }
  }

  lemma NotThere(w: string, t: string, o: int)
    requires o <= 0 && |w| - o <= |t| && !Contains(t, w)
    ensures ClashAt(w, t, o)
  {
    var k: nat := 0 - o;
    assert !OccursAt(t, w, k);
    var part := t[k..k + |w|];
    assert t[k..][..|w|] == part;
    assert w != part;
    var i := DigitsDiffer(w, part);
    assert w[i] != t[i - o];
  }
}
