/** When the translation of a text can come out blank although the model's reply is not: the
    placeholders of the reply can stand for white space. */
module BlankReplies {
  import opened Wrappers
  import opened Text
  import opened Decimal
  import opened Placeholders
  import opened Masking
  import opened Translator
  import opened TokenOverlap

  // ---------------------------------------------------------------- the tokens that are handed out

  ghost predicate HandedOut(x: string, counter: nat) {
    exists n: nat :: FIRST_NUMBER <= n < counter && x == TokenOf(n)
  }

  ghost predicate Numbered(snap: Snapshot) {
    && snap.counter >= FIRST_NUMBER
    && (forall j :: 0 <= j < |snap.placeholders| ==> HandedOut(snap.placeholders[j], snap.counter))
    && forall i, j :: 0 <= i < j < |snap.placeholders| ==> snap.placeholders[i] != snap.placeholders[j]
  }

  lemma RegisterNumbered(snap: Snapshot, original: string)
    requires Numbered(snap)
    ensures Numbered(Register(snap, original))
  {
    hide TokenOf;
    var snap' := Register(snap, original);
    forall j | 0 <= j < |snap'.placeholders|
      ensures HandedOut(snap'.placeholders[j], snap'.counter)
    {
      if j < |snap.placeholders| {
        assert HandedOut(snap.placeholders[j], snap.counter);
      } else {
        assert snap'.placeholders[j] == TokenOf(NextNumber(snap.used, snap.counter));
      }
    }
    forall i | 0 <= i < |snap.placeholders|
      ensures snap.placeholders[i] != TokenOf(NextNumber(snap.used, snap.counter))
    {
      assert HandedOut(snap.placeholders[i], snap.counter);
      var n: nat :| FIRST_NUMBER <= n < snap.counter && snap.placeholders[i] == TokenOf(n);
      if TokenOf(n) == TokenOf(NextNumber(snap.used, snap.counter)) {
        TokenOfInjective(n, NextNumber(snap.used, snap.counter));
        assert false;
      }
    }
  }

  lemma {:induction false} MaskFromNumbered(s: string, pos: nat, ms: seq<Match>, snap: Snapshot)
    requires pos <= |s| && GoodMatches(s, ms, pos) && Numbered(snap)
    ensures Numbered(MaskFrom(s, pos, ms, snap).snap)
    decreases |ms|
  {
    hide Numbered, Register;
    if ms != [] {
      MaskFromStep(s, pos, ms, snap);
      var m := ms[0];
      RegisterNumbered(snap, s[m.maskStart..m.maskEnd]);
      MaskFromNumbered(s, m.maskEnd, ms[1..], Register(snap, s[m.maskStart..m.maskEnd]));
    }
  }

  lemma PassNumbered(p: Pattern, m: Masked)
    requires Numbered(m.snap)
    ensures Numbered(MaskPass(p, m).snap)
  {
    MaskFromNumbered(m.text, 0, FindAll(p, m.text, 0), m.snap);
  }

  lemma MaskNumbered(text: string)
    ensures Numbered(MaskText(text).snap)
  {
    hide MaskPass;
    PassNumbered(InlineCode, Unmasked(text));
    PassNumbered(AngleLink, MaskPass(InlineCode, Unmasked(text)));
    PassNumbered(LinkUrl, MaskPass(AngleLink, MaskPass(InlineCode, Unmasked(text))));
  }

  lemma SixDigits(n: nat)
    requires 100000 <= n < 1000000
    ensures |Itoa(n)| == 6
  {
    assert |Itoa(n / 10000)| == 2 by {
      assert |Itoa(n / 100000)| == 1;
    }
    assert n / 1000 / 10 == n / 10000 && n / 100 / 10 == n / 1000 && n / 10 / 10 == n / 100;
    assert |Itoa(n / 1000)| == 3;
    assert |Itoa(n / 100)| == 4;
    assert |Itoa(n / 10)| == 5;
  }

  ghost predicate IsTokenOf(x: string, n: nat) {
    exists d: string :: IsDigits(d) && |d| == n && x == Token(d)
  }

  /** Different tokens with n digits each. */
  ghost predicate TokensOf(ps: seq<string>, n: nat) {
    && (forall j :: 0 <= j < |ps| ==> IsTokenOf(ps[j], n))
    && forall i, j :: 0 <= i < j < |ps| ==> ps[i] != ps[j]
  }

  lemma HandedOutHaveSixDigits(snap: Snapshot)
    requires Numbered(snap) && snap.counter <= 1000000
    ensures TokensOf(snap.placeholders, 6)
  {
    forall j | 0 <= j < |snap.placeholders|
      ensures IsTokenOf(snap.placeholders[j], 6)
    {
      assert HandedOut(snap.placeholders[j], snap.counter);
      var n: nat :| FIRST_NUMBER <= n < snap.counter && snap.placeholders[j] == TokenOf(n);
      SixDigits(n);
      assert IsDigits(Itoa(n));
    }
  }

  /** The token without its two underscores on each side. */
  function Inner(token: string): string {
    if |token| < 4 then token else token[2..|token| - 2]
  }

  lemma InnerIsMiddle(d: string)
    ensures Inner(Token(d)) == Middle(d)
  {
    assert Token(d) == CLOSE + (Middle(d) + CLOSE);
  }

  lemma TokenHasInner(x: string, n: nat)
    requires IsTokenOf(x, n)
    ensures x != "" && Contains(x, Inner(x)) && !IsBlank(Inner(x)) && IsWord(x)
  {
    var d: string :| IsDigits(d) && |d| == n && x == Token(d);
    InnerIsMiddle(d);
    MiddleInToken(d);
    assert Middle(d)[0] == 'O';
    TokenIsWord(d);
  }

  lemma InnerApart(x: string, y: string, n: nat)
    requires IsTokenOf(x, n) && IsTokenOf(y, n) && x != y
    ensures Apart(Inner(x), y)
  {
    hide Token, Middle, Apart, Inner;
    var d: string :| IsDigits(d) && |d| == n && x == Token(d);
    var e: string :| IsDigits(e) && |e| == n && y == Token(e);
    InnerIsMiddle(d);
    MiddleApart(d, e);
  }

  // ---------------------------------------------------------------- parts that cannot get lost

  /** Something other than white space that no placeholder of these can overlap. */
  ghost predicate IsFirmPiece(w: string, later: seq<string>) {
    !IsBlank(w) && forall k :: 0 <= k < |later| ==> Apart(w, later[k])
  }

  ghost predicate IsFirm(part: string, later: seq<string>) {
    exists w: string :: Contains(part, w) && IsFirmPiece(w, later)
  }

  lemma ContainsNotBlank(s: string, w: string)
    requires Contains(s, w) && !IsBlank(w)
    ensures !IsBlank(s)
  {
    var p: nat :| OccursAt(s, w, p);
    var i :| 0 <= i < |w| && !IsSpace(w[i]);
    CharAt(s, w, p, i);
  }

  lemma UnmaskAround(text: string, ps: seq<string>, mapping: map<string, string>, j: nat)
    requires "" !in ps && j < |ps|
    ensures "" !in ps[..j] && "" !in ps[j + 1..] && ps[j] != ""
    ensures Unmask(text, ps, mapping)
         == Unmask(ReplaceAll(Unmask(text, ps[..j], mapping), ps[j], Original(mapping, ps[j])), ps[j + 1..], mapping)
  {
    hide ReplaceAll, Original;
    assert ps == ps[..j] + ps[j..] && ps[j..][1..] == ps[j + 1..] && ps[j..][0] == ps[j];
    assert forall x :: x in ps[..j] || x in ps[j..] || x in ps[j + 1..] ==> x in ps;
    UnmaskAppend(text, ps[..j], ps[j..], mapping);
  }

  /** In a reply with all placeholders, what is firm in one part is in the translation, or
      the placeholder itself is, but for its outer underscores. */
  lemma FirmPartStays(text: string, ps: seq<string>, mapping: map<string, string>, n: nat, j: nat)
    requires TokensOf(ps, n) && "" !in ps && Accepts(text, ps) && j < |ps|
    requires IsFirm(Original(mapping, ps[j]), ps[j + 1..])
    ensures !IsBlank(Unmask(text, ps, mapping))
  {
    hide Unmask, ReplaceAll, Contains, Apart, Inner, IsBlank, IsTokenOf, Original, IsWord;
    var c, m, later := Original(mapping, ps[j]), Inner(ps[j]), ps[j + 1..];
    TokenHasInner(ps[j], n);
    assert Contains(text, ps[j]);
    ContainsInPart(text, ps[j], m);
    forall k | 0 <= k < |ps| && k != j
      ensures Apart(m, ps[k])
    {
      InnerApart(ps[j], ps[k], n);
    }
    UnmaskAround(text, ps, mapping, j);
    UnmaskKeepsApart(text, ps[..j], mapping, m);
    var before := Unmask(text, ps[..j], mapping);
    var w: string :| Contains(c, w) && IsFirmPiece(w, later);
    if Contains(before, ps[j]) {
      ReplaceBrings(before, ps[j], c, w);
    } else {
      w := m;
      ReplaceAbsent(before, ps[j], c);
    }
    UnmaskKeepsApart(ReplaceAll(before, ps[j], c), later, mapping, w);
    ContainsNotBlank(Unmask(text, ps, mapping), w);
  }

  // ---------------------------------------------------------------- parts that can get lost

  /** White space, or a part of some placeholder that is filled in later. */
  ghost predicate CanVanish(ps: seq<string>, mapping: map<string, string>, j: nat)
    requires j < |ps|
  {
    IsBlank(Original(mapping, ps[j])) || exists k :: j < k < |ps| && Contains(ps[k], Original(mapping, ps[j]))
  }

  /** None of the first j placeholders is in the text, not even without its underscores. */
  ghost predicate NoInner(s: string, ps: seq<string>, j: nat)
    requires j <= |ps|
  {
    forall i :: 0 <= i < j ==> !Contains(s, Inner(ps[i]))
  }

  lemma NoInnerNoToken(s: string, ps: seq<string>, n: nat, j: nat, i: nat)
    requires TokensOf(ps, n) && i < j <= |ps| && NoInner(s, ps, j)
    ensures !Contains(s, ps[i])
  {
    TokenHasInner(ps[i], n);
    if Contains(s, ps[i]) {
      ContainsInPart(s, ps[i], Inner(ps[i]));
      assert false;
    }
  }

  /** Placeholders that are not in the text do nothing. */
  lemma UnmaskSkips(s: string, ps: seq<string>, mapping: map<string, string>, n: nat, i: nat, j: nat)
    requires TokensOf(ps, n) && "" !in ps && i <= j <= |ps| && NoInner(s, ps, j)
    ensures "" !in ps[i..] && "" !in ps[j..]
    ensures Unmask(s, ps[i..], mapping) == Unmask(s, ps[j..], mapping)
  {
    hide Unmask, Contains, IsTokenOf;
    assert forall x :: x in ps[i..] || x in ps[j..] || x in ps[i..j] ==> x in ps;
    assert ps[i..] == ps[i..j] + ps[j..];
    UnmaskAppend(s, ps[i..j], ps[j..], mapping);
    forall k | 0 <= k < |ps[i..j]|
      ensures !Contains(s, ps[i..j][k])
    {
      NoInnerNoToken(s, ps, n, j, i + k);
    }
    UnmaskAbsent(s, ps[i..j], mapping);
  }

  lemma OccursOutside(a: string, b: string, t: string, c: string, w: string, o: nat)
    requires OccursAt(a + t + b, w, o) && (o + |w| <= |a| || |a| + |t| <= o)
    ensures Contains(a + c + b, w)
  {
    var s, rest := a + t + b, a + c + b;
    if o + |w| <= |a| {
      assert rest[o..][..|w|] == s[o..][..|w|] == w;
      assert OccursAt(rest, w, o);
    } else {
      var p := o - |t| + |c|;
      assert s[o..] == b[o - |a| - |t|..] == rest[p..];
      assert OccursAt(rest, w, p);
    }
  }

  /** The middle of a token that is not in the text is not there either after something in
      the text is replaced by another token, and when by this one, only in its place. */
  lemma OnlyWhereInserted(a: string, b: string, d: string, c: string, e: string, o: nat)
    requires IsDigits(d) && IsDigits(e) && |d| == |e| && !Contains(a + c + b, Middle(e))
    requires OccursAt(a + Token(d) + b, Middle(e), o)
    ensures d == e && o == |a| + 2
  {
    hide Token, Middle, Contains, OccursAt, ClashAt;
    var s, t, w := a + Token(d) + b, Token(d), Middle(e);
    if o + |w| <= |a| || |a| + |t| <= o {
      OccursOutside(a, b, t, c, w, o);
      assert false;
    }
    TokenInPlace(a, t, b);
    if |a| - o != -2 || d != e {
      MiddleClash(e, d, |a| - o);
      ClashInText(s, w, t, o, |a|);
      assert false;
    }
  }

  lemma TokenInPlace(a: string, t: string, b: string)
    ensures OccursAt(a + t + b, t, |a|)
  {
    assert (a + t + b)[|a|..] == t + b;
  }

  /** A token put where c was is the only one of its digits, and replacing it by c takes it
      back. */
  lemma InsertedIsReplaced(a: string, b: string, d: string, c: string)
    requires IsDigits(d) && !Contains(a + c + b, Middle(d))
    ensures Token(d) != "" && ReplaceAll(a + Token(d) + b, Token(d), c) == a + c + b
  {
    var s, t := a + Token(d) + b, Token(d);
    hide Token, Middle, ReplaceAll, OccursAt;
    TokenHasInner(t, |d|);
    TokenInPlace(a, t, b);
    forall o: nat | OccursAt(s, t, o)
      ensures o == |a|
    {
      MiddleOfOccurrence(s, d, o);
      OnlyWhereInserted(a, b, d, c, d, o + 2);
    }
    assert s == a + (t + b);
    IndexIs(s, t, |a|);
    ReplaceBetween(a, t, b, c);
    if Contains(b, t) {
      var o: nat :| OccursAt(b, t, o);
      OccursLater(a + t, b, t, o);
      assert false;
    }
    ReplaceAbsent(b, t, c);
    assert a + (c + b) == a + c + b;
  }

  lemma OccursLater(a: string, b: string, t: string, o: nat)
    requires OccursAt(b, t, o)
    ensures OccursAt(a + b, t, |a| + o)
  {
    assert (a + b)[|a| + o..] == b[o..];
  }

  lemma MiddleOfOccurrence(s: string, d: string, o: nat)
    requires OccursAt(s, Token(d), o)
    ensures OccursAt(s, Middle(d), o + 2)
  {
    assert Token(d) == CLOSE + (Middle(d) + CLOSE);
    assert s[o..][2..] == s[o + 2..] && Token(d)[2..] == Middle(d) + CLOSE;
    assert Middle(d) <= s[o + 2..];
  }

  /** Putting placeholder j for a part of the text that it stands for. */
  lemma InsertPlaceholder(a: string, b: string, ps: seq<string>, n: nat, j: nat, c: string)
    requires TokensOf(ps, n) && j < |ps| && NoInner(a + c + b, ps, j + 1)
    ensures NoInner(a + ps[j] + b, ps, j) && ps[j] != ""
    ensures ReplaceAll(a + ps[j] + b, ps[j], c) == a + c + b
  {
    hide Contains, ReplaceAll, Token, Middle, Inner;
    assert IsTokenOf(ps[j], n);
    var d: string :| IsDigits(d) && |d| == n && ps[j] == Token(d);
    InnerIsMiddle(d);
    InsertedIsReplaced(a, b, d, c);
    forall i | 0 <= i < j
      ensures !Contains(a + ps[j] + b, Inner(ps[i]))
    {
      assert IsTokenOf(ps[i], n);
      var e: string :| IsDigits(e) && |e| == n && ps[i] == Token(e);
      InnerIsMiddle(e);
      NotWhereInserted(a, b, d, c, e);
    }
  }

  lemma NotWhereInserted(a: string, b: string, d: string, c: string, e: string)
    requires IsDigits(d) && IsDigits(e) && |d| == |e| && d != e && !Contains(a + c + b, Middle(e))
    ensures !Contains(a + Token(d) + b, Middle(e))
  {
    if Contains(a + Token(d) + b, Middle(e)) {
      var o: nat :| OccursAt(a + Token(d) + b, Middle(e), o);
      OnlyWhereInserted(a, b, d, c, e, o);
      assert false;
    }
  }

  lemma CutOut(s: string, c: string) returns (a: string, b: string)
    requires Contains(s, c)
    ensures s == a + c + b
  {
    var p: nat :| OccursAt(s, c, p);
    a, b := s[..p], s[p..][|c|..];
    assert s == s[..p] + s[p..] && s[p..] == c + b;
  }

  /** A text with placeholder j of which nothing but white space is left. When the part that
      j stands for is part of a later placeholder, it is put in the text for that one. */
  lemma {:induction false} VanishingText(ps: seq<string>, mapping: map<string, string>, n: nat, j: nat)
    returns (s: string)
    requires TokensOf(ps, n) && "" !in ps && j < |ps|
    requires forall i :: j <= i < |ps| ==> CanVanish(ps, mapping, i)
    ensures Contains(s, ps[j]) && NoInner(s, ps, j) && "" !in ps[j..] && IsBlank(Unmask(s, ps[j..], mapping))
    decreases |ps| - j
  {
    hide Unmask, IsBlank, Contains, ReplaceAll, Inner, IsTokenOf, Original, NoInner;
    var c := Original(mapping, ps[j]);
    assert CanVanish(ps, mapping, j);
    var rest;
    if IsBlank(c) {
      rest := c;
      BlankText(c, ps, mapping, n);
      ContainsItself(c);
    } else {
      var k :| j < k < |ps| && Contains(ps[k], c);
      rest := VanishingText(ps, mapping, n, k);
      ContainsInPart(rest, ps[k], c);
      FewerInner(rest, ps, j + 1, k);
      UnmaskSkips(rest, ps, mapping, n, j + 1, k);
    }
    var a, b := CutOut(rest, c);
    s := a + ps[j] + b;
    InsertPlaceholder(a, b, ps, n, j, c);
    FirstUnmasked(s, ps, mapping, j);
    TokenInPlace(a, ps[j], b);
    OccursContains(s, ps[j], |a|);
  }

  lemma OccursContains(s: string, t: string, o: nat)
    requires OccursAt(s, t, o)
    ensures Contains(s, t)
  {
  }

  lemma ContainsItself(s: string)
    ensures Contains(s, s)
  {
    assert OccursAt(s, s, 0);
  }

  lemma FewerInner(s: string, ps: seq<string>, i: nat, j: nat)
    requires i <= j <= |ps| && NoInner(s, ps, j)
    ensures NoInner(s, ps, i)
  {
  }

  lemma BlankText(c: string, ps: seq<string>, mapping: map<string, string>, n: nat)
    requires IsBlank(c) && TokensOf(ps, n) && "" !in ps
    ensures NoInner(c, ps, |ps|)
    ensures forall i :: 0 <= i <= |ps| ==> NoInner(c, ps, i) && "" !in ps[i..] && Unmask(c, ps[i..], mapping) == c
  {
    hide IsBlank, Contains, IsTokenOf, Inner, Unmask;
    forall i | 0 <= i < |ps|
      ensures !Contains(c, Inner(ps[i]))
    {
      TokenHasInner(ps[i], n);
      if Contains(c, Inner(ps[i])) {
        ContainsNotBlank(c, Inner(ps[i]));
        assert false;
      }
    }
    forall i | 0 <= i <= |ps|
      ensures "" !in ps[i..] && Unmask(c, ps[i..], mapping) == c
    {
      UnmaskSkips(c, ps, mapping, n, i, |ps|);
      UnmaskNothing(c, ps[|ps|..], mapping);
    }
  }

  lemma UnmaskNothing(s: string, ps: seq<string>, mapping: map<string, string>)
    requires ps == []
    ensures Unmask(s, ps, mapping) == s
  {
  }

  lemma FirstUnmasked(s: string, ps: seq<string>, mapping: map<string, string>, j: nat)
    requires "" !in ps && j < |ps|
    ensures "" !in ps[j..] && "" !in ps[j + 1..] && ps[j] != ""
    ensures Unmask(s, ps[j..], mapping) == Unmask(ReplaceAll(s, ps[j], Original(mapping, ps[j])), ps[j + 1..], mapping)
  {
    assert ps[j..][0] == ps[j] && ps[j..][1..] == ps[j + 1..];
    assert forall x :: x in ps[j..] || x in ps[j + 1..] ==> x in ps;
  }

  /** The texts one after the other, with blanks between. */
  function WithBlanks(texts: seq<string>): string {
    if texts == [] then "" else texts[0] + (" " + WithBlanks(texts[1..]))
  }

  lemma {:induction false} WithBlanksHolds(texts: seq<string>, i: nat, w: string)
    requires i < |texts| && Contains(texts[i], w)
    ensures Contains(WithBlanks(texts), w)
  {
    hide Contains;
    var rest := " " + WithBlanks(texts[1..]);
    if i == 0 {
      ContainsAtHead(texts[0], rest);
      ContainsInPart(WithBlanks(texts), texts[0], w);
    } else {
      WithBlanksHolds(texts[1..], i - 1, w);
      ContainsInTail(" ", WithBlanks(texts[1..]), w);
      ContainsInTail(texts[0], rest, w);
    }
  }

  lemma {:induction false} WithBlanksVanishes(texts: seq<string>, ps: seq<string>, mapping: map<string, string>)
    requires "" !in ps && forall k :: 0 <= k < |ps| ==> IsWord(ps[k])
    requires forall i :: 0 <= i < |texts| ==> IsBlank(Unmask(texts[i], ps, mapping))
    ensures IsBlank(Unmask(WithBlanks(texts), ps, mapping))
  {
    hide IsBlank, Unmask, IsWord;
    EmptyUnmasked(ps, mapping);
    if texts == [] {
      assert WithBlanks(texts) == "";
    } else {
      var first, rest := Unmask(texts[0], ps, mapping), Unmask(WithBlanks(texts[1..]), ps, mapping);
      assert forall i :: 0 <= i < |texts| - 1 ==> texts[1..][i] == texts[i + 1];
      WithBlanksVanishes(texts[1..], ps, mapping);
      UnmaskAtBlank(texts[0], WithBlanks(texts[1..]), ps, mapping);
      BlankJoin(" ", rest);
      BlankJoin(first, " " + rest);
    }
  }

  lemma {:induction false} EmptyUnmasked(ps: seq<string>, mapping: map<string, string>)
    requires "" !in ps
    ensures Unmask("", ps, mapping) == "" && IsBlank("") && IsBlank(" ")
    decreases |ps|
  {
    if ps != [] {
      EmptyUnmasked(ps[1..], mapping);
    }
  }

  lemma BlankJoin(a: string, b: string)
    ensures IsBlank(a + b) <==> IsBlank(a) && IsBlank(b)
  {
    assert forall i :: 0 <= i < |a| ==> (a + b)[i] == a[i];
    assert forall i :: 0 <= i < |b| ==> (a + b)[|a| + i] == b[i];
  }

  /** A reply with a text for each placeholder of which only white space is left is accepted,
      and the translation is blank. */
  lemma ReplyOf(core: string, texts: seq<string>) returns (reply: string)
    requires var ps := MaskText(core).snap.placeholders;
             ps != [] && |texts| == |ps| && "" !in ps && forall i :: 0 <= i < |ps| ==> Contains(texts[i], ps[i])
    requires var snap := MaskText(core).snap;
             forall i :: 0 <= i < |texts| ==> IsBlank(Unmask(texts[i], snap.placeholders, snap.mapping))
    ensures AttemptResult(core, Success(reply)).Success? && IsBlank(AttemptResult(core, Success(reply)).value)
  {
    hide MaskText, IsBlank, TrimSpace, Unmask, Contains, IsWord;
    var snap := MaskText(core).snap;
    var ps := snap.placeholders;
    reply := WithBlanks(texts);
    PlaceholdersAreWords(core);
    forall i | 0 <= i < |ps|
      ensures Contains(reply, ps[i])
    {
      WithBlanksHolds(texts, i, ps[i]);
    }
    WithBlanksVanishes(texts, ps, snap.mapping);
    var t := TrimSpace(reply);
    var a, b := TrimSpaceParts(reply);
    AcceptsKeepsEnds(a, t, b, ps);
    UnmaskKeepsEnds(a, t, b, ps, snap.mapping);
    BlankJoin(a + Unmask(t, ps, snap.mapping), b);
    BlankJoin(a, Unmask(t, ps, snap.mapping));
    assert Contains(t, ps[0]);
    WordNotInNothing(t, ps[0]);
  }

  lemma WordNotInNothing(t: string, word: string)
    requires Contains(t, word) && IsWord(word)
    ensures t != ""
  {
    var i: nat :| OccursAt(t, word, i);
    CharAt(t, word, i, 0);
  }

  // ---------------------------------------------------------------- when no reply makes a translation blank

  /** What placeholder j of the masked core stands for. */
  function Part(core: string, j: nat): string
    requires j < |MaskText(core).snap.placeholders|
  {
    Original(MaskText(core).snap.mapping, MaskText(core).snap.placeholders[j])
  }

  /** Something in masked part j is not white space and can be overlapped by none of the later
      placeholders. For the last part that is to say that it is not white space. */
  ghost predicate HasFirmPart(core: string, j: nat)
    requires j < |MaskText(core).snap.placeholders|
  {
    IsFirm(Part(core, j), MaskText(core).snap.placeholders[j + 1..])
  }

  /** Nothing is masked, or some masked part is firm. */
  ghost predicate SafeCore(core: string) {
    var ps := MaskText(core).snap.placeholders;
    ps == [] || exists j :: 0 <= j < |ps| && HasFirmPart(core, j)
  }

  /** All placeholders have six digits: fewer than a hundred thousand numbers are gone through. */
  predicate FewPlaceholders(core: string) {
    MaskText(core).snap.counter <= 1000000
  }

  lemma FewAreTokens(core: string)
    requires FewPlaceholders(core)
    ensures TokensOf(MaskText(core).snap.placeholders, 6) && "" !in MaskText(core).snap.placeholders
  {
    hide MaskText, Numbered;
    MaskNumbered(core);
    HandedOutHaveSixDigits(MaskText(core).snap);
    PlaceholdersNotEmpty(core);
  }

  /** Whatever the model replies: with a safe core an accepted attempt is never blank. */
  lemma SafeCoreIsNeverBlank(core: string, reply: Reply)
    requires SafeCore(core) && FewPlaceholders(core) && AttemptResult(core, reply).Success?
    ensures !IsBlank(AttemptResult(core, reply).value)
  {
    hide MaskText, TrimSpace, IsBlank, Accepts, FewPlaceholders, IsFirm;
    var snap := MaskText(core).snap;
    var translated := TrimSpace(reply.value);
    FewAreTokens(core);
    if snap.placeholders == [] {
      TrimSpaceBlank(translated);
      assert TrimSpace(translated) == translated by {
        TrimSpaceTwice(reply.value);
      }
    } else {
      var j :| 0 <= j < |snap.placeholders| && HasFirmPart(core, j);
      FirmPartStays(translated, snap.placeholders, snap.mapping, 6, j);
    }
  }

  lemma TrimSpaceTwice(s: string)
    ensures TrimSpace(TrimSpace(s)) == TrimSpace(s)
  {
  }

  /** Every masked part is firm, white space, or part of a later placeholder. */
  ghost predicate PartsAreDecided(core: string) {
    var snap := MaskText(core).snap;
    forall j :: 0 <= j < |snap.placeholders| ==>
      HasFirmPart(core, j) || CanVanish(snap.placeholders, snap.mapping, j)
  }

  /** Without a firm part there is a reply of which nothing but white space is left. */
  lemma VanishingReply(core: string) returns (reply: string)
    requires FewPlaceholders(core) && MaskText(core).snap.placeholders != []
    requires var snap := MaskText(core).snap;
             forall j :: 0 <= j < |snap.placeholders| ==> CanVanish(snap.placeholders, snap.mapping, j)
    ensures AttemptResult(core, Success(reply)).Success? && IsBlank(AttemptResult(core, Success(reply)).value)
  {
    hide MaskText, IsBlank, AttemptResult, FewPlaceholders, CanVanish, Unmask, Contains, IsTokenOf;
    var snap := MaskText(core).snap;
    var ps, mapping := snap.placeholders, snap.mapping;
    FewAreTokens(core);
    var texts: seq<string> := [];
    for j := 0 to |ps|
      invariant |texts| == j
      invariant forall i :: 0 <= i < j ==> Contains(texts[i], ps[i]) && IsBlank(Unmask(texts[i], ps, mapping))
    {
      var s := VanishingText(ps, mapping, 6, j);
      UnmaskSkips(s, ps, mapping, 6, 0, j);
      assert ps[0..] == ps;
      texts := texts + [s];
    }
    reply := ReplyOf(core, texts);
  }

  lemma HandedOutIsToken(x: string, counter: nat)
    requires HandedOut(x, counter)
    ensures exists d: string :: IsDigits(d) && x == Token(d)
  {
    var n: nat :| FIRST_NUMBER <= n < counter && x == TokenOf(n);
    assert IsDigits(Itoa(n)) && TokenOf(n) == Token(Itoa(n));
  }

  lemma TokenInOther(d: string, e: string)
    requires IsDigits(d) && IsDigits(e) && d != e
    ensures !Contains(Token(d), Token(e))
  {
    assert |Token(e)| > 2 && Token(e)[2] == 'O';
    hide Token, IsDigits;
    if Contains(Token(d), Token(e)) {
      var o: nat :| OccursAt(Token(d), Token(e), o);
      CharAt(Token(d), Token(e), o, 2);
      if o > 0 {
        OnlyOneO(d, o + 2);
        assert false;
      }
      assert Token(d)[0..] == Token(d) + "";
      TokenPrefixFree(e, d, "");
      assert false;
    }
  }

  lemma OthersAbsent(ps: seq<string>, counter: nat, j: nat, k: nat)
    requires j < |ps| && k < |ps| && HandedOut(ps[j], counter) && HandedOut(ps[k], counter) && ps[j] != ps[k]
    ensures !Contains(ps[j], ps[k])
  {
    hide Contains, Token, IsDigits;
    HandedOutIsToken(ps[j], counter);
    HandedOutIsToken(ps[k], counter);
    var d: string :| IsDigits(d) && ps[j] == Token(d);
    var e: string :| IsDigits(e) && ps[k] == Token(e);
    TokenInOther(d, e);
  }

  lemma NoWordInBlank(c: string, word: string)
    requires IsBlank(c) && IsWord(word)
    ensures !Contains(c, word)
  {
    if Contains(c, word) {
      var o: nat :| OccursAt(c, word, o);
      CharAt(c, word, o, 0);
      assert false;
    }
  }

  lemma ReplaceItself(t: string, c: string)
    requires t != ""
    ensures ReplaceAll(t, t, c) == c
  {
    assert t[|t|..] == "";
  }

  /** A placeholder for white space alone: nothing else is left of it. */
  lemma TokenVanishes(core: string, snap: Snapshot, j: nat)
    requires snap == MaskText(core).snap && Numbered(snap) && "" !in snap.placeholders
    requires j < |snap.placeholders| && IsBlank(Original(snap.mapping, snap.placeholders[j]))
    ensures IsBlank(Unmask(snap.placeholders[j], snap.placeholders, snap.mapping))
  {
    hide MaskText, IsBlank, Unmask, Contains, IsWord, Original, HandedOut, ReplaceAll;
    var ps, mapping := snap.placeholders, snap.mapping;
    var t, c := ps[j], Original(mapping, ps[j]);
    PlaceholdersAreWords(core);
    UnmaskAround(t, ps, mapping, j);
    forall k | 0 <= k < j
      ensures !Contains(t, ps[..j][k])
    {
      OthersAbsent(ps, snap.counter, j, k);
    }
    UnmaskAbsent(t, ps[..j], mapping);
    ReplaceItself(t, c);
    var later := ps[j + 1..];
    forall k | 0 <= k < |later|
      ensures !Contains(c, later[k])
    {
      NoWordInBlank(c, ps[j + 1 + k]);
    }
    UnmaskAbsent(c, later, mapping);
  }

  /** When all masked parts are white space, a reply of the placeholders alone is accepted
      and makes the translation blank. */
  lemma BlankPartsCanBeBlank(core: string) returns (reply: string)
    requires MaskText(core).snap.placeholders != []
    requires forall j :: 0 <= j < |MaskText(core).snap.placeholders| ==> IsBlank(Part(core, j))
    ensures AttemptResult(core, Success(reply)).Success? && IsBlank(AttemptResult(core, Success(reply)).value)
  {
    hide MaskText, IsBlank, AttemptResult, Unmask, Contains;
    var snap := MaskText(core).snap;
    PlaceholdersNotEmpty(core);
    MaskNumbered(core);
    forall j | 0 <= j < |snap.placeholders|
      ensures Contains(snap.placeholders[j], snap.placeholders[j])
      ensures IsBlank(Unmask(snap.placeholders[j], snap.placeholders, snap.mapping))
    {
      ContainsItself(snap.placeholders[j]);
      assert IsBlank(Part(core, j));
      TokenVanishes(core, snap, j);
    }
    reply := ReplyOf(core, snap.placeholders);
  }

  ghost predicate NeverBlank(core: string) {
    forall reply: Reply :: AttemptResult(core, reply).Success? ==> !IsBlank(AttemptResult(core, reply).value)
  }

  /** For these cores the condition is exact: no reply whatever makes the translation blank
      exactly when nothing is masked or some masked part is firm. */
  lemma NeverBlankExactly(core: string)
    requires FewPlaceholders(core) && PartsAreDecided(core)
    ensures NeverBlank(core) <==> SafeCore(core)
  {
    hide MaskText, AttemptResult, HasFirmPart, CanVanish, IsBlank, FewPlaceholders;
    if SafeCore(core) {
      forall reply: Reply | AttemptResult(core, reply).Success?
        ensures !IsBlank(AttemptResult(core, reply).value)
      {
        SafeCoreIsNeverBlank(core, reply);
      }
    } else {
      var reply := VanishingReply(core);
      assert !NeverBlank(core);
    }
  }

  // ---------------------------------------------------------------- which parts are firm

  /** A character that is not white space and is in no token. */
  predicate IsSolid(c: char) {
    !IsSpace(c) && c !in OPEN && !IsDigit(c)
  }

  predicate HasSolid(s: string) {
    exists i :: 0 <= i < |s| && IsSolid(s[i])
  }

  lemma SolidIsApart(x: char, d: string)
    requires IsSolid(x) && IsDigits(d)
    ensures Apart([x], Token(d))
  {
    var t := Token(d);
    forall o | -|t| < o < 1
      ensures ClashAt([x], t, o)
    {
      var k := 0 - o;
      assert t[k] == (if k < |OPEN| then OPEN[k] else if k < |OPEN| + |d| then d[k - |OPEN|] else '_');
      assert '_' in OPEN;
      assert [x][0] != t[0 - o];
    }
  }

  lemma ContainsChar(s: string, i: nat)
    requires i < |s|
    ensures Contains(s, [s[i]])
  {
    assert s[i..] == [s[i]] + s[i + 1..];
    assert OccursAt(s, [s[i]], i);
  }

  /** A part with a solid character is firm, wherever it comes. */
  lemma SolidIsFirm(core: string, j: nat)
    requires j < |MaskText(core).snap.placeholders| && HasSolid(Part(core, j))
    ensures HasFirmPart(core, j)
  {
    hide MaskText, Apart, Contains, Token, HandedOut;
    var part, ps := Part(core, j), MaskText(core).snap.placeholders;
    var i :| 0 <= i < |part| && IsSolid(part[i]);
    var later := ps[j + 1..];
    MaskNumbered(core);
    forall k | 0 <= k < |later|
      ensures Apart([part[i]], later[k])
    {
      HandedOutIsToken(ps[j + 1 + k], MaskText(core).snap.counter);
      var d: string :| IsDigits(d) && later[k] == Token(d);
      SolidIsApart(part[i], d);
    }
    ContainsChar(part, i);
    assert !IsBlank([part[i]]) by {
      assert !IsSpace([part[i]][0]);
    }
    assert IsFirmPiece([part[i]], later);
  }

  /** The last masked part is firm exactly when it is not white space. */
  lemma LastPartIsFirmExactly(core: string, j: nat)
    requires j + 1 == |MaskText(core).snap.placeholders|
    ensures HasFirmPart(core, j) <==> !IsBlank(Part(core, j))
  {
    hide MaskText, Apart, Contains, IsBlank;
    var part, later := Part(core, j), MaskText(core).snap.placeholders[j + 1..];
    assert later == [];
    if HasFirmPart(core, j) {
      var w: string :| Contains(part, w) && IsFirmPiece(w, later);
      ContainsNotBlank(part, w);
    }
    if !IsBlank(part) {
      ContainsItself(part);
      assert IsFirmPiece(part, later);
    }
  }

  /** A part without underscores is firm, or white space, or part of a later placeholder. */
  lemma PlainPartIsDecided(core: string, j: nat)
    requires j < |MaskText(core).snap.placeholders| && '_' !in Part(core, j)
    ensures var snap := MaskText(core).snap;
            HasFirmPart(core, j) || CanVanish(snap.placeholders, snap.mapping, j)
  {
    hide MaskText, Apart, Contains, IsBlank, HandedOut, Token;
    var snap := MaskText(core).snap;
    var part, later := Part(core, j), snap.placeholders[j + 1..];
    MaskNumbered(core);
    if !IsBlank(part) && forall k :: j < k < |snap.placeholders| ==> !Contains(snap.placeholders[k], part) {
      forall k | 0 <= k < |later|
        ensures Apart(part, later[k])
      {
        HandedOutIsToken(snap.placeholders[j + 1 + k], snap.counter);
        var d: string :| IsDigits(d) && later[k] == Token(d);
        EmptyIsBlank(part);
        PartOrApart(part, d);
      }
      ContainsItself(part);
      assert IsFirmPiece(part, later);
    }
  }

  lemma EmptyIsBlank(s: string)
    ensures s == "" ==> IsBlank(s)
  {
  }

  /** The exact condition covers every core in which no masked part before the last holds an
      underscore. */
  lemma PlainPartsAreDecided(core: string)
    requires forall j :: 0 <= j < |MaskText(core).snap.placeholders| - 1 ==> '_' !in Part(core, j)
    ensures PartsAreDecided(core)
  {
    hide MaskText, HasFirmPart, CanVanish;
    var snap := MaskText(core).snap;
    forall j | 0 <= j < |snap.placeholders|
      ensures HasFirmPart(core, j) || CanVanish(snap.placeholders, snap.mapping, j)
    {
      if j + 1 < |snap.placeholders| {
        PlainPartIsDecided(core, j);
      } else if IsBlank(Part(core, j)) {
        LastVanishes(core, j);
      } else {
        LastPartIsFirmExactly(core, j);
      }
    }
  }

  lemma LastVanishes(core: string, j: nat)
    requires j < |MaskText(core).snap.placeholders| && IsBlank(Part(core, j))
    ensures var snap := MaskText(core).snap; CanVanish(snap.placeholders, snap.mapping, j)
  {
    hide MaskText, IsBlank;
  }

  lemma NoPieceIsApart(t: string, part: string, w: string)
    requires Contains(t, part) && Contains(part, w) && w != ""
    ensures !Apart(w, t)
  {
    ContainsInPart(t, part, w);
    var q: nat :| OccursAt(t, w, q);
    CharAt(t, w, q, 0);
    if ClashAt(w, t, 0 - q) {
      var i: nat :| i < |w| && 0 <= i + q < |t| && w[i] != t[i + q];
      CharAt(t, w, q, i);
      assert false;
    }
    assert -|t| < 0 - q < |w|;
  }

  /** No part is both firm and able to vanish. */
  lemma VanishingIsNotFirm(core: string, j: nat)
    requires var snap := MaskText(core).snap; j < |snap.placeholders| && CanVanish(snap.placeholders, snap.mapping, j)
    ensures !HasFirmPart(core, j)
  {
    hide MaskText, Apart, Contains, IsBlank;
    var ps, part := MaskText(core).snap.placeholders, Part(core, j);
    if HasFirmPart(core, j) {
      var w: string :| Contains(part, w) && IsFirmPiece(w, ps[j + 1..]);
      EmptyIsBlank(w);
      if IsBlank(part) {
        ContainsNotBlank(part, w);
      } else {
        var k :| j < k < |ps| && Contains(ps[k], part);
        assert ps[j + 1..][k - j - 1] == ps[k];
        NoPieceIsApart(ps[k], part, w);
      }
      assert false;
    }
  }

  /** With one placeholder only white space in its place can make the translation blank. */
  lemma SinglePartExactly(core: string)
    requires FewPlaceholders(core) && |MaskText(core).snap.placeholders| == 1
    ensures NeverBlank(core) <==> !IsBlank(Part(core, 0))
  {
    hide MaskText, FewPlaceholders, NeverBlank, HasFirmPart, IsBlank, CanVanish;
    PlainPartsAreDecided(core);
    NeverBlankExactly(core);
    LastPartIsFirmExactly(core, 0);
  }

  // ---------------------------------------------------------------- code spans and angle links

  lemma MatchIsSolid(p: Pattern, s: string, i: nat)
    requires i < |s| && MatchAt(p, s, i).Some? && !p.LinkUrl?
    ensures var m := MatchAt(p, s, i).value; HasSolid(s[m.maskStart..m.maskEnd])
  {
    var m := MatchAt(p, s, i).value;
    assert s[m.maskStart..m.maskEnd][0] == s[i];
    assert s[i] == '`' || s[i] == '<';
    assert IsSolid(s[m.maskStart..m.maskEnd][0]);
  }

  lemma PassKeepsParts(p: Pattern, m: Masked)
    requires m.snap.mapping.Keys <= m.snap.used
    ensures MaskedAll(m.text, FindAll(p, m.text, 0), m.snap, MaskPass(p, m).snap)
  {
    EveryMatchMasked(m.text, 0, FindAll(p, m.text, 0), m.snap);
  }

  /** What a placeholder stands for does not change in a later pass. */
  lemma PartStays(p: Pattern, m: Masked, j: nat)
    requires m.snap.mapping.Keys <= m.snap.used && j < |m.snap.placeholders| && m.snap.placeholders[j] in m.snap.mapping
    ensures var after := MaskPass(p, m).snap;
            && j < |after.placeholders| && after.placeholders[j] == m.snap.placeholders[j]
            && after.placeholders[j] in after.mapping
               && after.mapping[after.placeholders[j]] == m.snap.mapping[m.snap.placeholders[j]]
            && after.mapping.Keys <= after.used
  {
    PassKeepsParts(p, m);
    hide MaskPass;
    var after := MaskPass(p, m).snap;
    assert after.placeholders[..|m.snap.placeholders|][j] == after.placeholders[j];
  }

  lemma PassFindsSolid(p: Pattern, m: Masked)
    requires m.snap.mapping.Keys <= m.snap.used && !p.LinkUrl? && FindAll(p, m.text, 0) != []
    ensures var after := MaskPass(p, m).snap; var j := |m.snap.placeholders|;
            && j < |after.placeholders| && after.placeholders[j] in after.mapping
               && HasSolid(after.mapping[after.placeholders[j]])
            && after.mapping.Keys <= after.used
  {
    var ms := FindAll(p, m.text, 0);
    PassKeepsParts(p, m);
    FindAllMissesNothing(p, m.text, 0, ms);
    hide MaskPass, MatchAt, HasSolid;
    var after := MaskPass(p, m).snap;
    assert StandsFor(m.text, ms[0], m.snap, after, |m.snap.placeholders| + 0);
    MatchIsSolid(p, m.text, ms[0].start);
  }

  /** Every core with a code span or an angle link is safe: only link targets can be blank. */
  lemma CodeOrAngleIsSafe(core: string)
    requires FindAll(InlineCode, core, 0) != []
             || FindAll(AngleLink, MaskPass(InlineCode, Unmasked(core)).text, 0) != []
    ensures SafeCore(core)
  {
    hide MaskPass, HasSolid, FindAll;
    var m0 := Unmasked(core);
    var m1 := MaskPass(InlineCode, m0);
    var m2 := MaskPass(AngleLink, m1);
    var j := 0;
    PassKeepsParts(InlineCode, m0);
    if FindAll(InlineCode, core, 0) != [] {
      PassFindsSolid(InlineCode, m0);
      PartStays(AngleLink, m1, 0);
    } else {
      j := |m1.snap.placeholders|;
      PassFindsSolid(AngleLink, m1);
    }
    PartStays(LinkUrl, m2, j);
    SolidIsFirm(core, j);
  }

  // ---------------------------------------------------------------- a blank translation

  const BLANK_LINK := "[]( )"

  lemma BlankLinkMatches()
    ensures FindAll(LinkUrl, BLANK_LINK, 0) == [Match(0, 3, 4, 5)]
  {
    FirstAtIs(BLANK_LINK, ']', 1, 1);
    FirstAtIs(BLANK_LINK, ')', 3, 4);
    FindAllStep(LinkUrl, BLANK_LINK, 0, Some(Match(0, 3, 4, 5)));
  }

  lemma OpenHoldsO(s: string, i: nat)
    requires OccursAt(s, OPEN, i)
    ensures 'O' in s
  {
    assert s[i..][2] == OPEN[2] == 'O';
    assert s[i + 2] == 'O';
  }

  lemma PlainText(s: string)
    requires 'O' !in s
    ensures Unmasked(s).snap == Snapshot(900000, {}, [], map[])
  {
    forall i: nat
      ensures !OccursAt(s, OPEN, i)
    {
      if OccursAt(s, OPEN, i) {
        OpenHoldsO(s, i);
        assert false;
      }
    }
    ParsePlain(s);
  }

  lemma FirstRegistered(part: string)
    ensures Register(Snapshot(900000, {}, [], map[]), part) == Snapshot(900001, {TOKEN}, [TOKEN], map[TOKEN := part])
  {
    FirstToken();
    hide TokenOf;
    assert NextNumber({}, 900000) == 900000;
  }

  /** Masking a text without code spans and angle links masks its links. */
  lemma LinksOnly(text: string)
    requires '`' !in text && '<' !in text
    ensures MaskText(text) == MaskFrom(text, 0, FindAll(LinkUrl, text, 0), Unmasked(text).snap)
  {
    var m0 := Unmasked(text);
    NothingToMask(InlineCode, m0);
    NothingToMask(AngleLink, m0);
  }

  lemma BlankLinkMasked()
    ensures MaskText(BLANK_LINK).snap == Snapshot(900001, {TOKEN}, [TOKEN], map[TOKEN := " "])
  {
    hide Unmasked, FindAll, MaskText, Register;
    var m := Match(0, 3, 4, 5);
    LinksOnly(BLANK_LINK);
    PlainText(BLANK_LINK);
    BlankLinkMatches();
    MaskFromStep(BLANK_LINK, 0, [m], Unmasked(BLANK_LINK).snap);
    assert [m][1..] == [] && BLANK_LINK[3..4] == " ";
    FirstRegistered(" ");
  }

  lemma BlankLinkUnmasked()
    ensures Unmask(TOKEN, [TOKEN], map[TOKEN := " "]) == " "
  {
    UnmaskOne(TOKEN, TOKEN, map[TOKEN := " "]);
    assert TOKEN[|TOKEN|..] == "" && ReplaceAll("", TOKEN, " ") == "";
  }

  lemma AttemptIs(core: string, snap: Snapshot, reply: string, out: string)
    requires MaskText(core).snap == snap && HasEdges(reply) && "" !in snap.placeholders
    requires Accepts(reply, snap.placeholders) && Unmask(reply, snap.placeholders, snap.mapping) == out
    ensures AttemptResult(core, Success(reply)) == Success(out)
  {
    hide MaskText, Unmask, Accepts;
    assert TrimSpace(reply) == reply;
  }

  /** The failing input: an empty link to a blank, and a reply of the placeholder alone. */
  lemma BlankLinkBecomesBlank()
    ensures AttemptResult(BLANK_LINK, Success(TOKEN)) == Success(" ")
    ensures FewPlaceholders(BLANK_LINK) && PartsAreDecided(BLANK_LINK) && !SafeCore(BLANK_LINK)
  {
    BlankLinkMasked();
    BlankLinkUnmasked();
    hide MaskText, Unmask, AttemptResult;
    assert TOKEN[0..] == TOKEN && HasEdges(TOKEN);
    AcceptsOne(TOKEN, TOKEN, 0);
    AttemptIs(BLANK_LINK, Snapshot(900001, {TOKEN}, [TOKEN], map[TOKEN := " "]), TOKEN, " ");
    assert IsBlank(" ") && Part(BLANK_LINK, 0) == " ";
    LastPartIsFirmExactly(BLANK_LINK, 0);
  }

  // ---------------------------------------------------------------- a part of underscores

  const TOKEN_LINK := "[](__)[]( )"
  const TOKEN1 := "__OC_I18N_900001__"
  const SHARED := "__OC_I18N_900000__OC_I18N_900001__"

  lemma TokenLinkMatches()
    ensures FindAll(LinkUrl, TOKEN_LINK, 0) == [Match(0, 3, 5, 6), Match(6, 9, 10, 11)]
  {
    FirstAtIs(TOKEN_LINK, ']', 1, 1);
    FirstAtIs(TOKEN_LINK, ')', 3, 5);
    FirstAtIs(TOKEN_LINK, ']', 7, 7);
    FirstAtIs(TOKEN_LINK, ')', 9, 10);
    FindAllStep(LinkUrl, TOKEN_LINK, 0, Some(Match(0, 3, 5, 6)));
    FindAllStep(LinkUrl, TOKEN_LINK, 6, Some(Match(6, 9, 10, 11)));
  }

  lemma SecondToken()
    ensures TokenOf(900001) == TOKEN1 != TOKEN
  {
    assert Itoa(900001) == "900001";
    hide Itoa;
    assert TOKEN1[15] != TOKEN[15];
  }

  lemma SecondRegistered(first: string, part: string)
    ensures Register(Snapshot(900001, {TOKEN}, [TOKEN], map[TOKEN := first]), part)
         == Snapshot(900002, {TOKEN, TOKEN1}, [TOKEN, TOKEN1], map[TOKEN := first, TOKEN1 := part])
  {
    SecondToken();
    hide TokenOf;
    assert NextNumber({TOKEN}, 900001) == 900001;
  }

  lemma TokenLinkMasked()
    ensures MaskText(TOKEN_LINK).snap
            == Snapshot(900002, {TOKEN, TOKEN1}, [TOKEN, TOKEN1], map[TOKEN := "__", TOKEN1 := " "])
  {
    hide Unmasked, FindAll, MaskText, Register;
    var m, n := Match(0, 3, 5, 6), Match(6, 9, 10, 11);
    LinksOnly(TOKEN_LINK);
    PlainText(TOKEN_LINK);
    TokenLinkMatches();
    MaskFromStep(TOKEN_LINK, 0, [m, n], Unmasked(TOKEN_LINK).snap);
    assert [m, n][1..] == [n] && [n][1..] == [];
    assert TOKEN_LINK[3..5] == "__" && TOKEN_LINK[9..10] == " ";
    FirstRegistered("__");
    SecondRegistered("__", " ");
    MaskFromStep(TOKEN_LINK, 5, [n], Register(Unmasked(TOKEN_LINK).snap, "__"));
  }

  /** A token, and another one that shares its last underscores. */
  lemma SharedUnmasked(t0: string, t1: string, rest: string, mapping: map<string, string>)
    requires t0 != "" && t1 == "__" + rest && |rest| < |t0|
    requires Original(mapping, t0) == "__" && Original(mapping, t1) == " "
    ensures Unmask(t0 + rest, [t0, t1], mapping) == " "
  {
    hide ReplaceAll, Original;
    assert (t0 + rest)[0..] == t0 + rest && "" + (t0 + rest) == t0 + rest;
    IndexIs(t0 + rest, t0, 0);
    ReplaceBetween("", t0, rest, "__");
    ReplaceAbsent(rest, t0, "__");
    assert "" + ("__" + rest) == t1;
    assert [t0, t1][1..] == [t1];
    UnmaskOne(t1, t1, mapping);
    assert t1[0..] == t1 && "" + (t1 + "") == t1;
    IndexIs(t1, t1, 0);
    ReplaceBetween("", t1, "", " ");
    ReplaceAbsent("", t1, " ");
    assert "" + (" " + "") == " ";
  }

  lemma SharedAccepted(t0: string, t1: string, rest: string)
    requires |t0| >= 2 && t0[|t0| - 2..] == "__" && t1 == "__" + rest
    ensures Accepts(t0 + rest, [t0, t1])
  {
    assert (t0 + rest)[0..] == t0 + rest && (t0 + rest)[|t0| - 2..] == t1;
    assert OccursAt(t0 + rest, t0, 0) && OccursAt(t0 + rest, t1, |t0| - 2);
  }

  lemma SharedAttempt(core: string, t0: string, t1: string, rest: string, snap: Snapshot)
    requires MaskText(core).snap == snap && snap.placeholders == [t0, t1]
    requires Original(snap.mapping, t0) == "__" && Original(snap.mapping, t1) == " "
    requires t1 == "__" + rest && |rest| < |t0| && |t0| >= 2 && t0[|t0| - 2..] == "__" && HasEdges(t0 + rest)
    ensures AttemptResult(core, Success(t0 + rest)) == Success(" ")
  {
    hide MaskText, Unmask, Accepts, AttemptResult, HasEdges, Original;
    SharedUnmasked(t0, t1, rest, snap.mapping);
    SharedAccepted(t0, t1, rest);
    AttemptIs(core, snap, t0 + rest, " ");
  }

  lemma SharedShape()
    ensures SHARED == TOKEN + "OC_I18N_900001__" && TOKEN1 == "__" + "OC_I18N_900001__" && TOKEN[|TOKEN| - 2..] == "__"
    ensures HasEdges(SHARED) && TOKEN != TOKEN1
  {
    assert TOKEN1[15] != TOKEN[15];
  }

  /** A part need not be white space to vanish: a reply in which two placeholders share their
      underscores turns this one into half of the next placeholder. */
  lemma TokenPartCanBecomeBlank()
    ensures var snap := MaskText(TOKEN_LINK).snap;
            && |snap.placeholders| == 2 && Original(snap.mapping, snap.placeholders[0]) == "__"
            && !IsBlank("__") && Contains(snap.placeholders[1], "__")
    ensures !SafeCore(TOKEN_LINK)
    ensures AttemptResult(TOKEN_LINK, Success(SHARED)) == Success(" ")
  {
    TokenLinkMasked();
    SharedShape();
    hide MaskText, AttemptResult, HasEdges;
    SharedAttempt(TOKEN_LINK, TOKEN, TOKEN1, "OC_I18N_900001__", MaskText(TOKEN_LINK).snap);
    assert "__"[0] == '_';
    assert TOKEN1[0..] == TOKEN1 && OccursAt(TOKEN1, "__", 0);
    assert Part(TOKEN_LINK, 0) == "__" && Part(TOKEN_LINK, 1) == " ";
    VanishingIsNotFirm(TOKEN_LINK, 0);
    VanishingIsNotFirm(TOKEN_LINK, 1);
  }
}
