/** Masking code spans, angle links and link targets with placeholder tokens before a
    text is sent to the model, checking the reply, and putting the originals back. */
module Masking {
  import opened Wrappers
  import opened Text
  import opened Decimal
  import opened Placeholders
  import opened TokenText

  // ---------------------------------------------------------------- the three patterns

  datatype Pattern = InlineCode | AngleLink | LinkUrl

  /** A match and the part of it that is masked. */
  datatype Match = Match(start: nat, maskStart: nat, maskEnd: nat, end: nat)

  function FirstAt(s: string, c: char, i: nat): (j: nat)
    requires i <= |s|
    ensures i <= j <= |s| && (j < |s| ==> s[j] == c)
    ensures forall k :: i <= k < j ==> s[k] != c
    decreases |s| - i
  {
    if i == |s| || s[i] == c then i else FirstAt(s, c, i + 1)
  }

  /** How much of an opening angle link stands at position i. */
  function AngleOpen(s: string, i: nat): (n: nat)
    requires i <= |s|
    ensures i + n <= |s| && (n > 0 ==> s[i] == '<')
  {
    if "<http://" <= s[i..] then 8 else if "<https://" <= s[i..] then 9 else 0
  }

  predicate IsTokenChar(c: char) {
    c == '_' || 'A' <= c <= 'Z' || '0' <= c <= '9'
  }

  /** A place that cannot be inside a token. */
  predicate Separated(s: string, p: nat)
    requires p <= |s|
  {
    p == 0 || p == |s| || !IsTokenChar(s[p - 1]) || !IsTokenChar(s[p])
  }

  /** The match of a pattern that begins exactly at position i. */
  function MatchAt(p: Pattern, s: string, i: nat): (r: Option<Match>)
    requires i < |s|
    ensures r.Some? ==> i == r.value.start <= r.value.maskStart < r.value.maskEnd <= r.value.end <= |s|
    ensures r.Some? ==> Separated(s, r.value.maskStart) && Separated(s, r.value.maskEnd)
  {
    hide AngleOpen, FirstAt;
    match p
    case InlineCode =>
      if s[i] != '`' then None
      else
        var j := FirstAt(s, '`', i + 1);
        if j < |s| && j > i + 1 then Some(Match(i, i, j + 1, j + 1)) else None
    case AngleLink =>
      var n := AngleOpen(s, i);
      if n == 0 then None
      else
        var j := FirstAt(s, '>', i + n);
        if j < |s| && j > i + n then Some(Match(i, i, j + 1, j + 1)) else None
    case LinkUrl =>
      if s[i] != '[' then None
      else
        var j := FirstAt(s, ']', i + 1);
        if j + 1 < |s| && s[j + 1] == '(' then
          var k := FirstAt(s, ')', j + 2);
          if k < |s| && k > j + 2 then Some(Match(i, j + 2, k, k + 1)) else None
        else None
  }

  /** The matches follow one another from pos on, and no mask cuts a token. */
  ghost predicate GoodMatches(s: string, ms: seq<Match>, pos: nat) {
    ms == [] ||
    (var m := ms[0];
     pos <= m.start <= m.maskStart < m.maskEnd <= m.end <= |s|
     && Separated(s, m.maskStart) && Separated(s, m.maskEnd)
     && GoodMatches(s, ms[1..], m.end))
  }

  lemma GoodEarlier(s: string, ms: seq<Match>, pos: nat, pos': nat)
    requires GoodMatches(s, ms, pos) && pos' <= pos
    ensures GoodMatches(s, ms, pos')
  {
  }

  /** All matches from position i on, the leftmost first, none overlapping an earlier one. */
  function FindAll(p: Pattern, s: string, i: nat): (ms: seq<Match>)
    requires i <= |s|
    ensures GoodMatches(s, ms, i)
    decreases |s| - i
  {
    hide MatchAt, Separated;
    if i == |s| then []
    else
      var m := MatchAt(p, s, i);
      if m.Some? then [m.value] + FindAll(p, s, m.value.end)
      else
        GoodEarlier(s, FindAll(p, s, i + 1), i + 1, i);
        FindAll(p, s, i + 1)
  }

  // ---------------------------------------------------------------- masking

  /** The counter and the used tokens, the placeholders in creation order, and what each stands for. */
  datatype Snapshot = Snapshot(counter: nat, used: set<string>, placeholders: seq<string>, mapping: map<string, string>)

  function FreshToken(snap: Snapshot): string {
    TokenOf(NextNumber(snap.used, snap.counter))
  }

  function Register(snap: Snapshot, original: string): Snapshot {
    var n := NextNumber(snap.used, snap.counter);
    Snapshot(n + 1, snap.used + {TokenOf(n)}, snap.placeholders + [TokenOf(n)], snap.mapping[TokenOf(n) := original])
  }

  datatype Masked = Masked(text: string, snap: Snapshot)

  /** The text from pos on with the given matches masked. */
  function MaskFrom(s: string, pos: nat, ms: seq<Match>, snap: Snapshot): Masked
    requires pos <= |s| && GoodMatches(s, ms, pos)
    decreases |ms|
  {
    if ms == [] then Masked(s[pos..], snap)
    else
      var m := ms[0];
      GoodEarlier(s, ms[1..], m.end, m.maskEnd);
      var rest := MaskFrom(s, m.maskEnd, ms[1..], Register(snap, s[m.maskStart..m.maskEnd]));
      Masked(s[pos..m.maskStart] + FreshToken(snap) + rest.text, rest.snap)
  }

  function MaskPass(p: Pattern, before: Masked): Masked {
    MaskFrom(before.text, 0, FindAll(p, before.text, 0), before.snap)
  }

  function Unmasked(text: string): Masked {
    Masked(text, Snapshot(FIRST_NUMBER, Hits(Parse(text)), [], map[]))
  }

  /** Code spans first, then angle links, then link targets. */
  function MaskText(text: string): Masked {
    MaskPass(LinkUrl, MaskPass(AngleLink, MaskPass(InlineCode, Unmasked(text))))
  }

  /** The placeholder list and the mapping that the passes fill. */
  class MaskTable {
    var placeholders: seq<string>
    var mapping: map<string, string>

    constructor ()
      ensures placeholders == [] && mapping == map[]
    {
      placeholders, mapping := [], map[];
    }
  }

  ghost function Snap(state: PlaceholderState, table: MaskTable): Snapshot
    reads state, table
  {
    Snapshot(state.counter, state.used, table.placeholders, table.mapping)
  }

  lemma MaskFromStep(s: string, pos: nat, ms: seq<Match>, snap: Snapshot)
    requires pos <= |s| && GoodMatches(s, ms, pos) && ms != []
    ensures var m := ms[0];
            && pos <= m.start <= m.maskStart < m.maskEnd <= |s| && GoodMatches(s, ms[1..], m.maskEnd)
            && var rest := MaskFrom(s, m.maskEnd, ms[1..], Register(snap, s[m.maskStart..m.maskEnd]));
               MaskFrom(s, pos, ms, snap) == Masked(s[pos..m.maskStart] + FreshToken(snap) + rest.text, rest.snap)
  {
    GoodEarlier(s, ms[1..], ms[0].end, ms[0].maskEnd);
  }

  /** What is written so far, followed by what the rest will come to, is the whole. */
  predicate Completes(out: string, rest: Masked, full: Masked) {
    out + rest.text == full.text && rest.snap == full.snap
  }

  lemma CompletesAtFirst(p: Pattern, text: string, snap: Snapshot)
    ensures Completes("", MaskFrom(text, 0, FindAll(p, text, 0), snap), MaskPass(p, Masked(text, snap)))
  {
  }

  lemma CompletesStep(out: string, gap: string, token: string, rest: Masked, full: Masked)
    requires Completes(out, Masked(gap + token + rest.text, rest.snap), full)
    ensures Completes(out + gap + token, rest, full)
  {
    assert out + (gap + token + rest.text) == out + gap + token + rest.text;
  }

  /** One pass. The two original loops differ only in which part of a match they mask. */
  method MaskMatches(p: Pattern, text: string, state: PlaceholderState, table: MaskTable) returns (masked: string)
    modifies state, table
    ensures Masked(masked, Snap(state, table)) == MaskPass(p, Masked(text, old(Snap(state, table))))
  {
    hide TokenOf, NextNumber, FindAll, GoodMatches, MaskFrom, MaskPass, Completes;
    var matches := FindAll(p, text, 0);
    ghost var full := MaskPass(p, Masked(text, Snap(state, table)));
    var out, pos: nat := "", 0;
    CompletesAtFirst(p, text, Snap(state, table));
    assert matches[0..] == matches;
    for k := 0 to |matches|
      invariant pos <= |text| && GoodMatches(text, matches[k..], pos)
      invariant Completes(out, MaskFrom(text, pos, matches[k..], Snap(state, table)), full)
    {
      var m := matches[k];
      assert matches[k..][0] == m && matches[k..][1..] == matches[k + 1..];
      ghost var before := Snap(state, table);
      MaskFromStep(text, pos, matches[k..], before);
      if m.start < pos {
        continue;
      }
      ghost var rest := MaskFrom(text, m.maskEnd, matches[k + 1..], Register(before, text[m.maskStart..m.maskEnd]));
      CompletesStep(out, text[pos..m.maskStart], FreshToken(before), rest, full);
      out := out + text[pos..m.maskStart];
      var placeholder := state.Next();
      table.mapping := table.mapping[placeholder := text[m.maskStart..m.maskEnd]];
      table.placeholders := table.placeholders + [placeholder];
      out := out + placeholder;
      pos := m.maskEnd;
      assert Snap(state, table) == Register(before, text[m.maskStart..m.maskEnd]);
    }
    masked := out + text[pos..];
    MaskedIs(text, pos, matches[|matches|..], out, Snap(state, table), full);
  }

  lemma MaskedIs(s: string, pos: nat, ms: seq<Match>, out: string, snap: Snapshot, full: Masked)
    requires pos <= |s| && ms == [] && GoodMatches(s, ms, pos) && Completes(out, MaskFrom(s, pos, ms, snap), full)
    ensures Masked(out + s[pos..], snap) == full
  {
  }

  method MaskMarkdown(text: string, state: PlaceholderState, table: MaskTable) returns (masked: string)
    modifies state, table
    ensures Masked(masked, Snap(state, table))
         == MaskPass(LinkUrl, MaskPass(AngleLink, MaskPass(InlineCode, Masked(text, old(Snap(state, table))))))
  {
    masked := MaskMatches(InlineCode, text, state, table);
    masked := MaskMatches(AngleLink, masked, state, table);
    masked := MaskMatches(LinkUrl, masked, state, table);
  }

  // ---------------------------------------------------------------- checking and unmasking

  ghost predicate Accepts(text: string, placeholders: seq<string>) {
    forall i :: 0 <= i < |placeholders| ==> Contains(text, placeholders[i])
  }

  /** The first placeholder that the text lacks, if there is one. */
  function FirstMissing(text: string, placeholders: seq<string>): (r: Option<string>)
    ensures r.None? <==> Accepts(text, placeholders)
    ensures r.Some? ==> r.value in placeholders && !Contains(text, r.value)
  {
    if placeholders == [] then None
    else if Index(text, placeholders[0]).None? then Some(placeholders[0])
    else
      assert forall i :: 1 <= i < |placeholders| ==> placeholders[i] == placeholders[1..][i - 1];
      FirstMissing(text, placeholders[1..])
  }

  /** The text has the placeholders before number k, and lacks that one. */
  ghost predicate IsFirstMissing(text: string, placeholders: seq<string>, k: nat) {
    k < |placeholders| && !Contains(text, placeholders[k]) && Accepts(text, placeholders[..k])
  }

  lemma {:induction false} FirstMissingIs(text: string, placeholders: seq<string>, k: nat)
    requires IsFirstMissing(text, placeholders, k)
    ensures FirstMissing(text, placeholders) == Some(placeholders[k])
  {
    if k > 0 {
      hide Contains;
      assert Contains(text, placeholders[..k][0]);
      var before := placeholders[..k];
      assert before[1..] == placeholders[1..][..k - 1];
      assert forall i :: 0 <= i < |before[1..]| ==> before[1..][i] == before[i + 1];
      FirstMissingIs(text, placeholders[1..], k - 1);
    }
  }

  method ValidatePlaceholders(text: string, placeholders: seq<string>) returns (missing: Option<string>)
    ensures missing == FirstMissing(text, placeholders)
  {
    for k := 0 to |placeholders|
      invariant FirstMissing(text, placeholders) == FirstMissing(text, placeholders[k..])
    {
      assert placeholders[k..][0] == placeholders[k] && placeholders[k..][1..] == placeholders[k + 1..];
      if Index(text, placeholders[k]).None? {
        return Some(placeholders[k]);
      }
    }
    return None;
  }

  function Original(mapping: map<string, string>, placeholder: string): string {
    if placeholder in mapping then mapping[placeholder] else ""
  }

  /** The placeholders replaced one after the other, in creation order. */
  function Unmask(text: string, placeholders: seq<string>, mapping: map<string, string>): string
    requires "" !in placeholders
    decreases |placeholders|
  {
    if placeholders == [] then text
    else
      Unmask(ReplaceAll(text, placeholders[0], Original(mapping, placeholders[0])), placeholders[1..], mapping)
  }

  method UnmaskMarkdown(text: string, placeholders: seq<string>, mapping: map<string, string>) returns (out: string)
    requires "" !in placeholders
    ensures out == Unmask(text, placeholders, mapping)
  {
    out := text;
    for k := 0 to |placeholders|
      invariant "" !in placeholders[k..]
      invariant Unmask(out, placeholders[k..], mapping) == Unmask(text, placeholders, mapping)
    {
      assert placeholders[k..][0] == placeholders[k] && placeholders[k..][1..] == placeholders[k + 1..];
      out := ReplaceAll(out, placeholders[k], Original(mapping, placeholders[k]));
    }
  }

  // ---------------------------------------------------------------- masking as a list of steps

  /** The token with these digits was put in the place of this content. */
  datatype Step = Step(digits: string, content: Doc)

  /** The steps taken back, the last one first. */
  function Undo(steps: seq<Step>, doc: Doc): Doc {
    if steps == [] then doc else Subst(Undo(steps[1..], doc), steps[0].digits, steps[0].content)
  }

  /** The steps' tokens filled in, the first one first, as unmasking does. */
  function FillIn(steps: seq<Step>, doc: Doc): Doc {
    if steps == [] then doc else FillIn(steps[1..], Subst(doc, steps[0].digits, steps[0].content))
  }

  function Count(doc: Doc, d: string): nat {
    multiset(doc)[Tok(d)]
  }

  predicate Avoids(doc: Doc, steps: seq<Step>) {
    forall j :: 0 <= j < |steps| ==> Tok(steps[j].digits) !in doc
  }

  /** Right after its step a token stands in the text exactly once, and no content holds
      the token of its own step or of a later one. */
  ghost predicate Legal(steps: seq<Step>, doc: Doc) {
    steps == [] ||
    (Legal(steps[1..], doc)
     && Count(Undo(steps[1..], doc), steps[0].digits) == 1
     && Avoids(steps[0].content, steps)
     && forall j :: 1 <= j < |steps| ==> steps[j].digits != steps[0].digits)
  }

  /** No content holds the token of an earlier step. */
  predicate Uncaptured(steps: seq<Step>) {
    steps == [] ||
    (Uncaptured(steps[1..]) && forall j :: 1 <= j < |steps| ==> Tok(steps[0].digits) !in steps[j].content)
  }

  predicate StepsWellFormed(steps: seq<Step>) {
    forall j :: 0 <= j < |steps| ==> IsDigits(steps[j].digits) && WellFormed(steps[j].content)
  }

  lemma {:induction false} UndoAppend(a: seq<Step>, b: seq<Step>, doc: Doc)
    ensures Undo(a + b, doc) == Undo(a, Undo(b, doc))
  {
    if a == [] {
      assert a + b == b;
    } else {
      assert (a + b)[1..] == a[1..] + b;
      UndoAppend(a[1..], b, doc);
    }
  }

  lemma {:induction false} LegalAppend(a: seq<Step>, b: seq<Step>, doc: Doc)
    requires Legal(b, doc) && Legal(a, Undo(b, doc))
    requires forall i :: 0 <= i < |a| ==> Avoids(a[i].content, b)
    requires forall i, j :: 0 <= i < |a| && 0 <= j < |b| ==> a[i].digits != b[j].digits
    ensures Legal(a + b, doc)
  {
    hide Undo, Subst, Count;
    if a == [] {
      assert a + b == b;
    } else {
      assert (a + b)[1..] == a[1..] + b;
      LegalAppend(a[1..], b, doc);
      UndoAppend(a[1..], b, doc);
      forall j | 0 <= j < |a + b|
        ensures Tok((a + b)[j].digits) !in a[0].content
      {
        if j >= |a| {
          assert (a + b)[j] == b[j - |a|];
        }
      }
    }
  }

  lemma {:induction false} UndoPrefix(x: Doc, steps: seq<Step>, doc: Doc)
    requires Avoids(x, steps)
    ensures Undo(steps, x + doc) == x + Undo(steps, doc)
  {
    if steps != [] {
      assert Avoids(x, steps[1..]) by {
        assert forall j :: 0 <= j < |steps| - 1 ==> steps[1..][j] == steps[j + 1];
      }
      UndoPrefix(x, steps[1..], doc);
      SubstAppend(x, Undo(steps[1..], doc), steps[0].digits, steps[0].content);
      assert Tok(steps[0].digits) !in x;
      SubstAbsent(x, steps[0].digits, steps[0].content);
    }
  }

  lemma {:induction false} LegalPrefix(x: Doc, steps: seq<Step>, doc: Doc)
    requires Avoids(x, steps) && Legal(steps, doc)
    ensures Legal(steps, x + doc)
  {
    if steps != [] {
      assert Avoids(x, steps[1..]) by {
        assert forall j :: 0 <= j < |steps| - 1 ==> steps[1..][j] == steps[j + 1];
      }
      LegalPrefix(x, steps[1..], doc);
      UndoPrefix(x, steps[1..], doc);
      assert Tok(steps[0].digits) !in x;
      assert multiset(x + Undo(steps[1..], doc)) == multiset(x) + multiset(Undo(steps[1..], doc));
    }
  }

  lemma FillOnce(x: Doc, d: string, y: Doc, c: Doc)
    requires Tok(d) !in x && Tok(d) !in y
    ensures Subst(x + [Tok(d)] + y, d, c) == x + c + y
    ensures Count(x + [Tok(d)] + y, d) == 1
  {
    SubstAppend(x + [Tok(d)], y, d, c);
    SubstAppend(x, [Tok(d)], d, c);
    SubstAbsent(x, d, c);
    SubstAbsent(y, d, c);
    assert Subst([Tok(d)], d, c) == c;
    assert multiset(x + [Tok(d)] + y) == multiset(x) + multiset([Tok(d)]) + multiset(y);
  }

  lemma TokenIsTokenChars(d: string)
    requires IsDigits(d)
    ensures forall i :: 0 <= i < |Token(d)| ==> IsTokenChar(Token(d)[i])
  {
    forall i | 0 <= i < |Token(d)|
      ensures IsTokenChar(Token(d)[i])
    {
      if |OPEN| <= i < |OPEN| + |d| {
        assert Token(d)[i] == d[i - |OPEN|];
      } else if i < |OPEN| {
        assert Token(d)[i] == OPEN[i];
      }
    }
  }

  lemma SeparatedAfter(t: string, rest: string, p: nat)
    requires |t| <= p <= |t| + |rest| && Separated(t + rest, p)
    ensures Separated(rest, p - |t|)
  {
    hide IsTokenChar;
    assert p > |t| ==> (t + rest)[p - 1] == rest[p - |t| - 1];
    assert p < |t + rest| ==> (t + rest)[p] == rest[p - |t|];
  }

  lemma SeparatedInToken(d: string, rest: string, p: nat)
    requires IsDigits(d) && 0 < p <= |Token(d) + rest| && Separated(Token(d) + rest, p)
    ensures p >= |Token(d)|
  {
    TokenIsTokenChars(d);
    hide Token, IsTokenChar;
  }

  /** A separated place is not inside the token that the text starts with. */
  lemma NotInsideFirst(doc: Doc, p: nat)
    requires WellFormed(doc) && doc != [] && 0 < p <= |Render(TOKENS, doc)| && Separated(Render(TOKENS, doc), p)
    ensures p >= |Show(TOKENS, doc[0])| && Separated(Render(TOKENS, doc[1..]), p - |Show(TOKENS, doc[0])|)
  {
    var r, t, rest := Render(TOKENS, doc), Show(TOKENS, doc[0]), Render(TOKENS, doc[1..]);
    assert r == t + rest;
    hide Render, Separated, IsTokenChar;
    if doc[0].Tok? {
      SeparatedInToken(doc[0].name, rest, p);
    }
    SeparatedAfter(t, rest, p);
  }

  /** Cutting a text at a separated place does not cut a token. */
  lemma {:induction false} CutAt(doc: Doc, p: nat) returns (a: nat)
    requires WellFormed(doc) && p <= |Render(TOKENS, doc)| && Separated(Render(TOKENS, doc), p)
    ensures a <= |doc| && |Render(TOKENS, doc[..a])| == p
  {
    hide Separated, Token;
    if p == 0 {
      a := 0;
    } else {
      NotInsideFirst(doc, p);
      a := CutAt(doc[1..], p - |Show(TOKENS, doc[0])|);
      a := a + 1;
      assert doc[..a][1..] == doc[1..][..a - 1];
    }
  }

  ghost predicate HitsIn(doc: Doc, used: set<string>) {
    forall d: string :: Tok(d) in doc ==> Token(d) in used
  }

  /** How the steps of a pass appear in what the pass leaves behind. */
  ghost predicate Recorded(steps: seq<Step>, before: Snapshot, after: Snapshot) {
    && before.used <= after.used
    && after.mapping.Keys <= after.used
    && |after.placeholders| == |before.placeholders| + |steps|
    && after.placeholders[..|before.placeholders|] == before.placeholders
    && (forall j :: 0 <= j < |steps| ==>
          && after.placeholders[|before.placeholders| + j] == Token(steps[j].digits)
          && Token(steps[j].digits) in after.used && Token(steps[j].digits) !in before.used
          && Token(steps[j].digits) in after.mapping
          && after.mapping[Token(steps[j].digits)] == Render(TOKENS, steps[j].content))
    && (forall k :: k in before.mapping && k in before.used ==>
          k in after.mapping && after.mapping[k] == before.mapping[k])
  }

  /** The steps lead from the text doc to the text masked, and r records them. */
  ghost predicate PassResult(doc: Doc, snap: Snapshot, masked: Doc, steps: seq<Step>, r: Masked) {
    && Render(TOKENS, masked) == r.text && WellFormed(masked) && HitsIn(masked, r.snap.used)
    && Recorded(steps, snap, r.snap) && StepsWellFormed(steps)
    && Undo(steps, masked) == doc && Legal(steps, masked)
    && forall j :: 0 <= j < |steps| ==> HitsIn(steps[j].content, r.snap.used)
  }

  lemma PassCons(x: Doc, d: string, c: Doc, y: Doc, snap: Snapshot, masked: Doc, steps: seq<Step>, r: Masked)
    requires IsDigits(d) && WellFormed(x + c + y) && HitsIn(x + c + y, snap.used)
    requires Token(d) !in snap.used && snap.mapping.Keys <= snap.used
    requires PassResult(y, Snapshot(0, snap.used + {Token(d)}, snap.placeholders + [Token(d)],
                                    snap.mapping[Token(d) := Render(TOKENS, c)]), masked, steps, r)
    ensures PassResult(x + c + y, snap, x + [Tok(d)] + masked, [Step(d, c)] + steps,
                       Masked(Render(TOKENS, x) + Token(d) + r.text, r.snap))
  {
    PassConsText(x, d, c, y, snap, masked, steps, r);
    PassConsSteps(x, d, c, y, snap, masked, steps, r);
    hide Undo, Legal, Render, HitsIn, WellFormed, StepsWellFormed;
    RecordedCons(d, c, steps, snap, r.snap);
  }

  lemma PassConsText(x: Doc, d: string, c: Doc, y: Doc, snap: Snapshot, masked: Doc, steps: seq<Step>, r: Masked)
    requires IsDigits(d) && WellFormed(x + c + y) && HitsIn(x + c + y, snap.used)
    requires PassResult(y, Snapshot(0, snap.used + {Token(d)}, snap.placeholders + [Token(d)],
                                    snap.mapping[Token(d) := Render(TOKENS, c)]), masked, steps, r)
    ensures var all := [Step(d, c)] + steps;
            && Render(TOKENS, x + [Tok(d)] + masked) == Render(TOKENS, x) + Token(d) + r.text
            && WellFormed(x + [Tok(d)] + masked) && HitsIn(x + [Tok(d)] + masked, r.snap.used)
            && StepsWellFormed(all) && forall j :: 0 <= j < |all| ==> HitsIn(all[j].content, r.snap.used)
  {
    hide Undo, Legal;
    RenderMasked(x, d, masked);
    hide Render;
    var all := [Step(d, c)] + steps;
    assert forall i :: i in x || i in c || i in y ==> i in x + c + y;
    WellFormedParts(x, c, y);
    WellFormedJoin(x, d, masked);
    assert forall j :: 1 <= j < |all| ==> all[j] == steps[j - 1];
  }

  lemma PassConsSteps(x: Doc, d: string, c: Doc, y: Doc, snap: Snapshot, masked: Doc, steps: seq<Step>, r: Masked)
    requires IsDigits(d) && HitsIn(x + c + y, snap.used) && Token(d) !in snap.used
    requires PassResult(y, Snapshot(0, snap.used + {Token(d)}, snap.placeholders + [Token(d)],
                                    snap.mapping[Token(d) := Render(TOKENS, c)]), masked, steps, r)
    ensures Undo([Step(d, c)] + steps, x + [Tok(d)] + masked) == x + c + y
    ensures Legal([Step(d, c)] + steps, x + [Tok(d)] + masked)
  {
    hide Undo, Legal, Render, WellFormed, StepsWellFormed, Avoids;
    var used' := snap.used + {Token(d)};
    assert forall i :: i in x || i in c || i in y ==> i in x + c + y;
    assert HitsIn(x + [Tok(d)], used') && HitsIn(c, used');
    AvoidsFresh(x + [Tok(d)], steps, used');
    AvoidsFresh(c, steps, used');
    OneStep(x, d, c, y, masked, steps);
  }

  lemma WellFormedParts(x: Doc, c: Doc, y: Doc)
    requires WellFormed(x + c + y)
    ensures WellFormed(x) && WellFormed(c) && WellFormed(y)
  {
    var all := x + c + y;
    assert forall i :: 0 <= i < |x| ==> all[i] == x[i];
    assert forall i :: 0 <= i < |c| ==> all[|x| + i] == c[i];
    assert forall i :: 0 <= i < |y| ==> all[|x| + |c| + i] == y[i];
  }

  lemma WellFormedJoin(x: Doc, d: string, y: Doc)
    requires WellFormed(x) && IsDigits(d) && WellFormed(y)
    ensures WellFormed(x + [Tok(d)] + y)
  {
  }

  /** One pass as a list of steps. */
  lemma {:induction false} PassSteps(s: string, pos: nat, ms: seq<Match>, snap: Snapshot, doc: Doc)
    returns (masked: Doc, steps: seq<Step>)
    requires pos <= |s| && GoodMatches(s, ms, pos)
    requires WellFormed(doc) && Render(TOKENS, doc) == s[pos..] && HitsIn(doc, snap.used)
    requires snap.mapping.Keys <= snap.used
    ensures PassResult(doc, snap, masked, steps, MaskFrom(s, pos, ms, snap))
    decreases |ms|
  {
    if ms == [] {
      masked, steps := doc, [];
    } else {
      var m := ms[0];
      MaskFromStep(s, pos, ms, snap);
      assert Separated(s, m.maskStart) && Separated(s, m.maskEnd);
      hide PassResult, Render, WellFormed, FreshToken, Register, MaskFrom, GoodMatches, HitsIn, Separated;
      var x, rest := CutDoc(s, pos, m.maskStart, doc);
      var c, y := CutDoc(s, m.maskStart, m.maskEnd, rest);
      assert doc == x + c + y;
      var snap' := Register(snap, s[m.maskStart..m.maskEnd]);
      masked, steps := PassSteps(s, m.maskEnd, ms[1..], snap', y);
      masked, steps := PassStep(x, c, y, snap, masked, steps, MaskFrom(s, m.maskEnd, ms[1..], snap'));
    }
  }

  lemma PassStep(x: Doc, c: Doc, y: Doc, snap: Snapshot, masked: Doc, steps: seq<Step>, r: Masked)
    returns (masked': Doc, steps': seq<Step>)
    requires WellFormed(x + c + y) && HitsIn(x + c + y, snap.used) && snap.mapping.Keys <= snap.used
    requires PassResult(y, Register(snap, Render(TOKENS, c)), masked, steps, r)
    ensures PassResult(x + c + y, snap, masked', steps', Masked(Render(TOKENS, x) + FreshToken(snap) + r.text, r.snap))
  {
    var d := Itoa(NextNumber(snap.used, snap.counter));
    SameAfterCounter(y, Register(snap, Render(TOKENS, c)), Register(snap, Render(TOKENS, c)).(counter := 0), masked,
      steps, r);
    PassCons(x, d, c, y, snap, masked, steps, r);
    masked', steps' := x + [Tok(d)] + masked, [Step(d, c)] + steps;
  }

  lemma SameAfterCounter(doc: Doc, snap: Snapshot, snap': Snapshot, masked: Doc, steps: seq<Step>, r: Masked)
    requires PassResult(doc, snap, masked, steps, r) && snap' == snap.(counter := 0)
    ensures PassResult(doc, snap', masked, steps, r)
  {
    hide Undo, Legal, HitsIn, Render, WellFormed, StepsWellFormed;
  }

  lemma SeparatedTail(s: string, pos: nat, p: nat)
    requires pos <= p <= |s| && Separated(s, p)
    ensures Separated(s[pos..], p - pos)
  {
  }

  lemma WellFormedCut(doc: Doc, a: nat)
    requires a <= |doc| && WellFormed(doc)
    ensures WellFormed(doc[..a]) && WellFormed(doc[a..])
  {
  }

  lemma CutDocAt(doc: Doc, n: nat) returns (x: Doc, y: Doc)
    requires WellFormed(doc) && n <= |Render(TOKENS, doc)| && Separated(Render(TOKENS, doc), n)
    ensures doc == x + y && WellFormed(x) && WellFormed(y)
    ensures Render(TOKENS, doc) == Render(TOKENS, x) + Render(TOKENS, y) && |Render(TOKENS, x)| == n
  {
    hide Render, WellFormed, Separated;
    var a := CutAt(doc, n);
    x, y := doc[..a], doc[a..];
    assert WellFormed(x) && WellFormed(y) by {
      WellFormedCut(doc, a);
    }
    assert Render(TOKENS, doc) == Render(TOKENS, x) + Render(TOKENS, y) by {
      RenderCut(TOKENS, doc, a);
    }
  }

  /** A text cut at a separated place of the string it comes from. */
  lemma CutDoc(s: string, pos: nat, p: nat, doc: Doc) returns (x: Doc, y: Doc)
    requires pos <= p <= |s| && Separated(s, p) && WellFormed(doc) && Render(TOKENS, doc) == s[pos..]
    ensures doc == x + y && WellFormed(x) && WellFormed(y)
    ensures Render(TOKENS, x) == s[pos..p] && Render(TOKENS, y) == s[p..]
  {
    hide Render, WellFormed, Separated;
    SeparatedTail(s, pos, p);
    x, y := CutDocAt(doc, p - pos);
    assert s[pos..] == s[pos..p] + s[p..];
    ConcatCut(Render(TOKENS, x), Render(TOKENS, y), s[pos..p], s[p..]);
  }

  lemma ConcatCut(a: string, b: string, c: string, d: string)
    requires a + b == c + d && |a| == |c|
    ensures a == c && b == d
  {
    assert a == (a + b)[..|a|] && b == (a + b)[|a|..];
    assert c == (c + d)[..|c|] && d == (c + d)[|c|..];
  }

  lemma RenderMasked(x: Doc, d: string, y: Doc)
    ensures Render(TOKENS, x + [Tok(d)] + y) == Render(TOKENS, x) + Token(d) + Render(TOKENS, y)
  {
    RenderAppend(TOKENS, x + [Tok(d)], y);
    RenderAppend(TOKENS, x, [Tok(d)]);
    assert Render(TOKENS, [Tok(d)]) == Token(d);
  }

  lemma RecordedCons(d: string, c: Doc, steps: seq<Step>, snap: Snapshot, after: Snapshot)
    requires snap.mapping.Keys <= snap.used
    requires Token(d) !in snap.used
    requires Recorded(steps, Snapshot(0, snap.used + {Token(d)}, snap.placeholders + [Token(d)],
                                      snap.mapping[Token(d) := Render(TOKENS, c)]), after)
    ensures Recorded([Step(d, c)] + steps, snap, after)
  {
    hide Render;
    var all := [Step(d, c)] + steps;
    var mid := snap.placeholders + [Token(d)];
    assert after.placeholders[..|snap.placeholders|] == after.placeholders[..|mid|][..|snap.placeholders|];
    assert after.placeholders[|snap.placeholders|] == after.placeholders[..|mid|][|snap.placeholders|];
    assert forall j :: 1 <= j < |all| ==> all[j] == steps[j - 1];
  }

  lemma AvoidsFresh(doc: Doc, steps: seq<Step>, used: set<string>)
    requires HitsIn(doc, used) && forall j :: 0 <= j < |steps| ==> Token(steps[j].digits) !in used
    ensures Avoids(doc, steps)
  {
  }

  lemma OneStep(x: Doc, d: string, c: Doc, y: Doc, masked: Doc, steps: seq<Step>)
    requires Undo(steps, masked) == y && Legal(steps, masked)
    requires Avoids(x + [Tok(d)], steps) && Avoids(c, steps)
    requires Tok(d) !in x && Tok(d) !in c && Tok(d) !in y
    ensures Undo([Step(d, c)] + steps, x + [Tok(d)] + masked) == x + c + y
    ensures Legal([Step(d, c)] + steps, x + [Tok(d)] + masked)
  {
    var all := [Step(d, c)] + steps;
    assert all[1..] == steps;
    UndoPrefix(x + [Tok(d)], steps, masked);
    LegalPrefix(x + [Tok(d)], steps, masked);
    FillOnce(x, d, y, c);
    forall j | 1 <= j < |all|
      ensures all[j].digits != d
    {
      assert Tok(steps[j - 1].digits) !in x + [Tok(d)];
    }
  }

  // ---------------------------------------------------------------- what the check decides

  /** The tokens of all steps are still in the text. */
  predicate AllPresent(steps: seq<Step>, doc: Doc) {
    forall j :: 0 <= j < |steps| ==> Tok(steps[j].digits) in doc
  }

  function CountInContents(steps: seq<Step>, d: string): nat {
    if steps == [] then 0 else Count(steps[0].content, d) + CountInContents(steps[1..], d)
  }

  /** Taking one step back moves the step's content into the text. */
  lemma CountFilled(doc: Doc, d: string, c: Doc, e: string)
    requires Count(doc, d) == 1 && d != e
    ensures Count(Subst(doc, d, c), e) == Count(doc, e) + Count(c, e)
  {
    var i :| 0 <= i < |doc| && doc[i] == Tok(d);
    var x, y := doc[..i], doc[i + 1..];
    assert doc == x + [Tok(d)] + y;
    assert multiset(doc) == multiset(x) + multiset([Tok(d)]) + multiset(y);
    assert Tok(d) !in multiset(x) && Tok(d) !in multiset(y);
    FillOnce(x, d, y, c);
    assert multiset(x + c + y) == multiset(x) + multiset(c) + multiset(y);
  }

  /** A token is in the final text as often as it was, less what later steps took away. */
  lemma {:induction false} CountUndone(steps: seq<Step>, doc: Doc, e: string)
    requires Legal(steps, doc) && forall j :: 0 <= j < |steps| ==> steps[j].digits != e
    ensures Count(Undo(steps, doc), e) == Count(doc, e) + CountInContents(steps, e)
  {
    if steps != [] {
      CountUndone(steps[1..], doc, e);
      CountFilled(Undo(steps[1..], doc), steps[0].digits, steps[0].content, e);
    }
  }

  lemma {:induction false} NotInContents(steps: seq<Step>, e: string)
    ensures CountInContents(steps, e) == 0 <==> forall j :: 0 <= j < |steps| ==> Tok(e) !in steps[j].content
  {
    if steps != [] {
      NotInContents(steps[1..], e);
      assert forall j :: 0 <= j < |steps| - 1 ==> steps[1..][j] == steps[j + 1];
      assert forall j :: 1 <= j < |steps| ==> steps[j] == steps[1..][j - 1];
    }
  }

  /** Every token is left in the text exactly when none was captured by a later step. */
  lemma {:induction false} PresentExactlyWhenUncaptured(steps: seq<Step>, doc: Doc)
    requires Legal(steps, doc)
    ensures AllPresent(steps, doc) <==> Uncaptured(steps)
  {
    if steps != [] {
      var d, rest := steps[0].digits, steps[1..];
      PresentExactlyWhenUncaptured(rest, doc);
      assert forall j :: 0 <= j < |rest| ==> rest[j] == steps[j + 1];
      assert forall j :: 1 <= j < |steps| ==> steps[j] == rest[j - 1];
      CountUndone(rest, doc, d);
      NotInContents(rest, d);
    }
  }

  lemma {:induction false} SubstUndoCommute(steps: seq<Step>, doc: Doc, d: string, c: Doc)
    requires Avoids(c, steps)
    requires forall j :: 0 <= j < |steps| ==> steps[j].digits != d && Tok(d) !in steps[j].content
    ensures Subst(Undo(steps, doc), d, c) == Undo(steps, Subst(doc, d, c))
  {
    if steps != [] {
      assert forall j :: 0 <= j < |steps| - 1 ==> steps[1..][j] == steps[j + 1];
      SubstUndoCommute(steps[1..], doc, d, c);
      assert Tok(steps[0].digits) !in c;
      SubstCommutes(Undo(steps[1..], doc), steps[0].digits, steps[0].content, d, c);
    }
  }

  ghost predicate LaterAvoided(steps: seq<Step>) {
    steps == [] ||
    (LaterAvoided(steps[1..]) && Avoids(steps[0].content, steps)
     && forall j :: 1 <= j < |steps| ==> steps[j].digits != steps[0].digits)
  }

  lemma {:induction false} LegalAvoids(steps: seq<Step>, doc: Doc)
    requires Legal(steps, doc)
    ensures LaterAvoided(steps)
  {
    if steps != [] {
      LegalAvoids(steps[1..], doc);
    }
  }

  /** Without captures the order does not matter: filling in forwards takes the steps back. */
  lemma {:induction false} FillInIsUndo(steps: seq<Step>, doc: Doc)
    requires LaterAvoided(steps) && Uncaptured(steps)
    ensures FillIn(steps, doc) == Undo(steps, doc)
  {
    if steps != [] {
      var rest, d, c := steps[1..], steps[0].digits, steps[0].content;
      assert forall j :: 0 <= j < |rest| ==> rest[j] == steps[j + 1];
      SubstUndoCommute(rest, doc, d, c);
      FillInIsUndo(rest, Subst(doc, d, c));
    }
  }

  // ---------------------------------------------------------------- back to strings

  lemma {:induction false} CleanBeforeFillIn(steps: seq<Step>, doc: Doc, e: string)
    requires CleanFor(FillIn(steps, doc), e)
    ensures CleanFor(doc, e)
  {
    if steps != [] {
      CleanBeforeFillIn(steps[1..], Subst(doc, steps[0].digits, steps[0].content), e);
      CleanBeforeSubst(doc, steps[0].digits, steps[0].content, e);
    }
  }

  /** If the original is clean, so are the masked text and every masked content. */
  lemma {:induction false} CleanBeforeUndo(steps: seq<Step>, doc: Doc, e: string)
    requires Legal(steps, doc) && CleanFor(Undo(steps, doc), e)
    ensures CleanFor(doc, e) && forall j :: 0 <= j < |steps| ==> CleanFor(steps[j].content, e)
  {
    if steps != [] {
      CleanBeforeSubst(Undo(steps[1..], doc), steps[0].digits, steps[0].content, e);
      CleanBeforeUndo(steps[1..], doc, e);
      assert forall j :: 1 <= j < |steps| ==> steps[j] == steps[1..][j - 1];
    }
  }

  /** The text is clean for the tokens of all steps. */
  ghost predicate CleanForAll(doc: Doc, steps: seq<Step>) {
    forall j :: 0 <= j < |steps| ==> CleanFor(doc, steps[j].digits)
  }

  ghost predicate Names(steps: seq<Step>, placeholders: seq<string>, mapping: map<string, string>) {
    && |placeholders| == |steps|
    && forall j :: 0 <= j < |steps| ==>
         && placeholders[j] == Token(steps[j].digits)
         && placeholders[j] in mapping && mapping[placeholders[j]] == Render(TOKENS, steps[j].content)
  }

  lemma NamesNotEmpty(steps: seq<Step>, placeholders: seq<string>, mapping: map<string, string>)
    requires Names(steps, placeholders, mapping)
    ensures "" !in placeholders
  {
  }

  lemma {:induction false} UnmaskRender(steps: seq<Step>, doc: Doc, placeholders: seq<string>,
          mapping: map<string, string>)
    requires StepsWellFormed(steps) && WellFormed(doc) && CleanForAll(FillIn(steps, doc), steps)
    requires Names(steps, placeholders, mapping) && "" !in placeholders
    ensures Unmask(Render(TOKENS, doc), placeholders, mapping) == Render(TOKENS, FillIn(steps, doc))
    decreases |steps|
  {
    if steps != [] {
      var d, c := steps[0].digits, steps[0].content;
      CleanBeforeFillIn(steps, doc, d);
      ReplaceRender(doc, d, c);
      SubstWellFormed(doc, d, c);
      assert placeholders[0] == Token(d);
      assert forall j :: 0 <= j < |steps| - 1 ==>
        placeholders[1..][j] == placeholders[j + 1] && steps[1..][j] == steps[j + 1];
      UnmaskRender(steps[1..], Subst(doc, d, c), placeholders[1..], mapping);
    }
  }

  lemma PassJoin(d0: Doc, s0: Snapshot, d1: Doc, a: seq<Step>, r1: Masked, d2: Doc, b: seq<Step>, r2: Masked)
    requires PassResult(d0, s0, d1, a, r1) && PassResult(d1, r1.snap, d2, b, r2)
    ensures PassResult(d0, s0, d2, a + b, r2)
  {
    JoinSteps(a, b, d2, r1.snap.used);
    JoinNames(a, b, s0, r1.snap, r2.snap);
    forall j | 0 <= j < |a + b|
      ensures HitsIn((a + b)[j].content, r2.snap.used) && IsDigits((a + b)[j].digits) && WellFormed((a + b)[j].content)
    {
      if j < |a| {
        assert (a + b)[j] == a[j];
      } else {
        assert (a + b)[j] == b[j - |a|];
      }
    }
  }

  lemma WholePass(p: Pattern, before: Masked, doc: Doc) returns (masked: Doc, steps: seq<Step>)
    requires WellFormed(doc) && Render(TOKENS, doc) == before.text && HitsIn(doc, before.snap.used)
    requires before.snap.mapping.Keys <= before.snap.used
    ensures PassResult(doc, before.snap, masked, steps, MaskPass(p, before))
  {
    assert before.text[0..] == before.text;
    masked, steps := PassSteps(before.text, 0, FindAll(p, before.text, 0), before.snap, doc);
  }

  /** The three passes as one list of steps. */
  lemma MaskSteps(text: string) returns (masked: Doc, steps: seq<Step>)
    ensures PassResult(Parse(text), Unmasked(text).snap, masked, steps, MaskText(text))
  {
    var m0 := Unmasked(text);
    var m1 := MaskPass(InlineCode, m0);
    var m2 := MaskPass(AngleLink, m1);
    var d0 := Parse(text);
    RenderParse(text);
    var d1, s1 := WholePass(InlineCode, m0, d0);
    var d2, s2 := WholePass(AngleLink, m1, d1);
    var d3, s3 := WholePass(LinkUrl, m2, d2);
    PassJoin(d0, m0.snap, d1, s1, m1, d2, s2, m2);
    PassJoin(d0, m0.snap, d2, s1 + s2, m2, d3, s3, MaskText(text));
    masked, steps := d3, s1 + s2 + s3;
  }

  lemma JoinSteps(a: seq<Step>, b: seq<Step>, doc: Doc, used: set<string>)
    requires Legal(b, doc) && Legal(a, Undo(b, doc))
    requires forall j :: 0 <= j < |a| ==> Token(a[j].digits) in used && HitsIn(a[j].content, used)
    requires forall j :: 0 <= j < |b| ==> Token(b[j].digits) !in used
    ensures Legal(a + b, doc) && Undo(a + b, doc) == Undo(a, Undo(b, doc))
  {
    UndoAppend(a, b, doc);
    forall i | 0 <= i < |a|
      ensures Avoids(a[i].content, b)
    {
      AvoidsFresh(a[i].content, b, used);
    }
    LegalAppend(a, b, doc);
  }

  lemma JoinNames(a: seq<Step>, b: seq<Step>, s0: Snapshot, s1: Snapshot, s2: Snapshot)
    requires Recorded(a, s0, s1) && Recorded(b, s1, s2)
    ensures Recorded(a + b, s0, s2)
  {
    hide Render;
    forall j | 0 <= j < |a + b|
      ensures && s2.placeholders[|s0.placeholders| + j] == Token((a + b)[j].digits)
              && Token((a + b)[j].digits) in s2.used && Token((a + b)[j].digits) !in s0.used
              && Token((a + b)[j].digits) in s2.mapping
              && s2.mapping[Token((a + b)[j].digits)] == Render(TOKENS, (a + b)[j].content)
    {
      if j < |a| {
        assert (a + b)[j] == a[j];
        assert s2.placeholders[..|s1.placeholders|][|s0.placeholders| + j] == s1.placeholders[|s0.placeholders| + j];
      } else {
        assert (a + b)[j] == b[j - |a|];
      }
    }
    assert s2.placeholders[..|s0.placeholders|] == s2.placeholders[..|s1.placeholders|][..|s0.placeholders|];
  }

  /** No masked part holds a placeholder made before it. */
  ghost predicate NoneCaptured(snap: Snapshot) {
    forall i, j :: 0 <= i < j < |snap.placeholders| ==>
      !Contains(Original(snap.mapping, snap.placeholders[j]), snap.placeholders[i])
  }

  lemma {:induction false} UncapturedPairs(steps: seq<Step>)
    ensures Uncaptured(steps) <==> forall i, j :: 0 <= i < j < |steps| ==> Tok(steps[i].digits) !in steps[j].content
  {
    if steps != [] {
      UncapturedPairs(steps[1..]);
      assert forall j :: 0 <= j < |steps| - 1 ==> steps[1..][j] == steps[j + 1];
      assert forall j :: 1 <= j < |steps| ==> steps[j] == steps[1..][j - 1];
    }
  }

  /** Outside its tokens the text nowhere holds OC_I18N_ followed by the digits of a
      placeholder that masking it hands out. */
  ghost predicate NoStray(text: string) {
    forall d: string :: Token(d) in MaskText(text).snap.placeholders ==> CleanFor(Parse(text), d)
  }

  /** For every text without such a stray part: the check accepts the masked text exactly
      when no pass captured an earlier placeholder, and whenever it accepts, unmasking gives
      back the text. */
  lemma MaskRoundTrip(text: string)
    requires NoStray(text)
    ensures var r := MaskText(text);
            && "" !in r.snap.placeholders
            && (Accepts(r.text, r.snap.placeholders) <==> NoneCaptured(r.snap))
            && (Accepts(r.text, r.snap.placeholders) ==> Unmask(r.text, r.snap.placeholders, r.snap.mapping) == text)
  {
    var r := MaskText(text);
    var ps := r.snap.placeholders;
    var masked, steps := MaskSteps(text);
    CleanThroughout(text, r, masked, steps);
    PresentExactlyWhenUncaptured(steps, masked);
    NamesNotEmpty(steps, ps, r.snap.mapping);
    AcceptsRender(steps, masked, r);
    UncapturedRender(steps, r);
    if Uncaptured(steps) {
      LegalAvoids(steps, masked);
      FillInIsUndo(steps, masked);
      UnmaskRender(steps, masked, ps, r.snap.mapping);
      RenderParse(text);
    }
  }

  /** No pass makes a stray part where there was none. */
  lemma CleanThroughout(text: string, r: Masked, masked: Doc, steps: seq<Step>)
    requires NoStray(text) && r == MaskText(text) && PassResult(Parse(text), Unmasked(text).snap, masked, steps, r)
    ensures Names(steps, r.snap.placeholders, r.snap.mapping)
    ensures CleanForAll(Undo(steps, masked), steps) && CleanForAll(masked, steps)
    ensures forall i :: 0 <= i < |steps| ==> CleanForAll(steps[i].content, steps)
  {
    hide MaskText, Legal, Undo, Lacks, WellFormed, StepsWellFormed, HitsIn;
    forall j | 0 <= j < |steps|
      ensures CleanFor(Undo(steps, masked), steps[j].digits) && CleanFor(masked, steps[j].digits)
      ensures forall i :: 0 <= i < |steps| ==> CleanFor(steps[i].content, steps[j].digits)
    {
      assert r.snap.placeholders[j] == Token(steps[j].digits);
      CleanBeforeUndo(steps, masked, steps[j].digits);
    }
  }

  lemma AcceptsRender(steps: seq<Step>, masked: Doc, r: Masked)
    requires WellFormed(masked) && CleanForAll(masked, steps) && StepsWellFormed(steps)
    requires Render(TOKENS, masked) == r.text && Names(steps, r.snap.placeholders, r.snap.mapping)
    ensures Accepts(r.text, r.snap.placeholders) <==> AllPresent(steps, masked)
  {
    forall j | 0 <= j < |steps|
      ensures Contains(r.text, r.snap.placeholders[j]) <==> Tok(steps[j].digits) in masked
    {
      ContainsRender(masked, steps[j].digits);
    }
  }

  lemma UncapturedRender(steps: seq<Step>, r: Masked)
    requires StepsWellFormed(steps) && Names(steps, r.snap.placeholders, r.snap.mapping)
    requires forall j :: 0 <= j < |steps| ==> CleanForAll(steps[j].content, steps)
    ensures Uncaptured(steps) <==> NoneCaptured(r.snap)
  {
    UncapturedPairs(steps);
    forall i, j | 0 <= i < j < |steps|
      ensures Contains(Original(r.snap.mapping, r.snap.placeholders[j]), r.snap.placeholders[i])
              <==> Tok(steps[i].digits) in steps[j].content
    {
      ContainsRender(steps[j].content, steps[i].digits);
    }
  }

  // ---------------------------------------------------------------- what is masked

  /** The strings a pattern stands for: the part of s from i to e. */
  ghost predicate Fits(p: Pattern, s: string, i: nat, e: nat)
    requires i <= e <= |s|
  {
    match p
    case InlineCode => e - i >= 3 && s[i] == s[e - 1] == '`' && '`' !in s[i + 1..e - 1]
    case AngleLink =>
      ("<http://" <= s[i..] && FitsAddress(s, i + 8, e)) || ("<https://" <= s[i..] && FitsAddress(s, i + 9, e))
    case LinkUrl => exists j: nat :: FitsLink(s, i, j, e)
  }

  /** An address from i on that ends right before e. */
  predicate FitsAddress(s: string, i: nat, e: nat) {
    i + 1 < e <= |s| && s[e - 1] == '>' && '>' !in s[i..e - 1]
  }

  /** A link whose text ends at j and whose target ends right before e. */
  ghost predicate FitsLink(s: string, i: nat, j: nat, e: nat) {
    i < j && j + 3 < e <= |s| && s[i] == '[' && s[j] == ']' && s[j + 1] == '(' && s[e - 1] == ')'
    && ']' !in s[i + 1..j] && ')' !in s[j + 2..e - 1]
  }

  lemma FirstAtIs(s: string, c: char, i: nat, j: nat)
    requires i <= j < |s| && s[j] == c && c !in s[i..j]
    ensures FirstAt(s, c, i) == j
  {
    var k := FirstAt(s, c, i);
    if k < j {
      assert false;
    }
  }

  lemma NotBefore(s: string, c: char, i: nat, j: nat)
    requires i <= |s| && i <= j <= FirstAt(s, c, i)
    ensures c !in s[i..j]
  {
  }

  /** All of a code span or an angle link is masked, and of a link its target. */
  ghost predicate IsMaskedPart(p: Pattern, s: string, m: Match) {
    if p.LinkUrl? then m.maskStart >= 2 && FitsLink(s, m.start, m.maskStart - 2, m.end) && m.maskEnd == m.end - 1
    else m.maskStart == m.start && m.maskEnd == m.end
  }

  /** A match is found at i exactly when some part of the text from i on fits the pattern,
      and then it is that part. */
  ghost predicate MatchIsExact(p: Pattern, s: string, i: nat)
    requires i < |s|
  {
    && (MatchAt(p, s, i).Some? ==>
          i == MatchAt(p, s, i).value.start < MatchAt(p, s, i).value.end <= |s|
            && Fits(p, s, i, MatchAt(p, s, i).value.end) && IsMaskedPart(p, s, MatchAt(p, s, i).value))
    && (forall e: nat :: i <= e <= |s| && Fits(p, s, i, e) ==>
          MatchAt(p, s, i).Some? && MatchAt(p, s, i).value.end == e)
  }

  lemma CodeMatchExact(s: string, i: nat)
    requires i < |s|
    ensures MatchIsExact(InlineCode, s, i)
  {
    NotBefore(s, '`', i + 1, FirstAt(s, '`', i + 1));
    forall e: nat | i <= e <= |s| && Fits(InlineCode, s, i, e)
      ensures MatchAt(InlineCode, s, i).Some? && MatchAt(InlineCode, s, i).value.end == e
    {
      FirstAtIs(s, '`', i + 1, e - 1);
    }
  }

  lemma AngleOpens(s: string, i: nat)
    requires i <= |s|
    ensures "<http://" <= s[i..] <==> AngleOpen(s, i) == 8
    ensures "<https://" <= s[i..] <==> AngleOpen(s, i) == 9
    ensures AngleOpen(s, i) in [0, 8, 9]
  {
    if "<http://" <= s[i..] {
      assert s[i..][5] == ':';
    }
  }

  lemma AngleFits(s: string, i: nat, e: nat)
    requires i <= e <= |s|
    ensures Fits(AngleLink, s, i, e) <==> AngleOpen(s, i) > 0 && FitsAddress(s, i + AngleOpen(s, i), e)
  {
    AngleOpens(s, i);
    hide AngleOpen, FitsAddress;
  }

  lemma AngleMatchExact(s: string, i: nat)
    requires i < |s|
    ensures MatchIsExact(AngleLink, s, i)
  {
    var n := AngleOpen(s, i);
    var j := FirstAt(s, '>', i + n);
    NotBefore(s, '>', i + n, j);
    hide AngleOpen, FirstAt;
    if n > 0 && j < |s| {
      AngleFits(s, i, j + 1);
    }
    forall e: nat | i <= e <= |s| && Fits(AngleLink, s, i, e)
      ensures MatchAt(AngleLink, s, i).Some? && MatchAt(AngleLink, s, i).value.end == e
    {
      AngleFits(s, i, e);
      FirstAtIs(s, '>', i + n, e - 1);
    }
  }

  lemma LinkMatchFits(s: string, i: nat)
    requires i < |s| && MatchAt(LinkUrl, s, i).Some?
    ensures var m := MatchAt(LinkUrl, s, i).value;
            i == m.start < m.end <= |s| && Fits(LinkUrl, s, i, m.end) && IsMaskedPart(LinkUrl, s, m)
  {
    var j := FirstAt(s, ']', i + 1);
    var k := FirstAt(s, ')', j + 2);
    NotBefore(s, ']', i + 1, j);
    NotBefore(s, ')', j + 2, k);
    assert FitsLink(s, i, j, k + 1);
  }

  lemma LinkMatchExact(s: string, i: nat)
    requires i < |s|
    ensures MatchIsExact(LinkUrl, s, i)
  {
    if MatchAt(LinkUrl, s, i).Some? {
      LinkMatchFits(s, i);
    }
    forall e: nat | i <= e <= |s| && Fits(LinkUrl, s, i, e)
      ensures MatchAt(LinkUrl, s, i).Some? && MatchAt(LinkUrl, s, i).value.end == e
    {
      var j: nat :| FitsLink(s, i, j, e);
    }
  }

  lemma MatchAtExact(p: Pattern, s: string, i: nat)
    requires i < |s|
    ensures MatchIsExact(p, s, i)
  {
    match p
    case InlineCode => CodeMatchExact(s, i);
    case AngleLink => AngleMatchExact(s, i);
    case LinkUrl => LinkMatchExact(s, i);
  }

  predicate InsideSome(ms: seq<Match>, i: nat) {
    exists k :: 0 <= k < |ms| && ms[k].start <= i < ms[k].end
  }

  /** Each reported match is one, and no place between the reported matches begins one. */
  ghost predicate MissesNothing(p: Pattern, s: string, from: nat, ms: seq<Match>) {
    && (forall k :: 0 <= k < |ms| ==> ms[k].start < |s| && MatchAt(p, s, ms[k].start) == Some(ms[k]))
    && forall i :: from <= i < |s| && !InsideSome(ms, i) ==> MatchAt(p, s, i).None?
  }

  lemma MissesNothingCons(p: Pattern, s: string, from: nat, m: Match, ms: seq<Match>)
    requires from < |s| && MatchAt(p, s, from) == Some(m) && m.start == from < m.end
    requires MissesNothing(p, s, m.end, ms)
    ensures MissesNothing(p, s, from, [m] + ms)
  {
    var all := [m] + ms;
    assert all[0] == m && forall k :: 0 <= k < |ms| ==> all[k + 1] == ms[k];
    forall i | from <= i < |s| && !InsideSome(all, i)
      ensures MatchAt(p, s, i).None?
    {
      assert !(all[0].start <= i < all[0].end);
    }
  }

  lemma MissesNothingEarlier(p: Pattern, s: string, from: nat, ms: seq<Match>)
    requires from < |s| && MatchAt(p, s, from).None? && MissesNothing(p, s, from + 1, ms)
    ensures MissesNothing(p, s, from, ms)
  {
    hide MatchAt;
  }

  lemma NothingToMiss(p: Pattern, s: string)
    ensures FindAll(p, s, |s|) == [] && MissesNothing(p, s, |s|, [])
  {
  }

  lemma FindAllStep(p: Pattern, s: string, i: nat, m: Option<Match>)
    requires i < |s| && m == MatchAt(p, s, i)
    ensures m.Some? ==>
            i == m.value.start < m.value.end <= |s| && FindAll(p, s, i) == [m.value] + FindAll(p, s, m.value.end)
    ensures m.None? ==> FindAll(p, s, i) == FindAll(p, s, i + 1)
  {
    MatchAtExact(p, s, i);
  }

  /** The search for all matches misses nothing. */
  lemma {:induction false} FindAllMissesNothing(p: Pattern, s: string, from: nat, ms: seq<Match>)
    requires from <= |s| && ms == FindAll(p, s, from)
    ensures MissesNothing(p, s, from, ms)
    decreases |s| - from
  {
    hide MatchAt, MissesNothing;
    if from < |s| {
      var m := MatchAt(p, s, from);
      FindAllStep(p, s, from, m);
      if m.Some? {
        var rest := FindAll(p, s, m.value.end);
        FindAllMissesNothing(p, s, m.value.end, rest);
        MissesNothingCons(p, s, from, m.value, rest);
      } else {
        FindAllMissesNothing(p, s, from + 1, ms);
        MissesNothingEarlier(p, s, from, ms);
      }
    } else {
      NothingToMiss(p, s);
    }
  }

  /** The snapshot after contains all that before did, and for match j a new placeholder
      that stands for its masked part. */
  ghost predicate MaskedAll(s: string, ms: seq<Match>, before: Snapshot, after: Snapshot) {
    && |after.placeholders| == |before.placeholders| + |ms|
    && after.placeholders[..|before.placeholders|] == before.placeholders
    && before.used <= after.used && after.mapping.Keys <= after.used
    && (forall k :: k in before.mapping ==> k in after.mapping && after.mapping[k] == before.mapping[k])
    && (forall j :: 0 <= j < |ms| ==> StandsFor(s, ms[j], before, after, |before.placeholders| + j))
  }

  ghost predicate StandsFor(s: string, m: Match, before: Snapshot, after: Snapshot, n: nat)
    requires n < |after.placeholders|
  {
    && m.maskStart <= m.maskEnd <= |s|
    && after.placeholders[n] !in before.used
    && after.placeholders[n] in after.mapping
    && after.mapping[after.placeholders[n]] == s[m.maskStart..m.maskEnd]
  }

  lemma MaskedOneMore(s: string, ms: seq<Match>, before: Snapshot, after: Snapshot)
    requires ms != [] && ms[0].maskStart <= ms[0].maskEnd <= |s| && before.mapping.Keys <= before.used
    requires MaskedAll(s, ms[1..], Register(before, s[ms[0].maskStart..ms[0].maskEnd]), after)
    ensures MaskedAll(s, ms, before, after)
  {
    var mid := Register(before, s[ms[0].maskStart..ms[0].maskEnd]);
    hide TokenOf;
    var n := |before.placeholders|;
    assert mid.placeholders[..n] == before.placeholders && mid.placeholders[n] == FreshToken(before);
    assert after.placeholders[..n] == after.placeholders[..n + 1][..n];
    assert after.placeholders[n] == after.placeholders[..n + 1][n];
    assert FreshToken(before) in mid.mapping;
    forall j | 0 <= j < |ms|
      ensures StandsFor(s, ms[j], before, after, n + j)
    {
      if j > 0 {
        assert ms[1..][j - 1] == ms[j];
        assert StandsFor(s, ms[1..][j - 1], mid, after, |mid.placeholders| + (j - 1));
      }
    }
  }

  /** Every match gets a placeholder of its own, which stands for the masked part and was
      not in use before. */
  lemma {:induction false} EveryMatchMasked(s: string, pos: nat, ms: seq<Match>, snap: Snapshot)
    requires pos <= |s| && GoodMatches(s, ms, pos) && snap.mapping.Keys <= snap.used
    ensures MaskedAll(s, ms, snap, MaskFrom(s, pos, ms, snap).snap)
    decreases |ms|
  {
    if ms != [] {
      var m := ms[0];
      var mid := Register(snap, s[m.maskStart..m.maskEnd]);
      GoodEarlier(s, ms[1..], m.end, m.maskEnd);
      hide MaskedAll;
      EveryMatchMasked(s, m.maskEnd, ms[1..], mid);
      MaskedOneMore(s, ms, snap, MaskFrom(s, m.maskEnd, ms[1..], mid).snap);
    }
  }

  predicate StandsAt(s: string, m: Match, snap: Snapshot, n: nat) {
    && n < |snap.placeholders| && m.maskStart <= m.maskEnd <= |s|
    && snap.placeholders[n] in snap.mapping
    && snap.mapping[snap.placeholders[n]] == s[m.maskStart..m.maskEnd]
  }

  /** The placeholders from number n on stand for the masked parts of these matches, in their order. */
  ghost predicate StandFrom(n: nat, s: string, ms: seq<Match>, snap: Snapshot) {
    n + |ms| <= |snap.placeholders| && forall j :: 0 <= j < |ms| ==> StandsAt(s, ms[j], snap, n + j)
  }

  lemma StandAfter(n: nat, s: string, ms: seq<Match>, s': string, ms': seq<Match>, before: Snapshot, after: Snapshot)
    requires StandFrom(n, s, ms, before) && MaskedAll(s', ms', before, after)
    ensures StandFrom(n, s, ms, after)
  {
    forall j | 0 <= j < |ms|
      ensures StandsAt(s, ms[j], after, n + j)
    {
      assert StandsAt(s, ms[j], before, n + j);
      assert after.placeholders[..|before.placeholders|][n + j] == after.placeholders[n + j];
    }
  }

  lemma MaskedAllStand(s: string, ms: seq<Match>, before: Snapshot, after: Snapshot)
    requires MaskedAll(s, ms, before, after)
    ensures StandFrom(|before.placeholders|, s, ms, after)
  {
    forall j | 0 <= j < |ms|
      ensures StandsAt(s, ms[j], after, |before.placeholders| + j)
    {
      assert StandsFor(s, ms[j], before, after, |before.placeholders| + j);
    }
  }

  lemma PassMasksAll(p: Pattern, m: Masked)
    requires m.snap.mapping.Keys <= m.snap.used
    ensures MaskedAll(m.text, FindAll(p, m.text, 0), m.snap, MaskPass(p, m).snap)
    ensures FindAll(p, m.text, 0) == [] ==> MaskPass(p, m) == m
  {
    hide MaskedAll, FindAll, GoodMatches;
    EveryMatchMasked(m.text, 0, FindAll(p, m.text, 0), m.snap);
  }

  /** The code spans of the text are masked first and whole. Without any, the angle links of
      the text are, and without these, the targets of its links and nothing else. */
  lemma PassesInOrder(text: string)
    ensures var snap := MaskText(text).snap;
            var code, angle := FindAll(InlineCode, text, 0), FindAll(AngleLink, text, 0);
            var link := FindAll(LinkUrl, text, 0);
            && StandFrom(0, text, code, snap)
            && (code == [] ==> StandFrom(0, text, angle, snap))
            && (code == [] && angle == [] ==> StandFrom(0, text, link, snap) && |snap.placeholders| == |link|)
  {
    var m := Unmasked(text);
    var m1 := MaskPass(InlineCode, m);
    var m2 := MaskPass(AngleLink, m1);
    var m3 := MaskPass(LinkUrl, m2);
    assert MaskText(text) == m3;
    PassMasksAll(InlineCode, m);
    MaskedAllStand(text, FindAll(InlineCode, text, 0), m.snap, m1.snap);
    PassMasksAll(AngleLink, m1);
    var ms2, ms3 := FindAll(AngleLink, m1.text, 0), FindAll(LinkUrl, m2.text, 0);
    MaskedAllStand(m1.text, ms2, m1.snap, m2.snap);
    PassMasksAll(LinkUrl, m2);
    MaskedAllStand(m2.text, ms3, m2.snap, m3.snap);
    hide StandFrom, FindAll, MaskPass;
    StandAfter(0, text, FindAll(InlineCode, text, 0), m1.text, ms2, m1.snap, m2.snap);
    StandAfter(0, text, FindAll(InlineCode, text, 0), m2.text, ms3, m2.snap, m3.snap);
    if FindAll(InlineCode, text, 0) == [] {
      StandAfter(0, text, ms2, m2.text, ms3, m2.snap, m3.snap);
    }
  }

  lemma PlaceholdersNotEmpty(text: string)
    ensures "" !in MaskText(text).snap.placeholders
  {
    hide MaskText;
    var masked, steps := MaskSteps(text);
    assert Names(steps, MaskText(text).snap.placeholders, MaskText(text).snap.mapping);
    NamesNotEmpty(steps, MaskText(text).snap.placeholders, MaskText(text).snap.mapping);
  }

  // ---------------------------------------------------------------- the edges of the masked text

  ghost predicate HasEdges(s: string) {
    s != "" && !IsSpace(s[0]) && !IsSpace(s[|s| - 1])
  }

  /** A masked part at an edge of the text puts no white space there. */
  predicate SolidAtEdges(s: string, m: Match) {
    && m.maskStart < m.maskEnd <= |s|
    && (m.maskStart == 0 ==> !IsSpace(s[0])) && (m.maskEnd == |s| ==> !IsSpace(s[|s| - 1]))
  }

  lemma MatchSolidAtEdges(p: Pattern, s: string, i: nat)
    requires i < |s| && MatchAt(p, s, i).Some?
    ensures SolidAtEdges(s, MatchAt(p, s, i).value)
  {
    hide Separated;
    if p.AngleLink? {
      assert s[i..][0] == s[i] == '<';
    }
  }

  lemma FreshTokenEdges(snap: Snapshot)
    ensures var t := FreshToken(snap); t != "" && !IsSpace(t[0]) && !IsSpace(t[|t| - 1])
  {
    TokenShape(Itoa(NextNumber(snap.used, snap.counter)));
  }

  /** Masking leaves white space at an edge exactly where the text has it. */
  lemma {:induction false} MaskEdges(s: string, pos: nat, ms: seq<Match>, snap: Snapshot, r: string)
    requires pos < |s| && GoodMatches(s, ms, pos) && forall k :: 0 <= k < |ms| ==> SolidAtEdges(s, ms[k])
    requires r == MaskFrom(s, pos, ms, snap).text
    ensures r != "" && (IsSpace(r[|r| - 1]) <==> IsSpace(s[|s| - 1]))
    ensures pos == 0 ==> (IsSpace(r[0]) <==> IsSpace(s[0]))
    decreases |ms|
  {
    hide IsSpace, Separated, FreshToken, Register;
    if ms != [] {
      var m := ms[0];
      assert SolidAtEdges(s, m);
      var snap' := Register(snap, s[m.maskStart..m.maskEnd]);
      GoodEarlier(s, ms[1..], m.end, m.maskEnd);
      FreshTokenEdges(snap);
      var rest := MaskFrom(s, m.maskEnd, ms[1..], snap').text;
      assert r == s[pos..m.maskStart] + FreshToken(snap) + rest;
      if m.maskEnd < |s| {
        MaskEdges(s, m.maskEnd, ms[1..], snap', rest);
        assert r[|r| - 1] == rest[|rest| - 1];
      } else {
        assert ms[1..] == [] && rest == "";
      }
    }
  }

  lemma PassKeepsEdges(p: Pattern, m: Masked)
    ensures HasEdges(MaskPass(p, m).text) <==> HasEdges(m.text)
  {
    var s := m.text;
    var ms := FindAll(p, s, 0);
    if s != "" {
      FindAllMissesNothing(p, s, 0, ms);
      forall k | 0 <= k < |ms|
        ensures SolidAtEdges(s, ms[k])
      {
        MatchSolidAtEdges(p, s, ms[k].start);
      }
      hide IsSpace, FindAll, MatchAt, GoodMatches, SolidAtEdges;
      MaskEdges(s, 0, ms, m.snap, MaskPass(p, m).text);
    }
  }

  /** The masked text has white space at its edges exactly when the text has. */
  lemma MaskKeepsEdges(text: string)
    ensures HasEdges(MaskText(text).text) <==> HasEdges(text)
  {
    hide HasEdges, MaskPass;
    PassKeepsEdges(InlineCode, Unmasked(text));
    PassKeepsEdges(AngleLink, MaskPass(InlineCode, Unmasked(text)));
    PassKeepsEdges(LinkUrl, MaskPass(AngleLink, MaskPass(InlineCode, Unmasked(text))));
  }

  // ---------------------------------------------------------------- white space around the masked text

  lemma TokenIsWord(d: string)
    requires IsDigits(d)
    ensures IsWord(Token(d))
  {
    TokenShape(d);
  }

  lemma PlaceholdersAreWords(text: string)
    ensures forall j :: 0 <= j < |MaskText(text).snap.placeholders| ==> IsWord(MaskText(text).snap.placeholders[j])
  {
    hide MaskText, IsWord;
    var masked, steps := MaskSteps(text);
    var snap := MaskText(text).snap;
    assert Names(steps, snap.placeholders, snap.mapping) && StepsWellFormed(steps);
    forall j | 0 <= j < |snap.placeholders|
      ensures IsWord(snap.placeholders[j])
    {
      TokenIsWord(steps[j].digits);
    }
  }

  /** Filling in the placeholders leaves white space around the text alone. */
  lemma {:induction false} UnmaskKeepsEnds(a: string, t: string, b: string, ps: seq<string>,
          mapping: map<string, string>)
    requires IsBlank(a) && IsBlank(b) && "" !in ps && forall j :: 0 <= j < |ps| ==> IsWord(ps[j])
    ensures Unmask(a + t + b, ps, mapping) == a + Unmask(t, ps, mapping) + b
    decreases |ps|
  {
    hide IsWord, IsBlank, ReplaceAll, Original;
    if ps != [] {
      assert IsWord(ps[0]) && forall j :: 0 <= j < |ps| - 1 ==> ps[1..][j] == ps[j + 1];
      ReplaceKeepsEnds(a, t, b, ps[0], Original(mapping, ps[0]));
      UnmaskKeepsEnds(a, ReplaceAll(t, ps[0], Original(mapping, ps[0])), b, ps[1..], mapping);
    }
  }

  lemma AcceptsKeepsEnds(a: string, t: string, b: string, ps: seq<string>)
    requires IsBlank(a) && IsBlank(b) && forall j :: 0 <= j < |ps| ==> IsWord(ps[j])
    ensures Accepts(a + t + b, ps) <==> Accepts(t, ps)
  {
    hide IsWord, IsBlank, Contains;
    forall j | 0 <= j < |ps|
      ensures Contains(a + t + b, ps[j]) <==> Contains(t, ps[j])
    {
      ContainsBetweenBlanks(a, t, b, ps[j]);
    }
  }

  lemma {:induction false} NoMatchUpTo(p: Pattern, s: string, from: nat, to: nat)
    requires from <= to <= |s| && forall i :: from <= i < to ==> MatchAt(p, s, i).None?
    ensures FindAll(p, s, from) == FindAll(p, s, to)
    decreases |s| - from
  {
    hide MatchAt;
    if from < to {
      FindAllStep(p, s, from, None);
      NoMatchUpTo(p, s, from + 1, to);
    }
  }

  lemma NothingToMask(p: Pattern, m: Masked)
    requires match p case InlineCode => '`' !in m.text case AngleLink => '<' !in m.text case LinkUrl => '[' !in m.text
    ensures MaskPass(p, m) == m
  {
    var s := m.text;
    forall i | 0 <= i < |s|
      ensures MatchAt(p, s, i).None?
    {
      assert s[i..][0] == s[i];
      assert AngleOpen(s, i) > 0 ==> s[i] == '<';
    }
    NoMatchUpTo(p, m.text, 0, |m.text|);
    assert m.text[0..] == m.text;
  }

  lemma PlainIsUnmasked(text: string)
    requires '`' !in text && '<' !in text && '[' !in text
    ensures MaskText(text) == Unmasked(text)
  {
    hide MaskPass;
    NothingToMask(InlineCode, Unmasked(text));
    NothingToMask(AngleLink, Unmasked(text));
    NothingToMask(LinkUrl, Unmasked(text));
  }

  /** White space alone is not masked. */
  lemma BlankIsUnmasked(text: string)
    requires IsBlank(text)
    ensures MaskText(text) == Unmasked(text)
  {
    PlainIsUnmasked(text);
  }

  lemma PassNotBlank(p: Pattern, m: Masked)
    requires !IsBlank(m.text)
    ensures !IsBlank(MaskPass(p, m).text)
  {
    hide IsSpace, Separated, FreshToken, Register, FindAll;
    var s, ms := m.text, FindAll(p, m.text, 0);
    if ms == [] {
      assert s[0..] == s;
    } else {
      var first := ms[0];
      GoodEarlier(s, ms[1..], first.end, first.maskEnd);
      FreshTokenEdges(m.snap);
      assert MaskPass(p, m).text[first.maskStart] == FreshToken(m.snap)[0];
    }
  }

  lemma MaskedNotBlank(text: string)
    requires !IsBlank(text)
    ensures !IsBlank(MaskText(text).text)
  {
    hide IsBlank, MaskPass;
    PassNotBlank(InlineCode, Unmasked(text));
    PassNotBlank(AngleLink, MaskPass(InlineCode, Unmasked(text)));
    PassNotBlank(LinkUrl, MaskPass(AngleLink, MaskPass(InlineCode, Unmasked(text))));
  }

  // ---------------------------------------------------------------- one placeholder

  const TOKEN := "__OC_I18N_900000__"

  lemma FirstToken()
    ensures TokenOf(900000) == TOKEN
  {
    assert Itoa(900000) == "900000";
  }

  lemma AcceptsOne(text: string, t: string, p: nat)
    requires OccursAt(text, t, p)
    ensures Accepts(text, [t])
  {
  }

  lemma UnmaskOne(text: string, token: string, mapping: map<string, string>)
    requires token != ""
    ensures Unmask(text, [token], mapping) == ReplaceAll(text, token, Original(mapping, token))
  {
    var out := ReplaceAll(text, token, Original(mapping, token));
    assert Unmask(out, [], mapping) == out;
    assert [token][1..] == [];
  }
}
