/** The front matter template sent to the model: every translatable value between a start
    and an end marker, and the values taken back out of the reply. */
module FrontMatterMarkers {
  import opened Wrappers
  import opened Text
  import opened Decimal
  import opened FrontMatter
  import opened TokenText

  const OPEN := "[[[FM_"
  const CLOSE := "]]]"

  function MarkerString(name: string): string {
    OPEN + name + CLOSE
  }

  function StartName(base: string): string { base + "_START" }

  function EndName(base: string): string { base + "_END" }

  // ---------------------------------------------------------------- texts with markers

  /** Markers are the tokens of these texts. */
  const MARKS := Brackets(OPEN, CLOSE)

  predicate ValidName(name: string) {
    name != "" && ']' !in name && '[' !in name
  }

  predicate WellFormed(doc: Doc) {
    forall i :: 0 <= i < |doc| && doc[i].Tok? ==> ValidName(doc[i].name)
  }

  /** Outside its markers the text nowhere looks like the beginning of one. */
  ghost predicate Clean(doc: Doc) {
    Lacks(doc, OPEN)
  }

  lemma CleanTail(doc: Doc)
    requires Clean(doc) && doc != []
    ensures Clean(doc[1..])
  {
    LacksTail(doc, OPEN);
  }

  /** An item that no beginning of a marker can run across. */
  predicate IsBreak(item: Item) {
    item.Tok? || (item.c != '[' && item.c != 'F' && item.c != 'M' && item.c != '_')
  }

  lemma OpenHasNoBreak(doc: Doc, i: nat, k: nat)
    requires i + |OPEN| <= |doc| && RunAt(doc, OPEN, i) && i <= k < i + |OPEN|
    ensures !IsBreak(doc[k])
  {
    assert doc[k] == doc[i..i + |OPEN|][k - i];
  }

  lemma CleanJoin(a: Doc, b: Doc)
    requires Clean(a) && Clean(b)
    requires a == [] || b == [] || IsBreak(a[|a| - 1]) || IsBreak(b[0])
    ensures Clean(a + b)
  {
    forall i | 0 <= i && i + |OPEN| <= |a + b|
      ensures !RunAt(a + b, OPEN, i)
    {
      if i + |OPEN| <= |a| {
        assert !RunAt(a, OPEN, i);
      } else if i >= |a| {
        assert !RunAt(b, OPEN, i - |a|);
      } else if RunAt(a + b, OPEN, i) {
        OpenHasNoBreak(a + b, i, |a| - 1);
        OpenHasNoBreak(a + b, i, |a|);
        assert false;
      }
    }
  }

  // ---------------------------------------------------------------- where markers are found

  lemma MarkStartsTripled(doc: Doc)
    requires doc != []
    ensures doc[0].Tok? ==> |Render(MARKS, doc)| >= 3 && forall d :: 0 <= d < 3 ==> Render(MARKS, doc)[d] == '['
    ensures doc[0].Chr? ==> Render(MARKS, doc)[0] == doc[0].c && Render(MARKS, doc)[1..] == Render(MARKS, doc[1..])
  {
  }

  /** The end of OPEN at the start of a text consists of characters, not of a marker. */
  lemma {:induction false} OpenIsChars(doc: Doc, k: nat)
    requires 0 < k < |OPEN| && OPEN[k..] <= Render(MARKS, doc)
    ensures |doc| >= |OPEN| - k && forall i :: 0 <= i < |OPEN| - k ==> doc[i] == Chr(OPEN[k + i])
    decreases |OPEN| - k
  {
    hide Render;
    OpenBeginsWithChar(doc, k);
    if k + 1 < |OPEN| {
      OpenIsChars(doc[1..], k + 1);
    }
    forall i | 0 <= i < |OPEN| - k
      ensures doc[i] == Chr(OPEN[k + i])
    {
      if i > 0 {
        assert doc[i] == doc[1..][i - 1];
      }
    }
  }

  lemma OpenBeginsWithChar(doc: Doc, k: nat)
    requires 0 < k < |OPEN| && OPEN[k..] <= Render(MARKS, doc)
    ensures doc != [] && doc[0] == Chr(OPEN[k]) && OPEN[k + 1..] <= Render(MARKS, doc[1..])
  {
    assert doc != [];
    MarkStartsTripled(doc);
    hide Render;
    var r := Render(MARKS, doc);
    var d := if k <= 3 then 3 - k else 0;
    assert OPEN[k..][d] == OPEN[k + d] == r[d] != '[';
    assert OPEN[k..][0] == OPEN[k] == r[0];
    assert OPEN[k..][1..] == OPEN[k + 1..];
    PrefixTail(OPEN[k..], r);
  }

  lemma PrefixTail(a: string, b: string)
    requires a != "" && a <= b
    ensures a[1..] <= b[1..]
  {
    assert a[1..] == b[..|a|][1..] == b[1..][..|a| - 1];
  }

  lemma {:induction false} NamesEqual(n: string, e: string, rest: string)
    requires ValidName(n) || n == ""
    requires ValidName(e) || e == ""
    requires n + "]" <= e + ("]" + rest)
    ensures n == e
  {
    var x, y := n + "]", e + ("]" + rest);
    assert x[0] == y[0];
    if n != "" && e != "" {
      assert x[1..] == n[1..] + "]" && y[1..] == e[1..] + ("]" + rest);
      assert forall c :: c in n[1..] ==> c in n;
      assert forall c :: c in e[1..] ==> c in e;
      NamesEqual(n[1..], e[1..], rest);
      assert n == [n[0]] + n[1..] && e == [e[0]] + e[1..];
    }
  }

  lemma PrefixDrop(a: string, x: string, y: string)
    requires a + x <= a + y
    ensures x <= y
  {
    assert x == (a + x)[|a|..] && y == (a + y)[|a|..];
  }

  lemma MarkerPrefixFree(n: string, e: string, rest: string)
    requires ValidName(n) && ValidName(e) && MarkerString(n) <= MarkerString(e) + rest
    ensures n == e
  {
    assert MarkerString(n) == OPEN + ((n + "]") + "]]");
    assert MarkerString(e) + rest == OPEN + (e + ("]" + ("]]" + rest)));
    PrefixDrop(OPEN, (n + "]") + "]]", e + ("]" + ("]]" + rest)));
    assert n + "]" <= (n + "]") + "]]";
    NamesEqual(n, e, "]]" + rest);
  }

  lemma StartsWithOpen(n: string, r: string)
    requires MarkerString(n) <= r
    ensures |r| > 0 && r[0] == '[' && OPEN[1..] <= r[1..]
  {
    assert MarkerString(n) == "[" + (OPEN[1..] + n + CLOSE);
    assert MarkerString(n)[1..] == OPEN[1..] + n + CLOSE;
  }

  lemma OpenOfChars(doc: Doc)
    requires |doc| >= |OPEN| && doc[0] == Chr('[')
    requires forall i :: 0 <= i < |OPEN| - 1 ==> doc[1..][i] == Chr(OPEN[1 + i])
    ensures RunAt(doc, OPEN, 0)
  {
    forall k | 0 <= k < |OPEN|
      ensures doc[k] == Chr(OPEN[k])
    {
      if k > 0 {
        assert doc[k] == doc[1..][k - 1];
      }
    }
    RunOfChars(doc, OPEN);
  }

  lemma MarkerSpelled(doc: Doc, n: string)
    requires doc != [] && doc[0].Chr? && MarkerString(n) <= Render(MARKS, doc)
    ensures |OPEN| <= |doc| && RunAt(doc, OPEN, 0)
  {
    hide Render, MarkerString, RunAt;
    MarkStartsTripled(doc);
    StartsWithOpen(n, Render(MARKS, doc));
    OpenIsChars(doc[1..], 1);
    OpenOfChars(doc);
  }

  lemma NoMarkerAtChar(doc: Doc, n: string)
    requires Clean(doc) && doc != [] && doc[0].Chr?
    ensures !(MarkerString(n) <= Render(MARKS, doc))
  {
    if MarkerString(n) <= Render(MARKS, doc) {
      MarkerSpelled(doc, n);
      assert false;
    }
  }

  lemma MarkerAtStart(doc: Doc, n: string)
    requires WellFormed(doc) && Clean(doc) && ValidName(n) && doc != []
    ensures MarkerString(n) <= Render(MARKS, doc) <==> doc[0] == Tok(n)
  {
    if doc[0].Chr? {
      NoMarkerAtChar(doc, n);
    } else if MarkerString(n) <= Render(MARKS, doc) {
      MarkerPrefixFree(n, doc[0].name, Render(MARKS, doc[1..]));
    }
  }

  /** Inside a marker no other one begins. */
  lemma NoMarkerInside(e: string, rest: string, n: string, o: nat)
    requires ValidName(e) && 0 < o < |MarkerString(e)|
    ensures !OccursAt(MarkerString(e) + rest, MarkerString(n), o)
  {
    var t, m := MarkerString(e), MarkerString(n);
    var r := (t + rest)[o..];
    assert m[0] == '[' && m[2] == '[';
    assert r[0] == t[o];
    if o <= 2 {
      assert r[2] == t[o + 2] == OPEN[o + 2];
    } else {
    }
  }

  /** Before the first marker with a name, its string does not occur. */
  lemma {:induction false} NoMarkerBefore(doc: Doc, i: nat, n: string, p: nat)
    requires WellFormed(doc) && Clean(doc) && ValidName(n) && i <= |doc| && Tok(n) !in doc[..i]
    requires p < |Render(MARKS, doc[..i])|
    ensures !OccursAt(Render(MARKS, doc), MarkerString(n), p)
  {
    hide Clean, ValidName, MarkerString;
    var t, rest := Show(MARKS, doc[0]), Render(MARKS, doc[1..]);
    RenderFirst(doc, i);
    hide Render, OccursAt;
    if p == 0 {
      NoMarkerFirst(doc, i, n);
    } else if p < |t| {
      NoMarkerInside(doc[0].name, rest, n, p);
    } else {
      CleanTail(doc);
      assert forall x :: x in doc[1..][..i - 1] ==> x in doc[..i];
      NoMarkerBefore(doc[1..], i - 1, n, p - |t|);
      OccursInTail(t, rest, MarkerString(n), p);
    }
  }

  lemma RenderFirst(doc: Doc, i: nat)
    requires WellFormed(doc) && i <= |doc| && Render(MARKS, doc[..i]) != ""
    ensures i > 0 && Render(MARKS, doc) == Show(MARKS, doc[0]) + Render(MARKS, doc[1..])
    ensures Render(MARKS, doc[..i]) == Show(MARKS, doc[0]) + Render(MARKS, doc[1..][..i - 1])
    ensures if doc[0].Tok? then ValidName(doc[0].name) && Show(MARKS, doc[0]) == MarkerString(doc[0].name)
            else |Show(MARKS, doc[0])| == 1
  {
    assert doc[..i][1..] == doc[1..][..i - 1];
    assert doc[..i][0] == doc[0];
  }

  lemma NoMarkerFirst(doc: Doc, i: nat, n: string)
    requires WellFormed(doc) && Clean(doc) && ValidName(n) && 0 < i <= |doc| && Tok(n) !in doc[..i]
    ensures !OccursAt(Render(MARKS, doc), MarkerString(n), 0)
  {
    hide Clean, ValidName, Render, MarkerString;
    MarkerAtStart(doc, n);
    assert Render(MARKS, doc)[0..] == Render(MARKS, doc);
    assert doc[..i][0] == doc[0];
  }

  lemma OccursInTail(head: string, tail: string, sub: string, p: nat)
    requires p >= |head|
    ensures OccursAt(head + tail, sub, p) <==> OccursAt(tail, sub, p - |head|)
  {
    if p <= |head + tail| {
      assert (head + tail)[p..] == tail[p - |head|..];
    }
  }

  lemma StartsWithMarker(doc: Doc, n: string)
    requires doc != [] && doc[0] == Tok(n)
    ensures Render(MARKS, doc) == MarkerString(n) + Render(MARKS, doc[1..])
  {
  }

  lemma AroundMarker(doc: Doc, i: nat, n: string)
    requires i < |doc| && doc[i] == Tok(n)
    ensures Render(MARKS, doc) == Render(MARKS, doc[..i]) + (MarkerString(n) + Render(MARKS, doc[i + 1..]))
  {
    hide Render, MarkerString;
    assert doc == doc[..i] + doc[i..] && doc[i..][1..] == doc[i + 1..];
    RenderAppend(MARKS, doc[..i], doc[i..]);
    StartsWithMarker(doc[i..], n);
  }

  lemma FirstMarker(doc: Doc, i: nat, n: string)
    requires WellFormed(doc) && Clean(doc) && ValidName(n) && i < |doc| && doc[i] == Tok(n) && Tok(n) !in doc[..i]
    ensures Index(Render(MARKS, doc), MarkerString(n)) == Some(|Render(MARKS, doc[..i])|)
    ensures Render(MARKS, doc)[|Render(MARKS, doc[..i])| + |MarkerString(n)|..] == Render(MARKS, doc[i + 1..])
    ensures |Render(MARKS, doc[..i])| + |MarkerString(n)| <= |Render(MARKS, doc)|
  {
    AroundMarker(doc, i, n);
    hide Render, Clean, WellFormed, ValidName, Index, MarkerString, OccursAt;
    var text, before := Render(MARKS, doc), Render(MARKS, doc[..i]);
    OccursBetween(text, before, MarkerString(n), Render(MARKS, doc[i + 1..]));
    forall p: nat | p < |before|
      ensures !OccursAt(text, MarkerString(n), p)
    {
      NoMarkerBefore(doc, i, n, p);
    }
    IndexIs(text, MarkerString(n), |before|);
  }

  // ---------------------------------------------------------------- extracting a value

  datatype Error = MissingMarker(marker: string)

  function UpToMarker(rest: string, end: string): Result<string, Error> {
    var endIndex := Index(rest, end);
    if endIndex.None? then Failure(MissingMarker(end)) else Success(rest[..endIndex.value])
  }

  function ExtractMarkerValue(text: string, start: string, end: string): Result<string, Error> {
    var startIndex := Index(text, start);
    if startIndex.None? then Failure(MissingMarker(start)) else UpToMarker(text[startIndex.value + |start|..], end)
  }

  lemma DropSlice(doc: Doc, i: nat, j: nat)
    requires i <= j <= |doc|
    ensures doc[i..][j - i..] == doc[j..] && doc[i..][..j - i] == doc[i..j]
  {
  }

  lemma {:induction false} CleanDrop(doc: Doc, i: nat)
    requires Clean(doc) && WellFormed(doc) && i <= |doc|
    ensures Clean(doc[i..]) && WellFormed(doc[i..])
    decreases i
  {
    if i == 0 {
      assert doc[0..] == doc;
    } else {
      CleanTail(doc);
      CleanDrop(doc[1..], i - 1);
      assert doc[1..][i - 1..] == doc[i..];
    }
  }

  /** The value between the first start marker with a name and the next end marker. */
  lemma ExtractsValue(doc: Doc, i: nat, j: nat, base: string)
    requires WellFormed(doc) && Clean(doc) && ValidName(base) && i < j < |doc|
    requires doc[i] == Tok(StartName(base)) && Tok(StartName(base)) !in doc[..i]
    requires doc[j] == Tok(EndName(base)) && Tok(EndName(base)) !in doc[i + 1..j]
    ensures ExtractMarkerValue(Render(MARKS, doc), MarkerString(StartName(base)), MarkerString(EndName(base)))
         == Success(Render(MARKS, doc[i + 1..j]))
  {
    hide Render, Clean, WellFormed, MarkerString, Index, ExtractMarkerValue, UpToMarker;
    var text, at := Render(MARKS, doc), |Render(MARKS, doc[..i])|;
    var rest, value := Render(MARKS, doc[i + 1..]), Render(MARKS, doc[i + 1..j]);
    var start, end := MarkerString(StartName(base)), MarkerString(EndName(base));
    assert Index(text, start) == Some(at) && at + |start| <= |text| && text[at + |start|..] == rest by {
      FirstMarker(doc, i, StartName(base));
    }
    assert UpToMarker(rest, end) == Success(value) by {
      UpToEnd(doc, i, j, base);
    }
    ExtractIs(text, start, end, at, rest, value);
  }

  lemma ExtractIs(text: string, start: string, end: string, i: nat, rest: string, value: string)
    requires Index(text, start) == Some(i) && i + |start| <= |text| && text[i + |start|..] == rest
    requires UpToMarker(rest, end) == Success(value)
    ensures ExtractMarkerValue(text, start, end) == Success(value)
  {
  }

  lemma UpToEnd(doc: Doc, i: nat, j: nat, base: string)
    requires WellFormed(doc) && Clean(doc) && ValidName(base) && i < j < |doc|
    requires doc[j] == Tok(EndName(base)) && Tok(EndName(base)) !in doc[i + 1..j]
    ensures UpToMarker(Render(MARKS, doc[i + 1..]), MarkerString(EndName(base)))
            == Success(Render(MARKS, doc[i + 1..j]))
  {
    hide Render, Clean, WellFormed, ValidName, EndName, Index;
    var rest := doc[i + 1..];
    CleanDrop(doc, i + 1);
    DropSlice(doc, i + 1, j);
    FirstMarker(rest, j - i - 1, EndName(base));
    RenderPrefix(rest, j - i - 1);
  }

  lemma RenderPrefix(doc: Doc, j: nat)
    requires j <= |doc|
    ensures |Render(MARKS, doc[..j])| <= |Render(MARKS, doc)|
            && Render(MARKS, doc)[..|Render(MARKS, doc[..j])|] == Render(MARKS, doc[..j])
  {
    assert doc == doc[..j] + doc[j..];
    RenderAppend(MARKS, doc[..j], doc[j..]);
  }

  // ---------------------------------------------------------------- building the template

  /** A line of the template: a fixed text, or a value between the markers of its base name. */
  datatype Line = Fixed(text: string) | Marked(prefix: string, base: string, value: string)

  function LineDoc(line: Line): Doc {
    match line
    case Fixed(text) => Chars(text)
    case Marked(prefix, base, value) => Chars(prefix) + [Tok(StartName(base))] + Chars(value) + [Tok(EndName(base))]
  }

  function LineText(line: Line): string {
    match line
    case Fixed(text) => text
    case Marked(prefix, base, value) => prefix + MarkerString(StartName(base)) + value + MarkerString(EndName(base))
  }

  lemma RenderLine(line: Line)
    ensures Render(MARKS, LineDoc(line)) == LineText(line)
  {
    match line
    case Fixed(text) => RenderChars(MARKS, text);
    case Marked(prefix, base, value) =>
      var a := Chars(prefix) + [Tok(StartName(base))];
      RenderChars(MARKS, prefix);
      RenderChars(MARKS, value);
      RenderAppend(MARKS, a + Chars(value), [Tok(EndName(base))]);
      RenderAppend(MARKS, a, Chars(value));
      RenderAppend(MARKS, Chars(prefix), [Tok(StartName(base))]);
      assert Render(MARKS, [Tok(StartName(base))]) == MarkerString(StartName(base));
      assert Render(MARKS, [Tok(EndName(base))]) == MarkerString(EndName(base));
  }

  function LineTexts(lines: seq<Line>): (r: seq<string>)
    ensures |r| == |lines|
  {
    if lines == [] then [] else [LineText(lines[0])] + LineTexts(lines[1..])
  }

  function Template(lines: seq<Line>): string {
    Join(LineTexts(lines))
  }

  /** The template as characters and markers. */
  function TemplateDoc(lines: seq<Line>): Doc {
    if lines == [] then []
    else if |lines| == 1 then LineDoc(lines[0])
    else LineDoc(lines[0]) + ([Chr('\n')] + TemplateDoc(lines[1..]))
  }

  lemma RenderNewline(rest: Doc)
    ensures Render(MARKS, [Chr('\n')] + rest) == "\n" + Render(MARKS, rest)
  {
    assert ([Chr('\n')] + rest)[1..] == rest;
  }

  lemma {:induction false} RenderTemplate(lines: seq<Line>)
    ensures Render(MARKS, TemplateDoc(lines)) == Template(lines)
  {
    hide LineDoc, LineText;
    if lines != [] {
      RenderLine(lines[0]);
      if |lines| > 1 {
        RenderTemplate(lines[1..]);
        RenderAppend(MARKS, LineDoc(lines[0]), [Chr('\n')] + TemplateDoc(lines[1..]));
        RenderNewline(TemplateDoc(lines[1..]));
        hide Render;
        assert LineTexts(lines)[1..] == LineTexts(lines[1..]);
      } else {
        assert LineTexts(lines) == [LineText(lines[0])];
      }
    }
  }

  /** A line whose texts hold no beginning of a marker; the prefix ends in a blank. */
  predicate LineOk(line: Line) {
    match line
    case Fixed(text) => Index(text, OPEN).None?
    case Marked(prefix, base, value) =>
      ValidName(base) && Index(prefix, OPEN).None? && Index(value, OPEN).None?
  }

  lemma CleanChars(s: string)
    requires Index(s, OPEN).None?
    ensures Clean(Chars(s)) && WellFormed(Chars(s))
  {
    forall i | 0 <= i && i + |OPEN| <= |Chars(s)|
      ensures !RunAt(Chars(s), OPEN, i)
    {
      if RunAt(Chars(s), OPEN, i) {
        OpenChars(s, i);
        assert false;
      }
    }
  }

  lemma OpenChars(s: string, i: nat)
    requires i + |OPEN| <= |s| && RunAt(Chars(s), OPEN, i)
    ensures OccursAt(s, OPEN, i)
  {
    var part := Chars(s)[i..i + |OPEN|];
    forall k | 0 <= k < |OPEN|
      ensures s[i..][k] == OPEN[k]
    {
      assert part[k] == Chars(s)[i + k] == Chr(s[i + k]);
    }
  }

  lemma WellFormedJoin(a: Doc, b: Doc)
    requires WellFormed(a) && WellFormed(b)
    ensures WellFormed(a + b)
  {
  }

  lemma CleanLine(line: Line)
    requires LineOk(line)
    ensures Clean(LineDoc(line)) && WellFormed(LineDoc(line))
  {
    match line
    case Fixed(text) => CleanChars(text);
    case Marked(prefix, base, value) =>
      var a := Chars(prefix) + [Tok(StartName(base))];
      CleanChars(prefix);
      CleanChars(value);
      CleanJoin(Chars(prefix), [Tok(StartName(base))]);
      CleanJoin(a, Chars(value));
      CleanJoin(a + Chars(value), [Tok(EndName(base))]);
      WellFormedJoin(Chars(prefix), [Tok(StartName(base))]);
      WellFormedJoin(a, Chars(value));
      WellFormedJoin(a + Chars(value), [Tok(EndName(base))]);
  }

  lemma {:induction false} CleanTemplate(lines: seq<Line>)
    requires forall i :: 0 <= i < |lines| ==> LineOk(lines[i])
    ensures Clean(TemplateDoc(lines)) && WellFormed(TemplateDoc(lines))
  {
    if lines != [] {
      CleanLine(lines[0]);
      if |lines| > 1 {
        CleanTemplate(lines[1..]);
        var rest := [Chr('\n')] + TemplateDoc(lines[1..]);
        assert Clean([Chr('\n')]);
        CleanJoin([Chr('\n')], TemplateDoc(lines[1..]));
        CleanJoin(LineDoc(lines[0]), rest);
        WellFormedJoin([Chr('\n')], TemplateDoc(lines[1..]));
        WellFormedJoin(LineDoc(lines[0]), rest);
      }
    }
  }

  predicate DistinctBases(lines: seq<Line>) {
    forall i, j :: 0 <= i < j < |lines| && lines[i].Marked? && lines[j].Marked? ==> lines[i].base != lines[j].base
  }

  lemma SuffixInjective(a: string, b: string)
    ensures StartName(a) == StartName(b) ==> a == b
    ensures EndName(a) == EndName(b) ==> a == b
    ensures StartName(a) != EndName(b)
  {
    assert StartName(a)[..|a|] == a && StartName(b)[..|b|] == b;
    assert EndName(a)[..|a|] == a && EndName(b)[..|b|] == b;
    assert StartName(a)[|StartName(a)| - 1] == 'T';
    assert EndName(b)[|EndName(b)| - 1] == 'D';
  }

  /** The place of line k in the template, and that no earlier line has its markers. */
  lemma {:induction false} PlaceOfLine(lines: seq<Line>, k: nat) returns (a: Doc, b: Doc)
    requires k < |lines| && lines[k].Marked? && DistinctBases(lines)
    ensures TemplateDoc(lines) == a + LineDoc(lines[k]) + b
    ensures Tok(StartName(lines[k].base)) !in a && Tok(EndName(lines[k].base)) !in a
  {
    hide LineDoc, StartName, EndName;
    if k == 0 {
      a := [];
      b := if |lines| == 1 then [] else [Chr('\n')] + TemplateDoc(lines[1..]);
    } else {
      var a', b' := PlaceOfLine(lines[1..], k - 1);
      a, b := LineDoc(lines[0]) + [Chr('\n')] + a', b';
      OtherLineHasOtherMarks(lines[0], lines[k].base);
      assert lines[1..][k - 1] == lines[k];
      assert LineDoc(lines[0]) + ([Chr('\n')] + (a' + LineDoc(lines[k]) + b')) == a + LineDoc(lines[k]) + b;
    }
  }

  lemma OtherLineHasOtherMarks(line: Line, base: string)
    requires line.Marked? ==> line.base != base
    ensures Tok(StartName(base)) !in LineDoc(line) && Tok(EndName(base)) !in LineDoc(line)
  {
    if line.Marked? {
      SuffixInjective(line.base, base);
      SuffixInjective(base, line.base);
    }
  }

  /** Every value can be taken back out of the unchanged template. */
  lemma TemplateValue(lines: seq<Line>, k: nat)
    requires k < |lines| && lines[k].Marked? && DistinctBases(lines)
    requires forall i :: 0 <= i < |lines| ==> LineOk(lines[i])
    ensures var start, end := MarkerString(StartName(lines[k].base)), MarkerString(EndName(lines[k].base));
            ExtractMarkerValue(Template(lines), start, end) == Success(lines[k].value)
  {
    var a, b := PlaceOfLine(lines, k);
    CleanTemplate(lines);
    RenderTemplate(lines);
    assert LineOk(lines[k]);
    ValueAtLine(TemplateDoc(lines), a, lines[k].prefix, lines[k].base, lines[k].value, b);
  }

  lemma ValueAtLine(doc: Doc, a: Doc, prefix: string, base: string, value: string, b: Doc)
    requires WellFormed(doc) && Clean(doc) && ValidName(base)
    requires doc == a + LineDoc(Marked(prefix, base, value)) + b && Tok(StartName(base)) !in a
    ensures ExtractMarkerValue(Render(MARKS, doc), MarkerString(StartName(base)), MarkerString(EndName(base)))
            == Success(value)
  {
    hide ExtractMarkerValue, Render, Clean, WellFormed, ValidName, LineDoc, MarkerString, StartName, EndName, Chars;
    LinePlaces(a, prefix, base, value, b, doc);
    RenderChars(MARKS, value);
    ExtractsValue(doc, |a| + |prefix|, |a| + |prefix| + 1 + |value|, base);
  }

  lemma LinePlaces(a: Doc, prefix: string, base: string, value: string, b: Doc, doc: Doc)
    requires doc == a + LineDoc(Marked(prefix, base, value)) + b && Tok(StartName(base)) !in a
    ensures var i := |a| + |prefix|;
            var j := i + 1 + |value|;
            && j < |doc| && doc[i] == Tok(StartName(base)) && doc[j] == Tok(EndName(base))
            && doc[i + 1..j] == Chars(value) && Tok(StartName(base)) !in doc[..i]
               && Tok(EndName(base)) !in doc[i + 1..j]
  {
    assert doc[..|a| + |prefix|] == a + Chars(prefix);
  }

  // ---------------------------------------------------------------- from the front matter and back

  datatype Field = Summary | Title | ReadWhen

  function FieldName(f: Field): string {
    match f case Summary => "SUMMARY" case Title => "TITLE" case ReadWhen => "READ_WHEN"
  }

  function BaseName(f: Field, index: nat): string {
    FieldName(f) + "_" + Itoa(index)
  }

  /** What one line of the template stands for: a text of its own or a value to translate. */
  datatype Slot = FixedSlot(text: string) | ValueSlot(field: Field, index: nat, value: string)

  function Prefix(f: Field): string {
    match f case Summary => "summary: " case Title => "title: " case ReadWhen => "  - "
  }

  function ToLine(slot: Slot): Line {
    if slot.FixedSlot? then Fixed(slot.text)
    else Marked(Prefix(slot.field), BaseName(slot.field, slot.index), slot.value)
  }

  function ToLines(slots: seq<Slot>): (lines: seq<Line>)
    ensures |lines| == |slots| && forall i :: 0 <= i < |slots| ==> lines[i] == ToLine(slots[i])
  {
    seq(|slots|, i requires 0 <= i < |slots| => ToLine(slots[i]))
  }

  function StrSlot(data: Data, key: string, f: Field): seq<Slot> {
    if key in data && data[key].Str? then [ValueSlot(f, 0, data[key].s)] else []
  }

  /** The items from number i on; an item that is not a string is shown as it prints. */
  function ItemSlots(items: seq<Value>, i: nat, show: Value -> string): seq<Slot>
    requires i <= |items|
    decreases |items| - i
  {
    if i == |items| then []
    else [if items[i].Str? then ValueSlot(ReadWhen, i, items[i].s) else FixedSlot("  - " + show(items[i]))]
         + ItemSlots(items, i + 1, show)
  }

  function ReadWhenSlots(data: Data, show: Value -> string): seq<Slot> {
    if "read_when" in data && data["read_when"].Items?
    then [FixedSlot("read_when:")] + ItemSlots(data["read_when"].items, 0, show) else []
  }

  function Slots(data: Data, show: Value -> string): seq<Slot> {
    StrSlot(data, "summary", Summary) + StrSlot(data, "title", Title) + ReadWhenSlots(data, show)
  }

  datatype Marker = Marker(field: Field, index: nat, start: string, end: string)

  function MarkerFor(f: Field, index: nat): Marker {
    Marker(f, index, MarkerString(StartName(BaseName(f, index))), MarkerString(EndName(BaseName(f, index))))
  }

  function MarkersOf(slots: seq<Slot>): seq<Marker> {
    if slots == [] then []
    else (if slots[0].ValueSlot? then [MarkerFor(slots[0].field, slots[0].index)] else []) + MarkersOf(slots[1..])
  }

  function FrontTemplate(data: Data, show: Value -> string): string {
    Template(ToLines(Slots(data, show)))
  }

  lemma JoinBeginsWith(lines: seq<string>)
    requires lines != []
    ensures lines[0] <= Join(lines)
  {
  }

  lemma FirstSlotShows(data: Data, show: Value -> string)
    requires Slots(data, show) != []
    ensures var t := LineText(ToLine(Slots(data, show)[0])); t != "" && !IsSpace(t[0])
  {
    var slot := Slots(data, show)[0];
    assert slot.FixedSlot? ==> slot == FixedSlot("read_when:");
    assert slot.ValueSlot? ==> LineText(ToLine(slot))[0] == Prefix(slot.field)[0];
  }

  /** The template is blank exactly when the front matter has no string for a summary or a
      title and no list for read_when, be it empty. */
  lemma BlankTemplateExactly(data: Data, show: Value -> string)
    ensures IsBlank(FrontTemplate(data, show)) <==> Slots(data, show) == []
  {
    var slots := Slots(data, show);
    if slots != [] {
      FirstSlotShows(data, show);
      var lines := LineTexts(ToLines(slots));
      JoinBeginsWith(lines);
      assert lines[0] == LineText(ToLine(slots[0]));
      assert Join(lines)[0] == lines[0][0];
    }
  }

  lemma {:induction false} MarkersAppend(a: seq<Slot>, b: seq<Slot>)
    ensures MarkersOf(a + b) == MarkersOf(a) + MarkersOf(b)
  {
    if a == [] {
      assert a + b == b;
    } else {
      hide MarkerFor;
      var first := if a[0].ValueSlot? then [MarkerFor(a[0].field, a[0].index)] else [];
      assert (a + b)[1..] == a[1..] + b;
      MarkersAppend(a[1..], b);
      assert MarkersOf(a + b) == first + (MarkersOf(a[1..]) + MarkersOf(b));
    }
  }

  lemma {:induction false} LineTextsAppend(a: seq<Line>, b: seq<Line>)
    ensures LineTexts(a + b) == LineTexts(a) + LineTexts(b)
  {
    if a == [] {
      assert a + b == b;
    } else {
      assert (a + b)[1..] == a[1..] + b;
      LineTextsAppend(a[1..], b);
    }
  }

  /** The lines and the markers collected so far belong to these slots. */
  ghost predicate Collected(slots: seq<Slot>, lines: seq<string>, markers: seq<Marker>) {
    lines == LineTexts(ToLines(slots)) && markers == MarkersOf(slots)
  }

  lemma CollectedMore(slots: seq<Slot>, lines: seq<string>, markers: seq<Marker>, slot: Slot)
    requires Collected(slots, lines, markers)
    ensures Collected(slots + [slot], lines + [LineText(ToLine(slot))],
                      if slot.ValueSlot? then markers + [MarkerFor(slot.field, slot.index)] else markers)
  {
    MarkersAppend(slots, [slot]);
    assert MarkersOf([slot][1..]) == [];
    LineTextsAppend(ToLines(slots), [ToLine(slot)]);
    assert ToLines(slots + [slot]) == ToLines(slots) + [ToLine(slot)];
    assert LineTexts([ToLine(slot)][1..]) == [];
  }

  /** The line and the marker of one string value. */
  method AppendValue(f: Field, index: nat, value: string, lines: seq<string>, markers: seq<Marker>,
          ghost slots: seq<Slot>)
    returns (lines': seq<string>, markers': seq<Marker>)
    requires Collected(slots, lines, markers)
    ensures Collected(slots + [ValueSlot(f, index, value)], lines', markers')
  {
    var m := MarkerFor(f, index);
    CollectedMore(slots, lines, markers, ValueSlot(f, index, value));
    markers' := markers + [m];
    lines' := lines + [Prefix(f) + m.start + value + m.end];
  }

  method AppendItems(items: seq<Value>, show: Value -> string, lines: seq<string>, markers: seq<Marker>,
          ghost slots: seq<Slot>)
    returns (lines': seq<string>, markers': seq<Marker>)
    requires Collected(slots, lines, markers)
    ensures Collected(slots + ItemSlots(items, 0, show), lines', markers')
  {
    lines', markers' := lines, markers;
    ghost var sofar := slots;
    for idx := 0 to |items|
      invariant sofar + ItemSlots(items, idx, show) == slots + ItemSlots(items, 0, show)
      invariant Collected(sofar, lines', markers')
    {
      ghost var slot :=
        if items[idx].Str? then ValueSlot(ReadWhen, idx, items[idx].s) else FixedSlot("  - " + show(items[idx]));
      ghost var before := sofar;
      sofar := sofar + [slot];
      assert sofar + ItemSlots(items, idx + 1, show) == before + ItemSlots(items, idx, show);
      if !items[idx].Str? {
        CollectedMore(before, lines', markers', slot);
        lines' := lines' + ["  - " + show(items[idx])];
        continue;
      }
      lines', markers' := AppendValue(ReadWhen, idx, items[idx].s, lines', markers', before);
    }
    assert sofar == slots + ItemSlots(items, 0, show);
  }

  method BuildFrontmatterTemplate(data: Data, show: Value -> string) returns (template: string, markers: seq<Marker>)
    ensures template == FrontTemplate(data, show) && markers == MarkersOf(Slots(data, show))
  {
    var lines: seq<string> := [];
    markers := [];
    ghost var slots := StrSlot(data, "summary", Summary);
    if "summary" in data && data["summary"].Str? {
      lines, markers := AppendValue(Summary, 0, data["summary"].s, lines, markers, []);
      assert [] + [ValueSlot(Summary, 0, data["summary"].s)] == slots;
    }
    assert Collected(slots, lines, markers);
    ghost var slots' := slots + StrSlot(data, "title", Title);
    assert slots + [] == slots;
    if "title" in data && data["title"].Str? {
      lines, markers := AppendValue(Title, 0, data["title"].s, lines, markers, slots);
    }
    assert Collected(slots', lines, markers);
    assert slots' + [] == slots';
    if "read_when" in data && data["read_when"].Items? {
      CollectedMore(slots', lines, markers, FixedSlot("read_when:"));
      lines := lines + ["read_when:"];
      lines, markers := AppendItems(data["read_when"].items, show, lines, markers, slots' + [FixedSlot("read_when:")]);
    }
    AssocSlots(slots', [FixedSlot("read_when:")], data, show);
    assert Collected(Slots(data, show), lines, markers);
    template := Join(lines);
  }

  lemma AssocSlots(slots: seq<Slot>, head: seq<Slot>, data: Data, show: Value -> string)
    ensures "read_when" in data && data["read_when"].Items? ==>
              slots + head + ItemSlots(data["read_when"].items, 0, show)
                == slots + (head + ItemSlots(data["read_when"].items, 0, show))
  {
  }

  /** Blank strings are added until there is an item with the index. */
  function PadItems(items: seq<Value>, index: nat): (r: seq<Value>)
    ensures |r| > index && items <= r
    decreases index + 1 - |items|
  {
    if |items| <= index then PadItems(items + [Str("")], index) else items
  }

  function SetReadWhen(data: Data, index: nat, value: string): seq<Value> {
    var items := if "read_when" in data && data["read_when"].Items? then data["read_when"].items else [];
    PadItems(items, index)[index := Str(value)]
  }

  /** The items that are there, or none if there is no list. */
  predicate AreItems(data: Data, items: seq<Value>) {
    if "read_when" in data && data["read_when"].Items? then data["read_when"] == Items(items) else items == []
  }

  method SetReadWhenValue(data: Data, index: nat, value: string) returns (readWhen: seq<Value>)
    ensures readWhen == SetReadWhen(data, index, value)
    ensures forall items :: AreItems(data, items) ==>
              && |readWhen| == (if index < |items| then |items| else index + 1)
              && forall k :: 0 <= k < |readWhen| ==>
                   readWhen[k] == if k == index then Str(value) else if k < |items| then items[k] else Str("")
  {
    readWhen := if "read_when" in data && data["read_when"].Items? then data["read_when"].items else [];
    ghost var padded := PadItems(readWhen, index);
    while |readWhen| <= index
      invariant PadItems(readWhen, index) == padded
      invariant forall items :: AreItems(data, items) ==>
                  && |items| <= |readWhen| && (|readWhen| > index ==> |readWhen| == |items| || |readWhen| == index + 1)
                  && forall k :: 0 <= k < |readWhen| ==> readWhen[k] == if k < |items| then items[k] else Str("")
      decreases index + 1 - |readWhen|
    {
      readWhen := readWhen + [Str("")];
    }
    readWhen := readWhen[index := Str(value)];
  }

  function SetField(data: Data, f: Field, index: nat, value: string): Data {
    match f
    case Summary => data["summary" := Str(value)]
    case Title => data["title" := Str(value)]
    case ReadWhen => data["read_when" := Items(SetReadWhen(data, index, value))]
  }

  function Apply(data: Data, markers: seq<Marker>, front: string): Result<Data, Error>
    decreases |markers|
  {
    if markers == [] then Success(data)
    else
      var value :- ExtractMarkerValue(front, markers[0].start, markers[0].end);
      Apply(SetField(data, markers[0].field, markers[0].index, TrimSpace(value)), markers[1..], front)
  }

  method ApplyFrontmatterTranslations(data: Data, markers: seq<Marker>, front: string) returns (r: Result<Data, Error>)
    ensures r == Apply(data, markers, front)
  {
    var out := data;
    for k := 0 to |markers|
      invariant Apply(out, markers[k..], front) == Apply(data, markers, front)
    {
      var m := markers[k];
      assert markers[k..][0] == m && markers[k..][1..] == markers[k + 1..];
      var extracted :- ExtractMarkerValue(front, m.start, m.end);
      var value := TrimSpace(extracted);
      match m.field
      case Summary => out := out["summary" := Str(value)];
      case Title => out := out["title" := Str(value)];
      case ReadWhen =>
        var readWhen := SetReadWhenValue(out, m.index, value);
        out := out["read_when" := Items(readWhen)];
    }
    r := Success(out);
  }

  // ---------------------------------------------------------------- the unchanged template

  lemma BaseNameValid(f: Field, index: nat)
    ensures ValidName(BaseName(f, index))
  {
    assert '[' !in FieldName(f) + "_" && ']' !in FieldName(f) + "_";
  }

  lemma BaseNameInjective(f: Field, i: nat, g: Field, j: nat)
    requires BaseName(f, i) == BaseName(g, j)
    ensures f == g && i == j
  {
    var a, b := BaseName(f, i), BaseName(g, j);
    assert a[0] == FieldName(f)[0] && b[0] == FieldName(g)[0];
    assert f == g;
    var n := |FieldName(f)| + 1;
    assert a[n..] == Itoa(i) && b[n..] == Itoa(j);
    ItoaInjective(i, j);
  }

  predicate DistinctSlots(slots: seq<Slot>) {
    forall i, j :: 0 <= i < j < |slots| && slots[i].ValueSlot? && slots[j].ValueSlot? ==>
      slots[i].field != slots[j].field || slots[i].index != slots[j].index
  }

  lemma DistinctSlotsLines(slots: seq<Slot>)
    requires DistinctSlots(slots)
    ensures DistinctBases(ToLines(slots))
  {
    forall i, j | 0 <= i < j < |slots| && slots[i].ValueSlot? && slots[j].ValueSlot?
      ensures BaseName(slots[i].field, slots[i].index) != BaseName(slots[j].field, slots[j].index)
    {
      if BaseName(slots[i].field, slots[i].index) == BaseName(slots[j].field, slots[j].index) {
        BaseNameInjective(slots[i].field, slots[i].index, slots[j].field, slots[j].index);
        assert false;
      }
    }
  }

  lemma {:induction false} ItemSlotsShape(items: seq<Value>, i: nat, show: Value -> string)
    requires i <= |items|
    ensures |ItemSlots(items, i, show)| == |items| - i
    ensures forall k :: 0 <= k < |items| - i && ItemSlots(items, i, show)[k].ValueSlot? ==>
              ItemSlots(items, i, show)[k].field == ReadWhen && ItemSlots(items, i, show)[k].index == i + k
    decreases |items| - i
  {
    if i < |items| {
      ItemSlotsShape(items, i + 1, show);
    }
  }

  lemma SlotsDistinct(data: Data, show: Value -> string)
    ensures DistinctSlots(Slots(data, show))
  {
    if "read_when" in data && data["read_when"].Items? {
      ItemSlotsShape(data["read_when"].items, 0, show);
    }
  }

  /** Filling the slots with their own trimmed values. */
  function Refill(data: Data, slots: seq<Slot>): Data
    decreases |slots|
  {
    if slots == [] then data
    else if slots[0].FixedSlot? then Refill(data, slots[1..])
    else Refill(SetField(data, slots[0].field, slots[0].index, TrimSpace(slots[0].value)), slots[1..])
  }

  /** Applying the marker of slot k to the unchanged template sets the slot's own value. */
  lemma ApplyOne(data: Data, slots: seq<Slot>, k: nat, more: seq<Marker>)
    requires k < |slots| && slots[k].ValueSlot? && DistinctSlots(slots)
    requires forall i :: 0 <= i < |slots| ==> LineOk(ToLine(slots[i]))
    ensures Apply(data, [MarkerFor(slots[k].field, slots[k].index)] + more, Template(ToLines(slots)))
         == Apply(SetField(data, slots[k].field, slots[k].index, TrimSpace(slots[k].value)), more,
           Template(ToLines(slots)))
  {
    var m := MarkerFor(slots[k].field, slots[k].index);
    var all := [m] + more;
    DistinctSlotsLines(slots);
    TemplateValue(ToLines(slots), k);
    assert all[0] == m && all[1..] == more;
  }

  lemma FirstSlot(slots: seq<Slot>, k: nat, data: Data)
    requires k < |slots|
    ensures slots[k].FixedSlot? ==>
              && MarkersOf(slots[k..]) == MarkersOf(slots[k + 1..])
              && Refill(data, slots[k..]) == Refill(data, slots[k + 1..])
    ensures slots[k].ValueSlot? ==>
              && MarkersOf(slots[k..]) == [MarkerFor(slots[k].field, slots[k].index)] + MarkersOf(slots[k + 1..])
              && Refill(data, slots[k..])
              == Refill(SetField(data, slots[k].field, slots[k].index, TrimSpace(slots[k].value)), slots[k + 1..])
  {
    var rest := slots[k..];
    assert rest[0] == slots[k] && rest[1..] == slots[k + 1..];
  }

  lemma {:induction false} ApplyIsRefill(data: Data, slots: seq<Slot>, k: nat)
    requires k <= |slots| && DistinctSlots(slots) && forall i :: 0 <= i < |slots| ==> LineOk(ToLine(slots[i]))
    ensures Apply(data, MarkersOf(slots[k..]), Template(ToLines(slots))) == Success(Refill(data, slots[k..]))
    decreases |slots| - k
  {
    if k < |slots| {
      var slot := slots[k];
      FirstSlot(slots, k, data);
      if slot.FixedSlot? {
        ApplyIsRefill(data, slots, k + 1);
      } else {
        ApplyOne(data, slots, k, MarkersOf(slots[k + 1..]));
        ApplyIsRefill(SetField(data, slot.field, slot.index, TrimSpace(slot.value)), slots, k + 1);
      }
    }
  }

  function SummaryOf(text: string): Data {
    map["summary" := Str(text)]
  }

  /** A reply that gives another summary between the same markers sets it. */
  lemma SummaryReplied(before: string, text: string, show: Value -> string)
    requires Index(text, OPEN).None?
    ensures Apply(SummaryOf(before), MarkersOf(Slots(SummaryOf(before), show)), FrontTemplate(SummaryOf(text), show))
         == Success(SummaryOf(TrimSpace(text)))
  {
    var m, after := MarkerFor(Summary, 0), SetField(SummaryOf(before), Summary, 0, TrimSpace(text));
    assert after == SummaryOf(TrimSpace(text));
    assert Apply(after, [], FrontTemplate(SummaryOf(text), show)) == Success(after);
    hide Index, Template, MarkerFor, TrimSpace, Slots, MarkersOf, LineOk, ToLine, ToLines, ExtractMarkerValue, Apply,
      SummaryOf, SetField;
    var slots := Slots(SummaryOf(text), show);
    OneMarker(before, show);
    SummarySlots(text, show);
    ValueSlotOk(Summary, 0, text);
    ApplyOne(SummaryOf(before), slots, 0, []);
    assert [m] + [] == [m];
  }

  lemma SummarySlots(text: string, show: Value -> string)
    ensures Slots(SummaryOf(text), show) == [ValueSlot(Summary, 0, text)]
  {
  }

  lemma ValueSlotOk(f: Field, index: nat, text: string)
    requires Index(text, OPEN).None?
    ensures LineOk(ToLine(ValueSlot(f, index, text)))
  {
    hide Index;
    BaseNameValid(f, index);
    NoOpenInPrefix(f);
  }

  lemma OneMarker(text: string, show: Value -> string)
    ensures MarkersOf(Slots(SummaryOf(text), show)) == [MarkerFor(Summary, 0)]
  {
    SummarySlots(text, show);
    assert Slots(SummaryOf(text), show)[1..] == [];
  }

  lemma SummaryTemplate(text: string, show: Value -> string)
    ensures FrontTemplate(SummaryOf(text), show) == LineText(ToLine(ValueSlot(Summary, 0, text)))
  {
    var slots := Slots(SummaryOf(text), show);
    SummarySlots(text, show);
    assert ToLines(slots) == [ToLine(slots[0])];
    assert LineTexts(ToLines(slots)) == [LineText(ToLine(slots[0]))];
  }

  lemma NoAngleInTemplate(text: string, show: Value -> string)
    requires '<' !in text
    ensures '<' !in FrontTemplate(SummaryOf(text), show) && !IsBlank(FrontTemplate(SummaryOf(text), show))
  {
    SummaryTemplate(text, show);
    var d := Itoa(0);
    assert '<' !in d;
    assert '<' !in FieldName(Summary) + "_" + d;
    assert FrontTemplate(SummaryOf(text), show)[0] == 's';
  }

  function TrimItem(v: Value): Value {
    if v.Str? then Str(TrimSpace(v.s)) else v
  }

  function TrimItems(items: seq<Value>): (r: seq<Value>)
    ensures |r| == |items| && forall i :: 0 <= i < |items| ==> r[i] == TrimItem(items[i])
  {
    seq(|items|, i requires 0 <= i < |items| => TrimItem(items[i]))
  }

  /** The front matter with the translatable strings trimmed and all else as it was. */
  function Trimmed(data: Data): (r: Data)
    ensures r.Keys == data.Keys
  {
    map k | k in data ::
      if k == "summary" || k == "title" then TrimItem(data[k])
      else if k == "read_when" && data[k].Items? then Items(TrimItems(data[k].items))
      else data[k]
  }

  lemma {:induction false} RefillItems(data: Data, items: seq<Value>, i: nat, show: Value -> string, now: seq<Value>)
    requires i <= |items| && |now| == |items| && "read_when" in data && data["read_when"] == Items(now)
    requires forall k :: 0 <= k < |items| ==> now[k] == if k < i then TrimItem(items[k]) else items[k]
    ensures Refill(data, ItemSlots(items, i, show)) == data["read_when" := Items(TrimItems(items))]
    decreases |items| - i
  {
    hide TrimItems, TrimSpace;
    if i == |items| {
      assert now == TrimItems(items);
      assert data["read_when" := Items(now)] == data;
    } else {
      var slots := ItemSlots(items, i, show);
      assert slots[1..] == ItemSlots(items, i + 1, show);
      if items[i].Str? {
        var now' := now[i := TrimItem(items[i])];
        assert SetReadWhen(data, i, TrimSpace(items[i].s)) == now';
        RefillItems(data["read_when" := Items(now')], items, i + 1, show, now');
        assert data["read_when" := Items(now')]["read_when" := Items(TrimItems(items))]
          == data["read_when" := Items(TrimItems(items))];
      } else {
        RefillItems(data, items, i + 1, show, now);
      }
    }
  }

  lemma {:induction false} RefillAppend(data: Data, a: seq<Slot>, b: seq<Slot>)
    ensures Refill(data, a + b) == Refill(Refill(data, a), b)
    decreases |a|
  {
    if a == [] {
      assert a + b == b;
    } else {
      assert (a + b)[1..] == a[1..] + b;
      var data' := if a[0].FixedSlot? then data
                   else SetField(data, a[0].field, a[0].index, TrimSpace(a[0].value));
      RefillAppend(data', a[1..], b);
    }
  }

  lemma RefillStr(data: Data, key: string, f: Field)
    requires (f.Summary? && key == "summary") || (f.Title? && key == "title")
    ensures Refill(data, StrSlot(data, key, f)) == if key in data then data[key := TrimItem(data[key])] else data
  {
    if key in data {
      if data[key].Str? {
        var slot := ValueSlot(f, 0, data[key].s);
        assert Refill(SetField(data, f, 0, TrimSpace(data[key].s)), [slot][1..])
          == SetField(data, f, 0, TrimSpace(data[key].s));
      } else {
        assert data[key := data[key]] == data;
      }
    }
  }

  lemma RefillReadWhen(data: Data, show: Value -> string)
    ensures Refill(data, ReadWhenSlots(data, show))
         == if "read_when" in data && data["read_when"].Items?
           then data["read_when" := Items(TrimItems(data["read_when"].items))] else data
  {
    if "read_when" in data && data["read_when"].Items? {
      var items := data["read_when"].items;
      assert ([FixedSlot("read_when:")] + ItemSlots(items, 0, show))[1..] == ItemSlots(items, 0, show);
      RefillItems(data, items, 0, show, items);
    }
  }

  function TrimKey(data: Data, key: string): Data {
    if key in data then data[key := TrimItem(data[key])] else data
  }

  function TrimReadWhen(data: Data): Data {
    if "read_when" in data && data["read_when"].Items?
    then data["read_when" := Items(TrimItems(data["read_when"].items))] else data
  }

  lemma TrimmedByKeys(data: Data)
    ensures TrimReadWhen(TrimKey(TrimKey(data, "summary"), "title")) == Trimmed(data)
  {
  }

  lemma RefillIsTrimmed(data: Data, show: Value -> string)
    ensures Refill(data, Slots(data, show)) == Trimmed(data)
  {
    hide Refill, TrimItem, TrimSpace, ItemSlots, Trimmed;
    var a, b, c := StrSlot(data, "summary", Summary), StrSlot(data, "title", Title), ReadWhenSlots(data, show);
    var d1 := TrimKey(data, "summary");
    var d2 := TrimKey(d1, "title");
    RefillAppend(data, a + b, c);
    RefillAppend(data, a, b);
    RefillStr(data, "summary", Summary);
    assert b == StrSlot(d1, "title", Title);
    RefillStr(d1, "title", Title);
    assert c == ReadWhenSlots(d2, show);
    RefillReadWhen(d2, show);
    TrimmedByKeys(data);
  }

  /** No value that the template shows holds the beginning of a marker. */
  predicate NoMarkersInValues(data: Data, show: Value -> string) {
    var slots := Slots(data, show);
    forall i :: 0 <= i < |slots| ==> Index(if slots[i].FixedSlot? then slots[i].text else slots[i].value, OPEN).None?
  }

  lemma NoOpenInPrefix(f: Field)
    ensures Index(Prefix(f), OPEN).None?
  {
    assert '[' !in Prefix(f);
    NotWithoutItsHead(Prefix(f), OPEN);
  }

  /** Applying the unchanged template gives back the front matter, the translatable strings
      trimmed and every other key and item as it was, for any number of items. */
  lemma UnchangedTemplate(data: Data, show: Value -> string)
    requires NoMarkersInValues(data, show)
    ensures Apply(data, MarkersOf(Slots(data, show)), FrontTemplate(data, show)) == Success(Trimmed(data))
  {
    var slots := Slots(data, show);
    forall i | 0 <= i < |slots|
      ensures LineOk(ToLine(slots[i]))
    {
      if slots[i].ValueSlot? {
        BaseNameValid(slots[i].field, slots[i].index);
        NoOpenInPrefix(slots[i].field);
      }
    }
    SlotsDistinct(data, show);
    ApplyIsRefill(data, slots, 0);
    assert slots[0..] == slots;
    RefillIsTrimmed(data, show);
  }

  // ---------------------------------------------------------------- what the model is shown, and what is taken

  /** The template of a document with a summary, a title and a list of a string and something
      else. The places in the list are counted with the items that are no strings. */
  lemma TemplateReads(summary: string, title: string, item: Value, when: string, rest: Data, show: Value -> string)
    requires !item.Str?
    ensures var data := rest["summary" := Str(summary)]["title" := Str(title)]
                        ["read_when" := Items([item, Str(when)])];
            FrontTemplate(data, show) ==
              Join(["summary: " + "[[[FM_SUMMARY_0_START]]]" + summary + "[[[FM_SUMMARY_0_END]]]",
                    "title: " + "[[[FM_TITLE_0_START]]]" + title + "[[[FM_TITLE_0_END]]]",
                    "read_when:",
                    "  - " + show(item),
                    "  - " + "[[[FM_READ_WHEN_1_START]]]" + when + "[[[FM_READ_WHEN_1_END]]]"])
  {
    var data := rest["summary" := Str(summary)]["title" := Str(title)]["read_when" := Items([item, Str(when)])];
    var slots := [ValueSlot(Summary, 0, summary), ValueSlot(Title, 0, title), FixedSlot("read_when:"),
                  FixedSlot("  - " + show(item)), ValueSlot(ReadWhen, 1, when)];
    SlotsOfFive(data, summary, title, item, when, show);
    TextOfFive(slots, summary, title, item, when, show);
  }

  lemma SlotsOfFive(data: Data, summary: string, title: string, item: Value, when: string, show: Value -> string)
    requires !item.Str? && "summary" in data && "title" in data && "read_when" in data
    requires data["summary"] == Str(summary) && data["title"] == Str(title)
    requires data["read_when"] == Items([item, Str(when)])
    ensures Slots(data, show) == [ValueSlot(Summary, 0, summary), ValueSlot(Title, 0, title), FixedSlot("read_when:"),
                                  FixedSlot("  - " + show(item)), ValueSlot(ReadWhen, 1, when)]
  {
    var items := [item, Str(when)];
    assert ItemSlots(items, 2, show) == [];
    assert ItemSlots(items, 1, show) == [ValueSlot(ReadWhen, 1, when)];
    assert ItemSlots(items, 0, show) == [FixedSlot("  - " + show(item)), ValueSlot(ReadWhen, 1, when)];
  }

  lemma BaseNames()
    ensures BaseName(Summary, 0) == "SUMMARY_0" && BaseName(Title, 0) == "TITLE_0"
    ensures BaseName(ReadWhen, 1) == "READ_WHEN_1"
  {
    assert Itoa(0) == "0" && Itoa(1) == "1";
  }

  lemma {:induction false} LineTextsEach(lines: seq<Line>)
    ensures forall k :: 0 <= k < |lines| ==> LineTexts(lines)[k] == LineText(lines[k])
  {
    if lines != [] {
      LineTextsEach(lines[1..]);
      hide LineText;
      assert forall k :: 1 <= k < |lines| ==> lines[k] == lines[1..][k - 1];
    }
  }

  lemma TextOfFive(slots: seq<Slot>, summary: string, title: string, item: Value, when: string, show: Value -> string)
    requires slots == [ValueSlot(Summary, 0, summary), ValueSlot(Title, 0, title), FixedSlot("read_when:"),
                       FixedSlot("  - " + show(item)), ValueSlot(ReadWhen, 1, when)]
    ensures Template(ToLines(slots)) ==
              Join(["summary: " + "[[[FM_SUMMARY_0_START]]]" + summary + "[[[FM_SUMMARY_0_END]]]",
                    "title: " + "[[[FM_TITLE_0_START]]]" + title + "[[[FM_TITLE_0_END]]]",
                    "read_when:",
                    "  - " + show(item),
                    "  - " + "[[[FM_READ_WHEN_1_START]]]" + when + "[[[FM_READ_WHEN_1_END]]]"])
  {
    LineTextsEach(ToLines(slots));
    SummaryLine(summary);
    TitleLine(title);
    WhenLine(when);
    hide LineTexts, Join, MarkerString, BaseName, Prefix;
    var l0, l1, l4 := LineText(ToLine(slots[0])), LineText(ToLine(slots[1])), LineText(ToLine(slots[4]));
    assert LineTexts(ToLines(slots)) == [l0, l1, "read_when:", "  - " + show(item), l4];
  }

  lemma SummaryLine(value: string)
    ensures LineText(ToLine(ValueSlot(Summary, 0, value)))
         == "summary: " + "[[[FM_SUMMARY_0_START]]]" + value + "[[[FM_SUMMARY_0_END]]]"
  {
    BaseNames();
    hide BaseName;
    assert MarkerString(StartName("SUMMARY_0")) == "[[[FM_SUMMARY_0_START]]]";
    assert MarkerString(EndName("SUMMARY_0")) == "[[[FM_SUMMARY_0_END]]]";
    hide MarkerString, StartName, EndName;
  }

  lemma TitleLine(value: string)
    ensures LineText(ToLine(ValueSlot(Title, 0, value)))
         == "title: " + "[[[FM_TITLE_0_START]]]" + value + "[[[FM_TITLE_0_END]]]"
  {
    BaseNames();
    hide BaseName;
    assert MarkerString(StartName("TITLE_0")) == "[[[FM_TITLE_0_START]]]";
    assert MarkerString(EndName("TITLE_0")) == "[[[FM_TITLE_0_END]]]";
    hide MarkerString, StartName, EndName;
  }

  lemma WhenLine(value: string)
    ensures LineText(ToLine(ValueSlot(ReadWhen, 1, value)))
         == "  - " + "[[[FM_READ_WHEN_1_START]]]" + value + "[[[FM_READ_WHEN_1_END]]]"
  {
    BaseNames();
    hide BaseName;
    assert MarkerString(StartName("READ_WHEN_1")) == "[[[FM_READ_WHEN_1_START]]]";
    assert MarkerString(EndName("READ_WHEN_1")) == "[[[FM_READ_WHEN_1_END]]]";
    hide MarkerString, StartName, EndName;
  }

  /** The start marker, and somewhere after it the end marker. */
  ghost predicate HoldsBoth(text: string, start: string, end: string) {
    exists i: nat, j: nat :: i + |start| <= j && OccursAt(text, start, i) && OccursAt(text, end, j)
  }

  lemma OccursInRest(text: string, from: nat, sub: string, k: nat)
    requires from <= |text|
    ensures OccursAt(text[from..], sub, k) <==> OccursAt(text, sub, from + k)
  {
    if from + k <= |text| {
      assert text[from..][k..] == text[from + k..];
    }
  }

  lemma EndInRest(text: string, start: string, end: string, first: nat)
    requires first + |start| <= |text| && OccursAt(text, start, first)
    requires forall i: nat :: i < first ==> !OccursAt(text, start, i)
    ensures HoldsBoth(text, start, end) <==> Contains(text[first + |start|..], end)
  {
    hide OccursAt;
    var from := first + |start|;
    if i: nat, j: nat :| i + |start| <= j && OccursAt(text, start, i) && OccursAt(text, end, j) {
      OccursInRest(text, from, end, j - from);
    }
    if k: nat :| OccursAt(text[from..], end, k) {
      OccursInRest(text, from, end, k);
    }
  }

  lemma ExtractsExactly(text: string, start: string, end: string)
    ensures ExtractMarkerValue(text, start, end).Success? <==> HoldsBoth(text, start, end)
  {
    hide OccursAt;
    var i := Index(text, start);
    if i.Some? {
      EndInRest(text, start, end, i.value);
    }
    hide Contains;
  }

  ghost predicate HoldsAll(text: string, markers: seq<Marker>) {
    forall k :: 0 <= k < |markers| ==> HoldsBoth(text, markers[k].start, markers[k].end)
  }

  lemma HoldsAllCons(text: string, markers: seq<Marker>)
    requires markers != []
    ensures HoldsAll(text, markers) <==>
            HoldsBoth(text, markers[0].start, markers[0].end) && HoldsAll(text, markers[1..])
  {
    hide HoldsBoth;
    var rest := markers[1..];
    assert forall k :: 0 <= k < |rest| ==> rest[k] == markers[k + 1];
    assert forall k :: 1 <= k < |markers| ==> markers[k] == rest[k - 1];
  }

  /** A translated front matter is taken exactly when it holds all the markers. */
  lemma {:induction false} AppliesExactly(data: Data, markers: seq<Marker>, front: string)
    ensures Apply(data, markers, front).Success? <==> HoldsAll(front, markers)
    decreases |markers|
  {
    if markers != [] {
      var m := markers[0];
      ExtractsExactly(front, m.start, m.end);
      HoldsAllCons(front, markers);
      var value := ExtractMarkerValue(front, m.start, m.end);
      hide HoldsBoth, HoldsAll, ExtractMarkerValue, SetField, TrimSpace;
      if value.Success? {
        AppliesExactly(SetField(data, m.field, m.index, TrimSpace(value.value)), markers[1..], front);
      }
    }
  }
}
