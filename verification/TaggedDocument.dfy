/** The tagged form in which a whole document is sent to the model and comes back. */
module TaggedDocument {
  import opened Wrappers
  import opened Text

  const FRONT_START := "<frontmatter>"
  const FRONT_END := "</frontmatter>"
  const BODY_START := "<body>"
  const BODY_END := "</body>"

  datatype Error = MissingTag(tag: string) | TextOutsideSections

  datatype Sections = Sections(front: string, body: string)

  function FormatTagged(front: string, body: string): string {
    FRONT_START + "\n" + front + "\n" + FRONT_END + "\n" + BODY_START + "\n" + body + "\n" + BODY_END
  }

  function TrimPrefixNewline(s: string): (r: string)
    ensures |r| <= |s|
  {
    if "\n" <= s then s[1..] else s
  }

  function TrimSuffixNewline(s: string): (r: string)
    ensures |r| <= |s|
  {
    if s != "" && s[|s| - 1] == '\n' then s[..|s| - 1] else s
  }

  function TrimTagNewlines(s: string): (r: string)
    ensures |r| <= |s|
  {
    TrimSuffixNewline(TrimPrefixNewline(s))
  }

  /** What precedes a section, its text, and what follows from its closing tag on. */
  datatype Cut = Cut(before: string, inner: string, rest: string)

  function CloseSection(before: string, inner: string, close: string): Result<Cut, Error> {
    var end := Index(inner, close);
    if end.None? then Failure(MissingTag(close)) else Success(Cut(before, inner[..end.value], inner[end.value..]))
  }

  /** The text between the tags, cut at the first closing tag. */
  function Section(text: string, open: string, close: string): Result<Cut, Error> {
    var start := Index(text, open);
    if start.None? then Failure(MissingTag(open))
    else CloseSection(text[..start.value], text[start.value + |open|..], close)
  }

  function ParseTagged(text: string): Result<Sections, Error> {
    var front :- Section(text, FRONT_START, FRONT_END);
    var body :- Section(front.rest, BODY_START, BODY_END);
    var prefix := TrimSpace(front.before);
    var suffix := TrimSpace(if BODY_END <= body.rest then body.rest[|BODY_END|..] else "");
    if prefix != "" || suffix != "" then Failure(TextOutsideSections)
    else Success(Sections(TrimTagNewlines(front.inner), TrimTagNewlines(body.inner)))
  }

  // ---------------------------------------------------------------- where tags are found

  predicate IsTag(tag: string) {
    tag != "" && tag[0] == '<' && '<' !in tag[1..] && '\n' !in tag
  }

  /** A tag is found where it is written, unless it occurs in the text before. */
  lemma FirstTag(x: string, tag: string, rest: string)
    requires IsTag(tag) && !Contains(x, tag)
    ensures Index(x + (tag + rest), tag) == Some(|x|)
  {
    var s := x + (tag + rest);
    assert s[|x|..] == tag + rest;
    assert OccursAt(s, tag, |x|);
    forall j: nat | j < |x|
      ensures !OccursAt(s, tag, j)
    {
      if OccursAt(s, tag, j) {
        TagBefore(x, tag, rest, j);
        assert false;
      }
    }
    IndexIs(s, tag, |x|);
  }

  /** A string that starts with a tag has no other bracket inside it. */
  lemma TagStartsOnce(tag: string, k: nat, t: string)
    requires IsTag(tag) && 0 < k < |tag| && tag <= t
    ensures t[k] != '<'
  {
    assert tag[k] == tag[1..][k - 1] == t[k];
  }

  lemma TagHasNoNewline(tag: string, k: nat, t: string)
    requires IsTag(tag) && k < |tag| && tag <= t
    ensures t[k] != '\n'
  {
    assert tag[k] == t[k];
  }

  lemma TagBefore(x: string, tag: string, rest: string, j: nat)
    requires IsTag(tag) && j < |x| && OccursAt(x + (tag + rest), tag, j)
    ensures Contains(x, tag)
  {
    var s := x + (tag + rest);
    var t := s[j..];
    var k: nat := |x| - j;
    if j + |tag| <= |x| {
      assert x[j..][..|tag|] == t[..|tag|];
      assert OccursAt(x, tag, j);
    } else {
      TagStartsOnce(tag, k, t);
      assert false;
    }
  }

  lemma NewlinesAreNoTag(x: string, tag: string)
    requires IsTag(tag)
    ensures Contains("\n" + x + "\n", tag) <==> Contains(x, tag)
  {
    var s := "\n" + x + "\n";
    if Contains(s, tag) {
      var j: nat :| OccursAt(s, tag, j);
      var t := s[j..];
      assert t[0] == tag[0] == '<';
      assert j > 0;
      if j + |tag| == |s| {
        TagHasNoNewline(tag, |tag| - 1, t);
        assert false;
      }
      assert x[j - 1..][..|tag|] == t[..|tag|];
      assert OccursAt(x, tag, j - 1);
    }
    if Contains(x, tag) {
      var j: nat :| OccursAt(x, tag, j);
      assert s[j + 1..] == x[j..] + "\n";
      assert OccursAt(s, tag, j + 1);
    }
  }

  lemma TrimTagNewlinesUndo(x: string)
    ensures TrimTagNewlines("\n" + x + "\n") == x
  {
    assert ("\n" + x + "\n")[1..] == x + "\n";
    assert (x + "\n")[..|x|] == x;
  }

  lemma SectionFrom(before: string, open: string, close: string, inner: string)
    requires Index(before + (open + inner), open) == Some(|before|)
    ensures Section(before + (open + inner), open, close) == CloseSection(before, inner, close)
  {
    hide Index;
    var text := before + (open + inner);
    assert text[..|before|] == before;
    assert text[|before| + |open|..] == inner;
  }

  /** A section whose text lacks the closing tag is cut out whole. */
  lemma SectionIs(before: string, open: string, close: string, x: string, after: string)
    requires IsTag(open) && IsTag(close) && !Contains(before, open) && !Contains(x, close)
    ensures Section(before + (open + (("\n" + x + "\n") + (close + after))), open, close)
         == Success(Cut(before, "\n" + x + "\n", close + after))
  {
    var padded := "\n" + x + "\n";
    NewlinesAreNoTag(x, close);
    FirstTag(before, open, padded + (close + after));
    SectionFrom(before, open, close, padded + (close + after));
    ClosePadded(before, padded, close, after);
  }

  lemma ClosePadded(before: string, padded: string, close: string, after: string)
    requires IsTag(close) && !Contains(padded, close)
    ensures CloseSection(before, padded + (close + after), close) == Success(Cut(before, padded, close + after))
  {
    FirstTag(padded, close, after);
    var inner := padded + (close + after);
    assert inner[..|padded|] == padded;
    assert inner[|padded|..] == close + after;
  }

  /** A section whose text holds the closing tag is cut short. */
  lemma SectionTooShort(before: string, open: string, close: string, x: string, after: string)
    requires IsTag(open) && |close| >= 2 && !Contains(before, open) && Contains(x, close)
    ensures var r := Section(before + (open + (("\n" + x + "\n") + (close + after))), open, close);
            r.Success? && |r.value.inner| < |x|
  {
    var inner := ("\n" + x + "\n") + (close + after);
    FirstTag(before, open, inner);
    SectionFrom(before, open, close, inner);
    CloseTooShort(before, x, close, after);
  }

  lemma CloseTooShort(before: string, x: string, close: string, after: string)
    requires |close| >= 2 && Contains(x, close)
    ensures var r := CloseSection(before, ("\n" + x + "\n") + (close + after), close);
            r.Success? && |r.value.inner| < |x|
  {
    var inner := ("\n" + x + "\n") + (close + after);
    assert inner == "\n" + x + ("\n" + (close + after));
    var end := EarlyEnd(x, close, inner, "\n" + (close + after));
  }

  lemma EarlyEnd(x: string, close: string, inner: string, after: string) returns (end: nat)
    requires |close| >= 2 && Contains(x, close) && inner == "\n" + x + after
    ensures Index(inner, close) == Some(end) && end < |x| && end <= |inner|
  {
    var j: nat :| OccursAt(x, close, j);
    assert inner[j + 1..] == x[j..] + after;
    assert OccursAt(inner, close, j + 1);
    end := Index(inner, close).value;
  }

  lemma NotBodyStart(i: nat)
    ensures !OccursAt(FRONT_END + "\n", BODY_START, i)
  {
    var s := FRONT_END + "\n";
    if i < |s| {
      assert s[i..][0] == s[i];
      assert i == 0 ==> s[i..][1] == '/';
    }
  }

  lemma TagsAreTags()
    ensures IsTag(FRONT_START) && IsTag(FRONT_END) && IsTag(BODY_START) && IsTag(BODY_END)
    ensures !Contains("", FRONT_START) && !Contains(FRONT_END + "\n", BODY_START)
  {
    forall i: nat
      ensures !OccursAt(FRONT_END + "\n", BODY_START, i) && !OccursAt("", FRONT_START, i)
    {
      NotBodyStart(i);
    }
  }

  /** The tagged form, taken apart at its tags. */
  lemma FormatShape(front: string, body: string)
    ensures FormatTagged(front, body)
         == "" + (FRONT_START
           + (("\n" + front + "\n") + (FRONT_END + ("\n" + (BODY_START + (("\n" + body + "\n") + (BODY_END + "")))))))
    ensures FRONT_END + ("\n" + (BODY_START + (("\n" + body + "\n") + (BODY_END + ""))))
         == (FRONT_END + "\n") + (BODY_START + (("\n" + body + "\n") + (BODY_END + "")))
  {
  }

  /** The text is read as these two parts. */
  predicate ParsesTo(text: string, front: string, body: string) {
    var r := ParseTagged(text);
    r.Success? && r.value.front == front && r.value.body == body
  }

  /** Parsing gives back the two parts, blank lines and all, exactly when neither holds its
      own closing tag. */
  lemma RoundTripExactly(front: string, body: string)
    ensures ParsesTo(FormatTagged(front, body), front, body) <==>
            !Contains(front, FRONT_END) && !Contains(body, BODY_END)
  {
    FormatShape(front, body);
    TagsAreTags();
    var bodyPart := ("\n" + body + "\n") + (BODY_END + "");
    var after := "\n" + (BODY_START + bodyPart);
    if Contains(front, FRONT_END) {
      SectionTooShort("", FRONT_START, FRONT_END, front, after);
    } else {
      SectionIs("", FRONT_START, FRONT_END, front, after);
      TrimTagNewlinesUndo(front);
      ParseRest(front, body, FormatTagged(front, body));
    }
  }

  lemma ParseRest(front: string, body: string, text: string)
    requires Section(text, FRONT_START, FRONT_END)
          == Success(Cut("", "\n" + front + "\n",
            (FRONT_END + "\n") + (BODY_START + (("\n" + body + "\n") + (BODY_END + "")))))
    ensures ParsesTo(text, front, body) <==> !Contains(body, BODY_END)
  {
    hide Section, Index, Contains;
    TagsAreTags();
    TrimTagNewlinesUndo(front);
    if Contains(body, BODY_END) {
      SectionTooShort(FRONT_END + "\n", BODY_START, BODY_END, body, "");
    } else {
      SectionIs(FRONT_END + "\n", BODY_START, BODY_END, body, "");
      TrimTagNewlinesUndo(body);
      assert (BODY_END + "")[|BODY_END|..] == "";
    }
  }

  // ---------------------------------------------------------------- which replies are taken

  ghost predicate IsSection(text: string, a: string, open: string, x: string, close: string, rest: string) {
    text == a + (open + (x + (close + rest))) && !Contains(a, open) && !Contains(x, close)
  }

  lemma SectionIsCut(text: string, a: string, open: string, x: string, close: string, rest: string)
    requires IsTag(open) && IsTag(close) && IsSection(text, a, open, x, close, rest)
    ensures Section(text, open, close) == Success(Cut(a, x, close + rest))
  {
    hide Section, CloseSection, Contains, Index, IsTag;
    FirstTag(a, open, x + (close + rest));
    SectionFrom(a, open, close, x + (close + rest));
    ClosePadded(a, x, close, rest);
  }

  lemma HeadLacks(s: string, sub: string, i: nat)
    requires Index(s, sub) == Some(i) && i <= |s|
    ensures !Contains(s[..i], sub) || sub == ""
  {
    if j: nat :| OccursAt(s[..i], sub, j) {
      assert s[..i][j..] == s[j..i] && s[j..i] <= s[j..];
      assert OccursAt(s, sub, j);
      assert j >= i;
    }
  }

  lemma IndexCuts(s: string, sub: string, i: nat)
    requires sub != "" && Index(s, sub) == Some(i) && i + |sub| <= |s|
    ensures s == s[..i] + (sub + s[i + |sub|..]) && s[i..] == sub + s[i + |sub|..] && !Contains(s[..i], sub)
  {
    HeadLacks(s, sub, i);
    assert s[i..][..|sub|] == sub;
  }

  lemma CutIsSection(text: string, open: string, close: string, cut: Cut) returns (rest: string)
    requires open != "" && close != "" && Section(text, open, close) == Success(cut)
    ensures cut.rest == close + rest && IsSection(text, cut.before, open, cut.inner, close, rest)
  {
    hide Contains;
    var start := Index(text, open).value;
    IndexCuts(text, open, start);
    var inner := text[start + |open|..];
    var end := Index(inner, close).value;
    IndexCuts(inner, close, end);
    hide Index;
    rest := inner[end + |close|..];
  }

  /** The front matter and the body of a reply stand between their tags, with nothing but white
      space before the first tag and after the last one. What is between the two sections is
      passed over. */
  ghost predicate IsTagged(text: string, a: string, x: string, m: string, y: string, b: string) {
    && text == a + ("<frontmatter>" + (x + ("</frontmatter>" + (m + ("<body>" + (y + ("</body>" + b)))))))
    && IsBlank(a) && IsBlank(b)
    && !Contains(x, "</frontmatter>") && !Contains(m, "<body>") && !Contains(y, "</body>")
  }

  /** The text between two tags, less a newline at its start and one at its end. */
  predicate IsInner(x: string, t: string) {
    var first := x != "" && x[0] == '\n';
    var last := |x| > (if first then 1 else 0) && x[|x| - 1] == '\n';
    x == (if first then "\n" else "") + t + (if last then "\n" else "")
  }

  lemma NewlinesOff(x: string)
    ensures x == (if x != "" && x[0] == '\n' then "\n" else "") + TrimPrefixNewline(x)
    ensures x == TrimSuffixNewline(x) + (if x != "" && x[|x| - 1] == '\n' then "\n" else "")
  {
  }

  lemma EndsUnique(p: string, s: string, q: string, t: string)
    requires p + s + q == p + t + q
    ensures s == t
  {
    assert |s| == |t|;
    assert (p + s + q)[|p|..|p| + |s|] == s && (p + t + q)[|p|..|p| + |t|] == t;
  }

  lemma InnerExactly(x: string, t: string)
    ensures IsInner(x, t) <==> TrimTagNewlines(x) == t
  {
    var l := TrimPrefixNewline(x);
    var r := TrimSuffixNewline(l);
    NewlinesOff(x);
    NewlinesOff(l);
    hide TrimPrefixNewline, TrimSuffixNewline;
    var first := x != "" && x[0] == '\n';
    var last := |x| > (if first then 1 else 0) && x[|x| - 1] == '\n';
    assert l != "" ==> l[|l| - 1] == x[|x| - 1];
    var p, q := if first then "\n" else "", if last then "\n" else "";
    assert x == p + r + q;
    if x == p + t + q {
      EndsUnique(p, r, q, t);
    }
  }

  lemma TagAt(s: string, tag: string, j: nat)
    requires OccursAt(s, tag, j) && IsTag(tag)
    ensures j < |s| && s[j] == '<'
  {
    assert s[j..][0] == '<';
  }

  lemma BlankHasNoTag(a: string, tag: string)
    requires IsBlank(a) && IsTag(tag)
    ensures !Contains(a, tag)
  {
    forall j: nat
      ensures !OccursAt(a, tag, j)
    {
      if OccursAt(a, tag, j) {
        TagAt(a, tag, j);
        assert false;
      }
    }
  }

  lemma BodyStartsLater(m: string, j: nat)
    requires OccursAt("</frontmatter>" + m, "<body>", j)
    ensures j >= 14 && OccursAt(m, "<body>", j - 14)
  {
    var s := "</frontmatter>" + m;
    assert s[j..][0] == s[j] && s[j..][1] == s[j + 1];
    assert j >= 14;
    assert s[j..] == m[j - 14..];
  }

  lemma NoBodyStartAfterEnd(m: string)
    ensures Contains("</frontmatter>" + m, "<body>") <==> Contains(m, "<body>")
  {
    var s := "</frontmatter>" + m;
    if j: nat :| OccursAt(s, "<body>", j) {
      BodyStartsLater(m, j);
    }
    if j: nat :| OccursAt(m, "<body>", j) {
      assert s[j + 14..] == m[j..];
      assert OccursAt(s, "<body>", j + 14);
    }
  }

  lemma TaggedParses(text: string, a: string, x: string, m: string, y: string, b: string, r: Sections)
    requires IsTagged(text, a, x, m, y, b) && IsInner(x, r.front) && IsInner(y, r.body)
    ensures ParseTagged(text) == Success(r)
  {
    TagsAreTags();
    BlankHasNoTag(a, FRONT_START);
    NoBodyStartAfterEnd(m);
    InnerExactly(x, r.front);
    InnerExactly(y, r.body);
    var afterBody := BODY_START + (y + (BODY_END + b));
    assert FRONT_END + (m + afterBody) == (FRONT_END + m) + afterBody;
    SectionIsCut(text, a, FRONT_START, x, FRONT_END, m + afterBody);
    SectionIsCut((FRONT_END + m) + afterBody, FRONT_END + m, BODY_START, y, BODY_END, b);
    TrimSpaceBlank(a);
    TrimSpaceBlank(b);
    hide Section, Contains, IsTag, IsBlank, TrimSpace, TrimTagNewlines;
    assert (BODY_END + b)[|BODY_END|..] == b;
  }

  lemma ParsedIsTagged(text: string, r: Sections) returns (a: string, x: string, m: string, y: string, b: string)
    requires ParseTagged(text) == Success(r)
    ensures IsTagged(text, a, x, m, y, b) && IsInner(x, r.front) && IsInner(y, r.body)
  {
    hide Section, Contains, IsBlank, TrimSpace, TrimTagNewlines, IsInner;
    var front := Section(text, FRONT_START, FRONT_END).value;
    var body := Section(front.rest, BODY_START, BODY_END).value;
    a, x, y := front.before, front.inner, body.inner;
    var afterFront := CutIsSection(text, FRONT_START, FRONT_END, front);
    b := CutIsSection(front.rest, BODY_START, BODY_END, body);
    assert body.rest[|BODY_END|..] == b;
    TrimSpaceBlank(a);
    TrimSpaceBlank(b);
    InnerExactly(x, r.front);
    InnerExactly(y, r.body);
    hide ParseTagged;
    m := BetweenSections(front.rest, afterFront, body.before, BODY_START + (y + (BODY_END + b)));
    NoBodyStartAfterEnd(m);
  }

  lemma BetweenSections(rest: string, afterFront: string, before: string, afterBody: string) returns (m: string)
    requires rest == FRONT_END + afterFront == before + afterBody && BODY_START <= afterBody
    requires !Contains(before, BODY_START)
    ensures before == FRONT_END + m && afterFront == m + afterBody
  {
    if |before| < |FRONT_END| {
      BodyStartsLater(afterFront, |before|);
      assert false;
    }
    m := before[|FRONT_END|..];
    assert rest[..|FRONT_END|] == FRONT_END && before[..|FRONT_END|] == rest[..|FRONT_END|];
    assert afterFront == rest[|FRONT_END|..];
  }

  /** A reply is taken exactly when it has this form, and then it gives the two texts between
      its tags. */
  lemma ParsesExactly(text: string, r: Sections)
    ensures ParseTagged(text) == Success(r) <==>
            exists a, x, m, y, b :: IsTagged(text, a, x, m, y, b) && IsInner(x, r.front) && IsInner(y, r.body)
  {
    hide ParseTagged, IsTagged, IsInner;
    if ParseTagged(text) == Success(r) {
      var a, x, m, y, b := ParsedIsTagged(text, r);
    }
    if a, x, m, y, b :| IsTagged(text, a, x, m, y, b) && IsInner(x, r.front) && IsInner(y, r.body) {
      TaggedParses(text, a, x, m, y, b, r);
    }
  }
}
