/** Rewriting the lines between two markers of a document. */
module BlockRewrite {
  import opened Wrappers
  import opened Text

  datatype Error = MissingStart | MissingEnd

  /** The last newline at or before position i. */
  function LastNewline(text: string, i: nat): (r: Option<nat>)
    requires i < |text|
    ensures r.Some? ==> r.value <= i && text[r.value] == '\n' && forall k :: r.value < k <= i ==> text[k] != '\n'
    ensures r.None? ==> forall k :: 0 <= k <= i ==> text[k] != '\n'
  {
    if text[i] == '\n' then Some(i) else if i == 0 then None else LastNewline(text, i - 1)
  }

  /** Where the line of position i begins. */
  function LineStart(text: string, i: nat): (p: nat)
    requires i < |text|
    ensures p <= i + 1
  {
    var n := LastNewline(text, i);
    if n.None? then 0 else n.value + 1
  }

  /** Where the line of position i ends, its newline included. */
  function LineStop(text: string, i: nat): (p: nat)
    requires i <= |text|
    ensures p <= |text|
  {
    var n := IndexFrom(text, "\n", i);
    if n.None? then |text| else n.value + 1
  }

  /** The text before the block, the indentation of its start marker, and the text after it. */
  datatype Frame = Frame(before: string, indent: string, after: string)

  function FrameOf(text: string, startMarker: string, endMarker: string): Result<Frame, Error>
    requires startMarker != ""
  {
    var start := Index(text, startMarker);
    if start.None? then Failure(MissingStart)
    else
      var end := IndexFrom(text, endMarker, start.value);
      if end.None? then Failure(MissingEnd)
      else
        var lineStart := LineStart(text, start.value);
        Success(Frame(text[..lineStart], if lineStart <= start.value then text[lineStart..start.value] else "",
                      text[LineStop(text, end.value)..]))
  }

  function Indented(indent: string, lines: seq<string>): (r: seq<string>)
    ensures |r| == |lines|
  {
    if lines == [] then [] else [indent + lines[0]] + Indented(indent, lines[1..])
  }

  function Block(indent: string, startMarker: string, endMarker: string, lines: seq<string>): string {
    Join([indent + startMarker] + Indented(indent, lines) + [indent + endMarker])
  }

  function Rebuild(f: Frame, block: string): string {
    if f.after == "" then f.before + block else f.before + block + "\n" + f.after
  }

  function ReplaceBlockLines(text: string, startMarker: string, endMarker: string, lines: seq<string>)
    : Result<string, Error>
    requires startMarker != ""
  {
    var f :- FrameOf(text, startMarker, endMarker);
    Success(Rebuild(f, Block(f.indent, startMarker, endMarker, lines)))
  }

  // ---------------------------------------------------------------- markers within lines

  /** A string without a newline that occurs in two lines occurs in one of them. */
  lemma OccursInALine(a: string, b: string, m: string, i: nat)
    requires '\n' !in m && m != "" && OccursAt(a + "\n" + b, m, i)
    ensures i + |m| <= |a| || i > |a|
  {
    var s := a + "\n" + b;
    if i <= |a| < i + |m| {
      CharAt(s, m, i, |a| - i);
      assert false;
    }
  }

  lemma OccursLeft(a: string, b: string, m: string, i: nat)
    requires i + |m| <= |a|
    ensures OccursAt(a + b, m, i) <==> OccursAt(a, m, i)
  {
    assert (a + b)[i..] == a[i..] + b;
    assert OccursAt(a + b, m, i) ==> m == (a[i..] + b)[..|m|] == a[i..][..|m|];
    assert OccursAt(a, m, i) ==> m == a[i..][..|m|];
  }

  lemma OccursRight(a: string, b: string, m: string, i: nat)
    ensures OccursAt(a + b, m, |a| + i) <==> OccursAt(b, m, i)
  {
    if i <= |b| {
      assert (a + b)[|a| + i..] == b[i..];
    }
  }

  lemma ContainsTwoLines(a: string, b: string, m: string)
    requires '\n' !in m && m != ""
    ensures Contains(a + "\n" + b, m) <==> Contains(a, m) || Contains(b, m)
  {
    var s := a + "\n" + b;
    assert s == a + ("\n" + b);
    if Contains(s, m) {
      var i: nat :| OccursAt(s, m, i);
      OccursInALine(a, b, m, i);
      if i + |m| <= |a| {
        OccursLeft(a, "\n" + b, m, i);
      } else {
        OccursRight(a + "\n", b, m, i - |a| - 1);
      }
    }
    if Contains(a, m) {
      var i: nat :| OccursAt(a, m, i);
      OccursLeft(a, "\n" + b, m, i);
      assert OccursAt(s, m, i);
    }
    if Contains(b, m) {
      var i: nat :| OccursAt(b, m, i);
      OccursRight(a + "\n", b, m, i);
      assert OccursAt(s, m, |a| + 1 + i);
    }
  }

  ghost predicate InSomeLine(lines: seq<string>, m: string) {
    exists k :: 0 <= k < |lines| && Contains(lines[k], m)
  }

  lemma {:induction false} ContainsInLines(lines: seq<string>, m: string)
    requires '\n' !in m && m != "" && lines != []
    ensures Contains(Join(lines), m) <==> InSomeLine(lines, m)
  {
    if |lines| == 1 {
      assert lines[0] == Join(lines);
    } else {
      ContainsInLines(lines[1..], m);
      ContainsTwoLines(lines[0], Join(lines[1..]), m);
      if InSomeLine(lines[1..], m) {
        var k :| 0 <= k < |lines[1..]| && Contains(lines[1..][k], m);
        assert lines[k + 1] == lines[1..][k];
      }
      if InSomeLine(lines, m) {
        var k :| 0 <= k < |lines| && Contains(lines[k], m);
        assert k > 0 ==> lines[1..][k - 1] == lines[k];
      }
    }
  }

  // ---------------------------------------------------------------- the second rewrite

  /** The start marker and its line stay where they are. */
  lemma StartStays(text: string, startMarker: string, s: nat, more: string)
    requires startMarker != "" && '\n' !in startMarker && Index(text, startMarker) == Some(s)
    ensures s + |startMarker| <= |text|
    ensures var u := text[..s] + startMarker + more;
            Index(u, startMarker) == Some(s) && LineStart(u, s) == LineStart(text, s) <= s
  {
    hide LineStart, Index;
    var u := text[..s] + startMarker + more;
    assert text[s..][..|startMarker|] == startMarker;
    assert u[s..] == startMarker + more;
    assert OccursAt(u, startMarker, s);
    forall j: nat | j < s
      ensures !OccursAt(u, startMarker, j)
    {
      assert !OccursAt(text, startMarker, j);
      var both := text[..s] + startMarker;
      assert text == both + text[s + |startMarker|..];
      OccursLeft(both, more, startMarker, j);
      OccursLeft(both, text[s + |startMarker|..], startMarker, j);
    }
    IndexIs(u, startMarker, s);
    assert text[s] == text[s..][0] == startMarker[0];
    SameLineStart(text, u, s);
  }

  lemma SameLineStart(a: string, b: string, s: nat)
    requires s < |a| && s < |b| && a[..s + 1] == b[..s + 1] && a[s] != '\n'
    ensures LineStart(a, s) == LineStart(b, s) <= s
  {
    assert forall k :: 0 <= k <= s ==> a[k] == a[..s + 1][k] == b[k];
  }

  /** The block from the start marker on: everything up to the last line, and the last line. */
  function Head(indent: string, startMarker: string, lines: seq<string>): string {
    Join([startMarker] + Indented(indent, lines))
  }

  lemma BlockShape(indent: string, startMarker: string, endMarker: string, lines: seq<string>)
    ensures Block(indent, startMarker, endMarker, lines)
            == indent + Head(indent, startMarker, lines) + "\n" + (indent + endMarker)
  {
    var ls := Indented(indent, lines);
    JoinAppend([indent + startMarker] + ls, [indent + endMarker]);
    assert Join([indent + endMarker]) == indent + endMarker;
    if ls == [] {
      assert [indent + startMarker] + ls == [indent + startMarker];
      assert [startMarker] + ls == [startMarker];
    } else {
      JoinAppend([indent + startMarker], ls);
      JoinAppend([startMarker], ls);
      assert Join([indent + startMarker]) == indent + startMarker && Join([startMarker]) == startMarker;
      assert (indent + startMarker) + "\n" + Join(ls) == indent + (startMarker + "\n" + Join(ls));
    }
  }

  /** The end marker is found in the last line when the lines before do not hold it. */
  lemma EndAfterHead(prefix: string, head: string, rest: string, endMarker: string, at: nat)
    requires '\n' !in endMarker && endMarker != "" && !Contains(head, endMarker)
             && OccursAt(head + "\n" + rest, endMarker, at)
    ensures var u := prefix + (head + "\n" + rest);
            var e := IndexFrom(u, endMarker, |prefix|);
            e.Some? && |prefix| + |head| < e.value <= |prefix| + at
  {
    var u := prefix + (head + "\n" + rest);
    OccursRight(prefix, head + "\n" + rest, endMarker, at);
    var i := IndexFrom(u, endMarker, |prefix|).value - |prefix|;
    OccursRight(prefix, head + "\n" + rest, endMarker, i);
    OccursInALine(head, rest, endMarker, i);
    if i + |endMarker| <= |head| {
      NotInHead(head, rest, endMarker, i);
      assert false;
    }
  }

  lemma NotInHead(head: string, rest: string, endMarker: string, i: nat)
    requires i + |endMarker| <= |head| && !Contains(head, endMarker)
    ensures !OccursAt(head + "\n" + rest, endMarker, i)
  {
    assert head + "\n" + rest == head + ("\n" + rest);
    OccursLeft(head, "\n" + rest, endMarker, i);
  }

  lemma EndInLastLine(prefix: string, head: string, indent: string, endMarker: string, tail: string)
    requires '\n' !in endMarker && endMarker != "" && '\n' !in indent && !Contains(head, endMarker)
    requires tail == "" || tail[0] == '\n'
    ensures var u := prefix + (head + "\n" + ((indent + endMarker) + tail));
            var e := IndexFrom(u, endMarker, |prefix|);
            && e.Some? && e.value <= |u|
            && LineStop(u, e.value) == |u| - (if tail == "" then 0 else |tail| - 1)
  {
    hide Contains, LineStop;
    var last := indent + endMarker;
    EndAfterHead(prefix, head, last + tail, endMarker, |head| + 1 + |indent|);
    var u := prefix + (head + "\n" + (last + tail));
    assert u == (prefix + head + "\n") + (last + tail);
    StopsAtTail(prefix + head + "\n", last, tail, IndexFrom(u, endMarker, |prefix|).value);
  }

  /** From within a line that the tail follows, the line ends at the tail. */
  lemma StopsAtTail(a: string, last: string, tail: string, e: nat)
    requires '\n' !in last && |a| <= e <= |a| + |last| && (tail == "" || tail[0] == '\n')
    ensures var u := a + (last + tail);
            LineStop(u, e) == |u| - (if tail == "" then 0 else |tail| - 1)
  {
    var u := a + (last + tail);
    var stop := |a| + |last|;
    forall j: nat | e <= j < stop
      ensures !OccursAt(u, "\n", j)
    {
      assert u[j..][0] == u[j] == last[j - |a|];
    }
    if tail != "" {
      assert u[stop..] == tail;
      assert OccursAt(u, "\n", stop);
    } else {
      assert |u| == stop;
      assert !OccursAt(u, "\n", stop);
    }
  }

  /** The end marker is found too early when a line before the last holds it. */
  lemma EndTooEarly(prefix: string, head: string, last: string, endMarker: string)
    requires '\n' !in endMarker && endMarker != "" && Contains(head, endMarker)
    ensures var u := prefix + (head + "\n" + last);
            var e := IndexFrom(u, endMarker, |prefix|);
            e.Some? && e.value <= |u| && LineStop(u, e.value) <= |prefix| + |head| + 1
  {
    var rest := head + "\n" + last;
    var u := prefix + rest;
    assert rest == head + ("\n" + last);
    var i: nat :| OccursAt(head, endMarker, i);
    OccursLeft(head, "\n" + last, endMarker, i);
    OccursRight(prefix, rest, endMarker, i);
    var e := IndexFrom(u, endMarker, |prefix|).value;
    assert u[|prefix| + |head|..] == "\n" + last;
    assert OccursAt(u, "\n", |prefix| + |head|);
  }

  /** The condition under which rewriting again changes nothing. */
  ghost predicate EndOnlyAtEnd(indent: string, startMarker: string, endMarker: string, lines: seq<string>) {
    !Contains(startMarker, endMarker) && forall k :: 0 <= k < |lines| ==> !Contains(indent + lines[k], endMarker)
  }

  lemma {:induction false} IndentedAt(indent: string, lines: seq<string>, k: nat)
    requires k < |lines|
    ensures Indented(indent, lines)[k] == indent + lines[k]
  {
    if k > 0 {
      IndentedAt(indent, lines[1..], k - 1);
    }
  }

  lemma HeadContains(indent: string, startMarker: string, endMarker: string, lines: seq<string>)
    requires '\n' !in endMarker && endMarker != ""
    ensures Contains(Head(indent, startMarker, lines), endMarker) <==>
            !EndOnlyAtEnd(indent, startMarker, endMarker, lines)
  {
    var all := [startMarker] + Indented(indent, lines);
    ContainsInLines(all, endMarker);
    forall k | 0 <= k < |lines|
      ensures all[k + 1] == indent + lines[k]
    {
      IndentedAt(indent, lines, k);
    }
    if InSomeLine(all, endMarker) {
      var k :| 0 <= k < |all| && Contains(all[k], endMarker);
      if k > 0 {
        assert all[k] == indent + lines[k - 1];
      }
    }
    assert all[0] == startMarker;
  }

  /** What a successful rewrite leaves: the text up to the start marker, the rest of the
      block, and what followed it. */
  lemma RewrittenShape(text: string, startMarker: string, endMarker: string, lines: seq<string>)
    requires startMarker != "" && '\n' !in startMarker
             && ReplaceBlockLines(text, startMarker, endMarker, lines).Success?
    ensures var f := FrameOf(text, startMarker, endMarker).value;
            var s := Index(text, startMarker).value;
            var tail := if f.after == "" then "" else "\n" + f.after;
            && text[..s] == f.before + f.indent && '\n' !in f.indent && LineStart(text, s) == |f.before|
            && ReplaceBlockLines(text, startMarker, endMarker, lines).value
            == text[..s] + (Head(f.indent, startMarker, lines) + "\n" + ((f.indent + endMarker) + tail))
  {
    hide Index, IndexFrom, Head, Block, LastNewline, LineStop;
    var f := FrameOf(text, startMarker, endMarker).value;
    var s := Index(text, startMarker).value;
    assert text[s..][..|startMarker|] == startMarker;
    assert text[s] == text[s..][0] == startMarker[0];
    BlockShape(f.indent, startMarker, endMarker, lines);
    var head := Head(f.indent, startMarker, lines);
    assert forall k :: 0 <= k < |f.indent| ==> f.indent[k] == text[|f.before| + k];
    Glue(f.before, f.indent, head, f.indent + endMarker, f.after);
  }

  lemma Glue(before: string, indent: string, head: string, last: string, after: string)
    ensures before + (indent + head + "\n" + last) == (before + indent) + (head + "\n" + (last + ""))
    ensures before + (indent + head + "\n" + last) + "\n" + after
            == (before + indent) + (head + "\n" + (last + ("\n" + after)))
  {
  }

  /** Rewriting the rewritten text changes nothing exactly when the end marker occurs neither
      in the start marker nor in any of the indented lines. */
  lemma RewriteTwiceExactly(text: string, startMarker: string, endMarker: string, lines: seq<string>)
    requires startMarker != "" && endMarker != "" && '\n' !in startMarker && '\n' !in endMarker
    requires ReplaceBlockLines(text, startMarker, endMarker, lines).Success?
    ensures var u := ReplaceBlockLines(text, startMarker, endMarker, lines).value;
            var indent := FrameOf(text, startMarker, endMarker).value.indent;
            ReplaceBlockLines(u, startMarker, endMarker, lines) == Success(u) <==>
              EndOnlyAtEnd(indent, startMarker, endMarker, lines)
  {
    var f := FrameOf(text, startMarker, endMarker).value;
    var s := Index(text, startMarker).value;
    var head := Head(f.indent, startMarker, lines);
    var tail := if f.after == "" then "" else "\n" + f.after;
    RewrittenShape(text, startMarker, endMarker, lines);
    HeadContains(f.indent, startMarker, endMarker, lines);
    SecondFrame(text, s, f, startMarker, endMarker, head, tail, lines);
  }

  lemma SecondFrame(text: string, s: nat, f: Frame, startMarker: string, endMarker: string, head: string, tail: string,
          lines: seq<string>)
    requires startMarker != "" && endMarker != "" && '\n' !in startMarker && '\n' !in endMarker && '\n' !in f.indent
    requires Index(text, startMarker) == Some(s) && s < |text| && LineStart(text, s) == |f.before|
             && text[..s] == f.before + f.indent
    requires head == Head(f.indent, startMarker, lines)
    requires tail == if f.after == "" then "" else "\n" + f.after
    ensures var u := text[..s] + (head + "\n" + ((f.indent + endMarker) + tail));
            ReplaceBlockLines(u, startMarker, endMarker, lines) == Success(u) <==> !Contains(head, endMarker)
  {
    hide ReplaceBlockLines, Head, Contains, IndexFrom, LineStop, LineStart, Index;
    var last := f.indent + endMarker;
    var u := text[..s] + (head + "\n" + (last + tail));
    SameStart(text, s, f, startMarker, head, last + tail, lines);
    assert u[..|f.before|] == f.before && u[|f.before|..s] == f.indent;
    if Contains(head, endMarker) {
      EndTooEarly(text[..s], head, last + tail, endMarker);
      LaterAfterGrows(u, f, startMarker, endMarker, lines, s, |text[..s]| + |head| + 1, |last + tail|);
    } else {
      EndInLastLine(text[..s], head, f.indent, endMarker, tail);
      SameAfterRebuilds(u, f, startMarker, endMarker, lines, s, head, tail);
    }
  }

  lemma SameStart(text: string, s: nat, f: Frame, startMarker: string, head: string, rest: string, lines: seq<string>)
    requires startMarker != "" && '\n' !in startMarker && Index(text, startMarker) == Some(s) && s < |text|
    requires LineStart(text, s) == |f.before| && head == Head(f.indent, startMarker, lines)
    ensures var u := text[..s] + (head + "\n" + rest);
            s < |u| && Index(u, startMarker) == Some(s) && LineStart(u, s) == |f.before| <= s
  {
    var more := head[|startMarker|..] + "\n" + rest;
    assert head == startMarker + head[|startMarker|..];
    assert text[..s] + (head + "\n" + rest) == text[..s] + startMarker + more;
    StartStays(text, startMarker, s, more);
  }

  /** When the end marker is found too early, the second rewrite makes the text longer. */
  lemma LaterAfterGrows(u: string, f: Frame, startMarker: string, endMarker: string, lines: seq<string>, s: nat,
          stop: nat, n: nat)
    requires startMarker != "" && endMarker != "" && s < |u| && Index(u, startMarker) == Some(s)
    requires LineStart(u, s) == |f.before| <= s && u[..|f.before|] == f.before && u[|f.before|..s] == f.indent
    requires var e := IndexFrom(u, endMarker, s); e.Some? && e.value <= |u| && LineStop(u, e.value) <= stop
    requires stop + n == |u| && n >= |endMarker|
    requires |u| == s + |Head(f.indent, startMarker, lines)| + 1 + n
    ensures ReplaceBlockLines(u, startMarker, endMarker, lines) != Success(u)
  {
    var after := u[LineStop(u, IndexFrom(u, endMarker, s).value)..];
    assert |after| >= n;
    BlockShape(f.indent, startMarker, endMarker, lines);
    assert FrameOf(u, startMarker, endMarker) == Success(Frame(f.before, f.indent, after));
    assert |Rebuild(Frame(f.before, f.indent, after), Block(f.indent, startMarker, endMarker, lines))| > |u|;
  }

  /** When the end marker is found in its own line, the second rewrite rebuilds the same text. */
  lemma SameAfterRebuilds(u: string, f: Frame, startMarker: string, endMarker: string, lines: seq<string>, s: nat,
          head: string, tail: string)
    requires startMarker != "" && s < |u| && Index(u, startMarker) == Some(s)
    requires LineStart(u, s) == |f.before| <= s && u[..|f.before|] == f.before && u[|f.before|..s] == f.indent
    requires head == Head(f.indent, startMarker, lines) && tail == if f.after == "" then "" else "\n" + f.after
    requires u == (f.before + f.indent) + (head + "\n" + ((f.indent + endMarker) + tail))
    requires var e := IndexFrom(u, endMarker, s);
             e.Some? && e.value <= |u| && LineStop(u, e.value) == |u| - (if tail == "" then 0 else |tail| - 1)
    ensures ReplaceBlockLines(u, startMarker, endMarker, lines) == Success(u)
  {
    hide Index, IndexFrom, LineStop, LineStart;
    var after := u[LineStop(u, IndexFrom(u, endMarker, s).value)..];
    var whole := (f.before + f.indent) + (head + "\n" + (f.indent + endMarker));
    assert u == whole + tail;
    assert after == f.after;
    BlockShape(f.indent, startMarker, endMarker, lines);
    Glue(f.before, f.indent, head, f.indent + endMarker, f.after);
  }

  /** The text begins with what comes before the block and ends with what comes after it,
      which starts on a line of its own. */
  predicate Keeps(text: string, f: Frame) {
    && f.before <= text
    && |f.before| + |f.after| <= |text| && text[|text| - |f.after|..] == f.after
    && (f.after != "" ==> |f.before| + |f.after| < |text| && text[|text| - |f.after| - 1] == '\n')
  }

  lemma TextKeeps(text: string, startMarker: string, endMarker: string)
    requires startMarker != "" && '\n' !in startMarker && FrameOf(text, startMarker, endMarker).Success?
    ensures Keeps(text, FrameOf(text, startMarker, endMarker).value)
  {
    hide LastNewline, Index, IndexFrom;
    var f := FrameOf(text, startMarker, endMarker).value;
    var s := Index(text, startMarker).value;
    assert text[s..][..|startMarker|] == startMarker;
    assert text[s] == text[s..][0] == startMarker[0];
    var e := IndexFrom(text, endMarker, s).value;
    if f.after != "" {
      var n := IndexFrom(text, "\n", e).value;
      assert text[n] == text[n..][0] == '\n';
    }
  }

  lemma RebuiltKeeps(f: Frame, block: string)
    ensures Keeps(Rebuild(f, block), f)
  {
    var u := Rebuild(f, block);
    if f.after != "" {
      assert u == (f.before + block + "\n") + f.after;
    }
  }

  /** Before the text kept after the block there is nothing but the rest of the line on which
      the end marker was found. */
  predicate EndsWithMarkerLine(text: string, f: Frame, startMarker: string, endMarker: string) {
    var start := Index(text, startMarker);
    start.Some? && start.value <= |text| &&
    var end := IndexFrom(text, endMarker, start.value);
    end.Some? && forall i :: end.value <= i < |text| - |f.after| - 1 ==> text[i] != '\n'
  }

  lemma FrameEndsWithMarkerLine(text: string, startMarker: string, endMarker: string)
    requires startMarker != "" && FrameOf(text, startMarker, endMarker).Success?
    ensures EndsWithMarkerLine(text, FrameOf(text, startMarker, endMarker).value, startMarker, endMarker)
  {
    var s := Index(text, startMarker).value;
    var e := IndexFrom(text, endMarker, s).value;
    forall i | e <= i < LineStop(text, e) - 1
      ensures text[i] != '\n'
    {
      if text[i] == '\n' {
        assert OccursAt(text, "\n", i);
        assert false;
      }
    }
  }

  lemma RebuiltEnds(f: Frame, startMarker: string, endMarker: string, lines: seq<string>)
    requires f.after == ""
    ensures var u := Rebuild(f, Block(f.indent, startMarker, endMarker, lines));
            |u| >= |endMarker| && u[|u| - |endMarker|..] == endMarker
  {
    BlockShape(f.indent, startMarker, endMarker, lines);
  }

  /** Outside the block nothing is lost: what comes before and after is kept as it was, and
      all that is left out after the end marker is the rest of its line. With nothing after
      that line the result ends in the end marker, also when the text ended in a newline. */
  lemma OutsideIsKept(text: string, startMarker: string, endMarker: string, lines: seq<string>)
    requires startMarker != "" && '\n' !in startMarker
             && ReplaceBlockLines(text, startMarker, endMarker, lines).Success?
    ensures var f := FrameOf(text, startMarker, endMarker).value;
            var u := ReplaceBlockLines(text, startMarker, endMarker, lines).value;
            && Keeps(text, f) && Keeps(u, f) && EndsWithMarkerLine(text, f, startMarker, endMarker)
            && (f.after == "" ==> |u| >= |endMarker| && u[|u| - |endMarker|..] == endMarker)
  {
    hide FrameOf, Keeps, Rebuild, Block, EndsWithMarkerLine;
    var f := FrameOf(text, startMarker, endMarker).value;
    TextKeeps(text, startMarker, endMarker);
    FrameEndsWithMarkerLine(text, startMarker, endMarker);
    RebuiltKeeps(f, Block(f.indent, startMarker, endMarker, lines));
    if f.after == "" {
      RebuiltEnds(f, startMarker, endMarker, lines);
    }
  }

  /** The end marker is found nowhere from a start marker on. */
  ghost predicate NoEndAfterStart(text: string, startMarker: string, endMarker: string) {
    forall i: nat, j: nat :: i <= j && OccursAt(text, startMarker, i) ==> !OccursAt(text, endMarker, j)
  }

  /** Why a rewrite fails. */
  lemma FailsExactly(text: string, startMarker: string, endMarker: string, lines: seq<string>)
    requires startMarker != ""
    ensures ReplaceBlockLines(text, startMarker, endMarker, lines) == Failure(MissingStart) <==>
            !Contains(text, startMarker)
    ensures ReplaceBlockLines(text, startMarker, endMarker, lines) == Failure(MissingEnd) <==>
            Contains(text, startMarker) && NoEndAfterStart(text, startMarker, endMarker)
  {
    var start := Index(text, startMarker);
    if start.Some? {
      hide OccursAt, Contains;
      var end := IndexFrom(text, endMarker, start.value);
      assert end.None? <==> NoEndAfterStart(text, startMarker, endMarker);
    }
  }
}
