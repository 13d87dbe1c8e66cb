/** The front matter block of a written document: printing it, splitting it off again, and
    deciding from it whether the document is up to date. The YAML library is a pair of
    functions; where a lemma needs it, that one document is read back as it was printed. */
module FrontMatter {
  import opened Wrappers
  import opened Text

  datatype Value = Str(s: string) | Items(items: seq<Value>) | Dict(entries: map<string, Value>) | Other(shown: string)

  type Data = map<string, Value>

  const FENCE := "---"

  // ---------------------------------------------------------------- splitting

  datatype Parts = Parts(front: string, body: string)

  predicate IsFence(line: string) {
    TrimSpace(line) == FENCE
  }

  predicate NoFence(lines: seq<string>, i: nat, end: nat)
    requires end <= |lines|
  {
    forall k :: i <= k < end ==> !IsFence(lines[k])
  }

  lemma NoFenceStep(lines: seq<string>, i: nat, end: nat)
    requires end <= |lines|
    ensures i == end ==> NoFence(lines, i, end)
    ensures i < end && !IsFence(lines[i]) && NoFence(lines, i + 1, end) ==> NoFence(lines, i, end)
  {
    hide IsFence;
  }

  /** The first line from number i on that trims to the fence. */
  function FenceFrom(lines: seq<string>, i: nat): (r: Option<nat>)
    requires i <= |lines|
    ensures r.Some? ==> i <= r.value < |lines| && IsFence(lines[r.value])
    ensures NoFence(lines, i, if r.Some? then r.value else |lines|)
    decreases |lines| - i
  {
    hide IsFence, NoFence;
    NoFenceStep(lines, i, i);
    if i == |lines| then None
    else if IsFence(lines[i]) then Some(i)
    else
      var r := FenceFrom(lines, i + 1);
      NoFenceStep(lines, i, if r.Some? then r.value else |lines|);
      r
  }

  function SplitAt(lines: seq<string>, end: nat): Parts
    requires 1 <= end < |lines|
  {
    var body := Join(lines[end + 1..]);
    Parts(Join(lines[1..end]), if "\n" <= body then body[1..] else body)
  }

  function SplitFront(content: string): Parts {
    var lines := Split(content);
    if !(FENCE <= content) || |lines| < 2 then Parts("", content)
    else
      var end := FenceFrom(lines, 1);
      if end.None? then Parts("", content) else SplitAt(lines, end.value)
  }

  method SplitFrontMatter(content: string) returns (r: Parts)
    ensures r == SplitFront(content)
  {
    if !(FENCE <= content) {
      return Parts("", content);
    }
    var lines := Split(content);
    if |lines| < 2 {
      return Parts("", content);
    }
    var endIndex: Option<nat> := None;
    for i := 1 to |lines|
      invariant endIndex.None? && FenceFrom(lines, i) == FenceFrom(lines, 1)
    {
      if IsFence(lines[i]) {
        endIndex := Some(i);
        break;
      }
    }
    assert endIndex == FenceFrom(lines, 1);
    if endIndex.None? {
      return Parts("", content);
    }
    return SplitAt(lines, endIndex.value);
  }

  /** Some line after the first trims to the fence. */
  predicate HasEndFence(content: string) {
    var lines := Split(content);
    exists k :: 1 <= k < |lines| && TrimSpace(lines[k]) == FENCE
  }

  predicate BeginsFrontMatter(content: string) {
    FENCE <= content && HasEndFence(content)
  }

  /** Any text that does not begin with the fence, or has no second one on a line of its own,
      is all body. */
  lemma WithoutFrontMatter(content: string)
    requires !BeginsFrontMatter(content)
    ensures SplitFront(content) == Parts("", content)
  {
    hide TrimSpace, Split, SplitAt;
  }

  /** A body as it is split off: a newline at its beginning belongs to the fence. */
  function LessNewline(s: string): (r: string)
    ensures s == r || s == "\n" + r
    ensures s != "" && s[0] == '\n' ==> s == "\n" + r
  {
    if s != "" && s[0] == '\n' then s[1..] else s
  }

  /** Any other text is cut at the first line after the first that trims to the fence: the
      lines before it are the front matter, the lines after it the body. */
  lemma WithFrontMatter(content: string, first: string, block: seq<string>, fence: string, rest: seq<string>)
    requires FENCE <= content && Split(content) == [first] + block + [fence] + rest
    requires TrimSpace(fence) == FENCE && forall k :: 0 <= k < |block| ==> TrimSpace(block[k]) != FENCE
    ensures SplitFront(content) == Parts(Join(block), LessNewline(Join(rest)))
  {
    hide TrimSpace, Split, Join;
    var lines, end := Split(content), |block| + 1;
    assert lines[end] == fence && lines[1..end] == block && lines[end + 1..] == rest;
    forall k | 1 <= k < end
      ensures TrimSpace(lines[k]) != FENCE
    {
      assert lines[k] == block[k - 1];
    }
    FenceIs(lines, 1, end);
    NewlineOff(Join(rest));
  }

  lemma NewlineOff(s: string)
    ensures LessNewline(s) == if "\n" <= s then s[1..] else s
  {
  }

  /** Every text with front matter is of this form. */
  lemma FrontMatterForm(content: string) returns (first: string, block: seq<string>, fence: string, rest: seq<string>)
    requires BeginsFrontMatter(content)
    ensures Split(content) == [first] + block + [fence] + rest && TrimSpace(fence) == FENCE
    ensures forall k :: 0 <= k < |block| ==> TrimSpace(block[k]) != FENCE
  {
    hide TrimSpace, Split;
    var lines := Split(content);
    var end := FenceFrom(lines, 1).value;
    first, block, fence, rest := lines[0], lines[1..end], lines[end], lines[end + 1..];
  }

  // ---------------------------------------------------------------- printing

  /** The block around a YAML text that ends in a newline. */
  function Fenced(yaml: string): string {
    "---\n" + yaml + "---\n\n"
  }

  lemma {:induction false} FenceIs(lines: seq<string>, i: nat, end: nat)
    requires i <= end < |lines| && TrimSpace(lines[end]) == FENCE
    requires forall k :: i <= k < end ==> TrimSpace(lines[k]) != FENCE
    ensures FenceFrom(lines, i) == Some(end)
  {
    hide FenceFrom, TrimSpace;
  }

  lemma FencedShape(yaml: string, body: string)
    ensures Fenced(yaml + "\n") + body == FENCE + "\n" + (yaml + "\n" + (FENCE + "\n" + ("" + "\n" + body)))
  {
  }

  lemma FencedTail(body: string)
    ensures Split(FENCE + "\n" + ("" + "\n" + body)) == [FENCE, ""] + Split(body)
  {
    SplitCons("", body);
    SplitCons(FENCE, "" + "\n" + body);
  }

  /** The lines of a fenced block and a body. */
  function FencedLines(yaml: string, body: string): seq<string> {
    [FENCE] + (Split(yaml) + ([FENCE, ""] + Split(body)))
  }

  lemma SplitFenced(yaml: string, body: string)
    ensures Split(Fenced(yaml + "\n") + body) == FencedLines(yaml, body)
  {
    var rest := FENCE + "\n" + ("" + "\n" + body);
    FencedShape(yaml, body);
    FencedTail(body);
    SplitAppend(yaml, rest);
    SplitCons(FENCE, yaml + "\n" + rest);
  }

  predicate HasFenceLine(yaml: string) {
    exists k :: 0 <= k < |Split(yaml)| && TrimSpace(Split(yaml)[k]) == FENCE
  }

  lemma FenceTrims()
    ensures TrimSpace(FENCE) == FENCE
  {
  }

  /** Where the lines of the block and of the body are. */
  lemma FencedParts(block: seq<string>, rest: seq<string>, lines: seq<string>)
    requires lines == [FENCE] + (block + ([FENCE, ""] + rest))
    ensures |lines| == |block| + |rest| + 3 && lines[|block| + 1] == FENCE
    ensures lines[1..|block| + 1] == block && lines[|block| + 2..] == [""] + rest
    ensures forall k :: 0 <= k < |block| ==> lines[k + 1] == block[k]
  {
  }

  lemma BodyAfterFence(body: string)
    ensures Join([""] + Split(body)) == "\n" + body
  {
    JoinAppend([""], Split(body));
    JoinSplit(body);
    assert Join([""]) == "";
  }

  lemma FenceAfterBlock(block: seq<string>, rest: seq<string>, lines: seq<string>)
    requires lines == [FENCE] + (block + ([FENCE, ""] + rest))
    requires forall k :: 0 <= k < |block| ==> TrimSpace(block[k]) != FENCE
    ensures |block| + 1 < |lines| && FenceFrom(lines, 1) == Some(|block| + 1)
  {
    FencedParts(block, rest, lines);
    FenceTrims();
    forall k | 1 <= k < |block| + 1
      ensures TrimSpace(lines[k]) != FENCE
    {
      assert lines[k] == block[k - 1];
    }
    FenceIs(lines, 1, |block| + 1);
  }

  lemma SplitAtFence(yaml: string, body: string, lines: seq<string>, end: nat)
    requires 1 <= end < |lines| && lines[1..end] == Split(yaml) && lines[end + 1..] == [""] + Split(body)
    ensures SplitAt(lines, end) == Parts(yaml, body)
  {
    JoinSplit(yaml);
    BodyAfterFence(body);
    assert ("\n" + body)[1..] == body;
  }

  lemma SplitWithoutFence(yaml: string, body: string)
    requires !HasFenceLine(yaml)
    ensures var lines := FencedLines(yaml, body);
            var end := FenceFrom(lines, 1);
            end.Some? && SplitAt(lines, end.value) == Parts(yaml, body)
  {
    var lines := FencedLines(yaml, body);
    FencedParts(Split(yaml), Split(body), lines);
    FenceAfterBlock(Split(yaml), Split(body), lines);
    SplitAtFence(yaml, body, lines, |Split(yaml)| + 1);
  }

  lemma {:induction false} JoinPrefixShorter(lines: seq<string>, k: nat)
    requires k < |lines| && |lines[k]| > 0
    ensures |Join(lines[..k])| < |Join(lines)|
  {
    if k == 0 {
      assert lines[..0] == [];
      if |lines| == 1 {
        assert Join(lines) == lines[0];
      }
    } else {
      assert lines == lines[..k] + lines[k..];
      JoinAppend(lines[..k], lines[k..]);
    }
  }

  /** Splitting a fenced block and any body gives back both exactly when no line of the
      block trims to the fence itself. */
  lemma SplitUndoesFenceExactly(yaml: string, body: string)
    ensures SplitFront(Fenced(yaml + "\n") + body) == Parts(yaml, body) <==> !HasFenceLine(yaml)
  {
    var content := Fenced(yaml + "\n") + body;
    SplitFenced(yaml, body);
    FencedParts(Split(yaml), Split(body), FencedLines(yaml, body));
    assert FENCE <= content;
    if !HasFenceLine(yaml) {
      SplitWithoutFence(yaml, body);
    } else {
      CutAtFenceLine(yaml, body);
    }
  }

  lemma CutAtFenceLine(yaml: string, body: string)
    requires HasFenceLine(yaml)
    ensures var lines := FencedLines(yaml, body);
            var end := FenceFrom(lines, 1);
            end.Some? && |SplitAt(lines, end.value).front| < |yaml|
  {
    var block, lines := Split(yaml), FencedLines(yaml, body);
    FencedParts(block, Split(body), lines);
    JoinSplit(yaml);
    var k :| 0 <= k < |block| && TrimSpace(block[k]) == FENCE;
    assert lines[k + 1] == block[k];
    hide Split, Join, TrimSpace, FencedLines, FenceFrom;
    assert IsFence(lines[k + 1]);
    var end := FenceFrom(lines, 1).value;
    CutShort(block, lines, end, k);
  }

  lemma CutShort(block: seq<string>, lines: seq<string>, end: nat, k: nat)
    requires 1 <= end <= k + 1 <= |block| < |lines| && TrimSpace(lines[end]) == FENCE
    requires lines[1..|block| + 1] == block
    ensures |Join(lines[1..end])| < |Join(block)|
  {
    assert lines[end] == lines[1..|block| + 1][end - 1] == block[end - 1];
    assert lines[1..end] == lines[1..|block| + 1][..end - 1] == block[..end - 1];
    JoinPrefixShorter(block, end - 1);
  }

  /** The block up to its first line that trims to the fence. */
  function UpToFence(block: string): string {
    var end := FenceFrom(Split(block), 0);
    if end.None? then block else Join(Split(block)[..end.value])
  }

  lemma FenceInBlock(block: seq<string>, rest: seq<string>, lines: seq<string>, k: nat)
    requires lines == [FENCE] + (block + ([FENCE, ""] + rest)) && FenceFrom(block, 0) == Some(k)
    ensures k + 1 < |lines| && FenceFrom(lines, 1) == Some(k + 1) && lines[1..k + 1] == block[..k]
  {
    hide FenceFrom, TrimSpace;
    FencedParts(block, rest, lines);
    assert TrimSpace(lines[k + 1]) == FENCE;
    forall i | 1 <= i < k + 1
      ensures TrimSpace(lines[i]) != FENCE
    {
      assert lines[i] == block[i - 1];
    }
    FenceIs(lines, 1, k + 1);
    assert lines[1..k + 1] == lines[1..|block| + 1][..k];
  }

  /** What splitting makes of a fenced block: its lines up to the first that trims to the
      fence. */
  lemma SplitReadsUpToFence(yaml: string, body: string)
    ensures SplitFront(Fenced(yaml + "\n") + body).front == UpToFence(yaml)
  {
    hide FenceFrom, Split, Join, Fenced, SplitFront, TrimSpace, HasFenceLine;
    var end := FenceFrom(Split(yaml), 0);
    if end.None? {
      NoFenceLine(yaml);
      SplitUndoesFenceExactly(yaml, body);
    } else {
      FenceInBlock(Split(yaml), Split(body), FencedLines(yaml, body), end.value);
      SplitFenced(yaml, body);
      FencedStart(yaml + "\n", body);
      SplitFrontAt(Fenced(yaml + "\n") + body, FencedLines(yaml, body), end.value + 1);
    }
  }

  lemma SplitFrontAt(content: string, lines: seq<string>, end: nat)
    requires FENCE <= content && Split(content) == lines && 1 <= end < |lines| && FenceFrom(lines, 1) == Some(end)
    ensures SplitFront(content).front == Join(lines[1..end])
  {
    hide FenceFrom, Split, Join;
  }

  lemma NoFenceLine(yaml: string)
    requires FenceFrom(Split(yaml), 0).None?
    ensures !HasFenceLine(yaml)
  {
    hide Split, TrimSpace;
  }

  lemma FencedStart(yaml: string, body: string)
    ensures FENCE <= Fenced(yaml) + body
  {
  }

  // ---------------------------------------------------------------- is a document up to date?

  function LowerAscii(s: string): string {
    seq(|s|, i requires 0 <= i < |s| => if 'A' <= s[i] <= 'Z' then (s[i] as int + 32) as char else s[i])
  }

  predicate EqualFold(a: string, b: string) {
    LowerAscii(a) == LowerAscii(b)
  }

  function ExtractSourceHash(data: Data): string {
    if "x-i18n" in data && data["x-i18n"].Dict? && "source_hash" in data["x-i18n"].entries
       && data["x-i18n"].entries["source_hash"].Str?
    then TrimSpace(data["x-i18n"].entries["source_hash"].s) else ""
  }

  /** The YAML library. */
  datatype Yaml = Yaml(marshal: Data -> string, unmarshal: string -> Option<Data>) {
    /** What is printed for d ends in a newline, and reading it without that newline gives d.
        The newline is left out because splitting the file again takes it off. */
    predicate ReadsBack(d: Data) {
      var m := marshal(d);
      |m| > 0 && m[|m| - 1] == '\n' && unmarshal(m[..|m| - 1]) == Some(d)
    }
  }

  /** The output file is skipped when it names the hash of the current source. */
  function ShouldSkipDoc(yaml: Yaml, output: Option<string>, sourceHash: string): bool {
    if output.None? then false
    else
      var front := SplitFront(output.value).front;
      if front == "" then false
      else
        var data := yaml.unmarshal(front);
        if data.None? then false
        else
          var stored := ExtractSourceHash(data.value);
          stored != "" && EqualFold(stored, sourceHash)
  }

  /** The front matter with the provenance entry added. */
  function WithProvenance(data: Data, provenance: map<string, Value>): Data {
    data["x-i18n" := Dict(provenance)]
  }

  function EncodeFrontMatter(yaml: Yaml, data: Data, provenance: map<string, Value>): string {
    Fenced(yaml.marshal(WithProvenance(data, provenance)))
  }

  predicate RecordsHash(provenance: map<string, Value>, hash: string) {
    "source_hash" in provenance && provenance["source_hash"] == Str(hash)
  }

  /** The printed front matter is not empty and none of its lines is a fence. */
  ghost predicate PrintsWithoutFence(yaml: Yaml, data: Data, provenance: map<string, Value>) {
    var m := yaml.marshal(WithProvenance(data, provenance));
    |m| > 1 && !HasFenceLine(m[..|m| - 1])
  }

  /** Splitting what was written recovers the front matter with its provenance, and the body. */
  lemma WrittenIsRead(yaml: Yaml, data: Data, provenance: map<string, Value>, body: string)
    requires yaml.ReadsBack(WithProvenance(data, provenance)) && PrintsWithoutFence(yaml, data, provenance)
    ensures var parts := SplitFront(EncodeFrontMatter(yaml, data, provenance) + body);
            && parts.front != "" && parts.body == body
            && yaml.unmarshal(parts.front) == Some(WithProvenance(data, provenance))
  {
    var d := WithProvenance(data, provenance);
    var m := yaml.marshal(d);
    var block := m[..|m| - 1];
    assert |m| > 1 && !HasFenceLine(block) && m == block + "\n";
    assert yaml.unmarshal(block) == Some(d);
    hide Yaml.ReadsBack, HasFenceLine, SplitFront, WithProvenance, Fenced;
    SplitUndoesFenceExactly(block, body);
  }

  lemma HashOfProvenance(data: Data, provenance: map<string, Value>, stored: string)
    requires RecordsHash(provenance, stored) && TrimSpace(stored) == stored
    ensures ExtractSourceHash(WithProvenance(data, provenance)) == stored
  {
    hide TrimSpace;
  }

  /** What was written says skip exactly when it was written for the current source, if no
      line of the printed front matter is a fence. */
  lemma SkipsExactlyWhenCurrent(yaml: Yaml, data: Data, provenance: map<string, Value>, body: string, stored: string,
          current: string)
    requires yaml.ReadsBack(WithProvenance(data, provenance)) && RecordsHash(provenance, stored)
             && TrimSpace(stored) == stored != ""
    requires PrintsWithoutFence(yaml, data, provenance)
    ensures ShouldSkipDoc(yaml, Some(EncodeFrontMatter(yaml, data, provenance) + body), current) <==>
            EqualFold(stored, current)
    ensures SplitFront(EncodeFrontMatter(yaml, data, provenance) + body).body == body
  {
    WrittenIsRead(yaml, data, provenance, body);
    HashOfProvenance(data, provenance, stored);
    hide Yaml.ReadsBack, PrintsWithoutFence, EncodeFrontMatter, SplitFront, EqualFold, TrimSpace, WithProvenance,
      ExtractSourceHash, RecordsHash;
  }

  /** The text is front matter that names this hash. */
  predicate NamesHash(yaml: Yaml, front: string, hash: string) {
    front != "" && yaml.unmarshal(front).Some? &&
    var stored := ExtractSourceHash(yaml.unmarshal(front).value);
    stored != "" && EqualFold(stored, hash)
  }

  /** A written file says skip exactly when its printed front matter, up to the first line
      that trims to the fence, names the hash of the current source. */
  lemma SkipsExactlyWhenNamed(yaml: Yaml, data: Data, provenance: map<string, Value>, body: string, block: string,
          current: string)
    requires yaml.marshal(WithProvenance(data, provenance)) == block + "\n"
    ensures ShouldSkipDoc(yaml, Some(EncodeFrontMatter(yaml, data, provenance) + body), current) <==>
            NamesHash(yaml, UpToFence(block), current)
  {
    hide SplitFront, UpToFence, Fenced, ExtractSourceHash, EqualFold, WithProvenance;
    SplitReadsUpToFence(block, body);
  }

  predicate SameLetter(c: char, d: char) {
    || c == d
    || ('A' <= c <= 'Z' && d as int == c as int + 32)
    || ('A' <= d <= 'Z' && c as int == d as int + 32)
  }

  lemma LowerLetters(c: char, d: char)
    ensures LowerAscii([c])[0] == LowerAscii([d])[0] <==> SameLetter(c, d)
  {
  }

  /** Two hashes agree when they are the same but for the case of letters. */
  lemma EqualFoldExactly(a: string, b: string)
    ensures EqualFold(a, b) <==> |a| == |b| && forall i :: 0 <= i < |a| ==> SameLetter(a[i], b[i])
  {
    if |a| == |b| {
      forall i | 0 <= i < |a|
        ensures LowerAscii(a)[i] == LowerAscii(b)[i] <==> SameLetter(a[i], b[i])
      {
        LowerLetters(a[i], b[i]);
      }
      hide SameLetter;
      assert EqualFold(a, b) <==> forall i :: 0 <= i < |a| ==> LowerAscii(a)[i] == LowerAscii(b)[i];
    }
  }

  /** The hash that is recorded in front matter, and is not blank. */
  predicate HoldsHash(data: Data, h: string) {
    && "x-i18n" in data && data["x-i18n"].Dict?
    && "source_hash" in data["x-i18n"].entries && data["x-i18n"].entries["source_hash"] == Str(h) && !IsBlank(h)
  }

  lemma HashHeld(data: Data)
    ensures forall h :: HoldsHash(data, h) ==> ExtractSourceHash(data) == TrimSpace(h) != ""
    ensures ExtractSourceHash(data) != "" ==> exists h :: HoldsHash(data, h)
  {
    if "x-i18n" in data && data["x-i18n"].Dict? && "source_hash" in data["x-i18n"].entries
       && data["x-i18n"].entries["source_hash"].Str?
    {
      var h := data["x-i18n"].entries["source_hash"].s;
      TrimSpaceBlank(h);
      hide TrimSpace, IsBlank;
      assert HoldsHash(data, h) <==> !IsBlank(h);
    }
  }

  /** A file names a hash exactly when it has readable front matter with that hash, up to case
      and outer white space, in its entry for provenance. */
  lemma NamedExactly(yaml: Yaml, front: string, hash: string)
    ensures NamesHash(yaml, front, hash) <==>
            front != "" && yaml.unmarshal(front).Some?
            && exists h :: HoldsHash(yaml.unmarshal(front).value, h) && EqualFold(TrimSpace(h), hash)
  {
    if front != "" && yaml.unmarshal(front).Some? {
      HashHeld(yaml.unmarshal(front).value);
    }
    hide TrimSpace, EqualFold, HoldsHash, ExtractSourceHash;
  }
}
