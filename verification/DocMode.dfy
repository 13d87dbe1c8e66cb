/** Translating one whole document: skip it when it is up to date, otherwise send it tagged
    and marked, take the reply apart and write the result. The model, the YAML library and
    the hash are arbitrary functions. */
module DocMode {
  import opened Wrappers
  import opened Text
  import opened FrontMatter
  import Markers = FrontMatterMarkers
  import Tagged = TaggedDocument

  datatype Error =
    | FrontMatterUnreadable
    | TranslationFailed
    | TaggedOutputInvalid(e: Tagged.Error)
    | FrontMatterRemoved
    | MarkerLost(lost: Markers.Error)

  datatype Outcome = SkippedFile | Written(output: string) | Failed(error: Error)

  /** The parts of the surroundings that a run depends on. `provenance` gives the entry that
      records where a document comes from, for the hash of its source. */
  datatype Env = Env(
    yaml: Yaml,
    show: Value -> string,
    hash: string -> string,
    provenance: string -> map<string, Value>,
    overwrite: bool
  )

  type Model = string -> Option<string>

  function ReadFront(env: Env, front: string): Option<Data> {
    if IsBlank(front) then Some(map[]) else env.yaml.unmarshal(front)
  }

  /** A translated document: its front matter without the provenance entry, and its body. */
  datatype Document = Document(data: Data, body: string)

  /** What a reply that came back makes of the source's front matter. */
  function TakeApart(source: Parts, data: Data, markers: seq<Markers.Marker>, reply: string): Result<Document, Error> {
    var sections :- Tagged.ParseTagged(reply).MapFailure((e: Tagged.Error) => TaggedOutputInvalid(e));
    if source.front != "" && IsBlank(sections.front) then Failure(FrontMatterRemoved)
    else
      var data' :- Markers.Apply(data, markers, sections.front).MapFailure((e: Markers.Error) => MarkerLost(e));
      Success(Document(data', sections.body))
  }

  function TranslateDoc(env: Env, source: Parts, model: Model): Result<Document, Error> {
    var data :- ReadFront(env, source.front).ToResult(FrontMatterUnreadable);
    var template := Markers.FrontTemplate(data, env.show);
    var reply :- model(Tagged.FormatTagged(template, source.body)).ToResult(TranslationFailed);
    TakeApart(source, data, Markers.MarkersOf(Markers.Slots(data, env.show)), reply)
  }

  function Output(env: Env, hash: string, doc: Document): string {
    EncodeFrontMatter(env.yaml, doc.data, env.provenance(hash)) + doc.body
  }

  function ProcessDoc(env: Env, content: string, existing: Option<string>, model: Model): Outcome {
    if !env.overwrite && ShouldSkipDoc(env.yaml, existing, env.hash(content)) then SkippedFile
    else
      var doc := TranslateDoc(env, SplitFront(content), model);
      if doc.Failure? then Failed(doc.error) else Written(Output(env, env.hash(content), doc.value))
  }

  method ProcessFileDoc(env: Env, content: string, existing: Option<string>, model: Model) returns (r: Outcome)
    ensures r == ProcessDoc(env, content, existing, model)
  {
    hide Tagged.ParseTagged, Tagged.FormatTagged, Markers.Apply, Markers.FrontTemplate, Markers.Slots,
      Markers.MarkersOf, SplitFront, ShouldSkipDoc, EncodeFrontMatter, IsBlank;
    var currentHash := env.hash(content);
    if !env.overwrite {
      if ShouldSkipDoc(env.yaml, existing, currentHash) {
        return SkippedFile;
      }
    }
    var source := SplitFrontMatter(content);
    var frontData: Data := map[];
    if !IsBlank(source.front) {
      var parsed := env.yaml.unmarshal(source.front);
      if parsed.None? {
        return Failed(FrontMatterUnreadable);
      }
      frontData := parsed.value;
    }
    var template, markers := Markers.BuildFrontmatterTemplate(frontData, env.show);
    var taggedInput := Tagged.FormatTagged(template, source.body);
    var translatedDoc := model(taggedInput);
    if translatedDoc.None? {
      return Failed(TranslationFailed);
    }
    var sections := Tagged.ParseTagged(translatedDoc.value);
    if sections.Failure? {
      return Failed(TaggedOutputInvalid(sections.error));
    }
    if source.front != "" && IsBlank(sections.value.front) {
      return Failed(FrontMatterRemoved);
    }
    var applied := Markers.ApplyFrontmatterTranslations(frontData, markers, sections.value.front);
    if applied.Failure? {
      return Failed(MarkerLost(applied.error));
    }
    return Written(EncodeFrontMatter(env.yaml, applied.value, env.provenance(currentHash)) + sections.value.body);
  }

  /** The provenance entry records the hash, and a hash has no blanks at its ends. */
  ghost predicate WellBehaved(env: Env) {
    && (forall t :: TrimSpace(env.hash(t)) == env.hash(t) && env.hash(t) != "")
    && (forall h :: RecordsHash(env.provenance(h), h))
  }

  function Echo(): Model {
    (t: string) => Some(t)
  }

  // ---------------------------------------------------------------- the next run over the same source

  /** What was written splits into its printed front matter and its body exactly when no line
      of the printed front matter trims to the fence. */
  lemma OutputSplitsExactly(env: Env, hash: string, doc: Document, block: string)
    requires env.yaml.marshal(WithProvenance(doc.data, env.provenance(hash))) == block + "\n"
    ensures SplitFront(Output(env, hash, doc)) == Parts(block, doc.body) <==> !HasFenceLine(block)
  {
    hide SplitFront, HasFenceLine, WithProvenance, Fenced;
    SplitUndoesFenceExactly(block, doc.body);
  }

  /** The next runs, whatever their models, skip the written file for the sources with this
      hash and for no others. */
  ghost predicate SkippedWhenCurrent(env: Env, hash: string, output: string) {
    forall content: string, model: Model ::
      ProcessDoc(env, content, Some(output), model).SkippedFile? <==> EqualFold(hash, env.hash(content))
  }

  lemma SkippedWhenNamed(env: Env, hash: string, doc: Document, block: string, content: string, model: Model)
    requires !env.overwrite && env.yaml.marshal(WithProvenance(doc.data, env.provenance(hash))) == block + "\n"
    ensures ProcessDoc(env, content, Some(Output(env, hash, doc)), model).SkippedFile? <==>
            NamesHash(env.yaml, UpToFence(block), env.hash(content))
  {
    hide ShouldSkipDoc, NamesHash, UpToFence, WithProvenance, TranslateDoc;
    SkipsExactlyWhenNamed(env.yaml, doc.data, env.provenance(hash), doc.body, block, env.hash(content));
  }

  lemma SameFold(front: string, yaml: Yaml, hash: string, other: string)
    requires NamesHash(yaml, front, hash)
    ensures NamesHash(yaml, front, other) <==> EqualFold(hash, other)
  {
    hide ExtractSourceHash, LowerAscii;
  }

  /** Whatever the model replied, exactly: the written file is skipped for its source and for
      no other when the printed front matter, up to the first of its lines that trims to the
      fence, names the hash. This can be seen before the file is written. */
  lemma WrittenThenSkippedExactly(env: Env, content: string, doc: Document, block: string)
    requires !env.overwrite
    requires env.yaml.marshal(WithProvenance(doc.data, env.provenance(env.hash(content)))) == block + "\n"
    ensures SkippedWhenCurrent(env, env.hash(content), Output(env, env.hash(content), doc)) <==>
            NamesHash(env.yaml, UpToFence(block), env.hash(content))
  {
    hide ProcessDoc, Output, NamesHash, UpToFence, WithProvenance, EqualFold;
    var hash := env.hash(content);
    if NamesHash(env.yaml, UpToFence(block), hash) {
      forall content': string, model: Model
        ensures ProcessDoc(env, content', Some(Output(env, hash, doc)), model).SkippedFile? <==>
                EqualFold(hash, env.hash(content'))
      {
        SkippedWhenNamed(env, hash, doc, block, content', model);
        SameFold(UpToFence(block), env.yaml, hash, env.hash(content'));
      }
    } else {
      SkippedWhenNamed(env, hash, doc, block, content, Echo());
      SameAsItself(hash);
      assert !ProcessDoc(env, content, Some(Output(env, hash, doc)), Echo()).SkippedFile?;
    }
  }

  lemma SameAsItself(hash: string)
    ensures EqualFold(hash, hash)
  {
  }

  /** When no printed line trims to the fence that is so: a document that was written is
      skipped by the next run over the same source, which does not ask the model again, and it
      is skipped for no source with another hash. */
  lemma WrittenThenSkipped(env: Env, content: string, model: Model, doc: Document, content': string, model': Model)
    requires WellBehaved(env) && !env.overwrite
    requires TranslateDoc(env, SplitFront(content), model) == Success(doc)
    requires env.yaml.ReadsBack(WithProvenance(doc.data, env.provenance(env.hash(content))))
    requires PrintsWithoutFence(env.yaml, doc.data, env.provenance(env.hash(content)))
    ensures var output := Output(env, env.hash(content), doc);
            ProcessDoc(env, content', Some(output), model').SkippedFile? <==>
              EqualFold(env.hash(content), env.hash(content'))
  {
    hide WellBehaved, PrintsWithoutFence, Yaml.ReadsBack, WithProvenance, TranslateDoc, SplitFront, EqualFold,
      ShouldSkipDoc, RecordsHash, TrimSpace;
    var hash := env.hash(content);
    WellBehavedAt(env, content);
    SkipsExactlyWhenCurrent(env.yaml, doc.data, env.provenance(hash), doc.body, hash, env.hash(content'));
  }

  lemma WellBehavedAt(env: Env, content: string)
    requires WellBehaved(env)
    ensures var hash := env.hash(content);
            RecordsHash(env.provenance(hash), hash) && TrimSpace(hash) == hash != ""
  {
    hide RecordsHash, TrimSpace;
  }

  /** With a model that repeats its input, a document comes out with its body unchanged and
      its front matter trimmed; unless it has front matter, but no string for a summary or a
      title in it and no list for read_when: such a document is refused. */
  lemma EchoDocument(env: Env, source: Parts, data: Data)
    requires ReadFront(env, source.front) == Some(data) && Markers.NoMarkersInValues(data, env.show)
    requires !Contains(Markers.FrontTemplate(data, env.show), Tagged.FRONT_END)
             && !Contains(source.body, Tagged.BODY_END)
    ensures var r := TranslateDoc(env, source, Echo());
            if source.front != "" && Markers.Slots(data, env.show) == [] then r == Failure(FrontMatterRemoved)
            else r.Success? && r.value.data == Markers.Trimmed(data) && r.value.body == source.body
  {
    hide Tagged.ParseTagged, Tagged.FormatTagged, Markers.Apply, Markers.FrontTemplate, Markers.Slots,
      Markers.MarkersOf, Markers.Trimmed, Markers.NoMarkersInValues, Contains, IsBlank;
    Tagged.RoundTripExactly(Markers.FrontTemplate(data, env.show), source.body);
    Markers.UnchangedTemplate(data, env.show);
    Markers.BlankTemplateExactly(data, env.show);
  }

  const AUTHOR_ONLY := "author: me"

  lemma OneLineIsNoFence(s: string)
    requires '\n' !in s && s != "" && !IsSpace(s[0]) && !IsSpace(s[|s| - 1]) && s != FENCE
    ensures !HasFenceLine(s)
  {
    hide IsSpace;
    assert TrimSpace(s) == s;
    assert LineEnd(s) == |s|;
    assert Split(s) == [s];
  }

  lemma OneLineSplits(front: string, body: string)
    requires '\n' !in front && front != "" && !IsSpace(front[0]) && !IsSpace(front[|front| - 1]) && front != FENCE
    ensures SplitFront(Fenced(front + "\n") + body) == Parts(front, body)
  {
    hide SplitFront, Fenced, HasFenceLine;
    OneLineIsNoFence(front);
    SplitUndoesFenceExactly(front, body);
  }

  lemma AuthorOnlySplits(body: string)
    ensures SplitFront(Fenced(AUTHOR_ONLY + "\n") + body) == Parts(AUTHOR_ONLY, body)
  {
    hide SplitFront, Fenced;
    OneLineSplits(AUTHOR_ONLY, body);
  }

  lemma NothingToShow(data: Data, show: Value -> string)
    requires Markers.Slots(data, show) == []
    ensures Markers.FrontTemplate(data, show) == "" && !Contains(Markers.FrontTemplate(data, show), Tagged.FRONT_END)
    ensures Markers.NoMarkersInValues(data, show)
  {
  }

  /** A document that is refused although the reply is perfect: its front matter names only
      the author. */
  lemma AuthorOnlyIsRefused(env: Env, body: string)
    requires env.yaml.unmarshal(AUTHOR_ONLY) == Some(map["author" := Str("me")])
    requires !Contains(body, Tagged.BODY_END)
    ensures ProcessDoc(env, Fenced(AUTHOR_ONLY + "\n") + body, None, Echo()) == Failed(FrontMatterRemoved)
  {
    hide TranslateDoc, SplitFront, ReadFront, ShouldSkipDoc, Fenced, Contains, IsBlank, Markers.Slots,
      Markers.FrontTemplate, Markers.NoMarkersInValues;
    var data: Data := map["author" := Str("me")];
    AuthorOnlySplits(body);
    AuthorOnlyIsRead(env);
    NothingToShow(data, env.show);
    NoFileNoSkip(env.yaml, env.hash(Fenced(AUTHOR_ONLY + "\n") + body));
    EchoDocument(env, Parts(AUTHOR_ONLY, body), data);
  }

  lemma AuthorOnlyIsRead(env: Env)
    requires env.yaml.unmarshal(AUTHOR_ONLY) == Some(map["author" := Str("me")])
    ensures AUTHOR_ONLY != "" && ReadFront(env, AUTHOR_ONLY) == Some(map["author" := Str("me")])
    ensures Markers.Slots(map["author" := Str("me")], env.show) == []
  {
    assert AUTHOR_ONLY[0] == 'a' && !IsSpace('a');
  }

  lemma NoFileNoSkip(yaml: Yaml, hash: string)
    ensures !ShouldSkipDoc(yaml, None, hash)
  {
  }

  // ---------------------------------------------------------------- a fence in a reply

  const SUMMARY := "summary: s"
  const LINES := "a\n---\nb"
  const INDENT := "    "
  const BLOCK_OF := "summary: |-"
  const PRINTED := BLOCK_OF + "\n" + (INDENT + "a" + "\n" + (INDENT + FENCE + "\n" + (INDENT + "b" + "\n")))
  const READ_AGAIN := BLOCK_OF + "\n" + (INDENT + "a")

  /** A model that gives this summary for whatever it is asked, between the markers, and this
      body. */
  function Summarised(show: Value -> string, summary: string, body: string): Model {
    (t: string) => Some(Tagged.FormatTagged(Markers.FrontTemplate(Markers.SummaryOf(summary), show), body))
  }

  lemma SummarySplits(body: string)
    ensures SplitFront(Fenced(SUMMARY + "\n") + body) == Parts(SUMMARY, body)
  {
    hide SplitFront, Fenced;
    OneLineSplits(SUMMARY, body);
  }

  lemma LinesHaveNoMarker()
    ensures Index(LINES, Markers.OPEN).None? && '<' !in LINES && TrimSpace(LINES) == LINES
  {
    assert !IsSpace(LINES[0]) && !IsSpace(LINES[|LINES| - 1]);
    assert '[' !in LINES && '<' !in LINES;
    hide Index, IsSpace;
    NoBracketNoMarker(LINES);
  }

  lemma NoBracketNoMarker(s: string)
    requires '[' !in s
    ensures Index(s, Markers.OPEN).None?
  {
    NotWithoutItsHead(s, Markers.OPEN);
  }

  /** A reply from which the document can be taken. */
  lemma ReplyIsTaken(env: Env, source: Parts, model: Model, data: Data, reply: string, front: string, doc: Document)
    requires ReadFront(env, source.front) == Some(data)
    requires model(Tagged.FormatTagged(Markers.FrontTemplate(data, env.show), source.body)) == Some(reply)
    requires Tagged.ParsesTo(reply, front, doc.body) && !IsBlank(front)
    requires Markers.Apply(data, Markers.MarkersOf(Markers.Slots(data, env.show)), front) == Success(doc.data)
    ensures TranslateDoc(env, source, model) == Success(doc)
  {
    hide Tagged.ParseTagged, Tagged.FormatTagged, Markers.FrontTemplate, Markers.Slots, Markers.MarkersOf,
      Markers.Apply, IsBlank, ReadFront;
  }

  lemma SummaryIsRead(env: Env)
    ensures ReadFront(env, SUMMARY) == env.yaml.unmarshal(SUMMARY)
  {
    assert SUMMARY[0] == 's' && !IsSpace('s');
  }

  /** The reply is accepted, and its summary of three lines is taken over as it is. */
  lemma LinesAreTaken(env: Env, body: string)
    requires env.yaml.unmarshal(SUMMARY) == Some(Markers.SummaryOf("s")) && !Contains(body, Tagged.BODY_END)
    ensures TranslateDoc(env, Parts(SUMMARY, body), Summarised(env.show, LINES, body))
         == Success(Document(Markers.SummaryOf(LINES), body))
  {
    hide Tagged.ParsesTo, Tagged.FormatTagged, Markers.Apply, Markers.FrontTemplate, Markers.Slots, Markers.MarkersOf,
      Markers.SummaryOf, Contains, IsBlank, Index, TrimSpace, TranslateDoc, ReadFront;
    LinesHaveNoMarker();
    SummaryIsRead(env);
    var data, template := Markers.SummaryOf("s"), Markers.FrontTemplate(Markers.SummaryOf(LINES), env.show);
    Markers.NoAngleInTemplate(LINES, env.show);
    NotWithoutItsHead(template, Tagged.FRONT_END);
    Tagged.RoundTripExactly(template, body);
    Markers.SummaryReplied("s", LINES, env.show);
    ReplyIsTaken(env, Parts(SUMMARY, body), Summarised(env.show, LINES, body), data,
      Tagged.FormatTagged(template, body), template, Document(Markers.SummaryOf(LINES), body));
  }

  lemma ThreeLines(a: string, b: string, c: string, rest: string, more: string)
    requires '\n' !in a && '\n' !in b && '\n' !in c
    ensures Split(a + "\n" + (b + "\n" + (c + "\n" + rest)) + more) == [a, b, c] + Split(rest + more)
  {
    hide Split;
    var l2 := rest + more;
    var l1 := c + "\n" + l2;
    var l0 := b + "\n" + l1;
    assert a + "\n" + (b + "\n" + (c + "\n" + rest)) + more == a + "\n" + l0;
    SplitCons(a, l0);
    SplitCons(b, l1);
    SplitCons(c, l2);
  }

  lemma PrintedLines(more: string)
    ensures Split(PRINTED + more) == [BLOCK_OF, INDENT + "a", INDENT + FENCE] + Split(INDENT + "b" + "\n" + more)
  {
    hide Split;
    ThreeLines(BLOCK_OF, INDENT + "a", INDENT + FENCE, INDENT + "b" + "\n", more);
  }

  lemma IndentedTrims(t: string)
    requires t != "" && !IsSpace(t[0]) && !IsSpace(t[|t| - 1])
    ensures TrimSpace(INDENT + t) == t
  {
    hide TrimSpace;
    TrimSpaceIs(INDENT, t, "");
    assert INDENT + t + "" == INDENT + t;
  }

  lemma PrintedTrims()
    ensures TrimSpace(BLOCK_OF) != FENCE && TrimSpace(INDENT + "a") != FENCE && TrimSpace(INDENT + FENCE) == FENCE
  {
    assert BLOCK_OF[0] == 's' && !IsSpace(BLOCK_OF[0]) && !IsSpace(BLOCK_OF[|BLOCK_OF| - 1]);
    assert !IsSpace('a') && !IsSpace('-');
    hide TrimSpace, IsSpace;
    IndentedTrims("a");
    IndentedTrims(FENCE);
    assert TrimSpace(BLOCK_OF) == BLOCK_OF;
  }

  lemma CutInPrinted(more: string)
    ensures UpToFence(PRINTED + more) == READ_AGAIN
  {
    hide Split, TrimSpace, FenceFrom;
    var lines := Split(PRINTED + more);
    PrintedLines(more);
    PrintedTrims();
    FenceIs(lines, 0, 2);
    assert lines[..2] == [BLOCK_OF, INDENT + "a"] && lines[..2][1..] == [INDENT + "a"];
    assert Join([INDENT + "a"]) == INDENT + "a";
  }

  /** A reply can make the run write a document that is never skipped: its summary holds a
      line of three dashes, which the YAML library prints as an indented line of a block and
      the next run takes for the end of the front matter. The rest of the front matter, with
      the hash, is read as part of the body. */
  lemma FenceInReplyIsLost(env: Env, body: string, more: string, model: Model)
    requires !env.overwrite && !Contains(body, Tagged.BODY_END)
    requires env.yaml.unmarshal(SUMMARY) == Some(Markers.SummaryOf("s"))
    requires var hash := env.hash(Fenced(SUMMARY + "\n") + body);
             env.yaml.marshal(WithProvenance(Markers.SummaryOf(LINES), env.provenance(hash))) == PRINTED + more + "\n"
    requires env.yaml.unmarshal(READ_AGAIN) == Some(Markers.SummaryOf("a"))
    ensures var content := Fenced(SUMMARY + "\n") + body;
            var output := Output(env, env.hash(content), Document(Markers.SummaryOf(LINES), body));
            && ProcessDoc(env, content, None, Summarised(env.show, LINES, body)) == Written(output)
            && SplitFront(output) != Parts(PRINTED + more, body)
            && !ProcessDoc(env, content, Some(output), model).SkippedFile?
  {
    hide SplitFront, Fenced, UpToFence, WithProvenance, TranslateDoc, HasFenceLine, Contains, ShouldSkipDoc, TrimSpace;
    var content := Fenced(SUMMARY + "\n") + body;
    var hash, doc := env.hash(content), Document(Markers.SummaryOf(LINES), body);
    SummarySplits(body);
    LinesAreTaken(env, body);
    NoFileNoSkip(env.yaml, hash);
    CutInPrinted(more);
    assert ExtractSourceHash(Markers.SummaryOf("a")) == "";
    SkippedWhenNamed(env, hash, doc, PRINTED + more, content, model);
    PrintedHasFence(more);
    OutputSplitsExactly(env, hash, doc, PRINTED + more);
  }

  lemma PrintedHasFence(more: string)
    ensures HasFenceLine(PRINTED + more)
  {
    PrintedLines(more);
    PrintedTrims();
    hide Split, TrimSpace;
    assert TrimSpace(Split(PRINTED + more)[2]) == FENCE;
  }

  // ---------------------------------------------------------------- when the model is asked at all

  /** Told to overwrite, a run never skips and does not look at the file that is there. */
  lemma OverwritingIgnoresTheFile(env: Env, content: string, existing: Option<string>, model: Model)
    requires env.overwrite
    ensures !ProcessDoc(env, content, existing, model).SkippedFile?
    ensures ProcessDoc(env, content, existing, model) == ProcessDoc(env, content, None, model)
  {
    hide ShouldSkipDoc, TranslateDoc;
  }

  /** Otherwise it skips exactly when the file that is there splits off front matter that
      names the hash of the source, up to case. */
  lemma SkipsExactlyWhenTheFileSaysSo(env: Env, content: string, existing: Option<string>, model: Model)
    requires !env.overwrite
    ensures ProcessDoc(env, content, existing, model).SkippedFile? <==>
            existing.Some? && NamesHash(env.yaml, SplitFront(existing.value).front, env.hash(content))
  {
    hide TranslateDoc, SplitFront, EqualFold, ExtractSourceHash;
  }

  // ---------------------------------------------------------------- when a file is written, and why not

  predicate IsFrontData(env: Env, front: string, data: Data) {
    if IsBlank(front) then data == map[] else env.yaml.unmarshal(front) == Some(data)
  }

  function Prompt(env: Env, data: Data, body: string): string {
    "<frontmatter>\n" + Markers.FrontTemplate(data, env.show) + "\n</frontmatter>\n<body>\n" + body + "\n</body>"
  }

  /** The model replied to the prompt with these two sections. */
  ghost predicate IsReply(env: Env, source: Parts, model: Model, data: Data, reply: string) {
    IsFrontData(env, source.front, data) && model(Prompt(env, data, source.body)) == Some(reply)
  }

  ghost predicate IsTaken(env: Env, source: Parts, model: Model, data: Data, sections: Tagged.Sections) {
    && (exists reply :: IsReply(env, source, model, data, reply) && Tagged.ParseTagged(reply) == Success(sections))
    && (source.front == "" || !IsBlank(sections.front))
  }

  function Filled(env: Env, data: Data, front: string): Result<Data, Markers.Error> {
    Markers.Apply(data, Markers.MarkersOf(Markers.Slots(data, env.show)), front)
  }

  /** Why a run that is not skipped writes nothing. */
  ghost predicate FailsBecause(env: Env, source: Parts, model: Model, e: Error) {
    match e
    case FrontMatterUnreadable => !IsBlank(source.front) && env.yaml.unmarshal(source.front).None?
    case TranslationFailed =>
      exists data :: IsFrontData(env, source.front, data) && model(Prompt(env, data, source.body)).None?
    case TaggedOutputInvalid(t) =>
      exists data, reply :: IsReply(env, source, model, data, reply) && Tagged.ParseTagged(reply) == Failure(t)
    case FrontMatterRemoved =>
      source.front != "" && exists data, reply :: IsReply(env, source, model, data, reply) && HasBlankFront(reply)
    case MarkerLost(m) =>
      exists data, sections :: IsTaken(env, source, model, data, sections)
                               && Filled(env, data, sections.front) == Failure(m)
  }

  predicate HasBlankFront(reply: string) {
    var r := Tagged.ParseTagged(reply); r.Success? && IsBlank(r.value.front)
  }

  ghost predicate IsTranslation(env: Env, source: Parts, model: Model, doc: Document) {
    exists data, sections :: IsTaken(env, source, model, data, sections) && doc.body == sections.body
                             && Filled(env, data, sections.front) == Success(doc.data)
  }

  lemma PromptIs(env: Env, data: Data, body: string)
    ensures Prompt(env, data, body) == Tagged.FormatTagged(Markers.FrontTemplate(data, env.show), body)
  {
    hide Markers.FrontTemplate;
  }

  lemma TranslatedExactly(env: Env, source: Parts, model: Model, doc: Document, e: Error)
    ensures TranslateDoc(env, source, model) == Success(doc) <==> IsTranslation(env, source, model, doc)
    ensures TranslateDoc(env, source, model) == Failure(e) <==> FailsBecause(env, source, model, e)
  {
    hide Tagged.ParseTagged, Markers.Apply, Markers.MarkersOf, Markers.Slots, Markers.FrontTemplate, IsBlank, Prompt,
      Tagged.FormatTagged;
    var read := ReadFront(env, source.front);
    assert forall data :: IsFrontData(env, source.front, data) <==> read == Some(data);
    if read.Some? {
      var data := read.value;
      PromptIs(env, data, source.body);
      var reply := model(Prompt(env, data, source.body));
      if reply.Some? {
        assert IsReply(env, source, model, data, reply.value);
        var sections := Tagged.ParseTagged(reply.value);
        if sections.Success? && (source.front == "" || !IsBlank(sections.value.front)) {
          assert IsTaken(env, source, model, data, sections.value);
        }
      }
    }
  }

  /** A file is written exactly when it is not skipped and the model's reply to the tagged and
      marked document could be taken apart; it is then the fenced front matter, with its
      provenance, before the body. Otherwise it fails, for the reason given above. */
  lemma OutcomeExactly(env: Env, content: string, existing: Option<string>, model: Model, output: string, e: Error)
    ensures ProcessDoc(env, content, existing, model) == Written(output) <==>
            !ProcessDoc(env, content, existing, model).SkippedFile?
            && exists doc :: IsTranslation(env, SplitFront(content), model, doc)
                             && output == WrittenText(env, env.hash(content), doc)
    ensures ProcessDoc(env, content, existing, model) == Failed(e) <==>
            !ProcessDoc(env, content, existing, model).SkippedFile?
            && FailsBecause(env, SplitFront(content), model, e)
  {
    hide TranslateDoc, SplitFront, IsTranslation, FailsBecause, ShouldSkipDoc;
    var source := SplitFront(content);
    forall doc
      ensures TranslateDoc(env, source, model) == Success(doc) <==> IsTranslation(env, source, model, doc)
    {
      TranslatedExactly(env, source, model, doc, e);
    }
    TranslatedExactly(env, source, model, Document(map[], ""), e);
  }

  function WrittenText(env: Env, hash: string, doc: Document): string {
    "---\n" + env.yaml.marshal(doc.data["x-i18n" := Dict(env.provenance(hash))]) + "---\n\n" + doc.body
  }
}
