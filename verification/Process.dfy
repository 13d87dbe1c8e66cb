/** Translating a file piece by piece through the translation memory. The model is an
    arbitrary function of the number of the call and the text; a call can fail. */
module Process {
  import opened Wrappers
  import opened Text
  import opened TranslationMemory

  /** A front matter snippet is left alone when blank; a body segment never is blank. */
  datatype Job = Snippet(id: string, text: string) | Segment(id: string, text: string)

  /** Everything that goes into an entry beside the piece itself: the key and the hash of a
      text, and the fixed fields. */
  datatype Env = Env(cacheKey: (string, string) -> string, textHash: string -> string, blank: Entry, sourcePath: string)
  {
    function Key(job: Job): string {
      cacheKey(job.id, textHash(job.text))
    }

    function NewEntry(job: Job, translated: string): Entry {
      blank.(cacheKey := Key(job), segmentId := job.id, textHash := textHash(job.text), text := job.text,
        translated := translated,
             sourcePath := if job.Snippet? then job.id else sourcePath)
    }

    ghost predicate KeysNotEmpty() {
      forall id, hash :: cacheKey(id, hash) != ""
    }
  }

  type Model = (nat, string) -> Option<string>

  /** The memory and the keys of the calls made so far. */
  datatype Cache = Cache(entries: Entries, calls: seq<string>)

  /** One piece: from the memory if it is there, otherwise from the model. */
  function Step(env: Env, model: Model, c: Cache, job: Job): (Cache, Option<string>) {
    if !IsAsked(job) then (c, Some(job.text))
    else
      var hit := Lookup(c.entries, env.Key(job));
      if hit.Some? then (c, Some(hit.value.translated))
      else
        var reply := model(|c.calls|, job.text);
        var calls := c.calls + [env.Key(job)];
        if reply.None? then (Cache(c.entries, calls), None)
        else (Cache(Stored(c.entries, env.NewEntry(job, reply.value)), calls), reply)
  }

  datatype Outcome = Outcome(cache: Cache, translations: seq<string>, ok: bool)

  /** The pieces in order, up to the first failing call. */
  function RunJobs(env: Env, model: Model, c: Cache, jobs: seq<Job>): Outcome
    decreases |jobs|
  {
    if jobs == [] then Outcome(c, [], true)
    else
      var (c', t) := Step(env, model, c, jobs[0]);
      if t.None? then Outcome(c', [], false)
      else
        var rest := RunJobs(env, model, c', jobs[1..]);
        Outcome(rest.cache, [t.value] + rest.translations, rest.ok)
  }

  class FileRun {
    const env: Env
    const model: Model
    const memory: Memory
    var calls: seq<string>

    constructor (env: Env, model: Model, memory: Memory)
      ensures this.env == env && this.model == model && this.memory == memory && calls == []
    {
      this.env, this.model, this.memory := env, model, memory;
      calls := [];
    }

    ghost function State(): Cache
      reads this, memory
    {
      Cache(memory.entries, calls)
    }

    method TranslatePiece(job: Job) returns (translated: Option<string>)
      modifies this, memory
      ensures (State(), translated) == Step(env, model, old(State()), job)
    {
      if job.Snippet? && IsBlank(job.text) {
        return Some(job.text);
      }
      var hit := memory.Get(env.Key(job));
      if hit.Some? {
        return Some(hit.value.translated);
      }
      translated := model(|calls|, job.text);
      calls := calls + [env.Key(job)];
      if translated.None? {
        return;
      }
      memory.Put(env.NewEntry(job, translated.value));
    }

    method TranslateAll(jobs: seq<Job>) returns (translations: seq<string>, ok: bool)
      modifies this, memory
      ensures Outcome(State(), translations, ok) == RunJobs(env, model, old(State()), jobs)
    {
      translations := [];
      for i := 0 to |jobs|
        invariant var rest := RunJobs(env, model, State(), jobs[i..]);
                  Outcome(rest.cache, translations + rest.translations, rest.ok)
                    == RunJobs(env, model, old(State()), jobs)
      {
        assert jobs[i..][0] == jobs[i] && jobs[i..][1..] == jobs[i + 1..];
        var t := TranslatePiece(jobs[i]);
        if t.None? {
          assert translations + [] == translations;
          return translations, false;
        }
        ghost var before := translations;
        translations := translations + [t.value];
        assert forall more: seq<string> :: before + ([t.value] + more) == translations + more;
      }
      return translations, true;
    }
  }

  // ---------------------------------------------------------------- how often the model is asked

  /** The pieces that are looked up and, if need be, asked for. */
  predicate IsAsked(job: Job) {
    !(job.Snippet? && IsBlank(job.text))
  }

  /** At no call the model answers one of these pieces with a blank. */
  ghost predicate NonBlankOn(model: Model, jobs: seq<Job>) {
    forall n: nat, i: nat :: i < |jobs| && IsAsked(jobs[i]) && model(n, jobs[i].text).Some? ==>
      !IsBlank(model(n, jobs[i].text).value)
  }

  ghost predicate Remembered(entries: Entries, keys: seq<string>) {
    forall i :: 0 <= i < |keys| ==> Lookup(entries, keys[i]).Some?
  }

  /** What a lookup finds it keeps finding. */
  ghost predicate Extends(before: Entries, after: Entries) {
    forall k :: Lookup(before, k).Some? ==> Lookup(after, k) == Lookup(before, k)
  }

  ghost predicate NoRepeats(keys: seq<string>) {
    forall i, j :: 0 <= i < j < |keys| ==> keys[i] != keys[j]
  }

  /** All calls but a failed last one are remembered, and none was made twice. */
  ghost predicate CallsOk(c: Cache, ok: bool) {
    NoRepeats(c.calls) && Remembered(c.entries, if ok || c.calls == [] then c.calls else c.calls[..|c.calls| - 1])
  }

  lemma StepAsksOnce(env: Env, model: Model, c: Cache, job: Job)
    requires env.KeysNotEmpty() && NonBlankOn(model, [job]) && CallsOk(c, true)
    ensures var (c', t) := Step(env, model, c, job);
            && CallsOk(c', t.Some?) && Extends(c.entries, c'.entries)
            && (t.Some? && IsAsked(job) ==>
                  Lookup(c'.entries, env.Key(job)).Some?
                    && Lookup(c'.entries, env.Key(job)).value.translated == t.value)
  {
    assert env.Key(job) != "" && [job][0] == job;
  }

  /** With a model that never answers these pieces with blanks: each key is asked for at most once over
      all the pieces of a file, and every piece that was translated is remembered with the
      translation that was used for it. */
  lemma {:induction false} AskedAtMostOnce(env: Env, model: Model, c: Cache, jobs: seq<Job>)
    requires env.KeysNotEmpty() && NonBlankOn(model, jobs) && CallsOk(c, true)
    ensures var r := RunJobs(env, model, c, jobs);
            && CallsOk(r.cache, r.ok) && Extends(c.entries, r.cache.entries)
            && (r.ok ==> |r.translations| == |jobs|)
            && (r.ok ==> forall i :: 0 <= i < |jobs| ==> Answers(env, r.cache.entries, jobs[i], r.translations[i]))
    decreases |jobs|
  {
    if jobs != [] {
      var (c', t) := Step(env, model, c, jobs[0]);
      assert NonBlankOn(model, [jobs[0]]) && NonBlankOn(model, jobs[1..]);
      StepAsksOnce(env, model, c, jobs[0]);
      if t.Some? {
        AskedAtMostOnce(env, model, c', jobs[1..]);
      }
    }
  }

  /** The memory answers the piece with this translation, without a call. */
  predicate Answers(env: Env, entries: Entries, job: Job, translation: string) {
    if !IsAsked(job) then translation == job.text
    else Lookup(entries, env.Key(job)).Some? && Lookup(entries, env.Key(job)).value.translated == translation
  }

  lemma {:induction false} AnsweredWithoutCalls(env: Env, model: Model, c: Cache, jobs: seq<Job>,
          translations: seq<string>)
    requires |translations| == |jobs|
    requires forall i :: 0 <= i < |jobs| ==> Answers(env, c.entries, jobs[i], translations[i])
    ensures RunJobs(env, model, c, jobs) == Outcome(c, translations, true)
  {
    if jobs != [] {
      assert Answers(env, c.entries, jobs[0], translations[0]);
      AnsweredWithoutCalls(env, model, c, jobs[1..], translations[1..]);
      assert translations == [translations[0]] + translations[1..];
    }
  }

  /** A second run over the same pieces, after saving the memory and loading it again, asks
      the model nothing, whatever the model is by then, and gives the same translations. */
  lemma SecondRunAsksNothing(env: Env, codec: Codec, model: Model, entries: Entries, jobs: seq<Job>, file: string,
          model': Model)
    requires env.KeysNotEmpty() && NonBlankOn(model, jobs) && codec.Lawful() && Consistent(entries)
    requires RunJobs(env, model, Cache(entries, []), jobs).ok
    requires file == FileOf(codec, RunJobs(env, model, Cache(entries, []), jobs).cache.entries)
    ensures var first := RunJobs(env, model, Cache(entries, []), jobs);
            var reloaded := LoadFile(codec, Some(file));
            && reloaded.Some?
            && RunJobs(env, model', Cache(reloaded.value, []), jobs)
               == Outcome(Cache(reloaded.value, []), first.translations, true)
  {
    var first := RunJobs(env, model, Cache(entries, []), jobs);
    AskedAtMostOnce(env, model, Cache(entries, []), jobs);
    ConsistentAfterRun(env, model, Cache(entries, []), jobs);
    LoadAfterSave(codec, first.cache.entries, file);
    var reloaded := LoadFile(codec, Some(file)).value;
    forall i | 0 <= i < |jobs|
      ensures Answers(env, reloaded, jobs[i], first.translations[i])
    {
      assert Answers(env, first.cache.entries, jobs[i], first.translations[i]);
      assert Lookup(reloaded, env.Key(jobs[i])) == Lookup(first.cache.entries, env.Key(jobs[i]));
    }
    AnsweredWithoutCalls(env, model', Cache(reloaded, []), jobs, first.translations);
  }

  lemma {:induction false} ConsistentAfterRun(env: Env, model: Model, c: Cache, jobs: seq<Job>)
    requires Consistent(c.entries)
    ensures Consistent(RunJobs(env, model, c, jobs).cache.entries)
    decreases |jobs|
  {
    if jobs != [] {
      var (c', t) := Step(env, model, c, jobs[0]);
      if t.Some? {
        ConsistentAfterRun(env, model, c', jobs[1..]);
      }
    }
  }

  // ---------------------------------------------------------------- what is asked for and what is stored

  /** A snippet that is all white space is given back as it is and costs no call. */
  lemma BlankSnippetIsKept(env: Env, model: Model, c: Cache, id: string, text: string)
    requires IsBlank(text)
    ensures Step(env, model, c, Snippet(id, text)) == (c, Some(text))
  {
  }

  /** The entry tells which piece it is for: its text, with the hash and the key made from them,
      and where it is from; the rest is the same in every entry. */
  predicate TellsOf(env: Env, job: Job, e: Entry) {
    && e.text == job.text && e.segmentId == job.id
    && e.textHash == env.textHash(e.text) && e.cacheKey == env.cacheKey(e.segmentId, e.textHash)
    && e.sourcePath == (match job case Snippet(id, _) => id case Segment(_, _) => env.sourcePath)
    && e.provider == env.blank.provider && e.model == env.blank.model && e.srcLang == env.blank.srcLang
    && e.tgtLang == env.blank.tgtLang && e.updatedAt == env.blank.updatedAt
  }

  ghost predicate TellsOfSome(env: Env, jobs: seq<Job>, e: Entry) {
    exists job :: job in jobs && TellsOf(env, job, e)
  }

  /** The key belongs to a segment or to a snippet that is not blank. */
  predicate AsksFor(env: Env, job: Job, key: string) {
    key == env.cacheKey(job.id, env.textHash(job.text)) && (job.Segment? || !IsBlank(job.text))
  }

  ghost predicate AsksForSome(env: Env, jobs: seq<Job>, key: string) {
    exists job :: job in jobs && AsksFor(env, job, key)
  }

  /** From one memory to the next, what is new is for these pieces. */
  ghost predicate AddedFor(env: Env, before: Cache, after: Cache, jobs: seq<Job>) {
    && (forall key :: key in after.entries ==>
          (key in before.entries && after.entries[key] == before.entries[key])
            || TellsOfSome(env, jobs, after.entries[key]))
    && before.calls <= after.calls
    && forall i :: |before.calls| <= i < |after.calls| ==> AsksForSome(env, jobs, after.calls[i])
  }

  lemma StepAddsFor(env: Env, model: Model, c: Cache, job: Job)
    ensures AddedFor(env, c, Step(env, model, c, job).0, [job])
  {
    hide IsBlank;
    var (c', t) := Step(env, model, c, job);
    assert [job][0] == job;
    assert IsAsked(job) ==> AsksFor(env, job, env.Key(job));
    if c'.entries != c.entries {
      assert TellsOf(env, job, env.NewEntry(job, t.value));
    }
  }

  lemma MoreJobs(env: Env, job: Job, rest: seq<Job>, e: Entry, key: string)
    ensures TellsOfSome(env, [job], e) || TellsOfSome(env, rest, e) ==> TellsOfSome(env, [job] + rest, e)
    ensures AsksForSome(env, [job], key) || AsksForSome(env, rest, key) ==> AsksForSome(env, [job] + rest, key)
  {
    hide TellsOf, AsksFor;
    assert forall x :: x in [job] || x in rest ==> x in [job] + rest;
  }

  lemma AddedForBoth(env: Env, a: Cache, b: Cache, c: Cache, job: Job, rest: seq<Job>)
    requires AddedFor(env, a, b, [job]) && AddedFor(env, b, c, rest)
    ensures AddedFor(env, a, c, [job] + rest)
  {
    hide TellsOfSome, AsksForSome;
    forall key | key in c.entries && !(key in a.entries && c.entries[key] == a.entries[key])
      ensures TellsOfSome(env, [job] + rest, c.entries[key])
    {
      MoreJobs(env, job, rest, c.entries[key], key);
    }
    forall i | |a.calls| <= i < |c.calls|
      ensures AsksForSome(env, [job] + rest, c.calls[i])
    {
      if i < |b.calls| {
        assert c.calls[i] == b.calls[i];
      }
      MoreJobs(env, job, rest, env.blank, c.calls[i]);
    }
  }

  /** Over all the pieces of a file: every entry that was not there before tells of one of the
      pieces, and every call is for one of them that is not blank. */
  lemma {:induction false} RunAddsFor(env: Env, model: Model, c: Cache, jobs: seq<Job>)
    ensures AddedFor(env, c, RunJobs(env, model, c, jobs).cache, jobs)
    decreases |jobs|
  {
    if jobs != [] {
      var (c', t) := Step(env, model, c, jobs[0]);
      StepAddsFor(env, model, c, jobs[0]);
      assert jobs == [jobs[0]] + jobs[1..];
      if t.Some? {
        RunAddsFor(env, model, c', jobs[1..]);
        AddedForBoth(env, c, c', RunJobs(env, model, c', jobs[1..]).cache, jobs[0], jobs[1..]);
      } else {
        NothingAdded(env, c', jobs[1..]);
        AddedForBoth(env, c, c', c', jobs[0], jobs[1..]);
      }
    }
  }

  lemma NothingAdded(env: Env, c: Cache, jobs: seq<Job>)
    ensures AddedFor(env, c, c, jobs)
  {
  }

  lemma {:induction false} CallsAreKept(env: Env, model: Model, c: Cache, jobs: seq<Job>)
    ensures c.calls <= RunJobs(env, model, c, jobs).cache.calls
    decreases |jobs|
  {
    if jobs != [] {
      var (c', t) := Step(env, model, c, jobs[0]);
      if t.Some? {
        CallsAreKept(env, model, c', jobs[1..]);
      }
    }
  }

  /** With an empty memory the first piece that is looked up is asked for. */
  lemma FirstIsCalled(env: Env, model: Model, jobs: seq<Job>)
    requires jobs != [] && IsAsked(jobs[0])
    ensures env.Key(jobs[0]) in RunJobs(env, model, Cache(map[], []), jobs).cache.calls
  {
    var (c', t) := Step(env, model, Cache(map[], []), jobs[0]);
    assert c'.calls == [env.Key(jobs[0])];
    if t.Some? {
      CallsAreKept(env, model, c', jobs[1..]);
      assert env.Key(jobs[0]) == RunJobs(env, model, c', jobs[1..]).cache.calls[0];
    }
  }

  /** After a call for a piece the memory answers it exactly when the result was not blank;
      a blank one is asked for again. */
  lemma BlankResultIsForgotten(env: Env, model: Model, c: Cache, job: Job)
    requires env.KeysNotEmpty() && IsAsked(job) && Lookup(c.entries, env.Key(job)).None?
    requires model(|c.calls|, job.text).Some?
    ensures var c' := Step(env, model, c, job).0;
            Step(env, model, c', job).0.calls == c'.calls <==> !IsBlank(model(|c.calls|, job.text).value)
  {
    assert env.Key(job) != "";
    var c' := Step(env, model, c, job).0;
    assert |Step(env, model, c', job).0.calls| == |c'.calls| <==> Lookup(c'.entries, env.Key(job)).Some?;
  }
}
