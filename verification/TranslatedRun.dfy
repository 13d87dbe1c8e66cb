/** A file's run with the translator itself for a model: which texts are asked for once, and
    which can be asked for again and again. */
module TranslatedRun {
  import opened Wrappers
  import opened Text
  import Masking
  import opened Translator
  import opened BlankReplies
  import opened TranslationMemory
  import opened Process

  lemma SplitUnique(text: string, p: string, c: string, s: string, p': string, c': string, s': string)
    requires IsSplit(text, p, c, s) && IsSplit(text, p', c', s') && c != ""
    ensures c' == c
  {
    var n := |text|;
    assert text[|p|] == c[0] && text[n - |s| - 1] == c[|c| - 1];
    assert forall i :: 0 <= i < |p| ==> text[i] == p[i];
    assert forall i :: 0 <= i < |p'| ==> text[i] == p'[i];
    assert forall i :: 0 <= i < |s| ==> text[n - |s| + i] == s[i];
    assert forall i :: 0 <= i < |s'| ==> text[n - |s'| + i] == s'[i];
    assert |p'| <= |p| && |s'| <= |s|;
    assert text[|p'|] == c'[0] && text[n - |s'| - 1] == c'[|c'| - 1];
    assert |p| <= |p'| && |s| <= |s'|;
    assert c == text[|p|..n - |s|] && c' == text[|p'|..n - |s'|];
  }

  /** The text has a core of which no reply can make a blank. */
  ghost predicate SafeText(text: string) {
    exists prefix, core, suffix :: SafeSplit(text, prefix, core, suffix)
  }

  ghost predicate SafeSplit(text: string, prefix: string, core: string, suffix: string) {
    IsSplit(text, prefix, core, suffix) && core != "" && FewPlaceholders(core) && SafeCore(core)
  }

  lemma BlankAround(prefix: string, out: string, suffix: string)
    ensures IsBlank(prefix + out + suffix) <==> IsBlank(prefix) && IsBlank(out) && IsBlank(suffix)
  {
    BlankJoin(prefix + out, suffix);
    BlankJoin(prefix, out);
  }

  lemma SafeTextIsNeverBlank(text: string, result: string)
    requires SafeText(text) && Yields(text, result)
    ensures !IsBlank(result)
  {
    hide IsSplit, SafeCore, FewPlaceholders, AttemptResult, IsBlank;
    var p, c, s :| SafeSplit(text, p, c, s);
    var p', c', s', reply :| YieldsFrom(text, p', c', s', reply, result);
    SplitUnique(text, p, c, s, p', c', s');
    SafeCoreIsNeverBlank(c, reply);
    BlankAround(p', AttemptResult(c, reply).value, s');
  }

  /** Every result of the model is one that the translator can return for the text. */
  ghost predicate FromTranslator(model: Model) {
    forall n: nat, t: string :: model(n, t).Some? ==> Yields(t, model(n, t).value)
  }

  ghost predicate SafeJobs(jobs: seq<Job>) {
    forall i :: 0 <= i < |jobs| && IsAsked(jobs[i]) ==> SafeText(jobs[i].text)
  }

  lemma TranslatorIsNonBlank(model: Model, jobs: seq<Job>)
    requires FromTranslator(model) && SafeJobs(jobs)
    ensures NonBlankOn(model, jobs)
  {
    hide Yields, SafeText, IsBlank;
    forall n: nat, i: nat | i < |jobs| && IsAsked(jobs[i]) && model(n, jobs[i].text).Some?
      ensures !IsBlank(model(n, jobs[i].text).value)
    {
      SafeTextIsNeverBlank(jobs[i].text, model(n, jobs[i].text).value);
    }
  }

  /** With the translator for a model, whatever the language model replies to it: over the
      safe pieces of a file each key is asked for at most once, and a second run after saving
      and loading the memory asks for nothing and gives the same translations. */
  lemma SafeRunAsksOnce(env: Env, codec: Codec, model: Model, entries: Entries, jobs: seq<Job>, file: string,
          model': Model)
    requires env.KeysNotEmpty() && codec.Lawful() && Consistent(entries)
    requires FromTranslator(model) && SafeJobs(jobs)
    requires file == FileOf(codec, RunJobs(env, model, Cache(entries, []), jobs).cache.entries)
    ensures var first := RunJobs(env, model, Cache(entries, []), jobs);
            var reloaded := LoadFile(codec, Some(file));
            && NoRepeats(first.cache.calls)
            && (first.ok ==>
                  && reloaded.Some?
                  && RunJobs(env, model', Cache(reloaded.value, []), jobs)
                     == Outcome(Cache(reloaded.value, []), first.translations, true))
  {
    hide FromTranslator, SafeJobs, RunJobs, LoadFile, FileOf, NonBlankOn, Codec.Lawful;
    TranslatorIsNonBlank(model, jobs);
    AskedAtMostOnce(env, model, Cache(entries, []), jobs);
    if RunJobs(env, model, Cache(entries, []), jobs).ok {
      SecondRunAsksNothing(env, codec, model, entries, jobs, file, model');
    }
  }

  /** Without a memory file the first run starts, with nothing remembered: the first piece
      that is looked up is asked for. Its translations are those of a second run, after
      saving and loading, which asks for nothing. */
  lemma FirstRunWithoutFile(env: Env, codec: Codec, model: Model, jobs: seq<Job>, file: string, model': Model)
    requires env.KeysNotEmpty() && codec.Lawful() && FromTranslator(model) && SafeJobs(jobs)
    requires LoadFile(codec, None).Some? ==>
               file == FileOf(codec, RunJobs(env, model, Cache(LoadFile(codec, None).value, []), jobs).cache.entries)
    ensures LoadFile(codec, None).Some?
    ensures var first := RunJobs(env, model, Cache(LoadFile(codec, None).value, []), jobs);
            && (jobs != [] && IsAsked(jobs[0]) ==> env.Key(jobs[0]) in first.cache.calls)
            && NoRepeats(first.cache.calls)
            && (first.ok ==>
                  && LoadFile(codec, Some(file)).Some?
                  && var reloaded := LoadFile(codec, Some(file)).value;
                     RunJobs(env, model', Cache(reloaded, []), jobs)
                       == Outcome(Cache(reloaded, []), first.translations, true))
  {
    hide FromTranslator, SafeJobs, RunJobs, FileOf, Codec.Lawful;
    SafeRunAsksOnce(env, codec, model, map[], jobs, file, model');
    if jobs != [] && IsAsked(jobs[0]) {
      FirstIsCalled(env, model, jobs);
    }
  }

  /** The model that gives this result for this text, and nothing for any other. */
  function OnlyAnswer(text: string, result: string): Model {
    (n: nat, t: string) => if t == text then Some(result) else None
  }

  /** The piece is remembered after a successful call, whatever the translator returned. */
  ghost predicate AlwaysRemembered(env: Env, c: Cache, job: Job) {
    forall model: Model | FromTranslator(model) && model(|c.calls|, job.text).Some? :: Remembers(env, model, c, job)
  }

  ghost predicate Remembers(env: Env, model: Model, c: Cache, job: Job) {
    var c' := Step(env, model, c, job).0;
    Step(env, model, c', job).0.calls == c'.calls
  }

  lemma CanBeForgotten(env: Env, c: Cache, job: Job, prefix: string, core: string, suffix: string, reply: Reply)
    requires env.KeysNotEmpty() && IsAsked(job) && Lookup(c.entries, env.Key(job)).None?
    requires IsSplit(job.text, prefix, core, suffix) && core != ""
    requires AttemptResult(core, reply).Success? && IsBlank(AttemptResult(core, reply).value)
    ensures !AlwaysRemembered(env, c, job)
  {
    hide AttemptResult;
    var result := prefix + AttemptResult(core, reply).value + suffix;
    var model := OnlyAnswer(job.text, result);
    assert YieldsFrom(job.text, prefix, core, suffix, reply, result);
    assert FromTranslator(model);
    BlankAround(prefix, AttemptResult(core, reply).value, suffix);
    assert IsBlank(result);
    BlankResultIsForgotten(env, model, c, job);
    assert !Remembers(env, model, c, job);
  }

  /** For every piece each of whose masked parts is firm, white space or part of a later
      placeholder: it is remembered after any successful call exactly when its core is safe,
      which can be seen before the call. */
  lemma RememberedExactly(env: Env, c: Cache, job: Job, prefix: string, core: string, suffix: string)
    requires env.KeysNotEmpty() && IsAsked(job) && Lookup(c.entries, env.Key(job)).None?
    requires IsSplit(job.text, prefix, core, suffix) && core != "" && FewPlaceholders(core) && PartsAreDecided(core)
    ensures AlwaysRemembered(env, c, job) <==> SafeCore(core)
  {
    hide SafeCore, FewPlaceholders, PartsAreDecided, IsSplit, AttemptResult, Yields, IsBlank;
    NeverBlankExactly(core);
    if SafeCore(core) {
      assert SafeSplit(job.text, prefix, core, suffix);
      forall model: Model | FromTranslator(model) && model(|c.calls|, job.text).Some?
        ensures Remembers(env, model, c, job)
      {
        SafeTextIsNeverBlank(job.text, model(|c.calls|, job.text).value);
        BlankResultIsForgotten(env, model, c, job);
      }
    } else {
      var reply: Reply :| AttemptResult(core, reply).Success? && IsBlank(AttemptResult(core, reply).value);
      CanBeForgotten(env, c, job, prefix, core, suffix, reply);
    }
  }

  lemma WholeIsCore(core: string)
    requires core != "" && !IsEdgeSpace(core[0]) && !IsEdgeSpace(core[|core| - 1])
    ensures IsSplit(core, "", core, "")
  {
    assert "" + core + "" == core;
  }

  lemma BlankLinkIsCore()
    ensures BLANK_LINK != "" && IsSplit(BLANK_LINK, "", BLANK_LINK, "")
  {
    WholeIsCore(BLANK_LINK);
  }

  /** The piece that shows it: an empty link to a blank is asked for again after a reply of
      its placeholder alone. */
  lemma BlankLinkCanBeForgotten(env: Env, c: Cache, id: string)
    requires env.KeysNotEmpty() && Lookup(c.entries, env.Key(Segment(id, BLANK_LINK))).None?
    ensures !AlwaysRemembered(env, c, Segment(id, BLANK_LINK))
  {
    hide AlwaysRemembered, AttemptResult, IsSplit, FewPlaceholders, PartsAreDecided, SafeCore;
    BlankLinkBecomesBlank();
    BlankLinkIsCore();
    assert IsBlank(" ");
    CanBeForgotten(env, c, Segment(id, BLANK_LINK), "", BLANK_LINK, "", Success(Masking.TOKEN));
  }
}
