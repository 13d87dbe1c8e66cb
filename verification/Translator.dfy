/** The translator around the model: white space kept aside, masking, the checks on the
    reply, and the retries. The model is an arbitrary function of the attempt and the prompt. */
module Translator {
  import opened Wrappers
  import opened Text
  import opened Placeholders
  import opened Masking

  const MAX_ATTEMPTS: nat := 3

  /** A prompt that ran out of time or was cancelled, an empty reply, a reply without one of
      the placeholders, or any other error with its lower-cased message. */
  datatype Error =
    | ContextEnded
    | EmptyTranslation
    | PlaceholderMissing(placeholder: string)
    | Other(message: string)

  type Reply = Result<string, Error>

  predicate IsRetryable(e: Error) {
    match e
    case ContextEnded => false
    case EmptyTranslation => true
    case PlaceholderMissing(_) => true
    case Other(m) =>
      Index(m, "authentication failed").None?
      && (Index(m, "placeholder missing").Some? || Index(m, "rate limit").Some? || Index(m, "429").Some?)
  }

  predicate IsEdgeSpace(c: char) {
    c == ' ' || c == '\t' || c == '\n' || c == '\r'
  }

  /** The text is white space, a core without white space at its ends, and white space. */
  ghost predicate IsSplit(text: string, prefix: string, core: string, suffix: string) {
    && text == prefix + core + suffix
    && (forall i :: 0 <= i < |prefix| ==> IsEdgeSpace(prefix[i]))
    && (forall i :: 0 <= i < |suffix| ==> IsEdgeSpace(suffix[i]))
    && (core != "" ==> !IsEdgeSpace(core[0]) && !IsEdgeSpace(core[|core| - 1]))
  }

  method SplitWhitespace(text: string) returns (prefix: string, core: string, suffix: string)
    ensures IsSplit(text, prefix, core, suffix)
    ensures forall i :: 0 <= i < |prefix + suffix| ==> (prefix + suffix)[i] in [' ', '\t', '\n', '\r']
    ensures core != "" ==> core[0] !in [' ', '\t', '\n', '\r'] && core[|core| - 1] !in [' ', '\t', '\n', '\r']
  {
    var start: nat := 0;
    while start < |text| && IsEdgeSpace(text[start])
      invariant start <= |text| && forall i :: 0 <= i < start ==> IsEdgeSpace(text[i])
    {
      start := start + 1;
    }
    var end: nat := |text|;
    while end > start && IsEdgeSpace(text[end - 1])
      invariant start <= end <= |text| && forall i :: end <= i < |text| ==> IsEdgeSpace(text[i])
    {
      end := end - 1;
    }
    prefix, core, suffix := text[..start], text[start..end], text[end..];
  }

  /** What one attempt makes of the model's reply to the masked text. */
  function AttemptResult(core: string, reply: Reply): Reply {
    PlaceholdersNotEmpty(core);
    var snap := MaskText(core).snap;
    if reply.Failure? then reply
    else
      var translated := TrimSpace(reply.value);
      if translated == "" then Failure(EmptyTranslation)
      else
        var missing := FirstMissing(translated, snap.placeholders);
        if missing.Some? then Failure(PlaceholderMissing(missing.value))
        else Success(Unmask(translated, snap.placeholders, snap.mapping))
  }

  /** What an attempt comes to: a failed call fails as it did, a blank reply is an empty
      translation, and any other one is unmasked, unless it lacks a placeholder. */
  lemma AttemptOutcomes(core: string, reply: Reply, k: nat)
    ensures "" !in MaskText(core).snap.placeholders
    ensures reply.Failure? ==> AttemptResult(core, reply) == reply
    ensures reply.Success? && IsBlank(reply.value) ==> AttemptResult(core, reply) == Failure(EmptyTranslation)
    ensures var snap := MaskText(core).snap;
            reply.Success? && !IsBlank(reply.value) && IsFirstMissing(TrimSpace(reply.value), snap.placeholders, k) ==>
              AttemptResult(core, reply) == Failure(PlaceholderMissing(snap.placeholders[k]))
    ensures var snap := MaskText(core).snap;
            reply.Success? && !IsBlank(reply.value) && Accepts(TrimSpace(reply.value), snap.placeholders) ==>
              AttemptResult(core, reply) == Success(Unmask(TrimSpace(reply.value), snap.placeholders, snap.mapping))
  {
    PlaceholdersNotEmpty(core);
    if reply.Success? {
      var placeholders := MaskText(core).snap.placeholders;
      TrimSpaceBlank(reply.value);
      if IsFirstMissing(TrimSpace(reply.value), placeholders, k) {
        FirstMissingIs(TrimSpace(reply.value), placeholders, k);
      }
      hide MaskText, TrimSpace, IsBlank, Unmask, IsFirstMissing;
    }
  }

  /** The attempts at one core, as a function of their number. */
  function Attempts(core: string, model: (nat, string) -> Reply): nat -> Reply {
    (k: nat) => AttemptResult(core, model(k, MaskText(core).text))
  }

  method TranslateMasked(core: string, attempt: nat, model: (nat, string) -> Reply) returns (r: Reply)
    ensures r == Attempts(core, model)(attempt)
  {
    PlaceholdersNotEmpty(core);
    var state := new PlaceholderState(core);
    var table := new MaskTable();
    var masked := MaskMarkdown(core, state, table);
    assert Masked(masked, Snap(state, table)) == MaskText(core);
    var reply := model(attempt, masked);
    if reply.Failure? {
      return reply;
    }
    var translated := TrimSpace(reply.value);
    if translated == "" {
      return Failure(EmptyTranslation);
    }
    var missing := ValidatePlaceholders(translated, table.placeholders);
    if missing.Some? {
      return Failure(PlaceholderMissing(missing.value));
    }
    var out := UnmaskMarkdown(translated, table.placeholders, table.mapping);
    return Success(out);
  }

  /** A result that ends the attempts, unless they are used up. */
  predicate IsFinal(r: Reply) {
    r.Success? || !IsRetryable(r.error)
  }

  /** The outcome of the attempts from number k on, and the number of the last one made: they
      go on until one succeeds, fails for good, is the last, or is followed by a pause that is
      cut short. */
  function RetryFrom(run: nat -> Reply, pauses: nat -> bool, k: nat): (Reply, nat)
    requires k < MAX_ATTEMPTS
    decreases MAX_ATTEMPTS - k
  {
    if IsFinal(run(k)) || k + 1 == MAX_ATTEMPTS then (run(k), k)
    else if !pauses(k) then (Failure(ContextEnded), k)
    else RetryFrom(run, pauses, k + 1)
  }

  method TranslateWithRetry(run: nat -> Reply, pauses: nat -> bool) returns (r: Reply, last: nat)
    ensures (r, last) == RetryFrom(run, pauses, 0)
  {
    for attempt: nat := 0 to MAX_ATTEMPTS
      invariant attempt < MAX_ATTEMPTS
      invariant RetryFrom(run, pauses, attempt) == RetryFrom(run, pauses, 0)
    {
      var translated := run(attempt);
      if IsFinal(translated) {
        return translated, attempt;
      }
      if attempt + 1 < MAX_ATTEMPTS {
        if !pauses(attempt) {
          return Failure(ContextEnded), attempt;
        }
      } else {
        return translated, attempt;
      }
    }
  }

  /** The attempt went wrong in a way that may pass: the reply was empty, or a placeholder was
      lost, or the message speaks of a rate limit or of a lost placeholder and not of a failed
      authentication. */
  ghost predicate MayPass(r: Reply) {
    r == Failure(EmptyTranslation)
    || (exists p: string :: r == Failure(PlaceholderMissing(p)))
    || (exists m: string :: r == Failure(Other(m)) && !Contains(m, "authentication failed")
                            && (Contains(m, "placeholder missing") || Contains(m, "rate limit") || Contains(m, "429")))
  }

  lemma MayPassExactly(r: Reply)
    ensures MayPass(r) <==> !IsFinal(r)
  {
    hide Index;
  }

  /** After an attempt that may pass there is another one, unless it was the last or the pause
      is cut short. */
  lemma GoesOnWhenItMayPass(run: nat -> Reply, pauses: nat -> bool, k: nat)
    requires k < 3 && MayPass(run(k))
    ensures RetryFrom(run, pauses, k)
         == if k == 2 then (run(k), k)
            else if pauses(k) then RetryFrom(run, pauses, k + 1) else (Failure(ContextEnded), k)
  {
    MayPassExactly(run(k));
  }

  /** Success, a context that ended, a failed authentication and every other message end the
      attempts at once. */
  lemma EndsOtherwise(run: nat -> Reply, pauses: nat -> bool, k: nat)
    requires k < 3 && !MayPass(run(k))
    ensures RetryFrom(run, pauses, k) == (run(k), k)
  {
    MayPassExactly(run(k));
  }

  /** The attempts never go past the third, and what comes out is what one of them gave, or
      the end of the context. */
  lemma {:induction false} RetryGivesAnAttempt(run: nat -> Reply, pauses: nat -> bool, k: nat)
    requires k < MAX_ATTEMPTS
    ensures var (r, last) := RetryFrom(run, pauses, k);
            && k <= last < 3 && (r == run(last) || (!pauses(last) && r == Failure(ContextEnded)))
            && (r.Success? ==> r == run(last)) && (forall i: nat :: k <= i < last ==> !run(i).Success?)
    decreases MAX_ATTEMPTS - k
  {
    hide IsRetryable;
    if !IsFinal(run(k)) && k + 1 < MAX_ATTEMPTS && pauses(k) {
      RetryGivesAnAttempt(run, pauses, k + 1);
    }
  }

  /** A placeholder is lost in the first reply and all are in the second: the second counts. */
  lemma SecondReplyCounts(core: string, model: (nat, string) -> Reply, pauses: nat -> bool, lost: string,
          first: string, second: string)
    requires model(0, MaskText(core).text) == Success(first) && model(1, MaskText(core).text) == Success(second)
    requires lost in MaskText(core).snap.placeholders && !Contains(TrimSpace(first), lost) && pauses(0)
    requires TrimSpace(second) != "" && Accepts(TrimSpace(second), MaskText(core).snap.placeholders)
    ensures "" !in MaskText(core).snap.placeholders
    ensures var snap := MaskText(core).snap;
            RetryFrom(Attempts(core, model), pauses, 0) ==
              (Success(Unmask(TrimSpace(second), snap.placeholders, snap.mapping)), 1)
  {
    hide MaskText, Contains, Unmask, TrimSpace, Accepts;
    PlaceholdersNotEmpty(core);
    var run := Attempts(core, model);
    LostIsMissing(core, first, lost);
    assert run(0) == AttemptResult(core, Success(first)) && MayPass(run(0));
    GoesOnWhenItMayPass(run, pauses, 0);
    assert run(1) == AttemptResult(core, Success(second)) && !MayPass(run(1));
    EndsOtherwise(run, pauses, 1);
  }

  lemma LostIsMissing(core: string, reply: string, lost: string)
    requires lost in MaskText(core).snap.placeholders && !Contains(TrimSpace(reply), lost)
    ensures var a := AttemptResult(core, Success(reply));
            a == Failure(EmptyTranslation) || (exists p: string :: a == Failure(PlaceholderMissing(p)))
  {
    hide MaskText, Contains, Unmask, TrimSpace;
    var ps := MaskText(core).snap.placeholders;
    var i :| 0 <= i < |ps| && ps[i] == lost;
    assert !Accepts(TrimSpace(reply), ps);
  }

  /** The core is the result with white space put around it. */
  ghost predicate TrimmedFrom(core: string, result: string) {
    exists a, b :: IsBlank(a) && IsBlank(b) && core == a + result + b
  }

  lemma EchoOfBlank(core: string)
    requires IsBlank(core) && NoStray(core)
    ensures NoneCaptured(MaskText(core).snap) && !HasEdges(core)
    ensures AttemptResult(core, Success(MaskText(core).text)) == Failure(EmptyTranslation)
  {
    hide TrimSpace, NoStray;
    BlankIsUnmasked(core);
    MaskRoundTrip(core);
    TrimSpaceBlank(core);
  }

  lemma EchoTrimmed(core: string, a: string, t: string, b: string)
    requires NoStray(core) && IsBlank(a) && IsBlank(b) && MaskText(core).text == a + t + b
    ensures "" !in MaskText(core).snap.placeholders
    ensures var snap := MaskText(core).snap;
            && (Accepts(t, snap.placeholders) <==> NoneCaptured(snap))
            && (NoneCaptured(snap) ==> core == a + Unmask(t, snap.placeholders, snap.mapping) + b)
  {
    hide MaskText, NoStray, NoneCaptured, Accepts, Unmask, IsBlank;
    var snap := MaskText(core).snap;
    MaskRoundTrip(core);
    PlaceholdersAreWords(core);
    AcceptsKeepsEnds(a, t, b, snap.placeholders);
    UnmaskKeepsEnds(a, t, b, snap.placeholders, snap.mapping);
  }

  lemma EchoOfText(core: string)
    requires !IsBlank(core) && NoStray(core)
    ensures var a := AttemptResult(core, Success(MaskText(core).text));
            && (a == Success(core) <==> NoneCaptured(MaskText(core).snap) && HasEdges(core))
            && (a.Success? <==> NoneCaptured(MaskText(core).snap))
            && (a.Success? ==> TrimmedFrom(core, a.value))
            && (a.Failure? ==> a.error.PlaceholderMissing?)
  {
    hide MaskText, NoStray, NoneCaptured, Unmask, IsBlank, TrimSpace, Accepts, TrimmedFrom;
    var m := MaskText(core);
    var t := TrimSpace(m.text);
    var a, b := TrimSpaceParts(m.text);
    EchoTrimmed(core, a, t, b);
    MaskKeepsEdges(core);
    MaskedNotBlank(core);
    TrimSpaceBlank(m.text);
    TrimSpaceEdges(m.text);
    if NoneCaptured(m.snap) {
      EndsGone(core, a, Unmask(t, m.snap.placeholders, m.snap.mapping), b);
    }
  }

  lemma EndsGone(core: string, a: string, u: string, b: string)
    requires core == a + u + b && IsBlank(a) && IsBlank(b)
    ensures u == core <==> a == b == ""
    ensures TrimmedFrom(core, u)
  {
    assert |core| == |a| + |u| + |b|;
  }

  /** A reply that repeats the masked text gives back the core exactly when no placeholder
      was captured and the core has no white space at its ends, also not of the kinds that
      are not kept aside. Otherwise it is given back without that white space, or rejected:
      when a placeholder was captured or when nothing else is left. */
  lemma EchoAttempt(core: string)
    requires NoStray(core)
    ensures var a := AttemptResult(core, Success(MaskText(core).text));
            && (a == Success(core) <==> NoneCaptured(MaskText(core).snap) && HasEdges(core))
            && (a.Failure? <==> !NoneCaptured(MaskText(core).snap) || IsBlank(core))
            && (a.Success? ==> TrimmedFrom(core, a.value))
            && (a.Failure? ==> if IsBlank(core) then a.error.EmptyTranslation? else a.error.PlaceholderMissing?)
  {
    if IsBlank(core) {
      EchoOfBlank(core);
    } else {
      EchoOfText(core);
    }
  }

  /** A core without anything to mask is only trimmed. */
  lemma PlainEcho(core: string)
    requires '`' !in core && '<' !in core && '[' !in core && TrimSpace(core) != ""
    ensures AttemptResult(core, Success(MaskText(core).text)) == Success(TrimSpace(core))
  {
    PlainIsUnmasked(core);
    hide MaskText, TrimSpace, Parse, Hits;
  }

  const PADDED := "\U{A0}x"

  lemma PaddedTrims()
    ensures TrimSpace(PADDED) == "x"
  {
    assert |PADDED| == 2 && IsSpace(PADDED[0]) && PADDED[1] == 'x' && !IsSpace('x');
    hide IsSpace, TrimSpace;
    var a, b := TrimSpaceParts(PADDED);
    TrimSpaceBlank(PADDED);
    var t := TrimSpace(PADDED);
    assert t[0] == PADDED[|a|];
    assert |a| == 1 && |b| == 0;
  }

  lemma PaddedIsCore()
    ensures IsSplit(PADDED, "", PADDED, "") && '`' !in PADDED && '<' !in PADDED && '[' !in PADDED
  {
    assert "" + PADDED + "" == PADDED;
  }

  /** The loss shown: a no-break space at an end is neither kept aside nor given back. */
  lemma NoBreakSpaceIsLost()
    ensures IsSplit(PADDED, "", PADDED, "")
    ensures AttemptResult(PADDED, Success(MaskText(PADDED).text)) == Success("x")
  {
    hide *;
    PaddedTrims();
    PaddedIsCore();
    PlainEcho(PADDED);
  }

  ghost predicate IsEcho(model: (nat, string) -> Reply) {
    forall k, m :: model(k, m) == Success(m)
  }

  ghost predicate YieldsFrom(text: string, prefix: string, core: string, suffix: string, reply: Reply, result: string) {
    && IsSplit(text, prefix, core, suffix)
    && if core == "" then result == text
       else AttemptResult(core, reply).Success? && result == prefix + AttemptResult(core, reply).value + suffix
  }

  /** What the translator can return for a text: the text itself when it is white space, and
      otherwise what an attempt makes of some reply, with the outer white space around it. */
  ghost predicate Yields(text: string, result: string) {
    exists prefix, core, suffix, reply :: YieldsFrom(text, prefix, core, suffix, reply, result)
  }

  /** What succeeded, with the outer white space around it. */
  function Around(prefix: string, r: Reply, suffix: string): Reply {
    match r
    case Success(out) => Success(prefix + out + suffix)
    case Failure(e) => Failure(e)
  }

  lemma SameBetween(before: string, x: string, y: string, after: string)
    ensures before + x + after == before + y + after <==> x == y
  {
    if before + x + after == before + y + after {
      var s := before + x + after;
      assert |x| == |y|;
      assert x == s[|before|..|before| + |x|] == y;
    }
  }

  /** A text of white space is returned as it is; otherwise the white space around the core
      is kept. With a model that repeats its prompt, a core without stray parts comes back
      unchanged exactly when no placeholder was captured and no white space is at its ends. */
  method Translate(text: string, model: (nat, string) -> Reply, pauses: nat -> bool)
    returns (r: Reply, prefix: string, core: string, suffix: string)
    ensures IsSplit(text, prefix, core, suffix)
    ensures core == "" ==> r == Success(text)
    ensures r.Success? ==> Yields(text, r.value)
    ensures core != "" ==> r == Around(prefix, RetryFrom(Attempts(core, model), pauses, 0).0, suffix)
    ensures IsEcho(model) && NoStray(core) && core != "" ==>
              && (r == Success(text) <==> NoneCaptured(MaskText(core).snap) && HasEdges(core))
              && (r.Failure? <==> !NoneCaptured(MaskText(core).snap) || IsBlank(core))
  {
    hide NoStray, MaskText, NoneCaptured, HasEdges, IsBlank, AttemptResult, TrimmedFrom, TrimSpace, IsRetryable;
    prefix, core, suffix := SplitWhitespace(text);
    if core == "" {
      assert YieldsFrom(text, prefix, core, suffix, Success(""), text);
      return Success(text), prefix, core, suffix;
    }
    var translated, last := TranslateWithRetry(Attempts(core, model), pauses);
    if IsEcho(model) && NoStray(core) {
      EchoAttempt(core);
      assert Attempts(core, model)(last) == AttemptResult(core, Success(MaskText(core).text));
    }
    if translated.Failure? {
      r := translated;
    } else {
      r := Success(prefix + translated.value + suffix);
      assert Attempts(core, model)(last) == Success(translated.value);
      assert YieldsFrom(text, prefix, core, suffix, model(last, MaskText(core).text), r.value);
      SameBetween(prefix, translated.value, core, suffix);
    }
  }
}
