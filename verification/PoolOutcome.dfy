/** What a parallel run that returns has done, and that it agrees with the sequential run. */
module PoolOutcome {
  import opened Sums
  import opened WorkerPool

  /** The messages are one non-error result for each of the n files. */
  ghost predicate OneResultEach(n: nat, log: seq<Message>) {
    && |log| == n
    && (forall i :: 0 <= i < n ==> log[i].FileResult? && !log[i].outcome.Failed? && log[i].file < n)
    && (forall i, j :: 0 <= i < j < n ==> log[i].file != log[j].file)
    && (forall k :: 0 <= k < n ==> HasResultFor(log, k))
  }

  predicate HasResultFor(log: seq<Message>, k: nat) {
    exists i :: 0 <= i < |log| && log[i].FileResult? && log[i].file == k
  }

  /** Whatever the schedule, the start failures and the file outcomes: when the run
      returns without an error, every file was fed and produced exactly one non-error
      result, nothing was dropped or left behind, and the two counts add up. */
  lemma ExactOnSuccess(c: Config, acts: seq<Action>)
    requires Exec(c, acts).Some? && Exec(c, acts).value.collector == Returned(false)
    ensures var s := Exec(c, acts).value;
            && OneResultEach(c.files, s.log)
            && s.fed == c.files && s.dropped == []
            && s.processed + s.skipped == c.files
            && (forall i :: 0 <= i < |s.results| ==> s.results[i].StartFailure?)
  {
    var s := Exec(c, acts).value;
    NothingLeftBehind(c, acts);
    forall k | 0 <= k < c.files
      ensures HasResultFor(s.log, k)
    {
      FileCountedOnce(c, acts, k);
      var i := SumWitness(s.log, MessageWeight(Only(k)));
    }
    forall i | 0 <= i < c.files
      ensures s.log[i].file < c.files
    {
      FileCountedOnce(c, acts, s.log[i].file);
      SumAtLeast(s.log, i, MessageWeight(Only(s.log[i].file)));
    }
    forall i, j | 0 <= i < j < c.files
      ensures s.log[i].file != s.log[j].file
    {
      FileCountedOnce(c, acts, s.log[i].file);
      SumAtLeastTwo(s.log, i, j, MessageWeight(Only(s.log[i].file)));
    }
  }

  lemma NothingLeftBehind(c: Config, acts: seq<Action>)
    requires Exec(c, acts).Some? && Exec(c, acts).value.collector == Returned(false)
    ensures var s := Exec(c, acts).value;
            && |s.log| == s.fed == c.files && s.dropped == [] && AllExited(s)
            && (forall i :: 0 <= i < |s.log| ==> s.log[i].FileResult? && !s.log[i].outcome.Failed?)
            && (forall i :: 0 <= i < |s.results| ==> s.results[i].StartFailure?)
            && s.processed + s.skipped == c.files
  {
    var s := Exec(c, acts).value;
    InvByRun(c, acts);
    assert forall i :: 0 <= i < |s.log| ==> !s.log[i].IsError();
    ConservedByRun(c, acts, One());
    RangeSumOnes(s.fed, One());
    SumBound(s.log, IsFileResult());
    SumBound(s.dropped, One());
    forall i | 0 <= i < |s.results|
      ensures s.results[i].StartFailure?
    {
      SumAtLeast(s.results, i, IsFileResult());
    }
    SumAdd(s.log, IsDone(), IsSkipped(), IsFileResult());
  }

  lemma FileCountedOnce(c: Config, acts: seq<Action>, k: nat)
    requires Exec(c, acts).Some? && Exec(c, acts).value.collector == Returned(false)
    ensures Sum(Exec(c, acts).value.log, MessageWeight(Only(k))) == if k < c.files then 1 else 0
  {
    var s := Exec(c, acts).value;
    NothingLeftBehind(c, acts);
    ConservedByRun(c, acts, Only(k));
    RangeSumIndicator(s.fed, k, Only(k));
    SumOfZeros(s.workers, HeldWeight(Only(k)));
    SumOfZeros(s.results, MessageWeight(Only(k)));
  }

  // ---------------------------------------------------------------- the sequential run

  datatype Summary = Summary(processed: nat, skipped: nat, failed: bool)

  /** What the one-by-one run reports for files with the given outcomes. */
  function SequentialSummary(outcomes: seq<Outcome>, processed: nat, skipped: nat): Summary {
    if outcomes == [] then Summary(processed, skipped, false)
    else match outcomes[0]
      case Failed => Summary(processed, skipped, true)
      case Skipped => SequentialSummary(outcomes[1..], processed, skipped + 1)
      case Done => SequentialSummary(outcomes[1..], processed + 1, skipped)
  }

  method RunDocSequential(outcomes: seq<Outcome>) returns (r: Summary)
    ensures r == SequentialSummary(outcomes, 0, 0)
    ensures r.failed <==> Failed in outcomes
    ensures !r.failed ==> r.processed + r.skipped == |outcomes|
  {
    var processed, skipped := 0, 0;
    for index := 0 to |outcomes|
      invariant SequentialSummary(outcomes[index..], processed, skipped) == SequentialSummary(outcomes, 0, 0)
      invariant Failed !in outcomes[..index]
      invariant processed + skipped == index
    {
      assert outcomes[index..][1..] == outcomes[index + 1..];
      match outcomes[index]
      case Failed => return Summary(processed, skipped, true);
      case Skipped => skipped := skipped + 1;
      case Done => processed := processed + 1;
    }
    assert outcomes[..|outcomes|] == outcomes;
    return Summary(processed, skipped, false);
  }

  function DoneIn(v: seq<Outcome>): nat -> nat {
    (k: nat) => if k < |v| && v[k].Done? then 1 else 0
  }

  lemma {:induction false} SequentialCounts(v: seq<Outcome>, k: nat, processed: nat, skipped: nat)
    requires k <= |v| && Failed !in v[k..]
    ensures var r := SequentialSummary(v[k..], processed, skipped);
            && !r.failed
            && r.processed + RangeSum(k, DoneIn(v)) == processed + RangeSum(|v|, DoneIn(v))
            && r.processed + r.skipped == processed + skipped + |v| - k
    decreases |v| - k
  {
    if k < |v| {
      assert v[k..][1..] == v[k + 1..];
      assert v[k..][0] == v[k] != Failed;
      SequentialCounts(v, k + 1, if v[k].Done? then processed + 1 else processed,
                       if v[k].Done? then skipped else skipped + 1);
    }
  }

  /** The received results are those that the outcomes v give. */
  ghost predicate Follows(s: State, v: seq<Outcome>) {
    forall i :: 0 <= i < |s.log| && s.log[i].FileResult? ==>
      s.log[i].file < |v| && s.log[i].outcome == v[s.log[i].file]
  }

  /** A parallel run that returns without an error reports what the sequential run
      reports for the same file outcomes; and with all workers started it returns an
      error exactly when some file fails. */
  lemma ParallelRefinesSequential(c: Config, acts: seq<Action>, v: seq<Outcome>)
    requires Exec(c, acts).Some? && |v| == c.files && Follows(Exec(c, acts).value, v)
    requires Exec(c, acts).value.collector.Returned?
    ensures var s := Exec(c, acts).value;
            && (!s.collector.failed ==> SequentialSummary(v, 0, 0) == Summary(s.processed, s.skipped, false))
            && (false !in c.starts ==> (s.collector.failed <==> Failed in v))
  {
    hide Exec, Next;
    var s := Exec(c, acts).value;
    if !s.collector.failed {
      SuccessHasNoFailedFile(c, acts, v);
      assert v[0..] == v;
      SequentialCounts(v, 0, 0, 0);
      SuccessCountsDone(c, acts, v);
      ExactOnSuccess(c, acts);
    } else if false !in c.starts {
      InvByRun(c, acts);
      var i :| 0 <= i < |s.log| && s.log[i].IsError();
      NoStartFailureLogged(c, s, i);
    }
  }

  lemma SuccessHasNoFailedFile(c: Config, acts: seq<Action>, v: seq<Outcome>)
    requires Exec(c, acts).Some? && |v| == c.files && Follows(Exec(c, acts).value, v)
    requires Exec(c, acts).value.collector == Returned(false)
    ensures Failed !in v
  {
    var s := Exec(c, acts).value;
    ExactOnSuccess(c, acts);
    forall k | 0 <= k < |v|
      ensures v[k] != Failed
    {
      assert HasResultFor(s.log, k);
      var i :| 0 <= i < |s.log| && s.log[i].FileResult? && s.log[i].file == k;
    }
  }

  lemma SuccessCountsDone(c: Config, acts: seq<Action>, v: seq<Outcome>)
    requires Exec(c, acts).Some? && |v| == c.files && Follows(Exec(c, acts).value, v)
    requires Exec(c, acts).value.collector == Returned(false)
    ensures Exec(c, acts).value.processed == RangeSum(c.files, DoneIn(v))
  {
    var s := Exec(c, acts).value;
    NothingLeftBehind(c, acts);
    InvByRun(c, acts);
    ConservedByRun(c, acts, DoneIn(v));
    SumOfZeros(s.workers, HeldWeight(DoneIn(v)));
    SumOfZeros(s.results, MessageWeight(DoneIn(v)));
    SumCong(s.log, MessageWeight(DoneIn(v)), IsDone());
  }

  lemma NoStartFailureLogged(c: Config, s: State, i: nat)
    requires Inv(c, s) && false !in c.starts && i < |s.log|
    ensures !s.log[i].StartFailure?
  {
    forall k | 0 <= k < |c.starts|
      ensures FailedStart()(c.starts[k]) == 0
    {
      assert c.starts[k] in c.starts;
    }
    SumOfZeros(c.starts, FailedStart());
    SumAtLeast(s.log, i, IsStartFailure());
  }
}
