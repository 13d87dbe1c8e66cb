/** The parallel run comes to an end, and which numbers of failed starts it takes to block it. */
module PoolProgress {
  import opened Sums
  import opened Wrappers
  import opened WorkerPool
  import opened PoolOutcome

  function WorkerRank(): Worker -> nat {
    (p: Worker) => match p
      case Starting => 5
      case ReportingStartFailure => 4
      case Idle => 1
      case Taken(_) => 8
      case Processing(_) => 7
      case Reporting(_, _) => 6
      case Cancelling => 2
      case Exited => 0
  }

  function Measure(c: Config, s: State): int {
    Sum(s.workers, WorkerRank()) + 10 * (c.files - s.fed) + (if s.closed then 0 else 1) + 2 * |s.results|
    + (match s.collector case Collecting => 2 case Waiting(_) => 1 case Returned(_) => 0)
  }

  lemma RankOfMove(s: State, w: nat, to: Worker)
    requires w < |s.workers|
    ensures Sum(s.workers[w := to], WorkerRank()) + WorkerRank()(s.workers[w])
            == Sum(s.workers, WorkerRank()) + WorkerRank()(to)
  {
    SumUpdate(s.workers, w, to, WorkerRank());
  }

  lemma LocalStepDecreasesMeasure(c: Config, s: State, a: Action)
    requires |s.workers| == |c.starts| && s.fed <= c.files && Next(c, s, a).Some? && (IsLocal(a) || a.CheckContext?)
    ensures 0 <= Measure(c, Next(c, s, a).value) < Measure(c, s)
  {
    RankOfMove(s, a.w, Next(c, s, a).value.workers[a.w]);
  }

  lemma SendDecreasesMeasure(c: Config, s: State, a: Action)
    requires |s.workers| == |c.starts| && s.fed <= c.files && Next(c, s, a).Some?
             && (a.SendStartFailure? || a.SendResult?)
    ensures 0 <= Measure(c, Next(c, s, a).value) < Measure(c, s)
  {
    RankOfMove(s, a.w, Next(c, s, a).value.workers[a.w]);
  }

  /** Every step of every goroutine makes the measure smaller. */
  lemma StepDecreasesMeasure(c: Config, s: State, a: Action)
    requires |s.workers| == |c.starts| && s.fed <= c.files && Next(c, s, a).Some?
    ensures 0 <= Measure(c, Next(c, s, a).value) < Measure(c, s)
  {
    if IsLocal(a) || a.CheckContext? {
      LocalStepDecreasesMeasure(c, s, a);
    } else if a.SendStartFailure? || a.SendResult? {
      SendDecreasesMeasure(c, s, a);
    } else if a.Feed? {
      RankOfMove(s, a.w, Taken(s.fed));
    }
  }

  /** No schedule runs for ever: a run has at most 10 steps a file and 5 a worker, and 3 more. */
  lemma {:induction false} RunsAreBounded(c: Config, acts: seq<Action>)
    requires Exec(c, acts).Some?
    ensures |acts| + Measure(c, Exec(c, acts).value) <= 10 * c.files + 5 * |c.starts| + 3
    ensures Measure(c, Exec(c, acts).value) >= 0
  {
    if acts == [] {
      RankOfInit(|c.starts|);
    } else {
      RunsAreBounded(c, acts[..|acts| - 1]);
      InvByRun(c, acts[..|acts| - 1]);
      StepDecreasesMeasure(c, Exec(c, acts[..|acts| - 1]).value, acts[|acts| - 1]);
    }
  }

  lemma {:induction false} RankOfInit(n: nat)
    ensures Sum(seq(n, _ => Starting), WorkerRank()) == 5 * n
  {
    if n > 0 {
      assert seq(n, _ => Starting)[1..] == seq(n - 1, _ => Starting);
      RankOfInit(n - 1);
    }
  }

  // ---------------------------------------------------------------- always returns

  /** No goroutine can move. */
  ghost predicate Stuck(c: Config, s: State)
    requires |s.workers| == |c.starts|
  {
    forall a: Action :: Next(c, s, a).None?
  }

  /** Every schedule that cannot be continued has returned from the run. */
  ghost predicate AlwaysReturns(c: Config) {
    forall acts: seq<Action> ::
      Exec(c, acts).Some? && Stuck(c, Exec(c, acts).value) ==> Exec(c, acts).value.collector.Returned?
  }

  /** The start failures for which the result channel has room. */
  predicate StartFailuresFit(c: Config) {
    if c.files == 0 then FailedStarts(c) == 0
    else if FailedStarts(c) < |c.starts| then FailedStarts(c) <= 1
    else 0 < |c.starts| <= c.files + 1
  }

  /** When nobody can move, a worker that is not blocked on a full channel has exited. */
  lemma StuckWorkerHasExited(c: Config, s: State, w: nat)
    requires |s.workers| == |c.starts| && w < |s.workers| && Stuck(c, s)
    requires s.workers[w].Idle? ==> s.closed || s.fed < c.files
    requires s.workers[w].ReportingStartFailure? || s.workers[w].Reporting? ==> |s.results| < c.files
    ensures s.workers[w].Exited?
  {
    assert Next(c, s, Start(w)).None?;
    assert Next(c, s, SendStartFailure(w)).None?;
    assert Next(c, s, Feed(w)).None?;
    assert Next(c, s, ExitDrained(w)).None?;
    assert Next(c, s, CheckContext(w)).None?;
    assert Next(c, s, Finish(w, Done)).None?;
    assert Next(c, s, SendResult(w)).None?;
    assert Next(c, s, Cancel(w)).None?;
  }

  /** Before the run has returned somebody can move, unless a sender is blocked for good. */
  lemma SomebodyMoves(c: Config, s: State)
    requires Inv(c, s) && !s.collector.Returned? && (c.files > 0 ==> c.starts != [])
    requires Conserved(s, One())
    requires forall w :: 0 <= w < |s.workers| && (s.workers[w].ReportingStartFailure? || s.workers[w].Reporting?)
               ==> |s.results| < c.files || (s.collector.Collecting? && |s.log| < c.files && |s.results| > 0)
    ensures !Stuck(c, s)
  {
    if Stuck(c, s) {
      assert Next(c, s, CloseJobs).None?;
      assert Next(c, s, Receive).None?;
      assert Next(c, s, StopCollecting).None?;
      assert Next(c, s, Return).None?;
      hide Next, Stuck, Sum, RangeSum;
      forall w | 0 <= w < |s.workers|
        ensures s.workers[w].Exited?
      {
        StuckWorkerHasExited(c, s, w);
      }
      assert s.collector.Collecting? && |s.log| < c.files && s.results == [];
      assert WorkerOk(c, s, 0);
      assert !s.cancelled && s.closed;
      RangeSumOnes(s.fed, One());
      SumOfZeros(s.workers, HeldWeight(One()));
      SumOfZeros(s.dropped, One());
      SumOfZeros(s.results, MessageWeight(One()));
      SumBound(s.log, IsFileResult());
      assert false;
    }
  }

  /** A message is a start failure or a file result. */
  lemma MessagesSplit(ms: seq<Message>)
    ensures Sum(ms, IsStartFailure()) + Sum(ms, IsFileResult()) == |ms|
  {
    var one := (m: Message) => 1;
    SumAdd(ms, IsStartFailure(), IsFileResult(), one);
    SumBound(ms, one);
  }

  lemma {:induction false} UnreportedCountsOne(c: Config, s: State, w: nat, upTo: nat)
    requires |s.workers| == |c.starts| && w < upTo <= |c.starts| && !c.starts[w] && !s.workers[w].Exited?
    ensures Unreported(c, s, upTo) >= 1
  {
    if w < upTo - 1 {
      UnreportedCountsOne(c, s, w, upTo - 1);
    }
  }

  /** While the start failures fit, a full result channel has a collector that reads it. */
  lemma SendersAreServed(c: Config, s: State, w: nat)
    requires Inv(c, s) && StartFailuresFit(c) && !s.collector.Returned? && Conserved(s, One())
    requires w < |s.workers| && (s.workers[w].ReportingStartFailure? || s.workers[w].Reporting?)
    ensures |s.results| < c.files || (s.collector.Collecting? && |s.log| < c.files && |s.results| > 0)
  {
    assert WorkerOk(c, s, w);
    SumAtLeast(c.starts, w, FailedStart());
    SumAtLeast(s.workers, w, HeldWeight(One()));
    RangeSumOnes(s.fed, One());
    MessagesSplit(s.results);
    MessagesSplit(s.log);
    if s.workers[w].ReportingStartFailure? {
      UnreportedCountsOne(c, s, w, |c.starts|);
    }
    SumBound(c.starts, FailedStart());
    if s.fed > 0 {
      var i :| 0 <= i < |c.starts| && c.starts[i];
      assert FailedStart()(c.starts[i]) == 0;
    }
  }

  lemma NoFailedStart(c: Config)
    requires false !in c.starts
    ensures FailedStarts(c) == 0
  {
    forall k | 0 <= k < |c.starts|
      ensures FailedStart()(c.starts[k]) == 0
    {
      assert c.starts[k] in c.starts;
    }
    SumOfZeros(c.starts, FailedStart());
  }

  /** One slot per file is enough when every worker starts: whenever a worker has a result to
      send, the result channel has room for it, so that no send ever blocks. */
  lemma NoSendBlocks(c: Config, acts: seq<Action>, w: nat)
    requires false !in c.starts && Exec(c, acts).Some? && w < |c.starts|
    ensures var s := Exec(c, acts).value;
            |s.workers| == |c.starts|
            && (s.workers[w].Reporting? ==> |s.results| < c.files && Next(c, s, SendResult(w)).Some?)
            && !s.workers[w].ReportingStartFailure?
  {
    hide Exec, Sum, RangeSum, Unreported, CollectorOk, ErrorReported;
    var s := Exec(c, acts).value;
    InvByRun(c, acts);
    assert WorkerOk(c, s, w) && c.starts[w];
    if s.workers[w].Reporting? {
      ConservedByRun(c, acts, One());
      NoFailedStart(c);
      RoomToReport(c, s, w);
    }
  }

  lemma RoomToReport(c: Config, s: State, w: nat)
    requires Inv(c, s) && Conserved(s, One()) && FailedStarts(c) == 0 && w < |c.starts| && s.workers[w].Reporting?
    ensures |s.results| < c.files
  {
    hide Sum, RangeSum, Unreported, WorkerOk, CollectorOk, ErrorReported;
    SumAtLeast(s.workers, w, HeldWeight(One()));
    RangeSumOnes(s.fed, One());
    MessagesSplit(s.results);
  }

  lemma ReturnsWhenFailuresFit(c: Config, acts: seq<Action>)
    requires StartFailuresFit(c) && Exec(c, acts).Some? && Stuck(c, Exec(c, acts).value)
    ensures Exec(c, acts).value.collector.Returned?
  {
    var s := Exec(c, acts).value;
    InvByRun(c, acts);
    ConservedByRun(c, acts, One());
    if !s.collector.Returned? {
      forall w | 0 <= w < |s.workers| && (s.workers[w].ReportingStartFailure? || s.workers[w].Reporting?)
        ensures |s.results| < c.files || (s.collector.Collecting? && |s.log| < c.files && |s.results| > 0)
      {
        SendersAreServed(c, s, w);
      }
      SomebodyMoves(c, s);
    }
  }

  /** The collector has stopped reading, the channel is full, and a worker must still send. */
  ghost predicate Doomed(c: Config, s: State) {
    && |s.workers| == |c.starts|
    && s.collector.Waiting?
    && |s.results| == c.files
    && exists w :: 0 <= w < |s.workers| && s.workers[w].ReportingStartFailure?
  }

  lemma DoomedForEver(c: Config, s: State, a: Action)
    requires Doomed(c, s) && Next(c, s, a).Some?
    ensures Doomed(c, Next(c, s, a).value)
  {
    var w :| 0 <= w < |s.workers| && s.workers[w].ReportingStartFailure?;
    assert Next(c, s, a).value.workers[w].ReportingStartFailure?;
  }

  /** A doomed run can be continued to one that is stuck without having returned. */
  lemma {:induction false} DoomedRunGetsStuck(c: Config, acts: seq<Action>)
    requires Exec(c, acts).Some? && Doomed(c, Exec(c, acts).value)
    ensures !AlwaysReturns(c)
    decreases Measure(c, Exec(c, acts).value)
  {
    var s := Exec(c, acts).value;
    if !Stuck(c, s) {
      var a :| Next(c, s, a).Some?;
      ExecSnoc(c, acts, a);
      InvByRun(c, acts);
      StepDecreasesMeasure(c, s, a);
      DoomedForEver(c, s, a);
      DoomedRunGetsStuck(c, acts + [a]);
    }
  }

  /** The states on the path are those that the actions of more lead through from s. */
  ghost predicate LeadsThrough(c: Config, path: seq<State>, more: seq<Action>) {
    && |path| == |more| + 1
    && (forall i :: 0 <= i < |path| ==> |path[i].workers| == |c.starts|)
    && (forall i :: 0 <= i < |more| ==> Next(c, path[i], more[i]) == Some(path[i + 1]))
  }

  lemma {:induction false} ExecAlong(c: Config, acts: seq<Action>, more: seq<Action>, path: seq<State>, k: nat)
    requires k <= |more| && LeadsThrough(c, path, more) && Exec(c, acts) == Some(path[0])
    ensures Exec(c, acts + more[..k]) == Some(path[k])
  {
    hide Exec, Next;
    if k == 0 {
      assert acts + more[..0] == acts;
    } else {
      ExecAlong(c, acts, more, path, k - 1);
      ExecSnoc(c, acts + more[..k - 1], more[k - 1]);
      assert acts + more[..k] == acts + more[..k - 1] + [more[k - 1]];
    }
  }

  /** The schedule that continues acts by more. */
  lemma ExecAppend(c: Config, acts: seq<Action>, s: State, more: seq<Action>, path: seq<State>)
    requires Exec(c, acts) == Some(s) && LeadsThrough(c, path, more) && path[0] == s
    ensures Exec(c, acts + more) == Some(path[|more|])
  {
    ExecAlong(c, acts, more, path, |more|);
    assert more[..|more|] == more;
  }

  /** Worker a fails to start and says so; the collector reads it and stops reading. */
  lemma FirstFailure(c: Config, a: nat) returns (acts: seq<Action>, s: State)
    requires c.files > 0 && a < |c.starts| && !c.starts[a]
    ensures Exec(c, acts) == Some(s)
    ensures s == Init(c).(workers := Init(c).workers[a := Exited], log := [StartFailure], collector := Waiting(true))
  {
    acts := [Start(a), SendStartFailure(a), Receive];
    var s0 := Init(c);
    var s1 := SetWorker(s0, a, ReportingStartFailure);
    var s2 := SetWorker(s1, a, Exited).(results := s0.results + [StartFailure]);
    s := ReceiveStep(s2);
    assert s2.results[0] == StartFailure && s.results == [];
    assert s0.workers[a := ReportingStartFailure][a := Exited] == s0.workers[a := Exited];
    assert [] + acts == acts;
    ExecAppend(c, [], s0, acts, [s0, s1, s2, s]);
  }

  /** A started worker handles the next file after the collector has stopped reading. */
  lemma OneMoreFile(c: Config, acts: seq<Action>, s: State, g: nat) returns (acts': seq<Action>, s': State)
    requires Exec(c, acts) == Some(s) && g < |s.workers| && s.workers[g].Idle? && !s.cancelled
    requires s.fed < c.files && |s.results| < c.files
    ensures Exec(c, acts') == Some(s')
    ensures s' == s.(fed := s.fed + 1, results := s.results + [FileResult(s.fed, Done)])
  {
    hide Exec;
    var more := [Feed(g), CheckContext(g), Finish(g, Done), SendResult(g)];
    var s1 := SetWorker(s, g, Taken(s.fed)).(fed := s.fed + 1);
    var s2 := SetWorker(s1, g, Processing(s.fed));
    var s3 := SetWorker(s2, g, Reporting(s.fed, Done));
    s' := SetWorker(s3, g, Idle).(results := s.results + [FileResult(s.fed, Done)]);
    ExecAppend(c, acts, s, more, [s, s1, s2, s3, s']);
    assert s'.workers == s.workers;
    acts' := acts + more;
  }

  lemma {:induction false} FillWithFiles(c: Config, acts: seq<Action>, s: State, g: nat, b: nat)
    requires Exec(c, acts) == Some(s) && g < |s.workers| && s.workers[g].Idle? && !s.cancelled
    requires b < |s.workers| && s.workers[b].ReportingStartFailure? && s.collector.Waiting?
    requires s.fed == |s.results| <= c.files
    ensures !AlwaysReturns(c)
    decreases c.files - s.fed
  {
    if s.fed == c.files {
      assert Doomed(c, s);
      DoomedRunGetsStuck(c, acts);
    } else {
      var acts', s' := OneMoreFile(c, acts, s, g);
      FillWithFiles(c, acts', s', g, b);
    }
  }

  /** Two start failures beside a working worker can block the run for good. */
  lemma TwoFailuresBlock(c: Config, a: nat, b: nat, g: nat)
    requires c.files > 0 && a < |c.starts| && b < |c.starts| && g < |c.starts| && a != b
    requires !c.starts[a] && !c.starts[b] && c.starts[g]
    ensures !AlwaysReturns(c)
  {
    var acts, s := FirstFailure(c, a);
    var s1 := SetWorker(s, b, ReportingStartFailure);
    var s2 := SetWorker(s1, g, Idle);
    ExecAppend(c, acts, s, [Start(b), Start(g)], [s, s1, s2]);
    FillWithFiles(c, acts + [Start(b), Start(g)], s2, g, b);
  }

  lemma {:induction false} FillWithFailures(c: Config, acts: seq<Action>, s: State, next: nat)
    requires Exec(c, acts) == Some(s) && s.collector.Waiting? && c.files + 1 < |c.starts|
    requires next == |s.results| + 1 && |s.results| <= c.files
    requires forall w :: next <= w < |c.starts| ==> s.workers[w].Starting? && !c.starts[w]
    ensures !AlwaysReturns(c)
    decreases c.files - |s.results|
  {
    var s1 := SetWorker(s, next, ReportingStartFailure);
    if |s.results| == c.files {
      ExecSnoc(c, acts, Start(next));
      assert s1.workers[next].ReportingStartFailure?;
      assert Doomed(c, s1);
      DoomedRunGetsStuck(c, acts + [Start(next)]);
    } else {
      var s2 := SetWorker(s1, next, Exited).(results := s.results + [StartFailure]);
      var more := [Start(next), SendStartFailure(next)];
      ExecAppend(c, acts, s, more, [s, s1, s2]);
      FillWithFailures(c, acts + more, s2, next + 1);
    }
  }

  lemma NoFilePath(c: Config, w: nat) returns (s: State)
    requires c.files == 0 && w < |c.starts| && !c.starts[w]
    ensures Exec(c, [StopCollecting, Start(w)]) == Some(s) && Doomed(c, s)
  {
    var acts := [StopCollecting, Start(w)];
    var s0 := Init(c);
    var s1 := s0.(collector := Waiting(false));
    s := SetWorker(s1, w, ReportingStartFailure);
    assert Exec(c, []) == Some(s0);
    assert LeadsThrough(c, [s0, s1, s], acts);
    hide Exec, Next, LeadsThrough;
    ExecAppend(c, [], s0, acts, [s0, s1, s]);
    assert [] + acts == acts;
    assert s.workers[w].ReportingStartFailure?;
  }

  lemma NoFileBlocks(c: Config)
    requires c.files == 0 && FailedStarts(c) > 0
    ensures !AlwaysReturns(c)
  {
    hide Exec, Next, Doomed, AlwaysReturns;
    var w := SumWitness(c.starts, FailedStart());
    var s := NoFilePath(c, w);
    DoomedRunGetsStuck(c, [StopCollecting, Start(w)]);
  }

  lemma NoWorkerBlocks(c: Config)
    requires c.files > 0 && c.starts == []
    ensures !AlwaysReturns(c)
  {
    var s := Init(c);
    assert Exec(c, []) == Some(s);
    forall a: Action
      ensures Next(c, s, a).None?
    {
    }
    assert Stuck(c, s);
  }

  lemma BlocksWhenFailuresDoNotFit(c: Config)
    requires !StartFailuresFit(c)
    ensures !AlwaysReturns(c)
  {
    SumBound(c.starts, FailedStart());
    if c.files == 0 {
      NoFileBlocks(c);
    } else if c.starts == [] {
      NoWorkerBlocks(c);
    } else if FailedStarts(c) < |c.starts| {
      var a, b := SumTwoWitnesses(c.starts, FailedStart());
      var g :| 0 <= g < |c.starts| && FailedStart()(c.starts[g]) != 1;
      TwoFailuresBlock(c, a, b, g);
    } else {
      assert forall w :: 0 <= w < |c.starts| ==> FailedStart()(c.starts[w]) == 1;
      assert forall w :: 0 <= w < |c.starts| ==> !c.starts[w];
      var acts, s := FirstFailure(c, 0);
      FillWithFailures(c, acts, s, 1);
    }
  }

  /** The run returns under every schedule and whatever the files come to, exactly when
      the failed starts fit in the result channel; in particular when all workers start. */
  lemma AlwaysReturnsExactly(c: Config)
    ensures AlwaysReturns(c) <==> StartFailuresFit(c)
  {
    if StartFailuresFit(c) {
      forall acts: seq<Action> | Exec(c, acts).Some? && Stuck(c, Exec(c, acts).value)
        ensures Exec(c, acts).value.collector.Returned?
      {
        ReturnsWhenFailuresFit(c, acts);
      }
    } else {
      BlocksWhenFailuresDoNotFit(c);
    }
  }

  /** When every worker starts and there is one, every schedule ends with the run returned
      and every worker gone; at most the feeder is left, and only after an error. */
  lemma AllStartedRunReturns(c: Config, acts: seq<Action>)
    requires c.starts != [] && false !in c.starts
    requires Exec(c, acts).Some? && Stuck(c, Exec(c, acts).value)
    ensures var s := Exec(c, acts).value;
            s.collector.Returned? && AllExited(s) && (s.closed || s.collector.failed)
  {
    var s := Exec(c, acts).value;
    NoFailedStart(c);
    AlwaysReturnsExactly(c);
    InvByRun(c, acts);
    if !s.collector.failed {
      ExactOnSuccess(c, acts);
      assert Next(c, s, CloseJobs).None?;
    }
  }
}
