/** The parallel document run: a feeder, a pool of workers and a collector that share
    an unbuffered job channel, a result channel with one slot per file, a cancel flag
    and a wait group.

    Every goroutine is cut into its atomic steps. A run is a list of actions; the action
    names the goroutine that moves, and carries what the environment decides (the outcome
    of processing one file). The outcome of starting a worker's translator is part of the
    configuration. */
module WorkerPool {
  import opened Sums
  import opened Wrappers

  /** What processing one file comes to: translated, skipped as up to date, or an error. */
  datatype Outcome = Done | Skipped | Failed

  /** The number of files, and for every worker whether its translator starts. */
  datatype Config = Config(files: nat, starts: seq<bool>)

  datatype Message = StartFailure | FileResult(file: nat, outcome: Outcome)
  {
    predicate IsError() { StartFailure? || outcome.Failed? }
  }

  datatype Worker =
    | Starting
    | ReportingStartFailure
    | Idle
    | Taken(file: nat)
    | Processing(file: nat)
    | Reporting(file: nat, outcome: Outcome)
    | Cancelling
    | Exited

  datatype Collector = Collecting | Waiting(failed: bool) | Returned(failed: bool)

  /** `log` lists the messages the collector has received and `dropped` the files that a
      worker took and abandoned because the run was cancelled; both are history. */
  datatype State = State(
    workers: seq<Worker>,
    fed: nat,
    closed: bool,
    results: seq<Message>,
    cancelled: bool,
    collector: Collector,
    processed: nat,
    skipped: nat,
    log: seq<Message>,
    dropped: seq<nat>
  )

  datatype Action =
    | Start(w: nat)
    | SendStartFailure(w: nat)
    | Feed(w: nat)
    | CloseJobs
    | ExitDrained(w: nat)
    | CheckContext(w: nat)
    | Finish(w: nat, outcome: Outcome)
    | SendResult(w: nat)
    | Cancel(w: nat)
    | Receive
    | StopCollecting
    | Return

  function Init(c: Config): State {
    State(seq(|c.starts|, _ => Starting), 0, false, [], false, Collecting, 0, 0, [], [])
  }

  function SetWorker(s: State, w: nat, to: Worker): State
    requires w < |s.workers|
  {
    s.(workers := s.workers[w := to])
  }

  predicate AllExited(s: State) {
    forall w :: 0 <= w < |s.workers| ==> s.workers[w].Exited?
  }

  /** Worker w takes one step that needs nobody else. */
  function WorkerStep(c: Config, s: State, a: Action): Option<State>
    requires a.Start? || a.SendStartFailure? || a.ExitDrained? || a.CheckContext? || a.Finish? || a.SendResult?
             || a.Cancel?
    requires a.w < |s.workers| == |c.starts|
  {
    var p := s.workers[a.w];
    match a
    case Start(w) =>
      if p.Starting? then Some(SetWorker(s, w, if c.starts[w] then Idle else ReportingStartFailure)) else None
    case SendStartFailure(w) =>
      if p.ReportingStartFailure? && |s.results| < c.files
      then Some(SetWorker(s, w, Exited).(results := s.results + [StartFailure])) else None
    case ExitDrained(w) =>
      if p.Idle? && s.closed then Some(SetWorker(s, w, Exited)) else None
    case CheckContext(w) =>
      if !p.Taken? then None
      else if s.cancelled then Some(SetWorker(s, w, Exited).(dropped := s.dropped + [p.file]))
      else Some(SetWorker(s, w, Processing(p.file)))
    case Finish(w, outcome) =>
      if p.Processing? then Some(SetWorker(s, w, Reporting(p.file, outcome))) else None
    case SendResult(w) =>
      if p.Reporting? && |s.results| < c.files
      then Some(SetWorker(s, w, if p.outcome.Failed? then Cancelling else Idle)
                .(results := s.results + [FileResult(p.file, p.outcome)]))
      else None
    case Cancel(w) =>
      if p.Cancelling? then Some(SetWorker(s, w, Exited).(cancelled := true)) else None
  }

  /** The collector receives the oldest message. */
  function ReceiveStep(s: State): State
    requires |s.results| > 0
  {
    var m := s.results[0];
    var s' := s.(results := s.results[1..], log := s.log + [m]);
    if m.IsError() then s'.(collector := Waiting(true))
    else if m.outcome.Skipped? then s'.(skipped := s.skipped + 1)
    else s'.(processed := s.processed + 1)
  }

  /** The effect of one action, or None when the goroutine it names cannot make it. */
  function Next(c: Config, s: State, a: Action): (r: Option<State>)
    requires |s.workers| == |c.starts|
    ensures r.Some? ==> |r.value.workers| == |c.starts|
  {
    match a
    case Feed(w) =>
      if w < |s.workers| && s.workers[w].Idle? && s.fed < c.files
      then Some(SetWorker(s, w, Taken(s.fed)).(fed := s.fed + 1)) else None
    case CloseJobs =>
      if s.fed == c.files && !s.closed then Some(s.(closed := true)) else None
    case Receive =>
      if s.collector.Collecting? && |s.log| < c.files && |s.results| > 0 then Some(ReceiveStep(s)) else None
    case StopCollecting =>
      if s.collector.Collecting? && |s.log| == c.files then Some(s.(collector := Waiting(false))) else None
    case Return =>
      if s.collector.Waiting? && AllExited(s)
      then Some(s.(collector := Returned(s.collector.failed), cancelled := true)) else None
    case _ => if a.w < |s.workers| then WorkerStep(c, s, a) else None
  }

  /** The state a run leads to, or None when one of its actions was not possible. */
  function Exec(c: Config, acts: seq<Action>): (r: Option<State>)
    ensures r.Some? ==> |r.value.workers| == |c.starts|
  {
    hide Next;
    if acts == [] then Some(Init(c))
    else
      var before := Exec(c, acts[..|acts| - 1]);
      if before.Some? then Next(c, before.value, acts[|acts| - 1]) else None
  }

  lemma ExecSnoc(c: Config, acts: seq<Action>, a: Action)
    ensures Exec(c, acts + [a]) ==
            if Exec(c, acts).Some? then Next(c, Exec(c, acts).value, a) else None
  {
    assert (acts + [a])[..|acts + [a]| - 1] == acts;
  }

  // ---------------------------------------------------------------- conservation

  function HeldWeight(g: nat -> nat): Worker -> nat {
    (p: Worker) => if p.Taken? || p.Processing? || p.Reporting? then g(p.file) else 0
  }

  function MessageWeight(g: nat -> nat): Message -> nat {
    (m: Message) => if m.FileResult? then g(m.file) else 0
  }

  function One(): nat -> nat {
    (_: nat) => 1
  }

  function Only(k: nat): nat -> nat {
    (m: nat) => if m == k then 1 else 0
  }

  function IsFileResult(): Message -> nat {
    MessageWeight(One())
  }

  /** Whatever weight files are given, the files fed so far are held by a worker, waiting
      in the result channel, received, or dropped, each exactly once. */
  ghost predicate Conserved(s: State, g: nat -> nat) {
    RangeSum(s.fed, g) ==
    Sum(s.workers, HeldWeight(g)) + Sum(s.results, MessageWeight(g)) + Sum(s.log, MessageWeight(g)) + Sum(s.dropped, g)
  }

  lemma ConservedBySend(s: State, w: nat, to: Worker, m: Message, cancelled: bool, g: nat -> nat)
    requires w < |s.workers| && Conserved(s, g)
    requires HeldWeight(g)(s.workers[w]) == HeldWeight(g)(to) + MessageWeight(g)(m)
    ensures Conserved(s.(workers := s.workers[w := to], results := s.results + [m], cancelled := cancelled), g)
  {
    SumUpdate(s.workers, w, to, HeldWeight(g));
    SumAppend(s.results, m, MessageWeight(g));
  }

  lemma ConservedByFeed(s: State, w: nat, g: nat -> nat)
    requires w < |s.workers| && Conserved(s, g) && s.workers[w].Idle?
    ensures Conserved(s.(workers := s.workers[w := Taken(s.fed)], fed := s.fed + 1), g)
  {
    SumUpdate(s.workers, w, Taken(s.fed), HeldWeight(g));
  }

  lemma ConservedByDrop(s: State, w: nat, g: nat -> nat)
    requires w < |s.workers| && Conserved(s, g) && s.workers[w].Taken?
    ensures Conserved(s.(workers := s.workers[w := Exited], dropped := s.dropped + [s.workers[w].file]), g)
  {
    SumUpdate(s.workers, w, Exited, HeldWeight(g));
    SumAppend(s.dropped, s.workers[w].file, g);
  }

  lemma ConservedByMove(s: State, w: nat, to: Worker, cancelled: bool, g: nat -> nat)
    requires w < |s.workers| && Conserved(s, g)
    requires HeldWeight(g)(s.workers[w]) == HeldWeight(g)(to)
    ensures Conserved(s.(workers := s.workers[w := to], cancelled := cancelled), g)
  {
    SumUpdate(s.workers, w, to, HeldWeight(g));
  }

  /** The actions in which one worker moves and no message or file changes hands. */
  predicate IsLocal(a: Action) {
    a.Start? || a.ExitDrained? || a.Finish? || a.Cancel?
  }

  lemma ConservedByLocalStep(c: Config, s: State, a: Action, g: nat -> nat)
    requires |s.workers| == |c.starts| && Next(c, s, a).Some? && Conserved(s, g) && IsLocal(a)
    ensures Conserved(Next(c, s, a).value, g)
  {
    var s' := Next(c, s, a).value;
    ConservedByMove(s, a.w, s'.workers[a.w], s'.cancelled, g);
  }

  lemma ConservedByCheck(c: Config, s: State, w: nat, g: nat -> nat)
    requires |s.workers| == |c.starts| && Next(c, s, CheckContext(w)).Some? && Conserved(s, g)
    ensures Conserved(Next(c, s, CheckContext(w)).value, g)
  {
    if s.cancelled {
      ConservedByDrop(s, w, g);
    } else {
      ConservedByMove(s, w, Processing(s.workers[w].file), false, g);
    }
  }

  lemma ConservedByReceive(c: Config, s: State, g: nat -> nat)
    requires |s.workers| == |c.starts| && Next(c, s, Receive).Some? && Conserved(s, g)
    ensures Conserved(Next(c, s, Receive).value, g)
  {
    hide Sum;
    SumHead(s.results, MessageWeight(g));
    SumAppend(s.log, s.results[0], MessageWeight(g));
  }

  lemma ConservedBySendStep(c: Config, s: State, a: Action, g: nat -> nat)
    requires |s.workers| == |c.starts| && Next(c, s, a).Some? && Conserved(s, g)
             && (a.SendStartFailure? || a.SendResult?)
    ensures Conserved(Next(c, s, a).value, g)
  {
    var p := s.workers[a.w];
    if a.SendStartFailure? {
      ConservedBySend(s, a.w, Exited, StartFailure, s.cancelled, g);
    } else {
      var to := if p.outcome.Failed? then Cancelling else Idle;
      ConservedBySend(s, a.w, to, FileResult(p.file, p.outcome), s.cancelled, g);
    }
  }

  lemma ConservedByStep(c: Config, s: State, a: Action, g: nat -> nat)
    requires |s.workers| == |c.starts| && Next(c, s, a).Some? && Conserved(s, g)
    ensures Conserved(Next(c, s, a).value, g)
  {
    if IsLocal(a) {
      ConservedByLocalStep(c, s, a, g);
    } else if a.SendStartFailure? || a.SendResult? {
      ConservedBySendStep(c, s, a, g);
    } else if a.Feed? {
      ConservedByFeed(s, a.w, g);
    } else if a.CheckContext? {
      ConservedByCheck(c, s, a.w, g);
    } else if a.Receive? {
      ConservedByReceive(c, s, g);
    }
  }

  lemma {:induction false} SumOfZeros<T>(s: seq<T>, f: T -> nat)
    requires forall k :: 0 <= k < |s| ==> f(s[k]) == 0
    ensures Sum(s, f) == 0
  {
    if s != [] {
      assert f(s[0]) == 0;
      SumOfZeros(s[1..], f);
    }
  }

  lemma {:induction false} ConservedByRun(c: Config, acts: seq<Action>, g: nat -> nat)
    requires Exec(c, acts).Some?
    ensures Conserved(Exec(c, acts).value, g)
  {
    if acts == [] {
      SumOfZeros(Init(c).workers, HeldWeight(g));
    } else {
      var before := acts[..|acts| - 1];
      ConservedByRun(c, before, g);
      ConservedByStep(c, Exec(c, before).value, acts[|acts| - 1], g);
    }
  }

  // ---------------------------------------------------------------- start failures

  function FailedStart(): bool -> nat {
    (b: bool) => if b then 0 else 1
  }

  function FailedStarts(c: Config): nat {
    Sum(c.starts, FailedStart())
  }

  function IsStartFailure(): Message -> nat {
    (m: Message) => if m.StartFailure? then 1 else 0
  }

  /** Of the workers whose translator does not start, the ones that have not reported it. */
  function Unreported(c: Config, s: State, upTo: nat): nat
    requires |s.workers| == |c.starts| && upTo <= |c.starts|
  {
    if upTo == 0 then 0
    else Unreported(c, s, upTo - 1) + if !c.starts[upTo - 1] && !s.workers[upTo - 1].Exited? then 1 else 0
  }

  lemma {:induction false} UnreportedUpdate(c: Config, s: State, w: nat, to: Worker, upTo: nat)
    requires |s.workers| == |c.starts| && upTo <= |c.starts| && w < |c.starts|
    ensures Unreported(c, SetWorker(s, w, to), upTo)
         == Unreported(c, s, upTo)
            + (if w < upTo && !c.starts[w] && s.workers[w].Exited? && !to.Exited? then 1 else 0)
            - (if w < upTo && !c.starts[w] && !s.workers[w].Exited? && to.Exited? then 1 else 0)
  {
    if upTo > 0 {
      UnreportedUpdate(c, s, w, to, upTo - 1);
    }
  }

  lemma {:induction false} UnreportedSameWorkers(c: Config, s: State, t: State, upTo: nat)
    requires |s.workers| == |c.starts| && upTo <= |c.starts| && s.workers == t.workers
    ensures Unreported(c, s, upTo) == Unreported(c, t, upTo)
  {
    if upTo > 0 {
      UnreportedSameWorkers(c, s, t, upTo - 1);
    }
  }

  ghost predicate FailuresConserved(c: Config, s: State)
    requires |s.workers| == |c.starts|
  {
    Unreported(c, s, |c.starts|) + Sum(s.results, IsStartFailure()) + Sum(s.log, IsStartFailure()) == FailedStarts(c)
  }

  // ---------------------------------------------------------------- safety of every run

  predicate HasError(ms: seq<Message>) {
    exists i :: 0 <= i < |ms| && ms[i].IsError()
  }

  /** An error message is on its way to the collector or has stopped it. */
  predicate ErrorReported(s: State) {
    HasError(s.results) || (!s.collector.Collecting? && s.collector.failed) || s.collector.Returned?
  }

  function IsDone(): Message -> nat {
    (m: Message) => if m.FileResult? && m.outcome.Done? then 1 else 0
  }

  function IsSkipped(): Message -> nat {
    (m: Message) => if m.FileResult? && m.outcome.Skipped? then 1 else 0
  }

  ghost predicate WorkerOk(c: Config, s: State, w: nat)
    requires |s.workers| == |c.starts| && w < |s.workers|
  {
    match s.workers[w]
    case Starting => true
    case ReportingStartFailure => !c.starts[w]
    case Exited => if c.starts[w] then s.closed || s.cancelled else ErrorReported(s)
    case Cancelling => c.starts[w] && ErrorReported(s)
    case _ => c.starts[w]
  }

  ghost predicate CollectorOk(c: Config, s: State) {
    match s.collector
    case Collecting => !HasError(s.log)
    case Waiting(failed) => if failed then HasError(s.log) else |s.log| == c.files && !HasError(s.log)
    case Returned(failed) => AllExited(s) && if failed then HasError(s.log) else |s.log| == c.files && !HasError(s.log)
  }

  /** What every reachable state satisfies. */
  ghost predicate Inv(c: Config, s: State) {
    && |s.workers| == |c.starts|
    && s.fed <= c.files
    && (s.closed ==> s.fed == c.files)
    && |s.results| <= c.files
    && |s.log| <= c.files
    && (forall w :: 0 <= w < |s.workers| ==> WorkerOk(c, s, w))
    && CollectorOk(c, s)
    && (s.cancelled ==> ErrorReported(s))
    && (s.dropped != [] ==> s.cancelled)
    && (s.fed > 0 ==> true in c.starts)
    && s.processed == Sum(s.log, IsDone())
    && s.skipped == Sum(s.log, IsSkipped())
    && FailuresConserved(c, s)
  }

  lemma InvInit(c: Config)
    ensures Inv(c, Init(c))
  {
    UnreportedInit(c, |c.starts|);
    assert c.starts[..|c.starts|] == c.starts;
  }

  lemma {:induction false} UnreportedInit(c: Config, upTo: nat)
    requires upTo <= |c.starts|
    ensures Unreported(c, Init(c), upTo) == Sum(c.starts[..upTo], FailedStart())
  {
    if upTo > 0 {
      UnreportedInit(c, upTo - 1);
      assert c.starts[..upTo] == c.starts[..upTo - 1] + [c.starts[upTo - 1]];
      SumAppend(c.starts[..upTo - 1], c.starts[upTo - 1], FailedStart());
    }
  }

  lemma ErrorReportedPersists(c: Config, s: State, a: Action)
    requires |s.workers| == |c.starts| && Next(c, s, a).Some?
    ensures ErrorReported(s) ==> ErrorReported(Next(c, s, a).value)
  {
    var s' := Next(c, s, a).value;
    if HasError(s.results) {
      var i :| 0 <= i < |s.results| && s.results[i].IsError();
      if a.Receive? && i > 0 {
        assert s'.results[i - 1] == s.results[i];
      } else if !a.Receive? {
        assert s'.results[i] == s.results[i];
      }
    }
  }

  lemma InvByWorkerStep(c: Config, s: State, a: Action)
    requires Inv(c, s) && !a.CloseJobs? && !a.Receive? && !a.StopCollecting? && !a.Return?
    requires Next(c, s, a).Some?
    ensures Inv(c, Next(c, s, a).value)
  {
    hide Sum, Unreported;
    var s' := Next(c, s, a).value;
    ErrorReportedPersists(c, s, a);
    UnreportedUpdate(c, s, a.w, s'.workers[a.w], |c.starts|);
    UnreportedSameWorkers(c, SetWorker(s, a.w, s'.workers[a.w]), s', |c.starts|);
    if a.SendStartFailure? || a.SendResult? {
      var m := s'.results[|s.results|];
      SumAppend(s.results, m, IsStartFailure());
      assert m.IsError() ==> HasError(s'.results);
    }
    assert WorkerOk(c, s, a.w);
    forall w | 0 <= w < |s'.workers|
      ensures WorkerOk(c, s', w)
    {
      assert WorkerOk(c, s, w);
    }
  }

  lemma InvByReceive(c: Config, s: State)
    requires Inv(c, s) && Next(c, s, Receive).Some?
    ensures Inv(c, Next(c, s, Receive).value)
  {
    hide Sum, Unreported;
    var s' := Next(c, s, Receive).value;
    var m := s.results[0];
    ErrorReportedPersists(c, s, Receive);
    UnreportedSameWorkers(c, s, s', |c.starts|);
    SumHead(s.results, IsStartFailure());
    SumAppend(s.log, m, IsStartFailure());
    SumAppend(s.log, m, IsDone());
    SumAppend(s.log, m, IsSkipped());
    assert s'.log[|s.log|] == m;
    assert HasError(s'.log) <==> m.IsError();
    forall w | 0 <= w < |s'.workers|
      ensures WorkerOk(c, s', w)
    {
      assert WorkerOk(c, s, w);
    }
  }

  lemma InvByStep(c: Config, s: State, a: Action)
    requires Inv(c, s) && Next(c, s, a).Some?
    ensures Inv(c, Next(c, s, a).value)
  {
    match a
    case Receive => InvByReceive(c, s);
    case CloseJobs => InvByQuietStep(c, s, a);
    case StopCollecting => InvByQuietStep(c, s, a);
    case Return => InvByQuietStep(c, s, a);
    case _ => InvByWorkerStep(c, s, a);
  }

  lemma InvByQuietStep(c: Config, s: State, a: Action)
    requires Inv(c, s) && Next(c, s, a).Some? && (a.CloseJobs? || a.StopCollecting? || a.Return?)
    ensures Inv(c, Next(c, s, a).value)
  {
    var s' := Next(c, s, a).value;
    ErrorReportedPersists(c, s, a);
    UnreportedSameWorkers(c, s, s', |c.starts|);
    forall w | 0 <= w < |s'.workers|
      ensures WorkerOk(c, s', w)
    {
      assert WorkerOk(c, s, w);
    }
  }

  lemma {:induction false} InvByRun(c: Config, acts: seq<Action>)
    requires Exec(c, acts).Some?
    ensures Inv(c, Exec(c, acts).value)
  {
    if acts == [] {
      InvInit(c);
    } else {
      InvByRun(c, acts[..|acts| - 1]);
      InvByStep(c, Exec(c, acts[..|acts| - 1]).value, acts[|acts| - 1]);
    }
  }

  // ---------------------------------------------------------------- after a failure

  lemma NoStartByStep(c: Config, s: State, a: Action, w: nat)
    requires |s.workers| == |c.starts| && w < |c.starts| && s.cancelled && Next(c, s, a).Some?
    ensures var s' := Next(c, s, a).value;
            s'.cancelled && (s'.workers[w].Processing? ==> s'.workers[w] == s.workers[w])
  {
  }

  /** Once the run is cancelled no worker begins to process a file any more: whatever happens
      next, what a worker processes it was processing already. */
  lemma {:induction false} NothingStartsAfterCancel(c: Config, acts: seq<Action>, k: nat, w: nat)
    requires k <= |acts| && w < |c.starts| && Exec(c, acts).Some?
    requires Exec(c, acts[..k]).Some? && Exec(c, acts[..k]).value.cancelled
    ensures var then_, now := Exec(c, acts[..k]).value, Exec(c, acts).value;
            now.cancelled && (now.workers[w].Processing? ==> now.workers[w] == then_.workers[w])
    decreases |acts| - k
  {
    hide Next;
    if k == |acts| {
      assert acts[..k] == acts;
    } else {
      var init := acts[..|acts| - 1];
      assert init[..k] == acts[..k];
      NothingStartsAfterCancel(c, init, k, w);
      NoStartByStep(c, Exec(c, init).value, acts[|acts| - 1], w);
    }
  }

  lemma StoppedByStep(c: Config, s: State, a: Action, w: nat)
    requires |s.workers| == |c.starts| && w < |c.starts| && Next(c, s, a).Some?
    requires s.workers[w].Cancelling? || (s.workers[w].Exited? && s.cancelled)
    ensures var s' := Next(c, s, a).value; s'.workers[w].Cancelling? || (s'.workers[w].Exited? && s'.cancelled)
  {
  }

  /** A worker that reports a failed file takes no other: in every run, from then on it only
      has the run to cancel, or is gone and the run is cancelled. */
  lemma {:induction false} FailureStopsItsWorker(c: Config, acts: seq<Action>, k: nat, w: nat)
    requires k < |acts| && acts[k] == SendResult(w) && w < |c.starts| && Exec(c, acts).Some?
    requires var before := Exec(c, acts[..k]);
             before.Some? && before.value.workers[w].Reporting? && before.value.workers[w].outcome.Failed?
    ensures var now := Exec(c, acts).value; now.workers[w].Cancelling? || (now.workers[w].Exited? && now.cancelled)
    decreases |acts| - k
  {
    var init := acts[..|acts| - 1];
    if k + 1 < |acts| {
      assert init[..k] == acts[..k];
      FailureStopsItsWorker(c, init, k, w);
      StoppedByStep(c, Exec(c, init).value, acts[|acts| - 1], w);
    }
    hide WorkerStep;
  }
}
