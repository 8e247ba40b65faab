/** The protocol TransitionRunner.run follows, as specification functions over an
    event log.

    The test's callbacks and monitors are abstract steps, each named by an `Event`.
    An environment `Env` says which steps throw when attempted, in which iterations
    the frame-stats monitor reports jank, and what the result builder returns for an
    iteration.  The functions below give, for a test specification and an
    environment, the log of attempted steps and the result of the run; the lemmas
    state the ordering, clean-up, result and error rules the runner promises. */
module RunnerProtocol {

  datatype Option<T> = None | Some(value: T)

  /** A flicker test specification.  Callback lists and monitors are abstract, so
      only their numbers matter. */
  datatype Flicker = Flicker(
    testName: string,
    repetitions: int,
    testSetup: nat,             // number of testSetup callbacks
    runSetup: nat,              // number of runSetup callbacks
    transitions: nat,           // number of transitions callbacks
    runTeardown: nat,           // number of runTeardown callbacks
    testTeardown: nat,          // number of testTeardown callbacks
    traceMonitors: nat,         // number of trace monitors
    hasFrameStatsMonitor: bool) // whether frameStatsMonitor is non-null

  /** One attempted step of a run: a callback invocation or a monitor operation. */
  datatype Event =
    | TestSetup(index: nat)
    | RunSetup(iteration: nat, index: nat)
    | StartTrace(iteration: nat, index: nat)
    | StartFrameStats(iteration: nat)
    | Transition(iteration: nat, index: nat)
    | StopTrace(iteration: nat, index: nat)
    | StopFrameStats(iteration: nat)
    | RunTeardown(iteration: nat, index: nat)
    | SaveTrace(iteration: nat, index: nat)
    | TestTeardown(index: nat)

  /** A FlickerRunResult: one built for an iteration's traces, or the device-state
      result of a tag with the names of its two trace files. */
  datatype RunResult =
    | TransitionResult(iteration: int, part: nat)
    | StateResult(tag: string, iteration: int, wmTraceFile: string, layersTraceFile: string)

  /** What the run observes from outside: the steps that throw when attempted, the
      iterations in which the frame-stats monitor reports janky frames, and the
      results the result builder produces for each iteration. */
  datatype Env = Env(throws: set<Event>, janky: set<nat>, built: nat -> seq<RunResult>)

  /** A FlickerResult: the runs, the tags, and the captured error, if any. */
  datatype FlickerResult = FlickerResult(runs: seq<RunResult>, tags: set<string>, executionError: Option<Event>)

  /** The steps attempted by a block and the exception leaving it, if any. */
  datatype Attempt = Attempt(log: seq<Event>, error: Option<Event>)

  /** The steps attempted by some iterations, the exception that ended them, if
      any, and the results they saved. */
  datatype Progress = Progress(log: seq<Event>, error: Option<Event>, runs: seq<RunResult>)

  /** The steps attempted by a whole run and its result. */
  datatype RunOutcome = RunOutcome(log: seq<Event>, result: FlickerResult)

  // ---------------------------------------------------------------------------
  // The steps of each block

  function TestSetupSteps(f: Flicker): seq<Event> {
    seq(f.testSetup, k requires 0 <= k => TestSetup(k))
  }

  function RunSetupSteps(f: Flicker, i: nat): seq<Event> {
    seq(f.runSetup, k requires 0 <= k => RunSetup(i, k))
  }

  function StartTraceSteps(f: Flicker, i: nat): seq<Event> {
    seq(f.traceMonitors, k requires 0 <= k => StartTrace(i, k))
  }

  function StartFrameStatsSteps(f: Flicker, i: nat): seq<Event> {
    if f.hasFrameStatsMonitor then [StartFrameStats(i)] else []
  }

  function TransitionSteps(f: Flicker, i: nat): seq<Event> {
    seq(f.transitions, k requires 0 <= k => Transition(i, k))
  }

  /** The try block of an iteration: runSetup callbacks, start of every trace
      monitor, start of the frame-stats monitor, transitions callbacks. */
  function BodySteps(f: Flicker, i: nat): seq<Event> {
    RunSetupSteps(f, i) + StartTraceSteps(f, i) + StartFrameStatsSteps(f, i) + TransitionSteps(f, i)
  }

  function StopTraceSteps(f: Flicker, i: nat): seq<Event> {
    seq(f.traceMonitors, k requires 0 <= k => StopTrace(i, k))
  }

  function StopFrameStatsSteps(f: Flicker, i: nat): seq<Event> {
    if f.hasFrameStatsMonitor then [StopFrameStats(i)] else []
  }

  /** The monitor stops at the head of an iteration's finally block. */
  function StopSteps(f: Flicker, i: nat): seq<Event> {
    StopTraceSteps(f, i) + StopFrameStatsSteps(f, i)
  }

  function RunTeardownSteps(f: Flicker, i: nat): seq<Event> {
    seq(f.runTeardown, k requires 0 <= k => RunTeardown(i, k))
  }

  /** saveResult: every trace monitor saves its trace into the result builder. */
  function SaveSteps(f: Flicker, i: nat): seq<Event> {
    seq(f.traceMonitors, k requires 0 <= k => SaveTrace(i, k))
  }

  function TestTeardownSteps(f: Flicker): seq<Event> {
    seq(f.testTeardown, k requires 0 <= k => TestTeardown(k))
  }

  /** The number of loop iterations, `0 until repetitions`. */
  function Repetitions(f: Flicker): nat {
    if f.repetitions > 0 then f.repetitions else 0
  }

  /** Whether iteration `i` is skipped because the frame-stats monitor saw jank. */
  predicate Skipped(f: Flicker, env: Env, i: nat) {
    f.hasFrameStatsMonitor && i in env.janky
  }

  /** A stop of a monitor: tryStop swallows what it throws. */
  predicate IsStop(e: Event) {
    e.StopTrace? || e.StopFrameStats?
  }

  /** An attempted step whose exception escapes it. */
  predicate Raised(e: Event, env: Env) {
    e in env.throws && !IsStop(e)
  }

  // ---------------------------------------------------------------------------
  // The blocks

  /** `forEach { it.invoke() }`: the steps in order up to and including the first
      one that throws; that step's exception leaves the block. */
  function ForEach(steps: seq<Event>, env: Env): Attempt
    decreases |steps|
  {
    if steps == [] then Attempt([], None)
    else if steps[0] in env.throws then Attempt([steps[0]], Some(steps[0]))
    else
      var rest := ForEach(steps[1..], env);
      Attempt([steps[0]] + rest.log, rest.error)
  }

  /** forEach attempts a prefix of its steps: all of them when none throws, else
      exactly those up to the first that throws, whose exception it passes on. */
  lemma {:induction false} ForEachStopsAtFirstThrow(steps: seq<Event>, env: Env)
    ensures var a := ForEach(steps, env);
      && |a.log| <= |steps| && a.log == steps[..|a.log|]
      && (a.error.None? <==> forall k :: 0 <= k < |steps| ==> steps[k] !in env.throws)
      && (a.error.None? ==> a.log == steps)
      && (a.error.Some? ==> |a.log| > 0 && a.error.value == a.log[|a.log| - 1] && a.error.value in env.throws)
      && (forall k :: 0 <= k < |a.log| - 1 ==> a.log[k] !in env.throws)
    decreases |steps|
  {
    if steps != [] && steps[0] !in env.throws {
      var tail := steps[1..];
      ForEachStopsAtFirstThrow(tail, env);
      var rest := ForEach(tail, env);
      var a := ForEach(steps, env);
      assert a == Attempt([steps[0]] + rest.log, rest.error);
      assert a.log == steps[..|a.log|] by {
        assert steps[..|a.log|] == [steps[0]] + tail[..|rest.log|];
      }
      forall k | 0 <= k < |steps| && k > 0
        ensures steps[k] == tail[k - 1]
      {
      }
      if rest.error.None? {
        assert steps == [steps[0]] + tail;
      }
    }
  }

  /** One iteration of the loop when no exception is in flight.  The try block's
      steps run until one throws; the monitors are stopped and the runTeardown
      callbacks run in every case; an exception from runTeardown replaces the try
      block's.  Without an exception, a janky iteration saves nothing; otherwise
      saveResult runs, and its results are kept when no monitor's save throws. */
  function Iteration(f: Flicker, env: Env, i: nat): Progress {
    var body := ForEach(BodySteps(f, i), env);
    var teardown := ForEach(RunTeardownSteps(f, i), env);
    var log := body.log + StopSteps(f, i) + teardown.log;
    var error := if teardown.error.Some? then teardown.error else body.error;
    if error.Some? then Progress(log, error, [])
    else if Skipped(f, env, i) then Progress(log, None, [])
    else
      var save := ForEach(SaveSteps(f, i), env);
      Progress(log + save.log, save.error, if save.error.None? then env.built(i) else [])
  }

  /** The first `n` iterations of the loop, ending at the first exception. */
  function Iterations(f: Flicker, env: Env, n: nat): Progress
    decreases n
  {
    if n == 0 then Progress([], None, [])
    else
      var before := Iterations(f, env, n - 1);
      if before.error.Some? then before
      else
        var it := Iteration(f, env, n - 1);
        Progress(before.log + it.log, it.error, before.runs + it.runs)
  }

  /** One more iteration extends the first `n` unless one of them failed. */
  lemma IterationsNext(f: Flicker, env: Env, n: nat)
    ensures var before, it := Iterations(f, env, n), Iteration(f, env, n);
      Iterations(f, env, n + 1) ==
        if before.error.Some? then before
        else Progress(before.log + it.log, it.error, before.runs + it.runs)
  {
  }

  /** After a failure the loop has ended: running more iterations changes nothing. */
  lemma {:induction false} IterationsStable(f: Flicker, env: Env, k: nat, n: nat)
    requires k <= n && Iterations(f, env, k).error.Some?
    ensures Iterations(f, env, n) == Iterations(f, env, k)
    decreases n - k
  {
    if k < n {
      var last: nat := n - 1;
      IterationsStable(f, env, k, last);
      IterationsNext(f, env, last);
    }
  }

  /** The whole of run: testSetup, the loop, testTeardown in every case (its
      exception replacing any other), the exception caught as executionError, the
      tag results appended and the tags reported. */
  function RunSpec(f: Flicker, env: Env, tags: set<string>, tagsResults: seq<RunResult>): RunOutcome {
    var setup := ForEach(TestSetupSteps(f), env);
    var loop := if setup.error.Some? then Progress([], setup.error, []) else Iterations(f, env, Repetitions(f));
    var teardown := ForEach(TestTeardownSteps(f), env);
    var error := if teardown.error.Some? then teardown.error else loop.error;
    RunOutcome(setup.log + loop.log + teardown.log, FlickerResult(loop.runs + tagsResults, tags, error))
  }

  // ---------------------------------------------------------------------------
  // Reference definitions the lemmas compare against

  /** The results saved by the first `n` iterations when none fails: the builder's
      results of every non-janky iteration, in iteration order. */
  function SavedRuns(f: Flicker, env: Env, n: nat): seq<RunResult>
    decreases n
  {
    if n == 0 then []
    else SavedRuns(f, env, n - 1) + (if Skipped(f, env, n - 1) then [] else env.built(n - 1))
  }

  /** The steps of iteration `i` when none throws: the try block, the monitor
      stops, runTeardown, and the saves unless the iteration is janky. */
  function FullIteration(f: Flicker, env: Env, i: nat): seq<Event> {
    BodySteps(f, i) + StopSteps(f, i) + RunTeardownSteps(f, i) + (if Skipped(f, env, i) then [] else SaveSteps(f, i))
  }

  /** The blocks of `blocks`, one after another. */
  function Concat(blocks: seq<seq<Event>>): seq<Event>
    decreases |blocks|
  {
    if blocks == [] then [] else Concat(blocks[..|blocks| - 1]) + blocks[|blocks| - 1]
  }

  /** The first `n` iterations, each in full. */
  function IterationBlocks(f: Flicker, env: Env, n: nat): seq<seq<Event>> {
    seq(n, i requires 0 <= i => FullIteration(f, env, i))
  }

  /** The first `n` iterations in turn, each in full. */
  function FullIterations(f: Flicker, env: Env, n: nat): seq<Event> {
    Concat(IterationBlocks(f, env, n))
  }

  /** The documented order in full: testSetup, every repetition, testTeardown. */
  function FullLog(f: Flicker, env: Env): seq<Event> {
    TestSetupSteps(f) + FullIterations(f, env, Repetitions(f)) + TestTeardownSteps(f)
  }

  /** The last step in `log` whose exception escaped it. */
  function LastRaised(log: seq<Event>, env: Env): Option<Event>
    decreases |log|
  {
    if log == [] then None
    else if Raised(log[|log| - 1], env) then Some(log[|log| - 1])
    else LastRaised(log[..|log| - 1], env)
  }

  predicate IsIterationEvent(e: Event) {
    !e.TestSetup? && !e.TestTeardown?
  }

  /** 0 for testSetup, 1 for the loop, 2 for testTeardown. */
  function Stage(e: Event): int {
    if e.TestSetup? then 0 else if e.TestTeardown? then 2 else 1
  }

  function Iter(e: Event): int {
    if IsIterationEvent(e) then e.iteration else 0
  }

  /** The position of a step's block within an iteration. */
  function Phase(e: Event): int {
    match e
    case RunSetup(_, _) => 0
    case StartTrace(_, _) => 1
    case StartFrameStats(_) => 2
    case Transition(_, _) => 3
    case StopTrace(_, _) => 4
    case StopFrameStats(_) => 5
    case RunTeardown(_, _) => 6
    case SaveTrace(_, _) => 7
    case _ => 0
  }

  function Idx(e: Event): int {
    if e.StartFrameStats? || e.StopFrameStats? then 0 else e.index
  }

  /** The order the runner promises: testSetup, then the iterations in turn, each
      as runSetup, trace starts, frame-stats start, transitions, trace stops,
      frame-stats stop, runTeardown, saves, each list in its own order; then
      testTeardown. */
  predicate Precedes(a: Event, b: Event) {
    Stage(a) < Stage(b) || (Stage(a) == Stage(b) &&
    (Iter(a) < Iter(b) || (Iter(a) == Iter(b) &&
    (Phase(a) < Phase(b) || (Phase(a) == Phase(b) && Idx(a) < Idx(b))))))
  }

  ghost predicate Ordered(log: seq<Event>) {
    forall j, k :: 0 <= j < k < |log| ==> Precedes(log[j], log[k])
  }

  /** Every event of `log` belongs to iteration `i` and to a phase in [lo, hi]. */
  ghost predicate InIteration(log: seq<Event>, i: int, lo: int, hi: int) {
    forall e :: e in log ==> IsIterationEvent(e) && e.iteration == i && lo <= Phase(e) <= hi
  }

  /** A step of a finally block that may still run after `raised` threw: the
      monitor stops and runTeardown callbacks of the iteration whose try block
      threw, and testTeardown callbacks. */
  predicate MayFollowRaise(raised: Event, e: Event) {
    e.TestTeardown? ||
    ((e.StopTrace? || e.StopFrameStats? || e.RunTeardown?) &&
     (raised.RunSetup? || raised.StartTrace? || raised.StartFrameStats? || raised.Transition?) &&
     e.iteration == raised.iteration)
  }

  ghost predicate CleanupAfterRaise(log: seq<Event>, env: Env) {
    forall j, k :: 0 <= j < k < |log| && Raised(log[j], env) ==> MayFollowRaise(log[j], log[k])
  }

  /** Iteration `i` has begun: some step of it is in `log`. */
  ghost predicate Started(log: seq<Event>, i: nat) {
    exists e :: e in log && IsIterationEvent(e) && e.iteration == i
  }

  /** Every monitor of iteration `i` has been stopped and its runTeardown block
      entered. */
  ghost predicate Stopped(f: Flicker, log: seq<Event>, i: nat) {
    && (forall m :: 0 <= m < f.traceMonitors ==> StopTrace(i, m) in log)
    && (f.hasFrameStatsMonitor ==> StopFrameStats(i) in log)
    && (f.runTeardown > 0 ==> RunTeardown(i, 0) in log)
  }

  // ---------------------------------------------------------------------------
  // Order of the steps

  lemma IndexedOrdered(s: seq<Event>, stage: int, iter: int, phase: int)
    requires forall k :: 0 <= k < |s| ==>
      Stage(s[k]) == stage && Iter(s[k]) == iter && Phase(s[k]) == phase && Idx(s[k]) == k
    ensures Ordered(s)
  {
  }

  lemma OrderedConcat(a: seq<Event>, b: seq<Event>)
    requires Ordered(a) && Ordered(b)
    requires forall x, y :: x in a && y in b ==> Precedes(x, y)
    ensures Ordered(a + b)
  {
    forall j, k | 0 <= j < k < |a + b|
      ensures Precedes((a + b)[j], (a + b)[k])
    {
      if k < |a| {
        assert (a + b)[j] == a[j] && (a + b)[k] == a[k];
      } else if j >= |a| {
        assert (a + b)[j] == b[j - |a|] && (a + b)[k] == b[k - |a|];
      } else {
        assert (a + b)[j] in a && (a + b)[k] in b;
      }
    }
  }

  lemma ConcatInIteration(a: seq<Event>, b: seq<Event>, i: int, lo1: int, hi1: int, lo2: int, hi2: int)
    requires Ordered(a) && InIteration(a, i, lo1, hi1)
    requires Ordered(b) && InIteration(b, i, lo2, hi2)
    requires lo1 <= hi1 < lo2 <= hi2
    ensures Ordered(a + b) && InIteration(a + b, i, lo1, hi2)
  {
    OrderedConcat(a, b);
  }

  lemma ForEachKeepsOrder(steps: seq<Event>, env: Env)
    requires Ordered(steps)
    ensures Ordered(ForEach(steps, env).log)
    ensures forall e :: e in ForEach(steps, env).log ==> e in steps
  {
    var log := ForEach(steps, env).log;
    ForEachStopsAtFirstThrow(steps, env);
    forall e | e in log ensures e in steps {
      var k :| 0 <= k < |log| && log[k] == e;
      assert steps[k] == e;
    }
  }

  lemma BodyStepsOrdered(f: Flicker, i: nat)
    ensures Ordered(BodySteps(f, i)) && InIteration(BodySteps(f, i), i, 0, 3)
  {
    var rs, st, fs, tr := RunSetupSteps(f, i), StartTraceSteps(f, i), StartFrameStatsSteps(f, i), TransitionSteps(f, i);
    IndexedOrdered(rs, 1, i, 0);
    IndexedOrdered(st, 1, i, 1);
    IndexedOrdered(fs, 1, i, 2);
    IndexedOrdered(tr, 1, i, 3);
    ConcatInIteration(rs, st, i, 0, 0, 1, 1);
    ConcatInIteration(rs + st, fs, i, 0, 1, 2, 2);
    ConcatInIteration(rs + st + fs, tr, i, 0, 2, 3, 3);
  }

  lemma FinallyStepsOrdered(f: Flicker, i: nat)
    ensures Ordered(StopSteps(f, i)) && InIteration(StopSteps(f, i), i, 4, 5)
    ensures Ordered(RunTeardownSteps(f, i)) && InIteration(RunTeardownSteps(f, i), i, 6, 6)
    ensures Ordered(SaveSteps(f, i)) && InIteration(SaveSteps(f, i), i, 7, 7)
  {
    IndexedOrdered(StopTraceSteps(f, i), 1, i, 4);
    IndexedOrdered(StopFrameStatsSteps(f, i), 1, i, 5);
    ConcatInIteration(StopTraceSteps(f, i), StopFrameStatsSteps(f, i), i, 4, 4, 5, 5);
    IndexedOrdered(RunTeardownSteps(f, i), 1, i, 6);
    IndexedOrdered(SaveSteps(f, i), 1, i, 7);
  }

  /** The steps of one iteration come in the runner's order and belong to it. */
  lemma {:induction false} IterationOrdered(f: Flicker, env: Env, i: nat)
    ensures Ordered(Iteration(f, env, i).log) && InIteration(Iteration(f, env, i).log, i, 0, 7)
  {
    var body := ForEach(BodySteps(f, i), env);
    var teardown := ForEach(RunTeardownSteps(f, i), env);
    var save := ForEach(SaveSteps(f, i), env);
    BodyStepsOrdered(f, i);
    FinallyStepsOrdered(f, i);
    ForEachKeepsOrder(BodySteps(f, i), env);
    ForEachKeepsOrder(RunTeardownSteps(f, i), env);
    ForEachKeepsOrder(SaveSteps(f, i), env);
    ConcatInIteration(body.log, StopSteps(f, i), i, 0, 3, 4, 5);
    ConcatInIteration(body.log + StopSteps(f, i), teardown.log, i, 0, 5, 6, 6);
    ConcatInIteration(body.log + StopSteps(f, i) + teardown.log, save.log, i, 0, 6, 7, 7);
  }

  lemma AppendIteration(a: seq<Event>, b: seq<Event>, i: nat)
    requires Ordered(a) && forall e :: e in a ==> IsIterationEvent(e) && e.iteration < i
    requires Ordered(b) && InIteration(b, i, 0, 7)
    ensures Ordered(a + b) && forall e :: e in a + b ==> IsIterationEvent(e) && e.iteration < i + 1
  {
    OrderedConcat(a, b);
  }

  /** The steps of the first `n` iterations come in the runner's order, iteration
      after iteration. */
  lemma {:induction false} IterationsOrdered(f: Flicker, env: Env, n: nat)
    ensures Ordered(Iterations(f, env, n).log)
    ensures forall e :: e in Iterations(f, env, n).log ==> IsIterationEvent(e) && e.iteration < n
  {
    if n > 0 {
      var last: nat := n - 1;
      var before := Iterations(f, env, last);
      assert before == Iterations(f, env, n - 1);
      IterationsOrdered(f, env, last);
      if before.error.None? {
        var it := Iteration(f, env, last);
        assert it == Iteration(f, env, n - 1);
        assert Iterations(f, env, n).log == before.log + it.log;
        IterationOrdered(f, env, last);
        AppendIteration(before.log, it.log, last);
      }
    }
  }

  /** Every step of a run comes in the order the runner documents: testSetup
      first, then each iteration as runSetup, trace starts, frame-stats start,
      transitions, trace stops, frame-stats stop, runTeardown, saves, then
      testTeardown; so no step is attempted twice. */
  lemma RunLogOrdered(f: Flicker, env: Env, tags: set<string>, tagsResults: seq<RunResult>)
    ensures Ordered(RunSpec(f, env, tags, tagsResults).log)
    ensures var log := RunSpec(f, env, tags, tagsResults).log;
      forall j, k :: 0 <= j < k < |log| ==> log[j] != log[k]
  {
    var setup := ForEach(TestSetupSteps(f), env);
    var loop := if setup.error.Some? then Progress([], setup.error, []) else Iterations(f, env, Repetitions(f));
    var teardown := ForEach(TestTeardownSteps(f), env);
    IndexedOrdered(TestSetupSteps(f), 0, 0, 0);
    IndexedOrdered(TestTeardownSteps(f), 2, 0, 0);
    ForEachKeepsOrder(TestSetupSteps(f), env);
    ForEachKeepsOrder(TestTeardownSteps(f), env);
    IterationsOrdered(f, env, Repetitions(f));
    OrderedConcat(setup.log, loop.log);
    OrderedConcat(setup.log + loop.log, teardown.log);
  }

  /** testSetup's first callback is the first step of every run; testTeardown's
      first callback is attempted in every run, after every other step but
      testTeardown's, and only once. */
  lemma RunBracketsTestSetupAndTeardown(f: Flicker, env: Env, tags: set<string>, tagsResults: seq<RunResult>)
    ensures var log := RunSpec(f, env, tags, tagsResults).log;
      && (f.testSetup > 0 ==> |log| > 0 && log[0] == TestSetup(0))
      && (f.testTeardown > 0 ==> TestTeardown(0) in log)
      && (forall j, k :: 0 <= j < k < |log| && log[j].TestTeardown? ==> log[k].TestTeardown?)
      && (forall j, k :: 0 <= j < k < |log| && log[k].TestSetup? ==> log[j].TestSetup?)
  {
    RunLogOrdered(f, env, tags, tagsResults);
    var setup := ForEach(TestSetupSteps(f), env);
    var teardown := ForEach(TestTeardownSteps(f), env);
    if f.testSetup > 0 {
      assert TestSetupSteps(f)[0] == TestSetup(0);
      assert setup.log[0] == TestSetup(0);
    }
    if f.testTeardown > 0 {
      assert TestTeardownSteps(f)[0] == TestTeardown(0);
      assert teardown.log[0] == TestTeardown(0);
    }
  }

  // ---------------------------------------------------------------------------
  // The error a run reports

  lemma {:induction false} LastRaisedConcat(a: seq<Event>, b: seq<Event>, env: Env)
    ensures LastRaised(a + b, env) ==
      if LastRaised(b, env).Some? then LastRaised(b, env) else LastRaised(a, env)
    decreases |b|
  {
    if b == [] {
      assert a + b == a;
    } else {
      var ab := a + b;
      assert ab[|ab| - 1] == b[|b| - 1];
      if !Raised(b[|b| - 1], env) {
        assert ab[..|ab| - 1] == a + b[..|b| - 1];
        LastRaisedConcat(a, b[..|b| - 1], env);
      }
    }
  }

  lemma {:induction false} LastRaisedNone(log: seq<Event>, env: Env)
    ensures LastRaised(log, env).None? <==> forall k :: 0 <= k < |log| ==> !Raised(log[k], env)
    decreases |log|
  {
    if log != [] && !Raised(log[|log| - 1], env) {
      var front := log[..|log| - 1];
      LastRaisedNone(front, env);
      assert forall k :: 0 <= k < |front| ==> front[k] == log[k];
    }
  }

  /** A forEach block's exception is the last exception raised among its steps. */
  lemma ForEachErrorIsLastRaised(steps: seq<Event>, env: Env)
    requires forall e :: e in steps ==> !IsStop(e)
    ensures ForEach(steps, env).error == LastRaised(ForEach(steps, env).log, env)
  {
    var a := ForEach(steps, env);
    ForEachStopsAtFirstThrow(steps, env);
    LastRaisedNone(a.log, env);
    if a.error.Some? {
      assert a.log[|a.log| - 1] == steps[|a.log| - 1];
    }
  }

  lemma NoStopsInBlocks(f: Flicker, i: nat)
    ensures forall e :: e in BodySteps(f, i) ==> !IsStop(e)
    ensures forall e :: e in RunTeardownSteps(f, i) ==> !IsStop(e)
    ensures forall e :: e in SaveSteps(f, i) ==> !IsStop(e)
    ensures forall e :: e in StopSteps(f, i) ==> IsStop(e)
  {
    BodyStepsOrdered(f, i);
    FinallyStepsOrdered(f, i);
  }

  lemma IterationErrorIsLastRaised(f: Flicker, env: Env, i: nat)
    ensures Iteration(f, env, i).error == LastRaised(Iteration(f, env, i).log, env)
  {
    var body := ForEach(BodySteps(f, i), env);
    var stops := StopSteps(f, i);
    var teardown := ForEach(RunTeardownSteps(f, i), env);
    var save := ForEach(SaveSteps(f, i), env);
    NoStopsInBlocks(f, i);
    ForEachErrorIsLastRaised(BodySteps(f, i), env);
    ForEachErrorIsLastRaised(RunTeardownSteps(f, i), env);
    ForEachErrorIsLastRaised(SaveSteps(f, i), env);
    LastRaisedNone(stops, env);
    LastRaisedConcat(body.log, stops, env);
    LastRaisedConcat(body.log + stops, teardown.log, env);
    LastRaisedConcat(body.log + stops + teardown.log, save.log, env);
  }

  lemma {:induction false} IterationsErrorIsLastRaised(f: Flicker, env: Env, n: nat)
    ensures Iterations(f, env, n).error == LastRaised(Iterations(f, env, n).log, env)
  {
    if n > 0 {
      var last: nat := n - 1;
      IterationsErrorIsLastRaised(f, env, last);
      IterationsNext(f, env, last);
      var before := Iterations(f, env, last);
      if before.error.None? {
        IterationErrorIsLastRaised(f, env, last);
        LastRaisedConcat(before.log, Iteration(f, env, last).log, env);
      }
    }
  }

  /** The error a run captures is the last exception raised by any step that is
      not a monitor stop, since an exception thrown in a finally block replaces
      the one in flight; there is none exactly when no such step threw. */
  lemma RunErrorIsLastRaised(f: Flicker, env: Env, tags: set<string>, tagsResults: seq<RunResult>)
    ensures var o := RunSpec(f, env, tags, tagsResults);
      o.result.executionError == LastRaised(o.log, env)
    ensures var o := RunSpec(f, env, tags, tagsResults);
      o.result.executionError.None? <==> forall k :: 0 <= k < |o.log| ==> !Raised(o.log[k], env)
  {
    var o := RunSpec(f, env, tags, tagsResults);
    var setup := ForEach(TestSetupSteps(f), env);
    var loop := if setup.error.Some? then Progress([], setup.error, []) else Iterations(f, env, Repetitions(f));
    var teardown := ForEach(TestTeardownSteps(f), env);
    ForEachErrorIsLastRaised(TestSetupSteps(f), env);
    ForEachErrorIsLastRaised(TestTeardownSteps(f), env);
    IterationsErrorIsLastRaised(f, env, Repetitions(f));
    LastRaisedConcat(setup.log, loop.log, env);
    LastRaisedConcat(setup.log + loop.log, teardown.log, env);
    LastRaisedNone(o.log, env);
  }

  // ---------------------------------------------------------------------------
  // What may run after a failure

  lemma ForEachCleanup(steps: seq<Event>, env: Env)
    ensures CleanupAfterRaise(ForEach(steps, env).log, env)
  {
    ForEachStopsAtFirstThrow(steps, env);
  }

  lemma CleanupConcat(a: seq<Event>, b: seq<Event>, env: Env)
    requires CleanupAfterRaise(a, env) && CleanupAfterRaise(b, env)
    requires forall x, y :: x in a && y in b && Raised(x, env) ==> MayFollowRaise(x, y)
    ensures CleanupAfterRaise(a + b, env)
  {
    forall j, k | 0 <= j < k < |a + b| && Raised((a + b)[j], env)
      ensures MayFollowRaise((a + b)[j], (a + b)[k])
    {
      if k < |a| {
        assert (a + b)[j] == a[j] && (a + b)[k] == a[k];
      } else if j >= |a| {
        assert (a + b)[j] == b[j - |a|] && (a + b)[k] == b[k - |a|];
      } else {
        assert (a + b)[j] in a && (a + b)[k] in b;
      }
    }
  }

  lemma NoRaisedCleanup(log: seq<Event>, env: Env)
    requires forall k :: 0 <= k < |log| ==> !Raised(log[k], env)
    ensures CleanupAfterRaise(log, env)
    ensures forall x :: x in log ==> !Raised(x, env)
  {
  }

  /** The steps of an iteration before its saves. */
  function IterationFront(f: Flicker, env: Env, i: nat): seq<Event> {
    ForEach(BodySteps(f, i), env).log + StopSteps(f, i) + ForEach(RunTeardownSteps(f, i), env).log
  }

  /** Every step of a finally block may follow a raise in its own try block. */
  lemma FinallyMayFollowBody(a: seq<Event>, b: seq<Event>, i: int)
    requires InIteration(a, i, 0, 3) && InIteration(b, i, 4, 6)
    ensures forall x, y :: x in a && y in b ==> MayFollowRaise(x, y)
  {
  }

  lemma IterationFrontCleanup(f: Flicker, env: Env, i: nat)
    ensures CleanupAfterRaise(IterationFront(f, env, i), env)
  {
    var body := ForEach(BodySteps(f, i), env);
    var stops := StopSteps(f, i);
    var teardown := ForEach(RunTeardownSteps(f, i), env);
    BodyStepsOrdered(f, i);
    FinallyStepsOrdered(f, i);
    ForEachKeepsOrder(BodySteps(f, i), env);
    ForEachKeepsOrder(RunTeardownSteps(f, i), env);
    assert InIteration(body.log, i, 0, 3);
    assert InIteration(stops + teardown.log, i, 4, 6);
    FinallyMayFollowBody(body.log, stops + teardown.log, i);
    ForEachCleanup(BodySteps(f, i), env);
    ForEachCleanup(RunTeardownSteps(f, i), env);
    NoStopsInBlocks(f, i);
    NoRaisedCleanup(stops, env);
    CleanupConcat(stops, teardown.log, env);
    CleanupConcat(body.log, stops + teardown.log, env);
    assert IterationFront(f, env, i) == body.log + (stops + teardown.log);
  }

  /** When neither the try block nor runTeardown threw, nothing before the saves raised. */
  lemma IterationFrontRaisesNothing(f: Flicker, env: Env, i: nat)
    requires ForEach(BodySteps(f, i), env).error.None? && ForEach(RunTeardownSteps(f, i), env).error.None?
    ensures forall x :: x in IterationFront(f, env, i) ==> !Raised(x, env)
  {
    var body := ForEach(BodySteps(f, i), env);
    var stops := StopSteps(f, i);
    var front := IterationFront(f, env, i);
    NoStopsInBlocks(f, i);
    ForEachErrorIsLastRaised(BodySteps(f, i), env);
    ForEachErrorIsLastRaised(RunTeardownSteps(f, i), env);
    LastRaisedNone(stops, env);
    LastRaisedConcat(body.log, stops, env);
    LastRaisedConcat(body.log + stops, ForEach(RunTeardownSteps(f, i), env).log, env);
    LastRaisedNone(front, env);
    NoRaisedCleanup(front, env);
  }

  lemma IterationCleanup(f: Flicker, env: Env, i: nat)
    ensures CleanupAfterRaise(Iteration(f, env, i).log, env)
  {
    var body := ForEach(BodySteps(f, i), env);
    var teardown := ForEach(RunTeardownSteps(f, i), env);
    var save := ForEach(SaveSteps(f, i), env);
    var front := IterationFront(f, env, i);
    IterationFrontCleanup(f, env, i);
    var error := if teardown.error.Some? then teardown.error else body.error;
    if error.None? && !Skipped(f, env, i) {
      assert Iteration(f, env, i).log == front + save.log;
      IterationFrontRaisesNothing(f, env, i);
      ForEachCleanup(SaveSteps(f, i), env);
      CleanupConcat(front, save.log, env);
    } else {
      assert Iteration(f, env, i).log == front;
    }
  }

  lemma {:induction false} IterationsCleanup(f: Flicker, env: Env, n: nat)
    ensures CleanupAfterRaise(Iterations(f, env, n).log, env)
  {
    if n > 0 {
      var last: nat := n - 1;
      var before := Iterations(f, env, last);
      assert before == Iterations(f, env, n - 1);
      IterationsCleanup(f, env, last);
      if before.error.None? {
        var it := Iteration(f, env, last);
        assert it == Iteration(f, env, n - 1);
        IterationCleanup(f, env, last);
        IterationsErrorIsLastRaised(f, env, last);
        LastRaisedNone(before.log, env);
        NoRaisedCleanup(before.log, env);
        CleanupConcat(before.log, it.log, env);
      }
    }
  }

  /** Once a step has raised an exception, the only steps still attempted are the
      finally blocks it passes through: the monitor stops and runTeardown callbacks
      of the iteration whose try block threw, then testTeardown.  In particular a
      failure ends the loop and no later transition, save or iteration runs. */
  lemma RunCleanupOnlyAfterFailure(f: Flicker, env: Env, tags: set<string>, tagsResults: seq<RunResult>)
    ensures CleanupAfterRaise(RunSpec(f, env, tags, tagsResults).log, env)
  {
    var setup := ForEach(TestSetupSteps(f), env);
    var loop := if setup.error.Some? then Progress([], setup.error, []) else Iterations(f, env, Repetitions(f));
    var teardown := ForEach(TestTeardownSteps(f), env);
    ForEachCleanup(TestSetupSteps(f), env);
    ForEachCleanup(TestTeardownSteps(f), env);
    IterationsCleanup(f, env, Repetitions(f));
    ForEachKeepsOrder(TestTeardownSteps(f), env);
    if setup.error.None? {
      ForEachErrorIsLastRaised(TestSetupSteps(f), env);
      LastRaisedNone(setup.log, env);
      NoRaisedCleanup(setup.log, env);
    }
    CleanupConcat(setup.log, loop.log, env);
    CleanupConcat(setup.log + loop.log, teardown.log, env);
  }

  // ---------------------------------------------------------------------------
  // Monitors are always stopped; janky iterations save nothing

  lemma StopStepsStopAll(f: Flicker, i: nat)
    ensures Stopped(f, StopSteps(f, i) + RunTeardownSteps(f, i)[..if f.runTeardown > 0 then 1 else 0], i)
  {
    var stops := StopSteps(f, i);
    var first := RunTeardownSteps(f, i)[..if f.runTeardown > 0 then 1 else 0];
    forall m | 0 <= m < f.traceMonitors ensures StopTrace(i, m) in stops + first {
      assert stops[m] == StopTrace(i, m);
    }
    if f.hasFrameStatsMonitor {
      assert stops[f.traceMonitors] == StopFrameStats(i);
    }
    if f.runTeardown > 0 {
      assert (stops + first)[|stops|] == RunTeardown(i, 0);
    }
  }

  lemma StoppedGrows(f: Flicker, a: seq<Event>, b: seq<Event>, i: nat)
    requires Stopped(f, a, i)
    requires forall e :: e in a ==> e in b
    ensures Stopped(f, b, i)
  {
  }

  lemma IterationStops(f: Flicker, env: Env, i: nat)
    ensures Stopped(f, Iteration(f, env, i).log, i)
  {
    var body := ForEach(BodySteps(f, i), env);
    var teardown := ForEach(RunTeardownSteps(f, i), env);
    var save := ForEach(SaveSteps(f, i), env);
    var front := body.log + StopSteps(f, i) + teardown.log;
    var first := RunTeardownSteps(f, i)[..if f.runTeardown > 0 then 1 else 0];
    ForEachStopsAtFirstThrow(RunTeardownSteps(f, i), env);
    assert first == teardown.log[..|first|];
    StopStepsStopAll(f, i);
    assert forall e :: e in StopSteps(f, i) + first ==> e in front;
    StoppedGrows(f, StopSteps(f, i) + first, front, i);
    var log := Iteration(f, env, i).log;
    assert log == front || log == front + save.log;
    StoppedGrows(f, front, log, i);
  }

  lemma IterationSkipsSave(f: Flicker, env: Env, i: nat)
    requires Skipped(f, env, i)
    ensures forall e :: e in Iteration(f, env, i).log ==> !e.SaveTrace?
  {
    BodyStepsOrdered(f, i);
    FinallyStepsOrdered(f, i);
    ForEachKeepsOrder(BodySteps(f, i), env);
    ForEachKeepsOrder(RunTeardownSteps(f, i), env);
  }

  lemma {:induction false} IterationsStop(f: Flicker, env: Env, n: nat)
    ensures forall i: nat :: Started(Iterations(f, env, n).log, i) ==> Stopped(f, Iterations(f, env, n).log, i)
    ensures forall e :: e in Iterations(f, env, n).log && e.SaveTrace? ==> !Skipped(f, env, e.iteration)
  {
    if n > 0 {
      var last: nat := n - 1;
      var before := Iterations(f, env, last);
      assert before == Iterations(f, env, n - 1);
      IterationsStop(f, env, last);
      if before.error.None? {
        var it := Iteration(f, env, last);
        assert it == Iteration(f, env, n - 1);
        IterationStops(f, env, last);
        if Skipped(f, env, last) {
          IterationSkipsSave(f, env, last);
        }
        IterationOrdered(f, env, last);
        var log := before.log + it.log;
        forall i: nat | Started(log, i) ensures Stopped(f, log, i) {
          var e :| e in log && IsIterationEvent(e) && e.iteration == i;
          if e in before.log {
            assert Started(before.log, i);
          }
        }
      }
    }
  }

  /** Every iteration that begins has every trace monitor and the frame-stats
      monitor stopped and its runTeardown block entered, whatever failed in it;
      and no trace is saved for an iteration skipped for jank. */
  lemma RunStopsEveryStartedIteration(f: Flicker, env: Env, tags: set<string>, tagsResults: seq<RunResult>)
    ensures var log := RunSpec(f, env, tags, tagsResults).log;
      forall i: nat :: Started(log, i) ==> Stopped(f, log, i)
    ensures var log := RunSpec(f, env, tags, tagsResults).log;
      forall e :: e in log && e.SaveTrace? ==> !Skipped(f, env, e.iteration)
  {
    var setup := ForEach(TestSetupSteps(f), env);
    var loop := if setup.error.Some? then Progress([], setup.error, []) else Iterations(f, env, Repetitions(f));
    var teardown := ForEach(TestTeardownSteps(f), env);
    var log := setup.log + loop.log + teardown.log;
    assert RunSpec(f, env, tags, tagsResults).log == log;
    ForEachKeepsOrder(TestSetupSteps(f), env);
    ForEachKeepsOrder(TestTeardownSteps(f), env);
    IterationsStop(f, env, Repetitions(f));
    forall i: nat | Started(log, i) ensures Stopped(f, log, i) {
      var e :| e in log && IsIterationEvent(e) && e.iteration == i;
      assert e in loop.log;
      assert Started(loop.log, i);
    }
    forall e | e in log && e.SaveTrace? ensures !Skipped(f, env, e.iteration) {
      assert e in loop.log;
    }
  }

  // ---------------------------------------------------------------------------
  // Results

  lemma {:induction false} IterationsRuns(f: Flicker, env: Env, n: nat)
    ensures Iterations(f, env, n).error.None? ==> Iterations(f, env, n).runs == SavedRuns(f, env, n)
    ensures Iterations(f, env, n).error.Some? ==>
      exists c :: 0 <= c < n && Iterations(f, env, c).error.None? && Iteration(f, env, c).error.Some? &&
        Iterations(f, env, n).runs == SavedRuns(f, env, c)
  {
    if n > 0 {
      var last: nat := n - 1;
      var before := Iterations(f, env, last);
      assert before == Iterations(f, env, n - 1);
      IterationsRuns(f, env, last);
      if before.error.None? {
        var it := Iteration(f, env, last);
        assert it == Iteration(f, env, n - 1);
        assert SavedRuns(f, env, n) == SavedRuns(f, env, last) + (if Skipped(f, env, last) then [] else env.built(last));
        if it.error.Some? {
          assert it.runs == [];
          assert Iterations(f, env, n).runs == SavedRuns(f, env, last) + [];
          assert Iterations(f, env, n).runs == SavedRuns(f, env, last);
        } else {
          assert Iterations(f, env, n).runs == SavedRuns(f, env, n);
        }
      } else {
        var c :| 0 <= c < last && Iterations(f, env, c).error.None? && Iteration(f, env, c).error.Some? &&
          before.runs == SavedRuns(f, env, c);
        assert Iterations(f, env, n).runs == SavedRuns(f, env, c);
      }
    }
  }

  /** The runs of a result are the builder's results of the non-janky iterations
      before the first failing one, in iteration order, followed by the tag
      results: none when testSetup threw, those of every repetition when the loop
      did not fail (even if testTeardown threw), and those before the failing
      iteration `c` otherwise.  The tags are reported as they were. */
  lemma RunResultsAreSavedIterations(f: Flicker, env: Env, tags: set<string>, tagsResults: seq<RunResult>)
    ensures var r := RunSpec(f, env, tags, tagsResults).result;
      && r.tags == tags
      && (ForEach(TestSetupSteps(f), env).error.Some? ==> r.runs == tagsResults)
      && (ForEach(TestSetupSteps(f), env).error.None? && Iterations(f, env, Repetitions(f)).error.None? ==>
            r.runs == SavedRuns(f, env, Repetitions(f)) + tagsResults)
      && (ForEach(TestSetupSteps(f), env).error.None? && Iterations(f, env, Repetitions(f)).error.Some? ==>
            exists c :: 0 <= c < Repetitions(f) && Iterations(f, env, c).error.None? && Iteration(f, env, c).error.Some? &&
              r.runs == SavedRuns(f, env, c) + tagsResults)
      && (r.executionError.None? ==> r.runs == SavedRuns(f, env, Repetitions(f)) + tagsResults)
  {
    var setup := ForEach(TestSetupSteps(f), env);
    var loop := if setup.error.Some? then Progress([], setup.error, []) else Iterations(f, env, Repetitions(f));
    var teardown := ForEach(TestTeardownSteps(f), env);
    var r := RunSpec(f, env, tags, tagsResults).result;
    assert r.runs == loop.runs + tagsResults && r.tags == tags;
    assert r.executionError == if teardown.error.Some? then teardown.error else loop.error;
    IterationsRuns(f, env, Repetitions(f));
    if setup.error.Some? {
      assert loop.runs == [];
      assert r.runs == [] + tagsResults;
    } else if loop.error.Some? {
      var c :| 0 <= c < Repetitions(f) && Iterations(f, env, c).error.None? && Iteration(f, env, c).error.Some? &&
        loop.runs == SavedRuns(f, env, c);
      assert r.runs == SavedRuns(f, env, c) + tagsResults;
    } else {
      assert loop.runs == SavedRuns(f, env, Repetitions(f));
    }
  }

  lemma {:induction false} IterationsComplete(f: Flicker, env: Env, n: nat)
    ensures Iterations(f, env, n).error.None? ==> Iterations(f, env, n).log == FullIterations(f, env, n)
  {
    if n > 0 {
      var last: nat := n - 1;
      var before := Iterations(f, env, last);
      assert before == Iterations(f, env, n - 1);
      IterationsComplete(f, env, last);
      if before.error.None? {
        var it := Iteration(f, env, last);
        assert it == Iteration(f, env, n - 1);
        if it.error.None? {
          ForEachStopsAtFirstThrow(BodySteps(f, last), env);
          ForEachStopsAtFirstThrow(RunTeardownSteps(f, last), env);
          ForEachStopsAtFirstThrow(SaveSteps(f, last), env);
          var front := BodySteps(f, last) + StopSteps(f, last) + RunTeardownSteps(f, last);
          if Skipped(f, env, last) {
            assert it.log == front + [];
          } else {
            assert it.log == front + SaveSteps(f, last);
          }
          assert it.log == FullIteration(f, env, last);
          FullIterationsNext(f, env, last);
        }
      }
    }
  }

  lemma FullIterationsNext(f: Flicker, env: Env, n: nat)
    ensures FullIterations(f, env, n + 1) == FullIterations(f, env, n) + FullIteration(f, env, n)
  {
    var blocks := IterationBlocks(f, env, n + 1);
    assert blocks[..n] == IterationBlocks(f, env, n);
    assert blocks[n] == FullIteration(f, env, n);
  }

  /** A step of one block is a step of the concatenation. */
  lemma {:induction false} InConcat(blocks: seq<seq<Event>>, j: nat, e: Event)
    requires j < |blocks| && e in blocks[j]
    ensures e in Concat(blocks)
    decreases |blocks|
  {
    var front := blocks[..|blocks| - 1];
    assert Concat(blocks) == Concat(front) + blocks[|blocks| - 1];
    if j < |blocks| - 1 {
      assert front[j] == blocks[j];
      InConcat(front, j, e);
    }
  }

  /** The documented order in full holds every step: every testSetup callback,
      for every repetition its runSetup callbacks, monitor starts, transitions,
      monitor stops, runTeardown callbacks and, unless it is janky, its saves, and
      every testTeardown callback. */
  lemma FullLogHoldsEveryStep(f: Flicker, env: Env)
    ensures forall e :: e in TestSetupSteps(f) ==> e in FullLog(f, env)
    ensures forall e :: e in TestTeardownSteps(f) ==> e in FullLog(f, env)
    ensures forall i: nat, e :: i < Repetitions(f) && e in BodySteps(f, i) ==> e in FullLog(f, env)
    ensures forall i: nat, e :: i < Repetitions(f) && e in StopSteps(f, i) ==> e in FullLog(f, env)
    ensures forall i: nat, e :: i < Repetitions(f) && e in RunTeardownSteps(f, i) ==> e in FullLog(f, env)
    ensures forall i: nat, e :: i < Repetitions(f) && !Skipped(f, env, i) && e in SaveSteps(f, i) ==> e in FullLog(f, env)
  {
    var all := FullLog(f, env);
    var loop := FullIterations(f, env, Repetitions(f));
    assert all == TestSetupSteps(f) + loop + TestTeardownSteps(f);
    forall i: nat, e | i < Repetitions(f) && e in FullIteration(f, env, i)
      ensures e in all
    {
      InConcat(IterationBlocks(f, env, Repetitions(f)), i, e);
    }
    forall i: nat | i < Repetitions(f)
      ensures forall e :: e in BodySteps(f, i) || e in StopSteps(f, i) || e in RunTeardownSteps(f, i) ==> e in all
      ensures !Skipped(f, env, i) ==> forall e :: e in SaveSteps(f, i) ==> e in all
    {
      var full := FullIteration(f, env, i);
      assert full == BodySteps(f, i) + StopSteps(f, i) + RunTeardownSteps(f, i) +
        (if Skipped(f, env, i) then [] else SaveSteps(f, i));
    }
  }

  /** A run that reports no error has attempted every step, each once, in the
      documented order: its log is `FullLog`. */
  lemma RunCompletesEveryRepetition(f: Flicker, env: Env, tags: set<string>, tagsResults: seq<RunResult>)
    ensures var o := RunSpec(f, env, tags, tagsResults);
      o.result.executionError.None? ==> o.log == FullLog(f, env)
  {
    var o := RunSpec(f, env, tags, tagsResults);
    if o.result.executionError.None? {
      ForEachStopsAtFirstThrow(TestSetupSteps(f), env);
      ForEachStopsAtFirstThrow(TestTeardownSteps(f), env);
      IterationsComplete(f, env, Repetitions(f));
    }
  }
}
