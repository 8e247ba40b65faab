/** The flicker TransitionRunner: it validates a test specification, runs its
    setup, transitions and teardown for every repetition while monitors record
    traces, collects the results, and keeps a registry of device-state tags.

    The steps of a run are the abstract events of RunnerProtocol; `Run` is proved
    to produce exactly the log and result `RunSpec` gives, so the lemmas proved
    there hold of every run. */
module FlickerRunner {
  import opened RunnerProtocol

  /** Why execute or createTag refuses or fails. */
  datatype Error =
    | NoTransitions                      // a flicker test must include transitions to run
    | NoRepetitions                      // the number of repetitions must be greater than 0
    | TagContainsSpace(tag: string)      // a tag is part of a file name, so it cannot hold a space
    | TagAlreadyUsed(tag: string)        // the tag has already been used
    | DeviceStateUnavailable             // capturing or parsing the device state threw
    | TraceFileNotWritten(file: string)  // writing a trace file threw an IOException

  datatype Outcome = Pass | Fail(error: Error)

  datatype Result<T> = Success(value: T) | Failure(error: Error)

  /** Which part of capturing a tag's device state fails, if any. */
  datatype Capture = Captured | StateDumpFails | WmTraceWriteFails | LayersTraceWriteFails

  /** check: a test needs at least one transition and a positive number of
      repetitions; the transitions are checked first. */
  function Check(f: Flicker): (o: Outcome)
    ensures o.Pass? <==> f.transitions > 0 && f.repetitions > 0
    ensures o == Fail(NoTransitions) <==> f.transitions == 0
    ensures o == Fail(NoRepetitions) <==> f.transitions > 0 && f.repetitions <= 0
  {
    if f.transitions == 0 then Fail(NoTransitions)
    else if f.repetitions <= 0 then Fail(NoRepetitions)
    else Pass
  }

  /** Why createTag refuses `tag`: a space, checked first, or a tag already used. */
  function TagRejection(tags: set<string>, tag: string): (e: Option<Error>)
    ensures e.None? <==> ' ' !in tag && tag !in tags
    ensures ' ' in tag ==> e == Some(TagContainsSpace(tag))
    ensures ' ' !in tag && tag in tags ==> e == Some(TagAlreadyUsed(tag))
  {
    if ' ' in tag then Some(TagContainsSpace(tag))
    else if tag in tags then Some(TagAlreadyUsed(tag))
    else None
  }

  /** createTag's documentation allows only letters and digits, but its code
      refuses only a space: a separator or a path delimiter is accepted. */
  lemma TagRejectionAcceptsPathCharacters()
    ensures TagRejection({}, "a/b").None? && TagRejection({}, "a_b").None?
    ensures TagRejection({}, "a b").Some?
  {
    assert "a/b"[1] == '/' && ' ' !in "a/b";
    assert "a_b"[1] == '_' && ' ' !in "a_b";
    assert "a b"[1] == ' ';
  }

  function DigitChar(d: int): char
    requires 0 <= d < 10
  {
    ('0' as int + d) as char
  }

  /** The decimal digits of `n`, most significant first. */
  function NatToDecimal(n: nat): (s: string)
    ensures |s| > 0
    ensures forall c :: c in s ==> '0' <= c <= '9'
    decreases n
  {
    if n < 10 then [DigitChar(n)] else NatToDecimal(n / 10) + [DigitChar(n % 10)]
  }

  /** An Int as a string template writes it. */
  function IntToDecimal(n: int): (s: string)
    ensures ' ' !in s && '_' !in s
  {
    if n < 0 then "-" + NatToDecimal(-n) else NatToDecimal(n)
  }

  /** The number a string of decimal digits denotes, most significant first. */
  function DecimalValue(s: string): int
    decreases |s|
  {
    if s == [] then 0 else DecimalValue(s[..|s| - 1]) * 10 + (s[|s| - 1] as int - '0' as int)
  }

  /** The integer a decimal string with an optional leading minus sign denotes. */
  function ParseInt(s: string): int {
    if |s| > 0 && s[0] == '-' then -DecimalValue(s[1..]) else DecimalValue(s)
  }

  lemma {:induction false} NatToDecimalValue(n: nat)
    ensures DecimalValue(NatToDecimal(n)) == n
    decreases n
  {
    var s := NatToDecimal(n);
    if n < 10 {
      assert s[..|s| - 1] == [];
    } else {
      NatToDecimalValue(n / 10);
      assert s[..|s| - 1] == NatToDecimal(n / 10);
    }
  }

  /** The iteration written into a file name reads back as the same number. */
  lemma IntToDecimalRoundTrip(n: int)
    ensures ParseInt(IntToDecimal(n)) == n
  {
    var s := IntToDecimal(n);
    if n < 0 {
      NatToDecimalValue(-n);
      assert s[1..] == NatToDecimal(-n);
    } else {
      NatToDecimalValue(n);
      assert s[0] in s;
    }
  }

  /** One pass of run's loop body: the try block, the monitor stops and
      runTeardown in its finally, then, unless the frame-stats monitor saw jank,
      saveResult.  It returns the steps attempted, the exception leaving the pass
      and the results to keep, which are none when an exception leaves it. */
  method RunIteration(f: Flicker, env: Env, iteration: nat)
    returns (steps: seq<Event>, thrown: Option<Event>, saved: seq<RunResult>)
    ensures Iteration(f, env, iteration) == Progress(steps, thrown, saved)
    ensures thrown.Some? ==> saved == []
  {
    var body := ForEach(BodySteps(f, iteration), env);
    var teardown := ForEach(RunTeardownSteps(f, iteration), env);
    steps := body.log + StopSteps(f, iteration) + teardown.log;
    thrown := if teardown.error.Some? then teardown.error else body.error;
    saved := [];
    if thrown.Some? {
      return;
    }
    if f.hasFrameStatsMonitor && iteration in env.janky {
      return;
    }
    var save := ForEach(SaveSteps(f, iteration), env);
    steps := steps + save.log;
    thrown := save.error;
    if thrown.None? {
      saved := env.built(iteration);
    }
  }

  /** run's loop over the repetitions: each pass as RunIteration, keeping the
      results it saves, until an exception leaves a pass. */
  method RunIterations(f: Flicker, env: Env) returns (log: seq<Event>, thrown: Option<Event>, runs: seq<RunResult>)
    ensures Iterations(f, env, Repetitions(f)) == Progress(log, thrown, runs)
  {
    log, thrown, runs := [], None, [];
    for iteration := 0 to Repetitions(f)
      invariant Iterations(f, env, iteration) == Progress(log, None, runs) && thrown.None?
    {
      IterationsNext(f, env, iteration);
      var steps, saved;
      steps, thrown, saved := RunIteration(f, env, iteration);
      log := log + steps;
      if thrown.Some? {
        IterationsStable(f, env, iteration + 1, Repetitions(f));
        return;
      }
      runs := runs + saved;
    }
  }

  class TransitionRunner {
    /** The iteration written into tag file names.  No method assigns it: run's
        loop declares its own `iteration`. */
    var iteration: int
    var tags: set<string>
    var tagsResults: seq<RunResult>

    /** The registry invariant: `iteration` is 0; no tag holds a space; every tag
        result is the state result of a registered tag, one per tag. */
    ghost predicate Valid()
      reads this
    {
      && iteration == 0
      && (forall t :: t in tags ==> ' ' !in t)
      && (forall k :: 0 <= k < |tagsResults| ==> tagsResults[k].StateResult? && tagsResults[k].tag in tags)
      && (forall j, k :: 0 <= j < k < |tagsResults| ==> tagsResults[j].tag != tagsResults[k].tag)
    }

    constructor ()
      ensures Valid()
      ensures tags == {} && tagsResults == []
    {
      iteration := 0;
      tags := {};
      tagsResults := [];
    }

    /** The name of a tag's trace file: test name, iteration, tag and file joined
        by underscores; the iteration is always 0. */
    function TaggedFilePath(f: Flicker, tag: string, file: string): (path: string)
      reads this
      ensures iteration == 0 ==> path == f.testName + "_0_" + tag + "_" + file
    {
      f.testName + "_" + IntToDecimal(iteration) + "_" + tag + "_" + file
    }

    /** cleanUp: forget every tag and tag result. */
    method CleanUp()
      requires Valid()
      modifies this`tags, this`tagsResults
      ensures Valid()
      ensures tags == {} && tagsResults == []
    {
      tags := {};
      tagsResults := [];
    }

    /** execute: a specification that fails check is refused before any step runs
        and without touching the registry; otherwise the test is run. */
    method Execute(f: Flicker, env: Env) returns (r: Result<FlickerResult>, log: seq<Event>)
      requires Valid()
      modifies this`tags, this`tagsResults
      ensures Valid()
      ensures Check(f).Fail? ==>
        r == Failure(Check(f).error) && log == [] &&
        tags == old(tags) && tagsResults == old(tagsResults)
      ensures Check(f).Pass? ==>
        r.Success? && RunOutcome(log, r.value) == RunSpec(f, env, old(tags), old(tagsResults)) &&
        tags == {} && tagsResults == []
    {
      var checked := Check(f);
      if checked.Fail? {
        return Failure(checked.error), [];
      }
      var result;
      result, log := Run(f, env);
      r := Success(result);
    }

    /** run: testSetup, then every repetition as try { runSetup, start monitors,
        transitions } finally { stop monitors, runTeardown }, skipping the results
        of janky iterations, all inside try { ... } finally { testTeardown }, with
        any exception caught as the execution error; the tag results are appended
        and the registry is cleared. */
    method Run(f: Flicker, env: Env) returns (result: FlickerResult, log: seq<Event>)
      requires Valid()
      modifies this`tags, this`tagsResults
      ensures Valid()
      ensures RunOutcome(log, result) == RunSpec(f, env, old(tags), old(tagsResults))
      ensures tags == {} && tagsResults == []
    {
      var setup := ForEach(TestSetupSteps(f), env);
      var loopLog: seq<Event> := [];
      var thrown := setup.error;
      var runs: seq<RunResult> := [];
      if thrown.None? {
        loopLog, thrown, runs := RunIterations(f, env);
      }
      log := setup.log + loopLog;
      var testTeardown := ForEach(TestTeardownSteps(f), env);
      log := log + testTeardown.log;
      var executionError := if testTeardown.error.Some? then testTeardown.error else thrown;
      runs := runs + tagsResults;
      result := FlickerResult(runs, tags, executionError);
      CleanUp();
    }

    /** createTag: refuse a tag holding a space or already used, changing nothing;
        otherwise register it before capturing the device state, so it stays
        registered when the capture or a trace file write fails, and on success
        append exactly one state result naming the tag's two trace files. */
    method CreateTag(f: Flicker, tag: string, capture: Capture) returns (o: Outcome)
      requires Valid()
      modifies this`tags, this`tagsResults
      ensures Valid()
      ensures TagRejection(old(tags), tag).Some? ==>
        o == Fail(TagRejection(old(tags), tag).value) &&
        tags == old(tags) && tagsResults == old(tagsResults)
      ensures TagRejection(old(tags), tag).None? ==>
        tags == old(tags) + {tag} &&
        (capture == Captured ==>
          o == Pass &&
          tagsResults == old(tagsResults) +
            [StateResult(tag, iteration, TaggedFilePath(f, tag, "wm_trace"), TaggedFilePath(f, tag, "layers_trace"))]) &&
        (capture == StateDumpFails ==> o == Fail(DeviceStateUnavailable) && tagsResults == old(tagsResults)) &&
        (capture == WmTraceWriteFails ==>
          o == Fail(TraceFileNotWritten(TaggedFilePath(f, tag, "wm_trace"))) && tagsResults == old(tagsResults)) &&
        (capture == LayersTraceWriteFails ==>
          o == Fail(TraceFileNotWritten(TaggedFilePath(f, tag, "layers_trace"))) && tagsResults == old(tagsResults))
    {
      if ' ' in tag {
        return Fail(TagContainsSpace(tag));
      }
      if tag in tags {
        return Fail(TagAlreadyUsed(tag));
      }
      tags := tags + {tag};
      if capture == StateDumpFails {
        return Fail(DeviceStateUnavailable);
      }
      var wmTraceFile := TaggedFilePath(f, tag, "wm_trace");
      if capture == WmTraceWriteFails {
        return Fail(TraceFileNotWritten(wmTraceFile));
      }
      var layersTraceFile := TaggedFilePath(f, tag, "layers_trace");
      if capture == LayersTraceWriteFails {
        return Fail(TraceFileNotWritten(layersTraceFile));
      }
      tagsResults := tagsResults + [StateResult(tag, iteration, wmTraceFile, layersTraceFile)];
      o := Pass;
    }
  }

  /** Distinct tags name distinct trace files, so the registry's refusal of a
      used tag keeps one tag from overwriting another's traces. */
  lemma TaggedFilePathsDistinct(r: TransitionRunner, f: Flicker, tag1: string, tag2: string, file: string)
    requires r.TaggedFilePath(f, tag1, file) == r.TaggedFilePath(f, tag2, file)
    ensures tag1 == tag2
  {
    var prefix := f.testName + "_" + IntToDecimal(r.iteration) + "_";
    var suffix := "_" + file;
    var p1, p2 := r.TaggedFilePath(f, tag1, file), r.TaggedFilePath(f, tag2, file);
    assert p1 == prefix + tag1 + suffix;
    assert p2 == prefix + tag2 + suffix;
    assert |tag1| == |tag2|;
    assert tag1 == p1[|prefix|..|prefix| + |tag1|];
    assert tag2 == p2[|prefix|..|prefix| + |tag2|];
  }

  /** A tag that passed createTag's checks puts no space into the file name. */
  lemma TaggedFilePathHasNoSpace(r: TransitionRunner, f: Flicker, tag: string, file: string)
    requires ' ' !in f.testName && ' ' !in file
    requires TagRejection(r.tags, tag).None?
    ensures ' ' !in r.TaggedFilePath(f, tag, file)
  {
    var path := r.TaggedFilePath(f, tag, file);
    var dec := IntToDecimal(r.iteration);
    assert path == f.testName + "_" + dec + "_" + tag + "_" + file;
  }
}
