# Flicker window geometry and transition runner, in Dafny

This project models two pieces of the Android flicker test library:

- **WindowUtils** (`window_utils.dfy`, module `WindowUtils`): the rectangles of the
  display, a full-screen app, the status bar and the navigation bar for a
  requested rotation. Every platform read (the display's real size and current
  rotation, the bar dimension resources, `config_navBarInteractionMode`) is a
  field of a `Platform` value, and Android's `Rect` and `Region` are both the
  integer rectangle `Rect`.
- **TransitionRunner** (`runner_protocol.dfy`, module `RunnerProtocol`, and
  `transition_runner.dfy`, module `FlickerRunner`): `check`, `execute`, `run`
  with its nested try/finally blocks, the tag registry (`createTag`,
  `cleanUp`) and the tagged trace file name.
  The test's callbacks and monitor operations are abstract steps named by
  `Event` values. An environment `Env` says which attempted steps throw, in
  which iterations the frame-stats monitor reports janky frames, and what
  `FlickerRunResult.Builder.buildAll` returns for each iteration.
  `RunSpec` gives the log of attempted steps and the `FlickerResult` of a run.
  The class method `TransitionRunner.Run` runs testSetup, the loop and
  testTeardown. The loop is the method `RunIterations`, a `for` loop that
  leaves on an exception. Its body is the method `RunIteration`, which skips
  the saves on jank. Each method is proved against the protocol function it
  implements, so `Run` produces exactly `RunSpec`'s log and result.
  The lemmas about `RunSpec` cover step order, clean-up after a failure,
  monitor stopping, the captured error and the assembled results.

The field `iteration` of the runner is never assigned by any method: `run`'s
loop declares its own `iteration`. So every tagged file name embeds `0`.
`Valid()` keeps `iteration == 0` as an invariant, and no `modifies` clause
names the field.

## Model

| member | source | states |
|---|---|---|
| WindowUtils.CurrentDisplayBounds | libraries/flicker/src/com/android/server/wm/flicker/WindowUtils.java:33-42 | the display rectangle is at the origin with the real size as width and height |
| WindowUtils.DisplayBounds | libraries/flicker/src/com/android/server/wm/flicker/WindowUtils.java:52-72 | width and height are exchanged exactly when the current and the requested rotation differ in being 90/270; otherwise the bounds are the current ones |
| WindowUtils.AppPosition | libraries/flicker/src/com/android/server/wm/flicker/WindowUtils.java:74-94 | the app position equals the display bounds for every current and requested rotation |
| WindowUtils.DisplayBoundsIsNaturalPanelOriented | libraries/flicker/src/com/android/server/wm/flicker/WindowUtils.java:52-72 | the display bounds are the panel's size at rotation 0 turned to the requested rotation |
| WindowUtils.DisplayBoundsIndependentOfCurrentRotation | libraries/flicker/src/com/android/server/wm/flicker/WindowUtils.java:52-72 | two platform states showing the same panel give the same bounds for every requested rotation |
| WindowUtils.DisplayBoundsRoundTrip | libraries/flicker/src/com/android/server/wm/flicker/WindowUtils.java:65-71 | requesting the current rotation gives the current bounds; turning the display and requesting the old rotation gives the old bounds back; the area is the same in both branches |
| WindowUtils.StatusBarPosition | libraries/flicker/src/com/android/server/wm/flicker/WindowUtils.java:96-114 | the status bar is at the origin; its width is the shorter display side for rotations 0/180 and the longer one for any other value; its height is the portrait or the landscape dimension respectively |
| WindowUtils.StatusBarIndependentOfCurrentRotation | libraries/flicker/src/com/android/server/wm/flicker/WindowUtils.java:100-113 | the status bar depends only on the panel and the two heights, not on the current rotation |
| WindowUtils.StatusBarSpansDisplayTop | libraries/flicker/src/com/android/server/wm/flicker/WindowUtils.java:96-114 | on a panel that is portrait at rotation 0, the status bar spans the top edge of the display bounds for each of the four rotations and lies inside them when its height fits |
| WindowUtils.StatusBarNarrowerOnLandscapePanel | libraries/flicker/src/com/android/server/wm/flicker/WindowUtils.java:102-104 | on a panel that is landscape at rotation 0 the rotation-0 status bar is narrower than the display: a concrete example |
| WindowUtils.IsGesturalNavigationEnabled | libraries/flicker/src/com/android/server/wm/flicker/WindowUtils.java:153-158 | gestural navigation is on exactly when the interaction mode is 2 |
| WindowUtils.NavigationBarHeight | libraries/flicker/src/com/android/server/wm/flicker/WindowUtils.java:153-173 | the navigation bar height is the base height, plus the gesture height exactly when the interaction mode is 2 |
| WindowUtils.NavBarDisplaySize | libraries/flicker/src/com/android/server/wm/flicker/WindowUtils.java:118-129 | rotations 0/180 use the real width and height; every other value uses them exchanged |
| WindowUtils.Strip | libraries/flicker/src/com/android/server/wm/flicker/WindowUtils.java:134-145 | a strip along an edge shares that edge and both adjacent edges with the bounds and has the given thickness |
| WindowUtils.StripInside | libraries/flicker/src/com/android/server/wm/flicker/WindowUtils.java:134-145 | a strip no thicker than the side it is measured across lies inside its bounds |
| WindowUtils.NavigationBarPosition | libraries/flicker/src/com/android/server/wm/flicker/WindowUtils.java:116-148 | the navigation bar is the strip of the navigation bar height along the bottom (rotations 0/180 or gestural mode), otherwise the strip of the navigation bar width along the left (rotation 90) or the right edge |
| WindowUtils.NavigationBarPlacement | libraries/flicker/src/com/android/server/wm/flicker/WindowUtils.java:134-145 | the three placements as rectangles: bottom strip ending at the display height, full-height left strip, full-height right strip |
| WindowUtils.NavigationBarInsideDisplayWhenUpright | libraries/flicker/src/com/android/server/wm/flicker/WindowUtils.java:116-148 | while the display is at rotation 0/180, the size the navigation bar uses is the display bounds for the requested rotation, and a bar that fits lies inside them |
| WindowUtils.NavigationBarIgnoresCurrentRotation | libraries/flicker/src/com/android/server/wm/flicker/WindowUtils.java:118-129 | the navigation bar does not consult the current rotation: an example where it extends beyond the display bounds for the same requested rotation |
| RunnerProtocol.ForEach | libraries/flicker/src/com/android/server/wm/flicker/TransitionRunner.kt:88-98 | a callback or monitor list run with forEach: the steps in order up to and including the first that throws, whose exception leaves the block (proved in ForEachStopsAtFirstThrow) |
| RunnerProtocol.IsStop | libraries/flicker/src/com/android/server/wm/flicker/TransitionRunner.kt:131-139 | the steps run through tryStop, whose exceptions are swallowed |
| RunnerProtocol.StopSteps | libraries/flicker/src/com/android/server/wm/flicker/TransitionRunner.kt:96-97 | the finally block's monitor stops: every trace monitor, then the frame-stats monitor if there is one |
| RunnerProtocol.SaveSteps | libraries/flicker/src/com/android/server/wm/flicker/TransitionRunner.kt:122-129 | saveResult: every trace monitor saves its trace, in order |
| RunnerProtocol.Iteration | libraries/flicker/src/com/android/server/wm/flicker/TransitionRunner.kt:90-107 | one pass of the loop: try block, stops, runTeardown, with a runTeardown exception replacing the try block's; a janky pass saves nothing; otherwise the saves and the built results |
| RunnerProtocol.Iterations | libraries/flicker/src/com/android/server/wm/flicker/TransitionRunner.kt:89-108 | the first n passes of the loop, ending at the first exception |
| RunnerProtocol.RunSpec | libraries/flicker/src/com/android/server/wm/flicker/TransitionRunner.kt:83-120 | the whole run: testSetup, the loop unless testSetup threw, testTeardown always, a testTeardown exception replacing the one in flight, the runs followed by the tag results |
| RunnerProtocol.FullIteration | libraries/flicker/src/com/android/server/wm/flicker/TransitionRunner.kt:90-107 | the steps of one repetition when none throws: the documented order with trace and frame-stats monitors separated, plus saveResult's saves unless the repetition is janky |
| RunnerProtocol.FullLog | libraries/flicker/src/com/android/server/wm/flicker/TransitionRunner.kt:26-40 | the steps of a whole run when none throws: testSetup, every repetition, testTeardown |
| RunnerProtocol.ForEachStopsAtFirstThrow | libraries/flicker/src/com/android/server/wm/flicker/TransitionRunner.kt:88-98 | a block attempts its steps in order up to and including the first that throws, and passes that exception on; it attempts all of them exactly when none throws |
| RunnerProtocol.IterationsStable | libraries/flicker/src/com/android/server/wm/flicker/TransitionRunner.kt:89-108 | an exception ends the loop: later repetitions change neither the log nor the results |
| RunnerProtocol.BodyStepsOrdered | libraries/flicker/src/com/android/server/wm/flicker/TransitionRunner.kt:90-94 | the try block runs runSetup, trace starts, frame-stats start and transitions in that order, all in one iteration |
| RunnerProtocol.FinallyStepsOrdered | libraries/flicker/src/com/android/server/wm/flicker/TransitionRunner.kt:95-106 | the finally block stops the trace monitors, then the frame-stats monitor, then runs runTeardown; saves come last |
| RunnerProtocol.IterationOrdered | libraries/flicker/src/com/android/server/wm/flicker/TransitionRunner.kt:90-107 | every step of one iteration belongs to it and comes in the documented order |
| RunnerProtocol.IterationsOrdered | libraries/flicker/src/com/android/server/wm/flicker/TransitionRunner.kt:89-108 | the iterations come in turn, each in the documented order |
| RunnerProtocol.RunLogOrdered | libraries/flicker/src/com/android/server/wm/flicker/TransitionRunner.kt:86-111 | the whole run follows testSetup, iterations, testTeardown in order, and no step is attempted twice |
| RunnerProtocol.RunBracketsTestSetupAndTeardown | libraries/flicker/src/com/android/server/wm/flicker/TransitionRunner.kt:88-111 | testSetup is attempted first, testTeardown is always entered, after every other step |
| RunnerProtocol.ForEachErrorIsLastRaised | libraries/flicker/src/com/android/server/wm/flicker/TransitionRunner.kt:88-98 | a block's exception is the last one raised among its attempted steps |
| RunnerProtocol.NoStopsInBlocks | libraries/flicker/src/com/android/server/wm/flicker/TransitionRunner.kt:91-98 | only the monitor stops go through tryStop |
| RunnerProtocol.IterationErrorIsLastRaised | libraries/flicker/src/com/android/server/wm/flicker/TransitionRunner.kt:90-106 | an exception from runTeardown replaces the one from the try block; stop failures are swallowed |
| RunnerProtocol.IterationsErrorIsLastRaised | libraries/flicker/src/com/android/server/wm/flicker/TransitionRunner.kt:89-108 | the loop's exception is the last one raised by a step that is not a monitor stop |
| RunnerProtocol.RunErrorIsLastRaised | libraries/flicker/src/com/android/server/wm/flicker/TransitionRunner.kt:86-114 | the captured execution error is the last exception raised outside tryStop, and there is none exactly when no such step threw |
| RunnerProtocol.ForEachCleanup | libraries/flicker/src/com/android/server/wm/flicker/TransitionRunner.kt:88-98 | within a block nothing is attempted after a step that throws |
| RunnerProtocol.IterationCleanup | libraries/flicker/src/com/android/server/wm/flicker/TransitionRunner.kt:90-107 | after a failure in an iteration only its monitor stops and runTeardown follow |
| RunnerProtocol.IterationsCleanup | libraries/flicker/src/com/android/server/wm/flicker/TransitionRunner.kt:89-108 | after a failure in the loop no later iteration begins |
| RunnerProtocol.RunCleanupOnlyAfterFailure | libraries/flicker/src/com/android/server/wm/flicker/TransitionRunner.kt:86-114 | once a step has thrown, only the finally blocks it passes through are attempted: that iteration's stops and runTeardown, then testTeardown |
| RunnerProtocol.StopStepsStopAll | libraries/flicker/src/com/android/server/wm/flicker/TransitionRunner.kt:95-98 | the finally block stops every monitor and enters runTeardown |
| RunnerProtocol.IterationStops | libraries/flicker/src/com/android/server/wm/flicker/TransitionRunner.kt:90-99 | every iteration stops every monitor and enters runTeardown, whatever fails |
| RunnerProtocol.IterationSkipsSave | libraries/flicker/src/com/android/server/wm/flicker/TransitionRunner.kt:100-105 | a janky iteration saves no trace |
| RunnerProtocol.IterationsStop | libraries/flicker/src/com/android/server/wm/flicker/TransitionRunner.kt:89-108 | every begun iteration of the loop is stopped, and no janky one saves |
| RunnerProtocol.RunStopsEveryStartedIteration | libraries/flicker/src/com/android/server/wm/flicker/TransitionRunner.kt:95-105 | every iteration that begins has all monitors stopped and runTeardown entered, and no trace is saved for a janky iteration |
| RunnerProtocol.IterationsRuns | libraries/flicker/src/com/android/server/wm/flicker/TransitionRunner.kt:84-108 | the loop keeps the results of every non-janky iteration before the first failing one, in order, and drops nothing already collected; all iterations count when none fails |
| RunnerProtocol.RunResultsAreSavedIterations | libraries/flicker/src/com/android/server/wm/flicker/TransitionRunner.kt:84-117 | the result's runs are the saved results followed by the tag results: none saved when testSetup threw, every repetition's when the loop did not fail (even if testTeardown threw), those before the failing iteration otherwise; the tags are the registered tags |
| RunnerProtocol.IterationsComplete | libraries/flicker/src/com/android/server/wm/flicker/TransitionRunner.kt:89-108 | a loop that does not fail attempts every step of every iteration in the documented order, the saves of janky iterations excepted |
| RunnerProtocol.RunCompletesEveryRepetition | libraries/flicker/src/com/android/server/wm/flicker/TransitionRunner.kt:26-40 | a run that reports no error attempts exactly the full documented sequence of steps |
| RunnerProtocol.FullLogHoldsEveryStep | libraries/flicker/src/com/android/server/wm/flicker/TransitionRunner.kt:26-40 | the full sequence holds every testSetup, runSetup, monitor start, transition, monitor stop, runTeardown and testTeardown step of every repetition, and the saves of every non-janky one |
| FlickerRunner.Check | libraries/flicker/src/com/android/server/wm/flicker/TransitionRunner.kt:66-71 | a specification passes exactly when it has transitions and positive repetitions; missing transitions are reported first |
| FlickerRunner.TagRejection | libraries/flicker/src/com/android/server/wm/flicker/TransitionRunner.kt:156-161 | a tag is refused exactly when it holds a space (reported first) or is already used |
| FlickerRunner.TagRejectionAcceptsPathCharacters | libraries/flicker/src/com/android/server/wm/flicker/TransitionRunner.kt:150-158 | the documentation allows only letters and digits, but the code refuses only a space: tags holding `/` or `_` are accepted, a tag holding a space is refused |
| FlickerRunner.IntToDecimalRoundTrip | libraries/flicker/src/com/android/server/wm/flicker/TransitionRunner.kt:141-142 | the iteration written into a file name reads back as the same number, sign included |
| FlickerRunner.TransitionRunner.constructor | libraries/flicker/src/com/android/server/wm/flicker/TransitionRunner.kt:41-47 | a new runner has iteration 0, no tags and no tag results |
| FlickerRunner.TransitionRunner.Valid | libraries/flicker/src/com/android/server/wm/flicker/TransitionRunner.kt:45-47 | the registry invariant: iteration is 0, no tag holds a space, each tag result is the state result of a registered tag, one per tag |
| FlickerRunner.TransitionRunner.TaggedFilePath | libraries/flicker/src/com/android/server/wm/flicker/TransitionRunner.kt:141-142 | the file name is test name, iteration, tag and file joined by underscores, with iteration 0 |
| FlickerRunner.TransitionRunner.CleanUp | libraries/flicker/src/com/android/server/wm/flicker/TransitionRunner.kt:73-76 | tags and tag results are emptied; the registry invariant is kept |
| FlickerRunner.TransitionRunner.Execute | libraries/flicker/src/com/android/server/wm/flicker/TransitionRunner.kt:55-71 | a specification failing check is refused before any step and the failure is not captured as an execution error; otherwise the run's outcome |
| FlickerRunner.RunIteration | libraries/flicker/src/com/android/server/wm/flicker/TransitionRunner.kt:90-107 | one pass of the loop body yields exactly the steps, exception and saved results of `Iteration`, and saves nothing when an exception leaves it |
| FlickerRunner.RunIterations | libraries/flicker/src/com/android/server/wm/flicker/TransitionRunner.kt:89-108 | the loop over the repetitions yields exactly the log, exception and results of `Iterations` over all repetitions |
| FlickerRunner.TransitionRunner.Run | libraries/flicker/src/com/android/server/wm/flicker/TransitionRunner.kt:83-139 | the run's log and result are exactly the protocol's; the registry invariant holds and tags and tag results are empty afterwards |
| FlickerRunner.TransitionRunner.CreateTag | libraries/flicker/src/com/android/server/wm/flicker/TransitionRunner.kt:155-187 | a refused tag changes nothing; otherwise the tag is registered before any I/O and stays registered when capture or a write fails; on success exactly one state result naming the two tagged files is appended |
| FlickerRunner.TaggedFilePathsDistinct | libraries/flicker/src/com/android/server/wm/flicker/TransitionRunner.kt:141-142 | different tags give different file names, so refusing a used tag keeps one tag's traces from overwriting another's |
| FlickerRunner.TaggedFilePathHasNoSpace | libraries/flicker/src/com/android/server/wm/flicker/TransitionRunner.kt:150-158 | a tag that passes the checks puts no space into the file name |

## Left out

- Platform reads (`WindowManager` display size and rotation, `Resources.getIdentifier`, `getDimensionPixelSize`, `getInteger`) are fields of `Platform`; a missing resource identifier is not modelled.
- `getDimensionPixelSize(String)` and `getDockedStackDividerInset` only read a resource; they are fields of `Platform` or not used by the rules.
- `Region` is a rectangle; region emptiness and normalisation of rectangles with negative size are not modelled.
- `CameraHelperImpl.java` is not part of this model: it drives the UI, with no state or algorithm of its own.
- The callbacks, the trace and frame-stats monitors and `saveResult`'s monitor saves are abstract steps; only whether each throws matters. `FlickerRunResult.Builder.buildAll` is the function `Env.built`.
- `RunnerProtocol.IsStop`: `tryStop` catches `Exception` only; a `java.lang.Error` thrown by `stop()` would escape it. The model swallows every stop failure.
- An exception is the `Event` of the step that raised it; its message, cause and type are not modelled.
- `FlickerRunner.TransitionRunner.CreateTag`: `getCurrentState`, `DeviceStateDump.fromDump`, `Files.write` and `outputDir.resolve` are reduced to the `Capture` outcome and the bare file name. The state result's parsed traces are not modelled, and a write failure reports the file name instead of the `IOException`'s message.
- Logging (`Log.e` on jank and on stop failures) is left out.
- WindowUtils.NavigationBarPosition, WindowUtils.NavigationBarHeight: Java `int` arithmetic wraps at 32 bits (the subtractions of the bar sizes and the addition of the gesture height); the model uses unbounded integers, which agree with the source whenever the platform values are in the ranges a display has.
- RunnerProtocol.Skipped, RunnerProtocol.Iteration: `jankyFramesDetected()`, the `FlickerRunResult.Builder` constructor and `buildAll()` are taken never to throw (`Env.janky` and `Env.built` are total); in the source an exception from them would end the loop like any other.
- FlickerRunner.TransitionRunner.CreateTag: `buildStateResult` is taken never to throw; in the source an exception from it would leave the tag registered and no result appended.
- RunnerProtocol.RunSpec, FlickerRunner.TransitionRunner.Run: the callbacks are taken never to call `createTag` while `run` is in progress; the registry is fixed when `run` starts. In the source such a call would (a) put its tag and state result into the result even when a later step throws, since `run` appends `tagsResults` only at the end, and (b) throw "Tag … has already been used" in the second repetition, because the tags are cleared only after the loop, ending the loop with that exception as `executionError`.
- FlickerRunner.TagRejection: createTag's documentation says only letters and digits may be used and that invalid characters are refused, but the code refuses only a space; the model follows the code, so a tag with `/` (which `outputDir.resolve` would take as a subdirectory) or `_` is accepted.
- The test files exercise device-state dumps and trace monitors outside this model.
