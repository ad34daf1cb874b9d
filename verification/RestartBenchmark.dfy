/**
 The restart loop of one gateway sample, the summary of a case, and the verdict that
 decides the exit code of the benchmark.
 */
module RestartBenchmark {
  import opened Wrappers
  import opened RestartProbe

  /** A JavaScript number: `NonFinite` stands for NaN and the infinities. */
  datatype Num = Finite(value: real) | NonFinite

  datatype FailureCode =
    | InitialHealthzTimeout | InitialReadyLogTimeout | InitialReadyzTimeout
    | RestartSignalFailed | RestartChildExited
    | NextHealthzTimeout | NextReadyzTimeout | ReadyLogTimeout | TraceMissing
    | ChildNonzeroExit | CleanupFailed

  const RESTART_READY_TOTAL := "restart.ready.total"
  const READY_RSS := "restart.ready.rssMb"
  const READY_MEMORY_RSS := "restart.ready.memory.ready.rssMb"

  datatype Iteration = Iteration(
    index: nat,
    failureCode: Option<FailureCode>,
    healthz: ProbeResult,
    readyz: ProbeResult,
    gatewayReadyLogMs: Option<real>,
    restartTrace: map<string, Num>,
    snapshotRssMb: seq<Option<Num>>)

  datatype Sample = Sample(
    failureCode: Option<FailureCode>,
    iterations: seq<Iteration>,
    maxRssMb: Option<Num>,
    rssSlope: Option<Num>)

  // ----- One restart -----

  function ResolveIterationFailure(it: Iteration): Option<FailureCode> {
    if it.healthz.ms.None? then Some(NextHealthzTimeout)
    else if it.readyz.ms.None? then Some(NextReadyzTimeout)
    else if it.gatewayReadyLogMs.None? then Some(ReadyLogTimeout)
    else if RESTART_READY_TOTAL !in it.restartTrace then Some(TraceMissing)
    else None
  }

  /** Both probes recovered, the ready line was seen and the restart trace is complete. */
  predicate Evidenced(it: Iteration) {
    && it.healthz.ms.Some?
    && it.readyz.ms.Some?
    && it.gatewayReadyLogMs.Some?
    && RESTART_READY_TOTAL in it.restartTrace
  }

  /** Log lines that arrive while the iteration is current: more trace, maybe the ready line. */
  datatype LogLines = LogLines(readyLogMs: Option<real>, trace: map<string, Num>)

  function Absorb(it: Iteration, lines: LogLines): Iteration {
    it.(gatewayReadyLogMs := if it.gatewayReadyLogMs.Some? then it.gatewayReadyLogMs else lines.readyLogMs,
        restartTrace := it.restartTrace + lines.trace)
  }

  /** What a probe of one path would see, pass by pass of its polling loop. */
  datatype Pings = Pings(polls: seq<Poll>, attempts: seq<Attempt>)

  type Probing = p: Pings | |p.polls| == |p.attempts| witness Pings([], [])

  /** What happens during restart number `index`; `late` lines come after its verdict. */
  datatype Restart = Restart(
    childExitedBefore: bool,
    signalSent: bool,
    signalSentAt: real,
    healthz: Probing,
    readyz: Probing,
    lines: LogLines,
    snapshotRssMb: seq<Option<Num>>,
    childExitedAfter: bool,
    late: LogLines)

  const NO_PROBE := ProbeResult(None, None, None, None, None, [], None)

  function CreateRestartIteration(index: nat): Iteration {
    Iteration(index, None, NO_PROBE, NO_PROBE, None, map[], [])
  }

  /** The result reports on exactly the attempts the polling loop makes. */
  ghost predicate Probed(r: ProbeResult, p: Probing, since: real) {
    Reports(r, p.attempts, Made(p.polls, p.attempts, 0), since)
  }

  /** It does, and the last of these attempts got a 200. */
  ghost predicate EndedUp(r: ProbeResult, p: Probing, since: real) {
    var made := Made(p.polls, p.attempts, 0);
    Probed(r, p, since) && made > 0 && Up(p.attempts[made - 1])
  }

  /** A recovery time is only given after an attempt with a 200. */
  lemma RecoveryEndsUp(r: ProbeResult, p: Probing, since: real, made: nat)
    requires Stopped(p.polls, p.attempts, made, since, r)
    ensures Probed(r, p, since)
    ensures r.ms.Some? ==> EndedUp(r, p, since)
  {
    StopsWhenMade(p.polls, p.attempts, made, since, r, 0);
    SearchesAreRight(p.attempts, made);
    if r.ms.Some? {
      assert Up(p.attempts[made - 1]);
    }
  }

  /** Restart `i` ran in full, both probes ended with a 200, and no failure was found. */
  ghost predicate Passed(restart: Restart, it: Iteration, i: nat) {
    && it.index == i
    && it.failureCode.None?
    && Evidenced(it)
    && EndedUp(it.healthz, restart.healthz, restart.signalSentAt)
    && EndedUp(it.readyz, restart.readyz, restart.signalSentAt)
    && restart.signalSent && !restart.childExitedBefore && !restart.childExitedAfter
  }

  /** The signal was sent and the child lived through the restart. */
  predicate Completed(restart: Restart) {
    restart.signalSent && !restart.childExitedAfter
  }

  /** The reason a code stands for; each applies only where the earlier ones do not. */
  ghost predicate FailedBy(restart: Restart, it: Iteration, code: FailureCode) {
    match code
    case RestartSignalFailed => !restart.signalSent
    case RestartChildExited => restart.signalSent && restart.childExitedAfter
    case NextHealthzTimeout => Completed(restart) && it.healthz.ms.None?
    case NextReadyzTimeout => Completed(restart) && it.healthz.ms.Some? && it.readyz.ms.None?
    case ReadyLogTimeout => Completed(restart) && BothUp(it) && restart.lines.readyLogMs.None?
    case TraceMissing =>
      && Completed(restart) && BothUp(it) && restart.lines.readyLogMs.Some?
      && RESTART_READY_TOTAL !in restart.lines.trace
    case _ => false
  }

  predicate BothUp(it: Iteration) {
    it.healthz.ms.Some? && it.readyz.ms.Some?
  }

  /** Restart `i` was made: its probes report what they saw, and its code is the reason it failed. */
  ghost predicate Ran(restart: Restart, it: Iteration, i: nat) {
    && it.index == i && !restart.childExitedBefore
    && (restart.signalSent ==>
          && Probed(it.healthz, restart.healthz, restart.signalSentAt)
          && Probed(it.readyz, restart.readyz, restart.signalSentAt))
    && CodeIsReason(restart, it)
    && (if restart.signalSent then Logged(restart, it) else NothingLogged(it))
  }

  /** The readings and all log lines are on record; what comes after the verdict too. */
  ghost predicate Logged(restart: Restart, it: Iteration) {
    && it.snapshotRssMb == restart.snapshotRssMb
    && it.restartTrace.Keys == restart.lines.trace.Keys + restart.late.trace.Keys
    && (forall key :: key in restart.late.trace ==> it.restartTrace[key] == restart.late.trace[key])
    && (forall key :: key in restart.lines.trace && key !in restart.late.trace ==>
          it.restartTrace[key] == restart.lines.trace[key])
    && (restart.lines.readyLogMs.Some? ==> it.gatewayReadyLogMs == restart.lines.readyLogMs)
    && (restart.lines.readyLogMs.None? ==> it.gatewayReadyLogMs == restart.late.readyLogMs)
  }

  ghost predicate NothingLogged(it: Iteration) {
    && it.snapshotRssMb == [] && it.restartTrace == map[] && it.gatewayReadyLogMs.None?
    && it.healthz.ms.None? && it.readyz.ms.None?
  }

  /** A code is given for the reason it stands for, and none only if there is no reason. */
  ghost predicate CodeIsReason(restart: Restart, it: Iteration) {
    match it.failureCode
    case Some(code) => FailedBy(restart, it, code)
    case None =>
      && Completed(restart) && BothUp(it) && restart.lines.readyLogMs.Some?
      && RESTART_READY_TOTAL in restart.lines.trace
  }

  /** So exactly one code can be given, and it is given exactly when its reason applies. */
  lemma ReasonDecidesCode(restart: Restart, it: Iteration, code: FailureCode)
    requires CodeIsReason(restart, it)
    ensures it.failureCode == Some(code) <==> FailedBy(restart, it, code)
  {
    match code
    case _ =>
  }

  /** The two probes of one restart. */
  method RunProbes(restart: Restart) returns (healthz: ProbeResult, readyz: ProbeResult)
    ensures Probed(healthz, restart.healthz, restart.signalSentAt)
    ensures Probed(readyz, restart.readyz, restart.signalSentAt)
    ensures healthz.ms.Some? ==> EndedUp(healthz, restart.healthz, restart.signalSentAt)
    ensures readyz.ms.Some? ==> EndedUp(readyz, restart.readyz, restart.signalSentAt)
  {
    var made;
    healthz, made := WaitForRestartProbe(restart.healthz.polls, restart.healthz.attempts, restart.signalSentAt);
    RecoveryEndsUp(healthz, restart.healthz, restart.signalSentAt, made);
    readyz, made := WaitForRestartProbe(restart.readyz.polls, restart.readyz.attempts, restart.signalSentAt);
    RecoveryEndsUp(readyz, restart.readyz, restart.signalSentAt, made);
  }

  /** What is on record of a restart whose signal was sent, once its verdict is given. */
  function Finished(index: nat, restart: Restart, healthz: ProbeResult, readyz: ProbeResult): Iteration {
    var seen := Absorb(CreateRestartIteration(index).(healthz := healthz, readyz := readyz,
                                                      snapshotRssMb := restart.snapshotRssMb), restart.lines);
    var code := if restart.childExitedAfter then Some(RestartChildExited) else ResolveIterationFailure(seen);
    Absorb(seen.(failureCode := code), restart.late)
  }

  lemma VerdictIsRight(index: nat, restart: Restart, healthz: ProbeResult, readyz: ProbeResult)
    requires restart.signalSent
    ensures CodeIsReason(restart, Finished(index, restart, healthz, readyz))
    ensures Logged(restart, Finished(index, restart, healthz, readyz))
  {}

  lemma FinishedPasses(index: nat, restart: Restart, healthz: ProbeResult, readyz: ProbeResult)
    requires restart.signalSent && !restart.childExitedBefore
    requires healthz.ms.Some? ==> EndedUp(healthz, restart.healthz, restart.signalSentAt)
    requires readyz.ms.Some? ==> EndedUp(readyz, restart.readyz, restart.signalSentAt)
    ensures var it := Finished(index, restart, healthz, readyz);
            it.failureCode.None? ==> Passed(restart, it, index)
  {}

  /** One pass of the restart loop, once the child is known to live. */
  method RunOneRestart(index: nat, restart: Restart) returns (iteration: Iteration)
    requires !restart.childExitedBefore
    ensures Ran(restart, iteration, index)
    ensures iteration.failureCode.None? ==> Passed(restart, iteration, index)
  {
    iteration := CreateRestartIteration(index);
    if !restart.signalSent {
      iteration := iteration.(failureCode := Some(RestartSignalFailed));
      return;
    }
    var healthz, readyz := RunProbes(restart);
    iteration := Absorb(iteration.(healthz := healthz, readyz := readyz, snapshotRssMb := restart.snapshotRssMb),
                        restart.lines);
    iteration := iteration.(failureCode :=
      if restart.childExitedAfter then Some(RestartChildExited) else ResolveIterationFailure(iteration));
    iteration := Absorb(iteration, restart.late);
    assert iteration == Finished(index, restart, healthz, readyz);
    VerdictIsRight(index, restart, healthz, readyz);
    FinishedPasses(index, restart, healthz, readyz);
  }

  /** The restart after `i` others ran, and passed if it has no code. */
  ghost predicate RanAfter(env: nat -> Restart, it: Iteration, i: nat) {
    Ran(env(i + 1), it, i + 1) && (it.failureCode.None? ==> PassedAfter(env, it, i))
  }

  ghost predicate PassedAfter(env: nat -> Restart, it: Iteration, i: nat) {
    Passed(env(i + 1), it, i + 1)
  }

  ghost predicate AllRan(env: nat -> Restart, iterations: seq<Iteration>) {
    forall i :: 0 <= i < |iterations| ==> RanAfter(env, iterations[i], i)
  }

  predicate NoneFailed(iterations: seq<Iteration>, n: nat)
    requires n <= |iterations|
  {
    forall i :: 0 <= i < n ==> iterations[i].failureCode.None?
  }

  lemma AllRanOneMore(env: nat -> Restart, iterations: seq<Iteration>, it: Iteration)
    requires AllRan(env, iterations) && RanAfter(env, it, |iterations|)
    ensures AllRan(env, iterations + [it])
  {}

  predicate OnlyLastFailed(iterations: seq<Iteration>) {
    NoneFailed(iterations, if iterations == [] then 0 else |iterations| - 1)
  }

  function LastFailure(iterations: seq<Iteration>): Option<FailureCode> {
    if iterations == [] then None else iterations[|iterations| - 1].failureCode
  }

  /** The restarts that were made: all ran, all but the last passed, and the loop ended only for a reason. */
  ghost predicate LoopRan(env: nat -> Restart, restarts: nat, iterations: seq<Iteration>) {
    && |iterations| <= restarts
    && AllRan(env, iterations)
    && OnlyLastFailed(iterations)
    && (LastFailure(iterations).None? && |iterations| < restarts ==> env(|iterations| + 1).childExitedBefore)
  }

  /** The loop's code: that of the last restart, or that the child was dead before the next one. */
  function LoopCode(restarts: nat, iterations: seq<Iteration>): Option<FailureCode> {
    if LastFailure(iterations).Some? then LastFailure(iterations)
    else if |iterations| < restarts then Some(RestartChildExited)
    else None
  }

  /** The first `n` restarts passed. */
  ghost predicate AllPassed(env: nat -> Restart, iterations: seq<Iteration>, n: nat)
    requires n <= |iterations|
  {
    forall i :: 0 <= i < n ==> PassedAfter(env, iterations[i], i)
  }

  lemma AllPassedIffNoneFailed(env: nat -> Restart, iterations: seq<Iteration>, n: nat)
    requires AllRan(env, iterations) && n <= |iterations|
    ensures AllPassed(env, iterations, n) <==> NoneFailed(iterations, n)
  {
    forall i | 0 <= i < n
      ensures PassedAfter(env, iterations[i], i) <==> iterations[i].failureCode.None?
    {
      assert RanAfter(env, iterations[i], i);
    }
  }

  /**
   The restart loop. Without a failure code every requested restart ran and passed; with
   one, all restarts but possibly the last passed, and the code is the last one's or says
   that the child was found dead before the next signal.
   */
  method RunRestarts(restarts: nat, env: nat -> Restart)
    returns (iterations: seq<Iteration>, failureCode: Option<FailureCode>)
    ensures LoopRan(env, restarts, iterations) && failureCode == LoopCode(restarts, iterations)
    ensures failureCode.None? ==> |iterations| == restarts && AllPassed(env, iterations, |iterations|)
    ensures failureCode.Some? ==>
              || (|iterations| < restarts && env(|iterations| + 1).childExitedBefore
                  && failureCode == Some(RestartChildExited)
                  && AllPassed(env, iterations, |iterations|))
              || (iterations != [] && iterations[|iterations| - 1].failureCode == failureCode
                  && AllPassed(env, iterations, |iterations| - 1))
  {
    iterations, failureCode := [], None;
    for index := 1 to restarts + 1
      invariant |iterations| == index - 1
      invariant AllRan(env, iterations) && NoneFailed(iterations, |iterations|)
    {
      var restart := env(index);
      if restart.childExitedBefore {
        failureCode := Some(RestartChildExited);
        AllPassedIffNoneFailed(env, iterations, |iterations|);
        return;
      }
      var iteration := RunOneRestart(index, restart);
      AllRanOneMore(env, iterations, iteration);
      iterations := iterations + [iteration];
      if iteration.failureCode.Some? {
        failureCode := iteration.failureCode;
        AllPassedIffNoneFailed(env, iterations, |iterations| - 1);
        return;
      }
    }
    AllPassedIffNoneFailed(env, iterations, |iterations|);
  }

  // ----- One sample -----

  function TraceValue(it: Iteration, key: string, fallback: string): Option<Num> {
    if key in it.restartTrace then Some(it.restartTrace[key])
    else if fallback in it.restartTrace then Some(it.restartTrace[fallback])
    else None
  }

  function LastSnapshot(values: seq<Option<Num>>): Option<Num> {
    if values == [] then None
    else if values[|values| - 1].Some? then values[|values| - 1]
    else LastSnapshot(values[..|values| - 1])
  }

  /** The RSS reading of one restart: the trace first, then the latest snapshot. */
  function RssMb(it: Iteration): Option<Num> {
    var traced := TraceValue(it, READY_RSS, READY_MEMORY_RSS);
    if traced.Some? then traced else LastSnapshot(it.snapshotRssMb)
  }

  function FirstPoint(values: seq<Option<Num>>, from: nat): Option<nat>
    decreases |values| - from
  {
    if from >= |values| then None else if values[from].Some? then Some(from) else FirstPoint(values, from + 1)
  }

  function LastPoint(values: seq<Option<Num>>, to: nat): Option<nat>
    requires to <= |values|
  {
    if to == 0 then None else if values[to - 1].Some? then Some(to - 1) else LastPoint(values, to - 1)
  }

  function Sub(a: Num, b: Num): Num {
    if a.Finite? && b.Finite? then Finite(a.value - b.value) else NonFinite
  }

  /** `(last - first) / distance` over the readings that exist; none with fewer than two. */
  function Slope(values: seq<Option<Num>>): Option<Num> {
    var first, last := FirstPoint(values, 0), LastPoint(values, |values|);
    if first.None? || last.None? || first.value >= last.value || last.value >= |values| then None
    else if values[first.value].None? || values[last.value].None? then None
    else
      var rise := Sub(values[last.value].value, values[first.value].value);
      if rise.Finite? then Some(Finite(rise.value / (last.value - first.value) as real)) else Some(NonFinite)
  }

  function Readings(iterations: seq<Iteration>): (r: seq<Option<Num>>)
    ensures |r| == |iterations| && forall i :: 0 <= i < |iterations| ==> r[i] == RssMb(iterations[i])
  {
    if iterations == [] then []
    else Readings(iterations[..|iterations| - 1]) + [RssMb(iterations[|iterations| - 1])]
  }

  lemma {:induction false} PointsExist(values: seq<Option<Num>>, i: nat)
    requires i < |values| && values[i].Some?
    ensures FirstPoint(values, 0).Some? && FirstPoint(values, 0).value <= i && values[FirstPoint(values, 0).value].Some?
    ensures LastPoint(values, |values|).Some? && i <= LastPoint(values, |values|).value < |values|
    ensures values[LastPoint(values, |values|).value].Some?
  {
    FirstPointFrom(values, 0, i);
    LastPointFrom(values, |values|, i);
  }

  lemma {:induction false} FirstPointFrom(values: seq<Option<Num>>, from: nat, i: nat)
    requires from <= i < |values| && values[i].Some?
    ensures FirstPoint(values, from).Some? && from <= FirstPoint(values, from).value <= i
    ensures values[FirstPoint(values, from).value].Some?
    decreases i - from
  {
    if values[from].None? {
      FirstPointFrom(values, from + 1, i);
    }
  }

  lemma {:induction false} LastPointFrom(values: seq<Option<Num>>, to: nat, i: nat)
    requires i < to <= |values| && values[i].Some?
    ensures LastPoint(values, to).Some? && i <= LastPoint(values, to).value < to
    ensures values[LastPoint(values, to).value].Some?
  {
    if values[to - 1].None? {
      LastPointFrom(values, to - 1, i);
    }
  }

  /** With readings at the first and the last restart, the slope is the mean change per restart. */
  lemma SlopeSpansAllRestarts(values: seq<Option<Num>>)
    requires |values| >= 2 && values[0].Some? && values[|values| - 1].Some?
    ensures Slope(values).Some?
    ensures values[0].value.Finite? && values[|values| - 1].value.Finite? ==>
              Slope(values) == Some(Finite(
                (values[|values| - 1].value.value - values[0].value.value) / (|values| - 1) as real))
  {
    PointsExist(values, 0);
    PointsExist(values, |values| - 1);
  }

  datatype Exit = Exit(exitedBeforeTeardown: bool, exitCode: Option<int>)

  function ResolveSampleExitFailure(exit: Exit): Option<FailureCode> {
    if !exit.exitedBeforeTeardown then None
    else if exit.exitCode.Some? && exit.exitCode.value != 0 then Some(ChildNonzeroExit)
    else Some(RestartChildExited)
  }

  /** What happens during one sample. */
  datatype SampleRun = SampleRun(
    initialFailure: Option<FailureCode>,
    restart: nat -> Restart,
    exit: Exit,
    cleanedUp: bool,
    maxRssMb: Option<Num>)

  /** The first thing that failed: the start, the restart loop, the child's exit, the clean-up. */
  function SampleCode(run: SampleRun, restarts: nat, iterations: seq<Iteration>): Option<FailureCode> {
    if run.initialFailure.Some? then run.initialFailure
    else if LoopCode(restarts, iterations).Some? then LoopCode(restarts, iterations)
    else if run.exit.exitedBeforeTeardown then ResolveSampleExitFailure(run.exit)
    else if !run.cleanedUp then Some(CleanupFailed)
    else None
  }

  /** The sample records the restarts that were made and the first thing that failed. */
  ghost predicate MeasuredBy(s: Sample, run: SampleRun, restarts: nat) {
    && (if run.initialFailure.Some? then s.iterations == [] else LoopRan(run.restart, restarts, s.iterations))
    && s.failureCode == SampleCode(run, restarts, s.iterations)
    && s.maxRssMb == run.maxRssMb
  }

  /** The slope is that of the RSS readings after each restart. */
  predicate Sloped(s: Sample) {
    s.rssSlope == Slope(Readings(s.iterations))
  }

  /** Every restart ran and passed, and nothing failed before or after them. */
  ghost predicate NothingFailed(s: Sample, run: SampleRun, restarts: nat) {
    && |s.iterations| == restarts
    && AllPassed(run.restart, s.iterations, |s.iterations|)
    && run.initialFailure.None? && run.cleanedUp && !run.exit.exitedBeforeTeardown
  }

  lemma NoLoopCodeIffNoneFailed(restarts: nat, iterations: seq<Iteration>)
    requires |iterations| <= restarts && OnlyLastFailed(iterations)
    ensures LoopCode(restarts, iterations).None?
       <==> |iterations| == restarts && NoneFailed(iterations, |iterations|)
  {}

  lemma FailureFreeIffNoCode(s: Sample, run: SampleRun, restarts: nat)
    requires MeasuredBy(s, run, restarts)
    ensures FailureFree(s) <==> s.failureCode.None?
  {
    if run.initialFailure.None? {
      NoLoopCodeIffNoneFailed(restarts, s.iterations);
    }
  }

  /** A sample is without a failure code if and only if nothing failed, in its restarts or around them. */
  lemma NoCodeIffNothingFailed(s: Sample, run: SampleRun, restarts: nat)
    requires MeasuredBy(s, run, restarts)
    ensures s.failureCode.None? <==> NothingFailed(s, run, restarts)
  {
    if run.initialFailure.None? {
      NoLoopCodeIffNoneFailed(restarts, s.iterations);
      AllPassedIffNoneFailed(run.restart, s.iterations, |s.iterations|);
    }
  }

  method RunGatewaySample(restarts: nat, run: SampleRun) returns (s: Sample)
    ensures MeasuredBy(s, run, restarts) && Sloped(s)
    ensures run.initialFailure.Some? ==> s.failureCode == run.initialFailure && s.iterations == []
  {
    var failureCode := run.initialFailure;
    var iterations: seq<Iteration> := [];
    if failureCode.None? {
      iterations, failureCode := RunRestarts(restarts, run.restart);
    }
    if failureCode.None? {
      failureCode := ResolveSampleExitFailure(run.exit);
    }
    if failureCode.None? && !run.cleanedUp {
      failureCode := Some(CleanupFailed);
    }
    s := Sample(failureCode, iterations, run.maxRssMb, Slope(Readings(iterations)));
    SampleIsMeasured(s, run, restarts);
  }

  lemma SampleIsMeasured(s: Sample, run: SampleRun, restarts: nat)
    requires if run.initialFailure.Some? then s.iterations == [] else LoopRan(run.restart, restarts, s.iterations)
    requires s.failureCode == SampleCode(run, restarts, s.iterations) && s.maxRssMb == run.maxRssMb
    ensures MeasuredBy(s, run, restarts)
  {}

  // ----- The summary of one case -----

  function AllIterations(samples: seq<Sample>): seq<Iteration> {
    if samples == [] then [] else samples[0].iterations + AllIterations(samples[1..])
  }

  function CountFailed(iterations: seq<Iteration>): (n: nat)
    ensures n <= |iterations|
  {
    if iterations == [] then 0 else (if iterations[0].failureCode.Some? then 1 else 0) + CountFailed(iterations[1..])
  }

  /** Failed outside its iterations: a failure code although no iteration has one. */
  predicate SampleOnlyFailure(s: Sample) {
    s.failureCode.Some? && forall i :: 0 <= i < |s.iterations| ==> s.iterations[i].failureCode.None?
  }

  function CountSampleOnly(samples: seq<Sample>): nat {
    if samples == [] then 0 else (if SampleOnlyFailure(samples[0]) then 1 else 0) + CountSampleOnly(samples[1..])
  }

  function FirstSampleFailure(samples: seq<Sample>): Option<FailureCode> {
    if samples == [] then None
    else if samples[0].failureCode.Some? then samples[0].failureCode
    else FirstSampleFailure(samples[1..])
  }

  function FirstIterationFailure(iterations: seq<Iteration>): Option<FailureCode> {
    if iterations == [] then None
    else if iterations[0].failureCode.Some? then iterations[0].failureCode
    else FirstIterationFailure(iterations[1..])
  }

  function FirstFailureCode(samples: seq<Sample>): Option<FailureCode> {
    var first := FirstSampleFailure(samples);
    if first.Some? then first else FirstIterationFailure(AllIterations(samples))
  }

  function FailureRate(samples: seq<Sample>): real {
    var iterations := AllIterations(samples);
    var units := |iterations| + CountSampleOnly(samples);
    if units == 0 then 0.0
    else (CountFailed(iterations) + CountSampleOnly(samples)) as real / units as real
  }

  datatype CaseResult = CaseResult(id: string, samples: seq<Sample>, failureRate: real,
                                   firstFailureCode: Option<FailureCode>)

  function SummarizeCase(id: string, samples: seq<Sample>): CaseResult {
    CaseResult(id, samples, FailureRate(samples), FirstFailureCode(samples))
  }

  predicate FailureFree(s: Sample) {
    s.failureCode.None? && forall i :: 0 <= i < |s.iterations| ==> s.iterations[i].failureCode.None?
  }

  lemma {:induction false} CountIsZeroIffClean(iterations: seq<Iteration>)
    ensures CountFailed(iterations) == 0 <==> forall i :: 0 <= i < |iterations| ==> iterations[i].failureCode.None?
    ensures CountFailed(iterations) == 0 <==> FirstIterationFailure(iterations).None?
  {
    if iterations != [] {
      CountIsZeroIffClean(iterations[1..]);
      assert forall i :: 0 < i < |iterations| ==> iterations[i] == iterations[1..][i - 1];
    }
  }

  lemma {:induction false} CountFailedConcat(a: seq<Iteration>, b: seq<Iteration>)
    ensures CountFailed(a + b) == CountFailed(a) + CountFailed(b)
  {
    if a == [] {
      assert a + b == b;
    } else {
      assert (a + b)[1..] == a[1..] + b;
      CountFailedConcat(a[1..], b);
    }
  }

  /** No failure is counted exactly when every sample is failure-free. */
  lemma {:induction false} NothingCountedIffFailureFree(samples: seq<Sample>)
    ensures CountFailed(AllIterations(samples)) + CountSampleOnly(samples) == 0
       <==> forall i :: 0 <= i < |samples| ==> FailureFree(samples[i])
    ensures FirstFailureCode(samples).None? <==> forall i :: 0 <= i < |samples| ==> FailureFree(samples[i])
  {
    CountIsZeroIffClean(AllIterations(samples));
    if samples != [] {
      var rest := samples[1..];
      NothingCountedIffFailureFree(rest);
      CountIsZeroIffClean(AllIterations(rest));
      CountIsZeroIffClean(samples[0].iterations);
      CountFailedConcat(samples[0].iterations, AllIterations(rest));
      assert forall i :: 0 < i < |samples| ==> samples[i] == rest[i - 1];
    }
  }

  lemma RatioBounds(a: nat, b: nat)
    requires a <= b && b > 0
    ensures 0.0 <= a as real / b as real <= 1.0
    ensures a as real / b as real > 0.0 <==> a > 0
  {}

  /** The rate lies in [0, 1], and it is positive exactly when a first failure code is named. */
  lemma FailureRateIsARate(samples: seq<Sample>)
    ensures 0.0 <= FailureRate(samples) <= 1.0
    ensures FailureRate(samples) > 0.0 <==> FirstFailureCode(samples).Some?
  {
    NothingCountedIffFailureFree(samples);
    var iterations := AllIterations(samples);
    var units := |iterations| + CountSampleOnly(samples);
    if units > 0 {
      RatioBounds(CountFailed(iterations) + CountSampleOnly(samples), units);
    }
  }

  // ----- The verdict -----

  datatype Reason = MissingSamples | MissingIterations | MissingRss | MissingIterationRss | MissingSlope

  datatype EvidenceFailure = EvidenceFailure(id: string, reason: Reason, sampleIndex: Option<nat>)

  predicate PositiveNumber(value: Option<Num>) {
    value.Some? && value.value.Finite? && value.value.value > 0.0
  }

  predicate FiniteNumber(value: Option<Num>) {
    value.Some? && value.value.Finite?
  }

  /** Everything the verdict wants to see of a failure-free sample. */
  predicate SampleEvidence(s: Sample) {
    && s.iterations != []
    && PositiveNumber(s.maxRssMb)
    && (forall i :: 0 <= i < |s.iterations| ==> PositiveNumber(RssMb(s.iterations[i])))
    && (|s.iterations| >= 2 ==> FiniteNumber(s.rssSlope))
  }

  predicate CaseEvidence(c: CaseResult) {
    c.samples != [] && forall i :: 0 <= i < |c.samples| && FailureFree(c.samples[i]) ==> SampleEvidence(c.samples[i])
  }

  /** What a failure-free sample lacks; without iterations nothing else is looked at. */
  predicate Lacks(s: Sample, reason: Reason) {
    match reason
    case MissingSamples => false
    case MissingIterations => s.iterations == []
    case MissingRss => s.iterations != [] && !PositiveNumber(s.maxRssMb)
    case MissingIterationRss => exists i :: 0 <= i < |s.iterations| && !PositiveNumber(RssMb(s.iterations[i]))
    case MissingSlope => |s.iterations| >= 2 && !FiniteNumber(s.rssSlope)
  }

  /** The findings about one sample, numbered from 1, say exactly what it lacks. */
  ghost predicate SampleFinding(f: EvidenceFailure, id: string, sample: Sample, sampleIndex: nat) {
    f.id == id && f.sampleIndex == Some(sampleIndex) && FailureFree(sample) && Lacks(sample, f.reason)
  }

  ghost predicate CaseFinding(f: EvidenceFailure, c: CaseResult, samples: nat) {
    || (c.samples == [] && f == EvidenceFailure(c.id, MissingSamples, None))
    || exists j :: 0 <= j < samples && j < |c.samples| && SampleFinding(f, c.id, c.samples[j], j + 1)
  }

  method CollectSampleFailures(id: string, sample: Sample, sampleIndex: nat) returns (failures: seq<EvidenceFailure>)
    ensures forall f :: f in failures <==> SampleFinding(f, id, sample, sampleIndex)
  {
    failures := [];
    if !FailureFree(sample) {
      return;
    }
    if |sample.iterations| == 0 {
      return [EvidenceFailure(id, MissingIterations, Some(sampleIndex))];
    }
    if !PositiveNumber(sample.maxRssMb) {
      failures := failures + [EvidenceFailure(id, MissingRss, Some(sampleIndex))];
    }
    if exists i :: 0 <= i < |sample.iterations| && !PositiveNumber(RssMb(sample.iterations[i])) {
      failures := failures + [EvidenceFailure(id, MissingIterationRss, Some(sampleIndex))];
    }
    if |sample.iterations| >= 2 && !FiniteNumber(sample.rssSlope) {
      failures := failures + [EvidenceFailure(id, MissingSlope, Some(sampleIndex))];
    }
  }

  method CollectCaseFailures(c: CaseResult) returns (failures: seq<EvidenceFailure>)
    ensures forall f :: f in failures <==> CaseFinding(f, c, |c.samples|)
  {
    if |c.samples| == 0 {
      return [EvidenceFailure(c.id, MissingSamples, None)];
    }
    failures := [];
    for j := 0 to |c.samples|
      invariant forall f :: f in failures <==> CaseFinding(f, c, j)
    {
      var found := CollectSampleFailures(c.id, c.samples[j], j + 1);
      failures := failures + found;
    }
  }

  /** The list holds exactly the findings of all cases. */
  method CollectBenchmarkEvidenceFailures(results: seq<CaseResult>) returns (failures: seq<EvidenceFailure>)
    ensures forall f :: f in failures <==>
              exists i :: 0 <= i < |results| && CaseFinding(f, results[i], |results[i].samples|)
  {
    failures := [];
    for i := 0 to |results|
      invariant forall f :: f in failures <==>
                  exists k :: 0 <= k < i && CaseFinding(f, results[k], |results[k].samples|)
    {
      var found := CollectCaseFailures(results[i]);
      failures := failures + found;
    }
  }

  lemma LacksNothingIffEvidence(s: Sample)
    ensures SampleEvidence(s) <==> forall reason :: !Lacks(s, reason)
  {
    if SampleEvidence(s) {
      forall reason ensures !Lacks(s, reason) {
        assert !Lacks(s, MissingIterations) && !Lacks(s, MissingRss);
      }
    } else {
      assert Lacks(s, MissingIterations) || Lacks(s, MissingRss) || Lacks(s, MissingIterationRss)
        || Lacks(s, MissingSlope);
    }
  }

  /** There is no finding about a case exactly when it is backed by evidence. */
  lemma NoFindingIffEvidence(c: CaseResult)
    ensures CaseEvidence(c) <==> forall f :: !CaseFinding(f, c, |c.samples|)
  {
    if !CaseEvidence(c) {
      if c.samples == [] {
        assert CaseFinding(EvidenceFailure(c.id, MissingSamples, None), c, |c.samples|);
      } else {
        var j :| 0 <= j < |c.samples| && FailureFree(c.samples[j]) && !SampleEvidence(c.samples[j]);
        LacksNothingIffEvidence(c.samples[j]);
        var reason :| Lacks(c.samples[j], reason);
        var f := EvidenceFailure(c.id, reason, Some(j + 1));
        assert SampleFinding(f, c.id, c.samples[j], j + 1);
        assert CaseFinding(f, c, |c.samples|);
      }
    } else {
      forall f ensures !CaseFinding(f, c, |c.samples|) {
        if j :| 0 <= j < |c.samples| && SampleFinding(f, c.id, c.samples[j], j + 1) {
          LacksNothingIffEvidence(c.samples[j]);
        }
      }
    }
  }

  /** A case whose summary names a failure. */
  predicate NamesFailure(c: CaseResult) {
    c.failureRate > 0.0 || c.firstFailureCode.Some?
  }

  method HasBenchmarkFailures(results: seq<CaseResult>) returns (r: bool)
    ensures r <==> exists i :: 0 <= i < |results| && NamesFailure(results[i])
  {
    for i := 0 to |results|
      invariant forall k :: 0 <= k < i ==> !NamesFailure(results[k])
    {
      if results[i].failureRate > 0.0 || results[i].firstFailureCode != None {
        return true;
      }
    }
    return false;
  }

  ghost predicate Summarized(results: seq<CaseResult>) {
    forall i :: 0 <= i < |results| ==> results[i] == SummarizeCase(results[i].id, results[i].samples)
  }

  /** The benchmark passes: every case is backed by evidence and no sample failed. */
  ghost predicate Passes(results: seq<CaseResult>, allowFailures: bool) {
    forall i :: 0 <= i < |results| ==>
      && CaseEvidence(results[i])
      && (!allowFailures ==> forall j :: 0 <= j < |results[i].samples| ==> FailureFree(results[i].samples[j]))
  }

  lemma EvidenceIsComplete(results: seq<CaseResult>, failures: seq<EvidenceFailure>)
    requires forall f :: f in failures <==>
              exists i :: 0 <= i < |results| && CaseFinding(f, results[i], |results[i].samples|)
    ensures failures == [] <==> forall i :: 0 <= i < |results| ==> CaseEvidence(results[i])
  {
    forall i | 0 <= i < |results|
      ensures CaseEvidence(results[i]) <==> forall f :: !CaseFinding(f, results[i], |results[i].samples|)
    {
      NoFindingIffEvidence(results[i]);
    }
    if failures != [] {
      var first := failures[0];
      assert first in failures;
      var i :| 0 <= i < |results| && CaseFinding(first, results[i], |results[i].samples|);
      assert !CaseEvidence(results[i]);
    }
    if i :| 0 <= i < |results| && !CaseEvidence(results[i]) {
      var f :| CaseFinding(f, results[i], |results[i].samples|);
      assert f in failures;
    }
  }

  /** No case lacks evidence, and no summary names a failure unless failures are allowed. */
  ghost predicate Acceptable(results: seq<CaseResult>, allowFailures: bool) {
    forall i :: 0 <= i < |results| ==> CaseEvidence(results[i]) && (allowFailures || !NamesFailure(results[i]))
  }

  method ShouldFailBenchmark(results: seq<CaseResult>, allowFailures: bool) returns (fail: bool)
    ensures fail <==> !Acceptable(results, allowFailures)
  {
    var evidence := CollectBenchmarkEvidenceFailures(results);
    EvidenceIsComplete(results, evidence);
    if |evidence| > 0 {
      return true;
    }
    var failed := HasBenchmarkFailures(results);
    return !allowFailures && failed;
  }

  /** On summaries computed from their samples the verdict speaks of the samples. */
  lemma SummariesSpeakOfSamples(results: seq<CaseResult>, allowFailures: bool)
    requires Summarized(results)
    ensures Acceptable(results, allowFailures) <==> Passes(results, allowFailures)
  {
    forall i | 0 <= i < |results|
      ensures NamesFailure(results[i]) <==>
              exists j :: 0 <= j < |results[i].samples| && !FailureFree(results[i].samples[j])
    {
      FailureRateIsARate(results[i].samples);
      NothingCountedIffFailureFree(results[i].samples);
    }
  }

  /** A sample that shows a complete, evidenced run of `restarts` restarts. */
  ghost predicate ProvesRestarts(s: Sample, run: SampleRun, restarts: nat) {
    && |s.iterations| == restarts >= 1
    && PositiveNumber(s.maxRssMb)
    && (forall i :: 0 <= i < restarts ==>
          && Passed(run.restart(i + 1), s.iterations[i], i + 1)
          && PositiveNumber(RssMb(s.iterations[i])))
    && (restarts >= 2 ==> FiniteNumber(s.rssSlope))
    && run.initialFailure.None? && run.cleanedUp && !run.exit.exitedBeforeTeardown
  }

  // ----- The whole benchmark -----

  datatype BenchCase = BenchCase(id: string, run: nat -> SampleRun)

  datatype Options = Options(restarts: nat, runs: nat, warmup: nat, allowFailures: bool)

  /** Is this the sample of run `j` after the warm-up? */
  ghost function Measures(benchCase: BenchCase, options: Options): (Sample, nat) -> bool {
    (s: Sample, j: nat) => MeasuredBy(s, benchCase.run(options.warmup + j), options.restarts)
  }

  lemma MeasuredInPlace(s: Sample, benchCase: BenchCase, options: Options, j: nat)
    requires MeasuredBy(s, benchCase.run(options.warmup + j), options.restarts)
    ensures Measures(benchCase, options)(s, j)
  {}

  /** Each sample so far is right for its place. */
  ghost predicate AllRight(samples: seq<Sample>, right: (Sample, nat) -> bool) {
    forall j :: 0 <= j < |samples| ==> right(samples[j], j)
  }

  predicate AllSloped(samples: seq<Sample>) {
    forall j :: 0 <= j < |samples| ==> Sloped(samples[j])
  }

  lemma OneMoreSloped(samples: seq<Sample>, s: Sample)
    requires AllSloped(samples) && Sloped(s)
    ensures AllSloped(samples + [s])
  {}

  lemma OneMoreRight(samples: seq<Sample>, s: Sample, right: (Sample, nat) -> bool)
    requires AllRight(samples, right) && right(s, |samples|)
    ensures AllRight(samples + [s], right)
  {}

  /** There is one sample for each run after the warm-up. */
  ghost predicate SamplesMeasured(samples: seq<Sample>, benchCase: BenchCase, options: Options) {
    |samples| == options.runs && AllRight(samples, Measures(benchCase, options)) && AllSloped(samples)
  }

  /** The case result summarizes those samples. */
  ghost predicate CaseMeasured(c: CaseResult, benchCase: BenchCase, options: Options) {
    SamplesMeasured(c.samples, benchCase, options) && c == SummarizeCase(benchCase.id, c.samples)
  }

  method RunCase(benchCase: BenchCase, options: Options) returns (c: CaseResult)
    ensures CaseMeasured(c, benchCase, options)
  {
    var samples: seq<Sample> := [];
    for index := 0 to options.runs + options.warmup
      invariant |samples| == if index < options.warmup then 0 else index - options.warmup
      invariant AllRight(samples, Measures(benchCase, options)) && AllSloped(samples)
    {
      var sample := RunGatewaySample(options.restarts, benchCase.run(index));
      if index >= options.warmup {
        assert index == options.warmup + |samples|;
        MeasuredInPlace(sample, benchCase, options, |samples|);
        OneMoreRight(samples, sample, Measures(benchCase, options));
        OneMoreSloped(samples, sample);
        samples := samples + [sample];
      }
    }
    c := SummarizeCase(benchCase.id, samples);
  }

  /** Every measured sample of the case proves all its restarts, and there is one. */
  ghost predicate CaseProves(samples: seq<Sample>, benchCase: BenchCase, options: Options) {
    && |samples| == options.runs >= 1
    && forall j :: 0 <= j < options.runs ==>
       ProvesRestarts(samples[j], benchCase.run(options.warmup + j), options.restarts)
  }

  /** A measured sample without a failure but with all evidence proves its restarts. */
  lemma EvidencedSampleProves(s: Sample, run: SampleRun, restarts: nat)
    requires MeasuredBy(s, run, restarts) && FailureFree(s) && SampleEvidence(s)
    ensures ProvesRestarts(s, run, restarts)
  {
    NoCodeIffNothingFailed(s, run, restarts);
  }

  /** The samples of a case without a reason to fail prove every one of their restarts. */
  lemma PassingCaseProvesRestarts(samples: seq<Sample>, benchCase: BenchCase, options: Options)
    requires SamplesMeasured(samples, benchCase, options) && samples != []
    requires forall j :: 0 <= j < |samples| ==> FailureFree(samples[j]) && SampleEvidence(samples[j])
    ensures CaseProves(samples, benchCase, options)
  {
    forall j | 0 <= j < options.runs
      ensures ProvesRestarts(samples[j], benchCase.run(options.warmup + j), options.restarts)
    {
      assert Measures(benchCase, options)(samples[j], j);
      EvidencedSampleProves(samples[j], benchCase.run(options.warmup + j), options.restarts);
    }
  }

  ghost predicate AllMeasured(results: seq<CaseResult>, cases: seq<BenchCase>, options: Options) {
    |results| == |cases| && forall i :: 0 <= i < |cases| ==> CaseMeasured(results[i], cases[i], options)
  }

  /**
   `main`. Exit code 0 without `--allow-failures` means: at least one sample was measured for
   every case, and in every measured sample each of the `restarts` restarts was signalled,
   both probes ended with a 200 after it, the ready line and the complete trace were seen,
   the RSS readings are positive, and the child lived until teardown.
   */
  method RunBenchmark(cases: seq<BenchCase>, options: Options) returns (results: seq<CaseResult>, exitCode: int)
    ensures AllMeasured(results, cases, options)
    ensures exitCode == if Passes(results, options.allowFailures) then 0 else 1
    ensures exitCode == 0 && !options.allowFailures ==>
              forall i :: 0 <= i < |cases| ==> CaseProves(results[i].samples, cases[i], options)
  {
    results := [];
    for i := 0 to |cases|
      invariant AllMeasured(results, cases[..i], options)
    {
      var result := RunCase(cases[i], options);
      results := results + [result];
    }
    assert cases[..|cases|] == cases;
    var failed := ShouldFailBenchmark(results, options.allowFailures);
    SummariesSpeakOfSamples(results, options.allowFailures);
    exitCode := if failed then 1 else 0;
    if !failed && !options.allowFailures {
      forall i | 0 <= i < |cases| ensures CaseProves(results[i].samples, cases[i], options) {
        PassingCaseProvesRestarts(results[i].samples, cases[i], options);
      }
    }
  }

  /** The slope never blocks a sample whose restarts all have positive RSS readings. */
  lemma SlopeFollowsFromReadings(s: Sample)
    requires Sloped(s)
    requires forall i :: 0 <= i < |s.iterations| ==> PositiveNumber(RssMb(s.iterations[i]))
    ensures |s.iterations| >= 2 ==> FiniteNumber(s.rssSlope)
  {
    if |s.iterations| >= 2 {
      SlopeSpansAllRestarts(Readings(s.iterations));
    }
  }
}
