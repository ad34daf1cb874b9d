/**
 What the records of the restart benchmark say: the failure rate as a quotient of two counts,
 which failure is named first, why a sample has its code, and which readings count.
 */
module RestartFacts {
  import opened Wrappers
  import opened RestartBenchmark

  // ----- Counting -----

  predicate Counts(it: Iteration, failed: bool) {
    failed ==> it.failureCode.Some?
  }

  /** The restarts of the first `n` samples, by sample and position; with `failed`, only those that failed. */
  function Restarts(samples: seq<Sample>, n: nat, failed: bool): set<(int, int)>
    requires n <= |samples|
  {
    set i, k | 0 <= i < n && 0 <= k < |samples[i].iterations| && Counts(samples[i].iterations[k], failed) :: (i, k)
  }

  /** The samples that failed although none of their restarts did. */
  function FailedOutside(samples: seq<Sample>, n: nat): set<int>
    requires n <= |samples|
  {
    set i | 0 <= i < n && samples[i].failureCode.Some?
            && forall k :: 0 <= k < |samples[i].iterations| ==> samples[i].iterations[k].failureCode.None?
  }

  function Count(iterations: seq<Iteration>, failed: bool): nat {
    if failed then CountFailed(iterations) else |iterations|
  }

  lemma CountConcat(a: seq<Iteration>, b: seq<Iteration>, failed: bool)
    ensures Count(a + b, failed) == Count(a, failed) + Count(b, failed)
  {
    CountFailedConcat(a, b);
  }

  function Row(iterations: seq<Iteration>, i: int, m: nat, failed: bool): set<(int, int)>
    requires m <= |iterations|
  {
    set k | 0 <= k < m && Counts(iterations[k], failed) :: (i, k)
  }

  lemma OneMore<T>(some: set<T>, x: T)
    requires x !in some
    ensures |some + {x}| == |some| + 1
  {}

  lemma RowOneMore(iterations: seq<Iteration>, i: int, m: nat, failed: bool)
    requires m < |iterations|
    ensures var row := Row(iterations, i, m, failed);
            |Row(iterations, i, m + 1, failed)| == if Counts(iterations[m], failed) then |row| + 1 else |row|
  {
    var row := Row(iterations, i, m, failed);
    OneMore(row, (i, m));
    assert Row(iterations, i, m + 1, failed) == if Counts(iterations[m], failed) then row + {(i, m)} else row;
  }

  lemma CountOneMore(iterations: seq<Iteration>, m: nat, failed: bool)
    requires m < |iterations|
    ensures var before := Count(iterations[..m], failed);
            Count(iterations[..m + 1], failed) == if Counts(iterations[m], failed) then before + 1 else before
  {
    assert iterations[..m + 1] == iterations[..m] + [iterations[m]];
    CountConcat(iterations[..m], [iterations[m]], failed);
  }

  lemma {:induction false} RowSize(iterations: seq<Iteration>, i: int, m: nat, failed: bool)
    requires m <= |iterations|
    ensures |Row(iterations, i, m, failed)| == Count(iterations[..m], failed)
  {
    if m == 0 {
      assert Row(iterations, i, 0, failed) == {} && iterations[..0] == [];
    } else {
      RowSize(iterations, i, m - 1, failed);
      RowOneMore(iterations, i, m - 1, failed);
      CountOneMore(iterations, m - 1, failed);
    }
  }

  lemma {:induction false} AllIterationsConcat(a: seq<Sample>, b: seq<Sample>)
    ensures AllIterations(a + b) == AllIterations(a) + AllIterations(b)
  {
    if a == [] {
      assert a + b == b;
    } else {
      assert (a + b)[1..] == a[1..] + b;
      AllIterationsConcat(a[1..], b);
    }
  }

  lemma AllIterationsOneMore(samples: seq<Sample>, n: nat)
    requires n < |samples|
    ensures AllIterations(samples[..n + 1]) == AllIterations(samples[..n]) + samples[n].iterations
  {
    assert samples[..n + 1] == samples[..n] + [samples[n]];
    AllIterationsConcat(samples[..n], [samples[n]]);
    assert AllIterations([samples[n]]) == samples[n].iterations;
  }

  lemma RestartsOneMore(samples: seq<Sample>, n: nat, failed: bool)
    requires n < |samples|
    ensures var its := samples[n].iterations;
            && Restarts(samples, n + 1, failed) == Restarts(samples, n, failed) + Row(its, n, |its|, failed)
            && Restarts(samples, n, failed) !! Row(its, n, |its|, failed)
  {}

  lemma {:induction false} RestartsAreCounted(samples: seq<Sample>, n: nat, failed: bool)
    requires n <= |samples|
    ensures |Restarts(samples, n, failed)| == Count(AllIterations(samples[..n]), failed)
  {
    if n > 0 {
      var its := samples[n - 1].iterations;
      RestartsAreCounted(samples, n - 1, failed);
      RestartsOneMore(samples, n - 1, failed);
      RowSize(its, n - 1, |its|, failed);
      assert its[..|its|] == its;
      AllIterationsOneMore(samples, n - 1);
      CountConcat(AllIterations(samples[..n - 1]), its, failed);
    }
  }

  lemma {:induction false} CountSampleOnlyConcat(a: seq<Sample>, b: seq<Sample>)
    ensures CountSampleOnly(a + b) == CountSampleOnly(a) + CountSampleOnly(b)
  {
    if a == [] {
      assert a + b == b;
    } else {
      assert (a + b)[1..] == a[1..] + b;
      CountSampleOnlyConcat(a[1..], b);
    }
  }

  lemma OutsideOneMore(samples: seq<Sample>, n: nat)
    requires n < |samples|
    ensures var before := FailedOutside(samples, n);
            && n !in before
            && FailedOutside(samples, n + 1) == if SampleOnlyFailure(samples[n]) then before + {n} else before
  {}

  lemma {:induction false} FailedOutsideAreCounted(samples: seq<Sample>, n: nat)
    requires n <= |samples|
    ensures |FailedOutside(samples, n)| == CountSampleOnly(samples[..n])
  {
    if n > 0 {
      FailedOutsideAreCounted(samples, n - 1);
      OutsideOneMore(samples, n - 1);
      OneMore<int>(FailedOutside(samples, n - 1), n - 1);
      assert samples[..n] == samples[..n - 1] + [samples[n - 1]];
      CountSampleOnlyConcat(samples[..n - 1], [samples[n - 1]]);
    }
  }

  lemma QuotientTimes(rate: real, a: nat, b: nat)
    requires a <= b && rate == if b == 0 then 0.0 else a as real / b as real
    ensures rate * b as real == a as real
  {}

  /** The failures and the units they are failures of: restarts, and samples that failed outside of them. */
  function Failures(samples: seq<Sample>): nat {
    |Restarts(samples, |samples|, true)| + |FailedOutside(samples, |samples|)|
  }

  function FailureUnits(samples: seq<Sample>): nat {
    |Restarts(samples, |samples|, false)| + |FailedOutside(samples, |samples|)|
  }

  lemma CountsAreSizes(samples: seq<Sample>)
    ensures Failures(samples) == CountFailed(AllIterations(samples)) + CountSampleOnly(samples)
    ensures FailureUnits(samples) == |AllIterations(samples)| + CountSampleOnly(samples)
  {
    RestartsAreCounted(samples, |samples|, true);
    RestartsAreCounted(samples, |samples|, false);
    FailedOutsideAreCounted(samples, |samples|);
    assert samples[..|samples|] == samples;
  }

  /** The rate is failures per unit, and zero without units. */
  lemma RateIsFailuresPerUnit(samples: seq<Sample>)
    ensures FailureRate(samples) * FailureUnits(samples) as real == Failures(samples) as real
    ensures FailureUnits(samples) == 0 ==> FailureRate(samples) == 0.0
  {
    CountsAreSizes(samples);
    QuotientTimes(FailureRate(samples), Failures(samples), FailureUnits(samples));
  }

  // ----- The failure that is named -----

  /** Sample `i` is the first with a failure code. */
  ghost predicate FirstSample(samples: seq<Sample>, i: nat) {
    && i < |samples| && samples[i].failureCode.Some?
    && forall j :: 0 <= j < i ==> samples[j].failureCode.None?
  }

  ghost predicate NoSampleCode(samples: seq<Sample>) {
    forall i :: 0 <= i < |samples| ==> samples[i].failureCode.None?
  }

  /** Restart `k` of sample `i` failed, and none before it did. */
  ghost predicate FirstRestart(samples: seq<Sample>, i: nat, k: nat) {
    && i < |samples| && FirstOfSample(samples[i].iterations, k)
    && forall j :: 0 <= j < i ==> NoRestartCode(samples[j].iterations)
  }

  ghost predicate FirstOfSample(iterations: seq<Iteration>, k: nat) {
    && k < |iterations| && iterations[k].failureCode.Some?
    && forall j :: 0 <= j < k ==> iterations[j].failureCode.None?
  }

  ghost predicate NoRestartCode(iterations: seq<Iteration>) {
    forall k :: 0 <= k < |iterations| ==> iterations[k].failureCode.None?
  }

  /** The code of the first sample that has one, else that of the first restart that failed. */
  ghost predicate NamesFirst(samples: seq<Sample>, code: Option<FailureCode>) {
    if !NoSampleCode(samples) then exists i: nat :: FirstSample(samples, i) && code == samples[i].failureCode
    else match code
         case Some(_) =>
           exists i: nat, k: nat :: FirstRestart(samples, i, k) && code == samples[i].iterations[k].failureCode
         case None => forall i :: 0 <= i < |samples| ==> NoRestartCode(samples[i].iterations)
  }

  lemma {:induction false} FirstSampleIsFound(samples: seq<Sample>)
    ensures NoSampleCode(samples) <==> FirstSampleFailure(samples).None?
    ensures !NoSampleCode(samples) ==>
              exists i: nat :: FirstSample(samples, i) && FirstSampleFailure(samples) == samples[i].failureCode
  {
    if samples != [] {
      var rest := samples[1..];
      FirstSampleIsFound(rest);
      assert forall i :: 0 < i < |samples| ==> samples[i] == rest[i - 1];
      if samples[0].failureCode.Some? {
        assert FirstSample(samples, 0);
      } else if !NoSampleCode(samples) {
        var i: nat :| FirstSample(rest, i) && FirstSampleFailure(rest) == rest[i].failureCode;
        assert FirstSample(samples, i + 1);
      }
    }
  }

  lemma {:induction false} FirstOfSampleIsFound(iterations: seq<Iteration>)
    ensures NoRestartCode(iterations) <==> FirstIterationFailure(iterations).None?
    ensures !NoRestartCode(iterations) ==>
              exists k: nat :: FirstOfSample(iterations, k)
                               && FirstIterationFailure(iterations) == iterations[k].failureCode
  {
    if iterations != [] {
      var rest := iterations[1..];
      FirstOfSampleIsFound(rest);
      assert forall i :: 0 < i < |iterations| ==> iterations[i] == rest[i - 1];
      if iterations[0].failureCode.Some? {
        assert FirstOfSample(iterations, 0);
      } else if !NoRestartCode(iterations) {
        var k: nat :| FirstOfSample(rest, k) && FirstIterationFailure(rest) == rest[k].failureCode;
        assert FirstOfSample(iterations, k + 1);
      }
    }
  }

  lemma {:induction false} FirstIterationConcat(a: seq<Iteration>, b: seq<Iteration>)
    ensures FirstIterationFailure(a + b)
         == if FirstIterationFailure(a).Some? then FirstIterationFailure(a) else FirstIterationFailure(b)
  {
    if a == [] {
      assert a + b == b;
    } else {
      assert (a + b)[1..] == a[1..] + b;
      FirstIterationConcat(a[1..], b);
    }
  }

  lemma {:induction false} FirstRestartIsFound(samples: seq<Sample>)
    ensures var code := FirstIterationFailure(AllIterations(samples));
            match code
            case Some(_) =>
              exists i: nat, k: nat :: FirstRestart(samples, i, k) && code == samples[i].iterations[k].failureCode
            case None => forall i :: 0 <= i < |samples| ==> NoRestartCode(samples[i].iterations)
  {
    if samples != [] {
      var rest := samples[1..];
      FirstRestartIsFound(rest);
      FirstOfSampleIsFound(samples[0].iterations);
      FirstIterationConcat(samples[0].iterations, AllIterations(rest));
      assert forall i :: 0 < i < |samples| ==> samples[i] == rest[i - 1];
      var code := FirstIterationFailure(AllIterations(rest));
      if !NoRestartCode(samples[0].iterations) {
        var k: nat :| FirstOfSample(samples[0].iterations, k)
          && FirstIterationFailure(samples[0].iterations) == samples[0].iterations[k].failureCode;
        assert FirstRestart(samples, 0, k);
      } else if code.Some? {
        var i: nat, k: nat :| FirstRestart(rest, i, k) && code == rest[i].iterations[k].failureCode;
        assert FirstRestart(samples, i + 1, k);
      }
    }
  }

  /** The summary names the first failure: sample codes before codes of restarts. */
  lemma SummaryNamesFirst(samples: seq<Sample>)
    ensures NamesFirst(samples, FirstFailureCode(samples))
  {
    FirstSampleIsFound(samples);
    FirstRestartIsFound(samples);
  }

  // ----- Why a sample has its code -----

  /** All restarts were made, and none failed. */
  ghost predicate LoopPassed(s: Sample, run: SampleRun, restarts: nat) {
    run.initialFailure.None? && |s.iterations| == restarts && NoRestartCode(s.iterations)
  }

  /** The reason the restart loop's own code stands for. */
  ghost predicate LoopFailedBy(env: nat -> Restart, restarts: nat, iterations: seq<Iteration>, code: FailureCode) {
    || (exists k :: 0 <= k < |iterations| && iterations[k].failureCode == Some(code))
    || (NoRestartCode(iterations) && |iterations| < restarts && env(|iterations| + 1).childExitedBefore
        && code == RestartChildExited)
  }

  /** The reason a sample's code stands for. */
  ghost predicate SampleFailedBy(s: Sample, run: SampleRun, restarts: nat, code: FailureCode) {
    || run.initialFailure == Some(code)
    || (run.initialFailure.None? && LoopFailedBy(run.restart, restarts, s.iterations, code))
    || (LoopPassed(s, run, restarts) && run.exit.exitedBeforeTeardown
        && code == if run.exit.exitCode.None? || run.exit.exitCode == Some(0) then RestartChildExited
                   else ChildNonzeroExit)
    || (LoopPassed(s, run, restarts) && !run.exit.exitedBeforeTeardown && !run.cleanedUp && code == CleanupFailed)
  }

  lemma OnlyLastHasCode(iterations: seq<Iteration>, code: FailureCode)
    requires OnlyLastFailed(iterations)
    ensures LastFailure(iterations) == Some(code)
       <==> exists k :: 0 <= k < |iterations| && iterations[k].failureCode == Some(code)
    ensures NoRestartCode(iterations) <==> LastFailure(iterations).None?
  {
    if LastFailure(iterations).Some? {
      assert iterations[|iterations| - 1].failureCode.Some?;
    }
  }

  lemma ReasonDecidesLoopCode(env: nat -> Restart, restarts: nat, iterations: seq<Iteration>, code: FailureCode)
    requires LoopRan(env, restarts, iterations)
    ensures LoopCode(restarts, iterations) == Some(code) <==> LoopFailedBy(env, restarts, iterations, code)
    ensures LoopCode(restarts, iterations).None? <==> |iterations| == restarts && NoRestartCode(iterations)
  {
    OnlyLastHasCode(iterations, code);
    if LastFailure(iterations).Some? {
      assert iterations[|iterations| - 1].failureCode.Some?;
    } else if |iterations| < restarts {
      assert env(|iterations| + 1).childExitedBefore;
    }
  }

  /** A sample has a code exactly for its reason. */
  lemma ReasonDecidesSampleCode(s: Sample, run: SampleRun, restarts: nat, code: FailureCode)
    requires MeasuredBy(s, run, restarts)
    ensures s.failureCode == Some(code) <==> SampleFailedBy(s, run, restarts, code)
  {
    if run.initialFailure.None? {
      ReasonDecidesLoopCode(run.restart, restarts, s.iterations, code);
      OnlyLastHasCode(s.iterations, code);
    }
  }

  // ----- Readings and slopes -----

  ghost predicate FirstReading(values: seq<Option<Num>>, i: nat) {
    i < |values| && values[i].Some? && forall k :: 0 <= k < i ==> values[k].None?
  }

  ghost predicate LastReading(values: seq<Option<Num>>, i: nat) {
    i < |values| && values[i].Some? && forall k :: i < k < |values| ==> values[k].None?
  }

  ghost predicate NoReading(values: seq<Option<Num>>) {
    forall k :: 0 <= k < |values| ==> values[k].None?
  }

  /** The RSS of a restart: the trace's own value, its memory value, or the latest snapshot that has one. */
  ghost predicate IsRss(it: Iteration, rss: Option<Num>) {
    if "restart.ready.rssMb" in it.restartTrace then rss == Some(it.restartTrace["restart.ready.rssMb"])
    else if "restart.ready.memory.ready.rssMb" in it.restartTrace
    then rss == Some(it.restartTrace["restart.ready.memory.ready.rssMb"])
    else match rss
         case Some(_) => exists i: nat :: LastReading(it.snapshotRssMb, i) && it.snapshotRssMb[i] == rss
         case None => NoReading(it.snapshotRssMb)
  }

  lemma {:induction false} LastSnapshotIsLast(values: seq<Option<Num>>)
    ensures match LastSnapshot(values)
            case Some(_) => exists i: nat :: LastReading(values, i) && values[i] == LastSnapshot(values)
            case None => NoReading(values)
  {
    if values != [] {
      var n := |values| - 1;
      if values[n].Some? {
        assert LastReading(values, n);
      } else {
        LastSnapshotIsLast(values[..n]);
        if LastSnapshot(values).Some? {
          var i: nat :| LastReading(values[..n], i) && values[..n][i] == LastSnapshot(values);
          assert LastReading(values, i);
        }
      }
    }
  }

  lemma RssIsReading(it: Iteration)
    ensures IsRss(it, RssMb(it))
  {
    LastSnapshotIsLast(it.snapshotRssMb);
  }

  lemma {:induction false} FirstPointIsFirst(values: seq<Option<Num>>, from: nat)
    requires from <= |values| && forall k :: 0 <= k < from ==> values[k].None?
    ensures match FirstPoint(values, from)
            case Some(i) => FirstReading(values, i)
            case None => NoReading(values)
    decreases |values| - from
  {
    if from < |values| && values[from].None? {
      FirstPointIsFirst(values, from + 1);
    }
  }

  lemma {:induction false} LastPointIsLast(values: seq<Option<Num>>, n: nat)
    requires n <= |values| && forall k :: n <= k < |values| ==> values[k].None?
    ensures match LastPoint(values, n)
            case Some(i) => LastReading(values, i)
            case None => NoReading(values)
  {
    if n > 0 && values[n - 1].None? {
      LastPointIsLast(values, n - 1);
    }
  }

  /** The change per restart from the first reading to a later last one, when both are finite. */
  ghost predicate IsSlope(values: seq<Option<Num>>, slope: Option<Num>, i: nat, j: nat) {
    && FirstReading(values, i) && LastReading(values, j) && i < j
    && slope.Some?
    && (values[i].value.Finite? && values[j].value.Finite? <==> slope.value.Finite?)
    && (slope.value.Finite? ==>
          slope.value.value * (j - i) as real == values[j].value.value - values[i].value.value)
  }

  lemma QuotientOfRise(rise: real, distance: nat)
    requires distance > 0
    ensures (rise / distance as real) * distance as real == rise
  {}

  /** There is a slope exactly when there are two readings. */
  lemma SlopeIsMeanChange(values: seq<Option<Num>>)
    ensures match Slope(values)
            case Some(_) => exists i: nat, j: nat :: IsSlope(values, Slope(values), i, j)
            case None => forall i: nat, j: nat :: FirstReading(values, i) && LastReading(values, j) ==> i == j
  {
    FirstPointIsFirst(values, 0);
    LastPointIsLast(values, |values|);
    if Slope(values).Some? {
      var i, j := FirstPoint(values, 0).value, LastPoint(values, |values|).value;
      if values[i].value.Finite? && values[j].value.Finite? {
        QuotientOfRise(values[j].value.value - values[i].value.value, j - i);
      }
      assert IsSlope(values, Slope(values), i, j);
    }
  }
}
