/**
 The downtime detector of the gateway restart monitor: an HTTP probe is repeated until the
 gateway has gone away and come back, or the iteration is over. The specification speaks of
 the first `n` of a sequence of probe attempts.
 */
module RestartProbe {
  import opened Wrappers

  datatype Attempt = Attempt(status: Option<int>, errorKind: Option<string>, at: real)

  /** What one pass of the polling loop observes before it makes its attempt. */
  datatype Poll = Poll(beforeDeadline: bool, processDone: bool, ready: bool)

  datatype Transition = Transition(ms: real, status: Option<int>, errorKind: Option<string>)

  datatype ProbeResult = ProbeResult(
    downtimeMs: Option<real>,
    firstErrorKind: Option<string>,
    firstRecoveryMs: Option<real>,
    ms: Option<real>,
    status: Option<int>,
    transitions: seq<Transition>,
    unavailableMs: Option<real>)

  predicate Up(a: Attempt) {
    a.status == Some(200)
  }

  /** A present error kind that is not the empty string. */
  function Shown(kind: Option<string>): Option<string> {
    if kind == Some("") then None else kind
  }

  datatype StateKey = StateKey(status: Option<int>, kind: string)

  /** The state key: status and error kind, where a missing kind reads as "ok". */
  function Key(a: Attempt): StateKey {
    StateKey(a.status, a.errorKind.GetOr("ok"))
  }

  // ----- Specification over the attempts made -----

  /** The first attempt that did not get a 200, or `n`. */
  function FirstDown(a: seq<Attempt>, n: nat): (i: nat)
    requires n <= |a|
    ensures i <= n
  {
    if n == 0 then 0
    else
      var before := FirstDown(a, n - 1);
      if before < n - 1 then before else if Up(a[n - 1]) then n else n - 1
  }

  /** The first 200 after the first attempt without one. */
  function Recovery(a: seq<Attempt>, n: nat): (r: Option<nat>)
    requires n <= |a|
    ensures r.Some? ==> FirstDown(a, n) < r.value < n
  {
    if n == 0 then None
    else
      var before := Recovery(a, n - 1);
      if before.Some? then before
      else if FirstDown(a, n - 1) < n - 1 && Up(a[n - 1]) then Some(n - 1)
      else None
  }

  /** `i` is the first attempt without a 200, and `j` the first 200 after it. */
  ghost predicate Outage(a: seq<Attempt>, n: nat, i: int, j: int)
    requires n <= |a|
  {
    && 0 <= i < j < n
    && (forall k :: 0 <= k < i ==> Up(a[k]))
    && (forall k :: i <= k < j ==> !Up(a[k]))
    && Up(a[j])
  }

  lemma {:induction false} SearchesAreRight(a: seq<Attempt>, n: nat)
    requires n <= |a|
    ensures forall k :: 0 <= k < FirstDown(a, n) ==> Up(a[k])
    ensures FirstDown(a, n) < n ==> !Up(a[FirstDown(a, n)])
    ensures Recovery(a, n).Some? ==> Up(a[Recovery(a, n).value])
    ensures forall k :: FirstDown(a, n) <= k < (if Recovery(a, n).Some? then Recovery(a, n).value else n) ==> !Up(a[k])
  {
    if n > 0 {
      SearchesAreRight(a, n - 1);
    }
  }

  /** The two searches find the outage exactly when there is one. */
  lemma OutageIsFound(a: seq<Attempt>, n: nat, i: int, j: int)
    requires n <= |a|
    ensures Outage(a, n, i, j) <==> Recovery(a, n) == Some(j) && i == FirstDown(a, n)
  {
    SearchesAreRight(a, n);
    if Outage(a, n, i, j) {
      assert Up(a[j]) && !Up(a[i]);
    }
  }

  /** The first error kind that is not empty. */
  function FirstErrorKind(a: seq<Attempt>, n: nat): Option<string>
    requires n <= |a|
  {
    if n == 0 then None
    else
      var before := FirstErrorKind(a, n - 1);
      if before.Some? then before else Shown(a[n - 1].errorKind)
  }

  /** Attempt `i` is the first with an error kind that is present and not empty. */
  ghost predicate FirstWithError(a: seq<Attempt>, n: nat, i: nat)
    requires n <= |a|
  {
    && i < n && HasError(a[i])
    && forall j :: 0 <= j < i ==> !HasError(a[j])
  }

  predicate HasError(a: Attempt) {
    a.errorKind.Some? && |a.errorKind.value| > 0
  }

  /** The error kind reported is that of the first attempt that has one. */
  lemma {:induction false} FirstErrorIsFirst(a: seq<Attempt>, n: nat)
    requires n <= |a|
    ensures match FirstErrorKind(a, n)
            case Some(kind) => exists i: nat :: FirstWithError(a, n, i) && a[i].errorKind == Some(kind)
            case None => forall i :: 0 <= i < n ==> !HasError(a[i])
  {
    if n > 0 {
      FirstErrorIsFirst(a, n - 1);
      var before := FirstErrorKind(a, n - 1);
      if before.Some? {
        var i: nat :| FirstWithError(a, n - 1, i) && a[i].errorKind == before;
        assert FirstWithError(a, n, i);
      } else if HasError(a[n - 1]) {
        assert FirstWithError(a, n, n - 1);
      }
    }
  }

  /** Does attempt `k` show another state than the one before it? */
  predicate OpensRun(a: seq<Attempt>, k: nat)
    requires k < |a|
  {
    k == 0 || Key(a[k - 1]) != Key(a[k])
  }

  /** A run opens where the status changes, or the error kind, with a missing one read as "ok". */
  lemma RunsOpenOnChange(a: seq<Attempt>, k: nat)
    requires 0 < k < |a|
    ensures !OpensRun(a, k) <==>
              && a[k].status == a[k - 1].status
              && (if a[k].errorKind.Some? then a[k].errorKind.value else "ok")
                 == (if a[k - 1].errorKind.Some? then a[k - 1].errorKind.value else "ok")
  {}

  function Compressed(a: seq<Attempt>, n: nat, since: real): seq<Transition>
    requires n <= |a|
  {
    if n == 0 then []
    else if OpensRun(a, n - 1)
    then Compressed(a, n - 1, since)
         + [Transition(a[n - 1].at - since, a[n - 1].status, Shown(a[n - 1].errorKind))]
    else Compressed(a, n - 1, since)
  }

  /** The keys of the attempts that open a new run. */
  function RunKeys(a: seq<Attempt>, n: nat): seq<StateKey>
    requires n <= |a|
  {
    if n == 0 then []
    else if OpensRun(a, n - 1) then RunKeys(a, n - 1) + [Key(a[n - 1])]
    else RunKeys(a, n - 1)
  }

  function Keys(a: seq<Attempt>, n: nat): seq<StateKey>
    requires n <= |a|
  {
    if n == 0 then [] else Keys(a, n - 1) + [Key(a[n - 1])]
  }

  function Repeat<T>(x: T, n: nat): seq<T> {
    if n == 0 then [] else Repeat(x, n - 1) + [x]
  }

  function Expand<T>(keys: seq<T>, counts: seq<nat>): seq<T>
    requires |keys| == |counts|
  {
    if keys == [] then []
    else Expand(keys[..|keys| - 1], counts[..|counts| - 1]) + Repeat(keys[|keys| - 1], counts[|counts| - 1])
  }

  lemma ExpandLastOnceMore<T>(keys: seq<T>, counts: seq<nat>)
    requires |keys| == |counts| > 0
    ensures var m := |keys| - 1;
            Expand(keys, counts[m := counts[m] + 1]) == Expand(keys, counts) + [keys[m]]
  {
    var m := |keys| - 1;
    assert counts[m := counts[m] + 1][..m] == counts[..m];
    assert Repeat(keys[m], counts[m] + 1) == Repeat(keys[m], counts[m]) + [keys[m]];
  }

  lemma ExpandAppend<T>(keys: seq<T>, counts: seq<nat>, key: T)
    requires |keys| == |counts|
    ensures Expand(keys + [key], counts + [1]) == Expand(keys, counts) + [key]
  {
    assert (keys + [key])[..|keys|] == keys && (counts + [1])[..|keys|] == counts;
    assert Repeat(key, 1) == Repeat(key, 0) + [key];
  }

  /** The attempts that open a run. */
  function Starts(a: seq<Attempt>, n: nat): seq<nat>
    requires n <= |a|
  {
    if n == 0 then []
    else if OpensRun(a, n - 1) then Starts(a, n - 1) + [n - 1]
    else Starts(a, n - 1)
  }

  function TransitionAt(t: Attempt, since: real): Transition {
    Transition(t.at - since, t.status, Shown(t.errorKind))
  }

  /** There is one transition per run, with time, status and shown error kind of its first attempt. */
  lemma {:induction false} OneTransitionPerRun(a: seq<Attempt>, n: nat, since: real)
    requires n <= |a|
    ensures |Starts(a, n)| == |RunKeys(a, n)| == |Compressed(a, n, since)|
    ensures forall i :: 0 <= i < |Starts(a, n)| ==>
              var start := Starts(a, n)[i];
              && start < n
              && RunKeys(a, n)[i] == Key(a[start])
              && Compressed(a, n, since)[i] == TransitionAt(a[start], since)
  {
    if n > 0 {
      OneTransitionPerRun(a, n - 1, since);
    }
  }

  /** The sum of the first `i` counts. */
  function Total(counts: seq<nat>, i: nat): nat
    requires i <= |counts|
  {
    if i == 0 then 0 else Total(counts, i - 1) + counts[i - 1]
  }

  lemma {:induction false} TotalsAgree(c: seq<nat>, d: seq<nat>, i: nat)
    requires i <= |c| && i <= |d| && forall k :: 0 <= k < i ==> c[k] == d[k]
    ensures Total(c, i) == Total(d, i)
  {
    if i > 0 {
      TotalsAgree(c, d, i - 1);
    }
  }

  /** Each run starts where the ones before it end, and the last one ends at `n`. */
  ghost predicate StartsAreTotals(a: seq<Attempt>, n: nat, counts: seq<nat>)
    requires n <= |a|
  {
    && |Starts(a, n)| == |counts|
    && (forall i :: 0 <= i < |counts| ==> Starts(a, n)[i] == Total(counts, i))
    && Total(counts, |counts|) == n
  }

  lemma TotalsOfNewRun(a: seq<Attempt>, n: nat, counts: seq<nat>)
    requires 0 < n <= |a| && OpensRun(a, n - 1) && StartsAreTotals(a, n - 1, counts)
    ensures StartsAreTotals(a, n, counts + [1])
  {
    forall i | 0 <= i <= |counts| ensures Total(counts + [1], i) == Total(counts, i) {
      TotalsAgree(counts + [1], counts, i);
    }
  }

  lemma TotalsOfLongerRun(a: seq<Attempt>, n: nat, counts: seq<nat>)
    requires 0 < n <= |a| && !OpensRun(a, n - 1) && StartsAreTotals(a, n - 1, counts) && counts != []
    ensures StartsAreTotals(a, n, counts[|counts| - 1 := counts[|counts| - 1] + 1])
  {
    assert Starts(a, n) == Starts(a, n - 1);
    LongerLast(counts);
  }

  /** Counting one more in the last run moves no start, only the end. */
  lemma LongerLast(counts: seq<nat>)
    requires counts != []
    ensures var longer := counts[|counts| - 1 := counts[|counts| - 1] + 1];
            && (forall i :: 0 <= i < |counts| ==> Total(longer, i) == Total(counts, i))
            && Total(longer, |counts|) == Total(counts, |counts|) + 1
  {
    var m := |counts| - 1;
    var longer := counts[m := counts[m] + 1];
    forall i | 0 <= i <= m ensures Total(longer, i) == Total(counts, i) {
      TotalsAgree(longer, counts, i);
    }
  }

  /** The run still open is the one of the last attempt. */
  lemma {:induction false} LastRunIsCurrent(a: seq<Attempt>, n: nat)
    requires 0 < n <= |a|
    ensures RunKeys(a, n) != [] && RunKeys(a, n)[|RunKeys(a, n)| - 1] == Key(a[n - 1])
  {
    if n > 1 && !OpensRun(a, n - 1) {
      LastRunIsCurrent(a, n - 1);
    }
  }

  ghost predicate NeighboursDiffer(keys: seq<StateKey>) {
    forall i :: 0 <= i < |keys| - 1 ==> keys[i] != keys[i + 1]
  }

  lemma AppendDiffers(keys: seq<StateKey>, key: StateKey)
    requires NeighboursDiffer(keys) && (keys != [] ==> keys[|keys| - 1] != key)
    ensures NeighboursDiffer(keys + [key])
  {}

  lemma {:induction false} NeighbouringRunsDiffer(a: seq<Attempt>, n: nat)
    requires n <= |a|
    ensures NeighboursDiffer(RunKeys(a, n))
  {
    if n > 0 {
      NeighbouringRunsDiffer(a, n - 1);
      if OpensRun(a, n - 1) {
        if n > 1 {
          LastRunIsCurrent(a, n - 1);
        }
        AppendDiffers(RunKeys(a, n - 1), Key(a[n - 1]));
      }
    }
  }

  /** The counts are positive, expand the runs to the states, and say where each run starts. */
  ghost predicate Compresses(a: seq<Attempt>, n: nat, counts: seq<nat>)
    requires n <= |a|
  {
    && |RunKeys(a, n)| == |counts|
    && Expand(RunKeys(a, n), counts) == Keys(a, n)
    && (forall i :: 0 <= i < |counts| ==> counts[i] > 0)
    && StartsAreTotals(a, n, counts)
  }

  lemma CompressNewRun(a: seq<Attempt>, n: nat, counts: seq<nat>)
    requires 0 < n <= |a| && OpensRun(a, n - 1) && Compresses(a, n - 1, counts)
    ensures Compresses(a, n, counts + [1])
  {
    assert Expand(RunKeys(a, n), counts + [1]) == Keys(a, n) by {
      ExpandAppend(RunKeys(a, n - 1), counts, Key(a[n - 1]));
    }
    TotalsOfNewRun(a, n, counts);
  }

  lemma ExpandLongerRun(a: seq<Attempt>, n: nat, counts: seq<nat>)
    requires 1 < n <= |a| && !OpensRun(a, n - 1) && counts != []
    requires |RunKeys(a, n - 1)| == |counts| && Expand(RunKeys(a, n - 1), counts) == Keys(a, n - 1)
    ensures RunKeys(a, n) == RunKeys(a, n - 1)
    ensures Expand(RunKeys(a, n), counts[|counts| - 1 := counts[|counts| - 1] + 1]) == Keys(a, n)
  {
    LastRunIsCurrent(a, n - 1);
    assert RunKeys(a, n) == RunKeys(a, n - 1);
    ExpandLastOnceMore(RunKeys(a, n - 1), counts);
    assert Keys(a, n) == Keys(a, n - 1) + [Key(a[n - 1])];
  }

  lemma CompressLongerRun(a: seq<Attempt>, n: nat, counts: seq<nat>)
    requires 1 < n <= |a| && !OpensRun(a, n - 1) && Compresses(a, n - 1, counts) && counts != []
    ensures Compresses(a, n, counts[|counts| - 1 := counts[|counts| - 1] + 1])
  {
    ExpandLongerRun(a, n, counts);
    TotalsOfLongerRun(a, n, counts);
  }

  /**
   The transitions are the run-length compression of the observed states: neighbouring
   runs differ, expanding each by a positive count gives the states back, and each run
   starts at the attempt the counts before it lead to.
   */
  lemma {:induction false} RunsCompressStates(a: seq<Attempt>, n: nat) returns (counts: seq<nat>)
    requires n <= |a|
    ensures Compresses(a, n, counts) && NeighboursDiffer(RunKeys(a, n))
  {
    NeighbouringRunsDiffer(a, n);
    if n == 0 {
      counts := [];
    } else {
      counts := RunsCompressStates(a, n - 1);
      if OpensRun(a, n - 1) {
        CompressNewRun(a, n, counts);
        counts := counts + [1];
      } else {
        LastRunIsCurrent(a, n - 1);
        CompressLongerRun(a, n, counts);
        counts := counts[|counts| - 1 := counts[|counts| - 1] + 1];
      }
    }
  }

  // ----- The polling loop -----

  /** The loop ends before attempt `k`: deadline, dead process, or ready without an outage. */
  ghost predicate StopsBefore(polls: seq<Poll>, a: seq<Attempt>, k: nat)
    requires k <= |polls| == |a|
  {
    || k == |polls|
    || !polls[k].beforeDeadline
    || polls[k].processDone
    || (polls[k].ready && k > 0 && FirstDown(a, k) == k)
  }

  /** Everything the result says, in terms of the first `n` attempts. */
  ghost predicate Reports(r: ProbeResult, a: seq<Attempt>, n: nat, since: real)
    requires n <= |a|
  {
    var down := FirstDown(a, n);
    && r.unavailableMs == (if down < n then Some(a[down].at - since) else None)
    && r.transitions == Compressed(a, n, since)
    && r.firstErrorKind == FirstErrorKind(a, n)
    && match Recovery(a, n)
       case Some(up) =>
         && r.downtimeMs == Some(a[up].at - a[down].at)
         && r.ms == r.firstRecoveryMs == Some(a[up].at - since)
         && r.status == Some(200)
       case None =>
         && r.downtimeMs == r.firstRecoveryMs == None
         && r.ms == (if 0 < n == down then Some(a[n - 1].at - since) else None)
         && r.status == (if n == 0 then None else a[n - 1].status)
  }

  /** A recovery time is only ever given together with status 200. */
  lemma RecoveredMeansUp(r: ProbeResult, a: seq<Attempt>, n: nat, since: real)
    requires n <= |a| && Reports(r, a, n, since)
    ensures r.ms.Some? ==> r.status == Some(200)
    ensures r.ms.None? <==> n == 0 || (Recovery(a, n).None? && FirstDown(a, n) < n)
  {
    SearchesAreRight(a, n);
  }

  /** With a clock that never goes back, downtimes and recovery times are not negative. */
  lemma TimesAreNotNegative(r: ProbeResult, a: seq<Attempt>, n: nat, since: real)
    requires n <= |a| && Reports(r, a, n, since)
    requires forall i, j :: 0 <= i <= j < n ==> a[i].at <= a[j].at
    requires n > 0 ==> since <= a[0].at
    ensures r.downtimeMs.Some? ==> r.downtimeMs.value >= 0.0
    ensures r.ms.Some? ==> r.ms.value >= 0.0 && (r.downtimeMs.Some? ==> r.downtimeMs.value <= r.ms.value)
  {
    if r.downtimeMs.Some? {
      assert a[0].at <= a[FirstDown(a, n)].at <= a[Recovery(a, n).value].at;
    }
  }

  /** The variables of the polling loop, kept in one record. */
  datatype Scan = Scan(
    firstErrorKind: Option<string>,
    lastStatus: Option<int>,
    lastStateKey: Option<StateKey>,
    lastSuccessMs: Option<real>,
    unavailableMs: Option<real>,
    transitions: seq<Transition>)

  /** The loop variables as functions of the first `n` attempts. */
  ghost predicate Scans(a: seq<Attempt>, n: nat, since: real, s: Scan)
    requires n <= |a|
  {
    var down := FirstDown(a, n);
    && s.transitions == Compressed(a, n, since)
    && s.firstErrorKind == FirstErrorKind(a, n)
    && s.lastStateKey == (if n == 0 then None else Some(Key(a[n - 1])))
    && s.lastStatus == (if n == 0 then None else a[n - 1].status)
    && s.unavailableMs == (if down < n then Some(a[down].at - since) else None)
    && (down == n ==> s.lastSuccessMs == if n == 0 then None else Some(a[n - 1].at - since))
    && (0 < n == down ==> s.lastStatus == Some(200))
  }

  function ScanNext(s: Scan, since: real, t: Attempt): Scan {
    var ms := t.at - since;
    Scan(
      if Shown(t.errorKind).Some? && s.firstErrorKind.None? then t.errorKind else s.firstErrorKind,
      t.status,
      Some(Key(t)),
      if Up(t) then Some(ms) else s.lastSuccessMs,
      if !Up(t) && s.unavailableMs.None? then Some(ms) else s.unavailableMs,
      if Some(Key(t)) != s.lastStateKey then s.transitions + [Transition(ms, t.status, Shown(t.errorKind))]
      else s.transitions)
  }

  lemma ScanOneMore(a: seq<Attempt>, n: nat, since: real, s: Scan)
    requires n < |a| && Scans(a, n, since, s)
    ensures Scans(a, n + 1, since, ScanNext(s, since, a[n]))
  {
    var next := ScanNext(s, since, a[n]);
    assert FirstDown(a, n + 1) == if FirstDown(a, n) < n then FirstDown(a, n) else if Up(a[n]) then n + 1 else n;
    assert next.transitions == Compressed(a, n + 1, since) by {
      assert OpensRun(a, n) <==> Some(Key(a[n])) != s.lastStateKey;
    }
    assert next.firstErrorKind == FirstErrorKind(a, n + 1);
  }

  lemma RecoveryOneMore(a: seq<Attempt>, n: nat, since: real, s: Scan)
    requires n < |a| && Scans(a, n, since, s) && Recovery(a, n).None?
    ensures Recovery(a, n + 1) == if Up(a[n]) && ScanNext(s, since, a[n]).unavailableMs.Some? then Some(n) else None
  {}

  /** The result on a recovery at this time, and without one. */
  function Recovered(s: Scan, ms: real): ProbeResult {
    ProbeResult(Some(ms - s.unavailableMs.GetOr(0.0)), s.firstErrorKind, Some(ms), Some(ms), Some(200),
                s.transitions, s.unavailableMs)
  }

  function NotRecovered(s: Scan): ProbeResult {
    ProbeResult(None, s.firstErrorKind, None, if s.unavailableMs.None? then s.lastSuccessMs else None,
                s.lastStatus, s.transitions, s.unavailableMs)
  }

  lemma ReportsRecovery(a: seq<Attempt>, n: nat, since: real, s: Scan)
    requires 0 < n <= |a| && Scans(a, n, since, s) && Recovery(a, n) == Some(n - 1)
    ensures Reports(Recovered(s, a[n - 1].at - since), a, n, since)
  {}

  lemma ReportsNoRecovery(a: seq<Attempt>, n: nat, since: real, s: Scan)
    requires n <= |a| && Scans(a, n, since, s) && Recovery(a, n).None?
    ensures Reports(NotRecovered(s), a, n, since)
  {}

  /** The loop has made these attempts without a reason to stop. */
  ghost predicate Polling(polls: seq<Poll>, a: seq<Attempt>, made: nat, since: real, s: Scan) {
    && made <= |polls| == |a|
    && (forall k :: 0 <= k < made ==> !StopsBefore(polls, a, k))
    && Recovery(a, made).None?
    && Scans(a, made, since, s)
  }

  /** The loop has stopped and reports on the attempts it made. */
  ghost predicate Stopped(polls: seq<Poll>, a: seq<Attempt>, made: nat, since: real, r: ProbeResult) {
    && made <= |polls| == |a|
    && (forall k :: 0 <= k < made ==> !StopsBefore(polls, a, k))
    && Reports(r, a, made, since)
    && if r.downtimeMs.Some? then made > 0 && Recovery(a, made) == Some(made - 1) else StopsBefore(polls, a, made)
  }

  /** How many attempts are made in all, when nothing stopped the loop before attempt `k`. */
  ghost function Made(polls: seq<Poll>, a: seq<Attempt>, k: nat): (n: nat)
    requires k <= |polls| == |a|
    ensures k <= n <= |a|
    decreases |a| - k
  {
    if Recovery(a, k).Some? || StopsBefore(polls, a, k) then k else Made(polls, a, k + 1)
  }

  lemma {:induction false} RecoveryStays(a: seq<Attempt>, k: nat, n: nat)
    requires k <= n <= |a| && Recovery(a, k).Some?
    ensures Recovery(a, n) == Recovery(a, k)
  {
    if k < n {
      RecoveryStays(a, k, n - 1);
    }
  }

  /** The loop always makes the same number of attempts: it stops at the first reason to. */
  lemma {:induction false} StopsWhenMade(polls: seq<Poll>, a: seq<Attempt>, made: nat, since: real, r: ProbeResult,
                                         k: nat)
    requires Stopped(polls, a, made, since, r) && k <= made
    ensures Made(polls, a, k) == made
    decreases made - k
  {
    if k < made {
      if Recovery(a, k).Some? {
        RecoveryStays(a, k, made);
      }
      StopsWhenMade(polls, a, made, since, r, k + 1);
    }
  }

  /** Ready without an outage: the last attempt of an unbroken run got a 200. */
  lemma ReadyWithoutOutage(a: seq<Attempt>, n: nat, since: real, s: Scan)
    requires n <= |a| && Scans(a, n, since, s)
    ensures s.unavailableMs.None? && s.lastSuccessMs.Some? <==> n > 0 && FirstDown(a, n) == n
    ensures n > 0 && FirstDown(a, n) == n ==> s.lastStatus == Some(200)
  {}

  lemma StopHere(polls: seq<Poll>, a: seq<Attempt>, made: nat, since: real, s: Scan)
    requires Polling(polls, a, made, since, s) && StopsBefore(polls, a, made)
    ensures Stopped(polls, a, made, since, NotRecovered(s))
  {
    ReportsNoRecovery(a, made, since, s);
  }

  lemma OneAttemptMore(polls: seq<Poll>, a: seq<Attempt>, made: nat, since: real, s: Scan)
    requires Polling(polls, a, made, since, s) && made < |a| && !StopsBefore(polls, a, made)
    ensures var next := ScanNext(s, since, a[made]);
            if Up(a[made]) && next.unavailableMs.Some?
            then Stopped(polls, a, made + 1, since, Recovered(next, a[made].at - since))
            else Polling(polls, a, made + 1, since, next)
  {
    ScanOneMore(a, made, since, s);
    RecoveryOneMore(a, made, since, s);
    if Up(a[made]) && ScanNext(s, since, a[made]).unavailableMs.Some? {
      ReportsRecovery(a, made + 1, since, ScanNext(s, since, a[made]));
    }
  }

  /** Takes one attempt into the loop's variables. */
  method Record(s: Scan, since: real, attempt: Attempt) returns (next: Scan)
    ensures next == ScanNext(s, since, attempt)
  {
    var elapsedMs := attempt.at - since;
    var stateKey := Key(attempt);
    next := s.(lastStatus := attempt.status);
    if Some(stateKey) != next.lastStateKey {
      next := next.(transitions := next.transitions + [Transition(elapsedMs, attempt.status, Shown(attempt.errorKind))],
                    lastStateKey := Some(stateKey));
    }
    if Shown(attempt.errorKind).Some? && next.firstErrorKind.None? {
      next := next.(firstErrorKind := attempt.errorKind);
    }
    if attempt.status != Some(200) && next.unavailableMs.None? {
      next := next.(unavailableMs := Some(elapsedMs));
    }
    if attempt.status == Some(200) {
      next := next.(lastSuccessMs := Some(elapsedMs));
    }
  }

  /**
   Pass `k` of the loop sees `polls[k]` and, if it gets that far, makes attempt `a[k]`.
   `made` attempts are made, and the result reports on exactly those: the downtime is the
   time from the first attempt without a 200 to the first later 200.
   */
  method WaitForRestartProbe(polls: seq<Poll>, a: seq<Attempt>, signalSentAt: real) returns (r: ProbeResult, made: nat)
    requires |polls| == |a|
    ensures Stopped(polls, a, made, signalSentAt, r)
  {
    var scan := Scan(None, None, None, None, None, []);
    made := 0;
    while made < |polls| && polls[made].beforeDeadline
      invariant Polling(polls, a, made, signalSentAt, scan)
    {
      var poll := polls[made];
      ReadyWithoutOutage(a, made, signalSentAt, scan);
      if poll.processDone {
        break;
      }
      if poll.ready && scan.unavailableMs.None? && scan.lastSuccessMs.Some? {
        StopHere(polls, a, made, signalSentAt, scan);
        r := ProbeResult(None, scan.firstErrorKind, None, scan.lastSuccessMs, Some(200), scan.transitions, None);
        return;
      }
      var attempt := a[made];
      var elapsedMs := attempt.at - signalSentAt;
      OneAttemptMore(polls, a, made, signalSentAt, scan);
      scan := Record(scan, signalSentAt, attempt);
      made := made + 1;
      if attempt.status == Some(200) && scan.unavailableMs.Some? {
        r := ProbeResult(Some(elapsedMs - scan.unavailableMs.value), scan.firstErrorKind, Some(elapsedMs),
                         Some(elapsedMs), attempt.status, scan.transitions, scan.unavailableMs);
        return;
      }
    }
    StopHere(polls, a, made, signalSentAt, scan);
    r := ProbeResult(None, scan.firstErrorKind, None, if scan.unavailableMs.None? then scan.lastSuccessMs else None,
                     scan.lastStatus, scan.transitions, scan.unavailableMs);
  }
}
