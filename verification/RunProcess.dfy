/**
 The supervision protocol of `runProcess` on POSIX: one call's callbacks as functions on its
 variables, and any number of concurrent calls sharing the registry of parent-signal states.
 */
module RunProcess {
  import opened Wrappers
  import opened ProcessOutput

  datatype Signal = SIGINT | SIGTERM | SIGHUP | SIGKILL

  /** The kill timer: not armed, the grace after a timeout, or after a relayed parent signal. */
  datatype KillTimer = Off | Grace | ParentGrace(signal: Signal)

  datatype Exit = Exit(code: Option<int>, signal: Option<Signal>)

  /** How the promise was settled. */
  datatype Settlement =
    | Resolved(code: int, stdout: string, stderr: Capture)
    | TimedOut
    | FailedExit(code: int)
    | StdoutOverflow
    | SpawnError

  /** The output limit as `runProcess` resolves it: at least one. */
  type Limit = n: nat | n > 0 witness 1

  datatype Options = Options(maxOutputChars: Limit, rejectOnFailure: bool)

  /**
   What has happened to a call: close and error events, the pieces of each stream, settlements,
   the signals its group was sent and whether the group was ever observed to be gone.
   */
  datatype Log = Log(
    close: Option<Exit>,
    errorSeen: bool,
    outChunks: seq<string>,
    errChunks: seq<string>,
    settlements: seq<Settlement>,
    sent: set<Signal>,
    seenDead: bool)
  {
    predicate Killed() {
      SIGKILL in sent
    }
  }

  const NO_LOG := Log(None, false, [], [], [], {}, false)

  /** The variables of one call. */
  datatype Call = Call(
    options: Options,
    stdout: Capture,
    stderr: Capture,
    timedOut: bool,
    settled: bool,
    waitingForKillGrace: bool,
    childClosedResult: Option<Exit>,
    killTimer: KillTimer,
    timeoutArmed: bool,
    parentSignalPending: Option<Signal>,
    stateSignal: Option<Signal>,
    done: bool,
    listening: bool,
    log: Log)

  function StartCall(options: Options): Call {
    Call(options, EMPTY, EMPTY, false, false, false, None, Off, true, None, None, false, true, NO_LOG)
  }

  // ----- The callbacks -----

  /** Sends a signal to the process group; `note` is what a failed send adds to stderr. */
  function SignalChild(c: Call, signal: Signal, note: string): Call {
    var noted := OnStderr(c, note);
    noted.(log := noted.log.(sent := c.log.sent + {signal}))
  }

  function Settle(c: Call, s: Settlement): Call {
    if c.settled then c
    else c.(settled := true, timeoutArmed := false, listening := false,
            killTimer := if c.parentSignalPending.None? then Off else c.killTimer,
            log := c.log.(settlements := c.log.settlements + [s]))
  }

  function CloseOutcome(c: Call, exit: Exit): Settlement {
    var code := exit.code.GetOr(1);
    if c.timedOut then TimedOut
    else if code != 0 && c.options.rejectOnFailure then FailedExit(code)
    else if code == 0 && c.stdout.truncatedChars > 0 then StdoutOverflow
    else Resolved(code, c.stdout.text, c.stderr)
  }

  function FinishClose(c: Call, exit: Exit): Call {
    Settle(c, CloseOutcome(c, exit))
  }

  function ScheduleKill(c: Call): Call {
    if c.waitingForKillGrace then c else c.(waitingForKillGrace := true, killTimer := Grace)
  }

  function OnStdout(c: Call, chunk: string): Call {
    c.(stdout := Append(c.stdout, chunk, c.options.maxOutputChars),
       log := c.log.(outChunks := c.log.outChunks + [chunk]))
  }

  function OnStderr(c: Call, chunk: string): Call {
    c.(stderr := Append(c.stderr, chunk, c.options.maxOutputChars),
       log := c.log.(errChunks := c.log.errChunks + [chunk]))
  }

  function OnTimeout(c: Call, note: string): Call {
    ScheduleKill(SignalChild(c.(timedOut := true, timeoutArmed := false), SIGTERM, note))
  }

  function OnKillTimer(c: Call, note: string): Call {
    var k := SignalChild(c.(waitingForKillGrace := false, killTimer := Off), SIGKILL, note);
    match c.killTimer
    case ParentGrace(_) => k.(done := true)
    case _ => if k.childClosedResult.Some? then FinishClose(k, k.childClosedResult.value) else k
  }

  function OnError(c: Call): Call {
    Settle(c.(log := c.log.(errorSeen := true)), SpawnError)
  }

  /** Records that the child closed and, if the group was probed and gone, that too. */
  function Closed(c: Call, exit: Exit, gone: bool): Call {
    c.(log := c.log.(close := Some(exit), seenDead := c.log.seenDead || gone))
  }

  function OnClose(c: Call, exit: Exit, alive: bool): Call {
    if c.parentSignalPending.Some? then
      if alive then Closed(c, exit, false).(childClosedResult := Some(exit))
      else Closed(c, exit, true).(killTimer := Off, done := true)
    else if c.waitingForKillGrace && alive then Closed(c, exit, false).(childClosedResult := Some(exit))
    else FinishClose(Closed(c, exit, c.waitingForKillGrace), exit)
  }

  /** Records a parent signal, passes it on to the group and stops listening for more. */
  function Relay(c: Call, signal: Signal, note: string): Call {
    SignalChild(c.(parentSignalPending := Some(signal), stateSignal := Some(signal), listening := false), signal, note)
  }

  function OnParentSignal(c: Call, signal: Signal, note: string, alive: bool): Call {
    var k := Relay(c, signal, note);
    if alive then k.(waitingForKillGrace := true, killTimer := ParentGrace(signal))
    else k.(done := true, log := k.log.(seenDead := true))
  }

  // ----- What every callback keeps -----

  /** How the flags and timers of a call hang together. */
  ghost predicate FlagsInv(c: Call) {
    && c.stateSignal == c.parentSignalPending
    && |c.log.settlements| == (if c.settled then 1 else 0)
    && (c.killTimer != Off ==> c.waitingForKillGrace)
    && (c.killTimer == Grace ==> c.timedOut)
    && (c.killTimer.ParentGrace? ==> c.parentSignalPending == Some(c.killTimer.signal))
    && (c.timedOut && !c.waitingForKillGrace ==> c.log.Killed())
    && (if c.settled then !c.timeoutArmed && !c.listening else c.timeoutArmed == !c.timedOut)
    && (!c.settled ==> c.listening == c.parentSignalPending.None?)
    && (c.settled ==> (c.parentSignalPending.None? ==> c.killTimer == Off))
    && (c.childClosedResult.Some? ==> c.childClosedResult == c.log.close)
    && (c.parentSignalPending.Some? ==> !c.listening)
    && (c.done ==> c.parentSignalPending.Some? && (c.log.seenDead || c.log.Killed()))
    && (c.parentSignalPending.Some? ==> c.done || c.killTimer.ParentGrace?)
    && (c.parentSignalPending.None? && !c.settled ==> GraceInv(c))
  }

  /** A call still undecided waits for its timer; a close it has seen is put aside, not lost. */
  ghost predicate GraceInv(c: Call) {
    && (c.waitingForKillGrace ==> c.killTimer == Grace)
    && (c.log.close.Some? ==> c.childClosedResult.Some? && c.killTimer == Grace)
    && (c.timedOut ==> !c.timeoutArmed)
  }

  ghost predicate CapturesInv(c: Call) {
    && c.stdout == AppendAll(c.log.outChunks, c.options.maxOutputChars)
    && c.stderr == AppendAll(c.log.errChunks, c.options.maxOutputChars)
  }

  ghost predicate Inv(c: Call) {
    && FlagsInv(c)
    && CapturesInv(c)
    && (c.settled ==> SettledRightly(c, c.log.settlements[0]))
  }

  /** What a settlement of a call says about the call. */
  ghost predicate SettledRightly(c: Call, s: Settlement) {
    match s
    case Resolved(code, _, _) =>
      && !c.timedOut
      && c.parentSignalPending.None?
      && ClosedWith(c, code)
      && CarriesOutput(s, c.log.outChunks, c.log.errChunks, c.options.maxOutputChars)
      && (c.options.rejectOnFailure ==> code == 0)
    case TimedOut => c.timedOut && (c.log.seenDead || c.log.Killed())
    case FailedExit(code) => code != 0 && c.options.rejectOnFailure && !c.timedOut && ClosedWith(c, code)
    case StdoutOverflow => !c.timedOut && ClosedWith(c, 0) && c.stdout.truncatedChars > 0
    case SpawnError => c.log.errorSeen
  }

  /** The child closed with this code; death by a signal counts as 1. */
  ghost predicate ClosedWith(c: Call, code: int) {
    c.log.close.Some? && c.log.close.value.code.GetOr(1) == code
  }

  /** The text of a resolution: the tail of each stream, all of stdout when the code is 0. */
  ghost predicate CarriesOutput(s: Settlement, outChunks: seq<string>, errChunks: seq<string>, maxChars: Limit)
    requires s.Resolved?
  {
    && s.stdout == Tail(Concat(outChunks), maxChars)
    && s.stderr.text == Tail(Concat(errChunks), maxChars)
    && |s.stderr.text| + s.stderr.truncatedChars == |Concat(errChunks)|
    && (s.code == 0 ==> s.stdout == Concat(outChunks))
  }

  lemma StartKeepsInv(options: Options)
    ensures Inv(StartCall(options))
  {}

  lemma CloseOutcomeIsRight(c: Call, exit: Exit)
    requires CapturesInv(c)
    requires c.timedOut ==> c.log.seenDead || c.log.Killed()
    requires !c.timedOut ==> c.log.close == Some(exit) && c.parentSignalPending.None?
    ensures SettledRightly(c, CloseOutcome(c, exit))
  {
    CaptureIsTail(c.log.outChunks, c.options.maxOutputChars);
    CaptureIsTail(c.log.errChunks, c.options.maxOutputChars);
    UntruncatedIsExact(c.log.outChunks, c.options.maxOutputChars);
  }

  /** A settlement stays right while records only grow, and a resolution while its streams stay. */
  lemma SettledRightlyLasts(c: Call, d: Call, s: Settlement)
    requires SettledRightly(c, s) && d.options == c.options && d.timedOut == c.timedOut
    requires s.Resolved? ==> d.log.outChunks == c.log.outChunks && d.log.errChunks == c.log.errChunks
    requires d.parentSignalPending == c.parentSignalPending
    requires c.log.close.Some? ==> d.log.close == c.log.close
    requires c.stdout.truncatedChars <= d.stdout.truncatedChars
    requires c.log.seenDead ==> d.log.seenDead
    requires c.log.Killed() ==> d.log.Killed()
    requires c.log.errorSeen ==> d.log.errorSeen
    ensures SettledRightly(d, s)
  {}

  /** What settling needs of the flags; it ignores the ones settling resets. */
  ghost predicate ReadyToSettle(c: Call) {
    && CapturesInv(c)
    && FlagsInv(c.(settled := true, log := c.log.(settlements := [TimedOut]), timeoutArmed := false, listening := false,
                   killTimer := if c.parentSignalPending.None? then Off else c.killTimer))
    && |c.log.settlements| == (if c.settled then 1 else 0)
    && (c.settled ==> Inv(c))
  }

  lemma SettleKeepsInv(c: Call, s: Settlement)
    requires ReadyToSettle(c)
    requires !c.settled ==> SettledRightly(c, s)
    ensures Inv(Settle(c, s))
  {
    if !c.settled {
      SettledRightlyLasts(c, Settle(c, s), s);
    }
  }

  lemma KillTimerKeepsInv(c: Call, note: string)
    requires Inv(c) && c.killTimer != Off
    ensures Inv(OnKillTimer(c, note))
  {
    var k := SignalChild(c.(waitingForKillGrace := false, killTimer := Off), SIGKILL, note);
    StderrKeepsCaptures(c, note);
    if c.settled {
      SettledRightlyLasts(c, k, c.log.settlements[0]);
    }
    if c.killTimer == Grace && k.childClosedResult.Some? {
      CloseOutcomeIsRight(k, k.childClosedResult.value);
      SettleKeepsInv(k, CloseOutcome(k, k.childClosedResult.value));
    }
  }

  lemma CloseKeepsInv(c: Call, exit: Exit, alive: bool)
    requires Inv(c) && c.log.close.None?
    ensures Inv(OnClose(c, exit, alive))
  {
    if c.parentSignalPending.Some? {
      CloseUnderSignalKeepsInv(c, exit, alive);
    } else if c.waitingForKillGrace && alive {
      CloseInGraceKeepsInv(c, exit);
    } else {
      var k := Closed(c, exit, c.waitingForKillGrace);
      if c.settled {
        SettledRightlyLasts(c, k, c.log.settlements[0]);
      } else {
        CloseOutcomeIsRight(k, exit);
      }
      SettleKeepsInv(k, CloseOutcome(k, exit));
    }
  }

  lemma CloseUnderSignalKeepsInv(c: Call, exit: Exit, alive: bool)
    requires Inv(c) && c.parentSignalPending.Some? && c.log.close.None?
    ensures Inv(OnClose(c, exit, alive))
  {
    if c.settled {
      SettledRightlyLasts(c, OnClose(c, exit, alive), c.log.settlements[0]);
    }
  }

  lemma CloseInGraceKeepsInv(c: Call, exit: Exit)
    requires Inv(c) && c.parentSignalPending.None? && c.waitingForKillGrace && c.log.close.None?
    ensures Inv(OnClose(c, exit, true))
  {
    if c.settled {
      SettledRightlyLasts(c, OnClose(c, exit, true), c.log.settlements[0]);
    }
  }

  lemma StdoutKeepsInv(c: Call, chunk: string)
    requires Inv(c) && c.log.close.None?
    ensures Inv(OnStdout(c, chunk))
  {
    var d := OnStdout(c, chunk);
    assert d.log.outChunks[..|c.log.outChunks|] == c.log.outChunks;
    assert CapturesInv(d);
    if c.settled {
      assert c.stdout.truncatedChars <= d.stdout.truncatedChars;
      SettledRightlyLasts(c, d, c.log.settlements[0]);
    }
  }

  lemma StderrKeepsCaptures(c: Call, chunk: string)
    requires CapturesInv(c)
    ensures CapturesInv(OnStderr(c, chunk))
  {
    assert (c.log.errChunks + [chunk])[..|c.log.errChunks|] == c.log.errChunks;
  }

  lemma StderrKeepsInv(c: Call, chunk: string)
    requires Inv(c) && c.log.close.None?
    ensures Inv(OnStderr(c, chunk))
  {
    StderrKeepsCaptures(c, chunk);
    if c.settled {
      SettledRightlyLasts(c, OnStderr(c, chunk), c.log.settlements[0]);
    }
  }

  lemma TimeoutKeepsInv(c: Call, note: string)
    requires Inv(c) && c.timeoutArmed
    ensures Inv(OnTimeout(c, note))
  {
    StderrKeepsCaptures(c, note);
  }

  lemma ErrorKeepsInv(c: Call)
    requires Inv(c)
    ensures Inv(OnError(c))
  {
    var k := c.(log := c.log.(errorSeen := true));
    if c.settled {
      SettledRightlyLasts(c, k, c.log.settlements[0]);
    }
    SettleKeepsInv(k, SpawnError);
  }

  lemma ParentSignalKeepsInv(c: Call, signal: Signal, note: string, alive: bool)
    requires Inv(c) && c.listening
    ensures Inv(OnParentSignal(c, signal, note, alive))
  {
    StderrKeepsCaptures(c, note);
  }

  // ----- Many calls, one registry -----

  type Id = nat

  /** All calls ever started and the ids whose state is in the shared set. */
  datatype System = System(calls: map<Id, Call>, active: set<Id>)

  datatype Event =
    | Start(id: Id, options: Options)
    | Stdout(id: Id, chunk: string)
    | Stderr(id: Id, chunk: string)
    | Timeout(id: Id, note: string)
    | KillTimerFires(id: Id, note: string)
    | ChildError(id: Id)
    | ChildClose(id: Id, exit: Exit, alive: bool)
    | ParentSignal(id: Id, signal: Signal, note: string, alive: bool)

  /**
   May the event happen? Timers must be armed, `once` listeners fire once, and a child that
   closed has closed its output streams.
   */
  predicate Enabled(s: System, e: Event) {
    if e.Start? then e.id !in s.calls
    else
      && e.id in s.calls
      && var c := s.calls[e.id];
         match e
         case Timeout(_, _) => c.timeoutArmed
         case KillTimerFires(_, _) => c.killTimer != Off
         case Stdout(_, _) => c.log.close.None?
         case Stderr(_, _) => c.log.close.None?
         case ChildError(_) => !c.log.errorSeen
         case ChildClose(_, _, _) => c.log.close.None?
         case ParentSignal(_, signal, _, _) => c.listening && signal != SIGKILL
  }

  function CallAfter(c: Call, e: Event): Call
    requires !e.Start?
  {
    match e
    case Stdout(_, chunk) => OnStdout(c, chunk)
    case Stderr(_, chunk) => OnStderr(c, chunk)
    case Timeout(_, note) => OnTimeout(c, note)
    case KillTimerFires(_, note) => OnKillTimer(c, note)
    case ChildError(_) => OnError(c)
    case ChildClose(_, exit, alive) => OnClose(c, exit, alive)
    case ParentSignal(_, signal, note, alive) => OnParentSignal(c, signal, note, alive)
  }

  /** A call leaves the registry when it settles with no relayed signal pending. */
  predicate Leaves(before: Call, after: Call) {
    !before.settled && after.settled && after.parentSignalPending.None?
  }

  function Next(s: System, e: Event): System
    requires Enabled(s, e)
  {
    if e.Start? then System(s.calls[e.id := StartCall(e.options)], s.active + {e.id})
    else
      var before, after := s.calls[e.id], CallAfter(s.calls[e.id], e);
      System(s.calls[e.id := after], if Leaves(before, after) then s.active - {e.id} else s.active)
  }

  /** The signal with which the callback ends in `maybeReraiseRunProcessParentSignal`, if it does. */
  function ReraiseAttempt(before: Call, e: Event): Option<Signal> {
    match e
    case KillTimerFires(_, _) => if before.killTimer.ParentGrace? then Some(before.killTimer.signal) else None
    case ChildClose(_, _, alive) => if alive then None else before.parentSignalPending
    case ParentSignal(_, signal, _, alive) => if alive then None else Some(signal)
    case _ => None
  }

  /** The check of `maybeReraiseRunProcessParentSignal` over the registry. */
  ghost predicate AllReady(s: System) {
    forall id :: id in s.active && id in s.calls ==> s.calls[id].stateSignal.Some? && s.calls[id].done
  }

  ghost predicate Reraises(s: System, e: Event)
    requires Enabled(s, e)
  {
    !e.Start? && ReraiseAttempt(s.calls[e.id], e).Some? && AllReady(Next(s, e))
  }

  /** The registry holds exactly the calls that are unsettled or have a signal pending. */
  ghost predicate SystemInv(s: System) {
    && s.active <= s.calls.Keys
    && forall id :: id in s.calls ==>
         Inv(s.calls[id]) && (id in s.active <==> !s.calls[id].settled || s.calls[id].parentSignalPending.Some?)
  }

  lemma CallbackKeepsInv(s: System, e: Event)
    requires Enabled(s, e) && !e.Start? && Inv(s.calls[e.id])
    ensures Inv(CallAfter(s.calls[e.id], e))
  {
    var c := s.calls[e.id];
    match e
    case Stdout(_, chunk) => StdoutKeepsInv(c, chunk);
    case Stderr(_, chunk) => StderrKeepsInv(c, chunk);
    case Timeout(_, note) => TimeoutKeepsInv(c, note);
    case KillTimerFires(_, note) => KillTimerKeepsInv(c, note);
    case ChildError(_) => ErrorKeepsInv(c);
    case ChildClose(_, exit, alive) => CloseKeepsInv(c, exit, alive);
    case ParentSignal(_, signal, note, alive) => ParentSignalKeepsInv(c, signal, note, alive);
  }

  /** Settlements, once made, stay; and a settled call never changes its pending signal. */
  ghost predicate Lasts(c: Call, d: Call) {
    && (c.settled ==>
          d.settled && d.log.settlements == c.log.settlements && d.parentSignalPending == c.parentSignalPending)
    && (c.parentSignalPending.Some? ==> d.parentSignalPending.Some?)
  }

  lemma CallbackLasts(s: System, e: Event)
    requires Enabled(s, e) && !e.Start?
    requires s.calls[e.id].settled ==> !s.calls[e.id].listening
    ensures Lasts(s.calls[e.id], CallAfter(s.calls[e.id], e))
  {
    var c := s.calls[e.id];
    match e
    case KillTimerFires(_, note) => KillTimerLasts(c, note);
    case ChildClose(_, exit, alive) => CloseLasts(c, exit, alive);
    case _ =>
  }

  lemma SettleLasts(c: Call, s: Settlement)
    ensures Lasts(c, Settle(c, s))
  {}

  lemma KillTimerLasts(c: Call, note: string)
    ensures Lasts(c, OnKillTimer(c, note))
  {
    var k := SignalChild(c.(waitingForKillGrace := false, killTimer := Off), SIGKILL, note);
    SettleLasts(k, CloseOutcome(k, k.childClosedResult.GetOr(Exit(None, None))));
  }

  lemma CloseLasts(c: Call, exit: Exit, alive: bool)
    ensures Lasts(c, OnClose(c, exit, alive))
  {
    var k := Closed(c, exit, c.waitingForKillGrace);
    SettleLasts(k, CloseOutcome(k, exit));
  }

  lemma StepKeepsSystemInv(s: System, e: Event)
    requires SystemInv(s) && Enabled(s, e)
    ensures SystemInv(Next(s, e))
  {
    var next := Next(s, e);
    if e.Start? {
      StartKeepsInv(e.options);
    } else {
      CallbackKeepsInv(s, e);
      CallbackLasts(s, e);
    }
    forall id | id in next.calls
      ensures Inv(next.calls[id])
      ensures id in next.active <==> !next.calls[id].settled || next.calls[id].parentSignalPending.Some?
    {
      if id != e.id {
        assert next.calls[id] == s.calls[id];
      }
    }
  }

  // ----- Whole runs -----

  const INITIAL := System(map[], {})

  /** `states[i]` is the system before event `i`; any order of enabled events is a run. */
  ghost predicate Run(states: seq<System>, events: seq<Event>) {
    && |states| == |events| + 1
    && states[0] == INITIAL
    && forall i :: 0 <= i < |events| ==> Enabled(states[i], events[i]) && states[i + 1] == Next(states[i], events[i])
  }

  /** A run goes on with any event that is enabled in its last state. */
  lemma RunExtends(states: seq<System>, events: seq<Event>, e: Event)
    requires Run(states, events) && Enabled(states[|events|], e)
    ensures Run(states + [Next(states[|events|], e)], events + [e])
  {}

  lemma {:induction false} RunKeepsInv(states: seq<System>, events: seq<Event>, i: nat)
    requires Run(states, events) && i <= |events|
    ensures SystemInv(states[i])
  {
    if i > 0 {
      RunKeepsInv(states, events, i - 1);
      StepKeepsSystemInv(states[i - 1], events[i - 1]);
    }
  }

  lemma {:induction false} SettlementsLast(states: seq<System>, events: seq<Event>, i: nat, j: nat, id: Id)
    requires Run(states, events) && i <= j <= |events|
    requires id in states[i].calls
    ensures id in states[j].calls && states[i].calls[id].log.settlements <= states[j].calls[id].log.settlements
    decreases j - i
  {
    if i < j {
      RunKeepsInv(states, events, i);
      if !events[i].Start? && events[i].id == id {
        CallbackLasts(states[i], events[i]);
      }
      SettlementsLast(states, events, i + 1, j, id);
    }
  }

  /**
   Over every interleaving: a call settles at most once; it never resolves after its timeout
   fired; a timed-out settlement comes after the group was seen dead or SIGKILL was issued; a
   resolution comes after the close and carries the last `maxOutputChars` of everything ever
   received on each stream, all of stdout if the code is 0.
   */
  lemma CallsSettleOnceAndRightly(states: seq<System>, events: seq<Event>, i: nat, id: Id)
    requires Run(states, events) && i <= |events| && id in states[i].calls
    ensures var c := states[i].calls[id];
            && |c.log.settlements| <= 1
            && (forall s :: s in c.log.settlements ==> SettledRightly(c, s))
            && RecordedFrom(c.log, events, i, id)
  {
    assert Inv(states[i].calls[id]) by {
      RunKeepsInv(states, events, i);
    }
    InvSettles(states[i].calls[id]);
    RecordsAreEvents(states, events, i, id);
  }

  lemma InvSettles(c: Call)
    requires Inv(c)
    ensures |c.log.settlements| <= 1 && forall s :: s in c.log.settlements ==> SettledRightly(c, s)
  {}

  predicate IsFor(e: Event, id: Id) {
    !e.Start? && e.id == id
  }

  /** The pieces the events deliver on the call's stdout. */
  function OutPieces(events: seq<Event>, n: nat, id: Id): seq<string>
    requires n <= |events|
  {
    if n == 0 then []
    else OutPieces(events, n - 1, id) + (if IsFor(events[n - 1], id) then OutOf(events[n - 1]) else [])
  }

  /** The pieces of the call's stderr: what arrives, and the notes of signals it tried to send. */
  function ErrPieces(events: seq<Event>, n: nat, id: Id): seq<string>
    requires n <= |events|
  {
    if n == 0 then []
    else ErrPieces(events, n - 1, id) + (if IsFor(events[n - 1], id) then ErrOf(events[n - 1]) else [])
  }

  function CloseOf(events: seq<Event>, n: nat, id: Id): Option<Exit>
    requires n <= |events|
  {
    if n == 0 then None
    else if events[n - 1].ChildClose? && events[n - 1].id == id then Some(events[n - 1].exit)
    else CloseOf(events, n - 1, id)
  }

  /** The pieces and the close on record are the ones the events delivered. */
  ghost predicate RecordedFrom(log: Log, events: seq<Event>, n: nat, id: Id)
    requires n <= |events|
  {
    && log.outChunks == OutPieces(events, n, id)
    && log.errChunks == ErrPieces(events, n, id)
    && log.close == CloseOf(events, n, id)
  }

  /** What is recorded of a call is what the events of the run delivered to it. */
  lemma {:induction false} RecordsAreEvents(states: seq<System>, events: seq<Event>, i: nat, id: Id)
    requires Run(states, events) && i <= |events|
    ensures RecordedFrom(if id in states[i].calls then states[i].calls[id].log else NO_LOG, events, i, id)
  {
    if i > 0 {
      RecordsAreEvents(states, events, i - 1, id);
      if !events[i - 1].Start? && events[i - 1].id == id {
        CallbackRecords(states[i - 1].calls[id], events[i - 1]);
      }
    }
  }

  /** `after` is `before` with more pieces and the given close. */
  ghost predicate Grew(before: Log, after: Log, out: seq<string>, err: seq<string>, close: Option<Exit>) {
    after.outChunks == before.outChunks + out && after.errChunks == before.errChunks + err && after.close == close
  }

  lemma SettleRecordsNothing(c: Call, s: Settlement)
    ensures Grew(c.log, Settle(c, s).log, [], [], c.log.close)
  {}

  lemma KillTimerRecords(c: Call, note: string)
    ensures Grew(c.log, OnKillTimer(c, note).log, [], [note], c.log.close)
  {
    var k := SignalChild(c.(waitingForKillGrace := false, killTimer := Off), SIGKILL, note);
    SettleRecordsNothing(k, CloseOutcome(k, k.childClosedResult.GetOr(Exit(None, None))));
  }

  lemma TimeoutRecords(c: Call, note: string)
    ensures Grew(c.log, OnTimeout(c, note).log, [], [note], c.log.close)
  {}

  lemma ParentSignalRecords(c: Call, signal: Signal, note: string, alive: bool)
    ensures Grew(c.log, OnParentSignal(c, signal, note, alive).log, [], [note], c.log.close)
  {}

  lemma CloseRecords(c: Call, exit: Exit, alive: bool)
    ensures Grew(c.log, OnClose(c, exit, alive).log, [], [], Some(exit))
  {
    if c.parentSignalPending.None? && !(c.waitingForKillGrace && alive) {
      var k := Closed(c, exit, c.waitingForKillGrace);
      SettleRecordsNothing(k, CloseOutcome(k, exit));
      assert OnClose(c, exit, alive) == FinishClose(k, exit);
    } else {
      assert OnClose(c, exit, alive).log == Closed(c, exit, c.parentSignalPending.Some? && !alive).log;
    }
  }

  /** The pieces one event adds to stdout and to stderr. */
  function OutOf(e: Event): seq<string> {
    if e.Stdout? then [e.chunk] else []
  }

  function ErrOf(e: Event): seq<string> {
    match e
    case Stderr(_, chunk) => [chunk]
    case Timeout(_, note) => [note]
    case KillTimerFires(_, note) => [note]
    case ParentSignal(_, _, note, _) => [note]
    case _ => []
  }

  lemma CallbackRecords(c: Call, e: Event)
    requires !e.Start?
    ensures Grew(c.log, CallAfter(c, e).log, OutOf(e), ErrOf(e), if e.ChildClose? then Some(e.exit) else c.log.close)
  {
    match e
    case Stdout(_, chunk) => assert Grew(c.log, OnStdout(c, chunk).log, [chunk], [], c.log.close);
    case Stderr(_, chunk) => assert Grew(c.log, OnStderr(c, chunk).log, [], [chunk], c.log.close);
    case Timeout(_, note) => TimeoutRecords(c, note);
    case KillTimerFires(_, note) => KillTimerRecords(c, note);
    case ChildError(_) => SettleRecordsNothing(c.(log := c.log.(errorSeen := true)), SpawnError);
    case ChildClose(_, exit, alive) => CloseRecords(c, exit, alive);
    case ParentSignal(_, signal, note, alive) => ParentSignalRecords(c, signal, note, alive);
  }

  /**
   Re-raise safety for any number of concurrent calls: when the parent signal is re-raised,
   every call ever started has settled with no signal pending, or has recorded the signal
   and its group was seen dead or was sent SIGKILL. The signal re-raised is the one that the
   call attempting it has recorded.
   */
  lemma ReraiseIsSafe(states: seq<System>, events: seq<Event>, i: nat)
    requires Run(states, events) && i < |events| && Reraises(states[i], events[i])
    ensures var id := events[i].id;
            states[i + 1].calls[id].stateSignal == ReraiseAttempt(states[i].calls[id], events[i])
    ensures AllSafeToReraise(states[i + 1])
  {
    var next := states[i + 1];
    RunKeepsInv(states, events, i);
    RunKeepsInv(states, events, i + 1);
    forall id | id in next.calls
      ensures SafeToReraise(next.calls[id])
    {
      if id in next.active {
        assert next.calls[id].done;
      }
    }
  }

  ghost predicate SafeToReraise(c: Call) {
    || (c.settled && c.parentSignalPending.None?)
    || (c.stateSignal.Some? && (c.log.seenDead || c.log.Killed()))
  }

  ghost predicate AllSafeToReraise(s: System) {
    forall id :: id in s.calls ==> SafeToReraise(s.calls[id])
  }

  /**
   A call whose child closed is never stuck: without a relayed signal it has settled, or its
   grace timer is armed and will reject it as timed out.
   */
  lemma ClosedCallSettles(states: seq<System>, events: seq<Event>, i: nat, id: Id, note: string)
    requires Run(states, events) && i <= |events| && id in states[i].calls
    requires var c := states[i].calls[id];
             c.log.close.Some? && c.parentSignalPending.None? && !c.settled
    ensures Enabled(states[i], KillTimerFires(id, note))
    ensures OnKillTimer(states[i].calls[id], note).log.settlements == [TimedOut]
  {
    RunKeepsInv(states, events, i);
  }

  /** A recorded parent signal is never forgotten: the call is done or its kill timer is armed. */
  lemma RecordedSignalIsHandled(states: seq<System>, events: seq<Event>, i: nat, id: Id, note: string)
    requires Run(states, events) && i <= |events| && id in states[i].calls
    requires states[i].calls[id].stateSignal.Some? && !states[i].calls[id].done
    ensures Enabled(states[i], KillTimerFires(id, note))
    ensures OnKillTimer(states[i].calls[id], note).done
    ensures ReraiseAttempt(states[i].calls[id], KillTimerFires(id, note)) == states[i].calls[id].stateSignal
  {
    RunKeepsInv(states, events, i);
  }
}
