/**
 What became of a command of the cross-OS checks, told from the events of a run alone: which
 event finished it, how it settled, what it was sent, and when the process exits.
 */
module CrossOsEvents {
  import opened Wrappers
  import opened CrossOsCommands

  // ----- What the first `n` events say of a child -----

  function KindGiven(events: seq<Event>, n: nat, id: Id): Option<Kind>
    requires n <= |events|
  {
    if n == 0 then None
    else if events[n - 1].Start? && events[n - 1].id == id then Some(events[n - 1].kind)
    else KindGiven(events, n - 1, id)
  }

  predicate LeavesAt(e: Event, id: Id) {
    (e.ChildClose? || e.ChildError?) && e.id == id
  }

  /** The child closed or failed, which takes it out of the registry. */
  predicate Left(events: seq<Event>, n: nat, id: Id)
    requires n <= |events|
  {
    n > 0 && (Left(events, n - 1, id) || LeavesAt(events[n - 1], id))
  }

  predicate RegisteredBy(events: seq<Event>, n: nat, id: Id)
    requires n <= |events|
  {
    KindGiven(events, n, id).Some? && !Left(events, n, id)
  }

  predicate FinishesAt(e: Event, id: Id) {
    LeavesAt(e, id) || e == KillWaitFires(id)
  }

  /** The first event that finishes a command: its close, its error, or the end of its kill wait. */
  function FinishAt(events: seq<Event>, n: nat, id: Id): (k: Option<nat>)
    requires n <= |events|
    ensures k.Some? ==> k.value < n && FinishesAt(events[k.value], id)
                        && forall j :: 0 <= j < k.value ==> !FinishesAt(events[j], id)
    ensures k.None? ==> forall j :: 0 <= j < n ==> !FinishesAt(events[j], id)
  {
    if n == 0 then None
    else if FinishAt(events, n - 1, id).Some? then FinishAt(events, n - 1, id)
    else if FinishesAt(events[n - 1], id) then Some(n - 1)
    else None
  }

  /** The first time its log is reported to have ended. */
  function LogEndAt(events: seq<Event>, n: nat, id: Id): (k: Option<nat>)
    requires n <= |events|
    ensures k.Some? ==> k.value < n && events[k.value].LogEnds? && events[k.value].id == id
  {
    if n == 0 then None
    else if LogEndAt(events, n - 1, id).Some? then LogEndAt(events, n - 1, id)
    else if events[n - 1].LogEnds? && events[n - 1].id == id then Some(n - 1)
    else None
  }

  predicate Forwarded(events: seq<Event>, n: nat)
    requires n <= |events|
  {
    FirstSignal(events, n).Some?
  }

  /** What event `k`, finishing a command, leaves to do. */
  function LeftToDo(events: seq<Event>, k: nat): Callback
    requires k < |events|
  {
    match events[k]
    case ChildClose(_, exitCode) => if Forwarded(events, k) then ExitWhenDone else Report(exitCode)
    case ChildError(_) => RejectError
    case _ => RejectUnkillable
  }

  // ----- The flags of a child are what the events say -----

  datatype Flags = Flags(
    kind: Kind,
    registered: bool,
    timedOut: bool,
    callback: Option<Callback>,
    completed: bool,
    timerArmed: bool,
    killWaitArmed: bool)

  function FlagsOf(c: Child): Flags {
    Flags(c.kind, c.registered, c.timedOut, c.callback, c.completed, c.timerArmed, c.killWaitArmed)
  }

  function FlagsFrom(kind: Kind, events: seq<Event>, n: nat, id: Id): Flags
    requires n <= |events|
  {
    var finish, timedOut := if kind.Command? then FinishAt(events, n, id) else None, TimerFired(events, n, id);
    Flags(kind, !Left(events, n, id), timedOut,
          if finish.Some? then Some(LeftToDo(events, finish.value)) else None,
          LogEndAt(events, n, id).Some?,
          kind.Command? && kind.hasTimeout && finish.None? && !timedOut,
          kind.Command? && finish.None? && timedOut)
  }

  /** What one event of the child changes; `forwarded` says that a signal came before. */
  function FlagsAfter(f: Flags, e: Event, forwarded: bool): Flags {
    match e
    case Timeout(_) => f.(timedOut := true, timerArmed := false, killWaitArmed := true)
    case KillWaitFires(_) => Finished(f, RejectUnkillable)
    case ChildError(_) => Finished(f, RejectError).(registered := false)
    case ChildClose(_, exitCode) =>
      Finished(f, if forwarded then ExitWhenDone else Report(exitCode)).(registered := false)
    case LogEnds(_, _) => f.(completed := true)
    case _ => f
  }

  function Finished(f: Flags, callback: Callback): Flags {
    if f.kind.Gateway? || f.callback.Some? then f
    else f.(callback := Some(callback), timerArmed := false, killWaitArmed := false)
  }

  lemma FinalizeFlags(c: Child, callback: Callback)
    requires c.kind.Command? && (c.settled <==> c.callback.Some?)
    ensures FlagsOf(Finalize(c, callback)) == Finished(FlagsOf(c), callback)
  {}

  lemma LeaveFlags(c: Child, forwarded: bool)
    ensures FlagsOf(Leave(c, forwarded)) == FlagsOf(c).(registered := false)
  {}

  lemma ErrorFlags(c: Child, forwarded: bool)
    requires ChildInv(c)
    ensures FlagsOf(OnError(c, forwarded)) == Finished(FlagsOf(c), RejectError).(registered := false)
  {
    var k := c.(log := c.log.(errorSeen := true));
    LeaveFlags(k, forwarded);
    if c.kind.Command? {
      FinalizeFlags(Leave(k, forwarded), RejectError);
    }
  }

  lemma CloseFlags(c: Child, exitCode: Option<int>, forwarded: bool)
    requires ChildInv(c)
    ensures FlagsOf(OnClose(c, exitCode, forwarded))
         == Finished(FlagsOf(c), if forwarded then ExitWhenDone else Report(exitCode)).(registered := false)
  {
    var k := c.(log := c.log.(exit := Some(exitCode), closedLate := forwarded));
    LeaveFlags(k, forwarded);
    if c.kind.Command? {
      FinalizeFlags(Leave(k, forwarded), if forwarded then ExitWhenDone else Report(exitCode));
    }
  }

  lemma KillWaitFlags(c: Child)
    requires ChildInv(c) && c.killWaitArmed
    ensures FlagsOf(OnKillWait(c)) == Finished(FlagsOf(c), RejectUnkillable)
  {
    FinalizeFlags(c.(killWaitArmed := false), RejectUnkillable);
  }

  lemma ChildStepFlags(c: Child, e: Event, forwarded: bool)
    requires ChildInv(c) && OfChild(e) && (e.LogEnds? ==> c.callback.Some?) && (e.KillWaitFires? ==> c.killWaitArmed)
    ensures FlagsOf(ChildStep(c, e, forwarded)) == FlagsAfter(FlagsOf(c), e, forwarded)
  {
    match e
    case Timeout(_) => assert FlagsOf(OnTimeout(c)) == FlagsAfter(FlagsOf(c), e, forwarded);
    case KillWaitFires(_) => KillWaitFlags(c);
    case ChildError(_) => ErrorFlags(c, forwarded);
    case ChildClose(_, exitCode) => CloseFlags(c, exitCode, forwarded);
    case LogEnds(_, failed) => assert FlagsOf(OnLogEnd(c, failed)) == FlagsOf(c).(completed := true);
  }

  /** The event may happen to a child with these flags. */
  predicate Possible(f: Flags, e: Event) {
    match e
    case Timeout(_) => f.timerArmed
    case KillWaitFires(_) => f.killWaitArmed
    case LogEnds(_, _) => f.callback.Some?
    case _ => true
  }

  lemma FlagsOneMore(kind: Kind, events: seq<Event>, n: nat, id: Id)
    requires n < |events|
    requires OfChild(events[n]) && events[n].id == id ==> Possible(FlagsFrom(kind, events, n, id), events[n])
    ensures FlagsFrom(kind, events, n + 1, id)
         == if OfChild(events[n]) && events[n].id == id
            then FlagsAfter(FlagsFrom(kind, events, n, id), events[n], Forwarded(events, n))
            else FlagsFrom(kind, events, n, id)
  {}

  lemma {:induction false} NothingBeforeStart(states: seq<Process>, events: seq<Event>, i: nat, id: Id, kind: Kind)
    requires Run(states, events) && i <= |events| && id !in states[i].children
    ensures KindGiven(events, i, id).None?
    ensures FlagsFrom(kind, events, i, id) == FlagsOf(StartChild(kind))
  {
    if i > 0 {
      NothingBeforeStart(states, events, i - 1, id, kind);
      FlagsOneMore(kind, events, i - 1, id);
    }
  }

  /** Other events leave a child's flags alone; its own change them as they say. */
  lemma StepFlags(p: Process, e: Event, id: Id)
    requires Inv(p) && Enabled(p, e) && id in p.children
    ensures id in Next(p, e).children
    ensures FlagsOf(Next(p, e).children[id])
         == if OfChild(e) && e.id == id then FlagsAfter(FlagsOf(p.children[id]), e, p.exitCode.Some?)
            else FlagsOf(p.children[id])
  {
    if OfChild(e) && e.id == id {
      ChildStepFlags(p.children[id], e, p.exitCode.Some?);
    }
  }

  /** A child is there exactly when it was started, and of the kind it was started as. */
  predicate HasKind(p: Process, id: Id, kind: Option<Kind>) {
    if id in p.children then kind == Some(p.children[id].kind) else kind.None?
  }

  lemma StepKind(p: Process, e: Event, id: Id, kind: Option<Kind>)
    requires Inv(p) && Enabled(p, e) && HasKind(p, id, kind)
    ensures HasKind(Next(p, e), id, if e.Start? && e.id == id then Some(e.kind) else kind)
    ensures e.Start? && e.id == id ==> kind.None?
  {
    if id in p.children {
      StepFlags(p, e, id);
      assert e.Start? ==> e.id != id;
    }
  }

  lemma {:induction false} KindIsGiven(states: seq<Process>, events: seq<Event>, i: nat, id: Id)
    requires Run(states, events) && i <= |events|
    ensures HasKind(states[i], id, KindGiven(events, i, id))
  {
    if i > 0 {
      KindIsGiven(states, events, i - 1, id);
      RunKeepsInv(states, events, i - 1);
      StepKind(states[i - 1], events[i - 1], id, KindGiven(events, i - 1, id));
    }
  }

  /** A child is started once. */
  lemma {:induction false} GivenOnce(states: seq<Process>, events: seq<Event>, k: nat, i: nat, id: Id)
    requires Run(states, events) && k <= i <= |events| && KindGiven(events, k, id).Some?
    ensures KindGiven(events, i, id) == KindGiven(events, k, id)
  {
    if k < i {
      GivenOnce(states, events, k, i - 1, id);
      KindIsGiven(states, events, i - 1, id);
      RunKeepsInv(states, events, i - 1);
      StepKind(states[i - 1], events[i - 1], id, KindGiven(events, i - 1, id));
    }
  }

  /**
   In every run the flags and timers of a child are those its events tell: its kind as started,
   registered until it closed or failed, finished by the first of close, error and kill wait.
   */
  lemma {:induction false} FlagsAreEvents(states: seq<Process>, events: seq<Event>, i: nat, id: Id)
    requires Run(states, events) && i <= |events| && id in states[i].children
    ensures var c := states[i].children[id];
            FlagsOf(c) == FlagsFrom(c.kind, events, i, id) && KindGiven(events, i, id) == Some(c.kind)
  {
    KindIsGiven(states, events, i, id);
    FlagsAreFrom(states, events, i, id, states[i].children[id].kind);
  }

  lemma {:induction false} FlagsAreFrom(states: seq<Process>, events: seq<Event>, i: nat, id: Id, kind: Kind)
    requires Run(states, events) && i <= |events| && id in states[i].children && states[i].children[id].kind == kind
    ensures FlagsOf(states[i].children[id]) == FlagsFrom(kind, events, i, id)
  {
    if id !in states[i - 1].children {
      NothingBeforeStart(states, events, i - 1, id, kind);
      FlagsOneMore(kind, events, i - 1, id);
    } else {
      StepFlagsKind(states, events, i - 1, id);
      FlagsAreFrom(states, events, i - 1, id, kind);
      RunKeepsInv(states, events, i - 1);
      FirstIsRecorded(states, events, i - 1);
      StepFlags(states[i - 1], events[i - 1], id);
      FlagsOneMore(kind, events, i - 1, id);
    }
  }

  /** A command with a time limit can time out until it finished or did; then it waits for its kill. */
  lemma UnfinishedIsArmed(states: seq<Process>, events: seq<Event>, i: nat, id: Id)
    requires Run(states, events) && i <= |events| && states[i].exited.None? && id in states[i].children
    ensures Enabled(states[i], Timeout(id)) <==>
              var kind := KindGiven(events, i, id).GetOr(Gateway);
              kind.Command? && kind.hasTimeout && FinishAt(events, i, id).None? && !TimerFired(events, i, id)
    ensures Enabled(states[i], KillWaitFires(id)) <==>
              && KindGiven(events, i, id).GetOr(Gateway).Command?
              && FinishAt(events, i, id).None? && TimerFired(events, i, id)
    ensures forall failed :: Enabled(states[i], LogEnds(id, failed)) <==>
              KindGiven(events, i, id).GetOr(Gateway).Command? && FinishAt(events, i, id).Some?
  {
    FlagsAreEvents(states, events, i, id);
    RunKeepsInv(states, events, i);
  }

  // ----- How a command settles -----

  /** What the end of the log at event `k` settles a command with, when event `f` finished it. */
  function Verdict(kind: Kind, events: seq<Event>, f: nat, k: nat, id: Id): seq<Settlement>
    requires kind.Command? && f < |events| && k < |events| && events[k].LogEnds?
  {
    if events[k].failed then [LogFailed]
    else
      match events[f]
      case ChildError(_) => [SpawnError]
      case ChildClose(_, exitCode) =>
        var code := exitCode.GetOr(1);
        if Forwarded(events, f) then []
        else if TimerFired(events, f, id) then [TimedOut]
        else if kind.check && code != 0 then [Failed(code)]
        else [Resolved(code)]
      case _ => [Unkillable]
  }

  lemma FinishedCannotTimeOut(states: seq<Process>, events: seq<Event>, k: nat, id: Id)
    requires Run(states, events) && k < |events| && id in states[k].children && states[k].children[id].kind.Command?
    requires FinishAt(events, k, id).Some?
    ensures events[k] != Timeout(id)
  {
    FlagsAreEvents(states, events, k, id);
  }

  lemma {:induction false} TimerStays(events: seq<Event>, f: nat, n: nat, id: Id)
    requires f <= n <= |events| && forall k :: f <= k < n ==> events[k] != Timeout(id)
    ensures TimerFired(events, n, id) <==> TimerFired(events, f, id)
  {
    if f < n {
      TimerStays(events, f, n - 1, id);
    }
  }

  lemma KindStays(states: seq<Process>, events: seq<Event>, k: nat, i: nat, id: Id)
    requires Run(states, events) && k <= i <= |events| && id in states[k].children
    ensures id in states[i].children && states[i].children[id].kind == states[k].children[id].kind
  {
    KindIsGiven(states, events, k, id);
    KindIsGiven(states, events, i, id);
    GivenOnce(states, events, k, i, id);
  }

  lemma NoTimeoutAfterFinish(states: seq<Process>, events: seq<Event>, i: nat, id: Id)
    requires Run(states, events) && i <= |events| && id in states[i].children && states[i].children[id].kind.Command?
    requires FinishAt(events, i, id).Some?
    ensures TimerFired(events, i, id) <==> TimerFired(events, FinishAt(events, i, id).value, id)
  {
    var f := FinishAt(events, i, id).value;
    assert id in states[f].children;
    forall k | f <= k < i ensures events[k] != Timeout(id) {
      if k > f {
        KindStays(states, events, f, k, id);
        KindStays(states, events, k, i, id);
        FinishedCannotTimeOut(states, events, k, id);
      }
    }
    TimerStays(events, f, i, id);
  }

  lemma StepFlagsKind(states: seq<Process>, events: seq<Event>, k: nat, id: Id)
    requires Run(states, events) && k < |events| && id in states[k].children
    ensures id in states[k + 1].children && states[k + 1].children[id].kind == states[k].children[id].kind
  {
    RunKeepsInv(states, events, k);
    StepFlags(states[k], events[k], id);
  }

  /** The first end of a log settles as the verdict says; nothing else settles. */
  lemma LogEndSettles(c: Child, failed: bool, kind: Kind, events: seq<Event>, f: nat, k: nat, id: Id)
    requires ChildInv(c) && kind == c.kind && kind.Command? && !c.completed
    requires f < |events| && k < |events| && events[k] == LogEnds(id, failed) && FinishesAt(events[f], id)
    requires c.callback == Some(LeftToDo(events, f)) && (c.timedOut <==> TimerFired(events, f, id))
    ensures OnLogEnd(c, failed).log.settlements == Verdict(kind, events, f, k, id)
  {}

  lemma OthersDoNotSettle(c: Child, e: Event, forwarded: bool)
    requires OfChild(e) && (e.LogEnds? ==> c.callback.Some? && c.completed)
    ensures ChildStep(c, e, forwarded).log.settlements == c.log.settlements
  {
    match e
    case ChildError(_) => assert OnError(c, forwarded).log.settlements == c.log.settlements;
    case ChildClose(_, exitCode) => assert OnClose(c, exitCode, forwarded).log.settlements == c.log.settlements;
    case _ =>
  }

  /**
   In every run a command is unsettled until its log has ended; then it is settled once, as
   the event that finished it, what came before that, and the end of the log say: not at all
   only if it closed after a forwarded signal.
   */
  lemma {:induction false} SettlementIsVerdict(states: seq<Process>, events: seq<Event>, i: nat, id: Id)
    requires Run(states, events) && i <= |events| && id in states[i].children
    ensures var c, k := states[i].children[id], LogEndAt(events, i, id);
            if k.None? then c.log.settlements == []
            else
              && c.kind.Command? && FinishAt(events, k.value, id).Some?
              && c.log.settlements == Verdict(c.kind, events, FinishAt(events, k.value, id).value, k.value, id)
  {
    var e := events[i - 1];
    if id !in states[i - 1].children {
      NothingBeforeStart(states, events, i - 1, id, states[i].children[id].kind);
      assert LogEndAt(events, i, id).None?;
    } else {
      SettlementIsVerdict(states, events, i - 1, id);
      StepFlagsKind(states, events, i - 1, id);
      StepSettles(states, events, i - 1, id);
    }
  }

  lemma LogEndStepSettles(states: seq<Process>, events: seq<Event>, k: nat, id: Id)
    requires Run(states, events) && k < |events| && id in states[k].children
    requires events[k].LogEnds? && events[k].id == id && LogEndAt(events, k, id).None?
    ensures var c := states[k].children[id];
            && c.kind.Command? && FinishAt(events, k, id).Some? && c.callback.Some?
            && OnLogEnd(c, events[k].failed).log.settlements
               == Verdict(c.kind, events, FinishAt(events, k, id).value, k, id)
  {
    var c := states[k].children[id];
    RunKeepsInv(states, events, k);
    FlagsAreEvents(states, events, k, id);
    assert FlagsOf(c).callback.Some?;
    NoTimeoutAfterFinish(states, events, k, id);
    LogEndSettles(c, events[k].failed, c.kind, events, FinishAt(events, k, id).value, k, id);
  }

  /** Other events settle nothing, and neither does a second end of the log. */
  lemma OtherStepSettlesNothing(p: Process, e: Event, id: Id)
    requires Inv(p) && Enabled(p, e) && id in p.children
    requires e.LogEnds? && e.id == id ==> p.children[id].completed
    ensures id in Next(p, e).children && Next(p, e).children[id].log.settlements == p.children[id].log.settlements
  {
    if OfChild(e) && e.id == id {
      OthersDoNotSettle(p.children[id], e, p.exitCode.Some?);
    }
  }

  lemma StepSettles(states: seq<Process>, events: seq<Event>, k: nat, id: Id)
    requires Run(states, events) && k < |events| && id in states[k].children
    ensures id in states[k + 1].children
    ensures var c, d, e := states[k].children[id], states[k + 1].children[id], events[k];
            if e.LogEnds? && e.id == id && LogEndAt(events, k, id).None?
            then
              && c.kind.Command? && FinishAt(events, k, id).Some?
              && d.log.settlements == Verdict(c.kind, events, FinishAt(events, k, id).value, k, id)
            else d.log.settlements == c.log.settlements
  {
    var e := events[k];
    if e.LogEnds? && e.id == id && LogEndAt(events, k, id).None? {
      LogEndStepSettles(states, events, k, id);
      assert states[k + 1].children[id] == OnLogEnd(states[k].children[id], e.failed);
    } else {
      RunKeepsInv(states, events, k);
      assert FlagsOf(states[k].children[id]).completed <==> LogEndAt(events, k, id).Some? by {
        FlagsAreEvents(states, events, k, id);
      }
      OtherStepSettlesNothing(states[k], e, id);
    }
  }

  // ----- What a child is sent -----

  lemma RegisteredIsFromEvents(states: seq<Process>, events: seq<Event>, i: nat, id: Id)
    requires Run(states, events) && i <= |events|
    ensures id in Registered(states[i]) <==> RegisteredBy(events, i, id)
  {
    KindIsGiven(states, events, i, id);
    if id in states[i].children {
      FlagsAreEvents(states, events, i, id);
      assert FlagsOf(states[i].children[id]).registered == !Left(events, i, id);
    }
  }

  /** Was the child registered when the first signal arrived? */
  predicate IsTarget(events: seq<Event>, n: nat, id: Id)
    requires n <= |events|
  {
    var k := FirstSignal(events, n);
    k.Some? && RegisteredBy(events, k.value, id)
  }

  /** What event `k` sends the child. */
  function SentAt(kind: Kind, events: seq<Event>, k: nat, id: Id): set<Signal>
    requires k < |events|
  {
    match events[k]
    case SignalArrives(signal) => if RegisteredBy(events, k, id) then {signal} else {}
    case ForceKillFires => if IsTarget(events, k, id) then {SIGKILL} else {}
    case Timeout(other) => if other == id then {SIGKILL} else {}
    case _ => if LeavesAt(events[k], id) && kind.Command? && Forwarded(events, k) then {SIGKILL} else {}
  }

  function SentTo(kind: Kind, events: seq<Event>, n: nat, id: Id): set<Signal>
    requires n <= |events|
  {
    if n == 0 then {} else SentTo(kind, events, n - 1, id) + SentAt(kind, events, n - 1, id)
  }

  lemma ChildStepSends(c: Child, e: Event, forwarded: bool)
    requires OfChild(e) && (e.LogEnds? ==> c.callback.Some?)
    ensures ChildStep(c, e, forwarded).log.sent
         == c.log.sent + (if e.Timeout? || (LeavesAt(e, e.id) && c.kind.Command? && forwarded) then {SIGKILL} else {})
  {
    match e
    case Timeout(_) => assert OnTimeout(c).log.sent == c.log.sent + {SIGKILL};
    case KillWaitFires(_) => assert OnKillWait(c).log.sent == c.log.sent;
    case ChildError(_) => ErrorSends(c, forwarded);
    case ChildClose(_, exitCode) => CloseSends(c, exitCode, forwarded);
    case LogEnds(_, failed) => assert OnLogEnd(c, failed).log.sent == c.log.sent;
  }

  lemma ErrorSends(c: Child, forwarded: bool)
    ensures OnError(c, forwarded).log.sent
         == c.log.sent + (if c.kind.Command? && forwarded then {SIGKILL} else {})
  {}

  lemma CloseSends(c: Child, exitCode: Option<int>, forwarded: bool)
    ensures OnClose(c, exitCode, forwarded).log.sent
         == c.log.sent + (if c.kind.Command? && forwarded then {SIGKILL} else {})
  {}

  lemma StepSends(p: Process, e: Event, id: Id)
    requires Inv(p) && Enabled(p, e) && id in p.children
    ensures id in Next(p, e).children
    ensures Next(p, e).children[id].log.sent
         == p.children[id].log.sent
            + (match e
               case SignalArrives(signal) => if id in Registered(p) then {signal} else {}
               case ForceKillFires => if id in p.forceKillTimer.value then {SIGKILL} else {}
               case _ => if OfChild(e) && e.id == id then SentByOwn(p.children[id], e, p.exitCode.Some?) else {})
  {
    if e.SignalArrives? {
      SignalSends(p, e.signal, id);
    } else if OfChild(e) && e.id == id {
      ChildStepSends(p.children[id], e, p.exitCode.Some?);
    }
  }

  function SentByOwn(c: Child, e: Event, forwarded: bool): set<Signal>
    requires OfChild(e)
  {
    if e.Timeout? || (LeavesAt(e, e.id) && c.kind.Command? && forwarded) then {SIGKILL} else {}
  }

  lemma SignalSends(p: Process, signal: Signal, id: Id)
    requires id in p.children && signal != SIGKILL
    ensures id in OnSignal(p, signal).children
    ensures OnSignal(p, signal).children[id].log.sent
         == p.children[id].log.sent + (if id in Registered(p) then {signal} else {})
  {}

  /** A child is sent exactly what the events before say, and nothing else. */
  lemma {:induction false} SentIsFromEvents(states: seq<Process>, events: seq<Event>, i: nat, id: Id, kind: Kind)
    requires Run(states, events) && i <= |events| && id in states[i].children && states[i].children[id].kind == kind
    ensures states[i].children[id].log.sent == SentTo(kind, events, i, id)
  {
    KindIsGiven(states, events, i - 1, id);
    if id !in states[i - 1].children {
      NothingSentBeforeStart(states, events, i - 1, id, kind);
    } else {
      KindStays(states, events, i - 1, i, id);
      SentIsFromEvents(states, events, i - 1, id, kind);
      RunKeepsInv(states, events, i - 1);
      StepSends(states[i - 1], events[i - 1], id);
      StepSendsSame(states, events, i - 1, id);
    }
  }

  /** The step sends what its event says. */
  lemma StepSendsSame(states: seq<Process>, events: seq<Event>, k: nat, id: Id)
    requires Run(states, events) && k < |events| && id in states[k].children
    ensures var p, e := states[k], events[k];
            SentAt(p.children[id].kind, events, k, id)
            == match e
               case SignalArrives(signal) => if id in Registered(p) then {signal} else {}
               case ForceKillFires => if id in p.forceKillTimer.value then {SIGKILL} else {}
               case _ => if OfChild(e) && e.id == id then SentByOwn(p.children[id], e, p.exitCode.Some?) else {}
  {
    RunKeepsInv(states, events, k);
    FirstIsRecorded(states, events, k);
    RegisteredIsFromEvents(states, events, k, id);
    if FirstSignal(events, k).Some? {
      RegisteredIsFromEvents(states, events, FirstSignal(events, k).value, id);
    }
  }

  lemma NothingSentAt(states: seq<Process>, events: seq<Event>, i: nat, id: Id, kind: Kind)
    requires Run(states, events) && i < |events| && id !in states[i].children
    ensures SentAt(kind, events, i, id) == {}
  {
    NotYetStarted(states, events, i, id);
    KindIsGiven(states, events, i, id);
    if FirstSignal(events, i).Some? {
      KindOfEarlier(events, FirstSignal(events, i).value, i, id);
    }
  }

  lemma {:induction false} NothingSentBeforeStart(states: seq<Process>, events: seq<Event>, i: nat, id: Id, kind: Kind)
    requires Run(states, events) && i < |events| && id !in states[i].children
    ensures SentTo(kind, events, i + 1, id) == {}
  {
    NothingSentAt(states, events, i, id, kind);
    if i > 0 {
      assert id !in states[i - 1].children by {
        KindIsGiven(states, events, i, id);
        KindIsGiven(states, events, i - 1, id);
        KindOfEarlier(events, i - 1, i, id);
      }
      NothingSentBeforeStart(states, events, i - 1, id, kind);
    }
  }

  /** A child that is not there has no event yet, and its next one can only be its start. */
  lemma NotYetStarted(states: seq<Process>, events: seq<Event>, i: nat, id: Id)
    requires Run(states, events) && i < |events| && id !in states[i].children
    ensures events[i] != Timeout(id) && !LeavesAt(events[i], id)
  {}

  lemma {:induction false} KindOfEarlier(events: seq<Event>, k: nat, i: nat, id: Id)
    requires k <= i <= |events| && KindGiven(events, i, id).None?
    ensures KindGiven(events, k, id).None?
  {
    if k < i {
      KindOfEarlier(events, k, i - 1, id);
    }
  }

  // ----- When the process exits -----

  ghost predicate NoneRegistered(events: seq<Event>, n: nat)
    requires n <= |events|
  {
    forall id: Id :: !RegisteredBy(events, n, id)
  }

  /**
   The exits: a signal with nobody registered, the force-kill timer, or the clean end of the log
   of a command that closed after the first signal, when nobody is registered any more.
   */
  ghost predicate ExitsAt(events: seq<Event>, k: nat)
    requires k < |events|
  {
    match events[k]
    case SignalArrives(_) => NoneRegistered(events, k)
    case ForceKillFires => true
    case LogEnds(id, failed) =>
      && !failed && LogEndAt(events, k, id).None?
      && FinishAt(events, k, id).Some? && LeftToDo(events, FinishAt(events, k, id).value) == ExitWhenDone
      && NoneRegistered(events, k)
    case _ => false
  }

  lemma NoneRegisteredIsFromEvents(states: seq<Process>, events: seq<Event>, i: nat)
    requires Run(states, events) && i <= |events|
    ensures Registered(states[i]) == {} <==> NoneRegistered(events, i)
  {
    forall id: Id ensures id in Registered(states[i]) <==> RegisteredBy(events, i, id) {
      RegisteredIsFromEvents(states, events, i, id);
    }
  }

  lemma LogEndKeepsRegistry(p: Process, e: Event)
    requires Enabled(p, e) && e.LogEnds?
    ensures Registered(p.(children := p.children[e.id := ChildAfter(p, e)])) == Registered(p)
  {
    var q := p.(children := p.children[e.id := ChildAfter(p, e)]);
    assert ChildAfter(p, e).registered == p.children[e.id].registered;
    forall id ensures id in Registered(q) <==> id in Registered(p) {}
  }

  /** In every run the process exits at exactly these events. */
  lemma ExitsExactly(states: seq<Process>, events: seq<Event>, k: nat)
    requires Run(states, events) && k < |events|
    ensures states[k + 1].exited.Some? <==> ExitsAt(events, k)
  {
    var p, e := states[k], events[k];
    RunKeepsInv(states, events, k);
    NoneRegisteredIsFromEvents(states, events, k);
    if e.LogEnds? {
      FlagsAreEvents(states, events, k, e.id);
      FirstIsRecorded(states, events, k);
      LogEndKeepsRegistry(p, e);
      ForwardedStays(events, k, e.id);
    }
  }

  /** A command that closed after a signal has one before it. */
  lemma ForwardedStays(events: seq<Event>, n: nat, id: Id)
    requires n <= |events|
    ensures FinishAt(events, n, id).Some? && LeftToDo(events, FinishAt(events, n, id).value) == ExitWhenDone
            ==> Forwarded(events, n)
  {}

  /** The signal's number in POSIX. */
  function SignalNumber(signal: Signal): int {
    match signal
    case SIGHUP => 1
    case SIGINT => 2
    case SIGKILL => 9
    case SIGTERM => 15
  }

  /** The exit code is that of a shell for the first signal: 128 and its number. */
  lemma ExitCodeNamesFirstSignal(states: seq<Process>, events: seq<Event>, i: nat)
    requires Run(states, events) && i <= |events| && states[i].exited.Some?
    ensures exists k :: 0 <= k < i && events[k].SignalArrives? && (forall j :: 0 <= j < k ==> !events[j].SignalArrives?)
                        && states[i].exited.value == Some(128 + SignalNumber(events[k].signal))
  {
    ForwardedExitIsSafe(states, events, i);
    var k := FirstSignal(events, i).value;
    assert events[k].SignalArrives?;
  }
}
