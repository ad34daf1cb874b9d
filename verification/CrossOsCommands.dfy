/**
 Supervision of the cross-OS release checks on POSIX: commands and gateways started by the
 process, the module-level forwarder of termination signals, and what holds in every run.
 */
module CrossOsCommands {
  import opened Wrappers

  datatype Signal = SIGHUP | SIGINT | SIGTERM | SIGKILL

  function SignalExitCode(signal: Signal): int
    requires signal != SIGKILL
  {
    match signal
    case SIGHUP => 129
    case SIGINT => 130
    case SIGTERM => 143
  }

  /** What a child was started for: a supervised command, or a gateway that only stays registered. */
  datatype Kind = Command(check: bool, hasTimeout: bool) | Gateway

  /** What `finalize` leaves to do once the log stream has ended. */
  datatype Callback = Report(exitCode: Option<int>) | RejectError | RejectUnkillable | ExitWhenDone

  datatype Settlement = Resolved(exitCode: int) | TimedOut | Failed(exitCode: int) | SpawnError | Unkillable | LogFailed

  /** What has happened to a child; `closedLate` is a close that came after a forwarded signal. */
  datatype Log = Log(
    settlements: seq<Settlement>,
    sent: set<Signal>,
    exit: Option<Option<int>>,
    closedLate: bool,
    errorSeen: bool,
    logEnded: Option<bool>)

  /** The variables of one child, with its membership in the set of active killers. */
  datatype Child = Child(
    kind: Kind,
    registered: bool,
    timedOut: bool,
    settled: bool,
    timerArmed: bool,
    killWaitArmed: bool,
    callback: Option<Callback>,
    completed: bool,
    log: Log)

  function StartChild(kind: Kind): Child {
    Child(kind, true, false, false, kind.Command? && kind.hasTimeout, false, None, false,
          Log([], {}, None, false, false, None))
  }

  // ----- The callbacks of one child -----

  function Kill(c: Child, signal: Signal): Child {
    c.(log := c.log.(sent := c.log.sent + {signal}))
  }

  function Finalize(c: Child, callback: Callback): Child {
    if c.settled then c
    else c.(settled := true, timerArmed := false, killWaitArmed := false, callback := Some(callback))
  }

  /** Leaves the set of killers; once a signal was forwarded, a command is killed for good first. */
  function Leave(c: Child, forwarded: bool): Child {
    (if forwarded && c.kind.Command? then Kill(c, SIGKILL) else c).(registered := false)
  }

  function OnTimeout(c: Child): Child {
    Kill(c.(timedOut := true, timerArmed := false), SIGKILL).(killWaitArmed := true)
  }

  function OnKillWait(c: Child): Child {
    Finalize(c.(killWaitArmed := false), RejectUnkillable)
  }

  function OnError(c: Child, forwarded: bool): Child {
    var k := Leave(c.(log := c.log.(errorSeen := true)), forwarded);
    if c.kind.Command? then Finalize(k, RejectError) else k
  }

  function OnClose(c: Child, exitCode: Option<int>, forwarded: bool): Child {
    var k := Leave(c.(log := c.log.(exit := Some(exitCode), closedLate := forwarded)), forwarded);
    if c.kind.Command? then Finalize(k, if forwarded then ExitWhenDone else Report(exitCode)) else k
  }

  function Outcome(c: Child, callback: Callback): seq<Settlement> {
    match callback
    case Report(exitCode) =>
      var code := exitCode.GetOr(1);
      [if c.timedOut then TimedOut
       else if c.kind.Command? && c.kind.check && code != 0 then Failed(code)
       else Resolved(code)]
    case RejectError => [SpawnError]
    case RejectUnkillable => [Unkillable]
    case ExitWhenDone => []
  }

  /** The log stream reports its end; only the first report runs the callback. */
  function OnLogEnd(c: Child, failed: bool): Child
    requires c.callback.Some?
  {
    if c.completed then c
    else c.(completed := true,
            log := c.log.(logEnded := Some(failed),
                          settlements := c.log.settlements
                                         + (if failed then [LogFailed] else Outcome(c, c.callback.value))))
  }

  // ----- What every callback keeps -----

  ghost predicate ChildInv(c: Child) {
    && (c.settled <==> c.callback.Some?)
    && (c.settled ==> c.kind.Command? && !c.timerArmed && !c.killWaitArmed)
    && (c.kind.Command? && !c.registered ==> c.settled)
    && (c.timerArmed ==> c.kind.Command? && !c.timedOut)
    && (c.killWaitArmed ==> c.kind.Command? && c.timedOut)
    && (c.timedOut ==> SIGKILL in c.log.sent)
    && (c.completed <==> c.log.logEnded.Some?)
    && (c.completed ==> c.settled)
    && (!c.completed ==> c.log.settlements == [])
    && (c.kind.Command? && c.timedOut && !c.settled ==> c.killWaitArmed)
    && |c.log.settlements| <= 1
    && (forall s :: s in c.log.settlements ==> SettledRightly(c, s))
    && (c.callback.Some? ==> CallbackInv(c, c.callback.value))
  }

  /** Where a pending callback came from. */
  ghost predicate CallbackInv(c: Child, callback: Callback) {
    match callback
    case Report(exitCode) => c.log.exit == Some(exitCode) && !c.log.closedLate
    case RejectError => c.log.errorSeen
    case RejectUnkillable => c.timedOut
    case ExitWhenDone => c.log.exit.Some? && c.log.closedLate
  }

  /**
   What a settlement says. A command resolves only with the code its child closed with before
   any signal was forwarded, when it never timed out and its log was written cleanly.
   */
  ghost predicate SettledRightly(c: Child, s: Settlement) {
    && c.kind.Command?
    && match s
       case Resolved(code) =>
         && !c.timedOut
         && ReportedExit(c, code)
         && (c.kind.check ==> code == 0)
       case Failed(code) => !c.timedOut && c.kind.check && code != 0 && ReportedExit(c, code)
       case TimedOut => c.timedOut && c.log.exit.Some?
       case Unkillable => c.timedOut
       case SpawnError => c.log.errorSeen
       case LogFailed => c.log.logEnded == Some(true)
  }

  ghost predicate ReportedExit(c: Child, code: int) {
    && c.log.exit.Some? && c.log.exit.value.GetOr(1) == code
    && !c.log.closedLate
    && c.log.logEnded == Some(false)
  }

  /** `d` is `c` with records that only grew and nothing a settlement speaks of changed. */
  ghost predicate Keeps(c: Child, d: Child) {
    && d.kind == c.kind
    && (c.registered || !d.registered)
    && c.log.sent <= d.log.sent
    && (c.log.errorSeen ==> d.log.errorSeen)
    && (c.log.exit.Some? ==> d.log.exit == c.log.exit && d.log.closedLate == c.log.closedLate)
    && (c.settled ==> d.timedOut == c.timedOut && d.callback == c.callback)
    && (c.completed ==> d.completed && d.log.settlements == c.log.settlements && d.log.logEnded == c.log.logEnded)
  }

  lemma KillKeepsInv(c: Child, signal: Signal)
    requires ChildInv(c)
    ensures ChildInv(Kill(c, signal)) && Keeps(c, Kill(c, signal))
  {
    var k := Kill(c, signal);
    forall s | s in k.log.settlements ensures SettledRightly(k, s) {
      assert SettledRightly(c, s);
    }
  }

  lemma ErrorKeepsInv(c: Child, forwarded: bool)
    requires ChildInv(c)
    ensures ChildInv(OnError(c, forwarded)) && Keeps(c, OnError(c, forwarded))
  {
    var k := OnError(c, forwarded);
    forall s | s in k.log.settlements ensures SettledRightly(k, s) {
      assert SettledRightly(c, s);
    }
  }

  lemma CloseKeepsInv(c: Child, exitCode: Option<int>, forwarded: bool)
    requires ChildInv(c) && c.log.exit.None?
    ensures ChildInv(OnClose(c, exitCode, forwarded)) && Keeps(c, OnClose(c, exitCode, forwarded))
  {
    var k := OnClose(c, exitCode, forwarded);
    forall s | s in k.log.settlements ensures SettledRightly(k, s) {
      assert SettledRightly(c, s);
    }
  }

  lemma TimeoutKeepsInv(c: Child)
    requires ChildInv(c) && c.timerArmed && c.kind.Command?
    ensures ChildInv(OnTimeout(c)) && Keeps(c, OnTimeout(c))
  {}

  lemma KillWaitKeepsInv(c: Child)
    requires ChildInv(c) && c.killWaitArmed && c.kind.Command?
    ensures ChildInv(OnKillWait(c)) && Keeps(c, OnKillWait(c))
  {}

  lemma LogEndKeepsInv(c: Child, failed: bool)
    requires ChildInv(c) && c.callback.Some?
    ensures ChildInv(OnLogEnd(c, failed)) && Keeps(c, OnLogEnd(c, failed))
  {}

  // ----- The process: many children and one signal forwarder -----

  type Id = nat

  /** What the process was when the first signal arrived: the signal, all children, those registered. */
  datatype First = First(signal: Signal, known: set<Id>, snapshot: set<Id>)

  datatype Process = Process(
    children: map<Id, Child>,
    exitCode: Option<int>,
    forceKillTimer: Option<set<Id>>,
    exited: Option<Option<int>>,
    first: Option<First>)

  const INITIAL := Process(map[], None, None, None, None)

  datatype Event =
    | Start(id: Id, kind: Kind)
    | SignalArrives(signal: Signal)
    | ForceKillFires
    | Timeout(id: Id)
    | KillWaitFires(id: Id)
    | ChildError(id: Id)
    | ChildClose(id: Id, exitCode: Option<int>)
    | LogEnds(id: Id, failed: bool)

  predicate OfChild(e: Event) {
    !e.Start? && !e.SignalArrives? && !e.ForceKillFires?
  }

  /** Nothing happens after the exit; timers must be armed; a child closes once. */
  predicate Enabled(p: Process, e: Event) {
    && p.exited.None?
    && match e
       case Start(id, _) => id !in p.children
       case SignalArrives(signal) => signal != SIGKILL
       case ForceKillFires => p.forceKillTimer.Some?
       case Timeout(id) => id in p.children && p.children[id].timerArmed
       case KillWaitFires(id) => id in p.children && p.children[id].killWaitArmed
       case ChildError(id) => id in p.children
       case ChildClose(id, _) => id in p.children && p.children[id].log.exit.None?
       case LogEnds(id, _) => id in p.children && p.children[id].settled && p.children[id].callback.Some?
  }

  function Registered(p: Process): set<Id> {
    set id | id in p.children && p.children[id].registered
  }

  function KillAll(children: map<Id, Child>, ids: set<Id>, signal: Signal): map<Id, Child> {
    map id | id in children :: if id in ids then Kill(children[id], signal) else children[id]
  }

  function OnSignal(p: Process, signal: Signal): Process
    requires signal != SIGKILL
  {
    var code := p.exitCode.GetOr(SignalExitCode(signal));
    var active := Registered(p);
    var q := p.(exitCode := Some(code),
                first := if p.first.Some? then p.first else Some(First(signal, p.children.Keys, active)));
    if active == {} then q.(exited := Some(Some(code)))
    else q.(children := KillAll(p.children, active, signal),
            forceKillTimer := if p.forceKillTimer.Some? then p.forceKillTimer else Some(active))
  }

  function OnForceKill(p: Process): Process
    requires p.forceKillTimer.Some?
  {
    p.(children := KillAll(p.children, p.forceKillTimer.value, SIGKILL), exited := Some(p.exitCode))
  }

  function ExitWhenChildTreesDone(p: Process): Process {
    if p.exitCode.None? || Registered(p) != {} then p
    else p.(forceKillTimer := None, exited := Some(p.exitCode))
  }

  function ChildStep(c: Child, e: Event, forwarded: bool): Child
    requires OfChild(e) && (e.LogEnds? ==> c.callback.Some?)
  {
    match e
    case Timeout(_) => OnTimeout(c)
    case KillWaitFires(_) => OnKillWait(c)
    case ChildError(_) => OnError(c, forwarded)
    case ChildClose(_, exitCode) => OnClose(c, exitCode, forwarded)
    case LogEnds(_, failed) => OnLogEnd(c, failed)
  }

  function ChildAfter(p: Process, e: Event): Child
    requires Enabled(p, e) && OfChild(e)
  {
    ChildStep(p.children[e.id], e, p.exitCode.Some?)
  }

  /** Does this end of the log run the callback that may exit the process? */
  predicate RunsExit(c: Child, e: Event) {
    e.LogEnds? && !e.failed && !c.completed && c.callback == Some(ExitWhenDone)
  }

  function AfterChildEvent(p: Process, e: Event): Process
    requires Enabled(p, e) && OfChild(e)
  {
    var q := p.(children := p.children[e.id := ChildAfter(p, e)]);
    if RunsExit(p.children[e.id], e) then ExitWhenChildTreesDone(q) else q
  }

  function Next(p: Process, e: Event): Process
    requires Enabled(p, e)
  {
    match e
    case Start(id, kind) => p.(children := p.children[id := StartChild(kind)])
    case SignalArrives(signal) => OnSignal(p, signal)
    case ForceKillFires => OnForceKill(p)
    case _ => AfterChildEvent(p, e)
  }

  // ----- What every step keeps -----

  ghost predicate Killed(c: Child) {
    SIGKILL in c.log.sent
  }

  /**
   A gateway that left the registry, unkilled: it closed, or an error event came for it, after
   which it may still be running.
   */
  ghost predicate LeftGateway(c: Child) {
    c.kind.Gateway? && !c.registered && (c.log.exit.Some? || c.log.errorSeen)
  }

  ghost predicate ChildrenInv(p: Process) {
    forall id :: id in p.children ==> ChildInv(p.children[id]) && LeftForReason(p.children[id])
  }

  ghost predicate LeftForReason(c: Child) {
    !c.registered ==> c.log.exit.Some? || c.log.errorSeen
  }

  /** Every child of interest after the first signal is still registered, killed, or a gateway that left. */
  ghost predicate AccountedFor(c: Child) {
    c.registered || Killed(c) || LeftGateway(c)
  }

  ghost predicate SignalInv(p: Process) {
    && (p.exitCode.Some? <==> p.first.Some?)
    && (p.first.Some? ==> FirstInv(p, p.first.value))
    && (p.first.None? ==> p.forceKillTimer.None? && p.exited.None?)
    && (p.exited.Some? ==> p.exited.value == p.exitCode)
  }

  ghost predicate FirstInv(p: Process, f: First) {
    && f.signal != SIGKILL
    && p.exitCode == Some(SignalExitCode(f.signal))
    && f.snapshot <= f.known <= p.children.Keys
    && (p.exited.None? ==> p.forceKillTimer == Some(f.snapshot))
    && (p.exited.Some? ==> Registered(p) == {} || forall id :: id in f.snapshot ==> Killed(p.children[id]))
    && (forall id :: id in f.known - f.snapshot ==> !p.children[id].registered)
    && (forall id :: id in p.children && id !in f.known - f.snapshot ==> AccountedFor(p.children[id]))
  }

  ghost predicate Inv(p: Process) {
    ChildrenInv(p) && SignalInv(p)
  }

  lemma ChildStepKeepsInv(p: Process, e: Event)
    requires Inv(p) && Enabled(p, e) && OfChild(e)
    ensures ChildInv(ChildAfter(p, e)) && Keeps(p.children[e.id], ChildAfter(p, e))
    ensures LeftForReason(ChildAfter(p, e))
    ensures p.exitCode.Some? && AccountedFor(p.children[e.id]) ==> AccountedFor(ChildAfter(p, e))
  {
    var c := p.children[e.id];
    match e
    case Timeout(_) => TimeoutKeepsInv(c);
    case KillWaitFires(_) => KillWaitKeepsInv(c);
    case ChildError(_) => ErrorKeepsInv(c, p.exitCode.Some?);
    case ChildClose(_, exitCode) => CloseKeepsInv(c, exitCode, p.exitCode.Some?);
    case LogEnds(_, failed) => LogEndKeepsInv(c, failed);
  }

  lemma KillAllKeepsInv(p: Process, ids: set<Id>, signal: Signal)
    requires ChildrenInv(p)
    ensures var q := p.(children := KillAll(p.children, ids, signal));
            ChildrenInv(q) && q.children.Keys == p.children.Keys && Registered(q) == Registered(p)
    ensures forall id :: id in p.children ==> Keeps(p.children[id], KillAll(p.children, ids, signal)[id])
    ensures forall id :: id in p.children && AccountedFor(p.children[id]) ==>
              AccountedFor(KillAll(p.children, ids, signal)[id])
  {
    var q := KillAll(p.children, ids, signal);
    forall id | id in p.children
      ensures ChildInv(q[id]) && LeftForReason(q[id]) && Keeps(p.children[id], q[id])
      ensures q[id].registered == p.children[id].registered
      ensures AccountedFor(p.children[id]) ==> AccountedFor(q[id])
    {
      KillKeepsInv(p.children[id], signal);
    }
  }

  lemma SignalKeepsInv(p: Process, signal: Signal)
    requires Inv(p) && p.exited.None? && signal != SIGKILL
    ensures Inv(OnSignal(p, signal))
  {
    KillAllKeepsInv(p, Registered(p), signal);
  }

  lemma ForceKillKeepsInv(p: Process)
    requires Inv(p) && p.exited.None? && p.forceKillTimer.Some?
    ensures Inv(OnForceKill(p))
  {
    KillAllKeepsInv(p, p.forceKillTimer.value, SIGKILL);
  }

  lemma StepKeepsInv(p: Process, e: Event)
    requires Inv(p) && Enabled(p, e)
    ensures Inv(Next(p, e))
  {
    match e
    case Start(id, kind) => StartKeepsInv(p, id, kind);
    case SignalArrives(signal) => SignalKeepsInv(p, signal);
    case ForceKillFires => ForceKillKeepsInv(p);
    case _ => ChildEventKeepsInv(p, e);
  }

  lemma StartKeepsInv(p: Process, id: Id, kind: Kind)
    requires Inv(p) && Enabled(p, Start(id, kind))
    ensures Inv(Next(p, Start(id, kind)))
  {}

  lemma ChildEventKeepsInv(p: Process, e: Event)
    requires Inv(p) && Enabled(p, e) && OfChild(e)
    ensures Inv(Next(p, e))
  {
    ChildStepKeepsInv(p, e);
  }

  // ----- Whole runs -----

  /** `states[i]` is the process before event `i`; any order of enabled events is a run. */
  ghost predicate Run(states: seq<Process>, events: seq<Event>) {
    && |states| == |events| + 1
    && states[0] == INITIAL
    && forall i :: 0 <= i < |events| ==> Enabled(states[i], events[i]) && states[i + 1] == Next(states[i], events[i])
  }

  /** A run goes on with any event that is enabled in its last state. */
  lemma RunExtends(states: seq<Process>, events: seq<Event>, e: Event)
    requires Run(states, events) && Enabled(states[|events|], e)
    ensures Run(states + [Next(states[|events|], e)], events + [e])
  {}

  lemma {:induction false} RunKeepsInv(states: seq<Process>, events: seq<Event>, i: nat)
    requires Run(states, events) && i <= |events|
    ensures Inv(states[i])
  {
    if i > 0 {
      RunKeepsInv(states, events, i - 1);
      StepKeepsInv(states[i - 1], events[i - 1]);
    }
  }

  /** The first of the first `n` events that is a signal. */
  function FirstSignal(events: seq<Event>, n: nat): (k: Option<nat>)
    requires n <= |events|
    ensures k.Some? ==> k.value < n && events[k.value].SignalArrives?
                        && forall j :: 0 <= j < k.value ==> !events[j].SignalArrives?
    ensures k.None? ==> forall j :: 0 <= j < n ==> !events[j].SignalArrives?
  {
    if n == 0 then None
    else if FirstSignal(events, n - 1).Some? then FirstSignal(events, n - 1)
    else if events[n - 1].SignalArrives? then Some(n - 1)
    else None
  }

  /** The process remembers what it was when the first signal arrived. */
  lemma {:induction false} FirstIsRecorded(states: seq<Process>, events: seq<Event>, i: nat)
    requires Run(states, events) && i <= |events|
    ensures states[i].first ==
              match FirstSignal(events, i)
              case None => None
              case Some(k) => Some(First(events[k].signal, states[k].children.Keys, Registered(states[k])))
  {
    if i > 0 {
      FirstIsRecorded(states, events, i - 1);
    }
  }

  // ----- What is on record of a child is what happened to it -----

  /** Where the first close of the child is among the first `n` events. */
  function CloseAt(events: seq<Event>, n: nat, id: Id): (k: Option<nat>)
    requires n <= |events|
    ensures k.Some? ==> k.value < n && events[k.value].ChildClose? && events[k.value].id == id
  {
    if n == 0 then None
    else if CloseAt(events, n - 1, id).Some? then CloseAt(events, n - 1, id)
    else if events[n - 1].ChildClose? && events[n - 1].id == id then Some(n - 1)
    else None
  }

  predicate Erred(events: seq<Event>, n: nat, id: Id)
    requires n <= |events|
  {
    n > 0 && (Erred(events, n - 1, id) || events[n - 1] == ChildError(id))
  }

  predicate TimerFired(events: seq<Event>, n: nat, id: Id)
    requires n <= |events|
  {
    n > 0 && (TimerFired(events, n - 1, id) || events[n - 1] == Timeout(id))
  }

  /** How the child's log ended: as its first end says. */
  function LogEnd(events: seq<Event>, n: nat, id: Id): Option<bool>
    requires n <= |events|
  {
    if n == 0 then None
    else if LogEnd(events, n - 1, id).Some? then LogEnd(events, n - 1, id)
    else if events[n - 1].LogEnds? && events[n - 1].id == id then Some(events[n - 1].failed)
    else None
  }

  /** What is recorded of a child, all but the settlements and the signals it was sent. */
  datatype Facts = Facts(
    exit: Option<Option<int>>,
    closedLate: bool,
    errorSeen: bool,
    timedOut: bool,
    logEnded: Option<bool>)

  const NO_FACTS := Facts(None, false, false, false, None)

  function FactsOf(c: Child): Facts {
    Facts(c.log.exit, c.log.closedLate, c.log.errorSeen, c.timedOut, c.log.logEnded)
  }

  /** The close with its code, late if a signal came before it; the error, the timeout, the end of the log. */
  function FactsFrom(events: seq<Event>, n: nat, id: Id): Facts
    requires n <= |events|
  {
    var close := CloseAt(events, n, id);
    Facts(if close.Some? then Some(events[close.value].exitCode) else None,
          close.Some? && FirstSignal(events, close.value).Some?,
          Erred(events, n, id),
          TimerFired(events, n, id),
          LogEnd(events, n, id))
  }

  /** What one event of the child adds; `forwarded` says that a signal came before. */
  function FactsAfter(f: Facts, e: Event, forwarded: bool): Facts {
    match e
    case Timeout(_) => f.(timedOut := true)
    case ChildError(_) => f.(errorSeen := true)
    case ChildClose(_, exitCode) => f.(exit := Some(exitCode), closedLate := forwarded)
    case LogEnds(_, failed) => if f.logEnded.Some? then f else f.(logEnded := Some(failed))
    case _ => f
  }

  lemma TimeoutRecords(c: Child)
    ensures FactsOf(OnTimeout(c)) == FactsOf(c).(timedOut := true)
  {}

  lemma KillWaitRecords(c: Child)
    ensures FactsOf(OnKillWait(c)) == FactsOf(c)
  {}

  lemma LeaveRecordsNothing(c: Child, forwarded: bool)
    ensures FactsOf(Leave(c, forwarded)) == FactsOf(c)
  {}

  lemma FinalizeRecordsNothing(c: Child, callback: Callback)
    ensures FactsOf(Finalize(c, callback)) == FactsOf(c)
  {}

  lemma ErrorRecords(c: Child, forwarded: bool)
    ensures FactsOf(OnError(c, forwarded)) == FactsOf(c).(errorSeen := true)
  {
    var k := c.(log := c.log.(errorSeen := true));
    LeaveRecordsNothing(k, forwarded);
    FinalizeRecordsNothing(Leave(k, forwarded), RejectError);
    assert FactsOf(k) == FactsOf(c).(errorSeen := true);
  }

  lemma CloseRecords(c: Child, exitCode: Option<int>, forwarded: bool)
    ensures FactsOf(OnClose(c, exitCode, forwarded)) == FactsOf(c).(exit := Some(exitCode), closedLate := forwarded)
  {
    var k := c.(log := c.log.(exit := Some(exitCode), closedLate := forwarded));
    LeaveRecordsNothing(k, forwarded);
    FinalizeRecordsNothing(Leave(k, forwarded), if forwarded then ExitWhenDone else Report(exitCode));
    assert FactsOf(k) == FactsOf(c).(exit := Some(exitCode), closedLate := forwarded);
  }

  lemma LogEndRecords(c: Child, failed: bool)
    requires c.callback.Some? && (c.completed <==> c.log.logEnded.Some?)
    ensures FactsOf(OnLogEnd(c, failed))
         == if c.log.logEnded.Some? then FactsOf(c) else FactsOf(c).(logEnded := Some(failed))
  {}

  lemma ChildStepRecords(c: Child, e: Event, forwarded: bool)
    requires OfChild(e) && (e.LogEnds? ==> c.callback.Some?) && (c.completed <==> c.log.logEnded.Some?)
    ensures FactsOf(ChildStep(c, e, forwarded)) == FactsAfter(FactsOf(c), e, forwarded)
  {
    match e
    case Timeout(_) => TimeoutRecords(c);
    case KillWaitFires(_) => KillWaitRecords(c);
    case ChildError(_) => ErrorRecords(c, forwarded);
    case ChildClose(_, exitCode) => CloseRecords(c, exitCode, forwarded);
    case LogEnds(_, failed) => LogEndRecords(c, failed);
  }

  /** An event of the child adds to its facts what it says, any other event nothing. */
  lemma FactsOneMore(events: seq<Event>, n: nat, id: Id)
    requires n < |events|
    requires events[n].ChildClose? && events[n].id == id ==> CloseAt(events, n, id).None?
    ensures FactsFrom(events, n + 1, id)
         == if OfChild(events[n]) && events[n].id == id
            then FactsAfter(FactsFrom(events, n, id), events[n], FirstSignal(events, n).Some?)
            else FactsFrom(events, n, id)
  {}

  lemma StepRecords(p: Process, e: Event, id: Id)
    requires Inv(p) && Enabled(p, e)
    ensures var before := if id in p.children then FactsOf(p.children[id]) else NO_FACTS;
            var after := if id in Next(p, e).children then FactsOf(Next(p, e).children[id]) else NO_FACTS;
            after == if OfChild(e) && e.id == id then FactsAfter(before, e, p.exitCode.Some?) else before
  {
    if OfChild(e) && e.id == id {
      ChildStepRecords(p.children[id], e, p.exitCode.Some?);
    }
  }

  /** In every run the facts on record of a child are those the events of the run tell. */
  lemma {:induction false} RecordsAreEvents(states: seq<Process>, events: seq<Event>, i: nat, id: Id)
    requires Run(states, events) && i <= |events|
    ensures (if id in states[i].children then FactsOf(states[i].children[id]) else NO_FACTS) == FactsFrom(events, i, id)
  {
    if i > 0 {
      RecordsAreEvents(states, events, i - 1, id);
      RunKeepsInv(states, events, i - 1);
      FirstIsRecorded(states, events, i - 1);
      StepRecords(states[i - 1], events[i - 1], id);
      FactsOneMore(events, i - 1, id);
    }
  }

  /**
   In every run a command settles at most once, and only as `SettledRightly` says; the exit,
   the timeout, the error and the end of the log it speaks of are those of the run's events.
   */
  lemma CommandsSettleOnceAndRightly(states: seq<Process>, events: seq<Event>, i: nat, id: Id)
    requires Run(states, events) && i <= |events| && id in states[i].children
    ensures var c := states[i].children[id];
            && |c.log.settlements| <= 1
            && (forall s :: s in c.log.settlements ==> SettledRightly(c, s))
            && FactsOf(c) == FactsFrom(events, i, id)
  {
    RunKeepsInv(states, events, i);
    RecordsAreEvents(states, events, i, id);
  }

  /** A settlement is final. */
  lemma {:induction false} SettlementsLast(states: seq<Process>, events: seq<Event>, i: nat, j: nat, id: Id)
    requires Run(states, events) && i <= j <= |events|
    requires id in states[i].children && states[i].children[id].log.settlements != []
    ensures id in states[j].children && states[j].children[id].log.settlements == states[i].children[id].log.settlements
    decreases j - i
  {
    if i < j {
      RunKeepsInv(states, events, i);
      StepKeepsSettlements(states[i], events[i], id);
      SettlementsLast(states, events, i + 1, j, id);
    }
  }

  lemma StepKeepsSettlements(p: Process, e: Event, id: Id)
    requires Inv(p) && Enabled(p, e) && id in p.children && p.children[id].log.settlements != []
    ensures id in Next(p, e).children && Next(p, e).children[id].log.settlements == p.children[id].log.settlements
  {
    if OfChild(e) && e.id == id {
      ChildStepKeepsInv(p, e);
    }
  }

  /** Every child that was registered at the first signal was killed, or is a gateway that left the registry. */
  ghost predicate AllGone(p: Process, ids: set<Id>) {
    forall id :: id in ids ==> id in p.children && (Killed(p.children[id]) || LeftGateway(p.children[id]))
  }

  /**
   Every exit comes from a forwarded signal and uses the code of the first one. It happens
   with an empty registry or after SIGKILL to every tree registered when that signal arrived;
   in either case none of those trees was left without SIGKILL, save gateways that had left.
   */
  lemma ForwardedExitIsSafe(states: seq<Process>, events: seq<Event>, i: nat)
    requires Run(states, events) && i <= |events| && states[i].exited.Some?
    ensures FirstSignal(events, i).Some?
    ensures var k := FirstSignal(events, i).value;
            && events[k].signal != SIGKILL
            && states[i].exited.value == Some(SignalExitCode(events[k].signal))
            && Registered(states[k]) <= states[i].children.Keys
            && (Registered(states[i]) == {}
                || forall id :: id in Registered(states[k]) ==> Killed(states[i].children[id]))
            && AllGone(states[i], Registered(states[k]))
  {
    RunKeepsInv(states, events, i);
    FirstIsRecorded(states, events, i);
    var p, k := states[i], FirstSignal(events, i).value;
    forall id | id in Registered(states[k])
      ensures id in p.children && (Killed(p.children[id]) || LeftGateway(p.children[id]))
    {
      assert id in p.first.value.snapshot;
      assert id in Registered(p) || !p.children[id].registered;
    }
  }

  /**
   An exit with an empty registry leaves no command behind at all: each one either had left
   the registry before the first signal or was sent SIGKILL, even those started after it.
   */
  lemma EmptyRegistryExitLeavesNothing(states: seq<Process>, events: seq<Event>, i: nat, id: Id)
    requires Run(states, events) && i <= |events| && states[i].exited.Some? && Registered(states[i]) == {}
    requires id in states[i].children
    ensures var k, c := FirstSignal(events, i), states[i].children[id];
            && k.Some?
            && (Killed(c) || LeftGateway(c) || (id in states[k.value].children && id !in Registered(states[k.value])))
  {
    RunKeepsInv(states, events, i);
    FirstIsRecorded(states, events, i);
    assert id in Registered(states[i]) || !states[i].children[id].registered;
  }

  /** Once a signal was forwarded the process cannot hang: the timer that exits it is armed. */
  lemma SignalLeadsToExit(states: seq<Process>, events: seq<Event>, i: nat)
    requires Run(states, events) && i <= |events| && states[i].exited.None?
    requires FirstSignal(events, i).Some?
    ensures Enabled(states[i], ForceKillFires)
    ensures var k := FirstSignal(events, i).value;
            events[k].signal != SIGKILL
            && Next(states[i], ForceKillFires).exited == Some(Some(SignalExitCode(events[k].signal)))
  {
    RunKeepsInv(states, events, i);
    FirstIsRecorded(states, events, i);
  }

  /** A command that timed out always gets an outcome to report: its kill wait is armed. */
  lemma TimedOutCommandFinishes(states: seq<Process>, events: seq<Event>, i: nat, id: Id)
    requires Run(states, events) && i <= |events| && states[i].exited.None? && id in states[i].children
    requires var c := states[i].children[id];
             c.kind.Command? && c.timedOut && !c.settled
    ensures Enabled(states[i], KillWaitFires(id))
    ensures OnKillWait(states[i].children[id]).callback == Some(RejectUnkillable)
  {
    RunKeepsInv(states, events, i);
  }

  // ----- Exactly which registered children are killed -----

  /**
   While the process lives, a registered child was sent SIGKILL exactly when it timed out;
   when it exits, also exactly those are killed that were registered at the first signal.
   */
  ghost predicate KillInv(p: Process) {
    forall id :: id in Registered(p) ==> (Killed(p.children[id]) <==> KillDue(p, id))
  }

  ghost predicate KillDue(p: Process, id: Id)
    requires id in p.children
  {
    p.children[id].timedOut || (p.exited.Some? && p.first.Some? && id in p.first.value.snapshot)
  }

  lemma StartKeepsKillInv(p: Process, id: Id, kind: Kind)
    requires KillInv(p) && Enabled(p, Start(id, kind))
    ensures KillInv(Next(p, Start(id, kind)))
  {
    var q := Next(p, Start(id, kind));
    forall i | i in Registered(q) ensures Killed(q.children[i]) <==> KillDue(q, i) {
      if i != id {
        assert i in Registered(p);
      }
    }
  }

  lemma SignalKeepsKillInv(p: Process, signal: Signal)
    requires KillInv(p) && p.exited.None? && signal != SIGKILL
    ensures KillInv(OnSignal(p, signal))
  {
    var q := OnSignal(p, signal);
    forall i | i in Registered(q) ensures Killed(q.children[i]) <==> KillDue(q, i) {
      assert i in Registered(p);
    }
  }

  lemma ForceKillKeepsKillInv(p: Process)
    requires KillInv(p) && SignalInv(p) && p.exited.None? && p.forceKillTimer.Some?
    ensures KillInv(OnForceKill(p))
  {
    var q := OnForceKill(p);
    forall i | i in Registered(q) ensures Killed(q.children[i]) <==> KillDue(q, i) {
      assert i in Registered(p);
    }
  }

  lemma ChildStepKeepsKill(c: Child, e: Event, forwarded: bool)
    requires OfChild(e) && (e.LogEnds? ==> c.callback.Some?)
    requires c.registered ==> (Killed(c) <==> c.timedOut)
    ensures var d := ChildStep(c, e, forwarded);
            d.registered ==> c.registered && (Killed(d) <==> d.timedOut)
  {
    match e
    case Timeout(_) => assert Killed(OnTimeout(c));
    case KillWaitFires(_) => assert OnKillWait(c).log == c.log;
    case ChildError(_) => assert !OnError(c, forwarded).registered;
    case ChildClose(_, exitCode) => assert !OnClose(c, exitCode, forwarded).registered;
    case LogEnds(_, failed) => assert OnLogEnd(c, failed).log.sent == c.log.sent;
  }

  lemma ChildEventKeepsKillInv(p: Process, e: Event)
    requires KillInv(p) && Enabled(p, e) && OfChild(e)
    ensures KillInv(AfterChildEvent(p, e))
  {
    var q := AfterChildEvent(p, e);
    assert p.children[e.id].registered ==> e.id in Registered(p);
    ChildStepKeepsKill(p.children[e.id], e, p.exitCode.Some?);
    assert q.exited.Some? ==> Registered(q) == {};
    forall i | i in Registered(q) ensures Killed(q.children[i]) <==> KillDue(q, i) {
      if i != e.id {
        assert i in Registered(p);
      }
    }
  }

  lemma {:induction false} RunKeepsKillInv(states: seq<Process>, events: seq<Event>, i: nat)
    requires Run(states, events) && i <= |events|
    ensures KillInv(states[i])
  {
    if i > 0 {
      RunKeepsKillInv(states, events, i - 1);
      RunKeepsInv(states, events, i - 1);
      match events[i - 1]
      case Start(id, kind) => StartKeepsKillInv(states[i - 1], id, kind);
      case SignalArrives(signal) => SignalKeepsKillInv(states[i - 1], signal);
      case ForceKillFires => ForceKillKeepsKillInv(states[i - 1]);
      case _ => ChildEventKeepsKillInv(states[i - 1], events[i - 1]);
    }
  }

  /**
   The kill guarantee, exactly: when the process exits, a child still registered was sent
   SIGKILL if and only if it was registered when the first signal arrived or had timed out.
   */
  lemma ExitKillsExactly(states: seq<Process>, events: seq<Event>, i: nat, id: Id)
    requires Run(states, events) && i <= |events| && states[i].exited.Some?
    requires id in Registered(states[i])
    ensures var k := FirstSignal(events, i);
            && k.Some?
            && (Killed(states[i].children[id]) <==>
                id in Registered(states[k.value]) || states[i].children[id].timedOut)
  {
    RunKeepsInv(states, events, i);
    FirstIsRecorded(states, events, i);
    RunKeepsKillInv(states, events, i);
  }

  /** The exit leaves a registered child without SIGKILL. */
  ghost predicate LeavesAlive(p: Process) {
    exists id :: id in Registered(p) && !Killed(p.children[id])
  }

  /** A child that is registered now was not at the first signal, and did not time out. */
  ghost predicate LateAndRunning(p: Process, first: set<Id>) {
    exists id :: id in Registered(p) && id !in first && !p.children[id].timedOut
  }

  /**
   For every way to exit: it leaves a registered child alive if and only if, at the last
   event, some child that had not timed out was registered but not yet at the first signal.
   */
  lemma ExitLeavesAliveIffLate(states: seq<Process>, events: seq<Event>, i: nat)
    requires Run(states, events) && i < |events| && states[i + 1].exited.Some?
    ensures FirstSignal(events, i + 1).Some?
    ensures var first := Registered(states[FirstSignal(events, i + 1).value]);
            LeavesAlive(states[i + 1]) <==> events[i] == ForceKillFires && LateAndRunning(states[i], first)
  {
    RunKeepsInv(states, events, i);
    RunKeepsInv(states, events, i + 1);
    FirstIsRecorded(states, events, i + 1);
    var p, q, first := states[i], states[i + 1], Registered(states[FirstSignal(events, i + 1).value]);
    forall id | id in Registered(q) ensures Killed(q.children[id]) <==> id in first || q.children[id].timedOut {
      ExitKillsExactly(states, events, i + 1, id);
    }
    if events[i] == ForceKillFires {
      ForceKillChangesNoRegistration(p);
    } else {
      OnlyForceKillExitsWithChildren(p, events[i]);
    }
  }

  lemma ForceKillChangesNoRegistration(p: Process)
    requires p.forceKillTimer.Some?
    ensures Registered(OnForceKill(p)) == Registered(p)
    ensures forall id :: id in Registered(p) ==> OnForceKill(p).children[id].timedOut == p.children[id].timedOut
  {}

  lemma OnlyForceKillExitsWithChildren(p: Process, e: Event)
    requires Enabled(p, e) && e != ForceKillFires && Next(p, e).exited.Some?
    ensures Registered(Next(p, e)) == {}
  {}

  /**
   The guarantee stops at the first signal: a command started during the grace period is
   still registered and was sent nothing when the force-kill timer exits the process.
   */
  lemma LateCommandCanSurvive()
    ensures exists states: seq<Process>, events: seq<Event> ::
              && Run(states, events) && |events| == 4
              && states[4].exited.Some?
              && 1 in states[4].children && states[4].children[1].registered && states[4].children[1].log.sent == {}
  {
    var kind := Command(true, false);
    var events := [Start(0, kind), SignalArrives(SIGTERM), Start(1, kind), ForceKillFires];
    var s1 := Next(INITIAL, events[0]);
    assert Registered(s1) == {0};
    var s2 := Next(s1, events[1]);
    var s3 := Next(s2, events[2]);
    var s4 := Next(s3, events[3]);
    var states := [INITIAL, s1, s2, s3, s4];
    assert Run(states, events);
    assert 1 in states[4].children && states[4].children[1].registered && states[4].children[1].log.sent == {};
  }
}
