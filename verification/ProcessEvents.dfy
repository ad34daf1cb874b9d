/**
 What became of a `runProcess` call, told from the events of a run alone: when it was
 signalled, which event settled it and how, and what can still happen to it.
 */
module ProcessEvents {
  import opened Wrappers
  import opened ProcessOutput
  import opened RunProcess

  // ----- What the first `n` events say of a call -----

  function OptionsGiven(events: seq<Event>, n: nat, id: Id): Option<Options>
    requires n <= |events|
  {
    if n == 0 then None
    else if events[n - 1].Start? && events[n - 1].id == id then Some(events[n - 1].options)
    else OptionsGiven(events, n - 1, id)
  }

  predicate TimerFired(events: seq<Event>, n: nat, id: Id)
    requires n <= |events|
  {
    n > 0 && (TimerFired(events, n - 1, id) || (events[n - 1].Timeout? && events[n - 1].id == id))
  }

  predicate KillTimerFired(events: seq<Event>, n: nat, id: Id)
    requires n <= |events|
  {
    n > 0 && (KillTimerFired(events, n - 1, id) || (events[n - 1].KillTimerFires? && events[n - 1].id == id))
  }

  /** A timeout whose kill timer has not fired yet. */
  predicate InGrace(events: seq<Event>, n: nat, id: Id)
    requires n <= |events|
  {
    TimerFired(events, n, id) && !KillTimerFired(events, n, id)
  }

  function Relayed(events: seq<Event>, n: nat, id: Id): Option<Signal>
    requires n <= |events|
  {
    if n == 0 then None
    else if events[n - 1].ParentSignal? && events[n - 1].id == id then Some(events[n - 1].signal)
    else Relayed(events, n - 1, id)
  }

  predicate Erred(events: seq<Event>, n: nat, id: Id)
    requires n <= |events|
  {
    n > 0 && (Erred(events, n - 1, id) || events[n - 1] == ChildError(id))
  }

  /** The child closed while its group was still alive. */
  predicate ClosedAlive(events: seq<Event>, n: nat, id: Id)
    requires n <= |events|
  {
    n > 0 && (ClosedAlive(events, n - 1, id)
              || (events[n - 1].ChildClose? && events[n - 1].id == id && events[n - 1].alive))
  }

  /** SIGTERM at the timeout, SIGKILL when the kill timer fires, and a parent signal as it is. */
  function SentTo(events: seq<Event>, n: nat, id: Id): set<Signal>
    requires n <= |events|
  {
    if n == 0 then {}
    else
      var e := events[n - 1];
      SentTo(events, n - 1, id)
      + (if e.id != id then {}
         else if e.Timeout? then {SIGTERM}
         else if e.KillTimerFires? then {SIGKILL}
         else if e.ParentSignal? then {e.signal}
         else {})
  }

  /** After a relayed signal: the group was seen dead at once or at the close, or the kill timer fired. */
  predicate SignalDone(events: seq<Event>, n: nat, id: Id)
    requires n <= |events|
  {
    n > 0 && (SignalDone(events, n - 1, id) || EndsSignal(events, n - 1, id))
  }

  predicate EndsSignal(events: seq<Event>, k: nat, id: Id)
    requires k < |events|
  {
    var e := events[k];
    e.id == id
    && match e
       case ParentSignal(_, _, _, alive) => !alive
       case ChildClose(_, _, alive) => !alive && Relayed(events, k, id).Some?
       case KillTimerFires(_, _) => Relayed(events, k, id).Some?
       case _ => false
  }

  // ----- The flags of a call are what the events say -----

  datatype Facts = Facts(
    options: Options,
    timedOut: bool,
    relayed: Option<Signal>,
    errorSeen: bool,
    done: bool,
    sent: set<Signal>)

  function FactsOf(c: Call): Facts {
    Facts(c.options, c.timedOut, c.parentSignalPending, c.log.errorSeen, c.done, c.log.sent)
  }

  /** What one event adds to the facts. */
  function FactsAfter(f: Facts, e: Event): Facts {
    match e
    case Timeout(_, _) => f.(timedOut := true, sent := f.sent + {SIGTERM})
    case KillTimerFires(_, _) => f.(done := f.done || f.relayed.Some?, sent := f.sent + {SIGKILL})
    case ChildError(_) => f.(errorSeen := true)
    case ChildClose(_, _, alive) => f.(done := f.done || (!alive && f.relayed.Some?))
    case ParentSignal(_, signal, _, alive) =>
      f.(relayed := Some(signal), done := f.done || !alive, sent := f.sent + {signal})
    case _ => f
  }

  lemma SettleAddsNothing(c: Call, s: Settlement)
    ensures FactsOf(Settle(c, s)) == FactsOf(c)
  {}

  lemma TimeoutAdds(c: Call, id: Id, note: string)
    ensures FactsOf(OnTimeout(c, note)) == FactsAfter(FactsOf(c), Timeout(id, note))
  {}

  lemma KillTimerAdds(c: Call, id: Id, note: string)
    requires FlagsInv(c)
    ensures FactsOf(OnKillTimer(c, note)) == FactsAfter(FactsOf(c), KillTimerFires(id, note))
  {
    var k := SignalChild(c.(waitingForKillGrace := false, killTimer := Off), SIGKILL, note);
    SettleAddsNothing(k, CloseOutcome(k, k.childClosedResult.GetOr(Exit(None, None))));
    assert FactsOf(k) == FactsOf(c).(sent := c.log.sent + {SIGKILL});
  }

  lemma ErrorAdds(c: Call, id: Id)
    ensures FactsOf(OnError(c)) == FactsAfter(FactsOf(c), ChildError(id))
  {
    SettleAddsNothing(c.(log := c.log.(errorSeen := true)), SpawnError);
  }

  lemma CloseAdds(c: Call, id: Id, exit: Exit, alive: bool)
    ensures FactsOf(OnClose(c, exit, alive)) == FactsAfter(FactsOf(c), ChildClose(id, exit, alive))
  {
    if c.parentSignalPending.None? && !(c.waitingForKillGrace && alive) {
      var k := Closed(c, exit, c.waitingForKillGrace);
      SettleAddsNothing(k, CloseOutcome(k, exit));
      assert OnClose(c, exit, alive) == FinishClose(k, exit);
    }
  }

  lemma ParentSignalAdds(c: Call, id: Id, signal: Signal, note: string, alive: bool)
    ensures FactsOf(OnParentSignal(c, signal, note, alive))
         == FactsAfter(FactsOf(c), ParentSignal(id, signal, note, alive))
  {}

  lemma CallbackAdds(c: Call, e: Event)
    requires !e.Start? && FlagsInv(c)
    ensures FactsOf(CallAfter(c, e)) == FactsAfter(FactsOf(c), e)
  {
    match e
    case Stdout(_, chunk) => assert FactsOf(OnStdout(c, chunk)) == FactsOf(c);
    case Stderr(_, chunk) => assert FactsOf(OnStderr(c, chunk)) == FactsOf(c);
    case Timeout(id, note) => TimeoutAdds(c, id, note);
    case KillTimerFires(id, note) => KillTimerAdds(c, id, note);
    case ChildError(id) => ErrorAdds(c, id);
    case ChildClose(id, exit, alive) => CloseAdds(c, id, exit, alive);
    case ParentSignal(id, signal, note, alive) => ParentSignalAdds(c, id, signal, note, alive);
  }

  function FactsFrom(options: Options, events: seq<Event>, n: nat, id: Id): Facts
    requires n <= |events|
  {
    Facts(options, TimerFired(events, n, id), Relayed(events, n, id), Erred(events, n, id),
          SignalDone(events, n, id), SentTo(events, n, id))
  }

  lemma FactsOneMore(options: Options, events: seq<Event>, n: nat, id: Id)
    requires n < |events|
    ensures FactsFrom(options, events, n + 1, id)
         == if !events[n].Start? && events[n].id == id
            then FactsAfter(FactsFrom(options, events, n, id), events[n])
            else FactsFrom(options, events, n, id)
  {}

  /** Before a call is started nothing happens to it. */
  lemma {:induction false} NothingBeforeStart(states: seq<System>, events: seq<Event>, i: nat, id: Id, options: Options)
    requires Run(states, events) && i <= |events| && id !in states[i].calls
    ensures OptionsGiven(events, i, id).None? && !KillTimerFired(events, i, id) && !ClosedAlive(events, i, id)
    ensures FactsFrom(options, events, i, id) == Facts(options, false, None, false, false, {})
  {
    if i > 0 {
      NothingBeforeStart(states, events, i - 1, id, options);
      FactsOneMore(options, events, i - 1, id);
    }
  }

  /**
   In every run: a call has the options it was started with; it timed out, erred, was relayed a
   signal and is done with it exactly when the events say so; and its group was sent SIGTERM at
   its timeout, SIGKILL when its kill timer fired, and the relayed signal, nothing else.
   */
  lemma {:induction false} FlagsAreEvents(states: seq<System>, events: seq<Event>, i: nat, id: Id)
    requires Run(states, events) && i <= |events| && id in states[i].calls
    ensures var c := states[i].calls[id];
            OptionsGiven(events, i, id) == Some(c.options) && FactsOf(c) == FactsFrom(c.options, events, i, id)
  {
    var e, options := events[i - 1], states[i].calls[id].options;
    FactsOneMore(options, events, i - 1, id);
    if e.Start? && e.id == id {
      NothingBeforeStart(states, events, i - 1, id, options);
    } else {
      FlagsAreEvents(states, events, i - 1, id);
      if e.id == id {
        RunKeepsInv(states, events, i - 1);
        CallbackAdds(states[i - 1].calls[id], e);
      }
    }
  }

  // ----- What can still happen -----

  /**
   At every point of every run: a call that has not settled can still time out unless it did,
   and still be relayed any of the three signals unless it was.
   */
  lemma UnsettledIsArmed(states: seq<System>, events: seq<Event>, i: nat, id: Id, note: string)
    requires Run(states, events) && i <= |events| && id in states[i].calls
    requires states[i].calls[id].log.settlements == []
    ensures Enabled(states[i], Timeout(id, note)) <==> !TimerFired(events, i, id)
    ensures forall signal, alive :: signal != SIGKILL ==>
              (Enabled(states[i], ParentSignal(id, signal, note, alive)) <==> Relayed(events, i, id).None?)
  {
    RunKeepsInv(states, events, i);
    FlagsAreEvents(states, events, i, id);
  }

  /** A settled call hears no timeout and no signal any more. */
  lemma SettledIsDisarmed(states: seq<System>, events: seq<Event>, i: nat, id: Id, note: string)
    requires Run(states, events) && i <= |events| && id in states[i].calls
    requires states[i].calls[id].log.settlements != []
    ensures !Enabled(states[i], Timeout(id, note))
    ensures forall signal, alive :: !Enabled(states[i], ParentSignal(id, signal, note, alive))
  {
    RunKeepsInv(states, events, i);
  }

  // ----- Which event settles a call, and how -----

  ghost predicate Unsettled(states: seq<System>, i: nat, id: Id) {
    i < |states| && id in states[i].calls && !states[i].calls[id].settled
  }

  /** An unsettled call is older than its unsettled past: it was unsettled, or not yet started. */
  lemma WasUnsettled(states: seq<System>, events: seq<Event>, i: nat, id: Id)
    requires Run(states, events) && 0 < i <= |events| && Unsettled(states, i, id)
    requires id in states[i - 1].calls
    ensures Unsettled(states, i - 1, id)
  {
    RunKeepsInv(states, events, i - 1);
    if !events[i - 1].Start? && events[i - 1].id == id {
      CallbackLasts(states[i - 1], events[i - 1]);
    }
  }

  /** A close of an unsettled call is put aside exactly when the group was alive at it. */
  lemma {:induction false} PutAsideIffAlive(states: seq<System>, events: seq<Event>, i: nat, id: Id)
    requires Run(states, events) && i <= |events| && Unsettled(states, i, id)
    ensures states[i].calls[id].childClosedResult.Some? <==> ClosedAlive(events, i, id)
  {
    var e := events[i - 1];
    if id !in states[i - 1].calls {
      NothingBeforeStart(states, events, i - 1, id, states[i].calls[id].options);
    } else {
      WasUnsettled(states, events, i, id);
      PutAsideIffAlive(states, events, i - 1, id);
      if e.id == id {
        CallbackPutsAside(states[i - 1].calls[id], e);
      }
    }
  }

  lemma CallbackPutsAside(c: Call, e: Event)
    requires !e.Start? && !CallAfter(c, e).settled
    ensures CallAfter(c, e).childClosedResult.Some? <==> c.childClosedResult.Some? || (e.ChildClose? && e.alive)
  {
    match e
    case Timeout(_, note) => assert OnTimeout(c, note).childClosedResult == c.childClosedResult;
    case KillTimerFires(_, note) => KillTimerPutsNothingAside(c, note);
    case ChildClose(_, exit, alive) => ClosePutsAside(c, exit, alive);
    case _ =>
  }

  lemma KillTimerPutsNothingAside(c: Call, note: string)
    ensures OnKillTimer(c, note).childClosedResult == c.childClosedResult
  {}

  lemma ClosePutsAside(c: Call, exit: Exit, alive: bool)
    requires !OnClose(c, exit, alive).settled
    ensures OnClose(c, exit, alive).childClosedResult == if alive then Some(exit) else c.childClosedResult
  {}

  /** What one event changes about the grace, when the kill timer fires only after the timeout. */
  lemma GraceOneMore(events: seq<Event>, n: nat, id: Id)
    requires n < |events| && (KillTimerFired(events, n, id) ==> TimerFired(events, n, id))
    requires events[n].Timeout? && events[n].id == id ==> !TimerFired(events, n, id)
    ensures InGrace(events, n + 1, id)
         == if events[n].id != id then InGrace(events, n, id)
            else if events[n].Timeout? then true
            else if events[n].KillTimerFires? then false
            else InGrace(events, n, id)
  {}

  /** Without a relayed signal an unsettled call waits for its kill timer exactly when in grace. */
  lemma {:induction false} WaitsIffInGrace(states: seq<System>, events: seq<Event>, i: nat, id: Id)
    requires Run(states, events) && i <= |events| && Unsettled(states, i, id) && Relayed(events, i, id).None?
    ensures states[i].calls[id].waitingForKillGrace <==> InGrace(events, i, id)
  {
    if id !in states[i - 1].calls {
      NothingBeforeStart(states, events, i - 1, id, states[i].calls[id].options);
    } else {
      WasUnsettled(states, events, i, id);
      WaitsIffInGrace(states, events, i - 1, id);
      KillTimerFollowsTimeout(states, events, i - 1, id);
      WaitStep(states, events, i - 1, id);
    }
  }

  lemma WaitStep(states: seq<System>, events: seq<Event>, k: nat, id: Id)
    requires Run(states, events) && k < |events| && Unsettled(states, k, id) && Unsettled(states, k + 1, id)
    requires Relayed(events, k + 1, id).None? && (KillTimerFired(events, k, id) ==> TimerFired(events, k, id))
    requires states[k].calls[id].waitingForKillGrace <==> InGrace(events, k, id)
    ensures states[k + 1].calls[id].waitingForKillGrace <==> InGrace(events, k + 1, id)
  {
    var e := events[k];
    FlagsAreEvents(states, events, k, id);
    RunKeepsInv(states, events, k);
    GraceOneMore(events, k, id);
    if e.id == id {
      CallbackWaits(states[k].calls[id], e);
    }
  }

  /** And then that timer is the one of the timeout. */
  lemma GraceTimerIffInGrace(states: seq<System>, events: seq<Event>, i: nat, id: Id)
    requires Run(states, events) && i <= |events| && Unsettled(states, i, id) && Relayed(events, i, id).None?
    ensures states[i].calls[id].killTimer == Grace <==> InGrace(events, i, id)
  {
    RunKeepsInv(states, events, i);
    FlagsAreEvents(states, events, i, id);
    WaitsIffInGrace(states, events, i, id);
  }

  /** Without a relayed signal the kill timer fires only after the timeout. */
  lemma {:induction false} KillTimerFollowsTimeout(states: seq<System>, events: seq<Event>, i: nat, id: Id)
    requires Run(states, events) && i <= |events| && Unsettled(states, i, id) && Relayed(events, i, id).None?
    ensures KillTimerFired(events, i, id) ==> TimerFired(events, i, id)
  {
    if id !in states[i - 1].calls {
      NothingBeforeStart(states, events, i - 1, id, states[i].calls[id].options);
    } else {
      WasUnsettled(states, events, i, id);
      KillTimerFollowsTimeout(states, events, i - 1, id);
      FlagsAreEvents(states, events, i - 1, id);
      RunKeepsInv(states, events, i - 1);
    }
  }

  lemma CallbackWaits(c: Call, e: Event)
    requires !e.Start? && !e.ParentSignal? && Inv(c) && c.parentSignalPending.None? && !CallAfter(c, e).settled
    ensures CallAfter(c, e).waitingForKillGrace
         == if e.Timeout? then true else if e.KillTimerFires? then false else c.waitingForKillGrace
  {
    match e
    case Timeout(_, note) => assert OnTimeout(c, note).waitingForKillGrace;
    case KillTimerFires(_, note) => assert !OnKillTimer(c, note).waitingForKillGrace;
    case ChildClose(_, exit, alive) =>
      assert OnClose(c, exit, alive).waitingForKillGrace == c.waitingForKillGrace;
    case _ =>
  }

  /**
   Does event `k` settle a call that is not settled yet? An error does; a close does unless a
   signal was relayed, or the group is alive in its grace; and the kill timer of a timeout does
   if a close was put aside for it.
   */
  ghost predicate Decides(states: seq<System>, events: seq<Event>, k: nat, id: Id)
    requires Run(states, events) && k < |events|
  {
    var e := events[k];
    e.id == id && id in states[k].calls
    && match e
       case ChildError(_) => true
       case ChildClose(_, _, alive) => Relayed(events, k, id).None? && !(alive && InGrace(events, k, id))
       case KillTimerFires(_, _) => states[k].calls[id].killTimer == Grace && ClosedAlive(events, k, id)
       case _ => false
  }

  /** How event `k` settles a call with these options. */
  function Verdict(options: Options, events: seq<Event>, k: nat, id: Id): Settlement
    requires k < |events|
  {
    if events[k].ChildError? then SpawnError
    else if TimerFired(events, k, id) || !events[k].ChildClose? then TimedOut
    else
      var code := events[k].exit.code.GetOr(1);
      var out, err := Concat(OutPieces(events, k, id)), Concat(ErrPieces(events, k, id));
      if code != 0 && options.rejectOnFailure then FailedExit(code)
      else if code == 0 && |out| > options.maxOutputChars then StdoutOverflow
      else
        var kept := Tail(err, options.maxOutputChars);
        Resolved(code, Tail(out, options.maxOutputChars), Capture(kept, |err| - |kept|))
  }

  ghost function DecidedAt(states: seq<System>, events: seq<Event>, n: nat, id: Id): (k: Option<nat>)
    requires Run(states, events) && n <= |events|
    ensures k.Some? ==> k.value < n && Decides(states, events, k.value, id)
                        && forall j :: 0 <= j < k.value ==> !Decides(states, events, j, id)
    ensures k.None? ==> forall j :: 0 <= j < n ==> !Decides(states, events, j, id)
  {
    if n == 0 then None
    else if DecidedAt(states, events, n - 1, id).Some? then DecidedAt(states, events, n - 1, id)
    else if Decides(states, events, n - 1, id) then Some(n - 1)
    else None
  }

  /** The outcome of a close is the verdict on what the events delivered. */
  lemma OutcomeIsVerdict(c: Call, exit: Exit, events: seq<Event>, k: nat, id: Id)
    requires k < |events| && events[k].ChildClose? && events[k].exit == exit
    requires CapturesInv(c) && RecordedFrom(c.log.(close := CloseOf(events, k, id)), events, k, id)
    requires c.timedOut <==> TimerFired(events, k, id)
    ensures CloseOutcome(c, exit) == Verdict(c.options, events, k, id)
  {
    CaptureIsTail(c.log.outChunks, c.options.maxOutputChars);
    CaptureIsTail(c.log.errChunks, c.options.maxOutputChars);
  }

  lemma CloseSettles(c: Call, exit: Exit, alive: bool)
    requires Inv(c) && !c.settled
    ensures var d := OnClose(c, exit, alive);
            if c.parentSignalPending.None? && !(alive && c.waitingForKillGrace)
            then d.log.settlements == [CloseOutcome(c, exit)]
            else d.log.settlements == []
  {
    var k := Closed(c, exit, c.waitingForKillGrace);
    assert CloseOutcome(k, exit) == CloseOutcome(c, exit);
  }

  lemma KillTimerSettles(c: Call, note: string)
    requires Inv(c) && !c.settled && c.killTimer != Off
    ensures OnKillTimer(c, note).log.settlements
         == if c.killTimer == Grace && c.childClosedResult.Some? then [TimedOut] else []
  {}

  lemma ErrorSettles(c: Call)
    requires Inv(c) && !c.settled
    ensures OnError(c).log.settlements == [SpawnError]
  {}

  lemma OthersDoNotSettle(c: Call, e: Event)
    requires Inv(c) && (e.Stdout? || e.Stderr? || e.Timeout? || e.ParentSignal?)
    ensures CallAfter(c, e).log.settlements == c.log.settlements
  {}

  /** One step: an unsettled call is settled by exactly the events that decide it. */
  lemma StepSettles(states: seq<System>, events: seq<Event>, k: nat, id: Id)
    requires Run(states, events) && k < |events| && Unsettled(states, k, id)
    ensures var c, d := states[k].calls[id], states[k + 1].calls[id];
            d.log.settlements == if Decides(states, events, k, id) then [Verdict(c.options, events, k, id)] else []
  {
    var c, e := states[k].calls[id], events[k];
    RunKeepsInv(states, events, k);
    if !e.Start? && e.id == id {
      FlagsAreEvents(states, events, k, id);
      match e
      case ChildError(_) => ErrorSettles(c);
      case ChildClose(_, exit, alive) =>
        CloseSettles(c, exit, alive);
        RecordsAreEvents(states, events, k, id);
        OutcomeIsVerdict(c, exit, events, k, id);
        if Relayed(events, k, id).None? {
          WaitsIffInGrace(states, events, k, id);
        }
      case KillTimerFires(_, note) =>
        KillTimerSettles(c, note);
        PutAsideIffAlive(states, events, k, id);
      case _ => OthersDoNotSettle(c, e);
    }
  }

  /**
   In every run a call is settled exactly by the first event that decides it, with the verdict
   on what happened before; and it is not settled as long as there is none.
   */
  lemma {:induction false} SettlementIsVerdict(states: seq<System>, events: seq<Event>, i: nat, id: Id)
    requires Run(states, events) && i <= |events| && id in states[i].calls
    ensures var c, k := states[i].calls[id], DecidedAt(states, events, i, id);
            c.log.settlements == if k.None? then [] else [Verdict(c.options, events, k.value, id)]
  {
    RunKeepsInv(states, events, i);
    if id !in states[i - 1].calls {
      NoDecisionBeforeStart(states, events, i, id);
    } else {
      SettlementIsVerdict(states, events, i - 1, id);
      FlagsAreEvents(states, events, i - 1, id);
      FlagsAreEvents(states, events, i, id);
      RunKeepsInv(states, events, i - 1);
      if Unsettled(states, i - 1, id) {
        StepSettles(states, events, i - 1, id);
      } else {
        SettlementsLast(states, events, i - 1, i, id);
      }
    }
  }

  lemma {:induction false} NoDecisionBeforeStart(states: seq<System>, events: seq<Event>, i: nat, id: Id)
    requires Run(states, events) && 0 < i <= |events| && id !in states[i - 1].calls
    ensures DecidedAt(states, events, i, id).None?
  {
    forall k | 0 <= k < i ensures id !in states[k].calls {
      NotYetStarted(states, events, k, i - 1, id);
    }
  }

  lemma {:induction false} NotYetStarted(states: seq<System>, events: seq<Event>, k: nat, i: nat, id: Id)
    requires Run(states, events) && k <= i <= |events| && id !in states[i].calls
    ensures id !in states[k].calls
    decreases i - k
  {
    if k < i {
      NotYetStarted(states, events, k, i - 1, id);
    }
  }

  // ----- No call without a pending signal is stuck -----

  /** The timeout can fire, then the kill timer, and then a close settles the call as timed out. */
  ghost predicate CanTimeOut(s: System, id: Id, note: string, exit: Exit, alive: bool) {
    Enabled(s, Timeout(id, note)) && IsKilledNext(Next(s, Timeout(id, note)), id, note, exit, alive)
  }

  ghost predicate IsKilledNext(s: System, id: Id, note: string, exit: Exit, alive: bool) {
    && id in s.calls && SIGTERM in s.calls[id].log.sent
    && Enabled(s, KillTimerFires(id, note))
    && ClosesAsTimedOut(Next(s, KillTimerFires(id, note)), id, exit, alive)
  }

  ghost predicate ClosesAsTimedOut(s: System, id: Id, exit: Exit, alive: bool) {
    && id in s.calls && SIGKILL in s.calls[id].log.sent
    && Enabled(s, ChildClose(id, exit, alive))
    && Next(s, ChildClose(id, exit, alive)).calls[id].log.settlements == [TimedOut]
  }

  /** Neither settled nor signalled nor closed, and before its timeout, in its grace, or after it. */
  ghost predicate Hangs(c: Call) {
    Inv(c) && !c.settled && c.parentSignalPending.None? && c.log.close.None?
  }

  lemma HungTimesOut(c: Call, note: string)
    requires Hangs(c) && !c.timedOut
    ensures c.timeoutArmed
    ensures var d := OnTimeout(c, note);
            Hangs(d) && d.timedOut && d.killTimer == Grace && SIGTERM in d.log.sent
  {
    TimeoutKeepsInv(c, note);
  }

  lemma HungIsKilled(c: Call, note: string)
    requires Hangs(c) && c.timedOut && c.killTimer == Grace
    ensures var d := OnKillTimer(c, note);
            Hangs(d) && d.timedOut && !d.waitingForKillGrace && SIGKILL in d.log.sent
  {
    KillTimerKeepsInv(c, note);
  }

  lemma HungClosesAsTimedOut(c: Call, exit: Exit, alive: bool)
    requires Hangs(c) && c.timedOut && !c.waitingForKillGrace
    ensures OnClose(c, exit, alive).log.settlements == [TimedOut]
  {
    CloseSettles(c, exit, alive);
  }

  /**
   A child that hangs: the timeout can fire and sends SIGTERM, then the kill timer can and sends
   SIGKILL, and the close that follows settles the call as timed out.
   */
  lemma HungCallIsKilled(states: seq<System>, events: seq<Event>, id: Id, note: string, exit: Exit, alive: bool)
    requires Run(states, events) && Unsettled(states, |events|, id)
    requires Relayed(events, |events|, id).None? && !TimerFired(events, |events|, id)
    requires CloseOf(events, |events|, id).None?
    ensures CanTimeOut(states[|events|], id, note, exit, alive)
  {
    var s, c := states[|events|], states[|events|].calls[id];
    assert Hangs(c) && !c.timedOut by {
      RunKeepsInv(states, events, |events|);
      FlagsAreEvents(states, events, |events|, id);
      RecordsAreEvents(states, events, |events|, id);
    }
    HungTimesOut(c, note);
    var d := OnTimeout(c, note);
    HungIsKilled(d, note);
    HungClosesAsTimedOut(OnKillTimer(d, note), exit, alive);
    SystemTimesOut(s, id, note, exit, alive);
  }

  lemma SystemTimesOut(s: System, id: Id, note: string, exit: Exit, alive: bool)
    requires id in s.calls && s.calls[id].timeoutArmed
    requires var d := OnTimeout(s.calls[id], note);
             && SIGTERM in d.log.sent && d.killTimer != Off
             && var k := OnKillTimer(d, note);
                && SIGKILL in k.log.sent && k.log.close.None?
                && OnClose(k, exit, alive).log.settlements == [TimedOut]
    ensures CanTimeOut(s, id, note, exit, alive)
  {
    var s1 := Next(s, Timeout(id, note));
    assert s1.calls[id] == OnTimeout(s.calls[id], note);
    var s2 := Next(s1, KillTimerFires(id, note));
    assert s2.calls[id] == OnKillTimer(s1.calls[id], note);
    assert Next(s2, ChildClose(id, exit, alive)).calls[id] == OnClose(s2.calls[id], exit, alive);
  }

  /** Every call that has neither settled nor been relayed a signal can still be settled. */
  lemma CanBeSettled(states: seq<System>, events: seq<Event>, id: Id)
    requires Run(states, events) && Unsettled(states, |events|, id) && Relayed(events, |events|, id).None?
    ensures exists e :: Enabled(states[|events|], e) && Next(states[|events|], e).calls[id].settled
                        && (e.KillTimerFires? || e.ChildClose?)
  {
    var s, c := states[|events|], states[|events|].calls[id];
    RunKeepsInv(states, events, |events|);
    FlagsAreEvents(states, events, |events|, id);
    if c.log.close.Some? {
      var e := KillTimerFires(id, "");
      KillTimerSettles(c, "");
      KillTimerKeepsInv(c, "");
      assert Enabled(s, e) && Next(s, e).calls[id].settled;
    } else {
      var e := ChildClose(id, Exit(Some(0), None), false);
      CloseSettles(c, e.exit, false);
      CloseKeepsInv(c, e.exit, false);
      assert Enabled(s, e) && Next(s, e).calls[id].settled;
    }
  }

  // ----- When the parent signal is re-raised -----

  /** A call that holds up a re-raise: not settled, or relayed a signal and not done with it. */
  ghost predicate HoldsUp(states: seq<System>, events: seq<Event>, n: nat, id: Id)
    requires n < |states| && n <= |events| && id in states[n].calls
  {
    if Relayed(events, n, id).Some? then !SignalDone(events, n, id)
    else states[n].calls[id].log.settlements == []
  }

  ghost predicate NoneHoldsUp(states: seq<System>, events: seq<Event>, n: nat)
    requires n < |states| && n <= |events|
  {
    forall id :: id in states[n].calls ==> !HoldsUp(states, events, n, id)
  }

  lemma HoldsUpIffNotReady(states: seq<System>, events: seq<Event>, n: nat, id: Id)
    requires Run(states, events) && n <= |events| && id in states[n].calls
    ensures var c := states[n].calls[id];
            HoldsUp(states, events, n, id) <==> id in states[n].active && !(c.stateSignal.Some? && c.done)
  {
    RunKeepsInv(states, events, n);
    FlagsAreEvents(states, events, n, id);
  }

  lemma NoneHoldsUpIffAllReady(states: seq<System>, events: seq<Event>, n: nat)
    requires Run(states, events) && n <= |events|
    ensures NoneHoldsUp(states, events, n) <==> AllReady(states[n])
  {
    forall id | id in states[n].calls
      ensures HoldsUp(states, events, n, id) <==>
                id in states[n].active && !(states[n].calls[id].stateSignal.Some? && states[n].calls[id].done)
    {
      HoldsUpIffNotReady(states, events, n, id);
    }
  }

  /** Does event `i` end the relay of a signal, by the kill timer armed for it or a group seen dead? */
  ghost predicate EndsRelay(states: seq<System>, events: seq<Event>, i: nat)
    requires Run(states, events) && i < |events|
  {
    var e := events[i];
    !e.Start? && e.id in states[i].calls
    && EndsSignal(events, i, e.id) && (e.KillTimerFires? ==> states[i].calls[e.id].killTimer != Grace)
  }

  lemma EndsRelayIffAttempt(states: seq<System>, events: seq<Event>, i: nat)
    requires Run(states, events) && i < |events| && !events[i].Start?
    ensures var attempt := ReraiseAttempt(states[i].calls[events[i].id], events[i]);
            && (attempt.Some? <==> EndsRelay(states, events, i))
            && (attempt.Some? ==> attempt == Relayed(events, i + 1, events[i].id))
  {
    RunKeepsInv(states, events, i);
    FlagsAreEvents(states, events, i, events[i].id);
  }

  /**
   An event that ends the relay of a signal re-raises that signal exactly when no call, of all
   ever started, holds it up; and no other event re-raises.
   */
  lemma ReraisesWhenAllDone(states: seq<System>, events: seq<Event>, i: nat)
    requires Run(states, events) && i < |events|
    ensures Reraises(states[i], events[i]) <==> EndsRelay(states, events, i) && NoneHoldsUp(states, events, i + 1)
    ensures Reraises(states[i], events[i]) ==>
              ReraiseAttempt(states[i].calls[events[i].id], events[i]) == Relayed(events, i + 1, events[i].id)
  {
    NoneHoldsUpIffAllReady(states, events, i + 1);
    if !events[i].Start? {
      EndsRelayIffAttempt(states, events, i);
    }
  }
}
