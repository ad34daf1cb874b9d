/**
 `runProcess` in its own form: one object per call with the variables its closures share, the
 module-level set of parent-signal states, and the event loop that runs the callbacks. Each
 callback is proved to compute the function of the same name in RunProcess.
 */
module ProcessRuns {
  import opened Wrappers
  import opened ProcessOutput
  import R = RunProcess
  import E = ProcessEvents

  class ParentSignalState {
    var done: bool
    var signal: Option<R.Signal>

    constructor ()
      ensures !done && signal == None
    {
      done, signal := false, None;
    }
  }

  /** The shared set, and the signals the process has sent to itself. */
  class Registry {
    var states: set<ParentSignalState>
    var reraised: seq<R.Signal>

    constructor ()
      ensures states == {} && reraised == []
    {
      states, reraised := {}, [];
    }

    ghost predicate AllDone()
      reads this, states
    {
      forall state :: state in states ==> state.signal.Some? && state.done
    }

    method MaybeReraise(signal: R.Signal)
      modifies `reraised
      ensures reraised == old(reraised) + (if AllDone() then [signal] else [])
    {
      var rest := states;
      while rest != {}
        invariant rest <= states && reraised == old(reraised)
        invariant forall state :: state in states - rest ==> state.signal.Some? && state.done
      {
        var state :| state in rest;
        if state.signal == None || !state.done {
          return;
        }
        rest := rest - {state};
      }
      reraised := reraised + [signal];
    }
  }

  class ProcessRun {
    const options: R.Options
    const registry: Registry
    const parentSignalState: ParentSignalState
    var stdout: Capture
    var stderr: Capture
    var timedOut: bool
    var settled: bool
    var waitingForKillGrace: bool
    var childClosedResult: Option<R.Exit>
    var killTimer: R.KillTimer
    var timeoutArmed: bool
    var parentSignalPending: Option<R.Signal>
    var listening: bool
    ghost var log: R.Log

    ghost function View(): R.Call
      reads this, parentSignalState
    {
      R.Call(options, stdout, stderr, timedOut, settled, waitingForKillGrace, childClosedResult, killTimer,
             timeoutArmed, parentSignalPending, parentSignalState.signal, parentSignalState.done, listening, log)
    }

    /** A spawned call; its state is not in the set yet. */
    constructor (options: R.Options, registry: Registry)
      ensures fresh(parentSignalState) && this.registry == registry
      ensures View() == R.StartCall(options)
    {
      this.options, this.registry := options, registry;
      parentSignalState := new ParentSignalState();
      stdout, stderr := EMPTY, EMPTY;
      timedOut, settled, waitingForKillGrace, childClosedResult := false, false, false, None;
      killTimer, timeoutArmed, parentSignalPending, listening := R.Off, true, None, true;
      log := R.NO_LOG;
    }

    method Join()
      modifies registry`states
      ensures registry.states == old(registry.states) + {parentSignalState}
    {
      registry.states := registry.states + {parentSignalState};
    }

    method OnStdout(chunk: string)
      modifies this
      ensures View() == R.OnStdout(old(View()), chunk)
    {
      stdout := Append(stdout, chunk, options.maxOutputChars);
      log := log.(outChunks := log.outChunks + [chunk]);
    }

    method OnStderr(chunk: string)
      modifies this
      ensures View() == R.OnStderr(old(View()), chunk)
    {
      stderr := Append(stderr, chunk, options.maxOutputChars);
      log := log.(errChunks := log.errChunks + [chunk]);
    }

    method SignalChild(signal: R.Signal, note: string)
      modifies this
      ensures View() == R.SignalChild(old(View()), signal, note)
    {
      OnStderr(note);
      log := log.(sent := log.sent + {signal});
    }

    /** Runs once: later outcomes are dropped. The state leaves the set unless a signal is pending. */
    method Settle(ghost outcome: R.Settlement)
      modifies this, registry`states
      ensures View() == R.Settle(old(View()), outcome)
      ensures registry.states == old(registry.states)
                                 - (if R.Leaves(old(View()), View()) then {parentSignalState} else {})
    {
      if settled {
        return;
      }
      settled := true;
      timeoutArmed := false;
      if parentSignalPending == None && killTimer != R.Off {
        killTimer := R.Off;
      }
      if parentSignalPending == None {
        registry.states := registry.states - {parentSignalState};
      }
      listening := false;
      log := log.(settlements := log.settlements + [outcome]);
    }

    method FinishClose(exit: R.Exit)
      modifies this, registry`states
      ensures View() == R.FinishClose(old(View()), exit)
      ensures registry.states == old(registry.states)
                                 - (if R.Leaves(old(View()), View()) then {parentSignalState} else {})
    {
      ghost var outcome;
      if timedOut {
        outcome := R.TimedOut;
      } else if exit.code.GetOr(1) != 0 && options.rejectOnFailure {
        outcome := R.FailedExit(exit.code.GetOr(1));
      } else if exit.code.GetOr(1) == 0 && stdout.truncatedChars > 0 {
        outcome := R.StdoutOverflow;
      } else {
        outcome := R.Resolved(exit.code.GetOr(1), stdout.text, stderr);
      }
      Settle(outcome);
    }

    method ScheduleKill()
      modifies this
      ensures View() == R.ScheduleKill(old(View()))
    {
      if waitingForKillGrace {
        return;
      }
      waitingForKillGrace := true;
      killTimer := R.Grace;
    }

    method OnTimeout(note: string)
      modifies this
      ensures View() == R.OnTimeout(old(View()), note)
    {
      timedOut, timeoutArmed := true, false;
      SignalChild(R.SIGTERM, note);
      ScheduleKill();
    }

    /** The closure the kill timer was armed with. */
    method OnKillTimer(note: string)
      requires killTimer != R.Off
      modifies this, parentSignalState, registry
      ensures View() == R.OnKillTimer(old(View()), note)
      ensures registry.states == old(registry.states)
                                 - (if R.Leaves(old(View()), View()) then {parentSignalState} else {})
      ensures registry.reraised == old(registry.reraised)
                                   + (if old(killTimer).ParentGrace? && registry.AllDone()
                                      then [old(killTimer).signal] else [])
    {
      var armed := killTimer;
      waitingForKillGrace, killTimer := false, R.Off;
      SignalChild(R.SIGKILL, note);
      if armed.ParentGrace? {
        parentSignalState.done := true;
        registry.MaybeReraise(armed.signal);
      } else if childClosedResult.Some? {
        FinishClose(childClosedResult.value);
      }
    }

    method OnError()
      modifies this, registry`states
      ensures View() == R.OnError(old(View()))
      ensures registry.states == old(registry.states)
                                 - (if R.Leaves(old(View()), View()) then {parentSignalState} else {})
    {
      log := log.(errorSeen := true);
      Settle(R.SpawnError);
    }

    method OnClose(exit: R.Exit, alive: bool)
      modifies this, parentSignalState, registry
      ensures View() == R.OnClose(old(View()), exit, alive)
      ensures registry.states == old(registry.states)
                                 - (if R.Leaves(old(View()), View()) then {parentSignalState} else {})
      ensures registry.reraised == old(registry.reraised)
                                   + (if old(parentSignalPending).Some? && !alive && registry.AllDone()
                                      then [old(parentSignalPending).value] else [])
    {
      if parentSignalPending.Some? {
        log := log.(close := Some(exit), seenDead := log.seenDead || !alive);
        if alive {
          childClosedResult := Some(exit);
          return;
        }
        if killTimer != R.Off {
          killTimer := R.Off;
        }
        parentSignalState.done := true;
        registry.MaybeReraise(parentSignalPending.value);
        return;
      }
      if waitingForKillGrace && alive {
        log := log.(close := Some(exit));
        childClosedResult := Some(exit);
        return;
      }
      log := log.(close := Some(exit), seenDead := log.seenDead || waitingForKillGrace);
      assert View() == R.Closed(old(View()), exit, waitingForKillGrace);
      FinishClose(exit);
    }

    method Relay(signal: R.Signal, note: string)
      modifies this, parentSignalState
      ensures View() == R.Relay(old(View()), signal, note)
    {
      parentSignalPending := Some(signal);
      parentSignalState.signal := Some(signal);
      listening := false;
      SignalChild(signal, note);
    }

    method OnParentSignal(signal: R.Signal, note: string, alive: bool)
      modifies this, parentSignalState, registry`reraised
      ensures View() == R.OnParentSignal(old(View()), signal, note, alive)
      ensures registry.reraised == old(registry.reraised)
                                   + (if !alive && registry.AllDone() then [signal] else [])
    {
      Relay(signal, note);
      if !alive {
        log := log.(seenDead := true);
        parentSignalState.done := true;
        registry.MaybeReraise(signal);
        return;
      }
      waitingForKillGrace := true;
      killTimer := R.ParentGrace(signal);
    }

    /** Runs the callback of one event. */
    method Deliver(e: R.Event)
      requires !e.Start? && (e.KillTimerFires? ==> killTimer != R.Off)
      modifies this, parentSignalState, registry
      ensures View() == R.CallAfter(old(View()), e)
      ensures registry.states == old(registry.states)
                                 - (if R.Leaves(old(View()), View()) then {parentSignalState} else {})
      ensures registry.reraised == old(registry.reraised)
                                   + (var attempt := R.ReraiseAttempt(old(View()), e);
                                      if attempt.Some? && registry.AllDone() then [attempt.value] else [])
    {
      match e {
        case Stdout(_, chunk) => OnStdout(chunk);
        case Stderr(_, chunk) => OnStderr(chunk);
        case Timeout(_, note) => OnTimeout(note);
        case KillTimerFires(_, note) => OnKillTimer(note);
        case ChildError(_) => OnError();
        case ChildClose(_, exit, alive) => OnClose(exit, alive);
        case ParentSignal(_, signal, note, alive) => OnParentSignal(signal, note, alive);
      }
    }
  }

  /** The states of some of the calls. */
  ghost function StatesOf(runs: map<R.Id, ProcessRun>, ids: set<R.Id>): set<ParentSignalState>
    requires ids <= runs.Keys
  {
    set id | id in ids :: runs[id].parentSignalState
  }

  lemma StatesWith(runs: map<R.Id, ProcessRun>, ids: set<R.Id>, id: R.Id, run: ProcessRun)
    requires ids <= runs.Keys && id !in ids
    ensures StatesOf(runs[id := run], ids + {id}) == StatesOf(runs, ids) + {run.parentSignalState}
  {
    var after := runs[id := run];
    forall state | state in StatesOf(runs, ids) ensures state in StatesOf(after, ids + {id}) {
      var other :| other in ids && runs[other].parentSignalState == state;
      assert other in ids + {id} && after[other].parentSignalState == state;
    }
    assert id in ids + {id} && after[id].parentSignalState == run.parentSignalState;
  }

  lemma StatesWithout(runs: map<R.Id, ProcessRun>, ids: set<R.Id>, id: R.Id)
    requires ids <= runs.Keys && id in runs
    requires forall i :: i in ids && i != id ==> runs[i].parentSignalState != runs[id].parentSignalState
    ensures StatesOf(runs, ids - {id}) == StatesOf(runs, ids) - {runs[id].parentSignalState}
  {
    forall state | state in StatesOf(runs, ids) && state != runs[id].parentSignalState
      ensures state in StatesOf(runs, ids - {id})
    {
      var other :| other in ids && runs[other].parentSignalState == state;
      assert other in ids - {id};
    }
  }

  /** No two calls share an object, and all use the one registry. */
  ghost predicate Separated(runs: map<R.Id, ProcessRun>, registry: Registry) {
    && (forall id :: id in runs ==> runs[id].registry == registry)
    && (forall i, j :: i in runs && j in runs && i != j ==>
          runs[i] != runs[j] && runs[i].parentSignalState != runs[j].parentSignalState)
  }

  lemma SeparatedWith(runs: map<R.Id, ProcessRun>, registry: Registry, id: R.Id, started: ProcessRun)
    requires Separated(runs, registry) && id !in runs && started.registry == registry
    requires started !in runs.Values && started.parentSignalState !in StatesOf(runs, runs.Keys)
    ensures Separated(runs[id := started], registry)
  {
    forall i | i in runs ensures runs[i] != started && runs[i].parentSignalState != started.parentSignalState {
      assert runs[i].parentSignalState in StatesOf(runs, runs.Keys);
    }
  }

  /** The signals the process has sent itself after one more event. */
  ghost function Reraised(s: R.System, e: R.Event, before: seq<R.Signal>): seq<R.Signal>
    requires R.Enabled(s, e)
  {
    if R.Reraises(s, e) then before + [R.ReraiseAttempt(s.calls[e.id], e).value] else before
  }

  /** The calls started so far and the callbacks the runtime delivers to them. */
  class EventLoop {
    const registry: Registry
    var runs: map<R.Id, ProcessRun>
    /** The run of the protocol so far: `states[i]` is the system before event `i`. */
    ghost var states: seq<R.System>
    ghost var events: seq<R.Event>

    constructor ()
      ensures Valid() && events == [] && fresh(registry) && registry.reraised == []
    {
      registry := new Registry();
      runs := map[];
      states, events := [R.INITIAL], [];
    }

    ghost function States(): set<ParentSignalState>
      reads this`runs
    {
      StatesOf(runs, runs.Keys)
    }

    ghost predicate Separate()
      reads this`runs
    {
      Separated(runs, registry)
    }

    ghost predicate ViewsAre(calls: map<R.Id, R.Call>)
      reads this`runs, runs.Values, States()
    {
      runs.Keys == calls.Keys && forall id :: id in runs ==> runs[id].View() == calls[id]
    }

    /** The objects are the given system: no two calls share one, and the set is `active`. */
    ghost predicate Represents(s: R.System)
      reads this`runs, registry, runs.Values, States()
    {
      && Separate()
      && ViewsAre(s.calls)
      && s.active <= runs.Keys
      && registry.states == StatesOf(runs, s.active)
    }

    /** The events so far are a run of the protocol, and the objects are its last state. */
    ghost predicate Valid()
      reads this, registry, runs.Values, States()
    {
      R.Run(states, events) && Represents(states[|events|])
    }

    ghost predicate Enabled(e: R.Event)
      requires Valid()
      reads this, registry, runs.Values, States()
    {
      R.Enabled(states[|events|], e)
    }

    lemma AllDoneIsAllReady(s: R.System)
      requires Represents(s)
      ensures registry.AllDone() <==> R.AllReady(s)
    {
      if registry.AllDone() {
        forall id | id in s.active ensures s.calls[id].stateSignal.Some? && s.calls[id].done {
          assert runs[id].parentSignalState in registry.states;
          assert runs[id].View() == s.calls[id];
        }
      }
      if R.AllReady(s) {
        forall state | state in registry.states ensures state.signal.Some? && state.done {
          var id :| id in s.active && runs[id].parentSignalState == state;
          assert runs[id].View() == s.calls[id];
        }
      }
    }

    lemma StartedIsNext(before: map<R.Id, ProcessRun>, s: R.System, id: R.Id, options: R.Options, started: ProcessRun)
      requires before.Keys == s.calls.Keys && id !in before && s.active <= before.Keys
      requires runs == before[id := started] && Separated(before, registry) && started.registry == registry
      requires started !in before.Values && started.parentSignalState !in StatesOf(before, before.Keys)
      requires forall other :: other in before ==> before[other].View() == s.calls[other]
      requires started.View() == R.StartCall(options)
      requires registry.states == StatesOf(before, s.active) + {started.parentSignalState}
      ensures Represents(R.Next(s, R.Start(id, options)))
    {
      SeparatedWith(before, registry, id, started);
      StatesWith(before, s.active, id, started);
    }

    /** A new call takes the objects to the next system. */
    method StartStep(id: R.Id, options: R.Options, ghost s: R.System)
      requires Represents(s) && id !in s.calls
      modifies this`runs, registry`states
      ensures Represents(R.Next(s, R.Start(id, options)))
      ensures id in runs && runs == old(runs)[id := runs[id]]
    {
      ghost var before := runs;
      var started := new ProcessRun(options, registry);
      assert forall other :: other in before ==> before[other].View() == old(runs[other].View());
      started.Join();
      runs := runs[id := started];
      StartedIsNext(before, s, id, options, started);
    }

    lemma DeliveredIsNext(s: R.System, e: R.Event)
      requires R.Enabled(s, e) && !e.Start? && Separate() && s.active <= runs.Keys
      requires ViewsAre(R.Next(s, e).calls)
      requires registry.states == StatesOf(runs, s.active)
                                  - (if R.Leaves(s.calls[e.id], R.CallAfter(s.calls[e.id], e))
                                     then {runs[e.id].parentSignalState} else {})
      ensures Represents(R.Next(s, e))
    {
      StatesWithout(runs, s.active, e.id);
    }

    /** The callback changes the one call; the others stay as they were. */
    method DeliverTo(e: R.Event, ghost calls: map<R.Id, R.Call>)
      requires Separate() && ViewsAre(calls) && e.id in runs
      requires !e.Start? && (e.KillTimerFires? ==> runs[e.id].killTimer != R.Off)
      modifies registry, runs[e.id], runs[e.id].parentSignalState
      ensures ViewsAre(calls[e.id := R.CallAfter(calls[e.id], e)])
      ensures registry.states == old(registry.states)
                                 - (if R.Leaves(old(runs[e.id].View()), runs[e.id].View())
                                    then {runs[e.id].parentSignalState} else {})
      ensures registry.reraised == old(registry.reraised)
                                   + (var attempt := R.ReraiseAttempt(old(runs[e.id].View()), e);
                                      if attempt.Some? && registry.AllDone() then [attempt.value] else [])
    {
      runs[e.id].Deliver(e);
      forall id | id in runs && id != e.id ensures runs[id].View() == calls[id] {
        assert old(runs[id].View()) == calls[id];
      }
    }

    /** An enabled callback takes the objects to the next system, and re-raises exactly when that says so. */
    method DispatchStep(e: R.Event, ghost s: R.System)
      requires Represents(s) && R.Enabled(s, e) && !e.Start?
      modifies registry, runs[e.id], runs[e.id].parentSignalState
      ensures Represents(R.Next(s, e))
      ensures registry.reraised == Reraised(s, e, old(registry.reraised))
    {
      assert runs[e.id].View() == s.calls[e.id];
      DeliverTo(e, s.calls);
      assert runs[e.id].View() == R.CallAfter(s.calls[e.id], e);
      DeliveredIsNext(s, e);
      AllDoneIsAllReady(R.Next(s, e));
    }

    ghost predicate AllSafe()
      reads this`runs, runs.Values, States()
    {
      forall id :: id in runs ==> R.SafeToReraise(runs[id].View())
    }

    /** One signal more was sent: the one this call has recorded, while all calls were safe. */
    ghost predicate ReraisedSafely(before: seq<R.Signal>, id: R.Id)
      reads this`runs, registry, runs.Values, States()
    {
      && id in runs && runs[id].parentSignalState.signal.Some?
      && registry.reraised == before + [runs[id].parentSignalState.signal.value]
      && AllSafe()
    }

    /** The last step sent either no signal, or one with every call safe. */
    lemma ReraiseIsSafe(e: R.Event, s: R.System, before: seq<R.Signal>)
      requires Valid() && events != [] && events[|events| - 1] == e && states[|events| - 1] == s
      requires R.Enabled(s, e) && registry.reraised == Reraised(s, e, before)
      ensures registry.reraised == before || ReraisedSafely(before, e.id)
    {
      if R.Reraises(s, e) {
        R.ReraiseIsSafe(states, events, |events| - 1);
        forall id | id in runs ensures R.SafeToReraise(runs[id].View()) {
          assert runs[id].View() == states[|events|].calls[id];
        }
        assert runs[e.id].View() == states[|events|].calls[e.id];
      }
    }

    /** What the protocol promises of a settlement holds of the objects, whatever was dispatched. */
    lemma CallsSettleOnceAndRightly(id: R.Id)
      requires Valid() && id in runs
      ensures var c := runs[id].View();
              && |c.log.settlements| <= 1
              && (forall s :: s in c.log.settlements ==> R.SettledRightly(c, s))
              && R.RecordedFrom(c.log, events, |events|, id)
    {
      assert runs[id].View() == states[|events|].calls[id];
      R.CallsSettleOnceAndRightly(states, events, |events|, id);
    }

    /**
     The events dispatched decide how a call object has settled, what its group was sent, and
     whether it can still time out.
     */
    lemma CallIsFromEvents(id: R.Id)
      requires Valid() && id in runs
      ensures var k := E.DecidedAt(states, events, |events|, id);
              runs[id].log.settlements == if k.None? then [] else [E.Verdict(runs[id].options, events, k.value, id)]
      ensures runs[id].log.sent == E.SentTo(events, |events|, id)
      ensures E.FactsOf(runs[id].View()) == E.FactsFrom(runs[id].options, events, |events|, id)
      ensures runs[id].timeoutArmed <==> runs[id].log.settlements == [] && !E.TimerFired(events, |events|, id)
    {
      assert runs[id].View() == states[|events|].calls[id];
      E.SettlementIsVerdict(states, events, |events|, id);
      E.FlagsAreEvents(states, events, |events|, id);
      R.RunKeepsInv(states, events, |events|);
    }

    /** A settlement on record at any earlier point of the run is still the object's. */
    lemma SettlementsLast(i: nat, id: R.Id)
      requires Valid() && i <= |events| && id in states[i].calls
      ensures id in runs && states[i].calls[id].log.settlements <= runs[id].View().log.settlements
    {
      R.SettlementsLast(states, events, i, |events|, id);
      assert runs[id].View() == states[|events|].calls[id];
    }

    /** Adds a step the objects have taken to the history. */
    ghost method Record(e: R.Event)
      requires R.Run(states, events) && R.Enabled(states[|events|], e)
      requires Represents(R.Next(states[|events|], e))
      modifies `states, `events
      ensures Valid() && events == old(events) + [e] && old(states) < states
      ensures states[|events| - 1] == old(states[|events|])
    {
      R.RunExtends(states, events, e);
      states, events := states + [R.Next(states[|events|], e)], events + [e];
    }

    /** Adds a callback; `before` are the signals the process had sent itself until then. */
    ghost method RecordCallback(e: R.Event, before: seq<R.Signal>)
      requires R.Run(states, events) && R.Enabled(states[|events|], e) && !e.Start?
      requires Represents(R.Next(states[|events|], e))
      requires registry.reraised == Reraised(states[|events|], e, before)
      modifies `states, `events
      ensures Valid() && events == old(events) + [e] && old(states) < states
      ensures R.Enabled(states[|events| - 1], e)
      ensures registry.reraised == Reraised(states[|events| - 1], e, before)
      ensures registry.reraised == before || ReraisedSafely(before, e.id)
    {
      ghost var s := states[|events|];
      Record(e);
      ReraiseIsSafe(e, s, before);
    }

    /** A new call joins the run. */
    method Start(id: R.Id, options: R.Options)
      requires Valid() && id !in runs
      modifies this, registry`states
      ensures Valid() && events == old(events) + [R.Start(id, options)] && old(states) < states
      ensures id in runs && runs == old(runs)[id := runs[id]]
    {
      StartStep(id, options, states[|events|]);
      Record(R.Start(id, options));
    }

    /**
     Delivers any enabled callback. The process signals itself exactly when the step says so; the
     signal is the one the call has recorded, and every call ever started is safe at that moment.
     */
    method Dispatch(e: R.Event)
      requires Valid() && Enabled(e) && !e.Start?
      modifies `states, `events, registry, runs[e.id], runs[e.id].parentSignalState
      ensures Valid() && events == old(events) + [e] && old(states) < states
      ensures R.Enabled(states[|events| - 1], e)
      ensures registry.reraised == Reraised(states[|events| - 1], e, old(registry.reraised))
      ensures registry.reraised == old(registry.reraised) || ReraisedSafely(old(registry.reraised), e.id)
    {
      DispatchStep(e, states[|events|]);
      RecordCallback(e, old(registry.reraised));
    }
  }
}
