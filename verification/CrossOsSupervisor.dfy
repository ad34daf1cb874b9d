/**
 The cross-OS supervision in its own form: the module variables of the signal forwarder, one
 object per child with the variables its callbacks share, and the event loop that runs them.
 Each callback is proved to compute the function of the same name in CrossOsCommands.
 */
module CrossOsSupervisor {
  import opened Wrappers
  import C = CrossOsCommands
  import E = CrossOsEvents

  /** A child's process group, which is what a killer signals; it records what it was sent. */
  class ChildTree {
    ghost var sent: set<C.Signal>

    constructor ()
      ensures sent == {}
    {
      sent := {};
    }

    method Kill(signal: C.Signal)
      modifies this
      ensures sent == old(sent) + {signal}
    {
      sent := sent + {signal};
    }
  }

  /** The module-level state: the active killers, the forwarded exit code and its timer. */
  class SignalForwarder {
    var activeKillers: set<ChildTree>
    var exitCode: Option<int>
    var forceKillTimer: Option<set<ChildTree>>
    var exited: Option<Option<int>>

    constructor ()
      ensures activeKillers == {} && exitCode == None && forceKillTimer == None && exited == None
    {
      activeKillers, exitCode, forceKillTimer, exited := {}, None, None, None;
    }

    method KillAll(killers: set<ChildTree>, signal: C.Signal)
      modifies killers
      ensures forall tree :: tree in killers ==> tree.sent == old(tree.sent) + {signal}
    {
      var rest := killers;
      while rest != {}
        invariant rest <= killers
        invariant forall tree :: tree in killers ==>
            tree.sent == old(tree.sent) + (if tree in rest then {} else {signal})
      {
        var tree :| tree in rest;
        tree.Kill(signal);
        rest := rest - {tree};
      }
    }

    method OnSignal(signal: C.Signal)
      requires signal != C.SIGKILL
      modifies `exitCode, `forceKillTimer, `exited, activeKillers
      ensures exitCode == Some(old(exitCode).GetOr(C.SignalExitCode(signal)))
      ensures exited == if activeKillers == {} then Some(exitCode) else old(exited)
      ensures forceKillTimer == if activeKillers == {} || old(forceKillTimer).Some?
                                then old(forceKillTimer) else Some(activeKillers)
      ensures forall tree :: tree in activeKillers ==> tree.sent == old(tree.sent) + {signal}
    {
      if exitCode.None? {
        exitCode := Some(C.SignalExitCode(signal));
      }
      if activeKillers == {} {
        exited := Some(exitCode);
        return;
      }
      KillAll(activeKillers, signal);
      if forceKillTimer.None? {
        forceKillTimer := Some(activeKillers);
      }
    }

    /** The closure the timer was armed with: it kills the trees active when it was armed. */
    method OnForceKill()
      requires forceKillTimer.Some?
      modifies `exited, forceKillTimer.value
      ensures exited == Some(exitCode)
      ensures forall tree :: tree in forceKillTimer.value ==> tree.sent == old(tree.sent) + {C.SIGKILL}
    {
      KillAll(forceKillTimer.value, C.SIGKILL);
      exited := Some(exitCode);
    }

    method ExitWhenChildTreesDone()
      modifies `forceKillTimer, `exited
      ensures forceKillTimer == if exitCode.None? || activeKillers != {} then old(forceKillTimer) else None
      ensures exited == if exitCode.None? || activeKillers != {} then old(exited) else Some(exitCode)
    {
      if exitCode.None? || activeKillers != {} {
        return;
      }
      if forceKillTimer.Some? {
        forceKillTimer := None;
      }
      exited := Some(exitCode);
    }
  }

  class ChildProcess {
    const kind: C.Kind
    const tree: ChildTree
    const forwarder: SignalForwarder
    var timedOut: bool
    var settled: bool
    var timerArmed: bool
    var killWaitArmed: bool
    var callback: Option<C.Callback>
    var completed: bool
    ghost var log: C.Log

    ghost function View(): C.Child
      reads this, tree, forwarder`activeKillers
    {
      C.Child(kind, tree in forwarder.activeKillers, timedOut, settled, timerArmed, killWaitArmed, callback, completed,
              log.(sent := tree.sent))
    }

    /** A spawned child; its tree is not registered yet. */
    constructor (kind: C.Kind, forwarder: SignalForwarder)
      ensures fresh(tree) && this.forwarder == forwarder
      ensures View() == C.StartChild(kind).(registered := false)
    {
      this.kind, this.forwarder := kind, forwarder;
      tree := new ChildTree();
      timedOut, settled, timerArmed := false, false, kind.Command? && kind.hasTimeout;
      killWaitArmed, callback, completed := false, None, false;
      log := C.Log([], {}, None, false, false, None);
    }

    method Register()
      modifies forwarder`activeKillers
      ensures View() == old(View()).(registered := true)
      ensures forwarder.activeKillers == old(forwarder.activeKillers) + {tree}
    {
      forwarder.activeKillers := forwarder.activeKillers + {tree};
    }

    method Finalize(callback: C.Callback)
      modifies this
      ensures View() == C.Finalize(old(View()), callback)
    {
      if settled {
        return;
      }
      settled := true;
      timerArmed, killWaitArmed := false, false;
      this.callback := Some(callback);
    }

    method Leave()
      modifies tree, forwarder`activeKillers
      ensures View() == C.Leave(old(View()), forwarder.exitCode.Some?)
      ensures forwarder.activeKillers == old(forwarder.activeKillers) - {tree}
    {
      if forwarder.exitCode.Some? && kind.Command? {
        tree.Kill(C.SIGKILL);
      }
      forwarder.activeKillers := forwarder.activeKillers - {tree};
    }

    method OnTimeout()
      modifies this, tree
      ensures View() == C.OnTimeout(old(View()))
    {
      timedOut, timerArmed := true, false;
      tree.Kill(C.SIGKILL);
      killWaitArmed := true;
    }

    method OnKillWait()
      modifies this
      ensures View() == C.OnKillWait(old(View()))
    {
      killWaitArmed := false;
      Finalize(C.RejectUnkillable);
    }

    method OnError()
      modifies this, tree, forwarder`activeKillers
      ensures View() == C.OnError(old(View()), forwarder.exitCode.Some?)
      ensures forwarder.activeKillers == old(forwarder.activeKillers) - {tree}
    {
      log := log.(errorSeen := true);
      Leave();
      if kind.Command? {
        Finalize(C.RejectError);
      }
    }

    method OnClose(exitCode: Option<int>)
      modifies this, tree, forwarder`activeKillers
      ensures View() == C.OnClose(old(View()), exitCode, forwarder.exitCode.Some?)
      ensures forwarder.activeKillers == old(forwarder.activeKillers) - {tree}
    {
      log := log.(exit := Some(exitCode), closedLate := forwarder.exitCode.Some?);
      Leave();
      if kind.Command? {
        if forwarder.exitCode.Some? {
          Finalize(C.ExitWhenDone);
        } else {
          Finalize(C.Report(exitCode));
        }
      }
    }

    /** The log stream reports its end: a clean end runs the callback, which may exit the process. */
    method OnLogEnd(failed: bool)
      requires callback.Some?
      modifies this, forwarder`forceKillTimer, forwarder`exited
      ensures View() == C.OnLogEnd(old(View()), failed)
      ensures var exits := !old(completed) && !failed && callback == Some(C.ExitWhenDone)
                           && forwarder.exitCode.Some? && forwarder.activeKillers == {};
              && forwarder.forceKillTimer == (if exits then None else old(forwarder.forceKillTimer))
              && forwarder.exited == (if exits then Some(forwarder.exitCode) else old(forwarder.exited))
    {
      if completed {
        return;
      }
      completed := true;
      ghost var outcome: seq<C.Settlement> := [];
      if failed {
        outcome := [C.LogFailed];
      } else {
        match callback.value {
          case Report(exitCode) =>
            if timedOut {
              outcome := [C.TimedOut];
            } else if kind.Command? && kind.check && exitCode.GetOr(1) != 0 {
              outcome := [C.Failed(exitCode.GetOr(1))];
            } else {
              outcome := [C.Resolved(exitCode.GetOr(1))];
            }
          case RejectError => outcome := [C.SpawnError];
          case RejectUnkillable => outcome := [C.Unkillable];
          case ExitWhenDone => forwarder.ExitWhenChildTreesDone();
        }
      }
      log := log.(logEnded := Some(failed), settlements := log.settlements + outcome);
    }

    /** Runs the callback of one event. */
    method Deliver(e: C.Event)
      requires C.OfChild(e) && (e.LogEnds? ==> callback.Some?)
      modifies this, tree, forwarder
      ensures View() == C.ChildStep(old(View()), e, forwarder.exitCode.Some?)
      ensures forwarder.exitCode == old(forwarder.exitCode)
      ensures forwarder.activeKillers == old(forwarder.activeKillers)
                                         - (if e.ChildError? || e.ChildClose? then {tree} else {})
      ensures var exits := C.RunsExit(old(View()), e) && forwarder.exitCode.Some? && forwarder.activeKillers == {};
              && forwarder.forceKillTimer == (if exits then None else old(forwarder.forceKillTimer))
              && forwarder.exited == (if exits then Some(forwarder.exitCode) else old(forwarder.exited))
    {
      match e {
        case Timeout(_) => OnTimeout();
        case KillWaitFires(_) => OnKillWait();
        case ChildError(_) => OnError();
        case ChildClose(_, exitCode) => OnClose(exitCode);
        case LogEnds(_, failed) => OnLogEnd(failed);
      }
    }
  }

  /** The trees of some of the children. */
  ghost function TreesOf(children: map<C.Id, ChildProcess>, ids: set<C.Id>): set<ChildTree>
    requires ids <= children.Keys
  {
    set id | id in ids :: children[id].tree
  }

  lemma TreesStay(children: map<C.Id, ChildProcess>, ids: set<C.Id>, id: C.Id, started: ChildProcess)
    requires ids <= children.Keys && id !in children
    ensures TreesOf(children[id := started], ids) == TreesOf(children, ids)
  {
    var after := children[id := started];
    assert forall i :: i in ids ==> after[i] == children[i];
  }

  lemma TreesWith(children: map<C.Id, ChildProcess>, id: C.Id, started: ChildProcess)
    requires id !in children
    ensures TreesOf(children[id := started], children.Keys + {id}) == TreesOf(children, children.Keys) + {started.tree}
  {
    var after := children[id := started];
    TreesStay(children, children.Keys, id, started);
    assert after[id].tree in TreesOf(after, children.Keys + {id});
    forall tree | tree in TreesOf(after, children.Keys) ensures tree in TreesOf(after, children.Keys + {id}) {
      var i :| i in children.Keys && after[i].tree == tree;
      assert i in children.Keys + {id};
    }
  }

  /** No two children share an object, and all use the one forwarder. */
  ghost predicate Separated(children: map<C.Id, ChildProcess>, forwarder: SignalForwarder) {
    && (forall id :: id in children ==> children[id].forwarder == forwarder)
    && (forall i, j :: i in children && j in children && i != j ==>
          children[i] != children[j] && children[i].tree != children[j].tree)
  }

  lemma SeparatedWith(children: map<C.Id, ChildProcess>, forwarder: SignalForwarder, id: C.Id, started: ChildProcess)
    requires Separated(children, forwarder) && id !in children && started.forwarder == forwarder
    requires started !in children.Values && started.tree !in TreesOf(children, children.Keys)
    ensures Separated(children[id := started], forwarder)
  {
    forall i | i in children ensures children[i] != started && children[i].tree != started.tree {
      assert children[i].tree in TreesOf(children, children.Keys);
    }
  }

  /** The children started so far and the events the runtime delivers. */
  class EventLoop {
    const forwarder: SignalForwarder
    var children: map<C.Id, ChildProcess>
    /** The run of the protocol so far: `states[i]` is the process before event `i`. */
    ghost var states: seq<C.Process>
    ghost var events: seq<C.Event>

    constructor ()
      ensures Valid() && events == [] && fresh(forwarder)
    {
      forwarder := new SignalForwarder();
      children := map[];
      states, events := [C.INITIAL], [];
    }

    ghost function Trees(): set<ChildTree>
      reads this`children
    {
      TreesOf(children, children.Keys)
    }

    ghost predicate Separate()
      reads this`children
    {
      Separated(children, forwarder)
    }

    ghost predicate ViewsAre(views: map<C.Id, C.Child>)
      requires Separate()
      reads this`children, forwarder`activeKillers, children.Values, Trees()
    {
      children.Keys == views.Keys && forall id :: id in children ==> children[id].View() == views[id]
    }

    /** Does the timer hold the trees of these children? */
    ghost predicate IsTimer(timer: Option<set<ChildTree>>, ids: Option<set<C.Id>>)
      reads this`children
    {
      if ids.None? then timer.None?
      else ids.value <= children.Keys && timer == Some(TreesOf(children, ids.value))
    }

    /** The objects are the given process; `first` is a record, not a variable of the program. */
    ghost predicate Represents(p: C.Process)
      reads this`children, forwarder, children.Values, Trees()
    {
      && Separate()
      && ViewsAre(p.children)
      && forwarder.activeKillers <= Trees()
      && forwarder.exitCode == p.exitCode
      && forwarder.exited == p.exited
      && IsTimer(forwarder.forceKillTimer, p.forceKillTimer)
    }

    /** The events so far are a run of the protocol, and the objects are its last state. */
    ghost predicate Valid()
      reads this, forwarder, children.Values, Trees()
    {
      C.Run(states, events) && Represents(states[|events|])
    }

    ghost predicate Enabled(e: C.Event)
      requires Valid()
      reads this, forwarder, children.Values, Trees()
    {
      C.Enabled(states[|events|], e)
    }

    lemma TreeBelongs(ids: set<C.Id>, id: C.Id)
      requires Separate() && ids <= children.Keys && id in children
      ensures children[id].tree in TreesOf(children, ids) <==> id in ids
    {}

    lemma KillersAreRegistered(p: C.Process)
      requires Separate() && ViewsAre(p.children) && forwarder.activeKillers <= Trees()
      ensures C.Registered(p) <= children.Keys
      ensures forwarder.activeKillers == TreesOf(children, C.Registered(p))
      ensures forwarder.activeKillers == {} <==> C.Registered(p) == {}
    {
      forall id | id in children ensures id in C.Registered(p) <==> children[id].tree in forwarder.activeKillers {
        assert children[id].View() == p.children[id];
      }
      forall tree | tree in forwarder.activeKillers ensures tree in TreesOf(children, C.Registered(p)) {
        var id :| id in children && children[id].tree == tree;
        assert id in C.Registered(p);
      }
      if id :| id in C.Registered(p) {
        assert children[id].tree in TreesOf(children, C.Registered(p));
      }
    }

    lemma StartedIsNext(before: map<C.Id, ChildProcess>, p: C.Process, id: C.Id, kind: C.Kind, started: ChildProcess)
      requires before.Keys == p.children.Keys && id !in before
      requires children == before[id := started] && Separated(before, forwarder) && started.forwarder == forwarder
      requires started !in before.Values && started.tree !in TreesOf(before, before.Keys)
      requires forall other :: other in before ==> before[other].View() == p.children[other]
      requires started.View() == C.StartChild(kind)
      requires forwarder.activeKillers <= TreesOf(before, before.Keys) + {started.tree}
      requires forwarder.exitCode == p.exitCode && forwarder.exited == p.exited
      requires forwarder.forceKillTimer.Some? <==> p.forceKillTimer.Some?
      requires p.forceKillTimer.Some? ==> p.forceKillTimer.value <= before.Keys
                                          && forwarder.forceKillTimer.value == TreesOf(before, p.forceKillTimer.value)
      ensures Represents(p.(children := p.children[id := C.StartChild(kind)]))
    {
      SeparatedWith(before, forwarder, id, started);
      TreesWith(before, id, started);
      if p.forceKillTimer.Some? {
        TreesStay(before, p.forceKillTimer.value, id, started);
      }
    }

    /** Registering one more tree leaves the other children as they were. */
    method RegisterAmong(started: ChildProcess, ghost views: map<C.Id, C.Child>)
      requires Separate() && ViewsAre(views) && started.forwarder == forwarder
      requires started.tree !in Trees()
      modifies forwarder`activeKillers
      ensures Separate() && ViewsAre(views)
      ensures started.View() == old(started.View()).(registered := true)
      ensures forwarder.activeKillers == old(forwarder.activeKillers) + {started.tree}
    {
      started.Register();
      forall id | id in children ensures children[id].View() == views[id] {
        assert old(children[id].View()) == views[id];
        assert children[id].tree in Trees();
      }
    }

    /** A new child takes the objects to the next process. */
    method StartStep(id: C.Id, kind: C.Kind, ghost p: C.Process)
      requires Represents(p) && id !in p.children
      modifies this`children, forwarder`activeKillers
      ensures Represents(p.(children := p.children[id := C.StartChild(kind)]))
    {
      ghost var before := children;
      var started := new ChildProcess(kind, forwarder);
      assert ViewsAre(p.children) by {
        assert forall other :: other in before ==> before[other].View() == old(children[other].View());
      }
      RegisterAmong(started, p.children);
      children := children[id := started];
      StartedIsNext(before, p, id, kind, started);
    }

    lemma ForwardedIsNext(p: C.Process, signal: C.Signal, active: set<C.Id>, timer: Option<set<ChildTree>>)
      requires signal != C.SIGKILL && Separate() && active == C.Registered(p)
      requires children.Keys == p.children.Keys
      requires forall id :: id in children ==>
                 children[id].View() == if id in active then C.Kill(p.children[id], signal) else p.children[id]
      requires forwarder.activeKillers <= Trees() && forwarder.activeKillers == TreesOf(children, active)
      requires forwarder.activeKillers == {} <==> active == {}
      requires forwarder.exitCode == Some(p.exitCode.GetOr(C.SignalExitCode(signal)))
      requires forwarder.exited == if forwarder.activeKillers == {} then Some(forwarder.exitCode) else p.exited
      requires IsTimer(timer, p.forceKillTimer)
      requires forwarder.forceKillTimer == if forwarder.activeKillers == {} || timer.Some?
                                           then timer else Some(forwarder.activeKillers)
      ensures Represents(C.OnSignal(p, signal))
    {
      assert ViewsAre(C.KillAll(p.children, active, signal));
      if active == {} {
        assert C.KillAll(p.children, active, signal) == p.children;
      }
    }

    /** The forwarder handles the signal; the trees of the `active` children are sent it. */
    method Forward(signal: C.Signal, ghost p: C.Process, ghost active: set<C.Id>)
      requires Separate() && ViewsAre(p.children) && active <= children.Keys
      requires forwarder.activeKillers == TreesOf(children, active) && signal != C.SIGKILL
      modifies forwarder`exitCode, forwarder`forceKillTimer, forwarder`exited, Trees()
      ensures forall id :: id in children ==>
                children[id].View() == if id in active then C.Kill(p.children[id], signal) else p.children[id]
      ensures forwarder.exitCode == Some(old(forwarder.exitCode).GetOr(C.SignalExitCode(signal)))
      ensures forwarder.exited == if forwarder.activeKillers == {}
                                  then Some(forwarder.exitCode) else old(forwarder.exited)
      ensures forwarder.forceKillTimer == if forwarder.activeKillers == {} || old(forwarder.forceKillTimer).Some?
                                          then old(forwarder.forceKillTimer) else Some(forwarder.activeKillers)
    {
      forwarder.OnSignal(signal);
      forall id | id in children
        ensures children[id].View() == if id in active then C.Kill(p.children[id], signal) else p.children[id]
      {
        assert old(children[id].View()) == p.children[id];
        TreeBelongs(active, id);
      }
    }

    method SignalArrives(signal: C.Signal, ghost p: C.Process)
      requires Represents(p) && signal != C.SIGKILL
      modifies forwarder, Trees()
      ensures Represents(C.OnSignal(p, signal))
    {
      ghost var active, timer := C.Registered(p), forwarder.forceKillTimer;
      KillersAreRegistered(p);
      assert IsTimer(timer, p.forceKillTimer);
      Forward(signal, p, active);
      assert children.Keys == p.children.Keys;
      ForwardedIsNext(p, signal, active, timer);
    }

    /** The timer's closure; the trees of the `targets` are sent SIGKILL. */
    method KillTargets(ghost p: C.Process, ghost targets: set<C.Id>)
      requires Separate() && ViewsAre(p.children) && targets <= children.Keys
      requires forwarder.forceKillTimer == Some(TreesOf(children, targets))
      modifies forwarder`exited, Trees()
      ensures forall id :: id in children ==>
                children[id].View() == if id in targets then C.Kill(p.children[id], C.SIGKILL) else p.children[id]
      ensures forwarder.exited == Some(forwarder.exitCode)
    {
      forwarder.OnForceKill();
      forall id | id in children
        ensures children[id].View() == if id in targets then C.Kill(p.children[id], C.SIGKILL) else p.children[id]
      {
        assert old(children[id].View()) == p.children[id];
        TreeBelongs(targets, id);
      }
    }

    method ForceKillFires(ghost p: C.Process)
      requires Represents(p) && p.forceKillTimer.Some?
      modifies forwarder, Trees()
      ensures Represents(C.OnForceKill(p))
    {
      KillTargets(p, p.forceKillTimer.value);
    }

    lemma DeliveredIsNext(e: C.Event, p: C.Process)
      requires C.OfChild(e) && C.Enabled(p, e) && Separate()
      requires ViewsAre(p.children[e.id := C.ChildAfter(p, e)])
      requires forwarder.activeKillers <= Trees()
      requires var exits := C.RunsExit(p.children[e.id], e) && forwarder.exitCode.Some?
          && forwarder.activeKillers == {};
               && forwarder.exitCode == p.exitCode
               && IsTimer(forwarder.forceKillTimer, if exits then None else p.forceKillTimer)
               && forwarder.exited == (if exits then Some(forwarder.exitCode) else p.exited)
      ensures Represents(C.AfterChildEvent(p, e))
    {
      KillersAreRegistered(p.(children := p.children[e.id := C.ChildAfter(p, e)]));
    }

    /** The callback changes the one child; the others stay as they were. */
    method DeliverTo(e: C.Event, ghost views: map<C.Id, C.Child>)
      requires Separate() && ViewsAre(views) && C.OfChild(e) && e.id in children
      requires e.LogEnds? ==> children[e.id].callback.Some?
      modifies forwarder, children[e.id], children[e.id].tree
      ensures ViewsAre(views[e.id := C.ChildStep(views[e.id], e, forwarder.exitCode.Some?)])
      ensures forwarder.exitCode == old(forwarder.exitCode) && forwarder.activeKillers <= old(forwarder.activeKillers)
      ensures var exits := C.RunsExit(old(children[e.id].View()), e) && forwarder.exitCode.Some?
                           && forwarder.activeKillers == {};
              && forwarder.forceKillTimer == (if exits then None else old(forwarder.forceKillTimer))
              && forwarder.exited == (if exits then Some(forwarder.exitCode) else old(forwarder.exited))
    {
      children[e.id].Deliver(e);
      assert ViewsAre(views[e.id := C.ChildStep(views[e.id], e, forwarder.exitCode.Some?)]) by {
        forall id | id in children && id != e.id ensures children[id].View() == views[id] {
          assert old(children[id].View()) == views[id];
        }
      }
    }

    method DeliverToChild(e: C.Event, ghost p: C.Process)
      requires Represents(p) && C.OfChild(e) && C.Enabled(p, e)
      modifies forwarder, children[e.id], children[e.id].tree
      ensures Represents(C.AfterChildEvent(p, e))
    {
      assert children[e.id].View() == p.children[e.id];
      DeliverTo(e, p.children);
      DeliveredIsNext(e, p);
    }

    /** Any enabled event takes the objects to the next process. */
    method DispatchStep(e: C.Event, ghost p: C.Process)
      requires Represents(p) && C.Enabled(p, e)
      modifies `children, forwarder, children.Values, Trees()
      ensures Represents(C.Next(p, e))
    {
      match e {
        case Start(id, kind) => StartStep(id, kind, p);
        case SignalArrives(signal) => SignalArrives(signal, p);
        case ForceKillFires => ForceKillFires(p);
        case _ => DeliverToChild(e, p);
      }
    }

    /** Adds a step the objects have taken to the history. */
    ghost method Record(e: C.Event)
      requires C.Run(states, events) && C.Enabled(states[|events|], e)
      requires Represents(C.Next(states[|events|], e))
      modifies `states, `events
      ensures Valid() && events == old(events) + [e] && old(states) < states
    {
      C.RunExtends(states, events, e);
      states, events := states + [C.Next(states[|events|], e)], events + [e];
    }

    /** Delivers any enabled event. */
    method Dispatch(e: C.Event)
      requires Valid() && Enabled(e)
      modifies this, forwarder, children.Values, Trees()
      ensures Valid() && events == old(events) + [e] && old(states) < states
      ensures forwarder.exited.Some? ==> ExitedSafely()
    {
      DispatchStep(e, states[|events|]);
      Record(e);
      if forwarder.exited.Some? {
        ExitIsSafe();
      }
    }

    // ----- What the protocol promises, of the objects -----

    /**
     The process exited with the code of the first signal; each child registered when that
     arrived was killed or is a gateway that left the registry; and of the children registered at the exit
     exactly those were killed that were registered then or had timed out.
     */
    ghost predicate ExitedSafely()
      requires Valid()
      reads this, forwarder, children.Values, Trees()
    {
      var k := C.FirstSignal(events, |events|);
      && k.Some? && events[k.value].signal != C.SIGKILL
      && forwarder.exited == Some(Some(C.SignalExitCode(events[k.value].signal)))
      && (forall id :: id in C.Registered(states[k.value]) ==> id in children && Gone(id))
      && (forall id :: id in children && children[id].tree in forwarder.activeKillers ==>
            (C.SIGKILL in children[id].tree.sent <==> id in C.Registered(states[k.value]) || children[id].timedOut))
    }

    ghost predicate Gone(id: C.Id)
      requires Separate() && id in children
      reads this`children, forwarder`activeKillers, children.Values, Trees()
    {
      C.SIGKILL in children[id].tree.sent || C.LeftGateway(children[id].View())
    }

    lemma ExitIsSafe()
      requires Valid() && forwarder.exited.Some?
      ensures ExitedSafely()
    {
      var n := |events|;
      C.ForwardedExitIsSafe(states, events, n);
      var first := C.Registered(states[C.FirstSignal(events, n).value]);
      forall id | id in first ensures id in children && Gone(id) {
        assert children[id].View() == states[n].children[id];
      }
      forall id | id in children && children[id].tree in forwarder.activeKillers
        ensures C.SIGKILL in children[id].tree.sent <==> id in first || children[id].timedOut
      {
        assert children[id].View() == states[n].children[id];
        C.ExitKillsExactly(states, events, n, id);
      }
    }

    lemma CommandsSettleOnceAndRightly(id: C.Id)
      requires Valid() && id in children
      ensures var c := children[id].View();
              && |c.log.settlements| <= 1
              && (forall s :: s in c.log.settlements ==> C.SettledRightly(c, s))
              && C.FactsOf(c) == C.FactsFrom(events, |events|, id)
    {
      assert children[id].View() == states[|events|].children[id];
      C.CommandsSettleOnceAndRightly(states, events, |events|, id);
    }

    /**
     The events dispatched decide whether and how a child object has settled, what its tree was
     sent, and whether it can time out.
     */
    lemma ChildIsFromEvents(id: C.Id)
      requires Valid() && id in children
      ensures var k, settlements := E.LogEndAt(events, |events|, id), children[id].log.settlements;
              if k.None? then settlements == []
              else
                && children[id].kind.Command? && E.FinishAt(events, k.value, id).Some?
                && settlements
                   == E.Verdict(children[id].kind, events, E.FinishAt(events, k.value, id).value, k.value, id)
      ensures children[id].tree.sent == E.SentTo(children[id].kind, events, |events|, id)
      ensures E.FlagsOf(children[id].View()) == E.FlagsFrom(children[id].kind, events, |events|, id)
    {
      assert children[id].View() == states[|events|].children[id];
      E.SettlementIsVerdict(states, events, |events|, id);
      E.SentIsFromEvents(states, events, |events|, id, children[id].kind);
      E.FlagsAreEvents(states, events, |events|, id);
    }

    /** A settlement made at any earlier point of the run is still the object's. */
    lemma SettlementsLast(i: nat, id: C.Id)
      requires Valid() && i <= |events| && id in states[i].children && states[i].children[id].log.settlements != []
      ensures id in children && children[id].View().log.settlements == states[i].children[id].log.settlements
    {
      C.SettlementsLast(states, events, i, |events|, id);
      assert children[id].View() == states[|events|].children[id];
    }
  }
}
