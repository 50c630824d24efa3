module TimeWarpSequential {
  // Every object follows its log: whatever the object, its state is what executing the log of the same run
  // makes of its initial state. So one condition on a run, that no rollback restores an unclean state,
  // makes every object of that run compute what sequential simulation computes.

  import opened EventContainer
  import opened TimeWarpObject
  import opened TimeWarpRuns
  import opened TimeWarpLog
  import opened TimeWarpExact

  // ----- from the log to the object -----

  function SavedOf<S>(exec: (S, Event) -> S, init: S, x: Saved<seq<Event>>): Saved<S> {
    Saved(x.time, Replay(exec, init, x.state))
  }

  function StatesOf<S>(exec: (S, Event) -> S, init: S, q: seq<Saved<seq<Event>>>): seq<Saved<S>> {
    seq(|q|, i requires 0 <= i < |q| => SavedOf(exec, init, q[i]))
  }

  function ObjOf<S>(exec: (S, Event) -> S, init: S, o: Obj<seq<Event>>): Obj<S> {
    Obj(o.simTime, Replay(exec, init, o.state), StatesOf(exec, init, o.states), o.box)
  }

  ghost function SysOf<S(!new)>(exec: (S, Event) -> S, init: S, y: Sys<seq<Event>>): Sys<S> {
    Sys(ObjOf(exec, init, y.o), y.collected, y.delivered, y.cancelled, y.horizon)
  }

  lemma StatesOfSlice<S>(exec: (S, Event) -> S, init: S, q: seq<Saved<seq<Event>>>, a: nat, b: nat)
    requires a <= b <= |q|
    ensures StatesOf(exec, init, q[a..b]) == StatesOf(exec, init, q)[a..b]
  {
  }

  lemma StatesOfPlus<S>(exec: (S, Event) -> S, init: S, q: seq<Saved<seq<Event>>>, x: Saved<seq<Event>>)
    ensures StatesOf(exec, init, q + [x]) == StatesOf(exec, init, q) + [SavedOf(exec, init, x)]
  {
  }

  lemma {:induction false} RestoredOf<S>(exec: (S, Event) -> S, init: S, q: seq<Saved<seq<Event>>>, t: int)
    requires q != []
    ensures Restored(StatesOf(exec, init, q), t) == StatesOf(exec, init, Restored(q, t))
  {
    if |q| > 1 && q[|q| - 1].time > t {
      RestoredOf(exec, init, q[..|q| - 1], t);
      StatesOfSlice(exec, init, q, 0, |q| - 1);
    }
  }

  lemma {:induction false} SavingOf<S>(exec: (S, Event) -> S, init: S, q: seq<Saved<seq<Event>>>, x: Saved<seq<Event>>)
    ensures Saving(StatesOf(exec, init, q), SavedOf(exec, init, x)) == StatesOf(exec, init, Saving(q, x))
  {
    if q == [] || q[|q| - 1].time <= x.time {
      StatesOfPlus(exec, init, q, x);
    } else {
      var q' := q[..|q| - 1];
      SavingOf(exec, init, q', x);
      StatesOfSlice(exec, init, q, 0, |q| - 1);
      StatesOfPlus(exec, init, Saving(q', x), q[|q| - 1]);
    }
  }

  lemma {:induction false} LowerBoundOf<S>(exec: (S, Event) -> S, init: S, q: seq<Saved<seq<Event>>>, t: int)
    ensures LowerBound(StatesOf(exec, init, q), t) == LowerBound(q, t)
  {
    if q != [] && q[0].time < t {
      LowerBoundOf(exec, init, q[1..], t);
      StatesOfSlice(exec, init, q, 1, |q|);
      assert q[1..|q|] == q[1..];
    }
  }

  lemma KeptOf<S>(exec: (S, Event) -> S, init: S, q: seq<Saved<seq<Event>>>, t: int)
    ensures Kept(StatesOf(exec, init, q), t) == StatesOf(exec, init, Kept(q, t))
  {
    LowerBoundOf(exec, init, q, t);
    var n := LowerBound(q, t);
    if n > 0 {
      StatesOfSlice(exec, init, q, n - 1, |q|);
      assert q[n - 1..|q|] == q[n - 1..];
    }
  }

  lemma ExecuteOf<S>(exec: (S, Event) -> S, init: S, o: Obj<seq<Event>>, save: bool)
    ensures Execute(exec, ObjOf(exec, init, o), save) == ObjOf(exec, init, Execute(Log, o, save))
  {
    var e := NextEvent(o.box).1;
    if e.Some? {
      ReplayAppend(exec, init, o.state, e.value);
      SavingOf(exec, init, o.states, Saved(e.value.receiveTime, o.state));
    }
  }

  lemma {:induction false} CoastOf<S>(exec: (S, Event) -> S, init: S, o: Obj<seq<Event>>, t: int)
    ensures Coast(exec, ObjOf(exec, init, o), t) == ObjOf(exec, init, Coast(Log, o, t))
    decreases |o.box.unprocessed|
  {
    CoastStep(Log, o, t);
    CoastStep(exec, ObjOf(exec, init, o), t);
    var e := NextEvent(o.box).1;
    if e.Some? && e.value.receiveTime < t {
      ExecuteOf(exec, init, o, false);
      CoastOf(exec, init, Execute(Log, o, false), t);
    }
  }

  lemma AtRestoredOf<S>(exec: (S, Event) -> S, init: S, o: Obj<seq<Event>>, t: int)
    requires o.states != []
    ensures AtRestored(ObjOf(exec, init, o), t) == ObjOf(exec, init, AtRestored(o, t))
  {
    RestoredOf(exec, init, o.states, t);
  }

  lemma RestoreThenCoast<S>(exec: (S, Event) -> S, o: Obj<S>, t: int)
    requires o.states != []
    ensures RollbackTo(exec, o, t) == Coast(exec, AtRestored(o, t), t)
  {
  }

  lemma RollbackOf<S>(exec: (S, Event) -> S, init: S, o: Obj<seq<Event>>, t: int)
    requires o.states != []
    ensures RollbackTo(exec, ObjOf(exec, init, o), t) == ObjOf(exec, init, RollbackTo(Log, o, t))
  {
    RestoreThenCoast(exec, ObjOf(exec, init, o), t);
    RestoreThenCoast(Log, o, t);
    AtRestoredOf(exec, init, o, t);
    CoastOf(exec, init, AtRestored(o, t), t);
  }

  lemma EnabledOf<S(!new)>(exec: (S, Event) -> S, init: S, y: Sys<seq<Event>>, s: Step)
    ensures Enabled(SysOf(exec, init, y), s) <==> Enabled(y, s)
  {
    if s.Fossil? { KeptOf(exec, init, y.o.states, s.gvt); }
  }

  lemma ArriveOf<S(!new)>(exec: (S, Event) -> S, init: S, o: Obj<seq<Event>>, e: Event)
    requires o.states != []
    ensures Deliver(exec, ObjOf(exec, init, o), e) == ObjOf(exec, init, Deliver(Log, o, e))
  {
    RollbackOf(exec, init, o, e.receiveTime);
  }

  lemma CancelOf<S(!new)>(exec: (S, Event) -> S, init: S, o: Obj<seq<Event>>, es: seq<Event>)
    requires o.states != [] && es != []
    ensures Cancel(exec, ObjOf(exec, init, o), es) == ObjOf(exec, init, Cancel(Log, o, es))
  {
    RollbackOf(exec, init, o, LowTime(es));
  }

  lemma StepOf<S(!new)>(exec: (S, Event) -> S, init: S, y: Sys<seq<Event>>, s: Step)
    ensures Enabled(SysOf(exec, init, y), s) <==> Enabled(y, s)
    ensures Enabled(y, s) ==> Next(exec, SysOf(exec, init, y), s) == SysOf(exec, init, Next(Log, y, s))
  {
    EnabledOf(exec, init, y, s);
    if y.o.states != [] && Enabled(y, s) {
      match s
      case Arrive(e) => ArriveOf(exec, init, y.o, e);
      case AntiMessage(es) => CancelOf(exec, init, y.o, es);
      case Run(save) => ExecuteOf(exec, init, y.o, save);
      case Fossil(gvt, _) => KeptOf(exec, init, y.o.states, gvt);
    }
  }

  /** For every object and every run: the object's state, saved states, clock and queues are what its log
      makes of them. */
  lemma {:induction false} LogDetermines<S(!new)>(exec: (S, Event) -> S, init: S, ss: seq<Step>)
    ensures After(exec, init, ss).1 == After(Log, [], ss).1
    ensures After(exec, init, ss).0 == SysOf(exec, init, After(Log, [], ss).0)
  {
    if ss == [] {
      assert StatesOf(exec, init, [Saved(0, [])]) == [Saved(0, init)];
    } else {
      LogDetermines(exec, init, ss[..|ss| - 1]);
      StepOf(exec, init, After(Log, [], ss[..|ss| - 1]).0, ss[|ss| - 1]);
    }
  }

  // ----- Time Warp and sequential simulation -----

  /** If every rollback restores a clean state, the state is always what the executed events give. */
  lemma StateIsReplay<S(!new)>(exec: (S, Event) -> S, init: S, ss: seq<Step>)
    requires After(exec, init, ss).1 && RestoresCleanly(ss)
    ensures var y := After(exec, init, ss).0;
            y.o.state == Replay(exec, init, y.collected + y.o.box.processed)
  {
    LogDetermines(exec, init, ss);
    InStepIff(ss);
  }

  /** Time Warp computes what sequential simulation computes: once nothing waits, the executed events are
      the surviving events in timestamp order, and the state is what executing them in that order gives. */
  lemma SequentialEquivalence<S(!new)>(exec: (S, Event) -> S, init: S, ss: seq<Step>, order: seq<Event>)
    requires After(exec, init, ss).1 && RestoresCleanly(ss) && Drained(After(exec, init, ss).0)
    requires Survivors(After(exec, init, ss).0, order)
    ensures var y := After(exec, init, ss).0;
            y.collected + y.o.box.processed == order && y.o.state == Replay(exec, init, order)
  {
    var y := After(exec, init, ss).0;
    ReplayOrder(exec, init, ss);
    StateIsReplay(exec, init, ss);
    SortedUnique(y.collected + y.o.box.processed, order);
  }

  /** The order in which events and anti-messages arrive, and all rollbacks, savings and collections in
      between, are irrelevant. */
  lemma ArrivalOrderIrrelevant<S(!new)>(exec: (S, Event) -> S, init: S, ss: seq<Step>, ss': seq<Step>)
    requires After(exec, init, ss).1 && RestoresCleanly(ss) && Drained(After(exec, init, ss).0)
    requires After(exec, init, ss').1 && RestoresCleanly(ss') && Drained(After(exec, init, ss').0)
    requires var y, y' := After(exec, init, ss).0, After(exec, init, ss').0;
             y.delivered - y.cancelled == y'.delivered - y'.cancelled
    ensures After(exec, init, ss).0.o.state == After(exec, init, ss').0.o.state
  {
    var y := After(exec, init, ss).0;
    ReplayOrder(exec, init, ss);
    var order := y.collected + y.o.box.processed;
    SequentialEquivalence(exec, init, ss, order);
    SequentialEquivalence(exec, init, ss', order);
  }

  // ----- runs that restore cleanly -----

  lemma CleanStateRestored(y: Sys<seq<Event>>, t: int)
    requires Inv(Log, [], true, y) && y.horizon <= t
    ensures RestoresAt(y.o, t)
  {
    var h := History(y.collected, y.o.box);
    var q := Restored(y.o.states, t);
    RestoredPrefix(y.o.states, t);
    var x := y.o.states[|q| - 1];
    ReplayLog(Before(h, x.time));
    BeforeTimes(h, x.time);
  }

  lemma CleanStepRestores(y: Sys<seq<Event>>, s: Step)
    requires Inv(Log, [], true, y) && Enabled(y, s)
    ensures StepRestoresCleanly(y, s)
  {
    match s
    case Arrive(e) => CleanStateRestored(y, e.receiveTime);
    case AntiMessage(es) =>
      LowTimeAttained(es);
      CleanStateRestored(y, LowTime(es));
    case Run(_) =>
    case Fossil(_, _) =>
  }

  lemma CleanRunOfLog<S(!new)>(exec: (S, Event) -> S, init: S, ss: seq<Step>)
    requires CleanRun(exec, init, ss)
    ensures CleanRun(Log, [], ss)
  {
    forall k | 0 <= k < |ss| ensures CleanStep(After(Log, [], ss[..k]).0, ss[k]) {
      LogDetermines(exec, init, ss[..k]);
      assert CleanStep(After(exec, init, ss[..k]).0, ss[k]);
    }
  }

  lemma {:induction false} CleanLogRestoresCleanly(ss: seq<Step>)
    requires After(Log, [], ss).1 && CleanRun(Log, [], ss)
    ensures RestoresCleanly(ss)
  {
    if ss != [] {
      var n := |ss| - 1;
      CleanPrefix(Log, [], ss, n);
      CleanLogRestoresCleanly(ss[..n]);
      InvAlways(Log, [], true, ss[..n]);
      CleanStepRestores(After(Log, [], ss[..n]).0, ss[n]);
    }
  }

  /** A run that saves no state of a time at which an event was executed restores none. */
  lemma CleanRunRestoresCleanly<S(!new)>(exec: (S, Event) -> S, init: S, ss: seq<Step>)
    requires After(exec, init, ss).1 && CleanRun(exec, init, ss)
    ensures RestoresCleanly(ss)
  {
    CleanRunOfLog(exec, init, ss);
    LogDetermines(exec, init, ss);
    CleanLogRestoresCleanly(ss);
  }

  /** If no two events of the object have the same receive time, every run restores cleanly. */
  lemma DistinctTimesRestoreCleanly<S(!new)>(exec: (S, Event) -> S, init: S, ss: seq<Step>)
    requires After(exec, init, ss).1 && DistinctTimes(After(exec, init, ss).0.delivered)
    ensures RestoresCleanly(ss)
  {
    DistinctTimesRunClean(exec, init, ss);
    CleanRunRestoresCleanly(exec, init, ss);
  }
}
