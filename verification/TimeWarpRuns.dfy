module TimeWarpRuns {
  // Whole runs of one object: events and anti-messages in any order, executions, rollbacks and fossil
  // collections in between. Whatever the order, the object ends in the state sequential execution of the
  // surviving events gives.

  import opened EventContainer
  import opened TimeWarpObject

  /** The object together with what the outside did: all events and anti-messages that arrived, the
      events reclaimed so far, and the largest GVT seen. */
  datatype Sys<S> = Sys(o: Obj<S>, collected: seq<Event>, delivered: set<Event>, cancelled: set<Event>, horizon: int)

  datatype Step = Arrive(e: Event) | AntiMessage(es: seq<Event>) | Run(save: bool) | Fossil(gvt: int, oldest: int)

  /** Event ids are unique per sender. */
  ghost predicate UniqueKeys(es: set<Event>) {
    forall a, b :: a in es && b in es && SameKey(a, b) ==> a == b
  }

  ghost function Contents(es: seq<Event>): set<Event> {
    set e | e in es
  }

  /** Nothing arrives twice, nor with a time below GVT; events are reclaimed only up to the oldest state
      kept. */
  ghost predicate Enabled<S(!new)>(y: Sys<S>, s: Step) {
    match s
    case Arrive(e) =>
      e !in y.delivered && y.horizon <= e.receiveTime && UniqueKeys(y.delivered + y.cancelled + {e})
    case AntiMessage(es) =>
      && es != [] && (forall i, j :: 0 <= i < j < |es| ==> es[i] != es[j])
      && (forall e :: e in es ==> e !in y.cancelled && y.horizon <= e.receiveTime)
      && UniqueKeys(y.delivered + y.cancelled + Contents(es))
    case Run(_) => true
    case Fossil(gvt, oldest) => y.horizon <= gvt && y.o.states != [] && oldest <= Kept(y.o.states, gvt)[0].time
  }

  /** Without a saved state the kernel aborts; that never happens. */
  ghost function Next<S(!new)>(exec: (S, Event) -> S, y: Sys<S>, s: Step): Sys<S>
    requires Enabled(y, s)
  {
    if y.o.states == [] then y else
    match s
    case Arrive(e) => y.(o := Deliver(exec, y.o, e), delivered := y.delivered + {e})
    case AntiMessage(es) => y.(o := Cancel(exec, y.o, es), cancelled := y.cancelled + Contents(es))
    case Run(save) => y.(o := Execute(exec, y.o, save))
    case Fossil(gvt, oldest) =>
      y.(o := Collect(y.o, gvt, oldest), horizon := gvt,
         collected := y.collected + y.o.box.processed[..Early(y.o.box.processed, oldest)])
  }

  /** The initial state is saved for time zero before anything is executed. */
  ghost function Start<S(!new)>(init: S): Sys<S> {
    Sys(Obj(0, init, [Saved(0, init)], EMPTY), [], {}, {}, 0)
  }

  /** The system after a run, and whether every step of the run was enabled. */
  ghost function After<S(!new)>(exec: (S, Event) -> S, init: S, ss: seq<Step>): (Sys<S>, bool) {
    if ss == [] then (Start(init), true)
    else
      var (y, ok) := After(exec, init, ss[..|ss| - 1]);
      var s := ss[|ss| - 1];
      if ok && Enabled(y, s) then (Next(exec, y, s), true) else (y, false)
  }

  lemma AfterOneMore<S(!new)>(exec: (S, Event) -> S, init: S, ss: seq<Step>, s: Step)
    requires After(exec, init, ss).1 && Enabled(After(exec, init, ss).0, s)
    ensures After(exec, init, ss + [s]) == (Next(exec, After(exec, init, ss).0, s), true)
  {
    assert (ss + [s])[..|ss|] == ss;
  }

  /** Each event is held or gone exactly as the messages that arrived say. */
  ghost predicate Accounted(collected: seq<Event>, c: Container, delivered: set<Event>, cancelled: set<Event>) {
    && Held(collected, c) == multiset(delivered - cancelled)
    && multiset(c.negative) == multiset(cancelled - delivered)
    && UniqueKeys(delivered + cancelled)
  }

  ghost predicate Inv<S(!new)>(exec: (S, Event) -> S, init: S, exact: bool, y: Sys<S>) {
    && Core(exec, init, exact, y.o, y.collected, y.horizon)
    && Accounted(y.collected, y.o.box, y.delivered, y.cancelled)
  }

  // ----- annihilation -----

  lemma AddOne(a: set<Event>, e: Event)
    requires e !in a
    ensures multiset(a + {e}) == multiset(a) + multiset{e}
  {
  }

  /** One more element on one side of a pair of sets. */
  lemma Arrived(a: set<Event>, b: set<Event>, e: Event)
    requires e !in a
    ensures if e in b then a + {e} - b == a - b && multiset(b - a) == multiset(b - (a + {e})) + multiset{e}
            else b - (a + {e}) == b - a && multiset(a + {e} - b) == multiset(a - b) + multiset{e}
  {
    if e in b {
      AddOne(b - (a + {e}), e);
      assert b - (a + {e}) + {e} == b - a;
    } else {
      AddOne(a - b, e);
      assert a - b + {e} == a + {e} - b;
    }
  }

  lemma CancelOne(a: multiset<Event>, b: multiset<Event>, e: Event)
    requires a + multiset{e} == b + multiset{e}
    ensures a == b
  {
    assert a == a + multiset{e} - multiset{e};
    assert b == b + multiset{e} - multiset{e};
  }

  lemma InsertHeld(collected: seq<Event>, c: Container, e: Event)
    ensures var k := Find(c.negative, e);
            if k < |c.negative| then
              && Held(collected, Insert(c, e)) == Held(collected, c)
              && multiset(c.negative) == multiset(Insert(c, e).negative) + multiset{c.negative[k]}
            else Held(collected, Insert(c, e)) == Held(collected, c) + multiset{e}
                 && Insert(c, e).negative == c.negative
  {
    var k := Find(c.negative, e);
    if k < |c.negative| { WithoutFacts(c.negative, k); }
    assert History(collected, Insert(c, e)) == History(collected, c);
  }

  lemma FoundIsIt(s: seq<Event>, e: Event, es: set<Event>)
    requires UniqueKeys(es) && e in es && forall x :: x in s ==> x in es
    ensures Find(s, e) < |s| <==> e in s
    ensures Find(s, e) < |s| ==> s[Find(s, e)] == e
  {
    var k := Find(s, e);
    if k < |s| { assert s[k] in s; }
  }

  /** An event meets its waiting anti-message and both vanish; without one it waits to be executed. */
  lemma InsertAccounted(collected: seq<Event>, c: Container, e: Event, delivered: set<Event>, cancelled: set<Event>)
    requires Accounted(collected, c, delivered, cancelled) && e !in delivered
    requires UniqueKeys(delivered + cancelled + {e})
    ensures Accounted(collected, Insert(c, e), delivered + {e}, cancelled)
  {
    InsertHeld(collected, c, e);
    Arrived(delivered, cancelled, e);
    forall x | x in c.negative ensures x in cancelled - delivered { assert x in multiset(c.negative); }
    FoundIsIt(c.negative, e, delivered + cancelled + {e});
    assert e in c.negative <==> e in multiset(c.negative);
    assert delivered + {e} + cancelled == delivered + cancelled + {e};
    if e in cancelled {
      CancelOne(multiset(Insert(c, e).negative), multiset(cancelled - (delivered + {e})), e);
    }
  }

  lemma AntiHeld(collected: seq<Event>, c: Container, a: Event)
    ensures var k := Find(c.unprocessed, a);
            var c' := HandleAntiMessage(c, a).0;
            if k < |c.unprocessed| then
              && Held(collected, c) == Held(collected, c') + multiset{c.unprocessed[k]}
              && c'.negative == c.negative
            else Held(collected, c') == Held(collected, c)
                 && multiset(c'.negative) == multiset(c.negative) + multiset{a}
  {
    var k := Find(c.unprocessed, a);
    if k < |c.unprocessed| { WithoutFacts(c.unprocessed, k); }
    assert History(collected, HandleAntiMessage(c, a).0) == History(collected, c);
  }

  lemma WaitingIsHeld(collected: seq<Event>, c: Container, e: Event)
    ensures e in Held(collected, c) <==> e in c.unprocessed || e in History(collected, c)
  {
  }

  /** An anti-message meets its waiting event and both vanish, provided that event is not executed. */
  lemma AntiAccounted(collected: seq<Event>, c: Container, a: Event, delivered: set<Event>, cancelled: set<Event>)
    requires Accounted(collected, c, delivered, cancelled) && a !in cancelled && a !in History(collected, c)
    requires UniqueKeys(delivered + cancelled + {a})
    ensures Accounted(collected, HandleAntiMessage(c, a).0, delivered, cancelled + {a})
  {
    AntiHeld(collected, c, a);
    forall x | x in c.unprocessed ensures x in delivered - cancelled {
      WaitingIsHeld(collected, c, x);
    }
    FoundIsIt(c.unprocessed, a, delivered + cancelled + {a});
    WaitingIsHeld(collected, c, a);
    Arrived(cancelled, delivered, a);
    assert delivered + (cancelled + {a}) == delivered + cancelled + {a};
    if a in delivered {
      CancelOne(Held(collected, HandleAntiMessage(c, a).0), multiset(delivered - (cancelled + {a})), a);
    }
  }

  lemma {:induction false} AntiMessagesAccounted(collected: seq<Event>, c: Container, es: seq<Event>,
                                                 delivered: set<Event>, cancelled: set<Event>)
    requires Accounted(collected, c, delivered, cancelled) && UniqueKeys(delivered + cancelled + Contents(es))
    requires forall i, j :: 0 <= i < j < |es| ==> es[i] != es[j]
    requires forall e :: e in es ==> e !in cancelled && e !in History(collected, c)
    ensures Accounted(collected, AntiMessages(c, es), delivered, cancelled + Contents(es))
    decreases |es|
  {
    if es == [] {
      assert cancelled + Contents(es) == cancelled;
    } else {
      var a, rest := es[0], es[1..];
      SplitBatch(es, delivered, cancelled);
      AntiAccounted(collected, c, a, delivered, cancelled);
      var c' := HandleAntiMessage(c, a).0;
      assert History(collected, c') == History(collected, c);
      AntiMessagesAccounted(collected, c', rest, delivered, cancelled + {a});
    }
  }

  lemma SplitBatch(es: seq<Event>, delivered: set<Event>, cancelled: set<Event>)
    requires es != [] && forall i, j :: 0 <= i < j < |es| ==> es[i] != es[j]
    ensures forall e :: e in es[1..] ==> e in es && e != es[0]
    ensures cancelled + {es[0]} + Contents(es[1..]) == cancelled + Contents(es)
    ensures delivered + (cancelled + {es[0]}) + Contents(es[1..]) == delivered + cancelled + Contents(es)
    ensures delivered + cancelled + {es[0]} <= delivered + cancelled + Contents(es)
  {
    assert Contents(es) == {es[0]} + Contents(es[1..]);
  }

  // ----- every step keeps the invariant -----

  /** The step saves no state of a time at which an event was executed before. */
  ghost predicate CleanStep<S(!new)>(y: Sys<S>, s: Step) {
    s.Run? && s.save ==> CleanSave(y.o, y.collected)
  }

  ghost predicate CleanRun<S(!new)>(exec: (S, Event) -> S, init: S, ss: seq<Step>) {
    forall k :: 0 <= k < |ss| ==> CleanStep(After(exec, init, ss[..k]).0, ss[k])
  }

  lemma ArriveKeepsInv<S(!new)>(exec: (S, Event) -> S, init: S, exact: bool, y: Sys<S>, e: Event)
    requires Inv(exec, init, exact, y) && Enabled(y, Arrive(e))
    ensures Inv(exec, init, exact, Next(exec, y, Arrive(e)))
  {
    var o' := if e.receiveTime > y.o.simTime then y.o else RollbackTo(exec, y.o, e.receiveTime);
    if e.receiveTime <= y.o.simTime {
      RollbackKeepsCore(exec, init, exact, y.o, y.collected, y.horizon, e.receiveTime);
    }
    assert AllBefore(y.collected, o'.box, e.receiveTime);
    InsertKeepsCore(exec, init, exact, o', y.collected, y.horizon, e);
    InsertAccounted(y.collected, o'.box, e, y.delivered, y.cancelled);
  }

  lemma AntiMessageKeepsInv<S(!new)>(exec: (S, Event) -> S, init: S, exact: bool, y: Sys<S>, es: seq<Event>)
    requires Inv(exec, init, exact, y) && Enabled(y, AntiMessage(es))
    ensures Inv(exec, init, exact, Next(exec, y, AntiMessage(es)))
  {
    var t := LowTime(es);
    var o' := if t <= y.o.simTime then RollbackTo(exec, y.o, t) else y.o;
    LowTimeAttained(es);
    if t <= y.o.simTime { RollbackKeepsCore(exec, init, exact, y.o, y.collected, y.horizon, t); }
    assert AllBefore(y.collected, o'.box, t);
    AntiMessagesKeepCore(exec, init, exact, o', y.collected, y.horizon, es);
    AntiMessagesAccounted(y.collected, o'.box, es, y.delivered, y.cancelled);
  }

  lemma {:induction false} LowTimeAttained(es: seq<Event>)
    requires es != []
    ensures exists e :: e in es && e.receiveTime == LowTime(es)
  {
    if |es| == 1 || es[0].receiveTime < LowTime(es[1..]) {
      assert es[0] in es;
    } else {
      LowTimeAttained(es[1..]);
      var e :| e in es[1..] && e.receiveTime == LowTime(es[1..]);
      assert e in es;
    }
  }

  lemma RunKeepsInv<S(!new)>(exec: (S, Event) -> S, init: S, exact: bool, y: Sys<S>, save: bool)
    requires Inv(exec, init, exact, y) && Enabled(y, Run(save)) && (exact ==> CleanStep(y, Run(save)))
    ensures Inv(exec, init, exact, Next(exec, y, Run(save)))
  {
    if y.o.box.unprocessed != [] {
      RunKeepsCore(exec, init, exact, y, save);
      RunHolds(exec, y, save);
    }
  }

  lemma RunKeepsCore<S(!new)>(exec: (S, Event) -> S, init: S, exact: bool, y: Sys<S>, save: bool)
    requires Core(exec, init, exact, y.o, y.collected, y.horizon) && (exact ==> CleanStep(y, Run(save)))
             && y.o.box.unprocessed != []
    ensures Core(exec, init, exact, Execute(exec, y.o, save), y.collected, y.horizon)
  {
    if save {
      ExecuteSaveKeepsCore(exec, init, exact, y.o, y.collected, y.horizon);
    } else {
      ExecuteKeepsCore(exec, init, exact, y.o, y.collected, y.horizon);
    }
  }

  lemma RunHolds<S(!new)>(exec: (S, Event) -> S, y: Sys<S>, save: bool)
    requires InOrder(y.collected, y.o.box) && y.o.box.unprocessed != []
    ensures var c := Execute(exec, y.o, save).box;
            Held(y.collected, c) == Held(y.collected, y.o.box) && c.negative == y.o.box.negative
  {
    var e := ExecuteParts(exec, y.o, y.collected);
    assert Execute(exec, y.o, save).box == Execute(exec, y.o, false).box;
  }

  lemma FossilKeepsInv<S(!new)>(exec: (S, Event) -> S, init: S, exact: bool, y: Sys<S>, gvt: int, oldest: int)
    requires Inv(exec, init, exact, y) && Enabled(y, Fossil(gvt, oldest))
    ensures Inv(exec, init, exact, Next(exec, y, Fossil(gvt, oldest)))
  {
    CollectKeepsCore(exec, init, exact, y.o, y.collected, y.horizon, gvt, oldest);
    FossilFacts(y.collected, y.o.box, oldest);
  }

  lemma StepKeepsInv<S(!new)>(exec: (S, Event) -> S, init: S, exact: bool, y: Sys<S>, s: Step)
    requires Inv(exec, init, exact, y) && Enabled(y, s) && (exact ==> CleanStep(y, s))
    ensures Inv(exec, init, exact, Next(exec, y, s))
  {
    match s
    case Arrive(e) => ArriveKeepsInv(exec, init, exact, y, e);
    case AntiMessage(es) => AntiMessageKeepsInv(exec, init, exact, y, es);
    case Run(save) => RunKeepsInv(exec, init, exact, y, save);
    case Fossil(gvt, oldest) => FossilKeepsInv(exec, init, exact, y, gvt, oldest);
  }

  lemma StartInv<S(!new)>(exec: (S, Event) -> S, init: S, exact: bool)
    ensures Inv(exec, init, exact, Start(init))
  {
    var y := Start(init);
    assert History(y.collected, y.o.box) == [];
    assert Before([], 0) == [];
  }

  /** Over every run: the executed events are in timestamp order, no waiting event belongs before one of
      them, and each event is held or gone as the arrived messages say. If the run saves cleanly, the
      state is what the executed events give. */
  lemma {:induction false} InvAlways<S(!new)>(exec: (S, Event) -> S, init: S, exact: bool, ss: seq<Step>)
    requires After(exec, init, ss).1 && (exact ==> CleanRun(exec, init, ss))
    ensures Inv(exec, init, exact, After(exec, init, ss).0)
  {
    if ss == [] {
      StartInv(exec, init, exact);
    } else {
      var n := |ss| - 1;
      var y := After(exec, init, ss[..n]).0;
      if exact {
        CleanPrefix(exec, init, ss, n);
        assert CleanStep(y, ss[n]);
      }
      InvAlways(exec, init, exact, ss[..n]);
      StepKeepsInv(exec, init, exact, y, ss[n]);
    }
  }

  lemma CleanPrefix<S(!new)>(exec: (S, Event) -> S, init: S, ss: seq<Step>, n: nat)
    requires CleanRun(exec, init, ss) && n <= |ss|
    ensures CleanRun(exec, init, ss[..n])
  {
    forall k | 0 <= k < n ensures CleanStep(After(exec, init, ss[..n][..k]).0, ss[..n][k]) {
      assert ss[..n][..k] == ss[..k];
    }
  }

  // ----- what that means -----

  ghost predicate Drained<S(!new)>(y: Sys<S>) {
    y.o.box.unprocessed == []
  }

  /** A listing of the events that arrived and were not cancelled, in timestamp order. */
  ghost predicate Survivors<S(!new)>(y: Sys<S>, order: seq<Event>) {
    Sorted(order) && multiset(order) == multiset(y.delivered - y.cancelled)
  }

  /** In every run the processed events stay in timestamp order, and once nothing waits the executed
      events are the surviving events in that order. */
  lemma ReplayOrder<S(!new)>(exec: (S, Event) -> S, init: S, ss: seq<Step>)
    requires After(exec, init, ss).1
    ensures var y := After(exec, init, ss).0;
            Sorted(y.o.box.processed) && (Drained(y) ==> Survivors(y, y.collected + y.o.box.processed))
  {
    var y := After(exec, init, ss).0;
    InvAlways(exec, init, false, ss);
    SortedSuffix(y.collected, y.o.box.processed);
  }

  lemma SortedSuffix(a: seq<Event>, b: seq<Event>)
    requires Sorted(a + b)
    ensures Sorted(b)
  {
    assert forall i :: 0 <= i < |b| ==> b[i] == (a + b)[|a| + i];
  }

  /** Once an event and its anti-message have both arrived, in either order and with anything in between,
      neither is left anywhere. */
  lemma AnnihilationComplete<S(!new)>(exec: (S, Event) -> S, init: S, ss: seq<Step>, e: Event)
    requires After(exec, init, ss).1
    requires e in After(exec, init, ss).0.delivered && e in After(exec, init, ss).0.cancelled
    ensures var y := After(exec, init, ss).0;
            e !in y.collected && e !in y.o.box.processed && e !in y.o.box.unprocessed && e !in y.o.box.negative
  {
    var y := After(exec, init, ss).0;
    InvAlways(exec, init, false, ss);
    WaitingIsHeld(y.collected, y.o.box, e);
    assert e !in multiset(y.o.box.negative);
  }
}
