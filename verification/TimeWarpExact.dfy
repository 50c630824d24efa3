module TimeWarpExact {
  // Where the anti-message and saving code falls short without the discipline of the runs, and exactly when.

  import opened EventContainer
  import opened TimeWarpObject
  import opened TimeWarpRuns
  import opened TimeWarpLog

  /** If no two events of the object have the same receive time, every save is clean. */
  lemma DistinctTimesSaveClean<S(!new)>(exec: (S, Event) -> S, init: S, y: Sys<S>)
    requires Inv(exec, init, false, y)
    requires DistinctTimes(y.delivered)
    ensures CleanSave(y.o, y.collected)
  {
    var c := y.o.box;
    ResortFacts(c);
    if NextEvent(c).1.Some? {
      var e := NextEvent(c).1.value;
      NextIsLatest(y.collected, c, e);
      forall h | h in History(y.collected, c) ensures h.receiveTime < e.receiveTime {
        assert Held(y.collected, c)[e] == multiset(History(y.collected, c))[e] + multiset(c.unprocessed)[e];
        assert e in Held(y.collected, c) && h in Held(y.collected, c);
      }
    }
  }

  ghost predicate DistinctTimes(es: set<Event>) {
    forall a, b :: a in es && b in es && a != b ==> a.receiveTime != b.receiveTime
  }

  lemma {:induction false} PrefixRuns<S(!new)>(exec: (S, Event) -> S, init: S, ss: seq<Step>, k: nat)
    requires After(exec, init, ss).1 && k <= |ss|
    ensures After(exec, init, ss[..k]).1
    ensures After(exec, init, ss[..k]).0.delivered <= After(exec, init, ss).0.delivered
  {
    if k == |ss| {
      assert ss[..k] == ss;
    } else {
      assert ss[..|ss| - 1][..k] == ss[..k];
      PrefixRuns(exec, init, ss[..|ss| - 1], k);
    }
  }

  /** If no two events of the object have the same receive time, every run saves cleanly. */
  lemma DistinctTimesRunClean<S(!new)>(exec: (S, Event) -> S, init: S, ss: seq<Step>)
    requires After(exec, init, ss).1 && DistinctTimes(After(exec, init, ss).0.delivered)
    ensures CleanRun(exec, init, ss)
  {
    forall k | 0 <= k < |ss| ensures CleanStep(After(exec, init, ss[..k]).0, ss[k]) {
      PrefixRuns(exec, init, ss, k);
      InvAlways(exec, init, false, ss[..k]);
      DistinctTimesSaveClean(exec, init, After(exec, init, ss[..k]).0);
    }
  }

  /** Without a rollback first, an anti-message annihilates its event if and only if that event has not
      been executed; otherwise it stays queued beside the executed event. */
  lemma AntiMessageExactIff(collected: seq<Event>, c: Container, a: Event, delivered: set<Event>, cancelled: set<Event>)
    requires Accounted(collected, c, delivered, cancelled) && a in delivered && a !in cancelled
    ensures HandleAntiMessage(c, a).1 <==> a !in History(collected, c)
    ensures a in History(collected, c) ==>
              a in HandleAntiMessage(c, a).0.negative && a in History(collected, HandleAntiMessage(c, a).0)
  {
    forall x | x in c.unprocessed ensures x in delivered { WaitingIsHeld(collected, c, x); }
    FoundIsIt(c.unprocessed, a, delivered + cancelled);
    WaitingIsHeld(collected, c, a);
    assert Held(collected, c)[a] == multiset(History(collected, c))[a] + multiset(c.unprocessed)[a];
    assert a in c.unprocessed <==> multiset(c.unprocessed)[a] > 0;
  }

  const E1 := Event(5, 1, 0)
  const E2 := Event(5, 2, 0)
  const E3 := Event(5, 3, 0)

  function BothWaiting(): Obj<seq<Event>> {
    Obj(0, [], [Saved(0, [])], Container([E1, E2], [], [], [], false))
  }

  function BothExecuted(): Obj<seq<Event>> {
    Obj(5, [E1, E2], [Saved(0, []), Saved(5, []), Saved(5, [E1])], Container([], [E1, E2], [], [], true))
  }

  lemma ExecuteBoth()
    ensures Execute(Log, Execute(Log, BothWaiting(), true), true) == BothExecuted()
  {
    assert Place([E2], E1) == [E1, E2];
    assert SortEvents([E2]) == [E2] by { assert SortEvents([]) == []; }
    assert SortEvents([E1, E2]) == [E1, E2] by { assert [E1, E2][1..] == [E2]; }
    var p := Execute(Log, BothWaiting(), true);
    assert p.state == [E1] && p.states == [Saved(0, []), Saved(5, [])];
    assert p.box.unprocessed == [E2] && p.box.processed == [E1];
    var r := Execute(Log, p, true);
    assert r.state == [E1, E2] && r.states == BothExecuted().states;
    assert r.box.unprocessed == [] && r.box.processed == [E1, E2];
  }

  lemma RollBoth()
    ensures var o := RollbackTo(Log, BothExecuted(), 5);
            o.state == [E1] && E1 in o.box.unprocessed && o.box.processed == [] && o.box.negative == []
  {
    var o := BothExecuted();
    assert Restored(o.states, 5) == o.states;
    assert Early([E1, E2], 5) == 0;
    var c := Rollback(o.box, 5);
    assert c.processed == [] && multiset(c.unprocessed) == multiset{E1, E2};
    ResortFacts(c);
    assert forall u :: u in c.unprocessed ==> u.receiveTime == 5;
    var r := Coast(Log, Obj(5, [E1], o.states, c), 5);
    assert r == Obj(5, [E1], o.states, Resort(c));
    assert E1 in multiset(Resort(c).unprocessed);
  }

  ghost function SameTimeRun(): seq<Step> {
    [Arrive(E1)] + [Arrive(E2)] + [Run(true)] + [Run(true)] + [Arrive(E3)]
  }

  lemma StepOn(ss: seq<Step>, y: Sys<seq<Event>>, s: Step)
    requires After(Log, [], ss) == (y, true) && Enabled(y, s)
    ensures After(Log, [], ss + [s]) == (Next(Log, y, s), true)
  {
    AfterOneMore(Log, [], ss, s);
  }

  ghost function AfterBoth(o: Obj<seq<Event>>): Sys<seq<Event>> {
    Sys(o, [], {E1, E2}, {}, 0)
  }

  lemma BothArrive()
    ensures After(Log, [], [Arrive(E1)] + [Arrive(E2)]) == (AfterBoth(BothWaiting()), true)
  {
    var y0: Sys<seq<Event>> := Start([]);
    assert After(Log, [], []) == (y0, true);
    StepOn([], y0, Arrive(E1));
    assert [] + [Arrive(E1)] == [Arrive(E1)];
    var y1 := Next(Log, y0, Arrive(E1));
    StepOn([Arrive(E1)], y1, Arrive(E2));
    var y2 := Next(Log, y1, Arrive(E2));
    assert y2.o == BothWaiting();
    assert y2.delivered == {E1, E2} && y2.cancelled == {} && y2.collected == [];
  }

  lemma BothRun()
    ensures After(Log, [], [Arrive(E1)] + [Arrive(E2)] + [Run(true)] + [Run(true)]) == (AfterBoth(BothExecuted()), true)
  {
    BothArrive();
    StepOn([Arrive(E1)] + [Arrive(E2)], AfterBoth(BothWaiting()), Run(true));
    StepOn([Arrive(E1)] + [Arrive(E2)] + [Run(true)], AfterBoth(Execute(Log, BothWaiting(), true)), Run(true));
    ExecuteBoth();
  }

  /** Two events of one time are executed, the state being saved before each; a third event of that time
      arrives. The state restored already contains the first event, which waits to be executed again. */
  lemma UncleanRunGoesWrong()
    ensures var (y, ok) := After(Log, [], SameTimeRun());
            && ok && y.delivered == {E1, E2, E3} && y.o.state == [E1]
            && History(y.collected, y.o.box) == [] && E1 in y.o.box.unprocessed
  {
    BothRun();
    RollBoth();
    StepOn([Arrive(E1)] + [Arrive(E2)] + [Run(true)] + [Run(true)], AfterBoth(BothExecuted()), Arrive(E3));
  }
}
