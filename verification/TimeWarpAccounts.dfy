module TimeWarpAccounts {
  // Where every event that arrived is, over whole runs: reclaimed, executed, waiting, or on the list of removed
  // events, exactly once; and what one arrival does to the events that were there.

  import opened EventContainer
  import opened TimeWarpObject
  import opened TimeWarpRuns

  /** The events whose memory the container is responsible for. */
  ghost function Owned(c: Container): multiset<Event> {
    multiset(c.processed) + multiset(c.unprocessed) + multiset(c.removed)
  }

  /** The removed events a collection up to `t` frees. */
  ghost function Gone(c: Container, t: int): multiset<Event> {
    multiset(c.removed) - multiset(NotBefore(c.removed, t))
  }

  // ----- the container -----

  /** Whether or not it meets its anti-message, an event that arrives is owned from then on. */
  lemma InsertOwns(c: Container, e: Event)
    ensures Owned(Insert(c, e)) == Owned(c) + multiset{e}
  {
  }

  /** An event that is annihilated while it waits is owned as before. */
  lemma AntiMessageOwns(c: Container, a: Event)
    ensures Owned(HandleAntiMessage(c, a).0) == Owned(c)
  {
    var k := Find(c.unprocessed, a);
    if k < |c.unprocessed| { WithoutFacts(c.unprocessed, k); }
  }

  lemma {:induction false} AntiMessagesOwn(c: Container, es: seq<Event>)
    ensures Owned(AntiMessages(c, es)) == Owned(c)
    decreases |es|
  {
    if es != [] {
      AntiMessageOwns(c, es[0]);
      AntiMessagesOwn(HandleAntiMessage(c, es[0]).0, es[1..]);
    }
  }

  lemma RollbackOwns(c: Container, t: int)
    ensures Owned(Rollback(c, t)) == Owned(c)
  {
    var n := Early(c.processed, t);
    assert c.processed == c.processed[..n] + c.processed[n..];
  }

  lemma NextOwns(c: Container)
    ensures Owned(NextEvent(c).0) == Owned(c)
  {
    SortEventsSorts(c.unprocessed);
  }

  lemma GetNextOwns(c: Container)
    ensures Owned(GetNextEvent(c).0) == Owned(c)
  {
    NextOwns(c);
    var c' := NextEvent(c).0;
    if c'.unprocessed != [] { assert c'.unprocessed == [c'.unprocessed[0]] + c'.unprocessed[1..]; }
  }

  /** Exactly the removed events before `t` are freed. */
  lemma GoneIs(c: Container, t: int, e: Event)
    ensures Gone(c, t)[e] == if e.receiveTime < t then multiset(c.removed)[e] else 0
  {
    NotBeforeIs(c.removed, t, e);
  }

  lemma FossilOwns(c: Container, t: int)
    ensures multiset(c.processed[..Early(c.processed, t)]) + Gone(c, t) + Owned(FossilCollect(c, t)) == Owned(c)
  {
    var n := Early(c.processed, t);
    assert c.processed == c.processed[..n] + c.processed[n..];
    SortEventsSorts(c.unprocessed);
    forall e ensures multiset(NotBefore(c.removed, t))[e] <= multiset(c.removed)[e] { NotBeforeIs(c.removed, t, e); }
    assert Gone(c, t) + multiset(NotBefore(c.removed, t)) == multiset(c.removed);
  }

  // ----- the object -----

  lemma {:induction false} CoastOwns<S>(exec: (S, Event) -> S, o: Obj<S>, t: int)
    ensures Owned(Coast(exec, o, t).box) == Owned(o.box)
    decreases |o.box.unprocessed|
  {
    var (c, e) := NextEvent(o.box);
    NextOwns(o.box);
    if e.Some? && e.value.receiveTime < t {
      GetNextOwns(o.box);
      CoastOwns(exec, o.(simTime := e.value.receiveTime, state := exec(o.state, e.value),
                         box := GetNextEvent(o.box).0), t);
    }
  }

  lemma RollbackToOwns<S>(exec: (S, Event) -> S, o: Obj<S>, t: int)
    requires o.states != []
    ensures Owned(RollbackTo(exec, o, t).box) == Owned(o.box)
  {
    CoastOwns(exec, AtRestored(o, t), t);
    RollbackOwns(o.box, AtRestored(o, t).simTime);
  }

  /** An event ahead of the clock disturbs nothing: clock, states and executed events stay. */
  lemma AheadUndisturbed<S>(exec: (S, Event) -> S, o: Obj<S>, e: Event)
    requires o.states != [] && e.receiveTime > o.simTime
    ensures var o' := Deliver(exec, o, e);
            && o'.simTime == o.simTime && o'.state == o.state && o'.states == o.states
            && o'.box.processed == o.box.processed && forall u :: u in o.box.unprocessed ==> u in o'.box.unprocessed
  {
  }

  /** One that is not divides the events at its time: exactly those before it are executed, the others wait, and
      it waits with them unless its anti-message has come. */
  lemma StragglerDivides<S(!new)>(exec: (S, Event) -> S, o: Obj<S>, collected: seq<Event>, horizon: int, e: Event)
    requires InOrder(collected, o.box) && Timely(o, collected, horizon) && horizon <= e.receiveTime <= o.simTime
    ensures var c := Deliver(exec, o, e).box;
            && AllBefore(collected, c, e.receiveTime)
            && (forall u :: u in c.unprocessed ==> u.receiveTime >= e.receiveTime)
            && Owned(c) == Owned(o.box) + multiset{e}
  {
    RollbackDivides(exec, o, collected, horizon, e.receiveTime);
    RollbackToOwns(exec, o, e.receiveTime);
    InsertOwns(RollbackTo(exec, o, e.receiveTime).box, e);
  }

  lemma CancelOwns<S>(exec: (S, Event) -> S, o: Obj<S>, es: seq<Event>)
    requires o.states != [] && es != []
    ensures Owned(Cancel(exec, o, es).box) == Owned(o.box)
  {
    var o' := if LowTime(es) <= o.simTime then RollbackTo(exec, o, LowTime(es)) else o;
    if LowTime(es) <= o.simTime { RollbackToOwns(exec, o, LowTime(es)); }
    AntiMessagesOwn(o'.box, es);
  }

  lemma {:induction false} AntiMessagesOnlyWaiting(c: Container, es: seq<Event>)
    ensures AntiMessages(c, es).processed == c.processed
    ensures forall u :: u in AntiMessages(c, es).unprocessed ==> u in c.unprocessed
    decreases |es|
  {
    if es != [] {
      var k := Find(c.unprocessed, es[0]);
      if k < |c.unprocessed| { WithoutFacts(c.unprocessed, k); }
      AntiMessagesOnlyWaiting(HandleAntiMessage(c, es[0]).0, es[1..]);
    }
  }

  /** Anti-messages ahead of the clock disturb neither clock, states nor executed events; a batch that is not
      divides the events at its lowest time. */
  lemma CancelDivides<S(!new)>(exec: (S, Event) -> S, o: Obj<S>, collected: seq<Event>, horizon: int, es: seq<Event>)
    requires InOrder(collected, o.box) && Timely(o, collected, horizon) && es != [] && horizon <= LowTime(es)
    ensures var o' := Cancel(exec, o, es);
            && Owned(o'.box) == Owned(o.box)
            && (if LowTime(es) <= o.simTime then
                  && AllBefore(collected, o'.box, LowTime(es))
                  && (forall u :: u in o'.box.unprocessed ==> u.receiveTime >= LowTime(es))
                else o'.simTime == o.simTime && o'.state == o.state && o'.states == o.states
                     && o'.box.processed == o.box.processed)
  {
    var t := LowTime(es);
    var o' := if t <= o.simTime then RollbackTo(exec, o, t) else o;
    if t <= o.simTime { RollbackDivides(exec, o, collected, horizon, t); }
    CancelOwns(exec, o, es);
    AntiMessagesOnlyWaiting(o'.box, es);
  }

  // ----- whole runs -----

  /** What a step takes from the list of removed events. */
  ghost function Frees<S(!new)>(y: Sys<S>, s: Step): multiset<Event> {
    match s
    case Fossil(_, oldest) => Gone(y.o.box, oldest)
    case _ => multiset{}
  }

  /** The removed events freed in the course of a run. */
  ghost function Freed<S(!new)>(exec: (S, Event) -> S, init: S, ss: seq<Step>): multiset<Event> {
    if ss == [] then multiset{}
    else Freed(exec, init, ss[..|ss| - 1]) + Frees(After(exec, init, ss[..|ss| - 1]).0, ss[|ss| - 1])
  }

  /** Every event that arrived is in exactly one place: executed and collected, freed, or owned. */
  ghost predicate Placed<S(!new)>(y: Sys<S>, freed: multiset<Event>) {
    multiset(y.collected) + freed + Owned(y.o.box) == multiset(y.delivered)
  }

  lemma ArrivePlaces<S(!new)>(exec: (S, Event) -> S, y: Sys<S>, e: Event, freed: multiset<Event>)
    requires Enabled(y, Arrive(e)) && y.o.states != [] && Placed(y, freed)
    ensures Placed(Next(exec, y, Arrive(e)), freed)
  {
    var o' := if e.receiveTime > y.o.simTime then y.o else RollbackTo(exec, y.o, e.receiveTime);
    if e.receiveTime <= y.o.simTime { RollbackToOwns(exec, y.o, e.receiveTime); }
    InsertOwns(o'.box, e);
    AddOne(y.delivered, e);
  }

  lemma StepPlaces<S(!new)>(exec: (S, Event) -> S, y: Sys<S>, s: Step, freed: multiset<Event>)
    requires Enabled(y, s) && y.o.states != [] && Placed(y, freed)
    ensures Placed(Next(exec, y, s), freed + Frees(y, s))
  {
    match s
    case Arrive(e) => ArrivePlaces(exec, y, e, freed);
    case AntiMessage(es) => CancelOwns(exec, y.o, es);
    case Run(save) =>
      NextOwns(y.o.box);
      GetNextOwns(y.o.box);
    case Fossil(gvt, oldest) => FossilOwns(y.o.box, oldest);
  }

  /** NOTHING IS LOST OR FREED TWICE. In every run, every event that arrived has been executed and collected, or
      freed after annihilation, or is still owned by the container, exactly once. */
  lemma {:induction false} PlacedAlways<S(!new)>(exec: (S, Event) -> S, init: S, ss: seq<Step>)
    requires After(exec, init, ss).1
    ensures Placed(After(exec, init, ss).0, Freed(exec, init, ss))
  {
    if ss != [] {
      var n := |ss| - 1;
      PlacedAlways(exec, init, ss[..n]);
      InvAlways(exec, init, false, ss[..n]);
      StepPlaces(exec, After(exec, init, ss[..n]).0, ss[n], Freed(exec, init, ss[..n]));
    }
  }

  /** Hence the list of removed events holds exactly the annihilated ones that have not been freed. */
  lemma RemovedAreAnnihilated<S(!new)>(exec: (S, Event) -> S, init: S, ss: seq<Step>)
    requires After(exec, init, ss).1
    ensures var y := After(exec, init, ss).0;
            multiset(y.o.box.removed) + Freed(exec, init, ss) == multiset(y.delivered * y.cancelled)
  {
    var y := After(exec, init, ss).0;
    PlacedAlways(exec, init, ss);
    InvAlways(exec, init, false, ss);
    assert multiset(y.delivered) == multiset(y.delivered - y.cancelled) + multiset(y.delivered * y.cancelled);
    assert Held(y.collected, y.o.box) == multiset(y.collected) + multiset(y.o.box.processed) +
                                         multiset(y.o.box.unprocessed);
    Balance(Held(y.collected, y.o.box), multiset(y.o.box.removed) + Freed(exec, init, ss),
            multiset(y.delivered * y.cancelled));
  }

  lemma Balance(a: multiset<Event>, b: multiset<Event>, c: multiset<Event>)
    requires a + b == a + c
    ensures b == c
  {
    assert b == a + b - a && c == a + c - a;
  }
}
