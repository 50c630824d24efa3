module TimeWarpObject {
  // One simulation object under Time Warp: events arrive in any order, anti-messages cancel some of them, a
  // straggler or an anti-message for the past restores a saved state, puts executed events back and coasts
  // forward, and fossil collection drops old events and states. The object is any deterministic one: `exec`
  // gives its next state. An execution step takes one event.

  import opened Wrappers
  import opened EventContainer

  datatype Saved<S> = Saved(time: int, state: S)

  datatype Obj<S> = Obj(simTime: int, state: S, states: seq<Saved<S>>, box: Container)

  /** What executing a list of events makes of a state. */
  function Replay<S>(exec: (S, Event) -> S, s: S, es: seq<Event>): S {
    if es == [] then s else exec(Replay(exec, s, es[..|es| - 1]), es[|es| - 1])
  }

  // ----- the state queue -----

  /** restoreState: newer states go, but never the oldest one. */
  function Restored<S>(q: seq<Saved<S>>, t: int): (q': seq<Saved<S>>)
    requires q != []
    ensures q' != []
  {
    if |q| == 1 || q[|q| - 1].time <= t then q else Restored(q[..|q| - 1], t)
  }

  /** Insertion into a multiset ordered by time. */
  function Saving<S>(q: seq<Saved<S>>, x: Saved<S>): seq<Saved<S>> {
    if q == [] || q[|q| - 1].time <= x.time then q + [x] else Saving(q[..|q| - 1], x) + [q[|q| - 1]]
  }

  function LowerBound<S>(q: seq<Saved<S>>, t: int): (n: nat)
    ensures n <= |q|
    ensures forall i :: 0 <= i < n ==> q[i].time < t
    ensures n < |q| ==> q[n].time >= t
  {
    if q == [] || q[0].time >= t then 0 else 1 + LowerBound(q[1..], t)
  }

  /** fossilCollect at a finite time keeps one state older than that time. */
  function Kept<S>(q: seq<Saved<S>>, t: int): (q': seq<Saved<S>>)
    ensures q != [] ==> q' != []
  {
    var n := LowerBound(q, t);
    if n == 0 then q else q[n - 1..]
  }

  // ----- the kernel's steps for the object -----

  function Coast<S>(exec: (S, Event) -> S, o: Obj<S>, t: int): Obj<S>
    decreases |o.box.unprocessed|
  {
    var (c, e) := NextEvent(o.box);
    if e.Some? && e.value.receiveTime < t then
      Coast(exec, o.(simTime := e.value.receiveTime, state := exec(o.state, e.value), box := GetNextEvent(o.box).0), t)
    else o.(box := c)
  }

  function RollbackTo<S>(exec: (S, Event) -> S, o: Obj<S>, t: int): Obj<S>
    requires o.states != []
  {
    var q := Restored(o.states, t);
    var saved := q[|q| - 1];
    Coast(exec, Obj(saved.time, saved.state, q, Rollback(o.box, saved.time)), t)
  }

  /** handleLocalEvent. */
  function Deliver<S>(exec: (S, Event) -> S, o: Obj<S>, e: Event): Obj<S>
    requires o.states != []
  {
    var o' := if e.receiveTime > o.simTime then o else RollbackTo(exec, o, e.receiveTime);
    o'.(box := Insert(o'.box, e))
  }

  function LowTime(es: seq<Event>): (t: int)
    requires es != []
    ensures forall e :: e in es ==> t <= e.receiveTime
  {
    if |es| == 1 then es[0].receiveTime
    else
      var t := LowTime(es[1..]);
      if es[0].receiveTime < t then es[0].receiveTime else t
  }

  function AntiMessages(c: Container, es: seq<Event>): Container
    decreases |es|
  {
    if es == [] then c else AntiMessages(HandleAntiMessage(c, es[0]).0, es[1..])
  }

  /** cancelLocalEvents. */
  function Cancel<S>(exec: (S, Event) -> S, o: Obj<S>, es: seq<Event>): Obj<S>
    requires o.states != [] && es != []
  {
    var o' := if LowTime(es) <= o.simTime then RollbackTo(exec, o, LowTime(es)) else o;
    o'.(box := AntiMessages(o'.box, es))
  }

  /** executeObjects for this object: the state may be saved first, whatever the saving period. */
  function Execute<S>(exec: (S, Event) -> S, o: Obj<S>, save: bool): Obj<S> {
    var (c, e) := NextEvent(o.box);
    if e == None then o.(box := c)
    else
      var t := e.value.receiveTime;
      var states := if save then Saving(o.states, Saved(t, o.state)) else o.states;
      Obj(t, exec(o.state, e.value), states, GetNextEvent(o.box).0)
  }

  /** fossilCollect: states up to GVT, then events up to the oldest state any object kept. */
  function Collect<S>(o: Obj<S>, gvt: int, oldest: int): Obj<S> {
    o.(states := Kept(o.states, gvt), box := FossilCollect(o.box, oldest))
  }

  // ----- invariant of the object -----

  ghost predicate TimeOrdered<S(!new)>(q: seq<Saved<S>>) {
    forall i, j :: 0 <= i < j < |q| ==> q[i].time <= q[j].time
  }

  /** A state saved for time T is what the events before T make of the initial state. */
  ghost predicate SavedRight<S(!new)>(exec: (S, Event) -> S, init: S, q: seq<Saved<S>>, h: seq<Event>) {
    forall i :: 0 <= i < |q| ==> q[i].state == Replay(exec, init, Before(h, q[i].time))
  }

  ghost predicate Right<S(!new)>(exec: (S, Event) -> S, init: S, o: Obj<S>, collected: seq<Event>) {
    && SavedRight(exec, init, o.states, History(collected, o.box))
    && o.state == Replay(exec, init, History(collected, o.box))
  }

  /** How event times, saved states' times and the object's clock relate. */
  ghost predicate Timely<S(!new)>(o: Obj<S>, collected: seq<Event>, horizon: int) {
    var q := o.states;
    && q != [] && TimeOrdered(q) && q[0].time <= horizon && q[|q| - 1].time <= o.simTime
    && (forall e :: e in History(collected, o.box) ==> e.receiveTime <= o.simTime)
    && (forall e :: e in collected ==> e.receiveTime < q[0].time)
    && (forall e :: e in o.box.unprocessed ==> q[|q| - 1].time <= e.receiveTime)
  }

  /** What every step keeps; `exact` adds that all states are right, which needs clean saves. */
  ghost predicate Core<S(!new)>(exec: (S, Event) -> S, init: S, exact: bool, o: Obj<S>, collected: seq<Event>,
                                horizon: int) {
    InOrder(collected, o.box) && Timely(o, collected, horizon) && (exact ==> Right(exec, init, o, collected))
  }

  // ----- prefixes of the history -----

  lemma BeforeAppend(h: seq<Event>, e: Event, t: int)
    requires e.receiveTime >= t
    ensures Before(h + [e], t) == Before(h, t)
  {
    EarlyUnique(h + [e], t, Early(h, t));
  }

  lemma {:induction false} EarlyGrows(h: seq<Event>, t: int, t': int)
    requires t' <= t
    ensures Early(h, t') <= Early(h, t)
  {
    if h != [] && h[0].receiveTime < t' { EarlyGrows(h[1..], t, t'); }
  }

  lemma BeforeTwice(h: seq<Event>, t: int, t': int)
    requires t' <= t
    ensures Before(Before(h, t), t') == Before(h, t')
  {
    EarlyGrows(h, t, t');
    EarlyUnique(h[..Early(h, t)], t', Early(h, t'));
  }

  lemma BeforeAll(h: seq<Event>, t: int)
    requires forall e :: e in h ==> e.receiveTime < t
    ensures Before(h, t) == h
  {
    assert forall i :: 0 <= i < |h| ==> h[i] in h;
    EarlyUnique(h, t, |h|);
  }

  lemma BeforeTimes(h: seq<Event>, t: int)
    ensures forall e :: e in Before(h, t) ==> e.receiveTime < t && e in h
  {
  }

  lemma {:induction false} RestoredPrefix<S>(q: seq<Saved<S>>, t: int)
    requires q != [] && q[0].time <= t
    ensures var q' := Restored(q, t);
            |q'| <= |q| && q' == q[..|q'|] && q'[|q'| - 1].time <= t
  {
    if |q| > 1 && q[|q| - 1].time > t { RestoredPrefix(q[..|q| - 1], t); }
  }

  /** The state restored is the last one not after `t`: all that are dropped are after it. */
  lemma {:induction false} RestoredLatest<S(!new)>(q: seq<Saved<S>>, t: int)
    requires q != [] && q[0].time <= t
    ensures var q' := Restored(q, t);
            && |q'| <= |q| && q' == q[..|q'|] && q'[|q'| - 1].time <= t
            && forall i :: |q'| <= i < |q| ==> q[i].time > t
  {
    if |q| > 1 && q[|q| - 1].time > t { RestoredLatest(q[..|q| - 1], t); }
  }

  lemma ReplayAppend<S>(exec: (S, Event) -> S, s: S, es: seq<Event>, e: Event)
    ensures Replay(exec, s, es + [e]) == exec(Replay(exec, s, es), e)
  {
    assert (es + [e])[..|es|] == es;
  }

  lemma SavedAfterAppend<S(!new)>(exec: (S, Event) -> S, init: S, q: seq<Saved<S>>, h: seq<Event>, e: Event)
    requires SavedRight(exec, init, q, h) && forall i :: 0 <= i < |q| ==> q[i].time <= e.receiveTime
    ensures SavedRight(exec, init, q, h + [e])
  {
    forall i | 0 <= i < |q| ensures Before(h + [e], q[i].time) == Before(h, q[i].time) {
      BeforeAppend(h, e, q[i].time);
    }
  }

  lemma SavedAfterCut<S(!new)>(exec: (S, Event) -> S, init: S, q: seq<Saved<S>>, h: seq<Event>, t: int)
    requires SavedRight(exec, init, q, h) && forall i :: 0 <= i < |q| ==> q[i].time <= t
    ensures SavedRight(exec, init, q, Before(h, t))
  {
    forall i | 0 <= i < |q| ensures Before(Before(h, t), q[i].time) == Before(h, q[i].time) {
      BeforeTwice(h, t, q[i].time);
    }
  }

  lemma SavedPrefix<S(!new)>(exec: (S, Event) -> S, init: S, q: seq<Saved<S>>, h: seq<Event>, n: nat)
    requires SavedRight(exec, init, q, h) && TimeOrdered(q) && 0 < n <= |q|
    ensures var T := q[n - 1].time;
            SavedRight(exec, init, q[..n], Before(h, T)) && q[n - 1].state == Replay(exec, init, Before(h, T))
  {
    SavedAfterCut(exec, init, q[..n], h, q[n - 1].time);
  }

  lemma SavedPlus<S(!new)>(exec: (S, Event) -> S, init: S, q: seq<Saved<S>>, h: seq<Event>, e: Event)
    requires SavedRight(exec, init, q, h) && forall i :: 0 <= i < |q| ==> q[i].time <= e.receiveTime
    requires Before(h, e.receiveTime) == h
    ensures SavedRight(exec, init, q + [Saved(e.receiveTime, Replay(exec, init, h))], h + [e])
  {
    SavedAfterAppend(exec, init, q + [Saved(e.receiveTime, Replay(exec, init, h))], h, e);
  }

  // ----- executing -----

  /** The next event is appended to the history and leaves nothing else changed. */
  lemma ExecuteParts<S>(exec: (S, Event) -> S, o: Obj<S>, collected: seq<Event>) returns (e: Event)
    requires InOrder(collected, o.box) && o.box.unprocessed != []
    ensures var o' := Execute(exec, o, false);
            && InOrder(collected, o'.box) && Held(collected, o'.box) == Held(collected, o.box)
            && o'.box.negative == o.box.negative && o'.states == o.states
            && e in o.box.unprocessed && o'.simTime == e.receiveTime && o'.state == exec(o.state, e)
            && NextEvent(o.box).1 == Some(e) && o'.box == GetNextEvent(o.box).0
            && History(collected, o'.box) == History(collected, o.box) + [e]
            && |o'.box.unprocessed| == |o.box.unprocessed| - 1
  {
    GetNextFacts(collected, o.box);
    e := GetNextEvent(o.box).1.value;
  }

  lemma LastIsLatest<S(!new)>(q: seq<Saved<S>>, t: int)
    requires q != [] && TimeOrdered(q) && q[|q| - 1].time <= t
    ensures forall i :: 0 <= i < |q| ==> q[i].time <= t
  {
  }

  /** Executing the next event, without saving, keeps everything right. */
  lemma ExecuteKeepsCore<S(!new)>(exec: (S, Event) -> S, init: S, exact: bool, o: Obj<S>, collected: seq<Event>,
                                  horizon: int)
    requires Core(exec, init, exact, o, collected, horizon) && o.box.unprocessed != []
    ensures Core(exec, init, exact, Execute(exec, o, false), collected, horizon)
  {
    ExecuteKeepsTimely(exec, o, collected, horizon);
    if exact { ExecuteKeepsRight(exec, init, o, collected); }
    var e := ExecuteParts(exec, o, collected);
  }

  lemma ExecuteKeepsRight<S(!new)>(exec: (S, Event) -> S, init: S, o: Obj<S>, collected: seq<Event>)
    requires InOrder(collected, o.box) && o.box.unprocessed != [] && Right(exec, init, o, collected)
    requires o.states != [] && TimeOrdered(o.states)
    requires forall e :: e in o.box.unprocessed ==> o.states[|o.states| - 1].time <= e.receiveTime
    ensures Right(exec, init, Execute(exec, o, false), collected)
  {
    var h := History(collected, o.box);
    var e := ExecuteParts(exec, o, collected);
    LastIsLatest(o.states, e.receiveTime);
    ReplayAppend(exec, init, h, e);
    SavedAfterAppend(exec, init, o.states, h, e);
  }

  lemma ExecuteKeepsTimely<S(!new)>(exec: (S, Event) -> S, o: Obj<S>, collected: seq<Event>, horizon: int)
    requires InOrder(collected, o.box) && Timely(o, collected, horizon) && o.box.unprocessed != []
    ensures Timely(Execute(exec, o, false), collected, horizon)
  {
    GetNextFacts(collected, o.box);
    var e := GetNextEvent(o.box).1.value;
    var h := History(collected, o.box);
    assert forall x :: x in h ==> !Less(e, x);
  }

  /** Every executed event is before `t`. */
  ghost predicate AllBefore(collected: seq<Event>, c: Container, t: int) {
    forall e :: e in History(collected, c) ==> e.receiveTime < t
  }

  lemma CoastStep<S>(exec: (S, Event) -> S, o: Obj<S>, t: int)
    ensures var e := NextEvent(o.box).1;
            if e.Some? && e.value.receiveTime < t then Coast(exec, o, t) == Coast(exec, Execute(exec, o, false), t)
            else Coast(exec, o, t) == o.(box := NextEvent(o.box).0)
  {
  }

  lemma CoastStops<S(!new)>(exec: (S, Event) -> S, init: S, exact: bool, o: Obj<S>, collected: seq<Event>, horizon: int)
    requires Core(exec, init, exact, o, collected, horizon)
    ensures var c := NextEvent(o.box).0;
            && Core(exec, init, exact, o.(box := c), collected, horizon)
            && Held(collected, c) == Held(collected, o.box) && c.negative == o.box.negative
            && c.processed == o.box.processed
  {
    ResortFacts(o.box);
    var c := NextEvent(o.box).0;
    assert History(collected, c) == History(collected, o.box);
  }

  /** Coasting forward keeps everything right and executes only events before `t`. */
  lemma {:induction false} CoastFacts<S(!new)>(exec: (S, Event) -> S, init: S, exact: bool, o: Obj<S>,
                                               collected: seq<Event>, horizon: int, t: int)
    requires Core(exec, init, exact, o, collected, horizon) && o.simTime <= t && AllBefore(collected, o.box, t)
    ensures var o' := Coast(exec, o, t);
            && Core(exec, init, exact, o', collected, horizon) && o'.simTime <= t && o'.states == o.states
            && AllBefore(collected, o'.box, t)
            && Held(collected, o'.box) == Held(collected, o.box) && o'.box.negative == o.box.negative
    decreases |o.box.unprocessed|
  {
    CoastStep(exec, o, t);
    var e := NextEvent(o.box).1;
    if e.Some? && e.value.receiveTime < t {
      ExecuteKeepsCore(exec, init, exact, o, collected, horizon);
      var e := ExecuteParts(exec, o, collected);
      CoastFacts(exec, init, exact, Execute(exec, o, false), collected, horizon, t);
    } else {
      CoastStops(exec, init, exact, o, collected, horizon);
    }
  }

  /** Coasting leaves nothing waiting that belongs before `t`. */
  lemma {:induction false} CoastExecutesAll<S(!new)>(exec: (S, Event) -> S, o: Obj<S>, collected: seq<Event>, t: int)
    requires InOrder(collected, o.box)
    ensures forall u :: u in Coast(exec, o, t).box.unprocessed ==> u.receiveTime >= t
    decreases |o.box.unprocessed|
  {
    CoastStep(exec, o, t);
    var e := NextEvent(o.box).1;
    if e.Some? && e.value.receiveTime < t {
      var e := ExecuteParts(exec, o, collected);
      CoastExecutesAll(exec, Execute(exec, o, false), collected, t);
    } else {
      NextIsFirst(o.box, t);
    }
  }

  lemma NextIsFirst(c: Container, t: int)
    requires c.sorted ==> Sorted(c.unprocessed)
    requires NextEvent(c).1.Some? ==> NextEvent(c).1.value.receiveTime >= t
    ensures forall u :: u in NextEvent(c).0.unprocessed ==> u.receiveTime >= t
  {
    ResortFacts(c);
    if c.unprocessed != [] { SortedTail(Resort(c).unprocessed); }
  }

  // ----- rolling back -----

  /** The object between restoring a state and coasting forward. */
  function AtRestored<S>(o: Obj<S>, t: int): Obj<S>
    requires o.states != []
  {
    var q := Restored(o.states, t);
    var saved := q[|q| - 1];
    Obj(saved.time, saved.state, q, Rollback(o.box, saved.time))
  }

  lemma RestoreKeepsTimely<S(!new)>(o: Obj<S>, collected: seq<Event>, horizon: int, t: int)
    requires InOrder(collected, o.box) && Timely(o, collected, horizon) && horizon <= t
    ensures Timely(AtRestored(o, t), collected, horizon)
  {
    RestoredPrefix(o.states, t);
    var q := Restored(o.states, t);
    var T := q[|q| - 1].time;
    LastIsLatest(q, T);
    RollbackFacts(collected, o.box, T);
    BeforeTimes(History(collected, o.box), T);
    assert o.states[|q| - 1] == q[|q| - 1];
    assert T <= o.states[|o.states| - 1].time;
  }

  /** Which saved state is restored and which executed events remain. */
  lemma RestoredParts<S(!new)>(o: Obj<S>, collected: seq<Event>, t: int) returns (n: nat)
    requires InOrder(collected, o.box)
    requires o.states != [] && TimeOrdered(o.states) && o.states[0].time <= t
    requires forall e :: e in collected ==> e.receiveTime < o.states[0].time
    ensures 0 < n <= |o.states| && AtRestored(o, t).states == o.states[..n]
            && AtRestored(o, t).state == o.states[n - 1].state
    ensures History(collected, AtRestored(o, t).box) == Before(History(collected, o.box), o.states[n - 1].time)
  {
    RestoredPrefix(o.states, t);
    n := |Restored(o.states, t)|;
    RollbackFacts(collected, o.box, o.states[n - 1].time);
  }

  lemma RestoreKeepsRight<S(!new)>(exec: (S, Event) -> S, init: S, o: Obj<S>, collected: seq<Event>, t: int)
    requires InOrder(collected, o.box) && Right(exec, init, o, collected)
    requires o.states != [] && TimeOrdered(o.states) && o.states[0].time <= t
    requires forall e :: e in collected ==> e.receiveTime < o.states[0].time
    ensures Right(exec, init, AtRestored(o, t), collected)
  {
    var n := RestoredParts(o, collected, t);
    SavedPrefix(exec, init, o.states, History(collected, o.box), n);
  }

  /** A rollback leaves the object as if it had executed exactly the events before `t`: the restored time
      is not after `t`, no event at or after `t` remains executed, and the state is the one the
      remaining executed events give. */
  lemma RollbackKeepsCore<S(!new)>(exec: (S, Event) -> S, init: S, exact: bool, o: Obj<S>, collected: seq<Event>,
                                   horizon: int, t: int)
    requires Core(exec, init, exact, o, collected, horizon) && horizon <= t
    ensures var o' := RollbackTo(exec, o, t);
            && Core(exec, init, exact, o', collected, horizon) && o'.simTime <= t && AllBefore(collected, o'.box, t)
            && Held(collected, o'.box) == Held(collected, o.box) && o'.box.negative == o.box.negative
            && o'.states[|o'.states| - 1].time <= t
  {
    var mid := AtRestored(o, t);
    RestoreKeepsTimely(o, collected, horizon, t);
    if exact { RestoreKeepsRight(exec, init, o, collected, t); }
    RestoredPrefix(o.states, t);
    RollbackFacts(collected, o.box, mid.simTime);
    BeforeTimes(History(collected, o.box), mid.simTime);
    CoastFacts(exec, init, exact, mid, collected, horizon, t);
  }

  /** A rollback divides the events held at `t`: exactly those before it are executed, the others wait. */
  lemma RollbackDivides<S(!new)>(exec: (S, Event) -> S, o: Obj<S>, collected: seq<Event>, horizon: int, t: int)
    requires InOrder(collected, o.box) && Timely(o, collected, horizon) && horizon <= t
    ensures var c := RollbackTo(exec, o, t).box;
            && AllBefore(collected, c, t) && (forall u :: u in c.unprocessed ==> u.receiveTime >= t)
            && Held(collected, c) == Held(collected, o.box)
  {
    RollbackKeepsCore(exec, o.state, false, o, collected, horizon, t);
    RestoredPrefix(o.states, t);
    RollbackFacts(collected, o.box, AtRestored(o, t).simTime);
    CoastExecutesAll(exec, AtRestored(o, t), collected, t);
  }

  // ----- saving, inserting, cancelling, collecting -----

  /** The state saved for the next event's time predates every event of that time. */
  ghost predicate CleanSave<S(!new)>(o: Obj<S>, collected: seq<Event>) {
    var e := NextEvent(o.box).1;
    e.Some? ==> AllBefore(collected, o.box, e.value.receiveTime)
  }

  lemma SaveParts<S>(exec: (S, Event) -> S, o: Obj<S>)
    requires NextEvent(o.box).1.Some? && o.states != []
    requires o.states[|o.states| - 1].time <= NextEvent(o.box).1.value.receiveTime
    ensures var e := NextEvent(o.box).1.value;
            Execute(exec, o, true) == Execute(exec, o, false).(states := o.states + [Saved(e.receiveTime, o.state)])
  {
  }

  lemma SaveKeepsRight<S(!new)>(exec: (S, Event) -> S, init: S, o: Obj<S>, collected: seq<Event>)
    requires InOrder(collected, o.box) && o.box.unprocessed != [] && Right(exec, init, o, collected)
    requires o.states != [] && TimeOrdered(o.states)
    requires forall e :: e in o.box.unprocessed ==> o.states[|o.states| - 1].time <= e.receiveTime
    requires CleanSave(o, collected)
    ensures Right(exec, init, Execute(exec, o, true), collected)
  {
    var h := History(collected, o.box);
    var e := ExecuteParts(exec, o, collected);
    SaveParts(exec, o);
    LastIsLatest(o.states, e.receiveTime);
    BeforeAll(h, e.receiveTime);
    ReplayAppend(exec, init, h, e);
    SavedPlus(exec, init, o.states, h, e);
  }

  lemma SaveKeepsTimely<S(!new)>(exec: (S, Event) -> S, o: Obj<S>, collected: seq<Event>, horizon: int)
    requires InOrder(collected, o.box) && Timely(o, collected, horizon) && o.box.unprocessed != []
    ensures Timely(Execute(exec, o, true), collected, horizon)
  {
    ExecuteKeepsTimely(exec, o, collected, horizon);
    GetNextFacts(collected, o.box);
    var e := GetNextEvent(o.box).1.value;
    var q := o.states + [Saved(e.receiveTime, o.state)];
    LastIsLatest(o.states, e.receiveTime);
    assert Execute(exec, o, true).states == q;
    assert TimeOrdered(q);
  }

  lemma ExecuteSaveKeepsCore<S(!new)>(exec: (S, Event) -> S, init: S, exact: bool, o: Obj<S>, collected: seq<Event>,
                                      horizon: int)
    requires Core(exec, init, exact, o, collected, horizon) && o.box.unprocessed != []
    requires exact ==> CleanSave(o, collected)
    ensures Core(exec, init, exact, Execute(exec, o, true), collected, horizon)
  {
    SaveKeepsTimely(exec, o, collected, horizon);
    if exact { SaveKeepsRight(exec, init, o, collected); }
    var e := ExecuteParts(exec, o, collected);
  }

  lemma InsertKeepsCore<S(!new)>(exec: (S, Event) -> S, init: S, exact: bool, o: Obj<S>, collected: seq<Event>,
                                 horizon: int, e: Event)
    requires Core(exec, init, exact, o, collected, horizon) && o.states[|o.states| - 1].time <= e.receiveTime
    requires forall h :: h in History(collected, o.box) ==> h.receiveTime < e.receiveTime
    ensures Core(exec, init, exact, o.(box := Insert(o.box, e)), collected, horizon)
  {
    InsertKeepsOrder(collected, o.box, e);
    InsertKeepsTimely(o, collected, horizon, e);
  }

  lemma InsertKeepsTimely<S(!new)>(o: Obj<S>, collected: seq<Event>, horizon: int, e: Event)
    requires Timely(o, collected, horizon) && o.states[|o.states| - 1].time <= e.receiveTime
    ensures Timely(o.(box := Insert(o.box, e)), collected, horizon)
    ensures History(collected, Insert(o.box, e)) == History(collected, o.box)
  {
  }

  lemma {:induction false} AntiMessagesKeepOrder(collected: seq<Event>, c: Container, es: seq<Event>)
    requires InOrder(collected, c)
    ensures var c' := AntiMessages(c, es);
            && InOrder(collected, c') && c'.processed == c.processed
            && forall u :: u in c'.unprocessed ==> u in c.unprocessed
    decreases |es|
  {
    if es != [] {
      AntiMessageKeepsOrder(collected, c, es[0]);
      var k := Find(c.unprocessed, es[0]);
      if k < |c.unprocessed| { WithoutFacts(c.unprocessed, k); }
      AntiMessagesKeepOrder(collected, HandleAntiMessage(c, es[0]).0, es[1..]);
    }
  }

  lemma AntiMessagesKeepCore<S(!new)>(exec: (S, Event) -> S, init: S, exact: bool, o: Obj<S>, collected: seq<Event>,
                                      horizon: int, es: seq<Event>)
    requires Core(exec, init, exact, o, collected, horizon)
    ensures Core(exec, init, exact, o.(box := AntiMessages(o.box, es)), collected, horizon)
  {
    AntiMessagesKeepOrder(collected, o.box, es);
    FewerWaiting(o, collected, horizon, AntiMessages(o.box, es));
  }

  lemma FewerWaiting<S(!new)>(o: Obj<S>, collected: seq<Event>, horizon: int, c: Container)
    requires Timely(o, collected, horizon) && c.processed == o.box.processed
    requires forall u :: u in c.unprocessed ==> u in o.box.unprocessed
    ensures Timely(o.(box := c), collected, horizon) && History(collected, c) == History(collected, o.box)
  {
  }

  lemma {:induction false} SavingAdds<S(!new)>(q: seq<Saved<S>>, x: Saved<S>)
    ensures multiset(Saving(q, x)) == multiset(q) + multiset{x}
  {
    if q != [] && q[|q| - 1].time > x.time {
      SavingAdds(q[..|q| - 1], x);
      assert q == q[..|q| - 1] + [q[|q| - 1]];
    }
  }

  lemma AppendOrdered<S(!new)>(q: seq<Saved<S>>, x: Saved<S>)
    requires TimeOrdered(q) && forall i :: 0 <= i < |q| ==> q[i].time <= x.time
    ensures TimeOrdered(q + [x])
  {
  }

  lemma {:induction false} SavingOrders<S(!new)>(q: seq<Saved<S>>, x: Saved<S>)
    requires TimeOrdered(q)
    ensures TimeOrdered(Saving(q, x))
  {
    if q == [] || q[|q| - 1].time <= x.time {
      AppendOrdered(q, x);
    } else {
      var rest, last := q[..|q| - 1], q[|q| - 1];
      var r := Saving(rest, x);
      SavingOrders(rest, x);
      SavingAdds(rest, x);
      forall i | 0 <= i < |r| ensures r[i].time <= last.time {
        assert r[i] in multiset(r);
        assert r[i] in rest || r[i] == x;
      }
      AppendOrdered(r, last);
    }
  }

  /** Saving keeps the order of times and adds exactly the state. */
  lemma SavingFacts<S(!new)>(q: seq<Saved<S>>, x: Saved<S>)
    ensures multiset(Saving(q, x)) == multiset(q) + multiset{x}
    ensures TimeOrdered(q) ==> TimeOrdered(Saving(q, x))
  {
    SavingAdds(q, x);
    if TimeOrdered(q) { SavingOrders(q, x); }
  }

  lemma KeptFacts<S(!new)>(q: seq<Saved<S>>, t: int)
    requires q != [] && TimeOrdered(q)
    ensures var q' := Kept(q, t);
            && 0 < |q'| <= |q| && q' == q[|q| - |q'|..] && TimeOrdered(q') && q[0].time <= q'[0].time
            && (q'[0].time < t || q' == q)
            && (|q'| > 1 ==> q'[1].time >= t) && (forall i :: 0 <= i < |q| - |q'| ==> q[i].time < t)
  {
  }

  /** The oldest time left is the last one before `t`, if there is one: every other saved time is not after it,
      or not before `t`. */
  lemma KeptOldest<S(!new)>(q: seq<Saved<S>>, t: int)
    requires q != [] && TimeOrdered(q)
    ensures var x := Kept(q, t)[0].time;
            if q[0].time < t then
              && x < t && (exists i :: 0 <= i < |q| && q[i].time == x)
              && forall i :: 0 <= i < |q| ==> q[i].time <= x || q[i].time >= t
            else x == q[0].time
  {
    var n := LowerBound(q, t);
    if n > 0 {
      var x := q[n - 1].time;
      forall i | 0 <= i < |q| ensures q[i].time <= x || q[i].time >= t {
        if i >= n { assert q[n].time <= q[i].time; }
      }
    }
  }

  lemma CollectKeepsTimely<S(!new)>(o: Obj<S>, collected: seq<Event>, horizon: int, gvt: int, oldest: int)
    requires Timely(o, collected, horizon) && horizon <= gvt && oldest <= Kept(o.states, gvt)[0].time
    ensures Timely(Collect(o, gvt, oldest), collected + o.box.processed[..Early(o.box.processed, oldest)], gvt)
  {
    var n := Early(o.box.processed, oldest);
    KeptFacts(o.states, gvt);
    FossilHistory(collected, o.box, oldest);
    SortEventsSorts(o.box.unprocessed);
    var c' := Collect(o, gvt, oldest).box;
    forall u | u in c'.unprocessed ensures u in o.box.unprocessed { assert u in multiset(c'.unprocessed); }
    forall e | e in collected + o.box.processed[..n] ensures e.receiveTime < Kept(o.states, gvt)[0].time { }
  }

  lemma CollectKeepsCore<S(!new)>(exec: (S, Event) -> S, init: S, exact: bool, o: Obj<S>, collected: seq<Event>,
                                  horizon: int, gvt: int, oldest: int)
    requires Core(exec, init, exact, o, collected, horizon) && horizon <= gvt && oldest <= Kept(o.states, gvt)[0].time
    ensures Core(exec, init, exact, Collect(o, gvt, oldest),
            collected + o.box.processed[..Early(o.box.processed, oldest)], gvt)
  {
    CollectKeepsTimely(o, collected, horizon, gvt, oldest);
    FossilFacts(collected, o.box, oldest);
    FossilHistory(collected, o.box, oldest);
    KeptFacts(o.states, gvt);
  }
}
