module TimeWarpLog {
  // An object whose state is the list of events it has executed. Its state shows every event that was
  // executed twice or left out, and what it does determines what any other object does: the state of an
  // object is what executing the log makes of its initial state.

  import opened Wrappers
  import opened EventContainer
  import opened TimeWarpObject
  import opened TimeWarpRuns
  import opened TimeWarpFossil

  function Log(s: seq<Event>, e: Event): seq<Event> { s + [e] }

  lemma {:induction false} ReplayLog(h: seq<Event>)
    ensures Replay(Log, [], h) == h
  {
    if h != [] {
      ReplayLog(h[..|h| - 1]);
      assert h == h[..|h| - 1] + [h[|h| - 1]];
    }
  }

  /** A saved log is what had been executed when the next event had the saved time: possibly with events
      of that very time. */
  ghost predicate SavedLoosely(x: Saved<seq<Event>>, h: seq<Event>) {
    && |x.state| <= |h| && x.state == h[..|x.state|]
    && (forall e :: e in x.state ==> e.receiveTime <= x.time)
    && (forall i :: |x.state| <= i < |h| ==> h[i].receiveTime >= x.time)
  }

  /** Later saved logs are not shorter. */
  ghost predicate Growing(q: seq<Saved<seq<Event>>>) {
    forall i, j :: 0 <= i < j < |q| ==> |q[i].state| <= |q[j].state|
  }

  /** The log is right and the saved logs were right when saved. */
  ghost predicate LogRight(o: Obj<seq<Event>>, h: seq<Event>) {
    o.state == h && Growing(o.states) && forall i :: 0 <= i < |o.states| ==> SavedLoosely(o.states[i], h)
  }

  ghost predicate Logged(o: Obj<seq<Event>>, collected: seq<Event>, horizon: int) {
    InOrder(collected, o.box) && Timely(o, collected, horizon) && LogRight(o, History(collected, o.box))
  }

  /** No event of the saved time had been executed. */
  predicate Clean(x: Saved<seq<Event>>) {
    forall e :: e in x.state ==> e.receiveTime < x.time
  }

  lemma SavedCut(x: Saved<seq<Event>>, h: seq<Event>)
    requires SavedLoosely(x, h)
    ensures x.state == Before(h, x.time) <==> Clean(x)
  {
    if Clean(x) {
      assert forall i :: 0 <= i < |x.state| ==> h[i] in x.state;
      EarlyUnique(h, x.time, |x.state|);
    } else {
      BeforeTimes(h, x.time);
    }
  }

  /** Coasting adds the same events to the log and to the executed events. */
  lemma {:induction false} CoastAdds(o: Obj<seq<Event>>, collected: seq<Event>, t: int) returns (x: seq<Event>)
    requires InOrder(collected, o.box)
    ensures Coast(Log, o, t).state == o.state + x
    ensures History(collected, Coast(Log, o, t).box) == History(collected, o.box) + x
    decreases |o.box.unprocessed|
  {
    CoastStep(Log, o, t);
    var e := NextEvent(o.box).1;
    if e.Some? && e.value.receiveTime < t {
      var e := ExecuteParts(Log, o, collected);
      var rest := CoastAdds(Execute(Log, o, false), collected, t);
      x := [e] + rest;
      Regroup(o.state, [e], rest);
      Regroup(History(collected, o.box), [e], rest);
    } else {
      x := [];
      ResortFacts(o.box);
    }
  }

  /** Executing with any saving keeps the logs as described. */
  lemma LooseSave(o: Obj<seq<Event>>, collected: seq<Event>, horizon: int, save: bool)
    requires Logged(o, collected, horizon) && o.box.unprocessed != []
    ensures Logged(Execute(Log, o, save), collected, horizon)
  {
    var h := History(collected, o.box);
    var e := ExecuteParts(Log, o, collected);
    assert Timely(Execute(Log, o, save), collected, horizon) by {
      if save { SaveKeepsTimely(Log, o, collected, horizon); } else { ExecuteKeepsTimely(Log, o, collected, horizon); }
    }
    SaveParts(Log, o);
    LastIsLatest(o.states, e.receiveTime);
    NextIsLatest(collected, o.box, e);
    LooseAppend(o.states, h, e);
    if save { GrowingAppend(o.states, Saved(e.receiveTime, h)); }
  }

  lemma GrowingAppend(q: seq<Saved<seq<Event>>>, x: Saved<seq<Event>>)
    requires Growing(q) && forall i :: 0 <= i < |q| ==> |q[i].state| <= |x.state|
    ensures Growing(q + [x])
  {
  }

  lemma LooseAppend(q: seq<Saved<seq<Event>>>, h: seq<Event>, e: Event)
    requires forall i :: 0 <= i < |q| ==> SavedLoosely(q[i], h) && q[i].time <= e.receiveTime
    requires forall x :: x in h ==> x.receiveTime <= e.receiveTime
    ensures forall i :: 0 <= i < |q| ==> SavedLoosely(q[i], h + [e])
    ensures SavedLoosely(Saved(e.receiveTime, h), h + [e])
  {
    forall i | 0 <= i < |q| ensures SavedLoosely(q[i], h + [e]) {
      assert SavedLoosely(q[i], h);
      assert (h + [e])[..|q[i].state|] == h[..|q[i].state|];
    }
    assert (h + [e])[..|h|] == h;
  }

  lemma NextIsLatest(collected: seq<Event>, c: Container, e: Event)
    requires InOrder(collected, c) && e in c.unprocessed
    ensures forall x :: x in History(collected, c) ==> x.receiveTime <= e.receiveTime
  {
    assert forall x :: x in History(collected, c) ==> !Less(e, x);
  }

  /** A rollback leaves the state in step with the executed events if and only if the saved state it
      restores was saved before any event of that same time. */
  lemma RollbackExactIff(o: Obj<seq<Event>>, collected: seq<Event>, horizon: int, t: int)
    requires Logged(o, collected, horizon) && horizon <= t
    ensures var q := Restored(o.states, t);
            var o' := RollbackTo(Log, o, t);
            o'.state == History(collected, o'.box) <==> Clean(q[|q| - 1])
  {
    var mid := AtRestored(o, t);
    RestoredExactIff(o, collected, horizon, t);
    RestoredCut(o.states, History(collected, o.box), t);
    var x := CoastAdds(mid, collected, t);
    SameFront(mid.state, History(collected, mid.box), x);
  }

  lemma SameFront(a: seq<Event>, b: seq<Event>, x: seq<Event>)
    ensures a + x == b + x <==> a == b
  {
    if a + x == b + x {
      assert |a| == |b|;
      assert a == (a + x)[..|a|] && b == (b + x)[..|a|];
    }
  }

  /** Before coasting, the state is in step if and only if the restored state was right. */
  lemma RestoredExactIff(o: Obj<seq<Event>>, collected: seq<Event>, horizon: int, t: int)
    requires InOrder(collected, o.box) && Timely(o, collected, horizon) && horizon <= t
    ensures var (mid, q) := (AtRestored(o, t), Restored(o.states, t));
            var x := q[|q| - 1];
            && InOrder(collected, mid.box)
            && (mid.state == History(collected, mid.box) <==> x.state == Before(History(collected, o.box), x.time))
  {
    AtRestoredAlike(o, collected, horizon, t);
  }

  lemma RestoredCut(q: seq<Saved<seq<Event>>>, h: seq<Event>, t: int)
    requires q != [] && q[0].time <= t && forall i :: 0 <= i < |q| ==> SavedLoosely(q[i], h)
    ensures var q' := Restored(q, t);
            var x := q'[|q'| - 1];
            x.state == Before(h, x.time) <==> Clean(x)
  {
    RestoredPrefix(q, t);
    SavedCut(q[|Restored(q, t)| - 1], h);
  }

  // ----- every step keeps the log right, or goes wrong by restoring an unclean state -----

  lemma RestoreLogged(o: Obj<seq<Event>>, collected: seq<Event>, horizon: int, t: int)
    requires Logged(o, collected, horizon) && horizon <= t
    requires var q := Restored(o.states, t); Clean(q[|q| - 1])
    ensures Logged(AtRestored(o, t), collected, horizon)
  {
    var mid, h := AtRestored(o, t), History(collected, o.box);
    var n := RestoredParts(o, collected, t);
    RestoredPrefix(o.states, t);
    RestoreKeepsTimely(o, collected, horizon, t);
    RollbackFacts(collected, o.box, mid.simTime);
    assert SavedLoosely(o.states[n - 1], h);
    SavedCut(o.states[n - 1], h);
    LoosePrefix(o.states, h, n);
  }

  lemma LoosePrefix(q: seq<Saved<seq<Event>>>, h: seq<Event>, n: nat)
    requires 0 < n <= |q| && Growing(q) && forall i :: 0 <= i < |q| ==> SavedLoosely(q[i], h)
    ensures Growing(q[..n]) && |q[n - 1].state| <= |h|
    ensures forall i :: 0 <= i < n ==> SavedLoosely(q[..n][i], h[..|q[n - 1].state|])
  {
    assert SavedLoosely(q[n - 1], h);
    var m := |q[n - 1].state|;
    forall i | 0 <= i < n ensures SavedLoosely(q[..n][i], h[..m]) {
      assert SavedLoosely(q[i], h) && |q[i].state| <= m;
      assert h[..m][..|q[i].state|] == h[..|q[i].state|];
    }
  }

  lemma {:induction false} CoastLogged(o: Obj<seq<Event>>, collected: seq<Event>, horizon: int, t: int)
    requires Logged(o, collected, horizon)
    ensures Logged(Coast(Log, o, t), collected, horizon)
    decreases |o.box.unprocessed|
  {
    CoastStep(Log, o, t);
    var e := NextEvent(o.box).1;
    if e.Some? && e.value.receiveTime < t {
      var e := ExecuteParts(Log, o, collected);
      LooseSave(o, collected, horizon, false);
      CoastLogged(Execute(Log, o, false), collected, horizon, t);
    } else {
      CoastStops(Log, [], false, o, collected, horizon);
    }
  }

  lemma CollectLogged(o: Obj<seq<Event>>, collected: seq<Event>, horizon: int, gvt: int, oldest: int)
    requires Logged(o, collected, horizon) && horizon <= gvt && oldest <= Kept(o.states, gvt)[0].time
    ensures var collected' := collected + o.box.processed[..Early(o.box.processed, oldest)];
            Logged(Collect(o, gvt, oldest), collected', gvt)
  {
    CollectKeepsCore(Log, [], false, o, collected, horizon, gvt, oldest);
    FossilHistory(collected, o.box, oldest);
    KeptFacts(o.states, gvt);
    LooseSuffix(o.states, History(collected, o.box), |o.states| - |Kept(o.states, gvt)|);
  }

  lemma LooseSuffix(q: seq<Saved<seq<Event>>>, h: seq<Event>, n: nat)
    requires n <= |q| && Growing(q) && forall i :: 0 <= i < |q| ==> SavedLoosely(q[i], h)
    ensures Growing(q[n..]) && forall i :: 0 <= i < |q[n..]| ==> SavedLoosely(q[n..][i], h)
  {
  }

  // ----- runs -----

  /** Rolling back to `t`, if the clock has reached it, restores a clean state. */
  predicate RestoresAt(o: Obj<seq<Event>>, t: int)
    requires o.states != []
  {
    t <= o.simTime ==> var q := Restored(o.states, t); Clean(q[|q| - 1])
  }

  /** If the step rolls back, it restores a clean state. */
  ghost predicate StepRestoresCleanly(y: Sys<seq<Event>>, s: Step)
    requires y.o.states != [] && Enabled(y, s)
  {
    match s
    case Arrive(e) => RestoresAt(y.o, e.receiveTime)
    case AntiMessage(es) => RestoresAt(y.o, LowTime(es))
    case Run(_) => true
    case Fossil(_, _) => true
  }

  ghost predicate LogInv(y: Sys<seq<Event>>) {
    Inv(Log, [], false, y) && LogRight(y.o, History(y.collected, y.o.box))
  }

  /** The state is the list of the executed events. */
  ghost predicate InStep(y: Sys<seq<Event>>) {
    y.o.state == History(y.collected, y.o.box)
  }

  function RolledTo(o: Obj<seq<Event>>, t: int): Obj<seq<Event>>
    requires o.states != []
  {
    if t <= o.simTime then RollbackTo(Log, o, t) else o
  }

  lemma RolledToIff(y: Sys<seq<Event>>, t: int)
    requires LogInv(y) && y.horizon <= t
    ensures var o := RolledTo(y.o, t);
            var h := History(y.collected, o.box);
            (o.state == h <==> RestoresAt(y.o, t)) && (RestoresAt(y.o, t) ==> LogRight(o, h))
  {
    if t <= y.o.simTime {
      RollbackExactIff(y.o, y.collected, y.horizon, t);
      if RestoresAt(y.o, t) {
        RestoreLogged(y.o, y.collected, y.horizon, t);
        CoastLogged(AtRestored(y.o, t), y.collected, y.horizon, t);
      }
    }
  }

  lemma RunLogged(y: Sys<seq<Event>>, save: bool)
    requires LogInv(y)
    ensures var o := Execute(Log, y.o, save); LogRight(o, History(y.collected, o.box))
  {
    if y.o.box.unprocessed != [] { LooseSave(y.o, y.collected, y.horizon, save); }
  }

  /** A step leaves the state in step with the executed events if and only if it does not restore an
      unclean state. */
  lemma StepIff(y: Sys<seq<Event>>, s: Step)
    requires LogInv(y) && Enabled(y, s)
    ensures var y' := Next(Log, y, s);
            (InStep(y') <==> StepRestoresCleanly(y, s)) && (InStep(y') ==> LogInv(y'))
  {
    StepKeepsInv(Log, [], false, y, s);
    match s
    case Arrive(e) =>
      RolledToIff(y, e.receiveTime);
      HistoryAfterInsert(Log, y, e);
    case AntiMessage(es) =>
      LowTimeAttained(es);
      RolledToIff(y, LowTime(es));
      HistoryAfterAnti(Log, y, es);
    case Run(save) => RunLogged(y, save);
    case Fossil(gvt, oldest) => CollectLogged(y.o, y.collected, y.horizon, gvt, oldest);
  }

  /** Every rollback of the run restores a clean state. */
  ghost predicate RestoresCleanly(ss: seq<Step>) {
    ss != [] ==>
      var n := |ss| - 1;
      var (y, ok) := After(Log, [], ss[..n]);
      && RestoresCleanly(ss[..n])
      && ok && y.o.states != [] && Enabled(y, ss[n]) && StepRestoresCleanly(y, ss[n])
  }

  /** The state is in step with the executed events after the run and after every part of it. */
  ghost predicate AlwaysInStep(ss: seq<Step>) {
    InStep(After(Log, [], ss).0) && (ss != [] ==> AlwaysInStep(ss[..|ss| - 1]))
  }

  lemma StartLogInv()
    ensures LogInv(Start([]))
  {
    StartInv(Log, [], false);
  }

  /** For every run: the state is in step with the executed events throughout if and only if every rollback
      restores a state saved before any event of its time was executed. */
  lemma {:induction false} InStepIff(ss: seq<Step>)
    requires After(Log, [], ss).1
    ensures AlwaysInStep(ss) <==> RestoresCleanly(ss)
    ensures RestoresCleanly(ss) ==> LogInv(After(Log, [], ss).0)
  {
    if ss == [] {
      StartLogInv();
    } else {
      var n := |ss| - 1;
      InStepIff(ss[..n]);
      if RestoresCleanly(ss[..n]) { StepIff(After(Log, [], ss[..n]).0, ss[n]); }
    }
  }
}
