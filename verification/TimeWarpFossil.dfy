module TimeWarpFossil {
  // Fossil collection is invisible: a run and the same run without its collections agree in clock, state,
  // executed and waiting events at every point.

  import opened EventContainer
  import opened TimeWarpObject
  import opened TimeWarpRuns

  ghost predicate Suffix<S(!new)>(q: seq<Saved<S>>, p: seq<Saved<S>>) {
    |q| <= |p| && q == p[|p| - |q|..]
  }

  /** `o`, whose past was partly reclaimed, behaves like `p`, whose was not. */
  ghost predicate Alike<S(!new)>(o: Obj<S>, collected: seq<Event>, p: Obj<S>, collected': seq<Event>) {
    && History(collected, o.box) == History(collected', p.box)
    && Held(collected, o.box) == Held(collected', p.box)
    && o.simTime == p.simTime && o.state == p.state && Suffix(o.states, p.states)
  }

  ghost predicate Twin<S(!new)>(exec: (S, Event) -> S, init: S, y: Sys<S>, z: Sys<S>) {
    && Inv(exec, init, false, y) && Inv(exec, init, false, z) && z.horizon <= y.horizon
    && y.delivered == z.delivered && y.cancelled == z.cancelled
    && Alike(y.o, y.collected, z.o, z.collected)
  }

  lemma SameWaiting(collected: seq<Event>, c: Container, collected': seq<Event>, c': Container)
    requires History(collected, c) == History(collected', c') && Held(collected, c) == Held(collected', c')
    ensures multiset(c.unprocessed) == multiset(c'.unprocessed)
    ensures |c.unprocessed| == |c'.unprocessed|
  {
    assert multiset(c.unprocessed) == Held(collected, c) - multiset(History(collected, c));
    assert multiset(c'.unprocessed) == Held(collected', c') - multiset(History(collected', c'));
    assert |c.unprocessed| == |multiset(c.unprocessed)| && |c'.unprocessed| == |multiset(c'.unprocessed)|;
  }

  lemma SameNext(collected: seq<Event>, c: Container, collected': seq<Event>, c': Container)
    requires InOrder(collected, c) && InOrder(collected', c')
    requires History(collected, c) == History(collected', c') && Held(collected, c) == Held(collected', c')
    ensures NextEvent(c).1 == NextEvent(c').1
  {
    SameWaiting(collected, c, collected', c');
    ResortFacts(c);
    ResortFacts(c');
    SortedUnique(Resort(c).unprocessed, Resort(c').unprocessed);
  }

  lemma ExecuteAlike<S(!new)>(exec: (S, Event) -> S, o: Obj<S>, collected: seq<Event>, p: Obj<S>,
                              collected': seq<Event>)
    requires InOrder(collected, o.box) && InOrder(collected', p.box) && Alike(o, collected, p, collected')
    requires o.box.unprocessed != []
    ensures p.box.unprocessed != [] && Alike(Execute(exec, o, false), collected, Execute(exec, p, false), collected')
  {
    SameWaiting(collected, o.box, collected', p.box);
    SameNext(collected, o.box, collected', p.box);
    var e := ExecuteParts(exec, o, collected);
    var e' := ExecuteParts(exec, p, collected');
  }

  lemma StopAlike(collected: seq<Event>, c: Container)
    requires InOrder(collected, c)
    ensures InOrder(collected, NextEvent(c).0)
    ensures History(collected, NextEvent(c).0) == History(collected, c)
            && Held(collected, NextEvent(c).0) == Held(collected, c)
  {
    ResortFacts(c);
  }

  lemma {:induction false} CoastAlike<S(!new)>(exec: (S, Event) -> S, o: Obj<S>, collected: seq<Event>, p: Obj<S>,
                                               collected': seq<Event>, t: int)
    requires InOrder(collected, o.box) && InOrder(collected', p.box) && Alike(o, collected, p, collected')
    ensures Alike(Coast(exec, o, t), collected, Coast(exec, p, t), collected')
    decreases |o.box.unprocessed|
  {
    CoastStep(exec, o, t);
    CoastStep(exec, p, t);
    SameNext(collected, o.box, collected', p.box);
    var e := NextEvent(o.box).1;
    if e.Some? && e.value.receiveTime < t {
      ExecuteAlike(exec, o, collected, p, collected');
      var e := ExecuteParts(exec, o, collected);
      var e' := ExecuteParts(exec, p, collected');
      CoastAlike(exec, Execute(exec, o, false), collected, Execute(exec, p, false), collected', t);
    } else {
      StopAlike(collected, o.box);
      StopAlike(collected', p.box);
    }
  }

  lemma {:induction false} RestoredSuffix<S(!new)>(q: seq<Saved<S>>, p: seq<Saved<S>>, t: int)
    requires q != [] && Suffix(q, p) && q[0].time <= t
    ensures Suffix(Restored(q, t), Restored(p, t))
            && Restored(q, t)[|Restored(q, t)| - 1] == Restored(p, t)[|Restored(p, t)| - 1]
  {
    if q[|q| - 1].time > t {
      var q', p' := q[..|q| - 1], p[..|p| - 1];
      assert q' == p'[|p'| - |q'|..];
      RestoredSuffix(q', p', t);
    }
  }

  /** Restoring picks the same saved state, for the kept states reach back far enough. */
  lemma RollbackAlike<S(!new)>(exec: (S, Event) -> S, init: S, o: Obj<S>, collected: seq<Event>, p: Obj<S>,
                               collected': seq<Event>,
                               horizon: int, horizon': int, t: int)
    requires Core(exec, init, false, o, collected, horizon) && Core(exec, init, false, p, collected', horizon')
             && Alike(o, collected, p, collected')
    requires horizon' <= horizon <= t
    ensures Alike(RollbackTo(exec, o, t), collected, RollbackTo(exec, p, t), collected')
  {
    RestoredSuffix(o.states, p.states, t);
    var n := RestoredParts(o, collected, t);
    var n' := RestoredParts(p, collected', t);
    AtRestoredAlike(o, collected, horizon, t);
    AtRestoredAlike(p, collected', horizon', t);
    CoastAlike(exec, AtRestored(o, t), collected, AtRestored(p, t), collected', t);
  }

  lemma AtRestoredAlike<S(!new)>(o: Obj<S>, collected: seq<Event>, horizon: int, t: int)
    requires InOrder(collected, o.box) && Timely(o, collected, horizon) && horizon <= t
    ensures InOrder(collected, AtRestored(o, t).box) && Held(collected, AtRestored(o, t).box) == Held(collected, o.box)
    ensures History(collected, AtRestored(o, t).box) == Before(History(collected, o.box), AtRestored(o, t).simTime)
  {
    RestoredPrefix(o.states, t);
    RollbackFacts(collected, o.box, AtRestored(o, t).simTime);
  }

  // ----- step by step -----

  lemma EnabledToo<S(!new)>(exec: (S, Event) -> S, init: S, y: Sys<S>, z: Sys<S>, s: Step)
    requires Twin(exec, init, y, z) && Enabled(y, s) && !s.Fossil?
    ensures Enabled(z, s)
  {
    SameNext(y.collected, y.o.box, z.collected, z.o.box);
  }

  /** The same clock and history after a step that rolls back to `t` if the clock has reached `t`. */
  lemma MaybeRollbackAlike<S(!new)>(exec: (S, Event) -> S, init: S, y: Sys<S>, z: Sys<S>, t: int)
    requires Twin(exec, init, y, z) && y.horizon <= t
    ensures t <= y.o.simTime ==> Alike(RollbackTo(exec, y.o, t), y.collected, RollbackTo(exec, z.o, t), z.collected)
  {
    RollbackAlike(exec, init, y.o, y.collected, z.o, z.collected, y.horizon, z.horizon, t);
  }

  lemma ArriveAlike<S(!new)>(exec: (S, Event) -> S, init: S, y: Sys<S>, z: Sys<S>, e: Event)
    requires Twin(exec, init, y, z) && Enabled(y, Arrive(e)) && Enabled(z, Arrive(e))
    ensures Twin(exec, init, Next(exec, y, Arrive(e)), Next(exec, z, Arrive(e)))
  {
    ArriveKeepsInv(exec, init, false, y, e);
    ArriveKeepsInv(exec, init, false, z, e);
    MaybeRollbackAlike(exec, init, y, z, e.receiveTime);
    HistoryAfterInsert(exec, y, e);
    HistoryAfterInsert(exec, z, e);
  }

  lemma HistoryAfterInsert<S(!new)>(exec: (S, Event) -> S, y: Sys<S>, e: Event)
    requires y.o.states != [] && Enabled(y, Arrive(e))
    ensures var o := if e.receiveTime > y.o.simTime then y.o else RollbackTo(exec, y.o, e.receiveTime);
            var o' := Next(exec, y, Arrive(e)).o;
            && History(y.collected, o'.box) == History(y.collected, o.box)
            && o'.simTime == o.simTime && o'.states == o.states
  {
  }

  lemma {:induction false} AntiMessagesProcessed(c: Container, es: seq<Event>)
    ensures AntiMessages(c, es).processed == c.processed
    decreases |es|
  {
    if es != [] { AntiMessagesProcessed(HandleAntiMessage(c, es[0]).0, es[1..]); }
  }

  lemma HistoryAfterAnti<S(!new)>(exec: (S, Event) -> S, y: Sys<S>, es: seq<Event>)
    requires y.o.states != [] && Enabled(y, AntiMessage(es))
    ensures var o := if LowTime(es) <= y.o.simTime then RollbackTo(exec, y.o, LowTime(es)) else y.o;
            var o' := Next(exec, y, AntiMessage(es)).o;
            && History(y.collected, o'.box) == History(y.collected, o.box)
            && o'.simTime == o.simTime && o'.states == o.states
  {
    var o := if LowTime(es) <= y.o.simTime then RollbackTo(exec, y.o, LowTime(es)) else y.o;
    AntiMessagesProcessed(o.box, es);
  }

  lemma AntiMessageAlike<S(!new)>(exec: (S, Event) -> S, init: S, y: Sys<S>, z: Sys<S>, es: seq<Event>)
    requires Twin(exec, init, y, z) && Enabled(y, AntiMessage(es)) && Enabled(z, AntiMessage(es))
    ensures Twin(exec, init, Next(exec, y, AntiMessage(es)), Next(exec, z, AntiMessage(es)))
  {
    AntiMessageKeepsInv(exec, init, false, y, es);
    AntiMessageKeepsInv(exec, init, false, z, es);
    LowTimeAttained(es);
    MaybeRollbackAlike(exec, init, y, z, LowTime(es));
    HistoryAfterAnti(exec, y, es);
    HistoryAfterAnti(exec, z, es);
  }

  lemma SuffixPlus<S(!new)>(q: seq<Saved<S>>, p: seq<Saved<S>>, x: Saved<S>)
    requires Suffix(q, p)
    ensures Suffix(q + [x], p + [x])
  {
  }

  lemma RunAlike<S(!new)>(exec: (S, Event) -> S, init: S, y: Sys<S>, z: Sys<S>, save: bool)
    requires Twin(exec, init, y, z) && Enabled(y, Run(save)) && Enabled(z, Run(save))
    ensures Twin(exec, init, Next(exec, y, Run(save)), Next(exec, z, Run(save)))
  {
    RunKeepsInv(exec, init, false, y, save);
    RunKeepsInv(exec, init, false, z, save);
    SameWaiting(y.collected, y.o.box, z.collected, z.o.box);
    if y.o.box.unprocessed != [] {
      ExecuteAlike(exec, y.o, y.collected, z.o, z.collected);
      if save { SaveAlike(exec, y.o, y.collected, y.horizon, z.o, z.collected, z.horizon); }
    }
  }

  lemma SaveAlike<S(!new)>(exec: (S, Event) -> S, o: Obj<S>, collected: seq<Event>, horizon: int,
                           p: Obj<S>, collected': seq<Event>, horizon': int)
    requires InOrder(collected, o.box) && Timely(o, collected, horizon) && o.box.unprocessed != []
    requires InOrder(collected', p.box) && Timely(p, collected', horizon') && p.box.unprocessed != []
    requires Alike(o, collected, p, collected')
    requires Alike(Execute(exec, o, false), collected, Execute(exec, p, false), collected')
    ensures Alike(Execute(exec, o, true), collected, Execute(exec, p, true), collected')
  {
    SameNext(collected, o.box, collected', p.box);
    NextWaits(collected, o.box);
    NextWaits(collected', p.box);
    SaveParts(exec, o);
    SaveParts(exec, p);
    SuffixPlus(o.states, p.states, Saved(NextEvent(o.box).1.value.receiveTime, o.state));
  }

  lemma NextWaits(collected: seq<Event>, c: Container)
    requires InOrder(collected, c) && c.unprocessed != []
    ensures NextEvent(c).1.Some? && NextEvent(c).1.value in c.unprocessed
  {
    ResortFacts(c);
  }

  lemma FossilAlike<S(!new)>(exec: (S, Event) -> S, init: S, y: Sys<S>, z: Sys<S>, gvt: int, oldest: int)
    requires Twin(exec, init, y, z) && Enabled(y, Fossil(gvt, oldest))
    ensures Twin(exec, init, Next(exec, y, Fossil(gvt, oldest)), z)
  {
    FossilKeepsInv(exec, init, false, y, gvt, oldest);
    CollectAlike(y.o, y.collected, z.o, z.collected, gvt, oldest);
  }

  lemma CollectAlike<S(!new)>(o: Obj<S>, collected: seq<Event>, p: Obj<S>, collected': seq<Event>, gvt: int,
                              oldest: int)
    requires InOrder(collected, o.box) && Alike(o, collected, p, collected') && o.states != [] && TimeOrdered(o.states)
    ensures Alike(Collect(o, gvt, oldest), collected + o.box.processed[..Early(o.box.processed, oldest)], p, collected')
  {
    FossilHistory(collected, o.box, oldest);
    FossilFacts(collected, o.box, oldest);
    KeptFacts(o.states, gvt);
    SuffixTwice(Kept(o.states, gvt), o.states, p.states);
  }

  lemma SuffixTwice<S(!new)>(r: seq<Saved<S>>, q: seq<Saved<S>>, p: seq<Saved<S>>)
    requires Suffix(r, q) && Suffix(q, p)
    ensures Suffix(r, p)
  {
  }

  ghost function WithoutFossil(ss: seq<Step>): seq<Step> {
    if ss == [] then []
    else WithoutFossil(ss[..|ss| - 1]) + (if ss[|ss| - 1].Fossil? then [] else [ss[|ss| - 1]])
  }

  lemma {:induction false} TwinAlways<S(!new)>(exec: (S, Event) -> S, init: S, ss: seq<Step>)
    requires After(exec, init, ss).1
    ensures After(exec, init, WithoutFossil(ss)).1
    ensures Twin(exec, init, After(exec, init, ss).0, After(exec, init, WithoutFossil(ss)).0)
  {
    if ss == [] {
      StartInv(exec, init, false);
    } else {
      var before, s := ss[..|ss| - 1], ss[|ss| - 1];
      TwinAlways(exec, init, before);
      var y, z := After(exec, init, before).0, After(exec, init, WithoutFossil(before)).0;
      if s.Fossil? {
        FossilAlike(exec, init, y, z, s.gvt, s.oldest);
        assert WithoutFossil(ss) == WithoutFossil(before);
      } else {
        EnabledToo(exec, init, y, z, s);
        AfterOneMore(exec, init, WithoutFossil(before), s);
        match s
        case Arrive(e) => ArriveAlike(exec, init, y, z, e);
        case AntiMessage(es) => AntiMessageAlike(exec, init, y, z, es);
        case Run(save) => RunAlike(exec, init, y, z, save);
      }
    }
  }

  /** For every run: without its collections it is still a run, and both reach the same clock and state,
      have executed the same events in the same order, and have the same events waiting. */
  lemma FossilInvisible<S(!new)>(exec: (S, Event) -> S, init: S, ss: seq<Step>)
    requires After(exec, init, ss).1
    ensures var (y, (z, ok)) := (After(exec, init, ss).0, After(exec, init, WithoutFossil(ss)));
            && ok && y.o.simTime == z.o.simTime && y.o.state == z.o.state
            && y.collected + y.o.box.processed == z.collected + z.o.box.processed
            && multiset(y.o.box.unprocessed) == multiset(z.o.box.unprocessed)
            && Suffix(y.o.states, z.o.states)
  {
    TwinAlways(exec, init, ss);
    var y, z := After(exec, init, ss).0, After(exec, init, WithoutFossil(ss)).0;
    SameWaiting(y.collected, y.o.box, z.collected, z.o.box);
  }
}
