module LadderDrained {
  // Which rungs begin gives up. After it has taken a bucket from the rungs, the last live rung holds an event
  // again; so when nothing is left in the rungs none is live, and the next insert cannot land above what is
  // in Bottom. After it has loaded Top it gives up at most the rung it took the bucket from.

  import opened LadderModel
  import opened LadderRungs
  import opened LadderInsert
  import opened LadderDequeue
  import opened LadderOrder
  import opened LadderJam
  import opened LadderRuns

  /** The last live rung holds an event. */
  ghost predicate Stocked(q: Ladder) {
    q.nRung <= |q.rungs| && (q.nRung > 0 ==> Last(q).num > 0)
  }

  lemma {:induction false} PopDrainedStocks(q: Ladder)
    requires q.nRung <= |q.rungs|
    ensures Stocked(PopDrained(q))
    decreases q.nRung
  {
    if q.nRung > 0 && Last(q).num == 0 { PopDrainedStocks(PopRung(q)); }
  }

  lemma TrimStocks(r: Rung)
    requires LiveRung(r) && NextFull(r.buckets, 0) < |r.buckets| && r.num != NextFull(r.buckets, 0) + 1
    ensures WithoutFirst(r).num > 0
  {
    TrimIsWithoutFirst(r);
    OccupiedZero(WithoutFirst(r).buckets);
    var b := NextFull(r.buckets, 0);
    assert WithoutFirst(r).buckets[r.num - 1] != [];
  }

  lemma PourStocks(q: Ladder)
    requires Rep(q) && Aimed(q)
    ensures Stocked(Pour(q, FirstBucket(q), true).q)
  {
    PourCases(q, true);
    if Last(q).num == FirstBucket(q) + 1 {
      PopDrainedStocks(PopRung(Emptied(q, FirstBucket(q))));
    } else {
      TrimStocks(Last(q));
    }
  }

  /** Begin takes its event from the rungs: Bottom is empty, and some rung holds an event. */
  ghost predicate FromRungs(q: Ladder) {
    q.bottom == [] && RungContents(q.rungs) != multiset{}
  }

  lemma SearchHasRung(q: Ladder)
    requires Rep(q) && FromRungs(q)
    ensures q.nRung > 0 && RecurseRung(q).q.nRung > 0
  {
    if q.nRung == 0 { NoRungsNoContents(q.rungs); }
    RecurseFacts(q);
    RecurseContents(q);
    var s := RecurseRung(q).q;
    if s.nRung == 0 {
      NoRungsNoContents(s.rungs);
      SumLeft(multiset(q.top), RungContents(q.rungs));
    }
  }

  lemma SumLeft(a: multiset<Event>, b: multiset<Event>)
    ensures a + multiset{} + multiset{} == a + b + multiset{} ==> b == multiset{}
  {
    if a + multiset{} + multiset{} == a + b + multiset{} {
      forall e ensures b[e] == 0 { assert (a + multiset{} + multiset{})[e] == (a + b + multiset{})[e]; }
    }
  }

  /** After begin has taken a bucket from the rungs, the last live rung holds an event. */
  lemma BeginStocks(q: Ladder)
    requires Rep(q) && |q.top| < INVALID && FromRungs(q) && Begin(q).event.Some?
    ensures var p := Begin(q).q;
            p.nRung <= |p.rungs| && (p.nRung > 0 ==> p.rungs[p.nRung - 1].num > 0)
  {
    SearchHasRung(q);
    RecurseFacts(q);
    PourStocks(RecurseRung(q).q);
  }

  /** With nothing left in the rungs, none of them is live. */
  lemma NoneLive(q: Ladder)
    requires Rep(q) && Stocked(q) && RungContents(q.rungs) == multiset{}
    ensures q.nRung == 0
  {
    if q.nRung > 0 {
      assert Last(q).buckets[Last(q).num - 1] != [];
      RungsHave(q.rungs, q.nRung - 1, Last(q).num - 1);
    }
  }

  /** With no live rung any insert leaves the layers in order. */
  lemma AnyInsertFits(q: Ladder, e: Event)
    requires Rep(q) && q.nRung == 0
    ensures Fitting(q, e) && Ordered(q)
    ensures Insert(q, e).nRung <= |Insert(q, e).rungs| && Ordered(Insert(q, e))
  {
    assert |Layers(q)| == 1;
    InsertOrderedIff(q, e);
  }

  /** When begin has emptied the rungs into Bottom, no rung is live: whatever comes next goes to Bottom, to a
      rung made from it, or to Top, and the layers stay in order. */
  lemma EmptiedRungsAreGone(q: Ladder, e: Event)
    requires Rep(q) && |q.top| < INVALID && FromRungs(q) && Begin(q).event.Some?
    requires RungContents(Begin(q).q.rungs) == multiset{}
    ensures var p := Begin(q).q;
            && Rep(p) && p.nRung == 0
            && Insert(p, e).nRung <= |Insert(p, e).rungs| && Ordered(Insert(p, e))
  {
    BeginFacts(q);
    BeginStocks(q);
    NoneLive(Begin(q).q);
    AnyInsertFits(Begin(q).q, e);
  }

  /** Begin that loads Top keeps every rung it has made, but for the one whose only bucket it took. */
  lemma TopGivesUpOne(q: Ladder)
    requires Rep(q) && q.nRung == 0 && q.top != [] && q.bottom == [] && |q.top| < INVALID
    ensures Rep(LoadTop(q))
    ensures var s := RecurseRung(LoadTop(q)).q;
            Begin(q).q.nRung == s.nRung || Begin(q).q.nRung + 1 == s.nRung
  {
    LoadTopKeepsRep(q);
    RecurseFacts(LoadTop(q));
    RecurseNotEmpty(LoadTop(q));
    var s := RecurseRung(LoadTop(q));
    if s.b != INVALID { PourCases(s.q, false); }
  }

  lemma TakeStocks(q: Ladder)
    requires Rep(q) && |q.top| < INVALID && FromRungs(q) && Dequeue(q).event.Some? && Rep(Dequeue(q).q)
    ensures var p := Dequeue(q).q;
            && p.nRung <= |p.rungs| && (p.nRung > 0 ==> p.rungs[p.nRung - 1].num > 0)
            && (RungContents(p.rungs) == multiset{} ==> p.nRung == 0)
  {
    BeginStocks(q);
    if RungContents(Dequeue(q).q.rungs) == multiset{} { NoneLive(Dequeue(q).q); }
  }

  // ----- every run -----

  /** At every dequeue of every run that takes its event from the rungs: afterwards the last live rung holds an
      event, and there is none if the rungs are empty. */
  lemma StockedAlways(ops: seq<Op>, qs: seq<Ladder>, k: nat)
    requires Run(ops, qs) && k < |ops| && ops[k].Take? && FromRungs(qs[k])
    requires Rep(qs[k]) && |qs[k].top| < INVALID && Dequeue(qs[k]).event.Some?
    ensures var q := qs[k + 1];
            && q.nRung <= |q.rungs| && (q.nRung > 0 ==> q.rungs[q.nRung - 1].num > 0)
            && (RungContents(q.rungs) == multiset{} ==> q.nRung == 0)
  {
    RepAlways(ops, qs, k + 1);
    assert qs[k + 1] == Dequeue(qs[k]).q;
    TakeStocks(qs[k]);
  }
}
