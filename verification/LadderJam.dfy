module LadderJam {
  // When begin returns nothing: when the queue is empty, and when all eight rungs are in use while the first
  // bucket of the last one still has to be split. In that case begin gives up with events queued, and keeps
  // doing so.

  import opened LadderModel
  import opened LadderRungs
  import opened LadderDequeue
  import opened LadderTopPath

  /** Splitting the first bucket of the last rung that has one leads, rung by rung, to a bucket that would
      have to be split when no rung is left. */
  ghost predicate Jams(q: Ladder)
    requires Rep(q)
    decreases Drained(q), if q.nRung > 0 then Last(q).width else 0
  {
    if q.nRung == 0 then false
    else if FirstBucket(q) == |Last(q).buckets| then
      PopKeepsRep(q);
      Jams(PopRung(q))
    else
      AimKeepsRep(q);
      var q' := Aim(q);
      if !Crowded(q') then false
      else if q'.nRung >= MAX_RUNG_NUM then true
      else
        SpawnSteps(q');
        Jams(Spawn(q'))
  }

  /** recurse_rung fails with rungs left. */
  ghost predicate Fails(s: Search) {
    s.b == INVALID && s.q.nRung > 0
  }

  lemma {:induction false} JamsIff(q: Ladder)
    requires Rep(q)
    ensures Fails(RecurseRung(q)) <==> Jams(q)
    decreases Drained(q), if q.nRung > 0 then Last(q).width else 0
  {
    if q.nRung > 0 {
      if FirstBucket(q) == |Last(q).buckets| {
        PopKeepsRep(q);
        JamsIff(PopRung(q));
      } else {
        var q' := Aim(q);
        AimKeepsRep(q);
        BucketNumberValid(q');
        if Crowded(q') && q'.nRung < MAX_RUNG_NUM {
          SpawnSteps(q');
          JamsIff(Spawn(q'));
        }
      }
    }
  }

  /** A rung loaded from Top is split at most six times. */
  lemma LoadedNeverJams(q: Ladder)
    requires Rep(q) && q.nRung == 0 && q.top != [] && q.bottom == [] && |q.top| < INVALID && q.maxTS <= MAX_TIME
    ensures Rep(LoadTop(q)) && !Fails(RecurseRung(LoadTop(q)))
  {
    LoadTopKeepsRep(q);
    LoadTopNarrow(q);
    RecurseFacts(LoadTop(q));
    RecurseKeepsNarrow(LoadTop(q));
  }

  lemma FromTopReturns(q: Ladder)
    requires Rep(q) && q.nRung == 0 && q.top != [] && q.bottom == [] && |q.top| < INVALID && q.maxTS <= MAX_TIME
    ensures Rep(LoadTop(q)) && BeginFromTop(q).event.Some?
  {
    LoadedNeverJams(q);
    LoadTopKeepsRep(q);
    var s := RecurseRung(LoadTop(q));
    RecurseFacts(LoadTop(q));
    RecurseNotEmpty(LoadTop(q));
    PourFacts(s.q, false);
  }

  lemma HasContents(q: Ladder, e: Event)
    requires e in q.top || e in q.bottom
    ensures Contents(q) != multiset{}
  {
    assert e in Contents(q);
  }

  lemma {:induction false} RungsHave(rungs: seq<Rung>, k: nat, b: nat)
    requires k < |rungs| && b < |rungs[k].buckets| && rungs[k].buckets[b] != []
    ensures RungContents(rungs) != multiset{}
  {
    if k < |rungs| - 1 {
      RungsHave(rungs[..|rungs| - 1], k, b);
    } else {
      FlatHas(rungs[k].buckets, b);
      assert rungs[k].buckets[b][0] in multiset(rungs[k].buckets[b]);
    }
  }

  /** begin on a queue with an empty Bottom, by what recurse_rung finds. */
  lemma BeginByCases(q: Ladder)
    requires Rep(q) && |q.top| < INVALID && q.maxTS <= MAX_TIME && q.bottom == []
    ensures Begin(q).event.None? <==> Jams(q) || (RecurseRung(q).q.nRung == 0 && q.top == [])
    ensures Jams(q) ==> Begin(q).q == RecurseRung(q).q && RecurseRung(q).q.nRung > 0
  {
    JamsIff(q);
    RecurseFacts(q);
    var s := RecurseRung(q);
    if s.q.nRung > 0 {
      if s.b != INVALID { PourFacts(s.q, true); }
    } else if q.top != [] {
      FromTopReturns(s.q);
    }
  }

  lemma NoRungContents(q: Ladder)
    requires Rep(q) && q.bottom == [] && q.nRung == 0
    ensures Contents(q) == multiset(q.top)
  {
    NoRungsNoContents(q.rungs);
  }

  lemma BucketContents(q: Ladder)
    requires HasBucket(q)
    ensures Contents(q) != multiset{}
  {
    RungsHave(q.rungs, q.nRung - 1, FirstBucket(q));
  }

  /** Without a rung after the search, what is queued is in Top. */
  lemma EmptyIff(q: Ladder)
    requires Rep(q) && q.bottom == []
    ensures Contents(q) == multiset{} <==> RecurseRung(q).q.nRung == 0 && q.top == []
  {
    var s := RecurseRung(q).q;
    assert Rep(s) && SameOutside(q, s) && (s.nRung == 0 || HasBucket(s)) by { RecurseFacts(q); }
    assert Contents(s) == Contents(q) by { RecurseContents(q); }
    if s.nRung > 0 {
      BucketContents(s);
    } else {
      NoRungContents(s);
      if q.top != [] { assert q.top[0] in multiset(q.top); }
    }
  }

  /** EXACT NULL. begin returns nothing if and only if the queue is empty, or Bottom is and the rungs jam. */
  lemma NullIff(q: Ladder)
    requires Rep(q) && |q.top| < INVALID && q.maxTS <= MAX_TIME
    ensures Begin(q).event.None? <==> Contents(q) == multiset{} || (q.bottom == [] && Jams(q))
  {
    if q.bottom == [] {
      BeginByCases(q);
      EmptyIff(q);
    } else {
      HasContents(q, q.bottom[0]);
    }
  }

  lemma OverflowJams(q: Ladder)
    requires Rep(q) && Overflowing(q)
    ensures Jams(q)
  {
    AimKeepsRep(q);
  }

  /** Once jammed, begin and dequeue return nothing ever after, with all events still queued. */
  lemma JamStays(q: Ladder)
    requires Rep(q) && |q.top| < INVALID && q.maxTS <= MAX_TIME && q.bottom == [] && Jams(q)
    ensures var p := Dequeue(q);
            && p.event.None? && Rep(p.q) && Contents(p.q) == Contents(q) != multiset{}
            && p.q.top == q.top && p.q.maxTS == q.maxTS && p.q.bottom == [] && Jams(p.q)
  {
    NullIff(q);
    EmptyIff(q);
    BeginByCases(q);
    BeginFacts(q);
    RecurseFacts(q);
    JamsIff(q);
    OverflowJams(RecurseRung(q).q);
  }

  /** Rungs as narrow as the inserts into Top leave them never jam. */
  lemma NarrowNeverJams(q: Ladder)
    requires Rep(q) && Narrow(q)
    ensures !Jams(q)
  {
    JamsIff(q);
    RecurseFacts(q);
    RecurseKeepsNarrow(q);
  }

  /** Narrow enough, begin returns nothing only for an empty queue. */
  lemma NullOnlyWhenEmpty(q: Ladder)
    requires Rep(q) && |q.top| < INVALID && Narrow(q)
    ensures Begin(q).event.None? <==> Contents(q) == multiset{}
  {
    NarrowNeverJams(q);
    NullIff(q);
  }

  // ----- begin leaves maxTS alone, and Top alone or empty -----

  lemma BeginTop(q: Ladder)
    requires Rep(q) && |q.top| < INVALID
    ensures Begin(q).q.maxTS == q.maxTS && (Begin(q).q.top == q.top || Begin(q).q.top == [])
  {
    if q.bottom == [] {
      RecurseFacts(q);
      var s := if q.nRung > 0 then RecurseRung(q) else Search(q, 0);
      if s.q.nRung > 0 {
        if s.b != INVALID { PourTop(s.q, true); }
      } else if s.q.top != [] {
        LoadTopKeepsRep(s.q);
        RecurseFacts(LoadTop(s.q));
        RecurseNotEmpty(LoadTop(s.q));
        if RecurseRung(LoadTop(s.q)).b != INVALID { PourTop(RecurseRung(LoadTop(s.q)).q, false); }
      }
    }
  }

  lemma PourTop(q: Ladder, deep: bool)
    requires Rep(q) && Aimed(q)
    ensures Pour(q, FirstBucket(q), deep).q.maxTS == q.maxTS && Pour(q, FirstBucket(q), deep).q.top == q.top
  {
    PourCases(q, deep);
    if Last(q).num == FirstBucket(q) + 1 {
      PopEmptiedRep(q);
      PopDrainedFacts(PopRung(Emptied(q, FirstBucket(q))));
    }
  }
}
