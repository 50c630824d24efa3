module LadderDrain {
  // What repeated dequeue returns: if it empties the queue, it does so in order if and only if the layers of
  // the ladder are in order. So the order of the layers is exactly what a user of the queue can observe.

  import opened LadderModel
  import opened LadderRungs
  import opened LadderInsert
  import opened LadderDequeue
  import opened LadderOrder
  import opened LadderJam
  import opened LadderRuns

  // ----- begin reflects the order -----

  lemma AddEmptyLayer(pre: seq<multiset<Event>>, post: seq<multiset<Event>>)
    requires InOrder(pre + post)
    ensures InOrder(pre + [multiset{}] + post)
  {
    var ls, ls' := pre + post, pre + [multiset{}] + post;
    var n := |pre|;
    forall k, l | 0 <= k < l < |ls'| ensures AllLess(ls'[l], ls'[k]) {
      if k != n && l != n {
        var k', l' := if k < n then k else k - 1, if l < n then l else l - 1;
        assert ls'[k] == ls[k'] && ls'[l] == ls[l'];
        assert AllLess(ls[l'], ls[k']);
      }
    }
  }

  /** Two neighbouring layers become one. */
  lemma MergeKeepsOrder(pre: seq<multiset<Event>>, late: multiset<Event>, early: multiset<Event>,
                        post: seq<multiset<Event>>)
    requires InOrder(pre + [late, early] + post)
    ensures InOrder(pre + [late + early] + post)
  {
    var ls, ls' := pre + [late, early] + post, pre + [late + early] + post;
    var n := |pre|;
    assert ls[n] == late && ls[n + 1] == early && ls'[n] == late + early;
    forall k, l | 0 <= k < l < |ls'| ensures AllLess(ls'[l], ls'[k]) {
      var l' := if l <= n then l else l + 1;
      var k' := if k <= n then k else k + 1;
      assert ls'[l] == (if l == n then late + early else ls[l']);
      assert ls'[k] == (if k == n then late + early else ls[k']);
      assert AllLess(ls[l'], ls[k']);
      if k == n { assert AllLess(ls[l'], ls[n + 1]); }
      if l == n { assert AllLess(ls[n + 1], ls[k']); }
    }
  }

  lemma PopReflectsOrder(q: Ladder)
    requires 0 < q.nRung <= |q.rungs| && FirstBucket(q) == |Last(q).buckets| && Ordered(PopRung(q))
    ensures Ordered(q)
  {
    assert Layers(PopRung(q)) == Above(q) + [multiset(q.bottom)];
    FlatEmpty(Last(q).buckets);
    AddEmptyLayer(Above(q), [multiset(q.bottom)]);
  }

  lemma SpawnReflectsOrder(q: Ladder)
    requires Spawns(q) && Ordered(Spawn(q))
    ensures Ordered(q)
  {
    var late, early := Flat(WithoutFirst(Last(q)).buckets), Flat(Child(q).buckets);
    LayersSpawn(q);
    MergeKeepsOrder(Above(q), late, early, [multiset(q.bottom)]);
    assert late + early == Flat(Last(q).buckets) by { SpawnParts(q); }
  }

  lemma AimReflectsOrder(q: Ladder)
    requires 0 < q.nRung <= |q.rungs| && Ordered(Aim(q))
    ensures Ordered(q)
  {
    assert Layers(Aim(q)) == Layers(q);
  }

  lemma {:induction false} RecurseReflectsOrder(q: Ladder)
    requires Rep(q) && RecurseRung(q).q.nRung <= |RecurseRung(q).q.rungs| && Ordered(RecurseRung(q).q)
    ensures Ordered(q)
    decreases Drained(q), if q.nRung > 0 then Last(q).width else 0
  {
    if q.nRung > 0 {
      if FirstBucket(q) == |Last(q).buckets| {
        PopKeepsRep(q);
        RecurseReflectsOrder(PopRung(q));
        PopReflectsOrder(q);
      } else {
        var q' := Aim(q);
        AimKeepsRep(q);
        if Crowded(q') && q'.nRung < MAX_RUNG_NUM {
          SpawnSteps(q');
          RecurseReflectsOrder(Spawn(q'));
          SpawnReflectsOrder(q');
        }
        AimReflectsOrder(q);
      }
    }
  }

  lemma {:induction false} PopDrainedReflectsOrder(q: Ladder)
    requires Rep(q) && PopDrained(q).nRung <= |PopDrained(q).rungs| && Ordered(PopDrained(q))
    ensures Ordered(q)
    decreases q.nRung
  {
    if q.nRung > 0 && Last(q).num == 0 {
      OccupiedZero(Last(q).buckets);
      PopKeepsRep(q);
      PopDrainedReflectsOrder(PopRung(q));
      PopReflectsOrder(q);
    }
  }

  /** All of the last rung is in one bucket. */
  lemma OneBucket(q: Ladder, b: nat)
    requires Rep(q) && q.nRung > 0 && b < |Last(q).buckets| && q.bottom == []
    requires forall c :: 0 <= c < |Last(q).buckets| && c != b ==> Last(q).buckets[c] == []
    ensures multiset(Emptied(q, b).bottom) == Flat(Last(q).buckets)
  {
    var bs := Last(q).buckets;
    BottomTimes(q, b);
    FlatUpdate(bs, b, []);
    FlatEmpty(bs[b := []]);
  }

  lemma PourPopReflectsOrder(q: Ladder)
    requires Rep(q) && Aimed(q) && q.bottom == [] && Last(q).num == FirstBucket(q) + 1
    requires Ordered(PopRung(Emptied(q, FirstBucket(q))))
    ensures Ordered(q)
  {
    var b := FirstBucket(q);
    PourCases(q, false);
    OneBucket(q, b);
    LayersPour(q, b);
    EmptyLayerKeepsOrder(Above(q) + [Flat(Last(q).buckets)]);
  }

  lemma PourTrimReflectsOrder(q: Ladder)
    requires Rep(q) && Aimed(q) && q.bottom == []
    requires Ordered(WithRung(q, q.nRung - 1, WithoutFirst(Last(q))).(bottom := Emptied(q, FirstBucket(q)).bottom))
    ensures Ordered(q)
  {
    var b, bottom := FirstBucket(q), Emptied(q, FirstBucket(q)).bottom;
    var whole, late, early := Flat(Last(q).buckets), Flat(WithoutFirst(Last(q)).buckets), multiset(bottom);
    assert late + early == whole by {
      BottomTimes(q, b);
      WithoutFirstKeepsLive(Last(q));
    }
    LayersReplace(q, WithoutFirst(Last(q)), bottom);
    assert Above(q) + [late, early] + [] == Above(q) + [late, early];
    MergeKeepsOrder(Above(q), late, early, []);
    assert Above(q) + [whole] + [] == Above(q) + [whole];
    EmptyLayerKeepsOrder(Above(q) + [whole]);
  }

  lemma PourReflectsOrder(q: Ladder)
    requires Rep(q) && Aimed(q) && q.bottom == []
    requires var p := Pour(q, FirstBucket(q), true).q; p.nRung <= |p.rungs| && Ordered(p)
    ensures Ordered(q)
  {
    PourCases(q, true);
    if Last(q).num == FirstBucket(q) + 1 {
      PopEmptiedRep(q);
      PopDrainedReflectsOrder(PopRung(Emptied(q, FirstBucket(q))));
      PourPopReflectsOrder(q);
    } else {
      PourTrimReflectsOrder(q);
    }
  }

  lemma BeginReflectsOrder(q: Ladder)
    requires Rep(q) && |q.top| < INVALID && Begin(q).event.Some?
    requires Begin(q).q.nRung <= |Begin(q).q.rungs| && Ordered(Begin(q).q)
    ensures Ordered(q)
  {
    if q.bottom == [] && q.nRung > 0 {
      RecurseFacts(q);
      var s := RecurseRung(q);
      if s.q.nRung > 0 {
        PourReflectsOrder(s.q);
      }
      assert s.q.nRung == 0 ==> Ordered(s.q);
      RecurseReflectsOrder(q);
    }
  }

  // ----- repeated dequeue -----

  lemma TopShrinks(q: Ladder)
    requires Rep(q) && |q.top| < INVALID
    ensures |Dequeue(q).q.top| < INVALID && Dequeue(q).q.maxTS == q.maxTS
  {
    BeginTop(q);
  }

  /** The events repeated dequeue returns, until it returns nothing. */
  ghost function Drain(q: Ladder): seq<Event>
    requires Rep(q) && |q.top| < INVALID
    decreases |Contents(q)|
  {
    DequeueFacts(q);
    TopShrinks(q);
    var p := Dequeue(q);
    if p.event.None? then [] else [p.event.value] + Drain(p.q)
  }

  /** One dequeue: the first event of the drain, and the rest. */
  lemma DrainStep(q: Ladder) returns (e: Event, q': Ladder)
    requires Rep(q) && |q.top| < INVALID && Dequeue(q).event.Some?
    ensures e == Dequeue(q).event.value && q' == Dequeue(q).q && Rep(q') && |q'.top| < INVALID
    ensures Drain(q) == [e] + Drain(q') && Contents(q) == Contents(q') + multiset{e} && |Contents(q')| < |Contents(q)|
  {
    DequeueFacts(q);
    TopShrinks(q);
    e, q' := Dequeue(q).event.value, Dequeue(q).q;
  }

  lemma {:induction false} DrainedIsHeld(q: Ladder)
    requires Rep(q) && |q.top| < INVALID
    ensures multiset(Drain(q)) <= Contents(q)
    decreases |Contents(q)|
  {
    if Dequeue(q).event.Some? {
      var e, q' := DrainStep(q);
      DrainedIsHeld(q');
    }
  }

  /** Repeated dequeue empties the queue. */
  ghost predicate Complete(q: Ladder)
    requires Rep(q) && |q.top| < INVALID
  {
    multiset(Drain(q)) == Contents(q)
  }

  lemma SortedFirst(e: Event, s: seq<Event>)
    ensures BottomSorted([e] + s) <==> BottomSorted(s) && forall x :: x in s ==> !Less(x, e)
  {
    var t := [e] + s;
    if BottomSorted(t) {
      forall x | x in s ensures !Less(x, e) {
        var i :| 0 <= i < |s| && s[i] == x;
        assert !Less(t[i + 1], t[0]);
      }
      assert forall i :: 0 <= i < |s| ==> s[i] == t[i + 1];
    }
  }

  lemma HeldNotLess(s: seq<Event>, held: multiset<Event>, all: multiset<Event>, e: Event)
    requires multiset(s) <= held && all == held + multiset{e} && forall x :: x in all ==> !Less(x, e)
    ensures forall x :: x in s ==> !Less(x, e)
  {
    forall x | x in s ensures !Less(x, e) {
      assert x in multiset(s);
      assert x in all;
    }
  }

  lemma {:induction false} OrderedDrainsSorted(q: Ladder)
    requires Rep(q) && |q.top| < INVALID && Ordered(q)
    ensures BottomSorted(Drain(q))
    decreases |Contents(q)|
  {
    if Dequeue(q).event.Some? {
      var e, q' := DrainStep(q);
      StepKeepsOrder(q, Take);
      OrderedDrainsSorted(q');
      DrainedIsHeld(q');
      BeginLeast(q);
      HeldNotLess(Drain(q'), Contents(q'), Contents(q), e);
      SortedFirst(e, Drain(q'));
    }
  }

  lemma LessTotal(x: Event, y: Event)
    requires x != y && !Less(y, x)
    ensures Less(x, y)
  {
  }

  /** The least event goes back to the front of Bottom. */
  lemma HeadReflectsOrder(q: Ladder)
    requires Rep(q) && q.bottom != [] && Ordered(q.(bottom := q.bottom[1..]))
    requires forall k, x :: 0 <= k < q.nRung && x in Layers(q)[k] ==> Less(q.bottom[0], x)
    ensures Ordered(q)
  {
    var rest := q.(bottom := q.bottom[1..]);
    LayersBottom(q, q.bottom[1..]);
    assert q.bottom == [q.bottom[0]] + q.bottom[1..];
    forall k, l | 0 <= k < l < |Layers(q)| ensures AllLess(Layers(q)[l], Layers(q)[k]) {
      assert AllLess(Layers(rest)[l], Layers(rest)[k]);
      assert Layers(rest)[k] == Layers(q)[k];
    }
  }

  lemma InLayerIsHeld(q: Ladder, k: nat, x: Event)
    requires q.nRung <= |q.rungs| && k < q.nRung && x in Layers(q)[k]
    ensures x in Contents(q)
  {
    InRungIsHeld(q.rungs, k, x);
  }

  lemma {:induction false} InRungIsHeld(rungs: seq<Rung>, k: nat, x: Event)
    requires k < |rungs| && x in Flat(rungs[k].buckets)
    ensures x in RungContents(rungs)
  {
    if k < |rungs| - 1 { InRungIsHeld(rungs[..|rungs| - 1], k, x); }
  }

  /** If dequeue returned an event before all that stays, and what stays is in order, all was in order. */
  lemma DequeueReflectsOrder(q: Ladder)
    requires Rep(q) && |q.top| < INVALID && Dequeue(q).event.Some?
    requires Dequeue(q).q.nRung <= |Dequeue(q).q.rungs| && Ordered(Dequeue(q).q)
    requires forall x :: x in Contents(Dequeue(q).q) ==> Less(Dequeue(q).event.value, x)
    ensures Ordered(q)
  {
    BeginFacts(q);
    var p, q' := Begin(q).q, Dequeue(q).q;
    forall k, x | 0 <= k < p.nRung && x in Layers(p)[k] ensures Less(p.bottom[0], x) {
      assert Layers(q')[k] == Layers(p)[k];
      InLayerIsHeld(q', k, x);
    }
    HeadReflectsOrder(p);
    BeginReflectsOrder(q);
  }

  lemma OnceLeft(before: multiset<Event>, after: multiset<Event>, e: Event)
    requires before == after + multiset{e} && before[e] <= 1
    ensures e !in after
  {
    assert before[e] == after[e] + 1;
  }

  lemma {:induction false} SortedDrainOrders(q: Ladder)
    requires Rep(q) && |q.top| < INVALID && Distinct(q) && Complete(q) && BottomSorted(Drain(q))
    ensures Ordered(q)
    decreases |Contents(q)|
  {
    if Dequeue(q).event.Some? {
      var e, q' := DrainStep(q);
      var rest := Drain(q');
      SortedFirst(e, rest);
      assert Complete(q') by { CancelSum(multiset(rest), Contents(q'), multiset{e}); }
      TakeDistinct(Contents(q), Contents(q'), e);
      SortedDrainOrders(q');
      OnceLeft(Contents(q), Contents(q'), e);
      forall x | x in Contents(q') ensures Less(e, x) {
        assert x in multiset(rest);
        LessTotal(e, x);
      }
      DequeueReflectsOrder(q);
    } else {
      NothingIsOrdered(q);
    }
  }

  lemma NothingIsOrdered(q: Ladder)
    requires q.nRung <= |q.rungs| && Contents(q) == multiset{}
    ensures Ordered(q)
  {
    forall k, x | 0 <= k < q.nRung && x in Layers(q)[k] ensures false { InLayerIsHeld(q, k, x); }
    assert multiset(q.bottom) == multiset{};
  }

  /** EXACT ORDER. If repeated dequeue empties the queue, the events come out in order if and only if the layers
      are in order. */
  lemma DrainSortedIff(q: Ladder)
    requires Rep(q) && |q.top| < INVALID && Distinct(q) && Complete(q)
    ensures BottomSorted(Drain(q)) <==> Ordered(q)
  {
    if Ordered(q) { OrderedDrainsSorted(q); }
    if BottomSorted(Drain(q)) { SortedDrainOrders(q); }
  }

  /** Repeated dequeue comes to a jam. */
  ghost predicate ComesToJam(q: Ladder)
    requires Rep(q) && |q.top| < INVALID
    decreases |Contents(q)|
  {
    if Dequeue(q).event.None? then q.bottom == [] && Jams(q)
    else
      DequeueFacts(q);
      TopShrinks(q);
      ComesToJam(Dequeue(q).q)
  }

  lemma DrainStepComplete(q: Ladder)
    requires Rep(q) && |q.top| < INVALID && Dequeue(q).event.Some?
    ensures Rep(Dequeue(q).q) && |Dequeue(q).q.top| < INVALID && Dequeue(q).q.maxTS == q.maxTS
    ensures |Contents(Dequeue(q).q)| < |Contents(q)|
    ensures Complete(q) <==> Complete(Dequeue(q).q)
  {
    var e, q' := DrainStep(q);
    TopShrinks(q);
    var d := Drain(q');
    assert multiset(Drain(q)) == multiset(d) + multiset{e};
    if multiset(d) + multiset{e} == Contents(q') + multiset{e} { CancelSum(multiset(d), Contents(q'), multiset{e}); }
  }

  lemma JamStep(q: Ladder)
    requires Rep(q) && |q.top| < INVALID && Dequeue(q).event.Some?
    ensures Rep(Dequeue(q).q) && |Dequeue(q).q.top| < INVALID
    ensures ComesToJam(q) <==> ComesToJam(Dequeue(q).q)
  {
    DequeueFacts(q);
    TopShrinks(q);
  }

  lemma DrainStops(q: Ladder)
    requires Rep(q) && |q.top| < INVALID && q.maxTS <= MAX_TIME && Dequeue(q).event.None?
    ensures Complete(q) <==> !ComesToJam(q)
  {
    NullIff(q);
    if q.bottom == [] && Jams(q) { JamStays(q); }
  }

  /** Repeated dequeue empties the queue if and only if it comes to no jam. */
  lemma {:induction false} CompleteIff(q: Ladder)
    requires Rep(q) && |q.top| < INVALID && q.maxTS <= MAX_TIME
    ensures Complete(q) <==> !ComesToJam(q)
    decreases |Contents(q)|
  {
    if Dequeue(q).event.Some? {
      DrainStepComplete(q);
      JamStep(q);
      CompleteIff(Dequeue(q).q);
    } else {
      DrainStops(q);
    }
  }

  /** In every run: from any point on, dequeueing alone returns everything queued, in order, if and only if it
      comes to no jam and the layers are in order. */
  lemma DrainAlways(ops: seq<Op>, qs: seq<Ladder>, k: nat)
    requires Run(ops, qs) && k < |qs| && |qs[k].top| < INVALID
    ensures Rep(qs[k])
    ensures multiset(Drain(qs[k])) == Contents(qs[k]) && BottomSorted(Drain(qs[k])) <==>
              !ComesToJam(qs[k]) && Ordered(qs[k])
  {
    RepAlways(ops, qs, k);
    MaxTimeAlways(ops, qs, k);
    CompleteIff(qs[k]);
    if Complete(qs[k]) { DrainSortedIff(qs[k]); }
  }
}
