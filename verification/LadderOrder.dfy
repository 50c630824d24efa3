module LadderOrder {
  // When the ladder is in order: everything deeper comes before everything shallower. Every operation keeps
  // that order except an insert into a rung that has smaller or equal business below it, and the exact
  // condition is given. In order, dequeue returns the least event.

  import opened LadderModel
  import opened LadderRungs
  import opened LadderInsert
  import opened LadderErase
  import opened LadderDequeue

  ghost predicate AllLess(xs: multiset<Event>, ys: multiset<Event>) {
    forall x, y :: x in xs && y in ys ==> Less(x, y)
  }

  // ----- order of a stack of layers -----

  /** Layers from the shallowest to the deepest: the deeper, the earlier. */
  ghost predicate InOrder(ls: seq<multiset<Event>>) {
    forall k, l :: 0 <= k < l < |ls| ==> AllLess(ls[l], ls[k])
  }

  lemma ShrinkKeepsOrder(ls: seq<multiset<Event>>, ls': seq<multiset<Event>>)
    requires InOrder(ls) && |ls'| == |ls| && forall k :: 0 <= k < |ls| ==> ls'[k] <= ls[k]
    ensures InOrder(ls')
  {
    forall k, l | 0 <= k < l < |ls'| ensures AllLess(ls'[l], ls'[k]) {
      assert AllLess(ls[l], ls[k]) && ls'[l] <= ls[l] && ls'[k] <= ls[k];
    }
  }

  /** A layer is split in two, the earlier part going below. */
  lemma SplitKeepsOrder(pre: seq<multiset<Event>>, whole: multiset<Event>, post: seq<multiset<Event>>,
                        late: multiset<Event>, early: multiset<Event>)
    requires InOrder(pre + [whole] + post) && late <= whole && early <= whole && AllLess(early, late)
    ensures InOrder(pre + [late, early] + post)
  {
    var ls, ls' := pre + [whole] + post, pre + [late, early] + post;
    var n := |pre|;
    assert ls[n] == whole;
    forall k, l | 0 <= k < l < |ls'| ensures AllLess(ls'[l], ls'[k]) {
      var k', l' := if k <= n then k else k - 1, if l <= n then l else l - 1;
      assert ls'[k] <= ls[k'] && ls'[l] <= ls[l'];
      if k' < l' { assert AllLess(ls[l'], ls[k']); }
    }
  }

  lemma DropKeepsOrder(pre: seq<multiset<Event>>, x: multiset<Event>, post: seq<multiset<Event>>)
    requires InOrder(pre + [x] + post)
    ensures InOrder(pre + post)
  {
    var ls, ls' := pre + [x] + post, pre + post;
    forall k, l | 0 <= k < l < |ls'| ensures AllLess(ls'[l], ls'[k]) {
      var k', l' := if k < |pre| then k else k + 1, if l < |pre| then l else l + 1;
      assert ls'[k] == ls[k'] && ls'[l] == ls[l'];
    }
  }

  /** One event joins layer `k`. */
  lemma JoinOrderIff(ls: seq<multiset<Event>>, k: nat, e: Event)
    requires InOrder(ls) && k < |ls|
    requires forall l :: 0 <= l < k ==> AllLess(multiset{e}, ls[l])
    ensures InOrder(ls[k := ls[k] + multiset{e}]) <==> forall l :: k < l < |ls| ==> AllLess(ls[l], multiset{e})
  {
    var ls' := ls[k := ls[k] + multiset{e}];
    if InOrder(ls') {
      forall l | k < l < |ls| ensures AllLess(ls[l], multiset{e}) {
        assert AllLess(ls'[l], ls'[k]) && ls'[l] == ls[l];
        assert e in ls'[k];
      }
    }
    if forall l :: k < l < |ls| ==> AllLess(ls[l], multiset{e}) {
      forall i, l | 0 <= i < l < |ls'| ensures AllLess(ls'[l], ls'[i]) {
        assert AllLess(ls[l], ls[i]);
      }
    }
  }

  // ----- the layers of the queue -----

  /** Rungs from the first to the last live one, then Bottom. */
  ghost function Layers(q: Ladder): (ls: seq<multiset<Event>>)
    requires q.nRung <= |q.rungs|
    ensures |ls| == q.nRung + 1 && ls[q.nRung] == multiset(q.bottom)
    ensures forall k :: 0 <= k < q.nRung ==> ls[k] == Flat(q.rungs[k].buckets)
  {
    seq(q.nRung, k requires 0 <= k < q.nRung => Flat(q.rungs[k].buckets)) + [multiset(q.bottom)]
  }

  ghost function Above(q: Ladder): (ls: seq<multiset<Event>>)
    requires 0 < q.nRung <= |q.rungs|
    ensures |ls| == q.nRung - 1
    ensures forall k :: 0 <= k < q.nRung - 1 ==> ls[k] == Flat(q.rungs[k].buckets)
    ensures Layers(q) == ls + [Flat(Last(q).buckets)] + [multiset(q.bottom)]
  {
    Layers(q)[..q.nRung - 1]
  }

  /** Rungs are ordered among each other, the later the earlier, and Bottom comes before all of them. */
  ghost predicate Ordered(q: Ladder)
    requires q.nRung <= |q.rungs|
  {
    InOrder(Layers(q))
  }

  lemma FlatTimes(r: Rung, e: Event)
    requires LiveRung(r) && e in Flat(r.buckets)
    ensures r.start <= r.cur <= e.time
  {
    var b := FlatFrom(r.buckets, e);
    assert Fits(r, b, e);
  }

  // ----- Begin keeps the order -----

  /** What is taken out of the first bucket comes before all that stays. */
  lemma FirstBucketFirst(r: Rung, b: nat)
    requires LiveRung(r) && b == NextFull(r.buckets, 0) < |r.buckets|
    ensures AllLess(multiset(r.buckets[b]), Flat(WithoutFirst(r).buckets))
    ensures forall x :: x in multiset(r.buckets[b]) && NextFull(WithoutFirst(r).buckets, b + 1) < |r.buckets| ==>
              x.time < WithoutFirst(r).cur
  {
    var r' := WithoutFirst(r);
    var d := NextFull(r'.buckets, b + 1);
    forall x | x in multiset(r.buckets[b]) && d < |r.buckets| ensures x.time < r'.cur {
      assert Fits(r, b, x);
      LowMono(r, b, d);
    }
    forall x, y | x in multiset(r.buckets[b]) && y in Flat(r'.buckets) ensures Less(x, y) {
      var c := FlatFrom(r'.buckets, y);
      assert c > b && y in r.buckets[c];
      assert Fits(r, b, x) && Fits(r, c, y);
      LowMono(r, b, c);
    }
  }

  /** Replacing the last rung, and Bottom. */
  lemma LayersReplace(q: Ladder, r: Rung, bottom: seq<Event>)
    requires 0 < q.nRung <= |q.rungs|
    ensures Layers(WithRung(q, q.nRung - 1, r).(bottom := bottom)) == Above(q) + [Flat(r.buckets), multiset(bottom)]
  {
  }

  lemma LayersAdd(q: Ladder, r: Rung)
    requires q.nRung < |q.rungs|
    ensures Layers(AddRung(q, r)) == Layers(q)[..q.nRung] + [Flat(r.buckets), multiset(q.bottom)]
  {
  }

  lemma LayersReplaceAndAdd(q: Ladder, parent: Rung, child: Rung)
    requires 0 < q.nRung < |q.rungs|
    ensures Layers(AddRung(WithRung(q, q.nRung - 1, parent), child))
            == Above(q) + [Flat(parent.buckets), Flat(child.buckets)] + [multiset(q.bottom)]
  {
    var mid := WithRung(q, q.nRung - 1, parent);
    LayersReplace(q, parent, q.bottom);
    assert mid.(bottom := q.bottom) == mid;
    LayersAdd(mid, child);
  }

  lemma LayersSpawn(q: Ladder)
    requires Spawns(q)
    ensures Layers(Spawn(q)) == Above(q) + [Flat(WithoutFirst(Last(q)).buckets), Flat(Child(q).buckets)] +
            [multiset(q.bottom)]
  {
    LayersReplaceAndAdd(q, WithoutFirst(Last(q)), Child(q));
  }

  lemma SpawnKeepsOrder(q: Ladder)
    requires Spawns(q) && Ordered(q)
    ensures Ordered(Spawn(q))
  {
    var whole, late, early := Flat(Last(q).buckets), Flat(WithoutFirst(Last(q)).buckets), Flat(Child(q).buckets);
    assert late <= whole && early <= whole && AllLess(early, late) by {
      SpawnParts(q);
      FirstBucketFirst(Last(q), FirstBucket(q));
    }
    SplitKeepsOrder(Above(q), whole, [multiset(q.bottom)], late, early);
    LayersSpawn(q);
  }

  lemma AimKeepsOrder(q: Ladder)
    requires Rep(q) && HasBucket(q) && Ordered(q)
    ensures Ordered(Aim(q))
  {
    assert Layers(Aim(q)) == Layers(q);
  }

  lemma PopKeepsOrder(q: Ladder)
    requires 0 < q.nRung <= |q.rungs| && Ordered(q)
    ensures Ordered(PopRung(q))
  {
    DropKeepsOrder(Above(q), Flat(Last(q).buckets), [multiset(q.bottom)]);
    assert Layers(PopRung(q)) == Above(q) + [multiset(q.bottom)];
  }

  lemma {:induction false} RecurseKeepsOrder(q: Ladder)
    requires Rep(q) && Ordered(q)
    ensures RecurseRung(q).q.nRung <= |RecurseRung(q).q.rungs| && Ordered(RecurseRung(q).q)
    decreases Drained(q), if q.nRung > 0 then Last(q).width else 0
  {
    if q.nRung > 0 {
      if FirstBucket(q) == |Last(q).buckets| {
        PopKeepsRep(q);
        PopKeepsOrder(q);
        RecurseKeepsOrder(PopRung(q));
      } else {
        var q' := Aim(q);
        AimKeepsRep(q);
        AimKeepsOrder(q);
        if Crowded(q') && q'.nRung < MAX_RUNG_NUM {
          SpawnSteps(q');
          SpawnKeepsOrder(q');
          RecurseKeepsOrder(Spawn(q'));
        }
      }
    }
  }

  lemma {:induction false} PopDrainedKeepsOrder(q: Ladder)
    requires q.nRung <= |q.rungs| && Ordered(q)
    ensures PopDrained(q).nRung <= |PopDrained(q).rungs| && Ordered(PopDrained(q))
    decreases q.nRung
  {
    if q.nRung > 0 && Last(q).num == 0 {
      PopKeepsOrder(q);
      PopDrainedKeepsOrder(PopRung(q));
    }
  }

  /** With Bottom empty only the rungs matter. */
  lemma RungsInOrder(q: Ladder)
    requires 0 < q.nRung <= |q.rungs| && Ordered(q)
    ensures InOrder(Above(q) + [Flat(Last(q).buckets)])
  {
    DropKeepsOrder(Above(q) + [Flat(Last(q).buckets)], multiset(q.bottom), []);
    assert Above(q) + [Flat(Last(q).buckets)] + [multiset(q.bottom)] + [] == Layers(q);
    assert Above(q) + [Flat(Last(q).buckets)] + [] == Above(q) + [Flat(Last(q).buckets)];
  }

  lemma LayersPour(q: Ladder, b: nat)
    requires 0 < q.nRung <= |q.rungs| && b < |Last(q).buckets|
    ensures Layers(PopRung(Emptied(q, b))) == Above(q) + [multiset(Emptied(q, b).bottom)]
  {
  }

  lemma PourPopKeepsOrder(q: Ladder)
    requires Rep(q) && HasBucket(q) && Ordered(q) && q.bottom == []
    ensures Ordered(PopRung(Emptied(q, FirstBucket(q))))
  {
    var b := FirstBucket(q);
    assert multiset(Emptied(q, b).bottom) <= Flat(Last(q).buckets) by {
      BottomTimes(q, b);
      FlatHas(Last(q).buckets, b);
    }
    RungsInOrder(q);
    ShrinkKeepsOrder(Above(q) + [Flat(Last(q).buckets)], Above(q) + [multiset(Emptied(q, b).bottom)]);
    LayersPour(q, b);
  }

  lemma PourTrimKeepsOrder(q: Ladder)
    requires Rep(q) && HasBucket(q) && Ordered(q) && q.bottom == []
    ensures Ordered(WithRung(q, q.nRung - 1, WithoutFirst(Last(q))).(bottom := Emptied(q, FirstBucket(q)).bottom))
  {
    var b, bottom := FirstBucket(q), Emptied(q, FirstBucket(q)).bottom;
    var whole, late, early := Flat(Last(q).buckets), Flat(WithoutFirst(Last(q)).buckets), multiset(bottom);
    assert late <= whole && early <= whole && AllLess(early, late) by {
      BottomTimes(q, b);
      WithoutFirstKeepsLive(Last(q));
      FirstBucketFirst(Last(q), b);
    }
    RungsInOrder(q);
    SplitLast(Above(q), whole, late, early);
    LayersReplace(q, WithoutFirst(Last(q)), bottom);
  }

  lemma SplitLast(pre: seq<multiset<Event>>, whole: multiset<Event>, late: multiset<Event>, early: multiset<Event>)
    requires InOrder(pre + [whole]) && late <= whole && early <= whole && AllLess(early, late)
    ensures InOrder(pre + [late, early])
  {
    assert pre + [whole] + [] == pre + [whole];
    SplitKeepsOrder(pre, whole, [], late, early);
    assert pre + [late, early] + [] == pre + [late, early];
  }

  lemma PourKeepsOrder(q: Ladder, deep: bool)
    requires Rep(q) && Aimed(q) && Ordered(q) && q.bottom == []
    ensures var p := Pour(q, FirstBucket(q), deep);
            p.q.nRung <= |p.q.rungs| && Ordered(p.q)
  {
    PourCases(q, deep);
    PourFacts(q, deep);
    if Last(q).num == FirstBucket(q) + 1 {
      PourPopKeepsOrder(q);
      PopDrainedKeepsOrder(PopRung(Emptied(q, FirstBucket(q))));
    } else {
      PourTrimKeepsOrder(q);
    }
  }

  lemma LoadTopOrdered(q: Ladder)
    requires Rep(q) && q.nRung == 0 && q.top != [] && q.bottom == [] && |q.top| < INVALID
    ensures Ordered(LoadTop(q))
  {
    assert Layers(LoadTop(q))[1] == multiset{};
  }

  lemma BeginFromTopOrdered(q: Ladder)
    requires Rep(q) && q.nRung == 0 && q.top != [] && q.bottom == [] && |q.top| < INVALID && Rep(LoadTop(q))
    ensures var p := BeginFromTop(q);
            p.q.nRung <= |p.q.rungs| && Ordered(p.q)
  {
    var l := LoadTop(q);
    LoadTopOrdered(q);
    RecurseFacts(l);
    RecurseKeepsOrder(l);
    if RecurseRung(l).b != INVALID {
      LoadTopKeepsRep(q);
      RecurseNotEmpty(l);
      PourKeepsOrder(RecurseRung(l).q, false);
    }
  }

  lemma BeginKeepsOrder(q: Ladder)
    requires Rep(q) && |q.top| < INVALID && Ordered(q)
    ensures Begin(q).q.nRung <= |Begin(q).q.rungs| && Ordered(Begin(q).q)
  {
    if q.bottom == [] {
      RecurseFacts(q);
      RecurseKeepsOrder(q);
      var s := if q.nRung > 0 then RecurseRung(q) else Search(q, 0);
      if s.q.nRung > 0 {
        if s.b != INVALID { PourKeepsOrder(s.q, true); }
      } else if s.q.top != [] {
        LoadTopKeepsRep(s.q);
        BeginFromTopOrdered(s.q);
      }
    }
  }

  /** In order, what begin returns is the least event of the whole queue. */
  lemma BeginLeast(q: Ladder)
    requires Rep(q) && |q.top| < INVALID && Ordered(q) && Begin(q).event.Some?
    ensures Begin(q).event.value in Contents(q)
    ensures forall x :: x in Contents(q) ==> !Less(x, Begin(q).event.value)
  {
    BeginFacts(q);
    BeginKeepsOrder(q);
    var p := Begin(q).q;
    HeadLeast(p);
  }

  lemma HeadBeforeBottom(q: Ladder, x: Event)
    requires BottomSorted(q.bottom) && x in q.bottom
    ensures !Less(x, q.bottom[0])
  {
    var i :| 0 <= i < |q.bottom| && q.bottom[i] == x;
    LessIrreflexive(x);
  }

  lemma HeadBeforeRungs(q: Ladder, x: Event)
    requires Rep(q) && Ordered(q) && q.bottom != [] && x in RungContents(q.rungs)
    ensures !Less(x, q.bottom[0])
  {
    var k := RungContentsFrom(q.rungs, x);
    if k >= q.nRung { FlatEmpty(q.rungs[k].buckets); }
    assert q.bottom[0] in Layers(q)[q.nRung] && x in Layers(q)[k];
    assert AllLess(Layers(q)[q.nRung], Layers(q)[k]);
  }

  lemma HeadLeast(q: Ladder)
    requires Rep(q) && Ordered(q) && q.bottom != []
    ensures q.bottom[0] in Contents(q) && forall x :: x in Contents(q) ==> !Less(x, q.bottom[0])
  {
    var h := q.bottom[0];
    assert h in multiset(q.bottom);
    forall x | x in Contents(q) ensures !Less(x, h) {
      if x in q.bottom {
        HeadBeforeBottom(q, x);
      } else if x in RungContents(q.rungs) {
        HeadBeforeRungs(q, x);
      } else {
        assert x in q.top && h in q.bottom;
      }
    }
  }

  lemma LessIrreflexive(x: Event)
    ensures !Less(x, x)
  {
  }

  lemma {:induction false} RungContentsFrom(rungs: seq<Rung>, e: Event) returns (k: nat)
    requires e in RungContents(rungs)
    ensures k < |rungs| && e in Flat(rungs[k].buckets)
  {
    if e in Flat(rungs[|rungs| - 1].buckets) {
      k := |rungs| - 1;
    } else {
      k := RungContentsFrom(rungs[..|rungs| - 1], e);
    }
  }

  // ----- Erase keeps the order -----

  lemma EraseKeepsOrder(q: Ladder, e: Event)
    requires Rep(q) && Ordered(q)
    ensures Erase(q, e).nRung <= |Erase(q, e).rungs| && Ordered(Erase(q, e))
  {
    EraseShrinks(q, e);
    ShrinkKeepsOrder(Layers(q), Layers(Erase(q, e)));
  }

  lemma EraseInShrinks(r: Rung, b: nat, e: Event)
    requires LiveRung(r) && b < |r.buckets| && r.buckets[b] != []
    ensures Flat(EraseIn(r, b, e).buckets) <= Flat(r.buckets)
  {
    EraseInKeepsLive(r, b, e);
    ListEraseFacts(r.buckets[b], e);
    SmallerPart(Flat(EraseIn(r, b, e).buckets), Flat(r.buckets), multiset(ListErase(r.buckets[b], e)),
                multiset(r.buckets[b]));
  }

  lemma EraseShrinks(q: Ladder, e: Event)
    requires Rep(q)
    ensures Erase(q, e).nRung == q.nRung && |Erase(q, e).rungs| == |q.rungs|
    ensures forall k :: 0 <= k <= q.nRung ==> Layers(Erase(q, e))[k] <= Layers(q)[k]
  {
    if LooksInTop(q, e) {
      assert Layers(Erase(q, e)) == Layers(q);
    } else {
      var k := FindRung(q, e.time, 0);
      if k < q.nRung {
        var b := Index(q.rungs[k], e.time);
        if q.rungs[k].buckets[b] != [] {
          EraseInShrinks(q.rungs[k], b, e);
          LayersRungInsert(q, k, EraseIn(q.rungs[k], b, e));
        }
      } else {
        BottomEraseCounts(q.bottom, e);
        LayersBottom(q, BottomErase(q.bottom, e));
      }
    }
  }

  lemma SmallerPart(f: multiset<Event>, g: multiset<Event>, x: multiset<Event>, y: multiset<Event>)
    requires f + y == g + x && x <= y
    ensures f <= g
  {
    forall e ensures f[e] <= g[e] { assert (f + y)[e] == (g + x)[e]; }
  }

  // ----- Insert: exactly when the order survives -----

  /** Everything deeper than where the event lands comes before it. */
  ghost predicate Fitting(q: Ladder, e: Event)
    requires Rep(q)
  {
    var k := FindRung(q, e.time, 0);
    e.time <= q.topStart && k < q.nRung ==>
      forall l :: k < l <= q.nRung ==> AllLess(Layers(q)[l], multiset{e})
  }

  /** An event that passes rung `k` by lies before everything in it. */
  lemma PassedBy(q: Ladder, e: Event, k: nat)
    requires Rep(q) && k < FindRung(q, e.time, 0)
    ensures AllLess(multiset{e}, Layers(q)[k])
  {
    forall y | y in Flat(q.rungs[k].buckets) ensures Less(e, y) { FlatTimes(q.rungs[k], y); }
  }

  lemma LayersRungInsert(q: Ladder, k: nat, r: Rung)
    requires k < q.nRung <= |q.rungs|
    ensures Layers(WithRung(q, k, r)) == Layers(q)[k := Flat(r.buckets)]
  {
  }

  lemma RungInsertOrder(q: Ladder, e: Event)
    requires Rep(q) && Ordered(q) && e.time <= q.topStart && FindRung(q, e.time, 0) < q.nRung
    ensures Ordered(Insert(q, e)) <==> Fitting(q, e)
  {
    var k := FindRung(q, e.time, 0);
    var r := Lowered(Put(q.rungs[k], e), Index(q.rungs[k], e.time));
    LayersRungInsert(q, k, r);
    assert Flat(r.buckets) == Layers(q)[k] + multiset{e} by { InsertKeepsLive(q.rungs[k], e); }
    forall l | 0 <= l < k ensures AllLess(multiset{e}, Layers(q)[l]) { PassedBy(q, e, l); }
    JoinOrderIff(Layers(q), k, e);
  }

  lemma LayersAddCleared(q: Ladder, r: Rung)
    requires q.nRung < |q.rungs|
    ensures Layers(AddRung(q.(bottom := []), r)) == Layers(q)[q.nRung := Flat(r.buckets)] + [multiset{}]
  {
    LayersAdd(q.(bottom := []), r);
  }

  lemma LayersTransfer(q: Ladder, e: Event)
    requires Rep(q) && GoesBelow(q, e) && Overfull(q)
    ensures Layers(Transfer(q, e)) == Layers(q)[q.nRung := multiset(q.bottom) + multiset{e}] + [multiset{}]
  {
    TransferIsAdd(q, e);
    TransferredRung(q, e);
    LayersAddCleared(q, Transfer(q, e).rungs[q.nRung]);
  }

  lemma LayersBottom(q: Ladder, bottom: seq<Event>)
    requires q.nRung <= |q.rungs|
    ensures Layers(q.(bottom := bottom)) == Layers(q)[q.nRung := multiset(bottom)]
  {
  }

  lemma BelowInsertKeepsOrder(q: Ladder, e: Event)
    requires Rep(q) && Ordered(q) && GoesBelow(q, e)
    ensures Insert(q, e).nRung <= |Insert(q, e).rungs| && Ordered(Insert(q, e))
  {
    var ls := Layers(q)[q.nRung := multiset(q.bottom) + multiset{e}];
    forall l | 0 <= l < q.nRung ensures AllLess(multiset{e}, Layers(q)[l]) { PassedBy(q, e, l); }
    JoinOrderIff(Layers(q), q.nRung, e);
    assert InOrder(ls);
    if Overfull(q) {
      EmptyLayerKeepsOrder(ls);
      LayersTransfer(q, e);
    } else {
      BottomInsertAdds(q.bottom, e);
      LayersBottom(q, BottomInsert(q.bottom, e));
    }
  }

  lemma EmptyLayerKeepsOrder(ls: seq<multiset<Event>>)
    requires InOrder(ls)
    ensures InOrder(ls + [multiset{}])
  {
  }

  /** EXACT ORDER CONDITION. Starting in order, an insert leaves the ladder in order if and only if it
      does not land in a rung with something below that should come after it. */
  lemma InsertOrderedIff(q: Ladder, e: Event)
    requires Rep(q) && Ordered(q)
    ensures Insert(q, e).nRung <= |Insert(q, e).rungs|
    ensures Ordered(Insert(q, e)) <==> Fitting(q, e)
  {
    if e.time <= q.topStart {
      if FindRung(q, e.time, 0) < q.nRung { RungInsertOrder(q, e); } else { BelowInsertKeepsOrder(q, e); }
    } else {
      assert Layers(Insert(q, e)) == Layers(q);
    }
  }
}
