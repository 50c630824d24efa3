module LadderShadow {
  // Which events erase can find. The walk stops at the first rung whose rCur is not past the event's time,
  // so a rung above the event's layer with such an rCur shadows it. In runs whose inserts all go to Top
  // these are the rungs that have run empty, which have their rCur set back to their start.

  import opened LadderModel
  import opened LadderRungs
  import opened LadderInsert
  import opened LadderErase
  import opened LadderDequeue
  import opened LadderOrder

  /** How a rung relates to a layer below it: it started no later, and while it holds events its rCur is
      past that layer; once drained, its rCur is back at the start. */
  ghost predicate Covers(r: Rung, below: multiset<Event>) {
    && (forall x :: x in below ==> r.start <= x.time)
    && (r.num == 0 ==> r.cur == r.start)
    && (r.num > 0 ==> forall x :: x in below ==> x.time < r.cur)
  }

  ghost predicate Stacked(q: Ladder)
    requires q.nRung <= |q.rungs|
  {
    forall k, l :: 0 <= k < l <= q.nRung ==> Covers(q.rungs[k], Layers(q)[l])
  }

  /** A drained live rung lies above the event. */
  ghost predicate Hidden(q: Ladder, e: Event)
    requires q.nRung <= |q.rungs|
  {
    exists k, l :: 0 <= k < l <= q.nRung && q.rungs[k].num == 0 && e in Layers(q)[l]
  }

  // ----- Begin -----

  lemma WithoutFirstCovers(r: Rung)
    requires LiveRung(r) && NextFull(r.buckets, 0) < |r.buckets|
    ensures Covers(WithoutFirst(r), multiset(r.buckets[NextFull(r.buckets, 0)]))
  {
    var b := NextFull(r.buckets, 0);
    var r' := WithoutFirst(r);
    WithoutFirstKeepsLive(r);
    FirstBucketFirst(r, b);
    OccupiedZero(r'.buckets);
    forall x | x in multiset(r.buckets[b]) ensures r'.start <= x.time {
      assert Fits(r, b, x);
      LowMono(r, 0, b);
    }
    if r'.num > 0 { assert r'.buckets[r'.num - 1] != []; }
  }

  lemma SmallerCovered(r: Rung, below: multiset<Event>, below': multiset<Event>)
    requires Covers(r, below) && below' <= below
    ensures Covers(r, below')
  {
  }

  /** Splitting a layer: every layer is part of the one it comes from. */
  lemma SplitBound(pre: seq<multiset<Event>>, whole: multiset<Event>, late: multiset<Event>, early: multiset<Event>,
                   post: seq<multiset<Event>>, l: nat)
    requires late <= whole && early <= whole && l < |pre| + 2 + |post|
    ensures (pre + [late, early] + post)[l] <= (pre + [whole] + post)[if l <= |pre| then l else l - 1]
  {
  }

  lemma SpawnLayerBound(q: Ladder, l: nat)
    requires Spawns(q) && l <= q.nRung + 1
    ensures Layers(Spawn(q))[l] <= Layers(q)[if l < q.nRung then l else l - 1]
  {
    var whole, late, early := Flat(Last(q).buckets), Flat(WithoutFirst(Last(q)).buckets), Flat(Child(q).buckets);
    assert late <= whole && early <= whole by { SpawnParts(q); }
    LayersSpawn(q);
    SplitBound(Above(q), whole, late, early, [multiset(q.bottom)], l);
  }

  /** The rungs above the one that is split see the same events below them. */
  lemma SpawnUpper(q: Ladder, k: nat, l: nat)
    requires Spawns(q) && Stacked(q) && 0 <= k < l <= q.nRung + 1 && k < q.nRung - 1
    ensures Covers(q.rungs[k], Layers(Spawn(q))[l])
  {
    var l' := if l < q.nRung then l else l - 1;
    SpawnLayerBound(q, l);
    SmallerCovered(q.rungs[k], Layers(q)[l'], Layers(Spawn(q))[l]);
  }

  lemma ParentCovers(q: Ladder)
    requires Spawns(q)
    ensures Covers(WithoutFirst(Last(q)), Flat(Child(q).buckets))
  {
    assert Flat(Child(q).buckets) == multiset(Last(q).buckets[FirstBucket(q)]) by { SpawnParts(q); }
    WithoutFirstCovers(Last(q));
  }

  lemma ChildCovers(q: Ladder)
    requires Spawns(q)
    ensures Covers(Child(q), multiset{})
  {
    SpawnParts(q);
    OccupiedZero(Child(q).buckets);
  }

  lemma SpawnedRungs(q: Ladder)
    requires Spawns(q)
    ensures Spawn(q).rungs[q.nRung - 1] == WithoutFirst(Last(q)) && Spawn(q).rungs[q.nRung] == Child(q)
  {
  }

  lemma SpawnLower(q: Ladder, k: nat, l: nat)
    requires Spawns(q) && q.bottom == [] && q.nRung - 1 <= k < l <= q.nRung + 1
    ensures Covers(Spawn(q).rungs[k], Layers(Spawn(q))[l])
  {
    SpawnedRungs(q);
    LayersSpawn(q);
    ParentCovers(q);
    ChildCovers(q);
    SmallerCovered(WithoutFirst(Last(q)), Flat(Child(q).buckets), multiset{});
    assert l == q.nRung || Layers(Spawn(q))[l] == multiset{};
  }

  lemma SpawnStacked(q: Ladder)
    requires Spawns(q) && Stacked(q) && q.bottom == []
    ensures Stacked(Spawn(q))
  {
    forall k, l | 0 <= k < l <= q.nRung + 1 ensures Covers(Spawn(q).rungs[k], Layers(Spawn(q))[l]) {
      if k < q.nRung - 1 { SpawnUpper(q, k, l); } else { SpawnLower(q, k, l); }
    }
  }

  lemma AimedCovers(q: Ladder)
    requires Rep(q) && HasBucket(q)
    ensures Covers(Last(Aim(q)), multiset{})
  {
    OccupiedZero(Last(q).buckets);
  }

  lemma SameBucketsStacked(q: Ladder, r: Rung)
    requires 0 < q.nRung <= |q.rungs| && Stacked(q) && q.bottom == []
    requires r.buckets == Last(q).buckets && Covers(r, multiset{})
    ensures Stacked(WithRung(q, q.nRung - 1, r))
  {
    var q' := WithRung(q, q.nRung - 1, r);
    assert Layers(q') == Layers(q);
  }

  lemma AimStacked(q: Ladder)
    requires Rep(q) && HasBucket(q) && Stacked(q) && q.bottom == []
    ensures Stacked(Aim(q))
  {
    AimedCovers(q);
    SameBucketsStacked(q, Last(Aim(q)));
  }

  lemma PopLayer(q: Ladder, l: nat)
    requires 0 < q.nRung <= |q.rungs| && l < q.nRung
    ensures Layers(PopRung(q))[l] == Layers(q)[if l == q.nRung - 1 then q.nRung else l]
  {
  }

  lemma PopStacked(q: Ladder)
    requires 0 < q.nRung <= |q.rungs| && Stacked(q)
    ensures Stacked(PopRung(q))
  {
    var q', n := PopRung(q), q.nRung;
    forall k, l | 0 <= k < l <= q'.nRung ensures Covers(q'.rungs[k], Layers(q')[l]) {
      PopLayer(q, l);
      assert Covers(q.rungs[k], Layers(q)[if l == n - 1 then n else l]);
    }
  }

  lemma {:induction false} RecurseStacked(q: Ladder)
    requires Rep(q) && Stacked(q) && q.bottom == []
    ensures RecurseRung(q).q.nRung <= |RecurseRung(q).q.rungs| && Stacked(RecurseRung(q).q)
    decreases Drained(q), if q.nRung > 0 then Last(q).width else 0
  {
    if q.nRung > 0 {
      if FirstBucket(q) == |Last(q).buckets| {
        PopKeepsRep(q);
        PopStacked(q);
        RecurseStacked(PopRung(q));
      } else {
        AimKeepsRep(q);
        AimStacked(q);
        if Crowded(Aim(q)) && q.nRung < MAX_RUNG_NUM {
          SpawnSteps(Aim(q));
          SpawnStacked(Aim(q));
          RecurseStacked(Spawn(Aim(q)));
        }
      }
    }
  }

  lemma {:induction false} PopDrainedStacked(q: Ladder)
    requires q.nRung <= |q.rungs| && Stacked(q)
    ensures PopDrained(q).nRung <= |PopDrained(q).rungs| && Stacked(PopDrained(q))
    decreases q.nRung
  {
    if q.nRung > 0 && Last(q).num == 0 {
      PopStacked(q);
      PopDrainedStacked(PopRung(q));
    }
  }

  lemma PourPopBound(q: Ladder, l: nat)
    requires Rep(q) && HasBucket(q) && q.bottom == [] && l < q.nRung
    ensures Layers(PopRung(Emptied(q, FirstBucket(q))))[l] <= Layers(q)[l]
  {
    LayersPour(q, FirstBucket(q));
    BottomTimes(q, FirstBucket(q));
    FlatHas(Last(q).buckets, FirstBucket(q));
  }

  lemma PourPopStacked(q: Ladder)
    requires Rep(q) && HasBucket(q) && Stacked(q) && q.bottom == []
    ensures Stacked(PopRung(Emptied(q, FirstBucket(q))))
  {
    var q' := PopRung(Emptied(q, FirstBucket(q)));
    forall k, l | 0 <= k < l <= q'.nRung ensures Covers(q'.rungs[k], Layers(q')[l]) {
      PourPopBound(q, l);
      SmallerCovered(q.rungs[k], Layers(q)[l], Layers(q')[l]);
    }
  }

  lemma TrimLayerBound(q: Ladder, l: nat)
    requires Rep(q) && HasBucket(q) && q.bottom == [] && l <= q.nRung
    ensures var q' := WithRung(q, q.nRung - 1, WithoutFirst(Last(q))).(bottom := Emptied(q, FirstBucket(q)).bottom);
            && Layers(q')[l] <= Layers(q)[if l == q.nRung then l - 1 else l]
            && Layers(q')[q.nRung] == multiset(Last(q).buckets[FirstBucket(q)])
  {
    var b := FirstBucket(q);
    LayersReplace(q, WithoutFirst(Last(q)), Emptied(q, b).bottom);
    BottomTimes(q, b);
    FlatHas(Last(q).buckets, b);
    WithoutFirstKeepsLive(Last(q));
  }

  lemma PourTrimStacked(q: Ladder)
    requires Rep(q) && HasBucket(q) && Stacked(q) && q.bottom == []
    ensures Stacked(WithRung(q, q.nRung - 1, WithoutFirst(Last(q))).(bottom := Emptied(q, FirstBucket(q)).bottom))
  {
    var n := q.nRung;
    var q' := WithRung(q, n - 1, WithoutFirst(Last(q))).(bottom := Emptied(q, FirstBucket(q)).bottom);
    forall k, l | 0 <= k < l <= n ensures Covers(q'.rungs[k], Layers(q')[l]) {
      if k < n - 1 { TrimUpper(q, k, l); } else { TrimLower(q); }
    }
  }

  lemma TrimLower(q: Ladder)
    requires Rep(q) && HasBucket(q) && q.bottom == []
    ensures var q' := WithRung(q, q.nRung - 1, WithoutFirst(Last(q))).(bottom := Emptied(q, FirstBucket(q)).bottom);
            Covers(WithoutFirst(Last(q)), Layers(q')[q.nRung])
  {
    WithoutFirstCovers(Last(q));
    TrimLayerBound(q, q.nRung);
  }

  lemma TrimUpper(q: Ladder, k: nat, l: nat)
    requires Rep(q) && HasBucket(q) && Stacked(q) && q.bottom == [] && k < l <= q.nRung && k < q.nRung - 1
    ensures var q' := WithRung(q, q.nRung - 1, WithoutFirst(Last(q))).(bottom := Emptied(q, FirstBucket(q)).bottom);
            Covers(q.rungs[k], Layers(q')[l])
  {
    var q' := WithRung(q, q.nRung - 1, WithoutFirst(Last(q))).(bottom := Emptied(q, FirstBucket(q)).bottom);
    TrimLayerBound(q, l);
    SmallerCovered(q.rungs[k], Layers(q)[if l == q.nRung then l - 1 else l], Layers(q')[l]);
  }

  lemma PourStacked(q: Ladder, deep: bool)
    requires Rep(q) && Aimed(q) && Stacked(q) && q.bottom == []
    ensures var p := Pour(q, FirstBucket(q), deep);
            p.q.nRung <= |p.q.rungs| && Stacked(p.q)
  {
    PourCases(q, deep);
    PourFacts(q, deep);
    if Last(q).num == FirstBucket(q) + 1 {
      PourPopStacked(q);
      PopDrainedStacked(PopRung(Emptied(q, FirstBucket(q))));
    } else {
      PourTrimStacked(q);
    }
  }

  lemma LoadTopStacked(q: Ladder)
    requires Rep(q) && q.nRung == 0 && q.top != [] && q.bottom == [] && |q.top| < INVALID
    ensures Stacked(LoadTop(q))
  {
    LoadedRung(q);
    OccupiedZero(LoadTop(q).rungs[0].buckets);
    assert Layers(LoadTop(q))[1] == multiset{};
  }

  lemma BeginStacked(q: Ladder)
    requires Rep(q) && |q.top| < INVALID && Stacked(q)
    ensures Begin(q).q.nRung <= |Begin(q).q.rungs| && Stacked(Begin(q).q)
  {
    if q.bottom == [] {
      RecurseFacts(q);
      RecurseStacked(q);
      var s := if q.nRung > 0 then RecurseRung(q) else Search(q, 0);
      if s.q.nRung > 0 {
        if s.b != INVALID { PourStacked(s.q, true); }
      } else if s.q.top != [] {
        LoadTopKeepsRep(s.q);
        LoadTopStacked(s.q);
        var l := LoadTop(s.q);
        RecurseFacts(l);
        RecurseStacked(l);
        RecurseNotEmpty(l);
        if RecurseRung(l).b != INVALID { PourStacked(RecurseRung(l).q, false); }
      }
    }
  }

  lemma DequeueStacked(q: Ladder)
    requires Rep(q) && q.bottom != [] && Stacked(q)
    ensures Stacked(q.(bottom := q.bottom[1..]))
  {
    var q' := q.(bottom := q.bottom[1..]);
    assert q.bottom == [q.bottom[0]] + q.bottom[1..];
    forall k, l | 0 <= k < l <= q'.nRung ensures Covers(q'.rungs[k], Layers(q')[l]) {
      assert Layers(q')[l] <= Layers(q)[l];
      SmallerCovered(q.rungs[k], Layers(q)[l], Layers(q')[l]);
    }
  }

  // ----- Erase -----

  lemma EraseInCovers(r: Rung, b: nat, e: Event, below: multiset<Event>)
    requires LiveRung(r) && b < |r.buckets| && r.buckets[b] != [] && Covers(r, below)
    ensures Covers(EraseIn(r, b, e), below)
  {
    OccupiedZero(r.buckets);
  }

  /** A rung after erase is the rung before, or the rung searched. */
  lemma EraseRung(q: Ladder, e: Event, k: nat)
    requires Rep(q) && k < q.nRung
    ensures |Erase(q, e).rungs| == |q.rungs|
    ensures Erase(q, e).rungs[k] == q.rungs[k]
            || (q.rungs[k].start <= e.time && q.rungs[k].buckets[Index(q.rungs[k], e.time)] != []
                && Erase(q, e).rungs[k] == EraseIn(q.rungs[k], Index(q.rungs[k], e.time), e))
  {
  }

  lemma EraseStacked(q: Ladder, e: Event)
    requires Rep(q) && Stacked(q)
    ensures Erase(q, e).nRung <= |Erase(q, e).rungs| && Stacked(Erase(q, e))
  {
    var q' := Erase(q, e);
    EraseShrinks(q, e);
    forall k, l | 0 <= k < l <= q.nRung ensures Covers(q'.rungs[k], Layers(q')[l]) {
      SmallerCovered(q.rungs[k], Layers(q)[l], Layers(q')[l]);
      EraseRung(q, e, k);
      if q'.rungs[k] != q.rungs[k] {
        EraseInCovers(q.rungs[k], Index(q.rungs[k], e.time), e, Layers(q')[l]);
      }
    }
  }

  /** An event is in the bucket its time leads to. */
  lemma FitsIndex(r: Rung, b: nat, e: Event)
    requires Usable(r) && b < |r.buckets| && Fits(r, b, e)
    ensures r.start <= e.time && Index(r, e.time) == b
  {
    LowMono(r, 0, b);
    var c := Index(r, e.time);
    IndexFits(r, e);
    if c < b { LowMono(r, c, b); }
    if b < c { LowMono(r, b, c); }
  }

  lemma SearchedRung(q: Ladder, e: Event)
    requires Rep(q) && !LooksInTop(q, e) && FindRung(q, e.time, 0) < q.nRung && e in Searched(q, e)
    ensures e in Layers(q)[FindRung(q, e.time, 0)]
  {
    var f := FindRung(q, e.time, 0);
    FlatHas(q.rungs[f].buckets, Index(q.rungs[f], e.time));
    assert e in multiset(Searched(q, e));
  }

  lemma LayerTimes(q: Ladder, l: nat, e: Event)
    requires Rep(q) && l <= q.nRung && e in Layers(q)[l]
    ensures e.time <= q.topStart
  {
    if l < q.nRung { FlatBelow(q.rungs[l], q.topStart); }
  }

  /** An event in two layers is held twice. */
  lemma TwoLayers(q: Ladder, f: nat, l: nat, e: Event)
    requires Rep(q) && f < l <= q.nRung && e in Layers(q)[f] && e in Layers(q)[l]
    ensures Contents(q)[e] >= 2
  {
    if l < q.nRung {
      TwoRungs(q.rungs, f, l, e);
    } else {
      OneRung(q.rungs, f, e);
    }
  }

  lemma {:induction false} OneRung(rungs: seq<Rung>, f: nat, e: Event)
    requires f < |rungs| && e in Flat(rungs[f].buckets)
    ensures RungContents(rungs)[e] >= 1
  {
    if f < |rungs| - 1 { OneRung(rungs[..|rungs| - 1], f, e); }
  }

  lemma {:induction false} TwoRungs(rungs: seq<Rung>, f: nat, l: nat, e: Event)
    requires f < l < |rungs| && e in Flat(rungs[f].buckets) && e in Flat(rungs[l].buckets)
    ensures RungContents(rungs)[e] >= 2
  {
    if l < |rungs| - 1 { TwoRungs(rungs[..|rungs| - 1], f, l, e); } else { OneRung(rungs[..l], f, e); }
  }

  // ----- erase, in every ladder -----

  /** A live rung whose rCur is not past the event's time lies above the layer that holds the event. */
  ghost predicate Shadowed(q: Ladder, e: Event)
    requires q.nRung <= |q.rungs|
  {
    exists k, l :: 0 <= k < l <= q.nRung && q.rungs[k].cur <= e.time && e in Layers(q)[l]
  }

  /** The layer that holds an event which is not in Top. */
  lemma LayerOf(q: Ladder, e: Event) returns (d: nat)
    requires Rep(q) && e in Contents(q) && e !in q.top
    ensures d <= q.nRung && e in Layers(q)[d]
  {
    if e in q.bottom {
      d := q.nRung;
    } else {
      d := RungContentsFrom(q.rungs, e);
      if d >= q.nRung { FlatEmpty(q.rungs[d].buckets); }
    }
  }

  lemma FoundUnlessShadowed(q: Ladder, e: Event)
    requires Rep(q) && e in Contents(q) && !Shadowed(q, e)
    ensures e in Searched(q, e)
  {
    if e !in q.top {
      var d := LayerOf(q, e);
      LayerTimes(q, d, e);
      assert forall i :: 0 <= i < d ==> e.time < q.rungs[i].cur;
      if d < q.nRung {
        FlatTimes(q.rungs[d], e);
        var b := FlatFrom(q.rungs[d].buckets, e);
        FitsIndex(q.rungs[d], b, e);
      }
      assert FindRung(q, e.time, 0) == d;
    }
  }

  lemma ShadowedMissed(q: Ladder, e: Event)
    requires Rep(q) && Shadowed(q, e) && Contents(q)[e] <= 1
    ensures e !in Searched(q, e)
  {
    var k, l :| 0 <= k < l <= q.nRung && q.rungs[k].cur <= e.time && e in Layers(q)[l];
    LayerTimes(q, l, e);
    if e in Searched(q, e) {
      SearchedRung(q, e);
      TwoLayers(q, FindRung(q, e.time, 0), l, e);
    }
  }

  /** EXACT ERASE. Whatever inserts built the ladder, erase removes a queued event if and only if no live
      rung above the event has its rCur at or before the event's time. */
  lemma EraseRemovesIff(q: Ladder, e: Event)
    requires Rep(q) && Contents(q)[e] <= 1
    ensures Contents(Erase(q, e)) == (if Shadowed(q, e) then Contents(q) else Contents(q) - multiset{e})
  {
    EraseFacts(q, e);
    if e in Contents(q) { SearchedIff(q, e); } else { AbsentMissed(q, e); }
  }

  lemma AbsentMissed(q: Ladder, e: Event)
    requires Rep(q) && e !in Contents(q)
    ensures e !in Searched(q, e)
  {
    if e in Searched(q, e) && !LooksInTop(q, e) {
      var k := FindRung(q, e.time, 0);
      if k < q.nRung {
        SearchedRung(q, e);
        OneRung(q.rungs, k, e);
      }
    }
  }

  lemma SearchedIff(q: Ladder, e: Event)
    requires Rep(q) && e in Contents(q) && Contents(q)[e] <= 1
    ensures e in Searched(q, e) <==> !Shadowed(q, e)
  {
    if Shadowed(q, e) { ShadowedMissed(q, e); } else { FoundUnlessShadowed(q, e); }
  }

  /** In runs whose inserts go to Top the rungs that shadow an event are the drained ones above it. */
  lemma HiddenIsShadowed(q: Ladder, e: Event)
    requires Rep(q) && Stacked(q)
    ensures Hidden(q, e) <==> Shadowed(q, e)
  {
    forall k, l | 0 <= k < l <= q.nRung && e in Layers(q)[l]
      ensures q.rungs[k].num == 0 <==> q.rungs[k].cur <= e.time
    {
      assert Covers(q.rungs[k], Layers(q)[l]);
    }
  }
}
