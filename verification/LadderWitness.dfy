/** A short run that takes the ladder out of order, and leaves an event that erase cannot find. */
module LadderWitness {
  import opened Wrappers
  import opened LadderModel
  import opened LadderRungs
  import opened LadderInsert
  import opened LadderErase
  import opened LadderDequeue
  import opened LadderRuns

  ghost const E10 := Event(10, 0, 0)
  ghost const E20 := Event(20, 1, 0)
  ghost const E30 := Event(30, 2, 0)
  ghost const E16 := Event(16, 3, 0)
  ghost const E12 := Event(12, 4, 0)

  ghost const LOADED := Rung([[E10], [E20], [E30], [], [], []], 7, 3, 10, 10)

  ghost function One(topStart: nat, r: Rung, bottom: seq<Event>): Ladder {
    Ladder([], 30, 10, topStart, NewRungs()[0 := r], 1, bottom)
  }

  /** Top with three events, and the queue after the first of them has been taken. */
  ghost const FULL := Ladder([E30, E20, E10], 30, 10, 0, NewRungs(), 0, [])
  ghost const TAKEN := One(30, Rung([[], [E20], [E30], [], [], []], 7, 3, 10, 17), [])

  lemma PutThirty(r: Rung)
    requires r == Rung([[], [], [], [], [], []], 7, 0, 10, 10)
    ensures Put(r, E30) == Rung([[], [], [E30], [], [], []], 7, 3, 10, 10)
  {
    assert Index(r, 30) == 2;
    assert [E30] + [] == [E30];
    assert r.buckets[2 := [E30]] == [[], [], [E30], [], [], []];
  }

  lemma PutTwenty(r: Rung)
    requires r == Rung([[], [], [E30], [], [], []], 7, 3, 10, 10)
    ensures Put(r, E20) == Rung([[], [E20], [E30], [], [], []], 7, 3, 10, 10)
  {
    assert Index(r, 20) == 1;
    assert [E20] + [] == [E20];
    assert r.buckets[1 := [E20]] == [[], [E20], [E30], [], [], []];
  }

  lemma PutTen(r: Rung)
    requires r == Rung([[], [E20], [E30], [], [], []], 7, 3, 10, 10)
    ensures Put(r, E10) == LOADED
  {
    assert Index(r, 10) == 0;
    assert [E10] + [] == [E10];
    assert r.buckets[0 := [E10]] == [[E10], [E20], [E30], [], [], []];
  }

  lemma PutFirst(r: Rung, e: Event, es: seq<Event>)
    requires Usable(r) && r.start <= e.time && forall i :: 0 <= i < |es| ==> r.start <= es[i].time
    ensures PutAll(r, [e] + es) == PutAll(Put(r, e), es)
  {
    assert ([e] + es)[1..] == es;
  }

  lemma FullRung()
    requires Rep(FULL)
    ensures LoadTop(FULL) == One(30, LOADED, [])
  {
    var r := FirstRung(FULL);
    assert r.buckets == [[], [], [], [], [], []];
    PutThirty(r);
    PutTwenty(Put(r, E30));
    PutTen(Put(Put(r, E30), E20));
    PutFirst(r, E30, [E20, E10]);
    PutFirst(Put(r, E30), E20, [E10]);
    PutFirst(Put(Put(r, E30), E20), E10, []);
    assert [E10] + [] == [E10] && [E20] + [E10] == [E20, E10] && [E30] + [E20, E10] == FULL.top;
  }

  lemma FirstOfLoaded(q: Ladder)
    requires q == One(30, LOADED, []) && Rep(q)
    ensures RecurseRung(q) == Search(q, 0)
  {
    assert FirstBucket(q) == 0;
    assert Low(LOADED, 0) == 10;
    assert q.rungs[0 := LOADED] == q.rungs;
    assert Aim(q) == q;
  }

  lemma PourLoaded(q: Ladder)
    requires q == One(30, LOADED, [])
    ensures Pour(q, 0, false) == Poured(TAKEN.(bottom := [E10]), true)
  {
    var bs := LOADED.buckets[0 := []];
    assert bs == [[], [E20], [E30], [], [], []];
    var r := LOADED.(buckets := bs);
    assert NextFull(bs, 1) == 1;
    assert Low(r, 1) == Low(r, 0) + 7 == 17;
    assert [E10][1..] == [];
    assert BottomInsertAll([], [E10]) == BottomInsertAll([E10], []) == [E10];
    assert q.rungs[0 := r][0 := r.(cur := 17)] == q.rungs[0 := r.(cur := 17)];
    assert NewRungs()[0 := LOADED][0 := r.(cur := 17)] == NewRungs()[0 := r.(cur := 17)];
  }

  lemma TakeFirst()
    requires Rep(FULL)
    ensures Dequeue(FULL) == Peek(TAKEN, Some(E10))
  {
    LoadTopKeepsRep(FULL);
    FullRung();
    FirstOfLoaded(LoadTop(FULL));
    PourLoaded(LoadTop(FULL));
    assert Begin(FULL) == Peek(TAKEN.(bottom := [E10]), Some(E10));
    assert TAKEN.(bottom := [E10][1..]) == TAKEN;
  }

  /** Event 16 goes to Bottom; erasing 30 and 20 drains the rung and sets its rCur back to 10. */
  ghost const DRAINED := One(30, Rung([[], [], [], [], [], []], 7, 0, 10, 10), [E16])

  lemma InsertSixteen()
    requires Rep(TAKEN)
    ensures Insert(TAKEN, E16) == TAKEN.(bottom := [E16])
  {
    assert FindRung(TAKEN, 16, 0) == FindRung(TAKEN, 16, 1) == 1;
  }

  lemma EraseThirty(q: Ladder)
    requires Rep(q) && q == TAKEN.(bottom := [E16])
    ensures Erase(q, E30) == One(30, Rung([[], [E20], [], [], [], []], 7, 2, 10, 17), [E16])
  {
    var r := q.rungs[0];
    assert FindRung(q, 30, 0) == 0 && Index(r, 30) == 2;
    var bs := r.buckets[2 := []];
    assert bs == [[], [E20], [], [], [], []];
    OccupiedUnique(bs, 2);
    assert NewRungs()[0 := r][0 := r.(buckets := bs, num := 2)] == NewRungs()[0 := r.(buckets := bs, num := 2)];
  }

  lemma EraseTwenty(q: Ladder)
    requires Rep(q) && q == One(30, Rung([[], [E20], [], [], [], []], 7, 2, 10, 17), [E16])
    ensures Erase(q, E20) == DRAINED
  {
    var r := q.rungs[0];
    assert FindRung(q, 20, 0) == 0 && Index(r, 20) == 1;
    var bs := r.buckets[1 := []];
    assert bs == [[], [], [], [], [], []];
    OccupiedUnique(bs, 0);
    assert NewRungs()[0 := r][0 := DRAINED.rungs[0]] == DRAINED.rungs;
  }

  // ----- the run -----

  lemma NoneInTop(q: Ladder, es: seq<Event>, e: Event)
    requires q.top == es && q.bottom == [] && q.rungs == NewRungs() && e !in es
    ensures e !in Contents(q)
  {
    NoRungsNoContents(q.rungs);
  }

  lemma ReachTop(q: Ladder, e: Event, q': Ladder)
    requires Reachable(q) && q.rungs == NewRungs() && q.bottom == [] && q.topStart < e.time && e !in q.top
    requires q' == InsertTop(q, e)
    ensures Reachable(q')
  {
    ReachableRep(q);
    NoneInTop(q, q.top, e);
    ReachableStep(q, Enqueue(e));
  }

  lemma ReachFull()
    ensures Reachable(FULL)
  {
    var q0 := NewLadder();
    var q1 := q0.(top := [E10], minTS := 10, maxTS := 10);
    var q2 := q1.(top := [E20, E10], maxTS := 20);
    ReachableStart();
    ReachTop(q0, E10, q1);
    ReachTop(q1, E20, q2);
    ReachTop(q2, E30, FULL);
  }

  /** Contents of a queue whose only rung has six short buckets. */
  lemma OneContents(q: Ladder, r: Rung, bottom: seq<Event>)
    requires q == One(30, r, bottom)
    ensures Contents(q) == Flat(r.buckets) + multiset(bottom)
  {
    NoRungsNoContents(NewRungs());
    FlatEmpty(NewRungs()[0].buckets);
    RungContentsUpdate(NewRungs(), 0, r);
    CancelSum(RungContents(q.rungs), Flat(r.buckets), multiset{});
  }

  lemma NotIn(bs: seq<seq<Event>>, e: Event)
    requires forall b :: 0 <= b < |bs| ==> e !in bs[b]
    ensures e !in Flat(bs)
  {
    if e in Flat(bs) { var b := FlatFrom(bs, e); }
  }

  lemma ReachSixteen()
    ensures Reachable(TAKEN.(bottom := [E16]))
  {
    ReachFull();
    ReachableRep(FULL);
    TakeFirst();
    ReachableStep(FULL, Take);
    ReachableRep(TAKEN);
    OneContents(TAKEN, TAKEN.rungs[0], []);
    NotIn(TAKEN.rungs[0].buckets, E16);
    InsertSixteen();
    ReachableStep(TAKEN, Enqueue(E16));
  }

  lemma ReachDrained()
    ensures Reachable(DRAINED)
  {
    var q := TAKEN.(bottom := [E16]);
    ReachSixteen();
    ReachableRep(q);
    EraseThirty(q);
    ReachableStep(q, Remove(E30));
    var q' := Erase(q, E30);
    ReachableRep(q');
    EraseTwenty(q');
    ReachableStep(q', Remove(E20));
  }

  /** ERASE CAN MISS. The drained rung hides event 16: erase leaves it queued. */
  lemma EraseMisses()
    ensures Reachable(DRAINED) && Rep(DRAINED) && E16 in Contents(DRAINED)
    ensures Erase(DRAINED, E16) == DRAINED
  {
    ReachDrained();
    ReachableRep(DRAINED);
    OneContents(DRAINED, DRAINED.rungs[0], [E16]);
    assert FindRung(DRAINED, 16, 0) == 0;
    assert DRAINED.rungs[0].buckets[Index(DRAINED.rungs[0], 16)] == [];
  }

  ghost const MISORDERED := One(30, Rung([[E12], [], [], [], [], []], 7, 1, 10, 10), [E16])

  lemma InsertTwelve()
    requires Rep(DRAINED)
    ensures Insert(DRAINED, E12) == MISORDERED
  {
    var r := DRAINED.rungs[0];
    assert FindRung(DRAINED, 12, 0) == 0 && Index(r, 12) == 0;
    assert [E12] + [] == [E12];
    assert r.buckets[0 := [E12] + r.buckets[0]] == [[E12], [], [], [], [], []];
    assert Low(r, 0) == 10;
    assert NewRungs()[0 := r][0 := MISORDERED.rungs[0]] == MISORDERED.rungs;
  }

  lemma ReachMisordered()
    ensures Reachable(MISORDERED) && Rep(MISORDERED) && E12 in Contents(MISORDERED) && E16 in Contents(MISORDERED)
  {
    ReachDrained();
    ReachableRep(DRAINED);
    OneContents(DRAINED, DRAINED.rungs[0], [E16]);
    NotIn(DRAINED.rungs[0].buckets, E12);
    InsertTwelve();
    ReachableStep(DRAINED, Enqueue(E12));
    ReachableRep(MISORDERED);
    OneContents(MISORDERED, MISORDERED.rungs[0], [E16]);
    FlatHas(MISORDERED.rungs[0].buckets, 0);
    assert E12 in multiset(MISORDERED.rungs[0].buckets[0]);
  }

  /** ORDER CAN BE LOST. Event 12 is inserted above event 16, and dequeue returns 16 first. */
  lemma DequeueOutOfOrder()
    ensures Reachable(MISORDERED) && Rep(MISORDERED)
    ensures E12 in Contents(MISORDERED)
    ensures Dequeue(MISORDERED).event == Some(E16) && Less(E12, E16)
  {
    ReachMisordered();
  }

  /** ERASE CAN MISS below a rung that is not drained: no live rung of this queue is empty. */
  lemma EraseMissesUndrained()
    ensures Reachable(MISORDERED) && Rep(MISORDERED) && E16 in Contents(MISORDERED)
    ensures forall k :: 0 <= k < MISORDERED.nRung ==> MISORDERED.rungs[k].num > 0
    ensures E16 !in Searched(MISORDERED, E16)
    ensures Contents(Erase(MISORDERED, E16)) == Contents(MISORDERED)
  {
    ReachMisordered();
    SearchMisses(MISORDERED);
    ReachableMissed(MISORDERED, E16);
  }

  lemma SearchMisses(q: Ladder)
    requires q == MISORDERED && Rep(q)
    ensures q.nRung == 1 && q.rungs[0].num == 1 && E16 !in Searched(q, E16)
  {
    assert FindRung(q, 16, 0) == 0 && Index(q.rungs[0], 16) == 0;
  }

  /** What the search does not find stays. */
  lemma ReachableMissed(q: Ladder, e: Event)
    requires Reachable(q) && Rep(q) && e !in Searched(q, e)
    ensures Contents(Erase(q, e)) == Contents(q)
  {
    ReachableRep(q);
    EraseFacts(q, e);
  }
}
