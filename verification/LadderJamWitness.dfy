/** A run that jams the ladder: one event is enqueued and taken, then eight blocks of 51 events, all events
    of a block at one time and each block 100 before the last. Every block fills Bottom and moves it into
    a new rung of width 2. With eight rungs in use the first bucket of the last one cannot be split. */
module LadderJamWitness {
  import opened LadderModel
  import opened LadderInsert
  import opened LadderDequeue
  import opened LadderJam
  import opened LadderRuns

  const BLOCK := THRESHOLD + 1

  function BlockTime(k: nat): Time
    requires k <= 8
  {
    900 - 100 * k
  }

  /** Event `n` of block `k`; the first event of the run has id 0. */
  function Numbered(k: nat, n: nat): Event
    requires k <= 8
  {
    Event(BlockTime(k), 1 + BLOCK * k + n, 0)
  }

  /** A rung made from a block of events of one time. */
  ghost predicate Heavy(r: Rung) {
    r.cur == r.start && r.width == 2 && |r.buckets| > 0 && |r.buckets[0]| == BLOCK
  }

  /** `k` blocks are in rungs and `n` events of the next one are in Bottom. */
  ghost predicate Stage(q: Ladder, k: nat, n: nat)
    requires k <= 8
  {
    && Reachable(q) && q.topStart == 1000 && q.top == [] && q.nRung == k && |q.rungs| == MAX_RUNG_NUM
    && (forall i :: 0 <= i < k ==> Heavy(q.rungs[i]) && q.rungs[i].cur == BlockTime(i))
    && |q.bottom| == n && (forall e :: e in q.bottom ==> e.time == BlockTime(k))
    && (forall e :: e in Contents(q) ==> e.id < 1 + BLOCK * k + n)
  }

  // ----- the start -----

  const FIRST := Event(1000, 0, 0)

  lemma OnlyBucket(r: Rung, e: Event)
    requires r.buckets == [[], []] && r.start == e.time && r.width == 1 && r.num == 0
    ensures PutAll(r, [e]) == r.(buckets := [[e], []], num := 1)
  {
    assert Index(r, e.time) == 0;
    assert [e] + [] == [e] && [e][1..] == [];
    assert r.buckets[0 := [e]] == [[e], []];
  }

  lemma TakeOnly(q: Ladder)
    requires Rep(q) && q == Ladder([FIRST], 1000, 1000, 0, NewRungs(), 0, [])
    ensures var p := Dequeue(q).q; p.topStart == 1000 && p.top == [] && p.nRung == 0 && p.bottom == []
  {
    LoadTopKeepsRep(q);
    var l := LoadTop(q);
    var r := FirstRung(q);
    assert r.buckets == [[], []];
    OnlyBucket(r, FIRST);
    assert Last(l).buckets == [[FIRST], []] && FirstBucket(l) == 0;
    AimKeepsRep(l);
    assert RecurseRung(l) == Search(Aim(l), 0);
    PourCases(Aim(l), false);
    assert [FIRST][1..] == [];
    assert BottomInsertAll([], [FIRST]) == BottomInsertAll([FIRST], []) == [FIRST];
  }

  lemma Begins() returns (q: Ladder)
    ensures Stage(q, 0, 0)
  {
    var q0 := NewLadder();
    ReachableStart();
    NewLadderRep();
    ReachableStep(q0, Enqueue(FIRST));
    var q1 := Insert(q0, FIRST);
    ReachableRep(q1);
    InsertKeepsRep(q0, FIRST);
    TakeOnly(q1);
    ReachableStep(q1, Take);
    q := Dequeue(q1).q;
    ReachableRep(q);
    DequeueFacts(q1);
  }

  // ----- one more event -----

  lemma New(q: Ladder, k: nat, n: nat)
    requires k < 8 && Stage(q, k, n) && n <= THRESHOLD
    ensures Rep(q) && Allowed(q, Enqueue(Numbered(k, n))) && GoesBelow(q, Numbered(k, n))
    ensures Rep(Insert(q, Numbered(k, n))) && Reachable(Insert(q, Numbered(k, n)))
    ensures Contents(Insert(q, Numbered(k, n))) == Contents(q) + multiset{Numbered(k, n)}
  {
    var e := Numbered(k, n);
    ReachableRep(q);
    assert e !in Contents(q);
    assert forall i :: 0 <= i < k ==> e.time < q.rungs[i].cur;
    InsertKeepsRep(q, e);
    ReachableStep(q, Enqueue(e));
  }

  /** While Bottom has room the event joins it. */
  lemma Joins(q: Ladder, k: nat, n: nat)
    requires k < 8 && n < THRESHOLD && Stage(q, k, n)
    ensures Rep(q) && Stage(Insert(q, Numbered(k, n)), k, n + 1)
  {
    var e := Numbered(k, n);
    New(q, k, n);
    BottomInsertAdds(q.bottom, e);
    var s := BottomInsert(q.bottom, e);
    assert |s| == |multiset(s)| && |q.bottom| == |multiset(q.bottom)|;
    forall x | x in s ensures x.time == e.time { assert x in multiset(s); }
  }

  /** Events at the start of a rung all go to its first bucket. */
  lemma {:induction false} AllAtStart(r: Rung, es: seq<Event>)
    requires Usable(r) && forall i :: 0 <= i < |es| ==> es[i].time == r.start
    ensures |PutAll(r, es).buckets[0]| == |r.buckets[0]| + |es|
    decreases |es|
  {
    if es != [] {
      assert Index(r, es[0].time) == 0;
      AllAtStart(Put(r, es[0]), es[1..]);
    }
  }

  lemma BlankTransfer(q: Ladder, k: nat)
    requires k < 8 && Stage(q, k, THRESHOLD) && Rep(q) && GoesBelow(q, Numbered(k, THRESHOLD))
    ensures var t := TransferStart(q, Numbered(k, THRESHOLD));
            && t == BlockTime(k) && t <= q.topStart && (k > 0 ==> t <= q.rungs[k - 1].cur)
            && var r := TransferRung(q, t);
               r.width == 2 && r.start == r.cur == t && |r.buckets| > 0 && r.buckets[0] == []
  {
    assert q.bottom[0] in q.bottom;
  }

  /** The event that finds Bottom full moves it into a new rung. */
  lemma Moved(q: Ladder, k: nat)
    requires k < 8 && Stage(q, k, THRESHOLD)
    ensures Rep(q) && GoesBelow(q, Numbered(k, THRESHOLD))
    ensures var r := Transfer(q, Numbered(k, THRESHOLD)).rungs[k];
            Heavy(r) && r.cur == BlockTime(k)
  {
    var e := Numbered(k, THRESHOLD);
    New(q, k, THRESHOLD);
    BlankTransfer(q, k);
    var blank := TransferRung(q, TransferStart(q, e));
    assert forall i :: 0 <= i < |q.bottom| ==> q.bottom[i] in q.bottom;
    OneTime(blank, q.bottom, e);
  }

  lemma OneTime(r: Rung, es: seq<Event>, e: Event)
    requires Usable(r) && r.cur == r.start && r.width == 2 && r.buckets[0] == [] && |es| == THRESHOLD
    requires e.time == r.start && forall i :: 0 <= i < |es| ==> es[i].time == r.start
    ensures var full := PutAll(r, es);
            var r' := Lowered(Put(full, e), Index(full, e.time));
            Heavy(r') && r'.cur == r.start
  {
    AllAtStart(r, es);
    assert Index(PutAll(r, es), e.time) == 0;
  }

  lemma TransferParts(q: Ladder, e: Event)
    requires Rep(q) && Overfull(q) && GoesBelow(q, e)
    ensures var q' := Insert(q, e);
            && q'.topStart == q.topStart && q'.top == q.top && q'.nRung == q.nRung + 1 && q'.bottom == []
            && |q'.rungs| == |q.rungs| && (forall i :: 0 <= i < q.nRung ==> q'.rungs[i] == q.rungs[i])
            && q'.rungs[q.nRung] == Transfer(q, e).rungs[q.nRung]
  {
  }

  lemma MovesOn(q: Ladder, k: nat)
    requires k < 8 && Stage(q, k, THRESHOLD)
    ensures Rep(q) && Stage(Insert(q, Numbered(k, THRESHOLD)), k + 1, 0)
  {
    var e := Numbered(k, THRESHOLD);
    New(q, k, THRESHOLD);
    Moved(q, k);
    TransferParts(q, e);
    NextStage(q, k, Insert(q, e));
  }

  lemma NextStage(q: Ladder, k: nat, q': Ladder)
    requires k < 8 && Stage(q, k, THRESHOLD) && Reachable(q')
    requires q'.topStart == q.topStart && q'.top == q.top && q'.nRung == k + 1 && q'.bottom == []
    requires |q'.rungs| == |q.rungs| && (forall i :: 0 <= i < k ==> q'.rungs[i] == q.rungs[i])
    requires Heavy(q'.rungs[k]) && q'.rungs[k].cur == BlockTime(k)
    requires Contents(q') == Contents(q) + multiset{Numbered(k, THRESHOLD)}
    ensures Stage(q', k + 1, 0)
  {
  }

  lemma {:induction false} Reaches(k: nat, n: nat) returns (q: Ladder)
    requires k <= 8 && n <= THRESHOLD && (k == 8 ==> n == 0)
    ensures Stage(q, k, n)
    decreases k, n
  {
    if n > 0 {
      q := Reaches(k, n - 1);
      Joins(q, k, n - 1);
      q := Insert(q, Numbered(k, n - 1));
    } else if k > 0 {
      q := Reaches(k - 1, THRESHOLD);
      MovesOn(q, k - 1);
      q := Insert(q, Numbered(k - 1, THRESHOLD));
    } else {
      q := Begins();
    }
  }

  lemma StageJams(q: Ladder)
    requires Stage(q, 8, 0)
    ensures Rep(q) && Jams(q) && |Last(q).buckets[0]| == BLOCK
  {
    ReachableRep(q);
    assert Heavy(q.rungs[7]) && FirstBucket(q) == 0;
    AimKeepsRep(q);
    OverflowJams(q);
  }

  /** BEGIN CAN FAIL. A queue that a run reaches and that holds events, from which dequeue returns nothing, and
      for which it never returns anything again. */
  lemma DequeueJams() returns (q: Ladder)
    ensures Reachable(q) && Rep(q) && |q.top| < INVALID && Contents(q) != multiset{}
    ensures Dequeue(q).event.None? && Rep(Dequeue(q).q) && Contents(Dequeue(q).q) == Contents(q)
    ensures Dequeue(q).q.bottom == [] && Jams(Dequeue(q).q)
  {
    q := Reaches(8, 0);
    StageJams(q);
    ReachableMaxTime(q);
    JamStays(q);
  }
}
