module LadderRuns {
  // Whole runs of the ladder queue.

  import opened LadderModel
  import opened LadderInsert
  import opened LadderErase
  import opened LadderDequeue
  import opened LadderOrder
  import opened LadderTopPath
  import opened LadderJam
  import opened LadderShadow

  datatype Op = Enqueue(e: Event) | Remove(e: Event) | Take

  /** Events are inserted once, and there are never so many that a bucket number could be INVALID. */
  ghost predicate Allowed(q: Ladder, op: Op) {
    match op
    case Enqueue(e) => e !in Contents(q) && Roomy(q, e)
    case Remove(_) => true
    case Take => |q.top| < INVALID
  }

  function Step(q: Ladder, op: Op): Ladder
    requires Rep(q) && Allowed(q, op)
  {
    match op
    case Enqueue(e) => Insert(q, e)
    case Remove(e) => Erase(q, e)
    case Take => Dequeue(q).q
  }

  ghost predicate Distinct(q: Ladder) {
    forall e :: Contents(q)[e] <= 1
  }

  ghost predicate Moves(q: Ladder, op: Op, q': Ladder) {
    Rep(q) ==> Allowed(q, op) && q' == Step(q, op)
  }

  ghost predicate Run(ops: seq<Op>, qs: seq<Ladder>) {
    && |qs| == |ops| + 1 && qs[0] == NewLadder()
    && forall k :: 0 <= k < |ops| ==> Moves(qs[k], ops[k], qs[k + 1])
  }

  lemma NewLadderRep()
    ensures Rep(NewLadder()) && Contents(NewLadder()) == multiset{} && Ordered(NewLadder()) && Stacked(NewLadder())
    ensures Narrow(NewLadder())
  {
    NoRungsNoContents(NewLadder().rungs);
    assert |Layers(NewLadder())| == 1;
  }

  lemma TakeDistinct(before: multiset<Event>, after: multiset<Event>, e: Event)
    requires before == after + multiset{e} && forall x :: before[x] <= 1
    ensures forall x :: after[x] <= 1
  {
    forall x ensures after[x] <= 1 { assert before[x] == (after + multiset{e})[x]; }
  }

  lemma StepKeepsRep(q: Ladder, op: Op)
    requires Rep(q) && Allowed(q, op) && Distinct(q)
    ensures Rep(Step(q, op)) && Distinct(Step(q, op))
  {
    match op
    case Enqueue(e) => InsertKeepsRep(q, e);
    case Remove(e) => EraseFacts(q, e);
    case Take =>
      DequeueFacts(q);
      var p := Dequeue(q);
      if p.event.Some? { TakeDistinct(Contents(q), Contents(p.q), p.event.value); }
  }

  /** REPRESENTATION over every run, whatever paths its inserts take: the invariant always holds. */
  lemma {:induction false} RepAlways(ops: seq<Op>, qs: seq<Ladder>, k: nat)
    requires Run(ops, qs) && k < |qs|
    ensures Rep(qs[k]) && Distinct(qs[k])
    ensures k < |ops| ==> Allowed(qs[k], ops[k]) && qs[k + 1] == Step(qs[k], ops[k])
  {
    if k == 0 {
      NewLadderRep();
    } else {
      RepAlways(ops, qs, k - 1);
      StepKeepsRep(qs[k - 1], ops[k - 1]);
    }
    assert k < |ops| ==> Moves(qs[k], ops[k], qs[k + 1]);
  }

  /** CONSERVATION over every run: an insert adds its event, a dequeue takes away the event it returns,
      an erase takes away its event or nothing, and nothing else changes the contents. Dequeue returns
      nothing only from an empty or a jammed queue. */
  lemma StepContents(ops: seq<Op>, qs: seq<Ladder>, k: nat)
    requires Run(ops, qs) && k < |ops|
    ensures Rep(qs[k]) && Allowed(qs[k], ops[k])
    ensures var q, q' := qs[k], qs[k + 1];
            match ops[k]
            case Enqueue(e) => Contents(q') == Contents(q) + multiset{e}
            case Remove(e) => Contents(q') == if e in Searched(q, e) then Contents(q) - multiset{e} else Contents(q)
            case Take =>
              match Dequeue(q).event
              case Some(e) => Contents(q) == Contents(q') + multiset{e} && !(q.bottom == [] && Jams(q))
              case None =>
                && Contents(q') == Contents(q)
                && (Contents(q) == multiset{} || (q.bottom == [] && Jams(q) && Overflowing(q')))
  {
    RepAlways(ops, qs, k);
    match ops[k]
    case Enqueue(e) => InsertKeepsRep(qs[k], e);
    case Remove(e) => EraseFacts(qs[k], e);
    case Take =>
      DequeueFacts(qs[k]);
      NullExactAlways(ops, qs, k);
  }

  /** EXACT ERASE over every run: the event leaves if and only if nothing shadows it. */
  lemma EraseExactAlways(ops: seq<Op>, qs: seq<Ladder>, k: nat)
    requires Run(ops, qs) && k < |ops| && ops[k].Remove?
    ensures Rep(qs[k]) && Contents(qs[k + 1]) ==
              (if Shadowed(qs[k], ops[k].e) then Contents(qs[k]) else Contents(qs[k]) - multiset{ops[k].e})
  {
    RepAlways(ops, qs, k);
    EraseRemovesIff(qs[k], ops[k].e);
  }

  lemma StepKeepsMaxTime(q: Ladder, op: Op)
    requires Rep(q) && Allowed(q, op) && q.maxTS <= MAX_TIME
    ensures Step(q, op).maxTS <= MAX_TIME
  {
    if op.Take? { BeginTop(q); }
  }

  lemma {:induction false} MaxTimeAlways(ops: seq<Op>, qs: seq<Ladder>, k: nat)
    requires Run(ops, qs) && k < |qs|
    ensures qs[k].maxTS <= MAX_TIME
  {
    if k > 0 {
      MaxTimeAlways(ops, qs, k - 1);
      RepAlways(ops, qs, k - 1);
      StepKeepsMaxTime(qs[k - 1], ops[k - 1]);
    }
  }

  /** EXACT NULL over every run, whatever paths its inserts take. */
  lemma NullExactAlways(ops: seq<Op>, qs: seq<Ladder>, k: nat)
    requires Run(ops, qs) && k < |ops| && ops[k].Take?
    ensures Rep(qs[k]) && |qs[k].top| < INVALID
    ensures Dequeue(qs[k]).event.None? <==>
              Contents(qs[k]) == multiset{} || (qs[k].bottom == [] && Jams(qs[k]))
  {
    RepAlways(ops, qs, k);
    MaxTimeAlways(ops, qs, k);
    NullIff(qs[k]);
  }

  // ----- runs in order -----

  /** Every insert lands where everything below comes before it. */
  ghost predicate FittingRun(ops: seq<Op>, qs: seq<Ladder>)
    requires Run(ops, qs)
  {
    forall k :: 0 <= k < |ops| && ops[k].Enqueue? && Rep(qs[k]) ==> Fitting(qs[k], ops[k].e)
  }

  lemma DropHeadKeepsOrder(q: Ladder)
    requires Rep(q) && Ordered(q) && q.bottom != []
    ensures Ordered(q.(bottom := q.bottom[1..]))
  {
    LayersBottom(q, q.bottom[1..]);
    assert q.bottom == [q.bottom[0]] + q.bottom[1..];
    ShrinkKeepsOrder(Layers(q), Layers(q.(bottom := q.bottom[1..])));
  }

  lemma StepKeepsOrder(q: Ladder, op: Op)
    requires Rep(q) && Allowed(q, op) && Ordered(q) && (op.Enqueue? ==> Fitting(q, op.e))
    ensures Step(q, op).nRung <= |Step(q, op).rungs| && Ordered(Step(q, op))
  {
    match op
    case Enqueue(e) => InsertOrderedIff(q, e);
    case Remove(e) => EraseKeepsOrder(q, e);
    case Take =>
      BeginFacts(q);
      BeginKeepsOrder(q);
      if Begin(q).event.Some? { DropHeadKeepsOrder(Begin(q).q); }
  }

  lemma {:induction false} OrderedAlways(ops: seq<Op>, qs: seq<Ladder>, k: nat)
    requires Run(ops, qs) && FittingRun(ops, qs) && k < |qs|
    ensures qs[k].nRung <= |qs[k].rungs| && Ordered(qs[k])
  {
    if k == 0 {
      NewLadderRep();
    } else {
      OrderedAlways(ops, qs, k - 1);
      RepAlways(ops, qs, k - 1);
      StepKeepsOrder(qs[k - 1], ops[k - 1]);
    }
  }

  /** LEAST EVENT FIRST in every run whose inserts fit, by (receive time, event id, sender). */
  lemma DequeueLeast(ops: seq<Op>, qs: seq<Ladder>, k: nat)
    requires Run(ops, qs) && FittingRun(ops, qs) && k < |ops| && ops[k].Take?
    requires Rep(qs[k]) && |qs[k].top| < INVALID && Dequeue(qs[k]).event.Some?
    ensures Dequeue(qs[k]).event.value in Contents(qs[k])
    ensures forall x :: x in Contents(qs[k]) ==> !Less(x, Dequeue(qs[k]).event.value)
  {
    OrderedAlways(ops, qs, k);
    BeginLeast(qs[k]);
  }

  // ----- runs that insert into Top only -----

  ghost predicate TopRun(ops: seq<Op>, qs: seq<Ladder>)
    requires Run(ops, qs)
  {
    forall k :: 0 <= k < |ops| && ops[k].Enqueue? ==> ops[k].e.time > qs[k].topStart
  }

  lemma TopStep(q: Ladder, op: Op)
    requires Rep(q) && Allowed(q, op) && Narrow(q) && Stacked(q) && (op.Enqueue? ==> op.e.time > q.topStart)
    ensures Narrow(Step(q, op)) && Stacked(Step(q, op))
  {
    match op
    case Enqueue(e) => assert Layers(Insert(q, e)) == Layers(q);
    case Remove(e) => EraseStacked(q, e); EraseNarrow(q, e);
    case Take =>
      BeginFacts(q);
      BeginKeepsNarrow(q);
      BeginStacked(q);
      if Begin(q).event.Some? { DequeueStacked(Begin(q).q); }
  }

  lemma EraseNarrow(q: Ladder, e: Event)
    requires Rep(q) && Narrow(q)
    ensures Narrow(Erase(q, e))
  {
  }

  lemma {:induction false} TopRunAlways(ops: seq<Op>, qs: seq<Ladder>, k: nat)
    requires Run(ops, qs) && TopRun(ops, qs) && k < |qs|
    ensures Narrow(qs[k]) && Stacked(qs[k])
  {
    if k == 0 {
      NewLadderRep();
    } else {
      TopRunAlways(ops, qs, k - 1);
      RepAlways(ops, qs, k - 1);
      TopStep(qs[k - 1], ops[k - 1]);
    }
  }

  lemma TopRunFits(ops: seq<Op>, qs: seq<Ladder>)
    requires Run(ops, qs) && TopRun(ops, qs)
    ensures FittingRun(ops, qs)
  {
  }

  /** TOP RUNS. In every run whose inserts all take the Top path: at most seven rungs are ever live;
      dequeue returns nothing exactly when the queue is empty, and otherwise the least event; and erase
      removes a queued event exactly when no drained rung hides it. */
  lemma TopRunTheorem(ops: seq<Op>, qs: seq<Ladder>, k: nat)
    requires Run(ops, qs) && TopRun(ops, qs) && k < |ops|
    ensures Rep(qs[k]) && Allowed(qs[k], ops[k]) && qs[k].nRung <= 7
    ensures ops[k].Take? ==>
              && (Dequeue(qs[k]).event.None? <==> Contents(qs[k]) == multiset{})
              && (Dequeue(qs[k]).event.Some? ==>
                    forall x :: x in Contents(qs[k]) ==> !Less(x, Dequeue(qs[k]).event.value))
    ensures ops[k].Remove? && ops[k].e in Contents(qs[k]) ==>
              (Contents(qs[k + 1]) == Contents(qs[k]) - multiset{ops[k].e} <==> !Hidden(qs[k], ops[k].e))
  {
    RepAlways(ops, qs, k);
    TopRunAlways(ops, qs, k);
    match ops[k]
    case Enqueue(_) =>
    case Take =>
      NullOnlyWhenEmpty(qs[k]);
      TopRunFits(ops, qs);
      if Dequeue(qs[k]).event.Some? { DequeueLeast(ops, qs, k); }
    case Remove(e) =>
      HiddenIsShadowed(qs[k], e);
      EraseExactAlways(ops, qs, k);
  }

  // ----- reachable queues -----

  ghost predicate Reachable(q: Ladder) {
    exists ops: seq<Op>, qs: seq<Ladder> :: Run(ops, qs) && qs[|ops|] == q
  }

  lemma ReachableStart()
    ensures Reachable(NewLadder())
  {
    assert Run([], [NewLadder()]) && [NewLadder()][0] == NewLadder();
  }

  lemma ReachableRep(q: Ladder)
    requires Reachable(q)
    ensures Rep(q) && Distinct(q)
  {
    var ops: seq<Op>, qs: seq<Ladder> :| Run(ops, qs) && qs[|ops|] == q;
    RepAlways(ops, qs, |ops|);
  }

  lemma ReachableMaxTime(q: Ladder)
    requires Reachable(q)
    ensures q.maxTS <= MAX_TIME
  {
    var ops: seq<Op>, qs: seq<Ladder> :| Run(ops, qs) && qs[|ops|] == q;
    MaxTimeAlways(ops, qs, |ops|);
  }

  lemma ExtendRun(ops: seq<Op>, qs: seq<Ladder>, op: Op, q: Ladder)
    requires Run(ops, qs) && Moves(qs[|ops|], op, q)
    ensures Run(ops + [op], qs + [q])
  {
    var ops', qs' := ops + [op], qs + [q];
    forall k | 0 <= k < |ops'| ensures Moves(qs'[k], ops'[k], qs'[k + 1]) {
      if k < |ops| { assert Moves(qs[k], ops[k], qs[k + 1]); }
    }
  }

  lemma ReachableStep(q: Ladder, op: Op)
    requires Reachable(q) && Rep(q) && Allowed(q, op)
    ensures Reachable(Step(q, op))
  {
    var ops: seq<Op>, qs: seq<Ladder> :| Run(ops, qs) && qs[|ops|] == q;
    var q' := Step(q, op);
    ExtendRun(ops, qs, op, q');
    assert (qs + [q'])[|ops + [op]|] == q';
  }
}
