/** LadderQueueStrict as an object whose methods rearrange Top, the rungs and Bottom in place, with the
    loops of the source. Each method is proved to compute the corresponding function, so the theorems
    about runs of the model are theorems about sequences of these calls. */
module LadderQueue {
  import opened Wrappers
  import opened LadderModel
  import opened LadderRungs
  import opened LadderInsert
  import opened LadderErase
  import opened LadderDequeue
  import opened LadderRuns

  /** Scans forward over empty buckets. */
  method ScanForward(bs: seq<seq<Event>>, from: nat) returns (c: nat)
    requires from <= |bs|
    ensures c == NextFull(bs, from)
  {
    c := from;
    while c < |bs| && bs[c] == []
      invariant from <= c <= |bs| && NextFull(bs, c) == NextFull(bs, from)
    {
      c := c + 1;
    }
  }

  /** Scans backward for the last non-empty bucket. */
  method ScanBackward(bs: seq<seq<Event>>) returns (n: nat)
    ensures n == Occupied(bs)
  {
    n := |bs|;
    while n > 0 && bs[n - 1] == []
      invariant n <= |bs|
      invariant forall i :: n <= i < |bs| ==> bs[i] == []
    {
      n := n - 1;
    }
    OccupiedUnique(bs, n);
  }

  /** The transfer loops: every event goes to the front of its bucket, numBucket follows. */
  method Spread(r: Rung, es: seq<Event>) returns (r': Rung)
    requires Usable(r) && forall i :: 0 <= i < |es| ==> r.start <= es[i].time
    ensures r' == PutAll(r, es)
  {
    r' := r;
    var i := 0;
    while i < |es|
      invariant 0 <= i <= |es|
      invariant r'.start == r.start && r'.width == r.width && |r'.buckets| == |r.buckets|
      invariant PutAll(r', es[i..]) == PutAll(r, es)
    {
      assert es[i..][1..] == es[i + 1..];
      r' := Put(r', es[i]);
      i := i + 1;
    }
    assert es[i..] == [];
  }

  method BottomInsertEvents(bottom: seq<Event>, es: seq<Event>) returns (s: seq<Event>)
    ensures s == BottomInsertAll(bottom, es)
  {
    s := bottom;
    var i := 0;
    while i < |es|
      invariant 0 <= i <= |es|
      invariant BottomInsertAll(s, es[i..]) == BottomInsertAll(bottom, es)
    {
      assert es[i..][1..] == es[i + 1..];
      s := BottomInsert(s, es[i]);
      i := i + 1;
    }
    assert es[i..] == [];
  }

  lemma TransferBounds(q: Ladder, e: Event)
    requires Rep(q) && Overfull(q) && GoesBelow(q, e)
    ensures var blank := TransferRung(q, TransferStart(q, e));
            && Usable(blank) && blank.start <= e.time
            && forall i :: 0 <= i < |q.bottom| ==> blank.start <= q.bottom[i].time
  {
    var blank := TransferRung(q, TransferStart(q, e));
    forall i | 0 <= i < |q.bottom| ensures blank.start <= q.bottom[i].time { BottomMin(q, i); }
  }

  /** One turn of the search for a bucket, as the loop takes it. */
  lemma RecurseStep(q: Ladder)
    requires Rep(q) && HasBucket(q)
    ensures Rep(Aim(q)) && Aimed(Aim(q)) && FirstBucket(Aim(q)) == FirstBucket(q)
    ensures Last(Aim(q)).width == Last(q).width && Last(Aim(q)).buckets == Last(q).buckets
    ensures !Crowded(Aim(q)) ==> LadderDequeue.RecurseRung(q) == Search(Aim(q), FirstBucket(q))
    ensures Crowded(Aim(q)) && q.nRung == MAX_RUNG_NUM ==>
              LadderDequeue.RecurseRung(q) == Search(Aim(q), INVALID)
    ensures Crowded(Aim(q)) && q.nRung < MAX_RUNG_NUM ==>
              && Spawns(Aim(q)) && Rep(Spawn(Aim(q))) && HasBucket(Spawn(Aim(q)))
              && Last(Spawn(Aim(q))).width < Last(q).width
              && LadderDequeue.RecurseRung(q) == LadderDequeue.RecurseRung(Spawn(Aim(q)))
  {
    AimKeepsRep(q);
    if Crowded(Aim(q)) && q.nRung < MAX_RUNG_NUM {
      SpawnSteps(Aim(q));
    }
  }

  /** begin with an empty Bottom and rungs, by what the search hands back. */
  lemma BeginSteps(q: Ladder)
    requires Rep(q) && q.nRung > 0 && q.bottom == [] && |q.top| < INVALID
    ensures var s := LadderDequeue.RecurseRung(q);
            && Rep(s.q) && s.q.bottom == [] && s.q.top == q.top
            && (s.q.nRung == 0 && q.top == [] ==> Begin(q) == Peek(s.q, None))
            && (s.q.nRung == 0 && q.top != [] ==> Rep(LoadTop(s.q)) && Begin(q) == BeginFromTop(s.q))
            && (s.q.nRung > 0 && s.b == INVALID ==> Begin(q) == Peek(s.q, None))
            && (s.q.nRung > 0 && s.b != INVALID ==>
                  && s.b < |Last(s.q).buckets|
                  && var p := Pour(s.q, s.b, true); Begin(q) == Peek(p.q, if p.ok then Front(p.q.bottom) else None))
  {
    RecurseFacts(q);
    var s := LadderDequeue.RecurseRung(q);
    if s.q.nRung == 0 && q.top != [] { LoadTopKeepsRep(s.q); }
  }

  class LadderQueueStrict {
    var top: seq<Event>
    var maxTS: nat
    var minTS: nat
    var topStart: nat
    var rungs: seq<Rung>
    var nRung: nat
    var bottom: seq<Event>

    ghost function State(): Ladder
      reads this
    {
      Ladder(top, maxTS, minTS, topStart, rungs, nRung, bottom)
    }

    constructor ()
      ensures State() == NewLadder() && Rep(State())
    {
      top, maxTS, minTS, topStart := [], 0, 0, 0;
      rungs, nRung, bottom := NewRungs(), 0, [];
      new;
      NewLadderRep();
    }

    method StepThroughRungs(t: nat) returns (rungIndex: nat)
      requires Rep(State())
      ensures rungIndex == FindRung(State(), t, 0)
    {
      rungIndex := 0;
      while rungIndex < nRung && t < rungs[rungIndex].cur
        invariant rungIndex <= nRung
        invariant FindRung(State(), t, rungIndex) == FindRung(State(), t, 0)
      {
        rungIndex := rungIndex + 1;
      }
    }

    /** create_rung_for_bottom_transfer: start and width of the rung that takes over Bottom. */
    method RungForBottom(newEvent: Event) returns (r: Rung)
      requires Rep(State()) && Overfull(State()) && GoesBelow(State(), newEvent)
      ensures r == TransferRung(State(), TransferStart(State(), newEvent))
    {
      var startVal := bottom[0].time as nat;
      if startVal > newEvent.time {
        startVal := newEvent.time;
      }
      r := Rung(rungs[nRung].buckets, 1, 0, startVal, startVal);
      if nRung == 0 {
        r := r.(width := Max((topStart - startVal) / |bottom|, 1), buckets := Extended(rungs[0].buckets, 2 * |bottom|));
      } else {
        r := r.(width := Max((rungs[nRung - 1].cur - startVal) / THRESHOLD, 1));
      }
    }

    /** Bottom and the new event move into a new rung. */
    method TransferBottom(newEvent: Event)
      requires Rep(State()) && Overfull(State()) && GoesBelow(State(), newEvent)
      modifies this
      ensures State() == Transfer(old(State()), newEvent)
    {
      var r := RungForBottom(newEvent);
      TransferBounds(State(), newEvent);
      r := Spread(r, bottom);
      r := Lowered(Put(r, newEvent), Index(r, newEvent.time));
      rungs := rungs[nRung := r];
      nRung := nRung + 1;
      bottom := [];
    }

    method PushTop(newEvent: Event)
      modifies this
      ensures State() == InsertTop(old(State()), newEvent)
    {
      var t := newEvent.time;
      if top == [] {
        maxTS, minTS := t, t;
      } else {
        if minTS > t { minTS := t; }
        if maxTS < t { maxTS := t; }
      }
      top := [newEvent] + top;
    }

    /** Into the first rung that reaches back far enough, else into Bottom. */
    method InsertBelow(newEvent: Event)
      requires Rep(State()) && newEvent.time <= topStart
      modifies this
      ensures State() == LadderInsert.Insert(old(State()), newEvent)
    {
      var t := newEvent.time;
      var rungIndex := StepThroughRungs(t);
      if rungIndex < nRung {
        var r := rungs[rungIndex];
        rungs := rungs[rungIndex := Lowered(Put(r, newEvent), Index(r, t))];
      } else if THRESHOLD <= |bottom| && nRung < MAX_RUNG_NUM {
        TransferBottom(newEvent);
      } else {
        bottom := BottomInsert(bottom, newEvent);
      }
    }

    method Insert(newEvent: Event)
      requires Rep(State()) && Roomy(State(), newEvent)
      modifies this
      ensures State() == LadderInsert.Insert(old(State()), newEvent)
      ensures Rep(State()) && Contents(State()) == Contents(old(State())) + multiset{newEvent}
    {
      ghost var was := State();
      if newEvent.time > topStart {
        PushTop(newEvent);
      } else {
        InsertBelow(newEvent);
      }
      InsertKeepsRep(was, newEvent);
    }

    method Erase(delEvent: Event)
      requires Rep(State())
      modifies this
      ensures State() == LadderErase.Erase(old(State()), delEvent)
      ensures Rep(State())
    {
      EraseKeepsRep(State(), delEvent);
      var t := delEvent.time;
      if top != [] && topStart < t {
        top := ListErase(top, delEvent);
        return;
      }
      var rungIndex := StepThroughRungs(t);
      if rungIndex < nRung {
        var r := rungs[rungIndex];
        var b := Index(r, t);
        if r.buckets[b] != [] {
          var x := ListErase(r.buckets[b], delEvent);
          r := r.(buckets := r.buckets[b := x]);
          if x == [] && r.num == b + 1 {
            var n := ScanBackward(r.buckets);
            r := r.(num := n);
            if n == 0 {
              r := r.(cur := r.start);
            }
          }
          rungs := rungs[rungIndex := r];
        }
      } else {
        bottom := BottomErase(bottom, delEvent);
      }
    }

    /** The branch of recurse_rung that spreads a crowded bucket over a new rung. */
    method SpawnRung(b: nat)
      requires Spawns(State()) && b == FirstBucket(State())
      modifies this
      ensures State() == Spawn(old(State()))
    {
      ChildIsBlank(State());
      var parent := rungs[nRung - 1];
      var es := parent.buckets[b];
      var child := Rung(rungs[nRung].buckets, (parent.width + |es| - 1) / |es|, 0, parent.cur, parent.cur);
      child := Spread(child, es);
      var bs := parent.buckets[b := []];
      var c := ScanForward(bs, b + 1);
      var n := ScanBackward(bs);
      parent := parent.(buckets := bs, num := n, cur := if c < |bs| then Low(parent, c) else parent.start);
      rungs := rungs[nRung - 1 := parent][nRung := child];
      nRung := nRung + 1;
    }

    /** The last rung, which has an event, is aimed at its first one and split if that is crowded. */
    method AimAndSpawn(b: nat) returns (done: bool, bucketIndex: nat)
      requires Rep(State()) && HasBucket(State()) && b == FirstBucket(State())
      modifies this
      ensures done ==> Search(State(), bucketIndex) == LadderDequeue.RecurseRung(old(State()))
      ensures !done ==>
                && Rep(State()) && HasBucket(State()) && Last(State()).width < Last(old(State())).width
                && LadderDequeue.RecurseRung(State()) == LadderDequeue.RecurseRung(old(State()))
    {
      ghost var q := State();
      RecurseStep(q);
      done, bucketIndex := true, b;
      var r := rungs[nRung - 1];
      rungs := rungs[nRung - 1 := r.(cur := Low(r, b))];
      assert State() == Aim(q);
      if THRESHOLD < |r.buckets[b]| && r.width > 1 {
        bucketIndex := INVALID;
        if nRung < MAX_RUNG_NUM {
          SpawnRung(b);
          done := false;
        }
      }
    }

    /** The last rung has no event left. */
    method PassOver()
      requires Rep(State()) && nRung > 0 && FirstBucket(State()) == |Last(State()).buckets|
      modifies this
      ensures Rep(State()) && Drained(State()) < old(Drained(State()))
      ensures LadderDequeue.RecurseRung(State()) == LadderDequeue.RecurseRung(old(State()))
    {
      PopKeepsRep(State());
      GiveUpLastRung();
    }

    /** recurse_rung. */
    method RecurseRung() returns (bucketIndex: nat)
      requires Rep(State())
      modifies this
      ensures Search(State(), bucketIndex) == LadderDequeue.RecurseRung(old(State()))
    {
      bucketIndex := INVALID;
      var done := nRung == 0;
      ghost var q := State();
      ghost var found := LadderDequeue.RecurseRung(q);
      while !done
        invariant done ==> Search(State(), bucketIndex) == found
        invariant !done ==> State() == q && Rep(q) && q.nRung > 0 && LadderDequeue.RecurseRung(q) == found
        decreases !done, if !done then Drained(q) else 0, if !done then Last(q).width else 0
      {
        var b := ScanForward(rungs[nRung - 1].buckets, 0);
        if b == |rungs[nRung - 1].buckets| {
          PassOver();
          bucketIndex, done := INVALID, nRung == 0;
        } else {
          done, bucketIndex := AimAndSpawn(b);
        }
        q := State();
      }
    }

    method GiveUpLastRung()
      requires 0 < nRung <= |rungs|
      modifies this`rungs, this`nRung
      ensures State() == PopRung(old(State()))
    {
      rungs := rungs[nRung - 1 := Dead(rungs[nRung - 1])];
      nRung := nRung - 1;
    }

    method GiveUpDrainedRungs()
      requires nRung <= |rungs|
      modifies this`rungs, this`nRung
      ensures State() == PopDrained(old(State()))
    {
      while nRung > 0 && rungs[nRung - 1].num == 0
        invariant nRung <= |rungs|
        invariant PopDrained(State()) == PopDrained(old(State()))
      {
        GiveUpLastRung();
      }
    }

    /** The tail of begin: a bucket goes to Bottom and its rung is brought up to date. */
    method PourBucket(b: nat, deep: bool) returns (ok: bool)
      requires 0 < nRung <= |rungs| && b < |rungs[nRung - 1].buckets|
      modifies this
      ensures Poured(State(), ok) == Pour(old(State()), b, deep)
    {
      ok := true;
      var r := rungs[nRung - 1];
      bottom := BottomInsertEvents(bottom, r.buckets[b]);
      r := r.(buckets := r.buckets[b := []]);
      rungs := rungs[nRung - 1 := r];
      assert State() == Emptied(old(State()), b);
      if r.num == b + 1 {
        GiveUpLastRung();
        if deep { GiveUpDrainedRungs(); }
      } else {
        var c := ScanForward(r.buckets, b + 1);
        if c < r.num {
          rungs := rungs[nRung - 1 := r.(cur := Low(r, c))];
        } else {
          GiveUpLastRung();
          ok := false;
        }
      }
    }

    /** create_new_rung for the first rung and the transfer of Top into it. */
    method LoadFirstRung()
      requires Rep(State()) && nRung == 0 && top != []
      modifies this
      ensures State() == LoadTop(old(State()))
    {
      TopWidthPositive(State());
      assert forall i :: 0 <= i < |top| ==> top[i] in top;
      var width := 1;
      if minTS != maxTS {
        width := (maxTS - minTS + |top| - 1) / |top|;
      }
      var r := Rung(Extended(rungs[0].buckets, 2 * |top|), width, 0, minTS, minTS);
      r := Spread(r, top);
      topStart := maxTS;
      rungs := rungs[0 := r];
      nRung := 1;
      top := [];
    }

    method BeginAtTop() returns (event: Option<Event>)
      requires Rep(State()) && nRung == 0 && top != [] && bottom == [] && |top| < INVALID
      modifies this
      ensures Rep(LoadTop(old(State()))) && Peek(State(), event) == BeginFromTop(old(State()))
    {
      LoadTopKeepsRep(State());
      LoadFirstRung();
      RecurseFacts(State());
      var b := RecurseRung();
      if b == INVALID { return None; }
      var ok := PourBucket(b, false);
      event := Front(bottom);
    }

    /** begin with an empty Bottom and rungs. */
    method BeginAtRungs() returns (event: Option<Event>)
      requires Rep(State()) && nRung > 0 && bottom == [] && |top| < INVALID
      modifies this
      ensures Peek(State(), event) == LadderDequeue.Begin(old(State()))
    {
      BeginSteps(State());
      var b := RecurseRung();
      if nRung == 0 {
        event := None;
        if top != [] {
          event := BeginAtTop();
        }
      } else if b == INVALID {
        event := None;
      } else {
        var ok := PourBucket(b, true);
        event := if ok then Front(bottom) else None;
      }
    }

    /** begin: the next event, refilling Bottom if need be; nothing is lost or duplicated. */
    method Begin() returns (event: Option<Event>)
      requires Rep(State()) && |top| < INVALID
      modifies this
      ensures Peek(State(), event) == LadderDequeue.Begin(old(State()))
      ensures Rep(State()) && Contents(State()) == Contents(old(State()))
    {
      ghost var was := State();
      if bottom != [] {
        event := Some(bottom[0]);
      } else if nRung > 0 {
        event := BeginAtRungs();
      } else if top == [] {
        event := None;
      } else {
        event := BeginAtTop();
      }
      BeginFacts(was);
    }

    /** dequeue: exactly the returned event leaves the queue. */
    method Dequeue() returns (event: Option<Event>)
      requires Rep(State()) && |top| < INVALID
      modifies this
      ensures Peek(State(), event) == LadderDequeue.Dequeue(old(State()))
      ensures Rep(State())
      ensures event.Some? ==> Contents(old(State())) == Contents(State()) + multiset{event.value}
    {
      ghost var was := State();
      event := Begin();
      ghost var mid := State();
      if event.Some? && bottom != [] {
        bottom := bottom[1..];
        assert State() == mid.(bottom := mid.bottom[1..]);
      }
      assert Peek(State(), event) == LadderDequeue.Dequeue(was);
      DequeueFacts(was);
    }
  }
}
