module LadderTopPath {
  // Runs whose inserts all go to Top: the rungs get narrow so fast that eight are never needed, and it is
  // possible to say exactly which events erase can find.

  import opened LadderModel
  import opened LadderRungs
  import opened LadderDequeue

  // ----- at most seven rungs -----

  /** The widest a rung can be: each spawn splits more than THRESHOLD events. */
  ghost function Widest(k: nat): nat {
    if k == 0 then MAX_TIME else ChildWidth(Widest(k - 1), THRESHOLD + 1)
  }

  lemma WidestSix()
    ensures Widest(6) == 1
  {
    assert Widest(1) == 42107523;
    assert Widest(2) == 825638;
    assert Widest(3) == 16189;
    assert Widest(4) == 318;
    assert Widest(5) == 7;
  }

  lemma DivMono(a: nat, b: nat, n: nat, m: nat)
    requires a <= b && 0 < m <= n
    ensures a / n <= b / m
  {
    var x, rest := Quotient(a, n);
    var y, rest' := Quotient(b, m);
    MulOrder(n, m, x);
    assert m * x <= n * x && x * n == n * x && x * m == m * x;
    assert (y + 1) * m == y * m + m;
    QuotientLess(x, b, m, y + 1);
  }

  lemma ChildWidthMono(w: nat, w': nat, n: nat)
    requires w <= w' && w > 0 && n > THRESHOLD
    ensures ChildWidth(w, n) <= ChildWidth(w', THRESHOLD + 1)
  {
    var m := THRESHOLD + 1;
    CeilIs(w, n);
    CeilIs(w', m);
    DivMono(w - 1, w' - 1, n, m);
  }

  lemma CeilIs(w: nat, n: nat)
    requires w > 0 && n > 0
    ensures ChildWidth(w, n) == (w - 1) / n + 1
  {
    var x, rest := Quotient(w - 1, n);
    var y, rest' := Quotient(w + n - 1, n);
    assert (x + 1) * n == x * n + n;
    assert (x + 2) * n == x * n + n + n;
    QuotientLess(y, w + n - 1, n, x + 2);
    assert (y + 1) * n == y * n + n;
    QuotientLess(x + 1, w + n - 1, n, y + 1);
  }

  ghost predicate Narrow(q: Ladder) {
    && q.maxTS <= MAX_TIME && q.nRung <= 7 && q.nRung <= |q.rungs|
    && forall k :: 0 <= k < q.nRung ==> q.rungs[k].width <= Widest(k)
  }

  lemma SpawnWidths(q: Ladder)
    requires Spawns(q)
    ensures Spawn(q).maxTS == q.maxTS && Spawn(q).nRung == q.nRung + 1 && |Spawn(q).rungs| == |q.rungs|
    ensures forall k :: 0 <= k < q.nRung ==> Spawn(q).rungs[k].width == q.rungs[k].width
    ensures Spawn(q).rungs[q.nRung].width == ChildWidth(Last(q).width, |Last(q).buckets[FirstBucket(q)]|)
  {
    ChildIsBlank(q);
  }

  lemma SpawnKeepsNarrow(q: Ladder)
    requires Spawns(q) && Narrow(q)
    ensures Narrow(Spawn(q))
  {
    var k := q.nRung - 1;
    assert k < 6 by { if k == 6 { WidestSix(); } }
    SpawnWidths(q);
    ChildWidthMono(Last(q).width, Widest(k), |Last(q).buckets[FirstBucket(q)]|);
    assert Widest(k + 1) == ChildWidth(Widest(k), THRESHOLD + 1);
  }

  lemma AimKeepsNarrow(q: Ladder)
    requires 0 < q.nRung <= |q.rungs| && Narrow(q)
    ensures Narrow(Aim(q))
  {
  }

  lemma PopKeepsNarrow(q: Ladder)
    requires 0 < q.nRung <= |q.rungs| && Narrow(q)
    ensures Narrow(PopRung(q))
  {
  }

  lemma {:induction false} RecurseKeepsNarrow(q: Ladder)
    requires Rep(q) && Narrow(q)
    ensures Narrow(RecurseRung(q).q)
    decreases Drained(q), if q.nRung > 0 then Last(q).width else 0
  {
    if q.nRung > 0 {
      if FirstBucket(q) == |Last(q).buckets| {
        PopKeepsRep(q);
        PopKeepsNarrow(q);
        RecurseKeepsNarrow(PopRung(q));
      } else {
        AimKeepsRep(q);
        AimKeepsNarrow(q);
        if Crowded(Aim(q)) && q.nRung < MAX_RUNG_NUM {
          SpawnOnNarrow(Aim(q));
          RecurseKeepsNarrow(Spawn(Aim(q)));
        }
      }
    }
  }

  lemma SpawnOnNarrow(q: Ladder)
    requires Spawns(q) && Narrow(q)
    ensures Rep(Spawn(q)) && Narrow(Spawn(q)) && HasBucket(Spawn(q)) && Last(Spawn(q)).width < Last(q).width
  {
    SpawnSteps(q);
    SpawnKeepsNarrow(q);
  }

  lemma {:induction false} PopDrainedKeepsNarrow(q: Ladder)
    requires Narrow(q)
    ensures Narrow(PopDrained(q))
    decreases q.nRung
  {
    if q.nRung > 0 && Last(q).num == 0 {
      PopKeepsNarrow(q);
      PopDrainedKeepsNarrow(PopRung(q));
    }
  }

  lemma PourKeepsNarrow(q: Ladder, deep: bool)
    requires Rep(q) && Aimed(q) && Narrow(q)
    ensures Narrow(Pour(q, FirstBucket(q), deep).q)
  {
    PourCases(q, deep);
    if Last(q).num == FirstBucket(q) + 1 { PopDrainedKeepsNarrow(PopRung(Emptied(q, FirstBucket(q)))); }
  }

  lemma LoadTopNarrow(q: Ladder)
    requires Rep(q) && Narrow(q) && q.nRung == 0 && q.top != [] && |q.top| < INVALID
    ensures Narrow(LoadTop(q))
  {
    FirstRungBlank(q);
    var d := q.maxTS - q.minTS;
    if d > 0 {
      CeilIs(d, |q.top|);
      var x, rest := Quotient(d - 1, |q.top|);
      MulOrder(|q.top|, 1, x);
    }
  }

  lemma BeginKeepsNarrow(q: Ladder)
    requires Rep(q) && |q.top| < INVALID && Narrow(q)
    ensures Narrow(Begin(q).q)
  {
    if q.bottom == [] {
      RecurseFacts(q);
      RecurseKeepsNarrow(q);
      var s := if q.nRung > 0 then RecurseRung(q) else Search(q, 0);
      if s.q.nRung > 0 {
        if s.b != INVALID { PourKeepsNarrow(s.q, true); }
      } else if s.q.top != [] {
        LoadTopKeepsRep(s.q);
        LoadTopNarrow(s.q);
        var l := LoadTop(s.q);
        RecurseFacts(l);
        RecurseKeepsNarrow(l);
        RecurseNotEmpty(l);
        if RecurseRung(l).b != INVALID { PourKeepsNarrow(RecurseRung(l).q, false); }
      }
    }
  }
}
