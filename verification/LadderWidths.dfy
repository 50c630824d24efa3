module LadderWidths {
  // How wide the buckets of a new rung are: as wide as spreading the span over the intended number of buckets makes
  // them, rounded down for a rung that takes over Bottom, rounded up for the others. And how far an insert moves
  // the current edge of a rung.

  import opened LadderModel
  import opened LadderRungs
  import opened LadderInsert
  import opened LadderDequeue

  /** The widest bucket with which `n` of them do not reach beyond `d`, but at least one. */
  predicate RoundedDown(w: nat, d: nat, n: nat) {
    w >= 1 && (if d < n then w == 1 else n * w <= d < n * w + n)
  }

  /** The narrowest bucket with which `n` of them span `d`. */
  predicate RoundedUp(w: nat, d: nat, n: nat) {
    d <= n * w < d + n
  }

  lemma FloorIs(d: nat, n: nat)
    requires n > 0
    ensures RoundedDown(Max(d / n, 1), d, n)
  {
    var x, rest := Quotient(d, n);
    MulOrder(x, 1, n);
    assert x * n == n * x;
    if d < n { DivLess(d, n, 1); }
  }

  lemma CeilingIs(d: nat, n: nat)
    requires n > 0
    ensures RoundedUp(ChildWidth(d, n), d, n)
  {
    var x, rest := Quotient(d + n - 1, n);
    assert x * n == n * x;
  }

  /** For the first rung the span up to topStart is divided by the length of Bottom, and every time in it gets a
      bucket of that width; for another rung the span up to the rung above is divided by fifty. */
  lemma TransferWidth(q: Ladder, startVal: nat)
    requires Rep(q) && Overfull(q) && startVal <= q.topStart
    requires q.nRung > 0 ==> startVal <= q.rungs[q.nRung - 1].cur
    ensures var r := TransferRung(q, startVal);
            && r.start == startVal == r.cur
            && (if q.nRung == 0 then
                  && RoundedDown(r.width, q.topStart - startVal, |q.bottom|)
                  && (q.topStart - startVal) / r.width < 2 * |q.bottom|
                  && |r.buckets| == (if |q.rungs[0].buckets| < 2 * |q.bottom| then 2 * |q.bottom|
                                     else |q.rungs[0].buckets|)
                else RoundedDown(r.width, q.rungs[q.nRung - 1].cur - startVal, 50))
  {
    if q.nRung == 0 {
      var d, n := q.topStart - startVal, |q.bottom|;
      FloorIs(d, n);
      WithinTwice(d, n, TransferRung(q, startVal).width);
    } else {
      FloorIs(q.rungs[q.nRung - 1].cur - startVal, THRESHOLD);
    }
  }

  lemma WithinTwice(d: nat, n: nat, w: nat)
    requires n > 0 && RoundedDown(w, d, n)
    ensures d / w < 2 * n
  {
    MulOrder(w, 1, n);
    assert n * w == w * n && (2 * n) * w == n * w + n * w;
    DivLess(d, w, 2 * n);
  }

  /** A bucket that is spread over a finer rung is divided by the number of its events. */
  lemma SpawnWidth(q: Ladder)
    requires HasBucket(q) && q.nRung < |q.rungs| && Last(q).buckets[FirstBucket(q)] != []
    ensures RoundedUp(BlankChild(q).width, Last(q).width, |Last(q).buckets[FirstBucket(q)]|)
    ensures BlankChild(q).start == BlankChild(q).cur == Last(q).cur
  {
    CeilingIs(Last(q).width, |Last(q).buckets[FirstBucket(q)]|);
  }

  /** The span of Top is divided by the number of its events; twice as many buckets are made if there are not enough
      already. */
  lemma FirstRungWidth(q: Ladder)
    requires Rep(q) && q.top != [] && q.minTS <= q.maxTS
    ensures var r := FirstRung(q);
            && r.start == r.cur == q.minTS
            && (if q.minTS == q.maxTS then r.width == 1 else RoundedUp(r.width, q.maxTS - q.minTS, |q.top|))
            && |r.buckets| == (if |q.rungs[0].buckets| < 2 * |q.top| then 2 * |q.top| else |q.rungs[0].buckets|)
  {
    if q.minTS < q.maxTS { CeilingIs(q.maxTS - q.minTS, |q.top|); }
  }

  /** The event goes to the front of a bucket of its time, the other buckets stay, and the current edge moves back to
      that bucket's edge if it lies beyond, no further. */
  ghost predicate PutIn(r: Rung, r': Rung, e: Event, b: nat) {
    && b < |r.buckets| && Fits(r, b, e) && r'.buckets == r.buckets[b := [e] + r.buckets[b]]
    && r'.start == r.start && r'.width == r.width
    && r'.cur == if Low(r, b) < r.cur then Low(r, b) else r.cur
  }

  /** What an insert does to the rung it finds. */
  lemma InsertInRung(q: Ladder, e: Event) returns (k: nat, b: nat)
    requires Rep(q) && e.time <= q.topStart && FindRung(q, e.time, 0) < q.nRung
    ensures k < q.nRung && q.rungs[k].cur <= e.time && forall i :: 0 <= i < k ==> e.time < q.rungs[i].cur
    ensures Insert(q, e) == q.(rungs := q.rungs[k := Insert(q, e).rungs[k]])
    ensures PutIn(q.rungs[k], Insert(q, e).rungs[k], e, b)
  {
    k := FindRung(q, e.time, 0);
    b := Index(q.rungs[k], e.time);
    IndexFits(q.rungs[k], e);
    LowSame(q.rungs[k], Put(q.rungs[k], e), b);
  }

  /** minTS and maxTS are times of events in Top. */
  ghost predicate Attained(q: Ladder) {
    q.top != [] ==> (exists e :: e in q.top && e.time == q.minTS) && (exists e :: e in q.top && e.time == q.maxTS)
  }

  lemma InsertAttains(q: Ladder, e: Event)
    requires Rep(q) && Attained(q)
    ensures Attained(Insert(q, e))
  {
    var q' := Insert(q, e);
    if e.time > q.topStart {
      assert e in q'.top && forall x :: x in q.top ==> x in q'.top;
    }
  }
}
