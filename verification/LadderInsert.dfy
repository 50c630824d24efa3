/** Insertion: into Top, into the first rung that reaches back far enough, or into Bottom, which is
    spread over a new rung once it is too long. */
module LadderInsert {
  import opened LadderModel
  import opened LadderRungs

  function WithRung(q: Ladder, k: nat, r: Rung): Ladder
    requires k < |q.rungs|
  {
    q.(rungs := q.rungs[k := r])
  }

  function Max(x: nat, y: nat): nat {
    if x < y then y else x
  }

  function Min(x: nat, y: nat): nat {
    if x < y then x else y
  }

  /** Bucket lists are added to rung 0 until there are at least `n`. */
  function Extended(bs: seq<seq<Event>>, n: nat): (r: seq<seq<Event>>)
    ensures |r| == Max(|bs|, n)
    ensures forall b :: 0 <= b < |r| ==> r[b] == if b < |bs| then bs[b] else []
  {
    if |bs| < n then bs + Empties(n - |bs|) else bs
  }

  /** First live rung from `k` on whose rCur is at or before `t`. */
  function FindRung(q: Ladder, t: nat, k: nat): (r: nat)
    requires k <= q.nRung <= |q.rungs|
    ensures k <= r <= q.nRung
    ensures forall i :: k <= i < r ==> t < q.rungs[i].cur
    ensures r < q.nRung ==> q.rungs[r].cur <= t
    decreases q.nRung - k
  {
    if k < q.nRung && t < q.rungs[k].cur then FindRung(q, t, k + 1) else k
  }

  function InsertTop(q: Ladder, e: Event): Ladder {
    q.(top := [e] + q.top,
       minTS := if q.top == [] || q.minTS > e.time then e.time else q.minTS,
       maxTS := if q.top == [] || q.maxTS < e.time then e.time else q.maxTS)
  }

  /** Bottom is too long and a rung is left: create_rung_for_bottom_transfer will be called. */
  predicate Overfull(q: Ladder) {
    THRESHOLD <= |q.bottom| && q.nRung < MAX_RUNG_NUM
  }

  function TransferStart(q: Ladder, e: Event): nat
    requires q.bottom != []
  {
    Min(q.bottom[0].time, e.time)
  }

  /** create_rung_for_bottom_transfer. */
  function TransferRung(q: Ladder, startVal: nat): Rung
    requires Rep(q) && Overfull(q) && startVal <= q.topStart
    requires q.nRung > 0 ==> startVal <= q.rungs[q.nRung - 1].cur
  {
    var k := q.nRung;
    var width := if k == 0 then Max((q.topStart - startVal) / |q.bottom|, 1)
                 else Max((q.rungs[k - 1].cur - startVal) / THRESHOLD, 1);
    var buckets := if k == 0 then Extended(q.rungs[0].buckets, 2 * |q.bottom|) else q.rungs[k].buckets;
    Rung(buckets, width, 0, startVal, startVal)
  }

  predicate GoesBelow(q: Ladder, e: Event)
    requires q.nRung <= |q.rungs|
  {
    e.time <= q.topStart && FindRung(q, e.time, 0) == q.nRung
  }

  /** If the insert moves Bottom into the first rung, Bottom is short enough for its bucket numbers. */
  predicate Roomy(q: Ladder, e: Event) {
    q.nRung == 0 && e.time <= q.topStart && Overfull(q) ==> |q.bottom| <= INVALID / 2
  }

  lemma BottomMin(q: Ladder, i: nat)
    requires Rep(q) && i < |q.bottom|
    ensures q.bottom[0].time <= q.bottom[i].time
  {
    if i > 0 { assert !Less(q.bottom[i], q.bottom[0]); }
  }

  function Transfer(q: Ladder, e: Event): Ladder
    requires Rep(q) && Overfull(q) && GoesBelow(q, e)
  {
    var blank := TransferRung(q, TransferStart(q, e));
    assert forall i :: 0 <= i < |q.bottom| ==> blank.start <= q.bottom[i].time by {
      forall i | 0 <= i < |q.bottom| ensures blank.start <= q.bottom[i].time { BottomMin(q, i); }
    }
    var full := PutAll(blank, q.bottom);
    q.(rungs := q.rungs[q.nRung := Lowered(Put(full, e), Index(full, e.time))], nRung := q.nRung + 1, bottom := [])
  }

  function Insert(q: Ladder, e: Event): Ladder
    requires Rep(q)
  {
    if e.time > q.topStart then InsertTop(q, e)
    else
      var k := FindRung(q, e.time, 0);
      if k < q.nRung then WithRung(q, k, Lowered(Put(q.rungs[k], e), Index(q.rungs[k], e.time)))
      else if Overfull(q) then Transfer(q, e)
      else q.(bottom := BottomInsert(q.bottom, e))
  }

  // ----- Insert keeps the representation and adds exactly the event -----

  lemma FlatBelow(r: Rung, limit: nat)
    ensures Below(r, limit) <==> forall e :: e in Flat(r.buckets) ==> e.time <= limit
  {
    if Below(r, limit) {
      forall e | e in Flat(r.buckets) ensures e.time <= limit { var b := FlatFrom(r.buckets, e); }
    }
    if forall e :: e in Flat(r.buckets) ==> e.time <= limit {
      forall b, e | 0 <= b < |r.buckets| && e in r.buckets[b] ensures e.time <= limit {
        FlatHas(r.buckets, b);
        assert e in multiset(r.buckets[b]);
      }
    }
  }

  lemma WithRungContents(q: Ladder, k: nat, r: Rung)
    requires k < |q.rungs|
    ensures Contents(WithRung(q, k, r)) + Flat(q.rungs[k].buckets) == Contents(q) + Flat(r.buckets)
  {
    var rest := multiset(q.top) + multiset(q.bottom);
    var before, after := RungContents(q.rungs), RungContents(q.rungs[k := r]);
    RungContentsUpdate(q.rungs, k, r);
    SwapSums(after, before, Flat(q.rungs[k].buckets), Flat(r.buckets), rest);
    assert multiset(q.top) + after + multiset(q.bottom) == after + rest;
    assert multiset(q.top) + before + multiset(q.bottom) == before + rest;
  }

  /** Replacing one live rung by another of the same frame. */
  lemma WithRungRep(q: Ladder, k: nat, r: Rung)
    requires Rep(q) && k < q.nRung
    requires LiveRung(r) && |r.buckets| == |q.rungs[k].buckets|
    requires r.start == q.rungs[k].start && r.width == q.rungs[k].width
    requires Below(r, q.topStart)
    ensures Rep(WithRung(q, k, r))
  {
  }

  lemma RungInsertContents(q: Ladder, k: nat, r: Rung, e: Event)
    requires k < |q.rungs| && Flat(r.buckets) == Flat(q.rungs[k].buckets) + multiset{e}
    ensures Contents(WithRung(q, k, r)) == Contents(q) + multiset{e}
  {
    var old' := Flat(q.rungs[k].buckets);
    WithRungContents(q, k, r);
    assert Contents(q) + (old' + multiset{e}) == (Contents(q) + multiset{e}) + old';
    CancelSum(Contents(WithRung(q, k, r)), Contents(q) + multiset{e}, old');
  }

  lemma BelowAfterInsert(r: Rung, r': Rung, e: Event, limit: nat)
    requires Below(r, limit) && e.time <= limit && Flat(r'.buckets) == Flat(r.buckets) + multiset{e}
    ensures Below(r', limit)
  {
    FlatBelow(r, limit);
    FlatBelow(r', limit);
  }

  lemma RungInsertKeepsRep(q: Ladder, e: Event)
    requires Rep(q) && e.time <= q.topStart && FindRung(q, e.time, 0) < q.nRung
    ensures Rep(Insert(q, e)) && Contents(Insert(q, e)) == Contents(q) + multiset{e}
  {
    var k := FindRung(q, e.time, 0);
    var r := q.rungs[k];
    var r' := Lowered(Put(r, e), Index(r, e.time));
    InsertKeepsLive(r, e);
    BelowAfterInsert(r, r', e, q.topStart);
    WithRungRep(q, k, r');
    RungInsertContents(q, k, r', e);
  }

  lemma {:induction false} BottomInsertAdds(s: seq<Event>, e: Event)
    ensures multiset(BottomInsert(s, e)) == multiset(s) + multiset{e}
  {
    if s != [] {
      assert s == [s[0]] + s[1..];
      if !Less(e, s[0]) { BottomInsertAdds(s[1..], e); }
    }
  }

  lemma BottomCons(x: Event, r: seq<Event>)
    requires BottomSorted(r) && forall j :: 0 <= j < |r| ==> !Less(r[j], x)
    ensures BottomSorted([x] + r)
  {
  }

  lemma {:induction false} BottomInsertSorts(s: seq<Event>, e: Event)
    requires BottomSorted(s)
    ensures BottomSorted(BottomInsert(s, e))
  {
    if s == [] {
    } else if Less(e, s[0]) {
      BottomCons(e, s);
    } else {
      var r := BottomInsert(s[1..], e);
      BottomInsertSorts(s[1..], e);
      BottomInsertAdds(s[1..], e);
      forall j | 0 <= j < |r| ensures !Less(r[j], s[0]) {
        assert r[j] in multiset(r);
        assert r[j] in s[1..] || r[j] == e;
      }
      BottomCons(s[0], r);
    }
  }

  lemma TopInsertKeepsRep(q: Ladder, e: Event)
    requires Rep(q) && e.time > q.topStart
    ensures Rep(Insert(q, e)) && Contents(Insert(q, e)) == Contents(q) + multiset{e}
  {
    assert Rep(InsertTop(q, e));
    TopContents(q.top, e, RungContents(q.rungs), multiset(q.bottom));
  }

  lemma TopContents(top: seq<Event>, e: Event, rungs: multiset<Event>, bottom: multiset<Event>)
    ensures multiset([e] + top) + rungs + bottom == multiset(top) + rungs + bottom + multiset{e}
  {
    assert multiset([e] + top) == multiset{e} + multiset(top);
  }

  lemma BottomInsertKeepsRep(q: Ladder, e: Event)
    requires Rep(q) && GoesBelow(q, e) && !Overfull(q)
    ensures Rep(Insert(q, e)) && Contents(Insert(q, e)) == Contents(q) + multiset{e}
  {
    var s := BottomInsert(q.bottom, e);
    BottomInsertAdds(q.bottom, e);
    BottomInsertSorts(q.bottom, e);
    forall x | x in s ensures x.time <= q.topStart {
      assert x in multiset(s);
      assert x in q.bottom || x == e;
    }
    assert Contents(Insert(q, e)) == multiset(q.top) + RungContents(q.rungs) + (multiset(q.bottom) + multiset{e});
  }

  lemma TransferIndexBound(d: nat, n: nat)
    requires n > 0
    ensures d / Max(d / n, 1) < 2 * n
  {
    var w := Max(d / n, 1);
    var x, rest := Quotient(d, n);
    MulOrder(w, x, n);
    MulOrder(w, 1, n);
    assert (2 * n) * w == w * n + w * n;
    DivLess(d, w, 2 * n);
  }

  /** The rung that receives the whole of Bottom and the new event. */
  lemma TransferredRung(q: Ladder, e: Event)
    requires Rep(q) && Overfull(q) && GoesBelow(q, e)
    ensures var r := Transfer(q, e).rungs[q.nRung];
            var blank := TransferRung(q, TransferStart(q, e));
            && LiveRung(r) && Flat(r.buckets) == multiset(q.bottom) + multiset{e}
            && r.start == blank.start && r.width == blank.width && |r.buckets| == |blank.buckets|
  {
    var blank := TransferRung(q, TransferStart(q, e));
    assert Blank(blank);
    forall i | 0 <= i < |q.bottom| ensures blank.start <= q.bottom[i].time { BottomMin(q, i); }
    SpreadIsLive(blank, q.bottom);
    InsertKeepsLive(PutAll(blank, q.bottom), e);
  }

  lemma BelowAfterTransfer(q: Ladder, r: Rung, e: Event)
    requires Flat(r.buckets) == multiset(q.bottom) + multiset{e} && e.time <= q.topStart
    requires forall x :: x in q.bottom ==> x.time <= q.topStart
    ensures Below(r, q.topStart)
  {
    forall x | x in Flat(r.buckets) ensures x.time <= q.topStart {
      assert x in q.bottom || x == e;
    }
    FlatBelow(r, q.topStart);
  }

  function AddRung(q: Ladder, r: Rung): Ladder
    requires q.nRung < |q.rungs|
  {
    q.(rungs := q.rungs[q.nRung := r], nRung := q.nRung + 1)
  }

  lemma AddRungRep(q: Ladder, r: Rung)
    requires Rep(q) && q.nRung < MAX_RUNG_NUM && LiveRung(r) && Below(r, q.topStart)
    requires q.nRung > 0 ==> |r.buckets| == MAX_BUCKET_NUM
    requires q.nRung == 0 ==> Addressable(r, q.topStart)
    ensures Rep(AddRung(q, r))
  {
  }

  lemma TransferContents(q: Ladder, e: Event)
    requires Rep(q) && Overfull(q) && GoesBelow(q, e)
    ensures Contents(Transfer(q, e)) == Contents(q) + multiset{e}
  {
    var k := q.nRung;
    var r := Transfer(q, e).rungs[k];
    var rs := RungContents(q.rungs);
    TransferredRung(q, e);
    FlatEmpty(q.rungs[k].buckets);
    RungContentsUpdate(q.rungs, k, r);
    assert RungContents(Transfer(q, e).rungs) == rs + (multiset(q.bottom) + multiset{e});
    Regroup(multiset(q.top), rs, multiset(q.bottom), multiset{e});
  }

  lemma TransferIsAdd(q: Ladder, e: Event)
    requires Rep(q) && GoesBelow(q, e) && Overfull(q)
    ensures Transfer(q, e) == AddRung(q.(bottom := []), Transfer(q, e).rungs[q.nRung])
  {
  }

  lemma ClearBottomRep(q: Ladder)
    requires Rep(q)
    ensures Rep(q.(bottom := []))
  {
  }

  lemma TransferAddressable(q: Ladder, e: Event)
    requires Rep(q) && Overfull(q) && GoesBelow(q, e) && Roomy(q, e) && q.nRung == 0
    ensures Usable(Transfer(q, e).rungs[0]) && Addressable(Transfer(q, e).rungs[0], q.topStart)
  {
    TransferredRung(q, e);
    TransferIndexBound(q.topStart - Transfer(q, e).rungs[0].start, |q.bottom|);
  }

  lemma TransferKeepsRep(q: Ladder, e: Event)
    requires Rep(q) && Overfull(q) && GoesBelow(q, e) && Roomy(q, e)
    ensures Rep(Transfer(q, e))
  {
    var r := Transfer(q, e).rungs[q.nRung];
    TransferredRung(q, e);
    BelowAfterTransfer(q, r, e);
    if q.nRung == 0 { TransferAddressable(q, e); }
    ClearBottomRep(q);
    AddRungRep(q.(bottom := []), r);
    TransferIsAdd(q, e);
  }

  /** Every insert, whatever its path, keeps the representation invariant and adds exactly the event. */
  lemma InsertKeepsRep(q: Ladder, e: Event)
    requires Rep(q) && Roomy(q, e)
    ensures Rep(Insert(q, e)) && Contents(Insert(q, e)) == Contents(q) + multiset{e}
  {
    if e.time > q.topStart {
      TopInsertKeepsRep(q, e);
    } else if FindRung(q, e.time, 0) < q.nRung {
      RungInsertKeepsRep(q, e);
    } else if Overfull(q) {
      TransferKeepsRep(q, e);
      TransferContents(q, e);
    } else {
      BottomInsertKeepsRep(q, e);
    }
  }
}
