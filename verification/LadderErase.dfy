/** erase: the event is looked for in one place only, the one its time leads to now. */
module LadderErase {
  import opened LadderModel
  import opened LadderRungs
  import opened LadderInsert

  /** A rung after an erase in bucket `b`. */
  function EraseIn(r: Rung, b: nat, e: Event): Rung
    requires b < |r.buckets|
  {
    var x := ListErase(r.buckets[b], e);
    var bs := r.buckets[b := x];
    if x == [] && r.num == b + 1 then
      r.(buckets := bs, num := Occupied(bs), cur := if Occupied(bs) == 0 then r.start else r.cur)
    else r.(buckets := bs)
  }

  predicate LooksInTop(q: Ladder, e: Event) {
    q.top != [] && q.topStart < e.time
  }

  /** The list erase walks through. */
  function Searched(q: Ladder, e: Event): seq<Event>
    requires Rep(q)
  {
    if LooksInTop(q, e) then q.top
    else
      var k := FindRung(q, e.time, 0);
      if k < q.nRung then q.rungs[k].buckets[Index(q.rungs[k], e.time)] else q.bottom
  }

  function Erase(q: Ladder, e: Event): Ladder
    requires Rep(q)
  {
    if LooksInTop(q, e) then q.(top := ListErase(q.top, e))
    else
      var k := FindRung(q, e.time, 0);
      if k < q.nRung then
        var b := Index(q.rungs[k], e.time);
        if q.rungs[k].buckets[b] == [] then q else WithRung(q, k, EraseIn(q.rungs[k], b, e))
      else q.(bottom := BottomErase(q.bottom, e))
  }

  lemma {:induction false} ListEraseFacts(s: seq<Event>, e: Event)
    ensures multiset(ListErase(s, e)) == multiset(s) - multiset{e}
    ensures forall x :: x in ListErase(s, e) ==> x in s
  {
    if s != [] {
      assert s == [s[0]] + s[1..];
      if s[0] != e { ListEraseFacts(s[1..], e); }
    }
  }

  lemma {:induction false} BottomEraseSubset(s: seq<Event>, e: Event)
    ensures forall x :: x in BottomErase(s, e) ==> x in s && x != e
  {
    if s != [] { BottomEraseSubset(s[1..], e); }
  }

  lemma {:induction false} BottomEraseSorted(s: seq<Event>, e: Event)
    requires BottomSorted(s)
    ensures BottomSorted(BottomErase(s, e))
  {
    if s != [] {
      BottomEraseSorted(s[1..], e);
      BottomEraseSubset(s[1..], e);
      var r := BottomErase(s[1..], e);
      forall j | 0 <= j < |r| ensures !Less(r[j], s[0]) { assert r[j] in s[1..]; }
    }
  }

  lemma {:induction false} BottomEraseCounts(s: seq<Event>, e: Event)
    ensures multiset(BottomErase(s, e)) == multiset(s)[e := 0]
  {
    if s != [] {
      assert s == [s[0]] + s[1..];
      BottomEraseCounts(s[1..], e);
    }
  }

  lemma EraseInKeepsLive(r: Rung, b: nat, e: Event)
    requires LiveRung(r) && b < |r.buckets| && r.buckets[b] != []
    ensures LiveRung(EraseIn(r, b, e))
    ensures Flat(EraseIn(r, b, e).buckets) + multiset(r.buckets[b]) ==
            Flat(r.buckets) + multiset(ListErase(r.buckets[b], e))
  {
    var r' := EraseIn(r, b, e);
    var x := ListErase(r.buckets[b], e);
    ListEraseFacts(r.buckets[b], e);
    if !(x == [] && r.num == b + 1) { OccupiedUnique(r'.buckets, r.num); }
    forall c | 0 <= c < |r.buckets| && r'.buckets[c] != [] ensures r'.cur <= Low(r, c) {
      assert r.buckets[c] != [];
      LowMono(r, 0, c);
    }
    TrimKeepsLive(r, b, x, r'.num, r'.cur);
    assert Trimmed(r, b, x, r'.num, r'.cur) == r';
  }

  lemma EraseRungRep(q: Ladder, k: nat, b: nat, e: Event)
    requires Rep(q) && k < q.nRung && b < |q.rungs[k].buckets| && q.rungs[k].buckets[b] != []
    ensures Rep(WithRung(q, k, EraseIn(q.rungs[k], b, e)))
    ensures Contents(WithRung(q, k, EraseIn(q.rungs[k], b, e))) + multiset(q.rungs[k].buckets[b])
            == Contents(q) + multiset(ListErase(q.rungs[k].buckets[b], e))
  {
    var r := q.rungs[k];
    var r' := EraseIn(r, b, e);
    EraseInKeepsLive(r, b, e);
    ListEraseFacts(r.buckets[b], e);
    forall c, x | 0 <= c < |r'.buckets| && x in r'.buckets[c] ensures x.time <= q.topStart {
      assert x in r.buckets[c];
    }
    WithRungRep(q, k, r');
    WithRungContents(q, k, r');
    Exchanged(Contents(WithRung(q, k, r')), Contents(q), Flat(r'.buckets), Flat(r.buckets),
              multiset(ListErase(r.buckets[b], e)), multiset(r.buckets[b]));
  }

  lemma Exchanged(a: multiset<Event>, b: multiset<Event>, f: multiset<Event>, g: multiset<Event>,
                  x: multiset<Event>, y: multiset<Event>)
    requires a + g == b + f && f + y == g + x
    ensures a + y == b + x
  {
    forall e ensures (a + y)[e] == (b + x)[e] {
      assert (a + g)[e] == (b + f)[e] && (f + y)[e] == (g + x)[e];
    }
  }

  lemma SubtractOne(a: multiset<Event>, b: multiset<Event>, y: multiset<Event>, e: Event)
    requires a + y == b + (y - multiset{e})
    ensures a == if e in y then b - multiset{e} else b
  {
    var want := if e in y then b - multiset{e} else b;
    forall x ensures a[x] == want[x] {
      assert (a + y)[x] == (b + (y - multiset{e}))[x];
    }
  }

  lemma RemovedFirst(s: multiset<Event>, r: multiset<Event>, b: multiset<Event>, e: Event)
    ensures (s - multiset{e}) + r + b == if e in s then (s + r + b) - multiset{e} else s + r + b
  {
  }

  lemma RemovedLast(s: multiset<Event>, r: multiset<Event>, b: multiset<Event>, e: Event)
    requires (s + r + b)[e] <= 1
    ensures s + r + b[e := 0] == if e in b then (s + r + b) - multiset{e} else s + r + b
  {
  }

  lemma EraseTopFacts(q: Ladder, e: Event)
    requires Rep(q) && LooksInTop(q, e)
    ensures Rep(Erase(q, e))
    ensures Contents(Erase(q, e)) == if e in q.top then Contents(q) - multiset{e} else Contents(q)
  {
    ListEraseFacts(q.top, e);
    RemovedFirst(multiset(q.top), RungContents(q.rungs), multiset(q.bottom), e);
  }

  lemma EraseBottomRep(q: Ladder, e: Event)
    requires Rep(q)
    ensures Rep(q.(bottom := BottomErase(q.bottom, e)))
  {
    BottomEraseSubset(q.bottom, e);
    BottomEraseSorted(q.bottom, e);
  }

  lemma EraseBottomContents(q: Ladder, e: Event)
    requires Contents(q)[e] <= 1
    ensures Contents(q.(bottom := BottomErase(q.bottom, e))) ==
              if e in q.bottom then Contents(q) - multiset{e} else Contents(q)
  {
    BottomEraseCounts(q.bottom, e);
    RemovedLast(multiset(q.top), RungContents(q.rungs), multiset(q.bottom), e);
  }

  /** However often the event is held, erase keeps the representation. */
  lemma EraseKeepsRep(q: Ladder, e: Event)
    requires Rep(q)
    ensures Rep(Erase(q, e))
  {
    if LooksInTop(q, e) {
      ListEraseFacts(q.top, e);
    } else {
      var k := FindRung(q, e.time, 0);
      if k < q.nRung {
        var b := Index(q.rungs[k], e.time);
        if q.rungs[k].buckets[b] != [] { EraseRungRep(q, k, b, e); }
      } else {
        EraseBottomRep(q, e);
      }
    }
  }

  /** erase keeps the representation and removes the event exactly when it is in the place searched. */
  lemma EraseFacts(q: Ladder, e: Event)
    requires Rep(q) && Contents(q)[e] <= 1
    ensures Rep(Erase(q, e))
    ensures Contents(Erase(q, e)) == if e in Searched(q, e) then Contents(q) - multiset{e} else Contents(q)
  {
    if LooksInTop(q, e) {
      EraseTopFacts(q, e);
    } else {
      var k := FindRung(q, e.time, 0);
      if k < q.nRung {
        var b := Index(q.rungs[k], e.time);
        if q.rungs[k].buckets[b] != [] {
          EraseRungRep(q, k, b, e);
          ListEraseFacts(q.rungs[k].buckets[b], e);
          SubtractOne(Contents(Erase(q, e)), Contents(q), multiset(q.rungs[k].buckets[b]), e);
        }
      } else {
        EraseBottomRep(q, e);
        EraseBottomContents(q, e);
      }
    }
  }
}
