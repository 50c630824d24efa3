/** Lemmas about a single rung: where events land, what stays ahead of rCur, what a bucket change
    does to the contents. */
module LadderRungs {
  import opened LadderModel

  // ----- bucket edges -----

  lemma {:induction false} LowIs(r: Rung, b: nat)
    ensures Low(r, b) == r.start + b * r.width
  {
    if b > 0 { LowIs(r, b - 1); }
  }

  lemma {:induction false} LowSame(r: Rung, r': Rung, b: nat)
    requires r'.start == r.start && r'.width == r.width
    ensures Low(r', b) == Low(r, b)
  {
    if b > 0 { LowSame(r, r', b - 1); }
  }

  lemma {:induction false} LowMono(r: Rung, b: nat, c: nat)
    requires b <= c
    ensures Low(r, b) <= Low(r, c)
    ensures b < c ==> Low(r, b + 1) <= Low(r, c)
    decreases c - b
  {
    if b < c {
      LowMono(r, b, c - 1);
      if b < c - 1 { LowMono(r, b + 1, c - 1); }
    }
  }

  lemma Quotient(d: nat, w: nat) returns (x: nat, rest: nat)
    requires w > 0
    ensures x == d / w && d == x * w + rest && rest < w
  {
    x, rest := d / w, d % w;
  }

  lemma MulOrder(x: nat, y: nat, w: nat)
    ensures y <= x ==> y * w <= x * w
  {
    if y <= x { assert x * w == y * w + (x - y) * w; }
  }

  lemma QuotientLess(x: nat, d: nat, w: nat, m: nat)
    requires x * w <= d < m * w
    ensures x < m
  {
    MulOrder(x, m, w);
  }

  lemma DivLess(d: nat, w: nat, m: nat)
    requires w > 0 && d < m * w
    ensures d / w < m
  {
    var x, rest := Quotient(d, w);
    QuotientLess(x, d, w, m);
  }

  /** The bucket the code computes is a bucket the event fits. */
  lemma IndexFits(r: Rung, e: Event)
    requires Usable(r) && r.start <= e.time
    ensures Fits(r, Index(r, e.time), e)
  {
    var i, rest := Quotient(e.time - r.start, r.width);
    LowIs(r, i);
    LowIs(r, i + 1);
    LowMono(r, Index(r, e.time), i);
  }

  // ----- occupied buckets -----

  lemma OccupiedUnique(bs: seq<seq<Event>>, n: nat)
    requires n <= |bs|
    requires forall i :: n <= i < |bs| ==> bs[i] == []
    requires n > 0 ==> bs[n - 1] != []
    ensures Occupied(bs) == n
  {
  }

  lemma OccupiedFill(bs: seq<seq<Event>>, b: nat, x: seq<Event>)
    requires b < |bs| && x != []
    ensures Occupied(bs[b := x]) == if Occupied(bs) < b + 1 then b + 1 else Occupied(bs)
  {
    var n := if Occupied(bs) < b + 1 then b + 1 else Occupied(bs);
    OccupiedUnique(bs[b := x], n);
  }

  lemma OccupiedZero(bs: seq<seq<Event>>)
    ensures Occupied(bs) == 0 <==> NextFull(bs, 0) == |bs|
  {
    if Occupied(bs) > 0 { assert bs[Occupied(bs) - 1] != []; }
  }

  // ----- contents of a rung -----

  lemma SwapSums(a: multiset<Event>, b: multiset<Event>, m: multiset<Event>, n: multiset<Event>, rest: multiset<Event>)
    requires a + m == b + n
    ensures (a + rest) + m == (b + rest) + n
  {
    assert (a + rest) + m == (a + m) + rest;
    assert (b + rest) + n == (b + n) + rest;
  }

  lemma Regroup(a: multiset<Event>, b: multiset<Event>, c: multiset<Event>, d: multiset<Event>)
    ensures a + (b + (c + d)) + multiset{} == (a + b + c) + d
  {
  }

  lemma CancelSum(a: multiset<Event>, b: multiset<Event>, m: multiset<Event>)
    requires a + m == b + m
    ensures a == b
  {
    forall e ensures a[e] == b[e] { assert (a + m)[e] == (b + m)[e]; }
  }

  lemma {:induction false} FlatUpdate(bs: seq<seq<Event>>, b: nat, x: seq<Event>)
    requires b < |bs|
    ensures Flat(bs[b := x]) + multiset(bs[b]) == Flat(bs) + multiset(x)
  {
    var n := |bs| - 1;
    if b < n {
      FlatUpdate(bs[..n], b, x);
      assert bs[b := x][..n] == bs[..n][b := x];
      SwapSums(Flat(bs[..n][b := x]), Flat(bs[..n]), multiset(bs[b]), multiset(x), multiset(bs[n]));
    } else {
      assert bs[b := x][..n] == bs[..n];
    }
  }

  lemma {:induction false} FlatEmpty(bs: seq<seq<Event>>)
    requires forall b :: 0 <= b < |bs| ==> bs[b] == []
    ensures Flat(bs) == multiset{}
  {
    if bs != [] { FlatEmpty(bs[..|bs| - 1]); }
  }

  lemma {:induction false} FlatHas(bs: seq<seq<Event>>, b: nat)
    requires b < |bs|
    ensures multiset(bs[b]) <= Flat(bs)
  {
    if b < |bs| - 1 { FlatHas(bs[..|bs| - 1], b); }
  }

  lemma {:induction false} FlatFrom(bs: seq<seq<Event>>, e: Event) returns (b: nat)
    requires e in Flat(bs)
    ensures b < |bs| && e in bs[b]
  {
    if e in multiset(bs[|bs| - 1]) {
      b := |bs| - 1;
    } else {
      b := FlatFrom(bs[..|bs| - 1], e);
    }
  }

  lemma {:induction false} RungContentsUpdate(rungs: seq<Rung>, k: nat, r: Rung)
    requires k < |rungs|
    ensures RungContents(rungs[k := r]) + Flat(rungs[k].buckets) == RungContents(rungs) + Flat(r.buckets)
  {
    var n := |rungs| - 1;
    if k < n {
      RungContentsUpdate(rungs[..n], k, r);
      assert rungs[k := r][..n] == rungs[..n][k := r];
      SwapSums(RungContents(rungs[..n][k := r]), RungContents(rungs[..n]), Flat(rungs[k].buckets), Flat(r.buckets),
               Flat(rungs[n].buckets));
    } else {
      assert rungs[k := r][..n] == rungs[..n];
      SwapSums(RungContents(rungs[..n]) + Flat(r.buckets), RungContents(rungs[..n]) + Flat(rungs[k].buckets),
               Flat(rungs[k].buckets), Flat(r.buckets), multiset{});
    }
  }

  // ----- putting events into a rung -----

  /** Everything LiveRung says except that rCur is at or before the first event. */
  ghost predicate Filled(r: Rung) {
    Usable(r) && Placed(r) && r.num == Occupied(r.buckets)
  }

  lemma PutContents(r: Rung, e: Event)
    requires Usable(r) && r.start <= e.time
    ensures Flat(Put(r, e).buckets) == Flat(r.buckets) + multiset{e}
  {
    var b := Index(r, e.time);
    FlatUpdate(r.buckets, b, [e] + r.buckets[b]);
    assert multiset([e] + r.buckets[b]) == multiset{e} + multiset(r.buckets[b]);
    CancelSum(Flat(Put(r, e).buckets), Flat(r.buckets) + multiset{e}, multiset(r.buckets[b]));
  }

  lemma PutFills(r: Rung, e: Event)
    requires Filled(r) && r.start <= e.time
    ensures Filled(Put(r, e))
  {
    var b := Index(r, e.time);
    var r' := Put(r, e);
    IndexFits(r, e);
    OccupiedFill(r.buckets, b, [e] + r.buckets[b]);
    forall c, x | 0 <= c < |r'.buckets| && x in r'.buckets[c] ensures Fits(r', c, x) {
      LowSame(r, r', c);
      LowSame(r, r', c + 1);
      assert x in r.buckets[c] || (c == b && x == e);
    }
  }

  lemma {:induction false} PutAllFills(r: Rung, es: seq<Event>)
    requires Filled(r) && forall i :: 0 <= i < |es| ==> r.start <= es[i].time
    ensures Filled(PutAll(r, es)) && Flat(PutAll(r, es).buckets) == Flat(r.buckets) + multiset(es)
    decreases |es|
  {
    if es != [] {
      PutFills(r, es[0]);
      PutContents(r, es[0]);
      PutAllFills(Put(r, es[0]), es[1..]);
      assert es == [es[0]] + es[1..];
    }
  }

  /** A rung whose rCur is its start is behind nothing. */
  lemma FilledFromStart(r: Rung)
    requires Filled(r) && r.cur == r.start
    ensures LiveRung(r)
  {
    forall b | 0 <= b < |r.buckets| && r.buckets[b] != [] ensures r.cur <= Low(r, b) {
      LowMono(r, 0, b);
    }
  }

  /** An insert into a live rung, with rCur lowered if necessary, keeps it live. */
  lemma InsertKeepsLive(r: Rung, e: Event)
    requires LiveRung(r) && r.start <= e.time
    ensures var b := Index(r, e.time);
            LiveRung(Lowered(Put(r, e), b)) && Flat(Lowered(Put(r, e), b).buckets) == Flat(r.buckets) + multiset{e}
  {
    var b := Index(r, e.time);
    var p := Put(r, e);
    var r' := Lowered(p, b);
    PutFills(r, e);
    PutContents(r, e);
    LowMono(p, 0, b);
    forall c, x | 0 <= c < |r'.buckets| && x in r'.buckets[c] ensures Fits(r', c, x) {
      LowSame(p, r', c);
      LowSame(p, r', c + 1);
    }
    forall c | 0 <= c < |r'.buckets| && r'.buckets[c] != [] ensures r'.cur <= Low(r', c) {
      LowSame(p, r', c);
      LowSame(r, p, c);
      assert c == b || r.buckets[c] != [];
    }
  }

  ghost predicate Blank(r: Rung) {
    Usable(r) && r.num == 0 && r.cur == r.start && forall b :: 0 <= b < |r.buckets| ==> r.buckets[b] == []
  }

  /** Spreading events over a blank rung gives a live rung that holds exactly them. */
  lemma SpreadIsLive(r: Rung, es: seq<Event>)
    requires Blank(r) && forall i :: 0 <= i < |es| ==> r.start <= es[i].time
    ensures LiveRung(PutAll(r, es)) && Flat(PutAll(r, es).buckets) == multiset(es)
  {
    OccupiedUnique(r.buckets, 0);
    FlatEmpty(r.buckets);
    PutAllFills(r, es);
    FilledFromStart(PutAll(r, es));
  }

  // ----- changing one bucket of a live rung -----

  /** The rung with bucket `b` cut down to `x` and its bookkeeping set to `num` and `cur`. */
  function Trimmed(r: Rung, b: nat, x: seq<Event>, num: nat, cur: nat): Rung
    requires b < |r.buckets|
  {
    r.(buckets := r.buckets[b := x], num := num, cur := cur)
  }

  lemma TrimKeepsLive(r: Rung, b: nat, x: seq<Event>, num: nat, cur: nat)
    requires LiveRung(r) && b < |r.buckets|
    requires forall e :: e in x ==> e in r.buckets[b]
    requires num == Occupied(r.buckets[b := x]) && r.start <= cur
    requires forall c :: 0 <= c < |r.buckets| && r.buckets[b := x][c] != [] ==> cur <= Low(r, c)
    ensures LiveRung(Trimmed(r, b, x, num, cur))
    ensures Flat(Trimmed(r, b, x, num, cur).buckets) + multiset(r.buckets[b]) == Flat(r.buckets) + multiset(x)
  {
    var r' := Trimmed(r, b, x, num, cur);
    FlatUpdate(r.buckets, b, x);
    forall c, e | 0 <= c < |r'.buckets| && e in r'.buckets[c] ensures Fits(r', c, e) {
      LowSame(r, r', c);
      LowSame(r, r', c + 1);
      assert e in r.buckets[c];
    }
    forall c | 0 <= c < |r'.buckets| && r'.buckets[c] != [] ensures r'.cur <= Low(r', c) {
      LowSame(r, r', c);
    }
  }
}
