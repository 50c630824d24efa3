/** Finding the next bucket (recurse_rung), emptying it into Bottom (begin) and dequeue. */
module LadderDequeue {
  import opened Wrappers
  import opened LadderModel
  import opened LadderRungs
  import opened LadderInsert

  /** Result of recurse_rung: the changed queue and a bucket number, possibly INVALID. */
  datatype Search = Search(q: Ladder, b: nat)

  datatype Peek = Peek(q: Ladder, event: Option<Event>)

  function Last(q: Ladder): Rung
    requires 0 < q.nRung <= |q.rungs|
  {
    q.rungs[q.nRung - 1]
  }

  /** The last rung is given up. */
  function PopRung(q: Ladder): Ladder
    requires 0 < q.nRung <= |q.rungs|
  {
    q.(rungs := q.rungs[q.nRung - 1 := Dead(Last(q))], nRung := q.nRung - 1)
  }

  function PopDrained(q: Ladder): Ladder
    requires q.nRung <= |q.rungs|
    decreases q.nRung
  {
    if q.nRung > 0 && Last(q).num == 0 then PopDrained(PopRung(q)) else q
  }

  function FirstBucket(q: Ladder): nat
    requires 0 < q.nRung <= |q.rungs|
  {
    NextFull(Last(q).buckets, 0)
  }

  ghost predicate HasBucket(q: Ladder) {
    0 < q.nRung <= |q.rungs| && FirstBucket(q) < |Last(q).buckets|
  }

  /** rCur of the last rung moves to its first non-empty bucket. */
  function Aim(q: Ladder): Ladder
    requires 0 < q.nRung <= |q.rungs|
  {
    WithRung(q, q.nRung - 1, Last(q).(cur := Low(Last(q), FirstBucket(q))))
  }

  ghost predicate Aimed(q: Ladder) {
    HasBucket(q) && Last(q).cur == Low(Last(q), FirstBucket(q))
  }

  predicate Crowded(q: Ladder)
    requires 0 < q.nRung <= |q.rungs| && FirstBucket(q) < |Last(q).buckets|
  {
    THRESHOLD < |Last(q).buckets[FirstBucket(q)]| && Last(q).width > 1
  }

  /** The rung with its first non-empty bucket taken out. */
  function WithoutFirst(r: Rung): Rung
    requires NextFull(r.buckets, 0) < |r.buckets|
  {
    var b := NextFull(r.buckets, 0);
    var bs := r.buckets[b := []];
    var c := NextFull(bs, b + 1);
    r.(buckets := bs, num := Occupied(bs), cur := if c < |bs| then Low(r, c) else r.start)
  }

  lemma AimedRung(r: Rung)
    requires LiveRung(r) && NextFull(r.buckets, 0) < |r.buckets|
    ensures LiveRung(r.(cur := Low(r, NextFull(r.buckets, 0))))
  {
    var b := NextFull(r.buckets, 0);
    assert r.buckets[b := r.buckets[b]] == r.buckets;
    assert Trimmed(r, b, r.buckets[b], r.num, Low(r, b)) == r.(cur := Low(r, b));
    LowMono(r, 0, b);
    forall c | 0 <= c < |r.buckets| && r.buckets[c] != [] ensures Low(r, b) <= Low(r, c) { LowMono(r, b, c); }
    TrimKeepsLive(r, b, r.buckets[b], r.num, Low(r, b));
  }

  lemma AimKeepsRep(q: Ladder)
    requires Rep(q) && HasBucket(q)
    ensures Rep(Aim(q)) && Aimed(Aim(q))
    ensures FirstBucket(Aim(q)) == FirstBucket(q) && Last(Aim(q)).buckets == Last(q).buckets
    ensures Last(Aim(q)).width == Last(q).width
  {
    var r := Last(q);
    var r' := r.(cur := Low(r, FirstBucket(q)));
    AimedRung(r);
    WithRungRep(q, q.nRung - 1, r');
    LowSame(r, r', FirstBucket(q));
  }

  lemma AimContents(q: Ladder)
    requires 0 < q.nRung <= |q.rungs|
    ensures Contents(Aim(q)) == Contents(q)
  {
    var f := Flat(Last(q).buckets);
    assert Contents(Aim(q)) + f == Contents(q) + f by { WithRungContents(q, q.nRung - 1, Last(Aim(q))); }
    CancelSum(Contents(Aim(q)), Contents(q), f);
  }

  lemma WithoutFirstKeepsLive(r: Rung)
    requires LiveRung(r) && NextFull(r.buckets, 0) < |r.buckets|
    ensures LiveRung(WithoutFirst(r)) && WithoutFirst(r).start == r.start && WithoutFirst(r).width == r.width
    ensures Flat(WithoutFirst(r).buckets) + multiset(r.buckets[NextFull(r.buckets, 0)]) == Flat(r.buckets)
  {
    var r' := WithoutFirst(r);
    var b := NextFull(r.buckets, 0);
    var c := NextFull(r'.buckets, b + 1);
    LowMono(r, 0, c);
    forall d | 0 <= d < |r.buckets| && r'.buckets[d] != [] ensures r'.cur <= Low(r, d) {
      assert d >= c;
      LowMono(r, c, d);
    }
    TrimKeepsLive(r, b, [], r'.num, r'.cur);
    assert Trimmed(r, b, [], r'.num, r'.cur) == r';
  }

  // ----- spawning a finer rung -----

  function ChildWidth(w: nat, n: nat): nat
    requires n > 0
  {
    (w + n - 1) / n
  }

  lemma ChildNarrower(w: nat, n: nat)
    requires w > 1 && n > 1
    ensures 0 < ChildWidth(w, n) < w
  {
    var x, rest := Quotient(w + n - 1, n);
    MulOrder(0, x, n);
    assert x > 0;
    assert w * n == (w - 1) * n + n;
    MulOrder(n, 2, w - 1);
    MulOrder(w - 1, 1, n - 1);
    assert w + n - 1 < w * n;
    QuotientLess(x, w + n - 1, n, w);
  }

  function BlankChild(q: Ladder): Rung
    requires HasBucket(q) && q.nRung < |q.rungs| && Last(q).buckets[FirstBucket(q)] != []
  {
    var width := ChildWidth(Last(q).width, |Last(q).buckets[FirstBucket(q)]|);
    Rung(q.rungs[q.nRung].buckets, width, 0, Last(q).cur, Last(q).cur)
  }

  ghost predicate Spawns(q: Ladder) {
    Rep(q) && Aimed(q) && Crowded(q) && q.nRung < MAX_RUNG_NUM
  }

  lemma ChildIsBlank(q: Ladder)
    requires Spawns(q)
    ensures Blank(BlankChild(q)) && BlankChild(q).width < Last(q).width
    ensures var es := Last(q).buckets[FirstBucket(q)];
            forall i :: 0 <= i < |es| ==> BlankChild(q).start <= es[i].time
  {
    var es := Last(q).buckets[FirstBucket(q)];
    ChildNarrower(Last(q).width, |es|);
    forall i | 0 <= i < |es| ensures BlankChild(q).start <= es[i].time {
      assert Fits(Last(q), FirstBucket(q), es[i]);
    }
  }

  function Child(q: Ladder): Rung
    requires Spawns(q)
  {
    ChildIsBlank(q);
    PutAll(BlankChild(q), Last(q).buckets[FirstBucket(q)])
  }

  function Spawn(q: Ladder): Ladder
    requires Spawns(q)
  {
    AddRung(WithRung(q, q.nRung - 1, WithoutFirst(Last(q))), Child(q))
  }

  lemma NonEmptyFlat(bs: seq<seq<Event>>)
    requires Flat(bs) != multiset{}
    ensures NextFull(bs, 0) < |bs|
  {
    if NextFull(bs, 0) == |bs| { FlatEmpty(bs); }
  }

  lemma SpawnParts(q: Ladder)
    requires Spawns(q)
    ensures var es, child, parent := Last(q).buckets[FirstBucket(q)], Child(q), WithoutFirst(Last(q));
            && Last(Spawn(q)) == child && HasBucket(Spawn(q))
            && LiveRung(child) && Flat(child.buckets) == multiset(es) && |child.buckets| == MAX_BUCKET_NUM
            && LiveRung(parent) && Flat(parent.buckets) + multiset(es) == Flat(Last(q).buckets)
  {
    var es := Last(q).buckets[FirstBucket(q)];
    ChildIsBlank(q);
    SpreadIsLive(BlankChild(q), es);
    WithoutFirstKeepsLive(Last(q));
    assert es[0] in multiset(es);
    NonEmptyFlat(Child(q).buckets);
  }

  lemma SubFlatBelow(r: Rung, r': Rung, limit: nat)
    requires Below(r, limit) && Flat(r'.buckets) <= Flat(r.buckets)
    ensures Below(r', limit)
  {
    FlatBelow(r, limit);
    FlatBelow(r', limit);
  }

  lemma SpawnKeepsRep(q: Ladder)
    requires Spawns(q)
    ensures Rep(Spawn(q)) && HasBucket(Spawn(q))
  {
    TrimmedParentRep(q);
    SpawnParts(q);
    SubFlatBelow(Last(q), Child(q), q.topStart);
    AddRungRep(WithRung(q, q.nRung - 1, WithoutFirst(Last(q))), Child(q));
  }

  /** The last rung without its first bucket. */
  lemma TrimmedParentRep(q: Ladder)
    requires Rep(q) && HasBucket(q)
    ensures Rep(WithRung(q, q.nRung - 1, WithoutFirst(Last(q))))
  {
    var r := WithoutFirst(Last(q));
    assert LiveRung(r) && r.start == Last(q).start && r.width == Last(q).width by { WithoutFirstKeepsLive(Last(q)); }
    WithoutFirstBelow(Last(q), q.topStart);
    WithRungRep(q, q.nRung - 1, r);
  }

  lemma WithoutFirstBelow(r: Rung, limit: nat)
    requires Below(r, limit) && NextFull(r.buckets, 0) < |r.buckets|
    ensures Below(WithoutFirst(r), limit)
  {
  }

  /** The rung after a spawn is narrower and has an event. */
  lemma SpawnSteps(q: Ladder)
    requires Spawns(q)
    ensures Rep(Spawn(q)) && HasBucket(Spawn(q)) && Last(Spawn(q)).width < Last(q).width
  {
    SpawnKeepsRep(q);
    SpawnParts(q);
    ChildIsBlank(q);
  }

  lemma AddRungContents(q: Ladder, r: Rung)
    requires q.nRung < |q.rungs| && DeadRung(q.rungs[q.nRung])
    ensures Contents(AddRung(q, r)) == Contents(q) + Flat(r.buckets)
  {
    WithRungContents(q, q.nRung, r);
    FlatEmpty(q.rungs[q.nRung].buckets);
    assert Contents(AddRung(q, r)) == Contents(WithRung(q, q.nRung, r));
  }

  lemma SpawnContents(q: Ladder)
    requires Spawns(q)
    ensures Contents(Spawn(q)) == Contents(q)
  {
    var mid := WithRung(q, q.nRung - 1, WithoutFirst(Last(q)));
    var es := multiset(Last(q).buckets[FirstBucket(q)]);
    var f := Flat(WithoutFirst(Last(q)).buckets);
    SpawnParts(q);
    WithRungContents(q, q.nRung - 1, WithoutFirst(Last(q)));
    AddRungContents(mid, Child(q));
    assert Contents(mid) + (f + es) == (Contents(mid) + es) + f;
    CancelSum(Contents(mid) + es, Contents(q), f);
  }

  // ----- giving up a rung -----

  lemma PopContents(q: Ladder)
    requires 0 < q.nRung <= |q.rungs|
    ensures Contents(PopRung(q)) == Contents(q)
  {
    WithRungContents(q, q.nRung - 1, Dead(Last(q)));
    CancelSum(Contents(WithRung(q, q.nRung - 1, Dead(Last(q)))), Contents(q), Flat(Last(q).buckets));
    assert Contents(PopRung(q)) == Contents(WithRung(q, q.nRung - 1, Dead(Last(q))));
  }

  lemma PopKeepsRep(q: Ladder)
    requires Rep(q) && q.nRung > 0 && FirstBucket(q) == |Last(q).buckets|
    ensures Rep(PopRung(q))
  {
  }

  /** The termination argument: drained rungs are popped first, then rungs only get narrower. */
  function Drained(q: Ladder): nat
    requires q.nRung <= |q.rungs|
  {
    if q.nRung > 0 && FirstBucket(q) == |Last(q).buckets| then q.nRung else 0
  }

  function RecurseRung(q: Ladder): (s: Search)
    requires Rep(q)
    decreases Drained(q), if q.nRung > 0 then Last(q).width else 0
  {
    if q.nRung == 0 then Search(q, INVALID)
    else if FirstBucket(q) == |Last(q).buckets| then
      PopKeepsRep(q);
      RecurseRung(PopRung(q))
    else
      AimKeepsRep(q);
      var q' := Aim(q);
      if !Crowded(q') then Search(q', FirstBucket(q'))
      else if q'.nRung >= MAX_RUNG_NUM then Search(q', INVALID)
      else
        SpawnSteps(q');
        RecurseRung(Spawn(q'))
  }

  lemma BucketWithin(r: Rung, b: nat, limit: nat)
    requires Usable(r) && Addressable(r, limit) && Low(r, b) <= limit
    ensures b < INVALID
  {
    LowIs(r, b);
    var x, rest := Quotient(limit - r.start, r.width);
    assert (x + 1) * r.width == x * r.width + r.width;
    QuotientLess(b, b * r.width, r.width, x + 1);
  }

  /** Bucket numbers in use never collide with the marker INVALID. */
  lemma BucketNumberValid(q: Ladder)
    requires Rep(q) && HasBucket(q)
    ensures FirstBucket(q) < INVALID
  {
    var r, b := Last(q), FirstBucket(q);
    if q.nRung == 1 {
      var e := r.buckets[b][0];
      assert Fits(r, b, e) && e.time <= q.topStart;
      BucketWithin(r, b, q.topStart);
    }
  }

  /** Only the rungs differ. */
  predicate SameOutside(q: Ladder, q': Ladder) {
    q' == q.(rungs := q'.rungs, nRung := q'.nRung)
  }

  /** The rung limit is reached by a bucket that would have to be split. */
  ghost predicate Overflowing(q: Ladder) {
    HasBucket(q) && Crowded(q) && q.nRung == MAX_RUNG_NUM
  }

  /** What recurse_rung hands back: the first non-empty bucket of the last non-empty rung, small enough
      or impossible to split; or nothing, with no rung left or with all eight rungs in use. */
  ghost predicate Found(s: Search) {
    if s.b == INVALID then s.q.nRung == 0 || (Aimed(s.q) && Overflowing(s.q))
    else Aimed(s.q) && s.b == FirstBucket(s.q) && !Crowded(s.q)
  }

  lemma {:induction false} RecurseFacts(q: Ladder)
    requires Rep(q)
    ensures var s := RecurseRung(q);
            Rep(s.q) && SameOutside(q, s.q) && Found(s)
    decreases Drained(q), if q.nRung > 0 then Last(q).width else 0
  {
    if q.nRung > 0 {
      if FirstBucket(q) == |Last(q).buckets| {
        PopKeepsRep(q);
        RecurseFacts(PopRung(q));
      } else {
        var q' := Aim(q);
        AimKeepsRep(q);
        BucketNumberValid(q');
        if Crowded(q') && q'.nRung < MAX_RUNG_NUM {
          SpawnSteps(q');
          RecurseFacts(Spawn(q'));
        }
      }
    }
  }

  /** recurse_rung loses nothing. */
  lemma {:induction false} RecurseContents(q: Ladder)
    requires Rep(q)
    ensures Contents(RecurseRung(q).q) == Contents(q)
    decreases Drained(q), if q.nRung > 0 then Last(q).width else 0
  {
    if q.nRung > 0 {
      if FirstBucket(q) == |Last(q).buckets| {
        PopKeepsRep(q);
        PopContents(q);
        RecurseContents(PopRung(q));
      } else {
        var q' := Aim(q);
        AimKeepsRep(q);
        AimContents(q);
        if Crowded(q') && q'.nRung < MAX_RUNG_NUM {
          SpawnSteps(q');
          SpawnContents(q');
          RecurseContents(Spawn(q'));
        }
      }
    }
  }

  // ----- begin -----

  datatype Poured = Poured(q: Ladder, ok: bool)

  function Emptied(q: Ladder, b: nat): Ladder
    requires 0 < q.nRung <= |q.rungs| && b < |Last(q).buckets|
  {
    WithRung(q, q.nRung - 1, Last(q).(buckets := Last(q).buckets[b := []]))
      .(bottom := BottomInsertAll(q.bottom, Last(q).buckets[b]))
  }

  /** Bucket `b` of the last rung goes to Bottom. When it was the last occupied one its rung goes, and
      with `deep` also the drained rungs above; otherwise rCur moves to the next non-empty bucket. The
      branch with `ok` false is the one the source reports as "needs improvement". */
  function Pour(q: Ladder, b: nat, deep: bool): Poured
    requires 0 < q.nRung <= |q.rungs| && b < |Last(q).buckets|
  {
    var q' := Emptied(q, b);
    var r := Last(q');
    if r.num == b + 1 then
      Poured(if deep then PopDrained(PopRung(q')) else PopRung(q'), true)
    else
      var c := NextFull(r.buckets, b + 1);
      if c < r.num then Poured(WithRung(q', q.nRung - 1, r.(cur := Low(r, c))), true)
      else Poured(PopRung(q'), false)
  }

  /** create_new_rung for the first rung, and the transfer of Top into it. */
  function TopWidth(q: Ladder): nat
    requires q.top != [] && q.minTS <= q.maxTS
  {
    if q.minTS == q.maxTS then 1 else (q.maxTS - q.minTS + |q.top| - 1) / |q.top|
  }

  function FirstRung(q: Ladder): Rung
    requires q.top != [] && q.minTS <= q.maxTS && |q.rungs| > 0
  {
    Rung(Extended(q.rungs[0].buckets, 2 * |q.top|), TopWidth(q), 0, q.minTS, q.minTS)
  }

  lemma TopWidthPositive(q: Ladder)
    requires Rep(q) && q.top != []
    ensures q.minTS <= q.maxTS && TopWidth(q) > 0
    ensures (q.maxTS - q.minTS) / TopWidth(q) <= |q.top|
  {
    assert q.top[0] in q.top;
    var d, n := q.maxTS - q.minTS, |q.top|;
    if d > 0 {
      var x, rest := Quotient(d + n - 1, n);
      MulOrder(0, x, n);
      assert d < n * x + x by { assert x > 0; }
      assert (n + 1) * x == n * x + x;
      DivLess(d, x, n + 1);
    }
  }

  function LoadTop(q: Ladder): Ladder
    requires Rep(q) && q.nRung == 0 && q.top != []
  {
    TopWidthPositive(q);
    assert forall i :: 0 <= i < |q.top| ==> q.top[i] in q.top;
    q.(topStart := q.maxTS, rungs := q.rungs[0 := PutAll(FirstRung(q), q.top)], nRung := 1, top := [])
  }

  function Front(s: seq<Event>): Option<Event> {
    if s == [] then None else Some(s[0])
  }

  /** The part of begin that starts from Top. */
  function BeginFromTop(q: Ladder): Peek
    requires Rep(q) && q.nRung == 0 && q.top != [] && Rep(LoadTop(q))
  {
    var s := RecurseRung(LoadTop(q));
    RecurseFacts(LoadTop(q));
    if s.b == INVALID then Peek(s.q, None)
    else
      var p := Pour(s.q, s.b, false);
      Peek(p.q, Front(p.q.bottom))
  }

  lemma FirstRungBlank(q: Ladder)
    requires Rep(q) && q.nRung == 0 && q.top != [] && |q.top| < INVALID
    ensures q.minTS <= q.maxTS && Blank(FirstRung(q)) && Addressable(FirstRung(q), q.maxTS)
    ensures forall i :: 0 <= i < |q.top| ==> FirstRung(q).start <= q.top[i].time
  {
    TopWidthPositive(q);
    assert forall i :: 0 <= i < |q.top| ==> q.top[i] in q.top;
  }

  lemma SpreadHolds(r: Rung, es: seq<Event>, limit: nat)
    requires es != [] && Flat(r.buckets) == multiset(es) && forall e :: e in es ==> e.time <= limit
    ensures Below(r, limit) && NextFull(r.buckets, 0) < |r.buckets|
  {
    assert es[0] in multiset(es);
    NonEmptyFlat(r.buckets);
    forall e | e in Flat(r.buckets) ensures e.time <= limit { assert e in es; }
    FlatBelow(r, limit);
  }

  lemma LoadedRung(q: Ladder)
    requires Rep(q) && q.nRung == 0 && q.top != [] && |q.top| < INVALID
    ensures var r := LoadTop(q).rungs[0];
            && LiveRung(r) && Flat(r.buckets) == multiset(q.top) && Below(r, q.maxTS) && Addressable(r, q.maxTS)
            && NextFull(r.buckets, 0) < |r.buckets|
  {
    var r := LoadTop(q).rungs[0];
    FirstRungBlank(q);
    SpreadIsLive(FirstRung(q), q.top);
    SpreadHolds(r, q.top, q.maxTS);
  }

  lemma LoadTopContents(q: Ladder)
    requires Rep(q) && q.nRung == 0 && q.top != [] && |q.top| < INVALID
    ensures Contents(LoadTop(q)) == Contents(q)
  {
    LoadedRung(q);
    FlatEmpty(q.rungs[0].buckets);
    RungContentsUpdate(q.rungs, 0, LoadTop(q).rungs[0]);
    assert RungContents(LoadTop(q).rungs) == RungContents(q.rungs) + multiset(q.top);
  }

  lemma LoadTopKeepsRep(q: Ladder)
    requires Rep(q) && q.nRung == 0 && q.top != [] && q.bottom == [] && |q.top| < INVALID
    ensures Rep(LoadTop(q)) && HasBucket(LoadTop(q))
  {
    LoadedRung(q);
  }

  function Begin(q: Ladder): Peek
    requires Rep(q) && |q.top| < INVALID
  {
    if q.bottom != [] then Peek(q, Some(q.bottom[0]))
    else
      RecurseFacts(q);
      var s := if q.nRung > 0 then RecurseRung(q) else Search(q, 0);
      if q.nRung > 0 && s.b == INVALID && s.q.nRung > 0 then Peek(s.q, None)
      else if s.q.nRung > 0 then
        var p := Pour(s.q, s.b, true);
        Peek(p.q, if p.ok then Front(p.q.bottom) else None)
      else if s.q.top == [] then Peek(s.q, None)
      else
        LoadTopKeepsRep(s.q);
        BeginFromTop(s.q)
  }

  function Dequeue(q: Ladder): Peek
    requires Rep(q) && |q.top| < INVALID
  {
    var p := Begin(q);
    if p.event.Some? && p.q.bottom != [] then Peek(p.q.(bottom := p.q.bottom[1..]), p.event) else p
  }

  // ----- begin keeps the representation and loses nothing -----

  lemma {:induction false} BottomInsertAllFacts(s: seq<Event>, es: seq<Event>)
    requires BottomSorted(s)
    ensures BottomSorted(BottomInsertAll(s, es)) && multiset(BottomInsertAll(s, es)) == multiset(s) + multiset(es)
    decreases |es|
  {
    if es != [] {
      BottomInsertAdds(s, es[0]);
      BottomInsertSorts(s, es[0]);
      BottomInsertAllFacts(BottomInsert(s, es[0]), es[1..]);
      assert es == [es[0]] + es[1..];
    }
  }

  lemma {:induction false} PopDrainedFacts(q: Ladder)
    requires Rep(q)
    ensures var q' := PopDrained(q);
            Rep(q') && SameOutside(q, q') && Contents(q') == Contents(q) && q'.nRung <= q.nRung
    decreases q.nRung
  {
    if q.nRung > 0 && Last(q).num == 0 {
      OccupiedZero(Last(q).buckets);
      PopKeepsRep(q);
      PopContents(q);
      PopDrainedFacts(PopRung(q));
    }
  }

  lemma EmptiedContents(q: Ladder, b: nat)
    requires 0 < q.nRung <= |q.rungs| && b < |Last(q).buckets| && BottomSorted(q.bottom)
    ensures Contents(Emptied(q, b)) == Contents(q)
  {
    var r, es := Last(q), Last(q).buckets[b];
    var r' := r.(buckets := r.buckets[b := []]);
    var rungs := q.rungs[q.nRung - 1 := r'];
    BottomInsertAllFacts(q.bottom, es);
    FlatUpdate(r.buckets, b, []);
    RungContentsUpdate(q.rungs, q.nRung - 1, r');
    Transposed(RungContents(rungs), RungContents(q.rungs), Flat(r'.buckets), Flat(r.buckets), multiset(es));
    MoveToBottom(multiset(q.top), RungContents(rungs), multiset(es), multiset(q.bottom));
  }

  lemma Transposed(a: multiset<Event>, b: multiset<Event>, f: multiset<Event>, g: multiset<Event>, es: multiset<Event>)
    requires f + es == g + multiset{} && a + g == b + f
    ensures a + es == b
  {
    assert g == f + es;
    assert a + (f + es) == (a + es) + f;
    CancelSum(a + es, b, f);
  }

  lemma MoveToBottom(top: multiset<Event>, rungs: multiset<Event>, es: multiset<Event>, bottom: multiset<Event>)
    ensures top + rungs + (bottom + es) == top + (rungs + es) + bottom
  {
  }

  lemma BottomTimes(q: Ladder, b: nat)
    requires Rep(q) && q.nRung > 0 && b < |Last(q).buckets|
    ensures BottomSorted(Emptied(q, b).bottom)
    ensures forall e :: e in Emptied(q, b).bottom ==> e.time <= q.topStart
    ensures multiset(Emptied(q, b).bottom) == multiset(q.bottom) + multiset(Last(q).buckets[b])
  {
    var es, s := Last(q).buckets[b], Emptied(q, b).bottom;
    BottomInsertAllFacts(q.bottom, es);
    forall e | e in s ensures e.time <= q.topStart {
      assert e in multiset(s);
      assert e in q.bottom || e in es;
    }
  }

  /** A rung with more than its first bucket occupied, after that bucket is emptied and rCur moved on. */
  lemma TrimIsWithoutFirst(r: Rung)
    requires LiveRung(r) && NextFull(r.buckets, 0) < |r.buckets| && r.num != NextFull(r.buckets, 0) + 1
    ensures var b := NextFull(r.buckets, 0);
            var e := r.(buckets := r.buckets[b := []]);
            var c := NextFull(e.buckets, b + 1);
            c < e.num && e.(cur := Low(e, c)) == WithoutFirst(r)
  {
    var b := NextFull(r.buckets, 0);
    var e := r.(buckets := r.buckets[b := []]);
    assert r.num > b + 1 && e.buckets[r.num - 1] != [];
    OccupiedUnique(e.buckets, r.num);
    LowSame(r, e, NextFull(e.buckets, b + 1));
  }

  /** If only the first bucket was occupied, the others are empty. */
  lemma LastBucket(r: Rung)
    requires LiveRung(r) && NextFull(r.buckets, 0) < |r.buckets| && r.num == NextFull(r.buckets, 0) + 1
    ensures forall c :: 0 <= c < |r.buckets| && c != NextFull(r.buckets, 0) ==> r.buckets[c] == []
  {
  }

  lemma PourTrims(q: Ladder, deep: bool)
    requires Rep(q) && Aimed(q) && Last(q).num != FirstBucket(q) + 1
    ensures var b := FirstBucket(q);
            Pour(q, b, deep) ==
              Poured(WithRung(q, q.nRung - 1, WithoutFirst(Last(q))).(bottom := Emptied(q, b).bottom), true)
  {
    var r, b, k := Last(q), FirstBucket(q), q.nRung - 1;
    var e := r.(buckets := r.buckets[b := []]);
    TrimIsWithoutFirst(r);
    assert Last(Emptied(q, b)) == e;
    assert q.rungs[k := e][k := WithoutFirst(r)] == q.rungs[k := WithoutFirst(r)];
  }

  /** The two ways begin leaves the rung it took a bucket from. */
  lemma PourCases(q: Ladder, deep: bool)
    requires Rep(q) && Aimed(q)
    ensures var b := FirstBucket(q);
            var p := Pour(q, b, deep);
            && p.ok
            && p.q == (if Last(q).num == b + 1
                       then (if deep then PopDrained(PopRung(Emptied(q, b))) else PopRung(Emptied(q, b)))
                       else WithRung(q, q.nRung - 1, WithoutFirst(Last(q))).(bottom := Emptied(q, b).bottom))
            && (Last(q).num == b + 1 ==> forall c :: 0 <= c < |Last(q).buckets| && c != b ==> Last(q).buckets[c] == [])
  {
    if Last(q).num == FirstBucket(q) + 1 { LastBucket(Last(q)); } else { PourTrims(q, deep); }
  }

  lemma PopEmptiedRep(q: Ladder)
    requires Rep(q) && Aimed(q) && Last(q).num == FirstBucket(q) + 1
    ensures Rep(PopRung(Emptied(q, FirstBucket(q))))
  {
    PourCases(q, false);
    BottomTimes(q, FirstBucket(q));
  }

  lemma TrimmedRep(q: Ladder)
    requires Rep(q) && Aimed(q)
    ensures Rep(WithRung(q, q.nRung - 1, WithoutFirst(Last(q))).(bottom := Emptied(q, FirstBucket(q)).bottom))
  {
    TrimmedParentRep(q);
    BottomTimes(q, FirstBucket(q));
  }

  /** Bottom is refilled from the bucket and nothing is lost; in particular the "needs improvement"
      branch is unreachable. */
  lemma PourFacts(q: Ladder, deep: bool)
    requires Rep(q) && Aimed(q)
    ensures var p := Pour(q, FirstBucket(q), deep);
            && p.ok && Rep(p.q) && p.q.bottom == Emptied(q, FirstBucket(q)).bottom && p.q.bottom != []
            && p.q.top == q.top && p.q.topStart == q.topStart
  {
    var b := FirstBucket(q);
    PourCases(q, deep);
    BottomTimes(q, b);
    assert Last(q).buckets[b][0] in multiset(Emptied(q, b).bottom);
    if Last(q).num == b + 1 {
      PopEmptiedRep(q);
      PopDrainedFacts(PopRung(Emptied(q, b)));
    } else {
      TrimmedRep(q);
    }
  }

  lemma TrimContents(q: Ladder, b: nat)
    requires 0 < q.nRung <= |q.rungs| && b == FirstBucket(q) < |Last(q).buckets|
    ensures var w := WithRung(q, q.nRung - 1, WithoutFirst(Last(q))).(bottom := Emptied(q, b).bottom);
            Contents(w) == Contents(Emptied(q, b))
  {
    var k, r := q.nRung - 1, WithoutFirst(Last(q));
    var e, w := Emptied(q, b), WithRung(q, k, r).(bottom := Emptied(q, b).bottom);
    assert WithRung(e, k, r) == w by { assert e.rungs[k := r] == w.rungs; }
    assert e.rungs[k].buckets == r.buckets;
    WithRungContents(e, k, r);
    CancelSum(Contents(w), Contents(e), Flat(r.buckets));
  }

  lemma PourContents(q: Ladder, deep: bool)
    requires Rep(q) && Aimed(q)
    ensures Contents(Pour(q, FirstBucket(q), deep).q) == Contents(q)
  {
    var b := FirstBucket(q);
    PourCases(q, deep);
    EmptiedContents(q, b);
    if Last(q).num == b + 1 {
      PopEmptiedRep(q);
      PopContents(Emptied(q, b));
      PopDrainedFacts(PopRung(Emptied(q, b)));
    } else {
      TrimContents(q, b);
    }
  }

  /** begin never loses or duplicates an event, keeps the representation, and if it returns nothing then
      the queue is empty or all eight rungs are in use. What it returns is the head of Bottom. */
  lemma BeginFacts(q: Ladder)
    requires Rep(q) && |q.top| < INVALID
    ensures var p := Begin(q);
            && Rep(p.q) && Contents(p.q) == Contents(q)
            && (p.event.Some? ==> p.q.bottom != [] && p.event == Some(p.q.bottom[0]))
            && (p.event.None? ==> Contents(q) == multiset{} || Overflowing(p.q))
  {
    if q.bottom == [] {
      RecurseFacts(q);
      RecurseContents(q);
      var s := if q.nRung > 0 then RecurseRung(q) else Search(q, 0);
      if s.q.nRung > 0 {
        if s.b != INVALID {
          PourFacts(s.q, true);
          PourContents(s.q, true);
        }
      } else if s.q.top != [] {
        LoadTopKeepsRep(s.q);
        BeginFromTopFacts(s.q);
      } else {
        NoRungsNoContents(s.q.rungs);
      }
    }
  }

  lemma BeginFromTopFacts(q: Ladder)
    requires Rep(q) && q.nRung == 0 && q.top != [] && q.bottom == [] && |q.top| < INVALID && Rep(LoadTop(q))
    ensures var p := BeginFromTop(q);
            && Rep(p.q) && Contents(p.q) == Contents(q)
            && (p.event.Some? ==> p.q.bottom != [] && p.event == Some(p.q.bottom[0]))
            && (p.event.None? ==> Overflowing(p.q))
  {
    LoadTopContents(q);
    LoadTopKeepsRep(q);
    RecurseFacts(LoadTop(q));
    RecurseContents(LoadTop(q));
    RecurseNotEmpty(LoadTop(q));
    var s := RecurseRung(LoadTop(q));
    if s.b != INVALID {
      PourFacts(s.q, false);
      PourContents(s.q, false);
    }
  }

  /** A rung with an event never gets popped by recurse_rung. */
  lemma {:induction false} RecurseNotEmpty(q: Ladder)
    requires Rep(q) && HasBucket(q)
    ensures RecurseRung(q).q.nRung > 0
    decreases Last(q).width
  {
    var q' := Aim(q);
    AimKeepsRep(q);
    if Crowded(q') && q'.nRung < MAX_RUNG_NUM {
      SpawnSteps(q');
      RecurseNotEmpty(Spawn(q'));
    }
  }

  lemma {:induction false} NoRungsNoContents(rungs: seq<Rung>)
    requires forall k :: 0 <= k < |rungs| ==> DeadRung(rungs[k])
    ensures RungContents(rungs) == multiset{}
  {
    if rungs != [] {
      FlatEmpty(rungs[|rungs| - 1].buckets);
      NoRungsNoContents(rungs[..|rungs| - 1]);
    }
  }

  lemma DropHead(q: Ladder)
    requires Rep(q) && q.bottom != []
    ensures Rep(q.(bottom := q.bottom[1..]))
    ensures Contents(q) == Contents(q.(bottom := q.bottom[1..])) + multiset{q.bottom[0]}
  {
    var s := q.bottom;
    assert s == [s[0]] + s[1..];
    assert multiset(s) == multiset{s[0]} + multiset(s[1..]);
  }

  /** dequeue removes exactly the event it returns. */
  lemma DequeueFacts(q: Ladder)
    requires Rep(q) && |q.top| < INVALID
    ensures var p := Dequeue(q);
            && Rep(p.q)
            && (p.event.Some? ==> Contents(q) == Contents(p.q) + multiset{p.event.value})
            && (p.event.None? ==> Contents(p.q) == Contents(q) && (Contents(q) == multiset{} || Overflowing(p.q)))
  {
    BeginFacts(q);
    if Begin(q).event.Some? { DropHead(Begin(q).q); }
  }
}
