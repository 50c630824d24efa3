/** LadderQueueStrict on values: Top, up to eight rungs of buckets and a sorted Bottom.

    Times are non-negative 32-bit integers, so the source's unsigned arithmetic never wraps and is
    written here with natural numbers. */
module LadderModel {

  const MAX_RUNG_NUM := 8
  const THRESHOLD := 50
  const MAX_BUCKET_NUM := THRESHOLD
  const INVALID := 0xFFFF
  const MAX_TIME := 0x7FFF_FFFF

  type Time = t: nat | t <= MAX_TIME

  /** An event is identified by what the queue orders it by. */
  datatype Event = Event(time: Time, id: nat, sender: nat)

  /** receiveTimeLessThanEventIdLessThan. */
  predicate Less(a: Event, b: Event) {
    if a.time != b.time then a.time < b.time
    else if a.id != b.id then a.id < b.id
    else a.sender < b.sender
  }

  /** A total order: time, then id, then sender. */
  lemma LessIsLexicographic(a: Event, b: Event)
    ensures Less(a, b) <==> a.time < b.time
                            || (a.time == b.time && (a.id < b.id || (a.id == b.id && a.sender < b.sender)))
    ensures !Less(a, b) && !Less(b, a) <==> a == b
  {
  }

  /** `width`, `num`, `start`, `cur` are bucketWidth, numBucket, rStart and rCur of this rung. */
  datatype Rung = Rung(buckets: seq<seq<Event>>, width: nat, num: nat, start: nat, cur: nat)

  datatype Ladder = Ladder(
    top: seq<Event>, maxTS: nat, minTS: nat, topStart: nat,
    rungs: seq<Rung>, nRung: nat,
    bottom: seq<Event>)

  function Empties(n: nat): (bs: seq<seq<Event>>)
    ensures |bs| == n && forall b :: 0 <= b < n ==> bs[b] == []
  {
    seq(n, _ => [])
  }

  function NewRungs(): (rs: seq<Rung>)
    ensures |rs| == MAX_RUNG_NUM
    ensures forall k :: 0 <= k < MAX_RUNG_NUM ==>
              rs[k] == Rung(Empties(if k == 0 then 0 else MAX_BUCKET_NUM), 0, 0, 0, 0)
  {
    seq(MAX_RUNG_NUM, k => Rung(Empties(if k == 0 then 0 else MAX_BUCKET_NUM), 0, 0, 0, 0))
  }

  function NewLadder(): Ladder {
    Ladder([], 0, 0, 0, NewRungs(), 0, [])
  }

  // ----- buckets of one rung -----

  /** Lower edge of bucket `b`: start + b * width. */
  function Low(r: Rung, b: nat): nat {
    if b == 0 then r.start else Low(r, b - 1) + r.width
  }

  predicate Usable(r: Rung) {
    r.width > 0 && |r.buckets| > 0
  }

  function Index(r: Rung, t: nat): (b: nat)
    requires Usable(r) && r.start <= t
    ensures b < |r.buckets|
  {
    var b := (t - r.start) / r.width;
    if b < |r.buckets| - 1 then b else |r.buckets| - 1
  }

  function Put(r: Rung, e: Event): Rung
    requires Usable(r) && r.start <= e.time
  {
    var b := Index(r, e.time);
    r.(buckets := r.buckets[b := [e] + r.buckets[b]], num := if r.num < b + 1 then b + 1 else r.num)
  }

  function PutAll(r: Rung, es: seq<Event>): (r': Rung)
    requires Usable(r) && forall i :: 0 <= i < |es| ==> r.start <= es[i].time
    ensures r'.start == r.start && r'.width == r.width && r'.cur == r.cur && |r'.buckets| == |r.buckets|
    decreases |es|
  {
    if es == [] then r else PutAll(Put(r, es[0]), es[1..])
  }

  /** First non-empty bucket from `b` on; the number of buckets if there is none. */
  function NextFull(bs: seq<seq<Event>>, b: nat): (c: nat)
    requires b <= |bs|
    ensures b <= c <= |bs|
    ensures forall i :: b <= i < c ==> bs[i] == []
    ensures c < |bs| ==> bs[c] != []
    decreases |bs| - b
  {
    if b == |bs| || bs[b] != [] then b else NextFull(bs, b + 1)
  }

  /** One past the last non-empty bucket. */
  function Occupied(bs: seq<seq<Event>>): (n: nat)
    ensures n <= |bs|
    ensures forall i :: n <= i < |bs| ==> bs[i] == []
    ensures n > 0 ==> bs[n - 1] != []
  {
    if bs == [] then 0 else if bs[|bs| - 1] != [] then |bs| else Occupied(bs[..|bs| - 1])
  }

  function Dead(r: Rung): Rung {
    r.(width := 0, num := 0, start := 0, cur := 0)
  }

  function Lowered(r: Rung, b: nat): Rung {
    if r.cur > Low(r, b) then r.(cur := Low(r, b)) else r
  }

  // ----- bottom: a sorted sequence for the multiset ordered by Less -----

  function BottomInsert(s: seq<Event>, e: Event): seq<Event> {
    if s == [] || Less(e, s[0]) then [e] + s else [s[0]] + BottomInsert(s[1..], e)
  }

  function BottomInsertAll(s: seq<Event>, es: seq<Event>): seq<Event>
    decreases |es|
  {
    if es == [] then s else BottomInsertAll(BottomInsert(s, es[0]), es[1..])
  }

  /** Removal of one list element, if present. */
  function ListErase(s: seq<Event>, e: Event): seq<Event> {
    if s == [] then [] else if s[0] == e then s[1..] else [s[0]] + ListErase(s[1..], e)
  }

  /** multiset::erase(key): every element with that key. */
  function BottomErase(s: seq<Event>, e: Event): seq<Event> {
    if s == [] then [] else if s[0] == e then BottomErase(s[1..], e) else [s[0]] + BottomErase(s[1..], e)
  }

  // ----- contents -----

  ghost function Flat(bs: seq<seq<Event>>): multiset<Event> {
    if bs == [] then multiset{} else Flat(bs[..|bs| - 1]) + multiset(bs[|bs| - 1])
  }

  ghost function RungContents(rungs: seq<Rung>): multiset<Event> {
    if rungs == [] then multiset{} else RungContents(rungs[..|rungs| - 1]) + Flat(rungs[|rungs| - 1].buckets)
  }

  ghost function Contents(q: Ladder): multiset<Event> {
    multiset(q.top) + RungContents(q.rungs) + multiset(q.bottom)
  }

  // ----- representation invariant -----

  /** Where an event of bucket `b` may lie; the last bucket takes everything beyond. */
  predicate Fits(r: Rung, b: nat, e: Event) {
    Low(r, b) <= e.time && (b + 1 < |r.buckets| ==> e.time < Low(r, b + 1))
  }

  ghost predicate Placed(r: Rung) {
    forall b, e :: 0 <= b < |r.buckets| && e in r.buckets[b] ==> Fits(r, b, e)
  }

  /** No event of the rung lies before rCur. */
  ghost predicate Ahead(r: Rung) {
    forall b :: 0 <= b < |r.buckets| && r.buckets[b] != [] ==> r.cur <= Low(r, b)
  }

  ghost predicate LiveRung(r: Rung) {
    && Usable(r) && r.start <= r.cur
    && Placed(r) && Ahead(r)
    && r.num == Occupied(r.buckets)
  }

  ghost predicate DeadRung(r: Rung) {
    r.num == 0 && r.width == 0 && r.start == 0 && r.cur == 0 && forall b :: 0 <= b < |r.buckets| ==> r.buckets[b] == []
  }

  ghost predicate BottomSorted(s: seq<Event>) {
    forall i, j :: 0 <= i < j < |s| ==> !Less(s[j], s[i])
  }

  /** All events of the rung are at or before `limit`. */
  ghost predicate Below(r: Rung, limit: nat) {
    forall b, e :: 0 <= b < |r.buckets| && e in r.buckets[b] ==> e.time <= limit
  }

  ghost predicate Rep(q: Ladder) {
    && |q.rungs| == MAX_RUNG_NUM && q.nRung <= MAX_RUNG_NUM
    && (forall k :: 1 <= k < MAX_RUNG_NUM ==> |q.rungs[k].buckets| == MAX_BUCKET_NUM)
    && (forall k :: 0 <= k < q.nRung ==> LiveRung(q.rungs[k]) && Below(q.rungs[k], q.topStart))
    && (forall k :: q.nRung <= k < MAX_RUNG_NUM ==> DeadRung(q.rungs[k]))
    && BottomSorted(q.bottom)
    && (forall e :: e in q.top ==> q.topStart < e.time && q.minTS <= e.time <= q.maxTS)
    && (forall e :: e in q.bottom ==> e.time <= q.topStart)
    && (q.nRung > 0 ==> Addressable(q.rungs[0], q.topStart))
  }

  /** No event up to `limit` gets the bucket number that means "none". */
  ghost predicate Addressable(r: Rung, limit: nat)
    requires Usable(r)
  {
    r.start <= limit ==> (limit - r.start) / r.width < INVALID
  }
}
