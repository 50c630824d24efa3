/** The output managers as objects: OutputEvents with its three lists, and DynamicOutputManager with
    the operations it inherits from LazyOutputManager, both changed in place by loops. */
module OutputManagers {
  import opened Wrappers
  import opened OutputQueue
  import opened Cancellation
  import opened CancellationMatch

  class OutputEvents {
    var outputEventsLocal: seq<Event>
    var outputEventsRemote: seq<Event>
    var removedEventsRemote: seq<Event>

    ghost function State(): Output
      reads this
    {
      Output(outputEventsLocal, outputEventsRemote, removedEventsRemote)
    }

    constructor ()
      ensures State() == EMPTY
    {
      outputEventsLocal, outputEventsRemote, removedEventsRemote := [], [], [];
    }

    method Insert(newEvent: Event)
      modifies this
      ensures State() == OutputQueue.Insert(old(State()), newEvent)
    {
      if newEvent.receiver.isLocal {
        outputEventsLocal := outputEventsLocal + [newEvent];
      } else {
        removedEventsRemote := RemoveFirst(removedEventsRemote, newEvent);
        outputEventsRemote := outputEventsRemote + [newEvent];
      }
    }

    method GetEventsSentAtOrAfterAndRemove(searchTime: VTime) returns (retval: seq<Event>)
      modifies this
      ensures retval == Taken(old(State()), searchTime)
      ensures State() == Cut(old(State()), searchTime)
    {
      var left;
      left, retval := TakeOut(Output(outputEventsLocal, outputEventsRemote, removedEventsRemote), searchTime);
      outputEventsLocal, outputEventsRemote, removedEventsRemote := left.local, left.remote, left.removed;
    }

    method FossilCollect(gCollectTime: VTime)
      modifies this
      ensures State() == OutputQueue.FossilCollect(old(State()), gCollectTime)
    {
      var left := CollectOut(Output(outputEventsLocal, outputEventsRemote, removedEventsRemote), gCollectTime);
      outputEventsLocal, outputEventsRemote, removedEventsRemote := left.local, left.remote, left.removed;
    }
  }

  lemma ReverseFrom(s: seq<Event>, n: nat)
    requires n < |s|
    ensures Reverse(s[n..]) == Reverse(s[n + 1..]) + [s[n]]
  {
    var r, r' := Reverse(s[n..]), Reverse(s[n + 1..]) + [s[n]];
    assert |r| == |r'|;
    forall i | 0 <= i < |r| ensures r[i] == r'[i] {
      if i < |s| - n - 1 { assert r'[i] == s[n + 1..][|s| - n - 2 - i]; }
    }
  }

  /** The iterator loops that walk a list from its end while events were sent at or after `t`. */
  method TakeFromBack(s: seq<Event>, t: VTime) returns (kept: seq<Event>, taken: seq<Event>)
    ensures kept == s[..Kept(s, t)] && taken == Reverse(s[Kept(s, t)..])
  {
    var n: nat := |s|;
    taken := [];
    assert s[..n] == s;
    while n > 0 && s[n - 1].sendTime >= t
      invariant n <= |s| && Kept(s[..n], t) == Kept(s, t)
      invariant taken == Reverse(s[n..])
    {
      assert s[..n][..n - 1] == s[..n - 1];
      ReverseFrom(s, n - 1);
      taken := taken + [s[n - 1]];
      n := n - 1;
    }
    kept := s[..n];
  }

  method DropBefore(s: seq<Event>, t: VTime) returns (rest: seq<Event>)
    ensures rest == NotBefore(s, t)
  {
    var i := 0;
    rest := [];
    while i < |s|
      invariant 0 <= i <= |s|
      invariant rest + NotBefore(s[i..], t) == NotBefore(s, t)
    {
      assert s[i..][1..] == s[i + 1..];
      if s[i].sendTime >= t {
        rest := rest + [s[i]];
      }
      i := i + 1;
    }
  }

  method StalePrefix(s: seq<Event>, t: VTime) returns (k: nat)
    ensures k == Stale(s, t)
  {
    k := 0;
    while k < |s| && s[k].sendTime < t
      invariant k <= |s|
      invariant k + Stale(s[k..], t) == Stale(s, t)
    {
      assert s[k..][1..] == s[k + 1..];
      k := k + 1;
    }
  }

  /** The loops of getEventsSentAtOrAfterAndRemove over the two lists. */
  method TakeOut(o: Output, t: VTime) returns (left: Output, taken: seq<Event>)
    ensures taken == Taken(o, t) && left == Cut(o, t)
  {
    var keptLocal, takenLocal := TakeFromBack(o.local, t);
    var keptRemote, takenRemote := TakeFromBack(o.remote, t);
    taken := takenLocal + takenRemote;
    left := Output(keptLocal, keptRemote, o.removed + takenRemote);
  }

  /** The loops of fossilCollect over the three lists. */
  method CollectOut(o: Output, t: VTime) returns (left: Output)
    ensures left == OutputQueue.FossilCollect(o, t)
  {
    var k := StalePrefix(o.remote, t);
    var n := StalePrefix(o.local, t);
    var removed := DropBefore(o.removed, t);
    left := Output(o.local[n..], o.remote[k..], removed);
  }

  lemma InsertPermutes(s: seq<Event>, r: seq<Event>, e: Event, k: nat)
    requires multiset(s) == multiset(r) && k <= |r|
    ensures multiset(s + [e]) == multiset(r[..k] + [e] + r[k..])
  {
    assert r == r[..k] + r[k..];
  }

  lemma InsertSorted(s: seq<Event>, r: seq<Event>, e: Event, k: nat)
    requires SortedPermutation(s, r) && k <= |r|
    requires forall j :: 0 <= j < k ==> r[j].recvTime <= e.recvTime
    requires forall j :: k <= j < |r| ==> r[j].recvTime > e.recvTime
    ensures SortedPermutation(s + [e], r[..k] + [e] + r[k..])
  {
    var r' := r[..k] + [e] + r[k..];
    InsertPermutes(s, r, e, k);
    forall i, j | 0 <= i < j < |r'| ensures r'[i].recvTime <= r'[j].recvTime {
      assert r'[i] == (if i < k then r[i] else if i == k then e else r[i - 1]);
      assert r'[j] == (if j < k then r[j] else if j == k then e else r[j - 1]);
    }
  }

  method InsertByTime(ghost s: seq<Event>, r: seq<Event>, e: Event) returns (r': seq<Event>)
    requires SortedPermutation(s, r)
    ensures SortedPermutation(s + [e], r')
  {
    var k := 0;
    while k < |r| && r[k].recvTime <= e.recvTime
      invariant k <= |r|
      invariant forall j :: 0 <= j < k ==> r[j].recvTime <= e.recvTime
    {
      k := k + 1;
    }
    InsertSorted(s, r, e, k);
    r' := r[..k] + [e] + r[k..];
  }

  /** std::sort by receive time, here by insertion. */
  method SortByReceiveTime(s: seq<Event>) returns (r: seq<Event>)
    ensures SortedPermutation(s, r)
  {
    r := [];
    for i := 0 to |s|
      invariant SortedPermutation(s[..i], r)
    {
      r := InsertByTime(s[..i], r, s[i]);
      assert s[..i + 1] == s[..i] + [s[i]];
    }
    assert s[..|s|] == s;
  }

  /** What the managers keep per simulation object; `net` and `collected` record what it told the receivers
      and what left its output queue for good. */
  datatype Slot = Slot(
    out: Output,
    lazyQueue: seq<Event>,
    eventsToCancel: seq<Event>,
    compareAndInsert: bool,
    curCancelMode: Mode,
    curMeasured: nat,
    permanentlyAggressive: bool,
    net: Net,
    collected: Output)

  function Abs(s: Slot): Obj {
    Obj(s.out, s.lazyQueue, s.curCancelMode, s.permanentlyAggressive, s.net, s.collected)
  }

  /** Results written one after the other into the ring of the last comparisons. */
  function Ring(results: seq<int>, at: nat, news: seq<int>): (r: seq<int>)
    requires |results| == FILTER_DEPTH
    ensures |r| == FILTER_DEPTH
    decreases |news|
  {
    if news == [] then results else Ring(results[at % FILTER_DEPTH := news[0]], at + 1, news[1..])
  }

  lemma {:induction false} RingKeeps(results: seq<int>, at: nat, news: seq<int>, p: nat)
    requires |results| == FILTER_DEPTH && p < FILTER_DEPTH
    requires forall i :: at <= i < at + |news| ==> i % FILTER_DEPTH != p
    ensures Ring(results, at, news)[p] == results[p]
    decreases |news|
  {
    if news != [] { RingKeeps(results[at % FILTER_DEPTH := news[0]], at + 1, news[1..], p); }
  }

  lemma OtherPlace(at: nat, i: nat)
    requires at < i < at + FILTER_DEPTH
    ensures i % FILTER_DEPTH != at % FILTER_DEPTH
  {
  }

  /** The ring holds the last sixteen results. */
  lemma {:induction false} RingHolds(results: seq<int>, at: nat, news: seq<int>, i: nat)
    requires |results| == FILTER_DEPTH && i < |news| <= i + FILTER_DEPTH
    ensures Ring(results, at, news)[(at + i) % FILTER_DEPTH] == news[i]
    decreases |news|
  {
    var results' := results[at % FILTER_DEPTH := news[0]];
    if i == 0 {
      forall j | at + 1 <= j < at + |news| ensures j % FILTER_DEPTH != at % FILTER_DEPTH { OtherPlace(at, j); }
      RingKeeps(results', at + 1, news[1..], at % FILTER_DEPTH);
    } else {
      RingHolds(results', at + 1, news[1..], i - 1);
    }
  }

  /** One result per comparison: hits count one, misses zero. */
  function Outcomes(hits: nat, misses: nat): (r: seq<int>)
    ensures |r| == hits + misses
    ensures forall i :: 0 <= i < |r| ==> r[i] == if i < hits then 1 else 0
  {
    seq(hits, _ => 1) + seq(misses, _ => 0)
  }

  /** The comparisons one event makes: a hit if it is found, a miss for every stale event before it. */
  function Hits(o: Obj, e: Event): nat {
    if o.lazyQ == [] || o.permanent then 0 else |CheckLazy(o.lazyQ, e).hit|
  }

  function Misses(o: Obj, e: Event): nat {
    if o.lazyQ == [] || o.permanent then 0 else |CheckLazy(o.lazyQ, e).stale|
  }

  /** The mode is reconsidered after sixteen comparisons, by the number of hits among the last sixteen. */
  ghost function Reconsidered(o: Obj, measured: nat, results: seq<int>, third: bool): Obj {
    if measured >= FILTER_DEPTH then Determine(o, multiset(results)[1], third) else o
  }

  /** What one send counts for: one hit if the same message waits anywhere, one miss for every leading event sent
      before it, nothing if there is nothing to compare with. */
  lemma ComparisonsCounted(o: Obj, e: Event)
    ensures o.lazyQ == [] || o.permanent ==> Hits(o, e) == 0 && Misses(o, e) == 0
    ensures o.lazyQ != [] && !o.permanent ==>
              var n := Misses(o, e);
              && Hits(o, e) == (if exists i :: 0 <= i < |o.lazyQ| && EventCompare(o.lazyQ[i], e) then 1 else 0)
              && n <= |o.lazyQ| && (forall i :: 0 <= i < n ==> o.lazyQ[i].sendTime < e.sendTime)
              && (n < |o.lazyQ| ==> o.lazyQ[n].sendTime >= e.sendTime)
  {
    HitIff(o.lazyQ, e);
    var n, k := CheckExact(o.lazyQ, e);
  }

  /** Before sixteen comparisons nothing changes. From then on the number of hits among the last sixteen decides: a
      lazy object turns aggressive with three or fewer, an aggressive one lazy with nine or more, and with one or
      none, where the third threshold is in use, an object turns aggressive for good. */
  lemma ReconsideredBands(o: Obj, measured: nat, results: seq<int>, third: bool)
    ensures var o', hits := Reconsidered(o, measured, results, third), multiset(results)[1];
            var forGood := third && hits <= 1;
            if measured < 16 then o' == o
            else && o'.permanent == (o.permanent || forGood)
                 && (o'.mode.Lazy? <==> if o.mode.Lazy? then hits >= 4 && !forGood else hits >= 9)
                 && o'.lazyQ == (if o'.mode == o.mode then o.lazyQ else [])
  {
    DetermineBands(o, multiset(results)[1], third);
  }

  /** The ring after the stale events of the first `t` objects have counted as misses. */
  function AllStale(results: seq<int>, slots: seq<Slot>, t: nat, time: VTime): (r: seq<int>)
    requires |results| == FILTER_DEPTH && t <= |slots|
    ensures |r| == FILTER_DEPTH
  {
    if t == 0 then results
    else
      var s := slots[t - 1];
      Ring(AllStale(results, slots, t - 1, time), s.curMeasured, Outcomes(0, Stale(s.lazyQueue, time)))
  }

  /** Slot after checkLazyCancelEvent: stale events wait for cancellation, a regenerated event leaves
      the lazy queue and, in compare-and-insert mode, is back in the output queue. */
  function AfterCheck(s: Slot, event: Event): Slot {
    var c := CheckLazy(s.lazyQueue, event);
    s.(lazyQueue := c.rest,
       eventsToCancel := s.eventsToCancel + c.stale,
       out := if c.hit != [] && s.compareAndInsert then Insert(s.out, c.hit[0]) else s.out)
  }

  /** The loop over the lazy queue. */
  method FindRegenerated(q: seq<Event>, event: Event) returns (k: nat)
    ensures k == Match(q, event)
  {
    k := 0;
    while k < |q| && !EventCompare(q[k], event)
      invariant k <= |q|
      invariant k + Match(q[k..], event) == Match(q, event)
    {
      assert q[k..][1..] == q[k + 1..];
      k := k + 1;
    }
  }

  /** LazyOutputManager::checkLazyCancelEvent on the slot of the sender. */
  method CheckLazyCancelEvent(s: Slot, event: Event) returns (s': Slot, suppressEvent: bool)
    ensures suppressEvent == (CheckLazy(s.lazyQueue, event).hit != [])
    ensures suppressEvent <==> exists i :: 0 <= i < |s.lazyQueue| && EventCompare(s.lazyQueue[i], event)
    ensures s' == AfterCheck(s, event)
  {
    HitIff(s.lazyQueue, event);
    var n := StalePrefix(s.lazyQueue, event.sendTime);
    var q := s.lazyQueue[n..];
    var k := FindRegenerated(q, event);
    suppressEvent := k < |q|;
    s' := s.(eventsToCancel := s.eventsToCancel + s.lazyQueue[..n], lazyQueue := q);
    if suppressEvent {
      if s'.compareAndInsert {
        s' := s'.(out := Insert(s'.out, q[k]));
      }
      s' := s'.(lazyQueue := Without(q, k));
    }
  }

  /** handleCancelEvents: the pending cancellations go out, at once. */
  function Flushed(s: Slot): Slot {
    s.(eventsToCancel := [], net := s.net.(cancelled := s.net.cancelled + s.eventsToCancel))
  }

  method HandleCancelEvents(s: Slot) returns (s': Slot)
    ensures s' == Flushed(s)
  {
    s' := s;
    if |s.eventsToCancel| > 0 {
      s' := s'.(net := s.net.(cancelled := s.net.cancelled + s.eventsToCancel), eventsToCancel := []);
    } else {
      assert s.net.cancelled + [] == s.net.cancelled;
    }
  }

  /** Slot after the comparing half of checkDynamicCancel. */
  function Compared(s: Slot, event: Event): Slot {
    if s.lazyQueue == [] || s.permanentlyAggressive then s.(out := Insert(s.out, event))
    else
      var c := AfterCheck(s.(compareAndInsert := s.curCancelMode == Lazy), event);
      var hit := CheckLazy(s.lazyQueue, event).hit != [];
      if s.curCancelMode == Aggressive then c.(eventsToCancel := [], out := Insert(c.out, event))
      else Flushed(if hit then c else c.(out := Insert(c.out, event)))
  }

  lemma ComparedIsChecked(s: Slot, event: Event)
    requires s.eventsToCancel == []
    ensures Compared(s, event).eventsToCancel == []
    ensures Abs(Compared(s, event)) == Checked(Abs(s), event)
  {
    var c := CheckLazy(s.lazyQueue, event);
    assert [] + c.stale == c.stale;
    if s.lazyQueue == [] || s.permanentlyAggressive {
    } else if s.curCancelMode == Aggressive {
    } else if c.hit != [] {
    } else {
    }
  }

  /** Slot of a lazily cancelling object after an event was handled. */
  function LazySent(s: Slot, event: Event): Slot {
    var c := AfterCheck(s, event);
    if CheckLazy(s.lazyQueue, event).hit != [] then Flushed(c)
    else
      var f := Flushed(c.(out := Insert(c.out, event)));
      f.(net := f.net.(sent := f.net.sent + [event]))
  }

  lemma LazySentIsStep(s: Slot, event: Event)
    requires s.eventsToCancel == [] && s.compareAndInsert
    ensures LazySent(s, event).eventsToCancel == [] && LazySent(s, event).compareAndInsert
    ensures LazyStep(Send(event), Abs(s), Abs(LazySent(s, event)))
  {
    var c := CheckLazy(s.lazyQueue, event);
    assert [] + c.stale == c.stale;
  }

  /** The stale events are gone and have been counted. */
  ghost predicate Emptied(s: Slot, time: VTime, s': Slot) {
    Abs(s') == EmptyEffect(Abs(s), time) && s'.curMeasured == s.curMeasured + Stale(s.lazyQueue, time)
  }

  class DynamicOutputManager {
    var slots: seq<Slot>
    /** One vector, shared by all objects: the constructor copies the same pointer for each of them. */
    var comparisonResults: seq<int>
    const thirdThreshold: bool

    /** Between calls no cancellation is left pending. */
    ghost predicate Valid()
      reads this
    {
      |comparisonResults| == FILTER_DEPTH && forall i :: 0 <= i < |slots| ==> slots[i].eventsToCancel == []
    }

    constructor (numberOfObjects: nat, useThirdThreshold: bool)
      ensures Valid() && |slots| == numberOfObjects
      ensures forall i :: 0 <= i < |slots| ==>
                Fresh(Abs(slots[i])) && Abs(slots[i]).mode == Aggressive && slots[i].curMeasured == 0
      ensures multiset(comparisonResults)[1] == 0
    {
      slots := seq(numberOfObjects, _ => Slot(EMPTY, [], [], false, Aggressive, 0, false, Net([], []), EMPTY));
      comparisonResults := seq(FILTER_DEPTH, _ => 0);
      thirdThreshold := useThirdThreshold;
    }

    method Record(id: nat, result: int)
      requires Valid() && id < |slots|
      modifies this
      ensures comparisonResults == old(comparisonResults)[old(slots)[id].curMeasured % FILTER_DEPTH := result]
      ensures slots == old(slots)[id := old(slots)[id].(curMeasured := old(slots)[id].curMeasured + 1)]
    {
      var s := slots[id];
      comparisonResults := comparisonResults[s.curMeasured % FILTER_DEPTH := result];
      slots := slots[id := s.(curMeasured := s.curMeasured + 1)];
    }

    method DetermineCancellationMode(id: nat)
      requires Valid() && id < |slots|
      modifies this`slots
      ensures Valid()
      ensures |slots| == |old(slots)| && forall i :: 0 <= i < |slots| && i != id ==> slots[i] == old(slots)[i]
      ensures Abs(slots[id]) == Determine(Abs(old(slots)[id]), multiset(comparisonResults)[1], thirdThreshold)
      ensures slots[id].curMeasured == 0
    {
      var s := slots[id];
      var lazyToAggr, aggrToLazy := false, false;
      var hitCount := 0;
      for i := 0 to FILTER_DEPTH
        invariant hitCount == multiset(comparisonResults[..i])[1]
      {
        assert comparisonResults[..i + 1] == comparisonResults[..i] + [comparisonResults[i]];
        if comparisonResults[i] == 1 {
          hitCount := hitCount + 1;
        }
      }
      assert comparisonResults[..FILTER_DEPTH] == comparisonResults;
      var hitRatio := hitCount as real / FILTER_DEPTH as real;
      if thirdThreshold && hitRatio < 0.1 {
        lazyToAggr := s.curCancelMode == Lazy;
        s := s.(curCancelMode := Aggressive, compareAndInsert := false, permanentlyAggressive := true);
      } else if s.curCancelMode == Lazy && hitRatio < 0.2 {
        s := s.(curCancelMode := Aggressive, compareAndInsert := false);
        lazyToAggr := true;
      } else if s.curCancelMode == Aggressive && hitRatio > 0.5 {
        s := s.(curCancelMode := Lazy, compareAndInsert := true);
        aggrToLazy := true;
      }
      if aggrToLazy {
        s := s.(lazyQueue := []);
      }
      if lazyToAggr {
        s := s.(eventsToCancel := s.eventsToCancel + s.lazyQueue);
        s := HandleCancelEvents(s);
        s := s.(lazyQueue := []);
      }
      slots := slots[id := s.(curMeasured := 0)];
    }

    method ReconsiderMode(id: nat)
      requires Valid() && id < |slots|
      modifies this`slots
      ensures Valid()
      ensures |slots| == |old(slots)| && forall i :: 0 <= i < |slots| && i != id ==> slots[i] == old(slots)[i]
      ensures Abs(slots[id]) ==
              Reconsidered(Abs(old(slots)[id]), old(slots)[id].curMeasured, comparisonResults, thirdThreshold)
      ensures slots[id].curMeasured ==
              if old(slots)[id].curMeasured >= FILTER_DEPTH then 0 else old(slots)[id].curMeasured
    {
      if slots[id].curMeasured >= FILTER_DEPTH {
        DetermineCancellationMode(id);
      }
    }

    /** The comparing half of checkDynamicCancel: everything up to the recording of hits and misses. */
    method CompareAndInsert(id: nat, event: Event) returns (suppressMessage: bool, hits: nat, misses: nat)
      requires Valid() && id < |slots|
      modifies this`slots
      ensures Valid()
      ensures |slots| == |old(slots)| && forall i :: 0 <= i < |slots| && i != id ==> slots[i] == old(slots)[i]
      ensures suppressMessage == Suppressed(Abs(old(slots)[id]), event)
      ensures Abs(slots[id]) == Checked(Abs(old(slots)[id]), event)
      ensures slots[id].curMeasured == old(slots)[id].curMeasured
      ensures hits == Hits(Abs(old(slots)[id]), event) && misses == Misses(Abs(old(slots)[id]), event)
    {
      CheckConserves(slots[id].lazyQueue, event);
      ComparedIsChecked(slots[id], event);
      suppressMessage, hits, misses := false, 0, 0;
      var s := slots[id];
      if |s.lazyQueue| > 0 && !s.permanentlyAggressive {
        var lazyCancelHit;
        s := s.(compareAndInsert := s.curCancelMode == Lazy);
        s, lazyCancelHit := CheckLazyCancelEvent(s, event);
        hits, misses := if lazyCancelHit then 1 else 0, |s.eventsToCancel|;
        if s.curCancelMode == Lazy {
          suppressMessage := lazyCancelHit;
          if !(lazyCancelHit && s.compareAndInsert) {
            s := s.(out := Insert(s.out, event));
          }
          s := HandleCancelEvents(s);
        } else {
          s := s.(eventsToCancel := [], out := Insert(s.out, event));
        }
      } else {
        s := s.(out := Insert(s.out, event));
      }
      assert s == Compared(slots[id], event);
      slots := slots[id := s];
    }

    method RecordResults(id: nat, hits: nat, misses: nat)
      requires Valid() && id < |slots|
      modifies this
      ensures Valid()
      ensures |slots| == |old(slots)| && forall i :: 0 <= i < |slots| && i != id ==> slots[i] == old(slots)[i]
      ensures Abs(slots[id]) == Abs(old(slots)[id])
      ensures comparisonResults == Ring(old(comparisonResults), old(slots)[id].curMeasured, Outcomes(hits, misses))
      ensures slots[id].curMeasured == old(slots)[id].curMeasured + hits + misses
    {
      ghost var news := Outcomes(hits, misses);
      for i := 0 to hits + misses
        invariant Valid() && |slots| == |old(slots)|
        invariant forall j :: 0 <= j < |slots| && j != id ==> slots[j] == old(slots)[j]
        invariant Abs(slots[id]) == Abs(old(slots)[id]) && slots[id].curMeasured == old(slots)[id].curMeasured + i
        invariant Ring(comparisonResults, slots[id].curMeasured, news[i..])
               == Ring(old(comparisonResults), old(slots)[id].curMeasured, news)
      {
        assert news[i..][1..] == news[i + 1..];
        Record(id, if i < hits then 1 else 0);
      }
    }

    /** checkDynamicCancel, then the caller's transmission unless the message is suppressed
        (TimeWarpSimulationManager::handleEvent). While the sender coasts forward or recovers, its events are
        `replayed` and thrown away. */
    method HandleEvent(id: nat, event: Event, replayed: bool)
      requires Valid() && id < |slots|
      modifies this
      ensures Valid()
      ensures |slots| == |old(slots)| && forall i :: 0 <= i < |slots| && i != id ==> slots[i] == old(slots)[i]
      ensures if replayed then slots[id] == old(slots)[id]
              else DynamicStep(Send(event), Abs(old(slots)[id]), Abs(slots[id]))
      ensures !replayed ==>
                var o, n := Abs(old(slots)[id]), old(slots)[id].curMeasured;
                var h, m := Hits(o, event), Misses(o, event);
                && comparisonResults == Ring(old(comparisonResults), n, Outcomes(h, m))
                && Abs(slots[id]) == Reconsidered(SendEffect(o, event), n + h + m, comparisonResults, thirdThreshold)
    {
      if replayed { return; }
      ghost var o := Abs(slots[id]);
      var suppress, hits, misses := CompareAndInsert(id, event);
      if !suppress {
        var s := slots[id];
        slots := slots[id := s.(net := s.net.(sent := s.net.sent + [event]))];
      }
      SendIsCheckThenTransmit(o, event);
      RecordResults(id, hits, misses);
      ReconsiderMode(id);
    }

    /** The part of emptyLazyQueue before the mode is reconsidered. */
    method DropStale(id: nat, time: VTime)
      requires Valid() && id < |slots|
      modifies this
      ensures Valid()
      ensures |slots| == |old(slots)| && forall i :: 0 <= i < |slots| && i != id ==> slots[i] == old(slots)[i]
      ensures Emptied(old(slots)[id], time, slots[id])
      ensures var n := Stale(old(slots)[id].lazyQueue, time);
              comparisonResults == Ring(old(comparisonResults), old(slots)[id].curMeasured, Outcomes(0, n))
    {
      var s := slots[id];
      var n := StalePrefix(s.lazyQueue, time);
      UnstaleIs(s.lazyQueue, time);
      if s.curCancelMode == Lazy {
        s := s.(eventsToCancel := s.lazyQueue[..n]);
      }
      s := HandleCancelEvents(s.(lazyQueue := s.lazyQueue[n..]));
      slots := slots[id := s];
      assert Abs(s) == EmptyEffect(Abs(old(slots)[id]), time) by {
        assert old(slots)[id].net.cancelled + [] == old(slots)[id].net.cancelled;
      }
      RecordResults(id, 0, n);
    }

    method EmptyLazyQueue(id: nat, time: VTime)
      requires Valid() && id < |slots|
      modifies this
      ensures Valid()
      ensures |slots| == |old(slots)| && forall i :: 0 <= i < |slots| && i != id ==> slots[i] == old(slots)[i]
      ensures DynamicStep(EmptyQueue(time), Abs(old(slots)[id]), Abs(slots[id]))
      ensures var o, n, m := Abs(old(slots)[id]), old(slots)[id].curMeasured, Stale(old(slots)[id].lazyQueue, time);
              && comparisonResults == Ring(old(comparisonResults), n, Outcomes(0, m))
              && Abs(slots[id]) == Reconsidered(EmptyEffect(o, time), n + m, comparisonResults, thirdThreshold)
    {
      DropStale(id, time);
      ReconsiderMode(id);
    }

    method DropAllStale(time: VTime)
      requires Valid()
      modifies this
      ensures Valid() && |slots| == |old(slots)|
      ensures forall i :: 0 <= i < |slots| ==> Emptied(old(slots)[i], time, slots[i])
      ensures comparisonResults == AllStale(old(comparisonResults), old(slots), |slots|, time)
    {
      ghost var was, results := slots, comparisonResults;
      for t := 0 to |slots|
        invariant Valid() && |slots| == |was|
        invariant comparisonResults == AllStale(results, was, t, time)
        invariant forall i :: 0 <= i < t ==> Emptied(was[i], time, slots[i])
        invariant forall i :: t <= i < |slots| ==> slots[i] == was[i]
      {
        DropStale(t, time);
      }
    }

    method ReconsiderAll()
      requires Valid()
      modifies this`slots
      ensures Valid() && |slots| == |old(slots)|
      ensures forall i :: 0 <= i < |slots| ==>
                Abs(slots[i]) ==
                  Reconsidered(Abs(old(slots)[i]), old(slots)[i].curMeasured, comparisonResults, thirdThreshold)
    {
      var n, t := |slots|, 0;
      ghost var was := slots;
      while t < n
        invariant t <= n == |slots| == |was| && Valid()
        invariant forall i :: 0 <= i < t ==>
                    Abs(slots[i]) == Reconsidered(Abs(was[i]), was[i].curMeasured, comparisonResults, thirdThreshold)
        invariant forall i :: t <= i < n ==> slots[i] == was[i]
      {
        ReconsiderMode(t);
        t := t + 1;
      }
    }

    /** emptyLazyQueues: all queues are cleaned before any mode is reconsidered. */
    method EmptyLazyQueues(time: VTime)
      requires Valid()
      modifies this
      ensures Valid() && |slots| == |old(slots)|
      ensures forall i :: 0 <= i < |slots| ==> DynamicStep(EmptyQueue(time), Abs(old(slots)[i]), Abs(slots[i]))
      ensures comparisonResults == AllStale(old(comparisonResults), old(slots), |slots|, time)
      ensures forall i :: 0 <= i < |slots| ==>
                var o, n := Abs(old(slots)[i]), old(slots)[i].curMeasured + Stale(old(slots)[i].lazyQueue, time);
                Abs(slots[i]) == Reconsidered(EmptyEffect(o, time), n, comparisonResults, thirdThreshold)
    {
      DropAllStale(time);
      ReconsiderAll();
    }

    method Rollback(id: nat, rollbackTime: VTime)
      requires Valid() && id < |slots|
      modifies this
      ensures Valid()
      ensures |slots| == |old(slots)| && forall i :: 0 <= i < |slots| && i != id ==> slots[i] == old(slots)[i]
      ensures DynamicStep(Cancellation.Rollback(rollbackTime), Abs(old(slots)[id]), Abs(slots[id]))
    {
      var s := slots[id];
      var left, taken := TakeOut(s.out, rollbackTime);
      s := s.(out := left);
      if !s.permanentlyAggressive {
        var q := SortByReceiveTime(s.lazyQueue + taken);
        s := s.(lazyQueue := q);
        if s.curCancelMode == Aggressive {
          s := s.(net := s.net.(cancelled := s.net.cancelled + taken));
        }
      } else {
        s := s.(net := s.net.(cancelled := s.net.cancelled + taken));
      }
      slots := slots[id := s];
    }

    /** fossilCollect of the base class; `collected` is what left the queue for good. */
    method FossilCollect(id: nat, fossilCollectTime: VTime)
      requires Valid() && id < |slots|
      modifies this
      ensures Valid()
      ensures |slots| == |old(slots)| && forall i :: 0 <= i < |slots| && i != id ==> slots[i] == old(slots)[i]
      ensures DynamicStep(Fossil(fossilCollectTime), Abs(old(slots)[id]), Abs(slots[id]))
      ensures LazyStep(Fossil(fossilCollectTime), Abs(old(slots)[id]), Abs(slots[id]))
    {
      var s := slots[id];
      var left := CollectOut(s.out, fossilCollectTime);
      var gone := FossilEffect(Abs(s), fossilCollectTime).collected;
      slots := slots[id := s.(out := left, collected := gone)];
    }

    // ----- the operations inherited from LazyOutputManager, as the lazy manager uses them -----

    /** lazyCancel and the caller's transmission. */
    method LazyHandleEvent(id: nat, event: Event, replayed: bool)
      requires Valid() && id < |slots| && slots[id].compareAndInsert
      modifies this
      ensures Valid()
      ensures |slots| == |old(slots)| && forall i :: 0 <= i < |slots| && i != id ==> slots[i] == old(slots)[i]
      ensures slots[id].compareAndInsert
      ensures if replayed then slots[id] == old(slots)[id]
              else LazyStep(Send(event), Abs(old(slots)[id]), Abs(slots[id]))
    {
      if replayed { return; }
      LazySentIsStep(slots[id], event);
      var s, suppress := CheckLazyCancelEvent(slots[id], event);
      if !(suppress && s.compareAndInsert) {
        s := s.(out := Insert(s.out, event));
      }
      s := HandleCancelEvents(s);
      if !suppress {
        s := s.(net := s.net.(sent := s.net.sent + [event]));
      }
      assert s == LazySent(slots[id], event);
      slots := slots[id := s];
    }

    method LazyEmptyQueue(id: nat, time: VTime)
      requires Valid() && id < |slots|
      modifies this
      ensures Valid()
      ensures |slots| == |old(slots)| && forall i :: 0 <= i < |slots| && i != id ==> slots[i] == old(slots)[i]
      ensures LazyStep(EmptyQueue(time), Abs(old(slots)[id]), Abs(slots[id]))
    {
      var s := slots[id];
      var n := StalePrefix(s.lazyQueue, time);
      UnstaleIs(s.lazyQueue, time);
      s := HandleCancelEvents(s.(eventsToCancel := s.lazyQueue[..n], lazyQueue := s.lazyQueue[n..]));
      slots := slots[id := s];
    }

    method LazyRollback(id: nat, rollbackTime: VTime)
      requires Valid() && id < |slots|
      modifies this
      ensures Valid()
      ensures |slots| == |old(slots)| && forall i :: 0 <= i < |slots| && i != id ==> slots[i] == old(slots)[i]
      ensures LazyStep(Cancellation.Rollback(rollbackTime), Abs(old(slots)[id]), Abs(slots[id]))
    {
      var s := slots[id];
      var left, taken := TakeOut(s.out, rollbackTime);
      var q := SortByReceiveTime(s.lazyQueue + taken);
      slots := slots[id := s.(out := left, lazyQueue := q)];
    }
  }

  /** The aggressive manager for one object, over its output queue. */
  class AggressiveOutputManager {
    const outputEvents: OutputEvents
    var net: Net
    ghost var collected: Output

    /** The other managers' state with nothing queued. */
    ghost function Value(): Obj
      reads this, outputEvents
    {
      Obj(outputEvents.State(), [], Aggressive, false, net, collected)
    }

    constructor ()
      ensures Value() == Obj(EMPTY, [], Aggressive, false, Net([], []), EMPTY) && fresh(outputEvents)
    {
      outputEvents := new OutputEvents();
      net := Net([], []);
      collected := EMPTY;
    }

    /** handleEvent: the event is recorded and transmitted, or thrown away if it is `replayed`. */
    method HandleEvent(event: Event, replayed: bool)
      modifies this, outputEvents
      ensures Value() == if replayed then old(Value()) else AggressiveApply(Send(event), old(Value()))
    {
      if replayed { return; }
      outputEvents.Insert(event);
      net := net.(sent := net.sent + [event]);
    }

    /** Everything sent at or after the rollback time is taken out and cancelled at once. */
    method Rollback(rollbackTime: VTime)
      modifies this, outputEvents
      ensures Value() == AggressiveApply(Cancellation.Rollback(rollbackTime), old(Value()))
    {
      var eventsToCancel := outputEvents.GetEventsSentAtOrAfterAndRemove(rollbackTime);
      if |eventsToCancel| > 0 {
        net := net.(cancelled := net.cancelled + eventsToCancel);
      } else {
        assert net.cancelled + eventsToCancel == net.cancelled;
      }
    }

    method FossilCollect(gvt: VTime)
      modifies this, outputEvents
      ensures Value() == AggressiveApply(Fossil(gvt), old(Value()))
    {
      collected := FossilEffect(Value(), gvt).collected;
      outputEvents.FossilCollect(gvt);
    }
  }

  /** The message is suppressed: it waits in the lazy queue already, and the mode is lazy. */
  predicate Suppressed(o: Obj, e: Event) {
    o.lazyQ != [] && !o.permanent && o.mode.Lazy? && CheckLazy(o.lazyQ, e).hit != []
  }

  /** The object after the check, before the caller transmits. */
  function Checked(o: Obj, e: Event): Obj {
    if o.lazyQ == [] || o.permanent then o.(out := Insert(o.out, e))
    else
      var c := CheckLazy(o.lazyQ, e);
      if o.mode.Aggressive? then o.(lazyQ := c.rest, out := Insert(o.out, e))
      else Retract(o.(lazyQ := c.rest, out := Insert(o.out, if c.hit != [] then c.hit[0] else e)), c.stale)
  }

  lemma SendIsCheckThenTransmit(o: Obj, e: Event)
    ensures var k := Checked(o, e);
            SendEffect(o, e) == if Suppressed(o, e) then k else k.(net := k.net.(sent := k.net.sent + [e]))
  {
  }
}
