/** The per-object event container, the state queues and the kernel's handling of one object, as objects
    updated in place with the loops of the source. Each method is proved to compute the corresponding
    function, so the theorems about runs speak about sequences of these calls. */
module TimeWarpManagers {
  import opened Wrappers
  import opened EventContainer
  import opened TimeWarpObject

  datatype SortStatus = SORTED | UNSORTED

  method FindKey(s: seq<Event>, e: Event) returns (k: nat)
    ensures k == Find(s, e)
  {
    k := 0;
    while k < |s| && !SameKey(s[k], e)
      invariant k <= |s| && forall i :: 0 <= i < k ==> !SameKey(s[i], e)
    {
      k := k + 1;
    }
    FindUnique(s, e, k);
  }

  lemma {:induction false} FindUnique(s: seq<Event>, e: Event, k: nat)
    requires k <= |s| && (forall i :: 0 <= i < k ==> !SameKey(s[i], e)) && (k < |s| ==> SameKey(s[k], e))
    ensures Find(s, e) == k
  {
    if k > 0 { FindUnique(s[1..], e, k - 1); }
  }

  method ScanEarly(s: seq<Event>, t: int) returns (n: nat)
    ensures n == Early(s, t)
  {
    n := 0;
    while n < |s| && s[n].receiveTime < t
      invariant n <= |s| && forall i :: 0 <= i < n ==> s[i].receiveTime < t
    {
      n := n + 1;
    }
    EarlyUnique(s, t, n);
  }

  /** reclaimEvent over a list: what is before `t` goes to the object, the rest stays in order. */
  method Reclaim(s: seq<Event>, t: int) returns (kept: seq<Event>, reclaimed: seq<Event>)
    ensures kept == NotBefore(s, t)
    ensures multiset(kept) + multiset(reclaimed) == multiset(s) && forall e :: e in reclaimed ==> e.receiveTime < t
  {
    kept, reclaimed := [], [];
    var i := 0;
    while i < |s|
      invariant 0 <= i <= |s|
      invariant kept + NotBefore(s[i..], t) == NotBefore(s, t)
      invariant multiset(kept) + multiset(reclaimed) == multiset(s[..i])
                && forall e :: e in reclaimed ==> e.receiveTime < t
    {
      assert s[i..][1..] == s[i + 1..];
      assert s[..i + 1] == s[..i] + [s[i]];
      if s[i].receiveTime < t {
        assert NotBefore(s[i..], t) == NotBefore(s[i + 1..], t);
        reclaimed := reclaimed + [s[i]];
      } else {
        assert NotBefore(s[i..], t) == [s[i]] + NotBefore(s[i + 1..], t);
        assert kept + ([s[i]] + NotBefore(s[i + 1..], t)) == (kept + [s[i]]) + NotBefore(s[i + 1..], t);
        kept := kept + [s[i]];
      }
      i := i + 1;
    }
    assert s[i..] == [] && s[..i] == s;
  }

  method DropEarly(s: seq<Event>, t: int) returns (kept: seq<Event>, reclaimed: seq<Event>)
    ensures kept == s[Early(s, t)..]
    ensures multiset(kept) + multiset(reclaimed) == multiset(s) && forall e :: e in reclaimed ==> e.receiveTime < t
  {
    var n := ScanEarly(s, t);
    assert s == s[..n] + s[n..];
    kept, reclaimed := s[n..], s[..n];
  }

  class DefaultTimeWarpEventContainer {
    var unprocessedEvents: seq<Event>
    var processedEvents: seq<Event>
    var removedEvents: seq<Event>
    var negativeEvents: seq<Event>
    var sortStatus: SortStatus

    ghost function Value(): Container
      reads this
    {
      Container(unprocessedEvents, processedEvents, removedEvents, negativeEvents, sortStatus == SORTED)
    }

    constructor ()
      ensures Value() == EMPTY
    {
      unprocessedEvents, processedEvents, removedEvents, negativeEvents := [], [], [], [];
      sortStatus := SORTED;
    }

    method Insert(newEvent: Event)
      modifies this
      ensures Value() == EventContainer.Insert(old(Value()), newEvent)
    {
      var k := FindKey(negativeEvents, newEvent);
      if k < |negativeEvents| {
        removedEvents := removedEvents + [newEvent];
        negativeEvents := negativeEvents[..k] + negativeEvents[k + 1..];
      } else {
        unprocessedEvents := unprocessedEvents + [newEvent];
        sortStatus := UNSORTED;
      }
    }

    method HandleAntiMessage(eventToRemove: Event) returns (foundMatch: bool)
      modifies this
      ensures (Value(), foundMatch) == EventContainer.HandleAntiMessage(old(Value()), eventToRemove)
    {
      var k := FindKey(unprocessedEvents, eventToRemove);
      foundMatch := k < |unprocessedEvents|;
      if foundMatch {
        removedEvents := removedEvents + [unprocessedEvents[k]];
        unprocessedEvents := unprocessedEvents[..k] + unprocessedEvents[k + 1..];
      } else {
        negativeEvents := negativeEvents + [eventToRemove];
      }
    }

    method Rollback(rollbackTime: int)
      modifies this
      ensures Value() == EventContainer.Rollback(old(Value()), rollbackTime)
    {
      var newEnd := ScanEarly(processedEvents, rollbackTime);
      unprocessedEvents := unprocessedEvents + processedEvents[newEnd..];
      processedEvents := processedEvents[..newEnd];
      sortStatus := UNSORTED;
    }

    method SortByReceiveTimes()
      modifies this
      ensures Value() == old(Value()).(unprocessed := SortEvents(old(unprocessedEvents)), sorted := true)
    {
      unprocessedEvents := SortEvents(unprocessedEvents);
      sortStatus := SORTED;
    }

    /** Everything before the collection time is reclaimed, each event once. */
    method FossilCollect(collectTime: int) returns (reclaimed: seq<Event>)
      modifies this
      ensures Value() == EventContainer.FossilCollect(old(Value()), collectTime)
      ensures forall e :: e in reclaimed ==> e.receiveTime < collectTime
      ensures multiset(processedEvents) + multiset(removedEvents) + multiset(reclaimed)
           == multiset(old(processedEvents)) + multiset(old(removedEvents))
    {
      if sortStatus == UNSORTED {
        SortByReceiveTimes();
      }
      processedEvents, reclaimed := DropEarly(processedEvents, collectTime);
      var more;
      removedEvents, more := Reclaim(removedEvents, collectTime);
      reclaimed := reclaimed + more;
    }

    method NextEvent() returns (event: Option<Event>)
      modifies this
      ensures (Value(), event) == EventContainer.NextEvent(old(Value()))
    {
      event := None;
      if unprocessedEvents != [] {
        if sortStatus == UNSORTED {
          SortByReceiveTimes();
        }
        event := Some(unprocessedEvents[0]);
      }
    }

    method GetNextEvent() returns (event: Option<Event>)
      modifies this
      ensures (Value(), event) == EventContainer.GetNextEvent(old(Value()))
    {
      event := NextEvent();
      if event.Some? {
        unprocessedEvents := unprocessedEvents[1..];
        processedEvents := processedEvents + [event.value];
      }
    }

    /** In an ordered container an event is in the past exactly when it belongs before some processed one. */
    method IsInThePast(toCheck: Event) returns (past: bool)
      ensures past == EventContainer.IsInThePast(Value(), toCheck)
      ensures Sorted(processedEvents) ==> (past <==> exists e :: e in processedEvents && Less(toCheck, e))
    {
      past := false;
      if processedEvents != [] {
        var lastProc := processedEvents[|processedEvents| - 1];
        if toCheck.receiveTime != lastProc.receiveTime {
          past := toCheck.receiveTime < lastProc.receiveTime;
        } else if toCheck.id != lastProc.id {
          past := toCheck.id < lastProc.id;
        } else {
          past := toCheck.sender < lastProc.sender;
        }
        assert past == Less(toCheck, lastProc) && lastProc in processedEvents;
      }
    }
  }

  /** The walk over the states older than `t`. */
  method ScanOlder<S>(q: seq<Saved<S>>, t: int) returns (n: nat)
    ensures n == LowerBound(q, t)
  {
    n := 0;
    while n < |q| && q[n].time < t
      invariant n <= |q| && forall i :: 0 <= i < n ==> q[i].time < t
    {
      n := n + 1;
    }
    LowerBoundUnique(q, t, n);
  }

  /** The state queues of all objects of a manager, with the counters that say when to save. */
  class StateManager<S(!new)> {
    const myStateQueue: array<seq<Saved<S>>>
    const objectStatePeriod: array<nat>
    const periodCounter: array<int>

    ghost predicate Valid() {
      objectStatePeriod.Length == periodCounter.Length == myStateQueue.Length
    }

    constructor (numberOfObjects: nat, period: nat)
      ensures Valid() && myStateQueue.Length == numberOfObjects
      ensures fresh(myStateQueue) && fresh(objectStatePeriod) && fresh(periodCounter)
      ensures forall i :: 0 <= i < numberOfObjects ==> myStateQueue[i] == [] && periodCounter[i] == -1
      ensures forall i :: 0 <= i < numberOfObjects ==> objectStatePeriod[i] == period
    {
      myStateQueue := new [numberOfObjects](_ => []);
      objectStatePeriod := new nat[numberOfObjects](_ => period);
      periodCounter := new int[numberOfObjects](_ => -1);
    }

    /** The last state not after the rollback time, or the oldest; None stands for the fatal case. */
    method RestoreState(objId: nat, rollbackTime: int) returns (restored: Option<Saved<S>>)
      requires objId < myStateQueue.Length
      modifies myStateQueue
      ensures forall i :: 0 <= i < myStateQueue.Length && i != objId ==> myStateQueue[i] == old(myStateQueue[i])
      ensures if old(myStateQueue[objId]) == [] then restored == None && myStateQueue[objId] == []
              else && myStateQueue[objId] == Restored(old(myStateQueue[objId]), rollbackTime)
                   && restored == Some(myStateQueue[objId][|myStateQueue[objId]| - 1])
    {
      var q := myStateQueue[objId];
      if q == [] { return None; }
      while |q| > 1 && q[|q| - 1].time > rollbackTime
        invariant q != [] && Restored(q, rollbackTime) == Restored(old(myStateQueue[objId]), rollbackTime)
      {
        q := q[..|q| - 1];
      }
      myStateQueue[objId] := q;
      restored := Some(q[|q| - 1]);
    }

    /** saveState: every so often, as the counter says, the state joins its queue in the order of times. */
    method SaveState(objId: nat, state: Saved<S>) returns (saved: bool)
      requires Valid() && objId < myStateQueue.Length
      modifies myStateQueue, periodCounter
      ensures forall i :: 0 <= i < myStateQueue.Length && i != objId ==>
                myStateQueue[i] == old(myStateQueue[i]) && periodCounter[i] == old(periodCounter[i])
      ensures saved <==> old(periodCounter[objId]) <= 0
      ensures periodCounter[objId] == if saved then objectStatePeriod[objId] else old(periodCounter[objId]) - 1
      ensures myStateQueue[objId] == if saved then Saving(old(myStateQueue[objId]), state) else old(myStateQueue[objId])
      ensures TimeOrdered(old(myStateQueue[objId])) ==> TimeOrdered(myStateQueue[objId])
      ensures saved ==> multiset(myStateQueue[objId]) == multiset(old(myStateQueue[objId])) + multiset{state}
    {
      saved := periodCounter[objId] <= 0;
      if saved {
        InsertState(objId, state);
        periodCounter[objId] := objectStatePeriod[objId];
      } else {
        periodCounter[objId] := periodCounter[objId] - 1;
      }
    }

    /** Insertion into the multiset. */
    method InsertState(objId: nat, state: Saved<S>)
      requires objId < myStateQueue.Length
      modifies myStateQueue
      ensures forall i :: 0 <= i < myStateQueue.Length && i != objId ==> myStateQueue[i] == old(myStateQueue[i])
      ensures myStateQueue[objId] == Saving(old(myStateQueue[objId]), state)
      ensures TimeOrdered(old(myStateQueue[objId])) ==> TimeOrdered(myStateQueue[objId])
      ensures multiset(myStateQueue[objId]) == multiset(old(myStateQueue[objId])) + multiset{state}
    {
      var q := myStateQueue[objId];
      var k := |q|;
      while k > 0 && q[k - 1].time > state.time
        invariant 0 <= k <= |q| && forall i :: k <= i < |q| ==> q[i].time > state.time
      {
        k := k - 1;
      }
      SavingAt(q, state, k);
      SavingFacts(q, state);
      myStateQueue[objId] := q[..k] + [state] + q[k..];
    }

    /** Drops a queue's states at a finite time or, with None for positive infinity, all of them. Returns the
        oldest time left. */
    method DropStates(objId: nat, fossilCollectTime: Option<int>) returns (oldest: Option<int>)
      requires objId < myStateQueue.Length
      modifies myStateQueue
      ensures forall i :: 0 <= i < myStateQueue.Length && i != objId ==> myStateQueue[i] == old(myStateQueue[i])
      ensures myStateQueue[objId] ==
              if fossilCollectTime == None then [] else Kept(old(myStateQueue[objId]), fossilCollectTime.value)
      ensures oldest == if myStateQueue[objId] == [] then None else Some(myStateQueue[objId][0].time)
    {
      var q := myStateQueue[objId];
      var drop := |q|;
      if fossilCollectTime.Some? {
        drop := ScanOlder(q, fossilCollectTime.value);
        if drop > 0 {
          drop := drop - 1;
        }
      }
      myStateQueue[objId] := q[drop..];
      oldest := if q[drop..] == [] then None else Some(q[drop].time);
    }

    /** fossilCollect: the time returned is that of the last state before the collection time, if there is one. */
    method FossilCollect(objId: nat, fossilCollectTime: Option<int>) returns (oldest: Option<int>)
      requires objId < myStateQueue.Length
      modifies myStateQueue
      ensures forall i :: 0 <= i < myStateQueue.Length && i != objId ==> myStateQueue[i] == old(myStateQueue[i])
      ensures myStateQueue[objId] ==
              if fossilCollectTime == None then [] else Kept(old(myStateQueue[objId]), fossilCollectTime.value)
      ensures oldest == if myStateQueue[objId] == [] then None else Some(myStateQueue[objId][0].time)
      ensures var q := old(myStateQueue[objId]);
              fossilCollectTime.Some? && q != [] && TimeOrdered(q) && q[0].time < fossilCollectTime.value ==>
                && oldest.Some? && oldest.value < fossilCollectTime.value
                && forall i :: 0 <= i < |q| ==> q[i].time <= oldest.value || q[i].time >= fossilCollectTime.value
    {
      ghost var q := myStateQueue[objId];
      oldest := DropStates(objId, fossilCollectTime);
      if fossilCollectTime.Some? && q != [] && TimeOrdered(q) { KeptOldest(q, fossilCollectTime.value); }
    }

    /** All queues are collected; returns the oldest time each of them keeps. */
    method FossilCollectAll(fossilCollectTime: int) returns (minTimes: seq<int>)
      requires forall i :: 0 <= i < myStateQueue.Length ==> myStateQueue[i] != []
      modifies myStateQueue
      ensures |minTimes| == myStateQueue.Length
      ensures forall i :: 0 <= i < myStateQueue.Length ==>
                && myStateQueue[i] == Kept(old(myStateQueue[i]), fossilCollectTime)
                && myStateQueue[i] != [] && minTimes[i] == myStateQueue[i][0].time
    {
      minTimes := [];
      for i := 0 to myStateQueue.Length
        invariant |minTimes| == i
        invariant forall k :: 0 <= k < i ==>
                    && myStateQueue[k] == Kept(old(myStateQueue[k]), fossilCollectTime)
                    && myStateQueue[k] != [] && minTimes[k] == myStateQueue[k][0].time
        invariant forall k :: i <= k < myStateQueue.Length ==> myStateQueue[k] == old(myStateQueue[k])
      {
        var oldest := DropStates(i, Some(fossilCollectTime));
        minTimes := minTimes + [oldest.value];
      }
    }
  }

  method Least(ts: seq<int>) returns (min: int)
    requires ts != []
    ensures exists i :: 0 <= i < |ts| && min == ts[i]
    ensures forall i :: 0 <= i < |ts| ==> min <= ts[i]
  {
    min := ts[0];
    for i := 1 to |ts|
      invariant exists k :: 0 <= k < |ts| && min == ts[k]
      invariant forall k :: 0 <= k < i ==> min <= ts[k]
    {
      if ts[i] < min {
        min := ts[i];
      }
    }
  }

  lemma {:induction false} SavingAt<S>(q: seq<Saved<S>>, x: Saved<S>, k: nat)
    requires k <= |q| && (forall i :: k <= i < |q| ==> q[i].time > x.time) && (k > 0 ==> q[k - 1].time <= x.time)
    ensures Saving(q, x) == q[..k] + [x] + q[k..]
  {
    if k < |q| {
      var rest := q[..|q| - 1];
      SavingAt(rest, x, k);
      assert q[..k] + [x] + q[k..] == (rest[..k] + [x] + rest[k..]) + [q[|q| - 1]];
    } else {
      assert q[..k] + [x] + q[k..] == q + [x];
    }
  }

  lemma {:induction false} LowerBoundUnique<S>(q: seq<Saved<S>>, t: int, n: nat)
    requires n <= |q| && (forall i :: 0 <= i < n ==> q[i].time < t) && (n < |q| ==> q[n].time >= t)
    ensures LowerBound(q, t) == n
  {
    if n > 0 { LowerBoundUnique(q[1..], t, n - 1); }
  }

  /** Looking at the next event twice is looking at it once. */
  lemma PeekTwice(c: Container)
    ensures EventContainer.NextEvent(EventContainer.NextEvent(c).0) == EventContainer.NextEvent(c)
    ensures EventContainer.GetNextEvent(EventContainer.NextEvent(c).0) == EventContainer.GetNextEvent(c)
  {
  }

  lemma CoastPeeked<S>(exec: (S, Event) -> S, o: Obj<S>, t: int)
    ensures Coast(exec, o.(box := EventContainer.NextEvent(o.box).0), t) == Coast(exec, o, t)
  {
    PeekTwice(o.box);
  }

  /** The kernel's handling of one object: its event container, and its queue at the state manager. */
  class ObjectKernel<S(!new)> {
    const eventSet: DefaultTimeWarpEventContainer
    const stateManager: StateManager<S>
    const id: nat
    var simTime: int
    var state: S

    ghost predicate Valid() {
      stateManager.Valid() && id < stateManager.myStateQueue.Length
    }

    ghost function Value(): Obj<S>
      requires Valid()
      reads this, eventSet, stateManager.myStateQueue
    {
      Obj(simTime, state, stateManager.myStateQueue[id], eventSet.Value())
    }

    /** initialize: the first state is saved for time zero. */
    constructor (init: S, manager: StateManager<S>, objId: nat)
      requires manager.Valid() && objId < manager.myStateQueue.Length
      requires manager.myStateQueue[objId] == [] && manager.periodCounter[objId] <= 0
      modifies manager.myStateQueue, manager.periodCounter
      ensures Valid() && stateManager == manager && id == objId && fresh(eventSet)
      ensures Value() == Obj(0, init, [Saved(0, init)], EMPTY)
      ensures forall i :: 0 <= i < manager.myStateQueue.Length && i != objId ==>
                manager.myStateQueue[i] == old(manager.myStateQueue[i])
    {
      eventSet := new DefaultTimeWarpEventContainer();
      stateManager, id, simTime, state := manager, objId, 0, init;
      new;
      var saved := stateManager.SaveState(id, Saved(0, init));
    }

    method CoastForward(exec: (S, Event) -> S, moveUpToTime: int)
      requires Valid()
      modifies this, eventSet
      ensures Value() == Coast(exec, old(Value()), moveUpToTime)
    {
      CoastPeeked(exec, Value(), moveUpToTime);
      PeekTwice(eventSet.Value());
      var findEvent := eventSet.NextEvent();
      while findEvent.Some? && findEvent.value.receiveTime < moveUpToTime
        invariant EventContainer.NextEvent(eventSet.Value()) == (eventSet.Value(), findEvent)
        invariant Coast(exec, Value(), moveUpToTime) == Coast(exec, old(Value()), moveUpToTime)
        decreases |eventSet.unprocessedEvents|
      {
        simTime := findEvent.value.receiveTime;
        state := exec(state, findEvent.value);
        findEvent := eventSet.GetNextEvent();
        CoastPeeked(exec, Value(), moveUpToTime);
        PeekTwice(eventSet.Value());
        findEvent := eventSet.NextEvent();
      }
    }

    /** The last state not after the rollback time is restored, executed events go back, and the object
        coasts forward. */
    method Rollback(exec: (S, Event) -> S, rollbackTime: int)
      requires Valid() && stateManager.myStateQueue[id] != []
      modifies this, eventSet, stateManager.myStateQueue
      ensures Value() == RollbackTo(exec, old(Value()), rollbackTime)
      ensures forall i :: 0 <= i < stateManager.myStateQueue.Length && i != id ==>
                stateManager.myStateQueue[i] == old(stateManager.myStateQueue[i])
    {
      var restored := stateManager.RestoreState(id, rollbackTime);
      state, simTime := restored.value.state, restored.value.time;
      eventSet.Rollback(simTime);
      assert Value() == AtRestored(old(Value()), rollbackTime);
      CoastForward(exec, rollbackTime);
    }

    method HandleLocalEvent(exec: (S, Event) -> S, event: Event)
      requires Valid() && stateManager.myStateQueue[id] != []
      modifies this, eventSet, stateManager.myStateQueue
      ensures Value() == Deliver(exec, old(Value()), event)
      ensures forall i :: 0 <= i < stateManager.myStateQueue.Length && i != id ==>
                stateManager.myStateQueue[i] == old(stateManager.myStateQueue[i])
    {
      if event.receiveTime <= simTime {
        Rollback(exec, event.receiveTime);
      }
      eventSet.Insert(event);
    }

    method CancelLocalEvents(exec: (S, Event) -> S, eventsToCancel: seq<Event>)
      requires Valid() && stateManager.myStateQueue[id] != [] && eventsToCancel != []
      modifies this, eventSet, stateManager.myStateQueue
      ensures Value() == Cancel(exec, old(Value()), eventsToCancel)
      ensures forall i :: 0 <= i < stateManager.myStateQueue.Length && i != id ==>
                stateManager.myStateQueue[i] == old(stateManager.myStateQueue[i])
    {
      var lowTime := FindLowTime(eventsToCancel);
      if lowTime <= simTime {
        Rollback(exec, lowTime);
      }
      RemoveAll(eventsToCancel);
    }

    method RemoveAll(eventsToCancel: seq<Event>)
      requires Valid()
      modifies eventSet
      ensures eventSet.Value() == AntiMessages(old(eventSet.Value()), eventsToCancel)
    {
      var i := 0;
      while i < |eventsToCancel|
        invariant 0 <= i <= |eventsToCancel|
        invariant AntiMessages(eventSet.Value(), eventsToCancel[i..]) ==
                  AntiMessages(old(eventSet.Value()), eventsToCancel)
      {
        assert eventsToCancel[i..][1..] == eventsToCancel[i + 1..];
        var found := eventSet.HandleAntiMessage(eventsToCancel[i]);
        i := i + 1;
      }
      assert eventsToCancel[i..] == [];
    }

    /** One turn of the simulation loop for this object; the state manager decides whether to save. */
    method ExecuteObject(exec: (S, Event) -> S) returns (saved: bool)
      requires Valid()
      modifies this, eventSet, stateManager.myStateQueue, stateManager.periodCounter
      ensures Value() == Execute(exec, old(Value()), saved)
      ensures forall i :: 0 <= i < stateManager.myStateQueue.Length && i != id ==>
                stateManager.myStateQueue[i] == old(stateManager.myStateQueue[i])
    {
      saved := false;
      var nextEvent := eventSet.GetNextEvent();
      if nextEvent.Some? {
        simTime := nextEvent.value.receiveTime;
        saved := stateManager.SaveState(id, Saved(simTime, state));
        state := exec(state, nextEvent.value);
      }
    }

    method CollectEvents(oldest: int)
      modifies eventSet
      ensures eventSet.Value() == EventContainer.FossilCollect(old(eventSet.Value()), oldest)
    {
      var reclaimed := eventSet.FossilCollect(oldest);
    }
  }

  /** All objects of a manager. */
  class TimeWarpKernel<S(!new)> {
    const stateManager: StateManager<S>
    const objects: seq<ObjectKernel<S>>

    constructor (manager: StateManager<S>, kernels: seq<ObjectKernel<S>>)
      ensures stateManager == manager && objects == kernels
    {
      stateManager, objects := manager, kernels;
    }

    /** Object `i` keeps its states in queue `i` and its events in a container of its own. */
    ghost predicate Valid() {
      && stateManager.Valid() && |objects| == stateManager.myStateQueue.Length > 0
      && (forall i :: 0 <= i < |objects| ==> objects[i].stateManager == stateManager && objects[i].id == i)
      && (forall i, j :: 0 <= i < j < |objects| ==> objects[i].eventSet != objects[j].eventSet)
    }

    ghost function EventSets(): set<object> {
      set o | o in objects :: o.eventSet
    }

    /** Events of all objects up to the same time. */
    method CollectEvents(oldest: int)
      requires Valid()
      modifies EventSets()
      ensures forall j :: 0 <= j < |objects| ==>
                objects[j].eventSet.Value() == EventContainer.FossilCollect(old(objects[j].eventSet.Value()), oldest)
    {
      for j := 0 to |objects|
        invariant forall i :: 0 <= i < j ==>
                    var c := objects[i].eventSet;
                    c.Value() == EventContainer.FossilCollect(old(c.Value()), oldest)
        invariant forall i :: j <= i < |objects| ==> objects[i].eventSet.Value() == old(objects[i].eventSet.Value())
      {
        objects[j].CollectEvents(oldest);
      }
    }

    /** States of all objects up to GVT; returns the oldest time any of them keeps. */
    method CollectStates(gvt: int) returns (oldest: int)
      requires Valid() && forall i :: 0 <= i < |objects| ==> stateManager.myStateQueue[i] != []
      modifies stateManager.myStateQueue
      ensures forall j :: 0 <= j < |objects| ==>
                && stateManager.myStateQueue[j] == Kept(old(stateManager.myStateQueue[j]), gvt)
                && stateManager.myStateQueue[j] != [] && oldest <= stateManager.myStateQueue[j][0].time
      ensures exists j :: 0 <= j < |objects| && oldest == stateManager.myStateQueue[j][0].time
    {
      var minTimes := stateManager.FossilCollectAll(gvt);
      oldest := Least(minTimes);
      ghost var j :| 0 <= j < |minTimes| && oldest == minTimes[j];
      assert oldest == stateManager.myStateQueue[j][0].time;
    }

    /** fossilCollect: states of all objects up to GVT, then events of all objects up to the oldest state any
        of them kept. */
    method FossilCollect(gvt: int) returns (oldest: int)
      requires Valid() && forall i :: 0 <= i < |objects| ==> stateManager.myStateQueue[i] != []
      modifies EventSets(), stateManager.myStateQueue
      ensures forall j :: 0 <= j < |objects| ==> objects[j].Value() == Collect(old(objects[j].Value()), gvt, oldest)
      ensures forall j :: 0 <= j < |objects| ==>
                stateManager.myStateQueue[j] != [] && oldest <= stateManager.myStateQueue[j][0].time
      ensures exists j :: 0 <= j < |objects| && oldest == stateManager.myStateQueue[j][0].time
    {
      oldest := CollectStates(gvt);
      CollectEvents(oldest);
      forall j | 0 <= j < |objects| ensures objects[j].Value() == Collect(old(objects[j].Value()), gvt, oldest) {
        assert objects[j].id == j && objects[j].stateManager == stateManager;
      }
    }
  }

  method FindLowTime(es: seq<Event>) returns (t: int)
    requires es != []
    ensures t == LowTime(es)
  {
    t := es[0].receiveTime;
    var i := 0;
    while i < |es|
      invariant 0 <= i <= |es|
      invariant forall k :: 0 <= k < i ==> t <= es[k].receiveTime
      invariant exists k :: 0 <= k < |es| && t == es[k].receiveTime
    {
      if t > es[i].receiveTime {
        t := es[i].receiveTime;
      }
      i := i + 1;
    }
    var k :| 0 <= k < |es| && t == es[k].receiveTime;
    LowTimeUnique(es, k);
  }

  lemma {:induction false} LowTimeUnique(es: seq<Event>, k: nat)
    requires k < |es| && forall i :: 0 <= i < |es| ==> es[k].receiveTime <= es[i].receiveTime
    ensures LowTime(es) == es[k].receiveTime
  {
    if |es| > 1 {
      var rest := es[1..];
      if k > 0 {
        LowTimeUnique(rest, k - 1);
        assert es[k].receiveTime <= es[0].receiveTime;
      } else {
        LowTimeBound(rest, es[0].receiveTime);
      }
    }
  }

  lemma {:induction false} LowTimeBound(es: seq<Event>, t: int)
    requires es != [] && forall i :: 0 <= i < |es| ==> t <= es[i].receiveTime
    ensures t <= LowTime(es)
  {
    if |es| > 1 { LowTimeBound(es[1..], t); }
  }
}
