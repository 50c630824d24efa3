module EventContainer {
  // The events of one simulation object (DefaultTimeWarpEventContainer) on values: unprocessed, processed
  // and removed events and anti-messages that arrived before their event.

  import opened Wrappers

  /** An anti-message carries the same fields as the event it cancels. */
  datatype Event = Event(receiveTime: int, id: nat, sender: nat)

  datatype Container = Container(
    unprocessed: seq<Event>, processed: seq<Event>, removed: seq<Event>, negative: seq<Event>, sorted: bool)

  const EMPTY := Container([], [], [], [], true)

  /** receiveTimeLessThanEventIdLessThan. */
  predicate Less(a: Event, b: Event) {
    if a.receiveTime != b.receiveTime then a.receiveTime < b.receiveTime
    else if a.id != b.id then a.id < b.id
    else a.sender < b.sender
  }

  /** A total order: receive time, then id, then sender. */
  lemma LessIsLexicographic(a: Event, b: Event)
    ensures Less(a, b) <==> a.receiveTime < b.receiveTime
                            || (a.receiveTime == b.receiveTime
                                && (a.id < b.id || (a.id == b.id && a.sender < b.sender)))
    ensures !Less(a, b) && !Less(b, a) <==> a == b
  {
  }

  predicate SameKey(a: Event, b: Event) {
    a.id == b.id && a.sender == b.sender
  }

  /** First element with the key of `e`; the length if there is none. */
  function Find(s: seq<Event>, e: Event): (k: nat)
    ensures k <= |s|
    ensures forall i :: 0 <= i < k ==> !SameKey(s[i], e)
    ensures k < |s| ==> SameKey(s[k], e)
  {
    if s == [] || SameKey(s[0], e) then 0 else 1 + Find(s[1..], e)
  }

  /** Length of the longest prefix of events before `t`. */
  function Early(s: seq<Event>, t: int): (n: nat)
    ensures n <= |s|
    ensures forall i :: 0 <= i < n ==> s[i].receiveTime < t
    ensures n < |s| ==> s[n].receiveTime >= t
  {
    if s == [] || s[0].receiveTime >= t then 0 else 1 + Early(s[1..], t)
  }

  function Place(s: seq<Event>, e: Event): (r: seq<Event>)
    ensures |r| == |s| + 1
  {
    if s == [] || Less(e, s[0]) then [e] + s else [s[0]] + Place(s[1..], e)
  }

  function SortEvents(s: seq<Event>): (r: seq<Event>)
    ensures |r| == |s|
  {
    if s == [] then [] else Place(SortEvents(s[1..]), s[0])
  }

  ghost predicate Sorted(s: seq<Event>) {
    forall i, j :: 0 <= i < j < |s| ==> !Less(s[j], s[i])
  }

  // ----- operations -----

  function Insert(c: Container, e: Event): Container {
    var k := Find(c.negative, e);
    if k < |c.negative| then c.(removed := c.removed + [e], negative := Without(c.negative, k))
    else c.(unprocessed := c.unprocessed + [e], sorted := false)
  }

  function HandleAntiMessage(c: Container, a: Event): (Container, bool) {
    var k := Find(c.unprocessed, a);
    if k < |c.unprocessed| then
      (c.(removed := c.removed + [c.unprocessed[k]], unprocessed := Without(c.unprocessed, k)), true)
    else (c.(negative := c.negative + [a]), false)
  }

  function Rollback(c: Container, t: int): Container {
    var n := Early(c.processed, t);
    c.(unprocessed := c.unprocessed + c.processed[n..], processed := c.processed[..n], sorted := false)
  }

  function Resort(c: Container): Container {
    if c.sorted then c else c.(unprocessed := SortEvents(c.unprocessed), sorted := true)
  }

  function NextEvent(c: Container): (Container, Option<Event>) {
    var c' := if c.unprocessed == [] then c else Resort(c);
    (c', if c'.unprocessed == [] then None else Some(c'.unprocessed[0]))
  }

  function GetNextEvent(c: Container): (Container, Option<Event>) {
    var (c', e) := NextEvent(c);
    if e == None || c'.unprocessed == [] then (c', e)
    else (c'.(unprocessed := c'.unprocessed[1..], processed := c'.processed + [e.value]), e)
  }

  function NotBefore(s: seq<Event>, t: int): seq<Event> {
    if s == [] then [] else (if s[0].receiveTime < t then [] else [s[0]]) + NotBefore(s[1..], t)
  }

  /** Exactly the events before `t` go, the others as often as they were there. */
  lemma {:induction false} NotBeforeIs(s: seq<Event>, t: int, e: Event)
    ensures multiset(NotBefore(s, t))[e] == if e.receiveTime >= t then multiset(s)[e] else 0
  {
    if s != [] {
      assert s == [s[0]] + s[1..];
      NotBeforeIs(s[1..], t, e);
    }
  }

  function FossilCollect(c: Container, t: int): Container {
    var c' := Resort(c);
    c'.(processed := c.processed[Early(c.processed, t)..], removed := NotBefore(c.removed, t))
  }

  function IsInThePast(c: Container, e: Event): bool {
    c.processed != [] && Less(e, c.processed[|c.processed| - 1])
  }

  // ----- annihilation -----

  /** An anti-message is handled at once if and only if an event with its id and sender waits; it takes the first one,
      whatever its other fields, and otherwise waits itself. */
  lemma AntiMessageFoundIff(c: Container, a: Event)
    ensures var (c', found) := HandleAntiMessage(c, a);
            && (found <==> exists i :: 0 <= i < |c.unprocessed|
                                       && c.unprocessed[i].id == a.id && c.unprocessed[i].sender == a.sender)
            && |c'.unprocessed| == (if found then |c.unprocessed| - 1 else |c.unprocessed|)
            && c'.negative == (if found then c.negative else c.negative + [a])
            && c'.processed == c.processed
  {
    var k := Find(c.unprocessed, a);
    if k < |c.unprocessed| { assert SameKey(c.unprocessed[k], a); }
    assert forall i :: 0 <= i < k ==> !SameKey(c.unprocessed[i], a);
  }

  /** An event does not join the waiting ones if and only if an anti-message with its id and sender waits. */
  lemma InsertAnnihilatedIff(c: Container, e: Event)
    ensures var c' := Insert(c, e);
            var met := exists i :: 0 <= i < |c.negative|
                                   && c.negative[i].id == e.id && c.negative[i].sender == e.sender;
            && c'.unprocessed == (if met then c.unprocessed else c.unprocessed + [e])
            && |c'.negative| == (if met then |c.negative| - 1 else |c.negative|)
            && c'.processed == c.processed
  {
    var k := Find(c.negative, e);
    if k < |c.negative| { assert SameKey(c.negative[k], e); }
    assert forall i :: 0 <= i < k ==> !SameKey(c.negative[i], e);
  }

  // ----- sorting -----

  lemma {:induction false} PlaceAdds(s: seq<Event>, e: Event)
    ensures multiset(Place(s, e)) == multiset(s) + multiset{e}
  {
    if s != [] && !Less(e, s[0]) {
      PlaceAdds(s[1..], e);
      assert s == [s[0]] + s[1..];
    }
  }

  lemma SortedCons(x: Event, t: seq<Event>)
    requires Sorted(t) && forall y :: y in t ==> !Less(y, x)
    ensures Sorted([x] + t)
  {
    var r := [x] + t;
    assert forall i :: 1 <= i < |r| ==> r[i] == t[i - 1] && r[i] in t;
  }

  lemma {:induction false} PlaceSorts(s: seq<Event>, e: Event)
    requires Sorted(s)
    ensures Sorted(Place(s, e))
  {
    if s == [] {
    } else if Less(e, s[0]) {
      SortedCons(e, s);
    } else {
      PlaceSorts(s[1..], e);
      PlaceAdds(s[1..], e);
      forall y | y in Place(s[1..], e) ensures !Less(y, s[0]) {
        assert y in multiset(Place(s[1..], e));
        assert y == e || y in s[1..];
      }
      SortedCons(s[0], Place(s[1..], e));
    }
  }

  lemma {:induction false} SortEventsSorts(s: seq<Event>)
    ensures Sorted(SortEvents(s)) && multiset(SortEvents(s)) == multiset(s)
  {
    if s != [] {
      SortEventsSorts(s[1..]);
      PlaceSorts(SortEvents(s[1..]), s[0]);
      PlaceAdds(SortEvents(s[1..]), s[0]);
      assert s == [s[0]] + s[1..];
    }
  }

  lemma SortedTail(s: seq<Event>)
    requires Sorted(s) && s != []
    ensures Sorted(s[1..]) && multiset(s) == multiset{s[0]} + multiset(s[1..])
    ensures forall y :: y in s ==> !Less(y, s[0])
  {
    assert s == [s[0]] + s[1..];
  }

  lemma SameHead(a: Event, b: Event)
    requires !Less(a, b) && !Less(b, a)
    ensures a == b
  {
  }

  /** A sorted listing is determined by what it lists. */
  lemma {:induction false} SortedUnique(s: seq<Event>, t: seq<Event>)
    requires Sorted(s) && Sorted(t) && multiset(s) == multiset(t)
    ensures s == t
  {
    if s == [] {
      assert |t| == |multiset(t)|;
    } else {
      assert s[0] in multiset(t);
      SortedTail(s);
      SortedTail(t);
      assert t[0] in multiset(s);
      SameHead(s[0], t[0]);
      SameRest(s[0], multiset(s[1..]), multiset(t[1..]));
      SortedUnique(s[1..], t[1..]);
      assert s == [s[0]] + s[1..] && t == [t[0]] + t[1..];
    }
  }

  lemma SameRest(e: Event, a: multiset<Event>, b: multiset<Event>)
    requires multiset{e} + a == multiset{e} + b
    ensures a == b
  {
    assert a == multiset{e} + a - multiset{e} && b == multiset{e} + b - multiset{e};
  }

  // ----- what every operation keeps -----

  /** The events executed so far: those reclaimed by fossil collection, then the processed ones. */
  ghost function History(collected: seq<Event>, c: Container): seq<Event> {
    collected + c.processed
  }

  /** The executed events are in order, and none that waits belongs before one that was executed. */
  ghost predicate InOrder(collected: seq<Event>, c: Container) {
    && Sorted(History(collected, c))
    && (forall h, u :: h in History(collected, c) && u in c.unprocessed ==> !Less(u, h))
    && (c.sorted ==> Sorted(c.unprocessed))
  }

  /** Every event held, with its number of copies. */
  ghost function Held(collected: seq<Event>, c: Container): multiset<Event> {
    multiset(History(collected, c)) + multiset(c.unprocessed)
  }

  lemma ResortFacts(c: Container)
    requires c.sorted ==> Sorted(c.unprocessed)
    ensures Sorted(Resort(c).unprocessed) && multiset(Resort(c).unprocessed) == multiset(c.unprocessed)
    ensures forall u :: u in Resort(c).unprocessed <==> u in c.unprocessed
    ensures |Resort(c).unprocessed| == |c.unprocessed|
  {
    SortEventsSorts(c.unprocessed);
    var s, t := Resort(c).unprocessed, c.unprocessed;
    assert |s| == |multiset(s)| && |t| == |multiset(t)|;
    forall u ensures u in s <==> u in t { assert u in s <==> u in multiset(s); assert u in t <==> u in multiset(t); }
  }

  /** An event that does not belong before an executed one may be inserted. */
  lemma InsertKeepsOrder(collected: seq<Event>, c: Container, e: Event)
    requires InOrder(collected, c) && forall h :: h in History(collected, c) ==> !Less(e, h)
    ensures InOrder(collected, Insert(c, e))
  {
  }

  lemma WithoutFacts(s: seq<Event>, k: nat)
    requires k < |s|
    ensures multiset(s) == multiset(Without(s, k)) + multiset{s[k]}
    ensures forall x :: x in Without(s, k) ==> x in s
    ensures Sorted(s) ==> Sorted(Without(s, k))
  {
    WithoutConserves(s, k);
  }

  lemma AntiMessageKeepsOrder(collected: seq<Event>, c: Container, a: Event)
    requires InOrder(collected, c)
    ensures InOrder(collected, HandleAntiMessage(c, a).0)
  {
    var k := Find(c.unprocessed, a);
    if k < |c.unprocessed| { WithoutFacts(c.unprocessed, k); }
  }

  lemma SortedSplit(s: seq<Event>, n: nat)
    requires Sorted(s) && n <= |s|
    ensures Sorted(s[..n]) && forall x, y :: x in s[..n] && y in s[n..] ==> !Less(y, x)
  {
  }

  lemma TimesFollow(s: seq<Event>, t: int)
    requires Sorted(s)
    ensures forall i :: Early(s, t) <= i < |s| ==> s[i].receiveTime >= t
  {
    var n := Early(s, t);
    forall i | n <= i < |s| ensures s[i].receiveTime >= t {
      assert i == n || !Less(s[i], s[n]);
    }
  }

  /** Executed events before `t`. */
  ghost function Before(h: seq<Event>, t: int): seq<Event> {
    h[..Early(h, t)]
  }

  lemma {:induction false} EarlyUnique(s: seq<Event>, t: int, n: nat)
    requires n <= |s| && (forall i :: 0 <= i < n ==> s[i].receiveTime < t) && (n < |s| ==> s[n].receiveTime >= t)
    ensures Early(s, t) == n
  {
    if n > 0 { EarlyUnique(s[1..], t, n - 1); }
  }

  /** Rolling back cuts the executed events where the first one not before `t` stands. */
  lemma RollbackCut(collected: seq<Event>, processed: seq<Event>, t: int)
    requires forall e :: e in collected ==> e.receiveTime < t
    ensures var n, h := Early(processed, t), collected + processed;
            && Early(h, t) == |collected| + n
            && h[..Early(h, t)] == collected + processed[..n] && h[Early(h, t)..] == processed[n..]
  {
    var n, h := Early(processed, t), collected + processed;
    forall i | 0 <= i < |collected| + n ensures h[i].receiveTime < t {
      if i < |collected| { assert h[i] in collected; }
    }
    EarlyUnique(h, t, |collected| + n);
  }

  lemma CutOrder(h: seq<Event>, u: seq<Event>, m: nat)
    requires Sorted(h) && m <= |h| && forall x, y :: x in h && y in u ==> !Less(y, x)
    ensures Sorted(h[..m]) && forall x, y :: x in h[..m] && y in u + h[m..] ==> !Less(y, x)
    ensures multiset(h[..m]) + multiset(u + h[m..]) == multiset(h) + multiset(u)
  {
    SortedSplit(h, m);
    assert h == h[..m] + h[m..];
  }

  /** Rolling back keeps exactly the executed events before `t` and the rest waits again. */
  lemma RollbackFacts(collected: seq<Event>, c: Container, t: int)
    requires InOrder(collected, c) && forall e :: e in collected ==> e.receiveTime < t
    ensures InOrder(collected, Rollback(c, t))
    ensures Held(collected, Rollback(c, t)) == Held(collected, c)
    ensures History(collected, Rollback(c, t)) == Before(History(collected, c), t)
    ensures forall u :: u in Rollback(c, t).unprocessed && u !in c.unprocessed ==> u.receiveTime >= t
  {
    var h := History(collected, c);
    var m := Early(h, t);
    RollbackCut(collected, c.processed, t);
    CutOrder(h, c.unprocessed, m);
    TimesFollow(h, t);
    assert Rollback(c, t).unprocessed == c.unprocessed + h[m..];
  }

  /** The least waiting event moves to the end of the executed ones. */
  lemma MoveHead(h: seq<Event>, s: seq<Event>)
    requires Sorted(h) && Sorted(s) && s != [] && forall x, y :: x in h && y in s ==> !Less(y, x)
    ensures Sorted(h + [s[0]]) && Sorted(s[1..]) && forall x, y :: x in h + [s[0]] && y in s[1..] ==> !Less(y, x)
    ensures multiset(h + [s[0]]) + multiset(s[1..]) == multiset(h) + multiset(s)
  {
    SortedTail(s);
  }

  /** The next event is the least waiting one and is appended to the executed events. */
  lemma GetNextFacts(collected: seq<Event>, c: Container)
    requires InOrder(collected, c)
    ensures var (c', e) := GetNextEvent(c);
            && InOrder(collected, c') && Held(collected, c') == Held(collected, c)
            && c'.negative == c.negative
            && (if c.unprocessed == [] then e == None && c' == c
                else && e.Some? && e.value in c.unprocessed && (forall u :: u in c.unprocessed ==> !Less(u, e.value))
                     && History(collected, c') == History(collected, c) + [e.value]
                     && |c'.unprocessed| == |c.unprocessed| - 1
                     && (forall u :: u in c'.unprocessed ==> u in c.unprocessed))
  {
    if c.unprocessed != [] {
      ResortFacts(c);
      var s, h := Resort(c).unprocessed, History(collected, c);
      SortedTail(s);
      MoveHead(h, s);
      assert collected + (c.processed + [s[0]]) == h + [s[0]];
      assert GetNextEvent(c).0 == Resort(c).(unprocessed := s[1..], processed := c.processed + [s[0]]);
    }
  }

  /** Collecting moves the first processed events out; the history reads the same. */
  lemma FossilHistory(collected: seq<Event>, c: Container, t: int)
    ensures History(collected + c.processed[..Early(c.processed, t)], FossilCollect(c, t)) == History(collected, c)
  {
    var n := Early(c.processed, t);
    Regroup(collected, c.processed[..n], c.processed[n..]);
    assert c.processed == c.processed[..n] + c.processed[n..];
    assert FossilCollect(c, t).processed == c.processed[n..];
  }

  lemma FossilFacts(collected: seq<Event>, c: Container, t: int)
    requires InOrder(collected, c)
    ensures var collected' := collected + c.processed[..Early(c.processed, t)];
            && InOrder(collected', FossilCollect(c, t))
            && Held(collected', FossilCollect(c, t)) == Held(collected, c)
  {
    FossilHistory(collected, c, t);
    ResortFacts(c);
  }
}
