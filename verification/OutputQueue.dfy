module OutputQueue {
  // The output queue of one simulation object: the events it has sent, kept in sending order in one list
  // for receivers on this manager and one for remote receivers, plus the remote events that a rollback took
  // out and that wait for fossil collection.

  type VTime = int

  datatype Receiver = Receiver(objectId: nat, isLocal: bool)

  /** `content` is whatever an application's eventCompare looks at besides the routing and the times:
      every equivalence that respects those is equality of some such label. */
  datatype Event = Event(id: nat, receiver: Receiver, sendTime: VTime, recvTime: VTime, content: int)

  /** eventCompare: the same message, whatever its event id. */
  predicate EventCompare(a: Event, b: Event) {
    a.(id := b.id) == b
  }

  ghost predicate Alike(s: seq<Event>, t: seq<Event>) {
    |s| == |t| && forall i :: 0 <= i < |s| ==> EventCompare(s[i], t[i])
  }

  datatype Output = Output(local: seq<Event>, remote: seq<Event>, removed: seq<Event>)

  const EMPTY := Output([], [], [])

  function RemoveFirst(s: seq<Event>, e: Event): seq<Event> {
    if s == [] then [] else if s[0] == e then s[1..] else [s[0]] + RemoveFirst(s[1..], e)
  }

  lemma {:induction false} RemoveFirstMultiset(s: seq<Event>, e: Event)
    ensures multiset(RemoveFirst(s, e)) == multiset(s) - multiset{e}
  {
    if s != [] {
      assert s == [s[0]] + s[1..];
      RemoveFirstMultiset(s[1..], e);
    }
  }

  function Insert(o: Output, e: Event): Output {
    if e.receiver.isLocal then o.(local := o.local + [e])
    else o.(remote := o.remote + [e], removed := RemoveFirst(o.removed, e))
  }

  /** How many events stay when the queue is scanned from the back for send times >= t. */
  function Kept(s: seq<Event>, t: VTime): (n: nat)
    ensures n <= |s|
    ensures forall i :: n <= i < |s| ==> s[i].sendTime >= t
    ensures n > 0 ==> s[n - 1].sendTime < t
  {
    if s == [] then 0
    else if s[|s| - 1].sendTime >= t then Kept(s[..|s| - 1], t)
    else |s|
  }

  function Reverse(s: seq<Event>): (r: seq<Event>)
    ensures |r| == |s|
    ensures multiset(r) == multiset(s)
    ensures forall i :: 0 <= i < |s| ==> r[i] == s[|s| - 1 - i]
  {
    if s == [] then [] else
      assert s == s[..|s| - 1] + [s[|s| - 1]];
      [s[|s| - 1]] + Reverse(s[..|s| - 1])
  }

  /** getEventsSentAtOrAfterAndRemove: what is returned, latest first, local before remote ... */
  function Taken(o: Output, t: VTime): seq<Event> {
    Reverse(o.local[Kept(o.local, t)..]) + Reverse(o.remote[Kept(o.remote, t)..])
  }

  /** ... and what is left behind. */
  function Cut(o: Output, t: VTime): Output {
    Output(o.local[..Kept(o.local, t)], o.remote[..Kept(o.remote, t)],
           o.removed + Reverse(o.remote[Kept(o.remote, t)..]))
  }

  /** Length of the prefix with send times < t. */
  function Stale(s: seq<Event>, t: VTime): (n: nat)
    ensures n <= |s|
    ensures forall i :: 0 <= i < n ==> s[i].sendTime < t
    ensures n < |s| ==> s[n].sendTime >= t
  {
    if s != [] && s[0].sendTime < t then 1 + Stale(s[1..], t) else 0
  }

  /** What is left when that prefix goes. */
  function Unstale(s: seq<Event>, t: VTime): seq<Event> {
    if s != [] && s[0].sendTime < t then Unstale(s[1..], t) else s
  }

  lemma UnstaleIs(s: seq<Event>, t: VTime)
    ensures Unstale(s, t) == s[Stale(s, t)..]
  {
    if s != [] && s[0].sendTime < t { UnstaleIs(s[1..], t); }
  }

  function NotBefore(s: seq<Event>, t: VTime): (r: seq<Event>)
    ensures multiset(r) <= multiset(s)
    ensures forall e :: e in r <==> e in s && e.sendTime >= t
  {
    if s == [] then []
    else
      assert s == [s[0]] + s[1..];
      if s[0].sendTime < t then NotBefore(s[1..], t) else [s[0]] + NotBefore(s[1..], t)
  }

  function FossilCollect(o: Output, g: VTime): Output {
    Output(o.local[Stale(o.local, g)..], o.remote[Stale(o.remote, g)..], NotBefore(o.removed, g))
  }

  // ----- alike queues are cut alike -----

  lemma {:induction false} AlikeKept(s: seq<Event>, u: seq<Event>, t: VTime)
    requires Alike(s, u)
    ensures Kept(s, t) == Kept(u, t)
  {
    if s != [] { AlikeKept(s[..|s| - 1], u[..|u| - 1], t); }
  }

  lemma {:induction false} AlikeStale(s: seq<Event>, u: seq<Event>, t: VTime)
    requires Alike(s, u)
    ensures Stale(s, t) == Stale(u, t)
  {
    if s != [] { AlikeStale(s[1..], u[1..], t); }
  }

  lemma SplitMultiset(s: seq<Event>, k: nat)
    requires k <= |s|
    ensures multiset(s) == multiset(s[..k]) + multiset(s[k..])
  {
    assert s == s[..k] + s[k..];
  }

  /** Nothing is lost or duplicated by taking events out: what is taken plus what is kept is what was there. */
  lemma CutConserves(o: Output, t: VTime)
    ensures multiset(Taken(o, t)) + multiset(Cut(o, t).local) + multiset(Cut(o, t).remote)
            == multiset(o.local) + multiset(o.remote)
  {
    SplitMultiset(o.local, Kept(o.local, t));
    SplitMultiset(o.remote, Kept(o.remote, t));
  }

  /** The queue is in sending order. */
  ghost predicate InSendOrder(s: seq<Event>) {
    forall i, j :: 0 <= i < j < |s| ==> s[i].sendTime <= s[j].sendTime
  }

  /** On a queue in sending order, the scan from the back finds exactly the events sent at or after t. */
  lemma CutIsExact(s: seq<Event>, t: VTime)
    requires InSendOrder(s)
    ensures forall i :: 0 <= i < |s| ==> (i < Kept(s, t) <==> s[i].sendTime < t)
  {
  }

  ghost predicate ScansExactly(s: seq<Event>) {
    forall t, i :: 0 <= i < |s| ==> (i < Kept(s, t) <==> s[i].sendTime < t)
  }

  /** For all times alike, it does so in no other order. */
  lemma CutExactIff(s: seq<Event>)
    ensures ScansExactly(s) <==> InSendOrder(s)
  {
    if InSendOrder(s) {
      forall t, i | 0 <= i < |s| ensures i < Kept(s, t) <==> s[i].sendTime < t { CutIsExact(s, t); }
    }
    if ScansExactly(s) {
      forall i, j | 0 <= i < j < |s| ensures s[i].sendTime <= s[j].sendTime {
        assert Kept(s, s[i].sendTime) <= i;
      }
    }
  }
}
