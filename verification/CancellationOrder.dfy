module CancellationOrder {
  // The order of the queues of one object under cancellation. The output queue is in sending order exactly
  // in the runs that send nothing before what is queued, and then a rollback takes exactly the events sent
  // at or after its time. The lazy queue is in the order of receive times, so emptying it by send time can
  // leave an early event behind a later one, and collection then frees an event that still waits.

  import opened OutputQueue
  import opened Cancellation

  // ----- the output queue -----

  ghost predicate OutputOrdered(o: Output) {
    InSendOrder(o.local) && InSendOrder(o.remote)
  }

  /** Nothing queued in the list for the receiver of `e` was sent after `e`. */
  ghost predicate SentForward(o: Output, e: Event) {
    forall x :: x in (if e.receiver.isLocal then o.local else o.remote) ==> x.sendTime <= e.sendTime
  }

  lemma AppendOrderedIff(s: seq<Event>, e: Event)
    requires InSendOrder(s)
    ensures InSendOrder(s + [e]) <==> forall x :: x in s ==> x.sendTime <= e.sendTime
  {
    if InSendOrder(s + [e]) {
      forall x | x in s ensures x.sendTime <= e.sendTime {
        var i :| 0 <= i < |s| && s[i] == x;
        assert (s + [e])[i].sendTime <= (s + [e])[|s|].sendTime;
      }
    }
  }

  /** What a step does to the output queue; a send inserts the event, or its regenerated twin. */
  ghost predicate OutStep(op: Op, o: Output, o': Output) {
    match op
    case Send(e) => exists twin :: EventCompare(twin, e) && o' == Insert(o, twin)
    case Rollback(t) => o' == Cut(o, t)
    case EmptyQueue(_) => o' == o
    case Fossil(g) => o' == FossilCollect(o, g)
  }

  lemma StepOut(op: Op, o: Obj, o': Obj)
    requires DynamicStep(op, o, o')
    ensures OutStep(op, o.out, o'.out)
  {
    match op
    case Send(e) =>
      var twin := SendInserts(o, e);
      DecidedKeepsOutput(SendEffect(o, e), o');
    case Rollback(_) =>
    case EmptyQueue(t) => DecidedKeepsOutput(EmptyEffect(o, t), o');
    case Fossil(_) =>
  }

  lemma SendOrderedIff(o: Output, e: Event, twin: Event)
    requires OutputOrdered(o) && EventCompare(twin, e)
    ensures OutputOrdered(Insert(o, twin)) <==> SentForward(o, e)
  {
    AppendOrderedIff(if e.receiver.isLocal then o.local else o.remote, twin);
  }

  lemma CutOrdered(o: Output, t: VTime)
    requires OutputOrdered(o)
    ensures OutputOrdered(Cut(o, t)) && OutputOrdered(FossilCollect(o, t))
  {
  }

  lemma StepOrderedIff(op: Op, o: Obj, o': Obj)
    requires OutputOrdered(o.out) && DynamicStep(op, o, o')
    ensures OutputOrdered(o'.out) <==> (op.Send? ==> SentForward(o.out, op.e))
  {
    StepOut(op, o, o');
    OutOrderedIff(op, o.out, o'.out);
  }

  lemma OutOrderedIff(op: Op, o: Output, o': Output)
    requires OutputOrdered(o) && OutStep(op, o, o')
    ensures OutputOrdered(o') <==> (op.Send? ==> SentForward(o, op.e))
  {
    match op
    case Send(e) =>
      var twin :| EventCompare(twin, e) && o' == Insert(o, twin);
      SendOrderedIff(o, e, twin);
    case Rollback(t) => CutOrdered(o, t);
    case EmptyQueue(_) =>
    case Fossil(g) => CutOrdered(o, g);
  }

  ghost predicate SendsForward(ops: seq<Op>, os: seq<Obj>)
    requires |os| == |ops| + 1
  {
    forall k :: 0 <= k < |ops| && ops[k].Send? ==> SentForward(os[k].out, ops[k].e)
  }

  lemma {:induction false} OrderedAt(ops: seq<Op>, os: seq<Obj>, k: nat)
    requires DynamicRun(ops, os) && SendsForward(ops, os) && k < |os|
    ensures OutputOrdered(os[k].out)
  {
    if k > 0 {
      OrderedAt(ops, os, k - 1);
      StepOrderedIff(ops[k - 1], os[k - 1], os[k]);
    }
  }

  /** For every run, with any mode switches: the output queue is in sending order throughout if and only if
      no event is sent before one that is queued for the same kind of receiver. */
  lemma OrderedIff(ops: seq<Op>, os: seq<Obj>)
    requires DynamicRun(ops, os)
    ensures (forall k :: 0 <= k < |os| ==> OutputOrdered(os[k].out)) <==> SendsForward(ops, os)
  {
    if SendsForward(ops, os) {
      forall k | 0 <= k < |os| ensures OutputOrdered(os[k].out) { OrderedAt(ops, os, k); }
    }
    if forall k :: 0 <= k < |os| ==> OutputOrdered(os[k].out) {
      forall k | 0 <= k < |ops| && ops[k].Send? ensures SentForward(os[k].out, ops[k].e) {
        assert OutputOrdered(os[k].out) && OutputOrdered(os[k + 1].out);
        StepOrderedIff(ops[k], os[k], os[k + 1]);
      }
    }
  }

  /** What was sent at or after `t`, with its number of copies. */
  /** What is taken comes latest first, local events before remote ones. */
  lemma TakenLatestFirst(o: Output, t: VTime)
    ensures var n, m := |o.local| - Kept(o.local, t), |o.remote| - Kept(o.remote, t);
            && |Taken(o, t)| == n + m
            && (forall i :: 0 <= i < n ==> Taken(o, t)[i] == o.local[|o.local| - 1 - i])
            && (forall i :: n <= i < n + m ==> Taken(o, t)[i] == o.remote[|o.remote| - 1 - (i - n)])
  {
    TailBackwards(o.local, t);
    TailBackwards(o.remote, t);
  }

  lemma TailBackwards(s: seq<Event>, t: VTime)
    ensures var r := Reverse(s[Kept(s, t)..]);
            |r| == |s| - Kept(s, t) && forall i :: 0 <= i < |r| ==> r[i] == s[|s| - 1 - i]
  {
    var k := Kept(s, t);
    var u := s[k..];
    forall i | 0 <= i < |u| ensures Reverse(u)[i] == s[|s| - 1 - i] {
      assert Reverse(u)[i] == u[|u| - 1 - i];
    }
  }

  ghost function SentFrom(s: seq<Event>, t: VTime): multiset<Event> {
    multiset(NotBefore(s, t))
  }

  lemma {:induction false} NoneBefore(s: seq<Event>, t: VTime)
    requires forall i :: 0 <= i < |s| ==> s[i].sendTime >= t
    ensures NotBefore(s, t) == s
  {
    if s != [] {
      NoneBefore(s[1..], t);
      assert s == [s[0]] + s[1..];
    }
  }

  lemma {:induction false} NotBeforeSplit(s: seq<Event>, t: VTime, n: nat)
    requires n <= |s|
    requires forall i :: 0 <= i < |s| ==> (i < n <==> s[i].sendTime < t)
    ensures NotBefore(s, t) == s[n..]
  {
    if n == 0 {
      NoneBefore(s, t);
    } else {
      NotBeforeSplit(s[1..], t, n - 1);
      assert s[1..][n - 1..] == s[n..];
    }
  }

  /** In those runs a rollback takes exactly the queued events sent at or after its time, each as often as
      it is queued, and every queued event sent earlier stays. */
  lemma RollbackTakesExactly(ops: seq<Op>, os: seq<Obj>, k: nat, t: VTime)
    requires DynamicRun(ops, os) && SendsForward(ops, os) && k < |os|
    ensures var o := os[k].out;
            && multiset(Taken(o, t)) == SentFrom(o.local, t) + SentFrom(o.remote, t)
            && (forall e :: e in Cut(o, t).local ==> e.sendTime < t)
            && (forall e :: e in Cut(o, t).remote ==> e.sendTime < t)
  {
    OrderedAt(ops, os, k);
    var o := os[k].out;
    CutIsExact(o.local, t);
    CutIsExact(o.remote, t);
    NotBeforeSplit(o.local, t, Kept(o.local, t));
    NotBeforeSplit(o.remote, t, Kept(o.remote, t));
  }

  lemma OrderedSuffix(s: seq<Event>, t: VTime)
    requires InSendOrder(s)
    ensures multiset(s[Stale(s, t)..]) == SentFrom(s, t)
  {
    NotBeforeSplit(s, t, Stale(s, t));
  }

  /** And a collection keeps exactly the queued events sent at or after its time. */
  lemma CollectsExactly(ops: seq<Op>, os: seq<Obj>, k: nat, g: VTime)
    requires DynamicRun(ops, os) && SendsForward(ops, os) && k < |os|
    ensures var (o, o') := (os[k].out, FossilCollect(os[k].out, g));
            multiset(o'.local) == SentFrom(o.local, g) && multiset(o'.remote) == SentFrom(o.remote, g)
  {
    OrderedAt(ops, os, k);
    OrderedSuffix(os[k].out.local, g);
    OrderedSuffix(os[k].out.remote, g);
  }

  // ----- the object's clock -----

  /** The least send time the next send can have: sending advances the object's clock, rolling back sets it
      back. */
  ghost function Clock(ops: seq<Op>): VTime {
    if ops == [] then 0
    else
      var before := Clock(ops[..|ops| - 1]);
      match ops[|ops| - 1]
      case Send(e) => e.sendTime
      case Rollback(t) => if t < before then t else before
      case EmptyQueue(_) => before
      case Fossil(_) => before
  }

  ghost predicate SendsOnTime(ops: seq<Op>) {
    forall k :: 0 <= k < |ops| && ops[k].Send? ==> Clock(ops[..k]) <= ops[k].e.sendTime
  }

  /** In order and nothing later than the clock. */
  ghost predicate UpTo(o: Output, t: VTime) {
    && OutputOrdered(o)
    && (forall e :: e in o.local ==> e.sendTime <= t) && (forall e :: e in o.remote ==> e.sendTime <= t)
  }

  lemma CutUpTo(o: Output, t: VTime, r: VTime)
    requires UpTo(o, t)
    ensures UpTo(Cut(o, r), if r < t then r else t)
  {
    CutIsExact(o.local, r);
    CutIsExact(o.remote, r);
  }

  lemma OutUpTo(op: Op, o: Output, o': Output, t: VTime)
    requires UpTo(o, t) && OutStep(op, o, o') && (op.Send? ==> t <= op.e.sendTime)
    ensures UpTo(o', match op case Send(e) => e.sendTime case Rollback(r) => (if r < t then r else t) case _ => t)
  {
    OutOrderedIff(op, o, o');
    match op
    case Send(e) => var twin :| EventCompare(twin, e) && o' == Insert(o, twin);
    case Rollback(r) => CutUpTo(o, t, r);
    case EmptyQueue(_) =>
    case Fossil(_) =>
  }

  lemma {:induction false} ClockBounds(ops: seq<Op>, os: seq<Obj>, k: nat)
    requires DynamicRun(ops, os) && SendsOnTime(ops) && k < |os|
    ensures UpTo(os[k].out, Clock(ops[..k]))
  {
    if k > 0 {
      ClockBounds(ops, os, k - 1);
      assert ops[..k][..k - 1] == ops[..k - 1];
      StepOut(ops[k - 1], os[k - 1], os[k]);
      OutUpTo(ops[k - 1], os[k - 1].out, os[k].out, Clock(ops[..k - 1]));
    }
  }

  /** An object whose sends follow its clock sends nothing before what is queued. */
  lemma OnTimeIsForward(ops: seq<Op>, os: seq<Obj>)
    requires DynamicRun(ops, os) && SendsOnTime(ops)
    ensures SendsForward(ops, os)
  {
    forall k | 0 <= k < |ops| && ops[k].Send? ensures SentForward(os[k].out, ops[k].e) {
      ClockBounds(ops, os, k);
    }
  }

  // ----- what collection frees of what waits -----

  /** Collecting at `g` frees the event although it waits in the lazy queue. */
  ghost predicate WaitingFreed(o: Obj, g: VTime, e: Event) {
    e in o.lazyQ && e in o.out.removed && e !in FossilEffect(o, g).out.removed
  }

  /** An event sent before `g` waits behind one that was not. */
  ghost predicate Blocked(q: seq<Event>, g: VTime, e: Event) {
    exists i, j :: 0 <= i < j < |q| && q[i].sendTime >= g && q[j] == e && e.sendTime < g
  }

  lemma LeftBehindIff(q: seq<Event>, g: VTime, e: Event)
    ensures e in Unstale(q, g) && e.sendTime < g <==> Blocked(q, g, e)
  {
    UnstaleIs(q, g);
    var n := Stale(q, g);
    if Blocked(q, g, e) {
      var i, j :| 0 <= i < j < |q| && q[i].sendTime >= g && q[j] == e && e.sendTime < g;
      assert q[n..][j - n] == e;
    }
    if e in q[n..] && e.sendTime < g {
      var j :| n <= j < |q| && q[j] == e;
      assert n < j && q[n].sendTime >= g;
    }
  }

  /** The lazy queue is emptied up to `g` and then events are collected up to `g`: a waiting event is freed if
      and only if it is among the removed ones and waits behind an event sent at or after `g`. */
  lemma WaitingFreedIff(o: Obj, g: VTime, e: Event)
    ensures WaitingFreed(EmptyEffect(o, g), g, e) <==> e in o.out.removed && Blocked(o.lazyQ, g, e)
  {
    LeftBehindIff(o.lazyQ, g, e);
  }

  const A := Event(1, Receiver(1, false), 10, 11, 0)
  const B := Event(0, Receiver(1, false), 5, 20, 0)

  function Waiting(removed: seq<Event>): Obj {
    Obj(Output([], [], removed), [A, B], Lazy, false, Net([B, A], []), EMPTY)
  }

  const S0 := Obj(EMPTY, [], Lazy, false, Net([], []), EMPTY)
  const S1 := Obj(Output([], [B], []), [], Lazy, false, Net([B], []), EMPTY)
  const S2 := Obj(Output([], [B, A], []), [], Lazy, false, Net([B, A], []), EMPTY)
  const S3 := Waiting([A, B])
  const S5 := Waiting([A])

  lemma SendBoth()
    ensures LazyStep(Send(B), S0, S1) && LazyStep(Send(A), S1, S2)
  {
    assert CheckLazy([], B) == Check([], [], []) && CheckLazy([], A) == Check([], [], []);
    assert [] + [B] == [B] && [B] + [A] == [B, A];
  }

  lemma TakeBoth(o: Output)
    requires o == Output([], [B, A], [])
    ensures Taken(o, 5) == [A, B] && Cut(o, 5) == Output([], [], [A, B])
  {
    assert [B, A][..1] == [B] && [B][..0] == [];
    assert Kept([B], 5) == 0;
    assert Kept(o.remote, 5) == 0;
    assert Reverse(o.remote) == [A, B];
  }

  lemma RollBack(o: Obj, t: VTime, q: seq<Event>)
    requires o.lazyQ == [] && Taken(o.out, t) == q && SortedPermutation(q, q)
    ensures LazyStep(Rollback(t), o, o.(out := Cut(o.out, t), lazyQ := q))
  {
    assert o.lazyQ + q == q;
  }

  lemma PairSorted(q: seq<Event>)
    requires |q| == 2 && q[0].recvTime <= q[1].recvTime
    ensures SortedPermutation(q, q)
  {
  }

  lemma RollBothBack()
    ensures LazyStep(Rollback(5), S2, S3)
  {
    TakeBoth(S2.out);
    PairSorted([A, B]);
    RollBack(S2, 5, [A, B]);
    assert S2.(out := Output([], [], [A, B]), lazyQ := [A, B]) == S3;
  }

  lemma GoOn(ops: seq<Op>, os: seq<Obj>, op: Op, o: Obj)
    requires LazyRun(ops, os) && LazyStep(op, os[|os| - 1], o)
    ensures LazyRun(ops + [op], os + [o])
  {
    var ops', os' := ops + [op], os + [o];
    forall k | 0 <= k < |ops'| ensures LazyStep(ops'[k], os'[k], os'[k + 1]) {
      if k < |ops| {
        assert LazyStep(ops[k], os[k], os[k + 1]);
      } else {
        assert ops'[k] == op && os'[k] == os[|os| - 1] && os'[k + 1] == o;
      }
    }
  }

  lemma SentRun() returns (ops: seq<Op>, os: seq<Obj>)
    ensures LazyRun(ops, os) && os[|os| - 1] == S2
  {
    SendBoth();
    ops, os := [], [S0];
    GoOn(ops, os, Send(B), S1);
    ops, os := ops + [Send(B)], os + [S1];
    GoOn(ops, os, Send(A), S2);
    ops, os := ops + [Send(A)], os + [S2];
  }

  lemma RolledBackRun() returns (ops: seq<Op>, os: seq<Obj>)
    ensures LazyRun(ops, os) && os[|os| - 1] == S3
  {
    ops, os := SentRun();
    RollBothBack();
    GoOn(ops, os, Rollback(5), S3);
    ops, os := ops + [Rollback(5)], os + [S3];
  }

  lemma FreedWhileWaiting()
    ensures WaitingFreed(S3, 8, B) && B in S5.lazyQ
  {
    WaitingFreedIff(S3, 8, B);
    assert Blocked([A, B], 8, B) by { assert [A, B][0] == A && [A, B][1] == B; }
    EmptyAndCollect();
  }

  lemma EmptyAndCollect()
    ensures LazyStep(EmptyQueue(8), S3, S3) && LazyStep(Fossil(8), S3, S5)
  {
    assert [A, B][1..] == [B] && [B][1..] == [];
    assert NotBefore([B], 8) == [];
    assert NotBefore([A, B], 8) == [A];
    assert S3.net.cancelled + [A, B][..0] == S3.net.cancelled;
    assert FossilEffect(S3, 8).collected == EMPTY;
  }

  /** A run of the lazy manager: two messages are sent and rolled back; the earlier one has the later receive
      time and waits behind the other. Emptying the queue up to time 8 stops in front of it, and collecting
      up to time 8 frees it while it waits. */
  lemma EmptyThenCollectFrees() returns (ops: seq<Op>, os: seq<Obj>)
    ensures LazyRun(ops, os) && |ops| >= 2 && ops[|ops| - 2] == EmptyQueue(8) && ops[|ops| - 1] == Fossil(8)
    ensures WaitingFreed(os[|os| - 2], 8, B) && B in os[|os| - 1].lazyQ
  {
    ops, os := RolledBackRun();
    EmptyAndCollect();
    GoOn(ops, os, EmptyQueue(8), S3);
    ops, os := ops + [EmptyQueue(8)], os + [S3];
    GoOn(ops, os, Fossil(8), S5);
    ops, os := ops + [Fossil(8)], os + [S5];
    FreedWhileWaiting();
  }
}
