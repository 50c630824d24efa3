module CancellationMatch {
  // Which sends are suppressed, which waiting events are retracted, and when an object changes its mode, said
  // without the operations that decide it.

  import opened OutputQueue
  import opened Cancellation

  // ----- the comparison -----

  /** The same message was sent at the same time, so it is not among the leading stale events. */
  lemma SameIsNotStale(q: seq<Event>, e: Event, i: nat)
    requires i < |q| && EventCompare(q[i], e)
    ensures Stale(q, e.sendTime) <= i
  {
  }

  /** A waiting event is found if and only if one of them, wherever it waits, is the same message. */
  lemma HitIff(q: seq<Event>, e: Event)
    ensures CheckLazy(q, e).hit != [] <==> exists i :: 0 <= i < |q| && EventCompare(q[i], e)
  {
    var n := Stale(q, e.sendTime);
    var k := Match(q[n..], e);
    if k < |q[n..]| { assert EventCompare(q[n + k], e); }
    if exists i :: 0 <= i < |q| && EventCompare(q[i], e) {
      var i :| 0 <= i < |q| && EventCompare(q[i], e);
      SameIsNotStale(q, e, i);
      assert EventCompare(q[n..][i - n], e);
    }
  }

  /** Exactly the leading events sent before the new one are retracted; the event taken out is the first one
      that is the same message; the others stay in order. */
  lemma CheckExact(q: seq<Event>, e: Event) returns (n: nat, k: nat)
    ensures n <= k <= |q|
    ensures forall i :: 0 <= i < n ==> q[i].sendTime < e.sendTime
    ensures n < |q| ==> q[n].sendTime >= e.sendTime
    ensures forall i :: 0 <= i < k ==> !EventCompare(q[i], e)
    ensures k < |q| ==> EventCompare(q[k], e)
    ensures CheckLazy(q, e).stale == q[..n]
    ensures CheckLazy(q, e).hit == if k < |q| then [q[k]] else []
    ensures CheckLazy(q, e).rest == if k < |q| then q[n..k] + q[k + 1..] else q[n..]
  {
    n := Stale(q, e.sendTime);
    var m := Match(q[n..], e);
    k := n + m;
    forall i | 0 <= i < k ensures !EventCompare(q[i], e) {
      if i >= n { assert q[i] == q[n..][i - n]; }
    }
    if m < |q[n..]| {
      assert q[n..][..m] == q[n..k] && q[n..][m + 1..] == q[k + 1..];
    }
  }

  /** Being the same message has nothing to do with the event id. */
  lemma SameMessage(a: Event, b: Event)
    ensures EventCompare(a, b) <==>
              && a.receiver == b.receiver && a.sendTime == b.sendTime && a.recvTime == b.recvTime
              && a.content == b.content
  {
  }

  /** A message sent again with a new id is found, whatever else waits. */
  lemma NewIdIsFound(q: seq<Event>, i: nat, id: nat)
    requires i < |q|
    ensures CheckLazy(q, q[i].(id := id)).hit != []
  {
    assert EventCompare(q[i], q[i].(id := id));
    HitIff(q, q[i].(id := id));
  }

  // ----- what is transmitted -----

  /** The message waits in the lazy queue of an object that may suppress it. */
  ghost predicate Regenerated(o: Obj, e: Event) {
    o.mode.Lazy? && !o.permanent && exists i :: 0 <= i < |o.lazyQ| && EventCompare(o.lazyQ[i], e)
  }

  /** A send is transmitted unless the object cancels lazily and the same message waits; then nothing is. */
  lemma TransmittedIff(o: Obj, e: Event, o': Obj)
    requires DynamicStep(Send(e), o, o')
    ensures o'.net.sent == if Regenerated(o, e) then o.net.sent else o.net.sent + [e]
  {
    HitIff(o.lazyQ, e);
    DecidedKeepsOutput(SendEffect(o, e), o');
  }

  /** What a rollback takes waits, unless cancellation is aggressive for good. */
  lemma TakenWaits(o: Obj, t: VTime, o': Obj, x: Event)
    requires RollbackEffect(o, t, o') && !o.permanent && (x in o.lazyQ || x in Taken(o.out, t))
    ensures x in o'.lazyQ
  {
    assert x in multiset(o.lazyQ + Taken(o.out, t));
    assert x in multiset(o'.lazyQ);
  }

  /** A message that a rollback took out is recognized when it is sent again, in either mode, and is not
      transmitted a second time by an object that cancels lazily. */
  lemma ResentIsFound(o: Obj, t: VTime, o': Obj, x: Event, e: Event, o'': Obj)
    requires RollbackEffect(o, t, o') && !o.permanent && x in Taken(o.out, t) && EventCompare(x, e)
    requires DynamicStep(Send(e), o', o'')
    ensures CheckLazy(o'.lazyQ, e).hit != []
    ensures o.mode.Lazy? ==> o''.net.sent == o'.net.sent
  {
    TakenWaits(o, t, o', x);
    var i :| 0 <= i < |o'.lazyQ| && o'.lazyQ[i] == x;
    assert EventCompare(o'.lazyQ[i], e);
    HitIff(o'.lazyQ, e);
    TransmittedIff(o', e, o'');
  }

  // ----- changing the mode -----

  lemma RatioBands(hits: nat)
    ensures HitRatio(hits) < 0.1 <==> hits <= 1
    ensures HitRatio(hits) < 0.2 <==> hits <= 3
    ensures HitRatio(hits) > 0.5 <==> hits >= 9
  {
    assert HitRatio(hits) * 16.0 == hits as real;
  }

  /** With one hit or none out of sixteen an object may turn aggressive for good; a lazy one turns aggressive
      with three or fewer, retracting what waits; an aggressive one turns lazy with nine or more, forgetting
      what waits. Otherwise nothing changes. */
  lemma DetermineBands(o: Obj, hits: nat, third: bool)
    ensures var o' := Determine(o, hits, third);
            var forGood := third && hits <= 1;
            && o'.permanent == (o.permanent || forGood)
            && (o'.mode.Lazy? <==> if o.mode.Lazy? then hits >= 4 && !forGood else hits >= 9)
            && o'.lazyQ == (if o'.mode == o.mode then o.lazyQ else [])
            && o'.net.cancelled == (if o.mode.Lazy? && o'.mode.Aggressive? then o.net.cancelled + o.lazyQ
                                    else o.net.cancelled)
  {
    RatioBands(hits);
  }

  lemma StepKeepsPermanent(op: Op, o: Obj, o': Obj)
    requires DynamicStep(op, o, o') && o.permanent
    ensures o'.permanent
  {
  }

  lemma {:induction false} OnceTrue(bs: seq<bool>, j: nat, k: nat)
    requires j <= k < |bs| && bs[j] && forall i, l :: 0 <= i && l == i + 1 < |bs| && bs[i] ==> bs[l]
    ensures bs[k]
    decreases k
  {
    if j < k { OnceTrue(bs, j, k - 1); }
  }

  lemma PermanentStays(ops: seq<Op>, os: seq<Obj>, j: nat, k: nat)
    requires DynamicRun(ops, os) && j <= k < |os| && os[j].permanent
    ensures os[k].permanent
  {
    var bs := seq(|os|, i requires 0 <= i < |os| => os[i].permanent);
    forall i, l | 0 <= i && l == i + 1 < |bs| && bs[i] ensures bs[l] { NextPermanent(ops, os, i); }
    OnceTrue(bs, j, k);
  }

  lemma NextPermanent(ops: seq<Op>, os: seq<Obj>, k: nat)
    requires DynamicRun(ops, os) && k < |ops| && os[k].permanent
    ensures os[k + 1].permanent
  {
    StepKeepsPermanent(ops[k], os[k], os[k + 1]);
  }

  /** For good means for good: nothing is suppressed any more, and a rollback retracts all it takes at once. */
  lemma PermanentAlways(ops: seq<Op>, os: seq<Obj>, j: nat, k: nat)
    requires DynamicRun(ops, os) && j <= k < |ops| && os[j].permanent
    ensures ops[k].Send? ==> os[k + 1].net.sent == os[k].net.sent + [ops[k].e]
    ensures ops[k].Rollback? ==> os[k + 1].net.cancelled == os[k].net.cancelled + Taken(os[k].out, ops[k].t)
  {
    PermanentStays(ops, os, j, k);
    var o, o' := os[k], os[k + 1];
    assert DynamicStep(ops[k], o, o');
    match ops[k]
    case Send(e) => TransmittedIff(o, e, o');
    case Rollback(t) => assert RollbackEffect(o, t, o');
    case _ =>
  }

  // ----- collecting -----

  /** Collecting drops exactly the leading events sent before the time, and of the removed ones all of them. */
  lemma CollectExact(o: Output, g: VTime)
    ensures var o' := FossilCollect(o, g);
            && (o'.local != [] ==> o'.local[0].sendTime >= g) && (o'.remote != [] ==> o'.remote[0].sendTime >= g)
            && (exists n :: 0 <= n <= |o.local| && o'.local == o.local[n..] && AllSentBefore(o.local[..n], g))
            && (exists n :: 0 <= n <= |o.remote| && o'.remote == o.remote[n..] && AllSentBefore(o.remote[..n], g))
            && forall e :: e in o'.removed <==> e in o.removed && e.sendTime >= g
  {
    assert AllSentBefore(o.local[..Stale(o.local, g)], g) && AllSentBefore(o.remote[..Stale(o.remote, g)], g);
    assert o.local[Stale(o.local, g)..] == FossilCollect(o, g).local;
  }

  ghost predicate AllSentBefore(s: seq<Event>, g: VTime) {
    forall i :: 0 <= i < |s| ==> s[i].sendTime < g
  }
}
