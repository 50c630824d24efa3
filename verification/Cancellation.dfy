module Cancellation {
  // Cancellation of output after a rollback, for one simulation object.
  //
  // Aggressive cancellation retracts everything a rollback takes out of the output queue at once. Lazy
  // cancellation keeps it aside until it is clear whether the same messages are sent again, and dynamic
  // cancellation switches between the two. `Obj` is the state of one object under the dynamic manager (the
  // lazy manager is the one that never switches); the two theorems say that, run by run, both have the
  // effect of aggressive cancellation on the receivers.

  import opened Wrappers
  import opened OutputQueue

  datatype Mode = Aggressive | Lazy

  /** What the receivers have been told: the messages sent to them and the ones retracted. */
  datatype Net = Net(sent: seq<Event>, cancelled: seq<Event>)

  datatype Obj = Obj(out: Output, lazyQ: seq<Event>, mode: Mode, permanent: bool, net: Net, collected: Output)

  datatype Op =
    | Send(e: Event)
    | Rollback(t: VTime)
    | EmptyQueue(t: VTime)
    | Fossil(g: VTime)

  // ----- the three managers, step by step -----

  /** First event of the lazy queue that is the same message as `e`; the length if there is none. */
  function Match(q: seq<Event>, e: Event): (k: nat)
    ensures k <= |q|
    ensures k < |q| ==> EventCompare(q[k], e)
    ensures forall i :: 0 <= i < k ==> !EventCompare(q[i], e)
  {
    if q == [] || EventCompare(q[0], e) then 0 else 1 + Match(q[1..], e)
  }

  /** Result of checkLazyCancelEvent: the stale events, the event that was regenerated, what remains. */
  datatype Check = Check(stale: seq<Event>, hit: seq<Event>, rest: seq<Event>)

  function CheckLazy(q: seq<Event>, e: Event): Check {
    var n := Stale(q, e.sendTime);
    var k := Match(q[n..], e);
    if k < |q[n..]| then Check(q[..n], [q[n..][k]], Without(q[n..], k)) else Check(q[..n], [], q[n..])
  }

  function Transmit(o: Obj, e: Event): Obj {
    o.(out := Insert(o.out, e), net := o.net.(sent := o.net.sent + [e]))
  }

  function Retract(o: Obj, es: seq<Event>): Obj {
    o.(net := o.net.(cancelled := o.net.cancelled + es))
  }

  /** checkDynamicCancel before any change of mode. */
  function SendEffect(o: Obj, e: Event): Obj {
    if o.lazyQ == [] || o.permanent then Transmit(o, e)
    else
      var c := CheckLazy(o.lazyQ, e);
      if o.mode.Aggressive? then Transmit(o.(lazyQ := c.rest), e)
      else if c.hit != [] then Retract(o.(lazyQ := c.rest, out := Insert(o.out, c.hit[0])), c.stale)
      else Transmit(Retract(o.(lazyQ := c.rest), c.stale), e)
  }

  /** emptyLazyQueue before any change of mode. */
  function EmptyEffect(o: Obj, t: VTime): Obj {
    var n := Stale(o.lazyQ, t);
    var o' := o.(lazyQ := Unstale(o.lazyQ, t));
    if o.mode.Lazy? then Retract(o', o.lazyQ[..n]) else o'
  }

  ghost predicate SortedPermutation(s: seq<Event>, s': seq<Event>) {
    multiset(s) == multiset(s') && forall i, j :: 0 <= i < j < |s'| ==> s'[i].recvTime <= s'[j].recvTime
  }

  /** A rollback; the library sort may order equal receive times either way. */
  ghost predicate RollbackEffect(o: Obj, t: VTime, o': Obj) {
    var taken := Taken(o.out, t);
    var cut := o.(out := Cut(o.out, t));
    if o.permanent then o' == Retract(cut, taken)
    else
      && SortedPermutation(o.lazyQ + taken, o'.lazyQ)
      && o' == (if o.mode.Aggressive? then Retract(cut, taken) else cut).(lazyQ := o'.lazyQ)
  }

  const FILTER_DEPTH := 16

  function HitRatio(hits: nat): real {
    hits as real / FILTER_DEPTH as real
  }

  /** determineCancellationMode for a given number of hits among the last comparisons. */
  function Determine(o: Obj, hits: nat, third: bool): Obj {
    if third && HitRatio(hits) < 0.1 then
      if o.mode.Lazy? then Retract(o.(mode := Aggressive, permanent := true, lazyQ := []), o.lazyQ)
      else o.(permanent := true)
    else if o.mode.Lazy? && HitRatio(hits) < 0.2 then
      Retract(o.(mode := Aggressive, lazyQ := []), o.lazyQ)
    else if o.mode.Aggressive? && HitRatio(hits) > 0.5 then
      o.(mode := Lazy, lazyQ := [])
    else o
  }

  /** The manager may or may not reconsider the mode, on whatever statistics. */
  ghost predicate Decided(o: Obj, o': Obj) {
    o' == o || exists hits: nat, third: bool :: o' == Determine(o, hits, third)
  }

  function FossilEffect(o: Obj, g: VTime): Obj {
    o.(out := FossilCollect(o.out, g),
       collected := Output(o.collected.local + o.out.local[..Stale(o.out.local, g)],
                           o.collected.remote + o.out.remote[..Stale(o.out.remote, g)], []))
  }

  /** One step of the dynamic manager, for any sort result and any mode decision. */
  ghost predicate DynamicStep(op: Op, o: Obj, o': Obj) {
    match op
    case Send(e) => Decided(SendEffect(o, e), o')
    case Rollback(t) => RollbackEffect(o, t, o')
    case EmptyQueue(t) => Decided(EmptyEffect(o, t), o')
    case Fossil(g) => o' == FossilEffect(o, g)
  }

  /** One step of the lazy manager. */
  ghost predicate LazyStep(op: Op, o: Obj, o': Obj) {
    match op
    case Send(e) =>
      var c := CheckLazy(o.lazyQ, e);
      o' == if c.hit != [] then Retract(o.(lazyQ := c.rest, out := Insert(o.out, c.hit[0])), c.stale)
            else Transmit(Retract(o.(lazyQ := c.rest), c.stale), e)
    case Rollback(t) =>
      && SortedPermutation(o.lazyQ + Taken(o.out, t), o'.lazyQ)
      && o' == o.(out := Cut(o.out, t), lazyQ := o'.lazyQ)
    case EmptyQueue(t) =>
      var n := Stale(o.lazyQ, t);
      o' == Retract(o.(lazyQ := Unstale(o.lazyQ, t)), o.lazyQ[..n])
    case Fossil(g) => o' == FossilEffect(o, g)
  }

  /** One step of the aggressive manager, which has no lazy queue. */
  function AggressiveApply(op: Op, a: Obj): Obj {
    match op
    case Send(e) => Transmit(a, e)
    case Rollback(t) => Retract(a.(out := Cut(a.out, t)), Taken(a.out, t))
    case EmptyQueue(_) => a
    case Fossil(g) => FossilEffect(a, g)
  }

  // ----- what every step keeps -----

  /** Everything still accounted for by the output queue: in it, or collected from it. */
  ghost function Settled(o: Obj): multiset<Event> {
    multiset(o.out.local) + multiset(o.out.remote) + multiset(o.collected.local) + multiset(o.collected.remote)
  }

  /** Every message sent is settled, retracted, or (in lazy mode) waiting in the lazy queue; in
      aggressive mode the lazy queue holds only messages that have been retracted already. */
  ghost predicate Balanced(o: Obj) {
    && multiset(o.net.sent) ==
         Settled(o) + multiset(o.net.cancelled) + (if o.mode.Lazy? then multiset(o.lazyQ) else multiset{})
    && (o.mode.Aggressive? ==> multiset(o.lazyQ) <= multiset(o.net.cancelled))
  }

  lemma CheckConserves(q: seq<Event>, e: Event)
    ensures var c := CheckLazy(q, e);
            && multiset(q) == multiset(c.stale) + multiset(c.hit) + multiset(c.rest)
            && |c.hit| <= 1 && (c.hit != [] ==> EventCompare(c.hit[0], e))
  {
    var n := Stale(q, e.sendTime);
    var k := Match(q[n..], e);
    SplitMultiset(q, n);
    if k < |q[n..]| { WithoutConserves(q[n..], k); }
  }

  lemma InsertSettles(o: Obj, e: Event)
    ensures Settled(o.(out := Insert(o.out, e))) == Settled(o) + multiset{e}
  {
  }

  lemma TransmitBalances(o: Obj, e: Event)
    ensures Balanced(o) ==> Balanced(Transmit(o, e))
  {
    InsertSettles(o, e);
    assert multiset(o.net.sent + [e]) == multiset(o.net.sent) + multiset{e};
  }

  /** A hit: one queued event goes back into the output queue, the stale ones are retracted. */
  lemma HitBalances(o: Obj, c: Check)
    requires Balanced(o) && o.mode.Lazy? && |c.hit| == 1
    requires multiset(o.lazyQ) == multiset(c.stale) + multiset(c.hit) + multiset(c.rest)
    ensures Balanced(Retract(o.(lazyQ := c.rest, out := Insert(o.out, c.hit[0])), c.stale))
  {
    InsertSettles(o, c.hit[0]);
    assert c.hit == [c.hit[0]];
  }

  lemma MissBalances(o: Obj, c: Check)
    requires Balanced(o) && o.mode.Lazy? && c.hit == []
    requires multiset(o.lazyQ) == multiset(c.stale) + multiset(c.hit) + multiset(c.rest)
    ensures Balanced(Retract(o.(lazyQ := c.rest), c.stale))
  {
  }

  lemma AggressiveCheckBalances(o: Obj, rest: seq<Event>)
    requires Balanced(o) && o.mode.Aggressive? && multiset(rest) <= multiset(o.lazyQ)
    ensures Balanced(o.(lazyQ := rest))
  {
  }

  lemma SendKeepsBalance(o: Obj, e: Event)
    requires Balanced(o)
    ensures Balanced(SendEffect(o, e))
  {
    var c := CheckLazy(o.lazyQ, e);
    if o.lazyQ == [] || o.permanent {
      TransmitBalances(o, e);
    } else if o.mode.Aggressive? {
      assert multiset(c.rest) <= multiset(o.lazyQ) by { CheckConserves(o.lazyQ, e); }
      AggressiveCheckBalances(o, c.rest);
      TransmitBalances(o.(lazyQ := c.rest), e);
    } else {
      LazySendBalances(o, e);
    }
  }

  lemma LazySendBalances(o: Obj, e: Event)
    requires Balanced(o) && o.mode.Lazy? && o.lazyQ != [] && !o.permanent
    ensures Balanced(SendEffect(o, e))
  {
    var c := CheckLazy(o.lazyQ, e);
    CheckConserves(o.lazyQ, e);
    if c.hit != [] {
      HitBalances(o, c);
    } else {
      MissBalances(o, c);
      TransmitBalances(Retract(o.(lazyQ := c.rest), c.stale), e);
    }
  }

  lemma EmptyKeepsBalance(o: Obj, t: VTime)
    requires Balanced(o)
    ensures Balanced(EmptyEffect(o, t))
  {
    UnstaleIs(o.lazyQ, t);
    SplitMultiset(o.lazyQ, Stale(o.lazyQ, t));
  }

  lemma CutSettles(o: Obj, t: VTime)
    ensures Settled(o) == Settled(o.(out := Cut(o.out, t))) + multiset(Taken(o.out, t))
  {
    CutConserves(o.out, t);
  }

  lemma RollbackKeepsBalance(o: Obj, t: VTime, o': Obj)
    requires Balanced(o) && RollbackEffect(o, t, o')
    ensures Balanced(o')
  {
    var taken := Taken(o.out, t);
    CutSettles(o, t);
    assert Settled(o') == Settled(o.(out := Cut(o.out, t)));
    assert !o.permanent ==> multiset(o'.lazyQ) == multiset(o.lazyQ) + multiset(taken);
  }

  lemma DetermineKeepsBalance(o: Obj, hits: nat, third: bool)
    requires Balanced(o)
    ensures Balanced(Determine(o, hits, third))
  {
  }

  lemma FossilKeepsBalance(o: Obj, g: VTime)
    requires Balanced(o)
    ensures Balanced(FossilEffect(o, g))
  {
    SplitMultiset(o.out.local, Stale(o.out.local, g));
    SplitMultiset(o.out.remote, Stale(o.out.remote, g));
  }

  lemma StepKeepsBalance(op: Op, o: Obj, o': Obj)
    requires Balanced(o) && DynamicStep(op, o, o')
    ensures Balanced(o')
  {
    match op
    case Send(e) =>
      SendKeepsBalance(o, e);
      DecidedKeepsBalance(SendEffect(o, e), o');
    case Rollback(t) => RollbackKeepsBalance(o, t, o');
    case EmptyQueue(t) =>
      EmptyKeepsBalance(o, t);
      DecidedKeepsBalance(EmptyEffect(o, t), o');
    case Fossil(g) => FossilKeepsBalance(o, g);
  }

  lemma DecidedKeepsBalance(o: Obj, o': Obj)
    requires Balanced(o) && Decided(o, o')
    ensures Balanced(o')
  {
    if o' != o {
      var hits: nat, third: bool :| o' == Determine(o, hits, third);
      DetermineKeepsBalance(o, hits, third);
    }
  }

  // ----- refinement of aggressive cancellation -----

  /** Position by position the same messages, in the queue and among what was collected from it. */
  ghost predicate Refines(o: Obj, a: Obj) {
    && Alike(o.out.local, a.out.local) && Alike(o.out.remote, a.out.remote)
    && Alike(o.collected.local, a.collected.local) && Alike(o.collected.remote, a.collected.remote)
  }

  lemma AlikeConcat(s: seq<Event>, s': seq<Event>, u: seq<Event>, u': seq<Event>)
    requires Alike(s, s') && Alike(u, u')
    ensures Alike(s + u, s' + u')
  {
  }

  lemma InsertAlike(o: Output, a: Output, e: Event, e': Event)
    requires Alike(o.local, a.local) && Alike(o.remote, a.remote) && EventCompare(e, e')
    ensures Alike(Insert(o, e).local, Insert(a, e').local) && Alike(Insert(o, e).remote, Insert(a, e').remote)
  {
    AlikeConcat(o.local, a.local, [e], [e']);
    AlikeConcat(o.remote, a.remote, [e], [e']);
  }

  /** Whatever is sent lands in the output queue: the event itself, or its regenerated twin. */
  lemma SendInserts(o: Obj, e: Event) returns (twin: Event)
    ensures EventCompare(twin, e)
    ensures SendEffect(o, e).out == Insert(o.out, twin) && SendEffect(o, e).collected == o.collected
  {
    CheckConserves(o.lazyQ, e);
    var c := CheckLazy(o.lazyQ, e);
    twin := if o.lazyQ != [] && !o.permanent && o.mode.Lazy? && c.hit != [] then c.hit[0] else e;
  }

  lemma SendRefines(o: Obj, a: Obj, e: Event)
    requires Refines(o, a)
    ensures Refines(SendEffect(o, e), Transmit(a, e))
  {
    var twin := SendInserts(o, e);
    InsertAlike(o.out, a.out, twin, e);
  }

  /** A change of mode touches neither the output queue nor what has been sent. */
  lemma DecidedKeepsOutput(o: Obj, o': Obj)
    requires Decided(o, o')
    ensures o'.out == o.out && o'.collected == o.collected && o'.net.sent == o.net.sent
  {
  }

  lemma CutRefines(o: Output, a: Output, t: VTime)
    requires Alike(o.local, a.local) && Alike(o.remote, a.remote)
    ensures Alike(Cut(o, t).local, Cut(a, t).local) && Alike(Cut(o, t).remote, Cut(a, t).remote)
  {
    AlikeKept(o.local, a.local, t);
    AlikeKept(o.remote, a.remote, t);
  }

  lemma CollectAlike(s: seq<Event>, s': seq<Event>, gone: seq<Event>, gone': seq<Event>, g: VTime)
    requires Alike(s, s') && Alike(gone, gone')
    ensures Alike(s[Stale(s, g)..], s'[Stale(s', g)..])
    ensures Alike(gone + s[..Stale(s, g)], gone' + s'[..Stale(s', g)])
  {
    AlikeStale(s, s', g);
    AlikeConcat(gone, gone', s[..Stale(s, g)], s'[..Stale(s', g)]);
  }

  lemma FossilRefines(o: Obj, a: Obj, g: VTime)
    requires Refines(o, a)
    ensures Refines(FossilEffect(o, g), FossilEffect(a, g))
  {
    CollectAlike(o.out.local, a.out.local, o.collected.local, a.collected.local, g);
    CollectAlike(o.out.remote, a.out.remote, o.collected.remote, a.collected.remote, g);
  }

  lemma StepRefines(op: Op, o: Obj, o': Obj, a: Obj)
    requires Refines(o, a) && DynamicStep(op, o, o')
    ensures Refines(o', AggressiveApply(op, a))
  {
    match op
    case Send(e) => SendRefines(o, a, e); DecidedKeepsOutput(SendEffect(o, e), o');
    case Rollback(t) => CutRefines(o.out, a.out, t);
    case EmptyQueue(t) => DecidedKeepsOutput(EmptyEffect(o, t), o');
    case Fossil(g) => FossilRefines(o, a, g);
  }

  // ----- whole runs -----

  ghost predicate Fresh(o: Obj) {
    o.out == EMPTY && o.collected == EMPTY && o.lazyQ == [] && o.net == Net([], []) && !o.permanent
  }

  ghost predicate DynamicRun(ops: seq<Op>, os: seq<Obj>) {
    && |os| == |ops| + 1 && Fresh(os[0])
    && forall k :: 0 <= k < |ops| ==> DynamicStep(ops[k], os[k], os[k + 1])
  }

  ghost predicate LazyRun(ops: seq<Op>, os: seq<Obj>) {
    && |os| == |ops| + 1 && Fresh(os[0]) && os[0].mode.Lazy?
    && forall k :: 0 <= k < |ops| ==> LazyStep(ops[k], os[k], os[k + 1])
  }

  /** The aggressive manager fed the same operations. */
  ghost function AggressiveRun(ops: seq<Op>): Obj {
    if ops == [] then Obj(EMPTY, [], Aggressive, false, Net([], []), EMPTY)
    else AggressiveApply(ops[|ops| - 1], AggressiveRun(ops[..|ops| - 1]))
  }

  /** The lazy manager is a dynamic manager that never reconsiders its mode. */
  lemma {:induction false} LazyIsDynamic(ops: seq<Op>, os: seq<Obj>, k: nat)
    requires LazyRun(ops, os) && k < |os|
    ensures os[k].mode.Lazy? && !os[k].permanent
    ensures k < |ops| ==> DynamicStep(ops[k], os[k], os[k + 1])
  {
    if k > 0 { LazyIsDynamic(ops, os, k - 1); }
    if k < |ops| && ops[k].Send? && os[k].lazyQ == [] {
      assert os[k].(lazyQ := []) == os[k];
      assert os[k].net.cancelled + [] == os[k].net.cancelled;
    }
  }

  lemma {:induction false} BalancedAlways(ops: seq<Op>, os: seq<Obj>, k: nat)
    requires DynamicRun(ops, os) && k < |os|
    ensures Balanced(os[k])
  {
    if k > 0 {
      BalancedAlways(ops, os, k - 1);
      StepKeepsBalance(ops[k - 1], os[k - 1], os[k]);
    }
  }

  ghost predicate PlainAggressive(a: Obj) {
    Balanced(a) && a.lazyQ == [] && a.mode.Aggressive? && !a.permanent
  }

  lemma AggressiveRollbackBalances(a: Obj, t: VTime)
    requires PlainAggressive(a)
    ensures PlainAggressive(AggressiveApply(Rollback(t), a))
  {
    CutConserves(a.out, t);
  }

  lemma AggressiveStepBalances(op: Op, a: Obj)
    requires PlainAggressive(a)
    ensures PlainAggressive(AggressiveApply(op, a))
  {
    match op
    case Send(e) => TransmitBalances(a, e);
    case Rollback(t) => AggressiveRollbackBalances(a, t);
    case EmptyQueue(_) =>
    case Fossil(g) => FossilKeepsBalance(a, g);
  }

  lemma {:induction false} AggressiveBalanced(ops: seq<Op>)
    ensures PlainAggressive(AggressiveRun(ops))
  {
    if ops != [] {
      AggressiveBalanced(ops[..|ops| - 1]);
      AggressiveStepBalances(ops[|ops| - 1], AggressiveRun(ops[..|ops| - 1]));
    }
  }

  /** REFINEMENT. After any prefix of any run, with any mode switches, the dynamic manager's output
      queue is position by position the aggressive manager's. */
  lemma {:induction false} DynamicRefinesAggressive(ops: seq<Op>, os: seq<Obj>, k: nat)
    requires DynamicRun(ops, os) && k < |os|
    ensures Refines(os[k], AggressiveRun(ops[..k]))
  {
    if k == 0 {
      assert ops[..0] == [];
    } else {
      DynamicRefinesAggressive(ops, os, k - 1);
      assert ops[..k][..k - 1] == ops[..k - 1];
      StepRefines(ops[k - 1], os[k - 1], os[k], AggressiveRun(ops[..k - 1]));
    }
  }

  // ----- the receivers' view -----

  /** The message without its event id. */
  function Message(e: Event): Event {
    e.(id := 0)
  }

  ghost function Messages(s: seq<Event>): (r: seq<Event>)
    ensures |r| == |s|
  {
    seq(|s|, i requires 0 <= i < |s| => Message(s[i]))
  }

  /** Messages sent and not retracted. */
  ghost function Live(o: Obj): multiset<Event> {
    multiset(o.net.sent) - multiset(o.net.cancelled)
  }

  /** A listing of `m`. */
  ghost predicate Lists(s: seq<Event>, m: multiset<Event>) {
    multiset(s) == m
  }

  ghost function SettledSeq(o: Obj): seq<Event> {
    o.out.local + o.out.remote + o.collected.local + o.collected.remote
  }

  lemma SettledIsLive(o: Obj)
    requires Balanced(o) && (o.lazyQ == [] || o.mode.Aggressive?)
    ensures Lists(SettledSeq(o), Live(o))
  {
    assert multiset(o.net.sent) == Settled(o) + multiset(o.net.cancelled);
  }

  lemma RefinesMessages(o: Obj, a: Obj)
    requires Refines(o, a)
    ensures Messages(SettledSeq(o)) == Messages(SettledSeq(a))
  {
    AlikeConcat(o.out.local, a.out.local, o.out.remote, a.out.remote);
    AlikeConcat(o.out.local + o.out.remote, a.out.local + a.out.remote, o.collected.local, a.collected.local);
    AlikeConcat(o.out.local + o.out.remote + o.collected.local, a.out.local + a.out.remote + a.collected.local,
                o.collected.remote, a.collected.remote);
  }

  /** RECEIVERS SEE THE SAME. Whenever no message is waiting in the lazy queue (it is drained, or the
      mode is aggressive), the live messages under dynamic cancellation can be listed so that they are,
      one by one, the live messages under aggressive cancellation. */
  lemma DrainedLiveAgree(ops: seq<Op>, os: seq<Obj>, k: nat)
    requires DynamicRun(ops, os) && k < |os|
    requires os[k].lazyQ == [] || os[k].mode.Aggressive?
    ensures Lists(SettledSeq(os[k]), Live(os[k]))
    ensures Lists(SettledSeq(AggressiveRun(ops[..k])), Live(AggressiveRun(ops[..k])))
    ensures Messages(SettledSeq(os[k])) == Messages(SettledSeq(AggressiveRun(ops[..k])))
  {
    BalancedAlways(ops, os, k);
    AggressiveBalanced(ops[..k]);
    DynamicRefinesAggressive(ops, os, k);
    SettledIsLive(os[k]);
    SettledIsLive(AggressiveRun(ops[..k]));
    RefinesMessages(os[k], AggressiveRun(ops[..k]));
  }

  /** The lazy manager refines the aggressive one in the same sense. */
  lemma LazyRefinesAggressive(ops: seq<Op>, os: seq<Obj>, k: nat)
    requires LazyRun(ops, os) && k < |os|
    ensures Refines(os[k], AggressiveRun(ops[..k]))
    ensures Live(os[k]) == multiset(SettledSeq(os[k])) + multiset(os[k].lazyQ)
    ensures os[k].lazyQ == [] ==>
              && Lists(SettledSeq(os[k]), Live(os[k]))
              && Lists(SettledSeq(AggressiveRun(ops[..k])), Live(AggressiveRun(ops[..k])))
              && Messages(SettledSeq(os[k])) == Messages(SettledSeq(AggressiveRun(ops[..k])))
  {
    forall j | 0 <= j < |ops| ensures DynamicStep(ops[j], os[j], os[j + 1]) {
      LazyIsDynamic(ops, os, j);
    }
    DynamicRefinesAggressive(ops, os, k);
    LazyIsDynamic(ops, os, k);
    BalancedAlways(ops, os, k);
    if os[k].lazyQ == [] { DrainedLiveAgree(ops, os, k); }
  }

  /** Draining always gets there: in lazy mode every stale event is retracted, so with a time above
      all send times nothing waits any more. */
  lemma DrainEmpties(o: Obj, t: VTime)
    requires forall i :: 0 <= i < |o.lazyQ| ==> o.lazyQ[i].sendTime < t
    ensures EmptyEffect(o, t).lazyQ == []
  {
    UnstaleIs(o.lazyQ, t);
  }

  // ----- no event is retracted twice -----

  /** Every send hands over a new event object. */
  ghost predicate NewEvents(ops: seq<Op>, os: seq<Obj>)
    requires DynamicRun(ops, os)
  {
    forall k :: 0 <= k < |ops| && ops[k].Send? ==> ops[k].e !in os[k].net.sent
  }

  ghost predicate AtMostOnce(s: seq<Event>) {
    forall e :: multiset(s)[e] <= 1
  }

  lemma StepKeepsSentOnce(op: Op, o: Obj, o': Obj)
    requires DynamicStep(op, o, o') && AtMostOnce(o.net.sent)
    requires op.Send? ==> op.e !in o.net.sent
    ensures AtMostOnce(o'.net.sent)
  {
    match op
    case Send(e) =>
      DecidedKeepsOutput(SendEffect(o, e), o');
      assert o'.net.sent == o.net.sent || o'.net.sent == o.net.sent + [e];
    case Rollback(t) =>
    case EmptyQueue(t) => DecidedKeepsOutput(EmptyEffect(o, t), o');
    case Fossil(g) =>
  }

  lemma {:induction false} SentOnceAlways(ops: seq<Op>, os: seq<Obj>, k: nat)
    requires DynamicRun(ops, os) && NewEvents(ops, os) && k < |os|
    ensures AtMostOnce(os[k].net.sent)
  {
    if k > 0 {
      SentOnceAlways(ops, os, k - 1);
      StepKeepsSentOnce(ops[k - 1], os[k - 1], os[k]);
    }
  }

  /** CANCELLED AT MOST ONCE, across all switches: no event is retracted twice, nothing retracted is in
      the output queue, in lazy mode no queued event has been retracted and in aggressive mode all have. */
  lemma CancelledAtMostOnce(ops: seq<Op>, os: seq<Obj>, k: nat)
    requires DynamicRun(ops, os) && NewEvents(ops, os) && k < |os|
    ensures var o := os[k];
            && AtMostOnce(o.net.cancelled)
            && (forall e :: e in o.net.cancelled ==> e in o.net.sent && e !in o.out.local && e !in o.out.remote)
            && (o.mode.Lazy? ==> forall e :: e in o.lazyQ ==> e !in o.net.cancelled)
            && (o.mode.Aggressive? ==> forall e :: e in o.lazyQ ==> e in o.net.cancelled)
  {
    BalancedAlways(ops, os, k);
    SentOnceAlways(ops, os, k);
    var o := os[k];
    forall e ensures multiset(o.net.cancelled)[e] <= multiset(o.net.sent)[e] <= 1 { }
    forall e | e in o.net.cancelled
      ensures e in o.net.sent && e !in o.out.local && e !in o.out.remote && (o.mode.Lazy? ==> e !in o.lazyQ)
    {
      assert e in multiset(o.net.cancelled);
      assert e in multiset(o.net.sent);
      assert e !in multiset(o.out.local) && e !in multiset(o.out.remote);
      assert o.mode.Lazy? ==> e !in multiset(o.lazyQ);
    }
    if o.mode.Aggressive? {
      forall e | e in o.lazyQ ensures e in o.net.cancelled {
        assert e in multiset(o.lazyQ);
        assert e in multiset(o.net.cancelled);
      }
    }
  }

  // ----- what fossil collection frees -----

  /** Queued and taken-out remote events are distinct objects that were sent. */
  ghost predicate Owned(o: Obj) {
    multiset(o.out.remote) + multiset(o.out.removed) <= multiset(o.net.sent)
  }

  lemma InsertKeepsOwned(o: Obj, e: Event)
    requires Owned(o) && e in o.net.sent && e !in o.out.remote
    ensures Owned(o.(out := Insert(o.out, e)))
  {
    RemoveFirstMultiset(o.out.removed, e);
  }

  lemma SendKeepsOwned(o: Obj, e: Event)
    requires Owned(o) && Balanced(o) && AtMostOnce(o.net.sent) && e !in o.net.sent
    ensures Owned(SendEffect(o, e))
  {
    var c := CheckLazy(o.lazyQ, e);
    CheckConserves(o.lazyQ, e);
    if o.lazyQ != [] && !o.permanent && o.mode.Lazy? && c.hit != [] {
      var h := c.hit[0];
      assert h in multiset(c.hit) && h in multiset(o.lazyQ) && h in multiset(o.net.sent);
      assert h !in multiset(o.out.remote);
      InsertKeepsOwned(o, h);
    } else {
      assert e !in multiset(o.net.sent);
      assert e !in multiset(o.out.remote);
      InsertKeepsOwned(o.(net := o.net.(sent := o.net.sent + [e])), e);
    }
  }

  lemma StepKeepsOwned(op: Op, o: Obj, o': Obj)
    requires Owned(o) && Balanced(o) && AtMostOnce(o.net.sent) && DynamicStep(op, o, o')
    requires op.Send? ==> op.e !in o.net.sent
    ensures Owned(o')
  {
    match op
    case Send(e) => SendKeepsOwned(o, e); DecidedKeepsOutput(SendEffect(o, e), o');
    case Rollback(t) => SplitMultiset(o.out.remote, Kept(o.out.remote, t));
    case EmptyQueue(t) => DecidedKeepsOutput(EmptyEffect(o, t), o');
    case Fossil(g) => SplitMultiset(o.out.remote, Stale(o.out.remote, g));
  }

  lemma {:induction false} OwnedAlways(ops: seq<Op>, os: seq<Obj>, k: nat)
    requires DynamicRun(ops, os) && NewEvents(ops, os) && k < |os|
    ensures Owned(os[k])
  {
    if k > 0 {
      OwnedAlways(ops, os, k - 1);
      BalancedAlways(ops, os, k - 1);
      SentOnceAlways(ops, os, k - 1);
      StepKeepsOwned(ops[k - 1], os[k - 1], os[k]);
    }
  }

  /** Fossil collection of the taken-out list never frees an event that is still in the output queue,
      however often lazy cancellation puts events back. */
  lemma QueuedNeverFreed(ops: seq<Op>, os: seq<Obj>, k: nat, e: Event)
    requires DynamicRun(ops, os) && NewEvents(ops, os) && k < |os|
    requires e in os[k].out.remote
    ensures e !in os[k].out.removed
  {
    OwnedAlways(ops, os, k);
    SentOnceAlways(ops, os, k);
    var both := multiset(os[k].out.remote) + multiset(os[k].out.removed);
    assert e in multiset(os[k].out.remote);
    assert both[e] <= multiset(os[k].net.sent)[e] <= 1;
  }
}
