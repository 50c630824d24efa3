module GvtProtocol {
  // Mattern's GVT algorithm over an arbitrary number of simulation managers.
  //
  // The system is a transition system: events, tokens and updates travel through unordered pools, any
  // manager may move at any time, and local clocks obey only the kernel's rules (a send is not before the
  // clock, a receive lowers the clock to at most the receive time, nothing else lowers it).

  import opened Wrappers
  import opened GvtLocal

  datatype Msg = Msg(src: nat, dest: nat, color: Color, sendTime: VTime, recvTime: VTime)

  datatype Sys = Sys(
    infinity: VTime,
    mgrs: seq<Local>,
    clocks: seq<VTime>,
    msgs: seq<Msg>,
    tokens: seq<Token>,
    updates: seq<Update>)

  datatype Step =
    | Send(i: nat, dest: nat, sendTime: VTime, recvTime: VTime)
    | Receive(k: nat)
    | Advance(i: nat, t: VTime)
    | Start
    | TakeToken(k: nat)
    | TakeUpdate(k: nat)

  /** Shape of the system: sizes agree and every message is addressed to an existing manager. */
  ghost predicate WellFormed(s: Sys) {
    && |s.mgrs| == |s.clocks| >= 2
    && (forall k :: 0 <= k < |s.msgs| ==> s.msgs[k].src < |s.mgrs| && s.msgs[k].dest < |s.mgrs|)
    && (forall k :: 0 <= k < |s.tokens| ==> s.tokens[k].dest < |s.mgrs|)
    && (forall k :: 0 <= k < |s.updates| ==> s.updates[k].dest < |s.mgrs|)
    && (forall i :: 0 <= i < |s.mgrs| ==> CanSend(s.mgrs[i]))
    && (s.tokens != [] ==> s.mgrs[0].tMin.Some?)
  }

  ghost predicate Initial(s: Sys) {
    && |s.mgrs| == |s.clocks| >= 2
    && s.msgs == [] && s.tokens == [] && s.updates == []
    && (forall i :: 0 <= i < |s.mgrs| ==>
          s.mgrs[i] == InitialLocal(s.mgrs[0].gvt) && s.mgrs[0].gvt <= s.clocks[i] <= s.infinity)
  }

  ghost predicate Enabled(s: Sys, step: Step)
    requires WellFormed(s)
  {
    match step
    case Send(i, dest, sendTime, recvTime) =>
      i < |s.mgrs| && dest < |s.mgrs| && s.clocks[i] <= sendTime <= recvTime <= s.infinity
    case Receive(k) => k < |s.msgs|
    case Advance(i, t) => i < |s.mgrs| && s.clocks[i] <= t <= s.infinity
    case Start => true
    case TakeToken(k) => k < |s.tokens|
    case TakeUpdate(k) => k < |s.updates|
  }

  ghost function Apply(s: Sys, step: Step): Sys
    requires WellFormed(s) && Enabled(s, step)
  {
    match step
    case Send(i, dest, sendTime, recvTime) =>
      s.(mgrs := s.mgrs[i := AfterSend(s.mgrs[i], sendTime)],
         msgs := s.msgs + [Msg(i, dest, s.mgrs[i].color, sendTime, recvTime)])
    case Receive(k) =>
      var m := s.msgs[k];
      s.(mgrs := s.mgrs[m.dest := AfterReceive(s.mgrs[m.dest], m.color)],
         clocks := s.clocks[m.dest := Min(s.clocks[m.dest], m.recvTime)],
         msgs := Without(s.msgs, k))
    case Advance(i, t) => s.(clocks := s.clocks[i := t])
    case Start =>
      var o := AfterStart(s.mgrs[0], |s.mgrs|, s.clocks[0], s.infinity);
      s.(mgrs := s.mgrs[0 := o.local], tokens := s.tokens + o.tokens)
    case TakeToken(k) =>
      var t := s.tokens[k];
      var o := AfterToken(s.mgrs[t.dest], t.dest, |s.mgrs|, t, s.clocks[t.dest], s.infinity);
      s.(mgrs := s.mgrs[t.dest := o.local],
         tokens := Without(s.tokens, k) + o.tokens,
         updates := s.updates + o.updates)
    case TakeUpdate(k) =>
      var u := s.updates[k];
      s.(mgrs := s.mgrs[u.dest := AfterUpdate(s.mgrs[u.dest], u.gvt)],
         updates := Without(s.updates, k))
  }

  /** `ss` are the states visited by `steps`, for any interleaving whatsoever. */
  ghost predicate Execution(ss: seq<Sys>, steps: seq<Step>) {
    && |ss| == |steps| + 1
    && Initial(ss[0])
    && forall k {:trigger steps[k]} :: 0 <= k < |steps| && WellFormed(ss[k]) ==>
         Enabled(ss[k], steps[k]) && ss[k + 1] == Apply(ss[k], steps[k])
  }

  lemma EventKeepsWellFormed(s: Sys, step: Step)
    requires WellFormed(s) && Enabled(s, step) && (step.Send? || step.Receive? || step.Advance?)
    ensures WellFormed(Apply(s, step))
  {
  }

  lemma TokenKeepsWellFormed(s: Sys, k: nat)
    requires WellFormed(s) && k < |s.tokens|
    ensures WellFormed(Apply(s, TakeToken(k)))
  {
    var tok := s.tokens[k];
    var o := AfterToken(s.mgrs[tok.dest], tok.dest, |s.mgrs|, tok, s.clocks[tok.dest], s.infinity);
    assert forall j :: 0 <= j < |o.tokens| ==> o.tokens[j].dest < |s.mgrs|;
    assert forall j :: 0 <= j < |o.updates| ==> o.updates[j].dest < |s.mgrs|;
  }

  lemma StepKeepsWellFormed(s: Sys, step: Step)
    requires WellFormed(s) && Enabled(s, step)
    ensures WellFormed(Apply(s, step))
  {
    match step
    case Send(_, _, _, _) => EventKeepsWellFormed(s, step);
    case Receive(_) => EventKeepsWellFormed(s, step);
    case Advance(_, _) => EventKeepsWellFormed(s, step);
    case TakeToken(k) => TokenKeepsWellFormed(s, k);
    case Start =>
    case TakeUpdate(k) =>
  }

  // ----- white-count conservation: needs no hypothesis on when cycles start -----

  ghost function WhiteSum(mgrs: seq<Local>): int {
    if mgrs == [] then 0 else WhiteSum(mgrs[..|mgrs| - 1]) + mgrs[|mgrs| - 1].white
  }

  ghost function TokenSum(tokens: seq<Token>): int {
    if tokens == [] then 0 else TokenSum(tokens[..|tokens| - 1]) + tokens[|tokens| - 1].count
  }

  ghost function WhiteInFlight(msgs: seq<Msg>): nat {
    if msgs == [] then 0
    else WhiteInFlight(msgs[..|msgs| - 1]) + if msgs[|msgs| - 1].color.White? then 1 else 0
  }

  lemma {:induction false} WhiteSumUpdate(mgrs: seq<Local>, i: nat, l: Local)
    requires i < |mgrs|
    ensures WhiteSum(mgrs[i := l]) == WhiteSum(mgrs) - mgrs[i].white + l.white
  {
    var last := |mgrs| - 1;
    if i < last {
      assert mgrs[i := l][..last] == mgrs[..last][i := l];
      WhiteSumUpdate(mgrs[..last], i, l);
    } else {
      assert mgrs[i := l][..last] == mgrs[..last];
    }
  }

  lemma {:induction false} WhiteInFlightRemove(msgs: seq<Msg>, k: nat)
    requires k < |msgs|
    ensures WhiteInFlight(Without(msgs, k)) == WhiteInFlight(msgs) - if msgs[k].color.White? then 1 else 0
  {
    var last := |msgs| - 1;
    var r := Without(msgs, k);
    if k < last {
      assert r[..|r| - 1] == Without(msgs[..last], k);
      WhiteInFlightRemove(msgs[..last], k);
    } else {
      assert r == msgs[..last];
    }
  }

  /** The token bookkeeping identity, and one token exactly while a cycle is pending at manager 0. */
  ghost predicate Conserved(s: Sys) {
    && WellFormed(s)
    && WhiteSum(s.mgrs) + TokenSum(s.tokens) == WhiteInFlight(s.msgs)
    && |s.tokens| == (if s.mgrs[0].pending then 1 else 0)
  }

  lemma {:induction false} WhiteSumOfInitial(mgrs: seq<Local>)
    requires forall i :: 0 <= i < |mgrs| ==> mgrs[i].white == 0
    ensures WhiteSum(mgrs) == 0
  {
    if mgrs != [] { WhiteSumOfInitial(mgrs[..|mgrs| - 1]); }
  }

  lemma SendConserves(s: Sys, step: Step)
    requires Conserved(s) && Enabled(s, step) && step.Send?
    ensures Conserved(Apply(s, step))
  {
    var s' := Apply(s, step);
    StepKeepsWellFormed(s, step);
    WhiteSumUpdate(s.mgrs, step.i, s'.mgrs[step.i]);
    assert s'.msgs[..|s'.msgs| - 1] == s.msgs;
  }

  lemma ReceiveConserves(s: Sys, step: Step)
    requires Conserved(s) && Enabled(s, step) && step.Receive?
    ensures Conserved(Apply(s, step))
  {
    var s' := Apply(s, step);
    StepKeepsWellFormed(s, step);
    var d := s.msgs[step.k].dest;
    WhiteSumUpdate(s.mgrs, d, s'.mgrs[d]);
    WhiteInFlightRemove(s.msgs, step.k);
  }

  lemma TokenSumOne(tok: Token)
    ensures TokenSum([tok]) == tok.count
  {
    assert [tok][..0] == [];
  }

  /** A token step moves the count between the token and the manager, and never loses any. */
  lemma TokenStepBalance(l: Local, id: nat, n: nat, tok: Token, clock: VTime, infinity: VTime)
    requires id < n && n >= 2 && CanForward(l, id)
    ensures var o := AfterToken(l, id, n, tok, clock, infinity);
            o.local.white + TokenSum(o.tokens) == l.white + tok.count
            && |o.tokens| <= 1
            && (o.tokens == [] <==> id == 0 && !o.local.pending && Finishes(l, tok))
            && (!(id == 0 && Finishes(l, tok)) ==> o.local.pending == l.pending)
  {
    var o := AfterToken(l, id, n, tok, clock, infinity);
    if o.tokens != [] { TokenSumOne(o.tokens[0]); }
  }

  lemma TokenMoves(mgrs: seq<Local>, d: nat, l: Local, tok: Token, tokens: seq<Token>)
    requires d < |mgrs|
    requires l.white + TokenSum(tokens) == mgrs[d].white + tok.count
    ensures WhiteSum(mgrs[d := l]) + TokenSum(tokens) == WhiteSum(mgrs) + TokenSum([tok])
  {
    WhiteSumUpdate(mgrs, d, l);
    TokenSumOne(tok);
  }

  lemma TokenStepEffect(s: Sys, k: nat)
    requires WellFormed(s) && |s.tokens| == 1 && k == 0
    ensures var tok := s.tokens[0];
            var o := AfterToken(s.mgrs[tok.dest], tok.dest, |s.mgrs|, tok, s.clocks[tok.dest], s.infinity);
            var s' := Apply(s, TakeToken(k));
            s.tokens == [tok] && s'.tokens == o.tokens && s'.mgrs == s.mgrs[tok.dest := o.local] && s'.msgs == s.msgs
  {
    assert Without(s.tokens, k) == [];
  }

  lemma TokenStepConserves(s: Sys, k: nat)
    requires Conserved(s) && Enabled(s, TakeToken(k))
    ensures Conserved(Apply(s, TakeToken(k)))
  {
    var tok := s.tokens[0];
    var d := tok.dest;
    var o := AfterToken(s.mgrs[d], d, |s.mgrs|, tok, s.clocks[d], s.infinity);
    StepKeepsWellFormed(s, TakeToken(k));
    TokenStepEffect(s, k);
    TokenStepBalance(s.mgrs[d], d, |s.mgrs|, tok, s.clocks[d], s.infinity);
    TokenMoves(s.mgrs, d, o.local, tok, o.tokens);
  }

  lemma StartWhilePending(s: Sys)
    requires WellFormed(s) && s.mgrs[0].pending
    ensures Apply(s, Start) == s
  {
    assert s.mgrs[0 := s.mgrs[0]] == s.mgrs;
    assert s.tokens + [] == s.tokens;
  }

  lemma StartConserves(s: Sys)
    requires Conserved(s)
    ensures Conserved(Apply(s, Start))
  {
    if s.mgrs[0].pending {
      StartWhilePending(s);
    } else {
      var s' := Apply(s, Start);
      StepKeepsWellFormed(s, Start);
      WhiteSumUpdate(s.mgrs, 0, s'.mgrs[0]);
      assert s.tokens == [] && s'.tokens == [s'.tokens[0]];
      TokenSumOne(s'.tokens[0]);
    }
  }

  lemma UpdateConserves(s: Sys, k: nat)
    requires Conserved(s) && Enabled(s, TakeUpdate(k))
    ensures Conserved(Apply(s, TakeUpdate(k)))
  {
    var s' := Apply(s, TakeUpdate(k));
    StepKeepsWellFormed(s, TakeUpdate(k));
    WhiteSumUpdate(s.mgrs, s.updates[k].dest, s'.mgrs[s.updates[k].dest]);
  }

  lemma StepConserves(s: Sys, step: Step)
    requires Conserved(s) && Enabled(s, step)
    ensures Conserved(Apply(s, step))
  {
    match step
    case Send(_, _, _, _) => SendConserves(s, step);
    case Receive(_) => ReceiveConserves(s, step);
    case Advance(_, _) =>
    case Start => StartConserves(s);
    case TakeToken(k) => TokenStepConserves(s, k);
    case TakeUpdate(k) => UpdateConserves(s, k);
  }

  /** White-count conservation over every execution, across any number of cycles. */
  lemma {:induction false} ConservationAlways(ss: seq<Sys>, steps: seq<Step>, k: nat)
    requires Execution(ss, steps) && k < |ss|
    ensures Conserved(ss[k])
  {
    if k == 0 {
      WhiteSumOfInitial(ss[0].mgrs);
    } else {
      ConservationAlways(ss, steps, k - 1);
      StepConserves(ss[k - 1], steps[k - 1]);
    }
  }

  // ----- lower bounds are stable -----

  /** `v` is at most every local clock and the receive time of every event in flight. */
  ghost predicate LowerBound(s: Sys, v: VTime) {
    && (forall i :: 0 <= i < |s.clocks| ==> v <= s.clocks[i])
    && (forall k :: 0 <= k < |s.msgs| ==> v <= s.msgs[k].recvTime)
  }

  lemma StepKeepsLowerBound(s: Sys, step: Step, v: VTime)
    requires WellFormed(s) && Enabled(s, step) && LowerBound(s, v)
    ensures LowerBound(Apply(s, step), v)
  {
  }

  /** Once a lower bound, forever a lower bound: no execution can ever roll back below it. */
  lemma {:induction false} LowerBoundForever(ss: seq<Sys>, steps: seq<Step>, j: nat, k: nat, v: VTime)
    requires Execution(ss, steps) && j <= k < |ss| && LowerBound(ss[j], v)
    ensures LowerBound(ss[k], v)
    decreases k - j
  {
    if j < k {
      ConservationAlways(ss, steps, j);
      StepKeepsLowerBound(ss[j], steps[j], v);
      LowerBoundForever(ss, steps, j + 1, k, v);
    }
  }

  // ----- one cycle -----

  /** The hypotheses under which a cycle may start: updates and red messages of the previous cycle have
      all arrived. */
  ghost predicate CleanStart(s: Sys) {
    s.updates == [] && forall k :: 0 <= k < |s.msgs| ==> s.msgs[k].color.White?
  }

  ghost predicate UpdateFor(s: Sys, i: int) {
    exists k :: 0 <= k < |s.updates| && s.updates[k].dest == i
  }

  /** Between cycles a manager is still red only if the update that makes it white is under way. */
  ghost predicate Whitening(s: Sys) {
    forall i :: 0 <= i < |s.mgrs| && s.mgrs[i].color.Red? ==> UpdateFor(s, i)
  }

  /** Managers below this index have seen the token in its current round. */
  ghost function Visited(s: Sys): nat
    requires s.tokens != []
  {
    if s.tokens[0].dest == 0 then |s.mgrs| else s.tokens[0].dest
  }

  ghost predicate Unspoiled(s: Sys, from: nat)
    requires s.tokens != [] && Visited(s) <= |s.mgrs|
  {
    forall i :: from <= i < Visited(s) ==> s.mgrs[i].white == 0
  }

  /** `t` is not below what the token will know at the end of its round. */
  ghost predicate Covered(s: Sys, t: VTime)
    requires s.tokens != []
  {
    || s.tokens[0].mClock <= t
    || s.tokens[0].mSend <= t
    || exists j :: Visited(s) <= j < |s.mgrs| && s.mgrs[j].tMin.Some? && s.mgrs[j].tMin.value <= t
  }

  /** As `Covered`, or at least the earliest red send of the initiator. */
  ghost predicate CoveredOrRoot(s: Sys, t: VTime)
    requires s.tokens != [] && |s.mgrs| > 0
  {
    Covered(s, t) || (s.mgrs[0].tMin.Some? && s.mgrs[0].tMin.value <= t)
  }

  /** What holds while the token circulates, in any round. */
  ghost predicate Circulating(s: Sys)
    requires WellFormed(s) && s.tokens != []
  {
    && s.updates == []
    && s.mgrs[0].iteration >= 1
    && (forall i :: 0 <= i < |s.mgrs| ==>
          (s.mgrs[i].color.Red? <==> i < Visited(s) || s.mgrs[0].iteration > 1))
    && (forall i :: 0 <= i < |s.mgrs| && s.mgrs[i].color.Red? ==> s.mgrs[i].white <= 0)
    && (forall k :: 0 <= k < |s.msgs| && s.msgs[k].color.Red? ==>
          && s.mgrs[s.msgs[k].src].color.Red?
          && s.mgrs[s.msgs[k].src].tMin.value <= s.msgs[k].sendTime <= s.msgs[k].recvTime)
  }

  /** From the second round on: whatever has not been disturbed by a late white message is covered. */
  ghost predicate SecondCut(s: Sys)
    requires WellFormed(s) && s.tokens != [] && Circulating(s)
  {
    s.mgrs[0].iteration > 1 ==>
      && (Unspoiled(s, 1) ==>
            && (forall i :: 1 <= i < Visited(s) ==>
                  CoveredOrRoot(s, s.clocks[i]) && CoveredOrRoot(s, s.mgrs[i].tMin.value))
            && (forall k :: 0 <= k < |s.msgs| && s.msgs[k].color.Red? ==> CoveredOrRoot(s, s.msgs[k].recvTime)))
      && (Unspoiled(s, 0) ==>
            Covered(s, s.clocks[0]) && Covered(s, s.mgrs[0].tMin.value))
  }

  /** The published value never overtakes anything the cycle may still report. */
  ghost predicate Published(s: Sys)
    requires WellFormed(s)
  {
    var g := s.mgrs[0].gvt;
    && LowerBound(s, g) && g <= s.infinity
    && (forall i :: 0 <= i < |s.mgrs| ==> s.mgrs[i].gvt <= g)
    && (forall k :: 0 <= k < |s.updates| ==> s.updates[k].gvt == g)
    && (s.tokens != [] ==>
          && g <= s.tokens[0].mClock && g <= s.tokens[0].mSend <= s.infinity
          && forall i :: 0 <= i < |s.mgrs| && s.mgrs[i].color.Red? ==> g <= s.mgrs[i].tMin.value)
  }

  ghost predicate CycleInv(s: Sys) {
    && Conserved(s) && Published(s)
    && (if s.tokens != [] then Circulating(s) && SecondCut(s) else s.mgrs[0].iteration == 0 && Whitening(s))
  }

  ghost predicate FinishStep(s: Sys, step: Step)
    requires WellFormed(s) && Enabled(s, step)
  {
    step.TakeToken? && s.tokens[step.k].dest == 0 && Finishes(s.mgrs[0], s.tokens[step.k])
  }

  /** What manager 0 can check on its own record and clock before it publishes. */
  ghost predicate RootAgrees(s: Sys, tok: Token)
    requires WellFormed(s)
  {
    NewGvt(tok) <= s.clocks[0] && s.mgrs[0].tMin.Some? && NewGvt(tok) <= s.mgrs[0].tMin.value
  }

  /** A safe cut: `v` bounds clocks and messages in flight, and every red send of this cycle. */
  ghost predicate SafeCut(s: Sys, v: VTime) {
    && LowerBound(s, v)
    && forall i :: 0 <= i < |s.mgrs| ==> s.mgrs[i].tMin.Some? && v <= s.mgrs[i].tMin.value
  }

  lemma {:induction false} NonPositiveSum(mgrs: seq<Local>, from: nat)
    requires forall i :: from <= i < |mgrs| ==> mgrs[i].white <= 0
    requires from <= |mgrs|
    ensures WhiteSum(mgrs) <= WhiteSum(mgrs[..from])
    ensures WhiteSum(mgrs) == WhiteSum(mgrs[..from]) ==> forall i :: from <= i < |mgrs| ==> mgrs[i].white == 0
  {
    if from == |mgrs| {
      assert mgrs[..from] == mgrs;
    } else {
      assert mgrs[..|mgrs| - 1][..from] == mgrs[..from];
      NonPositiveSum(mgrs[..|mgrs| - 1], from);
    }
  }

  lemma {:induction false} NoWhiteLeft(msgs: seq<Msg>)
    requires WhiteInFlight(msgs) == 0
    ensures forall k :: 0 <= k < |msgs| ==> msgs[k].color.Red?
  {
    if msgs != [] { NoWhiteLeft(msgs[..|msgs| - 1]); }
  }

  /** When the test succeeds no white message is left and nobody but manager 0 can be spoiled. */
  lemma FinishMeansDrained(s: Sys)
    requires CycleInv(s) && s.tokens != [] && s.tokens[0].dest == 0 && Finishes(s.mgrs[0], s.tokens[0])
    ensures Unspoiled(s, 1)
    ensures forall k :: 0 <= k < |s.msgs| ==> s.msgs[k].color.Red?
  {
    assert s.tokens == [s.tokens[0]];
    TokenSumOne(s.tokens[0]);
    NonPositiveSum(s.mgrs, 1);
    assert s.mgrs[..1][..0] == [];
    assert WhiteSum(s.mgrs[..1]) == s.mgrs[0].white;
    NoWhiteLeft(s.msgs);
  }

  /** The state just before manager 0 ends a cycle. */
  ghost predicate AtFinish(s: Sys) {
    CycleInv(s) && s.tokens != [] && s.tokens[0].dest == 0 && Finishes(s.mgrs[0], s.tokens[0])
  }

  /** If the value passes the check manager 0 can make locally, it is a safe cut. */
  lemma RootAgreesIsSafe(s: Sys)
    requires AtFinish(s) && RootAgrees(s, s.tokens[0])
    ensures SafeCut(s, NewGvt(s.tokens[0]))
  {
    FinishMeansDrained(s);
    assert forall t :: CoveredOrRoot(s, t) ==> NewGvt(s.tokens[0]) <= t;
  }

  /** If manager 0 received no white message since it last forwarded the token, the check succeeds. */
  lemma ZeroOwnCountAgrees(s: Sys)
    requires AtFinish(s) && s.mgrs[0].white == 0
    ensures RootAgrees(s, s.tokens[0])
  {
    FinishMeansDrained(s);
    assert Unspoiled(s, 0);
    assert forall t :: Covered(s, t) ==> NewGvt(s.tokens[0]) <= t;
  }

  // ----- every step of a disciplined execution keeps the cycle invariant -----

  /** Cycles start clean, and manager 0 publishes only what agrees with its own record;
      having received no white message since it forwarded the token is enough for that. */
  ghost predicate DisciplinedStep(s: Sys, step: Step)
    requires WellFormed(s) && Enabled(s, step)
  {
    && (step.Start? && !s.mgrs[0].pending ==> CleanStart(s))
    && (FinishStep(s, step) ==> s.mgrs[0].white == 0 || RootAgrees(s, s.tokens[step.k]))
  }

  /** A manager that moved keeps everything covered that was covered. */
  lemma CoverGrows(s: Sys, s': Sys)
    requires s.tokens != [] && s'.tokens == s.tokens && |s'.mgrs| == |s.mgrs|
    requires forall i :: 0 <= i < |s.mgrs| && s.mgrs[i].tMin.Some? ==>
               s'.mgrs[i].tMin.Some? && s'.mgrs[i].tMin.value <= s.mgrs[i].tMin.value
    ensures forall t :: Covered(s, t) ==> Covered(s', t)
  {
    forall t | Covered(s, t) ensures Covered(s', t) {
      if s.tokens[0].mClock > t && s.tokens[0].mSend > t {
        var j :| Visited(s) <= j < |s.mgrs| && s.mgrs[j].tMin.Some? && s.mgrs[j].tMin.value <= t;
        assert s'.mgrs[j].tMin.value <= t;
      }
    }
  }

  lemma EventKeepsPublished(s: Sys, step: Step)
    requires WellFormed(s) && Enabled(s, step) && (step.Send? || step.Receive? || step.Advance?)
    requires Published(s)
    ensures WellFormed(Apply(s, step)) && Published(Apply(s, step))
  {
    StepKeepsWellFormed(s, step);
    StepKeepsLowerBound(s, step, s.mgrs[0].gvt);
  }

  lemma EventKeepsCirculating(s: Sys, step: Step)
    requires WellFormed(s) && Enabled(s, step) && (step.Send? || step.Receive? || step.Advance?)
    requires s.tokens != [] && Circulating(s)
    ensures WellFormed(Apply(s, step)) && Circulating(Apply(s, step))
  {
    StepKeepsWellFormed(s, step);
  }

  lemma SendKeepsCut(s: Sys, step: Step)
    requires WellFormed(s) && Enabled(s, step) && step.Send?
    requires s.tokens != [] && Circulating(s) && SecondCut(s)
    ensures WellFormed(Apply(s, step)) && Circulating(Apply(s, step)) && SecondCut(Apply(s, step))
  {
    var s' := Apply(s, step);
    EventKeepsCirculating(s, step);
    CoverGrows(s, s');
  }

  lemma ReceiveKeepsCut(s: Sys, step: Step)
    requires WellFormed(s) && Enabled(s, step) && step.Receive?
    requires s.tokens != [] && Circulating(s) && SecondCut(s)
    ensures WellFormed(Apply(s, step)) && Circulating(Apply(s, step)) && SecondCut(Apply(s, step))
  {
    var s' := Apply(s, step);
    EventKeepsCirculating(s, step);
    CoverGrows(s, s');
  }

  lemma AdvanceKeepsCut(s: Sys, step: Step)
    requires WellFormed(s) && Enabled(s, step) && step.Advance?
    requires s.tokens != [] && Circulating(s) && SecondCut(s)
    ensures WellFormed(Apply(s, step)) && Circulating(Apply(s, step)) && SecondCut(Apply(s, step))
  {
    var s' := Apply(s, step);
    EventKeepsCirculating(s, step);
    CoverGrows(s, s');
  }

  lemma EventKeepsCycle(s: Sys, step: Step)
    requires CycleInv(s) && Enabled(s, step) && (step.Send? || step.Receive? || step.Advance?)
    ensures CycleInv(Apply(s, step))
  {
    StepConserves(s, step);
    EventKeepsPublished(s, step);
    if s.tokens != [] { EventKeepsCut(s, step); } else { EventKeepsWhitening(s, step); }
  }

  lemma EventKeepsCut(s: Sys, step: Step)
    requires WellFormed(s) && Enabled(s, step) && (step.Send? || step.Receive? || step.Advance?)
    requires s.tokens != [] && Circulating(s) && SecondCut(s)
    ensures WellFormed(Apply(s, step)) && Apply(s, step).tokens == s.tokens
    ensures Circulating(Apply(s, step)) && SecondCut(Apply(s, step))
  {
    match step
    case Send(_, _, _, _) => SendKeepsCut(s, step);
    case Receive(_) => ReceiveKeepsCut(s, step);
    case Advance(_, _) => AdvanceKeepsCut(s, step);
  }

  lemma EventKeepsWhitening(s: Sys, step: Step)
    requires WellFormed(s) && Enabled(s, step) && (step.Send? || step.Receive? || step.Advance?)
    requires s.mgrs[0].iteration == 0 && Whitening(s)
    ensures var s' := Apply(s, step);
            s'.tokens == s.tokens && |s'.mgrs| == |s.mgrs| && s'.mgrs[0].iteration == 0 && Whitening(s')
  {
    var s' := Apply(s, step);
    forall i | 0 <= i < |s'.mgrs| && s'.mgrs[i].color.Red? ensures UpdateFor(s', i) {
      assert UpdateFor(s, i);
    }
  }

  lemma StartKeepsCycle(s: Sys)
    requires CycleInv(s) && (!s.mgrs[0].pending ==> CleanStart(s))
    ensures CycleInv(Apply(s, Start))
  {
    StepConserves(s, Start);
    if s.mgrs[0].pending {
      StartWhilePending(s);
    } else {
      var s' := Apply(s, Start);
      assert s'.tokens == [s'.tokens[0]] && s'.mgrs[0].iteration == 1;
    }
  }

  lemma UpdateKeepsCycle(s: Sys, step: Step)
    requires CycleInv(s) && Enabled(s, step) && step.TakeUpdate?
    ensures CycleInv(Apply(s, step))
  {
    StepConserves(s, step);
    if s.tokens == [] { UpdateWhitens(s, step.k); }
  }

  lemma UpdateWhitens(s: Sys, k: nat)
    requires WellFormed(s) && k < |s.updates| && Whitening(s)
    ensures Whitening(Apply(s, TakeUpdate(k)))
  {
    var s' := Apply(s, TakeUpdate(k));
    forall i | 0 <= i < |s'.mgrs| && s'.mgrs[i].color.Red? ensures UpdateFor(s', i) {
      assert UpdateFor(s, i);
      var j :| 0 <= j < |s.updates| && s.updates[j].dest == i;
      assert s'.updates[if j < k then j else j - 1] == s.updates[j];
    }
  }

  lemma FinishWhitens(s: Sys, step: Step)
    requires WellFormed(s) && Enabled(s, step) && FinishStep(s, step)
    ensures Whitening(Apply(s, step))
  {
    var s' := Apply(s, step);
    forall i | 0 <= i < |s'.mgrs| && s'.mgrs[i].color.Red? ensures UpdateFor(s', i) {
      assert s'.updates[|s.updates| + i - 1].dest == i;
    }
  }

  lemma ForwardKeepsCirculating(s: Sys, step: Step)
    requires Conserved(s) && Enabled(s, step) && step.TakeToken? && !FinishStep(s, step)
    requires s.tokens != [] && Circulating(s)
    ensures WellFormed(Apply(s, step)) && Apply(s, step).tokens != [] && Circulating(Apply(s, step))
  {
    StepKeepsWellFormed(s, step);
    assert Without(s.tokens, step.k) == [];
  }

  /** What a non-initiator adds to the token makes up for its leaving the unvisited part. */
  lemma ForwardCovers(s: Sys, step: Step, t: VTime)
    requires Conserved(s) && Enabled(s, step) && step.TakeToken? && s.tokens[0].dest != 0
    requires Circulating(s) && s.mgrs[0].iteration > 1 && Covered(s, t)
    ensures Apply(s, step).tokens != [] && Covered(Apply(s, step), t)
  {
    var s' := Apply(s, step);
    var d := s.tokens[0].dest;
    assert Without(s.tokens, step.k) == [];
    if s.tokens[0].mClock > t && s.tokens[0].mSend > t {
      var j :| Visited(s) <= j < |s.mgrs| && s.mgrs[j].tMin.Some? && s.mgrs[j].tMin.value <= t;
      if j == d {
        assert s'.tokens[0].mSend <= t;
      } else {
        assert Visited(s') <= j && s'.mgrs[j] == s.mgrs[j];
      }
    }
  }

  lemma RootForwardKeepsCut(s: Sys, step: Step)
    requires Conserved(s) && Enabled(s, step) && step.TakeToken? && !FinishStep(s, step)
    requires s.tokens[0].dest == 0 && Circulating(s)
    ensures WellFormed(Apply(s, step)) && Apply(s, step).tokens != [] && Circulating(Apply(s, step))
    ensures SecondCut(Apply(s, step))
  {
    ForwardKeepsCirculating(s, step);
    assert Without(s.tokens, step.k) == [];
    assert Visited(Apply(s, step)) == 1;
  }

  lemma OtherForwardKeepsCut(s: Sys, step: Step)
    requires Conserved(s) && Enabled(s, step) && step.TakeToken?
    requires s.tokens[0].dest != 0 && Circulating(s) && SecondCut(s)
    ensures WellFormed(Apply(s, step)) && Apply(s, step).tokens != [] && Circulating(Apply(s, step))
    ensures SecondCut(Apply(s, step))
  {
    var s' := Apply(s, step);
    var d := s.tokens[0].dest;
    ForwardKeepsCirculating(s, step);
    assert Without(s.tokens, step.k) == [];
    if s.mgrs[0].iteration > 1 {
      assert Visited(s) == d && Visited(s') == d + 1;
      assert forall i :: 0 <= i < d ==> s.mgrs[i] == s'.mgrs[i];
      assert Unspoiled(s', 1) ==> Unspoiled(s, 1);
      assert Unspoiled(s', 0) ==> Unspoiled(s, 0);
      assert Covered(s', s.clocks[d]) && Covered(s', s.mgrs[d].tMin.value);
      forall t | Covered(s, t) ensures Covered(s', t) {
        ForwardCovers(s, step, t);
      }
      assert forall t :: CoveredOrRoot(s, t) ==> CoveredOrRoot(s', t);
    }
  }

  lemma ForwardKeepsPublished(s: Sys, step: Step)
    requires Conserved(s) && Enabled(s, step) && step.TakeToken? && !FinishStep(s, step)
    requires s.tokens != [] && Circulating(s) && Published(s)
    ensures WellFormed(Apply(s, step)) && Published(Apply(s, step))
  {
    StepKeepsWellFormed(s, step);
    assert Without(s.tokens, step.k) == [];
  }

  lemma FinishKeepsCycle(s: Sys, step: Step)
    requires CycleInv(s) && Enabled(s, step) && FinishStep(s, step)
    requires s.mgrs[0].white == 0 || RootAgrees(s, s.tokens[step.k])
    ensures CycleInv(Apply(s, step))
    ensures s.mgrs[0].gvt <= Apply(s, step).mgrs[0].gvt
  {
    StepConserves(s, step);
    FinishWhitens(s, step);
    if s.mgrs[0].white == 0 { ZeroOwnCountAgrees(s); }
    RootAgreesIsSafe(s);
  }

  lemma DisciplinedStepKeepsCycle(s: Sys, step: Step)
    requires CycleInv(s) && Enabled(s, step) && DisciplinedStep(s, step)
    ensures CycleInv(Apply(s, step))
  {
    match step
    case Send(_, _, _, _) => EventKeepsCycle(s, step);
    case Receive(_) => EventKeepsCycle(s, step);
    case Advance(_, _) => EventKeepsCycle(s, step);
    case Start => StartKeepsCycle(s);
    case TakeUpdate(_) => UpdateKeepsCycle(s, step);
    case TakeToken(_) =>
      if FinishStep(s, step) {
        FinishKeepsCycle(s, step);
      } else {
        StepConserves(s, step);
        ForwardKeepsPublished(s, step);
        if s.tokens[0].dest == 0 { RootForwardKeepsCut(s, step); } else { OtherForwardKeepsCut(s, step); }
      }
  }

  ghost predicate Disciplined(ss: seq<Sys>, steps: seq<Step>)
    requires Execution(ss, steps)
  {
    forall k {:trigger steps[k]} :: 0 <= k < |steps| && WellFormed(ss[k]) ==> DisciplinedStep(ss[k], steps[k])
  }

  /** The step is possible, respects the discipline and leads to `s'`. */
  ghost predicate Leads(s: Sys, step: Step, s': Sys) {
    WellFormed(s) && Enabled(s, step) && DisciplinedStep(s, step) && s' == Apply(s, step)
  }

  lemma ExtendExecution(ss: seq<Sys>, steps: seq<Step>, step: Step, s: Sys)
    requires Execution(ss, steps) && WellFormed(ss[|steps|]) && Enabled(ss[|steps|], step)
    requires s == Apply(ss[|steps|], step)
    ensures Execution(ss + [s], steps + [step])
  {
  }

  lemma {:induction false} CycleInvAlways(ss: seq<Sys>, steps: seq<Step>, k: nat)
    requires Execution(ss, steps) && Disciplined(ss, steps) && k < |ss|
    ensures CycleInv(ss[k])
  {
    if k == 0 {
      ConservationAlways(ss, steps, 0);
    } else {
      CycleInvAlways(ss, steps, k - 1);
      DisciplinedStepKeepsCycle(ss[k - 1], steps[k - 1]);
    }
  }

  /** GVT SAFETY over whole executions: at every moment, what any manager believes the GVT to be,
      and what any update in flight carries, is below every clock and every event in flight,
      at that moment and at every later one. */
  lemma GvtSafety(ss: seq<Sys>, steps: seq<Step>, j: nat, k: nat, i: nat)
    requires Execution(ss, steps) && Disciplined(ss, steps)
    requires j <= k < |ss| && i < |ss[j].mgrs|
    ensures LowerBound(ss[k], ss[j].mgrs[i].gvt)
    ensures forall u :: 0 <= u < |ss[j].updates| ==> LowerBound(ss[k], ss[j].updates[u].gvt)
  {
    CycleInvAlways(ss, steps, j);
    LowerBoundForever(ss, steps, j, k, ss[j].mgrs[0].gvt);
  }

  lemma StepRaisesGvt(s: Sys, step: Step, i: nat)
    requires CycleInv(s) && Enabled(s, step) && DisciplinedStep(s, step) && i < |s.mgrs|
    ensures |Apply(s, step).mgrs| == |s.mgrs|
    ensures s.mgrs[i].gvt <= Apply(s, step).mgrs[i].gvt
  {
    if FinishStep(s, step) { FinishKeepsCycle(s, step); } else { OtherStepsRaise(s, step, i); }
  }

  lemma OtherStepsRaise(s: Sys, step: Step, i: nat)
    requires WellFormed(s) && Published(s) && Enabled(s, step) && !FinishStep(s, step) && i < |s.mgrs|
    ensures |Apply(s, step).mgrs| == |s.mgrs| && s.mgrs[i].gvt <= Apply(s, step).mgrs[i].gvt
  {
  }

  /** GVT NEVER DECREASES: the assertions getGVT() >= oldGVT hold at every manager in every
      disciplined execution. */
  lemma {:induction false} GvtMonotone(ss: seq<Sys>, steps: seq<Step>, j: nat, k: nat, i: nat)
    requires Execution(ss, steps) && Disciplined(ss, steps)
    requires j <= k < |ss| && i < |ss[j].mgrs|
    ensures i < |ss[k].mgrs| && ss[j].mgrs[i].gvt <= ss[k].mgrs[i].gvt
    decreases k - j
  {
    if j < k {
      CycleInvAlways(ss, steps, j);
      StepRaisesGvt(ss[j], steps[j], i);
      GvtMonotone(ss, steps, j + 1, k, i);
    }
  }
}
