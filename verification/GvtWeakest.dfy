module GvtWeakest {
  // The comparison with manager 0's own clock and minimum is the weakest local test that makes the closing
  // test safe. If it fails, manager 0 has sent a red message at its recorded minimum in this cycle; had it
  // sent one more, still in flight, managers and token would hold the same and the value would be unsafe.

  import opened Wrappers
  import opened GvtLocal
  import opened GvtProtocol

  // ----- states of disciplined executions -----

  /** The last state of a disciplined execution. */
  ghost predicate Reachable(s: Sys) {
    exists ss: seq<Sys>, steps: seq<Step> :: Execution(ss, steps) && Disciplined(ss, steps) && ss[|steps|] == s
  }

  lemma ReachableInv(s: Sys)
    requires Reachable(s)
    ensures CycleInv(s)
  {
    var ss: seq<Sys>, steps: seq<Step> :| Execution(ss, steps) && Disciplined(ss, steps) && ss[|steps|] == s;
    CycleInvAlways(ss, steps, |steps|);
  }

  lemma PrefixReachable(ss: seq<Sys>, steps: seq<Step>, k: nat)
    requires Execution(ss, steps) && Disciplined(ss, steps) && k < |ss|
    ensures Reachable(ss[k])
  {
    var ss', steps' := ss[..k + 1], steps[..k];
    assert Execution(ss', steps') && Disciplined(ss', steps') && ss'[|steps'|] == ss[k];
  }

  lemma ReachableStep(s: Sys, step: Step, s': Sys)
    requires Reachable(s) && Leads(s, step, s')
    ensures Reachable(s')
  {
    var ss: seq<Sys>, steps: seq<Step> :| Execution(ss, steps) && Disciplined(ss, steps) && ss[|steps|] == s;
    ExtendExecution(ss, steps, step, s');
    var ss', steps' := ss + [s'], steps + [step];
    forall k | 0 <= k < |steps'| && WellFormed(ss'[k]) ensures DisciplinedStep(ss'[k], steps'[k]) {
      assert ss'[k] == ss[k];
    }
    assert ss'[|steps'|] == s';
  }

  // ----- one more message of manager 0 -----

  /** A red message of manager 0 at its recorded minimum. */
  ghost function RootMessage(s: Sys): Msg
    requires |s.mgrs| > 0 && s.mgrs[0].tMin.Some?
  {
    var t := s.mgrs[0].tMin.value;
    Msg(0, 1, Red, t, t)
  }

  ghost function PutAt<T>(s: seq<T>, p: nat, x: T): seq<T>
    requires p <= |s|
  {
    s[..p] + [x] + s[p..]
  }

  /** The state with such a message in flight besides. */
  ghost function Shadow(s: Sys, p: nat): Sys
    requires |s.mgrs| > 0 && s.mgrs[0].tMin.Some? && p <= |s.msgs|
  {
    s.(msgs := PutAt(s.msgs, p, RootMessage(s)))
  }

  /** The same step, and where the message then is. */
  ghost function Shifted(step: Step, p: nat): Step {
    match step
    case Receive(k) => Receive(if k < p then k else k + 1)
    case _ => step
  }

  ghost function Position(step: Step, p: nat): nat {
    if step.Receive? && step.k < p then p - 1 else p
  }

  lemma PutAtRemove<T>(s: seq<T>, p: nat, x: T, k: nat)
    requires p <= |s| && k < |s|
    ensures var k' := if k < p then k else k + 1;
            var p' := if k < p then p - 1 else p;
            PutAt(s, p, x)[k'] == s[k] && Without(PutAt(s, p, x), k') == PutAt(Without(s, k), p', x)
  {
  }

  lemma PutAtAppend<T>(s: seq<T>, p: nat, x: T, y: T)
    requires p <= |s|
    ensures PutAt(s, p, x) + [y] == PutAt(s + [y], p, x)
  {
  }

  lemma ShadowWellFormed(s: Sys, p: nat)
    requires WellFormed(s) && s.mgrs[0].tMin.Some? && p <= |s.msgs|
    ensures WellFormed(Shadow(s, p))
  {
    var msgs := Shadow(s, p).msgs;
    assert forall k :: 0 <= k < |msgs| ==>
        msgs[k] == (if k < p then s.msgs[k] else if k == p then RootMessage(s) else s.msgs[k - 1]);
  }

  /** Every step is possible with the message in flight and has the same effect, as long as it leaves the
      minimum alone. */
  lemma ShadowStep(s: Sys, step: Step, p: nat)
    requires WellFormed(s) && Enabled(s, step) && s.mgrs[0].tMin.Some? && p <= |s.msgs|
    requires Apply(s, step).mgrs[0].tMin == s.mgrs[0].tMin
    ensures WellFormed(Shadow(s, p)) && Enabled(Shadow(s, p), Shifted(step, p))
    ensures Position(step, p) <= |Apply(s, step).msgs|
    ensures Apply(Shadow(s, p), Shifted(step, p)) == Shadow(Apply(s, step), Position(step, p))
  {
    ShadowWellFormed(s, p);
    match step
    case Send(i, d, t, r) => PutAtAppend(s.msgs, p, RootMessage(s), Msg(i, d, s.mgrs[i].color, t, r));
    case Receive(k) => PutAtRemove(s.msgs, p, RootMessage(s), k);
    case Advance(_, _) =>
    case Start =>
    case TakeToken(_) =>
    case TakeUpdate(_) =>
  }

  lemma ShadowDisciplined(s: Sys, step: Step, p: nat)
    requires WellFormed(s) && Enabled(s, step) && DisciplinedStep(s, step) && s.mgrs[0].pending
    requires s.mgrs[0].tMin.Some? && p <= |s.msgs|
    requires WellFormed(Shadow(s, p)) && Enabled(Shadow(s, p), Shifted(step, p))
    ensures DisciplinedStep(Shadow(s, p), Shifted(step, p))
  {
  }

  /** A second message at the time of one just sent changes nothing but the messages in flight. */
  lemma SentAgain(s: Sys, t: VTime)
    requires WellFormed(s) && s.mgrs[0].color.Red? && s.mgrs[0].tMin == Some(t) && s.clocks[0] <= t <= s.infinity
    ensures Leads(s, Send(0, 1, t, t), Shadow(s, |s.msgs|))
  {
    assert s.mgrs[0 := s.mgrs[0]] == s.mgrs;
  }

  /** A send of manager 0 that lowers its minimum. */
  ghost predicate Lowers(s: Sys, step: Step)
    requires |s.mgrs| > 0 && s.mgrs[0].tMin.Some?
  {
    step.Send? && step.i == 0 && step.sendTime < s.mgrs[0].tMin.value
  }

  /** While the token circulates only such a send changes manager 0's minimum. */
  lemma MinimumKept(s: Sys, step: Step)
    requires CycleInv(s) && Enabled(s, step) && s.tokens != [] && !Lowers(s, step)
    ensures Apply(s, step).mgrs[0].tMin == s.mgrs[0].tMin
  {
    if step.Start? { StartWhilePending(s); }
  }

  lemma MinimumLowered(s: Sys, step: Step)
    requires CycleInv(s) && Enabled(s, step) && s.tokens != [] && Lowers(s, step)
    ensures var (s', t) := (Apply(s, step), step.sendTime);
            s'.mgrs[0].color.Red? && s'.mgrs[0].tMin == Some(t) && s'.clocks[0] <= t <= s'.infinity
  {
  }

  lemma TokenAppears(s: Sys, step: Step)
    requires CycleInv(s) && Enabled(s, step) && s.tokens == [] && Apply(s, step).tokens != []
    ensures Apply(s, step).mgrs[0].tMin == Some(s.infinity) && Apply(s, step).infinity == s.infinity
  {
  }

  /** If manager 0's minimum is below infinity, the state with one more message at that minimum is also one
      of a disciplined execution. */
  ghost predicate HasShadow(s: Sys) {
    && s.mgrs != [] && s.mgrs[0].tMin.Some?
    && (s.mgrs[0].tMin.value != s.infinity ==> exists p: nat :: p <= |s.msgs| && Reachable(Shadow(s, p)))
  }

  lemma ShadowGoesOn(s: Sys, step: Step)
    requires WellFormed(s) && Enabled(s, step) && DisciplinedStep(s, step) && s.mgrs[0].pending
    requires HasShadow(s) && Apply(s, step).mgrs[0].tMin == s.mgrs[0].tMin
    ensures HasShadow(Apply(s, step))
  {
    var s' := Apply(s, step);
    if s.mgrs[0].tMin.value != s.infinity {
      var p: nat :| p <= |s.msgs| && Reachable(Shadow(s, p));
      ShadowStep(s, step, p);
      ShadowDisciplined(s, step, p);
      ReachableStep(Shadow(s, p), Shifted(step, p), Shadow(s', Position(step, p)));
    }
  }

  lemma ShadowAppears(s: Sys, step: Step)
    requires CycleInv(s) && Enabled(s, step) && s.tokens != [] && Lowers(s, step) && Reachable(Apply(s, step))
    ensures HasShadow(Apply(s, step))
  {
    var s', t := Apply(s, step), step.sendTime;
    MinimumLowered(s, step);
    StepKeepsWellFormed(s, step);
    SentAgain(s', t);
    ReachableStep(s', Send(0, 1, t, t), Shadow(s', |s'.msgs|));
  }

  lemma NextShadow(s: Sys, step: Step)
    requires CycleInv(s) && Enabled(s, step) && DisciplinedStep(s, step) && Reachable(Apply(s, step))
    requires Apply(s, step).tokens != [] && (s.tokens != [] ==> HasShadow(s))
    ensures HasShadow(Apply(s, step))
  {
    if s.tokens == [] {
      TokenAppears(s, step);
    } else if Lowers(s, step) {
      ShadowAppears(s, step);
    } else {
      MinimumKept(s, step);
      ShadowGoesOn(s, step);
    }
  }

  /** So it is in every disciplined execution while the token circulates. */
  lemma {:induction false} RootShadow(ss: seq<Sys>, steps: seq<Step>, k: nat)
    requires Execution(ss, steps) && Disciplined(ss, steps) && k < |ss| && ss[k].tokens != []
    ensures HasShadow(ss[k])
  {
    if k > 0 {
      CycleInvAlways(ss, steps, k - 1);
      PrefixReachable(ss, steps, k);
      if ss[k - 1].tokens != [] { RootShadow(ss, steps, k - 1); }
      NextShadow(ss[k - 1], steps[k - 1]);
    }
  }

  // ----- the weakest test -----

  /** The token is back at manager 0 and its test succeeds. */
  ghost predicate Closing(s: Sys) {
    s.mgrs != [] && s.tokens != [] && s.tokens[0].dest == 0 && Finishes(s.mgrs[0], s.tokens[0])
  }

  /** All that managers and token hold is the same; only the messages in flight may differ. */
  ghost predicate LooksAlike(s: Sys, s': Sys) {
    s'.mgrs == s.mgrs && s'.clocks == s.clocks && s'.tokens == s.tokens
  }

  lemma DisagreementIsUnsafe(s: Sys) returns (s': Sys)
    requires Reachable(s) && Closing(s) && WellFormed(s) && !RootAgrees(s, s.tokens[0])
    ensures Reachable(s') && LooksAlike(s, s') && !LowerBound(s', NewGvt(s.tokens[0]))
  {
    ReachableInv(s);
    if s.clocks[0] < NewGvt(s.tokens[0]) {
      s' := s;
    } else {
      var ss: seq<Sys>, steps: seq<Step> :| Execution(ss, steps) && Disciplined(ss, steps) && ss[|steps|] == s;
      RootShadow(ss, steps, |steps|);
      var p: nat :| p <= |s.msgs| && Reachable(Shadow(s, p));
      s' := Shadow(s, p);
      assert s'.msgs[p] == RootMessage(s);
    }
  }

  /** EXACT SAFETY. The local check of manager 0 is the weakest safe one: at the closing test of a disciplined
      execution it succeeds if and only if the value is a lower bound in the last state of every disciplined
      execution in which managers, clocks and token are the same. */
  lemma RootAgreesIsWeakest(s: Sys)
    requires Reachable(s) && Closing(s)
    ensures WellFormed(s)
    ensures RootAgrees(s, s.tokens[0]) <==>
              forall s' :: Reachable(s') && LooksAlike(s, s') ==> LowerBound(s', NewGvt(s.tokens[0]))
  {
    ReachableInv(s);
    if RootAgrees(s, s.tokens[0]) {
      forall s' | Reachable(s') && LooksAlike(s, s') ensures LowerBound(s', NewGvt(s.tokens[0])) {
        ReachableInv(s');
        RootAgreesIsSafe(s');
      }
    } else {
      var s' := DisagreementIsUnsafe(s);
    }
  }
}
