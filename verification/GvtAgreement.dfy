module GvtAgreement {
  // What a cycle achieves: its value is at least every lower bound that held when it began, and once the
  // updates have arrived every manager holds it. With the safety theorem the value lies between what
  // bounded the simulation at the start of the cycle and what bounds it at the end.

  import opened Wrappers
  import opened GvtLocal
  import opened GvtProtocol

  // ----- every manager takes the value -----

  /** The receiver of an update holds the value in it, and nobody else's value changes. */
  lemma UpdateTaken(s: Sys, k: nat)
    requires WellFormed(s) && k < |s.updates|
    ensures var (s', u) := (Apply(s, TakeUpdate(k)), s.updates[k]);
            && |s'.mgrs| == |s.mgrs| && s'.mgrs[u.dest].gvt == u.gvt
            && forall i :: 0 <= i < |s.mgrs| && i != u.dest ==> s'.mgrs[i].gvt == s.mgrs[i].gvt
  {
  }

  /** A manager that does not hold manager 0's value has an update under way. */
  ghost predicate Informed(s: Sys) {
    forall i :: 0 <= i < |s.mgrs| && s.mgrs[i].gvt != s.mgrs[0].gvt ==> UpdateFor(s, i)
  }

  lemma UpdateKeepsInformed(s: Sys, k: nat)
    requires WellFormed(s) && Published(s) && k < |s.updates| && Informed(s)
    ensures Informed(Apply(s, TakeUpdate(k)))
  {
    var s' := Apply(s, TakeUpdate(k));
    UpdateTaken(s, k);
    forall i | 0 <= i < |s'.mgrs| && s'.mgrs[i].gvt != s'.mgrs[0].gvt ensures UpdateFor(s', i) {
      assert UpdateFor(s, i);
      var j :| 0 <= j < |s.updates| && s.updates[j].dest == i;
      assert s'.updates[if j < k then j else j - 1] == s.updates[j];
    }
  }

  lemma FinishInforms(s: Sys, step: Step)
    requires WellFormed(s) && Enabled(s, step) && FinishStep(s, step)
    ensures Informed(Apply(s, step))
  {
    var s' := Apply(s, step);
    forall i | 0 <= i < |s'.mgrs| && s'.mgrs[i].gvt != s'.mgrs[0].gvt ensures UpdateFor(s', i) {
      assert s'.updates[|s.updates| + i - 1].dest == i;
    }
  }

  /** All other steps leave the values and the updates alone. */
  lemma OthersKeepValues(s: Sys, step: Step)
    requires WellFormed(s) && Enabled(s, step) && !FinishStep(s, step) && !step.TakeUpdate?
    ensures var s' := Apply(s, step);
            && |s'.mgrs| == |s.mgrs| && s'.updates == s.updates
            && forall i :: 0 <= i < |s.mgrs| ==> s'.mgrs[i].gvt == s.mgrs[i].gvt
  {
    if step.TakeToken? { assert s.updates + [] == s.updates; }
  }

  lemma StepKeepsInformed(s: Sys, step: Step)
    requires WellFormed(s) && Published(s) && Enabled(s, step) && Informed(s)
    ensures Informed(Apply(s, step))
  {
    if step.TakeUpdate? {
      UpdateKeepsInformed(s, step.k);
    } else if FinishStep(s, step) {
      FinishInforms(s, step);
    } else {
      OthersKeepValues(s, step);
      forall i | 0 <= i < |s.mgrs| && s.mgrs[i].gvt != s.mgrs[0].gvt ensures UpdateFor(Apply(s, step), i) {
        assert UpdateFor(s, i);
      }
    }
  }

  lemma {:induction false} InformedAlways(ss: seq<Sys>, steps: seq<Step>, k: nat)
    requires Execution(ss, steps) && Disciplined(ss, steps) && k < |ss|
    ensures Informed(ss[k])
  {
    if k > 0 {
      InformedAlways(ss, steps, k - 1);
      CycleInvAlways(ss, steps, k - 1);
      StepKeepsInformed(ss[k - 1], steps[k - 1]);
    }
  }

  /** AGREEMENT. In every disciplined execution, whenever no update is under way, and so throughout every
      cycle, all managers hold manager 0's value. */
  lemma GvtAgreed(ss: seq<Sys>, steps: seq<Step>, k: nat, i: nat)
    requires Execution(ss, steps) && Disciplined(ss, steps) && k < |ss| && i < |ss[k].mgrs|
    requires ss[k].updates == [] || ss[k].tokens != []
    ensures ss[k].mgrs[i].gvt == ss[k].mgrs[0].gvt
  {
    InformedAlways(ss, steps, k);
    CycleInvAlways(ss, steps, k);
    assert !UpdateFor(ss[k], i);
  }

  // ----- the value catches up -----

  /** Nothing the token or a red manager has recorded lies below `v`. */
  ghost predicate AtLeast(s: Sys, v: VTime) {
    && LowerBound(s, v) && v <= s.infinity && s.tokens != [] && v <= s.tokens[0].mClock && v <= s.tokens[0].mSend
    && forall i :: 0 <= i < |s.mgrs| && s.mgrs[i].color.Red? ==> s.mgrs[i].tMin.Some? && v <= s.mgrs[i].tMin.value
  }

  lemma StartIsAtLeast(s: Sys, v: VTime)
    requires CycleInv(s) && CleanStart(s) && s.tokens == [] && LowerBound(s, v) && v <= s.infinity
    ensures AtLeast(Apply(s, Start), v)
  {
    forall i | 0 <= i < |s.mgrs| ensures s.mgrs[i].color.White? { assert !UpdateFor(s, i); }
  }

  lemma EventKeepsAtLeast(s: Sys, step: Step, v: VTime)
    requires WellFormed(s) && Enabled(s, step) && (step.Send? || step.Receive? || step.Advance?) && AtLeast(s, v)
    ensures AtLeast(Apply(s, step), v)
  {
    StepKeepsLowerBound(s, step, v);
  }

  lemma TokenKeepsAtLeast(s: Sys, step: Step, v: VTime)
    requires Conserved(s) && Enabled(s, step) && step.TakeToken? && !FinishStep(s, step) && AtLeast(s, v)
    requires s.mgrs[0].color.Red?
    ensures AtLeast(Apply(s, step), v)
  {
    StepKeepsLowerBound(s, step, v);
    assert Without(s.tokens, step.k) == [];
  }

  lemma StepKeepsAtLeast(s: Sys, step: Step, v: VTime)
    requires CycleInv(s) && Enabled(s, step) && !FinishStep(s, step) && AtLeast(s, v)
    ensures AtLeast(Apply(s, step), v)
  {
    match step
    case Send(_, _, _, _) => EventKeepsAtLeast(s, step, v);
    case Receive(_) => EventKeepsAtLeast(s, step, v);
    case Advance(_, _) => EventKeepsAtLeast(s, step, v);
    case TakeToken(_) => TokenKeepsAtLeast(s, step, v);
    case Start => StartWhilePending(s);
    case TakeUpdate(_) =>
  }

  /** A cycle begins at step `j`. */
  ghost predicate Begins(s: Sys, step: Step) {
    s.mgrs != [] && step.Start? && !s.mgrs[0].pending
  }

  lemma BeginsAtLeast(ss: seq<Sys>, steps: seq<Step>, j: nat, v: VTime)
    requires Execution(ss, steps) && Disciplined(ss, steps) && j < |steps| && Begins(ss[j], steps[j])
    requires LowerBound(ss[j], v) && v <= ss[j].infinity
    ensures AtLeast(ss[j + 1], v)
  {
    CycleInvAlways(ss, steps, j);
    StartIsAtLeast(ss[j], v);
  }

  lemma GoesOnAtLeast(ss: seq<Sys>, steps: seq<Step>, k: nat, v: VTime)
    requires Execution(ss, steps) && Disciplined(ss, steps) && k < |steps| && AtLeast(ss[k], v)
    requires ss[k + 1].tokens != []
    ensures AtLeast(ss[k + 1], v)
  {
    CycleInvAlways(ss, steps, k);
    NoFinishWithToken(ss[k], steps[k]);
    StepKeepsAtLeast(ss[k], steps[k], v);
  }

  lemma {:induction false} StaysAtLeast(ss: seq<Sys>, steps: seq<Step>, j: nat, k: nat, v: VTime)
    requires Execution(ss, steps) && Disciplined(ss, steps) && j < k < |ss| && Begins(ss[j], steps[j])
    requires forall i :: j < i <= k ==> ss[i].tokens != []
    requires LowerBound(ss[j], v) && v <= ss[j].infinity
    ensures AtLeast(ss[k], v)
    decreases k
  {
    if k == j + 1 {
      BeginsAtLeast(ss, steps, j, v);
    } else {
      StaysAtLeast(ss, steps, j, k - 1, v);
      GoesOnAtLeast(ss, steps, k - 1, v);
    }
  }

  lemma NoFinishWithToken(s: Sys, step: Step)
    requires Conserved(s) && Enabled(s, step) && Apply(s, step).tokens != []
    ensures !FinishStep(s, step)
  {
    if step.TakeToken? { assert Without(s.tokens, step.k) == []; }
  }

  /** CATCHES UP. In every disciplined execution: the value a cycle ends with is at least every value that was
      below all clocks and messages in flight when the cycle began. */
  lemma GvtCatchesUp(ss: seq<Sys>, steps: seq<Step>, j: nat, k: nat, v: VTime)
    requires Execution(ss, steps) && Disciplined(ss, steps) && j < k < |steps| && Begins(ss[j], steps[j])
    requires forall i :: j < i <= k ==> ss[i].tokens != []
    requires LowerBound(ss[j], v) && v <= ss[j].infinity
    requires WellFormed(ss[k]) && Enabled(ss[k], steps[k]) && FinishStep(ss[k], steps[k])
    ensures ss[k + 1].mgrs != [] && v <= ss[k + 1].mgrs[0].gvt
  {
    StaysAtLeast(ss, steps, j, k, v);
    CycleInvAlways(ss, steps, k);
  }
}
