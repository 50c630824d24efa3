module GvtProgress {
  // A cycle ends one round after the last white message has arrived: if no white message is in flight when
  // manager 0 sends the token round once more, its test succeeds as soon as the token is back.

  import opened Wrappers
  import opened GvtLocal
  import opened GvtProtocol

  /** No white message in flight, none to come in this cycle, and none received since the token left
      manager 0. */
  ghost predicate Quiet(s: Sys) {
    && s.mgrs != [] && s.tokens != [] && s.tokens[0].dest < |s.mgrs|
    && s.mgrs[0].iteration > 1 && Unspoiled(s, 0)
    && (forall i :: 0 <= i < |s.mgrs| ==> s.mgrs[i].color.Red?)
    && (forall k :: 0 <= k < |s.msgs| ==> s.msgs[k].color.Red?)
  }

  lemma {:induction false} AllRed(msgs: seq<Msg>)
    requires forall k :: 0 <= k < |msgs| ==> msgs[k].color.Red?
    ensures WhiteInFlight(msgs) == 0
  {
    if msgs != [] { AllRed(msgs[..|msgs| - 1]); }
  }

  /** When the token is back at manager 0 the counts cancel. */
  lemma QuietFinishes(s: Sys)
    requires Conserved(s) && Quiet(s) && s.tokens[0].dest == 0
    ensures Finishes(s.mgrs[0], s.tokens[0]) && s.mgrs[0].white == 0
  {
    AllRed(s.msgs);
    WhiteSumOfInitial(s.mgrs);
    assert s.tokens == [s.tokens[0]];
    TokenSumOne(s.tokens[0]);
  }

  /** Manager 0 sends the token round again, with no white message in flight. */
  ghost predicate RoundBegins(s: Sys, step: Step) {
    && WellFormed(s) && Enabled(s, step) && step.TakeToken? && s.tokens[step.k].dest == 0 && !FinishStep(s, step)
    && forall k :: 0 <= k < |s.msgs| ==> s.msgs[k].color.Red?
  }

  lemma BecomesQuiet(s: Sys, step: Step)
    requires CycleInv(s) && RoundBegins(s, step)
    ensures var s' := Apply(s, step);
            Quiet(s') && s'.tokens[0].dest == 1 && |s'.mgrs| == |s.mgrs|
  {
    assert Without(s.tokens, step.k) == [];
  }

  /** Where the token is after a step. */
  ghost function Moved(s: Sys, step: Step): nat
    requires s.tokens != [] && s.tokens[0].dest < |s.mgrs|
  {
    if step.TakeToken? then RingSuccessor(s.tokens[0].dest, |s.mgrs|) else s.tokens[0].dest
  }

  lemma EventKeepsQuiet(s: Sys, step: Step)
    requires Conserved(s) && Quiet(s) && Enabled(s, step) && (step.Send? || step.Receive? || step.Advance?)
    ensures var s' := Apply(s, step);
            Quiet(s') && |s'.mgrs| == |s.mgrs| && s'.tokens[0].dest == Moved(s, step)
  {
  }

  lemma ForwardKeepsQuiet(s: Sys, step: Step)
    requires Conserved(s) && Quiet(s) && Enabled(s, step) && step.TakeToken? && s.tokens[0].dest != 0
    ensures var s' := Apply(s, step);
            Quiet(s') && |s'.mgrs| == |s.mgrs| && s'.tokens[0].dest == Moved(s, step)
  {
    assert Without(s.tokens, step.k) == [];
  }

  lemma StepKeepsQuiet(s: Sys, step: Step)
    requires CycleInv(s) && Quiet(s) && Enabled(s, step) && (step.TakeToken? ==> s.tokens[0].dest != 0)
    ensures var s' := Apply(s, step);
            Quiet(s') && |s'.mgrs| == |s.mgrs| && s'.tokens[0].dest == Moved(s, step)
  {
    match step
    case Send(_, _, _, _) => EventKeepsQuiet(s, step);
    case Receive(_) => EventKeepsQuiet(s, step);
    case Advance(_, _) => EventKeepsQuiet(s, step);
    case TakeToken(_) => ForwardKeepsQuiet(s, step);
    case Start => StartWhilePending(s);
    case TakeUpdate(_) =>
  }

  // ----- executions -----

  /** Quiet among `n` managers, after `h` of them have passed the token on since manager 0 did. */
  ghost predicate OnRound(s: Sys, n: nat, h: nat) {
    Quiet(s) && |s.mgrs| == n > 1 && s.tokens[0].dest == if h + 1 == n then 0 else h + 1
  }

  lemma QuietBegins(ss: seq<Sys>, steps: seq<Step>, j: nat)
    requires Execution(ss, steps) && Disciplined(ss, steps) && j < |steps| && RoundBegins(ss[j], steps[j])
    ensures OnRound(ss[j + 1], |ss[j].mgrs|, 0)
  {
    CycleInvAlways(ss, steps, j);
    BecomesQuiet(ss[j], steps[j]);
  }

  lemma QuietGoesOn(ss: seq<Sys>, steps: seq<Step>, k: nat, n: nat, h: nat)
    requires Execution(ss, steps) && Disciplined(ss, steps) && k < |steps| && OnRound(ss[k], n, h)
    requires h + (if steps[k].TakeToken? then 1 else 0) < n
    ensures OnRound(ss[k + 1], n, h + if steps[k].TakeToken? then 1 else 0)
  {
    CycleInvAlways(ss, steps, k);
    StepKeepsQuiet(ss[k], steps[k]);
  }

  /** How often the token is taken. */
  ghost function Hops(steps: seq<Step>): nat {
    if steps == [] then 0 else Hops(steps[..|steps| - 1]) + if steps[|steps| - 1].TakeToken? then 1 else 0
  }

  lemma HopsMore(steps: seq<Step>, j: nat, k: nat)
    requires j < k < |steps|
    ensures Hops(steps[j + 1..k + 1]) == Hops(steps[j + 1..k]) + if steps[k].TakeToken? then 1 else 0
  {
    assert steps[j + 1..k + 1][..k - j - 1] == steps[j + 1..k];
  }

  lemma {:induction false} StaysQuiet(ss: seq<Sys>, steps: seq<Step>, j: nat, k: nat)
    requires Execution(ss, steps) && Disciplined(ss, steps) && j < k <= |steps| && RoundBegins(ss[j], steps[j])
    requires Hops(steps[j + 1..k]) < |ss[j].mgrs|
    ensures OnRound(ss[k], |ss[j].mgrs|, Hops(steps[j + 1..k]))
    decreases k
  {
    if k == j + 1 {
      assert steps[j + 1..k] == [];
      QuietBegins(ss, steps, j);
    } else {
      HopsMore(steps, j, k - 1);
      StaysQuiet(ss, steps, j, k - 1);
      QuietGoesOn(ss, steps, k - 1, |ss[j].mgrs|, Hops(steps[j + 1..k - 1]));
    }
  }

  /** PROGRESS. In every disciplined execution: if no white message is in flight when manager 0 forwards the
      token, then once the other managers have each taken it, it is back, the test succeeds, and the
      value may be published. */
  lemma OneMoreRound(ss: seq<Sys>, steps: seq<Step>, j: nat, k: nat)
    requires Execution(ss, steps) && Disciplined(ss, steps) && j < k <= |steps| && RoundBegins(ss[j], steps[j])
    requires Hops(steps[j + 1..k]) == |ss[j].mgrs| - 1
    ensures AtFinish(ss[k]) && SafeCut(ss[k], NewGvt(ss[k].tokens[0]))
  {
    StaysQuiet(ss, steps, j, k);
    CycleInvAlways(ss, steps, k);
    QuietFinishes(ss[k]);
    ZeroOwnCountAgrees(ss[k]);
    RootAgreesIsSafe(ss[k]);
  }
}
