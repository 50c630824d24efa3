/** Executions of two managers, step by step, for the executions that show which hypotheses are needed. */
module GvtTwoManagers {
  import opened Wrappers
  import opened GvtLocal
  import opened GvtProtocol

  /** What is wrong with the one start of an execution that is not clean. */
  datatype Flaw = NoFlaw | RedMessage | LateUpdate

  ghost predicate Flawed(s: Sys, f: Flaw) {
    match f
    case NoFlaw => false
    case RedMessage => s.updates == [] && exists k :: 0 <= k < |s.msgs| && s.msgs[k].color.Red?
    case LateUpdate => s.updates != [] && forall k :: 0 <= k < |s.msgs| ==> s.msgs[k].color.White?
  }

  /** A disciplined execution, but for step `j` if there is a flaw: that is a start with the flaw. */
  ghost predicate OneFlaw(ss: seq<Sys>, steps: seq<Step>, j: int, f: Flaw) {
    && Execution(ss, steps)
    && (f == NoFlaw ==> j == -1)
    && (f != NoFlaw ==> 0 <= j < |steps| && steps[j].Start? && Flawed(ss[j], f))
    && forall k {:trigger steps[k]} :: 0 <= k < |steps| && k != j && WellFormed(ss[k]) ==>
         DisciplinedStep(ss[k], steps[k])
  }

  /** `s` is the last state of such an execution. */
  ghost predicate Reached(s: Sys, f: Flaw) {
    exists ss: seq<Sys>, steps: seq<Step>, j: int :: OneFlaw(ss, steps, j, f) && ss[|steps|] == s
  }

  /** The closing test succeeds and the value published is not a lower bound. */
  ghost predicate Overshoots(s: Sys) {
    && WellFormed(s) && Enabled(s, TakeToken(0)) && FinishStep(s, TakeToken(0))
    && !LowerBound(Apply(s, TakeToken(0)), Apply(s, TakeToken(0)).mgrs[0].gvt)
  }

  lemma LeadsOn(s: Sys, step: Step, s': Sys, f: Flaw)
    requires Reached(s, f) && Leads(s, step, s')
    ensures Reached(s', f)
  {
    var ss: seq<Sys>, steps: seq<Step>, j: int :| OneFlaw(ss, steps, j, f) && ss[|steps|] == s;
    ExtendExecution(ss, steps, step, s');
    assert OneFlaw(ss + [s'], steps + [step], j, f);
    assert (ss + [s'])[|steps + [step]|] == s';
  }

  lemma FlawedStart(s: Sys, f: Flaw)
    requires Reached(s, NoFlaw) && WellFormed(s) && Flawed(s, f)
    ensures Reached(Apply(s, Start), f)
  {
    var ss: seq<Sys>, steps: seq<Step>, j: int :| OneFlaw(ss, steps, j, NoFlaw) && ss[|steps|] == s;
    ExtendExecution(ss, steps, Start, Apply(s, Start));
    assert OneFlaw(ss + [Apply(s, Start)], steps + [Start], |steps|, f);
    assert (ss + [Apply(s, Start)])[|steps + [Start]|] == Apply(s, Start);
  }

  /** A manager at rest, manager 0 after the start of its first cycle, and manager 1 after the token came. */
  ghost const IDLE := InitialLocal(0)
  ghost const ROOT := Local(Red, 0, Some(1000), 1, true, 0)
  ghost const OTHER := Local(Red, 0, Some(1000), 1, false, 0)

  // ----- the steps of two managers, written out -----

  /** Two managers with at most one message of each kind. */
  ghost predicate Two(s: Sys) {
    && |s.mgrs| == |s.clocks| == 2 && CanSend(s.mgrs[0]) && CanSend(s.mgrs[1])
    && |s.msgs| <= 1 && (s.msgs != [] ==> s.msgs[0].src < 2 && s.msgs[0].dest < 2)
    && |s.tokens| <= 1 && (s.tokens != [] ==> s.tokens[0].dest < 2 && s.mgrs[0].tMin.Some?)
    && |s.updates| <= 1 && (s.updates != [] ==> s.updates[0].dest < 2)
  }

  lemma TwoWellFormed(s: Sys)
    requires Two(s)
    ensures WellFormed(s)
  {
  }

  /** Manager `i` gets the record `l`. */
  ghost function With(s: Sys, i: nat, l: Local): seq<Local>
    requires |s.mgrs| == 2
  {
    if i == 0 then [l, s.mgrs[1]] else [s.mgrs[0], l]
  }

  ghost function Clocks(s: Sys, i: nat, t: VTime): seq<VTime>
    requires |s.clocks| == 2
  {
    if i == 0 then [t, s.clocks[1]] else [s.clocks[0], t]
  }

  /** Two managers at rest. */
  lemma AtRest(s: Sys)
    requires Initial(s)
    ensures Reached(s, NoFlaw)
  {
    assert OneFlaw([s], [], -1, NoFlaw) && [s][0] == s;
  }

  ghost function Sent(s: Sys, i: nat, t: VTime): Sys
    requires Two(s) && i < 2
  {
    s.(mgrs := With(s, i, AfterSend(s.mgrs[i], t)), msgs := [Msg(i, 1 - i, s.mgrs[i].color, t, t)])
  }

  ghost function Received(s: Sys): Sys
    requires Two(s) && s.msgs != []
  {
    var m := s.msgs[0];
    s.(mgrs := With(s, m.dest, AfterReceive(s.mgrs[m.dest], m.color)),
       clocks := Clocks(s, m.dest, Min(s.clocks[m.dest], m.recvTime)), msgs := [])
  }

  ghost function Updated(s: Sys): Sys
    requires Two(s) && s.updates != []
  {
    var u := s.updates[0];
    s.(mgrs := With(s, u.dest, AfterUpdate(s.mgrs[u.dest], u.gvt)), updates := [])
  }

  ghost function Started(s: Sys): Sys
    requires Two(s)
  {
    var o := AfterStart(s.mgrs[0], 2, s.clocks[0], s.infinity);
    s.(mgrs := With(s, 0, o.local), tokens := o.tokens)
  }

  ghost predicate Closes(s: Sys)
    requires Two(s) && s.tokens != []
  {
    s.tokens[0].dest == 0 && Finishes(s.mgrs[0], s.tokens[0])
  }

  /** The token has gone on. */
  ghost function Forwarded(s: Sys): Sys
    requires Two(s) && s.tokens != []
  {
    var tok := s.tokens[0];
    var l := if tok.dest == 0 then s.mgrs[0] else TurnRed(s.mgrs[1], s.infinity);
    var o := Forward(l, tok.dest, 2, tok, s.clocks[tok.dest]);
    s.(mgrs := With(s, tok.dest, o.local), tokens := o.tokens)
  }

  /** The token has ended the cycle. */
  ghost function Closed(s: Sys): Sys
    requires Two(s) && s.tokens != []
  {
    var g := NewGvt(s.tokens[0]);
    s.(mgrs := With(s, 0, s.mgrs[0].(gvt := g, iteration := 0, white := 0, color := White, pending := false)),
       tokens := [], updates := [Update(1, g)])
  }

  /** A disciplined step other than a start, written out for two managers. */
  ghost predicate Goes(s: Sys, step: Step, s': Sys) {
    && Two(s)
    && match step
       case Send(i, d, t, r) =>
         i < 2 && d == 1 - i && r == t && s.msgs == [] && s.clocks[i] <= t <= s.infinity && s' == Sent(s, i, t)
       case Receive(k) => k == 0 && s.msgs != [] && s' == Received(s)
       case Advance(i, t) => i < 2 && s.clocks[i] <= t <= s.infinity && s' == s.(clocks := Clocks(s, i, t))
       case TakeUpdate(k) => k == 0 && s.updates != [] && s' == Updated(s)
       case TakeToken(k) =>
         && k == 0 && s.tokens != []
         && (if Closes(s) then s.mgrs[0].white == 0 && s.updates == [] && s' == Closed(s) else s' == Forwarded(s))
       case Start => false
  }

  lemma TokenGoes(s: Sys)
    requires Two(s) && s.tokens != [] && (Closes(s) ==> s.updates == [])
    ensures WellFormed(s) && Apply(s, TakeToken(0)) == (if Closes(s) then Closed(s) else Forwarded(s))
  {
    TwoWellFormed(s);
    assert Without(s.tokens, 0) == [];
    var tok := s.tokens[0];
    var o := AfterToken(s.mgrs[tok.dest], tok.dest, 2, tok, s.clocks[tok.dest], s.infinity);
    assert [] + o.tokens == o.tokens;
    if Closes(s) {
      assert o.updates == [Update(1, NewGvt(tok))];
    } else {
      assert s.updates + o.updates == s.updates;
    }
  }

  lemma SendGoes(s: Sys, i: nat, t: VTime)
    requires Two(s) && i < 2 && s.msgs == [] && s.clocks[i] <= t <= s.infinity
    ensures Leads(s, Send(i, 1 - i, t, t), Sent(s, i, t))
  {
    TwoWellFormed(s);
  }

  lemma ReceiveGoes(s: Sys)
    requires Two(s) && s.msgs != []
    ensures Leads(s, Receive(0), Received(s))
  {
    TwoWellFormed(s);
    assert Without(s.msgs, 0) == [];
  }

  lemma AdvanceGoes(s: Sys, i: nat, t: VTime)
    requires Two(s) && i < 2 && s.clocks[i] <= t <= s.infinity
    ensures Leads(s, Advance(i, t), s.(clocks := Clocks(s, i, t)))
  {
    TwoWellFormed(s);
  }

  lemma UpdateGoes(s: Sys)
    requires Two(s) && s.updates != []
    ensures Leads(s, TakeUpdate(0), Updated(s))
  {
    TwoWellFormed(s);
    assert Without(s.updates, 0) == [];
  }

  lemma GoesLeads(s: Sys, step: Step, s': Sys)
    requires Goes(s, step, s')
    ensures Leads(s, step, s')
  {
    match step
    case Send(i, _, t, _) => SendGoes(s, i, t);
    case Receive(_) => ReceiveGoes(s);
    case Advance(i, t) => AdvanceGoes(s, i, t);
    case TakeUpdate(_) => UpdateGoes(s);
    case TakeToken(_) => TokenGoes(s);
  }

  lemma GoOn(s: Sys, step: Step, s': Sys, f: Flaw)
    requires Reached(s, f) && Goes(s, step, s')
    ensures Reached(s', f)
  {
    GoesLeads(s, step, s');
    LeadsOn(s, step, s', f);
  }

  /** The start of a cycle, clean or with the flaw. */
  lemma Begins(s: Sys, f: Flaw)
    requires Reached(s, NoFlaw) && Two(s) && s.tokens == [] && (if f == NoFlaw then CleanStart(s) else Flawed(s, f))
    ensures Reached(Started(s), f)
  {
    TwoWellFormed(s);
    assert Apply(s, Start) == Started(s);
    if f == NoFlaw { LeadsOn(s, Start, Started(s), f); } else { FlawedStart(s, f); }
  }

  lemma GoOnTwice(s: Sys, step: Step, s': Sys, step': Step, s'': Sys, f: Flaw)
    requires Reached(s, f) && Goes(s, step, s') && Goes(s', step', s'')
    ensures Reached(s'', f)
  {
    GoOn(s, step, s', f);
    GoOn(s', step', s'', f);
  }
}
