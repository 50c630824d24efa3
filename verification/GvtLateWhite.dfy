module GvtLateWhite {
  // Why the initiator's own white count matters: a two-manager run in which the code's test for the end of
  // a cycle succeeds and the value it publishes is above a local clock.

  import opened GvtLocal
  import opened GvtProtocol
  import opened GvtTwoManagers

  /** Manager 1 sends a white message and moves on, a cycle starts clean, and the message reaches manager 0
      after the token left manager 0 for its second round. */
  ghost const LETTER := Msg(1, 0, White, 5, 5)
  ghost const LATE0 := Sys(1000, [IDLE, IDLE], [100, 5], [], [], [])
  ghost const LATE1 := Sys(1000, [IDLE, IDLE.(white := 1)], [100, 5], [LETTER], [], [])
  ghost const LATE2 := Sys(1000, [IDLE, IDLE.(white := 1)], [100, 100], [LETTER], [], [])
  ghost const LATE3 := Sys(1000, [ROOT, IDLE.(white := 1)], [100, 100], [LETTER], [Token(1, 100, 1000, 0)], [])
  ghost const LATE4 := Sys(1000, [ROOT, OTHER], [100, 100], [LETTER], [Token(0, 100, 1000, 1)], [])
  ghost const LATE5 :=
    Sys(1000, [ROOT.(iteration := 2), OTHER], [100, 100], [LETTER], [Token(1, 100, 1000, 1)], [])
  ghost const LATE6 :=
    Sys(1000, [ROOT.(iteration := 2, white := -1), OTHER], [5, 100], [], [Token(1, 100, 1000, 1)], [])
  ghost const LATE7 :=
    Sys(1000, [ROOT.(iteration := 2, white := -1), OTHER.(iteration := 2)], [5, 100], [], [Token(0, 100, 1000, 1)], [])

  lemma LetterSent1()
    ensures Goes(LATE0, Send(1, 0, 5, 5), LATE1)
  {
  }

  lemma LetterSent2()
    ensures Goes(LATE1, Advance(1, 100), LATE2)
  {
  }

  lemma TokenGoesRound1()
    ensures Goes(LATE3, TakeToken(0), LATE4)
  {
  }

  lemma TokenGoesRound2()
    ensures Goes(LATE4, TakeToken(0), LATE5)
  {
  }

  lemma LetterArrives1()
    ensures Goes(LATE5, Receive(0), LATE6)
  {
  }

  lemma LetterArrives2()
    ensures Goes(LATE6, TakeToken(0), LATE7)
  {
  }

  lemma LateReached()
    ensures Reached(LATE7, NoFlaw)
  {
    AtRest(LATE0);
    LetterSent1();
    LetterSent2();
    GoOnTwice(LATE0, Send(1, 0, 5, 5), LATE1, Advance(1, 100), LATE2, NoFlaw);
    Begins(LATE2, NoFlaw);
    assert Started(LATE2) == LATE3;
    TokenGoesRound1();
    TokenGoesRound2();
    GoOnTwice(LATE3, TakeToken(0), LATE4, TakeToken(0), LATE5, NoFlaw);
    LetterArrives1();
    LetterArrives2();
    GoOnTwice(LATE5, Receive(0), LATE6, TakeToken(0), LATE7, NoFlaw);
  }

  lemma LateOvershoots()
    ensures Overshoots(LATE7)
  {
    TwoWellFormed(LATE7);
    var s' := Apply(LATE7, TakeToken(0));
    assert s'.mgrs[0].gvt == 100 && s'.clocks[0] == 5;
  }

  /** Without the hypothesis on manager 0's own count the code publishes an unsafe value: the counts
      cancel although manager 0 has been rolled back below the token's minimum. Every step before the
      last is disciplined. */
  lemma LateWhiteDefeatsTest()
    ensures Reached(LATE7, NoFlaw) && Overshoots(LATE7) && LATE7.mgrs[0].white == -1
  {
    LateReached();
    LateOvershoots();
  }
}
