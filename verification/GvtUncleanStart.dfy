module GvtUncleanStart {
  // Why a cycle must start clean: two executions of two managers in which only one start is not, one with a
  // red message of the previous cycle in flight and one with an update of it under way, and in which the
  // value published at the end of the cycle is above a message in flight.

  import opened Wrappers
  import opened GvtLocal
  import opened GvtProtocol
  import opened GvtTwoManagers

  // ----- a cycle that ends before anything happens -----

  ghost const DONE := Local(White, 0, Some(1000), 0, false, 10)
  ghost const REST := Sys(1000, [IDLE, IDLE], [10, 10], [], [], [])
  ghost const TURN1 := Sys(1000, [ROOT, IDLE], [10, 10], [], [Token(1, 10, 1000, 0)], [])
  ghost const TURN2 := Sys(1000, [ROOT, OTHER], [10, 10], [], [Token(0, 10, 1000, 0)], [])
  ghost const TURN3 := Sys(1000, [ROOT.(iteration := 2), OTHER], [10, 10], [], [Token(1, 10, 1000, 0)], [])
  ghost const TURN4 :=
    Sys(1000, [ROOT.(iteration := 2), OTHER.(iteration := 2)], [10, 10], [], [Token(0, 10, 1000, 0)], [])
  ghost const CLOSED := Sys(1000, [DONE, OTHER.(iteration := 2)], [10, 10], [], [], [Update(1, 10)])

  lemma FirstRound1()
    ensures Goes(TURN1, TakeToken(0), TURN2)
  {
  }

  lemma FirstRound2()
    ensures Goes(TURN2, TakeToken(0), TURN3)
  {
  }

  lemma SecondRound1()
    ensures Goes(TURN3, TakeToken(0), TURN4)
  {
  }

  lemma SecondRound2()
    ensures Goes(TURN4, TakeToken(0), CLOSED)
  {
  }

  lemma RestStarts()
    ensures Two(REST) && Initial(REST) && CleanStart(REST) && Started(REST) == TURN1
  {
  }

  lemma FirstCycle()
    ensures Reached(CLOSED, NoFlaw)
  {
    RestStarts();
    AtRest(REST);
    Begins(REST, NoFlaw);
    FirstRound1();
    FirstRound2();
    GoOnTwice(TURN1, TakeToken(0), TURN2, TakeToken(0), TURN3, NoFlaw);
    SecondRound1();
    SecondRound2();
    GoOnTwice(TURN3, TakeToken(0), TURN4, TakeToken(0), CLOSED, NoFlaw);
  }

  // ----- an update under way -----

  ghost const LETTER := Msg(0, 1, White, 20, 20)
  ghost const REPLY := Msg(1, 0, Red, 20, 20)
  ghost const LATE := Update(1, 10)
  ghost const BEHIND := OTHER.(iteration := 2)
  ghost const LEADER := Local(Red, 0, Some(1000), 1, true, 10)
  ghost const OPEN1 := Sys(1000, [DONE.(white := 1), BEHIND], [10, 10], [LETTER], [], [LATE])
  ghost const OPEN2 := Sys(1000, [DONE.(white := 1), BEHIND], [100, 10], [LETTER], [], [LATE])
  ghost const OPEN3 := Sys(1000, [DONE.(white := 1), BEHIND], [100, 100], [LETTER], [], [LATE])

  lemma LetterSent1()
    ensures Goes(CLOSED, Send(0, 1, 20, 20), OPEN1)
  {
  }

  lemma LetterSent2()
    ensures Goes(OPEN1, Advance(0, 100), OPEN2)
  {
  }

  lemma LetterSent3()
    ensures Goes(OPEN2, Advance(1, 100), OPEN3)
  {
  }

  lemma OpenStarts()
    ensures Two(OPEN3) && Flawed(OPEN3, LateUpdate) && Started(OPEN3) == OPEN4
  {
  }

  lemma LetterUnderWay()
    ensures Reached(OPEN4, LateUpdate)
  {
    FirstCycle();
    LetterSent1();
    LetterSent2();
    LetterSent3();
    GoOnTwice(CLOSED, Send(0, 1, 20, 20), OPEN1, Advance(0, 100), OPEN2, NoFlaw);
    GoOn(OPEN2, Advance(1, 100), OPEN3, NoFlaw);
    OpenStarts();
    Begins(OPEN3, LateUpdate);
  }

  ghost const OPEN4 := Sys(1000, [LEADER, BEHIND], [100, 100], [LETTER], [Token(1, 100, 1000, 1)], [LATE])
  ghost const OPEN5 :=
    Sys(1000, [LEADER, BEHIND.(iteration := 3)], [100, 100], [LETTER], [Token(0, 100, 1000, 1)], [LATE])
  ghost const OPEN6 :=
    Sys(1000, [LEADER, BEHIND.(iteration := 3, white := -1)], [100, 20], [], [Token(0, 100, 1000, 1)], [LATE])
  ghost const OPEN7 :=
    Sys(1000, [LEADER, BEHIND.(iteration := 3, white := -1, tMin := Some(20))], [100, 20], [REPLY],
        [Token(0, 100, 1000, 1)], [LATE])

  /** Manager 1, still red, passes the token on, receives the letter and answers. */
  lemma Answers1()
    ensures Goes(OPEN4, TakeToken(0), OPEN5)
  {
  }

  lemma Answers2()
    ensures Goes(OPEN5, Receive(0), OPEN6)
  {
  }

  lemma Answers3()
    ensures Goes(OPEN6, Send(1, 0, 20, 20), OPEN7)
  {
  }

  ghost const OPEN8 := OPEN7.(clocks := [100, 100])
  ghost const OPEN9 :=
    Sys(1000, [LEADER, Local(White, -1, Some(20), 0, false, 10)], [100, 100], [REPLY], [Token(0, 100, 1000, 1)], [])
  ghost const OPEN10 :=
    Sys(1000, [LEADER.(iteration := 2), Local(White, -1, Some(20), 0, false, 10)], [100, 100], [REPLY],
        [Token(1, 100, 1000, 1)], [])
  ghost const OPEN11 :=
    Sys(1000, [LEADER.(iteration := 2), Local(Red, 0, Some(1000), 1, false, 10)], [100, 100], [REPLY],
        [Token(0, 100, 1000, 0)], [])

  /** The update makes manager 1 white, so the token resets the minimum that recorded the answer. */
  lemma Forgets1()
    ensures Goes(OPEN7, Advance(1, 100), OPEN8)
  {
  }

  lemma Forgets2()
    ensures Goes(OPEN8, TakeUpdate(0), OPEN9)
  {
  }

  lemma Forgets3()
    ensures Goes(OPEN9, TakeToken(0), OPEN10)
  {
  }

  lemma Forgets4()
    ensures Goes(OPEN10, TakeToken(0), OPEN11)
  {
  }

  lemma Forgotten()
    ensures Reached(OPEN11, LateUpdate)
  {
    LetterUnderWay();
    Answers1();
    Answers2();
    Answers3();
    GoOnTwice(OPEN4, TakeToken(0), OPEN5, Receive(0), OPEN6, LateUpdate);
    GoOn(OPEN6, Send(1, 0, 20, 20), OPEN7, LateUpdate);
    Forgets1();
    Forgets2();
    Forgets3();
    Forgets4();
    GoOnTwice(OPEN7, Advance(1, 100), OPEN8, TakeUpdate(0), OPEN9, LateUpdate);
    GoOnTwice(OPEN9, TakeToken(0), OPEN10, TakeToken(0), OPEN11, LateUpdate);
  }

  // ----- a red message in flight -----

  ghost const STRAY := Msg(0, 1, Red, 10, 10)
  ghost const SENDER := ROOT.(tMin := Some(10))
  ghost const STRAY1 := Sys(1000, [SENDER, IDLE], [10, 10], [STRAY], [Token(1, 10, 1000, 0)], [])
  ghost const STRAY2 := Sys(1000, [SENDER, OTHER], [10, 10], [STRAY], [Token(0, 10, 1000, 0)], [])
  ghost const STRAY3 := Sys(1000, [SENDER.(iteration := 2), OTHER], [10, 10], [STRAY], [Token(1, 10, 10, 0)], [])
  ghost const STRAY4 :=
    Sys(1000, [SENDER.(iteration := 2), BEHIND], [10, 10], [STRAY], [Token(0, 10, 10, 0)], [])
  ghost const STRAY5 := Sys(1000, [DONE.(tMin := Some(10)), BEHIND], [10, 10], [STRAY], [], [LATE])

  lemma StrayRounds1()
    ensures Goes(TURN1, Send(0, 1, 10, 10), STRAY1)
  {
  }

  lemma StrayRounds2()
    ensures Goes(STRAY1, TakeToken(0), STRAY2)
  {
  }

  lemma StrayRounds3()
    ensures Goes(STRAY2, TakeToken(0), STRAY3)
  {
  }

  lemma StrayRounds4()
    ensures Goes(STRAY3, TakeToken(0), STRAY4)
  {
  }

  lemma StrayEnds1()
    ensures Goes(STRAY4, TakeToken(0), STRAY5)
  {
  }

  lemma StrayEnds2()
    ensures Goes(STRAY5, TakeUpdate(0), STRAY6)
  {
  }

  lemma StrayEnds3()
    ensures Goes(STRAY6, Advance(0, 100), STRAY7)
  {
  }

  lemma StrayEnds4()
    ensures Goes(STRAY7, Advance(1, 100), STRAY8)
  {
  }

  ghost const STRAY6 := Sys(1000, [DONE.(tMin := Some(10)), DONE], [10, 10], [STRAY], [], [])
  ghost const STRAY7 := Sys(1000, [DONE.(tMin := Some(10)), DONE], [100, 10], [STRAY], [], [])
  ghost const STRAY8 := Sys(1000, [DONE.(tMin := Some(10)), DONE], [100, 100], [STRAY], [], [])

  lemma Drift()
    ensures Reached(STRAY8, NoFlaw)
  {
    RestStarts();
    AtRest(REST);
    Begins(REST, NoFlaw);
    StrayRounds1();
    StrayRounds2();
    StrayRounds3();
    StrayRounds4();
    GoOnTwice(TURN1, Send(0, 1, 10, 10), STRAY1, TakeToken(0), STRAY2, NoFlaw);
    GoOnTwice(STRAY2, TakeToken(0), STRAY3, TakeToken(0), STRAY4, NoFlaw);
    StrayEnds1();
    StrayEnds2();
    StrayEnds3();
    StrayEnds4();
    GoOnTwice(STRAY4, TakeToken(0), STRAY5, TakeUpdate(0), STRAY6, NoFlaw);
    GoOnTwice(STRAY6, Advance(0, 100), STRAY7, Advance(1, 100), STRAY8, NoFlaw);
  }

  ghost const FOLLOWER := Local(Red, 0, Some(1000), 1, false, 10)
  ghost const STRAY9 := Sys(1000, [LEADER, DONE], [100, 100], [STRAY], [Token(1, 100, 1000, 0)], [])
  ghost const STRAY10 := Sys(1000, [LEADER, FOLLOWER], [100, 100], [STRAY], [Token(0, 100, 1000, 0)], [])
  ghost const STRAY11 :=
    Sys(1000, [LEADER.(iteration := 2), FOLLOWER], [100, 100], [STRAY], [Token(1, 100, 1000, 0)], [])
  ghost const STRAY12 :=
    Sys(1000, [LEADER.(iteration := 2), FOLLOWER.(iteration := 2)], [100, 100], [STRAY], [Token(0, 100, 1000, 0)], [])

  lemma StrayStarts()
    ensures Two(STRAY8) && Flawed(STRAY8, RedMessage) && Started(STRAY8) == STRAY9
    ensures Goes(STRAY9, TakeToken(0), STRAY10)
  {
    assert STRAY8.msgs[0].color.Red?;
  }

  lemma StrayPassedBy1()
    ensures Goes(STRAY10, TakeToken(0), STRAY11)
  {
  }

  lemma StrayPassedBy2()
    ensures Goes(STRAY11, TakeToken(0), STRAY12)
  {
  }

  lemma PassBy()
    ensures Reached(STRAY12, RedMessage)
  {
    Drift();
    StrayStarts();
    Begins(STRAY8, RedMessage);
    GoOn(STRAY9, TakeToken(0), STRAY10, RedMessage);
    StrayPassedBy1();
    StrayPassedBy2();
    GoOnTwice(STRAY10, TakeToken(0), STRAY11, TakeToken(0), STRAY12, RedMessage);
  }

  /** A cycle about to end with the value 100 while a message for an earlier time is in flight. */
  lemma Overtakes(s: Sys)
    requires Two(s) && s.tokens == [Token(0, 100, 1000, 0)] && s.updates == []
    requires s.mgrs[0] == LEADER.(iteration := 2) && s.msgs != [] && s.msgs[0].recvTime < 100
    ensures Overshoots(s) && s.mgrs[0].white == 0
  {
    TwoWellFormed(s);
    var s' := Apply(s, TakeToken(0));
    assert s'.mgrs[0].gvt == 100 && s'.msgs[0].recvTime < 100;
  }

  /** A red message of the last cycle in flight at a start, and nothing else amiss, lets the code publish a
      value above that message, although manager 0's own count is zero when it does. */
  lemma RedMessageDefeats()
    ensures Reached(STRAY12, RedMessage) && Overshoots(STRAY12) && STRAY12.mgrs[0].white == 0
  {
    PassBy();
    Overtakes(STRAY12);
  }

  /** So does an update of the last cycle under way at a start. */
  lemma LateUpdateDefeats()
    ensures Reached(OPEN11, LateUpdate) && Overshoots(OPEN11) && OPEN11.mgrs[0].white == 0
  {
    Forgotten();
    Overtakes(OPEN11);
  }
}
