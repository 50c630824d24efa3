module RecoveryLatest {
  // The checkpoint that is restored is the latest one possible: no later checkpoint time is at or before the
  // rollback time and at or before the last checkpoints of all objects of all managers.

  import opened Wrappers
  import opened CheckpointTimes
  import opened RecoveryProtocol
  import opened RecoveryRuns

  /** No object of a manager that has stopped is behind `g`. */
  ghost predicate NoneBehind(y: Sys, g: int) {
    forall i :: 0 <= i < |y.ms| && y.ms[i].inRecovery ==> y.ms[i].times.last != [] && g <= Least(y.ms[i].times.last)
  }

  /** Every checkpoint time that may still be restored is at most `c`. */
  ghost predicate Tight(period: nat, y: Sys, c: int)
    requires period > 0
  {
    y.start.Some? && forall g :: OnGrid(period, g) && g <= y.start.value && NoneBehind(y, g) ==> g <= c
  }

  /** What the first two rounds pass on is not too low. */
  ghost predicate TightNet(period: nat, y: Sys)
    requires period > 0
  {
    forall msg :: msg in y.net && msg.token != THIRD_CYCLE ==> Tight(period, y, msg.checkpoint)
  }

  /** A manager that keeps its times, and stops if it had not. */
  lemma StoppingKeepsTight(period: nat, y: Sys, i: nat, m: Manager, net: multiset<Message>, c: int)
    requires period > 0 && i < |y.ms| && m.times == y.ms[i].times && m.inRecovery && Tight(period, y, c)
    ensures Tight(period, y.(ms := y.ms[i := m], net := net), c)
  {
    var y' := y.(ms := y.ms[i := m], net := net);
    forall g | NoneBehind(y', g) ensures NoneBehind(y, g) {
      forall k | 0 <= k < |y.ms| && y.ms[k].inRecovery
        ensures y.ms[k].times.last != [] && g <= Least(y.ms[k].times.last)
      {
        assert y'.ms[k].inRecovery && y'.ms[k].times == y.ms[k].times;
      }
    }
  }

  /** A stopped manager lowers what it passes on to its own least last checkpoint. */
  lemma LoweringKeepsTight(period: nat, y: Sys, i: nat, c: int, net: multiset<Message>)
    requires period > 0 && i < |y.ms| && y.ms[i].inRecovery && Booked(period, y.ms[i].times)
    requires OnGrid(period, c) && Tight(period, y, c)
    ensures Tight(period, y.(net := net), Lower(y.ms[i].times, c))
  {
    LowerFacts(period, y.ms[i].times, c);
    forall g | NoneBehind(y.(net := net), g) ensures NoneBehind(y, g) { }
  }

  /** Managers that have not stopped may still checkpoint and roll back. */
  lemma BookkeepingKeepsTight(period: nat, y: Sys, id: nat, m: Manager, c: int)
    requires period > 0 && id < |y.ms| && !y.ms[id].inRecovery && !m.inRecovery && Tight(period, y, c)
    ensures Tight(period, y.(ms := y.ms[id := m]), c)
  {
    var y' := y.(ms := y.ms[id := m]);
    forall g | NoneBehind(y', g) ensures NoneBehind(y, g) {
      forall k | 0 <= k < |y.ms| && y.ms[k].inRecovery
        ensures y.ms[k].times.last != [] && g <= Least(y.ms[k].times.last)
      {
        assert y'.ms[k] == y.ms[k];
      }
    }
  }

  lemma StartIsTight(period: nat, y: Sys, id: nat, rollbackTime: int)
    requires period > 0 && Enabled(y, Start(id, rollbackTime)) && Booked(period, y.ms[id].times)
    ensures var c := StartTime(period, y.ms[id].times, rollbackTime);
            Tight(period, Next(period, y, Start(id, rollbackTime)), c)
  {
    var y' := Next(period, y, Start(id, rollbackTime));
    StartTimeFacts(period, y.ms[id].times, rollbackTime);
    assert y'.ms[id].inRecovery && y'.ms[id].times == y.ms[id].times;
  }

  lemma StartKeepsTightNet(period: nat, y: Sys, id: nat, rollbackTime: int, ph: Phase)
    requires period > 0 && InvAt(period, y, ph) && Enabled(y, Start(id, rollbackTime))
    ensures TightNet(period, Next(period, y, Start(id, rollbackTime)))
  {
    assert BookedAt(period, y.ms, id);
    assert y.net == multiset{};
    StartIsTight(period, y, id, rollbackTime);
  }

  lemma EnteringKeepsTightNet(period: nat, y: Sys, msg: Message, ph: Phase)
    requires period > 0 && InvAt(period, y, ph) && Enabled(y, Deliver(msg)) && TightNet(period, y)
    requires ph.ToMaster? || (ph.First? && ph.k < |y.ms|)
    ensures TightNet(period, Next(period, y, Deliver(msg)))
  {
    var i := msg.dest;
    var y' := Next(period, y, Deliver(msg));
    assert y.net == multiset{msg};
    assert y.net - multiset{msg} == multiset{};
    assert y'.net == multiset{Message(Peer(i, |y.ms|), msg.checkpoint, FIRST_CYCLE)};
    StoppingKeepsTight(period, y, i, Enter(y.ms[i]), y'.net, msg.checkpoint);
  }

  lemma PassingKeepsTightNet(period: nat, y: Sys, msg: Message, ph: Phase)
    requires period > 0 && InvAt(period, y, ph) && Enabled(y, Deliver(msg)) && TightNet(period, y)
    requires (ph.First? && ph.k == |y.ms|) || (ph.Second? && ph.k < |y.ms|)
    ensures TightNet(period, Next(period, y, Deliver(msg)))
  {
    var i := msg.dest;
    assert y.net == multiset{msg};
    assert BookedAt(period, y.ms, i);
    PassOnEffect(period, y, msg, Lower(y.ms[i].times, msg.checkpoint));
    LoweringKeepsTight(period, y, i, msg.checkpoint, Next(period, y, Deliver(msg)).net);
  }

  lemma RestoringLeavesThirds(period: nat, y: Sys, msg: Message, ph: Phase)
    requires period > 0 && InvAt(period, y, ph) && Enabled(y, Deliver(msg))
    requires ph.Third? || (ph.Second? && ph.k == |y.ms|)
    ensures TightNet(period, Next(period, y, Deliver(msg)))
  {
    if ph.Third? {
      ThirdsFrom(ph.waiting, ph.c, msg);
    } else {
      assert y.net - multiset{msg} == multiset{};
      BroadcastReaches(|y.ms|, ph.c);
    }
    RestoreEffect(period, y, msg);
    OnlyThirds(period, y, msg, ph);
  }

  lemma OnlyThirds(period: nat, y: Sys, msg: Message, ph: Phase)
    requires period > 0 && InvAt(period, y, ph) && Enabled(y, Deliver(msg)) && Restores(period, y, msg)
    requires ph.Third? || (ph.Second? && ph.k == |y.ms|)
    ensures forall x :: x in Next(period, y, Deliver(msg)).net ==> x.token == THIRD_CYCLE
  {
    var y' := Next(period, y, Deliver(msg));
    RestoreEffect(period, y, msg);
    BroadcastReaches(|y.ms|, ph.c);
    forall x | x in y'.net ensures x.token == THIRD_CYCLE {
      if ph.Third? {
        ThirdsFrom(ph.waiting, ph.c, x);
        ThirdsFrom(ph.waiting, ph.c, msg);
      } else {
        ThirdsFrom(Others(|y.ms|), ph.c, x);
      }
    }
  }

  lemma DeliverKeepsTightNet(period: nat, y: Sys, msg: Message, ph: Phase)
    requires period > 0 && InvAt(period, y, ph) && Enabled(y, Deliver(msg)) && TightNet(period, y)
    ensures TightNet(period, Next(period, y, Deliver(msg)))
  {
    match ph
    case ToMaster(_) => EnteringKeepsTightNet(period, y, msg, ph);
    case First(k, _) =>
      if k < |y.ms| { EnteringKeepsTightNet(period, y, msg, ph); } else { PassingKeepsTightNet(period, y, msg, ph); }
    case Second(k, _) =>
      if k < |y.ms| { PassingKeepsTightNet(period, y, msg, ph); } else { RestoringLeavesThirds(period, y, msg, ph); }
    case Third(_, _) => RestoringLeavesThirds(period, y, msg, ph);
  }

  lemma StepKeepsTightNet(period: nat, y: Sys, s: Step, ph: Phase)
    requires period > 0 && InvAt(period, y, ph) && Enabled(y, s) && TightNet(period, y)
    ensures TightNet(period, Next(period, y, s))
  {
    match s
    case TakeCheckpoint(id, obj, t) => BookkeepingKeepsTightNet(period, y, s, id);
    case RollBack(id, obj, t) => BookkeepingKeepsTightNet(period, y, s, id);
    case Start(id, rollbackTime) => StartKeepsTightNet(period, y, id, rollbackTime, ph);
    case Deliver(msg) => DeliverKeepsTightNet(period, y, msg, ph);
  }

  lemma BookkeepingKeepsTightNet(period: nat, y: Sys, s: Step, id: nat)
    requires period > 0 && Enabled(y, s) && TightNet(period, y)
    requires (s.TakeCheckpoint? && s.id == id) || (s.RollBack? && s.id == id)
    ensures TightNet(period, Next(period, y, s))
  {
    var y' := Next(period, y, s);
    forall msg | msg in y'.net && msg.token != THIRD_CYCLE ensures Tight(period, y', msg.checkpoint) {
      BookkeepingKeepsTight(period, y, id, y'.ms[id], msg.checkpoint);
    }
  }

  lemma {:induction false} TightAlways(period: nat, ys: seq<Sys>, ss: seq<Step>, k: nat)
    requires period > 0 && Execution(period, ys, ss) && k < |ys|
    ensures TightNet(period, ys[k])
  {
    if k > 0 {
      TightAlways(period, ys, ss, k - 1);
      var ph := InvAlways(period, ys, ss, k - 1);
      StepKeepsTightNet(period, ys[k - 1], ss[k - 1], ph);
    }
  }

  // ----- what is restored -----

  /** `c` is the latest checkpoint time at or before the rollback time that no object of any manager is
      behind. */
  ghost predicate Latest(period: nat, y: Sys, c: int)
    requires period > 0
  {
    && y.start.Some? && OnGrid(period, c) && c <= y.start.value && NobodyBehind(y, c)
    && forall g :: OnGrid(period, g) && g <= y.start.value && NobodyBehind(y, g) ==> g <= c
  }

  ghost predicate NobodyBehind(y: Sys, g: int) {
    forall i :: 0 <= i < |y.ms| ==> y.ms[i].times.last != [] && g <= Least(y.ms[i].times.last)
  }

  /** The step with which the master restores. */
  ghost predicate MasterRestores(period: nat, y: Sys, s: Step)
    requires period > 0
  {
    s.Deliver? && s.msg.dest == 0 && Enabled(y, s) && Restores(period, y, s.msg)
  }

  /** The third round goes to the others. */
  lemma ThirdsSpareMaster(period: nat, y: Sys, msg: Message, ph: Phase)
    requires period > 0 && InvAt(period, y, ph) && msg in y.net
    ensures ph.Third? ==> msg.dest != 0
  {
    if ph.Third? { ThirdsFrom(ph.waiting, ph.c, msg); }
  }

  /** When the master restores, all managers have stopped, and the checkpoint is the latest possible. */
  lemma MasterRestoresLatest(period: nat, y: Sys, s: Step, ph: Phase)
    requires period > 0 && InvAt(period, y, ph) && TightNet(period, y) && MasterRestores(period, y, s)
    ensures Latest(period, y, s.msg.checkpoint)
  {
    ThirdsSpareMaster(period, y, s.msg, ph);
    var c := s.msg.checkpoint;
    assert ph == Second(|y.ms|, c);
    forall g | NobodyBehind(y, g) ensures NoneBehind(y, g) { }
  }

  lemma RestoredIsDone(period: nat, y: Sys, ph: Phase)
    requires period > 0 && InvAt(period, y, ph)
    ensures y.ms[0].restored.Some? ==> !y.ms[0].recovering
  {
  }

  lemma MasterDelivery(period: nat, y: Sys, msg: Message)
    requires period > 0 && Enabled(y, Deliver(msg)) && (y.ms[0].restored.Some? ==> !y.ms[0].recovering)
    ensures var y' := Next(period, y, Deliver(msg));
            && |y'.ms| == |y.ms|
            && (y'.ms[0].restored == y.ms[0].restored
                || (y.ms[0].restored == None && msg.dest == 0 && Restores(period, y, msg)
                    && y'.ms[0].restored == Some(msg.checkpoint)))
  {
  }

  lemma MasterStep(period: nat, y: Sys, s: Step)
    requires period > 0 && y.ms != [] && Enabled(y, s) && (y.ms[0].restored.Some? ==> !y.ms[0].recovering)
    ensures var y' := Next(period, y, s);
            && |y'.ms| == |y.ms|
            && (y.ms[0].restored.Some? ==> y'.ms[0].restored == y.ms[0].restored)
            && (y.ms[0].restored == None && y'.ms[0].restored.Some? ==>
                  MasterRestores(period, y, s) && y'.ms[0].restored == Some(s.msg.checkpoint))
  {
    if s.Deliver? { MasterDelivery(period, y, s.msg); }
  }

  lemma {:induction false} MasterLatest(period: nat, ys: seq<Sys>, ss: seq<Step>, k: nat) returns (j: nat)
    requires period > 0 && Execution(period, ys, ss) && k < |ys| && ys[k].ms != [] && ys[k].ms[0].restored.Some?
    ensures j < k && MasterRestores(period, ys[j], ss[j])
    ensures Latest(period, ys[j], ys[k].ms[0].restored.value)
  {
    var ph0 := InvAlways(period, ys, ss, 0);
    assert k > 0;
    var ph := InvAlways(period, ys, ss, k - 1);
    RestoredIsDone(period, ys[k - 1], ph);
    MasterStep(period, ys[k - 1], ss[k - 1]);
    if ys[k - 1].ms[0].restored.Some? {
      j := MasterLatest(period, ys, ss, k - 1);
    } else {
      j := k - 1;
      TightAlways(period, ys, ss, j);
      MasterRestoresLatest(period, ys[j], ss[j], ph);
    }
  }

  lemma MasterToo(period: nat, y: Sys, ph: Phase, i: nat)
    requires period > 0 && InvAt(period, y, ph) && i < |y.ms| && y.ms[i].restored.Some?
    ensures y.ms[0].restored == y.ms[i].restored
  {
  }

  /** LATEST POSSIBLE. What any manager restores, at any time of any execution, is the latest checkpoint time at
      or before the rollback time that no object of any manager was behind when the master restored. */
  lemma RestoredIsLatest(period: nat, ys: seq<Sys>, ss: seq<Step>, k: nat, i: nat) returns (j: nat)
    requires period > 0 && Execution(period, ys, ss) && k < |ys| && i < |ys[k].ms| && ys[k].ms[i].restored.Some?
    ensures j < k && MasterRestores(period, ys[j], ss[j]) && Latest(period, ys[j], ys[k].ms[i].restored.value)
  {
    var ph := InvAlways(period, ys, ss, k);
    MasterToo(period, ys[k], ph, i);
    j := MasterLatest(period, ys, ss, k);
  }

  /** And it is back there: right after restoring, the last checkpoint of every object of the manager is the
      restored one and the next is a period later. */
  lemma RestoresTimes(period: nat, y: Sys, msg: Message)
    requires period > 0 && Enabled(y, Deliver(msg)) && Restores(period, y, msg)
    ensures var m := Next(period, y, Deliver(msg)).ms[msg.dest];
            && m.restored == Some(msg.checkpoint) && !m.inRecovery && !m.recovering
            && m.times.keys == y.ms[msg.dest].times.keys
            && |m.times.last| == |m.times.next| == |y.ms[msg.dest].times.next|
            && forall k :: 0 <= k < |m.times.last| ==>
                 m.times.last[k] == msg.checkpoint && m.times.next[k] == msg.checkpoint + period
  {
    RestoreEffect(period, y, msg);
  }
}
