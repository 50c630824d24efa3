module RecoveryRuns {
  // Whole executions of the recovery protocol: agreement, existence of the checkpoint, completion.

  import opened Wrappers
  import opened CheckpointTimes
  import opened RecoveryProtocol

  ghost predicate Execution(period: nat, ys: seq<Sys>, ss: seq<Step>)
    requires period > 0
  {
    && |ys| == |ss| + 1 && Initial(period, ys[0])
    && forall k :: 0 <= k < |ss| ==> Enabled(ys[k], ss[k]) && ys[k + 1] == Next(period, ys[k], ss[k])
  }

  lemma InitialInv(period: nat, y: Sys)
    requires period > 0 && Initial(period, y)
    ensures InvAt(period, y, Idle)
  {
    forall i | 0 <= i < |y.ms| ensures BookedAt(period, y.ms, i) && Untouched(y.ms[i]) {
      var objects: nat :| objects > 0 && y.ms[i] == Manager(InitialCheckpoint(period, objects), false, false, None);
      InitialBooked(period, objects);
    }
  }

  ghost function Deliveries(ss: seq<Step>): nat {
    if ss == [] then 0 else Deliveries(ss[..|ss| - 1]) + (if ss[|ss| - 1].Deliver? then 1 else 0)
  }

  lemma {:induction false} InvAlways(period: nat, ys: seq<Sys>, ss: seq<Step>, k: nat) returns (ph: Phase)
    requires period > 0 && Execution(period, ys, ss) && k < |ys|
    ensures InvAt(period, ys[k], ph) && |ys[k].ms| == |ys[0].ms|
    ensures Deliveries(ss[..k]) + Rank(ph, |ys[0].ms|) <= 3 * |ys[0].ms|
  {
    if k == 0 {
      InitialInv(period, ys[0]);
      ph := Idle;
    } else {
      var before := InvAlways(period, ys, ss, k - 1);
      ph := StepKeeps(period, ys[k - 1], ss[k - 1], before);
      assert ss[..k][..k - 1] == ss[..k - 1];
    }
  }

  /** Recovery is over after at most three messages per manager. */
  lemma RecoveryTerminates(period: nat, ys: seq<Sys>, ss: seq<Step>)
    requires period > 0 && Execution(period, ys, ss)
    ensures Deliveries(ss) <= 3 * |ys[0].ms|
  {
    var n := |ss|;
    assert ss[..n] == ss;
    assert Deliveries(ss[..n]) <= 3 * |ys[0].ms| by { var ph := InvAlways(period, ys, ss, n); }
  }

  /** All managers that have restored, whenever they did, restored the same checkpoint; it is on the grid
      and not after the rollback time that started recovery. */
  lemma RecoveryAgreement(period: nat, ys: seq<Sys>, ss: seq<Step>, k: nat, i: nat, j: nat)
    requires period > 0 && Execution(period, ys, ss) && k < |ys| && i < |ys[k].ms| && j < |ys[k].ms|
    requires ys[k].ms[i].restored.Some? && ys[k].ms[j].restored.Some?
    ensures ys[k].ms[i].restored == ys[k].ms[j].restored
    ensures var c := ys[k].ms[i].restored.value;
            OnGrid(period, c) && ys[k].start.Some? && c <= ys[k].start.value
  {
    var ph := InvAlways(period, ys, ss, k);
    RestoredInThird(period, ys[k], ph, i);
    RestoredInThird(period, ys[k], ph, j);
  }

  lemma RestoredInThird(period: nat, y: Sys, ph: Phase, i: nat)
    requires period > 0 && InPhase(period, y, ph) && i < |y.ms| && y.ms[i].restored.Some?
    ensures ph.Third? && y.ms[i].restored.value == ph.c && Fit(period, ph.c, y.start)
  {
  }

  /** Whenever a manager restores, the checkpoint exists there and none of its objects is behind it. */
  lemma RestoreIsPossible(period: nat, ys: seq<Sys>, ss: seq<Step>, k: nat, msg: Message)
    requires period > 0 && Execution(period, ys, ss) && k < |ys| && Enabled(ys[k], Deliver(msg))
             && Restores(period, ys[k], msg)
    ensures var t := ys[k].ms[msg.dest].times;
            msg.checkpoint in t.keys && msg.checkpoint <= Least(t.last)
  {
    var ph := InvAlways(period, ys, ss, k);
    var y := ys[k];
    match ph
    case Third(c, w) =>
      ThirdsFrom(w, c, msg);
      RestoreBooked(period, y, msg.dest, c);
    case Second(n, c) => RestoreBooked(period, y, msg.dest, c);
    case _ =>
  }

  /** Every message under way can be received. */
  lemma MessagesDeliverable(period: nat, ys: seq<Sys>, ss: seq<Step>, k: nat, msg: Message)
    requires period > 0 && Execution(period, ys, ss) && k < |ys| && msg in ys[k].net
    ensures Enabled(ys[k], Deliver(msg))
  {
    var ph := InvAlways(period, ys, ss, k);
    if ph.Third? { ThirdsFrom(ph.waiting, ph.c, msg); }
    assert BookedAt(period, ys[k].ms, msg.dest);
  }

  /** Recovery cannot get stuck: once it has started and no message is under way, every manager has
      restored and left recovery mode at the protocol level. */
  lemma RecoveryCompletes(period: nat, ys: seq<Sys>, ss: seq<Step>, k: nat)
    requires period > 0 && Execution(period, ys, ss) && k < |ys|
    requires ys[k].start.Some? && ys[k].net == multiset{}
    ensures forall i :: 0 <= i < |ys[k].ms| ==> ys[k].ms[i].restored.Some? && !ys[k].ms[i].recovering
  {
    var ph := InvAlways(period, ys, ss, k);
    if ph.Third? {
      NoneWaiting(ph.waiting, ph.c);
    }
  }

  lemma NoneWaiting(w: set<nat>, c: int)
    ensures Thirds(w, c) == multiset{} ==> w == {}
  {
    if w != {} {
      var i :| i in w;
      ThirdsFrom(w, c, Message(i, c, THIRD_CYCLE));
    }
  }
}
