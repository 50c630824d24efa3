/** OptFossilCollManager as an object: checkpoint times kept in arrays that the methods update in place,
    with the loops of the source, each proved to compute the corresponding function. */
module RecoveryManager {
  import opened Wrappers
  import opened CheckpointTimes
  import opened RecoveryProtocol

  const UINT_RANGE := 0x1_0000_0000

  /** The source compares an unsigned rollback time with a signed checkpoint time. */
  function AsUnsigned(t: int): int { if t < 0 then t + UINT_RANGE else t }

  /** From the grid, stepping down compares like signed numbers as long as the rollback time is not before
      the first checkpoint. */
  lemma ComparesAlike(period: nat, c: int, rollbackTime: int)
    requires period > 0 && OnGrid(period, c)
    ensures rollbackTime < AsUnsigned(c) <==> rollbackTime < c
  {
    GridLow(period, c);
  }

  /** The loop's exit test at checkpoint time `c`. */
  predicate Exits(rollbackTime: int, c: int) { !(rollbackTime < AsUnsigned(c)) }

  lemma {:induction false} FirstBelow(period: nat, c: int) returns (k: nat)
    requires period > 0 && OnGrid(period, c)
    ensures c - k * period == FIRST
    decreases c
  {
    if c == FIRST {
      k := 0;
    } else {
      GridLow(period, c);
      var j := FirstBelow(period, c - period);
      k := j + 1;
      assert k * period == j * period + period;
    }
  }

  /** The loop stops at a checkpoint time if and only if the rollback time is not before the first
      checkpoint; earlier rollback times send it past them all. */
  lemma StopsAtCheckpointIff(period: nat, c: int, rollbackTime: int)
    requires period > 0 && OnGrid(period, c) && rollbackTime >= 0
    ensures (exists k: nat :: c - k * period >= FIRST && Exits(rollbackTime, c - k * period)) <==> rollbackTime >= FIRST
  {
    if rollbackTime >= FIRST {
      var k := FirstBelow(period, c);
      assert Exits(rollbackTime, c - k * period);
    }
  }

  lemma NotOne(m: int, period: nat)
    requires period > 1
    ensures m * period != 1
  {
    if m >= 1 {
      assert m * period == (m - 1) * period + period && (m - 1) * period >= 0;
    } else {
      assert m * period <= 0;
    }
  }

  /** For rollback time zero the loop stops at all, within the range of an int, exactly for period one. */
  lemma ZeroStopsIff(period: nat, c: int)
    requires period > 0 && OnGrid(period, c)
    ensures (exists k: nat :: -UINT_RANGE < c - k * period && Exits(0, c - k * period)) <==> period == 1
  {
    var j := FirstBelow(period, c);
    GridLow(period, c);
    if period == 1 {
      assert Exits(0, c - c * period);
    } else {
      forall k: nat | -UINT_RANGE < c - k * period ensures !Exits(0, c - k * period) {
        assert (k - j) * period == k * period - j * period;
        NotOne(k - j, period);
      }
    }
  }

  method MinimumOf(a: array<int>) returns (x: int)
    requires a.Length > 0
    ensures x == Least(a[..])
  {
    x := a[0];
    var i := 1;
    while i < a.Length
      invariant 1 <= i <= a.Length
      invariant x in a[..i] && forall k :: 0 <= k < i ==> x <= a[k]
    {
      if a[i] < x {
        x := a[i];
      }
      i := i + 1;
    }
    assert a[..i] == a[..];
  }

  class OptFossilCollManager {
    const id: nat
    const managers: nat
    const checkpointPeriod: nat
    const lastCheckpointTime: array<int>
    const nextCheckpointTime: array<int>
    var checkpointedStates: set<int>
    var inRecovery: bool
    var recovering: bool
    var lastRestoreTime: Option<int>

    ghost predicate Valid()
      reads this, lastCheckpointTime, nextCheckpointTime
    {
      && checkpointPeriod > 0 && managers > 0 && lastCheckpointTime != nextCheckpointTime
      && Booked(checkpointPeriod, CheckpointBooks())
    }

    ghost function CheckpointBooks(): Times
      reads this, lastCheckpointTime, nextCheckpointTime
    {
      Times(lastCheckpointTime[..], nextCheckpointTime[..], checkpointedStates)
    }

    ghost function Value(): Manager
      reads this, lastCheckpointTime, nextCheckpointTime
    {
      Manager(CheckpointBooks(), inRecovery, recovering, lastRestoreTime)
    }

    /** makeInitialCheckpoint included. */
    constructor (self: nat, count: nat, objects: nat, period: nat)
      requires objects > 0 && period > 0 && count > 0
      ensures Valid() && id == self && managers == count && checkpointPeriod == period
      ensures Value() == Manager(InitialCheckpoint(period, objects), false, false, None)
      ensures fresh(lastCheckpointTime) && fresh(nextCheckpointTime)
    {
      id, managers, checkpointPeriod := self, count, period;
      var last := new int[objects](_ => FIRST);
      var next := new int[objects](_ => period + FIRST);
      lastCheckpointTime, nextCheckpointTime := last, next;
      checkpointedStates, inRecovery, recovering, lastRestoreTime := {FIRST}, false, false, None;
      new;
      InitialBooked(period, objects);
      assert CheckpointBooks() == InitialCheckpoint(period, objects);
    }

    method UpdateCheckpointTime(objId: nat, checkTime: int)
      requires Valid() && objId < lastCheckpointTime.Length
      modifies lastCheckpointTime, nextCheckpointTime
      ensures Valid() && CheckpointBooks() == Update(checkpointPeriod, old(CheckpointBooks()), objId, checkTime)
    {
      ghost var m := CheckpointBooks();
      UpdateKeepsBooked(checkpointPeriod, m, objId, checkTime);
      if checkTime < lastCheckpointTime[objId] {
        nextCheckpointTime[objId] := lastCheckpointTime[objId];
        lastCheckpointTime[objId] := lastCheckpointTime[objId] - checkpointPeriod;
        if lastCheckpointTime[objId] < FIRST {
          lastCheckpointTime[objId] := FIRST;
          nextCheckpointTime[objId] := checkpointPeriod + 1;
        }
      }
      assert CheckpointBooks() == Update(checkpointPeriod, m, objId, checkTime);
    }

    method MakeCheckpoint(objId: nat)
      requires Valid() && objId < lastCheckpointTime.Length
      modifies this`checkpointedStates, lastCheckpointTime, nextCheckpointTime
      ensures Valid() && CheckpointBooks() == CheckpointOnce(checkpointPeriod, old(CheckpointBooks()), objId)
    {
      ghost var m := CheckpointBooks();
      OnceKeepsBooked(checkpointPeriod, m, objId);
      if nextCheckpointTime[objId] in checkpointedStates {
        lastCheckpointTime[objId] := nextCheckpointTime[objId];
        nextCheckpointTime[objId] := nextCheckpointTime[objId] + checkpointPeriod;
      } else {
        checkpointedStates := checkpointedStates + {nextCheckpointTime[objId]};
        assert CheckpointBooks() == m.(keys := checkpointedStates);
        AdvanceAll();
      }
      assert CheckpointBooks() == CheckpointOnce(checkpointPeriod, m, objId);
    }

    /** The first checkpoint for a time: every object's times move on. */
    method AdvanceAll()
      requires checkpointPeriod > 0 && lastCheckpointTime != nextCheckpointTime
      requires lastCheckpointTime.Length == nextCheckpointTime.Length
      modifies lastCheckpointTime, nextCheckpointTime
      ensures lastCheckpointTime[..] == old(nextCheckpointTime[..])
      ensures forall k :: 0 <= k < nextCheckpointTime.Length ==>
              nextCheckpointTime[k] == old(nextCheckpointTime[k]) + checkpointPeriod
    {
      var i := 0;
      while i < lastCheckpointTime.Length
        invariant 0 <= i <= lastCheckpointTime.Length == nextCheckpointTime.Length
        invariant forall k :: 0 <= k < i ==> lastCheckpointTime[k] == old(nextCheckpointTime[k])
        invariant forall k :: 0 <= k < i ==> nextCheckpointTime[k] == old(nextCheckpointTime[k]) + checkpointPeriod
        invariant forall k :: i <= k < nextCheckpointTime.Length ==> nextCheckpointTime[k] == old(nextCheckpointTime[k])
      {
        lastCheckpointTime[i] := nextCheckpointTime[i];
        nextCheckpointTime[i] := nextCheckpointTime[i] + checkpointPeriod;
        i := i + 1;
      }
    }

    /** checkpoint. */
    method Checkpoint(time: int, objId: nat)
      requires Valid() && objId < lastCheckpointTime.Length
      modifies this`checkpointedStates, lastCheckpointTime, nextCheckpointTime
      ensures Valid()
      ensures CheckpointBooks() == CheckpointTimes.Checkpoint(checkpointPeriod, old(CheckpointBooks()), objId, time)
    {
      UpdateCheckpointTime(objId, time);
      while time >= nextCheckpointTime[objId]
        invariant Valid()
        invariant CatchUp(checkpointPeriod, CheckpointBooks(), objId, time)
               == CheckpointTimes.Checkpoint(checkpointPeriod, old(CheckpointBooks()), objId, time)
        decreases time - nextCheckpointTime[objId]
      {
        MakeCheckpoint(objId);
      }
    }

    /** startRecovery; the loop compares the way the source does. */
    method StartRecovery(rollbackTime: int) returns (out: seq<Message>)
      requires Valid() && rollbackTime >= FIRST
      modifies this`inRecovery, this`recovering
      ensures Valid()
      ensures (Value(), out) ==
              RecoveryProtocol.StartRecovery(checkpointPeriod, old(Value()), id, managers, rollbackTime)
    {
      inRecovery := true;
      var checkpt := MinimumOf(lastCheckpointTime);
      ghost var least := checkpt;
      assert OnGrid(checkpointPeriod, least) by { var top :| Filled(checkpointPeriod, checkpointedStates, top); }
      while rollbackTime < AsUnsigned(checkpt)
        invariant inRecovery && recovering == old(recovering) && OnGrid(checkpointPeriod, checkpt)
        invariant StepDown(checkpointPeriod, checkpt, rollbackTime) == StepDown(checkpointPeriod, least, rollbackTime)
        decreases checkpt - rollbackTime
      {
        ComparesAlike(checkpointPeriod, checkpt, rollbackTime);
        checkpt := checkpt - checkpointPeriod;
      }
      ComparesAlike(checkpointPeriod, checkpt, rollbackTime);
      if checkpt < FIRST {
        checkpt := FIRST;
      }
      assert CheckpointBooks() == old(CheckpointBooks());
      assert checkpt == StartTime(checkpointPeriod, CheckpointBooks(), rollbackTime);
      if id != 0 {
        out := [Message(0, checkpt, SEND_TO_MASTER)];
      } else {
        recovering := true;
        out := [Message(Peer(0, managers), checkpt, FIRST_CYCLE)];
      }
    }

    method RestoreCheckpoint(restoredTime: int)
      requires Valid() && restoredTime in checkpointedStates
      modifies this`inRecovery, this`recovering, this`lastRestoreTime, lastCheckpointTime, nextCheckpointTime
      ensures Valid() && Value() == RecoveryProtocol.RestoreCheckpoint(checkpointPeriod, old(Value()), restoredTime)
    {
      ghost var m := CheckpointBooks();
      inRecovery, recovering := false, false;
      var i := 0;
      while i < nextCheckpointTime.Length
        invariant 0 <= i <= nextCheckpointTime.Length == lastCheckpointTime.Length && !inRecovery && !recovering
        invariant forall k :: 0 <= k < i ==>
                    lastCheckpointTime[k] == restoredTime && nextCheckpointTime[k] == restoredTime + checkpointPeriod
      {
        lastCheckpointTime[i] := restoredTime;
        nextCheckpointTime[i] := restoredTime + checkpointPeriod;
        i := i + 1;
      }
      lastRestoreTime := Some(restoredTime);
      assert CheckpointBooks() == Restore(checkpointPeriod, m, restoredTime);
      RestoreKeepsBooked(checkpointPeriod, m, restoredTime);
    }

    method SendThird(c: int) returns (out: seq<Message>)
      requires managers > 0
      ensures out == Broadcast(managers, c)
    {
      out := [];
      var dest := 1;
      while dest < managers
        invariant 1 <= dest <= managers && out == Broadcast(dest, c)
      {
        out := out + [Message(dest, c, THIRD_CYCLE)];
        dest := dest + 1;
      }
    }

    method LowestWith(c: int) returns (checkpt: int)
      requires Valid()
      ensures checkpt == Lower(CheckpointBooks(), c)
    {
      checkpt := MinimumOf(lastCheckpointTime);
      if checkpt > c {
        checkpt := c;
      }
    }

    /** receiveKernelMessage. The checkpoint to restore must exist, as it always does in a run. */
    method ReceiveKernelMessage(msg: Message) returns (out: seq<Message>)
      requires Valid()
      requires recovering && msg.token == (if id == 0 then SECOND_CYCLE else THIRD_CYCLE) ==>
               msg.checkpoint in checkpointedStates
      modifies this`inRecovery, this`recovering, this`lastRestoreTime, lastCheckpointTime, nextCheckpointTime
      ensures Valid() && (Value(), out) == Receive(checkpointPeriod, old(Value()), id, managers, msg)
    {
      out := [];
      var c := msg.checkpoint;
      match msg.token
      case SEND_TO_MASTER =>
        if id == 0 && !recovering {
          inRecovery, recovering := true, true;
          out := [Message(Peer(id, managers), c, FIRST_CYCLE)];
        }
      case FIRST_CYCLE =>
        if id == 0 {
          if recovering {
            var checkpt := LowestWith(c);
            out := [Message(Peer(id, managers), checkpt, SECOND_CYCLE)];
          }
        } else if !recovering {
          inRecovery, recovering := true, true;
          out := [Message(Peer(id, managers), c, FIRST_CYCLE)];
        }
      case SECOND_CYCLE =>
        if recovering {
          if id == 0 {
            out := SendThird(c);
            RestoreCheckpoint(c);
          } else {
            var checkpt := LowestWith(c);
            out := [Message(Peer(id, managers), checkpt, SECOND_CYCLE)];
          }
        }
      case THIRD_CYCLE =>
        if id != 0 && recovering {
          RestoreCheckpoint(c);
        }
    }
  }
}
