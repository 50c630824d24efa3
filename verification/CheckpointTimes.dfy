module CheckpointTimes {
  // Checkpoint times of one manager (OptFossilCollManager): for each object the last and the next
  // checkpoint time, and the times for which a checkpoint exists.

  const FIRST := 1

  /** FIRST, FIRST + period, FIRST + 2 * period, ... */
  predicate OnGrid(period: nat, t: int)
    requires period > 0
    decreases t
  {
    t == FIRST || (t > period && OnGrid(period, t - period))
  }

  lemma GridLow(period: nat, t: int)
    requires period > 0 && OnGrid(period, t)
    ensures t >= FIRST && (t == FIRST || t - period >= FIRST)
  {
    if t != FIRST { GridLow(period, t - period); }
  }

  /** Two different grid times are at least a period apart. */
  lemma {:induction false} GridGap(period: nat, a: int, b: int)
    requires period > 0 && OnGrid(period, a) && OnGrid(period, b) && a < b
    ensures a + period <= b
    decreases a
  {
    GridLow(period, a);
    GridLow(period, b);
    if a != FIRST { GridGap(period, a - period, b - period); }
  }

  /** `last` and `next` are lastCheckpointTime and nextCheckpointTime, `keys` the keys of
      checkpointedStates. */
  datatype Times = Times(last: seq<int>, next: seq<int>, keys: set<int>)

  function InitialCheckpoint(period: nat, objects: nat): Times {
    Times(seq(objects, _ => FIRST), seq(objects, _ => period + FIRST), {FIRST})
  }

  function Update(period: nat, m: Times, i: nat, t: int): Times
    requires i < |m.last| && i < |m.next|
  {
    if t < m.last[i] then
      if m.last[i] - period < FIRST then m.(last := m.last[i := FIRST], next := m.next[i := period + 1])
      else m.(last := m.last[i := m.last[i] - period], next := m.next[i := m.last[i]])
    else m
  }

  /** One checkpoint: made again for one object, or for the first time for all objects. */
  function CheckpointOnce(period: nat, m: Times, i: nat): Times
    requires i < |m.last| && i < |m.next|
  {
    if m.next[i] in m.keys then m.(last := m.last[i := m.next[i]], next := m.next[i := m.next[i] + period])
    else Times(m.next, seq(|m.next|, k requires 0 <= k < |m.next| => m.next[k] + period), m.keys + {m.next[i]})
  }

  function CatchUp(period: nat, m: Times, i: nat, t: int): Times
    requires period > 0 && i < |m.last| == |m.next|
    decreases t - m.next[i]
  {
    if t >= m.next[i] then CatchUp(period, CheckpointOnce(period, m, i), i, t) else m
  }

  function Checkpoint(period: nat, m: Times, i: nat, t: int): Times
    requires period > 0 && i < |m.last| == |m.next|
  {
    CatchUp(period, Update(period, m, i, t), i, t)
  }

  function Least(s: seq<int>): (x: int)
    requires s != []
    ensures x in s && forall i :: 0 <= i < |s| ==> x <= s[i]
  {
    if |s| == 1 then s[0] else var x := Least(s[1..]); if s[0] <= x then s[0] else x
  }

  /** The loop of startRecovery that steps down to the rollback time. */
  function StepDown(period: nat, c: int, rollbackTime: int): int
    requires period > 0
    decreases c - rollbackTime
  {
    if rollbackTime < c then StepDown(period, c - period, rollbackTime) else c
  }

  function StartTime(period: nat, m: Times, rollbackTime: int): int
    requires period > 0 && m.last != []
  {
    var c := StepDown(period, Least(m.last), rollbackTime);
    if c < FIRST then FIRST else c
  }

  function Lower(m: Times, c: int): int
    requires m.last != []
  {
    if Least(m.last) > c then c else Least(m.last)
  }

  function Restore(period: nat, m: Times, c: int): Times {
    m.(last := seq(|m.next|, _ => c), next := seq(|m.next|, _ => c + period))
  }

  // ----- invariant -----

  /** Checkpoints exist for exactly the grid times up to `top`. */
  ghost predicate Filled(period: nat, keys: set<int>, top: int)
    requires period > 0
  {
    OnGrid(period, top) && forall t :: t in keys <==> OnGrid(period, t) && t <= top
  }

  /** Every object's last checkpoint exists, and its next one is a period later. */
  ghost predicate Booked(period: nat, m: Times)
    requires period > 0
  {
    && |m.last| == |m.next| > 0
    && (exists top :: Filled(period, m.keys, top))
    && (forall i :: 0 <= i < |m.last| ==> m.last[i] in m.keys && m.next[i] == m.last[i] + period)
  }

  lemma InitialBooked(period: nat, objects: nat)
    requires period > 0 && objects > 0
    ensures Booked(period, InitialCheckpoint(period, objects))
  {
    var m := InitialCheckpoint(period, objects);
    forall t ensures t in m.keys <==> OnGrid(period, t) && t <= FIRST {
      if OnGrid(period, t) { GridLow(period, t); }
    }
    assert Filled(period, m.keys, FIRST);
  }

  lemma UpdateKeepsBooked(period: nat, m: Times, i: nat, t: int)
    requires period > 0 && Booked(period, m) && i < |m.last|
    ensures Booked(period, Update(period, m, i, t)) && Update(period, m, i, t).keys == m.keys
  {
    var top :| Filled(period, m.keys, top);
    var x := m.last[i];
    GridLow(period, x);
    GridLow(period, top);
    assert FIRST in m.keys;
    assert x != FIRST ==> x - period in m.keys;
    assert Filled(period, Update(period, m, i, t).keys, top);
  }

  lemma NewKey(period: nat, keys: set<int>, top: int)
    requires period > 0 && Filled(period, keys, top)
    ensures Filled(period, keys + {top + period}, top + period)
  {
    GridLow(period, top);
    forall t ensures t in keys + {top + period} <==> OnGrid(period, t) && t <= top + period {
      if OnGrid(period, t) && top < t { GridGap(period, top, t); }
    }
  }

  /** The time after an existing checkpoint exists too unless that checkpoint is the newest. */
  lemma Successor(period: nat, keys: set<int>, top: int, x: int)
    requires period > 0 && Filled(period, keys, top) && x in keys
    ensures x + period in keys <==> x != top
  {
    GridLow(period, x);
    if x < top { GridGap(period, x, top); }
  }

  lemma OnceKeepsBooked(period: nat, m: Times, i: nat)
    requires period > 0 && Booked(period, m) && i < |m.last|
    ensures Booked(period, CheckpointOnce(period, m, i)) && m.keys <= CheckpointOnce(period, m, i).keys
  {
    var top :| Filled(period, m.keys, top);
    var m' := CheckpointOnce(period, m, i);
    Successor(period, m.keys, top, m.last[i]);
    if m.next[i] in m.keys {
      assert Filled(period, m'.keys, top);
    } else {
      NewKey(period, m.keys, top);
      forall k | 0 <= k < |m.last| ensures m'.last[k] in m'.keys { Successor(period, m.keys, top, m.last[k]); }
    }
  }

  lemma {:induction false} CatchUpKeepsBooked(period: nat, m: Times, i: nat, t: int)
    requires period > 0 && Booked(period, m) && i < |m.last|
    ensures var m' := CatchUp(period, m, i, t);
            Booked(period, m') && m.keys <= m'.keys && |m'.last| == |m.last| && t < m'.next[i]
    decreases t - m.next[i]
  {
    if t >= m.next[i] {
      OnceKeepsBooked(period, m, i);
      CatchUpKeepsBooked(period, CheckpointOnce(period, m, i), i, t);
    }
  }

  /** checkpoint keeps the books right, loses no checkpoint and leaves the next one after the time. */
  lemma CheckpointKeepsBooked(period: nat, m: Times, i: nat, t: int)
    requires period > 0 && Booked(period, m) && i < |m.last|
    ensures var m' := Checkpoint(period, m, i, t);
            Booked(period, m') && m.keys <= m'.keys && |m'.last| == |m.last| && t < m'.next[i]
  {
    UpdateKeepsBooked(period, m, i, t);
    CatchUpKeepsBooked(period, Update(period, m, i, t), i, t);
  }

  /** Stepping back goes back to the checkpoint just before the last one, for this object alone, and only from a
      last checkpoint after the time. */
  lemma UpdateStepsBack(period: nat, m: Times, i: nat, t: int)
    requires period > 0 && Booked(period, m) && i < |m.last|
    ensures var m' := Update(period, m, i, t);
            && (forall k :: 0 <= k < |m.last| && (k != i || t >= m.last[i]) ==>
                  m'.last[k] == m.last[k] && m'.next[k] == m.next[k])
            && (t < m.last[i] ==>
                  && (m'.last[i] < m.last[i] || m.last[i] == m'.last[i] == FIRST)
                  && forall g :: g in m.keys && g < m.last[i] ==> g <= m'.last[i])
  {
    var top :| Filled(period, m.keys, top);
    var x := m.last[i];
    GridLow(period, x);
    forall g | g in m.keys && g < x ensures g <= Update(period, m, i, x - 1).last[i] {
      GridLow(period, g);
      GridGap(period, g, x);
    }
  }

  /** What checkpointing up to the time leaves: exactly the checkpoint times up to it have been added, this object
      is at the latest of them unless it is already beyond, and the first checkpoint at a time moves all objects
      on by a period. */
  ghost predicate CaughtUp(period: nat, m: Times, m': Times, i: nat, t: int, top: int, top': int)
    requires period > 0 && i < |m.last| == |m'.last|
  {
    && Filled(period, m'.keys, top') && top <= top'
    && (forall g :: g in m'.keys <==> g in m.keys || (OnGrid(period, g) && g <= t))
    && (t < m.last[i] ==> m'.last[i] == m.last[i])
    && (t >= m.last[i] ==> m'.last[i] <= t < m'.last[i] + period)
    && (forall k :: 0 <= k < |m.last| && k != i ==> m'.last[k] == m.last[k] + (top' - top))
  }

  lemma NothingToCatchUp(period: nat, m: Times, i: nat, t: int, top: int)
    requires period > 0 && Booked(period, m) && i < |m.last| && Filled(period, m.keys, top) && t < m.next[i]
    ensures CaughtUp(period, m, m, i, t, top, top)
  {
    forall g | OnGrid(period, g) && g <= t ensures g in m.keys {
      if m.last[i] < g { GridGap(period, m.last[i], g); }
    }
  }

  lemma OnceMoves(period: nat, m: Times, i: nat, top: int) returns (top': int)
    requires period > 0 && Booked(period, m) && i < |m.last| && Filled(period, m.keys, top)
    ensures var m' := CheckpointOnce(period, m, i);
            && |m'.last| == |m.last| && Filled(period, m'.keys, top') && top <= top'
            && m'.keys == m.keys + {m.next[i]} && m'.last[i] == m.next[i] && m'.next[i] == m.next[i] + period
            && forall k :: 0 <= k < |m.last| && k != i ==> m'.last[k] == m.last[k] + (top' - top)
  {
    Successor(period, m.keys, top, m.last[i]);
    if m.next[i] in m.keys {
      top' := top;
    } else {
      NewKey(period, m.keys, top);
      top' := top + period;
    }
  }

  lemma {:induction false} CatchUpMoves(period: nat, m: Times, i: nat, t: int, top: int) returns (top': int)
    requires period > 0 && Booked(period, m) && i < |m.last| && Filled(period, m.keys, top)
    ensures |CatchUp(period, m, i, t).last| == |m.last|
    ensures CaughtUp(period, m, CatchUp(period, m, i, t), i, t, top, top')
    decreases t - m.next[i]
  {
    if t >= m.next[i] {
      var m1 := CheckpointOnce(period, m, i);
      var top1 := OnceMoves(period, m, i, top);
      OnceKeepsBooked(period, m, i);
      top' := CatchUpMoves(period, m1, i, t, top1);
      assert OnGrid(period, m.next[i]);
    } else {
      NothingToCatchUp(period, m, i, t, top);
      top' := top;
    }
  }

  /** EXACTLY UP TO THE TIME. After checkpoint, measured from what stepping back has left. */
  lemma CheckpointReaches(period: nat, m: Times, i: nat, t: int, top: int) returns (top': int)
    requires period > 0 && Booked(period, m) && i < |m.last| && Filled(period, m.keys, top)
    ensures |Update(period, m, i, t).last| == |Checkpoint(period, m, i, t).last|
    ensures CaughtUp(period, Update(period, m, i, t), Checkpoint(period, m, i, t), i, t, top, top')
  {
    UpdateKeepsBooked(period, m, i, t);
    top' := CatchUpMoves(period, Update(period, m, i, t), i, t, top);
  }

  lemma {:induction false} StepDownFacts(period: nat, c: int, rollbackTime: int)
    requires period > 0 && OnGrid(period, c) && rollbackTime >= FIRST
    ensures var c' := StepDown(period, c, rollbackTime);
            && OnGrid(period, c') && FIRST <= c' <= c && c' <= rollbackTime && (c' == c || rollbackTime < c' + period)
    decreases c - rollbackTime
  {
    GridLow(period, c);
    if rollbackTime < c { StepDownFacts(period, c - period, rollbackTime); }
  }

  /** The checkpoint proposed for recovery is the latest one that no object of the manager is behind and
      that is not after the rollback time. */
  lemma StartTimeFacts(period: nat, m: Times, rollbackTime: int)
    requires period > 0 && Booked(period, m) && rollbackTime >= FIRST
    ensures var c := StartTime(period, m, rollbackTime);
            && OnGrid(period, c) && c <= rollbackTime && c <= Least(m.last)
            && forall g :: OnGrid(period, g) && g <= rollbackTime && g <= Least(m.last) ==> g <= c
  {
    var top :| Filled(period, m.keys, top);
    var least := Least(m.last);
    StepDownFacts(period, least, rollbackTime);
    var c := StartTime(period, m, rollbackTime);
    forall g | OnGrid(period, g) && g <= rollbackTime && g <= least ensures g <= c {
      if c < g { GridGap(period, c, g); }
    }
  }

  /** What is passed on is the latest checkpoint time not after the proposal and not after any of the manager's
      last checkpoints. */
  lemma LowerFacts(period: nat, m: Times, c: int)
    requires period > 0 && Booked(period, m) && OnGrid(period, c)
    ensures OnGrid(period, Lower(m, c)) && Lower(m, c) <= c && Lower(m, c) <= Least(m.last)
    ensures forall g :: OnGrid(period, g) && g <= c && g <= Least(m.last) ==> g <= Lower(m, c)
  {
    var top :| Filled(period, m.keys, top);
  }

  /** Every grid time not after the least last checkpoint has a checkpoint to restore. */
  lemma RestorableUpToLeast(period: nat, m: Times, c: int)
    requires period > 0 && Booked(period, m) && OnGrid(period, c) && c <= Least(m.last)
    ensures c in m.keys
  {
    var top :| Filled(period, m.keys, top);
  }

  lemma RestoreKeepsBooked(period: nat, m: Times, c: int)
    requires period > 0 && Booked(period, m) && c in m.keys
    ensures Booked(period, Restore(period, m, c))
  {
    var top :| Filled(period, m.keys, top);
    assert Filled(period, Restore(period, m, c).keys, top);
  }
}
