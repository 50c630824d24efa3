/** Recovery from a checkpoint over any number of managers: a ring round that puts everyone into recovery,
    a ring round that finds the newest checkpoint everyone has, and a broadcast of the result. One
    recovery episode; checkpoints and rollbacks go on wherever recovery has not arrived. The phases of
    the episode, with the one message (or the broadcast messages) under way in each, form an invariant
    that every step keeps. */
module RecoveryProtocol {
  import opened Wrappers
  import opened CheckpointTimes

  datatype Token = SEND_TO_MASTER | FIRST_CYCLE | SECOND_CYCLE | THIRD_CYCLE

  /** RestoreCkptMessage. */
  datatype Message = Message(dest: nat, checkpoint: int, token: Token)

  /** `inRecovery` is the simulation manager's flag, `recovering` the fossil manager's, `restored` the
      last restore time. */
  datatype Manager = Manager(times: Times, inRecovery: bool, recovering: bool, restored: Option<int>)

  function Peer(id: nat, n: nat): nat { if id + 1 == n then 0 else id + 1 }

  function Enter(m: Manager): Manager { m.(inRecovery := true, recovering := true) }

  function RestoreCheckpoint(period: nat, m: Manager, c: int): Manager {
    Manager(Restore(period, m.times, c), false, false, Some(c))
  }

  function StartRecovery(period: nat, m: Manager, id: nat, n: nat, rollbackTime: int): (Manager, seq<Message>)
    requires period > 0 && m.times.last != []
  {
    var c := StartTime(period, m.times, rollbackTime);
    if id != 0 then (m.(inRecovery := true), [Message(0, c, SEND_TO_MASTER)])
    else (Enter(m), [Message(Peer(0, n), c, FIRST_CYCLE)])
  }

  function Broadcast(n: nat, c: int): (out: seq<Message>)
    decreases n
  {
    if n <= 1 then [] else Broadcast(n - 1, c) + [Message(n - 1, c, THIRD_CYCLE)]
  }

  /** receiveKernelMessage. */
  function Receive(period: nat, m: Manager, id: nat, n: nat, msg: Message): (Manager, seq<Message>)
    requires period > 0 && m.times.last != []
  {
    var c := msg.checkpoint;
    if id == 0 then
      match msg.token
      case SEND_TO_MASTER => if m.recovering then (m, []) else (Enter(m), [Message(Peer(0, n), c, FIRST_CYCLE)])
      case FIRST_CYCLE => if m.recovering then (m, [Message(Peer(0, n), Lower(m.times, c), SECOND_CYCLE)]) else (m, [])
      case SECOND_CYCLE => if m.recovering then (RestoreCheckpoint(period, m, c), Broadcast(n, c)) else (m, [])
      case THIRD_CYCLE => (m, [])
    else
      match msg.token
      case SEND_TO_MASTER => (m, [])
      case FIRST_CYCLE => if m.recovering then (m, []) else (Enter(m), [Message(Peer(id, n), c, FIRST_CYCLE)])
      case SECOND_CYCLE =>
        if m.recovering then (m, [Message(Peer(id, n), Lower(m.times, c), SECOND_CYCLE)]) else (m, [])
      case THIRD_CYCLE => if m.recovering then (RestoreCheckpoint(period, m, c), []) else (m, [])
  }

  /** A round reaches a manager once: one that recovers already ignores a request to recover and, but for the
      master, the first round; one that does not recover ignores the later rounds. */
  lemma OnceOnly(period: nat, m: Manager, id: nat, n: nat, msg: Message)
    requires period > 0 && m.times.last != []
    requires if m.recovering then msg.token == SEND_TO_MASTER || (id != 0 && msg.token == FIRST_CYCLE)
             else msg.token == SECOND_CYCLE || msg.token == THIRD_CYCLE
    ensures Receive(period, m, id, n, msg) == (m, [])
  {
  }

  // ----- the system -----

  /** `start` is the rollback time that set recovery off. */
  datatype Sys = Sys(ms: seq<Manager>, net: multiset<Message>, start: Option<int>)

  datatype Step =
    | TakeCheckpoint(id: nat, obj: nat, time: int)
    | RollBack(id: nat, obj: nat, time: int)
    | Start(id: nat, rollbackTime: int)
    | Deliver(msg: Message)

  /** Objects neither execute nor roll back their checkpoint times during recovery. */
  ghost predicate Enabled(y: Sys, s: Step) {
    match s
    case TakeCheckpoint(id, obj, _) =>
      id < |y.ms| && !y.ms[id].inRecovery && obj < |y.ms[id].times.last| == |y.ms[id].times.next|
    case RollBack(id, obj, _) =>
      id < |y.ms| && !y.ms[id].inRecovery && obj < |y.ms[id].times.last| == |y.ms[id].times.next|
    case Start(id, rollbackTime) =>
      id < |y.ms| && y.start == None && rollbackTime >= FIRST && y.ms[id].times.last != []
    case Deliver(msg) => msg in y.net && msg.dest < |y.ms| && y.ms[msg.dest].times.last != []
  }

  ghost function Next(period: nat, y: Sys, s: Step): Sys
    requires period > 0 && Enabled(y, s)
  {
    match s
    case TakeCheckpoint(id, obj, t) =>
      y.(ms := y.ms[id := y.ms[id].(times := Checkpoint(period, y.ms[id].times, obj, t))])
    case RollBack(id, obj, t) =>
      y.(ms := y.ms[id := y.ms[id].(times := Update(period, y.ms[id].times, obj, t))])
    case Start(id, rollbackTime) =>
      var (m, out) := StartRecovery(period, y.ms[id], id, |y.ms|, rollbackTime);
      Sys(y.ms[id := m], y.net + multiset(out), Some(rollbackTime))
    case Deliver(msg) =>
      var (m, out) := Receive(period, y.ms[msg.dest], msg.dest, |y.ms|, msg);
      y.(ms := y.ms[msg.dest := m], net := y.net - multiset{msg} + multiset(out))
  }

  ghost predicate Initial(period: nat, y: Sys)
    requires period > 0
  {
    && y.ms != [] && y.net == multiset{} && y.start == None
    && forall i :: 0 <= i < |y.ms| ==>
         exists objects: nat ::
           objects > 0 && y.ms[i] == Manager(InitialCheckpoint(period, objects), false, false, None)
  }

  // ----- invariant -----

  /** Where the episode stands; `k` managers have been passed by the current ring round. */
  datatype Phase = Idle | ToMaster(c: int) | First(k: nat, c: int) | Second(k: nat, c: int)
    | Third(c: int, waiting: set<nat>)

  /** Messages still to be received. */
  ghost function Rank(ph: Phase, n: nat): int {
    match ph
    case Idle => 3 * n
    case ToMaster(_) => 3 * n
    case First(k, _) => 3 * n - k
    case Second(k, _) => 2 * n - k
    case Third(_, w) => |w|
  }

  ghost function Thirds(w: set<nat>, c: int): multiset<Message> {
    multiset(set i | i in w :: Message(i, c, THIRD_CYCLE))
  }

  function Ring(k: nat, n: nat): nat { if k == n then 0 else k }

  ghost predicate AllBooked(period: nat, ms: seq<Manager>)
    requires period > 0
  {
    forall i :: 0 <= i < |ms| ==> BookedAt(period, ms, i)
  }

  ghost predicate BookedAt(period: nat, ms: seq<Manager>, i: int)
    requires period > 0 && 0 <= i < |ms|
  {
    Booked(period, ms[i].times)
  }

  /** A checkpoint time the episode may end with: on the grid and not after the rollback time. */
  ghost predicate Fit(period: nat, c: int, start: Option<int>)
    requires period > 0
  {
    start.Some? && OnGrid(period, c) && c <= start.value
  }

  ghost predicate Untouched(m: Manager) { !m.recovering && m.restored == None }

  ghost predicate Caught(m: Manager) { m.recovering && m.inRecovery && m.restored == None }

  /** Caught, and it has every checkpoint up to `c`. */
  ghost predicate Agreed(period: nat, m: Manager, c: int)
    requires period > 0
  {
    Caught(m) && m.times.last != [] && c <= Least(m.times.last)
  }

  ghost predicate FirstShape(ms: seq<Manager>, k: nat)
    requires k <= |ms|
  {
    (forall i :: 0 <= i < k ==> Caught(ms[i])) && (forall i :: k <= i < |ms| ==> Untouched(ms[i]))
  }

  ghost predicate SecondShape(period: nat, ms: seq<Manager>, k: nat, c: int)
    requires period > 0 && k <= |ms|
  {
    (forall i :: 0 <= i < k ==> Agreed(period, ms[i], c)) && (forall i :: k <= i < |ms| ==> Caught(ms[i]))
  }

  ghost predicate ThirdShape(period: nat, ms: seq<Manager>, w: set<nat>, c: int)
    requires period > 0
  {
    && 0 !in w && (forall i :: i in w ==> i < |ms| && Agreed(period, ms[i], c))
    && (forall i :: 0 <= i < |ms| && i !in w ==> ms[i].restored == Some(c) && !ms[i].recovering)
  }

  ghost predicate InPhase(period: nat, y: Sys, ph: Phase)
    requires period > 0
  {
    var n := |y.ms|;
    match ph
    case Idle => y.net == multiset{} && y.start == None && forall i :: 0 <= i < n ==> Untouched(y.ms[i])
    case ToMaster(c) =>
      && y.net == multiset{Message(0, c, SEND_TO_MASTER)} && Fit(period, c, y.start)
      && forall i :: 0 <= i < n ==> Untouched(y.ms[i])
    case First(k, c) =>
      && 1 <= k <= n && y.net == multiset{Message(Ring(k, n), c, FIRST_CYCLE)} && Fit(period, c, y.start)
      && FirstShape(y.ms, k)
    case Second(k, c) =>
      && 1 <= k <= n && y.net == multiset{Message(Ring(k, n), c, SECOND_CYCLE)} && Fit(period, c, y.start)
      && SecondShape(period, y.ms, k, c)
    case Third(c, w) =>
      y.net == Thirds(w, c) && Fit(period, c, y.start) && ThirdShape(period, y.ms, w, c)
  }

  ghost predicate InvAt(period: nat, y: Sys, ph: Phase)
    requires period > 0
  {
    y.ms != [] && AllBooked(period, y.ms) && InPhase(period, y, ph)
  }

  /** Every manager but the master. */
  ghost function Others(n: nat): (w: set<nat>)
    ensures forall i :: i in w <==> 1 <= i < n
  {
    if n <= 1 then {} else Others(n - 1) + {n - 1}
  }

  lemma ThirdsFrom(w: set<nat>, c: int, msg: Message)
    ensures msg in Thirds(w, c) <==> msg.dest in w && msg == Message(msg.dest, c, THIRD_CYCLE)
    ensures msg in Thirds(w, c) ==> Thirds(w, c) - multiset{msg} == Thirds(w - {msg.dest}, c)
  {
    var s := set i | i in w :: Message(i, c, THIRD_CYCLE);
    if msg in Thirds(w, c) {
      var s' := set i | i in w - {msg.dest} :: Message(i, c, THIRD_CYCLE);
      forall x ensures x in s' <==> x in s && x != msg {
        if x in s && x != msg { assert x.dest in w - {msg.dest}; }
      }
      assert s' == s - {msg};
    }
  }

  lemma {:induction false} BroadcastReaches(n: nat, c: int)
    ensures multiset(Broadcast(n, c)) == Thirds(Others(n), c)
  {
    var w := Others(n);
    if n <= 1 {
      assert w == {};
      assert (set i | i in w :: Message(i, c, THIRD_CYCLE)) == {};
    } else {
      BroadcastReaches(n - 1, c);
      var msg := Message(n - 1, c, THIRD_CYCLE);
      ThirdsFrom(w, c, msg);
      assert w - {n - 1} == Others(n - 1);
      assert Thirds(w, c) == Thirds(w, c) - multiset{msg} + multiset{msg};
    }
  }

  // ----- every step keeps it -----

  lemma BookkeepingKeeps(period: nat, y: Sys, id: nat, m: Manager, ph: Phase)
    requires period > 0 && InvAt(period, y, ph) && id < |y.ms| && !y.ms[id].inRecovery
    requires m == y.ms[id].(times := m.times) && Booked(period, m.times)
    ensures InvAt(period, y.(ms := y.ms[id := m]), ph)
  {
    BookedUpdate(period, y.ms, id, m);
  }

  lemma StartKeeps(period: nat, y: Sys, id: nat, rollbackTime: int, ph: Phase) returns (ph': Phase)
    requires period > 0 && InvAt(period, y, ph) && Enabled(y, Start(id, rollbackTime))
    ensures InvAt(period, Next(period, y, Start(id, rollbackTime)), ph') && Rank(ph', |y.ms|) <= Rank(ph, |y.ms|)
  {
    assert BookedAt(period, y.ms, id);
    StartTimeFacts(period, y.ms[id].times, rollbackTime);
    BookedUpdate(period, y.ms, id, StartRecovery(period, y.ms[id], id, |y.ms|, rollbackTime).0);
    var c := StartTime(period, y.ms[id].times, rollbackTime);
    ph' := if id == 0 then First(1, c) else ToMaster(c);
  }

  lemma ToMasterKeeps(period: nat, y: Sys, msg: Message, ph: Phase) returns (ph': Phase)
    requires period > 0 && InvAt(period, y, ph) && Enabled(y, Deliver(msg)) && ph.ToMaster?
    ensures InvAt(period, Next(period, y, Deliver(msg)), ph') && Rank(ph', |y.ms|) < Rank(ph, |y.ms|)
  {
    ph' := First(1, ph.c);
    assert y.net - multiset{msg} == multiset{};
    assert BookedAt(period, y.ms, 0);
    BookedUpdate(period, y.ms, 0, Enter(y.ms[0]));
  }

  /** What one delivery changes, by the kind of message and receiver. */
  lemma PassOnEffect(period: nat, y: Sys, msg: Message, c: int)
    requires period > 0 && Enabled(y, Deliver(msg)) && y.net == multiset{msg}
    requires if msg.dest == 0 then msg.token == FIRST_CYCLE else msg.token == SECOND_CYCLE
    requires y.ms[msg.dest].recovering && c == Lower(y.ms[msg.dest].times, msg.checkpoint)
    ensures Next(period, y, Deliver(msg)) == y.(net := multiset{Message(Peer(msg.dest, |y.ms|), c, SECOND_CYCLE)})
  {
    assert y.ms[msg.dest := y.ms[msg.dest]] == y.ms;
    assert y.net - multiset{msg} == multiset{};
  }

  lemma EnterEffect(period: nat, y: Sys, msg: Message)
    requires period > 0 && Enabled(y, Deliver(msg)) && y.net == multiset{msg}
    requires msg.token == FIRST_CYCLE && msg.dest != 0 && !y.ms[msg.dest].recovering
    ensures Next(period, y, Deliver(msg)) ==
            y.(ms := y.ms[msg.dest := Enter(y.ms[msg.dest])],
               net := multiset{Message(Peer(msg.dest, |y.ms|), msg.checkpoint, FIRST_CYCLE)})
  {
    assert y.net - multiset{msg} == multiset{};
  }

  /** The delivery that makes its receiver restore a checkpoint. */
  ghost predicate Restores(period: nat, y: Sys, msg: Message)
    requires period > 0 && Enabled(y, Deliver(msg))
  {
    y.ms[msg.dest].recovering && (if msg.dest == 0 then msg.token == SECOND_CYCLE else msg.token == THIRD_CYCLE)
  }

  lemma RestoreEffect(period: nat, y: Sys, msg: Message)
    requires period > 0 && Enabled(y, Deliver(msg)) && Restores(period, y, msg)
    ensures Next(period, y, Deliver(msg)) ==
            y.(ms := y.ms[msg.dest := RestoreCheckpoint(period, y.ms[msg.dest], msg.checkpoint)],
               net := y.net - multiset{msg} + multiset(if msg.dest == 0 then Broadcast(|y.ms|, msg.checkpoint) else []))
  {
  }

  lemma FirstPasses(period: nat, y: Sys, msg: Message, ph: Phase) returns (ph': Phase)
    requires period > 0 && InvAt(period, y, ph) && Enabled(y, Deliver(msg)) && ph.First? && ph.k < |y.ms|
    ensures InvAt(period, Next(period, y, Deliver(msg)), ph') && Rank(ph', |y.ms|) < Rank(ph, |y.ms|)
  {
    assert msg == Message(ph.k, ph.c, FIRST_CYCLE);
    EnterEffect(period, y, msg);
    assert BookedAt(period, y.ms, ph.k);
    BookedUpdate(period, y.ms, ph.k, Enter(y.ms[ph.k]));
    ph' := First(ph.k + 1, ph.c);
  }

  lemma FirstReturns(period: nat, y: Sys, msg: Message, ph: Phase) returns (ph': Phase)
    requires period > 0 && InvAt(period, y, ph) && Enabled(y, Deliver(msg)) && ph.First? && ph.k == |y.ms|
    ensures InvAt(period, Next(period, y, Deliver(msg)), ph') && Rank(ph', |y.ms|) < Rank(ph, |y.ms|)
  {
    assert msg == Message(0, ph.c, FIRST_CYCLE);
    var c' := Lower(y.ms[0].times, ph.c);
    PassOnEffect(period, y, msg, c');
    assert BookedAt(period, y.ms, 0);
    LowerFacts(period, y.ms[0].times, ph.c);
    ph' := Second(1, c');
  }

  lemma BookedUpdate(period: nat, ms: seq<Manager>, i: nat, m: Manager)
    requires period > 0 && AllBooked(period, ms) && i < |ms| && Booked(period, m.times)
    ensures AllBooked(period, ms[i := m])
  {
    var ms' := ms[i := m];
    forall k | 0 <= k < |ms| ensures BookedAt(period, ms', k) { assert BookedAt(period, ms, k); }
  }

  lemma OneMoreAgrees(period: nat, ms: seq<Manager>, k: nat, c: int, c': int)
    requires period > 0 && k < |ms| && SecondShape(period, ms, k, c)
    requires ms[k].times.last != [] && c' <= c && c' <= Least(ms[k].times.last)
    ensures SecondShape(period, ms, k + 1, c')
  {
  }

  lemma SecondPasses(period: nat, y: Sys, msg: Message, ph: Phase) returns (ph': Phase)
    requires period > 0 && InvAt(period, y, ph) && Enabled(y, Deliver(msg)) && ph.Second? && ph.k < |y.ms|
    ensures InvAt(period, Next(period, y, Deliver(msg)), ph') && Rank(ph', |y.ms|) < Rank(ph, |y.ms|)
  {
    var k, c' := ph.k, Lower(y.ms[ph.k].times, ph.c);
    assert msg == Message(k, ph.c, SECOND_CYCLE);
    PassOnEffect(period, y, msg, c');
    assert BookedAt(period, y.ms, k);
    LowerFacts(period, y.ms[k].times, ph.c);
    OneMoreAgrees(period, y.ms, k, ph.c, c');
    ph' := Second(k + 1, c');
  }

  /** A manager that has agreed restores, and its books stay right. */
  lemma RestoreBooked(period: nat, y: Sys, i: nat, c: int)
    requires period > 0 && AllBooked(period, y.ms) && i < |y.ms| && Agreed(period, y.ms[i], c) && OnGrid(period, c)
    ensures c in y.ms[i].times.keys && AllBooked(period, y.ms[i := RestoreCheckpoint(period, y.ms[i], c)])
  {
    assert BookedAt(period, y.ms, i);
    RestorableUpToLeast(period, y.ms[i].times, c);
    RestoreKeepsBooked(period, y.ms[i].times, c);
    BookedUpdate(period, y.ms, i, RestoreCheckpoint(period, y.ms[i], c));
  }

  lemma OneMoreRestored(period: nat, ms: seq<Manager>, w: set<nat>, c: int, i: nat)
    requires period > 0 && ThirdShape(period, ms, w, c) && i in w && i < |ms|
    ensures ThirdShape(period, ms[i := RestoreCheckpoint(period, ms[i], c)], w - {i}, c)
  {
  }

  lemma MasterRestored(period: nat, ms: seq<Manager>, c: int)
    requires period > 0 && ms != [] && SecondShape(period, ms, |ms|, c)
    ensures ThirdShape(period, ms[0 := RestoreCheckpoint(period, ms[0], c)], Others(|ms|), c)
  {
  }

  lemma SecondReturns(period: nat, y: Sys, msg: Message, ph: Phase) returns (ph': Phase)
    requires period > 0 && InvAt(period, y, ph) && Enabled(y, Deliver(msg)) && ph.Second? && ph.k == |y.ms|
    ensures InvAt(period, Next(period, y, Deliver(msg)), ph') && Rank(ph', |y.ms|) < Rank(ph, |y.ms|)
  {
    assert y.net - multiset{msg} == multiset{} && msg == Message(0, ph.c, SECOND_CYCLE);
    RestoreEffect(period, y, msg);
    BroadcastReaches(|y.ms|, ph.c);
    RestoreBooked(period, y, 0, ph.c);
    MasterRestored(period, y.ms, ph.c);
    ph' := Third(ph.c, Others(|y.ms|));
    OthersCount(|y.ms|);
  }

  lemma {:induction false} OthersCount(n: nat)
    requires n > 0
    ensures |Others(n)| == n - 1
  {
    if n > 1 { OthersCount(n - 1); }
  }

  lemma ThirdKeeps(period: nat, y: Sys, msg: Message, ph: Phase) returns (ph': Phase)
    requires period > 0 && InvAt(period, y, ph) && Enabled(y, Deliver(msg)) && ph.Third?
    ensures InvAt(period, Next(period, y, Deliver(msg)), ph') && Rank(ph', |y.ms|) < Rank(ph, |y.ms|)
  {
    var i := msg.dest;
    ThirdsFrom(ph.waiting, ph.c, msg);
    RestoreEffect(period, y, msg);
    RestoreBooked(period, y, i, ph.c);
    OneMoreRestored(period, y.ms, ph.waiting, ph.c, i);
    ph' := Third(ph.c, ph.waiting - {i});
  }

  lemma DeliverKeeps(period: nat, y: Sys, msg: Message, ph: Phase) returns (ph': Phase)
    requires period > 0 && InvAt(period, y, ph) && Enabled(y, Deliver(msg))
    ensures InvAt(period, Next(period, y, Deliver(msg)), ph') && Rank(ph', |y.ms|) < Rank(ph, |y.ms|)
  {
    match ph
    case ToMaster(_) => ph' := ToMasterKeeps(period, y, msg, ph);
    case First(k, _) =>
      if k == |y.ms| { ph' := FirstReturns(period, y, msg, ph); } else { ph' := FirstPasses(period, y, msg, ph); }
    case Second(k, _) =>
      if k == |y.ms| { ph' := SecondReturns(period, y, msg, ph); } else { ph' := SecondPasses(period, y, msg, ph); }
    case Third(_, _) => ph' := ThirdKeeps(period, y, msg, ph);
  }

  lemma StepKeeps(period: nat, y: Sys, s: Step, ph: Phase) returns (ph': Phase)
    requires period > 0 && InvAt(period, y, ph) && Enabled(y, s)
    ensures InvAt(period, Next(period, y, s), ph') && |Next(period, y, s).ms| == |y.ms|
    ensures Rank(ph', |y.ms|) <= Rank(ph, |y.ms|) - (if s.Deliver? then 1 else 0)
  {
    match s
    case TakeCheckpoint(id, obj, t) =>
      assert BookedAt(period, y.ms, id);
      CheckpointKeepsBooked(period, y.ms[id].times, obj, t);
      BookkeepingKeeps(period, y, id, y.ms[id].(times := Checkpoint(period, y.ms[id].times, obj, t)), ph);
      ph' := ph;
    case RollBack(id, obj, t) =>
      assert BookedAt(period, y.ms, id);
      UpdateKeepsBooked(period, y.ms[id].times, obj, t);
      BookkeepingKeeps(period, y, id, y.ms[id].(times := Update(period, y.ms[id].times, obj, t)), ph);
      ph' := ph;
    case Start(id, rollbackTime) => ph' := StartKeeps(period, y, id, rollbackTime, ph);
    case Deliver(msg) => ph' := DeliverKeeps(period, y, msg, ph);
  }
}
