module GvtLocal {
  // The part of the Mattern GVT algorithm that runs inside one simulation manager.
  //
  // `Local` is the state of one MatternGVTManager together with its MatternObjectRecord. Each function
  // below is the effect of one entry point of the manager, on values; the class in GvtManager.dfy carries
  // the same steps out on mutable fields.

  import opened Wrappers

  type VTime = int

  datatype Color = White | Red

  /** `white` counts white messages sent minus white messages received since the token last left. */
  datatype Local = Local(
    color: Color,
    white: int,
    tMin: Option<VTime>,
    iteration: nat,
    pending: bool,
    gvt: VTime)

  /** The circulating control message: `count` is the number of white messages believed in transit. */
  datatype Token = Token(dest: nat, mClock: VTime, mSend: VTime, count: int)

  datatype Update = Update(dest: nat, gvt: VTime)

  /** New local state plus the control messages handed to the communication manager. */
  datatype Outcome = Outcome(local: Local, tokens: seq<Token>, updates: seq<Update>)

  function Min(x: VTime, y: VTime): VTime {
    if x < y then x else y
  }

  function InitialLocal(gvt: VTime): Local {
    Local(White, 0, None, 0, false, gvt)
  }

  /** tMin is dereferenced whenever an event leaves a red manager. */
  predicate CanSend(l: Local) {
    l.color.Red? ==> l.tMin.Some?
  }

  function AfterSend(l: Local, sendTime: VTime): Local
    requires CanSend(l)
  {
    match l.color
    case White => l.(white := l.white + 1)
    case Red => l.(tMin := Some(Min(l.tMin.value, sendTime)))
  }

  function AfterReceive(l: Local, c: Color): Local {
    if c.White? then l.(white := l.white - 1) else l
  }

  function RingSuccessor(id: nat, n: nat): (next: nat)
    requires id < n
    ensures next < n
    ensures next != 0 ==> next == id + 1
    ensures next == 0 ==> id == n - 1
  {
    if id != n - 1 then id + 1 else 0
  }

  function AfterStart(l: Local, n: nat, clock: VTime, infinity: VTime): Outcome
    requires n > 1
  {
    if l.pending then Outcome(l, [], []) else
    Outcome(l.(color := Red, white := 0, tMin := Some(infinity), iteration := l.iteration + 1, pending := true),
            [Token(1, clock, infinity, l.white)], [])
  }

  /** The updates the initiator sends: one to every manager but itself. */
  function UpdatesFor(n: nat, gvt: VTime): (us: seq<Update>)
    requires n > 0
    ensures |us| == n - 1
    ensures forall k :: 0 <= k < n - 1 ==> us[k] == Update(k + 1, gvt)
  {
    seq(n - 1, (k: nat) => Update(k + 1, gvt))
  }

  /** Every manager but the initiator gets exactly one update, with the new value; nobody gets another. */
  lemma {:induction false} UpdatesReachOthers(n: nat, gvt: VTime, u: Update)
    requires n > 0
    ensures multiset(UpdatesFor(n, gvt))[u] == if 1 <= u.dest < n && u.gvt == gvt then 1 else 0
  {
    if n > 1 {
      UpdatesReachOthers(n - 1, gvt, u);
      assert UpdatesFor(n, gvt) == UpdatesFor(n - 1, gvt) + [Update(n - 1, gvt)];
    }
  }

  /** The initiator's test that ends a cycle. */
  predicate Finishes(l: Local, tok: Token) {
    l.iteration > 1 && l.white + tok.count == 0
  }

  function NewGvt(tok: Token): VTime {
    Min(tok.mClock, tok.mSend)
  }

  /** A manager that is about to forward the token reads tMin. */
  predicate CanForward(l: Local, id: nat) {
    (id == 0 || l.color.Red?) ==> l.tMin.Some?
  }

  function Forward(l: Local, id: nat, n: nat, tok: Token, clock: VTime): Outcome
    requires id < n && l.tMin.Some?
  {
    Outcome(l.(white := 0, iteration := l.iteration + 1),
            [Token(RingSuccessor(id, n), Min(tok.mClock, clock), Min(tok.mSend, l.tMin.value), l.white + tok.count)],
            [])
  }

  function TurnRed(l: Local, infinity: VTime): Local {
    if l.color.White? then l.(color := Red, tMin := Some(infinity)) else l
  }

  function AfterToken(l: Local, id: nat, n: nat, tok: Token, clock: VTime, infinity: VTime): Outcome
    requires id < n && CanForward(l, id)
  {
    if id == 0 then
      if Finishes(l, tok) then
        Outcome(l.(gvt := NewGvt(tok), iteration := 0, white := 0, color := White, pending := false),
                [], UpdatesFor(n, NewGvt(tok)))
      else
        Forward(l, id, n, tok, clock)
    else
      Forward(TurnRed(l, infinity), id, n, tok, clock)
  }

  function AfterUpdate(l: Local, gvt: VTime): Local {
    l.(gvt := gvt, iteration := 0, color := White)
  }
}
