/** MatternGVTManager as an object: the fields of the manager and of its MatternObjectRecord, changed
    in place by the kernel's calls. Every method is proved to do what the step functions of GvtLocal
    say, so the theorems of GvtProtocol are about these methods. */
module GvtManager {
  import opened Wrappers
  import opened GvtLocal

  class MatternGVTManager {
    const id: nat
    const numberOfManagers: nat
    const infinity: VTime

    // MatternObjectRecord
    var color: Color
    var numberOfWhiteMessages: int
    var tokenIterationNumber: nat
    var tMin: Option<VTime>

    var gVTTokenPending: bool
    var gVT: VTime

    ghost function State(): Local
      reads this
    {
      Local(color, numberOfWhiteMessages, tMin, tokenIterationNumber, gVTTokenPending, gVT)
    }

    constructor (id: nat, numberOfManagers: nat, infinity: VTime, zero: VTime)
      requires id < numberOfManagers
      ensures this.id == id && this.numberOfManagers == numberOfManagers && this.infinity == infinity
      ensures State() == InitialLocal(zero)
    {
      this.id, this.numberOfManagers, this.infinity := id, numberOfManagers, infinity;
      color, numberOfWhiteMessages, tokenIterationNumber, tMin := White, 0, 0, None;
      gVTTokenPending, gVT := false, zero;
    }

    /** Called before an event leaves for another manager; returns the colour it carries. */
    method GetGVTInfo(sendTime: VTime) returns (info: Color)
      requires CanSend(State())
      modifies this
      ensures info == old(color)
      ensures State() == AfterSend(old(State()), sendTime)
    {
      info := color;
      if color == White {
        numberOfWhiteMessages := numberOfWhiteMessages + 1;
      } else if sendTime < tMin.value {
        tMin := Some(sendTime);
      }
    }

    method UpdateEventRecord(info: Color)
      modifies this
      ensures State() == AfterReceive(old(State()), info)
    {
      if info == White {
        numberOfWhiteMessages := numberOfWhiteMessages - 1;
      }
    }

    method SendGVTToken(lastScheduled: VTime, minimumTimeStamp: VTime) returns (sent: Token)
      requires id < numberOfManagers
      modifies this`tokenIterationNumber
      ensures tokenIterationNumber == old(tokenIterationNumber) + 1
      ensures sent == Token(RingSuccessor(id, numberOfManagers), lastScheduled, minimumTimeStamp, numberOfWhiteMessages)
    {
      var destination := 0;
      if id != numberOfManagers - 1 {
        destination := id + 1;
      }
      tokenIterationNumber := tokenIterationNumber + 1;
      sent := Token(destination, lastScheduled, minimumTimeStamp, numberOfWhiteMessages);
    }

    /** `clock` is the scheduler's last scheduled event time. With one manager the clock is the GVT. */
    method CalculateGVT(clock: VTime) returns (sent: seq<Token>)
      requires id == 0 < numberOfManagers
      modifies this
      ensures numberOfManagers > 1 ==>
                var o := AfterStart(old(State()), numberOfManagers, clock, infinity);
                State() == o.local && sent == o.tokens
      ensures numberOfManagers == 1 ==> State() == old(State()).(gvt := clock) && sent == []
    {
      sent := [];
      if numberOfManagers > 1 {
        if !gVTTokenPending {
          var token := SendGVTToken(clock, infinity);
          sent := [token];
          color := Red;
          numberOfWhiteMessages := 0;
          tMin := Some(infinity);
          gVTTokenPending := true;
        }
      } else {
        gVT := clock;
      }
    }

    method SendGVTUpdate() returns (sent: seq<Update>)
      requires id == 0 < numberOfManagers
      ensures sent == UpdatesFor(numberOfManagers, gVT)
    {
      sent := [];
      for c := 0 to numberOfManagers
        invariant |sent| == if c == 0 then 0 else c - 1
        invariant forall k :: 0 <= k < |sent| ==> sent[k] == Update(k + 1, gVT)
      {
        if id != c {
          sent := sent + [Update(c, gVT)];
        }
      }
    }

    /** Delivery of the circulating token. */
    method ReceiveToken(tok: Token, clock: VTime) returns (tokens: seq<Token>, updates: seq<Update>)
      requires id < numberOfManagers && CanForward(State(), id)
      modifies this
      ensures Outcome(State(), tokens, updates) == AfterToken(old(State()), id, numberOfManagers, tok, clock, infinity)
    {
      tokens, updates := [], [];
      if id == 0 {
        if tokenIterationNumber > 1 && numberOfWhiteMessages + tok.count == 0 {
          gVT := Min(tok.mClock, tok.mSend);
          tokenIterationNumber := 0;
          numberOfWhiteMessages := 0;
          color := White;
          updates := SendGVTUpdate();
          gVTTokenPending := false;
        } else {
          numberOfWhiteMessages := numberOfWhiteMessages + tok.count;
          var token := SendGVTToken(Min(tok.mClock, clock), Min(tok.mSend, tMin.value));
          tokens := [token];
          numberOfWhiteMessages := 0;
        }
      } else {
        if color == White {
          tMin := Some(infinity);
          color := Red;
        }
        numberOfWhiteMessages := numberOfWhiteMessages + tok.count;
        var token := SendGVTToken(Min(tok.mClock, clock), Min(tok.mSend, tMin.value));
        tokens := [token];
        numberOfWhiteMessages := 0;
      }
    }

    /** Delivery of a GVT update; the white count is deliberately not reset. */
    method ReceiveUpdate(newGVT: VTime)
      modifies this
      ensures gVT == newGVT && State() == AfterUpdate(old(State()), newGVT)
    {
      gVT := newGVT;
      tokenIterationNumber := 0;
      color := White;
    }
  }
}
