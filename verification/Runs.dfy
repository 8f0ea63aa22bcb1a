/**
 Runs that any sender and receiver can play, built step by step: filling and transmitting a
 window, delivering part of it, acknowledging that part, and repeating this up to a chosen block.
 */
module Runs {
  import opened Wire
  import opened Blocks
  import opened Slots
  import opened Sender
  import opened RingBuffer
  import opened Network

  /** A reachable world whose sender has only ever accepted ACKs for outstanding blocks. */
  ghost predicate Steady(t: Transfer, u: World) {
    && t.Valid()
    && Reachable(t, u)
    && Honest(t, u.inputs)
    && CounterInv(t, SenderOf(t, u))
  }

  function Full(t: Transfer, u: World): nat
    requires Legal(t, u.inputs)
  {
    Min(SenderOf(t, u).ackedTotal + t.window, BlockCount(t))
  }

  /** Only the sender has moved on, within its round. */
  ghost predicate SameRound(t: Transfer, u: World, v: World) {
    && Steady(t, u)
    && Steady(t, v)
    && v.acks == u.acks
    && v.receiver == u.receiver
    && SenderOf(t, v).ackedTotal == SenderOf(t, u).ackedTotal
    && Full(t, v) == Full(t, u)
    && (WorldInv(t, u) && Full(t, u) < WORDS ==> WorldInv(t, v))
    && (Tidy(t, u) && SameLap(SenderOf(t, u).ackedTotal + 1, Full(t, u), t.window) ==> Tidy(t, v))
  }

  /** The ring is intact, and so is the account of what was sent. */
  ghost predicate Tidy(t: Transfer, u: World) {
    WireInv(t, u.inputs) && RingInv(t, SenderOf(t, u))
  }

  lemma {:induction false} LapShrinks(low: nat, mid: nat, high: nat, w: nat)
    requires 1 <= w && low <= mid <= high && SameLap(low, high, w)
    ensures SameLap(low, mid, w)
  {
  }

  lemma {:induction false} StaysTidy(t: Transfer, u: World, v: World)
    requires Steady(t, u) && Tidy(t, u) && Enabled(t, SenderOf(t, u), Proceed)
    requires SameLap(SenderOf(t, u).ackedTotal + 1, Full(t, u), t.window)
    requires v.inputs == u.inputs + [Proceed]
    ensures Legal(t, v.inputs) && Tidy(t, v)
  {
    var s := SenderOf(t, u);
    Extend(t, u.inputs, Proceed);
    StepFrame(t, s, Proceed);
    ReadsWithinWindow(t, s);
    if s.ackedTotal < Step(t, s, Proceed).readTotal {
      LapShrinks(s.ackedTotal + 1, Step(t, s, Proceed).readTotal, Full(t, u), t.window);
      StepKeepsRing(t, s, Proceed);
    }
    StepKeepsWire(t, u.inputs, Proceed);
  }

  lemma {:induction false} ReadsWithinWindow(t: Transfer, s: State)
    requires CounterInv(t, s) && Enabled(t, s, Proceed)
    ensures Step(t, s, Proceed).readTotal <= Min(s.ackedTotal + t.window, BlockCount(t))
  {
  }

  lemma {:induction false} StaysSteady(t: Transfer, u: World, v: World)
    requires Steady(t, u) && Enabled(t, SenderOf(t, u), Proceed)
    requires v == Moved(t, u, SenderMoves(Proceed))
    ensures Steady(t, v) && SenderOf(t, v) == Step(t, SenderOf(t, u), Proceed)
    ensures SenderOf(t, v).ackedTotal == SenderOf(t, u).ackedTotal
  {
    var s := SenderOf(t, u);
    MoveReachable(t, u, SenderMoves(Proceed));
    StepCounts(t, s, Proceed);
    Extend(t, u.inputs, Proceed);
    ExtendHonest(t, u.inputs, Proceed);
    StepKeepsCounters(t, s, Proceed);
  }

  lemma {:induction false} StaysSafe(t: Transfer, u: World, v: World)
    requires Steady(t, u) && WorldInv(t, u) && Enabled(t, SenderOf(t, u), Proceed) && Full(t, u) < WORDS
    requires v == Moved(t, u, SenderMoves(Proceed))
    ensures WorldInv(t, v)
  {
    ReadsWithinWindow(t, SenderOf(t, u));
    SenderMoveKeeps(t, u, Proceed);
  }

  lemma {:induction false} OneStep(t: Transfer, u: World) returns (v: World)
    requires Steady(t, u) && Enabled(t, SenderOf(t, u), Proceed)
    ensures SameRound(t, u, v)
    ensures SenderOf(t, v) == Step(t, SenderOf(t, u), Proceed)
    ensures v.inputs == u.inputs + [Proceed]
  {
    v := Moved(t, u, SenderMoves(Proceed));
    StaysSteady(t, u, v);
    if WorldInv(t, u) && Full(t, u) < WORDS {
      StaysSafe(t, u, v);
    }
    if Tidy(t, u) && SameLap(SenderOf(t, u).ackedTotal + 1, Full(t, u), t.window) {
      StaysTidy(t, u, v);
    }
  }

  lemma {:induction false} FillWindow(t: Transfer, u: World) returns (v: World)
    requires Steady(t, u) && SenderOf(t, u).phase.Filling?
    ensures SameRound(t, u, v)
    ensures SenderOf(t, v).phase.Filling? && !CanRead(t, SenderOf(t, v))
    ensures SenderOf(t, v).readTotal == Full(t, u)
    decreases BlockCount(t) - SenderOf(t, u).readTotal
  {
    if CanRead(t, SenderOf(t, u)) {
      var mid := OneStep(t, u);
      v := FillWindow(t, mid);
    } else {
      v := u;
    }
  }

  lemma {:induction false} SendWindow(t: Transfer, u: World) returns (v: World)
    requires Steady(t, u) && SenderOf(t, u).phase.Sending?
    ensures SameRound(t, u, v)
    ensures Listening(SenderOf(t, v))
    ensures SenderOf(t, v).phase == Sending(SenderOf(t, u).phase.attempt, SenderOf(t, u).count)
    ensures SenderOf(t, v).readTotal == SenderOf(t, u).readTotal
    ensures SenderOf(t, v).done == SenderOf(t, u).done
    decreases SenderOf(t, u).count - SenderOf(t, u).phase.next
  {
    if CanTransmit(SenderOf(t, u)) {
      var mid := OneStep(t, u);
      v := SendWindow(t, mid);
    } else {
      v := u;
    }
  }

  /** A whole first attempt: the window is filled and every block of it is sent. */
  lemma {:induction false} PlayAttempt(t: Transfer, u: World) returns (v: World)
    requires Steady(t, u) && SenderOf(t, u).phase.Filling?
    ensures SameRound(t, u, v)
    ensures Listening(SenderOf(t, v)) && SenderOf(t, v).phase.attempt == 1
    ensures SenderOf(t, v).readTotal == Full(t, u)
  {
    var filled := FillWindow(t, u);
    var begun := OneStep(t, filled);
    v := SendWindow(t, begun);
  }

  /** The receiver takes the blocks up to x, which are all on the wire. */
  lemma {:induction false} DeliverUpTo(t: Transfer, u: World, x: nat) returns (v: World)
    requires Steady(t, u) && WorldInv(t, u)
    requires u.receiver.last <= x <= Reached(SenderOf(t, u)) <= SenderOf(t, u).readTotal
    ensures Steady(t, v) && WorldInv(t, v)
    ensures v.inputs == u.inputs && v.acks == u.acks && v.receiver.last == x
    decreases x - u.receiver.last
  {
    if u.receiver.last == x {
      v := u;
    } else {
      var k := u.receiver.last + 1;
      var p := DataPacket(t, k);
      assert p in Sent(t, u.inputs);
      var mid := Moved(t, u, Delivers(p));
      MoveReachable(t, u, Delivers(p));
      DeliveryKeeps(t, u, p);
      var r' := ReceiveBlock(t, u.receiver, k);
      v := DeliverUpTo(t, mid, x);
    }
  }

  lemma {:induction false} AcknowledgeNow(t: Transfer, u: World) returns (v: World)
    requires Steady(t, u) && WorldInv(t, u)
    ensures Steady(t, v) && WorldInv(t, v)
    ensures v == u.(acks := u.acks + {u.receiver.last})
  {
    v := Moved(t, u, Acknowledges);
    MoveReachable(t, u, Acknowledges);
    MoveKeepsWorld(t, u, Acknowledges);
  }

  /** The sender hears that the receiver has everything up to its last block. */
  lemma {:induction false} HearAck(t: Transfer, u: World) returns (v: World)
    requires Steady(t, u) && WorldInv(t, u) && Listening(SenderOf(t, u))
    requires SenderOf(t, u).ackedTotal < u.receiver.last && u.receiver.last in u.acks
    ensures Steady(t, v) && WorldInv(t, v)
    ensures v.receiver == u.receiver && v.acks == u.acks
    ensures SenderOf(t, v) == Accept(t, SenderOf(t, u), u.receiver.last)
    ensures SenderOf(t, v).ackedTotal == u.receiver.last
  {
    var x, s := u.receiver.last, SenderOf(t, u);
    var input := Heard(Ack(x));
    assert Accepts(s, x) by {
      assert WindowIndex(s) == s.ackedTotal + 1;
    }
    AcceptedIsOutstanding(t, u, x);
    var s' := Step(t, s, input);
    assert s' == Accept(t, s, x) && s'.readTotal == s.readTotal;
    v := Moved(t, u, SenderMoves(input));
    MoveReachable(t, u, SenderMoves(input));
    SenderMoveKeeps(t, u, input);
    Extend(t, u.inputs, input);
  }

  /** One round after which exactly the blocks up to x are acknowledged. */
  lemma {:induction false} Advance(t: Transfer, u: World, x: nat) returns (v: World)
    requires Steady(t, u) && WorldInv(t, u) && SenderOf(t, u).phase.Filling?
    requires u.receiver.last == SenderOf(t, u).ackedTotal < x <= Full(t, u) < WORDS
    ensures Steady(t, v) && WorldInv(t, v)
    ensures SenderOf(t, v).ackedTotal == v.receiver.last == x && v.acks == u.acks + {x}
    ensures SenderOf(t, v).readTotal == Full(t, u)
    ensures SenderOf(t, v).phase == if Full(t, u) == BlockCount(t) then Ended(Completed) else Filling
  {
    var sent := PlayAttempt(t, u);
    var given := DeliverUpTo(t, sent, x);
    var acknowledged := AcknowledgeNow(t, given);
    v := HearAck(t, acknowledged);
  }

  /** The receiver has acknowledged every block up to n, and the request before them. */
  ghost predicate AcksUpTo(acks: set<u16>, n: nat) {
    forall k :: 0 <= k <= n ==> k in acks
  }

  lemma {:induction false} OneMoreAck(acks: set<u16>, n: nat)
    requires n + 1 < WORDS && AcksUpTo(acks, n)
    ensures AcksUpTo(acks + {n + 1}, n + 1)
  {
  }

  lemma {:induction false} Beginning(t: Transfer) returns (u: World)
    requires t.Valid()
    ensures Steady(t, u) && WorldInv(t, u) && u == World([], {0}, Receiver(0, [], false))
    ensures SenderOf(t, u) == Init(t)
  {
    StartReachable(t);
    StartSafe(t);
    u := AcknowledgeNow(t, Start());
  }

  /** The sender can be brought to any acknowledged count whose window ends by block 65536. */
  lemma {:induction false} DriveTo(t: Transfer, y: nat) returns (u: World)
    requires t.Valid()
    requires y == 0 || y + t.window <= Min(WORDS, BlockCount(t))
    ensures Steady(t, u) && WorldInv(t, u) && SenderOf(t, u).phase.Filling?
    ensures SenderOf(t, u).ackedTotal == u.receiver.last == y
    ensures SenderOf(t, u).readTotal == if y == 0 then 0 else y - 1 + t.window
    ensures AcksUpTo(u.acks, y)
  {
    if y == 0 {
      u := Beginning(t);
    } else {
      var before := DriveTo(t, y - 1);
      u := Advance(t, before, y);
      OneMoreAck(before.acks, y - 1);
    }
  }

  /** The receiver takes the blocks up to x and acknowledges every one of them. */
  lemma {:induction false} AcknowledgeEach(t: Transfer, u: World, x: nat) returns (v: World)
    requires Steady(t, u) && WorldInv(t, u)
    requires u.receiver.last <= x <= Reached(SenderOf(t, u)) <= SenderOf(t, u).readTotal
    requires AcksUpTo(u.acks, u.receiver.last)
    ensures Steady(t, v) && WorldInv(t, v)
    ensures v.inputs == u.inputs && v.receiver.last == x
    ensures AcksUpTo(v.acks, x)
    decreases x - u.receiver.last
  {
    if u.receiver.last == x {
      v := u;
    } else {
      var given := DeliverUpTo(t, u, u.receiver.last + 1);
      var acknowledged := AcknowledgeNow(t, given);
      OneMoreAck(u.acks, u.receiver.last);
      v := AcknowledgeEach(t, acknowledged, x);
    }
  }

  /** Every 16-bit number is on the network as an acknowledgement. */
  predicate AllAcks(u: World) {
    forall x: u16 :: x in u.acks
  }

  /** The sender stands at block 65535, and so does the receiver, which acknowledged all before it. */
  lemma {:induction false} ReachWrap(t: Transfer) returns (u: World)
    requires t.Valid() && BlockCount(t) >= WORDS
    ensures Steady(t, u) && SenderOf(t, u).phase.Filling? && AllAcks(u)
    ensures SenderOf(t, u).ackedTotal == WORDS - 1
    ensures u.receiver == Receiver(WORDS - 1, t.file[..EndOf(t, WORDS - 1)], false)
    ensures Tidy(t, u)
  {
    var early := DriveTo(t, WORDS - 1 - t.window);
    var sent := PlayAttempt(t, early);
    var acknowledged := AcknowledgeEach(t, sent, WORDS - 1);
    u := HearAck(t, acknowledged);
  }

  /** An ACK with the number of the next block moves the sender on, old as it may be. */
  lemma {:induction false} NextNumberAccepted(t: Transfer, s: State)
    requires CounterInv(t, s) && Listening(s)
    ensures Accepts(s, Wrap(s.ackedTotal + 1))
    ensures Accept(t, s, Wrap(s.ackedTotal + 1)).ackedTotal == s.ackedTotal + 1 <= s.readTotal
  {
    WrappedSum(s.ackedTotal, 1);
    WrappedDistance(s.ackedTotal + 1, s.ackedTotal + 1);
  }

  lemma {:induction false} NextNumberStep(t: Transfer, s: State, input: Input)
    requires CounterInv(t, s) && Listening(s) && input == Heard(Ack(Wrap(s.ackedTotal + 1)))
    ensures Enabled(t, s, input) && Output(t, s, input) == []
    ensures var s' := Step(t, s, input);
            && CounterInv(t, s')
            && s'.ackedTotal == s.ackedTotal + 1 <= s'.readTotal == s.readTotal
            && s'.phase == if s.done then Ended(Completed) else Filling
  {
    NextNumberAccepted(t, s);
    StepKeepsCounters(t, s, input);
  }

  /** The sender hears an old ACK with the number of the next block; the receiver has no part in it. */
  lemma {:induction false} HearNextNumber(t: Transfer, u: World) returns (v: World)
    requires Steady(t, u) && AllAcks(u) && Listening(SenderOf(t, u))
    ensures Steady(t, v) && v.receiver == u.receiver && v.acks == u.acks
    ensures SenderOf(t, v).ackedTotal == SenderOf(t, u).ackedTotal + 1
    ensures SenderOf(t, v).readTotal == SenderOf(t, u).readTotal
    ensures SenderOf(t, v).phase == if SenderOf(t, u).done then Ended(Completed) else Filling
    ensures Sent(t, v.inputs) == Sent(t, u.inputs)
  {
    var input := Heard(Ack(Wrap(SenderOf(t, u).ackedTotal + 1)));
    NextNumberStep(t, SenderOf(t, u), input);
    v := Moved(t, u, SenderMoves(input));
    MoveReachable(t, u, SenderMoves(input));
    Extend(t, u.inputs, input);
    ExtendHonest(t, u.inputs, input);
  }

  /** One round that ends with an old ACK. */
  lemma {:induction false} BlindRound(t: Transfer, u: World) returns (v: World)
    requires Steady(t, u) && SenderOf(t, u).phase.Filling? && AllAcks(u)
    ensures Steady(t, v) && v.receiver == u.receiver && v.acks == u.acks
    ensures SenderOf(t, v).ackedTotal == SenderOf(t, u).ackedTotal + 1
    ensures SenderOf(t, v).phase == Filling || SenderOf(t, v).phase == Ended(Completed)
  {
    var sent := PlayAttempt(t, u);
    v := HearNextNumber(t, sent);
  }

  /** Old ACKs carry the sender to the end of the file by themselves. */
  lemma {:induction false} BlindRun(t: Transfer, u: World) returns (v: World)
    requires Steady(t, u) && SenderOf(t, u).phase.Filling? && AllAcks(u)
    ensures Steady(t, v) && v.receiver == u.receiver
    ensures SenderOf(t, v).phase == Ended(Completed)
    decreases BlockCount(t) - SenderOf(t, u).ackedTotal
  {
    v := BlindRound(t, u);
    if SenderOf(t, v).phase.Filling? {
      v := BlindRun(t, v);
    }
  }
}
