/**
 A transfer over a network that loses nothing and keeps the order, to a receiver that acknowledges
 what it holds at the end of each window (section 4 of RFC 7440): the one run there is, how it
 ends, and for which transfers the file arrives.
 */
module Lockstep {
  import opened Wire
  import opened Arithmetic
  import opened Blocks
  import opened Slots
  import opened Sender
  import opened RingBuffer
  import opened Network
  import opened Deliveries
  import opened Turns

  /** What happens next: a block is read, or sent and delivered, or the window is acknowledged. */
  ghost function Tick(t: Transfer, u: World): World
    requires Legal(t, u.inputs)
  {
    var s := SenderOf(t, u);
    if s.phase.Filling? then
      Moved(t, u, SenderMoves(Proceed))
    else if CanTransmit(s) then
      Moved(t, Moved(t, u, SenderMoves(Proceed)), Delivers(Output(t, s, Proceed)[0]))
    else if Listening(s) then
      Moved(t, Moved(t, u, Acknowledges), SenderMoves(Heard(Ack(u.receiver.last))))
    else
      u
  }

  lemma {:induction false} TickLegal(t: Transfer, u: World)
    requires Legal(t, u.inputs)
    ensures Legal(t, Tick(t, u).inputs)
  {
    var s := SenderOf(t, u);
    if s.phase.Filling? || CanTransmit(s) {
      Extend(t, u.inputs, Proceed);
    } else if Listening(s) {
      Extend(t, u.inputs, Heard(Ack(u.receiver.last)));
    }
  }

  lemma {:induction false} TickReachable(t: Transfer, u: World)
    requires Legal(t, u.inputs) && Reachable(t, u)
    ensures Reachable(t, Tick(t, u))
  {
    var s := SenderOf(t, u);
    if s.phase.Filling? || CanTransmit(s) {
      Extend(t, u.inputs, Proceed);
      MoveReachable(t, u, SenderMoves(Proceed));
      if CanTransmit(s) {
        MoveReachable(t, Moved(t, u, SenderMoves(Proceed)), Delivers(Output(t, s, Proceed)[0]));
      }
    } else if Listening(s) {
      MoveReachable(t, u, Acknowledges);
      MoveReachable(t, Moved(t, u, Acknowledges), SenderMoves(Heard(Ack(u.receiver.last))));
    }
  }

  /** The world n ticks after u. */
  ghost function Ticks(t: Transfer, u: World, n: nat): (v: World)
    requires Legal(t, u.inputs)
    ensures Legal(t, v.inputs)
    decreases n
  {
    if n == 0 then
      u
    else
      TickLegal(t, u);
      Ticks(t, Tick(t, u), n - 1)
  }

  /** It is a run of the sender, the receiver and the network. */
  lemma {:induction false} TicksReachable(t: Transfer, u: World, n: nat)
    requires Legal(t, u.inputs) && Reachable(t, u)
    ensures Reachable(t, Ticks(t, u, n))
    decreases n
  {
    if n > 0 {
      TickLegal(t, u);
      TickReachable(t, u);
      TicksReachable(t, Tick(t, u), n - 1);
    }
  }

  lemma {:induction false} LastTick(t: Transfer, u: World, n: nat)
    requires Legal(t, u.inputs)
    ensures Ticks(t, u, n + 1) == Tick(t, Ticks(t, u, n))
    decreases n
  {
    TickLegal(t, u);
    if n > 0 {
      LastTick(t, Tick(t, u), n - 1);
    }
  }

  ghost predicate Delivered(t: Transfer, u: World)
    requires Legal(t, u.inputs)
  {
    SenderOf(t, u).phase == Ended(Completed) && u.receiver.finished && u.receiver.data == t.file
  }

  /** With a world, all that come after it are among these. */
  ghost predicate Closed(t: Transfer, run: iset<World>) {
    forall u {:trigger Tick(t, u)} :: u in run && Legal(t, u.inputs) ==> Tick(t, u) in run
  }

  /** Once the sender has ended nothing changes any more. */
  lemma {:induction false} EndedTick(t: Transfer, u: World)
    requires Legal(t, u.inputs) && SenderOf(t, u).phase.Ended?
    ensures Tick(t, u) == u
  {
  }

  lemma {:induction false} EndedTicks(t: Transfer, u: World, n: nat)
    requires Legal(t, u.inputs) && SenderOf(t, u).phase.Ended?
    ensures Ticks(t, u, n) == u
    decreases n
  {
    if n > 0 {
      EndedTick(t, u);
      EndedTicks(t, u, n - 1);
    }
  }

  /** The run ends in one way only. */
  lemma {:induction false} OneEnd(t: Transfer, u: World, n: nat, m: nat)
    requires Legal(t, u.inputs)
    requires SenderOf(t, Ticks(t, u, n)).phase.Ended? && SenderOf(t, Ticks(t, u, m)).phase.Ended?
    ensures Ticks(t, u, n) == Ticks(t, u, m)
    decreases n
  {
    if n == 0 {
      EndedTicks(t, u, m);
    } else if m == 0 {
      EndedTicks(t, u, n);
    } else {
      TickLegal(t, u);
      OneEnd(t, Tick(t, u), n - 1, m - 1);
    }
  }

  // ---------------------------------------------------------------------------------------
  // What the slots of outstanding blocks hold

  ghost predicate Kept(t: Transfer, s: State, k: nat) {
    WellFormed(t, s) && 1 <= k && s.slots[Slot(k, t.window)] == DataPacket(t, k)
  }

  /** Every outstanding block is in its slot, or lost to a block beyond a wrap. */
  ghost predicate KeptOrLost(t: Transfer, s: State) {
    forall k :: s.ackedTotal < k <= s.readTotal ==> Kept(t, s, k) || Lost(t, s, k)
  }

  lemma {:induction false} PushKeptOrLost(t: Transfer, s: State, k: nat)
    requires CounterInv(t, s) && KeptOrLost(t, s) && CanRead(t, s) && s.ackedTotal < k <= s.readTotal
    ensures Kept(t, Push(t, s), k) || Lost(t, Push(t, s), k)
  {
    var j, s' := s.readTotal + 1, Push(t, s);
    PushStoresPacket(t, s);
    if Slot(k, t.window) == Slot(j, t.window) {
      ClashIsAcrossWrap(k, j, t.window);
      assert Took(t, s', k, j);
    } else if Lost(t, s, k) {
      var i :| Took(t, s, k, i);
      PushStaysLost(t, s, k, i);
    }
  }

  lemma {:induction false} PushIsKept(t: Transfer, s: State)
    requires CounterInv(t, s) && CanRead(t, s)
    ensures Kept(t, Push(t, s), s.readTotal + 1)
  {
    PushStoresPacket(t, s);
  }

  lemma {:induction false} StepKeptOrLost(t: Transfer, s: State, input: Input)
    requires CounterInv(t, s) && KeptOrLost(t, s) && Enabled(t, s, input)
    ensures KeptOrLost(t, Step(t, s, input))
  {
    var s' := Step(t, s, input);
    StepFrame(t, s, input);
    forall k | s'.ackedTotal < k <= s'.readTotal ensures Kept(t, s', k) || Lost(t, s', k) {
      if input.Proceed? && CanRead(t, s) {
        if k == s.readTotal + 1 {
          PushIsKept(t, s);
        } else {
          PushKeptOrLost(t, s, k);
        }
      } else if Lost(t, s, k) {
        StaysLost(t, s, input, k);
      }
    }
  }

  lemma {:induction false} HonestKeptOrLost(t: Transfer, inputs: seq<Input>)
    requires Honest(t, inputs)
    ensures KeptOrLost(t, StateAfter(t, inputs))
  {
    if inputs != [] {
      var before := inputs[..|inputs| - 1];
      HonestKeptOrLost(t, before);
      HonestCounters(t, before);
      StepKeptOrLost(t, StateAfter(t, before), inputs[|inputs| - 1]);
    }
  }

  // ---------------------------------------------------------------------------------------
  // One window

  lemma {:induction false} ReadTick(t: Transfer, run: iset<World>, u: World, i: nat) returns (v: World)
    requires t.Valid() && Closed(t, run) && u in run && Going(t, u.inputs) && SenderOf(t, u).phase.Filling?
    ensures v in run && Going(t, v.inputs) && v.receiver == u.receiver
    ensures SenderOf(t, v) == Step(t, SenderOf(t, u), Proceed)
    ensures Lost(t, SenderOf(t, u), i) ==> Lost(t, SenderOf(t, v), i)
  {
    v := Tick(t, u);
    ProceedCounts(t, SenderOf(t, u));
    Goes(t, u.inputs, Proceed);
    if Lost(t, SenderOf(t, u), i) {
      StaysLost(t, SenderOf(t, u), Proceed, i);
    }
  }

  /** The window is filled and the sender begins to send. */
  lemma {:induction false} FillTicks(t: Transfer, run: iset<World>, u: World, i: nat) returns (v: World)
    requires t.Valid() && Closed(t, run) && u in run && Going(t, u.inputs) && SenderOf(t, u).phase.Filling?
    ensures v in run && Going(t, v.inputs) && v.receiver == u.receiver
    ensures SenderOf(t, v).phase == Sending(1, 0) && SenderOf(t, v).ackedTotal == SenderOf(t, u).ackedTotal
    ensures SenderOf(t, v).readTotal == Min(SenderOf(t, u).ackedTotal + t.window, BlockCount(t))
    ensures Lost(t, SenderOf(t, u), i) ==> Lost(t, SenderOf(t, v), i)
    decreases BlockCount(t) - SenderOf(t, u).readTotal
  {
    v := ReadTick(t, run, u, i);
    if CanRead(t, SenderOf(t, u)) {
      v := FillTicks(t, run, v, i);
    }
  }

  /** The receiver passes over a block that is further ahead than the next. */
  lemma {:induction false} PassesAhead(t: Transfer, r: Receiver, m: nat, k: nat)
    requires Holds(t, r, m) && m + 1 < k < m + 1 + WORDS
    ensures Handed(t, r, k, r)
  {
    ReceivePacket(t.blockSize, r, Wrap(k), Payload(t, k));
    WrappedSum(m, 1);
    WrappedDistance(m + 1, k);
  }

  /** The receiver holds m blocks: all that were sent so far, or all before one that is lost. */
  ghost predicate UpTo(t: Transfer, s: State, r: Receiver, sent: nat, m: nat) {
    && Holds(t, r, m)
    && s.ackedTotal <= m <= sent
    && (m == sent || Lost(t, s, m + 1))
  }

  lemma {:induction false} TurnSends(t: Transfer, s: State) returns (k: nat)
    requires CounterInv(t, s) && KeptOrLost(t, s) && CanTransmit(s)
    ensures var turn := s.ackedTotal + s.phase.next + 1;
            && turn <= k <= s.readTotal
            && Output(t, s, Proceed) == [DataPacket(t, k)]
            && (Lost(t, s, turn) <==> turn < k)
  {
    k := s.ackedTotal + s.phase.next + 1;
    TransmitsTheSlot(t, s);
    if Lost(t, s, k) {
      k :| Took(t, s, s.ackedTotal + s.phase.next + 1, k);
    }
  }

  /** What a block at or ahead of the next one does to the receiver. */
  lemma {:induction false} HandedAhead(t: Transfer, r: Receiver, m: nat, k: nat) returns (r': Receiver, m': nat)
    requires Holds(t, r, m) && m + 1 <= k <= BlockCount(t) && k < m + 1 + WORDS
    ensures Handed(t, r, k, r') && Holds(t, r', m') && m' == if k == m + 1 then k else m
  {
    if k == m + 1 {
      m' := k;
      r' := TakesNext(t, r, k);
    } else {
      m', r' := m, r;
      PassesAhead(t, r, m, k);
    }
  }

  lemma {:induction false} OneMoreUpTo(t: Transfer, s: State, r: Receiver, sent: nat, m: nat, k: nat, m': nat)
    requires s.ackedTotal <= m <= sent && (m == sent || Lost(t, s, m + 1))
    requires sent + 1 <= k && (Lost(t, s, sent + 1) <==> sent + 1 < k)
    requires Holds(t, r, m') && m' == if k == m + 1 then k else m
    ensures UpTo(t, s, r, sent + 1, m') && (Lost(t, s, m + 1) ==> m' == m)
  {
    if m == sent {
      assert m + 1 == sent + 1;
    }
  }

  /** What the delivery of a block in its turn does to the receiver. */
  lemma {:induction false} TurnDelivers(t: Transfer, s: State, r: Receiver, m: nat) returns (k: nat, r': Receiver, m': nat)
    requires CounterInv(t, s) && KeptOrLost(t, s) && CanTransmit(s)
    requires UpTo(t, s, r, s.ackedTotal + s.phase.next, m)
    ensures 1 <= k && Output(t, s, Proceed) == [DataPacket(t, k)] && Handed(t, r, k, r')
    ensures UpTo(t, s, r', s.ackedTotal + s.phase.next + 1, m') && (Lost(t, s, m + 1) ==> m' == m)
  {
    k := TurnSends(t, s);
    r', m' := HandedAhead(t, r, m, k);
    OneMoreUpTo(t, s, r', s.ackedTotal + s.phase.next, m, k, m');
  }

  lemma {:induction false} SameLost(t: Transfer, s: State, s': State, i: nat)
    requires Lost(t, s, i) && WellFormed(t, s') && s'.slots == s.slots && s'.readTotal == s.readTotal
    ensures Lost(t, s', i)
  {
    var k :| Took(t, s, i, k);
    assert Took(t, s', i, k);
  }

  lemma {:induction false} SameUpTo(t: Transfer, s: State, s': State, r: Receiver, sent: nat, m: nat)
    requires UpTo(t, s, r, sent, m) && WellFormed(t, s')
    requires s'.slots == s.slots && s'.readTotal == s.readTotal && s'.ackedTotal == s.ackedTotal
    ensures UpTo(t, s', r, sent, m)
  {
    if m != sent {
      SameLost(t, s, s', m + 1);
    }
  }

  lemma {:induction false} TransmitOnly(t: Transfer, s: State)
    requires CounterInv(t, s) && CanTransmit(s)
    ensures var s' := Step(t, s, Proceed);
            && WellFormed(t, s')
            && s'.slots == s.slots && s'.readTotal == s.readTotal && s'.ackedTotal == s.ackedTotal
            && s'.count == s.count && s'.phase == Sending(s.phase.attempt, s.phase.next + 1)
  {
  }

  lemma {:induction false} DeliveryTick(t: Transfer, run: iset<World>, u: World, k: nat, r: Receiver) returns (v: World)
    requires Closed(t, run) && u in run && Legal(t, u.inputs) && CanTransmit(SenderOf(t, u))
    requires 1 <= k && Output(t, SenderOf(t, u), Proceed) == [DataPacket(t, k)] && Handed(t, u.receiver, k, r)
    ensures v in run && v.receiver == r && v.inputs == u.inputs + [Proceed]
  {
    v := Tick(t, u);
  }

  /** The sender has sent so many blocks, and the receiver holds m of them. */
  ghost predicate OnAir(t: Transfer, run: iset<World>, u: World, sent: nat, m: nat) {
    && t.Valid()
    && Closed(t, run)
    && u in run
    && Going(t, u.inputs)
    && SenderOf(t, u).phase.Sending?
    && sent == SenderOf(t, u).ackedTotal + SenderOf(t, u).phase.next
    && UpTo(t, SenderOf(t, u), u.receiver, sent, m)
  }

  lemma {:induction false} TurnTick(t: Transfer, run: iset<World>, u: World, sent: nat, m: nat) returns (v: World, m': nat)
    requires OnAir(t, run, u, sent, m) && CanTransmit(SenderOf(t, u))
    ensures v in run && v.inputs == u.inputs + [Proceed]
    ensures UpTo(t, SenderOf(t, u), v.receiver, sent + 1, m')
    ensures Lost(t, SenderOf(t, u), m + 1) ==> m' == m
  {
    HonestKeptOrLost(t, u.inputs);
    var k, r;
    k, r, m' := TurnDelivers(t, SenderOf(t, u), u.receiver, m);
    v := DeliveryTick(t, run, u, k, r);
  }

  lemma {:induction false} SendTick(t: Transfer, run: iset<World>, u: World, sent: nat, m: nat) returns (v: World, m': nat)
    requires OnAir(t, run, u, sent, m) && CanTransmit(SenderOf(t, u))
    ensures OnAir(t, run, v, sent + 1, m')
    ensures SenderOf(t, v) == Step(t, SenderOf(t, u), Proceed)
    ensures Lost(t, SenderOf(t, u), m + 1) ==> m' == m && Lost(t, SenderOf(t, v), m + 1)
  {
    var s := SenderOf(t, u);
    v, m' := TurnTick(t, run, u, sent, m);
    ProceedCounts(t, s);
    Goes(t, u.inputs, Proceed);
    TransmitOnly(t, s);
    SameUpTo(t, s, SenderOf(t, v), v.receiver, sent + 1, m');
    if Lost(t, s, m + 1) {
      SameLost(t, s, SenderOf(t, v), m + 1);
    }
  }

  lemma {:induction false} AllOut(t: Transfer, run: iset<World>, u: World, sent: nat, m: nat)
    requires OnAir(t, run, u, sent, m) && Listening(SenderOf(t, u))
    ensures UpTo(t, SenderOf(t, u), u.receiver, SenderOf(t, u).readTotal, m)
  {
    assert sent == SenderOf(t, u).readTotal;
  }

  /** The window is sent and delivered. */
  lemma {:induction false} SendTicks(t: Transfer, run: iset<World>, u: World, sent: nat, m: nat) returns (v: World, m': nat)
    requires OnAir(t, run, u, sent, m)
    ensures v in run && Going(t, v.inputs) && Listening(SenderOf(t, v))
    ensures SenderOf(t, v).ackedTotal == SenderOf(t, u).ackedTotal && SenderOf(t, v).readTotal == SenderOf(t, u).readTotal
    ensures UpTo(t, SenderOf(t, v), v.receiver, SenderOf(t, v).readTotal, m')
    ensures Lost(t, SenderOf(t, u), m + 1) ==> m' == m && Lost(t, SenderOf(t, v), m + 1)
    decreases SenderOf(t, u).count - SenderOf(t, u).phase.next
  {
    if CanTransmit(SenderOf(t, u)) {
      TransmitOnly(t, SenderOf(t, u));
      var mid;
      mid, m' := SendTick(t, run, u, sent, m);
      v, m' := SendTicks(t, run, mid, sent + 1, m');
    } else {
      v, m' := u, m;
      AllOut(t, run, u, sent, m);
    }
  }

  lemma {:induction false} HearTick(t: Transfer, run: iset<World>, u: World) returns (v: World)
    requires t.Valid() && Closed(t, run) && u in run && Legal(t, u.inputs) && Listening(SenderOf(t, u))
    ensures v in run && v.receiver == u.receiver
    ensures v.inputs == u.inputs + [Heard(Ack(u.receiver.last))]
    ensures Legal(t, v.inputs) && SenderOf(t, v) == Step(t, SenderOf(t, u), Heard(Ack(u.receiver.last)))
  {
    v := Tick(t, u);
    Extend(t, u.inputs, Heard(Ack(u.receiver.last)));
  }

  /** A window is filled, sent and delivered. */
  lemma {:induction false} WindowTicks(t: Transfer, run: iset<World>, u: World) returns (v: World, m: nat)
    requires t.Valid() && Closed(t, run) && u in run && Going(t, u.inputs) && SenderOf(t, u).phase.Filling?
    requires Holds(t, u.receiver, SenderOf(t, u).ackedTotal)
    ensures v in run && Going(t, v.inputs) && Listening(SenderOf(t, v))
    ensures SenderOf(t, v).ackedTotal == SenderOf(t, u).ackedTotal
    ensures SenderOf(t, v).readTotal == Min(SenderOf(t, u).ackedTotal + t.window, BlockCount(t))
    ensures UpTo(t, SenderOf(t, v), v.receiver, SenderOf(t, v).readTotal, m)
    ensures Lost(t, SenderOf(t, u), SenderOf(t, u).ackedTotal + 1) ==>
              m == SenderOf(t, u).ackedTotal && Lost(t, SenderOf(t, v), m + 1)
  {
    var a := SenderOf(t, u).ackedTotal;
    v := FillTicks(t, run, u, a + 1);
    v, m := SendTicks(t, run, v, a, a);
  }

  // ---------------------------------------------------------------------------------------
  // The windows of the run

  /** The number wraps within the window after block a. */
  predicate Crosses(t: Transfer, a: nat)
    requires t.Valid()
  {
    Lap(a + 1) < Lap(Min(a + t.window, BlockCount(t)))
  }

  /** No window from block a + 1 on crosses a wrap. */
  predicate Smooth(t: Transfer, a: nat)
    requires t.Valid()
    decreases BlockCount(t) - a
  {
    a >= BlockCount(t) || (!Crosses(t, a) && Smooth(t, a + t.window))
  }

  /** In a window that crosses no wrap nothing is lost. */
  lemma {:induction false} NothingLost(t: Transfer, s: State, a: nat, i: nat)
    requires CounterInv(t, s) && s.ackedTotal == a < i
    requires s.readTotal == Min(a + t.window, BlockCount(t)) && !Crosses(t, a)
    ensures !Lost(t, s, i)
  {
    if Lost(t, s, i) {
      var k :| Took(t, s, i, k);
      LapGrows(a + 1, i);
      LapGrows(k, s.readTotal);
    }
  }

  /** The number before a wrap is not the larger one. */
  lemma {:induction false} BeforeWrap(m: nat, high: nat)
    requires Lap(m + 1) < Lap(high) && high < m + 1 + WORDS
    ensures Wrap(m) < Wrap(m + 1)
  {
    WrapIsRemainder(m);
    WrapIsRemainder(m + 1);
    LapIsQuotient(m + 1);
    LapIsQuotient(high);
  }

  lemma {:induction false} LostIsRefused(t: Transfer, s: State, m: nat)
    requires CounterInv(t, s) && s.ackedTotal == m && Lost(t, s, m + 1)
    ensures !Accepts(s, Wrap(m))
  {
    var k :| Took(t, s, m + 1, k);
    BeforeWrap(m, k);
    WrappedSum(m, 1);
  }

  /** With its next block lost the receiver repeats its ACK, and that is fatal. */
  lemma {:induction false} LostTicks(t: Transfer, run: iset<World>, u: World) returns (v: World)
    requires t.Valid() && Closed(t, run) && u in run && Going(t, u.inputs) && SenderOf(t, u).phase.Filling?
    requires Holds(t, u.receiver, SenderOf(t, u).ackedTotal) && Lost(t, SenderOf(t, u), SenderOf(t, u).ackedTotal + 1)
    ensures v in run && Legal(t, v.inputs) && SenderOf(t, v).phase == Ended(StaleAck)
  {
    var m;
    v, m := WindowTicks(t, run, u);
    LostIsRefused(t, SenderOf(t, v), m);
    v := HearTick(t, run, v);
  }

  lemma {:induction false} AcceptedIs(t: Transfer, s: State, m: nat)
    requires CounterInv(t, s) && Listening(s) && s.ackedTotal < m <= s.readTotal && Accepts(s, Wrap(m))
    ensures Step(t, s, Heard(Ack(Wrap(m)))) == Accept(t, s, Wrap(m)) && Accept(t, s, Wrap(m)).ackedTotal == m
  {
    WrappedSum(s.ackedTotal, 1);
    WrappedOrder(s.ackedTotal + 1, m);
    HeardStep(t, s, m);
  }

  /** The ACK of a window that crosses a wrap is refused, unless it is for a part of the window. */
  lemma {:induction false} CrossingRefused(t: Transfer, s: State, m: nat)
    requires CounterInv(t, s) && Listening(s) && Crosses(t, s.ackedTotal)
    requires s.readTotal == Min(s.ackedTotal + t.window, BlockCount(t)) && (m == s.ackedTotal || m == s.readTotal)
    ensures !Accepts(s, Wrap(m))
  {
    var a := s.ackedTotal;
    WrappedSum(a, 1);
    BeforeWrap(a, s.readTotal);
    LapIsQuotient(a + 1);
    LapIsQuotient(s.readTotal);
    WrappedOrder(a + 1, s.readTotal);
  }

  /** The ACK of part of a window is accepted, and the block after it is lost. */
  lemma {:induction false} PartTicks(t: Transfer, run: iset<World>, u: World, m: nat) returns (v: World)
    requires t.Valid() && Closed(t, run) && u in run && Going(t, u.inputs) && Listening(SenderOf(t, u))
    requires UpTo(t, SenderOf(t, u), u.receiver, SenderOf(t, u).readTotal, m)
    requires SenderOf(t, u).ackedTotal < m < SenderOf(t, u).readTotal && Accepts(SenderOf(t, u), Wrap(m))
    ensures v in run && Legal(t, v.inputs) && SenderOf(t, v).phase.Ended? && !Delivered(t, v)
  {
    var s := SenderOf(t, u);
    AcceptedIs(t, s, m);
    v := HearTick(t, run, u);
    if !s.done {
      Goes(t, u.inputs, Heard(Ack(Wrap(m))));
      StaysLost(t, s, Heard(Ack(Wrap(m))), m + 1);
      v := LostTicks(t, run, v);
    }
  }

  /** A window that crosses a wrap is where the transfer fails. */
  lemma {:induction false} CrossingTicks(t: Transfer, run: iset<World>, u: World) returns (v: World)
    requires t.Valid() && Closed(t, run) && u in run && Going(t, u.inputs) && SenderOf(t, u).phase.Filling?
    requires Holds(t, u.receiver, SenderOf(t, u).ackedTotal) && Crosses(t, SenderOf(t, u).ackedTotal)
    ensures v in run && Legal(t, v.inputs) && SenderOf(t, v).phase.Ended? && !Delivered(t, v)
  {
    var m;
    v, m := WindowTicks(t, run, u);
    var s := SenderOf(t, v);
    if m == s.ackedTotal || m == s.readTotal {
      CrossingRefused(t, s, m);
    }
    if Accepts(s, Wrap(m)) {
      v := PartTicks(t, run, v, m);
    } else {
      v := HearTick(t, run, v);
    }
  }

  lemma {:induction false} WholeWindow(t: Transfer, s: State, r: Receiver, m: nat)
    requires CounterInv(t, s) && Listening(s) && UpTo(t, s, r, s.readTotal, m)
    requires s.readTotal == Min(s.ackedTotal + t.window, BlockCount(t)) && !Crosses(t, s.ackedTotal)
    ensures m == s.readTotal && r.last == Wrap(m)
    ensures Enabled(t, s, Heard(Ack(Wrap(m))))
    ensures Step(t, s, Heard(Ack(Wrap(m)))) == Accept(t, s, Wrap(m)) && Accept(t, s, Wrap(m)).ackedTotal == m
  {
    NothingLost(t, s, s.ackedTotal, m + 1);
    LapGrows(s.ackedTotal + 1, m);
    LapIsQuotient(s.ackedTotal + 1);
    LapIsQuotient(m);
    HeardStep(t, s, m);
  }

  /** A window that crosses no wrap arrives and is acknowledged. */
  lemma {:induction false} SmoothTicks(t: Transfer, run: iset<World>, u: World) returns (v: World)
    requires t.Valid() && Closed(t, run) && u in run && Going(t, u.inputs) && SenderOf(t, u).phase.Filling?
    requires Holds(t, u.receiver, SenderOf(t, u).ackedTotal) && !Crosses(t, SenderOf(t, u).ackedTotal)
    ensures v in run && Going(t, v.inputs)
    ensures var m := Min(SenderOf(t, u).ackedTotal + t.window, BlockCount(t));
            && Holds(t, v.receiver, m)
            && SenderOf(t, v).ackedTotal == m
            && SenderOf(t, v).phase == if m == BlockCount(t) then Ended(Completed) else Filling
  {
    var m;
    v, m := WindowTicks(t, run, u);
    var s := SenderOf(t, v);
    WholeWindow(t, s, v.receiver, m);
    Goes(t, v.inputs, Heard(Ack(Wrap(m))));
    v := HearTick(t, run, v);
  }

  /** The run ends, and has delivered the file exactly if none of its windows crosses a wrap. */
  lemma {:induction false} RunEnds(t: Transfer, run: iset<World>, u: World) returns (v: World)
    requires t.Valid() && Closed(t, run) && u in run && Going(t, u.inputs) && SenderOf(t, u).phase.Filling?
    requires Holds(t, u.receiver, SenderOf(t, u).ackedTotal)
    ensures v in run && Legal(t, v.inputs) && SenderOf(t, v).phase.Ended?
    ensures Delivered(t, v) <==> Smooth(t, SenderOf(t, u).ackedTotal)
    decreases BlockCount(t) - SenderOf(t, u).ackedTotal
  {
    var a := SenderOf(t, u).ackedTotal;
    if Crosses(t, a) {
      v := CrossingTicks(t, run, u);
    } else {
      v := SmoothTicks(t, run, u);
      if SenderOf(t, v).phase.Filling? {
        v := RunEnds(t, run, v);
      } else {
        ShortExactlyLast(t, BlockCount(t));
      }
    }
  }

  // ---------------------------------------------------------------------------------------
  // Which transfers these are

  lemma {:induction false} NextMultiple(a: nat, w: nat)
    requires 1 <= w && a % w == 0
    ensures (a + w) % w == 0
  {
    DivisionStep(a + w, w);
  }

  /** A window that begins a multiple of w blocks into the file and contains block x, but not first. */
  lemma {:induction false} CrossesAt(t: Transfer, a: nat, x: nat)
    requires t.Valid() && a + 1 < x <= Min(a + t.window, BlockCount(t)) && (x == WORDS || x == 2 * WORDS)
    ensures Crosses(t, a)
  {
    LapIsQuotient(a + 1);
    LapIsQuotient(Min(a + t.window, BlockCount(t)));
  }

  lemma {:induction false} NotSmooth(t: Transfer, a: nat, x: nat)
    requires t.Valid() && a % t.window == 0 && a < x <= BlockCount(t) && (x == WORDS || x == 2 * WORDS)
    requires (x - 1) % t.window != 0
    ensures !Smooth(t, a)
    decreases BlockCount(t) - a
  {
    if x <= a + t.window {
      CrossesAt(t, a, x);
    } else {
      NextMultiple(a, t.window);
      NotSmooth(t, a + t.window, x);
    }
  }

  lemma {:induction false} NoCrossing(t: Transfer, a: nat)
    requires t.Valid() && a % t.window == 0 && a < BlockCount(t)
    requires t.window == 1 || BlockCount(t) < WORDS || (BlockCount(t) < 2 * WORDS && (WORDS - 1) % t.window == 0)
    ensures !Crosses(t, a)
  {
    var m := Min(a + t.window, BlockCount(t));
    LapIsQuotient(a + 1);
    LapIsQuotient(m);
    if a + 1 < WORDS <= m && t.window != 1 {
      SameRemainder(a, WORDS - 1, t.window);
    }
  }

  lemma {:induction false} AllSmooth(t: Transfer, a: nat)
    requires t.Valid() && a % t.window == 0
    requires t.window == 1 || BlockCount(t) < WORDS || (BlockCount(t) < 2 * WORDS && (WORDS - 1) % t.window == 0)
    ensures Smooth(t, a)
    decreases BlockCount(t) - a
  {
    if a < BlockCount(t) {
      NoCrossing(t, a);
      NextMultiple(a, t.window);
      AllSmooth(t, a + t.window);
    }
  }

  /** Twice 65535 and one more is no multiple of a window that divides 65535. */
  lemma {:induction false} SecondWrapInside(w: nat)
    requires 2 <= w < WORDS && (WORDS - 1) % w == 0
    ensures (2 * WORDS - 1) % w != 0
  {
    var c := (WORDS - 1) / w;
    assert WORDS - 1 == w * c;
    assert w * (2 * c) == 2 * (w * c);
    DivisionUnique(2 * WORDS - 1, 2 * c, 1, w);
  }

  lemma {:induction false} SmoothExactly(t: Transfer)
    requires t.Valid()
    ensures Smooth(t, 0) <==>
            || t.window == 1
            || BlockCount(t) < WORDS
            || (BlockCount(t) < 2 * WORDS && (WORDS - 1) % t.window == 0)
  {
    DivisionUnique(0, 0, 0, t.window);
    if t.window == 1 || BlockCount(t) < WORDS || (BlockCount(t) < 2 * WORDS && (WORDS - 1) % t.window == 0) {
      AllSmooth(t, 0);
    } else if (WORDS - 1) % t.window == 0 {
      SecondWrapInside(t.window);
      NotSmooth(t, 0, 2 * WORDS);
    } else {
      NotSmooth(t, 0, WORDS);
    }
  }

  /** The sender completes and the receiver has the file, at some time. */
  ghost predicate LosslessDelivers(t: Transfer)
    requires t.Valid()
  {
    exists n: nat :: Delivered(t, Ticks(t, Start(), n))
  }

  /**
   Even if nothing is lost or reordered, the file arrives exactly if the window is one block, or
   there are at most 65535 blocks, or at most 131071 and the window divides 65535.
   */
  lemma {:induction false} LosslessDeliversExactly(t: Transfer)
    requires t.Valid()
    ensures LosslessDelivers(t) <==>
            || t.window == 1
            || BlockCount(t) < WORDS
            || (BlockCount(t) < 2 * WORDS && (WORDS - 1) % t.window == 0)
  {
    var run := iset n: nat | true :: Ticks(t, Start(), n);
    assert Closed(t, run) by {
      forall u | u in run && Legal(t, u.inputs) ensures Tick(t, u) in run {
        var n: nat :| Ticks(t, Start(), n) == u;
        LastTick(t, Start(), n);
      }
    }
    assert Ticks(t, Start(), 0) == Start();
    var v := RunEnds(t, run, Start());
    var end: nat :| Ticks(t, Start(), end) == v;
    SmoothExactly(t);
    forall n: nat | Delivered(t, Ticks(t, Start(), n)) ensures Delivered(t, v) {
      OneEnd(t, Start(), n, end);
    }
  }
}
