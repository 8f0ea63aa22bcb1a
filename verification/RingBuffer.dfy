/** What the ring of packet buffers holds, and what is therefore put on the wire. */
module RingBuffer {
  import opened Wire
  import opened Arithmetic
  import opened Blocks
  import opened Slots
  import opened Sender

  /** Every outstanding block is still in its slot, header and payload intact. */
  ghost predicate RingInv(t: Transfer, s: State) {
    && WellFormed(t, s)
    && forall k :: s.ackedTotal < k <= s.readTotal ==> s.slots[Slot(k, t.window)] == DataPacket(t, k)
  }

  /** The transfers for which the 16-bit slot arithmetic keeps outstanding blocks apart. */
  predicate RingSound(t: Transfer)
    requires t.Valid()
  {
    BlockCount(t) < WORDS || WORDS % t.window == 0
  }

  /** What has been read, in 16 bits and in full. */
  ghost predicate ReadInv(t: Transfer, s: State) {
    && WellFormed(t, s)
    && s.lastRead == Wrap(s.readTotal)
    && s.readTotal <= BlockCount(t)
    && (s.done <==> s.readTotal == BlockCount(t))
    && s.offset == EndOf(t, s.readTotal)
  }

  /** A push stores block R + 1 as the packet of that block. */
  lemma {:induction false} PushStoresPacket(t: Transfer, s: State)
    requires ReadInv(t, s) && CanRead(t, s)
    ensures var k := s.readTotal + 1;
            Push(t, s).slots == s.slots[Slot(k, t.window) := DataPacket(t, k)]
  {
    ShortExactlyLast(t, s.readTotal + 1);
    WrappedSum(s.readTotal, 1);
  }

  lemma {:induction false} PushKeepsRing(t: Transfer, s: State)
    requires CounterInv(t, s) && RingInv(t, s) && CanRead(t, s)
    requires SameLap(s.ackedTotal + 1, s.readTotal + 1, t.window)
    ensures RingInv(t, Push(t, s))
  {
    PushStoresPacket(t, s);
    var s' := Push(t, s);
    forall k | s'.ackedTotal < k <= s'.readTotal
      ensures s'.slots[Slot(k, t.window)] == DataPacket(t, k)
    {
      if k <= s.readTotal {
        assert SameLap(k, s.readTotal + 1, t.window);
        NearBlocksApart(k, s.readTotal + 1, t.window);
      }
    }
  }

  /** Only reading touches the buffers, and no step takes an acknowledgement back. */
  lemma {:induction false} StepFrame(t: Transfer, s: State, input: Input)
    requires WellFormed(t, s) && Enabled(t, s, input)
    ensures var s' := Step(t, s, input);
            && s.ackedTotal <= s'.ackedTotal
            && s.readTotal <= s'.readTotal
            && (input.Proceed? && CanRead(t, s) ==> s' == Push(t, s))
            && (!(input.Proceed? && CanRead(t, s)) ==> s'.slots == s.slots && s'.readTotal == s.readTotal)
  {
  }

  /** Every step keeps the ring, as long as the block it reads cannot collide. */
  lemma {:induction false} StepKeepsRing(t: Transfer, s: State, input: Input)
    requires CounterInv(t, s) && RingInv(t, s) && Enabled(t, s, input)
    requires SameLap(s.ackedTotal + 1, Step(t, s, input).readTotal, t.window)
    ensures RingInv(t, Step(t, s, input))
  {
    StepFrame(t, s, input);
    if input.Proceed? && CanRead(t, s) {
      PushKeepsRing(t, s);
    }
  }

  /** What goes out is what is in the slot of the block whose turn it is. */
  lemma {:induction false} TransmitsTheSlot(t: Transfer, s: State)
    requires CounterInv(t, s) && CanTransmit(s)
    ensures Output(t, s, Proceed) == [s.slots[Slot(s.ackedTotal + 1 + s.phase.next, t.window)]]
  {
    WrappedSum(s.ackedTotal, 1);
    WrappedSum(s.ackedTotal + 1, s.phase.next);
  }

  /** What a transmission puts on the wire is the packet of the block whose turn it is. */
  lemma {:induction false} TransmitsTheBlock(t: Transfer, s: State)
    requires CounterInv(t, s) && RingInv(t, s) && CanTransmit(s)
    ensures Output(t, s, Proceed) == [DataPacket(t, s.ackedTotal + 1 + s.phase.next)]
  {
    TransmitsTheSlot(t, s);
  }

  lemma {:induction false} HonestRing(t: Transfer, inputs: seq<Input>)
    requires Honest(t, inputs) && RingSound(t)
    ensures RingInv(t, StateAfter(t, inputs))
  {
    if inputs != [] {
      var before := inputs[..|inputs| - 1];
      HonestRing(t, before);
      HonestCounters(t, before);
      HonestCounters(t, inputs);
      StepKeepsRing(t, StateAfter(t, before), inputs[|inputs| - 1]);
    }
  }

  // ---------------------------------------------------------------------------------------
  // The datagrams of a whole run

  ghost predicate IsBlockUpTo(t: Transfer, datagram: Bytes, n: nat) {
    exists k :: 1 <= k <= n && datagram == DataPacket(t, k)
  }

  /** Nothing but packets of the first n blocks was sent. */
  ghost predicate OnlyBlocks(t: Transfer, sent: seq<Bytes>, n: nat) {
    forall p :: p in sent ==> IsBlockUpTo(t, p, n)
  }

  /** Every one of the first n blocks was sent at least once. */
  ghost predicate Covered(t: Transfer, sent: seq<Bytes>, n: nat) {
    forall k :: 1 <= k <= n ==> DataPacket(t, k) in sent
  }

  /** How many leading blocks have certainly been sent. */
  function Reached(s: State): nat {
    match s.phase
    case Filling => s.ackedTotal
    case Sending(attempt, next) => if attempt == 1 then s.ackedTotal + next else s.readTotal
    case Ended(Completed) => s.readTotal
    case Ended(_) => 0
  }

  ghost predicate WireInv(t: Transfer, inputs: seq<Input>) {
    && Legal(t, inputs)
    && OnlyBlocks(t, Sent(t, inputs), StateAfter(t, inputs).readTotal)
    && Covered(t, Sent(t, inputs), Reached(StateAfter(t, inputs)))
  }

  lemma {:induction false} OnlyBlocksGrow(t: Transfer, sent: seq<Bytes>, m: nat, n: nat)
    requires OnlyBlocks(t, sent, m) && m <= n
    ensures OnlyBlocks(t, sent, n)
  {
    forall p | p in sent ensures IsBlockUpTo(t, p, n) {
      assert IsBlockUpTo(t, p, m);
      var i :| 1 <= i <= m && p == DataPacket(t, i);
    }
  }

  lemma {:induction false} OneMoreSent(t: Transfer, sent: seq<Bytes>, k: nat, n: nat, m: nat, m': nat)
    requires OnlyBlocks(t, sent, n) && 1 <= k <= n
    requires Covered(t, sent, m) && (m' <= m || m' == k == m + 1)
    ensures OnlyBlocks(t, sent + [DataPacket(t, k)], n) && Covered(t, sent + [DataPacket(t, k)], m')
  {
    assert IsBlockUpTo(t, DataPacket(t, k), n);
  }

  /** A step that transmits puts out the next block, and that is as far as it reaches. */
  lemma {:induction false} TransmitReach(t: Transfer, s: State)
    requires CounterInv(t, s) && RingInv(t, s) && CanTransmit(s)
    ensures var k, s' := s.ackedTotal + 1 + s.phase.next, Step(t, s, Proceed);
            && 1 <= k <= s.readTotal == s'.readTotal
            && Output(t, s, Proceed) == [DataPacket(t, k)]
            && (Reached(s') <= Reached(s) || Reached(s') == k == Reached(s) + 1)
  {
    TransmitsTheBlock(t, s);
  }

  /** A step that transmits nothing reaches no further. */
  lemma {:induction false} QuietReach(t: Transfer, s: State, input: Input)
    requires CounterInv(t, s) && Enabled(t, s, input) && !(input.Proceed? && CanTransmit(s))
    requires Step(t, s, input).ackedTotal <= Step(t, s, input).readTotal
    ensures Output(t, s, input) == []
    ensures Reached(Step(t, s, input)) <= Reached(s)
  {
  }

  /** What a step adds to the datagrams sent keeps the account of them. */
  lemma {:induction false} StepKeepsSent(t: Transfer, s: State, input: Input, sent: seq<Bytes>)
    requires CounterInv(t, s) && RingInv(t, s) && Enabled(t, s, input)
    requires Step(t, s, input).ackedTotal <= Step(t, s, input).readTotal
    requires OnlyBlocks(t, sent, s.readTotal) && Covered(t, sent, Reached(s))
    ensures OnlyBlocks(t, sent + Output(t, s, input), Step(t, s, input).readTotal)
    ensures Covered(t, sent + Output(t, s, input), Reached(Step(t, s, input)))
  {
    if input.Proceed? && CanTransmit(s) {
      TransmitReach(t, s);
      OneMoreSent(t, sent, s.ackedTotal + 1 + s.phase.next, s.readTotal, Reached(s), Reached(Step(t, s, input)));
    } else {
      QuietReach(t, s, input);
      StepFrame(t, s, input);
      OnlyBlocksGrow(t, sent, s.readTotal, Step(t, s, input).readTotal);
      assert sent + Output(t, s, input) == sent;
    }
  }

  /** One more step of a run whose ring is intact keeps the account of what was sent. */
  lemma {:induction false} StepKeepsWire(t: Transfer, inputs: seq<Input>, input: Input)
    requires WireInv(t, inputs) && Enabled(t, StateAfter(t, inputs), input)
    requires CounterInv(t, StateAfter(t, inputs)) && RingInv(t, StateAfter(t, inputs))
    requires Step(t, StateAfter(t, inputs), input).ackedTotal <= Step(t, StateAfter(t, inputs), input).readTotal
    ensures WireInv(t, inputs + [input])
  {
    StepKeepsSent(t, StateAfter(t, inputs), input, Sent(t, inputs));
    Extend(t, inputs, input);
  }

  lemma {:induction false} HonestWire(t: Transfer, inputs: seq<Input>)
    requires Honest(t, inputs) && RingSound(t)
    ensures WireInv(t, inputs)
  {
    if inputs != [] {
      var before, input := inputs[..|inputs| - 1], inputs[|inputs| - 1];
      assert inputs == before + [input];
      HonestWire(t, before);
      HonestCounters(t, before);
      HonestRing(t, before);
      StepKeepsWire(t, before, input);
    }
  }

  // ---------------------------------------------------------------------------------------
  // Runs of every kind, also those that accepted an ACK of nothing outstanding

  /** The first block that is read into a slot. */
  function FirstIn(slot: nat, w: nat): nat {
    if slot == 0 then w else slot
  }

  lemma {:induction false} FirstInItsSlot(k: nat, w: nat)
    requires 1 <= k <= w < WORDS
    ensures FirstIn(Slot(k, w), w) == k
  {
    assert Wrap(k) == k;
    if k == w {
      RemainderShift(0, 1, w);
    } else {
      DivisionUnique(k, 0, k, w);
    }
  }

  /** Every slot that was filled holds the true packet of some block. */
  ghost predicate TrueSlots(t: Transfer, s: State)
    requires WellFormed(t, s)
  {
    forall j :: 0 <= j < t.window && FirstIn(j, t.window) <= s.readTotal ==> IsBlockUpTo(t, s.slots[j], s.readTotal)
  }

  /** Nothing is sent before the slots are filled or the file has ended, and no run completes before. */
  ghost predicate FirstWindow(t: Transfer, s: State) {
    && (s.phase.Sending? ==> s.done || t.window <= s.readTotal)
    && (s.phase == Ended(Completed) ==> s.done)
    && (!s.phase.Ended? && s.readTotal < t.window ==> s.acked == 0 && s.count == s.readTotal)
  }

  ghost predicate TruthInv(t: Transfer, s: State) {
    ReadInv(t, s) && TrueSlots(t, s) && FirstWindow(t, s)
  }

  lemma {:induction false} PushKeepsRead(t: Transfer, s: State)
    requires ReadInv(t, s) && CanRead(t, s)
    ensures ReadInv(t, Push(t, s))
  {
    ShortExactlyLast(t, s.readTotal + 1);
    WrappedSum(s.readTotal, 1);
  }

  lemma {:induction false} PushKeepsTrueSlots(t: Transfer, s: State)
    requires ReadInv(t, s) && TrueSlots(t, s) && CanRead(t, s)
    ensures TrueSlots(t, Push(t, s))
  {
    var k, s' := s.readTotal + 1, Push(t, s);
    PushStoresPacket(t, s);
    if k <= t.window {
      FirstInItsSlot(k, t.window);
    }
    forall j | 0 <= j < t.window && FirstIn(j, t.window) <= k ensures IsBlockUpTo(t, s'.slots[j], k) {
      if j == Slot(k, t.window) {
        assert s'.slots[j] == DataPacket(t, k);
      } else {
        assert IsBlockUpTo(t, s.slots[j], s.readTotal);
      }
    }
  }

  lemma {:induction false} TransmitsTruth(t: Transfer, s: State)
    requires TruthInv(t, s) && CanTransmit(s)
    ensures |Output(t, s, Proceed)| == 1 && IsBlockUpTo(t, Output(t, s, Proceed)[0], s.readTotal)
  {
    var index := WrappingAdd(WindowIndex(s), s.phase.next);
    if s.readTotal < t.window {
      assert index == s.phase.next + 1;
      FirstInItsSlot(index, t.window);
    }
  }

  lemma {:induction false} NothingRead(t: Transfer, s: State, s': State)
    requires ReadInv(t, s) && TrueSlots(t, s) && WellFormed(t, s')
    requires s'.slots == s.slots && s'.readTotal == s.readTotal && s'.lastRead == s.lastRead
    requires s'.done == s.done && s'.offset == s.offset
    ensures ReadInv(t, s') && TrueSlots(t, s')
  {
  }

  lemma {:induction false} StepKeepsTruth(t: Transfer, s: State, input: Input)
    requires TruthInv(t, s) && Enabled(t, s, input)
    ensures TruthInv(t, Step(t, s, input))
  {
    if input.Proceed? && CanRead(t, s) {
      PushKeepsRead(t, s);
      PushKeepsTrueSlots(t, s);
    } else {
      NothingRead(t, s, Step(t, s, input));
    }
  }

  lemma {:induction false} StepSendsTruth(t: Transfer, s: State, input: Input, sent: seq<Bytes>)
    requires TruthInv(t, s) && Enabled(t, s, input) && OnlyBlocks(t, sent, s.readTotal)
    ensures OnlyBlocks(t, sent + Output(t, s, input), Step(t, s, input).readTotal)
  {
    if input.Proceed? && CanTransmit(s) {
      TransmitsTruth(t, s);
    } else {
      OnlyBlocksGrow(t, sent, s.readTotal, Step(t, s, input).readTotal);
      assert sent + Output(t, s, input) == sent;
    }
  }

  /** Whatever ACKs are accepted, only true packets of blocks that were read are sent. */
  lemma {:induction false} EveryRunTruthful(t: Transfer, inputs: seq<Input>)
    requires Legal(t, inputs)
    ensures TruthInv(t, StateAfter(t, inputs))
    ensures OnlyBlocks(t, Sent(t, inputs), StateAfter(t, inputs).readTotal)
  {
    if inputs != [] {
      var before, input := inputs[..|inputs| - 1], inputs[|inputs| - 1];
      EveryRunTruthful(t, before);
      StepKeepsTruth(t, StateAfter(t, before), input);
      StepSendsTruth(t, StateAfter(t, before), input, Sent(t, before));
    }
  }
}
