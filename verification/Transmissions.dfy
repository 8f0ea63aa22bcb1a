/**
 Whether every block is sent, in runs of every kind: which block lies in a slot, which blocks wait
 to be sent, and how a block can be lost before it was.
 */
module Transmissions {
  import opened Wire
  import opened Blocks
  import opened Slots
  import opened Sender
  import opened RingBuffer

  /** No block after k, of the first n, has the slot of block k. */
  ghost predicate Newest(k: nat, n: nat, w: nat)
    requires 1 <= w
  {
    1 <= k <= n && forall j :: k < j <= n ==> Slot(j, w) != Slot(k, w)
  }

  /** The newest of the first n blocks with the slot of block k. */
  lemma {:induction false} NewestInSlot(k: nat, n: nat, w: nat) returns (j: nat)
    requires 1 <= w && 1 <= k <= n
    ensures k <= j <= n && Slot(j, w) == Slot(k, w) && Newest(j, n, w)
  {
    if n == k || Slot(n, w) == Slot(k, w) {
      j := n;
    } else {
      j := NewestInSlot(k, n - 1, w);
    }
  }

  /** The newest block of a slot is what the slot holds. */
  ghost predicate HoldsNewest(t: Transfer, s: State) {
    && WellFormed(t, s)
    && forall k: nat :: Newest(k, s.readTotal, t.window) ==> s.slots[Slot(k, t.window)] == DataPacket(t, k)
  }

  lemma {:induction false} PushHoldsNewest(t: Transfer, s: State)
    requires ReadInv(t, s) && HoldsNewest(t, s) && CanRead(t, s)
    ensures HoldsNewest(t, Push(t, s))
  {
    var j, s' := s.readTotal + 1, Push(t, s);
    PushStoresPacket(t, s);
    forall k: nat | Newest(k, s'.readTotal, t.window) ensures s'.slots[Slot(k, t.window)] == DataPacket(t, k) {
      if k < j {
        assert Newest(k, s.readTotal, t.window);
      }
    }
  }

  lemma {:induction false} EveryRunHoldsNewest(t: Transfer, inputs: seq<Input>)
    requires Legal(t, inputs)
    ensures HoldsNewest(t, StateAfter(t, inputs))
  {
    if inputs != [] {
      var before, input := inputs[..|inputs| - 1], inputs[|inputs| - 1];
      EveryRunHoldsNewest(t, before);
      EveryRunTruthful(t, before);
      StepFrame(t, StateAfter(t, before), input);
      if input.Proceed? && CanRead(t, StateAfter(t, before)) {
        PushHoldsNewest(t, StateAfter(t, before));
      }
    }
  }

  /** The slot that is sent next. */
  function SlotSent(t: Transfer, s: State): nat
    requires t.Valid() && CanTransmit(s)
  {
    WrappingAdd(WindowIndex(s), s.phase.next) % t.window
  }

  /** Block k is sent: it is in the slot whose turn it is. */
  ghost predicate Sends(t: Transfer, s: State, input: Input, k: nat) {
    && t.Valid()
    && input.Proceed?
    && CanTransmit(s)
    && Newest(k, s.readTotal, t.window)
    && Slot(k, t.window) == SlotSent(t, s)
  }

  /** What is sent then is the packet of block k. */
  lemma {:induction false} SendsThePacket(t: Transfer, inputs: seq<Input>, input: Input, k: nat)
    requires Legal(t, inputs) && Sends(t, StateAfter(t, inputs), input, k)
    ensures Output(t, StateAfter(t, inputs), input) == [DataPacket(t, k)]
  {
    EveryRunHoldsNewest(t, inputs);
  }

  /** Block k was sent at some time. */
  ghost predicate WentOut(t: Transfer, inputs: seq<Input>, k: nat)
    requires Legal(t, inputs)
  {
    && inputs != []
    && var before, input := inputs[..|inputs| - 1], inputs[|inputs| - 1];
       WentOut(t, before, k) || Sends(t, StateAfter(t, before), input, k)
  }

  lemma {:induction false} OneMoreOut(t: Transfer, inputs: seq<Input>, input: Input, k: nat)
    requires Legal(t, inputs) && Enabled(t, StateAfter(t, inputs), input)
    ensures Legal(t, inputs + [input])
    ensures WentOut(t, inputs + [input], k) <==> WentOut(t, inputs, k) || Sends(t, StateAfter(t, inputs), input, k)
  {
    Extend(t, inputs, input);
    var longer := inputs + [input];
    assert longer[..|longer| - 1] == inputs;
  }

  ghost predicate OutUpTo(t: Transfer, inputs: seq<Input>, n: nat)
    requires Legal(t, inputs)
  {
    forall k :: 1 <= k <= n ==> WentOut(t, inputs, k)
  }

  lemma {:induction false} StillOut(t: Transfer, inputs: seq<Input>, input: Input, n: nat)
    requires Legal(t, inputs) && Enabled(t, StateAfter(t, inputs), input) && OutUpTo(t, inputs, n)
    ensures Legal(t, inputs + [input]) && OutUpTo(t, inputs + [input], n)
  {
    Extend(t, inputs, input);
    forall k | 1 <= k <= n ensures WentOut(t, inputs + [input], k) {
      OneMoreOut(t, inputs, input, k);
    }
  }

  lemma {:induction false} OneMoreOutUpTo(t: Transfer, inputs: seq<Input>, n: nat)
    requires Legal(t, inputs) && 1 <= n && OutUpTo(t, inputs, n - 1) && WentOut(t, inputs, n)
    ensures OutUpTo(t, inputs, n)
  {
  }

  /** A step that gets no further, or by one block that it sends, keeps the account of what went out. */
  lemma {:induction false} StepOut(t: Transfer, inputs: seq<Input>, input: Input, n: nat, n': nat)
    requires Legal(t, inputs) && Enabled(t, StateAfter(t, inputs), input) && OutUpTo(t, inputs, n)
    requires n' <= n || (n' == n + 1 && Sends(t, StateAfter(t, inputs), input, n'))
    ensures Legal(t, inputs + [input]) && OutUpTo(t, inputs + [input], n')
  {
    if n' <= n {
      StillOut(t, inputs, input, n');
    } else {
      StillOut(t, inputs, input, n' - 1);
      OneMoreOut(t, inputs, input, n');
      OneMoreOutUpTo(t, inputs + [input], n');
    }
  }

  // ---------------------------------------------------------------------------------------
  // Blocks that wait to be sent

  /** The blocks after r were read since the last ACK; they lie in their slots and will all be sent. */
  ghost predicate Waiting(t: Transfer, s: State, r: nat) {
    && ReadInv(t, s)
    && FirstWindow(t, s)
    && r <= s.readTotal
    && (!s.phase.Ended? ==>
          && (r == 0 || t.window <= r)
          && s.count == WrappingSub(s.lastRead, s.acked)
          && s.readTotal - r <= s.count
          && (s.phase.Sending? ==> s.phase.next <= s.count)
          && forall k :: r < k <= s.readTotal ==> Newest(k, s.readTotal, t.window))
  }

  /** How many blocks have been sent, given that those up to r had been before this round. */
  function OutMark(s: State, r: nat): nat {
    match s.phase
    case Filling => r
    case Sending(attempt, next) => if attempt == 1 then Max(r, s.readTotal - s.count + next) else s.readTotal
    case Ended(Completed) => s.readTotal
    case Ended(_) => 0
  }

  /** The next block to be read takes the slot of block k. */
  predicate Overwrites(t: Transfer, s: State, k: nat)
    requires t.Valid()
  {
    Slot(k, t.window) == Slot(s.readTotal + 1, t.window)
  }

  ghost predicate NoneOverwritten(t: Transfer, s: State, r: nat)
    requires t.Valid()
  {
    forall k :: r < k <= s.readTotal ==> !Overwrites(t, s, k)
  }

  lemma {:induction false} WaitingPush(t: Transfer, s: State, r: nat)
    requires Waiting(t, s, r) && CanRead(t, s) && NoneOverwritten(t, s, r)
    ensures Waiting(t, Push(t, s), r) && OutMark(Push(t, s), r) == OutMark(s, r)
  {
    var j, s' := s.readTotal + 1, Push(t, s);
    PushKeepsRead(t, s);
    forall k | r < k <= j ensures Newest(k, j, t.window) {
      if k < j {
        assert Newest(k, s.readTotal, t.window);
        assert !Overwrites(t, s, k);
      }
    }
  }

  /** The slot whose turn it is is that of the block as far back from the last one read. */
  lemma {:induction false} TurnOf(t: Transfer, s: State, r: nat)
    requires Waiting(t, s, r) && CanTransmit(s) && s.readTotal - s.count + s.phase.next + 1 > r
    ensures SlotSent(t, s) == Slot(s.readTotal - s.count + s.phase.next + 1, t.window)
  {
    var k := s.readTotal - s.count + s.phase.next + 1;
    WrappedDistance(k, s.readTotal);
  }

  lemma {:induction false} WaitingTransmit(t: Transfer, s: State, r: nat)
    requires Waiting(t, s, r) && CanTransmit(s)
    ensures var s' := Step(t, s, Proceed);
            && Waiting(t, s', r)
            && (|| OutMark(s', r) <= OutMark(s, r)
                || (OutMark(s', r) == OutMark(s, r) + 1 && Sends(t, s, Proceed, OutMark(s', r))))
  {
    var k := s.readTotal - s.count + s.phase.next + 1;
    if s.phase.attempt == 1 && k > r {
      TurnOf(t, s, r);
    }
  }

  lemma {:induction false} WaitingBegin(t: Transfer, s: State, r: nat)
    requires Waiting(t, s, r) && s.phase.Filling? && !CanRead(t, s)
    ensures Waiting(t, Step(t, s, Proceed), r) && OutMark(Step(t, s, Proceed), r) <= OutMark(s, r)
  {
  }

  lemma {:induction false} WaitingRetry(t: Transfer, s: State, r: nat)
    requires Waiting(t, s, r) && Listening(s)
    ensures Waiting(t, Step(t, s, Silence), r) && OutMark(Step(t, s, Silence), r) <= OutMark(s, r)
  {
  }

  lemma {:induction false} WaitingEnd(t: Transfer, s: State, outcome: Outcome, r: nat)
    requires Waiting(t, s, r) && !outcome.Completed?
    ensures Waiting(t, End(s, outcome), r) && OutMark(End(s, outcome), r) == 0
  {
  }

  lemma {:induction false} WaitingAccept(t: Transfer, s: State, x: u16, r: nat)
    requires Waiting(t, s, r) && Listening(s) && Accepts(s, x)
    ensures Waiting(t, Accept(t, s, x), s.readTotal) && OutMark(Accept(t, s, x), s.readTotal) <= OutMark(s, r)
  {
  }

  /** What a step that does not read makes of the blocks that wait. */
  lemma {:induction false} WaitingStep(t: Transfer, s: State, input: Input, r: nat) returns (r': nat)
    requires Waiting(t, s, r) && Enabled(t, s, input)
    requires input.Proceed? && CanRead(t, s) ==> NoneOverwritten(t, s, r)
    ensures var s' := Step(t, s, input);
            && Waiting(t, s', r')
            && (!input.Heard? ==> r' == r)
            && (input.Heard? && s'.phase.Filling? ==> r' == s'.readTotal)
            && (|| OutMark(s', r') <= OutMark(s, r)
                || (OutMark(s', r') == OutMark(s, r) + 1 && Sends(t, s, input, OutMark(s', r'))))
  {
    r' := r;
    match input
    case Proceed =>
      if CanRead(t, s) {
        WaitingPush(t, s, r);
      } else if s.phase.Filling? {
        WaitingBegin(t, s, r);
      } else {
        WaitingTransmit(t, s, r);
      }
    case Silence => WaitingRetry(t, s, r);
    case Fault => WaitingEnd(t, s, if s.phase.Filling? then ReadFailed else NetworkFailed, r);
    case Heard(Ack(x)) =>
      if Accepts(s, x) {
        r' := s.readTotal;
        WaitingAccept(t, s, x, r);
      } else {
        WaitingEnd(t, s, StaleAck, r);
      }
    case Heard(PeerError) => WaitingEnd(t, s, PeerAborted, r);
    case Heard(Unreadable) => WaitingEnd(t, s, NetworkFailed, r);
  }

  /** Where the slot arithmetic is sound no block that waits is overwritten. */
  lemma {:induction false} SoundPush(t: Transfer, s: State, r: nat, k: nat)
    requires Waiting(t, s, r) && CanRead(t, s) && RingSound(t) && r < k <= s.readTotal
    ensures !Overwrites(t, s, k)
  {
    NearBlocksApart(k, s.readTotal + 1, t.window);
  }

  /** Then every run, whatever ACKs it accepted, sends all it has read before it goes on. */
  lemma {:induction false} SoundWaiting(t: Transfer, inputs: seq<Input>) returns (r: nat)
    requires Legal(t, inputs) && RingSound(t)
    ensures Waiting(t, StateAfter(t, inputs), r) && OutUpTo(t, inputs, OutMark(StateAfter(t, inputs), r))
  {
    if inputs == [] {
      r := 0;
    } else {
      var before, input := inputs[..|inputs| - 1], inputs[|inputs| - 1];
      assert inputs == before + [input];
      var r0 := SoundWaiting(t, before);
      var s := StateAfter(t, before);
      if CanRead(t, s) {
        forall k | r0 < k <= s.readTotal ensures !Overwrites(t, s, k) {
          SoundPush(t, s, r0, k);
        }
      }
      r := WaitingStep(t, s, input, r0);
      StepOut(t, before, input, OutMark(s, r0), OutMark(StateAfter(t, inputs), r));
    }
  }

  /** A completed run of such a transfer has sent every block. */
  lemma {:induction false} SoundAllOut(t: Transfer, inputs: seq<Input>)
    requires Legal(t, inputs) && RingSound(t) && StateAfter(t, inputs).phase == Ended(Completed)
    ensures OutUpTo(t, inputs, BlockCount(t))
  {
    var r := SoundWaiting(t, inputs);
  }

  /** What went out is on the wire, byte by byte. */
  lemma {:induction false} OutIsSent(t: Transfer, inputs: seq<Input>, k: nat)
    requires Legal(t, inputs) && 1 <= k && WentOut(t, inputs, k)
    ensures DataPacket(t, k) in Sent(t, inputs)
  {
    var before, input := inputs[..|inputs| - 1], inputs[|inputs| - 1];
    if WentOut(t, before, k) {
      OutIsSent(t, before, k);
    } else {
      SendsThePacket(t, before, input, k);
    }
  }
}
