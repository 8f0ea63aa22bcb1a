/** Which transfers can complete although a block was never sent, over a network and to a receiver. */
module Losses {
  import opened Wire
  import opened Arithmetic
  import opened Blocks
  import opened Slots
  import opened Sender
  import opened RingBuffer
  import opened Network
  import opened Runs
  import opened Deliveries
  import opened Bounds
  import opened Transmissions
  import Turns

  // ---------------------------------------------------------------------------------------
  // After a loss

  /** Only packets of the first n blocks were sent, and none of block i. */
  ghost predicate OthersOnly(t: Transfer, sent: seq<Bytes>, n: nat, i: nat) {
    forall p :: p in sent ==> IsOther(t, p, n, i)
  }

  ghost predicate IsOther(t: Transfer, p: Bytes, n: nat, i: nat) {
    exists k :: 1 <= k <= n && k != i && p == DataPacket(t, k)
  }

  lemma {:induction false} OthersGrow(t: Transfer, sent: seq<Bytes>, m: nat, n: nat, i: nat)
    requires OthersOnly(t, sent, m, i) && m <= n
    ensures OthersOnly(t, sent, n, i)
  {
    forall p | p in sent ensures IsOther(t, p, n, i) {
      assert IsOther(t, p, m, i);
      var k :| 1 <= k <= m && k != i && p == DataPacket(t, k);
    }
  }

  lemma {:induction false} OneMoreOther(t: Transfer, sent: seq<Bytes>, n: nat, i: nat, k: nat)
    requires OthersOnly(t, sent, n, i) && 1 <= k <= n && k != i
    ensures OthersOnly(t, sent + [DataPacket(t, k)], n, i)
  {
    assert IsOther(t, DataPacket(t, k), n, i);
  }

  /**
   Block i was overwritten before it was sent. The receiver cannot get past it, and the end of the
   file is too far away for the sender to complete.
   */
  ghost predicate Doomed(t: Transfer, u: World, i: nat) {
    && Turns.Going(t, u.inputs)
    && 1 <= i < WORDS <= BlockCount(t)
    && i + t.window - 1 <= BlockCount(t)
    && i <= SenderOf(t, u).readTotal
    && !Newest(i, SenderOf(t, u).readTotal, t.window)
    && SenderOf(t, u).phase != Ended(Completed)
    && OthersOnly(t, Sent(t, u.inputs), SenderOf(t, u).readTotal, i)
    && ReceiverInv(t, u.receiver, i - 1)
    && SenderOf(t, u).ackedTotal <= u.receiver.last
    && forall x :: x in u.acks ==> x <= u.receiver.last
  }

  lemma {:induction false} StaysShadowed(i: nat, n: nat, m: nat, w: nat)
    requires 1 <= w && 1 <= i <= n <= m && !Newest(i, n, w)
    ensures !Newest(i, m, w)
  {
    var j :| i < j <= n && Slot(j, w) == Slot(i, w);
  }

  lemma {:induction false} SlotContent(t: Transfer, s: State, turn: nat, p: Bytes) returns (k: nat)
    requires HoldsNewest(t, s) && 1 <= turn <= s.readTotal && p == s.slots[Slot(turn, t.window)]
    ensures Newest(k, s.readTotal, t.window) && p == DataPacket(t, k)
  {
    k := NewestInSlot(turn, s.readTotal, t.window);
  }

  lemma {:induction false} TurnContent(t: Transfer, s: State) returns (turn: nat, p: Bytes)
    requires CounterInv(t, s) && CanTransmit(s)
    ensures 1 <= turn <= s.readTotal && p == s.slots[Slot(turn, t.window)] && Output(t, s, Proceed) == [p]
  {
    turn := s.ackedTotal + 1 + s.phase.next;
    p := s.slots[Slot(turn, t.window)];
    TransmitsTheSlot(t, s);
  }

  /** What an honest sender sends is the newest block in the slot of the block whose turn it is. */
  lemma {:induction false} HonestSends(t: Transfer, inputs: seq<Input>) returns (k: nat)
    requires Turns.Going(t, inputs) && CanTransmit(StateAfter(t, inputs))
    ensures Newest(k, StateAfter(t, inputs).readTotal, t.window)
    ensures Output(t, StateAfter(t, inputs), Proceed) == [DataPacket(t, k)]
  {
    var turn, p := TurnContent(t, StateAfter(t, inputs));
    EveryRunHoldsNewest(t, inputs);
    k := SlotContent(t, StateAfter(t, inputs), turn, p);
  }

  lemma {:induction false} DoomedSent(t: Transfer, u: World, i: nat, input: Input)
    requires t.Valid() && Doomed(t, u, i) && Enabled(t, SenderOf(t, u), input)
    ensures var s := SenderOf(t, u);
            OthersOnly(t, Sent(t, u.inputs) + Output(t, s, input), Step(t, s, input).readTotal, i)
  {
    var s, sent := SenderOf(t, u), Sent(t, u.inputs);
    StepFrame(t, s, input);
    OthersGrow(t, sent, s.readTotal, Step(t, s, input).readTotal, i);
    if input.Proceed? && CanTransmit(s) {
      var k := HonestSends(t, u.inputs);
      OneMoreOther(t, sent, s.readTotal, i, k);
    } else {
      assert sent + Output(t, s, input) == sent;
    }
  }

  /** An ACK that is accepted then leaves the end out of reach. */
  lemma {:induction false} DoomedAccepts(t: Transfer, u: World, i: nat, x: u16)
    requires t.Valid() && Doomed(t, u, i) && x in u.acks
    requires Listening(SenderOf(t, u)) && Accepts(SenderOf(t, u), x)
    ensures NamedBlock(SenderOf(t, u).ackedTotal, x) == x <= u.receiver.last < SenderOf(t, u).readTotal
    ensures !SenderOf(t, u).done
  {
    var s := SenderOf(t, u);
    assert WindowIndex(s) == s.ackedTotal + 1;
    UnwrappedNames(s, x);
  }

  lemma {:induction false} DoomedSteps(t: Transfer, u: World, i: nat, input: Input)
    requires t.Valid() && Doomed(t, u, i) && Possible(t, u, SenderMoves(input))
    ensures Doomed(t, Moved(t, u, SenderMoves(input)), i)
  {
    var s := SenderOf(t, u);
    StepCounts(t, s, input);
    if input.Heard? && input.message.Ack? && Accepts(s, input.message.block) {
      DoomedAccepts(t, u, i, input.message.block);
    }
    Turns.Goes(t, u.inputs, input);
    Extend(t, u.inputs, input);
    DoomedSent(t, u, i, input);
    StaysShadowed(i, s.readTotal, Step(t, s, input).readTotal, t.window);
  }

  /** The receiver passes over a block beyond the lost one. */
  lemma {:induction false} PassesBeyond(t: Transfer, r: Receiver, i: nat, k: nat)
    requires r.last < i < WORDS && i < k < r.last + 1 + WORDS
    ensures Receive(t.blockSize, r, DataPacket(t, k)) == r
  {
    ReceivePacket(t.blockSize, r, Wrap(k), Payload(t, k));
    WrappedDistance(r.last + 1, k);
  }

  lemma {:induction false} DoomedTakes(t: Transfer, u: World, i: nat, k: nat) returns (r: Receiver)
    requires t.Valid() && Doomed(t, u, i) && 1 <= k <= SenderOf(t, u).readTotal && k != i
    ensures r == Receive(t.blockSize, u.receiver, DataPacket(t, k))
    ensures ReceiverInv(t, r, i - 1) && u.receiver.last <= r.last
  {
    if k < i {
      r := ReceiveBlock(t, u.receiver, k);
      ReceiveKeepsPrefix(t, u.receiver, r, k, i - 1);
    } else {
      r := u.receiver;
      PassesBeyond(t, u.receiver, i, k);
    }
  }

  lemma {:induction false} DoomedDelivers(t: Transfer, u: World, i: nat, p: Bytes)
    requires t.Valid() && Doomed(t, u, i) && p in Sent(t, u.inputs)
    ensures Doomed(t, Moved(t, u, Delivers(p)), i)
  {
    assert IsOther(t, p, SenderOf(t, u).readTotal, i);
    var k :| 1 <= k <= SenderOf(t, u).readTotal && k != i && p == DataPacket(t, k);
    var r := DoomedTakes(t, u, i, k);
  }

  /** Once a block is lost that way the transfer never completes. */
  lemma {:induction false} StaysDoomed(t: Transfer, u: World, i: nat, move: Move)
    requires t.Valid() && Doomed(t, u, i) && Possible(t, u, move)
    ensures Doomed(t, Moved(t, u, move), i)
  {
    match move
    case SenderMoves(input) => DoomedSteps(t, u, i, input);
    case Delivers(p) => DoomedDelivers(t, u, i, p);
    case Acknowledges =>
  }

  // ---------------------------------------------------------------------------------------
  // Before a loss

  /** Before block 65536 is sent, neither the receiver nor any ACK is beyond block r. */
  ghost predicate Calm(t: Transfer, u: World, r: nat) {
    && Turns.Going(t, u.inputs)
    && r < WORDS
    && OnlyBlocks(t, Sent(t, u.inputs), r)
    && ReceiverInv(t, u.receiver, r)
    && SenderOf(t, u).ackedTotal <= u.receiver.last
    && forall x :: x in u.acks ==> x <= u.receiver.last
  }

  /** All blocks up to the mark were sent, and those that wait lie in their slots. */
  ghost predicate Fine(t: Transfer, u: World, r: nat) {
    && Legal(t, u.inputs)
    && Waiting(t, SenderOf(t, u), r)
    && OutUpTo(t, u.inputs, OutMark(SenderOf(t, u), r))
    && (SenderOf(t, u).readTotal < WORDS ==> WorldInv(t, u))
    && (SenderOf(t, u).phase.Filling? && r < WORDS ==> Calm(t, u, r))
  }

  /** A block is lost before it is sent, and the end of the file is near enough to complete. */
  predicate Trap(t: Transfer, i: nat, j: nat)
    requires t.Valid()
  {
    && t.window < i < WORDS <= j <= BlockCount(t)
    && j < i + t.window
    && Slot(i, t.window) == Slot(j, t.window)
    && BlockCount(t) < i + t.window - 1
  }

  ghost predicate NoTrap(t: Transfer)
    requires t.Valid()
  {
    forall i, j :: !Trap(t, i, j)
  }

  lemma {:induction false} FirstWrapClash(t: Transfer, i: nat, j: nat)
    requires t.Valid() && NoTrap(t) && t.window < i < j <= BlockCount(t) < 2 * WORDS
    requires j < i + t.window && Slot(i, t.window) == Slot(j, t.window)
    ensures i < WORDS <= j && i + t.window - 1 <= BlockCount(t)
  {
    ClashIsAcrossWrap(i, j, t.window);
    assert Lap(j) <= 1;
    assert !Trap(t, i, j);
  }

  lemma {:induction false} OldAreOthers(t: Transfer, sent: seq<Bytes>, r: nat, n: nat, i: nat)
    requires OnlyBlocks(t, sent, r) && r < i && r <= n
    ensures OthersOnly(t, sent, n, i)
  {
    forall p | p in sent ensures IsOther(t, p, n, i) {
      assert IsBlockUpTo(t, p, r);
      var k :| 1 <= k <= r && p == DataPacket(t, k);
    }
  }

  /** A block that waits is overwritten only past the first window, and by one beyond the wrap. */
  lemma {:induction false} OverwrittenLate(t: Transfer, s: State, r: nat, i: nat)
    requires t.Valid() && NoTrap(t) && BlockCount(t) < 2 * WORDS && Waiting(t, s, r) && CanRead(t, s)
    requires r < i <= s.readTotal && Overwrites(t, s, i)
    ensures i < WORDS <= BlockCount(t) && i + t.window - 1 <= BlockCount(t)
    ensures !Newest(i, s.readTotal + 1, t.window)
  {
    var j := s.readTotal + 1;
    ClashIsAcrossWrap(i, j, t.window);
    FirstWrapClash(t, i, j);
  }

  lemma {:induction false} ReadsOn(t: Transfer, u: World, r: nat, i: nat)
    requires t.Valid() && Calm(t, u, r) && CanRead(t, SenderOf(t, u)) && r < i
    ensures var v, n := Moved(t, u, SenderMoves(Proceed)), SenderOf(t, u).readTotal + 1;
            && Turns.Going(t, v.inputs)
            && SenderOf(t, v) == Push(t, SenderOf(t, u))
            && (r <= n ==> OthersOnly(t, Sent(t, v.inputs), n, i))
  {
    var n := SenderOf(t, u).readTotal + 1;
    Turns.Goes(t, u.inputs, Proceed);
    Extend(t, u.inputs, Proceed);
    if r <= n {
      OldAreOthers(t, Sent(t, u.inputs), r, n, i);
    }
    assert Sent(t, u.inputs) + [] == Sent(t, u.inputs);
  }

  lemma {:induction false} CalmToDoomed(t: Transfer, u: World, v: World, r: nat, i: nat)
    requires t.Valid() && BlockCount(t) < 2 * WORDS && NoTrap(t) && Fine(t, u, r) && CanRead(t, SenderOf(t, u))
    requires r < i <= SenderOf(t, u).readTotal && Overwrites(t, SenderOf(t, u), i)
    requires v == Moved(t, u, SenderMoves(Proceed))
    ensures Doomed(t, v, i)
  {
    OverwrittenLate(t, SenderOf(t, u), r, i);
    ReadsOn(t, u, r, i);
  }

  /** What a step of the sender does while nothing is lost. */
  lemma {:induction false} FineStep(t: Transfer, u: World, r: nat, input: Input) returns (r': nat)
    requires t.Valid() && Fine(t, u, r) && Possible(t, u, SenderMoves(input))
    requires input.Proceed? && CanRead(t, SenderOf(t, u)) ==> NoneOverwritten(t, SenderOf(t, u), r)
    ensures Fine(t, Moved(t, u, SenderMoves(input)), r')
  {
    var s, v := SenderOf(t, u), Moved(t, u, SenderMoves(input));
    var s' := Step(t, s, input);
    Extend(t, u.inputs, input);
    r' := WaitingStep(t, s, input, r);
    StepOut(t, u.inputs, input, OutMark(s, r), OutMark(s', r'));
    StepFrame(t, s, input);
    if s'.readTotal < WORDS {
      SenderMoveKeeps(t, u, input);
    }
    if s'.phase.Filling? && r' < WORDS {
      StaysCalm(t, u, r, input, r');
    }
  }

  lemma {:induction false} SafeIsCalm(t: Transfer, u: World)
    requires WorldInv(t, u)
    ensures Calm(t, u, SenderOf(t, u).readTotal)
  {
  }

  lemma {:induction false} StaysCalm(t: Transfer, u: World, r: nat, input: Input, r': nat)
    requires t.Valid() && Fine(t, u, r) && Possible(t, u, SenderMoves(input))
    requires Step(t, SenderOf(t, u), input).phase.Filling? && r' < WORDS
    requires r' == if input.Heard? then Step(t, SenderOf(t, u), input).readTotal else r
    ensures Calm(t, Moved(t, u, SenderMoves(input)), r')
  {
    if input.Heard? {
      StepFrame(t, SenderOf(t, u), input);
      SenderMoveKeeps(t, u, input);
      Extend(t, u.inputs, input);
      SafeIsCalm(t, Moved(t, u, SenderMoves(input)));
    } else {
      ProceedsCalmly(t, u, r);
    }
  }

  lemma {:induction false} ProceedsCalmly(t: Transfer, u: World, r: nat)
    requires t.Valid() && Calm(t, u, r) && CanRead(t, SenderOf(t, u))
    ensures Calm(t, Moved(t, u, SenderMoves(Proceed)), r)
  {
    Turns.Goes(t, u.inputs, Proceed);
    Extend(t, u.inputs, Proceed);
    assert Sent(t, u.inputs) + [] == Sent(t, u.inputs);
  }

  lemma {:induction false} CalmDelivers(t: Transfer, u: World, r: nat, p: Bytes)
    requires t.Valid() && Calm(t, u, r) && p in Sent(t, u.inputs)
    ensures Calm(t, Moved(t, u, Delivers(p)), r)
  {
    assert IsBlockUpTo(t, p, r);
    var k :| 1 <= k <= r && p == DataPacket(t, k);
    var r' := ReceiveBlock(t, u.receiver, k);
    ReceiveKeepsPrefix(t, u.receiver, r', k, r);
  }

  lemma {:induction false} FineDelivers(t: Transfer, u: World, r: nat, p: Bytes)
    requires t.Valid() && Fine(t, u, r) && p in Sent(t, u.inputs)
    ensures Fine(t, Moved(t, u, Delivers(p)), r)
  {
    if SenderOf(t, u).readTotal < WORDS {
      DeliveryKeeps(t, u, p);
    }
    if SenderOf(t, u).phase.Filling? && r < WORDS {
      CalmDelivers(t, u, r, p);
    }
  }

  /** After any move all is fine, or a block is lost and the transfer will never complete. */
  lemma {:induction false} FineMoves(t: Transfer, u: World, r: nat, move: Move) returns (r': nat, i: nat)
    requires t.Valid() && BlockCount(t) < 2 * WORDS && NoTrap(t) && Fine(t, u, r) && Possible(t, u, move)
    ensures Fine(t, Moved(t, u, move), r') || Doomed(t, Moved(t, u, move), i)
  {
    r', i := r, 0;
    match move
    case SenderMoves(input) =>
      var s := SenderOf(t, u);
      if input.Proceed? && CanRead(t, s) && !NoneOverwritten(t, s, r) {
        i :| r < i <= s.readTotal && Overwrites(t, s, i);
        CalmToDoomed(t, u, Moved(t, u, move), r, i);
      } else {
        r' := FineStep(t, u, r, input);
      }
    case Delivers(p) => FineDelivers(t, u, r, p);
    case Acknowledges =>
  }

  lemma {:induction false} StartFine(t: Transfer)
    requires t.Valid()
    ensures Fine(t, Start(), 0)
  {
    StartSafe(t);
  }

  lemma {:induction false} PlayFine(t: Transfer, moves: seq<Move>) returns (r: nat, i: nat)
    requires t.Valid() && BlockCount(t) < 2 * WORDS && NoTrap(t) && Play(t, moves).Some?
    ensures Fine(t, Play(t, moves).value, r) || Doomed(t, Play(t, moves).value, i)
  {
    if moves == [] {
      r, i := 0, 0;
      StartFine(t);
    } else {
      var before, move := moves[..|moves| - 1], moves[|moves| - 1];
      r, i := PlayFine(t, before);
      if Fine(t, Play(t, before).value, r) {
        r, i := FineMoves(t, Play(t, before).value, r, move);
      } else {
        StaysDoomed(t, Play(t, before).value, i, move);
      }
    }
  }

  /** A world whose sender has completed has sent every block. */
  lemma {:induction false} CompletedAllOut(t: Transfer, u: World)
    requires t.Valid() && BlockCount(t) < 2 * WORDS && NoTrap(t) && Reachable(t, u)
    requires Legal(t, u.inputs) && SenderOf(t, u).phase == Ended(Completed)
    ensures OutUpTo(t, u.inputs, BlockCount(t))
  {
    var moves :| Play(t, moves) == Some(u);
    var r, i := PlayFine(t, moves);
  }

  // ---------------------------------------------------------------------------------------
  // Runs that complete with a block missing

  /** Block i was never sent, and no longer lies in its slot. */
  ghost predicate Missing(t: Transfer, u: World, i: nat) {
    && Turns.Going(t, u.inputs)
    && Reachable(t, u)
    && !WentOut(t, u.inputs, i)
    && 1 <= i <= SenderOf(t, u).readTotal
    && !Newest(i, SenderOf(t, u).readTotal, t.window)
  }

  /** A possible step of the sender that leaves it honest. */
  lemma {:induction false} GoesOn(t: Transfer, u: World, input: Input) returns (v: World)
    requires t.Valid() && Reachable(t, u) && Turns.Going(t, u.inputs) && Possible(t, u, SenderMoves(input))
    requires Step(t, SenderOf(t, u), input).ackedTotal <= Step(t, SenderOf(t, u), input).readTotal
    ensures v == Moved(t, u, SenderMoves(input)) && Reachable(t, v) && Turns.Going(t, v.inputs)
    ensures SenderOf(t, v) == Step(t, SenderOf(t, u), input)
  {
    v := Moved(t, u, SenderMoves(input));
    MoveReachable(t, u, SenderMoves(input));
    Turns.Goes(t, u.inputs, input);
  }

  lemma {:induction false} StaysMissing(t: Transfer, u: World, input: Input, i: nat) returns (v: World)
    requires t.Valid() && Missing(t, u, i) && Possible(t, u, SenderMoves(input))
    requires Step(t, SenderOf(t, u), input).ackedTotal <= Step(t, SenderOf(t, u), input).readTotal
    ensures v == Moved(t, u, SenderMoves(input)) && Missing(t, v, i)
    ensures SenderOf(t, v) == Step(t, SenderOf(t, u), input)
  {
    v := GoesOn(t, u, input);
    StepFrame(t, SenderOf(t, u), input);
    StaysShadowed(i, SenderOf(t, u).readTotal, SenderOf(t, v).readTotal, t.window);
    OneMoreOut(t, u.inputs, input, i);
  }

  /** The sender goes on until it listens. */
  lemma {:induction false} UntilListening(t: Transfer, u: World, i: nat) returns (v: World)
    requires t.Valid() && Missing(t, u, i) && !SenderOf(t, u).phase.Ended?
    ensures Missing(t, v, i) && Listening(SenderOf(t, v)) && v.acks == u.acks && v.receiver == u.receiver
    ensures SenderOf(t, v).ackedTotal == SenderOf(t, u).ackedTotal
    ensures SenderOf(t, u).readTotal == BlockCount(t) ==> SenderOf(t, v).done
    decreases BlockCount(t) - SenderOf(t, u).readTotal, SenderOf(t, u).phase.Filling?,
              if SenderOf(t, u).phase.Sending? then SenderOf(t, u).count - SenderOf(t, u).phase.next else 0
  {
    v := u;
    if !Listening(SenderOf(t, u)) {
      Turns.ProceedCounts(t, SenderOf(t, u));
      var w := StaysMissing(t, u, Proceed, i);
      v := UntilListening(t, w, i);
    }
  }

  /** An ACK of an outstanding block is heard, with no wrap between the front of the window and it. */
  lemma {:induction false} HearsBlock(t: Transfer, u: World, k: nat, i: nat) returns (v: World)
    requires t.Valid() && Reachable(t, u) && Turns.Going(t, u.inputs) && Listening(SenderOf(t, u))
    requires SenderOf(t, u).ackedTotal < k <= SenderOf(t, u).readTotal && Wrap(k) in u.acks
    requires k == SenderOf(t, u).ackedTotal + 1 || k / WORDS == (SenderOf(t, u).ackedTotal + 1) / WORDS
    ensures Reachable(t, v) && Turns.Going(t, v.inputs) && v.acks == u.acks
    ensures SenderOf(t, v).ackedTotal == k && SenderOf(t, v).readTotal == SenderOf(t, u).readTotal
    ensures SenderOf(t, v).phase == if SenderOf(t, u).done then Ended(Completed) else Filling
    ensures Missing(t, u, i) ==> Missing(t, v, i)
  {
    Turns.HeardStep(t, SenderOf(t, u), k);
    if Missing(t, u, i) {
      v := StaysMissing(t, u, Heard(Ack(Wrap(k))), i);
    } else {
      v := GoesOn(t, u, Heard(Ack(Wrap(k))));
    }
  }

  /** A block that has not been read has not been sent. */
  lemma {:induction false} UnreadNotOut(t: Transfer, inputs: seq<Input>, i: nat)
    requires Legal(t, inputs) && StateAfter(t, inputs).readTotal < i
    ensures !WentOut(t, inputs, i)
  {
    if inputs != [] {
      var before, input := inputs[..|inputs| - 1], inputs[|inputs| - 1];
      StepFrame(t, StateAfter(t, before), input);
      UnreadNotOut(t, before, i);
    }
  }

  /** The window is filled; nothing is sent meanwhile. */
  lemma {:induction false} FillsQuietly(t: Transfer, u: World, i: nat) returns (v: World)
    requires t.Valid() && Reachable(t, u) && Turns.Going(t, u.inputs) && SenderOf(t, u).phase.Filling?
    requires !WentOut(t, u.inputs, i)
    ensures Reachable(t, v) && Turns.Going(t, v.inputs) && SenderOf(t, v).phase.Filling? && v.acks == u.acks
    ensures SenderOf(t, v).ackedTotal == SenderOf(t, u).ackedTotal
    ensures SenderOf(t, v).readTotal == Min(SenderOf(t, u).ackedTotal + t.window, BlockCount(t))
    ensures !WentOut(t, v.inputs, i)
    decreases BlockCount(t) - SenderOf(t, u).readTotal
  {
    v := u;
    if CanRead(t, SenderOf(t, u)) {
      Turns.ProceedCounts(t, SenderOf(t, u));
      OneMoreOut(t, u.inputs, Proceed, i);
      var w := GoesOn(t, u, Proceed);
      v := FillsQuietly(t, w, i);
    }
  }

  /** Blocks i and j are read in one go, so that block i is lost before it is sent. */
  lemma {:induction false} ReadsBoth(t: Transfer, u: World, i: nat, j: nat) returns (v: World)
    requires t.Valid() && Reachable(t, u) && Turns.Going(t, u.inputs) && SenderOf(t, u).phase.Filling?
    requires SenderOf(t, u).readTotal < i < j <= Min(SenderOf(t, u).ackedTotal + t.window, BlockCount(t))
    requires Slot(i, t.window) == Slot(j, t.window)
    ensures Missing(t, v, i) && Listening(SenderOf(t, v)) && v.acks == u.acks
    ensures SenderOf(t, v).ackedTotal == SenderOf(t, u).ackedTotal
    ensures SenderOf(t, u).ackedTotal + t.window >= BlockCount(t) ==> SenderOf(t, v).done
  {
    UnreadNotOut(t, u.inputs, i);
    var full := FillsQuietly(t, u, i);
    assert !Newest(i, SenderOf(t, full).readTotal, t.window);
    v := UntilListening(t, full, i);
  }

  /** With old ACKs of every number the sender goes on to the end. */
  lemma {:induction false} CompletesMissing(t: Transfer, u: World, i: nat) returns (v: World)
    requires t.Valid() && Missing(t, u, i) && Listening(SenderOf(t, u)) && AllAcks(u)
    ensures Missing(t, v, i) && SenderOf(t, v).phase == Ended(Completed)
    decreases BlockCount(t) - SenderOf(t, u).ackedTotal
  {
    v := HearsBlock(t, u, SenderOf(t, u).ackedTotal + 1, i);
    if SenderOf(t, v).phase.Filling? {
      var w := UntilListening(t, v, i);
      v := CompletesMissing(t, w, i);
    }
  }

  /** The remainder of 65536 leaves room for one more window. */
  lemma {:induction false} RemainderFits(w: nat)
    requires 1 <= w < WORDS
    ensures WORDS % w < w && WORDS % w + w <= WORDS
  {
    if w > WORDS / 2 {
      DivisionUnique(WORDS, 1, WORDS - w, w);
    }
  }

  /** The sender stands before block i, with blocks up to a acknowledged and every number on the network. */
  lemma {:induction false} PastWrapAt(t: Transfer, i: nat, a: nat) returns (u: World)
    requires t.Valid() && WORDS - 1 + t.window < i <= BlockCount(t) && i - t.window <= a < i
    requires a / WORDS == (i - t.window) / WORDS
    ensures Turns.Going(t, u.inputs) && Reachable(t, u) && AllAcks(u) && SenderOf(t, u).phase.Filling?
    ensures SenderOf(t, u).ackedTotal == a && SenderOf(t, u).readTotal == i - 1
  {
    var past := PastTheWrap(t);
    var sent := SendUpTo(t, past, i - 1);
    u := HearsBlock(t, sent, a, i);
  }

  /** Where the second wrap takes a slot from a block before it. */
  lemma {:induction false} SecondWrap(t: Transfer) returns (i: nat)
    requires t.Valid() && WORDS % t.window != 0
    ensures WORDS - 1 + t.window < i < 2 * WORDS < i + t.window && Slot(i, t.window) == Slot(2 * WORDS, t.window)
    ensures (2 * WORDS - t.window) / WORDS == (i - t.window) / WORDS
  {
    RemainderFits(t.window);
    i := 2 * WORDS - WORDS % t.window;
    assert Wrap(2 * WORDS) == Wrap(WORDS) && Wrap(WORDS) == 0;
    CollidesWithZero(2 * WORDS, t.window, WORDS % t.window);
  }

  /** Past block 131071 a block can be lost at the second wrap, and old ACKs complete the transfer. */
  lemma {:induction false} LosesLate(t: Transfer) returns (u: World, i: nat)
    requires t.Valid() && BlockCount(t) >= 2 * WORDS && WORDS % t.window != 0
    ensures Missing(t, u, i) && SenderOf(t, u).phase == Ended(Completed) && i <= BlockCount(t)
  {
    i := SecondWrap(t);
    var stands := PastWrapAt(t, i, 2 * WORDS - t.window);
    var lost := ReadsBoth(t, stands, i, 2 * WORDS);
    u := CompletesMissing(t, lost, i);
  }

  lemma {:induction false} HearsEarly(t: Transfer, u: World, k: u16, i: nat) returns (v: World)
    requires t.Valid() && Reachable(t, u) && Turns.Going(t, u.inputs) && Listening(SenderOf(t, u))
    requires SenderOf(t, u).ackedTotal < k <= SenderOf(t, u).readTotal && k in u.acks
    ensures Reachable(t, v) && Turns.Going(t, v.inputs) && v.acks == u.acks
    ensures SenderOf(t, v).ackedTotal == k && SenderOf(t, v).readTotal == SenderOf(t, u).readTotal
    ensures SenderOf(t, v).phase == if SenderOf(t, u).done then Ended(Completed) else Filling
    ensures Missing(t, u, i) ==> Missing(t, v, i)
  {
    assert Wrap(k) == k;
    v := HearsBlock(t, u, k, i);
  }

  lemma {:induction false} ListensAfter(t: Transfer, y: nat) returns (u: World)
    requires t.Valid() && y + t.window < Min(WORDS, BlockCount(t))
    ensures Steady(t, u) && WorldInv(t, u) && Listening(SenderOf(t, u))
    ensures SenderOf(t, u).ackedTotal == u.receiver.last == y && AcksUpTo(u.acks, u.receiver.last)
    ensures SenderOf(t, u).readTotal == Reached(SenderOf(t, u)) == y + t.window
  {
    var begun := DriveTo(t, y);
    u := PlayAttempt(t, begun);
  }

  /** The sender has read up to y + w and has x acknowledged; the next ACK is on the network. */
  lemma {:induction false} BeforeWrapAt(t: Transfer, y: nat, x: u16, next: u16) returns (u: World)
    requires t.Valid() && y < x < next == x + 1 <= y + t.window < Min(WORDS, BlockCount(t))
    ensures Turns.Going(t, u.inputs) && Reachable(t, u) && next in u.acks && SenderOf(t, u).phase.Filling?
    ensures SenderOf(t, u).ackedTotal == x && SenderOf(t, u).readTotal == y + t.window
  {
    var sent := ListensAfter(t, y);
    var given := AcknowledgeEach(t, sent, next);
    assert x in given.acks && next in given.acks;
    u := HearsEarly(t, given, x, 0);
  }

  /** Close to the end of the file, a block lost at the first wrap is passed over by a partial ACK. */
  lemma {:induction false} LosesEarly(t: Transfer, i: nat, j: nat) returns (u: World)
    requires t.Valid() && Trap(t, i, j)
    ensures Missing(t, u, i) && SenderOf(t, u).phase == Ended(Completed)
  {
    var x: u16 := BlockCount(t) - t.window;
    var next: u16 := x + 1;
    var stands := BeforeWrapAt(t, i - 1 - t.window, x, next);
    var lost := ReadsBoth(t, stands, i, j);
    u := HearsEarly(t, lost, next, i);
  }

  // ---------------------------------------------------------------------------------------
  // Which transfers these are

  /** How the slots of blocks before and after the first wrap compare. */
  lemma {:induction false} SlotsAtFirstWrap(w: nat, e: nat, c: nat)
    requires 1 <= w < WORDS && 1 <= e && c + e < w
    ensures Slot(WORDS - e, w) == Slot(WORDS + c, w) <==> c + e == WORDS % w
  {
    var q, d := WORDS % w, WORDS / w;
    assert WORDS == w * d + q;
    assert Wrap(WORDS + c) == Wrap(c) && Wrap(c) == c && Wrap(WORDS - e) == WORDS - e;
    DivisionUnique(c, 0, c, w);
    if e <= q {
      DivisionUnique(WORDS - e, d, q - e, w);
    } else {
      assert w * (d - 1) == w * d - w;
      DivisionUnique(WORDS - e, d - 1, w + q - e, w);
    }
  }

  /** Of the transfers of 65536 to 131071 blocks, those that can lose a block and complete. */
  predicate Trapped(t: Transfer)
    requires t.Valid()
  {
    && WORDS % t.window + 2 <= t.window < WORDS - 1
    && BlockCount(t) + 3 <= WORDS + t.window
    && (t.window > WORDS / 2 ==> BlockCount(t) > WORDS)
  }

  lemma {:induction false} TrapMeans(t: Transfer, i: nat, j: nat)
    requires t.Valid() && Trap(t, i, j)
    ensures Trapped(t)
  {
    SlotsAtFirstWrap(t.window, WORDS - i, j - WORDS);
    if t.window > WORDS / 2 {
      DivisionUnique(WORDS, 1, WORDS - t.window, t.window);
    }
  }

  lemma {:induction false} FindTrap(t: Transfer) returns (i: nat, j: nat)
    requires t.Valid() && WORDS <= BlockCount(t) && Trapped(t) && WORDS % t.window != 0
    ensures Trap(t, i, j)
  {
    var q := WORDS % t.window;
    var e := Max(1, q - (BlockCount(t) - WORDS));
    i, j := WORDS - e, WORDS + (q - e);
    RemainderFits(t.window);
    SlotsAtFirstWrap(t.window, e, q - e);
    if t.window > WORDS / 2 {
      DivisionUnique(WORDS, 1, WORDS - t.window, t.window);
    }
  }

  /** Every completed world, whatever the network did, has sent every block. */
  ghost predicate SentWhenCompleted(t: Transfer)
    requires t.Valid()
  {
    forall u :: Reachable(t, u) && Legal(t, u.inputs) && SenderOf(t, u).phase == Ended(Completed) ==>
                  OutUpTo(t, u.inputs, BlockCount(t))
  }

  /** That is so exactly for these transfers. */
  predicate NeverMissing(t: Transfer)
    requires t.Valid()
  {
    || BlockCount(t) < WORDS
    || WORDS % t.window == 0
    || (BlockCount(t) < 2 * WORDS && !Trapped(t))
  }

  lemma {:induction false} NeverMissingAllOut(t: Transfer, u: World)
    requires t.Valid() && NeverMissing(t) && Reachable(t, u)
    requires Legal(t, u.inputs) && SenderOf(t, u).phase == Ended(Completed)
    ensures OutUpTo(t, u.inputs, BlockCount(t))
  {
    if RingSound(t) {
      SoundAllOut(t, u.inputs);
    } else {
      forall i, j ensures !Trap(t, i, j) {
        if Trap(t, i, j) {
          TrapMeans(t, i, j);
        }
      }
      CompletedAllOut(t, u);
    }
  }

  lemma {:induction false} SentWhenCompletedExactly(t: Transfer)
    requires t.Valid()
    ensures SentWhenCompleted(t) <==> NeverMissing(t)
  {
    if NeverMissing(t) {
      forall u | Reachable(t, u) && Legal(t, u.inputs) && SenderOf(t, u).phase == Ended(Completed)
        ensures OutUpTo(t, u.inputs, BlockCount(t))
      {
        NeverMissingAllOut(t, u);
      }
    } else if BlockCount(t) < 2 * WORDS {
      var i, j := FindTrap(t);
      var u := LosesEarly(t, i, j);
    } else {
      var u, i := LosesLate(t);
    }
  }
}
