/** How long a transfer can go on, and what each acknowledgement it accepts achieves. */
module Bounds {
  import opened Wire
  import opened Blocks
  import opened Sender
  import opened Network
  import opened Runs
  import opened Deliveries

  lemma {:induction false} SpentGrows(rounds: nat, more: nat, cost: nat)
    requires rounds <= more
    ensures Spent(rounds, cost) <= Spent(more, cost)
  {
    if rounds < more {
      SpentGrows(rounds, more - 1, cost);
    }
  }

  /** The most datagrams that the rounds of a transfer can send, all attempts taken together. */
  function DatagramBound(t: Transfer): nat
    requires t.Valid()
  {
    Spent(RoundBound(t), SEND_ATTEMPTS * Min(t.window, BlockCount(t)))
  }

  lemma {:induction false} DatagramBoundIs(t: Transfer)
    requires t.Valid()
    ensures DatagramBound(t) == Max(1, BlockCount(t) - t.window + 1) * (5 * Min(t.window, BlockCount(t)))
  {
    SpentIs(RoundBound(t), SEND_ATTEMPTS * Min(t.window, BlockCount(t)));
  }

  /** The rounds, the datagrams of the round and those of the run are within their bounds. */
  ghost predicate Within(t: Transfer, inputs: seq<Input>) {
    && Legal(t, inputs)
    && var s := StateAfter(t, inputs);
       && s.rounds <= RoundBound(t)
       && s.roundSends <= SEND_ATTEMPTS * Min(t.window, BlockCount(t))
       && |Sent(t, inputs)| <= DatagramBound(t)
  }

  lemma {:induction false} HonestWithin(t: Transfer, inputs: seq<Input>)
    requires Honest(t, inputs)
    ensures Within(t, inputs)
  {
    var s, cost := StateAfter(t, inputs), SEND_ATTEMPTS * Min(t.window, BlockCount(t));
    HonestCounters(t, inputs);
    HonestCost(t, inputs);
    HonestTotal(t, inputs);
    SpentGrows(s.rounds, RoundBound(t), cost);
  }

  /** Accepting the ACK of an outstanding block acknowledges exactly the blocks up to it. */
  lemma {:induction false} OutstandingAdvances(t: Transfer, s: State, k: nat)
    requires CounterInv(t, s) && s.ackedTotal < k <= s.readTotal
    ensures Accept(t, s, Wrap(k)).ackedTotal == k && Wrap(k) != s.acked
  {
    WrappedDistance(s.ackedTotal + 1, k);
    WrappedDistance(s.ackedTotal, k);
  }

  // ---------------------------------------------------------------------------------------
  // Transfers that end before a stale number can pass

  /** The window that begins with block 65536 reaches the end of the file. */
  predicate LastLap(t: Transfer)
    requires t.Valid()
  {
    BlockCount(t) <= WORDS - 1 + t.window
  }

  /** The sender has never been misled; until it has read block 65536 the whole world is safe. */
  ghost predicate Tame(t: Transfer, u: World) {
    && Honest(t, u.inputs)
    && CounterInv(t, SenderOf(t, u))
    && (SenderOf(t, u).readTotal < WORDS ==> WorldInv(t, u))
  }

  /** The transfer has completed within its bounds. */
  ghost predicate Over(t: Transfer, u: World) {
    Within(t, u.inputs) && SenderOf(t, u).phase == Ended(Completed)
  }

  lemma {:induction false} EarlyWindow(t: Transfer, s: State)
    requires CounterInv(t, s) && Listening(s) && !s.done && LastLap(t)
    ensures s.ackedTotal < WORDS - 1 && WindowIndex(s) == s.ackedTotal + 1
  {
  }

  lemma {:induction false} UnwrappedNames(s: State, x: u16)
    requires s.ackedTotal < WORDS - 1 && x >= s.ackedTotal + 1
    ensures NamedBlock(s.ackedTotal, x) == x
  {
  }

  /** In such a transfer what is accepted before the end names an outstanding block. */
  lemma {:induction false} AcceptedAdvances(t: Transfer, u: World, x: u16)
    requires t.Valid() && LastLap(t) && Tame(t, u) && x in u.acks
    requires Listening(SenderOf(t, u)) && Accepts(SenderOf(t, u), x) && !SenderOf(t, u).done
    ensures SenderOf(t, u).ackedTotal < NamedBlock(SenderOf(t, u).ackedTotal, x) == x <= SenderOf(t, u).readTotal
  {
    var s := SenderOf(t, u);
    EarlyWindow(t, s);
    UnwrappedNames(s, x);
    if s.readTotal < WORDS {
      AcceptedIsOutstanding(t, u, x);
    }
  }

  lemma {:induction false} HonestStepTame(t: Transfer, u: World, input: Input)
    requires t.Valid() && Tame(t, u) && Possible(t, u, SenderMoves(input))
    requires Step(t, SenderOf(t, u), input).ackedTotal <= Step(t, SenderOf(t, u), input).readTotal
    ensures Tame(t, Moved(t, u, SenderMoves(input)))
  {
    var s := SenderOf(t, u);
    var s' := Step(t, s, input);
    StepCounts(t, s, input);
    Extend(t, u.inputs, input);
    ExtendHonest(t, u.inputs, input);
    StepKeepsCounters(t, s, input);
    if s'.readTotal < WORDS {
      SenderMoveKeeps(t, u, input);
    }
  }

  lemma {:induction false} CompletingStep(t: Transfer, inputs: seq<Input>, x: u16)
    requires Honest(t, inputs) && Listening(StateAfter(t, inputs))
    requires Accepts(StateAfter(t, inputs), x) && StateAfter(t, inputs).done
    ensures Within(t, inputs + [Heard(Ack(x))])
    ensures StateAfter(t, inputs + [Heard(Ack(x))]).phase == Ended(Completed)
  {
    HonestWithin(t, inputs);
    Extend(t, inputs, Heard(Ack(x)));
  }

  lemma {:induction false} MoveTame(t: Transfer, u: World, move: Move)
    requires t.Valid() && LastLap(t) && Tame(t, u) && Possible(t, u, move)
    ensures Tame(t, Moved(t, u, move)) || Over(t, Moved(t, u, move))
  {
    match move
    case SenderMoves(input) =>
      var s := SenderOf(t, u);
      StepCounts(t, s, input);
      if input.Heard? && input.message.Ack? && Accepts(s, input.message.block) {
        if s.done {
          CompletingStep(t, u.inputs, input.message.block);
          return;
        }
        AcceptedAdvances(t, u, input.message.block);
      }
      HonestStepTame(t, u, input);
    case Delivers(p) =>
      if SenderOf(t, u).readTotal < WORDS {
        DeliveryKeeps(t, u, p);
      }
    case Acknowledges =>
  }

  lemma {:induction false} PlayTame(t: Transfer, moves: seq<Move>)
    requires t.Valid() && LastLap(t) && Play(t, moves).Some?
    ensures Tame(t, Play(t, moves).value) || Over(t, Play(t, moves).value)
  {
    if moves == [] {
      StartSafe(t);
    } else {
      var before, move := moves[..|moves| - 1], moves[|moves| - 1];
      PlayTame(t, before);
      var u := Play(t, before).value;
      if Tame(t, u) {
        MoveTame(t, u, move);
      }
    }
  }

  lemma {:induction false} ReachableTame(t: Transfer, u: World)
    requires t.Valid() && LastLap(t) && Reachable(t, u)
    ensures Tame(t, u) || Over(t, u)
  {
    var moves :| Play(t, moves) == Some(u);
    PlayTame(t, moves);
  }

  /** Rounds and datagrams are bounded, whatever the network does. */
  lemma {:induction false} DatagramsBounded(t: Transfer, u: World)
    requires t.Valid() && LastLap(t) && Reachable(t, u)
    ensures Within(t, u.inputs)
  {
    ReachableTame(t, u);
    if Tame(t, u) {
      HonestWithin(t, u.inputs);
    }
  }

  // ---------------------------------------------------------------------------------------
  // Longer transfers

  /** The sender sends the window that begins with block 65536, and ACK 65535 is on the network. */
  ghost predicate Looping(t: Transfer, u: World) {
    && Legal(t, u.inputs)
    && Reachable(t, u)
    && AllAcks(u)
    && Stuck(t, SenderOf(t, u))
  }

  ghost predicate Stuck(t: Transfer, s: State) {
    && WellFormed(t, s)
    && s.acked == WORDS - 1
    && s.lastRead == t.window - 1
    && s.count == t.window
    && !s.done
    && s.phase.Sending?
  }

  lemma {:induction false} StuckTransmits(t: Transfer, s: State)
    requires Stuck(t, s) && CanTransmit(s)
    ensures Stuck(t, Step(t, s, Proceed)) && |Output(t, s, Proceed)| == 1
  {
  }

  /** A duplicate of ACK 65535 is accepted, acknowledges nothing, and starts the round again. */
  lemma {:induction false} StuckHears(t: Transfer, s: State)
    requires Stuck(t, s) && Listening(s)
    ensures var input := Heard(Ack(WORDS - 1));
            && Accepts(s, WORDS - 1)
            && Enabled(t, s, input) && Output(t, s, input) == []
            && var s' := Step(t, s, input);
               && (s'.acked, s'.lastRead, s'.count, s'.done) == (s.acked, s.lastRead, s.count, s.done)
               && Enabled(t, s', Proceed) && Output(t, s', Proceed) == []
               && Stuck(t, Step(t, s', Proceed)) && CanTransmit(Step(t, s', Proceed))
  {
    assert WindowIndex(s) == 0;
    assert WrappingSub(s.lastRead, WORDS - 1) == t.window;
  }

  lemma {:induction false} SenderStepReachable(t: Transfer, u: World, input: Input) returns (v: World)
    requires Legal(t, u.inputs) && Reachable(t, u) && AllAcks(u) && Enabled(t, SenderOf(t, u), input)
    ensures Legal(t, v.inputs) && Reachable(t, v) && AllAcks(v)
    ensures SenderOf(t, v) == Step(t, SenderOf(t, u), input)
    ensures Sent(t, v.inputs) == Sent(t, u.inputs) + Output(t, SenderOf(t, u), input)
  {
    Extend(t, u.inputs, input);
    MoveReachable(t, u, SenderMoves(input));
    v := Moved(t, u, SenderMoves(input));
  }

  lemma {:induction false} BeginAgain(t: Transfer, u: World) returns (v: World)
    requires Looping(t, u) && Listening(SenderOf(t, u))
    ensures Looping(t, v) && CanTransmit(SenderOf(t, v)) && Sent(t, v.inputs) == Sent(t, u.inputs)
  {
    StuckHears(t, SenderOf(t, u));
    var heard := SenderStepReachable(t, u, Heard(Ack(WORDS - 1)));
    v := SenderStepReachable(t, heard, Proceed);
  }

  lemma {:induction false} OneMoreDatagram(t: Transfer, u: World) returns (v: World)
    requires Looping(t, u)
    ensures Looping(t, v) && |Sent(t, v.inputs)| == |Sent(t, u.inputs)| + 1
  {
    v := u;
    if Listening(SenderOf(t, u)) {
      v := BeginAgain(t, u);
    }
    StuckTransmits(t, SenderOf(t, v));
    v := SenderStepReachable(t, v, Proceed);
  }

  lemma {:induction false} AtTheWrap(t: Transfer, s: State)
    requires CounterInv(t, s) && Listening(s) && s.ackedTotal == WORDS - 1 && !LastLap(t)
    ensures Stuck(t, s)
  {
    assert s.readTotal == WORDS + (t.window - 1);
    WrappedSum(WORDS, t.window - 1);
  }

  lemma {:induction false} ReachLoop(t: Transfer) returns (u: World)
    requires t.Valid() && !LastLap(t)
    ensures Looping(t, u) && Listening(SenderOf(t, u))
  {
    u := PastTheWrap(t);
    AtTheWrap(t, SenderOf(t, u));
  }

  /** Longer transfers can be made to send any number of datagrams. */
  lemma {:induction false} SendsWithoutEnd(t: Transfer, n: nat) returns (u: World)
    requires t.Valid() && !LastLap(t)
    ensures Looping(t, u) && |Sent(t, u.inputs)| >= n
  {
    if n == 0 {
      u := ReachLoop(t);
    } else {
      u := SendsWithoutEnd(t, n - 1);
      u := OneMoreDatagram(t, u);
    }
  }

  ghost predicate SendsAtMost(t: Transfer, n: nat)
    requires t.Valid()
  {
    forall u :: Reachable(t, u) ==> Legal(t, u.inputs) && |Sent(t, u.inputs)| <= n
  }

  /** A bound on the datagrams of a transfer exists exactly if its last window begins by block 65536. */
  lemma {:induction false} BoundedExactly(t: Transfer)
    requires t.Valid()
    ensures (exists n: nat :: SendsAtMost(t, n)) <==> BlockCount(t) <= WORDS - 1 + t.window
    ensures LastLap(t) ==> SendsAtMost(t, DatagramBound(t))
  {
    if LastLap(t) {
      forall u | Reachable(t, u) ensures Legal(t, u.inputs) && |Sent(t, u.inputs)| <= DatagramBound(t) {
        DatagramsBounded(t, u);
      }
      assert SendsAtMost(t, DatagramBound(t));
    } else {
      forall n: nat ensures !SendsAtMost(t, n) {
        var u := SendsWithoutEnd(t, n + 1);
      }
    }
  }

  /** Accepting x acknowledges blocks that were outstanding. */
  ghost predicate Advances(t: Transfer, s: State, x: u16) {
    x != s.acked && s.ackedTotal < Accept(t, s, x).ackedTotal <= s.readTotal
  }

  /** Every ACK of the receiver that is accepted moves the window on, or ends the transfer. */
  ghost predicate AlwaysAdvances(t: Transfer)
    requires t.Valid()
  {
    forall u, x ::
      Reachable(t, u) && Legal(t, u.inputs) && x in u.acks && Listening(SenderOf(t, u)) && Accepts(SenderOf(t, u), x) ==>
        SenderOf(t, u).done || Advances(t, SenderOf(t, u), x)
  }

  lemma {:induction false} AdvancesExactly(t: Transfer)
    requires t.Valid()
    ensures AlwaysAdvances(t) <==> BlockCount(t) <= WORDS - 1 + t.window
  {
    if LastLap(t) {
      forall u, x | Reachable(t, u) && Legal(t, u.inputs) && x in u.acks && Listening(SenderOf(t, u)) && Accepts(SenderOf(t, u), x)
        ensures SenderOf(t, u).done || Advances(t, SenderOf(t, u), x)
      {
        ReachableTame(t, u);
        if !SenderOf(t, u).done {
          AcceptedAdvances(t, u, x);
        }
      }
    } else {
      var u := ReachLoop(t);
      StuckHears(t, SenderOf(t, u));
    }
  }

  // ---------------------------------------------------------------------------------------
  // The debug assertions

  /** No more than a window is outstanding, by the sender's own 16-bit account. */
  ghost predicate AssertionsHold(t: Transfer)
    requires t.Valid()
  {
    forall u :: Reachable(t, u) && Legal(t, u.inputs) && !SenderOf(t, u).phase.Ended? ==> SenderOf(t, u).count <= t.window
  }

  /** An old ACK makes the sender believe that more than a window is outstanding. */
  lemma {:induction false} AssertionFails(t: Transfer) returns (u: World)
    requires t.Valid() && !LastLap(t) && t.window < WORDS - 1
    ensures Reachable(t, u) && Legal(t, u.inputs) && SenderOf(t, u).phase.Filling?
    ensures SenderOf(t, u).count > t.window
  {
    u := ReachLoop(t);
    assert Accepts(SenderOf(t, u), t.window);
    assert WrappingSub(t.window - 1, t.window) == WORDS - 1;
    u := SenderStepReachable(t, u, Heard(Ack(t.window)));
  }

  lemma {:induction false} AssertionsHoldExactly(t: Transfer)
    requires t.Valid()
    ensures AssertionsHold(t) <==> BlockCount(t) <= WORDS - 1 + t.window || t.window == WORDS - 1
  {
    if LastLap(t) {
      forall u | Reachable(t, u) && Legal(t, u.inputs) && !SenderOf(t, u).phase.Ended?
        ensures SenderOf(t, u).count <= t.window
      {
        ReachableTame(t, u);
      }
    } else if t.window < WORDS - 1 {
      var u := AssertionFails(t);
    }
  }
}
