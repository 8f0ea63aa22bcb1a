/**
 What the receiver is left with once block numbers have wrapped: up to 65536 blocks no number
 means two of them, and beyond that a late packet is taken for another block.
 */
module Deliveries {
  import opened Wire
  import opened Blocks
  import opened Slots
  import opened Sender
  import opened RingBuffer
  import opened Network
  import opened Runs

  /** The receiver holds exactly the first m blocks. */
  ghost predicate Holds(t: Transfer, r: Receiver, m: nat) {
    && t.Valid()
    && m <= BlockCount(t)
    && r.last == Wrap(m)
    && r.data == t.file[..EndOf(t, m)]
    && (r.finished <==> m == BlockCount(t))
  }

  /** Handed the packet of block k, the receiver turns from r into r'. */
  ghost predicate Handed(t: Transfer, r: Receiver, k: nat, r': Receiver)
    requires 1 <= k
  {
    r' == Receive(t.blockSize, r, DataPacket(t, k))
  }

  lemma {:induction false} GrowsByNext(t: Transfer, r: Receiver, k: nat, r': Receiver)
    requires 1 <= k && Holds(t, r, k - 1) && k <= BlockCount(t)
    requires r' == Receiver(Wrap(k), r.data + Payload(t, k), |Payload(t, k)| < t.blockSize)
    ensures Holds(t, r', k)
  {
    ShortExactlyLast(t, k);
    PrefixGrows(t, k);
  }

  /** Taking the next block, which carries the number the receiver expects. */
  lemma {:induction false} TakesNext(t: Transfer, r: Receiver, k: nat) returns (r': Receiver)
    requires 1 <= k && Holds(t, r, k - 1) && k <= BlockCount(t)
    ensures Handed(t, r, k, r') && Holds(t, r', k)
  {
    r' := Receiver(Wrap(k), r.data + Payload(t, k), |Payload(t, k)| < t.blockSize);
    GrowsByNext(t, r, k, r');
    WrappedSum(k - 1, 1);
    ReceivePacket(t.blockSize, r, Wrap(k), Payload(t, k));
  }

  /** Among the numbers of 65536 consecutive blocks no two are the same. */
  lemma {:induction false} SameNumber(i: nat, j: nat)
    requires 1 <= i <= WORDS && 1 <= j <= WORDS && Wrap(i) == Wrap(j)
    ensures i == j
  {
  }

  lemma {:induction false} PassesOver(t: Transfer, r: Receiver, m: nat, k: nat)
    requires Holds(t, r, m) && BlockCount(t) <= WORDS && 1 <= k <= BlockCount(t) && k != m + 1
    ensures Handed(t, r, k, r)
  {
    ReceivePacket(t.blockSize, r, Wrap(k), Payload(t, k));
    if m < BlockCount(t) && Wrap(k) == WrappingAdd(r.last, 1) {
      WrappedSum(m, 1);
      SameNumber(k, m + 1);
    }
  }

  /** Up to 65536 blocks, whatever true packet arrives, the receiver holds the first so many blocks. */
  lemma {:induction false} BlockHandled(t: Transfer, r: Receiver, m: nat, k: nat) returns (r': Receiver, m': nat)
    requires Holds(t, r, m) && BlockCount(t) <= WORDS && 1 <= k <= BlockCount(t)
    ensures Handed(t, r, k, r') && Holds(t, r', m')
  {
    if k == m + 1 {
      m' := k;
      r' := TakesNext(t, r, k);
    } else {
      m', r' := m, r;
      PassesOver(t, r, m, k);
    }
  }

  lemma {:induction false} DeliveryHolds(t: Transfer, r: Receiver, m: nat, p: Bytes) returns (m': nat)
    requires Holds(t, r, m) && BlockCount(t) <= WORDS && IsBlockUpTo(t, p, BlockCount(t))
    ensures Holds(t, Receive(t.blockSize, r, p), m')
  {
    var k :| 1 <= k <= BlockCount(t) && p == DataPacket(t, k);
    var r';
    r', m' := BlockHandled(t, r, m, k);
  }

  lemma {:induction false} SentIsTrue(t: Transfer, inputs: seq<Input>, p: Bytes)
    requires Legal(t, inputs) && p in Sent(t, inputs)
    ensures IsBlockUpTo(t, p, BlockCount(t))
  {
    EveryRunTruthful(t, inputs);
    OnlyBlocksGrow(t, Sent(t, inputs), StateAfter(t, inputs).readTotal, BlockCount(t));
  }

  lemma {:induction false} PlayHolds(t: Transfer, moves: seq<Move>) returns (m: nat)
    requires t.Valid() && BlockCount(t) <= WORDS && Play(t, moves).Some?
    ensures Holds(t, Play(t, moves).value.receiver, m)
  {
    if moves == [] {
      m := 0;
    } else {
      var before, move := moves[..|moves| - 1], moves[|moves| - 1];
      m := PlayHolds(t, before);
      var u := Play(t, before).value;
      if move.Delivers? {
        SentIsTrue(t, u.inputs, move.datagram);
        m := DeliveryHolds(t, u.receiver, m, move.datagram);
      }
    }
  }

  /** With at most 65536 blocks the receiver always holds the first so many of them. */
  lemma {:induction false} ReachableHolds(t: Transfer, u: World) returns (m: nat)
    requires t.Valid() && BlockCount(t) <= WORDS && Reachable(t, u)
    ensures Holds(t, u.receiver, m)
  {
    var moves :| Play(t, moves) == Some(u);
    m := PlayHolds(t, moves);
  }

  // ---------------------------------------------------------------------------------------
  // Past the wrap

  /** The sender awaits an ACK, every number is acknowledged, and every block read has been sent. */
  ghost predicate Exposed(t: Transfer, u: World) {
    && Steady(t, u)
    && AllAcks(u)
    && Listening(SenderOf(t, u))
    && Covered(t, Sent(t, u.inputs), SenderOf(t, u).readTotal)
  }

  /** The block that was read last is in its slot. */
  ghost predicate NewestKept(t: Transfer, s: State) {
    WellFormed(t, s) && 1 <= s.readTotal && s.slots[Slot(s.readTotal, t.window)] == DataPacket(t, s.readTotal)
  }

  lemma {:induction false} TransmitFrame(t: Transfer, s: State)
    requires NewestKept(t, s) && CanTransmit(s)
    ensures var s' := Step(t, s, Proceed);
            && NewestKept(t, s')
            && s'.readTotal == s.readTotal
            && s'.count == s.count
            && s'.phase == Sending(s.phase.attempt, s.phase.next + 1)
  {
  }

  lemma {:induction false} NewestIsLast(t: Transfer, s: State)
    requires CounterInv(t, s) && NewestKept(t, s) && CanTransmit(s) && s.phase.next + 1 == s.count
    ensures Output(t, s, Proceed) == [DataPacket(t, s.readTotal)]
  {
    TransmitsTheSlot(t, s);
  }

  /** The rest of an attempt sends the block that was read last, which nothing has overwritten. */
  lemma {:induction false} SendNewest(t: Transfer, u: World) returns (v: World)
    requires Steady(t, u) && CanTransmit(SenderOf(t, u)) && NewestKept(t, SenderOf(t, u))
    ensures SameRound(t, u, v) && Listening(SenderOf(t, v))
    ensures SenderOf(t, v).readTotal == SenderOf(t, u).readTotal
    ensures DataPacket(t, SenderOf(t, u).readTotal) in Sent(t, v.inputs)
    ensures Sent(t, u.inputs) <= Sent(t, v.inputs)
    decreases SenderOf(t, u).count - SenderOf(t, u).phase.next
  {
    var s := SenderOf(t, u);
    v := OneStep(t, u);
    Extend(t, u.inputs, Proceed);
    TransmitFrame(t, s);
    if s.phase.next + 1 == s.count {
      NewestIsLast(t, s);
    } else {
      v := SendNewest(t, v);
    }
  }

  /** Reading the one block that is missing, then beginning to send. */
  lemma {:induction false} ReadsOne(t: Transfer, s: State)
    requires CounterInv(t, s) && s.phase.Filling? && !s.done && s.readTotal == s.ackedTotal + t.window - 1
    ensures CanRead(t, s) && Output(t, s, Proceed) == []
    ensures var s' := Step(t, s, Proceed);
            && s'.phase.Filling?
            && Output(t, s', Proceed) == []
            && var s'' := Step(t, s', Proceed);
               CanTransmit(s'') && s''.readTotal == s.readTotal + 1 && NewestKept(t, s'')
  {
    PushStoresPacket(t, s);
  }

  lemma {:induction false} OneMoreCovered(t: Transfer, sent: seq<Bytes>, more: seq<Bytes>, n: nat)
    requires 1 <= n && Covered(t, sent, n - 1) && sent <= more && DataPacket(t, n) in more
    ensures Covered(t, more, n)
  {
    forall k | 1 <= k <= n ensures DataPacket(t, k) in more {
      if k < n {
        assert DataPacket(t, k) in sent;
      }
    }
  }

  /** The sender is about to send, and the block it read last is the only one not sent before. */
  ghost predicate OneToSend(t: Transfer, u: World) {
    && Steady(t, u)
    && CanTransmit(SenderOf(t, u))
    && NewestKept(t, SenderOf(t, u))
    && Covered(t, Sent(t, u.inputs), SenderOf(t, u).readTotal - 1)
  }

  lemma {:induction false} ReadNext(t: Transfer, u: World) returns (v: World)
    requires Steady(t, u) && SenderOf(t, u).phase.Filling? && !SenderOf(t, u).done
    requires SenderOf(t, u).readTotal == SenderOf(t, u).ackedTotal + t.window - 1
    requires Covered(t, Sent(t, u.inputs), SenderOf(t, u).readTotal)
    ensures OneToSend(t, v) && v.acks == u.acks && v.receiver == u.receiver
    ensures SenderOf(t, v).readTotal == SenderOf(t, u).readTotal + 1
  {
    ReadsOne(t, SenderOf(t, u));
    var read := OneStep(t, u);
    Extend(t, u.inputs, Proceed);
    v := OneStep(t, read);
    Extend(t, read.inputs, Proceed);
  }

  lemma {:induction false} SendNext(t: Transfer, u: World) returns (v: World)
    requires OneToSend(t, u)
    ensures Steady(t, v) && v.acks == u.acks && v.receiver == u.receiver
    ensures Listening(SenderOf(t, v)) && SenderOf(t, v).readTotal == SenderOf(t, u).readTotal
    ensures Covered(t, Sent(t, v.inputs), SenderOf(t, v).readTotal)
  {
    v := SendNewest(t, u);
    OneMoreCovered(t, Sent(t, u.inputs), Sent(t, v.inputs), SenderOf(t, u).readTotal);
  }

  /** Old ACKs make the sender read and send one block after another, up to block n. */
  lemma {:induction false} SendUpTo(t: Transfer, u: World, n: nat) returns (v: World)
    requires Exposed(t, u) && SenderOf(t, u).readTotal <= n <= BlockCount(t)
    ensures Exposed(t, v) && SenderOf(t, v).readTotal == n && v.receiver == u.receiver
    decreases n - SenderOf(t, u).readTotal
  {
    v := u;
    if SenderOf(t, u).readTotal < n {
      var heard := HearNextNumber(t, u);
      var read := ReadNext(t, heard);
      var sent := SendNext(t, read);
      v := SendUpTo(t, sent, n);
    }
  }

  /** The receiver holds m blocks, and the first n have been sent. */
  ghost predicate Taking(t: Transfer, u: World, m: nat, n: nat) {
    && Legal(t, u.inputs)
    && Reachable(t, u)
    && Holds(t, u.receiver, m)
    && m <= n <= BlockCount(t)
    && Covered(t, Sent(t, u.inputs), n)
  }

  /** A packet of block k can be delivered. */
  ghost predicate Available(t: Transfer, u: World, k: nat) {
    Legal(t, u.inputs) && Reachable(t, u) && 1 <= k && DataPacket(t, k) in Sent(t, u.inputs)
  }

  lemma {:induction false} AllAvailable(t: Transfer, u: World, m: nat, n: nat, k: nat)
    requires Taking(t, u, m, n) && 1 <= k <= n
    ensures Available(t, u, k)
  {
  }

  /** The network hands the receiver a packet of a block that was sent. */
  lemma {:induction false} Deliver(t: Transfer, u: World, k: nat, r: Receiver) returns (v: World)
    requires Available(t, u, k) && Handed(t, u.receiver, k, r)
    ensures v == u.(receiver := r) && Reachable(t, v)
  {
    MoveReachable(t, u, Delivers(DataPacket(t, k)));
    v := Moved(t, u, Delivers(DataPacket(t, k)));
  }

  lemma {:induction false} TakeOne(t: Transfer, u: World, k: nat, n: nat) returns (v: World)
    requires 1 <= k <= n && Taking(t, u, k - 1, n)
    ensures Taking(t, v, k, n)
  {
    AllAvailable(t, u, k - 1, n, k);
    var r := TakesNext(t, u.receiver, k);
    v := Deliver(t, u, k, r);
  }

  /** The receiver takes the blocks from m + 1 to k in order. */
  lemma {:induction false} TakesUpTo(t: Transfer, u: World, m: nat, k: nat, n: nat) returns (v: World)
    requires Taking(t, u, m, n) && m <= k <= n
    ensures Taking(t, v, k, n)
  {
    v := u;
    if m < k {
      v := TakesUpTo(t, u, m, k - 1, n);
      v := TakeOne(t, v, k, n);
    }
  }

  /** A receiver that holds k - 1 blocks takes block i for block k if they have the same number. */
  lemma {:induction false} TakesOld(t: Transfer, r: Receiver, i: nat, k: nat) returns (r': Receiver)
    requires 1 <= i && 1 <= k && Wrap(i) == Wrap(k) && Holds(t, r, k - 1) && k <= BlockCount(t)
    ensures Handed(t, r, i, r') && r'.data == t.file[..EndOf(t, k - 1)] + Payload(t, i)
  {
    WrappedSum(k - 1, 1);
    ReceivePacket(t.blockSize, r, Wrap(i), Payload(t, i));
    r' := Receive(t.blockSize, r, DataPacket(t, i));
  }

  /** All numbers are acknowledged, and the window that begins with block 65536 is out. */
  lemma {:induction false} PastTheWrap(t: Transfer) returns (u: World)
    requires t.Valid() && BlockCount(t) >= WORDS
    ensures Exposed(t, u) && SenderOf(t, u).ackedTotal == WORDS - 1 && SenderOf(t, u).readTotal >= WORDS
    ensures Holds(t, u.receiver, WORDS - 1)
  {
    var wrapped := ReachWrap(t);
    u := PlayAttempt(t, wrapped);
    assert SameLap(WORDS, Full(t, wrapped), t.window);
    assert Reached(SenderOf(t, u)) == SenderOf(t, u).readTotal >= WORDS;
  }

  /** Whatever the length of the file, the receiver can be handed its first n blocks. */
  lemma {:induction false} ReceiverReaches(t: Transfer, n: nat) returns (u: World)
    requires t.Valid() && WORDS <= n <= BlockCount(t)
    ensures Taking(t, u, n, n)
  {
    var past := PastTheWrap(t);
    u := SendUpTo(t, past, Max(n, SenderOf(t, past).readTotal));
    u := TakesUpTo(t, u, WORDS - 1, n, n);
  }

  lemma {:induction false} SameNumberTaken(t: Transfer, u: World, i: nat, k: nat) returns (v: World)
    requires 1 <= i < k && Wrap(i) == Wrap(k) && Taking(t, u, k - 1, k - 1) && k <= BlockCount(t)
    ensures Reachable(t, v) && v.receiver.data == t.file[..EndOf(t, k - 1)] + Payload(t, i)
  {
    AllAvailable(t, u, k - 1, k - 1, i);
    var r := TakesOld(t, u.receiver, i, k);
    v := Deliver(t, u, i, r);
  }

  /** Any block after the first 65536 can be confounded with the one 65536 blocks before it. */
  lemma {:induction false} OldBlockTaken(t: Transfer, k: nat) returns (u: World)
    requires t.Valid() && WORDS < k <= BlockCount(t)
    ensures Reachable(t, u) && u.receiver.data == t.file[..EndOf(t, k - 1)] + Payload(t, k - WORDS)
  {
    var taken := ReceiverReaches(t, k - 1);
    u := SameNumberTaken(t, taken, k - WORDS, k);
  }
}
