/** What a transfer guarantees, and exactly for which transfers it does. */
module Guarantees {
  import opened Wire
  import opened Blocks
  import opened Slots
  import opened Sender
  import opened RingBuffer
  import opened Network
  import opened Runs
  import opened Deliveries
  import opened Transmissions
  import PeerHandler
  import Options

  // ---------------------------------------------------------------------------------------
  // Acknowledgements

  /** Whatever ACK of the receiver the sender accepts, now or late, names an outstanding block. */
  ghost predicate AcceptsOnlyOutstanding(t: Transfer)
    requires t.Valid()
  {
    forall u, x ::
      Reachable(t, u) && x in u.acks && Legal(t, u.inputs) && Listening(SenderOf(t, u)) && Accepts(SenderOf(t, u), x) ==>
        Names(SenderOf(t, u), x)
  }

  ghost predicate Names(s: State, x: u16) {
    exists k :: s.ackedTotal < k <= s.readTotal && Wrap(k) == x
  }

  /** At the wrap every number passes the comparison, also that of the block just acknowledged. */
  lemma {:induction false} WrapAcceptsAnything(t: Transfer, s: State)
    requires CounterInv(t, s) && Listening(s) && s.ackedTotal == WORDS - 1
    ensures Accepts(s, WORDS - 1) && !Names(s, WORDS - 1)
  {
    assert WindowIndex(s) == 0;
    forall k | s.ackedTotal < k <= s.readTotal ensures Wrap(k) != WORDS - 1 {
      assert WORDS <= k < WORDS + WORDS - 1;
    }
  }

  /** With 65536 blocks or more, a duplicate of ACK 65535 is accepted though it names nothing. */
  lemma {:induction false} StaleAckAccepted(t: Transfer) returns (u: World)
    requires t.Valid() && BlockCount(t) >= WORDS
    ensures Reachable(t, u) && WORDS - 1 in u.acks && Legal(t, u.inputs)
    ensures Listening(SenderOf(t, u)) && Accepts(SenderOf(t, u), WORDS - 1)
    ensures !Names(SenderOf(t, u), WORDS - 1)
  {
    var early := DriveTo(t, WORDS - 1 - t.window);
    var edge := Advance(t, early, WORDS - 1);
    u := PlayAttempt(t, edge);
    WrapAcceptsAnything(t, SenderOf(t, u));
  }

  lemma {:induction false} AcceptedIsNamed(t: Transfer, u: World, x: u16)
    requires t.Valid() && BlockCount(t) < WORDS && Reachable(t, u) && x in u.acks
    requires Legal(t, u.inputs) && Listening(SenderOf(t, u)) && Accepts(SenderOf(t, u), x)
    ensures Names(SenderOf(t, u), x)
  {
    ReachableSafe(t, u);
    AcceptedIsOutstanding(t, u, x);
    assert Wrap(x) == x;
  }

  /** No stale acknowledgement is ever accepted, exactly for transfers of at most 65535 blocks. */
  lemma {:induction false} AcceptsOnlyOutstandingExactly(t: Transfer)
    requires t.Valid()
    ensures AcceptsOnlyOutstanding(t) <==> BlockCount(t) < WORDS
  {
    if BlockCount(t) < WORDS {
      forall u, x | Reachable(t, u) && x in u.acks && Legal(t, u.inputs) && Listening(SenderOf(t, u)) && Accepts(SenderOf(t, u), x)
        ensures Names(SenderOf(t, u), x)
      {
        AcceptedIsNamed(t, u, x);
      }
    } else {
      var u := StaleAckAccepted(t);
    }
  }

  /** Before any wrap, an ACK of the receiver ends the transfer exactly if it acknowledges nothing new. */
  lemma {:induction false} StaleAckFatalExactly(t: Transfer, u: World, x: u16)
    requires t.Valid() && BlockCount(t) < WORDS && Reachable(t, u) && x in u.acks
    requires Legal(t, u.inputs) && Listening(SenderOf(t, u))
    ensures Step(t, SenderOf(t, u), Heard(Ack(x))).phase == Ended(StaleAck) <==> x <= SenderOf(t, u).ackedTotal
  {
    ReachableSafe(t, u);
    assert WindowIndex(SenderOf(t, u)) == SenderOf(t, u).ackedTotal + 1;
  }

  /**
   Hearing the ACK that was accepted last once more does not end the transfer. If the receiver has
   acknowledged the options, that ACK is number 0 at first; otherwise it never sent such an ACK.
   */
  ghost predicate RepeatsHarmless(t: Transfer, negotiated: bool)
    requires t.Valid()
  {
    forall u ::
      Reachable(t, u) && Legal(t, u.inputs) && Listening(SenderOf(t, u)) && (negotiated || 0 !in u.acks) ==>
        SenderOf(t, u).acked !in u.acks || Accepts(SenderOf(t, u), SenderOf(t, u).acked)
  }

  /** A second copy of the ACK that accepted the options is fatal to every transfer. */
  lemma {:induction false} GreetingKills(t: Transfer) returns (u: World)
    requires t.Valid()
    ensures Reachable(t, u) && Legal(t, u.inputs) && Listening(SenderOf(t, u))
    ensures SenderOf(t, u).acked == 0 && 0 in u.acks
    ensures Step(t, SenderOf(t, u), Heard(Ack(0))).phase == Ended(StaleAck)
  {
    var greeted := Beginning(t);
    u := PlayAttempt(t, greeted);
  }

  /** After the first block was acknowledged, a second copy of that ACK is fatal. */
  lemma {:induction false} DuplicateKills(t: Transfer) returns (u: World)
    requires t.Valid() && BlockCount(t) > t.window
    ensures Reachable(t, u) && Legal(t, u.inputs) && Listening(SenderOf(t, u))
    ensures SenderOf(t, u).ackedTotal == SenderOf(t, u).acked == 1 && u.acks == {1}
    ensures Step(t, SenderOf(t, u), Heard(Ack(1))).phase == Ended(StaleAck)
  {
    StartReachable(t);
    StartSafe(t);
    var first := Advance(t, Start(), 1);
    u := PlayAttempt(t, first);
  }

  /** A file that fits into one window is over with the first ACK that is accepted. */
  lemma {:induction false} OneWindowOneAck(t: Transfer, inputs: seq<Input>)
    requires Legal(t, inputs) && BlockCount(t) <= t.window && !StateAfter(t, inputs).phase.Ended?
    ensures StateAfter(t, inputs).acked == 0
  {
    if inputs != [] {
      var before := inputs[..|inputs| - 1];
      OneWindowOneAck(t, before);
      EveryRunTruthful(t, before);
    }
  }

  /** A repeated ACK is harmless exactly if no options were acknowledged and one window holds the file. */
  lemma {:induction false} RepeatsHarmlessExactly(t: Transfer, negotiated: bool)
    requires t.Valid()
    ensures RepeatsHarmless(t, negotiated) <==> !negotiated && BlockCount(t) <= t.window
  {
    if negotiated {
      var u := GreetingKills(t);
    } else if BlockCount(t) <= t.window {
      forall u | Reachable(t, u) && Legal(t, u.inputs) && Listening(SenderOf(t, u)) && (negotiated || 0 !in u.acks)
        ensures SenderOf(t, u).acked !in u.acks || Accepts(SenderOf(t, u), SenderOf(t, u).acked)
      {
        OneWindowOneAck(t, u.inputs);
      }
    } else {
      var u := DuplicateKills(t);
    }
  }

  lemma {:induction false} AgreedIsValid(file: Bytes, options: map<Bytes, Bytes>)
    ensures Transfer(file, Options.Agreed(options).blockSize, Options.Agreed(options).window).Valid()
    ensures Options.Answer(options, Some(|file|)) == [] ==> Options.Agreed(options) == Options.Terms(5, 512, 1)
  {
    var a, b := Options.Pair(Options.TIMEOUT, Options.FindTimeout(options)), Options.Pair(Options.BLKSIZE, Options.FindBlksize(options));
    var c := Options.Pair(Options.TSIZE, if Options.TSIZE in options then Some(|file|) else None);
    var d := Options.Pair(Options.WINDOW_SIZE, Options.FindWindowSize(options));
    assert |Options.Answer(options, Some(|file|))| == |a| + |b| + |c| + |d|;
  }

  /** Of the requests served, repeated ACKs are harmless to those without options for less than 512 bytes. */
  lemma {:induction false} RepeatsServed(file: Bytes, options: map<Bytes, Bytes>)
    ensures var t := Transfer(file, Options.Agreed(options).blockSize, Options.Agreed(options).window);
            var negotiated := Options.Answer(options, Some(|file|)) != [];
            t.Valid() && (RepeatsHarmless(t, negotiated) <==> !negotiated && |file| < 512)
  {
    AgreedIsValid(file, options);
    RepeatsHarmlessExactly(Transfer(file, Options.Agreed(options).blockSize, Options.Agreed(options).window),
                           Options.Answer(options, Some(|file|)) != []);
  }

  /** An ACK for an outstanding block is accepted exactly when no wrap lies before that block. */
  lemma {:induction false} AcceptedUnlessWrapped(t: Transfer, inputs: seq<Input>, k: nat)
    requires Honest(t, inputs) && Listening(StateAfter(t, inputs))
    requires StateAfter(t, inputs).ackedTotal < k <= StateAfter(t, inputs).readTotal
    ensures Accepts(StateAfter(t, inputs), Wrap(k)) <==>
            k / WORDS == (StateAfter(t, inputs).ackedTotal + 1) / WORDS
  {
    HonestCounters(t, inputs);
    var s := StateAfter(t, inputs);
    WrappedSum(s.ackedTotal, 1);
    WrappedOrder(s.ackedTotal + 1, k);
  }

  /** Every ACK for an outstanding block is accepted. */
  ghost predicate AcceptsAllOutstanding(t: Transfer)
    requires t.Valid()
  {
    forall inputs, k ::
      && Honest(t, inputs)
      && Listening(StateAfter(t, inputs))
      && StateAfter(t, inputs).ackedTotal < k <= StateAfter(t, inputs).readTotal ==>
        Accepts(StateAfter(t, inputs), Wrap(k))
  }

  /** With 65536 blocks and a window of two, the ACK of block 65536 can be taken for an old one. */
  lemma {:induction false} FreshAckRefused(t: Transfer) returns (inputs: seq<Input>)
    requires t.Valid() && BlockCount(t) >= WORDS && t.window >= 2
    ensures Honest(t, inputs) && Listening(StateAfter(t, inputs))
    ensures StateAfter(t, inputs).ackedTotal < WORDS <= StateAfter(t, inputs).readTotal
    ensures !Accepts(StateAfter(t, inputs), Wrap(WORDS))
  {
    var early := DriveTo(t, WORDS - 1 - t.window);
    var edge := Advance(t, early, WORDS - 2);
    var u := PlayAttempt(t, edge);
    inputs := u.inputs;
    AcceptedUnlessWrapped(t, inputs, WORDS);
  }

  /** No acknowledgement is mistaken for an old one, exactly for these transfers. */
  lemma {:induction false} AcceptsAllOutstandingExactly(t: Transfer)
    requires t.Valid()
    ensures AcceptsAllOutstanding(t) <==> BlockCount(t) < WORDS || t.window == 1
  {
    if BlockCount(t) < WORDS || t.window == 1 {
      forall inputs, k | && Honest(t, inputs)
                         && Listening(StateAfter(t, inputs))
                         && StateAfter(t, inputs).ackedTotal < k <= StateAfter(t, inputs).readTotal
        ensures Accepts(StateAfter(t, inputs), Wrap(k))
      {
        HonestCounters(t, inputs);
        AcceptedUnlessWrapped(t, inputs, k);
      }
    } else {
      var inputs := FreshAckRefused(t);
    }
  }

  // ---------------------------------------------------------------------------------------
  // Buffers

  /** In every run whose accepted ACKs name outstanding blocks, no outstanding block is lost. */
  ghost predicate RingHolds(t: Transfer)
    requires t.Valid()
  {
    forall inputs :: Honest(t, inputs) ==> RingInv(t, StateAfter(t, inputs))
  }

  /** Reading block 65536 behind a full window overwrites a block that is still outstanding. */
  lemma {:induction false} WrapOverwrites(t: Transfer, s: State)
    requires CounterInv(t, s) && CanRead(t, s) && WORDS % t.window != 0
    requires s.ackedTotal == WORDS - t.window && s.readTotal == WORDS - 1
    ensures !RingInv(t, Push(t, s))
  {
    var i := WORDS - WORDS % t.window;
    CollidesWithZero(WORDS, t.window, WORDS % t.window);
    PushStoresPacket(t, s);
    assert Push(t, s).slots[Slot(i, t.window)] == DataPacket(t, WORDS);
    NumbersDiffer(t, i, WORDS);
  }

  lemma {:induction false} OutstandingBlockOverwritten(t: Transfer) returns (inputs: seq<Input>)
    requires t.Valid() && BlockCount(t) >= WORDS && WORDS % t.window != 0
    ensures Honest(t, inputs) && !RingInv(t, StateAfter(t, inputs))
  {
    var u := DriveTo(t, WORDS - t.window);
    var v := OneStep(t, u);
    inputs := v.inputs;
    WrapOverwrites(t, SenderOf(t, u));
  }

  /** The ring of buffers is sound exactly for these transfers. */
  lemma {:induction false} RingHoldsExactly(t: Transfer)
    requires t.Valid()
    ensures RingHolds(t) <==> BlockCount(t) < WORDS || WORDS % t.window == 0
  {
    if RingSound(t) {
      forall inputs | Honest(t, inputs) ensures RingInv(t, StateAfter(t, inputs)) {
        HonestRing(t, inputs);
      }
    } else {
      var inputs := OutstandingBlockOverwritten(t);
    }
  }

  /** Whatever is sent next in an honest run is the packet of the block whose turn it is. */
  lemma {:induction false} TransmissionsFaithful(t: Transfer, inputs: seq<Input>)
    requires Honest(t, inputs) && RingSound(t) && CanTransmit(StateAfter(t, inputs))
    ensures Output(t, StateAfter(t, inputs), Proceed)
            == [DataPacket(t, StateAfter(t, inputs).ackedTotal + 1 + StateAfter(t, inputs).phase.next)]
  {
    HonestCounters(t, inputs);
    HonestRing(t, inputs);
    TransmitsTheBlock(t, StateAfter(t, inputs));
  }

  /** Whatever ACKs it accepts, the sender never sends anything but packets of blocks it has read. */
  lemma {:induction false} OnlyTruePackets(t: Transfer, inputs: seq<Input>)
    requires Legal(t, inputs)
    ensures forall p :: p in Sent(t, inputs) ==> IsBlockUpTo(t, p, StateAfter(t, inputs).readTotal)
  {
    EveryRunTruthful(t, inputs);
  }

  /** A completed run of such a transfer, whatever ACKs it accepted, has put every block on the wire. */
  lemma {:induction false} CompletedSentAll(t: Transfer, inputs: seq<Input>)
    requires Legal(t, inputs) && RingSound(t) && StateAfter(t, inputs).phase == Ended(Completed)
    ensures forall k :: 1 <= k <= BlockCount(t) ==> DataPacket(t, k) in Sent(t, inputs)
  {
    SoundAllOut(t, inputs);
    forall k | 1 <= k <= BlockCount(t) ensures DataPacket(t, k) in Sent(t, inputs) {
      OutIsSent(t, inputs, k);
    }
  }

  // ---------------------------------------------------------------------------------------
  // Counters, progress and length

  /** The 16-bit difference is the true number of outstanding blocks, never above the window. */
  lemma {:induction false} CountersRefine(t: Transfer, inputs: seq<Input>)
    requires Honest(t, inputs)
    ensures var s := StateAfter(t, inputs);
            && WrappingSub(s.lastRead, s.acked) == s.readTotal - s.ackedTotal <= t.window
            && (!s.phase.Ended? ==> s.count == s.readTotal - s.ackedTotal)
  {
    HonestCounters(t, inputs);
    var s := StateAfter(t, inputs);
    WrappedDistance(s.ackedTotal, s.readTotal);
  }

  /** The total length of the payloads of the first k blocks. */
  function PayloadBytes(t: Transfer, k: nat): nat {
    if k == 0 then 0 else PayloadBytes(t, k - 1) + |Payload(t, k)|
  }

  lemma {:induction false} PayloadBytesAre(t: Transfer, k: nat)
    ensures PayloadBytes(t, k) == EndOf(t, k)
  {
    if k > 0 {
      PayloadBytesAre(t, k - 1);
    }
  }

  /** A completed run has read exactly size / bs + 1 blocks, whose payloads are the whole file. */
  lemma {:induction false} CompletedLength(t: Transfer, inputs: seq<Input>)
    requires Legal(t, inputs) && StateAfter(t, inputs).phase == Ended(Completed)
    ensures StateAfter(t, inputs).readTotal == |t.file| / t.blockSize + 1
    ensures StateAfter(t, inputs).offset == PayloadBytes(t, BlockCount(t)) == |t.file|
    ensures Joined(t, BlockCount(t)) == t.file
    ensures forall k :: 1 <= k < BlockCount(t) ==> |Payload(t, k)| == t.blockSize
    ensures |Payload(t, BlockCount(t))| == |t.file| % t.blockSize
  {
    EveryRunTruthful(t, inputs);
    PacketsAre(|t.file|, t.blockSize);
    PayloadLength(t, BlockCount(t));
    ShortExactlyLast(t, BlockCount(t));
    PayloadBytesAre(t, BlockCount(t));
    JoinedIsPrefix(t, BlockCount(t));
    forall k | 1 <= k < BlockCount(t) ensures |Payload(t, k)| == t.blockSize {
      PayloadLength(t, k);
    }
  }

  /**
   A completed transfer is reported with the length of the file, and with no blocks at all; if the
   size was asked for, that length is what the acknowledgement told the peer.
   */
  lemma {:induction false} CompletedReport(t: Transfer, inputs: seq<Input>, options: map<Bytes, Bytes>)
    requires Legal(t, inputs) && StateAfter(t, inputs).phase == Ended(Completed)
    ensures PeerHandler.Report(StateAfter(t, inputs)) == Ok((|t.file|, 0))
    ensures Options.TSIZE in options && |t.file| < Options.USIZE_LIMIT ==>
              Options.Told(Options.Received(options, Some(|t.file|)), Options.TSIZE)
              == Some(PeerHandler.Report(StateAfter(t, inputs)).value.0)
  {
    CompletedLength(t, inputs);
    if |t.file| < Options.USIZE_LIMIT {
      Options.TermsAgree(options, Some(|t.file|));
    }
  }

  // ---------------------------------------------------------------------------------------
  // The receiver

  /** The receiver holds the first so many blocks at all times, and the file once it is finished. */
  lemma {:induction false} ReceiverHoldsPrefix(t: Transfer, u: World) returns (m: nat)
    requires t.Valid() && BlockCount(t) <= WORDS && Reachable(t, u)
    ensures m <= BlockCount(t) && u.receiver.last == Wrap(m)
    ensures u.receiver.data == Joined(t, m) == t.file[..EndOf(t, m)]
    ensures u.receiver.finished <==> m == BlockCount(t)
    ensures u.receiver.finished ==> u.receiver.data == t.file
  {
    m := ReachableHolds(t, u);
    JoinedIsPrefix(t, m);
    ShortExactlyLast(t, BlockCount(t));
  }

  /** The receiver holds a prefix of the file in every run. */
  ghost predicate AlwaysPrefix(t: Transfer)
    requires t.Valid()
  {
    forall u :: Reachable(t, u) ==> u.receiver.data <= t.file
  }

  /** With more blocks, a full block can be taken for the last one, which is short. */
  lemma {:induction false} RunsOver(t: Transfer) returns (u: World)
    requires t.Valid() && BlockCount(t) > WORDS
    ensures Reachable(t, u) && |u.receiver.data| > |t.file|
  {
    var n := BlockCount(t);
    u := OldBlockTaken(t, n);
    ShortExactlyLast(t, n);
    ShortExactlyLast(t, n - WORDS);
  }

  /** The receiver is always left with a prefix of the file exactly if there are at most 65536 blocks. */
  lemma {:induction false} AlwaysPrefixExactly(t: Transfer)
    requires t.Valid()
    ensures AlwaysPrefix(t) <==> BlockCount(t) <= WORDS
  {
    if BlockCount(t) <= WORDS {
      forall u | Reachable(t, u) ensures u.receiver.data <= t.file {
        var m := ReceiverHoldsPrefix(t, u);
      }
    } else {
      var u := RunsOver(t);
    }
  }

  ghost predicate SuccessMeansDelivered(t: Transfer)
    requires t.Valid()
  {
    forall u ::
      Reachable(t, u) && Legal(t, u.inputs) && SenderOf(t, u).phase == Ended(Completed) ==>
        u.receiver.finished && u.receiver.data == t.file
  }

  /** The last ACK of a completed run is in the last window, and is matched by the receiver. */
  lemma {:induction false} CompletedWorld(t: Transfer, u: World)
    requires WorldInv(t, u) && SenderOf(t, u).phase == Ended(Completed) && BlockCount(t) < WORDS
    ensures BlockCount(t) - t.window < SenderOf(t, u).ackedTotal <= u.receiver.last
    ensures SenderOf(t, u).readTotal == BlockCount(t)
    ensures 1 <= SenderOf(t, u).ackedTotal
    ensures SenderOf(t, u).acked == SenderOf(t, u).lastRead ==> u.receiver.finished
  {
  }

  /** What normal completion says about the receiver, and all it says about the wire. */
  lemma {:induction false} FinalAckMeansDelivered(t: Transfer, u: World)
    requires t.Valid() && BlockCount(t) < WORDS && Reachable(t, u)
    requires Legal(t, u.inputs) && SenderOf(t, u).phase == Ended(Completed)
    ensures BlockCount(t) - t.window < SenderOf(t, u).ackedTotal <= u.receiver.last
    ensures forall k :: 1 <= k <= BlockCount(t) ==> DataPacket(t, k) in Sent(t, u.inputs)
    ensures SenderOf(t, u).acked == SenderOf(t, u).lastRead ==> u.receiver.finished && u.receiver.data == t.file
  {
    ReachableSafe(t, u);
    CompletedWorld(t, u);
    var m := ReceiverHoldsPrefix(t, u);
    CompletedSentAll(t, u.inputs);
  }

  /** A partial ACK of the last window ends the transfer before the receiver has all of it. */
  lemma {:induction false} EndsShort(t: Transfer) returns (u: World)
    requires t.Valid() && BlockCount(t) < WORDS && t.window >= 2 && BlockCount(t) >= 2
    ensures Reachable(t, u) && Legal(t, u.inputs)
    ensures SenderOf(t, u).phase == Ended(Completed) && !u.receiver.finished
  {
    var n := BlockCount(t);
    var before := DriveTo(t, Max(0, n - t.window));
    u := Advance(t, before, SenderOf(t, before).ackedTotal + 1);
  }

  /** Past block 65535, old ACKs alone can end a transfer of which the receiver has no more. */
  lemma {:induction false} EndsBlind(t: Transfer) returns (u: World)
    requires t.Valid() && BlockCount(t) >= WORDS
    ensures Reachable(t, u) && Legal(t, u.inputs)
    ensures SenderOf(t, u).phase == Ended(Completed) && !u.receiver.finished
  {
    var wrapped := ReachWrap(t);
    u := BlindRun(t, wrapped);
  }

  /** With one block to a window, or in all, the only ACK that ends a run is that of the last block. */
  lemma {:induction false} DeliveredIfSingle(t: Transfer, u: World)
    requires t.Valid() && BlockCount(t) < WORDS && Reachable(t, u)
    requires Legal(t, u.inputs) && SenderOf(t, u).phase == Ended(Completed)
    requires t.window == 1 || BlockCount(t) == 1
    ensures u.receiver.finished && u.receiver.data == t.file
  {
    ReachableSafe(t, u);
    CompletedWorld(t, u);
    var m := ReceiverHoldsPrefix(t, u);
  }

  /**
   That the sender completes means that the receiver has the whole file, in every run, exactly for
   transfers of at most 65535 blocks with a window of one block, or of a single block.
   */
  lemma {:induction false} SuccessMeansDeliveredExactly(t: Transfer)
    requires t.Valid()
    ensures SuccessMeansDelivered(t) <==> BlockCount(t) == 1 || (BlockCount(t) < WORDS && t.window == 1)
  {
    if BlockCount(t) == 1 || (BlockCount(t) < WORDS && t.window == 1) {
      forall u | Reachable(t, u) && Legal(t, u.inputs) && SenderOf(t, u).phase == Ended(Completed)
        ensures u.receiver.finished && u.receiver.data == t.file
      {
        DeliveredIfSingle(t, u);
      }
    } else if BlockCount(t) < WORDS {
      var u := EndsShort(t);
    } else {
      var u := EndsBlind(t);
    }
  }
}
