/** Whether each block is sent in its turn, in runs whose accepted ACKs name outstanding blocks. */
module Turns {
  import opened Wire
  import opened Arithmetic
  import opened Blocks
  import opened Slots
  import opened Sender
  import opened RingBuffer
  import opened Deliveries

  /** It is the turn of block k, and what goes out is the packet of block k. */
  ghost predicate Turn(t: Transfer, s: State, input: Input, k: nat) {
    && WellFormed(t, s)
    && input.Proceed?
    && CanTransmit(s)
    && 1 <= k == s.ackedTotal + 1 + s.phase.next
    && Output(t, s, input) == [DataPacket(t, k)]
  }

  /** Block k went out in its turn at some time. */
  ghost predicate WasSent(t: Transfer, inputs: seq<Input>, k: nat)
    requires Legal(t, inputs)
  {
    && inputs != []
    && var before, input := inputs[..|inputs| - 1], inputs[|inputs| - 1];
       WasSent(t, before, k) || Turn(t, StateAfter(t, before), input, k)
  }

  lemma {:induction false} OneMoreTurn(t: Transfer, inputs: seq<Input>, input: Input, k: nat)
    requires Legal(t, inputs) && Enabled(t, StateAfter(t, inputs), input)
    ensures Legal(t, inputs + [input])
    ensures WasSent(t, inputs + [input], k) <==> WasSent(t, inputs, k) || Turn(t, StateAfter(t, inputs), input, k)
  {
    Extend(t, inputs, input);
    var longer := inputs + [input];
    assert longer[..|longer| - 1] == inputs;
  }

  ghost predicate Going(t: Transfer, inputs: seq<Input>) {
    Honest(t, inputs) && CounterInv(t, StateAfter(t, inputs))
  }

  lemma {:induction false} Goes(t: Transfer, inputs: seq<Input>, input: Input)
    requires Going(t, inputs) && Enabled(t, StateAfter(t, inputs), input)
    requires Step(t, StateAfter(t, inputs), input).ackedTotal <= Step(t, StateAfter(t, inputs), input).readTotal
    ensures Going(t, inputs + [input])
    ensures StateAfter(t, inputs + [input]) == Step(t, StateAfter(t, inputs), input)
  {
    Extend(t, inputs, input);
    ExtendHonest(t, inputs, input);
    StepKeepsCounters(t, StateAfter(t, inputs), input);
  }

  // ---------------------------------------------------------------------------------------
  // Transfers in which every block is sent

  /** No two blocks that can be read in one go, after the first window, share a slot. */
  ghost predicate NoClash(t: Transfer)
    requires t.Valid()
  {
    forall i, j :: t.window < i < j <= BlockCount(t) && j < i + t.window ==> Slot(i, t.window) != Slot(j, t.window)
  }

  /** Every block up to n went out in its turn. */
  ghost predicate SentUpTo(t: Transfer, inputs: seq<Input>, n: nat)
    requires Legal(t, inputs)
  {
    forall k :: 1 <= k <= n ==> WasSent(t, inputs, k)
  }

  /** The blocks after r are intact in their slots. */
  ghost predicate Intact(t: Transfer, s: State, r: nat) {
    && WellFormed(t, s)
    && forall k :: r < k <= s.readTotal ==> s.slots[Slot(k, t.window)] == DataPacket(t, k)
  }

  /** How far the blocks have been sent, given that those up to r were sent before this round. */
  function SentMark(s: State, r: nat): nat {
    match s.phase
    case Filling => r
    case Sending(attempt, next) => if attempt == 1 then Max(r, s.ackedTotal + next) else s.readTotal
    case Ended(Completed) => s.readTotal
    case Ended(_) => 0
  }

  /** The blocks after r were read in this round, and those up to r had been sent before it. */
  ghost predicate RoundOf(t: Transfer, s: State, r: nat) {
    && CounterInv(t, s)
    && r <= s.readTotal
    && (!s.phase.Ended? ==> (r == 0 || t.window <= r) && s.ackedTotal <= r && Intact(t, s, r))
  }

  lemma {:induction false} PushKeepsIntact(t: Transfer, s: State, r: nat)
    requires RoundOf(t, s, r) && CanRead(t, s) && NoClash(t)
    ensures RoundOf(t, Push(t, s), r)
  {
    var j, s' := s.readTotal + 1, Push(t, s);
    PushStoresPacket(t, s);
    PushKeepsCounters(t, s);
    forall k | r < k <= s'.readTotal ensures s'.slots[Slot(k, t.window)] == DataPacket(t, k) {
      if k < j {
        assert s.slots[Slot(k, t.window)] == DataPacket(t, k);
        if r == 0 {
          NearBlocksApart(k, j, t.window);
        }
      }
    }
  }

  lemma {:induction false} TurnComes(t: Transfer, s: State, r: nat)
    requires CounterInv(t, s) && Intact(t, s, r) && CanTransmit(s) && s.ackedTotal + 1 + s.phase.next > r
    ensures Turn(t, s, Proceed, s.ackedTotal + 1 + s.phase.next)
  {
    TransmitsTheSlot(t, s);
  }

  lemma {:induction false} TransmitOfRound(t: Transfer, s: State, r: nat)
    requires RoundOf(t, s, r) && CanTransmit(s)
    ensures var s' := Step(t, s, Proceed);
            && RoundOf(t, s', r)
            && (|| SentMark(s', r) <= SentMark(s, r)
                || (SentMark(s', r) == SentMark(s, r) + 1 && Turn(t, s, Proceed, SentMark(s', r))))
  {
    ProceedKeepsCounters(t, s);
    if s.ackedTotal + 1 + s.phase.next > r {
      TurnComes(t, s, r);
    }
  }

  lemma {:induction false} AcceptOfRound(t: Transfer, s: State, x: u16, r: nat)
    requires RoundOf(t, s, r) && Listening(s) && Accepts(s, x) && NamedBlock(s.ackedTotal, x) <= s.readTotal
    ensures RoundOf(t, Accept(t, s, x), s.readTotal)
    ensures SentMark(Accept(t, s, x), s.readTotal) <= SentMark(s, r)
  {
    AcceptKeepsCounters(t, s, x);
  }

  lemma {:induction false} BeginOfRound(t: Transfer, s: State, r: nat)
    requires RoundOf(t, s, r) && s.phase.Filling? && !CanRead(t, s)
    ensures RoundOf(t, Step(t, s, Proceed), r) && SentMark(Step(t, s, Proceed), r) <= SentMark(s, r)
  {
    ProceedKeepsCounters(t, s);
  }

  lemma {:induction false} RetryOfRound(t: Transfer, s: State, r: nat)
    requires RoundOf(t, s, r) && Listening(s)
    ensures RoundOf(t, Step(t, s, Silence), r) && SentMark(Step(t, s, Silence), r) <= SentMark(s, r)
  {
    RetryKeepsCounters(t, s);
  }

  lemma {:induction false} EndOfRound(t: Transfer, s: State, outcome: Outcome, r: nat)
    requires RoundOf(t, s, r) && !outcome.Completed?
    ensures RoundOf(t, End(s, outcome), r) && SentMark(End(s, outcome), r) == 0
  {
    EndKeepsCounters(t, s, outcome);
  }

  /** What a step makes of the round: it reaches no further, or by one block whose turn it is. */
  lemma {:induction false} StepOfRound(t: Transfer, s: State, input: Input, r: nat) returns (r': nat)
    requires RoundOf(t, s, r) && Enabled(t, s, input) && NoClash(t)
    requires Step(t, s, input).ackedTotal <= Step(t, s, input).readTotal
    ensures RoundOf(t, Step(t, s, input), r')
    ensures var s' := Step(t, s, input);
            || SentMark(s', r') <= SentMark(s, r)
            || (SentMark(s', r') == SentMark(s, r) + 1 && Turn(t, s, input, SentMark(s', r')))
  {
    r' := r;
    match input
    case Proceed =>
      if CanRead(t, s) {
        PushKeepsIntact(t, s, r);
      } else if s.phase.Filling? {
        BeginOfRound(t, s, r);
      } else {
        TransmitOfRound(t, s, r);
      }
    case Silence => RetryOfRound(t, s, r);
    case Fault => EndOfRound(t, s, if s.phase.Filling? then ReadFailed else NetworkFailed, r);
    case Heard(Ack(x)) =>
      if Accepts(s, x) {
        r' := s.readTotal;
        AcceptOfRound(t, s, x, r);
      } else {
        EndOfRound(t, s, StaleAck, r);
      }
    case Heard(PeerError) => EndOfRound(t, s, PeerAborted, r);
    case Heard(Unreadable) => EndOfRound(t, s, NetworkFailed, r);
  }

  lemma {:induction false} StillSent(t: Transfer, inputs: seq<Input>, input: Input, m: nat)
    requires Legal(t, inputs) && Enabled(t, StateAfter(t, inputs), input) && SentUpTo(t, inputs, m)
    ensures Legal(t, inputs + [input]) && SentUpTo(t, inputs + [input], m)
  {
    Extend(t, inputs, input);
    forall k | 1 <= k <= m ensures WasSent(t, inputs + [input], k) {
      OneMoreTurn(t, inputs, input, k);
    }
  }

  lemma {:induction false} OneMoreSentUpTo(t: Transfer, inputs: seq<Input>, m: nat)
    requires Legal(t, inputs) && 1 <= m && SentUpTo(t, inputs, m - 1) && WasSent(t, inputs, m)
    ensures SentUpTo(t, inputs, m)
  {
  }

  /** A step that reaches no further, or by one block in its turn, keeps the account of what was sent. */
  lemma {:induction false} StepOfSent(t: Transfer, inputs: seq<Input>, input: Input, m: nat, m': nat)
    requires Legal(t, inputs) && Enabled(t, StateAfter(t, inputs), input) && SentUpTo(t, inputs, m)
    requires m' <= m || (m' == m + 1 && Turn(t, StateAfter(t, inputs), input, m'))
    ensures Legal(t, inputs + [input]) && SentUpTo(t, inputs + [input], m')
  {
    if m' <= m {
      StillSent(t, inputs, input, m');
    } else {
      StillSent(t, inputs, input, m' - 1);
      OneMoreTurn(t, inputs, input, m');
      OneMoreSentUpTo(t, inputs + [input], m');
    }
  }

  lemma {:induction false} HonestRound(t: Transfer, inputs: seq<Input>) returns (r: nat)
    requires Honest(t, inputs) && NoClash(t)
    ensures RoundOf(t, StateAfter(t, inputs), r)
    ensures SentUpTo(t, inputs, SentMark(StateAfter(t, inputs), r))
  {
    if inputs == [] {
      r := 0;
    } else {
      var before, input := inputs[..|inputs| - 1], inputs[|inputs| - 1];
      assert inputs == before + [input];
      var r0 := HonestRound(t, before);
      var s := StateAfter(t, before);
      r := StepOfRound(t, s, input, r0);
      StepOfSent(t, before, input, SentMark(s, r0), SentMark(StateAfter(t, inputs), r));
    }
  }

  // ---------------------------------------------------------------------------------------
  // A block that is lost

  /** A later block, beyond a wrap, has taken the slot of block i. */
  ghost predicate Lost(t: Transfer, s: State, i: nat) {
    && WellFormed(t, s)
    && exists k :: Took(t, s, i, k)
  }

  ghost predicate Took(t: Transfer, s: State, i: nat, k: nat)
    requires WellFormed(t, s)
  {
    1 <= i < k <= s.readTotal && Lap(i) < Lap(k) && s.slots[Slot(i, t.window)] == DataPacket(t, k)
  }

  ghost predicate Missed(t: Transfer, inputs: seq<Input>, i: nat) {
    Going(t, inputs) && !WasSent(t, inputs, i) && Lost(t, StateAfter(t, inputs), i)
  }

  lemma {:induction false} PushStaysLost(t: Transfer, s: State, i: nat, k: nat)
    requires CounterInv(t, s) && CanRead(t, s) && Took(t, s, i, k)
    ensures Lost(t, Push(t, s), i)
  {
    var j, s' := s.readTotal + 1, Push(t, s);
    PushStoresPacket(t, s);
    LapGrows(k, j);
    if Slot(j, t.window) == Slot(i, t.window) {
      assert Took(t, s', i, j);
    } else {
      assert Took(t, s', i, k);
    }
  }

  lemma {:induction false} StaysLost(t: Transfer, s: State, input: Input, i: nat)
    requires CounterInv(t, s) && Lost(t, s, i) && Enabled(t, s, input)
    ensures Lost(t, Step(t, s, input), i)
  {
    var k :| Took(t, s, i, k);
    StepFrame(t, s, input);
    if input.Proceed? && CanRead(t, s) {
      PushStaysLost(t, s, i, k);
    } else {
      assert Took(t, Step(t, s, input), i, k);
    }
  }

  lemma {:induction false} NoTurn(t: Transfer, s: State, input: Input, i: nat)
    requires CounterInv(t, s) && Lost(t, s, i)
    ensures !Turn(t, s, input, i)
  {
    if Turn(t, s, input, i) {
      var k :| Took(t, s, i, k);
      TransmitsTheSlot(t, s);
      assert Output(t, s, input)[0] == DataPacket(t, k);
      WrappedDistance(i, k);
      NumbersDiffer(t, i, k);
    }
  }

  lemma {:induction false} StaysMissed(t: Transfer, inputs: seq<Input>, input: Input, i: nat)
    requires Missed(t, inputs, i) && Enabled(t, StateAfter(t, inputs), input)
    requires Step(t, StateAfter(t, inputs), input).ackedTotal <= Step(t, StateAfter(t, inputs), input).readTotal
    ensures Missed(t, inputs + [input], i)
  {
    Goes(t, inputs, input);
    StaysLost(t, StateAfter(t, inputs), input, i);
    NoTurn(t, StateAfter(t, inputs), input, i);
    OneMoreTurn(t, inputs, input, i);
  }

  lemma {:induction false} ProceedCounts(t: Transfer, s: State)
    requires CounterInv(t, s) && Enabled(t, s, Proceed)
    ensures var s' := Step(t, s, Proceed);
            s'.ackedTotal == s.ackedTotal <= s.readTotal <= s'.readTotal
  {
  }

  /** A block that has not been read has not been sent. */
  lemma {:induction false} UnreadUnsent(t: Transfer, inputs: seq<Input>, i: nat)
    requires Honest(t, inputs) && StateAfter(t, inputs).readTotal < i
    ensures !WasSent(t, inputs, i)
  {
    if inputs != [] {
      var before, input := inputs[..|inputs| - 1], inputs[|inputs| - 1];
      assert inputs == before + [input];
      HonestCounters(t, before);
      StepFrame(t, StateAfter(t, before), input);
      UnreadUnsent(t, before, i);
      OneMoreTurn(t, before, input, i);
    }
  }

  lemma {:induction false} PushNewest(t: Transfer, s: State)
    requires CounterInv(t, s) && CanRead(t, s)
    ensures NewestKept(t, Push(t, s)) && Step(t, s, Proceed) == Push(t, s)
  {
    PushStoresPacket(t, s);
  }

  /** The sender reads one block. */
  lemma {:induction false} ReadOne(t: Transfer, inputs: seq<Input>, i: nat) returns (longer: seq<Input>)
    requires Going(t, inputs) && CanRead(t, StateAfter(t, inputs))
    ensures Going(t, longer) && StateAfter(t, longer) == Push(t, StateAfter(t, inputs))
    ensures NewestKept(t, StateAfter(t, longer))
    ensures !WasSent(t, inputs, i) ==> !WasSent(t, longer, i)
    ensures Missed(t, inputs, i) ==> Missed(t, longer, i)
  {
    PushNewest(t, StateAfter(t, inputs));
    ProceedCounts(t, StateAfter(t, inputs));
    Goes(t, inputs, Proceed);
    OneMoreTurn(t, inputs, Proceed, i);
    if Missed(t, inputs, i) {
      StaysMissed(t, inputs, Proceed, i);
    }
    longer := inputs + [Proceed];
  }

  /** The sender reads until the window is full or the file has ended. */
  lemma {:induction false} FillAll(t: Transfer, inputs: seq<Input>, i: nat) returns (longer: seq<Input>)
    requires Going(t, inputs) && StateAfter(t, inputs).phase.Filling?
    ensures Going(t, longer) && StateAfter(t, longer).phase.Filling? && !CanRead(t, StateAfter(t, longer))
    ensures StateAfter(t, longer).ackedTotal == StateAfter(t, inputs).ackedTotal
    ensures StateAfter(t, longer).readTotal == Min(StateAfter(t, inputs).ackedTotal + t.window, BlockCount(t))
    ensures CanRead(t, StateAfter(t, inputs)) || NewestKept(t, StateAfter(t, inputs)) ==> NewestKept(t, StateAfter(t, longer))
    ensures !WasSent(t, inputs, i) ==> !WasSent(t, longer, i)
    ensures Missed(t, inputs, i) ==> Missed(t, longer, i)
    decreases BlockCount(t) - StateAfter(t, inputs).readTotal
  {
    longer := inputs;
    if CanRead(t, StateAfter(t, inputs)) {
      var read := ReadOne(t, inputs, i);
      longer := FillAll(t, read, i);
    }
  }

  /** The sender sends the rest of the window. */
  lemma {:induction false} SendAll(t: Transfer, inputs: seq<Input>, i: nat) returns (longer: seq<Input>)
    requires Going(t, inputs) && StateAfter(t, inputs).phase.Sending?
    ensures Going(t, longer) && Listening(StateAfter(t, longer))
    ensures StateAfter(t, longer).ackedTotal == StateAfter(t, inputs).ackedTotal
    ensures StateAfter(t, longer).readTotal == StateAfter(t, inputs).readTotal
    ensures Missed(t, inputs, i) ==> Missed(t, longer, i)
    decreases StateAfter(t, inputs).count - StateAfter(t, inputs).phase.next
  {
    var s := StateAfter(t, inputs);
    if CanTransmit(s) {
      ProceedCounts(t, s);
      Goes(t, inputs, Proceed);
      if Missed(t, inputs, i) {
        StaysMissed(t, inputs, Proceed, i);
      }
      longer := SendAll(t, inputs + [Proceed], i);
    } else {
      longer := inputs;
    }
  }

  /** A window that is full is sent once. */
  lemma {:induction false} SendFull(t: Transfer, inputs: seq<Input>, i: nat) returns (longer: seq<Input>)
    requires Going(t, inputs) && StateAfter(t, inputs).phase.Filling? && !CanRead(t, StateAfter(t, inputs))
    ensures Going(t, longer) && Listening(StateAfter(t, longer))
    ensures StateAfter(t, longer).ackedTotal == StateAfter(t, inputs).ackedTotal
    ensures StateAfter(t, longer).readTotal == StateAfter(t, inputs).readTotal
    ensures Missed(t, inputs, i) ==> Missed(t, longer, i)
  {
    ProceedCounts(t, StateAfter(t, inputs));
    Goes(t, inputs, Proceed);
    if Missed(t, inputs, i) {
      StaysMissed(t, inputs, Proceed, i);
    }
    longer := SendAll(t, inputs + [Proceed], i);
  }

  /** The ACK of an outstanding block is heard, with no wrap between the front of the window and it. */
  lemma {:induction false} HearBlock(t: Transfer, inputs: seq<Input>, k: nat, i: nat) returns (longer: seq<Input>)
    requires Going(t, inputs) && Listening(StateAfter(t, inputs))
    requires StateAfter(t, inputs).ackedTotal < k <= StateAfter(t, inputs).readTotal
    requires k == StateAfter(t, inputs).ackedTotal + 1 || k / WORDS == (StateAfter(t, inputs).ackedTotal + 1) / WORDS
    ensures Going(t, longer) && StateAfter(t, longer).ackedTotal == k
    ensures StateAfter(t, longer).readTotal == StateAfter(t, inputs).readTotal
    ensures StateAfter(t, longer).phase == if StateAfter(t, inputs).done then Ended(Completed) else Filling
    ensures Missed(t, inputs, i) ==> Missed(t, longer, i)
  {
    var s, input := StateAfter(t, inputs), Heard(Ack(Wrap(k)));
    HeardStep(t, s, k);
    Goes(t, inputs, input);
    if Missed(t, inputs, i) {
      StaysMissed(t, inputs, input, i);
    }
    longer := inputs + [input];
  }

  lemma {:induction false} HeardStep(t: Transfer, s: State, k: nat)
    requires CounterInv(t, s) && Listening(s) && s.ackedTotal < k <= s.readTotal
    requires k == s.ackedTotal + 1 || k / WORDS == (s.ackedTotal + 1) / WORDS
    ensures Enabled(t, s, Heard(Ack(Wrap(k))))
    ensures Step(t, s, Heard(Ack(Wrap(k)))) == Accept(t, s, Wrap(k)) && Accept(t, s, Wrap(k)).ackedTotal == k
  {
    WrappedSum(s.ackedTotal, 1);
    WrappedOrder(s.ackedTotal + 1, k);
    WrappedDistance(s.ackedTotal + 1, k);
  }

  /** The sender listens with `acked` blocks acknowledged and the window after them sent. */
  lemma {:induction false} ListenAt(t: Transfer, acked: nat) returns (inputs: seq<Input>)
    requires t.Valid() && (acked == 0 || acked - 1 + t.window < BlockCount(t))
    ensures Going(t, inputs) && Listening(StateAfter(t, inputs))
    ensures StateAfter(t, inputs).ackedTotal == acked
    ensures StateAfter(t, inputs).readTotal == Min(acked + t.window, BlockCount(t))
  {
    if acked == 0 {
      inputs := [];
    } else {
      inputs := ListenAt(t, acked - 1);
      inputs := HearBlock(t, inputs, acked, 0);
    }
    inputs := FillAll(t, inputs, 0);
    inputs := SendFull(t, inputs, 0);
  }

  /** The run goes on to completion, and the block remains missed. */
  lemma {:induction false} CompleteMissed(t: Transfer, inputs: seq<Input>, i: nat) returns (longer: seq<Input>)
    requires Missed(t, inputs, i) && Listening(StateAfter(t, inputs))
    ensures Missed(t, longer, i) && StateAfter(t, longer).phase == Ended(Completed)
    decreases BlockCount(t) - StateAfter(t, inputs).ackedTotal
  {
    longer := HearBlock(t, inputs, StateAfter(t, inputs).ackedTotal + 1, i);
    if StateAfter(t, longer).phase.Filling? {
      longer := FillAll(t, longer, i);
      longer := SendFull(t, longer, i);
      longer := CompleteMissed(t, longer, i);
    }
  }

  lemma {:induction false} NewestOverI(t: Transfer, s: State, i: nat, j: nat)
    requires NewestKept(t, s) && s.readTotal == j && 1 <= i < j < i + t.window && Slot(i, t.window) == Slot(j, t.window)
    ensures Lost(t, s, i)
  {
    ClashIsAcrossWrap(i, j, t.window);
    assert Took(t, s, i, j);
  }

  /** Two blocks that share a slot are read in one go, and the first is never sent. */
  lemma {:induction false} LosesBlock(t: Transfer, i: nat, j: nat) returns (inputs: seq<Input>)
    requires t.Valid() && t.window < i < j <= BlockCount(t) && j < i + t.window
    requires Slot(i, t.window) == Slot(j, t.window) && (i - t.window) / WORDS == (j - t.window) / WORDS
    ensures Honest(t, inputs) && StateAfter(t, inputs).phase == Ended(Completed) && !WasSent(t, inputs, i)
  {
    inputs := ListenAt(t, i - 1 - t.window);
    inputs := HearBlock(t, inputs, j - t.window, i);
    UnreadUnsent(t, inputs, i);
    inputs := FillAll(t, inputs, i);
    NewestOverI(t, StateAfter(t, inputs), i, j);
    inputs := SendFull(t, inputs, i);
    inputs := CompleteMissed(t, inputs, i);
  }

  // ---------------------------------------------------------------------------------------
  // Which transfers these are

  /** The file ends before two blocks that share a slot can be read in one go. */
  predicate NeverLoses(t: Transfer)
    requires t.Valid()
  {
    || BlockCount(t) < WORDS
    || WORDS % t.window == 0
    || (t.window > WORDS / 2 && BlockCount(t) == WORDS)
    || (t.window == WORDS - 1 && BlockCount(t) < 2 * WORDS)
  }

  lemma {:induction false} LargeWindowSlots(k: nat, w: nat)
    requires WORDS / 2 < w < WORDS && k < WORDS
    ensures Slot(k, w) == if k < w then k else k - w
  {
    assert Wrap(k) == k;
    if k < w {
      DivisionUnique(k, 0, k, w);
    } else {
      DivisionUnique(k, 1, k - w, w);
    }
  }

  /** The blocks that clash first, if the file is long enough for them. */
  lemma {:induction false} Clash(t: Transfer) returns (i: nat, j: nat)
    requires t.Valid() && !NeverLoses(t)
    ensures t.window < i < j <= BlockCount(t) && j < i + t.window
    ensures Slot(i, t.window) == Slot(j, t.window) && (i - t.window) / WORDS == (j - t.window) / WORDS
  {
    var w, q := t.window, WORDS % t.window;
    if w == WORDS - 1 {
      i, j := 2 * WORDS - 1, 2 * WORDS;
      assert Wrap(i) == Wrap(WORDS - 1) && Wrap(j) == Wrap(WORDS) && Wrap(WORDS) == 0;
      LargeWindowSlots(0, w);
      LargeWindowSlots(WORDS - 1, w);
    } else if w > WORDS / 2 {
      i, j := w + 1, WORDS + 1;
      assert Wrap(j) == 1;
      LargeWindowSlots(1, w);
      LargeWindowSlots(i, w);
    } else {
      i, j := WORDS - q, WORDS;
      CollidesWithZero(WORDS, w, q);
    }
  }

  lemma {:induction false} NeverLosesNoClash(t: Transfer)
    requires t.Valid() && NeverLoses(t)
    ensures NoClash(t)
  {
    var w := t.window;
    forall i, j | w < i < j <= BlockCount(t) && j < i + w ensures Slot(i, w) != Slot(j, w) {
      if j < WORDS || WORDS % w == 0 {
        NearBlocksApart(i, j, w);
      } else if w == WORDS - 1 {
        DivisionUnique(i, 1, i - WORDS, WORDS);
        DivisionUnique(j, 1, j - WORDS, WORDS);
        NearBlocksApart(i, j, w);
      } else {
        LargeWindowSlots(i, w);
        LargeWindowSlots(0, w);
      }
    }
  }

  /** In every completed run whose accepted ACKs name outstanding blocks, every block was sent. */
  ghost predicate EveryBlockSent(t: Transfer)
    requires t.Valid()
  {
    forall inputs :: Honest(t, inputs) && StateAfter(t, inputs).phase == Ended(Completed) ==>
                       SentUpTo(t, inputs, BlockCount(t))
  }

  lemma {:induction false} EveryBlockSentExactly(t: Transfer)
    requires t.Valid()
    ensures EveryBlockSent(t) <==> NeverLoses(t)
  {
    if NeverLoses(t) {
      NeverLosesNoClash(t);
      forall inputs | Honest(t, inputs) && StateAfter(t, inputs).phase == Ended(Completed)
        ensures SentUpTo(t, inputs, BlockCount(t))
      {
        var r := HonestRound(t, inputs);
      }
    } else {
      var i, j := Clash(t);
      var inputs := LosesBlock(t, i, j);
    }
  }
}
