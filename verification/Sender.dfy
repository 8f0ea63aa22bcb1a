/**
 The sending side of one transfer as a machine that steps on inputs from its environment:
 reads that succeed or fail, datagrams that leave or fail to leave, silence and messages heard.
 Block numbers are 16-bit words, as on the wire. The last four fields of a state are
 history, which no step consults: unbounded block counts and what the current round has cost.
 */
module Sender {
  import opened Wire
  import opened Arithmetic
  import opened Blocks

  const SEND_ATTEMPTS: nat := 5

  datatype Outcome = Completed | ReadFailed | NetworkFailed | TimedOut | StaleAck | PeerAborted

  /** Filling the window; transmitting it (`next` blocks of the attempt are out); finished. */
  datatype Phase = Filling | Sending(attempt: nat, next: nat) | Ended(outcome: Outcome)

  datatype Message = Ack(block: u16) | PeerError | Unreadable

  datatype Input = Proceed | Fault | Silence | Heard(message: Message)

  datatype State = State(
    acked: u16,
    lastRead: u16,
    count: u16,
    done: bool,
    offset: nat,
    slots: seq<Bytes>,
    phase: Phase,
    ackedTotal: nat,
    readTotal: nat,
    rounds: nat,
    roundSends: nat)

  predicate WellFormed(t: Transfer, s: State) {
    && t.Valid()
    && |s.slots| == t.window
    && s.offset <= |t.file|
  }

  function Init(t: Transfer): (s: State)
    requires t.Valid()
    ensures WellFormed(t, s)
  {
    State(0, 0, 0, false, 0, seq(t.window, _ => seq(t.blockSize + 4, _ => 0)), Filling, 0, 0, 0, 0)
  }

  predicate CanRead(t: Transfer, s: State) {
    s.phase.Filling? && !s.done && s.count < t.window
  }

  predicate CanTransmit(s: State) {
    s.phase.Sending? && s.phase.next < s.count
  }

  predicate Listening(s: State) {
    s.phase.Sending? && s.phase.next >= s.count
  }

  predicate Enabled(t: Transfer, s: State, input: Input) {
    match input
    case Proceed => s.phase.Filling? || CanTransmit(s)
    case Fault => CanRead(t, s) || CanTransmit(s)
    case Silence => Listening(s)
    case Heard(_) => Listening(s)
  }

  /** The number of the block at the front of the window, as it travels. */
  function WindowIndex(s: State): u16 {
    WrappingAdd(s.acked, 1)
  }

  /** Reads the next block of the file into the ring. */
  function Push(t: Transfer, s: State): (s': State)
    requires WellFormed(t, s) && CanRead(t, s)
    ensures WellFormed(t, s')
  {
    var index := WrappingAdd(s.lastRead, 1);
    var end := Min(s.offset + t.blockSize, |t.file|);
    s.(lastRead := index,
    count := s.count + 1,
    done := end - s.offset < t.blockSize,
    offset := end,
    slots := s.slots[index % t.window := Header(index) + t.file[s.offset..end]],
    readTotal := s.readTotal + 1)
  }

  /** The first block number after `total` that reads `x` in 16 bits. */
  function NamedBlock(total: nat, x: u16): nat {
    total + 1 + WrappingSub(x, Wrap(total + 1))
  }

  predicate Accepts(s: State, x: u16) {
    x >= WindowIndex(s)
  }

  function Accept(t: Transfer, s: State, x: u16): (s': State) {
    s.(acked := x,
    count := WrappingSub(s.lastRead, x),
    phase := if s.done then Ended(Completed) else Filling,
    ackedTotal := NamedBlock(s.ackedTotal, x))
  }

  function End(s: State, outcome: Outcome): State {
    s.(phase := Ended(outcome))
  }

  function Step(t: Transfer, s: State, input: Input): (s': State)
    requires WellFormed(t, s) && Enabled(t, s, input)
    ensures WellFormed(t, s')
  {
    match input
    case Proceed =>
      if CanRead(t, s) then
        Push(t, s)
      else if s.phase.Filling? then
        s.(phase := Sending(1, 0), rounds := s.rounds + 1, roundSends := 0)
      else
        s.(phase := s.phase.(next := s.phase.next + 1), roundSends := s.roundSends + 1)
    case Fault =>
      End(s, if s.phase.Filling? then ReadFailed else NetworkFailed)
    case Silence =>
      if s.phase.attempt < SEND_ATTEMPTS then
        s.(phase := Sending(s.phase.attempt + 1, 0))
      else
        End(s, TimedOut)
    case Heard(Ack(x)) =>
      if Accepts(s, x) then Accept(t, s, x) else End(s, StaleAck)
    case Heard(PeerError) => End(s, PeerAborted)
    case Heard(Unreadable) => End(s, NetworkFailed)
  }

  /** The datagrams a step puts on the wire. */
  function Output(t: Transfer, s: State, input: Input): seq<Bytes>
    requires WellFormed(t, s)
  {
    if input.Proceed? && CanTransmit(s) then
      [s.slots[WrappingAdd(WindowIndex(s), s.phase.next) % t.window]]
    else
      []
  }

  /** The state a sequence of inputs leads to, if each was enabled in its turn. */
  function After(t: Transfer, inputs: seq<Input>): (r: Option<State>)
    requires t.Valid()
    ensures r.Some? ==> WellFormed(t, r.value)
  {
    if inputs == [] then
      Some(Init(t))
    else
      var r := After(t, inputs[..|inputs| - 1]);
      var input := inputs[|inputs| - 1];
      if r.Some? && Enabled(t, r.value, input) then Some(Step(t, r.value, input)) else None
  }

  predicate Legal(t: Transfer, inputs: seq<Input>) {
    t.Valid() && After(t, inputs).Some?
  }

  function StateAfter(t: Transfer, inputs: seq<Input>): (s: State)
    requires Legal(t, inputs)
    ensures WellFormed(t, s)
  {
    After(t, inputs).value
  }

  /** Every datagram put on the wire, in order. */
  function Sent(t: Transfer, inputs: seq<Input>): seq<Bytes>
    requires Legal(t, inputs)
  {
    if inputs == [] then
      []
    else
      var before := inputs[..|inputs| - 1];
      Sent(t, before) + Output(t, StateAfter(t, before), inputs[|inputs| - 1])
  }

  /** Unfolds a run by its last input. */
  lemma {:induction false} Extend(t: Transfer, inputs: seq<Input>, input: Input)
    requires Legal(t, inputs) && Enabled(t, StateAfter(t, inputs), input)
    ensures Legal(t, inputs + [input])
    ensures StateAfter(t, inputs + [input]) == Step(t, StateAfter(t, inputs), input)
    ensures Sent(t, inputs + [input]) == Sent(t, inputs) + Output(t, StateAfter(t, inputs), input)
  {
    var longer := inputs + [input];
    assert longer[..|longer| - 1] == inputs;
  }

  /** A legal run in which every accepted ACK named a block that was outstanding. */
  ghost predicate Honest(t: Transfer, inputs: seq<Input>) {
    && Legal(t, inputs)
    && StateAfter(t, inputs).ackedTotal <= StateAfter(t, inputs).readTotal
    && (inputs == [] || Honest(t, inputs[..|inputs| - 1]))
  }

  lemma {:induction false} ExtendHonest(t: Transfer, inputs: seq<Input>, input: Input)
    requires Honest(t, inputs) && Enabled(t, StateAfter(t, inputs), input)
    requires Step(t, StateAfter(t, inputs), input).ackedTotal <= Step(t, StateAfter(t, inputs), input).readTotal
    ensures Honest(t, inputs + [input])
  {
    Extend(t, inputs, input);
    assert (inputs + [input])[..|inputs|] == inputs;
  }

  // ---------------------------------------------------------------------------------------
  // The 16-bit counters against unbounded ones

  /** At most this many rounds are ever started. */
  function RoundBound(t: Transfer): nat
    requires t.Valid()
  {
    Max(1, BlockCount(t) - t.window + 1)
  }

  /** What ties the 16-bit state of an honest run to unbounded block counts. */
  ghost predicate CounterInv(t: Transfer, s: State) {
    && WellFormed(t, s)
    && s.acked == Wrap(s.ackedTotal)
    && s.lastRead == Wrap(s.readTotal)
    && s.ackedTotal <= s.readTotal <= BlockCount(t)
    && s.readTotal <= s.ackedTotal + t.window
    && (s.done <==> s.readTotal == BlockCount(t))
    && s.offset == EndOf(t, s.readTotal)
    && s.rounds <= RoundBound(t)
    && match s.phase
       case Filling =>
         && s.count == s.readTotal - s.ackedTotal
         && s.ackedTotal < BlockCount(t)
         && s.rounds <= s.ackedTotal
         && s.rounds < RoundBound(t)
       case Sending(attempt, next) =>
         && s.count == s.readTotal - s.ackedTotal
         && 1 <= s.count
         && next <= s.count
         && 1 <= attempt <= SEND_ATTEMPTS
         && (s.done || s.count == t.window)
         && s.rounds <= s.ackedTotal + 1
       case Ended(outcome) =>
         outcome.Completed? ==> s.done && 1 <= s.ackedTotal && BlockCount(t) < s.ackedTotal + t.window
  }

  lemma {:induction false} PushKeepsCounters(t: Transfer, s: State)
    requires CounterInv(t, s) && CanRead(t, s)
    ensures CounterInv(t, Push(t, s))
  {
    ShortExactlyLast(t, s.readTotal + 1);
    WrappedSum(s.readTotal, 1);
  }

  lemma {:induction false} NamedBlockReads(total: nat, x: u16)
    ensures Wrap(NamedBlock(total, x)) == x
    ensures total < NamedBlock(total, x) <= total + WORDS
  {
    WrappedReturn(total + 1, x);
  }

  lemma {:induction false} AcceptKeepsCounters(t: Transfer, s: State, x: u16)
    requires CounterInv(t, s) && Listening(s) && Accepts(s, x)
    requires NamedBlock(s.ackedTotal, x) <= s.readTotal
    ensures CounterInv(t, Accept(t, s, x))
  {
    NamedBlockReads(s.ackedTotal, x);
    WrappedDistance(NamedBlock(s.ackedTotal, x), s.readTotal);
  }

  lemma {:induction false} ProceedKeepsCounters(t: Transfer, s: State)
    requires CounterInv(t, s) && Enabled(t, s, Proceed)
    ensures CounterInv(t, Step(t, s, Proceed))
  {
    if CanRead(t, s) {
      PushKeepsCounters(t, s);
    }
  }

  lemma {:induction false} EndKeepsCounters(t: Transfer, s: State, outcome: Outcome)
    requires CounterInv(t, s) && !outcome.Completed?
    ensures CounterInv(t, End(s, outcome))
  {
  }

  lemma {:induction false} RetryKeepsCounters(t: Transfer, s: State)
    requires CounterInv(t, s) && Listening(s)
    ensures CounterInv(t, Step(t, s, Silence))
  {
  }

  /** Every step keeps the counters, as long as an accepted ACK names an outstanding block. */
  lemma {:induction false} StepKeepsCounters(t: Transfer, s: State, input: Input)
    requires CounterInv(t, s) && Enabled(t, s, input)
    requires Step(t, s, input).ackedTotal <= Step(t, s, input).readTotal
    ensures CounterInv(t, Step(t, s, input))
  {
    match input
    case Proceed => ProceedKeepsCounters(t, s);
    case Fault => EndKeepsCounters(t, s, if s.phase.Filling? then ReadFailed else NetworkFailed);
    case Silence => RetryKeepsCounters(t, s);
    case Heard(Ack(x)) =>
      if Accepts(s, x) {
        AcceptKeepsCounters(t, s, x);
      } else {
        EndKeepsCounters(t, s, StaleAck);
      }
    case Heard(PeerError) => EndKeepsCounters(t, s, PeerAborted);
    case Heard(Unreadable) => EndKeepsCounters(t, s, NetworkFailed);
  }

  lemma {:induction false} HonestCounters(t: Transfer, inputs: seq<Input>)
    requires Honest(t, inputs)
    ensures CounterInv(t, StateAfter(t, inputs))
  {
    if inputs != [] {
      var before := inputs[..|inputs| - 1];
      HonestCounters(t, before);
      StepKeepsCounters(t, StateAfter(t, before), inputs[|inputs| - 1]);
    }
  }

  // ---------------------------------------------------------------------------------------
  // What one round costs

  /** The datagrams sent in a round whose current attempt has sent `next` of them. */
  function RoundCost(attempt: nat, count: nat, next: nat): nat {
    if attempt <= 1 then next else count + RoundCost(attempt - 1, count, next)
  }

  ghost predicate CostInv(s: State, limit: nat) {
    && s.roundSends <= SEND_ATTEMPTS * limit
    && (s.phase.Sending? ==> s.roundSends == RoundCost(s.phase.attempt, s.count, s.phase.next))
  }

  lemma {:induction false} RoundCostIs(attempt: nat, count: nat, next: nat)
    requires 1 <= attempt
    ensures RoundCost(attempt, count, next) == (attempt - 1) * count + next
  {
    if attempt > 1 {
      RoundCostIs(attempt - 1, count, next);
      assert (attempt - 1) * count == (attempt - 2) * count + count;
    }
  }

  lemma {:induction false} RoundCostBounded(attempt: nat, count: nat, next: nat, limit: nat)
    requires 1 <= attempt <= SEND_ATTEMPTS && next <= count <= limit
    ensures RoundCost(attempt, count, next) <= SEND_ATTEMPTS * limit
  {
    RoundCostIs(attempt, count, next);
    MulMonotone(attempt - 1, SEND_ATTEMPTS - 1, count);
  }

  lemma {:induction false} RoundCostSteps(attempt: nat, count: nat, next: nat)
    requires 1 <= attempt
    ensures RoundCost(attempt, count, next + 1) == RoundCost(attempt, count, next) + 1
    ensures RoundCost(attempt + 1, count, 0) == RoundCost(attempt, count, count)
  {
    RoundCostIs(attempt, count, next + 1);
    RoundCostIs(attempt, count, next);
    RoundCostIs(attempt + 1, count, 0);
    RoundCostIs(attempt, count, count);
    assert attempt * count == (attempt - 1) * count + count;
  }

  lemma {:induction false} TransmitKeepsCost(t: Transfer, s: State, limit: nat)
    requires WellFormed(t, s) && CostInv(s, limit) && CanTransmit(s)
    requires 1 <= s.phase.attempt <= SEND_ATTEMPTS && s.count <= limit
    ensures CostInv(Step(t, s, Proceed), limit)
  {
    RoundCostSteps(s.phase.attempt, s.count, s.phase.next);
    RoundCostBounded(s.phase.attempt, s.count, s.phase.next + 1, limit);
  }

  lemma {:induction false} RetryKeepsCost(t: Transfer, s: State, limit: nat)
    requires WellFormed(t, s) && CostInv(s, limit) && Listening(s)
    requires 1 <= s.phase.attempt && s.phase.next == s.count
    ensures CostInv(Step(t, s, Silence), limit)
  {
    RoundCostSteps(s.phase.attempt, s.count, s.count);
  }

  lemma {:induction false} StepKeepsCost(t: Transfer, s: State, input: Input)
    requires CounterInv(t, s) && CostInv(s, Min(t.window, BlockCount(t))) && Enabled(t, s, input)
    ensures CostInv(Step(t, s, input), Min(t.window, BlockCount(t)))
  {
    var limit := Min(t.window, BlockCount(t));
    if input.Proceed? && CanTransmit(s) {
      TransmitKeepsCost(t, s, limit);
    } else if input.Silence? {
      RetryKeepsCost(t, s, limit);
    }
  }

  lemma {:induction false} HonestCost(t: Transfer, inputs: seq<Input>)
    requires Honest(t, inputs)
    ensures CostInv(StateAfter(t, inputs), Min(t.window, BlockCount(t)))
  {
    if inputs != [] {
      var before := inputs[..|inputs| - 1];
      HonestCost(t, before);
      HonestCounters(t, before);
      StepKeepsCost(t, StateAfter(t, before), inputs[|inputs| - 1]);
    }
  }

  /** So many rounds at their full cost. */
  function Spent(rounds: nat, cost: nat): nat {
    if rounds == 0 then 0 else Spent(rounds - 1, cost) + cost
  }

  lemma {:induction false} SpentIs(rounds: nat, cost: nat)
    ensures Spent(rounds, cost) == rounds * cost
  {
    if rounds > 0 {
      SpentIs(rounds - 1, cost);
      assert rounds * cost == (rounds - 1) * cost + cost;
    }
  }

  /** All datagrams sent: earlier rounds at their full cost at most, and the current one. */
  ghost predicate TotalInv(total: nat, s: State, cost: nat) {
    if s.rounds == 0 then
      total == 0 && s.roundSends == 0 && !s.phase.Sending?
    else
      total <= Spent(s.rounds - 1, cost) + s.roundSends
  }

  /** A step transmits one datagram in its round, begins the next round, or leaves both alone. */
  lemma {:induction false} StepRounds(t: Transfer, s: State, input: Input)
    requires WellFormed(t, s) && Enabled(t, s, input)
    ensures var s' := Step(t, s, input);
            || (s'.rounds == s.rounds && s'.roundSends == s.roundSends + |Output(t, s, input)|
                && (s'.phase.Sending? ==> s.phase.Sending?) && (Output(t, s, input) != [] ==> s.phase.Sending?))
            || (s'.rounds == s.rounds + 1 && s'.roundSends == 0 && Output(t, s, input) == [])
  {
  }

  lemma {:induction false} StepKeepsTotal(t: Transfer, s: State, input: Input, total: nat, cost: nat)
    requires WellFormed(t, s) && Enabled(t, s, input) && TotalInv(total, s, cost) && s.roundSends <= cost
    ensures TotalInv(total + |Output(t, s, input)|, Step(t, s, input), cost)
  {
    StepRounds(t, s, input);
  }

  lemma {:induction false} HonestTotal(t: Transfer, inputs: seq<Input>)
    requires Honest(t, inputs)
    ensures TotalInv(|Sent(t, inputs)|, StateAfter(t, inputs), SEND_ATTEMPTS * Min(t.window, BlockCount(t)))
  {
    if inputs != [] {
      var before, input := inputs[..|inputs| - 1], inputs[|inputs| - 1];
      HonestTotal(t, before);
      HonestCost(t, before);
      StepKeepsTotal(t, StateAfter(t, before), input, |Sent(t, before)|, SEND_ATTEMPTS * Min(t.window, BlockCount(t)));
    }
  }
}
