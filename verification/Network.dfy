/**
 The sender together with a receiver that accepts blocks in order (section 4 of RFC 7440),
 over a network that may lose, duplicate and reorder: any datagram ever sent may be delivered
 at any time, any number of times or never, and so may any acknowledgement. The receiver may
 acknowledge the last block it accepted whenever it likes, which covers every acknowledgement
 policy.
 */
module Network {
  import opened Wire
  import opened Blocks
  import opened Sender
  import opened RingBuffer

  datatype Receiver = Receiver(last: u16, data: Bytes, finished: bool)

  /** The sender's history of inputs, the acknowledgements ever sent, and the receiver. */
  datatype World = World(inputs: seq<Input>, acks: set<u16>, receiver: Receiver)

  function Start(): World {
    World([], {}, Receiver(0, [], false))
  }

  /** Accepts a DATA packet if it carries the number after the last accepted one. */
  function Receive(blockSize: nat, r: Receiver, p: Bytes): Receiver {
    if && !r.finished
       && |p| >= 4
       && FromBe(p[0], p[1]) == DATA
       && FromBe(p[2], p[3]) == WrappingAdd(r.last, 1)
    then
      Receiver(WrappingAdd(r.last, 1), r.data + p[4..], |p| - 4 < blockSize)
    else
      r
  }

  datatype Move = SenderMoves(input: Input) | Delivers(datagram: Bytes) | Acknowledges

  /** An ACK is heard only if the receiver sent it at some time; anything else may happen freely. */
  ghost predicate Possible(t: Transfer, u: World, move: Move) {
    && Legal(t, u.inputs)
    && match move
       case SenderMoves(input) =>
         && Enabled(t, StateAfter(t, u.inputs), input)
         && (input.Heard? && input.message.Ack? ==> input.message.block in u.acks)
       case Delivers(p) => p in Sent(t, u.inputs)
       case Acknowledges => true
  }

  function Moved(t: Transfer, u: World, move: Move): World {
    match move
    case SenderMoves(input) => u.(inputs := u.inputs + [input])
    case Delivers(p) => u.(receiver := Receive(t.blockSize, u.receiver, p))
    case Acknowledges => u.(acks := u.acks + {u.receiver.last})
  }

  /** The world after a sequence of moves, if each was possible in its turn. */
  ghost function Play(t: Transfer, moves: seq<Move>): Option<World>
    requires t.Valid()
  {
    if moves == [] then
      Some(Start())
    else
      var r, move := Play(t, moves[..|moves| - 1]), moves[|moves| - 1];
      if r.Some? && Possible(t, r.value, move) then Some(Moved(t, r.value, move)) else None
  }

  ghost predicate Reachable(t: Transfer, u: World)
    requires t.Valid()
  {
    exists moves :: Play(t, moves) == Some(u)
  }

  lemma {:induction false} StartReachable(t: Transfer)
    requires t.Valid()
    ensures Reachable(t, Start())
  {
    assert Play(t, []) == Some(Start());
  }

  lemma {:induction false} MoveReachable(t: Transfer, u: World, move: Move)
    requires t.Valid() && Reachable(t, u) && Possible(t, u, move)
    ensures Reachable(t, Moved(t, u, move))
  {
    var moves :| Play(t, moves) == Some(u);
    var longer := moves + [move];
    assert longer[..|longer| - 1] == moves;
    assert Play(t, longer) == Some(Moved(t, u, move));
  }

  function SenderOf(t: Transfer, u: World): State
    requires Legal(t, u.inputs)
  {
    StateAfter(t, u.inputs)
  }

  // ---------------------------------------------------------------------------------------
  // Safety while no block number has wrapped

  ghost predicate ReceiverInv(t: Transfer, r: Receiver, read: nat) {
    && t.Valid()
    && r.last <= read <= BlockCount(t)
    && r.data == t.file[..EndOf(t, r.last)]
    && (r.finished <==> r.last == BlockCount(t))
  }

  ghost predicate SenderInv(t: Transfer, inputs: seq<Input>) {
    && Honest(t, inputs)
    && WireInv(t, inputs)
    && var s := StateAfter(t, inputs);
       && s.readTotal < WORDS
       && CounterInv(t, s)
       && RingInv(t, s)
  }

  ghost predicate WorldInv(t: Transfer, u: World) {
    && SenderInv(t, u.inputs)
    && ReceiverInv(t, u.receiver, SenderOf(t, u).readTotal)
    && SenderOf(t, u).ackedTotal <= u.receiver.last
    && forall x :: x in u.acks ==> x <= u.receiver.last
  }

  lemma {:induction false} NextNumber(last: u16, k: u16)
    requires 1 <= k
    ensures k == WrappingAdd(last, 1) <==> k == last + 1
  {
  }

  /** The receiver takes a packet with the number after its last one and passes over others. */
  lemma {:induction false} ReceivePacket(blockSize: nat, r: Receiver, x: u16, rest: Bytes)
    ensures Receive(blockSize, r, Header(x) + rest) ==
            if !r.finished && x == WrappingAdd(r.last, 1) then Receiver(x, r.data + rest, |rest| < blockSize) else r
  {
    var p := Header(x) + rest;
    assert p[4..] == rest;
    assert FromBe(p[2], p[3]) == x;
  }

  /** Taking block k adds its payload to the prefix of the file already held. */
  lemma {:induction false} PrefixGrows(t: Transfer, k: nat)
    requires 1 <= k
    ensures t.file[..EndOf(t, k - 1)] + Payload(t, k) == t.file[..EndOf(t, k)]
  {
  }

  lemma {:induction false} GrownReceiver(t: Transfer, r: Receiver, read: nat)
    requires ReceiverInv(t, r, read) && r.last < read < WORDS
    ensures ReceiverInv(t, Receiver(r.last + 1, r.data + Payload(t, r.last + 1), |Payload(t, r.last + 1)| < t.blockSize), read)
  {
    var k := r.last + 1;
    ShortExactlyLast(t, k);
    PrefixGrows(t, k);
  }

  lemma {:induction false} ReceiveBlock(t: Transfer, r: Receiver, k: nat) returns (r': Receiver)
    requires 1 <= k < WORDS
    ensures r' == Receive(t.blockSize, r, DataPacket(t, k))
    ensures !r.finished && k == r.last + 1 ==> r' == Receiver(k, r.data + Payload(t, k), |Payload(t, k)| < t.blockSize)
    ensures r.finished || k != r.last + 1 ==> r' == r
  {
    assert Wrap(k) == k;
    NextNumber(r.last, k);
    ReceivePacket(t.blockSize, r, k, Payload(t, k));
    r' := Receive(t.blockSize, r, DataPacket(t, k));
  }

  /** An in-order receiver that is handed a true block stays a prefix of the file. */
  lemma {:induction false} ReceiveKeepsPrefix(t: Transfer, r: Receiver, r': Receiver, k: nat, read: nat)
    requires ReceiverInv(t, r, read) && 1 <= k <= read < WORDS
    requires !r.finished && k == r.last + 1 ==> r' == Receiver(k, r.data + Payload(t, k), |Payload(t, k)| < t.blockSize)
    requires r.finished || k != r.last + 1 ==> r' == r
    ensures ReceiverInv(t, r', read) && r.last <= r'.last && (k == r.last + 1 ==> r'.last == k)
  {
    if k == r.last + 1 {
      GrownReceiver(t, r, read);
    }
  }

  /** An ACK that some receiver sent and the sender accepts names an outstanding block. */
  lemma {:induction false} AcceptedIsOutstanding(t: Transfer, u: World, x: u16)
    requires WorldInv(t, u) && x in u.acks
    requires Listening(SenderOf(t, u)) && Accepts(SenderOf(t, u), x)
    ensures NamedBlock(SenderOf(t, u).ackedTotal, x) == x
    ensures SenderOf(t, u).ackedTotal < x <= SenderOf(t, u).readTotal
  {
    var s := SenderOf(t, u);
    assert WindowIndex(s) == s.ackedTotal + 1;
  }

  lemma {:induction false} SenderStepKeeps(t: Transfer, inputs: seq<Input>, input: Input)
    requires SenderInv(t, inputs) && Enabled(t, StateAfter(t, inputs), input)
    requires var s' := Step(t, StateAfter(t, inputs), input);
             s'.ackedTotal <= s'.readTotal < WORDS
    ensures SenderInv(t, inputs + [input])
  {
    var s := StateAfter(t, inputs);
    Extend(t, inputs, input);
    ExtendHonest(t, inputs, input);
    StepKeepsWire(t, inputs, input);
    StepKeepsCounters(t, s, input);
    StepKeepsRing(t, s, input);
  }

  /** How a step of the sender moves its two unbounded counts. */
  lemma {:induction false} StepCounts(t: Transfer, s: State, input: Input)
    requires CounterInv(t, s) && Enabled(t, s, input)
    ensures var s' := Step(t, s, input);
            && s.readTotal <= s'.readTotal <= BlockCount(t)
            && (s'.ackedTotal != s.ackedTotal ==>
                  && Listening(s)
                  && input.Heard?
                  && input.message.Ack?
                  && Accepts(s, input.message.block)
                  && s'.ackedTotal == NamedBlock(s.ackedTotal, input.message.block))
  {
  }

  lemma {:induction false} SenderMoveKeeps(t: Transfer, u: World, input: Input)
    requires WorldInv(t, u) && Possible(t, u, SenderMoves(input))
    requires Step(t, SenderOf(t, u), input).readTotal < WORDS
    ensures WorldInv(t, Moved(t, u, SenderMoves(input)))
  {
    var s := SenderOf(t, u);
    var s' := Step(t, s, input);
    StepCounts(t, s, input);
    if s'.ackedTotal != s.ackedTotal {
      AcceptedIsOutstanding(t, u, input.message.block);
    }
    SenderStepKeeps(t, u.inputs, input);
    Extend(t, u.inputs, input);
  }

  lemma {:induction false} BlockKeeps(t: Transfer, u: World, k: nat) returns (r': Receiver)
    requires WorldInv(t, u) && 1 <= k <= SenderOf(t, u).readTotal
    ensures r' == Receive(t.blockSize, u.receiver, DataPacket(t, k)) && WorldInv(t, u.(receiver := r'))
  {
    r' := ReceiveBlock(t, u.receiver, k);
    ReceiveKeepsPrefix(t, u.receiver, r', k, SenderOf(t, u).readTotal);
  }

  lemma {:induction false} DeliveryKeeps(t: Transfer, u: World, p: Bytes)
    requires WorldInv(t, u) && p in Sent(t, u.inputs)
    ensures WorldInv(t, Moved(t, u, Delivers(p)))
  {
    assert IsBlockUpTo(t, p, SenderOf(t, u).readTotal);
    var k :| 1 <= k <= SenderOf(t, u).readTotal && p == DataPacket(t, k);
    var r' := BlockKeeps(t, u, k);
  }

  /** Every move keeps the world safe until the sender has read 65536 blocks. */
  lemma {:induction false} MoveKeepsWorld(t: Transfer, u: World, move: Move)
    requires WorldInv(t, u) && Possible(t, u, move)
    requires move.SenderMoves? ==> Step(t, SenderOf(t, u), move.input).readTotal < WORDS
    ensures WorldInv(t, Moved(t, u, move))
  {
    match move
    case SenderMoves(input) => SenderMoveKeeps(t, u, input);
    case Delivers(p) => DeliveryKeeps(t, u, p);
    case Acknowledges =>
  }

  lemma {:induction false} StartSafe(t: Transfer)
    requires t.Valid()
    ensures WorldInv(t, Start())
  {
  }

  lemma {:induction false} PlayKeepsWorld(t: Transfer, moves: seq<Move>)
    requires t.Valid() && BlockCount(t) < WORDS && Play(t, moves).Some?
    ensures WorldInv(t, Play(t, moves).value)
  {
    if moves == [] {
      StartSafe(t);
    } else {
      var before, move := moves[..|moves| - 1], moves[|moves| - 1];
      PlayKeepsWorld(t, before);
      var u := Play(t, before).value;
      if move.SenderMoves? {
        StepCounts(t, SenderOf(t, u), move.input);
      }
      MoveKeepsWorld(t, u, move);
    }
  }

  lemma {:induction false} ReachableSafe(t: Transfer, u: World)
    requires t.Valid() && BlockCount(t) < WORDS && Reachable(t, u)
    ensures WorldInv(t, u)
  {
    var moves :| Play(t, moves) == Some(u);
    PlayKeepsWorld(t, moves);
  }
}
