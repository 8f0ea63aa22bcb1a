/**
 What send_file does, as a run of sender, receiver and network: its inputs are those of a reachable
 world whenever the peer is a receiver that was handed what had been sent, and whose ACKs are
 heard only after it sent them. So whatever holds in every reachable world holds of the method.
 */
module Correspondence {
  import opened Wire
  import opened Blocks
  import opened Sender
  import opened Network
  import opened Guarantees
  import opened Datagrams
  import opened RemoteFile
  import opened TftpErrors

  /** The receiver takes some datagrams and acknowledges now and then, while the sender does nothing. */
  ghost function Acted(t: Transfer, u: World, acts: seq<Move>): (v: World)
    decreases |acts|
  {
    if acts == [] then u else Moved(t, Acted(t, u, acts[..|acts| - 1]), acts[|acts| - 1])
  }

  /** Those are acts of the receiver, on datagrams out of these. */
  ghost predicate OfReceiver(acts: seq<Move>, sent: seq<Bytes>) {
    forall i :: 0 <= i < |acts| ==> acts[i].Acknowledges? || (acts[i].Delivers? && acts[i].datagram in sent)
  }

  /** The world after these inputs, if the receiver acted as given before each of them. */
  ghost function WorldOf(t: Transfer, inputs: seq<Input>, acts: seq<seq<Move>>): World
    requires |acts| == |inputs|
  {
    if inputs == [] then
      Start()
    else
      var n := |inputs| - 1;
      Moved(t, Acted(t, WorldOf(t, inputs[..n], acts[..n]), acts[n]), SenderMoves(inputs[n]))
  }

  /** The receiver acted on what had been sent, and every ACK was heard after the receiver sent it. */
  ghost predicate Answered(t: Transfer, inputs: seq<Input>, acts: seq<seq<Move>>) {
    && Legal(t, inputs)
    && |acts| == |inputs|
    && (inputs == [] || (
          var n := |inputs| - 1;
          && Answered(t, inputs[..n], acts[..n])
          && OfReceiver(acts[n], Sent(t, inputs[..n]))
          && (inputs[n].Heard? && inputs[n].message.Ack? ==>
                inputs[n].message.block in Acted(t, WorldOf(t, inputs[..n], acts[..n]), acts[n]).acks)))
  }

  lemma {:induction false} ActedReachable(t: Transfer, u: World, acts: seq<Move>)
    requires Legal(t, u.inputs) && Reachable(t, u) && OfReceiver(acts, Sent(t, u.inputs))
    ensures Reachable(t, Acted(t, u, acts)) && Acted(t, u, acts).inputs == u.inputs
    decreases |acts|
  {
    if acts != [] {
      var before := acts[..|acts| - 1];
      ActedReachable(t, u, before);
      MoveReachable(t, Acted(t, u, before), acts[|acts| - 1]);
    }
  }

  lemma {:induction false} InputReachable(t: Transfer, u: World, acts: seq<Move>, input: Input) returns (v: World)
    requires Legal(t, u.inputs) && Reachable(t, u) && OfReceiver(acts, Sent(t, u.inputs))
    requires Enabled(t, SenderOf(t, u), input)
    requires input.Heard? && input.message.Ack? ==> input.message.block in Acted(t, u, acts).acks
    ensures v == Moved(t, Acted(t, u, acts), SenderMoves(input)) && Reachable(t, v) && v.inputs == u.inputs + [input]
  {
    ActedReachable(t, u, acts);
    MoveReachable(t, Acted(t, u, acts), SenderMoves(input));
    v := Moved(t, Acted(t, u, acts), SenderMoves(input));
  }

  lemma {:induction false} LastEnabled(t: Transfer, inputs: seq<Input>, n: nat)
    requires Legal(t, inputs) && n + 1 == |inputs|
    ensures Legal(t, inputs[..n]) && Enabled(t, StateAfter(t, inputs[..n]), inputs[n]) && inputs == inputs[..n] + [inputs[n]]
  {
  }

  lemma {:induction false} AnsweredReachable(t: Transfer, inputs: seq<Input>, acts: seq<seq<Move>>)
    requires Answered(t, inputs, acts)
    ensures Reachable(t, WorldOf(t, inputs, acts)) && WorldOf(t, inputs, acts).inputs == inputs
  {
    if inputs == [] {
      StartReachable(t);
    } else {
      var n := |inputs| - 1;
      AnsweredReachable(t, inputs[..n], acts[..n]);
      LastEnabled(t, inputs, n);
      var v := InputReachable(t, WorldOf(t, inputs[..n], acts[..n]), acts[n], inputs[n]);
    }
  }

  /** What the end of a transfer says about the receiver. */
  ghost predicate Served(t: Transfer, u: World) {
    && t.Valid()
    && Legal(t, u.inputs)
    && Reachable(t, u)
    && (BlockCount(t) <= WORDS ==> u.receiver.data <= t.file)
    && (SenderOf(t, u).phase == Ended(Completed) && (BlockCount(t) == 1 || (BlockCount(t) < WORDS && t.window == 1)) ==>
          u.receiver.data == t.file)
  }

  lemma {:induction false} AnsweredServed(t: Transfer, inputs: seq<Input>, acts: seq<seq<Move>>)
    requires Answered(t, inputs, acts)
    ensures Served(t, WorldOf(t, inputs, acts))
  {
    var u := WorldOf(t, inputs, acts);
    AnsweredReachable(t, inputs, acts);
    if BlockCount(t) <= WORDS {
      var m := ReceiverHoldsPrefix(t, u);
    }
    SuccessMeansDeliveredExactly(t);
  }

  /**
   Sends the file to a peer. If that is such a receiver, this leads to a reachable world, in which
   the receiver holds a prefix of the file, or all of it, as the theorems about worlds have it.
   */
  method SendFileToReceiver(file: FileReader, stream: DatagramStream, window: PeerHandler.Window, buffer: array<byte>, ghost t: Transfer)
    returns (r: Result<(nat, nat), TftpError>, ghost inputs: seq<Input>, ghost fired: seq<Bytes>)
    requires t.Valid() && PeerHandler.Agrees(t, Init(t), window, file, 0, 0, false, 0)
    requires buffer !in window.buffers && buffer.Length >= PeerHandler.ERROR_ROOM
    modifies window, window.buffers, file, file.handle, file.chunk, stream, buffer
    ensures PeerHandler.Finished(t, inputs, r, old(stream.sent), stream.sent, fired)
    ensures forall acts :: Answered(t, inputs, acts) ==>
                             WorldOf(t, inputs, acts).inputs == inputs && Served(t, WorldOf(t, inputs, acts))
  {
    r, inputs, fired := PeerHandler.SendFile(file, stream, window, buffer, t);
    forall acts | Answered(t, inputs, acts)
      ensures WorldOf(t, inputs, acts).inputs == inputs && Served(t, WorldOf(t, inputs, acts))
    {
      AnsweredReachable(t, inputs, acts);
      AnsweredServed(t, inputs, acts);
    }
  }
}
