/** Sending a file to a peer: the ring of packet buffers, the rounds, and the wait for ACKs. */
module PeerHandler {
  import opened Wire
  import opened Text
  import opened Blocks
  import opened Cursor
  import opened TftpErrors
  import opened Datagrams
  import opened RemoteFile
  import Sender

  const ACK: u16 := 4
  const READ_ERROR: Bytes := Ascii("Read file error occurred")
  const SEND_TIMEOUT: Bytes := Ascii("Send timeout occurred")
  const UNKNOWN_ERROR: Bytes := Ascii("Unknown error occurred")
  const ACK_FROM_THE_PAST: Bytes := Ascii("Received ACK from the past")

  /** Writes the header of a DATA packet and reads the payload behind it. */
  method ReadPacket(buffer: array<byte>, file: FileReader, index: u16) returns (count: Option<nat>)
    requires file.Valid() && buffer.Length >= 4
    modifies buffer, file, file.handle, file.chunk
    ensures file.Valid() && (file.chunk == old(file.chunk) || fresh(file.chunk))
    ensures count.None? ==> file.handle.LastFailed()
    ensures count.Some? ==>
              var start, end := old(file.currentOffset), file.currentOffset;
              && end == Min(start + buffer.Length - 4, file.fileSize)
              && count.value == end - start
              && buffer[..count.value + 4] == Header(index) + file.handle.contents[start..end]
  {
    buffer[0] := 0;
    buffer[1] := DATA;
    buffer[2] := Hi(index);
    buffer[3] := Lo(index);
    assert buffer[..4] == Header(index);
    count := file.ReadTo(buffer, 4);
  }

  /** The packet buffers; each keeps its storage and is cut to the length of its packet. */
  class Window {
    const blockSize: nat
    const buffers: seq<array<byte>>
    var lengths: seq<nat>

    ghost predicate Valid()
      reads this
    {
      && 1 <= blockSize < WORDS
      && 1 <= |buffers| < WORDS
      && |lengths| == |buffers|
      && (forall i :: 0 <= i < |buffers| ==> buffers[i].Length == blockSize + 4 && lengths[i] <= blockSize + 4)
      && (forall i, j :: 0 <= i < j < |buffers| ==> buffers[i] != buffers[j])
    }

    /** The packets in the first n buffers. */
    ghost function PacketsUpTo(n: nat): (p: seq<Bytes>)
      requires Valid() && n <= |buffers|
      reads this, buffers
      ensures |p| == n && forall i :: 0 <= i < n ==> p[i] == buffers[i][..lengths[i]]
    {
      if n == 0 then [] else PacketsUpTo(n - 1) + [buffers[n - 1][..lengths[n - 1]]]
    }

    ghost function Packets(): (p: seq<Bytes>)
      requires Valid()
      reads this, buffers
      ensures |p| == |buffers| && forall i :: 0 <= i < |p| ==> p[i] == buffers[i][..lengths[i]]
    {
      PacketsUpTo(|buffers|)
    }

    constructor (blockSize: nat, windowSize: nat)
      requires 1 <= blockSize < WORDS && 1 <= windowSize < WORDS
      ensures Valid() && this.blockSize == blockSize && |buffers| == windowSize
      ensures fresh(buffers)
      ensures Packets() == seq(windowSize, _ => seq(blockSize + 4, _ => 0))
    {
      var made: seq<array<byte>> := [];
      while |made| < windowSize
        invariant |made| <= windowSize
        invariant fresh(made)
        invariant forall i :: 0 <= i < |made| ==> made[i].Length == blockSize + 4 && made[i][..] == seq(blockSize + 4, _ => 0)
        invariant forall i, j :: 0 <= i < j < |made| ==> made[i] != made[j]
      {
        var one := new byte[blockSize + 4](_ => 0);
        made := made + [one];
      }
      this.blockSize := blockSize;
      buffers := made;
      lengths := seq(windowSize, _ => blockSize + 4);
      new;
      assert forall i :: 0 <= i < |buffers| ==> Packets()[i] == buffers[i][..];
    }

    function Size(): nat {
      |buffers|
    }

    /** Reads the next block of the file into the buffer that its number selects. */
    method PushBlock(file: FileReader, index: u16) returns (r: Option<(nat, bool)>)
      requires Valid() && file.Valid()
      modifies this, buffers[index % |buffers|], file, file.handle, file.chunk
      ensures Valid() && file.Valid() && (file.chunk == old(file.chunk) || fresh(file.chunk))
      ensures r.None? ==> file.handle.LastFailed()
      ensures r.Some? ==>
                var start, end := old(file.currentOffset), file.currentOffset;
                && end == Min(start + blockSize, file.fileSize)
                && r.value == (end - start, end - start < blockSize)
                && Packets() == old(Packets())[index % |buffers| := Header(index) + file.handle.contents[start..end]]
    {
      var slot := index % |buffers|;
      lengths := lengths[slot := blockSize + 4];
      var count := ReadPacket(buffers[slot], file, index);
      if count.None? {
        return None;
      }
      lengths := lengths[slot := count.value + 4];
      r := Some((count.value, count.value < blockSize));
      assert forall i :: 0 <= i < |buffers| && i != slot ==> Packets()[i] == old(Packets())[i];
    }

    method SendBlock(index: u16, stream: DatagramStream) returns (ok: bool)
      requires Valid()
      modifies stream
      ensures stream.script == old(stream.script)
      ensures stream.sent == if ok then old(stream.sent) + [Packets()[index % |buffers|]] else old(stream.sent)
      ensures ok == !stream.sendFails(old(stream.attempts)) && stream.attempts == old(stream.attempts) + 1
    {
      var slot := index % |buffers|;
      ok := stream.Send(buffers[slot][..lengths[slot]]);
    }
  }

  // ---------------------------------------------------------------------------------------
  // Waiting for acknowledgements

  datatype RecvError = RecvNetwork | RecvTimeout | RecvClientError | RecvAckError

  /** What a received datagram says; it is read from the whole buffer, not only its own bytes. */
  function AckIn(buffer: Bytes): Result<u16, RecvError> {
    match UshortAt(buffer, 0)
    case None => Err(RecvAckError)
    case Some(opcode) =>
      if opcode == ACK then
        match UshortAt(buffer, 2)
        case None => Err(RecvAckError)
        case Some(block) => Ok(block)
      else if opcode == ERROR then
        if UshortAt(buffer, 2).Some? && StringAt(buffer, 4).Ok? then Err(RecvClientError) else Err(RecvAckError)
      else
        Err(RecvAckError)
  }

  function AckOf(w: Waited): Result<u16, RecvError> {
    match w.result
    case TimedOut => Err(RecvTimeout)
    case ReadFailed => Err(RecvNetwork)
    case Received(_) => AckIn(w.buffer)
  }

  method ReadAcknowledge(stream: DatagramStream, buffer: array<byte>) returns (r: Result<u16, RecvError>)
    modifies stream, buffer
    ensures stream.sent == old(stream.sent) && stream.attempts == old(stream.attempts)
    ensures var w := Wait(old(stream.script), old(buffer[..]), 4);
            r == AckOf(w) && stream.script == w.rest && buffer[..] == w.buffer
  {
    var reception := stream.Recv(buffer, 4);
    match reception
    case TimedOut => return Err(RecvTimeout);
    case ReadFailed => return Err(RecvNetwork);
    case Received(_) =>
    var datagram := new ReadCursor(buffer[..]);
    var opcode := datagram.ExtractUshort();
    if opcode == Some(ACK) {
      var block := datagram.ExtractUshort();
      return if block.Some? then Ok(block.value) else Err(RecvAckError);
    } else if opcode == Some(ERROR) {
      var code := datagram.ExtractUshort();
      if code.None? {
        return Err(RecvAckError);
      }
      var message := datagram.ExtractString();
      return if message.Ok? then Err(RecvClientError) else Err(RecvAckError);
    }
    r := Err(RecvAckError);
  }

  /** An acknowledgement that was read is one that the peer sent. */
  lemma {:induction false} AckCameFromPeer(script: seq<Event>, buffer: Bytes, x: u16)
    requires AckOf(Wait(script, buffer, 4)) == Ok(x)
    ensures exists i ::
              && 0 <= i < |script|
              && script[i].Arrives?
              && script[i].fromPeer
              && [0, ACK, Hi(x), Lo(x)] <= script[i].bytes
  {
    var w := Wait(script, buffer, 4);
    var i := ReceivedFromPeer(script, buffer, 4);
    var d := script[i].bytes;
    assert w.buffer[..w.result.size] == d[..w.result.size];
    assert forall j :: 0 <= j < 4 ==> d[j] == d[..w.result.size][j] == w.buffer[..w.result.size][j] == w.buffer[j];
    AckHeader(w.buffer, x);
    assert d[..4] == [0, ACK, Hi(x), Lo(x)];
  }

  /** A datagram is read as an ACK exactly if it begins with 00 04, and as one of the number that follows. */
  lemma {:induction false} AckReadExactly(b: Bytes, x: u16)
    ensures AckIn(b) == Ok(x) <==> |b| >= 4 && b[..4] == [0, 4, Hi(x), Lo(x)]
  {
    if |b| >= 4 {
      assert b[..4] == [b[0], b[1], b[2], b[3]];
    }
  }

  /** An ERROR packet with any code and a message, followed by anything. */
  ghost predicate BeginsWithError(b: Bytes, message: Bytes) {
    && |b| >= 4
    && b[..2] == [0, 5]
    && message + [0] <= b[4..]
    && IsField(message)
  }

  /** A datagram is read as an abort by the peer exactly if it begins with an ERROR packet. */
  lemma {:induction false} AbortReadExactly(b: Bytes)
    ensures AckIn(b) == Err(RecvClientError) <==> exists message :: BeginsWithError(b, message)
  {
    if AckIn(b) == Err(RecvClientError) {
      StringAtMeans(b, 4);
      assert b[..2] == [b[0], b[1]];
      assert BeginsWithError(b, StringAt(b, 4).value.0);
    }
    forall message | BeginsWithError(b, message) ensures AckIn(b) == Err(RecvClientError) {
      var n := |message|;
      assert b[0] == b[..2][0] && b[1] == b[..2][1];
      assert b[4..][..n + 1] == message + [0];
      assert b[4..4 + n] == (message + [0])[..n] && b[4 + n] == (message + [0])[n];
      StringAtField(b, 4, message);
    }
  }

  lemma {:induction false} AckHeader(b: Bytes, x: u16)
    requires |b| >= 4 && AckIn(b) == Ok(x)
    ensures b[0] == 0 && b[1] == ACK && b[2] == Hi(x) && b[3] == Lo(x)
  {
  }

  /** What is sent for an error: nothing, or its packet as it was written over this buffer. */
  ghost predicate FiredFor(e: TftpError, before: Bytes, fired: seq<Bytes>) {
    fired == [] || (|ErrorPacket(e)| < |before| && fired == [ErrorOver(e, before)[..|ErrorPacket(e)|]])
  }

  /** An error that is sent is complete exactly if a zero was in the place of its NUL. */
  lemma {:induction false} FiredExactly(e: TftpError, before: Bytes, fired: seq<Bytes>)
    requires FiredFor(e, before, fired) && fired != []
    ensures fired == [ErrorPacket(e)] <==> before[|ErrorPacket(e)| - 1] == 0
  {
    ErrorOverExactly(e, before);
  }

  /** No ERROR packet of a session fills a buffer of this length, let alone stops the program there. */
  const ERROR_ROOM: nat := 32

  lemma {:induction false} MessagesFit()
    ensures |READ_ERROR| == 24 && |SEND_TIMEOUT| == 21 && |UNKNOWN_ERROR| == 22 && |ACK_FROM_THE_PAST| == 26
  {
  }

  /**
   Sends an ERROR packet, unless the buffer is too small for it or the send fails. A packet that
   fills the buffer to the last byte stops the program.
   */
  method FireError(e: TftpError, stream: DatagramStream, buffer: array<byte>) returns (put: Put, ghost fired: seq<Bytes>)
    modifies stream, buffer
    ensures stream.script == old(stream.script)
    ensures stream.sent == old(stream.sent) + fired && |fired| <= 1
    ensures FiredFor(e, old(buffer[..]), fired)
    ensures put.Written? ==> buffer[..] == ErrorOver(e, old(buffer[..]))
    ensures put.Panicked? <==> |ErrorPacket(e)| == buffer.Length
    ensures put.TooSmall? <==> |ErrorPacket(e)| > buffer.Length
    ensures fired != [] <==> put.Written? && !stream.sendFails(old(stream.attempts))
    ensures put.Written? ==> stream.attempts == old(stream.attempts) + 1
  {
    fired := [];
    put := TftpErrors.Serialize(e, buffer);
    if put.Written? {
      var ok := stream.Send(buffer[..put.offset]);
      if ok {
        fired := [buffer[..put.offset]];
      }
    }
  }

  // ---------------------------------------------------------------------------------------
  // Rounds

  datatype SendError = SendNetwork | SendTimeout | SendClientError | SendAckError

  function OutcomeOf(e: SendError): Sender.Outcome {
    match e
    case SendNetwork => Sender.NetworkFailed
    case SendTimeout => Sender.TimedOut
    case SendClientError => Sender.PeerAborted
    case SendAckError => Sender.StaleAck
  }

  /** The step the sender takes on what the wait for an acknowledgement brought. */
  function InputOf(r: Result<u16, RecvError>): Sender.Input {
    match r
    case Ok(x) => Sender.Heard(Sender.Ack(x))
    case Err(RecvTimeout) => Sender.Silence
    case Err(RecvClientError) => Sender.Heard(Sender.PeerError)
    case Err(RecvNetwork) => Sender.Heard(Sender.Unreadable)
    case Err(RecvAckError) => Sender.Heard(Sender.Unreadable)
  }

  /** What the sender can still hear: the events to come, and the buffer they are received into. */
  datatype Ears = Ears(script: seq<Event>, buffer: Bytes)

  /**
   Plays the waits of a sequence of inputs against a script: where every Silence and every message
   among the inputs is what that wait brings, it gives what is left to hear.
   */
  ghost function Replay(inputs: seq<Sender.Input>, from: Ears): Option<Ears> {
    if inputs == [] then
      Some(from)
    else
      var ears, input := Replay(inputs[..|inputs| - 1], from), inputs[|inputs| - 1];
      if ears.None? || input.Proceed? || input.Fault? then
        ears
      else
        var w := Wait(ears.value.script, ears.value.buffer, 4);
        if input == InputOf(AckOf(w)) then Some(Ears(w.rest, w.buffer)) else None
  }

  /** Some inputs were added, none of which is a wait. */
  ghost predicate Quietly(before: seq<Sender.Input>, inputs: seq<Sender.Input>) {
    before <= inputs && forall i :: |before| <= i < |inputs| ==> inputs[i].Proceed? || inputs[i].Fault?
  }

  lemma {:induction false} ReplayQuietly(before: seq<Sender.Input>, inputs: seq<Sender.Input>, from: Ears)
    requires Quietly(before, inputs)
    ensures Replay(inputs, from) == Replay(before, from)
    decreases |inputs|
  {
    if |inputs| > |before| {
      var shorter, input := inputs[..|inputs| - 1], inputs[|inputs| - 1];
      ReplayQuietly(before, shorter, from);
      assert inputs == shorter + [input];
    } else {
      assert inputs == before;
    }
  }

  lemma {:induction false} ReplayWait(inputs: seq<Sender.Input>, from: Ears, ears: Ears)
    requires Replay(inputs, from) == Some(ears)
    ensures var w := Wait(ears.script, ears.buffer, 4);
            Replay(inputs + [InputOf(AckOf(w))], from) == Some(Ears(w.rest, w.buffer))
  {
    var input := InputOf(AckOf(Wait(ears.script, ears.buffer, 4)));
    assert (inputs + [input])[..|inputs|] == inputs;
    assert !input.Proceed? && !input.Fault?;
  }

  /**
   The sender's machine has been brought by the inputs to state s, apart from its count of
   datagrams, within an attempt; what the stream has sent since `base` is what the machine sent.
   */
  ghost predicate InAttempt(t: Transfer, inputs: seq<Sender.Input>, s: Sender.State, attempt: nat, next: nat,
                            base: seq<Bytes>, sent: seq<Bytes>)
  {
    && Sender.Legal(t, inputs)
    && sent == base + Sender.Sent(t, inputs)
    && var now := Sender.StateAfter(t, inputs);
       now == s.(phase := Sender.Sending(attempt, next), roundSends := now.roundSends)
  }

  /** Likewise when the round is settled, apart from an ERROR packet that may have been sent. */
  ghost predicate Settled(t: Transfer, inputs: seq<Sender.Input>, s: Sender.State, r: Result<u16, SendError>,
                          base: seq<Bytes>, sent: seq<Bytes>, fired: seq<Bytes>)
  {
    && Sender.Legal(t, inputs)
    && sent == base + Sender.Sent(t, inputs) + fired
    && |fired| <= 1
    && (fired != [] ==> r == Err(SendAckError))
    && var now := Sender.StateAfter(t, inputs);
       now == (if r.Ok? then Sender.Accept(t, s, r.value) else Sender.End(s, OutcomeOf(r.error))).(roundSends := now.roundSends)
  }

  /** The window holds what the machine's ring holds. */
  ghost predicate Loaded(window: Window, t: Transfer, s: Sender.State)
    reads window, window.buffers
  {
    && t.Valid()
    && window.Valid()
    && t.window == |window.buffers|
    && s.slots == window.Packets()
  }

  ghost predicate EndsInFault(inputs: seq<Sender.Input>) {
    inputs != [] && inputs[|inputs| - 1].Fault?
  }

  ghost predicate LastSendFailed(stream: DatagramStream)
    reads stream
  {
    stream.attempts > 0 && stream.sendFails(stream.attempts - 1)
  }

  /** The last send was that of an error: it is this, or the send failed. */
  ghost predicate SentUnlessFailed(stream: DatagramStream, fired: seq<Bytes>)
    reads stream
  {
    stream.attempts > 0 && (fired == [] <==> stream.sendFails(stream.attempts - 1))
  }

  /** The inputs so far are what the environment brought, and the rest is still to come. */
  ghost predicate Listened(inputs: seq<Sender.Input>, from: Ears, stream: DatagramStream, buffer: array<byte>)
    reads stream, buffer
  {
    Replay(inputs, from) == Some(Ears(stream.script, buffer[..]))
  }

  /** What a round makes of a wait: nothing yet after a timeout, otherwise its result. */
  function Verdict(ack: Result<u16, RecvError>, windowIndex: u16): Option<Result<u16, SendError>> {
    match ack
    case Ok(x) => Some(if x >= windowIndex then Ok(x) else Err(SendAckError))
    case Err(RecvTimeout) => None
    case Err(RecvClientError) => Some(Err(SendClientError))
    case Err(RecvNetwork) => Some(Err(SendNetwork))
    case Err(RecvAckError) => Some(Err(SendNetwork))
  }

  lemma {:induction false} TransmitStep(t: Transfer, inputs: seq<Sender.Input>, s: Sender.State, attempt: nat, v: u16,
                                        base: seq<Bytes>, sent: seq<Bytes>)
    requires InAttempt(t, inputs, s, attempt, v, base, sent) && v < s.count && |s.slots| == t.window
    ensures InAttempt(t, inputs + [Sender.Proceed], s, attempt, v + 1,
                      base, sent + [s.slots[WrappingAdd(Sender.WindowIndex(s), v) % t.window]])
  {
    Sender.Extend(t, inputs, Sender.Proceed);
  }

  lemma {:induction false} FailedStep(t: Transfer, inputs: seq<Sender.Input>, s: Sender.State, attempt: nat, v: u16,
                                      base: seq<Bytes>, sent: seq<Bytes>)
    requires InAttempt(t, inputs, s, attempt, v, base, sent) && v < s.count
    ensures Settled(t, inputs + [Sender.Fault], s, Err(SendNetwork), base, sent, [])
  {
    Sender.Extend(t, inputs, Sender.Fault);
  }

  lemma {:induction false} SettledStep(t: Transfer, inputs: seq<Sender.Input>, s: Sender.State, attempt: nat,
                                       base: seq<Bytes>, sent: seq<Bytes>, ack: Result<u16, RecvError>)
    requires InAttempt(t, inputs, s, attempt, s.count, base, sent) && ack != Err(RecvTimeout)
    ensures var verdict := Verdict(ack, Sender.WindowIndex(s));
            verdict.Some? && Settled(t, inputs + [InputOf(ack)], s, verdict.value, base, sent, [])
  {
    Sender.Extend(t, inputs, InputOf(ack));
  }

  lemma {:induction false} SilentStep(t: Transfer, inputs: seq<Sender.Input>, s: Sender.State, attempt: nat,
                                      base: seq<Bytes>, sent: seq<Bytes>)
    requires InAttempt(t, inputs, s, attempt, s.count, base, sent)
    ensures var longer := inputs + [Sender.Silence];
            && (attempt < Sender.SEND_ATTEMPTS ==> InAttempt(t, longer, s, attempt + 1, 0, base, sent))
            && (attempt >= Sender.SEND_ATTEMPTS ==> Settled(t, longer, s, Err(SendTimeout), base, sent, []))
  {
    Sender.Extend(t, inputs, Sender.Silence);
  }

  lemma {:induction false} FiredStep(t: Transfer, inputs: seq<Sender.Input>, s: Sender.State,
                                     base: seq<Bytes>, sent: seq<Bytes>, fired: seq<Bytes>)
    requires Settled(t, inputs, s, Err(SendAckError), base, sent, []) && |fired| <= 1
    ensures Settled(t, inputs, s, Err(SendAckError), base, sent + fired, fired)
  {
  }

  /** An attempt that began after `before` has sent v blocks. */
  ghost predicate Sends(t: Transfer, before: seq<Sender.Input>, inputs: seq<Sender.Input>, s: Sender.State, attempt: nat, v: nat,
                        base: seq<Bytes>, sent: seq<Bytes>)
  {
    InAttempt(t, inputs, s, attempt, v, base, sent) && !EndsInFault(inputs) && Quietly(before, inputs)
  }

  lemma {:induction false} OneMoreQuiet(before: seq<Sender.Input>, inputs: seq<Sender.Input>, input: Sender.Input)
    requires Quietly(before, inputs) && (input.Proceed? || input.Fault?)
    ensures Quietly(before, inputs + [input])
  {
  }

  /** One more block of an attempt was sent, or failed to be sent. */
  lemma {:induction false} BlockSent(t: Transfer, before: seq<Sender.Input>, inputs: seq<Sender.Input>, s: Sender.State,
                                     attempt: nat, v: u16, base: seq<Bytes>, sent: seq<Bytes>, packet: Bytes)
    requires Sends(t, before, inputs, s, attempt, v, base, sent) && v < s.count && |s.slots| == t.window
    requires t.Valid() && packet == s.slots[WrappingAdd(Sender.WindowIndex(s), v) % t.window]
    ensures Sends(t, before, inputs + [Sender.Proceed], s, attempt, v + 1, base, sent + [packet])
    ensures Settled(t, inputs + [Sender.Fault], s, Err(SendNetwork), base, sent, [])
    ensures Quietly(before, inputs + [Sender.Fault])
  {
    TransmitStep(t, inputs, s, attempt, v, base, sent);
    FailedStep(t, inputs, s, attempt, v, base, sent);
    OneMoreQuiet(before, inputs, Sender.Proceed);
    OneMoreQuiet(before, inputs, Sender.Fault);
  }

  /** Sends one block of the window. */
  method SendOne(window: Window, stream: DatagramStream, windowIndex: u16, v: u16,
                 ghost t: Transfer, ghost before: seq<Sender.Input>, ghost inputs: seq<Sender.Input>, ghost s: Sender.State,
                 ghost attempt: nat, ghost base: seq<Bytes>)
    returns (ok: bool)
    requires Loaded(window, t, s) && windowIndex == Sender.WindowIndex(s) && v < s.count
    requires Sends(t, before, inputs, s, attempt, v, base, stream.sent)
    modifies stream
    ensures stream.script == old(stream.script)
    ensures ok ==> Sends(t, before, inputs + [Sender.Proceed], s, attempt, v + 1, base, stream.sent)
    ensures !ok ==>
              && Settled(t, inputs + [Sender.Fault], s, Err(SendNetwork), base, stream.sent, [])
              && Quietly(before, inputs + [Sender.Fault])
              && LastSendFailed(stream)
  {
    var index := WrappingAdd(windowIndex, v);
    BlockSent(t, before, inputs, s, attempt, v, base, stream.sent, window.Packets()[index % |window.buffers|]);
    ok := window.SendBlock(index, stream);
  }

  /** Sends the blocks of the window once. */
  method SendWindow(window: Window, stream: DatagramStream, windowIndex: u16, count: u16,
                    ghost t: Transfer, ghost before: seq<Sender.Input>, ghost s: Sender.State,
                    ghost attempt: nat, ghost base: seq<Bytes>)
    returns (ok: bool, ghost inputs: seq<Sender.Input>)
    requires Loaded(window, t, s) && windowIndex == Sender.WindowIndex(s) && count == s.count
    requires InAttempt(t, before, s, attempt, 0, base, stream.sent) && !EndsInFault(before)
    modifies stream
    ensures stream.script == old(stream.script)
    ensures ok ==> InAttempt(t, inputs, s, attempt, s.count, base, stream.sent) && !EndsInFault(inputs)
    ensures !ok ==> Settled(t, inputs, s, Err(SendNetwork), base, stream.sent, []) && LastSendFailed(stream)
    ensures Quietly(before, inputs)
  {
    inputs := before;
    for v := 0 to count
      invariant stream.script == old(stream.script)
      invariant Sends(t, before, inputs, s, attempt, v, base, stream.sent)
    {
      ok := SendOne(window, stream, windowIndex, v, t, before, inputs, s, attempt, base);
      if !ok {
        inputs := inputs + [Sender.Fault];
        return;
      }
      inputs := inputs + [Sender.Proceed];
    }
    ok := true;
  }

  /** Every wait among the inputs is what the script brings. */
  ghost predicate Heeds(inputs: seq<Sender.Input>, from: Ears, stream: DatagramStream)
    reads stream
  {
    && Replay(inputs, from).Some?
    && Replay(inputs, from).value.script == stream.script
  }

  /** A round stands at the start of an attempt, or at its wait when the window is out. */
  ghost predicate Open(t: Transfer, inputs: seq<Sender.Input>, s: Sender.State, attempt: nat, next: nat,
                       base: seq<Bytes>, from: Ears, stream: DatagramStream, buffer: array<byte>)
    reads stream, buffer
  {
    && InAttempt(t, inputs, s, attempt, next, base, stream.sent)
    && Listened(inputs, from, stream, buffer)
    && !EndsInFault(inputs)
  }

  /** A stale ACK is answered by an error, which is written over it; nothing else touches what was heard. */
  ghost predicate Rebuked(stale: bool, heard: Bytes, buffer: Bytes, fired: seq<Bytes>) {
    if stale then
      FiredFor(UndefinedError(ACK_FROM_THE_PAST), heard, fired) && buffer == ErrorOver(UndefinedError(ACK_FROM_THE_PAST), heard)
    else
      fired == [] && buffer == heard
  }

  /** A round is settled; it ends in a fault only if a send failed. */
  ghost predicate Closed(t: Transfer, inputs: seq<Sender.Input>, s: Sender.State, r: Result<u16, SendError>,
                         base: seq<Bytes>, from: Ears, stream: DatagramStream, buffer: array<byte>, fired: seq<Bytes>)
    reads stream, buffer
  {
    && Settled(t, inputs, s, r, base, stream.sent, fired)
    && Heeds(inputs, from, stream)
    && Rebuked(r == Err(SendAckError), Replay(inputs, from).value.buffer, buffer[..], fired)
    && (r == Err(SendAckError) ==> SentUnlessFailed(stream, fired))
    && (EndsInFault(inputs) ==> LastSendFailed(stream))
  }

  /** An attempt has ended: with a verdict, or else in silence. */
  ghost predicate Judged(t: Transfer, inputs: seq<Sender.Input>, s: Sender.State, attempt: nat,
                         verdict: Option<Result<u16, SendError>>, base: seq<Bytes>, from: Ears,
                         stream: DatagramStream, buffer: array<byte>, fired: seq<Bytes>)
    reads stream, buffer
  {
    if verdict.Some? then
      Closed(t, inputs, s, verdict.value, base, from, stream, buffer, fired)
    else if attempt < Sender.SEND_ATTEMPTS then
      Open(t, inputs, s, attempt + 1, 0, base, from, stream, buffer)
    else
      Closed(t, inputs, s, Err(SendTimeout), base, from, stream, buffer, [])
  }

  /** Answers a stale ACK with an error. */
  method Rebuke(stream: DatagramStream, buffer: array<byte>) returns (ghost fired: seq<Bytes>)
    requires buffer.Length >= ERROR_ROOM
    modifies stream, buffer
    ensures stream.script == old(stream.script) && stream.sent == old(stream.sent) + fired && |fired| <= 1
    ensures Rebuked(true, old(buffer[..]), buffer[..], fired) && SentUnlessFailed(stream, fired)
  {
    MessagesFit();
    var put;
    put, fired := FireError(UndefinedError(ACK_FROM_THE_PAST), stream, buffer);
    assert put.Written?;
  }

  /** Waits for an acknowledgement once the window is out. */
  method Listen(stream: DatagramStream, buffer: array<byte>, windowIndex: u16,
                ghost t: Transfer, ghost before: seq<Sender.Input>, ghost s: Sender.State,
                ghost attempt: nat, ghost base: seq<Bytes>, ghost from: Ears)
    returns (verdict: Option<Result<u16, SendError>>, ghost inputs: seq<Sender.Input>, ghost fired: seq<Bytes>)
    requires windowIndex == Sender.WindowIndex(s) && buffer.Length >= ERROR_ROOM
    requires Open(t, before, s, attempt, s.count, base, from, stream, buffer)
    modifies stream, buffer
    ensures |stream.script| <= |old(stream.script)|
    ensures verdict.Some? && verdict.value.Ok? ==> |stream.script| < |old(stream.script)|
    ensures Judged(t, inputs, s, attempt, verdict, base, from, stream, buffer, fired)
  {
    var ack := ReadAcknowledge(stream, buffer);
    ReplayWait(before, from, Ears(old(stream.script), old(buffer[..])));
    fired, inputs := [], before + [InputOf(ack)];
    if ack == Err(RecvTimeout) {
      SilentStep(t, before, s, attempt, base, stream.sent);
    } else {
      SettledStep(t, before, s, attempt, base, stream.sent, ack);
    }
    verdict := Verdict(ack, windowIndex);
    if verdict == Some(Err(SendAckError)) {
      ghost var sent := stream.sent;
      fired := Rebuke(stream, buffer);
      FiredStep(t, inputs, s, base, sent, fired);
    }
  }

  /** One attempt: sends the window and waits for an acknowledgement. */
  method Attempt(window: Window, stream: DatagramStream, buffer: array<byte>, windowIndex: u16, count: u16,
                 ghost t: Transfer, ghost before: seq<Sender.Input>, ghost s: Sender.State,
                 ghost attempt: nat, ghost base: seq<Bytes>, ghost from: Ears)
    returns (verdict: Option<Result<u16, SendError>>, ghost inputs: seq<Sender.Input>, ghost fired: seq<Bytes>)
    requires Loaded(window, t, s) && windowIndex == Sender.WindowIndex(s) && count == s.count
    requires buffer !in window.buffers && buffer.Length >= ERROR_ROOM
    requires Open(t, before, s, attempt, 0, base, from, stream, buffer)
    modifies stream, buffer
    ensures |stream.script| <= |old(stream.script)|
    ensures verdict.Some? && verdict.value.Ok? ==> |stream.script| < |old(stream.script)|
    ensures Judged(t, inputs, s, attempt, verdict, base, from, stream, buffer, fired)
  {
    var ok;
    ok, inputs := SendWindow(window, stream, windowIndex, count, t, before, s, attempt, base);
    ReplayQuietly(before, inputs, from);
    if ok {
      verdict, inputs, fired := Listen(stream, buffer, windowIndex, t, inputs, s, attempt, base, from);
    } else {
      verdict, fired := Some(Err(SendNetwork)), [];
    }
  }

  /** Sends the window up to five times, until an acknowledgement is accepted or all is lost. */
  method SendReliably(window: Window, stream: DatagramStream, buffer: array<byte>, windowIndex: u16, count: u16,
                      ghost t: Transfer, ghost before: seq<Sender.Input>, ghost s: Sender.State,
                      ghost base: seq<Bytes>, ghost from: Ears)
    returns (r: Result<u16, SendError>, ghost inputs: seq<Sender.Input>, ghost fired: seq<Bytes>)
    requires Loaded(window, t, s) && windowIndex == Sender.WindowIndex(s) && count == s.count
    requires buffer !in window.buffers && buffer.Length >= ERROR_ROOM
    requires Open(t, before, s, 1, 0, base, from, stream, buffer)
    modifies stream, buffer
    ensures r.Ok? ==> |stream.script| < |old(stream.script)|
    ensures Closed(t, inputs, s, r, base, from, stream, buffer, fired)
  {
    inputs, fired := before, [];
    for attempt := 1 to Sender.SEND_ATTEMPTS + 1
      invariant |stream.script| <= |old(stream.script)|
      invariant Judged(t, inputs, s, attempt - 1, None, base, from, stream, buffer, [])
    {
      var verdict;
      verdict, inputs, fired := Attempt(window, stream, buffer, windowIndex, count, t, inputs, s, attempt, base, from);
      if verdict.Some? {
        return verdict.value, inputs, fired;
      }
    }
    return Err(SendTimeout), inputs, [];
  }

  // ---------------------------------------------------------------------------------------
  // The whole transfer

  /** The inputs bring the machine to state s, with what it sent on the stream since `base`. */
  ghost predicate At(t: Transfer, inputs: seq<Sender.Input>, s: Sender.State, base: seq<Bytes>, sent: seq<Bytes>) {
    && Sender.Legal(t, inputs)
    && sent == base + Sender.Sent(t, inputs)
    && Sender.StateAfter(t, inputs) == s
  }

  /** Likewise while the window is being filled, which began after `before` in state s0. */
  ghost predicate Fills(t: Transfer, before: seq<Sender.Input>, s0: Sender.State, inputs: seq<Sender.Input>, s: Sender.State,
                        base: seq<Bytes>, sent: seq<Bytes>)
  {
    At(t, inputs, s, base, sent) && s.acked == s0.acked && Quietly(before, inputs)
  }

  /** One more block was read, or failed to be read. */
  lemma {:induction false} PushStep(t: Transfer, before: seq<Sender.Input>, s0: Sender.State, inputs: seq<Sender.Input>,
                                    s: Sender.State, base: seq<Bytes>, sent: seq<Bytes>)
    requires Fills(t, before, s0, inputs, s, base, sent) && Sender.CanRead(t, s)
    ensures Sender.WellFormed(t, s)
    ensures Fills(t, before, s0, inputs + [Sender.Proceed], Sender.Push(t, s), base, sent)
    ensures Fills(t, before, s0, inputs + [Sender.Fault], Sender.End(s, Sender.ReadFailed), base, sent)
  {
    Sender.Extend(t, inputs, Sender.Proceed);
    Sender.Extend(t, inputs, Sender.Fault);
    OneMoreQuiet(before, inputs, Sender.Proceed);
    OneMoreQuiet(before, inputs, Sender.Fault);
  }

  function Begun(s: Sender.State): Sender.State {
    s.(phase := Sender.Sending(1, 0), rounds := s.rounds + 1, roundSends := 0)
  }

  lemma {:induction false} BeginStep(t: Transfer, inputs: seq<Sender.Input>, s: Sender.State, base: seq<Bytes>, sent: seq<Bytes>)
    requires At(t, inputs, s, base, sent) && s.phase.Filling? && !Sender.CanRead(t, s)
    ensures InAttempt(t, inputs + [Sender.Proceed], Begun(s), 1, 0, base, sent)
  {
    Sender.Extend(t, inputs, Sender.Proceed);
  }

  /** The variables of send_file agree with the state of the machine and with the file. */
  ghost predicate Agrees(t: Transfer, s: Sender.State, window: Window, file: FileReader,
                         lastRead: u16, toSend: u16, done: bool, bytesSent: nat)
    reads window, window.buffers, file, file.handle, file.chunk
  {
    && Loaded(window, t, s)
    && t.blockSize == window.blockSize
    && file.Valid()
    && t.file == file.handle.contents
    && s.phase.Filling?
    && s.lastRead == lastRead
    && s.count == toSend
    && s.done == done
    && s.offset == bytesSent == file.currentOffset
  }

  /** Reads one block and follows the machine's step. */
  method ReadBlock(window: Window, file: FileReader, index: u16, toSend: u16, bytesSent: nat, ghost t: Transfer, ghost s: Sender.State)
    returns (r: Option<(nat, bool)>, ghost s': Sender.State)
    requires Agrees(t, s, window, file, s.lastRead, toSend, false, bytesSent) && Sender.CanRead(t, s)
    requires index == WrappingAdd(s.lastRead, 1)
    modifies window, window.buffers, file, file.handle, file.chunk
    ensures file.chunk == old(file.chunk) || fresh(file.chunk)
    ensures Sender.WellFormed(t, s)
    ensures r.None? ==> file.handle.LastFailed() && s' == Sender.End(s, Sender.ReadFailed)
    ensures r.Some? ==>
              && s' == Sender.Push(t, s)
              && Agrees(t, s', window, file, index, toSend + 1, r.value.1, bytesSent + r.value.0)
  {
    r := window.PushBlock(file, index);
    s' := if r.Some? then Sender.Push(t, s) else Sender.End(s, Sender.ReadFailed);
  }

  /** Reads blocks until the window is full or the file has ended. */
  method FillWindow(window: Window, file: FileReader, lastRead0: u16, toSend0: u16, bytesSent0: nat,
                    ghost t: Transfer, ghost before: seq<Sender.Input>, ghost s0: Sender.State,
                    ghost base: seq<Bytes>, ghost sent: seq<Bytes>)
    returns (ok: bool, lastRead: u16, toSend: u16, done: bool, bytesSent: nat,
             ghost inputs: seq<Sender.Input>, ghost s: Sender.State)
    requires Agrees(t, s0, window, file, lastRead0, toSend0, false, bytesSent0)
    requires At(t, before, s0, base, sent)
    modifies window, window.buffers, file, file.handle, file.chunk
    ensures file.chunk == old(file.chunk) || fresh(file.chunk)
    ensures Fills(t, before, s0, inputs, s, base, sent)
    ensures !ok ==> s.phase == Sender.Ended(Sender.ReadFailed) && file.handle.LastFailed()
    ensures ok ==> Agrees(t, s, window, file, lastRead, toSend, done, bytesSent) && !Sender.CanRead(t, s)
  {
    ok, lastRead, toSend, done, bytesSent := true, lastRead0, toSend0, false, bytesSent0;
    inputs, s := before, s0;
    while !done && toSend < window.Size()
      invariant file.chunk == old(file.chunk) || fresh(file.chunk)
      invariant Fills(t, before, s0, inputs, s, base, sent)
      invariant Agrees(t, s, window, file, lastRead, toSend, done, bytesSent)
      decreases window.Size() - toSend
    {
      lastRead := WrappingAdd(lastRead, 1);
      PushStep(t, before, s0, inputs, s, base, sent);
      var pushed;
      pushed, s := ReadBlock(window, file, lastRead, toSend, bytesSent, t, s);
      if pushed.None? {
        inputs := inputs + [Sender.Fault];
        ok := false;
        return;
      }
      inputs := inputs + [Sender.Proceed];
      toSend := toSend + 1;
      bytesSent := bytesSent + pushed.value.0;
      done := pushed.value.1;
    }
  }

  /** What the caller of send_file learns from the way the transfer ended. */
  function Report(s: Sender.State): Result<(nat, nat), TftpError>
    requires s.phase.Ended?
  {
    match s.phase.outcome
    case Completed => Ok((s.offset, 0))
    case PeerAborted => Ok((s.offset, s.count))
    case ReadFailed => Err(UndefinedError(READ_ERROR))
    case TimedOut => Err(UndefinedError(SEND_TIMEOUT))
    case NetworkFailed => Err(UndefinedError(UNKNOWN_ERROR))
    case StaleAck => Err(UndefinedError(UNKNOWN_ERROR))
  }

  lemma {:induction false} ReportFits(s: Sender.State)
    requires s.phase.Ended? && Report(s).Err?
    ensures |ErrorPacket(Report(s).error)| < ERROR_ROOM
  {
    MessagesFit();
  }

  /** The transfer is over, and result and datagrams are those of the machine's run. */
  ghost predicate Finished(t: Transfer, inputs: seq<Sender.Input>, r: Result<(nat, nat), TftpError>,
                           base: seq<Bytes>, sent: seq<Bytes>, fired: seq<Bytes>)
  {
    && Sender.Legal(t, inputs)
    && Sender.StateAfter(t, inputs).phase.Ended?
    && r == Report(Sender.StateAfter(t, inputs))
    && sent == base + Sender.Sent(t, inputs) + fired
    && |fired| <= 1
    && (fired != [] ==> Sender.StateAfter(t, inputs).phase == Sender.Ended(Sender.StaleAck))
  }

  ghost predicate EndedStale(t: Transfer, inputs: seq<Sender.Input>) {
    Sender.Legal(t, inputs) && Sender.StateAfter(t, inputs).phase == Sender.Ended(Sender.StaleAck)
  }

  /** What the end of the transfer leaves: a stale ACK answered, or else only what was heard. */
  ghost predicate Aftermath(t: Transfer, inputs: seq<Sender.Input>, from: Ears, buffer: Bytes, fired: seq<Bytes>) {
    && Replay(inputs, from).Some?
    && Rebuked(EndedStale(t, inputs), Replay(inputs, from).value.buffer, buffer, fired)
  }

  /** What is reported when a round fails. */
  function Failure(e: SendError, bytesSent: nat, toSend: nat): Result<(nat, nat), TftpError> {
    match e
    case SendTimeout => Err(UndefinedError(SEND_TIMEOUT))
    case SendClientError => Ok((bytesSent, toSend))
    case SendNetwork => Err(UndefinedError(UNKNOWN_ERROR))
    case SendAckError => Err(UndefinedError(UNKNOWN_ERROR))
  }

  lemma {:induction false} RoundFailed(t: Transfer, inputs: seq<Sender.Input>, s: Sender.State, e: SendError,
                                       base: seq<Bytes>, sent: seq<Bytes>, fired: seq<Bytes>)
    requires Settled(t, inputs, Begun(s), Err(e), base, sent, fired)
    ensures Finished(t, inputs, Failure(e, s.offset, s.count), base, sent, fired)
    ensures EndedStale(t, inputs) <==> e == SendAckError
  {
  }

  /** The state a round leaves that was acknowledged: the next round's, or the final one. */
  lemma {:induction false} RoundAccepted(t: Transfer, inputs: seq<Sender.Input>, s: Sender.State, x: u16,
                                         base: seq<Bytes>, sent: seq<Bytes>, fired: seq<Bytes>) returns (now: Sender.State)
    requires Settled(t, inputs, Begun(s), Ok(x), base, sent, fired)
    ensures At(t, inputs, now, base, sent)
    ensures now.lastRead == s.lastRead && now.done == s.done && now.offset == s.offset && now.slots == s.slots
    ensures now.acked == x && now.count == WrappingSub(s.lastRead, x)
    ensures now.phase == if s.done then Sender.Ended(Sender.Completed) else Sender.Filling
  {
    now := Sender.StateAfter(t, inputs);
  }

  /** Between two rounds: the machine is filling, or has completed if the last block was read. */
  ghost predicate BetweenRounds(t: Transfer, s: Sender.State, window: Window, file: FileReader,
                                lastAcknowledged: u16, lastRead: u16, done: bool, bytesSent: nat)
    reads window, window.buffers, file, file.handle, file.chunk
  {
    if done then
      s.phase == Sender.Ended(Sender.Completed) && s.offset == bytesSent
    else
      && Agrees(t, s, window, file, lastRead, WrappingSub(lastRead, lastAcknowledged), false, bytesSent)
      && s.acked == lastAcknowledged
  }

  /** Fills the window and begins to send it, unless the file cannot be read. */
  method BeginRound(file: FileReader, stream: DatagramStream, window: Window, buffer: array<byte>,
                    lastAcknowledged: u16, lastRead0: u16, bytesSent0: nat,
                    ghost t: Transfer, ghost before: seq<Sender.Input>, ghost s0: Sender.State, ghost base: seq<Bytes>, ghost from: Ears)
    returns (ok: bool, lastRead: u16, toSend: u16, done: bool, bytesSent: nat,
             ghost inputs: seq<Sender.Input>, ghost s: Sender.State)
    requires At(t, before, s0, base, stream.sent) && Listened(before, from, stream, buffer)
    requires BetweenRounds(t, s0, window, file, lastAcknowledged, lastRead0, false, bytesSent0)
    requires buffer !in window.buffers
    modifies window, window.buffers, file, file.handle, file.chunk
    ensures file.chunk == old(file.chunk) || fresh(file.chunk)
    ensures !ok ==>
              && Finished(t, inputs, Err(UndefinedError(READ_ERROR)), base, stream.sent, [])
              && Listened(inputs, from, stream, buffer)
              && !EndedStale(t, inputs)
              && file.handle.LastFailed()
    ensures ok ==>
              && Agrees(t, s, window, file, lastRead, toSend, done, bytesSent) && s.acked == lastAcknowledged
              && Open(t, inputs, Begun(s), 1, 0, base, from, stream, buffer)
  {
    ok, lastRead, toSend, done, bytesSent, inputs, s :=
      FillWindow(window, file, lastRead0, WrappingSub(lastRead0, lastAcknowledged), bytesSent0, t, before, s0, base, stream.sent);
    ReplayQuietly(before, inputs, from);
    if ok {
      BeginStep(t, inputs, s, base, stream.sent);
      OneMoreQuiet(before, inputs, Sender.Proceed);
      inputs := inputs + [Sender.Proceed];
      ReplayQuietly(before, inputs, from);
    }
  }

  /** One round: fills the window, and sends it until it is acknowledged in part at least. */
  method Round(file: FileReader, stream: DatagramStream, window: Window, buffer: array<byte>,
               lastAcknowledged0: u16, lastRead0: u16, bytesSent0: nat,
               ghost t: Transfer, ghost before: seq<Sender.Input>, ghost s0: Sender.State, ghost base: seq<Bytes>, ghost from: Ears)
    returns (end: Option<Result<(nat, nat), TftpError>>,
             lastAcknowledged: u16, lastRead: u16, done: bool, bytesSent: nat,
             ghost inputs: seq<Sender.Input>, ghost s: Sender.State, ghost fired: seq<Bytes>)
    requires At(t, before, s0, base, stream.sent) && Listened(before, from, stream, buffer)
    requires BetweenRounds(t, s0, window, file, lastAcknowledged0, lastRead0, false, bytesSent0)
    requires buffer !in window.buffers && buffer.Length >= ERROR_ROOM
    modifies window, window.buffers, file, file.handle, file.chunk, stream, buffer
    ensures file.chunk == old(file.chunk) || fresh(file.chunk)
    ensures end.Some? ==>
              && Finished(t, inputs, end.value, base, stream.sent, fired)
              && Aftermath(t, inputs, from, buffer[..], fired)
              && (EndedStale(t, inputs) ==> SentUnlessFailed(stream, fired))
    ensures end.None? ==>
              && At(t, inputs, s, base, stream.sent)
              && BetweenRounds(t, s, window, file, lastAcknowledged, lastRead, done, bytesSent)
              && |stream.script| < |old(stream.script)|
              && Listened(inputs, from, stream, buffer)
    ensures Heeds(inputs, from, stream)
    ensures EndsInFault(inputs) ==> LastSendFailed(stream) || file.handle.LastFailed()
  {
    lastAcknowledged, fired := lastAcknowledged0, [];
    var ok, toSend;
    ok, lastRead, toSend, done, bytesSent, inputs, s :=
      BeginRound(file, stream, window, buffer, lastAcknowledged, lastRead0, bytesSent0, t, before, s0, base, from);
    if !ok {
      end := Some(Err(UndefinedError(READ_ERROR)));
      return;
    }
    var result;
    result, inputs, fired :=
      SendReliably(window, stream, buffer, WrappingAdd(lastAcknowledged, 1), toSend, t, inputs, Begun(s), base, from);
    match result
    case Ok(received) =>
      s := RoundAccepted(t, inputs, s, received, base, stream.sent, fired);
      lastAcknowledged := received;
      end := None;
    case Err(e) =>
      RoundFailed(t, inputs, s, e, base, stream.sent, fired);
      end := Some(Failure(e, bytesSent, toSend));
  }

  /**
   Sends the whole file. Whatever the stream and the disk do, the datagrams sent and the result
   are those of a run of the sender's machine to its end, on the inputs they amount to.
   */
  method SendFile(file: FileReader, stream: DatagramStream, window: Window, buffer: array<byte>, ghost t: Transfer)
    returns (r: Result<(nat, nat), TftpError>, ghost inputs: seq<Sender.Input>, ghost fired: seq<Bytes>)
    requires t.Valid() && Agrees(t, Sender.Init(t), window, file, 0, 0, false, 0)
    requires buffer !in window.buffers && buffer.Length >= ERROR_ROOM
    modifies window, window.buffers, file, file.handle, file.chunk, stream, buffer
    ensures Finished(t, inputs, r, old(stream.sent), stream.sent, fired)
    ensures Aftermath(t, inputs, Ears(old(stream.script), old(buffer[..])), buffer[..], fired)
    ensures EndedStale(t, inputs) ==> SentUnlessFailed(stream, fired)
    ensures Heeds(inputs, Ears(old(stream.script), old(buffer[..])), stream)
    ensures EndsInFault(inputs) ==> LastSendFailed(stream) || file.handle.LastFailed()
  {
    var bytesSent: nat, lastAcknowledged: u16, lastRead: u16, done := 0, 0, 0, false;
    ghost var base, s, from := stream.sent, Sender.Init(t), Ears(stream.script, buffer[..]);
    inputs, fired := [], [];
    while !done
      invariant file.chunk == old(file.chunk) || fresh(file.chunk)
      invariant At(t, inputs, s, base, stream.sent) && Listened(inputs, from, stream, buffer)
      invariant EndsInFault(inputs) ==> LastSendFailed(stream) || file.handle.LastFailed()
      invariant BetweenRounds(t, s, window, file, lastAcknowledged, lastRead, done, bytesSent)
      decreases |stream.script|, !done
    {
      var end;
      end, lastAcknowledged, lastRead, done, bytesSent, inputs, s, fired :=
        Round(file, stream, window, buffer, lastAcknowledged, lastRead, bytesSent, t, inputs, s, base, from);
      if end.Some? {
        return end.value, inputs, fired;
      }
    }
    return Ok((bytesSent, 0)), inputs, [];
  }
}
