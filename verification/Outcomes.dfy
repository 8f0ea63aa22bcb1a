/** How a transfer ends and what is made of it, by the last thing that happened in it. */
module Outcomes {
  import opened Wire
  import opened Text
  import opened Blocks
  import opened TftpErrors
  import opened Datagrams
  import opened Sender
  import opened PeerHandler

  lemma {:induction false} LastStep(t: Transfer, inputs: seq<Input>, n: nat)
    requires Legal(t, inputs) && n + 1 == |inputs|
    ensures Legal(t, inputs[..n]) && Enabled(t, StateAfter(t, inputs[..n]), inputs[n])
    ensures StateAfter(t, inputs) == Step(t, StateAfter(t, inputs[..n]), inputs[n])
  {
  }

  /** Nothing follows on the end of a run. */
  lemma {:induction false} EndIsLast(t: Transfer, inputs: seq<Input>, n: nat)
    requires Legal(t, inputs) && n <= |inputs|
    ensures Legal(t, inputs[..n])
    ensures StateAfter(t, inputs[..n]).phase.Ended? ==> n == |inputs|
  {
    if n < |inputs| {
      var before := inputs[..|inputs| - 1];
      LastStep(t, inputs, |inputs| - 1);
      EndIsLast(t, before, n);
      assert before[..n] == inputs[..n];
    } else {
      assert inputs[..n] == inputs;
    }
  }

  /** What the caller learns, by the last thing that happened and the state in which it did. */
  ghost predicate ReportedFor(t: Transfer, s: State, last: Input, r: Result<(nat, nat), TftpError>) {
    match last
    case Proceed => false
    case Fault =>
      if s.phase.Filling? then r == Err(UndefinedError(Ascii("Read file error occurred")))
      else r == Err(UndefinedError(Ascii("Unknown error occurred")))
    case Silence =>
      s.phase.Sending? && s.phase.attempt >= 5 && r == Err(UndefinedError(Ascii("Send timeout occurred")))
    case Heard(PeerError) => r == Ok((s.offset, s.count))
    case Heard(Unreadable) => r == Err(UndefinedError(Ascii("Unknown error occurred")))
    case Heard(Ack(x)) =>
      if x >= WindowIndex(s) then s.done && r == Ok((s.offset, 0))
      else r == Err(UndefinedError(Ascii("Unknown error occurred")))
  }

  /** Every result of send_file is the one for the last thing that happened. */
  lemma {:induction false} ResultExactly(t: Transfer, inputs: seq<Input>, r: Result<(nat, nat), TftpError>,
                                         base: seq<Bytes>, sent: seq<Bytes>, fired: seq<Bytes>)
    requires Finished(t, inputs, r, base, sent, fired)
    ensures inputs != []
    ensures var n := |inputs| - 1;
            Legal(t, inputs[..n]) && ReportedFor(t, StateAfter(t, inputs[..n]), inputs[n], r)
  {
    if inputs != [] {
      LastStep(t, inputs, |inputs| - 1);
    }
  }

  /** What the sender makes of a wait: silence, an ACK, an abort, or something it cannot use. */
  lemma {:induction false} HeardExactly(w: Waited, x: u16)
    ensures var input := InputOf(AckOf(w));
            && (input == Silence <==> w.result.TimedOut?)
            && (input == Heard(Ack(x)) <==> w.result.Received? && |w.buffer| >= 4 && w.buffer[..4] == [0, 4, Hi(x), Lo(x)])
            && (input == Heard(PeerError) <==> w.result.Received? && exists message :: BeginsWithError(w.buffer, message))
            && (input == Silence || input == Heard(PeerError) || input == Heard(Unreadable) || (input.Heard? && input.message.Ack?))
  {
    AckReadExactly(w.buffer, x);
    AbortReadExactly(w.buffer);
  }

  /** The n-th input is a wait, and this is what it brought. */
  ghost predicate WaitedAt(inputs: seq<Input>, from: Ears, n: nat, w: Waited) {
    && n < |inputs|
    && !inputs[n].Proceed?
    && !inputs[n].Fault?
    && Replay(inputs[..n], from).Some?
    && w == Wait(Replay(inputs[..n], from).value.script, Replay(inputs[..n], from).value.buffer, 4)
  }

  /** Every wait of a run became the input that stands for what it brought. */
  lemma {:induction false} WaitBecameInput(inputs: seq<Input>, from: Ears, n: nat, w: Waited)
    requires Replay(inputs, from).Some? && WaitedAt(inputs, from, n, w)
    ensures inputs[n] == InputOf(AckOf(w))
    decreases |inputs|
  {
    var before := inputs[..|inputs| - 1];
    if n < |before| {
      assert before[..n] == inputs[..n];
      WaitBecameInput(before, from, n, w);
    }
  }

  /** What a transfer comes to if this is what was heard, with the last window sent in state s. */
  ghost predicate AbortedIn(t: Transfer, inputs: seq<Input>, n: nat, r: Result<(nat, nat), TftpError>, fired: seq<Bytes>) {
    && n + 1 == |inputs|
    && Legal(t, inputs[..n])
    && r == Ok((StateAfter(t, inputs[..n]).offset, StateAfter(t, inputs[..n]).count))
    && fired == []
  }

  lemma {:induction false} HeardAbort(t: Transfer, inputs: seq<Input>, n: nat)
    requires Legal(t, inputs) && n < |inputs| && inputs[n] == Heard(PeerError)
    ensures n + 1 == |inputs|
  {
    var longer := inputs[..n + 1];
    EndIsLast(t, inputs, n + 1);
    LastStep(t, longer, n);
  }

  /**
   An ERROR of the peer ends the transfer at once, whatever its code and message: the result is
   what was read so far and the blocks of the window, and nothing more is sent.
   */
  lemma {:induction false} PeerAborts(t: Transfer, inputs: seq<Input>, r: Result<(nat, nat), TftpError>, base: seq<Bytes>,
                                      sent: seq<Bytes>, fired: seq<Bytes>, from: Ears, n: nat, w: Waited, message: Bytes)
    requires Finished(t, inputs, r, base, sent, fired) && Replay(inputs, from).Some?
    requires WaitedAt(inputs, from, n, w) && w.result.Received? && BeginsWithError(w.buffer, message)
    ensures AbortedIn(t, inputs, n, r, fired)
  {
    AbortReadExactly(w.buffer);
    WaitBecameInput(inputs, from, n, w);
    HeardAbort(t, inputs, n);
    ResultExactly(t, inputs, r, base, sent, fired);
    LastStep(t, inputs, n);
  }

  /** The first datagram that is not passed over is such an ERROR, and so that is what the wait brings. */
  lemma {:induction false} ErrorArrives(script: seq<Event>, buffer: Bytes, i: nat, message: Bytes)
    requires i < |script| && forall j :: 0 <= j < i ==> PassedOver(script[j], |buffer|, 4)
    requires script[i].Arrives? && script[i].fromPeer && |script[i].bytes| <= |buffer| && BeginsWithError(script[i].bytes, message)
    ensures Wait(script, buffer, 4).result.Received? && BeginsWithError(Wait(script, buffer, 4).buffer, message)
  {
    WaitExactly(script, buffer, 4, i);
    var d, b := script[i].bytes, Wait(script, buffer, 4).buffer;
    assert b[..|d|] == d;
    assert b[..2] == d[..2];
    assert b[4..][..|d| - 4] == d[4..];
  }

  // ---------------------------------------------------------------------------------------
  // Silence

  function Proceeds(n: nat): (inputs: seq<Input>)
    ensures |inputs| == n
  {
    if n == 0 then [] else Proceeds(n - 1) + [Proceed]
  }

  lemma {:induction false} SendsOne(t: Transfer, inputs: seq<Input>, attempt: nat, next: nat)
    requires Legal(t, inputs) && StateAfter(t, inputs).phase == Sending(attempt, next) && next < StateAfter(t, inputs).count
    ensures Legal(t, inputs + [Proceed])
    ensures StateAfter(t, inputs + [Proceed]).phase == Sending(attempt, next + 1)
    ensures StateAfter(t, inputs + [Proceed]).count == StateAfter(t, inputs).count
    ensures |Sent(t, inputs + [Proceed])| == |Sent(t, inputs)| + 1
  {
    Extend(t, inputs, Proceed);
  }

  /** An attempt sends one datagram after another. */
  lemma {:induction false} SendsRest(t: Transfer, inputs: seq<Input>, attempt: nat, n: nat) returns (longer: seq<Input>)
    requires Legal(t, inputs) && n <= StateAfter(t, inputs).count && StateAfter(t, inputs).phase == Sending(attempt, 0)
    ensures longer == inputs + Proceeds(n) && Legal(t, longer)
    ensures StateAfter(t, longer).phase == Sending(attempt, n)
    ensures StateAfter(t, longer).count == StateAfter(t, inputs).count
    ensures |Sent(t, longer)| == |Sent(t, inputs)| + n
  {
    if n == 0 {
      longer := inputs;
    } else {
      var before := SendsRest(t, inputs, attempt, n - 1);
      SendsOne(t, before, attempt, n - 1);
      longer := before + [Proceed];
    }
  }

  /** The inputs of an attempt that nobody answers. */
  function Unheard(count: nat): seq<Input> {
    Proceeds(count) + [Silence]
  }

  lemma {:induction false} SilentAttempt(t: Transfer, inputs: seq<Input>, attempt: nat, c: nat) returns (longer: seq<Input>)
    requires Legal(t, inputs) && StateAfter(t, inputs).phase == Sending(attempt, 0) && StateAfter(t, inputs).count == c
    ensures longer == inputs + Unheard(c) && Legal(t, longer) && StateAfter(t, longer).count == c
    ensures StateAfter(t, longer).phase == (if attempt < 5 then Sending(attempt + 1, 0) else Ended(Outcome.TimedOut))
    ensures |Sent(t, longer)| == |Sent(t, inputs)| + c
  {
    var sent := SendsRest(t, inputs, attempt, c);
    Extend(t, sent, Silence);
    longer := sent + [Silence];
  }

  /** A window that nobody acknowledges is sent five times, and then the transfer times out. */
  lemma {:induction false} FiveAttempts(t: Transfer, inputs: seq<Input>) returns (longer: seq<Input>)
    requires Legal(t, inputs) && StateAfter(t, inputs).phase == Sending(1, 0)
    ensures var c := StateAfter(t, inputs).count;
            && longer == inputs + Unheard(c) + Unheard(c) + Unheard(c) + Unheard(c) + Unheard(c)
            && Legal(t, longer)
            && StateAfter(t, longer).phase == Ended(Outcome.TimedOut)
            && |Sent(t, longer)| == |Sent(t, inputs)| + 5 * c
  {
    var c := StateAfter(t, inputs).count;
    longer := SilentAttempt(t, inputs, 1, c);
    longer := SilentAttempt(t, longer, 2, c);
    longer := SilentAttempt(t, longer, 3, c);
    longer := SilentAttempt(t, longer, 4, c);
    longer := SilentAttempt(t, longer, 5, c);
  }
}
