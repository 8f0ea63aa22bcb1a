/** Negotiating the options of a request, and serving the file on the terms agreed. */
module Negotiation {
  import opened Wire
  import opened Text
  import opened Blocks
  import opened Cursor
  import opened TftpErrors
  import opened Messages
  import opened Options
  import opened Datagrams
  import opened RemoteFile
  import opened PeerHandler

  const OACK_BUILD_ERROR: Bytes := Ascii("OACK build error")
  const NON_ZERO_ACK: Bytes := Ascii("Unexpected non-zero ACK")

  lemma {:induction false} MessagesFit()
    ensures |OACK_BUILD_ERROR| == 16 && |NON_ZERO_ACK| == 23 && |SEND_TIMEOUT| == 21
  {
  }

  /** The peer sends an acknowledgement of block 0 at some time. */
  ghost predicate PeerAcceptsTerms(script: seq<Event>) {
    exists i :: 0 <= i < |script| && script[i].Arrives? && script[i].fromPeer && [0, ACK, 0, 0] <= script[i].bytes
  }

  lemma {:induction false} AckZeroCameFromPeer(all: seq<Event>, n: nat, buffer: Bytes)
    requires AckOf(Wait(AfterSilences(all, n), buffer, 4)) == Ok(0)
    ensures PeerAcceptsTerms(all)
  {
    var script := AfterSilences(all, n);
    SilencesSuffix(all, n);
    AckCameFromPeer(script, buffer, 0);
    var i :| 0 <= i < |script| && script[i].Arrives? && script[i].fromPeer && [0, ACK, 0, 0] <= script[i].bytes;
    assert all[|all| - |script| + i] == script[i];
  }

  /** What an attempt comes to: it sends at most what is in the buffer, and gets silence or a verdict. */
  ghost predicate Attempted(script: seq<Event>, buffer: Bytes, size: nat, verdict: Option<bool>,
                            copy: seq<Bytes>, rest: seq<Event>, after: Bytes)
    requires size <= |buffer|
  {
    && (copy == [] || copy == [buffer[..size]])
    && (verdict.None? || verdict.value ==> copy != [])
    && var w := Wait(script, buffer, 4);
       && (copy != [] ==> (verdict.None? <==> w.result.TimedOut?))
       && (verdict == Some(true) <==> copy != [] && AckOf(w) == Ok(0))
       && (verdict.None? || verdict.value ==> w.rest == rest && w.buffer == after)
  }

  lemma {:induction false} TimeoutMeans(script: seq<Event>, buffer: Bytes)
    ensures AckOf(Wait(script, buffer, 4)) == Err(RecvTimeout) <==> Wait(script, buffer, 4).result.TimedOut?
  {
  }

  /** An ACK of another block than 0 is answered by an error, which is written over it. */
  ghost predicate Contradicts(w: Waited, fired: seq<Bytes>) {
    fired != [] ==> AcksOther(w) && FiredFor(UndefinedError(NON_ZERO_ACK), w.buffer, fired)
  }

  /** The wait brought an ACK of another block than 0. */
  ghost predicate AcksOther(w: Waited) {
    AckOf(w).Ok? && AckOf(w).value != 0
  }

  /** Sends what is in the buffer and waits; no verdict means that nothing came. */
  method OackAttempt(stream: DatagramStream, buffer: array<byte>, size: nat)
    returns (verdict: Option<bool>, ghost copies: seq<Bytes>, ghost fired: seq<Bytes>)
    requires size <= buffer.Length && buffer.Length >= ERROR_ROOM
    modifies stream, buffer
    ensures stream.sent == old(stream.sent) + copies + fired && |fired| <= 1
    ensures verdict.None? || verdict.value ==> fired == [] && stream.attempts == old(stream.attempts) + 1
    ensures copies == [] <==> stream.sendFails(old(stream.attempts))
    ensures copies == [] ==> fired == []
    ensures Attempted(old(stream.script), old(buffer[..]), size, verdict, copies, stream.script, buffer[..])
    ensures Contradicts(Wait(old(stream.script), old(buffer[..]), 4), fired)
    ensures copies != [] && AcksOther(Wait(old(stream.script), old(buffer[..]), 4)) ==> SentUnlessFailed(stream, fired)
  {
    copies, fired := [], [];
    var out := stream.Send(buffer[..size]);
    if !out {
      return Some(false), [], [];
    }
    copies := [buffer[..][..size]];
    var ack := ReadAcknowledge(stream, buffer);
    TimeoutMeans(old(stream.script), old(buffer[..]));
    match ack
    case Ok(x) =>
      if x == 0 {
        verdict := Some(true);
      } else {
        fired := Complain(NON_ZERO_ACK, stream, buffer);
        verdict := Some(false);
      }
    case Err(RecvTimeout) => verdict := None;
    case Err(_) => verdict := Some(false);
  }

  lemma {:induction false} Regroup(base: seq<Bytes>, copies: seq<Bytes>, copy: seq<Bytes>, fired: seq<Bytes>)
    ensures base + copies + copy + fired == base + (copies + copy) + fired
    ensures fired == [] ==> base + copies + copy + fired == base + (copies + copy)
  {
  }

  /** Each copy is the packet with all over it that was ignored before the copy went out. */
  ghost predicate CopiesAre(all: seq<Event>, copies: seq<Bytes>, packet: Bytes) {
    forall i :: 0 <= i < |copies| ==> copies[i] == Overlaid(packet, Ignored(all, i))
  }

  /** A copy is a true one exactly if what was ignored before spared the packet. */
  lemma {:induction false} CopyTrueExactly(all: seq<Event>, copies: seq<Bytes>, packet: Bytes, i: nat)
    requires CopiesAre(all, copies, packet) && i < |copies|
    ensures copies[i] == packet <==> Spared(packet, Ignored(all, i))
  {
    SurvivesExactly(packet, Ignored(all, i));
  }

  /** So many attempts have been made without an answer, and what went out is these copies. */
  ghost predicate Unanswered(all: seq<Event>, script: seq<Event>, before: Bytes, buffer: Bytes, size: nat, copies: seq<Bytes>) {
    && script == AfterSilences(all, |copies|)
    && buffer == Overlaid(before, Ignored(all, |copies|))
    && size <= |before|
    && CopiesAre(all, copies, before[..size])
    && !BrokenOff(all, before, |copies|)
  }

  /** The peer accepted after n copies, and this is what it left to hear. */
  ghost predicate AcceptedAfter(all: seq<Event>, before: Bytes, n: nat, rest: seq<Event>, after: Bytes) {
    && 1 <= n
    && var w := WaitAfter(all, before, n);
       AckOf(w) == Ok(0) && w.rest == rest && w.buffer == after
  }

  /** The wait after the n-th copy. */
  ghost function WaitAfter(all: seq<Event>, before: Bytes, n: nat): Waited
    requires 1 <= n
  {
    Wait(AfterSilences(all, n - 1), Overlaid(before, Ignored(all, n - 1)), 4)
  }

  /** The wait after the n-th copy brought something else than silence. */
  ghost predicate BrokenOff(all: seq<Event>, before: Bytes, n: nat) {
    1 <= n && !WaitAfter(all, before, n).result.TimedOut?
  }

  lemma {:induction false} OneMoreCopy(all: seq<Event>, script: seq<Event>, before: Bytes, buffer: Bytes, size: nat,
                                       copies: seq<Bytes>, copy: seq<Bytes>)
    requires Unanswered(all, script, before, buffer, size, copies)
    requires copy == [] || copy == [buffer[..size]]
    ensures CopiesAre(all, copies + copy, before[..size])
  {
    OverlaidFront(before, Ignored(all, |copies|), size);
  }

  lemma {:induction false} SilentAgain(all: seq<Event>, script: seq<Event>, before: Bytes, buffer: Bytes, size: nat,
                                       copies: seq<Bytes>, longer: seq<Bytes>)
    requires Unanswered(all, script, before, buffer, size, copies) && Wait(script, buffer, 4).result.TimedOut?
    requires |longer| == |copies| + 1 && CopiesAre(all, longer, before[..size])
    requires WaitAfter(all, before, |longer|) == Wait(script, buffer, 4)
    ensures var w := Wait(script, buffer, 4); Unanswered(all, w.rest, before, w.buffer, size, longer)
  {
    SilentWait(script, buffer, 4);
    OneMoreSilence(all, |copies|);
    OverlaidAppend(before, Ignored(all, |copies|), Ignored(script, 1));
  }

  /** How the attempts stand after one more of them. */
  ghost predicate Repeated(all: seq<Event>, before: Bytes, size: nat, verdict: Option<bool>,
                           copies: seq<Bytes>, rest: seq<Event>, after: Bytes)
  {
    && size <= |before|
    && CopiesAre(all, copies, before[..size])
    && (verdict.None? ==> Unanswered(all, rest, before, after, size, copies))
    && (verdict == Some(true) ==> AcceptedAfter(all, before, |copies|, rest, after) && PeerAcceptsTerms(all))
    && (verdict == Some(true) <== copies != [] && AckOf(WaitAfter(all, before, |copies|)) == Ok(0))
  }

  lemma {:induction false} AttemptAdded(all: seq<Event>, script: seq<Event>, before: Bytes, buffer: Bytes, size: nat,
                                        copies: seq<Bytes>, verdict: Option<bool>, copy: seq<Bytes>,
                                        rest: seq<Event>, after: Bytes)
    requires Unanswered(all, script, before, buffer, size, copies)
    requires Attempted(script, buffer, size, verdict, copy, rest, after)
    ensures Repeated(all, before, size, verdict, copies + copy, rest, after)
    ensures copy != [] ==> WaitAfter(all, before, |copies + copy|) == Wait(script, buffer, 4)
    ensures copy != [] ==> (verdict.Some? <==> BrokenOff(all, before, |copies + copy|))
    ensures verdict.None? ==> |copies + copy| == |copies| + 1
  {
    OneMoreCopy(all, script, before, buffer, size, copies, copy);
    if verdict.None? {
      SilentAgain(all, script, before, buffer, size, copies, copies + copy);
    } else if verdict.value {
      AckZeroCameFromPeer(all, |copies|, buffer);
    }
  }

  /**
   Sends what is in the buffer up to five times, until the peer acknowledges block 0. It stops
   earlier only if a send fails or something else is heard.
   */
  method RepeatOack(stream: DatagramStream, buffer: array<byte>, size: nat)
    returns (verdict: Option<bool>, ghost copies: seq<Bytes>, ghost fired: seq<Bytes>)
    requires size <= buffer.Length && buffer.Length >= ERROR_ROOM
    modifies stream, buffer
    ensures stream.sent == old(stream.sent) + copies + fired
    ensures |copies| <= Sender.SEND_ATTEMPTS && |fired| <= 1
    ensures Repeated(old(stream.script), old(buffer[..]), size, verdict, copies, stream.script, buffer[..])
    ensures verdict.None? ==> fired == [] && |copies| == Sender.SEND_ATTEMPTS
    ensures verdict.None? ==> stream.attempts == old(stream.attempts) + |copies| && !BrokenOff(old(stream.script), old(buffer[..]), |copies|)
    ensures verdict.Some? ==>
              || (|copies| < Sender.SEND_ATTEMPTS && stream.sendFails(old(stream.attempts) + |copies|))
              || BrokenOff(old(stream.script), old(buffer[..]), |copies|)
    ensures fired != [] ==> copies != [] && Contradicts(WaitAfter(old(stream.script), old(buffer[..]), |copies|), fired)
    ensures copies != [] && AcksOther(WaitAfter(old(stream.script), old(buffer[..]), |copies|)) ==> SentUnlessFailed(stream, fired)
    ensures verdict == Some(true) ==> fired == []
  {
    ghost var all, base, first, start := stream.script, stream.sent, buffer[..], stream.attempts;
    copies, fired, verdict := [], [], None;
    for attempt := 0 to Sender.SEND_ATTEMPTS
      invariant stream.sent == base + copies && |copies| == attempt && fired == [] && verdict.None?
      invariant stream.attempts == start + attempt && !BrokenOff(all, first, attempt)
      invariant Repeated(all, first, size, None, copies, stream.script, buffer[..])
    {
      ghost var script, before, copy := stream.script, buffer[..], [];
      verdict, copy, fired := OackAttempt(stream, buffer, size);
      AttemptAdded(all, script, first, before, size, copies, verdict, copy, stream.script, buffer[..]);
      Regroup(base, copies, copy, fired);
      copies := copies + copy;
      if verdict.Some? {
        return;
      }
    }
  }

  /**
   What goes out of an acknowledgement: copies of what was written, which is the acknowledgement
   exactly if the buffer was clean for it, each with all over it that was ignored before.
   */
  ghost predicate OackSent(pairs: Pairs, all: seq<Event>, buffer: Bytes, first: Bytes, copies: seq<Bytes>) {
    var size := |OackPacket(pairs)|;
    if size < |first| then
      && |copies| <= Sender.SEND_ATTEMPTS
      && CopiesAre(all, copies, first[..size])
      && (first[..size] == OackPacket(pairs) <==> GapsClean(buffer, 2, Flat(pairs), false))
    else
      copies == []
  }

  /**
   The error that a negotiation may end in, written over what is in the buffer by then: the part of
   the acknowledgement that was written, an ACK of another block than 0, or, after the last
   silence, the acknowledgement with all over it that was ignored.
   */
  ghost predicate OackError(pairs: Pairs, all: seq<Event>, first: Bytes, n: nat, fired: seq<Bytes>) {
    if |OackPacket(pairs)| >= |first| then
      FiredFor(UndefinedError(OACK_BUILD_ERROR), first, fired)
    else if n == Sender.SEND_ATTEMPTS && !BrokenOff(all, first, n) then
      FiredFor(UndefinedError(SEND_TIMEOUT), Overlaid(first, Ignored(all, n)), fired)
    else
      fired != [] ==> 1 <= n && Contradicts(WaitAfter(all, first, n), fired)
  }

  /** A negotiation that must end in an error: the packet does not fit, or nothing came, or a wrong ACK. */
  ghost predicate Warranted(pairs: Pairs, all: seq<Event>, first: Bytes, n: nat) {
    || |OackPacket(pairs)| >= |first|
    || (n == Sender.SEND_ATTEMPTS && !BrokenOff(all, first, n))
    || (1 <= n && AcksOther(WaitAfter(all, first, n)))
  }

  /**
   Sends the acknowledgement until the peer accepts the terms by acknowledging block 0. One that
   fills the buffer may stop the program.
   */
  method SendOackReliably(oack: OptionsAcknowledge, stream: DatagramStream, buffer: array<byte>)
    returns (ok: bool, panicked: bool, ghost first: Bytes, ghost copies: seq<Bytes>, ghost fired: seq<Bytes>)
    requires oack.HasOptions() && buffer.Length >= ERROR_ROOM
    modifies stream, buffer
    ensures stream.sent == old(stream.sent) + copies + fired && |fired| <= 1
    ensures |first| == buffer.Length && OackSent(oack.options, old(stream.script), old(buffer[..]), first, copies)
    ensures OackError(oack.options, old(stream.script), first, |copies|, fired)
    ensures Warranted(oack.options, old(stream.script), first, |copies|) && !panicked ==> SentUnlessFailed(stream, fired)
    ensures panicked ==> |OackPacket(oack.options)| >= buffer.Length && fired == []
    ensures ok <==>
            && |OackPacket(oack.options)| < buffer.Length
            && copies != []
            && AckOf(WaitAfter(old(stream.script), first, |copies|)) == Ok(0)
    ensures ok ==>
              && fired == []
              && AcceptedAfter(old(stream.script), first, |copies|, stream.script, buffer[..])
              && PeerAcceptsTerms(old(stream.script))
    ensures |OackPacket(oack.options)| < buffer.Length ==>
              Tried(old(stream.script), first, |copies|, stream.sendFails, old(stream.attempts))
  {
    var put := oack.Serialize(buffer);
    ok, panicked, first, copies, fired := false, put.Panicked?, buffer[..], [], [];
    if put.Written? {
      var verdict;
      verdict, copies, fired := RepeatOack(stream, buffer, put.offset);
      ok := verdict == Some(true);
      if verdict.None? {
        fired := Complain(SEND_TIMEOUT, stream, buffer);
      }
    } else if put.TooSmall? {
      fired := Complain(OACK_BUILD_ERROR, stream, buffer);
    }
  }

  /** Sends one of the errors of a negotiation, for which there is always room. */
  method Complain(message: Bytes, stream: DatagramStream, buffer: array<byte>) returns (ghost fired: seq<Bytes>)
    requires message in [OACK_BUILD_ERROR, NON_ZERO_ACK, SEND_TIMEOUT] && buffer.Length >= ERROR_ROOM
    modifies stream, buffer
    ensures stream.script == old(stream.script)
    ensures stream.sent == old(stream.sent) + fired && |fired| <= 1
    ensures FiredFor(UndefinedError(message), old(buffer[..]), fired) && SentUnlessFailed(stream, fired)
  {
    MessagesFit();
    var put;
    put, fired := FireError(UndefinedError(message), stream, buffer);
    assert put.Written?;
  }

  ghost predicate ZeroFilled(buffer: array<byte>)
    reads buffer
  {
    forall i :: 0 <= i < buffer.Length ==> buffer[i] == 0
  }

  /** The acknowledgement of what is acceptable in the request, and the terms that follow from it. */
  method BuildOack(options: map<Bytes, Bytes>, fileSize: nat) returns (oack: OptionsAcknowledge, terms: Terms)
    ensures fresh(oack) && oack.options == Answer(options, Some(fileSize))
    ensures terms == Agreed(options)
  {
    oack := new OptionsAcknowledge();
    var timeout, blockSize, window := 5, 512, 1;
    var found := FindTimeout(options);
    if found.Some? {
      oack.Push((TIMEOUT, Decimal(found.value)));
      timeout := found.value;
    }
    assert oack.options == Pair(TIMEOUT, FindTimeout(options));
    found := FindBlksize(options);
    if found.Some? {
      oack.Push((BLKSIZE, Decimal(found.value)));
      blockSize := found.value;
    }
    assert oack.options == Pair(TIMEOUT, FindTimeout(options)) + Pair(BLKSIZE, FindBlksize(options));
    if TSIZE in options {
      oack.Push((TSIZE, Decimal(fileSize)));
    }
    found := FindWindowSize(options);
    if found.Some? {
      oack.Push((WINDOW_SIZE, Decimal(found.value)));
      window := found.value;
    }
    terms := Terms(timeout, blockSize, window);
  }

  /** A window as it is made. */
  ghost predicate Blank(window: Window)
    reads window, window.buffers
  {
    && window.Valid()
    && window.Packets() == seq(|window.buffers|, _ => seq(window.blockSize + 4, _ => 0))
  }

  /** So many copies went out, and no more: the last allowed, or a send failed, or something was heard. */
  ghost predicate Tried(all: seq<Event>, first: Bytes, n: nat, fails: nat -> bool, start: nat) {
    n == Sender.SEND_ATTEMPTS || fails(start + n) || BrokenOff(all, first, n)
  }

  /**
   What a negotiation sends and hears: nothing if there is nothing to acknowledge, otherwise copies
   of the acknowledgement, each with all over it that was ignored before, until the peer accepts.
   */
  ghost predicate Negotiated(pairs: Pairs, from: Ears, first: Bytes, copies: seq<Bytes>, fired: seq<Bytes>,
                             ok: bool, left: Ears, fails: nat -> bool, start: nat)
  {
    if pairs == [] then
      ok && copies == [] && fired == [] && left == from
    else
      && |copies| <= Sender.SEND_ATTEMPTS
      && CopiesAre(from.script, copies, OackPacket(pairs))
      && OackPacket(pairs) <= first
      && OackError(pairs, from.script, first, |copies|, fired)
      && Tried(from.script, first, |copies|, fails, start)
      && (ok <==> copies != [] && AckOf(WaitAfter(from.script, first, |copies|)) == Ok(0))
      && (ok ==> fired == [] && AcceptedAfter(from.script, first, |copies|, left.script, left.buffer) && PeerAcceptsTerms(from.script))
  }

  /**
   Agrees on terms with the peer: either nothing needs to be acknowledged and the defaults hold,
   or the peer has accepted the acknowledgement.
   */
  method NegotiateOptions(stream: DatagramStream, file: FileReader, buffer: array<byte>, options: map<Bytes, Bytes>)
    returns (r: Option<(Window, nat)>, ghost first: Bytes, ghost copies: seq<Bytes>, ghost fired: seq<Bytes>)
    requires file.fileSize < USIZE_LIMIT
    requires buffer.Length == WORDS - 1 && ZeroFilled(buffer)
    modifies stream, buffer
    ensures stream.sent == old(stream.sent) + copies + fired && |fired| <= 1
    ensures Negotiated(Answer(options, Some(file.fileSize)), Ears(old(stream.script), old(buffer[..])), first, copies, fired,
                       r.Some?, Ears(stream.script, buffer[..]), stream.sendFails, old(stream.attempts))
    ensures var pairs := Answer(options, Some(file.fileSize));
            pairs != [] && Warranted(pairs, old(stream.script), first, |copies|) ==> SentUnlessFailed(stream, fired)
    ensures r.Some? ==>
              var (window, timeout) := r.value;
              && stream.sent == old(stream.sent) + copies
              && fresh(window) && fresh(window.buffers) && Blank(window)
              && Terms(timeout, window.blockSize, |window.buffers|) == Agreed(options)
  {
    var size := file.GetSize();
    var oack, terms := BuildOack(options, size);
    first, copies, fired := [], [], [];
    if oack.HasOptions() {
      AnswerLength(options, Some(file.fileSize));
      ZeroFilledIsClean(buffer[..], 2, Flat(oack.options), false);
      var ok, panicked;
      ok, panicked, first, copies, fired := SendOackReliably(oack, stream, buffer);
      if !ok {
        return None, first, copies, fired;
      }
    }
    var window := new Window(terms.blockSize, terms.window);
    r := Some((window, terms.timeout));
  }

  /** The transfer that a file and the terms agreed on make. */
  function TransferOf(file: Bytes, terms: Terms): Transfer {
    Transfer(file, terms.blockSize, terms.window)
  }

  /** The machine's run for transfer t is over; this is its result and what it sent, then errors. */
  ghost predicate Transferred(t: Transfer, inputs: seq<Sender.Input>, r: Result<(nat, nat), TftpError>,
                              base: seq<Bytes>, sent: seq<Bytes>, stale: seq<Bytes>, report: seq<Bytes>)
  {
    && Sender.Legal(t, inputs)
    && Sender.StateAfter(t, inputs).phase.Ended?
    && r == Report(Sender.StateAfter(t, inputs))
    && sent == base + Sender.Sent(t, inputs) + stale + report
  }

  /**
   The errors at the end of a transfer: one for a stale ACK, written over that ACK, and the report
   of a failure, written over what is in the buffer by then.
   */
  ghost predicate Complaints(t: Transfer, inputs: seq<Sender.Input>, r: Result<(nat, nat), TftpError>, from: Ears,
                             stale: seq<Bytes>, report: seq<Bytes>)
  {
    && Replay(inputs, from).Some?
    && var heard := Replay(inputs, from).value.buffer;
       var past := UndefinedError(ACK_FROM_THE_PAST);
       var left := if EndedStale(t, inputs) then ErrorOver(past, heard) else heard;
       && (if EndedStale(t, inputs) then FiredFor(past, heard, stale) else stale == [])
       && (if r.Err? then FiredFor(r.error, left, report) else report == [])
  }

  /** A failure goes unreported, and a stale ACK unanswered, only if that send fails; after success nothing is sent. */
  ghost predicate Complained(t: Transfer, inputs: seq<Sender.Input>, r: Result<(nat, nat), TftpError>, stream: DatagramStream,
                             stale: seq<Bytes>, report: seq<Bytes>)
    reads stream
  {
    && (if r.Err? then SentUnlessFailed(stream, report) else report == [])
    && (EndedStale(t, inputs) ==> r.Err? && stream.attempts >= 2 && (stale == [] <==> stream.sendFails(stream.attempts - 2)))
  }

  /** Reports a failure to the peer. */
  method ReportFailure(e: TftpError, stream: DatagramStream, buffer: array<byte>) returns (ghost report: seq<Bytes>)
    requires |ErrorPacket(e)| < buffer.Length
    modifies stream, buffer
    ensures stream.script == old(stream.script) && stream.sent == old(stream.sent) + report
    ensures stream.attempts == old(stream.attempts) + 1 && SentUnlessFailed(stream, report)
    ensures FiredFor(e, old(buffer[..]), report)
  {
    var put;
    put, report := FireError(e, stream, buffer);
  }

  /** Sends the file and reports a failure to the peer. */
  method Transmit(file: FileReader, stream: DatagramStream, window: Window, buffer: array<byte>, ghost t: Transfer)
    returns (r: Result<(nat, nat), TftpError>, ghost inputs: seq<Sender.Input>, ghost stale: seq<Bytes>, ghost report: seq<Bytes>)
    requires Blank(window) && file.Valid() && file.currentOffset == 0
    requires t == Transfer(file.handle.contents, window.blockSize, |window.buffers|)
    requires buffer !in window.buffers && buffer.Length >= ERROR_ROOM
    modifies window, window.buffers, file, file.handle, file.chunk, stream, buffer
    ensures Transferred(t, inputs, r, old(stream.sent), stream.sent, stale, report)
    ensures Complaints(t, inputs, r, Ears(old(stream.script), old(buffer[..])), stale, report)
    ensures Complained(t, inputs, r, stream, stale, report)
    ensures Heeds(inputs, Ears(old(stream.script), old(buffer[..])), stream)
  {
    r, inputs, stale := SendFile(file, stream, window, buffer, t);
    report := [];
    if r.Err? {
      ReportFits(Sender.StateAfter(t, inputs));
      report := ReportFailure(r.error, stream, buffer);
    }
  }

  /**
   Serves one request: negotiates, and sends the file on the terms agreed. What goes out is the
   acknowledgement, then what the sender's machine sends for this transfer, then errors; what the
   machine hears is what the script brings once the peer has accepted the terms.
   */
  method Send(file: FileReader, stream: DatagramStream, options: map<Bytes, Bytes>, buffer: array<byte>)
    returns (r: Option<Result<(nat, nat), TftpError>>, ghost t: Transfer, ghost first: Bytes, ghost copies: seq<Bytes>,
             ghost fired: seq<Bytes>, ghost from: Ears, ghost inputs: seq<Sender.Input>,
             ghost stale: seq<Bytes>, ghost report: seq<Bytes>)
    requires file.Valid() && file.currentOffset == 0 && file.fileSize < USIZE_LIMIT
    requires buffer.Length == WORDS - 1 && ZeroFilled(buffer)
    modifies stream, buffer, file, file.handle, file.chunk
    ensures t == TransferOf(file.handle.contents, Agreed(options))
    ensures Negotiated(Answer(options, Some(file.fileSize)), Ears(old(stream.script), old(buffer[..])), first, copies, fired,
                       r.Some?, from, stream.sendFails, old(stream.attempts))
    ensures r.None? ==> stream.sent == old(stream.sent) + copies + fired
    ensures r.None? && Warranted(Answer(options, Some(file.fileSize)), old(stream.script), first, |copies|) ==>
              SentUnlessFailed(stream, fired)
    ensures r.Some? ==>
              && Transferred(t, inputs, r.value, old(stream.sent) + copies, stream.sent, stale, report)
              && Complaints(t, inputs, r.value, from, stale, report)
              && Complained(t, inputs, r.value, stream, stale, report)
              && Heeds(inputs, from, stream)
  {
    var negotiated;
    negotiated, first, copies, fired := NegotiateOptions(stream, file, buffer, options);
    t, from, inputs := TransferOf(file.handle.contents, Agreed(options)), Ears(stream.script, buffer[..]), [];
    stale, report := [], [];
    if negotiated.None? {
      r := None;
      return;
    }
    var result;
    result, inputs, stale, report := Transmit(file, stream, negotiated.value.0, buffer, t);
    r := Some(result);
  }

  // ---------------------------------------------------------------------------------------
  // A false copy

  /** A stray datagram that is ignored, and silence. */
  const STRAY: seq<Event> := [Arrives([1], false), Expires]

  lemma {:induction false} StrayCopies(packet: Bytes)
    requires packet != [] && packet[0] == 0
    ensures Overlaid(packet, Ignored(STRAY, 0)) == packet
    ensures Overlaid(packet, Ignored(STRAY, 1)) == [1] + packet[1..] != packet
  {
    assert STRAY[1..] == [Expires];
    assert [Expires][1..] == [];
    assert Ignored(STRAY, 1) == [[1]];
    assert [[1]][1..] == [];
    assert Overwritten(packet, [1]) == [1] + packet[1..];
  }

  lemma {:induction false} StraySilent(n: nat, buffer: Bytes)
    requires |buffer| >= 4
    ensures Wait(AfterSilences(STRAY, n), buffer, 4).result.TimedOut?
  {
    assert STRAY[1..] == [Expires];
    assert [Expires][1..] == [];
  }

  /** One stray byte between two attempts, and the second copy is no acknowledgement any more. */
  method FalseCopy(pairs: Pairs) returns (ghost copies: seq<Bytes>)
    requires pairs != [] && |OackPacket(pairs)| < WORDS - 1
    ensures |copies| == Sender.SEND_ATTEMPTS && copies[0] == OackPacket(pairs)
    ensures copies[1] == [1] + OackPacket(pairs)[1..] != OackPacket(pairs)
  {
    var buffer := new byte[WORDS - 1](_ => 0);
    var stream := new DatagramStream(STRAY, _ => false);
    var oack := new OptionsAcknowledge();
    oack.options := pairs;
    ZeroFilledIsClean(buffer[..], 2, Flat(pairs), false);
    var ok, panicked;
    ghost var first, fired;
    ok, panicked, first, copies, fired := SendOackReliably(oack, stream, buffer);
    ghost var packet := OackPacket(pairs);
    if |copies| > 0 {
      StraySilent(|copies| - 1, Overlaid(first, Ignored(STRAY, |copies| - 1)));
    }
    StrayCopies(packet);
  }

  // ---------------------------------------------------------------------------------------
  // A broken error

  /** Silence only, and the error that reports it is written over the acknowledgement, without its NUL. */
  method BrokenTimeout(pairs: Pairs) returns (ghost copies: seq<Bytes>, ghost fired: seq<Bytes>)
    requires pairs != [] && 26 <= |OackPacket(pairs)| < WORDS - 1 && OackPacket(pairs)[25] != 0
    ensures |copies| == Sender.SEND_ATTEMPTS
    ensures |fired| == 1 && |fired[0]| == 26 && fired[0] != ErrorPacket(UndefinedError(SEND_TIMEOUT))
  {
    var buffer := new byte[WORDS - 1](_ => 0);
    var stream := new DatagramStream([], _ => false);
    var oack := new OptionsAcknowledge();
    oack.options := pairs;
    ZeroFilledIsClean(buffer[..], 2, Flat(pairs), false);
    var ok, panicked;
    ghost var first;
    ok, panicked, first, copies, fired := SendOackReliably(oack, stream, buffer);
    MessagesFit();
    assert Ignored([], |copies|) == [];
    FiredExactly(UndefinedError(SEND_TIMEOUT), first, fired);
    assert first[25] == first[..|OackPacket(pairs)|][25];
  }

  lemma {:induction false} TwoOptionsLaidOut(a: Bytes, x: Bytes, b: Bytes, y: Bytes)
    requires |a| == 7 && |x| == 3 && |b| == 7 && |y| == 5
    ensures var d := OackPacket([(a, x), (b, y)]); |d| == 28 && d[25] == y[3]
  {
    FlatCons(b, y, []);
    FlatCons(a, x, [(b, y)]);
    assert [(b, y)] + [] == [(b, y)] && [(a, x)] + [(b, y)] == [(a, x), (b, y)];
    assert Terminated(Flat([(a, x), (b, y)])) == a + [0] + (x + [0] + (b + [0] + (y + [0] + [])));
  }

  lemma {:induction false} LargeTerms()
    ensures Decimal(255) == [50, 53, 53] && Decimal(65535) == [54, 53, 53, 51, 53]
  {
    assert Decimal(6) == [54];
    assert Decimal(65) == [54, 53];
    assert Decimal(655) == [54, 53, 53];
    assert Decimal(6553) == [54, 53, 53, 51];
    assert Decimal(2) == [50];
    assert Decimal(25) == [50, 53];
  }

  lemma {:induction false} AnswerOfTwo(options: map<Bytes, Bytes>, size: nat, x: nat, y: nat)
    requires TSIZE !in options && WINDOW_SIZE !in options && TIMEOUT in options && BLKSIZE in options
    requires options[TIMEOUT] == Decimal(x) && 1 <= x <= 255 && options[BLKSIZE] == Decimal(y) && 8 <= y < WORDS
    ensures Answer(options, Some(size)) == [(TIMEOUT, Decimal(x)), (BLKSIZE, Decimal(y))]
  {
    DecimalParsesBack(x);
    DecimalParsesBack(y);
  }

  /** A request for a timeout of 255 and blocks of 65535 bytes gets such an acknowledgement. */
  lemma {:induction false} SuchAnswer(options: map<Bytes, Bytes>, size: nat)
    requires TSIZE !in options && WINDOW_SIZE !in options && TIMEOUT in options && BLKSIZE in options
    requires options[TIMEOUT] == Decimal(255) && options[BLKSIZE] == Decimal(65535)
    ensures var pairs := Answer(options, Some(size));
            pairs != [] && 26 <= |OackPacket(pairs)| < WORDS - 1 && OackPacket(pairs)[25] != 0
  {
    AnswerOfTwo(options, size, 255, 65535);
    LargeTerms();
    TwoOptionsLaidOut(TIMEOUT, Decimal(255), BLKSIZE, Decimal(65535));
  }
}
