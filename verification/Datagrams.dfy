/**
 The datagram stream of one session. Its environment is a script fixed in advance: what arrives,
 when a wait expires, when the socket breaks and which sends fail. Proofs hold for every script.
 */
module Datagrams {
  import opened Wire

  datatype Event = Arrives(bytes: Bytes, fromPeer: bool) | Expires | Breaks

  datatype Reception = Received(size: nat) | TimedOut | ReadFailed

  /** How a wait ends: its result, the events still to come, and what is in the buffer by then. */
  datatype Waited = Waited(result: Reception, rest: seq<Event>, buffer: Bytes)

  function Overwritten(buffer: Bytes, bytes: Bytes): (b: Bytes)
    ensures |b| == |buffer|
  {
    var size := Min(|bytes|, |buffer|);
    bytes[..size] + buffer[size..]
  }

  /**
   Waits for a datagram of the peer of at least `minSize` bytes. Runts and datagrams of others
   are passed over, but they have been received into the buffer all the same.
   */
  function Wait(script: seq<Event>, buffer: Bytes, minSize: nat): (w: Waited)
    ensures |w.buffer| == |buffer|
    ensures |w.rest| <= |script|
    ensures w.result.Received? ==> |w.rest| < |script|
    decreases |script|
  {
    if script == [] then Waited(TimedOut, [], buffer)
    else match script[0]
         case Expires => Waited(TimedOut, script[1..], buffer)
         case Breaks => Waited(ReadFailed, script[1..], buffer)
         case Arrives(bytes, fromPeer) =>
           var size := Min(|bytes|, |buffer|);
           if fromPeer && size >= minSize
           then Waited(Received(size), script[1..], Overwritten(buffer, bytes))
           else Wait(script[1..], Overwritten(buffer, bytes), minSize)
  }

  class DatagramStream {
    const sendFails: nat -> bool
    var script: seq<Event>
    var attempts: nat
    var sent: seq<Bytes>

    constructor (script: seq<Event>, sendFails: nat -> bool)
      ensures this.script == script && this.sendFails == sendFails && attempts == 0 && sent == []
    {
      this.script := script;
      this.sendFails := sendFails;
      attempts, sent := 0, [];
    }

    method Send(datagram: Bytes) returns (ok: bool)
      modifies this
      ensures script == old(script) && attempts == old(attempts) + 1
      ensures ok == !sendFails(old(attempts))
      ensures sent == if ok then old(sent) + [datagram] else old(sent)
    {
      ok := !sendFails(attempts);
      attempts := attempts + 1;
      if ok {
        sent := sent + [datagram];
      }
    }

    /** A receive under a timeout; a script that is used up leaves only silence. */
    method Recv(buffer: array<byte>, minSize: nat) returns (r: Reception)
      modifies this, buffer
      ensures sent == old(sent) && attempts == old(attempts)
      ensures Waited(r, script, buffer[..]) == Wait(old(script), old(buffer[..]), minSize)
    {
      while script != []
        invariant sent == old(sent) && attempts == old(attempts)
        invariant Wait(script, buffer[..], minSize) == Wait(old(script), old(buffer[..]), minSize)
        decreases |script|
      {
        var event := script[0];
        script := script[1..];
        match event
        case Expires => return TimedOut;
        case Breaks => return ReadFailed;
        case Arrives(bytes, fromPeer) =>
          var size := Min(|bytes|, buffer.Length);
          ghost var before := buffer[..];
          forall i | 0 <= i < size {
            buffer[i] := bytes[i];
          }
          assert buffer[..] == Overwritten(before, bytes);
          if fromPeer && size >= minSize {
            return Received(size);
          }
      }
      r := TimedOut;
    }
  }

  lemma {:induction false} RestIsSuffix(script: seq<Event>, buffer: Bytes, minSize: nat)
    ensures var rest := Wait(script, buffer, minSize).rest; rest == script[|script| - |rest|..]
    decreases |script|
  {
    if script != [] && script[0].Arrives? {
      RestIsSuffix(script[1..], Overwritten(buffer, script[0].bytes), minSize);
    }
  }

  /** What is received is a datagram of the peer, long enough, and the buffer starts with it. */
  lemma {:induction false} ReceivedFromPeer(script: seq<Event>, buffer: Bytes, minSize: nat) returns (i: nat)
    requires Wait(script, buffer, minSize).result.Received?
    ensures i < |script| && script[i].Arrives? && script[i].fromPeer
    ensures minSize <= Wait(script, buffer, minSize).result.size == Min(|script[i].bytes|, |buffer|)
    ensures var size := Wait(script, buffer, minSize).result.size;
            Wait(script, buffer, minSize).buffer[..size] == script[i].bytes[..size]
    ensures Wait(script, buffer, minSize).rest == script[i + 1..]
    ensures forall j :: 0 <= j < i ==> script[j].Arrives? && (!script[j].fromPeer || Min(|script[j].bytes|, |buffer|) < minSize)
    decreases |script|
  {
    var event := script[0];
    var size := Min(|event.bytes|, |buffer|);
    if event.fromPeer && size >= minSize {
      i := 0;
    } else {
      var before := Overwritten(buffer, event.bytes);
      i := ReceivedFromPeer(script[1..], before, minSize);
      i := i + 1;
      forall j | 0 <= j < i
        ensures script[j].Arrives? && (!script[j].fromPeer || Min(|script[j].bytes|, |buffer|) < minSize)
      {
        if j > 0 {
          assert script[j] == script[1..][j - 1];
        }
      }
    }
  }

  /** A datagram that a wait passes over: of somebody else, or too short as far as it fits. */
  predicate PassedOver(event: Event, size: nat, minSize: nat) {
    event.Arrives? && (!event.fromPeer || |event.bytes| < minSize || size < minSize)
  }

  /** How a wait ends is decided by the first event that it does not pass over, or by there being none. */
  lemma {:induction false} WaitExactly(script: seq<Event>, buffer: Bytes, minSize: nat, i: nat)
    requires i <= |script| && forall j :: 0 <= j < i ==> PassedOver(script[j], |buffer|, minSize)
    requires i < |script| ==> !PassedOver(script[i], |buffer|, minSize)
    ensures var w := Wait(script, buffer, minSize);
            && (i == |script| || script[i].Expires? ==> w.result == TimedOut)
            && (i < |script| && script[i].Breaks? ==> w.result == ReadFailed)
            && (i < |script| && script[i].Arrives? ==>
                  && w.result == Received(Min(|script[i].bytes|, |buffer|))
                  && w.buffer[..Min(|script[i].bytes|, |buffer|)] == script[i].bytes[..Min(|script[i].bytes|, |buffer|)])
            && w.rest == if i < |script| then script[i + 1..] else []
    decreases |script|
  {
    if i > 0 {
      var after := Overwritten(buffer, script[0].bytes);
      assert PassedOver(script[0], |buffer|, minSize);
      forall j | 0 <= j < i - 1 ensures PassedOver(script[1..][j], |buffer|, minSize) {
        assert script[1..][j] == script[j + 1];
      }
      WaitExactly(script[1..], after, minSize, i - 1);
    }
  }

  // ---------------------------------------------------------------------------------------
  // What several waits in a row leave in the buffer

  /** The events after the first n waits, if all of them ran out. */
  function AfterSilences(script: seq<Event>, n: nat): (rest: seq<Event>)
    ensures |rest| <= |script|
    decreases |script|
  {
    if n == 0 || script == [] then script
    else if script[0].Expires? then AfterSilences(script[1..], n - 1)
    else AfterSilences(script[1..], n)
  }

  /** The datagrams that arrived during those waits, all of which were ignored. */
  function Ignored(script: seq<Event>, n: nat): seq<Bytes>
    decreases |script|
  {
    if n == 0 || script == [] then []
    else match script[0]
         case Expires => Ignored(script[1..], n - 1)
         case Breaks => Ignored(script[1..], n)
         case Arrives(bytes, _) => [bytes] + Ignored(script[1..], n)
  }

  /** A buffer into which datagrams were received one after another. */
  function Overlaid(buffer: Bytes, datagrams: seq<Bytes>): (b: Bytes)
    ensures |b| == |buffer|
    decreases |datagrams|
  {
    if datagrams == [] then buffer else Overlaid(Overwritten(buffer, datagrams[0]), datagrams[1..])
  }

  /** The byte that the last datagram longer than p carries at p. */
  function LastAt(datagrams: seq<Bytes>, p: nat): Option<byte>
    decreases |datagrams|
  {
    if datagrams == [] then None
    else
      var later := LastAt(datagrams[1..], p);
      if later.Some? then later else if p < |datagrams[0]| then Some(datagrams[0][p]) else None
  }

  lemma {:induction false} OverlaidAt(buffer: Bytes, datagrams: seq<Bytes>, p: nat)
    requires p < |buffer|
    ensures Overlaid(buffer, datagrams)[p] ==
            var last := LastAt(datagrams, p); if last.Some? then last.value else buffer[p]
    decreases |datagrams|
  {
    if datagrams != [] {
      OverlaidAt(Overwritten(buffer, datagrams[0]), datagrams[1..], p);
    }
  }

  /** Each byte of the packet is what the last datagram to reach that far carries there. */
  ghost predicate Spared(packet: Bytes, datagrams: seq<Bytes>) {
    forall p :: 0 <= p < |packet| ==> LastAt(datagrams, p).None? || LastAt(datagrams, p).value == packet[p]
  }

  /** What lies in the buffer survives the datagrams received over it exactly if they spare it. */
  lemma {:induction false} SurvivesExactly(packet: Bytes, datagrams: seq<Bytes>)
    ensures Overlaid(packet, datagrams) == packet <==> Spared(packet, datagrams)
  {
    forall p | 0 <= p < |packet|
      ensures Overlaid(packet, datagrams)[p] == packet[p] <==>
              LastAt(datagrams, p).None? || LastAt(datagrams, p).value == packet[p]
    {
      OverlaidAt(packet, datagrams, p);
    }
    if Spared(packet, datagrams) {
      assert forall p :: 0 <= p < |packet| ==> Overlaid(packet, datagrams)[p] == packet[p];
    }
  }

  lemma {:induction false} OverlaidAppend(buffer: Bytes, a: seq<Bytes>, b: seq<Bytes>)
    ensures Overlaid(buffer, a + b) == Overlaid(Overlaid(buffer, a), b)
    decreases |a|
  {
    if a == [] {
      assert a + b == b;
    } else {
      assert (a + b)[1..] == a[1..] + b;
      OverlaidAppend(Overwritten(buffer, a[0]), a[1..], b);
    }
  }

  /** The front of the buffer fares as if it were all of it. */
  lemma {:induction false} OverlaidFront(buffer: Bytes, datagrams: seq<Bytes>, size: nat)
    requires size <= |buffer|
    ensures Overlaid(buffer, datagrams)[..size] == Overlaid(buffer[..size], datagrams)
  {
    forall p | 0 <= p < size ensures Overlaid(buffer, datagrams)[p] == Overlaid(buffer[..size], datagrams)[p] {
      OverlaidAt(buffer, datagrams, p);
      OverlaidAt(buffer[..size], datagrams, p);
    }
  }

  /** A wait that runs out goes on to the next expiry, and has received whatever came before it. */
  lemma {:induction false} SilentWait(script: seq<Event>, buffer: Bytes, minSize: nat)
    requires Wait(script, buffer, minSize).result.TimedOut?
    ensures Wait(script, buffer, minSize) ==
            Waited(TimedOut, AfterSilences(script, 1), Overlaid(buffer, Ignored(script, 1)))
    decreases |script|
  {
    if script != [] && script[0].Arrives? {
      SilentWait(script[1..], Overwritten(buffer, script[0].bytes), minSize);
      var ignored := [script[0].bytes] + Ignored(script[1..], 1);
      assert ignored[1..] == Ignored(script[1..], 1);
    }
  }

  lemma {:induction false} OneMoreSilence(script: seq<Event>, n: nat)
    ensures AfterSilences(script, n + 1) == AfterSilences(AfterSilences(script, n), 1)
    ensures Ignored(script, n + 1) == Ignored(script, n) + Ignored(AfterSilences(script, n), 1)
    decreases |script|
  {
    if script != [] && n > 0 {
      OneMoreSilence(script[1..], if script[0].Expires? then n - 1 else n);
    }
  }

  lemma {:induction false} SilencesSuffix(script: seq<Event>, n: nat)
    ensures var rest := AfterSilences(script, n); rest == script[|script| - |rest|..]
    decreases |script|
  {
    if script != [] && n > 0 {
      SilencesSuffix(script[1..], if script[0].Expires? then n - 1 else n);
    }
  }
}
