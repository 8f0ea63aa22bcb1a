/** Read requests and option acknowledgements. */
module Messages {
  import opened Wire
  import opened Text
  import opened Cursor
  import opened TftpErrors

  const RRQ: u16 := 1
  const OACK: u16 := 6
  const OCTET: Bytes := Ascii("octet")

  type Pairs = seq<(Bytes, Bytes)>

  datatype ReadRequest = ReadRequest(filename: Bytes, options: map<Bytes, Bytes>)

  /** Names and values in the order in which they travel. */
  function Flat(pairs: Pairs): seq<Bytes> {
    if pairs == [] then [] else [pairs[0].0, pairs[0].1] + Flat(pairs[1..])
  }

  /** Options read one after another on top of earlier ones: the last value of a name stays. */
  function Overlay(options: map<Bytes, Bytes>, pairs: Pairs): map<Bytes, Bytes>
    decreases |pairs|
  {
    if pairs == [] then options else Overlay(options[pairs[0].0 := pairs[0].1], pairs[1..])
  }

  /** The read request of section 5 of RFC 1350, with the options of RFC 2347. */
  function RequestPacket(filename: Bytes, pairs: Pairs): Bytes {
    [0, RRQ] + filename + [0] + OCTET + [0] + Terminated(Flat(pairs))
  }

  const BAD_FORMAT: Bytes := Ascii("Bad format")
  const ONLY_RRQ: Bytes := Ascii("Only RRQ is supported")
  const NO_FILENAME: Bytes := Ascii("Can't obtain filename")
  const ONLY_OCTET: Bytes := Ascii("Only octet mode is supported")

  function ReadOptions(raw: Bytes, from: nat, options: map<Bytes, Bytes>): Result<map<Bytes, Bytes>, TftpError>
    decreases |raw| - from
  {
    match StringAt(raw, from)
    case Err(UnexpectedEof) => Ok(options)
    case Err(InvalidData) => Err(UndefinedError(BAD_FORMAT))
    case Ok((name, next)) =>
      match StringAt(raw, next)
      case Err(_) => Err(UndefinedError(BAD_FORMAT))
      case Ok((value, after)) => ReadOptions(raw, after, options[name := value])
  }

  function Parsed(raw: Bytes): Result<ReadRequest, TftpError> {
    match UshortAt(raw, 0)
    case None => Err(UndefinedError(BAD_FORMAT))
    case Some(opcode) =>
      if opcode != RRQ then Err(IllegalOperation(ONLY_RRQ))
      else match StringAt(raw, 2)
           case Err(_) => Err(UndefinedError(NO_FILENAME))
           case Ok((filename, next)) =>
             match StringAt(raw, next)
             case Err(_) => Err(UndefinedError(BAD_FORMAT))
             case Ok((mode, after)) =>
               if mode == [] then Err(UndefinedError(BAD_FORMAT))
               else if mode != OCTET then Err(UndefinedError(ONLY_OCTET))
               else match ReadOptions(raw, after, map[])
                    case Err(e) => Err(e)
                    case Ok(options) => Ok(ReadRequest(filename, options))
  }

  method Parse(raw: Bytes) returns (r: Result<ReadRequest, TftpError>)
    ensures r == Parsed(raw)
  {
    var cursor := new ReadCursor(raw);
    var opcode := cursor.ExtractUshort();
    if opcode.None? {
      return Err(UndefinedError(BAD_FORMAT));
    }
    if opcode.value != RRQ {
      return Err(IllegalOperation(ONLY_RRQ));
    }
    var filename := cursor.ExtractString();
    if filename.Err? {
      return Err(UndefinedError(NO_FILENAME));
    }
    var mode := cursor.ExtractString();
    if mode.Err? {
      return Err(UndefinedError(BAD_FORMAT));
    }
    if mode.value != OCTET {
      if mode.value == [] {
        return Err(UndefinedError(BAD_FORMAT));
      }
      return Err(UndefinedError(ONLY_OCTET));
    }
    var options := map[];
    ghost var start := cursor.index;
    while true
      invariant cursor.datagram == raw
      invariant ReadOptions(raw, cursor.index, options) == ReadOptions(raw, start, map[])
      decreases |raw| - cursor.index
    {
      var name := cursor.ExtractString();
      if name.Err? {
        if name.error == UnexpectedEof {
          break;
        }
        return Err(UndefinedError(BAD_FORMAT));
      }
      var value := cursor.ExtractString();
      if value.Err? {
        return Err(UndefinedError(BAD_FORMAT));
      }
      options := options[name.value := value.value];
    }
    r := Ok(ReadRequest(filename.value, options));
  }

  // ---------------------------------------------------------------------------------------
  // The language of read requests

  /** Names and values alternate, each name before its value. */
  lemma {:induction false} FlatAt(pairs: Pairs, i: nat)
    requires i < |pairs|
    ensures |Flat(pairs)| == 2 * |pairs| && Flat(pairs)[2 * i] == pairs[i].0 && Flat(pairs)[2 * i + 1] == pairs[i].1
  {
    if |pairs| == 1 {
      assert pairs[1..] == [];
    } else {
      FlatAt(pairs[1..], if i > 0 then i - 1 else 0);
    }
  }

  /** The i-th pair is the last one with its name. */
  ghost predicate LastWith(pairs: Pairs, i: nat, name: Bytes) {
    i < |pairs| && pairs[i].0 == name && forall j :: i < j < |pairs| ==> pairs[j].0 != name
  }

  ghost predicate Unnamed(pairs: Pairs, name: Bytes) {
    forall i :: 0 <= i < |pairs| ==> pairs[i].0 != name
  }

  /** A name has the value that came with it last, or the one it had before if it did not come. */
  lemma {:induction false} OverlayExactly(options: map<Bytes, Bytes>, pairs: Pairs, name: Bytes)
    ensures Unnamed(pairs, name) ==> (name in Overlay(options, pairs) <==> name in options)
    ensures Unnamed(pairs, name) && name in options ==> Overlay(options, pairs)[name] == options[name]
    ensures forall i: nat :: LastWith(pairs, i, name) ==> name in Overlay(options, pairs) && Overlay(options, pairs)[name] == pairs[i].1
    decreases |pairs|
  {
    if pairs != [] {
      var rest := pairs[1..];
      OverlayExactly(options[pairs[0].0 := pairs[0].1], rest, name);
      forall i: nat | LastWith(pairs, i, name)
        ensures name in Overlay(options, pairs) && Overlay(options, pairs)[name] == pairs[i].1
      {
        if i > 0 {
          assert LastWith(rest, i - 1, name);
        } else {
          assert Unnamed(rest, name);
        }
      }
    }
  }

  lemma {:induction false} OptionInFront(d: Bytes, name: Bytes, value: Bytes, rest: Pairs)
    requires d == name + [0] + (value + [0] + Terminated(Flat(rest)))
    requires IsField(name) && IsField(value) && AreFields(Flat(rest))
    ensures d == Terminated(Flat([(name, value)] + rest)) && AreFields(Flat([(name, value)] + rest))
  {
    FlatCons(name, value, rest);
  }

  /** The options that were read are laid out to the very end of the datagram. */
  lemma {:induction false} OptionsRead(raw: Bytes, from: nat, options: map<Bytes, Bytes>) returns (pairs: Pairs)
    requires from <= |raw| && ReadOptions(raw, from, options).Ok?
    ensures raw[from..] == Terminated(Flat(pairs)) && AreFields(Flat(pairs))
    ensures ReadOptions(raw, from, options).value == Overlay(options, pairs)
    decreases |raw| - from
  {
    if StringAt(raw, from).Err? {
      pairs := [];
    } else {
      var (name, next) := StringAt(raw, from).value;
      var (value, after) := StringAt(raw, next).value;
      var rest := OptionsRead(raw, after, options[name := value]);
      pairs := [(name, value)] + rest;
      assert raw[from..] == Terminated(Flat(pairs)) && AreFields(Flat(pairs)) by {
        StringAtMeans(raw, from);
        StringAtMeans(raw, next);
        OptionInFront(raw[from..], name, value, rest);
      }
      assert pairs[1..] == rest;
    }
  }

  lemma {:induction false} FlatCons(name: Bytes, value: Bytes, rest: Pairs)
    ensures Flat([(name, value)] + rest) == [name, value] + Flat(rest)
    ensures Terminated(Flat([(name, value)] + rest)) == name + [0] + (value + [0] + Terminated(Flat(rest)))
  {
    var pairs := [(name, value)] + rest;
    assert pairs[1..] == rest;
    var f := Flat(pairs);
    assert f[1..] == [value] + Flat(rest) && f[1..][1..] == Flat(rest);
  }

  /** Options that are laid out to the end of the datagram are read back. */
  lemma {:induction false} OptionsReadBack(raw: Bytes, from: nat, options: map<Bytes, Bytes>, pairs: Pairs)
    requires from <= |raw| && raw[from..] == Terminated(Flat(pairs)) && AreFields(Flat(pairs))
    ensures ReadOptions(raw, from, options) == Ok(Overlay(options, pairs))
    decreases |pairs|
  {
    if pairs != [] {
      var (name, value) := pairs[0];
      var rest := pairs[1..];
      assert pairs == [(name, value)] + rest;
      FlatCons(name, value, rest);
      assert IsField(Flat(pairs)[0]) && IsField(Flat(pairs)[1]);
      assert Flat(rest) == Flat(pairs)[2..];
      var next := NextField(raw, from, name, value + [0] + Terminated(Flat(rest)));
      var after := NextField(raw, next, value, Terminated(Flat(rest)));
      OptionsReadBack(raw, after, options[name := value], rest);
    }
  }

  lemma {:induction false} NextField(raw: Bytes, from: nat, field: Bytes, rest: Bytes) returns (next: nat)
    requires from <= |raw| && IsField(field)
    requires raw[from..] == field + [0] + rest || raw[from..] == field + ([0] + rest)
    ensures StringAt(raw, from) == Ok((field, next)) && next <= |raw| && raw[next..] == rest
  {
    next := from + |field| + 1;
    var tail := raw[from..];
    assert raw[from..from + |field|] == tail[..|field|] == field;
    assert raw[from + |field|] == tail[|field|] == 0;
    assert raw[next..] == tail[|field| + 1..];
    StringAtField(raw, from, field);
  }

  lemma {:induction false} OctetIsField()
    ensures IsField(OCTET) && OCTET != []
  {
    AsciiIsField("octet");
  }

  /** Every encoded request is parsed back, with the last value of each option. */
  lemma {:induction false} RequestParsesBack(filename: Bytes, pairs: Pairs)
    requires IsField(filename) && AreFields(Flat(pairs))
    ensures RequestPacket(filename, pairs)[..2] == [0, 1]
    ensures Parsed(RequestPacket(filename, pairs)) == Ok(ReadRequest(filename, Overlay(map[], pairs)))
  {
    OctetIsField();
    var raw := RequestPacket(filename, pairs);
    var options := Terminated(Flat(pairs));
    assert raw[2..] == filename + [0] + (OCTET + [0] + options);
    var next := NextField(raw, 2, filename, OCTET + [0] + options);
    var after := NextField(raw, next, OCTET, options);
    OptionsReadBack(raw, after, map[], pairs);
  }

  /** The datagrams that encode a request. */
  ghost predicate Encodes(raw: Bytes, r: ReadRequest, pairs: Pairs) {
    && raw == RequestPacket(r.filename, pairs)
    && IsField(r.filename)
    && AreFields(Flat(pairs))
    && r.options == Overlay(map[], pairs)
  }

  lemma {:induction false} JoinFields(raw: Bytes, head: Bytes, filename: Bytes, mode: Bytes, rest: Bytes)
    requires |raw| >= 2 && raw[..2] == head && raw[2..] == filename + [0] + (mode + [0] + rest)
    ensures raw == head + filename + [0] + mode + [0] + rest
  {
    assert raw == raw[..2] + raw[2..];
  }

  lemma {:induction false} JoinRequest(raw: Bytes, filename: Bytes, next: nat, after: nat, pairs: Pairs)
    requires 2 <= next <= after <= |raw|
    requires UshortAt(raw, 0) == Some(RRQ)
    requires raw[2..] == filename + [0] + raw[next..]
    requires raw[next..] == OCTET + [0] + raw[after..]
    requires raw[after..] == Terminated(Flat(pairs))
    ensures raw == RequestPacket(filename, pairs)
  {
    assert raw[..2] == [raw[0], raw[1]];
    JoinFields(raw, [0, RRQ], filename, OCTET, Terminated(Flat(pairs)));
  }

  lemma {:induction false} ParsedIsEncoded(raw: Bytes) returns (pairs: Pairs)
    requires Parsed(raw).Ok?
    ensures Encodes(raw, Parsed(raw).value, pairs)
  {
    var (filename, next) := StringAt(raw, 2).value;
    var (mode, after) := StringAt(raw, next).value;
    StringAtMeans(raw, 2);
    StringAtMeans(raw, next);
    pairs := OptionsRead(raw, after, map[]);
    JoinRequest(raw, filename, next, after, pairs);
  }

  /** A datagram is accepted exactly if it encodes a request, and as that request. */
  lemma {:induction false} ParsesExactly(raw: Bytes, r: ReadRequest)
    ensures Parsed(raw) == Ok(r) <==> exists pairs :: Encodes(raw, r, pairs)
  {
    if Parsed(raw) == Ok(r) {
      var pairs := ParsedIsEncoded(raw);
    }
    forall pairs | Encodes(raw, r, pairs) ensures Parsed(raw) == Ok(r) {
      RequestParsesBack(r.filename, pairs);
    }
  }

  // ---------------------------------------------------------------------------------------
  // What is wrong with a datagram that is no request

  /** The bytes begin with this text and its NUL. */
  ghost predicate BeginsWith(d: Bytes, field: Bytes) {
    field + [0] <= d && IsField(field)
  }

  lemma {:induction false} StringAtExactly(d: Bytes, from: nat, field: Bytes)
    requires from <= |d|
    ensures StringAt(d, from) == Ok((field, from + |field| + 1)) <==> BeginsWith(d[from..], field)
  {
    if StringAt(d, from) == Ok((field, from + |field| + 1)) {
      StringAtMeans(d, from);
    }
    if BeginsWith(d[from..], field) {
      var n := |field|;
      assert d[from..][..n + 1] == field + [0];
      assert d[from..from + n] == (field + [0])[..n] && d[from + n] == (field + [0])[n];
      StringAtField(d, from, field);
    }
  }

  /** The datagram is a request for this file in this mode, as far as that. */
  ghost predicate Asks(raw: Bytes, filename: Bytes, mode: Bytes) {
    && |raw| >= 2
    && raw[..2] == [0, 1]
    && BeginsWith(raw[2..], filename)
    && 3 + |filename| <= |raw|
    && BeginsWith(raw[3 + |filename|..], mode)
  }

  lemma {:induction false} AsksMeans(raw: Bytes, filename: Bytes, mode: Bytes)
    requires |raw| >= 2
    ensures Asks(raw, filename, mode) <==>
            && UshortAt(raw, 0) == Some(RRQ)
            && StringAt(raw, 2) == Ok((filename, 3 + |filename|))
            && StringAt(raw, 3 + |filename|) == Ok((mode, 4 + |filename| + |mode|))
  {
    assert raw[..2] == [raw[0], raw[1]];
    StringAtExactly(raw, 2, filename);
    if 3 + |filename| <= |raw| {
      StringAtExactly(raw, 3 + |filename|, mode);
    }
  }

  lemma {:induction false} ErrorsDiffer()
    ensures |BAD_FORMAT| == 10 && |ONLY_RRQ| == 21 && |NO_FILENAME| == 21 && |ONLY_OCTET| == 28
  {
  }

  lemma {:induction false} LaterErrors(raw: Bytes)
    requires UshortAt(raw, 0) == Some(RRQ) && Parsed(raw).Err?
    ensures Parsed(raw).error.UndefinedError?
  {
    if StringAt(raw, 2).Ok? && StringAt(raw, StringAt(raw, 2).value.1).Ok? {
      OptionErrorsAreShort(raw, StringAt(raw, StringAt(raw, 2).value.1).value.1, map[]);
    }
  }

  /** Another opcode, or less than an opcode. */
  lemma {:induction false} OpcodeRefused(raw: Bytes)
    ensures Parsed(raw) == Err(IllegalOperation(ONLY_RRQ)) <==> |raw| >= 2 && raw[..2] != [0, 1]
    ensures |raw| < 2 ==> Parsed(raw) == Err(UndefinedError(BAD_FORMAT))
  {
    if |raw| >= 2 {
      assert raw[..2] == [raw[0], raw[1]];
      if UshortAt(raw, 0) == Some(RRQ) && Parsed(raw).Err? {
        LaterErrors(raw);
      }
    }
  }

  /** An error that is found among the options is that of a bad format. */
  lemma {:induction false} OptionErrors(raw: Bytes)
    ensures forall from, options :: ReadOptions(raw, from, options).Err? ==>
                                      ReadOptions(raw, from, options).error == UndefinedError(BAD_FORMAT)
  {
    forall from: nat, options | ReadOptions(raw, from, options).Err?
      ensures ReadOptions(raw, from, options).error == UndefinedError(BAD_FORMAT)
    {
      OptionErrorsAreShort(raw, from, options);
    }
  }

  /** A request without a name of a file. */
  lemma {:induction false} FilenameRefused(raw: Bytes)
    ensures Parsed(raw) == Err(UndefinedError(NO_FILENAME)) <==>
            |raw| >= 2 && raw[..2] == [0, 1] && !exists filename :: BeginsWith(raw[2..], filename)
  {
    ErrorsDiffer();
    OptionErrors(raw);
    if |raw| >= 2 {
      assert raw[..2] == [raw[0], raw[1]];
      forall filename | BeginsWith(raw[2..], filename) ensures StringAt(raw, 2).Ok? {
        StringAtExactly(raw, 2, filename);
      }
      if StringAt(raw, 2).Ok? {
        StringAtExactly(raw, 2, StringAt(raw, 2).value.0);
      }
    }
  }

  /** A request in another mode, that is at least named. */
  lemma {:induction false} ModeRefused(raw: Bytes)
    ensures Parsed(raw) == Err(UndefinedError(ONLY_OCTET)) <==>
            exists filename, mode :: Asks(raw, filename, mode) && mode != [] && mode != OCTET
  {
    ErrorsDiffer();
    OptionErrors(raw);
    if Parsed(raw) == Err(UndefinedError(ONLY_OCTET)) {
      var filename := StringAt(raw, 2).value.0;
      var mode := StringAt(raw, 3 + |filename|).value.0;
      AsksMeans(raw, filename, mode);
    }
    forall filename, mode | Asks(raw, filename, mode) && mode != [] && mode != OCTET
      ensures Parsed(raw) == Err(UndefinedError(ONLY_OCTET))
    {
      AsksMeans(raw, filename, mode);
    }
  }

  /** Whatever else is wrong with a datagram, the error says that its format is bad. */
  lemma {:induction false} RefusedExactly(raw: Bytes)
    requires Parsed(raw).Err?
    ensures Parsed(raw).error in [IllegalOperation(ONLY_RRQ), UndefinedError(NO_FILENAME), UndefinedError(ONLY_OCTET), UndefinedError(BAD_FORMAT)]
  {
    OptionErrors(raw);
  }

  /** An ERROR packet was written, complete exactly if a zero was in the place of its NUL. */
  ghost predicate Replied(e: TftpError, before: Bytes, put: Option<Put>, after: Bytes) {
    var size := |ErrorPacket(e)|;
    && size <= |before| == |after|
    && put == Some(Written(size))
    && (after[..size] == ErrorPacket(e) <==> before[size - 1] == 0)
  }

  /**
   The server answers a malformed request out of the buffer that holds the request: the ERROR
   packet is complete exactly if the request, or what was in the buffer before it, happens to have
   a zero where the NUL of the message belongs.
   */
  method AnswerMalformed(buffer: array<byte>, size: nat) returns (request: Result<ReadRequest, TftpError>, put: Option<Put>)
    requires size <= buffer.Length == WORDS - 1
    modifies buffer
    ensures request == Parsed(old(buffer[..size]))
    ensures request.Ok? ==> put.None? && buffer[..] == old(buffer[..])
    ensures request.Err? ==> Replied(request.error, old(buffer[..]), put, buffer[..])
  {
    request := Parse(buffer[..size]);
    put := None;
    if request.Err? {
      ErrorsAreShort(buffer[..size]);
      var r := TftpErrors.Serialize(request.error, buffer);
      put := Some(r);
    }
  }

  lemma {:induction false} RefusalIs(raw: Bytes)
    requires |raw| >= 2 && FromBe(raw[0], raw[1]) != RRQ
    ensures Parsed(raw) == Err(IllegalOperation(ONLY_RRQ)) && |ErrorPacket(IllegalOperation(ONLY_RRQ))| == 26
  {
    assert |ONLY_RRQ| == 21;
  }

  /** Any other opcode and a byte that is not zero in the wrong place, and the reply is no ERROR packet. */
  method BrokenReply(raw: Bytes) returns (reply: Bytes)
    requires 26 <= |raw| < WORDS && FromBe(raw[0], raw[1]) != RRQ && raw[25] != 0
    ensures |reply| == 26 && reply != ErrorPacket(IllegalOperation(ONLY_RRQ))
  {
    var buffer := new byte[WORDS - 1](_ => 0);
    forall i | 0 <= i < |raw| {
      buffer[i] := raw[i];
    }
    assert buffer[..|raw|] == raw;
    RefusalIs(raw);
    var request, put := AnswerMalformed(buffer, |raw|);
    reply := buffer[..put.value.offset];
  }

  lemma {:induction false} ErrorsAreShort(raw: Bytes)
    requires Parsed(raw).Err?
    ensures |Parsed(raw).error.message| <= 28
  {
    assert |BAD_FORMAT| == 10 && |ONLY_RRQ| == 21 && |NO_FILENAME| == 21 && |ONLY_OCTET| == 28;
    if UshortAt(raw, 0) == Some(RRQ) && StringAt(raw, 2).Ok? {
      var next := StringAt(raw, 2).value.1;
      if StringAt(raw, next).Ok? {
        OptionErrorsAreShort(raw, StringAt(raw, next).value.1, map[]);
      }
    }
  }

  lemma {:induction false} OptionErrorsAreShort(raw: Bytes, from: nat, options: map<Bytes, Bytes>)
    ensures ReadOptions(raw, from, options).Err? ==> ReadOptions(raw, from, options).error == UndefinedError(BAD_FORMAT)
    decreases |raw| - from
  {
    if StringAt(raw, from).Ok? {
      var (name, next) := StringAt(raw, from).value;
      if StringAt(raw, next).Ok? {
        var (value, after) := StringAt(raw, next).value;
        OptionErrorsAreShort(raw, after, options[name := value]);
      }
    }
  }

  // ---------------------------------------------------------------------------------------
  // Option acknowledgements

  /** The OACK of RFC 2347. */
  function OackPacket(pairs: Pairs): Bytes {
    [0, OACK] + Terminated(Flat(pairs))
  }

  class OptionsAcknowledge {
    var options: Pairs

    constructor ()
      ensures options == []
    {
      options := [];
    }

    method Push(option: (Bytes, Bytes))
      modifies this
      ensures options == old(options) + [option]
    {
      options := options + [option];
    }

    predicate HasOptions()
      reads this
    {
      options != []
    }

    method Serialize(buffer: array<byte>) returns (r: Put)
      modifies buffer
      ensures HasOptions() && buffer.Length > 0 ==>
                && (r.Written? <==> |OackPacket(options)| < buffer.Length)
                && (r.Written? ==> r.offset == |OackPacket(options)|)
                // The packet is complete exactly if its gaps were clean before.
                && (r.Written? ==>
                      (buffer[..r.offset] == OackPacket(options) <==> GapsClean(old(buffer[..]), 2, Flat(options), false)))
      ensures buffer.Length == 0 || (buffer.Length > 1 && !HasOptions()) ==> r == Written(0)
    {
      if buffer.Length == 0 {
        return Written(0);
      }
      ghost var b0 := buffer[..];
      var datagram := new WriteCursor(buffer);
      r := datagram.PutUshort(OACK);
      if !r.Written? {
        return;
      }
      ghost var b := buffer[..];
      var offset := 0;
      for i := 0 to |options|
        invariant datagram.buffer == buffer && datagram.Valid()
        invariant PutStrings(buffer[..], datagram.offset, Flat(options[i..])) == PutStrings(b, 2, Flat(options))
        invariant offset == if i == 0 then 0 else datagram.offset
      {
        var (key, value) := options[i];
        NextPair(options, i);
        r := datagram.PutString(key);
        if !r.Written? {
          OackWritten(options, b0, b);
          return;
        }
        r := datagram.PutString(value);
        if !r.Written? {
          OackWritten(options, b0, b);
          return;
        }
        offset := r.offset;
      }
      assert options[|options|..] == [];
      r := Written(offset);
      OackWritten(options, b0, b);
    }
  }

  lemma {:induction false} NextPair(pairs: Pairs, i: nat)
    requires i < |pairs|
    ensures var flat := Flat(pairs[i..]);
            && |flat| >= 2
            && flat[0] == pairs[i].0
            && flat[1..][0] == pairs[i].1
            && flat[1..][1..] == Flat(pairs[i + 1..])
  {
    assert pairs[i..] == [pairs[i]] + pairs[i + 1..];
    FlatCons(pairs[i].0, pairs[i].1, pairs[i + 1..]);
  }

  /** What the writes of an OACK leave behind, given the buffer as it was and with the opcode in it. */
  lemma {:induction false} OackWritten(options: Pairs, b0: Bytes, b: Bytes)
    requires |b0| >= 2 && b == b0[..0] + [0, OACK] + b0[2..]
    ensures options != [] ==>
              var (put, out) := PutStrings(b, 2, Flat(options));
              && (put.Written? <==> |OackPacket(options)| < |b|)
              && (put.Written? ==> put.offset == |OackPacket(options)|)
              && (put.Written? ==>
                    (out[..put.offset] == OackPacket(options) <==> GapsClean(b0, 2, Flat(options), false)))
  {
    if options != [] {
      var ss := Flat(options);
      PutStringsFits(b, 2, ss);
      assert b[..2] == [0, OACK];
      if 2 + |Terminated(ss)| < |b| {
        PutStringsExactly(b, 2, ss);
        SameGaps(b0, b, 2, ss);
      }
    }
  }

  lemma {:induction false} SameGaps(x: Bytes, y: Bytes, offset: nat, ss: seq<Bytes>)
    requires |x| == |y| && forall i :: offset <= i < |x| ==> x[i] == y[i]
    ensures GapsClean(x, offset, ss, false) == GapsClean(y, offset, ss, false)
  {
    if ss != [] {
      GapsFrame(x, y, offset + |ss[0]| + 1, ss[1..]);
    }
  }

  /** A zero-filled buffer is clean for anything that fits. */
  lemma {:induction false} ZeroFilledIsClean(b: Bytes, offset: nat, ss: seq<Bytes>, zeroed: bool)
    requires offset + |Terminated(ss)| <= |b| && forall i :: 0 <= i < |b| ==> b[i] == 0
    ensures GapsClean(b, offset, ss, zeroed)
    decreases |ss|
  {
    if ss != [] {
      assert |Terminated(ss)| == |ss[0]| + 1 + |Terminated(ss[1..])|;
      ZeroFilledIsClean(b, offset + |ss[0]| + 1, ss[1..], true);
    }
  }

  /** The options an OACK carries, as the requesting side reads them. */
  function OackOptions(d: Bytes): Option<map<Bytes, Bytes>> {
    if UshortAt(d, 0) == Some(OACK) then
      match ReadOptions(d, 2, map[])
      case Ok(options) => Some(options)
      case Err(_) => None
    else
      None
  }

  lemma {:induction false} OackReadsBack(pairs: Pairs)
    requires AreFields(Flat(pairs))
    ensures OackOptions(OackPacket(pairs)) == Some(Overlay(map[], pairs))
  {
    var d := OackPacket(pairs);
    assert d[2..] == Terminated(Flat(pairs));
    OptionsReadBack(d, 2, map[], pairs);
  }

  /** All strings from a position on, in order, and the position where they end. */
  function ReadStrings(d: Bytes, from: nat): Result<(seq<Bytes>, nat), ReadError>
    decreases |d| - from
  {
    match StringAt(d, from)
    case Err(UnexpectedEof) => Ok(([], from))
    case Err(InvalidData) => Err(InvalidData)
    case Ok((s, next)) =>
      match ReadStrings(d, next)
      case Err(e) => Err(e)
      case Ok((rest, end)) => Ok(([s] + rest, end))
  }

  lemma {:induction false} StringsReadBack(d: Bytes, from: nat, ss: seq<Bytes>)
    requires from <= |d| && d[from..] == Terminated(ss) && AreFields(ss)
    ensures ReadStrings(d, from) == Ok((ss, |d|))
    decreases |ss|
  {
    if ss == [] {
      assert from == |d|;
    } else {
      var next := NextField(d, from, ss[0], Terminated(ss[1..]));
      StringsReadBack(d, next, ss[1..]);
      assert ss == [ss[0]] + ss[1..];
    }
  }

  /** An OACK reads back as every name and value in order, to its last byte. */
  lemma {:induction false} OackStringsReadBack(pairs: Pairs)
    requires AreFields(Flat(pairs))
    ensures UshortAt(OackPacket(pairs), 0) == Some(6)
    ensures ReadStrings(OackPacket(pairs), 2) == Ok((Flat(pairs), |OackPacket(pairs)|))
  {
    var d := OackPacket(pairs);
    assert d[2..] == Terminated(Flat(pairs));
    StringsReadBack(d, 2, Flat(pairs));
  }
}
