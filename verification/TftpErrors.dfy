/** The ERROR packet and how it is written into whatever buffer is at hand. */
module TftpErrors {
  import opened Wire
  import opened Text
  import opened Cursor

  const ERROR: u16 := 5

  datatype TftpError =
    | UndefinedError(message: Bytes)
    | FileNotFound(message: Bytes)
    | AccessViolation(message: Bytes)
    | IllegalOperation(message: Bytes)

  function Code(e: TftpError): u16 {
    match e
    case UndefinedError(_) => 0
    case FileNotFound(_) => 1
    case AccessViolation(_) => 2
    case IllegalOperation(_) => 4
  }

  /** The ERROR packet of section 5 of RFC 1350. */
  function ErrorPacket(e: TftpError): Bytes {
    [0, ERROR, 0, Code(e)] + e.message + [0]
  }

  /** A buffer after an ERROR packet was written into it, if a byte is left over behind the packet. */
  function ErrorOver(e: TftpError, b: Bytes): (r: Bytes)
    ensures |r| == |b|
  {
    var n := |ErrorPacket(e)|;
    if n < |b| then ErrorPacket(e)[..n - 1] + [b[n - 1], 0] + b[n + 1..] else b
  }

  /** What was written is the packet exactly if the byte where its NUL belongs was zero before. */
  lemma {:induction false} ErrorOverExactly(e: TftpError, b: Bytes)
    requires |ErrorPacket(e)| < |b|
    ensures ErrorOver(e, b)[..|ErrorPacket(e)|] == ErrorPacket(e) <==> b[|ErrorPacket(e)| - 1] == 0
  {
    var n, x := |ErrorPacket(e)|, b[|ErrorPacket(e)| - 1];
    assert ErrorOver(e, b)[..n] == ErrorPacket(e)[..n - 1] + [x];
    assert ErrorPacket(e) == ErrorPacket(e)[..n - 1] + [0];
    assert ErrorOver(e, b)[..n][n - 1] == x && ErrorPacket(e)[n - 1] == 0;
  }

  method Serialize(e: TftpError, buffer: array<byte>) returns (r: Put)
    modifies buffer
    ensures r.Written? <==> |ErrorPacket(e)| < buffer.Length
    ensures r.Panicked? <==> |ErrorPacket(e)| == buffer.Length
    ensures r.Written? ==> r.offset == |ErrorPacket(e)| && buffer[..] == ErrorOver(e, old(buffer[..]))
    ensures r.Written? ==>
              (buffer[..r.offset] == ErrorPacket(e) <==> old(buffer[..])[|ErrorPacket(e)| - 1] == 0)
  {
    ghost var b := buffer[..];
    var cursor := new WriteCursor(buffer);
    r := cursor.PutUshort(ERROR);
    if !r.Written? {
      return;
    }
    r := cursor.PutUshort(Code(e));
    if !r.Written? {
      return;
    }
    ghost var before := buffer[..];
    assert before == [0, ERROR, 0, Code(e)] + b[4..];
    r := cursor.PutString(e.message);
    if r.Written? {
      ErrorLaidOut(e, b, before);
      ErrorOverExactly(e, b);
    }
  }

  lemma {:induction false} ErrorLaidOut(e: TftpError, b: Bytes, before: Bytes)
    requires |ErrorPacket(e)| < |b| && before == [0, ERROR, 0, Code(e)] + b[4..]
    ensures StringPut(before, 4, e.message) == ErrorOver(e, b)
  {
    var n := |ErrorPacket(e)|;
    assert before[..4] == [0, ERROR, 0, Code(e)];
    assert ErrorPacket(e)[..n - 1] == before[..4] + e.message;
    assert before[n + 1..] == b[n + 1..];
  }

  /** A well-formed ERROR packet reads back as its code and message, to its last byte. */
  lemma {:induction false} ErrorReadsBack(e: TftpError)
    requires IsField(e.message)
    ensures var d := ErrorPacket(e);
            && UshortAt(d, 0) == Some(ERROR)
            && UshortAt(d, 2) == Some(Code(e))
            && StringAt(d, 4) == Ok((e.message, |d|))
  {
    var d := ErrorPacket(e);
    assert d[4..4 + |e.message|] == e.message;
    StringAtField(d, 4, e.message);
  }

  /** The codes of RFC 1350, and the opcode before them, as they travel. */
  lemma {:induction false} CodesAre(message: Bytes)
    ensures ErrorPacket(UndefinedError(message)) == [0, 5, 0, 0] + message + [0]
    ensures ErrorPacket(FileNotFound(message)) == [0, 5, 0, 1] + message + [0]
    ensures ErrorPacket(AccessViolation(message)) == [0, 5, 0, 2] + message + [0]
    ensures ErrorPacket(IllegalOperation(message)) == [0, 5, 0, 4] + message + [0]
  {
  }
}
