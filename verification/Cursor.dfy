/** Reading words and NUL-closed strings off a datagram, and writing them into a buffer. */
module Cursor {
  import opened Wire
  import opened Text

  datatype ReadError = UnexpectedEof | InvalidData

  /** The position of the first NUL at or after `from`. */
  function FindNul(d: Bytes, from: nat): (r: Option<nat>)
    ensures r.Some? ==> from <= r.value < |d| && d[r.value] == 0 && 0 !in d[from..r.value]
    ensures r.None? && from <= |d| ==> 0 !in d[from..]
    decreases |d| - from
  {
    if from >= |d| then None
    else if d[from] == 0 then Some(from)
    else
      var r := FindNul(d, from + 1);
      assert r.Some? ==> d[from..r.value] == [d[from]] + d[from + 1..r.value];
      assert d[from..] == [d[from]] + d[from + 1..];
      r
  }

  /** The string at position `from` and the position after its NUL. */
  function StringAt(d: Bytes, from: nat): (r: Result<(Bytes, nat), ReadError>)
    ensures r.Ok? ==> r.value.1 == from + |r.value.0| + 1 <= |d|
  {
    if from >= |d| then Err(UnexpectedEof)
    else match FindNul(d, from)
         case None => Err(InvalidData)
         case Some(nul) => if IsUtf8(d[from..nul]) then Ok((d[from..nul], nul + 1)) else Err(InvalidData)
  }

  function UshortAt(d: Bytes, from: nat): Option<u16> {
    if from + 2 > |d| then None else Some(FromBe(d[from], d[from + 1]))
  }

  class ReadCursor {
    const datagram: Bytes
    var index: nat

    constructor (datagram: Bytes)
      ensures this.datagram == datagram && index == 0
    {
      this.datagram := datagram;
      index := 0;
    }

    method ExtractUshort() returns (r: Option<u16>)
      modifies this
      ensures r == UshortAt(datagram, old(index))
      ensures index == if r.Some? then old(index) + 2 else old(index)
    {
      var endIndex := index + 2;
      if endIndex > |datagram| {
        return None;
      }
      r := Some(FromBe(datagram[index], datagram[index + 1]));
      index := endIndex;
    }

    method ExtractString() returns (r: Result<Bytes, ReadError>)
      modifies this
      ensures match StringAt(datagram, old(index))
              case Ok((s, next)) => r == Ok(s) && index == next
              case Err(e) => r == Err(e) && index == old(index)
    {
      if index >= |datagram| {
        return Err(UnexpectedEof);
      }
      var nul := index;
      while nul < |datagram| && datagram[nul] != 0
        invariant index <= nul <= |datagram|
        invariant FindNul(datagram, index) == FindNul(datagram, nul)
        invariant unchanged(this)
      {
        nul := nul + 1;
      }
      if nul == |datagram| {
        return Err(InvalidData);
      }
      var s := datagram[index..nul];
      if IsUtf8(s) {
        index := nul + 1;
        r := Ok(s);
      } else {
        r := Err(InvalidData);
      }
    }
  }

  /** Reading a laid-out field gives the field and the position of the next one. */
  lemma {:induction false} FindNulAfter(d: Bytes, from: nat, s: Bytes)
    requires 0 !in s && from + |s| < |d| && d[from..from + |s|] == s && d[from + |s|] == 0
    ensures FindNul(d, from) == Some(from + |s|)
    decreases |s|
  {
    if s != [] {
      assert d[from] == s[0] && s[0] in s;
      assert d[from + 1..from + |s|] == s[1..];
      FindNulAfter(d, from + 1, s[1..]);
    }
  }

  lemma {:induction false} StringAtField(d: Bytes, from: nat, s: Bytes)
    requires IsField(s) && from + |s| < |d| && d[from..from + |s|] == s && d[from + |s|] == 0
    ensures StringAt(d, from) == Ok((s, from + |s| + 1))
  {
    FindNulAfter(d, from, s);
  }

  /** Whatever was read off a datagram is a field that was laid out there. */
  lemma {:induction false} StringAtMeans(d: Bytes, from: nat)
    requires StringAt(d, from).Ok?
    ensures var (s, next) := StringAt(d, from).value;
            IsField(s) && d[from..] == s + [0] + d[next..]
  {
    var (s, next) := StringAt(d, from).value;
    assert d[from..] == d[from..next - 1] + [d[next - 1]] + d[next..];
  }

  // ---------------------------------------------------------------------------------------
  // Writing

  /** A write past the end of the buffer is refused, or, by one byte, stops the program. */
  datatype Put = Written(offset: nat) | TooSmall | Panicked

  /** What put_string leaves in the buffer: the NUL lands one byte behind its place. */
  function StringPut(b: Bytes, offset: nat, s: Bytes): Bytes
    requires offset + |s| + 1 < |b|
  {
    b[..offset] + s + [b[offset + |s|], 0] + b[offset + |s| + 2..]
  }

  function PutOutcome(size: nat, offset: nat, s: Bytes): Put {
    var end := offset + |s| + 1;
    if end > size then TooSmall else if end == size then Panicked else Written(end)
  }

  class WriteCursor {
    const buffer: array<byte>
    var offset: nat

    ghost predicate Valid()
      reads this
    {
      offset <= buffer.Length
    }

    constructor (buffer: array<byte>)
      ensures this.buffer == buffer && offset == 0 && Valid()
    {
      this.buffer := buffer;
      offset := 0;
    }

    method PutUshort(value: u16) returns (r: Put)
      requires Valid()
      modifies this, buffer
      ensures Valid()
      ensures old(offset) + 2 > buffer.Length ==>
                r == TooSmall && offset == old(offset) && buffer[..] == old(buffer[..])
      ensures old(offset) + 2 <= buffer.Length ==>
                && r == Written(offset) && offset == old(offset) + 2
                && buffer[..] == old(buffer[..offset]) + [Hi(value), Lo(value)] + old(buffer[offset + 2..])
    {
      var endIndex := offset + 2;
      if endIndex > buffer.Length {
        return TooSmall;
      }
      buffer[offset] := Hi(value);
      buffer[offset + 1] := Lo(value);
      offset := endIndex;
      r := Written(offset);
    }

    method PutString(s: Bytes) returns (r: Put)
      requires Valid()
      modifies this, buffer
      ensures Valid()
      ensures r == PutOutcome(buffer.Length, old(offset), s)
      ensures r.Written? ==> offset == r.offset && buffer[..] == StringPut(old(buffer[..]), old(offset), s)
    {
      var endIndex := offset + |s| + 1;
      if endIndex > buffer.Length {
        return TooSmall;
      }
      forall i | 0 <= i < |s| {
        buffer[offset + i] := s[i];
      }
      if endIndex == buffer.Length {
        return Panicked;
      }
      buffer[endIndex] := 0;
      offset := endIndex;
      r := Written(offset);
    }
  }

  /** Writing strings one after another: the outcome, and the buffer if all fit. */
  function PutStrings(b: Bytes, offset: nat, ss: seq<Bytes>): (r: (Put, Bytes))
    ensures |r.1| == |b|
    decreases |ss|
  {
    if ss == [] then (Written(offset), b)
    else match PutOutcome(|b|, offset, ss[0])
         case Written(end) => PutStrings(StringPut(b, offset, ss[0]), end, ss[1..])
         case TooSmall => (TooSmall, b)
         case Panicked => (Panicked, b)
  }

  /** Strings are written exactly if a byte is left over behind them. */
  lemma {:induction false} PutStringsFits(b: Bytes, offset: nat, ss: seq<Bytes>)
    requires ss != []
    ensures PutStrings(b, offset, ss).0.Written? <==> offset + |Terminated(ss)| < |b|
    ensures PutStrings(b, offset, ss).0.Written? ==> PutStrings(b, offset, ss).0.offset == offset + |Terminated(ss)|
    decreases |ss|
  {
    var rest := ss[1..];
    assert |Terminated(ss)| == |ss[0]| + 1 + |Terminated(rest)|;
    var end := offset + |ss[0]| + 1;
    if end < |b| && rest != [] {
      PutStringsFits(StringPut(b, offset, ss[0]), end, rest);
    }
  }

  /**
   Every place where a NUL belongs holds one already, or is where the NUL of the string before
   went astray. `zeroed` says that the byte at `offset` is such a place.
   */
  predicate GapsClean(b: Bytes, offset: nat, ss: seq<Bytes>, zeroed: bool)
    decreases |ss|
  {
    ss == [] || (
      && offset + |ss[0]| < |b|
      && (b[offset + |ss[0]|] == 0 || (zeroed && ss[0] == []))
      && GapsClean(b, offset + |ss[0]| + 1, ss[1..], true))
  }

  lemma {:induction false} GapsFrame(x: Bytes, y: Bytes, offset: nat, ss: seq<Bytes>)
    requires |x| == |y| && forall i :: offset < i < |x| ==> x[i] == y[i]
    ensures GapsClean(x, offset, ss, true) == GapsClean(y, offset, ss, true)
    decreases |ss|
  {
    if ss != [] {
      GapsFrame(x, y, offset + |ss[0]| + 1, ss[1..]);
    }
  }

  lemma {:induction false} ZeroedAnyway(b: Bytes, offset: nat, ss: seq<Bytes>)
    requires offset < |b| && b[offset] == 0
    ensures GapsClean(b, offset, ss, false) == GapsClean(b, offset, ss, true)
  {
  }

  /** What is where after one string was written. */
  lemma {:induction false} StringPutBytes(b: Bytes, offset: nat, s: Bytes)
    requires offset + |s| + 1 < |b|
    ensures var b' := StringPut(b, offset, s);
            && |b'| == |b|
            && (forall i :: 0 <= i < offset ==> b'[i] == b[i])
            && (forall i :: 0 <= i < |s| ==> b'[offset + i] == s[i])
            && b'[offset + |s|] == b[offset + |s|]
            && b'[offset + |s| + 1] == 0
            && (forall i :: offset + |s| + 1 < i < |b| ==> b'[i] == b[i])
  {
  }

  /** The bytes below the offset are not touched. */
  lemma {:induction false} PutStringsFrame(b: Bytes, offset: nat, ss: seq<Bytes>)
    requires PutStrings(b, offset, ss).0.Written?
    ensures forall i :: 0 <= i < offset && i < |b| ==> PutStrings(b, offset, ss).1[i] == b[i]
    decreases |ss|
  {
    if ss != [] {
      StringPutBytes(b, offset, ss[0]);
      PutStringsFrame(StringPut(b, offset, ss[0]), offset + |ss[0]| + 1, ss[1..]);
    }
  }

  lemma {:induction false} GapsOfFirst(b: Bytes, offset: nat, ss: seq<Bytes>)
    requires ss != [] && offset + |ss[0]| + 1 < |b|
    ensures GapsClean(b, offset, ss, false) <==>
            b[offset + |ss[0]|] == 0 &&
            GapsClean(StringPut(b, offset, ss[0]), offset + |ss[0]| + 1, ss[1..], false)
  {
    var b', end := StringPut(b, offset, ss[0]), offset + |ss[0]| + 1;
    StringPutBytes(b, offset, ss[0]);
    ZeroedAnyway(b', end, ss[1..]);
    GapsFrame(b, b', end, ss[1..]);
  }

  /** The first string is in place, followed by whatever byte was behind its place. */
  lemma {:induction false} FirstPut(b: Bytes, offset: nat, ss: seq<Bytes>)
    requires ss != [] && offset + |Terminated(ss)| < |b|
    ensures var end, out := offset + |ss[0]| + 1, PutStrings(b, offset, ss);
            && end + |Terminated(ss[1..])| == offset + |Terminated(ss)|
            && out == PutStrings(StringPut(b, offset, ss[0]), end, ss[1..])
            && (forall i :: 0 <= i < |ss[0]| ==> out.1[offset + i] == ss[0][i])
            && out.1[end - 1] == b[end - 1]
  {
    var s, rest := ss[0], ss[1..];
    assert |Terminated(ss)| == |s| + 1 + |Terminated(rest)|;
    var b', end := StringPut(b, offset, s), offset + |s| + 1;
    StringPutBytes(b, offset, s);
    if rest != [] {
      PutStringsFits(b', end, rest);
    }
    PutStringsFrame(b', end, rest);
  }

  /** Each string and its NUL are in their place, one after another. */
  predicate InPlace(d: Bytes, offset: nat, ss: seq<Bytes>)
    decreases |ss|
  {
    ss == [] || (
      var end := offset + |ss[0]| + 1;
      end <= |d| && d[offset..end - 1] == ss[0] && d[end - 1] == 0 && InPlace(d, end, ss[1..]))
  }

  lemma {:induction false} SplitAtNul(part: Bytes, s: Bytes, tail: Bytes)
    requires |part| == |s| + 1 + |tail|
    ensures part == s + [0] + tail <==> part[..|s|] == s && part[|s|] == 0 && part[|s| + 1..] == tail
  {
    var whole := s + [0] + tail;
    assert whole[..|s|] == s && whole[|s|] == 0 && whole[|s| + 1..] == tail;
    assert part == part[..|s|] + [part[|s|]] + part[|s| + 1..];
  }

  lemma {:induction false} InPlaceIsTerminated(d: Bytes, offset: nat, ss: seq<Bytes>)
    requires offset + |Terminated(ss)| <= |d|
    ensures InPlace(d, offset, ss) <==> d[offset..offset + |Terminated(ss)|] == Terminated(ss)
    decreases |ss|
  {
    if ss != [] {
      var s, rest, end := ss[0], ss[1..], offset + |ss[0]| + 1;
      var part, tail := d[offset..offset + |Terminated(ss)|], Terminated(rest);
      assert |Terminated(ss)| == |s| + 1 + |tail|;
      InPlaceIsTerminated(d, end, rest);
      assert part[..|s|] == d[offset..end - 1] && part[|s|] == d[end - 1] && part[|s| + 1..] == d[end..end + |tail|];
      SplitAtNul(part, s, tail);
    }
  }

  /** The strings come out in their places exactly if the gaps were clean before. */
  lemma {:induction false} PutStringsInPlace(b: Bytes, offset: nat, ss: seq<Bytes>)
    requires offset + |Terminated(ss)| < |b|
    ensures InPlace(PutStrings(b, offset, ss).1, offset, ss) <==> GapsClean(b, offset, ss, false)
    decreases |ss|
  {
    if ss != [] {
      FirstPut(b, offset, ss);
      assert PutStrings(b, offset, ss).1[offset..offset + |ss[0]|] == ss[0];
      GapsOfFirst(b, offset, ss);
      PutStringsInPlace(StringPut(b, offset, ss[0]), offset + |ss[0]| + 1, ss[1..]);
    }
  }

  /** The strings come out laid out with their NULs exactly if the gaps were clean before. */
  lemma {:induction false} PutStringsExactly(b: Bytes, offset: nat, ss: seq<Bytes>)
    requires ss != [] && offset + |Terminated(ss)| < |b|
    ensures var end := offset + |Terminated(ss)|;
            PutStrings(b, offset, ss).1[..end] == b[..offset] + Terminated(ss) <==> GapsClean(b, offset, ss, false)
  {
    var end, out := offset + |Terminated(ss)|, PutStrings(b, offset, ss).1;
    PutStringsFits(b, offset, ss);
    PutStringsFrame(b, offset, ss);
    PutStringsInPlace(b, offset, ss);
    InPlaceIsTerminated(out, offset, ss);
    assert out[..offset] == b[..offset];
    assert out[..end] == b[..offset] + out[offset..end];
    assert (b[..offset] + Terminated(ss))[offset..] == Terminated(ss);
    assert (b[..offset] + out[offset..end])[offset..] == out[offset..end];
  }

  /** Over bytes that are not zero, the NUL of a string is missing from its place. */
  lemma {:induction false} AstrayNul(b: Bytes, s: Bytes)
    requires |s| + 1 < |b| && b[|s|] != 0
    ensures PutStrings(b, 0, [s]).0 == Written(|s| + 1)
    ensures PutStrings(b, 0, [s]).1[..|s| + 1] == s + [b[|s|]] != Terminated([s])
  {
    assert [s][1..] == [];
    assert StringPut(b, 0, s)[..|s| + 1] == s + [b[|s|]];
    assert (s + [b[|s|]])[|s|] != Terminated([s])[|s|];
  }
}
