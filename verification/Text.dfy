/** Text as it travels: bytes that must be well-formed UTF-8, closed by a NUL. */
module Text {
  import opened Wire

  predicate IsAscii(s: string) {
    forall i :: 0 <= i < |s| ==> s[i] as int < 128
  }

  function Ascii(s: string): Bytes
    requires IsAscii(s)
  {
    seq(|s|, i requires 0 <= i < |s| => s[i] as int)
  }

  predicate Continues(b: byte) {
    0x80 <= b < 0xC0
  }

  /** The length of the well-formed character at the front of s, or 0 (section 4 of RFC 3629). */
  function CharLength(s: Bytes): nat
    requires s != []
  {
    var b := s[0];
    if b < 0x80 then 1
    else if 0xC2 <= b < 0xE0 && |s| >= 2 && Continues(s[1]) then 2
    else if 0xE0 <= b < 0xF0 && |s| >= 3 && Continues(s[1]) && Continues(s[2])
            && (b == 0xE0 ==> s[1] >= 0xA0) && (b == 0xED ==> s[1] < 0xA0) then 3
    else if 0xF0 <= b < 0xF5 && |s| >= 4 && Continues(s[1]) && Continues(s[2]) && Continues(s[3])
            && (b == 0xF0 ==> s[1] >= 0x90) && (b == 0xF4 ==> s[1] < 0x90) then 4
    else 0
  }

  predicate IsUtf8(s: Bytes) {
    s == [] || (0 < CharLength(s) <= |s| && IsUtf8(s[CharLength(s)..]))
  }

  /** Text that can travel as a field of a datagram. */
  predicate IsField(s: Bytes) {
    0 !in s && IsUtf8(s)
  }

  predicate AreFields(fields: seq<Bytes>) {
    forall i :: 0 <= i < |fields| ==> IsField(fields[i])
  }

  /** Fields laid out one after another, each closed by a NUL. */
  function Terminated(fields: seq<Bytes>): Bytes {
    if fields == [] then [] else fields[0] + [0] + Terminated(fields[1..])
  }

  lemma {:induction false} AsciiIsUtf8(s: Bytes)
    requires forall i :: 0 <= i < |s| ==> s[i] < 0x80
    ensures IsUtf8(s)
  {
    if s != [] {
      AsciiIsUtf8(s[1..]);
    }
  }

  lemma {:induction false} AsciiIsField(s: string)
    requires IsAscii(s) && forall i :: 0 <= i < |s| ==> s[i] as int != 0
    ensures IsField(Ascii(s))
  {
    AsciiIsUtf8(Ascii(s));
  }

  lemma {:induction false} TerminatedAppend(a: seq<Bytes>, b: seq<Bytes>)
    ensures Terminated(a + b) == Terminated(a) + Terminated(b)
  {
    if a == [] {
      assert a + b == b;
    } else {
      assert (a + b)[1..] == a[1..] + b;
      calc {
        Terminated(a + b);
        a[0] + [0] + Terminated(a[1..] + b);
        { TerminatedAppend(a[1..], b); }
        a[0] + [0] + (Terminated(a[1..]) + Terminated(b));
        Terminated(a) + Terminated(b);
      }
    }
  }

  // ---------------------------------------------------------------------------------------
  // UTF-8 from the other side

  /** A Unicode scalar value. */
  predicate IsScalar(c: nat) {
    c < 0xD800 || 0xE000 <= c < 0x11_0000
  }

  /** The table of section 3 of RFC 3629. */
  function Encoded(c: nat): Bytes
    requires IsScalar(c)
  {
    if c < 0x80 then [c]
    else if c < 0x800 then [0xC0 + c / 64, 0x80 + c % 64]
    else if c < 0x1_0000 then [0xE0 + c / 4096, 0x80 + c / 64 % 64, 0x80 + c % 64]
    else [0xF0 + c / 262144, 0x80 + c / 4096 % 64, 0x80 + c / 64 % 64, 0x80 + c % 64]
  }

  predicate AreScalars(cs: seq<nat>) {
    forall i :: 0 <= i < |cs| ==> IsScalar(cs[i])
  }

  function EncodedText(cs: seq<nat>): Bytes
    requires AreScalars(cs)
  {
    if cs == [] then [] else Encoded(cs[0]) + EncodedText(cs[1..])
  }

  lemma {:induction false} EncodedIsChar(c: nat, rest: Bytes)
    requires IsScalar(c)
    ensures CharLength(Encoded(c) + rest) == |Encoded(c)|
  {
    var s := Encoded(c) + rest;
    assert forall i :: 0 <= i < |Encoded(c)| ==> s[i] == Encoded(c)[i];
  }

  lemma {:induction false} TwoBytes(b: int, x: int) returns (c: nat)
    requires 0xC2 <= b < 0xE0 && 0x80 <= x < 0xC0
    ensures IsScalar(c) && Encoded(c) == [b, x]
  {
    c := 64 * (b - 0xC0) + (x - 0x80);
  }

  lemma {:induction false} ThreeBytes(b: int, x: int, y: int) returns (c: nat)
    requires 0xE0 <= b < 0xF0 && 0x80 <= x < 0xC0 && 0x80 <= y < 0xC0
    requires (b == 0xE0 ==> x >= 0xA0) && (b == 0xED ==> x < 0xA0)
    ensures IsScalar(c) && Encoded(c) == [b, x, y]
  {
    var high := 64 * (b - 0xE0) + (x - 0x80);
    c := 64 * high + (y - 0x80);
    assert c / 64 == high && c / 4096 == b - 0xE0;
  }

  lemma {:induction false} FourBytes(b: int, x: int, y: int, z: int) returns (c: nat)
    requires 0xF0 <= b < 0xF5 && 0x80 <= x < 0xC0 && 0x80 <= y < 0xC0 && 0x80 <= z < 0xC0
    requires (b == 0xF0 ==> x >= 0x90) && (b == 0xF4 ==> x < 0x90)
    ensures IsScalar(c) && Encoded(c) == [b, x, y, z]
  {
    var high := 64 * (b - 0xF0) + (x - 0x80);
    var middle := 64 * high + (y - 0x80);
    c := 64 * middle + (z - 0x80);
    assert c / 64 == middle && c % 64 == z - 0x80;
    assert c / 4096 == middle / 64 == high && middle % 64 == y - 0x80;
    assert c / 262144 == high / 64 == b - 0xF0 && high % 64 == x - 0x80;
  }

  lemma {:induction false} CharIsEncoded(s: Bytes) returns (c: nat)
    requires s != [] && CharLength(s) > 0
    ensures CharLength(s) <= |s| && IsScalar(c) && Encoded(c) == s[..CharLength(s)]
  {
    if CharLength(s) == 1 {
      c := s[0];
    } else if CharLength(s) == 2 {
      c := TwoBytes(s[0], s[1]);
    } else if CharLength(s) == 3 {
      c := ThreeBytes(s[0], s[1], s[2]);
    } else {
      c := FourBytes(s[0], s[1], s[2], s[3]);
    }
  }

  lemma {:induction false} TextIsUtf8(cs: seq<nat>)
    requires AreScalars(cs)
    ensures IsUtf8(EncodedText(cs))
  {
    if cs != [] {
      var first, rest := Encoded(cs[0]), EncodedText(cs[1..]);
      TextIsUtf8(cs[1..]);
      EncodedIsChar(cs[0], rest);
      assert (first + rest)[|first|..] == rest;
    }
  }

  lemma {:induction false} Utf8IsText(s: Bytes) returns (cs: seq<nat>)
    requires IsUtf8(s)
    ensures AreScalars(cs) && EncodedText(cs) == s
    decreases |s|
  {
    if s == [] {
      cs := [];
    } else {
      var n := CharLength(s);
      var c := CharIsEncoded(s);
      var rest := Utf8IsText(s[n..]);
      cs := [c] + rest;
      assert cs[1..] == rest;
      assert s == s[..n] + s[n..];
    }
  }

  /** Bytes are accepted as text exactly if they encode some sequence of Unicode scalar values. */
  lemma {:induction false} Utf8Exactly(s: Bytes)
    ensures IsUtf8(s) <==> exists cs :: AreScalars(cs) && EncodedText(cs) == s
  {
    if IsUtf8(s) {
      var cs := Utf8IsText(s);
    }
    forall cs | AreScalars(cs) && EncodedText(cs) == s ensures IsUtf8(s) {
      TextIsUtf8(cs);
    }
  }
}
