/** The options of a read request, what the server makes of them, and what it answers. */
module Options {
  import opened Wire
  import opened Text
  import opened Messages

  const TSIZE: Bytes := Ascii("tsize")
  const TIMEOUT: Bytes := Ascii("timeout")
  const BLKSIZE: Bytes := Ascii("blksize")
  const WINDOW_SIZE: Bytes := Ascii("windowsize")

  const USIZE_LIMIT: nat := 0x1_0000_0000_0000_0000

  // ---------------------------------------------------------------------------------------
  // Decimal numbers

  predicate AllDigits(s: Bytes) {
    forall i :: 0 <= i < |s| ==> 48 <= s[i] < 58
  }

  function Value(s: Bytes): nat
    requires AllDigits(s)
  {
    if s == [] then 0 else 10 * Value(s[..|s| - 1]) + (s[|s| - 1] - 48)
  }

  /** A number as the standard library reads it: digits, after a plus sign if there is one. */
  function ParseUsize(s: Bytes): Option<nat> {
    if s == [] then None
    else
      var digits := if s[0] == 43 then s[1..] else s;
      if digits != [] && AllDigits(digits) && Value(digits) < USIZE_LIMIT then Some(Value(digits)) else None
  }

  function Decimal(n: nat): (s: Bytes)
    ensures s != [] && AllDigits(s)
  {
    if n < 10 then [48 + n] else Decimal(n / 10) + [48 + n % 10]
  }

  lemma {:induction false} DecimalValue(n: nat)
    ensures Value(Decimal(n)) == n
  {
    var s := Decimal(n);
    if n >= 10 {
      DecimalValue(n / 10);
      assert s[..|s| - 1] == Decimal(n / 10);
    } else {
      assert s[..|s| - 1] == [];
    }
  }

  /** What is printed is read back, and can travel as a field. */
  lemma {:induction false} DecimalParsesBack(n: nat)
    requires n < USIZE_LIMIT
    ensures ParseUsize(Decimal(n)) == Some(n)
    ensures IsField(Decimal(n))
  {
    DecimalValue(n);
    AsciiIsUtf8(Decimal(n));
  }

  function Zeros(n: nat): (s: Bytes)
    ensures |s| == n && AllDigits(s)
  {
    if n == 0 then [] else Zeros(n - 1) + [48]
  }

  /** Digits are the number they make, in decimal, behind some zeros. */
  lemma {:induction false} DigitsAre(s: Bytes) returns (n: nat)
    requires s != [] && AllDigits(s)
    ensures s == Zeros(n) + Decimal(Value(s))
  {
    var before, last := s[..|s| - 1], s[|s| - 1];
    assert s == before + [last];
    if before == [] {
      n := 0;
      assert Value(s) == last - 48;
      assert Zeros(0) + Decimal(Value(s)) == Decimal(Value(s));
    } else {
      n := DigitsAre(before);
      if Value(before) == 0 {
        assert Zeros(n) + [48] == Zeros(n + 1);
        n := n + 1;
      } else {
        assert Value(s) / 10 == Value(before) && Value(s) % 10 == last - 48;
        assert Zeros(n) + (Decimal(Value(before)) + [last]) == before + [last];
      }
    }
  }

  lemma {:induction false} ZerosAddNothing(k: nat, n: nat)
    ensures AllDigits(Zeros(k) + Decimal(n)) && Value(Zeros(k) + Decimal(n)) == n
    decreases n
  {
    var s := Zeros(k) + Decimal(n);
    var before := s[..|s| - 1];
    if n < 10 {
      assert before == Zeros(k);
      ZerosAreZero(k);
    } else {
      assert before == Zeros(k) + Decimal(n / 10);
      ZerosAddNothing(k, n / 10);
    }
  }

  lemma {:induction false} ZerosAreZero(k: nat)
    ensures Value(Zeros(k)) == 0
  {
    if k > 0 {
      assert Zeros(k)[..k - 1] == Zeros(k - 1);
      ZerosAreZero(k - 1);
    }
  }

  /** The bytes are the number n in decimal, behind some zeros, and behind a plus sign perhaps. */
  ghost predicate Spells(s: Bytes, n: nat, zeros: nat) {
    s == Zeros(zeros) + Decimal(n) || s == [43] + (Zeros(zeros) + Decimal(n))
  }

  lemma {:induction false} ParsedIsSpelled(s: Bytes, n: nat) returns (zeros: nat)
    requires ParseUsize(s) == Some(n)
    ensures n < USIZE_LIMIT && Spells(s, n, zeros)
  {
    var digits := if s[0] == 43 then s[1..] else s;
    zeros := DigitsAre(digits);
    if s[0] == 43 {
      assert s == [43] + digits;
    }
  }

  lemma {:induction false} SpelledIsParsed(s: Bytes, n: nat, zeros: nat)
    requires n < USIZE_LIMIT && Spells(s, n, zeros)
    ensures ParseUsize(s) == Some(n)
  {
    var digits := Zeros(zeros) + Decimal(n);
    ZerosAddNothing(zeros, n);
    assert digits != [] && digits[0] != 43;
    if s != digits {
      assert s[0] == 43 && s[1..] == digits;
    }
  }

  /** These are exactly the numbers, up to the largest that fits into 64 bits. */
  lemma {:induction false} NumberExactly(s: Bytes, n: nat)
    ensures ParseUsize(s) == Some(n) <==> n < 0x1_0000_0000_0000_0000 && exists zeros :: Spells(s, n, zeros)
  {
    if ParseUsize(s) == Some(n) {
      var zeros := ParsedIsSpelled(s, n);
    }
    if zeros: nat :| n < USIZE_LIMIT && Spells(s, n, zeros) {
      SpelledIsParsed(s, n, zeros);
    }
  }

  // ---------------------------------------------------------------------------------------
  // Finding and answering options

  /** The option was requested, and as a number in the range served. */
  predicate Acceptable(options: map<Bytes, Bytes>, key: Bytes, low: nat, high: nat) {
    && key in options
    && var number := ParseUsize(options[key]);
       number.Some? && low <= number.value <= high
  }

  /** The number requested, found exactly if it is acceptable. */
  function FindIn(options: map<Bytes, Bytes>, key: Bytes, low: nat, high: nat): (r: Option<nat>)
    ensures r.Some? <==> Acceptable(options, key, low, high)
    ensures r.Some? ==> r == ParseUsize(options[key]) && low <= r.value <= high
  {
    if key in options then
      match ParseUsize(options[key])
      case Some(n) => if low <= n <= high then Some(n) else None
      case None => None
    else
      None
  }

  function FindTimeout(options: map<Bytes, Bytes>): (r: Option<nat>)
    ensures r.Some? <==> Acceptable(options, TIMEOUT, 1, 255)
    ensures r.Some? ==> r == ParseUsize(options[TIMEOUT]) && 1 <= r.value <= 255
  {
    FindIn(options, TIMEOUT, 1, 255)
  }

  function FindBlksize(options: map<Bytes, Bytes>): (r: Option<nat>)
    ensures r.Some? <==> Acceptable(options, BLKSIZE, 8, WORDS - 1)
    ensures r.Some? ==> r == ParseUsize(options[BLKSIZE]) && 8 <= r.value < WORDS
  {
    FindIn(options, BLKSIZE, 8, WORDS - 1)
  }

  function FindWindowSize(options: map<Bytes, Bytes>): (r: Option<nat>)
    ensures r.Some? <==> Acceptable(options, WINDOW_SIZE, 1, WORDS - 1)
    ensures r.Some? ==> r == ParseUsize(options[WINDOW_SIZE]) && 1 <= r.value < WORDS
  {
    FindIn(options, WINDOW_SIZE, 1, WORDS - 1)
  }

  /** What a client prints into an option is found again exactly if it lies in the range. */
  lemma {:induction false} PrintedIsFound(options: map<Bytes, Bytes>, key: Bytes, low: nat, high: nat, n: nat)
    requires n < USIZE_LIMIT
    ensures FindIn(options[key := Decimal(n)], key, low, high) == if low <= n <= high then Some(n) else None
  {
    DecimalParsesBack(n);
  }

  datatype Terms = Terms(timeout: nat, blockSize: nat, window: nat)

  function Or(value: Option<nat>, default: nat): nat {
    if value.Some? then value.value else default
  }

  /** The terms on which the server will send. */
  function Agreed(options: map<Bytes, Bytes>): Terms {
    Terms(Or(FindTimeout(options), 5), Or(FindBlksize(options), 512), Or(FindWindowSize(options), 1))
  }

  function Pair(key: Bytes, value: Option<nat>): Pairs {
    if value.Some? then [(key, Decimal(value.value))] else []
  }

  /** What the server acknowledges, in this order; the size of the file if asked for and known. */
  function Answer(options: map<Bytes, Bytes>, size: Option<nat>): Pairs {
    Pair(TIMEOUT, FindTimeout(options))
    + Pair(BLKSIZE, FindBlksize(options))
    + Pair(TSIZE, if TSIZE in options then size else None)
    + Pair(WINDOW_SIZE, FindWindowSize(options))
  }

  /** The value of an option in the acknowledgement, as the requesting side takes it. */
  function Told(received: map<Bytes, Bytes>, key: Bytes): Option<nat> {
    if key in received then ParseUsize(received[key]) else None
  }

  function ToldTerms(received: map<Bytes, Bytes>): Terms {
    Terms(Or(Told(received, TIMEOUT), 5), Or(Told(received, BLKSIZE), 512), Or(Told(received, WINDOW_SIZE), 1))
  }

  lemma {:induction false} KeysDiffer()
    ensures TIMEOUT != BLKSIZE && TIMEOUT != TSIZE && TIMEOUT != WINDOW_SIZE
    ensures BLKSIZE != TSIZE && BLKSIZE != WINDOW_SIZE && TSIZE != WINDOW_SIZE
  {
    assert TIMEOUT[0] != BLKSIZE[0];
    assert |TIMEOUT| == 7 && |BLKSIZE| == 7 && |TSIZE| == 5 && |WINDOW_SIZE| == 10;
  }

  lemma {:induction false} TimeoutIsField()
    ensures IsField(TIMEOUT)
  {
    AsciiIsField("timeout");
  }

  lemma {:induction false} BlksizeIsField()
    ensures IsField(BLKSIZE)
  {
    AsciiIsField("blksize");
  }

  lemma {:induction false} TsizeIsField()
    ensures IsField(TSIZE)
  {
    AsciiIsField("tsize");
  }

  lemma {:induction false} WindowSizeIsField()
    ensures IsField(WINDOW_SIZE)
  {
    AsciiIsField("windowsize");
  }

  lemma {:induction false} OverlayAppend(m: map<Bytes, Bytes>, a: Pairs, b: Pairs)
    ensures Overlay(m, a + b) == Overlay(Overlay(m, a), b)
    decreases |a|
  {
    if a == [] {
      assert a + b == b;
    } else {
      assert (a + b)[1..] == a[1..] + b;
      OverlayAppend(m[a[0].0 := a[0].1], a[1..], b);
    }
  }

  lemma {:induction false} FlatAppend(a: Pairs, b: Pairs)
    ensures Flat(a + b) == Flat(a) + Flat(b)
    decreases |a|
  {
    if a == [] {
      assert a + b == b;
    } else {
      assert (a + b)[1..] == a[1..] + b;
      FlatAppend(a[1..], b);
    }
  }

  lemma {:induction false} FieldsAppend(a: seq<Bytes>, b: seq<Bytes>)
    requires AreFields(a) && AreFields(b)
    ensures AreFields(a + b)
  {
  }

  function With(m: map<Bytes, Bytes>, key: Bytes, value: Option<nat>): map<Bytes, Bytes> {
    if value.Some? then m[key := Decimal(value.value)] else m
  }

  /** What one acknowledged option adds to the options received so far. */
  lemma {:induction false} OnePair(m: map<Bytes, Bytes>, key: Bytes, value: Option<nat>)
    ensures Overlay(m, Pair(key, value)) == With(m, key, value)
  {
    var pairs := Pair(key, value);
    if value.Some? {
      assert pairs[1..] == [];
    }
  }

  lemma {:induction false} PairFields(key: Bytes, value: Option<nat>)
    requires IsField(key) && (value.Some? ==> value.value < USIZE_LIMIT)
    ensures AreFields(Flat(Pair(key, value)))
  {
    if value.Some? {
      DecimalParsesBack(value.value);
      assert Pair(key, value)[1..] == [];
      assert Flat(Pair(key, value)) == [key, Decimal(value.value)];
    }
  }

  /** The options the requesting side ends up with. */
  function Received(options: map<Bytes, Bytes>, size: Option<nat>): map<Bytes, Bytes> {
    Overlay(map[], Answer(options, size))
  }

  lemma {:induction false} ReceivedIs(options: map<Bytes, Bytes>, size: Option<nat>)
    ensures Received(options, size) ==
            With(With(With(With(map[], TIMEOUT, FindTimeout(options)), BLKSIZE, FindBlksize(options)),
                      TSIZE, if TSIZE in options then size else None), WINDOW_SIZE, FindWindowSize(options))
  {
    var a, b := Pair(TIMEOUT, FindTimeout(options)), Pair(BLKSIZE, FindBlksize(options));
    var c, d := Pair(TSIZE, if TSIZE in options then size else None), Pair(WINDOW_SIZE, FindWindowSize(options));
    OverlayAppend(map[], a + b + c, d);
    OverlayAppend(map[], a + b, c);
    OverlayAppend(map[], a, b);
    OnePair(map[], TIMEOUT, FindTimeout(options));
    OnePair(Overlay(map[], a), BLKSIZE, FindBlksize(options));
    OnePair(Overlay(map[], a + b), TSIZE, if TSIZE in options then size else None);
    OnePair(Overlay(map[], a + b + c), WINDOW_SIZE, FindWindowSize(options));
  }

  lemma {:induction false} AnswerFields(options: map<Bytes, Bytes>, size: Option<nat>)
    requires size.Some? ==> size.value < USIZE_LIMIT
    ensures AreFields(Flat(Answer(options, size)))
  {
    TimeoutIsField();
    BlksizeIsField();
    TsizeIsField();
    WindowSizeIsField();
    var a, b := Pair(TIMEOUT, FindTimeout(options)), Pair(BLKSIZE, FindBlksize(options));
    var c, d := Pair(TSIZE, if TSIZE in options then size else None), Pair(WINDOW_SIZE, FindWindowSize(options));
    PairFields(TIMEOUT, FindTimeout(options));
    PairFields(BLKSIZE, FindBlksize(options));
    PairFields(TSIZE, if TSIZE in options then size else None);
    PairFields(WINDOW_SIZE, FindWindowSize(options));
    FlatAppend(a, b);
    FlatAppend(a + b, c);
    FlatAppend(a + b + c, d);
    FieldsAppend(Flat(a), Flat(b));
    FieldsAppend(Flat(a + b), Flat(c));
    FieldsAppend(Flat(a + b + c), Flat(d));
  }

  /** What one more option changes for any key. */
  lemma {:induction false} ToldWith(m: map<Bytes, Bytes>, name: Bytes, value: Option<nat>, key: Bytes)
    requires value.Some? ==> value.value < USIZE_LIMIT
    ensures Told(With(m, name, value), key) == if key == name && value.Some? then value else Told(m, key)
    ensures key in With(m, name, value) <==> (key == name && value.Some?) || key in m
  {
    if value.Some? {
      DecimalParsesBack(value.value);
    }
  }

  /** The number that the server answers for a key. */
  function Offered(options: map<Bytes, Bytes>, size: Option<nat>, key: Bytes): (r: Option<nat>)
    ensures r.Some? ==> key in options
  {
    if key == WINDOW_SIZE then FindWindowSize(options)
    else if key == TSIZE then if TSIZE in options then size else None
    else if key == BLKSIZE then FindBlksize(options)
    else if key == TIMEOUT then FindTimeout(options)
    else None
  }

  /** Four options with different names, received one after another. */
  lemma {:induction false} ToldOfFour(k1: Bytes, k2: Bytes, k3: Bytes, k4: Bytes,
                                      v1: Option<nat>, v2: Option<nat>, v3: Option<nat>, v4: Option<nat>, key: Bytes)
    requires forall v :: v in [v1, v2, v3, v4] && v.Some? ==> v.value < USIZE_LIMIT
    requires k1 != k2 && k1 != k3 && k1 != k4 && k2 != k3 && k2 != k4 && k3 != k4
    ensures var m := With(With(With(With(map[], k1, v1), k2, v2), k3, v3), k4, v4);
            var v := if key == k4 then v4 else if key == k3 then v3 else if key == k2 then v2 else if key == k1 then v1 else None;
            Told(m, key) == v && (key in m <==> v.Some?)
  {
    var m1 := With(map[], k1, v1);
    var m2 := With(m1, k2, v2);
    var m3 := With(m2, k3, v3);
    ToldWith(map[], k1, v1, key);
    ToldWith(m1, k2, v2, key);
    ToldWith(m2, k3, v3, key);
    ToldWith(m3, k4, v4, key);
  }

  /** The requesting side is told exactly what the server answers, key by key. */
  lemma {:induction false} ToldIsOffered(options: map<Bytes, Bytes>, size: Option<nat>, key: Bytes)
    requires size.Some? ==> size.value < USIZE_LIMIT
    ensures Told(Received(options, size), key) == Offered(options, size, key)
    ensures key in Received(options, size) <==> Offered(options, size, key).Some?
  {
    ReceivedIs(options, size);
    KeysDiffer();
    ToldOfFour(TIMEOUT, BLKSIZE, TSIZE, WINDOW_SIZE, FindTimeout(options), FindBlksize(options),
               if TSIZE in options then size else None, FindWindowSize(options), key);
  }

  /**
   Both sides agree: whatever was requested, decoding the acknowledgement, with the default for
   what is not in it, gives the terms on which the server sends. Nothing is acknowledged that was
   not requested, and an option is acknowledged exactly if it was found acceptable.
   */
  lemma {:induction false} TermsAgree(options: map<Bytes, Bytes>, size: Option<nat>)
    requires size.Some? ==> size.value < USIZE_LIMIT
    ensures OackOptions(OackPacket(Answer(options, size))) == Some(Received(options, size))
    ensures ToldTerms(Received(options, size)) == Agreed(options)
    ensures Received(options, size).Keys <= options.Keys
    ensures TIMEOUT in Received(options, size) <==> FindTimeout(options).Some?
    ensures BLKSIZE in Received(options, size) <==> FindBlksize(options).Some?
    ensures WINDOW_SIZE in Received(options, size) <==> FindWindowSize(options).Some?
    ensures Told(Received(options, size), TSIZE) == if TSIZE in options then size else None
  {
    AnswerFields(options, size);
    OackReadsBack(Answer(options, size));
    KeysDiffer();
    ToldIsOffered(options, size, TIMEOUT);
    ToldIsOffered(options, size, BLKSIZE);
    ToldIsOffered(options, size, TSIZE);
    ToldIsOffered(options, size, WINDOW_SIZE);
    forall key | key in Received(options, size) ensures key in options {
      ToldIsOffered(options, size, key);
    }
  }

  // ---------------------------------------------------------------------------------------
  // The size of an acknowledgement

  function Ten(d: nat): nat {
    if d == 0 then 1 else 10 * Ten(d - 1)
  }

  lemma {:induction false} DecimalLength(n: nat, d: nat)
    requires 1 <= d && n < Ten(d)
    ensures |Decimal(n)| <= d
  {
    if n >= 10 {
      assert d >= 2;
      DecimalLength(n / 10, d - 1);
    }
  }

  lemma {:induction false} TwentyDigits()
    ensures Ten(20) > USIZE_LIMIT
  {
    assert Ten(4) == 10_000;
    assert Ten(8) == 100_000_000;
    assert Ten(12) == 1_000_000_000_000;
    assert Ten(16) == 10_000_000_000_000_000;
  }

  lemma {:induction false} PairLength(key: Bytes, value: Option<nat>)
    requires |key| <= 10 && (value.Some? ==> value.value < USIZE_LIMIT)
    ensures |Terminated(Flat(Pair(key, value)))| <= 32
  {
    if value.Some? {
      TwentyDigits();
      DecimalLength(value.value, 20);
      FlatCons(key, Decimal(value.value), []);
      assert Pair(key, value) == [(key, Decimal(value.value))] + [];
    }
  }

  lemma {:induction false} FlatTerminatedAppend(a: Pairs, b: Pairs)
    ensures |Terminated(Flat(a + b))| == |Terminated(Flat(a))| + |Terminated(Flat(b))|
  {
    FlatAppend(a, b);
    TerminatedAppend(Flat(a), Flat(b));
  }

  /** An acknowledgement is short, whatever it acknowledges. */
  lemma {:induction false} AnswerLength(options: map<Bytes, Bytes>, size: Option<nat>)
    requires size.Some? ==> size.value < USIZE_LIMIT
    ensures |OackPacket(Answer(options, size))| <= 130
  {
    var tsize := if TSIZE in options then size else None;
    var a, b := Pair(TIMEOUT, FindTimeout(options)), Pair(BLKSIZE, FindBlksize(options));
    var c, d := Pair(TSIZE, tsize), Pair(WINDOW_SIZE, FindWindowSize(options));
    PairLength(TIMEOUT, FindTimeout(options));
    PairLength(BLKSIZE, FindBlksize(options));
    PairLength(TSIZE, tsize);
    PairLength(WINDOW_SIZE, FindWindowSize(options));
    FlatTerminatedAppend(a + b + c, d);
    FlatTerminatedAppend(a + b, c);
    FlatTerminatedAppend(a, b);
  }
}
