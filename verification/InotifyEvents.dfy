/** Splitting what is read from an inotify descriptor into events. */
module InotifyEvents {
  import opened Wire
  import opened Cursor

  const HEADER_SIZE: nat := 16

  /** A number in little-endian bytes. */
  function FromLe(b: Bytes): nat {
    if b == [] then 0 else b[0] + 256 * FromLe(b[1..])
  }

  function ToLe(n: nat, width: nat): (b: Bytes)
    ensures |b| == width
  {
    if width == 0 then [] else [n % 256] + ToLe(n / 256, width - 1)
  }

  function Range(width: nat): nat {
    if width == 0 then 1 else 256 * Range(width - 1)
  }

  lemma {:induction false} LeReadsBack(n: nat, width: nat)
    requires n < Range(width)
    ensures FromLe(ToLe(n, width)) == n
    decreases width
  {
    if width > 0 {
      LeReadsBack(n / 256, width - 1);
      assert ToLe(n, width)[1..] == ToLe(n / 256, width - 1);
    }
  }

  lemma {:induction false} LeWritesBack(b: Bytes)
    ensures ToLe(FromLe(b), |b|) == b && FromLe(b) < Range(|b|)
    decreases |b|
  {
    if b != [] {
      LeWritesBack(b[1..]);
      var n := FromLe(b);
      assert n % 256 == b[0] && n / 256 == FromLe(b[1..]);
    }
  }

  datatype InotifyEvent = InotifyEvent(mask: nat, fileName: Option<Bytes>)

  /** A parsed event and its size; too few bytes; or a name without NUL, on which the parser panics. */
  datatype Parse = Parsed(event: InotifyEvent, size: nat) | NotEnoughBytes | NoTerminator

  function LengthField(d: Bytes): nat
    requires |d| >= HEADER_SIZE
  {
    FromLe(d[12..16])
  }

  /** Less than a whole record. */
  predicate Incomplete(d: Bytes) {
    |d| < HEADER_SIZE || |d| < HEADER_SIZE + LengthField(d)
  }

  function EventFrom(d: Bytes): (p: Parse)
    ensures p.NotEnoughBytes? <==> Incomplete(d)
    ensures p.Parsed? ==> p.size == HEADER_SIZE + LengthField(d) <= |d|
  {
    if |d| < HEADER_SIZE then NotEnoughBytes
    else
      var mask, size := FromLe(d[4..8]), HEADER_SIZE + LengthField(d);
      if LengthField(d) == 0 then Parsed(InotifyEvent(mask, None), size)
      else if |d| < size then NotEnoughBytes
      else
        var name := d[HEADER_SIZE..size];
        match FindNul(name, 0)
        case None => NoTerminator
        case Some(nul) => Parsed(InotifyEvent(mask, Some(name[..nul])), size)
  }

  /** The events at the front of the bytes, or none at all if the parser panics. */
  function Events(d: Bytes): Option<seq<InotifyEvent>>
    decreases |d|
  {
    match EventFrom(d)
    case NotEnoughBytes => Some([])
    case NoTerminator => None
    case Parsed(event, size) =>
      match Events(d[size..])
      case None => None
      case Some(rest) => Some([event] + rest)
  }

  /** The events found so far and those still to be found. */
  function Extended(found: seq<InotifyEvent>, rest: Option<seq<InotifyEvent>>): Option<seq<InotifyEvent>> {
    match rest
    case None => None
    case Some(more) => Some(found + more)
  }

  lemma {:induction false} OneMoreEvent(found: seq<InotifyEvent>, d: Bytes)
    ensures var p := EventFrom(d);
            && (p.NotEnoughBytes? ==> Extended(found, Events(d)) == Some(found))
            && (p.NoTerminator? ==> Extended(found, Events(d)) == None)
            && (p.Parsed? ==> Extended(found, Events(d)) == Extended(found + [p.event], Events(d[p.size..])))
  {
    var p := EventFrom(d);
    if p.NotEnoughBytes? {
      assert found + [] == found;
    } else if p.Parsed? && Events(d[p.size..]).Some? {
      var more := Events(d[p.size..]).value;
      assert found + ([p.event] + more) == (found + [p.event]) + more;
    }
  }

  method ParseEvents(buffer: Bytes, bytesRead: nat) returns (r: Option<seq<InotifyEvent>>)
    requires bytesRead <= |buffer|
    ensures r == Events(buffer[..bytesRead])
  {
    var result: seq<InotifyEvent> := [];
    var offset := 0;
    ghost var all := Events(buffer[..bytesRead]);
    assert buffer[0..bytesRead] == buffer[..bytesRead];
    assert Extended([], all) == all by {
      if all.Some? {
        assert [] + all.value == all.value;
      }
    }
    while true
      invariant offset <= bytesRead
      invariant Extended(result, Events(buffer[offset..bytesRead])) == all
      decreases bytesRead - offset
    {
      var d := buffer[offset..bytesRead];
      OneMoreEvent(result, d);
      match EventFrom(d)
      case NotEnoughBytes => return Some(result);
      case NoTerminator => return None;
      case Parsed(event, size) =>
        assert d[size..] == buffer[offset + size..bytesRead];
        offset := offset + size;
        result := result + [event];
    }
  }

  // ---------------------------------------------------------------------------------------
  // Records as the kernel writes them

  /** A record: three words of 32 bits, and a name padded with NULs, possibly empty. */
  datatype Record = Record(wd: nat, mask: nat, cookie: nat, name: Bytes)

  predicate IsWord(n: nat) {
    n < Range(4)
  }

  predicate WellFormed(r: Record) {
    && IsWord(r.wd) && IsWord(r.mask) && IsWord(r.cookie) && IsWord(|r.name|)
    && (r.name != [] ==> 0 in r.name)
  }

  function RecordBytes(r: Record): Bytes {
    ToLe(r.wd, 4) + ToLe(r.mask, 4) + ToLe(r.cookie, 4) + ToLe(|r.name|, 4) + r.name
  }

  function Stream(records: seq<Record>): Bytes {
    if records == [] then [] else RecordBytes(records[0]) + Stream(records[1..])
  }

  /** The event of a record: its mask, and its name up to the first NUL. */
  function EventOf(r: Record): InotifyEvent {
    InotifyEvent(r.mask, if r.name == [] then None else
                           match FindNul(r.name, 0)
                           case None => None
                           case Some(nul) => Some(r.name[..nul]))
  }

  function EventsOf(records: seq<Record>): seq<InotifyEvent> {
    if records == [] then [] else [EventOf(records[0])] + EventsOf(records[1..])
  }

  predicate AllWellFormed(records: seq<Record>) {
    forall i :: 0 <= i < |records| ==> WellFormed(records[i])
  }

  /** The event has the mask of its record, and its name without the padding, if it has one. */
  lemma {:induction false} EventNamed(r: Record)
    requires WellFormed(r)
    ensures EventOf(r).mask == r.mask && (EventOf(r).fileName.None? <==> r.name == [])
    ensures r.name != [] ==> 0 !in EventOf(r).fileName.value && EventOf(r).fileName.value + [0] <= r.name
  {
    if r.name != [] {
      assert r.name[0..] == r.name;
      var nul := FindNul(r.name, 0).value;
      assert r.name[0..nul] == r.name[..nul];
      assert r.name[..nul] + [0] == r.name[..nul + 1];
    }
  }

  /** A record byte by byte: four words of four bytes each, the lowest byte first, and the name. */
  lemma {:induction false} RecordLaidOut(r: Record)
    requires WellFormed(r)
    ensures var d := RecordBytes(r);
            && |d| == 16 + |r.name|
            && Word(d[0], d[1], d[2], d[3]) == r.wd
            && Word(d[4], d[5], d[6], d[7]) == r.mask
            && Word(d[8], d[9], d[10], d[11]) == r.cookie
            && Word(d[12], d[13], d[14], d[15]) == |r.name|
            && d[16..] == r.name
  {
    var d := RecordBytes(r);
    WordReadsBack(r.wd, d[0..4]);
    WordReadsBack(r.mask, d[4..8]);
    WordReadsBack(r.cookie, d[8..12]);
    WordReadsBack(|r.name|, d[12..16]);
  }

  function Word(a: int, b: int, c: int, d: int): int {
    a + 256 * b + 65536 * c + 16777216 * d
  }

  lemma {:induction false} WordReadsBack(n: nat, b: Bytes)
    requires IsWord(n) && b == ToLe(n, 4)
    ensures Word(b[0], b[1], b[2], b[3]) == n
  {
    LeReadsBack(n, 4);
    assert b[1..][1..][1..][1..] == [];
    assert FromLe(b[1..][1..][1..]) == b[3];
    assert FromLe(b[1..][1..]) == b[2] + 256 * FromLe(b[1..][1..][1..]);
    assert FromLe(b[1..]) == b[1] + 256 * FromLe(b[1..][1..]);
  }

  lemma {:induction false} FieldsOfRecord(r: Record, rest: Bytes)
    requires WellFormed(r)
    ensures var d := RecordBytes(r) + rest;
            && |d| >= HEADER_SIZE
            && FromLe(d[4..8]) == r.mask
            && LengthField(d) == |r.name|
            && d[HEADER_SIZE..HEADER_SIZE + |r.name|] == r.name
            && d[HEADER_SIZE + |r.name|..] == rest
  {
    var d := RecordBytes(r) + rest;
    assert d[4..8] == ToLe(r.mask, 4);
    assert d[12..16] == ToLe(|r.name|, 4);
    LeReadsBack(r.mask, 4);
    LeReadsBack(|r.name|, 4);
  }

  lemma {:induction false} RecordParses(r: Record, rest: Bytes)
    requires WellFormed(r)
    ensures EventFrom(RecordBytes(r) + rest) == Parsed(EventOf(r), HEADER_SIZE + |r.name|)
    ensures (RecordBytes(r) + rest)[HEADER_SIZE + |r.name|..] == rest
  {
    FieldsOfRecord(r, rest);
    if r.name != [] {
      var i :| 0 <= i < |r.name| && r.name[i] == 0;
      assert r.name[0..] == r.name;
    }
  }

  /** Records in sequence, and less than a record after them, give the events of the records. */
  lemma {:induction false} StreamParses(records: seq<Record>, tail: Bytes)
    requires AllWellFormed(records) && Incomplete(tail)
    ensures Events(Stream(records) + tail) == Some(EventsOf(records))
    decreases |records|
  {
    if records == [] {
      assert Stream(records) + tail == tail;
    } else {
      var r, rest := records[0], records[1..];
      assert Stream(records) + tail == RecordBytes(r) + (Stream(rest) + tail);
      RecordParses(r, Stream(rest) + tail);
      StreamParses(rest, tail);
    }
  }

  /** A header is the words that are read from it. */
  lemma {:induction false} HeaderWritesBack(d: Bytes)
    requires |d| >= HEADER_SIZE
    ensures ToLe(FromLe(d[0..4]), 4) + ToLe(FromLe(d[4..8]), 4) + ToLe(FromLe(d[8..12]), 4) + ToLe(FromLe(d[12..16]), 4)
            == d[..HEADER_SIZE]
    ensures IsWord(FromLe(d[0..4])) && IsWord(FromLe(d[4..8])) && IsWord(FromLe(d[8..12])) && IsWord(FromLe(d[12..16]))
  {
    LeWritesBack(d[0..4]);
    LeWritesBack(d[4..8]);
    LeWritesBack(d[8..12]);
    LeWritesBack(d[12..16]);
    assert d[0..4] + d[4..8] + d[8..12] + d[12..16] == d[..HEADER_SIZE];
  }

  /** What was parsed is a header and a name, and the event is that of the mask and the name. */
  lemma {:induction false} ParsedMeans(d: Bytes)
    requires EventFrom(d).Parsed?
    ensures var size := EventFrom(d).size;
            && |d| >= HEADER_SIZE
            && size - HEADER_SIZE == LengthField(d)
            && (size > HEADER_SIZE ==> 0 in d[HEADER_SIZE..size])
            && EventFrom(d).event == EventOf(Record(0, FromLe(d[4..8]), 0, d[HEADER_SIZE..size]))
  {
    var size := EventFrom(d).size;
    var name := d[HEADER_SIZE..size];
    if name != [] {
      var nul := FindNul(name, 0).value;
      assert name[nul] == 0;
    }
  }

  /** A record that was parsed is one that the bytes begin with. */
  lemma {:induction false} ParsedRecord(d: Bytes) returns (r: Record)
    requires EventFrom(d).Parsed?
    ensures WellFormed(r) && EventFrom(d).event == EventOf(r)
    ensures d == RecordBytes(r) + d[EventFrom(d).size..]
  {
    var size := EventFrom(d).size;
    ParsedMeans(d);
    HeaderWritesBack(d);
    r := Record(FromLe(d[0..4]), FromLe(d[4..8]), FromLe(d[8..12]), d[HEADER_SIZE..size]);
    assert |r.name| == LengthField(d);
    assert RecordBytes(r) == d[..HEADER_SIZE] + d[HEADER_SIZE..size];
  }

  lemma {:induction false} StreamCons(r: Record, more: seq<Record>, tail: Bytes)
    requires WellFormed(r) && AllWellFormed(more)
    ensures Stream([r] + more) + tail == RecordBytes(r) + (Stream(more) + tail)
    ensures EventsOf([r] + more) == [EventOf(r)] + EventsOf(more)
    ensures AllWellFormed([r] + more)
  {
    assert ([r] + more)[1..] == more;
  }

  lemma {:induction false} ParsedStream(d: Bytes) returns (records: seq<Record>, tail: Bytes)
    requires Events(d).Some?
    ensures AllWellFormed(records) && Incomplete(tail)
    ensures d == Stream(records) + tail && Events(d) == Some(EventsOf(records))
    decreases |d|
  {
    if EventFrom(d).NotEnoughBytes? {
      records, tail := [], d;
    } else {
      var rest := d[EventFrom(d).size..];
      var r := ParsedRecord(d);
      var more;
      more, tail := ParsedStream(rest);
      records := [r] + more;
      StreamCons(r, more, tail);
    }
  }

  ghost predicate Splits(d: Bytes, records: seq<Record>, tail: Bytes) {
    AllWellFormed(records) && Incomplete(tail) && d == Stream(records) + tail
  }

  /** The events are exactly those of the records that the bytes consist of, in order. */
  lemma {:induction false} EventsExactly(d: Bytes, events: seq<InotifyEvent>)
    ensures Events(d) == Some(events) <==> exists records, tail :: Splits(d, records, tail) && events == EventsOf(records)
  {
    if Events(d) == Some(events) {
      var records, tail := ParsedStream(d);
      assert Splits(d, records, tail);
    }
    forall records, tail | Splits(d, records, tail) && events == EventsOf(records)
      ensures Events(d) == Some(events)
    {
      StreamParses(records, tail);
    }
  }
}
