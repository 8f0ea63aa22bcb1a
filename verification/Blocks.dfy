/** How a file is cut into the numbered DATA packets of one transfer. */
module Blocks {
  import opened Wire
  import opened Arithmetic

  const DATA: u16 := 3

  /** One transfer: the file served and the negotiated block and window sizes. */
  datatype Transfer = Transfer(file: Bytes, blockSize: nat, window: nat) {
    predicate Valid() {
      && 1 <= blockSize < WORDS
      && 1 <= window < WORDS
    }
  }

  /** The number of packets for a file of this size: full ones, then one that falls short. */
  function Packets(size: nat, blockSize: nat): (n: nat)
    requires 1 <= blockSize
    ensures 1 <= n
  {
    if size < blockSize then 1 else 1 + Packets(size - blockSize, blockSize)
  }

  function BlockCount(t: Transfer): nat
    requires t.Valid()
  {
    Packets(|t.file|, t.blockSize)
  }

  /** The file offset reached once the first k blocks have been read. */
  function EndOf(t: Transfer, k: nat): (end: nat)
    ensures end <= |t.file|
  {
    if k == 0 then 0 else Min(EndOf(t, k - 1) + t.blockSize, |t.file|)
  }

  function Header(x: u16): Bytes {
    [0, DATA, Hi(x), Lo(x)]
  }

  function Payload(t: Transfer, k: nat): Bytes
    requires 1 <= k
  {
    t.file[EndOf(t, k - 1)..EndOf(t, k)]
  }

  /** The datagram that carries block k; only the low 16 bits of k travel in it. */
  function DataPacket(t: Transfer, k: nat): Bytes
    requires 1 <= k
  {
    Header(Wrap(k)) + Payload(t, k)
  }

  /** A DATA packet as it travels: 00 03, the number modulo 65536 in two bytes, and the payload. */
  lemma {:induction false} PacketLaidOut(t: Transfer, k: nat)
    requires 1 <= k
    ensures var x, p := k % 65536, DataPacket(t, k);
            |p| == 4 + |Payload(t, k)| && p[0] == 0 && p[1] == 3 && p[2] == x / 256 && p[3] == x % 256 && p[4..] == Payload(t, k)
  {
    WrapIsRemainder(k);
  }

  /** Packets with different numbers are different. */
  lemma {:induction false} NumbersDiffer(t: Transfer, i: nat, j: nat)
    requires 1 <= i && 1 <= j && Wrap(i) != Wrap(j)
    ensures DataPacket(t, i) != DataPacket(t, j)
  {
    var x, y := Header(Wrap(i)), Header(Wrap(j));
    assert DataPacket(t, i)[..4] == x && DataPacket(t, j)[..4] == y;
    assert x[2] != y[2] || x[3] != y[3];
  }

  lemma {:induction false} PacketsAre(size: nat, blockSize: nat)
    requires 1 <= blockSize
    ensures Packets(size, blockSize) == size / blockSize + 1
  {
    if size >= blockSize {
      PacketsAre(size - blockSize, blockSize);
      DivisionStep(size, blockSize);
    }
  }

  /** What is left after k blocks still takes the rest of the packets. */
  lemma {:induction false} LeftAfter(t: Transfer, k: nat)
    requires t.Valid() && k < BlockCount(t)
    ensures Packets(|t.file| - EndOf(t, k), t.blockSize) == BlockCount(t) - k
  {
    if k > 0 {
      LeftAfter(t, k - 1);
    }
  }

  lemma {:induction false} RemainderAfter(t: Transfer, k: nat)
    requires t.Valid() && k < BlockCount(t)
    ensures (|t.file| - EndOf(t, k)) % t.blockSize == |t.file| % t.blockSize
  {
    if k > 0 {
      RemainderAfter(t, k - 1);
      LeftAfter(t, k - 1);
      DivisionStep(|t.file| - EndOf(t, k - 1), t.blockSize);
    }
  }

  /** The block read at offset EndOf(k - 1) falls short exactly if it is the last. */
  lemma {:induction false} ShortExactlyLast(t: Transfer, k: nat)
    requires t.Valid() && 1 <= k <= BlockCount(t)
    ensures |Payload(t, k)| < t.blockSize <==> k == BlockCount(t)
    ensures k == BlockCount(t) ==> EndOf(t, k) == |t.file|
  {
    LeftAfter(t, k - 1);
  }

  /** Every block but the last is full, and the last holds the remainder, possibly nothing. */
  lemma {:induction false} PayloadLength(t: Transfer, k: nat)
    requires t.Valid() && 1 <= k <= BlockCount(t)
    ensures k < BlockCount(t) ==> |Payload(t, k)| == t.blockSize
    ensures k == BlockCount(t) ==> |Payload(t, k)| == |t.file| % t.blockSize
  {
    ShortExactlyLast(t, k);
    if k == BlockCount(t) {
      RemainderAfter(t, k - 1);
      DivisionUnique(|t.file| - EndOf(t, k - 1), 0, |t.file| - EndOf(t, k - 1), t.blockSize);
    }
  }

  /** The first k payloads, one after another. */
  function Joined(t: Transfer, k: nat): Bytes {
    if k == 0 then [] else Joined(t, k - 1) + Payload(t, k)
  }

  /** Reassembling blocks 1 to k in order gives back exactly that much of the file. */
  lemma {:induction false} JoinedIsPrefix(t: Transfer, k: nat)
    ensures Joined(t, k) == t.file[..EndOf(t, k)]
  {
    if k > 0 {
      JoinedIsPrefix(t, k - 1);
    }
  }
}
