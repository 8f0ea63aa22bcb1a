/** Which buffer of the window ring holds which block. */
module Slots {
  import opened Wire
  import opened Arithmetic

  /** The ring slot of block k: the 16-bit block number modulo the window length. */
  function Slot(k: nat, w: nat): (slot: nat)
    requires 1 <= w
    ensures slot < w
  {
    Wrap(k) % w
  }

  /** No two of the w consecutive blocks starting at block `first` share a slot. */
  ghost predicate SlotsDistinct(first: nat, w: nat)
    requires 1 <= w
  {
    forall i, j :: first <= i < j < first + w ==> Slot(i, w) != Slot(j, w)
  }

  /** The 16-bit number does not wrap within the w blocks starting at `first`. */
  predicate SpanUnwrapped(first: nat, w: nat) {
    Wrap(first) + w <= WORDS
  }

  /** Where the ring is sound, a block's slot is its unbounded number modulo the window length. */
  lemma {:induction false} SlotIsPlainModulo(k: nat, w: nat)
    requires 1 <= w
    requires k < WORDS || WORDS % w == 0
    ensures Slot(k, w) == k % w
  {
    if k >= WORDS {
      WrapIsRemainder(k);
      var c, q := WORDS / w, k / WORDS;
      assert WORDS == c * w;
      assert k == Wrap(k) + q * WORDS;
      assert q * (c * w) == (q * c) * w;
      RemainderShift(Wrap(k), q * c, w);
    }
  }

  /** The number does not wrap between two blocks, or the wrap does not matter to the slots. */
  predicate SameLap(low: nat, high: nat, w: nat)
    requires 1 <= w
  {
    high < WORDS || WORDS % w == 0 || low / WORDS == high / WORDS
  }

  lemma {:induction false} LapDistance(i: nat, j: nat, w: nat)
    requires 1 <= w && i < j < i + w && i / WORDS == j / WORDS
    ensures Slot(i, w) != Slot(j, w)
  {
    WrapIsRemainder(i);
    WrapIsRemainder(j);
    if Slot(i, w) == Slot(j, w) {
      SameRemainder(Wrap(i), Wrap(j), w);
    }
  }

  /** Two blocks less than a window apart and in the same lap never share a slot. */
  lemma {:induction false} NearBlocksApart(i: nat, j: nat, w: nat)
    requires 1 <= w && i < j < i + w && SameLap(i, j, w)
    ensures Slot(i, w) != Slot(j, w)
  {
    if j < WORDS || WORDS % w == 0 {
      SlotIsPlainModulo(i, w);
      SlotIsPlainModulo(j, w);
      if i % w == j % w {
        SameRemainder(i, j, w);
      }
    } else {
      LapDistance(i, j, w);
    }
  }

  /** Blocks less than a window apart that share a slot have a wrap between them. */
  lemma {:induction false} ClashIsAcrossWrap(i: nat, j: nat, w: nat)
    requires 1 <= w && i < j < i + w && Slot(i, w) == Slot(j, w)
    ensures Lap(i) < Lap(j)
  {
    LapGrows(i, j);
    LapIsQuotient(i);
    LapIsQuotient(j);
    if SameLap(i, j, w) {
      NearBlocksApart(i, j, w);
    }
  }

  lemma {:induction false} UnwrappedSpanApart(first: nat, w: nat, i: nat, j: nat)
    requires 1 <= w && SpanUnwrapped(first, w)
    requires first <= i < j < first + w
    ensures Slot(i, w) != Slot(j, w)
  {
    WrappedSum(first, i - first);
    WrappedSum(first, j - first);
    if Slot(i, w) == Slot(j, w) {
      SameRemainder(Wrap(i), Wrap(j), w);
    }
  }

  /** A block before the wrap that shares slot 0 with the first block after it. */
  lemma {:induction false} CollidesWithZero(wrapped: nat, w: nat, q: nat)
    requires 1 <= w < WORDS && q == WORDS % w != 0
    requires wrapped >= WORDS && Wrap(wrapped) == 0
    ensures Slot(wrapped - q, w) == Slot(wrapped, w) == 0
  {
    WrappedSum(wrapped - q, q);
    RemainderShift(0, WORDS / w, w);
    assert WORDS - q == (WORDS / w) * w;
  }

  /** The first block of a span that shares its slot with a block after the wrap. */
  lemma {:induction false} CollidesWithFirst(first: nat, w: nat, q: nat)
    requires 1 <= w < WORDS && q == WORDS % w
    requires q > WORDS - Wrap(first)
    ensures Slot(first, w) == Slot(first + q, w)
  {
    var r, extra := Wrap(first), q - (WORDS - Wrap(first));
    WrappedSum(first, q);
    assert r == extra + (WORDS / w) * w;
    RemainderShift(extra, WORDS / w, w);
  }

  /** A span that wraps, over a window length that does not divide 65536, has a collision. */
  lemma {:induction false} CrossingSpanCollides(first: nat, w: nat) returns (i: nat, j: nat)
    requires 1 <= w < WORDS && !SpanUnwrapped(first, w) && WORDS % w != 0
    ensures first <= i < j < first + w && Slot(i, w) == Slot(j, w)
  {
    var q := WORDS % w;
    var before := WORDS - Wrap(first);  // blocks of the span ahead of the wrap
    if q <= before {
      i, j := first + before - q, first + before;
      WrappedSum(first, before);
      CollidesWithZero(j, w, q);
    } else {
      i, j := first, first + q;
      CollidesWithFirst(first, w, q);
    }
  }

  /** Exactly when w consecutive blocks get w different buffers. */
  lemma {:induction false} SlotsDistinctExactly(first: nat, w: nat)
    requires 1 <= w < WORDS
    ensures SlotsDistinct(first, w) <==> SpanUnwrapped(first, w) || WORDS % w == 0
  {
    if SpanUnwrapped(first, w) || WORDS % w == 0 {
      forall i, j | first <= i < j < first + w ensures Slot(i, w) != Slot(j, w) {
        if SpanUnwrapped(first, w) {
          UnwrappedSpanApart(first, w, i, j);
        } else {
          NearBlocksApart(i, j, w);
        }
      }
    } else {
      var i, j := CrossingSpanCollides(first, w);
    }
  }
}
