/** Bytes, 16-bit words and the wrapping arithmetic the protocol code does on them. */
module Wire {

  type byte = x: int | 0 <= x < 256

  /** The range of the 16-bit unsigned words that carry block numbers and opcodes. */
  const WORDS := 0x1_0000

  type u16 = x: int | 0 <= x < WORDS

  type Bytes = seq<byte>

  /** The 16-bit word a count is reduced to. */
  function Wrap(n: nat): u16 {
    if n < WORDS then n else Wrap(n - WORDS)
  }

  /** How often a count has wrapped. */
  function Lap(n: nat): nat {
    if n < WORDS then 0 else 1 + Lap(n - WORDS)
  }

  function WrappingAdd(a: u16, b: u16): u16 {
    if a + b < WORDS then a + b else a + b - WORDS
  }

  function WrappingSub(a: u16, b: u16): u16 {
    if b <= a then a - b else a - b + WORDS
  }

  function Hi(x: u16): byte {
    x / 256
  }

  function Lo(x: u16): byte {
    x % 256
  }

  function FromBe(hi: byte, lo: byte): u16 {
    256 * hi + lo
  }

  function Min(a: int, b: int): int {
    if a <= b then a else b
  }

  function Max(a: int, b: int): int {
    if a <= b then b else a
  }

  datatype Option<+T> = None | Some(value: T)

  datatype Result<+T, +E> = Ok(value: T) | Err(error: E)

  lemma {:induction false} WrapIsRemainder(n: nat)
    ensures Wrap(n) == n % WORDS
  {
    if n >= WORDS {
      WrapIsRemainder(n - WORDS);
    }
  }

  lemma {:induction false} LapIsQuotient(n: nat)
    ensures Lap(n) == n / WORDS
  {
    if n >= WORDS {
      LapIsQuotient(n - WORDS);
    }
  }

  lemma {:induction false} LapGrows(low: nat, high: nat)
    requires low <= high
    ensures Lap(low) <= Lap(high)
  {
    LapIsQuotient(low);
    LapIsQuotient(high);
  }

  lemma {:induction false} WrappedSum(a: nat, b: u16)
    ensures WrappingAdd(Wrap(a), b) == Wrap(a + b)
  {
    if a >= WORDS {
      WrappedSum(a - WORDS, b);
    }
  }

  /** Counters at most 65535 apart keep their distance when both are reduced to 16 bits. */
  lemma {:induction false} WrappedDistance(low: nat, high: nat)
    requires low <= high < low + WORDS
    ensures WrappingSub(Wrap(high), Wrap(low)) == high - low
  {
    if low >= WORDS {
      WrappedDistance(low - WORDS, high - WORDS);
    }
  }

  /** The distance back from a word to a count leads to a count that reads as that word. */
  lemma {:induction false} WrappedReturn(low: nat, x: u16)
    ensures Wrap(low + WrappingSub(x, Wrap(low))) == x
  {
    if low >= WORDS {
      WrappedReturn(low - WORDS, x);
    }
  }

  /** Reduced to 16 bits, a later count still compares as later unless a wrap lies between. */
  lemma {:induction false} WrappedOrder(low: nat, high: nat)
    requires low <= high < low + WORDS
    ensures Wrap(high) >= Wrap(low) <==> high / WORDS == low / WORDS
  {
    WrapIsRemainder(low);
    WrapIsRemainder(high);
  }
}
