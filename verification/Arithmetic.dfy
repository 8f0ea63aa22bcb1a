/** Facts about multiplication, division and remainder that the block and slot proofs rest on. */
module Arithmetic {

  lemma {:induction false} MulMonotone(a: nat, b: nat, c: nat)
    requires a <= b
    ensures a * c <= b * c
  {
  }

  lemma {:induction false} WholeSteps(w: nat, d: int)
    ensures d >= 1 ==> w * d >= w
    ensures d <= 0 ==> w * d <= 0
    ensures d <= -1 ==> w * d + w <= 0
  {
    if d >= 1 {
      assert w * d == w + w * (d - 1);
    } else if d <= -1 {
      assert w * d + w == w * (d + 1);
    }
  }

  /** Quotient and remainder are the only pair with the remainder in range. */
  lemma {:induction false} DivisionUnique(n: int, q: int, r: nat, w: nat)
    requires 1 <= w && n == w * q + r && r < w
    ensures n / w == q && n % w == r
  {
    var d := n / w - q;
    assert w * d == r - n % w by {
      assert n == w * (n / w) + n % w;
      assert w * (n / w) - w * q == w * d;
    }
    WholeSteps(w, d);
  }

  lemma {:induction false} DivisionStep(n: int, w: nat)
    requires 1 <= w
    ensures (n - w) / w == n / w - 1 && (n - w) % w == n % w
  {
    assert n - w == w * (n / w - 1) + n % w;
    DivisionUnique(n - w, n / w - 1, n % w, w);
  }

  lemma {:induction false} SameRemainder(i: nat, j: nat, w: nat)
    requires 1 <= w && i < j && i % w == j % w
    ensures w <= j - i
  {
    var d := j / w - i / w;
    assert j - i == w * d by {
      assert i == w * (i / w) + i % w && j == w * (j / w) + j % w;
    }
    WholeSteps(w, d);
  }

  lemma {:induction false} RemainderShift(r: nat, k: int, w: nat)
    requires 1 <= w && 0 <= r + k * w
    ensures (r + k * w) % w == r % w
  {
    var q := r / w;
    assert r == w * q + r % w;
    assert r + k * w == w * (q + k) + r % w;
    DivisionUnique(r + k * w, q + k, r % w, w);
  }
}
