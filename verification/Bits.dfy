/**
 Powers of two, and the top bits of a fixed-width word.  A word of width `w` is a
 natural number below `Pow2(w)`; bit 0 is the most significant one.
 */
module Bits {
  type Byte = b: nat | b < 256

  function Pow2(n: nat): (p: nat)
    ensures p > 0
  {
    if n == 0 then 1 else 2 * Pow2(n - 1)
  }

  lemma {:induction false} Pow2Add(a: nat, b: nat)
    ensures Pow2(a + b) == Pow2(a) * Pow2(b)
    decreases b
  {
    if b == 0 {
    } else {
      Pow2Add(a, b - 1);
      assert Pow2(a + b) == 2 * Pow2(a + (b - 1));
    }
  }

  lemma {:induction false} Pow2Mono(a: nat, b: nat)
    requires a <= b
    ensures Pow2(a) <= Pow2(b)
    decreases b - a
  {
    if a == b {
    } else {
      Pow2Mono(a, b - 1);
    }
  }

  /** Dividing twice is dividing once by the product. */
  lemma DivDiv(x: nat, a: nat, b: nat)
    requires a > 0 && b > 0
    ensures a * b > 0
    ensures x / a / b == x / (a * b)
  {
    var q, r := x / a, x % a;
    QuotientIsNat(x, a);
    var q', r' := q / b, q % b;
    QuotientIsNat(q, b);
    NestedRemainder(a, b, r, r');
    assert x == a * q + r && q == b * q' + r';
    NestedQuotient(a, b, q', r');
    DivUnique(x, a * b, q', a * r' + r);
  }

  lemma NestedQuotient(a: nat, b: nat, q: nat, r: nat)
    ensures a * (b * q + r) == (a * b) * q + a * r
  {}

  lemma NestedRemainder(a: nat, b: nat, r: nat, s: nat)
    requires r < a && s < b
    ensures 0 <= a * s + r < a * b
  {
    MulMono(a, s + 1, b);
    assert a * (s + 1) == a * s + a;
  }

  lemma DivUnique(x: nat, d: nat, q: nat, r: nat)
    requires d > 0 && x == d * q + r && r < d
    ensures x / d == q && x % d == r
  {
    var q2, r2 := x / d, x % d;
    assert x == d * q2 + r2;
    if q > q2 {
      MulMono(d, q2 + 1, q);
      assert false;
    } else if q < q2 {
      MulMono(d, q + 1, q2);
      assert false;
    }
  }

  lemma MulMono(d: nat, a: nat, b: nat)
    requires a <= b
    ensures d * a <= d * b
  {}

  lemma QuotientIsNat(x: nat, d: nat)
    requires d > 0
    ensures x / d >= 0
  {}

  lemma DivPow2(x: nat, a: nat, b: nat)
    ensures x / Pow2(a) / Pow2(b) == x / Pow2(a + b)
  {
    Pow2Add(a, b);
    DivDiv(x, Pow2(a), Pow2(b));
  }

  /** The number formed by the `n` most significant bits of the `w`-bit word `x`. */
  function Top(x: nat, w: nat, n: nat): nat
    requires n <= w
  {
    QuotientIsNat(x, Pow2(w - n));
    x / Pow2(w - n)
  }

  /** Bit `i` of the `w`-bit word `x`, counted from the most significant end. */
  function Bit(x: nat, w: nat, i: nat): (b: nat)
    requires i < w
    ensures b < 2
  {
    (x / Pow2(w - 1 - i)) % 2
  }

  lemma TopStep(x: nat, w: nat, n: nat)
    requires n < w
    ensures Top(x, w, n + 1) == 2 * Top(x, w, n) + Bit(x, w, n)
  {
    DivPow2(x, w - 1 - n, 1);
    assert Pow2(1) == 2 * Pow2(0) == 2;
  }

  /** Two words agree on their first `n` bits exactly when they agree after dropping the others. */
  lemma {:induction false} AgreeIffTop(x: nat, y: nat, w: nat, n: nat)
    requires n <= w && x < Pow2(w) && y < Pow2(w)
    ensures (forall i | 0 <= i < n :: Bit(x, w, i) == Bit(y, w, i)) <==> Top(x, w, n) == Top(y, w, n)
  {
    if n == 0 {
      DivUnique(x, Pow2(w), 0, x);
      DivUnique(y, Pow2(w), 0, y);
    } else {
      AgreeIffTop(x, y, w, n - 1);
      TopStep(x, w, n - 1);
      TopStep(y, w, n - 1);
    }
  }

  /** Clearing all but the first `n` bits. */
  function Clear(x: nat, w: nat, n: nat): nat
    requires n <= w
  {
    Top(x, w, n) * Pow2(w - n)
  }

  lemma ClearFacts(x: nat, w: nat, n: nat)
    requires n <= w
    ensures Clear(x, w, n) <= x
    ensures Top(Clear(x, w, n), w, n) == Top(x, w, n)
    ensures Clear(Clear(x, w, n), w, n) == Clear(x, w, n)
  {
    var d := Pow2(w - n);
    DivUnique(Clear(x, w, n), d, x / d, 0);
  }
}
