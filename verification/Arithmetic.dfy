/** Powers of two, and multiples of a number. */
module Arithmetic {

  function Pow2(n: nat): (p: nat)
    ensures p > 0
  {
    if n == 0 then 1 else 2 * Pow2(n - 1)
  }

  lemma {:induction false} Pow2Add(a: nat, b: nat)
    ensures Pow2(a + b) == Pow2(a) * Pow2(b)
  {
    if a > 0 {
      Pow2Add(a - 1, b);
      DoubleProduct(Pow2(a - 1), Pow2(b));
    }
  }

  lemma DoubleProduct(x: nat, y: nat)
    ensures 2 * (x * y) == (2 * x) * y
  {
  }

  lemma Pow2Monotone(a: nat, b: nat)
    requires a <= b
    ensures Pow2(a) <= Pow2(b) && Pow2(b) % Pow2(a) == 0
  {
    Pow2Add(b - a, a);
    ScaleUp(1, Pow2(b - a), Pow2(a));
    Remainder(Pow2(b), Pow2(a), Pow2(b - a), 0);
  }

  lemma ScaleUp(i: int, j: int, a: nat)
    requires i <= j
    ensures i * a <= j * a
  {
    assert j * a == i * a + (j - i) * a;
  }

  /** A quotient and remainder that fit are the only ones. */
  lemma Remainder(x: nat, a: nat, q: int, r: nat)
    requires x == q * a + r && r < a
    ensures x % a == r && x / a == q
  {
    var d := x / a - q;
    assert d * a == r - x % a;
    if d >= 1 { ScaleUp(1, d, a); }
    if d <= -1 { ScaleUp(d, -1, a); }
  }

  lemma NextMultiple(a: nat, at: nat, w: nat)
    requires a > 0 && at % a == 0 && w % a == 0 && at < w
    ensures at + a <= w
  {
    var i, j := at / a, w / a;
    assert at == i * a && w == j * a;
    if i < j {
      ScaleUp(i + 1, j, a);
      assert (i + 1) * a == at + a;
    } else {
      ScaleUp(j, i, a);
    }
  }

  lemma AfterMultiple(a: nat, at: nat)
    requires a > 0 && at % a == 0
    ensures (at + a) % a == 0
  {
    assert at == (at / a) * a;
    assert (at / a + 1) * a == (at / a) * a + a;
    Remainder(at + a, a, at / a + 1, 0);
  }

  /** Rounding `start` up. */
  lemma FirstMultiple(a: nat, start: nat, w: nat)
    requires a > 0 && w % a == 0 && start <= w
    ensures start % a == 0 || start - start % a + a <= w
  {
    var r := start - start % a;
    assert r == (start / a) * a;
    Remainder(r, a, start / a, 0);
    if start % a != 0 {
      NextMultiple(a, r, w);
    }
  }

  lemma RoundedUp(a: nat, start: nat)
    requires a > 0
    ensures (start - start % a + a) % a == 0
  {
    var r := start - start % a;
    assert r == (start / a) * a;
    Remainder(r, a, start / a, 0);
    AfterMultiple(a, r);
  }
}
