/**
 The bit operations of C on non-negative integers, digit by binary digit.
 */
module Bits {
  function Pow2(k: nat): (r: nat)
    ensures r > 0
  {
    if k == 0 then 1 else 2 * Pow2(k - 1)
  }

  // x & y
  function And(x: nat, y: nat): nat {
    if x == 0 then 0 else 2 * And(x / 2, y / 2) + if x % 2 == 1 && y % 2 == 1 then 1 else 0
  }

  // x | y
  function Or(x: nat, y: nat): nat {
    if x == 0 then y else 2 * Or(x / 2, y / 2) + if x % 2 == 1 || y % 2 == 1 then 1 else 0
  }

  // x << k
  function Shl(x: nat, k: nat): nat {
    x * Pow2(k)
  }

  // x >> k
  function Shr(x: nat, k: nat): nat {
    QuotientNat(x, Pow2(k));
    x / Pow2(k)
  }

  lemma QuotientNat(x: nat, p: nat)
    requires p > 0
    ensures x / p >= 0
  {
    if x / p < 0 {
      Product(p, x / p);
    }
  }

  lemma HalfMod(x: nat, p: nat)
    requires p > 0
    ensures x % (2 * p) == 2 * (x / 2 % p) + x % 2
  {
    var h := x / 2;
    assert h == p * (h / p) + h % p;
    var q, r := h / p, 2 * (h % p) + x % 2;
    assert x == 2 * p * q + r by {
      assert 2 * p * q == 2 * (p * q);
    }
    Remainder(x, 2 * p, q, r);
  }

  lemma Remainder(x: int, m: int, q: int, r: int)
    requires x == m * q + r && 0 <= r < m
    ensures x % m == r && x / m == q
  {
    SameQuotient(m, q, r, x / m, x % m);
  }

  lemma SameQuotient(m: int, q: int, r: int, q': int, r': int)
    requires m * q + r == m * q' + r' && 0 <= r < m && 0 <= r' < m
    ensures q == q' && r == r'
  {
    Product(m, q' - q);
    assert m * (q' - q) == m * q' - m * q;
  }

  lemma Product(m: int, a: int)
    requires m > 0
    ensures (a >= 1 ==> m * a >= m) && (a <= -1 ==> m * a <= -m)
  {
  }

  // And-ing with 2^k - 1 keeps the low k bits.
  lemma {:induction false} AndLow(x: nat, k: nat)
    ensures And(x, Pow2(k) - 1) == x % Pow2(k)
  {
    if k == 0 {
      AndZero(x);
    } else {
      var p := Pow2(k - 1);
      assert Pow2(k) == 2 * p;
      AndLow(x / 2, k - 1);
      AndStep(x, 2 * p - 1, p - 1, 1);
      HalfMod(x, p);
      assert And(x, 2 * p - 1) == x % (2 * p);
    }
  }

  // One binary digit.
  lemma AndStep(x: nat, y: nat, half: nat, bit: nat)
    requires y == 2 * half + bit && bit < 2
    ensures And(x, y) == 2 * And(x / 2, half) + if bit == 1 then x % 2 else 0
  {
    assert y / 2 == half && y % 2 == bit;
  }

  lemma {:induction false} AndZero(x: nat)
    ensures And(x, 0) == 0
  {
    if x > 0 { AndZero(x / 2); }
  }

  // And-ing a number of `w` bits with all of them but the low `k` rounds down to a multiple of 2^k.
  lemma {:induction false} AndHigh(x: nat, k: nat, w: nat)
    requires x < Pow2(w) && k <= w
    ensures Pow2(w) >= Pow2(k) && And(x, Pow2(w) - Pow2(k)) == x - x % Pow2(k)
  {
    if k == 0 {
      AndAll(x, w);
    } else {
      var p, q := Pow2(w - 1), Pow2(k - 1);
      AndHigh(x / 2, k - 1, w - 1);
      AndStep(x, 2 * p - 2 * q, p - q, 0);
      HalfMod(x, q);
    }
  }

  lemma {:induction false} AndAll(x: nat, w: nat)
    requires x < Pow2(w)
    ensures And(x, Pow2(w) - 1) == x
  {
    if w > 0 {
      var p := Pow2(w - 1);
      AndStep(x, 2 * p - 1, p - 1, 1);
      AndAll(x / 2, w - 1);
    }
  }

  // Or-ing a multiple of 2^k with a smaller number adds.
  lemma {:induction false} OrLow(x: nat, y: nat, k: nat)
    requires y < Pow2(k)
    ensures Or(Shl(x, k), y) == Shl(x, k) + y
  {
    if k == 0 {
      OrZero(x);
    } else {
      var s := Shl(x, k - 1);
      Doubled(x, Pow2(k - 1));
      assert Shl(x, k) == 2 * s && 2 * s / 2 == s && 2 * s % 2 == 0;
      OrLow(x, y / 2, k - 1);
    }
  }

  lemma Doubled(x: nat, p: nat)
    ensures x * (2 * p) == 2 * (x * p)
  {
  }

  lemma {:induction false} OrZero(x: nat)
    ensures Or(x, 0) == x
  {
    if x > 0 { OrZero(x / 2); }
  }
}
