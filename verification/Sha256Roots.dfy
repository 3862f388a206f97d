/**
 The constants of sections 4.2.2 and 5.3.3 of FIPS 180-4, from the primes they are taken from.
 */
module Sha256Roots {
  import opened Sha256

  // ---------- the first 64 primes ----------

  const PRIMES: seq<seq<nat>> := [
    [2, 3, 5, 7, 11, 13, 17, 19],
    [23, 29, 31, 37, 41, 43, 47, 53],
    [59, 61, 67, 71, 73, 79, 83, 89],
    [97, 101, 103, 107, 109, 113, 127, 131],
    [137, 139, 149, 151, 157, 163, 167, 173],
    [179, 181, 191, 193, 197, 199, 211, 223],
    [227, 229, 233, 239, 241, 251, 257, 263],
    [269, 271, 277, 281, 283, 293, 307, 311]
  ]

  function PrimeAt(t: nat): nat
    requires t < 64
  {
    PRIMES[t / 8][t % 8]
  }

  predicate Divides(d: nat, n: nat)
    requires d > 0
  {
    n % d == 0
  }

  ghost predicate Prime(n: nat) {
    n >= 2 && forall d: nat | 2 <= d < n :: !Divides(d, n)
  }

  ghost predicate NextPrime(p: nat, q: nat) {
    p < q && Prime(q) && forall n: nat | p < n < q :: !Prime(n)
  }

  // Of the primes below 19 only `n` itself may divide `n`.
  predicate Sieved(n: nat) {
    (n > 2 ==> n % 2 != 0) && (n > 3 ==> n % 3 != 0) && (n > 5 ==> n % 5 != 0) && (n > 7 ==> n % 7 != 0)
      && (n > 11 ==> n % 11 != 0) && (n > 13 ==> n % 13 != 0) && (n > 17 ==> n % 17 != 0)
  }

  lemma PrimeIsSieved(n: nat)
    requires Prime(n)
    ensures Sieved(n)
  {
    assert n > 2 ==> !Divides(2, n);
    assert n > 3 ==> !Divides(3, n);
    assert n > 5 ==> !Divides(5, n);
    assert n > 7 ==> !Divides(7, n);
    assert n > 11 ==> !Divides(11, n);
    assert n > 13 ==> !Divides(13, n);
    assert n > 17 ==> !Divides(17, n);
  }

  lemma Times(m: nat, n: nat, k: nat)
    requires m >= k && n >= 1
    ensures m * n >= k * n >= k
  {
  }

  lemma Multiple(n: nat, p: nat, m: nat)
    requires p > 0 && n == p * m
    ensures n % p == 0
  {
    var q, r := n / p, n % p;
    assert n == p * q + r;
    if m > q {
      Times(p, m - q, p);
      assert false;
    } else if q > m {
      Times(p, q - m, p);
      assert false;
    }
  }

  lemma SmallFactor(n: nat, d: nat, e: nat)
    requires n == d * e && 2 <= d < 19 && d < n
    ensures !Sieved(n)
  {
    if d % 2 == 0 {
      assert d == 2 * (d / 2);
      Multiple(n, 2, d / 2 * e);
    } else if d % 3 == 0 {
      assert d == 3 * (d / 3);
      Multiple(n, 3, d / 3 * e);
    } else {
      Multiple(n, d, e);
    }
  }

  lemma OneIsSmall(n: nat, d: nat, e: nat)
    requires n == d * e && n < 361
    ensures d < 19 || e < 19
  {
    if d >= 19 && e >= 19 {
      Times(d, e, 19);
      assert false;
    }
  }

  lemma Factors(n: nat, d: nat)
    requires 2 <= d < n && n % d == 0
    ensures n == d * (n / d) && n == (n / d) * d && 2 <= n / d < n
  {
  }

  // Below 19 squared the sieve is exact.
  lemma SievedIsPrime(n: nat)
    requires 2 <= n < 361 && Sieved(n)
    ensures Prime(n)
  {
    forall d: nat | 2 <= d < n
      ensures !Divides(d, n)
    {
      if n % d == 0 {
        var e := n / d;
        Factors(n, d);
        OneIsSmall(n, d, e);
        if d < 19 {
          SmallFactor(n, d, e);
        } else {
          SmallFactor(n, e, d);
        }
      }
    }
  }

  predicate NoneSieved(p: nat, q: nat)
    decreases q - p
  {
    q <= p + 1 || (!Sieved(p + 1) && NoneSieved(p + 1, q))
  }

  lemma {:induction false} NoPrime(p: nat, q: nat, n: nat)
    requires NoneSieved(p, q) && p < n < q
    ensures !Prime(n)
    decreases q - p
  {
    if n > p + 1 {
      NoPrime(p + 1, q, n);
    } else if Prime(n) {
      PrimeIsSieved(n);
    }
  }

  lemma Next(p: nat, q: nat)
    requires 2 <= p < q < 361 && Sieved(q) && NoneSieved(p, q)
    ensures NextPrime(p, q)
  {
    SievedIsPrime(q);
    forall n: nat | p < n < q
      ensures !Prime(n)
    {
      NoPrime(p, q, n);
    }
  }

  lemma Primes0(t: nat)
    requires 0 <= t < 8
    ensures NextPrime(PrimeAt(t), PrimeAt(t + 1))
  {
    Next(2, 3);
    Next(3, 5);
    Next(5, 7);
    Next(7, 11);
    Next(11, 13);
    Next(13, 17);
    Next(17, 19);
    Next(19, 23);
  }

  lemma Primes1(t: nat)
    requires 8 <= t < 16
    ensures NextPrime(PrimeAt(t), PrimeAt(t + 1))
  {
    Next(23, 29);
    Next(29, 31);
    Next(31, 37);
    Next(37, 41);
    Next(41, 43);
    Next(43, 47);
    Next(47, 53);
    Next(53, 59);
  }

  lemma Primes2(t: nat)
    requires 16 <= t < 24
    ensures NextPrime(PrimeAt(t), PrimeAt(t + 1))
  {
    Next(59, 61);
    Next(61, 67);
    Next(67, 71);
    Next(71, 73);
    Next(73, 79);
    Next(79, 83);
    Next(83, 89);
    Next(89, 97);
  }

  lemma Primes3(t: nat)
    requires 24 <= t < 32
    ensures NextPrime(PrimeAt(t), PrimeAt(t + 1))
  {
    Next(97, 101);
    Next(101, 103);
    Next(103, 107);
    Next(107, 109);
    Next(109, 113);
    Next(113, 127);
    Next(127, 131);
    Next(131, 137);
  }

  lemma Primes4(t: nat)
    requires 32 <= t < 40
    ensures NextPrime(PrimeAt(t), PrimeAt(t + 1))
  {
    Next(137, 139);
    Next(139, 149);
    Next(149, 151);
    Next(151, 157);
    Next(157, 163);
    Next(163, 167);
    Next(167, 173);
    Next(173, 179);
  }

  lemma Primes5(t: nat)
    requires 40 <= t < 48
    ensures NextPrime(PrimeAt(t), PrimeAt(t + 1))
  {
    Next(179, 181);
    Next(181, 191);
    Next(191, 193);
    Next(193, 197);
    Next(197, 199);
    Next(199, 211);
    Next(211, 223);
    Next(223, 227);
  }

  lemma Primes6(t: nat)
    requires 48 <= t < 56
    ensures NextPrime(PrimeAt(t), PrimeAt(t + 1))
  {
    Next(227, 229);
    Next(229, 233);
    Next(233, 239);
    Next(239, 241);
    Next(241, 251);
    Next(251, 257);
    Next(257, 263);
    Next(263, 269);
  }

  lemma Primes7(t: nat)
    requires 56 <= t < 63
    ensures NextPrime(PrimeAt(t), PrimeAt(t + 1))
  {
    Next(269, 271);
    Next(271, 277);
    Next(277, 281);
    Next(281, 283);
    Next(283, 293);
    Next(293, 307);
    Next(307, 311);
  }

  // They start with 2, and each is the next prime after the one before it.
  lemma PrimesInOrder(t: nat)
    requires t < 63
    ensures PrimeAt(0) == 2 && NextPrime(PrimeAt(t), PrimeAt(t + 1))
  {
    if t < 8 {
      Primes0(t);
    } else if t < 16 {
      Primes1(t);
    } else if t < 24 {
      Primes2(t);
    } else if t < 32 {
      Primes3(t);
    } else if t < 40 {
      Primes4(t);
    } else if t < 48 {
      Primes5(t);
    } else if t < 56 {
      Primes6(t);
    } else {
      Primes7(t);
    }
  }

  // ---------- the fractional parts of their roots ----------

  // `c` and the 32 bits `k` after the point are the cube root of `p`, rounded down.
  predicate CubeRoot(c: nat, k: nat, p: nat) {
    var low, high := c * 0x1_0000_0000 + k, c * 0x1_0000_0000 + k + 1;
    k < 0x1_0000_0000 && low * low * low <= p * 0x1_0000_0000_0000_0000_0000_0000 < high * high * high
  }

  predicate SquareRoot(c: nat, k: nat, p: nat) {
    var low, high := c * 0x1_0000_0000 + k, c * 0x1_0000_0000 + k + 1;
    k < 0x1_0000_0000 && low * low <= p * 0x1_0000_0000_0000_0000 < high * high
  }

  // Section 4.2.2.
  ghost predicate CubeFraction(k: nat, p: nat) {
    exists c: nat :: CubeRoot(c, k, p)
  }

  // Section 5.3.3.
  ghost predicate SquareFraction(k: nat, p: nat) {
    exists c: nat :: SquareRoot(c, k, p)
  }

  lemma FromCube(x: word, p: nat, c: nat)
    requires CubeRoot(c, x as nat, p)
    ensures CubeFraction(x as nat, p)
  {
  }

  lemma FromSquare(x: word, p: nat, c: nat)
    requires SquareRoot(c, x as nat, p)
    ensures SquareFraction(x as nat, p)
  {
  }

  lemma Roots0(t: nat)
    requires 0 <= t < 8
    ensures CubeFraction(Constant(t) as nat, PrimeAt(t))
  {
    FromCube(0x428a2f98, 2, 1);
    FromCube(0x71374491, 3, 1);
    FromCube(0xb5c0fbcf, 5, 1);
    FromCube(0xe9b5dba5, 7, 1);
    FromCube(0x3956c25b, 11, 2);
    FromCube(0x59f111f1, 13, 2);
    FromCube(0x923f82a4, 17, 2);
    FromCube(0xab1c5ed5, 19, 2);
  }

  lemma Roots1(t: nat)
    requires 8 <= t < 16
    ensures CubeFraction(Constant(t) as nat, PrimeAt(t))
  {
    FromCube(0xd807aa98, 23, 2);
    FromCube(0x12835b01, 29, 3);
    FromCube(0x243185be, 31, 3);
    FromCube(0x550c7dc3, 37, 3);
    FromCube(0x72be5d74, 41, 3);
    FromCube(0x80deb1fe, 43, 3);
    FromCube(0x9bdc06a7, 47, 3);
    FromCube(0xc19bf174, 53, 3);
  }

  lemma Roots2(t: nat)
    requires 16 <= t < 24
    ensures CubeFraction(Constant(t) as nat, PrimeAt(t))
  {
    FromCube(0xe49b69c1, 59, 3);
    FromCube(0xefbe4786, 61, 3);
    FromCube(0x0fc19dc6, 67, 4);
    FromCube(0x240ca1cc, 71, 4);
    FromCube(0x2de92c6f, 73, 4);
    FromCube(0x4a7484aa, 79, 4);
    FromCube(0x5cb0a9dc, 83, 4);
    FromCube(0x76f988da, 89, 4);
  }

  lemma Roots3(t: nat)
    requires 24 <= t < 32
    ensures CubeFraction(Constant(t) as nat, PrimeAt(t))
  {
    FromCube(0x983e5152, 97, 4);
    FromCube(0xa831c66d, 101, 4);
    FromCube(0xb00327c8, 103, 4);
    FromCube(0xbf597fc7, 107, 4);
    FromCube(0xc6e00bf3, 109, 4);
    FromCube(0xd5a79147, 113, 4);
    FromCube(0x06ca6351, 127, 5);
    FromCube(0x14292967, 131, 5);
  }

  lemma Roots4(t: nat)
    requires 32 <= t < 40
    ensures CubeFraction(Constant(t) as nat, PrimeAt(t))
  {
    FromCube(0x27b70a85, 137, 5);
    FromCube(0x2e1b2138, 139, 5);
    FromCube(0x4d2c6dfc, 149, 5);
    FromCube(0x53380d13, 151, 5);
    FromCube(0x650a7354, 157, 5);
    FromCube(0x766a0abb, 163, 5);
    FromCube(0x81c2c92e, 167, 5);
    FromCube(0x92722c85, 173, 5);
  }

  lemma Roots5(t: nat)
    requires 40 <= t < 48
    ensures CubeFraction(Constant(t) as nat, PrimeAt(t))
  {
    FromCube(0xa2bfe8a1, 179, 5);
    FromCube(0xa81a664b, 181, 5);
    FromCube(0xc24b8b70, 191, 5);
    FromCube(0xc76c51a3, 193, 5);
    FromCube(0xd192e819, 197, 5);
    FromCube(0xd6990624, 199, 5);
    FromCube(0xf40e3585, 211, 5);
    FromCube(0x106aa070, 223, 6);
  }

  lemma Roots6(t: nat)
    requires 48 <= t < 56
    ensures CubeFraction(Constant(t) as nat, PrimeAt(t))
  {
    FromCube(0x19a4c116, 227, 6);
    FromCube(0x1e376c08, 229, 6);
    FromCube(0x2748774c, 233, 6);
    FromCube(0x34b0bcb5, 239, 6);
    FromCube(0x391c0cb3, 241, 6);
    FromCube(0x4ed8aa4a, 251, 6);
    FromCube(0x5b9cca4f, 257, 6);
    FromCube(0x682e6ff3, 263, 6);
  }

  lemma Roots7(t: nat)
    requires 56 <= t < 64
    ensures CubeFraction(Constant(t) as nat, PrimeAt(t))
  {
    FromCube(0x748f82ee, 269, 6);
    FromCube(0x78a5636f, 271, 6);
    FromCube(0x84c87814, 277, 6);
    FromCube(0x8cc70208, 281, 6);
    FromCube(0x90befffa, 283, 6);
    FromCube(0xa4506ceb, 293, 6);
    FromCube(0xbef9a3f7, 307, 6);
    FromCube(0xc67178f2, 311, 6);
  }

  lemma ConstantIsRoot(t: nat)
    requires t < 64
    ensures CubeFraction(Constant(t) as nat, PrimeAt(t))
  {
    if t < 8 {
      Roots0(t);
    } else if t < 16 {
      Roots1(t);
    } else if t < 24 {
      Roots2(t);
    } else if t < 32 {
      Roots3(t);
    } else if t < 40 {
      Roots4(t);
    } else if t < 48 {
      Roots5(t);
    } else if t < 56 {
      Roots6(t);
    } else {
      Roots7(t);
    }
  }

  lemma StartIsRoot(t: nat)
    requires t < 8
    ensures SquareFraction(H0[t] as nat, PrimeAt(t))
  {
    FromSquare(0x6a09e667, 2, 1);
    FromSquare(0xbb67ae85, 3, 1);
    FromSquare(0x3c6ef372, 5, 2);
    FromSquare(0xa54ff53a, 7, 2);
    FromSquare(0x510e527f, 11, 3);
    FromSquare(0x9b05688c, 13, 3);
    FromSquare(0x1f83d9ab, 17, 4);
    FromSquare(0x5be0cd19, 19, 4);
  }
}
