/**
 What the words, sums and bytes of SHA-256 are as bits and as numbers, and the compression of section 6.2.2
 of FIPS 180-4 stated in them.
 */
module Sha256Facts {
  import opened Sha256

  // ---------- words as numbers ----------

  function Digit(x: word): nat {
    if x & 1 == 1 then 1 else 0
  }

  // The number whose binary digits are the bits of `x`.
  function Number(x: word): nat
    decreases x
  {
    if x == 0 then 0 else 2 * Number(x >> 1) + Digit(x)
  }

  lemma NextOfEven(x: word)
    requires x & 1 == 0
    ensures (x + 1) & 1 == 1
    ensures (x + 1) >> 1 == x >> 1
  {
  }

  lemma NextOfOdd(x: word)
    requires x & 1 == 1 && x != 0xffff_ffff
    ensures (x + 1) & 1 == 0
    ensures (x + 1) >> 1 == (x >> 1) + 1
  {
  }

  lemma HalfOfOdd(x: word)
    requires x & 1 == 1
    ensures x >> 1 < x && x >> 1 != 0xffff_ffff
  {
  }

  lemma NumberOf(x: word, half: word, digit: nat)
    requires x >> 1 == half && Digit(x) == digit
    ensures Number(x) == 2 * Number(half) + digit
  {
  }

  lemma NextWhenOdd(x: word, y: word, h: word, g: word)
    requires x >> 1 == h && y >> 1 == g && Digit(x) == 1 && Digit(y) == 0 && Number(g) == Number(h) + 1
    ensures Number(y) == Number(x) + 1
  {
    NumberOf(x, h, 1);
    NumberOf(y, g, 0);
  }

  lemma NextWhenEven(x: word, y: word, h: word)
    requires x >> 1 == h && y >> 1 == h && Digit(x) == 0 && Digit(y) == 1
    ensures Number(y) == Number(x) + 1
  {
    NumberOf(x, h, 0);
    NumberOf(y, h, 1);
  }

  lemma NextOdd(x: word, h: word)
    requires x & 1 == 1 && x != 0xffff_ffff && h == x >> 1 && Number(h + 1) == Number(h) + 1
    ensures Number(x + 1) == Number(x) + 1
  {
    NextOfOdd(x);
    NextWhenOdd(x, x + 1, h, h + 1);
  }

  lemma NextEven(x: word)
    requires x & 1 != 1
    ensures Number(x + 1) == Number(x) + 1
  {
    NextOfEven(x);
    NextWhenEven(x, x + 1, x >> 1);
  }

  lemma {:induction false} NextNumber(x: word)
    requires x != 0xffff_ffff
    ensures Number(x + 1) == Number(x) + 1
    decreases x
  {
    var h := x >> 1;
    if x & 1 == 1 {
      HalfOfOdd(x);
      NextNumber(h);
      NextOdd(x, h);
    } else {
      NextEven(x);
    }
  }

  lemma HalfIsLess(x: word)
    requires x != 0
    ensures x >> 1 < x && x >> 1 < 0x8000_0000
  {
  }

  lemma HalfIsSmall(x: word)
    ensures x >> 1 < 0x8000_0000
  {
  }

  lemma RejoinOdd(x: word)
    requires x & 1 == 1
    ensures x == ((x >> 1) << 1) | 1
  {
  }

  lemma RejoinEven(x: word)
    requires x & 1 == 0
    ensures x == (x >> 1) << 1
  {
  }

  lemma LastBit(x: word)
    ensures x & 1 == 0 || x & 1 == 1
  {
  }

  lemma EvenValue(x: word, h: word)
    requires h < 0x8000_0000 && x == h << 1
    ensures x as nat == 2 * (h as nat)
  {
  }

  lemma OddValue(x: word, h: word)
    requires h < 0x8000_0000 && x == (h << 1) | 1
    ensures x as nat == 2 * (h as nat) + 1
  {
  }

  lemma HalfValue(x: word, h: word)
    requires h == x >> 1
    ensures x as nat == 2 * (h as nat) + Digit(x)
  {
    HalfIsSmall(x);
    LastBit(x);
    if x & 1 == 1 {
      RejoinOdd(x);
      OddValue(x, h);
    } else {
      RejoinEven(x);
      EvenValue(x, h);
    }
  }

  lemma StepValue(x: word, h: word)
    requires h == x >> 1 && Number(h) == h as nat
    ensures Number(x) == x as nat
  {
    HalfValue(x, h);
    NumberOf(x, h, Digit(x));
  }

  // `Number` is what a word converts to.
  lemma {:induction false} NumberIsValue(x: word)
    ensures Number(x) == x as nat
    decreases x
  {
    if x != 0 {
      var h := x >> 1;
      HalfIsLess(x);
      NumberIsValue(h);
      StepValue(x, h);
    }
  }

  lemma Bounded(x: word)
    ensures Number(x) < 0x1_0000_0000
  {
    NumberIsValue(x);
  }

  lemma LargestNumber(x: word)
    requires x == 0xffff_ffff
    ensures Number(x) == 0xffff_ffff && Number(x + 1) == 0
  {
    NumberIsValue(x);
  }

  lemma Carry(x: word, y: word, x': word, y': word, sum: word)
    requires y != 0 && x' == x + 1 && y' == y - 1 && sum == Plus(x, y)
    ensures y == y' + 1 && y' < y && y' != 0xffff_ffff && sum == Plus(x', y')
  {
  }

  lemma CarryOver(m: nat, n: nat, m': nat, n': nat)
    requires m' == (m + 1) % 0x1_0000_0000 && n == n' + 1
    ensures (m' + n') % 0x1_0000_0000 == (m + n) % 0x1_0000_0000
  {
  }

  // A numbering of the words that counts up.
  type Numbering = word -> nat

  ghost predicate Next(num: Numbering, x: word, y: word) {
    x != 0xffff_ffff && y == x + 1 ==> num(y) == num(x) + 1
  }

  ghost predicate Counts(num: Numbering) {
    num(0) == 0 && num(0xffff_ffff) == 0xffff_ffff && (forall x: word {:trigger num(x)} :: num(x) < 0x1_0000_0000)
      && forall x: word, y: word :: Next(num, x, y)
  }

  lemma Wraps(num: Numbering, x: word, y: word)
    requires Counts(num) && y == x + 1
    ensures num(y) == (num(x) + 1) % 0x1_0000_0000
  {
    assert Next(num, x, y);
  }

  lemma PlusStep(num: Numbering, x: word, y: word, x': word, y': word, sum: word)
    requires Counts(num) && x' == x + 1 && y == y' + 1 && y' != 0xffff_ffff
    requires num(sum) == (num(x') + num(y')) % 0x1_0000_0000
    ensures num(sum) == (num(x) + num(y)) % 0x1_0000_0000
  {
    Wraps(num, x, x');
    assert Next(num, y', y);
    CarryOver(num(x), num(y), num(x'), num(y'));
  }

  lemma PlusNone(num: Numbering, x: word, sum: word)
    requires Counts(num) && sum == Plus(x, 0)
    ensures num(sum) == (num(x) + num(0)) % 0x1_0000_0000
  {
    assert sum == x;
  }

  // A carry out of the highest place is lost.
  lemma {:induction false} PlusNumber(num: Numbering, x: word, y: word, sum: word)
    requires Counts(num) && sum == Plus(x, y)
    ensures num(sum) == (num(x) + num(y)) % 0x1_0000_0000
    decreases y
  {
    if y == 0 {
      PlusNone(num, x, sum);
    } else {
      var x', y' := x + 1, y - 1;
      Carry(x, y, x', y', sum);
      PlusNumber(num, x', y', sum);
      PlusStep(num, x, y, x', y', sum);
    }
  }

  const BINARY: Numbering := (x: word) => Number(x)

  lemma BinaryCounts()
    ensures Counts(BINARY)
  {
    forall x: word
      ensures BINARY(x) < 0x1_0000_0000
    {
      Bounded(x);
    }
    forall x: word, y: word
      ensures Next(BINARY, x, y)
    {
      if x != 0xffff_ffff && y == x + 1 {
        NextNumber(x);
      }
    }
    LargestNumber(0xffff_ffff);
  }

  lemma PlusIsModular(x: word, y: word)
    ensures Number(Plus(x, y)) == (Number(x) + Number(y)) % 0x1_0000_0000
  {
    BinaryCounts();
    PlusNumber(BINARY, x, y, Plus(x, y));
  }

  lemma PlusValue(x: word, y: word, sum: word)
    requires sum == Plus(x, y)
    ensures sum as nat == (x as nat + y as nat) % 0x1_0000_0000
  {
    PlusIsModular(x, y);
    NumberIsValue(x);
    NumberIsValue(y);
    NumberIsValue(sum);
  }

  // ---------- rotations and shifts ----------

  // The lowest bit moves to the highest place.
  function RotateOnce(x: word): word {
    (x >> 1) | (x << 31)
  }

  function Rotated(x: word, n: nat): word {
    if n == 0 then x else RotateOnce(Rotated(x, n - 1))
  }

  function ShiftOnce(x: word): word {
    x >> 1
  }

  function Shifted(x: word, n: nat): word {
    if n == 0 then x else ShiftOnce(Shifted(x, n - 1))
  }

  lemma ShiftOnceValue(x: word, h: word)
    requires h == ShiftOnce(x)
    ensures h as nat == x as nat / 2 && Digit(x) == x as nat % 2
  {
    HalfValue(x, h);
  }

  lemma TopValue(h: word, r: word)
    requires h < 0x8000_0000 && r == h | 0x8000_0000
    ensures r as nat == h as nat + 0x8000_0000
  {
  }

  lemma OddTurns(x: word)
    requires x & 1 == 1
    ensures RotateOnce(x) == (x >> 1) | 0x8000_0000
  {
  }

  lemma EvenTurns(x: word)
    requires x & 1 == 0
    ensures RotateOnce(x) == x >> 1
  {
  }

  lemma RotateOnceValue(x: word, r: word)
    requires r == RotateOnce(x)
    ensures r as nat == x as nat / 2 + x as nat % 2 * 0x8000_0000
  {
    var h := x >> 1;
    ShiftOnceValue(x, h);
    HalfIsSmall(x);
    LastBit(x);
    if x & 1 == 1 {
      OddTurns(x);
      TopValue(h, r);
    } else {
      EvenTurns(x);
    }
  }

  lemma OnePlaceMore(x: word, k: bv6)
    requires 1 <= k < 31
    ensures Rotate(x, k + 1) == RotateOnce(Rotate(x, k))
  {
  }

  lemma RotateByOne(x: word)
    ensures Rotate(x, 1) == RotateOnce(x)
  {
  }

  // The two shifts are as many turns by one place.
  lemma {:induction false} RotateIsRotated(x: word, n: nat, k: bv6)
    requires 1 <= n <= 31 && k as nat == n
    ensures Rotate(x, k) == Rotated(x, n)
  {
    if n == 1 {
      RotateByOne(x);
      assert Rotated(x, 0) == x;
    } else {
      RotateIsRotated(x, n - 1, k - 1);
      OnePlaceMore(x, k - 1);
    }
  }

  lemma ShiftMore(x: word, k: bv6)
    requires k < 31
    ensures Shift(x, k + 1) == ShiftOnce(Shift(x, k))
  {
  }

  lemma {:induction false} ShiftIsShifted(x: word, n: nat, k: bv6)
    requires n <= 31 && k as nat == n
    ensures Shift(x, k) == Shifted(x, n)
  {
    if n == 0 {
      assert Shift(x, 0) == x;
    } else {
      ShiftIsShifted(x, n - 1, k - 1);
      ShiftMore(x, k - 1);
    }
  }

  lemma BigSigmas(x: word)
    ensures BigSigma0(x) == Xor(Rotated(x, 2), Rotated(x, 13), Rotated(x, 22))
    ensures BigSigma1(x) == Xor(Rotated(x, 6), Rotated(x, 11), Rotated(x, 25))
  {
    RotateIsRotated(x, 2, 2);
    RotateIsRotated(x, 13, 13);
    RotateIsRotated(x, 22, 22);
    RotateIsRotated(x, 6, 6);
    RotateIsRotated(x, 11, 11);
    RotateIsRotated(x, 25, 25);
  }

  lemma SmallSigmas(x: word)
    ensures Sigma0(x) == Xor(Rotated(x, 7), Rotated(x, 18), Shifted(x, 3))
    ensures Sigma1(x) == Xor(Rotated(x, 17), Rotated(x, 19), Shifted(x, 10))
  {
    RotateIsRotated(x, 7, 7);
    RotateIsRotated(x, 18, 18);
    RotateIsRotated(x, 17, 17);
    RotateIsRotated(x, 19, 19);
    ShiftIsShifted(x, 3, 3);
    ShiftIsShifted(x, 10, 10);
  }

  // ---------- bit by bit ----------

  predicate Bit(x: word, i: bv5) {
    (x >> i) & 1 == 1
  }

  lemma ChBits(x: word, y: word, z: word, i: bv5)
    ensures Bit(x, i) ==> Bit(Ch(x, y, z), i) == Bit(y, i)
    ensures !Bit(x, i) ==> Bit(Ch(x, y, z), i) == Bit(z, i)
  {
  }

  lemma MajBits(x: word, y: word, z: word, i: bv5)
    ensures Bit(x, i) == Bit(y, i) ==> Bit(Maj(x, y, z), i) == Bit(x, i)
    ensures Bit(x, i) != Bit(y, i) ==> Bit(Maj(x, y, z), i) == Bit(z, i)
  {
  }

  lemma XorOfTwo(x: word, y: word, xor: word, i: bv5)
    requires xor == x ^ y
    ensures Bit(xor, i) == (Bit(x, i) != Bit(y, i))
  {
  }

  lemma XorBits(x: word, y: word, z: word, i: bv5)
    ensures Bit(Xor(x, y, z), i) == ((Bit(x, i) != Bit(y, i)) != Bit(z, i))
  {
    var xy := x ^ y;
    XorOfTwo(x, y, xy, i);
    XorOfTwo(xy, z, Xor(x, y, z), i);
  }

  // ---------- bytes ----------

  lemma ByteOfJoin(b0: byte, b1: byte, b2: byte, b3: byte, w: word)
    requires w == Join(b0, b1, b2, b3)
    ensures ByteOf(w, 0) == b0 && ByteOf(w, 1) == b1 && ByteOf(w, 2) == b2 && ByteOf(w, 3) == b3
  {
  }

  lemma JoinBytesOf(w: word)
    ensures Join(ByteOf(w, 0), ByteOf(w, 1), ByteOf(w, 2), ByteOf(w, 3)) == w
  {
  }

  // ---------- sums ----------

  ghost function Total(num: Numbering, xs: seq<word>): nat {
    if xs == [] then 0 else Total(num, xs[..|xs| - 1]) + num(xs[|xs| - 1])
  }

  // `x` is the sum of the words `xs` modulo 2^32.
  ghost predicate Adds(num: Numbering, x: word, xs: seq<word>) {
    num(x) == Total(num, xs) % 0x1_0000_0000
  }

  lemma AddOne(num: Numbering, x: word)
    requires Counts(num)
    ensures Adds(num, x, [x])
  {
    assert Total(num, []) == 0;
  }

  lemma {:induction false} TotalOfBoth(num: Numbering, xs: seq<word>, ys: seq<word>)
    ensures Total(num, xs + ys) == Total(num, xs) + Total(num, ys)
  {
    if ys == [] {
      assert xs + ys == xs;
    } else {
      var n := |ys| - 1;
      TotalOfBoth(num, xs, ys[..n]);
      assert (xs + ys)[..|xs| + n] == xs + ys[..n];
    }
  }

  lemma ModSum(m: nat, n: nat)
    ensures (m % 0x1_0000_0000 + n % 0x1_0000_0000) % 0x1_0000_0000 == (m + n) % 0x1_0000_0000
  {
  }

  lemma AddBoth(num: Numbering, x: word, xs: seq<word>, y: word, ys: seq<word>)
    requires Counts(num) && Adds(num, x, xs) && Adds(num, y, ys)
    ensures Adds(num, Plus(x, y), xs + ys)
  {
    PlusNumber(num, x, y, Plus(x, y));
    TotalOfBoth(num, xs, ys);
    ModSum(Total(num, xs), Total(num, ys));
  }

  lemma AddMore(num: Numbering, x: word, xs: seq<word>, y: word)
    requires Counts(num) && Adds(num, x, xs)
    ensures Adds(num, Plus(x, y), xs + [y])
  {
    AddOne(num, y);
    AddBoth(num, x, xs, y, [y]);
  }

  lemma TwoAdd(num: Numbering, x: word, y: word)
    requires Counts(num)
    ensures Adds(num, Plus(x, y), [x, y])
  {
    AddOne(num, x);
    AddMore(num, x, [x], y);
    assert [x] + [y] == [x, y];
  }

  lemma FourAdd(num: Numbering, x0: word, x1: word, x2: word, x3: word)
    requires Counts(num)
    ensures Adds(num, Plus(Plus(Plus(x0, x1), x2), x3), [x0, x1, x2, x3])
  {
    TwoAdd(num, x0, x1);
    AddMore(num, Plus(x0, x1), [x0, x1], x2);
    AddMore(num, Plus(Plus(x0, x1), x2), [x0, x1] + [x2], x3);
    assert [x0, x1] + [x2] + [x3] == [x0, x1, x2, x3];
  }

  // ---------- section 6.2.2 in numbers ----------

  // Step 1, for the words the block is read into.
  ghost predicate ReadFrom(block: seq<byte>, x: word, t: nat)
    requires |block| == 64 && t < 16
  {
    ByteOf(x, 0) == block[4 * t] && ByteOf(x, 1) == block[4 * t + 1]
      && ByteOf(x, 2) == block[4 * t + 2] && ByteOf(x, 3) == block[4 * t + 3]
  }

  // Step 1, for the words after them.
  ghost predicate Recurs(num: Numbering, w: seq<word>, t: nat)
    requires 16 <= t < |w|
  {
    Adds(num, w[t], [Sigma1(w[t - 2]), w[t - 7], Sigma0(w[t - 15]), w[t - 16]])
  }

  ghost predicate Schedules(num: Numbering, block: seq<byte>, w: seq<word>) {
    |block| == |w| == 64 && (forall t: nat | t < 16 :: ReadFrom(block, w[t], t))
      && forall t: nat | 16 <= t < 64 :: Recurs(num, w, t)
  }

  // The terms of the sums T1 and T2 of step 3.
  function First(r: Registers, k: word, w: word): seq<word> {
    [r.h, BigSigma1(r.e), Ch(r.e, r.f, r.g), k, w]
  }

  function Second(r: Registers): seq<word> {
    [BigSigma0(r.a), Maj(r.a, r.b, r.c)]
  }

  ghost predicate Turns(num: Numbering, r: Registers, k: word, w: word, r': Registers) {
    r'.h == r.g && r'.g == r.f && r'.f == r.e && r'.d == r.c && r'.c == r.b && r'.b == r.a
      && Adds(num, r'.e, [r.d] + First(r, k, w)) && Adds(num, r'.a, First(r, k, w) + Second(r))
  }

  // Steps 2 and 3: the registers before, between and after the rounds.
  ghost predicate Runs(num: Numbering, s: seq<word>, w: seq<word>, rs: seq<Registers>) {
    |s| == 8 && |w| == 64 && |rs| == 65 && rs[0] == Registers(s[0], s[1], s[2], s[3], s[4], s[5], s[6], s[7])
      && forall t: nat | t < 64 :: Turns(num, rs[t], Constant(t), w[t], rs[t + 1])
  }

  // Step 4.
  ghost predicate AddedTo(num: Numbering, s: seq<word>, r: Registers, s': seq<word>) {
    |s| == |s'| == 8 && Adds(num, s'[0], [s[0], r.a]) && Adds(num, s'[1], [s[1], r.b])
      && Adds(num, s'[2], [s[2], r.c]) && Adds(num, s'[3], [s[3], r.d]) && Adds(num, s'[4], [s[4], r.e])
      && Adds(num, s'[5], [s[5], r.f]) && Adds(num, s'[6], [s[6], r.g]) && Adds(num, s'[7], [s[7], r.h])
  }

  lemma {:induction false} ExpandAt(block: seq<byte>, n: nat, t: nat)
    requires |block| == 64 && t < n <= 64
    ensures Expand(block, n)[t] == NextWord(block, Expand(block, t))
    ensures Expand(block, n)[..t] == Expand(block, t)
  {
    if t < n - 1 {
      ExpandAt(block, n - 1, t);
    }
  }

  lemma WordIsRead(block: seq<byte>, w: seq<word>, t: nat)
    requires |block| == 64 && w == Expand(block, 64) && t < 16
    ensures ReadFrom(block, w[t], t)
  {
    ExpandAt(block, 64, t);
    ByteOfJoin(block[4 * t], block[4 * t + 1], block[4 * t + 2], block[4 * t + 3], w[t]);
  }

  lemma WordRecurs(num: Numbering, block: seq<byte>, w: seq<word>, t: nat)
    requires Counts(num) && |block| == 64 && w == Expand(block, 64) && 16 <= t < 64
    ensures Recurs(num, w, t)
  {
    ExpandAt(block, 64, t);
    var before := Expand(block, t);
    assert before == w[..t];
    FourAdd(num, Sigma1(w[t - 2]), w[t - 7], Sigma0(w[t - 15]), w[t - 16]);
  }

  lemma FirstAdds(num: Numbering, x0: word, x1: word, x2: word, x3: word, x4: word)
    requires Counts(num)
    ensures Adds(num, Plus(Plus(Plus(Plus(x0, x1), x2), x3), x4), [x0, x1, x2, x3, x4])
  {
    FourAdd(num, x0, x1, x2, x3);
    AddMore(num, Plus(Plus(Plus(x0, x1), x2), x3), [x0, x1, x2, x3], x4);
    assert [x0, x1, x2, x3] + [x4] == [x0, x1, x2, x3, x4];
  }

  lemma RoundTurns(num: Numbering, r: Registers, k: word, w: word)
    requires Counts(num)
    ensures Turns(num, r, k, w, Round(r, k, w))
  {
    var s1, ch, s0, maj := BigSigma1(r.e), Ch(r.e, r.f, r.g), BigSigma0(r.a), Maj(r.a, r.b, r.c);
    var t1 := Plus(Plus(Plus(Plus(r.h, s1), ch), k), w);
    FirstAdds(num, r.h, s1, ch, k, w);
    TwoAdd(num, s0, maj);
    AddBoth(num, t1, First(r, k, w), Plus(s0, maj), Second(r));
    AddOne(num, r.d);
    AddBoth(num, r.d, [r.d], t1, First(r, k, w));
  }

  lemma AddAddsTo(num: Numbering, s: seq<word>, r: Registers)
    requires Counts(num) && |s| == 8
    ensures AddedTo(num, s, r, Add(s, r))
  {
    TwoAdd(num, s[0], r.a);
    TwoAdd(num, s[1], r.b);
    TwoAdd(num, s[2], r.c);
    TwoAdd(num, s[3], r.d);
    TwoAdd(num, s[4], r.e);
    TwoAdd(num, s[5], r.f);
    TwoAdd(num, s[6], r.g);
    TwoAdd(num, s[7], r.h);
  }

  lemma Scheduled(num: Numbering, block: seq<byte>, w: seq<word>)
    requires Counts(num) && |block| == 64 && w == Expand(block, 64)
    ensures Schedules(num, block, w)
  {
    forall t: nat | t < 16
      ensures ReadFrom(block, w[t], t)
    {
      WordIsRead(block, w, t);
    }
    forall t: nat | 16 <= t < 64
      ensures Recurs(num, w, t)
    {
      WordRecurs(num, block, w, t);
    }
  }

  lemma Ran(num: Numbering, s: seq<word>, w: seq<word>) returns (rs: seq<Registers>)
    requires Counts(num) && |s| == 8 && |w| == 64
    ensures Runs(num, s, w, rs) && rs[64] == Rounds(Load(s), w, 64)
  {
    rs := seq(65, t requires 0 <= t <= 64 => Rounds(Load(s), w, t));
    forall t: nat | t < 64
      ensures Turns(num, rs[t], Constant(t), w[t], rs[t + 1])
    {
      RoundTurns(num, rs[t], Constant(t), w[t]);
    }
  }

  // The compression is the one of the standard, whatever counts the words.
  lemma CompressIsStandard(num: Numbering, s: seq<word>, block: seq<byte>) returns (w: seq<word>, rs: seq<Registers>)
    requires Counts(num) && |s| == 8 && |block| == 64
    ensures Schedules(num, block, w) && Runs(num, s, w, rs) && AddedTo(num, s, rs[64], Compress(s, block))
  {
    w := Expand(block, |block|);
    Scheduled(num, block, w);
    rs := Ran(num, s, w);
    AddAddsTo(num, s, rs[64]);
  }

  // ---------- bytes as numbers ----------

  function Append(x: word, b: byte): word {
    Plus(x << 8, b as word)
  }

  lemma JoinAppends(b0: byte, b1: byte, b2: byte, b3: byte)
    ensures Join(b0, b1, b2, b3) == Append(Append(Append(b0 as word, b1), b2), b3)
  {
  }

  function Double(x: word): word {
    Plus(x, x)
  }

  lemma EightDoubles(x: word)
    ensures x << 8 == Double(Double(Double(Double(Double(Double(Double(Double(x))))))))
  {
  }

  lemma DoubleNumber(num: Numbering, x: word, y: word)
    requires Counts(num) && y == Double(x) && num(x) < 0x8000_0000
    ensures num(y) == 2 * num(x)
  {
    PlusNumber(num, x, x, y);
  }

  lemma ShiftedByEight(num: Numbering, x: word, y: word)
    requires Counts(num) && y == x << 8 && num(x) < 0x100_0000
    ensures num(y) == 256 * num(x)
  {
    var x1 := Double(x);
    var x2 := Double(x1);
    var x3 := Double(x2);
    var x4 := Double(x3);
    var x5 := Double(x4);
    var x6 := Double(x5);
    var x7 := Double(x6);
    EightDoubles(x);
    DoubleNumber(num, x, x1);
    DoubleNumber(num, x1, x2);
    DoubleNumber(num, x2, x3);
    DoubleNumber(num, x3, x4);
    DoubleNumber(num, x4, x5);
    DoubleNumber(num, x5, x6);
    DoubleNumber(num, x6, x7);
    DoubleNumber(num, x7, y);
  }

  lemma AppendNumber(num: Numbering, x: word, b: byte, y: word)
    requires Counts(num) && y == Append(x, b) && num(x) < 0x100_0000 && num(b as word) < 256
    ensures num(y) == 256 * num(x) + num(b as word)
  {
    var z := x << 8;
    ShiftedByEight(num, x, z);
    PlusNumber(num, z, b as word, y);
  }

  lemma ByteNumber(b: byte)
    ensures BINARY(b as word) == b as nat && b as nat < 256
  {
    NumberIsValue(b as word);
  }

  lemma FourBytes(num: Numbering, b0: byte, b1: byte, b2: byte, b3: byte)
    requires Counts(num)
    requires num(b0 as word) < 256 && num(b1 as word) < 256 && num(b2 as word) < 256 && num(b3 as word) < 256
    ensures num(Join(b0, b1, b2, b3))
         == 256 * (256 * (256 * num(b0 as word) + num(b1 as word)) + num(b2 as word)) + num(b3 as word)
  {
    var x := Append(b0 as word, b1);
    var y := Append(x, b2);
    JoinAppends(b0, b1, b2, b3);
    AppendNumber(num, b0 as word, b1, x);
    AppendNumber(num, x, b2, y);
    AppendNumber(num, y, b3, Join(b0, b1, b2, b3));
  }

  lemma FourBytesValue(b0: byte, b1: byte, b2: byte, b3: byte)
    ensures Value([b0, b1, b2, b3]) == 256 * (256 * (256 * (b0 as nat) + b1 as nat) + b2 as nat) + b3 as nat
  {
    var v1, v2, v3, v4 := [b0], [b0, b1], [b0, b1, b2], [b0, b1, b2, b3];
    assert v1[..0] == [] && v2[..1] == v1 && v3[..2] == v2 && v4[..3] == v3;
    assert Value(v1) == b0 as nat;
    assert Value(v2) == 256 * Value(v1) + b1 as nat;
    assert Value(v3) == 256 * Value(v2) + b2 as nat;
    assert Value(v4) == 256 * Value(v3) + b3 as nat;
  }

  // The first byte is the most significant.
  lemma JoinIsBigEndian(b0: byte, b1: byte, b2: byte, b3: byte)
    ensures Number(Join(b0, b1, b2, b3)) == Value([b0, b1, b2, b3])
  {
    BinaryCounts();
    ByteNumber(b0);
    ByteNumber(b1);
    ByteNumber(b2);
    ByteNumber(b3);
    FourBytes(BINARY, b0, b1, b2, b3);
    FourBytesValue(b0, b1, b2, b3);
  }

  // The words of the hash, read back from its bytes.
  lemma OutputWord(s: seq<word>, k: nat)
    requires |s| == 8 && k < 8
    ensures var r := Output(s); Join(r[4 * k], r[4 * k + 1], r[4 * k + 2], r[4 * k + 3]) == s[k]
  {
    OutputAt(s, k, 0);
    OutputAt(s, k, 1);
    OutputAt(s, k, 2);
    OutputAt(s, k, 3);
    JoinBytesOf(s[k]);
  }

  // ---------- section 5.1.1 in bits ----------

  // Bit `j` of a byte, the most significant first.
  predicate BitOf(b: byte, j: bv3) {
    (b << j) & 0x80 == 0x80
  }

  lemma OneThenZeros(b: byte, first: bool, j: bv3)
    requires b == if first then 0x80 else 0
    ensures BitOf(b, j) <==> first && j == 0
  {
  }

  lemma PadZerosAre(len: nat)
    ensures PadZeros(len) < 64 && (len + 9 + PadZeros(len)) % 64 == 0
  {
  }

  // Between the message and its length there is one bit 1 and then no more zeros than fill up the block.
  lemma PaddedIs(msg: seq<byte>, r: seq<byte>)
    requires r == Padded(msg)
    ensures |r| % 64 == 0 && |msg| + 9 <= |r| < |msg| + 9 + 64 && r[..|msg|] == msg
    ensures |msg| < 0x2000_0000_0000_0000 ==> Value(r[|r| - 8..]) == 8 * |msg|
    ensures forall k, j: bv3 | |msg| <= k < |r| - 8 :: BitOf(r[k], j) <==> k == |msg| && j == 0
  {
    PadZerosAre(|msg|);
    assert r[|r| - 8..] == LengthBytes(|msg|);
    if |msg| < 0x2000_0000_0000_0000 {
      LengthIsExact(|msg|, 8);
    }
    forall k, j: bv3 | |msg| <= k < |r| - 8
      ensures BitOf(r[k], j) <==> k == |msg| && j == 0
    {
      OneThenZeros(r[k], k == |msg|, j);
    }
  }
}
