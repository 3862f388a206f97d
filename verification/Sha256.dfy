/**
 Streaming SHA-256 and the hash of sections 5.1.1, 5.2.1 and 6.2.2 of FIPS 180-4.
 */
module Sha256 {
  type byte = bv8
  type word = bv32

  // ---------- FIPS 180-4 ----------

  // Section 4.1.2, with the rotations written out.
  function Ch(x: word, y: word, z: word): word {
    (x & y) ^ (!x & z)
  }

  function Maj(x: word, y: word, z: word): word {
    (x & y) ^ (x & z) ^ (y & z)
  }

  // Section 3.2: a rotation to the right.
  function Rotate(x: word, n: bv6): word
    requires 0 < n < 32
  {
    (x >> n) | (x << (32 - n))
  }

  // A shift to the right.
  function Shift(x: word, n: bv6): word
    requires n < 32
  {
    x >> n
  }

  function Xor(x: word, y: word, z: word): word {
    x ^ y ^ z
  }

  function BigSigma0(x: word): word {
    Xor(Rotate(x, 2), Rotate(x, 13), Rotate(x, 22))
  }

  function BigSigma1(x: word): word {
    Xor(Rotate(x, 6), Rotate(x, 11), Rotate(x, 25))
  }

  function Sigma0(x: word): word {
    Xor(Rotate(x, 7), Rotate(x, 18), Shift(x, 3))
  }

  function Sigma1(x: word): word {
    Xor(Rotate(x, 17), Rotate(x, 19), Shift(x, 10))
  }

  // Addition modulo 2^32.
  function Plus(x: word, y: word): word {
    x + y
  }

  // Section 4.2.2.
  const K: seq<seq<word>> := [
    [0x428a2f98, 0x71374491, 0xb5c0fbcf, 0xe9b5dba5, 0x3956c25b, 0x59f111f1, 0x923f82a4, 0xab1c5ed5],
    [0xd807aa98, 0x12835b01, 0x243185be, 0x550c7dc3, 0x72be5d74, 0x80deb1fe, 0x9bdc06a7, 0xc19bf174],
    [0xe49b69c1, 0xefbe4786, 0x0fc19dc6, 0x240ca1cc, 0x2de92c6f, 0x4a7484aa, 0x5cb0a9dc, 0x76f988da],
    [0x983e5152, 0xa831c66d, 0xb00327c8, 0xbf597fc7, 0xc6e00bf3, 0xd5a79147, 0x06ca6351, 0x14292967],
    [0x27b70a85, 0x2e1b2138, 0x4d2c6dfc, 0x53380d13, 0x650a7354, 0x766a0abb, 0x81c2c92e, 0x92722c85],
    [0xa2bfe8a1, 0xa81a664b, 0xc24b8b70, 0xc76c51a3, 0xd192e819, 0xd6990624, 0xf40e3585, 0x106aa070],
    [0x19a4c116, 0x1e376c08, 0x2748774c, 0x34b0bcb5, 0x391c0cb3, 0x4ed8aa4a, 0x5b9cca4f, 0x682e6ff3],
    [0x748f82ee, 0x78a5636f, 0x84c87814, 0x8cc70208, 0x90befffa, 0xa4506ceb, 0xbef9a3f7, 0xc67178f2]
  ]

  // Section 5.3.3.
  const H0: seq<word> := [
    0x6a09e667, 0xbb67ae85, 0x3c6ef372, 0xa54ff53a, 0x510e527f, 0x9b05688c, 0x1f83d9ab, 0x5be0cd19
  ]

  function Constant(t: nat): word
    requires t < 64
  {
    K[t / 8][t % 8]
  }

  function Join(b0: byte, b1: byte, b2: byte, b3: byte): word {
    ((b0 as word) << 24) | ((b1 as word) << 16) | ((b2 as word) << 8) | (b3 as word)
  }

  function Mix(w2: word, w7: word, w15: word, w16: word): word {
    Plus(Plus(Plus(Sigma1(w2), w7), Sigma0(w15)), w16)
  }

  // The word `t` of the message schedule, section 6.2.2, step 1, from the words before it.
  function NextWord(block: seq<byte>, w: seq<word>): word
    requires |block| == 64 && |w| < 64
  {
    var t := |w|;
    if t < 16 then Join(block[4 * t], block[4 * t + 1], block[4 * t + 2], block[4 * t + 3])
    else Mix(w[t - 2], w[t - 7], w[t - 15], w[t - 16])
  }

  // The first `n` words of the schedule.
  function Expand(block: seq<byte>, n: nat): (w: seq<word>)
    requires |block| == 64 && n <= 64
    ensures |w| == n
  {
    if n == 0 then [] else var w := Expand(block, n - 1); w + [NextWord(block, w)]
  }

  datatype Registers = Registers(a: word, b: word, c: word, d: word, e: word, f: word, g: word, h: word)

  function Load(s: seq<word>): Registers
    requires |s| == 8
  {
    Registers(s[0], s[1], s[2], s[3], s[4], s[5], s[6], s[7])
  }

  // One turn of step 3.
  function Round(r: Registers, k: word, w: word): Registers {
    var t1 := Plus(Plus(Plus(Plus(r.h, BigSigma1(r.e)), Ch(r.e, r.f, r.g)), k), w);
    var t2 := Plus(BigSigma0(r.a), Maj(r.a, r.b, r.c));
    Registers(Plus(t1, t2), r.a, r.b, r.c, Plus(r.d, t1), r.e, r.f, r.g)
  }

  // Steps 2 and 3: the registers after `t` rounds.
  function Rounds(s: Registers, w: seq<word>, t: nat): Registers
    requires |w| == 64 && t <= 64
  {
    if t == 0 then s else Round(Rounds(s, w, t - 1), Constant(t - 1), w[t - 1])
  }

  // Step 4.
  function Add(s: seq<word>, r: Registers): (s': seq<word>)
    requires |s| == 8
    ensures |s'| == 8
  {
    [Plus(s[0], r.a), Plus(s[1], r.b), Plus(s[2], r.c), Plus(s[3], r.d),
     Plus(s[4], r.e), Plus(s[5], r.f), Plus(s[6], r.g), Plus(s[7], r.h)]
  }

  function Compress(s: seq<word>, block: seq<byte>): (s': seq<word>)
    requires |s| == 8 && |block| == 64
    ensures |s'| == 8
  {
    var w := Expand(block, |block|);
    Add(s, Rounds(Load(s), w, |w|))
  }

  // All whole blocks of `bytes`.
  function HashBlocks(bytes: seq<byte>): (s: seq<word>)
    requires |bytes| % 64 == 0
    ensures |s| == 8
  {
    if bytes == [] then H0
    else Compress(HashBlocks(bytes[..|bytes| - 64]), bytes[|bytes| - 64..])
  }

  // The byte of value `n`.
  function AsByte(n: nat): byte
    requires n < 256
  {
    if n == 0 then 0 else AsByte(n - 1) + 1
  }

  // The low `k` bytes of `n`, most significant first.
  function BigEndian(n: nat, k: nat): (r: seq<byte>)
    ensures |r| == k
  {
    if k == 0 then [] else BigEndian(n / 256, k - 1) + [AsByte(n % 256)]
  }

  function Zeros(k: nat): (r: seq<byte>)
    ensures |r| == k && forall i | 0 <= i < k :: r[i] == 0
  {
    seq(k, _ => 0)
  }

  // The zeros between the byte 0x80 and the eight bytes of the length.
  function PadZeros(len: nat): nat {
    (119 - len % 64) % 64
  }

  // They fill the last block, and no fewer do.
  lemma LeastPadding(len: nat, k: nat)
    ensures (len + 1 + PadZeros(len) + 8) % 64 == 0
    ensures (len + 1 + k + 8) % 64 == 0 ==> PadZeros(len) <= k
  {
  }

  // Section 5.1.1, given the last eight bytes.
  function PaddedWith(msg: seq<byte>, length: seq<byte>): (r: seq<byte>)
    requires |length| == 8
    ensures |r| % 64 == 0
  {
    LeastPadding(|msg|, 0);
    ((msg + [0x80]) + Zeros(PadZeros(|msg|))) + length
  }

  function LengthField(n: nat): (r: seq<byte>)
    ensures |r| == 8
  {
    BigEndian(n, 8)
  }

  // The length in bits, modulo 2^64, which it is below for messages under 2^61 bytes.
  function LengthBytes(len: nat): (r: seq<byte>)
    ensures |r| == 8
  {
    LengthField(8 * len % 0x1_0000_0000_0000_0000)
  }

  function Padded(msg: seq<byte>): (r: seq<byte>)
    ensures |r| % 64 == 0
  {
    PaddedWith(msg, LengthBytes(|msg|))
  }

  function ByteOf(w: word, i: nat): byte
    requires i < 4
  {
    match i
    case 0 => ((w >> 24) & 0xff) as byte
    case 1 => ((w >> 16) & 0xff) as byte
    case 2 => ((w >> 8) & 0xff) as byte
    case 3 => (w & 0xff) as byte
  }

  // The bytes of the words, most significant first.
  function Output(s: seq<word>): (r: seq<byte>)
    requires |s| == 8
    ensures |r| == 32
  {
    seq(32, j requires 0 <= j < 32 => ByteOf(s[j / 4], j % 4))
  }

  function Digest(msg: seq<byte>): (r: seq<byte>)
    ensures |r| == 32
  {
    Output(HashBlocks(Padded(msg)))
  }

  // ---------- padding and blocks ----------

  // A compression function. Streaming does not depend on what it computes.
  type Compression = (seq<word>, seq<byte>) -> seq<word>

  function Blocks(f: Compression, bytes: seq<byte>): seq<word> {
    if |bytes| < 64 then H0 else f(Blocks(f, bytes[..|bytes| - 64]), bytes[|bytes| - 64..])
  }

  lemma OneMoreBlock(f: Compression, bytes: seq<byte>, block: seq<byte>)
    requires |bytes| % 64 == 0 && |block| == 64
    ensures Blocks(f, bytes + block) == f(Blocks(f, bytes), block)
  {
    assert (bytes + block)[..|bytes|] == bytes && (bytes + block)[|bytes|..] == block;
  }

  ghost predicate IsSha256(f: Compression) {
    forall s: seq<word>, block: seq<byte> {:trigger Compress(s, block)} | |s| == 8
      && |block| == 64 :: f(s, block) == Compress(s, block)
  }

  lemma {:induction false} BlocksAreHashed(f: Compression, bytes: seq<byte>)
    requires IsSha256(f) && |bytes| % 64 == 0
    ensures Blocks(f, bytes) == HashBlocks(bytes)
  {
    if bytes != [] {
      BlocksAreHashed(f, bytes[..|bytes| - 64]);
    }
  }

  // How a number is written in eight bytes. Padding does not depend on that either.
  type Encoding = nat -> seq<byte>

  ghost predicate EightEach(enc: Encoding) {
    forall n: nat {:trigger enc(n)} :: |enc(n)| == 8
  }

  ghost predicate IsBigEndian(enc: Encoding) {
    forall n: nat {:trigger LengthField(n)} :: enc(n) == LengthField(n)
  }

  // The two ways FIPS 180-4 prescribes.
  ghost predicate Standard(f: Compression, enc: Encoding) {
    IsSha256(f) && EightEach(enc) && IsBigEndian(enc)
  }

  ghost function PaddedBy(enc: Encoding, msg: seq<byte>): (r: seq<byte>)
    requires EightEach(enc)
  {
    PaddedWith(msg, enc(8 * |msg| % 0x1_0000_0000_0000_0000))
  }

  // The digest, for a compression function and a way to write the length.
  ghost function DigestBy(f: Compression, enc: Encoding, msg: seq<byte>): seq<byte>
    requires EightEach(enc)
  {
    var s := Blocks(f, PaddedBy(enc, msg));
    if |s| == 8 then Output(s) else []
  }

  lemma DigestsAgree(f: Compression, enc: Encoding, msg: seq<byte>)
    requires Standard(f, enc)
    ensures DigestBy(f, enc, msg) == Digest(msg)
  {
    assert enc(8 * |msg| % 0x1_0000_0000_0000_0000) == LengthField(8 * |msg| % 0x1_0000_0000_0000_0000);
    BlocksAreHashed(f, Padded(msg));
  }

  // The value of bytes, most significant first.
  function Value(bytes: seq<byte>): nat {
    if bytes == [] then 0 else 256 * Value(bytes[..|bytes| - 1]) + bytes[|bytes| - 1] as nat
  }

  function Pow256(k: nat): (r: nat)
    ensures r > 0
  {
    if k == 0 then 1 else 256 * Pow256(k - 1)
  }

  lemma Successor(b: byte)
    requires b != 255
    ensures (b + 1) as nat == b as nat + 1
  {
  }

  lemma {:induction false} AsByteValue(n: nat)
    requires n < 256
    ensures AsByte(n) as nat == n
  {
    if n > 0 {
      AsByteValue(n - 1);
      Successor(AsByte(n - 1));
    }
  }

  lemma {:induction false} BigEndianValue(n: nat, k: nat)
    requires n < Pow256(k)
    ensures Value(BigEndian(n, k)) == n
  {
    if k > 0 {
      BigEndianValue(n / 256, k - 1);
      var r := BigEndian(n / 256, k - 1);
      assert BigEndian(n, k)[..k - 1] == r;
      AsByteValue(n % 256);
    }
  }

  lemma EightBytesSuffice(k: nat)
    requires k == 8
    ensures Pow256(k) == 0x1_0000_0000_0000_0000
  {
    assert Pow256(4) == 0x1_0000_0000;
    assert Pow256(8) == 0x1_0000_0000_0000_0000;
  }

  // Below 2^61 bytes, the last eight bytes of the padded message are its length in bits.
  lemma LengthIsExact(len: nat, k: nat)
    requires len < 0x2000_0000_0000_0000 && k == 8
    ensures Value(BigEndian(8 * len % 0x1_0000_0000_0000_0000, k)) == 8 * len
  {
    EightBytesSuffice(k);
    var n := 8 * len;
    assert n % 0x1_0000_0000_0000_0000 == n;
    BigEndianValue(n, k);
  }

  method StartState(state: array<word>)
    requires state.Length == 8
    modifies state
    ensures state[..] == H0
  {
    state[0], state[1], state[2], state[3] := 0x6a09e667, 0xbb67ae85, 0x3c6ef372, 0xa54ff53a;
    state[4], state[5], state[6], state[7] := 0x510e527f, 0x9b05688c, 0x1f83d9ab, 0x5be0cd19;
    assert state[..] == H0;
  }

  method Store(state: array<word>, s: seq<word>)
    requires state.Length == |s| == 8
    modifies state
    ensures state[..] == s
  {
    state[0], state[1], state[2], state[3] := s[0], s[1], s[2], s[3];
    state[4], state[5], state[6], state[7] := s[4], s[5], s[6], s[7];
    assert forall i | 0 <= i < 8 :: state[i] == s[i];
  }

  method AddRegisters(state: array<word>, r: Registers)
    requires state.Length == 8
    modifies state
    ensures state[..] == Add(old(state[..]), r)
  {
    var s := state[..];
    Store(state, [Plus(s[0], r.a), Plus(s[1], r.b), Plus(s[2], r.c), Plus(s[3], r.d),
                  Plus(s[4], r.e), Plus(s[5], r.f), Plus(s[6], r.g), Plus(s[7], r.h)]);
  }

  lemma LowFourBytes(n: nat, k: nat)
    requires k >= 4
    ensures BigEndian(n, k) == BigEndian(n / 0x1_0000_0000, k - 4) +
      [AsByte(n / 0x100_0000 % 256), AsByte(n / 0x1_0000 % 256), AsByte(n / 0x100 % 256), AsByte(n % 256)]
  {
    var n1, n2, n3 := n / 0x100, n / 0x1_0000, n / 0x100_0000;
    assert n1 / 256 == n2 && n2 / 256 == n3 && n3 / 256 == n / 0x1_0000_0000;
    assert BigEndian(n1, k - 1) == BigEndian(n2, k - 2) + [AsByte(n1 % 256)];
    assert BigEndian(n2, k - 2) == BigEndian(n3, k - 3) + [AsByte(n2 % 256)];
  }

  // The low eight bytes of `n`, one by one.
  lemma EightBytes(n: nat, k: nat)
    requires k == 8
    ensures BigEndian(n, k) == [
      AsByte(n / 0x100_0000_0000_0000 % 256), AsByte(n / 0x1_0000_0000_0000 % 256),
      AsByte(n / 0x100_0000_0000 % 256), AsByte(n / 0x1_0000_0000 % 256),
      AsByte(n / 0x100_0000 % 256), AsByte(n / 0x1_0000 % 256), AsByte(n / 0x100 % 256), AsByte(n % 256)]
  {
    var n4 := n / 0x1_0000_0000;
    LowFourBytes(n, k);
    LowFourBytes(n4, k - 4);
    assert n4 / 0x100 == n / 0x100_0000_0000 && n4 / 0x1_0000 == n / 0x1_0000_0000_0000
      && n4 / 0x100_0000 == n / 0x100_0000_0000_0000;
    assert BigEndian(n4 / 0x1_0000_0000, 0) == [];
  }

  // `msg` is cut into whole blocks and a rest of less than a block.
  ghost predicate Cut(msg: seq<byte>, blocks: seq<byte>, tail: seq<byte>) {
    msg == blocks + tail && |blocks| % 64 == 0 && |tail| < 64
  }

  lemma CutMore(msg: seq<byte>, blocks: seq<byte>, tail: seq<byte>, b: byte)
    requires Cut(msg, blocks, tail)
    ensures |tail| < 63 ==> Cut(msg + [b], blocks, tail + [b])
    ensures |tail| == 63 ==> Cut(msg + [b], blocks + (tail + [b]), [])
  {
    Regroup(blocks, tail, [b]);
    assert (blocks + (tail + [b])) + [] == blocks + (tail + [b]);
  }

  lemma Regroup(a: seq<byte>, b: seq<byte>, c: seq<byte>)
    ensures (a + b) + c == a + (b + c)
  {
  }

  // A rest of less than 56 bytes shares its block with the length.
  lemma ShortPadding(msg: seq<byte>, blocks: seq<byte>, tail: seq<byte>, most: seq<byte>, length: seq<byte>)
    requires Cut(msg, blocks, tail) && |tail| < 56 && most == (tail + [0x80]) + Zeros(55 - |tail|) && |length| == 8
    ensures PaddedWith(msg, length) == blocks + (most + length)
  {
    assert PadZeros(|msg|) == 55 - |tail|;
    Regroup(blocks, tail, [0x80]);
    Regroup(blocks, tail + [0x80], Zeros(55 - |tail|));
    Regroup(blocks, most, length);
  }

  // A longer rest fills its block, and the length needs one more.
  lemma LongPadding(msg: seq<byte>, blocks: seq<byte>, tail: seq<byte>, block: seq<byte>, length: seq<byte>)
    requires Cut(msg, blocks, tail) && |tail| >= 56 && block == (tail + [0x80]) + Zeros(63 - |tail|) && |length| == 8
    ensures PaddedWith(msg, length) == (blocks + block) + (Zeros(56) + length)
  {
    var zeros := Zeros(63 - |tail|);
    assert PadZeros(|msg|) == 119 - |tail|;
    assert Zeros(119 - |tail|) == zeros + Zeros(56);
    Regroup(blocks, tail, [0x80]);
    Regroup(blocks, tail + [0x80], zeros);
    Regroup(msg + [0x80], zeros, Zeros(56));
    Regroup(blocks + block, Zeros(56), length);
  }

  // Counting bits modulo 2^64.
  lemma MoreBits(bits: nat, n: nat, k: nat, m: nat)
    requires bits == 8 * n % 0x1_0000_0000_0000_0000 && m == n + k
    ensures (bits + k * 8) % 0x1_0000_0000_0000_0000 == 8 * m % 0x1_0000_0000_0000_0000
  {
  }

  lemma OutputAt(s: seq<word>, k: nat, i: nat)
    requires |s| == 8 && k < 8 && i < 4
    ensures Output(s)[i + 4 * k] == ByteOf(s[k], i)
  {
  }

  class Context {
    var data: array<byte>
    var datalen: nat
    var bitlen: nat
    var state: array<word>

    // The bytes taken so far, and those of them hashed into `state`.
    ghost var msg: seq<byte>
    ghost var blocks: seq<byte>
    ghost const f: Compression
    ghost const enc: Encoding

    ghost predicate Arrays()
      reads this
    {
      data.Length == 64 && state.Length == 8
    }

    ghost predicate Valid()
      reads this, data, state
    {
      Arrays() && datalen < 64 && Cut(msg, blocks, data[..datalen])
        && bitlen == 8 * |blocks| % 0x1_0000_0000_0000_0000 && state[..] == Blocks(f, blocks) && Standard(f, enc)
    }

    // sha256_init
    constructor ()
      ensures Valid() && msg == [] && fresh(data) && fresh(state)
    {
      data, state := new byte[64], new word[8];
      datalen, bitlen, msg, blocks := 0, 0, [], [];
      f := (s, block) => if |s| == 8 && |block| == 64 then Compress(s, block) else s;
      enc := (n: nat) => LengthField(n);
      new;
      StartState(state);
    }

    method Schedule() returns (m: array<word>)
      requires Arrays()
      ensures m.Length == 64 && fresh(m) && m[..] == Expand(data[..], data.Length)
    {
      m := new word[64];
      ghost var block := data[..];
      var j := 0;
      for i := 0 to 16
        invariant j == 4 * i && m[..i] == Expand(block, i)
      {
        m[i] := Join(data[j], data[j + 1], data[j + 2], data[j + 3]);
        j := j + 4;
        assert m[..i + 1] == m[..i] + [NextWord(block, m[..i])];
      }
      for i := 16 to 64
        invariant m[..i] == Expand(block, i)
      {
        m[i] := Mix(m[i - 2], m[i - 7], m[i - 15], m[i - 16]);
        assert m[..i + 1] == m[..i] + [NextWord(block, m[..i])];
      }
      assert m[..] == m[..data.Length];
    }

    method RunRounds(m: array<word>) returns (r: Registers)
      requires Arrays() && m.Length == 64
      ensures r == Rounds(Load(state[..]), m[..], m.Length)
    {
      var a, b, c, d := state[0], state[1], state[2], state[3];
      var e, f, g, h := state[4], state[5], state[6], state[7];
      for i := 0 to 64
        invariant Registers(a, b, c, d, e, f, g, h) == Rounds(Load(state[..]), m[..], i)
      {
        var t1 := Plus(Plus(Plus(Plus(h, BigSigma1(e)), Ch(e, f, g)), Constant(i)), m[i]);
        var t2 := Plus(BigSigma0(a), Maj(a, b, c));
        h, g, f, e := g, f, e, Plus(d, t1);
        d, c, b, a := c, b, a, Plus(t1, t2);
      }
      return Registers(a, b, c, d, e, f, g, h);
    }

    // sha256_transform
    method Transform()
      requires Arrays()
      modifies state
      ensures state[..] == Compress(old(state[..]), data[..])
    {
      var m := Schedule();
      var r := RunRounds(m);
      AddRegisters(state, r);
    }

    // Hash the full buffer.
    method Flush()
      requires Arrays() && |blocks| % 64 == 0 && state[..] == Blocks(f, blocks) && Standard(f, enc)
      modifies this`blocks, state
      ensures blocks == old(blocks + data[..]) && |blocks| % 64 == 0 && state[..] == Blocks(f, blocks)
    {
      OneMoreBlock(f, blocks, data[..]);
      Transform();
      blocks := blocks + data[..];
    }

    method FlushFull()
      requires Arrays() && datalen == 64 && Cut(msg, blocks + data[..datalen], []) && |blocks| % 64 == 0
      requires bitlen == 8 * |blocks| % 0x1_0000_0000_0000_0000 && state[..] == Blocks(f, blocks) && Standard(f, enc)
      modifies this`datalen, this`bitlen, this`blocks, state
      ensures Valid() && datalen == 0
    {
      assert data[..] == data[..64];
      MoreBits(bitlen, |blocks|, 64, |blocks| + 64);
      Flush();
      bitlen := (bitlen + 512) % 0x1_0000_0000_0000_0000;
      datalen := 0;
      assert data[..0] == [];
    }

    // One turn of the loop of sha256_update.
    method Feed(b: byte)
      requires Valid()
      modifies this`datalen, this`bitlen, this`msg, this`blocks, data, state
      ensures Valid() && msg == old(msg) + [b]
    {
      ghost var tail := data[..datalen];
      CutMore(msg, blocks, tail, b);
      data[datalen] := b;
      datalen := datalen + 1;
      msg := msg + [b];
      assert data[..datalen] == tail + [b];
      if datalen == 64 {
        FlushFull();
      }
    }

    // sha256_update
    method Update(bytes: seq<byte>)
      requires Valid()
      modifies this`datalen, this`bitlen, this`msg, this`blocks, data, state
      ensures Valid() && msg == old(msg) + bytes
    {
      for i := 0 to |bytes|
        invariant Valid() && msg == old(msg) + bytes[..i]
      {
        assert bytes[..i + 1] == bytes[..i] + [bytes[i]];
        Feed(bytes[i]);
      }
      assert bytes[..|bytes|] == bytes;
    }

    // Zero bytes from `i` up to `end`.
    method Clear(from: nat, end: nat)
      requires Arrays() && from <= end <= 64
      modifies data
      ensures data[..end] == old(data[..from]) + Zeros(end - from)
    {
      var i := from;
      while i < end
        invariant from <= i <= end && data[..i] == old(data[..from]) + Zeros(i - from)
      {
        data[i] := 0;
        i := i + 1;
        assert data[..i] == data[..i - 1] + [0] && Zeros(i - from) == Zeros(i - 1 - from) + [0];
      }
    }

    // The length in bits, most significant byte first, in the last eight bytes.
    method PutLength()
      requires Arrays() && bitlen < 0x1_0000_0000_0000_0000 && Standard(f, enc)
      modifies data
      ensures data[..] == old(data[..56]) + enc(bitlen)
    {
      var b0, b1 := AsByte(bitlen / 0x100_0000_0000_0000 % 256), AsByte(bitlen / 0x1_0000_0000_0000 % 256);
      var b2, b3 := AsByte(bitlen / 0x100_0000_0000 % 256), AsByte(bitlen / 0x1_0000_0000 % 256);
      var b4, b5 := AsByte(bitlen / 0x100_0000 % 256), AsByte(bitlen / 0x1_0000 % 256);
      var b6, b7 := AsByte(bitlen / 0x100 % 256), AsByte(bitlen % 256);
      EightBytes(bitlen, 8);
      assert enc(bitlen) == LengthField(bitlen);
      PutBytes([b0, b1, b2, b3, b4, b5, b6, b7]);
    }

    // The last eight bytes of the buffer, the last one first.
    method PutBytes(b: seq<byte>)
      requires Arrays() && |b| == 8
      modifies data
      ensures data[..] == old(data[..56]) + b
    {
      data[63], data[62], data[61], data[60] := b[7], b[6], b[5], b[4];
      data[59], data[58], data[57], data[56] := b[3], b[2], b[1], b[0];
      assert data[56..] == b && data[..56] == old(data[..56]);
    }

    // The end of sha256_final before the output, for the first 56 bytes `most` of the last block.
    method FinishBlock(ghost most: seq<byte>)
      requires Arrays() && |blocks| % 64 == 0 && state[..] == Blocks(f, blocks) && Standard(f, enc)
      requires most == data[..56] && bitlen < 0x1_0000_0000_0000_0000
      modifies this`blocks, data, state
      ensures blocks == old(blocks) + (most + enc(bitlen)) && |blocks| % 64 == 0
        && state[..] == Blocks(f, blocks)
    {
      PutLength();
      Flush();
    }

    // The padding when the length still fits into the buffer.
    method PadShort(ghost length: seq<byte>)
      requires Valid() && datalen < 56 && |length| == 8
      modifies data
      ensures data[..datalen] == old(data[..datalen]) && PaddedWith(msg, length) == blocks + (data[..56] + length)
    {
      ghost var tail := data[..datalen];
      data[datalen] := 0x80;
      assert data[..datalen + 1] == tail + [0x80];
      Clear(datalen + 1, 56);
      ShortPadding(msg, blocks, tail, data[..56], length);
    }

    // The padding when the length needs a block of its own.
    method PadLong(ghost length: seq<byte>)
      requires Valid() && datalen >= 56 && |length| == 8
      modifies this`blocks, data, state
      ensures |blocks| % 64 == 0 && state[..] == Blocks(f, blocks)
        && PaddedWith(msg, length) == blocks + (data[..56] + length)
    {
      ghost var tail := data[..datalen];
      data[datalen] := 0x80;
      assert data[..datalen + 1] == tail + [0x80];
      Clear(datalen + 1, 64);
      assert data[..] == data[..64];
      LongPadding(msg, blocks, tail, data[..], length);
      Flush();
      Clear(0, 56);
      assert data[..56] == Zeros(56);
    }

    // The output loop, its eight assignments taken word by word.
    method PutHash(hash: array<byte>)
      requires Arrays() && hash.Length == 32
      modifies hash
      ensures hash[..] == Output(state[..])
    {
      ghost var out := Output(state[..]);
      for i := 0 to 4
        invariant forall j | 0 <= j < 32 && j % 4 < i :: hash[j] == out[j]
      {
        for k := 0 to 8
          invariant forall j | 0 <= j < 32 && (j % 4 < i || (j % 4 == i && j / 4 < k)) :: hash[j] == out[j]
        {
          OutputAt(state[..], k, i);
          hash[i + 4 * k] := ByteOf(state[k], i);
        }
      }
    }

    // The padding up to the length.
    method PadTail(ghost length: seq<byte>)
      requires Valid() && |length| == 8
      modifies this`blocks, data, state
      ensures |blocks| % 64 == 0 && state[..] == Blocks(f, blocks)
        && PaddedWith(msg, length) == blocks + (data[..56] + length)
    {
      if datalen < 56 {
        PadShort(length);
      } else {
        PadLong(length);
      }
    }

    // All bits taken, modulo 2^64.
    method TotalBits() returns (bits: nat)
      requires Valid()
      ensures bits == 8 * |msg| % 0x1_0000_0000_0000_0000 && bits < 0x1_0000_0000_0000_0000
    {
      MoreBits(bitlen, |blocks|, datalen, |msg|);
      bits := (bitlen + datalen * 8) % 0x1_0000_0000_0000_0000;
    }

    // The padding with `bits` for the length.
    method PadBy(bits: nat)
      requires Valid() && bits < 0x1_0000_0000_0000_0000
      modifies this`blocks, this`bitlen, data, state
      ensures EightEach(enc) && blocks == PaddedWith(msg, enc(bits)) && state[..] == Blocks(f, blocks)
    {
      PadTail(enc(bits));
      bitlen := bits;
      FinishBlock(data[..56]);
    }

    // sha256_final up to the output.
    method Pad()
      requires Valid()
      modifies this`blocks, this`bitlen, data, state
      ensures EightEach(enc) && blocks == PaddedBy(enc, msg) && state[..] == Blocks(f, blocks)
    {
      var bits := TotalBits();
      PadBy(bits);
    }

    // sha256_final
    method Final(hash: array<byte>)
      requires Valid() && hash != data && hash.Length == 32
      modifies this`blocks, this`bitlen, data, state, hash
      ensures hash[..] == Digest(msg)
    {
      Pad();
      PutHash(hash);
      DigestsAgree(f, enc, msg);
    }
  }

  // ---------- any way of cutting the message ----------

  function Concat(chunks: seq<seq<byte>>): seq<byte> {
    if chunks == [] then [] else Concat(chunks[..|chunks| - 1]) + chunks[|chunks| - 1]
  }

  // Updates with one chunk after the other.
  method TakeChunks(ctx: Context, chunks: seq<seq<byte>>)
    requires ctx.Valid() && ctx.msg == []
    modifies ctx`datalen, ctx`bitlen, ctx`msg, ctx`blocks, ctx.data, ctx.state
    ensures ctx.Valid() && ctx.msg == Concat(chunks)
  {
    for i := 0 to |chunks|
      invariant ctx.Valid() && ctx.msg == Concat(chunks[..i])
    {
      assert chunks[..i + 1][..i] == chunks[..i];
      ctx.Update(chunks[i]);
    }
    assert chunks[..|chunks|] == chunks;
  }

  method HashChunks(chunks: seq<seq<byte>>) returns (hash: array<byte>)
    ensures fresh(hash) && hash[..] == Digest(Concat(chunks))
  {
    var ctx := new Context();
    TakeChunks(ctx, chunks);
    hash := new byte[32];
    ctx.Final(hash);
  }
}
