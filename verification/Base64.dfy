/**
 Base64 coding, against section 4 of RFC 4648: groups of 24 bits written as four digits of 6 bits.
 */
module Base64 {
  import opened Bits
  import opened Options

  type Byte = b: nat | b < 256

  // ---------- digits ----------

  // The encoding table: A to Z, a to z, 0 to 9, + and /.
  function Digit(n: nat): char
    requires n < 64
  {
    if n < 26 then (65 + n) as char
    else if n < 52 then (97 + n - 26) as char
    else if n < 62 then (48 + n - 52) as char
    else if n == 62 then '+'
    else '/'
  }

  // b64_val
  function Val(c: char): (v: int)
    ensures -1 <= v < 64
  {
    if 'A' <= c <= 'Z' then c as int - 65
    else if 'a' <= c <= 'z' then c as int - 97 + 26
    else if '0' <= c <= '9' then c as int - 48 + 52
    else if c == '+' then 62
    else if c == '/' then 63
    else -1
  }

  const UPPER := "ABCDEFGHIJKLMNOPQRSTUVWXYZ"
  const LOWER := "abcdefghijklmnopqrstuvwxyz"
  const REST := "0123456789+/"
  const TABLE := UPPER + LOWER + REST

  lemma Letter(n: nat)
    requires n < 26
    ensures UPPER[n] == Digit(n) && LOWER[n] == Digit(n + 26)
  {
    assert UPPER == seq(26, i requires 0 <= i < 26 => Digit(i));
    assert LOWER == seq(26, i requires 0 <= i < 26 => Digit(i + 26));
  }

  lemma NoLetter(n: nat)
    requires n < 12
    ensures REST[n] == Digit(n + 52)
  {
  }

  // The digits are those of the table, in its order.
  lemma DigitIsTabled(n: nat)
    requires n < 64
    ensures |TABLE| == 64 && Digit(n) == TABLE[n]
  {
    var upper, lower, rest := UPPER, LOWER, REST;
    assert (upper + lower + rest)[n] ==
      if n < 26 then upper[n] else if n < 52 then lower[n - 26] else rest[n - 52];
    if n < 52 {
      Letter(n % 26);
    } else {
      NoLetter(n - 52);
    }
  }

  lemma ValDigit(n: nat)
    requires n < 64
    ensures Val(Digit(n)) == n && Digit(n) != '='
  {
  }

  lemma DigitVal(c: char)
    requires Val(c) >= 0
    ensures Digit(Val(c)) == c && c != '='
  {
  }

  // ---------- encoding ----------

  // Digit `i` of a 24-bit number, most significant first.
  function DigitOf(n: nat, i: nat): char
    requires n < 0x100_0000 && i < 4
  {
    match i
    case 0 => Digit(n / 262144)
    case 1 => Digit(n / 4096 % 64)
    case 2 => Digit(n / 64 % 64)
    case 3 => Digit(n % 64)
  }

  // Three bytes as a number of 24 bits.
  function Number(b0: Byte, b1: Byte, b2: Byte): (n: nat)
    ensures n < 0x100_0000
  {
    var x0: nat, x1: nat, x2: nat := b0, b1, b2;
    65536 * x0 + 256 * x1 + x2
  }

  // Up to three bytes, filled up with zero bytes.
  function NumberOf(x: seq<Byte>): (n: nat)
    requires 1 <= |x| <= 3
    ensures n < 0x100_0000
  {
    Number(x[0], if |x| > 1 then x[1] else 0, if |x| > 2 then x[2] else 0)
  }

  // A group of up to three bytes as digits and padding.
  function Group(x: seq<Byte>): (s: string)
    requires 1 <= |x| <= 3
    ensures |s| == 4
  {
    var n := NumberOf(x);
    [DigitOf(n, 0), DigitOf(n, 1), if |x| > 1 then DigitOf(n, 2) else '=', if |x| > 2 then DigitOf(n, 3) else '=']
  }

  function Encode(x: seq<Byte>): string {
    if x == [] then "" else if |x| <= 3 then Group(x) else Group(x[..3]) + Encode(x[3..])
  }

  lemma GroupCount(n: nat)
    ensures n > 3 ==> (n + 2) / 3 == (n - 3 + 2) / 3 + 1
    ensures 1 <= n <= 3 ==> (n + 2) / 3 == 1
  {
  }

  lemma {:induction false} EncodeLength(x: seq<Byte>)
    ensures |Encode(x)| == 4 * ((|x| + 2) / 3) && |Encode(x)| % 4 == 0
  {
    GroupCount(|x|);
    if |x| > 3 {
      EncodeLength(x[3..]);
    }
    FourTimes((|x| + 2) / 3);
  }

  lemma FourTimes(n: nat)
    ensures 4 * n % 4 == 0
  {
  }

  // ---------- decoding ----------

  // Four digits as a number of 24 bits.
  function FromDigits(a: nat, b: nat, c: nat, d: nat): (n: nat)
    requires a < 64 && b < 64 && c < 64 && d < 64
    ensures n < 0x100_0000
  {
    262144 * a + 4096 * b + 64 * c + d
  }

  function BytesOf(n: nat, second: bool, third: bool): (x: seq<Byte>)
    requires n < 0x100_0000
  {
    [n / 65536] + (if second then [n / 256 % 256] else []) + (if third then [n % 256] else [])
  }

  // What four characters decode to. Padding is taken for the digit 0 and drops its byte, in any group.
  function Ungroup(s: string): (r: Option<seq<Byte>>)
    requires |s| == 4
  {
    var a, b := Val(s[0]), Val(s[1]);
    var c := if s[2] == '=' then 0 else Val(s[2]);
    var d := if s[3] == '=' then 0 else Val(s[3]);
    if a < 0 || b < 0 || c < 0 || d < 0 then None
    else Some(BytesOf(FromDigits(a, b, c, d), s[2] != '=', s[3] != '='))
  }

  function Decode(s: string): (r: Option<seq<Byte>>) {
    if |s| % 4 != 0 then None
    else if s == "" then Some([])
    else
      var head, tail := Ungroup(s[..4]), Decode(s[4..]);
      if head.None? || tail.None? then None else Some(head.value + tail.value)
  }

  // ---------- round trips ----------

  lemma DigitsBack(a: nat, b: nat, c: nat, d: nat)
    requires a < 64 && b < 64 && c < 64 && d < 64
    ensures var n := FromDigits(a, b, c, d);
      n / 262144 == a && n / 4096 % 64 == b && n / 64 % 64 == c && n % 64 == d
  {
    var n := FromDigits(a, b, c, d);
    assert n / 64 == 4096 * a + 64 * b + c;
    assert n / 4096 == 64 * a + b;
  }

  lemma BytesBack(b0: Byte, b1: Byte, b2: Byte)
    ensures var n := Number(b0, b1, b2); n / 65536 == b0 && n / 256 % 256 == b1 && n % 256 == b2
  {
    var n, h: nat := Number(b0, b1, b2), b0;
    assert n / 256 == 256 * h + b1;
  }

  // The digits of three bytes, and the bytes of four digits.
  lemma DigitsOfNumber(b0: Byte, b1: Byte, b2: Byte)
    ensures var n := Number(b0, b1, b2);
      && FromDigits(b0 / 4, 16 * (b0 % 4) + b1 / 16, 4 * (b1 % 16) + b2 / 64, b2 % 64) == n
      && n / 262144 == b0 / 4 && n / 4096 % 64 == 16 * (b0 % 4) + b1 / 16
      && n / 64 % 64 == 4 * (b1 % 16) + b2 / 64 && n % 64 == b2 % 64
  {
    var h0: nat, l0: nat, h1: nat, l1: nat, h2: nat, l2: nat := b0 / 4, b0 % 4, b1 / 16, b1 % 16, b2 / 64, b2 % 64;
    assert b0 == 4 * h0 + l0 && b1 == 16 * h1 + l1 && b2 == 64 * h2 + l2;
    DigitsBack(h0, 16 * l0 + h1, 4 * l1 + h2, l2);
  }

  lemma BytesOfNumber(a: nat, b: nat, c: nat, d: nat)
    requires a < 64 && b < 64 && c < 64 && d < 64
    ensures var n := FromDigits(a, b, c, d);
      && Number(4 * a + b / 16, 16 * (b % 16) + c / 4, 64 * (c % 4) + d) == n
      && n / 65536 == 4 * a + b / 16 && n / 256 % 256 == 16 * (b % 16) + c / 4 && n % 256 == 64 * (c % 4) + d
  {
    var h1, l1, h2, l2 := b / 16, b % 16, c / 4, c % 4;
    assert b == 16 * h1 + l1 && c == 4 * h2 + l2;
    BytesBack(4 * a + h1, 16 * l1 + h2, 64 * l2 + d);
  }

  // The digits of a group, by value.
  lemma GroupDigits(x: seq<Byte>)
    requires 1 <= |x| <= 3
    ensures var b0, b1, b2 := x[0], if |x| > 1 then x[1] else 0, if |x| > 2 then x[2] else 0;
      && Val(Group(x)[0]) == b0 / 4 && Val(Group(x)[1]) == 16 * (b0 % 4) + b1 / 16
      && (if |x| > 1 then Val(Group(x)[2]) == 4 * (b1 % 16) + b2 / 64 && Group(x)[2] != '=' else Group(x)[2] == '=')
      && (if |x| > 2 then Val(Group(x)[3]) == b2 % 64 && Group(x)[3] != '=' else Group(x)[3] == '=')
  {
    var b0, b1, b2 := x[0], if |x| > 1 then x[1] else 0, if |x| > 2 then x[2] else 0;
    DigitsOfNumber(b0, b1, b2);
    ValDigit(b0 / 4);
    ValDigit(16 * (b0 % 4) + b1 / 16);
    ValDigit(4 * (b1 % 16) + b2 / 64);
    ValDigit(b2 % 64);
  }

  lemma GroupBack(x: seq<Byte>)
    requires 1 <= |x| <= 3
    ensures Ungroup(Group(x)) == Some(x)
  {
    var b0, b1, b2 := x[0], if |x| > 1 then x[1] else 0, if |x| > 2 then x[2] else 0;
    GroupDigits(x);
    DigitsOfNumber(b0, b1, b2);
    BytesBack(b0, b1, b2);
    assert BytesOf(Number(b0, b1, b2), |x| > 1, |x| > 2) == x;
  }

  // Encoding goes by groups.
  lemma EncodeMore(x: seq<Byte>, head: seq<Byte>)
    requires x != [] && head == if |x| <= 3 then x else x[..3]
    ensures Encode(x) == Group(head) + Encode(x[|head|..])
  {
    if |x| <= 3 {
      assert x[|x|..] == [] && Group(x) + "" == Group(x);
    }
  }

  lemma Cut(g: string, e: string)
    requires |g| == 4
    ensures (g + e)[..4] == g && (g + e)[4..] == e
  {
  }

  lemma GroupsBack(s: string, head: seq<Byte>, tail: seq<Byte>)
    requires |s| % 4 == 0 && s != "" && 1 <= |head| <= 3 && s[..4] == Group(head) && Decode(s[4..]) == Some(tail)
    ensures Decode(s) == Some(head + tail)
  {
    GroupBack(head);
    DecodeMore(s, head, tail);
  }

  // Decoding undoes encoding.
  lemma {:induction false} RoundTrip(x: seq<Byte>)
    ensures Decode(Encode(x)) == Some(x)
  {
    if x != [] {
      var head := if |x| <= 3 then x else x[..3];
      EncodeLength(x);
      EncodeMore(x, head);
      Cut(Group(head), Encode(x[|head|..]));
      RoundTrip(x[|head|..]);
      GroupsBack(Encode(x), head, x[|head|..]);
      assert x == head + x[|head|..];
    }
  }

  lemma DecodeMore(s: string, head: seq<Byte>, tail: seq<Byte>)
    requires |s| % 4 == 0 && s != "" && Ungroup(s[..4]) == Some(head) && Decode(s[4..]) == Some(tail)
    ensures Decode(s) == Some(head + tail)
  {
  }

  // ---------- canonical strings ----------

  // A full group: four digits.
  predicate FullGroup(s: string)
    requires |s| == 4
  {
    Val(s[0]) >= 0 && Val(s[1]) >= 0 && Val(s[2]) >= 0 && Val(s[3]) >= 0
  }

  // A last group: full, or padded with the unused bits zero.
  predicate LastGroup(s: string)
    requires |s| == 4
  {
    || FullGroup(s)
    || (Val(s[0]) >= 0 && Val(s[1]) >= 0 && Val(s[2]) >= 0 && Val(s[2]) % 4 == 0 && s[3] == '=')
    || (Val(s[0]) >= 0 && Val(s[1]) >= 0 && Val(s[1]) % 16 == 0 && s[2] == '=' && s[3] == '=')
  }

  // Padding only in the last group, unused bits zero.
  predicate Canonical(s: string) {
    |s| % 4 == 0 && (s == "" || (if |s| == 4 then LastGroup(s) else FullGroup(s[..4]) && Canonical(s[4..])))
  }

  lemma GroupCanonical(x: seq<Byte>)
    requires 1 <= |x| <= 3
    ensures LastGroup(Group(x)) && (|x| == 3 ==> FullGroup(Group(x)))
  {
    GroupDigits(x);
  }

  lemma {:induction false} EncodeCanonical(x: seq<Byte>)
    ensures Canonical(Encode(x))
  {
    if x != [] {
      EncodeLength(x);
      if |x| <= 3 {
        GroupCanonical(x);
      } else {
        Cut(Group(x[..3]), Encode(x[3..]));
        GroupCanonical(x[..3]);
        EncodeCanonical(x[3..]);
      }
    }
  }

  lemma FourDigits(s: string, t: string)
    requires |s| == |t| == 4 && s[0] == t[0] && s[1] == t[1] && s[2] == t[2] && s[3] == t[3]
    ensures s == t
  {
  }

  // A canonical group is what its bytes encode to.
  lemma GroupForth(s: string)
    requires |s| == 4 && LastGroup(s)
    ensures var r := Ungroup(s);
      r.Some? && 1 <= |r.value| <= 3 && Group(r.value) == s && (FullGroup(s) ==> |r.value| == 3)
  {
    if s[2] != '=' { DigitVal(s[2]); }
    if s[3] != '=' { DigitVal(s[3]); }
    var a, b := Val(s[0]), Val(s[1]);
    var c, d := if s[2] == '=' then 0 else Val(s[2]), if s[3] == '=' then 0 else Val(s[3]);
    var x := Ungroup(s).value;
    BytesOfNumber(a, b, c, d);
    NumberBack(x, a, b, c, d, s[2] != '=', s[3] != '=');
    DigitsBack(a, b, c, d);
    ValDigit(a);
    ValDigit(b);
    SameVal(Group(x)[0], s[0]);
    SameVal(Group(x)[1], s[1]);
    SameVal(Group(x)[2], s[2]);
    SameVal(Group(x)[3], s[3]);
    FourDigits(Group(x), s);
  }

  // If what is dropped is zero, the bytes make up the number of the digits.
  lemma NumberBack(x: seq<Byte>, a: nat, b: nat, c: nat, d: nat, second: bool, third: bool)
    requires a < 64 && b < 64 && c < 64 && d < 64 && x == BytesOf(FromDigits(a, b, c, d), second, third)
    requires (third ==> second) && (!third ==> d == 0 && c % 4 == 0) && (!second ==> c == 0 && b % 16 == 0)
    ensures |x| == (if third then 3 else if second then 2 else 1) && NumberOf(x) == FromDigits(a, b, c, d)
  {
    BytesOfNumber(a, b, c, d);
  }

  lemma SameVal(a: char, b: char)
    ensures Val(a) == Val(b) >= 0 ==> a == b
  {
  }

  // Encoding undoes decoding exactly on the canonical strings. The decoder accepts more.
  lemma {:induction false} CanonicalBack(s: string)
    requires Canonical(s)
    ensures Decode(s).Some? && Encode(Decode(s).value) == s
  {
    if |s| == 4 {
      assert s[..4] == s && s[4..] == "";
      GroupForth(s);
      DecodeMore(s, Ungroup(s).value, []);
    } else if s != "" {
      GroupForth(s[..4]);
      CanonicalBack(s[4..]);
      var head, tail := Ungroup(s[..4]).value, Decode(s[4..]).value;
      DecodeMore(s, head, tail);
      TailEncoded(s, head, tail);
    }
  }

  lemma TailEncoded(s: string, head: seq<Byte>, tail: seq<Byte>)
    requires |s| > 4 && |head| == 3 && Group(head) == s[..4] && Encode(tail) == s[4..]
    ensures Encode(head + tail) == s
  {
    var x := head + tail;
    assert x[..3] == head && x[3..] == tail;
    assert s == s[..4] + s[4..];
    EncodeLength(tail);
  }

  lemma ExactlyCanonical(s: string)
    requires Decode(s).Some?
    ensures Encode(Decode(s).value) == s <==> Canonical(s)
  {
    EncodeCanonical(Decode(s).value);
    if Canonical(s) {
      CanonicalBack(s);
    }
  }

  // The decoder also takes padding in the middle of a string and nonzero unused bits.
  lemma DecoderIsLenient()
    ensures Decode("QQ==QUJD") == Some([65, 65, 66, 67]) && !Canonical("QQ==QUJD")
    ensures Decode("QR==") == Some([65]) && !Canonical("QR==")
  {
    assert "QQ==QUJD"[..4] == "QQ==" && "QQ==QUJD"[4..] == "QUJD";
    assert "QUJD"[..4] == "QUJD" && "QUJD"[4..] == "" && "QR=="[..4] == "QR==" && "QR=="[4..] == "";
    assert Ungroup("QUJD").value == [65, 66, 67] && Ungroup("QR==").value == [65] && Ungroup("QQ==").value == [65];
    assert [65] + [65, 66, 67] == [65, 65, 66, 67] && [65, 66, 67] + [] == [65, 66, 67] && [65] + [] == [65];
    DecodeMore("QUJD", [65, 66, 67], []);
    assert Decode("QUJD") == Some([65, 66, 67]);
    DecodeMore("QQ==QUJD", [65], [65, 66, 67]);
    DecodeMore("QR==", [65], []);
  }

  // ---------- the code ----------

  lemma Low2(x: nat)
    ensures And(x, 0x3) == x % 4
  {
    AndLow(x, 2);
    assert Pow2(2) == 4;
  }

  lemma Low4(x: nat)
    ensures And(x, 0xF) == x % 16
  {
    AndLow(x, 4);
    assert Pow2(4) == 16;
  }

  lemma Low6(x: nat)
    ensures And(x, 0x3F) == x % 64
  {
    AndLow(x, 6);
    assert Pow2(6) == 64;
  }

  lemma Right2(x: nat)
    ensures Shr(x, 2) == x / 4
  {
    assert Pow2(2) == 4;
  }

  lemma Right4(x: nat)
    ensures Shr(x, 4) == x / 16
  {
    assert Pow2(4) == 16;
  }

  lemma Right6(x: nat)
    ensures Shr(x, 6) == x / 64
  {
    assert Pow2(6) == 64;
  }

  lemma Left(x: nat)
    ensures Shl(x, 2) == 4 * x && Shl(x, 4) == 16 * x
  {
    assert Pow2(2) == 4 && Pow2(4) == 16;
  }

  lemma Join2(x: nat, y: nat)
    requires y < 4
    ensures Or(Shl(x, 2), y) == 4 * x + y
  {
    assert Pow2(2) == 4;
    OrLow(x, y, 2);
  }

  lemma Join4(x: nat, y: nat)
    requires y < 16
    ensures Or(Shl(x, 4), y) == 16 * x + y
  {
    assert Pow2(4) == 16;
    OrLow(x, y, 4);
  }

  lemma Join6(x: nat, y: nat)
    requires y < 64
    ensures Or(Shl(x, 6), y) == 64 * x + y
  {
    assert Pow2(6) == 64;
    OrLow(x, y, 6);
  }

  lemma High4(b: Byte, h: nat)
    requires h == And(Shr(b, 4), 0xF)
    ensures h == b / 16
  {
    Right4(b);
    Low4(b / 16);
  }

  lemma High2(b: Byte, h: nat)
    requires h == And(Shr(b, 6), 0x3)
    ensures h == b / 64
  {
    Right6(b);
    Low2(b / 64);
  }

  // The upper six bits of the first byte.
  method FirstDigit(b0: Byte) returns (n: nat)
    ensures n == b0 / 4
  {
    Right2(b0);
    Low6(b0 / 4);
    n := And(Shr(b0, 2), 0x3F);
  }

  // The lower two bits of the first byte and the upper four of the second.
  method SecondDigit(b0: Byte, b1: Byte) returns (n: nat)
    ensures n == 16 * (b0 % 4) + b1 / 16
  {
    var low, high := And(b0, 0x3), And(Shr(b1, 4), 0xF);
    Low2(b0);
    High4(b1, high);
    Join4(low, high);
    n := Or(Shl(low, 4), high);
  }

  // The lower four bits of the second byte and the upper two of the third.
  method ThirdDigit(b1: Byte, b2: Byte) returns (n: nat)
    ensures n == 4 * (b1 % 16) + b2 / 64
  {
    var low, high := And(b1, 0xF), And(Shr(b2, 6), 0x3);
    Low4(b1);
    High2(b2, high);
    Join2(low, high);
    n := Or(Shl(low, 2), high);
  }

  // The body of the loop of base64_encode: its shifts and masks give the four digits of the number.
  method FullDigits(b0: Byte, b1: Byte, b2: Byte) returns (s: string)
    ensures s == Group([b0, b1, b2])
  {
    DigitsOfNumber(b0, b1, b2);
    var c0 := FirstDigit(b0);
    var c1 := SecondDigit(b0, b1);
    var c2 := ThirdDigit(b1, b2);
    Low6(b2);
    s := [Digit(c0), Digit(c1), Digit(c2), Digit(And(b2, 0x3F))];
  }

  // The rest of one or two bytes.
  method LastDigits(x: seq<Byte>) returns (s: string)
    requires 1 <= |x| <= 2
    ensures s == Group(x)
  {
    DigitsOfNumber(x[0], if |x| > 1 then x[1] else 0, 0);
    var c0 := FirstDigit(x[0]);
    s := [Digit(c0)];
    if |x| > 1 {
      var c1 := SecondDigit(x[0], x[1]);
      s := s + [Digit(c1)];
      Low4(x[1]);
      Left(x[1] % 16);
      s := s + [Digit(Shl(And(x[1], 0xF), 2))];
    } else {
      Low2(x[0]);
      Left(x[0] % 4);
      s := s + [Digit(Shl(And(x[0], 0x3), 4))];
      s := s + ['='];
    }
    s := s + ['='];
  }

  lemma Cut16(x: nat, y: nat)
    requires y < 16
    ensures (16 * x + y) % 256 == 16 * (x % 16) + y
  {
    Remainder(16 * x + y, 256, x / 16, 16 * (x % 16) + y);
  }

  lemma Cut64(x: nat, y: nat)
    requires y < 64
    ensures (64 * x + y) % 256 == 64 * (x % 4) + y
  {
    Remainder(64 * x + y, 256, x / 4, 64 * (x % 4) + y);
  }

  // The shifts of base64_decode, cut to eight bits.
  method FirstByte(a: nat, b: nat) returns (r: Byte)
    requires a < 64 && b < 64
    ensures r == 4 * a + b / 16
  {
    Right4(b);
    Join2(a, b / 16);
    var both := Or(Shl(a, 2), Shr(b, 4));
    r := both % 256;
  }

  method SecondByte(b: nat, c: nat) returns (r: Byte)
    requires b < 64 && c < 64
    ensures r == 16 * (b % 16) + c / 4
  {
    Right2(c);
    Join4(b, c / 4);
    Cut16(b, c / 4);
    var both := Or(Shl(b, 4), Shr(c, 2));
    r := both % 256;
  }

  method ThirdByte(c: nat, d: nat) returns (r: Byte)
    requires c < 64 && d < 64
    ensures r == 64 * (c % 4) + d
  {
    Join6(c, d);
    Cut64(c, d);
    var both := Or(Shl(c, 6), d);
    r := both % 256;
  }

  lemma Concat(out: string, g: string, e: string)
    ensures (out + g) + e == out + (g + e)
  {
  }

  // Encoding a group more.
  lemma EncodeNext(out: string, x: seq<Byte>, group: seq<Byte>)
    requires x != [] && group == if |x| <= 3 then x else x[..3]
    ensures (out + Group(group)) + Encode(x[|group|..]) == out + Encode(x)
  {
    EncodeMore(x, group);
    Concat(out, Group(group), Encode(x[|group|..]));
  }

  // base64_encode
  method EncodeBytes(x: seq<Byte>) returns (out: string)
    ensures out == Encode(x)
  {
    out := "";
    var i := 0;
    assert x[0..] == x && "" + Encode(x) == Encode(x);
    while i + 2 < |x|
      invariant 0 <= i <= |x| && out + Encode(x[i..]) == Encode(x)
    {
      var group := [x[i], x[i + 1], x[i + 2]];
      assert group == x[i..i + 3] && x[i..][3..] == x[i + 3..]
        && (group == if |x[i..]| <= 3 then x[i..] else x[i..][..3]);
      EncodeNext(out, x[i..], group);
      var digits := FullDigits(x[i], x[i + 1], x[i + 2]);
      out := out + digits;
      i := i + 3;
    }
    if i < |x| {
      EncodeNext(out, x[i..], x[i..]);
      var digits := LastDigits(x[i..]);
      out := out + digits;
      assert x[i..][|x[i..]|..] == [];
    }
    assert i >= |x| ==> x[i..] == [];
  }

  // The body of the loop of base64_decode: its shifts give the three bytes of the number.
  method DecodeGroup(s: string) returns (r: Option<seq<Byte>>)
    requires |s| == 4
    ensures r == Ungroup(s)
  {
    var a, b := Val(s[0]), Val(s[1]);
    var c := if s[2] == '=' then 0 else Val(s[2]);
    var d := if s[3] == '=' then 0 else Val(s[3]);
    if a < 0 || b < 0 || c < 0 || d < 0 { return None; }
    BytesOfNumber(a, b, c, d);
    var b0 := FirstByte(a, b);
    var out: seq<Byte> := [b0];
    if s[2] != '=' {
      var b1 := SecondByte(b, c);
      out := out + [b1];
    } else {
      assert out == out + [];
    }
    if s[3] != '=' {
      var b2 := ThirdByte(c, d);
      out := out + [b2];
    } else {
      assert out == out + [];
    }
    return Some(out);
  }

  // base64_decode
  method DecodeString(s: string) returns (r: Option<seq<Byte>>)
    ensures r == Decode(s)
  {
    if |s| % 4 != 0 { return None; }
    var out: seq<Byte> := [];
    var i := 0;
    ghost var rest := |s| / 4;
    assert s[0..] == s;
    PrependNothing(Decode(s));
    while i < |s|
      invariant 0 <= rest && |s| - i == 4 * rest && 0 <= i && Decode(s) == Prepend(out, Decode(s[i..]))
      decreases rest
    {
      DecodeNext(out, s, i, rest);
      var bytes := DecodeGroup(s[i..i + 4]);
      if bytes.None? { return None; }
      out := out + bytes.value;
      i, rest := i + 4, rest - 1;
    }
    assert s[i..] == "" && out + [] == out;
    return Some(out);
  }

  lemma PrependNothing(r: Option<seq<Byte>>)
    ensures Prepend([], r) == r
  {
    if r.Some? {
      assert [] + r.value == r.value;
    }
  }

  function Prepend(out: seq<Byte>, r: Option<seq<Byte>>): Option<seq<Byte>> {
    if r.None? then None else Some(out + r.value)
  }

  lemma AssocBytes(a: seq<Byte>, b: seq<Byte>, c: seq<Byte>)
    ensures (a + b) + c == a + (b + c)
  {
  }

  lemma DecodeNext(out: seq<Byte>, s: string, i: nat, rest: nat)
    requires rest > 0 && |s| - i == 4 * rest
    ensures Prepend(out, Decode(s[i..])) ==
      if Ungroup(s[i..i + 4]).None? then None else Prepend(out + Ungroup(s[i..i + 4]).value, Decode(s[i + 4..]))
  {
    var t := s[i..];
    assert t[..4] == s[i..i + 4] && t[4..] == s[i + 4..];
    DecodeStep(t, rest);
    if Ungroup(t[..4]).Some? && Decode(t[4..]).Some? {
      AssocBytes(out, Ungroup(t[..4]).value, Decode(t[4..]).value);
    }
  }

  lemma DecodeStep(t: string, rest: nat)
    requires rest > 0 && |t| == 4 * rest
    ensures var head, tail := Ungroup(t[..4]), Decode(t[4..]);
      Decode(t) == if head.None? || tail.None? then None else Some(head.value + tail.value)
  {
    assert |t| % 4 == 0;
  }
}
