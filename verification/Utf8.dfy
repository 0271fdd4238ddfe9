/**
 base/stringencode.cc: UTF-8 with sequences of up to four bytes (values up to
 0x1FFFFF, as the source allows), and the decimal and hexadecimal numbers of
 character references.  Masks and shifts are written as remainders and quotients.
 */
module Utf8 {
  import opened Bytes

  /** utf8_encode with room; nothing for values that need more than four bytes. */
  function Encode(v: nat): seq<byte> {
    if v <= 0x7F then [v]
    else if v <= 0x7FF then [0xC0 + v / 0x40, 0x80 + v % 0x40]
    else if v <= 0xFFFF then [0xE0 + v / 0x1000, 0x80 + (v / 0x40) % 0x40, 0x80 + v % 0x40]
    else if v <= 0x1FFFFF then
      [0xF0 + v / 0x40000, 0x80 + (v / 0x1000) % 0x40, 0x80 + (v / 0x40) % 0x40, 0x80 + v % 0x40]
    else []
  }

  /** A decoded character and the number of bytes it took; none if the front is not a sequence. */
  datatype Char = Char(len: nat, value: nat)

  predicate Trailer(b: byte) {
    0x80 <= b < 0xC0
  }

  /** utf8_decode. */
  function Decode(s: seq<byte>): (c: Char)
    requires s != []
    ensures c.len <= 4 && c.len <= |s|
  {
    if s[0] < 0x80 then Char(1, s[0])
    else if |s| < 2 || !Trailer(s[1]) then Char(0, 0)
    else if 0xC0 <= s[0] < 0xE0 then Char(2, Value2(s[0], s[1]))
    else if |s| < 3 || !Trailer(s[2]) then Char(0, 0)
    else if 0xE0 <= s[0] < 0xF0 then Char(3, Value3(s[0], s[1], s[2]))
    else if |s| < 4 || !Trailer(s[3]) then Char(0, 0)
    else if 0xF0 <= s[0] < 0xF8 then Char(4, Value4(s[0], s[1], s[2], s[3]))
    else Char(0, 0)
  }

  function Value2(a: int, b: int): nat {
    (a % 0x20) * 0x40 + b % 0x40
  }

  function Value3(a: int, b: int, c: int): nat {
    (a % 0x10) * 0x1000 + (b % 0x40) * 0x40 + c % 0x40
  }

  function Value4(a: int, b: int, c: int, d: int): nat {
    (a % 0x08) * 0x40000 + (b % 0x40) * 0x1000 + (c % 0x40) * 0x40 + d % 0x40
  }

  lemma ValueOfEncoding2(v: nat)
    requires 0x7F < v <= 0x7FF
    ensures Value2(0xC0 + v / 0x40, 0x80 + v % 0x40) == v
  {
  }

  lemma ValueOfEncoding3(v: nat)
    requires 0x7FF < v <= 0xFFFF
    ensures Value3(0xE0 + v / 0x1000, 0x80 + (v / 0x40) % 0x40, 0x80 + v % 0x40) == v
  {
    DivTwice(v);
    Tagged64(v);
    Tagged64(v / 0x40);
    assert (0xE0 + v / 0x1000) % 0x10 == v / 0x1000;
  }

  lemma DivTwice(v: nat)
    ensures v / 0x1000 == (v / 0x40) / 0x40
  {
  }

  /** The six low bits under a trailer's tag, and the rest. */
  lemma Tagged64(v: nat)
    ensures (0x80 + v % 0x40) % 0x40 == v % 0x40 && v == (v / 0x40) * 0x40 + v % 0x40
  {
  }

  lemma ValueOfEncoding4(v: nat)
    requires 0xFFFF < v <= 0x1FFFFF
    ensures Value4(0xF0 + v / 0x40000, 0x80 + (v / 0x1000) % 0x40, 0x80 + (v / 0x40) % 0x40, 0x80 + v % 0x40) == v
  {
    DivTwice(v);
    DivThrice(v);
    Tagged64(v);
    Tagged64(v / 0x40);
    Tagged64(v / 0x1000);
    LeadingBits(v / 0x40000);
  }

  lemma DivThrice(v: nat)
    ensures v / 0x40000 == (v / 0x1000) / 0x40
    ensures v <= 0x1FFFFF ==> v / 0x40000 < 8
  {
  }

  lemma LeadingBits(x: nat)
    requires x < 8
    ensures (0xF0 + x) % 0x08 == x
  {
  }

  /** Encoding a value and decoding it, whatever follows. */
  lemma DecodeEncode(v: nat, rest: seq<byte>)
    requires v <= 0x1FFFFF
    ensures Decode(Encode(v) + rest) == Char(|Encode(v)|, v)
  {
    var s := Encode(v) + rest;
    if v <= 0x7F {
    } else if v <= 0x7FF {
      ValueOfEncoding2(v);
      assert s[0] == 0xC0 + v / 0x40 && s[1] == 0x80 + v % 0x40;
    } else if v <= 0xFFFF {
      ValueOfEncoding3(v);
      assert s[0] == 0xE0 + v / 0x1000 && s[1] == 0x80 + (v / 0x40) % 0x40 && s[2] == 0x80 + v % 0x40;
    } else {
      ValueOfEncoding4(v);
      assert s[0] == 0xF0 + v / 0x40000 && s[1] == 0x80 + (v / 0x1000) % 0x40;
      assert s[2] == 0x80 + (v / 0x40) % 0x40 && s[3] == 0x80 + v % 0x40;
    }
  }

  /** What a byte carries below its tag. */
  function Bits(b: byte, tag: int): int {
    b - tag
  }

  /** The layout of RFC 3629, with its lead bytes carried on to 0x1FFFFF: six bits to each trailer, high bits first. */
  lemma EncodeIsUtf8(v: nat)
    requires v <= 0x1F_FFFF
    ensures var s := Encode(v);
            && (v < 0x80 ==> s == [v])
            && (0x80 <= v < 0x800 ==> |s| == 2 && 0 <= s[0] - 0xC0 < 32 && Trailer(s[1]) && v == Bits(s[0], 0xC0) * 64 + Bits(s[1], 0x80))
            && (0x800 <= v < 0x1_0000 ==>
                  |s| == 3 && 0 <= s[0] - 0xE0 < 16 && Trailer(s[1]) && Trailer(s[2])
                  && v == (Bits(s[0], 0xE0) * 64 + Bits(s[1], 0x80)) * 64 + Bits(s[2], 0x80))
            && (0x1_0000 <= v ==>
                  |s| == 4 && 0 <= s[0] - 0xF0 < 8 && Trailer(s[1]) && Trailer(s[2]) && Trailer(s[3])
                  && v == ((Bits(s[0], 0xF0) * 64 + Bits(s[1], 0x80)) * 64 + Bits(s[2], 0x80)) * 64 + Bits(s[3], 0x80))
  {
    DivTwice(v);
    DivThrice(v);
    Tagged64(v);
    Tagged64(v / 0x40);
    Tagged64(v / 0x1000);
  }

  lemma PartsOfValue2(a: int, b: int)
    ensures var v := Value2(a, b); v / 0x40 == a % 0x20 && v % 0x40 == b % 0x40
  {
  }

  lemma PartsOfValue3(a: int, b: int, c: int)
    ensures var v := Value3(a, b, c);
            v / 0x1000 == a % 0x10 && (v / 0x40) % 0x40 == b % 0x40 && v % 0x40 == c % 0x40
  {
    var v := Value3(a, b, c);
    var q := (a % 0x10) * 0x40 + b % 0x40;
    Split64(q, c % 0x40);
    Split64(a % 0x10, b % 0x40);
    assert v == q * 0x40 + c % 0x40;
    DivTwice(v);
  }

  lemma Split64(q: nat, r: nat)
    requires r < 0x40
    ensures (q * 0x40 + r) / 0x40 == q && (q * 0x40 + r) % 0x40 == r
  {
  }

  lemma PartsOfValue4(a: int, b: int, c: int, d: int)
    ensures var v := Value4(a, b, c, d);
            && v / 0x40000 == a % 0x08 && (v / 0x1000) % 0x40 == b % 0x40
            && (v / 0x40) % 0x40 == c % 0x40 && v % 0x40 == d % 0x40
  {
    var v := Value4(a, b, c, d);
    var r := (a % 0x08) * 0x40 + b % 0x40;
    var q := r * 0x40 + c % 0x40;
    Split64(q, d % 0x40);
    Split64(r, c % 0x40);
    Split64(a % 0x08, b % 0x40);
    assert v == q * 0x40 + d % 0x40;
    DivTwice(v);
    DivThrice(v);
  }

  lemma EncodeValue2(a: byte, b: byte)
    requires 0xC0 <= a < 0xE0 && Trailer(b) && 0x7F < Value2(a, b)
    ensures Encode(Value2(a, b)) == [a, b]
  {
    PartsOfValue2(a, b);
  }

  lemma EncodeValue3(a: byte, b: byte, c: byte)
    requires 0xE0 <= a < 0xF0 && Trailer(b) && Trailer(c) && 0x7FF < Value3(a, b, c)
    ensures Encode(Value3(a, b, c)) == [a, b, c]
  {
    PartsOfValue3(a, b, c);
    assert a % 0x10 == a - 0xE0 && b % 0x40 == b - 0x80 && c % 0x40 == c - 0x80;
    Build3(Value3(a, b, c), a, b, c);
  }

  lemma Build3(v: nat, a: byte, b: byte, c: byte)
    requires v > 0x7FF && v / 0x1000 == a - 0xE0 < 16 && (v / 0x40) % 0x40 == b - 0x80 && v % 0x40 == c - 0x80
    ensures Encode(v) == [a, b, c]
  {
    assert v < 16 * 0x1000;
  }

  lemma EncodeValue4(a: byte, b: byte, c: byte, d: byte)
    requires 0xF0 <= a < 0xF8 && Trailer(b) && Trailer(c) && Trailer(d) && 0xFFFF < Value4(a, b, c, d)
    ensures Encode(Value4(a, b, c, d)) == [a, b, c, d]
  {
    PartsOfValue4(a, b, c, d);
    assert a % 0x08 == a - 0xF0 && b % 0x40 == b - 0x80 && c % 0x40 == c - 0x80 && d % 0x40 == d - 0x80;
    Build4(Value4(a, b, c, d), a, b, c, d);
  }

  lemma Build4(v: nat, a: byte, b: byte, c: byte, d: byte)
    requires v > 0xFFFF && v / 0x40000 == a - 0xF0 < 8
    requires (v / 0x1000) % 0x40 == b - 0x80 && (v / 0x40) % 0x40 == c - 0x80 && v % 0x40 == d - 0x80
    ensures Encode(v) == [a, b, c, d]
  {
    assert v < 8 * 0x40000;
  }

  lemma LengthBounds(v: nat)
    ensures |Encode(v)| == 2 ==> v > 0x7F
    ensures |Encode(v)| == 3 ==> v > 0x7FF
    ensures |Encode(v)| == 4 ==> v > 0xFFFF
  {
  }

  /** A sequence in shortest form is the encoding of its value. */
  lemma EncodeDecode(s: seq<byte>)
    requires s != [] && Decode(s).len > 0 && |Encode(Decode(s).value)| == Decode(s).len
    ensures Encode(Decode(s).value) == s[..Decode(s).len]
  {
    var n := Decode(s).len;
    LengthBounds(Decode(s).value);
    if n == 2 {
      EncodeValue2(s[0], s[1]);
      assert s[..2] == [s[0], s[1]];
    } else if n == 3 {
      EncodeValue3(s[0], s[1], s[2]);
      assert s[..3] == [s[0], s[1], s[2]];
    } else if n == 4 {
      EncodeValue4(s[0], s[1], s[2], s[3]);
      assert s[..4] == [s[0], s[1], s[2], s[3]];
    }
  }

  // ---- numbers ----------------------------------------------------------------------------

  /** %lu. */
  function Decimal(n: nat): (r: seq<byte>)
    ensures |r| >= 1
  {
    if n < 10 then [48 + n] else Decimal(n / 10) + [48 + n % 10]
  }

  /** The value of a digit, or the base itself for a character that is not one. */
  function DigitValue(ch: byte, base: nat): nat {
    if 48 <= ch <= 57 then ch - 48
    else if base == 16 && 97 <= ch <= 102 then ch - 87
    else if base == 16 && 65 <= ch <= 70 then ch - 55
    else base
  }

  /** strtoul on digits only: the value after `acc`, and where the digits end. */
  function Number(t: seq<byte>, from: nat, base: nat, acc: nat): (r: (nat, nat))
    requires from <= |t|
    ensures from <= r.1 <= |t|
    decreases |t| - from
  {
    if from < |t| && DigitValue(t[from], base) < base then
      Number(t, from + 1, base, acc * base + DigitValue(t[from], base))
    else (acc, from)
  }

  /** What a string of digits is worth. */
  function Positional(digits: seq<byte>, base: nat): nat
    decreases |digits|
  {
    if digits == [] then 0
    else Positional(digits[..|digits| - 1], base) * base + DigitValue(digits[|digits| - 1], base)
  }

  /** Digits up to a character that is none are read for what they are worth; `i` counts those already read. */
  lemma {:induction false} NumberIsPositional(t: seq<byte>, from: nat, i: nat, end: nat, base: nat)
    requires from <= i <= end <= |t| && (end < |t| ==> DigitValue(t[end], base) >= base)
    requires forall k :: from <= k < end ==> DigitValue(t[k], base) < base
    ensures Number(t, i, base, Positional(t[from..i], base)) == (Positional(t[from..end], base), end)
    decreases end - i
  {
    if i < end {
      NumberIsPositional(t, from, i + 1, end, base);
      assert t[from..i + 1][..i - from] == t[from..i];
    }
  }

  /** The decimal digits of `n` read from position `from` continue an accumulated value. */
  lemma {:induction false} NumberReadsDecimal(t: seq<byte>, from: nat, n: nat)
    requires from + |Decimal(n)| < |t| && t[from..from + |Decimal(n)|] == Decimal(n)
    requires DigitValue(t[from + |Decimal(n)|], 10) == 10
    ensures Number(t, from, 10, 0) == (n, from + |Decimal(n)|)
  {
    NumberPrefix(t, from, n);
  }

  /** Reading a decimal prefix is the same as starting behind it with its value. */
  lemma {:induction false} NumberPrefix(t: seq<byte>, from: nat, n: nat)
    requires from + |Decimal(n)| <= |t| && t[from..from + |Decimal(n)|] == Decimal(n)
    ensures Number(t, from, 10, 0) == Number(t, from + |Decimal(n)|, 10, n)
    decreases n
  {
    var d := Decimal(n);
    if n < 10 {
      assert t[from] == d[0];
    } else {
      var h := Decimal(n / 10);
      assert t[from..from + |h|] == d[..|h|] == h;
      NumberPrefix(t, from, n / 10);
      assert t[from + |h|] == d[|h|] == 48 + n % 10;
      assert (n / 10) * 10 + n % 10 == n;
    }
  }
}
