/**
 base/stringencode.cc: what the encoders are for.  A round trip says that nothing
 is lost; these laws say that the output can stand where it is meant to stand,
 and what the decoders make of text that no encoder wrote.
 */
module EncodeSafety {
  import opened Bytes
  import opened StringEncode
  import opened HtmlEncode
  import Utf8
  import opened Collections

  predicate LowerHex(b: byte) {
    '0' as int <= b <= '9' as int || 'a' as int <= b <= 'f' as int
  }

  /** Space, the control characters, and the ASCII characters that mean something in a URL. */
  predicate UrlReserved(b: byte) {
    b <= ' ' as int || b == 127
    || b in {'"' as int, '#' as int, '$' as int, '%' as int, '&' as int, '+' as int, ',' as int, '/' as int, ':' as int,
             ';' as int, '<' as int, '=' as int, '>' as int, '?' as int, '@' as int, '[' as int, '\\' as int, ']' as int,
             '^' as int, '`' as int, '{' as int, '|' as int, '}' as int}
  }

  /** The characters that end an attribute value or open a tag. */
  predicate Markup(b: byte) {
    b in {'<' as int, '>' as int, '"' as int, '\'' as int}
  }

  lemma HexPairIsHex(b: byte)
    ensures LowerHex(HexPair(b)[0]) && LowerHex(HexPair(b)[1])
  {
  }

  /** At position `i` stands a character that needs no escape, or an escape begins. */
  ghost predicate UrlSafeAt(t: seq<byte>, i: nat)
    requires i < |t|
  {
    !UrlReserved(t[i]) || (t[i] == '%' as int && i + 2 < |t| && LowerHex(t[i + 1]) && LowerHex(t[i + 2]))
  }

  /** Of url_encode: nothing reserved is left but the percent signs, and each of those has its two digits. */
  lemma {:induction false} UrlOutputIsSafe(s: seq<byte>)
    ensures var t := Encoded(Url, s); forall i :: 0 <= i < |t| ==> UrlSafeAt(t, i)
    decreases |s|
  {
    if s != [] {
      var k := |s| - 1;
      UrlOutputIsSafe(s[..k]);
      EncodedSnoc(Url, s, k);
      assert s[..k + 1] == s;
      var t, u, all := Encoded(Url, s[..k]), Code(Url, s[k]), Encoded(Url, s);
      HexPairIsHex(s[k]);
      forall i | 0 <= i < |all| ensures UrlSafeAt(all, i) {
        if i < |t| { assert UrlSafeAt(t, i); } else { assert all[i] == u[i - |t|]; }
      }
    }
  }

  /** url_encode leaves everything else alone. */
  lemma UrlEscapesOnlyReserved(b: byte)
    ensures Code(Url, b) == [b] <==> !UrlReserved(b)
  {
  }

  /** At position `i` stands no markup, and an ampersand only where one of the five entities begins. */
  ghost predicate XmlSafeAt(t: seq<byte>, i: nat)
    requires i < |t|
  {
    && !Markup(t[i])
    && (t[i] == '&' as int ==>
          var n := t[i + 1..];
          StartsWith(n, LT) || StartsWith(n, GT) || StartsWith(n, APOS) || StartsWith(n, QUOT) || StartsWith(n, AMPERSAND))
  }

  lemma StartsLonger(t: seq<byte>, u: seq<byte>, i: nat, p: seq<byte>)
    requires i < |t| && StartsWith(t[i + 1..], p)
    ensures StartsWith((t + u)[i + 1..], p)
  {
    assert (t + u)[i + 1..] == t[i + 1..] + u;
  }

  lemma XmlSafeOn(t: seq<byte>, u: seq<byte>, i: nat)
    requires i < |t| && XmlSafeAt(t, i)
    ensures XmlSafeAt(t + u, i)
  {
    if t[i] == '&' as int {
      var n := t[i + 1..];
      if StartsWith(n, LT) { StartsLonger(t, u, i, LT); }
      if StartsWith(n, GT) { StartsLonger(t, u, i, GT); }
      if StartsWith(n, APOS) { StartsLonger(t, u, i, APOS); }
      if StartsWith(n, QUOT) { StartsLonger(t, u, i, QUOT); }
      if StartsWith(n, AMPERSAND) { StartsLonger(t, u, i, AMPERSAND); }
    }
  }

  lemma XmlCodeIsSafe(t: seq<byte>, b: byte, i: nat)
    requires |t| <= i < |t| + |Code(Xml, b)|
    ensures XmlSafeAt(t + Code(Xml, b), i)
  {
    var u := Code(Xml, b);
    assert (t + u)[i] == u[i - |t|];
    if i == |t| && XmlUnsafe(b) {
      assert (t + u)[i + 1..] == EntityName(b);
    }
  }

  /** Of xml_encode. */
  lemma {:induction false} XmlOutputIsSafe(s: seq<byte>)
    ensures var t := Encoded(Xml, s); forall i :: 0 <= i < |t| ==> XmlSafeAt(t, i)
    decreases |s|
  {
    if s != [] {
      var k := |s| - 1;
      XmlOutputIsSafe(s[..k]);
      EncodedSnoc(Xml, s, k);
      assert s[..k + 1] == s;
      var t, all := Encoded(Xml, s[..k]), Encoded(Xml, s);
      forall i | 0 <= i < |all| ensures XmlSafeAt(all, i) {
        if i < |t| { XmlSafeOn(t, Code(Xml, s[k]), i); } else { XmlCodeIsSafe(t, s[k], i); }
      }
    }
  }

  /** xml_encode writes the entity that names the character, and leaves everything else alone. */
  lemma XmlNames(b: byte)
    ensures b == '<' as int ==> Code(Xml, b) == ['&' as int, 'l' as int, 't' as int, ';' as int]
    ensures b == '>' as int ==> Code(Xml, b) == ['&' as int, 'g' as int, 't' as int, ';' as int]
    ensures b == '&' as int ==> Code(Xml, b) == ['&' as int, 'a' as int, 'm' as int, 'p' as int, ';' as int]
    ensures b == '\'' as int ==> Code(Xml, b) == ['&' as int, 'a' as int, 'p' as int, 'o' as int, 's' as int, ';' as int]
    ensures b == '"' as int ==> Code(Xml, b) == ['&' as int, 'q' as int, 'u' as int, 'o' as int, 't' as int, ';' as int]
    ensures !Markup(b) && b != '&' as int ==> Code(Xml, b) == [b]
  {
  }

  /** Of escape: an illegal byte or a NUL stands only behind the escape character. */
  lemma {:induction false} EscapeOutputIsSafe(illegal: set<byte>, esc: byte, s: seq<byte>, i: nat)
    requires i < |Encoded(Backslash(illegal, esc), s)|
    ensures var t := Encoded(Backslash(illegal, esc), s);
            (t[i] in illegal || t[i] == 0) && t[i] != esc ==> i > 0 && t[i - 1] == esc
    decreases |s|
  {
    var c := Backslash(illegal, esc);
    if s != [] {
      var k := |s| - 1;
      EncodedSnoc(c, s, k);
      assert s[..k + 1] == s;
      if i < |Encoded(c, s[..k])| { EscapeOutputIsSafe(illegal, esc, s[..k], i); }
    }
  }

  /** A digit of an escape. */
  ghost predicate InPair(esc: byte, t: seq<byte>, i: nat)
    requires i < |t|
  {
    LowerHex(t[i]) && ((i > 0 && t[i - 1] == esc) || (i > 1 && t[i - 2] == esc))
  }

  /** Of encode: an illegal byte or a NUL is left only as a digit of an escape, and an escape character that is no digit has two behind it. */
  lemma {:induction false} HexEscapeOutputIsSafe(illegal: set<byte>, esc: byte, s: seq<byte>, i: nat)
    requires i < |Encoded(HexEscape(illegal, esc), s)|
    ensures var t := Encoded(HexEscape(illegal, esc), s);
            && ((t[i] in illegal || t[i] == 0) && t[i] != esc ==> InPair(esc, t, i))
            && (t[i] == esc && !InPair(esc, t, i) ==> i + 2 < |t| && LowerHex(t[i + 1]) && LowerHex(t[i + 2]))
    decreases |s|
  {
    var c := HexEscape(illegal, esc);
    if s != [] {
      var k := |s| - 1;
      EncodedSnoc(c, s, k);
      assert s[..k + 1] == s;
      HexPairIsHex(s[k]);
      if i < |Encoded(c, s[..k])| { HexEscapeOutputIsSafe(illegal, esc, s[..k], i); }
    }
  }

  // ---- html_encode ---------------------------------------------------------------------------------

  ghost predicate PlainAscii(t: seq<byte>) {
    forall i :: 0 <= i < |t| ==> t[i] < 128 && !Markup(t[i])
  }

  lemma {:induction false} DecimalIsPlain(n: nat)
    ensures PlainAscii(Utf8.Decimal(n))
  {
    if n >= 10 { DecimalIsPlain(n / 10); }
  }

  lemma FirstUnitIsPlain(s: seq<byte>)
    requires s != []
    ensures PlainAscii(FirstUnit(s).out)
  {
    if s[0] < 128 {
      CodeIsPlain(s[0]);
    } else {
      ReferenceIsPlain(s[0]);
      ReferenceIsPlain(Utf8.Decode(s).value);
    }
  }

  lemma CodeIsPlain(b: byte)
    requires b < 128
    ensures PlainAscii(Code(Xml, b)) && PlainAscii(APOS_REF)
  {
  }

  lemma ReferenceIsPlain(v: nat)
    ensures PlainAscii(ReferenceTo(v))
  {
    DecimalIsPlain(v);
  }

  lemma {:induction false} UnitsArePlain(s: seq<byte>)
    ensures forall i :: 0 <= i < |Units(s)| ==> PlainAscii(Units(s)[i].out)
    decreases |s|
  {
    if s != [] {
      FirstUnitIsPlain(s);
      UnitsArePlain(s[|FirstUnit(s).src|..]);
    }
  }

  lemma {:induction false} FlatIsPlain(us: seq<seq<byte>>)
    requires forall i :: 0 <= i < |us| ==> PlainAscii(us[i])
    ensures PlainAscii(Flat(us))
    decreases |us|
  {
    if us != [] { FlatIsPlain(us[..|us| - 1]); }
  }

  /** Of html_encode, for any source: the output is ASCII without markup, wherever the buffer cuts it. */
  lemma HtmlOutputIsSafe(s: seq<byte>, m: nat)
    requires m <= |Units(s)|
    ensures PlainAscii(Flat(Outputs(Units(s)[..m])))
  {
    UnitsArePlain(s);
    FlatIsPlain(Outputs(Units(s)[..m]));
  }

  // ---- what the decoders make of other text -----------------------------------------------------------

  /** unescape: any byte behind the escape character stands for itself, and so does an escape character at the end. */
  lemma UnescapeReads(illegal: set<byte>, esc: byte, b: byte, rest: seq<byte>)
    ensures var c := Backslash(illegal, esc);
            && Decoded(c, [esc, b] + rest) == [b] + Decoded(c, rest)
            && (b != esc ==> Decoded(c, [b] + rest) == [b] + Decoded(c, rest))
            && Decoded(c, [esc]) == [esc]
  {
    var c := Backslash(illegal, esc);
    assert ([esc, b] + rest)[2..] == rest && ([b] + rest)[1..] == rest && [esc][1..] == [];
    assert ([esc, b] + rest)[1] == b;
  }

  /** url_decode: a plus is a space, and what is neither a plus nor a percent sign stands for itself. */
  lemma UrlDecodeReads(b: byte, rest: seq<byte>)
    ensures Decoded(Url, ['+' as int] + rest) == [' ' as int] + Decoded(Url, rest)
    ensures b != '+' as int && b != '%' as int ==> Decoded(Url, [b] + rest) == [b] + Decoded(Url, rest)
  {
    assert (['+' as int] + rest)[1..] == rest && ([b] + rest)[1..] == rest;
  }

  /** A percent sign without two digits stands for itself. */
  lemma UrlDecodeKeepsPercent(rest: seq<byte>)
    requires |rest| < 2 || HexValue(rest[0]).None? || HexValue(rest[1]).None?
    ensures Decoded(Url, ['%' as int] + rest) == ['%' as int] + Decoded(Url, rest)
  {
    var t := ['%' as int] + rest;
    assert t[1..] == rest;
    assert |rest| >= 2 ==> t[1] == rest[0] && t[2] == rest[1];
    PercentAlone(t);
  }

  lemma PercentAlone(t: seq<byte>)
    requires t != [] && t[0] == '%' as int && (|t| < 3 || HexValue(t[1]).None? || HexValue(t[2]).None?)
    ensures DecodeStep(Url, t) == Some(Step(1, ['%' as int]))
  {
  }

  /** With two digits, of either case, it gives the byte they write. */
  lemma UrlDecodeReadsPair(b: byte, upper: bool, rest: seq<byte>)
    ensures var d := (n: nat) requires n < 16 => if n < 10 then '0' as int + n else (if upper then 'A' as int else 'a' as int) + n - 10;
            Decoded(Url, ['%' as int, d(b / 16), d(b % 16)] + rest) == [b] + Decoded(Url, rest)
  {
    var d1 := if b / 16 < 10 then '0' as int + b / 16 else (if upper then 'A' as int else 'a' as int) + b / 16 - 10;
    var d2 := if b % 16 < 10 then '0' as int + b % 16 else (if upper then 'A' as int else 'a' as int) + b % 16 - 10;
    var t := ['%' as int, d1, d2] + rest;
    assert t[0] == '%' as int && t[1] == d1 && t[2] == d2 && t[3..] == rest;
    PercentPair(t, b);
  }

  lemma PercentPair(t: seq<byte>, b: byte)
    requires |t| >= 3 && t[0] == '%' as int && HexValue(t[1]) == Some(b / 16) && HexValue(t[2]) == Some(b % 16)
    ensures DecodeStep(Url, t) == Some(Step(3, [b]))
  {
    CombineIsByte(b);
  }

  lemma CombineIsByte(b: byte)
    ensures Combine(b / 16, b % 16) == b
  {
  }

  /** xml_decode of a reference in hexadecimal: the value of the digits, in UTF-8. */
  lemma HexReferenceReads(d: seq<byte>, rest: seq<byte>)
    requires d != [] && forall i :: 0 <= i < |d| ==> Utf8.DigitValue(d[i], 16) < 16
    requires Utf8.Positional(d, 16) <= 0x1F_FFFF
    ensures Decoded(Xml, ['&' as int, '#' as int, 'x' as int] + d + [';' as int] + rest)
         == Utf8.Encode(Utf8.Positional(d, 16)) + Decoded(Xml, rest)
  {
    var t := ['&' as int, '#' as int, 'x' as int] + d + [';' as int] + rest;
    var end := 3 + |d|;
    assert t[0] == '&' as int && t[1] == '#' as int && t[2] == 'x' as int && t[3..end] == d && t[end] == ';' as int;
    forall i | 3 <= i < end ensures Utf8.DigitValue(t[i], 16) < 16 { assert t[i] == d[i - 3]; }
    Utf8.NumberIsPositional(t, 3, 3, end, 16);
    HashIsReference(t);
    assert t[end + 1..] == rest;
  }

  /** hex_decode stops at the first pair that is none. */
  lemma HexDecodeStops(t: seq<byte>)
    requires |t| < 2 || HexValue(t[0]).None? || HexValue(t[1]).None?
    ensures Decoded(Hex, t) == []
  {
  }

  // ---- tokenize --------------------------------------------------------------------------------------

  /** The tokens are non-empty fields, those at the positions `where`. */
  ghost predicate Chosen(fields: seq<seq<byte>>, where: seq<nat>, tokens: seq<seq<byte>>) {
    |where| == |tokens| &&
    forall i :: 0 <= i < |where| ==> where[i] < |fields| && tokens[i] == fields[where[i]] && |tokens[i]| > 0
  }

  ghost predicate AllChosen(fields: seq<seq<byte>>, where: seq<nat>) {
    forall j :: 0 <= j < |fields| && |fields[j]| > 0 ==> j in where
  }

  lemma AllChosenNext(fields: seq<seq<byte>>, where: seq<nat>)
    requires fields != [] && AllChosen(fields[..|fields| - 1], where)
    ensures AllChosen(fields, where + [|fields| - 1])
    ensures |fields[|fields| - 1]| == 0 ==> AllChosen(fields, where)
  {
    var k := |fields| - 1;
    forall j | 0 <= j < k && |fields[j]| > 0 ensures j in where { assert fields[..k][j] == fields[j]; }
  }

  lemma ChosenNext(fields: seq<seq<byte>>, where: seq<nat>, tokens: seq<seq<byte>>)
    requires fields != [] && Chosen(fields[..|fields| - 1], where, tokens)
    ensures var k := |fields| - 1;
            if fields[k] == [] then Chosen(fields, where, tokens) else Chosen(fields, where + [k], tokens + [fields[k]])
  {
  }

  /** The tokens are the fields that are not empty, each once and in their order. */
  lemma {:induction false} TokensAreFields(fields: seq<seq<byte>>) returns (where: seq<nat>)
    ensures Increasing(where) && Chosen(fields, where, NonEmpty(fields)) && AllChosen(fields, where)
    decreases |fields|
  {
    if fields == [] { return []; }
    var k := |fields| - 1;
    var before := TokensAreFields(fields[..k]);
    where := if fields[k] == [] then before else before + [k];
    AllChosenNext(fields, before);
    ChosenNext(fields, before, NonEmpty(fields[..k]));
  }
}
