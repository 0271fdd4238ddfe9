/**
 base/stringencode.cc: byte-wise encoders that stop when the output buffer is
 full, and their decoders.  Each encoder replaces every byte by a non-empty code;
 `Encoded` is the code of a whole string without a buffer in sight, `Decoded` its
 inverse.  Characters are bytes.
 */
module StringEncode {
  import opened Bytes
  import Utf8
  import opened Collections

  /** escape(), encode(), url_encode(), xml_encode() and hex_encode(). */
  datatype Codec =
    | Backslash(illegal: set<byte>, esc: byte)
    | HexEscape(illegal: set<byte>, esc: byte)
    | Url
    | Xml
    | Hex

  // ---- hexadecimal digits --------------------------------------------------------------

  /** hex_decode of one character: letters of either case count on past f. */
  function HexValue(ch: byte): Option<nat> {
    if 48 <= ch <= 57 then Some(ch - 48)
    else if 65 <= ch <= 90 then Some(ch - 55)
    else if 97 <= ch <= 122 then Some(ch - 87)
    else None
  }

  /** x | t for t < 4. */
  function OrSmall(x: nat, t: nat): nat
    requires t < 4
  {
    var y := if t % 2 == 1 && x % 2 == 0 then x + 1 else x;
    if t / 2 == 1 && (y / 2) % 2 == 0 then y + 2 else y
  }

  /** (h1 << 4) | h2 stored in a char. */
  function Combine(h1: nat, h2: nat): byte
    requires h1 < 36 && h2 < 36
  {
    16 * (OrSmall(h1, h2 / 16) % 16) + h2 % 16
  }

  function HexPair(b: byte): seq<byte> {
    [HexDigit(b / 16), HexDigit(b % 16)]
  }

  /** The byte written as two hexadecimal characters, if they are such. */
  function FromPair(c1: byte, c2: byte): Option<byte> {
    match (HexValue(c1), HexValue(c2))
    case (Some(h1), Some(h2)) => Some(Combine(h1, h2))
    case _ => None
  }

  lemma PairRoundTrip(b: byte)
    ensures FromPair(HexPair(b)[0], HexPair(b)[1]) == Some(b)
  {
    var h1, h2 := b / 16, b % 16;
    assert HexValue(HexDigit(h1)) == Some(h1) && HexValue(HexDigit(h2)) == Some(h2);
    assert Combine(h1, h2) == b;
  }

  // ---- the codes -----------------------------------------------------------------------------

  /** ASCII_CLASS & URL_UNSAFE. */
  predicate UrlUnsafe(b: byte) {
    b <= 32 || 34 <= b <= 38 || b == 43 || b == 44 || b == 47 || 58 <= b <= 64 || 91 <= b <= 94 || b == 96
    || 123 <= b <= 125 || b == 127
  }

  /** ASCII_CLASS & XML_UNSAFE: the quotes, the ampersand and the angle brackets. */
  predicate XmlUnsafe(b: byte) {
    b == 34 || b == 38 || b == 39 || b == 60 || b == 62
  }

  const AMP: byte := 38
  const PERCENT: byte := 37
  const PLUS: byte := 43
  const HASH: byte := 35
  const SEMICOLON: byte := 59

  const LT: seq<byte> := [108, 116, 59]                   // lt;
  const GT: seq<byte> := [103, 116, 59]                   // gt;
  const APOS: seq<byte> := [97, 112, 111, 115, 59]        // apos;
  const QUOT: seq<byte> := [113, 117, 111, 116, 59]       // quot;
  const AMPERSAND: seq<byte> := [97, 109, 112, 59]        // amp;

  function EntityName(b: byte): seq<byte>
    requires XmlUnsafe(b)
  {
    if b == 60 then LT else if b == 62 then GT else if b == 39 then APOS else if b == 34 then QUOT else AMPERSAND
  }

  /** strchr(illegal, ch) also finds the terminating NUL. */
  predicate MustEscape(c: Codec, b: byte)
    requires c.Backslash? || c.HexEscape?
  {
    b == c.esc || b in c.illegal || b == 0
  }

  /** The code of one byte. */
  function Code(c: Codec, b: byte): (u: seq<byte>)
    ensures 1 <= |u| <= 6
  {
    match c
    case Backslash(_, esc) => if MustEscape(c, b) then [esc, b] else [b]
    case HexEscape(_, esc) => if MustEscape(c, b) then [esc] + HexPair(b) else [b]
    case Url => if UrlUnsafe(b) then [PERCENT] + HexPair(b) else [b]
    case Xml => if XmlUnsafe(b) then [AMP] + EntityName(b) else [b]
    case Hex => HexPair(b)
  }

  function Codes(c: Codec, s: seq<byte>): seq<seq<byte>> {
    seq(|s|, i requires 0 <= i < |s| => Code(c, s[i]))
  }

  /** Concatenation. */
  function Flat(us: seq<seq<byte>>): seq<byte> {
    if us == [] then [] else Flat(us[..|us| - 1]) + us[|us| - 1]
  }

  function Encoded(c: Codec, s: seq<byte>): seq<byte> {
    Flat(Codes(c, s))
  }

  lemma FlatSnoc(us: seq<seq<byte>>, u: seq<byte>)
    ensures Flat(us + [u]) == Flat(us) + u
  {
    assert (us + [u])[..|us|] == us;
  }

  lemma {:induction false} FlatCons(us: seq<seq<byte>>)
    requires us != []
    ensures Flat(us) == us[0] + Flat(us[1..])
    decreases |us|
  {
    var k := |us| - 1;
    if k == 0 {
      assert us[..0] == [] && us[1..] == [];
    } else {
      FlatCons(us[..k]);
      assert us[..k][1..] == us[1..][..k - 1];
      assert us[0] + (Flat(us[1..][..k - 1]) + us[k]) == (us[0] + Flat(us[1..][..k - 1])) + us[k];
    }
  }

  lemma EncodedSnoc(c: Codec, s: seq<byte>, k: nat)
    requires k < |s|
    ensures Encoded(c, s[..k + 1]) == Encoded(c, s[..k]) + Code(c, s[k])
  {
    assert Codes(c, s[..k + 1]) == Codes(c, s[..k]) + [Code(c, s[k])];
    FlatSnoc(Codes(c, s[..k]), Code(c, s[k]));
  }

  /** The same code read from the front. */
  lemma EncodedCons(c: Codec, s: seq<byte>)
    requires s != []
    ensures Encoded(c, s) == Code(c, s[0]) + Encoded(c, s[1..])
  {
    FlatCons(Codes(c, s));
    assert Codes(c, s)[1..] == Codes(c, s[1..]);
  }

  // ---- decoding --------------------------------------------------------------------------------

  /** What a decoder makes of the front of `t`: how many bytes it uses up and what it emits. */
  datatype Step = Step(used: nat, out: seq<byte>)

  predicate StartsWith(t: seq<byte>, p: seq<byte>) {
    |p| <= |t| && t[..|p|] == p
  }

  function DecodeStep(c: Codec, t: seq<byte>): (r: Option<Step>)
    requires t != []
    ensures r.Some? ==> 1 <= r.value.used <= |t|
  {
    match c
    case Backslash(_, esc) =>
      if t[0] == esc && |t| > 1 then Some(Step(2, [t[1]])) else Some(Step(1, [t[0]]))
    case HexEscape(_, esc) => EscapedPair(esc, t)
    case Url => if t[0] == PLUS then Some(Step(1, [32])) else EscapedPair(PERCENT, t)
    case Xml => if t[0] != AMP then Some(Step(1, [t[0]])) else Entity(t)
    case Hex =>
      if |t| < 2 then None
      else match FromPair(t[0], t[1])
           case None => None
           case Some(b) => Some(Step(2, [b]))
  }

  /** An escape character followed by two hexadecimal characters, or any byte for itself. */
  function EscapedPair(esc: byte, t: seq<byte>): (r: Option<Step>)
    requires t != []
    ensures r.Some? && 1 <= r.value.used <= |t|
  {
    if t[0] == esc && |t| > 2 && FromPair(t[1], t[2]).Some? then Some(Step(3, [FromPair(t[1], t[2]).value]))
    else Some(Step(1, [t[0]]))
  }

  /** The named entities and the character references, from the ampersand on. */
  function Entity(t: seq<byte>): (r: Option<Step>)
    requires t != []
    ensures r.Some? ==> 1 <= r.value.used <= |t|
  {
    var n := t[1..];
    if StartsWith(n, LT) then Some(Step(4, [60]))
    else if StartsWith(n, GT) then Some(Step(4, [62]))
    else if StartsWith(n, APOS) then Some(Step(6, [39]))
    else if StartsWith(n, QUOT) then Some(Step(6, [34]))
    else if StartsWith(n, AMPERSAND) then Some(Step(5, [38]))
    else if |t| > 1 && t[1] == HASH then Reference(t)
    else None
  }

  /** &#N; or &#xN; for a value that UTF-8 can express. */
  function Reference(t: seq<byte>): (r: Option<Step>)
    requires |t| > 1
    ensures r.Some? ==> 1 <= r.value.used <= |t|
  {
    var base, from := if |t| > 2 && t[2] == 120 then 16 else 10, if |t| > 2 && t[2] == 120 then 3 else 2;
    var (value, end) := Utf8.Number(t, from, base, 0);
    if end < |t| && t[end] == SEMICOLON && Utf8.Encode(value) != [] then Some(Step(end + 1, Utf8.Encode(value)))
    else None
  }

  /** Decoding with room for everything; it stops where no step applies. */
  function Decoded(c: Codec, t: seq<byte>): seq<byte>
    decreases |t|
  {
    if t == [] then []
    else match DecodeStep(c, t)
         case None => []
         case Some(Step(n, out)) => out + Decoded(c, t[n..])
  }

  /** A code at the front is recognised for what it is, whatever follows. */
  lemma CodeIsDecoded(c: Codec, b: byte, rest: seq<byte>)
    ensures DecodeStep(c, Code(c, b) + rest) == Some(Step(|Code(c, b)|, [b]))
  {
    match c {
      case Backslash(_, esc) =>
      case HexEscape(_, esc) =>
        if MustEscape(c, b) { EscapedPairIsDecoded(esc, b, rest); }
      case Url =>
        if UrlUnsafe(b) { EscapedPairIsDecoded(PERCENT, b, rest); }
      case Xml =>
        if XmlUnsafe(b) { EntityIsDecoded(b, rest); }
      case Hex => PairRoundTrip(b);
    }
  }

  lemma EscapedPairIsDecoded(esc: byte, b: byte, rest: seq<byte>)
    ensures EscapedPair(esc, [esc] + HexPair(b) + rest) == Some(Step(3, [b]))
  {
    PairRoundTrip(b);
    var t := [esc] + HexPair(b) + rest;
    assert t[0] == esc && t[1] == HexPair(b)[0] && t[2] == HexPair(b)[1];
  }

  lemma EntityIsDecoded(b: byte, rest: seq<byte>)
    requires XmlUnsafe(b)
    ensures Entity([AMP] + EntityName(b) + rest) == Some(Step(1 + |EntityName(b)|, [b]))
  {
    var name := EntityName(b);
    var n := ([AMP] + name + rest)[1..];
    assert n == name + rest;
    assert n[..|name|] == name;
    assert n[0] == name[0] && n[1] == name[1];
  }

  /** Round trip: every string comes back from its code. */
  lemma {:induction false} RoundTrip(c: Codec, s: seq<byte>)
    ensures Decoded(c, Encoded(c, s)) == s
    decreases |s|
  {
    if s != [] {
      EncodedCons(c, s);
      var u, rest := Code(c, s[0]), Encoded(c, s[1..]);
      CodeIsDecoded(c, s[0], rest);
      assert (u + rest)[|u|..] == rest;
      RoundTrip(c, s[1..]);
    }
  }

  // ---- encoders --------------------------------------------------------------------------------

  /** `k` is the longest prefix of `s` whose code leaves room for the terminating NUL. */
  ghost predicate LongestFit(c: Codec, s: seq<byte>, buflen: nat, k: nat) {
    && k <= |s| && |Encoded(c, s[..k])| < buflen
    && (k < |s| ==> |Encoded(c, s[..k + 1])| >= buflen)
  }

  /** What every encoder leaves in a buffer of at least one byte: the full code of the longest fitting prefix, and a NUL. */
  ghost predicate Emitted(c: Codec, s: seq<byte>, buffer: seq<byte>, n: nat, k: nat) {
    && LongestFit(c, s, |buffer|, k) && n < |buffer|
    && buffer[..n] == Encoded(c, s[..k]) && buffer[n] == 0
  }

  lemma {:induction false} EncodedMonotone(c: Codec, s: seq<byte>, i: nat, j: nat)
    requires i <= j <= |s|
    ensures |Encoded(c, s[..i])| <= |Encoded(c, s[..j])|
  {
    if i < j {
      EncodedMonotone(c, s, i, j - 1);
      EncodedGrows(c, s, j - 1, j);
    }
  }

  lemma EncodedGrows(c: Codec, s: seq<byte>, k: nat, j: nat)
    requires j == k + 1 <= |s|
    ensures |Encoded(c, s[..k])| <= |Encoded(c, s[..j])|
  {
    EncodedSnoc(c, s, k);
  }

  /** Longest means longest: no longer prefix fits. */
  lemma LongestFitIsMaximal(c: Codec, s: seq<byte>, buflen: nat, k: nat, j: nat)
    requires LongestFit(c, s, buflen, k) && j <= |s| && |Encoded(c, s[..j])| < buflen
    ensures j <= k
  {
    if k < j {
      EncodedMonotone(c, s, k + 1, j);
      assert false;
    }
  }

  /** The output decodes to the prefix it encodes. */
  lemma EmittedDecodes(c: Codec, s: seq<byte>, buffer: seq<byte>, n: nat, k: nat)
    requires Emitted(c, s, buffer, n, k)
    ensures Decoded(c, buffer[..n]) == s[..k]
  {
    RoundTrip(c, s[..k]);
  }

  /** One pass of an encoder loop has written the code of `s[k]`. */
  method PutCode(buffer: array<byte>, pos: nat, ghost c: Codec, ghost s: seq<byte>, ghost k: nat, u: seq<byte>)
    requires k < |s| && pos + |u| < buffer.Length && u == Code(c, s[k])
    requires buffer[..][..pos] == Encoded(c, s[..k])
    modifies buffer
    ensures buffer[..][..pos + |u|] == Encoded(c, s[..k + 1])
  {
    OverwrittenParts(buffer[..], pos, u);
    EncodedSnoc(c, s, k);
    CopyInto(buffer, pos, u);
    assert buffer[..][..pos + |u|] == buffer[..][..pos] + buffer[..][pos..pos + |u|];
  }

  lemma Full(c: Codec, s: seq<byte>, buflen: nat, k: nat, pos: nat)
    requires k <= |s| && pos == |Encoded(c, s[..k])| < buflen
    requires k == |s| || pos + |Code(c, s[k])| >= buflen
    ensures LongestFit(c, s, buflen, k)
  {
    if k < |s| {
      EncodedSnoc(c, s, k);
    }
  }

  /** escape. */
  method Escape(buffer: array<byte>, source: seq<byte>, illegal: set<byte>, esc: byte) returns (n: nat, ghost k: nat)
    modifies buffer
    ensures buffer.Length == 0 ==> n == 0
    ensures buffer.Length > 0 ==> Emitted(Backslash(illegal, esc), source, buffer[..], n, k)
  {
    if buffer.Length == 0 {
      return 0, 0;
    }
    ghost var c := Backslash(illegal, esc);
    var pos := 0;
    n := 0;
    while pos < |source| && n + 1 < buffer.Length
      invariant pos <= |source| && n < buffer.Length && buffer[..][..n] == Encoded(c, source[..pos])
      decreases |source| - pos
    {
      var ch := source[pos];
      if ch == esc || ch in illegal || ch == 0 {
        if n + 2 >= buffer.Length {
          break;
        }
        PutCode(buffer, n, c, source, pos, [esc, ch]);
        n := n + 2;
      } else {
        PutCode(buffer, n, c, source, pos, [ch]);
        n := n + 1;
      }
      pos := pos + 1;
    }
    Full(c, source, buffer.Length, pos, n);
    ghost var done := buffer[..][..n];
    buffer[n] := 0;
    assert buffer[..][..n] == done;
    k := pos;
  }

  /** encode. */
  method EncodeHexEscape(buffer: array<byte>, source: seq<byte>, illegal: set<byte>, esc: byte) returns (n: nat, ghost k: nat)
    modifies buffer
    ensures buffer.Length == 0 ==> n == 0
    ensures buffer.Length > 0 ==> Emitted(HexEscape(illegal, esc), source, buffer[..], n, k)
  {
    if buffer.Length == 0 {
      return 0, 0;
    }
    ghost var c := HexEscape(illegal, esc);
    var pos := 0;
    n := 0;
    while pos < |source| && n + 1 < buffer.Length
      invariant pos <= |source| && n < buffer.Length && buffer[..][..n] == Encoded(c, source[..pos])
      decreases |source| - pos
    {
      var ch := source[pos];
      if ch != esc && ch !in illegal && ch != 0 {
        PutCode(buffer, n, c, source, pos, [ch]);
        n := n + 1;
      } else if n + 3 >= buffer.Length {
        break;
      } else {
        PutCode(buffer, n, c, source, pos, [esc] + HexPair(ch));
        n := n + 3;
      }
      pos := pos + 1;
    }
    Full(c, source, buffer.Length, pos, n);
    ghost var done := buffer[..][..n];
    buffer[n] := 0;
    assert buffer[..][..n] == done;
    k := pos;
  }

  /** url_encode with a buffer. */
  method UrlEncode(buffer: array<byte>, source: seq<byte>) returns (n: nat, ghost k: nat)
    modifies buffer
    ensures buffer.Length == 0 ==> n == 0
    ensures buffer.Length > 0 ==> Emitted(Url, source, buffer[..], n, k)
  {
    if buffer.Length == 0 {
      return 0, 0;
    }
    var pos := 0;
    n := 0;
    while pos < |source| && n + 1 < buffer.Length
      invariant pos <= |source| && n < buffer.Length && buffer[..][..n] == Encoded(Url, source[..pos])
      decreases |source| - pos
    {
      var ch := source[pos];
      if ch < 128 && UrlUnsafe(ch) {
        if n + 3 >= buffer.Length {
          break;
        }
        PutCode(buffer, n, Url, source, pos, [PERCENT] + HexPair(ch));
        n := n + 3;
      } else {
        PutCode(buffer, n, Url, source, pos, [ch]);
        n := n + 1;
      }
      pos := pos + 1;
    }
    Full(Url, source, buffer.Length, pos, n);
    ghost var done := buffer[..][..n];
    buffer[n] := 0;
    assert buffer[..][..n] == done;
    k := pos;
  }

  /** xml_encode. */
  method XmlEncode(buffer: array<byte>, source: seq<byte>) returns (n: nat, ghost k: nat)
    modifies buffer
    ensures buffer.Length == 0 ==> n == 0
    ensures buffer.Length > 0 ==> Emitted(Xml, source, buffer[..], n, k)
  {
    if buffer.Length == 0 {
      return 0, 0;
    }
    var pos := 0;
    n := 0;
    while pos < |source| && n + 1 < buffer.Length
      invariant pos <= |source| && n < buffer.Length && buffer[..][..n] == Encoded(Xml, source[..pos])
      decreases |source| - pos
    {
      var ch := source[pos];
      if ch < 128 && XmlUnsafe(ch) {
        var escseq := [AMP] + EntityName(ch);
        if n + |escseq| >= buffer.Length {
          break;
        }
        PutCode(buffer, n, Xml, source, pos, escseq);
        n := n + |escseq|;
      } else {
        PutCode(buffer, n, Xml, source, pos, [ch]);
        n := n + 1;
      }
      pos := pos + 1;
    }
    Full(Xml, source, buffer.Length, pos, n);
    ghost var done := buffer[..][..n];
    buffer[n] := 0;
    assert buffer[..][..n] == done;
    k := pos;
  }

  /** hex_encode: the length is cut first, then every byte is written. */
  method HexEncode(buffer: array<byte>, source: seq<byte>) returns (n: nat, ghost k: nat)
    modifies buffer
    ensures buffer.Length == 0 ==> n == 0
    ensures buffer.Length > 0 ==> Emitted(Hex, source, buffer[..], n, k)
  {
    if buffer.Length == 0 {
      return 0, 0;
    }
    var len := Min(|source|, (buffer.Length - 1) / 2);
    var pos := 0;
    n := 0;
    while pos < len
      invariant pos <= len && n == 2 * pos && buffer[..][..n] == Encoded(Hex, source[..pos])
    {
      PutCode(buffer, n, Hex, source, pos, HexPair(source[pos]));
      n := n + 2;
      pos := pos + 1;
    }
    Full(Hex, source, buffer.Length, pos, n);
    ghost var done := buffer[..][..n];
    buffer[n] := 0;
    assert buffer[..][..n] == done;
    k := pos;
  }

  // ---- decoders that emit one byte a step ------------------------------------------------------

  /** unescape, decode, url_decode and hex_decode share this loop and differ in the step. */
  method Decode(c: Codec, buffer: array<byte>, source: seq<byte>) returns (n: nat)
    requires !c.Xml?
    modifies buffer
    ensures buffer.Length == 0 ==> n == 0
    ensures buffer.Length > 0 ==>
      n == Min(|Decoded(c, source)|, buffer.Length - 1) && buffer[..n] == Decoded(c, source)[..n] && buffer[n] == 0
  {
    if buffer.Length == 0 {
      return 0;
    }
    n := DecodeBytes(c, buffer, source);
    ghost var done := buffer[..];
    buffer[n] := 0;
    assert buffer[..n] == done[..n];
  }

  /** The loop of the byte decoders. */
  method DecodeBytes(c: Codec, buffer: array<byte>, source: seq<byte>) returns (n: nat)
    requires !c.Xml? && buffer.Length > 0
    modifies buffer
    ensures n == Min(|Decoded(c, source)|, buffer.Length - 1) && buffer[..][..n] == Decoded(c, source)[..n]
  {
    var pos := 0;
    n := 0;
    assert source[0..] == source;
    while pos < |source| && n + 1 < buffer.Length
      invariant Decoding(c, source, pos, buffer[..], n)
      decreases |source| - pos
    {
      var step := DecodeStep(c, source[pos..]);
      DecodingStep(c, source, pos, buffer[..], n, step);
      if step.None? {
        break;
      }
      buffer[n] := step.value.out[0];
      n, pos := n + 1, pos + step.value.used;
    }
    DecodingEnds(c, source, pos, buffer[..], n);
  }

  /** The first `n` bytes, and the decoding of what is left, are the decoding of the source. */
  ghost predicate Decoding(c: Codec, source: seq<byte>, pos: nat, bytes: seq<byte>, n: nat) {
    pos <= |source| && n < |bytes| && Decoded(c, source) == bytes[..n] + Decoded(c, source[pos..])
  }

  lemma DecodingStep(c: Codec, source: seq<byte>, pos: nat, bytes: seq<byte>, n: nat, step: Option<Step>)
    requires Decoding(c, source, pos, bytes, n) && pos < |source| && n + 1 < |bytes| && !c.Xml?
    requires step == DecodeStep(c, source[pos..])
    ensures step.None? ==> Decoded(c, source[pos..]) == []
    ensures step.Some? ==> |step.value.out| == 1 && Decoding(c, source, pos + step.value.used, bytes[n := step.value.out[0]], n + 1)
  {
    DecodedUnfolds(c, source, pos, bytes[..n], step);
    if step.Some? {
      OneByteSteps(c, source[pos..]);
      assert bytes[n := step.value.out[0]][..n + 1] == bytes[..n] + step.value.out;
    }
  }

  lemma DecodingEnds(c: Codec, source: seq<byte>, pos: nat, bytes: seq<byte>, n: nat)
    requires Decoding(c, source, pos, bytes, n)
    requires pos == |source| || n + 1 == |bytes| || Decoded(c, source[pos..]) == []
    ensures n == Min(|Decoded(c, source)|, |bytes| - 1) && bytes[..n] == Decoded(c, source)[..n]
  {
    if pos == |source| { assert source[pos..] == []; }
  }

  lemma OneByteSteps(c: Codec, t: seq<byte>)
    requires t != [] && !c.Xml? && DecodeStep(c, t).Some?
    ensures |DecodeStep(c, t).value.out| == 1
  {
  }

  lemma DecodedUnfolds(c: Codec, source: seq<byte>, pos: nat, done: seq<byte>, step: Option<Step>)
    requires pos < |source| && step == DecodeStep(c, source[pos..])
    ensures step.None? ==> Decoded(c, source[pos..]) == []
    ensures step.Some? ==>
      done + Decoded(c, source[pos..]) == (done + step.value.out) + Decoded(c, source[pos + step.value.used..])
  {
    if step.Some? {
      var rest := source[pos + step.value.used..];
      assert source[pos..][step.value.used..] == rest;
      assert (done + step.value.out) + Decoded(c, rest) == done + (step.value.out + Decoded(c, rest));
    }
  }

  /** xml_decode and html_decode, into a buffer with room for all of the output and the NUL. */
  method XmlDecode(buffer: array<byte>, source: seq<byte>) returns (n: nat)
    requires |Decoded(Xml, source)| < buffer.Length
    modifies buffer
    ensures n == |Decoded(Xml, source)| && buffer[..n] == Decoded(Xml, source) && buffer[n] == 0
  {
    var pos := 0;
    n := 0;
    assert source[0..] == source;
    ghost var done: seq<byte> := [];
    while pos < |source| && n + 1 < buffer.Length
      invariant pos <= |source| && n == |done| < buffer.Length && buffer[..][..n] == done
      invariant Decoded(Xml, source) == done + Decoded(Xml, source[pos..])
      decreases |source| - pos
    {
      var step := DecodeStep(Xml, source[pos..]);
      DecodedUnfolds(Xml, source, pos, done, step);
      if step.None? {
        break;
      }
      var out := step.value.out;
      OverwrittenParts(buffer[..], n, out);
      CopyInto(buffer, n, out);
      assert buffer[..][..n + |out|] == buffer[..][..n] + buffer[..][n..n + |out|];
      done := done + out;
      n := n + |out|;
      pos := pos + step.value.used;
    }
    assert Decoded(Xml, source[pos..]) == [] by {
      if pos == |source| {
        assert source[pos..] == [];
      }
    }
    buffer[n] := 0;
    assert buffer[..n] == done;
  }

  // ---- split and tokenize -----------------------------------------------------------------------

  /** The fields of `s` between delimiters; there is always one more than there are delimiters. */
  function Fields(s: seq<byte>, delimiter: byte): (r: seq<seq<byte>>)
    ensures |r| >= 1
  {
    if s == [] then [[]]
    else
      var r := Fields(s[..|s| - 1], delimiter);
      var ch := s[|s| - 1];
      if ch == delimiter then r + [[]] else r[..|r| - 1] + [r[|r| - 1] + [ch]]
  }

  function Join(fields: seq<seq<byte>>, delimiter: byte): seq<byte>
    requires |fields| >= 1
  {
    if |fields| == 1 then fields[0]
    else Join(fields[..|fields| - 1], delimiter) + [delimiter] + fields[|fields| - 1]
  }

  function NonEmpty(fields: seq<seq<byte>>): seq<seq<byte>> {
    if fields == [] then []
    else
      var last := fields[|fields| - 1];
      NonEmpty(fields[..|fields| - 1]) + if last == [] then [] else [last]
  }

  /** Splitting loses nothing, and no field contains the delimiter. */
  lemma {:induction false} SplitRoundTrip(s: seq<byte>, delimiter: byte)
    ensures Join(Fields(s, delimiter), delimiter) == s
    ensures forall i :: 0 <= i < |Fields(s, delimiter)| ==> delimiter !in Fields(s, delimiter)[i]
    decreases |s|
  {
    if s != [] {
      var k := |s| - 1;
      SplitRoundTrip(s[..k], delimiter);
      assert s == s[..k] + [s[k]];
      if s[k] == delimiter {
        JoinEmpty(Fields(s[..k], delimiter), delimiter);
      } else {
        JoinLonger(Fields(s[..k], delimiter), delimiter, s[k]);
      }
    }
  }

  lemma JoinEmpty(r: seq<seq<byte>>, delimiter: byte)
    requires |r| >= 1
    ensures Join(r + [[]], delimiter) == Join(r, delimiter) + [delimiter]
  {
    assert (r + [[]])[..|r|] == r;
  }

  lemma JoinLonger(r: seq<seq<byte>>, delimiter: byte, ch: byte)
    requires |r| >= 1
    ensures Join(r[..|r| - 1] + [r[|r| - 1] + [ch]], delimiter) == Join(r, delimiter) + [ch]
  {
    var all := r[..|r| - 1] + [r[|r| - 1] + [ch]];
    assert all[..|all| - 1] == r[..|r| - 1];
  }

  /** split and tokenize as the one scan they share; `fields` and `tokens` are the two results. */
  method Split(source: seq<byte>, delimiter: byte) returns (fields: seq<seq<byte>>, tokens: seq<seq<byte>>)
    ensures fields == Fields(source, delimiter)
    ensures tokens == NonEmpty(Fields(source, delimiter))
  {
    fields, tokens := [], [];
    var last := 0;
    assert source[..0] == [] && source[0..0] == [];
    for i := 0 to |source|
      invariant Splitting(source, delimiter, i, last, fields, tokens)
    {
      FieldsNext(source, delimiter, i, last, fields);
      if source[i] == delimiter {
        tokens := Token(tokens, fields, source[last..i]);
        fields := fields + [source[last..i]];
        last := i + 1;
      }
    }
    SplitEnds(source, delimiter, last, fields, tokens);
    tokens := Token(tokens, fields, source[last..]);
    fields := fields + [source[last..]];
  }

  /** The scan at position `i`: the last field, which starts at `last`, is still growing. */
  ghost predicate Splitting(source: seq<byte>, delimiter: byte, i: nat, last: nat, fields: seq<seq<byte>>, tokens: seq<seq<byte>>) {
    last <= i <= |source| && fields + [source[last..i]] == Fields(source[..i], delimiter) && tokens == NonEmpty(fields)
  }

  lemma SplitEnds(source: seq<byte>, delimiter: byte, last: nat, fields: seq<seq<byte>>, tokens: seq<seq<byte>>)
    requires Splitting(source, delimiter, |source|, last, fields, tokens)
    ensures fields + [source[last..]] == Fields(source, delimiter)
  {
    assert source[..|source|] == source && source[last..|source|] == source[last..];
  }

  /** tokenize leaves out the empty fields. */
  method Token(tokens: seq<seq<byte>>, ghost fields: seq<seq<byte>>, f: seq<byte>) returns (r: seq<seq<byte>>)
    requires tokens == NonEmpty(fields)
    ensures r == NonEmpty(fields + [f])
  {
    NonEmptySnoc(fields, f);
    r := if f != [] then tokens + [f] else tokens;
  }

  /** One more character either ends the last field or extends it. */
  lemma FieldsNext(source: seq<byte>, delimiter: byte, i: nat, last: nat, fields: seq<seq<byte>>)
    requires last <= i < |source| && fields + [source[last..i]] == Fields(source[..i], delimiter)
    ensures Fields(source[..i + 1], delimiter)
         == if source[i] == delimiter then (fields + [source[last..i]]) + [source[i + 1..i + 1]]
            else fields + [source[last..i + 1]]
  {
    assert source[..i + 1][..i] == source[..i];
    var before := Fields(source[..i], delimiter);
    assert before[..|before| - 1] == fields && before[|before| - 1] == source[last..i];
    assert source[last..i + 1] == source[last..i] + [source[i]];
    assert source[i + 1..i + 1] == [];
  }

  lemma NonEmptySnoc(fields: seq<seq<byte>>, f: seq<byte>)
    ensures NonEmpty(fields + [f]) == NonEmpty(fields) + if f == [] then [] else [f]
  {
    assert (fields + [f])[..|fields|] == fields;
  }
}
