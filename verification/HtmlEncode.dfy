/**
 base/stringencode.cc: html_encode, which writes characters outside ASCII as
 numeric references.  It reads the source in units of one ASCII byte or one UTF-8
 sequence; a byte that starts no sequence is a unit by itself.
 */
module HtmlEncode {
  import opened Bytes
  import opened StringEncode
  import Utf8
  import opened Collections

  /** Source bytes and what they become. */
  datatype Unit = Unit(src: seq<byte>, out: seq<byte>)

  const APOS_REF: seq<byte> := [38, 35, 51, 57, 59]   // &#39;

  function ReferenceTo(v: nat): seq<byte> {
    [AMP, HASH] + Utf8.Decimal(v) + [SEMICOLON]
  }

  /** The first unit of `s`. */
  function FirstUnit(s: seq<byte>): (u: Unit)
    requires s != []
    ensures 1 <= |u.src| <= |s| && u.src == s[..|u.src|] && |u.out| >= 1
  {
    if s[0] < 128 then
      Unit(s[..1], if s[0] == 39 then APOS_REF else Code(Xml, s[0]))
    else
      var c := Utf8.Decode(s);
      if c.len > 0 then Unit(s[..c.len], ReferenceTo(c.value)) else Unit(s[..1], ReferenceTo(s[0]))
  }

  function Units(s: seq<byte>): seq<Unit>
    decreases |s|
  {
    if s == [] then [] else [FirstUnit(s)] + Units(s[|FirstUnit(s).src|..])
  }

  function Sources(us: seq<Unit>): seq<seq<byte>> {
    seq(|us|, i requires 0 <= i < |us| => us[i].src)
  }

  function Outputs(us: seq<Unit>): seq<seq<byte>> {
    seq(|us|, i requires 0 <= i < |us| => us[i].out)
  }

  /** The units partition the source. */
  lemma {:induction false} UnitsPartition(s: seq<byte>)
    ensures Flat(Sources(Units(s))) == s
    decreases |s|
  {
    if s != [] {
      var u := FirstUnit(s);
      UnitsPartition(s[|u.src|..]);
      var us := Units(s);
      FlatCons(Sources(us));
      assert us[0] == u && us[1..] == Units(s[|u.src|..]);
      SourcesTail(us);
    }
  }

  lemma SourcesTail(us: seq<Unit>)
    requires us != []
    ensures Sources(us)[0] == us[0].src && Sources(us)[1..] == Sources(us[1..])
  {
  }

  /** Well-formed UTF-8 in shortest form: every sequence is the encoding of its value. */
  ghost predicate ShortestForm(s: seq<byte>)
    decreases |s|
  {
    s == [] ||
    var c := Utf8.Decode(s);
    c.len > 0 && |Utf8.Encode(c.value)| == c.len && ShortestForm(s[c.len..])
  }

  /** A unit that xml_decode turns back into its source, whatever follows. */
  ghost predicate Reversible(u: Unit) {
    && u.out != []
    && forall rest: seq<byte> :: DecodeStep(Xml, u.out + rest) == Some(Step(|u.out|, u.src))
  }

  lemma ReferenceIsDecoded(v: nat, rest: seq<byte>)
    requires v <= 0x1FFFFF
    ensures DecodeStep(Xml, ReferenceTo(v) + rest) == Some(Step(|ReferenceTo(v)|, Utf8.Encode(v)))
  {
    var d := Utf8.Decimal(v);
    var t := ReferenceTo(v) + rest;
    assert t[0] == AMP && t[1] == HASH && t[2..2 + |d|] == d && t[2 + |d|] == SEMICOLON;
    DecimalStartsWithDigit(v);
    assert t[2] == d[0];
    Utf8.NumberReadsDecimal(t, 2, v);
    HashIsReference(t);
    DecimalReference(t, v, 2 + |d|);
  }

  /** An ampersand and a hash begin no named entity. */
  lemma HashIsReference(t: seq<byte>)
    requires |t| > 1 && t[0] == AMP && t[1] == HASH
    ensures DecodeStep(Xml, t) == Reference(t)
  {
    assert t[1..][0] == HASH;
  }

  lemma DecimalReference(t: seq<byte>, v: nat, end: nat)
    requires v <= 0x1FFFFF && 2 < end < |t| && t[1] == HASH && 48 <= t[2] < 58
    requires Utf8.Number(t, 2, 10, 0) == (v, end) && t[end] == SEMICOLON
    ensures Reference(t) == Some(Step(end + 1, Utf8.Encode(v)))
  {
  }

  lemma {:induction false} DecimalStartsWithDigit(n: nat)
    ensures 48 <= Utf8.Decimal(n)[0] <= 57
  {
    if n >= 10 {
      DecimalStartsWithDigit(n / 10);
    }
  }

  lemma FirstUnitIsReversible(s: seq<byte>)
    requires s != [] && ShortestForm(s)
    ensures Reversible(FirstUnit(s)) && |FirstUnit(s).src| == Utf8.Decode(s).len
  {
    var u, c := FirstUnit(s), Utf8.Decode(s);
    Utf8.EncodeDecode(s);
    ValueBound(c.value);
    if s[0] >= 128 {
      forall rest: seq<byte> ensures DecodeStep(Xml, u.out + rest) == Some(Step(|u.out|, u.src)) {
        ReferenceIsDecoded(c.value, rest);
      }
    } else if s[0] == 39 {
      ApostropheReference();
      forall rest: seq<byte> ensures DecodeStep(Xml, u.out + rest) == Some(Step(|u.out|, u.src)) {
        ReferenceIsDecoded(39, rest);
      }
    } else {
      forall rest: seq<byte> ensures DecodeStep(Xml, u.out + rest) == Some(Step(|u.out|, u.src)) {
        CodeIsDecoded(Xml, s[0], rest);
        assert s[..1] == [s[0]];
      }
    }
  }

  lemma ValueBound(v: nat)
    ensures Utf8.Encode(v) != [] ==> v <= 0x1FFFFF
  {
  }

  lemma ApostropheReference()
    ensures ReferenceTo(39) == APOS_REF
  {
    assert Utf8.Decimal(3) == [51];
    assert Utf8.Decimal(39) == Utf8.Decimal(3) + [57];
  }

  lemma {:induction false} UnitsAreReversible(s: seq<byte>)
    requires ShortestForm(s)
    ensures forall i :: 0 <= i < |Units(s)| ==> Reversible(Units(s)[i])
    decreases |s|
  {
    if s != [] {
      FirstUnitIsReversible(s);
      UnitsAreReversible(s[|FirstUnit(s).src|..]);
    }
  }

  lemma {:induction false} ReversibleRoundTrip(us: seq<Unit>)
    requires forall i :: 0 <= i < |us| ==> Reversible(us[i])
    ensures Decoded(Xml, Flat(Outputs(us))) == Flat(Sources(us))
    decreases |us|
  {
    if us != [] {
      FlatCons(Outputs(us));
      FlatCons(Sources(us));
      assert Outputs(us)[1..] == Outputs(us[1..]) && Sources(us)[1..] == Sources(us[1..]);
      ReversibleRoundTrip(us[1..]);
      var u, rest := us[0], Flat(Outputs(us[1..]));
      assert Reversible(u) && (u.out + rest)[|u.out|..] == rest;
    }
  }

  /**
   Round trip: of a source in shortest-form UTF-8, any number of leading units,
   encoded and decoded again, give back the prefix of the source they came from.
   */
  lemma HtmlRoundTrip(s: seq<byte>, m: nat)
    requires ShortestForm(s) && m <= |Units(s)|
    ensures Decoded(Xml, Flat(Outputs(Units(s)[..m]))) == Flat(Sources(Units(s)[..m]))
    ensures Flat(Sources(Units(s)[..m])) <= s
    ensures m == |Units(s)| ==> Decoded(Xml, Flat(Outputs(Units(s)))) == s
  {
    var us := Units(s);
    UnitsAreReversible(s);
    ReversibleRoundTrip(us[..m]);
    UnitsPartition(s);
    FlatPrefix(Sources(us), m);
    assert Sources(us[..m]) == Sources(us)[..m];
    if m == |us| {
      assert us[..m] == us;
    }
  }

  lemma {:induction false} FlatPrefix(us: seq<seq<byte>>, m: nat)
    requires m <= |us|
    ensures Flat(us[..m]) <= Flat(us)
    decreases |us| - m
  {
    if m == |us| {
      assert us[..m] == us;
    } else {
      FlatPrefix(us, m + 1);
      assert us[..m + 1] == us[..m] + [us[m]];
      FlatSnoc(us[..m], us[m]);
    }
  }

  /**
   html_encode: the buffer holds the full code of the first `m` units, and no more
   units would have fitted.
   */
  method HtmlEncode(buffer: array<byte>, source: seq<byte>) returns (n: nat, ghost m: nat)
    modifies buffer
    ensures buffer.Length == 0 ==> n == 0
    ensures buffer.Length > 0 ==>
      && m <= |Units(source)| && n < buffer.Length && buffer[n] == 0
      && buffer[..n] == Flat(Outputs(Units(source)[..m]))
      && (m < |Units(source)| ==> n + |Units(source)[m].out| >= buffer.Length)
  {
    if buffer.Length == 0 {
      return 0, 0;
    }
    n, m := EncodeUnits(buffer, source, Units(source));
    ghost var done := buffer[..];
    buffer[n] := 0;
    assert buffer[..n] == done[..n];
  }

  /** The loop of html_encode. */
  method EncodeUnits(buffer: array<byte>, source: seq<byte>, ghost us: seq<Unit>) returns (n: nat, ghost m: nat)
    requires buffer.Length > 0 && us == Units(source)
    modifies buffer
    ensures n < buffer.Length && Written(buffer[..], n, us, m)
    ensures m < |us| ==> n + |us[m].out| >= buffer.Length
  {
    var pos := 0;
    n, m := 0, 0;
    assert source[0..] == source && us[0..] == us && us[..0] == [];
    while pos < |source| && n + 1 < buffer.Length
      invariant Encoding(buffer[..], source, pos, n, us, m)
      decreases |source| - pos
    {
      var full, pos', n' := EncodeUnit(buffer, source, pos, n, us, m);
      if full {
        return;
      }
      n, m, pos := n', m + 1, pos';
    }
    if pos < |source| {
      NextUnit(source, pos, us, m);
    } else {
      assert source[pos..] == [];
    }
  }

  ghost predicate Encoding(bytes: seq<byte>, source: seq<byte>, pos: nat, n: nat, us: seq<Unit>, m: nat) {
    n < |bytes| && Remaining(source, pos, us, m) && Written(bytes, n, us, m)
  }

  /** One pass of the loop: the next unit is written whole or not at all. */
  method EncodeUnit(buffer: array<byte>, source: seq<byte>, pos: nat, n: nat, ghost us: seq<Unit>, ghost m: nat)
      returns (full: bool, pos': nat, n': nat)
    requires pos < |source| && Encoding(buffer[..], source, pos, n, us, m)
    modifies buffer
    ensures m < |us| && (full <==> n + |us[m].out| >= buffer.Length)
    ensures full ==> buffer[..] == old(buffer[..])
    ensures !full ==> pos < pos' <= |source| && Encoding(buffer[..], source, pos', n', us, m + 1)
  {
    var u := ReadUnit(source, pos, us, m);
    full, pos', n' := n + |u.out| >= buffer.Length, pos + |u.src|, n + |u.out|;
    if !full {
      PutOut(buffer, n, u.out, us, m);
    }
  }

  /** The first `n` bytes are the code of the first `m` units. */
  ghost predicate Written(bytes: seq<byte>, n: nat, us: seq<Unit>, m: nat) {
    n <= |bytes| && m <= |us| && bytes[..n] == Flat(Outputs(us[..m]))
  }

  /** The units from the m-th on are those of the rest of the source. */
  ghost predicate Remaining(source: seq<byte>, pos: nat, us: seq<Unit>, m: nat) {
    pos <= |source| && m <= |us| && us[m..] == Units(source[pos..])
  }

  method ReadUnit(source: seq<byte>, pos: nat, ghost us: seq<Unit>, ghost m: nat) returns (u: Unit)
    requires pos < |source| && Remaining(source, pos, us, m)
    ensures m < |us| && u == us[m] && 1 <= |u.src| <= |source| - pos
    ensures Remaining(source, pos + |u.src|, us, m + 1)
    ensures Flat(Outputs(us[..m + 1])) == Flat(Outputs(us[..m])) + u.out
  {
    NextUnit(source, pos, us, m);
    u := FirstUnit(source[pos..]);
  }

  method PutOut(buffer: array<byte>, pos: nat, out: seq<byte>, ghost us: seq<Unit>, ghost m: nat)
    requires pos + |out| <= buffer.Length && m < |us| && Written(buffer[..], pos, us, m)
    requires Flat(Outputs(us[..m + 1])) == Flat(Outputs(us[..m])) + out
    modifies buffer
    ensures Written(buffer[..], pos + |out|, us, m + 1)
  {
    OverwrittenParts(buffer[..], pos, out);
    CopyInto(buffer, pos, out);
    assert buffer[..][..pos + |out|] == buffer[..][..pos] + buffer[..][pos..pos + |out|];
  }

  lemma NextUnit(source: seq<byte>, pos: nat, us: seq<Unit>, m: nat)
    requires pos < |source| && Remaining(source, pos, us, m)
    ensures m < |us| && us[m] == FirstUnit(source[pos..]) && 1 <= |us[m].src| <= |source| - pos
    ensures Remaining(source, pos + |us[m].src|, us, m + 1)
    ensures Flat(Outputs(us[..m + 1])) == Flat(Outputs(us[..m])) + us[m].out
    ensures |us[m].out| >= 1
  {
    assert us[m] == us[m..][0];
    assert us[m + 1..] == us[m..][1..];
    assert source[pos..][|us[m].src|..] == source[pos + |us[m].src|..];
    assert Outputs(us[..m + 1]) == Outputs(us[..m]) + [us[m].out];
    FlatSnoc(Outputs(us[..m]), us[m].out);
  }
}
