/**
 cmds/logos.c: fix_buf, which replaces control characters before a line is
 written, and flush, which skips it for lines that need no change.
 */
module LogosText {
  import opened Bytes

  const TAB: byte := 9
  const NL: byte := 10
  const CR: byte := 13
  const SPACE: byte := 32

  predicate Printable(b: byte) {
    b >= 32 || b == NL
  }

  /** What byte `b` becomes at output column `col`. */
  function FixByte(col: nat, b: byte): (r: seq<byte>)
    ensures |r| <= 8 && forall i :: 0 <= i < |r| ==> Printable(r[i])
  {
    if Printable(b) then [b]
    else if b == TAB then seq(8 - col % 8, _ => SPACE)
    else if b == CR then []
    else [92, 120, HexDigit(b / 16), HexDigit(b % 16)]
  }

  /** The fixed text of `s`. */
  function Fixed(s: seq<byte>): seq<byte> {
    if s == [] then []
    else
      var before := Fixed(s[..|s| - 1]);
      before + FixByte(|before|, s[|s| - 1])
  }

  /** Only printable bytes remain, at most eight for each input byte. */
  lemma {:induction false} FixedIsPrintable(s: seq<byte>)
    ensures forall i :: 0 <= i < |Fixed(s)| ==> Printable(Fixed(s)[i])
    ensures |Fixed(s)| <= 8 * |s|
  {
    if s != [] {
      FixedIsPrintable(s[..|s| - 1]);
    }
  }

  /** Text without control characters is left alone, so flush may pass it on unchanged. */
  lemma {:induction false} FixedLeavesPrintable(s: seq<byte>)
    requires forall i :: 0 <= i < |s| ==> Printable(s[i])
    ensures Fixed(s) == s
  {
    if s != [] {
      var k := |s| - 1;
      FixedLeavesPrintable(s[..k]);
      assert s == s[..k] + [s[k]];
    }
  }

  /** The value of a lower-case hexadecimal digit. */
  function DigitOf(b: byte): int {
    if '0' as int <= b <= '9' as int then b - '0' as int else b - 'a' as int + 10
  }

  /**
   What one more byte adds: a tab fills up to the next multiple of eight columns, a carriage
   return nothing, another control character a backslash, an x and two digits that spell it.
   */
  lemma FixMeans(s: seq<byte>, b: byte)
    ensures var t, t' := Fixed(s), Fixed(s + [b]);
            && t <= t'
            && (b == '\t' as int ==> |t'| % 8 == 0 && 1 <= |t'| - |t| <= 8 && forall i :: |t| <= i < |t'| ==> t'[i] == ' ' as int)
            && (b == '\r' as int ==> t' == t)
            && (b >= ' ' as int || b == '\n' as int ==> t' == t + [b])
            && (b < ' ' as int && b != '\t' as int && b != '\r' as int && b != '\n' as int ==>
                  |t'| == |t| + 4 && t'[|t|] == '\\' as int && t'[|t| + 1] == 'x' as int
                  && 0 <= DigitOf(t'[|t| + 2]) < 16 && 0 <= DigitOf(t'[|t| + 3]) < 16
                  && 16 * DigitOf(t'[|t| + 2]) + DigitOf(t'[|t| + 3]) == b)
  {
    assert (s + [b])[..|s|] == s;
  }

  /** Fixing twice changes nothing more. */
  lemma FixedIdempotent(s: seq<byte>)
    ensures Fixed(Fixed(s)) == Fixed(s)
  {
    FixedIsPrintable(s);
    FixedLeavesPrintable(Fixed(s));
  }

  /** fix_buf: fills a buffer of 8 * len + 1 bytes and never runs past it. */
  method FixBuf(buf: seq<byte>) returns (outbuf: array<byte>, n: nat)
    ensures outbuf.Length == 8 * |buf| + 1 && n <= 8 * |buf|
    ensures outbuf[..n] == Fixed(buf) && outbuf[n] == 0
  {
    outbuf := new byte[8 * |buf| + 1](_ => 0);
    n := 0;
    for i := 0 to |buf|
      invariant n <= 8 * i && outbuf[..n] == Fixed(buf[..i])
    {
      assert buf[..i + 1][..i] == buf[..i];
      n := PutFixed(outbuf, n, buf[i]);
    }
    assert buf[..|buf|] == buf;
    outbuf[n] := 0;
  }

  /** The loop body: one input byte. */
  method PutFixed(outbuf: array<byte>, start: nat, b: byte) returns (n: nat)
    requires start + 8 <= outbuf.Length
    modifies outbuf
    ensures start <= n <= start + 8 && outbuf[..n] == old(outbuf[..start]) + FixByte(start, b)
  {
    ghost var before := outbuf[..start];
    n := start;
    if Printable(b) {
      outbuf[n] := b;
      n := n + 1;
    } else if b == TAB {
      n := PadToColumn(outbuf, n);
    } else if b == CR {
    } else {
      outbuf[n], outbuf[n + 1] := 92, 120;
      outbuf[n + 2], outbuf[n + 3] := HexDigit(b / 16), HexDigit(b % 16);
      n := n + 4;
    }
    assert outbuf[..n] == before + FixByte(start, b);
  }

  /** The do-while that aligns tabs: at least one space, then up to a multiple of 8. */
  method PadToColumn(outbuf: array<byte>, start: nat) returns (n: nat)
    requires start + 8 <= outbuf.Length
    modifies outbuf
    ensures n == start + (8 - start % 8)
    ensures outbuf[..n] == old(outbuf[..start]) + seq(8 - start % 8, _ => SPACE)
  {
    outbuf[start] := SPACE;
    n := start + 1;
    while n % 8 != 0
      invariant start < n <= start + (8 - start % 8)
      invariant outbuf[..n] == old(outbuf[..start]) + seq(n - start, _ => SPACE)
      decreases start + 8 - n
    {
      outbuf[n] := SPACE;
      n := n + 1;
    }
  }

  /** flush: whichever way it takes, the text handed to the rate limiter is Fixed(buf), up to its first NUL. */
  method Flush(buf: seq<byte>) returns (text: seq<byte>)
    ensures text == Fixed(buf) && 0 !in text
  {
    FixedIsPrintable(buf);
    var p := 0;
    while p < |buf|
      invariant p <= |buf| && forall i :: 0 <= i < p ==> Printable(buf[i])
    {
      if !Printable(buf[p]) {
        text := FixedString(buf);
        return;
      }
      p := p + 1;
    }
    FixedLeavesPrintable(buf);
    return buf;
  }

  /** The copy made by fix_buf, as the C string that _flush_ratelimited receives. */
  method FixedString(buf: seq<byte>) returns (text: seq<byte>)
    ensures text == Fixed(buf)
  {
    var fixed, n := FixBuf(buf);
    FixedIsPrintable(buf);
    forall j | 0 <= j < n ensures fixed[j] != 0 {
      assert fixed[j] == fixed[..n][j];
      assert Printable(Fixed(buf)[j]);
    }
    var len := StringLength(fixed);
    assert len == n;
    text := fixed[..len];
  }

  /** strlen. */
  method StringLength(s: array<byte>) returns (n: nat)
    requires exists i :: 0 <= i < s.Length && s[i] == 0
    ensures n < s.Length && s[n] == 0 && forall i :: 0 <= i < n ==> s[i] != 0
  {
    n := 0;
    ghost var i :| 0 <= i < s.Length && s[i] == 0;
    while s[n] != 0
      invariant n <= i && forall j :: 0 <= j < n ==> s[j] != 0
      decreases i - n
    {
      n := n + 1;
    }
  }
}
