/**
 cmds/logos.c: cutting standard input into log lines.  The program reads into a
 768-byte buffer, however the kernel chooses to split the stream, and passes
 complete lines, full buffers and the tail to flush().
 */
module LogosLines {
  import opened Bytes

  const NL: byte := 10

  /** MAX_LINE_LENGTH is 768.  A call of flush() with stream text, or with the overlong warning. */
  datatype Out = Line(text: seq<byte>) | Warning

  // ---- what must come out, independently of any buffer ------------------------------

  ghost predicate NoNewline(s: seq<byte>) {
    forall i :: 0 <= i < |s| ==> s[i] != NL
  }

  function FirstNewline(s: seq<byte>): (i: nat)
    ensures i <= |s| && NoNewline(s[..i]) && (i < |s| ==> s[i] == NL)
  {
    if s == [] || s[0] == NL then 0
    else
      var i := FirstNewline(s[1..]);
      assert s[..i + 1] == [s[0]] + s[1..][..i];
      i + 1
  }

  /** A terminated line, cut every 768 bytes; the last piece is shorter, possibly empty. */
  function Pieces(line: seq<byte>): seq<Out>
    decreases |line|
  {
    if |line| < 768 then [Line(line)] else [Line(line[..768])] + Pieces(line[768..])
  }

  /** One warning once a line that was cut has ended. */
  function Terminated(line: seq<byte>): seq<Out> {
    Pieces(line) + if |line| >= 768 then [Warning] else []
  }

  /** Text without a newline before end of file: no empty last piece, no warning. */
  function Tail(s: seq<byte>): seq<Out>
    decreases |s|
  {
    if s == [] then [] else if |s| < 768 then [Line(s)] else [Line(s[..768])] + Tail(s[768..])
  }

  /** The calls of flush() for a whole stream; `last` says what happens to the text after the last newline. */
  function Render(s: seq<byte>, last: seq<byte> -> seq<Out>): seq<Out>
    decreases |s|
  {
    var i := FirstNewline(s);
    if i == |s| then last(s) else Terminated(s[..i]) + Render(s[i + 1..], last)
  }

  // ---- the same, byte by byte ----------------------------------------------------------

  datatype State = State(cur: seq<byte>, overlong: bool)

  function Feed(st: State, b: byte): (seq<Out>, State) {
    if b == NL then ([Line(st.cur)] + (if st.overlong then [Warning] else []), State([], false))
    else if |st.cur| + 1 == 768 then ([Line(st.cur + [b])], State([], true))
    else ([], State(st.cur + [b], st.overlong))
  }

  function FeedAll(st: State, s: seq<byte>): (seq<Out>, State)
    decreases |s|
  {
    if s == [] then ([], st)
    else
      var (o, st') := Feed(st, s[0]);
      var (os, end) := FeedAll(st', s[1..]);
      (o + os, end)
  }

  lemma FeedOne(st: State, b: byte)
    ensures FeedAll(st, [b]) == Feed(st, b)
  {
    assert [b][1..] == [];
    assert Feed(st, b).0 + [] == Feed(st, b).0;
  }

  lemma {:induction false} FeedConcat(st: State, s: seq<byte>, t: seq<byte>)
    ensures FeedAll(st, s + t).0 == FeedAll(st, s).0 + FeedAll(FeedAll(st, s).1, t).0
    ensures FeedAll(st, s + t).1 == FeedAll(FeedAll(st, s).1, t).1
    decreases |s|
  {
    if s == [] {
      assert s + t == t;
    } else {
      assert (s + t)[1..] == s[1..] + t;
      FeedConcat(Feed(st, s[0]).1, s[1..], t);
    }
  }

  /** Newline-free text that does not fill the line just accumulates; if it fills it, it is cut. */
  lemma {:induction false} FeedText(st: State, s: seq<byte>)
    requires NoNewline(s) && |st.cur| < 768 && |st.cur| + |s| <= 768
    ensures FeedAll(st, s) ==
      if |st.cur| + |s| < 768 then ([], State(st.cur + s, st.overlong))
      else ([Line(st.cur + s)], State([], true))
    decreases |s|
  {
    if s == [] {
      assert st.cur + s == st.cur;
    } else if |st.cur| + 1 == 768 {
      assert s == [s[0]];
      FeedOne(st, s[0]);
    } else {
      FeedText(State(st.cur + [s[0]], st.overlong), s[1..]);
      var out := FeedAll(State(st.cur + [s[0]], st.overlong), s[1..]).0;
      assert [] + out == out;
      assert (st.cur + [s[0]]) + s[1..] == st.cur + s;
    }
  }

  lemma FeedNewline(st: State, s: seq<byte>)
    requires NoNewline(s) && |st.cur| + |s| < 768
    ensures FeedAll(st, s + [NL]) == ([Line(st.cur + s)] + (if st.overlong then [Warning] else []), State([], false))
  {
    FeedConcat(st, s, [NL]);
    FeedText(st, s);
    FeedOne(State(st.cur + s, st.overlong), NL);
    assert [] + FeedAll(State(st.cur + s, st.overlong), [NL]).0 == FeedAll(State(st.cur + s, st.overlong), [NL]).0;
  }

  /** A whole terminated line leaves the pieces and, if it was cut now or before, the warning. */
  lemma {:induction false} FeedLine(line: seq<byte>, overlong: bool)
    requires NoNewline(line)
    ensures FeedAll(State([], overlong), line + [NL])
         == (Pieces(line) + (if overlong || |line| >= 768 then [Warning] else []), State([], false))
    decreases |line|
  {
    if |line| < 768 {
      FeedNewline(State([], overlong), line);
      assert [] + line == line;
    } else {
      var a, b := line[..768], line[768..];
      FeedText(State([], overlong), a);
      assert [] + a == a;
      FeedLine(b, true);
      FeedConcat(State([], overlong), a, b + [NL]);
      assert line + [NL] == a + (b + [NL]);
      assert [Line(a)] + (Pieces(b) + [Warning]) == Pieces(line) + [Warning];
    }
  }

  /** Text without a newline: whole buffers are cut off, the rest stays. */
  lemma {:induction false} FeedTail(s: seq<byte>, overlong: bool)
    requires NoNewline(s)
    ensures var (out, st) := FeedAll(State([], overlong), s);
            && Tail(s) == out + (if st.cur == [] then [] else [Line(st.cur)])
            && Pieces(s) == out + [Line(st.cur)]
    decreases |s|
  {
    if |s| < 768 {
      FeedText(State([], overlong), s);
      assert [] + s == s;
    } else {
      var a, b := s[..768], s[768..];
      FeedText(State([], overlong), a);
      assert [] + a == a;
      FeedTail(b, true);
      FeedConcat(State([], overlong), a, b);
      assert s == a + b;
    }
  }

  lemma FeedFirstLine(s: seq<byte>)
    requires FirstNewline(s) < |s|
    ensures var i := FirstNewline(s);
            var (out, st) := FeedAll(State([], false), s[i + 1..]);
            FeedAll(State([], false), s) == (Terminated(s[..i]) + out, st)
  {
    var i := FirstNewline(s);
    FeedLine(s[..i], false);
    FeedConcat(State([], false), s[..i] + [NL], s[i + 1..]);
    SplitAtNewline(s);
  }

  /** The byte machine, followed by a flush of what is left, produces the rendering. */
  lemma {:induction false} FeedRenders(s: seq<byte>)
    ensures var (out, st) := FeedAll(State([], false), s);
            && Render(s, Tail) == out + (if st.cur == [] then [] else [Line(st.cur)])
            && Render(s, Pieces) == out + [Line(st.cur)]
    decreases |s|
  {
    var i := FirstNewline(s);
    if i == |s| {
      assert s[..i] == s;
      FeedTail(s, false);
    } else {
      var line, rest := s[..i], s[i + 1..];
      FeedRenders(rest);
      FeedFirstLine(s);
      var (out, st) := FeedAll(State([], false), rest);
      assert (Terminated(line) + out) + [Line(st.cur)] == Terminated(line) + (out + [Line(st.cur)]);
    }
  }

  // ---- the program -------------------------------------------------------------------------

  /** How the kernel answers one read(): up to `n` bytes (at least one), EINTR or EAGAIN, or an error. */
  datatype Answer = Upto(n: nat) | Interrupted | Failed

  /** memchr. */
  method Find(buf: array<byte>, from: nat, end: nat) returns (p: nat)
    requires from <= end <= buf.Length
    ensures from <= p <= end && NoNewline(buf[from..p]) && (p < end ==> buf[p] == NL)
  {
    p := from;
    while p < end && buf[p] != NL
      invariant from <= p <= end && NoNewline(buf[from..p])
    {
      p := p + 1;
    }
  }

  /** The code's buffer `held` against the byte machine: a full buffer is cut only before the next read. */
  ghost predicate Lags(out: seq<Out>, held: seq<byte>, overlong: bool, done: (seq<Out>, State)) {
    if |held| == 768 then done == (out + [Line(held)], State([], true))
    else |held| < 768 && done == (out, State(held, overlong))
  }

  /** How far the scan of a buffer load has come: `b[used..next]` has been fed to the byte machine. */
  ghost predicate Scanned(b: seq<byte>, used: nat, overlong: bool, start: nat, next: nat, out: seq<Out>, over: bool)
    requires used <= next <= |b|
  {
    && start <= next
    && NoNewline(b[start..next])
    && FeedAll(State(b[..used], overlong), b[used..next]) == (out, State(b[start..next], over))
  }

  lemma CutThrough(b: seq<byte>, i: nat, j: nat, k: nat)
    requires i <= j <= k < |b|
    ensures b[i..k + 1] == b[i..j] + (b[j..k] + [b[k]])
  {
  }

  lemma ScanLine(b: seq<byte>, used: nat, overlong: bool, start: nat, next: nat, p: nat, out: seq<Out>, over: bool)
    requires used <= next <= p < |b| && p - start < 768
    requires Scanned(b, used, overlong, start, next, out, over) && NoNewline(b[next..p]) && b[p] == NL
    ensures Scanned(b, used, overlong, p + 1, p + 1,
                    out + [Line(b[start..p])] + (if over then [Warning] else []), false)
  {
    var init, st := State(b[..used], overlong), State(b[start..next], over);
    var line, extra := [Line(b[start..p])], if over then [Warning] else [];
    assert b[start..next] + b[next..p] == b[start..p];
    FeedNewline(st, b[next..p]);
    FeedConcat(init, b[used..next], b[next..p] + [NL]);
    CutThrough(b, used, next, p);
    assert out + (line + extra) == out + line + extra;
    assert b[p + 1..p + 1] == [];
  }

  lemma ScanRest(b: seq<byte>, used: nat, overlong: bool, start: nat, next: nat, end: nat, out: seq<Out>, over: bool)
    requires used <= next <= end <= |b| && next - start < 768 && end - start <= 768
    requires Scanned(b, used, overlong, start, next, out, over) && NoNewline(b[next..end])
    ensures NoNewline(b[start..end])
    ensures Lags(out, b[start..end], over, FeedAll(State(b[..used], overlong), b[used..end]))
  {
    var init, st := State(b[..used], overlong), State(b[start..next], over);
    assert b[start..next] + b[next..end] == b[start..end];
    FeedText(st, b[next..end]);
    FeedConcat(init, b[used..next], b[next..end]);
    assert b[used..end] == b[used..next] + b[next..end];
    assert out + [] == out;
  }

  /** One buffer load, from the newlines found in it to the memmove of the remainder. */
  method ScanBuffer(buf: array<byte>, used: nat, got: nat, overlong: bool) returns (out: seq<Out>, left: nat, over: bool)
    requires buf.Length == 768 && used < 768 && used + got <= 768 && NoNewline(buf[..used])
    modifies buf
    ensures left <= 768 && NoNewline(buf[..][..left])
    ensures Lags(out, buf[..][..left], over,
                 FeedAll(State(old(buf[..])[..used], overlong), old(buf[..])[used..used + got]))
  {
    ghost var b := buf[..];
    var end, start, next := used + got, 0, used;
    out, over := [], overlong;
    assert b[used..used] == [] && b[0..used] == b[..used] == buf[..used];
    var p := Find(buf, next, end);
    while p < end
      invariant buf[..] == b && used <= next <= p <= end && start <= next
      invariant start == 0 ==> next == used
      invariant Scanned(b, used, overlong, start, next, out, over)
      invariant NoNewline(b[next..p]) && (p < end ==> b[p] == NL)
      decreases end - p
    {
      ScanLine(b, used, overlong, start, next, p, out, over);
      assert buf[start..p] == b[start..p];
      out := out + [Line(buf[start..p])];
      assert out + [] == out;
      if over {
        out := out + [Warning];
        over := false;
      }
      start, next := p + 1, p + 1;
      p := Find(buf, next, end);
      assert buf[next..p] == b[next..p];
    }
    ScanRest(b, used, overlong, start, next, end, out, over);
    left := end - start;
    MoveDown(buf, start, left);
  }

  /** read() into the buffer behind the `used` bytes, then the scan. */
  method Load(buf: array<byte>, used: nat, data: seq<byte>, overlong: bool) returns (out: seq<Out>, left: nat, over: bool)
    requires buf.Length == 768 && used < 768 && used + |data| <= 768 && NoNewline(buf[..][..used])
    modifies buf
    ensures left <= 768 && NoNewline(buf[..][..left])
    ensures Lags(out, buf[..][..left], over, FeedAll(State(old(buf[..])[..used], overlong), data))
  {
    OverwrittenParts(buf[..], used, data);
    CopyInto(buf, used, data);
    assert buf[..used] == buf[..][..used];
    out, left, over := ScanBuffer(buf, used, |data|, overlong);
  }

  lemma LagsOn(init: State, before: seq<byte>, data: seq<byte>, out: seq<Out>, st: State,
               lines: seq<Out>, held: seq<byte>, over: bool)
    requires FeedAll(init, before) == (out, st) && Lags(lines, held, over, FeedAll(st, data))
    ensures Lags(out + lines, held, over, FeedAll(init, before + data))
  {
    FeedConcat(init, before, data);
    assert (out + lines) + [Line(held)] == out + (lines + [Line(held)]);
  }

  /**
   The read loop of main().  Whatever the plan of read() answers, the calls of
   flush() are the rendering of the stream; after a read error they are that of
   the part read so far, whose tail is then flushed even if it is empty.
   */
  method ReadLoop(stream: seq<byte>, plan: seq<Answer>) returns (out: seq<Out>, failed: bool, rest: seq<byte>)
    ensures !failed ==> out == Render(stream, Tail)
    ensures |rest| <= |stream| && stream[|stream| - |rest|..] == rest
    ensures failed ==> out == Render(stream[..|stream| - |rest|], Pieces)
  {
    var buf := new byte[768](_ => 0);
    var used: nat, overlong, k: nat, pos: nat := 0, false, 0, 0;
    out, rest := [], stream;
    ghost var init := State([], false);
    while true
      invariant pos <= |stream| && rest == stream[pos..] && k <= |plan| && used <= 768
      invariant NoNewline(buf[..][..used])
      invariant Lags(out, buf[..][..used], overlong, FeedAll(init, stream[..pos]))
      decreases |plan| - k, |rest|
    {
      if used == 768 {
        out := out + [Line(buf[..][..used])];
        overlong := true;
        used := 0;
        assert buf[..][..used] == [];
      }
      var answer := if k < |plan| then plan[k] else Upto(768);
      if k < |plan| {
        k := k + 1;
      }
      match answer {
        case Interrupted =>
        case Failed =>
          FeedRenders(stream[..pos]);
          out := out + [Line(buf[..][..used])];
          return out, true, rest;
        case Upto(n) =>
          var got := Min(if n == 0 then 1 else n, Min(768 - used, |rest|));
          if got == 0 {
            FeedRenders(stream);
            assert stream[..pos] == stream;
            if used > 0 {
              out := out + [Line(buf[..][..used])];
            }
            return out, false, rest;
          }
          var data := stream[pos..pos + got];
          ghost var st := State(buf[..][..used], overlong);
          var lines;
          lines, used, overlong := Load(buf, used, data, overlong);
          LagsOn(init, stream[..pos], data, out, st, lines, buf[..][..used], overlong);
          assert stream[..pos + got] == stream[..pos] + data;
          out := out + lines;
          pos := pos + got;
          rest := stream[pos..];
      }
    }
  }

  // ---- nothing is lost ---------------------------------------------------------------------------

  /** Reading the calls back: a piece shorter than 768 bytes ended a line. */
  function Reassemble(out: seq<Out>): seq<byte>
    decreases |out|
  {
    if out == [] then []
    else (match out[0]
          case Line(t) => t + (if |t| < 768 then [NL] else [])
          case Warning => []) + Reassemble(out[1..])
  }

  lemma {:induction false} ReassembleConcat(a: seq<Out>, b: seq<Out>)
    ensures Reassemble(a + b) == Reassemble(a) + Reassemble(b)
    decreases |a|
  {
    if a == [] {
      assert a + b == b;
    } else {
      assert (a + b)[1..] == a[1..] + b;
      ReassembleConcat(a[1..], b);
    }
  }

  lemma {:induction false} ReassemblePieces(line: seq<byte>)
    ensures Reassemble(Pieces(line)) == line + [NL]
    ensures Reassemble(Terminated(line)) == line + [NL]
    decreases |line|
  {
    if |line| < 768 {
      assert Pieces(line)[1..] == [];
    } else {
      ReassemblePieces(line[768..]);
      ReassembleConcat([Line(line[..768])], Pieces(line[768..]));
      assert [Line(line[..768])][1..] == [];
      assert line[..768] + (line[768..] + [NL]) == line + [NL];
    }
    ReassembleConcat(Pieces(line), if |line| >= 768 then [Warning] else []);
    assert [Warning][1..] == [];
  }

  /** `s` as it reads back when `last` is its last part. */
  function Closed(s: seq<byte>, last: seq<byte>): seq<byte> {
    if |last| % 768 == 0 then s else s + [NL]
  }

  lemma FullPiece(a: seq<byte>)
    requires |a| == 768
    ensures Reassemble([Line(a)]) == a
  {
    assert [Line(a)][1..] == [] && a + [] + [] == a;
  }

  lemma SameRemainder(n: nat)
    requires n >= 768
    ensures n % 768 == (n - 768) % 768
  {
  }

  lemma {:induction false} ReassembleTail(s: seq<byte>)
    ensures Reassemble(Tail(s)) == Closed(s, s)
    decreases |s|
  {
    if s == [] {
    } else if |s| < 768 {
      assert Tail(s)[1..] == [];
    } else {
      var a, b := s[..768], s[768..];
      ReassembleTail(b);
      ReassembleConcat([Line(a)], Tail(b));
      FullPiece(a);
      ClosedConcat(a, b, b);
      assert a + b == s;
      SameRemainder(|s|);
    }
  }

  /** The text after the last newline. */
  function LastPart(s: seq<byte>): seq<byte>
    decreases |s|
  {
    var i := FirstNewline(s);
    if i == |s| then s else LastPart(s[i + 1..])
  }

  /**
   The stream can be read back from the calls of flush(): no byte is lost,
   repeated or moved.  Only a tail that does not fill whole buffers reads as if it
   had ended in a newline.
   */
  lemma {:induction false} NothingLost(s: seq<byte>)
    ensures Reassemble(Render(s, Tail)) == Closed(s, LastPart(s))
    decreases |s|
  {
    var i := FirstNewline(s);
    if i == |s| {
      ReassembleTail(s);
    } else {
      var line, rest := s[..i], s[i + 1..];
      NothingLost(rest);
      FirstLineKept(line, Render(rest, Tail));
      SplitAtNewline(s);
      ClosedConcat(line + [NL], rest, LastPart(rest));
    }
  }

  // ---- the warnings ---------------------------------------------------------------------------

  ghost predicate FullLine(o: Out) {
    o.Line? && |o.text| == 768
  }

  ghost predicate ShortLine(o: Out) {
    o.Line? && |o.text| < 768
  }

  /** The end of a line that was cut. */
  ghost predicate EndsCut(out: seq<Out>, i: nat)
    requires i <= |out|
  {
    i >= 2 && ShortLine(out[i - 1]) && FullLine(out[i - 2])
  }

  /** Warnings stand behind the ends of cut lines and nowhere else. */
  ghost predicate Warned(out: seq<Out>) {
    forall i :: 0 <= i < |out| ==> (out[i] == Warning <==> EndsCut(out, i))
  }

  /** Every piece fits the buffer and lies within a line. */
  ghost predicate Fit(out: seq<Out>) {
    forall i :: 0 <= i < |out| && out[i].Line? ==> |out[i].text| <= 768 && NoNewline(out[i].text)
  }

  lemma {:induction false} PiecesShape(line: seq<byte>)
    requires NoNewline(line)
    ensures var p := Pieces(line);
            && |p| >= 1 && Fit(p) && ShortLine(p[|p| - 1]) && (|line| >= 768 <==> |p| >= 2)
            && forall i :: 0 <= i < |p| - 1 ==> FullLine(p[i])
    decreases |line|
  {
    if |line| >= 768 {
      var q, p := Pieces(line[768..]), Pieces(line);
      PiecesShape(line[768..]);
      assert p == [Line(line[..768])] + q;
      forall i | 0 <= i < |p| - 1 ensures FullLine(p[i]) { if i > 0 { assert p[i] == q[i - 1]; } }
    }
  }

  lemma {:induction false} TailShape(s: seq<byte>)
    requires NoNewline(s)
    ensures var p := Tail(s); Fit(p) && Warned(p) && forall i :: 0 <= i < |p| ==> p[i].Line? && (i < |p| - 1 ==> FullLine(p[i]))
    decreases |s|
  {
    if |s| >= 768 { TailShape(s[768..]); }
    var p := Tail(s);
    forall i | 0 <= i < |p| ensures p[i] == Warning <==> EndsCut(p, i) { if i > 0 { assert s != [] && p[i - 1].Line?; } }
  }

  lemma TerminatedShape(line: seq<byte>)
    requires NoNewline(line)
    ensures var t := Terminated(line);
            && t != [] && Fit(t) && Warned(t) && t[0].Line? && !FullLine(t[|t| - 1]) && !EndsCut(t, |t|)
  {
    PiecesShape(line);
  }

  lemma WarnedConcat(a: seq<Out>, b: seq<Out>)
    requires a != [] && Warned(a) && Warned(b) && !FullLine(a[|a| - 1]) && !EndsCut(a, |a|)
    requires b != [] ==> b[0].Line?
    ensures Warned(a + b)
  {
    var out := a + b;
    forall i | 0 <= i < |out| ensures out[i] == Warning <==> EndsCut(out, i) {
      if i < |a| {
        assert EndsCut(out, i) <==> EndsCut(a, i);
      } else if i == |a| {
        assert EndsCut(out, i) <==> EndsCut(a, i);
      } else if i == |a| + 1 {
        assert out[i - 2] == a[|a| - 1];
        assert !EndsCut(b, 1);
      } else {
        assert EndsCut(out, i) <==> EndsCut(b, i - |a|);
      }
    }
  }

  /** For every stream: pieces of at most 768 bytes, and one warning behind each line that was cut, once it has ended. */
  lemma {:induction false} WarningsAreExact(s: seq<byte>)
    ensures Fit(Render(s, Tail)) && Warned(Render(s, Tail)) && (Render(s, Tail) != [] ==> Render(s, Tail)[0].Line?)
    decreases |s|
  {
    var i := FirstNewline(s);
    if i == |s| {
      assert s[..i] == s;
      TailShape(s);
    } else {
      WarningsAreExact(s[i + 1..]);
      TerminatedShape(s[..i]);
      WarnedConcat(Terminated(s[..i]), Render(s[i + 1..], Tail));
    }
  }

  lemma SplitAtNewline(s: seq<byte>)
    requires FirstNewline(s) < |s|
    ensures s == (s[..FirstNewline(s)] + [NL]) + s[FirstNewline(s) + 1..]
  {
    CutOut(s, FirstNewline(s));
  }

  lemma CutOut(s: seq<byte>, i: nat)
    requires i < |s|
    ensures s == (s[..i] + [s[i]]) + s[i + 1..]
  {
  }

  lemma FirstLineKept(line: seq<byte>, out: seq<Out>)
    ensures Reassemble(Terminated(line) + out) == (line + [NL]) + Reassemble(out)
  {
    ReassemblePieces(line);
    ReassembleConcat(Terminated(line), out);
  }

  lemma ClosedConcat(a: seq<byte>, b: seq<byte>, last: seq<byte>)
    ensures Closed(a + b, last) == a + Closed(b, last)
  {
    assert (a + b) + [NL] == a + (b + [NL]);
  }
}
