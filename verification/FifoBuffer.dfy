/**
 base/stream.cc: FifoBuffer, a byte queue kept in a ring.  The class works on the
 array and its two positions; `Queue` is what a user sees: the readable bytes,
 and behind them the spare room, whose bytes can be filled in ahead of time by
 WriteOffset and made readable by ConsumeWriteBuffer.
 */
module FifoBuffer {
  import opened Bytes

  datatype Queue = Queue(contents: seq<byte>, spare: seq<byte>) {
    function Capacity(): nat {
      |contents| + |spare|
    }
  }

  // ---- the abstract operations -----------------------------------------------------

  /** The first `n` bytes leave; their room becomes the far end of the spare room. */
  function Drop(q: Queue, n: nat): Queue
    requires n <= |q.contents|
  {
    Queue(q.contents[n..], q.spare + q.contents[..n])
  }

  /** `s` is placed in the spare room, `offset` bytes behind the contents. */
  function Fill(q: Queue, s: seq<byte>, offset: nat): Queue
    requires offset + |s| <= |q.spare|
  {
    Queue(q.contents, Overwritten(q.spare, offset, s))
  }

  /** The first `n` spare bytes become readable. */
  function Commit(q: Queue, n: nat): Queue
    requires n <= |q.spare|
  {
    Queue(q.contents + q.spare[..n], q.spare[n..])
  }

  /** Filling at offset 0 and committing is an append. */
  lemma FillThenCommit(q: Queue, s: seq<byte>)
    requires |s| <= |q.spare|
    ensures Commit(Fill(q, s, 0), |s|) == Queue(q.contents + s, q.spare[|s|..])
  {
    var f := Fill(q, s, 0);
    assert f.spare[..|s|] == s;
    assert f.spare[|s|..] == q.spare[|s|..];
  }

  /** Pieces may be filled in any order before they are committed together. */
  lemma FillOutOfOrder(q: Queue, a: seq<byte>, b: seq<byte>)
    requires |a| + |b| <= |q.spare|
    ensures Fill(Fill(q, b, |a|), a, 0) == Fill(Fill(q, a, 0), b, |a|) == Fill(q, a + b, 0)
  {
    assert Fill(Fill(q, b, |a|), a, 0).spare == Fill(q, a + b, 0).spare;
    assert Fill(Fill(q, a, 0), b, |a|).spare == Fill(q, a + b, 0).spare;
  }

  // ---- runs: first in, first out ---------------------------------------------------------

  datatype Op =
    | DropOp(n: nat)                       // Read, ConsumeReadData
    | FillOp(s: seq<byte>, offset: nat)    // WriteOffset
    | CommitOp(n: nat)                     // ConsumeWriteBuffer
    | ResizeOp(spare: seq<byte>)           // SetCapacity: new spare room, contents kept

  ghost predicate Allowed(q: Queue, op: Op) {
    match op
    case DropOp(n) => n <= |q.contents|
    case FillOp(s, offset) => offset + |s| <= |q.spare|
    case CommitOp(n) => n <= |q.spare|
    case ResizeOp(_) => true
  }

  function Do(q: Queue, op: Op): Queue
    requires Allowed(q, op)
  {
    match op
    case DropOp(n) => Drop(q, n)
    case FillOp(s, offset) => Fill(q, s, offset)
    case CommitOp(n) => Commit(q, n)
    case ResizeOp(spare) => q.(spare := spare)
  }

  ghost predicate IsRun(qs: seq<Queue>, ops: seq<Op>) {
    && |qs| == |ops| + 1
    && forall i :: 0 <= i < |ops| ==> Allowed(qs[i], ops[i]) && qs[i + 1] == Do(qs[i], ops[i])
  }

  function In(q: Queue, op: Op): seq<byte>
    requires op.CommitOp? ==> op.n <= |q.spare|
  {
    if op.CommitOp? then q.spare[..op.n] else []
  }

  function Out(q: Queue, op: Op): seq<byte>
    requires op.DropOp? ==> op.n <= |q.contents|
  {
    if op.DropOp? then q.contents[..op.n] else []
  }

  lemma OpConserves(q: Queue, op: Op)
    requires Allowed(q, op)
    ensures q.contents + In(q, op) == Out(q, op) + Do(q, op).contents
  {
    if op.DropOp? { assert q.contents == q.contents[..op.n] + q.contents[op.n..]; }
  }

  /** The bytes made readable, and the bytes taken out, in the first `i` steps of a run. */
  ghost function Committed(qs: seq<Queue>, ops: seq<Op>, i: nat): seq<byte>
    requires IsRun(qs, ops) && i <= |ops|
  {
    if i == 0 then []
    else
      assert Allowed(qs[i - 1], ops[i - 1]);
      Committed(qs, ops, i - 1) + In(qs[i - 1], ops[i - 1])
  }

  ghost function Dropped(qs: seq<Queue>, ops: seq<Op>, i: nat): seq<byte>
    requires IsRun(qs, ops) && i <= |ops|
  {
    if i == 0 then []
    else
      assert Allowed(qs[i - 1], ops[i - 1]);
      Dropped(qs, ops, i - 1) + Out(qs[i - 1], ops[i - 1])
  }

  /** Nothing is lost, duplicated or reordered: what came out, then what is inside, is what went in. */
  lemma {:induction false} FirstInFirstOut(qs: seq<Queue>, ops: seq<Op>, i: nat)
    requires IsRun(qs, ops) && i <= |ops|
    ensures qs[0].contents + Committed(qs, ops, i) == Dropped(qs, ops, i) + qs[i].contents
  {
    if i > 0 {
      FirstInFirstOut(qs, ops, i - 1);
      var q, op := qs[i - 1], ops[i - 1];
      assert Allowed(q, op) && qs[i - 1 + 1] == Do(q, op);
      OpConserves(q, op);
      Rebracket(qs[0].contents, Committed(qs, ops, i - 1), Dropped(qs, ops, i - 1), q.contents, In(q, op), Out(q, op), qs[i].contents);
    }
  }

  lemma Rebracket(start: seq<byte>, c: seq<byte>, d: seq<byte>, q: seq<byte>, into: seq<byte>, out: seq<byte>, q': seq<byte>)
    requires start + c == d + q && q + into == out + q'
    ensures start + (c + into) == (d + out) + q'
  {
    assert start + (c + into) == (start + c) + into == d + (q + into);
    assert (d + out) + q' == d + (out + q');
  }

  // ---- the ring -------------------------------------------------------------------------------

  /** (r + n) % size for the two operands the ring adds: at most one wrap. */
  function Wrap(r: nat, n: nat, size: nat): nat
    requires r < size && n <= size
  {
    if r + n < size then r + n else r + n - size
  }

  lemma WrapIsMod(r: nat, n: nat, size: nat)
    requires r < size && n <= size
    ensures (r + n) % size == Wrap(r, n, size)
  {
    var x := r + n;
    var q := x / size;
    assert x == size * q + x % size;
    if q <= -1 {
      MulMonotone(size, q, -1);
      assert false;
    } else if q >= 2 {
      MulMonotone(size, 2, q);
      assert false;
    }
  }

  /** The position `n` cells after `r`. */
  method Position(r: nat, n: nat, size: nat) returns (p: nat)
    requires r < size && n <= size
    ensures p == Wrap(r, n, size)
  {
    WrapIsMod(r, n, size);
    p := (r + n) % size;
  }

  lemma MulMonotone(size: nat, a: int, b: int)
    requires a <= b
    ensures size * a <= size * b
  {
  }

  /** A cell of the array, read from position `r` round the ring. */
  function Rotated(buffer: seq<byte>, r: nat): seq<byte>
    requires r <= |buffer|
  {
    buffer[r..] + buffer[..r]
  }

  lemma RotatedAt(buffer: seq<byte>, r: nat, i: nat)
    requires r < |buffer| && i < |buffer|
    ensures Rotated(buffer, r)[i] == buffer[Wrap(r, i, |buffer|)]
  {
  }

  /** Overwriting cells `at`, `at + 1`, ... of the ring is the two-part copy of the source. */
  lemma TwoPartCopy(buffer: seq<byte>, r: nat, at: nat, s: seq<byte>, tail: nat)
    requires r < |buffer| && at + |s| <= |buffer| && at < |buffer|
    requires tail == Min(|s|, |buffer| - Wrap(r, at, |buffer|))
    ensures var once := Overwritten(buffer, Wrap(r, at, |buffer|), s[..tail]);
            Rotated(Overwritten(once, 0, s[tail..]), r) == Overwritten(Rotated(buffer, r), at, s)
  {
    var once := Overwritten(buffer, Wrap(r, at, |buffer|), s[..tail]);
    var twice := Overwritten(once, 0, s[tail..]);
    var lhs, rhs := Rotated(twice, r), Overwritten(Rotated(buffer, r), at, s);
    forall i | 0 <= i < |buffer| ensures lhs[i] == rhs[i] {
      RotatedAt(twice, r, i);
      RotatedAt(buffer, r, i);
    }
  }

  /** Overwriting cells that do not cross the end of the array. */
  lemma OnePartCopy(buffer: seq<byte>, r: nat, at: nat, s: seq<byte>)
    requires r < |buffer| && at + |s| <= |buffer| && at < |buffer| && Wrap(r, at, |buffer|) + |s| <= |buffer|
    ensures Rotated(Overwritten(buffer, Wrap(r, at, |buffer|), s), r) == Overwritten(Rotated(buffer, r), at, s)
  {
    var once := Overwritten(buffer, Wrap(r, at, |buffer|), s);
    var lhs, rhs := Rotated(once, r), Overwritten(Rotated(buffer, r), at, s);
    forall i | 0 <= i < |buffer| ensures lhs[i] == rhs[i] {
      RotatedAt(once, r, i);
      RotatedAt(buffer, r, i);
    }
  }

  /** Reading cells `at`, `at + 1`, ... of the ring is the two-part copy of the source. */
  lemma TwoPartRead(buffer: seq<byte>, r: nat, at: nat, n: nat, tail: nat)
    requires r < |buffer| && at < |buffer| && at + n <= |buffer|
    requires tail == Min(n, |buffer| - Wrap(r, at, |buffer|))
    ensures var pos := Wrap(r, at, |buffer|);
            buffer[pos..pos + tail] + buffer[..n - tail] == Rotated(buffer, r)[at..at + n]
  {
    var pos := Wrap(r, at, |buffer|);
    var lhs, rhs := buffer[pos..pos + tail] + buffer[..n - tail], Rotated(buffer, r)[at..at + n];
    forall i | 0 <= i < n ensures lhs[i] == rhs[i] {
      RotatedAt(buffer, r, at + i);
      assert rhs[i] == Rotated(buffer, r)[at + i];
    }
  }

  lemma TwoWrites(z: seq<byte>, a: seq<byte>, b: seq<byte>)
    requires |a| + |b| <= |z|
    ensures Overwritten(Overwritten(z, 0, a), |a|, b)[..|a| + |b|] == a + b
  {
  }

  lemma SliceOfPrefix(s: seq<byte>, d: nat, lo: nat, hi: nat)
    requires lo <= hi <= d <= |s|
    ensures s[..d][lo..hi] == s[lo..hi]
  {
  }

  /** Two pieces stored one behind the other. */
  method CopyBoth(a: array<byte>, head: seq<byte>, rest: seq<byte>)
    requires |head| + |rest| <= a.Length
    modifies a
    ensures a[..][..|head| + |rest|] == head + rest
  {
    TwoWrites(a[..], head, rest);
    CopyInto(a, 0, head);
    CopyInto(a, |head|, rest);
  }

  class FifoBuffer {
    var closed: bool
    var buffer: array<byte>
    var dataLength: nat
    var readPosition: nat

    ghost predicate Valid()
      reads this
    {
      && dataLength <= buffer.Length
      && readPosition <= buffer.Length
      && (buffer.Length > 0 ==> readPosition < buffer.Length)
    }

    ghost function Ring(): seq<byte>
      requires Valid()
      reads this, buffer
    {
      Rotated(buffer[..], readPosition)
    }

    /** What a user sees. */
    ghost function State(): Queue
      requires Valid()
      reads this, buffer
    {
      Queue(Ring()[..dataLength], Ring()[dataLength..])
    }

    constructor (size: nat)
      ensures Valid() && fresh(buffer) && !closed
      ensures State().contents == [] && State().Capacity() == size
    {
      closed := false;
      buffer := new byte[size](_ => 0);
      dataLength := 0;
      readPosition := 0;
    }

    method SetCapacity(size: nat) returns (ok: bool)
      requires Valid()
      modifies this`buffer, this`readPosition
      ensures Valid() && closed == old(closed)
      ensures ok <==> |old(State().contents)| <= size
      ensures State().contents == old(State().contents)
      ensures ok ==> State().Capacity() == size
      ensures !ok ==> State() == old(State())
      ensures buffer == old(buffer) || fresh(buffer)
    {
      if dataLength > size {
        return false;
      }
      if size != buffer.Length {
        var resized := Linearised(size);
        ghost var contents := State().contents;
        buffer := resized;
        readPosition := 0;
        assert Ring() == resized[..];
        assert State().contents == contents;
      }
      return true;
    }

    /** A new array with the contents at its start. */
    method Linearised(size: nat) returns (resized: array<byte>)
      requires Valid() && dataLength <= size
      ensures fresh(resized) && resized.Length == size
      ensures resized[..][..dataLength] == State().contents
    {
      resized := new byte[size](_ => 0);
      if dataLength > 0 {
        var tail := Min(dataLength, buffer.Length - readPosition);
        TwoPartRead(buffer[..], readPosition, 0, dataLength, tail);
        CopyBoth(resized, buffer[..][readPosition..readPosition + tail], buffer[..][..dataLength - tail]);
      }
    }

    /** ReadOffset: copies out, changes nothing. */
    method ReadOffset(bytes: nat, offset: nat) returns (result: StreamResult, data: seq<byte>)
      requires Valid()
      ensures offset >= |State().contents| ==> data == [] && result == if closed then Eos else Block
      ensures offset < |State().contents| ==>
        result == Success && data == State().contents[offset..offset + Min(bytes, |State().contents| - offset)]
    {
      if offset >= dataLength {
        return if closed then Eos else Block, [];
      }
      var available := dataLength - offset;
      var pos := Position(readPosition, offset, buffer.Length);
      var copy := Min(bytes, available);
      var tail := Min(copy, buffer.Length - pos);
      var b := buffer[..];
      data := b[pos..pos + tail] + b[..copy - tail];
      TwoPartRead(b, readPosition, offset, copy, tail);
      SliceOfPrefix(Ring(), dataLength, offset, offset + copy);
      result := Success;
    }

    /** WriteOffset: fills spare room, moves nothing. */
    method WriteOffset(s: seq<byte>, offset: nat) returns (result: StreamResult, n: nat)
      requires Valid()
      modifies buffer
      ensures Valid()
      ensures closed ==> result == Eos
      ensures !closed && offset >= |old(State().spare)| ==> result == Block
      ensures result != Success ==> n == 0 && State() == old(State())
      ensures !closed && offset < |old(State().spare)| ==>
        && result == Success && n == Min(|s|, |old(State().spare)| - offset)
        && State() == Fill(old(State()), s[..n], offset)
    {
      if closed {
        return Eos, 0;
      }
      if dataLength + offset >= buffer.Length {
        return Block, 0;
      }
      var available := buffer.Length - dataLength - offset;
      n := Min(|s|, available);
      Overwrite(dataLength + offset, s[..n]);
      FillsRing(old(Ring()), dataLength, s[..n], offset);
      result := Success;
    }

    /** The two memcpy calls: `s` is stored round the ring from cell `at` on. */
    method Overwrite(at: nat, s: seq<byte>)
      requires Valid() && at < buffer.Length && at + |s| <= buffer.Length
      modifies buffer
      ensures Ring() == Overwritten(old(Ring()), at, s)
    {
      var pos := Position(readPosition, at, buffer.Length);
      var tail := Min(|s|, buffer.Length - pos);
      TwoPartCopy(buffer[..], readPosition, at, s, tail);
      CopyInto(buffer, pos, s[..tail]);
      CopyInto(buffer, 0, s[tail..]);
    }

    /** Read, and whether SE_WRITE is posted. */
    method Read(bytes: nat) returns (result: StreamResult, data: seq<byte>, posted: bool)
      requires Valid()
      modifies this`readPosition, this`dataLength
      ensures Valid()
      ensures old(State().contents) == [] ==>
        data == [] && !posted && State() == old(State()) && result == if closed then Eos else Block
      ensures old(State().contents) != [] ==>
        && result == Success && data == old(State().contents)[..Min(bytes, |old(State().contents)|)]
        && State() == Drop(old(State()), |data|)
        && (posted <==> old(State().spare) == [] && data != [])
    {
      var wasWritable := dataLength < buffer.Length;
      posted := false;
      result, data := ReadOffset(bytes, 0);
      if result == Success {
        Advance(|data|);
        posted := !wasWritable && |data| > 0;
      }
    }

    /** Write, and whether SE_READ is posted. */
    method Write(s: seq<byte>) returns (result: StreamResult, n: nat, posted: bool)
      requires Valid()
      modifies buffer, this`dataLength
      ensures Valid()
      ensures closed ==> result == Eos
      ensures !closed && old(State().spare) == [] ==> result == Block
      ensures result != Success ==> n == 0 && !posted && State() == old(State())
      ensures !closed && old(State().spare) != [] ==>
        && result == Success && n == Min(|s|, |old(State().spare)|)
        && State() == Queue(old(State().contents) + s[..n], old(State().spare)[n..])
        && (posted <==> old(State().contents) == [] && n > 0)
    {
      var wasReadable := dataLength > 0;
      posted := false;
      result, n := WriteOffset(s, 0);
      if result == Success {
        FillThenCommit(old(State()), s[..n]);
        assert State() == Fill(old(State()), s[..n], 0);
        CommitsRing(Ring(), dataLength, n);
        dataLength := dataLength + n;
        posted := !wasReadable && n > 0;
      }
    }

    method Close()
      requires Valid()
      modifies this`closed
      ensures Valid() && closed && State() == old(State())
    {
      closed := true;
    }

    /** The longest readable prefix that is contiguous in memory. */
    method GetReadData() returns (pos: nat, size: nat)
      requires Valid()
      ensures pos + size <= buffer.Length && size <= |State().contents|
      ensures buffer[pos..pos + size] == State().contents[..size]
      ensures size == 0 ==> State().contents == []
    {
      size := if readPosition + dataLength <= buffer.Length then dataLength else buffer.Length - readPosition;
      pos := readPosition;
    }

    method ConsumeReadData(size: nat) returns (posted: bool)
      requires Valid() && size <= |State().contents| && State().Capacity() > 0
      modifies this`readPosition, this`dataLength
      ensures Valid() && State() == Drop(old(State()), size)
      ensures posted <==> old(State().spare) == [] && size > 0
    {
      var wasWritable := dataLength < buffer.Length;
      Advance(size);
      posted := !wasWritable && size > 0;
    }

    /**
     Contiguous spare room right behind the contents; none if closed.  A full buffer is not
     told apart: the answer is then the readable bytes up to the end of the array.
     */
    method GetWriteBuffer() returns (open: bool, pos: nat, size: nat)
      requires Valid() && State().Capacity() > 0
      modifies this`readPosition
      ensures Valid() && open == !closed
      ensures State().contents == old(State().contents) && State().Capacity() == old(State().Capacity())
      ensures open && State().spare == [] ==>
        pos + size == buffer.Length && 0 < size && buffer[pos..pos + size] == State().contents[..size]
      ensures open && State().spare != [] ==>
        && 0 < size <= |State().spare| && pos + size <= buffer.Length
        && pos == Wrap(readPosition, dataLength, buffer.Length)
        && buffer[pos..pos + size] == State().spare[..size]
    {
      if closed {
        return false, 0, 0;
      }
      if dataLength == 0 {
        readPosition := 0;
      }
      pos := Position(readPosition, dataLength, buffer.Length);
      size := if pos >= readPosition then buffer.Length - pos else readPosition - pos;
      open := true;
      if dataLength == buffer.Length {
        FullSlice(buffer[..], readPosition);
      } else {
        SpareSlice(buffer[..], readPosition, dataLength, pos, size);
      }
    }

    method ConsumeWriteBuffer(size: nat) returns (posted: bool)
      requires Valid() && size <= |State().spare|
      modifies this`dataLength
      ensures Valid() && State() == Commit(old(State()), size)
      ensures posted <==> old(State().contents) == [] && size > 0
    {
      var wasReadable := dataLength > 0;
      CommitsRing(Ring(), dataLength, size);
      dataLength := dataLength + size;
      posted := !wasReadable && size > 0;
    }

    /** Moves the read position over `n` bytes. */
    method Advance(n: nat)
      requires Valid() && n <= dataLength && buffer.Length > 0
      modifies this`readPosition, this`dataLength
      ensures Valid() && State() == Drop(old(State()), n)
    {
      AdvanceDrops(buffer[..], readPosition, dataLength, n);
      readPosition := Position(readPosition, n, buffer.Length);
      dataLength := dataLength - n;
    }

    /** What a client of GetWriteBuffer does with the room: a plain copy. */
    method StoreBehind(pos: nat, s: seq<byte>)
      requires Valid() && |s| <= |State().spare| && State().spare != [] && pos + |s| <= buffer.Length
      requires buffer.Length > 0 && pos == Wrap(readPosition, dataLength, buffer.Length)
      modifies buffer
      ensures Valid() && State() == Fill(old(State()), s, 0)
    {
      ghost var was := buffer[..];
      OnePartCopy(was, readPosition, dataLength, s);
      CopyInto(buffer, pos, s);
      FillsRing(Rotated(was, readPosition), dataLength, s, 0);
    }

    /** A client of the zero-copy interface: bytes stored in the room it was given are appended. */
    method ZeroCopyAppend(s: seq<byte>) returns (n: nat)
      requires Valid() && State().spare != [] && !closed
      modifies this, buffer
      ensures Valid() && buffer == old(buffer)
      ensures n <= |s| && (s != [] ==> n > 0)
      ensures State().contents == old(State().contents) + s[..n]
    {
      var open, pos, size := GetWriteBuffer();
      n := Min(|s|, size);
      FillThenCommit(State(), s[..n]);
      StoreBehind(pos, s[..n]);
      var posted := ConsumeWriteBuffer(n);
    }
  }

  /** The end of the array, from the read position on, is the front of the ring. */
  lemma FullSlice(buffer: seq<byte>, r: nat)
    requires r < |buffer|
    ensures buffer[r..|buffer|] == Rotated(buffer, r)[..|buffer| - r]
  {
  }

  /** The cells behind the contents, up to the end of the array or the read position. */
  lemma SpareSlice(buffer: seq<byte>, r: nat, d: nat, pos: nat, size: nat)
    requires r < |buffer| && d < |buffer| && pos == Wrap(r, d, |buffer|)
    requires size == if pos >= r then |buffer| - pos else r - pos
    ensures 0 < size <= |buffer| - d && pos + size <= |buffer|
    ensures buffer[pos..pos + size] == Rotated(buffer, r)[d..][..size]
  {
  }

  lemma AdvanceRing(buffer: seq<byte>, r: nat, n: nat)
    requires r < |buffer| && n <= |buffer|
    ensures Rotated(buffer, Wrap(r, n, |buffer|)) == Rotated(buffer, r)[n..] + Rotated(buffer, r)[..n]
  {
  }

  lemma DropsRing(ring: seq<byte>, d: nat, n: nat)
    requires n <= d <= |ring|
    ensures var ring' := ring[n..] + ring[..n];
            Queue(ring'[..d - n], ring'[d - n..]) == Drop(Queue(ring[..d], ring[d..]), n)
  {
    var ring' := ring[n..] + ring[..n];
    var q := Drop(Queue(ring[..d], ring[d..]), n);
    assert ring'[..d - n] == q.contents;
    assert ring'[d - n..] == q.spare;
  }

  lemma AdvanceDrops(buffer: seq<byte>, r: nat, d: nat, n: nat)
    requires r < |buffer| && n <= d <= |buffer|
    ensures var ring, ring' := Rotated(buffer, r), Rotated(buffer, Wrap(r, n, |buffer|));
            Queue(ring'[..d - n], ring'[d - n..]) == Drop(Queue(ring[..d], ring[d..]), n)
  {
    AdvanceRing(buffer, r, n);
    DropsRing(Rotated(buffer, r), d, n);
  }

  lemma FillsRing(ring: seq<byte>, d: nat, s: seq<byte>, offset: nat)
    requires d + offset + |s| <= |ring|
    ensures var ring' := Overwritten(ring, d + offset, s);
            Queue(ring'[..d], ring'[d..]) == Fill(Queue(ring[..d], ring[d..]), s, offset)
  {
    var ring' := Overwritten(ring, d + offset, s);
    var q := Fill(Queue(ring[..d], ring[d..]), s, offset);
    assert ring'[..d] == q.contents;
    assert ring'[d..] == q.spare;
  }

  lemma CommitsRing(ring: seq<byte>, d: nat, n: nat)
    requires d + n <= |ring|
    ensures Queue(ring[..d + n], ring[d + n..]) == Commit(Queue(ring[..d], ring[d..]), n)
  {
    var q := Commit(Queue(ring[..d], ring[d..]), n);
    assert ring[..d + n] == q.contents;
    assert ring[d + n..] == q.spare;
  }
}
