/**
 base/stream.cc: Flow, the resumable copy between two streams, with WriteAll and
 ReadAll.  The streams themselves are foreign: a source holds the bytes it will
 deliver and a plan of how it answers successive Read calls, a sink a plan of how
 it answers successive Write calls.  Claims quantify over all plans.
 */
module Flow {
  import opened Bytes

  /** How a stream answers one call: up to `n` bytes, or a refusal. */
  datatype Answer = Upto(n: nat) | Refuse(result: Refusal)

  type Refusal = r: StreamResult | r != Success witness Block

  class Source {
    var rest: seq<byte>          // bytes not yet delivered
    var plan: seq<Answer>        // when the plan runs out the source blocks
    ghost var taken: seq<byte>   // bytes delivered so far
    ghost var calls: nat         // Read calls so far
    ghost var last: StreamResult // how the last of them was answered

    constructor (bytes: seq<byte>, plan: seq<Answer>)
      ensures rest == bytes && this.plan == plan && taken == []
    {
      rest, this.plan := bytes, plan;
      taken, calls, last := [], 0, Success;
    }

    method Read(max: nat) returns (result: StreamResult, data: seq<byte>)
      modifies this
      ensures calls == old(calls) + 1 && last == result
      ensures taken == old(taken) + data && data + rest == old(rest) && |data| <= max
      ensures result != Success ==> data == []
      ensures old(plan) == [] ==> result == Block && plan == []
      ensures old(plan) != [] ==> plan == old(plan)[1..]
      ensures old(plan) != [] && old(plan)[0].Refuse? ==> result == old(plan)[0].result
      ensures old(plan) != [] && old(plan)[0].Upto? ==> result == Success && |data| == Min(old(plan)[0].n, Min(max, |old(rest)|))
    {
      calls := calls + 1;
      if plan == [] {
        assert [] + rest == rest;
        last := Block;
        return Block, [];
      }
      var answer := plan[0];
      plan := plan[1..];
      if answer.Refuse? {
        assert [] + rest == rest;
        last := answer.result;
        return answer.result, [];
      }
      var n := Min(answer.n, Min(max, |rest|));
      result, data := Success, rest[..n];
      rest := rest[n..];
      taken, last := taken + data, Success;
    }
  }

  class Sink {
    var received: seq<byte>
    var plan: seq<Answer>
    ghost var calls: nat
    ghost var last: StreamResult

    constructor (plan: seq<Answer>)
      ensures received == [] && this.plan == plan
    {
      received, this.plan := [], plan;
      calls, last := 0, Success;
    }

    method Write(s: seq<byte>) returns (result: StreamResult, n: nat)
      modifies this
      ensures calls == old(calls) + 1 && last == result
      ensures n <= |s| && received == old(received) + s[..n]
      ensures result != Success ==> n == 0
      ensures old(plan) == [] ==> result == Block && plan == []
      ensures old(plan) != [] ==> plan == old(plan)[1..]
      ensures old(plan) != [] && old(plan)[0].Refuse? ==> result == old(plan)[0].result
      ensures old(plan) != [] && old(plan)[0].Upto? ==> result == Success && n == Min(old(plan)[0].n, |s|)
    {
      calls := calls + 1;
      if plan == [] {
        last := Block;
        return Block, 0;
      }
      var answer := plan[0];
      plan := plan[1..];
      if answer.Refuse? {
        last := answer.result;
        return answer.result, 0;
      }
      n := Min(answer.n, |s|);
      received := received + s[..n];
      result, last := Success, Success;
    }
  }

  // ---- streams that let a copy through --------------------------------------------------------

  /** A sink that takes something at each of the next calls. */
  ghost predicate Takes(plan: seq<Answer>) {
    forall i :: 0 <= i < |plan| ==> plan[i].Upto? && plan[i].n > 0
  }

  /** A source that gives something at each call, for at least `n` calls, and then ends. */
  ghost predicate Gives(plan: seq<Answer>, n: nat)
    decreases |plan|
  {
    plan != [] &&
    if plan[0].Upto? then plan[0].n > 0 && Gives(plan[1..], if n > 0 then n - 1 else 0)
    else plan[0].result == Eos && n == 0
  }

  lemma {:induction false} GivesFewer(plan: seq<Answer>, n: nat, k: nat)
    requires Gives(plan, n) && k <= n
    ensures Gives(plan, k)
    decreases |plan|
  {
    if plan[0].Upto? { GivesFewer(plan[1..], if n > 0 then n - 1 else 0, if k > 0 then k - 1 else 0); }
  }

  /** One Read of such a source. */
  lemma GivesOn(plan: seq<Answer>, n: nat, k: nat)
    requires Gives(plan, n) && plan[0].Upto? && k <= n && (n > 0 ==> k < n)
    ensures Gives(plan[1..], k)
  {
    GivesFewer(plan[1..], if n > 0 then n - 1 else 0, k);
  }

  /**
   WriteAll: what was accepted is a prefix; it stops only when all is written or the sink
   refuses, with the sink's own answer, and a sink that keeps taking gets all.
   */
  method WriteAll(sink: Sink, data: seq<byte>) returns (result: StreamResult, written: nat)
    modifies sink
    ensures written <= |data| && sink.received == old(sink.received) + data[..written]
    ensures result == Success <==> written == |data|
    ensures result != Success ==> sink.calls > old(sink.calls) && sink.last == result
    ensures Takes(old(sink.plan)) && |old(sink.plan)| >= |data| ==> result == Success
  {
    result, written := Success, 0;
    while written < |data|
      invariant written <= |data| && sink.received == old(sink.received) + data[..written]
      invariant result == Success && sink.calls >= old(sink.calls)
      invariant Takes(old(sink.plan)) ==> Takes(sink.plan) && |sink.plan| + written >= |old(sink.plan)|
      decreases |sink.plan|, |data| - written
    {
      var n;
      result, n := sink.Write(data[written..]);
      if result != Success {
        break;
      }
      assert data[..written] + data[written..][..n] == data[..written + n];
      written := written + n;
    }
  }

  /** ReadAll into `buffer`: what was read is exactly what the source gave up; the same about its refusals. */
  method ReadAll(source: Source, buffer: array<byte>) returns (result: StreamResult, read: nat)
    modifies source, buffer
    ensures read <= buffer.Length && source.taken == old(source.taken) + buffer[..read]
    ensures result == Success <==> read == buffer.Length
    ensures result != Success ==> source.calls > old(source.calls) && source.last == result
    ensures Takes(old(source.plan)) && |old(source.plan)| >= buffer.Length && |old(source.rest)| >= buffer.Length ==> result == Success
  {
    result, read := Success, 0;
    while read < buffer.Length
      invariant read <= buffer.Length && source.taken == old(source.taken) + buffer[..read]
      invariant result == Success && source.calls >= old(source.calls) && |source.rest| + read == |old(source.rest)|
      invariant Takes(old(source.plan)) && |old(source.rest)| >= buffer.Length ==>
        Takes(source.plan) && |source.plan| + read >= |old(source.plan)|
      decreases |source.plan|, buffer.Length - read
    {
      var data;
      result, data := source.Read(buffer.Length - read);
      if result != Success {
        break;
      }
      Store(buffer, read, data);
      read := read + |data|;
    }
  }

  /** memcpy of a stream's answer into the buffer. */
  method Store(buffer: array<byte>, pos: nat, data: seq<byte>)
    requires pos + |data| <= buffer.Length
    modifies buffer
    ensures buffer[..pos + |data|] == old(buffer[..pos]) + data
  {
    forall i | 0 <= i < |data| {
      buffer[pos + i] := data[i];
    }
  }

  /** Fills the buffer until it is full, the source ends, or the source refuses. */
  method Fill(source: Source, buffer: array<byte>, start: nat)
      returns (result: StreamResult, readPos: nat, ghost got: seq<byte>)
    requires start <= buffer.Length
    modifies source, buffer
    ensures start <= readPos <= buffer.Length && source.calls >= old(source.calls)
    ensures source.taken == old(source.taken) + got && got + source.rest == old(source.rest)
    ensures buffer[..readPos] == old(buffer[..start]) + got
    ensures result == Success <==> readPos == buffer.Length
    ensures result != Success ==> source.calls > old(source.calls) && source.last == result
    ensures |source.plan| <= |old(source.plan)|
    ensures start < buffer.Length && result != Block ==> |source.plan| < |old(source.plan)|
    ensures Gives(old(source.plan), |old(source.rest)|) ==>
      if result == Success then Gives(source.plan, |source.rest|) else result == Eos && source.rest == []
  {
    result, readPos, got := Success, start, [];
    while readPos < buffer.Length
      invariant start <= readPos <= buffer.Length && result == Success && source.calls >= old(source.calls)
      invariant source.taken == old(source.taken) + got && got + source.rest == old(source.rest)
      invariant buffer[..readPos] == old(buffer[..start]) + got
      invariant |source.plan| <= |old(source.plan)|
      invariant readPos > start ==> |source.plan| < |old(source.plan)|
      invariant Gives(old(source.plan), |old(source.rest)|) ==> Gives(source.plan, |source.rest|)
      decreases |source.plan|, buffer.Length - readPos
    {
      ghost var rest, plan := source.rest, source.plan;
      var data;
      result, data := source.Read(buffer.Length - readPos);
      assert got + rest == (got + data) + source.rest;
      if result != Success {
        assert got + data == got;
        return;
      }
      if Gives(plan, |rest|) { GivesOn(plan, |rest|, |source.rest|); }
      Store(buffer, readPos, data);
      readPos, got := readPos + |data|, got + data;
    }
  }

  /** Empties the buffer until it is empty or the sink refuses. */
  method Drain(sink: Sink, buffer: array<byte>, readPos: nat) returns (result: StreamResult, writePos: nat)
    requires readPos <= buffer.Length
    modifies sink
    ensures writePos <= readPos && sink.calls >= old(sink.calls)
    ensures sink.received == old(sink.received) + buffer[..writePos]
    ensures result == Success <==> writePos == readPos
    ensures result != Success ==> sink.calls > old(sink.calls) && sink.last == result
    ensures |sink.plan| <= |old(sink.plan)|
    ensures result == Success && readPos > 0 ==> |sink.plan| < |old(sink.plan)|
    ensures Takes(old(sink.plan)) && |old(sink.plan)| >= readPos ==>
      result == Success && Takes(sink.plan) && |sink.plan| >= |old(sink.plan)| - readPos
  {
    result, writePos := Success, 0;
    while writePos < readPos
      invariant writePos <= readPos && result == Success && sink.calls >= old(sink.calls)
      invariant sink.received == old(sink.received) + buffer[..writePos]
      invariant |sink.plan| <= |old(sink.plan)|
      invariant writePos > 0 ==> |sink.plan| < |old(sink.plan)|
      invariant Takes(old(sink.plan)) ==> Takes(sink.plan) && |sink.plan| + writePos >= |old(sink.plan)|
      decreases |sink.plan|, readPos - writePos
    {
      var n;
      result, n := sink.Write(buffer[writePos..readPos]);
      if result != Success {
        return;
      }
      assert buffer[..writePos] + buffer[writePos..readPos][..n] == buffer[..writePos + n];
      writePos := writePos + n;
    }
  }

  /** How a call of Flow ended, as its streams saw it. */
  ghost predicate RefusedBySource(source: Source, calls: nat, result: StreamResult)
    reads source
  {
    source.calls > calls && source.last == result && result != Success && result != Eos
  }

  ghost predicate RefusedBySink(sink: Sink, calls: nat, result: StreamResult)
    reads sink
  {
    sink.calls > calls && sink.last == result && result != Success
  }

  /** Source and sink let `n` bytes and the whole source through. */
  ghost predicate Clear(source: Source, sink: Sink, n: nat)
    reads source, sink
  {
    Gives(source.plan, |source.rest|) && Takes(sink.plan) && |sink.plan| >= n + |source.rest|
  }

  /**
   Flow.  `dataLen` is the caller's residual count; `keep` is false when the
   caller asks for no residual count, and then undelivered bytes are forgotten.
   Whatever the exit, the bytes given to the sink followed by the residual are the
   old residual followed by the bytes taken from the source.  It ends only because the
   source refused before the buffer was full, because the sink refused with something left,
   or with Success, and Success means that the source has ended and the sink has all.
   */
  method Flow(source: Source, buffer: array<byte>, sink: Sink, dataLen: nat, keep: bool)
      returns (result: StreamResult, residual: nat, ghost took: seq<byte>, ghost gave: seq<byte>)
    requires buffer.Length > 0 && dataLen <= buffer.Length
    modifies source, sink, buffer
    ensures residual <= buffer.Length
    ensures source.taken == old(source.taken) + took && took + source.rest == old(source.rest)
    ensures sink.received == old(sink.received) + gave
    ensures keep ==> gave + buffer[..residual] == old(buffer[..dataLen]) + took
    ensures !keep ==> residual == 0 && gave <= took
    ensures result == Success ==> residual == 0 && gave == (if keep then old(buffer[..dataLen]) else []) + took
    ensures result == Success <==>
      source.calls > old(source.calls) && source.last == Eos && |gave| == (if keep then dataLen else 0) + |took|
    ensures result != Success ==>
      || (RefusedBySource(source, old(source.calls), result) && residual < buffer.Length)
      || (RefusedBySink(sink, old(sink.calls), result) && (keep ==> residual > 0))
    ensures old(Clear(source, sink, if keep then dataLen else 0)) ==>
      result == Success && source.rest == [] && gave == (if keep then old(buffer[..dataLen]) else []) + old(source.rest)
  {
    var start := if keep then dataLen else 0;
    ghost var before := buffer[..start];
    var readPos, writePos;
    result, readPos, writePos, took, gave := Rounds(source, buffer, sink, start);
    assert |gave + buffer[writePos..readPos]| == |before + took|;
    residual := 0;
    if result != Success && keep {
      residual := readPos - writePos;
      MoveDown(buffer, writePos, residual);
    } else if result == Success {
      assert gave + buffer[writePos..readPos] == gave && buffer[..0] == [] && gave + [] == gave;
    } else {
      assert took == gave + buffer[writePos..readPos];
    }
  }

  /** The loop of Flow; `buffer[writePos..readPos]` is what is left undelivered. */
  method Rounds(source: Source, buffer: array<byte>, sink: Sink, start: nat)
      returns (result: StreamResult, readPos: nat, writePos: nat, ghost took: seq<byte>, ghost gave: seq<byte>)
    requires start <= buffer.Length && buffer.Length > 0
    modifies source, sink, buffer
    ensures writePos <= readPos <= buffer.Length
    ensures source.taken == old(source.taken) + took && took + source.rest == old(source.rest)
    ensures sink.received == old(sink.received) + gave
    ensures gave + buffer[writePos..readPos] == old(buffer[..start]) + took
    ensures result == Success ==> writePos == readPos && source.calls > old(source.calls) && source.last == Eos
    ensures result != Success ==>
      || (RefusedBySource(source, old(source.calls), result) && readPos - writePos < buffer.Length)
      || (RefusedBySink(sink, old(sink.calls), result) && writePos < readPos)
    ensures old(Clear(source, sink, start)) ==> result == Success && source.rest == [] && took == old(source.rest)
  {
    ghost var before := buffer[..start];
    ghost var clear := Clear(source, sink, start);
    took, gave, readPos, writePos := [], [], start, 0;
    var endOfStream := false;
    while !endOfStream
      invariant readPos <= buffer.Length
      invariant source.taken == old(source.taken) + took && took + source.rest == old(source.rest)
      invariant sink.received == old(sink.received) + gave
      invariant gave + buffer[..readPos] == before + took
      invariant source.calls >= old(source.calls) && sink.calls >= old(sink.calls)
      invariant endOfStream ==> readPos == 0 && source.calls > old(source.calls) && source.last == Eos
      invariant clear ==> if endOfStream then source.rest == [] else Clear(source, sink, readPos)
      decreases !endOfStream, |source.plan| + |sink.plan|
    {
      ghost var held, rest := buffer[..readPos], source.rest;
      ghost var got, put;
      result, endOfStream, readPos, writePos, got, put := Round(source, buffer, sink, readPos);
      Balance(before, took, gave, held, got, put, buffer[writePos..readPos]);
      assert took + rest == (took + got) + source.rest;
      took, gave := took + got, gave + put;
      if result != Success {
        return;
      }
      readPos := 0;
      assert buffer[..0] == buffer[writePos..writePos];
    }
    assert took + [] == took;
    result, writePos := Success, 0;
    assert buffer[0..0] == buffer[..0];
  }

  /** Books that balance before a round and in the round balance after it. */
  lemma Balance(before: seq<byte>, took: seq<byte>, gave: seq<byte>, held: seq<byte>,
                got: seq<byte>, put: seq<byte>, left: seq<byte>)
    requires gave + held == before + took && put + left == held + got
    ensures (gave + put) + left == before + (took + got)
  {
    calc {
      (gave + put) + left;
      gave + (put + left);
      (gave + held) + got;
      before + (took + got);
    }
  }

  /** One pass of the outer loop; after a refusal by the source nothing is written. */
  method Round(source: Source, buffer: array<byte>, sink: Sink, start: nat)
      returns (result: StreamResult, endOfStream: bool, readPos: nat, writePos: nat, ghost got: seq<byte>, ghost put: seq<byte>)
    requires start <= buffer.Length && buffer.Length > 0
    modifies source, sink, buffer
    ensures writePos <= readPos <= buffer.Length
    ensures source.taken == old(source.taken) + got && got + source.rest == old(source.rest)
    ensures sink.received == old(sink.received) + put
    ensures put + buffer[writePos..readPos] == old(buffer[..start]) + got
    ensures source.calls >= old(source.calls) && sink.calls >= old(sink.calls)
    ensures result == Success ==> writePos == readPos
    ensures result == Success && endOfStream ==> source.calls > old(source.calls) && source.last == Eos
    ensures result != Success ==>
      || (RefusedBySource(source, old(source.calls), result) && put == [] && writePos == 0 && readPos < buffer.Length)
      || (RefusedBySink(sink, old(sink.calls), result) && writePos < readPos)
    ensures result == Success && !endOfStream ==>
      |source.plan| + |sink.plan| < |old(source.plan)| + |old(sink.plan)|
    ensures old(Clear(source, sink, start)) ==>
      result == Success && if endOfStream then source.rest == [] else Clear(source, sink, 0)
  {
    result, readPos, got := Fill(source, buffer, start);
    endOfStream := result == Eos;
    writePos, put := 0, [];
    if result != Eos && result != Success {
      assert put + buffer[writePos..readPos] == buffer[..readPos];
      return;
    }
    assert |buffer[..readPos]| == start + |got|;
    result, writePos := Drain(sink, buffer, readPos);
    put := buffer[..writePos];
    assert put + buffer[writePos..readPos] == buffer[..readPos];
  }

  /**
   A caller that keeps calling Flow with its residual until it succeeds or has
   tried `rounds` times: the sink always holds a prefix of the source, in order, and all of
   it once a call succeeds on streams that let it through.
   */
  method Pump(source: Source, buffer: array<byte>, sink: Sink, rounds: nat) returns (done: bool)
    requires buffer.Length > 0 && source.taken == [] && sink.received == []
    modifies source, sink, buffer
    ensures sink.received <= old(source.rest)
    ensures done && source.rest == [] ==> sink.received == old(source.rest)
    ensures rounds > 0 && old(Clear(source, sink, 0)) ==> done && sink.received == old(source.rest)
  {
    var residual: nat, tries := 0, 0;
    done := false;
    while !done && tries < rounds
      invariant residual <= buffer.Length
      invariant source.taken + source.rest == old(source.rest)
      invariant sink.received + buffer[..residual] == source.taken
      invariant (done ==> residual == 0) && (tries == 0 ==> !done)
      invariant old(Clear(source, sink, 0)) ==>
        if tries == 0 then residual == 0 && Clear(source, sink, 0) else done && source.rest == []
      decreases rounds - tries
    {
      ghost var taken0, received0, held := source.taken, sink.received, buffer[..residual];
      var result;
      ghost var took, gave;
      result, residual, took, gave := Flow(source, buffer, sink, residual, true);
      assert (taken0 + took) + source.rest == taken0 + (took + source.rest);
      assert (received0 + gave) + buffer[..residual] == received0 + (held + took) == taken0 + took;
      done := result == Success;
      tries := tries + 1;
    }
    assert sink.received + [] == sink.received && source.taken + [] == source.taken;
  }
}
