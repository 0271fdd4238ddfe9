/** Bytes, and the result codes that every stream operation returns. */
module Bytes {
  type byte = x: int | 0 <= x < 256

  datatype StreamResult = Success | Block | Eos | Error

  function Min(a: nat, b: nat): nat {
    if a <= b then a else b
  }

  /** A lower-case hex digit. */
  function HexDigit(n: nat): byte
    requires n < 16
  {
    if n < 10 then 48 + n else 87 + n
  }

  /** `s` with `t` stored from position `pos` on. */
  function Overwritten(s: seq<byte>, pos: nat, t: seq<byte>): (r: seq<byte>)
    requires pos + |t| <= |s|
    ensures |r| == |s|
    ensures forall i :: 0 <= i < |s| ==> r[i] == if pos <= i < pos + |t| then t[i - pos] else s[i]
  {
    s[..pos] + t + s[pos + |t|..]
  }

  lemma OverwrittenParts(s: seq<byte>, pos: nat, t: seq<byte>)
    requires pos + |t| <= |s|
    ensures Overwritten(s, pos, t)[..pos] == s[..pos]
    ensures Overwritten(s, pos, t)[pos..pos + |t|] == t
  {
  }

  /** memmove of `n` bytes to the front. */
  method MoveDown(a: array<byte>, from: nat, n: nat)
    requires from + n <= a.Length
    modifies a
    ensures a[..][..n] == old(a[..])[from..from + n] && a[..n] == old(a[from..from + n])
  {
    forall i | 0 <= i < n {
      a[i] := a[from + i];
    }
  }

  /** memcpy into an array. */
  method CopyInto(a: array<byte>, pos: nat, s: seq<byte>)
    requires pos + |s| <= a.Length
    modifies a
    ensures a[..] == Overwritten(old(a[..]), pos, s)
  {
    forall i | 0 <= i < |s| {
      a[pos + i] := s[i];
    }
  }
}
