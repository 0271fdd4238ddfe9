/**
 Machine words as mathematical integers.  The sources rely on unsigned 32- and
 64-bit wrap-around and on two's-complement truncation to int32; both are
 written out here as remainders, so that every other module can reason about
 the true (unbounded) quantities behind the wire values.
 */
module Words {

  type u32 = x: int | 0 <= x < 0x1_0000_0000
  type u64 = x: int | 0 <= x < 0x1_0000_0000_0000_0000
  type i32 = x: int | -0x8000_0000 <= x < 0x8000_0000

  /** Truncation to uint32_t. */
  function U32(x: int): u32 {
    x % 0x1_0000_0000
  }

  /** Truncation to uint64_t. */
  function U64(x: int): u64 {
    x % 0x1_0000_0000_0000_0000
  }

  /** Truncation to int32_t. */
  function S32(x: int): i32 {
    if U32(x) < 0x8000_0000 then U32(x) else U32(x) - 0x1_0000_0000
  }

  /** The DIFF macro: signed distance between two timestamps or ids. */
  function Diff(x: int, y: int): i32 {
    S32(U32(x) - U32(y))
  }

  /** C's int division by two, which truncates toward zero. */
  function Half(x: int): int {
    if x >= 0 then x / 2 else -((-x) / 2)
  }

  /** n * y by repeated addition: a product whose linear properties are visible to the solver. */
  function Mul(n: nat, y: int): int {
    if n == 0 then 0 else Mul(n - 1, y) + y
  }

  lemma {:induction false} MulIsProduct(n: nat, y: int)
    ensures Mul(n, y) == n * y
  {
    if n > 0 {
      MulIsProduct(n - 1, y);
    }
  }

  function Square(x: int): int {
    if x >= 0 then Mul(x, x) else Mul(-x, -x)
  }

  lemma SquareIsProduct(x: int)
    ensures Square(x) == x * x >= 0
  {
    if x >= 0 { MulIsProduct(x, x); } else { MulIsProduct(-x, -x); }
  }

  /** Numbers that differ by a multiple of 2^32 have the same wire form. */
  lemma U32Multiple(x: int, y: int, k: int)
    requires x == y + 0x1_0000_0000 * k
    ensures U32(x) == U32(y) && S32(x) == S32(y)
  {
  }

  /** Truncation may be postponed in a sum. */
  lemma U32Add(x: int, y: int)
    ensures U32(U32(x) + y) == U32(x + y)
  {
    U32Multiple(x + y, U32(x) + y, x / 0x1_0000_0000);
  }

  /** The DIFF of two wire forms is the true difference, truncated. */
  lemma DiffTrue(x: int, y: int)
    ensures Diff(x, y) == S32(x - y)
    ensures Diff(U32(x), U32(y)) == S32(x - y)
  {
    var k := x / 0x1_0000_0000 - y / 0x1_0000_0000;
    assert x - y == (U32(x) - U32(y)) + 0x1_0000_0000 * k;
    U32Multiple(x - y, U32(x) - U32(y), k);
    U32Multiple(U32(x), x, -(x / 0x1_0000_0000));
    U32Multiple(U32(y), y, -(y / 0x1_0000_0000));
  }

  /** Two numbers less than 2^31 apart are told apart exactly by their wire forms. */
  lemma DiffExact(x: int, y: int)
    requires -0x8000_0000 <= x - y < 0x8000_0000
    ensures Diff(x, y) == x - y
    ensures Diff(U32(x), U32(y)) == x - y
  {
    DiffTrue(x, y);
    if x < y { U32Multiple(x - y, x - y + 0x1_0000_0000, -1); }
  }

  /** A 64-bit difference truncated to int32 is the true difference truncated to int32. */
  lemma S32OfU64(x: int)
    ensures S32(U64(x)) == S32(x)
  {
    var q := x / 0x1_0000_0000_0000_0000;
    assert x == U64(x) + 0x1_0000_0000 * (0x1_0000_0000 * q);
    U32Multiple(x, U64(x), 0x1_0000_0000 * q);
  }

  lemma U64Add(x: int, y: int)
    ensures U64(U64(x) + y) == U64(x + y)
  {
  }

  lemma U64Sub(x: int, y: int)
    ensures U64(x - U64(y)) == U64(x - y)
  {
    U64Add(x - U64(y), U64(y) - y);
    var q := y / 0x1_0000_0000_0000_0000;
    assert U64(y) - y == -q * 0x1_0000_0000_0000_0000;
    U64Multiple(x - U64(y), -q);
  }

  lemma U64Multiple(x: int, q: int)
    ensures U64(x + q * 0x1_0000_0000_0000_0000) == U64(x)
  {
  }

  lemma U64Small(x: int)
    requires -0x1_0000_0000_0000_0000 <= x < 0x1_0000_0000_0000_0000
    ensures U64(x) == if x >= 0 then x else x + 0x1_0000_0000_0000_0000
  {
  }
}
