/**
 base/time.cc: comparisons of wrapping millisecond timestamps.  Each operation
 exists twice in the source, as a fast subtraction and as a slow case split on
 TimeIsBetween; the fast one is compiled in.
 */
module Time {
  import opened Words

  const LAST: u32 := 0xFFFF_FFFF
  const HALF: u32 := 0x8000_0000

  predicate TimeIsBetween(earlier: u32, middle: u32, later: u32) {
    if earlier <= later then earlier <= middle <= later
    else !(later < middle < earlier)
  }

  predicate TimeIsLaterOrEqual(earlier: u32, later: u32) {
    var diff := S32(later - earlier);
    diff >= 0 && U32(diff) < HALF
  }

  predicate TimeIsLaterOrEqualSlow(earlier: u32, later: u32) {
    TimeIsBetween(earlier, later, U32(earlier + HALF))
  }

  predicate TimeIsLater(earlier: u32, later: u32) {
    var diff := S32(later - earlier);
    diff > 0 && U32(diff) < HALF
  }

  predicate TimeIsLaterSlow(earlier: u32, later: u32) {
    !TimeIsBetween(later, earlier, U32(later + HALF))
  }

  function TimeDiff(later: u32, earlier: u32): i32 {
    S32(later - earlier)
  }

  function TimeDiffSlow(later: u32, earlier: u32): i32 {
    if TimeIsBetween(earlier, later, U32(earlier + HALF)) then
      if earlier <= later then S32(later - earlier)
      else S32(later + (LAST - earlier) + 1)
    else
      if later <= earlier then S32(-(earlier - later))
      else S32(-(earlier + (LAST - later) + 1))
  }

  /**
   The fast forms refine the slow ones everywhere, except that the two
   TimeIsLaterOrEqual disagree exactly at a distance of half the clock.
   */
  lemma FastRefinesSlow(earlier: u32, later: u32)
    ensures TimeIsLater(earlier, later) == TimeIsLaterSlow(earlier, later)
    ensures TimeDiff(later, earlier) == TimeDiffSlow(later, earlier)
    ensures TimeIsLaterOrEqual(earlier, later) == TimeIsLaterOrEqualSlow(earlier, later)
       <==> U32(later - earlier) != HALF
  {
    if earlier <= later {
      assert U32(later - earlier) == later - earlier;
      assert U32(earlier - later) == if earlier == later then 0 else earlier - later + 0x1_0000_0000;
    } else {
      assert U32(later - earlier) == later - earlier + 0x1_0000_0000;
      assert U32(earlier - later) == earlier - later;
    }
  }

  /** The order is a strict total order on any window of less than 2^31 ms, whatever the wrap. */
  lemma LaterMeansLater(now: int, due: int)
    requires -0x8000_0000 < due - now < 0x8000_0000
    ensures TimeIsLater(U32(now), U32(due)) <==> due > now
    ensures TimeDiff(U32(due), U32(now)) == due - now
    ensures TimeIsLaterOrEqual(U32(now), U32(due)) <==> due >= now
  {
    DiffExact(due, now);
    assert U32(U32(due)) == U32(due) && U32(U32(now)) == U32(now);
  }
}
