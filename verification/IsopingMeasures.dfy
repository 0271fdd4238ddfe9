/**
 What isoping's numbers mean.  Let the peer's clock read `off` microseconds less than ours,
 let packets leave at a steady rate, and let the clock estimates stand for the least one-way
 delays `dIn` (from the peer) and `dOut` (to it).  Then the transit times, the round trip
 time, the clock offset and the lateness that the session computes in wrapping 32-bit
 arithmetic are the true ones, as long as those fit.
 */
module IsopingMeasures {
  import opened Words
  import opened IsopingSession
  import opened IsopingClock

  /** Fits an int32_t. */
  predicate Small(x: int) {
    -0x8000_0000 <= x < 0x8000_0000
  }

  lemma S32OfSmall(x: int, y: int)
    requires Cong(x, y) && Small(y)
    ensures S32(x) == y
  {
    S32Congruent(x, y);
    if y < 0 { U32Multiple(y, y + 0x1_0000_0000, -1); }
  }

  lemma DiffOfSmall(x: int, y: int, d: int)
    requires Cong(x - y, d) && Small(d)
    ensures Diff(x, y) == d
  {
    DiffTrue(x, y);
    S32OfSmall(x - y, d);
  }

  /** The span of packet number `k` is k * usec, modulo 2^32. */
  lemma SpanIsProduct(k: nat, usec: int)
    ensures Cong(Span(U32(k), usec), k * usec)
  {
    MulIsProduct(U32(k), usec);
    CongTruncated(U32(k) * usec);
    WholeTurns(k, usec);
  }

  lemma WholeTurns(k: nat, usec: int)
    ensures Cong(U32(k) * usec, k * usec)
  {
    var q := k / 0x1_0000_0000;
    assert k == U32(k) + 0x1_0000_0000 * q;
    Distribute(U32(k), q, usec);
    U32Multiple(k * usec, U32(k) * usec, q * usec);
  }

  lemma Distribute(r: int, q: int, u: int)
    ensures (r + 0x1_0000_0000 * q) * u == r * u + 0x1_0000_0000 * (q * u)
  {
  }

  // ---- transit times of our packets -----------------------------------------------------------

  /** The peer's ack of our packet `k`, which left at start + k * usec and was under way for `transit`. */
  ghost predicate AckOf(e: AckEntry, k: nat, start: int, usec: int, transit: int, off: int) {
    e.id == U32(k) && e.rxtime == U32(start + k * usec + transit - off)
  }

  /** With the offset known, the ack gives the true transit time. */
  lemma TxDiffIsTransit(t: TxTiming, e: AckEntry, k: nat, start: int, transit: int, off: int)
    requires AckOf(e, k, start, t.usec, transit, off) && t.startTx == U32(start) && Cong(t.offset, off) && Small(transit)
    ensures TxDiff(t, e) == transit
  {
    SpanIsProduct(k, t.usec);
    Transit(e.rxtime, t.offset, t.startTx, Span(e.id, t.usec), start, k * t.usec, transit, off);
  }

  lemma Transit(rxtime: u32, offset: i32, startTx: u32, span: u32, start: int, p: int, transit: int, off: int)
    requires rxtime == U32(start + p + transit - off) && startTx == U32(start) && Cong(offset, off) && Cong(span, p) && Small(transit)
    ensures Diff(rxtime + offset, startTx + span) == transit
  {
    CongTruncated(start);
    CongTruncated(start + p + transit - off);
    CongAdd(rxtime, start + p + transit - off, offset, off);
    CongAdd(startTx, start, span, p);
    CongAdd(rxtime + offset, start + p + transit, startTx + span, start + p);
    DiffOfSmall(rxtime + offset, startTx + span, transit);
  }

  /** A session that has sent `sent - 1` packets and is about to send the next one on schedule. */
  ghost predicate OnSchedule(v: View, start: int, sent: nat) {
    v.nextTxId == U32(sent) && Cong(v.nextSend, start + sent * v.usecPerPkt)
  }

  lemma TimingIsStart(v: View, start: int, sent: nat, offset: i32)
    requires OnSchedule(v, start, sent)
    ensures Timing(v, offset).startTx == U32(start)
  {
    SpanIsProduct(sent, v.usecPerPkt);
    LessSpan(v.nextSend, start, sent * v.usecPerPkt, Span(v.nextTxId, v.usecPerPkt));
  }

  lemma LessSpan(nextSend: u64, start: int, p: int, span: u32)
    requires Cong(nextSend, start + p) && Cong(span, p)
    ensures Cong(nextSend - span, start)
  {
    CongAdd(nextSend, start + p, span, p);
  }

  /** So an ack that is counted adds the true transit time to the statistics. */
  lemma AckCountsTransit(v: View, offset: i32, e: AckEntry, k: nat, start: int, sent: nat, transit: int, off: int)
    requires OnSchedule(v, start, sent) && AckOf(e, k, start, v.usecPerPkt, transit, off) && Cong(offset, off) && Small(transit)
    requires e.id != 0 && Diff(e.id, v.acked.nextId) >= 0
    ensures var a, a' := v.acked.stats, ScanSlot(v.acked, e, Timing(v, offset)).stats;
            a'.last == transit && a'.count == a.count + 1 && a'.sum == a.sum + transit
  {
    TimingIsStart(v, start, sent, offset);
    TxDiffIsTransit(Timing(v, offset), e, k, start, transit, off);
  }

  // ---- round trip and offset --------------------------------------------------------------------

  /** Our estimates: start_rxtime - start_rtxtime is the offset plus the least delay from the peer. */
  ghost predicate ClockStands(c: Clock, off: int, dIn: int) {
    Cong(c.startRx - c.startRtx, off + dIn)
  }

  lemma ClockDiffStands(c: Clock, off: int, dIn: int)
    requires ClockStands(c, off, dIn)
    ensures Cong(ClockDiff(c), off + dIn)
  {
    CongOfDiff(c.startRx, c.startRtx);
  }

  /** The round trip is the sum of the two least delays, and the offset is off by half their difference. */
  lemma RttIsSum(c: Clock, d: u32, off: int, dIn: int, dOut: int)
    requires ClockStands(c, off, dIn) && d == U32(dOut - off) && 0 <= dIn + dOut < 0x8000_0000
    ensures Rtt(c, d) == dIn + dOut
    ensures var error := dIn - (dIn + dOut) / 2;
            Cong(Offset(c, d), off + error) && 0 <= 2 * error - (dIn - dOut) <= 1
  {
    ClockDiffStands(c, off, dIn);
    CongTruncated(dOut - off);
    CongAdd(ClockDiff(c), off + dIn, d, dOut - off);
    S32OfSmall(ClockDiff(c) + d, dIn + dOut);
    var h := (dIn + dOut) / 2;
    CongOfDiff(ClockDiff(c), h);
    CongAdd(ClockDiff(c), off + dIn, h, h);
  }

  /** What the peer reports in its packets is its own such difference. */
  lemma PeerReports(w: View, off: int, dOut: int)
    requires w.clock.startRtx != 0 && ClockStands(w.clock, -off, dOut)
    ensures TxPacket(w).clockdiff == U32(dOut - off)
  {
  }

  /** Two sessions whose estimates stand for the least delays measure the round trip. */
  lemma RttOfTwo(v: View, w: View, off: int, dIn: int, dOut: int)
    requires ClockStands(v.clock, off, dIn) && ClockStands(w.clock, -off, dOut) && w.clock.startRtx != 0
    requires 0 <= dIn + dOut < 0x8000_0000
    ensures Rtt(v.clock, TxPacket(w).clockdiff) == dIn + dOut
  {
    PeerReports(w, off, dOut);
    RttIsSum(v.clock, TxPacket(w).clockdiff, off, dIn, dOut);
  }

  // ---- lateness of the peer's packets -------------------------------------------------------------

  /** Packet `j` arrives at `now`, `late` after base + j * usec. */
  ghost predicate Arrives(now: int, base: int, j: nat, usec: int, late: int) {
    Cong(now, base + j * usec + late)
  }

  lemma LatenessIsTrue(startRx: u64, base: int, j: nat, usec: int, late: int, now: u64)
    requires Cong(startRx, base) && Arrives(now, base, j, usec, late) && Small(late)
    ensures Lateness(startRx, Span(U32(j), usec), now) == late
  {
    SpanIsProduct(j, usec);
    LateBy(now, startRx, Span(U32(j), usec), base, j * usec, late);
  }

  lemma LateBy(now: u64, startRx: u64, span: u32, base: int, p: int, late: int)
    requires Cong(now, base + p + late) && Cong(startRx, base) && Cong(span, p) && Small(late)
    ensures S32(now - startRx - span) == late
  {
    CongAdd(now, base + p + late, startRx, base);
    CongAdd(now - startRx, p + late, span, p);
    S32OfSmall(now - startRx - span, late);
  }

  /**
   A packet is judged by its true lateness; one more than 20 us early moves the start back by
   just that much and counts as punctual.
   */
  lemma RxDiffMeans(v: View, rx: Packet, now: u64, base: int, j: nat, late: int)
    requires v.rx.nextId != 0 && rx.id == U32(j) && Cong(v.clock.startRx, base)
    requires Arrives(now, base, j, v.usecPerPkt, late) && Small(late)
    ensures late >= -20 ==> RxDiff(v, rx, now) == late && JudgingClock(v, rx, now) == v.clock
    ensures late < -20 ==> RxDiff(v, rx, now) == 0 && Cong(JudgingClock(v, rx, now).startRx, base + late)
    ensures JudgingClock(v, rx, now) == v.clock.(startRx := JudgingClock(v, rx, now).startRx)
  {
    LatenessIsTrue(v.clock.startRx, base, j, v.usecPerPkt, late, now);
    if late < -20 { MovedBack(v, rx, now, base, j, late); }
  }

  lemma MovedBack(v: View, rx: Packet, now: u64, base: int, j: nat, late: int)
    requires v.rx.nextId != 0 && rx.id == U32(j) && Arrives(now, base, j, v.usecPerPkt, late)
    requires Lateness(v.clock.startRx, Span(rx.id, v.usecPerPkt), now) < -20
    ensures Cong(JudgingClock(v, rx, now).startRx, base + late) && RxDiff(v, rx, now) == 0
  {
    SpanIsProduct(j, v.usecPerPkt);
    FixAnchors(v.clock, Span(rx.id, v.usecPerPkt), now, base + late, j * v.usecPerPkt);
    JudgedAs(v, rx, now, FixClock(v.clock, Span(rx.id, v.usecPerPkt), now));
  }

  lemma JudgedAs(v: View, rx: Packet, now: u64, c: Clock)
    requires v.rx.nextId != 0 && c == FixClock(v.clock, Span(rx.id, v.usecPerPkt), now)
    ensures JudgingClock(v, rx, now) == c && RxDiff(v, rx, now) == Lateness(c.startRx, Span(rx.id, v.usecPerPkt), now)
  {
  }

  lemma FixAnchors(c: Clock, span: u32, now: u64, base: int, p: int)
    requires Cong(span, p) && Cong(now, base + p) && Lateness(c.startRx, span, now) < -20
    ensures var f := FixClock(c, span, now); Cong(f.startRx, base) && Lateness(f.startRx, span, now) == 0
  {
    Anchored(now, base, span, p);
  }

  /** A start set from a packet's arrival is `base`, and that packet is punctual by it. */
  lemma Anchored(now: u64, base: int, span: u32, p: int)
    requires Cong(span, p) && Cong(now, base + p)
    ensures Cong(U64(now - span), base) && Lateness(U64(now - span), span, now) == 0
  {
    var start := U64(now - span);
    CongAdd(now, base + p, span, p);
    CongOfU64(now - span);
    CongAdd(now, now, start, now - span);
    CongAdd(now - start, span, span, span);
    S32OfSmall(now - start - span, 0);
  }

  lemma CongOfU64(x: int)
    ensures Cong(U64(x), x)
  {
    var q := x / 0x1_0000_0000_0000_0000;
    U32Multiple(x, U64(x), 0x1_0000_0000 * q);
  }

  /** The first packet sets the estimates: it is punctual, and the start is its arrival less its span. */
  lemma FirstPacketAnchors(v: View, rx: Packet, now: u64, base: int, j: nat)
    requires v.rx.nextId == 0 && rx.id == U32(j) && Arrives(now, base, j, v.usecPerPkt, 0)
    ensures RxDiff(v, rx, now) == 0 && Cong(JudgingClock(v, rx, now).startRx, base)
    ensures Cong(JudgingClock(v, rx, now).startRtx, rx.txtime - j * v.usecPerPkt)
  {
    SpanIsProduct(j, v.usecPerPkt);
    StartAnchors(v.clock, rx.txtime, Span(rx.id, v.usecPerPkt), now, base, j * v.usecPerPkt);
    JudgedFirst(v, rx, now, FixedClock(true, v.clock, rx.txtime, Span(rx.id, v.usecPerPkt), now));
  }

  lemma JudgedFirst(v: View, rx: Packet, now: u64, c: Clock)
    requires v.rx.nextId == 0 && c == FixedClock(true, v.clock, rx.txtime, Span(rx.id, v.usecPerPkt), now)
    ensures JudgingClock(v, rx, now) == c && RxDiff(v, rx, now) == Lateness(c.startRx, Span(rx.id, v.usecPerPkt), now)
  {
  }

  lemma StartAnchors(before: Clock, txtime: u32, span: u32, now: u64, base: int, p: int)
    requires Cong(span, p) && Cong(now, base + p)
    ensures var c := FixedClock(true, before, txtime, span, now);
            Cong(c.startRx, base) && Cong(c.startRtx, txtime - p) && Lateness(c.startRx, span, now) == 0
  {
    Anchored(now, base, span, p);
    StartStands(before, txtime, span, now);
    SentAt(txtime, span, p);
  }

  lemma StartStands(before: Clock, txtime: u32, span: u32, now: u64)
    requires Lateness(U64(now - span), span, now) == 0
    ensures FixedClock(true, before, txtime, span, now) == StartClock(txtime, span, now)
  {
  }

  lemma SentAt(txtime: u32, span: u32, p: int)
    requires Cong(span, p)
    ensures Cong(U32(txtime - span), txtime - p)
  {
    CongAdd(txtime, txtime, span, p);
    CongTruncated(txtime - span);
  }

  /** The receive statistics gain the true lateness plus half the true round trip. */
  lemma ReceiveCountsLatency(v: View, rx: Packet, now: u64, base: int, j: nat, late: int, off: int, dIn: int, dOut: int)
    requires v.rx.nextId != 0 && rx.id == U32(j) && Cong(v.clock.startRx, base)
    requires Arrives(now, base, j, v.usecPerPkt, late) && Small(late) && late >= -20
    requires ClockStands(v.clock, off, dIn) && rx.clockdiff == U32(dOut - off) != 0 && 0 <= dIn + dOut < 0x8000_0000
    ensures var s, s' := v.latRx, ReceiveHeader(v, rx, now).latRx;
            var latency := late + (dIn + dOut) / 2;
            s'.last == latency && s'.count == s.count + 1 && s'.sum == s.sum + latency
  {
    RxDiffMeans(v, rx, now, base, j, late);
    RttIsSum(v.clock, rx.clockdiff, off, dIn, dOut);
  }

  // ---- the accumulators -----------------------------------------------------------------------------

  function AddAll(s: Stats, ys: seq<int>): Stats {
    if ys == [] then s else AddAll(s, ys[..|ys| - 1]).Add(ys[|ys| - 1])
  }

  function Sum(ys: seq<int>): int {
    if ys == [] then 0 else Sum(ys[..|ys| - 1]) + ys[|ys| - 1]
  }

  function SumOfSquares(ys: seq<int>): int {
    if ys == [] then 0 else SumOfSquares(ys[..|ys| - 1]) + ys[|ys| - 1] * ys[|ys| - 1]
  }

  /** The accumulators hold number, sum, sum of squares, last, least and greatest of the samples. */
  lemma {:induction false} StatsOfSamples(ys: seq<int>)
    ensures var s := AddAll(NO_STATS, ys);
            && s.count == |ys| && s.sum == Sum(ys) && s.sumsq == SumOfSquares(ys)
            && (ys != [] ==> s.last == ys[|ys| - 1])
            && (forall y :: y in ys ==> s.min <= y <= s.max)
            && (s.min in ys || s.min == 0x7fff_ffff) && (s.max in ys || s.max == 0)
    decreases |ys|
  {
    if ys != [] {
      var n := |ys| - 1;
      StatsOfSamples(ys[..n]);
      assert ys == ys[..n] + [ys[n]];
      SquareIsProduct(ys[n]);
    }
  }

  // ---- the slide at the end of a cycle ------------------------------------------------------------

  /** The packets of one cycle: how late each was found, and when it came. */
  function SlideAll(c: Clock, ps: seq<(i32, u64)>): Clock {
    if ps == [] then c else SlideCycle(SlideAll(c, ps[..|ps| - 1]), ps[|ps| - 1].0, ps[|ps| - 1].1)
  }

  ghost predicate Least(ps: seq<(i32, u64)>, m: int) {
    (forall i :: 0 <= i < |ps| ==> m <= ps[i].0) && exists i :: 0 <= i < |ps| && ps[i].0 == m
  }

  lemma {:induction false} WithinCycle(c: Clock, ps: seq<(i32, u64)>)
    requires c.minDiff == 0x7fff_ffff && forall i :: 0 <= i < |ps| ==> Diff(ps[i].1, c.nextCycle) < 0
    ensures SlideAll(c, ps) == c.(minDiff := SlideAll(c, ps).minDiff)
    ensures ps == [] ==> SlideAll(c, ps).minDiff == 0x7fff_ffff
    ensures ps != [] ==> Least(ps, SlideAll(c, ps).minDiff)
    decreases |ps|
  {
    if ps != [] {
      var n := |ps| - 1;
      WithinCycle(c, ps[..n]);
      assert ps == ps[..n] + [ps[n]];
      LeastOfMore(ps[..n], ps[n], SlideAll(c, ps[..n]).minDiff);
    }
  }

  lemma LeastOfMore(ps: seq<(i32, u64)>, p: (i32, u64), m: int)
    requires if ps == [] then m == 0x7fff_ffff else Least(ps, m)
    ensures Least(ps + [p], if p.0 < m then p.0 else m)
  {
    var all := ps + [p];
    assert all[|ps|] == p;
    if ps != [] {
      var i :| 0 <= i < |ps| && ps[i].0 == m;
      assert all[i].0 == m;
    }
  }

  /** The last packet of a cycle moves the start forward by the least lateness of the cycle, if that is positive. */
  lemma CycleSlides(c: Clock, ps: seq<(i32, u64)>, last: (i32, u64), m: int)
    requires c.minDiff == 0x7fff_ffff && Least(ps + [last], m)
    requires (forall i :: 0 <= i < |ps| ==> Diff(ps[i].1, c.nextCycle) < 0) && Diff(last.1, c.nextCycle) >= 0
    ensures var end := SlideCycle(SlideAll(c, ps), last.0, last.1);
            && end.startRtx == c.startRtx && end.minDiff == 0x7fff_ffff && end.nextCycle == U32(c.nextCycle + USEC_PER_CYCLE)
            && end.startRx == if m > 0 then U64(c.startRx + m) else c.startRx
  {
    var c' := SlideAll(c, ps);
    WithinCycle(c, ps);
    LeastWithLast(ps, last, c'.minDiff, m);
    LastSlides(c, c', last.0, last.1, m);
  }

  /** The first cycle starts with a least lateness of 0 and does not slide. */
  lemma {:induction false} FirstCycleStays(c: Clock, ps: seq<(i32, u64)>)
    requires c.minDiff <= 0 && forall i :: 0 <= i < |ps| - 1 ==> Diff(ps[i].1, c.nextCycle) < 0
    ensures SlideAll(c, ps).startRx == c.startRx
    ensures ps == [] || Diff(ps[|ps| - 1].1, c.nextCycle) < 0 ==> SlideAll(c, ps).minDiff <= 0 && SlideAll(c, ps).nextCycle == c.nextCycle
    decreases |ps|
  {
    if ps != [] {
      var n := |ps| - 1;
      FirstCycleStays(c, ps[..n]);
      if n > 0 { assert ps[..n][n - 1] == ps[n - 1]; }
    }
  }

  lemma LeastWithLast(ps: seq<(i32, u64)>, last: (i32, u64), before: int, m: int)
    requires Least(ps + [last], m) && if ps == [] then before == 0x7fff_ffff else Least(ps, before)
    ensures m == if last.0 < before then last.0 else before
  {
    LeastOfMore(ps, last, before);
    LeastIsOne(ps + [last], m, if last.0 < before then last.0 else before);
  }

  lemma LeastIsOne(ps: seq<(i32, u64)>, m: int, m': int)
    requires Least(ps, m) && Least(ps, m')
    ensures m == m'
  {
  }

  lemma LastSlides(c: Clock, c': Clock, rxdiff: i32, now: u64, m: int)
    requires c' == c.(minDiff := c'.minDiff) && Diff(now, c.nextCycle) >= 0 && m == if rxdiff < c'.minDiff then rxdiff else c'.minDiff
    ensures var end := SlideCycle(c', rxdiff, now);
            && end.startRtx == c.startRtx && end.minDiff == 0x7fff_ffff && end.nextCycle == U32(c.nextCycle + USEC_PER_CYCLE)
            && end.startRx == if m > 0 then U64(c.startRx + m) else c.startRx
  {
  }
}
