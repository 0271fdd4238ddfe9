/**
 The remote clock has an unknown origin.  Shifting it by any constant shifts the
 remote timestamps in every packet, and this module proves that it changes
 nothing that isoping measures: two sessions that differ only by such a shift
 stay in step over whole runs.
 */
module IsopingClock {
  import opened Words
  import opened IsopingSession
  import opened IsopingLaws

  /** Equal modulo 2^32. */
  ghost predicate Cong(x: int, y: int) {
    U32(x) == U32(y)
  }

  lemma CongAdd(x: int, x': int, y: int, y': int)
    requires Cong(x, x') && Cong(y, y')
    ensures Cong(x + y, x' + y') && Cong(x - y, x' - y')
  {
    var j := x / 0x1_0000_0000 - x' / 0x1_0000_0000;
    var k := y / 0x1_0000_0000 - y' / 0x1_0000_0000;
    U32Multiple(x + y, x' + y', j + k);
    U32Multiple(x - y, x' - y', j - k);
  }

  lemma CongTruncated(x: int)
    ensures Cong(U32(x), x) && Cong(S32(x), x)
  {
    U32Multiple(U32(x), x, -(x / 0x1_0000_0000));
    U32Multiple(S32(x), U32(x), if U32(x) < 0x8000_0000 then 0 else -1);
  }

  lemma CongDiff(x: int, y: int, x': int, y': int)
    requires Cong(x - y, x' - y')
    ensures Diff(x, y) == Diff(x', y')
  {
    DiffTrue(x, y);
    DiffTrue(x', y');
  }

  // ---- what a shift does to packets and sessions --------------------------------

  function ShiftEntry(e: AckEntry, c: int): AckEntry {
    AckEntry(e.id, U32(e.rxtime + c))
  }

  /**
   `rx'` is `rx` as sent by a peer whose clock is `c` ahead.  A zero clockdiff
   is a sentinel, not a time: it is not shifted, and a peer that sends it has
   received nothing yet and so acks nothing.
   */
  ghost predicate ShiftedPacket(rx: Packet, rx': Packet, c: int) {
    && rx' == rx.(txtime := U32(rx.txtime + c), clockdiff := rx'.clockdiff, acks := rx'.acks)
    && (forall i :: 0 <= i < 64 ==> rx'.acks[i] == ShiftEntry(rx.acks[i], c))
    && if rx.clockdiff == 0 || rx'.clockdiff == 0
       then rx.clockdiff == rx'.clockdiff == 0 && forall i :: 0 <= i < 64 ==> rx.acks[i].id == 0
       else rx'.clockdiff == U32(rx.clockdiff + c)
  }

  /** Equal but for the estimate of the remote start time, which is shifted once it is known. */
  ghost predicate ShiftedView(v: View, v': View, c: int) {
    && v' == v.(clock := v.clock.(startRtx := v'.clock.startRtx))
    && (v.rx.nextId != 0 ==> v'.clock.startRtx == U32(v.clock.startRtx + c))
  }

  ghost predicate ShiftedClock(k: Clock, k': Clock, c: int) {
    k' == k.(startRtx := U32(k.startRtx + c))
  }

  lemma JudgingClockShifts(v: View, v': View, rx: Packet, rx': Packet, c: int, now: u64)
    requires ShiftedView(v, v', c) && rx'.txtime == U32(rx.txtime + c) && rx'.id == rx.id
    ensures ShiftedClock(JudgingClock(v, rx, now), JudgingClock(v', rx', now), c)
  {
    FixedClockShifts(v.rx.nextId == 0, v.clock, v'.clock, rx.txtime, Span(rx.id, v.usecPerPkt), c, now);
  }

  lemma FixedClockShifts(first: bool, k: Clock, k': Clock, txtime: u32, span: u32, c: int, now: u64)
    requires first || ShiftedClock(k, k', c)
    ensures ShiftedClock(FixedClock(first, k, txtime, span, now),
                         FixedClock(first, k', U32(txtime + c), span, now), c)
  {
    assert U32(U32(txtime + c) - span) == U32(U32(txtime - span) + c) by {
      U32Add(txtime + c, 0 - span);
      U32Add(txtime - span, c);
    }
  }

  lemma ClockDiffShifts(k: Clock, k': Clock, c: int)
    requires ShiftedClock(k, k', c)
    ensures Cong(ClockDiff(k'), ClockDiff(k) - c)
  {
    CongTruncated(k.startRtx + c);
    DiffShifts(k.startRx, k.startRtx, k'.startRtx, c);
  }

  /** A shift of the subtrahend shifts the difference back. */
  lemma DiffShifts(x: int, y: int, y': int, c: int)
    requires Cong(y', y + c)
    ensures Cong(Diff(x, y'), Diff(x, y) - c)
  {
    CongOfDiff(x, y);
    CongOfDiff(x, y');
    CongAdd(x, x, y', y + c);
    CongAdd(Diff(x, y), x - y, c, c);
  }

  lemma CongOfDiff(x: int, y: int)
    ensures Cong(Diff(x, y), x - y)
  {
    DiffTrue(x, y);
    CongTruncated(x - y);
  }

  /** The origin cancels out of the round trip time, and moves the offset by its own amount. */
  lemma RttShifts(k: Clock, k': Clock, d: u32, d': u32, c: int)
    requires ShiftedClock(k, k', c) && d' == U32(d + c)
    ensures Rtt(k', d') == Rtt(k, d)
    ensures Cong(Offset(k', d'), Offset(k, d) - c)
  {
    ClockDiffShifts(k, k', c);
    SumShifts(ClockDiff(k), ClockDiff(k'), d, d', c);
    LeftShifts(ClockDiff(k), ClockDiff(k'), Half(Rtt(k, d)), c);
  }

  lemma SumShifts(p: int, p': int, d: int, d': int, c: int)
    requires Cong(p', p - c) && d' == U32(d + c)
    ensures S32(p' + d') == S32(p + d)
  {
    CongTruncated(d + c);
    CongAdd(p', p - c, d', d + c);
    S32Congruent(p' + d', p + d);
  }

  lemma LeftShifts(p: int, p': int, h: int, c: int)
    requires Cong(p', p - c)
    ensures Cong(Diff(p', h), Diff(p, h) - c)
  {
    CongOfDiff(p, h);
    CongOfDiff(p', h);
    CongAdd(p', p - c, h, h);
    CongAdd(Diff(p, h), p - h, c, c);
  }

  lemma S32Congruent(x: int, y: int)
    requires Cong(x, y)
    ensures S32(x) == S32(y)
  {
  }

  /** Nor does it show in the transit times read from acks. */
  lemma TxDiffShifts(t: TxTiming, t': TxTiming, e: AckEntry, c: int)
    requires t' == t.(offset := t'.offset) && Cong(t'.offset, t.offset - c)
    ensures TxDiff(t', ShiftEntry(e, c)) == TxDiff(t, e)
  {
    CongTruncated(e.rxtime + c);
    CongAdd(U32(e.rxtime + c), e.rxtime + c, t'.offset, t.offset - c);
    var y := t.startTx + Span(e.id, t.usec);
    CongAdd(U32(e.rxtime + c) + t'.offset, e.rxtime + t.offset, y, y);
    CongDiff(U32(e.rxtime + c) + t'.offset, y, e.rxtime + t.offset, y);
  }

  lemma {:induction false} ScanShifts(a: AckIn, slots: seq<AckEntry>, slots': seq<AckEntry>,
                                      t: TxTiming, t': TxTiming, c: int)
    requires |slots'| == |slots| && forall i :: 0 <= i < |slots| ==> slots'[i] == ShiftEntry(slots[i], c)
    requires t' == t.(offset := t'.offset)
    requires Cong(t'.offset, t.offset - c) || forall i :: 0 <= i < |slots| ==> slots[i].id == 0
    ensures ScanSlots(a, slots', t') == ScanSlots(a, slots, t)
    decreases |slots|
  {
    if slots != [] {
      if slots[0].id != 0 {
        TxDiffShifts(t, t', slots[0], c);
      }
      assert ScanSlot(a, slots'[0], t') == ScanSlot(a, slots[0], t);
      ScanShifts(ScanSlot(a, slots[0], t), slots[1..], slots'[1..], t, t', c);
    }
  }

  lemma HeaderShifts(v: View, v': View, rx: Packet, rx': Packet, c: int, now: u64)
    requires ShiftedView(v, v', c) && ShiftedPacket(rx, rx', c)
    ensures var h, h' := ReceiveHeader(v, rx, now), ReceiveHeader(v', rx', now);
            h' == h.(clock := h.clock.(startRtx := U32(h.clock.startRtx + c)))
    ensures RxDiff(v', rx', now) == RxDiff(v, rx, now)
    ensures rx.clockdiff != 0 ==>
      && Rtt(JudgingClock(v', rx', now), rx'.clockdiff) == Rtt(JudgingClock(v, rx, now), rx.clockdiff)
      && Cong(Offset(JudgingClock(v', rx', now), rx'.clockdiff),
              Offset(JudgingClock(v, rx, now), rx.clockdiff) - c)
  {
    var k, k' := JudgingClock(v, rx, now), JudgingClock(v', rx', now);
    JudgingClockShifts(v, v', rx, rx', c, now);
    if rx.clockdiff != 0 {
      RttShifts(k, k', rx.clockdiff, rx'.clockdiff, c);
    }
    var rxdiff := RxDiff(v, rx, now);
    assert RxDiff(v', rx', now) == rxdiff;
    SlideShifts(k, k', rxdiff, now, c);
    CountRxShifts(v.latRx, k, k', rx.clockdiff, rx'.clockdiff, rxdiff);
  }

  lemma SlideShifts(k: Clock, k': Clock, rxdiff: i32, now: u64, c: int)
    requires ShiftedClock(k, k', c)
    ensures ShiftedClock(SlideCycle(k, rxdiff, now), SlideCycle(k', rxdiff, now), c)
  {
  }

  lemma CountRxShifts(s: Stats, k: Clock, k': Clock, d: u32, d': u32, rxdiff: i32)
    requires (d == 0 && d' == 0) || (d != 0 && d' != 0 && Rtt(k', d') == Rtt(k, d))
    ensures CountRx(s, k', d', rxdiff) == CountRx(s, k, d, rxdiff)
  {
  }

  lemma ExchangeShifts(h: View, h': View, rx: Packet, rx': Packet, offset: i32, offset': i32, c: int, now: u64)
    requires h.Valid() && h' == h.(clock := h'.clock)
    requires rx'.id == rx.id && rx'.firstAck == rx.firstAck
    requires forall i :: 0 <= i < 64 ==> rx'.acks[i] == ShiftEntry(rx.acks[i], c)
    requires Cong(offset', offset - c) || forall i :: 0 <= i < 64 ==> rx.acks[i].id == 0
    ensures ExchangeAcks(h', rx', offset', now) == ExchangeAcks(h, rx, offset, now).(clock := h'.clock)
  {
    var t, t' := Timing(h, offset), Timing(h', offset');
    ScanShifts(h.acked, Slots(rx), Slots(rx'), t, t', c);
  }

  /** One packet: the shifted session handles the shifted packet in the same way. */
  lemma HandleAckShifts(v: View, v': View, rx: Packet, rx': Packet, c: int, now: u64)
    requires v.Valid() && ShiftedView(v, v', c) && ShiftedPacket(rx, rx', c)
    ensures ShiftedView(HandleAck(v, rx, now), HandleAck(v', rx', now), c)
  {
    HeaderShifts(v, v', rx, rx', c, now);
    FromHeader(ReceiveHeader(v, rx, now), ReceiveHeader(v', rx', now), rx, rx',
               Offset(JudgingClock(v, rx, now), rx.clockdiff),
               Offset(JudgingClock(v', rx', now), rx'.clockdiff), c, now);
  }

  lemma FromHeader(h: View, h': View, rx: Packet, rx': Packet, offset: i32, offset': i32, c: int, now: u64)
    requires h.Valid() && h' == h.(clock := h.clock.(startRtx := U32(h.clock.startRtx + c))) && ShiftedPacket(rx, rx', c)
    requires rx.clockdiff != 0 ==> Cong(offset', offset - c)
    ensures ShiftedView(ExchangeAcks(h, rx, offset, now), ExchangeAcks(h', rx', offset', now), c)
  {
    ExchangeShifts(h, h', rx, rx', offset, offset', c, now);
  }

  ghost predicate ShiftedEvent(e: Event, e': Event, c: int) {
    match e
    case Receive(rx, now) => e'.Receive? && e'.now == now && ShiftedPacket(rx, e'.rx, c)
    case Send(_) => e' == e
  }

  lemma ApplyShifts(v: View, v': View, e: Event, e': Event, c: int)
    requires v.Valid() && ShiftedView(v, v', c) && ShiftedEvent(e, e', c)
    ensures ShiftedView(Apply(v, e), Apply(v', e'), c)
  {
    if e.Receive? {
      HandleAckShifts(v, v', e.rx, e'.rx, c, e.now);
    }
  }

  /**
   Over every run, a peer whose clock is `c` ahead leads to the same session: the
   same statistics in both directions, the same acks counted, the same losses.
   */
  lemma {:induction false} RemoteClockOriginCancels(v: View, v': View, es: seq<Event>, es': seq<Event>, c: int)
    requires v.Valid() && ShiftedView(v, v', c)
    requires |es'| == |es| && forall i :: 0 <= i < |es| ==> ShiftedEvent(es[i], es'[i], c)
    ensures var end, end' := ApplyAll(v, es), ApplyAll(v', es');
            && ShiftedView(end, end', c)
            && end'.latRx == end.latRx && end'.acked == end.acked && end'.rx == end.rx && end'.out == end.out
    decreases |es|
  {
    if es != [] {
      ApplyValid(v, es[0]);
      ApplyValid(v', es'[0]);
      ApplyShifts(v, v', es[0], es'[0], c);
      RemoteClockOriginCancels(Apply(v, es[0]), Apply(v', es'[0]), es[1..], es'[1..], c);
    }
  }
}
