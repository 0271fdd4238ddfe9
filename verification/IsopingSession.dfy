/**
 cmds/isoping.cc: one end of an isoping session.  `Session` keeps the fields of
 the C++ struct and updates them in place; `View` is the same record as a value,
 and the functions below say what each part of the packet handler does to it.
 Printing (last_ackinfo, last_print, usec_per_print) is not part of this model.
 */
module IsopingSession {
  import opened Words

  const USEC_PER_CYCLE: int := 10 * 1000 * 1000

  /** One element of the acks[] ring; id 0 marks an empty slot. */
  datatype AckEntry = AckEntry(id: u32, rxtime: u32)

  type AckRing = s: seq<AckEntry> | |s| == 64 witness seq(64, _ => AckEntry(0, 0))

  function EmptyRing(): AckRing {
    seq(64, _ => AckEntry(0, 0))
  }

  datatype PacketType = Ack | Handshake

  /** A packet after byte-order conversion; the magic number has been checked. */
  datatype Packet = Packet(
    id: u32,
    txtime: u32,
    clockdiff: u32,
    usecPerPkt: u32,
    numLost: u32,
    packetType: PacketType,
    firstAck: nat,
    cookieEpoch: u32,
    cookie: seq<int>,
    acks: AckRing)

  datatype HandshakeState = NewSession | HandshakeRequested | CookieGenerated | Established

  /** The latency accumulators of one direction: lat_*_count, _sum, _var_sum, lat_*, _min, _max. */
  datatype Stats = Stats(count: int, sum: int, sumsq: int, last: int, min: int, max: int) {
    function Add(x: int): Stats {
      Stats(count + 1, sum + x, sumsq + Square(x), x,
            if min > x then x else min,
            if max < x then x else max)
    }
  }

  const NO_STATS := Stats(0, 0, 0, 0, 0x7fff_ffff, 0)

  /** Clock-offset estimates. */
  datatype Clock = Clock(startRtx: u32, startRx: u64, minDiff: i32, nextCycle: u32)

  /** Sequence numbers seen and lost in the receive direction. */
  datatype RxCount = RxCount(nextId: u32, lost: u32)

  /** Our own ack ring and the slot to fill next. */
  datatype AckOut = AckOut(ring: AckRing, next: nat)

  /** Acks the peer sent us: the next id expected, and the statistics, and the ids counted so far. */
  datatype AckIn = AckIn(nextId: u32, stats: Stats, log: seq<u32>)

  datatype View = View(
    usecPerPkt: i32,
    state: HandshakeState,
    retryCount: nat,
    nextTxId: u32,
    nextSend: u64,
    lastRxTime: u32,
    cookieEpoch: u32,
    cookie: seq<int>,
    rx: RxCount,
    clock: Clock,
    out: AckOut,
    acked: AckIn,
    latRx: Stats)
  {
    predicate Valid() {
      out.next < 64
    }
  }

  function FreshView(firstSend: u64, usecPerPkt: i32): View {
    View(usecPerPkt, NewSession, 0, 1, firstSend, 0, 0, [], RxCount(0, 0), Clock(0, 0, 0, 0),
         AckOut(EmptyRing(), 0), AckIn(0, NO_STATS, []), NO_STATS)
  }

  // ---- handle_ack_packet, part by part ------------------------------------

  /** id * usec_per_pkt in uint32 arithmetic. */
  function Span(id: nat, usec: int): u32 {
    U32(Mul(id, usec))
  }

  /** The initial estimate, made from the first packet received. */
  function StartClock(txtime: u32, span: u32, now: u64): Clock {
    Clock(U32(txtime - span), U64(now - span), 0, U32(now + USEC_PER_CYCLE))
  }

  function CountLoss(r: RxCount, id: u32): RxCount {
    var d := Diff(id, r.nextId);
    if d > 0 then RxCount(U32(r.nextId + d + 1), U32(r.lost + d))
    else if d == 0 then RxCount(U32(r.nextId + 1), r.lost)
    else r
  }

  /** next_rx_id == 0 means that nothing was received since the last reset. */
  function ReceiveId(r: RxCount, id: u32): RxCount {
    CountLoss(if r.nextId == 0 then RxCount(id, r.lost) else r, id)
  }

  /** How much later than predicted a packet arrived. */
  function Lateness(startRx: u64, span: u32, now: u64): i32 {
    S32(now - startRx - span)
  }

  /** It is DIFF64(now, start_rxtime + span) assigned to an int32_t. */
  lemma LatenessIsDiff64(startRx: u64, span: u32, now: u64)
    ensures Lateness(startRx, span, now) == S32(U64(now - U64(startRx + span)))
  {
    U64Sub(now, startRx + span);
    S32OfU64(now - startRx - span);
  }

  /** A packet more than 20 us early moves the start of the session back. */
  function FixClock(c: Clock, span: u32, now: u64): Clock {
    if Lateness(c.startRx, span, now) < -20 then c.(startRx := U64(now - span)) else c
  }

  function ClockDiff(c: Clock): i32 {
    Diff(c.startRx, c.startRtx)
  }

  function Rtt(c: Clock, remoteDiff: u32): i32 {
    S32(ClockDiff(c) + remoteDiff)
  }

  function Offset(c: Clock, remoteDiff: u32): i32 {
    Diff(ClockDiff(c), Half(Rtt(c, remoteDiff)))
  }

  /** Receive statistics; a zero clockdiff marks the peer's first packet. */
  function CountRx(s: Stats, c: Clock, remoteDiff: u32, rxdiff: i32): Stats {
    if remoteDiff == 0 then s else s.Add(rxdiff + Half(Rtt(c, remoteDiff)))
  }

  /** Once per cycle the start slides forward by the smallest delay seen. */
  function SlideCycle(c: Clock, rxdiff: i32, now: u64): Clock {
    var m := if rxdiff < c.minDiff then rxdiff else c.minDiff;
    if Diff(now, c.nextCycle) >= 0 then
      Clock(c.startRtx, if m > 0 then U64(c.startRx + m) else c.startRx,
            0x7fff_ffff, U32(c.nextCycle + USEC_PER_CYCLE))
    else c.(minDiff := m)
  }

  /** Schedule an ack for the packet just received: one ring slot is overwritten. */
  function RecordAck(o: AckOut, id: u32, now: u64): AckOut
    requires o.next < 64
  {
    AckOut(o.ring[o.next := AckEntry(id, U32(now))], (o.next + 1) % 64)
  }

  /** What the ack scan needs to know about our transmit schedule and the peer's clock. */
  datatype TxTiming = TxTiming(startTx: u32, usec: i32, offset: i32)

  function Timing(v: View, offset: i32): TxTiming {
    TxTiming(U32(v.nextSend - Span(v.nextTxId, v.usecPerPkt)), v.usecPerPkt, offset)
  }

  /** Transit time of our packet `e.id` to the peer, by the peer's rxtime. */
  function TxDiff(t: TxTiming, e: AckEntry): i32 {
    Diff(e.rxtime + t.offset, t.startTx + Span(e.id, t.usec))
  }

  /** One slot of the peer's ring: empty and already-counted acks are passed over. */
  function ScanSlot(a: AckIn, e: AckEntry, t: TxTiming): AckIn {
    if e.id == 0 || Diff(e.id, a.nextId) < 0 then a
    else AckIn(U32(e.id + 1), a.stats.Add(TxDiff(t, e)), a.log + [e.id])
  }

  function ScanSlots(a: AckIn, slots: seq<AckEntry>, t: TxTiming): AckIn
    decreases |slots|
  {
    if slots == [] then a else ScanSlots(ScanSlot(a, slots[0], t), slots[1..], t)
  }

  /** The ring of a received packet, oldest slot first. */
  function Slots(rx: Packet): seq<AckEntry> {
    seq(64, i requires 0 <= i < 64 => rx.acks[(rx.firstAck + i) % 64])
  }

  /** The clock estimate a packet is judged by: initialised if it is the first, then corrected. */
  function FixedClock(first: bool, c: Clock, txtime: u32, span: u32, now: u64): Clock {
    FixClock(if first then StartClock(txtime, span, now) else c, span, now)
  }

  /** The clock by which packet `rx` is judged in state `v`. */
  function JudgingClock(v: View, rx: Packet, now: u64): Clock {
    FixedClock(v.rx.nextId == 0, v.clock, rx.txtime, Span(rx.id, v.usecPerPkt), now)
  }

  /** How late packet `rx` is found to be. */
  function RxDiff(v: View, rx: Packet, now: u64): i32 {
    Lateness(JudgingClock(v, rx, now).startRx, Span(rx.id, v.usecPerPkt), now)
  }

  /** Loss count, clock estimates and receive statistics. */
  function ReceiveHeader(v: View, rx: Packet, now: u64): View {
    var c := JudgingClock(v, rx, now);
    var rxdiff := RxDiff(v, rx, now);
    v.(rx := ReceiveId(v.rx, rx.id),
       clock := SlideCycle(c, rxdiff, now),
       latRx := CountRx(v.latRx, c, rx.clockdiff, rxdiff))
  }

  /** Our ack ring and the peer's. */
  function ExchangeAcks(v: View, rx: Packet, offset: i32, now: u64): View
    requires v.Valid()
  {
    v.(out := RecordAck(v.out, rx.id, now),
       acked := ScanSlots(v.acked, Slots(rx), Timing(v, offset)),
       lastRxTime := U32(now))
  }

  function HandleAck(v: View, rx: Packet, now: u64): View
    requires v.Valid()
  {
    ExchangeAcks(ReceiveHeader(v, rx, now), rx, Offset(JudgingClock(v, rx, now), rx.clockdiff), now)
  }

  // ---- transmit side ------------------------------------------------------

  function TxPacket(v: View): Packet {
    Packet(v.nextTxId, U32(v.nextSend),
           if v.clock.startRtx != 0 then U32(v.clock.startRx - v.clock.startRtx) else 0,
           U32(v.usecPerPkt), v.rx.lost,
           if v.state == Established then Ack else Handshake,
           v.out.next, v.cookieEpoch, v.cookie, v.out.ring)
  }

  function PrepareTx(v: View): View {
    v.(nextTxId := U32(v.nextTxId + 1))
  }

  function Pow2(n: nat): nat {
    if n == 0 then 1 else 2 * Pow2(n - 1)
  }

  /** Delay before a handshake packet is sent again: handshake_timeout_usec doubled per retry, at most 2^10 fold. */
  function Backoff(retryCount: nat): nat {
    1000000 * Pow2(if retryCount < 10 then retryCount else 10)
  }

  /** send_packet's bookkeeping: the send rate once a cookie is known, else exponential backoff. */
  function AfterSend(v: View, isServer: bool): View {
    if isServer || v.state == Established || v.state == CookieGenerated then
      v.(nextSend := U64(v.nextSend + v.usecPerPkt))
    else
      var retries := if v.state == NewSession then 0 else v.retryCount + 1;
      v.(state := HandshakeRequested,
         retryCount := retries,
         nextSend := U64(v.nextSend + Backoff(retries)),
         nextTxId := U32(v.nextTxId - 1))
  }

  /**
   The mutable session.  Fields that the C++ struct lists one by one are grouped
   in the records above; each assignment replaces the group it belongs to.
   */
  class Session {
    var usecPerPkt: i32
    var state: HandshakeState
    var retryCount: nat
    var nextTxId: u32
    var nextSend: u64
    var lastRxTime: u32
    var cookieEpoch: u32
    var cookie: seq<int>
    var received: RxCount
    var clock: Clock
    var out: AckOut
    var nextRxAckId: u32
    var latTx: Stats
    var latRx: Stats
    ghost var ackLog: seq<u32>

    ghost function State(): View
      reads this
    {
      View(usecPerPkt, state, retryCount, nextTxId, nextSend, lastRxTime, cookieEpoch, cookie,
           received, clock, out, AckIn(nextRxAckId, latTx, ackLog), latRx)
    }

    ghost predicate Valid()
      reads this
    {
      out.next < 64
    }

    constructor (firstSend: u64, usec: i32)
      ensures Valid() && State() == FreshView(firstSend, usec)
    {
      usecPerPkt, state, retryCount := usec, NewSession, 0;
      nextTxId, nextSend, lastRxTime := 1, firstSend, 0;
      cookieEpoch, cookie := 0, [];
      received, clock, out := RxCount(0, 0), Clock(0, 0, 0, 0), AckOut(EmptyRing(), 0);
      nextRxAckId, latTx, latRx := 0, NO_STATS, NO_STATS;
      ackLog := [];
    }

    /** handle_ack_packet. */
    method HandleAckPacket(rx: Packet, now: u64)
      requires Valid()
      modifies this
      ensures Valid() && State() == HandleAck(old(State()), rx, now)
    {
      var offset := HandleHeader(rx, now);
      HandleAcks(rx, offset, now);
    }

    method HandleHeader(rx: Packet, now: u64) returns (offset: i32)
      requires Valid()
      modifies this`received, this`clock, this`latRx
      ensures Valid() && State() == ReceiveHeader(old(State()), rx, now)
      ensures offset == Offset(JudgingClock(old(State()), rx, now), rx.clockdiff)
    {
      var span := Span(rx.id, usecPerPkt);
      clock := FixedClock(received.nextId == 0, clock, rx.txtime, span, now);
      received := ReceiveId(received, rx.id);
      var rxdiff := Lateness(clock.startRx, span, now);
      offset := Offset(clock, rx.clockdiff);
      CountReceived(rx.clockdiff, rxdiff);
      clock := SlideCycle(clock, rxdiff, now);
    }

    method CountReceived(clockdiff: u32, rxdiff: i32)
      modifies this`latRx
      ensures latRx == CountRx(old(latRx), clock, clockdiff, rxdiff)
    {
      var rtt := Rtt(clock, clockdiff);
      if clockdiff != 0 {
        latRx := latRx.Add(rxdiff + Half(rtt));
      }
    }

    method HandleAcks(rx: Packet, offset: i32, now: u64)
      requires Valid()
      modifies this`out, this`nextRxAckId, this`latTx, this`ackLog, this`lastRxTime
      ensures Valid() && State() == ExchangeAcks(old(State()), rx, offset, now)
    {
      out := RecordAck(out, rx.id, now);
      ScanAcks(rx, TxTiming(U32(nextSend - Span(nextTxId, usecPerPkt)), usecPerPkt, offset));
      lastRxTime := U32(now);
    }

    /** The loop over the peer's ack ring. */
    method ScanAcks(rx: Packet, t: TxTiming)
      modifies this`nextRxAckId, this`latTx, this`ackLog
      ensures AckIn(nextRxAckId, latTx, ackLog)
           == ScanSlots(old(AckIn(nextRxAckId, latTx, ackLog)), Slots(rx), t)
    {
      ghost var slots := Slots(rx);
      ghost var final := ScanSlots(AckIn(nextRxAckId, latTx, ackLog), slots, t);
      var i := 0;
      while i < 64
        invariant 0 <= i <= 64
        invariant final == ScanSlots(AckIn(nextRxAckId, latTx, ackLog), slots[i..], t)
      {
        assert slots[i..][1..] == slots[i + 1..];
        var e := rx.acks[(rx.firstAck + i) % 64];
        if e.id != 0 && Diff(e.id, nextRxAckId) >= 0 {
          var txdiff := TxDiff(t, e);
          nextRxAckId := U32(e.id + 1);
          latTx := latTx.Add(txdiff);
          ackLog := ackLog + [e.id];
        }
        i := i + 1;
      }
    }

    /** prepare_tx_packet. */
    method PrepareTxPacket() returns (tx: Packet)
      modifies this`nextTxId
      ensures tx == TxPacket(old(State())) && State() == PrepareTx(old(State()))
    {
      tx := Packet(nextTxId, U32(nextSend),
                   if clock.startRtx != 0 then U32(clock.startRx - clock.startRtx) else 0,
                   U32(usecPerPkt), received.lost,
                   if state == Established then Ack else Handshake,
                   out.next, cookieEpoch, cookie, out.ring);
      nextTxId := U32(nextTxId + 1);
    }

    /** send_packet, once the socket call returned without ECONNREFUSED. */
    method SendPacket(isServer: bool)
      modifies this`state, this`retryCount, this`nextSend, this`nextTxId
      ensures State() == AfterSend(old(State()), isServer)
    {
      if isServer || state == Established || state == CookieGenerated {
        nextSend := U64(nextSend + usecPerPkt);
      } else {
        if state == NewSession {
          state := HandshakeRequested;
          retryCount := 0;
        } else {
          retryCount := retryCount + 1;
        }
        nextSend := U64(nextSend + Backoff(retryCount));
        nextTxId := U32(nextTxId - 1);
      }
    }
  }
}
