/**
 Two established isoping endpoints joined by a network that loses, reorders and
 duplicates packets.  Packets carry truncated ids; the model tags them with the
 true (unbounded) packet number and with the sender's receive history at the
 time of sending, so that claims are about true numbers and hold across
 arbitrarily many wrap-arounds of the 32-bit id.
 */
module IsopingAcks {
  import opened Words
  import opened Collections
  import opened IsopingSession

  // ---- the ack ring as a window on the receive history ----------------------

  /** The id the ring holds for position `j` of the history; 0 before its start. */
  function OldId(seen: seq<nat>, j: int): u32 {
    if 0 <= j < |seen| then U32(seen[j]) else 0
  }

  /** Reading the ring from slot `next` on gives the last 64 entries of `seen`, oldest first. */
  ghost predicate RingOf(ring: AckRing, next: nat, seen: seq<nat>) {
    && next == |seen| % 64
    && forall k :: 0 <= k < 64 ==> SlotAt(ring, next, k).id == OldId(seen, |seen| - 64 + k)
  }

  /** The k-th slot of a ring read from slot `first` on. */
  function SlotAt(ring: AckRing, first: nat, k: nat): AckEntry {
    ring[(first + k) % 64]
  }

  /** The acks still in the ring: those overwritten by fewer than 64 newer ones. */
  function Window(seen: seq<nat>): seq<nat> {
    if |seen| <= 64 then seen else seen[|seen| - 64..]
  }

  lemma RecordKeepsRing(o: AckOut, seen: seq<nat>, n: nat, now: u64)
    requires RingOf(o.ring, o.next, seen)
    ensures RingOf(RecordAck(o, U32(n), now).ring, RecordAck(o, U32(n), now).next, seen + [n])
  {
    var o' := RecordAck(o, U32(n), now);
    var seen' := seen + [n];
    NextSlot(|seen|, 0);
    forall k: nat | k < 64
      ensures SlotAt(o'.ring, o'.next, k).id == OldId(seen', |seen'| - 64 + k)
    {
      RecordedSlot(o, U32(n), now, k);
      if k < 63 { assert OldId(seen', |seen'| - 64 + k) == OldId(seen, |seen| - 64 + (k + 1)); }
    }
  }

  /** Read from its new start, the ring lost its oldest slot and gained one at the end. */
  lemma RecordedSlot(o: AckOut, id: u32, now: u64, k: nat)
    requires o.next < 64 && k < 64
    ensures var o' := RecordAck(o, id, now);
            && (k < 63 ==> SlotAt(o'.ring, o'.next, k) == SlotAt(o.ring, o.next, k + 1))
            && (k == 63 ==> SlotAt(o'.ring, o'.next, k) == AckEntry(id, U32(now)))
  {
    NextSlot(o.next, k);
    if k < 63 { OtherSlot(o.next, k + 1); } else { Mod64Multiple(o.next, 1); }
  }

  /** Slots counted from the next index on. */
  lemma NextSlot(next: nat, k: nat)
    ensures ((next + 1) % 64 + k) % 64 == (next + k + 1) % 64 && (next % 64 + 1) % 64 == (next + 1) % 64
  {
    AddMod64(next + 1, k);
    AddMod64(next, 1);
  }

  lemma AddMod64(a: nat, k: nat)
    ensures (a % 64 + k) % 64 == (a + k) % 64
  {
    Mod64Multiple(a % 64 + k, a / 64);
    assert a + k == 64 * (a / 64) + (a % 64 + k);
  }

  lemma Mod64Multiple(x: nat, q: nat)
    ensures (64 * q + x) % 64 == x % 64
  {
  }

  lemma OtherSlot(next: nat, k: nat)
    requires next < 64 && 0 < k < 64
    ensures (next + k) % 64 != next
  {
  }

  // ---- counting acks by true number -----------------------------------------

  /** The next true number expected and the true numbers counted so far. */
  datatype Count = Count(next: nat, log: seq<nat>)

  /** A number whose wire id is 0 looks like an empty slot and is never counted. */
  function CountOne(c: Count, n: nat): Count {
    if U32(n) == 0 || n < c.next then c else Count(n + 1, c.log + [n])
  }

  function CountAll(c: Count, ns: seq<nat>): Count
    decreases |ns|
  {
    if ns == [] then c else CountAll(CountOne(c, ns[0]), ns[1..])
  }

  /** Less than 2^31 apart, as isoping.h demands of any two values it subtracts. */
  predicate Near(x: int, y: int) {
    -0x8000_0000 <= x - y < 0x8000_0000
  }

  ghost predicate InWindow(next: nat, ns: seq<nat>) {
    && (forall i :: 0 <= i < |ns| ==> Near(ns[i], next))
    && (forall i, j :: 0 <= i < j < |ns| ==> Near(ns[j], ns[i] + 1))
  }

  /** The counted log is strictly increasing and `next` is just past its end. */
  ghost predicate CountOk(c: Count) {
    && Increasing(c.log)
    && c.next == if c.log == [] then 0 else c.log[|c.log| - 1] + 1
  }

  /** The wire-level ack state stands for the true count. */
  ghost predicate Stands(a: AckIn, c: Count) {
    && a.nextId == U32(c.next)
    && a.stats.count == |c.log|
    && |a.log| == |c.log|
    && forall i :: 0 <= i < |c.log| ==> a.log[i] == U32(c.log[i])
  }

  lemma CountOneKeeps(c: Count, n: nat)
    requires CountOk(c)
    ensures CountOk(CountOne(c, n))
  {
    var c' := CountOne(c, n);
    if c' != c {
      forall i, j | 0 <= i < j < |c'.log| ensures c'.log[i] < c'.log[j] {
        if j == |c.log| && i < |c.log| - 1 {
          assert c.log[i] < c.log[|c.log| - 1];
        }
      }
    }
  }

  lemma ScanSlotRefines(a: AckIn, e: AckEntry, t: TxTiming, c: Count, n: nat)
    requires Stands(a, c) && e.id == U32(n) && Near(n, c.next)
    ensures Stands(ScanSlot(a, e, t), CountOne(c, n))
  {
    assert Diff(e.id, a.nextId) == n - c.next by { DiffExact(n, c.next); }
    if U32(n) != 0 && n >= c.next {
      CountedStands(a, c, n, TxDiff(t, e));
    }
  }

  lemma CountedStands(a: AckIn, c: Count, n: nat, txdiff: int)
    requires Stands(a, c)
    ensures Stands(AckIn(U32(U32(n) + 1), a.stats.Add(txdiff), a.log + [U32(n)]), Count(n + 1, c.log + [n]))
  {
    U32Add(n, 1);
  }

  /** Scanning empty slots followed by the wire ids of `ns` counts exactly as CountAll does. */
  lemma {:induction false} ScanRefines(a: AckIn, slots: seq<AckEntry>, t: TxTiming, c: Count, ns: seq<nat>)
    requires Stands(a, c) && CountOk(c) && InWindow(c.next, ns)
    requires |ns| <= |slots|
    requires forall k :: 0 <= k < |slots| ==>
      slots[k].id == OldId(ns, k - (|slots| - |ns|))
    ensures Stands(ScanSlots(a, slots, t), CountAll(c, ns))
    ensures CountOk(CountAll(c, ns))
    decreases |slots|
  {
    if slots == [] {
    } else if |ns| < |slots| {
      assert slots[0].id == OldId(ns, 0 - (|slots| - |ns|)) == 0;
      assert ScanSlot(a, slots[0], t) == a;
      ScanRefines(a, slots[1..], t, c, ns);
    } else {
      assert slots[0].id == OldId(ns, 0);
      ScanSlotRefines(a, slots[0], t, c, ns[0]);
      CountOneKeeps(c, ns[0]);
      var c' := CountOne(c, ns[0]);
      forall i | 0 <= i < |ns[1..]| ensures Near(ns[1..][i], c'.next) {
        assert ns[1..][i] == ns[i + 1];
      }
      ScanRefines(ScanSlot(a, slots[0], t), slots[1..], t, c', ns[1..]);
    }
  }

  /** A ring that stands for `seen`, scanned from its first slot, counts Window(seen). */
  lemma ScanRing(a: AckIn, rx: Packet, t: TxTiming, c: Count, seen: seq<nat>)
    requires Stands(a, c) && CountOk(c)
    requires RingOf(rx.acks, rx.firstAck, seen) && InWindow(c.next, Window(seen))
    ensures Stands(ScanSlots(a, Slots(rx), t), CountAll(c, Window(seen)))
    ensures CountOk(CountAll(c, Window(seen)))
  {
    var w := Window(seen);
    var slots := Slots(rx);
    forall k | 0 <= k < |slots| ensures slots[k].id == OldId(w, k - (|slots| - |w|)) {
      assert slots[k] == SlotAt(rx.acks, rx.firstAck, k);
      assert slots[k].id == OldId(seen, |seen| - 64 + k);
    }
    ScanRefines(a, slots, t, c, w);
  }

  /** Counting only extends the log, by members of `ns`. */
  lemma {:induction false} CountAllExtends(c: Count, ns: seq<nat>)
    ensures c.log <= CountAll(c, ns).log
    ensures forall n :: n in CountAll(c, ns).log ==> n in c.log || n in ns
    decreases |ns|
  {
    if ns != [] {
      CountAllExtends(CountOne(c, ns[0]), ns[1..]);
    }
  }

  /** On increasing numbers nothing countable and not yet passed is missed. */
  lemma {:induction false} CountAllComplete(c: Count, ns: seq<nat>, n: nat)
    requires Increasing(ns) && n in ns && U32(n) != 0 && n >= c.next
    ensures n in CountAll(c, ns).log
    decreases |ns|
  {
    var c' := CountOne(c, ns[0]);
    if n == ns[0] {
      CountAllExtends(c', ns[1..]);
      assert c'.log[|c.log|] == n;
      assert n in c'.log;
    } else {
      CountAllComplete(c', ns[1..], n);
    }
  }

  // ---- the two-party system ---------------------------------------------------

  datatype Side = Client | Server

  function Peer(x: Side): Side {
    if x == Client then Server else Client
  }

  /**
   One end: its session, how many packets it has sent, the true numbers it has
   received in order of arrival, the history whose acks it last processed, and
   the true numbers of its own packets that it has counted as acked.
   */
  datatype Endpoint = Endpoint(s: View, sent: nat, seen: seq<nat>, acked: seq<nat>, count: Count)

  datatype Flight = Flight(p: Packet, number: nat, seen: seq<nat>)

  /** A value for each side. */
  datatype Pair<T> = Pair(client: T, server: T) {
    function At(x: Side): T {
      if x == Client then client else server
    }

    function With(x: Side, t: T): Pair<T> {
      if x == Client then Pair(t, server) else Pair(client, t)
    }
  }

  /** `net.At(x)` holds the packets on their way to side `x`, oldest first. */
  datatype System = System(ep: Pair<Endpoint>, net: Pair<seq<Flight>>)

  datatype Step =
    | Transmit(from: Side)
    | Deliver(to: Side, k: nat, again: bool, now: u64)   // `again`: the packet may arrive once more
    | Drop(to: Side, k: nat)

  ghost predicate WellFormed(sys: System) {
    forall x: Side :: sys.ep.At(x).s.Valid() && sys.ep.At(x).s.state == Established
  }

  ghost predicate Enabled(sys: System, st: Step) {
    && WellFormed(sys)
    && match st
       case Transmit(_) => true
       case Deliver(x, k, _, _) =>
         k < |sys.net.At(x)| && InWindow(sys.ep.At(x).count.next, Window(sys.net.At(x)[k].seen))
       case Drop(x, k) => k < |sys.net.At(x)|
  }

  function TransmitFrom(e: Endpoint, isServer: bool): Endpoint {
    e.(s := AfterSend(PrepareTx(e.s), isServer), sent := e.sent + 1)
  }

  function FlightOf(e: Endpoint): Flight {
    Flight(TxPacket(e.s), e.sent + 1, e.seen)
  }

  function DeliverTo(e: Endpoint, f: Flight, now: u64): Endpoint
    requires e.s.Valid()
  {
    e.(s := HandleAck(e.s, f.p, now),
       seen := e.seen + [f.number],
       acked := f.seen,
       count := CountAll(e.count, Window(f.seen)))
  }

  ghost function Next(sys: System, st: Step): System
    requires Enabled(sys, st)
  {
    match st
    case Transmit(x) =>
      System(sys.ep.With(x, TransmitFrom(sys.ep.At(x), x == Server)),
             sys.net.With(Peer(x), sys.net.At(Peer(x)) + [FlightOf(sys.ep.At(x))]))
    case Deliver(x, k, again, now) =>
      System(sys.ep.With(x, DeliverTo(sys.ep.At(x), sys.net.At(x)[k], now)),
             if again then sys.net else sys.net.With(x, Without(sys.net.At(x), k)))
    case Drop(x, k) =>
      sys.(net := sys.net.With(x, Without(sys.net.At(x), k)))
  }

  ghost predicate NextStep(sys: System, st: Step, sys': System) {
    Enabled(sys, st) && sys' == Next(sys, st)
  }

  /** `ss[i + 1]` follows from `ss[i]` by step `steps[i]`. */
  ghost predicate IsRun(ss: seq<System>, steps: seq<Step>) {
    && |ss| == |steps| + 1
    && Init(ss[0])
    && forall i :: 0 <= i < |steps| ==> NextStep(ss[i], steps[i], ss[i + 1])
  }

  ghost predicate FreshEndpoint(e: Endpoint) {
    && e.s == FreshView(e.s.nextSend, e.s.usecPerPkt).(state := Established)
    && e.sent == 0 && e.seen == [] && e.acked == [] && e.count == Count(0, [])
  }

  ghost predicate Init(sys: System) {
    forall x: Side :: FreshEndpoint(sys.ep.At(x)) && sys.net.At(x) == []
  }

  // ---- invariant of every run -------------------------------------------------

  ghost predicate EndpointOk(e: Endpoint) {
    && e.s.Valid() && e.s.state == Established
    && e.s.nextTxId == U32(e.sent + 1)
    && RingOf(e.s.out.ring, e.s.out.next, e.seen)
    && Stands(e.s.acked, e.count) && CountOk(e.count)
  }

  /** `f` was sent by `from`, and its ring is a snapshot of what `from` had received. */
  ghost predicate FlightOk(f: Flight, from: Endpoint) {
    && 1 <= f.number <= from.sent && f.p.id == U32(f.number)
    && f.seen <= from.seen
    && RingOf(f.p.acks, f.p.firstAck, f.seen)
  }

  ghost predicate SideOk(e: Endpoint, peer: Endpoint, net: seq<Flight>) {
    && EndpointOk(e)
    && (forall i :: 0 <= i < |net| ==> FlightOk(net[i], peer))
    && (forall i :: 0 <= i < |e.seen| ==> 1 <= e.seen[i] <= peer.sent)
    && (forall n :: n in e.count.log ==> n in peer.seen)
  }

  ghost predicate Inv(sys: System) {
    forall x: Side :: SideOk(sys.ep.At(x), sys.ep.At(Peer(x)), sys.net.At(x))
  }

  /** What a transmission does, whatever the session computes. */
  ghost predicate Transmitted(e: Endpoint, f: Flight, e': Endpoint) {
    && EndpointOk(e')
    && e' == e.(s := e'.s, sent := e.sent + 1)
    && f.number == e.sent + 1 && f.seen == e.seen && FlightOk(f, e')
  }

  /** What a delivery does, whatever the session computes. */
  ghost predicate Delivered(e: Endpoint, f: Flight, e': Endpoint) {
    && EndpointOk(e')
    && e' == Endpoint(e'.s, e.sent, e.seen + [f.number], f.seen, CountAll(e.count, Window(f.seen)))
  }

  lemma TransmitSpec(e: Endpoint, isServer: bool)
    requires EndpointOk(e)
    ensures Transmitted(e, FlightOf(e), TransmitFrom(e, isServer))
  {
    U32Add(e.sent + 1, 1);
    assert AfterSend(PrepareTx(e.s), isServer).nextTxId == U32(e.sent + 2);
  }

  lemma DeliverSpec(e: Endpoint, f: Flight, peer: Endpoint, now: u64)
    requires EndpointOk(e) && FlightOk(f, peer) && InWindow(e.count.next, Window(f.seen))
    ensures Delivered(e, f, DeliverTo(e, f, now))
  {
    var h := ReceiveHeader(e.s, f.p, now);
    var offset := Offset(JudgingClock(e.s, f.p, now), f.p.clockdiff);
    ExchangeSpec(e, h, f, peer, offset, now);
  }

  /** The header half of the handler touches neither ring, so it may produce any such `h`. */
  lemma ExchangeSpec(e: Endpoint, h: View, f: Flight, peer: Endpoint, offset: i32, now: u64)
    requires EndpointOk(e) && FlightOk(f, peer) && InWindow(e.count.next, Window(f.seen))
    requires h.out == e.s.out && h.acked == e.s.acked && h.nextTxId == e.s.nextTxId && h.state == e.s.state
    ensures EndpointOk(Endpoint(ExchangeAcks(h, f.p, offset, now), e.sent, e.seen + [f.number], f.seen,
                                CountAll(e.count, Window(f.seen))))
  {
    RecordKeepsRing(h.out, e.seen, f.number, now);
    ScanRing(h.acked, f.p, Timing(h, offset), e.count, f.seen);
  }

  lemma TransmitKeepsSides(e: Endpoint, peer: Endpoint, toE: seq<Flight>, toPeer: seq<Flight>,
                           f: Flight, e': Endpoint)
    requires SideOk(e, peer, toE) && SideOk(peer, e, toPeer) && Transmitted(e, f, e')
    ensures SideOk(e', peer, toE) && SideOk(peer, e', toPeer + [f])
  {
  }

  lemma DeliverKeepsSides(e: Endpoint, peer: Endpoint, toE: seq<Flight>, toPeer: seq<Flight>,
                          f: Flight, e': Endpoint)
    requires SideOk(e, peer, toE) && SideOk(peer, e, toPeer) && FlightOk(f, peer) && Delivered(e, f, e')
    ensures SideOk(e', peer, toE) && SideOk(peer, e', toPeer)
  {
    CountAllExtends(e.count, Window(f.seen));
    assert forall n :: n in Window(f.seen) ==> n in peer.seen;
    forall n | n in peer.count.log ensures n in e'.seen {
      assert n in e.seen;
    }
  }

  lemma WithoutKeepsSide(e: Endpoint, peer: Endpoint, net: seq<Flight>, k: nat)
    requires SideOk(e, peer, net) && k < |net|
    ensures SideOk(e, peer, Without(net, k))
  {
    var net' := Without(net, k);
    forall i | 0 <= i < |net'| ensures FlightOk(net'[i], peer) {
      assert net'[i] == net[if i < k then i else i + 1];
    }
  }

  lemma NextKeepsInv(sys: System, st: Step)
    requires Inv(sys) && Enabled(sys, st)
    ensures Inv(Next(sys, st))
  {
    var x := match st case Transmit(x) => x case Deliver(x, _, _, _) => x case Drop(x, _) => x;
    var y := Peer(x);
    var e, peer, toE, toPeer := sys.ep.At(x), sys.ep.At(y), sys.net.At(x), sys.net.At(y);
    assert SideOk(e, peer, toE) && SideOk(peer, e, toPeer);
    match st {
      case Transmit(_) =>
        TransmitSpec(e, x == Server);
        TransmitKeepsSides(e, peer, toE, toPeer, FlightOf(e), TransmitFrom(e, x == Server));
      case Deliver(_, k, again, now) =>
        DeliverSpec(e, toE[k], peer, now);
        var e' := DeliverTo(e, toE[k], now);
        DeliverKeepsSides(e, peer, toE, toPeer, toE[k], e');
        WithoutKeepsSide(e', peer, toE, k);
      case Drop(_, k) =>
        WithoutKeepsSide(e, peer, toE, k);
    }
  }

  lemma InitInv(sys: System)
    requires Init(sys)
    ensures Inv(sys)
  {
    forall x: Side ensures SideOk(sys.ep.At(x), sys.ep.At(Peer(x)), sys.net.At(x)) {
      assert FreshEndpoint(sys.ep.At(x));
    }
  }

  lemma {:induction false} RunKeepsInv(ss: seq<System>, steps: seq<Step>, i: nat)
    requires IsRun(ss, steps) && i < |ss|
    ensures Inv(ss[i])
  {
    if i == 0 {
      InitInv(ss[0]);
    } else {
      RunKeepsInv(ss, steps, i - 1);
      assert NextStep(ss[i - 1], steps[i - 1], ss[i - 1 + 1]);
      NextKeepsInv(ss[i - 1], steps[i - 1]);
    }
  }

  /**
   At most once, over every run: whatever the network loses, reorders or
   duplicates, the acks a side counts are strictly increasing true numbers of
   packets that it sent and that the peer received, and lat_tx_count is their number.
   */
  lemma AckedAtMostOnce(ss: seq<System>, steps: seq<Step>, i: nat, x: Side)
    requires IsRun(ss, steps) && i < |ss|
    ensures var e, peer := ss[i].ep.At(x), ss[i].ep.At(Peer(x));
            && Increasing(e.count.log)
            && e.s.acked.stats.count == |e.count.log|
            && forall n :: n in e.count.log ==> n in peer.seen && 1 <= n <= e.sent
  {
    RunKeepsInv(ss, steps, i);
    var e, peer := ss[i].ep.At(x), ss[i].ep.At(Peer(x));
    assert SideOk(e, peer, ss[i].net.At(x));
    assert SideOk(peer, e, ss[i].net.At(Peer(x)));
  }

  // ---- exactly once over an order-preserving network --------------------------

  predicate InOrder(st: Step) {
    st.Deliver? ==> st.k == 0 && !st.again
  }

  ghost predicate InOrderRun(ss: seq<System>, steps: seq<Step>) {
    IsRun(ss, steps) && forall i :: 0 <= i < |steps| ==> InOrder(steps[i])
  }

  /** Everything countable in the last processed ring has been counted. */
  ghost predicate AllCounted(e: Endpoint) {
    && (forall n :: n in Window(e.acked) && U32(n) != 0 ==> n in e.count.log)
    && (forall n :: n in e.count.log ==> n in e.acked)
  }

  ghost predicate FifoOk(e: Endpoint, peer: Endpoint, net: seq<Flight>) {
    && Increasing(e.seen) && AllCounted(e)
    && e.acked <= peer.seen
    && (forall i :: 0 <= i < |net| ==> e.acked <= net[i].seen <= peer.seen)
    && (forall i, j :: 0 <= i < j < |net| ==> net[i].seen <= net[j].seen && net[i].number < net[j].number)
    && (forall i, j :: 0 <= i < |e.seen| && 0 <= j < |net| ==> e.seen[i] < net[j].number)
  }

  ghost predicate Fifo(sys: System) {
    Inv(sys) && forall x: Side :: FifoOk(sys.ep.At(x), sys.ep.At(Peer(x)), sys.net.At(x))
  }

  /** Delivering a later snapshot of an increasing history leaves nothing countable out. */
  lemma DeliverCountsAll(e: Endpoint, seen: seq<nat>)
    requires Increasing(seen) && e.acked <= seen && AllCounted(e) && CountOk(e.count)
    ensures var log := CountAll(e.count, Window(seen)).log;
            && (forall n :: n in Window(seen) && U32(n) != 0 ==> n in log)
            && (forall n :: n in log ==> n in seen)
  {
    var c := e.count;
    var w := Window(seen);
    CountAllExtends(c, w);
    forall n | n in w && U32(n) != 0 ensures n in CountAll(c, w).log {
      if n >= c.next {
        CountAllComplete(c, w, n);
      } else {
        PassedIsCounted(e, seen, n);
      }
    }
    assert forall n :: n in e.acked ==> n in seen;
  }

  /** A number below `next` in the new ring was already in the ring processed before. */
  lemma PassedIsCounted(e: Endpoint, seen: seq<nat>, n: nat)
    requires Increasing(seen) && e.acked <= seen && AllCounted(e) && CountOk(e.count)
    requires n in Window(seen) && U32(n) != 0 && n < e.count.next
    ensures n in e.count.log
  {
    var w := Window(seen);
    var m := e.count.log[|e.count.log| - 1];
    assert m in e.count.log && m in e.acked;
    var i :| 0 <= i < |e.acked| && e.acked[i] == m;
    var j :| 0 <= j < |w| && w[j] == n;
    var q := |seen| - |w| + j;
    assert seen[i] == m && seen[q] == n;
    assert q <= i;
    InEarlierWindow(e.acked, seen, q);
  }

  /** What is in the window of a longer history, and in the shorter one, is in the window of the shorter one. */
  lemma InEarlierWindow(acked: seq<nat>, seen: seq<nat>, q: nat)
    requires acked <= seen && |seen| - |Window(seen)| <= q < |acked|
    ensures seen[q] in Window(acked)
  {
    assert Window(acked)[q - (|acked| - |Window(acked)|)] == seen[q];
  }

  lemma TransmitKeepsFifo(e: Endpoint, peer: Endpoint, toE: seq<Flight>, toPeer: seq<Flight>,
                          f: Flight, e': Endpoint)
    requires SideOk(peer, e, toPeer) && Transmitted(e, f, e')
    requires FifoOk(e, peer, toE) && FifoOk(peer, e, toPeer)
    ensures FifoOk(e', peer, toE) && FifoOk(peer, e', toPeer + [f])
  {
  }

  lemma DeliverKeepsFifo(e: Endpoint, peer: Endpoint, toE: seq<Flight>, toPeer: seq<Flight>, e': Endpoint)
    requires EndpointOk(e) && |toE| > 0 && Delivered(e, toE[0], e')
    requires FifoOk(e, peer, toE) && FifoOk(peer, e, toPeer)
    ensures FifoOk(e', peer, toE[1..]) && FifoOk(peer, e', toPeer)
  {
    var f := toE[0];
    assert Increasing(f.seen);
    DeliverCountsAll(e, f.seen);
    assert e'.count == CountAll(e.count, Window(f.seen));
    assert AllCounted(e');
    assert Increasing(e'.seen);
    forall i | 0 <= i < |toE[1..]| ensures e'.acked <= toE[1..][i].seen <= peer.seen {
      assert toE[1..][i] == toE[i + 1];
    }
  }

  lemma WithoutKeepsFifo(e: Endpoint, peer: Endpoint, net: seq<Flight>, k: nat)
    requires FifoOk(e, peer, net) && k < |net|
    ensures FifoOk(e, peer, Without(net, k))
  {
    var net' := Without(net, k);
    assert forall i :: 0 <= i < |net'| ==> net'[i] == net[if i < k then i else i + 1];
  }

  lemma FifoNext(sys: System, st: Step)
    requires Fifo(sys) && Enabled(sys, st) && InOrder(st)
    ensures Fifo(Next(sys, st))
  {
    NextKeepsInv(sys, st);
    match st {
      case Transmit(x) => FifoTransmit(sys, x);
      case Deliver(x, k, again, now) =>
        var e, toE := sys.ep.At(x), sys.net.At(x);
        assert SideOk(e, sys.ep.At(Peer(x)), toE);
        DeliverSpec(e, toE[0], sys.ep.At(Peer(x)), now);
        FifoDelivered(sys, x, DeliverTo(e, toE[0], now));
      case Drop(x, k) =>
        WithoutKeepsFifo(sys.ep.At(x), sys.ep.At(Peer(x)), sys.net.At(x), k);
    }
  }

  lemma FifoTransmit(sys: System, x: Side)
    requires Fifo(sys) && Enabled(sys, Transmit(x))
    ensures var sys' := Next(sys, Transmit(x));
            forall y: Side :: FifoOk(sys'.ep.At(y), sys'.ep.At(Peer(y)), sys'.net.At(y))
  {
    var e, peer, toE, toPeer := sys.ep.At(x), sys.ep.At(Peer(x)), sys.net.At(x), sys.net.At(Peer(x));
    assert SideOk(e, peer, toE) && SideOk(peer, e, toPeer);
    assert FifoOk(e, peer, toE) && FifoOk(peer, e, toPeer);
    TransmitSpec(e, x == Server);
    TransmitKeepsFifo(e, peer, toE, toPeer, FlightOf(e), TransmitFrom(e, x == Server));
  }

  lemma FifoDelivered(sys: System, x: Side, e': Endpoint)
    requires Fifo(sys) && |sys.net.At(x)| > 0 && Delivered(sys.ep.At(x), sys.net.At(x)[0], e')
    ensures var ep', net' := sys.ep.With(x, e'), sys.net.With(x, Without(sys.net.At(x), 0));
            forall y: Side :: FifoOk(ep'.At(y), ep'.At(Peer(y)), net'.At(y))
  {
    var e, peer, toE, toPeer := sys.ep.At(x), sys.ep.At(Peer(x)), sys.net.At(x), sys.net.At(Peer(x));
    assert SideOk(e, peer, toE);
    assert FifoOk(e, peer, toE) && FifoOk(peer, e, toPeer);
    DeliverKeepsFifo(e, peer, toE, toPeer, e');
    assert Without(toE, 0) == toE[1..];
  }

  /** No step ever removes a number from a log. */
  lemma LogGrows(sys: System, st: Step, x: Side)
    requires Enabled(sys, st)
    ensures sys.ep.At(x).count.log <= Next(sys, st).ep.At(x).count.log
  {
    if st.Deliver? && st.to == x {
      CountAllExtends(sys.ep.At(x).count, Window(sys.net.At(x)[st.k].seen));
    }
  }

  lemma FreshFifo(e: Endpoint, peer: Endpoint)
    requires FreshEndpoint(e) && FreshEndpoint(peer)
    ensures FifoOk(e, peer, [])
  {
  }

  lemma InitFifo(sys: System)
    requires Init(sys)
    ensures Fifo(sys)
  {
    InitInv(sys);
    forall y: Side ensures FifoOk(sys.ep.At(y), sys.ep.At(Peer(y)), sys.net.At(y)) {
      FreshFifo(sys.ep.At(y), sys.ep.At(Peer(y)));
    }
  }

  lemma FifoStep(sys: System, st: Step, sys': System)
    requires Fifo(sys) && NextStep(sys, st, sys') && InOrder(st)
    ensures Fifo(sys')
  {
    FifoNext(sys, st);
  }

  lemma FifoRunStep(ss: seq<System>, steps: seq<Step>, i: nat)
    requires InOrderRun(ss, steps) && i < |steps| && Fifo(ss[i])
    ensures Fifo(ss[i + 1])
  {
    FifoStep(ss[i], steps[i], ss[i + 1]);
  }

  lemma {:induction false} RunKeepsFifo(ss: seq<System>, steps: seq<Step>, i: nat)
    requires InOrderRun(ss, steps) && i < |ss|
    ensures Fifo(ss[i])
  {
    if i == 0 {
      InitFifo(ss[0]);
    } else {
      RunKeepsFifo(ss, steps, i - 1);
      FifoRunStep(ss, steps, i - 1);
    }
  }

  lemma {:induction false} RunLogGrows(ss: seq<System>, steps: seq<Step>, i: nat, j: nat, x: Side)
    requires IsRun(ss, steps) && i <= j < |ss|
    ensures ss[i].ep.At(x).count.log <= ss[j].ep.At(x).count.log
  {
    if i < j {
      RunLogGrows(ss, steps, i, j - 1, x);
      assert NextStep(ss[j - 1], steps[j - 1], ss[j - 1 + 1]);
      LogGrows(ss[j - 1], steps[j - 1], x);
    }
  }

  /**
   Exactly once: over a network that loses packets but keeps their order, let a
   packet reach side `x` in step `i`, and let `n` be among the last 64 numbers the
   sender of that packet had received when it sent it.  Then at every later state
   `x` has counted `n` exactly once (numbers that are 0 modulo 2^32 cannot be told
   from an empty slot and are excluded).
   */
  lemma AckedExactlyOnce(ss: seq<System>, steps: seq<Step>, i: nat, j: nat, x: Side, n: nat)
    requires InOrderRun(ss, steps) && i < j < |ss|
    requires steps[i].Deliver? && steps[i].to == x && |ss[i].net.At(x)| > 0
    requires n in Window(ss[i].net.At(x)[0].seen) && U32(n) != 0
    ensures multiset(ss[j].ep.At(x).count.log)[n] == 1
  {
    RunKeepsFifo(ss, steps, i + 1);
    DeliveryCounts(ss[i], steps[i], ss[i + 1], x, n);
    RunLogGrows(ss, steps, i + 1, j, x);
    AckedAtMostOnce(ss, steps, j, x);
    IncreasingOnce(ss[j].ep.At(x).count.log, n);
  }

  lemma DeliveryCounts(sys: System, st: Step, sys': System, x: Side, n: nat)
    requires NextStep(sys, st, sys') && st.Deliver? && st.to == x && InOrder(st) && Fifo(sys')
    requires |sys.net.At(x)| > 0 && n in Window(sys.net.At(x)[0].seen) && U32(n) != 0
    ensures n in sys'.ep.At(x).count.log
  {
    var e' := sys'.ep.At(x);
    assert FifoOk(e', sys'.ep.At(Peer(x)), sys'.net.At(x));
    assert e'.acked == sys.net.At(x)[0].seen;
  }

  lemma {:induction false} IncreasingOnce(ns: seq<nat>, n: nat)
    requires Increasing(ns)
    ensures multiset(ns)[n] == if n in ns then 1 else 0
    decreases |ns|
  {
    if ns != [] {
      var k := |ns| - 1;
      assert ns == ns[..k] + [ns[k]];
      IncreasingOnce(ns[..k], n);
    }
  }
}
