/**
 cmds/isoping.cc: the stateless cookie handshake.  A server keeps no session for
 a client until the client has echoed a cookie, which is a hash of a rotating
 secret, the send rate and the client's address.  The hash is a parameter, and
 fresh secrets and the wall-clock epoch are inputs.
 */
module IsopingHandshake {
  import opened Words
  import opened Collections
  import opened IsopingSession

  type Addr = nat
  type Secret = seq<int>
  type Cookie = seq<int>

  /** The keyed digest: secret, usec_per_pkt, remote address. */
  type Digest = (Secret, u32, Addr) -> Cookie

  /** The Sessions object as a value.  `sends` is the queue of pending transmissions. */
  datatype Table = Table(
    epoch: u32,
    secret: Secret,
    prevEpoch: u32,
    prevSecret: Secret,
    lastUpdate: u32,
    sessions: map<Addr, View>,
    sends: seq<Addr>)

  // ---- cookies ------------------------------------------------------------------

  /** ValidateCookie. */
  predicate Validates(t: Table, digest: Digest, p: Packet, addr: Addr) {
    && (p.cookieEpoch == t.epoch || p.cookieEpoch == t.prevEpoch)
    && p.cookie == digest(if p.cookieEpoch == t.prevEpoch then t.prevSecret else t.secret, p.usecPerPkt, addr)
  }

  /** RotateCookieSecrets. */
  function Rotate(t: Table, newEpoch: u32, newSecret: Secret): Table {
    t.(prevEpoch := t.epoch, prevSecret := t.secret, epoch := newEpoch, secret := newSecret)
  }

  /** MaybeRotateCookieSecrets on a server: `wall` is time(NULL) >> 6. */
  function MaybeRotate(t: Table, now: u64, wall: u32, newSecret: Secret): Table {
    if U64(now - t.lastUpdate) > 1000000 then
      (if wall != t.epoch then Rotate(t, wall, newSecret) else t).(lastUpdate := U32(now))
    else t
  }

  /** send_initial_handshake_reply: the rate is the slower of the two sides'. */
  function CookieReply(t: Table, digest: Digest, rx: Packet, addr: Addr, minUsec: u32, now: u64): Packet {
    var usec := if rx.usecPerPkt > minUsec then rx.usecPerPkt else minUsec;
    Packet(rx.id, U32(now), U32(now - rx.txtime), usec, 0, Handshake, 0, t.epoch,
           digest(t.secret, usec, addr), EmptyRing())
  }

  /** The reply proposes the slower of the two rates, with the cookie that the server accepts for it. */
  lemma ReplyTakesSlowerRate(t: Table, digest: Digest, rx: Packet, addr: Addr, minUsec: u32, now: u64)
    ensures var tx := CookieReply(t, digest, rx, addr, minUsec, now);
            && tx.usecPerPkt >= rx.usecPerPkt && tx.usecPerPkt >= minUsec
            && (tx.usecPerPkt == rx.usecPerPkt || tx.usecPerPkt == minUsec)
            && tx.packetType == Handshake && tx.id == rx.id && tx.clockdiff == U32(now - rx.txtime)
            && tx.cookieEpoch == t.epoch && tx.cookie == digest(t.secret, tx.usecPerPkt, addr)
  {
  }

  // ---- server ---------------------------------------------------------------------

  /** Sessions::NewSession: an existing entry is kept, the send is queued either way. */
  function AddSession(t: Table, firstSend: u64, usec: u32, addr: Addr): Table {
    t.(sessions := if addr in t.sessions then t.sessions
                   else t.sessions[addr := FreshView(firstSend, S32(usec))],
       sends := t.sends + [addr])
  }

  ghost predicate TableValid(t: Table) {
    forall a :: a in t.sessions ==> t.sessions[a].Valid()
  }

  /** The handshake packet that completes a handshake counts as an ack packet with no acks. */
  function AsEmptyAck(rx: Packet): Packet {
    rx.(packetType := Ack, acks := EmptyRing())
  }

  /** handle_new_client_handshake_packet, with the reply it sends, if any. */
  function ClientHandshake(t: Table, digest: Digest, rx: Packet, addr: Addr, minUsec: u32, now: u64)
      : (r: (Table, Option<Packet>))
    requires TableValid(t)
    ensures TableValid(r.0)
  {
    if rx.cookieEpoch == 0 then
      (t.(sessions := t.sessions - {addr}), Some(CookieReply(t, digest, rx, addr, minUsec, now)))
    else if !Validates(t, digest, rx, addr) then (t, None)
    else
      var t' := AddSession(t, U64(now + 10 * 1000), rx.usecPerPkt, addr);
      var s := t'.sessions[addr].(state := Established);
      (t'.(sessions := t'.sessions[addr := HandleAck(s, AsEmptyAck(rx), now)]), None)
  }

  // ---- client -----------------------------------------------------------------------

  /** handle_server_handshake_packet on the client's only session. */
  function TakeCookie(v: View, rx: Packet, now: u64): View {
    v.(nextTxId := 1, rx := v.rx.(nextId := 0), cookieEpoch := rx.cookieEpoch, cookie := rx.cookie,
       usecPerPkt := S32(rx.usecPerPkt), state := CookieGenerated, nextSend := now)
  }

  /** handle_packet for an ack on the client. */
  function TakeAck(v: View, rx: Packet, now: u64): View
    requires v.Valid()
  {
    var w := if v.state == CookieGenerated
             then v.(state := Established, out := v.out.(ring := EmptyRing())) else v;
    HandleAck(w, rx, now)
  }

  /** DIFF64(now, next_send_time()) >= 0. */
  predicate IsDue(v: View, now: u64) {
    U64(now - v.nextSend) < 0x8000_0000_0000_0000
  }

  /** The packets `sent` from state `v` on, each when it was due. */
  ghost predicate SentWhenDue(v: View, sent: seq<Packet>, now: u64) {
    forall k :: 0 <= k < |sent| ==> IsDue(Sent(v, k), now) && sent[k] == TxPacket(Sent(v, k))
  }

  lemma SentOneMore(v: View, sent: seq<Packet>, tx: Packet, now: u64)
    requires SentWhenDue(v, sent, now) && IsDue(Sent(v, |sent|), now) && tx == TxPacket(Sent(v, |sent|))
    ensures SentWhenDue(v, sent + [tx], now) && Sent(Sent(v, |sent|), 1) == Sent(v, |sent| + 1)
  {
    assert Sent(Sent(v, |sent|), 1) == AfterSend(PrepareTx(Sent(Sent(v, |sent|), 0)), false);
  }

  /** A client that has its cookie, is due, and was given a rate of zero. */
  predicate NeverSettles(v: View, now: u64) {
    IsDue(v, now) && (v.state == CookieGenerated || v.state == Established) && v.usecPerPkt == 0
  }

  /** A client's session after `k` more packets. */
  function Sent(v: View, k: nat): View {
    if k == 0 then v else AfterSend(PrepareTx(Sent(v, k - 1)), false)
  }

  class Sessions {
    const digest: Digest
    var cookieEpoch: u32
    var cookieSecret: Secret
    var prevCookieEpoch: u32
    var prevCookieSecret: Secret
    var lastSecretUpdateTime: u32
    var sessionMap: map<Addr, View>
    var nextSends: seq<Addr>

    ghost function State(): Table
      reads this
    {
      Table(cookieEpoch, cookieSecret, prevCookieEpoch, prevCookieSecret, lastSecretUpdateTime,
            sessionMap, nextSends)
    }

    /** The constructor leaves the previous epoch and secret uninitialised. */
    constructor (digest: Digest, secret: Secret, garbageEpoch: u32, garbageSecret: Secret)
      ensures this.digest == digest
      ensures State() == Table(0, secret, garbageEpoch, garbageSecret, 0, map[], [])
    {
      this.digest := digest;
      cookieEpoch, cookieSecret := 0, secret;
      prevCookieEpoch, prevCookieSecret := garbageEpoch, garbageSecret;
      lastSecretUpdateTime := 0;
      sessionMap, nextSends := map[], [];
    }

    method ValidateCookie(p: Packet, addr: Addr) returns (ok: bool)
      ensures ok <==> Validates(State(), digest, p, addr)
    {
      if p.cookieEpoch != cookieEpoch && p.cookieEpoch != prevCookieEpoch {
        return false;
      }
      var secret := cookieSecret;
      if p.cookieEpoch == prevCookieEpoch {
        secret := prevCookieSecret;
      }
      var golden := digest(secret, p.usecPerPkt, addr);
      return golden == p.cookie;
    }

    method MaybeRotateCookieSecrets(now: u64, isServer: bool, wall: u32, newSecret: Secret)
      modifies this`cookieEpoch, this`cookieSecret, this`prevCookieEpoch, this`prevCookieSecret,
               this`lastSecretUpdateTime
      ensures State() == if isServer then MaybeRotate(old(State()), now, wall, newSecret) else old(State())
    {
      if isServer && U64(now - lastSecretUpdateTime) > 1000000 {
        if wall != cookieEpoch {
          RotateCookieSecrets(wall, newSecret);
        }
        lastSecretUpdateTime := U32(now);
      }
    }

    method RotateCookieSecrets(newEpoch: u32, newSecret: Secret)
      modifies this`cookieEpoch, this`cookieSecret, this`prevCookieEpoch, this`prevCookieSecret
      ensures State() == Rotate(old(State()), newEpoch, newSecret)
    {
      prevCookieEpoch := cookieEpoch;
      prevCookieSecret := cookieSecret;
      cookieEpoch := newEpoch;
      cookieSecret := newSecret;
    }

    method HandleNewClientHandshake(rx: Packet, addr: Addr, minUsec: u32, now: u64) returns (reply: Option<Packet>)
      requires TableValid(State())
      modifies this`sessionMap, this`nextSends
      ensures (State(), reply) == ClientHandshake(old(State()), digest, rx, addr, minUsec, now)
    {
      if rx.cookieEpoch == 0 {
        sessionMap := sessionMap - {addr};
        var usec := if rx.usecPerPkt > minUsec then rx.usecPerPkt else minUsec;
        reply := Some(Packet(rx.id, U32(now), U32(now - rx.txtime), usec, 0, Handshake, 0, cookieEpoch,
                             digest(cookieSecret, usec, addr), EmptyRing()));
      } else {
        reply := None;
        var ok := ValidateCookie(rx, addr);
        if ok {
          if addr !in sessionMap {
            sessionMap := sessionMap[addr := FreshView(U64(now + 10 * 1000), S32(rx.usecPerPkt))];
          }
          nextSends := nextSends + [addr];
          var session := sessionMap[addr].(state := Established);
          sessionMap := sessionMap[addr := HandleAck(session, AsEmptyAck(rx), now)];
        }
      }
    }

    /** Client side: the source asserts that there is one session and one queued send. */
    method HandleServerHandshake(addr: Addr, rx: Packet, now: u64)
      requires sessionMap.Keys == {addr} && nextSends == [addr]
      modifies this`sessionMap, this`nextSends
      ensures sessionMap == map[addr := TakeCookie(old(sessionMap)[addr], rx, now)]
      ensures nextSends == [addr]
    {
      nextSends := [];
      var session := sessionMap[addr];
      session := session.(nextTxId := 1, rx := session.rx.(nextId := 0));
      session := session.(cookieEpoch := rx.cookieEpoch, cookie := rx.cookie);
      session := session.(usecPerPkt := S32(rx.usecPerPkt), state := CookieGenerated, nextSend := now);
      sessionMap := sessionMap[addr := session];
      nextSends := nextSends + [addr];
    }

    /** send_waiting_packets on a client: every packet that is due is sent, in turn, until none is. */
    method SendWaiting(addr: Addr, now: u64) returns (sent: seq<Packet>)
      requires sessionMap.Keys == {addr} && nextSends == [addr] && !NeverSettles(sessionMap[addr], now)
      modifies this`sessionMap, this`nextSends
      ensures var v := old(sessionMap)[addr];
              && sessionMap == map[addr := Sent(v, |sent|)]
              && !IsDue(Sent(v, |sent|), now) && SentWhenDue(v, sent, now)
      ensures nextSends == [addr]
    {
      ghost var v := sessionMap[addr];
      ghost var end := SettlingTime(v, now);
      sent := [];
      while IsDue(sessionMap[addr], now)
        invariant nextSends == [addr] && |sent| <= end && sessionMap == map[addr := Sent(v, |sent|)]
        invariant SentWhenDue(v, sent, now)
        decreases end - |sent|
      {
        var tx := SendNext(addr);
        SentOneMore(v, sent, tx, now);
        sent := sent + [tx];
      }
    }

    /** One pass: prepare_tx_packet and send_packet for the session at the head of the queue. */
    method SendNext(addr: Addr) returns (tx: Packet)
      requires sessionMap.Keys == {addr} && nextSends == [addr]
      modifies this`sessionMap, this`nextSends
      ensures tx == TxPacket(old(sessionMap)[addr])
      ensures sessionMap == map[addr := Sent(old(sessionMap)[addr], 1)]
      ensures nextSends == [addr]
    {
      nextSends := [];
      tx := TxPacket(sessionMap[addr]);
      assert Sent(sessionMap[addr], 1) == AfterSend(PrepareTx(Sent(sessionMap[addr], 0)), false);
      sessionMap := sessionMap[addr := AfterSend(PrepareTx(sessionMap[addr]), false)];
      nextSends := nextSends + [addr];
    }
  }

  // ---- the loop over waiting packets ends ------------------------------------------------------

  lemma {:induction false} SentFromNext(v: View, k: nat)
    ensures Sent(v, k + 1) == Sent(Sent(v, 1), k)
  {
    if k > 0 { SentFromNext(v, k - 1); }
  }

  /** How far the next send time lies behind `now`; below 2^63 means due. */
  function Behind(v: View, now: u64): u64 {
    U64(now - v.nextSend)
  }

  lemma BehindAfter(v: View, now: u64, d: int)
    requires -0x8000_0000_0000_0000 <= d <= 0x8000_0000_0000_0000 && IsDue(v, now) && Sent(v, 1).nextSend == U64(v.nextSend + d)
    ensures Behind(Sent(v, 1), now) == if Behind(v, now) >= d then Behind(v, now) - d else Behind(v, now) - d + 0x1_0000_0000_0000_0000
  {
    U64Sub(now, v.nextSend + d);
    U64Add(now - v.nextSend, -d);
    U64Small(Behind(v, now) - d);
  }

  lemma BackoffBounds(k: nat)
    ensures 1000000 <= Backoff(k) <= 1024 * 1000000
  {
    Pow2Bounds(if k < 10 then k else 10);
  }

  lemma {:induction false} Pow2Bounds(n: nat)
    requires n <= 10
    ensures 1 <= Pow2(n) <= 1024 && (n < 10 ==> Pow2(n) <= 512)
  {
    assert Pow2(0) == 1 && Pow2(1) == 2 && Pow2(2) == 4 && Pow2(3) == 8 && Pow2(4) == 16 && Pow2(5) == 32;
    assert Pow2(6) == 64 && Pow2(7) == 128 && Pow2(8) == 256 && Pow2(9) == 512 && Pow2(10) == 1024;
  }

  /** What one packet adds to the next send time. */
  function Period(v: View): int {
    if v.state == CookieGenerated || v.state == Established then v.usecPerPkt
    else Backoff(if v.state == NewSession then 0 else v.retryCount + 1)
  }

  lemma OnePeriod(v: View)
    ensures var w := Sent(v, 1);
            && w.nextSend == U64(v.nextSend + Period(v)) && w.usecPerPkt == v.usecPerPkt
            && (v.state == CookieGenerated || v.state == Established ==> w.state == v.state)
            && (v.state == NewSession || v.state == HandshakeRequested ==> w.state == HandshakeRequested)
  {
    assert Sent(v, 1) == AfterSend(PrepareTx(Sent(v, 0)), false);
  }

  /** How many packets the loop sends. */
  lemma {:induction false} SettlingTime(v: View, now: u64) returns (k: nat)
    requires !NeverSettles(v, now)
    ensures !IsDue(Sent(v, k), now)
    ensures forall j :: 0 <= j < k ==> IsDue(Sent(v, j), now)
    decreases if !IsDue(v, now) then 0 else if Period(v) >= 0 then 1 + Behind(v, now) else 0x8000_0000_0000_0000 - Behind(v, now)
  {
    k := 0;
    if IsDue(v, now) {
      OnePeriod(v);
      BackoffBounds(if v.state == NewSession then 0 else v.retryCount + 1);
      BehindAfter(v, now, Period(v));
      var w := Sent(v, 1);
      BackoffBounds(w.retryCount + 1);
      var n := SettlingTime(w, now);
      k := n + 1;
      SentFromNext(v, n);
      forall j | 0 <= j < k ensures IsDue(Sent(v, j), now) {
        if j > 0 { SentFromNext(v, j - 1); }
      }
    }
  }

  /** The loop ends, after some number of packets, if and only if the rate of a due client with a cookie is not zero. */
  lemma SettlesIff(v: View, now: u64)
    ensures (exists k: nat :: !IsDue(Sent(v, k), now)) <==> !NeverSettles(v, now)
  {
    if NeverSettles(v, now) {
      forall k: nat ensures IsDue(Sent(v, k), now) { ZeroRateStaysDue(v, now, k); }
    } else {
      var k := SettlingTime(v, now);
    }
  }

  /** A rate of zero: the client stays due however many packets it sends. */
  lemma {:induction false} ZeroRateStaysDue(v: View, now: u64, k: nat)
    requires NeverSettles(v, now)
    ensures NeverSettles(Sent(v, k), now)
  {
    if k > 0 {
      ZeroRateStaysDue(v, now, k - 1);
      ZeroRateStep(Sent(v, k - 1), now);
    }
  }

  lemma ZeroRateStep(w: View, now: u64)
    requires NeverSettles(w, now)
    ensures NeverSettles(AfterSend(PrepareTx(w), false), now)
  {
    U64Small(w.nextSend);
  }

  // ---- pacing of the client's packets -----------------------------------------------------

  /** Once a cookie is known, packets carry consecutive ids and leave at the agreed rate. */
  lemma {:induction false} PacketsArePaced(v: View, k: nat)
    requires v.state == Established || v.state == CookieGenerated
    ensures Sent(v, k).state == v.state && Sent(v, k).usecPerPkt == v.usecPerPkt
    ensures Sent(v, k).nextSend == U64(v.nextSend + Mul(k, v.usecPerPkt))
    ensures TxPacket(Sent(v, k)).id == U32(v.nextTxId + k)
  {
    if k > 0 {
      PacketsArePaced(v, k - 1);
      OnePaced(Sent(v, k - 1), v.nextSend + Mul(k - 1, v.usecPerPkt), v.nextTxId + k - 1);
    }
  }

  lemma OnePaced(w: View, time: int, id: int)
    requires w.state == Established || w.state == CookieGenerated
    requires w.nextSend == U64(time) && w.nextTxId == U32(id)
    ensures var w' := AfterSend(PrepareTx(w), false);
            && w'.state == w.state && w'.usecPerPkt == w.usecPerPkt
            && w'.nextSend == U64(time + w.usecPerPkt) && w'.nextTxId == U32(id + 1)
  {
    U64Add(time, w.usecPerPkt);
    U32Add(id, 1);
  }

  /** The time that `k` handshake packets without an answer take. */
  function TotalBackoff(k: nat): nat {
    if k == 0 then 0 else TotalBackoff(k - 1) + Backoff(k - 1)
  }

  /** Unanswered, the handshake packet is repeated under one id, ever more slowly. */
  lemma {:induction false} RetriesBackOff(v: View, k: nat)
    requires v.state == NewSession
    ensures TxPacket(Sent(v, k)).id == v.nextTxId && TxPacket(Sent(v, k)).packetType == Handshake
    ensures Sent(v, k).nextSend == U64(v.nextSend + TotalBackoff(k))
    ensures k > 0 ==> Sent(v, k).state == HandshakeRequested && Sent(v, k).retryCount == k - 1
  {
    if k > 0 {
      RetriesBackOff(v, k - 1);
      OneRetry(Sent(v, k - 1), v.nextSend + TotalBackoff(k - 1), k - 1);
    }
  }

  lemma OneRetry(w: View, time: int, k: nat)
    requires (k == 0 && w.state == NewSession) || (k > 0 && w.state == HandshakeRequested && w.retryCount == k - 1)
    requires w.nextSend == U64(time)
    ensures var w' := AfterSend(PrepareTx(w), false);
            && w'.state == HandshakeRequested && w'.retryCount == k && w'.nextTxId == w.nextTxId
            && w'.nextSend == U64(time + Backoff(k))
  {
    U64Add(time, Backoff(k));
    U32Add(w.nextTxId + 1, -1);
  }

  // ---- the echoed cookie is accepted ---------------------------------------------------

  /** The packet a client sends after taking the cookie in `reply`. */
  function Echo(v: View, reply: Packet, now: u64): Packet {
    TxPacket(TakeCookie(v, reply, now))
  }

  /** The echo carries the server's rate, epoch and cookie bit for bit. */
  lemma EchoIsFaithful(v: View, reply: Packet, now: u64)
    ensures var p := Echo(v, reply, now);
            && p.packetType == Handshake && p.id == 1
            && p.usecPerPkt == reply.usecPerPkt
            && p.txtime == U32(now) && IsDue(TakeCookie(v, reply, now), now)
            && p.cookieEpoch == reply.cookieEpoch && p.cookie == reply.cookie
  {
    U32OfS32(reply.usecPerPkt);
  }

  /** The ack that establishes a client's session starts its ring afresh: it is the only ack in it. */
  lemma EstablishedRingIsFresh(v: View, rx: Packet, now: u64, i: nat)
    requires v.Valid() && v.state == CookieGenerated && i < 64
    ensures var w := TakeAck(v, rx, now);
            && w.state == Established && |w.out.ring| == 64
            && (i == v.out.next ==> w.out.ring[i] == AckEntry(rx.id, U32(now)))
            && (i != v.out.next ==> w.out.ring[i].id == 0)
  {
  }

  lemma U32OfS32(x: u32)
    ensures U32(S32(x)) == x
  {
    if x >= 0x8000_0000 { U32Multiple(S32(x), x, -1); }
  }

  /** After a handshake both ends send at the slower of the two rates that were asked for, and the server begins 10 ms later. */
  lemma BothEndsTakeSlowerRate(t: Table, digest: Digest, rx: Packet, addr: Addr, minUsec: u32, t1: u64, v: View, t2: u64, t3: u64, u: u32)
    requires TableValid(t) && addr !in t.sessions
    requires var p := Echo(v, CookieReply(t, digest, rx, addr, minUsec, t1), t2); p.cookieEpoch != 0 && Validates(t, digest, p, addr)
    ensures var reply := CookieReply(t, digest, rx, addr, minUsec, t1);
            var rate := reply.usecPerPkt;
            var server := ClientHandshake(t, digest, Echo(v, reply, t2), addr, u, t3).0;
            && rate >= rx.usecPerPkt && rate >= minUsec && (rate == rx.usecPerPkt || rate == minUsec)
            && TakeCookie(v, reply, t2).usecPerPkt == S32(rate)
            && addr in server.sessions && server.sessions[addr].usecPerPkt == S32(rate)
            && server.sessions[addr].nextSend == U64(t3 + 10_000) && addr in server.sends
  {
    EchoIsFaithful(v, CookieReply(t, digest, rx, addr, minUsec, t1), t2);
  }

  /** A cookie issued now is accepted now, exactly when the two epochs differ or the secrets agree on it. */
  lemma FreshCookieAccepted(t: Table, digest: Digest, rx: Packet, addr: Addr, minUsec: u32, t1: u64, v: View, t2: u64)
    ensures var reply := CookieReply(t, digest, rx, addr, minUsec, t1);
            var agree := digest(t.prevSecret, reply.usecPerPkt, addr) == digest(t.secret, reply.usecPerPkt, addr);
            Validates(t, digest, Echo(v, reply, t2), addr) <==> (t.epoch != t.prevEpoch || agree)
  {
    EchoIsFaithful(v, CookieReply(t, digest, rx, addr, minUsec, t1), t2);
  }

  /**
   A further cookie renumbers the client's packets from 1 but leaves next_rxack_id where it
   was: the ack of the new packet `n` is counted if and only if `n` has caught up with it.
   */
  lemma AcksAfterCookie(v: View, rx: Packet, now: u64, e: AckEntry, t: TxTiming, n: nat, next: nat)
    requires v.acked.nextId == U32(next) && e.id == U32(n) && U32(n) != 0
    requires -0x8000_0000 <= n - next < 0x8000_0000
    ensures TakeCookie(v, rx, now).nextTxId == 1
    ensures ScanSlot(TakeCookie(v, rx, now).acked, e, t).stats.count == v.acked.stats.count + (if n >= next then 1 else 0)
  {
    DiffExact(n, next);
  }

  // ---- runs of a server --------------------------------------------------------------------

  datatype ServerEvent =
    | FromClient(rx: Packet, addr: Addr, minUsec: u32, now: u64)   // a handshake packet
    | AckFrom(rx: Packet, addr: Addr, now: u64)                    // an ack packet
    | Tick(now: u64, wall: u32, newSecret: Secret)                     // MaybeRotateCookieSecrets
    | SendTo(addr: Addr, now: u64)                                 // a due transmission

  ghost function ServerNext(t: Table, digest: Digest, e: ServerEvent): Table
    requires TableValid(t)
  {
    match e
    case FromClient(rx, addr, minUsec, now) => ClientHandshake(t, digest, rx, addr, minUsec, now).0
    case AckFrom(rx, addr, now) =>
      if addr in t.sessions then t.(sessions := t.sessions[addr := HandleAck(t.sessions[addr], rx, now)]) else t
    case Tick(now, wall, newSecret) => MaybeRotate(t, now, wall, newSecret)
    case SendTo(addr, now) =>
      if addr !in t.sessions then t
      else if Diff(now, t.sessions[addr].lastRxTime) > 60 * 1000 * 1000 then t.(sessions := t.sessions - {addr})
      else t.(sessions := t.sessions[addr := AfterSend(PrepareTx(t.sessions[addr]), true)])
  }

  ghost predicate ServerRun(ts: seq<Table>, digest: Digest, es: seq<ServerEvent>) {
    && |ts| == |es| + 1
    && ts[0].epoch == 0 && ts[0].sessions == map[]
    && forall i :: 0 <= i < |es| ==> ServerStep(ts[i], digest, es[i], ts[i + 1])
  }

  /** Only a table of well-formed sessions has a successor; ServerValid shows that all are. */
  ghost predicate ServerStep(t: Table, digest: Digest, e: ServerEvent, t': Table) {
    TableValid(t) ==> t' == ServerNext(t, digest, e)
  }

  lemma {:induction false} ServerValid(ts: seq<Table>, digest: Digest, es: seq<ServerEvent>, i: nat)
    requires ServerRun(ts, digest, es) && i < |ts|
    ensures TableValid(ts[i])
    ensures i > 0 ==> TableValid(ts[i - 1]) && ts[i] == ServerNext(ts[i - 1], digest, es[i - 1])
  {
    if i > 0 {
      ServerValid(ts, digest, es, i - 1);
      assert ServerStep(ts[i - 1], digest, es[i - 1], ts[i - 1 + 1]);
    }
  }

  /** After the first rotation the two epochs always differ. */
  lemma {:induction false} EpochsDiffer(ts: seq<Table>, digest: Digest, es: seq<ServerEvent>, i: nat)
    requires ServerRun(ts, digest, es) && i < |ts|
    ensures ts[i].epoch == 0 || ts[i].epoch != ts[i].prevEpoch
  {
    if i > 0 {
      EpochsDiffer(ts, digest, es, i - 1);
      ServerValid(ts, digest, es, i);
    }
  }

  /** The client at `addr` presented a cookie that the server accepted in step `i`. */
  ghost predicate AdmittedAt(ts: seq<Table>, digest: Digest, es: seq<ServerEvent>, i: nat, addr: Addr)
    requires ServerRun(ts, digest, es)
  {
    && i < |es| && es[i].FromClient? && es[i].addr == addr
    && es[i].rx.cookieEpoch != 0 && Validates(ts[i], digest, es[i].rx, addr)
  }

  /**
   No session without a cookie: over every run, if the server holds a session for
   an address then it accepted a cookie from that address earlier, and has held the
   session ever since.
   */
  lemma {:induction false} SessionsAreAdmitted(ts: seq<Table>, digest: Digest, es: seq<ServerEvent>, j: nat, addr: Addr)
    requires ServerRun(ts, digest, es) && j < |ts| && addr in ts[j].sessions
    ensures exists i :: 0 <= i < j && AdmittedAt(ts, digest, es, i, addr)
              && forall k :: i < k <= j ==> addr in ts[k].sessions
  {
    if j > 0 {
      ServerValid(ts, digest, es, j);
      if addr in ts[j - 1].sessions {
        SessionsAreAdmitted(ts, digest, es, j - 1, addr);
        var i :| 0 <= i < j - 1 && AdmittedAt(ts, digest, es, i, addr)
                 && forall k :: i < k <= j - 1 ==> addr in ts[k].sessions;
        assert forall k :: i < k <= j ==> addr in ts[k].sessions;
      } else {
        assert AdmittedAt(ts, digest, es, j - 1, addr);
      }
    }
  }

  /** Step `i` handled a packet from `addr` that belongs to a session. */
  ghost predicate HeardAt(ts: seq<Table>, digest: Digest, es: seq<ServerEvent>, i: nat, addr: Addr)
    requires ServerRun(ts, digest, es)
  {
    AdmittedAt(ts, digest, es, i, addr) || (i < |es| && es[i].AckFrom? && es[i].addr == addr && addr in ts[i].sessions)
  }

  /** From step `i` on, up to `j`, nothing came from `addr`, and transmissions to it are less than 2^31 us later. */
  ghost predicate SilentSince(es: seq<ServerEvent>, i: nat, j: nat, addr: Addr)
    requires i < j <= |es| && (es[i].FromClient? || es[i].AckFrom?)
  {
    forall k :: i < k < j && !es[k].Tick? && es[k].addr == addr ==>
      es[k].SendTo? && 0 <= es[k].now - es[i].now < 0x8000_0000
  }

  /** A transmission to `addr` more than a minute after `time`. */
  ghost predicate LateSend(e: ServerEvent, addr: Addr, time: u64) {
    e.SendTo? && e.addr == addr && e.now - time > 60_000_000
  }

  /**
   A session lives until a transmission more than a minute after its client was last heard,
   and no longer: in every run, if `addr` was heard at step `i` and not again before `j`, it has a
   session at `j` if and only if no transmission in between came so late.
   */
  lemma {:induction false} EvictedIffSilent(ts: seq<Table>, digest: Digest, es: seq<ServerEvent>, i: nat, j: nat, addr: Addr)
    requires ServerRun(ts, digest, es) && i < j <= |es| && HeardAt(ts, digest, es, i, addr) && SilentSince(es, i, j, addr)
    ensures addr in ts[j].sessions <==> forall k :: i < k < j ==> !LateSend(es[k], addr, es[i].now)
    ensures addr in ts[j].sessions ==> ts[j].sessions[addr].lastRxTime == U32(es[i].now)
    decreases j
  {
    ServerValid(ts, digest, es, j);
    if j == i + 1 {
      HeardNow(ts[i], digest, es[i], addr);
    } else {
      EvictedIffSilent(ts, digest, es, i, j - 1, addr);
      SilentStep(ts[j - 1], digest, es[j - 1], addr, es[i].now);
    }
  }

  lemma HeardNow(t: Table, digest: Digest, e: ServerEvent, addr: Addr)
    requires TableValid(t)
    requires || (e.FromClient? && e.addr == addr && e.rx.cookieEpoch != 0 && Validates(t, digest, e.rx, addr))
             || (e.AckFrom? && e.addr == addr && addr in t.sessions)
    ensures var t' := ServerNext(t, digest, e); addr in t'.sessions && t'.sessions[addr].lastRxTime == U32(e.now)
  {
  }

  lemma SilentStep(t: Table, digest: Digest, e: ServerEvent, addr: Addr, time: u64)
    requires TableValid(t) && (addr in t.sessions ==> t.sessions[addr].lastRxTime == U32(time))
    requires !e.Tick? && e.addr == addr ==> e.SendTo? && 0 <= e.now - time < 0x8000_0000
    ensures var t' := ServerNext(t, digest, e);
            && (addr in t'.sessions <==> addr in t.sessions && !LateSend(e, addr, time))
            && (addr in t'.sessions ==> t'.sessions[addr].lastRxTime == U32(time))
  {
    if e.SendTo? && e.addr == addr { SinceHeard(e.now, time); }
  }

  lemma SinceHeard(now: u64, time: u64)
    requires 0 <= now - time < 0x8000_0000
    ensures Diff(now, U32(time)) == now - time
  {
    DiffExact(now, time);
    DiffTrue(now, U32(time));
    U32Multiple(now - U32(time), now - time, time / 0x1_0000_0000);
    DiffTrue(now, time);
  }

  ghost predicate Rotates(t: Table, t': Table) {
    t'.epoch != t.epoch
  }

  /** How many of the steps from `i` up to `j` changed the secret. */
  ghost function Rotations(ts: seq<Table>, i: nat, j: nat): nat
    requires i <= j < |ts|
    decreases j - i
  {
    if i == j then 0 else Rotations(ts, i, j - 1) + (if Rotates(ts[j - 1], ts[j]) then 1 else 0)
  }

  /** The secret in force at `i` is still current after no rotation, and previous after one. */
  lemma {:induction false} SecretSurvivesOneRotation(ts: seq<Table>, digest: Digest, es: seq<ServerEvent>, i: nat, j: nat)
    requires ServerRun(ts, digest, es) && i <= j < |ts| && Rotations(ts, i, j) <= 1
    ensures Rotations(ts, i, j) == 0 ==> ts[j].epoch == ts[i].epoch && ts[j].secret == ts[i].secret
    ensures Rotations(ts, i, j) == 1 ==>
      ts[j].prevEpoch == ts[i].epoch && ts[j].prevSecret == ts[i].secret && ts[j].epoch != ts[i].epoch
    decreases j - i
  {
    if i < j {
      SecretSurvivesOneRotation(ts, digest, es, i, j - 1);
      ServerValid(ts, digest, es, j);
    }
  }

  /** A cookie made with the current or the previous secret opens a session. */
  lemma CookieIsHonoured(t: Table, digest: Digest, p: Packet, addr: Addr, epoch: u32, secret: Secret, minUsec: u32, now: u64)
    requires TableValid(t) && p.cookieEpoch == epoch != 0 && p.cookie == digest(secret, p.usecPerPkt, addr)
    requires || (epoch == t.epoch != t.prevEpoch && secret == t.secret)
             || (epoch == t.prevEpoch && secret == t.prevSecret)
    ensures Validates(t, digest, p, addr)
    ensures var t' := ClientHandshake(t, digest, p, addr, minUsec, now).0; addr in t'.sessions && t'.sessions[addr].state == Established
  {
  }

  /**
   A client that echoes, in step `j`, a cookie that the server would issue in state `i`,
   at most one rotation earlier, is admitted and then has an established session, if and
   only if the cookie was issued in a nonzero epoch.  Otherwise it has no session and is
   sent one more cookie.
   */
  lemma EchoedCookieAdmitsIff(ts: seq<Table>, digest: Digest, es: seq<ServerEvent>, i: nat, j: nat,
                              rx: Packet, minUsec: u32, now: u64, v: View, t: u64)
    requires ServerRun(ts, digest, es) && i <= j < |es| && Rotations(ts, i, j) <= 1 && es[j].FromClient?
    requires es[j].rx == Echo(v, CookieReply(ts[i], digest, rx, es[j].addr, minUsec, now), t)
    ensures AdmittedAt(ts, digest, es, j, es[j].addr) <==> ts[i].epoch != 0
    ensures ts[i].epoch != 0 ==> es[j].addr in ts[j + 1].sessions && ts[j + 1].sessions[es[j].addr].state == Established
    ensures ts[i].epoch == 0 ==> es[j].addr !in ts[j + 1].sessions
    ensures TableValid(ts[j])
    ensures ts[i].epoch == 0 ==> ClientHandshake(ts[j], digest, es[j].rx, es[j].addr, es[j].minUsec, es[j].now).1.Some?
  {
    EchoIsFaithful(v, CookieReply(ts[i], digest, rx, es[j].addr, minUsec, now), t);
    SecretSurvivesOneRotation(ts, digest, es, i, j);
    EpochsDiffer(ts, digest, es, j);
    ServerValid(ts, digest, es, j + 1);
    if ts[i].epoch != 0 { CookieIsHonoured(ts[j], digest, es[j].rx, es[j].addr, ts[i].epoch, ts[i].secret, es[j].minUsec, es[j].now); }
  }

  /**
   A server that has not yet rotated its secret: ValidateCookie would accept the cookie it
   has just issued, but epoch 0 reads as no cookie, and the client gets no session.
   */
  lemma FirstCookieIsIgnored(digest: Digest, rx: Packet, minUsec: u32, now: u64, v: View, t: u64)
    ensures var server := Table(0, [1], 7, [2], 0, map[], []);
            var echo := Echo(v, CookieReply(server, digest, rx, 5, minUsec, now), t);
            && Validates(server, digest, echo, 5)
            && ClientHandshake(server, digest, echo, 5, minUsec, t).0.sessions == map[]
  {
    var server := Table(0, [1], 7, [2], 0, map[], []);
    EchoIsFaithful(v, CookieReply(server, digest, rx, 5, minUsec, now), t);
    FreshCookieAccepted(server, digest, rx, 5, minUsec, now, v, t);
  }

  // ---- how often the secret rotates -----------------------------------------------------------

  /**
   The interval of a second is kept exactly while the clock is below 2^32 us: of two ticks
   less than a second apart, the second can rotate too if and only if the first came later.
   */
  lemma RotatesAgainIff(t: Table, now: u64, later: u64, wall: u32, wall': u32, secret: Secret, secret': Secret)
    requires U64(now - t.lastUpdate) > 1000000 && now <= later <= now + 1000000
    ensures var t1 := MaybeRotate(t, now, wall, secret);
            Rotates(t1, MaybeRotate(t1, later, wall', secret')) <==> now >= 0x1_0000_0000 && wall' != wall
  {
    var t1 := MaybeRotate(t, now, wall, secret);
    assert t1.epoch == wall && t1.lastUpdate == U32(now);
  }

  /** The same instant, 71 minutes after the start, can see two rotations. */
  lemma TwoRotationsAtOnce(t: Table, secret: Secret, secret': Secret)
    requires t.epoch == 0 && t.lastUpdate == 0
    ensures var now := 0x1_0000_0000 + 5000000;
            var t1 := MaybeRotate(t, now, 1, secret);
            Rotates(t, t1) && Rotates(t1, MaybeRotate(t1, now, 2, secret'))
  {
    RotatesAgainIff(t, 0x1_0000_0000 + 5000000, 0x1_0000_0000 + 5000000, 1, 2, secret, secret');
  }

  /** Ticks come at non-decreasing times below 2^32 us. */
  ghost predicate EarlyTicks(es: seq<ServerEvent>) {
    && (forall i :: 0 <= i < |es| && es[i].Tick? ==> es[i].now < 0x1_0000_0000)
    && (forall i, j :: 0 <= i < j < |es| && es[i].Tick? && es[j].Tick? ==> es[i].now <= es[j].now)
  }

  /** From a rotation on, the last update lies between its time and every later tick. */
  lemma {:induction false} UpdateNotBefore(ts: seq<Table>, digest: Digest, es: seq<ServerEvent>, i: nat, j: nat)
    requires ServerRun(ts, digest, es) && EarlyTicks(es) && i < j < |ts|
    requires es[i].Tick? && Rotates(ts[i], ts[i + 1])
    ensures es[i].now <= ts[j].lastUpdate
    ensures forall k :: j <= k < |es| && es[k].Tick? ==> ts[j].lastUpdate <= es[k].now
    decreases j
  {
    ServerValid(ts, digest, es, j);
    if j > i + 1 { UpdateNotBefore(ts, digest, es, i, j - 1); }
  }

  /** In every run of less than 71 minutes any two rotations are more than a second apart. */
  lemma RotationsAreSecondsApart(ts: seq<Table>, digest: Digest, es: seq<ServerEvent>, i: nat, j: nat)
    requires ServerRun(ts, digest, es) && EarlyTicks(es) && i < j < |es|
    requires Rotates(ts[i], ts[i + 1]) && Rotates(ts[j], ts[j + 1])
    ensures es[i].Tick? && es[j].Tick? && es[j].now > es[i].now + 1000000
  {
    ServerValid(ts, digest, es, i + 1);
    ServerValid(ts, digest, es, j + 1);
    UpdateNotBefore(ts, digest, es, i, j);
  }

  // ---- runs of a client -----------------------------------------------------------------------

  datatype ClientEvent =
    | Due                                  // send_waiting_packets
    | Cookies(rx: Packet, now: u64)        // handshake packet from the server
    | Acks(rx: Packet, now: u64)           // ack packet from the server

  function ClientNext(v: View, e: ClientEvent): (r: View)
    requires v.Valid()
    ensures r.Valid()
  {
    match e
    case Due => AfterSend(PrepareTx(v), false)
    case Cookies(rx, now) => TakeCookie(v, rx, now)
    case Acks(rx, now) => TakeAck(v, rx, now)
  }

  ghost predicate ClientRun(vs: seq<View>, es: seq<ClientEvent>) {
    && |vs| == |es| + 1
    && vs[0].state == NewSession && vs[0].Valid()
    && forall i :: 0 <= i < |es| ==> ClientStep(vs[i], es[i], vs[i + 1])
  }

  ghost predicate ClientStep(v: View, e: ClientEvent, v': View) {
    v.Valid() ==> v' == ClientNext(v, e)
  }

  lemma {:induction false} ClientValid(vs: seq<View>, es: seq<ClientEvent>, j: nat)
    requires ClientRun(vs, es) && j < |vs|
    ensures vs[j].Valid()
    ensures j > 0 ==> vs[j - 1].Valid() && vs[j] == ClientNext(vs[j - 1], es[j - 1])
  {
    if j > 0 {
      ClientValid(vs, es, j - 1);
      assert ClientStep(vs[j - 1], es[j - 1], vs[j - 1 + 1]);
    }
  }

  /** Position of the last cookie before `j`, or -1. */
  ghost function LastCookie(es: seq<ClientEvent>, j: nat): int
    requires j <= |es|
  {
    if j == 0 then -1 else if es[j - 1].Cookies? then j - 1 else LastCookie(es, j - 1)
  }

  ghost predicate AckAfter(es: seq<ClientEvent>, i: int, j: nat)
    requires j <= |es|
  {
    exists k :: 0 <= k < j && k > i && es[k].Acks?
  }

  function StateNext(h: HandshakeState, e: ClientEvent): HandshakeState {
    match e
    case Due => if h == NewSession then HandshakeRequested else h
    case Cookies(_, _) => CookieGenerated
    case Acks(_, _) => if h == CookieGenerated then Established else h
  }

  /** What the trace of events up to `j` says about the handshake state. */
  ghost predicate TraceState(es: seq<ClientEvent>, j: nat, h: HandshakeState)
    requires j <= |es|
  {
    var i := LastCookie(es, j);
    match h
    case NewSession => i == -1
    case HandshakeRequested => i == -1
    case CookieGenerated => i != -1 && !AckAfter(es, i, j)
    case Established => i != -1 && AckAfter(es, i, j)
  }

  lemma TraceStateNext(es: seq<ClientEvent>, j: nat, h: HandshakeState)
    requires j < |es| && TraceState(es, j, h)
    ensures TraceState(es, j + 1, StateNext(h, es[j]))
  {
    var i := LastCookie(es, j);
    if !es[j].Cookies? && AckAfter(es, i, j) {
      var k :| 0 <= k < j && k > i && es[k].Acks?;
      assert AckAfter(es, i, j + 1);
    }
    if es[j].Acks? {
      LastCookieBefore(es, j);
      assert AckAfter(es, i, j + 1);
    }
  }

  lemma LastCookieBefore(es: seq<ClientEvent>, j: nat)
    requires j <= |es|
    ensures LastCookie(es, j) < j
  {
  }

  lemma ClientNextState(v: View, e: ClientEvent)
    requires v.Valid()
    ensures ClientNext(v, e).state == StateNext(v.state, e)
  {
  }

  /**
   Over every run of a client the handshake state is what the trace says: no
   cookie yet, a cookie, or a cookie and an ack after the last one.  In particular
   ESTABLISHED is reached from COOKIE_GENERATED on an ack and in no other way.
   */
  lemma {:induction false} ClientStateByTrace(vs: seq<View>, es: seq<ClientEvent>, j: nat)
    requires ClientRun(vs, es) && j < |vs|
    ensures TraceState(es, j, vs[j].state)
  {
    if j > 0 {
      ClientStateByTrace(vs, es, j - 1);
      ClientValid(vs, es, j);
      ClientNextState(vs[j - 1], es[j - 1]);
      TraceStateNext(es, j - 1, vs[j - 1].state);
    }
  }
}
