/**
 cmds/logos.c: the token-bucket rate limiter.  Three buckets are charged for every
 message; a mandatory bucket without room drops it.  Times are clock readings in
 milliseconds, given as arguments.
 */
module LogosLimits {
  import opened Words

  /** `skipped` is num_skipped, the messages refused since the last end notice. */
  datatype Bucket = Bucket(mandatory: bool, maxBytes: nat, fillRate: nat, available: int, skipped: nat)

  /** A msg_start or msg_end notice of bucket `i`. */
  datatype Notice = Started(i: nat, rate: nat) | Ended(i: nat, count: nat)

  datatype Limiter = Limiter(buckets: seq<Bucket>, lastAdd: int, skipping: bool, backoff: nat)

  // ---- what one message does ----------------------------------------------------------

  /** Bytes earned in `t` milliseconds. */
  function Earned(t: nat, rate: nat): int {
    Mul(t, rate) / 1000
  }

  function FillOne(b: Bucket, t: nat): Bucket {
    var sum := b.available + Earned(t, b.fillRate);
    b.(available := if sum > b.maxBytes then b.maxBytes else sum)
  }

  function HalfFull(b: Bucket): Bucket {
    b.(available := b.maxBytes / 2)
  }

  function HalfFullAll(bs: seq<Bucket>): seq<Bucket> {
    seq(|bs|, i requires 0 <= i < |bs| => HalfFull(bs[i]))
  }

  function FillAll(bs: seq<Bucket>, t: nat): seq<Bucket> {
    seq(|bs|, i requires 0 <= i < |bs| => FillOne(bs[i], t))
  }

  /** Whether enough time has passed to add bytes. */
  predicate TimeToFill(l: Limiter, now: int) {
    (!l.skipping && now - l.lastAdd >= 1000) || (l.skipping && now - l.lastAdd >= l.backoff)
  }

  /** maybe_fill_buckets; lastAdd == 0 asks for a refill to half. */
  function Filled(l: Limiter, now: int): Limiter
    requires now >= l.lastAdd
  {
    if l.lastAdd == 0 then l.(buckets := HalfFullAll(l.buckets), lastAdd := now)
    else if TimeToFill(l, now) then
      l.(buckets := FillAll(l.buckets, now - l.lastAdd), lastAdd := now)
    else l
  }

  predicate HasRoom(b: Bucket, total: nat, unlimited: bool) {
    b.available >= total || unlimited
  }

  /** One bucket charged for `total` bytes. */
  function Charged(b: Bucket, total: nat, unlimited: bool): Bucket {
    if HasRoom(b, total, unlimited) then b.(available := b.available - total, skipped := 0)
    else b.(available := if b.skipped == 0 then 0 else b.available, skipped := b.skipped + 1)
  }

  function ChargeAll(bs: seq<Bucket>, total: nat, unlimited: bool): seq<Bucket> {
    seq(|bs|, i requires 0 <= i < |bs| => Charged(bs[i], total, unlimited))
  }

  function NoticeOf(i: nat, b: Bucket, total: nat, unlimited: bool): seq<Notice> {
    if HasRoom(b, total, unlimited) then (if b.skipped > 0 then [Ended(i, b.skipped)] else [])
    else if b.skipped == 0 then [Started(i, b.fillRate)] else []
  }

  function NoticesUpto(bs: seq<Bucket>, total: nat, unlimited: bool, i: nat): seq<Notice>
    requires i <= |bs|
  {
    if i == 0 then [] else NoticesUpto(bs, total, unlimited, i - 1) + NoticeOf(i - 1, bs[i - 1], total, unlimited)
  }

  predicate Admitted(bs: seq<Bucket>, total: nat, unlimited: bool) {
    forall i :: 0 <= i < |bs| && bs[i].mandatory ==> HasRoom(bs[i], total, unlimited)
  }

  predicate AnyRefused(bs: seq<Bucket>, total: nat, unlimited: bool, n: nat)
    requires n <= |bs|
  {
    exists i :: 0 <= i < n && !HasRoom(bs[i], total, unlimited)
  }

  /** The backoff doubles, up to two minutes, when skipping starts with a bucket's first refusal. */
  function BackoffUpto(l: Limiter, total: nat, unlimited: bool, i: nat): nat
    requires i <= |l.buckets|
  {
    if i == 0 then l.backoff
    else
      var before := BackoffUpto(l, total, unlimited, i - 1);
      var b := l.buckets[i - 1];
      if HasRoom(b, total, unlimited) || b.skipped != 0 then before
      else Backoff(before, !AnyRefused(l.buckets, total, unlimited, i - 1) && !l.skipping)
  }

  function Backoff(backoff: nat, double: bool): nat {
    var b := if double then 2 * backoff else backoff;
    if b > 120 * 1000 then 120 * 1000 else b
  }

  /** all_buckets_have_room. */
  function AfterCharge(l: Limiter, total: nat, unlimited: bool): Limiter {
    Limiter(ChargeAll(l.buckets, total, unlimited), l.lastAdd,
            AnyRefused(l.buckets, total, unlimited, |l.buckets|),
            BackoffUpto(l, total, unlimited, |l.buckets|))
  }

  /** init_buckets. */
  function Initial(bytesPerBurst: nat, bytesPerDay: nat): seq<Bucket> {
    var burst, day := bytesPerBurst / 2, bytesPerDay;
    [Bucket(true, burst, burst / 300, burst / 2, 0),
     Bucket(true, day, day / 86400, day / 2, 0),
     Bucket(false, burst, day / 86400, burst / 2, 0)]
  }

  /** The variables of the loop over the buckets. */
  datatype Scan = Scan(buckets: seq<Bucket>, notices: seq<Notice>, nowSkipping: bool, backoff: nat, allOk: bool)

  /** What one pass of the loop does to them. */
  function ScanNext(c: Scan, i: nat, total: nat, unlimited: bool, skipping: bool): Scan
    requires i < |c.buckets|
  {
    var b, refused := c.buckets[i], !HasRoom(c.buckets[i], total, unlimited);
    Scan(c.buckets[i := Charged(b, total, unlimited)], c.notices + NoticeOf(i, b, total, unlimited), c.nowSkipping || refused,
         if refused && b.skipped == 0 then Backoff(c.backoff, !c.nowSkipping && !skipping) else c.backoff,
         c.allOk && !(refused && b.mandatory))
  }

  function ScanUpto(l: Limiter, total: nat, unlimited: bool, i: nat): (c: Scan)
    requires i <= |l.buckets|
    ensures |c.buckets| == |l.buckets|
  {
    if i == 0 then Scan(l.buckets, [], false, l.backoff, true)
    else ScanNext(ScanUpto(l, total, unlimited, i - 1), i - 1, total, unlimited, l.skipping)
  }

  /** The loop computes what is said of all buckets at once. */
  lemma {:induction false} ScanIsCharge(l: Limiter, total: nat, unlimited: bool, i: nat)
    requires i <= |l.buckets|
    ensures ScanForm(l, total, unlimited, i, ScanUpto(l, total, unlimited, i))
  {
    if i == 0 {
      assert ChargeAll(l.buckets[..0], total, unlimited) + l.buckets[0..] == l.buckets;
    } else {
      ScanIsCharge(l, total, unlimited, i - 1);
      ScanFormNext(l, total, unlimited, i - 1, ScanUpto(l, total, unlimited, i - 1));
    }
  }

  ghost predicate ScanForm(l: Limiter, total: nat, unlimited: bool, i: nat, c: Scan)
    requires i <= |l.buckets|
  {
    && c.buckets == ChargeAll(l.buckets[..i], total, unlimited) + l.buckets[i..]
    && c.notices == NoticesUpto(l.buckets, total, unlimited, i)
    && c.nowSkipping == AnyRefused(l.buckets, total, unlimited, i)
    && c.backoff == BackoffUpto(l, total, unlimited, i)
    && c.allOk == Admitted(l.buckets[..i], total, unlimited)
  }

  lemma ScanFormNext(l: Limiter, total: nat, unlimited: bool, k: nat, c: Scan)
    requires k < |l.buckets| == |c.buckets| && ScanForm(l, total, unlimited, k, c)
    ensures ScanForm(l, total, unlimited, k + 1, ScanNext(c, k, total, unlimited, l.skipping))
  {
    ChargeMore(l.buckets, total, unlimited, k);
    ScanFlagsNext(l, total, unlimited, k, c);
    ScanCountsNext(l, total, unlimited, k, c);
  }

  lemma ScanFlagsNext(l: Limiter, total: nat, unlimited: bool, k: nat, c: Scan)
    requires k < |l.buckets| == |c.buckets| && c.buckets[k] == l.buckets[k]
    requires c.nowSkipping == AnyRefused(l.buckets, total, unlimited, k) && c.allOk == Admitted(l.buckets[..k], total, unlimited)
    ensures var n := ScanNext(c, k, total, unlimited, l.skipping);
            n.nowSkipping == AnyRefused(l.buckets, total, unlimited, k + 1) && n.allOk == Admitted(l.buckets[..k + 1], total, unlimited)
  {
    RefusedUpto(l.buckets, total, unlimited, k);
  }

  lemma ScanCountsNext(l: Limiter, total: nat, unlimited: bool, k: nat, c: Scan)
    requires k < |l.buckets| == |c.buckets| && c.buckets[k] == l.buckets[k] && c.nowSkipping == AnyRefused(l.buckets, total, unlimited, k)
    requires c.notices == NoticesUpto(l.buckets, total, unlimited, k) && c.backoff == BackoffUpto(l, total, unlimited, k)
    ensures var n := ScanNext(c, k, total, unlimited, l.skipping);
            n.notices == NoticesUpto(l.buckets, total, unlimited, k + 1) && n.backoff == BackoffUpto(l, total, unlimited, k + 1)
  {
  }

  lemma ChargeMore(bs: seq<Bucket>, total: nat, unlimited: bool, k: nat)
    requires k < |bs|
    ensures var now := ChargeAll(bs[..k], total, unlimited) + bs[k..];
            now[k] == bs[k] && now[k := Charged(bs[k], total, unlimited)] == ChargeAll(bs[..k + 1], total, unlimited) + bs[k + 1..]
  {
    var now, next := ChargeAll(bs[..k], total, unlimited) + bs[k..], ChargeAll(bs[..k + 1], total, unlimited) + bs[k + 1..];
    forall j | 0 <= j < |bs| ensures next[j] == now[k := Charged(bs[k], total, unlimited)][j] {
      if j <= k { assert bs[..k + 1][j] == bs[j]; }
    }
  }

  lemma RefusedUpto(bs: seq<Bucket>, total: nat, unlimited: bool, i: nat)
    requires i < |bs|
    ensures AnyRefused(bs, total, unlimited, i + 1) <==> AnyRefused(bs, total, unlimited, i) || !HasRoom(bs[i], total, unlimited)
    ensures Admitted(bs[..i + 1], total, unlimited)
       <==> Admitted(bs[..i], total, unlimited) && (bs[i].mandatory ==> HasRoom(bs[i], total, unlimited))
  {
    assert bs[..i + 1] == bs[..i] + [bs[i]];
  }

  class RateLimiter {
    var buckets: seq<Bucket>
    var lastAddTime: int
    var skipping: bool
    var backoff: nat
    var unlimited: bool

    ghost function State(): Limiter
      reads this
    {
      Limiter(buckets, lastAddTime, skipping, backoff)
    }

    constructor (bytesPerBurst: nat, bytesPerDay: nat)
      ensures State() == Limiter(Initial(bytesPerBurst, bytesPerDay), 0, false, 5000) && !unlimited
    {
      buckets := Initial(bytesPerBurst, bytesPerDay);
      lastAddTime, skipping, backoff, unlimited := 0, false, 5000, false;
    }

    /** SIGHUP. */
    method Refill()
      modifies this`lastAddTime
      ensures lastAddTime == 0
    {
      lastAddTime := 0;
    }

    method MaybeFillBuckets(now: int)
      requires now >= lastAddTime
      modifies this`buckets, this`lastAddTime
      ensures State() == Filled(old(State()), now)
    {
      if lastAddTime == 0 {
        lastAddTime := now;
        for i := 0 to |buckets|
          invariant |buckets| == |old(buckets)| && lastAddTime == now
          invariant forall j :: 0 <= j < |buckets| ==>
            buckets[j] == if j < i then HalfFull(old(buckets)[j]) else old(buckets)[j]
        {
          buckets := buckets[i := buckets[i].(available := buckets[i].maxBytes / 2)];
        }
        assert buckets == HalfFullAll(old(buckets));
      } else {
        var tdiff := now - lastAddTime;
        if (!skipping && tdiff >= 1000) || (skipping && tdiff >= backoff) {
          for i := 0 to |buckets|
            invariant |buckets| == |old(buckets)| && lastAddTime == old(lastAddTime)
            invariant forall j :: 0 <= j < |buckets| ==>
              buckets[j] == if j < i then FillOne(old(buckets)[j], tdiff) else old(buckets)[j]
          {
            var b := buckets[i];
            var available := b.available + Earned(tdiff, b.fillRate);
            if available > b.maxBytes {
              available := b.maxBytes;
            }
            buckets := buckets[i := b.(available := available)];
          }
          assert buckets == FillAll(old(buckets), tdiff);
          lastAddTime := now;
        }
      }
    }

    method AllBucketsHaveRoom(total: nat) returns (allOk: bool, notices: seq<Notice>)
      modifies this`buckets, this`skipping, this`backoff
      ensures State() == AfterCharge(old(State()), total, unlimited)
      ensures allOk <==> Admitted(old(buckets), total, unlimited)
      ensures notices == NoticesUpto(old(buckets), total, unlimited, |old(buckets)|)
    {
      ghost var l := State();
      var nowSkipping;
      allOk, notices, nowSkipping := ScanBuckets(total);
      ScanIsCharge(l, total, unlimited, |l.buckets|);
      assert l.buckets[..|l.buckets|] == l.buckets;
      skipping := nowSkipping;
    }

    /** The loop over the buckets. */
    method ScanBuckets(total: nat) returns (allOk: bool, notices: seq<Notice>, nowSkipping: bool)
      modifies this`buckets, this`backoff
      ensures Scan(buckets, notices, nowSkipping, backoff, allOk) == ScanUpto(old(State()), total, unlimited, |old(buckets)|)
    {
      allOk, notices, nowSkipping := true, [], false;
      ghost var l := State();
      for i := 0 to |buckets|
        invariant |buckets| == |l.buckets| && Scan(buckets, notices, nowSkipping, backoff, allOk) == ScanUpto(l, total, unlimited, i)
      {
        var refused, notice := ChargeBucket(i, total, nowSkipping);
        notices := notices + notice;
        nowSkipping := nowSkipping || refused;
        if refused && buckets[i].mandatory {
          allOk := false;
        }
      }
    }

    /** One pass of the loop over the buckets. */
    method ChargeBucket(i: nat, total: nat, nowSkipping: bool) returns (refused: bool, notice: seq<Notice>)
      requires i < |buckets|
      modifies this`buckets, this`backoff
      ensures refused <==> !HasRoom(old(buckets)[i], total, unlimited)
      ensures buckets == old(buckets)[i := Charged(old(buckets)[i], total, unlimited)]
      ensures notice == NoticeOf(i, old(buckets)[i], total, unlimited)
      ensures backoff == if refused && old(buckets)[i].skipped == 0
                         then Backoff(old(backoff), !nowSkipping && !skipping) else old(backoff)
    {
      var b := buckets[i];
      refused, notice := false, [];
      if b.available >= total || unlimited {
        if b.skipped > 0 {
          notice := [Ended(i, b.skipped)];
        }
        buckets := buckets[i := b.(available := b.available - total, skipped := 0)];
      } else {
        if b.skipped == 0 {
          notice := [Started(i, b.fillRate)];
          b := b.(available := 0);
          if !nowSkipping && !skipping { backoff := 2 * backoff; }
          if backoff > 120 * 1000 { backoff := 120 * 1000; }
        }
        refused := true;
        buckets := buckets[i := b.(skipped := b.skipped + 1)];
      }
    }

    /** _flush_ratelimited: true if the message is written. */
    method FlushRateLimited(now: int, total: nat) returns (written: bool, notices: seq<Notice>)
      requires now >= lastAddTime
      modifies this`buckets, this`lastAddTime, this`skipping, this`backoff
      ensures State() == AfterCharge(Filled(old(State()), now), total, unlimited)
      ensures written <==> Admitted(Filled(old(State()), now).buckets, total, unlimited)
      ensures var bs := Filled(old(State()), now).buckets;
              written <==> unlimited || forall i :: 0 <= i < |bs| && bs[i].mandatory ==> total <= bs[i].available
      ensures notices == NoticesUpto(Filled(old(State()), now).buckets, total, unlimited, |old(buckets)|)
    {
      MaybeFillBuckets(now);
      written, notices := AllBucketsHaveRoom(total);
    }
  }

  // ---- runs ---------------------------------------------------------------------------------

  /** A message of `total` bytes offered at time `now`. */
  datatype Message = Message(now: int, total: nat)

  /** Limited mode, non-decreasing positive times, no refill signal. */
  ghost predicate IsRun(ls: seq<Limiter>, ms: seq<Message>) {
    && |ls| == |ms| + 1
    && (forall i :: 0 <= i < |ms| ==> ms[i].now >= ls[i].lastAdd && ms[i].now > 0)
    && (forall i, j :: 0 <= i < j < |ms| ==> ms[i].now <= ms[j].now)
    && forall i :: 0 <= i < |ms| ==> ls[i + 1] == AfterCharge(Filled(ls[i], ms[i].now), ms[i].total, false)
  }

  ghost predicate WrittenAt(ls: seq<Limiter>, ms: seq<Message>, i: nat)
    requires IsRun(ls, ms) && i < |ms|
  {
    Admitted(Filled(ls[i], ms[i].now).buckets, ms[i].total, false)
  }

  /** Bytes of ordinary messages written among the first `i`. */
  ghost function BytesWritten(ls: seq<Limiter>, ms: seq<Message>, i: nat): nat
    requires IsRun(ls, ms) && i <= |ms|
  {
    if i == 0 then 0
    else BytesWritten(ls, ms, i - 1) + if WrittenAt(ls, ms, i - 1) then ms[i - 1].total else 0
  }

  /** The rates and sizes of the buckets never change. */
  ghost predicate SameShape(b: Bucket, b': Bucket) {
    b'.mandatory == b.mandatory && b'.maxBytes == b.maxBytes && b'.fillRate == b.fillRate
  }

  lemma {:induction false} MulAdd(a: nat, b: nat, y: int)
    ensures Mul(a + b, y) == Mul(a, y) + Mul(b, y)
    decreases a
  {
    if a > 0 {
      MulAdd(a - 1, b, y);
    }
  }

  /** Rounding down at each fill never earns more than filling once. */
  lemma EarnedSplits(a: nat, b: nat, rate: nat)
    ensures Earned(a, rate) + Earned(b, rate) <= Earned(a + b, rate)
  {
    MulAdd(a, b, rate);
    MulNonNegative(a, rate);
    MulNonNegative(b, rate);
  }

  lemma {:induction false} MulNonNegative(a: nat, y: nat)
    ensures Mul(a, y) >= 0
  {
    if a > 0 {
      MulNonNegative(a - 1, y);
    }
  }

  /** The account of bucket `b` since a refill to `start` at time t0, with `spent` bytes charged for written messages. */
  ghost predicate Accounted(b: Bucket, start: nat, t0: int, lastAdd: int, spent: nat) {
    && 0 <= b.available <= b.maxBytes
    && t0 <= lastAdd
    && spent + b.available <= start + Earned(lastAdd - t0, b.fillRate)
  }

  lemma FillKeepsAccount(b: Bucket, start: nat, t0: int, lastAdd: int, now: int, spent: nat)
    requires Accounted(b, start, t0, lastAdd, spent) && lastAdd <= now
    ensures Accounted(FillOne(b, now - lastAdd), start, t0, now, spent)
  {
    MulNonNegative(now - lastAdd, b.fillRate);
    EarnedSplits(lastAdd - t0, now - lastAdd, b.fillRate);
  }

  /** One message: a charged bucket pays for it, a refused message is paid for by nobody. */
  lemma ChargeKeepsAccount(b: Bucket, start: nat, t0: int, lastAdd: int, spent: nat, total: nat, written: bool)
    requires Accounted(b, start, t0, lastAdd, spent)
    requires written ==> HasRoom(b, total, false)
    ensures Accounted(Charged(b, total, false), start, t0, lastAdd, spent + if written then total else 0)
  {
  }

  /** Right after a refill at the positive time t0. */
  ghost predicate JustRefilled(l: Limiter, t0: int) {
    && l.lastAdd == t0 > 0
    && forall i :: 0 <= i < |l.buckets| ==> l.buckets[i].available == l.buckets[i].maxBytes / 2
  }

  lemma {:induction false} RunKeepsAccount(ls: seq<Limiter>, ms: seq<Message>, t0: int, i: nat, k: nat)
    requires IsRun(ls, ms) && JustRefilled(ls[0], t0) && i <= |ms|
    requires k < |ls[0].buckets| && ls[0].buckets[k].mandatory
    ensures k < |ls[i].buckets| && SameShape(ls[0].buckets[k], ls[i].buckets[k])
    ensures Accounted(ls[i].buckets[k], ls[0].buckets[k].maxBytes / 2, t0, ls[i].lastAdd, BytesWritten(ls, ms, i))
    ensures ls[i].lastAdd > 0 && (i > 0 ==> ls[i].lastAdd <= ms[i - 1].now)
  {
    EarnedNothing(ls[0].buckets[k].fillRate);
    if i > 0 {
      RunKeepsAccount(ls, ms, t0, i - 1, k);
      var start, spent := ls[0].buckets[k].maxBytes / 2, BytesWritten(ls, ms, i - 1);
      assert ls[i - 1 + 1] == AfterCharge(Filled(ls[i - 1], ms[i - 1].now), ms[i - 1].total, false);
      MessageKeepsAccount(ls[i - 1], ms[i - 1], k, start, t0, spent);
    }
  }

  lemma EarnedNothing(rate: nat)
    ensures Earned(0, rate) == 0
  {
  }

  /** Fill and charge together, in limited mode and without a refill. */
  lemma MessageKeepsAccount(l: Limiter, m: Message, k: nat, start: nat, t0: int, spent: nat)
    requires k < |l.buckets| && l.buckets[k].mandatory && 0 < l.lastAdd <= m.now
    requires Accounted(l.buckets[k], start, t0, l.lastAdd, spent)
    ensures var f := Filled(l, m.now);
            var l' := AfterCharge(f, m.total, false);
            && k < |l'.buckets| && SameShape(l.buckets[k], l'.buckets[k]) && 0 < l'.lastAdd <= m.now
            && Accounted(l'.buckets[k], start, t0, l'.lastAdd,
                         spent + if Admitted(f.buckets, m.total, false) then m.total else 0)
  {
    var f := Filled(l, m.now);
    FillKeepsAccount(l.buckets[k], start, t0, l.lastAdd, m.now, spent);
    assert Accounted(f.buckets[k], start, t0, f.lastAdd, spent);
    ChargeKeepsAccount(f.buckets[k], start, t0, f.lastAdd, spent, m.total, Admitted(f.buckets, m.total, false));
    assert AfterCharge(f, m.total, false).buckets[k] == Charged(f.buckets[k], m.total, false);
  }

  /**
   The rate limit: in limited mode, from any refill, the ordinary bytes written
   never exceed half of each mandatory bucket plus what its fill rate earns in the
   time elapsed, and its level stays between 0 and its size.
   */
  lemma RateIsLimited(ls: seq<Limiter>, ms: seq<Message>, t0: int, i: nat, k: nat)
    requires IsRun(ls, ms) && JustRefilled(ls[0], t0) && 0 < i <= |ms|
    requires k < |ls[0].buckets| && ls[0].buckets[k].mandatory
    ensures var b := ls[0].buckets[k];
            && t0 <= ms[i - 1].now
            && BytesWritten(ls, ms, i) <= b.maxBytes / 2 + (ms[i - 1].now - t0) * b.fillRate / 1000
            && k < |ls[i].buckets| && 0 <= ls[i].buckets[k].available <= b.maxBytes
  {
    RunKeepsAccount(ls, ms, t0, i, k);
    AccountBound(ls[i].buckets[k], ls[0].buckets[k].maxBytes / 2, t0, ls[i].lastAdd, ms[i - 1].now,
                 BytesWritten(ls, ms, i));
  }

  /** A refill is asked for by lastAdd == 0 and made by the next message; making it first changes nothing. */
  lemma RefillFirst(l: Limiter, now: int)
    requires l.lastAdd == 0 && now > 0
    ensures JustRefilled(Filled(l, now), now) && Filled(Filled(l, now), now) == Filled(l, now)
  {
    var f := Filled(l, now);
    if TimeToFill(f, now) {
      forall i | 0 <= i < |f.buckets| ensures FillAll(f.buckets, 0)[i] == f.buckets[i] {
        EarnedNothing(f.buckets[i].fillRate);
      }
      assert FillAll(f.buckets, 0) == f.buckets;
    }
  }

  lemma {:induction false} SameBytes(ls: seq<Limiter>, ls': seq<Limiter>, ms: seq<Message>, i: nat)
    requires IsRun(ls, ms) && IsRun(ls', ms) && i <= |ms| && |ms| > 0
    requires ls'[1..] == ls[1..] && Filled(ls'[0], ms[0].now) == Filled(ls[0], ms[0].now)
    ensures BytesWritten(ls', ms, i) == BytesWritten(ls, ms, i)
  {
    if i > 0 {
      SameBytes(ls, ls', ms, i - 1);
      if i > 1 { assert ls'[1..][i - 2] == ls[1..][i - 2]; }
    }
  }

  /** From any refill: the bound counts from the first message after it. */
  lemma RateIsLimitedFromRefill(ls: seq<Limiter>, ms: seq<Message>, i: nat, k: nat)
    requires IsRun(ls, ms) && ls[0].lastAdd == 0 && 0 < i <= |ms|
    requires k < |ls[0].buckets| && ls[0].buckets[k].mandatory
    ensures var b := ls[0].buckets[k];
            BytesWritten(ls, ms, i) <= b.maxBytes / 2 + (ms[i - 1].now - ms[0].now) * b.fillRate / 1000
  {
    var now := ms[0].now;
    RefillFirst(ls[0], now);
    var ls' := [Filled(ls[0], now)] + ls[1..];
    forall j | 0 <= j < |ms|
      ensures ms[j].now >= ls'[j].lastAdd && ls'[j + 1] == AfterCharge(Filled(ls'[j], ms[j].now), ms[j].total, false)
    {
      assert ls'[j + 1] == ls[j + 1] == AfterCharge(Filled(ls[j], ms[j].now), ms[j].total, false);
      if j > 0 { assert ls'[j] == ls[j]; }
    }
    assert ls'[1..] == ls[1..];
    SameBytes(ls, ls', ms, i);
    RateIsLimited(ls', ms, now, i, k);
  }

  /** What the two limits on the command line buy: in five minutes three quarters of a burst, in a day one and a half days' bytes. */
  lemma LimitsInUse(ls: seq<Limiter>, ms: seq<Message>, i: nat, bytesPerBurst: nat, bytesPerDay: nat)
    requires IsRun(ls, ms) && ls[0] == Limiter(Initial(bytesPerBurst, bytesPerDay), 0, false, 5000) && 0 < i <= |ms|
    ensures ms[i - 1].now - ms[0].now <= 300_000 ==> 4 * BytesWritten(ls, ms, i) <= 3 * bytesPerBurst
    ensures ms[i - 1].now - ms[0].now <= 86_400_000 ==> 2 * BytesWritten(ls, ms, i) <= 3 * bytesPerDay
  {
    RateIsLimitedFromRefill(ls, ms, i, 0);
    RateIsLimitedFromRefill(ls, ms, i, 1);
    var t := ms[i - 1].now - ms[0].now;
    if t <= 300_000 { EarnedWithin(t, 300, (bytesPerBurst / 2) / 300); }
    if t <= 86_400_000 { EarnedWithin(t, 86_400, bytesPerDay / 86_400); }
  }

  lemma EarnedWithin(t: nat, seconds: nat, rate: nat)
    requires t <= 1000 * seconds
    ensures t * rate / 1000 <= seconds * rate
  {
    MulIsProduct(t, rate);
    MulIsProduct(1000 * seconds - t, rate);
    MulIsProduct(1000 * seconds, rate);
    MulAdd(t, 1000 * seconds - t, rate);
    MulNonNegative(1000 * seconds - t, rate);
  }

  ghost predicate Level(b: Bucket) {
    0 <= b.available <= b.maxBytes
  }

  /** Every bucket, mandatory or not, always holds between nothing and its size. */
  lemma {:induction false} LevelsStayBounded(ls: seq<Limiter>, ms: seq<Message>, i: nat, k: nat)
    requires IsRun(ls, ms) && i <= |ms| && k < |ls[0].buckets| && Level(ls[0].buckets[k])
    ensures k < |ls[i].buckets| && Level(ls[i].buckets[k]) && SameShape(ls[0].buckets[k], ls[i].buckets[k])
  {
    if i > 0 {
      LevelsStayBounded(ls, ms, i - 1, k);
      assert ls[i - 1 + 1] == AfterCharge(Filled(ls[i - 1], ms[i - 1].now), ms[i - 1].total, false);
      MessageKeepsLevel(ls[i - 1], ms[i - 1], k);
    }
  }

  lemma MessageKeepsLevel(l: Limiter, m: Message, k: nat)
    requires k < |l.buckets| && Level(l.buckets[k]) && l.lastAdd <= m.now
    ensures var l' := AfterCharge(Filled(l, m.now), m.total, false);
            k < |l'.buckets| && Level(l'.buckets[k]) && SameShape(l.buckets[k], l'.buckets[k])
  {
    var f := Filled(l, m.now);
    MulNonNegative(m.now - l.lastAdd, l.buckets[k].fillRate);
    assert Level(f.buckets[k]);
    assert AfterCharge(f, m.total, false).buckets[k] == Charged(f.buckets[k], m.total, false);
  }

  lemma AccountBound(b: Bucket, start: nat, t0: int, lastAdd: int, now: int, spent: nat)
    requires Accounted(b, start, t0, lastAdd, spent) && lastAdd <= now
    ensures spent <= start + (now - t0) * b.fillRate / 1000
  {
    EarnedSplits(lastAdd - t0, now - lastAdd, b.fillRate);
    MulNonNegative(now - lastAdd, b.fillRate);
    MulIsProduct(now - t0, b.fillRate);
  }

  // ---- refilling ------------------------------------------------------------------------------

  /** How long a fill waits: a second, or the back-off while messages are being dropped. */
  function Wait(l: Limiter): nat {
    if l.skipping then l.backoff else 1000
  }

  /** A bucket that was refilled, topped up after a long enough wait, or left alone. */
  lemma FillMeans(l: Limiter, now: int, k: nat)
    requires now >= l.lastAdd && k < |l.buckets|
    ensures var f, b := Filled(l, now), l.buckets[k];
            && |f.buckets| == |l.buckets| && f.skipping == l.skipping && f.backoff == l.backoff && SameShape(b, f.buckets[k])
            && (l.lastAdd == 0 ==> f.buckets[k].available == b.maxBytes / 2 && f.lastAdd == now)
            && (l.lastAdd != 0 && now - l.lastAdd < Wait(l) ==> f == l)
            && (l.lastAdd != 0 && now - l.lastAdd >= Wait(l) ==>
                  var sum := b.available + (now - l.lastAdd) * b.fillRate / 1000;
                  f.lastAdd == now && f.buckets[k].available <= b.maxBytes && f.buckets[k].available <= sum
                  && (f.buckets[k].available == b.maxBytes || f.buckets[k].available == sum))
  {
    MulIsProduct(now - l.lastAdd, l.buckets[k].fillRate);
  }

  /** The back-off never exceeds two minutes. */
  lemma {:induction false} BackoffCapped(l: Limiter, total: nat, unlimited: bool, i: nat)
    requires i <= |l.buckets| && l.backoff <= 120_000
    ensures BackoffUpto(l, total, unlimited, i) <= 120_000
  {
    if i > 0 { BackoffCapped(l, total, unlimited, i - 1); }
  }

  /** With no dropping under way, the first refusal doubles the back-off; otherwise it stays. */
  lemma {:induction false} BackoffDoubles(l: Limiter, total: nat, i: nat)
    requires i <= |l.buckets| && l.backoff <= 120_000 && !l.skipping
    requires forall k :: 0 <= k < |l.buckets| ==> l.buckets[k].skipped == 0
    ensures BackoffUpto(l, total, false, i)
         == if exists k :: 0 <= k < i && l.buckets[k].available < total
            then (if l.backoff > 60_000 then 120_000 else 2 * l.backoff) else l.backoff
  {
    if i > 0 {
      BackoffDoubles(l, total, i - 1);
      if exists k :: 0 <= k < i - 1 && l.buckets[k].available < total {
        var k :| 0 <= k < i - 1 && l.buckets[k].available < total;
        assert !HasRoom(l.buckets[k], total, false);
      }
    }
  }

  lemma {:induction false} BackoffStays(l: Limiter, total: nat, unlimited: bool, i: nat)
    requires i <= |l.buckets| && l.backoff <= 120_000 && l.skipping
    ensures BackoffUpto(l, total, unlimited, i) == l.backoff
  {
    if i > 0 { BackoffStays(l, total, unlimited, i - 1); }
  }

  /** All levels are in range and the back-off is at most two minutes. */
  ghost predicate Sound(l: Limiter) {
    l.backoff <= 120_000 && forall k :: 0 <= k < |l.buckets| ==> Level(l.buckets[k])
  }

  lemma {:induction false} RunIsSound(ls: seq<Limiter>, ms: seq<Message>, i: nat)
    requires IsRun(ls, ms) && i <= |ms| && Sound(ls[0])
    ensures Sound(ls[i]) && |ls[i].buckets| == |ls[0].buckets|
    ensures i > 0 ==> 0 != ls[i].lastAdd <= ms[i - 1].now
  {
    if i > 0 {
      RunIsSound(ls, ms, i - 1);
      assert ls[i - 1 + 1] == AfterCharge(Filled(ls[i - 1], ms[i - 1].now), ms[i - 1].total, false);
      var f := Filled(ls[i - 1], ms[i - 1].now);
      BackoffCapped(f, ms[i - 1].total, false, |f.buckets|);
      forall k | 0 <= k < |ls[i].buckets| ensures Level(ls[i].buckets[k]) { MessageKeepsLevel(ls[i - 1], ms[i - 1], k); }
    }
  }

  /**
   Nobody is shut out for ever: after a pause of two minutes in which every mandatory bucket
   earns a message's bytes, that message is written, whatever was dropped before, provided it
   fits the buckets at all.
   */
  lemma PauseAdmits(ls: seq<Limiter>, ms: seq<Message>, i: nat)
    requires IsRun(ls, ms) && 0 < i < |ms| && Sound(ls[0])
    requires ms[i].now - ms[i - 1].now >= 120_000
    requires forall k :: 0 <= k < |ls[i].buckets| && ls[i].buckets[k].mandatory ==>
               ms[i].total <= ls[i].buckets[k].maxBytes
               && 1000 * ms[i].total <= (ms[i].now - ms[i - 1].now) * ls[i].buckets[k].fillRate
    ensures WrittenAt(ls, ms, i)
  {
    RunIsSound(ls, ms, i);
    var l, now, total := ls[i], ms[i].now, ms[i].total;
    var f := Filled(l, now);
    forall k | 0 <= k < |f.buckets| && f.buckets[k].mandatory ensures HasRoom(f.buckets[k], total, false) {
      FillMeans(l, now, k);
      var b := l.buckets[k];
      EarnsEnough(now - l.lastAdd, now - ms[i - 1].now, b.fillRate, total);
    }
  }

  lemma EarnsEnough(longer: nat, pause: nat, rate: nat, total: nat)
    requires pause <= longer && 1000 * total <= pause * rate
    ensures longer * rate / 1000 >= total
  {
    MulIsProduct(longer, rate);
    MulIsProduct(pause, rate);
    MulAdd(longer - pause, pause, rate);
    MulNonNegative(longer - pause, rate);
  }

  /** What cannot fit is never written: a message longer than a mandatory bucket. */
  lemma OversizeIsDropped(ls: seq<Limiter>, ms: seq<Message>, i: nat, k: nat)
    requires IsRun(ls, ms) && i < |ms| && Sound(ls[0]) && k < |ls[i].buckets| && ls[i].buckets[k].mandatory
    requires ms[i].total > ls[i].buckets[k].maxBytes
    ensures !WrittenAt(ls, ms, i)
  {
    RunIsSound(ls, ms, i);
    FillMeans(ls[i], ms[i].now, k);
    assert !HasRoom(Filled(ls[i], ms[i].now).buckets[k], ms[i].total, false);
  }

  // ---- notices --------------------------------------------------------------------------------

  /** Whether bucket `k` refused message `i`. */
  ghost predicate RefusedAt(ls: seq<Limiter>, ms: seq<Message>, i: nat, k: nat)
    requires IsRun(ls, ms) && i < |ms|
  {
    var bs := Filled(ls[i], ms[i].now).buckets;
    k < |bs| && bs[k].available < ms[i].total
  }

  /** The notices printed for message `i`. */
  ghost function NoticesAt(ls: seq<Limiter>, ms: seq<Message>, i: nat): seq<Notice>
    requires IsRun(ls, ms) && i < |ms|
  {
    var bs := Filled(ls[i], ms[i].now).buckets;
    NoticesUpto(bs, ms[i].total, false, |bs|)
  }

  /** How many messages bucket `k` refused in a row just before message `i`. */
  ghost function Refusals(ls: seq<Limiter>, ms: seq<Message>, i: nat, k: nat): nat
    requires IsRun(ls, ms) && i <= |ms|
  {
    if i == 0 || !RefusedAt(ls, ms, i - 1, k) then 0 else Refusals(ls, ms, i - 1, k) + 1
  }

  lemma FilledSkips(l: Limiter, now: int, k: nat)
    requires now >= l.lastAdd && k < |l.buckets|
    ensures k < |Filled(l, now).buckets| && Filled(l, now).buckets[k].skipped == l.buckets[k].skipped
  {
  }

  lemma {:induction false} SkippedCountsRefusals(ls: seq<Limiter>, ms: seq<Message>, i: nat, k: nat)
    requires IsRun(ls, ms) && i <= |ms| && k < |ls[0].buckets| && ls[0].buckets[k].skipped == 0
    ensures k < |ls[i].buckets| && ls[i].buckets[k].skipped == Refusals(ls, ms, i, k)
  {
    if i > 0 {
      SkippedCountsRefusals(ls, ms, i - 1, k);
      assert ls[i - 1 + 1] == AfterCharge(Filled(ls[i - 1], ms[i - 1].now), ms[i - 1].total, false);
      FilledSkips(ls[i - 1], ms[i - 1].now, k);
    }
  }

  lemma {:induction false} NoticeFrom(bs: seq<Bucket>, total: nat, i: nat, n: Notice)
    requires i <= |bs|
    ensures n in NoticesUpto(bs, total, false, i) <==> n.i < i && n in NoticeOf(n.i, bs[n.i], total, false)
  {
    if i > 0 {
      NoticeFrom(bs, total, i - 1, n);
    }
  }

  /** A bucket pays for what it has room for; the first refusal of a series empties it, so that the series ends with bytes earned since. */
  lemma ChargeMeans(ls: seq<Limiter>, ms: seq<Message>, i: nat, k: nat)
    requires IsRun(ls, ms) && i < |ms| && k < |ls[0].buckets| && ls[0].buckets[k].skipped == 0
    ensures var bs := Filled(ls[i], ms[i].now).buckets;
            && k < |bs| && k < |ls[i + 1].buckets|
            && ls[i + 1].buckets[k].available
               == if !RefusedAt(ls, ms, i, k) then bs[k].available - ms[i].total
                  else if Refusals(ls, ms, i, k) == 0 then 0 else bs[k].available
    ensures ls[i + 1].skipping <==> exists j :: 0 <= j < |ls[i].buckets| && RefusedAt(ls, ms, i, j)
  {
    SkippedCountsRefusals(ls, ms, i, k);
    FilledSkips(ls[i], ms[i].now, k);
    assert ls[i + 1] == AfterCharge(Filled(ls[i], ms[i].now), ms[i].total, false);
    SkippingMeans(ls, ms, i);
  }

  lemma SkippingMeans(ls: seq<Limiter>, ms: seq<Message>, i: nat)
    requires IsRun(ls, ms) && i < |ms|
    ensures ls[i + 1].skipping <==> exists j :: 0 <= j < |ls[i].buckets| && RefusedAt(ls, ms, i, j)
  {
    var bs, total := Filled(ls[i], ms[i].now).buckets, ms[i].total;
    assert ls[i + 1] == AfterCharge(Filled(ls[i], ms[i].now), total, false);
    forall j | 0 <= j < |bs| ensures RefusedAt(ls, ms, i, j) <==> !HasRoom(bs[j], total, false) {
    }
    if AnyRefused(bs, total, false, |bs|) {
      var j :| 0 <= j < |bs| && !HasRoom(bs[j], total, false);
      assert RefusedAt(ls, ms, i, j);
    }
  }

  /** Of the three buckets the program sets up, the first two decide and the third only counts. */
  lemma TwoBucketsDecide(ls: seq<Limiter>, ms: seq<Message>, i: nat, bytesPerBurst: nat, bytesPerDay: nat)
    requires IsRun(ls, ms) && ls[0] == Limiter(Initial(bytesPerBurst, bytesPerDay), 0, false, 5000) && i < |ms|
    ensures WrittenAt(ls, ms, i) <==> !RefusedAt(ls, ms, i, 0) && !RefusedAt(ls, ms, i, 1)
  {
    LevelsStayBounded(ls, ms, i, 0);
    LevelsStayBounded(ls, ms, i, 1);
    LevelsStayBounded(ls, ms, i, 2);
    RunIsSound(ls, ms, i);
    FillMeans(ls[i], ms[i].now, 0);
    FillMeans(ls[i], ms[i].now, 1);
    FillMeans(ls[i], ms[i].now, 2);
  }

  /** A start notice is printed exactly at the first refusal of a series, and names the bucket's rate. */
  lemma StartNoticeIsExact(ls: seq<Limiter>, ms: seq<Message>, i: nat, k: nat, rate: nat)
    requires IsRun(ls, ms) && i < |ms| && k < |ls[0].buckets| && ls[0].buckets[k].skipped == 0
    ensures Started(k, rate) in NoticesAt(ls, ms, i)
       <==> RefusedAt(ls, ms, i, k) && Refusals(ls, ms, i, k) == 0 && rate == Filled(ls[i], ms[i].now).buckets[k].fillRate
  {
    SkippedCountsRefusals(ls, ms, i, k);
    FilledSkips(ls[i], ms[i].now, k);
    var bs := Filled(ls[i], ms[i].now).buckets;
    NoticeFrom(bs, ms[i].total, |bs|, Started(k, rate));
  }

  /**
   Every end notice is exact: at message `i` bucket `k` reports `count` dropped
   messages if and only if it has room again after refusing exactly `count` > 0
   messages in a row.
   */
  lemma EndNoticeIsExact(ls: seq<Limiter>, ms: seq<Message>, i: nat, k: nat, count: nat)
    requires IsRun(ls, ms) && i < |ms| && k < |ls[0].buckets| && ls[0].buckets[k].skipped == 0
    ensures Ended(k, count) in NoticesAt(ls, ms, i)
       <==> count == Refusals(ls, ms, i, k) > 0 && !RefusedAt(ls, ms, i, k)
  {
    SkippedCountsRefusals(ls, ms, i, k);
    FilledSkips(ls[i], ms[i].now, k);
    var bs := Filled(ls[i], ms[i].now).buckets;
    NoticeFrom(bs, ms[i].total, |bs|, Ended(k, count));
  }
}
