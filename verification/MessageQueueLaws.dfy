/**
 Laws of one message queue over whole runs: no accepted message is lost or
 delivered twice, posts stay in order, delayed messages are never early, and they
 leave in trigger order except across the 32-bit clock's wrap-around.
 */
module MessageQueueLaws {
  import opened Words
  import Time
  import opened Collections
  import opened MessageQueue

  // ---- delayed messages --------------------------------------------------------------------

  /** No element precedes an earlier one. */
  ghost predicate Sorted(ds: seq<Delayed>) {
    forall i, j :: 0 <= i < j < |ds| ==> !Before(ds[j], ds[i])
  }

  /** How often `m` occurs in `s`. */
  ghost function Times(s: seq<Message>, m: Message): nat {
    if s == [] then 0 else Times(s[..|s| - 1], m) + if s[|s| - 1] == m then 1 else 0
  }

  lemma {:induction false} TimesConcat(a: seq<Message>, b: seq<Message>, m: Message)
    ensures Times(a + b, m) == Times(a, m) + Times(b, m)
    decreases |b|
  {
    if b == [] {
      assert a + b == a;
    } else {
      var k := |b| - 1;
      assert (a + b)[..|a| + k] == a + b[..k];
      TimesConcat(a, b[..k], m);
    }
  }

  lemma MessagesConcat(a: seq<Delayed>, b: seq<Delayed>)
    ensures Messages(a + b) == Messages(a) + Messages(b)
  {
  }

  lemma MessagesWithout(ds: seq<Delayed>, k: nat, m: Message)
    requires k < |ds|
    ensures Times(Messages(ds), m) == Times(Messages(Without(ds, k)), m) + Times([ds[k].msg], m)
  {
    var a, b := ds[..k], ds[k + 1..];
    assert ds == a + ([ds[k]] + b);
    MessagesConcat(a, [ds[k]] + b);
    MessagesConcat([ds[k]], b);
    MessagesConcat(a, b);
    assert Messages([ds[k]]) == [ds[k].msg];
    TimesConcat(Messages(a), [ds[k].msg] + Messages(b), m);
    TimesConcat([ds[k].msg], Messages(b), m);
    TimesConcat(Messages(a), Messages(b), m);
  }

  /** Moving delayed messages neither loses nor copies one. */
  lemma {:induction false} MovedAndLeft(ds: seq<Delayed>, now: nat, m: Message)
    ensures Times(Messages(Moved(ds, now)), m) + Times(Messages(Left(ds, now)), m) == Times(Messages(ds), m)
    decreases |ds|
  {
    if ds == [] || Later(now, ds[TopIndex(ds)]) {
      assert Messages([]) == [];
    } else {
      var k := TopIndex(ds);
      var rest := Without(ds, k);
      MovedAndLeft(rest, now, m);
      MessagesWithout(ds, k, m);
      MessagesConcat([ds[k]], Moved(rest, now));
      assert Messages([ds[k]]) == [ds[k].msg];
      TimesConcat([ds[k].msg], Messages(Moved(rest, now)), m);
    }
  }

  lemma {:induction false} MovedOrLeft(ds: seq<Delayed>, now: nat, d: Delayed)
    requires d in ds
    ensures d in Moved(ds, now) || d in Left(ds, now)
    decreases |ds|
  {
    if ds != [] && !Later(now, ds[TopIndex(ds)]) && d != ds[TopIndex(ds)] {
      MovedOrLeft(Without(ds, TopIndex(ds)), now, d);
    }
  }

  /**
   What one pass of Get moves: triggered messages only, in the priority queue's
   order, none of them behind one that stays; if any stay, the first of them has
   not triggered.
   */
  lemma {:induction false} MovedInOrder(ds: seq<Delayed>, now: nat)
    ensures Sorted(Moved(ds, now))
    ensures forall d :: d in Moved(ds, now) ==> d in ds && !Later(now, d)
    ensures forall d :: d in Left(ds, now) ==> d in ds
    ensures forall d, e :: d in Moved(ds, now) && e in Left(ds, now) ==> !Before(e, d)
    ensures Left(ds, now) != [] ==> Later(now, Left(ds, now)[TopIndex(Left(ds, now))])
    decreases |ds|
  {
    if ds == [] || Later(now, ds[TopIndex(ds)]) {
    } else {
      var k := TopIndex(ds);
      var rest := Without(ds, k);
      MovedInOrder(rest, now);
      assert forall d :: d in rest ==> d in ds;
      var m := Moved(ds, now);
      assert m[0] == ds[k] && m[1..] == Moved(rest, now);
      forall i, j | 0 <= i < j < |m| ensures !Before(m[j], m[i]) {
        assert m[j] == m[1..][j - 1] && m[j] in rest;
        if i > 0 { assert m[i] == m[1..][i - 1]; }
      }
    }
  }

  /** The order the clock means: true trigger time, then order of posting. */
  predicate Sooner(x: Delayed, y: Delayed) {
    x.due < y.due || (x.due == y.due && x.num < y.num)
  }

  /** The priority queue respects true trigger times exactly within one turn of the 32-bit clock. */
  lemma RawOrderIsTrueOrder(x: Delayed, y: Delayed)
    requires x.due < y.due < x.due + 0x1_0000_0000
    ensures Before(x, y) <==> x.due / 0x1_0000_0000 == y.due / 0x1_0000_0000
    ensures Before(y, x) <==> x.due / 0x1_0000_0000 != y.due / 0x1_0000_0000
  {
    var q := x.due / 0x1_0000_0000;
    assert x.due == q * 0x1_0000_0000 + U32(x.due);
    if y.due / 0x1_0000_0000 == q {
      assert y.due == q * 0x1_0000_0000 + U32(y.due);
    } else {
      assert y.due / 0x1_0000_0000 == q + 1;
      assert y.due == (q + 1) * 0x1_0000_0000 + U32(y.due);
    }
  }

  /**
   Across the wrap-around a triggered message can be held back: 5 ms before the
   clock wraps a message is due, but one due 5 ms after the wrap sits on top.
   */
  lemma WrapHoldsBack(m1: Message, m2: Message)
    ensures var ds := [Delayed(0xFFFF_FFFB, 0, m1), Delayed(0x1_0000_0005, 1, m2)];
            && ds[0].due <= 0xFFFF_FFFF && Moved(ds, 0xFFFF_FFFF) == []
  {
    var ds := [Delayed(0xFFFF_FFFB, 0, m1), Delayed(0x1_0000_0005, 1, m2)];
    assert U32(ds[1].due) == 5 && U32(ds[0].due) == 0xFFFF_FFFB;
    assert Before(ds[1], ds[0]);
    assert TopIndex(ds) == 1;
    assert S32(5 - 0xFFFF_FFFF) == 6;
  }

  /** What the source assumes of its delays: triggers less than 2^31 ms away, less than 2^32 postings. */
  ghost predicate InReach(ds: seq<Delayed>, now: nat) {
    forall d :: d in ds ==> -0x8000_0000 < d.due - now < 0x8000_0000 && d.num < 0x1_0000_0000
  }

  ghost predicate SameTurn(ds: seq<Delayed>) {
    forall d, e :: d in ds && e in ds ==> d.due / 0x1_0000_0000 == e.due / 0x1_0000_0000
  }

  ghost predicate NoneTriggered(ds: seq<Delayed>, now: nat) {
    forall d :: d in ds ==> d.due > now
  }

  /** No element is truly sooner than an earlier one. */
  ghost predicate InTrueOrder(ds: seq<Delayed>) {
    forall i, j :: 0 <= i < j < |ds| ==> !Sooner(ds[j], ds[i])
  }

  lemma BeforeIsSooner(x: Delayed, y: Delayed)
    requires x.due / 0x1_0000_0000 == y.due / 0x1_0000_0000
    requires x.num < 0x1_0000_0000 && y.num < 0x1_0000_0000
    ensures Before(x, y) <==> Sooner(x, y)
  {
    var q := x.due / 0x1_0000_0000;
    assert x.due == q * 0x1_0000_0000 + U32(x.due) && y.due == q * 0x1_0000_0000 + U32(y.due);
  }

  lemma MovedHaveTriggered(ds: seq<Delayed>, now: nat)
    requires InReach(ds, now)
    ensures forall d :: d in Moved(ds, now) ==> d in ds && d.due <= now
  {
    MovedInOrder(ds, now);
    forall d | d in Moved(ds, now) ensures d.due <= now { Time.LaterMeansLater(now, d.due); }
  }

  /** Within one turn a pass moves exactly the triggered messages, in true order of trigger and posting. */
  lemma TriggeredLeaveInOrder(ds: seq<Delayed>, now: nat)
    requires InReach(ds, now) && SameTurn(ds)
    ensures forall d :: d in ds ==> if d.due <= now then d in Moved(ds, now) else d in Left(ds, now)
    ensures forall d :: d in Left(ds, now) ==> d in ds && d.due > now
    ensures InTrueOrder(Moved(ds, now))
  {
    MovedInOrder(ds, now);
    MovedHaveTriggered(ds, now);
    var m, left := Moved(ds, now), Left(ds, now);
    forall d | d in left ensures d.due > now {
      var top := left[TopIndex(left)];
      Time.LaterMeansLater(now, top.due);
      assert top in left && top in ds;
      var j :| 0 <= j < |left| && left[j] == d;
      assert !Before(left[j], top);
      BeforeIsSooner(d, top);
    }
    forall i, j | 0 <= i < j < |m| ensures !Sooner(m[j], m[i]) {
      assert m[i] in m && m[j] in m;
      BeforeIsSooner(m[j], m[i]);
    }
    forall d | d in ds ensures d in m || d in left {
      MovedOrLeft(ds, now, d);
    }
  }

  /** A triggered message and one of the next turn cannot both be treated as they should. */
  lemma NextTurnOvertakes(ds: seq<Delayed>, now: nat, d: Delayed, e: Delayed)
    requires InReach(ds, now) && d in ds && e in ds && d.due <= now
    requires d.due < e.due && d.due / 0x1_0000_0000 != e.due / 0x1_0000_0000
    ensures d !in Moved(ds, now) || !InTrueOrder(Moved(ds, now))
  {
    var m := Moved(ds, now);
    RawOrderIsTrueOrder(d, e);
    MovedInOrder(ds, now);
    MovedOrLeft(ds, now, e);
    if d in m && e in m { RawAheadIsFalse(m, d, e); }
  }

  lemma RawAheadIsFalse(m: seq<Delayed>, d: Delayed, e: Delayed)
    requires Sorted(m) && d in m && e in m && Before(e, d) && d.due < e.due
    ensures !InTrueOrder(m)
  {
    var i :| 0 <= i < |m| && m[i] == d;
    var j :| 0 <= j < |m| && m[j] == e;
    assert j < i && Sooner(m[i], m[j]);
  }

  /**
   The exact condition: a pass moves every triggered message, in true order, if and only if
   nothing has triggered or all delayed messages lie in one turn of the 32-bit clock.
   */
  lemma PassIsFairIff(ds: seq<Delayed>, now: nat)
    requires InReach(ds, now)
    ensures (forall d :: d in ds && d.due <= now ==> d in Moved(ds, now)) && InTrueOrder(Moved(ds, now))
       <==> NoneTriggered(ds, now) || SameTurn(ds)
  {
    if NoneTriggered(ds, now) {
      NothingMoves(ds, now);
    } else if SameTurn(ds) {
      TriggeredLeaveInOrder(ds, now);
    } else {
      var t :| t in ds && t.due <= now;
      var x, y :| x in ds && y in ds && x.due / 0x1_0000_0000 != y.due / 0x1_0000_0000;
      var o := if x.due / 0x1_0000_0000 != t.due / 0x1_0000_0000 then x else y;
      if t.due < o.due { NextTurnOvertakes(ds, now, t, o); } else { NextTurnOvertakes(ds, now, o, t); }
    }
  }

  lemma NothingMoves(ds: seq<Delayed>, now: nat)
    requires InReach(ds, now) && NoneTriggered(ds, now)
    ensures Moved(ds, now) == [] && Left(ds, now) == ds
  {
    if ds != [] {
      assert ds[TopIndex(ds)] in ds;
      Time.LaterMeansLater(now, ds[TopIndex(ds)].due);
    }
  }

  // ---- runs ------------------------------------------------------------------------------------

  datatype Event =
    | Posts(m: Message)
    | Delays(due: nat, m: Message)
    | Gets(now: nat)                      // one pass of Get at this clock reading
    | Peeks(now: nat)
    | Clears(handler: nat, id: u32)
    | Quits
    | Restarts

  /** Get as far as one pass: the peeked message first. */
  function GetOnce(q: Queue, now: nat): (Option<Message>, Queue) {
    if q.peek.Some? then (q.peek, q.(peek := None)) else Pass(q, now)
  }

  function PeekOnce(q: Queue, now: nat): Queue {
    if q.peek.Some? then q else Pass(q, now).1.(peek := Pass(q, now).0)
  }

  function Next(q: Queue, e: Event): Queue {
    match e
    case Posts(m) => Post(q, m)
    case Delays(due, m) => PostDelayed(q, due, m)
    case Gets(now) => GetOnce(q, now).1
    case Peeks(now) => PeekOnce(q, now)
    case Clears(h, id) => Cleared(q, h, id)
    case Quits => q.(stop := true)
    case Restarts => q.(stop := false)
  }

  function Accepted(q: Queue, e: Event): seq<Message> {
    if q.stop || !(e.Posts? || e.Delays?) then [] else [e.m]
  }

  function Returned(q: Queue, e: Event): seq<Message> {
    if e.Gets? then AsSeq(GetOnce(q, e.now).0) else []
  }

  /** Messages cleared, and disposal requests carried out. */
  function Gone(q: Queue, e: Event): seq<Message> {
    match e
    case Clears(h, id) => Removed(q, h, id)
    case Gets(now) => if q.peek.Some? then [] else Disposed(q, now)
    case Peeks(now) => if q.peek.Some? then [] else Disposed(q, now)
    case _ => []
  }

  function Disposed(q: Queue, now: nat): seq<Message> {
    var ms := Collect(q, now).msgq;
    ms[..Disposals(ms)]
  }

  /** How often `q` holds `m`. */
  ghost function Held(q: Queue, m: Message): nat {
    Times(q.msgq, m) + Times(Messages(q.dmsgq), m) + Times(AsSeq(q.peek), m)
  }

  lemma {:induction false} KeepAndDrop(ms: seq<Message>, h: nat, id: u32, m: Message)
    ensures Times(Keep(ms, h, id), m) == if Matches(m, h, id) then 0 else Times(ms, m)
    ensures Times(Drop(ms, h, id), m) == if Matches(m, h, id) then Times(ms, m) else 0
  {
    if ms != [] {
      var k := |ms| - 1;
      KeepAndDrop(ms[..k], h, id, m);
      assert ms == ms[..k] + [ms[k]];
      TimesConcat(ms[..k], [ms[k]], m);
      TimesConcat(Keep(ms[..k], h, id), if Matches(ms[k], h, id) then [] else [ms[k]], m);
      TimesConcat(Drop(ms[..k], h, id), if Matches(ms[k], h, id) then [ms[k]] else [], m);
    }
  }

  lemma {:induction false} KeepDelayedMessages(ds: seq<Delayed>, h: nat, id: u32)
    ensures Messages(KeepDelayed(ds, h, id)) == Keep(Messages(ds), h, id)
  {
    if ds != [] {
      var k := |ds| - 1;
      KeepDelayedMessages(ds[..k], h, id);
      assert Messages(ds)[..k] == Messages(ds[..k]);
      assert Messages(KeepDelayed(ds[..k], h, id) + [ds[k]]) == Messages(KeepDelayed(ds[..k], h, id)) + [ds[k].msg];
    }
  }

  /** Clear removes exactly the matching messages, wherever they are held. */
  lemma ClearIsExact(q: Queue, h: nat, id: u32, m: Message)
    ensures Held(Cleared(q, h, id), m) == if Matches(m, h, id) then 0 else Held(q, m)
    ensures Times(Removed(q, h, id), m) == if Matches(m, h, id) then Held(q, m) else 0
    ensures Held(q, m) > 0 ==>
              (Held(Cleared(q, h, id), m) == 0 <==> (h == 0 || m.handler == h) && (id == 0xFFFF_FFFF || m.id == id))
  {
    KeepAndDrop(AsSeq(q.peek), h, id, m);
    KeepAndDrop(q.msgq, h, id, m);
    KeepAndDrop(Messages(q.dmsgq), h, id, m);
    KeepDelayedMessages(q.dmsgq, h, id);
    KeepPeekIsKeep(q.peek, h, id);
    var a, b, c := Drop(AsSeq(q.peek), h, id), Drop(q.msgq, h, id), Drop(Messages(q.dmsgq), h, id);
    TimesConcat(a, b, m);
    TimesConcat(a + b, c, m);
  }

  lemma KeepPeekIsKeep(o: Option<Message>, h: nat, id: u32)
    ensures AsSeq(KeepPeek(o, h, id)) == Keep(AsSeq(o), h, id)
  {
    if o.Some? { assert AsSeq(o)[..0] == []; }
  }

  /** Splitting a queue at its front, where disposal requests go. */
  lemma FrontConserves(ms: seq<Message>, m: Message)
    ensures var k := Disposals(ms);
            Times(ms, m) == Times(ms[..k], m)
              + if k < |ms| then Times([ms[k]], m) + Times(ms[k + 1..], m) else 0
  {
    var k := Disposals(ms);
    assert ms == ms[..k] + ms[k..];
    TimesConcat(ms[..k], ms[k..], m);
    if k < |ms| {
      assert ms[k..] == [ms[k]] + ms[k + 1..];
      TimesConcat([ms[k]], ms[k + 1..], m);
    }
  }

  lemma CollectConserves(q: Queue, now: nat, m: Message)
    ensures Held(Collect(q, now), m) == Held(q, m)
  {
    MovedAndLeft(q.dmsgq, now, m);
    TimesConcat(q.msgq, Messages(Moved(q.dmsgq, now)), m);
  }

  lemma PassConserves(q: Queue, now: nat, m: Message)
    ensures Held(q, m) == Held(Pass(q, now).1, m) + Times(AsSeq(Pass(q, now).0), m) + Times(Disposed(q, now), m)
  {
    CollectConserves(q, now, m);
    TakeConserves(Collect(q, now), m);
  }

  lemma TakeConserves(c: Queue, m: Message)
    ensures var k := Disposals(c.msgq);
            var (r, q') := if k < |c.msgq| then (Some(c.msgq[k]), c.(msgq := c.msgq[k + 1..])) else (None, c.(msgq := []));
            Held(c, m) == Held(q', m) + Times(AsSeq(r), m) + Times(c.msgq[..k], m)
  {
    FrontConserves(c.msgq, m);
  }

  /** No operation loses, copies or invents a message. */
  lemma NextConserves(q: Queue, e: Event, m: Message)
    ensures Held(q, m) + Times(Accepted(q, e), m)
         == Held(Next(q, e), m) + Times(Returned(q, e), m) + Times(Gone(q, e), m)
  {
    match e {
      case Posts(p) => TimesConcat(q.msgq, [p], m);
      case Delays(due, p) =>
        var d := Delayed(due, q.nextNum, p);
        MessagesConcat(q.dmsgq, [d]);
        assert Messages([d]) == [p];
        TimesConcat(Messages(q.dmsgq), [p], m);
      case Gets(now) =>
        if q.peek.None? { PassConserves(q, now, m); }
      case Peeks(now) =>
        if q.peek.None? { PassConserves(q, now, m); }
      case Clears(h, id) => ClearIsExact(q, h, id, m);
      case Quits =>
      case Restarts =>
    }
  }

  /** The queue and all that happened to messages so far. */
  datatype History = History(q: Queue, accepted: seq<Message>, returned: seq<Message>, gone: seq<Message>)

  const START := History(Queue([], [], None, false, 0), [], [], [])

  function Advance(h: History, e: Event): History {
    History(Next(h.q, e), h.accepted + Accepted(h.q, e), h.returned + Returned(h.q, e), h.gone + Gone(h.q, e))
  }

  ghost predicate IsRun(hs: seq<History>, es: seq<Event>) {
    && |hs| == |es| + 1 && hs[0] == START
    && forall i :: 0 <= i < |es| ==> hs[i + 1] == Advance(hs[i], es[i])
  }

  /** The books balance for message `m`. */
  ghost predicate Balanced(h: History, m: Message) {
    Times(h.accepted, m) == Times(h.returned, m) + Times(h.gone, m) + Held(h.q, m)
  }

  lemma AdvanceKeepsBalance(h: History, e: Event, m: Message)
    requires Balanced(h, m)
    ensures Balanced(Advance(h, e), m)
  {
    NextConserves(h.q, e, m);
    TimesConcat(h.accepted, Accepted(h.q, e), m);
    TimesConcat(h.returned, Returned(h.q, e), m);
    TimesConcat(h.gone, Gone(h.q, e), m);
  }

  /**
   Over every run, every accepted message was returned by Get, was cleared or
   disposed of, or is still held, as often as it was accepted.
   */
  lemma {:induction false} MessagesAreConserved(hs: seq<History>, es: seq<Event>, i: nat, m: Message)
    requires IsRun(hs, es) && i < |hs|
    ensures Times(hs[i].accepted, m) == Times(hs[i].returned, m) + Times(hs[i].gone, m) + Held(hs[i].q, m)
  {
    RunIsBalanced(hs, es, i, m);
  }

  lemma {:induction false} RunIsBalanced(hs: seq<History>, es: seq<Event>, i: nat, m: Message)
    requires IsRun(hs, es) && i < |hs|
    ensures Balanced(hs[i], m)
  {
    if i == 0 {
      assert Messages([]) == [];
    } else {
      RunIsBalanced(hs, es, i - 1, m);
      assert hs[i - 1 + 1] == Advance(hs[i - 1], es[i - 1]);
      AdvanceKeepsBalance(hs[i - 1], es[i - 1], m);
    }
  }

  // ---- order of posts and time of delayed messages -------------------------------------------------

  ghost predicate TaggedEvent(e: Event, i: nat) {
    && (e.Posts? ==> e.m.tag == i && e.m.due == None)
    && (e.Delays? ==> e.m.tag == i && e.m.due == Some(e.due))
  }

  /** Tags grow with the events, and only delayed messages carry a trigger time. */
  ghost predicate Tagged(es: seq<Event>) {
    forall i :: 0 <= i < |es| ==> TaggedEvent(es[i], i)
  }

  /** The two orders kept among messages: by posting, for immediate ones, and by trigger, for delayed ones. */
  datatype Order = ByPost | ByTrigger

  /** The order the clock means, among delayed messages. */
  predicate SoonerMessage(x: Message, y: Message) {
    x.due.Some? && y.due.Some? &&
    (x.due.value < y.due.value || (x.due.value == y.due.value && x.tag < y.tag))
  }

  /** `x` may stand before `y`. */
  predicate Ahead(o: Order, x: Message, y: Message) {
    match o
    case ByPost => x.due.None? && y.due.None? ==> x.tag < y.tag
    case ByTrigger => !SoonerMessage(y, x)
  }

  ghost predicate InOrder(ms: seq<Message>, o: Order) {
    forall a, b :: 0 <= a < b < |ms| ==> Ahead(o, ms[a], ms[b])
  }

  /** The line a message stands in: returned, then peeked, then queued. */
  ghost function Line(returned: seq<Message>, q: Queue): seq<Message> {
    returned + AsSeq(q.peek) + q.msgq
  }

  lemma AppendInOrder(a: seq<Message>, b: seq<Message>, o: Order)
    requires InOrder(a, o) && InOrder(b, o) && forall x, y :: x in a && y in b ==> Ahead(o, x, y)
    ensures InOrder(a + b, o)
  {
    var s := a + b;
    forall i, j | 0 <= i < j < |s| ensures Ahead(o, s[i], s[j]) {
      if i < |a| { assert s[i] in a; } else { assert s[i] == b[i - |a|]; }
      if j < |a| { assert s[j] == a[j]; } else { assert s[j] == b[j - |a|] && s[j] in b; }
    }
  }

  /** The parts of an ordered line are ordered, and stand in order. */
  lemma PartsInOrder(a: seq<Message>, b: seq<Message>, o: Order)
    requires InOrder(a + b, o)
    ensures InOrder(a, o) && InOrder(b, o) && forall x, y :: x in a && y in b ==> Ahead(o, x, y)
  {
    var s := a + b;
    assert forall i :: 0 <= i < |a| ==> a[i] == s[i];
    assert forall i :: 0 <= i < |b| ==> b[i] == s[|a| + i];
  }

  lemma {:induction false} KeepInOrder(ms: seq<Message>, h: nat, id: u32, o: Order)
    requires InOrder(ms, o)
    ensures InOrder(Keep(ms, h, id), o) && forall m :: m in Keep(ms, h, id) ==> m in ms
  {
    if ms != [] {
      var k := |ms| - 1;
      assert ms == ms[..k] + [ms[k]];
      PartsInOrder(ms[..k], [ms[k]], o);
      KeepInOrder(ms[..k], h, id, o);
      AppendInOrder(Keep(ms[..k], h, id), if Matches(ms[k], h, id) then [] else [ms[k]], o);
    }
  }

  /** A cut in the line keeps it in order. */
  lemma CutKeepsOrder(a: seq<Message>, b: seq<Message>, c: seq<Message>, o: Order)
    requires InOrder(a + b + c, o)
    ensures InOrder(a + c, o)
  {
    PartsInOrder(a + b, c, o);
    PartsInOrder(a, b, o);
    AppendInOrder(a, c, o);
  }

  /** The line loses disposal requests at the head of the queue, and the head moves on. */
  lemma HeadMovesOn(returned: seq<Message>, ms: seq<Message>, k: nat, o: Order)
    requires k <= |ms| && InOrder(returned + ms, o)
    ensures InOrder(returned + [] + [], o)
    ensures k < |ms| ==> InOrder(returned + [ms[k]] + ms[k + 1..], o)
  {
    assert returned + ms == returned + ms[..k] + ms[k..] && returned + ms == returned + ms + [];
    CutKeepsOrder(returned, ms[..k], ms[k..], o);
    CutKeepsOrder(returned, ms, [], o);
    assert returned + [] + [] == returned + [];
    if k < |ms| { assert returned + ms[k..] == returned + [ms[k]] + ms[k + 1..]; }
  }

  lemma PassKeepsOrder(returned: seq<Message>, q: Queue, now: nat, o: Order)
    requires q.peek.None? && InOrder(Line(returned, Collect(q, now)), o)
    ensures var (r, q') := Pass(q, now); InOrder(returned + AsSeq(r) + q'.msgq, o)
  {
    var ms := Collect(q, now).msgq;
    assert Line(returned, Collect(q, now)) == returned + ms;
    HeadMovesOn(returned, ms, Disposals(ms), o);
  }

  lemma ClearKeepsOrder(returned: seq<Message>, q: Queue, h: nat, id: u32, o: Order)
    requires InOrder(Line(returned, q), o)
    ensures InOrder(Line(returned, Cleared(q, h, id)), o)
    ensures forall m :: m in Keep(q.msgq, h, id) ==> m in q.msgq
  {
    var front, front' := returned + AsSeq(q.peek), returned + AsSeq(KeepPeek(q.peek, h, id));
    PartsInOrder(front, q.msgq, o);
    PartsInOrder(returned, AsSeq(q.peek), o);
    KeepInOrder(q.msgq, h, id, o);
    assert returned + [] == returned;
    AppendInOrder(front', Keep(q.msgq, h, id), o);
  }

  predicate IsPass(e: Event) {
    e.Gets? || e.Peeks?
  }

  /** Whatever the order, a step keeps it if what joins the line joins it in order. */
  lemma NextKeepsOrder(returned: seq<Message>, q: Queue, e: Event, o: Order)
    requires InOrder(Line(returned, q), o)
    requires e.Posts? && !q.stop ==> InOrder(Line(returned, q) + [e.m], o)
    requires IsPass(e) && q.peek.None? ==> InOrder(Line(returned, Collect(q, e.now)), o)
    ensures InOrder(Line(returned + Returned(q, e), Next(q, e)), o)
  {
    assert returned + [] == returned;
    match e {
      case Posts(m) =>
        assert !q.stop ==> Line(returned, Next(q, e)) == Line(returned, q) + [m];
      case Delays(due, m) =>
      case Gets(now) =>
        if q.peek.Some? {
          assert (returned + [q.peek.value]) + [] + q.msgq == Line(returned, q);
        } else {
          PassKeepsOrder(returned, q, now, o);
          var (r, q') := Pass(q, now);
          assert (returned + AsSeq(r)) + [] + q'.msgq == returned + AsSeq(r) + q'.msgq;
        }
      case Peeks(now) =>
        if q.peek.None? { PassKeepsOrder(returned, q, now, o); }
      case Clears(h, id) => ClearKeepsOrder(returned, q, h, id, o);
      case Quits =>
      case Restarts =>
    }
  }

  // ---- what the queue holds --------------------------------------------------------------------------

  /** Messages moved to the line by event `e`. */
  function Joining(q: Queue, e: Event): seq<Message> {
    if e.Posts? && !q.stop then [e.m]
    else if IsPass(e) && q.peek.None? then Messages(Moved(q.dmsgq, e.now)) else []
  }

  /** Nobody joins the line but those. */
  lemma LineMembers(returned: seq<Message>, q: Queue, e: Event, m: Message)
    requires m in Line(returned + Returned(q, e), Next(q, e))
    ensures m in Line(returned, q) || m in Joining(q, e)
  {
    if e.Clears? && m in Keep(q.msgq, e.handler, e.id) { KeepSubset(q.msgq, e.handler, e.id); }
  }

  lemma {:induction false} KeepSubset(ms: seq<Message>, h: nat, id: u32)
    ensures forall m :: m in Keep(ms, h, id) ==> m in ms
  {
    if ms != [] { KeepSubset(ms[..|ms| - 1], h, id); }
  }

  lemma {:induction false} KeepDelayedSubset(ds: seq<Delayed>, h: nat, id: u32)
    ensures forall d :: d in KeepDelayed(ds, h, id) ==> d in ds
  {
    if ds != [] {
      KeepDelayedSubset(ds[..|ds| - 1], h, id);
    }
  }

  lemma DelayedMembers(q: Queue, e: Event, d: Delayed)
    requires d in Next(q, e).dmsgq
    ensures d in q.dmsgq || (e.Delays? && !q.stop && d == Delayed(e.due, q.nextNum, e.m))
  {
    if IsPass(e) { MovedInOrder(q.dmsgq, e.now); }
    if e.Clears? { KeepDelayedSubset(q.dmsgq, e.handler, e.id); }
  }

  /** After `i` events: known tags, true trigger times. */
  ghost predicate TagsOk(returned: seq<Message>, q: Queue, i: nat) {
    && (forall m :: m in Line(returned, q) ==> m.tag < i)
    && (forall d :: d in q.dmsgq ==> d.msg.tag < i && d.msg.due == Some(d.due))
  }

  lemma JoiningTags(q: Queue, e: Event, i: nat, m: Message)
    requires (forall d :: d in q.dmsgq ==> d.msg.tag < i && d.msg.due == Some(d.due)) && TaggedEvent(e, i) && m in Joining(q, e)
    ensures if e.Posts? then m == e.m else m.tag < i && exists d :: d in Moved(q.dmsgq, e.now) && d in q.dmsgq && d.msg == m
  {
    if !e.Posts? {
      MovedInOrder(q.dmsgq, e.now);
      var moved := Moved(q.dmsgq, e.now);
      var j :| 0 <= j < |moved| && moved[j].msg == m;
      assert moved[j] in moved;
    }
  }

  lemma NextKeepsTags(returned: seq<Message>, q: Queue, e: Event, i: nat)
    requires TagsOk(returned, q, i) && TaggedEvent(e, i)
    ensures TagsOk(returned + Returned(q, e), Next(q, e), i + 1)
  {
    forall m | m in Line(returned + Returned(q, e), Next(q, e)) ensures m.tag < i + 1 {
      LineMembers(returned, q, e, m);
      if m in Joining(q, e) { JoiningTags(q, e, i, m); }
    }
    forall d | d in Next(q, e).dmsgq ensures d.msg.tag < i + 1 && d.msg.due == Some(d.due) {
      DelayedMembers(q, e, d);
    }
  }

  // ---- immediate messages ------------------------------------------------------------------------------

  lemma PostsJoinInOrder(returned: seq<Message>, q: Queue, e: Event, i: nat)
    requires TagsOk(returned, q, i) && TaggedEvent(e, i) && InOrder(Line(returned, q), ByPost)
    ensures InOrder(Line(returned, q) + Joining(q, e), ByPost)
  {
    forall m | m in Joining(q, e) ensures e.Posts? || m.due.Some? { JoiningTags(q, e, i, m); }
    var j := Joining(q, e);
    forall a, b | 0 <= a < b < |j| ensures Ahead(ByPost, j[a], j[b]) {
      assert j[a] in j && !e.Posts?;
    }
    AppendInOrder(Line(returned, q), j, ByPost);
  }

  /** Joining the line is what a post and a pass do first. */
  lemma JoiningIsLine(returned: seq<Message>, q: Queue, e: Event)
    ensures e.Posts? && !q.stop ==> Line(returned, q) + [e.m] == Line(returned, q) + Joining(q, e)
    ensures IsPass(e) && q.peek.None? ==> Line(returned, Collect(q, e.now)) == Line(returned, q) + Joining(q, e)
  {
  }

  lemma {:induction false} PostsStayInOrder(hs: seq<History>, es: seq<Event>, i: nat)
    requires IsRun(hs, es) && Tagged(es) && i <= |es|
    ensures TagsOk(hs[i].returned, hs[i].q, i) && InOrder(Line(hs[i].returned, hs[i].q), ByPost)
  {
    if i > 0 {
      PostsStayInOrder(hs, es, i - 1);
      var h, e := hs[i - 1], es[i - 1];
      assert hs[i - 1 + 1] == Advance(h, e) && TaggedEvent(e, i - 1);
      NextKeepsTags(h.returned, h.q, e, i - 1);
      PostsJoinInOrder(h.returned, h.q, e, i - 1);
      JoiningIsLine(h.returned, h.q, e);
      NextKeepsOrder(h.returned, h.q, e, ByPost);
    }
  }

  /** In every run, messages posted without delay are returned in the order in which they were posted. */
  lemma PostsAreFifo(hs: seq<History>, es: seq<Event>, i: nat)
    requires IsRun(hs, es) && Tagged(es) && i <= |es|
    ensures forall a, b :: 0 <= a < b < |hs[i].returned| && hs[i].returned[a].due.None? && hs[i].returned[b].due.None?
              ==> hs[i].returned[a].tag < hs[i].returned[b].tag
  {
    PostsStayInOrder(hs, es, i);
    ReturnedInOrder(hs[i].returned, hs[i].q, ByPost);
    assert InOrder(hs[i].returned, ByPost);
  }

  lemma ReturnedInOrder(returned: seq<Message>, q: Queue, o: Order)
    requires InOrder(Line(returned, q), o)
    ensures InOrder(returned, o)
  {
    PartsInOrder(returned + AsSeq(q.peek), q.msgq, o);
    PartsInOrder(returned, AsSeq(q.peek), o);
  }

  // ---- no message is withheld ---------------------------------------------------------------------------

  /** The messages in line, the peeked one first. */
  ghost function Waiting(q: Queue): seq<Message> {
    AsSeq(q.peek) + q.msgq
  }

  /** `m` stands within the first `p + 1` in line. */
  ghost predicate Within(q: Queue, m: Message, p: int) {
    exists k :: 0 <= k < |Waiting(q)| && k <= p && Waiting(q)[k] == m
  }

  lemma {:induction false} KeepNotBehind(ms: seq<Message>, h: nat, id: u32, k: nat)
    requires k < |ms| && !Matches(ms[k], h, id)
    ensures exists j :: 0 <= j <= k && j < |Keep(ms, h, id)| && Keep(ms, h, id)[j] == ms[k]
    decreases |ms|
  {
    var n := |ms| - 1;
    if k < n {
      KeepNotBehind(ms[..n], h, id, k);
      var j :| 0 <= j <= k && j < |Keep(ms[..n], h, id)| && Keep(ms[..n], h, id)[j] == ms[k];
      assert Keep(ms, h, id)[j] == ms[k];
    } else {
      KeepLength(ms[..n], h, id);
      assert Keep(ms, h, id)[|Keep(ms[..n], h, id)|] == ms[k];
    }
  }

  lemma {:induction false} KeepLength(ms: seq<Message>, h: nat, id: u32)
    ensures |Keep(ms, h, id)| <= |ms|
  {
    if ms != [] { KeepLength(ms[..|ms| - 1], h, id); }
  }

  /** A pass, with nothing peeked, returns `m` or brings it forward. */
  lemma PassBringsForward(q: Queue, now: nat, k: nat)
    requires q.peek.None? && k < |q.msgq| && q.msgq[k].id != MQID_DISPOSE
    ensures Pass(q, now).0.Some?
    ensures Pass(q, now).0.value == q.msgq[k] || (exists j :: 0 <= j < k && j < |Pass(q, now).1.msgq| && Pass(q, now).1.msgq[j] == q.msgq[k])
  {
    var ms := Collect(q, now).msgq;
    var d := Disposals(ms);
    assert ms[k] == q.msgq[k] && d <= k;
    if d < k { assert ms[d + 1..][k - d - 1] == q.msgq[k]; }
  }

  /** No event puts a message back in line; a Get brings it forward or returns it. */
  lemma NextBringsForward(q: Queue, e: Event, m: Message, p: int)
    requires Within(q, m, p) && m.id != MQID_DISPOSE && (e.Clears? ==> !Matches(m, e.handler, e.id))
    ensures m in Returned(q, e) || Within(Next(q, e), m, if e.Gets? then p - 1 else p)
  {
    var k :| 0 <= k < |Waiting(q)| && k <= p && Waiting(q)[k] == m;
    match e {
      case Posts(x) => assert Waiting(Next(q, e))[k] == m;
      case Delays(_, _) => assert Waiting(Next(q, e))[k] == m;
      case Gets(now) => GetBringsForward(q, now, m, k);
      case Peeks(now) =>
        if q.peek.Some? {
          assert Waiting(Next(q, e))[k] == m;
        } else {
          PassBringsForward(q, now, k);
          PeekBringsForward(q, now, m, k);
        }
      case Clears(h, id) => ClearBringsForward(q, h, id, m, k);
      case Quits => assert Waiting(Next(q, e))[k] == m;
      case Restarts => assert Waiting(Next(q, e))[k] == m;
    }
  }

  lemma GetBringsForward(q: Queue, now: nat, m: Message, k: nat)
    requires k < |Waiting(q)| && Waiting(q)[k] == m && m.id != MQID_DISPOSE
    ensures m in Returned(q, Gets(now)) || Within(Next(q, Gets(now)), m, k - 1)
  {
    var e := Gets(now);
    if q.peek.Some? {
      if k > 0 { assert Waiting(Next(q, e))[k - 1] == m; }
    } else {
      PassBringsForward(q, now, k);
      if m !in Returned(q, e) {
        var j :| 0 <= j < k && j < |Pass(q, now).1.msgq| && Pass(q, now).1.msgq[j] == m;
        assert Waiting(Next(q, e))[j] == m;
      }
    }
  }

  lemma PeekBringsForward(q: Queue, now: nat, m: Message, k: nat)
    requires q.peek.None? && k < |q.msgq| && q.msgq[k] == m && Pass(q, now).0.Some?
    requires Pass(q, now).0.value == m || exists j :: 0 <= j < k && j < |Pass(q, now).1.msgq| && Pass(q, now).1.msgq[j] == m
    ensures Within(Next(q, Peeks(now)), m, k)
  {
    var (r, q') := Pass(q, now);
    var w := Waiting(Next(q, Peeks(now)));
    assert w == [r.value] + q'.msgq;
    if r.value == m {
      assert w[0] == m;
    } else {
      var j :| 0 <= j < k && j < |q'.msgq| && q'.msgq[j] == m;
      assert w[j + 1] == m;
    }
  }

  lemma ClearBringsForward(q: Queue, h: nat, id: u32, m: Message, k: nat)
    requires k < |Waiting(q)| && Waiting(q)[k] == m && !Matches(m, h, id)
    ensures Within(Cleared(q, h, id), m, k)
  {
    var w, n := Waiting(Cleared(q, h, id)), |AsSeq(q.peek)|;
    if k < n {
      assert w[0] == m;
    } else {
      KeepNotBehind(q.msgq, h, id, k - n);
      var j :| 0 <= j <= k - n && j < |Keep(q.msgq, h, id)| && Keep(q.msgq, h, id)[j] == m;
      assert w[|AsSeq(KeepPeek(q.peek, h, id))| + j] == m;
    }
  }

  ghost function GetsBetween(es: seq<Event>, i: nat, j: nat): nat
    requires i <= j <= |es|
  {
    if i == j then 0 else GetsBetween(es, i, j - 1) + if es[j - 1].Gets? then 1 else 0
  }

  lemma {:induction false} ComesForward(hs: seq<History>, es: seq<Event>, i: nat, j: nat, m: Message, p: nat)
    requires IsRun(hs, es) && i <= j <= |es| && Within(hs[i].q, m, p) && m.id != MQID_DISPOSE
    requires forall k :: i <= k < j && es[k].Clears? ==> !Matches(m, es[k].handler, es[k].id)
    ensures Served(hs[j], m, p - GetsBetween(es, i, j))
    decreases j - i
  {
    if i < j {
      ComesForward(hs, es, i, j - 1, m, p);
      RunServes(hs, es, j - 1, m, p - GetsBetween(es, i, j - 1));
    }
  }

  /** `m` was returned, or stands within the first `p + 1` in line. */
  ghost predicate Served(h: History, m: Message, p: int) {
    m in h.returned || Within(h.q, m, p)
  }

  lemma RunServes(hs: seq<History>, es: seq<Event>, j: nat, m: Message, p: int)
    requires IsRun(hs, es) && j < |es| && Served(hs[j], m, p) && m.id != MQID_DISPOSE
    requires es[j].Clears? ==> !Matches(m, es[j].handler, es[j].id)
    ensures Served(hs[j + 1], m, if es[j].Gets? then p - 1 else p)
  {
    AdvanceServes(hs[j], es[j], m, p);
    assert hs[j + 1] == Advance(hs[j], es[j]);
  }

  lemma AdvanceServes(h: History, e: Event, m: Message, p: int)
    requires Served(h, m, p) && m.id != MQID_DISPOSE && (e.Clears? ==> !Matches(m, e.handler, e.id))
    ensures Served(Advance(h, e), m, if e.Gets? then p - 1 else p)
  {
    if m !in h.returned { NextBringsForward(h.q, e, m, p); }
  }

  /**
   No message is withheld: one that is in line, is no disposal request and is not cleared is
   returned by at most one Get more than there are messages ahead of it, whatever else
   happens meanwhile.
   */
  lemma ReturnedInTurn(hs: seq<History>, es: seq<Event>, i: nat, j: nat, m: Message, p: nat)
    requires IsRun(hs, es) && i <= j <= |es| && p < |Waiting(hs[i].q)| && Waiting(hs[i].q)[p] == m && m.id != MQID_DISPOSE
    requires forall k :: i <= k < j && es[k].Clears? ==> !Matches(m, es[k].handler, es[k].id)
    requires GetsBetween(es, i, j) > p
    ensures m in hs[j].returned
  {
    ComesForward(hs, es, i, j, m, p);
  }

  /** A message posted to a queue that is not stopped goes to the end of the line. */
  lemma PostJoinsLine(q: Queue, m: Message)
    requires !q.stop
    ensures Waiting(Next(q, Posts(m))) == Waiting(q) + [m]
  {
  }

  // ---- delayed messages --------------------------------------------------------------------------------

  ghost predicate Timely(q: Queue, now: nat) {
    forall d :: d in q.dmsgq ==> -0x8000_0000 < d.due - now < 0x8000_0000
  }

  ghost predicate GoodRun(hs: seq<History>, es: seq<Event>) {
    && IsRun(hs, es) && Tagged(es)
    && (forall i :: 0 <= i < |es| && IsPass(es[i]) ==> Timely(hs[i].q, es[i].now))
    && (forall i, j :: 0 <= i < j < |es| && IsPass(es[i]) && IsPass(es[j]) ==> es[i].now <= es[j].now)
  }

  /** The last clock reading before event `i`. */
  ghost function Clock(es: seq<Event>, i: nat): nat
    requires i <= |es|
  {
    if i == 0 then 0 else if IsPass(es[i - 1]) then es[i - 1].now else Clock(es, i - 1)
  }

  lemma {:induction false} ClockBelow(hs: seq<History>, es: seq<Event>, i: nat, j: nat)
    requires GoodRun(hs, es) && i <= j < |es| && IsPass(es[j])
    ensures Clock(es, i) <= es[j].now
  {
    if i > 0 && !IsPass(es[i - 1]) {
      ClockBelow(hs, es, i - 1, j);
    }
  }

  /** Nothing in the line is early. */
  ghost predicate NoneEarly(returned: seq<Message>, q: Queue, clock: nat) {
    forall m :: m in Line(returned, q) && m.due.Some? ==> m.due.value <= clock
  }

  lemma JoiningHaveTriggered(q: Queue, e: Event, i: nat, m: Message)
    requires (forall d :: d in q.dmsgq ==> d.msg.tag < i && d.msg.due == Some(d.due)) && TaggedEvent(e, i) && m in Joining(q, e)
    requires IsPass(e) && Timely(q, e.now)
    ensures m.due.Some? && m.due.value <= e.now
  {
    JoiningTags(q, e, i, m);
    MovedInOrder(q.dmsgq, e.now);
    var d :| d in Moved(q.dmsgq, e.now) && d in q.dmsgq && d.msg == m;
    Time.LaterMeansLater(e.now, d.due);
  }

  lemma NextKeepsNoneEarly(returned: seq<Message>, q: Queue, e: Event, clock: nat, i: nat)
    requires TagsOk(returned, q, i) && TaggedEvent(e, i) && NoneEarly(returned, q, clock)
    requires IsPass(e) ==> Timely(q, e.now) && clock <= e.now
    ensures NoneEarly(returned + Returned(q, e), Next(q, e), if IsPass(e) then e.now else clock)
  {
    forall m | m in Line(returned + Returned(q, e), Next(q, e)) && m.due.Some?
      ensures m.due.value <= if IsPass(e) then e.now else clock
    {
      LineMembers(returned, q, e, m);
      if m in Joining(q, e) && IsPass(e) { JoiningHaveTriggered(q, e, i, m); }
    }
  }

  lemma {:induction false} RunKeepsNoneEarly(hs: seq<History>, es: seq<Event>, i: nat)
    requires GoodRun(hs, es) && i <= |es|
    ensures NoneEarly(hs[i].returned, hs[i].q, Clock(es, i))
  {
    if i > 0 {
      RunKeepsNoneEarly(hs, es, i - 1);
      PostsStayInOrder(hs, es, i - 1);
      assert hs[i - 1 + 1] == Advance(hs[i - 1], es[i - 1]) && TaggedEvent(es[i - 1], i - 1);
      if IsPass(es[i - 1]) { ClockBelow(hs, es, i - 1, i - 1); }
      NextKeepsNoneEarly(hs[i - 1].returned, hs[i - 1].q, es[i - 1], Clock(es, i - 1), i - 1);
    }
  }

  /** No delayed message is returned before its trigger time, across any number of clock wraps. */
  lemma DelayedAreNeverEarly(hs: seq<History>, es: seq<Event>, i: nat, m: Message)
    requires GoodRun(hs, es) && i < |es| && m in Returned(hs[i].q, es[i]) && m.due.Some?
    ensures m.due.value <= es[i].now
  {
    RunKeepsNoneEarly(hs, es, i + 1);
    assert hs[i + 1] == Advance(hs[i], es[i]);
    assert m in Line(hs[i + 1].returned, hs[i + 1].q);
  }

  /** Sequence numbers of waiting messages follow their order of posting. */
  ghost predicate NumsOk(q: Queue) {
    && (forall d :: d in q.dmsgq ==> d.num < q.nextNum)
    && (forall d, e :: d in q.dmsgq && e in q.dmsgq && d.num < e.num ==> d.msg.tag < e.msg.tag)
    && (forall d, e :: d in q.dmsgq && e in q.dmsgq && d.num == e.num ==> d == e)
  }

  lemma NextKeepsNums(returned: seq<Message>, q: Queue, e: Event, i: nat)
    requires NumsOk(q) && TagsOk(returned, q, i) && TaggedEvent(e, i)
    ensures NumsOk(Next(q, e))
  {
    forall d | d in Next(q, e).dmsgq
      ensures d in q.dmsgq || (e.Delays? && !q.stop && d == Delayed(e.due, q.nextNum, e.m))
    {
      DelayedMembers(q, e, d);
    }
  }

  /** Nothing that waits is sooner than what stands in the line. */
  ghost predicate LineIsAhead(returned: seq<Message>, q: Queue) {
    forall m, d :: m in Line(returned, q) && d in q.dmsgq ==> !SoonerMessage(d.msg, m)
  }

  /** The exact condition for a fair pass. */
  ghost predicate FairPass(q: Queue, now: nat) {
    InReach(q.dmsgq, now) && (NoneTriggered(q.dmsgq, now) || SameTurn(q.dmsgq))
  }

  lemma FairPassSplits(q: Queue, now: nat)
    requires FairPass(q, now)
    ensures InTrueOrder(Moved(q.dmsgq, now))
    ensures forall d :: d in Moved(q.dmsgq, now) ==> d in q.dmsgq && d.due <= now
    ensures forall d :: d in Left(q.dmsgq, now) ==> d in q.dmsgq && d.due > now
  {
    PassIsFairIff(q.dmsgq, now);
    MovedHaveTriggered(q.dmsgq, now);
    if NoneTriggered(q.dmsgq, now) {
      NothingMoves(q.dmsgq, now);
    } else {
      TriggeredLeaveInOrder(q.dmsgq, now);
    }
  }

  lemma MovedJoinInOrder(returned: seq<Message>, q: Queue, e: Event, i: nat)
    requires TagsOk(returned, q, i) && TaggedEvent(e, i) && NumsOk(q) && LineIsAhead(returned, q)
    requires InOrder(Line(returned, q), ByTrigger) && (IsPass(e) ==> FairPass(q, e.now))
    ensures InOrder(Line(returned, q) + Joining(q, e), ByTrigger)
  {
    var j := Joining(q, e);
    if IsPass(e) {
      FairPassSplits(q, e.now);
      var moved := Moved(q.dmsgq, e.now);
      forall a, b | 0 <= a < b < |j| ensures Ahead(ByTrigger, j[a], j[b]) {
        assert moved[a] in moved && moved[b] in moved && !Sooner(moved[b], moved[a]);
      }
    }
    forall x, y | x in Line(returned, q) && y in j ensures Ahead(ByTrigger, x, y) {
      JoiningTags(q, e, i, y);
    }
    AppendInOrder(Line(returned, q), j, ByTrigger);
  }

  lemma NextKeepsLineAhead(returned: seq<Message>, q: Queue, e: Event, clock: nat, i: nat)
    requires TagsOk(returned, q, i) && TaggedEvent(e, i) && LineIsAhead(returned, q) && NoneEarly(returned, q, clock)
    requires (IsPass(e) ==> FairPass(q, e.now)) && (e.Delays? ==> e.due >= clock)
    ensures LineIsAhead(returned + Returned(q, e), Next(q, e))
  {
    forall m, d | m in Line(returned + Returned(q, e), Next(q, e)) && d in Next(q, e).dmsgq
      ensures !SoonerMessage(d.msg, m)
    {
      LineMembers(returned, q, e, m);
      DelayedMembers(q, e, d);
      if m in Joining(q, e) {
        JoiningTags(q, e, i, m);
        if IsPass(e) { FairPassSplits(q, e.now); }
      }
    }
  }

  /** Every pass is fair, and no delay is negative. */
  ghost predicate FairRun(hs: seq<History>, es: seq<Event>) {
    && GoodRun(hs, es)
    && (forall i :: 0 <= i < |es| && IsPass(es[i]) ==> FairPass(hs[i].q, es[i].now))
    && (forall i :: 0 <= i < |es| && es[i].Delays? ==> es[i].due >= Clock(es, i))
  }

  lemma {:induction false} DelaysStayInOrder(hs: seq<History>, es: seq<Event>, i: nat)
    requires FairRun(hs, es) && i <= |es|
    ensures NumsOk(hs[i].q) && LineIsAhead(hs[i].returned, hs[i].q)
    ensures InOrder(Line(hs[i].returned, hs[i].q), ByTrigger)
  {
    if i > 0 {
      DelaysStayInOrder(hs, es, i - 1);
      DelayStep(hs, es, i - 1);
    }
  }

  lemma DelayStep(hs: seq<History>, es: seq<Event>, i: nat)
    requires FairRun(hs, es) && i < |es| && NumsOk(hs[i].q) && LineIsAhead(hs[i].returned, hs[i].q)
    requires InOrder(Line(hs[i].returned, hs[i].q), ByTrigger)
    ensures NumsOk(hs[i + 1].q) && LineIsAhead(hs[i + 1].returned, hs[i + 1].q)
    ensures InOrder(Line(hs[i + 1].returned, hs[i + 1].q), ByTrigger)
  {
    var h, e := hs[i], es[i];
    PostsStayInOrder(hs, es, i);
    RunKeepsNoneEarly(hs, es, i);
    assert hs[i + 1] == Advance(h, e) && TaggedEvent(e, i);
    NextKeepsNums(h.returned, h.q, e, i);
    NextKeepsLineAhead(h.returned, h.q, e, Clock(es, i), i);
    MovedJoinInOrder(h.returned, h.q, e, i);
    JoiningIsLine(h.returned, h.q, e);
    NextKeepsOrder(h.returned, h.q, e, ByTrigger);
  }

  /**
   In every run whose passes are fair, Get returns delayed messages in the order of their
   triggers, and those with one trigger in the order of posting.
   */
  lemma DelayedAreReturnedInOrder(hs: seq<History>, es: seq<Event>, i: nat, a: nat, b: nat)
    requires FairRun(hs, es) && i <= |es| && a < b < |hs[i].returned|
    requires hs[i].returned[a].due.Some? && hs[i].returned[b].due.Some?
    ensures var x, y := hs[i].returned[a], hs[i].returned[b];
            x.due.value < y.due.value || (x.due.value == y.due.value && x.tag <= y.tag)
  {
    DelaysStayInOrder(hs, es, i);
    ReturnedInOrder(hs[i].returned, hs[i].q, ByTrigger);
    assert Ahead(ByTrigger, hs[i].returned[a], hs[i].returned[b]);
  }

  lemma BothMove(d0: Delayed, d1: Delayed)
    requires d0.due == 0xFFFF_FFFB && d1.due == 0x1_0000_0005
    ensures Moved([d0, d1], 0x1_0000_0006) == [d1, d0] && Left([d0, d1], 0x1_0000_0006) == []
  {
    var ds, now := [d0, d1], 0x1_0000_0006;
    RawOrderIsTrueOrder(d0, d1);
    Time.LaterMeansLater(now, d0.due);
    Time.LaterMeansLater(now, d1.due);
    assert TopIndex(ds) == 1 && Without(ds, 1) == [d0];
    assert TopIndex([d0]) == 0 && Without([d0], 0) == [];
    assert Moved([], now) == [] && Left([], now) == [];
    assert Moved([d0], now) == [d0] + Moved([], now) && Left([d0], now) == Left([], now);
    assert Moved(ds, now) == [d1] + Moved([d0], now) && Left(ds, now) == Left([d0], now);
  }

  const SOON := Message(1, 1, 0, Some(0xFFFF_FFFB))
  const LATE := Message(1, 1, 1, Some(0x1_0000_0005))
  const SOON_DELAYED := Delayed(0xFFFF_FFFB, 0, SOON)
  const LATE_DELAYED := Delayed(0x1_0000_0005, 1, LATE)

  lemma LatePassesSoon()
    ensures Pass(Queue([], [SOON_DELAYED, LATE_DELAYED], None, false, 2), 0x1_0000_0006)
         == (Some(LATE), Queue([SOON], [], None, false, 2))
    ensures Pass(Queue([SOON], [], None, false, 2), 0x1_0000_0006) == (Some(SOON), Queue([], [], None, false, 2))
  {
    BothMove(SOON_DELAYED, LATE_DELAYED);
    assert Messages([LATE_DELAYED, SOON_DELAYED]) == [LATE, SOON] && Messages([]) == [];
    assert Moved([], 0x1_0000_0006) == [] && Left([], 0x1_0000_0006) == [];
    PassTakesFirst(Queue([], [SOON_DELAYED, LATE_DELAYED], None, false, 2), 0x1_0000_0006, [LATE, SOON]);
    PassTakesFirst(Queue([SOON], [], None, false, 2), 0x1_0000_0006, [SOON]);
  }

  lemma PassTakesFirst(q: Queue, now: nat, ms: seq<Message>)
    requires q.msgq + Messages(Moved(q.dmsgq, now)) == ms != [] && ms[0].id != MQID_DISPOSE && Left(q.dmsgq, now) == []
    ensures Pass(q, now) == (Some(ms[0]), q.(msgq := ms[1..], dmsgq := []))
  {
    assert Collect(q, now) == q.(msgq := ms, dmsgq := []);
    assert Disposals(ms) == 0;
  }

  lemma TwoDelays(h1: History, h2: History)
    requires h1 == History(Queue([], [SOON_DELAYED], None, false, 1), [SOON], [], [])
    requires h2 == History(Queue([], [SOON_DELAYED, LATE_DELAYED], None, false, 2), [SOON, LATE], [], [])
    ensures Advance(START, Delays(0xFFFF_FFFB, SOON)) == h1 && Advance(h1, Delays(0x1_0000_0005, LATE)) == h2
  {
    var h := Advance(START, Delays(0xFFFF_FFFB, SOON));
    assert h.q.dmsgq == [SOON_DELAYED] && h.accepted == [SOON] && h.returned == [] && h.gone == [];
    var g := Advance(h1, Delays(0x1_0000_0005, LATE));
    assert g.q.dmsgq == [SOON_DELAYED, LATE_DELAYED] && g.accepted == [SOON, LATE] && g.returned == [] && g.gone == [];
  }

  lemma TwoGets(h2: History) returns (h3: History, h4: History)
    requires h2 == History(Queue([], [SOON_DELAYED, LATE_DELAYED], None, false, 2), [SOON, LATE], [], [])
    ensures h3 == Advance(h2, Gets(0x1_0000_0006)) && h4 == Advance(h3, Gets(0x1_0000_0006))
    ensures h3.q.dmsgq == [] && h4.returned == [LATE, SOON]
  {
    LatePassesSoon();
    h3 := Advance(h2, Gets(0x1_0000_0006));
    h4 := Advance(h3, Gets(0x1_0000_0006));
  }

  /** Two delays, then two passes of Get just after the second trigger. */
  function WrapEvents(): seq<Event> {
    [Delays(0xFFFF_FFFB, SOON), Delays(0x1_0000_0005, LATE), Gets(0x1_0000_0006), Gets(0x1_0000_0006)]
  }

  lemma WrapRun() returns (hs: seq<History>)
    ensures IsRun(hs, WrapEvents()) && hs[2].q.dmsgq == [SOON_DELAYED, LATE_DELAYED] && hs[3].q.dmsgq == []
    ensures hs[4].returned == [LATE, SOON]
  {
    var h1 := History(Queue([], [SOON_DELAYED], None, false, 1), [SOON], [], []);
    var h2 := History(Queue([], [SOON_DELAYED, LATE_DELAYED], None, false, 2), [SOON, LATE], [], []);
    TwoDelays(h1, h2);
    var h3, h4 := TwoGets(h2);
    hs := [START, h1, h2, h3, h4];
    IsRunOfFour(hs, WrapEvents());
  }

  lemma IsRunOfFour(hs: seq<History>, es: seq<Event>)
    requires |es| == 4 && |hs| == 5 && hs[0] == START
    requires hs[1] == Advance(hs[0], es[0]) && hs[2] == Advance(hs[1], es[1])
    requires hs[3] == Advance(hs[2], es[2]) && hs[4] == Advance(hs[3], es[3])
    ensures IsRun(hs, es)
  {
  }

  lemma WrapAssumptions(hs: seq<History>)
    requires |hs| == 5 && hs[2].q.dmsgq == [SOON_DELAYED, LATE_DELAYED] && hs[3].q.dmsgq == []
    ensures var es := WrapEvents();
            && Tagged(es)
            && (forall i :: 0 <= i < 4 && IsPass(es[i]) ==> Timely(hs[i].q, es[i].now) && InReach(hs[i].q.dmsgq, es[i].now))
            && (forall i, j :: 0 <= i < j < 4 && IsPass(es[i]) && IsPass(es[j]) ==> es[i].now <= es[j].now)
            && (forall i :: 0 <= i < 4 && es[i].Delays? ==> es[i].due >= Clock(es, i))
  {
    assert Clock(WrapEvents(), 0) == 0 && Clock(WrapEvents(), 1) == 0;
  }

  /** A run in which two triggered messages are returned in the wrong order, across the wrap. */
  lemma WrapReorders() returns (hs: seq<History>, es: seq<Event>)
    ensures GoodRun(hs, es) && |es| == 4
    ensures forall i :: 0 <= i < |es| && IsPass(es[i]) ==> InReach(hs[i].q.dmsgq, es[i].now)
    ensures forall i :: 0 <= i < |es| && es[i].Delays? ==> es[i].due >= Clock(es, i)
    ensures var r := hs[4].returned; |r| == 2 && SoonerMessage(r[1], r[0])
  {
    es := WrapEvents();
    hs := WrapRun();
    WrapAssumptions(hs);
  }

  lemma {:induction false} AcceptedOnce(hs: seq<History>, es: seq<Event>, i: nat, m: Message)
    requires IsRun(hs, es) && Tagged(es) && i < |hs|
    ensures Times(hs[i].accepted, m) <= 1 && (m.tag >= i ==> Times(hs[i].accepted, m) == 0)
  {
    if i > 0 {
      AcceptedOnce(hs, es, i - 1, m);
      AcceptedMore(hs, es, i - 1, m);
    }
  }

  lemma AcceptedMore(hs: seq<History>, es: seq<Event>, i: nat, m: Message)
    requires IsRun(hs, es) && Tagged(es) && i < |es|
    ensures Times(hs[i + 1].accepted, m) <= Times(hs[i].accepted, m) + (if m.tag == i then 1 else 0)
  {
    assert hs[i + 1] == Advance(hs[i], es[i]) && TaggedEvent(es[i], i);
    AcceptedTags(hs[i].q, es[i], i, m);
    TimesConcat(hs[i].accepted, Accepted(hs[i].q, es[i]), m);
  }

  lemma AcceptedTags(q: Queue, e: Event, i: nat, m: Message)
    requires TaggedEvent(e, i)
    ensures Times(Accepted(q, e), m) <= if m.tag == i then 1 else 0
  {
    assert Times([], m) == 0;
  }

  /** A message is returned at most once, and never both returned and cleared, or returned and still held. */
  lemma ReturnedAtMostOnce(hs: seq<History>, es: seq<Event>, i: nat, m: Message)
    requires IsRun(hs, es) && Tagged(es) && i < |hs|
    ensures Times(hs[i].returned, m) + Times(hs[i].gone, m) + Held(hs[i].q, m) <= 1
  {
    MessagesAreConserved(hs, es, i, m);
    AcceptedOnce(hs, es, i, m);
  }
}
