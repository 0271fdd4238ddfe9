/**
 base/messagequeue.cc: posted and delayed messages of one queue.  Clock readings
 are unbounded milliseconds given as arguments; the queue itself only sees them
 modulo 2^32, as the source does.  `tag` numbers the messages in order of
 acceptance and `due` is the true trigger time of a delayed message; neither is
 read by the code.
 */
module MessageQueue {
  import opened Words
  import Time
  import opened Collections

  const MQID_ANY: u32 := 0xFFFF_FFFF
  const MQID_DISPOSE: u32 := 0xFFFF_FFFE

  /** Handler 0 is NULL. */
  datatype Message = Message(handler: nat, id: u32, tag: nat, due: Option<nat>)

  /** Message::Match. */
  predicate Matches(m: Message, handler: nat, id: u32) {
    (handler == 0 || handler == m.handler) && (id == MQID_ANY || id == m.id)
  }

  datatype Delayed = Delayed(due: nat, num: nat, msg: Message)

  /** The priority queue's order, soonest first: raw 32-bit trigger, then raw sequence number. */
  predicate Before(x: Delayed, y: Delayed) {
    U32(x.due) < U32(y.due) || (U32(x.due) == U32(y.due) && U32(x.num) < U32(y.num))
  }

  predicate Later(now: nat, d: Delayed) {
    Time.TimeIsLater(U32(now), U32(d.due))
  }

  datatype Queue = Queue(msgq: seq<Message>, dmsgq: seq<Delayed>, peek: Option<Message>, stop: bool, nextNum: nat)

  // ---- the priority queue -----------------------------------------------------------------

  /** The position of top(). */
  function TopIndex(ds: seq<Delayed>): (k: nat)
    requires ds != []
    ensures k < |ds| && forall j :: 0 <= j < |ds| ==> !Before(ds[j], ds[k])
  {
    var n := |ds| - 1;
    if n == 0 then 0
    else
      var k := TopIndex(ds[..n]);
      assert forall j :: 0 <= j < n ==> ds[j] == ds[..n][j];
      if Before(ds[n], ds[k]) then n else k
  }

  /** The delayed messages that Get moves to the main queue at time `now`, in order. */
  function Moved(ds: seq<Delayed>, now: nat): seq<Delayed>
    decreases |ds|
  {
    if ds == [] || Later(now, ds[TopIndex(ds)]) then []
    else [ds[TopIndex(ds)]] + Moved(Without(ds, TopIndex(ds)), now)
  }

  function Left(ds: seq<Delayed>, now: nat): seq<Delayed>
    decreases |ds|
  {
    if ds == [] || Later(now, ds[TopIndex(ds)]) then ds
    else Left(Without(ds, TopIndex(ds)), now)
  }

  function Messages(ds: seq<Delayed>): seq<Message> {
    seq(|ds|, i requires 0 <= i < |ds| => ds[i].msg)
  }

  // ---- the operations --------------------------------------------------------------------------

  function Post(q: Queue, m: Message): Queue {
    if q.stop then q else q.(msgq := q.msgq + [m])
  }

  function PostDelayed(q: Queue, due: nat, m: Message): Queue {
    if q.stop then q else q.(dmsgq := q.dmsgq + [Delayed(due, q.nextNum, m)], nextNum := q.nextNum + 1)
  }

  function Collect(q: Queue, now: nat): Queue {
    q.(msgq := q.msgq + Messages(Moved(q.dmsgq, now)), dmsgq := Left(q.dmsgq, now))
  }

  /** How many disposal requests stand at the front. */
  function Disposals(ms: seq<Message>): (k: nat)
    ensures k <= |ms| && (forall j :: 0 <= j < k ==> ms[j].id == MQID_DISPOSE)
    ensures k < |ms| ==> ms[k].id != MQID_DISPOSE
  {
    if ms == [] || ms[0].id != MQID_DISPOSE then 0 else 1 + Disposals(ms[1..])
  }

  /** One pass of the loop in Get that found something, or what is left if it did not. */
  function Pass(q: Queue, now: nat): (Option<Message>, Queue) {
    var c := Collect(q, now);
    var k := Disposals(c.msgq);
    if k < |c.msgq| then (Some(c.msgq[k]), c.(msgq := c.msgq[k + 1..])) else (None, c.(msgq := []))
  }

  function Keep(ms: seq<Message>, handler: nat, id: u32): seq<Message> {
    if ms == [] then []
    else
      var m := ms[|ms| - 1];
      Keep(ms[..|ms| - 1], handler, id) + if Matches(m, handler, id) then [] else [m]
  }

  function Drop(ms: seq<Message>, handler: nat, id: u32): seq<Message> {
    if ms == [] then []
    else
      var m := ms[|ms| - 1];
      Drop(ms[..|ms| - 1], handler, id) + if Matches(m, handler, id) then [m] else []
  }

  function KeepDelayed(ds: seq<Delayed>, handler: nat, id: u32): seq<Delayed> {
    if ds == [] then []
    else
      var d := ds[|ds| - 1];
      KeepDelayed(ds[..|ds| - 1], handler, id) + if Matches(d.msg, handler, id) then [] else [d]
  }

  function AsSeq(o: Option<Message>): seq<Message> {
    if o.Some? then [o.value] else []
  }

  function KeepPeek(o: Option<Message>, handler: nat, id: u32): Option<Message> {
    if o.Some? && Matches(o.value, handler, id) then None else o
  }

  function Cleared(q: Queue, handler: nat, id: u32): Queue {
    q.(peek := KeepPeek(q.peek, handler, id), msgq := Keep(q.msgq, handler, id),
       dmsgq := KeepDelayed(q.dmsgq, handler, id))
  }

  /** What Clear hands back: from the peeked message, the main queue, the delayed messages. */
  function Removed(q: Queue, handler: nat, id: u32): seq<Message> {
    Drop(AsSeq(q.peek), handler, id) + Drop(q.msgq, handler, id) + Drop(Messages(q.dmsgq), handler, id)
  }

  class MessageQueue {
    var msgq: seq<Message>
    var dmsgq: seq<Delayed>
    var msgPeek: Option<Message>
    var fStop: bool
    var dmsgqNextNum: nat

    ghost function State(): Queue
      reads this
    {
      Queue(msgq, dmsgq, msgPeek, fStop, dmsgqNextNum)
    }

    constructor ()
      ensures State() == Queue([], [], None, false, 0)
    {
      msgq, dmsgq, msgPeek, fStop, dmsgqNextNum := [], [], None, false, 0;
    }

    method Quit()
      modifies this`fStop
      ensures State() == old(State()).(stop := true)
    {
      fStop := true;
    }

    method PostMessage(m: Message)
      modifies this`msgq
      ensures State() == Post(old(State()), m)
    {
      if fStop {
        return;
      }
      msgq := msgq + [m];
    }

    method DoDelayPost(due: nat, m: Message)
      modifies this`dmsgq, this`dmsgqNextNum
      ensures State() == PostDelayed(old(State()), due, m)
    {
      if fStop {
        return;
      }
      dmsgq := dmsgq + [Delayed(due, dmsgqNextNum, m)];
      dmsgqNextNum := dmsgqNextNum + 1;
    }

    /** The first inner loop of Get: triggered delayed messages join the main queue. */
    method CollectTriggered(now: nat)
      modifies this`msgq, this`dmsgq
      ensures State() == Collect(old(State()), now)
    {
      ghost var moved: seq<Delayed> := [];
      assert msgq + Messages([]) == msgq;
      while dmsgq != []
        invariant moved + Moved(dmsgq, now) == Moved(old(dmsgq), now)
        invariant Left(dmsgq, now) == Left(old(dmsgq), now)
        invariant msgq == old(msgq) + Messages(moved)
        decreases |dmsgq|
      {
        var top := dmsgq[TopIndex(dmsgq)];
        if Time.TimeIsLater(U32(now), U32(top.due)) {
          break;
        }
        assert moved + ([top] + Moved(Without(dmsgq, TopIndex(dmsgq)), now))
            == (moved + [top]) + Moved(Without(dmsgq, TopIndex(dmsgq)), now);
        moved := moved + [top];
        assert Messages(moved) == Messages(moved[..|moved| - 1]) + [top.msg];
        msgq := msgq + [top.msg];
        dmsgq := Without(dmsgq, TopIndex(dmsgq));
      }
      assert moved + [] == moved;
    }

    /** The second inner loop: disposal requests are carried out, the first other message is taken. */
    method TakeFront() returns (r: Option<Message>)
      modifies this`msgq
      ensures var k := Disposals(old(msgq));
              if k < |old(msgq)| then r == Some(old(msgq)[k]) && msgq == old(msgq)[k + 1..]
              else r == None && msgq == []
    {
      ghost var gone := 0;
      while msgq != []
        invariant gone <= |old(msgq)| && msgq == old(msgq)[gone..]
        invariant Disposals(old(msgq)) == gone + Disposals(msgq)
        decreases |msgq|
      {
        var m := msgq[0];
        msgq := msgq[1..];
        if m.id == MQID_DISPOSE {
          gone := gone + 1;
          continue;
        }
        return Some(m);
      }
      return None;
    }

    /**
     Get.  `times` are the clock readings of successive passes; the wait between
     two passes is foreign, and when the readings run out it has timed out or failed.
     */
    method Get(times: seq<nat>) returns (r: Option<Message>)
      modifies this`msgq, this`dmsgq, this`msgPeek
      ensures old(msgPeek).Some? ==> r == old(msgPeek) && State() == old(State()).(peek := None)
      ensures old(msgPeek).None? ==> (r, State()) == Passes(old(State()), times) && GetAnswer(old(State()), times, r)
    {
      if msgPeek.Some? {
        r := msgPeek;
        msgPeek := None;
        return;
      }
      PassesAnswer(State(), times);
      for i := 0 to |times|
        invariant msgPeek == None && fStop == old(fStop) && dmsgqNextNum == old(dmsgqNextNum)
        invariant Passes(old(State()), times) == Passes(State(), times[i..])
      {
        ghost var q := State();
        CollectTriggered(times[i]);
        r := TakeFront();
        assert (r, State()) == Pass(q, times[i]);
        assert times[i..][1..] == times[i + 1..];
        if r.Some? || fStop {
          return;
        }
      }
      return None;
    }

    method Peek(times: seq<nat>) returns (r: Option<Message>)
      modifies this`msgq, this`dmsgq, this`msgPeek
      ensures old(msgPeek).Some? ==> r == old(msgPeek) && State() == old(State())
      ensures old(msgPeek).None? ==>
        (r, State()) == (Passes(old(State()), times).0, Passes(old(State()), times).1.(peek := Passes(old(State()), times).0))
    {
      if msgPeek.Some? {
        return msgPeek;
      }
      PassesLeavePeek(State(), times);
      r := Get(times);
      if r.Some? {
        msgPeek := r;
      }
    }

    method Clear(handler: nat, id: u32) returns (removed: seq<Message>)
      modifies this`msgq, this`dmsgq, this`msgPeek
      ensures State() == Cleared(old(State()), handler, id)
      ensures removed == Removed(old(State()), handler, id)
    {
      removed := [];
      if msgPeek.Some? && Matches(msgPeek.value, handler, id) {
        removed := removed + [msgPeek.value];
        msgPeek := None;
      }
      assert removed == Drop(AsSeq(old(msgPeek)), handler, id);
      var fromQueue := ClearPosted(handler, id);
      var fromDelayed := ClearDelayed(handler, id);
      removed := removed + fromQueue + fromDelayed;
    }

    method ClearPosted(handler: nat, id: u32) returns (removed: seq<Message>)
      modifies this`msgq
      ensures msgq == Keep(old(msgq), handler, id) && removed == Drop(old(msgq), handler, id)
    {
      var kept: seq<Message> := [];
      removed := [];
      for i := 0 to |msgq|
        invariant msgq == old(msgq)
        invariant kept == Keep(msgq[..i], handler, id) && removed == Drop(msgq[..i], handler, id)
      {
        assert msgq[..i + 1][..i] == msgq[..i];
        if Matches(msgq[i], handler, id) {
          removed := removed + [msgq[i]];
        } else {
          kept := kept + [msgq[i]];
        }
      }
      assert msgq[..|msgq|] == msgq;
      msgq := kept;
    }

    /** The heap's container is compacted and made a heap again. */
    method ClearDelayed(handler: nat, id: u32) returns (removed: seq<Message>)
      modifies this`dmsgq
      ensures dmsgq == KeepDelayed(old(dmsgq), handler, id)
      ensures removed == Drop(Messages(old(dmsgq)), handler, id)
    {
      var kept: seq<Delayed> := [];
      removed := [];
      ghost var ms := Messages(dmsgq);
      for i := 0 to |dmsgq|
        invariant dmsgq == old(dmsgq)
        invariant kept == KeepDelayed(dmsgq[..i], handler, id) && removed == Drop(ms[..i], handler, id)
      {
        assert dmsgq[..i + 1][..i] == dmsgq[..i] && ms[..i + 1][..i] == ms[..i];
        if Matches(dmsgq[i].msg, handler, id) {
          removed := removed + [dmsgq[i].msg];
        } else {
          kept := kept + [dmsgq[i]];
        }
      }
      assert dmsgq[..|dmsgq|] == dmsgq && ms[..|ms|] == ms;
      dmsgq := kept;
    }
  }

  // ---- what Get returns, said of the queue it finds -----------------------------------------------

  /** The delayed messages that earlier readings have left. */
  ghost function LeftAfter(ds: seq<Delayed>, times: seq<nat>): seq<Delayed>
    decreases |times|
  {
    if times == [] then ds else LeftAfter(Left(ds, times[0]), times[1..])
  }

  /** The messages on hand at reading `i`: those posted, which the first reading deals with, and those that trigger. */
  ghost function OnHand(q: Queue, times: seq<nat>, i: nat): seq<Message>
    requires i < |times|
  {
    (if i == 0 then q.msgq else []) + Messages(Moved(LeftAfter(q.dmsgq, times[..i]), times[i]))
  }

  ghost predicate AllDisposals(ms: seq<Message>) {
    forall j :: 0 <= j < |ms| ==> ms[j].id == MQID_DISPOSE
  }

  /** `m` is the first of `ms` that is not a disposal request. */
  ghost predicate FirstReal(ms: seq<Message>, m: Message) {
    exists k :: 0 <= k < |ms| && ms[k] == m && m.id != MQID_DISPOSE && AllDisposals(ms[..k])
  }

  /** A stopped queue is looked at once. */
  function Readings(q: Queue, times: seq<nat>): nat {
    if q.stop && |times| > 1 then 1 else |times|
  }

  ghost function Hands(q: Queue, times: seq<nat>): seq<seq<Message>> {
    seq(Readings(q, times), i requires 0 <= i < Readings(q, times) => OnHand(q, times, i))
  }

  /** The first real message at the first reading that has one; nothing only if no reading has one. */
  ghost predicate Answers(hands: seq<seq<Message>>, r: Option<Message>) {
    match r
    case None => forall i :: 0 <= i < |hands| ==> AllDisposals(hands[i])
    case Some(m) => exists i :: 0 <= i < |hands| && FirstReal(hands[i], m) && forall j :: 0 <= j < i ==> AllDisposals(hands[j])
  }

  ghost predicate GetAnswer(q: Queue, times: seq<nat>, r: Option<Message>) {
    Answers(Hands(q, times), r)
  }

  lemma AnswersLater(first: seq<Message>, hands: seq<seq<Message>>, r: Option<Message>)
    requires AllDisposals(first) && Answers(hands, r)
    ensures Answers([first] + hands, r)
  {
    var all := [first] + hands;
    if r.Some? {
      var i :| 0 <= i < |hands| && FirstReal(hands[i], r.value) && forall j :: 0 <= j < i ==> AllDisposals(hands[j]);
      assert FirstReal(all[i + 1], r.value);
      assert forall j :: 0 <= j < i + 1 ==> all[j] == if j == 0 then first else hands[j - 1];
    }
  }

  lemma OnHandFirst(q: Queue, times: seq<nat>)
    requires times != []
    ensures OnHand(q, times, 0) == Collect(q, times[0]).msgq
  {
    assert times[..0] == [];
  }

  lemma PassTakesFirstReal(q: Queue, now: nat)
    ensures Pass(q, now).0.Some? ==> FirstReal(Collect(q, now).msgq, Pass(q, now).0.value)
    ensures Pass(q, now).0.None? ==> AllDisposals(Collect(q, now).msgq) && Pass(q, now).1.msgq == []
  {
    var ms := Collect(q, now).msgq;
    if Disposals(ms) < |ms| { assert AllDisposals(ms[..Disposals(ms)]); }
  }

  lemma OnHandLater(q: Queue, times: seq<nat>, i: nat)
    requires i + 1 < |times| && Pass(q, times[0]).0.None?
    ensures OnHand(q, times, i + 1) == OnHand(Pass(q, times[0]).1, times[1..], i)
  {
    PassTakesFirstReal(q, times[0]);
    var q' := Pass(q, times[0]).1;
    assert times[..i + 1][0] == times[0] && times[..i + 1][1..] == times[1..][..i];
    assert LeftAfter(q.dmsgq, times[..i + 1]) == LeftAfter(q'.dmsgq, times[1..][..i]);
  }

  lemma {:induction false} PassesAnswer(q: Queue, times: seq<nat>)
    ensures GetAnswer(q, times, Passes(q, times).0)
    decreases |times|
  {
    if times != [] {
      OnHandFirst(q, times);
      PassTakesFirstReal(q, times[0]);
      var (r, q') := Pass(q, times[0]);
      if r.None? && !q.stop {
        PassesAnswer(q', times[1..]);
        HandsLater(q, times);
        AnswersLater(OnHand(q, times, 0), Hands(q', times[1..]), Passes(q, times).0);
      } else {
        assert Hands(q, times)[0] == OnHand(q, times, 0);
      }
    }
  }

  lemma HandsLater(q: Queue, times: seq<nat>)
    requires times != [] && Pass(q, times[0]).0.None? && !q.stop
    ensures Hands(q, times) == [OnHand(q, times, 0)] + Hands(Pass(q, times[0]).1, times[1..])
  {
    var q' := Pass(q, times[0]).1;
    var all, rest := Hands(q, times), Hands(q', times[1..]);
    forall i | 0 < i < |all| ensures all[i] == rest[i - 1] {
      OnHandLater(q, times, i - 1);
    }
  }

  /** Passes of Get until a message is found, the queue is stopped, or the readings run out. */
  function Passes(q: Queue, times: seq<nat>): (Option<Message>, Queue)
    decreases |times|
  {
    if times == [] then (None, q)
    else
      var (r, q') := Pass(q, times[0]);
      if r.Some? || q'.stop then (r, q') else Passes(q', times[1..])
  }

  lemma {:induction false} PassesLeavePeek(q: Queue, times: seq<nat>)
    ensures Passes(q, times).1.peek == q.peek
    decreases |times|
  {
    if times != [] {
      PassesLeavePeek(Pass(q, times[0]).1, times[1..]);
    }
  }
}
