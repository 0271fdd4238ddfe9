/**
 base/thread.cc, base/messagequeue.cc and base/physicalsocketserver.cc together:
 any number of threads that post to each other, wait in Get and call each other
 synchronously with Send, as an interleaving of atomic steps.  A thread's wakeup is
 a byte in its self-pipe, written by EventDispatcher::Signal and consumed when
 Wait returns.  A step ends where another thread could run: pushing a message and
 signalling the target are two steps, as are finishing a handler and waking the
 sender.
 */
module MessageLoop {
  import opened Collections

  type Tid = nat
  type Mid = nat

  // ---- the wakeup flag -----------------------------------------------------------------

  /** EventDispatcher: fSignaled_ and the number of bytes in its pipe. */
  datatype Event = Event(signaled: bool, pipe: nat) {
    predicate Ok() {
      pipe == if signaled then 1 else 0
    }
  }

  function Signal(e: Event): Event {
    if e.signaled then e else Event(true, e.pipe + 1)
  }

  /** OnPreEvent, which resets the event before it is handled. */
  function Consume(e: Event): Event {
    if e.signaled && e.pipe > 0 then Event(false, e.pipe - 1) else e
  }

  class EventDispatcher {
    var fSignaled: bool
    var pipe: nat

    ghost predicate Valid()
      reads this
    {
      Event(fSignaled, pipe).Ok()
    }

    constructor ()
      ensures Valid() && !fSignaled
    {
      fSignaled, pipe := false, 0;
    }

    /** write() of one byte to an empty pipe succeeds. */
    method RaiseSignal()
      requires Valid()
      modifies this
      ensures Valid() && Event(fSignaled, pipe) == Signal(old(Event(fSignaled, pipe)))
      ensures pipe == 1
    {
      if !fSignaled {
        pipe := pipe + 1;
        fSignaled := true;
      }
    }

    method OnPreEvent()
      requires Valid()
      modifies this
      ensures Valid() && Event(fSignaled, pipe) == Consume(old(Event(fSignaled, pipe)))
      ensures pipe == 0
    {
      if fSignaled {
        pipe := pipe - 1;
        fSignaled := false;
      }
    }
  }

  // ---- threads and messages ---------------------------------------------------------------

  /** Where a Get stands: before ReceiveSends, before the queue check, before the test of fStop_, in select. */
  datatype GetPc = GReceive | GCheck | GStop | GSelect

  /** Where a Send stands: at the test of `ready`, before ReceiveSends, in select. */
  datatype SendPc = STest | SReceive | SSelect

  datatype Frame =
    | InGet(gpc: GetPc)
    | InSend(m: Mid, spc: SendPc, waited: bool)
    | InReceive(r: Mid)       // a handler is running for sent message `r`, lock released
    | Waking(t: Tid)          // about to call WakeUp on thread t

  /**
   `queue` counts posted messages, `delayed` says that a delayed message was posted
   since the last queue check.  The stack grows to the right; ordinary code runs
   when it is empty or when a handler is on top.
   */
  datatype Thread = Thread(queue: nat, delayed: bool, stop: bool, sendlist: seq<Mid>, hasSends: bool,
                           event: Event, stack: seq<Frame>)

  datatype Status = Pending | Handling | Handled | Cleared

  /** A sent message; `starts` counts the times its handler was started. */
  datatype Msg = Msg(sender: Tid, target: Tid, status: Status, starts: nat)

  datatype System = System(threads: seq<Thread>, msgs: seq<Msg>)

  predicate Ready(m: Msg) {
    m.status == Handled || m.status == Cleared
  }

  predicate HasTop(th: Thread, f: Frame) {
    th.stack != [] && th.stack[|th.stack| - 1] == f
  }

  predicate RunsCode(th: Thread) {
    th.stack == [] || th.stack[|th.stack| - 1].InReceive?
  }

  predicate IsWaking(th: Thread) {
    th.stack != [] && th.stack[|th.stack| - 1].Waking?
  }

  function Push(th: Thread, f: Frame): Thread {
    th.(stack := th.stack + [f])
  }

  function Pop(th: Thread): Thread
    requires th.stack != []
  {
    th.(stack := th.stack[..|th.stack| - 1])
  }

  /** The top frame replaced. */
  function Swap(th: Thread, f: Frame): Thread
    requires th.stack != []
  {
    Push(Pop(th), f)
  }

  // ---- the steps ---------------------------------------------------------------------------------

  datatype Step =
    | PostTo(t: Tid)                 // Post: push under the lock
    | DelayTo(t: Tid)                // DoDelayPost
    | QuitOf(t: Tid)                 // Quit: fStop_ = true
    | StartGet
    | StartSend(t: Tid)              // Send: append to the target's sendlist_
    | Wake                           // WakeUp of the thread named by the top frame
    | CheckSends                     // ReceiveSends, up to a handler or to the end
    | FinishHandler                  // the handler returned: *ready = true
    | CheckQueue                     // Get's queue check, under the lock
    | TestStop                       // Get's test of fStop_, after it
    | TestReady                      // Send's loop condition
    | Woken                          // select returned because of the wakeup byte
    | WokenLate                      // the same, but the time of the Get is up and it returns
    | TimedOut(giveUp: bool)         // Get's wait ended otherwise
    | ClearSend(t: Tid, k: nat)      // Thread::Clear removes the k-th sent message

  /** The unlocked test of fStop_ may be stale, so a post can still reach a stopped queue. */
  ghost predicate Enabled(sys: System, a: Tid, st: Step) {
    a < |sys.threads| &&
    var th := sys.threads[a];
    match st
    case PostTo(t) => RunsCode(th) && t < |sys.threads|
    case DelayTo(t) => RunsCode(th) && t < |sys.threads|
    case QuitOf(t) => RunsCode(th) && t < |sys.threads|
    case StartGet => RunsCode(th)
    case StartSend(t) => RunsCode(th) && t < |sys.threads| && t != a
    case Wake => IsWaking(th) && th.stack[|th.stack| - 1].t < |sys.threads|
    case CheckSends =>
      th.stack != [] &&
      var f := th.stack[|th.stack| - 1];
      f == InGet(GReceive) || (f.InSend? && f.spc == SReceive)
    case FinishHandler =>
      th.stack != [] && th.stack[|th.stack| - 1].InReceive? && th.stack[|th.stack| - 1].r < |sys.msgs|
    case CheckQueue => HasTop(th, InGet(GCheck))
    case TestStop => HasTop(th, InGet(GStop))
    case TestReady =>
      th.stack != [] &&
      var f := th.stack[|th.stack| - 1];
      f.InSend? && f.spc == STest && f.m < |sys.msgs|
    case Woken =>
      th.event.pipe > 0 && th.stack != [] &&
      var f := th.stack[|th.stack| - 1];
      f == InGet(GSelect) || (f.InSend? && f.spc == SSelect)
    case WokenLate => th.event.pipe > 0 && HasTop(th, InGet(GSelect))
    case TimedOut(_) => HasTop(th, InGet(GSelect))
    case ClearSend(t, k) =>
      RunsCode(th) && t < |sys.threads| && k < |sys.threads[t].sendlist| && sys.threads[t].sendlist[k] < |sys.msgs|
  }

  /** The frame reached when ReceiveSends finds nothing more to do. */
  function AfterSends(f: Frame): Frame
    requires f.InGet? || f.InSend?
  {
    if f.InGet? then InGet(GCheck) else f.(spc := SSelect)
  }

  /** ReceiveSends by thread `a`: the flag is read first, then the list under the lock. */
  function Sends(sys: System, a: Tid): System
    requires a < |sys.threads| && sys.threads[a].stack != []
    requires sys.threads[a].stack[|sys.threads[a].stack| - 1].InGet? || sys.threads[a].stack[|sys.threads[a].stack| - 1].InSend?
  {
    var th := sys.threads[a];
    var f := th.stack[|th.stack| - 1];
    if !th.hasSends then sys.(threads := sys.threads[a := Swap(th, AfterSends(f))])
    else if th.sendlist == [] then sys.(threads := sys.threads[a := Swap(th, AfterSends(f)).(hasSends := false)])
    else
      var m := th.sendlist[0];
      var th' := Push(th.(sendlist := th.sendlist[1..]), InReceive(m));
      System(sys.threads[a := th'],
             if m < |sys.msgs| then sys.msgs[m := sys.msgs[m].(status := Handling, starts := sys.msgs[m].starts + 1)] else sys.msgs)
  }

  /** The effect on the target of a post and its like, and then the actor's obligation to wake it. */
  function ThenWake(sys: System, a: Tid, t: Tid, target: Thread): System
    requires a < |sys.threads| && t < |sys.threads|
  {
    var ths := sys.threads[t := target];
    sys.(threads := ths[a := Push(ths[a], Waking(t))])
  }

  ghost function Next(sys: System, a: Tid, st: Step): System
    requires Enabled(sys, a, st)
  {
    var th := sys.threads[a];
    match st
    case PostTo(t) => ThenWake(sys, a, t, sys.threads[t].(queue := sys.threads[t].queue + 1))
    case DelayTo(t) => ThenWake(sys, a, t, sys.threads[t].(delayed := true))
    case QuitOf(t) => ThenWake(sys, a, t, sys.threads[t].(stop := true))
    case StartGet => sys.(threads := sys.threads[a := Push(th, InGet(GReceive))])
    case StartSend(t) =>
      var m := |sys.msgs|;
      var ths := sys.threads[t := sys.threads[t].(sendlist := sys.threads[t].sendlist + [m], hasSends := true)];
      System(ths[a := Push(Push(th, InSend(m, STest, false)), Waking(t))], sys.msgs + [Msg(a, t, Pending, 0)])
    case Wake =>
      var t := th.stack[|th.stack| - 1].t;
      var ths := sys.threads[a := Pop(th)];
      sys.(threads := ths[t := ths[t].(event := Signal(ths[t].event))])
    case CheckSends => Sends(sys, a)
    case FinishHandler =>
      var m := th.stack[|th.stack| - 1].r;
      System(sys.threads[a := Swap(th, Waking(sys.msgs[m].sender))], sys.msgs[m := sys.msgs[m].(status := Handled)])
    case CheckQueue =>
      sys.(threads := sys.threads[a := if th.queue > 0 then Pop(th).(queue := th.queue - 1)
                                       else Swap(th, InGet(GStop)).(delayed := false)])
    case TestStop =>
      sys.(threads := sys.threads[a := if th.stop then Pop(th) else Swap(th, InGet(GSelect))])
    case TestReady =>
      var f := th.stack[|th.stack| - 1];
      sys.(threads := sys.threads[a := if !Ready(sys.msgs[f.m]) then Swap(th, f.(spc := SReceive))
                                       else if f.waited then Swap(th, Waking(a))
                                       else Pop(th)])
    case Woken =>
      var f := th.stack[|th.stack| - 1];
      var f' := if f.InGet? then InGet(GReceive) else f.(spc := STest, waited := true);
      sys.(threads := sys.threads[a := Swap(th, f').(event := Consume(th.event))])
    case WokenLate => sys.(threads := sys.threads[a := Pop(th).(event := Consume(th.event))])
    case TimedOut(giveUp) =>
      sys.(threads := sys.threads[a := if giveUp then Pop(th) else Swap(th, InGet(GReceive))])
    case ClearSend(t, k) =>
      var m := sys.threads[t].sendlist[k];
      var ths := sys.threads[t := sys.threads[t].(sendlist := Without(sys.threads[t].sendlist, k))];
      System(ths[a := Push(ths[a], Waking(sys.msgs[m].sender))], sys.msgs[m := sys.msgs[m].(status := Cleared)])
  }

  // ---- the invariant -----------------------------------------------------------------------------

  /** A wakeup byte is in the pipe of `x`, or some thread is just about to write one. */
  ghost predicate WakeupPending(sys: System, x: Tid) {
    x < |sys.threads| &&
    (sys.threads[x].event.pipe > 0 || exists b :: 0 <= b < |sys.threads| && HasTop(sys.threads[b], Waking(x)))
  }

  ghost predicate ListOk(list: seq<Mid>, msgs: seq<Msg>, x: Tid) {
    && Distinct(list)
    && forall i :: 0 <= i < |list| ==> list[i] < |msgs| && msgs[list[i]].status == Pending && msgs[list[i]].target == x
  }

  /** A frame that other work can be stacked on: it looks again before it blocks. */
  predicate Resumes(f: Frame) {
    match f
    case InGet(gpc) => gpc == GReceive
    case InSend(_, spc, _) => spc != SSelect
    case InReceive(_) => true
    case Waking(_) => false
  }

  ghost predicate FrameOk(stack: seq<Frame>, k: nat, msgs: seq<Msg>, x: Tid)
    requires k < |stack|
  {
    && (k < |stack| - 1 ==> Resumes(stack[k]))
    && match stack[k]
       case InGet(_) => true
       case InSend(m, _, _) => m < |msgs| && msgs[m].sender == x
       case InReceive(m) => m < |msgs| && msgs[m].status == Handling && msgs[m].target == x
       case Waking(_) => true
  }

  ghost predicate FramesOk(stack: seq<Frame>, msgs: seq<Msg>, x: Tid) {
    && (forall k :: 0 <= k < |stack| ==> FrameOk(stack, k, msgs, x))
    && (forall j, k :: 0 <= j < k < |stack| && stack[j].InReceive? && stack[k].InReceive? ==> stack[j] != stack[k])
  }

  /** A Send nested further up has waited, and will pass the wakeup on when it returns. */
  ghost predicate WaitedAbove(stack: seq<Frame>, k: int) {
    exists j :: 0 <= j < |stack| && j > k && stack[j].InSend? && stack[j].waited
  }

  ghost predicate Overdue(f: Frame, msgs: seq<Msg>) {
    f.InSend? && f.spc != STest && f.m < |msgs| && Ready(msgs[f.m])
  }

  /** A Send past its test of `ready` whose message is done has a wakeup coming. */
  ghost predicate RepliesOk(stack: seq<Frame>, msgs: seq<Msg>, wakeup: bool) {
    forall k :: 0 <= k < |stack| && Overdue(stack[k], msgs) ==> wakeup || WaitedAbove(stack, k)
  }

  /** A thread about to block, with anything new since it looked, has a wakeup coming. */
  ghost predicate TopOk(th: Thread, wakeup: bool) {
    th.stack != [] ==>
      var f := th.stack[|th.stack| - 1];
      && (f == InGet(GCheck) && th.sendlist != [] ==> wakeup)
      && (f == InGet(GStop) && (th.sendlist != [] || th.queue > 0 || th.delayed) ==> wakeup)
      && (f == InGet(GSelect) && (th.sendlist != [] || th.queue > 0 || th.stop || th.delayed) ==> wakeup)
      && (f.InSend? && f.spc == SSelect && th.sendlist != [] ==> wakeup)
  }

  ghost predicate Local(th: Thread, msgs: seq<Msg>, x: Tid, wakeup: bool) {
    && th.event.Ok()
    && (th.sendlist != [] ==> th.hasSends)
    && ListOk(th.sendlist, msgs, x) && FramesOk(th.stack, msgs, x)
    && RepliesOk(th.stack, msgs, wakeup) && TopOk(th, wakeup)
  }

  ghost predicate HasSendFrame(stack: seq<Frame>, m: Mid) {
    exists k :: 0 <= k < |stack| && stack[k].InSend? && stack[k].m == m
  }

  /** A message is in its target's list exactly while it is pending, and its sender waits until it is done. */
  ghost predicate MsgOk(sys: System, m: Mid)
    requires m < |sys.msgs|
  {
    var msg := sys.msgs[m];
    && msg.sender < |sys.threads| && msg.target < |sys.threads|
    && (msg.status == Pending ==> m in sys.threads[msg.target].sendlist)
    && (Ready(msg) || HasSendFrame(sys.threads[msg.sender].stack, m))
    && msg.starts == (if msg.status == Pending || msg.status == Cleared then 0 else 1)
  }

  /** `lax` leaves out all that is said about wakeups. */
  ghost predicate Wakes(sys: System, x: Tid, lax: bool) {
    lax || WakeupPending(sys, x)
  }

  ghost predicate ThreadOk(sys: System, x: Tid, lax: bool) {
    x < |sys.threads| && Local(sys.threads[x], sys.msgs, x, Wakes(sys, x, lax))
  }

  ghost predicate Inv(sys: System, lax: bool) {
    && (forall x {:trigger ThreadOk(sys, x, lax)} :: 0 <= x < |sys.threads| ==> ThreadOk(sys, x, lax))
    && (forall m {:trigger MsgOk(sys, m)} :: 0 <= m < |sys.msgs| ==> MsgOk(sys, m))
  }

  // ---- preservation -------------------------------------------------------------------------------

  /** What another thread's step may change about the messages without disturbing thread `x`. */
  ghost predicate Undisturbed(msgs: seq<Msg>, msgs': seq<Msg>, x: Tid, wakeup: bool) {
    && |msgs| <= |msgs'|
    && forall m :: 0 <= m < |msgs| ==>
      && msgs'[m].sender == msgs[m].sender && msgs'[m].target == msgs[m].target
      && (msgs[m].target == x ==> msgs'[m].status == msgs[m].status)
      && (Ready(msgs'[m]) ==> Ready(msgs[m]) || msgs[m].sender != x || wakeup)
  }

  lemma LocalStays(th: Thread, msgs: seq<Msg>, msgs': seq<Msg>, x: Tid, w: bool, w': bool)
    requires Local(th, msgs, x, w) && (w ==> w') && Undisturbed(msgs, msgs', x, w')
    ensures Local(th, msgs', x, w')
  {
    forall k | 0 <= k < |th.stack| ensures FrameOk(th.stack, k, msgs', x) {
      assert FrameOk(th.stack, k, msgs, x);
    }
    forall k | 0 <= k < |th.stack| && Overdue(th.stack[k], msgs') ensures w' || WaitedAbove(th.stack, k) {
      assert FrameOk(th.stack, k, msgs, x);
    }
  }

  /** Wakeups survive a step of a thread that was not about to give one, unless it consumes its own. */
  lemma WakeupStays(sys: System, sys': System, a: Tid, x: Tid, lax: bool)
    requires a < |sys.threads| == |sys'.threads| && x < |sys.threads| && !IsWaking(sys.threads[a]) && Wakes(sys, x, lax)
    requires forall b :: 0 <= b < |sys.threads| && b != a ==> sys'.threads[b].stack == sys.threads[b].stack
    requires sys'.threads[x].event.pipe >= sys.threads[x].event.pipe
    ensures Wakes(sys', x, lax)
  {
    if !lax && sys.threads[x].event.pipe == 0 {
      var b :| 0 <= b < |sys.threads| && HasTop(sys.threads[b], Waking(x));
      assert b != a && HasTop(sys'.threads[b], Waking(x));
    }
  }

  /** A step that changes only its own thread, and no message. */
  lemma OnlyActor(sys: System, a: Tid, th': Thread, lax: bool)
    requires Inv(sys, lax) && a < |sys.threads| && !IsWaking(sys.threads[a])
    requires th'.sendlist == sys.threads[a].sendlist
    requires forall m :: 0 <= m < |sys.msgs| && !Ready(sys.msgs[m]) && HasSendFrame(sys.threads[a].stack, m)
               ==> HasSendFrame(th'.stack, m)
    requires Local(th', sys.msgs, a, Wakes(sys.(threads := sys.threads[a := th']), a, lax))
    ensures Inv(sys.(threads := sys.threads[a := th']), lax)
  {
    assert ThreadOk(sys, a, lax);
    var sys' := sys.(threads := sys.threads[a := th']);
    forall x | 0 <= x < |sys'.threads| ensures ThreadOk(sys', x, lax) {
      assert ThreadOk(sys, x, lax);
      if x != a {
        if Wakes(sys, x, lax) { WakeupStays(sys, sys', a, x, lax); }
        LocalStays(sys.threads[x], sys.msgs, sys.msgs, x, Wakes(sys, x, lax), Wakes(sys', x, lax));
      }
    }
    forall m | 0 <= m < |sys'.msgs| ensures MsgOk(sys', m) {
      assert MsgOk(sys, m);
    }
  }

  /** Frames below the top are untouched by pushing, popping and swapping. */
  lemma PushFrames(stack: seq<Frame>, f: Frame, msgs: seq<Msg>, x: Tid, w: bool)
    requires FramesOk(stack, msgs, x) && RepliesOk(stack, msgs, w)
    requires stack != [] ==> Resumes(stack[|stack| - 1])
    requires FrameOk(stack + [f], |stack|, msgs, x) && (f.InSend? ==> f.spc == STest)
    requires f.InReceive? ==> forall k :: 0 <= k < |stack| ==> stack[k] != f
    ensures FramesOk(stack + [f], msgs, x) && RepliesOk(stack + [f], msgs, w)
  {
    var s' := stack + [f];
    forall k | 0 <= k < |s'| ensures FrameOk(s', k, msgs, x) {
      if k < |stack| { assert FrameOk(stack, k, msgs, x); }
    }
    forall k | 0 <= k < |s'| && Overdue(s'[k], msgs)
      ensures w || WaitedAbove(s', k)
    {
      assert stack[k] == s'[k];
      if !w {
        var j :| 0 <= j < |stack| && j > k && stack[j].InSend? && stack[j].waited;
        assert s'[j] == stack[j];
      }
    }
  }

  lemma PopFrames(stack: seq<Frame>, msgs: seq<Msg>, x: Tid, w: bool, w': bool)
    requires stack != [] && FramesOk(stack, msgs, x) && RepliesOk(stack, msgs, w)
    requires w ==> w'
    requires var f := stack[|stack| - 1]; f.InSend? && f.waited ==> w'
    ensures FramesOk(stack[..|stack| - 1], msgs, x) && RepliesOk(stack[..|stack| - 1], msgs, w')
  {
    var s' := stack[..|stack| - 1];
    forall k | 0 <= k < |s'| ensures FrameOk(s', k, msgs, x) {
      assert FrameOk(stack, k, msgs, x);
    }
    forall k | 0 <= k < |s'| && Overdue(s'[k], msgs)
      ensures w' || WaitedAbove(s', k)
    {
      assert stack[k] == s'[k];
      if !w && !w' {
        var j :| 0 <= j < |stack| && j > k && stack[j].InSend? && stack[j].waited;
        assert s'[j] == stack[j];
      }
    }
  }

  lemma SendFrameStays(stack: seq<Frame>, f: Frame, m: Mid)
    requires HasSendFrame(stack, m)
    ensures HasSendFrame(stack + [f], m)
  {
    var k :| 0 <= k < |stack| && stack[k].InSend? && stack[k].m == m;
    assert (stack + [f])[k] == stack[k];
  }

  /** Swapping the top keeps every Send frame that the new top stands for. */
  lemma SendFrameSwaps(stack: seq<Frame>, f: Frame, m: Mid)
    requires stack != [] && HasSendFrame(stack, m)
    requires var top := stack[|stack| - 1]; top.InSend? && top.m == m ==> f.InSend? && f.m == m
    ensures HasSendFrame(stack[..|stack| - 1] + [f], m)
  {
    var k :| 0 <= k < |stack| && stack[k].InSend? && stack[k].m == m;
    var s' := stack[..|stack| - 1] + [f];
    assert if k < |stack| - 1 then s'[k] == stack[k] else s'[k] == f;
  }

  lemma StartGetKeeps(sys: System, a: Tid, lax: bool)
    requires Inv(sys, lax) && Enabled(sys, a, StartGet)
    ensures Inv(Next(sys, a, StartGet), lax)
  {
    assert ThreadOk(sys, a, lax);
    var th := sys.threads[a];
    var th' := Push(th, InGet(GReceive));
    var sys' := sys.(threads := sys.threads[a := th']);
    var w, w' := Wakes(sys, a, lax), Wakes(sys', a, lax);
    if w { WakeupStays(sys, sys', a, a, lax); }
    LocalStays(th, sys.msgs, sys.msgs, a, w, w');
    PushFrames(th.stack, InGet(GReceive), sys.msgs, a, w');
    forall m | 0 <= m < |sys.msgs| && HasSendFrame(th.stack, m) ensures HasSendFrame(th'.stack, m) {
      SendFrameStays(th.stack, InGet(GReceive), m);
    }
    OnlyActor(sys, a, th', lax);
  }

  /** Swapping a frame for one that asks no more of the wakeup. */
  lemma SwapLocal(th: Thread, f: Frame, msgs: seq<Msg>, x: Tid, w: bool, w': bool)
    requires th.stack != [] && FramesOk(th.stack, msgs, x) && RepliesOk(th.stack, msgs, w) && (w ==> w')
    requires var top := th.stack[|th.stack| - 1];
             && !top.Waking? && (top.InSend? && top.waited ==> w' || (f.InSend? && f.waited))
    requires FrameOk(th.stack[..|th.stack| - 1] + [f], |th.stack| - 1, msgs, x) && !f.InReceive?
    requires Overdue(f, msgs) ==> w'
    ensures FramesOk(Swap(th, f).stack, msgs, x) && RepliesOk(Swap(th, f).stack, msgs, w')
  {
    var n := |th.stack| - 1;
    var s, s' := th.stack, Swap(th, f).stack;
    assert forall k :: 0 <= k < n ==> s'[k] == s[k];
    forall k | 0 <= k < |s'| ensures FrameOk(s', k, msgs, x) {
      if k < n { assert FrameOk(s, k, msgs, x); }
    }
    forall k | 0 <= k < |s'| && Overdue(s'[k], msgs)
      ensures w' || WaitedAbove(s', k)
    {
      if k < n && !w && !w' {
        var j :| 0 <= j < |s| && j > k && s[j].InSend? && s[j].waited;
        assert s'[j].InSend? && s'[j].waited;
      }
    }
  }

  // ---- one lemma a step ---------------------------------------------------------------------------

  /** Thread `x` with work stacked on top of it, which looks again before it blocks. */
  lemma PushLocal(th: Thread, f: Frame, msgs: seq<Msg>, x: Tid, w: bool)
    requires Local(th, msgs, x, w) && (th.stack != [] ==> Resumes(th.stack[|th.stack| - 1]))
    requires FrameOk(th.stack + [f], |th.stack|, msgs, x) && (f.InSend? ==> f.spc == STest) && (f.InGet? ==> f.gpc == GReceive)
    requires f.InReceive? ==> forall k :: 0 <= k < |th.stack| ==> th.stack[k] != f
    ensures Local(Push(th, f), msgs, x, w)
  {
    PushFrames(th.stack, f, msgs, x, w);
  }

  lemma PopLocal(th: Thread, msgs: seq<Msg>, x: Tid, w: bool, w': bool)
    requires Local(th, msgs, x, w) && th.stack != [] && (w ==> w')
    requires var f := th.stack[|th.stack| - 1]; f.InSend? && f.waited ==> w'
    ensures Local(Pop(th), msgs, x, w')
  {
    PopFrames(th.stack, msgs, x, w, w');
    if |th.stack| > 1 { assert FrameOk(th.stack, |th.stack| - 2, msgs, x); }
  }

  /** A swap for a frame that does not block. */
  lemma SwapKeeps(th: Thread, f: Frame, msgs: seq<Msg>, x: Tid, w: bool, w': bool)
    requires Local(th, msgs, x, w) && th.stack != [] && (w ==> w')
    requires var top := th.stack[|th.stack| - 1]; top.InSend? && (top.waited ==> w' || (f.InSend? && f.waited))
    requires f.Waking? || (f.InSend? && f.spc == SReceive && f.m == th.stack[|th.stack| - 1].m)
    requires Overdue(f, msgs) ==> w'
    ensures Local(Swap(th, f), msgs, x, w')
  {
    assert FrameOk(th.stack, |th.stack| - 1, msgs, x);
    SwapLocal(th, f, msgs, x, w, w');
  }

  /** Post, DoDelayPost and Quit: the target gets something to look at, and the actor is about to wake it. */
  lemma ThenWakeKeeps(sys: System, a: Tid, t: Tid, target: Thread, lax: bool)
    requires Inv(sys, lax) && a < |sys.threads| && t < |sys.threads| && RunsCode(sys.threads[a])
    requires target == sys.threads[t].(queue := target.queue, delayed := target.delayed, stop := target.stop)
    ensures Inv(ThenWake(sys, a, t, target), lax)
  {
    assert ThreadOk(sys, a, lax);
    var sys' := ThenWake(sys, a, t, target);
    assert HasTop(sys'.threads[a], Waking(t));
    forall x | 0 <= x < |sys'.threads| ensures ThreadOk(sys', x, lax) {
      assert ThreadOk(sys, x, lax);
      var w, w' := Wakes(sys, x, lax), Wakes(sys', x, lax);
      if w { WakeupStays(sys, sys', a, x, lax); }
      LocalStays(sys.threads[x], sys.msgs, sys.msgs, x, w, w');
      var th := if x == t then target else sys.threads[x];
      assert Local(th, sys.msgs, x, w');
      if x == a { PushLocal(th, Waking(t), sys.msgs, x, w'); }
    }
    forall m | 0 <= m < |sys'.msgs| ensures MsgOk(sys', m) {
      assert MsgOk(sys, m);
      if HasSendFrame(sys.threads[a].stack, m) { SendFrameStays(sys.threads[a].stack, Waking(t), m); }
    }
  }

  lemma ListGains(th: Thread, msgs: seq<Msg>, n: Mid, x: Tid)
    requires Local(th, msgs, x, true) && n < |msgs| && msgs[n].status == Pending && msgs[n].target == x && n !in th.sendlist
    ensures Local(th.(sendlist := th.sendlist + [n], hasSends := true), msgs, x, true)
  {
    assert ListOk(th.sendlist + [n], msgs, x);
  }

  lemma SendPushed(th: Thread, msgs: seq<Msg>, n: Mid, t: Tid, x: Tid, w: bool)
    requires Local(th, msgs, x, w) && RunsCode(th) && n < |msgs| && msgs[n].sender == x
    ensures Local(Push(Push(th, InSend(n, STest, false)), Waking(t)), msgs, x, w)
  {
    PushLocal(th, InSend(n, STest, false), msgs, x, w);
    PushLocal(Push(th, InSend(n, STest, false)), Waking(t), msgs, x, w);
  }

  lemma StartSendLocal(sys: System, a: Tid, t: Tid, x: Tid, lax: bool)
    requires Inv(sys, lax) && Enabled(sys, a, StartSend(t)) && x < |sys.threads|
    ensures var sys' := Next(sys, a, StartSend(t)); ThreadOk(sys', x, lax)
  {
    assert ThreadOk(sys, a, lax);
    assert ThreadOk(sys, x, lax);
    var sys' := Next(sys, a, StartSend(t));
    assert HasTop(sys'.threads[a], Waking(t));
    var w, w' := Wakes(sys, x, lax), Wakes(sys', x, lax);
    if w { WakeupStays(sys, sys', a, x, lax); }
    LocalStays(sys.threads[x], sys.msgs, sys'.msgs, x, w, w');
    if x == t {
      assert |sys.msgs| !in sys.threads[t].sendlist;
      assert w';
      ListGains(sys.threads[t], sys'.msgs, |sys.msgs|, t);
    } else if x == a {
      SendPushed(sys.threads[a], sys'.msgs, |sys.msgs|, t, a, w');
    }
  }

  lemma StartSendKeeps(sys: System, a: Tid, t: Tid, lax: bool)
    requires Inv(sys, lax) && Enabled(sys, a, StartSend(t))
    ensures Inv(Next(sys, a, StartSend(t)), lax)
  {
    assert ThreadOk(sys, a, lax);
    var sys' := Next(sys, a, StartSend(t));
    var n := |sys.msgs|;
    var s := sys.threads[a].stack;
    var s' := s + [InSend(n, STest, false)];
    forall x | 0 <= x < |sys'.threads| ensures ThreadOk(sys', x, lax) {
      assert ThreadOk(sys, x, lax);
      StartSendLocal(sys, a, t, x, lax);
    }
    forall m | 0 <= m < |sys'.msgs| ensures MsgOk(sys', m) {
      if m == n {
        assert s'[|s|].m == m;
      } else {
        assert MsgOk(sys, m);
        if HasSendFrame(s, m) { SendFrameStays(s, InSend(n, STest, false), m); }
      }
      if HasSendFrame(s', m) { SendFrameStays(s', Waking(t), m); }
    }
  }

  /** A wakeup other than the one being given survives; the one being given becomes a byte. */
  lemma WakeGives(sys: System, a: Tid, x: Tid, lax: bool)
    requires Inv(sys, lax) && Enabled(sys, a, Wake) && x < |sys.threads| && Wakes(sys, x, lax)
    ensures Wakes(Next(sys, a, Wake), x, lax)
  {
    assert ThreadOk(sys, a, lax);
    assert ThreadOk(sys, x, lax);
    var sys' := Next(sys, a, Wake);
    var t := sys.threads[a].stack[|sys.threads[a].stack| - 1].t;
    assert ThreadOk(sys, t, lax);
    if !lax && x != t && sys.threads[x].event.pipe == 0 {
      var b :| 0 <= b < |sys.threads| && HasTop(sys.threads[b], Waking(x));
      assert b != a && HasTop(sys'.threads[b], Waking(x));
    }
  }

  lemma WakeKeeps(sys: System, a: Tid, lax: bool)
    requires Inv(sys, lax) && Enabled(sys, a, Wake)
    ensures Inv(Next(sys, a, Wake), lax)
  {
    assert ThreadOk(sys, a, lax);
    var sys' := Next(sys, a, Wake);
    var s := sys.threads[a].stack;
    forall x | 0 <= x < |sys'.threads| ensures ThreadOk(sys', x, lax) {
      assert ThreadOk(sys, x, lax);
      var w, w' := Wakes(sys, x, lax), Wakes(sys', x, lax);
      if w { WakeGives(sys, a, x, lax); }
      LocalStays(sys.threads[x], sys.msgs, sys.msgs, x, w, w');
      if x == a { PopLocal(sys.threads[a], sys.msgs, a, w', w'); }
    }
    forall m | 0 <= m < |sys'.msgs| ensures MsgOk(sys', m) {
      assert MsgOk(sys, m);
      if HasSendFrame(s, m) { SendFramePops(s, m); }
    }
  }

  lemma SendFramePops(stack: seq<Frame>, m: Mid)
    requires stack != [] && HasSendFrame(stack, m)
    requires var f := stack[|stack| - 1]; !(f.InSend? && f.m == m)
    ensures HasSendFrame(stack[..|stack| - 1], m)
  {
    var k :| 0 <= k < |stack| && stack[k].InSend? && stack[k].m == m;
    assert stack[..|stack| - 1][k] == stack[k];
  }

  /** The list handed on and the handler started, or nothing there and on to the next stage. */
  lemma CheckSendsKeeps(sys: System, a: Tid, lax: bool)
    requires Inv(sys, lax) && Enabled(sys, a, CheckSends)
    ensures Inv(Next(sys, a, CheckSends), lax)
  {
    assert ThreadOk(sys, a, lax);
    var th := sys.threads[a];
    var f := th.stack[|th.stack| - 1];
    if th.sendlist == [] || !th.hasSends {
      var th' := Swap(th, AfterSends(f)).(hasSends := th.hasSends && th.sendlist != []);
      var sys' := sys.(threads := sys.threads[a := th']);
      assert sys' == Next(sys, a, CheckSends);
      var w, w' := Wakes(sys, a, lax), Wakes(sys', a, lax);
      if w { WakeupStays(sys, sys', a, a, lax); }
      assert FrameOk(th.stack, |th.stack| - 1, sys.msgs, a);
      if Overdue(AfterSends(f), sys.msgs) {
        assert Overdue(f, sys.msgs);
        assert !WaitedAbove(th.stack, |th.stack| - 1);
      }
      SwapLocal(th, AfterSends(f), sys.msgs, a, w, w');
      forall m | 0 <= m < |sys.msgs| && HasSendFrame(th.stack, m) ensures HasSendFrame(th'.stack, m) {
        SendFrameSwaps(th.stack, AfterSends(f), m);
      }
      OnlyActor(sys, a, th', lax);
    } else {
      HandlerStartKeeps(sys, a, lax);
    }
  }

  lemma HandlerStartLocal(sys: System, a: Tid, x: Tid, lax: bool)
    requires Inv(sys, lax) && Enabled(sys, a, CheckSends) && sys.threads[a].sendlist != [] && x < |sys.threads|
    ensures var sys' := Next(sys, a, CheckSends); ThreadOk(sys', x, lax)
  {
    assert ThreadOk(sys, x, lax);
    ListedForTarget(sys, a, 0, lax);
    HasSendsFlag(sys, a, lax);
    var sys' := Next(sys, a, CheckSends);
    var w, w' := Wakes(sys, x, lax), Wakes(sys', x, lax);
    if w { WakeupStays(sys, sys', a, x, lax); }
    if x != a {
      LocalStays(sys.threads[x], sys.msgs, sys'.msgs, x, w, w');
    } else {
      HandlerPushed(sys.threads[a], sys.msgs, sys'.msgs, a, w, w');
    }
  }

  lemma HasSendsFlag(sys: System, a: Tid, lax: bool)
    requires Inv(sys, lax) && a < |sys.threads| && sys.threads[a].sendlist != []
    ensures sys.threads[a].hasSends
  {
    assert ThreadOk(sys, a, lax);
  }

  /** The thread that takes up a sent message. */
  lemma HandlerPushed(th: Thread, msgs: seq<Msg>, msgs': seq<Msg>, x: Tid, w: bool, w': bool)
    requires Local(th, msgs, x, w) && (w ==> w') && th.sendlist != [] && th.stack != [] && Resumes(th.stack[|th.stack| - 1])
    requires th.sendlist[0] < |msgs| && msgs[th.sendlist[0]].target == x
    requires var n := th.sendlist[0]; msgs' == msgs[n := msgs[n].(status := Handling, starts := msgs[n].starts + 1)]
    ensures Local(Push(th.(sendlist := th.sendlist[1..]), InReceive(th.sendlist[0])), msgs', x, w')
  {
    var n := th.sendlist[0];
    ListLoses(th, msgs, msgs', 0, x, w, w');
    assert Without(th.sendlist, 0) == th.sendlist[1..];
    forall k | 0 <= k < |th.stack| ensures th.stack[k] != InReceive(n) {
      assert FrameOk(th.stack, k, msgs, x);
    }
    PushFrames(th.stack, InReceive(n), msgs', x, w');
  }

  lemma HandlerStartKeeps(sys: System, a: Tid, lax: bool)
    requires Inv(sys, lax) && Enabled(sys, a, CheckSends) && sys.threads[a].sendlist != []
    ensures Inv(Next(sys, a, CheckSends), lax)
  {
    assert ThreadOk(sys, a, lax);
    var sys' := Next(sys, a, CheckSends);
    var th := sys.threads[a];
    var n := th.sendlist[0];
    assert ListOk(th.sendlist, sys.msgs, a);
    forall x | 0 <= x < |sys'.threads| ensures ThreadOk(sys', x, lax) {
      assert ThreadOk(sys, x, lax);
      HandlerStartLocal(sys, a, x, lax);
    }
    forall m | 0 <= m < |sys'.msgs| ensures MsgOk(sys', m) {
      assert MsgOk(sys, m);
      if HasSendFrame(th.stack, m) { SendFrameStays(th.stack, InReceive(n), m); }
    }
  }

  /** Thread `x` loses the k-th message of its list, which is being handled or cleared. */
  lemma ListLoses(th: Thread, msgs: seq<Msg>, msgs': seq<Msg>, k: nat, x: Tid, w: bool, w': bool)
    requires Local(th, msgs, x, w) && (w ==> w') && k < |th.sendlist| && |msgs'| == |msgs|
    requires forall m :: 0 <= m < |msgs| && m != th.sendlist[k] ==> msgs'[m] == msgs[m]
    requires var n := th.sendlist[k]; n < |msgs| && msgs'[n] == msgs[n].(status := msgs'[n].status, starts := msgs'[n].starts)
    requires var n := th.sendlist[k]; n < |msgs| && Ready(msgs'[n]) && msgs[n].sender == x ==> w'
    ensures Local(th.(sendlist := Without(th.sendlist, k)), msgs', x, w')
  {
    forall i | 0 <= i < |th.stack| ensures FrameOk(th.stack, i, msgs', x) {
      assert FrameOk(th.stack, i, msgs, x);
    }
    forall i | 0 <= i < |th.stack| && Overdue(th.stack[i], msgs') ensures w' || WaitedAbove(th.stack, i) {
      assert FrameOk(th.stack, i, msgs, x);
      if !w' { assert Overdue(th.stack[i], msgs); }
    }
  }

  lemma FinishHandlerLocal(sys: System, a: Tid, x: Tid, lax: bool)
    requires Inv(sys, lax) && Enabled(sys, a, FinishHandler) && x < |sys.threads|
    ensures var sys' := Next(sys, a, FinishHandler); ThreadOk(sys', x, lax)
  {
    assert ThreadOk(sys, a, lax);
    assert ThreadOk(sys, x, lax);
    var sys' := Next(sys, a, FinishHandler);
    var th := sys.threads[a];
    var n := th.stack[|th.stack| - 1].r;
    var s := sys.msgs[n].sender;
    assert FrameOk(th.stack, |th.stack| - 1, sys.msgs, a);
    assert HasTop(sys'.threads[a], Waking(s));
    var w, w' := Wakes(sys, x, lax), Wakes(sys', x, lax);
    if w { WakeupStays(sys, sys', a, x, lax); }
    if x != a {
      LocalStays(sys.threads[x], sys.msgs, sys'.msgs, x, w, w');
    } else {
      PopLocal(th, sys.msgs, a, w, w');
      forall k | 0 <= k < |Pop(th).stack| ensures Pop(th).stack[k] != InReceive(n) {
        assert th.stack[k] == Pop(th).stack[k];
      }
      HandledLocal(Pop(th), sys.msgs, n, a, w');
      if |th.stack| > 1 { assert FrameOk(th.stack, |th.stack| - 2, sys.msgs, a); }
      PushLocal(Pop(th), Waking(s), sys'.msgs, a, w');
    }
  }

  lemma FinishHandlerKeeps(sys: System, a: Tid, lax: bool)
    requires Inv(sys, lax) && Enabled(sys, a, FinishHandler)
    ensures Inv(Next(sys, a, FinishHandler), lax)
  {
    assert ThreadOk(sys, a, lax);
    var sys' := Next(sys, a, FinishHandler);
    var th := sys.threads[a];
    var n := th.stack[|th.stack| - 1].r;
    assert FrameOk(th.stack, |th.stack| - 1, sys.msgs, a);
    forall x | 0 <= x < |sys'.threads| ensures ThreadOk(sys', x, lax) {
      assert ThreadOk(sys, x, lax);
      FinishHandlerLocal(sys, a, x, lax);
    }
    forall m | 0 <= m < |sys'.msgs| ensures MsgOk(sys', m) {
      assert MsgOk(sys, m);
      if HasSendFrame(th.stack, m) { SendFrameSwaps(th.stack, Waking(sys.msgs[n].sender), m); }
    }
  }

  /** Once its handler's frame is gone, a message can become handled without disturbing the thread. */
  lemma HandledLocal(th: Thread, msgs: seq<Msg>, n: Mid, x: Tid, w: bool)
    requires Local(th, msgs, x, w) && n < |msgs| && msgs[n].status == Handling && (msgs[n].sender == x ==> w)
    requires forall k :: 0 <= k < |th.stack| ==> th.stack[k] != InReceive(n)
    ensures Local(th, msgs[n := msgs[n].(status := Handled)], x, w)
  {
    var msgs' := msgs[n := msgs[n].(status := Handled)];
    forall i | 0 <= i < |th.stack| ensures FrameOk(th.stack, i, msgs', x) {
      assert FrameOk(th.stack, i, msgs, x);
    }
    forall i | 0 <= i < |th.stack| && Overdue(th.stack[i], msgs') ensures w || WaitedAbove(th.stack, i) {
      assert FrameOk(th.stack, i, msgs, x);
      if !w { assert Overdue(th.stack[i], msgs); }
    }
  }

  /** A Get that looks and returns, or goes on to its next stage. */
  lemma GetStageKeeps(sys: System, a: Tid, th': Thread, next: GetPc, lax: bool)
    requires Inv(sys, lax) && a < |sys.threads| && sys.threads[a].stack != []
    requires sys.threads[a].stack[|sys.threads[a].stack| - 1].InGet?
    requires var th := sys.threads[a]; th'.stack == Pop(th).stack || th'.stack == Swap(th, InGet(next)).stack
    requires var th := sys.threads[a];
             th'.event == th.event && th'.sendlist == th.sendlist && th'.hasSends == th.hasSends
    requires var w := Wakes(sys, a, lax); TopOk(sys.threads[a], w) ==> TopOk(th', w)
    ensures Inv(sys.(threads := sys.threads[a := th']), lax)
  {
    assert ThreadOk(sys, a, lax);
    var th := sys.threads[a];
    var sys' := sys.(threads := sys.threads[a := th']);
    var w, w' := Wakes(sys, a, lax), Wakes(sys', a, lax);
    if w { WakeupStays(sys, sys', a, a, lax); }
    assert FrameOk(th.stack, |th.stack| - 1, sys.msgs, a);
    PopFrames(th.stack, sys.msgs, a, w, w');
    SwapLocal(th, InGet(next), sys.msgs, a, w, w');
    forall m | 0 <= m < |sys.msgs| && HasSendFrame(th.stack, m) ensures HasSendFrame(th'.stack, m) {
      SendFramePops(th.stack, m);
      SendFrameSwaps(th.stack, InGet(next), m);
    }
    OnlyActor(sys, a, th', lax);
  }

  /** A popped Get leaves a thread that runs code. */
  lemma PoppedTopOk(th: Thread, msgs: seq<Msg>, x: Tid, w: bool)
    requires th.stack != [] && FramesOk(th.stack, msgs, x)
    ensures TopOk(Pop(th), w) && (|th.stack| > 1 ==> Resumes(th.stack[|th.stack| - 2]))
  {
    if |th.stack| > 1 { assert FrameOk(th.stack, |th.stack| - 2, msgs, x); }
  }

  lemma CheckQueueKeeps(sys: System, a: Tid, lax: bool)
    requires Inv(sys, lax) && Enabled(sys, a, CheckQueue)
    ensures Inv(Next(sys, a, CheckQueue), lax)
  {
    assert ThreadOk(sys, a, lax);
    PoppedTopOk(sys.threads[a], sys.msgs, a, Wakes(sys, a, lax));
    GetStageKeeps(sys, a, Next(sys, a, CheckQueue).threads[a], GStop, lax);
  }

  lemma TestStopKeeps(sys: System, a: Tid, lax: bool)
    requires Inv(sys, lax) && Enabled(sys, a, TestStop)
    ensures Inv(Next(sys, a, TestStop), lax)
  {
    assert ThreadOk(sys, a, lax);
    PoppedTopOk(sys.threads[a], sys.msgs, a, Wakes(sys, a, lax));
    GetStageKeeps(sys, a, Next(sys, a, TestStop).threads[a], GSelect, lax);
  }

  lemma TimedOutKeeps(sys: System, a: Tid, giveUp: bool, lax: bool)
    requires Inv(sys, lax) && Enabled(sys, a, TimedOut(giveUp))
    ensures Inv(Next(sys, a, TimedOut(giveUp)), lax)
  {
    assert ThreadOk(sys, a, lax);
    PoppedTopOk(sys.threads[a], sys.msgs, a, Wakes(sys, a, lax));
    GetStageKeeps(sys, a, Next(sys, a, TimedOut(giveUp)).threads[a], GReceive, lax);
  }

  lemma TestReadyKeeps(sys: System, a: Tid, lax: bool)
    requires Inv(sys, lax) && Enabled(sys, a, TestReady)
    ensures Inv(Next(sys, a, TestReady), lax)
  {
    assert ThreadOk(sys, a, lax);
    var th := sys.threads[a];
    var f := th.stack[|th.stack| - 1];
    var sys' := Next(sys, a, TestReady);
    var th' := sys'.threads[a];
    assert sys' == sys.(threads := sys.threads[a := th']);
    TestReadyLocal(sys, a, lax);
    forall m | 0 <= m < |sys.msgs| && !Ready(sys.msgs[m]) && HasSendFrame(th.stack, m) ensures HasSendFrame(th'.stack, m) {
      if !Ready(sys.msgs[f.m]) { SendFrameSwaps(th.stack, f.(spc := SReceive), m); }
      else if f.waited { SendFrameSwaps(th.stack, Waking(a), m); }
      else { SendFramePops(th.stack, m); }
    }
    OnlyActor(sys, a, th', lax);
  }

  lemma TestReadyLocal(sys: System, a: Tid, lax: bool)
    requires Inv(sys, lax) && Enabled(sys, a, TestReady)
    ensures var sys' := Next(sys, a, TestReady); Local(sys'.threads[a], sys.msgs, a, Wakes(sys', a, lax))
  {
    assert ThreadOk(sys, a, lax);
    var th := sys.threads[a];
    var f := th.stack[|th.stack| - 1];
    var sys' := Next(sys, a, TestReady);
    var w, w' := Wakes(sys, a, lax), Wakes(sys', a, lax);
    if w { WakeupStays(sys, sys', a, a, lax); }
    assert FrameOk(th.stack, |th.stack| - 1, sys.msgs, a);
    if !Ready(sys.msgs[f.m]) {
      SwapKeeps(th, f.(spc := SReceive), sys.msgs, a, w, w');
    } else if f.waited {
      assert HasTop(sys'.threads[a], Waking(a));
      SwapKeeps(th, Waking(a), sys.msgs, a, w, w');
    } else {
      PopLocal(th, sys.msgs, a, w, w');
    }
  }

  /** A thread other than `x` is about to wake it. */
  ghost predicate AnotherWakes(sys: System, x: Tid) {
    exists b :: 0 <= b < |sys.threads| && HasTop(sys.threads[b], Waking(x))
  }

  /**
   A Get may take the wakeup byte of thread `a`: no Send beneath it has its reply and
   depends on that byte.
   */
  ghost predicate Harmless(sys: System, a: Tid)
    requires a < |sys.threads|
  {
    forall k :: 0 <= k < |sys.threads[a].stack| && Overdue(sys.threads[a].stack[k], sys.msgs) ==>
      WaitedAbove(sys.threads[a].stack, k) || AnotherWakes(sys, a)
  }

  /** Thread `x` has a Send whose reply came and that nothing will wake for it. */
  ghost predicate Forgotten(sys: System, x: Tid) {
    x < |sys.threads| && !WakeupPending(sys, x) &&
    exists k :: 0 <= k < |sys.threads[x].stack| && Overdue(sys.threads[x].stack[k], sys.msgs)
                && !WaitedAbove(sys.threads[x].stack, k)
  }

  predicate TakenByGet(sys: System, a: Tid, st: Step) {
    (st.Woken? || st.WokenLate?) && a < |sys.threads| && sys.threads[a].stack != [] &&
    sys.threads[a].stack[|sys.threads[a].stack| - 1].InGet?
  }

  predicate Wakens(st: Step) {
    st.Woken? || st.WokenLate?
  }

  /** The frames of a thread whose top was woken. */
  lemma WokenFrames(sys: System, a: Tid, st: Step)
    requires Enabled(sys, a, st) && Wakens(st)
    ensures var s, s' := sys.threads[a].stack, Next(sys, a, st).threads[a].stack;
            && |s| - 1 <= |s'| <= |s| && (forall k :: 0 <= k < |s| - 1 ==> s'[k] == s[k])
            && (s[|s| - 1].InGet? && |s'| == |s| ==> s'[|s| - 1] == InGet(GReceive))
            && (s[|s| - 1].InSend? ==> |s'| == |s| && s'[|s| - 1] == s[|s| - 1].(spc := STest, waited := true))
  {
  }

  lemma WokenReplies(sys: System, a: Tid, st: Step, lax: bool)
    requires Inv(sys, lax) && Enabled(sys, a, st) && Wakens(st)
    requires lax || !TakenByGet(sys, a, st) || Harmless(sys, a)
    ensures var sys' := Next(sys, a, st); RepliesOk(sys'.threads[a].stack, sys.msgs, Wakes(sys', a, lax))
  {
    var sys' := Next(sys, a, st);
    var s, s' := sys.threads[a].stack, sys'.threads[a].stack;
    WokenFrames(sys, a, st);
    forall k | 0 <= k < |s'| && Overdue(s'[k], sys.msgs) ensures Wakes(sys', a, lax) || WaitedAbove(s', k) {
      assert k < |s| - 1 && s'[k] == s[k];
      if s[|s| - 1].InSend? {
        assert s'[|s| - 1].waited;
      } else if !lax && WaitedAbove(s, k) {
        var j :| 0 <= j < |s| && j > k && s[j].InSend? && s[j].waited;
        assert s'[j] == s[j];
      } else if !lax {
        var b :| 0 <= b < |sys.threads| && HasTop(sys.threads[b], Waking(a));
        assert HasTop(sys'.threads[b], Waking(a));
      }
    }
  }

  /** The byte is consumed, and the frame it wakes looks again, remembers that it waited, or returns. */
  lemma WokenKeeps(sys: System, a: Tid, st: Step, lax: bool)
    requires Inv(sys, lax) && Enabled(sys, a, st) && Wakens(st)
    requires lax || !TakenByGet(sys, a, st) || Harmless(sys, a)
    ensures Inv(Next(sys, a, st), lax)
  {
    var th := sys.threads[a];
    var f := th.stack[|th.stack| - 1];
    var f' := if f.InGet? then InGet(GReceive) else f.(spc := STest, waited := true);
    var sys' := Next(sys, a, st);
    var th' := sys'.threads[a];
    assert sys' == sys.(threads := sys.threads[a := th']);
    WokenLocal(sys, a, st, lax);
    forall m | 0 <= m < |sys.msgs| && HasSendFrame(th.stack, m) ensures HasSendFrame(th'.stack, m) {
      SendFrameSwaps(th.stack, f', m);
      if f.InGet? { SendFramePops(th.stack, m); }
    }
    OnlyActor(sys, a, th', lax);
  }

  lemma WokenLocal(sys: System, a: Tid, st: Step, lax: bool)
    requires Inv(sys, lax) && Enabled(sys, a, st) && Wakens(st)
    requires lax || !TakenByGet(sys, a, st) || Harmless(sys, a)
    ensures var sys' := Next(sys, a, st); Local(sys'.threads[a], sys.msgs, a, Wakes(sys', a, lax))
  {
    assert ThreadOk(sys, a, lax);
    WokenFramesOk(sys.threads[a], sys.msgs, a, Next(sys, a, st).threads[a], Wakes(Next(sys, a, st), a, lax));
    WokenReplies(sys, a, st, lax);
  }

  lemma WokenFramesOk(th: Thread, msgs: seq<Msg>, x: Tid, th': Thread, w: bool)
    requires th.stack != [] && FramesOk(th.stack, msgs, x)
    requires var f := th.stack[|th.stack| - 1];
             || (f.InGet? && th'.stack == Swap(th, InGet(GReceive)).stack)
             || (f.InGet? && th'.stack == Pop(th).stack)
             || (f.InSend? && th'.stack == Swap(th, f.(spc := STest, waited := true)).stack)
    ensures FramesOk(th'.stack, msgs, x) && TopOk(th', w)
  {
    var f := th.stack[|th.stack| - 1];
    assert FrameOk(th.stack, |th.stack| - 1, msgs, x);
    SwapLocal(th, if f.InGet? then InGet(GReceive) else f.(spc := STest, waited := true), msgs, x, true, true);
    PopFrames(th.stack, msgs, x, true, true);
    if th'.stack == Pop(th).stack { PoppedTopOk(th, msgs, x, w); }
  }

  /** Otherwise that Send is forgotten. */
  lemma HarmfulForgets(sys: System, a: Tid, st: Step)
    requires Inv(sys, false) && Enabled(sys, a, st) && TakenByGet(sys, a, st) && !Harmless(sys, a)
    ensures Forgotten(Next(sys, a, st), a)
  {
    assert ThreadOk(sys, a, false);
    var sys' := Next(sys, a, st);
    var s, s' := sys.threads[a].stack, sys'.threads[a].stack;
    WokenFrames(sys, a, st);
    var k :| 0 <= k < |s| && Overdue(s[k], sys.msgs) && !WaitedAbove(s, k) && !AnotherWakes(sys, a);
    assert s'[k] == s[k];
    forall j | 0 <= j < |s'| && j > k && s'[j].InSend? ensures !s'[j].waited {
      assert s[j] == s'[j];
    }
    forall b | 0 <= b < |sys'.threads| ensures !HasTop(sys'.threads[b], Waking(a)) {
      if b != a { assert !HasTop(sys.threads[b], Waking(a)); } else { NotWaking(sys, a, st); }
    }
  }

  /** A thread just woken is not about to wake another. */
  lemma NotWaking(sys: System, a: Tid, st: Step)
    requires Inv(sys, false) && Enabled(sys, a, st) && Wakens(st)
    ensures !IsWaking(Next(sys, a, st).threads[a])
  {
    assert ThreadOk(sys, a, false);
    var s := sys.threads[a].stack;
    if |s| > 1 { assert FrameOk(s, |s| - 2, sys.msgs, a); }
  }

  lemma ClearSendLocal(sys: System, a: Tid, t: Tid, k: nat, x: Tid, lax: bool)
    requires Inv(sys, lax) && Enabled(sys, a, ClearSend(t, k)) && x < |sys.threads|
    ensures var sys' := Next(sys, a, ClearSend(t, k)); ThreadOk(sys', x, lax)
  {
    assert ThreadOk(sys, x, lax);
    var sys' := Next(sys, a, ClearSend(t, k));
    var s := sys.msgs[sys.threads[t].sendlist[k]].sender;
    assert HasTop(sys'.threads[a], Waking(s));
    ListedForTarget(sys, t, k, lax);
    var w, w' := Wakes(sys, x, lax), Wakes(sys', x, lax);
    if w { WakeupStays(sys, sys', a, x, lax); }
    ClearedLocal(sys, sys'.msgs, t, k, x, w, w');
    if x == a { PushLocal(ClearedThread(sys, t, k, x), Waking(s), sys'.msgs, x, w'); }
  }

  lemma ListedForTarget(sys: System, t: Tid, k: nat, lax: bool)
    requires Inv(sys, lax) && t < |sys.threads| && k < |sys.threads[t].sendlist|
    ensures sys.threads[t].sendlist[k] < |sys.msgs| && sys.msgs[sys.threads[t].sendlist[k]].target == t
  {
    assert ThreadOk(sys, t, lax);
  }

  function ClearedThread(sys: System, t: Tid, k: nat, x: Tid): Thread
    requires x < |sys.threads| && (x == t ==> k < |sys.threads[t].sendlist|)
  {
    if x == t then sys.threads[x].(sendlist := Without(sys.threads[x].sendlist, k)) else sys.threads[x]
  }

  lemma ClearedLocal(sys: System, msgs': seq<Msg>, t: Tid, k: nat, x: Tid, w: bool, w': bool)
    requires x < |sys.threads| && t < |sys.threads| && k < |sys.threads[t].sendlist| && sys.threads[t].sendlist[k] < |sys.msgs|
    requires Local(sys.threads[x], sys.msgs, x, w) && (w ==> w')
    requires var n := sys.threads[t].sendlist[k];
             && msgs' == sys.msgs[n := sys.msgs[n].(status := Cleared)]
             && sys.msgs[n].target == t && (sys.msgs[n].sender == x ==> w')
    ensures Local(ClearedThread(sys, t, k, x), msgs', x, w')
  {
    if x != t {
      LocalStays(sys.threads[x], sys.msgs, msgs', x, w, w');
    } else {
      ListLoses(sys.threads[x], sys.msgs, msgs', k, x, w, w');
    }
  }

  lemma ClearSendKeeps(sys: System, a: Tid, t: Tid, k: nat, lax: bool)
    requires Inv(sys, lax) && Enabled(sys, a, ClearSend(t, k))
    ensures Inv(Next(sys, a, ClearSend(t, k)), lax)
  {
    assert ThreadOk(sys, a, lax);
    var sys' := Next(sys, a, ClearSend(t, k));
    var n := sys.threads[t].sendlist[k];
    var stack := sys.threads[a].stack;
    assert ThreadOk(sys, t, lax);
    forall x | 0 <= x < |sys'.threads| ensures ThreadOk(sys', x, lax) {
      assert ThreadOk(sys, x, lax);
      ClearSendLocal(sys, a, t, k, x, lax);
    }
    forall m | 0 <= m < |sys'.msgs| ensures MsgOk(sys', m) {
      assert MsgOk(sys, m);
      if m != n { WithoutKeeps(sys.threads[t].sendlist, k, m); }
      if HasSendFrame(stack, m) { SendFrameStays(stack, Waking(sys.msgs[n].sender), m); }
    }
  }

  lemma WithoutKeeps(s: seq<Mid>, k: nat, m: Mid)
    requires k < |s| && s[k] != m
    ensures m in Without(s, k) <==> m in s
  {
    assert s == s[..k] + [s[k]] + s[k + 1..];
  }

  // ---- whole runs --------------------------------------------------------------------------------

  lemma StepKeepsInv(sys: System, a: Tid, st: Step, lax: bool)
    requires Inv(sys, lax) && Enabled(sys, a, st)
    requires lax || !TakenByGet(sys, a, st) || Harmless(sys, a)
    ensures Inv(Next(sys, a, st), lax)
  {
    assert ThreadOk(sys, a, lax);
    match st
    case PostTo(t) => ThenWakeKeeps(sys, a, t, sys.threads[t].(queue := sys.threads[t].queue + 1), lax);
    case DelayTo(t) => ThenWakeKeeps(sys, a, t, sys.threads[t].(delayed := true), lax);
    case QuitOf(t) => ThenWakeKeeps(sys, a, t, sys.threads[t].(stop := true), lax);
    case StartGet => StartGetKeeps(sys, a, lax);
    case StartSend(t) => StartSendKeeps(sys, a, t, lax);
    case Wake => WakeKeeps(sys, a, lax);
    case CheckSends => CheckSendsKeeps(sys, a, lax);
    case FinishHandler => FinishHandlerKeeps(sys, a, lax);
    case CheckQueue => CheckQueueKeeps(sys, a, lax);
    case TestStop => TestStopKeeps(sys, a, lax);
    case TestReady => TestReadyKeeps(sys, a, lax);
    case Woken => WokenKeeps(sys, a, st, lax);
    case WokenLate => WokenKeeps(sys, a, st, lax);
    case TimedOut(giveUp) => TimedOutKeeps(sys, a, giveUp, lax);
    case ClearSend(t, k) => ClearSendKeeps(sys, a, t, k, lax);
  }

  ghost predicate Initial(sys: System) {
    sys.msgs == [] &&
    forall x :: 0 <= x < |sys.threads| ==> sys.threads[x] == Thread(0, false, false, [], false, Event(false, 0), [])
  }

  /** Any interleaving: at each point some thread takes some enabled step. */
  ghost predicate IsRun(ss: seq<System>, steps: seq<(Tid, Step)>) {
    |ss| == |steps| + 1 && Initial(ss[0]) &&
    forall i :: 0 <= i < |steps| ==> Enabled(ss[i], steps[i].0, steps[i].1) && ss[i + 1] == Next(ss[i], steps[i].0, steps[i].1)
  }

  /** Up to state `n`, no Get took a wakeup that a Send beneath it depended on. */
  ghost predicate Careful(ss: seq<System>, steps: seq<(Tid, Step)>, n: nat)
    requires IsRun(ss, steps) && n < |ss|
  {
    forall i :: 0 <= i < n && TakenByGet(ss[i], steps[i].0, steps[i].1) ==> Harmless(ss[i], steps[i].0)
  }

  lemma {:induction false} RunKeepsInv(ss: seq<System>, steps: seq<(Tid, Step)>, n: nat, lax: bool)
    requires IsRun(ss, steps) && n < |ss| && (lax || Careful(ss, steps, n))
    ensures Inv(ss[n], lax)
  {
    if n > 0 {
      RunKeepsInv(ss, steps, n - 1, lax);
      assert ss[n - 1 + 1] == Next(ss[n - 1], steps[n - 1].0, steps[n - 1].1);
      StepKeepsInv(ss[n - 1], steps[n - 1].0, steps[n - 1].1, lax);
    }
  }

  /** Thread `x` is in select, and what it was to notice arrived since it last looked. */
  ghost predicate BlockedWithWork(sys: System, x: Tid) {
    x < |sys.threads| && sys.threads[x].stack != [] &&
    var th := sys.threads[x];
    var f := th.stack[|th.stack| - 1];
    || (f == InGet(GSelect) && (th.queue > 0 || th.delayed || th.stop || th.sendlist != []))
    || (f.InSend? && f.spc == SSelect && (th.sendlist != [] || (f.m < |sys.msgs| && Ready(sys.msgs[f.m]))))
  }

  /**
   No lost wakeup, in any interleaving: the byte is in the pipe or another thread is
   writing it, unless a Get has taken a byte that a Send beneath it depended on.  The
   flag mirrors the pipe whatever happens.
   */
  lemma NoLostWakeup(ss: seq<System>, steps: seq<(Tid, Step)>, n: nat, x: Tid)
    requires IsRun(ss, steps) && n < |ss| && x < |ss[n].threads|
    ensures ss[n].threads[x].event.signaled <==> ss[n].threads[x].event.pipe == 1
    ensures ss[n].threads[x].event.pipe <= 1
    ensures Careful(ss, steps, n) && BlockedWithWork(ss[n], x) ==> WakeupPending(ss[n], x)
  {
    RunKeepsInv(ss, steps, n, true);
    var th := ss[n].threads[x];
    assert ThreadOk(ss[n], x, true);
    if Careful(ss, steps, n) && BlockedWithWork(ss[n], x) {
      RunKeepsInv(ss, steps, n, false);
      BlockedIsWoken(ss[n], x);
    }
  }

  lemma BlockedIsWoken(sys: System, x: Tid)
    requires Inv(sys, false) && BlockedWithWork(sys, x)
    ensures WakeupPending(sys, x)
  {
    assert ThreadOk(sys, x, false);
    var th := sys.threads[x];
    assert ThreadOk(sys, x, false);
    if th.stack[|th.stack| - 1].InSend? && th.sendlist == [] {
      assert Overdue(th.stack[|th.stack| - 1], sys.msgs);
      assert !WaitedAbove(th.stack, |th.stack| - 1);
    }
  }

  /**
   The exact dividing line: no Send is ever forgotten if and only if no Get takes a
   byte that a Send beneath it depends on.
   */
  lemma NoneForgottenIffCareful(ss: seq<System>, steps: seq<(Tid, Step)>, n: nat)
    requires IsRun(ss, steps) && n < |ss|
    ensures Careful(ss, steps, n) <==> forall i, x :: 0 <= i <= n && 0 <= x < |ss[i].threads| ==> !Forgotten(ss[i], x)
  {
    if Careful(ss, steps, n) {
      forall i, x | 0 <= i <= n && 0 <= x < |ss[i].threads| ensures !Forgotten(ss[i], x) {
        RunKeepsInv(ss, steps, i, false);
        assert ThreadOk(ss[i], x, false);
      }
    } else {
      CarelessForgets(ss, steps, n);
    }
  }

  lemma {:induction false} CarelessForgets(ss: seq<System>, steps: seq<(Tid, Step)>, n: nat)
    requires IsRun(ss, steps) && n < |ss| && !Careful(ss, steps, n)
    ensures exists i, x :: 0 <= i <= n && 0 <= x < |ss[i].threads| && Forgotten(ss[i], x)
  {
    if !Careful(ss, steps, n - 1) {
      CarelessForgets(ss, steps, n - 1);
    } else {
      RunKeepsInv(ss, steps, n - 1, false);
      assert ss[n - 1 + 1] == Next(ss[n - 1], steps[n - 1].0, steps[n - 1].1);
      HarmfulForgets(ss[n - 1], steps[n - 1].0, steps[n - 1].1);
      assert Forgotten(ss[n], steps[n - 1].0);
    }
  }

  // ---- a rule that callers can follow ----------------------------------------------------------

  ghost predicate NoSend(stack: seq<Frame>) {
    forall j :: 0 <= j < |stack| ==> !stack[j].InSend?
  }

  /** No Get is started while a Send of the same thread is waiting further down. */
  ghost predicate GetsOutsideSends(ss: seq<System>, steps: seq<(Tid, Step)>, n: nat)
    requires IsRun(ss, steps) && n < |ss|
  {
    forall i :: 0 <= i < n && steps[i].1.StartGet? ==> NoSend(ss[i].threads[steps[i].0].stack)
  }

  ghost predicate GetsAreLow(stack: seq<Frame>) {
    forall k :: 0 <= k < |stack| && stack[k].InGet? ==> NoSend(stack[..k])
  }

  /** The frames that stay, and a new top of the same kind, or a new frame on top. */
  ghost predicate Grows(s: seq<Frame>, s': seq<Frame>) {
    || s' == s
    || (s != [] && s' == s[..|s| - 1])
    || (s != [] && exists f: Frame :: s' == s[..|s| - 1] + [f] && (f.InGet? ==> s[|s| - 1].InGet?))
    || (exists f: Frame :: s' == s + [f] && (f.InGet? ==> NoSend(s)))
    || (exists f: Frame, g: Frame :: s' == s + [f] + [g] && !f.InGet? && !g.InGet?)
  }

  lemma GrowsKeepsLow(s: seq<Frame>, s': seq<Frame>)
    requires GetsAreLow(s) && Grows(s, s')
    ensures GetsAreLow(s')
  {
    forall k | 0 <= k < |s'| && s'[k].InGet? ensures NoSend(s'[..k]) {
      if k < |s| {
        assert s[k].InGet?;
        assert s'[..k] == s[..k];
      } else {
        assert k == |s| && s'[..k] == s;
      }
    }
  }

  /** Steps that stack something on their thread. */
  predicate Stacks(st: Step) {
    st.PostTo? || st.DelayTo? || st.QuitOf? || st.StartGet? || st.StartSend? || st.ClearSend?
  }

  lemma StackingGrows(sys: System, a: Tid, st: Step)
    requires Enabled(sys, a, st) && Stacks(st) && (st.StartGet? ==> NoSend(sys.threads[a].stack))
    ensures Grows(sys.threads[a].stack, Next(sys, a, st).threads[a].stack)
  {
    var s, s' := sys.threads[a].stack, Next(sys, a, st).threads[a].stack;
    match st {
      case PostTo(t) => assert s' == s + [Waking(t)];
      case DelayTo(t) => assert s' == s + [Waking(t)];
      case QuitOf(t) => assert s' == s + [Waking(t)];
      case StartGet => assert s' == s + [InGet(GReceive)];
      case StartSend(t) => assert s' == s + [InSend(|sys.msgs|, STest, false)] + [Waking(t)];
      case ClearSend(t, k) => assert s' == s + [Waking(sys.msgs[sys.threads[t].sendlist[k]].sender)];
    }
  }

  lemma OtherStepGrows(sys: System, a: Tid, st: Step)
    requires Enabled(sys, a, st) && !Stacks(st)
    ensures Grows(sys.threads[a].stack, Next(sys, a, st).threads[a].stack)
  {
    var s, s' := sys.threads[a].stack, Next(sys, a, st).threads[a].stack;
    var below, top := s[..|s| - 1], s[|s| - 1];
    match st {
      case Wake =>
      case CheckSends =>
        if s' != below + [AfterSends(top)] { assert s' == s + [InReceive(sys.threads[a].sendlist[0])]; }
      case FinishHandler => assert s' == below + [Waking(sys.msgs[top.r].sender)];
      case CheckQueue => if s' != below { assert s' == below + [InGet(GStop)]; }
      case TestStop => if s' != below { assert s' == below + [InGet(GSelect)]; }
      case WokenLate =>
      case TestReady => if s' != below && s' != below + [Waking(a)] { assert s' == below + [top.(spc := SReceive)]; }
      case Woken => if s' != below + [InGet(GReceive)] { assert s' == below + [top.(spc := STest, waited := true)]; }
      case TimedOut(_) => if s' != below { assert s' == below + [InGet(GReceive)]; }
    }
  }

  lemma StepGrows(sys: System, a: Tid, st: Step, x: Tid)
    requires Enabled(sys, a, st) && x < |sys.threads|
    requires st.StartGet? ==> NoSend(sys.threads[a].stack)
    ensures Grows(sys.threads[x].stack, Next(sys, a, st).threads[x].stack)
  {
    if x == a {
      if Stacks(st) { StackingGrows(sys, a, st); } else { OtherStepGrows(sys, a, st); }
    }
  }

  lemma {:induction false} RunKeepsGetsLow(ss: seq<System>, steps: seq<(Tid, Step)>, n: nat, x: Tid)
    requires IsRun(ss, steps) && n < |ss| && GetsOutsideSends(ss, steps, n) && x < |ss[n].threads|
    ensures GetsAreLow(ss[n].threads[x].stack)
  {
    if n > 0 {
      assert ss[n - 1 + 1] == Next(ss[n - 1], steps[n - 1].0, steps[n - 1].1);
      RunKeepsGetsLow(ss, steps, n - 1, x);
      StepGrows(ss[n - 1], steps[n - 1].0, steps[n - 1].1, x);
      GrowsKeepsLow(ss[n - 1].threads[x].stack, ss[n].threads[x].stack);
    }
  }

  /** Whoever starts no Get above a waiting Send loses no wakeup. */
  lemma OutsideSendsIsCareful(ss: seq<System>, steps: seq<(Tid, Step)>, n: nat)
    requires IsRun(ss, steps) && n < |ss| && GetsOutsideSends(ss, steps, n)
    ensures Careful(ss, steps, n)
  {
    forall i | 0 <= i < n && TakenByGet(ss[i], steps[i].0, steps[i].1) ensures Harmless(ss[i], steps[i].0) {
      var s := ss[i].threads[steps[i].0].stack;
      RunKeepsGetsLow(ss, steps, i, steps[i].0);
      assert NoSend(s[..|s| - 1]);
      assert forall k :: 0 <= k < |s| - 1 ==> s[k] == s[..|s| - 1][k];
    }
  }

  /**
   When no thread is between changing a queue and signalling it, a thread asleep with an
   empty pipe has nothing to do: no system state is stuck with work undone.
   */
  lemma SleepersAreIdle(ss: seq<System>, steps: seq<(Tid, Step)>, n: nat, x: Tid)
    requires IsRun(ss, steps) && n < |ss| && x < |ss[n].threads| && Careful(ss, steps, n)
    requires forall b :: 0 <= b < |ss[n].threads| ==> !Enabled(ss[n], b, Wake)
    requires !Enabled(ss[n], x, Woken)
    ensures !BlockedWithWork(ss[n], x)
  {
    if BlockedWithWork(ss[n], x) {
      NoLostWakeup(ss, steps, n, x);
      var b :| 0 <= b < |ss[n].threads| && HasTop(ss[n].threads[b], Waking(x));
      assert Enabled(ss[n], b, Wake);
    }
  }

  // ---- why the rule is needed --------------------------------------------------------------------

  /** Thread `a` has nothing else to do, its stack is `stack`, and its byte is there or not. */
  ghost predicate Poised(sys: System, a: Tid, stack: seq<Frame>, byte: bool) {
    && a < |sys.threads| && sys.threads[a].stack == stack
    && sys.threads[a].queue == 0 && !sys.threads[a].stop && sys.threads[a].sendlist == []
    && sys.threads[a].event == Event(byte, if byte then 1 else 0)
    && forall b :: 0 <= b < |sys.threads| && b != a ==> !HasTop(sys.threads[b], Waking(a))
  }

  /** The waiting Send in frame `k` of a thread that runs a handler; its message has not been taken up. */
  ghost predicate WaitsBelow(sys: System, a: Tid, k: nat, t: Tid, j: nat) {
    && a < |sys.threads| && t < |sys.threads| && k < |sys.threads[a].stack| && j < |sys.threads[t].sendlist|
    && !WaitedAbove(sys.threads[a].stack, k)
    && var f := sys.threads[a].stack[k];
       f.InSend? && f.spc == SReceive && f.m == sys.threads[t].sendlist[j] < |sys.msgs| && sys.msgs[f.m].sender == a
  }

  lemma Append(ss: seq<System>, steps: seq<(Tid, Step)>, a: Tid, st: Step)
      returns (ss': seq<System>, steps': seq<(Tid, Step)>)
    requires IsRun(ss, steps) && Enabled(ss[|ss| - 1], a, st)
    ensures ss' == ss + [Next(ss[|ss| - 1], a, st)] && steps' == steps + [(a, st)] && IsRun(ss', steps')
  {
    ss', steps' := ss + [Next(ss[|ss| - 1], a, st)], steps + [(a, st)];
    forall i | 0 <= i < |steps'|
      ensures Enabled(ss'[i], steps'[i].0, steps'[i].1) && ss'[i + 1] == Next(ss'[i], steps'[i].0, steps'[i].1)
    {
      if i < |steps| { assert steps'[i] == steps[i] && ss'[i] == ss[i] && ss'[i + 1] == ss[i + 1]; }
    }
  }

  /** The handler clears the message of that Send, which writes the thread's own byte. */
  lemma ClearThenWake(sys: System, a: Tid, k: nat, t: Tid, j: nat)
    requires WaitsBelow(sys, a, k, t, j) && Poised(sys, a, sys.threads[a].stack, false) && RunsCode(sys.threads[a])
    ensures Enabled(sys, a, ClearSend(t, j))
    ensures var s1 := Next(sys, a, ClearSend(t, j));
            && Poised(s1, a, sys.threads[a].stack + [Waking(a)], false)
            && |s1.msgs| == |sys.msgs| && Ready(s1.msgs[sys.threads[a].stack[k].m])
  {
    assert t != a;
  }

  lemma OwnWake(sys: System, a: Tid, stack: seq<Frame>)
    requires Poised(sys, a, stack + [Waking(a)], false)
    ensures Enabled(sys, a, Wake)
    ensures var s' := Next(sys, a, Wake); Poised(s', a, stack, true) && s'.msgs == sys.msgs
  {
    assert (stack + [Waking(a)])[..|stack|] == stack;
  }

  /** A Get looks in vain and reaches select. */
  lemma GetBegins(sys: System, a: Tid, stack: seq<Frame>)
    requires Poised(sys, a, stack, true) && RunsCode(sys.threads[a])
    ensures Enabled(sys, a, StartGet)
    ensures var s' := Next(sys, a, StartGet); Poised(s', a, stack + [InGet(GReceive)], true) && s'.msgs == sys.msgs
  {
  }

  lemma GetStage(sys: System, a: Tid, stack: seq<Frame>, pc: GetPc, st: Step, next: GetPc)
    requires Poised(sys, a, stack + [InGet(pc)], true)
    requires (pc, st, next) in {(GReceive, CheckSends, GCheck), (GCheck, CheckQueue, GStop), (GStop, TestStop, GSelect)}
    ensures Enabled(sys, a, st)
    ensures var s' := Next(sys, a, st); Poised(s', a, stack + [InGet(next)], true) && s'.msgs == sys.msgs
  {
    assert (stack + [InGet(pc)])[..|stack|] == stack;
  }

  /** It takes the byte, and its time is up. */
  lemma GetTakes(sys: System, a: Tid, stack: seq<Frame>)
    requires Poised(sys, a, stack + [InGet(GSelect)], true)
    ensures Enabled(sys, a, WokenLate)
    ensures var s' := Next(sys, a, WokenLate); Poised(s', a, stack, false) && s'.msgs == sys.msgs
  {
    assert (stack + [InGet(GSelect)])[..|stack|] == stack;
  }

  /**
   The rule cannot be relaxed: from every reachable state in which an otherwise idle thread
   runs a handler above a waiting Send whose message was not yet taken up, there is a
   continuation with one Get in which that Send is forgotten.
   */
  lemma GetAboveSendCanForget(ss: seq<System>, steps: seq<(Tid, Step)>, a: Tid, k: nat, t: Tid, j: nat)
      returns (ss': seq<System>, steps': seq<(Tid, Step)>)
    requires IsRun(ss, steps) && WaitsBelow(ss[|ss| - 1], a, k, t, j) && RunsCode(ss[|ss| - 1].threads[a])
    requires Poised(ss[|ss| - 1], a, ss[|ss| - 1].threads[a].stack, false)
    ensures IsRun(ss', steps') && ss <= ss' && Forgotten(ss'[|ss'| - 1], a)
  {
    var s0 := ss[|ss| - 1];
    var stack := s0.threads[a].stack;
    ClearThenWake(s0, a, k, t, j);
    ss', steps' := Append(ss, steps, a, ClearSend(t, j));
    OwnWake(ss'[|ss'| - 1], a, stack);
    ss', steps' := Append(ss', steps', a, Wake);
    ss', steps' := GetTakesOwnByte(ss', steps', a, stack);
    PoisedForgets(ss'[|ss'| - 1], a, stack, k);
  }

  /** One Get of an otherwise idle thread, started when the byte is there. */
  lemma GetTakesOwnByte(ss: seq<System>, steps: seq<(Tid, Step)>, a: Tid, stack: seq<Frame>)
      returns (ss': seq<System>, steps': seq<(Tid, Step)>)
    requires IsRun(ss, steps) && Poised(ss[|ss| - 1], a, stack, true) && RunsCode(ss[|ss| - 1].threads[a])
    ensures IsRun(ss', steps') && ss <= ss' && Poised(ss'[|ss'| - 1], a, stack, false) && ss'[|ss'| - 1].msgs == ss[|ss| - 1].msgs
  {
    GetBegins(ss[|ss| - 1], a, stack);
    ss', steps' := Append(ss, steps, a, StartGet);
    GetStage(ss'[|ss'| - 1], a, stack, GReceive, CheckSends, GCheck);
    ss', steps' := Append(ss', steps', a, CheckSends);
    GetStage(ss'[|ss'| - 1], a, stack, GCheck, CheckQueue, GStop);
    ss', steps' := Append(ss', steps', a, CheckQueue);
    GetStage(ss'[|ss'| - 1], a, stack, GStop, TestStop, GSelect);
    ss', steps' := Append(ss', steps', a, TestStop);
    GetTakes(ss'[|ss'| - 1], a, stack);
    ss', steps' := Append(ss', steps', a, WokenLate);
  }

  lemma PoisedForgets(sys: System, a: Tid, stack: seq<Frame>, k: nat)
    requires Poised(sys, a, stack, false) && k < |stack| && Overdue(stack[k], sys.msgs) && !WaitedAbove(stack, k)
    requires !HasTop(sys.threads[a], Waking(a))
    ensures Forgotten(sys, a)
  {
  }

  // ---- a run that loses a wakeup ------------------------------------------------------------------

  /** A thread with nothing posted to it. */
  function Bare(list: seq<Mid>, hasSends: bool, signaled: bool, stack: seq<Frame>): Thread {
    Thread(0, false, false, list, hasSends, Event(signaled, if signaled then 1 else 0), stack)
  }

  function Two(a: Thread, b: Thread, msgs: seq<Msg>): System {
    System([a, b], msgs)
  }

  ghost predicate Agree(t: Thread, u: Thread) {
    && t.queue == u.queue && t.delayed == u.delayed && t.stop == u.stop && t.hasSends == u.hasSends
    && t.event == u.event && t.sendlist == u.sendlist && t.stack == u.stack
  }

  ghost predicate RunTo(ss: seq<System>, steps: seq<(Tid, Step)>, s: System) {
    IsRun(ss, steps) && ss[|ss| - 1] == s
  }

  /** One step more, to a state of two threads that is written out. */
  lemma Extend(ss: seq<System>, steps: seq<(Tid, Step)>, s: System, a: Tid, st: Step, s': System)
      returns (ss': seq<System>, steps': seq<(Tid, Step)>)
    requires RunTo(ss, steps, s) && Enabled(s, a, st)
    requires var n := Next(s, a, st);
             && |n.threads| == |s'.threads| == 2 && n.msgs == s'.msgs
             && Agree(n.threads[0], s'.threads[0]) && Agree(n.threads[1], s'.threads[1])
    ensures RunTo(ss', steps', s')
  {
    assert Next(s, a, st).threads == s'.threads;
    ss', steps' := ss + [s'], steps + [(a, st)];
    forall i | 0 <= i < |steps'|
      ensures Enabled(ss'[i], steps'[i].0, steps'[i].1) && ss'[i + 1] == Next(ss'[i], steps'[i].0, steps'[i].1)
    {
      if i < |steps| { assert steps'[i] == steps[i] && ss'[i] == ss[i] && ss'[i + 1] == ss[i + 1]; }
    }
  }

  // Sends of thread 0 and thread 1 at the test of `ready` and past it, and their messages.
  const ASKS0 := InSend(0, STest, false)
  const ASKS1 := InSend(1, STest, false)
  const WAITS0 := InSend(0, SReceive, false)
  const WAITS1 := InSend(1, SReceive, false)
  const SENT0 := Msg(0, 1, Pending, 0)
  const SENT1 := Msg(1, 0, Pending, 0)
  const RUNS0 := Msg(0, 1, Handling, 1)
  const RUNS1 := Msg(1, 0, Handling, 1)
  const DONE0 := Msg(0, 1, Handled, 1)
  const DONE1 := Msg(1, 0, Handled, 1)

  /** Two threads call each other. */
  lemma BothSend() returns (ss': seq<System>, steps': seq<(Tid, Step)>)
    ensures RunTo(ss', steps', Two(Bare([1], true, true, [ASKS0]), Bare([0], true, true, [ASKS1]), [SENT0, SENT1]))
  {
    var s0 := Two(Bare([], false, false, []), Bare([], false, false, []), []);
    ss', steps' := [s0], [];
    var s1 := Two(Bare([], false, false, [ASKS0, Waking(1)]), Bare([0], true, false, []), [SENT0]);
    ss', steps' := Extend(ss', steps', s0, 0, StartSend(1), s1);
    var s2 := Two(Bare([], false, false, [ASKS0]), Bare([0], true, true, []), [SENT0]);
    ss', steps' := Extend(ss', steps', s1, 0, Wake, s2);
    var s3 := Two(Bare([1], true, false, [ASKS0]), Bare([0], true, true, [ASKS1, Waking(0)]), [SENT0, SENT1]);
    ss', steps' := Extend(ss', steps', s2, 1, StartSend(0), s3);
    var s4 := Two(Bare([1], true, true, [ASKS0]), Bare([0], true, true, [ASKS1]), [SENT0, SENT1]);
    ss', steps' := Extend(ss', steps', s3, 1, Wake, s4);
  }

  /** The first one takes up the call that came in. */
  lemma FirstHandles(ss: seq<System>, steps: seq<(Tid, Step)>) returns (ss': seq<System>, steps': seq<(Tid, Step)>)
    requires RunTo(ss, steps, Two(Bare([1], true, true, [ASKS0]), Bare([0], true, true, [ASKS1]), [SENT0, SENT1]))
    ensures RunTo(ss', steps', Two(Bare([], true, true, [WAITS0, InReceive(1)]), Bare([0], true, true, [WAITS1]), [SENT0, RUNS1]))
  {
    var s0 := Two(Bare([1], true, true, [ASKS0]), Bare([0], true, true, [ASKS1]), [SENT0, SENT1]);
    ss', steps' := ss, steps;
    var s1 := Two(Bare([1], true, true, [WAITS0]), Bare([0], true, true, [ASKS1]), [SENT0, SENT1]);
    ss', steps' := Extend(ss', steps', s0, 0, TestReady, s1);
    var s2 := Two(Bare([], true, true, [WAITS0, InReceive(1)]), Bare([0], true, true, [ASKS1]), [SENT0, RUNS1]);
    ss', steps' := Extend(ss', steps', s1, 0, CheckSends, s2);
    var s3 := Two(Bare([], true, true, [WAITS0, InReceive(1)]), Bare([0], true, true, [WAITS1]), [SENT0, RUNS1]);
    ss', steps' := Extend(ss', steps', s2, 1, TestReady, s3);
  }

  /** The second one handles its call and announces the reply. */
  lemma SecondHandles(ss: seq<System>, steps: seq<(Tid, Step)>) returns (ss': seq<System>, steps': seq<(Tid, Step)>)
    requires RunTo(ss, steps, Two(Bare([], true, true, [WAITS0, InReceive(1)]), Bare([0], true, true, [WAITS1]), [SENT0, RUNS1]))
    ensures RunTo(ss', steps', Two(Bare([], true, true, [WAITS0, InReceive(1)]), Bare([], true, true, [WAITS1]), [DONE0, RUNS1]))
  {
    var s0 := Two(Bare([], true, true, [WAITS0, InReceive(1)]), Bare([0], true, true, [WAITS1]), [SENT0, RUNS1]);
    ss', steps' := ss, steps;
    var s1 := Two(Bare([], true, true, [WAITS0, InReceive(1)]), Bare([], true, true, [WAITS1, InReceive(0)]), [RUNS0, RUNS1]);
    ss', steps' := Extend(ss', steps', s0, 1, CheckSends, s1);
    var s2 := Two(Bare([], true, true, [WAITS0, InReceive(1)]), Bare([], true, true, [WAITS1, Waking(0)]), [DONE0, RUNS1]);
    ss', steps' := Extend(ss', steps', s1, 1, FinishHandler, s2);
    var s3 := Two(Bare([], true, true, [WAITS0, InReceive(1)]), Bare([], true, true, [WAITS1]), [DONE0, RUNS1]);
    ss', steps' := Extend(ss', steps', s2, 1, Wake, s3);
  }

  /** A Get in the first one's handler takes the announcement, and its time is up. */
  lemma GetTakesByte(ss: seq<System>, steps: seq<(Tid, Step)>) returns (ss': seq<System>, steps': seq<(Tid, Step)>)
    requires RunTo(ss, steps, Two(Bare([], true, true, [WAITS0, InReceive(1)]), Bare([], true, true, [WAITS1]), [DONE0, RUNS1]))
    ensures RunTo(ss', steps', Two(Bare([], false, false, [WAITS0, InReceive(1)]), Bare([], true, true, [WAITS1]), [DONE0, RUNS1]))
  {
    var s0 := Two(Bare([], true, true, [WAITS0, InReceive(1)]), Bare([], true, true, [WAITS1]), [DONE0, RUNS1]);
    ss', steps' := ss, steps;
    var s1 := Two(Bare([], true, true, [WAITS0, InReceive(1), InGet(GReceive)]), Bare([], true, true, [WAITS1]), [DONE0, RUNS1]);
    ss', steps' := Extend(ss', steps', s0, 0, StartGet, s1);
    var s2 := Two(Bare([], false, true, [WAITS0, InReceive(1), InGet(GCheck)]), Bare([], true, true, [WAITS1]), [DONE0, RUNS1]);
    ss', steps' := Extend(ss', steps', s1, 0, CheckSends, s2);
    var s3 := Two(Bare([], false, true, [WAITS0, InReceive(1), InGet(GStop)]), Bare([], true, true, [WAITS1]), [DONE0, RUNS1]);
    ss', steps' := Extend(ss', steps', s2, 0, CheckQueue, s3);
    var s4 := Two(Bare([], false, true, [WAITS0, InReceive(1), InGet(GSelect)]), Bare([], true, true, [WAITS1]), [DONE0, RUNS1]);
    ss', steps' := Extend(ss', steps', s3, 0, TestStop, s4);
    var s5 := Two(Bare([], false, false, [WAITS0, InReceive(1)]), Bare([], true, true, [WAITS1]), [DONE0, RUNS1]);
    ss', steps' := Extend(ss', steps', s4, 0, WokenLate, s5);
  }

  /** The handler ends, and the Send beneath goes to sleep. */
  lemma SendBlocks(ss: seq<System>, steps: seq<(Tid, Step)>) returns (ss': seq<System>, steps': seq<(Tid, Step)>)
    requires RunTo(ss, steps, Two(Bare([], false, false, [WAITS0, InReceive(1)]), Bare([], true, true, [WAITS1]), [DONE0, RUNS1]))
    ensures RunTo(ss', steps', Two(Bare([], false, false, [InSend(0, SSelect, false)]), Bare([], true, true, [WAITS1]), [DONE0, DONE1]))
  {
    var s0 := Two(Bare([], false, false, [WAITS0, InReceive(1)]), Bare([], true, true, [WAITS1]), [DONE0, RUNS1]);
    ss', steps' := ss, steps;
    var s1 := Two(Bare([], false, false, [WAITS0, Waking(1)]), Bare([], true, true, [WAITS1]), [DONE0, DONE1]);
    ss', steps' := Extend(ss', steps', s0, 0, FinishHandler, s1);
    var s2 := Two(Bare([], false, false, [WAITS0]), Bare([], true, true, [WAITS1]), [DONE0, DONE1]);
    ss', steps' := Extend(ss', steps', s1, 0, Wake, s2);
    var s3 := Two(Bare([], false, false, [InSend(0, SSelect, false)]), Bare([], true, true, [WAITS1]), [DONE0, DONE1]);
    ss', steps' := Extend(ss', steps', s2, 0, CheckSends, s3);
  }

  /**
   A Get inside a handler takes the byte that announced the reply to the Send beneath it.
   That Send then blocks with its reply at hand, and nothing is under way to wake it.
   */
  lemma NestedGetLosesWakeup() returns (ss: seq<System>, steps: seq<(Tid, Step)>)
    ensures IsRun(ss, steps) && !Careful(ss, steps, |ss| - 1)
    ensures var s := ss[|ss| - 1]; BlockedWithWork(s, 0) && !WakeupPending(s, 0) && Forgotten(s, 0)
  {
    ss, steps := BothSend();
    ss, steps := FirstHandles(ss, steps);
    ss, steps := SecondHandles(ss, steps);
    ss, steps := GetTakesByte(ss, steps);
    ss, steps := SendBlocks(ss, steps);
    var s := ss[|ss| - 1];
    assert Overdue(s.threads[0].stack[0], s.msgs);
    assert Forgotten(s, 0);
    NoneForgottenIffCareful(ss, steps, |ss| - 1);
  }

  /** The Send of message `m` is over: it was accepted and its frame is gone from the sender's stack. */
  ghost predicate Returned(sys: System, m: Mid) {
    m < |sys.msgs| && sys.msgs[m].sender < |sys.threads| && !HasSendFrame(sys.threads[sys.msgs[m].sender].stack, m)
  }

  /**
   Send is synchronous and at most once: it returns only after its message was handled or
   cleared, no handler starts twice, and none starts for a message that was cleared.
   */
  lemma SendIsSynchronous(ss: seq<System>, steps: seq<(Tid, Step)>, n: nat, m: Mid)
    requires IsRun(ss, steps) && n < |ss| && m < |ss[n].msgs|
    ensures var msg := ss[n].msgs[m];
            && (Returned(ss[n], m) ==> Ready(msg))
            && msg.starts <= 1 && (msg.status == Handled ==> msg.starts == 1) && (msg.status == Cleared ==> msg.starts == 0)
            && (msg.target < |ss[n].threads|) && (m in ss[n].threads[msg.target].sendlist <==> msg.status == Pending)
  {
    RunKeepsInv(ss, steps, n, true);
    assert MsgOk(ss[n], m);
    var t := ss[n].msgs[m].target;
    assert ThreadOk(ss[n], t, true);
  }

  ghost predicate Persists(msgs: seq<Msg>, msgs': seq<Msg>, m: Mid)
    requires m < |msgs|
  {
    && m < |msgs'| && msgs'[m].sender == msgs[m].sender && msgs'[m].target == msgs[m].target
    && (Ready(msgs[m]) ==> msgs'[m] == msgs[m]) && msgs[m].starts <= msgs'[m].starts
  }

  /** What was accepted is never forgotten: a message keeps its place, its ends and its completion. */
  lemma {:induction false} DoneStaysDone(ss: seq<System>, steps: seq<(Tid, Step)>, i: nat, n: nat, m: Mid)
    requires IsRun(ss, steps) && i <= n < |ss| && m < |ss[i].msgs|
    ensures Persists(ss[i].msgs, ss[n].msgs, m)
    decreases n
  {
    if i < n {
      DoneStaysDone(ss, steps, i, n - 1, m);
      RunStepKeepsDone(ss, steps, n - 1, m);
    }
  }

  lemma RunStepKeepsDone(ss: seq<System>, steps: seq<(Tid, Step)>, n: nat, m: Mid)
    requires IsRun(ss, steps) && n < |steps| && m < |ss[n].msgs|
    ensures Persists(ss[n].msgs, ss[n + 1].msgs, m)
  {
    RunKeepsInv(ss, steps, n, true);
    StepKeepsDone(ss[n], steps[n].0, steps[n].1, m);
  }

  lemma StepKeepsDone(sys: System, a: Tid, st: Step, m: Mid)
    requires Inv(sys, true) && Enabled(sys, a, st) && m < |sys.msgs|
    ensures Persists(sys.msgs, Next(sys, a, st).msgs, m)
  {
    assert ThreadOk(sys, a, true);
    var th := sys.threads[a];
    if st.CheckSends? { assert ListOk(th.sendlist, sys.msgs, a); }
    if st.FinishHandler? { assert FrameOk(th.stack, |th.stack| - 1, sys.msgs, a); }
    if st.ClearSend? { assert ThreadOk(sys, st.t, true); }
  }
}
