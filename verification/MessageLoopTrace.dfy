/**
 The message loop read off its trace: what each thread has queued, whether it was told to
 quit, and how far each sent message has come follow from the steps that happened, and
 the wakeup guarantee is stated in terms of those steps alone.
 */
module MessageLoopTrace {
  import opened Collections
  import opened MessageLoop

  type Trace = seq<(Tid, Step)>

  // ---- posted messages, delays and quits ---------------------------------------------------------

  /** How many of the first `n` steps posted to thread `x`. */
  ghost function Posts(steps: Trace, x: Tid, n: nat): nat
    requires n <= |steps|
  {
    if n == 0 then 0 else Posts(steps, x, n - 1) + if steps[n - 1].1 == PostTo(x) then 1 else 0
  }

  /** Step `i` is a queue check of thread `x`, and the Get that made it is over. */
  ghost predicate Takes(ss: seq<System>, steps: Trace, x: Tid, i: nat)
    requires IsRun(ss, steps) && i < |steps|
  {
    steps[i] == (x, CheckQueue) && |ss[i + 1].threads[x].stack| < |ss[i].threads[x].stack|
  }

  /** Step `i` is a queue check of thread `x` that found nothing. */
  ghost predicate FindsNothing(ss: seq<System>, steps: Trace, x: Tid, i: nat)
    requires IsRun(ss, steps) && i < |steps|
  {
    steps[i] == (x, CheckQueue) && |ss[i + 1].threads[x].stack| == |ss[i].threads[x].stack|
  }

  ghost function Taken(ss: seq<System>, steps: Trace, x: Tid, n: nat): nat
    requires IsRun(ss, steps) && n <= |steps|
  {
    if n == 0 then 0 else Taken(ss, steps, x, n - 1) + if Takes(ss, steps, x, n - 1) then 1 else 0
  }

  ghost predicate WasQuit(steps: Trace, x: Tid, n: nat)
    requires n <= |steps|
  {
    exists i :: 0 <= i < n && steps[i].1 == QuitOf(x)
  }

  /** A delayed message came in since thread `x` last found its queue empty. */
  ghost predicate DelayedSince(ss: seq<System>, steps: Trace, x: Tid, n: nat)
    requires IsRun(ss, steps) && n <= |steps|
  {
    exists i :: 0 <= i < n && steps[i].1 == DelayTo(x) && NoneEmpty(ss, steps, x, i, n)
  }

  /** Between steps `i` and `n` thread `x` never found its queue empty. */
  ghost predicate NoneEmpty(ss: seq<System>, steps: Trace, x: Tid, i: nat, n: nat)
    requires IsRun(ss, steps) && n <= |steps|
  {
    forall j :: i < j < n ==> !FindsNothing(ss, steps, x, j)
  }

  lemma NoneEmptyNext(ss: seq<System>, steps: Trace, x: Tid, i: nat, n: nat)
    requires IsRun(ss, steps) && i < n < |steps|
    ensures NoneEmpty(ss, steps, x, i, n + 1) <==> NoneEmpty(ss, steps, x, i, n) && !FindsNothing(ss, steps, x, n)
  {
  }

  /** What one step does to the three fields. */
  lemma StepFields(sys: System, a: Tid, st: Step, x: Tid)
    requires Enabled(sys, a, st) && x < |sys.threads|
    ensures var th, th' := sys.threads[x], Next(sys, a, st).threads[x];
            var check := a == x && st == CheckQueue;
            && (check ==> |th'.stack| == |th.stack| - (if th.queue > 0 then 1 else 0))
            && th'.queue == th.queue + (if st == PostTo(x) then 1 else 0) - (if check && th.queue > 0 then 1 else 0)
            && th'.stop == (th.stop || st == QuitOf(x))
            && th'.delayed == (if check && th.queue == 0 then false else th.delayed || st == DelayTo(x))
  {
  }

  lemma {:induction false} ThreadsStay(ss: seq<System>, steps: Trace, n: nat)
    requires IsRun(ss, steps) && n < |ss|
    ensures |ss[n].threads| == |ss[0].threads|
  {
    if n > 0 {
      ThreadsStay(ss, steps, n - 1);
      assert ss[n - 1 + 1] == Next(ss[n - 1], steps[n - 1].0, steps[n - 1].1);
    }
  }

  lemma StepFieldsAt(ss: seq<System>, steps: Trace, n: nat, x: Tid)
    requires IsRun(ss, steps) && n < |steps| && x < |ss[n].threads|
    ensures x < |ss[n + 1].threads|
    ensures var th, th' := ss[n].threads[x], ss[n + 1].threads[x];
            && th'.queue == th.queue + (if steps[n].1 == PostTo(x) then 1 else 0) - (if Takes(ss, steps, x, n) then 1 else 0)
            && th'.stop == (th.stop || steps[n].1 == QuitOf(x))
            && th'.delayed == (!FindsNothing(ss, steps, x, n) && (th.delayed || steps[n].1 == DelayTo(x)))
  {
    StepFields(ss[n], steps[n].0, steps[n].1, x);
    assert ss[n + 1] == Next(ss[n], steps[n].0, steps[n].1);
  }

  /** Posted is queued or taken: no post is without effect, and none is taken twice. */
  lemma {:induction false} QueueByTrace(ss: seq<System>, steps: Trace, n: nat, x: Tid)
    requires IsRun(ss, steps) && n < |ss| && x < |ss[n].threads|
    ensures Posts(steps, x, n) == ss[n].threads[x].queue + Taken(ss, steps, x, n)
  {
    if n > 0 {
      ThreadsStay(ss, steps, n);
      ThreadsStay(ss, steps, n - 1);
      QueueByTrace(ss, steps, n - 1, x);
      StepFieldsAt(ss, steps, n - 1, x);
    }
  }

  lemma QuitNext(steps: Trace, x: Tid, n: nat)
    requires n < |steps|
    ensures WasQuit(steps, x, n + 1) <==> WasQuit(steps, x, n) || steps[n].1 == QuitOf(x)
  {
  }

  /** A thread is stopped exactly if somebody told it to quit. */
  lemma {:induction false} StopByTrace(ss: seq<System>, steps: Trace, n: nat, x: Tid)
    requires IsRun(ss, steps) && n < |ss| && x < |ss[n].threads|
    ensures ss[n].threads[x].stop <==> WasQuit(steps, x, n)
  {
    if n > 0 {
      ThreadsStay(ss, steps, n);
      ThreadsStay(ss, steps, n - 1);
      StopByTrace(ss, steps, n - 1, x);
      StepFieldsAt(ss, steps, n - 1, x);
      QuitNext(steps, x, n - 1);
    }
  }

  lemma {:induction false} DelayedByTrace(ss: seq<System>, steps: Trace, n: nat, x: Tid)
    requires IsRun(ss, steps) && n < |ss| && x < |ss[n].threads|
    ensures ss[n].threads[x].delayed <==> DelayedSince(ss, steps, x, n)
  {
    if n > 0 {
      ThreadsStay(ss, steps, n);
      ThreadsStay(ss, steps, n - 1);
      DelayedByTrace(ss, steps, n - 1, x);
      StepFieldsAt(ss, steps, n - 1, x);
      DelayedSinceNext(ss, steps, n - 1, x);
    }
  }

  lemma DelayedSinceNext(ss: seq<System>, steps: Trace, n: nat, x: Tid)
    requires IsRun(ss, steps) && n < |steps|
    ensures DelayedSince(ss, steps, x, n + 1)
       <==> steps[n].1 == DelayTo(x) || (DelayedSince(ss, steps, x, n) && !FindsNothing(ss, steps, x, n))
  {
    if DelayedSince(ss, steps, x, n + 1) && steps[n].1 != DelayTo(x) {
      var i :| 0 <= i < n + 1 && steps[i].1 == DelayTo(x) && NoneEmpty(ss, steps, x, i, n + 1);
      NoneEmptyNext(ss, steps, x, i, n);
    }
    if steps[n].1 == DelayTo(x) { assert NoneEmpty(ss, steps, x, n, n + 1); }
    if DelayedSince(ss, steps, x, n) && !FindsNothing(ss, steps, x, n) {
      var i :| 0 <= i < n && steps[i].1 == DelayTo(x) && NoneEmpty(ss, steps, x, i, n);
      NoneEmptyNext(ss, steps, x, i, n);
    }
  }

  /** By the trace alone, thread `x` has been sent something that its Get has not yet seen. */
  ghost predicate Unseen(ss: seq<System>, steps: Trace, n: nat, x: Tid)
    requires IsRun(ss, steps) && n <= |steps|
  {
    Posts(steps, x, n) > Taken(ss, steps, x, n) || WasQuit(steps, x, n) || DelayedSince(ss, steps, x, n)
  }

  /**
   No lost wakeup, from the trace: in every careful run a thread in select inside Get, to which
   more was posted than its Gets have taken, or that was told to quit, or that got a
   delayed message since it looked, has a byte in its pipe or one being written.
   */
  lemma NoLostWakeupByTrace(ss: seq<System>, steps: Trace, n: nat, x: Tid)
    requires IsRun(ss, steps) && n < |ss| && x < |ss[n].threads| && Careful(ss, steps, n)
    requires HasTop(ss[n].threads[x], InGet(GSelect)) && Unseen(ss, steps, n, x)
    ensures WakeupPending(ss[n], x)
  {
    QueueByTrace(ss, steps, n, x);
    StopByTrace(ss, steps, n, x);
    DelayedByTrace(ss, steps, n, x);
    NoLostWakeup(ss, steps, n, x);
  }

  /** A queue check ends its Get exactly if more was posted than taken. */
  lemma CheckTakesIff(ss: seq<System>, steps: Trace, n: nat, x: Tid)
    requires IsRun(ss, steps) && n < |steps| && x < |ss[n].threads| && steps[n] == (x, CheckQueue)
    ensures Takes(ss, steps, x, n) <==> Posts(steps, x, n) > Taken(ss, steps, x, n)
  {
    QueueByTrace(ss, steps, n, x);
    StepFields(ss[n], x, CheckQueue, x);
    assert ss[n + 1] == Next(ss[n], x, CheckQueue);
  }

  // ---- sent messages ---------------------------------------------------------------------------------

  /** Step `i` starts the handler of message `m`. */
  ghost predicate Starts(ss: seq<System>, steps: Trace, i: nat, m: Mid)
    requires IsRun(ss, steps) && i < |steps|
  {
    var a := steps[i].0;
    steps[i].1 == CheckSends && ss[i + 1].threads[a].stack == ss[i].threads[a].stack + [InReceive(m)]
  }

  /** In step `i` the handler of message `m` returns. */
  ghost predicate Finishes(ss: seq<System>, steps: Trace, i: nat, m: Mid)
    requires IsRun(ss, steps) && i < |steps|
  {
    steps[i].1 == FinishHandler && HasTop(ss[i].threads[steps[i].0], InReceive(m))
  }

  /** Step `i` clears message `m`. */
  ghost predicate Clears(ss: seq<System>, steps: Trace, i: nat, m: Mid)
    requires IsRun(ss, steps) && i < |steps|
  {
    steps[i].1.ClearSend? && ss[i].threads[steps[i].1.t].sendlist[steps[i].1.k] == m
  }

  ghost function StartsUpto(ss: seq<System>, steps: Trace, m: Mid, n: nat): nat
    requires IsRun(ss, steps) && n <= |steps|
  {
    if n == 0 then 0 else StartsUpto(ss, steps, m, n - 1) + if Starts(ss, steps, n - 1, m) then 1 else 0
  }

  /** How many Sends have begun. */
  ghost function SendsUpto(steps: Trace, n: nat): nat
    requires n <= |steps|
  {
    if n == 0 then 0 else SendsUpto(steps, n - 1) + if steps[n - 1].1.StartSend? then 1 else 0
  }

  /** The handler of `m` returned in one of the first `n` steps. */
  ghost predicate WasFinished(ss: seq<System>, steps: Trace, m: Mid, n: nat)
    requires IsRun(ss, steps) && n <= |steps|
  {
    exists i :: 0 <= i < n && Finishes(ss, steps, i, m)
  }

  ghost predicate WasCleared(ss: seq<System>, steps: Trace, m: Mid, n: nat)
    requires IsRun(ss, steps) && n <= |steps|
  {
    exists i :: 0 <= i < n && Clears(ss, steps, i, m)
  }

  lemma EndedNext(ss: seq<System>, steps: Trace, n: nat, m: Mid)
    requires IsRun(ss, steps) && n < |steps|
    ensures WasFinished(ss, steps, m, n + 1) <==> WasFinished(ss, steps, m, n) || Finishes(ss, steps, n, m)
    ensures WasCleared(ss, steps, m, n + 1) <==> WasCleared(ss, steps, m, n) || Clears(ss, steps, n, m)
  {
  }

  lemma StepMessages(ss: seq<System>, steps: Trace, n: nat, m: Mid)
    requires IsRun(ss, steps) && n < |steps|
    ensures |ss[n + 1].msgs| == |ss[n].msgs| + (if steps[n].1.StartSend? then 1 else 0)
    ensures m < |ss[n].msgs| ==>
      && ss[n + 1].msgs[m].starts == ss[n].msgs[m].starts + (if Starts(ss, steps, n, m) then 1 else 0)
      && (ss[n + 1].msgs[m].status == Handled <==> Finishes(ss, steps, n, m) || (ss[n].msgs[m].status == Handled && !Starts(ss, steps, n, m) && !Clears(ss, steps, n, m)))
      && (ss[n + 1].msgs[m].status == Cleared <==> Clears(ss, steps, n, m) || (ss[n].msgs[m].status == Cleared && !Starts(ss, steps, n, m) && !Finishes(ss, steps, n, m)))
  {
    var a, st := steps[n].0, steps[n].1;
    assert ss[n + 1] == Next(ss[n], a, st);
    if st.CheckSends? { StartsIff(ss[n], a, m); }
  }

  lemma StartsIff(sys: System, a: Tid, m: Mid)
    requires Enabled(sys, a, CheckSends)
    ensures var th, th' := sys.threads[a], Next(sys, a, CheckSends).threads[a];
            th'.stack == th.stack + [InReceive(m)] <==> th.hasSends && th.sendlist != [] && th.sendlist[0] == m
  {
    var th, th' := sys.threads[a], Next(sys, a, CheckSends).threads[a];
    if th.hasSends && th.sendlist != [] {
      assert th'.stack[|th.stack|] == InReceive(th.sendlist[0]);
      assert (th.stack + [InReceive(m)])[|th.stack|] == InReceive(m);
    } else {
      assert |th'.stack| == |th.stack|;
    }
  }

  /**
   Every Send gives one message, whose progress is what the steps say: its handler started as
   often as it was taken up, it is handled exactly if its handler returned, and cleared
   exactly if it was cleared.
   */
  lemma {:induction false} MessageByTrace(ss: seq<System>, steps: Trace, n: nat, m: Mid)
    requires IsRun(ss, steps) && n < |ss| && m < |ss[n].msgs|
    ensures ss[n].msgs[m].starts == StartsUpto(ss, steps, m, n)
    ensures ss[n].msgs[m].status == Handled <==> WasFinished(ss, steps, m, n)
    ensures ss[n].msgs[m].status == Cleared <==> WasCleared(ss, steps, m, n)
  {
    if n > 0 {
      StepMessages(ss, steps, n - 1, m);
      if m < |ss[n - 1].msgs| {
        MessageByTrace(ss, steps, n - 1, m);
        NoSecondEnd(ss, steps, n - 1, m);
        EndedNext(ss, steps, n - 1, m);
      } else {
        NewMessage(ss, steps, n, m);
      }
    }
  }

  /** A completed message is not taken up, finished or cleared again. */
  lemma NoSecondEnd(ss: seq<System>, steps: Trace, n: nat, m: Mid)
    requires IsRun(ss, steps) && n < |steps| && m < |ss[n].msgs|
    ensures Ready(ss[n].msgs[m]) ==> !Starts(ss, steps, n, m) && !Finishes(ss, steps, n, m) && !Clears(ss, steps, n, m)
  {
    RunKeepsInv(ss, steps, n, true);
    var a, st := steps[n].0, steps[n].1;
    assert ThreadOk(ss[n], a, true) && ss[n + 1] == Next(ss[n], a, st);
    if st.CheckSends? { StartsIff(ss[n], a, m); }
    if st.FinishHandler? { assert FrameOk(ss[n].threads[a].stack, |ss[n].threads[a].stack| - 1, ss[n].msgs, a); }
    if st.ClearSend? { assert ThreadOk(ss[n], st.t, true); }
  }

  lemma {:induction false} NothingBefore(ss: seq<System>, steps: Trace, n: nat, m: Mid)
    requires IsRun(ss, steps) && n < |ss| && |ss[n].msgs| <= m
    ensures StartsUpto(ss, steps, m, n) == 0
    ensures forall i :: 0 <= i < n ==> !Finishes(ss, steps, i, m) && !Clears(ss, steps, i, m)
  {
    if n > 0 {
      StepMessages(ss, steps, n - 1, m);
      NothingBefore(ss, steps, n - 1, m);
      NotYetThere(ss, steps, n - 1, m);
    }
  }

  /** No step touches a message that does not exist. */
  lemma NotYetThere(ss: seq<System>, steps: Trace, n: nat, m: Mid)
    requires IsRun(ss, steps) && n < |steps| && |ss[n].msgs| <= m
    ensures !Starts(ss, steps, n, m) && !Finishes(ss, steps, n, m) && !Clears(ss, steps, n, m)
  {
    RunKeepsInv(ss, steps, n, true);
    var a, st := steps[n].0, steps[n].1;
    assert ThreadOk(ss[n], a, true) && ss[n + 1] == Next(ss[n], a, st);
    if st.CheckSends? { StartsIff(ss[n], a, m); }
    if st.ClearSend? { assert ThreadOk(ss[n], st.t, true); }
  }

  lemma NewMessage(ss: seq<System>, steps: Trace, n: nat, m: Mid)
    requires IsRun(ss, steps) && 0 < n < |ss| && m < |ss[n].msgs| && |ss[n - 1].msgs| <= m
    ensures ss[n].msgs[m].starts == 0 == StartsUpto(ss, steps, m, n) && ss[n].msgs[m].status == Pending
    ensures forall i :: 0 <= i < n ==> !Finishes(ss, steps, i, m) && !Clears(ss, steps, i, m)
  {
    assert ss[n - 1 + 1] == Next(ss[n - 1], steps[n - 1].0, steps[n - 1].1);
    NothingBefore(ss, steps, n - 1, m);
    NotYetThere(ss, steps, n - 1, m);
  }

  /** As many messages as Sends. */
  lemma {:induction false} MessagesAreSends(ss: seq<System>, steps: Trace, n: nat)
    requires IsRun(ss, steps) && n < |ss|
    ensures |ss[n].msgs| == SendsUpto(steps, n)
  {
    if n > 0 {
      MessagesAreSends(ss, steps, n - 1);
      StepMessages(ss, steps, n - 1, 0);
    }
  }

  // ---- what the waiting steps achieve -------------------------------------------------------------------

  /** A Send at its test goes on to return if and only if its message is completed. */
  lemma SendEndsIff(ss: seq<System>, steps: Trace, n: nat, x: Tid)
    requires IsRun(ss, steps) && n < |steps| && steps[n] == (x, TestReady)
    ensures var s, s' := ss[n].threads[x].stack, ss[n + 1].threads[x].stack;
            && s != [] && s[|s| - 1].InSend? && s[|s| - 1].m < |ss[n].msgs|
            && (s' == s[..|s| - 1] || s' == s[..|s| - 1] + [Waking(x)] <==> Ready(ss[n].msgs[s[|s| - 1].m]))
  {
    var s, s' := ss[n].threads[x].stack, ss[n + 1].threads[x].stack;
    assert ss[n + 1] == Next(ss[n], x, TestReady);
    if !Ready(ss[n].msgs[s[|s| - 1].m]) {
      assert s'[|s| - 1] == s[|s| - 1].(spc := SReceive) && (s[..|s| - 1] + [Waking(x)])[|s| - 1] == Waking(x);
    }
  }

  /** A signal leaves one byte, a wakeup leaves none. */
  lemma BytesByStep(ss: seq<System>, steps: Trace, n: nat)
    requires IsRun(ss, steps) && n < |steps|
    ensures var a, st := steps[n].0, steps[n].1;
            && (st == Wake ==> exists t :: 0 <= t < |ss[n + 1].threads| && HasTop(ss[n].threads[a], Waking(t)) && ss[n + 1].threads[t].event.pipe == 1)
            && (st == Woken || st == WokenLate ==> a < |ss[n + 1].threads| && ss[n + 1].threads[a].event.pipe == 0)
  {
    RunKeepsInv(ss, steps, n, true);
    var a, st := steps[n].0, steps[n].1;
    assert ThreadOk(ss[n], a, true) && ss[n + 1] == Next(ss[n], a, st);
    if st == Wake {
      var t := ss[n].threads[a].stack[|ss[n].threads[a].stack| - 1].t;
      assert ThreadOk(ss[n], t, true) && HasTop(ss[n].threads[a], Waking(t));
    }
  }
}
