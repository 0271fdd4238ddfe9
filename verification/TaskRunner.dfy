/**
 base/taskrunner.cc and the scheduling half of base/task.cc.  The code a task runs
 inside Process is unknown: a Turn says what it does to other tasks before it
 returns its new state, and every result holds for every script of turns.
 WakeTasks is the last act of whoever calls it, so an implementation that runs the
 tasks at once is a call followed by RunTasks.
 */
module TaskRunner {
  import opened TaskTree

  /** `next` is next_timeout_task_, 0 for NULL; `nextId` is the id seed; `now` is CurrentTime. */
  datatype State = State(node: Tree, tasks: seq<Id>, next: Id, running: bool, nextId: Id, now: int)

  function Put(s: State, x: Id, r: Rec): State {
    s.(node := s.node[x := r])
  }

  // ---- timeouts ----------------------------------------------------------------------------------

  predicate Eligible(f: Tree, x: Id, exclude: Id) {
    x in f && !f[x].done && f[x].timeoutTime > 0 && x != exclude
  }

  /** RecalcNextTimeout: of equally early tasks the last one wins. */
  function Earliest(f: Tree, tasks: seq<Id>, exclude: Id): (r: Id)
    ensures r == 0 || (r in tasks && Eligible(f, r, exclude))
    decreases |tasks|
  {
    if tasks == [] then 0
    else
      var r := Earliest(f, tasks[..|tasks| - 1], exclude);
      var x := tasks[|tasks| - 1];
      if Eligible(f, x, exclude) && (r == 0 || f[x].timeoutTime <= f[r].timeoutTime) then x else r
  }

  lemma {:induction false} EarliestIsMinimal(f: Tree, tasks: seq<Id>, exclude: Id, x: Id)
    requires x in tasks && Eligible(f, x, exclude) && 0 !in tasks
    ensures var r := Earliest(f, tasks, exclude); r != 0 && r in f && f[r].timeoutTime <= f[x].timeoutTime
    decreases |tasks|
  {
    var n := |tasks| - 1;
    assert tasks == tasks[..n] + [tasks[n]];
    if x in tasks[..n] { EarliestIsMinimal(f, tasks[..n], exclude, x); }
  }

  function UpdateTaskTimeout(s: State, x: Id): State
    requires x in s.node
  {
    if s.node[x].timeoutTime != 0 then
      if s.next == 0 || (s.next in s.node && s.node[x].timeoutTime <= s.node[s.next].timeoutTime) then s.(next := x) else s
    else if s.next == x then s.(next := Earliest(s.node, s.tasks, x))
    else s
  }

  /** The deadline that ResetTimeout gives. */
  function Deadline(r: Rec, now: int): int {
    if r.timeoutSeconds != 0 && r.state != STATE_INIT && r.state != STATE_DONE && r.state != STATE_ERROR && !r.suspended
    then now + r.timeoutSeconds * 10_000_000
    else 0
  }

  function ResetTimeout(s: State, x: Id): State
    requires x in s.node
  {
    UpdateTaskTimeout(Put(s, x, s.node[x].(timeoutTime := Deadline(s.node[x], s.now))), x)
  }

  /** The cached task is one of those that come first, among the tasks other than `x`. */
  ghost predicate FirstExcept(s: State, x: Id) {
    if s.next == 0 then forall y :: y in s.tasks ==> !Eligible(s.node, y, x)
    else s.next in s.tasks && Eligible(s.node, s.next, 0) && ComesFirst(s, s.next, x)
  }

  /** No task other than `x` has an earlier deadline than `t`. */
  ghost predicate ComesFirst(s: State, t: Id, x: Id)
    requires t in s.node
  {
    forall y :: y in s.tasks && Eligible(s.node, y, x) ==> s.node[t].timeoutTime <= s.node[y].timeoutTime
  }

  /**
   UpdateTaskTimeout after the deadline of `x` changed, the cache having been right about the
   others: it is right about all if and only if `x` was not the cached one, or has no
   deadline any more, or still comes first.
   */
  lemma UpdateIsRightIff(s: State, x: Id)
    requires x in s.tasks && x in s.node && !s.node[x].done && s.node[x].timeoutTime >= 0 && 0 !in s.tasks
    requires s.next != x ==> FirstExcept(s, x)
    ensures FirstExcept(UpdateTaskTimeout(s, x), 0) <==> s.next != x || s.node[x].timeoutTime == 0 || ComesFirst(s, x, 0)
  {
    var s' := UpdateTaskTimeout(s, x);
    if s.next == x && s.node[x].timeoutTime == 0 {
      forall y | y in s.tasks && Eligible(s.node, y, 0)
        ensures s'.next != 0 && s'.next in s.node && s.node[s'.next].timeoutTime <= s.node[y].timeoutTime
      {
        EarliestIsMinimal(s.node, s.tasks, x, y);
      }
    }
  }

  /** A cached task that moves its deadline from 5 to 20 stays cached, ahead of one due at 10. */
  lemma LateMoverStaysCached() returns (before: State, after: State)
    ensures FirstExcept(before, 0) && before.next == 1 && 1 in before.node
    ensures after == UpdateTaskTimeout(Put(before, 1, before.node[1].(timeoutTime := 20)), 1)
    ensures after.next == 1 && !ComesFirst(after, 1, 0)
  {
    var r := FreshTask(0);
    before := State(map[0 := r.(children := {1, 2}), 1 := r.(timeoutTime := 5), 2 := r.(timeoutTime := 10)],
                    [1, 2], 1, false, 3, 0);
    after := UpdateTaskTimeout(Put(before, 1, before.node[1].(timeoutTime := 20)), 1);
    assert 2 in after.tasks && Eligible(after.node, 2, 0);
  }

  // ---- what code outside the runner can do ------------------------------------------------------------

  datatype Action =
    | NewTask(p: Id)
    | Start(x: Id)
    | Abort(x: Id)
    | Wake(x: Id)
    | Error(x: Id)
    | SetTimeout(x: Id, seconds: int)
    | ClearTimeout(x: Id)
    | Suspend(x: Id)
    | Resume(x: Id)
    | Tick(now: int)

  /** The object that is called exists; a call on one that does not is no call. */
  predicate Exists(s: State, a: Action) {
    match a
    case NewTask(p) => p in s.node
    case Tick(_) => true
    case _ => a.x in s.node && a.x != 0
  }

  /** What the code needs of its callers: no child for a finished parent, no second Start before the first step. */
  predicate Lawful(s: State, a: Action) {
    match a
    case NewTask(p) => p in s.node ==> !s.node[p].done
    case Start(x) => x in s.node && x in s.tasks ==> s.node[x].state != STATE_INIT
    case _ => true
  }

  function Woken(r: Rec): Rec {
    if r.done then r else r.(blocked := false)
  }

  /** What the code does, lawful or not. */
  ghost function Act(s: State, a: Action): State {
    if !Exists(s, a) then s else
    match a
    case NewTask(p) => s.(node := Attached(s.node, p, s.nextId), nextId := s.nextId + 1)
    case Start(x) => if s.node[x].state != STATE_INIT then s else UpdateTaskTimeout(s.(tasks := s.tasks + [x]), x)
    case Abort(x) => s.(node := Aborted(s.node, x))
    case Wake(x) => Put(s, x, Woken(s.node[x]))
    case Error(x) => if s.node[x].error || s.node[x].done then s else Put(s, x, Woken(s.node[x].(error := true)))
    case SetTimeout(x, seconds) => ResetTimeout(Put(s, x, s.node[x].(timeoutSeconds := seconds)), x)
    case ClearTimeout(x) => UpdateTaskTimeout(Put(s, x, s.node[x].(timeoutTime := 0)), x)
    case Suspend(x) => if s.node[x].suspended then s else ResetTimeout(Put(s, x, s.node[x].(suspended := true)), x)
    case Resume(x) => if !s.node[x].suspended then s else ResetTimeout(Put(s, x, s.node[x].(suspended := false)), x)
    case Tick(now) => s.(now := now)
  }

  ghost function Acts(s: State, acts: seq<Action>): State
    decreases |acts|
  {
    if acts == [] then s else Act(Acts(s, acts[..|acts| - 1]), acts[|acts| - 1])
  }

  /** Every one of the calls is lawful when it is made. */
  ghost predicate AllLawful(s: State, acts: seq<Action>)
    decreases |acts|
  {
    acts == [] ||
    (AllLawful(s, acts[..|acts| - 1]) && Lawful(Acts(s, acts[..|acts| - 1]), acts[|acts| - 1]))
  }

  /** One call of Process: what it does, and the state it returns. */
  datatype Turn = Turn(acts: seq<Action>, newState: int)

  // ---- one step --------------------------------------------------------------------------------------

  /** Step from the return of Process on. */
  ghost function AfterProcess(s: State, x: Id, newState: int): State
    requires x in s.node
  {
    var r := s.node[x].(busy := false);
    if r.aborted then s.(node := Aborted(s.node[x := r], x))
    else if newState == STATE_BLOCKED then Put(s, x, r.(blocked := true))
    else Moved(Put(s, x, r), x, newState)
  }

  /** `x` takes on its new state, which may be a final one. */
  ghost function Moved(s: State, x: Id, newState: int): State
    requires x in s.node
  {
    var s1 := ResetTimeout(Put(s, x, s.node[x].(state := newState, blocked := false)), x);
    if newState == STATE_DONE || newState == STATE_ERROR then Finish(s1, x, newState == STATE_ERROR) else s1
  }

  /** Task `x` becomes `r`, stops, and is blocked. */
  ghost function StoppedBlocked(s: State, x: Id, r: Rec): State {
    var f := Stopped(s.node[x := r], x);
    s.(node := if x in f then f[x := f[x].(blocked := true)] else f)
  }

  ghost function Finish(s: State, x: Id, error: bool): State
    requires x in s.node
  {
    StoppedBlocked(s, x, s.node[x].(done := true, error := s.node[x].error || error))
  }

  ghost function Step(s: State, x: Id, turn: Turn): State
    requires x in s.node
  {
    var r := s.node[x];
    if r.done then Put(s, x, r.(blocked := true))
    else if r.error then s.(node := Stopped(s.node[x := r.(done := true, state := STATE_ERROR, blocked := true)], x))
    else
      var s1 := Acts(Put(s, x, r.(busy := true)), turn.acts);
      if x in s1.node then AfterProcess(s1, x, turn.newState) else s1
  }

  /** The calls made during a step are lawful. */
  ghost predicate LawfulStep(s: State, x: Id, turn: Turn)
    requires x in s.node
  {
    s.node[x].done || s.node[x].error || AllLawful(Put(s, x, s.node[x].(busy := true)), turn.acts)
  }

  // ---- the invariant -----------------------------------------------------------------------------------

  ghost predicate RecOk(s: State, b: Id, x: Id)
    requires x in s.node
  {
    && x < s.nextId && (x !in s.tasks ==> s.node[x].state == STATE_INIT && s.node[x].timeoutTime == 0)
    && (s.node[x].busy <==> x == b && b != 0) && (s.node[x].done ==> s.node[x].blocked)
  }

  ghost predicate TasksOk(s: State) {
    && (forall i :: 0 <= i < |s.tasks| ==> s.tasks[i] in s.node && s.tasks[i] != 0)
    && (forall i, j :: 0 <= i < j < |s.tasks| ==> s.tasks[i] != s.tasks[j])
    && (s.next == 0 || s.next in s.tasks)
  }

  /** `b` is the one inside Process, 0 for none. */
  ghost predicate RunnerInv(s: State, b: Id) {
    && TreeInv(s.node) && TasksOk(s) && (b != 0 ==> b in s.tasks)
    && forall x {:trigger RecOk(s, b, x)} :: x in s.node ==> RecOk(s, b, x)
  }

  /** Code inside Process deletes nothing and starts no second run. */
  ghost predicate Grows(s: State, s': State) {
    && s.tasks <= s'.tasks && s.node.Keys <= s'.node.Keys && s'.running == s.running
    && forall x :: x in s.node && s.node[x].done ==> s'.node[x].done
  }

  lemma UpdateKeeps(s: State, x: Id, b: Id)
    requires RunnerInv(s, b) && x in s.node
    ensures RunnerInv(UpdateTaskTimeout(s, x), b)
    ensures UpdateTaskTimeout(s, x) == s.(next := UpdateTaskTimeout(s, x).next)
  {
    var s' := UpdateTaskTimeout(s, x);
    assert RecOk(s, b, x);
    forall y | y in s'.node ensures RecOk(s', b, y) {
      assert RecOk(s, b, y);
    }
  }

  /** A change of the flags and timeouts of one task. */
  lemma PutKeeps(s: State, x: Id, r: Rec, b: Id)
    requires RunnerInv(s, b) && x in s.node
    requires r == s.node[x].(blocked := r.blocked, error := r.error, timeoutTime := r.timeoutTime,
                             timeoutSeconds := r.timeoutSeconds, suspended := r.suspended)
    requires (r.done ==> r.blocked) && (x !in s.tasks ==> r.timeoutTime == 0)
    ensures RunnerInv(Put(s, x, r), b)
  {
    assert RecOk(s, b, x) && LinkOk(s.node, x) && NodeOk(s.node, x);
    FlagsKeepTree(s.node, x, r);
    var s' := Put(s, x, r);
    forall y | y in s'.node ensures RecOk(s', b, y) {
      assert RecOk(s, b, y);
    }
  }

  lemma ResetIs(s: State, x: Id, r: Rec)
    requires x in s.node
    ensures ResetTimeout(Put(s, x, r), x) == UpdateTaskTimeout(Put(s, x, r.(timeoutTime := Deadline(r, s.now))), x)
  {
    assert s.node[x := r][x := r.(timeoutTime := Deadline(r, s.now))] == s.node[x := r.(timeoutTime := Deadline(r, s.now))];
  }

  lemma ResetKeeps(s: State, x: Id, r: Rec, b: Id)
    requires RunnerInv(s, b) && x in s.node
    requires r == s.node[x].(timeoutSeconds := r.timeoutSeconds, suspended := r.suspended)
    ensures RunnerInv(ResetTimeout(Put(s, x, r), x), b)
    ensures Grows(s, ResetTimeout(Put(s, x, r), x))
  {
    assert RecOk(s, b, x);
    var r' := r.(timeoutTime := Deadline(r, s.now));
    PutKeeps(s, x, r', b);
    ResetIs(s, x, r);
    UpdateKeeps(Put(s, x, r'), x, b);
  }

  lemma NewTaskKeeps(s: State, p: Id, b: Id)
    requires RunnerInv(s, b) && Exists(s, NewTask(p)) && Lawful(s, NewTask(p))
    ensures RunnerInv(Act(s, NewTask(p)), b) && Grows(s, Act(s, NewTask(p)))
  {
    var s' := Act(s, NewTask(p));
    assert RecOk(s, b, p);
    assert s.nextId in s.node ==> RecOk(s, b, s.nextId);
    AttachKeepsTree(s.node, p, s.nextId);
    forall y | y in s'.node ensures RecOk(s', b, y) {
      if y != s.nextId { assert RecOk(s, b, y); }
    }
  }

  lemma StartKeeps(s: State, x: Id, b: Id)
    requires RunnerInv(s, b) && Exists(s, Start(x)) && Lawful(s, Start(x))
    ensures RunnerInv(Act(s, Start(x)), b)
  {
    if s.node[x].state == STATE_INIT {
      var s1 := s.(tasks := s.tasks + [x]);
      forall y | y in s1.node ensures RecOk(s1, b, y) {
        assert RecOk(s, b, y);
      }
      UpdateKeeps(s1, x, b);
    }
  }

  lemma AbortKeeps(s: State, x: Id, b: Id)
    requires RunnerInv(s, b) && x in s.node && x != 0
    ensures RunnerInv(s.(node := Aborted(s.node, x)), b) && Grows(s, s.(node := Aborted(s.node, x)))
  {
    var s' := s.(node := Aborted(s.node, x));
    AbortKeepsTree(s.node, x);
    AbortEffect(s.node, x);
    forall y | y in s'.node ensures RecOk(s', b, y) {
      assert RecOk(s, b, y);
    }
  }

  lemma FlagActKeeps(s: State, a: Action, b: Id)
    requires RunnerInv(s, b) && Exists(s, a) && (a.Wake? || a.Error? || a.ClearTimeout?)
    ensures RunnerInv(Act(s, a), b) && Grows(s, Act(s, a))
  {
    var r := s.node[a.x];
    assert RecOk(s, b, a.x);
    match a
    case Wake(x) => PutKeeps(s, x, Woken(r), b);
    case Error(x) => if !r.error && !r.done { PutKeeps(s, x, Woken(r.(error := true)), b); }
    case ClearTimeout(x) =>
      PutKeeps(s, x, r.(timeoutTime := 0), b);
      UpdateKeeps(Put(s, x, r.(timeoutTime := 0)), x, b);
  }

  lemma TimeoutActKeeps(s: State, a: Action, b: Id)
    requires RunnerInv(s, b) && Exists(s, a) && (a.SetTimeout? || a.Suspend? || a.Resume?)
    ensures RunnerInv(Act(s, a), b) && Grows(s, Act(s, a))
  {
    match a
    case SetTimeout(x, seconds) => ResetKeeps(s, x, s.node[x].(timeoutSeconds := seconds), b);
    case Suspend(x) => ResetKeeps(s, x, s.node[x].(suspended := true), b);
    case Resume(x) => ResetKeeps(s, x, s.node[x].(suspended := false), b);
  }

  lemma ActKeeps(s: State, a: Action, b: Id)
    requires RunnerInv(s, b) && Lawful(s, a)
    ensures RunnerInv(Act(s, a), b) && Grows(s, Act(s, a))
  {
    if Exists(s, a) {
      match a
      case NewTask(p) => NewTaskKeeps(s, p, b);
      case Start(x) => StartKeeps(s, x, b);
      case Abort(x) => AbortKeeps(s, x, b);
      case Wake(_) => FlagActKeeps(s, a, b);
      case Error(_) => FlagActKeeps(s, a, b);
      case ClearTimeout(_) => FlagActKeeps(s, a, b);
      case SetTimeout(_, _) => TimeoutActKeeps(s, a, b);
      case Suspend(_) => TimeoutActKeeps(s, a, b);
      case Resume(_) => TimeoutActKeeps(s, a, b);
      case Tick(now) =>
        forall y | y in s.node ensures RecOk(s.(now := now), b, y) { assert RecOk(s, b, y); }
    }
  }

  /** The exact condition: a call keeps the invariant if and only if it is lawful. */
  lemma ActKeepsIff(s: State, a: Action, b: Id)
    requires RunnerInv(s, b) && Exists(s, a)
    ensures RunnerInv(Act(s, a), b) <==> Lawful(s, a)
  {
    if Lawful(s, a) {
      ActKeeps(s, a, b);
    } else if a.Start? {
      ListedTwice(s, a.x);
    } else {
      assert RecOk(s, b, a.p);
      assert s.nextId in Act(s, a).node && !NodeOk(Act(s, a).node, s.nextId);
    }
  }

  lemma ListedTwice(s: State, x: Id)
    requires Exists(s, Start(x)) && !Lawful(s, Start(x))
    ensures !TasksOk(Act(s, Start(x)))
  {
    var s' := Act(s, Start(x));
    var i :| 0 <= i < |s.tasks| && s.tasks[i] == x;
    assert s'.tasks[i] == x && s'.tasks[|s.tasks|] == x;
  }

  lemma {:induction false} ActsKeep(s: State, acts: seq<Action>, b: Id)
    requires RunnerInv(s, b) && AllLawful(s, acts)
    ensures RunnerInv(Acts(s, acts), b) && Grows(s, Acts(s, acts))
    decreases |acts|
  {
    if acts != [] {
      ActsKeep(s, acts[..|acts| - 1], b);
      ActKeeps(Acts(s, acts[..|acts| - 1]), acts[|acts| - 1], b);
    }
  }

  /** Process begins. */
  lemma BusyKeeps(s: State, x: Id)
    requires RunnerInv(s, 0) && x in s.tasks && x in s.node && !s.node[x].done
    ensures RunnerInv(Put(s, x, s.node[x].(busy := true)), x)
  {
    var r := s.node[x].(busy := true);
    assert LinkOk(s.node, x) && NodeOk(s.node, x);
    FlagsKeepTree(s.node, x, r);
    var s' := Put(s, x, r);
    forall y | y in s'.node ensures RecOk(s', x, y) { assert RecOk(s, 0, y); }
  }

  lemma StoppedRecs(s: State, x: Id, r: Rec, b: Id)
    requires RunnerInv(s, b) && (b == 0 || b == x) && x in s.tasks && Finishes(s.node, x, r)
    ensures var s' := StoppedBlocked(s, x, r); forall y :: y in s'.node ==> RecOk(s', 0, y)
  {
    var s' := StoppedBlocked(s, x, r);
    FinishEffect(s.node, x, r);
    forall y | y in s'.node ensures RecOk(s', 0, y) { assert RecOk(s, b, y); }
  }

  /** Task `x` stops, as `r`, whether or not it was inside Process. */
  lemma FinishKeeps(s: State, x: Id, r: Rec, b: Id)
    requires RunnerInv(s, b) && (b == 0 || b == x) && x in s.tasks && Finishes(s.node, x, r)
    ensures RunnerInv(StoppedBlocked(s, x, r), 0) && Grows(s, StoppedBlocked(s, x, r))
    ensures x in StoppedBlocked(s, x, r).node && StoppedBlocked(s, x, r).node[x].done
  {
    var f := Stopped(s.node[x := r], x);
    FinishEffect(s.node, x, r);
    StopKeepsTree(s.node, x, r);
    assert LinkOk(f, x) && NodeOk(f, x);
    FlagsKeepTree(f, x, f[x].(blocked := true));
    StoppedRecs(s, x, r, b);
  }

  /** The return of Process. */
  lemma ReturnKeeps(s: State, x: Id, newState: int)
    requires RunnerInv(s, x) && x in s.tasks && x in s.node && x != 0
    ensures RunnerInv(AfterProcess(s, x, newState), 0) && Grows(s, AfterProcess(s, x, newState))
  {
    assert RecOk(s, x, x) && NodeOk(s.node, x) && LinkOk(s.node, x);
    var r := s.node[x].(busy := false);
    if r.aborted {
      AbortedReturnKeeps(s, x);
    } else if newState == STATE_BLOCKED {
      IdleKeeps(s, x, r.(blocked := true));
    } else {
      MovedReturnKeeps(s, x, newState);
    }
  }

  lemma AbortedReturnKeeps(s: State, x: Id)
    requires RunnerInv(s, x) && x in s.tasks && x in s.node && x != 0
    ensures var s' := s.(node := Aborted(s.node[x := s.node[x].(busy := false)], x)); RunnerInv(s', 0) && Grows(s, s')
  {
    assert RecOk(s, x, x) && NodeOk(s.node, x);
    var r := Marked(s.node[x].(busy := false));
    assert s.node[x := s.node[x].(busy := false)][x := r] == s.node[x := r];
    FinishKeeps(s, x, r, x);
    var f := Stopped(s.node[x := r], x);
    FinishEffect(s.node, x, r);
    assert f[x := f[x].(blocked := true)] == f;
  }

  /** Process returns to an unfinished, unaborted task. */
  lemma IdleKeeps(s: State, x: Id, r: Rec)
    requires RunnerInv(s, x) && x in s.tasks && x in s.node && x != 0 && !s.node[x].aborted
    requires r == s.node[x].(busy := false, blocked := r.blocked, state := r.state, timeoutTime := r.timeoutTime)
    requires r.state != STATE_ERROR
    ensures RunnerInv(Put(s, x, r), 0) && Grows(s, Put(s, x, r))
  {
    assert RecOk(s, x, x) && NodeOk(s.node, x) && LinkOk(s.node, x);
    FlagsKeepTree(s.node, x, r);
    var s' := Put(s, x, r);
    forall y | y in s'.node ensures RecOk(s', 0, y) { assert RecOk(s, x, y); }
  }

  lemma UpdateIsNext(s: State, x: Id)
    requires x in s.node && x in s.tasks && (s.next == 0 || s.next in s.tasks)
    ensures var n := UpdateTaskTimeout(s, x).next; UpdateTaskTimeout(s, x) == s.(next := n) && (n == 0 || n in s.tasks)
  {
  }

  lemma NextKeeps(s: State, n: Id, b: Id)
    requires RunnerInv(s, b) && (n == 0 || n in s.tasks)
    ensures RunnerInv(s.(next := n), b)
  {
    forall y | y in s.node ensures RecOk(s.(next := n), b, y) { assert RecOk(s, b, y); }
  }

  /** The record with which Process returns a new state to an unaborted task. */
  function MovedTo(s: State, x: Id, newState: int): Rec
    requires x in s.node
  {
    var r := s.node[x].(busy := false, state := newState, blocked := false);
    r.(timeoutTime := Deadline(r, s.now))
  }

  lemma MovedOnKeeps(s: State, x: Id, newState: int)
    requires RunnerInv(s, x) && x in s.tasks && x in s.node && x != 0 && !s.node[x].aborted && newState != STATE_ERROR
    ensures var s' := UpdateTaskTimeout(Put(s, x, MovedTo(s, x, newState)), x); RunnerInv(s', 0) && Grows(s, s')
  {
    var s1 := Put(s, x, MovedTo(s, x, newState));
    IdleKeeps(s, x, MovedTo(s, x, newState));
    UpdateKeeps(s1, x, 0);
  }

  lemma FinishedKeeps(s: State, x: Id, r: Rec, newState: int)
    requires RunnerInv(s, x) && x in s.tasks && x in s.node && x != 0 && r == MovedTo(s, x, newState)
    ensures var s' := Finish(UpdateTaskTimeout(Put(s, x, r), x), x, newState == STATE_ERROR); RunnerInv(s', 0) && Grows(s, s')
  {
    var s1 := UpdateTaskTimeout(Put(s, x, r), x);
    UpdateIsNext(Put(s, x, r), x);
    var r2 := r.(done := true, error := r.error || newState == STATE_ERROR);
    assert s.node[x := r][x := r2] == s.node[x := r2];
    NextKeeps(s, s1.next, x);
    assert RecOk(s, x, x) && NodeOk(s.node, x);
    FinishKeeps(s.(next := s1.next), x, r2, x);
  }

  lemma MovedIs(s: State, x: Id, newState: int)
    requires x in s.node
    ensures var s1 := UpdateTaskTimeout(Put(s, x, MovedTo(s, x, newState)), x);
            x in s1.node && Moved(Put(s, x, s.node[x].(busy := false)), x, newState) ==
            if newState == STATE_DONE || newState == STATE_ERROR then Finish(s1, x, newState == STATE_ERROR) else s1
  {
    var r := s.node[x].(busy := false, state := newState, blocked := false);
    ResetIs(s, x, r);
    assert Put(Put(s, x, s.node[x].(busy := false)), x, r) == Put(s, x, r);
  }

  lemma MovedReturnKeeps(s: State, x: Id, newState: int)
    requires RunnerInv(s, x) && x in s.tasks && x in s.node && x != 0 && !s.node[x].aborted && newState != STATE_BLOCKED
    ensures RunnerInv(AfterProcess(s, x, newState), 0) && Grows(s, AfterProcess(s, x, newState))
  {
    MovedIs(s, x, newState);
    if newState == STATE_DONE || newState == STATE_ERROR {
      FinishedKeeps(s, x, MovedTo(s, x, newState), newState);
    } else {
      MovedOnKeeps(s, x, newState);
    }
  }

  lemma ErrorStepKeeps(s: State, x: Id, r: Rec)
    requires RunnerInv(s, 0) && x in s.tasks && x in s.node && x != 0 && !s.node[x].done
    requires r == s.node[x].(done := true, state := STATE_ERROR, blocked := true)
    ensures var s' := s.(node := Stopped(s.node[x := r], x)); RunnerInv(s', 0) && Grows(s, s')
  {
    assert RecOk(s, 0, x) && NodeOk(s.node, x);
    FinishKeeps(s, x, r, 0);
    FinishEffect(s.node, x, r);
    var f := Stopped(s.node[x := r], x);
    assert f[x := f[x].(blocked := true)] == f;
  }

  lemma ProcessKeeps(s: State, x: Id, turn: Turn)
    requires RunnerInv(s, 0) && x in s.tasks && x in s.node && x != 0 && !s.node[x].done
    requires AllLawful(Put(s, x, s.node[x].(busy := true)), turn.acts)
    ensures var s1 := Acts(Put(s, x, s.node[x].(busy := true)), turn.acts);
            x in s1.node && x in s1.tasks && RunnerInv(s1, x) && Grows(s, s1)
  {
    BusyKeeps(s, x);
    ActsKeep(Put(s, x, s.node[x].(busy := true)), turn.acts, x);
  }

  lemma StepKeeps(s: State, x: Id, turn: Turn)
    requires RunnerInv(s, 0) && x in s.tasks && x in s.node && x != 0 && LawfulStep(s, x, turn)
    ensures RunnerInv(Step(s, x, turn), 0) && Grows(s, Step(s, x, turn))
  {
    var r := s.node[x];
    if r.done {
      PutKeeps(s, x, r.(blocked := true), 0);
    } else if r.error {
      ErrorStepKeeps(s, x, r.(done := true, state := STATE_ERROR, blocked := true));
    } else {
      ProcessKeeps(s, x, turn);
      ReturnKeeps(Acts(Put(s, x, r.(busy := true)), turn.acts), x, turn.newState);
    }
  }

  // ---- what calls and steps mean --------------------------------------------------------------------------

  /** Every record but that of `x` is the same. */
  ghost predicate OthersSame(f: Tree, h: Tree, x: Id) {
    h.Keys == f.Keys && forall y :: y in f && y != x ==> h[y] == f[y]
  }

  /** The deadline of a task: its seconds from now in units of 100 ns, while it runs, has a timeout and is not suspended. */
  ghost predicate DeadlineStands(r: Rec, now: int) {
    if r.timeoutSeconds == 0 || r.suspended || r.state == STATE_INIT || r.state == STATE_DONE || r.state == STATE_ERROR
    then r.timeoutTime == 0
    else r.timeoutTime - now == r.timeoutSeconds * 10_000_000
  }

  /** The runner's eye is on a deadline no later than that of `x`, or, if `x` has none, not on `x`. */
  ghost predicate Watched(s: State, x: Id) {
    && x in s.node
    && if s.node[x].timeoutTime == 0 then s.next != x
       else s.next != 0 && s.next in s.node && s.node[s.next].timeoutTime <= s.node[x].timeoutTime
  }

  lemma UpdateWatches(s: State, x: Id)
    requires x in s.node && x != 0 && (s.next == 0 || s.next in s.node)
    ensures Watched(UpdateTaskTimeout(s, x), x)
  {
  }

  /** What a caller gets from a call on an object that exists. */
  ghost predicate CallMeans(s: State, a: Action, s': State)
    requires Exists(s, a)
  {
    match a
    case NewTask(p) =>
      var c := s.nextId;
      && c in s'.node && s'.nextId == c + 1 && s'.tasks == s.tasks
      && s'.node[c].parent == p && !s'.node[c].done && !s'.node[c].blocked && s'.node[c].state == STATE_INIT && s'.node[c].children == {}
      && p in s'.node && c in s'.node[p].children
      && forall y :: y in s.node && y != p ==> y in s'.node && s'.node[y] == s.node[y]
    case Start(x) =>
      s'.node == s.node && s'.tasks == (if s.node[x].state == STATE_INIT then s.tasks + [x] else s.tasks)
    case Abort(x) =>
      x in s'.node && s'.tasks == s.tasks && if s.node[x].busy then s'.node[x].aborted else s'.node[x].done
    case Wake(x) =>
      && OthersSame(s.node, s'.node, x) && s'.tasks == s.tasks
      && if s.node[x].done then s'.node[x] == s.node[x] else s'.node[x] == s.node[x].(blocked := false)
    case Error(x) =>
      && OthersSame(s.node, s'.node, x) && s'.tasks == s.tasks
      && if s.node[x].done || s.node[x].error then s'.node[x] == s.node[x]
         else s'.node[x] == s.node[x].(blocked := false, error := true)
    case SetTimeout(x, seconds) =>
      && OthersSame(s.node, s'.node, x) && s'.node[x].timeoutSeconds == seconds && DeadlineStands(s'.node[x], s.now)
      && Watched(s', x)
    case ClearTimeout(x) => OthersSame(s.node, s'.node, x) && s'.node[x].timeoutTime == 0 && Watched(s', x)
    case Suspend(x) =>
      && OthersSame(s.node, s'.node, x) && s'.node[x].suspended
      && (!s.node[x].suspended ==> s'.node[x].timeoutTime == 0 && Watched(s', x))
    case Resume(x) =>
      && OthersSame(s.node, s'.node, x) && !s'.node[x].suspended
      && (s.node[x].suspended ==> DeadlineStands(s'.node[x], s.now) && Watched(s', x))
    case Tick(now) => s' == s.(now := now)
  }

  lemma ActMeans(s: State, a: Action, b: Id)
    requires RunnerInv(s, b) && Exists(s, a)
    ensures CallMeans(s, a, Act(s, a))
  {
    match a
    case NewTask(p) =>
      assert RecOk(s, b, p);
      assert s.nextId in s.node ==> RecOk(s, b, s.nextId);
    case Start(x) => UpdateOnlyNext(s.(tasks := s.tasks + [x]), x);
    case Abort(x) =>
      assert NodeOk(s.node, x);
      AbortEffect(s.node, x);
    case Wake(_) =>
    case Error(_) =>
    case SetTimeout(x, seconds) => ResetMeans(s, x, s.node[x].(timeoutSeconds := seconds));
    case ClearTimeout(x) =>
      UpdateOnlyNext(Put(s, x, s.node[x].(timeoutTime := 0)), x);
      UpdateWatches(Put(s, x, s.node[x].(timeoutTime := 0)), x);
    case Suspend(x) => ResetMeans(s, x, s.node[x].(suspended := true));
    case Resume(x) => ResetMeans(s, x, s.node[x].(suspended := false));
    case Tick(_) =>
  }

  lemma CallIsMeant(s: State, a: Action, b: Id)
    requires RunnerInv(s, b)
    ensures Exists(s, a) ==> (RunnerInv(Act(s, a), b) <==> Lawful(s, a)) && CallMeans(s, a, Act(s, a))
    ensures Lawful(s, a) ==> RunnerInv(Act(s, a), b) && Grows(s, Act(s, a))
  {
    if Exists(s, a) { ActKeepsIff(s, a, b); ActMeans(s, a, b); }
    if Lawful(s, a) { ActKeeps(s, a, b); }
  }

  lemma UpdateOnlyNext(s: State, x: Id)
    requires x in s.node
    ensures UpdateTaskTimeout(s, x) == s.(next := UpdateTaskTimeout(s, x).next)
  {
  }

  /** A reset gives `x` its deadline and changes nobody else. */
  lemma ResetMeans(s: State, x: Id, r: Rec)
    requires x in s.node && x != 0 && (s.next == 0 || s.next in s.node)
    ensures var s' := ResetTimeout(Put(s, x, r), x);
            && OthersSame(s.node, s'.node, x) && s'.tasks == s.tasks
            && s'.node[x] == r.(timeoutTime := s'.node[x].timeoutTime) && DeadlineStands(s'.node[x], s.now) && Watched(s', x)
  {
    ResetIs(s, x, r);
    UpdateWatches(Put(s, x, r.(timeoutTime := Deadline(r, s.now))), x);
    UpdateOnlyNext(Put(s, x, r.(timeoutTime := Deadline(r, s.now))), x);
  }

  /** Everything but the record of `x` keeps its wish to run, unless it is finished. */
  ghost predicate QuietFor(f: Tree, h: Tree, x: Id) {
    forall y :: y in f && y != x ==> y in h && (h[y].blocked ==> f[y].blocked || h[y].done)
  }

  /** Whoever is blocked stays so, but for `x`. */
  ghost predicate RestFor(f: Tree, h: Tree, x: Id) {
    forall y :: y in f && y != x ==> y in h && (f[y].blocked ==> h[y].blocked)
  }

  lemma ActQuiet(s: State, a: Action, b: Id, x: Id)
    requires RunnerInv(s, b)
    ensures QuietFor(s.node, Act(s, a).node, x)
  {
    if Exists(s, a) {
      ActMeans(s, a, b);
      if a.Abort? { AbortEffect(s.node, a.x); }
    }
  }

  lemma {:induction false} ActsQuiet(s: State, acts: seq<Action>, b: Id, x: Id)
    requires RunnerInv(s, b) && AllLawful(s, acts)
    ensures QuietFor(s.node, Acts(s, acts).node, x)
    decreases |acts|
  {
    if acts != [] {
      var front, a := acts[..|acts| - 1], acts[|acts| - 1];
      ActsQuiet(s, front, b, x);
      ActsKeep(s, front, b);
      ActQuiet(Acts(s, front), a, b, x);
      ActKeeps(Acts(s, front), a, b);
    }
  }

  /** What the return of Process means: an aborted task is finished, a blocked one waits, another goes on in its new state. */
  ghost predicate ReturnMeans(r: Rec, newState: int, now: int, r': Rec) {
    if r.aborted then r'.done && r'.blocked
    else if newState == STATE_BLOCKED then r'.blocked && !r'.done && r'.state == r.state && r'.timeoutTime == r.timeoutTime
    else if newState == STATE_DONE || newState == STATE_ERROR then r'.done && r'.blocked && r'.state == newState && r'.timeoutTime == 0
    else !r'.blocked && !r'.done && r'.state == newState && DeadlineStands(r', now)
  }

  lemma ReturnIsMeant(s: State, x: Id, newState: int)
    requires RunnerInv(s, x) && x in s.tasks && x in s.node && x != 0
    ensures var s' := AfterProcess(s, x, newState);
            && x in s'.node && ReturnMeans(s.node[x], newState, s.now, s'.node[x]) && QuietFor(s.node, s'.node, x) && RestFor(s.node, s'.node, x)
            && (!s.node[x].aborted && newState != STATE_BLOCKED ==> Watched(s', x))
  {
    assert RecOk(s, x, x) && NodeOk(s.node, x);
    if s.node[x].aborted {
      AbortedReturnMeans(s, x);
    } else if newState != STATE_BLOCKED {
      MovedIs(s, x, newState);
      MovedMeans(s, x, newState);
    }
  }

  lemma AbortedReturnMeans(s: State, x: Id)
    requires RunnerInv(s, x) && x in s.tasks && x in s.node && x != 0
    ensures var h := Aborted(s.node[x := s.node[x].(busy := false)], x);
            x in h && h[x].done && h[x].blocked && QuietFor(s.node, h, x) && RestFor(s.node, h, x)
  {
    assert RecOk(s, x, x) && NodeOk(s.node, x);
    var r := Marked(s.node[x].(busy := false));
    assert s.node[x := s.node[x].(busy := false)][x := r] == s.node[x := r];
    FinishEffect(s.node, x, r);
  }

  lemma MovedMeans(s: State, x: Id, newState: int)
    requires RunnerInv(s, x) && x in s.tasks && x in s.node && x != 0 && !s.node[x].aborted && newState != STATE_BLOCKED
    ensures var s' := Moved(Put(s, x, s.node[x].(busy := false)), x, newState);
            x in s'.node && ReturnMeans(s.node[x], newState, s.now, s'.node[x]) && QuietFor(s.node, s'.node, x) && RestFor(s.node, s'.node, x) && Watched(s', x)
  {
    MovedIs(s, x, newState);
    UpdateWatches(Put(s, x, MovedTo(s, x, newState)), x);
    UpdateOnlyNext(Put(s, x, MovedTo(s, x, newState)), x);
    assert RecOk(s, x, x) && NodeOk(s.node, x);
    if newState == STATE_DONE || newState == STATE_ERROR {
      FinishedMeans(s, x, MovedTo(s, x, newState), newState, UpdateTaskTimeout(Put(s, x, MovedTo(s, x, newState)), x));
    }
  }

  lemma FinishedMeans(s: State, x: Id, r: Rec, newState: int, s1: State)
    requires RunnerInv(s, x) && x in s.tasks && x in s.node && x != 0 && r == MovedTo(s, x, newState)
    requires (newState == STATE_DONE || newState == STATE_ERROR) && s1.node == s.node[x := r]
    ensures var s' := Finish(s1, x, newState == STATE_ERROR);
            x in s'.node && QuietFor(s.node, s'.node, x) && RestFor(s.node, s'.node, x)
            && s'.node[x].done && s'.node[x].blocked && s'.node[x].state == newState && s'.node[x].timeoutTime == 0
  {
    assert RecOk(s, x, x) && NodeOk(s.node, x);
    var r2 := r.(done := true, error := r.error || newState == STATE_ERROR);
    assert s1.node[x := r2] == s.node[x := r2];
    FinishEffect(s.node, x, r2);
    BlockedAtLast(s.node, Stopped(s.node[x := r2], x), x);
  }

  lemma BlockedAtLast(f: Tree, h: Tree, x: Id)
    requires h.Keys == f.Keys && x in h
    requires forall y :: y in f && y != x ==> (f[y].blocked ==> h[y].blocked) && (h[y].blocked ==> f[y].blocked || h[y].done)
    ensures var h' := h[x := h[x].(blocked := true)]; QuietFor(f, h', x) && RestFor(f, h', x)
  {
  }

  /** What a step of `x` means, in terms of its record as Process left it. */
  lemma StepMeans(s: State, x: Id, turn: Turn)
    requires RunnerInv(s, 0) && x in s.tasks && x in s.node && x != 0 && LawfulStep(s, x, turn)
    ensures var r, s' := s.node[x], Step(s, x, turn);
            && x in s'.node && QuietFor(s.node, s'.node, x)
            && (r.done ==> s'.node[x] == r)
            && (!r.done && r.error ==> s'.node[x].done && s'.node[x].state == STATE_ERROR && s'.node[x].blocked)
            && (!r.done && !r.error ==>
                  var s1 := Acts(Put(s, x, r.(busy := true)), turn.acts);
                  x in s1.node && ReturnMeans(s1.node[x], turn.newState, s1.now, s'.node[x]))
  {
    var r := s.node[x];
    assert RecOk(s, 0, x) && NodeOk(s.node, x);
    if !r.done && r.error {
      FinishEffect(s.node, x, r.(done := true, state := STATE_ERROR, blocked := true));
    } else if !r.done {
      ProcessStepMeans(s, x, turn);
    }
  }

  lemma ProcessStepMeans(s: State, x: Id, turn: Turn)
    requires RunnerInv(s, 0) && x in s.tasks && x in s.node && x != 0 && !s.node[x].done && !s.node[x].error && LawfulStep(s, x, turn)
    ensures var s1, s' := Acts(Put(s, x, s.node[x].(busy := true)), turn.acts), Step(s, x, turn);
            x in s1.node && x in s'.node && ReturnMeans(s1.node[x], turn.newState, s1.now, s'.node[x]) && QuietFor(s.node, s'.node, x)
  {
    var s0 := Put(s, x, s.node[x].(busy := true));
    ProcessKeeps(s, x, turn);
    BusyKeeps(s, x);
    ActsQuiet(s0, turn.acts, x, x);
    ReturnStaysQuiet(s.node, Acts(s0, turn.acts), x, turn.newState);
  }

  lemma ReturnStaysQuiet(f: Tree, s: State, x: Id, newState: int)
    requires RunnerInv(s, x) && x in s.tasks && x in s.node && x != 0 && QuietFor(f, s.node, x)
    ensures var s' := AfterProcess(s, x, newState);
            x in s'.node && ReturnMeans(s.node[x], newState, s.now, s'.node[x]) && QuietFor(f, s'.node, x)
  {
    ReturnIsMeant(s, x, newState);
    ReturnKeeps(s, x, newState);
    QuietOn(f, s.node, AfterProcess(s, x, newState).node, x);
  }

  lemma QuietOn(f: Tree, g: Tree, h: Tree, x: Id)
    requires QuietFor(f, g, x) && QuietFor(g, h, x)
    requires forall y :: y in g && y in h && g[y].done ==> h[y].done
    ensures QuietFor(f, h, x)
  {
  }

  /** A task on which Error was called fails at its next step, and its parent is told. */
  lemma FailureIsReported(s: State, x: Id, turn: Turn)
    requires RunnerInv(s, 0) && x in s.tasks && x in s.node && x != 0 && !s.node[x].done && s.node[x].error
    ensures var p, h := s.node[x].parent, Step(s, x, turn).node; p in h && h[p].childError && x !in h[p].children
  {
    assert RecOk(s, 0, x) && NodeOk(s.node, x);
    ParentTold(s.node, x, s.node[x].(done := true, state := STATE_ERROR, blocked := true));
  }

  /** Of a task whose Process returns that it is finished, the parent is told whether it failed. */
  lemma EndIsReported(s: State, x: Id, newState: int)
    requires RunnerInv(s, x) && x in s.tasks && x in s.node && x != 0 && !s.node[x].aborted
    requires newState == STATE_DONE || newState == STATE_ERROR
    ensures var p, h := s.node[x].parent, AfterProcess(s, x, newState).node;
            && p in s.node && p in h && x !in h[p].children
            && h[p].childError == (s.node[p].childError || newState == STATE_ERROR)
  {
    var r := MovedTo(s, x, newState);
    MovedIs(s, x, newState);
    UpdateOnlyNext(Put(s, x, r), x);
    EndTold(s, x, r, newState, UpdateTaskTimeout(Put(s, x, r), x));
  }

  lemma EndTold(s: State, x: Id, r: Rec, newState: int, s1: State)
    requires RunnerInv(s, x) && x in s.tasks && x in s.node && x != 0 && r == MovedTo(s, x, newState)
    requires (newState == STATE_DONE || newState == STATE_ERROR) && s1.node == s.node[x := r]
    ensures var p, h := s.node[x].parent, Finish(s1, x, newState == STATE_ERROR).node;
            && p in s.node && p in h && x !in h[p].children
            && h[p].childError == (s.node[p].childError || newState == STATE_ERROR)
  {
    assert RecOk(s, x, x) && NodeOk(s.node, x) && LinkOk(s.node, x);
    var r2 := r.(done := true, error := r.error || newState == STATE_ERROR);
    assert s1.node[x := r2] == s.node[x := r2];
    ParentTold(s.node, x, r2);
  }

  // ---- deletion ---------------------------------------------------------------------------------------

  function Live(f: Tree, tasks: seq<Id>): seq<Id>
    decreases |tasks|
  {
    if tasks == [] then []
    else
      var n := |tasks| - 1;
      if tasks[n] in f && f[tasks[n]].done then Live(f, tasks[..n]) else Live(f, tasks[..n]) + [tasks[n]]
  }

  lemma {:induction false} LiveIsExact(f: Tree, tasks: seq<Id>)
    ensures forall x :: x in Live(f, tasks) <==> x in tasks && !(x in f && f[x].done)
    ensures (forall i, j :: 0 <= i < j < |tasks| ==> tasks[i] != tasks[j]) ==>
            forall i, j :: 0 <= i < j < |Live(f, tasks)| ==> Live(f, tasks)[i] != Live(f, tasks)[j]
    decreases |tasks|
  {
    if tasks != [] {
      var n := |tasks| - 1;
      LiveIsExact(f, tasks[..n]);
      assert tasks == tasks[..n] + [tasks[n]];
    }
  }

  lemma {:induction false} NoneLive(f: Tree, tasks: seq<Id>)
    requires forall x :: x in tasks ==> x in f && f[x].done
    ensures Live(f, tasks) == []
    decreases |tasks|
  {
    if tasks != [] { NoneLive(f, tasks[..|tasks| - 1]); }
  }

  /** Tasks are deleted, and taken off the list, when running has paused. */
  ghost function Swept(s: State): State {
    var node := map x | x in s.node && !(x in s.tasks && s.node[x].done) :: s.node[x];
    var tasks := Live(s.node, s.tasks);
    s.(node := node, tasks := tasks,
       next := if s.next in s.node && s.node[s.next].done then Earliest(node, tasks, 0) else s.next)
  }

  /** With nobody inside Process, no record that stays refers to one that goes. */
  lemma SweepKeepsTree(s: State)
    requires RunnerInv(s, 0)
    ensures TreeInv(Swept(s).node)
  {
    var f, h := s.node, Swept(s).node;
    forall x | x in h ensures KidsOk(h, 0, x) && LinkOk(h, x) && NodeOk(h, x) {
      assert KidsOk(f, 0, x) && LinkOk(f, x) && NodeOk(f, x) && RecOk(s, 0, x);
    }
  }

  lemma SweepKeeps(s: State)
    requires RunnerInv(s, 0)
    ensures RunnerInv(Swept(s), 0)
  {
    var s' := Swept(s);
    SweepKeepsTree(s);
    LiveIsExact(s.node, s.tasks);
    forall x | x in s'.node ensures RecOk(s', 0, x) { assert RecOk(s, 0, x); }
    forall i | 0 <= i < |s'.tasks| ensures s'.tasks[i] in s'.node && s'.tasks[i] != 0 {
      assert s'.tasks[i] in s.tasks;
    }
  }

  ghost predicate AllBlocked(s: State) {
    forall x :: x in s.tasks && x in s.node ==> s.node[x].blocked
  }

  /** Everything that remains is blocked, and waits for something. */
  ghost predicate Settled(s: State) {
    forall x :: x in s.tasks ==> x in s.node && s.node[x].blocked && !s.node[x].done
  }

  lemma RunningKeeps(s: State, running: bool)
    requires RunnerInv(s, 0)
    ensures RunnerInv(s.(running := running), 0)
  {
    forall y | y in s.node ensures RecOk(s.(running := running), 0, y) { assert RecOk(s, 0, y); }
  }

  lemma SweepSettles(s: State)
    requires RunnerInv(s, 0) && AllBlocked(s)
    ensures Settled(Swept(s))
  {
    LiveIsExact(s.node, s.tasks);
    SweepKeeps(s);
  }

  ghost predicate IsRest(script: seq<Turn>, rest: seq<Turn>) {
    |rest| <= |script| && script[|script| - |rest|..] == rest
  }

  lemma GrowsOn(s: State, t: State, u: State)
    requires Grows(s, t) && Grows(t, u)
    ensures Grows(s, u)
  {
  }

  /** The sweep takes away the finished tasks of the list, and leaves every other record alone. */
  lemma SweepRemovesExactly(s: State, x: Id)
    requires RunnerInv(s, 0)
    ensures x in Swept(s).tasks <==> x in s.tasks && !s.node[x].done
    ensures x in Swept(s).node <==> x in s.node && !(x in s.tasks && s.node[x].done)
    ensures x in Swept(s).node ==> Swept(s).node[x] == s.node[x]
  {
    LiveIsExact(s.node, s.tasks);
  }

  /** A task with a timeout whose deadline has come. */
  predicate TimedOut(r: Rec, now: int) {
    r.timeoutSeconds != 0 && r.timeoutTime != 0 && now >= r.timeoutTime
  }

  /** The cached task is due. */
  predicate IsDue(s: State) {
    s.next != 0 && s.next in s.node && TimedOut(s.node[s.next], s.now)
  }

  // ---- one run of the scheduler ------------------------------------------------------------------------

  /** The steps of a run: the states before and after each, and who took it. */
  datatype Trace = Trace(ss: seq<State>, log: seq<Id>)

  /** Each step is that of a listed task which is not blocked, and the i-th step takes the i-th turn. */
  ghost predicate IsSteps(t: Trace, script: seq<Turn>) {
    && |t.ss| == |t.log| + 1 && |t.log| <= |script|
    && forall i :: 0 <= i < |t.log| ==> StepTaken(t.ss[i], t.log[i], script[i], t.ss[i + 1])
  }

  ghost predicate StepTaken(s: State, x: Id, turn: Turn, s': State) {
    x in s.tasks && x in s.node && !s.node[x].blocked && LawfulStep(s, x, turn) && s' == Step(s, x, turn)
  }

  /** The trace has led to state `s` and left the turns `rest`. */
  ghost predicate Follows(t: Trace, script: seq<Turn>, rest: seq<Turn>, s: State) {
    IsSteps(t, script) && t.ss[|t.log|] == s && IsRest(script, rest) && |t.log| + |rest| == |script|
  }

  lemma TraceOn(t: Trace, script: seq<Turn>, rest: seq<Turn>, s: State, x: Id, s': State)
    requires Follows(t, script, rest, s) && rest != [] && StepTaken(s, x, rest[0], s')
    ensures Follows(Trace(t.ss + [s'], t.log + [x]), script, rest[1..], s')
  {
    assert script[|t.log|] == rest[0];
    assert script[|t.log| + 1..] == rest[1..];
  }

  /** Until it takes a step itself, a task that can run goes on wanting to, unless it is finished from elsewhere. */
  lemma {:induction false} WaitsForStep(t: Trace, script: seq<Turn>, i: nat, n: nat, x: Id)
    requires IsSteps(t, script) && i <= n <= |t.log| && RunnerInv(t.ss[0], 0)
    requires x in t.ss[i].node && !t.ss[i].node[x].blocked && x !in t.log[i..n]
    ensures x in t.ss[n].node && (t.ss[n].node[x].blocked ==> t.ss[n].node[x].done)
    decreases n
  {
    if n > i {
      assert t.log[i..n] == t.log[i..n - 1] + [t.log[n - 1]];
      WaitsForStep(t, script, i, n - 1, x);
      AllStepsKeep(t, script, n - 1);
      assert StepTaken(t.ss[n - 1], t.log[n - 1], script[n - 1], t.ss[n - 1 + 1]);
      StepMeans(t.ss[n - 1], t.log[n - 1], script[n - 1]);
      StepKeeps(t.ss[n - 1], t.log[n - 1], script[n - 1]);
    }
  }

  lemma {:induction false} AllStepsKeep(t: Trace, script: seq<Turn>, n: nat)
    requires IsSteps(t, script) && n <= |t.log| && RunnerInv(t.ss[0], 0)
    ensures RunnerInv(t.ss[n], 0) && Grows(t.ss[0], t.ss[n])
  {
    if n > 0 {
      AllStepsKeep(t, script, n - 1);
      assert StepTaken(t.ss[n - 1], t.log[n - 1], script[n - 1], t.ss[n - 1 + 1]);
      StepKeeps(t.ss[n - 1], t.log[n - 1], script[n - 1]);
      GrowsOn(t.ss[0], t.ss[n - 1], t.ss[n]);
    }
  }

  /** The calls that wake task `z`. */
  predicate Wakes(a: Action, z: Id) {
    a == Wake(z) || a == Error(z)
  }

  lemma ActRests(s: State, a: Action, b: Id, z: Id)
    requires RunnerInv(s, b) && z in s.node && s.node[z].blocked && !Wakes(a, z)
    ensures z in Act(s, a).node && Act(s, a).node[z].blocked
  {
    if Exists(s, a) {
      ActMeans(s, a, b);
      match a
      case NewTask(p) => assert s.nextId in s.node ==> RecOk(s, b, s.nextId);
      case Abort(x) => AbortEffect(s.node, x);
      case SetTimeout(x, seconds) => ResetMeans(s, x, s.node[x].(timeoutSeconds := seconds));
      case Suspend(x) => ResetMeans(s, x, s.node[x].(suspended := true));
      case Resume(x) => ResetMeans(s, x, s.node[x].(suspended := false));
      case _ =>
    }
  }

  lemma {:induction false} ActsRest(s: State, acts: seq<Action>, b: Id, z: Id)
    requires RunnerInv(s, b) && AllLawful(s, acts) && z in s.node && s.node[z].blocked
    requires forall i :: 0 <= i < |acts| ==> !Wakes(acts[i], z)
    ensures z in Acts(s, acts).node && Acts(s, acts).node[z].blocked
    decreases |acts|
  {
    if acts != [] {
      var front, a := acts[..|acts| - 1], acts[|acts| - 1];
      ActsRest(s, front, b, z);
      ActsKeep(s, front, b);
      ActRests(Acts(s, front), a, b, z);
    }
  }

  /** A step of another task leaves `z` blocked, unless it wakes it. */
  lemma StepRests(s: State, x: Id, turn: Turn, z: Id)
    requires RunnerInv(s, 0) && x in s.tasks && x in s.node && x != 0 && LawfulStep(s, x, turn)
    requires z in s.node && s.node[z].blocked && z != x && forall i :: 0 <= i < |turn.acts| ==> !Wakes(turn.acts[i], z)
    ensures z in Step(s, x, turn).node && Step(s, x, turn).node[z].blocked
  {
    var r := s.node[x];
    assert RecOk(s, 0, x) && NodeOk(s.node, x);
    if !r.done && r.error {
      FinishEffect(s.node, x, r.(done := true, state := STATE_ERROR, blocked := true));
    } else if !r.done {
      var s0 := Put(s, x, r.(busy := true));
      ProcessKeeps(s, x, turn);
      BusyKeeps(s, x);
      ActsRest(s0, turn.acts, x, z);
      ReturnIsMeant(Acts(s0, turn.acts), x, turn.newState);
    }
  }

  /** A blocked task that nobody wakes takes no step: what Process returned to wait for is waited for. */
  lemma {:induction false} BlockedSleeps(t: Trace, script: seq<Turn>, n: nat, z: Id)
    requires IsSteps(t, script) && n <= |t.log| && RunnerInv(t.ss[0], 0) && z in t.ss[0].node && t.ss[0].node[z].blocked
    requires forall i, j :: 0 <= i < n && 0 <= j < |script[i].acts| ==> !Wakes(script[i].acts[j], z)
    ensures z in t.ss[n].node && t.ss[n].node[z].blocked && z !in t.log[..n]
  {
    if n > 0 {
      BlockedSleeps(t, script, n - 1, z);
      AllStepsKeep(t, script, n - 1);
      assert StepTaken(t.ss[n - 1], t.log[n - 1], script[n - 1], t.ss[n - 1 + 1]);
      StepRests(t.ss[n - 1], t.log[n - 1], script[n - 1], z);
      assert t.log[..n] == t.log[..n - 1] + [t.log[n - 1]];
    }
  }

  /**
   A run that ends with everything blocked has stepped every task that could run at any point
   of it, at that point or later, or has seen it finished: one that was woken, was given a new
   state or was runnable from the start.
   */
  lemma RunnableIsStepped(t: Trace, script: seq<Turn>, i: nat, x: Id)
    requires IsSteps(t, script) && RunnerInv(t.ss[0], 0) && AllBlocked(t.ss[|t.log|]) && i <= |t.log|
    requires x in t.ss[i].tasks && x in t.ss[i].node && !t.ss[i].node[x].blocked
    ensures x in t.log[i..] || (x in t.ss[|t.log|].node && t.ss[|t.log|].node[x].done)
  {
    if x !in t.log[i..] {
      assert t.log[i..|t.log|] == t.log[i..];
      WaitsForStep(t, script, i, |t.log|, x);
      StepsGrow(t, script, i, |t.log|);
      assert x in t.ss[|t.log|].tasks;
    }
  }

  lemma {:induction false} StepsGrow(t: Trace, script: seq<Turn>, i: nat, n: nat)
    requires IsSteps(t, script) && i <= n <= |t.log| && RunnerInv(t.ss[0], 0)
    ensures Grows(t.ss[i], t.ss[n])
    decreases n
  {
    if n > i {
      StepsGrow(t, script, i, n - 1);
      OneStepGrows(t, script, n - 1, t.ss[n]);
      GrowsOn(t.ss[i], t.ss[n - 1], t.ss[n]);
    }
  }

  lemma OneStepGrows(t: Trace, script: seq<Turn>, n: nat, s': State)
    requires IsSteps(t, script) && n < |t.log| && RunnerInv(t.ss[0], 0) && s' == t.ss[n + 1]
    ensures Grows(t.ss[n], s')
  {
    AllStepsKeep(t, script, n);
    assert StepTaken(t.ss[n], t.log[n], script[n], t.ss[n + 1]);
    StepKeeps(t.ss[n], t.log[n], script[n]);
  }

  /** So a task whose deadline has come, once polled, takes a step in the run that follows. */
  lemma DueIsStepped(s: State, t: Trace, script: seq<Turn>)
    requires RunnerInv(s, 0) && IsDue(s) && !s.node[s.next].done
    requires IsSteps(t, script) && t.ss[0] == Act(s, Wake(s.next)) && AllBlocked(t.ss[|t.log|])
    ensures s.next in t.log || (s.next in t.ss[|t.log|].node && t.ss[|t.log|].node[s.next].done)
  {
    ActMeans(s, Wake(s.next), 0);
    ActKeeps(s, Wake(s.next), 0);
    RunnableIsStepped(t, script, 0, s.next);
    assert t.log[0..] == t.log;
  }

  lemma AllRunnableStepped(t: Trace, script: seq<Turn>)
    requires IsSteps(t, script) && RunnerInv(t.ss[0], 0) && AllBlocked(t.ss[|t.log|])
    ensures var s0 := t.ss[0];
            forall x :: x in s0.tasks && x in s0.node && !s0.node[x].blocked ==> x in t.log || x !in Swept(t.ss[|t.log|]).node
  {
    var s0 := t.ss[0];
    forall x | x in s0.tasks && x in s0.node && !s0.node[x].blocked ensures x in t.log || x !in Swept(t.ss[|t.log|]).node {
      RunnableIsStepped(t, script, 0, x);
      assert t.log[0..] == t.log;
      AllStepsKeep(t, script, |t.log|);
    }
  }

  /** With the right task cached, a poll finds one that is due whenever there is one. */
  lemma DueIsFound(s: State, x: Id)
    requires RunnerInv(s, 0) && s.next == Earliest(s.node, s.tasks, 0)
    requires x in s.tasks && Eligible(s.node, x, 0) && TimedOut(s.node[x], s.now)
    ensures s.next in s.tasks && s.next in s.node && s.node[s.next].timeoutTime <= s.now
  {
    EarliestIsMinimal(s.node, s.tasks, 0, x);
  }

  // ---- whole runs ------------------------------------------------------------------------------------

  /** What happens between stable points: outside code acts, a task steps, the finished are deleted. */
  datatype Event = Outside(a: Action) | Stepped(x: Id, turn: Turn) | Cleaned

  ghost function After(s: State, e: Event): State {
    match e
    case Outside(a) => Act(s, a)
    case Stepped(x, turn) => if x in s.tasks && x in s.node then Step(s, x, turn) else s
    case Cleaned => Swept(s)
  }

  function Empty(now: int): State {
    State(map[0 := FreshTask(0)], [], 0, false, 1, now)
  }

  ghost predicate IsRun(ss: seq<State>, es: seq<Event>) {
    |ss| == |es| + 1 && ss[0] == Empty(ss[0].now) && forall i :: 0 <= i < |es| ==> ss[i + 1] == After(ss[i], es[i])
  }

  lemma EmptyIsOk(now: int)
    ensures RunnerInv(Empty(now), 0)
  {
    var s := Empty(now);
    assert KidsOk(s.node, 0, 0) && LinkOk(s.node, 0) && NodeOk(s.node, 0) && RecOk(s, 0, 0);
  }

  ghost predicate LawfulEvent(s: State, e: Event) {
    match e
    case Outside(a) => Lawful(s, a)
    case Stepped(x, turn) => x in s.node ==> LawfulStep(s, x, turn)
    case Cleaned => true
  }

  /** Every call made in the first `n` events is lawful. */
  ghost predicate LawfulRun(ss: seq<State>, es: seq<Event>, n: nat) {
    IsRun(ss, es) && n <= |es| && forall i :: 0 <= i < n ==> LawfulEvent(ss[i], es[i])
  }

  lemma EventKeeps(s: State, e: Event)
    requires RunnerInv(s, 0) && LawfulEvent(s, e)
    ensures RunnerInv(After(s, e), 0)
  {
    match e
    case Outside(a) => ActKeeps(s, a, 0);
    case Stepped(x, turn) => if x in s.tasks { StepKeeps(s, x, turn); }
    case Cleaned => SweepKeeps(s);
  }

  lemma {:induction false} RunKeepsInv(ss: seq<State>, es: seq<Event>, n: nat)
    requires LawfulRun(ss, es, n)
    ensures RunnerInv(ss[n], 0)
  {
    if n == 0 {
      EmptyIsOk(ss[0].now);
    } else {
      RunKeepsInv(ss, es, n - 1);
      assert ss[n - 1 + 1] == After(ss[n - 1], es[n - 1]);
      EventKeeps(ss[n - 1], es[n - 1]);
    }
  }

  /** At every stable point a finished task is blocked, was stopped once, is in no child set, and so is all below it. */
  lemma FinishedForGood(ss: seq<State>, es: seq<Event>, n: nat, t: Id, x: Id)
    requires LawfulRun(ss, es, n) && t in ss[n].node && ss[n].node[t].done && Descends(ss[n].node, t, x)
    ensures var r := ss[n].node[x]; r.done && r.blocked && r.stops == 1 && !r.busy
    ensures forall p :: p in ss[n].node ==> x !in ss[n].node[p].children
  {
    var s := ss[n];
    RunKeepsInv(ss, es, n);
    assert forall y :: y in s.node ==> RecOk(s, 0, y);
    BelowDoneIsDone(s.node, t, x);
    assert NodeOk(s.node, x);
    forall p | p in s.node ensures x !in s.node[p].children { assert KidsOk(s.node, 0, p); }
  }

  /** The cached timeout task is none or one still scheduled, and an unfinished task's parent exists. */
  lemma NothingDangles(ss: seq<State>, es: seq<Event>, n: nat, x: Id)
    requires LawfulRun(ss, es, n) && x in ss[n].node && x != 0 && !ss[n].node[x].done
    ensures ss[n].next == 0 || (ss[n].next in ss[n].tasks && ss[n].next in ss[n].node)
    ensures var p := ss[n].node[x].parent; p in ss[n].node && !ss[n].node[p].done && x in ss[n].node[p].children
  {
    RunKeepsInv(ss, es, n);
    assert LinkOk(ss[n].node, x) && NodeOk(ss[n].node, x) && RecOk(ss[n], 0, x);
  }

  // ---- what unlawful calls lead to -------------------------------------------------------------------------

  lemma IsRunOfFour(ss: seq<State>, es: seq<Event>)
    requires |es| == 4 && |ss| == 5 && ss[0] == Empty(ss[0].now)
    requires ss[1] == After(ss[0], es[0]) && ss[2] == After(ss[1], es[1])
    requires ss[3] == After(ss[2], es[2]) && ss[4] == After(ss[3], es[3])
    ensures IsRun(ss, es)
  {
  }

  /** The runner with task 1, started. */
  lemma OneStarted(now: int) returns (s1: State, s2: State)
    ensures s1 == After(Empty(now), Outside(NewTask(0))) && s2 == After(s1, Outside(Start(1)))
    ensures RunnerInv(s2, 0) && s2.tasks == [1] && 1 in s2.node && s2.nextId == 2
    ensures s2.node[1] == FreshTask(0) && s2.next == 0
  {
    EmptyIsOk(now);
    s1 := After(Empty(now), Outside(NewTask(0)));
    s2 := After(s1, Outside(Start(1)));
    ActKeeps(Empty(now), NewTask(0), 0);
    ActKeeps(s1, Start(1), 0);
  }

  /**
   Start, Start, Abort: one task is listed twice and finished.  The deletion loop deletes it at
   the first index, and at the second looks at an object that is no more.
   */
  lemma SecondStartDangles(now: int) returns (ss: seq<State>, es: seq<Event>)
    ensures IsRun(ss, es) && !LawfulRun(ss, es, |es|)
    ensures var s := ss[|ss| - 1]; s.tasks == [1, 1] && 1 in s.node && s.node[1].done && s.tasks[1] !in s.node - {s.tasks[0]}
  {
    var s1, s2 := OneStarted(now);
    var s3 := After(s2, Outside(Start(1)));
    assert s3 == s2.(tasks := [1, 1]);
    AbortEffect(s2.node, 1);
    var s4 := After(s3, Outside(Abort(1)));
    es := [Outside(NewTask(0)), Outside(Start(1)), Outside(Start(1)), Outside(Abort(1))];
    ss := [Empty(now), s1, s2, s3, s4];
    IsRunOfFour(ss, es);
    assert !LawfulEvent(ss[2], es[2]);
  }

  /** A child given to an aborted parent: it is unfinished below a finished task, and its parent can be deleted. */
  lemma LateChildDangles(now: int) returns (ss: seq<State>, es: seq<Event>)
    ensures IsRun(ss, es) && !LawfulRun(ss, es, |es|)
    ensures var s := ss[|ss| - 1]; 1 in s.node && s.node[1].done && Descends(s.node, 1, 2) && !s.node[2].done
    ensures var s := Swept(ss[|ss| - 1]); 2 in s.node && !s.node[2].done && s.node[2].parent !in s.node
  {
    var s1, s2 := OneStarted(now);
    var s3 := After(s2, Outside(Abort(1)));
    AbortEffect(s2.node, 1);
    var s4 := After(s3, Outside(NewTask(1)));
    es := [Outside(NewTask(0)), Outside(Start(1)), Outside(Abort(1)), Outside(NewTask(1))];
    ss := [Empty(now), s1, s2, s3, s4];
    IsRunOfFour(ss, es);
    assert !LawfulEvent(ss[3], es[3]);
    assert Descends(s4.node, 1, 1) && Descends(s4.node, 1, 2);
  }

  // ---- the runner ------------------------------------------------------------------------------------

  lemma {:induction false} LawfulPrefix(s: State, acts: seq<Action>, i: nat)
    requires i <= |acts| && !AllLawful(s, acts[..i])
    ensures !AllLawful(s, acts)
    decreases |acts| - i
  {
    if i < |acts| {
      assert acts[..i + 1][..i] == acts[..i];
      LawfulPrefix(s, acts, i + 1);
    } else {
      assert acts[..i] == acts;
    }
  }

  lemma MarkKeepsShape(f: Tree, t: Id, r: Rec)
    requires Shape(f, t) && t in f && r.parent == f[t].parent && r.children == f[t].children && r.done
    ensures Shape(f[t := r], t)
  {
    var h := f[t := r];
    forall x | x in h ensures KidsOk(h, t, x) && LinkOk(h, x) { assert KidsOk(f, t, x) && LinkOk(f, x); }
  }

  lemma ShapeFromLater(f: Tree, t: Id, c: Id)
    requires Shape(f, t) && t <= c
    ensures Shape(f, c)
  {
    forall x | x in f ensures KidsOk(f, c, x) && LinkOk(f, x) { assert KidsOk(f, t, x); }
  }

  /** In some state of the runner this turn makes an unlawful call. */
  ghost predicate CanBreak(turn: Turn) {
    exists s, x :: RunnerInv(s, 0) && x in s.node && !LawfulStep(s, x, turn)
  }

  ghost predicate SomeBreak(script: seq<Turn>) {
    exists i :: 0 <= i < |script| && CanBreak(script[i])
  }

  class TaskRunner {
    var node: Tree
    var tasks: seq<Id>
    var nextTimeoutTask: Id
    var tasksRunning: bool
    var uniqueIdSeed: Id
    var now: int

    ghost function Value(): State
      reads this
    {
      State(node, tasks, nextTimeoutTask, tasksRunning, uniqueIdSeed, now)
    }

    /** Between calls nobody is inside Process. */
    ghost predicate Valid()
      reads this
    {
      RunnerInv(Value(), 0) && !tasksRunning
    }

    constructor (start: int)
      ensures Valid() && tasks == [] && now == start
    {
      node := map[0 := FreshTask(0)];
      tasks, nextTimeoutTask, tasksRunning, uniqueIdSeed, now := [], 0, false, 1, start;
      new;
      EmptyIsOk(start);
    }

    /** The recursion goes to later ids, so it ends with the height of the tree. */
    method AbortTask(t: Id)
      requires t in node && t != 0 && Shape(node, t) && forall x :: x in node ==> x < uniqueIdSeed
      modifies this`node
      ensures node == Aborted(old(node), t)
      decreases uniqueIdSeed - t, 2
    {
      if node[t].done { return; }
      node := node[t := node[t].(aborted := true)];
      if !node[t].busy {
        node := node[t := node[t].(done := true, blocked := true, error := true)];
        assert node == old(node)[t := Marked(old(node)[t])];
        MarkKeepsShape(old(node), t, node[t]);
        StopTask(t);
      }
    }

    method StopTask(t: Id)
      requires t in node && Shape(node, t) && node[t].done && forall x :: x in node ==> x < uniqueIdSeed
      modifies this`node
      ensures node == Stopped(old(node), t)
      decreases uniqueIdSeed - t, 1
    {
      node := CountStop(node, t);
      MarkKeepsShape(old(node), t, node[t]);
      AbortAllChildren(t);
      node := ChildStopped(node, t);
    }

    /** A copy of the child set is walked while the set itself shrinks. */
    method AbortAllChildren(t: Id)
      requires t in node && Shape(node, t) && forall x :: x in node ==> x < uniqueIdSeed
      modifies this`node
      ensures node == ChildrenAborted(old(node), t)
      decreases uniqueIdSeed - t, 0
    {
      ghost var f := node;
      var todo := node[t].children;
      ghost var did: set<Id> := {};
      NothingYet(f, t);
      while todo != {}
        invariant did !! todo && did + todo == f[t].children
        invariant node == Part(f, t, did)
        decreases todo
      {
        var c :| c in todo;
        assert KidsOk(f, t, t);
        PartShape(f, t, did);
        ShapeFromLater(node, t, c);
        AbortOneMore(f, t, did, c);
        AbortTask(c);
        did, todo := did + {c}, todo - {c};
      }
      assert did == f[t].children;
    }

    method RecalcNextTimeout(exclude: Id)
      requires 0 !in tasks
      modifies this`nextTimeoutTask
      ensures nextTimeoutTask == Earliest(node, tasks, exclude)
    {
      var soonest := 0;
      nextTimeoutTask := 0;
      for i := 0 to |tasks|
        invariant nextTimeoutTask == Earliest(node, tasks[..i], exclude)
        invariant nextTimeoutTask != 0 ==> nextTimeoutTask in node && soonest == node[nextTimeoutTask].timeoutTime > 0
        invariant nextTimeoutTask == 0 ==> soonest == 0
      {
        assert tasks[..i + 1][..i] == tasks[..i];
        var x := tasks[i];
        if Eligible(node, x, exclude) && (soonest == 0 || node[x].timeoutTime <= soonest) {
          soonest := node[x].timeoutTime;
          nextTimeoutTask := x;
        }
      }
      assert tasks[..|tasks|] == tasks;
    }

    method UpdateTimeout(x: Id)
      requires x in node && 0 !in tasks && (nextTimeoutTask == 0 || nextTimeoutTask in node)
      modifies this`nextTimeoutTask
      ensures Value() == UpdateTaskTimeout(old(Value()), x)
    {
      if node[x].timeoutTime != 0 {
        if nextTimeoutTask == 0 || node[x].timeoutTime <= node[nextTimeoutTask].timeoutTime { nextTimeoutTask := x; }
      } else if nextTimeoutTask == x {
        RecalcNextTimeout(x);
      }
    }

    method ResetDeadline(x: Id)
      requires x in node && 0 !in tasks && (nextTimeoutTask == 0 || nextTimeoutTask in node)
      modifies this`nextTimeoutTask, this`node
      ensures Value() == ResetTimeout(old(Value()), x)
    {
      node := node[x := node[x].(timeoutTime := Deadline(node[x], now))];
      UpdateTimeout(x);
    }

    /** Any call on an object that exists, lawful or not. */
    method Perform(a: Action, ghost b: Id)
      requires RunnerInv(Value(), b)
      modifies this
      ensures Value() == Act(old(Value()), a)
      ensures Exists(old(Value()), a) ==> (RunnerInv(Value(), b) <==> Lawful(old(Value()), a))
      ensures Lawful(old(Value()), a) ==> RunnerInv(Value(), b) && Grows(old(Value()), Value())
      ensures Exists(old(Value()), a) ==> CallMeans(old(Value()), a, Value())
      ensures !Exists(old(Value()), a) ==> Value() == old(Value())
    {
      CallIsMeant(Value(), a, b);
      Carry(a, b);
    }

    method Carry(a: Action, ghost b: Id)
      requires RunnerInv(Value(), b)
      modifies this
      ensures Value() == Act(old(Value()), a)
    {
      if !Exists(State(node, tasks, nextTimeoutTask, tasksRunning, uniqueIdSeed, now), a) { return; }
      if a.SetTimeout? || a.ClearTimeout? || a.Suspend? || a.Resume? {
        ChangeTimeout(a);
        return;
      }
      match a {
        case NewTask(p) =>
          node := Attached(node, p, uniqueIdSeed);
          uniqueIdSeed := uniqueIdSeed + 1;
        case Start(x) => if node[x].state == STATE_INIT { tasks := tasks + [x]; UpdateTimeout(x); }
        case Abort(x) =>
          ShapeFromLater(node, 0, x);
          assert forall y :: y in node ==> RecOk(Value(), b, y);
          AbortTask(x);
        case Wake(x) => node := node[x := Woken(node[x])];
        case Error(x) => if !node[x].error && !node[x].done { node := node[x := Woken(node[x].(error := true))]; }
        case Tick(time) => now := time;
      }
    }

    method ChangeTimeout(a: Action)
      requires a.SetTimeout? || a.ClearTimeout? || a.Suspend? || a.Resume?
      requires Exists(Value(), a) && 0 !in tasks && (nextTimeoutTask == 0 || nextTimeoutTask in node)
      modifies this`node, this`nextTimeoutTask
      ensures Value() == Act(old(Value()), a)
    {
      match a {
        case SetTimeout(x, seconds) =>
          node := node[x := node[x].(timeoutSeconds := seconds)];
          ResetDeadline(x);
        case ClearTimeout(x) =>
          node := node[x := node[x].(timeoutTime := 0)];
          UpdateTimeout(x);
        case Suspend(x) =>
          if !node[x].suspended { node := node[x := node[x].(suspended := true)]; ResetDeadline(x); }
        case Resume(x) =>
          if node[x].suspended { node := node[x := node[x].(suspended := false)]; ResetDeadline(x); }
      }
    }

    /** The body of Process, which is somebody else's, up to the first call that is not lawful. */
    method Process(acts: seq<Action>, ghost b: Id) returns (lawful: bool)
      requires RunnerInv(Value(), b)
      modifies this
      ensures lawful <==> AllLawful(old(Value()), acts)
      ensures lawful ==> Value() == Acts(old(Value()), acts)
    {
      ghost var s := Value();
      for i := 0 to |acts|
        invariant AllLawful(s, acts[..i]) && Value() == Acts(s, acts[..i]) && RunnerInv(Value(), b)
      {
        assert acts[..i + 1][..i] == acts[..i];
        if !Lawful(State(node, tasks, nextTimeoutTask, tasksRunning, uniqueIdSeed, now), acts[i]) {
          LawfulPrefix(s, acts, i + 1);
          return false;
        }
        Perform(acts[i], b);
      }
      assert acts[..|acts|] == acts;
      return true;
    }

    /** A step whose Process makes an unlawful call has no promised outcome. */
    method StepTask(x: Id, turn: Turn) returns (lawful: bool)
      requires RunnerInv(Value(), 0) && x in tasks
      modifies this
      ensures x in old(node) && (lawful <==> LawfulStep(old(Value()), x, turn))
      ensures lawful ==> Value() == Step(old(Value()), x, turn)
      ensures lawful ==> RunnerInv(Value(), 0) && Grows(old(Value()), Value())
    {
      ShapeFromLater(node, 0, x);
      assert forall y :: y in node ==> RecOk(Value(), 0, y);
      if LawfulStep(Value(), x, turn) { StepKeeps(Value(), x, turn); }
      if node[x].done {
        node := node[x := node[x].(blocked := true)];
        return true;
      }
      if node[x].error {
        node := node[x := node[x].(done := true, state := STATE_ERROR, blocked := true)];
        MarkKeepsShape(old(node), x, node[x]);
        StopTask(x);
        return true;
      }
      lawful := ProcessTask(x, turn);
    }

    method ProcessTask(x: Id, turn: Turn) returns (lawful: bool)
      requires RunnerInv(Value(), 0) && x in tasks && x in node && !node[x].done && !node[x].error
      modifies this
      ensures lawful <==> LawfulStep(old(Value()), x, turn)
      ensures lawful ==> Value() == Step(old(Value()), x, turn)
    {
      BusyKeeps(Value(), x);
      node := node[x := node[x].(busy := true)];
      lawful := Process(turn.acts, x);
      if lawful {
        ProcessKeeps(old(Value()), x, turn);
        Returned(x, turn.newState);
      }
    }

    /** Step from the return of Process on. */
    method Returned(x: Id, newState: int)
      requires RunnerInv(Value(), x) && x in tasks && x in node
      modifies this
      ensures Value() == AfterProcess(old(Value()), x, newState)
    {
      assert forall y :: y in node ==> RecOk(Value(), x, y);
      ShapeFromLater(node, 0, x);
      node := node[x := node[x].(busy := false)];
      if node[x].aborted {
        BusyKeepsShape(old(node), x, node[x]);
        AbortTask(x);
        return;
      }
      if newState == STATE_BLOCKED {
        node := node[x := node[x].(blocked := true)];
        return;
      }
      BusyKeepsShape(old(node), x, node[x]);
      MoveTask(x, newState);
    }

    method MoveTask(x: Id, newState: int)
      requires x in node && 0 !in tasks && (nextTimeoutTask == 0 || nextTimeoutTask in node)
      requires Shape(node, x) && forall y :: y in node ==> y < uniqueIdSeed
      modifies this`node, this`nextTimeoutTask
      ensures Value() == Moved(old(Value()), x, newState)
    {
      node := node[x := node[x].(state := newState, blocked := false)];
      ResetDeadline(x);
      if newState == STATE_DONE || newState == STATE_ERROR {
        assert node == old(node)[x := node[x]];
        DoneKeepsShape(old(node), x, node[x]);
        FinishTask(x, newState == STATE_ERROR);
      }
    }

    method FinishTask(x: Id, withError: bool)
      requires x in node && Shape(node[x := node[x].(done := true)], x) && forall y :: y in node ==> y < uniqueIdSeed
      modifies this`node
      ensures Value() == Finish(old(Value()), x, withError)
    {
      ghost var f := node[x := node[x].(done := true)];
      node := node[x := node[x].(done := true, error := node[x].error || withError)];
      MarkKeepsShape(f, x, node[x]);
      assert node == f[x := node[x]];
      StopTask(x);
      node := node[x := node[x].(blocked := true)];
    }

    method DeleteDone()
      requires RunnerInv(Value(), 0)
      modifies this`node, this`tasks, this`nextTimeoutTask
      ensures Value() == Swept(old(Value()))
    {
      ghost var s := Value();
      var recalc := false;
      for i := 0 to |tasks|
        invariant Deleting(s, node, tasks, nextTimeoutTask, i) && |tasks| == |s.tasks|
        invariant recalc == NextDeleted(s, i)
      {
        DeletingStep(s, node, tasks, nextTimeoutTask, i);
        NextDeletedStep(s, i);
        var task := tasks[i];
        if node[task].done {
          if nextTimeoutTask != 0 && task == nextTimeoutTask {
            nextTimeoutTask := 0;
            recalc := true;
          }
          node := node - {task};
          tasks := tasks[i := 0];
        }
      }
      DeletingEnds(s, node, tasks, nextTimeoutTask);
      tasks := NonNull(tasks);
      if recalc { RecalcNextTimeout(0); }
    }

    /** The innermost loop: one task until it is blocked, the script ends, or a call is not lawful. */
    method RunOne(x: Id, script: seq<Turn>, turns: seq<Turn>, ghost t: Trace)
      returns (ended: bool, lawful: bool, rest: seq<Turn>, ghost t': Trace)
      requires RunnerInv(Value(), 0) && x in tasks && Follows(t, script, turns, Value())
      modifies this
      ensures |rest| <= |turns| && (|rest| == |turns| ==> lawful && Value() == old(Value()))
      ensures lawful ==> RunnerInv(Value(), 0) && Grows(old(Value()), Value()) && Follows(t', script, rest, Value())
      ensures t.ss <= t'.ss && t.log <= t'.log && IsRest(script, rest)
      ensures lawful && !ended ==> x in node && node[x].blocked
      ensures ended ==> lawful && rest == [] && x in tasks && x in node && !node[x].blocked
      ensures x in old(node) && old(node[x].blocked) ==> rest == turns && !ended
      ensures !lawful ==> SomeBreak(script)
    {
      rest, t', ended, lawful := turns, t, false, true;
      while !node[x].blocked
        invariant RunnerInv(Value(), 0) && Grows(old(Value()), Value()) && x in tasks && lawful && !ended
        invariant Follows(t', script, rest, Value()) && t.ss <= t'.ss && t.log <= t'.log
        invariant |rest| <= |turns| && (|rest| == |turns| ==> rest == turns && Value() == old(Value()))
        invariant x in old(node) && old(node[x].blocked) ==> rest == turns
        decreases |rest|
      {
        if rest == [] { return true, true, rest, t'; }
        ghost var s := Value();
        assert script[|script| - |rest|] == rest[0];
        lawful := StepTask(x, rest[0]);
        if !lawful {
          assert CanBreak(script[|script| - |rest|]);
          rest := rest[1..];
          return;
        }
        TraceOn(t', script, rest, s, x, Value());
        t' := Trace(t'.ss + [Value()], t'.log + [x]);
        rest := rest[1..];
        GrowsOn(old(Value()), s, Value());
      }
    }

    /** One pass over the list, which may grow meanwhile. */
    method RunRound(script: seq<Turn>, turns: seq<Turn>, ghost t: Trace)
      returns (didRun: bool, ended: bool, lawful: bool, rest: seq<Turn>, ghost t': Trace)
      requires RunnerInv(Value(), 0) && Follows(t, script, turns, Value())
      modifies this
      ensures lawful ==> RunnerInv(Value(), 0) && Follows(t', script, rest, Value()) && tasksRunning == old(tasksRunning)
      ensures t.ss <= t'.ss
      ensures ended ==> lawful && rest == [] && !AllBlocked(Value())
      ensures lawful && !ended ==> if didRun then |rest| < |turns| else rest == turns && AllBlocked(Value())
      ensures AllBlocked(old(Value())) ==> lawful && !ended && Value() == old(Value())
      ensures !lawful ==> SomeBreak(script)
    {
      didRun, ended, lawful, rest, t' := false, false, true, turns, t;
      var i := 0;
      while i < |tasks|
        invariant RunnerInv(Value(), 0) && tasksRunning == old(tasksRunning) && lawful && !ended && i <= |tasks|
        invariant Follows(t', script, rest, Value()) && t.ss <= t'.ss
        invariant if didRun then |rest| < |turns| else rest == turns
        invariant !didRun ==> forall k :: 0 <= k < i ==> tasks[k] in node && node[tasks[k]].blocked
        invariant AllBlocked(old(Value())) ==> Value() == old(Value())
        decreases |rest|, |tasks| - i
      {
        var left := |rest|;
        ended, lawful, rest, t' := RunOne(tasks[i], script, rest, t');
        if ended || !lawful { return; }
        didRun := didRun || |rest| < left;
        i := i + 1;
      }
    }

    /**
     Runs tasks until all are blocked, then deletes the finished ones.  Each Step takes
     one turn of the script, which a Step that does not reach Process leaves unused; a
     script that is too short leaves the run unsettled, and an unlawful call ends it.
     The trace has every step: nobody steps while blocked, and who could run at the
     start has stepped, or was finished by another, when the run settles.
     */
    method InternalRunTasks(script: seq<Turn>) returns (settled: bool, lawful: bool, rest: seq<Turn>, ghost t: Trace)
      requires !tasksRunning ==> Valid()
      modifies this
      ensures old(tasksRunning) ==> !settled && lawful && rest == script && Value() == old(Value())
      ensures !old(tasksRunning) ==> |t.ss| > 0 && t.ss[0] == old(Value()).(running := true)
      ensures !old(tasksRunning) && lawful && !settled ==> rest == [] && !AllBlocked(Value()) && Follows(t, script, [], Value())
      ensures !old(tasksRunning) && lawful ==> RunnerInv(Value(), 0)
      ensures !lawful ==> !settled && SomeBreak(script)
      ensures settled ==> Valid() && Settled(Value())
      ensures settled ==> Follows(t, script, rest, t.ss[|t.ss| - 1]) && Value() == Swept(t.ss[|t.ss| - 1]).(running := false)
      ensures settled ==> forall x :: x in old(tasks) && x in old(node) && !old(node)[x].blocked ==> x in t.log || x !in node
      ensures !old(tasksRunning) && AllBlocked(old(Value())) ==> settled && Value() == Swept(old(Value()))
    {
      rest, settled, lawful := script, false, true;
      t := Trace([old(Value()).(running := true)], []);
      if tasksRunning { return; }
      tasksRunning := true;
      RunningKeeps(old(Value()), true);
      ghost var s0 := Value();
      var didRun := true;
      while didRun
        invariant RunnerInv(Value(), 0) && tasksRunning && lawful && Follows(t, script, rest, Value()) && t.ss[0] == s0
        invariant AllBlocked(s0) ==> Value() == s0
        invariant !didRun ==> AllBlocked(Value())
        decreases |rest|, didRun
      {
        var ended;
        didRun, ended, lawful, rest, t := RunRound(script, rest, t);
        if ended || !lawful { return; }
      }
      SweepKeeps(Value());
      SweepSettles(Value());
      AllRunnableStepped(t, script);
      DeleteDone();
      RunningKeeps(Value(), false);
      tasksRunning := false;
      settled := true;
    }

    /** Whoever holds the earliest deadline is woken when it has come; the second look of the loop finds the same task. */
    method PollTasks()
      requires RunnerInv(Value(), 0)
      modifies this`node
      ensures RunnerInv(Value(), 0)
      ensures if IsDue(old(Value()))
              then var x := nextTimeoutTask;
                   OthersSame(old(node), node, x) && node[x] == old(node)[x].(blocked := old(node)[x].done)
              else node == old(node)
    {
      var last := 0;
      ghost var s := Value();
      assert nextTimeoutTask in node ==> RecOk(s, 0, nextTimeoutTask);
      if nextTimeoutTask != 0 { FlagActKeeps(s, Wake(nextTimeoutTask), 0); }
      while nextTimeoutTask != 0 && last != nextTimeoutTask && TimedOut(node[nextTimeoutTask], now)
        invariant if last == 0 then Value() == s else last == nextTimeoutTask && IsDue(s) && Value() == Act(s, Wake(last))
        decreases if last == 0 then 1 else 0
      {
        last := nextTimeoutTask;
        node := node[last := Woken(node[last])];
      }
    }

    /** The destructor: every started task is aborted and deleted, and none takes another step. */
    method Shutdown()
      requires Valid()
      modifies this
      ensures Valid() && tasks == [] && nextTimeoutTask == 0
    {
      assert forall y :: y in node ==> RecOk(Value(), 0, y);
      RootAbortKeeps(Value());
      AbortAllChildren(0);
      NoneLive(node, tasks);
      var settled, lawful, rest, _ := InternalRunTasks([]);
    }
  }

  function NonNull(tasks: seq<Id>): seq<Id>
    decreases |tasks|
  {
    if tasks == [] then []
    else
      var n := |tasks| - 1;
      if tasks[n] == 0 then NonNull(tasks[..n]) else NonNull(tasks[..n]) + [tasks[n]]
  }

  /** The deletion loop at index `i`, started on `s`. */
  ghost predicate Deleting(s: State, node: Tree, tasks: seq<Id>, next: Id, i: nat) {
    && i <= |s.tasks| == |tasks| && tasks[i..] == s.tasks[i..]
    && NonNull(tasks[..i]) == Live(s.node, s.tasks[..i])
    && node == (map x | x in s.node && !(x in s.tasks[..i] && s.node[x].done) :: s.node[x])
    && next == (if NextDeleted(s, i) then 0 else s.next)
  }

  ghost predicate NextDeleted(s: State, i: nat)
    requires i <= |s.tasks|
  {
    s.next in s.tasks[..i] && s.next in s.node && s.node[s.next].done
  }

  lemma NextDeletedStep(s: State, i: nat)
    requires i < |s.tasks| && TasksOk(s)
    ensures NextDeleted(s, i + 1) <==> NextDeleted(s, i) || (s.next == s.tasks[i] && s.node[s.next].done)
  {
    assert s.tasks[..i + 1] == s.tasks[..i] + [s.tasks[i]];
  }

  lemma DeletingEnds(s: State, node: Tree, tasks: seq<Id>, next: Id)
    requires Deleting(s, node, tasks, next, |s.tasks|) && TasksOk(s) && (0 in s.node ==> !s.node[0].done)
    ensures node == Swept(s).node && NonNull(tasks) == Swept(s).tasks && 0 !in NonNull(tasks)
    ensures Swept(s).next == if NextDeleted(s, |s.tasks|) then Earliest(node, NonNull(tasks), 0) else next
  {
    assert s.tasks[..|s.tasks|] == s.tasks && tasks[..|s.tasks|] == tasks;
    LiveIsExact(s.node, s.tasks);
  }

  lemma DeletingStep(s: State, node: Tree, tasks: seq<Id>, next: Id, i: nat)
    requires Deleting(s, node, tasks, next, i) && i < |tasks| && TasksOk(s)
    ensures tasks[i] in node && node[tasks[i]] == s.node[tasks[i]] && tasks[i] == s.tasks[i] != 0
    ensures !node[tasks[i]].done ==> Deleting(s, node, tasks, next, i + 1)
    ensures node[tasks[i]].done ==>
              Deleting(s, node - {tasks[i]}, tasks[i := 0], if next == tasks[i] then 0 else next, i + 1)
  {
    var x := s.tasks[i];
    assert tasks[i] == tasks[i..][0] == s.tasks[i..][0] == x;
    NextDeletedStep(s, i);
    assert s.tasks[..i + 1] == s.tasks[..i] + [x];
    assert s.tasks[..i + 1][..i] == s.tasks[..i];
    assert x !in s.tasks[..i];
    assert tasks[..i + 1][..i] == tasks[..i] && tasks[i := 0][..i + 1][..i] == tasks[..i];
    assert tasks[i + 1..] == tasks[i..][1..] && s.tasks[i + 1..] == s.tasks[i..][1..];
    assert tasks[i := 0][i + 1..] == tasks[i + 1..];
  }

  // ---- the end of the runner -----------------------------------------------------------------------------

  /** With nobody busy, aborting the runner's children reaches every unfinished task. */
  lemma {:induction false} RootReachesAll(f: Tree, x: Id)
    requires TreeInv(f) && x in f && x != 0 && !f[x].done && forall y :: y in f ==> !f[y].busy
    ensures Falls(f, 0, f[0].children, x)
    decreases x
  {
    assert LinkOk(f, x) && NodeOk(f, x);
    if f[x].parent != 0 { RootReachesAll(f, f[x].parent); }
  }

  lemma RootAbortKeeps(s: State)
    requires RunnerInv(s, 0)
    ensures var s' := s.(node := ChildrenAborted(s.node, 0));
            RunnerInv(s', 0) && forall x :: x in s'.node && x != 0 ==> s'.node[x].done && s'.node[x].blocked
  {
    var f := s.node;
    var h := ChildrenAborted(f, 0);
    var s' := s.(node := h);
    PartShape(f, 0, f[0].children);
    assert forall y :: y in f ==> RecOk(s, 0, y);
    forall x | x in h && x != 0 ensures h[x].done && NodeOk(h, x) && RecOk(s', 0, x) {
      assert RecOk(s, 0, x) && NodeOk(f, x);
      if !f[x].done { RootReachesAll(f, x); }
    }
    FallsAbove(f, 0, f[0].children, 0);
    assert NodeOk(f, 0) && RecOk(s, 0, 0);
    assert NodeOk(h, 0) && RecOk(s', 0, 0);
  }

  lemma DoneKeepsShape(f: Tree, t: Id, r: Rec)
    requires Shape(f, t) && t in f && r.parent == f[t].parent && r.children == f[t].children
    ensures Shape(f[t := r][t := r.(done := true)], t)
  {
    assert f[t := r][t := r.(done := true)] == f[t := r.(done := true)];
    MarkKeepsShape(f, t, r.(done := true));
  }

  lemma BusyKeepsShape(f: Tree, t: Id, r: Rec)
    requires Shape(f, t) && t in f && r == f[t].(busy := r.busy)
    ensures Shape(f[t := r], t)
  {
    var h := f[t := r];
    forall x | x in h ensures KidsOk(h, t, x) && LinkOk(h, x) { assert KidsOk(f, t, x) && LinkOk(f, x); }
  }

  lemma NothingYet(f: Tree, t: Id)
    ensures Part(f, t, {}) == f
  {
    forall x | x in f ensures PartAt(f, t, {}, x) == f[x] {
      NothingFalls(f, t, x);
      if f[x].parent < x { NothingFalls(f, t, f[x].parent); }
      assert (f[x].children - {}) + BusyOf(f, f[x].children) == f[x].children;
    }
  }

  lemma {:induction false} NothingFalls(f: Tree, t: Id, x: Id)
    ensures !Falls(f, t, {}, x)
    decreases x
  {
    if x in f && f[x].parent < x && f[x].parent != t { NothingFalls(f, t, f[x].parent); }
  }
}
