/**
 base/physicalsocketserver.cc: the dispatcher list and the dispatch loop that
 registers its index and its end in `iterators_`, so that Remove can adjust them
 while the loop is running.  Handlers are foreign code: a script says which
 dispatchers each handler adds and removes, and whether it runs a dispatch loop of
 its own.
 */
module DispatcherList {
  import opened Collections

  type Dispatcher = nat

  /** The list and the registered indices of all running loops. */
  datatype Registry = Registry(ds: seq<Dispatcher>, its: seq<nat>)

  datatype Change = Added(d: Dispatcher) | Removed(d: Dispatcher)

  /** std::find: the index of `d`, or the length. */
  function IndexOf(ds: seq<Dispatcher>, d: Dispatcher): (k: nat)
    ensures k <= |ds| && (k < |ds| ==> ds[k] == d) && (k == |ds| <==> d !in ds)
    ensures forall j :: 0 <= j < k ==> ds[j] != d
  {
    if ds == [] || ds[0] == d then 0 else 1 + IndexOf(ds[1..], d)
  }

  function AdjustOne(it: nat, k: nat): nat {
    if k < it then it - 1 else it
  }

  function Adjust(its: seq<nat>, k: nat): seq<nat> {
    seq(|its|, i requires 0 <= i < |its| => AdjustOne(its[i], k))
  }

  /** Add refuses duplicates; removing an absent dispatcher is an assertion failure, here no change. */
  function Apply(r: Registry, c: Change): Registry {
    match c
    case Added(d) => if d in r.ds then r else r.(ds := r.ds + [d])
    case Removed(d) =>
      var k := IndexOf(r.ds, d);
      if k == |r.ds| then r else Registry(Without(r.ds, k), Adjust(r.its, k))
  }

  /** Whatever else is in the list stays there, in its order. */
  lemma ApplyMeans(r: Registry, c: Change)
    requires Distinct(r.ds)
    ensures forall d :: d in Apply(r, c).ds <==> if d == c.d then c.Added? else d in r.ds
    ensures Distinct(Apply(r, c).ds) && |Apply(r, c).its| == |r.its|
    ensures c.Added? ==> r.ds <= Apply(r, c).ds && Apply(r, c).its == r.its
    ensures c.Removed? && c.d in r.ds ==>
              exists k :: 0 <= k < |r.ds| && r.ds[k] == c.d && Apply(r, c).ds == r.ds[..k] + r.ds[k + 1..]
  {
    if c.Removed? && c.d in r.ds { WithoutMeans(r.ds, IndexOf(r.ds, c.d)); }
  }

  lemma WithoutMeans(ds: seq<Dispatcher>, k: nat)
    requires Distinct(ds) && k < |ds|
    ensures Distinct(Without(ds, k)) && forall d :: d in Without(ds, k) <==> d in ds && d != ds[k]
  {
    forall d | d != ds[k] && d in ds ensures d in Without(ds, k) {
      var j :| 0 <= j < |ds| && ds[j] == d;
      assert Without(ds, k)[if j < k then j else j - 1] == d;
    }
  }

  function Replay(r: Registry, cs: seq<Change>): Registry
    decreases |cs|
  {
    if cs == [] then r else Replay(Apply(r, cs[0]), cs[1..])
  }

  lemma {:induction false} ReplayConcat(r: Registry, a: seq<Change>, b: seq<Change>)
    ensures Replay(r, a + b) == Replay(Replay(r, a), b)
    decreases |a|
  {
    if a == [] {
      assert a + b == b;
    } else {
      assert (a + b)[1..] == a[1..] + b;
      ReplayConcat(Apply(r, a[0]), a[1..], b);
    }
  }

  /** What happens to the outer loops' indices does not depend on the inner loops' being registered. */
  lemma {:induction false} ReplayOuter(r: Registry, its: seq<nat>, more: seq<nat>, cs: seq<Change>)
    requires r.its == its + more
    ensures Replay(r, cs).ds == Replay(Registry(r.ds, its), cs).ds
    ensures |Replay(r, cs).its| == |its| + |more|
    ensures |Replay(Registry(r.ds, its), cs).its| == |its|
    ensures Replay(r, cs).its[..|its|] == Replay(Registry(r.ds, its), cs).its
    decreases |cs|
  {
    if cs != [] {
      var r' := Apply(r, cs[0]);
      var o' := Apply(Registry(r.ds, its), cs[0]);
      assert r'.its == o'.its + r'.its[|its|..];
      ReplayOuter(r', o'.its, r'.its[|its|..], cs[1..]);
    }
  }

  // ---- the invariant of one running loop --------------------------------------------------

  /**
   A loop with index `i` and end `end` that started on `first`: the cells from `i` up
   to `end` are the dispatchers still to be visited, all of them from `first`, and
   every dispatcher of `first` that was never removed is visited or among them.
   */
  ghost predicate Running(ds: seq<Dispatcher>, i: nat, end: nat, first: seq<Dispatcher>,
                          visited: seq<Dispatcher>, removed: set<Dispatcher>)
  {
    && i <= end <= |ds| && Distinct(ds) && Distinct(visited)
    && (forall j :: 0 <= j < |visited| ==> visited[j] in first)
    && (forall j :: i <= j < end ==> ds[j] in first && ds[j] !in visited)
    && (forall d :: d in first && d !in removed ==> d in visited || d in ds[i..end])
  }

  ghost function RemovedIn(cs: seq<Change>): set<Dispatcher> {
    set c | c in cs && c.Removed? :: c.d
  }

  lemma AddKeeps(ds: seq<Dispatcher>, i: nat, end: nat, first: seq<Dispatcher>,
                 visited: seq<Dispatcher>, removed: set<Dispatcher>, d: Dispatcher)
    requires Running(ds, i, end, first, visited, removed) && d !in ds
    ensures Running(ds + [d], i, end, first, visited, removed)
  {
    assert (ds + [d])[i..end] == ds[i..end];
  }

  /** Removing a cell shifts the loop's window with the list, wherever the cell was. */
  lemma RemoveKeeps(ds: seq<Dispatcher>, i: nat, end: nat, first: seq<Dispatcher>,
                    visited: seq<Dispatcher>, removed: set<Dispatcher>, k: nat)
    requires Running(ds, i, end, first, visited, removed) && k < |ds|
    ensures Running(Without(ds, k), AdjustOne(i, k), AdjustOne(end, k), first, visited, removed + {ds[k]})
  {
    var ds' := Without(ds, k);
    var i', end' := AdjustOne(i, k), AdjustOne(end, k);
    assert forall j :: 0 <= j < |ds'| ==> ds'[j] == if j < k then ds[j] else ds[j + 1];
    forall d | d in first && d !in removed && d != ds[k] && d !in visited ensures d in ds'[i'..end'] {
      StillAhead(ds, i, end, k, d);
    }
  }

  lemma StillAhead(ds: seq<Dispatcher>, i: nat, end: nat, k: nat, d: Dispatcher)
    requires i <= end <= |ds| && k < |ds| && d in ds[i..end] && d != ds[k]
    ensures AdjustOne(i, k) <= AdjustOne(end, k) <= |ds| - 1 && d in Without(ds, k)[AdjustOne(i, k)..AdjustOne(end, k)]
  {
    var j :| i <= j < end && ds[j] == d;
    var j' := if j < k then j else j - 1;
    assert Without(ds, k)[j'] == d;
    assert Without(ds, k)[AdjustOne(i, k)..AdjustOne(end, k)][j' - AdjustOne(i, k)] == d;
  }

  lemma VisitKeeps(ds: seq<Dispatcher>, i: nat, end: nat, first: seq<Dispatcher>,
                   visited: seq<Dispatcher>, removed: set<Dispatcher>)
    requires Running(ds, i, end, first, visited, removed) && i < end
    ensures Running(ds, i + 1, end, first, visited + [ds[i]], removed)
  {
    assert ds[i..end] == [ds[i]] + ds[i + 1..end];
  }

  lemma {:induction false} ReplayKeeps(r: Registry, p: nat, first: seq<Dispatcher>,
                                       visited: seq<Dispatcher>, removed: set<Dispatcher>, cs: seq<Change>)
    requires p + 1 < |r.its| && Running(r.ds, r.its[p], r.its[p + 1], first, visited, removed)
    ensures var r' := Replay(r, cs);
            && |r'.its| == |r.its|
            && Running(r'.ds, r'.its[p], r'.its[p + 1], first, visited, removed + RemovedIn(cs))
            && r'.its[p + 1] - r'.its[p] <= r.its[p + 1] - r.its[p]
    decreases |cs|
  {
    if cs == [] {
      assert removed + RemovedIn(cs) == removed;
    } else {
      var r', removed' := Apply(r, cs[0]), removed;
      match cs[0] {
        case Added(d) =>
          if d !in r.ds {
            AddKeeps(r.ds, r.its[p], r.its[p + 1], first, visited, removed, d);
          }
        case Removed(d) =>
          var k := IndexOf(r.ds, d);
          if k < |r.ds| {
            RemoveKeeps(r.ds, r.its[p], r.its[p + 1], first, visited, removed, k);
          }
          removed' := removed + {d};
      }
      ReplayKeeps(r', p, first, visited, removed', cs[1..]);
      assert removed' + RemovedIn(cs[1..]) == removed + RemovedIn(cs) by {
        assert forall c :: c in cs <==> c == cs[0] || c in cs[1..];
      }
    }
  }

  // ---- the server ------------------------------------------------------------------------------

  /** What a handler does, in order.  `Loop` is a nested Wait, with the scripts of the handlers it calls. */
  datatype Act = DoAdd(d: Dispatcher) | DoRemove(d: Dispatcher) | Loop(handlers: seq<Handler>)

  datatype Handler = Handler(acts: seq<Act>)

  class PhysicalSocketServer {
    var dispatchers: seq<Dispatcher>
    var iterators: seq<nat>

    ghost function State(): Registry
      reads this
    {
      Registry(dispatchers, iterators)
    }

    constructor ()
      ensures State() == Registry([], [])
    {
      dispatchers, iterators := [], [];
    }

    method Add(d: Dispatcher)
      modifies this
      ensures State() == Apply(old(State()), Added(d))
    {
      var pos := IndexOf(dispatchers, d);
      if pos != |dispatchers| {
        return;
      }
      dispatchers := dispatchers + [d];
    }

    method Remove(d: Dispatcher)
      requires d in dispatchers
      modifies this
      ensures State() == Apply(old(State()), Removed(d))
    {
      var index := IndexOf(dispatchers, d);
      dispatchers := dispatchers[..index] + dispatchers[index + 1..];
      for p := 0 to |iterators|
        invariant dispatchers == Without(old(dispatchers), index) && |iterators| == |old(iterators)|
        invariant forall q :: 0 <= q < |iterators| ==>
          iterators[q] == if q < p then AdjustOne(old(iterators)[q], index) else old(iterators)[q]
      {
        if index < iterators[p] {
          iterators := iterators[p := iterators[p] - 1];
        }
      }
      assert iterators == Adjust(old(iterators), index);
    }

    /** A handler runs its script; `cs` are the changes it made, nested loops included. */
    method RunHandler(h: Handler) returns (ghost cs: seq<Change>)
      requires Distinct(dispatchers)
      modifies this
      ensures State() == Replay(old(State()), cs) && Distinct(dispatchers)
      decreases h
    {
      cs := [];
      for k := 0 to |h.acts|
        invariant State() == Replay(old(State()), cs) && Distinct(dispatchers)
      {
        ghost var made: seq<Change> := [];
        match h.acts[k] {
          case DoAdd(d) =>
            DistinctApply(State(), Added(d));
            made := [Added(d)];
            ReplayOne(State(), Added(d));
            Add(d);
          case DoRemove(d) =>
            if d in dispatchers {
              DistinctApply(State(), Removed(d));
              made := [Removed(d)];
              ReplayOne(State(), Removed(d));
              Remove(d);
            }
          case Loop(handlers) =>
            var visited;
            visited, made := Dispatch(handlers);
        }
        ReplayConcat(old(State()), cs, made);
        cs := cs + made;
      }
    }

    /**
     The dispatch loop.  Whatever the handlers do, every dispatcher present at the
     start and never removed is visited, none twice, and none that was added later.
     */
    method Dispatch(handlers: seq<Handler>) returns (visited: seq<Dispatcher>, ghost cs: seq<Change>)
      requires Distinct(dispatchers)
      modifies this
      ensures State() == Replay(old(State()), cs) && Distinct(dispatchers)
      ensures Distinct(visited) && forall d :: d in visited ==> d in old(dispatchers)
      ensures forall d :: d in old(dispatchers) && Removed(d) !in cs ==> d in visited
      decreases handlers
    {
      ghost var first, outer := dispatchers, iterators;
      var p := |iterators|;
      iterators := iterators + [0, |dispatchers|];
      visited, cs := [], [];
      var k := 0;
      assert dispatchers[0..|dispatchers|] == dispatchers;
      while iterators[p] < iterators[p + 1]
        invariant |iterators| == p + 2
        invariant Running(dispatchers, iterators[p], iterators[p + 1], first, visited, RemovedIn(cs))
        invariant dispatchers == Replay(old(State()), cs).ds
        invariant iterators[..p] == Replay(old(State()), cs).its
        decreases iterators[p + 1] - iterators[p]
      {
        VisitKeeps(dispatchers, iterators[p], iterators[p + 1], first, visited, RemovedIn(cs));
        visited := visited + [dispatchers[iterators[p]]];
        iterators := iterators[p := iterators[p] + 1];
        if k < |handlers| {
          ghost var r := State();
          ghost var made := RunHandler(handlers[k]);
          k := k + 1;
          HandlerKeeps(old(State()), cs, r, p, first, visited, made);
          cs := cs + made;
        }
      }
      iterators := iterators[..p];
      forall d | d in first && Removed(d) !in cs ensures d in visited {
        assert d !in RemovedIn(cs);
      }
    }

    /** A handler of the POSIX loop; the removal of an absent dispatcher is an assertion failure, here no change. */
    method MakeChanges(cs: seq<Change>)
      modifies this
      ensures State() == Replay(old(State()), cs)
    {
      for k := 0 to |cs|
        invariant State() == Replay(old(State()), cs[..k])
      {
        ReplayConcat(old(State()), cs[..k], [cs[k]]);
        ReplayOne(State(), cs[k]);
        assert cs[..k + 1] == cs[..k] + [cs[k]];
        match cs[k] {
          case Added(d) => Add(d);
          case Removed(d) => if d in dispatchers { Remove(d); }
        }
      }
      assert cs[..|cs|] == cs;
    }

    /** The dispatch loop of the POSIX Wait: a plain index against the current size. */
    method DispatchPosix(scripts: seq<seq<Change>>) returns (visited: seq<Dispatcher>)
      modifies this
      ensures visited == PosixVisits(old(dispatchers), 0, scripts)
      ensures dispatchers == PosixEnd(old(dispatchers), 0, scripts)
    {
      visited := [];
      var i, k := 0, 0;
      assert scripts[0..] == scripts;
      while i < |dispatchers|
        invariant k <= |scripts|
        invariant visited + PosixVisits(dispatchers, i, scripts[k..]) == PosixVisits(old(dispatchers), 0, scripts)
        invariant PosixEnd(dispatchers, i, scripts[k..]) == PosixEnd(old(dispatchers), 0, scripts)
        decreases |scripts| - k, |dispatchers| - i
      {
        PosixOne(dispatchers, i, scripts[k..]);
        visited := visited + [dispatchers[i]];
        if k < |scripts| {
          ReplayOuter(State(), [], iterators, scripts[k]);
          MakeChanges(scripts[k]);
          assert scripts[k..][1..] == scripts[k + 1..];
          k := k + 1;
        }
        i := i + 1;
      }
    }
  }

  /** One visit of the loop. */
  lemma PosixOne(ds: seq<Dispatcher>, i: nat, scripts: seq<seq<Change>>)
    requires i < |ds|
    ensures var ds', rest := if scripts == [] then ds else AfterHandler(ds, scripts[0]), if scripts == [] then [] else scripts[1..];
            && PosixVisits(ds, i, scripts) == [ds[i]] + PosixVisits(ds', i + 1, rest)
            && PosixEnd(ds, i, scripts) == PosixEnd(ds', i + 1, rest)
  {
  }

  // ---- the loop that registers nothing -----------------------------------------------------------

  /** The list after a handler made the changes `cs`. */
  function AfterHandler(ds: seq<Dispatcher>, cs: seq<Change>): seq<Dispatcher> {
    Replay(Registry(ds, []), cs).ds
  }

  /** The dispatchers that the POSIX loop visits from index `i` on; `scripts` are the changes of its handlers, in turn. */
  function PosixVisits(ds: seq<Dispatcher>, i: nat, scripts: seq<seq<Change>>): seq<Dispatcher>
    decreases |scripts|
  {
    if i >= |ds| then [] else if scripts == [] then ds[i..]
    else [ds[i]] + PosixVisits(AfterHandler(ds, scripts[0]), i + 1, scripts[1..])
  }

  /** The list when that loop has ended. */
  function PosixEnd(ds: seq<Dispatcher>, i: nat, scripts: seq<seq<Change>>): seq<Dispatcher>
    decreases |scripts|
  {
    if i >= |ds| || scripts == [] then ds else PosixEnd(AfterHandler(ds, scripts[0]), i + 1, scripts[1..])
  }

  /** No change removes a cell at or before index `i`. */
  ghost predicate NoneBehind(ds: seq<Dispatcher>, i: nat, cs: seq<Change>)
    decreases |cs|
  {
    cs == [] ||
    ((cs[0].Removed? ==> IndexOf(ds, cs[0].d) > i) && NoneBehind(Apply(Registry(ds, []), cs[0]).ds, i, cs[1..]))
  }

  /** So it is for every handler that the loop calls. */
  ghost predicate NeverBehind(ds: seq<Dispatcher>, i: nat, scripts: seq<seq<Change>>)
    decreases |scripts|
  {
    i >= |ds| || scripts == [] ||
    (NoneBehind(ds, i, scripts[0]) && NeverBehind(AfterHandler(ds, scripts[0]), i + 1, scripts[1..]))
  }

  lemma {:induction false} FrontStays(ds: seq<Dispatcher>, i: nat, cs: seq<Change>)
    requires i < |ds| && NoneBehind(ds, i, cs)
    ensures i < |AfterHandler(ds, cs)| && AfterHandler(ds, cs)[..i + 1] == ds[..i + 1]
    decreases |cs|
  {
    if cs != [] {
      var r := Apply(Registry(ds, []), cs[0]);
      assert r.its == [];
      assert i < |r.ds| && r.ds[..i + 1] == ds[..i + 1];
      FrontStays(r.ds, i, cs[1..]);
      assert AfterHandler(ds, cs) == AfterHandler(r.ds, cs[1..]);
    }
  }

  /** If nothing is removed behind it, the loop visits exactly the final list, in order. */
  lemma {:induction false} PosixVisitsFinal(ds: seq<Dispatcher>, i: nat, scripts: seq<seq<Change>>)
    requires i <= |ds| && NeverBehind(ds, i, scripts)
    ensures i <= |PosixEnd(ds, i, scripts)| && PosixEnd(ds, i, scripts)[..i] == ds[..i]
    ensures PosixVisits(ds, i, scripts) == PosixEnd(ds, i, scripts)[i..]
    decreases |scripts|
  {
    if i < |ds| && scripts != [] {
      var ds' := AfterHandler(ds, scripts[0]);
      FrontStays(ds, i, scripts[0]);
      PosixVisitsFinal(ds', i + 1, scripts[1..]);
      var end := PosixEnd(ds, i, scripts);
      assert end[..i] == end[..i + 1][..i] && ds[..i] == ds[..i + 1][..i];
      assert end[i] == end[..i + 1][i] == ds[..i + 1][i];
      assert end[i..] == [end[i]] + end[i + 1..];
    }
  }

  lemma {:induction false} HandlerKeepsOthers(ds: seq<Dispatcher>, cs: seq<Change>, d: Dispatcher)
    requires d in ds && Removed(d) !in cs
    ensures d in AfterHandler(ds, cs)
    decreases |cs|
  {
    if cs != [] {
      var r := Apply(Registry(ds, []), cs[0]);
      assert r.its == [] && d in r.ds by {
        if cs[0].Removed? && IndexOf(ds, cs[0].d) < |ds| {
          var k, j := IndexOf(ds, cs[0].d), IndexOf(ds, d);
          assert r.ds[if j < k then j else j - 1] == d;
        }
      }
      HandlerKeepsOthers(r.ds, cs[1..], d);
      assert AfterHandler(ds, cs) == AfterHandler(r.ds, cs[1..]);
    }
  }

  /** Then every dispatcher present at the start and never removed is visited. */
  lemma {:induction false} PosixEndKeeps(ds: seq<Dispatcher>, i: nat, scripts: seq<seq<Change>>, d: Dispatcher)
    requires d in ds && forall k :: 0 <= k < |scripts| ==> Removed(d) !in scripts[k]
    ensures d in PosixEnd(ds, i, scripts)
    decreases |scripts|
  {
    if i < |ds| && scripts != [] {
      HandlerKeepsOthers(ds, scripts[0], d);
      PosixEndKeeps(AfterHandler(ds, scripts[0]), i + 1, scripts[1..], d);
    }
  }

  lemma PosixVisitsSurvivors(ds: seq<Dispatcher>, scripts: seq<seq<Change>>, d: Dispatcher)
    requires NeverBehind(ds, 0, scripts) && d in ds && forall k :: 0 <= k < |scripts| ==> Removed(d) !in scripts[k]
    ensures d in PosixVisits(ds, 0, scripts)
  {
    PosixVisitsFinal(ds, 0, scripts);
    PosixEndKeeps(ds, 0, scripts, d);
    assert PosixEnd(ds, 0, scripts)[0..] == PosixEnd(ds, 0, scripts);
  }

  /**
   The exact condition for one removal, while the cell at `i` is being visited: everything
   behind stays ahead of the loop if and only if the cell removed is behind too, or there is
   nothing behind.
   */
  lemma PosixRemovalIff(ds: seq<Dispatcher>, i: nat, k: nat)
    requires Distinct(ds) && i < |ds| && k < |ds|
    ensures (forall j :: i < j < |ds| && j != k ==> i < IndexOf(Without(ds, k), ds[j]) < |ds| - 1) <==> k > i || i + 1 == |ds|
  {
    if k > i || i + 1 == |ds| {
      forall j | i < j < |ds| && j != k ensures i < IndexOf(Without(ds, k), ds[j]) < |ds| - 1 { IndexWithout(ds, k, j); }
    } else {
      IndexWithout(ds, k, i + 1);
    }
  }

  lemma IndexWithout(ds: seq<Dispatcher>, k: nat, j: nat)
    requires Distinct(ds) && k < |ds| && j < |ds| && j != k
    ensures IndexOf(Without(ds, k), ds[j]) == if j < k then j else j - 1
  {
    var ds', j' := Without(ds, k), if j < k then j else j - 1;
    assert ds'[j'] == ds[j];
    forall l | 0 <= l < j' ensures ds'[l] != ds[j] { assert ds'[l] == ds[if l < k then l else l + 1]; }
  }

  /** A handler that removes its own dispatcher makes the loop skip the next one. */
  lemma PosixSkips()
    ensures PosixVisits([1, 2, 3], 0, [[Removed(1)]]) == [1, 3]
  {
    var scripts := [[Removed(1)]];
    assert Without([1, 2, 3], 0) == [2, 3];
    ReplayOne(Registry([1, 2, 3], []), Removed(1));
    assert AfterHandler([1, 2, 3], scripts[0]) == [2, 3];
    assert scripts[1..] == [];
    assert PosixVisits([2, 3], 1, []) == [2, 3][1..] == [3];
  }

  /** A handler's changes, seen from the loop that called it and from the loops around that. */
  lemma HandlerKeeps(r0: Registry, cs: seq<Change>, r: Registry, p: nat, first: seq<Dispatcher>,
                     visited: seq<Dispatcher>, made: seq<Change>)
    requires |r.its| == p + 2 && r.ds == Replay(r0, cs).ds && r.its[..p] == Replay(r0, cs).its
    requires Running(r.ds, r.its[p], r.its[p + 1], first, visited, RemovedIn(cs))
    ensures var r' := Replay(r, made);
            && |r'.its| == p + 2
            && Running(r'.ds, r'.its[p], r'.its[p + 1], first, visited, RemovedIn(cs + made))
            && r'.its[p + 1] - r'.its[p] <= r.its[p + 1] - r.its[p]
            && r'.ds == Replay(r0, cs + made).ds && r'.its[..p] == Replay(r0, cs + made).its
  {
    ReplayKeeps(r, p, first, visited, RemovedIn(cs), made);
    assert r.its == r.its[..p] + r.its[p..];
    ReplayOuter(r, r.its[..p], r.its[p..], made);
    ReplayConcat(r0, cs, made);
    assert RemovedIn(cs + made) == RemovedIn(cs) + RemovedIn(made) by {
      assert forall c :: c in cs + made <==> c in cs || c in made;
    }
  }

  lemma ReplayOne(r: Registry, c: Change)
    ensures Replay(r, [c]) == Apply(r, c)
  {
    assert [c][1..] == [];
  }

  lemma DistinctApply(r: Registry, c: Change)
    requires Distinct(r.ds)
    ensures Distinct(Apply(r, c).ds)
  {
    if c.Removed? {
      var k := IndexOf(r.ds, c.d);
      if k < |r.ds| {
        var ds' := Without(r.ds, k);
        assert forall j :: 0 <= j < |ds'| ==> ds'[j] == if j < k then r.ds[j] else r.ds[j + 1];
      }
    }
  }
}
