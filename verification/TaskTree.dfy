/**
 base/taskparent.cc and the abort logic of base/task.cc: the tree of tasks.  Tasks
 are kept in a map from unique_id to record; the runner, which is the root of the
 tree and a TaskParent but not a Task, has the key 0.
 */
module TaskTree {
  type Id = nat

  const STATE_BLOCKED := -1
  const STATE_INIT := 0
  const STATE_DONE := 2
  const STATE_ERROR := 3

  /** A Task with its TaskParent part; `stops` counts the calls of Stop. */
  datatype Rec = Rec(parent: Id, children: set<Id>, childError: bool, state: int,
                     blocked: bool, done: bool, aborted: bool, busy: bool, error: bool,
                     timeoutTime: int, timeoutSeconds: int, suspended: bool, stops: nat)

  type Tree = map<Id, Rec>

  // ---- what an abort does, said at once for every task ------------------------------------------

  predicate Idle(f: Tree, x: Id) {
    x in f && !f[x].done && !f[x].busy
  }

  /** From `x` up to a child of `t` that is in `did`, every task is unfinished and not busy. */
  ghost predicate Falls(f: Tree, t: Id, did: set<Id>, x: Id)
    decreases x
  {
    Idle(f, x) && t < x && f[x].parent < x && if f[x].parent == t then x in did else Falls(f, t, did, f[x].parent)
  }

  /** A busy task that the abort reaches: it is only told. */
  ghost predicate Told(f: Tree, t: Id, did: set<Id>, x: Id) {
    x in f && !f[x].done && f[x].busy && t < x && f[x].parent < x &&
    if f[x].parent == t then x in did else Falls(f, t, did, f[x].parent)
  }

  ghost function BusyOf(f: Tree, xs: set<Id>): set<Id> {
    set x | x in xs && x in f && f[x].busy
  }

  function Marked(r: Rec): Rec {
    r.(done := true, blocked := true, aborted := true, error := true)
  }

  /** AbortAllChildren of `t` when it has dealt with the children in `did`. */
  ghost function PartAt(f: Tree, t: Id, did: set<Id>, x: Id): Rec
    requires x in f
  {
    if x == t then f[x].(children := (f[x].children - did) + BusyOf(f, f[x].children))
    else if Falls(f, t, did, x) then Marked(f[x]).(children := BusyOf(f, f[x].children), stops := f[x].stops + 1)
    else if Told(f, t, did, x) then f[x].(aborted := true)
    else f[x]
  }

  ghost function Part(f: Tree, t: Id, did: set<Id>): Tree {
    map x | x in f :: PartAt(f, t, did, x)
  }

  ghost function ChildrenAborted(f: Tree, t: Id): Tree
    requires t in f
  {
    Part(f, t, f[t].children)
  }

  /** OnChildStopped of the parent of `t`. */
  function ChildStopped(f: Tree, t: Id): Tree
    requires t in f
  {
    var p := f[t].parent;
    if p in f then f[p := f[p].(childError := f[p].childError || f[t].state == STATE_ERROR, children := f[p].children - {t})]
    else f
  }

  function CountStop(f: Tree, t: Id): Tree
    requires t in f
  {
    f[t := f[t].(stops := f[t].stops + 1)]
  }

  /** OnStopped. */
  ghost function StopBody(f: Tree, t: Id): Tree
    requires t in f
  {
    ChildStopped(ChildrenAborted(f, t), t)
  }

  ghost function Stopped(f: Tree, t: Id): Tree
    requires t in f
  {
    StopBody(CountStop(f, t), t)
  }

  ghost function Aborted(f: Tree, t: Id): Tree
    requires t in f
  {
    if f[t].done then f
    else if f[t].busy then f[t := f[t].(aborted := true)]
    else Stopped(f[t := Marked(f[t])], t)
  }

  // ---- the shape of the tree -----------------------------------------------------------------------

  /** The child sets that hold unfinished tasks only: those of `t` and of later tasks. */
  ghost predicate KidsOk(f: Tree, t: Id, x: Id)
    requires x in f
  {
    forall c :: c in f[x].children ==> c in f && x < c && f[c].parent == x && (t <= x ==> !f[c].done)
  }

  ghost predicate LinkOk(f: Tree, x: Id)
    requires x in f
  {
    !f[x].done ==> f[x].state != STATE_ERROR && (x != 0 ==> f[x].parent < x && f[x].parent in f && x in f[f[x].parent].children)
  }

  /** Child sets and parents agree. */
  ghost predicate Shape(f: Tree, t: Id) {
    forall x {:trigger KidsOk(f, t, x)} {:trigger LinkOk(f, x)} :: x in f ==> KidsOk(f, t, x) && LinkOk(f, x)
  }

  lemma PartKids(f: Tree, t: Id, did: set<Id>, x: Id)
    requires t in f && Shape(f, t) && did <= f[t].children && x in f
    ensures KidsOk(Part(f, t, did), t, x)
  {
    var g := Part(f, t, did);
    assert KidsOk(f, t, x);
    forall c | c in g[x].children ensures c in g && x < c && g[c].parent == x && (t <= x ==> !g[c].done) {
      assert c in f[x].children;
    }
  }

  lemma StaysChild(f: Tree, t: Id, did: set<Id>, x: Id)
    requires x in f && !f[x].done && f[x].parent < x && f[x].parent in f && x in f[f[x].parent].children
    requires !PartAt(f, t, did, x).done
    ensures x in PartAt(f, t, did, f[x].parent).children
  {
    FallsAbove(f, t, did, t);
  }

  lemma PartLink(f: Tree, t: Id, did: set<Id>, x: Id)
    requires t in f && Shape(f, t) && did <= f[t].children && x in f
    ensures LinkOk(Part(f, t, did), x)
  {
    assert LinkOk(f, x);
    if x != 0 && !PartAt(f, t, did, x).done && !f[x].done { StaysChild(f, t, did, x); }
  }

  lemma PartShape(f: Tree, t: Id, did: set<Id>)
    requires t in f && Shape(f, t) && did <= f[t].children
    ensures Shape(Part(f, t, did), t)
  {
    forall x | x in f ensures KidsOk(Part(f, t, did), t, x) && LinkOk(Part(f, t, did), x) {
      PartKids(f, t, did, x);
      PartLink(f, t, did, x);
    }
  }

  // ---- one more child -----------------------------------------------------------------------------

  /** AbortAllChildren of `t` has dealt with `did` and comes to `c`. */
  ghost predicate NextChild(f: Tree, t: Id, did: set<Id>, c: Id) {
    t in f && Shape(f, t) && did <= f[t].children && c in f[t].children && c !in did && c in f
  }

  /** What the abort of child `c` adds to the set of fallen tasks. */
  lemma {:induction false} FallsStep(f: Tree, t: Id, did: set<Id>, c: Id, f2: Tree, x: Id)
    requires NextChild(f, t, did, c) && !f[c].busy
    requires f2.Keys == f.Keys
    requires forall y :: y in f ==> f2[y].parent == f[y].parent && f2[y].busy == f[y].busy
    requires forall y :: y in f ==> f2[y].done == (f[y].done || y == c || Falls(f, t, did, y))
    ensures Falls(f, t, did + {c}, x) <==> Falls(f, t, did, x) || x == c || Falls(f2, c, f[c].children, x)
    decreases x
  {
    assert KidsOk(f, t, t);
    if x in f && t < x && f[x].parent < x && f[x].parent != t {
      assert LinkOk(f, x);
      FallsStep(f, t, did, c, f2, f[x].parent);
    }
    FallsAbove(f2, c, f[c].children, t);
    FallsAbove(f, t, did, t);
  }

  lemma FallsAbove(f: Tree, t: Id, did: set<Id>, x: Id)
    requires x <= t
    ensures !Falls(f, t, did, x)
  {
  }

  /** Aborting one more child of `t` in the middle of AbortAllChildren. */
  lemma AbortBusyChild(f: Tree, t: Id, did: set<Id>, c: Id)
    requires NextChild(f, t, did, c) && f[c].busy
    ensures Aborted(Part(f, t, did), c) == Part(f, t, did + {c})
  {
    assert KidsOk(f, t, t);
    var f1, g := Part(f, t, did), Part(f, t, did + {c});
    assert f1[c] == f[c];
    forall x | x in f ensures Aborted(f1, c)[x] == g[x] {
      SameFalls(f, t, did, c, x);
      if x in f && f[x].parent < x { SameFalls(f, t, did, c, f[x].parent); }
      if x == t { assert (f[t].children - did) + BusyOf(f, f[t].children) == (f[t].children - (did + {c})) + BusyOf(f, f[t].children); }
    }
  }

  lemma {:induction false} SameFalls(f: Tree, t: Id, did: set<Id>, c: Id, x: Id)
    requires c in f && f[c].busy
    ensures Falls(f, t, did + {c}, x) == Falls(f, t, did, x)
    decreases x
  {
    if x in f && t < x && f[x].parent < x && f[x].parent != t { SameFalls(f, t, did, c, f[x].parent); }
  }

  /** The tree on which the abort of child `c` goes on to the children of `c`. */
  ghost function Started(f: Tree, t: Id, did: set<Id>, c: Id): Tree
    requires c in f
  {
    var f1 := Part(f, t, did);
    CountStop(f1[c := Marked(f1[c])], c)
  }

  lemma StartedFacts(f: Tree, t: Id, did: set<Id>, c: Id)
    requires NextChild(f, t, did, c) && !f[c].busy
    ensures var f2 := Started(f, t, did, c);
            && f2.Keys == f.Keys && !f[c].done && t < c && f[c].parent == t
            && f2[c] == Marked(f[c]).(stops := f[c].stops + 1)
            && (forall y :: y in f && y != c ==> f2[y] == PartAt(f, t, did, y))
            && Shape(f2, c)
  {
    assert KidsOk(f, t, t);
    var f2 := Started(f, t, did, c);
    PartShape(f, t, did);
    var f1 := Part(f, t, did);
    forall x | x in f2 ensures KidsOk(f2, c, x) && LinkOk(f2, x) {
      assert KidsOk(f1, t, x) && LinkOk(f1, x);
    }
  }

  lemma ToldStep(f: Tree, t: Id, did: set<Id>, c: Id, f2: Tree, x: Id)
    requires NextChild(f, t, did, c) && !f[c].busy && f2 == Started(f, t, did, c)
    ensures Told(f, t, did + {c}, x) <==> Told(f, t, did, x) || Told(f2, c, f[c].children, x)
  {
    StartedFacts(f, t, did, c);
    if x in f && f[x].parent < x {
      FallsStep(f, t, did, c, f2, f[x].parent);
      assert LinkOk(f, x);
    }
    FallsAbove(f2, c, f[c].children, t);
    FallsAbove(f, t, did, t);
  }

  lemma BusyIsKept(f: Tree, f2: Tree, xs: set<Id>)
    requires f2.Keys == f.Keys && forall y :: y in f ==> f2[y].busy == f[y].busy
    ensures BusyOf(f2, xs) == BusyOf(f, xs)
  {
  }

  /** Every record other than those of `t` and the child being aborted. */
  lemma AbortIdleOther(f: Tree, t: Id, did: set<Id>, c: Id, f2: Tree, x: Id)
    requires NextChild(f, t, did, c) && !f[c].busy && f2 == Started(f, t, did, c) && x in f && x != t && x != c
    ensures x in f2 && PartAt(f2, c, f[c].children, x) == PartAt(f, t, did + {c}, x)
  {
    StartedFacts(f, t, did, c);
    BusyIsKept(f, f2, f[x].children);
    FallsStep(f, t, did, c, f2, x);
    ToldStep(f, t, did, c, f2, x);
  }

  /** The child itself. */
  lemma AbortIdleSelf(f: Tree, t: Id, did: set<Id>, c: Id, f2: Tree)
    requires NextChild(f, t, did, c) && !f[c].busy && f2 == Started(f, t, did, c)
    ensures c in f2 && PartAt(f2, c, f[c].children, c) == PartAt(f, t, did + {c}, c)
  {
    StartedFacts(f, t, did, c);
    BusyIsKept(f, f2, f[c].children);
  }

  /** The parent loses this child and no other. */
  lemma AbortIdleParent(f: Tree, t: Id, did: set<Id>, c: Id, f2: Tree)
    requires NextChild(f, t, did, c) && !f[c].busy && f2 == Started(f, t, did, c)
    ensures t in f2 && PartAt(f2, c, f[c].children, t) == f2[t] == PartAt(f, t, did, t)
    ensures f2[t].(children := f2[t].children - {c}) == PartAt(f, t, did + {c}, t)
  {
    StartedFacts(f, t, did, c);
    FallsAbove(f2, c, f[c].children, t);
    assert f2[t].children - {c} == (f[t].children - (did + {c})) + BusyOf(f, f[t].children);
  }

  lemma AbortIdleChild(f: Tree, t: Id, did: set<Id>, c: Id)
    requires NextChild(f, t, did, c) && !f[c].busy
    ensures Aborted(Part(f, t, did), c) == Part(f, t, did + {c})
  {
    var f2 := Started(f, t, did, c);
    StartedFacts(f, t, did, c);
    assert LinkOk(f, c);
    var g, h := Part(f2, c, f[c].children), Part(f, t, did + {c});
    forall x | x in f ensures ChildStopped(g, c)[x] == h[x] {
      if x == t { AbortIdleParent(f, t, did, c, f2); }
      else if x == c { AbortIdleSelf(f, t, did, c, f2); }
      else { AbortIdleOther(f, t, did, c, f2, x); }
    }
    assert Aborted(Part(f, t, did), c) == ChildStopped(g, c);
  }

  lemma AbortOneMore(f: Tree, t: Id, did: set<Id>, c: Id)
    requires NextChild(f, t, did, c)
    ensures c in Part(f, t, did) && Aborted(Part(f, t, did), c) == Part(f, t, did + {c})
  {
    if f[c].busy { AbortBusyChild(f, t, did, c); } else { AbortIdleChild(f, t, did, c); }
  }

  // ---- what holds between any two calls -------------------------------------------------------------

  /**
   A finished task was stopped exactly once and is in no child set; an unfinished task
   under a finished parent is the one inside Process, and it has been told.
   */
  ghost predicate NodeOk(f: Tree, x: Id)
    requires x in f
  {
    && f[x].stops == (if f[x].done then 1 else 0) && (f[x].busy ==> !f[x].done)
    && (x != 0 && !f[x].done && f[x].parent in f && f[f[x].parent].done ==> f[x].busy && f[x].aborted)
  }

  ghost predicate TreeInv(f: Tree) {
    && 0 in f && !f[0].done && !f[0].busy && Shape(f, 0)
    && forall x {:trigger NodeOk(f, x)} :: x in f ==> NodeOk(f, x)
  }

  /** Task `t` of `g` finishes as `r`, and is about to stop. */
  ghost predicate Finishes(g: Tree, t: Id, r: Rec) {
    && TreeInv(g) && t in g && t != 0 && !g[t].done
    && r.done && !r.busy && r.stops == 0 && r.parent == g[t].parent && r.children == g[t].children
  }

  lemma FinishShape(g: Tree, t: Id, r: Rec)
    requires Finishes(g, t, r)
    ensures Shape(CountStop(g[t := r], t), t) && g[t].parent < t && g[t].parent in g
  {
    var f := CountStop(g[t := r], t);
    assert LinkOk(g, t);
    forall x | x in f ensures KidsOk(f, t, x) && LinkOk(f, x) {
      assert KidsOk(g, 0, x) && LinkOk(g, x);
    }
  }

  /** What a stop changes in a record, as far as the invariant can see. */
  ghost predicate Effect(f: Tree, h: Tree, t: Id, x: Id)
    requires t in f && x in f && x in h
  {
    var kids := f[t].children;
    && h[x].done == (f[x].done || Falls(f, t, kids, x)) && h[x].busy == f[x].busy && h[x].parent == f[x].parent
    && h[x].stops == f[x].stops + (if Falls(f, t, kids, x) then 1 else 0)
    && h[x].aborted == (f[x].aborted || Falls(f, t, kids, x) || Told(f, t, kids, x))
    && h[x].children <= f[x].children && (x == f[t].parent ==> t !in h[x].children)
    && (x == t || Falls(f, t, kids, x) ==> h[x].children <= BusyOf(f, f[x].children))
    && h[x].state == f[x].state && h[x].timeoutTime == f[x].timeoutTime
    && (f[x].blocked ==> h[x].blocked) && (h[x].done && !f[x].done ==> h[x].blocked)
    && (h[x].blocked ==> f[x].blocked || h[x].done)
  }

  lemma StopEffect(f: Tree, t: Id, x: Id)
    requires t in f && x in f && Shape(f, t) && f[t].parent < t
    ensures x in StopBody(f, t) && Effect(f, StopBody(f, t), t, x)
  {
    var kids := f[t].children;
    FallsAbove(f, t, kids, t);
    FallsAbove(f, t, kids, f[t].parent);
    var g := ChildrenAborted(f, t);
    assert g[x] == PartAt(f, t, kids, x) && g[t] == PartAt(f, t, kids, t);
  }

  lemma StopKids(g: Tree, f: Tree, h: Tree, t: Id, x: Id)
    requires t in g && x in g && g.Keys == f.Keys == h.Keys && KidsOk(g, 0, x) && f[x].children == g[x].children
    requires forall y :: y in f && y != t ==> f[y] == g[y]
    requires f[t].parent == g[t].parent
    requires forall y {:trigger Effect(f, h, t, y)} :: y in f ==> Effect(f, h, t, y)
    ensures KidsOk(h, 0, x)
  {
    assert Effect(f, h, t, x);
    forall c | c in h[x].children ensures c in h && x < c && h[c].parent == x && !h[c].done {
      assert c in g[x].children && Effect(f, h, t, c);
    }
  }

  lemma StopLink(g: Tree, t: Id, r: Rec, x: Id)
    requires Finishes(g, t, r) && x in g
    ensures LinkOk(Stopped(g[t := r], t), x)
  {
    var f := CountStop(g[t := r], t);
    FinishShape(g, t, r);
    PartLink(f, t, f[t].children, x);
  }

  lemma StopNode(f: Tree, h: Tree, t: Id, x: Id)
    requires t in f && x in f && f.Keys == h.Keys && f[t].done && f[t].stops == 1
    requires x != t ==> NodeOk(f, x) || f[x].parent == t
    requires f[x].stops == (if f[x].done then 1 else 0) && (f[x].busy ==> !f[x].done) && LinkOk(f, x)
    requires forall y {:trigger Effect(f, h, t, y)} :: y in f ==> Effect(f, h, t, y)
    ensures NodeOk(h, x)
  {
    assert Effect(f, h, t, x);
    if x != 0 && !h[x].done {
      assert Effect(f, h, t, f[x].parent);
      FallsAbove(f, t, f[t].children, t);
    }
  }

  lemma StopEffects(g: Tree, t: Id, r: Rec, f: Tree, h: Tree)
    requires Finishes(g, t, r) && f == CountStop(g[t := r], t) && h == StopBody(f, t)
    ensures h.Keys == f.Keys == g.Keys && forall x {:trigger Effect(f, h, t, x)} :: x in f ==> Effect(f, h, t, x)
  {
    FinishShape(g, t, r);
    forall x | x in f ensures Effect(f, h, t, x) { StopEffect(f, t, x); }
  }

  lemma StopKeepsAt(g: Tree, t: Id, r: Rec, f: Tree, h: Tree, x: Id)
    requires Finishes(g, t, r) && f == CountStop(g[t := r], t) && h.Keys == g.Keys && x in g
    requires forall y {:trigger Effect(f, h, t, y)} :: y in f ==> Effect(f, h, t, y)
    ensures KidsOk(h, 0, x) && NodeOk(h, x)
  {
    FinishShape(g, t, r);
    assert KidsOk(g, 0, x) && NodeOk(g, x) && LinkOk(f, x);
    StopKids(g, f, h, t, x);
    StopNode(f, h, t, x);
  }

  lemma StopKeepsTree(g: Tree, t: Id, r: Rec)
    requires Finishes(g, t, r)
    ensures TreeInv(Stopped(g[t := r], t))
  {
    var f := CountStop(g[t := r], t);
    var h := StopBody(f, t);
    StopEffects(g, t, r, f, h);
    assert Effect(f, h, t, 0);
    FallsAbove(f, t, r.children, 0);
    forall x | x in h ensures KidsOk(h, 0, x) && LinkOk(h, x) && NodeOk(h, x) {
      StopKeepsAt(g, t, r, f, h, x);
      StopLink(g, t, r, x);
    }
  }

  /** The parent is told of a child that stopped, and remembers a failure. */
  lemma ParentTold(g: Tree, t: Id, r: Rec)
    requires Finishes(g, t, r)
    ensures var p, h := g[t].parent, Stopped(g[t := r], t);
            p in g && p in h && t !in h[p].children && h[p].childError == (g[p].childError || r.state == STATE_ERROR)
  {
    var f := CountStop(g[t := r], t);
    FinishShape(g, t, r);
    FallsAbove(f, t, f[t].children, g[t].parent);
  }

  lemma AbortKeepsTree(f: Tree, t: Id)
    requires TreeInv(f) && t in f && t != 0
    ensures TreeInv(Aborted(f, t))
  {
    if Idle(f, t) {
      assert NodeOk(f, t);
      StopKeepsTree(f, t, Marked(f[t]));
    } else if !f[t].done {
      var h := Aborted(f, t);
      forall x | x in h ensures KidsOk(h, 0, x) && LinkOk(h, x) && NodeOk(h, x) {
        assert KidsOk(f, 0, x) && LinkOk(f, x) && NodeOk(f, x);
      }
    }
  }

  // ---- which descendants an abort finishes -------------------------------------------------------------

  /** `t` is reached from `x` by following parents. */
  ghost predicate Descends(f: Tree, t: Id, x: Id)
    decreases x
  {
    x in f && (x == t || (f[x].parent < x && Descends(f, t, f[x].parent)))
  }

  /** On the way from `x` up to `t`, both included, some task is inside Process. */
  ghost predicate BusyBetween(f: Tree, t: Id, x: Id)
    decreases x
  {
    x in f && (f[x].busy || (x != t && f[x].parent < x && BusyBetween(f, t, f[x].parent)))
  }

  lemma {:induction false} FallsIffNoneBusy(g: Tree, t: Id, f: Tree, x: Id)
    requires TreeInv(g) && Idle(g, t) && t != 0 && Descends(g, t, x) && x != t && !g[x].done
    requires f.Keys == g.Keys && forall y :: y in g && y != t ==> f[y] == g[y]
    ensures Falls(f, t, g[t].children, x) <==> !BusyBetween(g, t, x)
    decreases x
  {
    assert LinkOk(g, x) && NodeOk(g, x);
    var p := g[x].parent;
    DescendsAbove(g, t, x);
    if p != t && !g[p].done { FallsIffNoneBusy(g, t, f, p); }
  }

  lemma {:induction false} DescendsAbove(f: Tree, t: Id, x: Id)
    requires Descends(f, t, x)
    ensures t <= x && (x != t ==> t < x)
    decreases x
  {
    if x != t { DescendsAbove(f, t, f[x].parent); }
  }

  /** An abort finishes exactly the descendants with no busy task on the way up. */
  lemma AbortFinishes(f: Tree, t: Id, x: Id)
    requires TreeInv(f) && Idle(f, t) && t != 0 && Descends(f, t, x)
    ensures x in Aborted(f, t) && (Aborted(f, t)[x].done <==> f[x].done || !BusyBetween(f, t, x))
    ensures Aborted(f, t)[t].done
  {
    assert NodeOk(f, t);
    var g := CountStop(f[t := Marked(f[t])], t);
    FinishShape(f, t, Marked(f[t]));
    StopEffect(g, t, x);
    StopEffect(g, t, t);
    if x != t && !f[x].done { FallsIffNoneBusy(f, t, g, x); }
  }

  /** With nobody inside Process, everything below a finished task is finished. */
  lemma {:induction false} BelowDoneIsDone(f: Tree, t: Id, x: Id)
    requires TreeInv(f) && t in f && f[t].done && Descends(f, t, x)
    requires forall y :: y in f ==> !f[y].busy
    ensures f[x].done
    decreases x
  {
    if x != t {
      BelowDoneIsDone(f, t, f[x].parent);
      assert NodeOk(f, x);
    }
  }

  lemma {:induction false} DescendsKept(f: Tree, g: Tree, t: Id, x: Id)
    requires Descends(f, t, x) && g.Keys == f.Keys && forall y :: y in f ==> g[y].parent == f[y].parent
    ensures Descends(g, t, x)
    decreases x
  {
    if x != t { DescendsKept(f, g, t, f[x].parent); }
  }

  lemma {:induction false} NoneBusyAbove(f: Tree, t: Id, b: Id, x: Id)
    requires x < b && forall y :: y in f && f[y].busy ==> y == b
    ensures !BusyBetween(f, t, x)
    decreases x
  {
    if x in f && x != t && f[x].parent < x { NoneBusyAbove(f, t, b, f[x].parent); }
  }

  ghost predicate OnlyBusy(f: Tree, b: Id) {
    b in f && forall y :: y in f ==> (f[y].busy <==> y == b)
  }

  /** The one busy task below an aborted task is told. */
  lemma BusyIsTold(f: Tree, t: Id, b: Id)
    requires TreeInv(f) && Idle(f, t) && t != 0 && Descends(f, t, b) && OnlyBusy(f, b)
    ensures b in Aborted(f, t) && Aborted(f, t)[b].aborted && Aborted(f, t)[b].busy && !Aborted(f, t)[b].done
  {
    assert NodeOk(f, b);
    AbortEffect(f, t);
    AbortKeepsTree(f, t);
    NoneBusyAbove(f, t, b, f[b].parent);
    AbortFinishes(f, t, f[b].parent);
    AbortFinishes(f, t, b);
    assert NodeOk(Aborted(f, t), b);
  }

  /** What Step does for an aborted task once its Process has returned. */
  ghost function ProcessReturned(g: Tree, b: Id): Tree
    requires b in g
  {
    Aborted(g[b := g[b].(busy := false)], b)
  }

  /**
   The one busy task `b` below `t` defers its own subtree and no more: when its Process
   returns, the second abort finishes all that the first one left.
   */
  lemma SecondAbortFinishesAll(f: Tree, t: Id, b: Id, x: Id)
    requires TreeInv(f) && Idle(f, t) && t != 0 && Descends(f, t, b) && OnlyBusy(f, b) && Descends(f, t, x)
    ensures b in Aborted(f, t) && x in ProcessReturned(Aborted(f, t), b)
    ensures ProcessReturned(Aborted(f, t), b)[x].done
  {
    var g := Aborted(f, t);
    BusyIsTold(f, t, b);
    AbortEffect(f, t);
    AbortKeepsTree(f, t);
    DescendsKept(f, g, t, x);
    ReturnFinishes(g, t, b, x);
  }

  lemma ReturnFinishes(g: Tree, t: Id, b: Id, x: Id)
    requires TreeInv(g) && OnlyBusy(g, b) && t in g && g[t].done && Descends(g, t, x)
    ensures x in ProcessReturned(g, b) && ProcessReturned(g, b)[x].done
  {
    assert NodeOk(g, b);
    var r := Marked(g[b].(busy := false));
    assert g[b := g[b].(busy := false)][b := r] == g[b := r];
    var h := Stopped(g[b := r], b);
    FinishEffect(g, b, r);
    StopKeepsTree(g, b, r);
    DescendsKept(g, h, t, x);
    BelowDoneIsDone(h, t, x);
  }

  /** A stop keeps ids and parents, and nobody becomes busy or unfinished. */
  lemma FinishEffect(g: Tree, t: Id, r: Rec)
    requires Finishes(g, t, r)
    ensures var h := Stopped(g[t := r], t);
            && h.Keys == g.Keys && h[t].done
            && (forall y :: y in g ==> h[y].parent == g[y].parent && (g[y].done ==> h[y].done))
            && (forall y :: y in g && y != t ==> h[y].busy == g[y].busy) && !h[t].busy
            && (forall y :: y in g && y != t ==> h[y].state == g[y].state && h[y].timeoutTime == g[y].timeoutTime)
            && (forall y :: y in g && y != t ==> (g[y].blocked ==> h[y].blocked) && (h[y].done && !g[y].done ==> h[y].blocked))
            && (forall y :: y in g && y != t && h[y].blocked ==> g[y].blocked || h[y].done)
            && h[t].state == r.state && h[t].timeoutTime == r.timeoutTime && (r.blocked ==> h[t].blocked)
  {
    var f := CountStop(g[t := r], t);
    var h := StopBody(f, t);
    StopEffects(g, t, r, f, h);
    assert Effect(f, h, t, t);
    assert forall y :: y in g ==> Effect(f, h, t, y);
  }

  lemma AbortEffect(f: Tree, t: Id)
    requires TreeInv(f) && t in f && t != 0
    ensures var h := Aborted(f, t);
            && h.Keys == f.Keys && (forall y :: y in f ==> h[y].parent == f[y].parent && h[y].busy == f[y].busy)
            && (forall y :: y in f && f[y].done ==> h[y].done) && (Idle(f, t) ==> h[t].done)
            && (forall y :: y in f ==> h[y].state == f[y].state && h[y].timeoutTime == f[y].timeoutTime)
            && (forall y :: y in f ==> (f[y].blocked ==> h[y].blocked) && (h[y].done && !f[y].done ==> h[y].blocked))
            && (forall y :: y in f && h[y].blocked ==> f[y].blocked || h[y].done)
  {
    if Idle(f, t) {
      assert NodeOk(f, t);
      FinishEffect(f, t, Marked(f[t]));
    }
  }

  /**
   More than one task can be left unfinished: a task below the busy one is not reached
   until Process returns.
   */
  lemma BusyTaskDefersItsChildren() returns (f: Tree)
    ensures TreeInv(f) && Idle(f, 1) && OnlyBusy(f, 2) && Descends(f, 1, 2) && Descends(f, 1, 3)
    ensures 3 in Aborted(f, 1) && 2 in Aborted(f, 1) && !Aborted(f, 1)[2].done && !Aborted(f, 1)[3].done
  {
    var r := Rec(0, {1}, false, STATE_INIT, false, false, false, false, false, 0, 0, false, 0);
    f := map[0 := r, 1 := r.(children := {2}), 2 := r.(parent := 1, children := {3}, busy := true),
             3 := r.(parent := 2, children := {})];
    forall x | x in f ensures KidsOk(f, 0, x) && LinkOk(f, x) && NodeOk(f, x) {
    }
    assert Descends(f, 1, 2) && Descends(f, 1, 3);
    AbortFinishes(f, 1, 2);
    AbortFinishes(f, 1, 3);
  }

  /** A change of flags and timeouts that no child set depends on. */
  lemma FlagsKeepTree(f: Tree, x: Id, r: Rec)
    requires TreeInv(f) && x in f
    requires r.parent == f[x].parent && r.children == f[x].children && r.stops == f[x].stops
    requires r.done == f[x].done && r.aborted == f[x].aborted && (!r.done ==> r.state != STATE_ERROR)
    requires (r.busy ==> x != 0 && !r.done) && (f[x].busy && f[x].aborted ==> r.busy)
    ensures TreeInv(f[x := r])
  {
    var h := f[x := r];
    forall y | y in h ensures KidsOk(h, 0, y) && LinkOk(h, y) && NodeOk(h, y) {
      assert KidsOk(f, 0, y) && LinkOk(f, y) && NodeOk(f, y);
    }
  }

  function FreshTask(parent: Id): Rec {
    Rec(parent, {}, false, STATE_INIT, false, false, false, false, false, 0, 0, false, 0)
  }

  /** The constructor of Task, with AddChild. */
  function Attached(f: Tree, p: Id, c: Id): Tree
    requires p in f
  {
    f[p := f[p].(children := f[p].children + {c})][c := FreshTask(p)]
  }

  lemma AttachKeepsTree(f: Tree, p: Id, c: Id)
    requires TreeInv(f) && p in f && !f[p].done && c !in f && p < c
    ensures TreeInv(Attached(f, p, c))
  {
    var h := Attached(f, p, c);
    forall y | y in h ensures KidsOk(h, 0, y) && LinkOk(h, y) && NodeOk(h, y) {
      if y != c { assert KidsOk(f, 0, y) && LinkOk(f, y) && NodeOk(f, y); }
    }
  }
}
