/**
 conman/cycler.py: a priority queue whose items are reinserted when taken, with
 priority multiplied by time in queue.  Times and priorities are reals; the
 clock reading is an argument.
 */
module Cycler {
  import opened Collections

  datatype Entry = Entry(priority: real, birth: real)

  type Items<T> = map<T, Entry>

  function Aged(e: Entry, now: real): real {
    e.priority * (now - e.birth)
  }

  /** `x` has the highest aged priority; Python's max breaks ties by dictionary order. */
  ghost predicate IsMax<T>(items: Items<T>, now: real, x: T) {
    x in items && forall y :: y in items ==> Aged(items[y], now) <= Aged(items[x], now)
  }

  /** What _find_next may return. */
  ghost predicate Picks<T>(items: Items<T>, now: real, r: Option<T>) {
    match r
    case None => items == map[] || exists x :: x in items && IsMax(items, now, x) && items[x].birth > now
    case Some(x) => IsMax(items, now, x) && items[x].birth <= now
  }

  /** The entries after `r` was taken: it is reborn one cycle from now. */
  function Taken<T>(items: Items<T>, now: real, r: Option<T>, cycle: real): Items<T>
    requires r.Some? ==> r.value in items
  {
    match r
    case None => items
    case Some(x) => items[x := Entry(items[x].priority, now + cycle)]
  }

  /** update(): listed items keep their birth if they had one, unlisted ones go. */
  function Updated<T>(items: Items<T>, list: seq<(T, real)>, now: real): Items<T> {
    if list == [] then map[]
    else
      var (x, priority) := list[|list| - 1];
      Updated(items, list[..|list| - 1], now)[x := Entry(priority, if x in items then items[x].birth else now)]
  }

  class AgingPriorityCycler<T(==)> {
    const minTimeInQueue: real
    var items: Items<T>

    constructor (cycleLength: real)
      ensures minTimeInQueue == cycleLength && items == map[]
    {
      minTimeInQueue := cycleLength;
      items := map[];
    }

    method Insert(item: T, priority: real, now: real)
      modifies this
      ensures items == old(items)[item := Entry(priority, if item in old(items) then old(items)[item].birth else now)]
    {
      if item in items {
        items := items[item := items[item].(priority := priority)];
      } else {
        items := items[item := Entry(priority, now)];
      }
    }

    method Remove(item: T)
      modifies this
      ensures items == old(items) - {item}
    {
      if item in items {
        items := items - {item};
      }
    }

    /** _find_next: next() when `cycle`, peek() otherwise. */
    method FindNext(now: real, cycle: bool) returns (r: Option<T>)
      modifies this
      ensures Picks(old(items), now, r)
      ensures items == if cycle then Taken(old(items), now, r, minTimeInQueue) else old(items)
    {
      if items == map[] {
        return None;
      }
      var best :| best in items;
      var rest := items.Keys - {best};
      while rest != {}
        invariant best in items && rest <= items.Keys
        invariant forall y :: y in items && y !in rest ==> Aged(items[y], now) <= Aged(items[best], now)
        decreases rest
      {
        var y :| y in rest;
        if Aged(items[y], now) > Aged(items[best], now) {
          best := y;
        }
        rest := rest - {y};
      }
      assert IsMax(items, now, best);
      if items[best].birth > now {
        return None;
      }
      if cycle {
        items := items[best := Entry(items[best].priority, now + minTimeInQueue)];
      }
      return Some(best);
    }

    method Update(list: seq<(T, real)>, now: real)
      modifies this
      ensures items == Updated(old(items), list, now)
    {
      var newItems: Items<T> := map[];
      for i := 0 to |list|
        invariant items == old(items)
        invariant newItems == Updated(items, list[..i], now)
      {
        var (x, priority) := list[i];
        var t := now;
        if x in items {
          t := items[x].birth;
        }
        newItems := newItems[x := Entry(priority, t)];
        assert list[..i + 1][..i] == list[..i];
      }
      assert list[..|list|] == list;
      items := newItems;
    }
  }

  /** After update() exactly the listed items remain, and those already present kept their age. */
  lemma {:induction false} UpdatedIsListed<T>(items: Items<T>, list: seq<(T, real)>, now: real)
    ensures forall x :: x in Updated(items, list, now) <==> exists i :: 0 <= i < |list| && list[i].0 == x
    ensures forall x :: x in Updated(items, list, now) ==>
      Updated(items, list, now)[x].birth == if x in items then items[x].birth else now
  {
    if list != [] {
      var k := |list| - 1;
      UpdatedIsListed(items, list[..k], now);
      forall x: T ensures x in Updated(items, list, now) <==> exists i :: 0 <= i < |list| && list[i].0 == x {
        if x in Updated(items, list[..k], now) {
          var i :| 0 <= i < k && list[..k][i].0 == x;
          assert list[i].0 == x;
        } else if x == list[k].0 {
          assert list[k].0 == x;
        } else {
          forall i | 0 <= i < |list| ensures list[i].0 != x {
            if i < k { assert list[..k][i].0 == list[i].0; }
          }
        }
      }
    }
  }

  /** An item listed more than once has the priority of its last listing. */
  lemma {:induction false} UpdatedPriority<T>(items: Items<T>, list: seq<(T, real)>, now: real, i: nat)
    requires i < |list| && forall j :: i < j < |list| ==> list[j].0 != list[i].0
    ensures list[i].0 in Updated(items, list, now) && Updated(items, list, now)[list[i].0].priority == list[i].1
    decreases |list|
  {
    if i < |list| - 1 { UpdatedPriority(items, list[..|list| - 1], now, i); }
  }

  // ---- the law of one call --------------------------------------------------------

  ghost predicate Positive<T>(items: Items<T>) {
    forall x :: x in items ==> items[x].priority > 0.0
  }

  /** With positive priorities, nothing is returned exactly when nothing is ripe. */
  lemma NothingIffNoneRipe<T>(items: Items<T>, now: real, r: Option<T>)
    requires Positive(items) && Picks(items, now, r)
    ensures r.None? <==> forall x :: x in items ==> items[x].birth > now
  {
    if r.None? && items != map[] {
      var m :| m in items && IsMax(items, now, m) && items[m].birth > now;
      Sign(items[m], now);
      forall x | x in items ensures items[x].birth > now {
        assert Aged(items[x], now) <= Aged(items[m], now);
        Sign(items[x], now);
      }
    }
  }

  /** The one returned leads in priority times time in queue: no younger one of equal priority, no lesser one of equal age. */
  lemma PickLeads<T>(items: Items<T>, now: real, x: T, y: T)
    requires Picks(items, now, Some(x)) && y in items
    ensures x in items && items[x].birth <= now
    ensures items[y].priority * (now - items[y].birth) <= items[x].priority * (now - items[x].birth)
    ensures items[x].priority == items[y].priority > 0.0 ==> items[x].birth <= items[y].birth
    ensures items[x].birth == items[y].birth < now ==> items[x].priority >= items[y].priority
  {
    var ex, ey := items[x], items[y];
    assert Aged(ey, now) <= Aged(ex, now);
    if ex.priority == ey.priority > 0.0 && ex.birth > ey.birth {
      Shorter(ex.priority, now - ex.birth, now - ey.birth);
    }
    if ex.birth == ey.birth < now && ex.priority < ey.priority {
      Shorter(now - ex.birth, ex.priority, ey.priority);
    }
  }

  lemma Shorter(p: real, a: real, b: real)
    requires p > 0.0 && a < b
    ensures p * a < p * b && a * p < b * p
  {
  }

  lemma Sign(e: Entry, now: real)
    requires e.priority > 0.0
    ensures Aged(e, now) < 0.0 <==> e.birth > now
  {
    if e.birth > now {
      assert e.priority * (now - e.birth) < 0.0;
    } else {
      assert e.priority * (now - e.birth) >= 0.0;
    }
  }

  // ---- runs of next() ---------------------------------------------------------------

  datatype Call<T> = Call(now: real, r: Option<T>)

  /** Calls to next() on a fixed membership, at non-decreasing times. */
  ghost predicate IsRun<T>(ms: seq<Items<T>>, calls: seq<Call<T>>, cycle: real) {
    && |ms| == |calls| + 1
    && (forall i :: 0 <= i < |calls| ==> Picks(ms[i], calls[i].now, calls[i].r))
    && (forall i :: 0 <= i < |calls| ==> ms[i + 1] == Taken(ms[i], calls[i].now, calls[i].r, cycle))
    && (forall i, j :: 0 <= i <= j < |calls| ==> calls[i].now <= calls[j].now)
  }

  ghost predicate TakenAt<T>(calls: seq<Call<T>>, k: int, x: T) {
    0 <= k < |calls| && calls[k].r == Some(x)
  }

  ghost predicate NotTaken<T>(calls: seq<Call<T>>, i: int, j: int, x: T) {
    forall k :: i < k < j ==> !TakenAt(calls, k, x)
  }

  /** An item that is not taken keeps its entry; priorities never change. */
  lemma {:induction false} EntryStays<T>(ms: seq<Items<T>>, calls: seq<Call<T>>, cycle: real, i: nat, j: nat, x: T)
    requires IsRun(ms, calls, cycle) && i <= j < |ms| && x in ms[i]
    ensures x in ms[j] && ms[j][x].priority == ms[i][x].priority
    ensures (forall k :: i <= k < j ==> !TakenAt(calls, k, x)) ==> ms[j][x] == ms[i][x]
  {
    if i < j {
      EntryStays(ms, calls, cycle, i, j - 1, x);
      assert ms[j - 1 + 1] == Taken(ms[j - 1], calls[j - 1].now, calls[j - 1].r, cycle);
      assert Picks(ms[j - 1], calls[j - 1].now, calls[j - 1].r);
      if forall k :: i <= k < j ==> !TakenAt(calls, k, x) {
        assert !TakenAt(calls, j - 1, x);
      }
    }
  }

  /** The entry of an item not taken again since call `i` is the rebirth of call `i`. */
  lemma RebirthStays<T>(ms: seq<Items<T>>, calls: seq<Call<T>>, cycle: real, i: nat, j: nat, y: T)
    requires IsRun(ms, calls, cycle) && i < j < |ms| && TakenAt(calls, i, y) && NotTaken(calls, i, j, y)
    ensures y in ms[i] && y in ms[j]
    ensures ms[j][y] == Entry(ms[i][y].priority, calls[i].now + cycle)
  {
    assert Picks(ms[i], calls[i].now, calls[i].r);
    assert ms[i + 1] == Taken(ms[i], calls[i].now, calls[i].r, cycle);
    EntryStays(ms, calls, cycle, i + 1, j, y);
  }

  /** The last time before `j` at which `y` was taken, given that it was taken at `i`. */
  ghost function LastTaken<T>(calls: seq<Call<T>>, i: nat, j: nat, y: T): (k: nat)
    requires i < j <= |calls| && TakenAt(calls, i, y)
    ensures i <= k < j && TakenAt(calls, k, y) && NotTaken(calls, k, j, y)
    decreases j
  {
    if TakenAt(calls, j - 1, y) then j - 1 else LastTaken(calls, i, j - 1, y)
  }

  /** No item is returned twice within the cycle length. */
  lemma NoRepeatWithinCycle<T>(ms: seq<Items<T>>, calls: seq<Call<T>>, cycle: real, i: nat, j: nat, y: T)
    requires IsRun(ms, calls, cycle) && i < j < |calls| && TakenAt(calls, i, y) && TakenAt(calls, j, y)
    ensures calls[j].now >= calls[i].now + cycle
  {
    var k := LastTaken(calls, i, j, y);
    RebirthStays(ms, calls, cycle, k, j, y);
    assert Picks(ms[j], calls[j].now, calls[j].r);
    assert calls[i].now <= calls[k].now;
  }

  /**
   The price of overtaking: if `y` is taken at `i` and again at `j`, and `x` was
   already waiting at `i` and is still waiting at `j`, then `y` must have waited
   long enough beyond its cycle to out-age `x`.
   */
  lemma OvertakingGap<T>(ms: seq<Items<T>>, calls: seq<Call<T>>, cycle: real, i: nat, j: nat, x: T, y: T)
    requires IsRun(ms, calls, cycle) && i < j < |calls| && TakenAt(calls, i, y) && TakenAt(calls, j, y)
    requires x in ms[i] && x != y && NotTaken(calls, i, j, x)
    requires Positive(ms[i]) && cycle > 0.0
    ensures y in ms[i]
    ensures Aged(Entry(ms[i][y].priority, calls[i].now + cycle), calls[j].now) >= Aged(ms[i][x], calls[j].now)
  {
    assert Picks(ms[i], calls[i].now, calls[i].r);
    var k := LastTaken(calls, i, j, y);
    RebirthStays(ms, calls, cycle, k, j, y);
    EntryStays(ms, calls, cycle, i, k, y);
    assert !TakenAt(calls, i, x);
    EntryStays(ms, calls, cycle, i, j, x);
    MaxWins(ms[j], calls[j].now, x, y);
    assert calls[i].now <= calls[k].now;
    EarlierRebirth(ms[i][x], ms[i][y].priority, calls[i].now + cycle, calls[k].now + cycle, calls[j].now);
  }

  lemma MaxWins<T>(items: Items<T>, now: real, x: T, y: T)
    requires x in items && Picks(items, now, Some(y))
    ensures Aged(items[x], now) <= Aged(items[y], now)
  {
  }

  lemma EarlierRebirth(x: Entry, p: real, born: real, reborn: real, now: real)
    requires p > 0.0 && born <= reborn && Aged(x, now) <= Aged(Entry(p, reborn), now)
    ensures Aged(Entry(p, born), now) >= Aged(x, now)
  {
    Monotone(p, now - reborn, now - born);
  }

  lemma Monotone(p: real, a: real, b: real)
    requires p > 0.0 && a <= b
    ensures p * a <= p * b
  {
  }

  /**
   No overtaking: between two returns of `y`, every item of at least equal
   priority that was born no later than the first return is returned itself.
   */
  lemma NoOvertaking<T>(ms: seq<Items<T>>, calls: seq<Call<T>>, cycle: real, i: nat, j: nat, x: T, y: T)
    requires IsRun(ms, calls, cycle) && i < j < |calls| && TakenAt(calls, i, y) && TakenAt(calls, j, y)
    requires x in ms[i] && y in ms[i] && x != y && ms[i][x].priority >= ms[i][y].priority
    requires ms[i][x].birth <= calls[i].now
    requires Positive(ms[i]) && cycle > 0.0
    ensures exists k :: i < k < j && TakenAt(calls, k, x)
  {
    if NotTaken(calls, i, j, x) {
      OvertakingGap(ms, calls, cycle, i, j, x, y);
      NoRepeatWithinCycle(ms, calls, cycle, i, j, y);
      Younger(ms[i][y].priority, ms[i][x].priority, calls[j].now - (calls[i].now + cycle),
              calls[j].now - ms[i][x].birth);
      assert false;
    }
  }

  lemma Younger(p: real, q: real, a: real, b: real)
    requires 0.0 < p <= q && 0.0 <= a < b
    ensures p * a < q * b
  {
    Monotone(b, p, q);
    assert p * a < p * b;
  }
}
