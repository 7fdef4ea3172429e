/**
 The test runner's worker pool: `min(concurrency, |items|)` runners share one counter, and each
 takes the next index whenever the item it awaits settles.
 */
module RunPool {
  import opened Options
  import opened ListScheduling

  /** What a runner awaits: the item it took, or nothing more. */
  datatype Slot = Busy(idx: nat) | Done

  /** How many runners are started. */
  function Runners(concurrency: int, n: nat): (m: nat)
    ensures m <= n
  {
    if concurrency < 0 then 0 else if concurrency < n then concurrency else n
  }

  /**
   The state the runners share. Settlements may arrive in any order: `Settle` may be called for
   whichever runner is busy.
   */
  class Pool<T, R> {
    const items: seq<T>
    const results: array<Option<R>>
    var next: nat
    var slots: seq<Slot>
    /** The runner that took item `i`, for every item taken so far. */
    ghost var takers: seq<nat>

    ghost predicate Valid()
      reads this, results
    {
      && results.Length == |items|
      && |takers| == (if next < |items| then next else |items|)
      && (forall i :: 0 <= i < |takers| ==> takers[i] < |slots|)
      // an item taken is either done or awaited by exactly the runner that took it
      && (forall i :: 0 <= i < |takers| ==> (results[i].None? <==> slots[takers[i]] == Busy(i)))
      && (forall i :: |takers| <= i < |items| ==> results[i].None?)
      && (forall r :: 0 <= r < |slots| && slots[r].Busy? ==>
            slots[r].idx < |takers| && takers[slots[r].idx] == r)
      // no runner is idle while an item is waiting
      && (forall r :: 0 <= r < |slots| && slots[r].Done? ==> next >= |items|)
    }

    constructor (items: seq<T>)
      ensures Valid() && fresh(results) && this.items == items
      ensures next == 0 && slots == [] && takers == []
    {
      this.items := items;
      results := new Option<R>[|items|](i => None);
      next, slots, takers := 0, [], [];
    }

    /** Start one more runner; it takes its first item at once. */
    method StartRunner()
      requires Valid()
      modifies this
      ensures Valid() && next == old(next) + 1 && |slots| == old(|slots|) + 1
      ensures slots[..old(|slots|)] == old(slots)
      ensures takers == (if old(next) < |items| then old(takers) + [old(|slots|)] else old(takers))
      ensures slots[old(|slots|)].Busy? <==> old(next) < |items|
    {
      var idx := next;
      next := next + 1;
      if idx >= |items| {
        slots := slots + [Done];
      } else {
        takers := takers + [|slots|];
        slots := slots + [Busy(idx)];
      }
    }

    /** The item runner `r` awaits settles with `value`; the runner takes the next item, if any. */
    method Settle(r: nat, value: R)
      requires Valid() && r < |slots| && slots[r].Busy?
      modifies this, results
      ensures Valid() && next == old(next) + 1
      ensures slots == old(slots)[r := if old(next) < |items| then Busy(old(next)) else Done]
      ensures takers == (if old(next) < |items| then old(takers) + [r] else old(takers))
      ensures results[..] == old(results[..])[old(slots[r].idx) := Some(value)]
      ensures old(results[slots[r].idx]) == None
    {
      var mine := slots[r].idx;
      results[mine] := Some(value);
      var idx := next;
      next := next + 1;
      if idx >= |items| {
        slots := slots[r := Done];
      } else {
        takers := takers + [r];
        slots := slots[r := Busy(idx)];
      }
    }
  }

  /** Handing out one more item leaves the loads before it as they were. */
  lemma {:induction false} LoadOfExtension(a: seq<nat>, x: nat, d: seq<real>, r: nat, k: nat)
    requires k <= |d| && k <= |a|
    ensures Load(a + [x], d, r, k) == Load(a, d, r, k)
  {
    if k > 0 {
      LoadOfExtension(a, x, d, r, k - 1);
    }
  }

  lemma {:induction false} NothingTakenYet(a: seq<nat>, d: seq<real>, r: nat, k: nat)
    requires k <= |d| && k <= |a|
    requires forall j :: 0 <= j < k ==> a[j] != r
    ensures Load(a, d, r, k) == 0.0
  {
    if k > 0 {
      NothingTakenYet(a, d, r, k - 1);
    }
  }

  /** The items handed out so far went to the runner that was free first, out of `m`. */
  ghost predicate GreedySoFar(a: seq<nat>, d: seq<real>, m: nat) {
    && |a| <= |d|
    && (forall j :: 0 <= j < |a| ==> a[j] < m)
    && (forall j :: 0 <= j < |a| ==> FreeFirst(a, d, m, j, a[j]))
  }

  lemma {:induction false} GreedyExtension(a: seq<nat>, d: seq<real>, m: nat, r: nat)
    requires |a| < |d| && GreedySoFar(a, d, m) && r < m && FreeFirst(a, d, m, |a|, r)
    ensures GreedySoFar(a + [r], d, m)
    ensures forall q: nat :: Load(a + [r], d, q, |a| + 1)
                          == Load(a, d, q, |a|) + (if q == r then d[|a|] else 0.0)
  {
    var b := a + [r];
    forall q: nat, j | 0 <= j <= |a|
      ensures Load(b, d, q, j) == Load(a, d, q, j)
    {
      LoadOfExtension(a, r, d, q, j);
    }
    forall j | 0 <= j < |b|
      ensures FreeFirst(b, d, m, j, b[j])
    {
      assert FreeFirst(a, d, m, j, b[j]);
    }
  }

  /** Which busy runner's item settles first; ties may go either way. */
  method FirstToSettle(slots: seq<Slot>, free: seq<real>) returns (first: Option<nat>)
    requires |slots| == |free|
    ensures first.None? ==> forall r :: 0 <= r < |slots| ==> slots[r].Done?
    ensures first.Some? ==>
              && first.value < |slots| && slots[first.value].Busy?
              && forall r :: 0 <= r < |slots| && slots[r].Busy? ==> free[first.value] <= free[r]
  {
    first := None;
    for i := 0 to |slots|
      invariant first.None? ==> forall r :: 0 <= r < i ==> slots[r].Done?
      invariant first.Some? ==>
                  && first.value < i && slots[first.value].Busy?
                  && forall r :: 0 <= r < i && slots[r].Busy? ==> free[first.value] <= free[r]
    {
      if slots[i].Busy? && (first.None? || free[i] < free[first.value]) {
        first := Some(i);
      }
    }
  }

  /** `free` is when each runner settled its last item, and every item went to the first one free. */
  ghost predicate OnTime<T, R>(pool: Pool<T, R>, free: seq<real>, d: seq<real>, m: nat)
    requires |d| == |pool.items|
    reads pool
  {
    && |free| == |pool.slots|
    && GreedySoFar(pool.takers, d, m)
    && forall q :: 0 <= q < |free| ==> free[q] == Load(pool.takers, d, q, |pool.takers|)
  }

  /** Start `m` runners; runner `r` takes item `r`. */
  method StartRunners<T, R>(pool: Pool<T, R>, m: nat, d: seq<real>) returns (free: seq<real>)
    requires pool.Valid() && pool.next == 0 && pool.slots == [] && m <= |pool.items|
    requires |d| == |pool.items| && Durations(d)
    modifies pool
    ensures pool.Valid() && pool.next == m == |pool.slots|
    ensures m > 0 ==> OnTime(pool, free, d, m)
    ensures m == 0 ==> free == []
  {
    free := [];
    for r := 0 to m
      invariant pool.Valid()
      invariant pool.next == r == |pool.slots| == |pool.takers|
      invariant forall i :: 0 <= i < r ==> pool.takers[i] == i
      invariant OnTime(pool, free, d, m)
    {
      ghost var a := pool.takers;
      NothingTakenYet(a, d, r, r);
      forall q: nat ensures Load(a, d, q, r) >= 0.0 {
        LoadMonotone(a, d, q, 0, r);
      }
      GreedyExtension(a, d, m, r);
      pool.StartRunner();
      free := free + [d[r]];
    }
  }

  /** While items are left every runner is busy, so the one due first is the first to be free. */
  lemma DueFirst<T, R>(pool: Pool<T, R>, free: seq<real>, r: nat, d: seq<real>)
    requires pool.Valid() && |d| == |pool.items| && OnTime(pool, free, d, |free|)
    requires pool.next < |pool.items| && r < |pool.slots|
    requires forall q :: 0 <= q < |pool.slots| && pool.slots[q].Busy? ==> free[r] <= free[q]
    ensures |pool.takers| < |d| && FreeFirst(pool.takers, d, |free|, |pool.takers|, r)
  {
    hide Load;
  }

  /** The item of the runner that is due first settles, and that runner takes the next item. */
  method SettleFirst<T, R>(pool: Pool<T, R>, free: seq<real>, r: nat, worker: T -> R, d: seq<real>)
    returns (free': seq<real>)
    requires pool.Valid() && |d| == |pool.items| && OnTime(pool, free, d, |free|)
    requires r < |pool.slots| && pool.slots[r].Busy?
    requires forall q :: 0 <= q < |pool.slots| && pool.slots[q].Busy? ==> free[r] <= free[q]
    modifies pool, pool.results
    ensures pool.Valid() && OnTime(pool, free', d, |free'|)
    ensures |free'| == |free|
    ensures old(pool.slots[r].idx) < |pool.items| && old(pool.results[pool.slots[r].idx]).None?
    ensures pool.results[..] == old(pool.results[..])[
              old(pool.slots[r].idx) := Some(worker(pool.items[old(pool.slots[r].idx)]))]
  {
    hide FreeFirst, Load, GreedySoFar;
    ghost var a := pool.takers;
    var mine, idx := pool.slots[r].idx, pool.next;
    free' := free;
    if idx < |pool.items| {
      DueFirst(pool, free, r, d);
      GreedyExtension(a, d, |free|, r);
      free' := free[r := free[r] + d[idx]];
    }
    pool.Settle(r, worker(pool.items[mine]));
  }

  /** The items that have not settled. */
  ghost function Unsettled<R>(results: seq<Option<R>>): set<int> {
    set i | 0 <= i < |results| && results[i].None?
  }

  lemma OneLessUnsettled<R>(results: seq<Option<R>>, i: nat, value: R)
    requires i < |results| && results[i].None?
    ensures Unsettled(results[i := Some(value)]) < Unsettled(results)
  {
    assert i in Unsettled(results);
  }

  /** The results that are in are the right ones. */
  ghost predicate Correct<T, R>(items: seq<T>, worker: T -> R, results: seq<Option<R>>) {
    && |results| == |items|
    && forall i :: 0 <= i < |items| && results[i].Some? ==> results[i].value == worker(items[i])
  }

  /** When every runner is through, so is every item. */
  lemma AllThrough<T, R>(pool: Pool<T, R>)
    requires pool.Valid() && |pool.slots| > 0
    requires forall r :: 0 <= r < |pool.slots| ==> pool.slots[r].Done?
    ensures |pool.takers| == |pool.items|
    ensures forall i :: 0 <= i < |pool.items| ==> pool.results[i].Some?
  {
    assert pool.slots[0].Done?;
  }

  /**
   Run `worker` over all items. `d[i]` is how long item `i` takes; `free[r]` is the time at
   which runner `r` settled its last item, and `schedule` which runner ran which item.
   */
  method Run<T, R>(items: seq<T>, concurrency: int, worker: T -> R, d: seq<real>)
    returns (results: array<Option<R>>, free: seq<real>, ghost schedule: seq<nat>)
    requires |d| == |items| && Durations(d)
    ensures fresh(results) && results.Length == |items|
    ensures |free| == Runners(concurrency, |items|)
    // every result lands at its own index; nothing runs without a runner
    ensures concurrency >= 1 ==> forall i :: 0 <= i < |items| ==> results[i] == Some(worker(items[i]))
    ensures concurrency <= 0 ==> forall i :: 0 <= i < |items| ==> results[i] == None
    ensures concurrency >= 1 ==> Greedy(schedule, d, |free|)
    ensures concurrency >= 1 ==>
              forall r :: 0 <= r < |free| ==>
                free[r] == Load(schedule, d, r, |items|)
    // no runner is busy for longer than m * T <= (all work) + (m - 1) * (longest item) allows
    ensures concurrency >= 1 ==>
              forall r, longest :: 0 <= r < |free| && NoneLonger(d, longest) ==>
                ListBound(|free| as real, free[r], Prefix(d, |d|), longest)
  {
    hide FreeFirst, Load, ListBound, NoneLonger, Prefix;
    var m := Runners(concurrency, |items|);
    var pool := new Pool<T, R>(items);
    results := pool.results;
    free := StartRunners(pool, m, d);
    if m == 0 {
      schedule := [];
      return;
    }
    while true
      invariant pool.Valid() && fresh(pool) && fresh(results) && |free| == m
      invariant OnTime(pool, free, d, m)
      invariant pool.items == items && pool.results == results
      invariant Correct(items, worker, results[..])
      decreases Unsettled(results[..])
    {
      var first := FirstToSettle(pool.slots, free);
      if first.None? {
        break;
      }
      OneLessUnsettled(results[..], pool.slots[first.value].idx, worker(items[pool.slots[first.value].idx]));
      free := SettleFirst(pool, free, first.value, worker, d);
    }
    AllThrough(pool);
    schedule := pool.takers;
    assert forall i :: 0 <= i < |items| ==> results[..][i] == results[i];
    forall r, longest | 0 <= r < |free| && NoneLonger(d, longest)
      ensures ListBound(|free| as real, free[r], Prefix(d, |d|), longest)
    {
      GrahamBound(schedule, d, m, longest, r);
    }
  }
}
