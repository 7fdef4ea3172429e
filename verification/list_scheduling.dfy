/**
 The scheduling theory behind the test runner's worker pool: what a runner that always hands
 the next item to the worker that falls free first can cost, compared with the best possible
 assignment of the same items to the same number of workers.

 A schedule is a sequence `a`: item `j` runs on worker `a[j]`, after the earlier items of that
 worker.
 */
module ListScheduling {

  /** The total weight of the first `k` items. */
  ghost function Prefix(w: seq<real>, k: nat): real
    requires k <= |w|
  {
    if k == 0 then 0.0 else Prefix(w, k - 1) + w[k - 1]
  }

  /** The weight that the first `k` items put on worker `r`. */
  ghost function Load(a: seq<nat>, w: seq<real>, r: nat, k: nat): real
    requires k <= |w| && k <= |a|
  {
    if k == 0 then 0.0
    else Load(a, w, r, k - 1) + (if a[k - 1] == r then w[k - 1] else 0.0)
  }

  /** The weight that the first `k` items put on workers `0..m`. */
  ghost function LoadBelow(a: seq<nat>, w: seq<real>, m: nat, k: nat): real
    requires k <= |w| && k <= |a|
  {
    if m == 0 then 0.0 else LoadBelow(a, w, m - 1, k) + Load(a, w, m - 1, k)
  }

  ghost predicate Assigns(a: seq<nat>, m: nat, n: nat) {
    |a| == n && forall j :: 0 <= j < n ==> a[j] < m
  }

  ghost predicate Durations(d: seq<real>) {
    forall j :: 0 <= j < |d| ==> d[j] >= 0.0
  }

  ghost predicate LongestFirst(d: seq<real>) {
    forall i, j :: 0 <= i <= j < |d| ==> d[i] >= d[j]
  }

  /** None of the `m` workers has less to do than `r` when item `j` is handed out. */
  ghost predicate FreeFirst(a: seq<nat>, d: seq<real>, m: nat, j: nat, r: nat)
    requires j <= |a| && j <= |d|
  {
    forall q :: 0 <= q < m ==> Load(a, d, r, j) <= Load(a, d, q, j)
  }

  /** Every item was handed to a worker that no other worker beat to being free. */
  ghost predicate Greedy(a: seq<nat>, d: seq<real>, m: nat) {
    && Assigns(a, m, |d|)
    && forall j :: 0 <= j < |d| ==> FreeFirst(a, d, m, j, a[j])
  }

  /** When item `j` finishes: it starts when its worker has done the worker's earlier items. */
  ghost function Finish(a: seq<nat>, d: seq<real>, j: nat): real
    requires j < |d| && j < |a|
  {
    Load(a, d, a[j], j) + d[j]
  }

  /** Every worker is done by `bound`. */
  ghost predicate Within(a: seq<nat>, d: seq<real>, m: nat, bound: real)
    requires |a| == |d|
  {
    forall r :: 0 <= r < m ==> Load(a, d, r, |d|) <= bound
  }

  /** `t` is within 4/3 - 1/(3m) of `bound`. */
  ghost predicate FourThirds(m: real, t: real, bound: real) {
    3.0 * m * t <= (4.0 * m - 1.0) * bound
  }

  ghost predicate NoneLonger(d: seq<real>, longest: real) {
    longest >= 0.0 && forall j :: 0 <= j < |d| ==> d[j] <= longest
  }

  /** `t` is within the work of all items plus `m - 1` times one item, shared by `m` workers. */
  ghost predicate ListBound(m: real, t: real, total: real, item: real) {
    m * t <= total + (m - 1.0) * item
  }

  // ---------------------------------------------------------------------------
  // Loads add up
  // ---------------------------------------------------------------------------

  lemma {:induction false} LoadBelowStep(a: seq<nat>, w: seq<real>, m: nat, k: nat)
    requires 0 < k <= |w| && k <= |a|
    ensures LoadBelow(a, w, m, k)
         == LoadBelow(a, w, m, k - 1) + (if a[k - 1] < m then w[k - 1] else 0.0)
  {
    if m > 0 {
      LoadBelowStep(a, w, m - 1, k);
    }
  }

  lemma {:induction false} LoadBelowEmpty(a: seq<nat>, w: seq<real>, m: nat)
    ensures LoadBelow(a, w, m, 0) == 0.0
  {
    if m > 0 {
      LoadBelowEmpty(a, w, m - 1);
    }
  }

  /** No work is lost and none is counted twice. */
  lemma {:induction false} WorkIsConserved(a: seq<nat>, w: seq<real>, m: nat, k: nat)
    requires k <= |w| && k <= |a|
    requires forall j :: 0 <= j < k ==> a[j] < m
    ensures LoadBelow(a, w, m, k) == Prefix(w, k)
  {
    if k == 0 {
      LoadBelowEmpty(a, w, m);
    } else {
      LoadBelowStep(a, w, m, k);
      WorkIsConserved(a, w, m, k - 1);
    }
  }

  lemma {:induction false} SumOfAtLeast(a: seq<nat>, w: seq<real>, m: nat, k: nat, x: real)
    requires k <= |w| && k <= |a|
    requires forall r :: 0 <= r < m ==> x <= Load(a, w, r, k)
    ensures m as real * x <= LoadBelow(a, w, m, k)
  {
    if m > 0 {
      SumOfAtLeast(a, w, m - 1, k, x);
      assert m as real * x == (m - 1) as real * x + x;
    }
  }

  lemma {:induction false} SumOfAtMost(a: seq<nat>, w: seq<real>, m: nat, k: nat, x: real)
    requires k <= |w| && k <= |a|
    requires forall r :: 0 <= r < m ==> Load(a, w, r, k) <= x
    ensures LoadBelow(a, w, m, k) <= m as real * x
  {
    if m > 0 {
      SumOfAtMost(a, w, m - 1, k, x);
      assert m as real * x == (m - 1) as real * x + x;
    }
  }

  lemma {:induction false} PrefixMonotone(w: seq<real>, j: nat, k: nat)
    requires j <= k <= |w| && Durations(w)
    ensures Prefix(w, j) <= Prefix(w, k)
    decreases k
  {
    if j < k {
      PrefixMonotone(w, j, k - 1);
    }
  }

  lemma {:induction false} LoadMonotone(a: seq<nat>, w: seq<real>, r: nat, j: nat, k: nat)
    requires j <= k <= |w| && k <= |a| && Durations(w)
    ensures Load(a, w, r, j) <= Load(a, w, r, k)
    decreases k
  {
    if j < k {
      LoadMonotone(a, w, r, j, k - 1);
    }
  }

  /** A worker's load is the finish time of its last item, or nothing. */
  lemma {:induction false} LoadIsAFinish(a: seq<nat>, d: seq<real>, r: nat, k: nat)
    requires k <= |d| && k <= |a|
    ensures Load(a, d, r, k) == 0.0
         || exists j :: 0 <= j < k && a[j] == r && Load(a, d, r, k) == Finish(a, d, j)
  {
    if k > 0 {
      if a[k - 1] == r {
        assert Load(a, d, r, k) == Finish(a, d, k - 1);
      } else {
        LoadIsAFinish(a, d, r, k - 1);
      }
    }
  }

  // ---------------------------------------------------------------------------
  // Graham's bound for any order of the items
  // ---------------------------------------------------------------------------

  /** Item `j` cannot be late by more than the work ahead of it allows. */
  lemma {:induction false} FinishBound(a: seq<nat>, d: seq<real>, m: nat, j: nat)
    requires m > 0 && Durations(d) && Greedy(a, d, m) && j < |d|
    ensures ListBound(m as real, Finish(a, d, j), Prefix(d, j + 1), d[j])
  {
    var start := Load(a, d, a[j], j);
    SumOfAtLeast(a, d, m, j, start);
    WorkIsConserved(a, d, m, j);
    LastItem(m as real, start, Prefix(d, j), d[j]);
  }

  /** m * T <= (sum of all durations) + (m - 1) * (longest duration). */
  lemma {:induction false} GrahamBound(a: seq<nat>, d: seq<real>, m: nat, longest: real, r: nat)
    requires m > 0 && r < m && Durations(d) && Greedy(a, d, m)
    requires NoneLonger(d, longest)
    ensures ListBound(m as real, Load(a, d, r, |d|), Prefix(d, |d|), longest)
  {
    LoadIsAFinish(a, d, r, |d|);
    if Load(a, d, r, |d|) == 0.0 {
      PrefixMonotone(d, 0, |d|);
      NothingToDo(m as real, Load(a, d, r, |d|), Prefix(d, |d|), longest);
    } else {
      var j :| 0 <= j < |d| && a[j] == r && Load(a, d, r, |d|) == Finish(a, d, j);
      FinishBound(a, d, m, j);
      PrefixMonotone(d, j + 1, |d|);
      WithLongest(m as real, Load(a, d, r, |d|), Prefix(d, j + 1), Prefix(d, |d|), d[j], longest);
    }
  }

  lemma LastItem(m: real, start: real, ahead: real, last: real)
    requires m * start <= ahead
    ensures ListBound(m, start + last, ahead + last, last)
  {
    assert m * (start + last) == m * start + m * last;
    assert (m - 1.0) * last == m * last - last;
  }

  lemma NothingToDo(m: real, load: real, total: real, longest: real)
    requires m >= 1.0 && load == 0.0 && total >= 0.0 && longest >= 0.0
    ensures ListBound(m, load, total, longest)
  {
    ScaleLe(m - 1.0, 0.0, longest);
  }

  lemma WithLongest(m: real, finish: real, ahead: real, total: real, last: real, longest: real)
    requires m >= 1.0 && last <= longest && ahead <= total
    requires ListBound(m, finish, ahead, last)
    ensures ListBound(m, finish, total, longest)
  {
    ScaleLe(m - 1.0, last, longest);
  }

  lemma ScaleLe(c: real, x: real, y: real)
    requires c >= 0.0 && x <= y
    ensures c * x <= c * y
  {
  }

  // ---------------------------------------------------------------------------
  // Graham's bound for items handed out longest first
  // ---------------------------------------------------------------------------

  /**
   The weights for the critical item `k`: an item ahead of `k` weighs 2 if no worker could
   finish both it and `k` within `bound`, and every other item weighs 1.
   */
  ghost function Weights(d: seq<real>, k: nat, bound: real): (w: seq<real>)
    requires k < |d|
    ensures |w| == |d|
  {
    seq(|d|, j requires 0 <= j < |d| => if j < k && d[j] + d[k] > bound then 2.0 else 1.0)
  }

  /** A worker too loaded to fit `k` in carries weight at least 2. */
  lemma {:induction false} OverloadedWeighsTwo(a: seq<nat>, d: seq<real>, k: nat, bound: real, r: nat, p: nat)
    requires k < |d| == |a| && p <= k
    ensures var w := Weights(d, k, bound);
      || Load(a, w, r, p) >= 2.0
      || (Load(a, w, r, p) == 0.0 && Load(a, d, r, p) == 0.0)
      || (Load(a, w, r, p) == 1.0 && Load(a, d, r, p) + d[k] <= bound)
  {
    if p > 0 {
      OverloadedWeighsTwo(a, d, k, bound, r, p - 1);
    }
  }

  /** A worker that finishes within `bound` carries weight at most 2 when no item is short. */
  lemma {:induction false} InBoundWeighsAtMostTwo(b: seq<nat>, d: seq<real>, k: nat, bound: real, r: nat, p: nat)
    requires k < |d| == |b| && p <= k + 1
    requires LongestFirst(d) && 3.0 * d[k] > bound >= 0.0
    ensures var w := Weights(d, k, bound);
      || Load(b, d, r, p) > bound
      || (Load(b, w, r, p) == 0.0 && Load(b, d, r, p) == 0.0)
      || (Load(b, w, r, p) == 1.0 && Load(b, d, r, p) >= d[k])
      || (Load(b, w, r, p) == 2.0 && Load(b, d, r, p) + d[k] > bound)
  {
    if p > 0 {
      InBoundWeighsAtMostTwo(b, d, k, bound, r, p - 1);
      assert d[p - 1] >= d[k];
    }
  }

  /**
   If even the third part of `bound` is too short for item `k`, longest-first finishes `k`
   within any `bound` that some assignment `b` of the same items meets.
   */
  lemma {:induction false} LongItemFitsWithin(a: seq<nat>, b: seq<nat>, d: seq<real>, m: nat, k: nat, bound: real)
    requires m > 0 && k < |d| && Durations(d) && LongestFirst(d)
    requires Greedy(a, d, m) && Assigns(b, m, |d|) && Within(b, d, m, bound)
    requires 3.0 * d[k] > bound
    ensures Finish(a, d, k) <= bound
  {
    LoadMonotone(b, d, b[k], k + 1, |d|);
    LoadMonotone(b, d, b[k], 0, k);
    assert Load(b, d, b[k], k + 1) >= d[k];
    if Finish(a, d, k) > bound {
      var w, n := Weights(d, k, bound), k + 1;
      assert FreeFirst(a, d, m, k, a[k]);
      forall r | 0 <= r < m
        ensures Load(a, w, r, k) >= 2.0
      {
        OverloadedWeighsTwo(a, d, k, bound, r, k);
      }
      forall r | 0 <= r < m
        ensures Load(b, w, r, n) <= 2.0
      {
        InBoundWeighsAtMostTwo(b, d, k, bound, r, n);
        LoadMonotone(b, d, r, n, |d|);
      }
      assert Prefix(w, n) == Prefix(w, k) + 1.0;
      WorkIsConserved(a, w, m, k);
      WorkIsConserved(b, w, m, n);
      SumOfAtLeast(a, w, m, k, 2.0);
      SumOfAtMost(b, w, m, n, 2.0);
      assert false;
    }
  }

  lemma CombineLong(m: real, finish: real, bound: real)
    requires m >= 1.0 && finish <= bound && bound >= 0.0
    ensures FourThirds(m, finish, bound)
  {
    ScaleLe(3.0 * m, finish, bound);
    ScaleLe(bound, 3.0 * m, 4.0 * m - 1.0);
  }

  lemma CombineShort(m: real, finish: real, ahead: real, last: real, bound: real)
    requires m >= 1.0 && 3.0 * last <= bound
    requires ListBound(m, finish, ahead, last) && ahead <= m * bound
    ensures FourThirds(m, finish, bound)
  {
    ScaleLe(m - 1.0, 3.0 * last, bound);
    assert 3.0 * m * finish == 3.0 * (m * finish);
    assert 3.0 * ((m - 1.0) * last) == (m - 1.0) * (3.0 * last);
  }

  lemma {:induction false} LongestFirstFinish(a: seq<nat>, b: seq<nat>, d: seq<real>, m: nat, k: nat, bound: real)
    requires m > 0 && k < |d| && Durations(d) && LongestFirst(d)
    requires Greedy(a, d, m) && Assigns(b, m, |d|) && Within(b, d, m, bound)
    ensures FourThirds(m as real, Finish(a, d, k), bound)
  {
    LoadMonotone(b, d, 0, 0, |d|);
    if 3.0 * d[k] > bound {
      LongItemFitsWithin(a, b, d, m, k, bound);
      CombineLong(m as real, Finish(a, d, k), bound);
    } else {
      FinishBound(a, d, m, k);
      PrefixMonotone(d, k + 1, |d|);
      WorkIsConserved(b, d, m, |d|);
      SumOfAtMost(b, d, m, |d|, bound);
      CombineShort(m as real, Finish(a, d, k), Prefix(d, k + 1), d[k], bound);
    }
  }

  /**
   Longest-first is within 4/3 - 1/(3m) of every assignment of the items to `m` workers, so of
   the best one: 3m * T <= (4m - 1) * bound for each `bound` any assignment `b` meets.
   */
  lemma {:induction false} LongestFirstBound(a: seq<nat>, b: seq<nat>, d: seq<real>, m: nat, bound: real, r: nat)
    requires m > 0 && r < m && Durations(d) && LongestFirst(d)
    requires Greedy(a, d, m) && Assigns(b, m, |d|) && Within(b, d, m, bound)
    ensures FourThirds(m as real, Load(a, d, r, |d|), bound)
  {
    LoadIsAFinish(a, d, r, |d|);
    if Load(a, d, r, |d|) == 0.0 {
      LoadMonotone(b, d, 0, 0, |d|);
      CombineLong(m as real, 0.0, bound);
    } else {
      var j :| 0 <= j < |d| && a[j] == r && Load(a, d, r, |d|) == Finish(a, d, j);
      LongestFirstFinish(a, b, d, m, j, bound);
    }
  }
}
