/**
 Longest-first scheduling of the test files: the order `sortLongestFirst` gives them from the
 durations recorded by an earlier run, and what that order buys in the worker pool.
 */
module LongestFirst {
  import opened Options
  import opened ListScheduling
  import RunPool

  type Durations = map<string, int>

  function Select(files: seq<string>, recorded: Durations, known: bool): seq<string> {
    if files == [] then []
    else
      var rest := Select(files[1..], recorded, known);
      if (files[0] in recorded) == known then [files[0]] + rest else rest
  }

  function Of(recorded: Durations, file: string): int {
    if file in recorded then recorded[file] else 0
  }

  /** Put a file before the first one that took no longer. */
  function Insert(file: string, sorted: seq<string>, recorded: Durations): seq<string> {
    if sorted == [] || Of(recorded, sorted[0]) <= Of(recorded, file) then [file] + sorted
    else [sorted[0]] + Insert(file, sorted[1..], recorded)
  }

  /** The stable descending sort by recorded duration. */
  function SortDescending(files: seq<string>, recorded: Durations): seq<string> {
    if files == [] then [] else Insert(files[0], SortDescending(files[1..], recorded), recorded)
  }

  ghost predicate Descending(files: seq<string>, recorded: Durations) {
    forall i, j :: 0 <= i <= j < |files| ==> Of(recorded, files[i]) >= Of(recorded, files[j])
  }

  /** The files that took `ms`, in order. */
  ghost function Taking(files: seq<string>, recorded: Durations, ms: int): seq<string> {
    if files == [] then []
    else
      var rest := Taking(files[1..], recorded, ms);
      if Of(recorded, files[0]) == ms then [files[0]] + rest else rest
  }

  lemma DescendingCons(head: string, tail: seq<string>, recorded: Durations)
    ensures Descending([head] + tail, recorded)
       <==> Descending(tail, recorded) && forall x :: x in tail ==> Of(recorded, head) >= Of(recorded, x)
  {
    var all := [head] + tail;
    assert forall i :: 0 <= i < |tail| ==> all[i + 1] == tail[i];
    if Descending(all, recorded) {
      assert forall j :: 1 <= j < |all| ==> Of(recorded, all[0]) >= Of(recorded, all[j]);
    }
  }

  lemma {:induction false} InsertMembers(file: string, sorted: seq<string>, recorded: Durations)
    ensures multiset(Insert(file, sorted, recorded)) == multiset(sorted) + multiset{file}
    ensures forall x :: x in Insert(file, sorted, recorded) <==> x == file || x in sorted
  {
    if Insert(file, sorted, recorded) != [file] + sorted {
      InsertMembers(file, sorted[1..], recorded);
      assert sorted == [sorted[0]] + sorted[1..];
    }
  }

  lemma {:induction false} InsertSorts(file: string, sorted: seq<string>, recorded: Durations)
    requires Descending(sorted, recorded)
    ensures Descending(Insert(file, sorted, recorded), recorded)
  {
    hide Descending;
    if sorted == [] {
      NothingToSort(recorded);
      DescendingCons(file, [], recorded);
    } else {
      var head, tail := sorted[0], sorted[1..];
      assert sorted == [head] + tail;
      DescendingCons(head, tail, recorded);
      DescendingCons(file, sorted, recorded);
      if Of(recorded, head) > Of(recorded, file) {
        InsertSorts(file, tail, recorded);
        InsertMembers(file, tail, recorded);
        DescendingCons(head, Insert(file, tail, recorded), recorded);
      }
    }
  }

  lemma NothingToSort(recorded: Durations)
    ensures Descending([], recorded)
  {
  }

  lemma TakingCons(head: string, tail: seq<string>, recorded: Durations, ms: int)
    ensures Taking([head] + tail, recorded, ms)
         == (if Of(recorded, head) == ms then [head] else []) + Taking(tail, recorded, ms)
  {
    assert ([head] + tail)[1..] == tail;
  }

  lemma {:induction false} InsertIsStable(file: string, sorted: seq<string>, recorded: Durations, ms: int)
    ensures Taking(Insert(file, sorted, recorded), recorded, ms) == Taking([file] + sorted, recorded, ms)
  {
    if sorted != [] && Of(recorded, sorted[0]) > Of(recorded, file) {
      hide Taking;
      var head, tail := sorted[0], sorted[1..];
      assert sorted == [head] + tail;
      InsertIsStable(file, tail, recorded, ms);
      TakingCons(head, Insert(file, tail, recorded), recorded, ms);
      TakingCons(head, tail, recorded, ms);
      TakingCons(file, tail, recorded, ms);
      TakingCons(file, sorted, recorded, ms);
    }
  }

  /** The sort is a permutation, longest first, and leaves files of equal duration in order. */
  lemma {:induction false} SortIsStable(files: seq<string>, recorded: Durations)
    ensures var r := SortDescending(files, recorded);
      && Descending(r, recorded) && multiset(r) == multiset(files)
      && forall ms :: Taking(r, recorded, ms) == Taking(files, recorded, ms)
  {
    if files == [] {
      NothingToSort(recorded);
    } else {
      hide Taking, Descending, Insert;
      var head, tail := files[0], files[1..];
      var sorted := SortDescending(tail, recorded);
      assert files == [head] + tail;
      SortIsStable(tail, recorded);
      InsertSorts(head, sorted, recorded);
      InsertMembers(head, sorted, recorded);
      forall ms ensures Taking(SortDescending(files, recorded), recorded, ms) == Taking(files, recorded, ms) {
        InsertIsStable(head, sorted, recorded, ms);
        TakingCons(head, sorted, recorded, ms);
        TakingCons(head, tail, recorded, ms);
      }
    }
  }

  lemma {:induction false} SelectSplits(files: seq<string>, recorded: Durations)
    ensures multiset(Select(files, recorded, true)) + multiset(Select(files, recorded, false)) == multiset(files)
    ensures forall f :: f in Select(files, recorded, true) ==> f in recorded
    ensures (forall f :: f in files ==> f in recorded) ==>
              Select(files, recorded, false) == [] && Select(files, recorded, true) == files
  {
    if files != [] {
      assert files == [files[0]] + files[1..];
      SelectSplits(files[1..], recorded);
    }
  }

  /** The order of the test files; without recorded durations they stay as they are. */
  method SortLongestFirst(files: seq<string>, recorded: Option<Durations>) returns (sorted: seq<string>)
    ensures multiset(sorted) == multiset(files)
    ensures recorded.None? ==> sorted == files
    ensures recorded.Some? ==>
              var known := SortDescending(Select(files, recorded.value, true), recorded.value);
              sorted == known + Select(files, recorded.value, false) && Descending(known, recorded.value)
  {
    hide Select, SortDescending, Descending;
    if recorded.None? {
      return files;
    }
    var d := recorded.value;
    NothingSelected(d);
    var known, unknown: seq<string> := [], [];
    for i := 0 to |files|
      invariant known == Select(files[..i], d, true)
      invariant unknown == Select(files[..i], d, false)
    {
      SelectSnoc(files[..i], files[i], d);
      assert files[..i + 1] == files[..i] + [files[i]];
      if files[i] in d {
        known := known + [files[i]];
      } else {
        unknown := unknown + [files[i]];
      }
    }
    assert files[..|files|] == files;
    SelectSplits(files, d);
    SortIsStable(known, d);
    sorted := SortDescending(known, d) + unknown;
  }

  lemma NothingSelected(recorded: Durations)
    ensures forall known :: Select([], recorded, known) == []
  {
  }

  lemma {:induction false} SelectSnoc(files: seq<string>, file: string, recorded: Durations)
    ensures forall known ::
              Select(files + [file], recorded, known)
              == Select(files, recorded, known) + (if (file in recorded) == known then [file] else [])
  {
    if files == [] {
      assert [] + [file] == [file] && [file][1..] == [];
    } else {
      assert (files + [file])[1..] == files[1..] + [file];
      SelectSnoc(files[1..], file, recorded);
    }
  }

  // ---------------------------------------------------------------------------
  // What the order buys
  // ---------------------------------------------------------------------------

  /** Recorded durations that are what the files really take. */
  ghost predicate Accurate(files: seq<string>, recorded: Durations) {
    forall f :: f in files ==> f in recorded && recorded[f] >= 0
  }

  function Times(files: seq<string>, recorded: Durations): (d: seq<real>)
    ensures |d| == |files| && forall j :: 0 <= j < |d| ==> d[j] == Of(recorded, files[j]) as real
  {
    seq(|files|, j requires 0 <= j < |files| => Of(recorded, files[j]) as real)
  }

  lemma SortedTimes(files: seq<string>, sorted: seq<string>, recorded: Durations)
    requires Accurate(files, recorded) && multiset(sorted) == multiset(files) && Descending(sorted, recorded)
    ensures ListScheduling.Durations(Times(sorted, recorded)) && ListScheduling.LongestFirst(Times(sorted, recorded))
  {
    forall f | f in sorted
      ensures f in files
    {
      assert f in multiset(sorted);
    }
  }

  /**
   The whole run: sort by the recorded durations, then share the files among the workers. If the
   durations are accurate, no assignment `b` of the files to as many workers finishes, on all of
   them, by a `bound` that the run exceeds by more than the factor 4/3 - 1/(3m).
   */
  method RunLongestFirst<R>(files: seq<string>, recorded: Durations, workers: int, worker: string -> R)
    returns (sorted: seq<string>, results: array<Option<R>>, free: seq<real>)
    requires Accurate(files, recorded) && workers >= 1
    ensures multiset(sorted) == multiset(files) && results.Length == |files|
    ensures |free| == RunPool.Runners(workers, |files|)
    ensures |sorted| == |files| && forall i :: 0 <= i < |sorted| ==> results[i] == Some(worker(sorted[i]))
    ensures forall b, bound, r ::
              Assigns(b, |free|, |files|) && Within(b, Times(sorted, recorded), |free|, bound) && 0 <= r < |free| ==>
                FourThirds(|free| as real, free[r], bound)
  {
    sorted := SortLongestFirst(files, Some(recorded));
    SelectSplits(files, recorded);
    assert sorted == SortDescending(files, recorded);
    assert |sorted| == |multiset(sorted)| == |files|;
    ghost var d := Times(sorted, recorded);
    SortedTimes(files, sorted, recorded);
    ghost var schedule: seq<nat>;
    results, free, schedule := RunPool.Run(sorted, workers, worker, Times(sorted, recorded));
    forall b, bound, r: nat |
      Assigns(b, |free|, |files|) && Within(b, d, |free|, bound) && r < |free|
      ensures FourThirds(|free| as real, free[r], bound)
    {
      LongestFirstBound(schedule, b, d, |free|, bound, r);
    }
  }
}
