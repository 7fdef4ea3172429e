/** Reading the shards in another order changes the order of the records and nothing else. */
module LcovOrder {
  import opened Options
  import opened LcovLines
  import opened LcovFacts
  import opened LcovMerge

  // ---------------------------------------------------------------------------
  // Sums and keys do not depend on the order of the facts
  // ---------------------------------------------------------------------------

  lemma {:induction false} SumAtAppend(a: seq<Fact>, b: seq<Fact>, sf: string, kind: Kind, k: string)
    ensures SumAt(a + b, sf, kind, k) == SumAt(a, sf, kind, k) + SumAt(b, sf, kind, k)
  {
    if b == [] {
      assert a + b == a;
    } else {
      var last, init := b[|b| - 1], b[..|b| - 1];
      assert a + b == (a + init) + [last] && b == init + [last];
      SumAtStep(a + init, last, sf, kind, k);
      SumAtStep(init, last, sf, kind, k);
      SumAtAppend(a, init, sf, kind, k);
    }
  }

  /** `xs` without its element at `i`, and how it relates to `xs`. */
  function DropAt<T>(xs: seq<T>, i: nat): (rest: seq<T>)
    requires i < |xs|
    ensures rest == xs[..i] + xs[i + 1..]
    ensures multiset(rest) == multiset(xs) - multiset{xs[i]}
  {
    Middle(xs, i);
    xs[..i] + xs[i + 1..]
  }

  lemma Middle<T>(xs: seq<T>, i: nat)
    requires i < |xs|
    ensures xs[..i] + [xs[i]] + xs[i + 1..] == xs
  {
  }

  lemma SumAtDrop(facts: seq<Fact>, i: nat, sf: string, kind: Kind, k: string)
    requires i < |facts|
    ensures SumAt(facts, sf, kind, k)
         == SumAt(DropAt(facts, i), sf, kind, k) + SumAt([facts[i]], sf, kind, k)
  {
    assert facts == (facts[..i] + [facts[i]]) + facts[i + 1..];
    SumAtAppend(facts[..i] + [facts[i]], facts[i + 1..], sf, kind, k);
    SumAtAppend(facts[..i], [facts[i]], sf, kind, k);
    SumAtAppend(facts[..i], facts[i + 1..], sf, kind, k);
  }

  lemma Occurs<T>(xs: seq<T>, x: T) returns (i: nat)
    requires x in multiset(xs)
    ensures i < |xs| && xs[i] == x
  {
    i :| 0 <= i < |xs| && xs[i] == x;
  }

  /** Conservation: the sum of a key's counts is the same however the facts are ordered. */
  lemma {:induction false} SumAtPermuted(a: seq<Fact>, b: seq<Fact>, sf: string, kind: Kind, k: string)
    requires multiset(a) == multiset(b)
    ensures SumAt(a, sf, kind, k) == SumAt(b, sf, kind, k)
    decreases |a|
  {
    if a == [] {
      assert multiset(b) == multiset{};
      assert b == [];
    } else {
      assert a[0] in multiset(a);
      var i := Occurs(b, a[0]);
      SumAtDrop(a, 0, sf, kind, k);
      SumAtDrop(b, i, sf, kind, k);
      SumAtPermuted(DropAt(a, 0), DropAt(b, i), sf, kind, k);
    }
  }

  /** The same files with the same counts, keys and branches; the orders may differ. */
  ghost predicate SameTally(s: Tally, t: Tally) {
    multiset(s.order) == multiset(t.order) && s.counts == t.counts
  }

  ghost predicate SameCov(c: FileCov, d: FileCov) {
    && SameTally(c.da, d.da) && SameTally(c.fnda, d.fnda) && SameTally(c.brda, d.brda)
    && multiset(c.fnOrder) == multiset(d.fnOrder) && c.fnSeen == d.fnSeen
    && c.brdaNumeric == d.brdaNumeric
  }

  ghost predicate SameReport(r: Report, s: Report) {
    && multiset(r.order) == multiset(s.order)
    && r.files.Keys == s.files.Keys
    && forall sf :: sf in r.files ==> SameCov(r.files[sf], s.files[sf])
  }

  lemma {:induction false} DistinctSameMembers(xs: seq<string>, ys: seq<string>)
    requires Distinct(xs) && Distinct(ys) && forall k :: k in xs <==> k in ys
    ensures multiset(xs) == multiset(ys)
  {
    DistinctMultiset(xs);
    DistinctMultiset(ys);
    forall k ensures multiset(xs)[k] == multiset(ys)[k] {
      assert k in xs <==> k in ys;
    }
  }

  lemma {:induction false} DistinctMultiset(xs: seq<string>)
    requires Distinct(xs)
    ensures forall k :: multiset(xs)[k] == if k in xs then 1 else 0
  {
    if xs != [] {
      var last, init := xs[|xs| - 1], xs[..|xs| - 1];
      assert xs == init + [last];
      DistinctMultiset(init);
    }
  }

  lemma KeysPermuted(a: seq<Fact>, b: seq<Fact>, sf: string, kind: Kind)
    requires multiset(a) == multiset(b)
    ensures multiset(FirstSeen(Keys(a, sf, kind))) == multiset(FirstSeen(Keys(b, sf, kind)))
    ensures forall k :: k in FirstSeen(Keys(a, sf, kind)) <==> k in FirstSeen(Keys(b, sf, kind))
  {
    KeysMembers(a, sf, kind);
    KeysMembers(b, sf, kind);
    SameElements(a, b);
    FirstSeenMembers(Keys(a, sf, kind));
    FirstSeenMembers(Keys(b, sf, kind));
    DistinctSameMembers(FirstSeen(Keys(a, sf, kind)), FirstSeen(Keys(b, sf, kind)));
  }

  lemma SameElements<T>(a: seq<T>, b: seq<T>)
    requires multiset(a) == multiset(b)
    ensures forall x :: x in a <==> x in b
  {
    assert forall x :: x in a <==> x in multiset(a);
    assert forall x :: x in b <==> x in multiset(b);
  }

  lemma TalliedPermuted(a: seq<Fact>, b: seq<Fact>, sf: string, kind: Kind)
    requires multiset(a) == multiset(b)
    ensures SameTally(Tallied(a, sf, kind), Tallied(b, sf, kind))
  {
    hide Keys, FirstSeen, SumAt;
    KeysPermuted(a, b, sf, kind);
    var s, t := Tallied(a, sf, kind), Tallied(b, sf, kind);
    forall k | k in s.counts
      ensures s.counts[k] == SumAt(b, sf, kind, k)
    {
      SumAtPermuted(a, b, sf, kind, k);
    }
    assert s.counts == t.counts;
  }

  lemma CovPermuted(a: seq<Fact>, b: seq<Fact>, sf: string)
    requires multiset(a) == multiset(b)
    ensures SameCov(CovOf(a, sf), CovOf(b, sf))
  {
    hide Keys, FirstSeen, Tallied;
    TalliedPermuted(a, b, sf, Hit);
    TalliedPermuted(a, b, sf, Call);
    TalliedPermuted(a, b, sf, Branch);
    KeysPermuted(a, b, sf, Fn);
    SameElements(a, b);
  }

  lemma FactsPermuted(a: seq<Fact>, b: seq<Fact>)
    requires multiset(a) == multiset(b)
    ensures SameReport(ReportOf(a), ReportOf(b))
  {
    hide Keys, FirstSeen, CovOf;
    KeysPermuted(a, b, "", Opened);
    forall sf ensures SameCov(CovOf(a, sf), CovOf(b, sf)) {
      CovPermuted(a, b, sf);
    }
  }

  // ---------------------------------------------------------------------------
  // From shards to facts
  // ---------------------------------------------------------------------------

  function FactsOfShard(shard: Option<string>): seq<Fact> {
    if shard.None? then [] else ShardFacts(shard.value)
  }

  lemma {:induction false} AllFactsAppend(s: seq<Option<string>>, t: seq<Option<string>>)
    ensures multiset(AllFacts(s + t)) == multiset(AllFacts(s)) + multiset(AllFacts(t))
  {
    hide ShardFacts;
    if t == [] {
      assert s + t == s;
    } else {
      var last, init := t[|t| - 1], t[..|t| - 1];
      assert (s + t)[..|s + t| - 1] == s + init;
      AllFactsAppend(s, init);
    }
  }

  lemma AllFactsMiddle(a: seq<Option<string>>, x: Option<string>, b: seq<Option<string>>)
    ensures multiset(AllFacts(a + [x] + b)) == multiset(AllFacts(a + b)) + multiset(AllFacts([x]))
  {
    hide AllFacts;
    AllFactsAppend(a + [x], b);
    AllFactsAppend(a, [x]);
    AllFactsAppend(a, b);
  }

  lemma AllFactsDrop(s: seq<Option<string>>, i: nat)
    requires i < |s|
    ensures multiset(AllFacts(s)) == multiset(AllFacts(DropAt(s, i))) + multiset(AllFacts([s[i]]))
  {
    hide AllFacts;
    Middle(s, i);
    AllFactsMiddle(s[..i], s[i], s[i + 1..]);
  }

  lemma {:induction false} ShardsPermuted(s: seq<Option<string>>, t: seq<Option<string>>)
    requires multiset(s) == multiset(t)
    ensures multiset(AllFacts(s)) == multiset(AllFacts(t))
    decreases |s|
  {
    if s == [] {
      assert multiset(t) == multiset{};
      assert t == [];
    } else {
      assert s[0] in multiset(s);
      var i := Occurs(t, s[0]);
      AllFactsDrop(s, 0);
      AllFactsDrop(t, i);
      ShardsPermuted(DropAt(s, 0), DropAt(t, i));
    }
  }

  /** The merged coverage does not depend on the order in which the shards are read. */
  lemma ShardOrderIsImmaterial(s: seq<Option<string>>, t: seq<Option<string>>)
    requires multiset(s) == multiset(t)
    ensures SameReport(ReportOf(AllFacts(s)), ReportOf(AllFacts(t)))
  {
    ShardsPermuted(s, t);
    FactsPermuted(AllFacts(s), AllFacts(t));
  }

  // ---------------------------------------------------------------------------
  // From coverage to printed lines
  // ---------------------------------------------------------------------------

  lemma RecordsDrop(xs: seq<string>, i: nat, record: string -> Line)
    requires i < |xs|
    ensures multiset(Records(xs, record)) == multiset(Records(DropAt(xs, i), record)) + multiset{record(xs[i])}
  {
    assert Records(xs, record)[i] == record(xs[i]);
    assert DropAt(Records(xs, record), i) == Records(DropAt(xs, i), record);
  }

  lemma {:induction false} RecordsPermuted(xs: seq<string>, ys: seq<string>, record: string -> Line)
    requires multiset(xs) == multiset(ys)
    ensures multiset(Records(xs, record)) == multiset(Records(ys, record))
    decreases |xs|
  {
    if xs == [] {
      assert multiset(ys) == multiset{};
      assert ys == [];
    } else {
      assert xs[0] in multiset(xs);
      var i := Occurs(ys, xs[0]);
      RecordsDrop(xs, 0, record);
      RecordsDrop(ys, i, record);
      RecordsPermuted(DropAt(xs, 0), DropAt(ys, i), record);
    }
  }

  lemma {:induction false} HitsAppend(a: seq<Line>, b: seq<Line>)
    ensures Hits(a + b) == Hits(a) + Hits(b)
  {
    if b == [] {
      assert a + b == a;
    } else {
      assert (a + b)[..|a + b| - 1] == a + b[..|b| - 1];
      HitsAppend(a, b[..|b| - 1]);
    }
  }

  lemma HitsOfOne(line: Line)
    ensures Hits([line]) == if Positive(line) then 1 else 0
  {
  }

  lemma HitsMiddle(a: seq<Line>, x: Line, b: seq<Line>)
    ensures Hits(a + [x] + b) == Hits(a + b) + (if Positive(x) then 1 else 0)
  {
    hide Hits, Positive;
    HitsOfOne(x);
    HitsAppend(a + [x], b);
    HitsAppend(a, [x]);
    HitsAppend(a, b);
  }

  lemma HitsDrop(lines: seq<Line>, i: nat)
    requires i < |lines|
    ensures Hits(lines) == Hits(DropAt(lines, i)) + (if Positive(lines[i]) then 1 else 0)
  {
    hide Hits, Positive;
    Middle(lines, i);
    HitsMiddle(lines[..i], lines[i], lines[i + 1..]);
  }

  lemma PrintedDrop(lines: seq<Line>, i: nat)
    requires i < |lines| && NoOther(lines)
    ensures NoOther(DropAt(lines, i))
    ensures multiset(Printed(lines)) == multiset(Printed(DropAt(lines, i))) + multiset{PrintLine(lines[i])}
  {
    hide PrintLine;
    assert Printed(lines)[i] == PrintLine(lines[i]);
    assert DropAt(Printed(lines), i) == Printed(DropAt(lines, i));
  }

  /** Permuted records print as permuted lines and have as many hits. */
  lemma {:induction false} PrintedPermuted(a: seq<Line>, b: seq<Line>)
    requires multiset(a) == multiset(b) && NoOther(a) && NoOther(b)
    ensures multiset(Printed(a)) == multiset(Printed(b)) && Hits(a) == Hits(b) && |a| == |b|
    decreases |a|
  {
    hide PrintLine;
    if a == [] {
      assert multiset(b) == multiset{};
      assert b == [];
    } else {
      assert a[0] in multiset(a);
      var i := Occurs(b, a[0]);
      PrintedDrop(a, 0);
      PrintedDrop(b, i);
      HitsDrop(a, 0);
      HitsDrop(b, i);
      PrintedPermuted(DropAt(a, 0), DropAt(b, i));
    }
  }

  lemma RecordLinesPermuted(xs: seq<string>, ys: seq<string>, record: string -> Line)
    requires multiset(xs) == multiset(ys)
    requires NoOther(Records(xs, record)) && NoOther(Records(ys, record))
    ensures var a, b := Records(xs, record), Records(ys, record);
      multiset(Printed(a)) == multiset(Printed(b)) && Hits(a) == Hits(b) && |a| == |b|
  {
    RecordsPermuted(xs, ys, record);
    PrintedPermuted(Records(xs, record), Records(ys, record));
  }

  lemma BlockPermuted(sf: string, c: FileCov, d: FileCov)
    requires SameCov(c, d)
    ensures multiset(Block(sf, c)) == multiset(Block(sf, d))
  {
    hide PrintLine, Printed, Hits, Stat, Records;
    RecordLinesPermuted(c.fnOrder, d.fnOrder, FnRecord());
    RecordLinesPermuted(c.fnda.order, d.fnda.order, CallRecord(c.fnda.counts));
    RecordLinesPermuted(c.brda.order, d.brda.order, BranchRecord(c.brda.counts, c.brdaNumeric));
    RecordLinesPermuted(c.da.order, d.da.order, HitRecord(c.da.counts));
    assert multiset(FunctionLines(c)) == multiset(FunctionLines(d));
    assert multiset(BranchLines(c)) == multiset(BranchLines(d));
    assert multiset(HitLines(c)) == multiset(HitLines(d));
  }

  lemma {:induction false} BlocksAppend(xs: seq<string>, ys: seq<string>, files: map<string, FileCov>)
    ensures Blocks(xs + ys, files) == Blocks(xs, files) + Blocks(ys, files)
  {
    hide Block;
    if ys == [] {
      assert xs + ys == xs;
    } else {
      assert (xs + ys)[..|xs + ys| - 1] == xs + ys[..|ys| - 1];
      BlocksAppend(xs, ys[..|ys| - 1], files);
    }
  }

  lemma {:induction false} BlocksSame(order: seq<string>, files: map<string, FileCov>, others: map<string, FileCov>)
    requires files.Keys == others.Keys
    requires forall sf :: sf in files ==> SameCov(files[sf], others[sf])
    ensures multiset(Blocks(order, files)) == multiset(Blocks(order, others))
  {
    hide Block, SameCov;
    if order != [] {
      var sf := order[|order| - 1];
      BlocksSame(order[..|order| - 1], files, others);
      if sf in files {
        BlockPermuted(sf, files[sf], others[sf]);
      }
    }
  }

  lemma BlocksMiddle(a: seq<string>, x: string, b: seq<string>, files: map<string, FileCov>)
    ensures multiset(Blocks(a + [x] + b, files)) == multiset(Blocks(a + b, files)) + multiset(Blocks([x], files))
  {
    hide Blocks;
    BlocksAppend(a + [x], b, files);
    BlocksAppend(a, [x], files);
    BlocksAppend(a, b, files);
  }

  lemma BlocksDrop(order: seq<string>, i: nat, files: map<string, FileCov>)
    requires i < |order|
    ensures multiset(Blocks(order, files))
         == multiset(Blocks(DropAt(order, i), files)) + multiset(Blocks([order[i]], files))
  {
    hide Blocks;
    Middle(order, i);
    BlocksMiddle(order[..i], order[i], order[i + 1..], files);
  }

  lemma {:induction false} BlocksPermuted(xs: seq<string>, ys: seq<string>, files: map<string, FileCov>)
    requires multiset(xs) == multiset(ys)
    ensures multiset(Blocks(xs, files)) == multiset(Blocks(ys, files))
    decreases |xs|
  {
    if xs == [] {
      assert multiset(ys) == multiset{};
      assert ys == [];
    } else {
      assert xs[0] in multiset(xs);
      var i := Occurs(ys, xs[0]);
      BlocksDrop(xs, 0, files);
      BlocksDrop(ys, i, files);
      BlocksPermuted(DropAt(xs, 0), DropAt(ys, i), files);
    }
  }

  /** Reading the shards in another order prints the same lines, in another order. */
  lemma ReorderedShardsPrintTheSameLines(s: seq<Option<string>>, t: seq<Option<string>>)
    requires multiset(s) == multiset(t)
    ensures var r, q := ReportOf(AllFacts(s)), ReportOf(AllFacts(t));
      multiset(Blocks(r.order, r.files)) == multiset(Blocks(q.order, q.files))
  {
    var r, q := ReportOf(AllFacts(s)), ReportOf(AllFacts(t));
    ShardOrderIsImmaterial(s, t);
    BlocksSame(r.order, r.files, q.files);
    BlocksPermuted(r.order, q.order, q.files);
  }
}
