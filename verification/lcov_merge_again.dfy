/** The merge's laws: what its counts are, and when merging its output changes nothing. */
module LcovMergeAgain {
  import opened Options
  import opened Text
  import opened LcovLines
  import opened LcovFacts
  import opened LcovMerge
  import opened LcovRoundTrip
  import opened LcovIdempotent
  import LcovOrder

  // ---------------------------------------------------------------------------
  // A merged report is well formed
  // ---------------------------------------------------------------------------

  ghost predicate CleanFact(f: Fact) {
    && '\n' !in f.file && '\n' !in f.key
    && (f.kind == Hit ==> ',' !in f.key)
    && (f.kind == Branch ==> IsBranchKey(f.key))
  }

  ghost predicate CleanCursor(c: Cursor) {
    (c.cur.Some? ==> '\n' !in c.cur.value) && Clean(c.fnAt, '\n')
  }

  ghost predicate CleanFacts(facts: seq<Fact>) {
    forall f :: f in facts ==> CleanFact(f)
  }

  lemma ReadsClean(c: Cursor, line: Line)
    requires CleanCursor(c) && Readable(line)
    ensures CleanCursor(Advance(c, line)) && CleanFacts(Emit(c, line))
  {
    hide IsBranchKey;
  }

  lemma {:induction false} FactsClean(lines: seq<Line>)
    requires forall i :: 0 <= i < |lines| ==> Readable(lines[i])
    ensures CleanCursor(CursorAfter(START, lines)) && CleanFacts(FactsOf(START, lines))
  {
    if lines != [] {
      hide Emit, Advance, Readable, CleanFact;
      var init := lines[..|lines| - 1];
      FactsClean(init);
      ReadsClean(CursorAfter(START, init), lines[|lines| - 1]);
    }
  }

  lemma ShardFactsClean(text: string)
    ensures CleanFacts(ShardFacts(text))
  {
    hide ParseLine, CleanFact, Readable, FactsOf;
    var raws := Split(text, '\n');
    SplitPartsAreClean(text, '\n');
    forall i | 0 <= i < |raws|
      ensures Readable(Parsed(raws)[i])
    {
      ParsedIsReadable(raws[i]);
    }
    FactsClean(Parsed(raws));
  }

  lemma {:induction false} AllFactsClean(shards: seq<Option<string>>)
    ensures CleanFacts(AllFacts(shards))
  {
    if shards != [] {
      hide ShardFacts, CleanFact;
      AllFactsClean(shards[..|shards| - 1]);
      var last := shards[|shards| - 1];
      if last.Some? {
        ShardFactsClean(last.value);
      }
    }
  }

  lemma KeysClean(facts: seq<Fact>, sf: string, kind: Kind)
    requires CleanFacts(facts)
    ensures forall k :: k in FirstSeen(Keys(facts, sf, kind)) ==>
              && '\n' !in k && (kind == Hit ==> ',' !in k) && (kind == Branch ==> IsBranchKey(k))
  {
    hide IsBranchKey;
    KeysMembers(facts, sf, kind);
    FirstSeenMembers(Keys(facts, sf, kind));
  }

  lemma CovReadable(facts: seq<Fact>, sf: string)
    requires CleanFacts(facts)
    ensures ReadableCov(CovOf(facts, sf))
  {
    hide Keys, FirstSeen, IsBranchKey, SumAt;
    KeysClean(facts, sf, Hit);
    KeysClean(facts, sf, Fn);
    KeysClean(facts, sf, Call);
    KeysClean(facts, sf, Branch);
  }

  lemma TallyWellFormed(facts: seq<Fact>, sf: string, kind: Kind)
    ensures WellFormedTally(Tallied(facts, sf, kind))
  {
    CountsAt(facts, sf, kind);
    FirstSeenMembers(Keys(facts, sf, kind));
  }

  lemma CovWellFormed(facts: seq<Fact>, sf: string)
    ensures WellFormed(CovOf(facts, sf))
  {
    hide FirstSeen, Keys, Tallied;
    TallyWellFormed(facts, sf, Hit);
    TallyWellFormed(facts, sf, Call);
    TallyWellFormed(facts, sf, Branch);
    FirstSeenMembers(Keys(facts, sf, Fn));
    CovIsConsistent(facts, sf);
  }

  lemma MergedIsWellFormed(shards: seq<Option<string>>)
    ensures WellFormedReport(ReportOf(AllFacts(shards)))
  {
    hide CovOf, WellFormed, ReadableCov, AllFacts, CleanFact, Keys, FirstSeen;
    var facts := AllFacts(shards);
    AllFactsClean(shards);
    FirstSeenMembers(Keys(facts, "", Opened));
    KeysClean(facts, "", Opened);
    forall sf | sf in FileOrder(facts)
      ensures WellFormed(CovOf(facts, sf)) && ReadableCov(CovOf(facts, sf))
    {
      CovWellFormed(facts, sf);
      CovReadable(facts, sf);
    }
  }

  // ---------------------------------------------------------------------------
  // Counts add up over the shards
  // ---------------------------------------------------------------------------

  /** What the shards one by one count for a key. */
  ghost function ShardTotal(shards: seq<Option<string>>, sf: string, kind: Kind, k: string): int {
    if shards == [] then 0
    else
      var last := shards[|shards| - 1];
      ShardTotal(shards[..|shards| - 1], sf, kind, k) + SumAt(LcovOrder.FactsOfShard(last), sf, kind, k)
  }

  lemma {:induction false} TotalsAddUp(shards: seq<Option<string>>, sf: string, kind: Kind, k: string)
    ensures SumAt(AllFacts(shards), sf, kind, k) == ShardTotal(shards, sf, kind, k)
  {
    if shards != [] {
      hide ShardFacts, SumAt;
      var init, last := shards[..|shards| - 1], shards[|shards| - 1];
      TotalsAddUp(init, sf, kind, k);
      LcovOrder.SumAtAppend(AllFacts(init), LcovOrder.FactsOfShard(last), sf, kind, k);
    }
  }

  ghost predicate Reported(shards: seq<Option<string>>, sf: string, kind: Kind, k: string) {
    exists i, f :: InShard(shards, f, i) && Is(f, sf, kind) && f.key == k
  }

  ghost predicate InShard(shards: seq<Option<string>>, f: Fact, i: int) {
    0 <= i < |shards| && f in LcovOrder.FactsOfShard(shards[i])
  }

  lemma {:induction false} InSomeShard(shards: seq<Option<string>>, f: Fact)
    ensures f in AllFacts(shards) <==> exists i :: InShard(shards, f, i)
  {
    hide AllFacts, InShard, LcovOrder.FactsOfShard;
    if shards == [] {
      NoShards(f);
    } else {
      var init, n := shards[..|shards| - 1], |shards| - 1;
      AllFactsSnoc(shards);
      InSomeShard(init, f);
      forall i
        ensures InShard(shards, f, i) <==> (InShard(init, f, i) || (i == n && f in LcovOrder.FactsOfShard(shards[n])))
      {
        InLastShard(shards, f, i);
      }
      assert f in LcovOrder.FactsOfShard(shards[n]) ==> InShard(shards, f, n);
    }
  }

  lemma NoShards(f: Fact)
    ensures AllFacts([]) == [] && forall i :: !InShard([], f, i)
  {
  }

  lemma InLastShard(shards: seq<Option<string>>, f: Fact, i: int)
    requires shards != []
    ensures var init := shards[..|shards| - 1];
      InShard(shards, f, i)
      <==> (InShard(init, f, i) || (i == |init| && f in LcovOrder.FactsOfShard(shards[i])))
  {
    hide LcovOrder.FactsOfShard;
  }

  lemma AllFactsSnoc(shards: seq<Option<string>>)
    requires shards != []
    ensures AllFacts(shards)
         == AllFacts(shards[..|shards| - 1]) + LcovOrder.FactsOfShard(shards[|shards| - 1])
  {
    hide ShardFacts;
  }

  /** A tally of the merged report: each key some shard reports, once, with the sum over all shards. */
  ghost predicate Conserves(t: Tally, shards: seq<Option<string>>, sf: string, kind: Kind) {
    && Distinct(t.order)
    && (forall k :: k in t.order <==> k in t.counts)
    && (forall k :: k in t.counts <==> Reported(shards, sf, kind, k))
    && (forall k :: k in t.counts ==> t.counts[k] == ShardTotal(shards, sf, kind, k))
  }

  lemma ReportedKeys(shards: seq<Option<string>>, sf: string, kind: Kind, k: string)
    ensures k in Keys(AllFacts(shards), sf, kind) <==> Reported(shards, sf, kind, k)
  {
    hide Is;
    KeysMembers(AllFacts(shards), sf, kind);
    forall f { InSomeShard(shards, f); }
  }

  lemma TallyConserves(shards: seq<Option<string>>, sf: string, kind: Kind)
    ensures Conserves(Tallied(AllFacts(shards), sf, kind), shards, sf, kind)
  {
    TallyWellFormed(AllFacts(shards), sf, kind);
    CountsAt(AllFacts(shards), sf, kind);
    hide Keys, SumAt, AllFacts, Reported, ShardTotal, Tallied;
    forall k
      ensures k in Keys(AllFacts(shards), sf, kind) <==> Reported(shards, sf, kind, k)
      ensures SumAt(AllFacts(shards), sf, kind, k) == ShardTotal(shards, sf, kind, k)
    {
      ReportedKeys(shards, sf, kind, k);
      TotalsAddUp(shards, sf, kind, k);
    }
  }

  lemma ReportedFiles(shards: seq<Option<string>>, sf: string)
    ensures sf in ReportOf(AllFacts(shards)).files <==> Reported(shards, "", Opened, sf)
  {
    hide Keys, AllFacts, FirstSeen, Reported, CovOf;
    FilesAt(AllFacts(shards), sf);
    FirstSeenMembers(Keys(AllFacts(shards), "", Opened));
    ReportedKeys(shards, "", Opened, sf);
  }

  /**
   Nothing is lost, nothing is counted twice, and a branch is "-" only if no shard has a number:
   the report has exactly the files that some shard opens, and each of them all its counts.
   */
  lemma MergeConservesCounts(shards: seq<Option<string>>, sf: string)
    ensures sf in ReportOf(AllFacts(shards)).files <==> Reported(shards, "", Opened, sf)
    ensures sf in ReportOf(AllFacts(shards)).files ==>
      var cov := ReportOf(AllFacts(shards)).files[sf];
      && Conserves(cov.da, shards, sf, Hit)
      && Conserves(cov.fnda, shards, sf, Call)
      && Conserves(cov.brda, shards, sf, Branch)
      && (forall k :: k in cov.fnSeen <==> Reported(shards, sf, Fn, k))
      && (forall k :: k in cov.brdaNumeric <==>
            exists i, f :: InShard(shards, f, i) && Is(f, sf, Branch) && f.key == k && f.amount.Some?)
  {
    TallyConserves(shards, sf, Hit);
    TallyConserves(shards, sf, Call);
    TallyConserves(shards, sf, Branch);
    FirstSeenMembers(Keys(AllFacts(shards), sf, Fn));
    ReportedFiles(shards, sf);
    hide Keys, AllFacts, Conserves, Tallied, LcovOrder.FactsOfShard, FirstSeen;
    forall k { ReportedKeys(shards, sf, Fn, k); }
    forall f { InSomeShard(shards, f); }
  }

  // ---------------------------------------------------------------------------
  // Merging again
  // ---------------------------------------------------------------------------

  /**
   Merging the merged report gives it back, byte for byte, exactly when in every file each
   printed FNDA record is paired by position with a function of its own name.
   */
  lemma MergingAgain(shards: seq<Option<string>>)
    ensures var r := ReportOf(AllFacts(shards));
      Merged([Merged(shards)]) == Merged(shards) <==> (SawAny(shards) ==> AllSettled(r.order, r.files))
  {
    hide WellFormedReport, Blocks, ReportOf, AllFacts, ReportText, RereadReport, AllSettled, SawAny;
    if SawAny(shards) {
      var r := ReportOf(AllFacts(shards));
      MergedIsWellFormed(shards);
      MergedAgain(shards);
      SettledIffSameText(r);
    } else {
      NoShard();
    }
  }

  lemma MergedAgain(shards: seq<Option<string>>)
    requires SawAny(shards)
    ensures Merged([Merged(shards)]) == Some(ReportText(RereadReport(ReportOf(AllFacts(shards)))))
  {
    hide WellFormedReport, ReportOf, AllFacts, ReportText, RereadReport, SawAny;
    var r := ReportOf(AllFacts(shards));
    MergedIsWellFormed(shards);
    ReportReadsBack(r);
    FilesReadable(r);
    ReadReport(r);
    OneShard(ReportText(r));
  }

  lemma FilesReadable(r: Report)
    requires WellFormedReport(r)
    ensures ReadableFiles(r.files)
  {
  }

  lemma SettledIffSameText(r: Report)
    requires WellFormedReport(r)
    ensures ReportText(RereadReport(r)) == ReportText(r) <==> AllSettled(r.order, r.files)
  {
    hide WellFormed, ReadableFiles, RereadCov, Blocks, JoinLines, NamesSettled;
    if AllSettled(r.order, r.files) {
      SettledBlocks(r.order, r.files, RereadReport(r).files);
    }
    if ReportText(RereadReport(r)) == ReportText(r) {
      SameTextIsSettled(r);
    }
  }

  lemma NoShard()
    ensures !SawAny([None])
  {
  }

  lemma OneShard(text: string)
    ensures SawAny([Some(text)]) && AllFacts([Some(text)]) == ShardFacts(text)
  {
    hide ShardFacts;
    assert [Some(text)][0].Some?;
    assert AllFacts([Some(text)][..0]) == [];
  }

  // ---------------------------------------------------------------------------
  // Reports as the test tool writes them
  // ---------------------------------------------------------------------------

  /**
   Every FNDA record follows its FN record, and every block has as many of one as of the other:
   when a block ends, at the next SF line or the end of the report, all its functions are paired.
   */
  ghost predicate Paired(lines: seq<Line>) {
    forall i :: 0 <= i <= |lines| ==> PairedAt(lines, i)
  }

  ghost predicate PairedAt(lines: seq<Line>, i: nat)
    requires i <= |lines|
  {
    var c := CursorAfter(START, lines[..i]);
    && (i < |lines| && lines[i].FNDA? && c.cur.Some? ==> c.fndaIdx < |c.fnAt|)
    && (i == |lines| || lines[i].SF? ==> c.fndaIdx == |c.fnAt|)
  }

  /** The functions of the open block that are still waiting for their counts. */
  ghost function Waiting(c: Cursor, sf: string): seq<string>
    requires c.fndaIdx <= |c.fnAt|
  {
    if c.cur == Some(sf) then c.fnAt[c.fndaIdx..] else []
  }

  /** The keys of the facts a line adds to a kind. */
  ghost function Emitted(c: Cursor, line: Line, sf: string, kind: Kind): seq<string> {
    var emitted := Emit(c, line);
    if emitted != [] && Is(emitted[0], sf, kind) then [emitted[0].key] else []
  }

  lemma EmittedKeys(c: Cursor, line: Line, facts: seq<Fact>, sf: string, kind: Kind)
    ensures Keys(facts + Emit(c, line), sf, kind) == Keys(facts, sf, kind) + Emitted(c, line, sf, kind)
  {
    hide Keys;
    var emitted := Emit(c, line);
    if emitted == [] {
      assert facts + emitted == facts;
    } else {
      assert emitted == [emitted[0]];
      KeysStep(facts, emitted[0], sf, kind);
    }
  }

  /** A function joins those waiting, or the first of them gets its count. */
  lemma WaitingStep(c: Cursor, line: Line, sf: string)
    requires c.fndaIdx <= |c.fnAt|
    requires line.FNDA? && c.cur.Some? ==> c.fndaIdx < |c.fnAt|
    requires line.SF? ==> c.fndaIdx == |c.fnAt|
    ensures var d := Advance(c, line);
      && d.fndaIdx <= |d.fnAt|
      && Waiting(c, sf) + Emitted(c, line, sf, Fn) == Emitted(c, line, sf, Call) + Waiting(d, sf)
  {
  }

  lemma PairingStep(c: Cursor, line: Line, facts: seq<Fact>, sf: string)
    requires c.fndaIdx <= |c.fnAt|
    requires line.FNDA? && c.cur.Some? ==> c.fndaIdx < |c.fnAt|
    requires line.SF? ==> c.fndaIdx == |c.fnAt|
    requires Keys(facts, sf, Fn) == Keys(facts, sf, Call) + Waiting(c, sf)
    ensures var d := Advance(c, line);
      && d.fndaIdx <= |d.fnAt|
      && Keys(facts + Emit(c, line), sf, Fn) == Keys(facts + Emit(c, line), sf, Call) + Waiting(d, sf)
  {
    hide Keys, Emit, Emitted, Waiting, Advance;
    EmittedKeys(c, line, facts, sf, Fn);
    EmittedKeys(c, line, facts, sf, Call);
    WaitingStep(c, line, sf);
    Shift(Keys(facts, sf, Call), Waiting(c, sf), Emitted(c, line, sf, Fn),
          Emitted(c, line, sf, Call), Waiting(Advance(c, line), sf));
  }

  lemma Shift(done: seq<string>, a: seq<string>, b: seq<string>, x: seq<string>, y: seq<string>)
    requires a + b == x + y
    ensures done + a + b == done + x + y
  {
    assert done + a + b == done + (a + b) && done + x + y == done + (x + y);
  }

  lemma {:induction false} PairingKept(lines: seq<Line>, sf: string, i: nat)
    requires Paired(lines) && i <= |lines|
    ensures var c, facts := CursorAfter(START, lines[..i]), FactsOf(START, lines[..i]);
      c.fndaIdx <= |c.fnAt| && Keys(facts, sf, Fn) == Keys(facts, sf, Call) + Waiting(c, sf)
  {
    if i > 0 {
      hide Emit, Advance, Waiting, Keys, CursorAfter, FactsOf;
      PairingKept(lines, sf, i - 1);
      FactsStep(START, lines, i - 1);
      assert PairedAt(lines, i - 1);
      PairingStep(CursorAfter(START, lines[..i - 1]), lines[i - 1], FactsOf(START, lines[..i - 1]), sf);
    }
  }

  lemma PairedFunctions(lines: seq<Line>, sf: string)
    requires Paired(lines)
    ensures Keys(FactsOf(START, lines), sf, Fn) == Keys(FactsOf(START, lines), sf, Call)
  {
    PairingKept(lines, sf, |lines|);
    assert lines[..|lines|] == lines;
    assert PairedAt(lines, |lines|);
  }

  ghost predicate AllPaired(shards: seq<Option<string>>) {
    forall i :: 0 <= i < |shards| && shards[i].Some? ==> Paired(Parsed(Split(shards[i].value, '\n')))
  }

  lemma {:induction false} PairedShards(shards: seq<Option<string>>, sf: string)
    requires AllPaired(shards)
    ensures Keys(AllFacts(shards), sf, Fn) == Keys(AllFacts(shards), sf, Call)
  {
    if shards != [] {
      hide Paired, Keys;
      var init, last := shards[..|shards| - 1], shards[|shards| - 1];
      PairedShards(init, sf);
      if last.Some? {
        PairedFunctions(Parsed(Split(last.value, '\n')), sf);
        KeysAppend(AllFacts(init), ShardFacts(last.value), sf, Fn);
        KeysAppend(AllFacts(init), ShardFacts(last.value), sf, Call);
      } else {
        assert AllFacts(init) + [] == AllFacts(init);
      }
    }
  }

  /** Merging paired reports is idempotent. */
  lemma PairedReportsMergeOnce(shards: seq<Option<string>>)
    requires AllPaired(shards)
    ensures Merged([Merged(shards)]) == Merged(shards)
  {
    var facts := AllFacts(shards);
    forall sf | sf in ReportOf(facts).files
      ensures NamesSettled(ReportOf(facts).files[sf])
    {
      PairedShards(shards, sf);
      FirstSeenMembers(Keys(facts, sf, Fn));
      SettledWhenPaired(CovOf(facts, sf));
    }
    hide NamesSettled, Paired;
    MergingAgain(shards);
  }

  lemma SettledWhenPaired(cov: FileCov)
    requires cov.fnOrder == cov.fnda.order && Distinct(cov.fnOrder)
    ensures NamesSettled(cov)
  {
    assert Reread(cov) == cov.fnOrder;
  }

  /** A report with an FNDA record ahead of its FN record does not merge to a fixed point. */
  lemma UnpairedReportChanges()
    ensures var shard := JoinLines(Printed([SF("f"), FNDA("x", 1), FN("1,a")]));
      Merged([Merged([Some(shard)])]) != Merged([Some(shard)])
  {
    var lines := [SF("f"), FNDA("x", 1), FN("1,a")];
    var shard := JoinLines(Printed(lines));
    var facts := [Fact("", Opened, "f", None), Fact("f", Call, "x", Some(1)), Fact("f", Fn, "1,a", None)];
    assert AllFacts([Some(shard)]) == facts by {
      OneShard(shard);
      UnpairedFacts(lines);
    }
    assert [Some(shard)][0].Some?;
    UnpairedCov();
    hide ShardFacts, JoinLines, Printed, AllFacts, NamesSettled, CovOf;
    MergingAgain([Some(shard)]);
    FilesAt(facts, "f");
  }

  lemma UnpairedFacts(lines: seq<Line>)
    requires lines == [SF("f"), FNDA("x", 1), FN("1,a")]
    ensures NoOther(lines)
    ensures ShardFacts(JoinLines(Printed(lines)))
         == [Fact("", Opened, "f", None), Fact("f", Call, "x", Some(1)), Fact("f", Fn, "1,a", None)]
  {
    UnpairedReadable(lines);
    UnpairedLines(lines);
    hide JoinLines, Printed, ShardFacts, FactsOf, Readable;
    ReadsPrinted(lines);
  }

  lemma UnpairedReadable(lines: seq<Line>)
    requires lines == [SF("f"), FNDA("x", 1), FN("1,a")]
    ensures AllReadable(lines)
  {
  }

  /** Printed records read as their facts. */
  lemma ReadsPrinted(lines: seq<Line>)
    requires AllReadable(lines) && lines != []
    ensures ShardFacts(JoinLines(Printed(lines))) == FactsOf(START, lines)
  {
    ParsedRecords(lines);
    SplitReport(Printed(lines));
    hide Parsed, Printed, JoinLines, Split, FactsOf, CursorAfter, AllReadable, Skipped;
    ParsedAppend(Printed(lines), [""]);
    ParsedEnds("");
    FactsAppend(START, lines, Skipped(1));
    OthersAreSkipped(CursorAfter(START, lines), Skipped(1));
  }

  lemma UnpairedLines(lines: seq<Line>)
    requires lines == [SF("f"), FNDA("x", 1), FN("1,a")]
    ensures FactsOf(START, lines)
         == [Fact("", Opened, "f", None), Fact("f", Call, "x", Some(1)), Fact("f", Fn, "1,a", None)]
  {
    var c := Cursor(Some("f"), [], 0);
    FactsOfOne(START, lines[0]);
    FactsOfOne(c, lines[1]);
    FactsOfOne(c.(fndaIdx := 1), lines[2]);
    hide FactsOf, CursorAfter;
    FactsAppend(START, [lines[0], lines[1]], [lines[2]]);
    FactsAppend(START, [lines[0]], [lines[1]]);
    assert lines == [lines[0], lines[1]] + [lines[2]];
    assert [lines[0], lines[1]] == [lines[0]] + [lines[1]];
  }

  lemma FactsOfOne(c: Cursor, line: Line)
    ensures FactsOf(c, [line]) == Emit(c, line) && CursorAfter(c, [line]) == Advance(c, line)
  {
    assert [line][..0] == [];
  }

  lemma UnpairedCov()
    ensures var facts := [Fact("", Opened, "f", None), Fact("f", Call, "x", Some(1)), Fact("f", Fn, "1,a", None)];
      && FileOrder(facts) == ["f"] && !NamesSettled(CovOf(facts, "f"))
  {
    hide CovOf, FileOrder;
    var f0, f1, f2 := Fact("", Opened, "f", None), Fact("f", Call, "x", Some(1)), Fact("f", Fn, "1,a", None);
    assert [] + [f0] == [f0] && [f0] + [f1] == [f0, f1] && [f0, f1] + [f2] == [f0, f1, f2];
    NoFacts();
    OrderStep([], f0);
    OrderStep([f0], f1);
    OrderStep([f0, f1], f2);
    CovStep([], f0, "f");
    CovStep([f0], f1, "f");
    CovStep([f0, f1], f2, "f");
    UnsettledCov(CovOf([f0, f1, f2], "f"));
  }

  lemma NoFacts()
    ensures FileOrder([]) == [] && CovOf([], "f") == EMPTY_COV
  {
    CovOfUnopened([], "f");
  }

  lemma UnsettledCov(cov: FileCov)
    requires cov.fnOrder == ["1,a"] && cov.fnda.order == ["x"]
    ensures !NamesSettled(cov)
  {
    assert Reread(cov)[0] == "1,a";
    assert AfterComma("x") == "x";
    IndexOfFirst("1", ',', "a");
    assert "1" + [','] + "a" == "1,a" && "1,a"[2..] == "a";
    assert AfterComma("1,a") == "a";
  }
}
