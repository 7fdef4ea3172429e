/** What the merged report prints: its lines in full, and what its totals count. */
module LcovTotals {
  import opened Options
  import opened Text
  import opened LcovLines
  import opened LcovFacts
  import opened LcovMerge
  import opened LcovIdempotent
  import opened LcovMergeAgain

  // ---------------------------------------------------------------------------
  // A block, line by line
  // ---------------------------------------------------------------------------

  /** The keys with a count above 0. */
  function Above(counts: map<string, int>): set<string> {
    set k | k in counts && counts[k] > 0
  }

  function AboveNumeric(counts: map<string, int>, numeric: set<string>): set<string> {
    set k | k in counts && k in numeric && counts[k] > 0
  }

  function LinesOf(keys: seq<string>, line: string -> string): (lines: seq<string>)
    ensures |lines| == |keys| && forall i :: 0 <= i < |keys| ==> lines[i] == line(keys[i])
  {
    seq(|keys|, i requires 0 <= i < |keys| => line(keys[i]))
  }

  function FunctionText(cov: FileCov): seq<string> {
    var t := cov.fnda;
    LinesOf(cov.fnOrder, k => "FN:" + k)
    + LinesOf(t.order, k => "FNDA:" + (Show(if k in t.counts then t.counts[k] else 0) + "," + AfterComma(k)))
    + ["FNF:" + Show(|t.order|), "FNH:" + Show(|Above(t.counts)|)]
  }

  function BranchText(cov: FileCov): seq<string> {
    var t := cov.brda;
    LinesOf(t.order, k =>
      "BRDA:" + (k + "," + (if k !in cov.brdaNumeric then "-" else Show(if k in t.counts then t.counts[k] else 0))))
    + (if t.order == [] then []
       else ["BRF:" + Show(|t.order|), "BRH:" + Show(|AboveNumeric(t.counts, cov.brdaNumeric)|)])
  }

  function HitText(cov: FileCov): seq<string> {
    var t := cov.da;
    LinesOf(t.order, k => "DA:" + (k + "," + Show(if k in t.counts then t.counts[k] else 0)))
    + ["LF:" + Show(|t.order|), "LH:" + Show(|Above(t.counts)|)]
  }

  /** A file's block, spelled out. */
  function BlockText(sf: string, cov: FileCov): seq<string> {
    ["SF:" + sf] + FunctionText(cov) + BranchText(cov) + HitText(cov) + ["end_of_record"]
  }

  // ---------------------------------------------------------------------------
  // The totals count keys
  // ---------------------------------------------------------------------------

  /** Counting the records that were hit counts their keys. */
  lemma {:induction false} HitsCountKeys(order: seq<string>, record: string -> Line, hit: set<string>)
    requires Distinct(order)
    requires forall i :: 0 <= i < |order| ==> (Positive(record(order[i])) <==> order[i] in hit)
    requires forall k :: k in hit ==> k in order
    ensures Hits(Records(order, record)) == |hit|
    decreases |order|
  {
    if order == [] {
      assert hit == {};
    } else {
      hide Positive;
      var n := |order| - 1;
      var init, k := order[..n], order[n];
      assert order == init + [k];
      assert Records(order, record)[..n] == Records(init, record);
      if k in hit {
        HitsCountKeys(init, record, hit - {k});
      } else {
        HitsCountKeys(init, record, hit);
      }
    }
  }

  lemma SamePrint(order: seq<string>, record: string -> Line, line: string -> string)
    requires NoOther(Records(order, record))
    requires forall i :: 0 <= i < |order| ==> PrintLine(Records(order, record)[i]) == line(order[i])
    ensures Printed(Records(order, record)) == LinesOf(order, line)
  {
    hide PrintLine;
  }

  lemma FunctionLinesAre(cov: FileCov)
    requires WellFormedTally(cov.fnda)
    ensures FunctionLines(cov) == FunctionText(cov)
  {
    hide Hits, LinesOf, Records;
    var t := cov.fnda;
    SamePrint(cov.fnOrder, FnRecord(), k => "FN:" + k);
    SamePrint(t.order, CallRecord(t.counts),
              k => "FNDA:" + (Show(if k in t.counts then t.counts[k] else 0) + "," + AfterComma(k)));
    HitsCountKeys(t.order, CallRecord(t.counts), Above(t.counts));
  }

  lemma BranchLinesAre(cov: FileCov)
    requires WellFormedTally(cov.brda)
    ensures BranchLines(cov) == BranchText(cov)
  {
    hide Hits, LinesOf, Records;
    var t, numeric := cov.brda, cov.brdaNumeric;
    SamePrint(t.order, BranchRecord(t.counts, numeric), k =>
      "BRDA:" + (k + "," + (if k !in numeric then "-" else Show(if k in t.counts then t.counts[k] else 0))));
    HitsCountKeys(t.order, BranchRecord(t.counts, numeric), AboveNumeric(t.counts, numeric));
  }

  lemma HitLinesAre(cov: FileCov)
    requires WellFormedTally(cov.da)
    ensures HitLines(cov) == HitText(cov)
  {
    hide Hits, LinesOf, Records;
    var t := cov.da;
    SamePrint(t.order, HitRecord(t.counts), k => "DA:" + (k + "," + Show(if k in t.counts then t.counts[k] else 0)));
    HitsCountKeys(t.order, HitRecord(t.counts), Above(t.counts));
  }

  /** A printed block is the spelled-out text of the file's coverage. */
  lemma BlockIsText(sf: string, cov: FileCov)
    requires WellFormedTally(cov.da) && WellFormedTally(cov.fnda) && WellFormedTally(cov.brda)
    ensures Block(sf, cov) == BlockText(sf, cov)
  {
    hide FunctionLines, BranchLines, HitLines, FunctionText, BranchText, HitText, WellFormedTally;
    FunctionLinesAre(cov);
    BranchLinesAre(cov);
    HitLinesAre(cov);
  }

  // ---------------------------------------------------------------------------
  // The merged report
  // ---------------------------------------------------------------------------

  /** The keys of a tally that the shards together count above 0. */
  ghost function Covered(shards: seq<Option<string>>, sf: string, kind: Kind, t: Tally): set<string> {
    set k | k in t.counts && ShardTotal(shards, sf, kind, k) > 0
  }

  lemma AboveIsCovered(shards: seq<Option<string>>, sf: string, kind: Kind, t: Tally)
    requires Conserves(t, shards, sf, kind)
    ensures Above(t.counts) == Covered(shards, sf, kind, t) && WellFormedTally(t)
  {
    hide Reported, ShardTotal;
  }

  lemma CoveredBranchesAreNumeric(cov: FileCov)
    requires WellFormed(cov)
    ensures AboveNumeric(cov.brda.counts, cov.brdaNumeric) == Above(cov.brda.counts)
  {
  }

  /**
   Each file of the merged report is printed as spelled out, and its totals say how many lines,
   functions and branches it lists and how many of them the shards together count above 0.
   */
  lemma TotalsCountCoveredKeys(shards: seq<Option<string>>, sf: string)
    requires sf in ReportOf(AllFacts(shards)).files
    ensures var cov := ReportOf(AllFacts(shards)).files[sf];
      && Block(sf, cov) == BlockText(sf, cov)
      && ["LF:" + Show(|cov.da.order|), "LH:" + Show(|Covered(shards, sf, Hit, cov.da)|), "end_of_record"]
         == Block(sf, cov)[|Block(sf, cov)| - 3..]
      && "FNF:" + Show(|cov.fnda.order|) in Block(sf, cov)
      && "FNH:" + Show(|Covered(shards, sf, Call, cov.fnda)|) in Block(sf, cov)
      && (cov.brda.order != [] ==>
            && "BRF:" + Show(|cov.brda.order|) in Block(sf, cov)
            && "BRH:" + Show(|Covered(shards, sf, Branch, cov.brda)|) in Block(sf, cov))
  {
    hide ReportOf, AllFacts, Block, Conserves, Covered, Show, Reported, WellFormed, InShard, Is, LinesOf;
    var cov := ReportOf(AllFacts(shards)).files[sf];
    MergeConservesCounts(shards, sf);
    AboveIsCovered(shards, sf, Hit, cov.da);
    AboveIsCovered(shards, sf, Call, cov.fnda);
    AboveIsCovered(shards, sf, Branch, cov.brda);
    MergedIsWellFormed(shards);
    CoveredBranchesAreNumeric(cov);
    BlockIsText(sf, cov);
    StatsAreThere(sf, cov);
  }

  lemma StatsAreThere(sf: string, cov: FileCov)
    ensures var text := BlockText(sf, cov);
      && |text| >= 3
      && text[|text| - 3..] == ["LF:" + Show(|cov.da.order|), "LH:" + Show(|Above(cov.da.counts)|), "end_of_record"]
      && "FNF:" + Show(|cov.fnda.order|) in text && "FNH:" + Show(|Above(cov.fnda.counts)|) in text
      && (cov.brda.order != [] ==>
            && "BRF:" + Show(|cov.brda.order|) in text
            && "BRH:" + Show(|AboveNumeric(cov.brda.counts, cov.brdaNumeric)|) in text)
  {
    hide LinesOf, Show, Above, AboveNumeric;
    var f, b, h := FunctionText(cov), BranchText(cov), HitText(cov);
    assert f[|f| - 2] == "FNF:" + Show(|cov.fnda.order|) && f[|f| - 1] == "FNH:" + Show(|Above(cov.fnda.counts)|);
    if cov.brda.order != [] {
      assert b[|b| - 2] == "BRF:" + Show(|cov.brda.order|);
      assert b[|b| - 1] == "BRH:" + Show(|AboveNumeric(cov.brda.counts, cov.brdaNumeric)|);
    }
    assert h[|h| - 2..] == ["LF:" + Show(|cov.da.order|), "LH:" + Show(|Above(cov.da.counts)|)];
    Sections(["SF:" + sf], f, b, h, "end_of_record");
  }

  /** What each section of a block holds, the block holds; and it ends as its last section does. */
  lemma Sections(head: seq<string>, f: seq<string>, b: seq<string>, h: seq<string>, last: string)
    requires |h| >= 2
    ensures var text := head + f + b + h + [last];
      && (forall x :: x in f || x in b ==> x in text)
      && text[|text| - 3..] == h[|h| - 2..] + [last]
  {
  }

  // ---------------------------------------------------------------------------
  // When there is nothing to merge, and when a count is missing
  // ---------------------------------------------------------------------------

  /** There is a merged report exactly when some shard has one; it ends its last line. */
  lemma MergedWhenAnyReport(shards: seq<Option<string>>)
    ensures Merged(shards).Some? <==> exists i :: 0 <= i < |shards| && shards[i] != None
    ensures Merged(shards).Some? ==> Merged(shards).value != "" && Merged(shards).value[|Merged(shards).value| - 1] == '\n'
  {
    hide ReportOf, AllFacts, Blocks;
    var lines := Blocks(ReportOf(AllFacts(shards)).order, ReportOf(AllFacts(shards)).files);
    LinesAreEnded(lines);
    if exists i :: 0 <= i < |shards| && shards[i] != None {
      var i :| 0 <= i < |shards| && shards[i] != None;
      assert shards[i].Some?;
    }
  }

  lemma LinesAreEnded(lines: seq<string>)
    ensures var text := JoinLines(lines); text != "" && text[|text| - 1] == '\n'
  {
    if lines != [] {
      TerminatedEnds(lines);
    }
  }

  lemma {:induction false} TerminatedEnds(lines: seq<string>)
    requires lines != []
    ensures var text := Terminate(lines, '\n'); text != "" && text[|text| - 1] == '\n'
  {
    if |lines| > 1 {
      TerminatedEnds(lines[1..]);
    }
  }

  /** A count that is missing, or does not begin like a number, is 0. */
  lemma MissingCountIsZero(at: string, name: string)
    requires ',' !in at && ',' !in name
    ensures ParseLine("DA:" + at) == DA(at, 0)
    ensures name != "" && !IsDigit(name[0]) && !IsSpace(name[0]) && name[0] != '-' && name[0] != '+' ==>
      ParseLine("DA:" + (at + "," + name)) == DA(at, 0)
  {
    NoNumber("undefined");
    ParseTagged("DA:", at);
    ParseTagged("DA:", at + "," + name);
    SplitNone(at, ',');
    SplitTwo(at, name);
    if name != "" && !IsDigit(name[0]) && !IsSpace(name[0]) && name[0] != '-' && name[0] != '+' {
      NoNumber(name);
    }
  }

  lemma NoNumber(s: string)
    requires s != "" && !IsDigit(s[0]) && !IsSpace(s[0]) && s[0] != '-' && s[0] != '+'
    ensures ParseIntOrZero(s) == 0
  {
    assert TrimStart(s) == s;
  }

  // ---------------------------------------------------------------------------
  // First-seen order
  // ---------------------------------------------------------------------------

  /** Where a key occurs first. */
  function FirstAt(keys: seq<string>, k: string): (i: nat)
    requires k in keys
    ensures i < |keys| && keys[i] == k && k !in keys[..i]
  {
    if keys[0] == k then 0
    else
      assert keys == [keys[0]] + keys[1..];
      var i := FirstAt(keys[1..], k);
      assert keys[..i + 1] == [keys[0]] + keys[1..][..i];
      i + 1
  }

  /** `x` occurs, and `y` occurs first after it. */
  predicate SeenBefore(keys: seq<string>, x: string, y: string) {
    x in keys && y in keys && FirstAt(keys, x) < FirstAt(keys, y)
  }

  /** Keys are listed in the order in which they were first seen. */
  lemma {:induction false} ListedAsFirstSeen(keys: seq<string>)
    ensures forall i, j :: 0 <= i < j < |FirstSeen(keys)| ==> SeenBefore(keys, FirstSeen(keys)[i], FirstSeen(keys)[j])
  {
    hide FirstAt;
    if keys != [] {
      var n := |keys| - 1;
      var init, k := keys[..n], keys[n];
      assert keys == init + [k];
      ListedAsFirstSeen(init);
      FirstSeenMembers(init);
      var once, order := FirstSeen(init), FirstSeen(keys);
      forall i, j | 0 <= i < j < |order|
        ensures SeenBefore(keys, order[i], order[j])
      {
        assert order[i] == once[i] && once[i] in init;
        FirstAtGrows(init, k, once[i]);
        if j < |once| {
          assert order[j] == once[j] && SeenBefore(init, once[i], once[j]);
          FirstAtGrows(init, k, once[j]);
        } else {
          assert order[j] == k;
          LastIsNew(init, k);
        }
      }
    }
  }

  lemma LastIsNew(init: seq<string>, k: string)
    requires k !in init
    ensures FirstAt(init + [k], k) == |init|
  {
    hide FirstAt;
    var all := init + [k];
    assert forall i :: 0 <= i < |init| ==> all[i] == init[i] != k;
  }

  lemma FirstAtGrows(init: seq<string>, k: string, x: string)
    requires x in init
    ensures x in init + [k] && FirstAt(init + [k], x) == FirstAt(init, x)
  {
    var i, j := FirstAt(init, x), FirstAt(init + [k], x);
    assert (init + [k])[i] == x && (init + [k])[..i] == init[..i];
    assert (init + [k])[..j] == (init + [k])[..j];
  }
}
