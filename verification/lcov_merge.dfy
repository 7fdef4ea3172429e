/** The coverage merge of the test runner: reading the shards' reports and printing the merged one. */
module LcovMerge {
  import opened Options
  import opened Text
  import opened LcovLines
  import opened LcovFacts

  // ---------------------------------------------------------------------------
  // The printed report
  // ---------------------------------------------------------------------------

  function At(counts: map<string, int>, k: string): int {
    if k in counts then counts[k] else 0
  }

  function FnRecord(): string -> Line {
    k => FN(k)
  }

  function CallRecord(counts: map<string, int>): string -> Line {
    k => FNDA(AfterComma(k), At(counts, k))
  }

  function BranchRecord(counts: map<string, int>, numeric: set<string>): string -> Line {
    k => BRDA(k, if k in numeric then Some(At(counts, k)) else None)
  }

  function HitRecord(counts: map<string, int>): string -> Line {
    k => DA(k, At(counts, k))
  }

  /** One record per key, in order. */
  function Records(order: seq<string>, record: string -> Line): (lines: seq<Line>)
    ensures |lines| == |order| && forall i :: 0 <= i < |order| ==> lines[i] == record(order[i])
  {
    seq(|order|, i requires 0 <= i < |order| => record(order[i]))
  }

  function FnRecords(cov: FileCov): (lines: seq<Line>)
    ensures NoOther(lines)
  {
    Records(cov.fnOrder, FnRecord())
  }

  function CallRecords(t: Tally): (lines: seq<Line>)
    ensures NoOther(lines)
  {
    Records(t.order, CallRecord(t.counts))
  }

  function BranchRecords(t: Tally, numeric: set<string>): (lines: seq<Line>)
    ensures NoOther(lines)
  {
    Records(t.order, BranchRecord(t.counts, numeric))
  }

  function HitRecords(t: Tally): (lines: seq<Line>)
    ensures NoOther(lines)
  {
    Records(t.order, HitRecord(t.counts))
  }

  predicate Positive(line: Line) {
    match line
    case DA(_, count) => count > 0
    case FNDA(_, calls) => calls > 0
    case BRDA(_, taken) => taken.Some? && taken.value > 0
    case _ => false
  }

  /** How many of the records were hit. */
  function Hits(lines: seq<Line>): nat {
    if lines == [] then 0
    else Hits(lines[..|lines| - 1]) + (if Positive(lines[|lines| - 1]) then 1 else 0)
  }

  predicate NoOther(lines: seq<Line>) {
    forall i :: 0 <= i < |lines| ==> !lines[i].Other?
  }

  function Printed(lines: seq<Line>): (out: seq<string>)
    requires NoOther(lines)
    ensures |out| == |lines|
  {
    seq(|lines|, i requires 0 <= i < |lines| => PrintLine(lines[i]))
  }

  function Stat(tag: string, n: nat): string {
    tag + Show(n)
  }

  function FunctionLines(cov: FileCov): seq<string> {
    var calls := CallRecords(cov.fnda);
    Printed(FnRecords(cov)) + Printed(calls) + [Stat("FNF:", |calls|), Stat("FNH:", Hits(calls))]
  }

  function BranchLines(cov: FileCov): seq<string> {
    var branches := BranchRecords(cov.brda, cov.brdaNumeric);
    Printed(branches) + (if |branches| > 0 then [Stat("BRF:", |branches|), Stat("BRH:", Hits(branches))] else [])
  }

  function HitLines(cov: FileCov): seq<string> {
    var hits := HitRecords(cov.da);
    Printed(hits) + [Stat("LF:", |hits|), Stat("LH:", Hits(hits))]
  }

  function Block(sf: string, cov: FileCov): seq<string> {
    [PrintLine(SF(sf))] + FunctionLines(cov) + BranchLines(cov) + HitLines(cov) + ["end_of_record"]
  }

  function Blocks(order: seq<string>, files: map<string, FileCov>): seq<string> {
    if order == [] then []
    else
      var sf := order[|order| - 1];
      Blocks(order[..|order| - 1], files) + (if sf in files then Block(sf, files[sf]) else [])
  }

  /** out.join("\n") + "\n" */
  function JoinLines(lines: seq<string>): string {
    if lines == [] then "\n" else Terminate(lines, '\n')
  }

  function ReportText(r: Report): string {
    JoinLines(Blocks(r.order, r.files))
  }

  predicate SawAny(shards: seq<Option<string>>) {
    exists i :: 0 <= i < |shards| && shards[i].Some?
  }

  /** What the merge writes: nothing at all when no shard has a report. */
  function Merged(shards: seq<Option<string>>): Option<string> {
    if SawAny(shards) then Some(ReportText(ReportOf(AllFacts(shards)))) else None
  }

  // ---------------------------------------------------------------------------
  // Reading
  // ---------------------------------------------------------------------------

  /** A branch without a number has been counted as zero. */
  ghost predicate BranchesConsistent(cov: FileCov) {
    && (forall k :: k in cov.brda.order <==> k in cov.brda.counts)
    && (forall k :: k in cov.brdaNumeric ==> k in cov.brda.counts)
    && (forall k :: k in cov.brda.counts && k !in cov.brdaNumeric ==> cov.brda.counts[k] == 0)
  }

  lemma CovIsConsistent(facts: seq<Fact>, sf: string)
    ensures BranchesConsistent(CovOf(facts, sf))
  {
    CountsAt(facts, sf, Branch);
    KeysMembers(facts, sf, Branch);
    forall k | k !in Numeric(facts, sf)
      ensures SumAt(facts, sf, Branch, k) == 0
    {
      NotNumericIsZero(facts, sf, k);
    }
  }

  method CountInto(t: Tally, k: string, n: int) returns (t': Tally)
    ensures t' == Bump(t, k, n)
  {
    var order, counts := t.order, t.counts;
    if k in counts {
      counts := counts[k := counts[k] + n];
    } else {
      counts := counts[k := n];
      order := order + [k];
    }
    t' := Tally(order, counts);
  }

  method CountBranch(cov: FileCov, sf: string, key: string, taken: Option<int>) returns (cov': FileCov)
    requires BranchesConsistent(cov)
    ensures cov' == Apply(cov, Fact(sf, Branch, key, taken))
  {
    var order, brda, numeric := cov.brda.order, cov.brda.counts, cov.brdaNumeric;
    if taken.None? {
      if key !in numeric && key !in brda {
        brda := brda[key := 0];
      }
    } else {
      if key in numeric {
        brda := brda[key := brda[key] + taken.value];
      } else {
        brda := brda[key := taken.value];
      }
      numeric := numeric + {key};
    }
    if key !in order {
      order := order + [key];
    }
    cov' := cov.(brda := Tally(order, brda), brdaNumeric := numeric);
    assert key in cov.brda.counts && taken.None? ==> brda == cov.brda.counts[key := cov.brda.counts[key] + 0];
  }

  /** A record of the open file is folded into that file's coverage. */
  method CountRecord(cov: FileCov, c: Cursor, line: Line) returns (cov': FileCov)
    requires BranchesConsistent(cov) && c.cur.Some?
    requires !line.SF? && !line.Other?
    ensures |Emit(c, line)| == 1 && cov' == Apply(cov, Emit(c, line)[0])
  {
    cov' := cov;
    match line
    case DA(at, count) =>
      var da := CountInto(cov.da, at, count);
      cov' := cov.(da := da);
    case FN(entry) =>
      if entry !in cov.fnSeen {
        cov' := cov.(fnOrder := cov.fnOrder + [entry], fnSeen := cov.fnSeen + {entry});
      }
    case FNDA(name, calls) =>
      var fnda := CountInto(cov.fnda, CalledFunction(c, name), calls);
      cov' := cov.(fnda := fnda);
    case BRDA(key, taken) =>
      cov' := CountBranch(cov, c.cur.value, key, taken);
  }

  ghost predicate Reading(facts: seq<Fact>, c: Cursor, r: Report) {
    && r == ReportOf(facts) && Grounded(facts)
    && (c.cur.Some? ==> c.cur.value in r.order)
  }

  method OpenFile(r: Report, sf: string, ghost facts: seq<Fact>) returns (r': Report)
    requires r == ReportOf(facts) && Grounded(facts)
    ensures Reading(facts + [Fact("", Opened, sf, None)], Cursor(Some(sf), [], 0), r')
  {
    r' := r;
    ReportOpened(facts, sf);
    GroundedStep(facts, Fact("", Opened, sf, None));
    OrderStep(facts, Fact("", Opened, sf, None));
    if sf !in r.files {
      r' := Report(r.order + [sf], r.files[sf := EMPTY_COV]);
    }
  }

  method RecordLine(r: Report, c: Cursor, line: Line, ghost facts: seq<Fact>) returns (r': Report)
    requires Reading(facts, c, r) && c.cur.Some? && !line.SF? && !line.Other?
    ensures Reading(facts + Emit(c, line), c, r')
  {
    var sf := c.cur.value;
    FilesAt(facts, sf);
    CovIsConsistent(facts, sf);
    var cov := CountRecord(r.files[sf], c, line);
    ghost var f := Emit(c, line)[0];
    assert Emit(c, line) == [f] && f.file == sf && f.kind != Opened;
    ReportRecord(facts, f);
    GroundedStep(facts, f);
    r' := r.(files := r.files[sf := cov]);
  }

  /** One line of a shard's report. */
  method ReadLine(r: Report, c: Cursor, line: Line, ghost facts: seq<Fact>) returns (r': Report, c': Cursor)
    requires Reading(facts, c, r)
    ensures c' == Advance(c, line)
    ensures Reading(facts + Emit(c, line), c', r')
  {
    r', c' := r, c;
    if line.SF? {
      r' := OpenFile(r, line.sf, facts);
      c' := Cursor(Some(line.sf), [], 0);
    } else if c.cur.Some? && !line.Other? {
      r' := RecordLine(r, c, line, facts);
      if line.FN? {
        c' := c.(fnAt := c.fnAt + [line.entry]);
      } else if line.FNDA? {
        c' := c.(fndaIdx := c.fndaIdx + 1);
      }
    } else {
      assert facts + Emit(c, line) == facts;
    }
  }

  method ReadLines(r: Report, lines: seq<Line>, ghost facts: seq<Fact>) returns (r': Report)
    requires Reading(facts, START, r)
    ensures Reading(facts + FactsOf(START, lines), START, r')
  {
    hide Emit, Advance, Grounded, ReportOf;
    ghost var read: seq<Fact> := [];
    var c := START;
    r' := r;
    assert facts + [] == facts;
    for i := 0 to |lines|
      invariant c == CursorAfter(START, lines[..i]) && read == FactsOf(START, lines[..i])
      invariant Reading(facts + read, c, r')
    {
      FactsStep(START, lines, i);
      ghost var more := Emit(c, lines[i]);
      r', c := ReadLine(r', c, lines[i], facts + read);
      assert facts + read + more == facts + (read + more);
      read := read + more;
    }
    assert lines[..|lines|] == lines;
  }

  method ReadShards(shards: seq<Option<string>>) returns (sawAny: bool, r: Report)
    ensures sawAny == SawAny(shards) && r == ReportOf(AllFacts(shards))
  {
    sawAny, r := false, Report([], map[]);
    for i := 0 to |shards|
      invariant sawAny == SawAny(shards[..i])
      invariant Reading(AllFacts(shards[..i]), START, r)
    {
      ShardStep(shards, i);
      if shards[i].Some? {
        sawAny := true;
        r := ReadLines(r, Parsed(Split(shards[i].value, '\n')), AllFacts(shards[..i]));
      }
    }
    assert shards[..|shards|] == shards;
  }

  lemma ShardStep(shards: seq<Option<string>>, i: nat)
    requires i < |shards|
    ensures SawAny(shards[..i + 1]) == (SawAny(shards[..i]) || shards[i].Some?)
    ensures AllFacts(shards[..i + 1])
         == AllFacts(shards[..i]) + (if shards[i].None? then [] else ShardFacts(shards[i].value))
    ensures shards[i].None? ==> AllFacts(shards[..i + 1]) == AllFacts(shards[..i])
  {
    var more := shards[..i + 1];
    assert more[..i] == shards[..i] && more[i] == shards[i];
    assert SawAny(shards[..i]) ==> SawAny(more) by {
      if j :| 0 <= j < i && shards[..i][j].Some? {
        assert more[j].Some?;
      }
    }
  }

  // ---------------------------------------------------------------------------
  // Printing
  // ---------------------------------------------------------------------------

  /** Print records one by one, counting them and those that were hit. */
  method PrintRecords(lines: seq<Line>) returns (out: seq<string>, found: nat, hit: nat)
    requires NoOther(lines)
    ensures out == Printed(lines) && found == |lines| && hit == Hits(lines)
  {
    hide PrintLine;
    ghost var all := Printed(lines);
    out, found, hit := [], 0, 0;
    for i := 0 to |lines|
      invariant found == i && hit == Hits(lines[..i]) && out == all[..i]
    {
      assert all[i] == PrintLine(lines[i]);
      out := out + [PrintLine(lines[i])];
      found := found + 1;
      assert lines[..i + 1][..i] == lines[..i];
      if Positive(lines[i]) {
        hit := hit + 1;
      }
    }
    assert lines[..|lines|] == lines;
  }

  method PrintBlock(sf: string, cov: FileCov) returns (out: seq<string>)
    ensures out == Block(sf, cov)
  {
    var fns, _, _ := PrintRecords(FnRecords(cov));
    var calls, fnf, fnh := PrintRecords(CallRecords(cov.fnda));
    var branches, brf, brh := PrintRecords(BranchRecords(cov.brda, cov.brdaNumeric));
    var hits, lf, lh := PrintRecords(HitRecords(cov.da));
    out := [PrintLine(SF(sf))] + (fns + calls + [Stat("FNF:", fnf), Stat("FNH:", fnh)]);
    if brf > 0 {
      branches := branches + [Stat("BRF:", brf), Stat("BRH:", brh)];
    } else {
      assert branches == branches + [];
    }
    out := out + branches + (hits + [Stat("LF:", lf), Stat("LH:", lh)]) + ["end_of_record"];
  }

  method PrintReport(r: Report) returns (out: seq<string>)
    requires forall sf :: sf in r.order ==> sf in r.files
    ensures out == Blocks(r.order, r.files)
  {
    hide Block;
    out := [];
    for i := 0 to |r.order|
      invariant out == Blocks(r.order[..i], r.files)
    {
      var sf := r.order[i];
      var block := PrintBlock(sf, r.files[sf]);
      out := out + block;
      assert r.order[..i + 1][..i] == r.order[..i];
    }
    assert r.order[..|r.order|] == r.order;
  }

  /**
   Merge the shards' reports, `None` standing for a shard without one. The result is the text of
   the merged report, or nothing when there was none to read.
   */
  method MergeLcov(shards: seq<Option<string>>) returns (merged: Option<string>)
    ensures merged == Merged(shards)
  {
    var sawAny, r := ReadShards(shards);
    if !sawAny {
      return None;
    }
    var out := PrintReport(r);
    merged := Some(JoinLines(out));
  }
}
