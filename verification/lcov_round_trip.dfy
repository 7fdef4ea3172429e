/**
 Merging the merged report again. The printed report names the functions of its FNDA records
 without their lines and pairs them with the FN records by position, so it reads back as it was
 exactly when that pairing gives every function its own name and no two the same key.
 */
module LcovRoundTrip {
  import opened Options
  import opened Text
  import opened LcovLines
  import opened LcovFacts
  import opened LcovMerge

  // ---------------------------------------------------------------------------
  // Reading in pieces
  // ---------------------------------------------------------------------------

  lemma {:induction false} FactsAppend(c: Cursor, a: seq<Line>, b: seq<Line>)
    ensures CursorAfter(c, a + b) == CursorAfter(CursorAfter(c, a), b)
    ensures FactsOf(c, a + b) == FactsOf(c, a) + FactsOf(CursorAfter(c, a), b)
  {
    hide Emit, Advance;
    if b == [] {
      assert a + b == a;
    } else {
      assert (a + b)[..|a + b| - 1] == a + b[..|b| - 1];
      FactsAppend(c, a, b[..|b| - 1]);
    }
  }

  /** Lines that are not records change nothing. */
  lemma {:induction false} OthersAreSkipped(c: Cursor, lines: seq<Line>)
    requires forall i :: 0 <= i < |lines| ==> lines[i] == Other
    ensures CursorAfter(c, lines) == c && FactsOf(c, lines) == []
  {
    if lines != [] {
      OthersAreSkipped(c, lines[..|lines| - 1]);
    }
  }

  // ---------------------------------------------------------------------------
  // The facts a printed block reads as
  // ---------------------------------------------------------------------------

  function FactsAbout(sf: string, kind: Kind, keys: seq<string>, amount: int -> Option<int>): (facts: seq<Fact>)
    ensures |facts| == |keys|
    ensures forall i :: 0 <= i < |keys| ==> facts[i] == Fact(sf, kind, keys[i], amount(i))
  {
    seq(|keys|, i requires 0 <= i < |keys| => Fact(sf, kind, keys[i], amount(i)))
  }

  /** What each FNDA record of a printed block is paired with. */
  function Reread(cov: FileCov): (keys: seq<string>)
    ensures |keys| == |cov.fnda.order|
  {
    seq(|cov.fnda.order|, i requires 0 <= i < |cov.fnda.order| =>
      if i < |cov.fnOrder| then cov.fnOrder[i] else AfterComma(cov.fnda.order[i]))
  }

  function NoAmount(): int -> Option<int> {
    i => None
  }

  /** The count of the `i`th key. */
  function AmountOf(t: Tally): int -> Option<int> {
    i => if 0 <= i < |t.order| then Some(At(t.counts, t.order[i])) else None
  }

  function TakenOf(t: Tally, numeric: set<string>): int -> Option<int> {
    i => if 0 <= i < |t.order| && t.order[i] in numeric then Some(At(t.counts, t.order[i])) else None
  }

  function FnFacts(sf: string, cov: FileCov): seq<Fact> {
    FactsAbout(sf, Fn, cov.fnOrder, NoAmount())
  }

  function CallFacts(sf: string, cov: FileCov): seq<Fact> {
    FactsAbout(sf, Call, Reread(cov), AmountOf(cov.fnda))
  }

  function BranchFacts(sf: string, cov: FileCov): seq<Fact> {
    FactsAbout(sf, Branch, cov.brda.order, TakenOf(cov.brda, cov.brdaNumeric))
  }

  function HitFacts(sf: string, cov: FileCov): seq<Fact> {
    FactsAbout(sf, Hit, cov.da.order, AmountOf(cov.da))
  }

  function BlockFacts(sf: string, cov: FileCov): seq<Fact> {
    [Fact("", Opened, sf, None)]
    + (FnFacts(sf, cov) + CallFacts(sf, cov) + BranchFacts(sf, cov) + HitFacts(sf, cov))
  }

  function BlocksFacts(order: seq<string>, files: map<string, FileCov>): seq<Fact> {
    if order == [] then []
    else
      var sf := order[|order| - 1];
      BlocksFacts(order[..|order| - 1], files) + (if sf in files then BlockFacts(sf, files[sf]) else [])
  }

  lemma PrefixStep<T>(xs: seq<T>, n: nat)
    requires 0 < n <= |xs|
    ensures xs[..n] == xs[..n - 1] + [xs[n - 1]]
  {
  }

  lemma EmitFn(sf: string, cov: FileCov, i: nat)
    requires i < |cov.fnOrder|
    ensures |FnFacts(sf, cov)| == |FnRecords(cov)| == |cov.fnOrder|
    ensures var c := Cursor(Some(sf), cov.fnOrder[..i], 0);
      && Advance(c, FnRecords(cov)[i]) == Cursor(Some(sf), cov.fnOrder[..i] + [cov.fnOrder[i]], 0)
      && Emit(c, FnRecords(cov)[i]) == [FnFacts(sf, cov)[i]]
  {
  }

  lemma {:induction false} ReadFnRecords(sf: string, cov: FileCov, n: nat)
    requires n <= |cov.fnOrder|
    ensures var c := Cursor(Some(sf), [], 0);
      && CursorAfter(c, FnRecords(cov)[..n]) == Cursor(Some(sf), cov.fnOrder[..n], 0)
      && FactsOf(c, FnRecords(cov)[..n]) == FnFacts(sf, cov)[..n]
  {
    if n > 0 {
      hide CursorAfter, FactsOf, Emit, Advance, FnRecords, FnFacts;
      EmitFn(sf, cov, n - 1);
      ReadFnRecords(sf, cov, n - 1);
      FactsStep(Cursor(Some(sf), [], 0), FnRecords(cov), n - 1);
      PrefixStep(FnFacts(sf, cov), n);
      PrefixStep(cov.fnOrder, n);
    }
  }

  lemma EmitCall(sf: string, cov: FileCov, i: nat)
    requires i < |cov.fnda.order|
    ensures |CallFacts(sf, cov)| == |CallRecords(cov.fnda)| == |cov.fnda.order|
    ensures var c := Cursor(Some(sf), cov.fnOrder, i);
      && Advance(c, CallRecords(cov.fnda)[i]) == Cursor(Some(sf), cov.fnOrder, i + 1)
      && Emit(c, CallRecords(cov.fnda)[i]) == [CallFacts(sf, cov)[i]]
  {
  }

  lemma {:induction false} ReadCallRecords(sf: string, cov: FileCov, n: nat)
    requires n <= |cov.fnda.order|
    ensures var c := Cursor(Some(sf), cov.fnOrder, 0);
      && CursorAfter(c, CallRecords(cov.fnda)[..n]) == c.(fndaIdx := n)
      && FactsOf(c, CallRecords(cov.fnda)[..n]) == CallFacts(sf, cov)[..n]
  {
    if n > 0 {
      hide CursorAfter, FactsOf, Emit, Advance, CallRecords, CallFacts;
      EmitCall(sf, cov, n - 1);
      ReadCallRecords(sf, cov, n - 1);
      FactsStep(Cursor(Some(sf), cov.fnOrder, 0), CallRecords(cov.fnda), n - 1);
      PrefixStep(CallFacts(sf, cov), n);
    }
  }

  lemma EmitBranch(c: Cursor, cov: FileCov, i: nat)
    requires c.cur.Some? && i < |cov.brda.order|
    ensures |BranchFacts(c.cur.value, cov)| == |BranchRecords(cov.brda, cov.brdaNumeric)| == |cov.brda.order|
    ensures Advance(c, BranchRecords(cov.brda, cov.brdaNumeric)[i]) == c
    ensures Emit(c, BranchRecords(cov.brda, cov.brdaNumeric)[i]) == [BranchFacts(c.cur.value, cov)[i]]
  {
  }

  lemma {:induction false} ReadBranchRecords(c: Cursor, cov: FileCov, n: nat)
    requires c.cur.Some? && n <= |cov.brda.order|
    ensures var lines := BranchRecords(cov.brda, cov.brdaNumeric);
      && CursorAfter(c, lines[..n]) == c
      && FactsOf(c, lines[..n]) == BranchFacts(c.cur.value, cov)[..n]
  {
    if n > 0 {
      hide CursorAfter, FactsOf, Emit, Advance, BranchRecords, BranchFacts;
      EmitBranch(c, cov, n - 1);
      ReadBranchRecords(c, cov, n - 1);
      FactsStep(c, BranchRecords(cov.brda, cov.brdaNumeric), n - 1);
      PrefixStep(BranchFacts(c.cur.value, cov), n);
    }
  }

  lemma EmitHit(c: Cursor, cov: FileCov, i: nat)
    requires c.cur.Some? && i < |cov.da.order|
    ensures |HitFacts(c.cur.value, cov)| == |HitRecords(cov.da)| == |cov.da.order|
    ensures Advance(c, HitRecords(cov.da)[i]) == c
    ensures Emit(c, HitRecords(cov.da)[i]) == [HitFacts(c.cur.value, cov)[i]]
  {
  }

  lemma {:induction false} ReadHitRecords(c: Cursor, cov: FileCov, n: nat)
    requires c.cur.Some? && n <= |cov.da.order|
    ensures var lines := HitRecords(cov.da);
      && CursorAfter(c, lines[..n]) == c
      && FactsOf(c, lines[..n]) == HitFacts(c.cur.value, cov)[..n]
  {
    if n > 0 {
      hide CursorAfter, FactsOf, Emit, Advance, HitRecords, HitFacts;
      EmitHit(c, cov, n - 1);
      ReadHitRecords(c, cov, n - 1);
      FactsStep(c, HitRecords(cov.da), n - 1);
      PrefixStep(HitFacts(c.cur.value, cov), n);
    }
  }

  /** What every record of the block can be read back as. */
  ghost predicate ReadableCov(cov: FileCov) {
    && (forall k :: k in cov.da.order ==> '\n' !in k && ',' !in k)
    && (forall k :: k in cov.fnOrder ==> '\n' !in k)
    && (forall k :: k in cov.fnda.order ==> '\n' !in k)
    && (forall k :: k in cov.brda.order ==> '\n' !in k && IsBranchKey(k))
  }

  function Skipped(n: nat): (lines: seq<Line>)
    ensures |lines| == n && forall i :: 0 <= i < n ==> lines[i] == Other
  {
    seq(n, i => Other)
  }

  /** The lines of a printed block as they are read. */
  function BlockLines(sf: string, cov: FileCov): seq<Line> {
    [SF(sf)]
    + (FnRecords(cov) + CallRecords(cov.fnda) + Skipped(2))
    + (BranchRecords(cov.brda, cov.brdaNumeric) + Skipped(if |cov.brda.order| > 0 then 2 else 0))
    + (HitRecords(cov.da) + Skipped(2))
    + Skipped(1)
  }

  lemma ReadFunctionLines(sf: string, cov: FileCov)
    ensures var c, lines := Cursor(Some(sf), [], 0), FnRecords(cov) + CallRecords(cov.fnda) + Skipped(2);
      && CursorAfter(c, lines).cur == Some(sf)
      && FactsOf(c, lines) == FnFacts(sf, cov) + CallFacts(sf, cov)
  {
    hide FactsOf, CursorAfter, FnRecords, CallRecords, FnFacts, CallFacts;
    var c, d := Cursor(Some(sf), [], 0), Cursor(Some(sf), cov.fnOrder, 0);
    var fns, calls := FnRecords(cov), CallRecords(cov.fnda);
    WholeFnRecords(sf, cov);
    WholeCallRecords(sf, cov);
    FactsAppend(c, fns + calls, Skipped(2));
    FactsAppend(c, fns, calls);
    OthersAreSkipped(CursorAfter(c, fns + calls), Skipped(2));
    assert FactsOf(c, fns + calls + Skipped(2)) == FactsOf(c, fns + calls) + [];
  }

  lemma WholeFnRecords(sf: string, cov: FileCov)
    ensures CursorAfter(Cursor(Some(sf), [], 0), FnRecords(cov)) == Cursor(Some(sf), cov.fnOrder, 0)
    ensures FactsOf(Cursor(Some(sf), [], 0), FnRecords(cov)) == FnFacts(sf, cov)
  {
    var n := |cov.fnOrder|;
    ReadFnRecords(sf, cov, n);
    assert FnRecords(cov)[..n] == FnRecords(cov) && FnFacts(sf, cov)[..n] == FnFacts(sf, cov);
    assert cov.fnOrder[..n] == cov.fnOrder;
  }

  lemma WholeCallRecords(sf: string, cov: FileCov)
    ensures CursorAfter(Cursor(Some(sf), cov.fnOrder, 0), CallRecords(cov.fnda)).cur == Some(sf)
    ensures FactsOf(Cursor(Some(sf), cov.fnOrder, 0), CallRecords(cov.fnda)) == CallFacts(sf, cov)
  {
    var n := |cov.fnda.order|;
    ReadCallRecords(sf, cov, n);
    assert CallRecords(cov.fnda)[..n] == CallRecords(cov.fnda) && CallFacts(sf, cov)[..n] == CallFacts(sf, cov);
  }

  lemma ReadBranchLines(c: Cursor, cov: FileCov, skip: nat)
    requires c.cur.Some?
    ensures var lines := BranchRecords(cov.brda, cov.brdaNumeric) + Skipped(skip);
      && CursorAfter(c, lines) == c
      && FactsOf(c, lines) == BranchFacts(c.cur.value, cov)
  {
    var n, records := |cov.brda.order|, BranchRecords(cov.brda, cov.brdaNumeric);
    ReadBranchRecords(c, cov, n);
    assert records[..n] == records;
    assert BranchFacts(c.cur.value, cov)[..n] == BranchFacts(c.cur.value, cov);
    FactsAppend(c, records, Skipped(skip));
    OthersAreSkipped(c, Skipped(skip));
  }

  lemma ReadHitLines(c: Cursor, cov: FileCov, skip: nat)
    requires c.cur.Some?
    ensures var lines := HitRecords(cov.da) + Skipped(skip);
      && CursorAfter(c, lines) == c
      && FactsOf(c, lines) == HitFacts(c.cur.value, cov)
  {
    var n, records := |cov.da.order|, HitRecords(cov.da);
    ReadHitRecords(c, cov, n);
    assert records[..n] == records;
    assert HitFacts(c.cur.value, cov)[..n] == HitFacts(c.cur.value, cov);
    FactsAppend(c, records, Skipped(skip));
    OthersAreSkipped(c, Skipped(skip));
  }

  /** A block reads as its facts from any position. */
  lemma ReadBlock(c: Cursor, sf: string, cov: FileCov)
    ensures FactsOf(c, BlockLines(sf, cov)) == BlockFacts(sf, cov)
  {
    var open := [SF(sf)];
    var functions := FnRecords(cov) + CallRecords(cov.fnda) + Skipped(2);
    var branches := BranchRecords(cov.brda, cov.brdaNumeric) + Skipped(if |cov.brda.order| > 0 then 2 else 0);
    var hits := HitRecords(cov.da) + Skipped(2);
    var c1 := Cursor(Some(sf), [], 0);
    ReadOpen(c, sf);
    hide FactsOf, CursorAfter, FnFacts, CallFacts, BranchFacts, HitFacts;
    hide FnRecords, CallRecords, BranchRecords, HitRecords, Skipped;
    ReadFunctionLines(sf, cov);
    var c2 := CursorAfter(c1, functions);
    ReadBranchLines(c2, cov, if |cov.brda.order| > 0 then 2 else 0);
    ReadHitLines(c2, cov, 2);
    OthersAreSkipped(c2, Skipped(1));
    FactsAppend(c, open + functions + branches + hits, Skipped(1));
    FactsAppend(c, open + functions + branches, hits);
    FactsAppend(c, open + functions, branches);
    FactsAppend(c, open, functions);
    FiveFacts(FactsOf(c, open), FnFacts(sf, cov), CallFacts(sf, cov), BranchFacts(sf, cov), HitFacts(sf, cov));
  }

  lemma FiveFacts(o: seq<Fact>, f: seq<Fact>, c: seq<Fact>, b: seq<Fact>, h: seq<Fact>)
    ensures o + (f + c) + b + h + [] == o + (f + c + b + h)
  {
  }

  lemma ReadOpen(c: Cursor, sf: string)
    ensures CursorAfter(c, [SF(sf)]) == Cursor(Some(sf), [], 0)
    ensures FactsOf(c, [SF(sf)]) == [Fact("", Opened, sf, None)]
  {
    assert [SF(sf)][..0] == [];
  }

  // ---------------------------------------------------------------------------
  // From the printed text to its facts
  // ---------------------------------------------------------------------------

  lemma StatIsSkipped(tag: string, n: nat)
    requires tag in ["FNF:", "FNH:", "BRF:", "BRH:", "LF:", "LH:"]
    ensures ParseLine(Stat(tag, n)) == Other && '\n' !in Stat(tag, n)
  {
    ShowHasNo(n, '\n');
    var s := Stat(tag, n);
    assert s[0] == tag[0] && (|tag| > 2 ==> s[2] == tag[2]);
  }

  lemma ParsedAppend(a: seq<string>, b: seq<string>)
    ensures Parsed(a + b) == Parsed(a) + Parsed(b)
  {
    hide ParseLine;
  }

  ghost predicate AllReadable(lines: seq<Line>) {
    NoOther(lines) && forall i :: 0 <= i < |lines| ==> Readable(lines[i])
  }

  lemma ParsedRecords(lines: seq<Line>)
    requires AllReadable(lines)
    ensures Parsed(Printed(lines)) == lines && Clean(Printed(lines), '\n')
  {
    hide ParseLine, PrintLine, Readable;
    forall i | 0 <= i < |lines|
      ensures ParseLine(PrintLine(lines[i])) == lines[i] && '\n' !in PrintLine(lines[i])
    {
      ParsePrinted(lines[i]);
      PrintedOnOneLine(lines[i]);
    }
  }

  lemma ParsedStats(tag1: string, n1: nat, tag2: string, n2: nat)
    requires {tag1, tag2} <= {"FNF:", "FNH:", "BRF:", "BRH:", "LF:", "LH:"}
    ensures Parsed([Stat(tag1, n1), Stat(tag2, n2)]) == Skipped(2)
    ensures Clean([Stat(tag1, n1), Stat(tag2, n2)], '\n')
  {
    hide ParseLine, Stat;
    assert tag1 in {tag1, tag2} && tag2 in {tag1, tag2};
    StatIsSkipped(tag1, n1);
    StatIsSkipped(tag2, n2);
  }

  lemma CleanAppend(a: seq<string>, b: seq<string>, c: char)
    requires Clean(a, c) && Clean(b, c)
    ensures Clean(a + b, c)
  {
  }

  lemma ParsedPiece(a: seq<string>, lines: seq<Line>, b: seq<string>, more: seq<Line>)
    requires Parsed(a) == lines && Parsed(b) == more && Clean(a, '\n') && Clean(b, '\n')
    ensures Parsed(a + b) == lines + more && Clean(a + b, '\n')
  {
    ParsedAppend(a, b);
    CleanAppend(a, b, '\n');
  }

  lemma RecordsReadable(cov: FileCov)
    requires ReadableCov(cov)
    ensures AllReadable(FnRecords(cov)) && AllReadable(CallRecords(cov.fnda))
    ensures AllReadable(BranchRecords(cov.brda, cov.brdaNumeric)) && AllReadable(HitRecords(cov.da))
  {
    hide IsBranchKey;
    forall k | '\n' !in k
      ensures '\n' !in AfterComma(k)
    {
    }
  }

  lemma ParsedFunctionLines(cov: FileCov)
    requires ReadableCov(cov)
    ensures Parsed(FunctionLines(cov)) == FnRecords(cov) + CallRecords(cov.fnda) + Skipped(2)
    ensures Clean(FunctionLines(cov), '\n')
  {
    RecordsReadable(cov);
    var fns, calls := FnRecords(cov), CallRecords(cov.fnda);
    hide Parsed, Printed, Stat, FnRecords, CallRecords, Skipped, AllReadable;
    ParsedRecords(fns);
    ParsedRecords(calls);
    ParsedStats("FNF:", |calls|, "FNH:", Hits(calls));
    ParsedPiece(Printed(fns), fns, Printed(calls), calls);
    ParsedPiece(Printed(fns) + Printed(calls), fns + calls,
                [Stat("FNF:", |calls|), Stat("FNH:", Hits(calls))], Skipped(2));
  }

  lemma ParsedBranchLines(cov: FileCov)
    requires ReadableCov(cov)
    ensures Parsed(BranchLines(cov))
         == BranchRecords(cov.brda, cov.brdaNumeric) + Skipped(if |cov.brda.order| > 0 then 2 else 0)
    ensures Clean(BranchLines(cov), '\n')
  {
    RecordsReadable(cov);
    var branches := BranchRecords(cov.brda, cov.brdaNumeric);
    assert |branches| == |cov.brda.order|;
    ParsedRecords(branches);
    if |branches| > 0 {
      ParsedStats("BRF:", |branches|, "BRH:", Hits(branches));
      ParsedPiece(Printed(branches), branches, [Stat("BRF:", |branches|), Stat("BRH:", Hits(branches))], Skipped(2));
    } else {
      ParsedPiece(Printed(branches), branches, [], Skipped(0));
    }
  }

  lemma ParsedHitLines(cov: FileCov)
    requires ReadableCov(cov)
    ensures Parsed(HitLines(cov)) == HitRecords(cov.da) + Skipped(2)
    ensures Clean(HitLines(cov), '\n')
  {
    RecordsReadable(cov);
    var hits := HitRecords(cov.da);
    hide Parsed, Printed, Stat, HitRecords, Skipped, AllReadable;
    ParsedRecords(hits);
    ParsedStats("LF:", |hits|, "LH:", Hits(hits));
    ParsedPiece(Printed(hits), hits, [Stat("LF:", |hits|), Stat("LH:", Hits(hits))], Skipped(2));
  }

  lemma ParsedEnds(sf: string)
    requires '\n' !in sf
    ensures Parsed([PrintLine(SF(sf))]) == [SF(sf)] && Clean([PrintLine(SF(sf))], '\n')
    ensures Parsed(["end_of_record"]) == Skipped(1) && Clean(["end_of_record"], '\n')
    ensures Parsed([""]) == Skipped(1)
  {
    ParsePrinted(SF(sf));
    PrintedOnOneLine(SF(sf));
  }

  lemma ParsedBlock(sf: string, cov: FileCov)
    requires '\n' !in sf && ReadableCov(cov)
    ensures Parsed(Block(sf, cov)) == BlockLines(sf, cov) && Clean(Block(sf, cov), '\n')
  {
    hide Parsed, Printed, PrintLine, FunctionLines, BranchLines, HitLines, Skipped, ReadableCov;
    hide FnRecords, CallRecords, BranchRecords, HitRecords;
    ParsedEnds(sf);
    ParsedFunctionLines(cov);
    ParsedBranchLines(cov);
    ParsedHitLines(cov);
    var open := [PrintLine(SF(sf))];
    var functions, branches, hits := Parsed(FunctionLines(cov)), Parsed(BranchLines(cov)), Parsed(HitLines(cov));
    ParsedPiece(open, [SF(sf)], FunctionLines(cov), functions);
    ParsedPiece(open + FunctionLines(cov), [SF(sf)] + functions, BranchLines(cov), branches);
    ParsedPiece(open + FunctionLines(cov) + BranchLines(cov), [SF(sf)] + functions + branches,
                HitLines(cov), hits);
    ParsedPiece(open + FunctionLines(cov) + BranchLines(cov) + HitLines(cov),
                [SF(sf)] + functions + branches + hits, ["end_of_record"], Skipped(1));
  }

  ghost predicate ReadableFiles(files: map<string, FileCov>) {
    forall sf :: sf in files ==> '\n' !in sf && ReadableCov(files[sf])
  }

  lemma {:induction false} ReadBlocks(order: seq<string>, files: map<string, FileCov>)
    requires ReadableFiles(files)
    ensures Clean(Blocks(order, files), '\n')
    ensures FactsOf(START, Parsed(Blocks(order, files))) == BlocksFacts(order, files)
  {
    if order == [] {
      ReadNothing();
    } else {
      var sf, init := order[|order| - 1], order[..|order| - 1];
      ReadBlocks(init, files);
      hide FactsOf, Parsed, Block, BlockFacts, ReadableCov;
      if sf in files {
        ReadOneMore(Blocks(init, files), BlocksFacts(init, files), sf, files[sf]);
      } else {
        assert Blocks(init, files) + [] == Blocks(init, files);
        assert BlocksFacts(init, files) + [] == BlocksFacts(init, files);
      }
    }
  }

  lemma ReadOneMore(before: seq<string>, facts: seq<Fact>, sf: string, cov: FileCov)
    requires Clean(before, '\n') && FactsOf(START, Parsed(before)) == facts
    requires '\n' !in sf && ReadableCov(cov)
    ensures Clean(before + Block(sf, cov), '\n')
    ensures FactsOf(START, Parsed(before + Block(sf, cov))) == facts + BlockFacts(sf, cov)
  {
    hide FactsOf, Parsed, Block, BlockLines, BlockFacts, ReadableCov;
    var block := Block(sf, cov);
    ParsedBlock(sf, cov);
    ParsedAppend(before, block);
    CleanAppend(before, block, '\n');
    FactsAppend(START, Parsed(before), Parsed(block));
    ReadBlock(CursorAfter(START, Parsed(before)), sf, cov);
  }

  /** The printed report reads as the facts of its blocks. */
  lemma ReadReport(r: Report)
    requires ReadableFiles(r.files)
    ensures ShardFacts(ReportText(r)) == BlocksFacts(r.order, r.files)
  {
    var lines := Blocks(r.order, r.files);
    ReadBlocks(r.order, r.files);
    SplitReport(lines);
    hide FactsOf, Parsed, Blocks, BlocksFacts, ReadableFiles;
    ParsedEnds("");
    if lines == [] {
      ParsedAppend([""], [""]);
      OthersAreSkipped(START, Skipped(1) + Skipped(1));
      ReadNothing();
    } else {
      ParsedAppend(lines, [""]);
      FactsAppend(START, Parsed(lines), Skipped(1));
      OthersAreSkipped(CursorAfter(START, Parsed(lines)), Skipped(1));
    }
  }

  lemma ReadNothing()
    ensures FactsOf(START, Parsed([])) == []
  {
  }

  lemma SplitReport(lines: seq<string>)
    requires Clean(lines, '\n')
    ensures Split(JoinLines(lines), '\n') == (if lines == [] then [""] else lines) + [""]
  {
    SplitNone("", '\n');
    if lines == [] {
      SplitFirst("", '\n', "");
      assert "" + ['\n'] + "" == "\n";
    } else {
      SplitTerminated(lines, '\n', "");
      assert Terminate(lines, '\n') + "" == Terminate(lines, '\n');
    }
  }
}
