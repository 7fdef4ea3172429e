/** The diff parser inverts rendering exactly when no added line starts with `++`. */
module DiffRoundTrip {
  import opened Options
  import opened Text
  import opened UnifiedDiff
  import opened DiffRendering

  // ---------------------------------------------------------------------------
  // The text splits back into the lines
  // ---------------------------------------------------------------------------

  lemma PathIsClean(f: FileDiff)
    requires ProperFile(f)
    ensures '\n' !in RenderPath(f.path)
  {
  }

  lemma CountIsClean(count: Option<nat>)
    ensures '\n' !in RenderCount(count)
  {
    if count.Some? && '\n' in RenderCount(count) {
      ShowHasOnly(count.value, '\n');
    }
  }

  lemma RangeIsClean(start: nat, count: Option<nat>, rest: string)
    requires '\n' !in rest
    ensures '\n' !in RenderRange(start, count, rest)
  {
    hide RenderCount;
    CountIsClean(count);
    if '\n' in ShowNat(start) {
      ShowHasOnly(start, '\n');
    }
  }

  lemma StartIsClean(h: Hunk)
    requires '\n' !in h.section
    ensures '\n' !in RenderStart(h)
  {
    hide RenderRange;
    var end := " @@" + h.section;
    var more := " +" + RenderRange(h.newStart, h.newCount, end);
    RangeIsClean(h.newStart, h.newCount, end);
    RangeIsClean(h.oldStart, h.oldCount, more);
  }

  lemma {:induction false} HunksAreClean(hunks: seq<Hunk>)
    requires forall j :: 0 <= j < |hunks| ==> ProperHunk(hunks[j])
    ensures Clean(RenderHunks(hunks), '\n')
  {
    hide RenderStart, RenderLine;
    if hunks != [] {
      StartIsClean(hunks[0]);
      HunksAreClean(hunks[1..]);
    }
  }

  lemma {:induction false} FilesAreClean(files: seq<FileDiff>)
    requires forall i :: 0 <= i < |files| ==> ProperFile(files[i])
    ensures Clean(RenderFiles(files), '\n')
  {
    hide RenderPath, RenderHunks, ProperHunk, InOrder, Agrees, NewSide, ProperPath, RenderStart;
    if files != [] {
      PathIsClean(files[0]);
      HunksAreClean(files[0].hunks);
      FilesAreClean(files[1..]);
    }
  }

  lemma SplitRendered(d: Diff)
    requires Proper(d)
    ensures Split(Render(d), '\n') == RenderFiles(d.files) + d.trailer + [""]
  {
    hide Split, Terminate, ProperFile;
    var lines := RenderFiles(d.files) + d.trailer;
    FilesAreClean(d.files);
    SplitTerminated(lines, '\n', "");
    SplitNone("", '\n');
    assert Terminate(lines, '\n') + "" == Terminate(lines, '\n');
  }

  lemma ParsedFiles(d: Diff)
    requires Proper(d)
    ensures Parse(Render(d)) == ParseLines(Start(), RenderFiles(d.files)).added
  {
    hide Split, RenderFiles, Render, Step, ProperFile;
    SplitRendered(d);
    var end := d.trailer + [""];
    assert RenderFiles(d.files) + d.trailer + [""] == RenderFiles(d.files) + end;
    ParseAppend(Start(), RenderFiles(d.files), end);
    SkipInert(ParseLines(Start(), RenderFiles(d.files)), end);
  }

  // ---------------------------------------------------------------------------
  // Counting
  // ---------------------------------------------------------------------------

  /** How many of the lines the parser could take for added ones. */
  function PlusLines(raws: seq<string>): nat {
    if raws == [] then 0
    else (if StartsWith(raws[0], "+") && !StartsWith(raws[0], "+++") then 1 else 0) + PlusLines(raws[1..])
  }

  lemma {:induction false} RowsAtMost(p: Parser, raws: seq<string>)
    ensures |ParseLines(p, raws).added| <= |p.added| + PlusLines(raws)
    decreases |raws|
  {
    if raws != [] {
      hide HunkStart, PathOf;
      RowsAtMost(Step(p, raws[0]), raws[1..]);
    }
  }

  lemma {:induction false} PlusAppend(a: seq<string>, b: seq<string>)
    ensures PlusLines(a + b) == PlusLines(a) + PlusLines(b)
  {
    if a == [] {
      assert a + b == b;
    } else {
      assert (a + b)[1..] == a[1..] + b;
      PlusAppend(a[1..], b);
    }
  }

  lemma PlusOne(raw: string)
    ensures PlusLines([raw]) == if StartsWith(raw, "+") && !StartsWith(raw, "+++") then 1 else 0
  {
    assert [raw][1..] == [];
  }

  /** The rows a hunk should give, less the rows it can give, is the number of its masked lines. */
  lemma {:induction false} HunkCounts(f: FileDiff, j: nat, k: nat)
    requires f.path.Some? && j < |f.hunks| && k <= |f.hunks[j].lines|
    ensures PlusLines(RenderLines(f.hunks[j].lines)[k..]) <= |RowsOfHunk(f, j, k)|
    ensures (exists i :: k <= i < |f.hunks[j].lines| && Masked(f.hunks[j].lines[i])) ==>
      PlusLines(RenderLines(f.hunks[j].lines)[k..]) < |RowsOfHunk(f, j, k)|
    decreases |f.hunks[j].lines| - k
  {
    hide AddedRow, NumberOf, RenderLine, StartsWith, Masked;
    var lines := f.hunks[j].lines;
    var raws := RenderLines(lines);
    if k < |lines| {
      assert raws[k..][1..] == raws[k + 1..] && raws[k..][0] == RenderLine(lines[k]);
      LineCounts(lines[k]);
      HunkCounts(f, j, k + 1);
    }
  }

  lemma LineCounts(line: Line)
    ensures var raw := RenderLine(line);
      (StartsWith(raw, "+") && !StartsWith(raw, "+++")) == (line.Added? && !Masked(line))
    ensures Masked(line) ==> line.Added?
  {
    if line.Added? {
      PlusesInFront(line.text);
    }
  }

  lemma StartIsNoPlus(h: Hunk)
    ensures PlusLines([RenderStart(h)]) == 0
  {
    hide RenderRange, PlusLines;
    PlusOne(RenderStart(h));
    assert RenderStart(h)[0] == '@';
  }

  lemma {:induction false} HunksCount(f: FileDiff, j: nat)
    requires f.path.Some? && j <= |f.hunks|
    ensures PlusLines(RenderHunks(f.hunks[j..])) <= |RowsOfHunks(f, j)|
    ensures (exists i :: j <= i < |f.hunks| && !NoneMasked(f.hunks[i].lines)) ==>
      PlusLines(RenderHunks(f.hunks[j..])) < |RowsOfHunks(f, j)|
    decreases |f.hunks| - j
  {
    hide RenderStart, RenderLines, RowsOfHunk, PlusLines;
    if j < |f.hunks| {
      var h := f.hunks[j];
      var start, body, more := [RenderStart(h)], RenderLines(h.lines), RenderHunks(f.hunks[j + 1..]);
      assert f.hunks[j..][1..] == f.hunks[j + 1..];
      StartIsNoPlus(h);
      PlusAppend(start + body, more);
      PlusAppend(start, body);
      WholeHunkCounts(f, j);
      HunksCount(f, j + 1);
    } else {
      NoPlus();
    }
  }

  lemma NoPlus()
    ensures PlusLines([]) == 0
  {
  }

  lemma WholeHunkCounts(f: FileDiff, j: nat)
    requires f.path.Some? && j < |f.hunks|
    ensures var lines := f.hunks[j].lines;
      && PlusLines(RenderLines(lines)) <= |RowsOfHunk(f, j, 0)|
      && (!NoneMasked(lines) ==> PlusLines(RenderLines(lines)) < |RowsOfHunk(f, j, 0)|)
  {
    hide PlusLines, RowsOfHunk, Masked;
    HunkCounts(f, j, 0);
    assert RenderLines(f.hunks[j].lines)[0..] == RenderLines(f.hunks[j].lines);
  }

  lemma {:induction false} InertHasNoPlus(raws: seq<string>)
    requires AllInert(raws)
    ensures PlusLines(raws) == 0
  {
    if raws != [] {
      InertHasNoPlus(raws[1..]);
    }
  }

  lemma PathIsNoPlus(path: Option<string>)
    ensures PlusLines([RenderPath(path)]) == 0
  {
    hide PlusLines;
    PlusOne(RenderPath(path));
    assert StartsWith(RenderPath(path), "+++");
  }

  lemma FileCounts(f: FileDiff)
    requires ProperFile(f)
    ensures PlusLines(RenderFile(f)) <= |RowsOfFile(f)|
    ensures !HunksReadable(f.hunks) ==> PlusLines(RenderFile(f)) < |RowsOfFile(f)|
  {
    hide PlusLines, RenderPath, RenderHunks, RowsOfHunks, NoneMasked, ProperHunk, InOrder, Agrees, NewSide, AllInert;
    InertHasNoPlus(f.headers);
    PathIsNoPlus(f.path);
    PlusAppend(f.headers + [RenderPath(f.path)], RenderHunks(f.hunks));
    PlusAppend(f.headers, [RenderPath(f.path)]);
    assert f.hunks[0..] == f.hunks;
    if f.path.Some? {
      HunksCount(f, 0);
    } else {
      DeletedHunksCount(f.hunks);
    }
  }

  lemma {:induction false} DeletedHunksCount(hunks: seq<Hunk>)
    requires forall j :: 0 <= j < |hunks| ==> NewSide(hunks[j].lines) == []
    ensures PlusLines(RenderHunks(hunks)) == 0 && HunksReadable(hunks)
  {
    hide PlusLines, RenderStart, NewSide, RenderLines, NoneMasked;
    if hunks == [] {
      NoPlus();
    } else {
      var start, body, more := [RenderStart(hunks[0])], RenderLines(hunks[0].lines), RenderHunks(hunks[1..]);
      StartIsNoPlus(hunks[0]);
      PlusAppend(start + body, more);
      PlusAppend(start, body);
      DeletedLinesCount(hunks[0].lines);
      DeletedHunksCount(hunks[1..]);
      assert forall j :: 0 < j < |hunks| ==> hunks[j] == hunks[1..][j - 1];
    }
  }

  lemma {:induction false} DeletedLinesCount(lines: seq<Line>)
    requires NewSide(lines) == []
    ensures PlusLines(RenderLines(lines)) == 0 && NoneMasked(lines)
  {
    hide PlusLines, RenderLine, StartsWith, Masked;
    if lines == [] {
      NoPlus();
    } else {
      var n := |lines| - 1;
      DeletedLinesCount(lines[..n]);
      assert RenderLines(lines) == RenderLines(lines[..n]) + [RenderLine(lines[n])];
      PlusAppend(RenderLines(lines[..n]), [RenderLine(lines[n])]);
      PlusOne(RenderLine(lines[n]));
      LineCounts(lines[n]);
    }
  }

  lemma {:induction false} FilesCount(files: seq<FileDiff>)
    requires forall i :: 0 <= i < |files| ==> ProperFile(files[i])
    ensures PlusLines(RenderFiles(files)) <= |RowsOf(files)|
    ensures !Readable(files) ==> PlusLines(RenderFiles(files)) < |RowsOf(files)|
  {
    hide PlusLines, RenderFile, RowsOfFile, HunksReadable, ProperFile;
    if files == [] {
      NoPlus();
    } else {
      FileCounts(files[0]);
      FilesCount(files[1..]);
      PlusAppend(RenderFile(files[0]), RenderFiles(files[1..]));
      assert forall i :: 0 < i < |files| ==> files[i] == files[1..][i - 1];
    }
  }

  /**
   The parser returns exactly the added lines, in order, each with its number in the new file and
   the line before it if a hunk shows that, if and only if no added line starts with `++`.
   */
  lemma ParserInvertsRendering(d: Diff)
    requires Proper(d)
    ensures Parse(Render(d)) == RowsOf(d.files) <==> Readable(d.files)
  {
    hide ProperFile, RenderFiles, RowsOf, Render, Parse, ParseLines, PlusLines, HunksReadable;
    ParsedFiles(d);
    if Readable(d.files) {
      ReadFiles(Start(), d.files);
    } else {
      RowsAtMost(Start(), RenderFiles(d.files));
      FilesCount(d.files);
    }
  }

  /** A new file of the single line `++x`. */
  function MaskedExample(): Diff {
    Diff([FileDiff(["diff --git a/f b/f", "--- /dev/null"], Some("f"), ["++x"],
                   [Hunk(0, Some(0), 1, None, "", [Added("++x")])])], [])
  }

  /** Its one added line is not found. */
  lemma MaskedLineIsMissed()
    ensures var d := MaskedExample();
      && Proper(d) && !Readable(d.files)
      && RowsOf(d.files) == [Row("f", 1, "++x", "")]
      && Parse(Render(d)) == []
  {
    hide Parse, Render, ParseLines, RenderStart;
    var d := MaskedExample();
    MaskedIsProper();
    var f := d.files[0];
    var lines := f.hunks[0].lines;
    assert lines[..0] == [] && !ShownBefore(f.hunks, 1, 0);
    assert RowsOfHunk(f, 0, 0) == [Row("f", 1, "++x", "")] + RowsOfHunk(f, 0, 1);
    assert Masked(lines[0]) && !NoneMasked(lines) && !HunksReadable(f.hunks);
    ParsedFiles(d);
    RowsAtMost(Start(), RenderFiles(d.files));
    MaskedHasNoPlus();
  }

  lemma MaskedIsProper()
    ensures Proper(MaskedExample())
  {
    var f := MaskedExample().files[0];
    var lines := f.hunks[0].lines;
    assert lines[..0] == [];
    assert NewSide(lines) == ["++x"];
    assert f.text[0..1] == ["++x"];
  }

  lemma MaskedHasNoPlus()
    ensures PlusLines(RenderFiles(MaskedExample().files)) == 0
  {
    hide PlusLines, RenderStart, RenderPath;
    var f := MaskedExample().files[0];
    var h := f.hunks[0];
    var start, body := [RenderStart(h)], RenderLines(h.lines);
    MaskedIsProper();
    InertHasNoPlus(f.headers);
    PathIsNoPlus(f.path);
    StartIsNoPlus(h);
    PlusOne("+++x");
    NoPlus();
    assert RenderLine(h.lines[0]) == "+" + "++x" == "+++x";
    assert body == ["+++x"];
    PlusAppend(start, body);
    PlusAppend(f.headers, [RenderPath(f.path)]);
    PlusAppend(f.headers + [RenderPath(f.path)], start + body);
    assert f.hunks[1..] == [] && start + body + [] == start + body;
    assert RenderHunks(f.hunks) == start + body;
    assert MaskedExample().files[1..] == [] && RenderFile(f) + [] == RenderFile(f);
  }

  // ---------------------------------------------------------------------------
  // Lines that are not as git writes them
  // ---------------------------------------------------------------------------

  /** A path is read exactly when it is not empty and has no line end in it. */
  lemma PathIsRead(path: string)
    ensures PathOf("+++ b/" + path) ==
      if exists c :: c in path && (c == '\n' || c == '\r' || c as int == 0x2028 || c as int == 0x2029) then "" else path
  {
    var raw := "+++ b/" + path;
    assert StartsWith(raw, "+++ b/") && raw[6..] == path;
    assert forall i :: 6 <= i < |raw| ==> raw[i] == path[i - 6] && path[i - 6] in path;
    if c :| c in path && (c == '\n' || c == '\r' || c as int == 0x2028 || c as int == 0x2029) {
      var i :| 0 <= i < |path| && path[i] == c;
      assert raw[i + 6] == c;
    }
  }

  /** A file that comes up again keeps the lines remembered of it. */
  lemma RepeatedFileKeepsItsLines(p: Parser, path: string)
    requires ProperPath(path) && path in p.recent
    ensures Step(p, "+++ b/" + path) == p.(file := path)
  {
    hide HunkStart;
    PathIsRead(path);
    assert StartsWith("+++ b/" + path, "+++ ");
  }

  /** The header of a combined diff is passed over. */
  lemma CombinedHeaderIsIgnored(p: Parser, rest: string)
    ensures Step(p, "@@@" + rest) == p
  {
    var raw := "@@@" + rest;
    assert StartsWith(raw, "@@") && raw[2] == '@';
    assert !StartsWith(raw, "@@ -");
  }
}
