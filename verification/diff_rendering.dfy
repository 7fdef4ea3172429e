/** Unified diffs as git writes them, and exactly when the parser reads them back. */
module DiffRendering {
  import opened Options
  import opened Text
  import opened UnifiedDiff

  datatype Line = Context(text: string) | Added(text: string) | Removed(text: string) | NoFinalNewline

  datatype Hunk = Hunk(
    oldStart: nat, oldCount: Option<nat>, newStart: nat, newCount: Option<nat>, section: string, lines: seq<Line>)

  /** One file of a diff: the lines before `+++`, its path (none once deleted), its new text, its hunks. */
  datatype FileDiff = FileDiff(headers: seq<string>, path: Option<string>, text: seq<string>, hunks: seq<Hunk>)

  datatype Diff = Diff(files: seq<FileDiff>, trailer: seq<string>)

  // ---------------------------------------------------------------------------
  // Rendering
  // ---------------------------------------------------------------------------

  function RenderLine(line: Line): string {
    match line
    case Context(text) => " " + text
    case Added(text) => "+" + text
    case Removed(text) => "-" + text
    case NoFinalNewline => "\\ No newline at end of file"
  }

  function RenderCount(count: Option<nat>): string {
    match count
    case None => ""
    case Some(n) => "," + ShowNat(n)
  }

  function RenderRange(start: nat, count: Option<nat>, rest: string): string {
    ShowNat(start) + (RenderCount(count) + rest)
  }

  function RenderStart(h: Hunk): string {
    "@@ -" + RenderRange(h.oldStart, h.oldCount, " +" + RenderRange(h.newStart, h.newCount, " @@" + h.section))
  }

  function RenderLines(lines: seq<Line>): (raws: seq<string>)
    ensures |raws| == |lines|
  {
    seq(|lines|, i requires 0 <= i < |lines| => RenderLine(lines[i]))
  }

  function RenderHunks(hunks: seq<Hunk>): seq<string> {
    if hunks == [] then [] else [RenderStart(hunks[0])] + RenderLines(hunks[0].lines) + RenderHunks(hunks[1..])
  }

  function RenderPath(path: Option<string>): string {
    if path.Some? then "+++ b/" + path.value else "+++ /dev/null"
  }

  function RenderFile(f: FileDiff): seq<string> {
    f.headers + [RenderPath(f.path)] + RenderHunks(f.hunks)
  }

  function RenderFiles(files: seq<FileDiff>): seq<string> {
    if files == [] then [] else RenderFile(files[0]) + RenderFiles(files[1..])
  }

  function Render(d: Diff): string {
    Terminate(RenderFiles(d.files) + d.trailer, '\n')
  }

  // ---------------------------------------------------------------------------
  // What makes a diff one of a new text
  // ---------------------------------------------------------------------------

  /** The lines of the new text that diff lines show. */
  function NewSide(lines: seq<Line>): seq<string> {
    if lines == [] then []
    else
      var last := lines[|lines| - 1];
      NewSide(lines[..|lines| - 1]) + (if last.Context? || last.Added? then [last.text] else [])
  }

  predicate Shows(h: Hunk, n: int) {
    h.newStart <= n < h.newStart + |NewSide(h.lines)|
  }

  /** Line `n` of a text, counted from 1. */
  function LineOf(text: seq<string>, n: int): string {
    if 1 <= n <= |text| then text[n - 1] else ""
  }

  /** The hunk shows a stretch of the text, where it says. */
  predicate Agrees(h: Hunk, text: seq<string>) {
    var side := NewSide(h.lines);
    side == [] || (1 <= h.newStart && h.newStart - 1 + |side| <= |text|
                   && side == text[h.newStart - 1..h.newStart - 1 + |side|])
  }

  /** Hunks follow one another in the new text. */
  predicate InOrder(hunks: seq<Hunk>) {
    forall i, j :: 0 <= i < j < |hunks| && NewSide(hunks[i].lines) != [] && NewSide(hunks[j].lines) != [] ==>
      hunks[i].newStart + |NewSide(hunks[i].lines)| <= hunks[j].newStart
  }

  predicate ProperHunk(h: Hunk) {
    '\n' !in h.section && forall k :: 0 <= k < |h.lines| ==> '\n' !in RenderLine(h.lines[k])
  }

  /** A line the parser passes over wherever it stands. */
  predicate Inert(raw: string) {
    '\n' !in raw && (raw == "" || (raw[0] != '+' && raw[0] != '@' && raw[0] != ' '))
  }

  predicate AllInert(raws: seq<string>) {
    forall i :: 0 <= i < |raws| ==> Inert(raws[i])
  }

  predicate ProperPath(path: string) {
    path != "" && forall i :: 0 <= i < |path| ==> !IsLineEnd(path[i])
  }

  predicate ProperFile(f: FileDiff) {
    && AllInert(f.headers)
    && (forall j :: 0 <= j < |f.hunks| ==> ProperHunk(f.hunks[j]))
    && (if f.path.Some? then
          ProperPath(f.path.value) && InOrder(f.hunks) && forall j :: 0 <= j < |f.hunks| ==> Agrees(f.hunks[j], f.text)
        else
          forall j :: 0 <= j < |f.hunks| ==> NewSide(f.hunks[j].lines) == [])
  }

  /** No path has two sections. */
  predicate DistinctPaths(files: seq<FileDiff>) {
    forall i, j :: 0 <= i < j < |files| && files[i].path.Some? ==> files[i].path != files[j].path
  }

  predicate Proper(d: Diff) {
    && DistinctPaths(d.files)
    && AllInert(d.trailer)
    && forall i :: 0 <= i < |d.files| ==> ProperFile(d.files[i])
  }

  // ---------------------------------------------------------------------------
  // What is to be found
  // ---------------------------------------------------------------------------

  predicate ShownBefore(hunks: seq<Hunk>, j: nat, n: int)
    requires j <= |hunks|
  {
    exists i :: 0 <= i < j && Shows(hunks[i], n)
  }

  /** The number in the new text that the diff gives line `k` of hunk `j`. */
  function NumberOf(h: Hunk, k: nat): nat
    requires k <= |h.lines|
  {
    h.newStart + |NewSide(h.lines[..k])|
  }

  /** Line `n` of the new text, as an added line with the line before it if any hunk shows that. */
  function AddedRow(f: FileDiff, n: int): Row
    requires f.path.Some?
  {
    Row(f.path.value, n, LineOf(f.text, n), if ShownBefore(f.hunks, |f.hunks|, n - 1) then LineOf(f.text, n - 1) else "")
  }

  function RowsOfHunk(f: FileDiff, j: nat, k: nat): seq<Row>
    requires f.path.Some? && j < |f.hunks| && k <= |f.hunks[j].lines|
    decreases |f.hunks[j].lines| - k
  {
    var h := f.hunks[j];
    if k == |h.lines| then []
    else (if h.lines[k].Added? then [AddedRow(f, NumberOf(h, k))] else []) + RowsOfHunk(f, j, k + 1)
  }

  function RowsOfHunks(f: FileDiff, j: nat): seq<Row>
    requires f.path.Some? && j <= |f.hunks|
    decreases |f.hunks| - j
  {
    if j == |f.hunks| then [] else RowsOfHunk(f, j, 0) + RowsOfHunks(f, j + 1)
  }

  function RowsOfFile(f: FileDiff): seq<Row> {
    if f.path.Some? then RowsOfHunks(f, 0) else []
  }

  function RowsOf(files: seq<FileDiff>): seq<Row> {
    if files == [] then [] else RowsOfFile(files[0]) + RowsOf(files[1..])
  }

  // ---------------------------------------------------------------------------
  // Where the parser fails
  // ---------------------------------------------------------------------------

  /** Rendered, the line starts with `+++`, which the parser does not take for an added line. */
  predicate Masked(line: Line) {
    line.Added? && StartsWith(line.text, "++")
  }

  predicate NoneMasked(lines: seq<Line>) {
    forall k :: 0 <= k < |lines| ==> !Masked(lines[k])
  }

  predicate HunksReadable(hunks: seq<Hunk>) {
    forall j :: 0 <= j < |hunks| ==> NoneMasked(hunks[j].lines)
  }

  predicate Readable(files: seq<FileDiff>) {
    forall i :: 0 <= i < |files| ==> HunksReadable(files[i].hunks)
  }

  // ---------------------------------------------------------------------------
  // Hunk headers
  // ---------------------------------------------------------------------------

  lemma SkipRendered(count: Option<nat>, rest: string)
    requires rest != "" && rest[0] == ' '
    ensures SkipCount(RenderCount(count) + rest) == rest
    ensures var s := RenderCount(count) + rest; s != "" && !IsDigit(s[0])
  {
    if count.Some? {
      var digits := ShowNat(count.value);
      var s := RenderCount(count) + rest;
      assert s[1..] == digits + rest;
      DigitCountOf(digits, rest);
      assert (digits + rest)[|digits|..] == rest;
    } else {
      assert RenderCount(count) + rest == rest;
    }
  }

  lemma RangeRead(start: nat, count: Option<nat>, rest: string)
    requires rest != "" && rest[0] == ' '
    ensures var s := RenderRange(start, count, rest);
      var k := DigitCount(s);
      k > 0 && SkipCount(s[k..]) == rest && NatValue(s[..k]) == start
  {
    hide SkipCount, RenderCount;
    var digits, more := ShowNat(start), RenderCount(count) + rest;
    SkipRendered(count, rest);
    DigitCountOf(digits, more);
    NatValueOfShow(start);
    assert (digits + more)[|digits|..] == more && (digits + more)[..|digits|] == digits;
  }

  lemma StartRead(h: Hunk)
    ensures HunkStart(RenderStart(h)) == Some(h.newStart)
    ensures StartsWith(RenderStart(h), "@@")
  {
    hide SkipCount, RenderRange;
    var end := " @@" + h.section;
    var newRange := " +" + RenderRange(h.newStart, h.newCount, end);
    var oldRange := RenderRange(h.oldStart, h.oldCount, newRange);
    RangeRead(h.oldStart, h.oldCount, newRange);
    RangeRead(h.newStart, h.newCount, end);
    assert RenderStart(h)[4..] == oldRange;
    assert newRange[2..] == RenderRange(h.newStart, h.newCount, end);
  }

  // ---------------------------------------------------------------------------
  // Reading one file
  // ---------------------------------------------------------------------------

  /** Line `n` is shown by an earlier hunk, or by the first `k` lines of hunk `j`. */
  predicate ShownSoFar(hunks: seq<Hunk>, j: nat, k: nat, n: int)
    requires j < |hunks| && k <= |hunks[j].lines|
  {
    ShownBefore(hunks, j, n) || hunks[j].newStart <= n < NumberOf(hunks[j], k)
  }

  /** The parser is in file `f` and remembers of its text what hunks before the `j`-th show. */
  ghost predicate AtHunk(p: Parser, f: FileDiff, j: nat, paths: set<string>)
    requires j <= |f.hunks|
  {
    && f.path == Some(p.file) && p.file != "" && p.recent.Keys == paths && p.file in paths
    && (forall n :: n in p.recent[p.file] <==> ShownBefore(f.hunks, j, n))
    && (forall n :: n in p.recent[p.file] ==> p.recent[p.file][n] == LineOf(f.text, n))
  }

  ghost predicate AtLine(p: Parser, f: FileDiff, j: nat, k: nat, paths: set<string>)
    requires j < |f.hunks| && k <= |f.hunks[j].lines|
  {
    && f.path == Some(p.file) && p.file != "" && p.recent.Keys == paths && p.file in paths
    && p.line == NumberOf(f.hunks[j], k)
    && (forall n :: n in p.recent[p.file] <==> ShownSoFar(f.hunks, j, k, n))
    && (forall n :: n in p.recent[p.file] ==> p.recent[p.file][n] == LineOf(f.text, n))
  }

  lemma NumberNext(h: Hunk, k: nat)
    requires k < |h.lines|
    ensures NumberOf(h, k + 1)
         == NumberOf(h, k) + (if h.lines[k].Context? || h.lines[k].Added? then 1 else 0)
  {
    assert h.lines[..k + 1][..k] == h.lines[..k];
  }

  lemma {:induction false} NewSideGrows(lines: seq<Line>, k: nat)
    requires k <= |lines|
    ensures NewSide(lines[..k]) <= NewSide(lines)
    decreases |lines|
  {
    if k == |lines| {
      assert lines[..k] == lines;
    } else {
      NewSideGrows(lines[..|lines| - 1], k);
      assert lines[..|lines| - 1][..k] == lines[..k];
    }
  }

  /** The line that diff line `k` shows is the text's line of that number. */
  lemma ShownLineIsTrue(f: FileDiff, j: nat, k: nat)
    requires j < |f.hunks| && k < |f.hunks[j].lines| && Agrees(f.hunks[j], f.text)
    requires var line := f.hunks[j].lines[k]; line.Context? || line.Added?
    ensures var h := f.hunks[j];
      h.lines[k].text == LineOf(f.text, NumberOf(h, k)) && Shows(h, NumberOf(h, k))
  {
    var h := f.hunks[j];
    NumberNext(h, k);
    NewSideGrows(h.lines, k + 1);
    var before := NewSide(h.lines[..k]);
    assert h.lines[..k + 1][..k] == h.lines[..k];
    assert NewSide(h.lines)[|before|] == h.lines[k].text;
  }

  /** Whether the line before an added line is shown at all is settled when the added line is reached. */
  lemma ShownByNow(f: FileDiff, j: nat, k: nat)
    requires j < |f.hunks| && k < |f.hunks[j].lines| && InOrder(f.hunks)
    requires Shows(f.hunks[j], NumberOf(f.hunks[j], k))
    ensures var n := NumberOf(f.hunks[j], k) - 1;
      ShownBefore(f.hunks, |f.hunks|, n) <==> ShownSoFar(f.hunks, j, k, n)
  {
    hide NewSide;
    var h, n := f.hunks[j], NumberOf(f.hunks[j], k) - 1;
    if ShownBefore(f.hunks, |f.hunks|, n) {
      var i :| 0 <= i < |f.hunks| && Shows(f.hunks[i], n);
      assert NewSide(f.hunks[i].lines) != [];
    }
    if ShownBefore(f.hunks, j, n) {
      var i :| 0 <= i < j && Shows(f.hunks[i], n);
    } else if h.newStart <= n < NumberOf(h, k) {
      assert Shows(f.hunks[j], n);
    }
  }

  lemma PreviousIsTrue(p: Parser, f: FileDiff, j: nat, k: nat, paths: set<string>)
    requires j < |f.hunks| && k < |f.hunks[j].lines| && AtLine(p, f, j, k, paths)
    requires ProperFile(f) && f.hunks[j].lines[k].Added?
    ensures Row(p.file, p.line, f.hunks[j].lines[k].text, Previous(p)) == AddedRow(f, p.line)
  {
    hide ShownBefore, ShownSoFar, NewSide, InOrder, AllInert, ProperHunk;
    ShownLineIsTrue(f, j, k);
    ShownByNow(f, j, k);
  }

  lemma NoteLine(p: Parser, f: FileDiff, j: nat, k: nat, paths: set<string>)
    requires j < |f.hunks| && k < |f.hunks[j].lines| && AtLine(p, f, j, k, paths)
    requires ProperFile(f)
    requires var line := f.hunks[j].lines[k]; line.Context? || line.Added?
    ensures AtLine(Note(p, f.hunks[j].lines[k].text), f, j, k + 1, paths)
  {
    hide ShownBefore, NewSide, InOrder, AllInert, ProperHunk, NumberOf;
    ShownLineIsTrue(f, j, k);
    NumberNext(f.hunks[j], k);
    StartsFirst(f.hunks[j], k);
  }

  lemma StartsFirst(h: Hunk, k: nat)
    requires k <= |h.lines|
    ensures h.newStart <= NumberOf(h, k)
  {
  }

  lemma SkipLine(p: Parser, f: FileDiff, j: nat, k: nat, paths: set<string>)
    requires j < |f.hunks| && k < |f.hunks[j].lines| && AtLine(p, f, j, k, paths)
    requires var line := f.hunks[j].lines[k]; !line.Context? && !line.Added?
    ensures AtLine(p, f, j, k + 1, paths)
  {
    hide ShownBefore, NewSide, NumberOf;
    NumberNext(f.hunks[j], k);
  }

  lemma AddingKeepsPlace(p: Parser, f: FileDiff, j: nat, k: nat, paths: set<string>, rows: seq<Row>)
    requires j < |f.hunks| && k <= |f.hunks[j].lines| && AtLine(p, f, j, k, paths)
    ensures AtLine(p.(added := rows), f, j, k, paths)
  {
  }

  lemma PlusesInFront(text: string)
    ensures StartsWith("+" + text, "+++") <==> StartsWith(text, "++")
    ensures StartsWith("+" + text, "+++ ") ==> StartsWith(text, "++")
  {
    var raw := "+" + text;
    if |text| >= 2 {
      assert raw[1] == text[0] && raw[2] == text[1];
    }
  }

  /** How the parser takes one rendered line. */
  lemma StepLine(p: Parser, line: Line)
    requires p.file != "" && !Masked(line)
    ensures Step(p, RenderLine(line)) ==
      match line
      case Context(text) => Note(p, text)
      case Added(text) => Note(p.(added := p.added + [Row(p.file, p.line, text, Previous(p))]), text)
      case Removed(_) => p
      case NoFinalNewline => p
  {
    hide Note, Previous, HunkStart, PathOf;
    var raw := RenderLine(line);
    match line
    case Context(text) => assert raw[1..] == text;
    case Added(text) =>
      assert raw[1..] == text;
      PlusesInFront(text);
    case Removed(_) =>
    case NoFinalNewline =>
  }

  lemma {:induction false} ReadLines(p: Parser, f: FileDiff, j: nat, k: nat, paths: set<string>)
    requires ProperFile(f) && j < |f.hunks| && k <= |f.hunks[j].lines|
    requires AtLine(p, f, j, k, paths) && NoneMasked(f.hunks[j].lines)
    ensures var q := ParseLines(p, RenderLines(f.hunks[j].lines)[k..]);
      AtLine(q, f, j, |f.hunks[j].lines|, paths) && q.added == p.added + RowsOfHunk(f, j, k)
    decreases |f.hunks[j].lines| - k
  {
    hide AtLine, ProperFile, Step, RenderLine, AddedRow, Masked;
    var lines := f.hunks[j].lines;
    var raws := RenderLines(lines);
    if k < |lines| {
      assert raws[k..][1..] == raws[k + 1..] && raws[k..][0] == RenderLine(lines[k]);
      ReadLine(p, f, j, k, paths);
      ReadLines(Step(p, RenderLine(lines[k])), f, j, k + 1, paths);
    }
  }

  lemma ReadLine(p: Parser, f: FileDiff, j: nat, k: nat, paths: set<string>)
    requires ProperFile(f) && j < |f.hunks| && k < |f.hunks[j].lines|
    requires AtLine(p, f, j, k, paths) && !Masked(f.hunks[j].lines[k])
    ensures var q := Step(p, RenderLine(f.hunks[j].lines[k]));
      && AtLine(q, f, j, k + 1, paths)
      && q.added == p.added + if f.hunks[j].lines[k].Added? then [AddedRow(f, NumberOf(f.hunks[j], k))] else []
  {
    hide ProperFile, Step, RenderLine, ShownSoFar, AddedRow, NumberOf, Previous;
    var line := f.hunks[j].lines[k];
    StepLine(p, line);
    match line
    case Context(text) => NoteLine(p, f, j, k, paths);
    case Added(text) =>
      PreviousIsTrue(p, f, j, k, paths);
      var rows := p.added + [Row(p.file, p.line, text, Previous(p))];
      AddingKeepsPlace(p, f, j, k, paths, rows);
      NoteLine(p.(added := rows), f, j, k, paths);
    case _ => SkipLine(p, f, j, k, paths);
  }

  lemma EnterHunk(p: Parser, f: FileDiff, j: nat, paths: set<string>)
    requires j < |f.hunks| && AtHunk(p, f, j, paths)
    ensures AtLine(Step(p, RenderStart(f.hunks[j])), f, j, 0, paths)
    ensures Step(p, RenderStart(f.hunks[j])).added == p.added
  {
    hide ShownBefore, HunkStart, RenderStart;
    StartRead(f.hunks[j]);
    assert f.hunks[j].lines[..0] == [];
  }

  lemma LeaveHunk(p: Parser, f: FileDiff, j: nat, paths: set<string>)
    requires j < |f.hunks| && AtLine(p, f, j, |f.hunks[j].lines|, paths)
    ensures AtHunk(p, f, j + 1, paths)
  {
    hide NewSide;
    var h := f.hunks[j];
    assert h.lines[..|h.lines|] == h.lines;
    forall n
      ensures ShownBefore(f.hunks, j + 1, n) <==> ShownSoFar(f.hunks, j, |h.lines|, n)
    {
      if Shows(h, n) {
        assert ShownBefore(f.hunks, j + 1, n);
      }
    }
  }

  lemma {:induction false} ParseAppend(p: Parser, a: seq<string>, b: seq<string>)
    ensures ParseLines(p, a + b) == ParseLines(ParseLines(p, a), b)
    decreases |a|
  {
    hide Step;
    if a == [] {
      assert a + b == b;
    } else {
      assert (a + b)[1..] == a[1..] + b;
      ParseAppend(Step(p, a[0]), a[1..], b);
    }
  }

  lemma ParseOne(p: Parser, raw: string)
    ensures ParseLines(p, [raw]) == Step(p, raw)
  {
    hide Step;
    assert [raw][1..] == [];
  }

  lemma {:induction false} ReadHunks(p: Parser, f: FileDiff, j: nat, paths: set<string>)
    requires ProperFile(f) && j <= |f.hunks| && AtHunk(p, f, j, paths) && HunksReadable(f.hunks)
    ensures var q := ParseLines(p, RenderHunks(f.hunks[j..]));
      q.recent.Keys == paths && q.added == p.added + RowsOfHunks(f, j)
    decreases |f.hunks| - j
  {
    hide ProperFile, Step, RenderStart, RenderLines;
    if j < |f.hunks| {
      var h, more := f.hunks[j], RenderHunks(f.hunks[j + 1..]);
      var start, body := RenderStart(h), RenderLines(h.lines);
      assert f.hunks[j..][1..] == f.hunks[j + 1..];
      ReadHunk(p, f, j, paths, more);
      var r := ParseLines(Step(p, start), body);
      ReadHunks(r, f, j + 1, paths);
    }
  }

  lemma ReadHunk(p: Parser, f: FileDiff, j: nat, paths: set<string>, more: seq<string>)
    requires ProperFile(f) && j < |f.hunks| && AtHunk(p, f, j, paths) && NoneMasked(f.hunks[j].lines)
    ensures var start, body := RenderStart(f.hunks[j]), RenderLines(f.hunks[j].lines);
      var r := ParseLines(Step(p, start), body);
      && AtHunk(r, f, j + 1, paths)
      && r.added == p.added + RowsOfHunk(f, j, 0)
      && ParseLines(p, [start] + body + more) == ParseLines(r, more)
  {
    hide ProperFile, Step, RenderStart, RenderLines, AtHunk, AtLine, ParseLines;
    var start, body := RenderStart(f.hunks[j]), RenderLines(f.hunks[j].lines);
    EnterHunk(p, f, j, paths);
    ReadLines(Step(p, start), f, j, 0, paths);
    assert body[0..] == body;
    LeaveHunk(ParseLines(Step(p, start), body), f, j, paths);
    ParseAppend(p, [start] + body, more);
    ParseAppend(p, [start], body);
    ParseOne(p, start);
  }

  // ---------------------------------------------------------------------------
  // Reading the whole diff
  // ---------------------------------------------------------------------------

  lemma {:induction false} SkipInert(p: Parser, raws: seq<string>)
    requires AllInert(raws)
    ensures ParseLines(p, raws) == p
  {
    if raws != [] {
      hide HunkStart, PathOf;
      assert Step(p, raws[0]) == p;
      SkipInert(p, raws[1..]);
    }
  }

  /** The lines of a deleted file add nothing. */
  lemma {:induction false} SkipDeleted(p: Parser, lines: seq<Line>)
    requires p.file == "" && NoneMasked(lines)
    ensures ParseLines(p, RenderLines(lines)) == p
    decreases |lines|
  {
    if lines != [] {
      StepDeleted(p, lines[0]);
      assert RenderLines(lines)[1..] == RenderLines(lines[1..]);
      SkipDeleted(p, lines[1..]);
    }
  }

  lemma StepDeleted(p: Parser, line: Line)
    requires p.file == "" && !Masked(line)
    ensures Step(p, RenderLine(line)) == p
  {
    hide HunkStart, PathOf;
    if line.Added? {
      PlusesInFront(line.text);
    }
  }

  lemma {:induction false} SkipDeletedHunks(p: Parser, hunks: seq<Hunk>)
    requires p.file == "" && HunksReadable(hunks)
    ensures var q := ParseLines(p, RenderHunks(hunks)); q.added == p.added && q.recent == p.recent
    decreases |hunks|
  {
    hide Step, RenderStart, RenderLines, NoneMasked;
    if hunks != [] {
      var start, body, more := RenderStart(hunks[0]), RenderLines(hunks[0].lines), RenderHunks(hunks[1..]);
      EnterDeletedHunk(p, hunks[0]);
      SkipDeleted(Step(p, start), hunks[0].lines);
      ParseAppend(p, [start] + body, more);
      ParseAppend(p, [start], body);
      ParseOne(p, start);
      SkipDeletedHunks(Step(p, start), hunks[1..]);
    }
  }

  lemma EnterDeletedHunk(p: Parser, h: Hunk)
    requires p.file == ""
    ensures var q := Step(p, RenderStart(h)); q.file == "" && q.added == p.added && q.recent == p.recent
  {
    hide HunkStart, RenderStart;
    StartRead(h);
  }

  function PathSet(path: Option<string>): set<string> {
    if path.Some? then {path.value} else {}
  }

  lemma EnterFile(p: Parser, f: FileDiff)
    requires ProperFile(f) && (f.path.Some? ==> f.path.value !in p.recent)
    ensures var q := Step(p, RenderPath(f.path));
      && q.added == p.added
      && if f.path.Some? then AtHunk(q, f, 0, p.recent.Keys + {f.path.value})
         else q.file == "" && q.recent == p.recent
  {
    hide AllInert, ProperHunk, InOrder, Agrees;
    var raw := RenderPath(f.path);
    assert StartsWith(raw, "+++ ");
    if f.path.Some? {
      var path := f.path.value;
      assert raw[6..] == path;
      assert forall i :: 6 <= i < |raw| ==> raw[i] == path[i - 6];
      assert PathOf(raw) == path;
    } else {
      assert raw[4] == '/';
      assert !StartsWith(raw, "+++ b/");
    }
  }

  lemma ReadFile(p: Parser, f: FileDiff)
    requires ProperFile(f) && HunksReadable(f.hunks) && (f.path.Some? ==> f.path.value !in p.recent)
    ensures var q := ParseLines(p, RenderFile(f));
      q.added == p.added + RowsOfFile(f) && q.recent.Keys == p.recent.Keys + PathSet(f.path)
  {
    hide Step, RenderPath, RenderHunks, AtHunk, ParseLines, HunksReadable;
    var name := RenderPath(f.path);
    var q := Step(p, name);
    HeadersAreInert(f);
    SkipInert(p, f.headers);
    ParseAppend(p, f.headers + [name], RenderHunks(f.hunks));
    ParseAppend(p, f.headers, [name]);
    ParseOne(p, name);
    EnterFile(p, f);
    assert f.hunks[0..] == f.hunks;
    if f.path.Some? {
      ReadHunks(q, f, 0, p.recent.Keys + {f.path.value});
    } else {
      SkipDeletedHunks(q, f.hunks);
    }
  }

  lemma HeadersAreInert(f: FileDiff)
    requires ProperFile(f)
    ensures AllInert(f.headers)
  {
  }

  lemma {:induction false} ReadFiles(p: Parser, files: seq<FileDiff>)
    requires forall i :: 0 <= i < |files| ==> ProperFile(files[i])
    requires Readable(files) && DistinctPaths(files)
    requires forall i :: 0 <= i < |files| && files[i].path.Some? ==> files[i].path.value !in p.recent
    ensures ParseLines(p, RenderFiles(files)).added == p.added + RowsOf(files)
    decreases |files|
  {
    hide ProperFile, RenderFile, HunksReadable, RowsOfFile, Step;
    if files != [] {
      ReadFile(p, files[0]);
      ParseAppend(p, RenderFile(files[0]), RenderFiles(files[1..]));
      ReadFiles(ParseLines(p, RenderFile(files[0])), files[1..]);
    }
  }
}
