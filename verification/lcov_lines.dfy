/** The lines of an lcov report: what the merge reads from one, and how it prints one. */
module LcovLines {
  import opened Options
  import opened Text

  datatype Line =
    | SF(sf: string)
    | DA(line: string, count: int)
    | FN(entry: string)
    | FNDA(name: string, calls: int)
    | BRDA(key: string, taken: Option<int>)  // None is the "-" of a branch never evaluated
    | Other

  /** A missing piece of a split line prints as "undefined". */
  function Part(parts: seq<string>, i: nat): string {
    if i < |parts| then parts[i] else "undefined"
  }

  function BranchKey(line: string, block: string, branch: string): string {
    line + "," + (block + "," + branch)
  }

  function ParseTaken(taken: string): Option<int> {
    if taken == "-" then None else Some(ParseIntOrZero(taken))
  }

  function ParseBranch(rest: string): Line {
    var parts := Split(rest, ',');
    BRDA(BranchKey(Part(parts, 0), Part(parts, 1), Part(parts, 2)), ParseTaken(Part(parts, 3)))
  }

  function ParseHits(rest: string): Line {
    var parts := Split(rest, ',');
    DA(parts[0], ParseIntOrZero(Part(parts, 1)))
  }

  function ParseCalls(rest: string): Line {
    FNDA(AfterComma(rest), ParseIntOrZero(Split(rest, ',')[0]))
  }

  /** What follows the first comma: slice(indexOf(",") + 1). */
  function AfterComma(s: string): string {
    var comma := IndexOf(s, ',');
    if comma == |s| then s else s[comma + 1..]
  }

  function ParseLine(raw: string): Line {
    if StartsWith(raw, "SF:") then SF(raw[3..])
    else if StartsWith(raw, "DA:") then ParseHits(raw[3..])
    else if StartsWith(raw, "FN:") then FN(raw[3..])
    else if StartsWith(raw, "FNDA:") then ParseCalls(raw[5..])
    else if StartsWith(raw, "BRDA:") then ParseBranch(raw[5..])
    else Other
  }

  function PrintTaken(taken: Option<int>): string {
    if taken.None? then "-" else Show(taken.value)
  }

  function PrintLine(line: Line): string
    requires !line.Other?
  {
    match line
    case SF(sf) => "SF:" + sf
    case DA(at, count) => "DA:" + (at + "," + Show(count))
    case FN(entry) => "FN:" + entry
    case FNDA(name, calls) => "FNDA:" + (Show(calls) + "," + name)
    case BRDA(key, taken) => "BRDA:" + (key + "," + PrintTaken(taken))
  }

  /** A branch key made of three pieces without a comma. */
  ghost predicate IsBranchKey(key: string) {
    exists a, b, c :: ',' !in a && ',' !in b && ',' !in c && key == BranchKey(a, b, c)
  }

  /** What every line read from a split text satisfies. */
  ghost predicate Readable(line: Line) {
    match line
    case SF(sf) => '\n' !in sf
    case DA(at, _) => '\n' !in at && ',' !in at
    case FN(entry) => '\n' !in entry
    case FNDA(name, _) => '\n' !in name
    case BRDA(key, _) => '\n' !in key && IsBranchKey(key)
    case Other => true
  }

  // ---------------------------------------------------------------------------
  // Reading a printed line
  // ---------------------------------------------------------------------------

  lemma ShowHasNo(n: int, c: char)
    requires !IsDigit(c) && c != '-'
    ensures c !in Show(n)
  {
  }

  lemma SplitTwo(a: string, b: string)
    requires ',' !in a && ',' !in b
    ensures Split(a + "," + b, ',') == [a, b]
  {
    SplitFirst(a, ',', b);
    SplitNone(b, ',');
  }

  lemma ParseHitsPrinted(at: string, count: int)
    requires ',' !in at
    ensures ParseHits(at + "," + Show(count)) == DA(at, count)
  {
    ShowHasNo(count, ',');
    SplitTwo(at, Show(count));
    ParseShownAlone(count);
  }

  lemma ParseCallsPrinted(name: string, calls: int)
    ensures ParseCalls(Show(calls) + "," + name) == FNDA(name, calls)
  {
    var c := Show(calls);
    ShowHasNo(calls, ',');
    SplitFirst(c, ',', name);
    ParseShownAlone(calls);
    IndexOfFirst(c, ',', name);
    assert (c + "," + name)[|c| + 1..] == name;
  }

  lemma ShowIsNotDash(n: int)
    ensures Show(n) != "-"
  {
    assert IsDigit(Show(n)[|Show(n)| - 1]);
  }

  lemma ParseTakenPrinted(taken: Option<int>)
    ensures ParseTaken(PrintTaken(taken)) == taken && ',' !in PrintTaken(taken)
  {
    if taken.Some? {
      ShowHasNo(taken.value, ',');
      ShowIsNotDash(taken.value);
      ParseShownAlone(taken.value);
    }
  }

  lemma SplitMore(a: string, rest: string, pieces: seq<string>)
    requires ',' !in a && Split(rest, ',') == pieces
    ensures Split(a + "," + rest, ',') == [a] + pieces
  {
    SplitFirst(a, ',', rest);
  }

  lemma ParseBranchPieces(rest: string, a: string, b: string, c: string, taken: Option<int>)
    requires Split(rest, ',') == [a] + ([b] + [c, PrintTaken(taken)])
    ensures ParseBranch(rest) == BRDA(BranchKey(a, b, c), taken)
  {
    ParseTakenPrinted(taken);
  }

  lemma ParseBranchPrinted(key: string, taken: Option<int>)
    requires IsBranchKey(key)
    ensures ParseBranch(key + "," + PrintTaken(taken)) == BRDA(key, taken)
  {
    var a, b, c :| ',' !in a && ',' !in b && ',' !in c && key == BranchKey(a, b, c);
    var d := PrintTaken(taken);
    ParseTakenPrinted(taken);
    SplitTwo(c, d);
    SplitMore(b, c + "," + d, [c, d]);
    SplitMore(a, b + "," + (c + "," + d), [b] + [c, d]);
    Reassociate(a, b, c, d);
    ParseBranchPieces(key + "," + d, a, b, c, taken);
  }

  lemma Reassociate(a: string, b: string, c: string, d: string)
    ensures BranchKey(a, b, c) + "," + d == a + "," + (b + "," + (c + "," + d))
  {
  }

  lemma Untag(tag: string, rest: string)
    ensures StartsWith(tag + rest, tag) && (tag + rest)[|tag|..] == rest
  {
  }

  /** No line carries two of the tags. */
  lemma Dispatch(raw: string)
    ensures StartsWith(raw, "DA:") ==> ParseLine(raw) == ParseHits(raw[3..])
    ensures StartsWith(raw, "FN:") ==> ParseLine(raw) == FN(raw[3..])
    ensures StartsWith(raw, "FNDA:") ==> ParseLine(raw) == ParseCalls(raw[5..])
    ensures StartsWith(raw, "BRDA:") ==> ParseLine(raw) == ParseBranch(raw[5..])
  {
  }

  lemma ParseTagged(tag: string, rest: string)
    requires tag in ["SF:", "DA:", "FN:", "FNDA:", "BRDA:"]
    ensures ParseLine(tag + rest)
         == if tag == "SF:" then SF(rest)
            else if tag == "DA:" then ParseHits(rest)
            else if tag == "FN:" then FN(rest)
            else if tag == "FNDA:" then ParseCalls(rest)
            else ParseBranch(rest)
  {
    Untag(tag, rest);
    Dispatch(tag + rest);
  }

  /** Reading a printed line gives the line back. */
  lemma ParsePrinted(line: Line)
    requires !line.Other? && Readable(line)
    ensures ParseLine(PrintLine(line)) == line
  {
    match line
    case SF(sf) => ParseTagged("SF:", sf);
    case DA(at, count) =>
      ParseTagged("DA:", at + "," + Show(count));
      ParseHitsPrinted(at, count);
    case FN(entry) => ParseTagged("FN:", entry);
    case FNDA(name, calls) =>
      ParseTagged("FNDA:", Show(calls) + "," + name);
      ParseCallsPrinted(name, calls);
    case BRDA(key, taken) =>
      ParseTagged("BRDA:", key + "," + PrintTaken(taken));
      ParseBranchPrinted(key, taken);
  }

  // ---------------------------------------------------------------------------
  // Printed lines stay on one line
  // ---------------------------------------------------------------------------

  lemma PrintedOnOneLine(line: Line)
    requires !line.Other? && Readable(line)
    ensures '\n' !in PrintLine(line)
  {
    match line
    case SF(_) =>
    case DA(_, count) => ShowHasNo(count, '\n');
    case FN(_) =>
    case FNDA(_, calls) => ShowHasNo(calls, '\n');
    case BRDA(_, taken) => if taken.Some? { ShowHasNo(taken.value, '\n'); }
  }

  lemma {:induction false} SplitKeepsOut(s: string, c: char, d: char)
    requires d !in s
    ensures Clean(Split(s, c), d)
    decreases |s|
  {
    var i := IndexOf(s, c);
    if i < |s| {
      SplitKeepsOut(s[i + 1..], c, d);
    }
  }

  lemma PartsReadable(rest: string)
    requires '\n' !in rest
    ensures forall i :: ',' !in Part(Split(rest, ','), i) && '\n' !in Part(Split(rest, ','), i)
  {
    SplitKeepsOut(rest, ',', '\n');
    SplitPartsAreClean(rest, ',');
  }

  lemma ParsedIsReadable(raw: string)
    requires '\n' !in raw
    ensures Readable(ParseLine(raw))
  {
    if StartsWith(raw, "SF:") {
    } else if StartsWith(raw, "DA:") {
      PartsReadable(raw[3..]);
      assert ParseLine(raw).line == Part(Split(raw[3..], ','), 0);
    } else if StartsWith(raw, "BRDA:") {
      PartsReadable(raw[5..]);
      var parts := Split(raw[5..], ',');
      BranchKeyReadable(Part(parts, 0), Part(parts, 1), Part(parts, 2));
    }
  }

  lemma BranchKeyReadable(a: string, b: string, c: string)
    requires ',' !in a && ',' !in b && ',' !in c && '\n' !in a && '\n' !in b && '\n' !in c
    ensures IsBranchKey(BranchKey(a, b, c)) && '\n' !in BranchKey(a, b, c)
  {
  }
}
