/** The diff parser that finds the lines a change adds, and how a unified diff is written. */
module UnifiedDiff {
  import opened Options
  import opened Text

  /** An added line, its number in the new file, and the line before it, if the diff shows it. */
  datatype Row = Row(file: string, line: int, content: string, previous: string)

  datatype Parser = Parser(file: string, line: int, recent: map<string, map<int, string>>, added: seq<Row>)

  /** The characters `.` does not match. */
  predicate IsLineEnd(c: char) {
    c == '\n' || c == '\r' || c as int == 0x2028 || c as int == 0x2029
  }

  /** The path a `+++` line names; empty when it is not of the form `+++ b/path`. */
  function PathOf(raw: string): string {
    if StartsWith(raw, "+++ b/") && forall i :: 6 <= i < |raw| ==> !IsLineEnd(raw[i]) then raw[6..] else ""
  }

  /** What follows an optional comma and number. */
  function SkipCount(s: string): string {
    if s != "" && s[0] == ',' && DigitCount(s[1..]) > 0 then s[1..][DigitCount(s[1..])..] else s
  }

  /** Where the hunk starts in the new file, if the line is a proper hunk header. */
  function HunkStart(raw: string): Option<nat> {
    if !StartsWith(raw, "@@ -") then None
    else
      var a := raw[4..];
      var b := SkipCount(a[DigitCount(a)..]);
      if DigitCount(a) == 0 || !StartsWith(b, " +") then None
      else
        var c := b[2..];
        var k := DigitCount(c);
        if k == 0 || !StartsWith(SkipCount(c[k..]), " @@") then None else Some(NatValue(c[..k]))
  }

  function Noted(p: Parser): map<int, string> {
    if p.file in p.recent then p.recent[p.file] else map[]
  }

  function Note(p: Parser, content: string): Parser {
    p.(recent := p.recent[p.file := Noted(p)[p.line := content]], line := p.line + 1)
  }

  function Previous(p: Parser): string {
    if p.line - 1 in Noted(p) then Noted(p)[p.line - 1] else ""
  }

  function Step(p: Parser, raw: string): Parser {
    if StartsWith(raw, "+++ ") then
      var file := PathOf(raw);
      p.(file := file, recent := if file == "" || file in p.recent then p.recent else p.recent[file := map[]])
    else if StartsWith(raw, "@@") then
      var start := HunkStart(raw);
      if start.Some? then p.(line := start.value) else p
    else if p.file == "" then p
    else if StartsWith(raw, "+") && !StartsWith(raw, "+++") then
      Note(p.(added := p.added + [Row(p.file, p.line, raw[1..], Previous(p))]), raw[1..])
    else if StartsWith(raw, "-") && !StartsWith(raw, "---") then p
    else if StartsWith(raw, " ") then Note(p, raw[1..])
    else p
  }

  function ParseLines(p: Parser, lines: seq<string>): Parser
    decreases |lines|
  {
    if lines == [] then p else ParseLines(Step(p, lines[0]), lines[1..])
  }

  function Start(): Parser {
    Parser("", 0, map[], [])
  }

  function Parse(diff: string): seq<Row> {
    ParseLines(Start(), Split(diff, '\n')).added
  }

  method ParseUnifiedDiff(diff: string) returns (added: seq<Row>)
    ensures added == Parse(diff)
  {
    hide Split, HunkStart, PathOf;
    added := [];
    var currentFile, currentNewLine := "", 0;
    var recent: map<string, map<int, string>> := map[];
    var lines := Split(diff, '\n');
    for i := 0 to |lines|
      invariant ParseLines(Parser(currentFile, currentNewLine, recent, added), lines[i..])
             == ParseLines(Start(), lines)
    {
      var raw := lines[i];
      ghost var p := Parser(currentFile, currentNewLine, recent, added);
      assert lines[i..][1..] == lines[i + 1..];
      if StartsWith(raw, "+++ ") {
        currentFile := PathOf(raw);
        if currentFile != "" && currentFile !in recent {
          recent := recent[currentFile := map[]];
        }
      } else if StartsWith(raw, "@@") {
        var start := HunkStart(raw);
        if start.Some? {
          currentNewLine := start.value;
        }
      } else if currentFile != "" {
        var noted := if currentFile in recent then recent[currentFile] else map[];
        if StartsWith(raw, "+") && !StartsWith(raw, "+++") {
          var content := raw[1..];
          var previousContent := if currentNewLine - 1 in noted then noted[currentNewLine - 1] else "";
          recent := recent[currentFile := noted[currentNewLine := content]];
          added := added + [Row(currentFile, currentNewLine, content, previousContent)];
          currentNewLine := currentNewLine + 1;
        } else if StartsWith(raw, "-") && !StartsWith(raw, "---") {
        } else if StartsWith(raw, " ") {
          recent := recent[currentFile := noted[currentNewLine := raw[1..]]];
          currentNewLine := currentNewLine + 1;
        }
      }
      assert Parser(currentFile, currentNewLine, recent, added) == Step(p, raw);
    }
  }
}
