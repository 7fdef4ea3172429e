/** Newline framing: how the CES server cuts its input into lines, whatever chunks it arrives in. */
module CesFraming {
  import opened Text

  function TrimEnd(s: string): string {
    if s != "" && IsSpace(s[|s| - 1]) then TrimEnd(s[..|s| - 1]) else s
  }

  function Trim(s: string): string {
    TrimEnd(TrimStart(s))
  }

  ghost predicate AllSpace(s: string) {
    forall i :: 0 <= i < |s| ==> IsSpace(s[i])
  }

  /** Trimming takes off exactly the white space at both ends. */
  lemma TrimTakesOffSpace(s: string) returns (before: string, after: string)
    ensures s == before + Trim(s) + after && AllSpace(before) && AllSpace(after)
    ensures Trim(s) != "" ==> !IsSpace(Trim(s)[0]) && !IsSpace(Trim(s)[|Trim(s)| - 1])
  {
    hide TrimStart, TrimEnd;
    before := TrimStartTakes(s);
    after := TrimEndTakes(TrimStart(s));
    var t := Trim(s);
    if t != "" {
      assert TrimStart(s)[0] == t[0];
    }
    assert before + (t + after) == before + t + after;
  }

  lemma {:induction false} TrimStartTakes(s: string) returns (before: string)
    ensures s == before + TrimStart(s) && AllSpace(before)
  {
    if s != "" && IsSpace(s[0]) {
      var more := TrimStartTakes(s[1..]);
      before := [s[0]] + more;
      assert s == [s[0]] + s[1..];
    } else {
      before := "";
    }
  }

  lemma {:induction false} TrimEndTakes(s: string) returns (after: string)
    ensures s == TrimEnd(s) + after && AllSpace(after)
    ensures TrimEnd(s) != "" ==> !IsSpace(TrimEnd(s)[|TrimEnd(s)| - 1])
  {
    if s != "" && IsSpace(s[|s| - 1]) {
      var more := TrimEndTakes(s[..|s| - 1]);
      after := more + [s[|s| - 1]];
      assert s == s[..|s| - 1] + [s[|s| - 1]];
    } else {
      after := "";
    }
  }

  /** The lines to handle: each complete line trimmed, the empty ones left out. */
  function Messages(lines: seq<string>): seq<string> {
    if lines == [] then []
    else
      var rest := Messages(lines[1..]);
      if Trim(lines[0]) == "" then rest else [Trim(lines[0])] + rest
  }

  /** The text before the last newline, as lines to handle. */
  function Framed(text: string): seq<string> {
    var pieces := Split(text, '\n');
    Messages(pieces[..|pieces| - 1])
  }

  /** The text after the last newline. */
  function Residue(text: string): string {
    var pieces := Split(text, '\n');
    pieces[|pieces| - 1]
  }

  function Joined(chunks: seq<string>): string {
    if chunks == [] then "" else chunks[0] + Joined(chunks[1..])
  }

  /** What is handled when the chunks arrive one by one after `buffer`. */
  function Received(buffer: string, chunks: seq<string>): seq<string>
    decreases |chunks|
  {
    if chunks == [] then []
    else Framed(buffer + chunks[0]) + Received(Residue(buffer + chunks[0]), chunks[1..])
  }

  function Left(buffer: string, chunks: seq<string>): string
    decreases |chunks|
  {
    if chunks == [] then buffer else Left(Residue(buffer + chunks[0]), chunks[1..])
  }

  /** Text added at the end goes on with the last piece. */
  lemma {:induction false} SplitAppend(a: string, b: string, c: char)
    ensures var pieces := Split(a, c);
      Split(a + b, c) == pieces[..|pieces| - 1] + Split(pieces[|pieces| - 1] + b, c)
    decreases |a|
  {
    hide Split;
    var i := IndexOf(a, c);
    if i < |a| {
      var p, rest := a[..i], a[i + 1..];
      assert a == p + [c] + rest;
      SplitAppend(rest, b, c);
      SplitBoth(p, rest, b, c);
      ShiftLast(p, Split(rest, c), b, Split(rest + b, c), c);
    } else {
      SplitNone(a, c);
    }
  }

  lemma SplitBoth(p: string, rest: string, b: string, c: char)
    requires c !in p
    ensures Split(p + [c] + rest, c) == [p] + Split(rest, c)
    ensures Split(p + [c] + rest + b, c) == [p] + Split(rest + b, c)
  {
    hide Split;
    SplitFirst(p, c, rest);
    SplitFirst(p, c, rest + b);
    assert p + [c] + rest + b == p + [c] + (rest + b);
  }

  lemma ShiftLast(p: string, tail: seq<string>, b: string, longer: seq<string>, c: char)
    requires |tail| >= 1 && longer == tail[..|tail| - 1] + Split(tail[|tail| - 1] + b, c)
    ensures var pieces := [p] + tail;
      [p] + longer == pieces[..|pieces| - 1] + Split(pieces[|pieces| - 1] + b, c)
  {
    hide Split;
    var pieces := [p] + tail;
    assert pieces[..|pieces| - 1] == [p] + tail[..|tail| - 1];
  }

  lemma {:induction false} MessagesAppend(a: seq<string>, b: seq<string>)
    ensures Messages(a + b) == Messages(a) + Messages(b)
  {
    hide Trim;
    if a == [] {
      assert a + b == b;
    } else {
      assert (a + b)[1..] == a[1..] + b;
      MessagesAppend(a[1..], b);
    }
  }

  lemma FrameAppend(a: string, b: string)
    ensures Framed(a + b) == Framed(a) + Framed(Residue(a) + b)
    ensures Residue(a + b) == Residue(Residue(a) + b)
  {
    hide Split, Messages;
    SplitAppend(a, b, '\n');
    var pieces, more := Split(a, '\n'), Split(Residue(a) + b, '\n');
    var init := pieces[..|pieces| - 1];
    assert (init + more)[..|init + more| - 1] == init + more[..|more| - 1];
    MessagesAppend(init, more[..|more| - 1]);
  }

  /** The residue has no newline, so framing it alone gives nothing. */
  lemma {:induction false} ResidueIsOpen(text: string)
    ensures '\n' !in Residue(text)
  {
    SplitPartsAreClean(text, '\n');
  }

  lemma NothingToFrame(text: string)
    requires '\n' !in text
    ensures Framed(text) == [] && Residue(text) == text
  {
    SplitNone(text, '\n');
  }

  /**
   Chunking invariance: however the stream is cut, the lines handled are those of the whole
   text, and what is left in the buffer is the text after its last newline.
   */
  lemma {:induction false} ChunksDoNotMatter(buffer: string, chunks: seq<string>)
    requires '\n' !in buffer
    ensures Received(buffer, chunks) == Framed(buffer + Joined(chunks))
    ensures Left(buffer, chunks) == Residue(buffer + Joined(chunks))
    decreases |chunks|
  {
    hide Framed, Residue;
    if chunks == [] {
      assert buffer + "" == buffer;
      NothingToFrame(buffer);
    } else {
      var next := Residue(buffer + chunks[0]);
      ResidueIsOpen(buffer + chunks[0]);
      ChunksDoNotMatter(next, chunks[1..]);
      FrameAppend(buffer + chunks[0], Joined(chunks[1..]));
      assert buffer + Joined(chunks) == buffer + chunks[0] + Joined(chunks[1..]);
    }
  }

  /** Any two ways to cut the same text into chunks are handled alike. */
  lemma SameTextSameLines(chunks: seq<string>, others: seq<string>)
    requires Joined(chunks) == Joined(others)
    ensures Received("", chunks) == Received("", others) && Left("", chunks) == Left("", others)
  {
    ChunksDoNotMatter("", chunks);
    ChunksDoNotMatter("", others);
  }

  /** One newline more: what the server's loop takes off the buffer in one round. */
  lemma FrameOneLine(buffer: string, i: nat)
    requires i < |buffer| && buffer[i] == '\n' && '\n' !in buffer[..i]
    ensures Framed(buffer) == Messages([buffer[..i]]) + Framed(buffer[i + 1..])
    ensures Residue(buffer) == Residue(buffer[i + 1..])
  {
    hide Split, Messages, Trim;
    var line, rest := buffer[..i], buffer[i + 1..];
    var pieces := Split(rest, '\n');
    assert buffer == line + ['\n'] + rest;
    SplitFirst(line, '\n', rest);
    assert ([line] + pieces)[..|pieces|] == [line] + pieces[..|pieces| - 1];
    MessagesAppend([line], pieces[..|pieces| - 1]);
  }
}
