/** Everything the CES server says in a run, told from what it receives and how its handlers end. */
module CesTranscript {
  import opened CesFraming
  import opened CesSession
  import opened CesGuarantees

  /** What a message before or after the handshake is answered with, and a handler that throws at once. */
  function Said(cfg: Config, done: bool, calls: nat, line: string): seq<Output> {
    var m := cfg.parse(line);
    if m.HandshakeRequest? && done then [Ack(m.sessionId, false, "Session already established")]
    else if m.HandshakeRequest? && m.version == cfg.version then [Ack(m.sessionId, true, "")]
    else if m.HandshakeRequest? then [Ack(m.sessionId, false, "Unsupported protocol version: " + m.version)]
    else if !m.Rpc? then []
    else if !done then [Reply(m.id, m.name, Failure("HANDSHAKE_REQUIRED", "Handshake not completed"))]
    else if !m.isRequest then []
    else if !cfg.serves(m.name) then [Reply(m.id, m.name, Failure("METHOD_NOT_FOUND", "Unknown method: " + m.name))]
    else if cfg.validate(m.name, m.payload).Rejected? then
      var problem := cfg.validate(m.name, m.payload).message;
      [Reply(m.id, m.name, Failure("INVALID_REQUEST", "Invalid payload for " + m.name + ": " + problem))]
    else if cfg.throws(calls).Some? then
      [Reply(m.id, m.name, Failure("HANDLER_ERROR", cfg.throws(calls).value))]
    else []
  }

  /** What is said while lines are handled; `calls` handlers have been called before. */
  function SaidOver(cfg: Config, done: bool, calls: nat, lines: seq<string>): seq<Output>
    decreases |lines|
  {
    if lines == [] then []
    else
      Said(cfg, done, calls, lines[0])
      + SaidOver(cfg, done || Establishes(cfg, lines[0]),
                 calls + |ValidRequests(cfg, done, [lines[0]])|, lines[1..])
  }

  /** The lines received while the connection was open. */
  function Heard(events: seq<Event>): seq<string> {
    Framed(Arrived(events))
  }

  /** The reply to a task whose handler has ended. */
  function Ended(task: Task, result: Result): Output {
    match result
    case Resolved(payload) => Reply(task.id, task.name, Success(payload))
    case Rejected(message) => Reply(task.id, task.name, Failure("HANDLER_ERROR", message))
  }

  /** Everything said in a run: nothing once it is closed. */
  function Transcript(cfg: Config, events: seq<Event>): seq<Output>
    decreases |events|
  {
    if events == [] then []
    else
      var before, e := events[..|events| - 1], events[|events| - 1];
      var tasks := ValidRequests(cfg, false, Heard(before));
      Transcript(cfg, before) +
      if Closed in before then []
      else
        match e
        case Data(chunk) =>
          SaidOver(cfg, Established(cfg, false, Heard(before)), |tasks|, Framed(Residue(Arrived(before)) + chunk))
        case Settled(call, result) =>
          if Running(After(cfg, before).session, call) && call < |tasks| then [Ended(tasks[call], result)] else []
        case Closed => []
  }

  lemma LineSays(cfg: Config, s: Session, line: string)
    requires !s.closed
    ensures HandleLine(cfg, s, line).output == s.output + Said(cfg, s.done, |s.calls|, line)
    ensures |HandleLine(cfg, s, line).calls| == |s.calls| + |ValidRequests(cfg, s.done, [line])|
  {
    assert s.output + [] == s.output;
    assert [line][1..] == [];
  }

  lemma {:induction false} LinesSay(cfg: Config, s: Session, lines: seq<string>)
    requires !s.closed
    ensures HandleLines(cfg, s, lines).output == s.output + SaidOver(cfg, s.done, |s.calls|, lines)
    decreases |lines|
  {
    hide HandleLine, Said, Establishes, ValidRequests, Established;
    if lines != [] {
      var t := HandleLine(cfg, s, lines[0]);
      LineSays(cfg, s, lines[0]);
      LineBalances(cfg, s, lines[0], "", "");
      LinesKeepOpen(cfg, s, lines[..1]);
      assert HandleLines(cfg, s, lines[..1]) == t;
      LinesSay(cfg, t, lines[1..]);
      Regrouped(s.output, Said(cfg, s.done, |s.calls|, lines[0]), SaidOver(cfg, t.done, |t.calls|, lines[1..]));
    } else {
      assert s.output + [] == s.output;
    }
  }

  lemma Regrouped<T>(a: seq<T>, b: seq<T>, c: seq<T>)
    ensures a + b + c == a + (b + c)
  {
  }

  /** A run is closed once it has been told to close, and not before. */
  lemma {:induction false} ClosedWhenTold(cfg: Config, events: seq<Event>)
    ensures After(cfg, events).session.closed <==> Closed in events
    decreases |events|
  {
    hide HandleLines, Framed, Residue, Settle;
    if events != [] {
      var before, e := events[..|events| - 1], events[|events| - 1];
      assert events == before + [e];
      ClosedWhenTold(cfg, before);
      match e
      case Data(chunk) => StillOpen(cfg, After(cfg, before), chunk);
      case Settled(call, result) =>
        if Running(After(cfg, before).session, call) {
          SettleKeeps(After(cfg, before).session, call, result);
        }
      case Closed =>
    }
  }

  /** While open, the state is that of what was heard. */
  lemma OpenState(cfg: Config, events: seq<Event>)
    requires !After(cfg, events).session.closed
    ensures var s := After(cfg, events);
      && s.session.done == Established(cfg, false, Heard(events))
      && Tasks(s.session.calls) == ValidRequests(cfg, false, Heard(events))
      && |s.session.calls| == |ValidRequests(cfg, false, Heard(events))|
      && s.buffer == Residue(Arrived(events))
  {
    hide After, Established, ValidRequests, Framed, Residue, Arrived;
    OpenRunReadsItsText(cfg, events);
    EveryRequestOneReply(cfg, events, "", "");
    HandlersServeValidRequests(cfg, events);
  }

  lemma SettleSays(s: Session, call: nat, result: Result)
    requires Running(s, call) && !s.closed
    ensures call < |Tasks(s.calls)| && Settle(s, call, result).output == s.output + [Ended(Tasks(s.calls)[call], result)]
  {
  }

  lemma ClosedSaysNothing(cfg: Config, s: State, e: Event)
    requires s.session.closed
    ensures Step(cfg, s, e).session.output == s.session.output
  {
  }

  /**
   The messages written in every run are exactly the transcript: a handler that resolves sends
   what it resolved to, one that rejects or throws sends its error, each refusal carries its own
   code, each handshake its acknowledgement, all in the order of the events, and nothing else.
   */
  lemma {:induction false} SaysExactlyTheTranscript(cfg: Config, events: seq<Event>)
    ensures After(cfg, events).session.output == Transcript(cfg, events)
    decreases |events|
  {
    hide HandleLines, Framed, Residue, SaidOver, Established, ValidRequests, Tasks, Ended, Arrived, Settle;
    if events != [] {
      var before, e := events[..|events| - 1], events[|events| - 1];
      var s := After(cfg, before);
      SaysExactlyTheTranscript(cfg, before);
      ClosedWhenTold(cfg, before);
      assert s.session.output + [] == s.session.output;
      if s.session.closed {
        ClosedSaysNothing(cfg, s, e);
      } else {
        OpenState(cfg, before);
        match e
        case Data(chunk) => LinesSay(cfg, s.session, Framed(s.buffer + chunk));
        case Settled(call, result) =>
          if Running(s.session, call) {
            SettleSays(s.session, call, result);
          }
        case Closed =>
      }
    }
  }

  // ---------------------------------------------------------------------------
  // The handshake callback
  // ---------------------------------------------------------------------------

  /** What the callback is told while lines are handled: the first handshake that is accepted. */
  function NoticesOf(cfg: Config, done: bool, lines: seq<string>): seq<Notice>
    decreases |lines|
  {
    if lines == [] || done then []
    else
      var m := cfg.parse(lines[0]);
      if m.HandshakeRequest? && m.version == cfg.version then [Notice(m.sessionId, m.grant)]
      else NoticesOf(cfg, false, lines[1..])
  }

  lemma LineTells(cfg: Config, s: Session, line: string)
    ensures HandleLine(cfg, s, line).notices == s.notices + NoticesOf(cfg, s.done, [line])
    ensures HandleLine(cfg, s, line).done == (s.done || Establishes(cfg, line))
  {
    assert s.notices + [] == s.notices;
    assert [line][1..] == [];
  }

  lemma {:induction false} LinesTell(cfg: Config, s: Session, lines: seq<string>)
    ensures HandleLines(cfg, s, lines).notices == s.notices + NoticesOf(cfg, s.done, lines)
    decreases |lines|
  {
    hide HandleLine;
    if lines != [] {
      LineTells(cfg, s, lines[0]);
      LinesTell(cfg, HandleLine(cfg, s, lines[0]), lines[1..]);
      assert [lines[0]][1..] == [];
    } else {
      assert s.notices + [] == s.notices;
    }
  }

  lemma {:induction false} NoticesAppend(cfg: Config, done: bool, a: seq<string>, b: seq<string>)
    ensures NoticesOf(cfg, done, a + b) == NoticesOf(cfg, done, a) + NoticesOf(cfg, Established(cfg, done, a), b)
    decreases |a|
  {
    if a == [] {
      assert a + b == b;
    } else {
      assert (a + b)[1..] == a[1..] + b;
      NoticesAppend(cfg, done || Establishes(cfg, a[0]), a[1..], b);
    }
  }

  /** In every run the callback is told of the first accepted handshake among the lines, and of no other. */
  lemma {:induction false} TellsTheFirstHandshake(cfg: Config, events: seq<Event>)
    ensures After(cfg, events).session.notices == NoticesOf(cfg, false, Handed(cfg, events))
    decreases |events|
  {
    hide HandleLines, Framed, Residue, NoticesOf, Established, Settle;
    if events == [] {
      NothingTold(cfg);
    } else {
      var before, e := events[..|events| - 1], events[|events| - 1];
      var s := After(cfg, before);
      TellsTheFirstHandshake(cfg, before);
      EveryRequestOneReply(cfg, before, "", "");
      assert Handed(cfg, before) + [] == Handed(cfg, before);
      match e
      case Data(chunk) =>
        if !s.session.closed {
          LinesTell(cfg, s.session, Framed(s.buffer + chunk));
          NoticesAppend(cfg, false, Handed(cfg, before), Framed(s.buffer + chunk));
        }
      case Settled(call, result) =>
        if Running(s.session, call) {
          SettleTellsNothing(s.session, call, result);
        }
      case Closed =>
    }
  }

  lemma NothingTold(cfg: Config)
    ensures NoticesOf(cfg, false, []) == []
  {
  }

  lemma SettleTellsNothing(s: Session, call: nat, result: Result)
    requires Running(s, call)
    ensures Settle(s, call, result).notices == s.notices
  {
  }
}
