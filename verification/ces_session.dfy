/**
 The CES RPC server on one connection: a handshake that succeeds once, requests handed to handlers
 that settle in any order, and one reply for every message that calls for one.
 */
module CesSession {
  import opened Options
  import opened Text
  import opened CesFraming

  /** What a handshake may bring along. */
  datatype Grant = Grant(assistantApiKey: Option<string>, assistantId: Option<string>)

  /** What the handshake callback is told. */
  datatype Notice = Notice(sessionId: string, grant: Grant)

  /** What a line turns out to be. `Malformed` is no JSON or no transport message. */
  datatype Incoming =
    | Malformed
    | HandshakeRequest(version: string, sessionId: string, grant: Grant)
    | Rpc(id: string, name: string, isRequest: bool, payload: string)
    | Unexpected(kind: string)

  /** What a handler's promise, or a request schema, comes to. */
  datatype Result = Resolved(payload: string) | Rejected(message: string)

  datatype Body = Success(payload: string) | Failure(code: string, message: string)

  datatype Output =
    | Ack(sessionId: string, accepted: bool, reason: string)
    | Reply(id: string, name: string, body: Body)

  /** What the server is given: how lines parse, which methods it serves, how its handlers start. */
  datatype Config = Config(
    version: string,
    parse: string -> Incoming,
    serves: string -> bool,
    /** The request schema of a method: the validated payload, or what is wrong with it. */
    validate: (string, string) -> Result,
    /** The message of the exception the n-th handler call throws before it returns, if it does. */
    throws: nat -> Option<string>)

  datatype Call = Call(id: string, name: string, payload: string, settled: bool)

  datatype Session = Session(
    done: bool, sessionId: string, closed: bool, notices: seq<Notice>, calls: seq<Call>, output: seq<Output>)

  function Establish(s: Session, sessionId: string, grant: Grant): Session {
    s.(done := true, sessionId := sessionId, notices := s.notices + [Notice(sessionId, grant)])
  }

  function Send(s: Session, message: Output): Session {
    if s.closed then s else s.(output := s.output + [message])
  }

  function Handshake(cfg: Config, s: Session, version: string, sessionId: string, grant: Grant): Session {
    if s.done then Send(s, Ack(sessionId, false, "Session already established"))
    else if version == cfg.version then Send(Establish(s, sessionId, grant), Ack(sessionId, true, ""))
    else Send(s, Ack(sessionId, false, "Unsupported protocol version: " + version))
  }

  /** Start a handler. One that throws at once is settled by the time the next line is handled. */
  function Start(cfg: Config, s: Session, id: string, name: string, payload: string): Session {
    match cfg.throws(|s.calls|)
    case None => s.(calls := s.calls + [Call(id, name, payload, false)])
    case Some(message) =>
      Send(s.(calls := s.calls + [Call(id, name, payload, true)]),
           Reply(id, name, Failure("HANDLER_ERROR", message)))
  }

  function Dispatch(cfg: Config, s: Session, id: string, name: string, isRequest: bool, payload: string): Session {
    if !s.done then Send(s, Reply(id, name, Failure("HANDSHAKE_REQUIRED", "Handshake not completed")))
    else if !isRequest then s
    else if !cfg.serves(name) then
      Send(s, Reply(id, name, Failure("METHOD_NOT_FOUND", "Unknown method: " + name)))
    else
      match cfg.validate(name, payload)
      case Rejected(message) =>
        Send(s, Reply(id, name, Failure("INVALID_REQUEST", "Invalid payload for " + name + ": " + message)))
      case Resolved(valid) => Start(cfg, s, id, name, valid)
  }

  function HandleLine(cfg: Config, s: Session, line: string): Session {
    match cfg.parse(line)
    case Malformed => s
    case HandshakeRequest(version, sessionId, grant) => Handshake(cfg, s, version, sessionId, grant)
    case Rpc(id, name, isRequest, payload) => Dispatch(cfg, s, id, name, isRequest, payload)
    case Unexpected(_) => s
  }

  function HandleLines(cfg: Config, s: Session, lines: seq<string>): Session
    decreases |lines|
  {
    if lines == [] then s else HandleLines(cfg, HandleLine(cfg, s, lines[0]), lines[1..])
  }

  predicate Running(s: Session, call: nat) {
    call < |s.calls| && !s.calls[call].settled
  }

  /** The body of the reply when a handler resolves, or rejects. */
  function Outcome(result: Result): Body {
    match result
    case Resolved(payload) => Success(payload)
    case Rejected(message) => Failure("HANDLER_ERROR", message)
  }

  function Settle(s: Session, call: nat, result: Result): Session
    requires Running(s, call)
  {
    var c := s.calls[call];
    Send(s.(calls := s.calls[call := c.(settled := true)]), Reply(c.id, c.name, Outcome(result)))
  }

  datatype State = State(buffer: string, session: Session)

  function Receive(cfg: Config, s: State, chunk: string): State {
    if s.session.closed then s
    else State(Residue(s.buffer + chunk), HandleLines(cfg, s.session, Framed(s.buffer + chunk)))
  }

  class CesRpcServer {
    const cfg: Config
    var buffer: string
    var handshakeComplete: bool
    var sessionId: string
    var closed: bool
    /** The calls of the handshake callback, the handler calls begun, and the messages written. */
    var notices: seq<Notice>
    var calls: seq<Call>
    var output: seq<Output>

    ghost function Talk(): Session
      reads this
    {
      Session(handshakeComplete, sessionId, closed, notices, calls, output)
    }

    ghost function View(): State
      reads this
    {
      State(buffer, Talk())
    }

    constructor (cfg: Config)
      ensures this.cfg == cfg && View() == Fresh()
    {
      this.cfg := cfg;
      buffer, handshakeComplete, sessionId, closed := "", false, "", false;
      notices, calls, output := [], [], [];
    }

    method OnData(chunk: string)
      modifies this
      ensures View() == Receive(cfg, old(View()), chunk)
    {
      if closed {
        return;
      }
      buffer := buffer + chunk;
      ProcessBuffer();
    }

    method ProcessBuffer()
      modifies this
      ensures View() == State(Residue(old(buffer)), HandleLines(cfg, old(Talk()), Framed(old(buffer))))
    {
      hide Framed, Residue, HandleLine, Trim;
      var newline := IndexOf(buffer, '\n');
      while newline < |buffer|
        invariant newline == IndexOf(buffer, '\n')
        invariant Residue(buffer) == Residue(old(buffer))
        invariant HandleLines(cfg, Talk(), Framed(buffer)) == HandleLines(cfg, old(Talk()), Framed(old(buffer)))
        decreases |buffer|
      {
        var line := Trim(buffer[..newline]);
        FrameOneLine(buffer, newline);
        HandleOneMore(cfg, Talk(), buffer[..newline], Framed(buffer[newline + 1..]));
        buffer := buffer[newline + 1..];
        newline := IndexOf(buffer, '\n');
        if line != "" {
          OnLine(line);
        }
      }
      NothingToFrame(buffer);
    }

    method OnLine(line: string)
      modifies this`handshakeComplete, this`sessionId, this`notices, this`calls, this`output
      ensures Talk() == HandleLine(cfg, old(Talk()), line)
    {
      match cfg.parse(line)
      case Malformed =>
      case HandshakeRequest(version, id, grant) =>
        if handshakeComplete {
          SendMessage(Ack(id, false, "Session already established"));
        } else if version == cfg.version {
          handshakeComplete := true;
          sessionId := id;
          notices := notices + [Notice(id, grant)];
          SendMessage(Ack(id, true, ""));
        } else {
          SendMessage(Ack(id, false, "Unsupported protocol version: " + version));
        }
      case Rpc(id, name, isRequest, payload) => OnEnvelope(id, name, isRequest, payload);
      case Unexpected(_) =>
    }

    method OnEnvelope(id: string, name: string, isRequest: bool, payload: string)
      modifies this`calls, this`output
      ensures Talk() == Dispatch(cfg, old(Talk()), id, name, isRequest, payload)
    {
      if !handshakeComplete {
        SendMessage(Reply(id, name, Failure("HANDSHAKE_REQUIRED", "Handshake not completed")));
        return;
      }
      if !isRequest {
        return;
      }
      if !cfg.serves(name) {
        SendMessage(Reply(id, name, Failure("METHOD_NOT_FOUND", "Unknown method: " + name)));
        return;
      }
      var checked := cfg.validate(name, payload);
      if checked.Rejected? {
        var message := "Invalid payload for " + name + ": " + checked.message;
        SendMessage(Reply(id, name, Failure("INVALID_REQUEST", message)));
        return;
      }
      var thrown := cfg.throws(|calls|);
      calls := calls + [Call(id, name, checked.payload, thrown.Some?)];
      if thrown.Some? {
        SendMessage(Reply(id, name, Failure("HANDLER_ERROR", thrown.value)));
      }
    }

    /** The continuation of a handler call, run when the handler resolves or rejects. */
    method OnSettled(call: nat, result: Result)
      requires Running(Talk(), call)
      modifies this`calls, this`output
      ensures Talk() == Settle(old(Talk()), call, result)
    {
      var c := calls[call];
      calls := calls[call := c.(settled := true)];
      match result
      case Resolved(payload) => SendMessage(Reply(c.id, c.name, Success(payload)));
      case Rejected(message) => SendMessage(Reply(c.id, c.name, Failure("HANDLER_ERROR", message)));
    }

    method SendMessage(message: Output)
      modifies this`output
      ensures Talk() == Send(old(Talk()), message)
    {
      if !closed {
        output := output + [message];
      }
    }

    method Close()
      modifies this`closed
      ensures View() == Step(cfg, old(View()), Closed)
    {
      closed := true;
    }
  }

  lemma HandleOneMore(cfg: Config, s: Session, line: string, rest: seq<string>)
    ensures HandleLines(cfg, s, Messages([line]) + rest)
         == HandleLines(cfg, if Trim(line) == "" then s else HandleLine(cfg, s, Trim(line)), rest)
  {
    hide HandleLine, Trim;
    assert [line][1..] == [];
    if Trim(line) == "" {
      assert Messages([line]) + rest == rest;
    } else {
      assert Messages([line]) == [Trim(line)];
      assert ([Trim(line)] + rest)[1..] == rest;
    }
  }

  // ---------------------------------------------------------------------------
  // Runs
  // ---------------------------------------------------------------------------

  datatype Event = Data(chunk: string) | Settled(call: nat, result: Result) | Closed

  function Fresh(): State {
    State("", Session(false, "", false, [], [], []))
  }

  /** A settlement of anything but a running handler does not happen. */
  function Step(cfg: Config, s: State, e: Event): State {
    match e
    case Data(chunk) => Receive(cfg, s, chunk)
    case Settled(call, result) =>
      if Running(s.session, call) then s.(session := Settle(s.session, call, result)) else s
    case Closed => s.(session := s.session.(closed := true))
  }

  function After(cfg: Config, events: seq<Event>): State
    decreases |events|
  {
    if events == [] then Fresh()
    else Step(cfg, After(cfg, events[..|events| - 1]), events[|events| - 1])
  }

  /** The lines a run hands to `handleLine`. */
  function Handed(cfg: Config, events: seq<Event>): seq<string>
    decreases |events|
  {
    if events == [] then []
    else
      var before, e := events[..|events| - 1], events[|events| - 1];
      var s := After(cfg, before);
      Handed(cfg, before) + (if e.Data? && !s.session.closed then Framed(s.buffer + e.chunk) else [])
  }

  /** The characters that arrived. */
  function Arrived(events: seq<Event>): string {
    if events == [] then ""
    else
      var e := events[|events| - 1];
      Arrived(events[..|events| - 1]) + (if e.Data? then e.chunk else "")
  }

  lemma {:induction false} HandleAppend(cfg: Config, s: Session, a: seq<string>, b: seq<string>)
    ensures HandleLines(cfg, s, a + b) == HandleLines(cfg, HandleLines(cfg, s, a), b)
    decreases |a|
  {
    hide HandleLine;
    if a == [] {
      assert a + b == b;
    } else {
      assert (a + b)[1..] == a[1..] + b;
      HandleAppend(cfg, HandleLine(cfg, s, a[0]), a[1..], b);
    }
  }

  /** While the connection is open, the lines handled are those of all the text that arrived. */
  lemma {:induction false} OpenRunReadsItsText(cfg: Config, events: seq<Event>)
    requires !After(cfg, events).session.closed
    ensures Handed(cfg, events) == Framed(Arrived(events))
    ensures After(cfg, events).buffer == Residue(Arrived(events))
    decreases |events|
  {
    hide Framed, Residue, HandleLines;
    if events == [] {
      NothingToFrame("");
    } else {
      var before, e := events[..|events| - 1], events[|events| - 1];
      var s := After(cfg, before);
      if e.Data? {
        StillOpen(cfg, s, e.chunk);
      }
      OpenRunReadsItsText(cfg, before);
      if e.Data? {
        FrameAppend(Arrived(before), e.chunk);
      } else {
        assert Arrived(before) + "" == Arrived(before);
      }
    }
  }

  lemma StillOpen(cfg: Config, s: State, chunk: string)
    ensures Receive(cfg, s, chunk).session.closed == s.session.closed
  {
    hide Framed, Residue;
    LinesKeepOpen(cfg, s.session, Framed(s.buffer + chunk));
  }

  lemma {:induction false} LinesKeepOpen(cfg: Config, s: Session, lines: seq<string>)
    ensures HandleLines(cfg, s, lines).closed == s.closed
    decreases |lines|
  {
    if lines != [] {
      LinesKeepOpen(cfg, HandleLine(cfg, s, lines[0]), lines[1..]);
    }
  }
}
