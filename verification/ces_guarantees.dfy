/** What the CES server guarantees in every run, however its input is cut and its handlers settle. */
module CesGuarantees {
  import opened CesFraming
  import opened CesSession
  import opened Utf8

  // ---------------------------------------------------------------------------
  // One handshake, and nothing served before it
  // ---------------------------------------------------------------------------

  predicate Accepting(m: Output) {
    m.Ack? && m.accepted
  }

  /** How many handshakes the messages accept. */
  function Accepted(output: seq<Output>): nat {
    if output == [] then 0
    else Accepted(output[..|output| - 1]) + (if Accepting(output[|output| - 1]) then 1 else 0)
  }

  /** A reply that says more than that the handshake is missing. */
  predicate Served(m: Output) {
    m.Reply? && m.body != Failure("HANDSHAKE_REQUIRED", "Handshake not completed")
  }

  ghost predicate ServedAfterwards(output: seq<Output>) {
    forall i :: 0 <= i < |output| && Served(output[i]) ==> Accepted(output[..i]) == 1
  }

  ghost predicate AcceptedAs(output: seq<Output>, sessionId: string) {
    forall i :: 0 <= i < |output| && Accepting(output[i]) ==> output[i].sessionId == sessionId
  }

  /** The handshake callback has been told of the session, once, if there is one. */
  predicate Told(s: Session) {
    if s.done then |s.notices| == 1 && s.notices[0].sessionId == s.sessionId else s.notices == []
  }

  ghost predicate Sound(s: Session) {
    && Accepted(s.output) == (if s.done then 1 else 0)
    && (s.calls != [] ==> s.done)
    && ServedAfterwards(s.output)
    && (s.done ==> AcceptedAs(s.output, s.sessionId))
    && Told(s)
  }

  lemma AcceptedMore(output: seq<Output>, m: Output)
    ensures Accepted(output + [m]) == Accepted(output) + (if Accepting(m) then 1 else 0)
    ensures ServedAfterwards(output) && (Served(m) ==> Accepted(output) == 1) ==> ServedAfterwards(output + [m])
  {
    var longer := output + [m];
    assert longer[..|longer| - 1] == output;
    if ServedAfterwards(output) && (Served(m) ==> Accepted(output) == 1) {
      forall i | 0 <= i < |longer| && Served(longer[i])
        ensures Accepted(longer[..i]) == 1
      {
        assert longer[..i] == output[..i];
        assert i == |output| ==> output[..i] == output;
      }
    }
  }

  lemma {:induction false} NoneAccepted(output: seq<Output>, i: nat)
    requires Accepted(output) == 0 && i < |output|
    ensures !Accepting(output[i])
    decreases |output|
  {
    if i < |output| - 1 {
      NoneAccepted(output[..|output| - 1], i);
    }
  }

  /** One more message, of any kind but an acceptance. */
  lemma SendIsSound(s: Session, m: Output)
    requires Sound(s) && !Accepting(m) && (Served(m) ==> s.done)
    ensures Sound(Send(s, m))
  {
    hide Accepted, ServedAfterwards, Served;
    AcceptedMore(s.output, m);
  }

  lemma AcceptIsSound(s: Session, sessionId: string, grant: Grant)
    requires Sound(s) && !s.done && !s.closed
    ensures Sound(Send(Establish(s, sessionId, grant), Ack(sessionId, true, "")))
  {
    hide Accepted, ServedAfterwards;
    var m := Ack(sessionId, true, "");
    AcceptedMore(s.output, m);
    forall i | 0 <= i < |s.output| ensures !Accepting(s.output[i]) {
      NoneAccepted(s.output, i);
    }
    forall i | 0 <= i < |s.output + [m]| && Accepting((s.output + [m])[i])
      ensures (s.output + [m])[i].sessionId == sessionId
    {
      assert i == |s.output|;
    }
  }

  lemma LineIsSound(cfg: Config, s: Session, line: string)
    requires Sound(s) && !s.closed
    ensures Sound(HandleLine(cfg, s, line)) && !HandleLine(cfg, s, line).closed
    ensures s.done ==> HandleLine(cfg, s, line).done && HandleLine(cfg, s, line).sessionId == s.sessionId
  {
    hide Sound;
    match cfg.parse(line)
    case HandshakeRequest(version, id, grant) =>
      if !s.done && version == cfg.version {
        NotDoneYet(s);
        AcceptIsSound(s, id, grant);
      } else {
        SendIsSound(s, Ack(id, false, "Session already established"));
        SendIsSound(s, Ack(id, false, "Unsupported protocol version: " + version));
      }
    case Rpc(id, name, isRequest, payload) => DispatchIsSound(cfg, s, id, name, isRequest, payload);
    case _ =>
  }

  lemma NotDoneYet(s: Session)
    requires Sound(s) && !s.done
    ensures s.calls == []
  {
  }

  lemma DispatchIsSound(cfg: Config, s: Session, id: string, name: string, isRequest: bool, payload: string)
    requires Sound(s)
    ensures Sound(Dispatch(cfg, s, id, name, isRequest, payload))
  {
    hide Sound;
    if !s.done {
      SendIsSound(s, Reply(id, name, Failure("HANDSHAKE_REQUIRED", "Handshake not completed")));
    } else if isRequest {
      if !cfg.serves(name) {
        SendIsSound(s, Reply(id, name, Failure("METHOD_NOT_FOUND", "Unknown method: " + name)));
      } else {
        match cfg.validate(name, payload)
        case Rejected(message) =>
          SendIsSound(s, Reply(id, name, Failure("INVALID_REQUEST", "Invalid payload for " + name + ": " + message)));
        case Resolved(valid) => StartIsSound(cfg, s, id, name, valid);
      }
    }
  }

  lemma CallsAreSound(s: Session, calls: seq<Call>)
    requires Sound(s) && s.done
    ensures Sound(s.(calls := calls))
  {
  }

  lemma StartIsSound(cfg: Config, s: Session, id: string, name: string, payload: string)
    requires Sound(s) && s.done
    ensures Sound(Start(cfg, s, id, name, payload))
  {
    hide Sound;
    match cfg.throws(|s.calls|)
    case None => CallsAreSound(s, s.calls + [Call(id, name, payload, false)]);
    case Some(message) =>
      CallsAreSound(s, s.calls + [Call(id, name, payload, true)]);
      SendIsSound(s.(calls := s.calls + [Call(id, name, payload, true)]),
                  Reply(id, name, Failure("HANDLER_ERROR", message)));
  }

  lemma SettleIsSound(s: Session, call: nat, result: Result)
    requires Sound(s) && Running(s, call)
    ensures Sound(Settle(s, call, result))
  {
    hide Accepted, ServedAfterwards;
    var c := s.calls[call];
    SendIsSound(s.(calls := s.calls[call := c.(settled := true)]), Reply(c.id, c.name, Outcome(result)));
  }

  lemma {:induction false} LinesAreSound(cfg: Config, s: Session, lines: seq<string>)
    requires Sound(s) && !s.closed
    ensures Sound(HandleLines(cfg, s, lines)) && !HandleLines(cfg, s, lines).closed
    ensures s.done ==> HandleLines(cfg, s, lines).done && HandleLines(cfg, s, lines).sessionId == s.sessionId
    decreases |lines|
  {
    hide Sound, HandleLine;
    if lines != [] {
      LineIsSound(cfg, s, lines[0]);
      LinesAreSound(cfg, HandleLine(cfg, s, lines[0]), lines[1..]);
    }
  }

  lemma StepIsSound(cfg: Config, s: State, e: Event)
    requires Sound(s.session)
    ensures Sound(Step(cfg, s, e).session)
    ensures s.session.done ==>
      Step(cfg, s, e).session.done && Step(cfg, s, e).session.sessionId == s.session.sessionId
  {
    hide HandleLines, Framed, Residue;
    match e
    case Data(chunk) =>
      if !s.session.closed {
        LinesAreSound(cfg, s.session, Framed(s.buffer + chunk));
      }
    case Settled(call, result) =>
      if Running(s.session, call) {
        SettleIsSound(s.session, call, result);
      }
    case Closed =>
  }

  /**
   In every run: as many handshakes are accepted as the session is established times, which is
   at most one; no handler is started before, and nothing is served before; the acceptance
   carries the session's id, and the handshake callback is told of that session once.
   */
  lemma {:induction false} AlwaysSound(cfg: Config, events: seq<Event>)
    ensures Sound(After(cfg, events).session)
    decreases |events|
  {
    hide Step;
    if events == [] {
      assert After(cfg, events) == Fresh();
    } else {
      hide Sound;
      AlwaysSound(cfg, events[..|events| - 1]);
      StepIsSound(cfg, After(cfg, events[..|events| - 1]), events[|events| - 1]);
    }
  }

  /** Once a session is established its id never changes. */
  lemma {:induction false} SessionIdIsFixed(cfg: Config, events: seq<Event>, more: seq<Event>)
    requires After(cfg, events).session.done
    ensures After(cfg, events + more).session.done
    ensures After(cfg, events + more).session.sessionId == After(cfg, events).session.sessionId
    decreases |more|
  {
    hide Step;
    if more == [] {
      assert events + more == events;
    } else {
      var all, m := events + more, |more| - 1;
      SessionIdIsFixed(cfg, events, more[..m]);
      assert all[..|all| - 1] == events + more[..m];
      AlwaysSound(cfg, events + more[..m]);
      StepIsSound(cfg, After(cfg, events + more[..m]), all[|all| - 1]);
    }
  }

  // ---------------------------------------------------------------------------
  // One reply for each message that calls for one
  // ---------------------------------------------------------------------------

  predicate Answers(m: Output, id: string, name: string) {
    m.Reply? && m.id == id && m.name == name
  }

  function Replies(output: seq<Output>, id: string, name: string): nat {
    if output == [] then 0
    else Replies(output[..|output| - 1], id, name) + (if Answers(output[|output| - 1], id, name) then 1 else 0)
  }

  /** The handler calls still running for the id and method. */
  function Pending(calls: seq<Call>, id: string, name: string): nat {
    if calls == [] then 0
    else
      var c := calls[|calls| - 1];
      Pending(calls[..|calls| - 1], id, name) + (if c.id == id && c.name == name && !c.settled then 1 else 0)
  }

  predicate Establishes(cfg: Config, line: string) {
    cfg.parse(line).HandshakeRequest? && cfg.parse(line).version == cfg.version
  }

  /** The line calls for a reply: it is a request, or it came before the handshake. */
  predicate CallsFor(cfg: Config, done: bool, line: string, id: string, name: string) {
    var m := cfg.parse(line);
    m.Rpc? && m.id == id && m.name == name && (m.isRequest || !done)
  }

  function Demands(cfg: Config, done: bool, lines: seq<string>, id: string, name: string): nat
    decreases |lines|
  {
    if lines == [] then 0
    else
      (if CallsFor(cfg, done, lines[0], id, name) then 1 else 0)
      + Demands(cfg, done || Establishes(cfg, lines[0]), lines[1..], id, name)
  }

  function Established(cfg: Config, done: bool, lines: seq<string>): bool
    decreases |lines|
  {
    if lines == [] then done else Established(cfg, done || Establishes(cfg, lines[0]), lines[1..])
  }

  function Ledger(s: Session, id: string, name: string): nat {
    Replies(s.output, id, name) + Pending(s.calls, id, name)
  }

  lemma SendAddsReply(s: Session, m: Output, id: string, name: string)
    ensures Ledger(Send(s, m), id, name)
         == Ledger(s, id, name) + (if Answers(m, id, name) && !s.closed then 1 else 0)
  {
    assert (s.output + [m])[..|s.output|] == s.output;
  }

  lemma CallAdds(s: Session, c: Call, id: string, name: string)
    ensures Ledger(s.(calls := s.calls + [c]), id, name)
         == Ledger(s, id, name) + (if c.id == id && c.name == name && !c.settled then 1 else 0)
  {
    assert (s.calls + [c])[..|s.calls|] == s.calls;
  }

  lemma LineBalances(cfg: Config, s: Session, line: string, id: string, name: string)
    requires !s.closed
    ensures Ledger(HandleLine(cfg, s, line), id, name)
         == Ledger(s, id, name) + (if CallsFor(cfg, s.done, line, id, name) then 1 else 0)
    ensures HandleLine(cfg, s, line).done == (s.done || Establishes(cfg, line))
  {
    hide Ledger;
    match cfg.parse(line)
    case HandshakeRequest(version, sid, grant) =>
      SendAddsReply(s, Ack(sid, false, "Session already established"), id, name);
      SendAddsReply(s, Ack(sid, false, "Unsupported protocol version: " + version), id, name);
      SendAddsReply(Establish(s, sid, grant), Ack(sid, true, ""), id, name);
      SameLedger(s, Establish(s, sid, grant), id, name);
    case Rpc(eid, ename, isRequest, payload) => DispatchBalances(cfg, s, eid, ename, isRequest, payload, id, name);
    case _ =>
  }

  lemma SameLedger(s: Session, t: Session, id: string, name: string)
    requires s.calls == t.calls && s.output == t.output
    ensures Ledger(s, id, name) == Ledger(t, id, name)
  {
  }

  lemma DispatchBalances(
      cfg: Config, s: Session, eid: string, ename: string, isRequest: bool, payload: string, id: string, name: string)
    requires !s.closed
    ensures var t := Dispatch(cfg, s, eid, ename, isRequest, payload);
      && t.done == s.done
      && Ledger(t, id, name)
      == Ledger(s, id, name) + (if eid == id && ename == name && (isRequest || !s.done) then 1 else 0)
  {
    hide Ledger;
    if !s.done {
      SendAddsReply(s, Reply(eid, ename, Failure("HANDSHAKE_REQUIRED", "Handshake not completed")), id, name);
    } else if isRequest {
      if !cfg.serves(ename) {
        SendAddsReply(s, Reply(eid, ename, Failure("METHOD_NOT_FOUND", "Unknown method: " + ename)), id, name);
      } else {
        match cfg.validate(ename, payload)
        case Rejected(message) =>
          SendAddsReply(s, Reply(eid, ename,
                                 Failure("INVALID_REQUEST", "Invalid payload for " + ename + ": " + message)), id, name);
        case Resolved(valid) =>
          CallAdds(s, Call(eid, ename, valid, false), id, name);
          CallAdds(s, Call(eid, ename, valid, true), id, name);
          var thrown := cfg.throws(|s.calls|);
          if thrown.Some? {
            SendAddsReply(s.(calls := s.calls + [Call(eid, ename, valid, true)]),
                          Reply(eid, ename, Failure("HANDLER_ERROR", thrown.value)), id, name);
          }
      }
    }
  }

  lemma {:induction false} LinesBalance(cfg: Config, s: Session, lines: seq<string>, id: string, name: string)
    requires !s.closed
    ensures Ledger(HandleLines(cfg, s, lines), id, name)
         == Ledger(s, id, name) + Demands(cfg, s.done, lines, id, name)
    ensures HandleLines(cfg, s, lines).done == Established(cfg, s.done, lines)
    decreases |lines|
  {
    hide Ledger, HandleLine, Establishes, CallsFor;
    if lines != [] {
      LineBalances(cfg, s, lines[0], id, name);
      LinesKeepOpen(cfg, s, lines[..1]);
      assert HandleLines(cfg, s, lines[..1]) == HandleLine(cfg, s, lines[0]);
      LinesBalance(cfg, HandleLine(cfg, s, lines[0]), lines[1..], id, name);
    }
  }

  lemma {:induction false} DemandsAppend(
      cfg: Config, done: bool, a: seq<string>, b: seq<string>, id: string, name: string)
    ensures Demands(cfg, done, a + b, id, name)
         == Demands(cfg, done, a, id, name) + Demands(cfg, Established(cfg, done, a), b, id, name)
    ensures Established(cfg, done, a + b) == Established(cfg, Established(cfg, done, a), b)
    decreases |a|
  {
    hide CallsFor, Establishes;
    if a == [] {
      assert a + b == b;
    } else {
      assert (a + b)[1..] == a[1..] + b;
      DemandsAppend(cfg, done || Establishes(cfg, a[0]), a[1..], b, id, name);
    }
  }

  lemma {:induction false} PendingSettled(calls: seq<Call>, i: nat, id: string, name: string)
    requires i < |calls| && !calls[i].settled
    ensures var c := calls[i];
      Pending(calls, id, name) == Pending(calls[i := c.(settled := true)], id, name)
                                + (if c.id == id && c.name == name then 1 else 0)
    decreases |calls|
  {
    var n := |calls| - 1;
    var t := calls[i := calls[i].(settled := true)];
    if i == n {
      assert t[..n] == calls[..n];
    } else {
      assert t[..n] == calls[..n][i := calls[i].(settled := true)];
      PendingSettled(calls[..n], i, id, name);
    }
  }

  lemma SettleBalances(s: Session, call: nat, result: Result, id: string, name: string)
    requires Running(s, call)
    ensures Ledger(Settle(s, call, result), id, name) <= Ledger(s, id, name)
    ensures !s.closed ==> Ledger(Settle(s, call, result), id, name) == Ledger(s, id, name)
  {
    hide Replies, Pending;
    var c := s.calls[call];
    PendingSettled(s.calls, call, id, name);
    SendAddsReply(s.(calls := s.calls[call := c.(settled := true)]), Reply(c.id, c.name, Outcome(result)), id, name);
  }

  /**
   Conservation: while the connection is open, the replies sent with an id and method and the
   handlers still running for them are together exactly the messages received that call for a
   reply; after it is closed they are never more.
   */
  lemma {:induction false} EveryRequestOneReply(cfg: Config, events: seq<Event>, id: string, name: string)
    ensures var s := After(cfg, events).session;
      && Ledger(s, id, name) <= Demands(cfg, false, Handed(cfg, events), id, name)
      && (!s.closed ==> Ledger(s, id, name) == Demands(cfg, false, Handed(cfg, events), id, name))
      && s.done == Established(cfg, false, Handed(cfg, events))
    decreases |events|
  {
    hide Ledger, Step, Demands, Established;
    if events == [] {
      NothingDemanded(cfg, id, name);
    } else {
      var before := events[..|events| - 1];
      EveryRequestOneReply(cfg, before, id, name);
      StepBalances(cfg, After(cfg, before), events[|events| - 1], Handed(cfg, before), id, name);
    }
  }

  lemma NothingDemanded(cfg: Config, id: string, name: string)
    ensures Ledger(Fresh().session, id, name) == 0 == Demands(cfg, false, [], id, name)
    ensures !Established(cfg, false, [])
  {
  }

  ghost predicate Balanced(cfg: Config, s: Session, lines: seq<string>, id: string, name: string) {
    && Ledger(s, id, name) <= Demands(cfg, false, lines, id, name)
    && (!s.closed ==> Ledger(s, id, name) == Demands(cfg, false, lines, id, name))
    && s.done == Established(cfg, false, lines)
  }

  lemma StepBalances(cfg: Config, s: State, e: Event, lines: seq<string>, id: string, name: string)
    requires Balanced(cfg, s.session, lines, id, name)
    ensures var more := if e.Data? && !s.session.closed then Framed(s.buffer + e.chunk) else [];
      Balanced(cfg, Step(cfg, s, e).session, lines + more, id, name)
  {
    hide Ledger, Demands, Established, HandleLines, Framed, Residue, Settle;
    assert lines + [] == lines;
    match e
    case Data(chunk) =>
      if !s.session.closed {
        var more := Framed(s.buffer + chunk);
        LinesKeepOpen(cfg, s.session, more);
        LinesBalance(cfg, s.session, more, id, name);
        DemandsAppend(cfg, false, lines, more, id, name);
      }
    case Settled(call, result) =>
      if Running(s.session, call) {
        SettleBalances(s.session, call, result, id, name);
        SettleKeeps(s.session, call, result);
      }
    case Closed => SameLedger(s.session, s.session.(closed := true), id, name);
  }

  lemma SettleKeeps(s: Session, call: nat, result: Result)
    requires Running(s, call)
    ensures var t := Settle(s, call, result);
      t.closed == s.closed && t.done == s.done && t.sessionId == s.sessionId
  {
  }

  /**
   A message that calls for a reply and is alone with its id and method gets at most one reply
   while the connection is open, and has got it exactly when its handler is no longer running.
   */
  lemma OneReplyEach(cfg: Config, events: seq<Event>, id: string, name: string)
    requires !After(cfg, events).session.closed
    requires Demands(cfg, false, Framed(Arrived(events)), id, name) == 1
    ensures var s := After(cfg, events).session;
      && Replies(s.output, id, name) <= 1
      && (Replies(s.output, id, name) == 1 <==> Pending(s.calls, id, name) == 0)
  {
    hide Replies, Pending, Demands, Framed, After, Arrived;
    OpenRunReadsItsText(cfg, events);
    EveryRequestOneReply(cfg, events, id, name);
  }

  // ---------------------------------------------------------------------------
  // Handlers are called for the valid requests, and only handlers answer for themselves
  // ---------------------------------------------------------------------------

  /** A handler call: what it answers to, and the payload it is given. */
  datatype Task = Task(id: string, name: string, payload: string)

  function Tasks(calls: seq<Call>): seq<Task> {
    seq(|calls|, i requires 0 <= i < |calls| => Task(calls[i].id, calls[i].name, calls[i].payload))
  }

  /** The requests among the lines that come after the handshake, for a served method, and are valid. */
  function ValidRequests(cfg: Config, done: bool, lines: seq<string>): seq<Task>
    decreases |lines|
  {
    if lines == [] then []
    else
      var m := cfg.parse(lines[0]);
      var rest := ValidRequests(cfg, done || Establishes(cfg, lines[0]), lines[1..]);
      if done && m.Rpc? && m.isRequest && cfg.serves(m.name) && cfg.validate(m.name, m.payload).Resolved?
      then [Task(m.id, m.name, cfg.validate(m.name, m.payload).payload)] + rest
      else rest
  }

  lemma LineStarts(cfg: Config, s: Session, line: string)
    ensures Tasks(HandleLine(cfg, s, line).calls) == Tasks(s.calls) + ValidRequests(cfg, s.done, [line])
  {
    var t := HandleLine(cfg, s, line);
    assert [line][1..] == [];
    if |t.calls| > |s.calls| {
      var n := |s.calls|;
      assert t.calls[..n] == s.calls;
      assert Tasks(t.calls) == Tasks(s.calls) + [Task(t.calls[n].id, t.calls[n].name, t.calls[n].payload)];
    } else {
      assert Tasks(s.calls) + [] == Tasks(s.calls);
    }
  }

  lemma {:induction false} RequestsAppend(cfg: Config, done: bool, a: seq<string>, b: seq<string>)
    ensures ValidRequests(cfg, done, a + b)
         == ValidRequests(cfg, done, a) + ValidRequests(cfg, Established(cfg, done, a), b)
    decreases |a|
  {
    hide Establishes;
    if a == [] {
      assert a + b == b;
    } else {
      assert (a + b)[1..] == a[1..] + b;
      RequestsAppend(cfg, done || Establishes(cfg, a[0]), a[1..], b);
    }
  }

  lemma {:induction false} LinesStart(cfg: Config, s: Session, lines: seq<string>)
    requires !s.closed
    ensures Tasks(HandleLines(cfg, s, lines).calls) == Tasks(s.calls) + ValidRequests(cfg, s.done, lines)
    decreases |lines|
  {
    hide Tasks, HandleLine, Establishes, ValidRequests;
    if lines == [] {
      NoRequests(cfg, s);
    } else {
      var t := HandleLine(cfg, s, lines[0]);
      LineStarts(cfg, s, lines[0]);
      LineBalances(cfg, s, lines[0], "", "");
      LinesKeepOpen(cfg, s, lines[..1]);
      assert HandleLines(cfg, s, lines[..1]) == t && Established(cfg, s.done, [lines[0]]) == t.done;
      LinesStart(cfg, t, lines[1..]);
      RequestsAppend(cfg, s.done, [lines[0]], lines[1..]);
      assert lines == [lines[0]] + lines[1..];
    }
  }

  lemma NoRequests(cfg: Config, s: Session)
    ensures ValidRequests(cfg, s.done, []) == []
  {
  }

  lemma SettleStarts(s: Session, call: nat, result: Result)
    requires Running(s, call)
    ensures Tasks(Settle(s, call, result).calls) == Tasks(s.calls)
  {
  }

  /**
   In every run the handlers are called for exactly the valid requests received after the
   handshake, in the order received, each with its own id, method and validated payload.
   */
  lemma {:induction false} HandlersServeValidRequests(cfg: Config, events: seq<Event>)
    ensures Tasks(After(cfg, events).session.calls) == ValidRequests(cfg, false, Handed(cfg, events))
    decreases |events|
  {
    hide Tasks, HandleLines, ValidRequests, Framed, Residue, Settle, Established;
    if events == [] {
      NoRequests(cfg, Fresh().session);
      assert Tasks([]) == [] by {
        NoTasks();
      }
    } else {
      var before, e := events[..|events| - 1], events[|events| - 1];
      var s := After(cfg, before);
      HandlersServeValidRequests(cfg, before);
      EveryRequestOneReply(cfg, before, "", "");
      assert Handed(cfg, before) + [] == Handed(cfg, before);
      match e
      case Data(chunk) =>
        if !s.session.closed {
          LinesStart(cfg, s.session, Framed(s.buffer + chunk));
          RequestsAppend(cfg, false, Handed(cfg, before), Framed(s.buffer + chunk));
        }
      case Settled(call, result) =>
        if Running(s.session, call) {
          SettleStarts(s.session, call, result);
        }
      case Closed =>
    }
  }

  lemma NoTasks()
    ensures Tasks([]) == []
  {
  }

  /** A reply that a handler's outcome gives. */
  predicate FromHandler(m: Output, id: string, name: string) {
    Answers(m, id, name) && (m.body.Success? || m.body.code == "HANDLER_ERROR")
  }

  function HandlerReplies(output: seq<Output>, id: string, name: string): nat {
    if output == [] then 0
    else
      HandlerReplies(output[..|output| - 1], id, name)
      + (if FromHandler(output[|output| - 1], id, name) then 1 else 0)
  }

  /** The handler calls for the id and method that have settled. */
  function SettledCalls(calls: seq<Call>, id: string, name: string): nat {
    if calls == [] then 0
    else
      var c := calls[|calls| - 1];
      SettledCalls(calls[..|calls| - 1], id, name) + (if c.id == id && c.name == name && c.settled then 1 else 0)
  }

  ghost predicate Earned(s: Session, id: string, name: string) {
    && HandlerReplies(s.output, id, name) <= SettledCalls(s.calls, id, name)
    && (!s.closed ==> HandlerReplies(s.output, id, name) == SettledCalls(s.calls, id, name))
  }

  lemma SendEarns(s: Session, m: Output, id: string, name: string)
    ensures HandlerReplies(Send(s, m).output, id, name)
         == HandlerReplies(s.output, id, name) + (if FromHandler(m, id, name) && !s.closed then 1 else 0)
  {
    assert (s.output + [m])[..|s.output|] == s.output;
  }

  lemma CallSettled(calls: seq<Call>, c: Call, id: string, name: string)
    ensures SettledCalls(calls + [c], id, name)
         == SettledCalls(calls, id, name) + (if c.id == id && c.name == name && c.settled then 1 else 0)
  {
    assert (calls + [c])[..|calls|] == calls;
  }

  lemma {:induction false} SettledMore(calls: seq<Call>, i: nat, id: string, name: string)
    requires i < |calls| && !calls[i].settled
    ensures var c := calls[i];
      SettledCalls(calls[i := c.(settled := true)], id, name)
      == SettledCalls(calls, id, name) + (if c.id == id && c.name == name then 1 else 0)
    decreases |calls|
  {
    var n := |calls| - 1;
    var t := calls[i := calls[i].(settled := true)];
    if i == n {
      assert t[..n] == calls[..n];
    } else {
      assert t[..n] == calls[..n][i := calls[i].(settled := true)];
      SettledMore(calls[..n], i, id, name);
    }
  }

  lemma PlainSendEarns(s: Session, m: Output, id: string, name: string)
    requires Earned(s, id, name) && !FromHandler(m, id, name)
    ensures Earned(Send(s, m), id, name)
  {
    hide HandlerReplies, SettledCalls;
    SendEarns(s, m, id, name);
  }

  lemma LineEarns(cfg: Config, s: Session, line: string, id: string, name: string)
    requires Earned(s, id, name)
    ensures Earned(HandleLine(cfg, s, line), id, name)
  {
    hide Earned;
    match cfg.parse(line)
    case HandshakeRequest(version, sid, grant) =>
      PlainSendEarns(s, Ack(sid, false, "Session already established"), id, name);
      PlainSendEarns(s, Ack(sid, false, "Unsupported protocol version: " + version), id, name);
      SameEarned(s, Establish(s, sid, grant), id, name);
      PlainSendEarns(Establish(s, sid, grant), Ack(sid, true, ""), id, name);
    case Rpc(eid, ename, isRequest, payload) =>
      var checked := cfg.validate(ename, payload);
      PlainSendEarns(s, Reply(eid, ename, Failure("HANDSHAKE_REQUIRED", "Handshake not completed")), id, name);
      PlainSendEarns(s, Reply(eid, ename, Failure("METHOD_NOT_FOUND", "Unknown method: " + ename)), id, name);
      if checked.Rejected? {
        var message := "Invalid payload for " + ename + ": " + checked.message;
        PlainSendEarns(s, Reply(eid, ename, Failure("INVALID_REQUEST", message)), id, name);
      } else {
        StartEarns(cfg, s, eid, ename, checked.payload, id, name);
      }
    case _ =>
  }

  lemma SameEarned(s: Session, t: Session, id: string, name: string)
    requires s.calls == t.calls && s.output == t.output && (s.closed ==> t.closed)
    ensures Earned(s, id, name) ==> Earned(t, id, name)
  {
  }

  lemma StartEarns(cfg: Config, s: Session, eid: string, ename: string, payload: string, id: string, name: string)
    requires Earned(s, id, name)
    ensures Earned(Start(cfg, s, eid, ename, payload), id, name)
  {
    hide HandlerReplies, SettledCalls;
    CallSettled(s.calls, Call(eid, ename, payload, false), id, name);
    CallSettled(s.calls, Call(eid, ename, payload, true), id, name);
    var thrown := cfg.throws(|s.calls|);
    if thrown.Some? {
      SendEarns(s.(calls := s.calls + [Call(eid, ename, payload, true)]),
                Reply(eid, ename, Failure("HANDLER_ERROR", thrown.value)), id, name);
    }
  }

  lemma SettleEarns(s: Session, call: nat, result: Result, id: string, name: string)
    requires Earned(s, id, name) && Running(s, call)
    ensures Earned(Settle(s, call, result), id, name)
  {
    hide HandlerReplies, SettledCalls;
    var c := s.calls[call];
    SettledMore(s.calls, call, id, name);
    SendEarns(s.(calls := s.calls[call := c.(settled := true)]), Reply(c.id, c.name, Outcome(result)), id, name);
  }

  lemma {:induction false} LinesEarn(cfg: Config, s: Session, lines: seq<string>, id: string, name: string)
    requires Earned(s, id, name)
    ensures Earned(HandleLines(cfg, s, lines), id, name)
    decreases |lines|
  {
    hide Earned, HandleLine;
    if lines != [] {
      LineEarns(cfg, s, lines[0], id, name);
      LinesEarn(cfg, HandleLine(cfg, s, lines[0]), lines[1..], id, name);
    }
  }

  /**
   In every run, a reply that carries a handler's result or error is matched by a handler call
   for its id and method that has settled; while the connection is open, one for one.
   */
  lemma {:induction false} ResultsComeFromHandlers(cfg: Config, events: seq<Event>, id: string, name: string)
    ensures Earned(After(cfg, events).session, id, name)
    decreases |events|
  {
    hide HandleLines, Framed, Residue, Settle;
    if events != [] {
      hide Earned;
      var before, e := events[..|events| - 1], events[|events| - 1];
      var s := After(cfg, before);
      ResultsComeFromHandlers(cfg, before, id, name);
      match e
      case Data(chunk) => LinesEarn(cfg, s.session, Framed(s.buffer + chunk), id, name);
      case Settled(call, result) =>
        if Running(s.session, call) {
          SettleEarns(s.session, call, result, id, name);
        }
      case Closed => SameEarned(s.session, s.session.(closed := true), id, name);
    }
  }

  // ---------------------------------------------------------------------------
  // Chunks and settlements do not change what is started
  // ---------------------------------------------------------------------------

  /** What a session has begun: without its replies, and without which handlers have settled. */
  function Begun(s: Session): Session {
    s.(calls := seq(|s.calls|, i requires 0 <= i < |s.calls| => s.calls[i].(settled := true)), output := [])
  }

  lemma LineBegins(cfg: Config, s: Session, t: Session, line: string)
    requires Begun(s) == Begun(t)
    ensures Begun(HandleLine(cfg, s, line)) == Begun(HandleLine(cfg, t, line))
  {
    match cfg.parse(line)
    case Rpc(id, name, _, payload) =>
      var checked := cfg.validate(name, payload);
      if s.done && checked.Resolved? {
        hide Begun;
        SameLength(s, t);
        StartBegins(cfg, s, id, name, checked.payload);
        StartBegins(cfg, t, id, name, checked.payload);
      }
    case _ =>
  }

  lemma SameLength(s: Session, t: Session)
    requires Begun(s) == Begun(t)
    ensures |s.calls| == |t.calls| && s.done == t.done
  {
    assert |Begun(s).calls| == |Begun(t).calls|;
  }

  lemma StartBegins(cfg: Config, s: Session, id: string, name: string, payload: string)
    ensures Begun(Start(cfg, s, id, name, payload))
         == Begun(s).(calls := Begun(s).calls + [Call(id, name, payload, true)])
  {
    var t := Start(cfg, s, id, name, payload);
    assert Begun(t).calls == Begun(s).calls + [Call(id, name, payload, true)];
  }

  lemma SettleBegins(s: Session, call: nat, result: Result)
    requires Running(s, call)
    ensures Begun(Settle(s, call, result)) == Begun(s)
  {
    assert Begun(Settle(s, call, result)).calls == Begun(s).calls;
  }

  lemma {:induction false} LinesBegin(cfg: Config, s: Session, t: Session, lines: seq<string>)
    requires Begun(s) == Begun(t)
    ensures Begun(HandleLines(cfg, s, lines)) == Begun(HandleLines(cfg, t, lines))
    decreases |lines|
  {
    hide Begun, HandleLine;
    if lines != [] {
      LineBegins(cfg, s, t, lines[0]);
      LinesBegin(cfg, HandleLine(cfg, s, lines[0]), HandleLine(cfg, t, lines[0]), lines[1..]);
    }
  }

  /**
   While the connection is open, the session, the handler calls begun and their order are those
   of the text that arrived, handled in one go: neither the chunks nor the order in which
   handlers settle makes a difference.
   */
  lemma {:induction false} OpenRunBeginsItsText(cfg: Config, events: seq<Event>)
    requires !After(cfg, events).session.closed
    ensures Begun(After(cfg, events).session)
         == Begun(HandleLines(cfg, Fresh().session, Framed(Arrived(events))))
    decreases |events|
  {
    hide Begun, HandleLines, Framed, Residue, Settle;
    if events == [] {
      NothingToFrame("");
      assert HandleLines(cfg, Fresh().session, []) == Fresh().session by {
        NoLines(cfg, Fresh().session);
      }
    } else {
      var before, e := events[..|events| - 1], events[|events| - 1];
      var s := After(cfg, before);
      match e
      case Data(chunk) =>
        StillOpen(cfg, s, chunk);
        OpenRunBeginsItsText(cfg, before);
        OpenRunReadsItsText(cfg, before);
        FrameAppend(Arrived(before), chunk);
        var more := Framed(s.buffer + chunk);
        HandleAppend(cfg, Fresh().session, Framed(Arrived(before)), more);
        LinesBegin(cfg, s.session, HandleLines(cfg, Fresh().session, Framed(Arrived(before))), more);
      case Settled(call, result) =>
        if Running(s.session, call) {
          SettleKeeps(s.session, call, result);
          SettleBegins(s.session, call, result);
        }
        OpenRunBeginsItsText(cfg, before);
        assert Arrived(before) + "" == Arrived(before);
      case Closed =>
    }
  }

  lemma NoLines(cfg: Config, s: Session)
    ensures HandleLines(cfg, s, []) == s
  {
  }

  function DataEvents(chunks: seq<string>): seq<Event> {
    seq(|chunks|, i requires 0 <= i < |chunks| => Data(chunks[i]))
  }

  lemma {:induction false} ChunksAreHandledAsOne(cfg: Config, chunks: seq<string>)
    ensures var s := After(cfg, DataEvents(chunks));
      && s == State(Residue(Joined(chunks)), HandleLines(cfg, Fresh().session, Framed(Joined(chunks))))
      && !s.session.closed
    decreases |chunks|
  {
    hide HandleLines, Framed, Residue;
    if chunks == [] {
      NothingToFrame("");
      NoLines(cfg, Fresh().session);
    } else {
      var n := |chunks| - 1;
      var before, chunk := Joined(chunks[..n]), chunks[n];
      ChunksAreHandledAsOne(cfg, chunks[..n]);
      assert DataEvents(chunks)[..n] == DataEvents(chunks[..n]);
      JoinedLast(chunks);
      FrameAppend(before, chunk);
      HandleAppend(cfg, Fresh().session, Framed(before), Framed(Residue(before) + chunk));
      StillOpen(cfg, After(cfg, DataEvents(chunks[..n])), chunk);
    }
  }

  lemma {:induction false} JoinedLast(chunks: seq<string>)
    requires chunks != []
    ensures Joined(chunks) == Joined(chunks[..|chunks| - 1]) + chunks[|chunks| - 1]
    decreases |chunks|
  {
    if |chunks| > 1 {
      JoinedLast(chunks[1..]);
      assert chunks[1..][..|chunks| - 2] == chunks[..|chunks| - 1][1..];
    }
  }

  /** Bytes cut between characters leave the server as the whole text would in one chunk. */
  lemma WholeCharacterChunksAreHandledAsOne(cfg: Config, chunks: seq<seq<byte>>, pieces: seq<string>)
    requires |chunks| == |pieces| && forall i :: 0 <= i < |pieces| ==> chunks[i] == EncodeAll(pieces[i])
    ensures After(cfg, DataEvents(DecodeEach(chunks))) == After(cfg, [Data(Joined(pieces))])
  {
    hide After, EncodeAll, HandleLines;
    WholeCharactersDecode(chunks, pieces);
    ChunksAreHandledAsOne(cfg, pieces);
    ChunksAreHandledAsOne(cfg, [Joined(pieces)]);
    assert [Joined(pieces)][1..] == [];
    assert Joined([Joined(pieces)]) == Joined(pieces) + "" == Joined(pieces);
    assert DataEvents([Joined(pieces)]) == [Data(Joined(pieces))];
  }

  lemma {:induction false} ChunksArrive(chunks: seq<string>)
    ensures Arrived(DataEvents(chunks)) == Joined(chunks)
    decreases |chunks|
  {
    if chunks != [] {
      var n := |chunks| - 1;
      assert DataEvents(chunks)[..n] == DataEvents(chunks[..n]);
      ChunksArrive(chunks[..n]);
      JoinedLast(chunks);
    }
  }

  /** Byte chunks bring the server the text they encode exactly when no cut splits a character. */
  lemma BytesArriveWhole(chunks: seq<seq<byte>>, text: string)
    requires BytesOf(chunks) == EncodeAll(text)
    ensures Arrived(DataEvents(DecodeEach(chunks))) == text <==> CutsBetween(text, chunks)
  {
    hide DecodeEach, CutsBetween, BytesOf, EncodeAll, Arrived;
    ChunksArrive(DecodeEach(chunks));
    ChunksDecode(text, chunks);
  }

  /** And then they leave it as the whole text would in one chunk. */
  lemma ByteChunksAreHandledAsOne(cfg: Config, chunks: seq<seq<byte>>, text: string)
    requires BytesOf(chunks) == EncodeAll(text) && CutsBetween(text, chunks)
    ensures After(cfg, DataEvents(DecodeEach(chunks))) == After(cfg, [Data(text)])
  {
    hide After, EncodeAll, HandleLines, DecodeEach, CutsBetween, BytesOf;
    ChunksDecode(text, chunks);
    ChunksAreHandledAsOne(cfg, DecodeEach(chunks));
    ChunksAreHandledAsOne(cfg, [text]);
    assert [text][1..] == [];
    assert Joined([text]) == text + "" == text;
    assert DataEvents([text]) == [Data(text)];
  }
}
