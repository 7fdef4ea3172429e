/**
 Starting the Slack and Discord clients. A start stops the client there is, awaits credentials,
 and creates another; starts may overlap. Slack's is guarded by a generation, Discord's is not.
 */
module ChannelStarts {
  import opened Options

  /** How a credential read ends: with the value, if there is one, or by throwing. */
  datatype Token = Got(value: Option<string>) | Threw

  /** Where a call of `startSlackSocket` stands. */
  datatype Stage = AwaitsBot | AwaitsApp(bot: Option<string>) | Over

  datatype Call = Call(generation: nat, stage: Stage)

  /** A client that was created, by which call, and whether it runs. */
  datatype Client = Client(createdBy: nat, running: bool)

  datatype State = State(generation: nat, calls: seq<Call>, clients: seq<Client>, current: Option<nat>)

  function Stopped(s: State): State {
    if s.current.None? || s.current.value >= |s.clients| then s.(current := None)
    else
      var i := s.current.value;
      s.(clients := s.clients[i := s.clients[i].(running := false)], current := None)
  }

  function Start(s: State): State {
    var s1 := Stopped(s);
    s1.(generation := s.generation + 1, calls := s.calls + [Call(s.generation + 1, AwaitsBot)])
  }

  function Move(s: State, call: nat, stage: Stage): State
    requires call < |s.calls|
  {
    s.(calls := s.calls[call := s.calls[call].(stage := stage)])
  }

  function BotRead(s: State, call: nat, token: Token): State
    requires call < |s.calls|
  {
    Move(s, call, if token.Got? then AwaitsApp(token.value) else Over)
  }

  predicate Present(token: Option<string>) {
    token.Some? && token.value != ""
  }

  function Create(s: State, call: nat): State {
    s.(clients := s.clients + [Client(call, true)], current := Some(|s.clients|))
  }

  function AppRead(s: State, call: nat, token: Token): State
    requires call < |s.calls| && s.calls[call].stage.AwaitsApp?
  {
    var c := s.calls[call];
    var s1 := Move(s, call, Over);
    if token.Got? && c.generation == s.generation && Present(c.stage.bot) && Present(token.value) then Create(s1, call)
    else s1
  }

  class SlackSocketModeClient {
    const createdBy: nat
    var running: bool

    constructor (createdBy: nat)
      ensures this.createdBy == createdBy && running
    {
      this.createdBy, running := createdBy, true;
    }

    method Stop()
      modifies this
      ensures !running
    {
      running := false;
    }
  }

  class SlackLifecycle {
    var slackSocketClient: SlackSocketModeClient?
    var slackStartGeneration: nat
    var calls: seq<Call>
    /** Every client created, and which of them is referenced. */
    ghost var clients: seq<SlackSocketModeClient>
    ghost var current: Option<nat>

    ghost predicate Valid()
      reads this
    {
      && (forall i, j :: 0 <= i < j < |clients| ==> clients[i] != clients[j])
      && (slackSocketClient == null <==> current.None?)
      && (current.Some? ==> current.value < |clients| && clients[current.value] == slackSocketClient)
    }

    ghost function View(): State
      reads this, clients
    {
      State(slackStartGeneration, calls,
            seq(|clients|, i requires 0 <= i < |clients| reads this, clients => Client(clients[i].createdBy, clients[i].running)),
            current)
    }

    constructor ()
      ensures Valid() && View() == Initial()
    {
      slackSocketClient, slackStartGeneration, calls, clients, current := null, 0, [], [], None;
    }

    /** `startSlackSocket` up to its first await. */
    method StartSlackSocket()
      requires Valid()
      modifies this, clients
      ensures Valid() && View() == Start(old(View()))
    {
      slackStartGeneration := slackStartGeneration + 1;
      if slackSocketClient != null {
        slackSocketClient.Stop();
        slackSocketClient, current := null, None;
      }
      calls := calls + [Call(slackStartGeneration, AwaitsBot)];
    }

    method OnBotToken(call: nat, token: Token)
      requires Valid() && call < |calls| && calls[call].stage.AwaitsBot?
      modifies this
      ensures Valid() && View() == BotRead(old(View()), call, token)
    {
      calls := calls[call := calls[call].(stage := if token.Got? then AwaitsApp(token.value) else Over)];
    }

    method OnAppToken(call: nat, token: Token)
      requires Valid() && call < |calls| && calls[call].stage.AwaitsApp?
      modifies this
      ensures Valid() && View() == AppRead(old(View()), call, token)
    {
      var generation, botToken := calls[call].generation, calls[call].stage.bot;
      calls := calls[call := calls[call].(stage := Over)];
      if token.Threw? {
        return;
      }
      if generation != slackStartGeneration {
        return;
      }
      if !Present(botToken) || !Present(token.value) {
        return;
      }
      var client := new SlackSocketModeClient(call);
      slackSocketClient := client;
      clients, current := clients + [client], Some(|clients|);
    }
  }

  // ---------------------------------------------------------------------------
  // Runs
  // ---------------------------------------------------------------------------

  datatype Event = Started | BotAnswered(call: nat, token: Token) | AppAnswered(call: nat, token: Token)

  function Initial(): State {
    State(0, [], [], None)
  }

  /** Only a read that a call awaits is answered. */
  function Step(s: State, e: Event): State {
    match e
    case Started => Start(s)
    case BotAnswered(call, token) =>
      if call < |s.calls| && s.calls[call].stage.AwaitsBot? then BotRead(s, call, token) else s
    case AppAnswered(call, token) =>
      if call < |s.calls| && s.calls[call].stage.AwaitsApp? then AppRead(s, call, token) else s
  }

  function After(events: seq<Event>): State {
    if events == [] then Initial() else Step(After(events[..|events| - 1]), events[|events| - 1])
  }

  /**
   The clients that run are exactly the referenced one, or none; it was created by the latest
   call; and of the calls under way only the latest can create one.
   */
  ghost predicate OneClient(s: State) {
    && (forall i :: 0 <= i < |s.clients| ==> (s.clients[i].running <==> s.current == Some(i)))
    && (s.current.Some? ==> s.current.value < |s.clients| && s.clients[s.current.value].createdBy == |s.calls| - 1
                            && s.calls != [] && s.calls[|s.calls| - 1].stage.Over?)
    && |s.calls| == s.generation
    && (forall i :: 0 <= i < |s.calls| ==> s.calls[i].generation == i + 1)
  }

  lemma StepKeepsOneClient(s: State, e: Event)
    requires OneClient(s)
    ensures OneClient(Step(s, e))
    ensures |Step(s, e).clients| > |s.clients| ==> e.AppAnswered? && e.call == |s.calls| - 1
  {
  }

  lemma {:induction false} AlwaysOneClient(events: seq<Event>)
    ensures OneClient(After(events))
  {
    hide Step;
    if events != [] {
      hide OneClient;
      AlwaysOneClient(events[..|events| - 1]);
      StepKeepsOneClient(After(events[..|events| - 1]), events[|events| - 1]);
    }
  }

  /** A client is created only when the latest call's last read is answered. */
  lemma OnlyTheLatestCreates(events: seq<Event>, e: Event)
    requires |Step(After(events), e).clients| > |After(events).clients|
    ensures e.AppAnswered? && e.call == |After(events).calls| - 1
    ensures Step(After(events), e).current == Some(|After(events).clients|)
  {
    hide After;
    AlwaysOneClient(events);
    StepKeepsOneClient(After(events), e);
  }

  /** How many starts there have been. */
  function Starts(events: seq<Event>): nat {
    if events == [] then 0
    else Starts(events[..|events| - 1]) + (if events[|events| - 1].Started? then 1 else 0)
  }

  /** How the first credential read of a call ended, if it has. */
  function BotAnswer(events: seq<Event>, call: nat): Option<Token> {
    if events == [] then None
    else
      var before, e := events[..|events| - 1], events[|events| - 1];
      var earlier := BotAnswer(before, call);
      if earlier.None? && e.BotAnswered? && e.call == call && call < Starts(before) then Some(e.token) else earlier
  }

  /** How the second one ended: it is begun once the first has not thrown. */
  function AppAnswer(events: seq<Event>, call: nat): Option<Token> {
    if events == [] then None
    else
      var before, e := events[..|events| - 1], events[|events| - 1];
      var earlier := AppAnswer(before, call);
      var bot := BotAnswer(before, call);
      if earlier.None? && e.AppAnswered? && e.call == call && bot.Some? && bot.value.Got? then Some(e.token)
      else earlier
  }

  /** A credential that is there and is not empty. */
  predicate HasToken(answer: Option<Token>) {
    answer.Some? && answer.value.Got? && answer.value.value.Some? && answer.value.value.value != ""
  }

  /** What a call's stage records of its answers. */
  ghost predicate Follows(c: Call, bot: Option<Token>, app: Option<Token>) {
    match c.stage
    case AwaitsBot => bot == None && app == None
    case AwaitsApp(token) => bot == Some(Got(token)) && app == None
    case Over => bot.Some? && (app.Some? || bot.value.Threw?)
  }

  ghost predicate AllFollow(s: State, events: seq<Event>) {
    && |s.calls| == Starts(events)
    && forall i :: 0 <= i < |s.calls| ==> Follows(s.calls[i], BotAnswer(events, i), AppAnswer(events, i))
  }

  /** A client is referenced exactly when both credentials of the latest call are there. */
  ghost predicate Connected(s: State, events: seq<Event>) {
    s.current.Some? <==>
    s.calls != [] && HasToken(BotAnswer(events, |s.calls| - 1)) && HasToken(AppAnswer(events, |s.calls| - 1))
  }

  lemma {:induction false} NotBegunNotAnswered(events: seq<Event>, call: nat)
    requires call >= Starts(events)
    ensures BotAnswer(events, call) == None && AppAnswer(events, call) == None
  {
    if events != [] {
      NotBegunNotAnswered(events[..|events| - 1], call);
    }
  }

  /** The answers after one more event. */
  lemma AnswersStep(events: seq<Event>, e: Event, call: nat)
    ensures Starts(events + [e]) == Starts(events) + (if e.Started? then 1 else 0)
    ensures BotAnswer(events + [e], call) ==
      if BotAnswer(events, call).None? && e.BotAnswered? && e.call == call && call < Starts(events) then Some(e.token)
      else BotAnswer(events, call)
    ensures AppAnswer(events + [e], call) ==
      var bot := BotAnswer(events, call);
      if AppAnswer(events, call).None? && e.AppAnswered? && e.call == call && bot.Some? && bot.value.Got? then Some(e.token)
      else AppAnswer(events, call)
  {
    assert (events + [e])[..|events|] == events;
  }

  lemma StepFollows(s: State, events: seq<Event>, e: Event)
    requires AllFollow(s, events)
    ensures AllFollow(Step(s, e), events + [e])
  {
    hide Starts, BotAnswer, AppAnswer;
    var t := Step(s, e);
    AnswersStep(events, e, 0);
    forall i | 0 <= i < |t.calls|
      ensures Follows(t.calls[i], BotAnswer(events + [e], i), AppAnswer(events + [e], i))
    {
      AnswersStep(events, e, i);
      if i == |s.calls| {
        NotBegunNotAnswered(events, i);
      } else {
        assert Follows(s.calls[i], BotAnswer(events, i), AppAnswer(events, i));
      }
    }
  }

  lemma StepConnects(s: State, events: seq<Event>, e: Event)
    requires OneClient(s) && AllFollow(s, events) && Connected(s, events)
    ensures Connected(Step(s, e), events + [e])
  {
    hide Starts, BotAnswer, AppAnswer;
    var t := Step(s, e);
    if t.calls != [] {
      var last := |t.calls| - 1;
      AnswersStep(events, e, last);
      if e.Started? {
        NotBegunNotAnswered(events, last);
      } else {
        assert Follows(s.calls[last], BotAnswer(events, last), AppAnswer(events, last));
        assert s.calls[last].generation == s.generation;
        assert t.current != s.current ==> e.AppAnswered? && e.call == last && s.calls[last].stage.AwaitsApp?;
        assert !s.calls[last].stage.Over? ==> s.current.None?;
      }
    }
  }

  /**
   In every run a client runs exactly when both credential reads of the latest start have been
   answered with a token.
   */
  lemma {:induction false} ConnectedByTheLatestStart(events: seq<Event>)
    ensures AllFollow(After(events), events) && Connected(After(events), events)
    ensures (exists i :: 0 <= i < |After(events).clients| && After(events).clients[i].running) <==>
      Starts(events) > 0 && HasToken(BotAnswer(events, Starts(events) - 1)) && HasToken(AppAnswer(events, Starts(events) - 1))
  {
    hide Step, Starts, BotAnswer, AppAnswer;
    AlwaysOneClient(events);
    if events == [] {
      NothingStarted();
    } else {
      var before, e := events[..|events| - 1], events[|events| - 1];
      assert events == before + [e];
      ConnectedByTheLatestStart(before);
      AlwaysOneClient(before);
      StepFollows(After(before), before, e);
      StepConnects(After(before), before, e);
    }
  }

  lemma NothingStarted()
    ensures Starts([]) == 0 && AllFollow(Initial(), []) && Connected(Initial(), [])
  {
  }

  // ---------------------------------------------------------------------------
  // The Discord client, started without a generation
  // ---------------------------------------------------------------------------

  /** A call awaits one token, and creates a client whatever has started since. */
  function TokenRead(s: State, call: nat, token: Token): State
    requires call < |s.calls|
  {
    var s1 := Move(s, call, Over);
    if token.Got? && Present(token.value) then Create(s1, call) else s1
  }

  datatype DiscordEvent = Begun | Answered(call: nat, token: Token)

  function DiscordStep(s: State, e: DiscordEvent): State {
    match e
    case Begun => Start(s)
    case Answered(call, token) =>
      if call < |s.calls| && s.calls[call].stage.AwaitsBot? then TokenRead(s, call, token) else s
  }

  function AfterDiscord(events: seq<DiscordEvent>): State {
    if events == [] then Initial() else DiscordStep(AfterDiscord(events[..|events| - 1]), events[|events| - 1])
  }

  /** The event replaces a client that runs by another, without stopping it. */
  predicate Overwrites(s: State, e: DiscordEvent) {
    && e.Answered? && e.call < |s.calls| && s.calls[e.call].stage.AwaitsBot?
    && e.token.Got? && Present(e.token.value) && s.current.Some?
  }

  function Overwritten(events: seq<DiscordEvent>): nat {
    if events == [] then 0
    else
      var m := |events| - 1;
      Overwritten(events[..m]) + (if Overwrites(AfterDiscord(events[..m]), events[m]) then 1 else 0)
  }

  function Running(clients: seq<Client>): nat {
    if clients == [] then 0
    else Running(clients[..|clients| - 1]) + (if clients[|clients| - 1].running then 1 else 0)
  }

  lemma {:induction false} RunningStopped(clients: seq<Client>, i: nat)
    requires i < |clients| && clients[i].running
    ensures Running(clients[i := clients[i].(running := false)]) == Running(clients) - 1
  {
    var n := |clients| - 1;
    var t := clients[i := clients[i].(running := false)];
    if i == n {
      assert t[..n] == clients[..n];
    } else {
      assert t[..n] == clients[..n][i := clients[i].(running := false)];
      RunningStopped(clients[..n], i);
    }
  }

  ghost predicate Counted(s: State, leaked: nat) {
    && Running(s.clients) == leaked + (if s.current.Some? then 1 else 0)
    && (s.current.Some? ==> s.current.value < |s.clients| && s.clients[s.current.value].running)
  }

  lemma DiscordStepCounts(s: State, e: DiscordEvent, leaked: nat)
    requires Counted(s, leaked)
    ensures Counted(DiscordStep(s, e), leaked + (if Overwrites(s, e) then 1 else 0))
  {
    match e
    case Begun =>
      if s.current.Some? {
        RunningStopped(s.clients, s.current.value);
      }
    case Answered(call, token) =>
      assert (s.clients + [Client(call, true)])[..|s.clients|] == s.clients;
  }

  /**
   Clients that run without a reference to stop them are as many as the answers that came while
   a client was referenced: none leaks if and only if there was no such answer.
   */
  lemma {:induction false} DiscordLeaksWhatItOverwrites(events: seq<DiscordEvent>)
    ensures Counted(AfterDiscord(events), Overwritten(events))
  {
    hide DiscordStep, Overwrites;
    if events != [] {
      hide Counted;
      DiscordLeaksWhatItOverwrites(events[..|events| - 1]);
      DiscordStepCounts(AfterDiscord(events[..|events| - 1]), events[|events| - 1], Overwritten(events[..|events| - 1]));
    }
  }

  lemma AfterOneMore(events: seq<DiscordEvent>, e: DiscordEvent)
    ensures AfterDiscord(events + [e]) == DiscordStep(AfterDiscord(events), e)
  {
    hide DiscordStep;
    assert (events + [e])[..|events|] == events;
  }

  lemma TwoStarts()
    ensures AfterDiscord([Begun, Begun]) == State(2, [Call(1, AwaitsBot), Call(2, AwaitsBot)], [], None)
  {
    AfterOneMore([], Begun);
    AfterOneMore([Begun], Begun);
    assert [] + [Begun] == [Begun] && [Begun] + [Begun] == [Begun, Begun];
  }

  lemma TwoAnswers(s: State, token: string)
    requires s == State(2, [Call(1, AwaitsBot), Call(2, AwaitsBot)], [], None) && token != ""
    ensures DiscordStep(DiscordStep(s, Answered(0, Got(Some(token)))), Answered(1, Got(Some(token)))).clients
         == [Client(0, true), Client(1, true)]
  {
    var t := DiscordStep(s, Answered(0, Got(Some(token))));
    assert t == State(2, [Call(1, Over), Call(2, AwaitsBot)], [Client(0, true)], Some(0));
  }

  /** Two overlapping starts leave two clients running, of which one is referenced. */
  lemma OverlappingDiscordStartsLeak(token: string)
    requires token != ""
    ensures var events := [Begun, Begun] + [Answered(0, Got(Some(token)))] + [Answered(1, Got(Some(token)))];
      Running(AfterDiscord(events).clients) == 2
  {
    hide AfterDiscord, DiscordStep;
    TwoStarts();
    TwoAnswers(AfterDiscord([Begun, Begun]), token);
    AfterOneMore([Begun, Begun], Answered(0, Got(Some(token))));
    AfterOneMore([Begun, Begun] + [Answered(0, Got(Some(token)))], Answered(1, Got(Some(token))));
    var clients := [Client(0, true), Client(1, true)];
    assert clients[..1] == [Client(0, true)] && clients[..1][..0] == [];
    assert Running(clients[..1]) == 1;
  }
}
