/** What the watcher's polls hold, and that nothing but wake-ups makes it poll. */
module WatcherPolls {
  import opened Options
  import opened CredentialWatchers
  import opened WatcherGuarantees

  // ---------------------------------------------------------------------------
  // A poll holds what the vault answered
  // ---------------------------------------------------------------------------

  /** The reachable answers to a poll's reads, in order. */
  function Answers(services: seq<string>, events: seq<Event>, poll: nat): seq<Result> {
    if events == [] then []
    else
      var before, e := events[..|events| - 1], events[|events| - 1];
      Answers(services, before, poll) +
      if e.Read? && e.poll == poll && Active(After(services, before), poll) && e.result != Unreachable then [e.result] else []
  }

  /** Found credentials are held as found, missing ones as absent. */
  ghost predicate Holds(read: seq<Option<string>>, answers: seq<Result>) {
    && |read| == |answers|
    && forall i :: 0 <= i < |read| ==>
         match answers[i]
         case Found(credentials) => read[i] == Some(credentials)
         case Missing => read[i] == None
         case Unreachable => false
  }

  lemma StepHolds(s: State, e: Event, poll: nat, answers: seq<Result>)
    requires OneAtATime(s)
    requires if poll < |s.polls| then Holds(s.polls[poll].read, answers) else answers == []
    ensures var t := Step(s, e);
      var more := if e.Read? && e.poll == poll && Active(s, poll) && e.result != Unreachable then [e.result] else [];
      if poll < |t.polls| then Holds(t.polls[poll].read, answers + more) else answers + more == []
  {
    hide Complete;
    match e
    case Read(p, result) =>
      if Active(s, p) {
        ReadIs(s, p, result);
        AnswerKeepsPolls(s, p, result);
      }
    case _ =>
  }

  /** What one answer does to what the polls hold. */
  lemma ReadIs(s: State, poll: nat, result: Result)
    requires Active(s, poll) && OneAtATime(s)
    ensures var t := Answered(s, poll, result);
      && |t.polls| >= |s.polls|
      && (forall i :: 0 <= i < |s.polls| && i != poll ==> t.polls[i].read == s.polls[i].read)
      && (forall i :: |s.polls| <= i < |t.polls| ==> t.polls[i].read == [])
      && t.polls[poll].read == s.polls[poll].read + (if result.Unreachable? then [] else [Reading(result)])
  {
    hide Complete, Reading;
    ActiveIsLast(s, poll);
    if !result.Unreachable? {
      var read := s.polls[poll].read + [Reading(result)];
      CompleteKeeps(s.(polls := s.polls[poll := s.polls[poll].(read := read)]), read, s.polls[poll].force);
    }
  }

  /** In every run each poll holds exactly what the vault answered to its reads, in order. */
  lemma {:induction false} PollsHoldTheAnswers(services: seq<string>, events: seq<Event>, poll: nat)
    requires services != []
    ensures var s := After(services, events);
      if poll < |s.polls| then Holds(s.polls[poll].read, Answers(services, events, poll))
      else Answers(services, events, poll) == []
  {
    hide Step, Holds, Active, OneAtATime;
    if events != [] {
      var before, e := events[..|events| - 1], events[|events| - 1];
      PollsHoldTheAnswers(services, before, poll);
      PollsNeverOverlap(services, before);
      StepHolds(After(services, before), e, poll, Answers(services, before, poll));
    }
  }

  // ---------------------------------------------------------------------------
  // Only wake-ups cause polls
  // ---------------------------------------------------------------------------

  /** The requests and the timers that fired, the file events, and the force flags of a run. */
  datatype Causes = Causes(requests: nat, fired: nat, changes: nat, forces: nat)

  function CausesOf(services: seq<string>, events: seq<Event>): Causes {
    if events == [] then Causes(0, 0, 0, 0)
    else
      var before, e := events[..|events| - 1], events[|events| - 1];
      var c := CausesOf(services, before);
      match e
      case Changed(force) => c.(changes := c.changes + 1, forces := c.forces + (if force then 1 else 0))
      case Timer => if After(services, before).timer then c.(fired := c.fired + 1) else c
      case Requested(force) => c.(requests := c.requests + 1, forces := c.forces + (if force then 1 else 0))
      case Read(_, _) => c
      case Stopped => c
  }

  function Forced(polls: seq<Poll>): nat {
    if polls == [] then 0
    else Forced(polls[..|polls| - 1]) + (if polls[|polls| - 1].force then 1 else 0)
  }

  /** Polls begun or asked for have a request or a timer each, timers a file event, forced polls a flag. */
  ghost predicate Caused(s: State, c: Causes) {
    && |s.polls| + (if s.pendingPoll then 1 else 0) <= c.requests + c.fired
    && c.fired + (if s.timer then 1 else 0) <= c.changes
    && Forced(s.polls) + (if s.pendingForce then 1 else 0) <= c.forces
  }

  lemma ForcedMore(polls: seq<Poll>, p: Poll)
    ensures Forced(polls + [p]) == Forced(polls) + (if p.force then 1 else 0)
  {
    assert (polls + [p])[..|polls|] == polls;
  }

  lemma {:induction false} ForcedSame(polls: seq<Poll>, others: seq<Poll>)
    requires |polls| == |others| && forall i :: 0 <= i < |polls| ==> polls[i].force == others[i].force
    ensures Forced(polls) == Forced(others)
    decreases |polls|
  {
    if polls != [] {
      ForcedSame(polls[..|polls| - 1], others[..|others| - 1]);
    }
  }

  lemma RequestIsCaused(s: State, force: bool, c: Causes)
    requires Caused(s, c)
    ensures Caused(Request(s, force), c.(requests := c.requests + 1, forces := c.forces + (if force then 1 else 0)))
  {
    ForcedMore(s.polls, Poll(force, [], false));
  }

  lemma ConcludeIsCaused(s: State, c: Causes)
    requires Caused(s, c)
    ensures Caused(Conclude(s), c)
  {
    ForcedMore(s.polls, Poll(s.pendingForce, [], false));
  }

  lemma SamePollsCaused(s: State, polls: seq<Poll>, c: Causes)
    requires Caused(s, c)
    requires |polls| == |s.polls| && forall i :: 0 <= i < |polls| ==> polls[i].force == s.polls[i].force
    ensures Caused(s.(polls := polls), c)
  {
    ForcedSame(polls, s.polls);
  }

  lemma ReportsDoNotMatter(s: State, t: State, c: Causes)
    requires Caused(s, c) && t == s.(last := t.last, reports := t.reports)
    ensures Caused(t, c)
  {
  }

  lemma AnsweredIsCaused(s: State, poll: nat, result: Result, c: Causes)
    requires Caused(s, c) && Active(s, poll)
    ensures Caused(Answered(s, poll, result), c)
  {
    hide Caused, Complete, Conclude;
    var p := s.polls[poll];
    SamePollsCaused(s, s.polls[poll := p.(done := true)], c);
    ConcludeIsCaused(Returned(s, poll), c);
    if !result.Unreachable? {
      var read := p.read + [Reading(result)];
      var s1 := s.(polls := s.polls[poll := p.(read := read)]);
      SamePollsCaused(s, s1.polls, c);
      if |read| == |s.services| {
        var done := Complete(s1, read, p.force);
        CompleteKeeps(s1, read, p.force);
        ReportsDoNotMatter(s1, done, c);
        SamePollsCaused(done, Returned(done, poll).polls, c);
        ConcludeIsCaused(Returned(done, poll), c);
      }
    }
  }

  lemma FireIsCaused(s: State, c: Causes)
    requires Caused(s, c) && s.timer
    ensures Caused(Fire(s), c.(fired := c.fired + 1))
  {
    ForcedMore(s.polls, Poll(s.pendingForce, [], false));
  }

  /**
   In every run the polls begun are no more than the requests and the timers that fired, however
   many file events armed the timer before it did; and the forced ones no more than the flags raised.
   */
  lemma {:induction false} OnlyWakeUpsCausePolls(services: seq<string>, events: seq<Event>)
    ensures Caused(After(services, events), CausesOf(services, events))
  {
    if events != [] {
      hide Caused, Answered, Fire, Request;
      var before, e := events[..|events| - 1], events[|events| - 1];
      var s, c := After(services, before), CausesOf(services, before);
      OnlyWakeUpsCausePolls(services, before);
      match e
      case Changed(force) => ChangeIsCaused(s, force, c);
      case Timer => if s.timer { FireIsCaused(s, c); }
      case Requested(force) => RequestIsCaused(s, force, c);
      case Read(poll, result) => if Active(s, poll) { AnsweredIsCaused(s, poll, result, c); }
      case Stopped => StopIsCaused(s, c);
    }
  }

  lemma ChangeIsCaused(s: State, force: bool, c: Causes)
    requires Caused(s, c)
    ensures Caused(Schedule(s, force), c.(changes := c.changes + 1, forces := c.forces + (if force then 1 else 0)))
  {
  }

  lemma StopIsCaused(s: State, c: Causes)
    requires Caused(s, c)
    ensures Caused(Stop(s), c)
  {
  }

  // ---------------------------------------------------------------------------
  // After a stop
  // ---------------------------------------------------------------------------

  /** Neither the timer nor the active poll will begin another. */
  predicate AtRest(s: State) {
    !s.timer && !s.pendingPoll
  }

  lemma StepStaysAtRest(s: State, e: Event)
    requires AtRest(s) && (e.Read? || e.Timer? || e.Stopped?)
    ensures AtRest(Step(s, e)) && |Step(s, e).polls| == |s.polls|
  {
    hide Answered;
    if e.Read? && Active(s, e.poll) {
      AnswerLeaves(s, e.poll, e.result);
      AnswerAtRest(s, e.poll, e.result);
    }
  }

  lemma AnswerAtRest(s: State, poll: nat, result: Result)
    requires !s.pendingPoll && Active(s, poll)
    ensures |Answered(s, poll, result).polls| == |s.polls| && !Answered(s, poll, result).pendingPoll
  {
    hide Complete;
    if !result.Unreachable? {
      var read := s.polls[poll].read + [Reading(result)];
      CompleteKeeps(s.(polls := s.polls[poll := s.polls[poll].(read := read)]), read, s.polls[poll].force);
    }
  }

  /** After `stop`, and until something asks for one, no poll is begun: not by the timer, not by the active poll. */
  lemma {:induction false} NoPollAfterStop(services: seq<string>, events: seq<Event>, more: seq<Event>)
    requires forall i :: 0 <= i < |more| ==> more[i].Read? || more[i].Timer? || more[i].Stopped?
    ensures var t := After(services, events + [Stopped] + more);
      AtRest(t) && |t.polls| == |After(services, events).polls|
    decreases |more|
  {
    hide Step;
    if more == [] {
      AfterOne(services, events, Stopped);
      assert events + [Stopped] + [] == events + [Stopped];
      StopRests(After(services, events));
    } else {
      var n := |more| - 1;
      NoPollAfterStop(services, events, more[..n]);
      AfterOne(services, events + [Stopped] + more[..n], more[n]);
      assert events + [Stopped] + more == events + [Stopped] + more[..n] + [more[n]];
      StepStaysAtRest(After(services, events + [Stopped] + more[..n]), more[n]);
    }
  }

  lemma StopRests(s: State)
    ensures AtRest(Step(s, Stopped)) && Step(s, Stopped).polls == s.polls
  {
  }
}
