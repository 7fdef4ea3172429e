/** What the credential watcher guarantees in every run. */
module WatcherGuarantees {
  import opened Options
  import JsMaps
  import opened CredentialWatchers

  // ---------------------------------------------------------------------------
  // Polls never overlap
  // ---------------------------------------------------------------------------

  /** At most one poll is active, the last one begun, and `polling` says whether it is. */
  ghost predicate OneAtATime(s: State) {
    && (forall i :: 0 <= i < |s.polls| - 1 ==> s.polls[i].done)
    && (s.polling <==> s.polls != [] && !s.polls[|s.polls| - 1].done)
    && (s.polling ==> |s.polls[|s.polls| - 1].read| < |s.services|)
    && (s.pendingPoll ==> s.polling)
  }

  /** Comparing changes only what is serialized and reported. */
  lemma CompleteKeeps(s: State, read: seq<Option<string>>, force: bool)
    requires |read| <= |s.services|
    ensures var t := Complete(s, read, force);
      t == s.(last := t.last, reports := t.reports) && s.reports <= t.reports
  {
    hide Compared, Credentials;
  }

  /** An answer either leaves the poll reading, or ends it. */
  lemma AnswerIs(s: State, poll: nat, result: Result) returns (read: seq<Option<string>>)
    requires Active(s, poll)
    ensures |read| <= |s.services|
    ensures var t := Answered(s, poll, result);
      var p := s.polls[poll];
      var s1 := s.(polls := s.polls[poll := p.(read := read)]);
      || (t == s1 && !result.Unreachable? && |read| == |p.read| + 1 < |s.services|)
      || (t == Conclude(Returned(Complete(s1, read, p.force), poll)) && !result.Unreachable?
          && |p.read| + 1 == |s.services|)
      || (t == Conclude(Returned(s, poll)) && result.Unreachable?)
  {
    hide Conclude, Complete;
    read := if result.Unreachable? then s.polls[poll].read else s.polls[poll].read + [Reading(result)];
  }

  lemma RequestKeepsOne(s: State, force: bool)
    requires OneAtATime(s) && s.services != []
    ensures OneAtATime(Request(s, force))
  {
  }

  lemma ConcludeKeepsOne(s: State, poll: nat)
    requires poll == |s.polls| - 1 && s.services != []
    requires forall i :: 0 <= i < |s.polls| - 1 ==> s.polls[i].done
    ensures OneAtATime(Conclude(Returned(s, poll)))
  {
    hide OneAtATime;
    var s1 := Returned(s, poll).(polling := false, pendingPoll := false);
    AllReturned(s1);
    AllReturned(s1.(pendingForce := false));
    RequestKeepsOne(s1.(pendingForce := false), s1.pendingForce);
  }

  lemma AllReturned(s: State)
    requires !s.polling && !s.pendingPoll && forall i :: 0 <= i < |s.polls| ==> s.polls[i].done
    ensures OneAtATime(s)
  {
  }

  /** Only the last poll can be active. */
  lemma ActiveIsLast(s: State, poll: nat)
    requires OneAtATime(s) && Active(s, poll)
    ensures poll == |s.polls| - 1 && s.polling
    ensures forall i :: 0 <= i < |s.polls| - 1 ==> s.polls[i].done
  {
  }

  lemma AnswerKeepsOne(s: State, poll: nat, result: Result)
    requires OneAtATime(s) && Active(s, poll)
    ensures OneAtATime(Answered(s, poll, result))
  {
    hide Conclude, Compared, Credentials;
    ActiveIsLast(s, poll);
    var p := s.polls[poll];
    if result.Unreachable? {
      ConcludeKeepsOne(s, poll);
    } else {
      var read := p.read + [Reading(result)];
      var s1 := s.(polls := s.polls[poll := p.(read := read)]);
      if |read| == |s.services| {
        ConcludeKeepsOne(Complete(s1, read, p.force), poll);
      }
    }
  }

  lemma StepKeepsOne(s: State, e: Event)
    requires OneAtATime(s) && s.services != []
    ensures OneAtATime(Step(s, e))
  {
    hide Answered;
    match e
    case Timer => RequestKeepsOne(s.(timer := false, pendingForce := false), s.pendingForce);
    case Requested(force) => RequestKeepsOne(s, force);
    case Read(poll, result) => if Active(s, poll) { AnswerKeepsOne(s, poll, result); }
    case _ =>
  }

  lemma StepKeepsServices(s: State, e: Event)
    ensures Step(s, e).services == s.services
  {
    hide Answered, Complete;
    if e.Read? && Active(s, e.poll) {
      var read := AnswerIs(s, e.poll, e.result);
      CompleteKeeps(s.(polls := s.polls[e.poll := s.polls[e.poll].(read := read)]), read, s.polls[e.poll].force);
    }
  }

  lemma {:induction false} PollsNeverOverlap(services: seq<string>, events: seq<Event>)
    requires services != []
    ensures OneAtATime(After(services, events)) && After(services, events).services == services
  {
    hide Step, OneAtATime;
    if events == [] {
      AllReturned(Initial(services));
    } else {
      var before := After(services, events[..|events| - 1]);
      PollsNeverOverlap(services, events[..|events| - 1]);
      StepKeepsOne(before, events[|events| - 1]);
      StepKeepsServices(before, events[|events| - 1]);
    }
  }

  // ---------------------------------------------------------------------------
  // No wake-up is lost
  // ---------------------------------------------------------------------------

  /** A poll has begun since there were `n` of them, or the armed timer or the active poll will begin one. */
  ghost predicate WakeUpHeld(s: State, n: nat) {
    |s.polls| > n || s.timer || s.pendingPoll
  }

  /** A forced poll has begun since there were `n` polls, or the one to come will be forced. */
  ghost predicate ForceHeld(s: State, n: nat) {
    || (exists i :: n <= i < |s.polls| && s.polls[i].force)
    || (s.pendingForce && (s.timer || s.pendingPoll))
  }

  predicate RaisesWakeUp(s: State, e: Event) {
    e.Changed? || e.Requested? || (e.Timer? && s.timer)
  }

  predicate RaisesForce(s: State, e: Event) {
    (e.Changed? && e.force) || (e.Requested? && e.force)
  }

  lemma RequestHolds(s: State, force: bool, n: nat)
    requires n <= |s.polls|
    ensures WakeUpHeld(Request(s, force), n)
    ensures force || (s.pendingForce && s.pendingPoll && s.polling) ==> ForceHeld(Request(s, force), n)
  {
    var t := Request(s, force);
    assert force && !s.polling ==> t.polls[|s.polls|].force;
  }

  lemma ForceStays(s: State, t: State, n: nat)
    requires |s.polls| <= |t.polls|
    requires forall i :: 0 <= i < |s.polls| ==> s.polls[i].force == t.polls[i].force
    requires exists i :: n <= i < |s.polls| && s.polls[i].force
    ensures ForceHeld(t, n)
  {
    var i :| n <= i < |s.polls| && s.polls[i].force;
    assert t.polls[i].force;
  }

  lemma PollsStay(s: State, e: Event)
    ensures |s.polls| <= |Step(s, e).polls|
    ensures forall i :: 0 <= i < |s.polls| ==> s.polls[i].force == Step(s, e).polls[i].force
  {
    hide Answered;
    if e.Read? && Active(s, e.poll) {
      AnswerKeepsPolls(s, e.poll, e.result);
    }
  }

  lemma AnswerKeepsPolls(s: State, poll: nat, result: Result)
    requires Active(s, poll)
    ensures var t := Answered(s, poll, result);
      && |s.polls| <= |t.polls|
      && (forall i :: 0 <= i < |s.polls| ==> s.polls[i].force == t.polls[i].force)
      && s.reports <= t.reports
  {
    hide Answered, Complete, Conclude;
    var read := AnswerIs(s, poll, result);
    var s1 := s.(polls := s.polls[poll := s.polls[poll].(read := read)]);
    var done := Complete(s1, read, s.polls[poll].force);
    CompleteKeeps(s1, read, s.polls[poll].force);
    ConcludeKeepsPolls(Returned(done, poll));
    ConcludeKeepsPolls(Returned(s, poll));
  }

  lemma ConcludeKeepsPolls(s: State)
    ensures s.polls <= Conclude(s).polls && Conclude(s).reports == s.reports
  {
  }

  /** How a poll that was answered leaves the flags: as they were, or concluded. */
  lemma AnswerLeaves(s: State, poll: nat, result: Result)
    requires Active(s, poll)
    ensures var t := Answered(s, poll, result);
      || (t.timer == s.timer && t.pendingPoll == s.pendingPoll && t.pendingForce == s.pendingForce)
      || (t.timer == s.timer && !t.pendingPoll
          && (s.pendingPoll ==> |t.polls| == |s.polls| + 1 && t.polls[|s.polls|].force == s.pendingForce)
          && (!s.pendingPoll ==> |t.polls| == |s.polls| && t.pendingForce == s.pendingForce))
  {
    hide Answered, Complete;
    var read := AnswerIs(s, poll, result);
    CompleteKeeps(s.(polls := s.polls[poll := s.polls[poll].(read := read)]), read, s.polls[poll].force);
  }

  lemma WakeUpStays(s: State, e: Event, n: nat)
    requires WakeUpHeld(s, n) && n <= |s.polls| && !e.Stopped?
    ensures WakeUpHeld(Step(s, e), n)
  {
    hide Answered;
    PollsStay(s, e);
    match e
    case Timer => RequestHolds(s.(timer := false, pendingForce := false), s.pendingForce, n);
    case Requested(force) => RequestHolds(s, force, n);
    case Read(poll, result) => if Active(s, poll) { AnswerLeaves(s, poll, result); }
    case _ =>
  }

  lemma ForceStaysHeld(s: State, e: Event, n: nat)
    requires ForceHeld(s, n) && OneAtATime(s) && n <= |s.polls| && !e.Stopped?
    ensures ForceHeld(Step(s, e), n)
  {
    hide Answered;
    PollsStay(s, e);
    if exists i :: n <= i < |s.polls| && s.polls[i].force {
      ForceStays(s, Step(s, e), n);
    } else {
      match e
      case Timer =>
        if s.timer {
          RequestHolds(s.(timer := false, pendingForce := false), s.pendingForce, n);
        }
      case Requested(force) =>
      case Read(poll, result) =>
        if Active(s, poll) {
          AnswerLeaves(s, poll, result);
          var t := Answered(s, poll, result);
          assert |t.polls| == |s.polls| + 1 ==> t.polls[|s.polls|].force == s.pendingForce || ForceHeld(t, n);
        }
      case _ =>
    }
  }

  /** What event `i` raises is held just after it. */
  lemma RaisedIsHeld(s: State, e: Event)
    requires OneAtATime(s)
    ensures RaisesWakeUp(s, e) ==> WakeUpHeld(Step(s, e), |s.polls|)
    ensures RaisesForce(s, e) ==> ForceHeld(Step(s, e), |s.polls|)
  {
    hide Answered;
    if e.Requested? {
      RequestHolds(s, e.force, |s.polls|);
    } else if e.Timer? && s.timer {
      RequestHolds(s.(timer := false, pendingForce := false), s.pendingForce, |s.polls|);
    }
  }

  ghost predicate NeverStopped(events: seq<Event>) {
    forall i :: 0 <= i < |events| ==> !events[i].Stopped?
  }

  /**
   Without `stop`, what event `i` raises stays held: by a poll that began at the event or later,
   by the armed timer, or by the active poll, which begins another when it returns.
   */
  lemma {:induction false} NothingRaisedIsDropped(services: seq<string>, events: seq<Event>, i: nat)
    requires services != [] && NeverStopped(events) && i < |events|
    ensures var s, t := After(services, events[..i]), After(services, events);
      && |s.polls| <= |t.polls|
      && (RaisesWakeUp(s, events[i]) ==> WakeUpHeld(t, |s.polls|))
      && (RaisesForce(s, events[i]) ==> ForceHeld(t, |s.polls|))
    decreases |events|
  {
    hide Step, OneAtATime, WakeUpHeld, ForceHeld, RaisesWakeUp, RaisesForce;
    var m := |events| - 1;
    var before := After(services, events[..m]);
    PollsNeverOverlap(services, events[..m]);
    if i == m {
      RaisedIsHeld(before, events[m]);
      PollsStay(before, events[m]);
    } else {
      NothingRaisedIsDropped(services, events[..m], i);
      assert events[..m][..i] == events[..i];
      var n := |After(services, events[..i]).polls|;
      PollsStay(before, events[m]);
      if WakeUpHeld(before, n) {
        WakeUpStays(before, events[m], n);
      }
      if ForceHeld(before, n) {
        ForceStaysHeld(before, events[m], n);
      }
    }
  }

  /** Once nothing is under way, every wake-up has had its poll, and every force flag a forced one. */
  lemma QuietMeansPolled(services: seq<string>, events: seq<Event>, i: nat)
    requires services != [] && NeverStopped(events) && i < |events|
    requires var t := After(services, events); !t.timer && !t.polling
    ensures var s, t := After(services, events[..i]), After(services, events);
      && (RaisesWakeUp(s, events[i]) ==> |t.polls| > |s.polls|)
      && (RaisesForce(s, events[i]) ==> exists p :: |s.polls| <= p < |t.polls| && t.polls[p].force)
  {
    hide After, RaisesWakeUp, RaisesForce;
    PollsNeverOverlap(services, events);
    NothingRaisedIsDropped(services, events, i);
  }

  // ---------------------------------------------------------------------------
  // The reports replay to the last complete poll
  // ---------------------------------------------------------------------------

  /** The event completes a poll: the last service is read. */
  predicate Completes(s: State, e: Event) {
    e.Read? && Active(s, e.poll) && !e.result.Unreachable? && |s.polls[e.poll].read| + 1 == |s.services|
  }

  /** What the last complete poll read. */
  function LastComplete(services: seq<string>, events: seq<Event>): map<string, Option<string>>
    requires services != []
  {
    if events == [] then map[]
    else
      var m := |events| - 1;
      var s, e := After(services, events[..m]), events[m];
      if Completes(s, e) && |s.polls[e.poll].read| + 1 <= |services| then
        Credentials(services, s.polls[e.poll].read + [Reading(e.result)])
      else LastComplete(services, events[..m])
  }

  /** The credentials that are there. */
  function Available(credentials: map<string, Option<string>>): map<string, string> {
    map x | x in credentials && credentials[x].Some? :: credentials[x].value
  }

  /** A replica brought up to date with the services a report names as changed. */
  function Apply(replica: map<string, string>, r: Report): map<string, string> {
    (replica - r.changed) + (map x | x in r.changed && x in r.credentials && r.credentials[x].Some? :: r.credentials[x].value)
  }

  function Replay(reports: seq<Report>): map<string, string> {
    if reports == [] then map[] else Apply(Replay(reports[..|reports| - 1]), reports[|reports| - 1])
  }

  lemma {:induction false} ComparedService(
      services: seq<string>, last: map<string, string>, read: seq<Option<string>>, force: bool, i: nat)
    requires JsMaps.NoRepeats(services) && i < |read| <= |services|
    ensures var (serialized, changed) := Compared(services, last, read, force);
      && Value(serialized, services[i]) == read[i]
      && (services[i] in changed <==> Differs(last, services[i], read[i], force))
    decreases |read|
  {
    var j := |read| - 1;
    if i == j {
      ComparedOther(services, last, read[..j], force, services[j]);
    } else {
      ComparedService(services, last, read[..j], force, i);
      assert services[i] != services[j];
    }
  }

  lemma {:induction false} ComparedOther(
      services: seq<string>, last: map<string, string>, read: seq<Option<string>>, force: bool, x: string)
    requires |read| <= |services| && forall i :: 0 <= i < |read| ==> services[i] != x
    ensures var (serialized, changed) := Compared(services, last, read, force);
      Value(serialized, x) == Value(last, x) && x !in changed
    decreases |read|
  {
    if read != [] {
      var j := |read| - 1;
      ComparedOther(services, last, read[..j], force, x);
      assert services[j] != x;
    }
  }

  lemma {:induction false} CredentialsOf(services: seq<string>, read: seq<Option<string>>, x: string)
    requires JsMaps.NoRepeats(services) && |read| <= |services|
    ensures x in Credentials(services, read) ==>
      exists i :: 0 <= i < |read| && services[i] == x && Credentials(services, read)[x] == read[i]
    ensures x !in Credentials(services, read) ==> forall i :: 0 <= i < |read| ==> services[i] != x
    decreases |read|
  {
    if read != [] {
      CredentialsOf(services, read[..|read| - 1], x);
    }
  }

  /** One service after a complete poll. */
  lemma CompletedAt(s: State, read: seq<Option<string>>, force: bool, x: string)
    requires JsMaps.NoRepeats(s.services) && |read| == |s.services| && (x in s.last ==> x in s.services)
    ensures var creds := Credentials(s.services, read);
      var (serialized, changed) := Compared(s.services, s.last, read, force);
      && Value(serialized, x) == (if x in creds then creds[x] else None)
      && (x in changed <==> x in creds && Differs(s.last, x, creds[x], force))
  {
    hide Credentials, Compared, Differs;
    CredentialsOf(s.services, read, x);
    if x in Credentials(s.services, read) {
      var i :| 0 <= i < |read| && s.services[i] == x && Credentials(s.services, read)[x] == read[i];
      ComparedService(s.services, s.last, read, force, i);
    } else {
      ComparedOther(s.services, s.last, read, force, x);
      assert x !in s.services;
    }
  }

  /**
   A complete poll leaves as serialized what it read, and reports exactly the services whose
   credentials differ from the previous complete poll's, and when forced every service that has
   credentials.
   */
  lemma CompleteReports(s: State, read: seq<Option<string>>, force: bool)
    requires JsMaps.NoRepeats(s.services) && |read| == |s.services| && s.last.Keys <= (set x | x in s.services)
    ensures var creds := Credentials(s.services, read);
      var t := Complete(s, read, force);
      && t.last == Available(creds)
      && (if exists x :: x in creds && Differs(s.last, x, creds[x], force) then
            && |t.reports| == |s.reports| + 1 && t.reports[..|s.reports|] == s.reports
            && t.reports[|s.reports|].credentials == creds
            && (forall x :: x in t.reports[|s.reports|].changed <==> x in creds && Differs(s.last, x, creds[x], force))
          else t.reports == s.reports)
      && t.last.Keys <= (set x | x in s.services)
  {
    hide Credentials, Compared, Differs, Available, Complete;
    var creds := Credentials(s.services, read);
    var (serialized, changed) := Compared(s.services, s.last, read, force);
    forall x
      ensures Value(serialized, x) == (if x in creds then creds[x] else None)
      ensures x in changed <==> x in creds && Differs(s.last, x, creds[x], force)
      ensures x in serialized ==> x in s.services
    {
      CompletedAt(s, read, force, x);
      CredentialsOf(s.services, read, x);
    }
    MapIsAvailable(serialized, creds);
    CompleteIs(s, read, force);
  }

  lemma CompleteIs(s: State, read: seq<Option<string>>, force: bool)
    requires |read| <= |s.services|
    ensures var t := Complete(s, read, force);
      var (serialized, changed) := Compared(s.services, s.last, read, force);
      && t.last == serialized
      && (if exists x :: x in changed then t.reports == s.reports + [Report(Credentials(s.services, read), changed)]
          else t.reports == s.reports)
  {
    hide Credentials, Compared;
    var changed := Compared(s.services, s.last, read, force).1;
    assert changed == {} <==> !exists x :: x in changed;
  }

  /** What a complete poll reports, told from the credentials of the previous one. */
  lemma ReportNamesTheChanges(s: State, read: seq<Option<string>>, force: bool)
    requires JsMaps.NoRepeats(s.services) && |read| == |s.services|
    requires s.last.Keys <= (set x | x in s.services)
    ensures var t := Complete(s, read, force);
      var changed := set i | 0 <= i < |read| &&
          (read[i] != (if s.services[i] in s.last then Some(s.last[s.services[i]]) else None) || (force && read[i] != None))
        :: s.services[i];
      if changed == {} then t.reports == s.reports
      else |t.reports| == |s.reports| + 1 && t.reports[|s.reports|].changed == changed
  {
    hide Credentials, Compared, Complete;
    var (serialized, named) := Compared(s.services, s.last, read, force);
    forall i | 0 <= i < |read|
      ensures s.services[i] in named <==> Differs(s.last, s.services[i], read[i], force)
    {
      ComparedService(s.services, s.last, read, force, i);
    }
    forall x | x in named
      ensures x in s.services
    {
      NamedIsService(s, read, force, x);
    }
    CompleteIs(s, read, force);
    var changed := set i | 0 <= i < |read| &&
        (read[i] != (if s.services[i] in s.last then Some(s.last[s.services[i]]) else None) || (force && read[i] != None))
      :: s.services[i];
    assert named == changed;
    assert changed == {} <==> !exists x :: x in named;
  }

  lemma NamedIsService(s: State, read: seq<Option<string>>, force: bool, x: string)
    requires JsMaps.NoRepeats(s.services) && |read| == |s.services|
    requires x in Compared(s.services, s.last, read, force).1
    ensures x in s.services
  {
    hide Compared;
    if x !in s.services {
      ComparedOther(s.services, s.last, read, force, x);
    }
  }

  lemma MapIsAvailable(m: map<string, string>, creds: map<string, Option<string>>)
    requires forall x :: Value(m, x) == (if x in creds then creds[x] else None)
    ensures m == Available(creds)
  {
    forall x
      ensures x in m <==> x in Available(creds)
      ensures x in m ==> m[x] == Available(creds)[x]
    {
      assert Value(m, x) == (if x in creds then creds[x] else None);
    }
  }

  /** Applying what a complete poll reports to the previous state gives the new one. */
  lemma ReportApplies(s: State, read: seq<Option<string>>, force: bool)
    requires JsMaps.NoRepeats(s.services) && |read| == |s.services| && s.last.Keys <= (set x | x in s.services)
    requires Replay(s.reports) == s.last
    ensures var t := Complete(s, read, force); Replay(t.reports) == t.last
  {
    hide Credentials, Compared, Complete, Replay;
    CompleteReports(s, read, force);
    var creds := Credentials(s.services, read);
    var t := Complete(s, read, force);
    forall x | x in s.last
      ensures x in creds
    {
      CredentialsOf(s.services, read, x);
    }
    if exists x :: x in creds && Differs(s.last, x, creds[x], force) {
      var r := t.reports[|s.reports|];
      assert t.reports == t.reports[..|s.reports|] + [r];
      ReplayMore(s.reports, r);
      AppliedIsAvailable(s.last, r, force);
    } else {
      NothingDiffers(s.last, creds, force);
    }
  }

  lemma ReplayMore(reports: seq<Report>, r: Report)
    ensures Replay(reports + [r]) == Apply(Replay(reports), r)
  {
    assert (reports + [r])[..|reports|] == reports;
  }

  lemma AppliedIsAvailable(last: map<string, string>, r: Report, force: bool)
    requires forall x :: x in r.changed <==> x in r.credentials && Differs(last, x, r.credentials[x], force)
    requires forall x :: x in last ==> x in r.credentials
    ensures Apply(last, r) == Available(r.credentials)
  {
    var applied, available := Apply(last, r), Available(r.credentials);
    forall x
      ensures x in applied <==> x in available
      ensures x in applied ==> applied[x] == available[x]
    {
    }
  }

  lemma NothingDiffers(last: map<string, string>, creds: map<string, Option<string>>, force: bool)
    requires forall x :: x in creds ==> !Differs(last, x, creds[x], force)
    requires forall x :: x in last ==> x in creds
    ensures last == Available(creds)
  {
    var available := Available(creds);
    forall x
      ensures x in last <==> x in available
      ensures x in last ==> last[x] == available[x]
    {
    }
  }

  ghost predicate Replays(s: State, complete: map<string, Option<string>>) {
    && s.last == Available(complete) && Replay(s.reports) == s.last
    && s.last.Keys <= (set x | x in s.services)
  }

  /** A step that does not complete a poll changes neither what is serialized nor what is reported. */
  lemma OnlyCompletionReports(s: State, e: Event)
    requires !Completes(s, e)
    ensures Step(s, e).last == s.last && Step(s, e).reports == s.reports
  {
    hide Answered, Complete, Conclude;
    if e.Read? && Active(s, e.poll) {
      var read := AnswerIs(s, e.poll, e.result);
      ConcludeKeepsReports(Returned(s, e.poll));
    }
  }

  lemma CompletionReports(s: State, e: Event)
    requires Completes(s, e)
    ensures var read := s.polls[e.poll].read + [Reading(e.result)];
      var t := Complete(s, read, s.polls[e.poll].force);
      Step(s, e).last == t.last && Step(s, e).reports == t.reports && Step(s, e).services == s.services
  {
    hide Complete, Conclude, Credentials;
    var p := s.polls[e.poll];
    var read := p.read + [Reading(e.result)];
    var s1 := s.(polls := s.polls[e.poll := p.(read := read)]);
    CompleteIgnoresPolls(s, s1, read, p.force);
    ConcludeKeepsReports(Returned(Complete(s1, read, p.force), e.poll));
  }

  lemma CompleteIgnoresPolls(s: State, t: State, read: seq<Option<string>>, force: bool)
    requires t == s.(polls := t.polls) && |read| <= |s.services|
    ensures Complete(t, read, force) == Complete(s, read, force).(polls := t.polls)
    ensures Complete(s, read, force).services == s.services
  {
    hide Compared, Credentials;
  }

  lemma ConcludeKeepsReports(s: State)
    ensures var t := Conclude(s); t.last == s.last && t.reports == s.reports && t.services == s.services
  {
  }

  lemma StepReplays(s: State, e: Event, complete: map<string, Option<string>>)
    requires JsMaps.NoRepeats(s.services) && Replays(s, complete)
    ensures Replays(Step(s, e),
                    if Completes(s, e) then Credentials(s.services, s.polls[e.poll].read + [Reading(e.result)])
                    else complete)
  {
    hide Step, Complete, Credentials, Replay, Available, Completes;
    StepKeepsServices(s, e);
    if Completes(s, e) {
      CompletesMeans(s, e);
      var read := s.polls[e.poll].read + [Reading(e.result)];
      CompletionReports(s, e);
      CompleteReports(s, read, s.polls[e.poll].force);
      ReportApplies(s, read, s.polls[e.poll].force);
    } else {
      OnlyCompletionReports(s, e);
    }
  }

  lemma CompletesMeans(s: State, e: Event)
    requires Completes(s, e)
    ensures e.Read? && e.poll < |s.polls| && |s.polls[e.poll].read| + 1 == |s.services|
  {
  }

  /**
   In every run, a replica that starts empty and follows the reports holds what the last complete
   poll read, and so does the watcher; polls that met an unreachable vault have changed nothing.
   */
  lemma {:induction false} ReportsReplay(services: seq<string>, events: seq<Event>)
    requires services != [] && JsMaps.NoRepeats(services)
    ensures var s := After(services, events);
      && Replay(s.reports) == Available(LastComplete(services, events)) == s.last
      && Replays(s, LastComplete(services, events)) && s.services == services
  {
    if events == [] {
      assert Available(map[]) == map[];
    } else {
      hide Step, Credentials, Completes, Replay, Available;
      var m := |events| - 1;
      var s, e := After(services, events[..m]), events[m];
      ReportsReplay(services, events[..m]);
      StepReplays(s, e, LastComplete(services, events[..m]));
      StepKeepsServices(s, e);
      if Completes(s, e) {
        CompletesMeans(s, e);
      }
    }
  }

  // ---------------------------------------------------------------------------
  // When a forced change is reported
  // ---------------------------------------------------------------------------

  function Before(services: seq<string>, events: seq<Event>, k: nat): State
    requires k <= |events|
  {
    After(services, events[..k])
  }

  lemma BeforeStep(services: seq<string>, events: seq<Event>, k: nat)
    requires k < |events|
    ensures Before(services, events, k + 1) == Step(Before(services, events, k), events[k])
  {
    hide Step;
    assert events[..k + 1][..k] == events[..k];
  }

  /** Event `k` answers a read of the poll with `Unreachable`. */
  ghost predicate MeetsOutage(services: seq<string>, events: seq<Event>, k: nat, poll: nat)
    requires k < |events|
  {
    events[k] == Read(poll, Unreachable) && Active(Before(services, events, k), poll)
  }

  /** Some read of the poll is answered with `Unreachable`. */
  ghost predicate Interrupted(services: seq<string>, events: seq<Event>, poll: nat) {
    exists k: nat :: k < |events| && MeetsOutage(services, events, k, poll)
  }

  /** The event completes the poll, whose report then names every service that has credentials. */
  ghost predicate ReportsAll(s: State, e: Event, poll: nat) {
    && Completes(s, e) && e.poll == poll
    && var creds := Credentials(s.services, s.polls[poll].read + [Reading(e.result)]);
       var t := Step(s, e);
       forall x :: x in Available(creds) ==>
         && |t.reports| == |s.reports| + 1 && t.reports[|s.reports|].credentials == creds
         && x in t.reports[|s.reports|].changed
  }

  /** The poll has read all services and reported those that have credentials. */
  ghost predicate Reported(services: seq<string>, events: seq<Event>, poll: nat) {
    exists k: nat :: k < |events| && ReportsAll(Before(services, events, k), events[k], poll)
  }

  /** The event ends the poll: its last service is read, or the vault is unreachable. */
  predicate Ends(s: State, e: Event, poll: nat) {
    e.Read? && e.poll == poll && Active(s, poll)
    && (e.result.Unreachable? || |s.polls[poll].read| + 1 == |s.services|)
  }

  lemma StepEnds(s: State, e: Event, poll: nat)
    requires OneAtATime(s)
    ensures poll < |Step(s, e).polls| && Step(s, e).polls[poll].done <==>
            (poll < |s.polls| && s.polls[poll].done) || Ends(s, e, poll)
  {
    hide Complete;
    match e
    case Read(p, result) =>
      if Active(s, p) {
        ActiveIsLast(s, p);
        var read := AnswerIs(s, p, result);
        CompleteKeeps(s.(polls := s.polls[p := s.polls[p].(read := read)]), read, s.polls[p].force);
      }
    case _ =>
  }

  /** A poll that has returned was ended by exactly one event. */
  lemma {:induction false} DoneWasEnded(services: seq<string>, events: seq<Event>, poll: nat) returns (k: nat)
    requires services != []
    requires var s := After(services, events); poll < |s.polls| && s.polls[poll].done
    ensures k < |events| && Ends(Before(services, events, k), events[k], poll)
    ensures forall i: nat :: i < |events| && Ends(Before(services, events, i), events[i], poll) ==> i == k
    decreases |events|
  {
    hide Step, Ends, OneAtATime;
    var m := |events| - 1;
    var before := After(services, events[..m]);
    PollsNeverOverlap(services, events[..m]);
    StepEnds(before, events[m], poll);
    if poll < |before.polls| && before.polls[poll].done {
      k := DoneWasEnded(services, events[..m], poll);
      assert events[..m][..k] == events[..k];
      DoneIsNotEnded(before, events[m], poll);
      forall i: nat | i < |events| && Ends(Before(services, events, i), events[i], poll)
        ensures i == k
      {
        assert i < m ==> events[..m][..i] == events[..i] && events[..m][i] == events[i];
      }
    } else {
      k := m;
      forall i: nat | i < m
        ensures !Ends(Before(services, events, i), events[i], poll)
      {
        EndedStaysDone(services, events[..m], i, poll);
        assert events[..m][..i] == events[..i] && events[..m][i] == events[i];
      }
    }
  }

  lemma DoneIsNotEnded(s: State, e: Event, poll: nat)
    requires poll < |s.polls| && s.polls[poll].done
    ensures !Ends(s, e, poll)
  {
  }

  lemma {:induction false} EndedStaysDone(services: seq<string>, events: seq<Event>, i: nat, poll: nat)
    requires services != [] && i < |events|
    ensures Ends(Before(services, events, i), events[i], poll) ==>
      var s := After(services, events); poll < |s.polls| && s.polls[poll].done
    decreases |events|
  {
    hide Step, Ends, OneAtATime;
    var m := |events| - 1;
    PollsNeverOverlap(services, events[..m]);
    StepEnds(After(services, events[..m]), events[m], poll);
    if i < m {
      EndedStaysDone(services, events[..m], i, poll);
      assert events[..m][..i] == events[..i];
    }
  }

  lemma {:induction false} ForceIsKept(services: seq<string>, events: seq<Event>, k: nat, poll: nat)
    requires k <= |events| && poll < |Before(services, events, k).polls|
    ensures poll < |After(services, events).polls|
    ensures After(services, events).polls[poll].force == Before(services, events, k).polls[poll].force
    decreases |events|
  {
    hide Step;
    if k < |events| {
      var m := |events| - 1;
      assert events[..m][..k] == events[..k];
      ForceIsKept(services, events[..m], k, poll);
      PollsStay(After(services, events[..m]), events[m]);
    } else {
      assert events[..k] == events;
    }
  }

  /** A forced poll that reads all services reports every one that has credentials. */
  lemma ForcedReportsAll(s: State, e: Event)
    requires JsMaps.NoRepeats(s.services) && s.last.Keys <= (set x | x in s.services)
    requires Completes(s, e) && s.polls[e.poll].force
    ensures ReportsAll(s, e, e.poll)
  {
    hide Step, Complete, Credentials, Completes;
    CompletesMeans(s, e);
    var read := s.polls[e.poll].read + [Reading(e.result)];
    CompletionReports(s, e);
    CompleteReports(s, read, true);
    var creds := Credentials(s.services, read);
    forall x | x in Available(creds)
      ensures Differs(s.last, x, creds[x], true)
    {
    }
  }

  /** A forced poll that has returned has reported all credentials, unless the vault was unreachable. */
  lemma ReportedUnlessInterrupted(services: seq<string>, events: seq<Event>, poll: nat)
    requires services != [] && JsMaps.NoRepeats(services)
    requires var s := After(services, events); poll < |s.polls| && s.polls[poll].done && s.polls[poll].force
    ensures Reported(services, events, poll) <==> !Interrupted(services, events, poll)
  {
    hide After, Step, Active, ReportsAll, Completes, Replays;
    var k := DoneWasEnded(services, events, poll);
    var s := Before(services, events, k);
    EndsIs(s, events[k], poll);
    forall i: nat | i < |events|
      ensures MeetsOutage(services, events, i, poll) ==> Ends(Before(services, events, i), events[i], poll)
      ensures ReportsAll(Before(services, events, i), events[i], poll) ==>
        Ends(Before(services, events, i), events[i], poll) && !MeetsOutage(services, events, i, poll)
    {
      OutageEnds(Before(services, events, i), events[i], poll);
      ReportEnds(Before(services, events, i), events[i], poll);
    }
    if events[k].result.Unreachable? {
      assert MeetsOutage(services, events, k, poll);
    } else {
      ForceIsKept(services, events, k, poll);
      ReportsReplay(services, events[..k]);
      ReplaysMeans(s, LastComplete(services, events[..k]));
      ForcedReportsAll(s, events[k]);
    }
  }

  lemma ReplaysMeans(s: State, complete: map<string, Option<string>>)
    requires Replays(s, complete)
    ensures s.last.Keys <= (set x | x in s.services)
  {
  }

  lemma EndsIs(s: State, e: Event, poll: nat)
    requires Ends(s, e, poll)
    ensures e.Read? && e.poll == poll && Active(s, poll) && poll < |s.polls|
    ensures e.result.Unreachable? || Completes(s, e)
  {
  }

  lemma OutageEnds(s: State, e: Event, poll: nat)
    ensures e == Read(poll, Unreachable) && Active(s, poll) ==> Ends(s, e, poll)
  {
  }

  lemma ReportEnds(s: State, e: Event, poll: nat)
    ensures ReportsAll(s, e, poll) ==> Ends(s, e, poll) && !e.result.Unreachable?
  {
    hide Credentials, Step, Available;
  }

  /**
   A forced change is reported, exactly: let event `i` of a run without `stop` raise the force
   flag, and let nothing be under way when the run ends. Some forced poll begun at the event or
   later has read all services and reported every one that has credentials if and only if some
   forced poll begun since had none of its reads answered with `Unreachable`.
   */
  lemma ForcedChangeIsReported(services: seq<string>, events: seq<Event>, i: nat)
    requires services != [] && JsMaps.NoRepeats(services) && NeverStopped(events) && i < |events|
    requires RaisesForce(Before(services, events, i), events[i])
    requires var t := After(services, events); !t.timer && !t.polling
    ensures var n, t := |Before(services, events, i).polls|, After(services, events);
      && (exists p :: n <= p < |t.polls| && t.polls[p].force)
      && ((exists p :: n <= p < |t.polls| && t.polls[p].force && Reported(services, events, p))
          <==> (exists p :: n <= p < |t.polls| && t.polls[p].force && !Interrupted(services, events, p)))
  {
    hide After, RaisesForce, Reported, Interrupted;
    var n, t := |Before(services, events, i).polls|, After(services, events);
    QuietMeansPolled(services, events, i);
    PollsNeverOverlap(services, events);
    forall p | n <= p < |t.polls| && t.polls[p].force
      ensures Reported(services, events, p) <==> !Interrupted(services, events, p)
    {
      ReportedUnlessInterrupted(services, events, p);
    }
  }

  /** A forced poll is active, or the armed timer or the active poll will begin one. */
  ghost predicate ForceAlive(s: State) {
    || (exists i :: 0 <= i < |s.polls| && !s.polls[i].done && s.polls[i].force)
    || (s.pendingForce && (s.timer || s.pendingPoll))
  }

  /**
   A poll that ends because the vault is unreachable reports nothing, and its own force flag is
   gone: a forced poll is still to come exactly when the flag was raised again meanwhile and a poll
   is to follow.
   */
  lemma UnreachableSwallowsForce(s: State, poll: nat)
    requires OneAtATime(s) && Active(s, poll)
    ensures var t := Answered(s, poll, Unreachable);
      && t.reports == s.reports && t.last == s.last
      && (ForceAlive(t) <==> s.pendingForce && (s.timer || s.pendingPoll))
  {
    ActiveIsLast(s, poll);
    var t := Answered(s, poll, Unreachable);
    if s.pendingPoll {
      assert t.polls[|s.polls|] == Poll(s.pendingForce, [], false);
    }
  }

  lemma AfterOne(services: seq<string>, events: seq<Event>, e: Event)
    ensures After(services, events + [e]) == Step(After(services, events), e)
  {
    hide Step;
    assert (events + [e])[..|events|] == events;
  }

  /** A single service that is found as it was last serialized: a report only if the poll is forced. */
  lemma ReadOnce(s: State, service: string, credentials: string)
    requires s.services == [service] && s.polling && !s.pendingPoll && s.polls != []
    requires s.polls[|s.polls| - 1] == Poll(false, [], false)
    ensures var t := Step(s, Read(|s.polls| - 1, Found(credentials)));
      && t.services == s.services && !t.polling && !t.pendingPoll && !t.timer == !s.timer
      && t.pendingForce == s.pendingForce && |t.polls| == |s.polls| && t.last == s.last[service := credentials]
      && |t.reports| == |s.reports| + (if Value(s.last, service) == Some(credentials) then 0 else 1)
  {
    hide Complete, Conclude;
    var poll, read := |s.polls| - 1, [Some(credentials)];
    assert [] + read == read;
    var s1 := s.(polls := s.polls[poll := Poll(false, read, false)]);
    CompleteOne(s1, service, credentials);
    CompleteKeeps(s1, read, false);
    ConcludeQuietly(Returned(Complete(s1, read, false), poll));
  }

  lemma ConcludeQuietly(s: State)
    requires !s.pendingPoll
    ensures Conclude(s) == s.(polling := false)
  {
  }

  lemma CompleteOne(s: State, service: string, credentials: string)
    requires s.services == [service]
    ensures var t := Complete(s, [Some(credentials)], false);
      && t.last == s.last[service := credentials]
      && |t.reports| == |s.reports| + (if Value(s.last, service) == Some(credentials) then 0 else 1)
  {
    hide Credentials;
    var read := [Some(credentials)];
    assert read[..0] == [];
    assert Compared([service], s.last, [], false) == (s.last, {});
    if Value(s.last, service) == Some(credentials) {
      assert s.last[service := credentials] == s.last;
    } else {
      assert {} + {service} == {service} && service in {service};
    }
  }

  /** A credential saved again during an outage is announced, and never reported. */
  lemma ForcedChangeIsMissed(service: string, credentials: string)
    ensures var known := [Requested(false), Read(0, Found(credentials))];
      var saved := known + [Changed(true), Timer, Read(1, Unreachable)];
      var restored := saved + [Changed(false), Timer, Read(2, Found(credentials))];
      && |After([service], known).reports| == 1
      && After([service], restored).reports == After([service], saved).reports == After([service], known).reports
  {
    hide Step, After;
    var known := [Requested(false), Read(0, Found(credentials))];
    var s := After([service], known);
    FirstPoll(service, credentials);
    var saved := known + [Changed(true), Timer, Read(1, Unreachable)];
    AfterThree([service], known, Changed(true), Timer, Read(1, Unreachable));
    AfterThree([service], saved, Changed(false), Timer, Read(2, Found(credentials)));
    UnreachablePoll(s);
    var t := Step(Step(After([service], saved), Changed(false)), Timer);
    PlainPoll(After([service], saved));
    ReadOnce(t, service, credentials);
    assert Value(t.last, service) == Some(credentials);
    LongerReports(t, Read(2, Found(credentials)));
  }

  lemma AfterThree(services: seq<string>, events: seq<Event>, a: Event, b: Event, c: Event)
    ensures After(services, events + [a, b, c]) == Step(Step(Step(After(services, events), a), b), c)
  {
    hide Step, After;
    AfterOne(services, events, a);
    AfterOne(services, events + [a], b);
    AfterOne(services, events + [a] + [b], c);
    assert events + [a] + [b] + [c] == events + [a, b, c];
  }

  lemma LongerReports(s: State, e: Event)
    ensures s.reports <= Step(s, e).reports
  {
    hide Answered;
    if e.Read? && Active(s, e.poll) {
      AnswerKeepsPolls(s, e.poll, e.result);
    }
  }

  lemma FirstPoll(service: string, credentials: string)
    ensures var s := After([service], [Requested(false), Read(0, Found(credentials))]);
      && s.services == [service] && !s.polling && !s.pendingPoll && !s.timer && !s.pendingForce
      && |s.polls| == 1 && s.last == map[service := credentials] && |s.reports| == 1
  {
    hide Step;
    var s := Step(Initial([service]), Requested(false));
    AfterOne([service], [], Requested(false));
    AfterOne([service], [] + [Requested(false)], Read(0, Found(credentials)));
    assert [] + [Requested(false)] + [Read(0, Found(credentials))] == [Requested(false), Read(0, Found(credentials))];
    Begun(Initial([service]));
    ReadOnce(s, service, credentials);
  }

  lemma Begun(s: State)
    requires !s.polling
    ensures Step(s, Requested(false)) == s.(polling := true, polls := s.polls + [Poll(false, [], false)])
  {
  }

  lemma PlainPoll(s: State)
    requires !s.polling && !s.pendingForce
    ensures Step(Step(s, Changed(false)), Timer)
         == s.(polling := true, timer := false, polls := s.polls + [Poll(false, [], false)])
  {
  }

  lemma UnreachablePoll(s: State)
    requires |s.services| == 1 && !s.polling && !s.pendingPoll && !s.timer
    ensures var t := Step(Step(Step(s, Changed(true)), Timer), Read(|s.polls|, Unreachable));
      && t.services == s.services && !t.polling && !t.pendingPoll && !t.timer && !t.pendingForce
      && |t.polls| == |s.polls| + 1 && t.last == s.last && t.reports == s.reports
  {
  }
}
