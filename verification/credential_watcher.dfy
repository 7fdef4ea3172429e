/**
 The credential watcher: polls read every service in turn, one await each; file events arm a
 debounce timer; a request that finds a poll under way asks for another one after it.
 */
module CredentialWatchers {
  import opened Options

  /** What reading a service's credentials gives; `Found` holds them serialized. */
  datatype Result = Found(credentials: string) | Missing | Unreachable

  /** A run of `pollOnce` past its guard: what it has read so far, and whether it has returned. */
  datatype Poll = Poll(force: bool, read: seq<Option<string>>, done: bool)

  /** What the callback is given. */
  datatype Report = Report(credentials: map<string, Option<string>>, changed: set<string>)

  datatype State = State(
    services: seq<string>, polling: bool, pendingPoll: bool, pendingForce: bool, timer: bool,
    last: map<string, string>, polls: seq<Poll>, reports: seq<Report>)

  /** The credentials read of the first services. */
  function Credentials(services: seq<string>, read: seq<Option<string>>): map<string, Option<string>>
    requires |read| <= |services|
  {
    if read == [] then map[]
    else
      var i := |read| - 1;
      Credentials(services, read[..i])[services[i] := read[i]]
  }

  function Value<V>(m: map<string, V>, service: string): Option<V> {
    if service in m then Some(m[service]) else None
  }

  /** Whether a service is reported, given what was serialized last. */
  predicate Differs(last: map<string, string>, service: string, value: Option<string>, force: bool) {
    value != Value(last, service) || (force && value.Some?)
  }

  function Update(last: map<string, string>, service: string, value: Option<string>): map<string, string> {
    if value.Some? then last[service := value.value] else last - {service}
  }

  /** The comparison of the first services with what was serialized last. */
  function Compared(services: seq<string>, last: map<string, string>, read: seq<Option<string>>, force: bool)
    : (map<string, string>, set<string>)
    requires |read| <= |services|
  {
    if read == [] then (last, {})
    else
      var i := |read| - 1;
      var (serialized, changed) := Compared(services, last, read[..i], force);
      if Differs(serialized, services[i], read[i], force) then
        (Update(serialized, services[i], read[i]), changed + {services[i]})
      else (serialized, changed)
  }

  function Request(s: State, force: bool): State {
    if s.polling then s.(pendingPoll := true, pendingForce := s.pendingForce || force)
    else s.(polling := true, polls := s.polls + [Poll(force, [], false)])
  }

  /** The poll's `finally`. */
  function Conclude(s: State): State {
    var s1 := s.(polling := false);
    if s1.pendingPoll then Request(s1.(pendingPoll := false, pendingForce := false), s1.pendingForce) else s1
  }

  function Schedule(s: State, force: bool): State {
    s.(pendingForce := s.pendingForce || force, timer := true)
  }

  function Fire(s: State): State {
    Request(s.(timer := false, pendingForce := false), s.pendingForce)
  }

  predicate Active(s: State, poll: nat) {
    poll < |s.polls| && !s.polls[poll].done && |s.polls[poll].read| < |s.services|
  }

  function Returned(s: State, poll: nat): State
    requires poll < |s.polls|
  {
    s.(polls := s.polls[poll := s.polls[poll].(done := true)])
  }

  function Reading(result: Result): Option<string> {
    if result.Found? then Some(result.credentials) else None
  }

  /** All services are read: compare, and report what changed. */
  function Complete(s: State, read: seq<Option<string>>, force: bool): State
    requires |read| <= |s.services|
  {
    var (serialized, changed) := Compared(s.services, s.last, read, force);
    var s1 := s.(last := serialized);
    if changed == {} then s1 else s1.(reports := s1.reports + [Report(Credentials(s.services, read), changed)])
  }

  function Answered(s: State, poll: nat, result: Result): State
    requires Active(s, poll)
  {
    if result.Unreachable? then Conclude(Returned(s, poll))
    else
      var p := s.polls[poll];
      var read := p.read + [Reading(result)];
      var s1 := s.(polls := s.polls[poll := p.(read := read)]);
      if |read| < |s.services| then s1 else Conclude(Returned(Complete(s1, read, p.force), poll))
  }

  function Stop(s: State): State {
    s.(timer := false, pendingPoll := false)
  }

  class CredentialWatcher {
    const services: seq<string>
    var polling: bool
    var pendingPoll: bool
    var pendingForceChanged: bool
    /** Whether the debounce timer is armed. */
    var timer: bool
    var lastSerialized: map<string, string>
    /** The polls begun, and the events handed to the callback. */
    var polls: seq<Poll>
    var reports: seq<Report>

    ghost function View(): State
      reads this
    {
      State(services, polling, pendingPoll, pendingForceChanged, timer, lastSerialized, polls, reports)
    }

    constructor (services: seq<string>)
      ensures View() == Initial(services)
    {
      this.services := services;
      polling, pendingPoll, pendingForceChanged, timer := false, false, false, false;
      lastSerialized, polls, reports := map[], [], [];
    }

    method ScheduleCheck(forceChanged: bool)
      modifies this
      ensures View() == Schedule(old(View()), forceChanged)
    {
      if forceChanged {
        pendingForceChanged := true;
      }
      timer := true;
    }

    method OnTimer()
      modifies this
      ensures View() == Fire(old(View()))
    {
      timer := false;
      var force := pendingForceChanged;
      pendingForceChanged := false;
      PollOnce(force);
    }

    /** `pollOnce` up to its first await. */
    method PollOnce(forceChanged: bool)
      modifies this
      ensures View() == Request(old(View()), forceChanged)
    {
      if polling {
        pendingPoll := true;
        if forceChanged {
          pendingForceChanged := true;
        }
        return;
      }
      polling := true;
      polls := polls + [Poll(forceChanged, [], false)];
    }

    /** The poll's continuation when a service's credentials have been read. */
    method OnRead(poll: nat, result: Result)
      requires Active(View(), poll)
      modifies this
      ensures View() == Answered(old(View()), poll, result)
    {
      if result.Unreachable? {
        polls := polls[poll := polls[poll].(done := true)];
        Finally();
        return;
      }
      polls := polls[poll := polls[poll].(read := polls[poll].read + [Reading(result)])];
      if |polls[poll].read| == |services| {
        CompareAll(polls[poll].read, polls[poll].force);
        polls := polls[poll := polls[poll].(done := true)];
        Finally();
      }
    }

    method CompareAll(read: seq<Option<string>>, forceChanged: bool)
      requires |read| <= |services|
      modifies this`lastSerialized, this`reports
      ensures View() == Complete(old(View()), read, forceChanged)
    {
      var changed: set<string> := {};
      for i := 0 to |read|
        invariant (lastSerialized, changed) == Compared(services, old(lastSerialized), read[..i], forceChanged)
        invariant reports == old(reports)
      {
        var service, newVal := services[i], read[i];
        var oldVal := if service in lastSerialized then Some(lastSerialized[service]) else None;
        assert read[..i + 1][..i] == read[..i];
        if newVal != oldVal || (forceChanged && newVal.Some?) {
          changed := changed + {service};
          if newVal.Some? {
            lastSerialized := lastSerialized[service := newVal.value];
          } else {
            lastSerialized := lastSerialized - {service};
          }
        }
      }
      assert read[..|read|] == read;
      if changed == {} {
        return;
      }
      reports := reports + [Report(Credentials(services, read), changed)];
    }

    method Finally()
      modifies this
      ensures View() == Conclude(old(View()))
    {
      polling := false;
      if pendingPoll {
        pendingPoll := false;
        var force := pendingForceChanged;
        pendingForceChanged := false;
        PollOnce(force);
      }
    }

    method StopWatching()
      modifies this
      ensures View() == Stop(old(View()))
    {
      timer := false;
      pendingPoll := false;
    }
  }

  // ---------------------------------------------------------------------------
  // Runs
  // ---------------------------------------------------------------------------

  datatype Event =
    | Changed(force: bool)
    | Timer
    | Requested(force: bool)
    | Read(poll: nat, result: Result)
    | Stopped

  function Initial(services: seq<string>): State {
    State(services, false, false, false, false, map[], [], [])
  }

  /** A timer that is not armed does not fire; only an active poll's read is answered. */
  function Step(s: State, e: Event): State {
    match e
    case Changed(force) => Schedule(s, force)
    case Timer => if s.timer then Fire(s) else s
    case Requested(force) => Request(s, force)
    case Read(poll, result) => if Active(s, poll) then Answered(s, poll, result) else s
    case Stopped => Stop(s)
  }

  function After(services: seq<string>, events: seq<Event>): State {
    if events == [] then Initial(services)
    else Step(After(services, events[..|events| - 1]), events[|events| - 1])
  }
}
