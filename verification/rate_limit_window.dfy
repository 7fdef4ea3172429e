/**
 What the limiter's answer means: the failures in the window, counted over the whole log of
 failures, of which nothing is ever pruned.
 */
module RateLimitWindow {
  import opened JsMaps
  import opened AuthRateLimiters

  datatype Event = Failed(now: int, ip: string) | Asked(now: int, ip: string) | Cleared(ip: string)

  function Initial(maxFailures: int, windowMs: int): State {
    State(maxFailures, windowMs, Empty())
  }

  function Step(s: State, e: Event): State {
    match e
    case Failed(now, ip) => Record(s, now, ip)
    case Asked(now, ip) => Check(s, now, ip).0
    case Cleared(ip) => Clear(s, ip)
  }

  function After(maxFailures: int, windowMs: int, events: seq<Event>): State {
    if events == [] then Initial(maxFailures, windowMs)
    else Step(After(maxFailures, windowMs, events[..|events| - 1]), events[|events| - 1])
  }

  /** The failures of `ip` since it was last cleared. */
  function Log(events: seq<Event>, ip: string): seq<int> {
    if events == [] then []
    else
      var log, e := Log(events[..|events| - 1], ip), events[|events| - 1];
      if e.Failed? && e.ip == ip then log + [e.now] else if e.Cleared? && e.ip == ip then [] else log
  }

  /** The event makes room at the cap by dropping the entry of `ip`. */
  predicate CapDrops(s: State, e: Event, ip: string) {
    e.Failed? && e.ip !in s.failures.vals && |s.failures.keys| >= MAX_TRACKED_IPS
    && var left := Evicted(s.failures, e.now - s.windowMs);
       |left.keys| >= MAX_TRACKED_IPS && left.keys[0] == ip
  }

  /** The failures of `ip` since it was last cleared or dropped at the cap. */
  function Tracked(maxFailures: int, windowMs: int, events: seq<Event>, ip: string): seq<int> {
    if events == [] then []
    else
      var m := |events| - 1;
      var log, e := Tracked(maxFailures, windowMs, events[..m], ip), events[m];
      if CapDrops(After(maxFailures, windowMs, events[..m]), e, ip) then []
      else if e.Failed? && e.ip == ip then log + [e.now]
      else if e.Cleared? && e.ip == ip then []
      else log
  }

  function CountAfter(times: seq<int>, cutoff: int): nat {
    if times == [] then 0
    else CountAfter(times[..|times| - 1], cutoff) + (if times[|times| - 1] > cutoff then 1 else 0)
  }

  /** The time of the last event that reads the clock. */
  function Clock(events: seq<Event>, start: int): int {
    if events == [] then start
    else
      var e := events[|events| - 1];
      if e.Cleared? then Clock(events[..|events| - 1], start) else e.now
  }

  /** The clock does not run backwards. */
  predicate InTime(events: seq<Event>, start: int) {
    events == [] ||
    (InTime(events[..|events| - 1], start)
     && Clock(events[..|events| - 1], start) <= Clock(events, start))
  }

  // ---------------------------------------------------------------------------
  // Counting
  // ---------------------------------------------------------------------------

  ghost predicate Sorted(times: seq<int>) {
    forall i, j :: 0 <= i < j < |times| ==> times[i] <= times[j]
  }

  lemma CountMore(times: seq<int>, t: int, cutoff: int)
    ensures CountAfter(times + [t], cutoff) == CountAfter(times, cutoff) + (if t > cutoff then 1 else 0)
  {
    assert (times + [t])[..|times|] == times;
  }

  lemma {:induction false} CountHead(times: seq<int>, cutoff: int)
    requires times != []
    ensures CountAfter(times, cutoff) == CountAfter(times[1..], cutoff) + (if times[0] > cutoff then 1 else 0)
    decreases |times|
  {
    var n := |times| - 1;
    if n > 0 {
      CountHead(times[..n], cutoff);
      assert times[..n][1..] == times[1..][..n - 1];
    }
  }

  lemma {:induction false} CountAll(times: seq<int>, cutoff: int)
    requires forall i :: 0 <= i < |times| ==> times[i] > cutoff
    ensures CountAfter(times, cutoff) == |times|
  {
    if times != [] {
      CountAll(times[..|times| - 1], cutoff);
    }
  }

  lemma {:induction false} CountNone(times: seq<int>, cutoff: int)
    requires forall i :: 0 <= i < |times| ==> times[i] <= cutoff
    ensures CountAfter(times, cutoff) == 0
  {
    if times != [] {
      CountNone(times[..|times| - 1], cutoff);
    }
  }

  /** Pruning does not change a later count; of sorted times it leaves exactly those in the window. */
  lemma {:induction false} PrunedCounts(times: seq<int>, cutoff: int, later: int)
    requires cutoff <= later
    ensures CountAfter(Pruned(times, cutoff), later) == CountAfter(times, later)
    ensures Sorted(times) ==> Sorted(Pruned(times, cutoff)) && |Pruned(times, cutoff)| == CountAfter(times, cutoff)
    ensures forall i :: 0 <= i < |Pruned(times, cutoff)| ==> Pruned(times, cutoff)[i] in times
  {
    hide CountAfter;
    if times != [] && times[0] <= cutoff {
      CountHead(times, later);
      CountHead(times, cutoff);
      PrunedCounts(times[1..], cutoff, later);
    } else if Sorted(times) {
      CountAll(times, cutoff);
    }
  }

  // ---------------------------------------------------------------------------
  // What the lists hold
  // ---------------------------------------------------------------------------

  function ListOf(m: Failures, ip: string): seq<int> {
    if ip in m.vals then m.vals[ip] else []
  }

  /** A list is sorted and no later than the clock, and its window counts are those of the log. */
  ghost predicate Stands(times: seq<int>, log: seq<int>, clock: int, windowMs: int) {
    && Sorted(times)
    && (forall i :: 0 <= i < |times| ==> times[i] <= clock)
    && (forall cutoff :: cutoff >= clock - windowMs ==> CountAfter(times, cutoff) == CountAfter(log, cutoff))
  }

  lemma StandsLater(times: seq<int>, log: seq<int>, clock: int, now: int, windowMs: int)
    requires Stands(times, log, clock, windowMs) && clock <= now
    ensures Stands(times, log, now, windowMs)
  {
    hide CountAfter;
  }

  lemma PrunedStands(times: seq<int>, log: seq<int>, now: int, windowMs: int)
    requires Stands(times, log, now, windowMs)
    ensures Stands(Pruned(times, now - windowMs), log, now, windowMs)
    ensures |Pruned(times, now - windowMs)| == CountAfter(log, now - windowMs)
  {
    hide CountAfter, Pruned, Sorted;
    var left := Pruned(times, now - windowMs);
    PrunedCounts(times, now - windowMs, now - windowMs);
    forall cutoff | cutoff >= now - windowMs
      ensures CountAfter(left, cutoff) == CountAfter(log, cutoff)
    {
      PrunedCounts(times, now - windowMs, cutoff);
    }
  }

  lemma PushStands(times: seq<int>, log: seq<int>, now: int, windowMs: int)
    requires Stands(times, log, now, windowMs)
    ensures Stands(times + [now], log + [now], now, windowMs)
  {
    hide CountAfter;
    forall cutoff | cutoff >= now - windowMs
      ensures CountAfter(times + [now], cutoff) == CountAfter(log + [now], cutoff)
    {
      CountMore(times, now, cutoff);
      CountMore(log, now, cutoff);
    }
  }

  lemma NothingStands(clock: int, windowMs: int)
    ensures Stands([], [], clock, windowMs)
  {
  }

  /** Every list is non-empty, and the map is in order and within its size. */
  ghost predicate Fits(m: Failures) {
    && m.Valid()
    && |m.keys| <= MAX_TRACKED_IPS
    && forall ip :: ip in m.vals ==> m.vals[ip] != []
  }

  lemma EvictedFits(m: Failures, cutoff: int)
    requires Fits(m)
    ensures Fits(Evicted(m, cutoff)) && |Evicted(m, cutoff).keys| <= |m.keys|
  {
    hide Pruned, Kept;
    KeepValid(m, Alive(cutoff));
    var kept, left := m.Keep(Alive(cutoff)), Evicted(m, cutoff);
    assert kept.keys == left.keys && forall ip :: ip in kept.vals <==> ip in left.vals;
  }

  lemma RoomFits(s: State, now: int)
    requires Fits(s.failures)
    ensures Fits(MakeRoom(s, now)) && |MakeRoom(s, now).keys| < MAX_TRACKED_IPS
  {
    hide JsMap.Valid, Evicted, JsMap.Remove;
    EvictedFits(s.failures, now - s.windowMs);
    var left := Evicted(s.failures, now - s.windowMs);
    DropOldestValid(left);
    if left.keys != [] {
      RemovedLists(left, left.keys[0]);
    }
  }

  lemma RemovedLists(m: Failures, x: string)
    ensures forall ip :: ListOf(m.Remove(x), ip) == if ip == x then [] else ListOf(m, ip)
    ensures forall ip :: ip in m.Remove(x).vals ==> ip in m.vals && m.Remove(x).vals[ip] == m.vals[ip]
  {
  }

  lemma StepFits(s: State, e: Event)
    requires Fits(s.failures)
    ensures Fits(Step(s, e).failures)
  {
    hide JsMap.Valid, MakeRoom, JsMap.Remove, Pruned;
    match e
    case Failed(now, ip) =>
      RoomFits(s, now);
      PutFits(s.failures, ip, ListOf(s.failures, ip) + [now]);
      PutFits(MakeRoom(s, now), ip, [now]);
    case Asked(now, ip) =>
      if ip in s.failures.vals {
        var left := Pruned(s.failures.vals[ip], now - s.windowMs);
        RemoveFits(s.failures, ip);
        if left != [] {
          PutFits(s.failures, ip, left);
        }
      }
    case Cleared(ip) => RemoveFits(s.failures, ip);
  }

  lemma PutFits(m: Failures, ip: string, times: seq<int>)
    requires Fits(m) && times != []
    ensures ip in m.vals || |m.keys| < MAX_TRACKED_IPS ==> Fits(m.Put(ip, times))
  {
    PutValid(m, ip, times);
  }

  lemma RemoveFits(m: Failures, ip: string)
    requires Fits(m)
    ensures Fits(m.Remove(ip))
  {
    hide JsMap.Valid;
    RemoveValid(m, ip);
    RemovedLists(m, ip);
  }

  lemma {:induction false} AlwaysFits(maxFailures: int, windowMs: int, events: seq<Event>)
    ensures Fits(After(maxFailures, windowMs, events).failures)
  {
    hide Step;
    if events != [] {
      hide Fits;
      AlwaysFits(maxFailures, windowMs, events[..|events| - 1]);
      StepFits(After(maxFailures, windowMs, events[..|events| - 1]), events[|events| - 1]);
    }
  }

  // ---------------------------------------------------------------------------
  // The lists stand for the log
  // ---------------------------------------------------------------------------

  /** Making room prunes a list, or drops it, or leaves it. */
  lemma RoomList(s: State, now: int, ip: string, who: string)
    requires Fits(s.failures) && who !in s.failures.vals
    ensures ListOf(MakeRoom(s, now), ip) ==
      if CapDrops(s, Failed(now, who), ip) then []
      else if |s.failures.keys| >= MAX_TRACKED_IPS then Pruned(ListOf(s.failures, ip), now - s.windowMs)
      else ListOf(s.failures, ip)
  {
    hide Pruned, Kept, JsMap.Valid, JsMap.Remove;
    var left := Evicted(s.failures, now - s.windowMs);
    EvictedList(s.failures, now - s.windowMs, ip);
    if |left.keys| >= MAX_TRACKED_IPS {
      RemovedLists(left, left.keys[0]);
    }
  }

  lemma EvictedList(m: Failures, cutoff: int, ip: string)
    ensures ListOf(Evicted(m, cutoff), ip) == Pruned(ListOf(m, ip), cutoff)
  {
    hide Kept;
  }

  /** One event, as it changes what is tracked of `ip`. */
  function TrackedStep(s: State, e: Event, ip: string, log: seq<int>): seq<int> {
    if CapDrops(s, e, ip) then []
    else if e.Failed? && e.ip == ip then log + [e.now]
    else if e.Cleared? && e.ip == ip then []
    else log
  }

  lemma StepStands(s: State, e: Event, ip: string, log: seq<int>, clock: int)
    requires Fits(s.failures)
    requires Stands(ListOf(s.failures, ip), log, clock, s.windowMs)
    ensures var now := if e.Cleared? then clock else e.now;
      clock <= now ==> Stands(ListOf(Step(s, e).failures, ip), TrackedStep(s, e, ip, log), now, s.windowMs)
  {
    hide Stands, Fits, MakeRoom, CapDrops;
    var list := ListOf(s.failures, ip);
    match e
    case Cleared(who) =>
      RemovedLists(s.failures, who);
      NotDropped(s, e, ip);
      NothingStands(clock, s.windowMs);
    case Asked(now, who) =>
      NotDropped(s, e, ip);
      if clock <= now {
        StandsLater(list, log, clock, now, s.windowMs);
        PrunedStands(list, log, now, s.windowMs);
        RemovedLists(s.failures, who);
      }
    case Failed(now, who) =>
      if clock <= now {
        StandsLater(list, log, clock, now, s.windowMs);
        FailedStands(s, now, who, ip, log);
      }
  }

  lemma NotDropped(s: State, e: Event, ip: string)
    requires !e.Failed?
    ensures !CapDrops(s, e, ip)
  {
  }

  lemma FailedStands(s: State, now: int, who: string, ip: string, log: seq<int>)
    requires Fits(s.failures)
    requires Stands(ListOf(s.failures, ip), log, now, s.windowMs)
    ensures Stands(ListOf(Record(s, now, who).failures, ip), TrackedStep(s, Failed(now, who), ip, log), now, s.windowMs)
  {
    hide Stands, Fits, MakeRoom, CapDrops;
    var list := ListOf(s.failures, ip);
    if who in s.failures.vals {
      KnownIsNotDropped(s, now, who, ip);
      PushStands(list, log, now, s.windowMs);
    } else {
      RoomList(s, now, ip, who);
      PrunedStands(list, log, now, s.windowMs);
      NothingStands(now, s.windowMs);
      var room := ListOf(MakeRoom(s, now), ip);
      if who == ip {
        NewIsNotDropped(s, now, who);
        assert list == [];
        PushStands([], log, now, s.windowMs);
        assert [] + [now] == [now];
      }
    }
  }

  lemma KnownIsNotDropped(s: State, now: int, who: string, ip: string)
    requires who in s.failures.vals
    ensures !CapDrops(s, Failed(now, who), ip)
  {
  }

  lemma NewIsNotDropped(s: State, now: int, who: string)
    requires Fits(s.failures)
    ensures !CapDrops(s, Failed(now, who), who)
  {
    hide Pruned, Kept;
    if who !in s.failures.vals && |s.failures.keys| >= MAX_TRACKED_IPS {
      EvictedFits(s.failures, now - s.windowMs);
      var left := Evicted(s.failures, now - s.windowMs);
      if left.keys != [] {
        assert left.keys[0] in left.keys;
        assert left.keys[0] in left.vals;
      }
    }
  }

  lemma {:induction false} ListsStand(maxFailures: int, windowMs: int, events: seq<Event>, start: int, ip: string)
    requires InTime(events, start)
    ensures Stands(ListOf(After(maxFailures, windowMs, events).failures, ip),
                   Tracked(maxFailures, windowMs, events, ip), Clock(events, start), windowMs)
    ensures After(maxFailures, windowMs, events).windowMs == windowMs
    ensures After(maxFailures, windowMs, events).maxFailures == maxFailures
  {
    hide Stands, Step, CapDrops;
    if events == [] {
      NothingStands(start, windowMs);
    } else {
      var m := |events| - 1;
      var s := After(maxFailures, windowMs, events[..m]);
      ListsStand(maxFailures, windowMs, events[..m], start, ip);
      AlwaysFits(maxFailures, windowMs, events[..m]);
      StepStands(s, events[m], ip, Tracked(maxFailures, windowMs, events[..m], ip), Clock(events[..m], start));
      StepKeepsLimits(s, events[m]);
    }
  }

  lemma StepKeepsLimits(s: State, e: Event)
    ensures Step(s, e).windowMs == s.windowMs && Step(s, e).maxFailures == s.maxFailures
  {
    hide MakeRoom;
  }

  /**
   The answer is exact: an ip is blocked when, and only when, as many of its failures as the
   limit lie in the window, counting those since it was last cleared or dropped at the cap.
   */
  lemma BlockedExactly(maxFailures: int, windowMs: int, events: seq<Event>, start: int, now: int, ip: string)
    requires maxFailures >= 1 && InTime(events, start) && Clock(events, start) <= now
    ensures Check(After(maxFailures, windowMs, events), now, ip).1
       <==> CountAfter(Tracked(maxFailures, windowMs, events, ip), now - windowMs) >= maxFailures
  {
    hide Stands, CountAfter, Pruned;
    var s := After(maxFailures, windowMs, events);
    var log := Tracked(maxFailures, windowMs, events, ip);
    ListsStand(maxFailures, windowMs, events, start, ip);
    StandsLater(ListOf(s.failures, ip), log, Clock(events, start), now, windowMs);
    PrunedStands(ListOf(s.failures, ip), log, now, windowMs);
    NothingPruned(now - windowMs);
  }

  lemma NothingPruned(cutoff: int)
    ensures Pruned([], cutoff) == []
  {
  }

  /** The whole log has at least the failures that are still tracked. */
  lemma {:induction false} TrackedIsLess(maxFailures: int, windowMs: int, events: seq<Event>, ip: string, cutoff: int)
    ensures CountAfter(Tracked(maxFailures, windowMs, events, ip), cutoff) <= CountAfter(Log(events, ip), cutoff)
  {
    hide CountAfter, CapDrops, After;
    NoneCounted(cutoff);
    if events != [] {
      var m := |events| - 1;
      var tracked, log, e := Tracked(maxFailures, windowMs, events[..m], ip), Log(events[..m], ip), events[m];
      TrackedIsLess(maxFailures, windowMs, events[..m], ip, cutoff);
      if e.Failed? {
        CountMore(tracked, e.now, cutoff);
        CountMore(log, e.now, cutoff);
      }
    }
  }

  lemma NoneCounted(cutoff: int)
    ensures CountAfter([], cutoff) == 0
  {
  }

  /** Whoever is blocked has as many failures as the limit in the window, over the whole log. */
  lemma BlockedIsDeserved(maxFailures: int, windowMs: int, events: seq<Event>, start: int, now: int, ip: string)
    requires InTime(events, start) && Clock(events, start) <= now
    requires Check(After(maxFailures, windowMs, events), now, ip).1
    ensures CountAfter(Log(events, ip), now - windowMs) >= maxFailures
  {
    hide Check, CountAfter, After;
    if maxFailures >= 1 {
      BlockedExactly(maxFailures, windowMs, events, start, now, ip);
      TrackedIsLess(maxFailures, windowMs, events, ip, now - windowMs);
    }
  }

  /** The entry of `ip` was dropped at the cap since `ip` was last cleared. */
  predicate Dropped(maxFailures: int, windowMs: int, events: seq<Event>, ip: string) {
    events != [] &&
    var m := |events| - 1;
    || CapDrops(After(maxFailures, windowMs, events[..m]), events[m], ip)
    || (events[m] != Cleared(ip) && Dropped(maxFailures, windowMs, events[..m], ip))
  }

  lemma {:induction false} TrackedIsAll(maxFailures: int, windowMs: int, events: seq<Event>, ip: string)
    requires !Dropped(maxFailures, windowMs, events, ip)
    ensures Tracked(maxFailures, windowMs, events, ip) == Log(events, ip)
  {
    if events != [] {
      hide CapDrops, After;
      var m := |events| - 1;
      if events[m] != Cleared(ip) {
        TrackedIsAll(maxFailures, windowMs, events[..m], ip);
      }
    }
  }

  /** Unless the cap dropped it, an ip is blocked exactly by its failures in the window. */
  lemma BlockedByTheWindow(maxFailures: int, windowMs: int, events: seq<Event>, start: int, now: int, ip: string)
    requires maxFailures >= 1 && InTime(events, start) && Clock(events, start) <= now
    requires !Dropped(maxFailures, windowMs, events, ip)
    ensures Check(After(maxFailures, windowMs, events), now, ip).1
       <==> CountAfter(Log(events, ip), now - windowMs) >= maxFailures
  {
    BlockedExactly(maxFailures, windowMs, events, start, now, ip);
    TrackedIsAll(maxFailures, windowMs, events, ip);
  }

  /** In every run in time, each list is non-empty, sorted, and no later than the clock. */
  lemma ListsAreSorted(maxFailures: int, windowMs: int, events: seq<Event>, start: int, ip: string)
    requires InTime(events, start)
    ensures var m := After(maxFailures, windowMs, events).failures;
      && |m.keys| <= MAX_TRACKED_IPS
      && (ip in m.vals ==> m.vals[ip] != [] && Sorted(m.vals[ip]) && m.vals[ip][|m.vals[ip]| - 1] <= Clock(events, start))
  {
    hide CountAfter, After, Clock, InTime;
    ListsStand(maxFailures, windowMs, events, start, ip);
    AlwaysFits(maxFailures, windowMs, events);
  }

  /** At most 50000 ips are tracked, and none is dropped while there are fewer. */
  lemma DropsOnlyAtTheCap(maxFailures: int, windowMs: int, events: seq<Event>, e: Event, ip: string)
    ensures var s := After(maxFailures, windowMs, events);
      && |s.failures.keys| <= 50000
      && (CapDrops(s, e, ip) ==> |s.failures.keys| == 50000 && e.Failed? && e.ip != ip)
  {
    hide After, Evicted;
    AlwaysFits(maxFailures, windowMs, events);
    var s := After(maxFailures, windowMs, events);
    if e.Failed? && e.ip !in s.failures.vals {
      NewIsNotDropped(s, e.now, e.ip);
    }
  }
}
