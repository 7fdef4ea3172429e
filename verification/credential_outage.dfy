/** What callers of the credential cache can rely on during outages and after rotations. */
module CredentialGuarantees {
  import opened Options
  import opened CredentialCaches

  // ---------------------------------------------------------------------------
  // The most recent successful read
  // ---------------------------------------------------------------------------

  /** Event `j` read `v`, and nothing since has told otherwise: no invalidation, no reachable read. */
  ghost predicate MostRecent(ttl: int, events: seq<Event>, j: int, key: string, v: string) {
    && Reads(ttl, events, j, key, Value(v))
    && (forall i :: j < i < |events| ==> !events[i].InvalidateEvent?)
    && (forall i, r :: j < i < |events| && Reads(ttl, events, i, key, r) ==> r.Unreachable? || r.Failed?)
  }

  lemma ReadsPrefix(ttl: int, events: seq<Event>, n: nat, i: int, key: string, r: Result)
    requires n <= |events| && i < n
    ensures Reads(ttl, events[..n], i, key, r) <==> Reads(ttl, events, i, key, r)
  {
    if 0 <= i {
      assert events[..n][..i] == events[..i];
    }
  }

  /** `MostRecent`, judged by the first `n` events. */
  ghost predicate RecentIn(ttl: int, events: seq<Event>, n: nat, j: int, key: string, v: string)
    requires n <= |events|
  {
    && j < n && Reads(ttl, events, j, key, Value(v))
    && (forall i :: j < i < n ==> !events[i].InvalidateEvent?)
    && (forall i, r :: j < i < n && Reads(ttl, events, i, key, r) ==> r.Unreachable? || r.Failed?)
  }

  lemma RecentInPrefix(ttl: int, events: seq<Event>, n: nat, j: int, key: string, v: string)
    requires n <= |events|
    ensures MostRecent(ttl, events[..n], j, key, v) <==> RecentIn(ttl, events, n, j, key, v)
  {
    hide Reads;
    var init := events[..n];
    forall i, r | i < n
      ensures Reads(ttl, init, i, key, r) <==> Reads(ttl, events, i, key, r)
    {
      ReadsPrefix(ttl, events, n, i, key, r);
    }
    ReadsInRange(ttl, init, j, key, Value(v));
    ReadsInRange(ttl, events, j, key, Value(v));
    if RecentIn(ttl, events, n, j, key, v) {
      assert forall i :: j < i < n ==> init[i] == events[i];
    }
    if MostRecent(ttl, init, j, key, v) {
      forall i | j < i < n ensures !events[i].InvalidateEvent? { assert !init[i].InvalidateEvent?; }
    }
  }

  lemma ReadsInRange(ttl: int, events: seq<Event>, i: int, key: string, r: Result)
    ensures Reads(ttl, events, i, key, r) ==> 0 <= i < |events|
  {
  }

  lemma MostRecentPrefix(ttl: int, events: seq<Event>, j: int, key: string, v: string)
    requires events != [] && j < |events| - 1
    ensures var i := |events| - 1;
      MostRecent(ttl, events, j, key, v)
      <==> (MostRecent(ttl, events[..i], j, key, v) && !events[i].InvalidateEvent?
            && forall r :: Reads(ttl, events, i, key, r) ==> r.Unreachable? || r.Failed?)
  {
    hide Reads, MostRecent;
    RecentInPrefix(ttl, events, |events| - 1, j, key, v);
    RecentInPrefix(ttl, events, |events|, j, key, v);
    assert events[..|events|] == events;
    ReadsInRange(ttl, events, j, key, Value(v));
  }

  lemma OneResult(ttl: int, events: seq<Event>, i: int, key: string, r: Result)
    requires Reads(ttl, events, i, key, r)
    ensures 0 <= i < |events| && r == events[i].result
    ensures !events[i].InvalidateEvent?
  {
  }

  /** What the cache knows is what the most recent successful read since the last invalidation said. */
  lemma {:induction false} KnowledgeIsMostRecent(ttl: int, events: seq<Event>, key: string, v: string)
    ensures Knows(ttl, events, key) == Known(Some(v)) <==> exists j :: MostRecent(ttl, events, j, key, v)
  {
    hide Reads, MostRecent;
    if events == [] {
      NothingRecent(ttl, key, v);
    } else {
      var i := |events| - 1;
      var init := events[..i];
      KnowledgeIsMostRecent(ttl, init, key, v);
      forall j ensures j < i ==>
          (MostRecent(ttl, events, j, key, v)
          <==> (MostRecent(ttl, init, j, key, v) && !events[i].InvalidateEvent?
                && forall r :: Reads(ttl, events, i, key, r) ==> r.Unreachable? || r.Failed?))
      {
        if j < i { MostRecentPrefix(ttl, events, j, key, v); }
      }
      forall j ensures MostRecent(ttl, events, j, key, v) ==> j <= i { RecentIsAnEvent(ttl, events, j, key, v); }
      forall j ensures MostRecent(ttl, init, j, key, v) ==> j < i { RecentIsAnEvent(ttl, init, j, key, v); }
      LastIsRecent(ttl, events, key, v);
      if exists r :: Reads(ttl, events, i, key, r) {
        var r :| Reads(ttl, events, i, key, r);
        OneResult(ttl, events, i, key, r);
        forall q ensures Reads(ttl, events, i, key, q) ==> q == r {
          if Reads(ttl, events, i, key, q) { OneResult(ttl, events, i, key, q); }
        }
      }
    }
  }

  lemma NothingRecent(ttl: int, key: string, v: string)
    ensures forall j :: !MostRecent(ttl, [], j, key, v)
  {
  }

  lemma RecentIsAnEvent(ttl: int, events: seq<Event>, j: int, key: string, v: string)
    ensures MostRecent(ttl, events, j, key, v) ==> 0 <= j < |events|
  {
  }

  lemma LastIsRecent(ttl: int, events: seq<Event>, key: string, v: string)
    requires events != []
    ensures MostRecent(ttl, events, |events| - 1, key, v) <==> Reads(ttl, events, |events| - 1, key, Value(v))
  {
    hide Reads;
  }

  // ---------------------------------------------------------------------------
  // Outages
  // ---------------------------------------------------------------------------

  /** A read that has not settled, or has settled without hiding the known value. */
  ghost predicate Sticky(s: State, id: nat, key: string, v: string) {
    && id < |s.issued| && s.issued[id].key == key
    && match s.issued[id].outcome
       case None => s.issued[id].generation == s.generation
       case Some(outcome) => outcome == Resolved(Some(v)) || outcome == Rejected
  }

  lemma FetchKeepsReads(s: State, key: string)
    ensures var (t, id) := Fetch(s, key);
      |s.issued| <= |t.issued| && t.issued[..|s.issued|] == s.issued && t.generation == s.generation
  {
  }

  lemma {:induction false} FetchAllKeepsReads(s: State, keys: seq<string>)
    ensures var t := FetchAll(s, keys);
      |s.issued| <= |t.issued| && t.issued[..|s.issued|] == s.issued && t.generation == s.generation
  {
    hide Fetch;
    if keys != [] {
      var mid := FetchAll(s, keys[..|keys| - 1]);
      FetchAllKeepsReads(s, keys[..|keys| - 1]);
      FetchKeepsReads(mid, keys[|keys| - 1]);
      var t := FetchAll(s, keys);
      assert t.issued[..|s.issued|] == t.issued[..|mid.issued|][..|s.issued|];
    }
  }

  /** No event but its own settlement touches a read that was begun. */
  lemma StepKeepsRead(s: State, e: Event, id: nat)
    requires id < |s.issued| && !(e.SettleEvent? && e.read == id)
    ensures id < |Step(s, e).issued| && Step(s, e).issued[id] == s.issued[id]
    ensures !e.InvalidateEvent? ==> Step(s, e).generation == s.generation
  {
    hide Fetch, FetchAll;
    match e
    case GetEvent(_, key, _) =>
      FetchKeepsReads(s, key);
      KeptAt(s.issued, Fetch(s, key).0.issued, id);
    case RefreshEvent(keys) =>
      FetchAllKeepsReads(s, keys);
      KeptAt(s.issued, FetchAll(s, keys).issued, id);
    case _ =>
  }

  lemma KeptAt<T>(xs: seq<T>, ys: seq<T>, i: nat)
    requires i < |xs| <= |ys| && ys[..|xs|] == xs
    ensures ys[i] == xs[i]
  {
    assert ys[..|xs|][i] == ys[i];
  }

  lemma {:induction false} StaysSticky(ttl: int, events: seq<Event>, j: int, key: string, v: string, b: nat, id: nat, n: nat)
    requires MostRecent(ttl, events, j, key, v) && j < b <= n <= |events|
    requires Sticky(Before(ttl, events, b), id, key, v)
    ensures Sticky(Before(ttl, events, n), id, key, v)
    decreases n
  {
    hide Before, Step, MostRecent, Sticky;
    if b < n {
      var i := n - 1;
      StaysSticky(ttl, events, j, key, v, b, id, i);
      BeforeStep(ttl, events, i);
      KnownDuring(ttl, events, j, key, v, i);
      NotRefuted(ttl, events, j, key, v, i);
      StepSticky(Before(ttl, events, i), events[i], id, key, v);
    }
  }

  lemma NotRefuted(ttl: int, events: seq<Event>, j: int, key: string, v: string, i: nat)
    requires MostRecent(ttl, events, j, key, v) && j < i < |events|
    ensures Harmless(Before(ttl, events, i), events[i], key)
  {
    var s, e := Before(ttl, events, i), events[i];
    if e.SettleEvent? && Pending(s, e.read) && s.issued[e.read].key == key
       && s.issued[e.read].generation == s.generation {
      assert Reads(ttl, events, i, key, e.result);
    }
  }

  /** A pending read of the key that no invalidation has overtaken. */
  predicate Current(s: State, id: nat, key: string) {
    Pending(s, id) && s.issued[id].key == key && s.issued[id].generation == s.generation
  }

  /** The event neither invalidates nor settles a current read of the key reachably. */
  ghost predicate Harmless(s: State, e: Event, key: string) {
    && !e.InvalidateEvent?
    && (e.SettleEvent? && Current(s, e.read, key) ==> e.result.Unreachable? || e.result.Failed?)
  }

  lemma StepSticky(s: State, e: Event, id: nat, key: string, v: string)
    requires Sticky(s, id, key, v) && Harmless(s, e, key) && Cached(s, key) == Known(Some(v))
    ensures Sticky(Step(s, e), id, key, v)
  {
    hide Fetch, FetchAll, Settle;
    if e.SettleEvent? && e.read == id {
      if Pending(s, id) {
        SettledSticky(s, e.now, id, e.result, key, v);
      }
    } else {
      StepKeepsRead(s, e, id);
    }
  }

  lemma SettledSticky(s: State, now: int, id: nat, result: Result, key: string, v: string)
    requires Pending(s, id) && Sticky(s, id, key, v) && Cached(s, key) == Known(Some(v))
    requires result.Unreachable? || result.Failed?
    ensures Sticky(Settle(s, now, id, result), id, key, v)
  {
  }

  lemma KnownDuring(ttl: int, events: seq<Event>, j: int, key: string, v: string, n: nat)
    requires MostRecent(ttl, events, j, key, v) && j < n <= |events|
    ensures Cached(Before(ttl, events, n), key) == Known(Some(v))
  {
    hide Reads, MostRecent;
    RecentInPrefix(ttl, events, |events|, j, key, v);
    RecentInPrefix(ttl, events, n, j, key, v);
    assert events[..|events|] == events;
    KnowledgeIsMostRecent(ttl, events[..n], key, v);
    CacheIsKnowledge(ttl, events[..n], key);
  }

  lemma JoinedIsSticky(s: State, now: int, key: string, force: bool, v: string)
    requires Coalesced(s)
    ensures var (t, started) := Get(s, now, key, force);
      started.Joined? ==> Sticky(t, started.read, key, v)
  {
  }

  /**
   Outage stickiness. Once event `j` has read `v` for a key, and until an invalidation or a
   reachable read says otherwise, every `get` of the key that starts after `j` answers `v` from
   the cache, or joins a read that resolves to `v` or throws. None of them reports the key missing.
   */
  lemma OutageKeepsTheLastValue(ttl: int, events: seq<Event>, j: int, key: string, v: string, b: nat)
    requires MostRecent(ttl, events, j, key, v)
    requires j < b < |events| && events[b].GetEvent? && events[b].key == key
    ensures match Get(Before(ttl, events, b), events[b].now, key, events[b].force).1
      case Hit(value) => value == Some(v)
      case Joined(id) =>
        var s := After(ttl, events);
        && id < |s.issued|
        && (s.issued[id].outcome.Some? ==>
              s.issued[id].outcome.value == Resolved(Some(v)) || s.issued[id].outcome.value == Rejected)
  {
    hide MostRecent, Fetch, FetchAll, Coalesced;
    var s := Before(ttl, events, b);
    KnownDuring(ttl, events, j, key, v, b);
    AlwaysCoalesced(ttl, events[..b]);
    BeforeStep(ttl, events, b);
    assert events[..|events|] == events;
    var (t, started) := Get(s, events[b].now, key, events[b].force);
    JoinedIsSticky(s, events[b].now, key, events[b].force, v);
    if started.Joined? {
      StaysSticky(ttl, events, j, key, v, b + 1, started.read, |events|);
    }
  }

  // ---------------------------------------------------------------------------
  // Rotations
  // ---------------------------------------------------------------------------

  /** Event `b` begins read `id`. */
  ghost predicate BegunAt(ttl: int, events: seq<Event>, id: nat, b: int) {
    0 <= b < |events| && |Before(ttl, events, b).issued| <= id < |Before(ttl, events, b + 1).issued|
  }

  /**
   `stored[i]` is what the vault holds for the key when event `i` happens. A reachable read
   reports what the vault held at some moment between its beginning and its settlement.
   */
  ghost predicate Honest(ttl: int, events: seq<Event>, stored: seq<Option<string>>, key: string) {
    && |stored| == |events|
    && forall b, c ::
         && 0 <= b < c < |events| && events[c].SettleEvent?
         && Pending(Before(ttl, events, c), events[c].read)
         && Before(ttl, events, c).issued[events[c].read].key == key
         && BegunAt(ttl, events, events[c].read, b)
         && (events[c].result.Value? || events[c].result.Missing?)
         ==> exists t :: b <= t <= c && stored[t] == Reported(events[c].result)
  }

  lemma {:induction false} ReadsOnlyGrow(ttl: int, events: seq<Event>, m: nat, n: nat)
    requires m <= n <= |events|
    ensures |Before(ttl, events, m).issued| <= |Before(ttl, events, n).issued|
    decreases n
  {
    hide Before, Step;
    if m < n {
      ReadsOnlyGrow(ttl, events, m, n - 1);
      BeforeStep(ttl, events, n - 1);
      StepGrows(Before(ttl, events, n - 1), events[n - 1]);
    }
  }

  lemma StepGrows(s: State, e: Event)
    ensures |s.issued| <= |Step(s, e).issued|
  {
    hide FetchAll;
    match e
    case GetEvent(_, key, _) =>
    case RefreshEvent(keys) => FetchAllKeepsReads(s, keys);
    case _ =>
  }

  /** A read of the key in flight is not one of the first `m`. */
  ghost predicate FreshInFlight(s: State, key: string, m: nat) {
    m <= |s.issued| && (key in s.inflight ==> m <= s.inflight[key])
  }

  lemma {:induction false} FetchAllFresh(s: State, keys: seq<string>, key: string, m: nat)
    requires FreshInFlight(s, key, m)
    ensures FreshInFlight(FetchAll(s, keys), key, m)
  {
    if keys != [] {
      FetchAllFresh(s, keys[..|keys| - 1], key, m);
    }
  }

  lemma {:induction false} StaysFresh(ttl: int, events: seq<Event>, key: string, m: nat, a: nat, n: nat)
    requires a <= n <= |events| && FreshInFlight(Before(ttl, events, a), key, m)
    ensures FreshInFlight(Before(ttl, events, n), key, m)
    decreases n
  {
    hide Before, Step, FreshInFlight;
    if a < n {
      StaysFresh(ttl, events, key, m, a, n - 1);
      BeforeStep(ttl, events, n - 1);
      StepFresh(Before(ttl, events, n - 1), events[n - 1], key, m);
    }
  }

  lemma StepFresh(s: State, e: Event, key: string, m: nat)
    requires FreshInFlight(s, key, m)
    ensures FreshInFlight(Step(s, e), key, m)
  {
    hide FetchAll;
    if e.RefreshEvent? {
      FetchAllFresh(s, e.keys, key, m);
    }
  }

  // ---------------------------------------------------------------------------
  // Nothing read before an invalidation is cached after it
  // ---------------------------------------------------------------------------

  lemma {:induction false} KeepsGeneration(ttl: int, events: seq<Event>, id: nat, m: nat, n: nat)
    requires m <= n <= |events| && id < |Before(ttl, events, m).issued|
    ensures id < |Before(ttl, events, n).issued|
    ensures Before(ttl, events, n).issued[id].generation == Before(ttl, events, m).issued[id].generation
    ensures Before(ttl, events, m).generation <= Before(ttl, events, n).generation
    ensures (exists i :: m <= i < n && events[i].InvalidateEvent?) ==>
              Before(ttl, events, m).generation < Before(ttl, events, n).generation
    decreases n
  {
    hide Before, Step;
    if m < n {
      KeepsGeneration(ttl, events, id, m, n - 1);
      BeforeStep(ttl, events, n - 1);
      StepKeepsIdentity(Before(ttl, events, n - 1), events[n - 1], id);
      if i :| m <= i < n && events[i].InvalidateEvent? {
        assert i < n - 1 || i == n - 1;
      }
    }
  }

  lemma BornInGeneration(ttl: int, events: seq<Event>, id: nat, b: nat)
    requires BegunAt(ttl, events, id, b)
    ensures var s, t := Before(ttl, events, b), Before(ttl, events, b + 1);
      !events[b].InvalidateEvent? && t.issued[id].generation == t.generation
  {
    BeforeStep(ttl, events, b);
    hide Before, FetchAll;
    var s := Before(ttl, events, b);
    if events[b].RefreshEvent? {
      FetchAllBorn(s, events[b].keys, id);
    }
  }

  lemma {:induction false} FetchAllBorn(s: State, keys: seq<string>, id: nat)
    requires |s.issued| <= id < |FetchAll(s, keys).issued|
    ensures FetchAll(s, keys).issued[id].generation == FetchAll(s, keys).generation
  {
    if keys != [] {
      var mid := FetchAll(s, keys[..|keys| - 1]);
      if id < |mid.issued| {
        FetchAllBorn(s, keys[..|keys| - 1], id);
      }
    }
  }

  lemma BeginningOfRead(ttl: int, events: seq<Event>, j: nat, key: string, r: Result) returns (b: nat)
    requires Reads(ttl, events, j, key, r)
    ensures b < j < |events| && events[j].SettleEvent? && BegunAt(ttl, events, events[j].read, b)
    ensures forall i :: b <= i <= j ==> !events[i].InvalidateEvent?
  {
    var id := events[j].read;
    b := Beginning(ttl, events, id, j);
    BornInGeneration(ttl, events, id, b);
    KeepsGeneration(ttl, events, id, b + 1, j);
  }

  /** A cached value came from a read that was begun after the last invalidation. */
  lemma CachedValuesAreCurrent(ttl: int, events: seq<Event>, key: string, v: string)
    requires Cached(After(ttl, events), key) == Known(Some(v))
    ensures exists j, b: nat ::
              && MostRecent(ttl, events, j, key, v) && 0 <= j < |events| && events[j].SettleEvent?
              && b < j && BegunAt(ttl, events, events[j].read, b)
              && forall i :: b <= i < |events| ==> !events[i].InvalidateEvent?
  {
    hide Reads, After, Cached, Knows, BegunAt;
    CacheIsKnowledge(ttl, events, key);
    KnowledgeIsMostRecent(ttl, events, key, v);
    var j :| MostRecent(ttl, events, j, key, v);
    RecentIsAnEvent(ttl, events, j, key, v);
    var b := BeginningOfRead(ttl, events, j, key, Value(v));
  }

  predicate Truthy(secret: Option<string>) {
    secret.Some? && secret.value != ""
  }

  /** Where a secret verification stands: it awaits a `get`, is decided, or threw. */
  datatype Phase =
    | AwaitingCached(started: Started)
    | AwaitingFresh(started: Started)
    | Decided(accepted: bool)
    | Threw

  /** What an awaited `get` has come to, if it has. */
  function Answer(s: State, started: Started): Option<Outcome> {
    match started
    case Hit(value) => Some(Resolved(value))
    case Joined(id) => if id < |s.issued| then s.issued[id].outcome else None
  }

  function BeginCheck(s: State, now: int, key: string): (State, Phase) {
    var (t, started) := Get(s, now, key, false);
    (t, AwaitingCached(started))
  }

  /** The verification goes on once what it awaits has an answer. */
  function ResumeCheck(s: State, now: int, key: string, verify: string -> bool, phase: Phase): (State, Phase) {
    match phase
    case AwaitingCached(started) =>
      var answer := Answer(s, started);
      if answer.None? then (s, phase)
      else if answer.value.Rejected? then (s, Threw)
      else if Truthy(answer.value.value) && verify(answer.value.value.value) then (s, Decided(true))
      else var (t, forced) := Get(s, now, key, true); (t, AwaitingFresh(forced))
    case AwaitingFresh(started) =>
      var answer := Answer(s, started);
      if answer.None? then (s, phase)
      else if answer.value.Rejected? then (s, Threw)
      else (s, Decided(Truthy(answer.value.value) && verify(answer.value.value.value)))
    case _ => (s, phase)
  }

  class SecretCheck {
    const credentials: CredentialCache
    const key: string
    const verify: string -> bool
    var phase: Phase

    constructor (credentials: CredentialCache, key: string, verify: string -> bool, now: int)
      modifies credentials
      ensures this.credentials == credentials && this.key == key && this.verify == verify
      ensures (credentials.View(), phase) == BeginCheck(old(credentials.View()), now, key)
    {
      this.credentials, this.key, this.verify := credentials, key, verify;
      var started := credentials.BeginGet(now, key, false);
      phase := AwaitingCached(started);
    }

    method Resume(now: int)
      modifies this, credentials
      ensures (credentials.View(), phase) == ResumeCheck(old(credentials.View()), now, key, verify, old(phase))
    {
      match phase
      case AwaitingCached(started) =>
        var outcome := Settled(started);
        if outcome.None? {
          return;
        }
        if outcome.value.Rejected? {
          phase := Threw;
          return;
        }
        var secret := outcome.value.value;
        if secret.Some? && secret.value != "" && verify(secret.value) {
          phase := Decided(true);
          return;
        }
        var forced := credentials.BeginGet(now, key, true);
        phase := AwaitingFresh(forced);
      case AwaitingFresh(started) =>
        var outcome := Settled(started);
        if outcome.None? {
          return;
        }
        if outcome.value.Rejected? {
          phase := Threw;
          return;
        }
        var forced := outcome.value.value;
        if forced.None? || forced.value == "" {
          phase := Decided(false);
          return;
        }
        phase := Decided(verify(forced.value));
      case _ =>
    }

    method Settled(started: Started) returns (outcome: Option<Outcome>)
      ensures outcome == Answer(credentials.View(), started)
    {
      match started
      case Hit(value) => outcome := Some(Resolved(value));
      case Joined(id) =>
        outcome := if id < |credentials.issued| then credentials.issued[id].outcome else None;
    }
  }

  /** The read that the forced `get` of event `b` begins or joins. */
  function ReadOf(ttl: int, events: seq<Event>, b: nat): nat
    requires b < |events| && events[b].GetEvent? && events[b].force
  {
    Get(Before(ttl, events, b), events[b].now, events[b].key, true).1.read
  }

  /** Event `c` settles the read, with the vault reachable. */
  ghost predicate SettledAt(ttl: int, events: seq<Event>, id: nat, c: nat) {
    && c < |events| && events[c].SettleEvent? && events[c].read == id && Pending(Before(ttl, events, c), id)
    && (events[c].result.Value? || events[c].result.Missing?)
  }

  /** The vault holds `current` from event `a` on. */
  ghost predicate UnchangedFrom(stored: seq<Option<string>>, a: nat, current: string) {
    forall t :: a <= t < |stored| ==> stored[t] == Some(current)
  }

  /**
   A forced `get` is answered, now and later, with what the vault has held since event `a`, if the
   read it begins or joins was begun at event `a` or later.
   */
  lemma ForcedReadIsCurrent(ttl: int, events: seq<Event>, stored: seq<Option<string>>, key: string, current: string,
                            a: nat, b: nat, c: nat, n: nat)
    requires Honest(ttl, events, stored, key) && UnchangedFrom(stored, a, current)
    requires a <= |events| && b < c < n <= |events|
    requires events[b].GetEvent? && events[b].key == key && events[b].force
    requires SettledAt(ttl, events, ReadOf(ttl, events, b), c)
    requires ReadOf(ttl, events, b) >= |Before(ttl, events, a).issued|
    ensures Answer(Before(ttl, events, n), Joined(ReadOf(ttl, events, b))) == Some(Resolved(Some(current)))
  {
    hide Honest, Step;
    var s := Before(ttl, events, b);
    var id := ReadOf(ttl, events, b);
    AlwaysCoalesced(ttl, events[..b]);
    BeforeStep(ttl, events, b);
    JoinedHasKey(s, events[b].now, key);
    GetIsStep(s, events[b]);
    KeepsKey(ttl, events, id, key, b + 1, c);
    var t := Beginning(ttl, events, id, b + 1);
    if t < a {
      ReadsOnlyGrow(ttl, events, t + 1, a);
    }
    SettledIsHonest(ttl, events, stored, key, id, t, c);
    BeforeStep(ttl, events, c);
    SettledOutcome(Before(ttl, events, c), events[c]);
    OutcomeStays(ttl, events, id, c + 1, n);
  }

  lemma GetIsStep(s: State, e: Event)
    requires e.GetEvent?
    ensures Step(s, e) == Get(s, e.now, e.key, e.force).0
  {
  }

  lemma SettledIsHonest(ttl: int, events: seq<Event>, stored: seq<Option<string>>, key: string, id: nat, t: nat, c: nat)
    requires Honest(ttl, events, stored, key) && SettledAt(ttl, events, id, c) && t < c
    requires BegunAt(ttl, events, id, t) && Before(ttl, events, c).issued[id].key == key
    ensures exists u :: t <= u <= c < |stored| && stored[u] == Reported(events[c].result)
  {
    hide Before;
  }

  lemma SettledOutcome(s: State, e: Event)
    requires e.SettleEvent? && Pending(s, e.read) && (e.result.Value? || e.result.Missing?)
    ensures e.read < |Step(s, e).issued|
    ensures Step(s, e).issued[e.read].outcome == Some(Resolved(Reported(e.result)))
  {
  }

  /** A read that has settled keeps its outcome. */
  lemma {:induction false} OutcomeStays(ttl: int, events: seq<Event>, id: nat, m: nat, n: nat)
    requires m <= n <= |events| && id < |Before(ttl, events, m).issued|
    requires Before(ttl, events, m).issued[id].outcome.Some?
    ensures id < |Before(ttl, events, n).issued|
    ensures Before(ttl, events, n).issued[id].outcome == Before(ttl, events, m).issued[id].outcome
    decreases n
  {
    hide Before, Step;
    if m < n {
      OutcomeStays(ttl, events, id, m, n - 1);
      BeforeStep(ttl, events, n - 1);
      StepKeepsOutcome(Before(ttl, events, n - 1), events[n - 1], id);
    }
  }

  lemma StepKeepsOutcome(s: State, e: Event, id: nat)
    requires id < |s.issued| && s.issued[id].outcome.Some?
    ensures id < |Step(s, e).issued| && Step(s, e).issued[id].outcome == s.issued[id].outcome
  {
    hide Settle;
    if !(e.SettleEvent? && e.read == id) {
      StepKeepsRead(s, e, id);
    }
  }

  /** If no read of the key was in flight at event `a`, no older one can be joined afterwards. */
  lemma NothingOlderToJoin(ttl: int, events: seq<Event>, key: string, a: nat, b: nat)
    requires a <= b < |events| && key !in Before(ttl, events, a).inflight
    requires events[b].GetEvent? && events[b].key == key && events[b].force
    ensures ReadOf(ttl, events, b) >= |Before(ttl, events, a).issued|
  {
    StaysFresh(ttl, events, key, |Before(ttl, events, a).issued|, a, b);
  }

  /** A forced `get` that joins a read begun before the vault changed may answer the old secret. */
  lemma OlderReadAnswersOldSecret(ttl: int, key: string, oldSecret: string, current: string)
    ensures var events := [GetEvent(0, key, false), GetEvent(0, key, true), SettleEvent(0, 0, Value(oldSecret))];
      var stored := [Some(oldSecret), Some(current), Some(current)];
      && Honest(ttl, events, stored, key) && UnchangedFrom(stored, 1, current)
      && SettledAt(ttl, events, ReadOf(ttl, events, 1), 2)
      && ReadOf(ttl, events, 1) < |Before(ttl, events, 1).issued|
      && Answer(Before(ttl, events, 3), Joined(ReadOf(ttl, events, 1))) == Some(Resolved(Some(oldSecret)))
  {
    hide After, Step, Before;
    var events := [GetEvent(0, key, false), GetEvent(0, key, true), SettleEvent(0, 0, Value(oldSecret))];
    var stored := [Some(oldSecret), Some(current), Some(current)];
    Unfolded(ttl, events);
    OneRead(ttl, key, oldSecret);
    BeforeStep(ttl, events, 0);
    BeforeStep(ttl, events, 1);
    BeforeStep(ttl, events, 2);
    forall b, c | 0 <= b < c < |events| && events[c].SettleEvent? && BegunAt(ttl, events, events[c].read, b)
      ensures exists t :: b <= t <= c && stored[t] == Reported(events[c].result)
    {
      assert c == 2 && b == 0 && stored[0] == Some(oldSecret);
    }
  }

  lemma Unfolded(ttl: int, events: seq<Event>)
    ensures Before(ttl, events, 0) == Initial(ttl)
  {
  }

  lemma OneRead(ttl: int, key: string, secret: string)
    ensures var s1 := Step(Initial(ttl), GetEvent(0, key, false));
      && s1 == State(ttl, map[], map[key := 0], 0, [Read(key, 0, None)])
      && Step(s1, GetEvent(0, key, true)) == s1
      && Step(s1, SettleEvent(0, 0, Value(secret))).issued == [Read(key, 0, Some(Resolved(Some(secret))))]
  {
  }

  lemma JoinedHasKey(s: State, now: int, key: string)
    requires Coalesced(s)
    ensures var (t, started) := Get(s, now, key, true);
      started.Joined? && started.read < |t.issued| && t.issued[started.read].key == key
  {
  }

  /** A read keeps its key and the generation it was begun in. */
  lemma StepKeepsIdentity(s: State, e: Event, id: nat)
    requires id < |s.issued|
    ensures var t := Step(s, e);
      && id < |t.issued| && t.issued[id].key == s.issued[id].key
      && t.issued[id].generation == s.issued[id].generation
    ensures Step(s, e).generation == s.generation + (if e.InvalidateEvent? then 1 else 0)
  {
    hide Fetch, FetchAll;
    if e.InvalidateEvent? {
    } else if e.SettleEvent? && e.read == id {
    } else {
      StepKeepsRead(s, e, id);
    }
  }

  lemma {:induction false} KeepsKey(ttl: int, events: seq<Event>, id: nat, key: string, m: nat, n: nat)
    requires m <= n <= |events|
    requires id < |Before(ttl, events, m).issued| && Before(ttl, events, m).issued[id].key == key
    ensures id < |Before(ttl, events, n).issued| && Before(ttl, events, n).issued[id].key == key
    decreases n
  {
    hide Before, Step;
    if m < n {
      KeepsKey(ttl, events, id, key, m, n - 1);
      BeforeStep(ttl, events, n - 1);
      StepKeepsIdentity(Before(ttl, events, n - 1), events[n - 1], id);
    }
  }

  lemma {:induction false} Beginning(ttl: int, events: seq<Event>, id: nat, n: nat) returns (b: nat)
    requires n <= |events| && id < |Before(ttl, events, n).issued|
    ensures b < n && BegunAt(ttl, events, id, b)
  {
    if id < |Before(ttl, events, n - 1).issued| {
      b := Beginning(ttl, events, id, n - 1);
    } else {
      b := n - 1;
    }
  }

  /** The check that begins at event `g`, where it looks at the cache first. */
  function CheckBegun(ttl: int, events: seq<Event>, g: nat): Phase
    requires g < |events| && events[g].GetEvent?
  {
    BeginCheck(Before(ttl, events, g), events[g].now, events[g].key).1
  }

  /** Where the check stands after resuming before event `n`, having stood at `phase`. */
  function Resumed(ttl: int, events: seq<Event>, n: nat, now: int, key: string, verify: string -> bool, phase: Phase): Phase
    requires n <= |events|
  {
    ResumeCheck(Before(ttl, events, n), now, key, verify, phase).1
  }

  /**
   Rotation acceptance. A check begins with a plain `get` at event `g` and resumes at event `b`,
   answered with `cached`. If that is not valid, event `b` is its forced `get`; from then on every
   resumption finds it waiting until that read settles, and any resumption after that decides by
   the current secret, if the vault has held it since event `a` and the read was begun at `a` or
   later. So whatever is valid under the current secret is accepted, even if the cache was old.
   */
  lemma RotatedSecretIsAccepted(ttl: int, events: seq<Event>, stored: seq<Option<string>>, key: string, current: string,
                                verify: string -> bool, cached: Option<string>, a: nat, g: nat, b: nat, c: nat)
    requires Honest(ttl, events, stored, key) && UnchangedFrom(stored, a, current)
    requires a <= |events| && g < b < c < |events|
    requires events[g].GetEvent? && events[g].key == key && !events[g].force
    requires Answer(Before(ttl, events, b), CheckBegun(ttl, events, g).started) == Some(Resolved(cached))
    requires events[b].GetEvent? && events[b].key == key && events[b].force
    requires SettledAt(ttl, events, ReadOf(ttl, events, b), c)
    requires ReadOf(ttl, events, b) >= |Before(ttl, events, a).issued|
    ensures BeginCheck(Before(ttl, events, g), events[g].now, key).0 == Before(ttl, events, g + 1)
    ensures var phase := Resumed(ttl, events, b, events[b].now, key, verify, CheckBegun(ttl, events, g));
      if Truthy(cached) && verify(cached.value) then phase == Decided(true)
      else
        && phase == AwaitingFresh(Joined(ReadOf(ttl, events, b)))
        && ResumeCheck(Before(ttl, events, b), events[b].now, key, verify, CheckBegun(ttl, events, g)).0
           == Before(ttl, events, b + 1)
        && (forall n, now :: b < n <= c ==> Resumed(ttl, events, n, now, key, verify, phase) == phase)
        && (forall n, now :: c < n <= |events| ==>
              Resumed(ttl, events, n, now, key, verify, phase) == Decided(current != "" && verify(current)))
  {
    hide Honest, Before, Step;
    BeforeStep(ttl, events, g);
    BeforeStep(ttl, events, b);
    GetIsStep(Before(ttl, events, g), events[g]);
    GetIsStep(Before(ttl, events, b), events[b]);
    var id := ReadOf(ttl, events, b);
    forall n | b < n <= c
      ensures Answer(Before(ttl, events, n), Joined(id)) == None
    {
      StillPending(ttl, events, id, n, c);
    }
    forall n | c < n <= |events|
      ensures Answer(Before(ttl, events, n), Joined(id)) == Some(Resolved(Some(current)))
    {
      ForcedReadIsCurrent(ttl, events, stored, key, current, a, b, c, n);
    }
  }

  lemma StillPending(ttl: int, events: seq<Event>, id: nat, n: nat, c: nat)
    requires n <= c <= |events| && Pending(Before(ttl, events, c), id)
    ensures Answer(Before(ttl, events, n), Joined(id)) == None
  {
    hide Before;
    var s := Before(ttl, events, n);
    if id < |s.issued| && s.issued[id].outcome.Some? {
      OutcomeStays(ttl, events, id, n, c);
    }
  }

  // ---------------------------------------------------------------------------
  // Exactly which forced reads see a rotation
  // ---------------------------------------------------------------------------

  /** The run goes on with the read answered by a reachable vault. */
  function Answered(events: seq<Event>, now: int, id: nat, result: Result): seq<Event> {
    events + [SettleEvent(now, id, result)]
  }

  /** A reachable vault that still holds `current` may give the read this result. */
  ghost predicate MayReport(ttl: int, events: seq<Event>, stored: seq<Option<string>>, key: string, current: string,
                            now: int, id: nat, result: Result) {
    && (result.Value? || result.Missing?)
    && Honest(ttl, Answered(events, now, id, result), stored + [Some(current)], key)
  }

  function Report(value: Option<string>): (result: Result)
    ensures Reported(result) == value && (result.Value? || result.Missing?)
  {
    if value.Some? then Value(value.value) else Missing
  }

  lemma SameBefore(ttl: int, events: seq<Event>, e: Event, n: nat)
    requires n <= |events|
    ensures Before(ttl, events + [e], n) == Before(ttl, events, n)
  {
    assert (events + [e])[..n] == events[..n];
  }

  lemma SameBegun(ttl: int, events: seq<Event>, e: Event, id: nat, b: nat)
    requires b < |events|
    ensures BegunAt(ttl, events + [e], id, b) == BegunAt(ttl, events, id, b)
  {
    hide Before;
    SameBefore(ttl, events, e, b);
    SameBefore(ttl, events, e, b + 1);
  }

  /** A read is not begun after a moment at which it had been begun. */
  lemma BegunEarlier(ttl: int, events: seq<Event>, id: nat, t: nat, a: nat)
    requires a <= |events| && id < |Before(ttl, events, a).issued| && BegunAt(ttl, events, id, t)
    ensures t < a
  {
    hide Before;
    if t >= a {
      ReadsOnlyGrow(ttl, events, a, t);
    }
  }

  /** A pending read may report what the vault held at any moment after its beginning. */
  lemma HonestReport(ttl: int, events: seq<Event>, stored: seq<Option<string>>, key: string, current: string,
                     now: int, id: nat, u: nat)
    requires Honest(ttl, events, stored, key)
    requires u < |events| && id < |Before(ttl, events, u + 1).issued|
    ensures MayReport(ttl, events, stored, key, current, now, id, Report(stored[u]))
  {
    hide Before, BegunAt;
    var last := SettleEvent(now, id, Report(stored[u]));
    var longer, kept := events + [last], stored + [Some(current)];
    forall b, c |
      && 0 <= b < c < |longer| && longer[c].SettleEvent?
      && Pending(Before(ttl, longer, c), longer[c].read)
      && Before(ttl, longer, c).issued[longer[c].read].key == key
      && BegunAt(ttl, longer, longer[c].read, b)
      && (longer[c].result.Value? || longer[c].result.Missing?)
      ensures exists t :: b <= t <= c && kept[t] == Reported(longer[c].result)
    {
      SameBefore(ttl, events, last, c);
      SameBegun(ttl, events, last, longer[c].read, b);
      if c < |events| {
        var t :| b <= t <= c && stored[t] == Reported(events[c].result);
        assert kept[t] == stored[t];
      } else {
        BegunEarlier(ttl, events, id, b, u + 1);
        assert kept[u] == Reported(longer[c].result);
      }
    }
  }

  lemma AnsweredWith(ttl: int, events: seq<Event>, now: int, id: nat, result: Result)
    requires Pending(After(ttl, events), id) && (result.Value? || result.Missing?)
    ensures Answer(After(ttl, Answered(events, now, id, result)), Joined(id)) == Some(Resolved(Reported(result)))
  {
    hide Step;
    var last := SettleEvent(now, id, result);
    assert (events + [last])[..|events|] == events;
    SettledOutcome(After(ttl, events), last);
  }

  /** What the forced `get` of event `b` is answered with once its read settles. */
  ghost predicate AnsweredCurrent(ttl: int, events: seq<Event>, current: string, now: int, id: nat, result: Result) {
    Answer(After(ttl, Answered(events, now, id, result)), Joined(id)) == Some(Resolved(Some(current)))
  }

  lemma LaterReadIsCurrent(ttl: int, events: seq<Event>, stored: seq<Option<string>>, key: string, current: string,
                           a: nat, b: nat, now: int, result: Result)
    requires Honest(ttl, events, stored, key) && UnchangedFrom(stored, a, current) && a <= |events|
    requires b < |events| && events[b].GetEvent? && events[b].key == key && events[b].force
    requires Pending(After(ttl, events), ReadOf(ttl, events, b))
    requires ReadOf(ttl, events, b) >= |Before(ttl, events, a).issued|
    requires MayReport(ttl, events, stored, key, current, now, ReadOf(ttl, events, b), result)
    ensures AnsweredCurrent(ttl, events, current, now, ReadOf(ttl, events, b), result)
  {
    hide Honest, Step, Before, After;
    var id := ReadOf(ttl, events, b);
    var last := SettleEvent(now, id, result);
    var longer := events + [last];
    SameBefore(ttl, events, last, a);
    SameBefore(ttl, events, last, b);
    SameBefore(ttl, events, last, |events|);
    WholeRun(ttl, events);
    WholeRun(ttl, longer);
    ForcedReadIsCurrent(ttl, longer, stored + [Some(current)], key, current, a, b, |events|, |longer|);
  }

  lemma WholeRun(ttl: int, events: seq<Event>)
    ensures Before(ttl, events, |events|) == After(ttl, events)
  {
    assert events[..|events|] == events;
  }

  lemma OneEachEvent(ttl: int, events: seq<Event>, stored: seq<Option<string>>, key: string)
    requires Honest(ttl, events, stored, key)
    ensures |stored| == |events|
  {
  }

  /** A read begun before the change may give what the vault held just before it. */
  lemma OlderReadMayReportPrevious(ttl: int, events: seq<Event>, stored: seq<Option<string>>, key: string, current: string,
                                   a: nat, id: nat, now: int)
    requires Honest(ttl, events, stored, key) && 0 < a <= |events|
    requires Pending(After(ttl, events), id) && id < |Before(ttl, events, a).issued|
    ensures MayReport(ttl, events, stored, key, current, now, id, Report(stored[a - 1]))
    ensures Answer(After(ttl, Answered(events, now, id, Report(stored[a - 1]))), Joined(id))
         == Some(Resolved(stored[a - 1]))
  {
    hide Honest, After, Before;
    OneEachEvent(ttl, events, stored, key);
    HonestReport(ttl, events, stored, key, current, now, id, a - 1);
    AnsweredWith(ttl, events, now, id, Report(stored[a - 1]));
  }

  /**
   Let the vault have taken `current` at event `a`. The answer that a forced `get` still awaits is
   certain to be `current`, whatever a reachable vault may report, if and only if the read it began
   or joined was begun at event `a` or later.
   */
  lemma ForcedReadIsCurrentExactly(ttl: int, events: seq<Event>, stored: seq<Option<string>>, key: string, current: string,
                                   a: nat, b: nat, now: int)
    requires Honest(ttl, events, stored, key) && UnchangedFrom(stored, a, current)
    requires 0 < a <= |events| && stored[a - 1] != Some(current)
    requires b < |events| && events[b].GetEvent? && events[b].key == key && events[b].force
    requires Pending(After(ttl, events), ReadOf(ttl, events, b))
    ensures var id := ReadOf(ttl, events, b);
      id >= |Before(ttl, events, a).issued| <==>
      forall r :: MayReport(ttl, events, stored, key, current, now, id, r) ==>
        AnsweredCurrent(ttl, events, current, now, id, r)
  {
    hide Honest, MayReport, After, Before, ReadOf, Pending, UnchangedFrom;
    var id := ReadOf(ttl, events, b);
    OneEachEvent(ttl, events, stored, key);
    if id >= |Before(ttl, events, a).issued| {
      forall r | MayReport(ttl, events, stored, key, current, now, id, r)
        ensures AnsweredCurrent(ttl, events, current, now, id, r)
      {
        LaterReadIsCurrent(ttl, events, stored, key, current, a, b, now, r);
      }
    } else {
      OlderReadMayReportPrevious(ttl, events, stored, key, current, a, id, now);
      assert !AnsweredCurrent(ttl, events, current, now, id, Report(stored[a - 1]));
    }
  }

  /** The secret is there, and the request verifies under it. */
  predicate ValidUnder(verify: string -> bool, secret: Option<string>) {
    Truthy(secret) && verify(secret.value)
  }

  /** Where the check stands that awaits the read, when it resumes after the read was answered. */
  function Verdict(ttl: int, events: seq<Event>, now: int, id: nat, result: Result, later: int, key: string,
                   verify: string -> bool): Phase {
    ResumeCheck(After(ttl, Answered(events, now, id, result)), later, key, verify, AwaitingFresh(Joined(id))).1
  }

  lemma VerdictIs(ttl: int, events: seq<Event>, now: int, id: nat, result: Result, later: int, key: string,
                  verify: string -> bool, value: Option<string>)
    requires Answer(After(ttl, Answered(events, now, id, result)), Joined(id)) == Some(Resolved(value))
    ensures Verdict(ttl, events, now, id, result, later, key, verify) == Decided(ValidUnder(verify, value))
  {
    hide After;
  }

  /**
   A check whose cached secret was not valid awaits its forced `get`. A request that is valid under
   the current secret and not under the previous one is certain to be accepted if and only if the
   read that `get` began or joined was begun at the rotation or later; an older read may report the
   previous secret, and the request is refused.
   */
  lemma RotatedSecretIsAcceptedExactly(ttl: int, events: seq<Event>, stored: seq<Option<string>>, key: string,
                                       current: string, verify: string -> bool, cached: Option<string>,
                                       a: nat, g: nat, b: nat, now: int, later: int)
    requires Honest(ttl, events, stored, key) && UnchangedFrom(stored, a, current)
    requires 0 < a <= |events| && g < b < |events|
    requires events[g].GetEvent? && events[g].key == key && !events[g].force
    requires Answer(Before(ttl, events, b), CheckBegun(ttl, events, g).started) == Some(Resolved(cached))
    requires events[b].GetEvent? && events[b].key == key && events[b].force
    requires Pending(After(ttl, events), ReadOf(ttl, events, b))
    requires !ValidUnder(verify, cached) && !ValidUnder(verify, stored[a - 1]) && ValidUnder(verify, Some(current))
    ensures var id := ReadOf(ttl, events, b);
      && Resumed(ttl, events, b, events[b].now, key, verify, CheckBegun(ttl, events, g)) == AwaitingFresh(Joined(id))
      && (id >= |Before(ttl, events, a).issued| <==>
          forall r :: MayReport(ttl, events, stored, key, current, now, id, r) ==>
            Verdict(ttl, events, now, id, r, later, key, verify) == Decided(true))
      && (id < |Before(ttl, events, a).issued| ==>
            && MayReport(ttl, events, stored, key, current, now, id, Report(stored[a - 1]))
            && Verdict(ttl, events, now, id, Report(stored[a - 1]), later, key, verify) == Decided(false))
  {
    hide Honest, MayReport, After, Before, Pending, UnchangedFrom, Verdict;
    var id := ReadOf(ttl, events, b);
    OneEachEvent(ttl, events, stored, key);
    if id >= |Before(ttl, events, a).issued| {
      forall r | MayReport(ttl, events, stored, key, current, now, id, r)
        ensures Verdict(ttl, events, now, id, r, later, key, verify) == Decided(true)
      {
        LaterReadIsCurrent(ttl, events, stored, key, current, a, b, now, r);
        VerdictIs(ttl, events, now, id, r, later, key, verify, Some(current));
      }
    } else {
      var r := Report(stored[a - 1]);
      OlderReadMayReportPrevious(ttl, events, stored, key, current, a, id, now);
      VerdictIs(ttl, events, now, id, r, later, key, verify, stored[a - 1]);
      assert Verdict(ttl, events, now, id, r, later, key, verify) == Decided(false);
    }
  }
}
