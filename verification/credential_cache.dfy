/**
 The credential cache as an interleaved system. A `get` either answers at once or joins a read;
 reads settle in any order, with whatever the vault reports; `invalidate` may come in between.
 */
module CredentialCaches {
  import opened Options

  /** What the credential reader reports, or that it threw. */
  datatype Result = Value(value: string) | Missing | Unreachable | Failed

  datatype Entry = Entry(value: Option<string>, expiresAt: int)

  /** How a read's promise settled. */
  datatype Outcome = Resolved(value: Option<string>) | Rejected

  /** A read that was begun; it has no outcome until it settles. */
  datatype Read = Read(key: string, generation: nat, outcome: Option<Outcome>)

  /** A `get` answers from the cache or awaits a read. */
  datatype Started = Hit(value: Option<string>) | Joined(read: nat)

  datatype State = State(
    ttl: int, cache: map<string, Entry>, inflight: map<string, nat>, generation: nat, issued: seq<Read>)

  function Fetch(s: State, key: string): (State, nat) {
    if key in s.inflight then (s, s.inflight[key])
    else (s.(issued := s.issued + [Read(key, s.generation, None)], inflight := s.inflight[key := |s.issued|]), |s.issued|)
  }

  function Get(s: State, now: int, key: string, force: bool): (State, Started) {
    if !force && key in s.cache && now < s.cache[key].expiresAt then (s, Hit(s.cache[key].value))
    else var (s', id) := Fetch(s, key); (s', Joined(id))
  }

  function FetchAll(s: State, keys: seq<string>): State {
    if keys == [] then s else Fetch(FetchAll(s, keys[..|keys| - 1]), keys[|keys| - 1]).0
  }

  function Invalidate(s: State): State {
    s.(generation := s.generation + 1, cache := map[], inflight := map[])
  }

  predicate Pending(s: State, id: nat) {
    id < |s.issued| && s.issued[id].outcome.None?
  }

  function Reported(result: Result): Option<string> {
    if result.Value? then Some(result.value) else None
  }

  /** What the cache holds for a key once a read of it settled, in the read's own generation. */
  function Remembered(s: State, key: string, result: Result): Option<string> {
    if result.Unreachable? && key in s.cache then s.cache[key].value else Reported(result)
  }

  function Finish(s: State, id: nat, outcome: Outcome): State
    requires id < |s.issued|
  {
    s.(issued := s.issued[id := s.issued[id].(outcome := Some(outcome))])
  }

  function Settle(s: State, now: int, id: nat, result: Result): State
    requires Pending(s, id)
  {
    var read := s.issued[id];
    if read.generation != s.generation then
      Finish(s, id, if result.Failed? then Rejected else Resolved(Reported(result)))
    else
      var s1 := s.(inflight := s.inflight - {read.key});
      if result.Failed? then Finish(s1, id, Rejected)
      else
        var value := Remembered(s, read.key, result);
        Finish(s1.(cache := s1.cache[read.key := Entry(value, now + s.ttl)]), id, Resolved(value))
  }

  class CredentialCache {
    const ttlMs: int
    var cache: map<string, Entry>
    var inflight: map<string, nat>
    var generation: nat
    /** The promises handed out, by read. */
    var issued: seq<Read>

    ghost function View(): State
      reads this
    {
      State(ttlMs, cache, inflight, generation, issued)
    }

    constructor (ttlMs: int)
      ensures View() == State(ttlMs, map[], map[], 0, [])
    {
      this.ttlMs := ttlMs;
      cache, inflight, generation, issued := map[], map[], 0, [];
    }

    method BeginFetch(key: string) returns (id: nat)
      modifies this
      ensures (View(), id) == Fetch(old(View()), key)
    {
      if key in inflight {
        return inflight[key];
      }
      id := |issued|;
      issued := issued + [Read(key, generation, None)];
      inflight := inflight[key := id];
    }

    method BeginGet(now: int, key: string, force: bool) returns (started: Started)
      modifies this
      ensures (View(), started) == Get(old(View()), now, key, force)
    {
      if !force {
        if key in cache && now < cache[key].expiresAt {
          return Hit(cache[key].value);
        }
      }
      var id := BeginFetch(key);
      return Joined(id);
    }

    /** Re-read the given keys. */
    method RefreshNow(keys: seq<string>)
      modifies this
      ensures View() == FetchAll(old(View()), keys)
    {
      for i := 0 to |keys|
        invariant View() == FetchAll(old(View()), keys[..i])
      {
        assert keys[..i + 1][..i] == keys[..i];
        var _ := BeginFetch(keys[i]);
      }
      assert keys[..|keys|] == keys;
    }

    method InvalidateAll()
      modifies this
      ensures View() == Invalidate(old(View()))
    {
      generation := generation + 1;
      cache := map[];
      inflight := map[];
    }

    /** The read's continuation, run when the reader answers or throws. */
    method OnSettled(now: int, id: nat, result: Result)
      requires Pending(View(), id)
      modifies this
      ensures View() == Settle(old(View()), now, id, result)
    {
      var key, gen := issued[id].key, issued[id].generation;
      var outcome := Resolved(None);
      if result.Failed? {
        if generation == gen {
          inflight := inflight - {key};
        }
        outcome := Rejected;
      } else if generation != gen {
        outcome := Resolved(if result.Unreachable? then None else Reported(result));
      } else {
        inflight := inflight - {key};
        if result.Unreachable? {
          if key in cache && cache[key].value.Some? {
            outcome := Resolved(cache[key].value);
            cache := cache[key := Entry(cache[key].value, now + ttlMs)];
          } else {
            cache := cache[key := Entry(None, now + ttlMs)];
          }
        } else {
          cache := cache[key := Entry(Reported(result), now + ttlMs)];
          outcome := Resolved(Reported(result));
        }
      }
      issued := issued[id := issued[id].(outcome := Some(outcome))];
    }
  }

  // ---------------------------------------------------------------------------
  // Runs
  // ---------------------------------------------------------------------------

  datatype Event =
    | GetEvent(now: int, key: string, force: bool)
    | RefreshEvent(keys: seq<string>)
    | SettleEvent(now: int, read: nat, result: Result)
    | InvalidateEvent

  /** A settlement of anything but a pending read does not happen. */
  function Step(s: State, e: Event): State {
    match e
    case GetEvent(now, key, force) => Get(s, now, key, force).0
    case RefreshEvent(keys) => FetchAll(s, keys)
    case SettleEvent(now, id, result) => if Pending(s, id) then Settle(s, now, id, result) else s
    case InvalidateEvent => Invalidate(s)
  }

  function Initial(ttl: int): State {
    State(ttl, map[], map[], 0, [])
  }

  function After(ttl: int, events: seq<Event>): State {
    if events == [] then Initial(ttl)
    else Step(After(ttl, events[..|events| - 1]), events[|events| - 1])
  }

  /** The state just before event `i`. */
  function Before(ttl: int, events: seq<Event>, i: nat): State
    requires i <= |events|
  {
    After(ttl, events[..i])
  }

  lemma BeforeStep(ttl: int, events: seq<Event>, i: nat)
    requires i < |events|
    ensures Before(ttl, events, i + 1) == Step(Before(ttl, events, i), events[i])
  {
    assert events[..i + 1][..i] == events[..i];
  }

  // ---------------------------------------------------------------------------
  // Coalescing
  // ---------------------------------------------------------------------------

  /**
   `inflight` holds exactly the unsettled reads of the current generation, so there is at most
   one such read of a key.
   */
  ghost predicate Coalesced(s: State) {
    && (forall key :: key in s.inflight ==>
          && Pending(s, s.inflight[key])
          && s.issued[s.inflight[key]].key == key && s.issued[s.inflight[key]].generation == s.generation)
    && (forall id: nat :: Pending(s, id) && s.issued[id].generation == s.generation ==>
          s.issued[id].key in s.inflight && s.inflight[s.issued[id].key] == id)
    && (forall id :: 0 <= id < |s.issued| ==> s.issued[id].generation <= s.generation)
  }

  lemma FetchCoalesces(s: State, key: string)
    requires Coalesced(s)
    ensures Coalesced(Fetch(s, key).0)
  {
    var t := Fetch(s, key).0;
    forall id: nat | id < |s.issued|
      ensures t.issued[id] == s.issued[id]
    {
    }
    forall id: nat | Pending(t, id) && t.issued[id].generation == t.generation
      ensures t.issued[id].key in t.inflight && t.inflight[t.issued[id].key] == id
    {
      assert id < |s.issued| ==> Pending(s, id);
    }
    forall k | k in t.inflight
      ensures Pending(t, t.inflight[k])
    {
      assert k in s.inflight ==> Pending(s, s.inflight[k]);
    }
  }

  lemma {:induction false} FetchAllCoalesces(s: State, keys: seq<string>)
    requires Coalesced(s)
    ensures Coalesced(FetchAll(s, keys))
  {
    hide Coalesced, Fetch;
    if keys != [] {
      FetchAllCoalesces(s, keys[..|keys| - 1]);
      FetchCoalesces(FetchAll(s, keys[..|keys| - 1]), keys[|keys| - 1]);
    }
  }

  lemma SettleCoalesces(s: State, now: int, id: nat, result: Result)
    requires Coalesced(s) && Pending(s, id)
    ensures Coalesced(Settle(s, now, id, result))
  {
    var t := Settle(s, now, id, result);
    assert !Pending(t, id);
    forall other: nat
      ensures other != id ==> (Pending(t, other) <==> Pending(s, other))
    {
    }
  }

  lemma StepCoalesces(s: State, e: Event)
    requires Coalesced(s)
    ensures Coalesced(Step(s, e))
  {
    hide Fetch, FetchAll, Settle;
    match e
    case GetEvent(_, key, _) => FetchCoalesces(s, key);
    case RefreshEvent(keys) => FetchAllCoalesces(s, keys);
    case SettleEvent(now, id, result) => if Pending(s, id) { SettleCoalesces(s, now, id, result); }
    case InvalidateEvent =>
  }

  lemma {:induction false} AlwaysCoalesced(ttl: int, events: seq<Event>)
    ensures Coalesced(After(ttl, events))
  {
    hide Coalesced, Step;
    if events == [] {
      InitialCoalesced(ttl);
    } else {
      AlwaysCoalesced(ttl, events[..|events| - 1]);
      StepCoalesces(After(ttl, events[..|events| - 1]), events[|events| - 1]);
    }
  }

  lemma InitialCoalesced(ttl: int)
    ensures Coalesced(Initial(ttl))
  {
  }

  /** A read that an invalidation has overtaken changes neither map when it settles. */
  lemma StaleSettlementIsInert(s: State, now: int, id: nat, result: Result)
    requires Pending(s, id) && s.issued[id].generation != s.generation
    ensures var t := Settle(s, now, id, result);
      && t.cache == s.cache && t.inflight == s.inflight && t.generation == s.generation
      && t.issued[id].outcome == Some(if result.Failed? then Rejected else Resolved(Reported(result)))
  {
  }

  // ---------------------------------------------------------------------------
  // What the cache knows
  // ---------------------------------------------------------------------------

  /** Event `i` settles a read of `key` that no invalidation has overtaken, with `result`. */
  ghost predicate Reads(ttl: int, events: seq<Event>, i: int, key: string, result: Result) {
    && 0 <= i < |events| && events[i].SettleEvent? && events[i].result == result
    && var s := Before(ttl, events, i);
      && Pending(s, events[i].read) && s.issued[events[i].read].key == key
      && s.issued[events[i].read].generation == s.generation
  }

  /** What reads of `key` have told since the last invalidation. */
  datatype Knowledge = Unread | Known(value: Option<string>)

  /**
   The value the most recent reachable read reported; `None` if it reported the key missing, or
   if every read so far found the vault unreachable.
   */
  ghost function Knows(ttl: int, events: seq<Event>, key: string): Knowledge {
    if events == [] then Unread
    else
      var i := |events| - 1;
      var known := Knows(ttl, events[..i], key);
      if events[i].InvalidateEvent? then Unread
      else if exists r :: Reads(ttl, events, i, key, r) then
        match events[i].result
        case Value(v) => Known(Some(v))
        case Missing => Known(None)
        case Unreachable => if known.Unread? then Known(None) else known
        case Failed => known
      else known
  }

  ghost function Cached(s: State, key: string): Knowledge {
    if key in s.cache then Known(s.cache[key].value) else Unread
  }

  lemma {:induction false} FetchKeepsCache(s: State, keys: seq<string>)
    ensures FetchAll(s, keys).cache == s.cache && FetchAll(s, keys).generation == s.generation
    ensures FetchAll(s, keys).ttl == s.ttl
  {
    if keys != [] {
      FetchKeepsCache(s, keys[..|keys| - 1]);
    }
  }

  /** The cache holds for every key exactly what the reads since the last invalidation have told. */
  lemma {:induction false} CacheIsKnowledge(ttl: int, events: seq<Event>, key: string)
    ensures Cached(After(ttl, events), key) == Knows(ttl, events, key)
  {
    if events != [] {
      hide FetchAll, Fetch;
      var i := |events| - 1;
      var s, e := After(ttl, events[..i]), events[i];
      CacheIsKnowledge(ttl, events[..i], key);
      if e.RefreshEvent? {
        FetchKeepsCache(s, e.keys);
      } else if e.GetEvent? {
        GetKeepsCache(s, e.now, e.key, e.force);
      } else if e.SettleEvent? {
        if exists r :: Reads(ttl, events, i, key, r) {
          var r :| Reads(ttl, events, i, key, r);
        } else {
          assert !Reads(ttl, events, i, key, e.result);
        }
      }
    }
  }

  lemma GetKeepsCache(s: State, now: int, key: string, force: bool)
    ensures Get(s, now, key, force).0.cache == s.cache
  {
  }
}
