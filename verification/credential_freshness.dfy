/** How long the credential cache answers by itself, and what awaiting callers are told. */
module CredentialFreshness {
  import opened Options
  import opened CredentialCaches
  import opened CredentialGuarantees

  // ---------------------------------------------------------------------------
  // The time to live
  // ---------------------------------------------------------------------------

  /** When a read of `key` last told something, since the last invalidation: any read but a failed one. */
  ghost function LastTold(ttl: int, events: seq<Event>, key: string): Option<int> {
    if events == [] then None
    else
      var i := |events| - 1;
      if events[i].InvalidateEvent? then None
      else if (exists r :: Reads(ttl, events, i, key, r)) && !events[i].result.Failed? then Some(events[i].now)
      else LastTold(ttl, events[..i], key)
  }

  /** The entry of the key is there, and expires `ttl` after a read last told something. */
  ghost predicate Dated(s: State, key: string, told: Option<int>) {
    && (key in s.cache <==> told.Some?)
    && (key in s.cache ==> s.cache[key].expiresAt == told.value + s.ttl)
  }

  lemma StepKeepsTtl(s: State, e: Event)
    ensures Step(s, e).ttl == s.ttl
  {
    hide Fetch;
    if e.RefreshEvent? {
      FetchKeepsCache(s, e.keys);
    } else if e.GetEvent? {
      GetKeepsTtl(s, e.now, e.key, e.force);
    }
  }

  lemma GetKeepsTtl(s: State, now: int, key: string, force: bool)
    ensures Get(s, now, key, force).0.ttl == s.ttl
  {
  }

  lemma {:induction false} TtlStays(ttl: int, events: seq<Event>)
    ensures After(ttl, events).ttl == ttl
  {
    hide Step;
    if events != [] {
      TtlStays(ttl, events[..|events| - 1]);
      StepKeepsTtl(After(ttl, events[..|events| - 1]), events[|events| - 1]);
    }
  }

  lemma {:induction false} CacheIsDated(ttl: int, events: seq<Event>, key: string)
    ensures Dated(After(ttl, events), key, LastTold(ttl, events, key))
  {
    TtlStays(ttl, events);
    if events != [] {
      hide FetchAll, Fetch;
      var i := |events| - 1;
      var s, e := After(ttl, events[..i]), events[i];
      TtlStays(ttl, events[..i]);
      CacheIsDated(ttl, events[..i], key);
      if e.RefreshEvent? {
        FetchKeepsCache(s, e.keys);
      } else if e.GetEvent? {
        GetKeepsCache(s, e.now, e.key, e.force);
      } else if e.SettleEvent? {
        if exists r :: Reads(ttl, events, i, key, r) {
          var r :| Reads(ttl, events, i, key, r);
        } else {
          assert !Reads(ttl, events, i, key, e.result);
        }
      }
    }
  }

  /** A read of `key`, begun in the current generation, that has not settled. */
  ghost predicate UnderWay(s: State, id: nat, key: string) {
    Pending(s, id) && s.issued[id].key == key && s.issued[id].generation == s.generation
  }

  lemma JoinedIsUnderWay(s: State, now: int, key: string, force: bool)
    requires Coalesced(s)
    ensures var (t, started) := Get(s, now, key, force);
      started.Joined? ==> UnderWay(t, started.read, key)
  {
  }

  /**
   After every run, an unforced `get` is answered from the cache exactly when less than `ttl` has
   passed since a read of the key last told something, and then with what the reads have told. Any
   other `get`, and every forced one, awaits a read of the key that is under way.
   */
  lemma GetAnswersWhileFresh(ttl: int, events: seq<Event>, now: int, key: string, force: bool)
    ensures var told := LastTold(ttl, events, key);
      var (s, started) := Get(After(ttl, events), now, key, force);
      && (started.Hit? <==> !force && told.Some? && now < told.value + ttl)
      && match started
         case Hit(value) => Knows(ttl, events, key) == Known(value)
         case Joined(id) => UnderWay(s, id, key)
  {
    hide After, LastTold, Knows, Coalesced, UnderWay;
    CacheIsDated(ttl, events, key);
    CacheIsKnowledge(ttl, events, key);
    AlwaysCoalesced(ttl, events);
    TtlStays(ttl, events);
    JoinedIsUnderWay(After(ttl, events), now, key, force);
  }

  lemma FetchIsUnderWay(s: State, key: string)
    requires Coalesced(s)
    ensures var (t, id) := Fetch(s, key);
      && UnderWay(t, id, key)
      && (forall i: nat, k :: UnderWay(s, i, k) ==> UnderWay(t, i, k))
  {
    var (t, id) := Fetch(s, key);
    forall i: nat, k | UnderWay(s, i, k)
      ensures UnderWay(t, i, k)
    {
      assert i < |s.issued| && t.issued[i] == s.issued[i];
    }
  }

  /** A refresh has a read of every one of its keys under way. */
  lemma {:induction false} RefreshReadsEveryKey(s: State, keys: seq<string>, key: string)
    requires Coalesced(s) && key in keys
    ensures exists id: nat :: UnderWay(FetchAll(s, keys), id, key)
  {
    hide Coalesced, Fetch, UnderWay;
    var n := |keys| - 1;
    var mid := FetchAll(s, keys[..n]);
    FetchAllCoalesces(s, keys[..n]);
    FetchIsUnderWay(mid, keys[n]);
    var (t, id) := Fetch(mid, keys[n]);
    assert FetchAll(s, keys) == t;
    if key == keys[n] {
      assert UnderWay(t, id, key);
    } else {
      assert keys == keys[..n] + [keys[n]];
      RefreshReadsEveryKey(s, keys[..n], key);
      var earlier: nat :| UnderWay(mid, earlier, key);
      assert UnderWay(t, earlier, key);
    }
  }

  // ---------------------------------------------------------------------------
  // What a read tells those who await it
  // ---------------------------------------------------------------------------

  /**
   A read that settles in its own generation tells those who await it what is known of the key
   from then on, and throws only when the reader failed.
   */
  lemma SettledTellsWhatIsKnown(ttl: int, events: seq<Event>, key: string, r: Result)
    requires events != [] && Reads(ttl, events, |events| - 1, key, r)
    ensures var i := |events| - 1;
      var id := events[i].read;
      && id < |After(ttl, events).issued|
      && After(ttl, events).issued[id].outcome.Some?
      && match After(ttl, events).issued[id].outcome.value
         case Rejected => r == Failed
         case Resolved(value) => r != Failed && Knows(ttl, events, key) == Known(value)
  {
    CacheIsKnowledge(ttl, events, key);
    hide Knows;
    BeforeStep(ttl, events, |events| - 1);
    assert events[..|events|] == events;
  }

  // ---------------------------------------------------------------------------
  // What a secret check decides
  // ---------------------------------------------------------------------------

  /**
   A check that resumes accepts exactly a request that is valid under the secret it awaited; it
   refuses only after a forced look, and throws exactly when the read did.
   */
  lemma CheckFollowsTheSecret(s: State, now: int, key: string, verify: string -> bool, phase: Phase)
    requires phase.AwaitingCached? || phase.AwaitingFresh?
    ensures var answer := Answer(s, phase.started);
      var next := ResumeCheck(s, now, key, verify, phase).1;
      && (next == phase <== answer.None?)
      && (next == Threw <==> answer == Some(Rejected))
      && (next == Decided(true) <==> exists v :: answer == Some(Resolved(v)) && ValidUnder(verify, v))
      && (next == Decided(false) <==>
          phase.AwaitingFresh? && exists v :: answer == Some(Resolved(v)) && !ValidUnder(verify, v))
      && (phase.AwaitingCached? && (exists v :: answer == Some(Resolved(v)) && !ValidUnder(verify, v)) ==>
            next == AwaitingFresh(Get(s, now, key, true).1))
  {
    hide Get;
    var answer := Answer(s, phase.started);
    if answer.Some? && answer.value.Resolved? {
      assert answer == Some(Resolved(answer.value.value));
    }
  }

  /** An empty secret validates nothing. */
  lemma NothingIsValidUnderNone(verify: string -> bool)
    ensures !ValidUnder(verify, None) && !ValidUnder(verify, Some(""))
  {
  }
}
