/**
 The Telegram deduplication cache across bots: a credential report resets it when the bot token's
 fingerprint has changed, and not merely because the services are reported as changed.
 */
module TelegramBots {
  import opened Options
  import D = DedupCaches
  import R = DedupRuns

  /** A token as the callback tests it: an empty one counts as none. */
  function Stored(token: Option<string>): Option<string> {
    if token.Some? && token.value == "" then None else token
  }

  function Fingerprint(digest: string -> string, token: Option<string>): Option<string> {
    if Stored(token).Some? then Some(digest(token.value)) else None
  }

  datatype State = State(fingerprint: Option<string>, dedup: D.State)

  function Report(s: State, digest: string -> string, token: Option<string>): State {
    var fingerprint := Fingerprint(digest, token);
    if fingerprint != s.fingerprint then State(fingerprint, D.Reset(s.dedup)) else s
  }

  class TelegramDedup {
    var lastTelegramTokenFingerprint: Option<string>
    const telegramDedupCache: D.DedupCache

    ghost function View(): State
      reads this, telegramDedupCache
    {
      State(lastTelegramTokenFingerprint, telegramDedupCache.View())
    }

    constructor (cache: D.DedupCache)
      ensures telegramDedupCache == cache && lastTelegramTokenFingerprint == None
    {
      telegramDedupCache, lastTelegramTokenFingerprint := cache, None;
    }

    /** The part of the credential watcher's callback that guards the cache. */
    method OnCredentials(digest: string -> string, token: Option<string>)
      modifies this, telegramDedupCache
      ensures View() == Report(old(View()), digest, token)
    {
      var fingerprint := if token.Some? && token.value != "" then Some(digest(token.value)) else None;
      if fingerprint != lastTelegramTokenFingerprint {
        lastTelegramTokenFingerprint := fingerprint;
        telegramDedupCache.ResetAll();
      }
    }
  }

  // ---------------------------------------------------------------------------
  // Runs
  // ---------------------------------------------------------------------------

  /** A credential report, or a use of the cache. */
  datatype Event = Reported(token: Option<string>) | Used(call: R.Call)

  function Step(s: State, digest: string -> string, e: Event): State {
    match e
    case Reported(token) => Report(s, digest, token)
    case Used(call) => s.(dedup := R.Step(s.dedup, call).0)
  }

  function After(ttl: int, maxSize: int, digest: string -> string, events: seq<Event>): State {
    if events == [] then State(None, R.Fresh(ttl, maxSize))
    else Step(After(ttl, maxSize, digest, events[..|events| - 1]), digest, events[|events| - 1])
  }

  /** The token stored when the run ends, as far as it was reported. */
  function Token(events: seq<Event>): Option<string> {
    if events == [] then None
    else
      var e := events[|events| - 1];
      if e.Reported? then Stored(e.token) else Token(events[..|events| - 1])
  }

  /** The calls of the run, with one reset at each change of token, and none at any other report. */
  function Calls(events: seq<Event>): seq<R.Call> {
    if events == [] then []
    else
      var before, e := events[..|events| - 1], events[|events| - 1];
      match e
      case Used(call) => Calls(before) + [call]
      case Reported(token) => if Stored(token) != Token(before) then Calls(before) + [R.Call(0, R.ResetOp)] else Calls(before)
  }

  ghost predicate Injective(digest: string -> string) {
    forall a, b :: digest(a) == digest(b) ==> a == b
  }

  lemma StateAfterMore(ttl: int, maxSize: int, calls: seq<R.Call>, call: R.Call)
    ensures R.StateAfter(ttl, maxSize, calls + [call]) == R.Step(R.StateAfter(ttl, maxSize, calls), call).0
  {
    hide R.Step;
    assert (calls + [call])[..|calls|] == calls;
  }

  /** The cache forgets exactly when the bot's token changes, however often it is reported. */
  lemma {:induction false} ForgetsWhenTheTokenChanges(ttl: int, maxSize: int, digest: string -> string, events: seq<Event>)
    requires Injective(digest)
    ensures var s := After(ttl, maxSize, digest, events);
      && s.fingerprint == Fingerprint(digest, Token(events))
      && s.dedup == R.StateAfter(ttl, maxSize, Calls(events))
      && Stored(Token(events)) == Token(events)
  {
    hide R.StateAfter;
    if events == [] {
      assert R.StateAfter(ttl, maxSize, []) == R.Fresh(ttl, maxSize) by {
        StartsFresh(ttl, maxSize);
      }
    } else {
      var before, e := events[..|events| - 1], events[|events| - 1];
      ForgetsWhenTheTokenChanges(ttl, maxSize, digest, before);
      match e
      case Used(call) => StateAfterMore(ttl, maxSize, Calls(before), call);
      case Reported(token) =>
        StateAfterMore(ttl, maxSize, Calls(before), R.Call(0, R.ResetOp));
        assert Fingerprint(digest, token) == Fingerprint(digest, Token(before)) <==> Stored(token) == Token(before);
    }
  }

  lemma StartsFresh(ttl: int, maxSize: int)
    ensures R.StateAfter(ttl, maxSize, []) == R.Fresh(ttl, maxSize)
  {
  }

  /**
   Replays are refused for as long as a bot stays: after any run, an id that no entry holds is
   refused exactly when an id at least as high was finalized since the token last changed.
   */
  lemma NoReplayWhileTheBotStays(
      ttl: int, maxSize: int, digest: string -> string, events: seq<Event>, now: int, id: int)
    requires Injective(digest)
    ensures var s := After(ttl, maxSize, digest, events).dedup;
      var held := id in s.cache.vals && now <= s.cache.vals[id].expiresAt;
      D.Reserve(s, now, id).1
      == if held then D.Duplicate else if R.Passed(Calls(events), id) then D.AlreadyProcessed else D.Reserved
  {
    hide R.Passed, D.Reserve, R.StateAfter;
    ForgetsWhenTheTokenChanges(ttl, maxSize, digest, events);
    R.NoReplay(ttl, maxSize, Calls(events), now, id);
  }

  /** An empty token is no token: reporting one is reporting that there is none. */
  lemma EmptyTokenIsNone(ttl: int, maxSize: int, digest: string -> string, events: seq<Event>)
    ensures After(ttl, maxSize, digest, events + [Reported(Some(""))])
         == After(ttl, maxSize, digest, events + [Reported(None)])
  {
    assert (events + [Reported(Some(""))])[..|events|] == events == (events + [Reported(None)])[..|events|];
  }
}
