/** The sliding-window limiter for failed authentications, and the window count it stands for. */
module AuthRateLimiters {
  import opened JsMaps

  type Failures = JsMap<string, seq<int>>

  const MAX_TRACKED_IPS := 50000

  datatype State = State(maxFailures: int, windowMs: int, failures: Failures)

  /** The timestamps left once the expired ones are shifted off the front. */
  function Pruned(timestamps: seq<int>, cutoff: int): seq<int> {
    if timestamps != [] && timestamps[0] <= cutoff then Pruned(timestamps[1..], cutoff) else timestamps
  }

  function Alive(cutoff: int): seq<int> -> bool {
    timestamps => Pruned(timestamps, cutoff) != []
  }

  function Evicted(m: Failures, cutoff: int): Failures {
    JsMap(Kept(m.keys, m.vals, Alive(cutoff)),
          map ip | ip in m.vals && Alive(cutoff)(m.vals[ip]) :: Pruned(m.vals[ip], cutoff))
  }

  /** Room for one more ip: what has expired goes first, then, at the cap, the oldest entry. */
  function MakeRoom(s: State, now: int): Failures {
    if |s.failures.keys| < MAX_TRACKED_IPS then s.failures
    else
      var left := Evicted(s.failures, now - s.windowMs);
      if |left.keys| < MAX_TRACKED_IPS then left else left.DropOldest()
  }

  function Record(s: State, now: int, ip: string): State {
    if ip in s.failures.vals then s.(failures := s.failures.Put(ip, s.failures.vals[ip] + [now]))
    else s.(failures := MakeRoom(s, now).Put(ip, [now]))
  }

  function Check(s: State, now: int, ip: string): (State, bool) {
    if ip !in s.failures.vals then (s, false)
    else
      var left := Pruned(s.failures.vals[ip], now - s.windowMs);
      if left == [] then (s.(failures := s.failures.Remove(ip)), false)
      else (s.(failures := s.failures.Put(ip, left)), |left| >= s.maxFailures)
  }

  function Clear(s: State, ip: string): State {
    s.(failures := s.failures.Remove(ip))
  }

  class AuthRateLimiter {
    const maxFailures: int
    const windowMs: int
    var failures: Failures

    ghost function View(): State
      reads this
    {
      State(maxFailures, windowMs, failures)
    }

    constructor (maxFailures: int, windowMs: int)
      ensures View() == State(maxFailures, windowMs, Empty())
    {
      this.maxFailures := maxFailures;
      this.windowMs := windowMs;
      failures := Empty();
    }

    method RecordFailure(now: int, ip: string)
      requires failures.Valid()
      modifies this
      ensures View() == Record(old(View()), now, ip)
    {
      if ip !in failures.vals {
        if |failures.keys| >= MAX_TRACKED_IPS {
          EvictStale(now);
          if |failures.keys| >= MAX_TRACKED_IPS {
            failures := failures.DropOldest();
          }
        }
        RoomLeavesOut(old(View()), now, ip);
        PutTwice(failures, ip, [], [now]);
        assert [] + [now] == [now];
        failures := failures.Put(ip, []);
      }
      failures := failures.Put(ip, failures.vals[ip] + [now]);
    }

    method IsBlocked(now: int, ip: string) returns (blocked: bool)
      modifies this
      ensures (View(), blocked) == Check(old(View()), now, ip)
    {
      if ip !in failures.vals {
        return false;
      }
      var timestamps := Shift(failures.vals[ip], now - windowMs);
      failures := failures.Put(ip, timestamps);
      if timestamps == [] {
        failures := failures.Remove(ip);
        assert failures.vals == old(failures.vals) - {ip};
        return false;
      }
      return |timestamps| >= maxFailures;
    }

    method ClearIp(ip: string)
      modifies this
      ensures View() == Clear(old(View()), ip)
    {
      failures := failures.Remove(ip);
    }

    method Shift(timestamps: seq<int>, cutoff: int) returns (left: seq<int>)
      ensures left == Pruned(timestamps, cutoff)
    {
      left := timestamps;
      while left != [] && left[0] <= cutoff
        invariant Pruned(left, cutoff) == Pruned(timestamps, cutoff)
      {
        left := left[1..];
      }
    }

    method EvictStale(now: int)
      requires failures.Valid()
      modifies this
      ensures failures == Evicted(old(failures), now - windowMs)
    {
      hide Kept, Without, JsMap.Valid, JsMap.Put, JsMap.Remove, EvictedTo, Evicted, Pruned;
      ghost var start := failures;
      var keys, cutoff := failures.keys, now - windowMs;
      EvictStart(start, cutoff);
      for i := 0 to |keys|
        invariant EvictedTo(failures, start, cutoff, i)
      {
        EvictStep(failures, start, cutoff, i);
        var left := Shift(failures.vals[keys[i]], cutoff);
        failures := failures.Put(keys[i], left);
        if left == [] {
          failures := failures.Remove(keys[i]);
        }
      }
      EvictDone(failures, start, cutoff);
    }
  }

  lemma RoomLeavesOut(s: State, now: int, ip: string)
    requires s.failures.Valid() && ip !in s.failures.vals
    ensures ip !in MakeRoom(s, now).vals
  {
    hide Kept, Without, Pruned;
  }

  // ---------------------------------------------------------------------------
  // Evicting while iterating
  // ---------------------------------------------------------------------------

  ghost function EvictedVals(vals: map<string, seq<int>>, cutoff: int, before: seq<string>): map<string, seq<int>> {
    map ip | ip in vals && (ip in before ==> Alive(cutoff)(vals[ip])) ::
      if ip in before then Pruned(vals[ip], cutoff) else vals[ip]
  }

  /** The map when the loop over its keys has reached position `i`. */
  ghost predicate EvictedTo(m: Failures, start: Failures, cutoff: int, i: nat)
    requires i <= |start.keys|
  {
    && m.keys == Kept(start.keys[..i], start.vals, Alive(cutoff)) + start.keys[i..]
    && m.vals == EvictedVals(start.vals, cutoff, start.keys[..i])
  }

  lemma EvictStart(start: Failures, cutoff: int)
    ensures EvictedTo(start, start, cutoff, 0)
  {
    assert start.keys[..0] == [];
  }

  lemma EvictStep(m: Failures, start: Failures, cutoff: int, i: nat)
    requires start.Valid() && i < |start.keys| && EvictedTo(m, start, cutoff, i)
    ensures var ip := start.keys[i];
      && ip in m.vals
      && var left := Pruned(m.vals[ip], cutoff);
         EvictedTo(if left == [] then m.Put(ip, left).Remove(ip) else m.Put(ip, left), start, cutoff, i + 1)
  {
    hide Kept, Without, Pruned;
    var ip := start.keys[i];
    var before, rest := start.keys[..i], start.keys[i + 1..];
    Members(start);
    assert ip in start.keys;
    assert start.keys[..i + 1] == before + [ip] && start.keys[i..] == [ip] + rest;
    assert ip !in before && ip !in rest;
    SweepKeys(before, ip, rest, start.vals, Alive(cutoff));
    EvictVals(start.vals, cutoff, before, ip);
  }

  lemma EvictVals(vals: map<string, seq<int>>, cutoff: int, before: seq<string>, ip: string)
    requires ip in vals && ip !in before
    ensures ip in EvictedVals(vals, cutoff, before) && EvictedVals(vals, cutoff, before)[ip] == vals[ip]
    ensures var left := Pruned(vals[ip], cutoff);
      var done := EvictedVals(vals, cutoff, before)[ip := left];
      EvictedVals(vals, cutoff, before + [ip]) == if left == [] then done - {ip} else done
  {
    hide Pruned;
  }

  lemma EvictDone(m: Failures, start: Failures, cutoff: int)
    requires start.Valid() && EvictedTo(m, start, cutoff, |start.keys|)
    ensures m == Evicted(start, cutoff)
  {
    hide Kept, Pruned;
    assert start.keys[..|start.keys|] == start.keys;
    Members(start);
    assert m.vals == Evicted(start, cutoff).vals;
  }
}
