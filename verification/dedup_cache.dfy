/** The webhook deduplication caches: Telegram update ids, and string message ids. */
module DedupCaches {
  import opened Options
  import opened JsMaps

  datatype Entry = Entry(body: string, status: int, expiresAt: int, processing: bool, generation: int)

  datatype Reply = Reply(body: string, status: int)

  datatype ReserveResult = Reserved | Duplicate | AlreadyProcessed

  /** `mark` is the high-water mark; there is none before the first update is finalized. */
  datatype State = State(
    ttl: int, maxSize: int,
    cache: JsMap<int, Entry>, mark: Option<int>, generation: int)

  predicate AtOrBelow(id: int, mark: Option<int>) {
    mark.Some? && id <= mark.value
  }

  function Unexpired(now: int): Entry -> bool {
    (e: Entry) => now <= e.expiresAt
  }

  function Sweep(s: State, now: int): State {
    s.(cache := s.cache.Keep(Unexpired(now)))
  }

  /** At capacity, drop the expired entries; if that does not help, drop the oldest. */
  function MakeRoom(s: State, now: int): (r: State)
    ensures r == s.(cache := r.cache)
  {
    var swept := if |s.cache.keys| >= s.maxSize then Sweep(s, now) else s;
    if |swept.cache.keys| >= s.maxSize then swept.(cache := swept.cache.DropOldest()) else swept
  }

  function Get(s: State, now: int, id: int): (State, Option<Reply>) {
    if id !in s.cache.vals then (s, None)
    else
      var e := s.cache.vals[id];
      if now > e.expiresAt then (s.(cache := s.cache.Remove(id)), None)
      else if e.processing then (s, None)
      else (s, Some(Reply(e.body, e.status)))
  }

  function Reserve(s: State, now: int, id: int): (State, ReserveResult) {
    if id in s.cache.vals && now <= s.cache.vals[id].expiresAt then (s, Duplicate)
    else
      var s1 := s.(cache := s.cache.Remove(id));
      if AtOrBelow(id, s.mark) then (s1, AlreadyProcessed)
      else
        var s2 := MakeRoom(s1, now);
        var e := Entry("", 0, now + s.ttl, true, s.generation);
        (s2.(cache := s2.cache.Put(id, e)), Reserved)
  }

  function Unreserve(s: State, id: int, reservedIn: int): State {
    if reservedIn == s.generation && id in s.cache.vals && s.cache.vals[id].processing
    then s.(cache := s.cache.Remove(id)) else s
  }

  function Set(s: State, now: int, id: int, reply: Reply, reservedIn: int): State {
    if reservedIn != s.generation then s
    else
      var s1 := if AtOrBelow(id, s.mark) then s else s.(mark := Some(id));
      var s2 := MakeRoom(s1, now);
      s2.(cache := s2.cache.Put(id, Entry(reply.body, reply.status, now + s.ttl, false, s.generation)))
  }

  function Reset(s: State): State {
    s.(cache := Empty(), mark := None, generation := s.generation + 1)
  }

  /** The clock is read once per call. */
  class DedupCache {
    const ttlMs: int
    const maxSize: int
    var cache: JsMap<int, Entry>
    var highWaterMark: Option<int>
    var generation: int

    ghost predicate Valid()
      reads this
    {
      cache.Valid()
    }

    ghost function View(): State
      reads this
    {
      State(ttlMs, maxSize, cache, highWaterMark, generation)
    }

    constructor (ttlMs: int, maxSize: int)
      ensures Valid() && View() == State(ttlMs, maxSize, Empty(), None, 0)
    {
      this.ttlMs, this.maxSize := ttlMs, maxSize;
      cache, highWaterMark, generation := Empty(), None, 0;
    }

    method EvictExpired(now: int)
      requires Valid()
      modifies this
      ensures Valid() && View() == Sweep(old(View()), now)
    {
      hide JsMap.Valid, JsMap.Remove, JsMap.Keep, SweptTo;
      ghost var start := cache;
      var keys := cache.keys;
      SweepStart(start, Unexpired(now));
      for i := 0 to |keys|
        invariant keys == start.keys
        invariant SweptTo(cache, start, Unexpired(now), i)
        invariant View() == old(View()).(cache := cache)
      {
        SweepStep(cache, start, Unexpired(now), i);
        if now > cache.vals[keys[i]].expiresAt {
          cache := cache.Remove(keys[i]);
        }
      }
      SweepDone(cache, start, Unexpired(now));
      KeepValid(start, Unexpired(now));
    }

    method EvictForOneMore(now: int)
      requires Valid()
      modifies this
      ensures Valid() && View() == MakeRoom(old(View()), now)
    {
      hide JsMap.Valid, Without, Kept;
      if |cache.keys| >= maxSize {
        EvictExpired(now);
      }
      if |cache.keys| >= maxSize {
        DropOldestValid(cache);
        if |cache.keys| > 0 {
          cache := cache.Remove(cache.keys[0]);
        }
      }
    }

    method GetReply(now: int, id: int) returns (reply: Option<Reply>)
      requires Valid()
      modifies this
      ensures Valid() && (View(), reply) == Get(old(View()), now, id)
    {
      if id !in cache.vals {
        return None;
      }
      var entry := cache.vals[id];
      if now > entry.expiresAt {
        RemoveValid(cache, id);
        cache := cache.Remove(id);
        return None;
      }
      if entry.processing {
        return None;
      }
      return Some(Reply(entry.body, entry.status));
    }

    method ReserveUpdate(now: int, id: int) returns (result: ReserveResult)
      requires Valid()
      modifies this
      ensures Valid() && (View(), result) == Reserve(old(View()), now, id)
    {
      hide JsMap.Valid, JsMap.Put, JsMap.Remove, MakeRoom;
      RemoveValid(cache, id);
      if id in cache.vals && now <= cache.vals[id].expiresAt {
        return Duplicate;
      }
      if id in cache.vals {
        cache := cache.Remove(id);
      }
      if highWaterMark.Some? && id <= highWaterMark.value {
        return AlreadyProcessed;
      }
      EvictForOneMore(now);
      var entry := Entry("", 0, now + ttlMs, true, generation);
      PutValid(cache, id, entry);
      cache := cache.Put(id, entry);
      return Reserved;
    }

    method UnreserveUpdate(id: int, reservedIn: int)
      requires Valid()
      modifies this
      ensures Valid() && View() == Unreserve(old(View()), id, reservedIn)
    {
      if reservedIn != generation {
        return;
      }
      if id in cache.vals && cache.vals[id].processing {
        RemoveValid(cache, id);
        cache := cache.Remove(id);
      }
    }

    method SetReply(now: int, id: int, reply: Reply, reservedIn: int)
      requires Valid()
      modifies this
      ensures Valid() && View() == Set(old(View()), now, id, reply, reservedIn)
    {
      hide JsMap.Valid, JsMap.Put, MakeRoom;
      if reservedIn != generation {
        return;
      }
      if highWaterMark.None? || id > highWaterMark.value {
        highWaterMark := Some(id);
      }
      EvictForOneMore(now);
      var entry := Entry(reply.body, reply.status, now + ttlMs, false, generation);
      PutValid(cache, id, entry);
      cache := cache.Put(id, entry);
    }

    method ResetAll()
      modifies this
      ensures Valid() && View() == Reset(old(View()))
    {
      cache := Empty();
      highWaterMark := None;
      generation := generation + 1;
    }
  }

  // ---------------------------------------------------------------------------
  // String ids
  // ---------------------------------------------------------------------------

  datatype Seen = Seen(ttl: int, maxSize: int, cache: JsMap<string, int>, processing: set<string>)

  function NotPast(now: int): int -> bool {
    expiresAt => now <= expiresAt
  }

  function Has(s: Seen, now: int, key: string): (Seen, bool) {
    if key in s.processing then (s, true)
    else if key in s.cache.vals && now <= s.cache.vals[key] then (s, true)
    else (s.(cache := s.cache.Remove(key)), false)
  }

  function ReserveKey(s: Seen, now: int, key: string): (Seen, bool) {
    var (s1, has) := Has(s, now, key);
    if has then (s1, false) else (s1.(processing := s1.processing + {key}), true)
  }

  function UnreserveKey(s: Seen, key: string): Seen {
    s.(processing := s.processing - {key})
  }

  function SweepSeen(s: Seen, now: int): Seen {
    s.(cache := s.cache.Keep(NotPast(now)))
  }

  function MakeRoomForKey(s: Seen, now: int): (r: Seen)
    ensures r == s.(cache := r.cache)
  {
    var swept := if |s.cache.keys| >= s.maxSize then SweepSeen(s, now) else s;
    if |swept.cache.keys| >= s.maxSize then swept.(cache := swept.cache.DropOldest()) else swept
  }

  function Mark(s: Seen, now: int, key: string): Seen {
    var s1 := MakeRoomForKey(s.(processing := s.processing - {key}), now);
    s1.(cache := s1.cache.Put(key, now + s.ttl))
  }

  function Check(s: Seen, now: int, key: string): (Seen, bool) {
    var (s1, has) := Has(s, now, key);
    if has then (s1, true) else (Mark(s1, now, key), false)
  }

  class StringDedupCache {
    const ttlMs: int
    const maxSize: int
    var cache: JsMap<string, int>
    var processing: set<string>

    ghost predicate Valid()
      reads this
    {
      cache.Valid()
    }

    ghost function View(): Seen
      reads this
    {
      Seen(ttlMs, maxSize, cache, processing)
    }

    constructor (ttlMs: int, maxSize: int)
      ensures Valid() && View() == Seen(ttlMs, maxSize, Empty(), {})
    {
      this.ttlMs, this.maxSize := ttlMs, maxSize;
      cache, processing := Empty(), {};
    }

    method HasKey(now: int, key: string) returns (has: bool)
      requires Valid()
      modifies this
      ensures Valid() && (View(), has) == Has(old(View()), now, key)
    {
      RemoveValid(cache, key);
      if key in processing {
        return true;
      }
      if key in cache.vals {
        if now <= cache.vals[key] {
          return true;
        }
        cache := cache.Remove(key);
      }
      return false;
    }

    method ReserveFor(now: int, key: string) returns (reserved: bool)
      requires Valid()
      modifies this
      ensures Valid() && (View(), reserved) == ReserveKey(old(View()), now, key)
    {
      var has := HasKey(now, key);
      if has {
        return false;
      }
      processing := processing + {key};
      return true;
    }

    method UnreserveFor(key: string)
      requires Valid()
      modifies this
      ensures Valid() && View() == UnreserveKey(old(View()), key)
    {
      processing := processing - {key};
    }

    method EvictExpired(now: int)
      requires Valid()
      modifies this
      ensures Valid() && View() == SweepSeen(old(View()), now)
    {
      hide JsMap.Valid, JsMap.Remove, JsMap.Keep, SweptTo;
      ghost var start := cache;
      var keys := cache.keys;
      SweepStart(start, NotPast(now));
      for i := 0 to |keys|
        invariant keys == start.keys
        invariant SweptTo(cache, start, NotPast(now), i)
        invariant View() == old(View()).(cache := cache)
      {
        SweepStep(cache, start, NotPast(now), i);
        if now > cache.vals[keys[i]] {
          cache := cache.Remove(keys[i]);
        }
      }
      SweepDone(cache, start, NotPast(now));
      KeepValid(start, NotPast(now));
    }

    method EvictForOneMore(now: int)
      requires Valid()
      modifies this
      ensures Valid() && View() == MakeRoomForKey(old(View()), now)
    {
      hide JsMap.Valid, Without, Kept;
      if |cache.keys| >= maxSize {
        EvictExpired(now);
      }
      if |cache.keys| >= maxSize {
        DropOldestValid(cache);
        if |cache.keys| > 0 {
          cache := cache.Remove(cache.keys[0]);
        }
      }
    }

    method MarkSeen(now: int, key: string)
      requires Valid()
      modifies this
      ensures Valid() && View() == Mark(old(View()), now, key)
    {
      hide JsMap.Valid, JsMap.Put, MakeRoomForKey;
      processing := processing - {key};
      EvictForOneMore(now);
      PutValid(cache, key, now + ttlMs);
      cache := cache.Put(key, now + ttlMs);
    }

    /** Whether `key` has been seen; if not, it has been now. */
    method CheckSeen(now: int, key: string) returns (seen: bool)
      requires Valid()
      modifies this
      ensures Valid() && (View(), seen) == Check(old(View()), now, key)
    {
      seen := HasKey(now, key);
      if !seen {
        MarkSeen(now, key);
      }
    }
  }
}
