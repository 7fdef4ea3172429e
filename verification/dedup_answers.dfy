/** What the deduplication caches answer, and for how long they remember. */
module DedupAnswers {
  import opened Options
  import opened JsMaps
  import opened DedupCaches
  import opened DedupRuns

  // ---------------------------------------------------------------------------
  // Replies to finished updates
  // ---------------------------------------------------------------------------

  /** `get` answers `reply` before the run and after each of its calls. */
  ghost predicate AlwaysAnswered(s: State, calls: seq<Call>, id: int, reply: Reply, later: int) {
    forall i :: 0 <= i <= |calls| ==> Get(Upto(s, calls, i), later, id).1 == Some(reply)
  }

  /** A call that neither finalizes `id` anew nor resets the cache, within the time to live. */
  predicate KeepsReply(generation: int, c: Call, id: int, until: int) {
    c.now <= until && !c.op.ResetOp? && (c.op.SetOp? ==> c.op.id != id || c.op.reservedIn != generation)
  }

  ghost predicate AllKeepReply(generation: int, calls: seq<Call>, id: int, until: int) {
    forall i :: 0 <= i < |calls| ==> KeepsReply(generation, calls[i], id, until)
  }

  /** What a completion stores, and until when. */
  lemma SetStores(s: State, now: int, id: int, reply: Reply)
    requires Fits(s)
    ensures var t := Set(s, now, id, reply, s.generation);
      Held(t, id, Entry(reply.body, reply.status, now + s.ttl, false, s.generation)) && t.generation == s.generation
  {
    hide MakeRoom, JsMap.Valid;
    var s1 := if AtOrBelow(id, s.mark) then s else s.(mark := Some(id));
    RoomValid(s1, now);
    PutValid(MakeRoom(s1, now).cache, id, Entry(reply.body, reply.status, now + s.ttl, false, s.generation));
  }

  lemma GetOfHeld(s: State, now: int, id: int, e: Entry)
    requires Held(s, id, e) && now <= e.expiresAt
    ensures Get(s, now, id).1 == if e.processing then None else Some(Reply(e.body, e.status))
  {
  }

  lemma GetOfAbsent(s: State, now: int, id: int)
    requires id !in s.cache.vals
    ensures Get(s, now, id).1 == None
  {
  }

  /**
   After a completion at time `t` with `reply`, `get` answers exactly that reply up to `t + ttl`,
   whatever else is called, if and only if no call evicts the entry.
   */
  lemma CompletedIsAnswered(s: State, t: int, id: int, reply: Reply, calls: seq<Call>, later: int)
    requires Fits(s) && later <= t + s.ttl
    requires AllKeepReply(s.generation, calls, id, t + s.ttl)
    ensures var s1 := Set(s, t, id, reply, s.generation);
      AlwaysAnswered(s1, calls, id, reply, later) <==> NoneEvicts(s1, calls, id, |calls|)
  {
    hide Set, Get, Held, NoneEvicts, Upto;
    var s1 := Set(s, t, id, reply, s.generation);
    var e := Entry(reply.body, reply.status, t + s.ttl, false, s.generation);
    SetStores(s, t, id, reply);
    RepliesAreSpared(s.generation, calls, id, e);
    HeldUpto(s1, id, e, calls, |calls|);
    if NoneEvicts(s1, calls, id, |calls|) {
      forall i | 0 <= i <= |calls|
        ensures Get(Upto(s1, calls, i), later, id).1 == Some(reply)
      {
        GetOfHeld(Upto(s1, calls, i), later, id, e);
      }
    } else {
      var i :| 0 <= i <= |calls| && id !in Upto(s1, calls, i).cache.vals;
      GetOfAbsent(Upto(s1, calls, i), later, id);
    }
  }

  lemma RepliesAreSpared(generation: int, calls: seq<Call>, id: int, e: Entry)
    requires AllKeepReply(generation, calls, id, e.expiresAt) && !e.processing
    ensures AllSpare(generation, calls, id, e)
  {
  }

  /** A call that completes `id`, for the current bot. */
  predicate Completes(generation: int, c: Call, id: int) {
    c.op.SetOp? && c.op.id == id && c.op.reservedIn == generation
  }

  /** The last reply that the calls gave for `id` since the cache was last reset, and when. */
  function LastReply(calls: seq<Call>, id: int): Option<(Reply, int)> {
    if calls == [] then None
    else
      var init, c := calls[..|calls| - 1], calls[|calls| - 1];
      if c.op.ResetOp? then None
      else if Completes(Resets(init), c, id) then Some((c.op.reply, c.now))
      else LastReply(init, id)
  }

  /** A finalized entry holds the last reply, until its time to live is over. */
  ghost predicate TellsLast(s: State, last: Option<(Reply, int)>, id: int, ttl: int) {
    id in s.cache.vals && !s.cache.vals[id].processing ==>
      && last.Some?
      && last.value.0 == Reply(s.cache.vals[id].body, s.cache.vals[id].status)
      && s.cache.vals[id].expiresAt == last.value.1 + ttl
  }

  lemma StepTellsLast(s: State, c: Call, last: Option<(Reply, int)>, id: int)
    requires TellsLast(s, last, id, s.ttl)
    ensures TellsLast(Step(s, c).0,
                      if c.op.ResetOp? then None else if Completes(s.generation, c, id) then Some((c.op.reply, c.now)) else last,
                      id, s.ttl)
  {
    hide MakeRoom, JsMap.Keep;
    match c.op
    case ReserveOp(other) => RoomShrinks(s.(cache := s.cache.Remove(other)), c.now, id);
    case SetOp(other, _, _) => RoomShrinks(if AtOrBelow(other, s.mark) then s else s.(mark := Some(other)), c.now, id);
    case SweepOp => SweepShrinks(s, c.now, id);
    case _ =>
  }

  lemma SweepShrinks(s: State, now: int, id: int)
    ensures var t := Sweep(s, now);
      id in t.cache.vals ==> id in s.cache.vals && t.cache.vals[id] == s.cache.vals[id]
  {
  }

  lemma RoomShrinks(s: State, now: int, id: int)
    ensures var t := MakeRoom(s, now);
      id in t.cache.vals ==> id in s.cache.vals && t.cache.vals[id] == s.cache.vals[id]
  {
    hide JsMap.Keep;
    SweepShrinks(s, now, id);
  }

  lemma {:induction false} TellsLastReply(ttl: int, maxSize: int, calls: seq<Call>, id: int)
    ensures TellsLast(StateAfter(ttl, maxSize, calls), LastReply(calls, id), id, ttl)
    ensures StateAfter(ttl, maxSize, calls).ttl == ttl
  {
    if calls != [] {
      hide Step, TellsLast, Completes;
      var init, c := calls[..|calls| - 1], calls[|calls| - 1];
      TellsLastReply(ttl, maxSize, init, id);
      MarkIsGreatestFinalized(ttl, maxSize, init);
      StepTellsLast(StateAfter(ttl, maxSize, init), c, LastReply(init, id), id);
      StepGeneration(StateAfter(ttl, maxSize, init), c);
    }
  }

  /**
   After every run, whatever `get` answers is the last reply given for that id since the cache was
   reset, and is not older than the time to live.
   */
  lemma AnswersAreLastReplies(ttl: int, maxSize: int, calls: seq<Call>, now: int, id: int, reply: Reply)
    requires Get(StateAfter(ttl, maxSize, calls), now, id).1 == Some(reply)
    ensures LastReply(calls, id).Some? && LastReply(calls, id).value.0 == reply
    ensures now <= LastReply(calls, id).value.1 + ttl
  {
    hide StateAfter, LastReply;
    TellsLastReply(ttl, maxSize, calls, id);
  }

  /** No finalized entry of `id`: it is absent, or only reserved. */
  predicate Unfinished(s: State, id: int) {
    id in s.cache.vals ==> s.cache.vals[id].processing
  }

  lemma StepUnfinished(s: State, c: Call, id: int)
    requires Unfinished(s, id) && !Completes(s.generation, c, id)
    ensures Unfinished(Step(s, c).0, id)
  {
    hide MakeRoom, JsMap.Keep;
    match c.op
    case ReserveOp(other) => RoomShrinks(s.(cache := s.cache.Remove(other)), c.now, id);
    case SetOp(other, _, _) => RoomShrinks(if AtOrBelow(other, s.mark) then s else s.(mark := Some(other)), c.now, id);
    case SweepOp => SweepShrinks(s, c.now, id);
    case _ =>
  }

  /** None of the calls completes `id`, counting the generation as it is when each is made. */
  predicate NeverCompleted(generation: int, calls: seq<Call>, id: int)
    decreases |calls|
  {
    calls == [] ||
    (!Completes(generation, calls[0], id) && NeverCompleted(NextGeneration(generation, calls[0].op), calls[1..], id))
  }

  /** An update that is only reserved is never answered, until it is completed. */
  lemma {:induction false} ReservedIsNotAnswered(s: State, calls: seq<Call>, id: int, later: int)
    requires Unfinished(s, id) && NeverCompleted(s.generation, calls, id)
    ensures Get(Run(s, calls), later, id).1 == None
    decreases |calls|
  {
    if calls != [] {
      hide Step, Get, Unfinished, Completes;
      StepUnfinished(s, calls[0], id);
      StepGeneration(s, calls[0]);
      ReservedIsNotAnswered(Step(s, calls[0]).0, calls[1..], id, later);
    }
  }

  /** `get` removes the entry it finds expired, and nothing else. */
  lemma GetRemovesTheExpired(s: State, now: int, id: int, other: int)
    ensures other in Get(s, now, id).0.cache.vals <==>
            other in s.cache.vals && (other == id ==> now <= s.cache.vals[id].expiresAt)
    ensures other in Get(s, now, id).0.cache.vals ==> Get(s, now, id).0.cache.vals[other] == s.cache.vals[other]
  {
  }

  /** A sweep removes the expired entries and no others, and keeps the order. */
  lemma SweepRemovesTheExpired(s: State, now: int, id: int)
    ensures id in Sweep(s, now).cache.vals <==> id in s.cache.vals && now <= s.cache.vals[id].expiresAt
    ensures id in Sweep(s, now).cache.vals ==> Sweep(s, now).cache.vals[id] == s.cache.vals[id]
    ensures s.cache.Valid() ==> (id in Sweep(s, now).cache.keys <==> id in s.cache.keys && now <= s.cache.vals[id].expiresAt)
  {
    KeptMember(s.cache.keys, s.cache.vals, Unexpired(now), id);
  }

  // ---------------------------------------------------------------------------
  // String ids that have been marked
  // ---------------------------------------------------------------------------

  /** `key` was marked, is not reserved, and is remembered until `expiry`. */
  ghost predicate Remembered(s: Seen, key: string, expiry: int) {
    s.cache.Valid() && key in s.cache.vals && s.cache.vals[key] == expiry && key !in s.processing
  }

  /** Making room takes `key`: without the expired keys the map is still full, and `key` is the oldest. */
  predicate CrowdedSeen(s: Seen, now: int, key: string) {
    && |s.cache.keys| >= s.maxSize
    && var left := SweepSeen(s, now).cache.keys; |left| >= s.maxSize && left != [] && left[0] == key
  }

  /** The call marks another key, and to make room evicts `key`. */
  predicate EvictsKey(s: Seen, now: int, op: SeenOp, key: string) {
    match op
    case MarkOp(other) => other != key && CrowdedSeen(s, now, key)
    case CheckOp(other) => other != key && !Has(s, now, other).1 && CrowdedSeen(Has(s, now, other).0, now, key)
    case _ => false
  }

  lemma ForgetOther(s: Seen, key: string, expiry: int, other: string)
    requires Remembered(s, key, expiry) && other != key
    ensures Remembered(s.(cache := s.cache.Remove(other)), key, expiry)
  {
    RemoveValid(s.cache, other);
  }

  lemma SweepRemembers(s: Seen, key: string, expiry: int, now: int)
    requires Remembered(s, key, expiry) && now <= expiry
    ensures Remembered(SweepSeen(s, now), key, expiry)
  {
    KeepValid(s.cache, NotPast(now));
  }

  lemma DropRemembers(s: Seen, key: string, expiry: int)
    requires Remembered(s, key, expiry)
    ensures s.cache.keys != []
    ensures var t := s.(cache := s.cache.DropOldest());
      if s.cache.keys[0] == key then key !in t.cache.vals && key !in t.processing && t.cache.Valid()
      else Remembered(t, key, expiry)
  {
    DropOldestValid(s.cache);
    assert key in s.cache.keys;
    if s.cache.keys[0] != key {
      ForgetOther(s, key, expiry, s.cache.keys[0]);
    }
  }

  lemma MarkRemembers(s: Seen, key: string, expiry: int, now: int, other: string)
    requires Remembered(s, key, expiry) && now <= expiry && other != key
    ensures var t := Mark(s, now, other);
      if CrowdedSeen(s, now, key) then key !in t.cache.vals && key !in t.processing else Remembered(t, key, expiry)
  {
    hide JsMap.DropOldest, JsMap.Keep, JsMap.Valid;
    var s1 := s.(processing := s.processing - {other});
    SweepRemembers(s1, key, expiry, now);
    var swept := if |s1.cache.keys| >= s1.maxSize then SweepSeen(s1, now) else s1;
    DropRemembers(swept, key, expiry);
    PutValid(MakeRoomForKey(s1, now).cache, other, now + s.ttl);
  }

  lemma HasRemembers(s: Seen, key: string, expiry: int, now: int, other: string)
    requires Remembered(s, key, expiry) && now <= expiry
    ensures Remembered(Has(s, now, other).0, key, expiry)
    ensures other == key ==> Has(s, now, key) == (s, true)
  {
    hide JsMap.Remove, JsMap.Valid;
    if other != key {
      ForgetOther(s, key, expiry, other);
    }
  }

  lemma StepRemembers(s: Seen, key: string, expiry: int, now: int, op: SeenOp)
    requires Remembered(s, key, expiry) && now <= expiry && op != MarkOp(key)
    ensures var t := StepSeen(s, now, op);
      if EvictsKey(s, now, op, key) then key !in t.cache.vals && key !in t.processing else Remembered(t, key, expiry)
  {
    hide Has, Mark, JsMap.Valid, CrowdedSeen, JsMap.Keep;
    match op
    case HasOp(other) => HasRemembers(s, key, expiry, now, other);
    case CheckOp(other) =>
      HasRemembers(s, key, expiry, now, other);
      if other != key && !Has(s, now, other).1 {
        MarkRemembers(Has(s, now, other).0, key, expiry, now, other);
      }
    case ReserveSeenOp(other) => HasRemembers(s, key, expiry, now, other);
    case UnreserveSeenOp(other) =>
    case MarkOp(other) => MarkRemembers(s, key, expiry, now, other);
    case SweepSeenOp => SweepRemembers(s, key, expiry, now);
  }

  /** The state after the first `k` calls. */
  function SeenUpto(s: Seen, calls: seq<(int, SeenOp)>, k: nat): Seen
    requires k <= |calls|
  {
    RunSeen(s, calls[..k])
  }

  lemma {:induction false} RunSeenAppend(s: Seen, calls: seq<(int, SeenOp)>, last: (int, SeenOp))
    ensures RunSeen(s, calls + [last]) == StepSeen(RunSeen(s, calls), last.0, last.1)
    decreases |calls|
  {
    hide StepSeen;
    if calls == [] {
      assert [] + [last] == [last] && [last][1..] == [];
    } else {
      assert (calls + [last])[1..] == calls[1..] + [last];
      RunSeenAppend(StepSeen(s, calls[0].0, calls[0].1), calls[1..], last);
    }
  }

  lemma SeenUptoStep(s: Seen, calls: seq<(int, SeenOp)>, k: nat)
    requires k < |calls|
    ensures SeenUpto(s, calls, k + 1) == StepSeen(SeenUpto(s, calls, k), calls[k].0, calls[k].1)
  {
    hide StepSeen;
    assert calls[..k + 1] == calls[..k] + [calls[k]];
    RunSeenAppend(s, calls[..k], calls[k]);
  }

  ghost predicate NoneEvictsKey(s: Seen, calls: seq<(int, SeenOp)>, key: string, k: nat)
    requires k <= |calls|
  {
    forall i :: 0 <= i < k ==> !EvictsKey(SeenUpto(s, calls, i), calls[i].0, calls[i].1, key)
  }

  /** Every look says that `key` has been seen, and it cannot be reserved. */
  predicate SaysSeen(s: Seen, later: int, key: string) {
    Has(s, later, key).1 && Check(s, later, key).1 && !ReserveKey(s, later, key).1
  }

  ghost predicate AlwaysSaysSeen(s: Seen, calls: seq<(int, SeenOp)>, key: string, later: int, k: nat)
    requires k <= |calls|
  {
    forall i :: 0 <= i <= k ==> SaysSeen(SeenUpto(s, calls, i), later, key)
  }

  /** Calls that do not mark `key` again, within its time to live. */
  ghost predicate AllInTime(calls: seq<(int, SeenOp)>, key: string, expiry: int) {
    forall i :: 0 <= i < |calls| ==> calls[i].0 <= expiry && calls[i].1 != MarkOp(key)
  }

  lemma RememberedSaysSeen(s: Seen, key: string, expiry: int, later: int)
    requires Remembered(s, key, expiry) && later <= expiry
    ensures SaysSeen(s, later, key)
  {
  }

  lemma GoneSaysNotSeen(s: Seen, key: string, later: int)
    requires key !in s.cache.vals && key !in s.processing
    ensures !Has(s, later, key).1 && !Check(s, later, key).1 && ReserveKey(s, later, key).1
  {
    hide Mark, JsMap.Remove;
  }

  lemma {:induction false} RememberedUpto(
      s: Seen, key: string, expiry: int, calls: seq<(int, SeenOp)>, later: int, k: nat)
    requires Remembered(s, key, expiry) && AllInTime(calls, key, expiry) && k <= |calls| && later <= expiry
    ensures NoneEvictsKey(s, calls, key, k) <==> AlwaysSaysSeen(s, calls, key, later, k)
    ensures NoneEvictsKey(s, calls, key, k) ==> Remembered(SeenUpto(s, calls, k), key, expiry)
    decreases k
  {
    hide Remembered, EvictsKey, StepSeen, SeenUpto, SaysSeen;
    if k == 0 {
      NothingSeen(s, calls);
      RememberedSaysSeen(s, key, expiry, later);
    } else {
      RememberedUpto(s, key, expiry, calls, later, k - 1);
      SeenUptoStep(s, calls, k - 1);
      if NoneEvictsKey(s, calls, key, k - 1) {
        var t := SeenUpto(s, calls, k - 1);
        StepRemembers(t, key, expiry, calls[k - 1].0, calls[k - 1].1);
        if EvictsKey(t, calls[k - 1].0, calls[k - 1].1, key) {
          NotSeen(SeenUpto(s, calls, k), key, later);
        } else {
          RememberedSaysSeen(SeenUpto(s, calls, k), key, expiry, later);
        }
      }
    }
  }

  lemma NothingSeen(s: Seen, calls: seq<(int, SeenOp)>)
    ensures SeenUpto(s, calls, 0) == s
  {
  }

  lemma NotSeen(s: Seen, key: string, later: int)
    requires key !in s.cache.vals && key !in s.processing
    ensures !SaysSeen(s, later, key)
  {
    GoneSaysNotSeen(s, key, later);
  }

  /**
   After a mark at time `t`, every look up to `t + ttl` says that the key has been seen, whatever
   other keys are marked, reserved, given up or swept, if and only if no call evicts it.
   */
  lemma MarkedIsRemembered(s: Seen, t: int, key: string, calls: seq<(int, SeenOp)>, later: int)
    requires s.cache.Valid() && AllInTime(calls, key, t + s.ttl) && later <= t + s.ttl
    ensures var s1 := Mark(s, t, key);
      AlwaysSaysSeen(s1, calls, key, later, |calls|) <==> NoneEvictsKey(s1, calls, key, |calls|)
  {
    hide Mark, NoneEvictsKey, AlwaysSaysSeen, AllInTime;
    MarkStores(s, t, key);
    RememberedUpto(Mark(s, t, key), key, t + s.ttl, calls, later, |calls|);
  }

  lemma MarkStores(s: Seen, t: int, key: string)
    requires s.cache.Valid()
    ensures Remembered(Mark(s, t, key), key, t + s.ttl)
  {
    hide JsMap.Keep, JsMap.DropOldest;
    var s1 := s.(processing := s.processing - {key});
    KeepValid(s1.cache, NotPast(t));
    DropOldestValid(s1.cache);
    DropOldestValid(SweepSeen(s1, t).cache);
    PutValid(MakeRoomForKey(s1, t).cache, key, t + s.ttl);
  }

  /** The call marks the key: outright, or because the check has not seen it. */
  predicate Marks(s: Seen, now: int, op: SeenOp, key: string) {
    op == MarkOp(key) || (op == CheckOp(key) && !Has(s, now, key).1)
  }

  /** When the key was last marked. */
  function LastMark(s: Seen, calls: seq<(int, SeenOp)>, key: string): Option<int> {
    if calls == [] then None
    else
      var init, last := calls[..|calls| - 1], calls[|calls| - 1];
      if Marks(RunSeen(s, init), last.0, last.1, key) then Some(last.0) else LastMark(s, init, key)
  }

  /** An entry of the key is that of its last mark. */
  ghost predicate TellsMark(s: Seen, last: Option<int>, key: string, ttl: int) {
    key in s.cache.vals ==> last.Some? && s.cache.vals[key] == last.value + ttl
  }

  lemma StepTellsMark(s: Seen, now: int, op: SeenOp, key: string, last: Option<int>)
    requires TellsMark(s, last, key, s.ttl)
    ensures TellsMark(StepSeen(s, now, op), if Marks(s, now, op, key) then Some(now) else last, key, s.ttl)
    ensures StepSeen(s, now, op).ttl == s.ttl
  {
  }

  lemma {:induction false} TellsLastMark(ttl: int, maxSize: int, calls: seq<(int, SeenOp)>, key: string)
    ensures var s0 := Seen(ttl, maxSize, Empty(), {});
      TellsMark(RunSeen(s0, calls), LastMark(s0, calls, key), key, ttl) && RunSeen(s0, calls).ttl == ttl
    decreases |calls|
  {
    var s0 := Seen(ttl, maxSize, Empty(), {});
    if calls != [] {
      hide StepSeen, TellsMark, Marks, RunSeen;
      var init, last := calls[..|calls| - 1], calls[|calls| - 1];
      assert calls == init + [last];
      TellsLastMark(ttl, maxSize, init, key);
      RunSeenAppend(s0, init, last);
      StepTellsMark(RunSeen(s0, init), last.0, last.1, key, LastMark(s0, init, key));
    }
  }

  /** After every run, a key that is not reserved and not marked within the time to live is free. */
  lemma UnmarkedIsFree(ttl: int, maxSize: int, calls: seq<(int, SeenOp)>, key: string, now: int)
    requires var s0 := Seen(ttl, maxSize, Empty(), {});
      && key !in RunSeen(s0, calls).processing
      && (LastMark(s0, calls, key).Some? ==> now > LastMark(s0, calls, key).value + ttl)
    ensures var s := RunSeen(Seen(ttl, maxSize, Empty(), {}), calls);
      !Has(s, now, key).1 && !Check(s, now, key).1 && ReserveKey(s, now, key).1
  {
    hide RunSeen, LastMark, Mark, JsMap.Remove;
    TellsLastMark(ttl, maxSize, calls, key);
  }

  /** A key that was given up, and not marked meanwhile, can be reserved again. */
  lemma GivenUpIsFree(s: Seen, now: int, key: string, later: int)
    requires ReserveKey(s, now, key).1
    ensures ReserveKey(UnreserveKey(ReserveKey(s, now, key).0, key), later, key).1
  {
  }

  /** Looking for a key that was marked too long ago forgets it; nothing else is forgotten by looking. */
  lemma LookingForgetsTheExpired(s: Seen, now: int, key: string, other: string)
    requires key !in s.processing
    ensures other in Has(s, now, key).0.cache.vals <==>
            other in s.cache.vals && (other == key ==> now <= s.cache.vals[key])
    ensures other in Has(s, now, key).0.cache.vals ==> Has(s, now, key).0.cache.vals[other] == s.cache.vals[other]
  {
  }

  /** A sweep forgets the keys marked too long ago and no others, and keeps the order. */
  lemma SweepForgetsTheExpired(s: Seen, now: int, key: string)
    ensures key in SweepSeen(s, now).cache.vals <==> key in s.cache.vals && now <= s.cache.vals[key]
    ensures key in SweepSeen(s, now).cache.vals ==> SweepSeen(s, now).cache.vals[key] == s.cache.vals[key]
    ensures s.cache.Valid() ==> (key in SweepSeen(s, now).cache.keys <==> key in s.cache.keys && now <= s.cache.vals[key])
    ensures SweepSeen(s, now).processing == s.processing
  {
    KeptMember(s.cache.keys, s.cache.vals, NotPast(now), key);
  }
}
