/** What the deduplication caches guarantee over whole runs of calls. */
module DedupRuns {
  import opened Options
  import opened JsMaps
  import opened DedupCaches

  datatype Op =
    | GetOp(id: int)
    | ReserveOp(id: int)
    | UnreserveOp(id: int, reservedIn: int)
    | SetOp(id: int, reply: Reply, reservedIn: int)
    | ResetOp
    | SweepOp

  datatype Call = Call(now: int, op: Op)

  datatype Answer = Nothing | Got(reply: Option<Reply>) | Answered(result: ReserveResult)

  function Step(s: State, c: Call): (State, Answer) {
    match c.op
    case GetOp(id) => var (s', reply) := Get(s, c.now, id); (s', Got(reply))
    case ReserveOp(id) => var (s', result) := Reserve(s, c.now, id); (s', Answered(result))
    case UnreserveOp(id, reservedIn) => (Unreserve(s, id, reservedIn), Nothing)
    case SetOp(id, reply, reservedIn) => (Set(s, c.now, id, reply, reservedIn), Nothing)
    case ResetOp => (Reset(s), Nothing)
    case SweepOp => (Sweep(s, c.now), Nothing)
  }

  function Run(s: State, calls: seq<Call>): State
    decreases |calls|
  {
    if calls == [] then s else Run(Step(s, calls[0]).0, calls[1..])
  }

  function Answers(s: State, calls: seq<Call>): seq<Answer>
    decreases |calls|
  {
    if calls == [] then [] else [Step(s, calls[0]).1] + Answers(Step(s, calls[0]).0, calls[1..])
  }

  function Fresh(ttl: int, maxSize: int): State {
    State(ttl, maxSize, Empty(), None, 0)
  }

  lemma {:induction false} RunAppend(s: State, a: seq<Call>, b: seq<Call>)
    ensures Run(s, a + b) == Run(Run(s, a), b)
    ensures Answers(s, a + b) == Answers(s, a) + Answers(Run(s, a), b)
    decreases |a|
  {
    if a == [] {
      assert a + b == b;
    } else {
      assert (a + b)[1..] == a[1..] + b;
      hide Step;
      RunAppend(Step(s, a[0]).0, a[1..], b);
    }
  }

  // ---------------------------------------------------------------------------
  // Every run keeps the map in order and within its size
  // ---------------------------------------------------------------------------

  ghost predicate Fits(s: State) {
    s.cache.Valid() && |s.cache.keys| <= (if s.maxSize >= 1 then s.maxSize else 1)
  }

  lemma MakeRoomFits(s: State, now: int)
    requires s.cache.Valid()
    ensures MakeRoom(s, now).cache.Valid()
    ensures |MakeRoom(s, now).cache.keys| <= |s.cache.keys|
    ensures |MakeRoom(s, now).cache.keys| < s.maxSize
         || MakeRoom(s, now).cache.keys == []
         || |MakeRoom(s, now).cache.keys| < |s.cache.keys|
  {
    hide JsMap.Valid, JsMap.Keep, JsMap.Remove;
    KeepValid(s.cache, Unexpired(now));
    DropOldestValid(s.cache);
    DropOldestValid(Sweep(s, now).cache);
  }

  /** The cache never holds more than `maxSize` entries (more than one, if `maxSize` is less). */
  lemma StepFits(s: State, c: Call)
    requires Fits(s)
    ensures Fits(Step(s, c).0)
  {
    hide JsMap.Valid, JsMap.Keep, JsMap.Remove, JsMap.Put, MakeRoom;
    match c.op
    case GetOp(id) => RemoveValid(s.cache, id);
    case UnreserveOp(id, _) => RemoveValid(s.cache, id);
    case SweepOp => KeepValid(s.cache, Unexpired(c.now));
    case ResetOp =>
    case ReserveOp(id) =>
      RemoveValid(s.cache, id);
      var s1 := s.(cache := s.cache.Remove(id));
      MakeRoomFits(s1, c.now);
      PutValid(MakeRoom(s1, c.now).cache, id, Entry("", 0, c.now + s.ttl, true, s.generation));
    case SetOp(id, reply, _) =>
      var s1 := if AtOrBelow(id, s.mark) then s else s.(mark := Some(id));
      MakeRoomFits(s1, c.now);
      PutValid(MakeRoom(s1, c.now).cache, id, Entry(reply.body, reply.status, c.now + s.ttl, false, s.generation));
  }

  lemma {:induction false} RunFits(s: State, calls: seq<Call>)
    requires Fits(s)
    ensures Fits(Run(s, calls))
    decreases |calls|
  {
    if calls != [] {
      hide Step, Fits;
      StepFits(s, calls[0]);
      RunFits(Step(s, calls[0]).0, calls[1..]);
    }
  }

  // ---------------------------------------------------------------------------
  // A departed bot cannot interfere
  // ---------------------------------------------------------------------------

  /** A completion that carries another generation than the one the cache is in. */
  predicate Departed(generation: int, op: Op) {
    (op.UnreserveOp? || op.SetOp?) && op.reservedIn != generation
  }

  function NextGeneration(generation: int, op: Op): int {
    if op.ResetOp? then generation + 1 else generation
  }

  /** The calls without the departed bots' completions. */
  function Fenced(generation: int, calls: seq<Call>): seq<Call>
    decreases |calls|
  {
    if calls == [] then []
    else
      var rest := Fenced(NextGeneration(generation, calls[0].op), calls[1..]);
      if Departed(generation, calls[0].op) then rest else [calls[0]] + rest
  }

  /** The answers to the calls that remain. */
  function FencedAnswers(generation: int, calls: seq<Call>, answers: seq<Answer>): seq<Answer>
    requires |answers| == |calls|
    decreases |calls|
  {
    if calls == [] then []
    else
      var rest := FencedAnswers(NextGeneration(generation, calls[0].op), calls[1..], answers[1..]);
      if Departed(generation, calls[0].op) then rest else [answers[0]] + rest
  }

  lemma {:induction false} AnswersLength(s: State, calls: seq<Call>)
    ensures |Answers(s, calls)| == |calls|
    decreases |calls|
  {
    if calls != [] {
      AnswersLength(Step(s, calls[0]).0, calls[1..]);
    }
  }

  lemma StepGeneration(s: State, c: Call)
    ensures Step(s, c).0.generation == NextGeneration(s.generation, c.op)
    ensures Step(s, c).0.ttl == s.ttl && Step(s, c).0.maxSize == s.maxSize
    ensures Departed(s.generation, c.op) ==> Step(s, c) == (s, Nothing)
  {
    hide JsMap.Keep, JsMap.Remove, JsMap.Put;
  }

  /**
   Non-interference: a run with completions of departed bots mixed in anywhere ends in the same
   state, and answers every other call alike, as the run without them.
   */
  lemma {:induction false} DepartedBotsDoNotInterfere(s: State, calls: seq<Call>)
    ensures Run(s, Fenced(s.generation, calls)) == Run(s, calls)
    ensures |Answers(s, calls)| == |calls|
    ensures Answers(s, Fenced(s.generation, calls)) == FencedAnswers(s.generation, calls, Answers(s, calls))
    decreases |calls|
  {
    AnswersLength(s, calls);
    if calls != [] {
      hide Step;
      var c, rest := calls[0], calls[1..];
      var s' := Step(s, c).0;
      StepGeneration(s, c);
      DepartedBotsDoNotInterfere(s', rest);
      assert Answers(s, calls)[1..] == Answers(s', rest);
      if !Departed(s.generation, c.op) {
        assert ([c] + Fenced(s'.generation, rest))[1..] == Fenced(s'.generation, rest);
      }
    }
  }

  // ---------------------------------------------------------------------------
  // After a reset the cache is as good as new
  // ---------------------------------------------------------------------------

  /** The calls as a cache that is `d` generations younger would receive them. */
  function ShiftOp(op: Op, d: int): Op {
    match op
    case UnreserveOp(id, reservedIn) => UnreserveOp(id, reservedIn - d)
    case SetOp(id, reply, reservedIn) => SetOp(id, reply, reservedIn - d)
    case _ => op
  }

  function Shifted(calls: seq<Call>, d: int): seq<Call> {
    if calls == [] then []
    else [Call(calls[0].now, ShiftOp(calls[0].op, d))] + Shifted(calls[1..], d)
  }

  /** Entries that differ in their generation only, which nothing reads. */
  ghost predicate Alike(a: Entry, b: Entry) {
    a.(generation := 0) == b.(generation := 0)
  }

  ghost predicate AlikeMaps(m: JsMap<int, Entry>, n: JsMap<int, Entry>) {
    && m.keys == n.keys && m.vals.Keys == n.vals.Keys
    && forall k :: k in m.vals ==> Alike(m.vals[k], n.vals[k])
  }

  /** `t` is `s` but `d` generations younger. */
  ghost predicate Younger(s: State, t: State, d: int) {
    && s.ttl == t.ttl && s.maxSize == t.maxSize && s.mark == t.mark
    && s.generation == t.generation + d && AlikeMaps(s.cache, t.cache)
  }

  lemma {:induction false} KeptAlike(keys: seq<int>, m: map<int, Entry>, n: map<int, Entry>, now: int)
    requires m.Keys == n.Keys && forall k :: k in m ==> Alike(m[k], n[k])
    ensures Kept(keys, m, Unexpired(now)) == Kept(keys, n, Unexpired(now))
  {
    if keys != [] {
      KeptAlike(keys[1..], m, n, now);
      assert keys[0] in m <==> keys[0] in n;
    }
  }

  lemma KeepAlike(m: JsMap<int, Entry>, n: JsMap<int, Entry>, now: int)
    requires AlikeMaps(m, n)
    ensures AlikeMaps(m.Keep(Unexpired(now)), n.Keep(Unexpired(now)))
  {
    KeptAlike(m.keys, m.vals, n.vals, now);
    forall k ensures k in m.Keep(Unexpired(now)).vals <==> k in n.Keep(Unexpired(now)).vals {
      assert k in m.vals <==> k in n.vals;
    }
  }

  lemma RemoveAlike(m: JsMap<int, Entry>, n: JsMap<int, Entry>, id: int)
    requires AlikeMaps(m, n)
    ensures AlikeMaps(m.Remove(id), n.Remove(id))
  {
    assert m.Remove(id).vals.Keys == m.vals.Keys - {id};
    assert n.Remove(id).vals.Keys == n.vals.Keys - {id};
  }

  lemma PutAlike(m: JsMap<int, Entry>, n: JsMap<int, Entry>, id: int, a: Entry, b: Entry)
    requires AlikeMaps(m, n) && Alike(a, b)
    ensures AlikeMaps(m.Put(id, a), n.Put(id, b))
  {
    assert id in m.vals <==> id in n.vals.Keys;
  }

  lemma MakeRoomAlike(s: State, t: State, d: int, now: int)
    requires Younger(s, t, d)
    ensures Younger(MakeRoom(s, now), MakeRoom(t, now), d)
  {
    hide Alike, Kept, Without;
    KeepAlike(s.cache, t.cache, now);
    var s1, t1 := Sweep(s, now), Sweep(t, now);
    if s.cache.keys != [] {
      RemoveAlike(s.cache, t.cache, s.cache.keys[0]);
    }
    if s1.cache.keys != [] {
      RemoveAlike(s1.cache, t1.cache, s1.cache.keys[0]);
    }
  }

  lemma StepYounger(s: State, t: State, d: int, c: Call)
    requires Younger(s, t, d)
    ensures var c' := Call(c.now, ShiftOp(c.op, d));
      Younger(Step(s, c).0, Step(t, c').0, d) && Step(s, c).1 == Step(t, c').1
  {
    hide JsMap.Keep, JsMap.Remove, JsMap.Put, MakeRoom;
    match c.op
    case GetOp(id) =>
      assert id in s.cache.vals <==> id in t.cache.vals.Keys;
      RemoveAlike(s.cache, t.cache, id);
    case ReserveOp(id) =>
      assert id in s.cache.vals <==> id in t.cache.vals.Keys;
      RemoveAlike(s.cache, t.cache, id);
      var s1, t1 := s.(cache := s.cache.Remove(id)), t.(cache := t.cache.Remove(id));
      MakeRoomAlike(s1, t1, d, c.now);
      PutAlike(MakeRoom(s1, c.now).cache, MakeRoom(t1, c.now).cache, id,
               Entry("", 0, c.now + s.ttl, true, s.generation), Entry("", 0, c.now + t.ttl, true, t.generation));
    case UnreserveOp(id, _) =>
      assert id in s.cache.vals <==> id in t.cache.vals.Keys;
      RemoveAlike(s.cache, t.cache, id);
    case SetOp(id, r, _) =>
      var s1 := if AtOrBelow(id, s.mark) then s else s.(mark := Some(id));
      var t1 := if AtOrBelow(id, t.mark) then t else t.(mark := Some(id));
      MakeRoomAlike(s1, t1, d, c.now);
      PutAlike(MakeRoom(s1, c.now).cache, MakeRoom(t1, c.now).cache, id,
               Entry(r.body, r.status, c.now + s.ttl, false, s.generation),
               Entry(r.body, r.status, c.now + t.ttl, false, t.generation));
    case ResetOp =>
    case SweepOp => KeepAlike(s.cache, t.cache, c.now);
  }

  lemma {:induction false} RunYounger(s: State, t: State, d: int, calls: seq<Call>)
    requires Younger(s, t, d)
    ensures Younger(Run(s, calls), Run(t, Shifted(calls, d)), d)
    ensures Answers(s, calls) == Answers(t, Shifted(calls, d))
    decreases |calls|
  {
    if calls != [] {
      hide Step, Younger;
      var c' := Call(calls[0].now, ShiftOp(calls[0].op, d));
      StepYounger(s, t, d, calls[0]);
      RunYounger(Step(s, calls[0]).0, Step(t, c').0, d, calls[1..]);
      assert Shifted(calls, d)[0] == c' && Shifted(calls, d)[1..] == Shifted(calls[1..], d);
    }
  }

  /**
   After a bot swap the cache behaves towards the new bot exactly as a fresh one, whatever it
   held before and whatever completions of earlier bots still come in.
   */
  lemma ResetForgetsEverything(s: State, calls: seq<Call>)
    ensures var after := Reset(s);
      && |Answers(after, calls)| == |calls|
      && FencedAnswers(after.generation, calls, Answers(after, calls))
         == Answers(Fresh(s.ttl, s.maxSize), Shifted(Fenced(after.generation, calls), after.generation))
  {
    var after := Reset(s);
    DepartedBotsDoNotInterfere(after, calls);
    RunYounger(after, Fresh(s.ttl, s.maxSize), after.generation, Fenced(after.generation, calls));
  }

  // ---------------------------------------------------------------------------
  // No replay
  // ---------------------------------------------------------------------------

  /** The state a fresh cache is in after `calls`. */
  function StateAfter(ttl: int, maxSize: int, calls: seq<Call>): State {
    if calls == [] then Fresh(ttl, maxSize)
    else Step(StateAfter(ttl, maxSize, calls[..|calls| - 1]), calls[|calls| - 1]).0
  }

  /** How often the cache has been reset: the generation it is in. */
  function Resets(calls: seq<Call>): int {
    if calls == [] then 0 else NextGeneration(Resets(calls[..|calls| - 1]), calls[|calls| - 1].op)
  }

  /** The ids finalized for the current bot: since the last reset, by its own completions. */
  function Finalized(calls: seq<Call>): seq<int> {
    if calls == [] then []
    else
      var init, op := calls[..|calls| - 1], calls[|calls| - 1].op;
      if op.ResetOp? then []
      else if op.SetOp? && op.reservedIn == Resets(init) then Finalized(init) + [op.id]
      else Finalized(init)
  }

  ghost predicate IsMax(mark: Option<int>, ids: seq<int>) {
    match mark
    case None => ids == []
    case Some(top) => top in ids && forall id :: id in ids ==> id <= top
  }

  /** The high-water mark is the greatest id finalized for the current bot. */
  lemma {:induction false} MarkIsGreatestFinalized(ttl: int, maxSize: int, calls: seq<Call>)
    ensures StateAfter(ttl, maxSize, calls).generation == Resets(calls)
    ensures IsMax(StateAfter(ttl, maxSize, calls).mark, Finalized(calls))
  {
    if calls != [] {
      var init, last := calls[..|calls| - 1], calls[|calls| - 1];
      var s := StateAfter(ttl, maxSize, init);
      MarkIsGreatestFinalized(ttl, maxSize, init);
      StepGeneration(s, last);
      StepMark(s, last);
    }
  }

  lemma StepMark(s: State, c: Call)
    ensures Step(s, c).0.mark
         == if c.op.ResetOp? then None
            else if c.op.SetOp? && c.op.reservedIn == s.generation && !AtOrBelow(c.op.id, s.mark) then Some(c.op.id)
            else s.mark
  {
    hide JsMap.Keep, JsMap.Remove, JsMap.Put;
  }

  /** An id at least as high has been finalized for the current bot. */
  ghost predicate Passed(calls: seq<Call>, id: int) {
    exists done :: done in Finalized(calls) && id <= done
  }

  lemma MarkRefusesPassed(ttl: int, maxSize: int, calls: seq<Call>, id: int)
    ensures AtOrBelow(id, StateAfter(ttl, maxSize, calls).mark) <==> Passed(calls, id)
  {
    MarkIsGreatestFinalized(ttl, maxSize, calls);
    hide Finalized, StateAfter;
    var mark := StateAfter(ttl, maxSize, calls).mark;
    if mark.Some? {
      assert mark.value in Finalized(calls);
    }
  }

  lemma ReserveAnswers(s: State, now: int, id: int)
    ensures Reserve(s, now, id).1
         == if id in s.cache.vals && now <= s.cache.vals[id].expiresAt then Duplicate
            else if AtOrBelow(id, s.mark) then AlreadyProcessed
            else Reserved
  {
    hide MakeRoom, JsMap.Remove, JsMap.Put;
  }

  /**
   After any run, whatever expiry and eviction have removed: an id held by an unexpired entry is
   a duplicate; any other id is refused for good exactly when some id at least as high was
   finalized for the current bot, and reserved otherwise.
   */
  lemma NoReplay(ttl: int, maxSize: int, calls: seq<Call>, now: int, id: int)
    ensures var s := StateAfter(ttl, maxSize, calls);
      var held := id in s.cache.vals && now <= s.cache.vals[id].expiresAt;
      Reserve(s, now, id).1
      == if held then Duplicate else if Passed(calls, id) then AlreadyProcessed else Reserved
  {
    hide Passed, Reserve, AtOrBelow;
    MarkRefusesPassed(ttl, maxSize, calls, id);
    ReserveAnswers(StateAfter(ttl, maxSize, calls), now, id);
  }

  /** A failed update can be retried exactly when nothing at or above it has been finalized. */
  lemma RetryAfterFailure(ttl: int, maxSize: int, calls: seq<Call>, now: int, id: int)
    requires var s := StateAfter(ttl, maxSize, calls);
      id in s.cache.vals ==> s.cache.vals[id].processing
    ensures var s := Unreserve(StateAfter(ttl, maxSize, calls), id, Resets(calls));
      Reserve(s, now, id).1 == if Passed(calls, id) then AlreadyProcessed else Reserved
  {
    hide Passed, Reserve, AtOrBelow, JsMap.Remove;
    var s := StateAfter(ttl, maxSize, calls);
    MarkIsGreatestFinalized(ttl, maxSize, calls);
    MarkRefusesPassed(ttl, maxSize, calls, id);
    RemovedIsOut(s.cache, id);
    ReserveAnswers(Unreserve(s, id, Resets(calls)), now, id);
  }

  // ---------------------------------------------------------------------------
  // Exclusion while an update is in flight
  // ---------------------------------------------------------------------------

  /** Whether the call sets a key other than `u` that is not in the map at that point. */
  predicate InsertsOther(s: State, c: Call, u: int) {
    match c.op
    case ReserveOp(id) => id != u && Reserve(s, c.now, id).1 == Reserved
    case SetOp(id, _, reservedIn) =>
      id != u && reservedIn == s.generation && id !in MakeRoom(s, c.now).cache.vals
    case _ => false
  }

  function Insertions(s: State, calls: seq<Call>, u: int): nat
    decreases |calls|
  {
    if calls == [] then 0
    else (if InsertsOther(s, calls[0], u) then 1 else 0) + Insertions(Step(s, calls[0]).0, calls[1..], u)
  }

  /** A call that neither completes `u` nor comes after its reservation has expired. */
  predicate LeavesAlone(generation: int, c: Call, u: int, expiry: int) {
    && c.now <= expiry
    && !c.op.ResetOp?
    && (c.op.SetOp? || c.op.UnreserveOp? ==> c.op.id != u || c.op.reservedIn != generation)
  }

  /** `u` is reserved until `expiry`, and at most `n` keys were set after it. */
  ghost predicate InFlight(s: State, u: int, expiry: int, n: nat) {
    && s.cache.Valid()
    && u in s.cache.vals && s.cache.vals[u].processing && s.cache.vals[u].expiresAt == expiry
    && |After(s.cache.keys, u)| <= n
  }

  lemma {:induction false} AfterFirst<K>(keys: seq<K>, k: K)
    requires keys != [] && keys[0] == k
    ensures |After(keys, k)| == |keys| - 1
  {
  }

  lemma RemoveInFlight(s: State, u: int, expiry: int, n: nat, id: int)
    requires InFlight(s, u, expiry, n) && id != u
    ensures InFlight(s.(cache := s.cache.Remove(id)), u, expiry, n)
  {
    RemoveValid(s.cache, id);
    AfterWithout(s.cache.keys, id, u);
  }

  lemma SweepInFlight(s: State, u: int, expiry: int, n: nat, now: int)
    requires InFlight(s, u, expiry, n) && now <= expiry
    ensures InFlight(Sweep(s, now), u, expiry, n)
  {
    KeepValid(s.cache, Unexpired(now));
    AfterKept(s.cache.keys, s.cache.vals, Unexpired(now), u);
  }

  lemma DropInFlight(s: State, u: int, expiry: int, n: nat)
    requires InFlight(s, u, expiry, n) && |s.cache.keys| >= s.maxSize && n < s.maxSize - 1
    ensures InFlight(s.(cache := s.cache.DropOldest()), u, expiry, n)
  {
    assert u in s.cache.keys;
    if s.cache.keys[0] == u {
      AfterFirst(s.cache.keys, u);
      assert false;
    } else {
      RemoveInFlight(s, u, expiry, n, s.cache.keys[0]);
    }
  }

  lemma MakeRoomInFlight(s: State, u: int, expiry: int, n: nat, now: int)
    requires InFlight(s, u, expiry, n) && now <= expiry && n < s.maxSize - 1
    ensures InFlight(MakeRoom(s, now), u, expiry, n)
  {
    hide InFlight, JsMap.Keep, JsMap.DropOldest;
    SweepInFlight(s, u, expiry, n, now);
    var swept := if |s.cache.keys| >= s.maxSize then Sweep(s, now) else s;
    if |swept.cache.keys| >= s.maxSize {
      DropInFlight(swept, u, expiry, n);
    }
  }

  lemma PutInFlight(s: State, u: int, expiry: int, n: nat, id: int, e: Entry)
    requires InFlight(s, u, expiry, n) && id != u
    ensures InFlight(s.(cache := s.cache.Put(id, e)), u, expiry, if id in s.cache.vals then n else n + 1)
  {
    PutValid(s.cache, id, e);
    assert u in s.cache.keys;
    AfterAppend(s.cache.keys, id, u);
  }

  lemma InFlightIgnores(s: State, t: State, u: int, expiry: int, n: nat)
    requires InFlight(s, u, expiry, n) && s.cache == t.cache
    ensures InFlight(t, u, expiry, n)
  {
  }

  lemma HeldInFlight(s: State, u: int, expiry: int, n: nat)
    requires InFlight(s, u, expiry, n)
    ensures u in s.cache.vals && s.cache.vals[u].processing && s.cache.vals[u].expiresAt == expiry
  {
  }

  lemma StaysInFlight(s: State, u: int, expiry: int, n: nat, c: Call)
    requires InFlight(s, u, expiry, n) && LeavesAlone(s.generation, c, u, expiry) && n < s.maxSize - 1
    ensures InFlight(Step(s, c).0, u, expiry, if InsertsOther(s, c, u) then n + 1 else n)
  {
    HeldInFlight(s, u, expiry, n);
    hide InFlight, MakeRoom, JsMap.Put, JsMap.Remove, JsMap.Keep, Set, Reserve;
    match c.op
    case GetOp(id) => if id != u { RemoveInFlight(s, u, expiry, n, id); }
    case UnreserveOp(id, _) => if id != u { RemoveInFlight(s, u, expiry, n, id); }
    case SweepOp => SweepInFlight(s, u, expiry, n, c.now);
    case ReserveOp(id) =>
      ReserveAnswers(s, c.now, id);
      if id == u {
        ReserveOfHeld(s, c.now, u);
      } else {
        ReserveKeepsInFlight(s, u, expiry, n, c.now, id);
      }
    case SetOp(id, r, reservedIn) => SetKeepsInFlight(s, u, expiry, n, c.now, id, r, reservedIn);
  }

  lemma ReserveOfHeld(s: State, now: int, id: int)
    requires id in s.cache.vals && now <= s.cache.vals[id].expiresAt
    ensures Reserve(s, now, id) == (s, Duplicate)
  {
  }

  lemma SetKeepsInFlight(s: State, u: int, expiry: int, n: nat, now: int, id: int, r: Reply, reservedIn: int)
    requires InFlight(s, u, expiry, n) && now <= expiry && n < s.maxSize - 1
    requires id != u || reservedIn != s.generation
    ensures InFlight(Set(s, now, id, r, reservedIn), u, expiry,
                     if InsertsOther(s, Call(now, SetOp(id, r, reservedIn)), u) then n + 1 else n)
  {
    hide InFlight, MakeRoom, JsMap.Put;
    if reservedIn == s.generation {
      var s1 := if AtOrBelow(id, s.mark) then s else s.(mark := Some(id));
      InFlightIgnores(s, s1, u, expiry, n);
      MakeRoomInFlight(s1, u, expiry, n, now);
      MakeRoomIgnoresMark(s, s1, now);
      PutInFlight(MakeRoom(s1, now), u, expiry, n, id, Entry(r.body, r.status, now + s.ttl, false, s.generation));
    }
  }

  lemma MakeRoomIgnoresMark(s: State, t: State, now: int)
    requires t == s.(mark := t.mark)
    ensures MakeRoom(t, now).cache == MakeRoom(s, now).cache
  {
  }

  lemma ReserveKeepsInFlight(s: State, u: int, expiry: int, n: nat, now: int, id: int)
    requires InFlight(s, u, expiry, n) && now <= expiry && n < s.maxSize - 1 && id != u
    ensures var (s', result) := Reserve(s, now, id);
      InFlight(s', u, expiry, if result == Reserved then n + 1 else n)
  {
    hide MakeRoom, JsMap.Put, JsMap.Remove;
    RemoveInFlight(s, u, expiry, n, id);
    var s1 := s.(cache := s.cache.Remove(id));
    MakeRoomInFlight(s1, u, expiry, n, now);
    PutInFlight(MakeRoom(s1, now), u, expiry, n, id, Entry("", 0, now + s.ttl, true, s.generation));
    AtMost(s1, now, u, expiry, n, id);
  }

  lemma AtMost(s: State, now: int, u: int, expiry: int, n: nat, id: int)
    ensures InFlight(s, u, expiry, n) ==> InFlight(s, u, expiry, n + 1)
  {
  }

  lemma NoResetAmong(generation: int, c: Call, u: int, expiry: int)
    requires LeavesAlone(generation, c, u, expiry)
    ensures NextGeneration(generation, c.op) == generation
  {
  }

  /** `u` is left alone by every call. */
  ghost predicate AllLeaveAlone(generation: int, calls: seq<Call>, u: int, expiry: int) {
    forall i :: 0 <= i < |calls| ==> LeavesAlone(generation, calls[i], u, expiry)
  }

  lemma NextInFlight(s: State, u: int, expiry: int, n: nat, c: Call) returns (s': State, n': nat)
    requires InFlight(s, u, expiry, n) && LeavesAlone(s.generation, c, u, expiry) && n < s.maxSize - 1
    ensures s' == Step(s, c).0 && n' == n + (if InsertsOther(s, c, u) then 1 else 0)
    ensures InFlight(s', u, expiry, n') && s'.maxSize == s.maxSize && s'.generation == s.generation
  {
    hide InFlight, Step, InsertsOther, LeavesAlone;
    StaysInFlight(s, u, expiry, n, c);
    StepGeneration(s, c);
    NoResetAmong(s.generation, c, u, expiry);
    s', n' := Step(s, c).0, n + (if InsertsOther(s, c, u) then 1 else 0);
  }

  lemma AllCons(generation: int, calls: seq<Call>, u: int, expiry: int)
    requires calls != [] && AllLeaveAlone(generation, calls, u, expiry)
    ensures LeavesAlone(generation, calls[0], u, expiry) && AllLeaveAlone(generation, calls[1..], u, expiry)
  {
    hide LeavesAlone;
  }

  lemma RunCons(s: State, calls: seq<Call>, u: int)
    requires calls != []
    ensures var s' := Step(s, calls[0]).0;
      && Run(s, calls) == Run(s', calls[1..])
      && Insertions(s, calls, u) == (if InsertsOther(s, calls[0], u) then 1 else 0) + Insertions(s', calls[1..], u)
  {
    hide Step, InsertsOther;
  }

  lemma RunNothing(s: State, u: int)
    ensures Run(s, []) == s && Insertions(s, [], u) == 0
  {
  }

  lemma ReservedIsInFlight(s: State, now: int, u: int)
    requires Fits(s) && Reserve(s, now, u).1 == Reserved
    ensures InFlight(Reserve(s, now, u).0, u, now + s.ttl, 0)
  {
    hide MakeRoom, JsMap.Remove;
    RemoveValid(s.cache, u);
    var s1 := s.(cache := s.cache.Remove(u));
    MakeRoomFits(s1, now);
    RemovedIsOut(s.cache, u);
    MakeRoomKeepsOut(s1, now, u);
    var room := MakeRoom(s1, now).cache;
    PutValid(room, u, Entry("", 0, now + s.ttl, true, s.generation));
    Members(room);
    AfterLast(room.keys, u);
  }

  lemma MakeRoomKeepsOut(s: State, now: int, id: int)
    requires s.cache.Valid() && id !in s.cache.vals
    ensures id !in MakeRoom(s, now).cache.vals
  {
  }

  lemma RemovedIsOut(m: JsMap<int, Entry>, id: int)
    ensures id !in m.Remove(id).vals
  {
  }

  // ---------------------------------------------------------------------------
  // Exactly when an update stays in flight
  // ---------------------------------------------------------------------------

  /** `u` has the entry `e`. */
  ghost predicate Held(s: State, u: int, e: Entry) {
    s.cache.Valid() && u in s.cache.vals && s.cache.vals[u] == e
  }

  /** Making room takes `u`: without the expired entries the map is still full, and `u` is the oldest. */
  predicate Crowded(s: State, now: int, u: int) {
    && |s.cache.keys| >= s.maxSize
    && var left := Sweep(s, now).cache.keys; |left| >= s.maxSize && left != [] && left[0] == u
  }

  /** The call inserts or finalizes another key, and to make room evicts `u`. */
  predicate Evicts(s: State, c: Call, u: int) {
    match c.op
    case ReserveOp(id) =>
      id != u && Reserve(s, c.now, id).1 == Reserved && Crowded(s.(cache := s.cache.Remove(id)), c.now, u)
    case SetOp(_, _, reservedIn) => reservedIn == s.generation && Crowded(s, c.now, u)
    case _ => false
  }

  /** The call neither comes after the entry has expired, nor resets the cache, nor is one that replaces or gives up the entry. */
  predicate Spares(generation: int, c: Call, u: int, e: Entry) {
    && c.now <= e.expiresAt
    && !c.op.ResetOp?
    && (c.op.SetOp? ==> c.op.id != u || c.op.reservedIn != generation)
    && (c.op.UnreserveOp? ==> c.op.id != u || c.op.reservedIn != generation || !e.processing)
  }

  ghost predicate AllSpare(generation: int, calls: seq<Call>, u: int, e: Entry) {
    forall i :: 0 <= i < |calls| ==> Spares(generation, calls[i], u, e)
  }

  lemma RemoveHeld(s: State, u: int, e: Entry, id: int)
    requires Held(s, u, e) && id != u
    ensures Held(s.(cache := s.cache.Remove(id)), u, e)
  {
    RemoveValid(s.cache, id);
  }

  lemma SweepHeld(s: State, u: int, e: Entry, now: int)
    requires Held(s, u, e) && now <= e.expiresAt
    ensures Held(Sweep(s, now), u, e)
  {
    KeepValid(s.cache, Unexpired(now));
  }

  lemma DropHeld(s: State, u: int, e: Entry)
    requires Held(s, u, e)
    ensures s.cache.keys != []
    ensures var t := s.(cache := s.cache.DropOldest());
      if s.cache.keys[0] == u then u !in t.cache.vals else Held(t, u, e)
  {
    assert u in s.cache.keys;
    if s.cache.keys[0] != u {
      RemoveHeld(s, u, e, s.cache.keys[0]);
    }
  }

  lemma MakeRoomHeld(s: State, u: int, e: Entry, now: int)
    requires Held(s, u, e) && now <= e.expiresAt
    ensures if Crowded(s, now, u) then u !in MakeRoom(s, now).cache.vals else Held(MakeRoom(s, now), u, e)
  {
    hide Held, JsMap.DropOldest, Sweep;
    SweepHeld(s, u, e, now);
    var swept := if |s.cache.keys| >= s.maxSize then Sweep(s, now) else s;
    DropHeld(swept, u, e);
  }

  lemma PutHeld(s: State, u: int, e: Entry, id: int, added: Entry)
    requires id != u && s.cache.Valid()
    ensures var t := s.(cache := s.cache.Put(id, added));
      && (Held(s, u, e) ==> Held(t, u, e))
      && (u !in s.cache.vals ==> u !in t.cache.vals)
  {
    PutValid(s.cache, id, added);
  }

  lemma ReserveHeld(s: State, u: int, e: Entry, now: int, id: int)
    requires Held(s, u, e) && now <= e.expiresAt && id != u
    ensures var t := Reserve(s, now, id).0;
      if Evicts(s, Call(now, ReserveOp(id)), u) then u !in t.cache.vals else Held(t, u, e)
  {
    hide MakeRoom, JsMap.Put, JsMap.Remove, JsMap.Valid, Crowded;
    RemoveHeld(s, u, e, id);
    var s1 := s.(cache := s.cache.Remove(id));
    MakeRoomHeld(s1, u, e, now);
    RoomValid(s1, now);
    PutHeld(MakeRoom(s1, now), u, e, id, Entry("", 0, now + s.ttl, true, s.generation));
  }

  lemma RoomValid(s: State, now: int)
    requires s.cache.Valid()
    ensures MakeRoom(s, now).cache.Valid()
  {
    MakeRoomFits(s, now);
  }

  lemma SetHeld(s: State, u: int, e: Entry, now: int, id: int, r: Reply, reservedIn: int)
    requires Held(s, u, e) && now <= e.expiresAt && (id != u || reservedIn != s.generation)
    ensures var t := Set(s, now, id, r, reservedIn);
      if Evicts(s, Call(now, SetOp(id, r, reservedIn)), u) then u !in t.cache.vals else Held(t, u, e)
  {
    hide MakeRoom, JsMap.Put, JsMap.Valid, Crowded;
    if reservedIn == s.generation {
      var s1 := if AtOrBelow(id, s.mark) then s else s.(mark := Some(id));
      MakeRoomHeld(s, u, e, now);
      MakeRoomIgnoresMark(s, s1, now);
      RoomValid(s1, now);
      PutHeld(MakeRoom(s1, now), u, e, id, Entry(r.body, r.status, now + s.ttl, false, s.generation));
    }
  }

  /** One call that spares an entry keeps it, unless it evicts it. */
  lemma StepHeld(s: State, u: int, e: Entry, c: Call)
    requires Held(s, u, e) && Spares(s.generation, c, u, e)
    ensures if Evicts(s, c, u) then u !in Step(s, c).0.cache.vals else Held(Step(s, c).0, u, e)
    ensures Step(s, c).0.generation == s.generation
  {
    hide MakeRoom, JsMap.Put, JsMap.Remove, JsMap.Keep, JsMap.Valid, Set, Reserve, Crowded;
    StepGeneration(s, c);
    match c.op
    case GetOp(id) => if id != u { RemoveHeld(s, u, e, id); }
    case UnreserveOp(id, _) => if id != u { RemoveHeld(s, u, e, id); }
    case SweepOp => SweepHeld(s, u, e, c.now);
    case ReserveOp(id) =>
      if id == u {
        ReserveOfHeld(s, c.now, u);
      } else {
        ReserveHeld(s, u, e, c.now, id);
      }
    case SetOp(id, r, reservedIn) => SetHeld(s, u, e, c.now, id, r, reservedIn);
  }

  /** The state after the first `k` calls. */
  function Upto(s: State, calls: seq<Call>, k: nat): State
    requires k <= |calls|
  {
    Run(s, calls[..k])
  }

  lemma UptoStep(s: State, calls: seq<Call>, k: nat)
    requires k < |calls|
    ensures Upto(s, calls, k + 1) == Step(Upto(s, calls, k), calls[k]).0
  {
    hide Step;
    assert calls[..k + 1] == calls[..k] + [calls[k]];
    RunAppend(s, calls[..k], [calls[k]]);
    RunOne(Upto(s, calls, k), calls[k]);
  }

  lemma RunOne(s: State, c: Call)
    ensures Run(s, [c]) == Step(s, c).0
  {
    hide Step;
    assert [c][1..] == [];
  }

  /** None of the first `k` calls evicts `u`. */
  ghost predicate NoneEvicts(s: State, calls: seq<Call>, u: int, k: nat)
    requires k <= |calls|
  {
    forall i :: 0 <= i < k ==> !Evicts(Upto(s, calls, i), calls[i], u)
  }

  /** A retry is a duplicate before the run, and after each of the first `k` calls. */
  ghost predicate AlwaysDuplicate(s: State, calls: seq<Call>, u: int, later: int, k: nat)
    requires k <= |calls|
  {
    forall i :: 0 <= i <= k ==> Reserve(Upto(s, calls, i), later, u).1 == Duplicate
  }

  /** The entry is there before the run, and after each of the first `k` calls. */
  ghost predicate AlwaysThere(s: State, calls: seq<Call>, u: int, k: nat)
    requires k <= |calls|
  {
    forall i :: 0 <= i <= k ==> u in Upto(s, calls, i).cache.vals
  }

  /** An entry that is spared stays exactly as long as no call evicts it. */
  lemma {:induction false} HeldUpto(s: State, u: int, e: Entry, calls: seq<Call>, k: nat)
    requires Held(s, u, e) && AllSpare(s.generation, calls, u, e) && k <= |calls|
    ensures NoneEvicts(s, calls, u, k) <==> AlwaysThere(s, calls, u, k)
    ensures NoneEvicts(s, calls, u, k) ==>
      Upto(s, calls, k).generation == s.generation && forall i :: 0 <= i <= k ==> Held(Upto(s, calls, i), u, e)
    decreases k
  {
    hide Held, Evicts, Step, Upto, Spares;
    if k == 0 {
      UptoNothing(s, calls);
      HeldIsThere(s, u, e);
    } else {
      HeldUpto(s, u, e, calls, k - 1);
      UptoStep(s, calls, k - 1);
      if NoneEvicts(s, calls, u, k - 1) {
        var t := Upto(s, calls, k - 1);
        StepHeld(t, u, e, calls[k - 1]);
        if !Evicts(t, calls[k - 1], u) {
          HeldIsThere(Upto(s, calls, k), u, e);
        }
      }
    }
  }

  lemma HeldIsThere(s: State, u: int, e: Entry)
    requires Held(s, u, e)
    ensures u in s.cache.vals && s.cache.vals[u] == e
  {
  }

  /** A retry is a duplicate exactly while the entry is there. */
  lemma DuplicateWhileThere(s: State, u: int, e: Entry, calls: seq<Call>, later: int)
    requires Held(s, u, e) && AllSpare(s.generation, calls, u, e) && later <= e.expiresAt
    ensures AlwaysDuplicate(s, calls, u, later, |calls|) <==> NoneEvicts(s, calls, u, |calls|)
  {
    hide Reserve, Upto, Held, NoneEvicts, AllSpare;
    HeldUpto(s, u, e, calls, |calls|);
    if NoneEvicts(s, calls, u, |calls|) {
      forall i | 0 <= i <= |calls|
        ensures Reserve(Upto(s, calls, i), later, u).1 == Duplicate
      {
        HeldIsThere(Upto(s, calls, i), u, e);
        ReserveOfHeld(Upto(s, calls, i), later, u);
      }
    } else {
      var i :| 0 <= i <= |calls| && u !in Upto(s, calls, i).cache.vals;
      NotDuplicate(Upto(s, calls, i), later, u);
    }
  }

  lemma UptoNothing(s: State, calls: seq<Call>)
    ensures Upto(s, calls, 0) == s
  {
  }

  lemma NotDuplicate(s: State, later: int, u: int)
    requires u !in s.cache.vals
    ensures Reserve(s, later, u).1 != Duplicate
  {
    ReserveAnswers(s, later, u);
  }

  /**
   In-flight exclusion, exactly: once `u` is reserved, and as long as no call completes it, resets
   the cache or comes after its expiry, every retry along the run is a duplicate if and only if no
   call of the run evicts `u`.
   */
  lemma InFlightUnlessEvicted(s: State, now: int, u: int, calls: seq<Call>, later: int)
    requires Fits(s) && Reserve(s, now, u).1 == Reserved && later <= now + s.ttl
    requires AllLeaveAlone(s.generation, calls, u, now + s.ttl)
    ensures var s1 := Reserve(s, now, u).0;
      AlwaysDuplicate(s1, calls, u, later, |calls|) <==> NoneEvicts(s1, calls, u, |calls|)
  {
    hide Reserve, InFlight, Held, AllLeaveAlone, Fits, NoneEvicts, AlwaysDuplicate, AllSpare;
    var s1 := Reserve(s, now, u).0;
    ReservedIsInFlight(s, now, u);
    ReserveKeepsParameters(s, now, u);
    var e := InFlightIsHeld(s1, u, now + s.ttl, 0);
    AllLeftAlone(s1.generation, calls, u, e);
    DuplicateWhileThere(s1, u, e, calls, later);
  }

  lemma InFlightIsHeld(s: State, u: int, expiry: int, n: nat) returns (e: Entry)
    requires InFlight(s, u, expiry, n)
    ensures Held(s, u, e) && e.processing && e.expiresAt == expiry
  {
    e := s.cache.vals[u];
  }

  lemma AllLeftAlone(generation: int, calls: seq<Call>, u: int, e: Entry)
    requires AllLeaveAlone(generation, calls, u, e.expiresAt)
    ensures AllSpare(generation, calls, u, e)
  {
  }

  /** With so few keys set after it, no call can evict `u`. */
  lemma FewDoNotEvict(s: State, u: int, expiry: int, n: nat, c: Call)
    requires InFlight(s, u, expiry, n) && LeavesAlone(s.generation, c, u, expiry) && n < s.maxSize - 1
    ensures !Evicts(s, c, u)
  {
    hide Evicts, InFlight, Step, InsertsOther, Held;
    var e := InFlightIsHeld(s, u, expiry, n);
    StepHeld(s, u, e, c);
    StaysInFlight(s, u, expiry, n, c);
    HeldInFlight(Step(s, c).0, u, expiry, if InsertsOther(s, c, u) then n + 1 else n);
  }

  lemma {:induction false} FewNeverEvict(s: State, u: int, expiry: int, n: nat, calls: seq<Call>)
    requires InFlight(s, u, expiry, n) && n + Insertions(s, calls, u) < s.maxSize - 1
    requires AllLeaveAlone(s.generation, calls, u, expiry)
    ensures NoneEvicts(s, calls, u, |calls|)
    decreases |calls|
  {
    hide Evicts, InFlight, Step, InsertsOther, LeavesAlone, Insertions, Run, AllLeaveAlone;
    if calls != [] {
      RunCons(s, calls, u);
      AllCons(s.generation, calls, u, expiry);
      FewDoNotEvict(s, u, expiry, n, calls[0]);
      var s', n' := NextInFlight(s, u, expiry, n, calls[0]);
      FewNeverEvict(s', u, expiry, n', calls[1..]);
      forall i | 0 <= i < |calls|
        ensures !Evicts(Upto(s, calls, i), calls[i], u)
      {
        if i == 0 {
          UptoNothing(s, calls);
        } else {
          UptoTail(s, calls, i);
        }
      }
    }
  }

  lemma UptoTail(s: State, calls: seq<Call>, i: nat)
    requires 0 < i <= |calls|
    ensures Upto(s, calls, i) == Upto(Step(s, calls[0]).0, calls[1..], i - 1)
  {
    hide Step;
    assert calls[..i][1..] == calls[1..][..i - 1];
  }

  /**
   In particular a reservation excludes retries while fewer than `maxSize - 1` other keys have been
   inserted since.
   */
  lemma InFlightIsExclusive(s: State, now: int, u: int, calls: seq<Call>, later: int)
    requires Fits(s) && Reserve(s, now, u).1 == Reserved
    requires var s1 := Reserve(s, now, u).0;
      && Insertions(s1, calls, u) < s.maxSize - 1
      && AllLeaveAlone(s1.generation, calls, u, now + s.ttl)
    requires later <= now + s.ttl
    ensures Reserve(Run(Reserve(s, now, u).0, calls), later, u).1 == Duplicate
  {
    hide Reserve, InFlight, AllLeaveAlone, Fits, Insertions, Run, Evicts;
    var s1 := Reserve(s, now, u).0;
    ReservedIsInFlight(s, now, u);
    ReserveKeepsParameters(s, now, u);
    FewNeverEvict(s1, u, now + s.ttl, 0, calls);
    InFlightUnlessEvicted(s, now, u, calls, later);
    assert calls[..|calls|] == calls;
    assert Reserve(Upto(s1, calls, |calls|), later, u).1 == Duplicate;
  }

  lemma ReserveKeepsParameters(s: State, now: int, id: int)
    ensures var t := Reserve(s, now, id).0;
      t.ttl == s.ttl && t.maxSize == s.maxSize && t.generation == s.generation && t.mark == s.mark
  {
    hide MakeRoom;
  }

  // ---------------------------------------------------------------------------
  // The exclusion does not reach further
  // ---------------------------------------------------------------------------

  /** Reservations of the `k` ids below `u`. */
  function Fill(now: int, u: int, k: nat): seq<Call> {
    if k == 0 then [] else Fill(now, u, k - 1) + [Call(now, ReserveOp(u - k))]
  }

  /** A full map: `u` first, then the ids below it, none expired and none finalized. */
  ghost predicate Filled(s: State, now: int, u: int, k: nat) {
    && s.mark == None && s.generation == 0 && now <= now + s.ttl
    && s.cache.Valid() && |s.cache.keys| == k + 1 && s.cache.keys[0] == u
    && (forall id :: id in s.cache.vals <==> u - k <= id <= u)
    && (forall id :: id in s.cache.vals ==> s.cache.vals[id].expiresAt == now + s.ttl)
  }

  lemma ReserveNew(s: State, now: int, id: int)
    requires s.cache.Valid() && id !in s.cache.vals && |s.cache.keys| < s.maxSize && !AtOrBelow(id, s.mark)
    ensures Reserve(s, now, id)
         == (s.(cache := s.cache.Put(id, Entry("", 0, now + s.ttl, true, s.generation))), Reserved)
  {
    hide JsMap.Valid, JsMap.Put, JsMap.Remove;
    RemoveValid(s.cache, id);
  }

  lemma ReserveFills(s: State, now: int, u: int, k: nat)
    requires Filled(s, now, u, k) && k + 1 < s.maxSize
    ensures Reserve(s, now, u - (k + 1)).1 == Reserved
    ensures Filled(Reserve(s, now, u - (k + 1)).0, now, u, k + 1)
  {
    hide Reserve;
    ReserveNew(s, now, u - (k + 1));
    PutValid(s.cache, u - (k + 1), Entry("", 0, now + s.ttl, true, 0));
  }

  lemma {:induction false} InsertionsAppend(s: State, calls: seq<Call>, c: Call, u: int)
    ensures Insertions(s, calls + [c], u)
         == Insertions(s, calls, u) + (if InsertsOther(Run(s, calls), c, u) then 1 else 0)
    ensures Run(s, calls + [c]) == Step(Run(s, calls), c).0
    decreases |calls|
  {
    hide Step, InsertsOther;
    if calls == [] {
      assert [] + [c] == [c] && [c][1..] == [];
    } else {
      assert (calls + [c])[1..] == calls[1..] + [c];
      InsertionsAppend(Step(s, calls[0]).0, calls[1..], c, u);
    }
  }

  lemma {:induction false} FillFills(s: State, now: int, u: int, k: nat)
    requires Filled(s, now, u, 0) && k < s.maxSize
    ensures var t := Run(s, Fill(now, u, k));
      && Filled(t, now, u, k) && t.maxSize == s.maxSize && t.ttl == s.ttl
      && Insertions(s, Fill(now, u, k), u) == k
  {
    hide Run, Insertions, Reserve, Filled;
    if k > 0 {
      var c := Call(now, ReserveOp(u - k));
      FillFills(s, now, u, k - 1);
      var t := Run(s, Fill(now, u, k - 1));
      InsertionsAppend(s, Fill(now, u, k - 1), c, u);
      ReserveFills(t, now, u, k - 1);
      ReserveKeepsParameters(t, now, u - k);
    } else {
      RunNothing(s, u);
    }
  }

  lemma {:induction false} FillLeavesAlone(now: int, u: int, k: nat, expiry: int)
    requires now <= expiry
    ensures AllLeaveAlone(0, Fill(now, u, k), u, expiry)
  {
    if k > 0 {
      FillLeavesAlone(now, u, k - 1, expiry);
    }
  }

  lemma {:induction false} KeptAll(keys: seq<int>, vals: map<int, Entry>, keep: Entry -> bool)
    requires forall i :: 0 <= i < |keys| ==> keys[i] in vals && keep(vals[keys[i]])
    ensures Kept(keys, vals, keep) == keys
  {
    if keys != [] {
      KeptAll(keys[1..], vals, keep);
    }
  }

  lemma SweepNothing(s: State, now: int)
    requires s.cache.Valid() && forall id :: id in s.cache.vals ==> now <= s.cache.vals[id].expiresAt
    ensures Sweep(s, now) == s
  {
    forall i | 0 <= i < |s.cache.keys|
      ensures s.cache.keys[i] in s.cache.vals && Unexpired(now)(s.cache.vals[s.cache.keys[i]])
    {
      var id := s.cache.keys[i];
      assert id in s.cache.keys;
      assert id in s.cache.vals;
      var e := s.cache.vals[id];
      assert now <= e.expiresAt;
      assert Unexpired(now)(e);
    }
    KeptAll(s.cache.keys, s.cache.vals, Unexpired(now));
    assert Sweep(s, now).cache.vals == s.cache.vals;
  }

  lemma FullMapDropsOldest(s: State, now: int)
    requires s.cache.Valid() && |s.cache.keys| == s.maxSize > 0
    requires forall id :: id in s.cache.vals ==> now <= s.cache.vals[id].expiresAt
    ensures MakeRoom(s, now) == s.(cache := s.cache.Remove(s.cache.keys[0]))
  {
    hide JsMap.Remove, JsMap.Valid, JsMap.Keep;
    SweepNothing(s, now);
  }

  lemma OverwriteEvicts(s: State, now: int, u: int, reply: Reply)
    requires s.maxSize >= 2 && Filled(s, now, u, s.maxSize - 1)
    ensures var t := Set(s, now, u - 1, reply, 0);
      && !InsertsOther(s, Call(now, SetOp(u - 1, reply, 0)), u)
      && u !in t.cache.vals && t.mark == Some(u - 1)
  {
    hide MakeRoom;
    FullMapDropsOldest(s, now);
    FullMapDropsOldest(s.(mark := Some(u - 1)), now);
  }

  lemma FirstFilled(ttl: nat, maxSize: int, now: int, u: int)
    requires maxSize >= 2
    ensures var (s, result) := Reserve(Fresh(ttl, maxSize), now, u);
      result == Reserved && Filled(s, now, u, 0) && s.maxSize == maxSize && s.ttl == ttl && s.generation == 0
  {
    hide Reserve;
    ReserveNew(Fresh(ttl, maxSize), now, u);
  }

  /**
   The bound is tight: after exactly `maxSize - 1` insertions, finalizing a key that is in the
   map already evicts `u` to make room it does not need, and `u` is reserved a second time while
   its first handler still runs.
   */
  lemma OverwriteReopensReservation(ttl: nat, maxSize: int, now: int, u: int)
    requires maxSize >= 2
    ensures var s1 := Reserve(Fresh(ttl, maxSize), now, u).0;
      var calls := Fill(now, u, maxSize - 1) + [Call(now, SetOp(u - 1, Reply("", 200), 0))];
      && Reserve(Fresh(ttl, maxSize), now, u).1 == Reserved
      && AllLeaveAlone(s1.generation, calls, u, now + ttl)
      && Insertions(s1, calls, u) == maxSize - 1
      && Reserve(Run(s1, calls), now, u).1 == Reserved
  {
    var s1 := Reserve(Fresh(ttl, maxSize), now, u).0;
    var last := Call(now, SetOp(u - 1, Reply("", 200), 0));
    hide Run, Insertions, Reserve, Filled, Set, InsertsOther, Fill;
    FirstFilled(ttl, maxSize, now, u);
    FillLeavesAlone(now, u, maxSize - 1, now + ttl);
    FillFills(s1, now, u, maxSize - 1);
    InsertionsAppend(s1, Fill(now, u, maxSize - 1), last, u);
    var t := Run(s1, Fill(now, u, maxSize - 1));
    OverwriteEvicts(t, now, u, Reply("", 200));
    ReserveAnswers(Set(t, now, u - 1, Reply("", 200), 0), now, u);
  }

  // ---------------------------------------------------------------------------
  // String ids
  // ---------------------------------------------------------------------------

  datatype SeenOp =
    | HasOp(key: string)
    | CheckOp(key: string)
    | ReserveSeenOp(key: string)
    | UnreserveSeenOp(key: string)
    | MarkOp(key: string)
    | SweepSeenOp

  function StepSeen(s: Seen, now: int, op: SeenOp): Seen {
    match op
    case HasOp(key) => Has(s, now, key).0
    case CheckOp(key) => Check(s, now, key).0
    case ReserveSeenOp(key) => ReserveKey(s, now, key).0
    case UnreserveSeenOp(key) => UnreserveKey(s, key)
    case MarkOp(key) => Mark(s, now, key)
    case SweepSeenOp => SweepSeen(s, now)
  }

  function RunSeen(s: Seen, calls: seq<(int, SeenOp)>): Seen
    decreases |calls|
  {
    if calls == [] then s else RunSeen(StepSeen(s, calls[0].0, calls[0].1), calls[1..])
  }

  lemma SeenReservationStays(s: Seen, now: int, op: SeenOp, key: string)
    requires key in s.processing && op != MarkOp(key) && op != UnreserveSeenOp(key)
    ensures key in StepSeen(s, now, op).processing
  {
    hide JsMap.Keep, JsMap.Remove, JsMap.Put, JsMap.DropOldest;
  }

  /**
   The string cache keeps its reservations apart from the entries it evicts: whatever the clock,
   the capacity and the other calls, a reserved key stays taken until it is marked or given up.
   */
  lemma {:induction false} SeenReservationIsExclusive(s: Seen, calls: seq<(int, SeenOp)>, key: string, later: int)
    requires key in s.processing
    requires forall i :: 0 <= i < |calls| ==> calls[i].1 != MarkOp(key) && calls[i].1 != UnreserveSeenOp(key)
    ensures key in RunSeen(s, calls).processing
    ensures ReserveKey(RunSeen(s, calls), later, key) == (RunSeen(s, calls), false)
    decreases |calls|
  {
    hide StepSeen;
    if calls != [] {
      var (now, op) := calls[0];
      assert calls[0].1 == op;
      SeenReservationStays(s, now, op, key);
      SeenReservationIsExclusive(StepSeen(s, now, op), calls[1..], key, later);
    }
  }
}
