/** No fallback is lost unaccounted: what was counted is buffered, in the air, delivered or dropped. */
module FallbackConservation {
  import opened JsMaps
  import opened FallbackTrackers
  import opened FallbackReporters

  datatype Event = Counted(guard: string, path: string, failureKind: string) | Flushed(now: int) | Posted(flight: nat, ok: bool)

  function Initial(now: int): State {
    State(Empty(), now, [])
  }

  /** An answer to anything but a flight in the air does not happen. */
  function Step(s: State, e: Event): State {
    match e
    case Counted(guard, path, failureKind) => Fallback(s, guard, path, failureKind)
    case Flushed(now) => Flush(s, now)
    case Posted(flight, ok) => if InTheAir(s, flight) then Answered(s, flight, ok) else s
  }

  function After(now: int, events: seq<Event>): State {
    if events == [] then Initial(now)
    else Step(After(now, events[..|events| - 1]), events[|events| - 1])
  }

  // ---------------------------------------------------------------------------
  // Keys
  // ---------------------------------------------------------------------------

  /** What guards and failure kinds look like: no space in them. */
  predicate Slugs(guard: string, failureKind: string) {
    ' ' !in guard && ' ' !in failureKind
  }

  lemma SameFirstWord(a: string, b: string, s: string, t: string)
    requires ' ' !in a && ' ' !in b && a + " " + s == b + " " + t
    ensures a == b && s == t
  {
    var u, v := a + " " + s, b + " " + t;
    assert u[|a|] == ' ' && v[|b|] == ' ';
    assert forall i :: 0 <= i < |a| ==> u[i] == a[i] != ' ';
    assert forall i :: 0 <= i < |b| ==> v[i] == b[i] != ' ';
    assert |a| == |b|;
    assert u[..|a|] == a && v[..|b|] == b;
    assert u[|a| + 1..] == s && v[|b| + 1..] == t;
  }

  lemma SameLastWord(a: string, b: string, s: string, t: string)
    requires ' ' !in a && ' ' !in b && s + " " + a == t + " " + b
    ensures a == b && s == t
  {
    var u, v := s + " " + a, t + " " + b;
    assert u[|s|] == ' ' && v[|t|] == ' ';
    assert forall i :: |s| < i < |u| ==> u[i] == a[i - |s| - 1] != ' ';
    assert forall i :: |t| < i < |v| ==> v[i] == b[i - |t| - 1] != ' ';
    assert |s| == |t|;
    assert u[..|s|] == s && v[..|t|] == t;
    assert u[|s| + 1..] == a && v[|t| + 1..] == b;
  }

  /** Two guards, paths and failure kinds have the same key only if they are the same. */
  lemma KeyIsInjective(g: string, p: string, k: string, g': string, p': string, k': string)
    requires Slugs(g, k) && Slugs(g', k')
    ensures Key(g, p, k) == Key(g', p', k') <==> g == g' && p == p' && k == k'
  {
    if Key(g, p, k) == Key(g', p', k') {
      assert Key(g, p, k) == g + " " + (p + " " + k) && Key(g', p', k') == g' + " " + (p' + " " + k');
      SameFirstWord(g, g', p + " " + k, p' + " " + k');
      SameLastWord(k, k', p, p');
    }
  }

  /** With spaces allowed everywhere, two different counts share a key. */
  lemma SpacesCollide()
    ensures Key("edge", "/a /b", "expired") == Key("edge /a", "/b", "expired")
  {
    assert Key("edge", "/a /b", "expired") == "edge /a /b expired" == Key("edge /a", "/b", "expired");
  }

  // ---------------------------------------------------------------------------
  // Amounts
  // ---------------------------------------------------------------------------

  predicate Same(e: Entry, guard: string, path: string, failureKind: string) {
    e.guard == guard && e.path == path && e.failureKind == failureKind
  }

  function Share(e: Entry, g: string, p: string, k: string): nat {
    if Same(e, g, p, k) then e.count else 0
  }

  function Amount(es: seq<Entry>, g: string, p: string, k: string): nat {
    if es == [] then 0 else Share(es[0], g, p, k) + Amount(es[1..], g, p, k)
  }

  function Buffered(s: State, g: string, p: string, k: string): nat {
    Amount(Listed(s.counts.keys, s.counts.vals), g, p, k)
  }

  /** What flights with the given outcome posted. */
  function Posts(flights: seq<Flight>, outcome: Outcome, g: string, p: string, k: string): nat {
    if flights == [] then 0
    else
      var f := flights[|flights| - 1];
      Posts(flights[..|flights| - 1], outcome, g, p, k) + (if f.outcome == outcome then Amount(f.body, g, p, k) else 0)
  }

  /** What is lost at the key cap when the entries are counted in. */
  function CapLoss(m: Counts, es: seq<Entry>, g: string, p: string, k: string): nat
    decreases |es|
  {
    if es == [] then 0
    else (if AtCap(m, es[0]) then Share(es[0], g, p, k) else 0) + CapLoss(Add(m, es[0]), es[1..], g, p, k)
  }

  function StepLoss(s: State, e: Event, g: string, p: string, k: string): nat {
    match e
    case Counted(guard, path, failureKind) => CapLoss(s.counts, [Entry(guard, path, failureKind, 1)], g, p, k)
    case Flushed(_) => 0
    case Posted(flight, ok) =>
      if InTheAir(s, flight) && !ok then CapLoss(s.counts, s.flights[flight].body, g, p, k) else 0
  }

  /** What a run has dropped at the key cap. */
  function Dropped(now: int, events: seq<Event>, g: string, p: string, k: string): nat {
    if events == [] then 0
    else
      var m := |events| - 1;
      Dropped(now, events[..m], g, p, k) + StepLoss(After(now, events[..m]), events[m], g, p, k)
  }

  /** How often the fallback was counted. */
  function Increments(events: seq<Event>, g: string, p: string, k: string): nat {
    if events == [] then 0
    else
      Increments(events[..|events| - 1], g, p, k)
      + (if events[|events| - 1] == Counted(g, p, k) then 1 else 0)
  }

  // ---------------------------------------------------------------------------
  // One entry
  // ---------------------------------------------------------------------------

  predicate Proper(e: Entry) {
    Slugs(e.guard, e.failureKind)
  }

  predicate AllProper(es: seq<Entry>) {
    forall i :: 0 <= i < |es| ==> Proper(es[i])
  }

  /** Each entry is under its own key. */
  ghost predicate InPlace(m: Counts) {
    m.Valid() && forall key :: key in m.vals ==> KeyOf(m.vals[key]) == key && Proper(m.vals[key])
  }

  lemma {:induction false} AmountAppend(a: seq<Entry>, b: seq<Entry>, g: string, p: string, k: string)
    ensures Amount(a + b, g, p, k) == Amount(a, g, p, k) + Amount(b, g, p, k)
  {
    if a == [] {
      assert a + b == b;
    } else {
      assert (a + b)[1..] == a[1..] + b;
      AmountAppend(a[1..], b, g, p, k);
    }
  }

  lemma {:induction false} ListedElsewhere(keys: seq<string>, vals: map<string, Entry>, key: string, e: Entry)
    requires key !in keys
    ensures Listed(keys, vals[key := e]) == Listed(keys, vals)
  {
    if keys != [] {
      ListedElsewhere(keys[1..], vals, key, e);
    }
  }

  lemma {:induction false} AmountUpdated(
      keys: seq<string>, vals: map<string, Entry>, key: string, e: Entry, g: string, p: string, k: string)
    requires NoRepeats(keys) && key in keys && key in vals
    ensures Amount(Listed(keys, vals[key := e]), g, p, k) + Share(vals[key], g, p, k)
         == Amount(Listed(keys, vals), g, p, k) + Share(e, g, p, k)
  {
    hide Share;
    var rest, rest' := Listed(keys[1..], vals), Listed(keys[1..], vals[key := e]);
    if keys[0] == key {
      assert key !in keys[1..];
      ListedElsewhere(keys[1..], vals, key, e);
      assert ([e] + rest)[1..] == rest && ([vals[key]] + rest)[1..] == rest;
    } else {
      AmountUpdated(keys[1..], vals, key, e, g, p, k);
      if keys[0] in vals {
        assert ([vals[keys[0]]] + rest)[1..] == rest && ([vals[keys[0]]] + rest')[1..] == rest';
      }
    }
  }

  lemma {:induction false} ListedAppend(keys: seq<string>, key: string, vals: map<string, Entry>)
    ensures Listed(keys + [key], vals) == Listed(keys, vals) + (if key in vals then [vals[key]] else [])
  {
    if keys == [] {
      assert ([] + [key])[1..] == [];
    } else {
      assert (keys + [key])[1..] == keys[1..] + [key];
      ListedAppend(keys[1..], key, vals);
    }
  }

  lemma AddKeepsPlace(m: Counts, e: Entry)
    requires InPlace(m) && Proper(e)
    ensures InPlace(Add(m, e))
  {
    hide JsMap.Valid, Key;
    var key := KeyOf(e);
    if key in m.vals {
      PutValid(m, key, m.vals[key].(count := m.vals[key].count + e.count));
    } else {
      PutValid(m, key, e);
    }
  }

  /** Counting an entry in adds it to its own amount, and to no other. */
  lemma AddAmounts(m: Counts, e: Entry, g: string, p: string, k: string)
    requires InPlace(m) && Proper(e)
    ensures var t := Add(m, e);
      Amount(Listed(t.keys, t.vals), g, p, k) + (if AtCap(m, e) then Share(e, g, p, k) else 0)
      == Amount(Listed(m.keys, m.vals), g, p, k) + Share(e, g, p, k)
  {
    hide Listed, Amount, Key;
    var key := KeyOf(e);
    if key in m.vals {
      var existing := m.vals[key];
      KeyIsInjective(existing.guard, existing.path, existing.failureKind, e.guard, e.path, e.failureKind);
      AmountUpdated(m.keys, m.vals, key, existing.(count := existing.count + e.count), g, p, k);
    } else if |m.keys| < MAX_TRACKED_KEYS {
      Members(m);
      AddNewAmounts(m.keys, m.vals, key, e, g, p, k);
    }
  }

  lemma AddNewAmounts(
      keys: seq<string>, vals: map<string, Entry>, key: string, e: Entry, g: string, p: string, k: string)
    requires key !in keys
    ensures Amount(Listed(keys + [key], vals[key := e]), g, p, k)
         == Amount(Listed(keys, vals), g, p, k) + Share(e, g, p, k)
  {
    hide Share, Listed;
    ListedAppend(keys, key, vals[key := e]);
    ListedElsewhere(keys, vals, key, e);
    AmountAppend(Listed(keys, vals), [e], g, p, k);
    assert [e][1..] == [];
  }

  lemma {:induction false} AddAllAmounts(m: Counts, es: seq<Entry>, g: string, p: string, k: string)
    requires InPlace(m) && AllProper(es)
    ensures var t := AddAll(m, es);
      && InPlace(t)
      && Amount(Listed(t.keys, t.vals), g, p, k) + CapLoss(m, es, g, p, k)
      == Amount(Listed(m.keys, m.vals), g, p, k) + Amount(es, g, p, k)
    decreases |es|
  {
    hide InPlace, Add, AtCap, Listed, Share, Proper;
    if es != [] {
      AddKeepsPlace(m, es[0]);
      AddAmounts(m, es[0], g, p, k);
      AddAllAmounts(Add(m, es[0]), es[1..], g, p, k);
    }
  }

  // ---------------------------------------------------------------------------
  // Conservation
  // ---------------------------------------------------------------------------

  lemma PostsMore(flights: seq<Flight>, f: Flight, outcome: Outcome, g: string, p: string, k: string)
    ensures Posts(flights + [f], outcome, g, p, k)
         == Posts(flights, outcome, g, p, k) + (if f.outcome == outcome then Amount(f.body, g, p, k) else 0)
  {
    assert (flights + [f])[..|flights|] == flights;
  }

  lemma {:induction false} PostsAnswered(
      flights: seq<Flight>, i: nat, f: Flight, outcome: Outcome, g: string, p: string, k: string)
    requires i < |flights| && f == flights[i].(outcome := f.outcome)
    ensures Posts(flights[i := f], outcome, g, p, k)
            + (if flights[i].outcome == outcome then Amount(f.body, g, p, k) else 0)
         == Posts(flights, outcome, g, p, k) + (if f.outcome == outcome then Amount(f.body, g, p, k) else 0)
    decreases |flights|
  {
    hide Amount;
    var n := |flights| - 1;
    if i == n {
      assert flights[i := f][..n] == flights[..n];
    } else {
      assert flights[i := f][..n] == flights[..n][i := f];
      PostsAnswered(flights[..n], i, f, outcome, g, p, k);
    }
  }

  /** What is in the tracker, in the air, and delivered. */
  function Held(s: State, g: string, p: string, k: string): nat {
    Buffered(s, g, p, k) + Posts(s.flights, Awaited, g, p, k) + Posts(s.flights, Delivered, g, p, k)
  }

  ghost predicate Sound(s: State) {
    InPlace(s.counts) && forall i :: 0 <= i < |s.flights| ==> AllProper(s.flights[i].body)
  }

  predicate ProperEvent(e: Event) {
    e.Counted? ==> Slugs(e.guard, e.failureKind)
  }

  lemma CountedKeeps(s: State, e: Event, g: string, p: string, k: string)
    requires Sound(s) && ProperEvent(e) && e.Counted?
    ensures var t := Step(s, e);
      && Sound(t)
      && Held(t, g, p, k) + StepLoss(s, e, g, p, k) == Held(s, g, p, k) + (if e == Counted(g, p, k) then 1 else 0)
  {
    hide InPlace, AtCap, Add, Amount, Posts, AllProper;
    var entry := Entry(e.guard, e.path, e.failureKind, 1);
    AddKeepsPlace(s.counts, entry);
    AddAmounts(s.counts, entry, g, p, k);
    OneLoss(s.counts, entry, g, p, k);
  }

  lemma OneLoss(m: Counts, e: Entry, g: string, p: string, k: string)
    ensures CapLoss(m, [e], g, p, k) == if AtCap(m, e) then Share(e, g, p, k) else 0
  {
    hide AtCap, Add, Share;
    assert [e][1..] == [];
    assert CapLoss(Add(m, e), [], g, p, k) == 0;
  }

  lemma FlushKeeps(s: State, now: int, g: string, p: string, k: string)
    requires Sound(s)
    ensures Sound(Flush(s, now)) && Held(Flush(s, now), g, p, k) == Held(s, g, p, k)
  {
    hide Posts, Amount, Listed, Proper, Key, JsMap.Valid;
    var body := Listed(s.counts.keys, s.counts.vals);
    if body != [] {
      BodyIsProper(s.counts);
      var f := Flight(s.windowStartedAt, now, body, Awaited);
      PostsMore(s.flights, f, Awaited, g, p, k);
      PostsMore(s.flights, f, Delivered, g, p, k);
      NothingListed(g, p, k);
    }
  }

  lemma NothingListed(g: string, p: string, k: string)
    ensures Amount(Listed([], map[]), g, p, k) == 0
  {
  }

  lemma BodyIsProper(m: Counts)
    requires InPlace(m)
    ensures AllProper(Listed(m.keys, m.vals))
  {
    hide Listed, Proper, Key;
    Members(m);
    forall i | 0 <= i < |m.keys| ensures m.keys[i] in m.vals {
      assert m.keys[i] in m.keys;
    }
  }

  lemma AnswerKeeps(s: State, flight: nat, ok: bool, g: string, p: string, k: string)
    requires Sound(s) && InTheAir(s, flight)
    ensures var t := Answered(s, flight, ok);
      && Sound(t)
      && Held(t, g, p, k) + StepLoss(s, Posted(flight, ok), g, p, k) == Held(s, g, p, k)
  {
    hide InPlace, Posts, Amount, Listed, CapLoss, AddAll, AllProper;
    var f := s.flights[flight];
    var f' := f.(outcome := if ok then Delivered else Refused);
    PostsAnswered(s.flights, flight, f', Awaited, g, p, k);
    PostsAnswered(s.flights, flight, f', Delivered, g, p, k);
    if !ok {
      AddAllAmounts(s.counts, f.body, g, p, k);
    }
  }

  predicate AllProperEvents(events: seq<Event>) {
    forall i :: 0 <= i < |events| ==> ProperEvent(events[i])
  }

  /**
   Conservation: in every run, with flushes overlapping and failing in any order, each fallback
   counted is buffered, in the air, delivered, or was dropped at the key cap, and none is twice.
   */
  lemma {:induction false} CountsAreConserved(now: int, events: seq<Event>, g: string, p: string, k: string)
    requires AllProperEvents(events)
    ensures var s := After(now, events);
      && Increments(events, g, p, k)
         == Buffered(s, g, p, k) + Posts(s.flights, Awaited, g, p, k) + Posts(s.flights, Delivered, g, p, k)
            + Dropped(now, events, g, p, k)
      && Sound(s)
  {
    hide Step, StepLoss, Sound, Buffered, Posts, ProperEvent;
    if events == [] {
      InitialSound(now, g, p, k);
    } else {
      var m := |events| - 1;
      CountsAreConserved(now, events[..m], g, p, k);
      StepKeeps(After(now, events[..m]), events[m], g, p, k);
    }
  }

  lemma InitialSound(now: int, g: string, p: string, k: string)
    ensures Sound(Initial(now)) && Held(Initial(now), g, p, k) == 0
  {
  }

  lemma StepKeeps(s: State, e: Event, g: string, p: string, k: string)
    requires Sound(s) && ProperEvent(e)
    ensures var t := Step(s, e);
      && Sound(t)
      && Held(t, g, p, k) + StepLoss(s, e, g, p, k) == Held(s, g, p, k) + (if e == Counted(g, p, k) then 1 else 0)
  {
    hide Held, Sound, Answered, Flush, CapLoss;
    match e
    case Counted(_, _, _) => CountedKeeps(s, e, g, p, k);
    case Flushed(at) => FlushKeeps(s, at, g, p, k);
    case Posted(flight, ok) => if InTheAir(s, flight) { AnswerKeeps(s, flight, ok, g, p, k); }
  }

  /** The windows of successive flights meet: each starts when the one before it was drained. */
  ghost predicate WindowsMeet(s: State, start: int) {
    && (forall i :: 0 < i < |s.flights| ==> s.flights[i].windowStart == s.flights[i - 1].windowEnd)
    && (s.flights == [] ==> s.windowStartedAt == start)
    && (s.flights != [] ==> s.flights[0].windowStart == start && s.flights[|s.flights| - 1].windowEnd == s.windowStartedAt)
  }

  lemma {:induction false} WindowsAlwaysMeet(now: int, events: seq<Event>)
    ensures WindowsMeet(After(now, events), now)
  {
    hide Step;
    if events != [] {
      hide WindowsMeet;
      var before := events[..|events| - 1];
      WindowsAlwaysMeet(now, before);
      StepMeets(After(now, before), events[|events| - 1], now);
    }
  }

  lemma StepMeets(s: State, e: Event, start: int)
    requires WindowsMeet(s, start)
    ensures WindowsMeet(Step(s, e), start)
  {
    hide Add, AddAll, Listed;
  }

  // ---------------------------------------------------------------------------
  // Flushes empty the tracker, and answers decide
  // ---------------------------------------------------------------------------

  /**
   A flush puts everything that is buffered into the air, under the window from the last flush that
   posted to now, and leaves nothing buffered; with nothing buffered it changes nothing.
   */
  lemma FlushPostsWhatIsBuffered(s: State, now: int, g: string, p: string, k: string)
    requires Sound(s)
    ensures var t := Flush(s, now);
      && t.counts.keys == [] && Buffered(t, g, p, k) == 0
      && Posts(t.flights, Awaited, g, p, k) == Posts(s.flights, Awaited, g, p, k) + Buffered(s, g, p, k)
      && (if s.counts.keys == [] then t == s
          else
            && |t.flights| == |s.flights| + 1 && t.flights[..|s.flights|] == s.flights
            && t.flights[|s.flights|].outcome == Awaited
            && t.flights[|s.flights|].windowStart == s.windowStartedAt
            && t.flights[|s.flights|].windowEnd == now == t.windowStartedAt)
  {
    hide Posts, Amount, Listed, Key, JsMap.Valid, Proper;
    Members(s.counts);
    var body := Listed(s.counts.keys, s.counts.vals);
    NothingListed(g, p, k);
    assert forall i :: 0 <= i < |s.counts.keys| ==> s.counts.keys[i] in s.counts.keys;
    if body != [] {
      PostsMore(s.flights, Flight(s.windowStartedAt, now, body, Awaited), Awaited, g, p, k);
    } else {
      NothingPosted(g, p, k);
    }
  }

  lemma NothingPosted(g: string, p: string, k: string)
    ensures Amount([], g, p, k) == 0
  {
  }

  /** How the flight was answered first, if it was. */
  function FirstAnswer(now: int, events: seq<Event>, flight: nat): Outcome {
    if events == [] then Awaited
    else
      var before, e := events[..|events| - 1], events[|events| - 1];
      var first := FirstAnswer(now, before, flight);
      if first == Awaited && e.Posted? && e.flight == flight && flight < |After(now, before).flights| then
        if e.ok then Delivered else Refused
      else first
  }

  /** A flight counts as delivered exactly when its first answer accepts it. */
  lemma {:induction false} AnswersDecide(now: int, events: seq<Event>, flight: nat)
    ensures var s := After(now, events);
      if flight < |s.flights| then s.flights[flight].outcome == FirstAnswer(now, events, flight)
      else FirstAnswer(now, events, flight) == Awaited
  {
    hide Add, AddAll, Listed;
    if events != [] {
      AnswersDecide(now, events[..|events| - 1], flight);
      StepAnswers(After(now, events[..|events| - 1]), events[|events| - 1], flight);
    }
  }

  lemma StepAnswers(s: State, e: Event, flight: nat)
    ensures var t := Step(s, e);
      && |s.flights| <= |t.flights|
      && (flight < |s.flights| ==>
            t.flights[flight].outcome ==
            if e.Posted? && e.flight == flight && s.flights[flight].outcome == Awaited then
              if e.ok then Delivered else Refused
            else s.flights[flight].outcome)
      && (|s.flights| <= flight < |t.flights| ==> t.flights[flight].outcome == Awaited)
  {
    hide Add, AddAll, Listed;
  }

  /** Nothing is lost at the cap while the keys, old and new, are fewer than it allows. */
  lemma {:induction false} NothingLostBelowTheCap(m: Counts, es: seq<Entry>, g: string, p: string, k: string)
    requires |m.keys| + |es| <= 10000
    ensures CapLoss(m, es, g, p, k) == 0
    decreases |es|
  {
    hide Key;
    if es != [] {
      NothingLostBelowTheCap(Add(m, es[0]), es[1..], g, p, k);
    }
  }
}
