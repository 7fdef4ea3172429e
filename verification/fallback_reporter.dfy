/**
 The reporter that ships the counts: every flush drains the tracker and posts what it drained;
 flushes may overlap, and their answers come in any order.
 */
module FallbackReporters {
  import opened JsMaps
  import opened FallbackTrackers

  datatype Outcome = Awaited | Delivered | Refused

  /** A flush that had something to post: its window, the body posted, and how it was answered. */
  datatype Flight = Flight(windowStart: int, windowEnd: int, body: seq<Entry>, outcome: Outcome)

  datatype State = State(counts: Counts, windowStartedAt: int, flights: seq<Flight>)

  function Fallback(s: State, guard: string, path: string, failureKind: string): State {
    s.(counts := Add(s.counts, Entry(guard, path, failureKind, 1)))
  }

  function Flush(s: State, now: int): State {
    var body := Listed(s.counts.keys, s.counts.vals);
    if body == [] then s
    else State(Empty(), now, s.flights + [Flight(s.windowStartedAt, now, body, Awaited)])
  }

  predicate InTheAir(s: State, flight: nat) {
    flight < |s.flights| && s.flights[flight].outcome.Awaited?
  }

  function Answered(s: State, flight: nat, ok: bool): State
    requires InTheAir(s, flight)
  {
    var f := s.flights[flight];
    s.(flights := s.flights[flight := f.(outcome := if ok then Delivered else Refused)],
       counts := if ok then s.counts else AddAll(s.counts, f.body))
  }

  class AuthFallbackReporter {
    const tracker: AuthFallbackCountTracker
    var flights: seq<Flight>
    /** The drained objects each flush holds on to. */
    var batches: seq<seq<Count>>
    ghost var drained: set<Count>

    /** No drained object is in the tracker, and each still has the value that was posted. */
    ghost predicate Valid()
      reads this, tracker, tracker.Objects(), drained
    {
      && tracker.Valid()
      && tracker.Objects() !! drained
      && |batches| == |flights|
      && (forall i, j :: 0 <= i < |batches| && 0 <= j < |batches[i]| ==> batches[i][j] in drained)
      && (forall i :: 0 <= i < |batches| ==> Read(batches[i]) == flights[i].body)
    }

    ghost function View(): State
      reads this, tracker, tracker.Objects()
    {
      State(tracker.View(), tracker.windowStartedAt, flights)
    }

    constructor (tracker: AuthFallbackCountTracker)
      requires tracker.Valid()
      ensures this.tracker == tracker && Valid() && drained == {} && flights == []
    {
      this.tracker := tracker;
      flights, batches, drained := [], [], {};
    }

    /** A request is served by the fallback. */
    method OnFallback(guard: string, path: string, failureKind: string)
      requires Valid()
      modifies tracker`counts, tracker.Objects()
      ensures Valid() && View() == Fallback(old(View()), guard, path, failureKind)
    {
      hide FallbackTrackers.Key, FallbackTrackers.Add;
      tracker.Increment(guard, path, failureKind);
    }

    /** `flush` up to its await. */
    method BeginFlush(now: int)
      requires Valid()
      modifies this, tracker
      ensures Valid() && View() == Flush(old(View()), now)
    {
      hide FallbackTrackers.Key, FallbackTrackers.Listed, AuthFallbackCountTracker.Valid, FallbackTrackers.Read, Body;
      var windowStart, windowEnd, batch := tracker.Drain(now);
      if batch == [] {
        return;
      }
      flights := flights + [Flight(windowStart, windowEnd, Body(batch), Awaited)];
      batches := batches + [batch];
      drained := drained + set i | 0 <= i < |batch| :: batch[i];
    }

    /** The continuation of a flush, when its POST is answered or fails. */
    method OnAnswer(flight: nat, ok: bool)
      requires Valid() && InTheAir(View(), flight)
      modifies this`flights, tracker`counts, tracker.Objects()
      ensures Valid() && View() == Answered(old(View()), flight, ok)
    {
      hide FallbackTrackers.Key, FallbackTrackers.AddAll, AuthFallbackCountTracker.Valid, FallbackTrackers.Read;
      if !ok {
        tracker.Merge(batches[flight]);
      }
      flights := flights[flight := flights[flight].(outcome := if ok then Delivered else Refused)];
    }
  }

  /** The body of the POST. */
  function Body(batch: seq<Count>): (es: seq<Entry>)
    reads batch
    ensures es == Read(batch)
  {
    seq(|batch|, i requires 0 <= i < |batch| reads batch =>
      Entry(batch[i].guard, batch[i].path, batch[i].failureKind, batch[i].count))
  }
}
