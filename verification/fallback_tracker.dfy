/** Counts of auth fallbacks by (guard, path, failure kind), as objects that are updated in place. */
module FallbackTrackers {
  import opened JsMaps

  const MAX_TRACKED_KEYS := 10000

  datatype Entry = Entry(guard: string, path: string, failureKind: string, count: nat)

  function Key(guard: string, path: string, failureKind: string): string {
    guard + " " + path + " " + failureKind
  }

  function KeyOf(e: Entry): string {
    Key(e.guard, e.path, e.failureKind)
  }

  type Counts = JsMap<string, Entry>

  predicate AtCap(m: Counts, e: Entry) {
    KeyOf(e) !in m.vals && |m.keys| >= MAX_TRACKED_KEYS
  }

  function Add(m: Counts, e: Entry): Counts {
    var key := KeyOf(e);
    if key in m.vals then m.Put(key, m.vals[key].(count := m.vals[key].count + e.count))
    else if |m.keys| >= MAX_TRACKED_KEYS then m
    else m.Put(key, e)
  }

  function AddAll(m: Counts, es: seq<Entry>): Counts
    decreases |es|
  {
    if es == [] then m else AddAll(Add(m, es[0]), es[1..])
  }

  /** The values in the order of their keys. */
  function Listed<V>(keys: seq<string>, vals: map<string, V>): (vs: seq<V>)
    ensures (forall i :: 0 <= i < |keys| ==> keys[i] in vals) ==>
      |vs| == |keys| && forall i :: 0 <= i < |keys| ==> vs[i] == vals[keys[i]]
  {
    if keys == [] then []
    else
      var rest := Listed(keys[1..], vals);
      if keys[0] in vals then [vals[keys[0]]] + rest else rest
  }

  class Count {
    const guard: string
    const path: string
    const failureKind: string
    var count: nat

    ghost function Value(): Entry
      reads this
    {
      Entry(guard, path, failureKind, count)
    }

    constructor (guard: string, path: string, failureKind: string, count: nat)
      ensures Value() == Entry(guard, path, failureKind, count)
    {
      this.guard, this.path, this.failureKind, this.count := guard, path, failureKind, count;
    }
  }

  class AuthFallbackCountTracker {
    var counts: JsMap<string, Count>
    var windowStartedAt: int

    /** Each key has its own object, which belongs to the key. */
    ghost predicate Valid()
      reads this
    {
      && counts.Valid()
      && (forall k, l :: k in counts.vals && l in counts.vals && k != l ==> counts.vals[k] != counts.vals[l])
      && (forall k :: k in counts.vals ==>
            Key(counts.vals[k].guard, counts.vals[k].path, counts.vals[k].failureKind) == k)
    }

    ghost function Objects(): set<Count>
      reads this
    {
      set k | k in counts.vals :: counts.vals[k]
    }

    ghost function View(): Counts
      reads this, Objects()
    {
      JsMap(counts.keys, map k | k in counts.vals :: counts.vals[k].Value())
    }

    constructor (now: int)
      ensures Valid() && Objects() == {} && View() == Empty() && windowStartedAt == now
    {
      counts := Empty();
      windowStartedAt := now;
    }

    method Increment(guard: string, path: string, failureKind: string)
      requires Valid()
      modifies this`counts, Objects()
      ensures Valid() && View() == Add(old(View()), Entry(guard, path, failureKind, 1))
      ensures forall o :: o in Objects() ==> o in old(Objects()) || fresh(o)
    {
      Tally(guard, path, failureKind, 1);
    }

    method Tally(guard: string, path: string, failureKind: string, delta: nat)
      requires Valid()
      modifies this`counts, Objects()
      ensures Valid() && View() == Add(old(View()), Entry(guard, path, failureKind, delta))
      ensures forall o :: o in Objects() ==> o in old(Objects()) || fresh(o)
    {
      hide Key, JsMap.Valid;
      var key := Key(guard, path, failureKind);
      if key in counts.vals {
        var existing := counts.vals[key];
        existing.count := existing.count + delta;
        assert View().vals == Add(old(View()), Entry(guard, path, failureKind, delta)).vals;
        return;
      }
      if |counts.keys| >= MAX_TRACKED_KEYS {
        return;
      }
      var added := new Count(guard, path, failureKind, delta);
      Enter(key, added);
    }

    method Enter(key: string, added: Count)
      requires Valid() && key !in counts.vals && added !in Objects()
      requires Key(added.guard, added.path, added.failureKind) == key
      modifies this`counts
      ensures Valid() && View() == old(View()).Put(key, added.Value())
      ensures forall o :: o in Objects() ==> o in old(Objects()) || o == added
    {
      hide Key, JsMap.Valid;
      PutValid(counts, key, added);
      counts := counts.Put(key, added);
      assert View().vals == old(View()).vals[key := added.Value()];
    }

    /** Hand out the objects counted in so far, and start a new map. */
    method Drain(now: int) returns (windowStart: int, windowEnd: int, batch: seq<Count>)
      requires Valid()
      modifies this
      ensures Valid() && windowStart == old(windowStartedAt) && windowEnd == now
      ensures |batch| == |old(counts).keys|
      ensures forall i :: 0 <= i < |batch| ==> batch[i] == old(counts).vals[old(counts).keys[i]]
      ensures forall i :: 0 <= i < |batch| ==> batch[i] in old(Objects())
      ensures Read(batch) == Listed(old(View()).keys, old(View()).vals)
      ensures batch == [] ==> counts == old(counts) && windowStartedAt == old(windowStartedAt)
      ensures batch != [] ==> Objects() == {} && View() == Empty() && windowStartedAt == now
    {
      hide Key, Listed, JsMap.Valid;
      Members(counts);
      windowStart, windowEnd, batch := windowStartedAt, now, Listed(counts.keys, counts.vals);
      if batch == [] {
        return;
      }
      counts := Empty();
      windowStartedAt := now;
    }

    /** Count a drained batch in again. Its own objects stay as they are. */
    method Merge(batch: seq<Count>)
      requires Valid() && forall i :: 0 <= i < |batch| ==> batch[i] !in Objects()
      modifies this`counts, Objects()
      ensures Valid() && View() == AddAll(old(View()), Read(batch))
      ensures forall o :: o in Objects() ==> o in old(Objects()) || fresh(o)
    {
      hide Key, Add, Valid, View;
      ghost var was := Read(batch);
      for i := 0 to |batch|
        modifies this`counts, Objects(), old(Objects())
        invariant Valid() && Read(batch) == was
        invariant AddAll(View(), was[i..]) == AddAll(old(View()), was)
        invariant forall o :: o in Objects() ==> o in old(Objects()) || fresh(o)
      {
        var c := batch[i];
        Tally(c.guard, c.path, c.failureKind, c.count);
        assert was[i] == c.Value() && was[i..][1..] == was[i + 1..];
      }
    }
  }

  ghost function Read(batch: seq<Count>): (es: seq<Entry>)
    reads batch
    ensures |es| == |batch| && forall i :: 0 <= i < |es| ==> es[i] == batch[i].Value()
  {
    seq(|batch|, i requires 0 <= i < |batch| reads batch => batch[i].Value())
  }
}
