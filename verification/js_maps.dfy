/**
 The source's `Map`: keys keep the order in which they were first set. Setting a key that is
 there keeps its place; deleting it and setting it again moves it to the end.
 */
module JsMaps {

  ghost predicate NoRepeats<T>(xs: seq<T>) {
    forall i, j :: 0 <= i < j < |xs| ==> xs[i] != xs[j]
  }

  function Without<K(==)>(keys: seq<K>, k: K): seq<K> {
    if keys == [] then []
    else if keys[0] == k then Without(keys[1..], k)
    else [keys[0]] + Without(keys[1..], k)
  }

  /** The keys whose values are to be kept, in order. */
  function Kept<K(==), V>(keys: seq<K>, vals: map<K, V>, keep: V -> bool): seq<K> {
    if keys == [] then []
    else
      var rest := Kept(keys[1..], vals, keep);
      if keys[0] in vals && keep(vals[keys[0]]) then [keys[0]] + rest else rest
  }

  datatype JsMap<!K(==), V> = JsMap(keys: seq<K>, vals: map<K, V>) {

    ghost predicate Valid() {
      NoRepeats(keys) && (forall k | k in keys :: k in vals) && (forall k | k in vals :: k in keys)
    }

    function Put(k: K, v: V): JsMap<K, V> {
      JsMap(if k in vals then keys else keys + [k], vals[k := v])
    }

    function Remove(k: K): JsMap<K, V> {
      JsMap(Without(keys, k), vals - {k})
    }

    /** Delete every entry whose value is not to be kept. */
    function Keep(keep: V -> bool): JsMap<K, V> {
      JsMap(Kept(keys, vals, keep), map k | k in vals && keep(vals[k]) :: vals[k])
    }

    /** Delete the entry that has been there longest, if there is one. */
    function DropOldest(): JsMap<K, V> {
      if keys == [] then this else Remove(keys[0])
    }
  }

  function Empty<K(==), V>(): (m: JsMap<K, V>)
    ensures m.Valid()
  {
    JsMap([], map[])
  }

  lemma {:induction false} WithoutMember<K>(keys: seq<K>, k: K, x: K)
    ensures x in Without(keys, k) <==> x in keys && x != k
  {
    if keys != [] {
      WithoutMember(keys[1..], k, x);
    }
  }

  lemma {:induction false} WithoutMembers<K>(keys: seq<K>, k: K)
    requires NoRepeats(keys)
    ensures NoRepeats(Without(keys, k))
    ensures |Without(keys, k)| == |keys| - (if k in keys then 1 else 0)
  {
    if keys != [] {
      var head, tail := keys[0], keys[1..];
      assert keys == [head] + tail;
      WithoutMembers(tail, k);
      WithoutMember(tail, k, head);
      assert head !in tail;
    }
  }

  lemma {:induction false} KeptMember<K, V>(keys: seq<K>, vals: map<K, V>, keep: V -> bool, x: K)
    ensures x in Kept(keys, vals, keep) <==> x in keys && x in vals && keep(vals[x])
  {
    if keys != [] {
      KeptMember(keys[1..], vals, keep, x);
    }
  }

  lemma {:induction false} KeptMembers<K, V>(keys: seq<K>, vals: map<K, V>, keep: V -> bool)
    requires NoRepeats(keys)
    ensures NoRepeats(Kept(keys, vals, keep))
    ensures |Kept(keys, vals, keep)| <= |keys|
  {
    if keys != [] {
      var head, tail := keys[0], keys[1..];
      assert keys == [head] + tail;
      KeptMembers(tail, vals, keep);
      KeptMember(tail, vals, keep, head);
      assert head !in tail;
    }
  }

  lemma PutValid<K, V>(m: JsMap<K, V>, k: K, v: V)
    requires m.Valid()
    ensures m.Put(k, v).Valid()
    ensures |m.Put(k, v).keys| == |m.keys| + (if k in m.vals then 0 else 1)
  {
  }

  lemma PutTwice<K, V>(m: JsMap<K, V>, k: K, v: V, w: V)
    ensures m.Put(k, v).Put(k, w) == m.Put(k, w)
  {
    assert m.vals[k := v][k := w] == m.vals[k := w];
  }

  lemma Members<K, V>(m: JsMap<K, V>)
    requires m.Valid()
    ensures forall k :: k in m.keys <==> k in m.vals
  {
  }

  lemma RemoveValid<K, V>(m: JsMap<K, V>, k: K)
    requires m.Valid()
    ensures m.Remove(k).Valid()
    ensures |m.Remove(k).keys| == |m.keys| - (if k in m.vals then 1 else 0)
    ensures k !in m.vals ==> m.Remove(k) == m
  {
    hide Without;
    WithoutMembers(m.keys, k);
    Members(m);
    var r := m.Remove(k);
    forall x | x in r.keys ensures x in r.vals {
      WithoutMember(m.keys, k, x);
    }
    forall x | x in r.vals ensures x in r.keys {
      WithoutMember(m.keys, k, x);
    }
    if k !in m.vals {
      WithoutAbsent(m.keys, k);
      assert m.vals - {k} == m.vals;
    }
  }

  lemma {:induction false} WithoutAbsent<K>(keys: seq<K>, k: K)
    requires k !in keys
    ensures Without(keys, k) == keys
  {
    if keys != [] {
      WithoutAbsent(keys[1..], k);
    }
  }

  lemma KeepValid<K, V>(m: JsMap<K, V>, keep: V -> bool)
    requires m.Valid()
    ensures m.Keep(keep).Valid() && |m.Keep(keep).keys| <= |m.keys|
  {
    KeptMembers(m.keys, m.vals, keep);
    Members(m);
    var r := m.Keep(keep);
    forall x | x in r.keys ensures x in r.vals {
      KeptMember(m.keys, m.vals, keep, x);
    }
    forall x | x in r.vals ensures x in r.keys {
      KeptMember(m.keys, m.vals, keep, x);
    }
  }

  lemma DropOldestValid<K, V>(m: JsMap<K, V>)
    requires m.Valid()
    ensures m.DropOldest().Valid()
    ensures |m.DropOldest().keys| == (if m.keys == [] then 0 else |m.keys| - 1)
  {
    if m.keys != [] {
      RemoveValid(m, m.keys[0]);
      assert m.keys[0] in m.keys;
    }
  }

  // ---------------------------------------------------------------------------
  // Order
  // ---------------------------------------------------------------------------

  /** The keys set after `k`. */
  function After<K(==)>(keys: seq<K>, k: K): seq<K> {
    if keys == [] then [] else if keys[0] == k then keys[1..] else After(keys[1..], k)
  }

  lemma {:induction false} AfterWithout<K>(keys: seq<K>, x: K, k: K)
    requires x != k
    ensures |After(Without(keys, x), k)| <= |After(keys, k)|
  {
    if keys != [] {
      var rest := Without(keys[1..], x);
      if keys[0] == x {
        AfterWithout(keys[1..], x, k);
      } else {
        assert ([keys[0]] + rest)[1..] == rest;
        if keys[0] == k {
          WithoutShorter(keys[1..], x);
        } else {
          AfterWithout(keys[1..], x, k);
        }
      }
    }
  }

  lemma {:induction false} WithoutShorter<K>(keys: seq<K>, x: K)
    ensures |Without(keys, x)| <= |keys|
  {
    if keys != [] {
      WithoutShorter(keys[1..], x);
    }
  }

  lemma {:induction false} KeptShorter<K, V>(keys: seq<K>, vals: map<K, V>, keep: V -> bool)
    ensures |Kept(keys, vals, keep)| <= |keys|
  {
    if keys != [] {
      KeptShorter(keys[1..], vals, keep);
    }
  }

  lemma {:induction false} AfterKept<K, V>(keys: seq<K>, vals: map<K, V>, keep: V -> bool, k: K)
    requires k in vals && keep(vals[k])
    ensures |After(Kept(keys, vals, keep), k)| <= |After(keys, k)|
  {
    if keys != [] {
      var rest := Kept(keys[1..], vals, keep);
      if keys[0] in vals && keep(vals[keys[0]]) {
        assert ([keys[0]] + rest)[1..] == rest;
        if keys[0] == k {
          KeptShorter(keys[1..], vals, keep);
        } else {
          AfterKept(keys[1..], vals, keep, k);
        }
      } else {
        AfterKept(keys[1..], vals, keep, k);
      }
    }
  }

  lemma {:induction false} AfterAppend<K>(keys: seq<K>, x: K, k: K)
    requires k in keys
    ensures |After(keys + [x], k)| == |After(keys, k)| + 1
  {
    assert (keys + [x])[1..] == keys[1..] + [x];
    if keys[0] != k {
      AfterAppend(keys[1..], x, k);
    }
  }

  lemma {:induction false} AfterLast<K>(keys: seq<K>, k: K)
    requires k !in keys
    ensures After(keys + [k], k) == []
  {
    if keys == [] {
      assert ([] + [k])[1..] == [];
    } else {
      assert (keys + [k])[1..] == keys[1..] + [k];
      AfterLast(keys[1..], k);
    }
  }

  // ---------------------------------------------------------------------------
  // Deleting while iterating
  // ---------------------------------------------------------------------------

  /** The map when a sweep over its keys has reached position `i`. */
  ghost predicate SweptTo<K, V>(m: JsMap<K, V>, start: JsMap<K, V>, keep: V -> bool, i: nat)
    requires i <= |start.keys|
  {
    && m.keys == Kept(start.keys[..i], start.vals, keep) + start.keys[i..]
    && m.vals == SweptVals(start.vals, keep, start.keys[..i])
  }

  lemma {:induction false} KeptAppend<K, V>(keys: seq<K>, k: K, vals: map<K, V>, keep: V -> bool)
    ensures Kept(keys + [k], vals, keep)
         == Kept(keys, vals, keep) + (if k in vals && keep(vals[k]) then [k] else [])
  {
    if keys == [] {
      assert ([] + [k])[1..] == [];
    } else {
      assert (keys + [k])[1..] == keys[1..] + [k];
      KeptAppend(keys[1..], k, vals, keep);
    }
  }

  lemma {:induction false} WithoutAppend<K>(a: seq<K>, b: seq<K>, k: K)
    ensures Without(a + b, k) == Without(a, k) + Without(b, k)
  {
    if a == [] {
      assert a + b == b;
    } else {
      assert (a + b)[1..] == a[1..] + b;
      WithoutAppend(a[1..], b, k);
    }
  }

  lemma SweepStep<K, V>(m: JsMap<K, V>, start: JsMap<K, V>, keep: V -> bool, i: nat)
    requires start.Valid() && i < |start.keys| && SweptTo(m, start, keep, i)
    ensures var k := start.keys[i];
      && k in start.vals && k in m.vals && m.vals[k] == start.vals[k]
      && SweptTo(if keep(start.vals[k]) then m else m.Remove(k), start, keep, i + 1)
  {
    var k := start.keys[i];
    var before, rest := start.keys[..i], start.keys[i + 1..];
    Members(start);
    assert k in start.keys;
    assert start.keys[..i + 1] == before + [k] && start.keys[i..] == [k] + rest;
    assert k !in before && k !in rest;
    SweepKeys(before, k, rest, start.vals, keep);
    SweepVals(start.vals, before, k, keep);
    hide Kept, Without, SweptVals;
  }

  ghost function SweptVals<K, V>(vals: map<K, V>, keep: V -> bool, before: seq<K>): map<K, V> {
    map k | k in vals && (keep(vals[k]) || k !in before) :: vals[k]
  }

  lemma SweepVals<K, V>(vals: map<K, V>, before: seq<K>, k: K, keep: V -> bool)
    requires k in vals && k !in before
    ensures k in SweptVals(vals, keep, before)
    ensures SweptVals(vals, keep, before + [k])
         == if keep(vals[k]) then SweptVals(vals, keep, before) else SweptVals(vals, keep, before) - {k}
  {
  }

  lemma SweepKeys<K, V>(before: seq<K>, k: K, rest: seq<K>, vals: map<K, V>, keep: V -> bool)
    requires NoRepeats(before) && k !in before && k !in rest && k in vals
    ensures var kept := Kept(before, vals, keep) + ([k] + rest);
      Kept(before + [k], vals, keep) + rest == if keep(vals[k]) then kept else Without(kept, k)
  {
    hide Kept, Without;
    var kept := Kept(before, vals, keep);
    KeptAppend(before, k, vals, keep);
    KeptMember(before, vals, keep, k);
    WithoutHead(kept, k, rest);
    if keep(vals[k]) {
      assert kept + [k] + rest == kept + ([k] + rest);
    } else {
      assert kept + [] + rest == kept + rest;
    }
  }

  lemma WithoutHead<K>(a: seq<K>, k: K, rest: seq<K>)
    requires k !in a && k !in rest
    ensures Without(a + ([k] + rest), k) == a + rest
  {
    WithoutAppend(a, [k] + rest, k);
    WithoutAbsent(a, k);
    WithoutAbsent(rest, k);
    assert ([k] + rest)[1..] == rest;
  }

  lemma SweepDone<K, V>(m: JsMap<K, V>, start: JsMap<K, V>, keep: V -> bool)
    requires start.Valid() && SweptTo(m, start, keep, |start.keys|)
    ensures m == start.Keep(keep)
  {
    assert start.keys[..|start.keys|] == start.keys;
    assert m.vals == start.Keep(keep).vals;
  }

  lemma SweepStart<K, V>(start: JsMap<K, V>, keep: V -> bool)
    ensures SweptTo(start, start, keep, 0)
  {
    assert start.keys[..0] == [];
  }
}
