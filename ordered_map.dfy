/** A JavaScript `Map` as the app uses it: keys (strings, here) remember the order in which they were
    first set, and setting a key that is already there replaces its value in place. */
module OrderedMap {
  datatype OMap<V> = OMap(keys: seq<string>, vals: map<string, V>)

  predicate NoDup<K(==)>(s: seq<K>) {
    forall i, j :: 0 <= i < j < |s| ==> s[i] != s[j]
  }

  /** Every key is listed once, and exactly the listed keys have values. */
  predicate Valid<V>(m: OMap<V>) {
    NoDup(m.keys) && (forall k :: k in m.vals ==> k in m.keys) && (forall k :: k in m.keys ==> k in m.vals)
  }

  function Empty<V>(): (r: OMap<V>)
    ensures Valid(r) && |r.keys| == 0
  {
    OMap([], map[])
  }

  /** `m.set(k, v)`. */
  function Set<V>(m: OMap<V>, k: string, v: V): (r: OMap<V>)
    requires Valid(m)
    ensures Valid(r)
    ensures r.vals == m.vals[k := v]
    ensures k in m.vals ==> r.keys == m.keys
    ensures k !in m.vals ==> r.keys == m.keys + [k]
  {
    if k in m.vals then OMap(m.keys, m.vals[k := v])
    else
      var r := OMap(m.keys + [k], m.vals[k := v]);
      assert forall i :: 0 <= i < |m.keys| ==> r.keys[i] == m.keys[i];
      r
  }

  /** `[...m.values()]`: the values in key order. */
  function Values<V>(m: OMap<V>): (r: seq<V>)
    requires Valid(m)
    ensures |r| == |m.keys|
    ensures forall i :: 0 <= i < |r| ==> r[i] == m.vals[m.keys[i]]
  {
    seq(|m.keys|, i requires 0 <= i < |m.keys| => m.vals[m.keys[i]])
  }

  /** Every stored value is listed. */
  lemma ValuesContains<V>(m: OMap<V>, k: string)
    requires Valid(m) && k in m.vals
    ensures m.vals[k] in Values(m)
  {
    var i :| 0 <= i < |m.keys| && m.keys[i] == k;
    assert Values(m)[i] == m.vals[k];
  }

  /** `new Map(arr.map(x => [keyOf(x), x]))`: a later element with the same key replaces
      the value but keeps the first position. */
  function IndexBy<V>(arr: seq<V>, keyOf: V -> string): (m: OMap<V>)
    ensures Valid(m)
    decreases |arr|
  {
    if arr == [] then Empty()
    else Set(IndexBy(arr[..|arr| - 1], keyOf), keyOf(arr[|arr| - 1]), arr[|arr| - 1])
  }

  /** The keys of the index are the keys of the elements, and each keeps the last element
      filed under it. */
  lemma {:induction false} IndexByEntries<V>(arr: seq<V>, keyOf: V -> string, k: string)
    ensures k in IndexBy(arr, keyOf).vals <==> exists i :: 0 <= i < |arr| && keyOf(arr[i]) == k
    ensures k in IndexBy(arr, keyOf).vals ==>
      exists i :: 0 <= i < |arr| && keyOf(arr[i]) == k && IndexBy(arr, keyOf).vals[k] == arr[i]
        && forall j :: i < j < |arr| ==> keyOf(arr[j]) != k
  {
    if arr != [] {
      var p, d := arr[..|arr| - 1], arr[|arr| - 1];
      IndexByEntries(p, keyOf, k);
      if keyOf(d) != k && k in IndexBy(p, keyOf).vals {
        var i :| 0 <= i < |p| && keyOf(p[i]) == k && IndexBy(p, keyOf).vals[k] == p[i]
                 && forall j :: i < j < |p| ==> keyOf(p[j]) != k;
        assert arr[i] == p[i];
        forall j | i < j < |arr| ensures keyOf(arr[j]) != k {
          if j < |p| { assert arr[j] == p[j]; }
        }
      }
      if exists i :: 0 <= i < |arr| && keyOf(arr[i]) == k {
        var i :| 0 <= i < |arr| && keyOf(arr[i]) == k;
        if i < |p| { assert p[i] == arr[i]; }
      }
    }
  }

  predicate DistinctBy<V>(arr: seq<V>, keyOf: V -> string) {
    forall i, j :: 0 <= i < j < |arr| ==> keyOf(arr[i]) != keyOf(arr[j])
  }

  /** Every value of the index is one of the indexed items. */
  lemma IndexByValuesFrom<V>(arr: seq<V>, keyOf: V -> string, v: V)
    requires v in Values(IndexBy(arr, keyOf))
    ensures v in arr
  {
    var m := IndexBy(arr, keyOf);
    var p :| 0 <= p < |m.keys| && Values(m)[p] == v;
    IndexByEntries(arr, keyOf, m.keys[p]);
  }

  /** Elements with distinct keys pass through the index unchanged. */
  /** The index of a list with distinct keys lists exactly its elements, in order. */
  ghost predicate IndexesInOrder<V>(arr: seq<V>, keyOf: V -> string) {
    var m := IndexBy(arr, keyOf);
    |m.keys| == |arr| && (forall i :: 0 <= i < |arr| ==> m.keys[i] == keyOf(arr[i])) && Values(m) == arr
  }

  lemma {:induction false} IndexByDistinct<V>(arr: seq<V>, keyOf: V -> string)
    requires DistinctBy(arr, keyOf)
    ensures |IndexBy(arr, keyOf).keys| == |arr|
    ensures forall i :: 0 <= i < |arr| ==> IndexBy(arr, keyOf).keys[i] == keyOf(arr[i])
    ensures Values(IndexBy(arr, keyOf)) == arr
  {
    if arr != [] {
      DistinctPrefix(arr, keyOf);
      IndexByDistinct(arr[..|arr| - 1], keyOf);
      IndexByDistinctStep(arr, keyOf);
    }
    assert IndexesInOrder(arr, keyOf);
  }

  lemma IndexByDistinctStep<V>(arr: seq<V>, keyOf: V -> string)
    requires arr != [] && DistinctBy(arr, keyOf) && IndexesInOrder(arr[..|arr| - 1], keyOf)
    ensures IndexesInOrder(arr, keyOf)
  {
    var p, d := arr[..|arr| - 1], arr[|arr| - 1];
    var m := IndexBy(p, keyOf);
    assert keyOf(d) !in m.vals by {
      forall j | 0 <= j < |m.keys| ensures m.keys[j] != keyOf(d) {
        assert m.keys[j] == keyOf(p[j]) && p[j] == arr[j];
      }
    }
    var r := IndexBy(arr, keyOf);
    assert Values(r) == arr by {
      ValuesAfterAppend(m, keyOf(d), d);
      assert p + [d] == arr;
    }
    assert r.keys == m.keys + [keyOf(d)];
    forall i | 0 <= i < |arr| ensures r.keys[i] == keyOf(arr[i]) {
      if i < |p| { assert r.keys[i] == m.keys[i] && p[i] == arr[i]; }
    }
  }

  lemma DistinctPrefix<V>(arr: seq<V>, keyOf: V -> string)
    requires arr != [] && DistinctBy(arr, keyOf)
    ensures DistinctBy(arr[..|arr| - 1], keyOf)
  {
    var p := arr[..|arr| - 1];
    forall i, j | 0 <= i < j < |p| ensures keyOf(p[i]) != keyOf(p[j]) {
      assert p[i] == arr[i] && p[j] == arr[j];
    }
  }

  /** Setting a listed key replaces its value in place. */
  lemma ValuesAfterReplace<V>(m: OMap<V>, p: nat, v: V)
    requires Valid(m) && p < |m.keys|
    ensures Values(Set(m, m.keys[p], v)) == Values(m)[p := v]
  {
    var r := Values(Set(m, m.keys[p], v));
    forall j | 0 <= j < |m.keys| ensures r[j] == Values(m)[p := v][j] {
      if j != p { assert m.keys[j] != m.keys[p]; }
    }
  }

  /** Setting a new key appends its value. */
  lemma ValuesAfterAppend<V>(m: OMap<V>, k: string, v: V)
    requires Valid(m) && k !in m.vals
    ensures Values(Set(m, k, v)) == Values(m) + [v]
  {
    var r := Values(Set(m, k, v));
    forall j | 0 <= j < |m.keys| ensures r[j] == Values(m)[j] {
      assert m.keys[j] != k;
    }
  }

  /** Setting a key on the index of a list with distinct keys replaces the element with that
      key in place ... */
  lemma SetOnDistinctReplaces<V>(arr: seq<V>, keyOf: V -> string, i: nat, v: V)
    requires DistinctBy(arr, keyOf) && i < |arr|
    ensures Values(Set(IndexBy(arr, keyOf), keyOf(arr[i]), v)) == arr[i := v]
  {
    IndexByDistinct(arr, keyOf);
    ValuesAfterReplace(IndexBy(arr, keyOf), i, v);
  }

  /** ... or appends when no element has it. */
  lemma SetOnDistinctAppends<V>(arr: seq<V>, keyOf: V -> string, key: string, v: V)
    requires DistinctBy(arr, keyOf)
    requires forall i :: 0 <= i < |arr| ==> keyOf(arr[i]) != key
    ensures Values(Set(IndexBy(arr, keyOf), key, v)) == arr + [v]
  {
    var m := IndexBy(arr, keyOf);
    IndexByDistinct(arr, keyOf);
    forall j | 0 <= j < |m.keys| ensures m.keys[j] != key {
      assert m.keys[j] == keyOf(arr[j]);
    }
    ValuesAfterAppend(m, key, v);
  }
}
