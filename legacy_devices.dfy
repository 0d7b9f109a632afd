/** The earlier app's device list (`greeneye_devices`) as its Dashboard keeps it:
    identity is the trimmed code, compared exactly and case-sensitively; records with
    the same code are merged, later fields winning; the selection survives a delete. */
module LegacyDevices {
  import opened Text
  import opened JsValues
  import opened LocalStores
  import OM = OrderedMap
  import Gallery

  /** `codeTrim(v)`: `String(v ?? '').trim()`. */
  function CodeTrim(v: Js): string {
    Trim(StrOrEmpty(v))
  }

  /** `eqCode(a, b)`: the trimmed texts are equal, letter case included. */
  predicate EqCode(a: Js, b: Js) {
    CodeTrim(a) == CodeTrim(b)
  }

  /** Surrounding white space never tells two codes apart. */
  lemma EqCodeIgnoresSpace(s: string)
    ensures EqCode(Str(s), Str(Trim(s)))
  {
    TrimIdempotent(s);
  }

  /** The key `dedupeByCode` files a record under: `codeTrim(d?.deviceCode)`. */
  function KeyOf(d: Js): string {
    CodeTrim(OptProp(d, "deviceCode"))
  }

  /** `{ ...map.get(key), ...d, deviceCode: d?.deviceCode }`. */
  function Combine(prev: Js, d: Js): Js {
    Obj(Spread(prev) + Spread(d) + map["deviceCode" := OptProp(d, "deviceCode")])
  }

  /** A record with a code keeps its code through `Combine`. */
  lemma CombineKey(prev: Js, d: Js)
    ensures KeyOf(Combine(prev, d)) == KeyOf(d)
  {
  }

  /** What the merge needs of a key function: only objects holding a `deviceCode` have a
      non-empty key, and `Combine` keeps the key of the record it adds. `KeyOf` is one;
      the list lemmas below take the key as a parameter so that they never look into it. */
  ghost predicate KeyedByCode(key: Js -> string) {
    forall d {:trigger key(d)} :: key(d) != "" ==>
      d.Obj? && "deviceCode" in d.fields && forall p :: key(Combine(p, d)) == key(d)
  }

  lemma KeyOfKeyedByCode()
    ensures KeyedByCode(KeyOf)
  {
    forall d, p {:trigger Combine(p, d)} | KeyOf(d) != ""
      ensures KeyOf(Combine(p, d)) == KeyOf(d)
    {
      CombineKey(p, d);
    }
  }

  /** One iteration of the `for` loop of `dedupeByCode`. */
  function Put(m: OM.OMap<Js>, d: Js, key: Js -> string): (r: OM.OMap<Js>)
    requires OM.Valid(m)
    ensures OM.Valid(r)
  {
    var k := key(d);
    if k == "" then m
    else OM.Set(m, k, Combine(if k in m.vals then m.vals[k] else Undefined, d))
  }

  /** The map `dedupeByCode` has built after the records of `list`. */
  function Fold(list: seq<Js>, key: Js -> string): (m: OM.OMap<Js>)
    ensures OM.Valid(m)
  {
    if list == [] then OM.Empty()
    else Put(Fold(list[..|list| - 1], key), list[|list| - 1], key)
  }

  /** `Array.from(map.values())`. */
  function Deduped(list: seq<Js>): seq<Js> {
    OM.Values(Fold(list, KeyOf))
  }

  /** `dedupeByCode(list)`. */
  method DedupeByCode(list: seq<Js>) returns (out: seq<Js>)
    ensures out == Deduped(list)
  {
    var m := OM.Empty();
    for i := 0 to |list|
      invariant m == Fold(list[..i], KeyOf)
    {
      assert list[..i + 1][..i] == list[..i];
      m := Put(m, list[i], KeyOf);
    }
    assert list[..|list|] == list;
    out := OM.Values(m);
  }

  // ---------------------------------------------------------------------------------
  // What the merge keeps
  // ---------------------------------------------------------------------------------

  /** The non-empty keys of `list`, in order, repeats included. */
  function Codes(list: seq<Js>, key: Js -> string): (r: seq<string>)
    ensures forall k :: k in r ==> k != ""
  {
    if list == [] then []
    else
      var k := key(list[|list| - 1]);
      Codes(list[..|list| - 1], key) + (if k == "" then [] else [k])
  }

  /** Every non-empty key of the list is among its codes. */
  lemma {:induction false} CodesHas(list: seq<Js>, key: Js -> string, i: nat)
    requires i < |list| && key(list[i]) != ""
    ensures key(list[i]) in Codes(list, key)
  {
    var init := list[..|list| - 1];
    if i < |list| - 1 {
      assert init[i] == list[i];
      CodesHas(init, key, i);
    }
  }

  /** The fields of all records filed under `k`, later records overriding earlier ones. */
  function MergedFields(list: seq<Js>, key: Js -> string, k: string): Object {
    if list == [] then map[]
    else
      var m := MergedFields(list[..|list| - 1], key, k);
      if key(list[|list| - 1]) == k then m + Spread(list[|list| - 1]) else m
  }

  /** The last override in `Combine` restates the code the record already has. */
  lemma CombineIsSpread(prev: Js, d: Js)
    requires d.Obj? && "deviceCode" in d.fields
    ensures Combine(prev, d) == Obj(Spread(prev) + Spread(d))
  {
    var a := Spread(prev) + Spread(d);
    assert a["deviceCode" := OptProp(d, "deviceCode")] == a;
  }

  /** The map is filed by key in first-appearance order, and each entry is the merge of
      every record with that key. */
  ghost predicate Shaped(list: seq<Js>, key: Js -> string) {
    var m := Fold(list, key);
    m.keys == Gallery.Distinct(Codes(list, key))
    && (forall k :: k in m.vals ==> m.vals[k] == Obj(MergedFields(list, key, k)))
    && (forall k :: k in m.vals ==> key(m.vals[k]) == k)
  }

  lemma {:induction false} FoldShape(list: seq<Js>, key: Js -> string)
    requires KeyedByCode(key)
    ensures Shaped(list, key)
  {
    if list != [] {
      FoldShape(list[..|list| - 1], key);
      var k := key(list[|list| - 1]);
      var d, m := list[|list| - 1], Fold(list[..|list| - 1], key);
      if k == "" {
        FoldSkipStep(list, key);
      } else if k in m.vals {
        assert key(Combine(m.vals[k], d)) == k;
        FoldMergeStep(list, key);
      } else {
        assert key(Combine(Undefined, d)) == k;
        FoldNewStep(list, key);
      }
    }
  }

  /** A record without a key changes nothing. */
  lemma FoldSkipStep(list: seq<Js>, key: Js -> string)
    requires list != [] && key(list[|list| - 1]) == ""
    requires Shaped(list[..|list| - 1], key)
    ensures Shaped(list, key)
  {
    var init := list[..|list| - 1];
    var m := Fold(init, key);
    assert Fold(list, key) == m;
    assert Codes(list, key) == Codes(init, key);
    Gallery.DistinctMembers(Codes(init, key));
    forall k | k in m.vals ensures MergedFields(list, key, k) == MergedFields(init, key, k) {
      assert k in m.keys;
    }
  }

  /** `Distinct` of a list grown by one. */
  lemma DistinctSnoc(xs: seq<string>, k: string)
    ensures Gallery.Distinct(xs + [k]) ==
            if k in Gallery.Distinct(xs) then Gallery.Distinct(xs) else Gallery.Distinct(xs) + [k]
  {
    assert (xs + [k])[..|xs|] == xs;
  }

  /** A record filed under `k` leaves the merged fields of every other key alone. */
  lemma MergedOthers(list: seq<Js>, key: Js -> string, k: string)
    requires list != [] && key(list[|list| - 1]) != k
    ensures MergedFields(list, key, k) == MergedFields(list[..|list| - 1], key, k)
  {
  }

  /** A record with a key already filed merges into that entry. */
  lemma FoldMergeStep(list: seq<Js>, key: Js -> string)
    requires list != [] && key(list[|list| - 1]) != ""
    requires key(list[|list| - 1]) in Fold(list[..|list| - 1], key).vals
    requires Shaped(list[..|list| - 1], key)
    requires var d := list[|list| - 1]; var m := Fold(list[..|list| - 1], key);
             d.Obj? && "deviceCode" in d.fields && key(Combine(m.vals[key(d)], d)) == key(d)
    ensures Shaped(list, key)
  {
    var init, d := list[..|list| - 1], list[|list| - 1];
    var m := Fold(init, key);
    var k := key(d);
    var v := Combine(m.vals[k], d);
    var m' := Fold(list, key);
    assert m' == OM.Set(m, k, v);
    MergeKeys(list, key);
    CombineIsSpread(m.vals[k], d);
    assert m.vals[k] == Obj(MergedFields(init, key, k));
    assert MergedFields(list, key, k) == MergedFields(init, key, k) + Spread(d);
    assert v == Obj(MergedFields(list, key, k));
    forall k' | k' in m'.vals
      ensures m'.vals[k'] == Obj(MergedFields(list, key, k')) && key(m'.vals[k']) == k'
    {
      if k' != k {
        MergedOthers(list, key, k');
        assert m'.vals[k'] == m.vals[k'];
      }
    }
  }

  lemma MergeKeys(list: seq<Js>, key: Js -> string)
    requires list != [] && key(list[|list| - 1]) != ""
    requires var m := Fold(list[..|list| - 1], key);
             OM.Valid(m) && key(list[|list| - 1]) in m.vals
             && m.keys == Gallery.Distinct(Codes(list[..|list| - 1], key))
    ensures Gallery.Distinct(Codes(list, key)) == Gallery.Distinct(Codes(list[..|list| - 1], key))
  {
    var init, k := list[..|list| - 1], key(list[|list| - 1]);
    assert Codes(list, key) == Codes(init, key) + [k];
    DistinctSnoc(Codes(init, key), k);
  }

  /** A record with a new key opens an entry at the end. */
  lemma FoldNewStep(list: seq<Js>, key: Js -> string)
    requires list != [] && key(list[|list| - 1]) != ""
    requires key(list[|list| - 1]) !in Fold(list[..|list| - 1], key).vals
    requires Shaped(list[..|list| - 1], key)
    requires var d := list[|list| - 1];
             d.Obj? && "deviceCode" in d.fields && key(Combine(Undefined, d)) == key(d)
    ensures Shaped(list, key)
  {
    var init, d := list[..|list| - 1], list[|list| - 1];
    var m := Fold(init, key);
    var k := key(d);
    CombineFresh(d);
    var m' := Fold(list, key);
    assert m' == OM.Set(m, k, d);
    NewKeys(list, key);
    Gallery.DistinctMembers(Codes(init, key));
    assert k !in Codes(init, key);
    NewVal(list, key);
    OtherVals(list, key, m);
    forall k' | k' in m'.vals
      ensures m'.vals[k'] == Obj(MergedFields(list, key, k')) && key(m'.vals[k']) == k'
    {
      if k' != k {
        assert m'.vals[k'] == m.vals[k'];
      }
    }
  }

  lemma NewKeys(list: seq<Js>, key: Js -> string)
    requires list != [] && key(list[|list| - 1]) != ""
    requires key(list[|list| - 1]) !in Fold(list[..|list| - 1], key).vals
    requires Fold(list[..|list| - 1], key).keys == Gallery.Distinct(Codes(list[..|list| - 1], key))
    ensures Fold(list[..|list| - 1], key).keys + [key(list[|list| - 1])] == Gallery.Distinct(Codes(list, key))
  {
    var init, k := list[..|list| - 1], key(list[|list| - 1]);
    Gallery.DistinctMembers(Codes(init, key));
    assert Codes(list, key) == Codes(init, key) + [k];
    DistinctSnoc(Codes(init, key), k);
  }

  /** The entry opened for a new key holds exactly the fields of its record. */
  lemma NewVal(list: seq<Js>, key: Js -> string)
    requires list != [] && key(list[|list| - 1]) != ""
    requires key(list[|list| - 1]) !in Codes(list[..|list| - 1], key)
    requires list[|list| - 1].Obj?
    ensures MergedFields(list, key, key(list[|list| - 1])) == list[|list| - 1].fields
  {
    var init, d := list[..|list| - 1], list[|list| - 1];
    NoKeyNoFields(init, key, key(d));
    assert map[] + d.fields == d.fields;
  }

  /** The entries of the other keys are left as they were. */
  lemma OtherVals(list: seq<Js>, key: Js -> string, m: OM.OMap<Js>)
    requires list != [] && key(list[|list| - 1]) !in m.vals
    ensures forall k' :: k' in m.vals ==>
              MergedFields(list, key, k') == MergedFields(list[..|list| - 1], key, k')
  {
    forall k' | k' in m.vals
      ensures MergedFields(list, key, k') == MergedFields(list[..|list| - 1], key, k')
    {
      MergedOthers(list, key, k');
    }
  }

  /** In a clean list no two positions share a key. */
  lemma CleanUnique(ds: seq<Js>, key: Js -> string, i: nat)
    requires CleanBy(ds, key) && i < |ds|
    ensures forall j :: 0 <= j < |ds| && j != i ==> key(ds[j]) != key(ds[i])
  {
  }

  lemma {:induction false} NoKeyNoFields(list: seq<Js>, key: Js -> string, k: string)
    requires k != "" && k !in Codes(list, key)
    ensures MergedFields(list, key, k) == map[]
  {
    if list != [] {
      var init := list[..|list| - 1];
      var kl := key(list[|list| - 1]);
      var ci := Codes(init, key);
      assert Codes(list, key) == ci + (if kl == "" then [] else [kl]);
      assert k !in ci;
      if kl != "" {
        assert Codes(list, key)[|ci|] == kl;
      }
      NoKeyNoFields(init, key, k);
    }
  }

  /** Records with distinct non-empty keys, all of them objects. */
  predicate CleanBy(ds: seq<Js>, key: Js -> string) {
    (forall i :: 0 <= i < |ds| ==> ds[i].Obj? && key(ds[i]) != "")
    && (forall i, j :: 0 <= i < j < |ds| ==> key(ds[i]) != key(ds[j]))
  }

  /** A list as the Dashboard holds it: objects with distinct non-empty codes. */
  predicate Clean(ds: seq<Js>) {
    CleanBy(ds, KeyOf)
  }

  lemma DedupedFactsBy(list: seq<Js>, key: Js -> string)
    requires KeyedByCode(key)
    ensures var r := OM.Values(Fold(list, key));
            CleanBy(r, key)
            && |r| == |Gallery.Distinct(Codes(list, key))|
            && forall i :: 0 <= i < |r| ==>
                 key(r[i]) == Gallery.Distinct(Codes(list, key))[i]
                 && r[i] == Obj(MergedFields(list, key, key(r[i])))
  {
    FoldShape(list, key);
    var m := Fold(list, key);
    assert Shaped(list, key);
    var r := OM.Values(m);
    Gallery.DistinctMembers(Codes(list, key));
    forall i | 0 <= i < |r|
      ensures r[i].Obj? && key(r[i]) == m.keys[i] && m.keys[i] != ""
    {
      assert m.keys[i] in m.vals;
      assert m.keys[i] in Codes(list, key);
    }
  }

  /** What `dedupeByCode` returns: one object per distinct non-empty code, in order of
      first appearance, each merging every record with that code (later fields win). */
  lemma DedupedFacts(list: seq<Js>)
    ensures Clean(Deduped(list))
    ensures |Deduped(list)| == |Gallery.Distinct(Codes(list, KeyOf))|
    ensures forall i :: 0 <= i < |Deduped(list)| ==>
              KeyOf(Deduped(list)[i]) == Gallery.Distinct(Codes(list, KeyOf))[i]
              && Deduped(list)[i] == Obj(MergedFields(list, KeyOf, KeyOf(Deduped(list)[i])))
  {
    KeyOfKeyedByCode();
    DedupedFactsBy(list, KeyOf);
  }

  /** The code of every output record comes from the input, and every code of the input
      has a record. */
  lemma DedupedCodes(list: seq<Js>, k: string)
    ensures (exists i :: 0 <= i < |Deduped(list)| && KeyOf(Deduped(list)[i]) == k) <==> k in Codes(list, KeyOf)
  {
    DedupedFacts(list);
    Gallery.DistinctMembers(Codes(list, KeyOf));
    var ks := Gallery.Distinct(Codes(list, KeyOf));
    if k in Codes(list, KeyOf) {
      var i :| 0 <= i < |ks| && ks[i] == k;
      assert KeyOf(Deduped(list)[i]) == k;
    }
  }

  /** The last record with a code decides every field it has. */
  lemma {:induction false} LastRecordWins(list: seq<Js>, j: nat, f: string)
    requires j < |list| && KeyOf(list[j]) != "" && f in Spread(list[j])
    requires forall i :: j < i < |list| ==> KeyOf(list[i]) != KeyOf(list[j])
    ensures f in MergedFields(list, KeyOf, KeyOf(list[j]))
    ensures MergedFields(list, KeyOf, KeyOf(list[j]))[f] == Spread(list[j])[f]
  {
    if j < |list| - 1 {
      var init := list[..|list| - 1];
      assert init[j] == list[j];
      LastRecordWins(init, j, f);
    }
  }

  lemma CleanInit(ds: seq<Js>, key: Js -> string)
    requires ds != [] && CleanBy(ds, key)
    ensures CleanBy(ds[..|ds| - 1], key)
  {
  }

  /** A record added to nothing stays as it is. */
  lemma CombineFresh(d: Js)
    requires d.Obj? && "deviceCode" in d.fields
    ensures Combine(Undefined, d) == d
  {
    CombineIsSpread(Undefined, d);
    assert Spread(Undefined) + Spread(d) == d.fields;
  }

  /** `m` holds the records of `ds`, one per key, in order. */
  ghost predicate InOrder(m: OM.OMap<Js>, ds: seq<Js>, key: Js -> string)
    requires OM.Valid(m)
  {
    |m.keys| == |ds|
    && (forall i :: 0 <= i < |ds| ==> m.keys[i] == key(ds[i]))
    && OM.Values(m) == ds
  }

  /** The map built from `ds` holds the records of `ds`, one per key, in order. */
  ghost predicate FoldsInOrder(ds: seq<Js>, key: Js -> string) {
    InOrder(Fold(ds, key), ds, key)
  }

  /** A record with a fresh key is appended in place. */
  lemma AppendInOrder(m: OM.OMap<Js>, init: seq<Js>, d: Js, key: Js -> string)
    requires OM.Valid(m) && InOrder(m, init, key)
    requires forall j :: 0 <= j < |init| ==> key(init[j]) != key(d)
    ensures key(d) !in m.vals
    ensures InOrder(OM.Set(m, key(d), d), init + [d], key)
  {
    var k := key(d);
    forall j | 0 <= j < |m.keys| ensures m.keys[j] != k {
      assert m.keys[j] == key(init[j]);
    }
    OM.ValuesAfterAppend(m, k, d);
  }

  lemma CleanStep(ds: seq<Js>, key: Js -> string)
    requires ds != [] && FoldsInOrder(ds[..|ds| - 1], key)
    requires var d := ds[|ds| - 1];
             d.Obj? && "deviceCode" in d.fields && key(d) != ""
             && forall j :: 0 <= j < |ds| - 1 ==> key(ds[j]) != key(d)
    ensures FoldsInOrder(ds, key)
  {
    var init, d := ds[..|ds| - 1], ds[|ds| - 1];
    var m := Fold(init, key);
    forall j | 0 <= j < |init| ensures key(init[j]) != key(d) {
      assert init[j] == ds[j];
    }
    AppendInOrder(m, init, d, key);
    CombineFresh(d);
    assert Fold(ds, key) == OM.Set(m, key(d), d);
    assert init + [d] == ds;
  }

  /** The last record of a clean list carries a key none before it has. */
  lemma CleanLast(ds: seq<Js>, key: Js -> string)
    requires KeyedByCode(key) && ds != [] && CleanBy(ds, key)
    ensures var d := ds[|ds| - 1];
            d.Obj? && "deviceCode" in d.fields && key(d) != ""
            && forall j :: 0 <= j < |ds| - 1 ==> key(ds[j]) != key(d)
  {
    assert key(ds[|ds| - 1]) != "";
  }

  /** A clean list is its own deduplication. */
  lemma {:induction false} CleanIsDedupedBy(ds: seq<Js>, key: Js -> string)
    requires KeyedByCode(key) && CleanBy(ds, key)
    ensures FoldsInOrder(ds, key)
  {
    if ds != [] {
      CleanInit(ds, key);
      CleanIsDedupedBy(ds[..|ds| - 1], key);
      CleanLast(ds, key);
      CleanStep(ds, key);
    }
  }

  lemma CleanIsDeduped(ds: seq<Js>)
    requires Clean(ds)
    ensures Deduped(ds) == ds
  {
    KeyOfKeyedByCode();
    CleanIsDedupedBy(ds, KeyOf);
  }

  /** Deduplicating twice is deduplicating once. */
  lemma DedupeIdempotent(list: seq<Js>)
    ensures Deduped(Deduped(list)) == Deduped(list)
  {
    DedupedFacts(list);
    CleanIsDeduped(Deduped(list));
  }

  /** `loadDevices()`: `[]` for a missing, empty or unparsable entry and for a stored
      value that is not an array (iterating it throws, or a string's characters carry no
      code); the deduplicated array otherwise. */
  function LoadDevices(slot: Slot): (r: seq<Js>)
    ensures !(slot.Json? && slot.value.Arr?) ==> r == []
  {
    if slot.Json? && slot.value.Arr? then Deduped(slot.value.items) else []
  }

  /** Whatever is stored, the list the Dashboard shows is clean. */
  lemma LoadedIsClean(slot: Slot)
    ensures Clean(LoadDevices(slot))
  {
    if slot.Json? && slot.value.Arr? {
      DedupedFacts(slot.value.items);
    }
  }

  /** The records whose key is not `c`, in order. */
  function Drop(ds: seq<Js>, key: Js -> string, c: string): (r: seq<Js>)
    ensures |r| <= |ds|
  {
    if ds == [] then []
    else (if key(ds[0]) == c then [] else [ds[0]]) + Drop(ds[1..], key, c)
  }

  /** `Drop` keeps exactly the records whose key is not `c`. */
  lemma {:induction false} DropMembers(ds: seq<Js>, key: Js -> string, c: string)
    ensures forall x :: x in Drop(ds, key, c) <==> x in ds && key(x) != c
  {
    if ds != [] {
      DropMembers(ds[1..], key, c);
      assert ds == [ds[0]] + ds[1..];
    }
  }

  /** `devices.filter(d => !eqCode(d.deviceCode, code))`. */
  function Without(ds: seq<Js>, code: Js): (r: seq<Js>)
    ensures |r| <= |ds|
    ensures forall x :: x in r <==> x in ds && !EqCode(OptProp(x, "deviceCode"), code)
  {
    DropMembers(ds, KeyOf, CodeTrim(code));
    Drop(ds, KeyOf, CodeTrim(code))
  }

  lemma {:induction false} DropNone(ds: seq<Js>, key: Js -> string, c: string)
    requires forall i :: 0 <= i < |ds| ==> key(ds[i]) != c
    ensures Drop(ds, key, c) == ds
  {
    if ds != [] {
      DropNone(ds[1..], key, c);
    }
  }

  lemma CleanTail(ds: seq<Js>, key: Js -> string)
    requires ds != [] && CleanBy(ds, key)
    ensures CleanBy(ds[1..], key)
    ensures forall i :: 0 <= i < |ds| - 1 ==> key(ds[1..][i]) != key(ds[0])
  {
  }

  /** Putting a list back together around a removed position. */
  lemma Splice(ds: seq<Js>, i: nat)
    requires 0 < i < |ds|
    ensures [ds[0]] + (ds[1..][..i - 1] + ds[1..][i..]) == ds[..i] + ds[i + 1..]
  {
    assert ds[1..][..i - 1] == ds[1..i];
    assert ds[1..][i..] == ds[i + 1..];
    assert [ds[0]] + ds[1..i] == ds[..i];
  }

  /** Dropping the key of a record no other record shares drops that record only. */
  lemma {:induction false} DropOne(ds: seq<Js>, key: Js -> string, i: nat)
    requires i < |ds|
    requires forall j :: 0 <= j < |ds| && j != i ==> key(ds[j]) != key(ds[i])
    ensures Drop(ds, key, key(ds[i])) == ds[..i] + ds[i + 1..]
  {
    var c := key(ds[i]);
    var tl := ds[1..];
    if i == 0 {
      forall j | 0 <= j < |tl| ensures key(tl[j]) != c {
        assert tl[j] == ds[j + 1];
      }
      DropNone(tl, key, c);
    } else {
      forall j | 0 <= j < |tl| && j != i - 1 ensures key(tl[j]) != key(tl[i - 1]) {
        assert tl[j] == ds[j + 1];
      }
      DropOne(tl, key, i - 1);
      assert key(ds[0]) != c;
      Splice(ds, i);
    }
  }

  /** Dropping records keeps a clean list clean. */
  lemma {:induction false} DropClean(ds: seq<Js>, key: Js -> string, c: string)
    requires CleanBy(ds, key)
    ensures CleanBy(Drop(ds, key, c), key)
  {
    if ds != [] {
      CleanTail(ds, key);
      DropClean(ds[1..], key, c);
      DropMembers(ds[1..], key, c);
      var rest := Drop(ds[1..], key, c);
      if key(ds[0]) == c {
        assert Drop(ds, key, c) == rest;
      } else {
        forall x | x in rest ensures key(x) != key(ds[0]) {
          var a :| 0 <= a < |ds[1..]| && ds[1..][a] == x;
        }
        ConsClean(ds[0], rest, key);
      }
    }
  }

  lemma ConsClean(x: Js, rest: seq<Js>, key: Js -> string)
    requires CleanBy(rest, key) && x.Obj? && key(x) != ""
    requires forall y :: y in rest ==> key(y) != key(x)
    ensures CleanBy([x] + rest, key)
  {
    var r := [x] + rest;
    forall i, j | 0 <= i < j < |r| ensures key(r[i]) != key(r[j]) {
      assert r[j] == rest[j - 1];
      if i > 0 { assert r[i] == rest[i - 1]; }
    }
  }

  /** `findIndex(d => eqCode(d.deviceCode, code))`: the first matching position, or -1. */
  function FindCode(ds: seq<Js>, code: Js): (i: int)
    ensures -1 <= i < |ds|
    ensures i >= 0 ==> EqCode(OptProp(ds[i], "deviceCode"), code)
    ensures forall j :: 0 <= j < |ds| && (i < 0 || j < i) ==> !EqCode(OptProp(ds[j], "deviceCode"), code)
  {
    if ds == [] then -1
    else if EqCode(OptProp(ds[0], "deviceCode"), code) then 0
    else
      var r := FindCode(ds[1..], code);
      if r < 0 then -1 else r + 1
  }

  // ---------------------------------------------------------------------------------
  // The Dashboard
  // ---------------------------------------------------------------------------------

  /** The `greeneye_devices` entry as `saveDevices(list)` writes it. */
  function Saved(ds: seq<Js>): Slot {
    Json(Arr(ds))
  }

  /** A saved clean list loads back unchanged. */
  lemma SavedReloads(ds: seq<Js>)
    requires Clean(ds)
    ensures LoadDevices(Saved(ds)) == ds
  {
    CleanIsDeduped(ds);
  }

  class Dashboard {
    var devices: seq<Js>
    var selectedIndex: nat
    /** `greeneye_devices`. */
    var stored: Slot

    predicate Valid()
      reads this
    {
      Clean(devices)
    }

    /** `useState(() => loadDevices())` and `useState(0)`. */
    constructor (stored: Slot)
      ensures devices == LoadDevices(stored) && selectedIndex == 0 && this.stored == stored
      ensures Valid()
    {
      LoadedIsClean(stored);
      devices := LoadDevices(stored);
      selectedIndex := 0;
      this.stored := stored;
    }

    /** `current?.deviceCode || ''`, with `current = devices[selectedIndex] || null`. */
    function CurrentCode(): Js
      reads this
    {
      if selectedIndex < |devices| && Truthy(devices[selectedIndex])
      then Or(OptProp(devices[selectedIndex], "deviceCode"), Str(""))
      else Str("")
    }

    /** `handleDeleteSelected`: nothing without a selected code or without the user's
        confirmation; otherwise every record with the selected code goes, the rest keep
        their order, the list is saved, and the selection is clamped into the new list. */
    method DeleteSelected(confirmed: bool)
      requires Valid()
      modifies this
      ensures Valid()
      ensures !Truthy(old(CurrentCode())) || !confirmed ==>
                devices == old(devices) && selectedIndex == old(selectedIndex) && stored == old(stored)
      ensures Truthy(old(CurrentCode())) && confirmed ==>
                devices == Without(old(devices), old(CurrentCode())) && stored == Saved(devices)
                && selectedIndex == (if |devices| == 0 then 0
                                     else if old(selectedIndex) < |devices| - 1 then old(selectedIndex)
                                     else |devices| - 1)
      ensures Truthy(old(CurrentCode())) && confirmed ==>
                devices == old(devices[..selectedIndex] + devices[selectedIndex + 1..])
      ensures Truthy(old(CurrentCode())) && confirmed ==> |devices| == 0 || selectedIndex < |devices|
    {
      var code := CurrentCode();
      if !Truthy(code) || !confirmed {
        return;
      }
      var sel := selectedIndex;
      assert code == OptProp(devices[sel], "deviceCode");
      assert KeyOf(devices[sel]) == CodeTrim(code);
      CleanUnique(devices, KeyOf, sel);
      DropOne(devices, KeyOf, sel);
      DropClean(devices, KeyOf, CodeTrim(code));
      var next := Without(devices, code);
      stored := Saved(next);
      devices := next;
      selectedIndex := if |next| == 0 then 0 else if sel < |next| - 1 then sel else |next| - 1;
    }

    /** The `storage` listener: the list is read again; the selection is left as it is. */
    method Reload()
      modifies this`devices
      ensures devices == LoadDevices(stored) && Valid()
    {
      LoadedIsClean(stored);
      devices := LoadDevices(stored);
    }

    /** Back from the linking screen with `addedDevice`: the list is read again and the
        first record with the added code becomes the selection, if there is one. */
    method ReturnFromLink(added: Js)
      modifies this`devices, this`selectedIndex
      ensures !Truthy(added) ==> devices == old(devices) && selectedIndex == old(selectedIndex)
      ensures Truthy(added) ==> devices == LoadDevices(stored) && Valid()
      ensures Truthy(added) && FindCode(devices, OptProp(added, "deviceCode")) >= 0 ==>
                selectedIndex == FindCode(devices, OptProp(added, "deviceCode"))
                && EqCode(OptProp(devices[selectedIndex], "deviceCode"), OptProp(added, "deviceCode"))
      ensures Truthy(added) && FindCode(devices, OptProp(added, "deviceCode")) < 0 ==>
                selectedIndex == old(selectedIndex)
    {
      if !Truthy(added) {
        return;
      }
      LoadedIsClean(stored);
      var loaded := LoadDevices(stored);
      devices := loaded;
      var idx := FindCode(loaded, OptProp(added, "deviceCode"));
      if idx >= 0 {
        selectedIndex := idx;
      }
    }
  }
}
