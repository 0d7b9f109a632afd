/** The browser-storage entries one account's device screens share, and the
    read-modify-write helpers the registration screen uses on them (`upsertClientDev`,
    `writeThumb`, `writeMeta`). Each entry is held decoded, in the shape the code expects:
    the client and legacy device lists as arrays, thumbnails, meta and settings as objects,
    the tombstones as a set of canonical codes. */
module LocalStores {
  import opened Text
  import opened JsValues
  import OM = OrderedMap

  /** What `localStorage.getItem(k)` holds, as each reader sees it. */
  datatype Slot = Missing | EmptyText | Garbage | Json(value: Js)

  /** The Dashboard's `read(k, def)` and the current `loadSettings`: an empty or missing
      entry or one that does not parse gives the default; a stored `null` comes back as `null`. */
  function ReadOrNull(slot: Slot, def: Js): (r: Js)
    ensures slot.Json? ==> r == slot.value
    ensures !slot.Json? ==> r == def
  {
    match slot
    case Json(v) => v
    case _ => def
  }

  /** The registration screen's `read(k, d)` through `safeJSON`: a stored `null` gives the
      default too (`JSON.parse(null)` parses the text `null`). */
  function SafeRead(slot: Slot, def: Js): (r: Js)
    ensures !def.Null? ==> !r.Null?
  {
    match slot
    case Json(v) => if v.Null? then def else v
    case _ => def
  }

  /** The two readers differ exactly on a stored `null`. */
  lemma ReadersAgreeExceptNull(slot: Slot, def: Js)
    requires !def.Null?
    ensures ReadOrNull(slot, def) != SafeRead(slot, def) <==> slot == Json(Null)
  {
  }

  /** `{...v}` for a stored entry: an object gives its fields, an array its items and a
      string its characters under the index keys `"0"`, `"1"`, ...; any other value adds
      nothing. */
  function Spread(v: Js): Object {
    match v
    case Obj(fields) => fields
    case Arr(items) => Indexed(items)
    case Str(s) => Indexed(Chars(s))
    case _ => map[]
  }

  /** The items of a list under their decimal index keys. */
  function Indexed(xs: seq<Js>): Object {
    IndexedUpTo(xs, |xs|)
  }

  /** The first `n` items of a list under their decimal index keys. */
  function IndexedUpTo(xs: seq<Js>, n: nat): Object
    requires n <= |xs|
  {
    if n == 0 then map[] else IndexedUpTo(xs, n - 1)[NatToString(n - 1) := xs[n - 1]]
  }

  /** A string's characters, each as a one-character string. */
  function Chars(s: string): (r: seq<Js>)
    ensures |r| == |s| && forall i :: 0 <= i < |s| ==> r[i] == Str([s[i]])
  {
    seq(|s|, i requires 0 <= i < |s| => Str([s[i]]))
  }

  /** The index keys of a list are exactly the decimal renderings of its positions, each
      holding the item at that position. */
  lemma IndexedAt(xs: seq<Js>)
    ensures forall i :: 0 <= i < |xs| ==> NatToString(i) in Indexed(xs) && Indexed(xs)[NatToString(i)] == xs[i]
    ensures forall k :: k in Indexed(xs) ==> exists i :: 0 <= i < |xs| && k == NatToString(i)
  {
    IndexedUpToHas(xs, |xs|);
    IndexedUpToKeys(xs, |xs|);
  }

  lemma {:induction false} IndexedUpToHas(xs: seq<Js>, n: nat)
    requires n <= |xs|
    ensures forall i :: 0 <= i < n ==> NatToString(i) in IndexedUpTo(xs, n) && IndexedUpTo(xs, n)[NatToString(i)] == xs[i]
  {
    if n > 0 {
      IndexedUpToHas(xs, n - 1);
      var prev := IndexedUpTo(xs, n - 1);
      assert IndexedUpTo(xs, n) == prev[NatToString(n - 1) := xs[n - 1]];
      forall i | 0 <= i < n - 1
        ensures NatToString(i) in IndexedUpTo(xs, n) && IndexedUpTo(xs, n)[NatToString(i)] == xs[i]
      {
        if NatToString(i) == NatToString(n - 1) {
          NatToStringInjective(i, n - 1);
        }
      }
    }
  }

  lemma {:induction false} IndexedUpToKeys(xs: seq<Js>, n: nat)
    requires n <= |xs|
    ensures forall k :: k in IndexedUpTo(xs, n) ==> exists i :: 0 <= i < n && k == NatToString(i)
  {
    if n > 0 {
      IndexedUpToKeys(xs, n - 1);
      forall k | k in IndexedUpTo(xs, n)
        ensures exists i :: 0 <= i < n && k == NatToString(i)
      {
        if k != NatToString(n - 1) {
          assert k in IndexedUpTo(xs, n - 1);
          var i :| 0 <= i < n - 1 && k == NatToString(i);
        } else {
          assert k == NatToString(n - 1);
        }
      }
      assert forall k :: k in IndexedUpTo(xs, n) ==> exists i :: 0 <= i < n && k == NatToString(i);
    } else {
      assert IndexedUpTo(xs, 0) == map[];
    }
  }

  /** Every index key starts with a digit, so it is never a named field such as `species`. */
  lemma IndexKeysAreDigits(xs: seq<Js>, k: string)
    requires k in Indexed(xs)
    ensures |k| >= 1 && IsDigit(k[0])
  {
    IndexedAt(xs);
  }

  /** Spreading a falsy value adds nothing, so `{...(v || {})}` is `{...v}`. */
  lemma SpreadOrEmpty(v: Js)
    ensures Spread(Or(v, Obj(map[]))) == Spread(v)
  {
    if !Truthy(v) {
      assert v.Str? ==> v.s == [];
      assert v.Arr? ==> false;
    }
  }

  /** The key `upsertClientDev` files an entry under: `String(d.deviceCode || d.device_id || "").trim()`. */
  function EntryKey(d: Js): string {
    Trim(ToStr(Or(OptProp(d, "deviceCode"), Or(OptProp(d, "device_id"), Str("")))))
  }

  /** The list `upsertClientDev` writes back: the index, with `{...(prev || {}), ...dev}`
      set under the new record's key when that key is not empty. */
  function Upserted(arr: seq<Js>, dev: Object): seq<Js> {
    var m := OM.IndexBy(arr, EntryKey);
    var key := EntryKey(Obj(dev));
    if key == "" then OM.Values(m)
    else
      var prev := if key in m.vals then m.vals[key] else Undefined;
      OM.Values(OM.Set(m, key, Obj(Spread(Or(prev, Obj(map[]))) + dev)))
  }

  /** An upsert never introduces a `null` entry. */
  lemma UpsertedNoNull(arr: seq<Js>, dev: Object)
    requires Null !in arr
    ensures Null !in Upserted(arr, dev)
  {
    var m := OM.IndexBy(arr, EntryKey);
    var key := EntryKey(Obj(dev));
    if Null in OM.Values(m) {
      OM.IndexByValuesFrom(arr, EntryKey, Null);
    }
    if key != "" {
      var prev := if key in m.vals then m.vals[key] else Undefined;
      var m' := OM.Set(m, key, Obj(Spread(Or(prev, Obj(map[]))) + dev));
      forall p | 0 <= p < |m'.keys|
        ensures OM.Values(m')[p] != Null
      {
        var k := m'.keys[p];
        if k != key {
          OM.ValuesContains(m, k);
          OM.IndexByValuesFrom(arr, EntryKey, m.vals[k]);
        }
      }
    }
  }

  /** On a list with distinct keys, an upsert replaces the entry with the new record's key in
      place, merged with the new fields winning, or appends the record when the key is new;
      every other entry stays where it was. */
  lemma UpsertedInPlace(arr: seq<Js>, dev: Object)
    requires OM.DistinctBy(arr, EntryKey) && EntryKey(Obj(dev)) != ""
    ensures forall i :: 0 <= i < |arr| && EntryKey(arr[i]) == EntryKey(Obj(dev)) ==>
      Upserted(arr, dev) == arr[i := Obj(Spread(Or(arr[i], Obj(map[]))) + dev)]
    ensures (forall i :: 0 <= i < |arr| ==> EntryKey(arr[i]) != EntryKey(Obj(dev))) ==>
      Upserted(arr, dev) == arr + [Obj(dev)]
  {
    var key := EntryKey(Obj(dev));
    var m := OM.IndexBy(arr, EntryKey);
    OM.IndexByEntries(arr, EntryKey, key);
    forall i | 0 <= i < |arr| && EntryKey(arr[i]) == key
      ensures Upserted(arr, dev) == arr[i := Obj(Spread(Or(arr[i], Obj(map[]))) + dev)]
    {
      var i' :| 0 <= i' < |arr| && EntryKey(arr[i']) == key && m.vals[key] == arr[i'];
      assert i' == i;
      OM.SetOnDistinctReplaces(arr, EntryKey, i, Obj(Spread(Or(arr[i], Obj(map[]))) + dev));
    }
    if forall i :: 0 <= i < |arr| ==> EntryKey(arr[i]) != key {
      assert Spread(Or(Undefined, Obj(map[]))) + dev == dev;
      OM.SetOnDistinctAppends(arr, EntryKey, key, Obj(dev));
    }
  }

  /** With a non-empty key, the list written back holds an entry carrying every field of
      the new record. */
  lemma UpsertedHolds(arr: seq<Js>, dev: Object)
    requires EntryKey(Obj(dev)) != ""
    ensures exists x :: x in Upserted(arr, dev) && x.Obj? && forall f :: f in dev ==> f in x.fields && x.fields[f] == dev[f]
  {
    var m := OM.IndexBy(arr, EntryKey);
    var key := EntryKey(Obj(dev));
    var prev := if key in m.vals then m.vals[key] else Undefined;
    var x := Obj(Spread(Or(prev, Obj(map[]))) + dev);
    var m' := OM.Set(m, key, x);
    OM.ValuesContains(m', key);
    assert x in Upserted(arr, dev);
  }

  /** `{...(m[code] || {}), ...(meta || {})}`: the meta entry `writeMeta` stores. */
  function MergedMeta(prev: Js, meta: Js): Object {
    Spread(Or(prev, Obj(map[]))) + Spread(Or(meta, Obj(map[])))
  }

  /** New meta fields win; earlier fields the new meta does not mention survive; the
      `|| {}` guards change nothing, since a falsy value spreads to nothing; a string or an
      array spreads its index keys, and only an object, a string or an array adds any. */
  lemma MergedMetaFields(prev: Js, meta: Js, f: string)
    ensures MergedMeta(prev, meta) == Spread(prev) + Spread(meta)
    ensures meta.Obj? && f in meta.fields ==> MergedMeta(prev, meta)[f] == meta.fields[f]
    ensures prev.Obj? && f in prev.fields && f !in Spread(meta) ==>
      f in MergedMeta(prev, meta) && MergedMeta(prev, meta)[f] == prev.fields[f]
    ensures prev.Str? && |prev.s| > 0 && "0" !in Spread(meta) ==>
      "0" in MergedMeta(prev, meta) && MergedMeta(prev, meta)["0"] == Str([prev.s[0]])
    ensures meta.Obj? && f in Spread(prev) && f !in meta.fields && (|f| == 0 || !IsDigit(f[0])) ==>
      prev.Obj? && MergedMeta(prev, meta)[f] == prev.fields[f]
    ensures !(prev.Obj? || prev.Str? || prev.Arr?) && !(meta.Obj? || meta.Str? || meta.Arr?) ==>
      MergedMeta(prev, meta) == map[]
  {
    SpreadOrEmpty(prev);
    SpreadOrEmpty(meta);
    if prev.Str? {
      IndexedAt(Chars(prev.s));
      assert NatToString(0) == "0";
    }
    if f in Spread(prev) && (|f| == 0 || !IsDigit(f[0])) {
      if prev.Str? {
        IndexKeysAreDigits(Chars(prev.s), f);
      } else if prev.Arr? {
        IndexKeysAreDigits(prev.items, f);
      }
    }
  }

  class Stores {
    /** `greeneye_client_devices:<user>`: devices registered from this browser. */
    var client: seq<Js>
    /** `greeneye_thumbs:<user>`: thumbnail data URL per code. */
    var thumbs: Object
    /** `greeneye_meta:<user>`: species, room and owner per code. */
    var meta: Object
    /** `greeneye_deleted:<user>`: tombstoned canonical codes. */
    var deleted: set<string>
    /** `greeneye_devices`: the list the earlier app version kept. */
    var legacy: seq<Js>
    /** `greeneye_settings`. */
    var settings: Object
    /** How many `greeneye:client-devices-updated` and `greeneye:settings-updated` events were sent. */
    var deviceEvents: nat
    var settingsEvents: nat

    constructor (client: seq<Js>, thumbs: Object, meta: Object, deleted: set<string>, legacy: seq<Js>, settings: Object)
      ensures this.client == client && this.thumbs == thumbs && this.meta == meta
      ensures this.deleted == deleted && this.legacy == legacy && this.settings == settings
      ensures deviceEvents == 0 && settingsEvents == 0
    {
      this.client := client;
      this.thumbs := thumbs;
      this.meta := meta;
      this.deleted := deleted;
      this.legacy := legacy;
      this.settings := settings;
      deviceEvents := 0;
      settingsEvents := 0;
    }

    /** `upsertClientDev(token, dev)`. Reading `deviceCode` of a `null` entry throws before
        anything is written. */
    method UpsertClientDev(dev: Object) returns (done: bool)
      modifies this`client
      ensures done <==> Null !in old(client)
      ensures client == if done then Upserted(old(client), dev) else old(client)
    {
      var arr := client;
      if Null in arr {
        return false;
      }
      var m := OM.Empty();
      var i := 0;
      while i < |arr|
        invariant 0 <= i <= |arr| && OM.Valid(m) && m == OM.IndexBy(arr[..i], EntryKey)
      {
        assert arr[..i + 1][..i] == arr[..i];
        m := OM.Set(m, EntryKey(arr[i]), arr[i]);
        i := i + 1;
      }
      assert arr[..|arr|] == arr;
      var key := EntryKey(Obj(dev));
      if key != "" {
        var prev := if key in m.vals then m.vals[key] else Undefined;
        m := OM.Set(m, key, Obj(Spread(Or(prev, Obj(map[]))) + dev));
      }
      client := OM.Values(m);
      done := true;
    }

    /** `writeThumb(token, code, dataUrl)`: stores only when both are non-empty. */
    method WriteThumb(code: string, dataUrl: Js)
      modifies this`thumbs
      ensures code != "" && Truthy(dataUrl) ==> thumbs == old(thumbs)[code := dataUrl]
      ensures code == "" || !Truthy(dataUrl) ==> thumbs == old(thumbs)
    {
      if code != "" && Truthy(dataUrl) {
        thumbs := thumbs[code := dataUrl];
      }
    }

    /** `writeMeta(token, code, meta)`. */
    method WriteMeta(code: string, m: Js)
      modifies this`meta
      ensures code != "" ==> meta == old(meta)[code := Obj(MergedMeta(Prop(old(meta), code), m))]
      ensures code == "" ==> meta == old(meta)
    {
      if code != "" {
        meta := meta[code := Obj(MergedMeta(Prop(meta, code), m))];
      }
    }

    method Broadcast()
      modifies this`deviceEvents
      ensures deviceEvents == old(deviceEvents) + 1
    {
      deviceEvents := deviceEvents + 1;
    }
  }
}
