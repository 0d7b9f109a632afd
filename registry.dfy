/** Device records as the Dashboard and Settings screens normalise them (`normDevice`),
    and the merge of several device lists into one list keyed by canonical code: a
    `Map` filled in list order, each record overlaid with the stored thumbnail and meta. */
module Registry {
  import opened Text
  import opened JsValues
  import opened DeviceCode
  import OM = OrderedMap

  /** A normalised device. `deviceCode` is canonical; `rawCode` is the identifier as
      received. The other fields keep whatever JSON value the source record held. */
  datatype Device = Device(deviceCode: string, rawCode: string, name: Js, imageUrl: Js, room: Js, species: Js)

  /** The two copies of `normDevice` differ only in where image and species come from. */
  datatype Screen = DashboardScreen | SettingsScreen

  /** `x.deviceCode ?? x.device_id ?? x.device_code ?? x.mac`. */
  function CodeAlias(x: Js): Js {
    Coalesce(OptProp(x, "deviceCode"), Coalesce(OptProp(x, "device_id"),
      Coalesce(OptProp(x, "device_code"), OptProp(x, "mac"))))
  }

  function ImageAlias(x: Js, screen: Screen): Js {
    match screen
    case DashboardScreen =>
      Coalesce(OptProp(x, "imageUrl"), Coalesce(OptProp(x, "thumbnail_url"),
        Coalesce(OptProp(x, "photoUrl"), Coalesce(OptProp(x, "image_filename"), Str("")))))
    case SettingsScreen => Coalesce(OptProp(x, "device_image"), Str(""))
  }

  function SpeciesField(screen: Screen): string {
    if screen == DashboardScreen then "species" else "plant_type"
  }

  /** No display field is null or undefined. */
  predicate Filled(d: Device) {
    !Nullish(d.name) && !Nullish(d.imageUrl) && !Nullish(d.room) && !Nullish(d.species)
  }

  /** The trimmed identifier `normDevice` reads. */
  function RawCode(x: Js): string {
    Trim(StrOrEmpty(CodeAlias(x)))
  }

  lemma CanonicalOfEmpty()
    ensures Canonical("") == ""
  {
    assert Alnum("") == "";
  }

  /** `normDevice(x)` for an element that is not `null`. Properties are read with `?.`
      semantics: a primitive or an array has none of them. The raw code is `raw || code`,
      which is `raw` itself because the canonical code of the empty text is empty. */
  function NormDevice(x: Js, screen: Screen): (d: Device)
    ensures Filled(d)
    ensures d.rawCode == RawCode(x)
    ensures d.deviceCode == Canonical(d.rawCode)
  {
    var raw := RawCode(x);
    var code := Canonical(raw);
    Device(code, raw,
      Coalesce(OptProp(x, "name"), Coalesce(OptProp(x, "friendly_name"), Str(code))),
      ImageAlias(x, screen),
      Coalesce(OptProp(x, "room"), Str("")),
      Coalesce(OptProp(x, SpeciesField(screen)), Str("")))
  }

  /** `normDevice` as `Array.prototype.map` applies it: reading a property of `null`
      throws, and that one element fails the whole list. */
  function NormAll(xs: seq<Js>, screen: Screen): (r: Option<seq<Device>>)
    ensures r.None? <==> Null in xs
    ensures r.Some? ==> |r.value| == |xs| && forall i :: 0 <= i < |xs| ==> r.value[i] == NormDevice(xs[i], screen)
  {
    if xs == [] then Some([])
    else if xs[0].Null? then None
    else match NormAll(xs[1..], screen)
      case None => None
      case Some(rest) => Some([NormDevice(xs[0], screen)] + rest)
  }

  predicate Silent(c: char) { !IsCodeChar(LowerChar(c)) }

  lemma SpaceIsSilent(c: char)
    requires IsJsSpace(c)
    ensures Silent(c)
  {
    assert !IsUpperAscii(c) && !IsDigit(c) && !IsLowerAscii(c);
  }

  lemma {:induction false} AlnumIgnoresTrimStart(s: string)
    ensures Alnum(TrimStart(s)) == Alnum(s)
  {
    if s != [] && IsJsSpace(s[0]) {
      SpaceIsSilent(s[0]);
      AlnumIgnoresTrimStart(s[1..]);
    }
  }

  lemma {:induction false} AlnumIgnoresTrimEnd(s: string)
    ensures Alnum(TrimEnd(s)) == Alnum(s)
  {
    if s != [] && IsJsSpace(s[|s| - 1]) {
      var p, c := s[..|s| - 1], s[|s| - 1];
      SpaceIsSilent(c);
      assert Alnum([c]) == "" by { assert [c][1..] == []; }
      assert s == p + [c];
      AlnumConcat(p, [c]);
      AlnumIgnoresTrimEnd(p);
    }
  }

  /** White space around an identifier never changes its alphanumerics. */
  lemma AlnumIgnoresTrim(s: string)
    ensures Alnum(Trim(s)) == Alnum(s)
  {
    AlnumIgnoresTrimStart(s);
    AlnumIgnoresTrimEnd(TrimStart(s));
  }

  /** ... and so never changes its canonical code. */
  lemma CanonicalIgnoresTrim(s: string)
    ensures Canonical(Trim(s)) == Canonical(s)
  {
    AlnumIgnoresTrim(s);
  }

  /** A `deviceCode` property wins over the other identifier aliases, and white space
      around it does not matter. */
  lemma NormDeviceCodeFirst(x: Js, screen: Screen, code: string)
    requires OptProp(x, "deviceCode") == Str(code)
    ensures NormDevice(x, screen).deviceCode == Canonical(code)
  {
    assert CodeAlias(x) == Str(code);
    assert RawCode(x) == Trim(code);
    CanonicalIgnoresTrim(code);
  }

  /** A record with no identifier at all gets the empty code, and its name defaults to it. */
  lemma NormDeviceNoCode(x: Js, screen: Screen)
    requires Nullish(CodeAlias(x))
    ensures NormDevice(x, screen).deviceCode == "" && NormDevice(x, screen).rawCode == ""
    ensures Nullish(OptProp(x, "name")) && Nullish(OptProp(x, "friendly_name")) ==>
      NormDevice(x, screen).name == Str("")
  {
    assert StrOrEmpty(CodeAlias(x)) == "";
    assert Trim("") == "";
    CanonicalOfEmpty();
  }

  /** What `authFetch('/api/devices')` and `r.json()` give a screen loading the device list. */
  datatype ListReply = FetchThrew | NotOk | OkJson(body: Js) | OkUnparsable

  /** `r.ok ? await r.json() : []`, then `Array.isArray(arr) ? arr.map(normDevice) : []`;
      `None` where something throws. */
  function ApiDevices(reply: ListReply, screen: Screen): Option<seq<Device>> {
    match reply
    case FetchThrew => None
    case OkUnparsable => None
    case NotOk => Some([])
    case OkJson(body) => if body.Arr? then NormAll(body.items, screen) else Some([])
  }

  /** Every record a list reply yields is normalised. */
  lemma ApiDevicesFilled(reply: ListReply, screen: Screen, api: seq<Device>)
    requires ApiDevices(reply, screen) == Some(api)
    ensures forall i :: 0 <= i < |api| ==> Filled(api[i])
  {
    if reply.OkJson? && reply.body.Arr? {
      assert api == NormAll(reply.body.items, screen).value;
    }
  }

  /** What one screen's merge keeps and the overlays it applies. The Dashboard drops empty
      and tombstoned codes; Settings keeps every record. */
  datatype MergeEnv = MergeEnv(hidden: set<string>, dropEmpty: bool, thumbs: Object, meta: Object)

  predicate Kept(d: Device, env: MergeEnv) {
    !(env.dropEmpty && d.deviceCode == "") && d.deviceCode !in env.hidden
  }

  /** `thumbs[c] ?? d.imageUrl`, `meta[c]?.species ?? d.species`, `meta[c]?.room ?? d.room`. */
  function Overlay(d: Device, env: MergeEnv): (r: Device)
    ensures r.deviceCode == d.deviceCode && r.rawCode == d.rawCode && r.name == d.name
    ensures Filled(d) ==> Filled(r)
  {
    var c := d.deviceCode;
    d.(imageUrl := Coalesce(Prop(env.thumbs, c), d.imageUrl),
       species := Coalesce(OptProp(Prop(env.meta, c), "species"), d.species),
       room := Coalesce(OptProp(Prop(env.meta, c), "room"), d.room))
  }

  /** The record `map.set` stores: `{...prev, ...d, imageUrl: thumbs[c] ?? d.imageUrl ??
      prev.imageUrl, ...}` with `prev` the earlier entry or `{}`. Both records carry the
      same six fields, so the spread of `d` replaces every field of `prev`. */
  function MergeInto(prev: Option<Device>, d: Device, env: MergeEnv): (r: Device)
    ensures r.deviceCode == d.deviceCode
  {
    var c := d.deviceCode;
    var pImage := if prev.Some? then prev.value.imageUrl else Undefined;
    var pSpecies := if prev.Some? then prev.value.species else Undefined;
    var pRoom := if prev.Some? then prev.value.room else Undefined;
    d.(imageUrl := Coalesce(Prop(env.thumbs, c), Coalesce(d.imageUrl, pImage)),
       species := Coalesce(OptProp(Prop(env.meta, c), "species"), Coalesce(d.species, pSpecies)),
       room := Coalesce(OptProp(Prop(env.meta, c), "room"), Coalesce(d.room, pRoom)))
  }

  /** A normalised record never falls back on the earlier entry: the later record wins
      for every field, blank ones included. */
  lemma MergeIntoIgnoresPrev(prev: Option<Device>, d: Device, env: MergeEnv)
    requires Filled(d)
    ensures MergeInto(prev, d, env) == Overlay(d, env)
    ensures prev.Some? && d.imageUrl == Str("") && Nullish(Prop(env.thumbs, d.deviceCode)) ==>
      MergeInto(prev, d, env).imageUrl == Str("")
  {
    assert Coalesce(d.imageUrl, if prev.Some? then prev.value.imageUrl else Undefined) == d.imageUrl;
    assert Coalesce(d.species, if prev.Some? then prev.value.species else Undefined) == d.species;
    assert Coalesce(d.room, if prev.Some? then prev.value.room else Undefined) == d.room;
  }

  predicate FiledByCode(m: OM.OMap<Device>) {
    forall k :: k in m.vals ==> m.vals[k].deviceCode == k
  }

  /** One iteration of the `forEach` that fills the map. */
  function Step(m: OM.OMap<Device>, d: Device, env: MergeEnv): (r: OM.OMap<Device>)
    requires OM.Valid(m) && FiledByCode(m)
    ensures OM.Valid(r) && FiledByCode(r)
  {
    if !Kept(d, env) then m
    else
      var prev := if d.deviceCode in m.vals then Some(m.vals[d.deviceCode]) else None;
      OM.Set(m, d.deviceCode, MergeInto(prev, d, env))
  }

  /** The map after the records of `ds` have been folded in, in list order. */
  function Merged(ds: seq<Device>, env: MergeEnv): (m: OM.OMap<Device>)
    ensures OM.Valid(m) && FiledByCode(m)
    decreases |ds|
  {
    if ds == [] then OM.Empty() else Step(Merged(ds[..|ds| - 1], env), ds[|ds| - 1], env)
  }

  /** The `new Map()` / `forEach` / `[...map.values()]` block shared by `reloadDevices`
      and the two Settings loaders. */
  method MergeDevices(ds: seq<Device>, env: MergeEnv) returns (out: seq<Device>)
    ensures out == OM.Values(Merged(ds, env))
  {
    var m := OM.Empty();
    var i := 0;
    while i < |ds|
      invariant 0 <= i <= |ds| && OM.Valid(m) && FiledByCode(m)
      invariant m == Merged(ds[..i], env)
    {
      var d := ds[i];
      assert ds[..i + 1][..i] == ds[..i];
      if Kept(d, env) {
        var prev := if d.deviceCode in m.vals then Some(m.vals[d.deviceCode]) else None;
        m := OM.Set(m, d.deviceCode, MergeInto(prev, d, env));
      }
      i := i + 1;
    }
    assert ds[..|ds|] == ds;
    out := OM.Values(m);
  }

  /** The first position of code `k` in `ds`, or `|ds|` when it does not occur. */
  function FirstAt(ds: seq<Device>, k: string): (r: nat)
    ensures r <= |ds|
    ensures r < |ds| ==> ds[r].deviceCode == k
    ensures forall j :: 0 <= j < r ==> ds[j].deviceCode != k
  {
    if ds == [] then 0 else if ds[0].deviceCode == k then 0 else 1 + FirstAt(ds[1..], k)
  }

  lemma FirstAtExtend(p: seq<Device>, d: Device, k: string)
    requires FirstAt(p, k) < |p|
    ensures FirstAt(p + [d], k) == FirstAt(p, k)
  {
    var r, r' := FirstAt(p, k), FirstAt(p + [d], k);
    assert (p + [d])[r] == p[r];
  }

  /** A code is in the map exactly when some record with that code was kept. */
  lemma {:induction false} MergedKeys(ds: seq<Device>, env: MergeEnv, k: string)
    ensures k in Merged(ds, env).vals <==> exists i :: 0 <= i < |ds| && ds[i].deviceCode == k && Kept(ds[i], env)
  {
    if ds != [] {
      var p := ds[..|ds| - 1];
      MergedKeys(p, env, k);
      if k in Merged(p, env).vals {
        var i :| 0 <= i < |p| && p[i].deviceCode == k && Kept(p[i], env);
        assert ds[i] == p[i];
      }
      if exists i :: 0 <= i < |ds| && ds[i].deviceCode == k && Kept(ds[i], env) {
        var i :| 0 <= i < |ds| && ds[i].deviceCode == k && Kept(ds[i], env);
        if i < |p| { assert p[i] == ds[i]; }
      }
    }
  }

  /** The entry for a code is the last record with that code, overlaid. */
  lemma {:induction false} MergedLastWins(ds: seq<Device>, env: MergeEnv, i: nat)
    requires i < |ds| && Kept(ds[i], env) && Filled(ds[i])
    requires forall j :: i < j < |ds| ==> ds[j].deviceCode != ds[i].deviceCode
    ensures ds[i].deviceCode in Merged(ds, env).vals
    ensures Merged(ds, env).vals[ds[i].deviceCode] == Overlay(ds[i], env)
  {
    var p := ds[..|ds| - 1];
    if i == |ds| - 1 {
      MergedLastEntry(ds, env);
    } else {
      assert p[i] == ds[i];
      MergedLastWins(p, env, i);
      MergedKeepsOthers(ds, env, ds[i].deviceCode);
    }
  }

  lemma MergedLastEntry(ds: seq<Device>, env: MergeEnv)
    requires ds != [] && Kept(ds[|ds| - 1], env) && Filled(ds[|ds| - 1])
    ensures ds[|ds| - 1].deviceCode in Merged(ds, env).vals
    ensures Merged(ds, env).vals[ds[|ds| - 1].deviceCode] == Overlay(ds[|ds| - 1], env)
  {
    var d := ds[|ds| - 1];
    var m := Merged(ds[..|ds| - 1], env);
    var prev := if d.deviceCode in m.vals then Some(m.vals[d.deviceCode]) else None;
    MergeIntoIgnoresPrev(prev, d, env);
  }

  /** The last record leaves the entries of other codes alone. */
  lemma MergedKeepsOthers(ds: seq<Device>, env: MergeEnv, k: string)
    requires ds != [] && ds[|ds| - 1].deviceCode != k && k in Merged(ds[..|ds| - 1], env).vals
    ensures k in Merged(ds, env).vals && Merged(ds, env).vals[k] == Merged(ds[..|ds| - 1], env).vals[k]
  {
  }

  /** Codes are listed in the order of their first appearance. */
  lemma {:induction false} MergedOrder(ds: seq<Device>, env: MergeEnv)
    ensures FirstOrdered(ds, Merged(ds, env).keys)
  {
    if ds != [] {
      MergedOrder(ds[..|ds| - 1], env);
      MergedOrderStep(ds, env);
    }
  }

  /** Listed codes occur in `ds`, and in the order of their first occurrence. */
  predicate FirstOrdered(ds: seq<Device>, keys: seq<string>) {
    (forall a, b :: 0 <= a < b < |keys| ==> FirstAt(ds, keys[a]) < FirstAt(ds, keys[b]))
    && (forall a :: 0 <= a < |keys| ==> FirstAt(ds, keys[a]) < |ds|)
  }

  lemma MergedOrderStep(ds: seq<Device>, env: MergeEnv)
    requires ds != [] && FirstOrdered(ds[..|ds| - 1], Merged(ds[..|ds| - 1], env).keys)
    ensures FirstOrdered(ds, Merged(ds, env).keys)
  {
    var p, d := ds[..|ds| - 1], ds[|ds| - 1];
    LastSplit(ds);
    var m := Merged(p, env);
    ListedStayFirst(p, d, m.keys);
    if Kept(d, env) && d.deviceCode !in m.vals {
      MergedKeys(p, env, d.deviceCode);
      NewCodeIsLast(p, d);
      AppendOrdered(p + [d], |p|, m.keys, d.deviceCode);
    }
  }

  /** Appending a record moves no code's first occurrence. */
  lemma ListedStayFirst(p: seq<Device>, d: Device, keys: seq<string>)
    requires FirstOrdered(p, keys)
    ensures FirstOrdered(p + [d], keys)
    ensures forall a :: 0 <= a < |keys| ==> FirstAt(p + [d], keys[a]) < |p|
  {
    forall a | 0 <= a < |keys|
      ensures FirstAt(p + [d], keys[a]) == FirstAt(p, keys[a]) < |p|
    {
      FirstAtExtend(p, d, keys[a]);
    }
  }

  lemma {:induction false} NewCodeIsLast(p: seq<Device>, d: Device)
    requires forall i :: 0 <= i < |p| ==> p[i].deviceCode != d.deviceCode
    ensures FirstAt(p + [d], d.deviceCode) == |p|
  {
    if p == [] {
      assert p + [d] == [d];
    } else {
      assert (p + [d])[0] == p[0] && (p + [d])[1..] == p[1..] + [d];
      forall i | 0 <= i < |p[1..]| ensures p[1..][i].deviceCode != d.deviceCode {
        assert p[1..][i] == p[i + 1];
      }
      NewCodeIsLast(p[1..], d);
    }
  }

  lemma AppendOrdered(ds: seq<Device>, n: nat, keys: seq<string>, k: string)
    requires FirstOrdered(ds, keys) && FirstAt(ds, k) == n < |ds|
    requires forall a :: 0 <= a < |keys| ==> FirstAt(ds, keys[a]) < n
    ensures FirstOrdered(ds, keys + [k])
  {
    var r := keys + [k];
    forall a | 0 <= a < |r| ensures FirstAt(ds, r[a]) < |ds| {
      if a < |keys| { assert r[a] == keys[a]; }
    }
    forall a, b | 0 <= a < b < |r| ensures FirstAt(ds, r[a]) < FirstAt(ds, r[b]) {
      assert r[a] == keys[a];
      if b < |keys| { assert r[b] == keys[b]; }
    }
  }

  lemma LastSplit<T>(s: seq<T>)
    requires s != []
    ensures s == s[..|s| - 1] + [s[|s| - 1]]
  {
  }

  /** Each listed record sits under its own code. */
  lemma ValuesCodes(m: OM.OMap<Device>)
    requires OM.Valid(m) && FiledByCode(m)
    ensures forall a :: 0 <= a < |OM.Values(m)| ==> OM.Values(m)[a].deviceCode == m.keys[a]
  {
  }

  /** One record per code, in first-appearance order. */
  lemma MergedUniqueOrdered(ds: seq<Device>, env: MergeEnv)
    ensures var out := OM.Values(Merged(ds, env));
      (forall a, b :: 0 <= a < b < |out| ==> out[a].deviceCode != out[b].deviceCode)
      && (forall a, b :: 0 <= a < b < |out| ==>
            FirstAt(ds, out[a].deviceCode) < FirstAt(ds, out[b].deviceCode))
  {
    var m := Merged(ds, env);
    ValuesCodes(m);
    MergedOrder(ds, env);
  }

  /** Only kept records are listed. */
  lemma MergedKeptOnly(ds: seq<Device>, env: MergeEnv)
    ensures var out := OM.Values(Merged(ds, env));
      forall a :: 0 <= a < |out| ==> Kept(out[a], env)
  {
    var m := Merged(ds, env);
    var out := OM.Values(m);
    ValuesCodes(m);
    forall a | 0 <= a < |out|
      ensures Kept(out[a], env)
    {
      MergedKeys(ds, env, m.keys[a]);
    }
  }

  /** Every kept code is listed. */
  lemma MergedCovers(ds: seq<Device>, env: MergeEnv)
    ensures var out := OM.Values(Merged(ds, env));
      forall i :: 0 <= i < |ds| && Kept(ds[i], env) ==>
        exists a :: 0 <= a < |out| && out[a].deviceCode == ds[i].deviceCode
  {
    var m := Merged(ds, env);
    var out := OM.Values(m);
    ValuesCodes(m);
    forall i | 0 <= i < |ds| && Kept(ds[i], env)
      ensures exists a :: 0 <= a < |out| && out[a].deviceCode == ds[i].deviceCode
    {
      MergedKeys(ds, env, ds[i].deviceCode);
      var a :| 0 <= a < |m.keys| && m.keys[a] == ds[i].deviceCode;
      assert out[a].deviceCode == ds[i].deviceCode;
    }
    assert out == OM.Values(Merged(ds, env));
  }

  /** Each listed code carries its last record, overlaid. */
  lemma MergedEntries(ds: seq<Device>, env: MergeEnv)
    requires forall i :: 0 <= i < |ds| ==> Filled(ds[i])
    ensures var out := OM.Values(Merged(ds, env));
      forall a, i :: (0 <= a < |out| && 0 <= i < |ds| && ds[i].deviceCode == out[a].deviceCode
        && (forall j :: i < j < |ds| ==> ds[j].deviceCode != ds[i].deviceCode)) ==>
        out[a] == Overlay(ds[i], env)
  {
    var m := Merged(ds, env);
    var out := OM.Values(m);
    ValuesCodes(m);
    forall a, i | 0 <= a < |out| && 0 <= i < |ds| && ds[i].deviceCode == out[a].deviceCode
        && (forall j :: i < j < |ds| ==> ds[j].deviceCode != ds[i].deviceCode)
      ensures out[a] == Overlay(ds[i], env)
    {
      MergedKeys(ds, env, m.keys[a]);
      MergedLastWins(ds, env, i);
    }
  }

  /** The merged list: one record per code, none empty (where empties are dropped) or
      hidden, every kept code present, in first-appearance order, each code carrying its
      last record with the overlays applied. */
  lemma MergedList(ds: seq<Device>, env: MergeEnv)
    requires forall i :: 0 <= i < |ds| ==> Filled(ds[i])
    ensures var out := OM.Values(Merged(ds, env));
      (forall a, b :: 0 <= a < b < |out| ==> out[a].deviceCode != out[b].deviceCode)
      && (forall a :: 0 <= a < |out| ==> Kept(out[a], env))
      && (forall i :: 0 <= i < |ds| && Kept(ds[i], env) ==>
            exists a :: 0 <= a < |out| && out[a].deviceCode == ds[i].deviceCode)
      && (forall a, b :: 0 <= a < b < |out| ==>
            FirstAt(ds, out[a].deviceCode) < FirstAt(ds, out[b].deviceCode))
    ensures var out := OM.Values(Merged(ds, env));
      forall a, i :: (0 <= a < |out| && 0 <= i < |ds| && ds[i].deviceCode == out[a].deviceCode
        && (forall j :: i < j < |ds| ==> ds[j].deviceCode != ds[i].deviceCode)) ==>
        out[a] == Overlay(ds[i], env)
  {
    MergedUniqueOrdered(ds, env);
    MergedKeptOnly(ds, env);
    MergedCovers(ds, env);
    MergedEntries(ds, env);
  }

  /** The Dashboard's fallback list when the server call fails: the stored local records,
      tombstoned codes removed, overlays applied; no de-duplication and no empty-code filter. */
  function FallbackView(ds: seq<Device>, env: MergeEnv): (r: seq<Device>)
    ensures |r| <= |ds|
    ensures forall a :: 0 <= a < |r| ==> r[a].deviceCode !in env.hidden
  {
    if ds == [] then []
    else
      var d := ds[|ds| - 1];
      FallbackView(ds[..|ds| - 1], env) + (if d.deviceCode in env.hidden then [] else [Overlay(d, env)])
  }

  /** The fallback list holds exactly the overlays of the records whose code is not hidden. */
  lemma {:induction false} FallbackViewMembers(ds: seq<Device>, env: MergeEnv, d: Device)
    ensures d in FallbackView(ds, env) <==>
      exists i :: 0 <= i < |ds| && ds[i].deviceCode !in env.hidden && d == Overlay(ds[i], env)
  {
    if ds != [] {
      var p := ds[..|ds| - 1];
      FallbackViewMembers(p, env, d);
      if exists i :: 0 <= i < |p| && p[i].deviceCode !in env.hidden && d == Overlay(p[i], env) {
        var i :| 0 <= i < |p| && p[i].deviceCode !in env.hidden && d == Overlay(p[i], env);
        assert ds[i] == p[i];
      }
      if exists i :: 0 <= i < |ds| && ds[i].deviceCode !in env.hidden && d == Overlay(ds[i], env) {
        var i :| 0 <= i < |ds| && ds[i].deviceCode !in env.hidden && d == Overlay(ds[i], env);
        if i < |p| { assert p[i] == ds[i]; }
      }
    }
  }
}
