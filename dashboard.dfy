/** The current Dashboard screen: reloading the device list from the server, the
    browser-local lists and the tombstone set, and the delete workflow (server delete
    attempts, tombstoning, local clean-up). One `Dashboard` object stands for the
    screen of one signed-in account; its `stores` are that account's storage entries. */
module Dashboard {
  import opened Text
  import opened JsValues
  import opened DeviceCode
  import opened Registry
  import opened LocalStores
  import OM = OrderedMap

  /** The codes of a list of records. */
  function Codes(ds: seq<Device>): (r: set<string>)
    ensures forall i :: 0 <= i < |ds| ==> ds[i].deviceCode in r
    ensures forall c :: c in r ==> exists i :: 0 <= i < |ds| && ds[i].deviceCode == c
    decreases |ds|
  {
    if ds == [] then {} else Codes(ds[..|ds| - 1]) + {ds[|ds| - 1].deviceCode}
  }

  /** The outcome of `reloadDevices`: the new list and the tombstone set left in storage,
      or a failure that escapes the function (the fallback path throws too). */
  datatype Reload = Reloaded(list: seq<Device>, deleted: set<string>) | Failed

  /** `reloadDevices`. On the main path the codes of the local records are taken out of
      the tombstone set, which is written back, and the local, legacy and server lists
      are merged in that order, dropping empty and tombstoned codes. When the fetch, the
      body or any list throws, the local records alone are shown, minus tombstoned codes. */
  function ReloadSpec(reply: ListReply, client: seq<Js>, legacy: seq<Js>, deleted: set<string>,
                      thumbs: Object, meta: Object): (r: Reload)
    ensures r.Failed? <==> Null in client
    ensures r.Reloaded? && (ApiDevices(reply, DashboardScreen).None? || Null in legacy) ==> r.deleted == deleted
  {
    var api := ApiDevices(reply, DashboardScreen);
    var locals := NormAll(client, DashboardScreen);
    var stale := NormAll(legacy, DashboardScreen);
    if api.Some? && locals.Some? && stale.Some? then MainView(locals.value, stale.value + api.value, deleted, thumbs, meta)
    else if locals.Some? then
      Reloaded(FallbackView(locals.value, MergeEnv(deleted, false, thumbs, meta)), deleted)
    else Failed
  }

  /** The main path over the local records and the legacy and server ones after them. */
  function MainView(locals: seq<Device>, rest: seq<Device>, deleted: set<string>, thumbs: Object, meta: Object): Reload {
    var del := deleted - Codes(locals);
    Reloaded(OM.Values(Merged(locals + rest, MergeEnv(del, true, thumbs, meta))), del)
  }

  /** On the main path no local code stays tombstoned, and only local codes leave the
      set: a record registered again after a delete is undeleted. */
  lemma ReloadMainPathTombstones(reply: ListReply, client: seq<Js>, legacy: seq<Js>, deleted: set<string>,
                                 thumbs: Object, meta: Object)
    requires ApiDevices(reply, DashboardScreen).Some? && Null !in client && Null !in legacy
    ensures var r := ReloadSpec(reply, client, legacy, deleted, thumbs, meta);
      r.Reloaded? && r.deleted <= deleted
      && (forall i :: 0 <= i < |client| ==> NormDevice(client[i], DashboardScreen).deviceCode !in r.deleted)
      && (forall c :: c in deleted && c !in r.deleted ==>
            exists i :: 0 <= i < |client| && NormDevice(client[i], DashboardScreen).deviceCode == c)
  {
    var locals := NormAll(client, DashboardScreen).value;
    var api := ApiDevices(reply, DashboardScreen).value;
    var stale := NormAll(legacy, DashboardScreen).value;
    var r := ReloadSpec(reply, client, legacy, deleted, thumbs, meta);
    assert r == MainView(locals, stale + api, deleted, thumbs, meta);
    assert r.deleted == deleted - Codes(locals);
    forall i | 0 <= i < |client| ensures NormDevice(client[i], DashboardScreen).deviceCode !in r.deleted {
      assert NormDevice(client[i], DashboardScreen) == locals[i];
    }
    forall c | c in deleted && c !in r.deleted
      ensures exists i :: 0 <= i < |client| && NormDevice(client[i], DashboardScreen).deviceCode == c
    {
      var i :| 0 <= i < |locals| && locals[i].deviceCode == c;
      assert NormDevice(client[i], DashboardScreen) == locals[i];
    }
  }

  /** On the main path the list holds one record per code, none empty and none
      tombstoned, and every local record with a code is shown. */
  lemma ReloadMainPath(reply: ListReply, client: seq<Js>, legacy: seq<Js>, deleted: set<string>,
                       thumbs: Object, meta: Object)
    requires ApiDevices(reply, DashboardScreen).Some? && Null !in client && Null !in legacy
    ensures var r := ReloadSpec(reply, client, legacy, deleted, thumbs, meta);
      r.Reloaded?
      && (forall a, b :: 0 <= a < b < |r.list| ==> r.list[a].deviceCode != r.list[b].deviceCode)
      && (forall a :: 0 <= a < |r.list| ==> r.list[a].deviceCode != "" && r.list[a].deviceCode !in r.deleted)
      && (forall i :: 0 <= i < |client| && NormDevice(client[i], DashboardScreen).deviceCode != "" ==>
            exists a :: 0 <= a < |r.list| && r.list[a].deviceCode == NormDevice(client[i], DashboardScreen).deviceCode)
  {
    var locals := NormAll(client, DashboardScreen).value;
    var api := ApiDevices(reply, DashboardScreen).value;
    var stale := NormAll(legacy, DashboardScreen).value;
    ApiDevicesFilled(reply, DashboardScreen, api);
    var r := ReloadSpec(reply, client, legacy, deleted, thumbs, meta);
    assert r == MainView(locals, stale + api, deleted, thumbs, meta);
    MainList(locals, stale, api, deleted, thumbs, meta);
    assert forall i :: 0 <= i < |client| ==> NormDevice(client[i], DashboardScreen) == locals[i];
  }

  /** The merge of the main path over the local records followed by the others. */
  lemma MainList(locals: seq<Device>, stale: seq<Device>, api: seq<Device>, deleted: set<string>, thumbs: Object, meta: Object)
    ensures var r := MainView(locals, stale + api, deleted, thumbs, meta); var out := r.list; var del := r.deleted;
      r.Reloaded? && del == deleted - Codes(locals)
      && (forall a, b :: 0 <= a < b < |out| ==> out[a].deviceCode != out[b].deviceCode)
      && (forall a :: 0 <= a < |out| ==> out[a].deviceCode != "" && out[a].deviceCode !in del)
      && (forall i :: 0 <= i < |locals| && locals[i].deviceCode != "" ==>
            exists a :: 0 <= a < |out| && out[a].deviceCode == locals[i].deviceCode)
  {
    var env := MergeEnv(deleted - Codes(locals), true, thumbs, meta);
    var rest := stale + api;
    var ds := locals + rest;
    MergedUniqueOrdered(ds, env);
    MergedKeptOnly(ds, env);
    MergedCovers(ds, env);
    assert MainView(locals, rest, deleted, thumbs, meta) == Reloaded(OM.Values(Merged(ds, env)), env.hidden);
    forall i | 0 <= i < |locals| && locals[i].deviceCode != ""
      ensures ds[i] == locals[i] && Kept(ds[i], env)
    {
    }
  }

  /** On the fallback path the tombstone set is left as stored, and the list holds exactly
      the overlaid local records whose code is not tombstoned. */
  lemma ReloadFallback(reply: ListReply, client: seq<Js>, legacy: seq<Js>, deleted: set<string>,
                       thumbs: Object, meta: Object, d: Device)
    requires Null !in client && (ApiDevices(reply, DashboardScreen).None? || Null in legacy)
    ensures var r := ReloadSpec(reply, client, legacy, deleted, thumbs, meta);
      r.Reloaded? && r.deleted == deleted
      && (d in r.list <==> exists i :: (0 <= i < |client|
            && NormDevice(client[i], DashboardScreen).deviceCode !in deleted
            && d == Overlay(NormDevice(client[i], DashboardScreen), MergeEnv(deleted, false, thumbs, meta))))
  {
    var locals := NormAll(client, DashboardScreen).value;
    FallbackViewMembers(locals, MergeEnv(deleted, false, thumbs, meta), d);
  }

  /** `String(d.deviceCode ?? '')`: the code the clean-up compares on a client entry. */
  function ClientCode(x: Js): string {
    StrOrEmpty(OptProp(x, "deviceCode"))
  }

  /** `d.deviceCode ?? d.device_code ?? d.device_id ?? d.mac`, the alias order of `purgeLegacyLS`. */
  function LegacyCode(x: Js): string {
    StrOrEmpty(Coalesce(OptProp(x, "deviceCode"), Coalesce(OptProp(x, "device_code"),
      Coalesce(OptProp(x, "device_id"), OptProp(x, "mac")))))
  }

  /** Reading a property of a `null` or `undefined` entry throws. */
  predicate HasNullish(xs: seq<Js>) {
    exists i :: 0 <= i < |xs| && Nullish(xs[i])
  }

  /** `xs.filter(d => !sameCode(codeOf(d), can))`. */
  function DropSame(xs: seq<Js>, codeOf: Js -> string, can: string): (r: seq<Js>)
    ensures |r| <= |xs|
    ensures forall x :: x in r <==> x in xs && !SameCode(codeOf(x), can)
    decreases |xs|
  {
    if xs == [] then []
    else
      assert xs == [xs[0]] + xs[1..];
      (if SameCode(codeOf(xs[0]), can) then [] else [xs[0]]) + DropSame(xs[1..], codeOf, can)
  }

  /** `prev.filter(d => !sameCode(d.deviceCode, code))` on the shown records. */
  function DropDevices(ds: seq<Device>, code: string): (r: seq<Device>)
    ensures |r| <= |ds|
    ensures forall d :: d in r <==> d in ds && !SameCode(d.deviceCode, code)
    decreases |ds|
  {
    if ds == [] then []
    else
      assert ds == [ds[0]] + ds[1..];
      (if SameCode(ds[0].deviceCode, code) then [] else [ds[0]]) + DropDevices(ds[1..], code)
  }

  /** `purgeLegacyLS(can)`: the legacy list without the records with the same code; a
      `null` entry throws inside the `try` and leaves the list as it was. */
  function PurgedLegacy(legacy: seq<Js>, can: string): (r: seq<Js>)
    ensures HasNullish(legacy) ==> r == legacy
    ensures !HasNullish(legacy) ==> forall x :: x in r <==> x in legacy && !SameCode(LegacyCode(x), can)
  {
    if HasNullish(legacy) then legacy else DropSame(legacy, LegacyCode, can)
  }

  /** `s.cameraTargetDevice && sameCode(s.cameraTargetDevice, can)`. */
  predicate TargetsCode(settings: Object, can: string) {
    var v := Prop(settings, "cameraTargetDevice");
    Truthy(v) && SameCode(StrOrEmpty(v), can)
  }

  /** The stores after the clean-up of code `can`: the client list, thumbnails and meta lose
      every entry with that code; a camera target with that code is cleared with a settings
      event; the legacy list loses its records with that code unless it holds a `null` entry
      (the error is swallowed). */
  predicate Cleaned(s: Stores, client: seq<Js>, thumbs: Object, meta: Object, legacy: seq<Js>,
                    settings: Object, settingsEvents: nat, can: string)
    reads s
  {
    s.client == DropSame(client, ClientCode, can)
    && s.thumbs == WithoutCode(thumbs, can) && s.meta == WithoutCode(meta, can)
    && s.legacy == PurgedLegacy(legacy, can)
    && if TargetsCode(settings, can) then
         s.settings == settings["cameraTargetDevice" := Str("")] && s.settingsEvents == settingsEvents + 1
       else s.settings == settings && s.settingsEvents == settingsEvents
  }

  /** An outgoing request of the delete workflow. */
  datatype Request = Request(verb: string, path: string)
  datatype Reply = ReplyOk | ReplyNotOk | ReplyThrew

  /** The three method/path shapes `tryApiDeleteOne` tries for one identifier. */
  function DeleteRequests(v: string): (r: seq<Request>)
    ensures |r| == 3
  {
    var e := EncodeUriComponent(v);
    [Request("DELETE", "/api/devices/" + e), Request("POST", "/api/devices/" + e + "/delete"),
     Request("DELETE", "/api/device/" + e)]
  }

  /** Every shape names the encoded identifier as one path segment: no character of the
      identifier can end the segment early. */
  lemma DeleteRequestsCarryId(v: string)
    ensures var r := DeleteRequests(v); var e := EncodeUriComponent(v);
      r[0].verb == "DELETE" && r[1].verb == "POST" && r[2].verb == "DELETE"
      && (forall j :: 0 <= j < 3 ==> Includes(r[j].path, e))
      && '/' !in e && '?' !in e && '#' !in e
  {
    var e := EncodeUriComponent(v);
    var r := DeleteRequests(v);
    assert OccursAt(r[0].path, e, 13) && OccursAt(r[1].path, e, 13) && OccursAt(r[2].path, e, 12);
    EncodeUriComponentSafe(v);
  }

  /** `tryApiDelete`'s identifiers: `raw`, then `last4(raw)`, then `canonical(raw)` unless it
      was already listed, each only when non-empty. */
  function DeleteVariants(raw: string): seq<string> {
    var first := if raw != "" then [raw] else [];
    var tail := Last4(raw);
    var two := first + (if tail != "" then [tail] else []);
    var can := Canonical(raw);
    two + (if can != "" && can !in two then [can] else [])
  }

  /** No identifier is empty; `raw` comes first; the canonical code is listed exactly once
      when it is not empty; nothing else is tried; an empty `raw` tries nothing. */
  lemma DeleteVariantsShape(raw: string)
    ensures var vs := DeleteVariants(raw);
      |vs| <= 3
      && (forall i :: 0 <= i < |vs| ==> vs[i] != "" && (vs[i] == raw || vs[i] == Last4(raw) || vs[i] == Canonical(raw)))
      && (raw != "" ==> vs[0] == raw)
      && (Canonical(raw) != "" ==> Canonical(raw) in vs)
      && (raw == "" ==> vs == [])
  {
    DeleteVariantsParts(raw);
    if raw == "" {
      EmptyHasNoVariants();
    }
  }

  lemma DeleteVariantsParts(raw: string)
    ensures var vs := DeleteVariants(raw);
      |vs| <= 3
      && (forall i :: 0 <= i < |vs| ==> vs[i] != "" && (vs[i] == raw || vs[i] == Last4(raw) || vs[i] == Canonical(raw)))
      && (raw != "" ==> vs[0] == raw)
      && (Canonical(raw) != "" ==> Canonical(raw) in vs)
  {
    var first := if raw != "" then [raw] else [];
    var tail := Last4(raw);
    var two := first + (if tail != "" then [tail] else []);
    var can := Canonical(raw);
    var vs := DeleteVariants(raw);
    assert vs == two + (if can != "" && can !in two then [can] else []);
    forall i | 0 <= i < |vs|
      ensures vs[i] != "" && (vs[i] == raw || vs[i] == tail || vs[i] == can)
    {
      if i >= |two| {
        assert vs[i] == can;
      } else if i >= |first| {
        assert vs[i] == tail;
      }
    }
    if can != "" && can !in two {
      assert vs[|two|] == can;
    }
  }

  lemma EmptyHasNoVariants()
    ensures Last4("") == "" && Canonical("") == "" && DeleteVariants("") == []
  {
    assert Alnum("") == "";
  }

  /** The requests of every identifier, in order. */
  function DeletePlan(vs: seq<string>): (r: seq<Request>)
    ensures |r| == 3 * |vs|
    decreases |vs|
  {
    if vs == [] then [] else DeletePlan(vs[..|vs| - 1]) + DeleteRequests(vs[|vs| - 1])
  }

  /** The plan of a list of identifiers is the plan of its first part followed by the plan
      of the rest: identifiers are tried one after another, each with all its shapes. */
  lemma {:induction false} DeletePlanAppend(a: seq<string>, b: seq<string>)
    ensures DeletePlan(a + b) == DeletePlan(a) + DeletePlan(b)
    decreases |b|
  {
    if b == [] {
      assert a + b == a;
    } else {
      var b' := b[..|b| - 1];
      assert (a + b)[..|a + b| - 1] == a + b';
      DeletePlanAppend(a, b');
    }
  }

  /** The position of the first request the server accepts, or the length when none is. */
  function FirstOk(plan: seq<Request>, server: Request -> Reply): (n: nat)
    ensures n <= |plan|
    ensures n < |plan| ==> server(plan[n]) == ReplyOk
    ensures forall j :: 0 <= j < n ==> server(plan[j]) != ReplyOk
    decreases |plan|
  {
    if plan == [] then 0
    else if server(plan[0]) == ReplyOk then 0
    else 1 + FirstOk(plan[1..], server)
  }

  lemma {:induction false} FirstOkAppend(a: seq<Request>, b: seq<Request>, server: Request -> Reply)
    ensures FirstOk(a + b, server) == if FirstOk(a, server) < |a| then FirstOk(a, server) else |a| + FirstOk(b, server)
    decreases |a|
  {
    if a != [] {
      assert (a + b)[0] == a[0];
      if server(a[0]) != ReplyOk {
        assert (a + b)[1..] == a[1..] + b;
        FirstOkAppend(a[1..], b, server);
        assert FirstOk(a + b, server) == 1 + FirstOk(a[1..] + b, server);
      }
    } else {
      assert a + b == b;
    }
  }

  /** The delete reports success exactly when some request of the plan is accepted. */
  lemma DeleteOkIff(plan: seq<Request>, server: Request -> Reply)
    ensures FirstOk(plan, server) < |plan| <==> exists j :: 0 <= j < |plan| && server(plan[j]) == ReplyOk
  {
  }

  /** `tryApiDeleteOne(v)`: tries the three shapes in order, moving on after a refusal or a
      thrown error, and stops at the first accepted one. `sent` lists the requests made. */
  method TryApiDeleteOne(v: string, server: Request -> Reply) returns (ok: bool, sent: seq<Request>)
    ensures var reqs := DeleteRequests(v); var n := FirstOk(reqs, server);
      ok == (n < 3) && sent == reqs[..if ok then n + 1 else 3]
  {
    var paths := DeleteRequests(v);
    sent := [];
    var k := 0;
    while k < 3
      invariant 0 <= k <= 3 && sent == paths[..k]
      invariant forall j :: 0 <= j < k ==> server(paths[j]) != ReplyOk
    {
      sent := sent + [paths[k]];
      if server(paths[k]) == ReplyOk {
        return true, sent;
      }
      k := k + 1;
    }
    ok := false;
  }

  /** `tryApiDelete(raw)`: every identifier's three shapes in turn, stopping at the first
      accepted request. */
  method TryApiDelete(raw: string, server: Request -> Reply) returns (ok: bool, sent: seq<Request>)
    ensures var plan := DeletePlan(DeleteVariants(raw)); var n := FirstOk(plan, server);
      ok == (n < |plan|) && sent == plan[..if ok then n + 1 else |plan|]
  {
    ok, sent := TryVariants(DeleteVariants(raw), server);
  }

  /** The `for (const v of variants)` loop of `tryApiDelete`. */
  method TryVariants(vs: seq<string>, server: Request -> Reply) returns (ok: bool, sent: seq<Request>)
    ensures var plan := DeletePlan(vs); var n := FirstOk(plan, server);
      ok == (n < |plan|) && sent == plan[..if ok then n + 1 else |plan|]
  {
    sent := [];
    var i := 0;
    while i < |vs|
      invariant 0 <= i <= |vs| && sent == DeletePlan(vs[..i])
      invariant FirstOk(sent, server) == |sent|
    {
      var one, s := TryApiDeleteOne(vs[i], server);
      if one {
        StopAt(vs, i, server);
        return true, sent + s;
      }
      MoveOn(vs, i, server);
      sent := sent + s;
      i := i + 1;
    }
    assert vs[..i] == vs;
    ok := false;
  }

  /** Identifier `i` was refused on every shape: the plan so far grows by its three requests
      and still holds no accepted one. */
  lemma MoveOn(vs: seq<string>, i: nat, server: Request -> Reply)
    requires i < |vs| && FirstOk(DeletePlan(vs[..i]), server) == |DeletePlan(vs[..i])|
    requires FirstOk(DeleteRequests(vs[i]), server) == 3
    ensures DeletePlan(vs[..i + 1]) == DeletePlan(vs[..i]) + DeleteRequests(vs[i])
    ensures FirstOk(DeletePlan(vs[..i + 1]), server) == |DeletePlan(vs[..i + 1])|
  {
    assert vs[..i + 1][..i] == vs[..i];
    FirstOkAppend(DeletePlan(vs[..i]), DeleteRequests(vs[i]), server);
  }

  /** Identifier `i` was accepted after the earlier ones were refused: the requests made are
      the plan up to and including its first accepted request. */
  lemma StopAt(vs: seq<string>, i: nat, server: Request -> Reply)
    requires i < |vs| && FirstOk(DeletePlan(vs[..i]), server) == |DeletePlan(vs[..i])|
    requires FirstOk(DeleteRequests(vs[i]), server) < 3
    ensures var plan := DeletePlan(vs); var n := FirstOk(plan, server); var reqs := DeleteRequests(vs[i]);
      n < |plan| && DeletePlan(vs[..i]) + reqs[..FirstOk(reqs, server) + 1] == plan[..n + 1]
  {
    var p, reqs, rest := DeletePlan(vs[..i]), DeleteRequests(vs[i]), DeletePlan(vs[i + 1..]);
    var k := FirstOk(reqs, server);
    PlanAround(vs, i);
    FirstOkAppend(p, reqs, server);
    FirstOkAppend(p + reqs, rest, server);
    PrefixThrough(p, reqs, rest, k);
  }

  /** The plan of a list is the plan before identifier `i`, its requests, and the plan after it. */
  lemma PlanAround(vs: seq<string>, i: nat)
    requires i < |vs|
    ensures DeletePlan(vs) == DeletePlan(vs[..i]) + DeleteRequests(vs[i]) + DeletePlan(vs[i + 1..])
  {
    PlanThrough(vs, i);
    SplitAfter(vs, i);
    DeletePlanAppend(vs[..i + 1], vs[i + 1..]);
  }

  lemma PlanThrough(vs: seq<string>, i: nat)
    requires i < |vs|
    ensures DeletePlan(vs[..i + 1]) == DeletePlan(vs[..i]) + DeleteRequests(vs[i])
  {
    assert vs[..i + 1][..i] == vs[..i];
  }

  lemma SplitAfter<T>(s: seq<T>, i: nat)
    requires i < |s|
    ensures s == s[..i + 1] + s[i + 1..]
  {
  }

  lemma PrefixThrough<T>(p: seq<T>, q: seq<T>, r: seq<T>, k: nat)
    requires k < |q|
    ensures (p + q + r)[..|p| + k + 1] == p + q[..k + 1]
  {
  }

  /** The client list after the clean-up of `canonical(code)` keeps only earlier entries
      whose code differs from `code`. */
  lemma DroppedClientsDifferent(client: seq<Js>, before: seq<Js>, code: string)
    requires client == DropSame(before, ClientCode, Canonical(code))
    ensures forall x :: x in client ==> x in before && !SameCode(ClientCode(x), code)
  {
    CanonicalIdempotent(code);
  }

  class Dashboard {
    const stores: Stores
    /** The shown device list and the selected card. */
    var devices: seq<Device>
    var selectedIndex: nat

    constructor (stores: Stores)
      ensures this.stores == stores && devices == [] && selectedIndex == 0
    {
      this.stores := stores;
      devices := [];
      selectedIndex := 0;
    }

    /** `current?.deviceCode || ''`: the selected record's code, empty when nothing is selected. */
    function CurrentCode(): string
      reads this
    {
      if selectedIndex < |devices| then devices[selectedIndex].deviceCode else ""
    }

    /** `current?.rawCode || currentDeviceCode`. */
    function CurrentRaw(): string
      reads this
    {
      if selectedIndex < |devices| && devices[selectedIndex].rawCode != "" then devices[selectedIndex].rawCode
      else CurrentCode()
    }

    /** `reloadDevices()`. */
    method Reload(reply: ListReply) returns (ok: bool)
      modifies this`devices, stores`deleted
      ensures var r := ReloadSpec(reply, stores.client, stores.legacy, old(stores.deleted), stores.thumbs, stores.meta);
        ok == r.Reloaded?
        && (ok ==> devices == r.list && stores.deleted == r.deleted)
        && (!ok ==> devices == old(devices) && stores.deleted == old(stores.deleted))
    {
      var api := ApiDevices(reply, DashboardScreen);
      var locals := NormAll(stores.client, DashboardScreen);
      var legacy := NormAll(stores.legacy, DashboardScreen);
      if api.Some? && locals.Some? && legacy.Some? {
        var ls, rest := locals.value, legacy.value + api.value;
        var del := Untombstone(stores.deleted, ls);
        stores.deleted := del;
        devices := MergeDevices(ls + rest, MergeEnv(del, true, stores.thumbs, stores.meta));
        ok := true;
        assert ReloadSpec(reply, stores.client, stores.legacy, old(stores.deleted), stores.thumbs, stores.meta)
          == MainView(ls, rest, old(stores.deleted), stores.thumbs, stores.meta);
      } else if locals.Some? {
        devices := FallbackView(locals.value, MergeEnv(stores.deleted, false, stores.thumbs, stores.meta));
        ok := true;
      } else {
        ok := false;
      }
    }

    /** `addDeleted(token, code)`: tombstones the canonical code. */
    method AddDeleted(code: string)
      modifies stores`deleted
      ensures stores.deleted == old(stores.deleted) + {Canonical(code)}
    {
      stores.deleted := stores.deleted + {Canonical(code)};
    }

    /** `removeDeleted(token, code)`. */
    method RemoveDeleted(code: string)
      modifies stores`deleted
      ensures stores.deleted == old(stores.deleted) - {Canonical(code)}
    {
      stores.deleted := stores.deleted - {Canonical(code)};
    }

    /** `removeLocalEverywhere(code)`: the clean-up of the canonical code. */
    method RemoveLocalEverywhere(code: string) returns (done: bool)
      modifies stores
      ensures done == !HasNullish(old(stores.client))
      ensures !done ==> unchanged(stores)
      ensures done ==> Cleaned(stores, old(stores.client), old(stores.thumbs), old(stores.meta), old(stores.legacy),
                               old(stores.settings), old(stores.settingsEvents), Canonical(code))
      ensures done ==> stores.deleted == old(stores.deleted) && stores.deviceEvents == old(stores.deviceEvents) + 1
    {
      done := RemoveCanonical(Canonical(code));
    }

    /** The body of `removeLocalEverywhere` once the code is canonical. The client list is
        filtered outside any `try`, so a `null` entry makes the whole clean-up throw before
        anything is written. */
    method RemoveCanonical(can: string) returns (done: bool)
      modifies stores
      ensures done == !HasNullish(old(stores.client))
      ensures !done ==> unchanged(stores)
      ensures done ==> Cleaned(stores, old(stores.client), old(stores.thumbs), old(stores.meta), old(stores.legacy),
                               old(stores.settings), old(stores.settingsEvents), can)
      ensures done ==> stores.deleted == old(stores.deleted) && stores.deviceEvents == old(stores.deviceEvents) + 1
    {
      if HasNullish(stores.client) {
        return false;
      }
      var client := DropSame(stores.client, ClientCode, can);
      var thumbs := DropKeys(stores.thumbs, can);
      var meta := DropKeys(stores.meta, can);
      var legacy := PurgedLegacy(stores.legacy, can);
      var clear := TargetsCode(stores.settings, can);
      stores.client, stores.thumbs, stores.meta, stores.legacy := client, thumbs, meta, legacy;
      if clear {
        stores.settings := stores.settings["cameraTargetDevice" := Str("")];
        stores.settingsEvents := stores.settingsEvents + 1;
      }
      stores.deviceEvents := stores.deviceEvents + 1;
      done := true;
    }

    /** `handleDeleteSelected()`. Without a selected code (an alert) or without the user's
        confirmation nothing happens. Otherwise the server delete is attempted, and whatever
        its outcome the code is tombstoned and removed locally, and the shown list loses it. */
    method HandleDeleteSelected(confirmed: bool, server: Request -> Reply) returns (ok: bool, sent: seq<Request>)
      modifies this, stores
      ensures old(CurrentCode()) == "" || !confirmed ==>
        unchanged(this) && unchanged(stores) && !ok && sent == []
      ensures old(CurrentCode()) != "" && confirmed ==>
        var plan := DeletePlan(DeleteVariants(old(CurrentRaw()))); var n := FirstOk(plan, server);
        ok == (n < |plan|) && sent == plan[..if ok then n + 1 else |plan|]
        && stores.deleted == old(stores.deleted) + {Canonical(old(CurrentCode()))}
      ensures old(CurrentCode()) != "" && confirmed && !HasNullish(old(stores.client)) ==>
        Cleaned(stores, old(stores.client), old(stores.thumbs), old(stores.meta), old(stores.legacy),
                old(stores.settings), old(stores.settingsEvents), Canonical(old(CurrentCode())))
        && stores.deviceEvents == old(stores.deviceEvents) + 1
        && (forall x :: x in stores.client ==> x in old(stores.client) && !SameCode(ClientCode(x), old(CurrentCode())))
        && devices == DropDevices(old(devices), old(CurrentCode())) && selectedIndex == 0
      ensures old(CurrentCode()) != "" && confirmed && HasNullish(old(stores.client)) ==>
        unchanged(this) && unchanged(stores`client, stores`thumbs, stores`meta, stores`legacy, stores`settings,
                                     stores`deviceEvents, stores`settingsEvents)
    {
      var code := CurrentCode();
      if code == "" || !confirmed {
        return false, [];
      }
      ok, sent := TryApiDelete(CurrentRaw(), server);
      ForgetDeleted(code);
    }

    /** What `handleDeleteSelected` does after the server attempt: the tombstone, the local
        clean-up and, when that did not throw, the shown list and the selection. */
    method ForgetDeleted(code: string)
      modifies this`devices, this`selectedIndex, stores
      ensures stores.deleted == old(stores.deleted) + {Canonical(code)}
      ensures !HasNullish(old(stores.client)) ==>
        Cleaned(stores, old(stores.client), old(stores.thumbs), old(stores.meta), old(stores.legacy),
                old(stores.settings), old(stores.settingsEvents), Canonical(code))
        && stores.deviceEvents == old(stores.deviceEvents) + 1
        && (forall x :: x in stores.client ==> x in old(stores.client) && !SameCode(ClientCode(x), code))
        && devices == DropDevices(old(devices), code) && selectedIndex == 0
      ensures HasNullish(old(stores.client)) ==>
        unchanged(this) && unchanged(stores`client, stores`thumbs, stores`meta, stores`legacy, stores`settings,
                                     stores`deviceEvents, stores`settingsEvents)
    {
      AddDeleted(code);
      assert unchanged(this) && unchanged(stores`client, stores`thumbs, stores`meta, stores`legacy, stores`settings,
                                          stores`deviceEvents, stores`settingsEvents);
      ForgetLocally(code);
    }

    /** `removeLocalEverywhere(code)` and, when it did not throw, the shown list without the
        code and the first card selected. */
    method ForgetLocally(code: string)
      modifies this`devices, this`selectedIndex, stores
      ensures unchanged(stores`deleted)
      ensures !HasNullish(old(stores.client)) ==>
        Cleaned(stores, old(stores.client), old(stores.thumbs), old(stores.meta), old(stores.legacy),
                old(stores.settings), old(stores.settingsEvents), Canonical(code))
        && stores.deviceEvents == old(stores.deviceEvents) + 1
        && (forall x :: x in stores.client ==> x in old(stores.client) && !SameCode(ClientCode(x), code))
        && devices == DropDevices(old(devices), code) && selectedIndex == 0
      ensures HasNullish(old(stores.client)) ==> unchanged(this) && unchanged(stores)
    {
      var done := RemoveLocalEverywhere(code);
      if done {
        DroppedClientsDifferent(stores.client, old(stores.client), code);
        devices := DropDevices(devices, code);
        selectedIndex := 0;
      }
    }

    /** Returning from registration: `devices.findIndex(d => sameCode(d.deviceCode, deviceCode))`
        selects the added device when it is listed. */
    method SelectAdded(added: Js)
      modifies this`selectedIndex
      ensures var i := FindSame(devices, StrOrEmpty(OptProp(added, "deviceCode")));
        selectedIndex == if Truthy(added) && i >= 0 then i else old(selectedIndex)
    {
      if Truthy(added) {
        var i := FindSame(devices, StrOrEmpty(OptProp(added, "deviceCode")));
        if i >= 0 {
          selectedIndex := i;
        }
      }
    }
  }

  /** An object without the keys that have the code `can`. */
  function WithoutCode(t: Object, can: string): (r: Object)
    ensures forall k :: k in r <==> k in t && !SameCode(k, can)
    ensures forall k :: k in r ==> r[k] == t[k]
  {
    map k | k in t && !SameCode(k, can) :: t[k]
  }

  /** `locals.forEach(d => del.delete(d.deviceCode))`. */
  method Untombstone(deleted: set<string>, ls: seq<Device>) returns (del: set<string>)
    ensures del == deleted - Codes(ls)
  {
    del := deleted;
    var i := 0;
    while i < |ls|
      invariant 0 <= i <= |ls| && del == deleted - Codes(ls[..i])
    {
      assert ls[..i + 1][..i] == ls[..i];
      del := del - {ls[i].deviceCode};
      i := i + 1;
    }
    assert ls[..i] == ls;
  }

  /** `Object.keys(t).forEach(k => { if (sameCode(k, can)) delete t[k]; })`. */
  method DropKeys(t: Object, can: string) returns (r: Object)
    ensures r == WithoutCode(t, can)
  {
    r := DeleteKeysWhere(t, j => SameCode(j, can));
    WithoutCodeIs(t, can, r);
  }

  /** The `forEach` over the keys of `t` that deletes every key `drop` picks. */
  method DeleteKeysWhere(t: Object, drop: string -> bool) returns (r: Object)
    ensures forall j :: j in r <==> j in t && !drop(j)
    ensures forall j :: j in r ==> r[j] == t[j]
  {
    r := t;
    var todo := t.Keys;
    while todo != {}
      invariant todo <= t.Keys
      invariant forall j :: j in r <==> j in t && (j in todo || !drop(j))
      invariant forall j :: j in r ==> r[j] == t[j]
      decreases |todo|
    {
      var k :| k in todo;
      if drop(k) {
        r := r - {k};
      }
      todo := todo - {k};
    }
  }

  /** An object with the keys of `t` that lack the code `can`, each with its value in `t`, is `WithoutCode(t, can)`. */
  lemma WithoutCodeIs(t: Object, can: string, r: Object)
    requires forall j :: j in r <==> j in t && !SameCode(j, can)
    requires forall j :: j in r ==> r[j] == t[j]
    ensures r == WithoutCode(t, can)
  {
    assert r.Keys == WithoutCode(t, can).Keys;
  }

  /** `findIndex` with `sameCode`: the first matching position, or -1. */
  function FindSame(ds: seq<Device>, code: string): (i: int)
    ensures -1 <= i < |ds|
    ensures i >= 0 ==> SameCode(ds[i].deviceCode, code)
  {
    FirstTrue(Hits(ds, code), 0)
  }

  function Hits(ds: seq<Device>, code: string): (bs: seq<bool>)
    ensures |bs| == |ds|
  {
    seq(|ds|, j requires 0 <= j < |ds| => SameCode(ds[j].deviceCode, code))
  }

  /** No record before the one `FindSame` picks (before the end, when it finds none) has the code. */
  lemma FindSameIsFirst(ds: seq<Device>, code: string, j: nat)
    requires j < (if FindSame(ds, code) < 0 then |ds| else FindSame(ds, code))
    ensures !SameCode(ds[j].deviceCode, code)
  {
    assert !Hits(ds, code)[j];
  }

  /** The first `true` at position `k` or later, or -1. */
  function FirstTrue(bs: seq<bool>, k: nat): (i: int)
    requires k <= |bs|
    ensures -1 <= i < |bs| && (i >= 0 ==> k <= i && bs[i])
    ensures forall j :: k <= j < (if i < 0 then |bs| else i) ==> !bs[j]
    decreases |bs| - k
  {
    if k == |bs| then -1 else if bs[k] then k else FirstTrue(bs, k + 1)
  }

  /** A tombstoned code stays hidden: once every client entry carries a `deviceCode` that is
      not the deleted one, whichever path a reload takes, the code stays tombstoned and
      no record with it is shown. */
  lemma TombstonedStaysHidden(reply: ListReply, client: seq<Js>, legacy: seq<Js>, deleted: set<string>,
                              thumbs: Object, meta: Object, code: string)
    requires Canonical(code) in deleted
    requires forall i :: 0 <= i < |client| ==>
      !Nullish(OptProp(client[i], "deviceCode")) && !SameCode(ClientCode(client[i]), code)
    ensures var r := ReloadSpec(reply, client, legacy, deleted, thumbs, meta);
      r.Reloaded? && Canonical(code) in r.deleted
      && forall a :: 0 <= a < |r.list| ==> r.list[a].deviceCode != Canonical(code)
  {
    var can := Canonical(code);
    LocalsLackCode(client, code);
    var r := ReloadSpec(reply, client, legacy, deleted, thumbs, meta);
    if ApiDevices(reply, DashboardScreen).Some? && Null !in legacy {
      ReloadMainPath(reply, client, legacy, deleted, thumbs, meta);
      var locals := NormAll(client, DashboardScreen).value;
      assert can !in Codes(locals);
    } else {
      forall a | 0 <= a < |r.list| ensures r.list[a].deviceCode != can {
        ReloadFallback(reply, client, legacy, deleted, thumbs, meta, r.list[a]);
      }
    }
  }

  /** Client entries that all carry a code other than `code` hold no `null` and normalise
      to records whose code is not `canonical(code)`. */
  lemma LocalsLackCode(client: seq<Js>, code: string)
    requires forall i :: 0 <= i < |client| ==>
      !Nullish(OptProp(client[i], "deviceCode")) && !SameCode(ClientCode(client[i]), code)
    ensures Null !in client
    ensures forall i :: 0 <= i < |client| ==> NormDevice(client[i], DashboardScreen).deviceCode != Canonical(code)
  {
    CanonicalIdempotent(code);
    assert Null !in client by {
      forall i | 0 <= i < |client| ensures client[i] != Null { }
    }
    forall i | 0 <= i < |client| ensures NormDevice(client[i], DashboardScreen).deviceCode != Canonical(code) {
      assert CodeAlias(client[i]) == OptProp(client[i], "deviceCode");
      CanonicalIgnoresTrim(ClientCode(client[i]));
    }
  }

}
