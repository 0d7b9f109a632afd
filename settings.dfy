/** The current Settings screen: the settings form (operation mode, night mode, camera
    target) loaded from and saved to the shared settings entry, the control-mode call for
    the chosen sensor box, and the list of devices to pick the camera target from. */
module Settings {
  import opened Text
  import opened JsValues
  import opened DeviceCode
  import opened Registry
  import opened LocalStores
  import opened Modes
  import Namespace
  import OM = OrderedMap

  /** `DEFAULTS`. */
  function Defaults(): (r: Object)
    ensures Consistent(r) && ModeOf(r) == "normal"
  {
    var p := PresetFor("normal");
    map["operationMode" := Str("normal"), "ccuIntervalMinutes" := Num(p.ccu as real),
        "sensingIntervalMinutes" := Num(p.sense as real), "captureIntervalMinutes" := Num(p.capture as real),
        "nightMode" := Str("night_on"), "cameraTargetDevice" := Str("")]
  }

  /** `loadSettings()`: the stored value as parsed, or the defaults when the entry is
      missing, empty or unparsable. No defaults are merged into a stored object. */
  function LoadSettings(slot: Slot): (r: Js)
    ensures slot.Json? ==> r == slot.value
    ensures !slot.Json? ==> r == Obj(Defaults())
  {
    ReadOrNull(slot, Obj(Defaults()))
  }

  /** The preset whose intervals the read-only fields show, as the screen computes it:
      `MODE_PRESETS[form.operationMode].ccu` throws (`None`) for a form that is not an
      object naming one of the five modes. */
  function ShownPresetAsWritten(form: Js): (r: Option<Preset>)
    ensures r.Some? <==> form.Obj? && ModeOf(form.fields) in ModeKeys
  {
    if form.Obj? then PresetOf(ModeOf(form.fields)) else None
  }

  /** A stored settings record in the older screen's format (only `sensorRefreshMinutes`)
      leaves the current screen unable to render, although the older screen migrates it
      and this screen's own save falls back to `normal` for it. */
  lemma OlderRecordDoesNotRender()
    ensures ShownPresetAsWritten(LoadSettings(Json(Obj(map["sensorRefreshMinutes" := Num(30.0)])))) == None
    ensures ShownPreset(OpenForm(Json(Obj(map["sensorRefreshMinutes" := Num(30.0)])))) == PresetFor("normal")
  {
    assert ModeOf(map["sensorRefreshMinutes" := Num(30.0)]) == "undefined";
  }

  /** The form the screen starts from (`useState(loadSettings())`), seen through the named
      fields the screen reads: a stored object gives its own fields, any other stored value
      gives none that a setting is named after. */
  function OpenForm(slot: Slot): (r: Object)
    ensures LoadSettings(slot).Obj? ==> r == LoadSettings(slot).fields
    ensures !slot.Json? ==> r == Defaults()
  {
    Spread(LoadSettings(slot))
  }

  /** The preset the read-only fields show, with the `normal` fallback `handleSave` uses. */
  function ShownPreset(form: Object): (p: Preset)
    ensures ModeOf(form) in ModeKeys ==> Some(p) == PresetOf(ModeOf(form))
  {
    PresetFor(ModeOf(form))
  }

  /** Wherever the screen as written renders, it shows the same preset as the corrected
      one, and the corrected one always shows the intervals a save will store. */
  lemma ShownPresetAgrees(form: Js)
    requires ShownPresetAsWritten(form).Some?
    ensures ShownPresetAsWritten(form).value == ShownPreset(Spread(form))
  {
  }

  /** The record `handleSave` writes: the mode as the form has it, the intervals of its
      preset (`normal` for an unknown mode), `nightMode || 'night_on'` and
      `cameraTargetDevice || ''`. */
  function SavedData(form: Object): (r: Object)
    ensures Prop(r, "operationMode") == Prop(form, "operationMode") && Consistent(r)
    ensures Truthy(Prop(r, "nightMode"))
    ensures Truthy(Prop(form, "nightMode")) ==> Prop(r, "nightMode") == Prop(form, "nightMode")
    ensures Truthy(Prop(form, "cameraTargetDevice")) ==> Prop(r, "cameraTargetDevice") == Prop(form, "cameraTargetDevice")
    ensures !Truthy(Prop(form, "cameraTargetDevice")) ==> Prop(r, "cameraTargetDevice") == Str("")
    ensures r.Keys == Defaults().Keys
  {
    var p := PresetFor(ModeOf(form));
    map["operationMode" := Prop(form, "operationMode"), "ccuIntervalMinutes" := Num(p.ccu as real),
        "sensingIntervalMinutes" := Num(p.sense as real), "captureIntervalMinutes" := Num(p.capture as real),
        "nightMode" := Or(Prop(form, "nightMode"), Str("night_on")),
        "cameraTargetDevice" := Or(Prop(form, "cameraTargetDevice"), Str(""))]
  }

  /** Saving what was just saved stores the same record again, and the intervals stored
      are the ones the screen shows. */
  lemma SaveIdempotent(form: Object)
    ensures SavedData(SavedData(form)) == SavedData(form)
    ensures ShownPreset(SavedData(form)) == ShownPreset(form)
  {
  }

  /** `POST /api/control_mode/<id>` with `{ mode, night_option }`. */
  datatype ControlRequest = ControlRequest(path: string, mode: Js, nightOption: Js)

  /** The control-mode call `handleSave` makes after the local save: only when the camera
      target ends in four hex digits, addressed by those digits in lower case. */
  function ControlCall(data: Object): (r: Option<ControlRequest>)
    ensures r.None? <==> DeviceIdForApi(ToStr(Or(Prop(data, "cameraTargetDevice"), Str("")))) == ""
    ensures r.Some? ==> StartsWith(r.value.path, "/api/control_mode/") && |r.value.path| == 22
    ensures r.Some? ==> r.value.mode == Prop(data, "operationMode") && r.value.nightOption == Prop(data, "nightMode")
  {
    var id := DeviceIdForApi(ToStr(Or(Prop(data, "cameraTargetDevice"), Str(""))));
    if id == "" then None
    else Some(ControlRequest("/api/control_mode/" + id, Prop(data, "operationMode"), Prop(data, "nightMode")))
  }

  /** With a camera target picked from the device list (a canonical code), the control
      call goes out exactly for a sensor-box code, addressed by its hex tail. */
  lemma ControlOnlyForSensorBoxes(form: Object, s: string)
    requires Prop(form, "cameraTargetDevice") == Str(Canonical(s))
    ensures ControlCall(SavedData(form)).Some? <==> IsGeSdCode(Canonical(s))
    ensures IsGeSdCode(Canonical(s)) ==>
      ControlCall(SavedData(form)).value.path == "/api/control_mode/" + Canonical(s)[6..]
  {
    DeviceIdForCanonical(s);
    var c := Canonical(s);
    var data := SavedData(form);
    var target := Prop(data, "cameraTargetDevice");
    if c == "" {
      assert DeviceIdForApi(c) == "";
      assert target == Str("");
    } else {
      assert target == Str(c);
    }
    assert ToStr(Or(target, Str(""))) == c;
  }

  /** The `new Map()` / `forEach` / `[...map.values()]` block of this screen: records
      merged by code with the thumbnail and meta overlays, nothing hidden. */
  function MergedView(ds: seq<Device>, thumbs: Object, meta: Object): seq<Device> {
    OM.Values(Merged(ds, MergeEnv({}, false, thumbs, meta)))
  }

  /** The merged view holds one entry per code, shows every code of its input, tombstoned
      or not (this screen does not read the tombstones), and gives each code its last
      record with the overlays applied. */
  lemma MergedViewFacts(ds: seq<Device>, thumbs: Object, meta: Object)
    requires forall i :: 0 <= i < |ds| ==> Filled(ds[i])
    ensures var r := MergedView(ds, thumbs, meta);
      (forall a, b :: 0 <= a < b < |r| ==> r[a].deviceCode != r[b].deviceCode)
      && (forall i :: 0 <= i < |ds| ==> exists a :: 0 <= a < |r| && r[a].deviceCode == ds[i].deviceCode)
      && (forall a, i :: (0 <= a < |r| && 0 <= i < |ds| && ds[i].deviceCode == r[a].deviceCode
            && (forall j :: i < j < |ds| ==> ds[j].deviceCode != ds[i].deviceCode)) ==>
            r[a] == Overlay(ds[i], MergeEnv({}, false, thumbs, meta)))
  {
    MergedList(ds, MergeEnv({}, false, thumbs, meta));
  }

  /** The first device list: the server's records through the merged view; when the
      fetch, the body or a record throws, the stored client records as they are; `None`
      when that fails too. */
  function InitialList(reply: ListReply, client: seq<Js>, thumbs: Object, meta: Object): Option<seq<Device>> {
    var api := ApiDevices(reply, SettingsScreen);
    if api.Some? then Some(MergedView(api.value, thumbs, meta))
    else NormAll(client, SettingsScreen)
  }

  /** The list after a storage or client-devices event: the client records, then the
      server's, through the merged view. A failed fetch counts as an empty server list;
      an unparsable body or a `null` record leaves the list as it was (`None`). */
  function StorageList(reply: ListReply, client: seq<Js>, thumbs: Object, meta: Object): Option<seq<Device>> {
    var api := if reply.FetchThrew? then Some([]) else ApiDevices(reply, SettingsScreen);
    var locals := NormAll(client, SettingsScreen);
    if api.Some? && locals.Some? then Some(MergedView(locals.value + api.value, thumbs, meta))
    else None
  }

  /** The first load on the server path: one entry per code, every server code shown and
      carrying the last server record with that code. */
  lemma InitialListFromServer(reply: ListReply, client: seq<Js>, thumbs: Object, meta: Object, api: seq<Device>)
    requires ApiDevices(reply, SettingsScreen) == Some(api)
    ensures InitialList(reply, client, thumbs, meta) == Some(MergedView(api, thumbs, meta))
    ensures var r := MergedView(api, thumbs, meta);
      (forall a, b :: 0 <= a < b < |r| ==> r[a].deviceCode != r[b].deviceCode)
      && (forall i :: 0 <= i < |api| ==> exists a :: 0 <= a < |r| && r[a].deviceCode == api[i].deviceCode)
      && (forall a, i :: (0 <= a < |r| && 0 <= i < |api| && api[i].deviceCode == r[a].deviceCode
            && (forall j :: i < j < |api| ==> api[j].deviceCode != api[i].deviceCode)) ==>
            r[a] == Overlay(api[i], MergeEnv({}, false, thumbs, meta)))
  {
    ApiDevicesFilled(reply, SettingsScreen, api);
    MergedViewFacts(api, thumbs, meta);
  }

  /** Client records followed by server records through the merged view: every code of
      either list is shown, once. */
  lemma MergedViewShowsBoth(locals: seq<Device>, api: seq<Device>, thumbs: Object, meta: Object)
    requires forall k :: 0 <= k < |locals| ==> Filled(locals[k])
    requires forall k :: 0 <= k < |api| ==> Filled(api[k])
    ensures var r := MergedView(locals + api, thumbs, meta);
      (forall a, b :: 0 <= a < b < |r| ==> r[a].deviceCode != r[b].deviceCode)
      && (forall k :: 0 <= k < |locals| ==> exists a :: 0 <= a < |r| && r[a].deviceCode == locals[k].deviceCode)
      && (forall k :: 0 <= k < |api| ==> exists a :: 0 <= a < |r| && r[a].deviceCode == api[k].deviceCode)
  {
    var ds := locals + api;
    assert forall k :: 0 <= k < |locals| ==> ds[k] == locals[k];
    assert forall k :: 0 <= k < |api| ==> ds[|locals| + k] == api[k];
    MergedViewFacts(ds, thumbs, meta);
  }

  /** Where the client and the server lists both carry a code, the server's last record
      for it is the one shown. */
  lemma MergedViewServerWins(locals: seq<Device>, api: seq<Device>, thumbs: Object, meta: Object, i: nat)
    requires forall k :: 0 <= k < |locals| ==> Filled(locals[k])
    requires forall k :: 0 <= k < |api| ==> Filled(api[k])
    requires i < |api| && forall j :: i < j < |api| ==> api[j].deviceCode != api[i].deviceCode
    ensures exists a :: (0 <= a < |MergedView(locals + api, thumbs, meta)|
      && MergedView(locals + api, thumbs, meta)[a] == Overlay(api[i], MergeEnv({}, false, thumbs, meta)))
  {
    var ds := locals + api;
    var n := |locals| + i;
    assert ds[n] == api[i];
    forall j | n < j < |ds| ensures ds[j].deviceCode != ds[n].deviceCode {
      assert ds[j] == api[j - |locals|];
    }
    MergedViewFacts(ds, thumbs, meta);
    var r := MergedView(ds, thumbs, meta);
    var a :| 0 <= a < |r| && r[a].deviceCode == ds[n].deviceCode;
  }

  /** After a storage event that reads both lists, the screen shows the client records
      and the server's through the merged view, every record normalised. */
  lemma StorageListMerges(reply: ListReply, client: seq<Js>, thumbs: Object, meta: Object,
                          locals: seq<Device>, api: seq<Device>)
    requires NormAll(client, SettingsScreen) == Some(locals)
    requires (if reply.FetchThrew? then Some([]) else ApiDevices(reply, SettingsScreen)) == Some(api)
    ensures StorageList(reply, client, thumbs, meta) == Some(MergedView(locals + api, thumbs, meta))
    ensures forall k :: 0 <= k < |locals| ==> Filled(locals[k])
    ensures forall k :: 0 <= k < |api| ==> Filled(api[k])
  {
    if !reply.FetchThrew? {
      ApiDevicesFilled(reply, SettingsScreen, api);
    }
  }

  /** One open Settings screen. `stores` are the storage entries of the signed-in
      account, including the shared settings entry. */
  class SettingsPage {
    const stores: Stores
    var form: Object
    var saved: bool
    var devices: seq<Device>
    var loadingDevs: bool

    constructor (stores: Stores, slot: Slot)
      ensures this.stores == stores && form == OpenForm(slot)
      ensures !saved && devices == [] && loadingDevs
    {
      this.stores := stores;
      form := OpenForm(slot);
      saved := false;
      devices := [];
      loadingDevs := true;
    }

    /** `onChange` on the night-mode select: `{...s, [name]: value}`. */
    method OnChange(name: string, value: Js)
      modifies this`form
      ensures form == old(form)[name := value]
    {
      form := form[name := value];
    }

    /** A mode card's click. */
    method ChooseMode(k: string)
      modifies this`form
      ensures form == ApplyMode(Obj(old(form)), k)
      ensures Consistent(form) && ShownPreset(form) == PresetFor(k)
    {
      form := ApplyMode(Obj(form), k);
    }

    /** A device card's click. */
    method ChooseTarget(d: Device)
      modifies this`form
      ensures form == old(form)["cameraTargetDevice" := Str(d.deviceCode)]
    {
      form := form["cameraTargetDevice" := Str(d.deviceCode)];
    }

    /** `handleSave`: the settings are stored and announced first, whatever the server then
        answers; the control call is made only for a target with a hex tail. `server`
        says whether the call came back OK (a failure only raises an alert). */
    method HandleSave(server: ControlRequest -> bool) returns (sent: Option<ControlRequest>, applied: bool)
      modifies this`form, this`saved, stores`settings, stores`settingsEvents
      ensures stores.settings == SavedData(old(form)) && stores.settingsEvents == old(stores.settingsEvents) + 1
      ensures form == SavedData(old(form)) && saved
      ensures sent == ControlCall(SavedData(old(form)))
      ensures applied <==> sent.Some? && server(sent.value)
    {
      var data := SavedData(form);
      stores.settings := data;
      stores.settingsEvents := stores.settingsEvents + 1;
      form := data;
      saved := true;
      sent := ControlCall(data);
      applied := sent.Some? && server(sent.value);
    }

    /** `load()`: the list is replaced unless both the server path and the fallback throw;
        loading ends either way. */
    method Load(reply: ListReply)
      modifies this`devices, this`loadingDevs
      ensures var l := InitialList(reply, stores.client, stores.thumbs, stores.meta);
        devices == if l.Some? then l.value else old(devices)
      ensures !loadingDevs
    {
      var api := ApiDevices(reply, SettingsScreen);
      if api.Some? {
        devices := MergeDevices(api.value, MergeEnv({}, false, stores.thumbs, stores.meta));
      } else {
        var locals := NormAll(stores.client, SettingsScreen);
        if locals.Some? {
          devices := locals.value;
        }
      }
      loadingDevs := false;
    }

    /** `onStorage`: only a change to this account's thumbnail, meta or client-device entry
        reloads the list (the client-devices event passes the client key). */
    method OnStorage(key: string, token: Js, reply: ListReply)
      modifies this`devices
      ensures var k := Namespace.KeysFor(token);
        var l := StorageList(reply, stores.client, stores.thumbs, stores.meta);
        devices == if key in {k.thumbs, k.meta, k.client} && l.Some? then l.value else old(devices)
    {
      var k := Namespace.KeysFor(token);
      if key == k.thumbs || key == k.meta || key == k.client {
        var api := if reply.FetchThrew? then Some([]) else ApiDevices(reply, SettingsScreen);
        var locals := NormAll(stores.client, SettingsScreen);
        if api.Some? && locals.Some? {
          devices := MergeDevices(locals.value + api.value, MergeEnv({}, false, stores.thumbs, stores.meta));
        }
      }
    }
  }
}
