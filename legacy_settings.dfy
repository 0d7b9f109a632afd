/** The earlier app's Settings screen: the operation mode guessed from an older record's
    refresh interval, the settings entry with its defaults, the save, the list of devices
    to pick the camera target from, and the snapshot preview of that target. */
module LegacySettings {
  import opened Text
  import opened JsValues
  import opened LocalStores
  import opened Modes

  /** `SNAPSHOT_PATH_DEFAULT` and `REFRESH_SEC_DEFAULT`. */
  const SnapshotPath: string := "/api/camera/snapshot"
  const RefreshSec: nat := 3

  const NeedTarget: string := "카메라 대상 기기를 먼저 선택하세요."
  const SnapshotFailed: string := "스냅샷을 불러오지 못했습니다. 경로/권한/CORS를 확인하세요."

  // ---------------------------------------------------------------------------------
  // guessMode
  // ---------------------------------------------------------------------------------

  /** The position of a mode in `ModeKeys`, from the lowest-power mode (0) up. */
  function Rank(k: string): (i: nat)
    requires k in ModeKeys
    ensures i < |ModeKeys| && ModeKeys[i] == k
  {
    if k == "ultra_low" then 0 else if k == "low" then 1 else if k == "normal" then 2
    else if k == "high" then 3 else 4
  }

  /** The thresholds of `guessMode` on a finite number of minutes. */
  function GuessFinite(m: real): (k: string)
    ensures k in ModeKeys
  {
    if m >= 90.0 then "ultra_low"
    else if m >= 45.0 then "low"
    else if m >= 22.0 then "normal"
    else if m >= 12.0 then "high"
    else "ultra_high"
  }

  /** `guessMode(legacyMinutes)`: `normal` for a value `Number` does not make finite. */
  function GuessMode(v: Js): (k: string)
    ensures k in ModeKeys
    ensures !ToNumber(v).Finite? ==> k == "normal"
    ensures ToNumber(v).Finite? ==> k == GuessFinite(ToNumber(v).r)
  {
    var n := ToNumber(v);
    if n.Finite? then GuessFinite(n.r) else "normal"
  }

  /** A longer refresh interval never guesses a more frequent mode. */
  lemma GuessMonotone(a: real, b: real)
    requires a <= b
    ensures Rank(GuessFinite(b)) <= Rank(GuessFinite(a))
  {
  }

  /** Each preset's own sensing interval is guessed back as that preset. */
  lemma GuessRecoversMode(k: string)
    requires k in ModeKeys
    ensures GuessFinite(PresetFor(k).sense as real) == k
  {
  }

  function Dist(a: real, b: real): real {
    if a >= b then a - b else b - a
  }

  /** The guessed mode senses at the preset interval nearest the old refresh interval,
      give or take the one minute by which the thresholds 22 and 12 fall short of the
      midpoints 22.5 and 12.5. */
  lemma GuessNearest(m: real, k: string)
    requires k in ModeKeys
    ensures Dist(m, PresetFor(GuessFinite(m)).sense as real) <= Dist(m, PresetFor(k).sense as real) + 1.0
  {
    var g := GuessFinite(m);
    assert PresetFor(g).sense == (if m >= 90.0 then 120 else if m >= 45.0 then 60
                                  else if m >= 22.0 then 30 else if m >= 12.0 then 15 else 10);
  }

  // ---------------------------------------------------------------------------------
  // The settings entry
  // ---------------------------------------------------------------------------------

  /** `DEFAULTS`. */
  function Defaults(): (r: Object)
    ensures Consistent(r) && ModeOf(r) == "normal"
    ensures Prop(r, "nightFlashMode") == Str("always_on") && Prop(r, "cameraTargetDevice") == Str("")
  {
    var p := PresetFor("normal");
    map["operationMode" := Str("normal"), "ccuIntervalMinutes" := Num(p.ccu as real),
        "sensingIntervalMinutes" := Num(p.sense as real), "captureIntervalMinutes" := Num(p.capture as real),
        "nightFlashMode" := Str("always_on"), "cameraTargetDevice" := Str("")]
  }

  /** A record in the older format: a refresh interval and no operation mode. */
  predicate NeedsMigration(parsed: Js) {
    Truthy(OptProp(parsed, "sensorRefreshMinutes")) && !Truthy(OptProp(parsed, "operationMode"))
  }

  /** `loadSettings()`: the defaults for a missing, empty or unparsable entry and for a
      stored `null` (reading its field throws); an older record gets the guessed mode with
      its preset intervals; any other record is laid over the defaults. */
  function LoadSettings(slot: Slot): (r: Object)
    ensures !slot.Json? || slot.value.Null? ==> r == Defaults()
    ensures slot.Json? && !slot.value.Null? && !NeedsMigration(slot.value) ==> r == Defaults() + Spread(slot.value)
    ensures slot.Json? && NeedsMigration(slot.value) ==>
              Consistent(r) && Prop(r, "operationMode") == Str(GuessMode(OptProp(slot.value, "sensorRefreshMinutes")))
    ensures slot.Json? && NeedsMigration(slot.value) ==>
              forall f :: f in Spread(slot.value) && f !in IntervalFields && f != "operationMode" ==>
                f in r && r[f] == Spread(slot.value)[f]
    ensures Defaults().Keys <= r.Keys
  {
    match slot
    case Json(v) =>
      if v.Null? then Defaults()
      else if NeedsMigration(v) then ApplyMode(Obj(Defaults() + Spread(v)), GuessMode(OptProp(v, "sensorRefreshMinutes")))
      else Defaults() + Spread(v)
    case _ => Defaults()
  }

  /** The record `handleSave` writes: the mode as the form has it, the intervals of its
      preset (`normal` for an unknown mode), `nightFlashMode || 'always_on'` and
      `cameraTargetDevice || ''`. */
  function SavedData(form: Object): (r: Object)
    ensures Prop(r, "operationMode") == Prop(form, "operationMode") && Consistent(r)
    ensures Truthy(Prop(r, "nightFlashMode"))
    ensures Truthy(Prop(form, "nightFlashMode")) ==> Prop(r, "nightFlashMode") == Prop(form, "nightFlashMode")
    ensures Truthy(Prop(form, "cameraTargetDevice")) ==> Prop(r, "cameraTargetDevice") == Prop(form, "cameraTargetDevice")
    ensures !Truthy(Prop(form, "cameraTargetDevice")) ==> Prop(r, "cameraTargetDevice") == Str("")
    ensures r.Keys == Defaults().Keys
  {
    var p := PresetFor(ModeOf(form));
    map["operationMode" := Prop(form, "operationMode"), "ccuIntervalMinutes" := Num(p.ccu as real),
        "sensingIntervalMinutes" := Num(p.sense as real), "captureIntervalMinutes" := Num(p.capture as real),
        "nightFlashMode" := Or(Prop(form, "nightFlashMode"), Str("always_on")),
        "cameraTargetDevice" := Or(Prop(form, "cameraTargetDevice"), Str(""))]
  }

  /** What a save stores is what the next visit loads. */
  lemma SaveLoadRoundTrip(form: Object)
    ensures LoadSettings(Json(Obj(SavedData(form)))) == SavedData(form)
  {
    var d := SavedData(form);
    assert !NeedsMigration(Obj(d));
    assert Defaults() + d == d;
  }

  /** An older record keeps its mode once migrated and saved: loading the saved record
      again shows the mode guessed the first time. */
  lemma MigrationSticks(v: Js)
    requires NeedsMigration(v)
    ensures var once := SavedData(LoadSettings(Json(v)));
            LoadSettings(Json(Obj(once))) == once
            && Prop(once, "operationMode") == Str(GuessMode(OptProp(v, "sensorRefreshMinutes")))
  {
    SaveLoadRoundTrip(LoadSettings(Json(v)));
  }

  // ---------------------------------------------------------------------------------
  // The preview
  // ---------------------------------------------------------------------------------

  /** `withDevice(url, deviceCode)`: the URL unchanged for an empty code; the encoded
      code in place of the first `{deviceCode}`; otherwise a `deviceCode` query parameter
      appended with `?` or, when the URL already has a query, `&`. */
  function WithDevice(url: string, code: Js): string {
    if !Truthy(code) then url
    else
      var enc := EncodeUriComponent(ToStr(code));
      if Includes(url, "{deviceCode}") then ReplaceFirst(url, "{deviceCode}", enc)
      else url + (if Includes(url, "?") then "&" else "?") + "deviceCode=" + enc
  }

  /** The `src` of the preview image: `${base}${sep}t=${cacheBust}`. */
  function PreviewSrc(path: string, code: Js, bust: nat): string {
    WithBust(WithDevice(path, code), bust)
  }

  /** `${base}${sep}t=${cacheBust}`, where `sep` is `&` when `base` has a query. */
  function WithBust(base: string, bust: nat): string {
    base + (if Includes(base, "?") then "&" else "?") + "t=" + NatToString(bust)
  }

  /** A pattern whose first character the string lacks does not occur in it. */
  lemma NotIncluded(s: string, pat: string)
    requires pat != [] && pat[0] !in s
    ensures !Includes(s, pat)
  {
    forall i | 0 <= i <= |s| ensures !OccursAt(s, pat, i) {
      if i + |pat| <= |s| {
        assert s[i..i + |pat|][0] == s[i];
      }
    }
    var r := IndexOf(s, pat);
  }

  lemma Included(s: string, i: nat, c: char)
    requires i < |s| && s[i] == c
    ensures Includes(s, [c])
  {
    assert s[i..i + 1] == [c];
    assert OccursAt(s, [c], i);
  }

  /** A plain path gets the code as its query's first parameter. */
  lemma PlainWithDevice(path: string, code: Js)
    requires '{' !in path && '?' !in path && Truthy(code)
    ensures WithDevice(path, code) == path + "?" + "deviceCode=" + EncodeUriComponent(ToStr(code))
  {
    NotIncluded(path, "{deviceCode}");
    NotIncluded(path, "?");
  }

  /** A query of two parameters without `&` in their values splits back into them. */
  lemma QuerySplit(enc: string, n: string)
    requires '&' !in enc && '&' !in n
    ensures Split("deviceCode=" + enc + "&t=" + n, '&') == ["deviceCode=" + enc, "t=" + n]
  {
    var a, b := "deviceCode=" + enc, "t=" + n;
    assert '&' !in a && '&' !in b;
    assert Join([a, b], '&') == "deviceCode=" + enc + "&t=" + n;
    SplitJoin([a, b], '&');
  }

  lemma DigitsNoAmp(n: nat)
    ensures '&' !in NatToString(n)
  {
    var d := NatToString(n);
  }

  lemma BustAfterQuery(base: string, i: nat, bust: nat)
    requires i < |base| && base[i] == '?'
    ensures WithBust(base, bust) == base + "&t=" + NatToString(bust)
  {
    Included(base, i, '?');
  }

  /** For a plain path (no placeholder, no query), the preview asks for the selected
      device by one `deviceCode` parameter followed by the cache-busting `t`: the query
      splits at `&` into exactly those two parameters, whatever the code holds. */
  lemma PreviewQuery(path: string, code: Js, bust: nat)
    requires '{' !in path && '?' !in path && Truthy(code)
    ensures var enc := EncodeUriComponent(ToStr(code));
            PreviewSrc(path, code, bust) == path + "?" + ("deviceCode=" + enc + "&t=" + NatToString(bust))
            && Split("deviceCode=" + enc + "&t=" + NatToString(bust), '&')
               == ["deviceCode=" + enc, "t=" + NatToString(bust)]
  {
    var enc := EncodeUriComponent(ToStr(code));
    var digits := NatToString(bust);
    PlainWithDevice(path, code);
    var base := path + "?" + "deviceCode=" + enc;
    assert base[|path|] == '?';
    BustAfterQuery(base, |path|, bust);
    assert base + "&t=" + digits == path + "?" + ("deviceCode=" + enc + "&t=" + digits);
    EncodeUriComponentSafe(ToStr(code));
    DigitsNoAmp(bust);
    QuerySplit(enc, digits);
  }

  /** The snapshot path carries neither a placeholder nor a query. */
  lemma SnapshotPathPlain()
    ensures '{' !in SnapshotPath && '?' !in SnapshotPath
  {
  }

  // ---------------------------------------------------------------------------------
  // The device list
  // ---------------------------------------------------------------------------------

  /** How `GET /api/devices` ends: the parsed body of an OK response, or a failure (no
      response, a status that is not OK, a body that does not parse). */
  datatype DevicesReply = Listed(body: Js) | ListFailed

  /** The list `load()` sets: the server's array (`[]` for any other body), else the
      stored `greeneye_devices` array (`[]` when it is missing, unreadable or not an
      array). */
  function DeviceChoices(reply: DevicesReply, local: Slot): (r: seq<Js>)
    ensures reply.Listed? && reply.body.Arr? ==> r == reply.body.items
    ensures reply.ListFailed? && local.Json? && local.value.Arr? ==> r == local.value.items
    ensures !(reply.Listed? && reply.body.Arr?) && !(reply.ListFailed? && local.Json? && local.value.Arr?) ==> r == []
  {
    match reply
    case Listed(body) => if body.Arr? then body.items else []
    case ListFailed => if local.Json? && local.value.Arr? then local.value.items else []
  }

  class SettingsPage {
    var form: Object
    var saved: bool
    /** `greeneye_settings`. */
    var stored: Slot
    var devices: seq<Js>
    var loadingDevs: bool
    var previewOn: bool
    var previewError: string
    /** Whether the refresh interval is running. */
    var timerOn: bool
    var cacheBust: nat

    /** The first render and its effects' synchronous part: the form as loaded. */
    constructor (stored: Slot, now: nat)
      ensures form == LoadSettings(stored) && this.stored == stored
      ensures !saved && devices == [] && loadingDevs && !previewOn && previewError == "" && !timerOn
      ensures cacheBust == now
    {
      form := LoadSettings(stored);
      this.stored := stored;
      saved, devices, loadingDevs := false, [], true;
      previewOn, previewError, timerOn, cacheBust := false, "", false, now;
    }

    /** `load()` ending; `alive` is false once the screen has gone, and then nothing changes. */
    method LoadDevices(reply: DevicesReply, local: Slot, alive: bool)
      modifies this`devices, this`loadingDevs
      ensures alive ==> devices == DeviceChoices(reply, local) && !loadingDevs
      ensures !alive ==> devices == old(devices) && loadingDevs == old(loadingDevs)
    {
      if alive {
        devices := DeviceChoices(reply, local);
        loadingDevs := false;
      }
    }

    /** `onChange`: `{...s, [name]: value}`. */
    method OnChange(name: string, value: Js)
      modifies this`form
      ensures form == old(form)[name := value]
    {
      form := form[name := value];
    }

    /** A mode card's click: `applyMode(k)`. */
    method ChooseMode(k: string)
      modifies this`form
      ensures form == ApplyMode(Obj(old(form)), k)
      ensures Consistent(form) && Prop(form, "operationMode") == Str(k)
    {
      form := ApplyMode(Obj(form), k);
    }

    /** A device card's click. */
    method ChooseTarget(d: Js)
      modifies this`form
      ensures form == old(form)["cameraTargetDevice" := OptProp(d, "deviceCode")]
    {
      form := form["cameraTargetDevice" := OptProp(d, "deviceCode")];
    }

    /** `handleSave`: the record is stored, becomes the form, and the saved notice shows. */
    method HandleSave()
      modifies this`stored, this`form, this`saved
      ensures stored == Json(Obj(SavedData(old(form)))) && form == SavedData(old(form)) && saved
      ensures LoadSettings(stored) == form
    {
      var data := SavedData(form);
      stored := Json(Obj(data));
      form := data;
      saved := true;
      SaveLoadRoundTrip(old(form));
    }

    /** The notice's timeout, 1.5 seconds after a save. */
    method SavedTimeout()
      modifies this`saved
      ensures !saved
    {
      saved := false;
    }

    /** `startPreview`: without a camera target only the error is set; otherwise the
        preview turns on and the refresh interval is (re)started. */
    method StartPreview()
      modifies this`previewError, this`previewOn, this`timerOn
      ensures !Truthy(Prop(form, "cameraTargetDevice")) ==>
                previewError == NeedTarget && previewOn == old(previewOn) && timerOn == old(timerOn)
      ensures Truthy(Prop(form, "cameraTargetDevice")) ==> previewError == "" && previewOn && timerOn
    {
      previewError := "";
      if !Truthy(Prop(form, "cameraTargetDevice")) {
        previewError := NeedTarget;
        return;
      }
      previewOn := true;
      timerOn := true;
    }

    /** `stopPreview`. */
    method StopPreview()
      modifies this`previewError, this`previewOn, this`timerOn
      ensures !previewOn && previewError == "" && !timerOn
    {
      previewOn := false;
      previewError := "";
      timerOn := false;
    }

    /** A tick of the refresh interval, every `RefreshSec` seconds while it runs. */
    method Tick(now: nat)
      requires timerOn
      modifies this`cacheBust
      ensures cacheBust == now
    {
      cacheBust := now;
    }

    /** The image's `onError`. */
    method OnSnapshotError()
      modifies this`previewError
      ensures previewError == SnapshotFailed
    {
      previewError := SnapshotFailed;
    }

    /** The preview image's address while the preview is on. */
    function Src(): string
      reads this
    {
      PreviewSrc(SnapshotPath, Prop(form, "cameraTargetDevice"), cacheBust)
    }
  }
}
