/** The current sensor panel: the sensing period read from the saved settings, the
    parser that accepts both the `values.{field: {value, status, range}}` payload and
    the older flat one, the care advice built from the statuses, the delay that aligns
    refreshes to period boundaries, and the fallback after a failed load. */
module SensorInfo {
  import opened Text
  import opened JsValues
  import opened LocalStores
  import opened Modes

  /* ----- sensing period ----- */

  const DefaultSensingMin: real := 30.0

  function MaxReal(a: real, b: real): real { if a >= b then a else b }

  /** `JSON.parse(localStorage.getItem(LS_SETTINGS) || '{}')`: a missing or empty entry
      parses as `{}`; `None` when the parse throws. */
  function SettingsRecord(slot: Slot): Option<Js> {
    match slot
    case Missing => Some(Obj(map[]))
    case EmptyText => Some(Obj(map[]))
    case Garbage => None
    case Json(v) => Some(v)
  }

  /** `readSensingMs()`: a positive finite `sensingIntervalMinutes` in minutes, else 30,
      converted to milliseconds and floored at 5000. */
  function ReadSensingMs(slot: Slot): (ms: real)
    ensures ms >= 5000.0
    ensures SettingsRecord(slot).None? ==> ms == 1800000.0
  {
    match SettingsRecord(slot)
    case None => MaxReal(5000.0, DefaultSensingMin * 60.0 * 1000.0)
    case Some(s) =>
      var m := ToNumber(OptProp(s, "sensingIntervalMinutes"));
      var minutes := if m.Finite? && m.r > 0.0 then m.r else DefaultSensingMin;
      MaxReal(5000.0, minutes * 60.0 * 1000.0)
  }

  /** A settings record whose intervals follow its mode, as the settings screen saves it,
      makes the panel refresh every `sense` minutes of that mode's preset. */
  lemma SensingFollowsSavedMode(data: Object)
    requires Consistent(data)
    ensures ReadSensingMs(Json(Obj(data))) == PresetFor(ModeOf(data)).sense as real * 60000.0
  {
    var p := PresetFor(ModeOf(data));
    assert p.sense >= 10 by {
      assert p.sense in {120, 60, 30, 15, 10};
    }
    assert ToNumber(OptProp(Obj(data), "sensingIntervalMinutes")) == Finite(p.sense as real);
  }

  /** Without a usable setting (nothing stored, no positive finite number, or unparsable
      text) the period is the 30-minute default. */
  lemma SensingDefault(slot: Slot)
    requires SettingsRecord(slot).Some? ==>
      var m := ToNumber(OptProp(SettingsRecord(slot).value, "sensingIntervalMinutes"));
      !(m.Finite? && m.r > 0.0)
    ensures ReadSensingMs(slot) == 1800000.0
  {
  }

  /* ----- payload parsing ----- */

  datatype Env = Env(temp: real, humi: real, lux: real)
  datatype Soil = Soil(temp: real, moisture: real, ec: real)

  /** What the panel shows: the readings, a status and a range per field, and the notes. */
  datatype Snapshot = Snapshot(env: Env, soil: Soil, battery: real, status: Object, ranges: Object,
                               plantType: Js, timestamp: Js, aiNote: Js)

  /** The seven reported fields. */
  const Fields: set<string> :=
    {"temperature", "humidity", "light_lux", "soil_temp", "soil_moisture", "soil_ec", "battery"}

  /** `toNum(v)`: `Number(v)` when finite, else 0. */
  function ToNum(v: Js): real {
    match ToNumber(v)
    case Finite(r) => r
    case _ => 0.0
  }

  /** `toNum(v.<k>?.value)`. */
  function Reading(values: Js, k: string): real {
    ToNum(OptProp(OptProp(values, k), "value"))
  }

  /** The note: `ai_diagnosis` when it is a string, else its `comment ?? note ?? ''`. */
  function AiNote(j: Js): Js {
    var a := OptProp(j, "ai_diagnosis");
    if a.Str? then a else Coalesce(OptProp(a, "comment"), Coalesce(OptProp(a, "note"), Str("")))
  }

  function UnknownStatus(): Object { map k | k in Fields :: Str("unknown") }
  function NullRanges(): Object { map k | k in Fields :: Null }

  /** The test that picks the current payload shape: `j && j.values && typeof j.values === 'object'`. */
  predicate HasValues(j: Js) {
    var v := OptProp(j, "values");
    Truthy(j) && Truthy(v) && (v.Obj? || v.Arr?)
  }

  /** `v.<k>?.status || 'unknown'` for each field. */
  function Statuses(v: Js): (m: Object)
    ensures m.Keys == Fields && forall k :: k in m ==> Truthy(m[k])
  {
    map k | k in Fields :: Or(OptProp(OptProp(v, k), "status"), Str("unknown"))
  }

  /** `v.<k>?.range || null` for each field. */
  function Ranges(v: Js): (m: Object)
    ensures m.Keys == Fields && forall k :: k in m ==> Truthy(m[k]) || m[k] == Null
  {
    map k | k in Fields :: Or(OptProp(OptProp(v, k), "range"), Null)
  }

  /** The current payload: each field's value, status and range under `values`. */
  function Current(j: Js): (s: Snapshot)
    ensures WellFormed(s)
  {
    var v := OptProp(j, "values");
    Snapshot(
      Env(Reading(v, "temperature"), Reading(v, "humidity"), Reading(v, "light_lux")),
      Soil(Reading(v, "soil_temp"), Reading(v, "soil_moisture"), Reading(v, "soil_ec")),
      Reading(v, "battery"), Statuses(v), Ranges(v),
      Or(OptProp(j, "plant_type"), Str("")), Or(OptProp(j, "timestamp"), Null), AiNote(j))
  }

  /** `toNum(j.a ?? j.b ?? 0)`: the first name that is present, else 0. */
  function Alias(j: Js, names: seq<string>): real {
    ToNum(AliasValue(j, names))
  }

  function AliasValue(j: Js, names: seq<string>): Js {
    if names == [] then Num(0.0) else Coalesce(OptProp(j, names[0]), AliasValue(j, names[1..]))
  }

  /** A number under the first name that is present is the reading. */
  lemma AliasNum(o: Object, names: seq<string>, i: nat, x: real)
    requires i < |names| && names[i] in o && o[names[i]] == Num(x)
    requires forall m :: 0 <= m < i ==> names[m] !in o
    ensures Alias(Obj(o), names) == x
  {
    if i == 0 {
      assert AliasValue(Obj(o), names) == Num(x);
    } else {
      assert AliasValue(Obj(o), names) == AliasValue(Obj(o), names[1..]);
      AliasNum(o, names[1..], i - 1, x);
    }
  }

  /** The flat payload: each reading under its name or its older alias, defaulting to 0;
      every status `unknown` and every range `null`. */
  function Older(j: Js): (s: Snapshot)
    ensures WellFormed(s) && s.status == UnknownStatus() && s.ranges == NullRanges()
  {
    Snapshot(
      Env(Alias(j, ["temperature", "amb_temp"]), Alias(j, ["humidity", "amb_humi"]), Alias(j, ["light_lux", "amb_light"])),
      Soil(Alias(j, ["soil_temp"]), Alias(j, ["soil_moisture", "soil_humi"]), Alias(j, ["soil_ec"])),
      Alias(j, ["battery", "bat_level"]),
      UnknownStatus(), NullRanges(),
      Or(OptProp(j, "plant_type"), Str("")), Or(OptProp(j, "timestamp"), Null), AiNote(j))
  }

  /** `parseSensorPayload(j = {})`. An absent argument parses as `{}`; `null` makes the
      flat branch read a property of `null`, which throws (`None`). */
  function Parse(arg: Js): (r: Option<Snapshot>)
    ensures r.None? <==> arg.Null?
    ensures r.Some? ==> WellFormed(r.value)
    ensures r.Some? && !HasValues(arg) ==> r.value.status == UnknownStatus() && r.value.ranges == NullRanges()
  {
    var j := if arg.Undefined? then Obj(map[]) else arg;
    if HasValues(j) then Some(Current(j))
    else if j.Null? then None
    else Some(Older(j))
  }

  /** What every parse yields: a truthy status for each field and nothing else, a range
      that is set or `null`, and the notes' defaults. */
  predicate WellFormed(s: Snapshot) {
    s.status.Keys == Fields && s.ranges.Keys == Fields
    && (forall k :: k in s.status ==> Truthy(s.status[k]))
    && (forall k :: k in s.ranges ==> Truthy(s.ranges[k]) || s.ranges[k] == Null)
    && (Truthy(s.plantType) || s.plantType == Str(""))
    && (Truthy(s.timestamp) || s.timestamp == Null)
    && !Nullish(s.aiNote)
  }

  /** The reading a snapshot holds for a field. */
  function ReadingOf(s: Snapshot, k: string): real {
    if k == "temperature" then s.env.temp
    else if k == "humidity" then s.env.humi
    else if k == "light_lux" then s.env.lux
    else if k == "soil_temp" then s.soil.temp
    else if k == "soil_moisture" then s.soil.moisture
    else if k == "soil_ec" then s.soil.ec
    else s.battery
  }

  /** The `values` object of the current payload for a snapshot. */
  function ValuesOf(s: Snapshot): Js
    requires WellFormed(s)
  {
    Obj(map k | k in Fields :: Obj(map["value" := Num(ReadingOf(s, k)), "status" := s.status[k], "range" := s.ranges[k]]))
  }

  /** The current payload a server sends for a snapshot. */
  function Payload(s: Snapshot): Js
    requires WellFormed(s)
  {
    Obj(map["values" := ValuesOf(s), "plant_type" := s.plantType, "timestamp" := s.timestamp,
            "ai_diagnosis" := if s.aiNote.Str? then s.aiNote else Obj(map["comment" := s.aiNote])])
  }

  lemma StatusesRoundTrip(s: Snapshot)
    requires WellFormed(s)
    ensures Statuses(ValuesOf(s)) == s.status
  {
    var v := ValuesOf(s);
    forall k | k in Fields
      ensures OptProp(OptProp(v, k), "status") == s.status[k]
    {
    }
  }

  lemma RangesRoundTrip(s: Snapshot)
    requires WellFormed(s)
    ensures Ranges(ValuesOf(s)) == s.ranges
  {
    var v := ValuesOf(s);
    forall k | k in Fields
      ensures OptProp(OptProp(v, k), "range") == s.ranges[k]
    {
    }
  }

  lemma ReadingRoundTrip(s: Snapshot, k: string)
    requires WellFormed(s) && k in Fields
    ensures Reading(ValuesOf(s), k) == ReadingOf(s, k)
  {
  }

  /** Parsing the payload of a snapshot gives that snapshot back: nothing the current shape
      carries is lost or altered. */
  lemma ParsePayload(s: Snapshot)
    requires WellFormed(s)
    ensures Parse(Payload(s)) == Some(s)
  {
    PayloadParts(s);
    StatusesRoundTrip(s);
    RangesRoundTrip(s);
    ReadingRoundTrip(s, "temperature");
    ReadingRoundTrip(s, "humidity");
    ReadingRoundTrip(s, "light_lux");
    ReadingRoundTrip(s, "soil_temp");
    ReadingRoundTrip(s, "soil_moisture");
    ReadingRoundTrip(s, "soil_ec");
    ReadingRoundTrip(s, "battery");
  }

  lemma PayloadParts(s: Snapshot)
    requires WellFormed(s)
    ensures var j := Payload(s);
      HasValues(j) && OptProp(j, "values") == ValuesOf(s) && AiNote(j) == s.aiNote
      && Or(OptProp(j, "plant_type"), Str("")) == s.plantType && Or(OptProp(j, "timestamp"), Null) == s.timestamp
  {
  }

  /** The flat record of numbers, under the current names or the older firmware's
      (`amb_temp`, `amb_humi`, `amb_light`, `soil_humi`, `bat_level`). */
  function Flat(e: Env, s: Soil, battery: real, older: bool): Js {
    if older then
      Obj(map["amb_temp" := Num(e.temp), "amb_humi" := Num(e.humi), "amb_light" := Num(e.lux),
              "soil_temp" := Num(s.temp), "soil_humi" := Num(s.moisture), "soil_ec" := Num(s.ec),
              "bat_level" := Num(battery)])
    else
      Obj(map["temperature" := Num(e.temp), "humidity" := Num(e.humi), "light_lux" := Num(e.lux),
              "soil_temp" := Num(s.temp), "soil_moisture" := Num(s.moisture), "soil_ec" := Num(s.ec),
              "battery" := Num(battery)])
  }

  /** The readings of a flat record come back unchanged. */
  lemma FlatReadings(e: Env, s: Soil, battery: real, older: bool)
    ensures var r := Older(Flat(e, s, battery, older)); r.env == e && r.soil == s && r.battery == battery
  {
    var o := Flat(e, s, battery, older).fields;
    FlatEnv(e, s, battery, older);
    AliasNum(o, ["soil_temp"], 0, s.temp);
    AliasNum(o, ["soil_ec"], 0, s.ec);
    if older {
      AliasNum(o, ["soil_moisture", "soil_humi"], 1, s.moisture);
      AliasNum(o, ["battery", "bat_level"], 1, battery);
    } else {
      AliasNum(o, ["soil_moisture", "soil_humi"], 0, s.moisture);
      AliasNum(o, ["battery", "bat_level"], 0, battery);
    }
  }

  lemma FlatEnv(e: Env, s: Soil, battery: real, older: bool)
    ensures Older(Flat(e, s, battery, older)).env == e
  {
    var o := Flat(e, s, battery, older).fields;
    if older {
      AliasNum(o, ["temperature", "amb_temp"], 1, e.temp);
      AliasNum(o, ["humidity", "amb_humi"], 1, e.humi);
      AliasNum(o, ["light_lux", "amb_light"], 1, e.lux);
    } else {
      AliasNum(o, ["temperature", "amb_temp"], 0, e.temp);
      AliasNum(o, ["humidity", "amb_humi"], 0, e.humi);
      AliasNum(o, ["light_lux", "amb_light"], 0, e.lux);
    }
  }

  /** A flat record carries no notes. */
  lemma FlatNotes(e: Env, s: Soil, battery: real, older: bool)
    ensures var j := Flat(e, s, battery, older);
      OptProp(j, "values") == Undefined && OptProp(j, "ai_diagnosis") == Undefined
      && OptProp(j, "plant_type") == Undefined && OptProp(j, "timestamp") == Undefined
  {
  }

  /** A flat record parses to its numbers under either set of names, with every status
      `unknown`, no ranges and empty notes. */
  lemma ParseFlat(e: Env, s: Soil, battery: real, older: bool)
    ensures Parse(Flat(e, s, battery, older))
      == Some(Snapshot(e, s, battery, UnknownStatus(), NullRanges(), Str(""), Null, Str("")))
  {
    FlatReadings(e, s, battery, older);
    FlatNotes(e, s, battery, older);
  }

  /** The panel's blank state is what an empty payload parses to. */
  function Blank(): Snapshot {
    Snapshot(Env(0.0, 0.0, 0.0), Soil(0.0, 0.0, 0.0), 0.0, UnknownStatus(), NullRanges(), Str(""), Null, Str(""))
  }

  lemma BlankIsEmptyParse()
    ensures Parse(Obj(map[])) == Some(Blank()) && Parse(Undefined) == Some(Blank())
  {
    var j := Obj(map[]);
    assert !HasValues(j);
    assert Older(j) == Blank();
  }

  /** `statusLabel(s)`: strict comparison against the three statuses. */
  function StatusLabel(s: Js): (r: string)
    ensures r != "불명" <==> s == Str("low") || s == Str("middle") || s == Str("high")
  {
    if s == Str("low") then "낮음"
    else if s == Str("middle") then "정상"
    else if s == Str("high") then "높음"
    else "불명"
  }

  /** The three statuses get three different labels. */
  lemma StatusLabelsDistinct(s: Js, t: Js)
    requires StatusLabel(s) == StatusLabel(t) != "불명"
    ensures s == t
  {
  }

  /* ----- advice ----- */

  datatype Action = Action(slug: string, text: string, pr: nat)

  /** One `if (...) push(slug, text, pr)` line: it fires when one of `on` has `level`. */
  datatype Rule = Rule(act: Action, on: seq<string>, level: string)

  /** The rules in the order the code tests them. */
  const Water := Rule(Action("water", "물을 주세요 (소량 관수)", 0), ["soil_moisture"], "low")
  const Drain := Rule(Action("drain", "배수하고 물주기 간격 늘리기", 0), ["soil_moisture"], "high")
  const Flush := Rule(Action("flush", "맑은 물로 세척 관수", 0), ["soil_ec"], "high")
  const Fert := Rule(Action("fert", "희석 비료 소량 보충", 1), ["soil_ec"], "low")
  const Cool := Rule(Action("cool", "환기·그늘로 온도 낮추기", 1), ["temperature", "soil_temp"], "high")
  const Warm := Rule(Action("warm", "보온해 온도 올리기", 1), ["temperature", "soil_temp"], "low")
  const Charge := Rule(Action("battery", "배터리 충전", 1), ["battery"], "low")
  const LightUp := Rule(Action("light+", "창가로 옮겨 광량 늘리기", 2), ["light_lux"], "low")
  const LightDown := Rule(Action("light-", "차광으로 광량 줄이기", 2), ["light_lux"], "high")
  const HumidUp := Rule(Action("humid+", "분무/가습으로 습도 올리기", 3), ["humidity"], "low")
  const HumidDown := Rule(Action("humid-", "환기로 습도 낮추기", 3), ["humidity"], "high")

  /** The rules in the order the code tests them. */
  const Rules: seq<Rule> := [Water, Drain, Flush, Fert, Cool, Warm, Charge, LightUp, LightDown, HumidUp, HumidDown]

  /** `s(k)`: `String(status?.[k] || '').toLowerCase()`. */
  function Level(status: Js, k: string): string {
    Lower(ToStr(Or(OptProp(status, k), Str(""))))
  }

  predicate Fires(status: Js, r: Rule) {
    exists k :: k in r.on && Level(status, k) == r.level
  }

  /** The actions pushed, in push order (`push` skips an empty text). */
  function Pushed(rules: seq<Rule>, status: Js): (acts: seq<Action>)
    ensures forall a :: a in acts ==> exists r :: r in rules && r.act == a
  {
    if rules == [] then []
    else
      var rest := Pushed(rules[1..], status);
      if Fires(status, rules[0]) && rules[0].act.text != "" then [rules[0].act] + rest else rest
  }

  function Candidates(status: Js): seq<Action> { Pushed(Rules, status) }

  /** `a.pr` never decreases along the sequence. */
  predicate ByPriority(acts: seq<Action>) {
    forall i, j :: 0 <= i < j < |acts| ==> acts[i].pr <= acts[j].pr
  }

  predicate DistinctSlugs(acts: seq<Action>) {
    forall i, j :: 0 <= i < j < |acts| ==> acts[i].slug != acts[j].slug
  }

  function Slugs(acts: seq<Action>): set<string> {
    set a | a in acts :: a.slug
  }

  /** The actions of a given priority, in order. */
  function Bucket(acts: seq<Action>, p: nat): seq<Action> {
    if acts == [] then []
    else (if acts[0].pr == p then [acts[0]] else []) + Bucket(acts[1..], p)
  }

  /** `acts.sort((a, b) => a.pr - b.pr)`: `Array.prototype.sort` is stable, which an
      insertion sort that places each action before the first one of equal or higher
      priority reproduces. */
  function Insert(a: Action, s: seq<Action>): (r: seq<Action>)
    ensures multiset(r) == multiset(s) + multiset{a}
    ensures forall x :: x in r ==> x == a || x in s
  {
    if s == [] || a.pr <= s[0].pr then [a] + s
    else
      assert s == [s[0]] + s[1..];
      [s[0]] + Insert(a, s[1..])
  }

  function SortByPr(acts: seq<Action>): (r: seq<Action>)
    ensures multiset(r) == multiset(acts)
  {
    if acts == [] then []
    else
      assert acts == [acts[0]] + acts[1..];
      Insert(acts[0], SortByPr(acts[1..]))
  }

  /** Putting an action in front of ordered ones of no lower priority keeps them ordered. */
  lemma ConsOrdered(x: Action, t: seq<Action>)
    requires ByPriority(t) && forall y :: y in t ==> x.pr <= y.pr
    ensures ByPriority([x] + t)
  {
    forall i, j | 0 <= i < j < |[x] + t|
      ensures ([x] + t)[i].pr <= ([x] + t)[j].pr
    {
      if i == 0 {
        assert ([x] + t)[j] == t[j - 1];
      } else {
        assert ([x] + t)[i] == t[i - 1] && ([x] + t)[j] == t[j - 1];
      }
    }
  }

  lemma {:induction false} InsertOrdered(a: Action, s: seq<Action>)
    requires ByPriority(s)
    ensures ByPriority(Insert(a, s))
  {
    if s == [] || a.pr <= s[0].pr {
      assert forall y :: y in s ==> s[0].pr <= y.pr;
      ConsOrdered(a, s);
    } else {
      assert ByPriority(s[1..]);
      InsertOrdered(a, s[1..]);
      assert forall y :: y in s[1..] ==> s[0].pr <= y.pr;
      ConsOrdered(s[0], Insert(a, s[1..]));
    }
  }

  /** The sort orders the actions by priority. */
  lemma {:induction false} SortOrdered(acts: seq<Action>)
    ensures ByPriority(SortByPr(acts))
  {
    if acts != [] {
      SortOrdered(acts[1..]);
      InsertOrdered(acts[0], SortByPr(acts[1..]));
    }
  }

  lemma {:induction false} InsertBucket(a: Action, s: seq<Action>, p: nat)
    ensures Bucket(Insert(a, s), p) == (if a.pr == p then [a] else []) + Bucket(s, p)
  {
    if s != [] && a.pr > s[0].pr {
      InsertBucket(a, s[1..], p);
      var t := Insert(a, s[1..]);
      assert Insert(a, s) == [s[0]] + t;
      assert ([s[0]] + t)[1..] == t;
    }
  }

  /** The sort is stable: the actions of each priority keep their relative order. */
  lemma {:induction false} SortStable(acts: seq<Action>, p: nat)
    ensures Bucket(SortByPr(acts), p) == Bucket(acts, p)
  {
    if acts != [] {
      SortStable(acts[1..], p);
      InsertBucket(acts[0], SortByPr(acts[1..]), p);
    }
  }

  /** Actions already in priority order are left as they are. */
  lemma {:induction false} SortOfOrdered(acts: seq<Action>)
    requires ByPriority(acts)
    ensures SortByPr(acts) == acts
  {
    if acts != [] {
      assert ByPriority(acts[1..]);
      SortOfOrdered(acts[1..]);
      assert acts == [acts[0]] + acts[1..];
    }
  }

  /** The `seen` pass from a given `seen` set: the first action of each slug not yet seen. */
  function DedupeFrom(acts: seq<Action>, seen: set<string>): (r: seq<Action>)
    ensures DistinctSlugs(r)
    ensures forall a :: a in r ==> a in acts && a.slug !in seen
    ensures Slugs(acts) <= Slugs(r) + seen
  {
    if acts == [] then []
    else if acts[0].slug in seen then DedupeFrom(acts[1..], seen)
    else
      var rest := DedupeFrom(acts[1..], seen + {acts[0].slug});
      assert Slugs(acts) == {acts[0].slug} + Slugs(acts[1..]) by {
        assert acts == [acts[0]] + acts[1..];
      }
      [acts[0]] + rest
  }

  /** One step of the pass over `acts[i..]`. */
  lemma DedupeStep(acts: seq<Action>, i: nat, seen: set<string>)
    requires i < |acts|
    ensures DedupeFrom(acts[i..], seen) ==
      if acts[i].slug in seen then DedupeFrom(acts[i + 1..], seen)
      else [acts[i]] + DedupeFrom(acts[i + 1..], seen + {acts[i].slug})
  {
    assert acts[i..][1..] == acts[i + 1..];
  }

  /** The loop of `Dedupe` keeps its invariant across one action. */
  lemma DedupeAdvance(acts: seq<Action>, i: nat, seen: set<string>, uniq: seq<Action>)
    requires i < |acts| && DedupeFrom(acts, {}) == uniq + DedupeFrom(acts[i..], seen)
    ensures acts[i].slug in seen ==> DedupeFrom(acts, {}) == uniq + DedupeFrom(acts[i + 1..], seen)
    ensures acts[i].slug !in seen ==>
      DedupeFrom(acts, {}) == (uniq + [acts[i]]) + DedupeFrom(acts[i + 1..], seen + {acts[i].slug})
  {
    DedupeStep(acts, i, seen);
    if acts[i].slug !in seen {
      ConsAssoc(uniq, acts[i], DedupeFrom(acts[i + 1..], seen + {acts[i].slug}));
    }
  }

  lemma ConsAssoc<T>(u: seq<T>, a: T, rest: seq<T>)
    ensures u + ([a] + rest) == (u + [a]) + rest
  {
  }

  /** With no repeated slug and none seen, the pass keeps everything. */
  lemma {:induction false} DedupeKeepsDistinct(acts: seq<Action>, seen: set<string>)
    requires DistinctSlugs(acts) && Slugs(acts) !! seen
    ensures DedupeFrom(acts, seen) == acts
  {
    if acts != [] {
      var s' := seen + {acts[0].slug};
      assert Slugs(acts[1..]) !! s' by {
        forall a | a in acts[1..]
          ensures a.slug != acts[0].slug && a.slug !in seen
        {
          var i :| 0 <= i < |acts[1..]| && acts[1..][i] == a;
          assert acts[i + 1] == a;
        }
      }
      assert DistinctSlugs(acts[1..]);
      DedupeKeepsDistinct(acts[1..], s');
      assert acts == [acts[0]] + acts[1..];
    }
  }

  lemma {:induction false} PushedOrdered(rules: seq<Rule>, status: Js)
    requires forall i, j :: 0 <= i < j < |rules| ==> rules[i].act.pr <= rules[j].act.pr
    ensures ByPriority(Pushed(rules, status))
  {
    if rules != [] {
      PushedOrdered(rules[1..], status);
      var rest := Pushed(rules[1..], status);
      forall a | a in rest
        ensures rules[0].act.pr <= a.pr
      {
        var r :| r in rules[1..] && r.act == a;
        var i :| 0 <= i < |rules[1..]| && rules[1..][i] == r;
        assert rules[i + 1] == r;
      }
      if Fires(status, rules[0]) && rules[0].act.text != "" {
        ConsOrdered(rules[0].act, rest);
      }
    }
  }

  lemma {:induction false} PushedDistinct(rules: seq<Rule>, status: Js)
    requires forall i, j :: 0 <= i < j < |rules| ==> rules[i].act.slug != rules[j].act.slug
    ensures DistinctSlugs(Pushed(rules, status))
  {
    if rules != [] {
      PushedDistinct(rules[1..], status);
      var rest := Pushed(rules[1..], status);
      forall a | a in rest
        ensures rules[0].act.slug != a.slug
      {
        var r :| r in rules[1..] && r.act == a;
        var i :| 0 <= i < |rules[1..]| && rules[1..][i] == r;
        assert rules[i + 1] == r;
      }
      if Fires(status, rules[0]) && rules[0].act.text != "" {
        var t := [rules[0].act] + rest;
        forall i, j | 0 <= i < j < |t|
          ensures t[i].slug != t[j].slug
        {
          assert t[j] == rest[j - 1];
          if i > 0 {
            assert t[i] == rest[i - 1];
          }
        }
      }
    }
  }

  function Prs(rules: seq<Rule>): seq<nat> {
    seq(|rules|, i requires 0 <= i < |rules| => rules[i].act.pr)
  }

  function SlugList(rules: seq<Rule>): seq<string> {
    seq(|rules|, i requires 0 <= i < |rules| => rules[i].act.slug)
  }

  lemma RulesOrdered()
    ensures forall i, j :: 0 <= i < j < |Rules| ==> Rules[i].act.pr <= Rules[j].act.pr
  {
    var prs := Prs(Rules);
    assert prs == [0, 0, 0, 1, 1, 1, 1, 2, 2, 3, 3];
  }

  lemma RulesDistinct()
    ensures forall i, j :: 0 <= i < j < |Rules| ==> Rules[i].act.slug != Rules[j].act.slug
  {
    RuleSlugs();
    SlugsDistinct(SlugList(Rules));
  }

  lemma RuleSlugs()
    ensures SlugList(Rules) == ["water", "drain", "flush", "fert", "cool", "warm", "battery", "light+", "light-", "humid+", "humid-"]
  {
  }

  lemma SlugsDistinct(slugs: seq<string>)
    requires slugs == ["water", "drain", "flush", "fert", "cool", "warm", "battery", "light+", "light-", "humid+", "humid-"]
    ensures forall i, j :: 0 <= i < j < |slugs| ==> slugs[i] != slugs[j]
  {
    var keys := seq(|slugs|, i requires 0 <= i < |slugs| => (slugs[i][0], |slugs[i]|, slugs[i][|slugs[i]| - 1]));
    assert keys == [('w', 5, 'r'), ('d', 5, 'n'), ('f', 5, 'h'), ('f', 4, 't'), ('c', 4, 'l'), ('w', 4, 'm'),
                    ('b', 7, 'y'), ('l', 6, '+'), ('l', 6, '-'), ('h', 6, '+'), ('h', 6, '-')];
    assert forall i, j :: 0 <= i < j < |keys| ==> keys[i] != keys[j];
  }

  /** The advice is exactly the rules that fire, in rule order: the rules already come in
      priority order with distinct slugs, so neither the sort nor the `seen` pass changes
      anything. */
  lemma AdviceIsFiredRules(status: Js)
    ensures DedupeFrom(SortByPr(Candidates(status)), {}) == Candidates(status)
    ensures ByPriority(Candidates(status)) && DistinctSlugs(Candidates(status))
  {
    RulesOrdered();
    RulesDistinct();
    PushedOrdered(Rules, status);
    PushedDistinct(Rules, status);
    SortOfOrdered(Candidates(status));
    DedupeKeepsDistinct(Candidates(status), {});
  }

  function Texts(acts: seq<Action>): (t: seq<string>)
    ensures |t| == |acts| && forall i :: 0 <= i < |acts| ==> t[i] == acts[i].text
  {
    seq(|acts|, i requires 0 <= i < |acts| => acts[i].text)
  }

  /** The `seen` loop of `buildActionsList`: keep an action when its slug is new. */
  method Dedupe(acts: seq<Action>) returns (uniq: seq<Action>)
    ensures uniq == DedupeFrom(acts, {})
  {
    uniq := [];
    var seen: set<string> := {};
    var i := 0;
    assert acts[0..] == acts;
    while i < |acts|
      invariant 0 <= i <= |acts|
      invariant DedupeFrom(acts, {}) == uniq + DedupeFrom(acts[i..], seen)
    {
      var a := acts[i];
      DedupeAdvance(acts, i, seen, uniq);
      if a.slug !in seen {
        seen := seen + {a.slug};
        uniq := uniq + [a];
      }
      i := i + 1;
    }
    assert acts[i..] == [];
  }

  /** `buildActionsList(status)`: the pushes, the stable sort by priority, the `seen` pass,
      then the texts. */
  method BuildActionsList(status: Js) returns (texts: seq<string>)
    ensures texts == Texts(DedupeFrom(SortByPr(Candidates(status)), {}))
    ensures texts == Texts(Candidates(status))
  {
    var acts := SortByPr(Candidates(status));
    var uniq := Dedupe(acts);
    texts := Texts(uniq);
    AdviceIsFiredRules(status);
  }

  lemma {:induction false} PushedEmpty(rules: seq<Rule>, status: Js)
    requires forall r :: r in rules ==> r.act.text != ""
    ensures Pushed(rules, status) == [] <==> forall r :: r in rules ==> !Fires(status, r)
  {
    if rules != [] {
      PushedEmpty(rules[1..], status);
      assert forall r :: r in rules ==> r == rules[0] || r in rules[1..];
    }
  }

  /** No field reads `low`, and only the battery may read `high`. */
  predicate Calm(status: Js) {
    forall k :: k in Fields ==> Level(status, k) != "low" && (Level(status, k) == "high" ==> k == "battery")
  }

  /** Every rule has a text, watches reported fields, asks for `low` or `high`, and none
      asks for a `high` battery. */
  predicate Shaped(r: Rule) {
    r.act.text != "" && (r.level == "low" || r.level == "high")
    && (forall k :: k in r.on ==> k in Fields) && (r.level == "high" ==> "battery" !in r.on)
  }

  lemma RulesShape()
    ensures forall r :: r in Rules ==> Shaped(r)
  {
    assert Shaped(Water) && Shaped(Drain) && Shaped(Flush) && Shaped(Fert);
    assert Shaped(Cool) && Shaped(Warm) && Shaped(Charge);
    assert Shaped(LightUp) && Shaped(LightDown) && Shaped(HumidUp) && Shaped(HumidDown);
  }

  lemma CalmGivesNoAdvice(status: Js)
    requires Calm(status)
    ensures Candidates(status) == []
  {
    RulesShape();
    PushedEmpty(Rules, status);
  }

  lemma NotFiring(status: Js, r: Rule, k: string)
    requires !Fires(status, r) && k in r.on
    ensures Level(status, k) != r.level
  {
  }

  /** Some rule with a text watches `k` for `level`. */
  predicate Covers(rules: seq<Rule>, k: string, level: string) {
    exists r :: r in rules && k in r.on && r.level == level && r.act.text != ""
  }

  /** When nothing was pushed, no covered field has the covered level. */
  lemma {:induction false} SilentCovered(rules: seq<Rule>, status: Js, k: string, level: string)
    requires Pushed(rules, status) == [] && Covers(rules, k, level)
    ensures Level(status, k) != level
  {
    var r :| r in rules && k in r.on && r.level == level && r.act.text != "";
    if r == rules[0] {
      NotFiring(status, r, k);
    } else {
      assert r in rules[1..];
      SilentCovered(rules[1..], status, k, level);
    }
  }

  /** Every field is watched for `low`, and every field but the battery for `high`. */
  lemma RulesCover(k: string)
    requires k in Fields
    ensures Covers(Rules, k, "low") && (k != "battery" ==> Covers(Rules, k, "high"))
  {
    if k == "soil_moisture" {
      CoverBy(0, k, "low");
      CoverBy(1, k, "high");
    } else if k == "soil_ec" {
      CoverBy(3, k, "low");
      CoverBy(2, k, "high");
    } else if k == "temperature" || k == "soil_temp" {
      CoverBy(5, k, "low");
      CoverBy(4, k, "high");
    } else if k == "battery" {
      CoverBy(6, k, "low");
    } else if k == "light_lux" {
      CoverBy(7, k, "low");
      CoverBy(8, k, "high");
    } else {
      CoverBy(9, k, "low");
      CoverBy(10, k, "high");
    }
  }

  lemma CoverBy(i: nat, k: string, level: string)
    requires i < |Rules| && k in Rules[i].on && Rules[i].level == level && Rules[i].act.text != ""
    ensures Covers(Rules, k, level)
  {
    assert Rules[i] in Rules;
  }

  lemma NoAdviceMeansCalm(status: Js)
    requires Candidates(status) == []
    ensures Calm(status)
  {
    forall k | k in Fields
      ensures Level(status, k) != "low" && (Level(status, k) == "high" ==> k == "battery")
    {
      RulesCover(k);
      SilentCovered(Rules, status, k, "low");
      if k != "battery" {
        SilentCovered(Rules, status, k, "high");
      }
    }
  }

  /** No advice exactly when no field reads `low` or `high`, except that a `high` battery
      has no rule. */
  lemma NoAdviceIff(status: Js)
    ensures Candidates(status) == [] <==> Calm(status)
  {
    if Calm(status) {
      CalmGivesNoAdvice(status);
    }
    if Candidates(status) == [] {
      NoAdviceMeansCalm(status);
    }
  }

  lemma {:induction false} PushedCongruent(rules: seq<Rule>, a: Js, b: Js)
    requires forall k :: Level(a, k) == Level(b, k)
    ensures Pushed(rules, a) == Pushed(rules, b)
  {
    if rules != [] {
      PushedCongruent(rules[1..], a, b);
      assert Fires(a, rules[0]) == Fires(b, rules[0]);
    }
  }

  lemma LowerOfUpper(x: string)
    ensures Lower(Upper(x)) == Lower(x)
  {
    assert forall i :: 0 <= i < |x| ==> LowerChar(UpperChar(x[i])) == LowerChar(x[i]);
  }

  /** Statuses compare without regard to case: `"LOW"` gives the same advice as `"low"`. */
  lemma AdviceIgnoresCase(st: Object, k: string, x: string)
    ensures Candidates(Obj(st[k := Str(Upper(x))])) == Candidates(Obj(st[k := Str(x)]))
  {
    LowerOfUpper(x);
    PushedCongruent(Rules, Obj(st[k := Str(Upper(x))]), Obj(st[k := Str(x)]));
  }

  lemma UnknownIsLower()
    ensures Lower("unknown") == "unknown"
  {
  }

  /** Statuses that are all `unknown` give no advice. */
  lemma UnknownIsCalm()
    ensures Candidates(Obj(UnknownStatus())) == []
  {
    var st := Obj(UnknownStatus());
    forall k | k in Fields
      ensures Level(st, k) == "unknown"
    {
      UnknownLevel(k);
    }
    CalmGivesNoAdvice(st);
  }

  lemma UnknownLevel(k: string)
    requires k in Fields
    ensures Level(Obj(UnknownStatus()), k) == "unknown"
  {
    UnknownIsLower();
    assert OptProp(Obj(UnknownStatus()), k) == Str("unknown");
  }

  /** A flat payload carries no statuses, so it gives no advice. */
  lemma FlatGivesNoAdvice(e: Env, s: Soil, battery: real, older: bool)
    ensures Candidates(Obj(Parse(Flat(e, s, battery, older)).value.status)) == []
  {
    ParseFlat(e, s, battery, older);
    UnknownIsCalm();
  }

  /* ----- refresh ----- */

  lemma MulAtLeast(a: int, m: int)
    requires a >= 1 && m > 0
    ensures a * m >= m
  {
  }

  /** Division with remainder is unique. */
  lemma DivModUnique(x: int, m: int, k: int, r: int)
    requires m > 0 && 0 <= r < m && x == k * m + r
    ensures x % m == r && x / m == k
  {
    var q, r' := x / m, x % m;
    assert (q - k) * m == r - r';
    if q > k {
      MulAtLeast(q - k, m);
    } else if q < k {
      MulAtLeast(k - q, m);
    }
  }

  /** `next = ms - (Date.now() % ms)` for a whole number of milliseconds. */
  function NextDelay(ms: nat, now: nat): (next: nat)
    requires ms > 0
    ensures 0 < next <= ms
    ensures (now + next) % ms == 0
  {
    var q := now / ms;
    DivModUnique(now + (ms - now % ms), ms, q + 1, 0);
    ms - now % ms
  }

  /** The delay reaches the first period boundary strictly after `now`. */
  lemma NextDelayFirst(ms: nat, now: nat, d: nat)
    requires ms > 0 && 0 < d < NextDelay(ms, now)
    ensures (now + d) % ms != 0
  {
    DivModUnique(now + d, ms, now / ms, now % ms + d);
  }

  /** The panel's loaded snapshot, the loading flag and the period. */
  class SensorPanel {
    var data: Snapshot
    var loading: bool
    var sensingMs: real

    constructor (settings: Slot)
      ensures data == Blank() && !loading && sensingMs == ReadSensingMs(settings)
    {
      data := Blank();
      loading := false;
      sensingMs := ReadSensingMs(settings);
    }

    /** Whether a failed load keeps the previous snapshot: `prev.env.temp || prev.soil.moisture || prev.battery`. */
    static predicate HasReadings(prev: Snapshot) {
      prev.env.temp != 0.0 || prev.soil.moisture != 0.0 || prev.battery != 0.0
    }

    /** `loadOnce()`. `reply` is the response body when the request succeeded; the dummy
        readings stand for `makeDummySnapshot`, which parses a flat record of them. */
    method LoadOnce(targetId: string, reply: Option<Js>, dummyEnv: Env, dummySoil: Soil, dummyBattery: real)
      modifies this`data, this`loading
      ensures targetId == "" ==> unchanged(this)
      ensures targetId != "" && reply.Some? && !reply.value.Null? ==> data == Parse(reply.value).value
      ensures targetId != "" && (reply.None? || reply.value.Null?) ==>
        data == if HasReadings(old(data)) then old(data)
                else Snapshot(dummyEnv, dummySoil, dummyBattery, UnknownStatus(), NullRanges(), Str(""), Null, Str(""))
      ensures targetId != "" ==> !loading
    {
      if targetId == "" {
        return;
      }
      loading := true;
      var parsed := if reply.Some? then Parse(reply.value) else None;
      if parsed.Some? {
        data := parsed.value;
      } else if !HasReadings(data) {
        ParseFlat(dummyEnv, dummySoil, dummyBattery, false);
        data := Parse(Flat(dummyEnv, dummySoil, dummyBattery, false)).value;
      }
      loading := false;
    }
  }
}
