/** The earlier app's sensor panel: a loose number reader, a dotted-path reader, the
    first parsable alias among several paths, the mapping of whatever the server sends
    onto one snapshot shape, and the endpoints tried in turn. */
module LegacySensor {
  import opened Text
  import opened JsValues
  import SensorInfo

  // ---------------------------------------------------------------------------------
  // num
  // ---------------------------------------------------------------------------------

  /** Where the pattern `-?\d+(\.\d+)?` can start: a digit, or a minus sign before one. */
  predicate StartsNumber(s: string, i: nat)
    requires i < |s|
  {
    IsDigit(s[i]) || (s[i] == '-' && i + 1 < |s| && IsDigit(s[i + 1]))
  }

  /** The leftmost position from `from` on where the pattern matches, or -1. */
  function FirstMatch(s: string, from: nat): (r: int)
    requires from <= |s|
    ensures r == -1 || (from <= r < |s| && StartsNumber(s, r))
    ensures forall i :: from <= i < (if r < 0 then |s| else r) ==> !StartsNumber(s, i)
    decreases |s| - from
  {
    if from == |s| then -1
    else if StartsNumber(s, from) then from
    else FirstMatch(s, from + 1)
  }

  /** `whole.frac` read as a decimal number. */
  function Decimal(whole: string, frac: string): real
    requires AllDigits(whole) && AllDigits(frac)
  {
    DigitsValue(whole) as real + DigitsValue(frac) as real / Pow10(|frac|) as real
  }

  /** The digits of `(\.\d+)?` at the head of `rest`, or none. */
  function FracDigits(rest: string): (f: string)
    ensures AllDigits(f)
  {
    if |rest| >= 2 && rest[0] == '.' && IsDigit(rest[1]) then rest[1..][..DigitRun(rest[1..])] else ""
  }

  /** The value of `\d+(\.\d+)?` at the head of `u`. */
  function Mantissa(u: string): real {
    var a := DigitRun(u);
    Decimal(u[..a], FracDigits(u[a..]))
  }

  /** The value `Number` gives the text the pattern matches at `i`. */
  function NumberAt(s: string, i: nat): real
    requires i < |s| && StartsNumber(s, i)
  {
    if s[i] == '-' then -Mantissa(s[i + 1..]) else Mantissa(s[i..])
  }

  /** `s.match(/-?\d+(\.\d+)?/)` read as a number, or nothing when no digit occurs. */
  function Scan(s: string): Option<real> {
    var i := FirstMatch(s, 0);
    if i < 0 then None else Some(NumberAt(s, i))
  }

  /** `num(v)`: nothing for null and undefined, a number as it is, the first number in a
      string once its first comma has become a point, nothing for anything else. */
  function ToReading(v: Js): Option<real> {
    match v
    case Num(n) => Some(n)
    case Str(s) => Scan(ReplaceFirst(s, ",", "."))
    case _ => None
  }

  /** A string yields a number exactly when it holds a digit. */
  lemma ScanNoneIff(s: string)
    ensures Scan(s).None? <==> forall i :: 0 <= i < |s| ==> !IsDigit(s[i])
  {
    var r := FirstMatch(s, 0);
    if r < 0 {
      forall i | 0 <= i < |s| ensures !IsDigit(s[i]) {
        assert !StartsNumber(s, i);
      }
    } else if s[r] == '-' {
      assert IsDigit(s[r + 1]);
    }
  }

  lemma ReplaceKeepsDigits(s: string)
    ensures var t := ReplaceFirst(s, ",", ".");
            |t| == |s| && forall i :: 0 <= i < |s| ==> (IsDigit(t[i]) <==> IsDigit(s[i]))
  {
    var k := IndexOf(s, ",");
    if k >= 0 {
      var t := ReplaceFirst(s, ",", ".");
      assert s[k..k + 1] == "," && s[k] == ',';
      forall i | 0 <= i < |s| ensures t[i] == (if i == k then '.' else s[i]) {
        if i < k { assert t[i] == s[..k][i]; }
        else if i > k { assert t[i] == s[k + 1..][i - k - 1]; }
      }
    }
  }

  /** `num` of a string is null exactly when the string has no digit. */
  lemma ReadingNoneIff(s: string)
    ensures ToReading(Str(s)).None? <==> forall i :: 0 <= i < |s| ==> !IsDigit(s[i])
  {
    var t := ReplaceFirst(s, ",", ".");
    ReplaceKeepsDigits(s);
    ScanNoneIff(t);
  }

  lemma DigitRunPrefix(p: string, t: string)
    requires AllDigits(p) && (t == [] || !IsDigit(t[0]))
    ensures DigitRun(p + t) == |p|
    decreases |p|
  {
    if p != [] {
      assert (p + t)[1..] == p[1..] + t;
      DigitRunPrefix(p[1..], t);
    } else {
      assert p + t == t;
    }
  }

  lemma MantissaDigits(u: string)
    requires AllDigits(u)
    ensures Mantissa(u) == Decimal(u, "")
  {
    DigitRunAll(u);
    assert u[..|u|] == u;
  }

  lemma MantissaFrac(p: string, q: string)
    requires AllDigits(p) && q != [] && AllDigits(q)
    ensures Mantissa(p + "." + q) == Decimal(p, q)
  {
    var u := p + "." + q;
    DigitRunPrefix(p, "." + q);
    assert u == p + ("." + q);
    assert u[..|p|] == p && u[|p|..] == "." + q;
    DigitRunAll(q);
    assert ("." + q)[1..] == q && q[..|q|] == q;
  }

  /** A plain run of digits reads as its value. */
  lemma ScanDigits(s: string)
    requires s != [] && AllDigits(s)
    ensures Scan(s) == Some(DigitsValue(s) as real)
  {
    assert StartsNumber(s, 0);
    assert FirstMatch(s, 0) == 0;
    assert s[0..] == s;
    assert NumberAt(s, 0) == Mantissa(s);
    MantissaDigits(s);
    DecimalWhole(s);
  }

  lemma DecimalWhole(u: string)
    requires AllDigits(u)
    ensures Decimal(u, "") == DigitsValue(u) as real
  {
    assert DigitsValue("") == 0 && Pow10(0) == 1;
  }

  /** `num(String(n))` gives back `n` for a whole number. */
  lemma ReadingOfRendered(n: nat)
    ensures ToReading(Str(NatToString(n))) == Some(n as real)
  {
    var s := NatToString(n);
    NatToStringRoundTrip(n);
    NoComma(s);
    ScanDigits(s);
  }

  lemma NoComma(s: string)
    requires AllDigits(s)
    ensures ReplaceFirst(s, ",", ".") == s
  {
    forall i | 0 <= i <= |s| ensures !OccursAt(s, ",", i) {
      if i + 1 <= |s| {
        assert s[i..i + 1][0] == s[i];
      }
    }
    var r := IndexOf(s, ",");
  }

  lemma CommaAt(p: string, q: string)
    requires AllDigits(p)
    ensures ReplaceFirst(p + "," + q, ",", ".") == p + "." + q
  {
    var s := p + "," + q;
    forall i | 0 <= i < |p| ensures !OccursAt(s, ",", i) {
      assert s[i..i + 1][0] == s[i] == p[i];
    }
    assert s[|p|..|p| + 1] == ",";
    assert OccursAt(s, ",", |p|);
    var k := IndexOf(s, ",");
    assert k == |p|;
    assert s[..k] == p && s[k + 1..] == q;
  }

  /** A decimal comma reads like a decimal point: `num("12,5")` is 12.5. */
  lemma DecimalComma(p: string, q: string)
    requires p != [] && AllDigits(p) && q != [] && AllDigits(q)
    ensures ToReading(Str(p + "," + q)) == Some(Decimal(p, q))
  {
    CommaAt(p, q);
    var s := p + "." + q;
    assert s[0] == p[0] && s[0..] == s;
    assert StartsNumber(s, 0);
    MantissaFrac(p, q);
  }

  // ---------------------------------------------------------------------------------
  // get
  // ---------------------------------------------------------------------------------

  /** One step of `get`'s reduce: `acc && acc[k] !== undefined ? acc[k] : undefined`. */
  function Step(acc: Js, k: string): Js {
    if Truthy(acc) then OptProp(acc, k) else Undefined
  }

  function Walk(v: Js, keys: seq<string>): Js
    decreases |keys|
  {
    if keys == [] then v else Walk(Step(v, keys[0]), keys[1..])
  }

  /** `get(obj, path)`. */
  function Get(obj: Js, path: string): Js {
    Walk(obj, Split(path, '.'))
  }

  lemma {:induction false} WalkAppend(v: Js, xs: seq<string>, ys: seq<string>)
    ensures Walk(v, xs + ys) == Walk(Walk(v, xs), ys)
    decreases |xs|
  {
    if xs != [] {
      assert (xs + ys)[1..] == xs[1..] + ys;
      WalkAppend(Step(v, xs[0]), xs[1..], ys);
    } else {
      assert xs + ys == ys;
    }
  }

  /** Splitting at a separator between two strings splits each of them. */
  lemma {:induction false} SplitConcat(a: string, b: string, sep: char)
    ensures Split(a + [sep] + b, sep) == Split(a, sep) + Split(b, sep)
    decreases |a|
  {
    var s := a + [sep] + b;
    if a == [] {
      assert s[0] == sep && s[1..] == b;
    } else {
      assert s[0] == a[0] && s[1..] == a[1..] + [sep] + b;
      SplitConcat(a[1..], b, sep);
    }
  }

  /** Reading a dotted path is reading its head, then the rest from there. */
  lemma GetPath(obj: Js, p: string, q: string)
    ensures Get(obj, p + "." + q) == Get(Get(obj, p), q)
  {
    assert p + "." + q == p + ['.'] + q;
    SplitConcat(p, q, '.');
    WalkAppend(obj, Split(p, '.'), Split(q, '.'));
  }

  lemma {:induction false} WalkUndefined(keys: seq<string>)
    ensures Walk(Undefined, keys) == Undefined
  {
    if keys != [] { WalkUndefined(keys[1..]); }
  }

  /** Once a value on the way is falsy (or a key is missing), the result is undefined. */
  lemma GetFalsy(v: Js, path: string)
    requires !Truthy(v)
    ensures Get(v, path) == Undefined
  {
    var ks := Split(path, '.');
    WalkUndefined(ks[1..]);
  }

  /** A path without a dot is one property access. */
  lemma GetKey(v: Js, k: string)
    requires '.' !in k
    ensures Get(v, k) == Step(v, k)
  {
    SplitNoSep(k, '.');
    assert Walk(v, [k]) == Walk(Step(v, [k][0]), [k][1..]);
    assert [k][1..] == [];
  }

  // ---------------------------------------------------------------------------------
  // firstNum
  // ---------------------------------------------------------------------------------

  function FirstNumOf(data: Js, paths: seq<string>): Option<real> {
    if paths == [] then None
    else match ToReading(Get(data, paths[0]))
      case Some(x) => Some(x)
      case None => FirstNumOf(data, paths[1..])
  }

  /** The number read is that of the first path that gives one; none means none does. */
  lemma {:induction false} FirstNumIsFirst(data: Js, paths: seq<string>)
    ensures FirstNumOf(data, paths).None? <==> forall i :: 0 <= i < |paths| ==> ToReading(Get(data, paths[i])).None?
    ensures FirstNumOf(data, paths).Some? ==>
              exists i :: 0 <= i < |paths| && ToReading(Get(data, paths[i])) == FirstNumOf(data, paths)
                && forall j :: 0 <= j < i ==> ToReading(Get(data, paths[j])).None?
  {
    if paths != [] && ToReading(Get(data, paths[0])).None? {
      FirstNumIsFirst(data, paths[1..]);
      if FirstNumOf(data, paths).Some? {
        var i :| 0 <= i < |paths| - 1 && ToReading(Get(data, paths[1..][i])) == FirstNumOf(data, paths[1..])
                 && forall j :: 0 <= j < i ==> ToReading(Get(data, paths[1..][j])).None?;
        assert forall j :: 0 <= j < i + 1 ==> ToReading(Get(data, paths[j])).None? by {
          forall j | 0 <= j < i + 1 ensures ToReading(Get(data, paths[j])).None? {
            if j > 0 { assert paths[j] == paths[1..][j - 1]; }
          }
        }
        assert paths[i + 1] == paths[1..][i];
      }
      forall i | 0 <= i < |paths| - 1 ensures paths[1..][i] == paths[i + 1] { }
    }
  }

  /** `firstNum(data, paths)`. */
  method FirstNum(data: Js, paths: seq<string>) returns (r: Option<real>)
    ensures r == FirstNumOf(data, paths)
  {
    var i := 0;
    while i < |paths|
      invariant 0 <= i <= |paths|
      invariant FirstNumOf(data, paths[i..]) == FirstNumOf(data, paths)
    {
      var v := ToReading(Get(data, paths[i]));
      if v.Some? {
        return v;
      }
      assert paths[i..][1..] == paths[i + 1..];
      i := i + 1;
    }
    return None;
  }

  // ---------------------------------------------------------------------------------
  // mapToSnapshot
  // ---------------------------------------------------------------------------------

  /** The shape the panel shows: `{ env: {temp, humi, lux}, soil: {temp, moisture, ec}, battery }`. */
  datatype Reading = Reading(env: SensorInfo.Env, soil: SensorInfo.Soil, battery: real)

  function Zeros(): Reading {
    Reading(SensorInfo.Env(0.0, 0.0, 0.0), SensorInfo.Soil(0.0, 0.0, 0.0), 0.0)
  }

  const EnvTempPaths: seq<string> := ["env.temp", "environment.temp", "environment.temperatureC", "temperatureC",
                                     "tempC", "ambient.temp", "ambient.temperatureC", "temp"]
  const EnvHumiPaths: seq<string> := ["env.humi", "environment.humi", "environment.humidity", "humidity",
                                     "humi", "humiPercent"]
  const EnvLuxPaths: seq<string> := ["env.lux", "environment.lux", "environment.light", "environment.lightLux",
                                    "light", "lightLux", "lux"]
  const SoilTempPaths: seq<string> := ["soil.temp", "soil.temperatureC", "soilTempC", "substrate.temp",
                                      "substrate.temperatureC"]
  const SoilMoistPaths: seq<string> := ["soil.moisture", "soil.moisturePercent", "soilMoisturePct", "soilMoisture",
                                       "substrate.moisture"]
  const SoilEcPaths: seq<string> := ["soil.ec", "soil.ec_mScm", "soil.ecMsPerCm", "soilEc_mScm", "ec"]
  const BatteryPaths: seq<string> := ["battery", "batteryPct", "batteryPercent", "battery.percent"]

  function OrZero(x: Option<real>): real {
    if x.Some? then x.value else 0.0
  }

  /** The alias route: every field from its first parsable alias, 0 when none parses. */
  function ByAlias(data: Js): Reading {
    Reading(
      SensorInfo.Env(OrZero(FirstNumOf(data, EnvTempPaths)), OrZero(FirstNumOf(data, EnvHumiPaths)),
                     OrZero(FirstNumOf(data, EnvLuxPaths))),
      SensorInfo.Soil(OrZero(FirstNumOf(data, SoilTempPaths)), OrZero(FirstNumOf(data, SoilMoistPaths)),
                      OrZero(FirstNumOf(data, SoilEcPaths))),
      OrZero(FirstNumOf(data, BatteryPaths)))
  }

  /** The fast route for a value already in the standard shape: all seven numbers, or
      nothing when one of them does not parse. */
  function Standard(data: Js): Option<Reading> {
    var env, soil := OptProp(data, "env"), OptProp(data, "soil");
    var t, h, l := ToReading(OptProp(env, "temp")), ToReading(OptProp(env, "humi")), ToReading(OptProp(env, "lux"));
    var st, m, e := ToReading(OptProp(soil, "temp")), ToReading(OptProp(soil, "moisture")), ToReading(OptProp(soil, "ec"));
    var b := ToReading(OptProp(data, "battery"));
    if t.Some? && h.Some? && l.Some? && st.Some? && m.Some? && e.Some? && b.Some? then
      Some(Reading(SensorInfo.Env(t.value, h.value, l.value), SensorInfo.Soil(st.value, m.value, e.value), b.value))
    else None
  }

  /** `mapToSnapshot(data)`: an array stands for its last element (`{}` when that is
      missing or nullish); a value with truthy `env` and `soil` whose seven numbers all
      parse takes the fast route; anything else the alias route. */
  function MapToSnapshot(data: Js): Reading
    decreases if data.Arr? then 1 else 0, data
  {
    if data.Arr? then
      var last := if data.items == [] then Undefined else data.items[|data.items| - 1];
      if Nullish(last) then MapToSnapshot(Obj(map[])) else MapToSnapshot(last)
    else if Truthy(OptProp(data, "env")) && Truthy(OptProp(data, "soil")) && Standard(data).Some? then
      Standard(data).value
    else ByAlias(data)
  }

  /** An array is read through its last element. */
  lemma ArrayUsesLast(items: seq<Js>)
    requires items != [] && !Nullish(items[|items| - 1])
    ensures MapToSnapshot(Arr(items)) == MapToSnapshot(items[|items| - 1])
  {
  }

  /** An empty array reads as an object with nothing in it: all zeros. */
  lemma EmptyArrayIsZeros()
    ensures MapToSnapshot(Arr([])) == Zeros()
  {
    var o := Obj(map[]);
    forall paths: seq<string> ensures FirstNumOf(o, paths) == None {
      NothingInEmpty(paths);
    }
  }

  lemma {:induction false} NothingInEmpty(paths: seq<string>)
    ensures FirstNumOf(Obj(map[]), paths) == None
  {
    if paths != [] {
      var ks := Split(paths[0], '.');
      assert Step(Obj(map[]), ks[0]) == Undefined;
      WalkUndefined(ks[1..]);
      NothingInEmpty(paths[1..]);
    }
  }

  /** A first alias `a.b` that parses decides the field. */
  lemma HeadParses(data: Js, a: string, b: string, paths: seq<string>)
    requires paths != [] && paths[0] == a + "." + b && '.' !in a && '.' !in b
    requires data.Obj? && Truthy(OptProp(data, a)) && ToReading(OptProp(OptProp(data, a), b)).Some?
    ensures FirstNumOf(data, paths) == ToReading(OptProp(OptProp(data, a), b))
  {
    GetPath(data, a, b);
    GetKey(data, a);
    GetKey(OptProp(data, a), b);
  }

  lemma EnvHeads()
    ensures EnvTempPaths[0] == "env" + "." + "temp" && EnvHumiPaths[0] == "env" + "." + "humi"
            && EnvLuxPaths[0] == "env" + "." + "lux"
    ensures '.' !in "env" && '.' !in "temp" && '.' !in "humi" && '.' !in "lux"
  {
  }

  lemma SoilHeads()
    ensures SoilTempPaths[0] == "soil" + "." + "temp" && SoilMoistPaths[0] == "soil" + "." + "moisture"
            && SoilEcPaths[0] == "soil" + "." + "ec"
    ensures '.' !in "soil" && '.' !in "temp" && '.' !in "moisture" && '.' !in "ec"
  {
  }

  lemma EnvShortcut(data: Js)
    requires Truthy(OptProp(data, "env")) && Standard(data).Some?
    ensures Standard(data).value.env == ByAlias(data).env
  {
    var env := OptProp(data, "env");
    EnvHeads();
    HeadParses(data, "env", "temp", EnvTempPaths);
    HeadParses(data, "env", "humi", EnvHumiPaths);
    HeadParses(data, "env", "lux", EnvLuxPaths);
  }

  lemma SoilShortcut(data: Js)
    requires Truthy(OptProp(data, "soil")) && Standard(data).Some?
    ensures Standard(data).value.soil == ByAlias(data).soil
  {
    SoilHeads();
    HeadParses(data, "soil", "temp", SoilTempPaths);
    HeadParses(data, "soil", "moisture", SoilMoistPaths);
    HeadParses(data, "soil", "ec", SoilEcPaths);
  }

  lemma BatteryShortcut(data: Js)
    requires data.Obj? && Standard(data).Some?
    ensures Standard(data).value.battery == ByAlias(data).battery
  {
    assert BatteryPaths[0] == "battery" && '.' !in "battery";
    GetKey(data, "battery");
  }

  /** The fast route is only a shortcut: whenever it is taken, the alias route gives the
      same snapshot, since each field's first alias is the very path the fast route reads. */
  lemma StandardIsShortcut(data: Js)
    requires Truthy(OptProp(data, "env")) && Truthy(OptProp(data, "soil")) && Standard(data).Some?
    ensures Standard(data).value == ByAlias(data)
  {
    EnvShortcut(data);
    SoilShortcut(data);
    BatteryShortcut(data);
  }

  /** So every value that is not an array maps by the alias route. */
  lemma MapIsByAlias(data: Js)
    requires !data.Arr?
    ensures MapToSnapshot(data) == ByAlias(data)
  {
    if Truthy(OptProp(data, "env")) && Truthy(OptProp(data, "soil")) && Standard(data).Some? {
      StandardIsShortcut(data);
    }
  }

  // ---------------------------------------------------------------------------------
  // fetchSensorSnapshot
  // ---------------------------------------------------------------------------------

  /** `SENSOR_ENDPOINTS`, in the order they are tried. */
  function Endpoints(code: string): (r: seq<string>)
    ensures |r| == 3
  {
    var enc := EncodeUriComponent(code);
    ["/api/sensors/" + enc, "/api/sensors?deviceCode=" + enc, "/api/device/" + enc + "/sensors"]
  }

  lemma SplitPair(a: string, b: string, sep: char)
    requires sep !in a && sep !in b
    ensures Split(a + [sep] + b, sep) == [a, b]
  {
    SplitNoSep(b, sep);
    SplitPrefix(a, b, sep);
  }

  lemma SplitSegments(a: string, b: string, c: string, sep: char)
    requires sep !in a && sep !in b && sep !in c
    ensures Split([sep] + a + [sep] + b + [sep] + c, sep) == ["", a, b, c]
  {
    SplitPair(b, c, sep);
    SplitPrefix(a, b + [sep] + c, sep);
    SplitPrefix("", a + [sep] + (b + [sep] + c), sep);
    assert [sep] + a + [sep] + b + [sep] + c == "" + [sep] + (a + [sep] + (b + [sep] + c));
  }

  lemma SplitSegments4(a: string, b: string, c: string, d: string, sep: char)
    requires sep !in a && sep !in b && sep !in c && sep !in d
    ensures Split([sep] + a + [sep] + b + [sep] + c + [sep] + d, sep) == ["", a, b, c, d]
  {
    var t3 := c + [sep] + d;
    var t2 := b + [sep] + t3;
    var t1 := a + [sep] + t2;
    SplitPair(c, d, sep);
    SplitPrefix(b, t3, sep);
    SplitPrefix(a, t2, sep);
    SplitPrefix("", t1, sep);
    Nest4(a, b, c, d, [sep]);
  }

  lemma Nest2(a: string, s: string, b: string, c: string)
    ensures a + s + b + c == a + s + (b + c)
  {
  }

  lemma Nest4(a: string, b: string, c: string, d: string, s: string)
    ensures s + a + s + b + s + c + s + d == "" + s + (a + s + (b + s + (c + s + d)))
  {
  }

  lemma SensorsPath(enc: string)
    requires '/' !in enc
    ensures Split("/api/sensors/" + enc, '/') == ["", "api", "sensors", enc]
  {
    assert "/api/sensors/" == ['/'] + "api" + ['/'] + "sensors" + ['/'];
    SplitSegments("api", "sensors", enc, '/');
  }

  lemma DevicePath(enc: string)
    requires '/' !in enc
    ensures Split("/api/device/" + enc + "/sensors", '/') == ["", "api", "device", enc, "sensors"]
  {
    var api, device, sensors := "api", "device", "sensors";
    assert "/api/device/" == ['/'] + api + ['/'] + device + ['/'];
    assert "/sensors" == ['/'] + sensors;
    assert "/api/device/" + enc + "/sensors" == ['/'] + api + ['/'] + device + ['/'] + enc + ['/'] + sensors;
    SplitSegments4(api, device, enc, sensors, '/');
  }

  lemma QueryPath(enc: string)
    requires '?' !in enc
    ensures Split("/api/sensors?deviceCode=" + enc, '?') == ["/api/sensors", "deviceCode=" + enc]
  {
    var path, key := "/api/sensors", "deviceCode=";
    assert "/api/sensors?deviceCode=" == path + ['?'] + key;
    assert '?' !in path;
    assert '?' !in key;
    Nest2(path, ['?'], key, enc);
    SplitPair(path, key + enc, '?');
  }

  /** Whatever the code holds, it fills exactly one path segment or one query value. */
  lemma EndpointsCarryCode(code: string)
    ensures var enc := EncodeUriComponent(code);
            Split(Endpoints(code)[0], '/') == ["", "api", "sensors", enc]
            && Split(Endpoints(code)[2], '/') == ["", "api", "device", enc, "sensors"]
            && Split(Endpoints(code)[1], '?') == ["/api/sensors", "deviceCode=" + enc]
  {
    var enc := EncodeUriComponent(code);
    EncodeUriComponentSafe(code);
    SensorsPath(enc);
    DevicePath(enc);
    QueryPath(enc);
  }

  /** The mapping of the first reply that arrives, or zeros when none does. */
  function Fetched(replies: seq<Option<Js>>): Reading {
    if replies == [] then Zeros()
    else if replies[0].Some? then MapToSnapshot(replies[0].value)
    else Fetched(replies[1..])
  }

  /** `fetchSensorSnapshot(code)`: `replies[i]` is how the request to the i-th endpoint
      ends, the parsed JSON or a failure (no response, a status that is not OK, a content
      type that is not JSON, a timeout). The first reply that arrives is mapped; the
      requests made are returned as `tried`. */
  method FetchSensorSnapshot(code: string, replies: seq<Option<Js>>) returns (r: Reading, tried: seq<string>)
    requires |replies| == 3
    ensures 1 <= |tried| <= 3 && tried == Endpoints(code)[..|tried|]
    ensures forall j :: 0 <= j < |tried| - 1 ==> replies[j].None?
    ensures replies[|tried| - 1].Some? ==> r == MapToSnapshot(replies[|tried| - 1].value)
    ensures replies[|tried| - 1].None? ==> |tried| == 3 && r == Zeros()
    ensures r == Fetched(replies)
  {
    var urls := Endpoints(code);
    tried := [];
    var i := 0;
    while i < 3
      invariant 0 <= i <= 3 && tried == urls[..i]
      invariant forall j :: 0 <= j < i ==> replies[j].None?
      invariant Fetched(replies[i..]) == Fetched(replies)
    {
      tried := tried + [urls[i]];
      if replies[i].Some? {
        r := MapToSnapshot(replies[i].value);
        return;
      }
      assert replies[i..][1..] == replies[i + 1..];
      i := i + 1;
    }
    r := Zeros();
  }

  /** The panel: the readings shown and whether a load is under way. */
  class Panel {
    var data: Reading
    var loading: bool

    constructor ()
      ensures data == Zeros() && !loading
    {
      data := Zeros();
      loading := false;
    }

    /** The load effect for a device code; `alive` is false once the code has changed or
        the panel has gone, and then the reply is dropped. */
    method Load(code: string, replies: seq<Option<Js>>, alive: bool)
      requires |replies| == 3
      modifies this
      ensures code == "" ==> data == Zeros() && loading == old(loading)
      ensures code != "" && alive ==> data == Fetched(replies) && !loading
      ensures code != "" && !alive ==> data == old(data) && loading
    {
      if code == "" {
        data := Zeros();
        return;
      }
      loading := true;
      var r, tried := FetchSensorSnapshot(code, replies);
      if alive {
        data := r;
        loading := false;
      }
    }
  }

  /** The heading: the trimmed device name, else the code, else `미선택`. */
  function Title(name: string, code: string): (t: string)
    ensures Trim(name) != "" ==> t == Trim(name)
    ensures Trim(name) == "" && code != "" ==> t == code
    ensures Trim(name) == "" && code == "" ==> t == "미선택"
  {
    if name != "" && Trim(name) != "" then Trim(name) else if code != "" then code else "미선택"
  }
}
