/** The operation-mode presets both Settings screens offer (`MODE_PRESETS`), the preset a
    key selects with its `normal` fallback, `humanizeMin` and `applyMode`. The two copies
    of these definitions in the current and the older app are identical. */
module Modes {
  import opened Text
  import opened JsValues
  import opened LocalStores

  /** Intervals in minutes and the battery life in days the screen advertises. */
  datatype Preset = Preset(name: string, ccu: nat, sense: nat, capture: nat, days: nat)

  /** The keys of `MODE_PRESETS`, in their declared order (the order of the mode cards). */
  const ModeKeys: seq<string> := ["ultra_low", "low", "normal", "high", "ultra_high"]

  /** `MODE_PRESETS[k]`. */
  function PresetOf(k: string): (r: Option<Preset>)
    ensures r.Some? <==> k in ModeKeys
  {
    if k == "ultra_low" then Some(Preset("초저전력", 10, 120, 240, 40))
    else if k == "low" then Some(Preset("저전력", 10, 60, 120, 38))
    else if k == "normal" then Some(Preset("일반", 10, 30, 60, 34))
    else if k == "high" then Some(Preset("고빈도", 10, 15, 60, 32))
    else if k == "ultra_high" then Some(Preset("초고빈도", 10, 10, 30, 30))
    else None
  }

  /** `MODE_PRESETS[k] || MODE_PRESETS.normal`. */
  function PresetFor(k: string): (p: Preset)
    ensures k in ModeKeys ==> Some(p) == PresetOf(k)
    ensures k !in ModeKeys ==> Some(p) == PresetOf("normal")
  {
    match PresetOf(k)
    case Some(p) => p
    case None => PresetOf("normal").value
  }

  /** Going from the low-power end to the high-frequency end of the list, sensing and
      capture never get slower and the advertised battery life strictly shrinks; the CCU
      interval is the same everywhere, and every capture falls on a sensing tick. */
  lemma {:induction false} PresetsOrdered()
    ensures forall a, b :: 0 <= a < b < |ModeKeys| ==>
      PresetFor(ModeKeys[a]).sense >= PresetFor(ModeKeys[b]).sense
      && PresetFor(ModeKeys[a]).capture >= PresetFor(ModeKeys[b]).capture
      && PresetFor(ModeKeys[a]).days > PresetFor(ModeKeys[b]).days
    ensures forall k :: k in ModeKeys ==>
      PresetFor(k).ccu == 10 && PresetFor(k).sense > 0 && PresetFor(k).capture % PresetFor(k).sense == 0
  {
    var ps := seq(5, i requires 0 <= i < 5 => PresetFor(ModeKeys[i]));
    assert ps[0] == Preset("초저전력", 10, 120, 240, 40);
    assert ps[1] == Preset("저전력", 10, 60, 120, 38);
    assert ps[2] == Preset("일반", 10, 30, 60, 34);
    assert ps[3] == Preset("고빈도", 10, 15, 60, 32);
    assert ps[4] == Preset("초고빈도", 10, 10, 30, 30);
  }

  /** `String(n)` for a number value. */
  function NumText(n: NumVal): string {
    match n
    case Finite(r) => NumberToString(r)
    case Infinite(negative) => if negative then "-Infinity" else "Infinity"
    case NaN => "NaN"
  }

  /** `Number(m) % 60 === 0`: a finite whole multiple of sixty. */
  predicate WholeHours(n: NumVal) {
    n.Finite? && (n.r / 60.0).Floor as real == n.r / 60.0
  }

  /** `humanizeMin(m)`: whole hours as `<h>h`, anything else as `<m>m`, with a
      non-numeric value printed as `0m` (`Number(m) || 0`). */
  function HumanizeMin(m: Js): string {
    var n := ToNumber(m);
    if WholeHours(n) then NumberToString(n.r / 60.0) + "h"
    else (if n.NaN? then "0" else NumText(n)) + "m"
  }

  /** A duration text as the mode cards show it, read back into minutes. */
  function DurationMinutes(t: string): (r: Option<nat>)
    ensures r.Some? ==> |t| >= 2 && t[|t| - 1] in "hm"
  {
    if |t| >= 2 && AllDigits(t[..|t| - 1]) then
      var v := DigitsValue(t[..|t| - 1]);
      if t[|t| - 1] == 'h' then Some(v * 60)
      else if t[|t| - 1] == 'm' then Some(v)
      else None
    else None
  }

  lemma WholeMinutes(n: nat)
    ensures WholeHours(Finite(n as real)) <==> n % 60 == 0
    ensures n % 60 == 0 ==> (n as real / 60.0).Floor == n / 60
  {
    var q, rem := n / 60, n % 60;
    assert n == 60 * q + rem;
    assert n as real / 60.0 == q as real + rem as real / 60.0;
    assert 0.0 <= rem as real / 60.0 < 1.0;
    assert (n as real / 60.0).Floor == q;
  }

  /** For a whole number of minutes: hours when it divides by sixty, minutes otherwise. */
  lemma HumanizeMinNat(n: nat)
    ensures HumanizeMin(Num(n as real)) ==
      if n % 60 == 0 then NatToString(n / 60) + "h" else NatToString(n) + "m"
  {
    WholeMinutes(n);
    if n % 60 == 0 {
      assert n as real / 60.0 == (n / 60) as real;
    }
  }

  /** The text `humanizeMin` prints for a whole number of minutes reads back as that
      number of minutes, whichever unit it chose. */
  lemma HumanizeMinRoundTrip(n: nat)
    ensures DurationMinutes(HumanizeMin(Num(n as real))) == Some(n)
  {
    HumanizeMinNat(n);
    var t := HumanizeMin(Num(n as real));
    var d := if n % 60 == 0 then NatToString(n / 60) else NatToString(n);
    NatToStringRoundTrip(if n % 60 == 0 then n / 60 else n);
    assert t[..|t| - 1] == d;
  }

  /** Values that are not numbers print as `0m`. */
  lemma HumanizeMinNonNumeric(m: Js)
    requires ToNumber(m).NaN?
    ensures HumanizeMin(m) == "0m"
  {
  }

  /** The capture interval of the lowest-power preset shows in whole hours ... */
  lemma PresetHoursText()
    ensures HumanizeMin(Num(240.0)) == "4h"
  {
    HumanizeMinNat(240);
  }

  /** ... and the sensing interval of the high-frequency preset in minutes. */
  lemma PresetMinutesText()
    ensures HumanizeMin(Num(15.0)) == "15m"
  {
    HumanizeMinNat(15);
  }

  /** The form fields a mode fixes. */
  const IntervalFields: set<string> := {"ccuIntervalMinutes", "sensingIntervalMinutes", "captureIntervalMinutes"}

  /** The mode a form names, as the property key `MODE_PRESETS[form.operationMode]` uses. */
  function ModeOf(form: Object): string {
    ToStr(Prop(form, "operationMode"))
  }

  /** The intervals stored in a form are those of its mode (the `normal` preset for an unknown mode). */
  predicate Consistent(form: Object) {
    var p := PresetFor(ModeOf(form));
    Prop(form, "ccuIntervalMinutes") == Num(p.ccu as real)
    && Prop(form, "sensingIntervalMinutes") == Num(p.sense as real)
    && Prop(form, "captureIntervalMinutes") == Num(p.capture as real)
  }

  /** `applyMode(k)`: `{...s, operationMode: k, ccuIntervalMinutes: p.ccu, ...}`. */
  function ApplyMode(form: Js, k: string): (r: Object)
    ensures Prop(r, "operationMode") == Str(k) && Consistent(r)
    ensures forall f :: f in Spread(form) && f !in IntervalFields && f != "operationMode" ==>
      f in r && r[f] == Spread(form)[f]
    ensures forall f :: f in r ==> f in Spread(form) || f in IntervalFields || f == "operationMode"
  {
    Spread(form) + PresetFields(k)
  }

  /** Choosing the same mode twice is the same as choosing it once, and a later choice
      replaces an earlier one entirely. */
  lemma ApplyModeTwice(form: Js, j: string, k: string)
    ensures ApplyMode(Obj(ApplyMode(form, j)), k) == ApplyMode(form, k)
  {
    PresetFieldsOverride(Spread(form), j, k);
  }

  /** The fields of a later preset replace every field an earlier one wrote. */
  lemma PresetFieldsOverride(s: Object, j: string, k: string)
    ensures (s + PresetFields(j)) + PresetFields(k) == s + PresetFields(k)
  {
    assert PresetFields(j).Keys == PresetFields(k).Keys;
  }

  /** The four fields `applyMode(k)` writes. */
  function PresetFields(k: string): Object {
    var p := PresetFor(k);
    map["operationMode" := Str(k), "ccuIntervalMinutes" := Num(p.ccu as real),
        "sensingIntervalMinutes" := Num(p.sense as real),
        "captureIntervalMinutes" := Num(p.capture as real)]
  }
}
