/** The earlier app's control panel: one switch per actuator of the selected device,
    flipped at once on screen, sent to the server, and flipped back if the server refuses. */
module ControlPanel {
  import opened Text
  import opened JsValues

  /** The ids of `ACTUATORS`, in button order. */
  const Actuators: seq<string> := ["humidifier", "uv", "fan", "waterpump"]

  /** The payload field that switches an actuator. */
  function ActionField(aid: string): (f: string)
    requires aid in Actuators
  {
    if aid == "humidifier" then "humidifier_action"
    else if aid == "uv" then "flash_en"
    else if aid == "fan" then "fan_action"
    else "water_pump_action"
  }

  function Bit(on: bool): Js { Num(if on then 1.0 else 0.0) }

  /** `actuator?.makePayload(on) || {}`: the switch field set to 1 or 0, with a pump run of
      three seconds when the pump is switched on, and nothing for an unknown id. */
  function Payload(aid: string, on: bool): Object {
    if aid == "humidifier" then map["humidifier_action" := Bit(on)]
    else if aid == "uv" then map["flash_en" := Bit(on)]
    else if aid == "fan" then map["fan_action" := Bit(on)]
    else if aid == "waterpump" then
      if on then map["water_pump_action" := Num(1.0), "water_pump_duration" := Num(3.0)]
      else map["water_pump_action" := Num(0.0)]
    else map[]
  }

  /** What a device reads from a payload: whether its switch field says on. */
  function SwitchOf(payload: Object, aid: string): Option<bool>
    requires aid in Actuators
  {
    var f := ActionField(aid);
    if f in payload && payload[f] == Num(1.0) then Some(true)
    else if f in payload && payload[f] == Num(0.0) then Some(false)
    else None
  }

  /** The payload carries exactly the switch asked for, in its actuator's own field, and
      the pump's run time only when the pump is switched on. */
  lemma PayloadSwitches(aid: string, on: bool)
    requires aid in Actuators
    ensures SwitchOf(Payload(aid, on), aid) == Some(on)
    ensures Payload(aid, on).Keys == {ActionField(aid)} + (if aid == "waterpump" && on then {"water_pump_duration"} else {})
    ensures aid == "waterpump" && on ==> Payload(aid, on)["water_pump_duration"] == Num(3.0)
  {
  }

  /** An id that is not an actuator's sends an empty body. */
  lemma UnknownPayloadEmpty(aid: string, on: bool)
    requires aid !in Actuators
    ensures Payload(aid, on) == map[]
  {
  }

  /** The state key of one actuator of one device: `${deviceCode}-${aid}`. */
  function Key(code: string, aid: string): string {
    code + "-" + aid
  }

  lemma ActuatorsPlain(aid: string)
    requires aid in Actuators
    ensures '-' !in aid
  {
  }

  /** Since no actuator id holds a dash, different devices or actuators never share a key,
      even when a device code holds dashes itself. */
  lemma KeyInjective(c1: string, a1: string, c2: string, a2: string)
    requires '-' !in a1 && '-' !in a2
    requires Key(c1, a1) == Key(c2, a2)
    ensures c1 == c2 && a1 == a2
  {
    var s := Key(c1, a1);
    if |a1| < |a2| {
      LongerHasDash(c1, a1, c2, a2);
    } else if |a2| < |a1| {
      LongerHasDash(c2, a2, c1, a1);
    } else {
      assert c1 == s[..|c1|] == c2;
      assert a1 == s[|c1| + 1..] == a2;
    }
  }

  /** Of two equal keys, the one with the longer id has the other's dash inside its id. */
  lemma LongerHasDash(c1: string, a1: string, c2: string, a2: string)
    requires Key(c1, a1) == Key(c2, a2) && |a1| < |a2|
    ensures '-' in a2
  {
    var s := Key(c1, a1);
    assert s[|c1|] == '-';
    var i := |c1| - |c2| - 1;
    assert s[|c1|] == a2[i];
  }

  /** `!!stateMap[key]`: a key never toggled reads as off. */
  function IsOn(m: map<string, bool>, key: string): bool {
    key in m && m[key]
  }

  /** Flipping a switch and then writing back the opposite of the flipped value restores
      what the panel showed before, and leaves a switch never touched explicitly off. */
  lemma RollbackRestores(m: map<string, bool>, key: string)
    ensures var next := !IsOn(m, key);
            m[key := next][key := !next] == (if key in m then m else m[key := false])
  {
  }

  /** `/api/control_device/${encodeURIComponent(deviceCode)}`. */
  function ControlUrl(code: string): string {
    "/api/control_device/" + EncodeUriComponent(code)
  }

  /** A request in flight: the key flipped, its new value, and what was sent. */
  datatype Pending = Pending(key: string, next: bool, url: string, payload: Object)

  /** How the request ends: accepted, or refused with the text of the reply (or the
      network error's message; empty when there is none). */
  datatype Outcome = Accepted | Refused(message: string)

  function FailureText(message: string): string {
    "제어 실패: " + (if message != "" then message else "알 수 없음")
  }

  class Panel {
    var stateMap: map<string, bool>
    var busy: bool
    /** The alerts shown, in order. */
    var alerts: seq<string>

    constructor ()
      ensures stateMap == map[] && !busy && alerts == []
    {
      stateMap, busy, alerts := map[], false, [];
    }

    /** The part of `toggle(aid)` before the request: nothing without a device or while
        another request runs; otherwise the switch flips on screen and the panel turns busy. */
    method Toggle(code: string, aid: string) returns (p: Option<Pending>)
      modifies this`stateMap, this`busy
      ensures code == "" || old(busy) ==> p == None && stateMap == old(stateMap) && busy == old(busy)
      ensures code != "" && !old(busy) ==>
                var key := Key(code, aid);
                p == Some(Pending(key, !IsOn(old(stateMap), key), ControlUrl(code), Payload(aid, !IsOn(old(stateMap), key))))
                && stateMap == old(stateMap)[key := !IsOn(old(stateMap), key)] && busy
    {
      if code == "" || busy {
        return None;
      }
      var key := Key(code, aid);
      var next := !IsOn(stateMap, key);
      stateMap := stateMap[key := next];
      busy := true;
      p := Some(Pending(key, next, ControlUrl(code), Payload(aid, next)));
    }

    /** The part after the request: a refusal writes back the opposite of the flipped
        value and alerts; either way the panel is no longer busy. */
    method Settle(p: Pending, outcome: Outcome)
      modifies this`stateMap, this`busy, this`alerts
      ensures outcome.Accepted? ==> stateMap == old(stateMap) && alerts == old(alerts)
      ensures outcome.Refused? ==>
                stateMap == old(stateMap)[p.key := !p.next] && alerts == old(alerts) + [FailureText(outcome.message)]
      ensures !busy
    {
      if outcome.Refused? {
        stateMap := stateMap[p.key := !p.next];
        alerts := alerts + [FailureText(outcome.message)];
      }
      busy := false;
    }
  }

  /** A whole refused toggle leaves every switch showing what it showed before, and only
      the toggled key may have gained an explicit off. */
  lemma RefusedToggleRestores(m: map<string, bool>, code: string, aid: string)
    requires code != ""
    ensures var key := Key(code, aid);
            var next := !IsOn(m, key);
            forall k :: IsOn(m[key := next][key := !next], k) == IsOn(m, k)
  {
    RollbackRestores(m, Key(code, aid));
  }
}
