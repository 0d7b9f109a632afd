/** The mock back end the current app talks to in development: the device list kept in
    browser storage, device registration, and the deterministic helpers behind the dummy
    sensor readings (the tick period, the 32-bit hash, the linear congruential generator
    and `clamp`). */
module Mocks {
  import opened Text
  import opened JsValues
  import opened LocalStores
  import Namespace

  // ---------------------------------------------------------------------------------
  // Device codes
  // ---------------------------------------------------------------------------------

  /** `s.replace(/[^A-Za-z0-9]/g, '')`: the ASCII letters and digits of `s`, in order. */
  function KeepAlnum(s: string): (r: string)
    ensures |r| <= |s|
    ensures forall c :: c in r ==> IsAsciiAlnum(c)
  {
    if s == [] then []
    else (if IsAsciiAlnum(s[0]) then [s[0]] else []) + KeepAlnum(s[1..])
  }

  /** `toCode`: blank text gives `''`; otherwise the last four ASCII letters and digits
      (all of them when there are fewer), with their case kept. */
  function ToCode(raw: Js): (r: string)
    ensures |r| <= 4
    ensures forall c :: c in r ==> IsAsciiAlnum(c)
    ensures Trim(StrOrEmpty(raw)) == "" ==> r == ""
  {
    var s := Trim(StrOrEmpty(raw));
    if s == "" then ""
    else
      var alnum := KeepAlnum(s);
      if |alnum| >= 4 then alnum[|alnum| - 4..] else alnum
  }

  lemma AlnumIsNotSpace(c: char)
    requires IsAsciiAlnum(c)
    ensures !IsJsSpace(c)
  {
  }

  lemma {:induction false} KeepAppend(a: string, b: string)
    ensures KeepAlnum(a + b) == KeepAlnum(a) + KeepAlnum(b)
  {
    if a == [] {
      assert a + b == b;
    } else {
      assert (a + b)[0] == a[0];
      assert (a + b)[1..] == a[1..] + b;
      KeepAppend(a[1..], b);
    }
  }

  lemma {:induction false} KeepTrimStart(s: string)
    ensures KeepAlnum(TrimStart(s)) == KeepAlnum(s)
  {
    if s != [] && IsJsSpace(s[0]) {
      KeepTrimStart(s[1..]);
    }
  }

  lemma {:induction false} KeepTrimEnd(s: string)
    ensures KeepAlnum(TrimEnd(s)) == KeepAlnum(s)
  {
    if s != [] && IsJsSpace(s[|s| - 1]) {
      var init := s[..|s| - 1];
      KeepTrimEnd(init);
      assert s == init + [s[|s| - 1]];
      KeepAppend(init, [s[|s| - 1]]);
    }
  }

  /** Letters and digits are never white space, so `trim` and the blank check do not
      change the code: it is the last four letters and digits of the text. */
  lemma ToCodeIsTail(raw: Js)
    ensures ToCode(raw) == LastN(KeepAlnum(StrOrEmpty(raw)), 4)
  {
    var s := StrOrEmpty(raw);
    KeepTrimStart(s);
    KeepTrimEnd(TrimStart(s));
  }

  lemma {:induction false} KeepAllAlnum(s: string)
    requires forall c :: c in s ==> IsAsciiAlnum(c)
    ensures KeepAlnum(s) == s
  {
    if s != [] {
      assert s[0] in s;
      assert forall c :: c in s[1..] ==> c in s;
      KeepAllAlnum(s[1..]);
    }
  }

  /** Text made of letters and digits has no white space to trim. */
  lemma AlnumTrim(r: string)
    requires r != [] && forall c :: c in r ==> IsAsciiAlnum(c)
    ensures Trim(r) == r
  {
    assert r[0] in r && r[|r| - 1] in r;
    AlnumIsNotSpace(r[0]);
    AlnumIsNotSpace(r[|r| - 1]);
    assert TrimStart(r) == r;
  }

  /** Text of at most four letters and digits is its own code. */
  lemma AlnumCode(r: string)
    requires |r| <= 4 && forall c :: c in r ==> IsAsciiAlnum(c)
    ensures ToCode(Str(r)) == r
  {
    if r != "" {
      AlnumTrim(r);
      KeepAllAlnum(r);
      assert r[|r| - |r|..] == r;
    }
  }

  /** A code is its own code. */
  lemma ToCodeIdempotent(raw: Js)
    ensures ToCode(Str(ToCode(raw))) == ToCode(raw)
  {
    AlnumCode(ToCode(raw));
  }

  // ---------------------------------------------------------------------------------
  // The device list
  // ---------------------------------------------------------------------------------

  /** A device as the mock serves it. */
  datatype MockDevice = MockDevice(deviceCode: string, name: Js, imageUrl: Js, room: Js, species: Js)

  /** `normalizeDevice`: the first present of each alias chain, `''` when none is. */
  function NormalizeDevice(d: Js): (r: MockDevice)
    ensures |r.deviceCode| <= 4
    ensures !Nullish(r.name) && !Nullish(r.imageUrl) && !Nullish(r.room) && !Nullish(r.species)
  {
    MockDevice(
      ToCode(Coalesce(OptProp(d, "deviceCode"), Coalesce(OptProp(d, "device_code"),
             Coalesce(OptProp(d, "device_id"), Coalesce(OptProp(d, "mac"), OptProp(d, "mac_address")))))),
      Coalesce(OptProp(d, "name"), Coalesce(OptProp(d, "friendly_name"), Str(""))),
      Coalesce(OptProp(d, "imageUrl"), Coalesce(OptProp(d, "photoUrl"), Coalesce(OptProp(d, "thumbnail"), Str("")))),
      Coalesce(OptProp(d, "room"), Str("")),
      Coalesce(OptProp(d, "species"), Str("")))
  }

  /** The JSON object a normalised device is sent as. */
  function AsJson(m: MockDevice): Js {
    Obj(map["deviceCode" := Str(m.deviceCode), "name" := m.name, "imageUrl" := m.imageUrl,
            "room" := m.room, "species" := m.species])
  }

  /** Normalising a served device again gives it back unchanged. */
  lemma NormalizeIdempotent(d: Js)
    ensures NormalizeDevice(AsJson(NormalizeDevice(d))) == NormalizeDevice(d)
  {
    ToCodeIdempotent(Coalesce(OptProp(d, "deviceCode"), Coalesce(OptProp(d, "device_code"),
             Coalesce(OptProp(d, "device_id"), Coalesce(OptProp(d, "mac"), OptProp(d, "mac_address"))))));
    NormalizeSent(NormalizeDevice(d));
  }

  /** Normalising a device as it is sent reads each field back from its own key. */
  lemma NormalizeSent(n: MockDevice)
    requires !Nullish(n.name) && !Nullish(n.imageUrl) && !Nullish(n.room) && !Nullish(n.species)
    ensures NormalizeDevice(AsJson(n)) == MockDevice(ToCode(Str(n.deviceCode)), n.name, n.imageUrl, n.room, n.species)
  {
    var j := AsJson(n);
    assert OptProp(j, "deviceCode") == Str(n.deviceCode);
    assert OptProp(j, "name") == n.name && OptProp(j, "imageUrl") == n.imageUrl;
    assert OptProp(j, "room") == n.room && OptProp(j, "species") == n.species;
  }

  /** `.filter(d => d.deviceCode)`. */
  function Coded(ds: seq<MockDevice>): (r: seq<MockDevice>)
    ensures |r| <= |ds|
    ensures forall x :: x in r ==> x.deviceCode != ""
  {
    if ds == [] then []
    else (if ds[0].deviceCode != "" then [ds[0]] else []) + Coded(ds[1..])
  }

  /** The filter keeps exactly the devices with a code. */
  lemma {:induction false} CodedMembers(ds: seq<MockDevice>)
    ensures forall x :: x in Coded(ds) <==> x in ds && x.deviceCode != ""
  {
    if ds != [] {
      CodedMembers(ds[1..]);
      assert ds == [ds[0]] + ds[1..];
    }
  }

  /** `GET /api/devices`: `readDevices().map(normalizeDevice).filter(…)`. `None` when the
      handler throws: the stored value is not an array, or one of its entries is `null`. */
  function ListDevices(slot: Slot): (r: Option<seq<MockDevice>>)
    ensures r.Some? <==> ReadOrNull(slot, Arr([])).Arr? && Null !in ReadOrNull(slot, Arr([])).items
    ensures r.Some? ==> forall x :: x in r.value ==> x.deviceCode != ""
    ensures !slot.Json? ==> r == Some([])
  {
    var v := ReadOrNull(slot, Arr([]));
    if !v.Arr? || Null in v.items then None
    else Some(Coded(seq(|v.items|, i requires 0 <= i < |v.items| => NormalizeDevice(v.items[i]))))
  }

  /** The list holds the normalised form of exactly the stored devices that have a code. */
  lemma ListedDevices(slot: Slot, x: MockDevice)
    requires ListDevices(slot).Some?
    ensures var items := ReadOrNull(slot, Arr([])).items;
            x in ListDevices(slot).value <==> x.deviceCode != "" && exists i :: 0 <= i < |items| && x == NormalizeDevice(items[i])
  {
    var items := ReadOrNull(slot, Arr([])).items;
    var ns := seq(|items|, i requires 0 <= i < |items| => NormalizeDevice(items[i]));
    CodedMembers(ns);
    if x in ns {
      var i :| 0 <= i < |ns| && ns[i] == x;
      assert x == NormalizeDevice(items[i]);
    }
    if exists i :: 0 <= i < |items| && x == NormalizeDevice(items[i]) {
      var i :| 0 <= i < |items| && x == NormalizeDevice(items[i]);
      assert ns[i] == x;
    }
  }

  /** `String(body.mac_address || '').trim()`. */
  function MacText(b: Js): string {
    Trim(ToStr(Or(OptProp(b, "mac_address"), Str(""))))
  }

  /** The id registration falls back to. */
  const FallbackId: string := "0000"

  /** `POST /api/register_device`: `toCode(mac_address)` or `'0000'`. `None` when the
      parsed body is `null`, whose `mac_address` throws; a body that does not parse is `{}`. */
  function Register(body: Option<Js>): (r: Option<string>)
    ensures r.None? <==> body.Some? && Nullish(body.value)
    ensures r.Some? ==> 1 <= |r.value| <= 4 && forall c :: c in r.value ==> IsAsciiAlnum(c)
  {
    var b := if body.Some? then body.value else Obj(map[]);
    if Nullish(b) then None
    else
      var code := ToCode(Str(MacText(b)));
      FallbackIsCode(FallbackId);
      Some(if code != "" then code else FallbackId)
  }

  lemma FallbackIsCode(z: string)
    requires z == FallbackId
    ensures |z| == 4 && forall c :: c in z ==> IsAsciiAlnum(c)
  {
  }

  /** The registered id is a device code already: `toCode` keeps it as it is, and it is
      `'0000'` when the MAC text has no letter or digit. */
  lemma RegisteredIsCode(body: Option<Js>)
    requires Register(body).Some?
    ensures ToCode(Str(Register(body).value)) == Register(body).value
    ensures KeepAlnum(MacText(if body.Some? then body.value else Obj(map[]))) == ""
            ==> Register(body).value == FallbackId
  {
    var b := if body.Some? then body.value else Obj(map[]);
    var mac := MacText(b);
    ToCodeIdempotent(Str(mac));
    ToCodeIsTail(Str(mac));
    FallbackIsCode(FallbackId);
    AlnumCode(FallbackId);
  }

  // ---------------------------------------------------------------------------------
  // The dummy readings
  // ---------------------------------------------------------------------------------

  const DefaultDummyTickMs: real := 10000.0

  /** `getDummyTickMs`: the stored value when it is a finite number within one second and
      ten minutes, the default of ten seconds otherwise. A missing entry reads as
      `Number(null)`, which is 0. */
  function DummyTickMs(item: Option<string>): (ms: real)
    ensures 1000.0 <= ms <= 600000.0
    ensures ms != DefaultDummyTickMs ==> item.Some? && ToNumber(Str(item.value)) == Finite(ms)
    ensures (item.Some? && ToNumber(Str(item.value)).Finite? &&
             1000.0 <= ToNumber(Str(item.value)).r <= 600000.0) ==> ms == ToNumber(Str(item.value)).r
    ensures item.None? ==> ms == DefaultDummyTickMs
  {
    var v := ToNumber(if item.Some? then Str(item.value) else Null);
    if v.Finite? && v.r >= 1000.0 && v.r <= 600000.0 then v.r else DefaultDummyTickMs
  }

  /** The LCG step of `makePRNG`: `x = (x * 1664525 + 1013904223) >>> 0`. */
  function LcgStep(x: nat): (y: nat)
    requires x < Namespace.Uint32Modulus
    ensures y < Namespace.Uint32Modulus
  {
    (x * 1664525 + 1013904223) % Namespace.Uint32Modulus
  }

  /** From a 32-bit state the product stays below 2^53, so the double arithmetic of the
      source computes it exactly and the integer step above loses nothing. */
  lemma LcgExact(x: nat)
    requires x < Namespace.Uint32Modulus
    ensures x * 1664525 + 1013904223 < 0x20_0000_0000_0000
  {
    assert x * 1664525 <= 0xFFFF_FFFF * 1664525;
  }

  /** The generator `makePRNG` returns, with its closed-over state `x`. */
  class Prng {
    var x: nat

    predicate Valid()
      reads this
    {
      x < Namespace.Uint32Modulus
    }

    /** `let x = seed >>> 0`. */
    constructor (seed: int)
      ensures Valid() && x == seed % Namespace.Uint32Modulus
    {
      x := seed % Namespace.Uint32Modulus;
    }

    /** One call: the next state, and `x / 0x100000000`. */
    method Next() returns (r: real)
      requires Valid()
      modifies this
      ensures Valid() && x == LcgStep(old(x))
      ensures r == x as real / Namespace.Uint32Modulus as real && 0.0 <= r < 1.0
    {
      LcgExact(x);
      x := (x * 1664525 + 1013904223) % Namespace.Uint32Modulus;
      r := x as real / Namespace.Uint32Modulus as real;
    }
  }

  /** `Math.min(Math.max(v, a), b)`. */
  function Clamp(v: real, a: real, b: real): (r: real)
    ensures a <= b ==> a <= r <= b
    ensures a <= v <= b ==> r == v
    ensures r == v || r == a || r == b
  {
    var m := if v >= a then v else a;
    if m <= b then m else b
  }
}
