/** Per-account storage namespaces. Each app file hashes the login token with 32-bit
    FNV-1a over its UTF-16 code units and prints the hash in base 36; the printed hash
    (or `guest` without a token) suffixes the browser-storage keys of that account. */
module Namespace {
  import opened Text
  import opened JsValues

  const Uint32Modulus: nat := 0x1_0000_0000
  const FnvOffsetBasis: nat := 2166136261
  const FnvPrime: nat := 16777619

  predicate IsCodeUnit(u: nat) { u < 0x10000 }

  /** UTF-16 code units of one character: a surrogate pair above U+FFFF. */
  function CodeUnits(c: char): (r: seq<nat>)
    ensures 1 <= |r| <= 2 && forall i :: 0 <= i < |r| ==> IsCodeUnit(r[i])
  {
    var v := c as int;
    if v < 0x10000 then [v]
    else [0xD800 + (v - 0x10000) / 0x400, 0xDC00 + (v - 0x10000) % 0x400]
  }

  /** The code units `charCodeAt` walks over. */
  function Utf16(s: string): (r: seq<nat>)
    ensures |r| >= |s| && forall i :: 0 <= i < |r| ==> IsCodeUnit(r[i])
  {
    if s == [] then [] else CodeUnits(s[0]) + Utf16(s[1..])
  }

  /** `h ^ c` on 32-bit patterns. */
  function Xor32(a: nat, b: nat): nat
    requires a < Uint32Modulus && b < Uint32Modulus
  {
    ((a as bv32) ^ (b as bv32)) as nat
  }

  /** One round: `h ^= c; h = Math.imul(h, 16777619)`, with the result read as unsigned. */
  function FnvStep(h: nat, u: nat): (r: nat)
    requires h < Uint32Modulus && IsCodeUnit(u)
    ensures r < Uint32Modulus
  {
    (Xor32(h, u) * FnvPrime) % Uint32Modulus
  }

  function FnvFrom(h: nat, units: seq<nat>): (r: nat)
    requires h < Uint32Modulus && forall i :: 0 <= i < |units| ==> IsCodeUnit(units[i])
    ensures r < Uint32Modulus
    decreases |units|
  {
    if units == [] then h else FnvFrom(FnvStep(h, units[0]), units[1..])
  }

  /** The 32-bit FNV-1a hash of a string, `h >>> 0` at the end. */
  function Fnv1a(s: string): nat {
    FnvFrom(FnvOffsetBasis, Utf16(s))
  }

  /** The hashing loop of `hashStr`, returning the unsigned 32-bit hash. */
  method HashUnits(s: string) returns (h: nat)
    ensures h < Uint32Modulus
    ensures h == Fnv1a(s)
  {
    var units := Utf16(s);
    h := FnvOffsetBasis;
    var i := 0;
    while i < |units|
      invariant 0 <= i <= |units| && h < Uint32Modulus
      invariant FnvFrom(h, units[i..]) == FnvFrom(FnvOffsetBasis, units)
    {
      assert units[i..][1..] == units[i + 1..];
      h := FnvStep(h, units[i]);
      i := i + 1;
    }
    assert units[i..] == [];
  }

  predicate IsBase36Digit(c: char) { IsDigit(c) || 'a' <= c <= 'z' }

  function Base36Digit(d: nat): (c: char)
    requires d < 36
    ensures IsBase36Digit(c)
  {
    if d < 10 then DigitChar(d) else ('a' as int + d - 10) as char
  }

  function Base36Value(c: char): nat
    requires IsBase36Digit(c)
  {
    if IsDigit(c) then c as int - '0' as int else c as int - 'a' as int + 10
  }

  /** `n.toString(36)`. */
  function ToBase36(n: nat): (r: string)
    ensures |r| >= 1 && forall i :: 0 <= i < |r| ==> IsBase36Digit(r[i])
  {
    if n < 36 then [Base36Digit(n)] else ToBase36(n / 36) + [Base36Digit(n % 36)]
  }

  function FromBase36(s: string): nat
    requires forall i :: 0 <= i < |s| ==> IsBase36Digit(s[i])
  {
    if s == [] then 0 else FromBase36(s[..|s| - 1]) * 36 + Base36Value(s[|s| - 1])
  }

  /** Reading the base-36 rendering back gives the hash. */
  lemma {:induction false} Base36RoundTrip(n: nat)
    ensures FromBase36(ToBase36(n)) == n
  {
    var r := ToBase36(n);
    if n >= 36 {
      Base36RoundTrip(n / 36);
      assert r[..|r| - 1] == ToBase36(n / 36);
    }
  }

  /** Distinct hashes print as distinct keys. */
  lemma Base36Injective(m: nat, n: nat)
    requires ToBase36(m) == ToBase36(n)
    ensures m == n
  {
    Base36RoundTrip(m);
    Base36RoundTrip(n);
  }

  /** `hashStr`: the hash in base 36. */
  method HashStr(s: string) returns (key: string)
    ensures key == ToBase36(Fnv1a(s))
    ensures FromBase36(key) == Fnv1a(s)
  {
    var h := HashUnits(s);
    key := ToBase36(h);
    Base36RoundTrip(h);
  }

  /** `userKeyFromToken(t)`: `t ? hashStr(String(t)) : 'guest'`. */
  function UserKeyFromToken(t: Js): string {
    if Truthy(t) then ToBase36(Fnv1a(ToStr(t))) else "guest"
  }

  /** The one hash whose base-36 text is `guest`. */
  const GuestHash: nat := 28292717

  lemma GuestHashPrintsGuest()
    ensures ToBase36(GuestHash) == "guest"
  {
    assert ToBase36(16) == "g";
    AppendDigit(16, 30);
    AppendDigit(606, 14);
    AppendDigit(21830, 28);
    AppendDigit(785908, 29);
    assert Base36Digit(30) == 'u' && Base36Digit(14) == 'e' && Base36Digit(28) == 's' && Base36Digit(29) == 't';
  }

  lemma AppendDigit(q: nat, d: nat)
    requires q >= 1 && d < 36
    ensures ToBase36(q * 36 + d) == ToBase36(q) + [Base36Digit(d)]
  {
    var n := q * 36 + d;
    assert n / 36 == q && n % 36 == d;
  }

  /** A signed-in account shares the guest namespace exactly when its token hashes
      to 28292717: anonymous storage is not reserved. */
  lemma UserKeyIsGuest(t: Js)
    ensures UserKeyFromToken(t) == "guest" <==> !Truthy(t) || Fnv1a(ToStr(t)) == GuestHash
  {
    GuestHashPrintsGuest();
    if Truthy(t) && UserKeyFromToken(t) == "guest" {
      Base36Injective(Fnv1a(ToStr(t)), GuestHash);
    }
  }

  /** The storage keys one account's devices live under (`keysFor`). */
  datatype StoreKeys = StoreKeys(client: string, thumbs: string, meta: string, deleted: string, legacy: string)

  const SettingsKey: string := "greeneye_settings"
  const LegacyDevicesKey: string := "greeneye_devices"

  function KeysFor(t: Js): StoreKeys {
    var uk := UserKeyFromToken(t);
    StoreKeys("greeneye_client_devices:" + uk, "greeneye_thumbs:" + uk, "greeneye_meta:" + uk,
              "greeneye_deleted:" + uk, LegacyDevicesKey)
  }

  lemma SuffixOfSamePrefix(p: string, a: string, b: string)
    requires p + a == p + b
    ensures a == b
  {
    assert a == (p + a)[|p|..];
    assert b == (p + b)[|p|..];
  }

  /** Two accounts with different namespaces never share a per-account key; every account
      shares the one legacy list. */
  lemma KeysSeparateAccounts(t1: Js, t2: Js)
    requires UserKeyFromToken(t1) != UserKeyFromToken(t2)
    ensures KeysFor(t1).client != KeysFor(t2).client && KeysFor(t1).thumbs != KeysFor(t2).thumbs
    ensures KeysFor(t1).meta != KeysFor(t2).meta && KeysFor(t1).deleted != KeysFor(t2).deleted
    ensures KeysFor(t1).legacy == KeysFor(t2).legacy
  {
    var u1, u2 := UserKeyFromToken(t1), UserKeyFromToken(t2);
    if KeysFor(t1).client == KeysFor(t2).client { SuffixOfSamePrefix("greeneye_client_devices:", u1, u2); }
    if KeysFor(t1).thumbs == KeysFor(t2).thumbs { SuffixOfSamePrefix("greeneye_thumbs:", u1, u2); }
    if KeysFor(t1).meta == KeysFor(t2).meta { SuffixOfSamePrefix("greeneye_meta:", u1, u2); }
    if KeysFor(t1).deleted == KeysFor(t2).deleted { SuffixOfSamePrefix("greeneye_deleted:", u1, u2); }
  }

  lemma PrefixedAt(p: string, u: string, i: nat)
    requires i < |p|
    ensures |p + u| > i && (p + u)[i] == p[i]
  {
  }

  /** Within one account the stores never overwrite each other or the settings. */
  lemma KeysDistinct(t: Js)
    ensures var k := KeysFor(t);
      |{k.client, k.thumbs, k.meta, k.deleted, k.legacy, SettingsKey}| == 6
  {
    var k := KeysFor(t);
    var uk := UserKeyFromToken(t);
    PrefixedAt("greeneye_client_devices:", uk, 9);
    PrefixedAt("greeneye_thumbs:", uk, 9);
    PrefixedAt("greeneye_meta:", uk, 9);
    PrefixedAt("greeneye_deleted:", uk, 9);
    PrefixedAt("greeneye_deleted:", uk, 11);
    assert k.legacy[9] == 'd' && k.legacy[11] == 'v' && SettingsKey[9] == 's';
  }
}
