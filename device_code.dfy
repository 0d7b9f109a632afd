/** Device identity in the current front end. The Dashboard (and its copy in Settings)
    reduces any spelling of a device code to one canonical form: the sensor-box form
    `ge-sd-xxxx` when the last four alphanumerics are hex digits, the lower-cased
    alphanumerics otherwise. Registration (`toMacNorm`, `isValidGeSd`) and the Settings
    control call (`deviceIdForApi`) use their own rules, related here to the canonical one. */
module DeviceCode {
  import opened Text
  import opened JsValues

  predicate IsCodeChar(c: char) { IsDigit(c) || IsLowerAscii(c) }
  predicate IsLowerHex(c: char) { IsDigit(c) || 'a' <= c <= 'f' }

  const GeSdPrefix: string := "ge-sd-"

  /** `alnum(s)`: lower-case the text and keep `[0-9a-z]`. */
  function Alnum(s: string): (r: string)
    ensures |r| <= |s|
    ensures forall i :: 0 <= i < |r| ==> IsCodeChar(r[i])
  {
    if s == [] then []
    else (if IsCodeChar(LowerChar(s[0])) then [LowerChar(s[0])] else []) + Alnum(s[1..])
  }

  /** `last4(s)`: the last four of the alphanumerics, or all of them when fewer. */
  function Last4(s: string): string {
    LastN(Alnum(s), 4)
  }

  predicate IsHexTail(t: string) {
    |t| == 4 && forall i :: 0 <= i < 4 ==> IsLowerHex(t[i])
  }

  /** `canonical(s)`. */
  function Canonical(s: string): string {
    var tail := Last4(s);
    if IsHexTail(tail) then GeSdPrefix + tail else Alnum(s)
  }

  /** `sameCode(a, b)`. */
  predicate SameCode(a: string, b: string) {
    Canonical(a) == Canonical(b)
  }

  /** The sensor-box form `ge-sd-` followed by four lower-case hex digits. */
  predicate IsGeSdCode(s: string) {
    |s| == 10 && s[..6] == GeSdPrefix && IsHexTail(s[6..])
  }

  lemma {:induction false} AlnumConcat(a: string, b: string)
    ensures Alnum(a + b) == Alnum(a) + Alnum(b)
  {
    if a != [] {
      assert (a + b)[0] == a[0] && (a + b)[1..] == a[1..] + b;
      AlnumConcat(a[1..], b);
    } else {
      assert a + b == b;
    }
  }

  lemma {:induction false} AlnumKeepsCodeChars(s: string)
    requires forall i :: 0 <= i < |s| ==> IsCodeChar(s[i])
    ensures Alnum(s) == s
  {
    if s != [] {
      AlnumKeepsCodeChars(s[1..]);
      assert [s[0]] + s[1..] == s;
    }
  }

  /** What `canonical` can return: the empty string exactly for input without
      alphanumerics; otherwise either the sensor-box form built from the last four
      alphanumerics, or bare alphanumerics that carry no `-`. A fallback code therefore
      never collides with a sensor-box code. */
  lemma CanonicalForms(s: string)
    ensures Canonical(s) == "" <==> Alnum(s) == ""
    ensures IsGeSdCode(Canonical(s)) <==> IsHexTail(Last4(s))
    ensures IsGeSdCode(Canonical(s)) ==> Canonical(s)[6..] == Last4(s)
    ensures !IsGeSdCode(Canonical(s)) ==> Canonical(s) == Alnum(s) && '-' !in Canonical(s)
  {
    var r := Canonical(s);
    if IsHexTail(Last4(s)) {
      assert r[..6] == GeSdPrefix && r[6..] == Last4(s);
    }
  }

  /** `canonical` is idempotent, so `sameCode` relates every spelling to its canonical form. */
  lemma CanonicalIdempotent(s: string)
    ensures Canonical(Canonical(s)) == Canonical(s)
    ensures SameCode(s, Canonical(s))
  {
    var r := Canonical(s);
    var tail := Last4(s);
    if IsHexTail(tail) {
      AlnumConcat(GeSdPrefix, tail);
      PrefixAlnum();
      AlnumKeepsCodeChars(tail);
      assert Alnum(r) == "gesd" + tail;
      assert LastN("gesd" + tail, 4) == tail;
    } else {
      AlnumKeepsCodeChars(Alnum(s));
    }
  }

  /** A well-formed sensor-box code is its own canonical form. */
  lemma GeSdCodeIsCanonical(s: string)
    requires IsGeSdCode(s)
    ensures Canonical(s) == s
  {
    var tail := s[6..];
    assert s == GeSdPrefix + tail;
    AlnumConcat(GeSdPrefix, tail);
    PrefixAlnum();
    AlnumKeepsCodeChars(tail);
    assert LastN("gesd" + tail, 4) == tail;
  }

  lemma {:induction false} AlnumIgnoresCase(s: string)
    ensures Alnum(Upper(s)) == Alnum(s) && Alnum(Lower(s)) == Alnum(s)
  {
    if s != [] {
      AlnumIgnoresCase(s[1..]);
      assert Upper(s)[1..] == Upper(s[1..]);
      assert Lower(s)[1..] == Lower(s[1..]);
    }
  }

  /** Device codes are compared without regard to letter case: `GE-SD-6C18` and
      `ge-sd-6c18` denote the same device. */
  lemma SameCodeIgnoresCase(s: string)
    ensures SameCode(Upper(s), s) && SameCode(Lower(s), s)
  {
    AlnumIgnoresCase(s);
  }

  /** Separators are ignored: removing any character other than a letter or digit
      (`-`, `:`, a space) does not change which device a code denotes. */
  lemma SameCodeIgnoresSeparator(a: string, c: char, b: string)
    requires !IsCodeChar(LowerChar(c))
    ensures SameCode(a + [c] + b, a + b)
  {
    AlnumConcat(a + [c], b);
    AlnumConcat(a, [c]);
    AlnumConcat(a, b);
    assert [c][1..] == [];
    assert Alnum([c]) == [];
    assert Alnum(a + [c] + b) == Alnum(a + b);
  }

  predicate IsAnyHex(c: char) { IsDigit(c) || 'a' <= c <= 'f' || 'A' <= c <= 'F' }

  /** `deviceIdForApi(code)`: the trailing four hex digits of the text, lower-cased,
      or the empty string when the text does not end in four hex digits. */
  function DeviceIdForApi(code: string): (r: string)
    ensures r == "" || IsHexTail(r)
  {
    if |code| >= 4 && (forall i :: |code| - 4 <= i < |code| ==> IsAnyHex(code[i]))
    then Lower(code[|code| - 4..]) else ""
  }

  /** On a canonical code the control-mode id is the hex tail of a sensor-box code and
      empty for every fallback code, so only sensor boxes receive control calls. */
  lemma DeviceIdForCanonical(s: string)
    ensures DeviceIdForApi(Canonical(s)) != "" <==> IsGeSdCode(Canonical(s))
    ensures IsGeSdCode(Canonical(s)) ==> DeviceIdForApi(Canonical(s)) == Canonical(s)[6..]
  {
    CanonicalForms(s);
    var r := Canonical(s);
    if IsGeSdCode(r) {
      var t := r[6..];
      assert r[|r| - 4..] == t;
      assert Lower(t) == t;
    }
  }

  lemma DeviceIdForApiExample()
    ensures DeviceIdForApi("ge-sd-2e52") == "2e52"
    ensures DeviceIdForApi("GE-SD-2E5") == ""
  {
    assert "ge-sd-2e52"[6..] == "2e52";
  }

  /** Keep `[0-9A-F]`. */
  function UpperHexOnly(s: string): (r: string)
    ensures |r| <= |s| && forall i :: 0 <= i < |r| ==> IsUpperHex(r[i])
  {
    if s == [] then []
    else (if IsUpperHex(s[0]) then [s[0]] else []) + UpperHexOnly(s[1..])
  }

  /** `toMacNorm(v)`: upper-case the text, keep its hex digits, and build `ge-sd-` from
      the last four of them; the empty string when there is no hex digit at all. */
  function ToMacNorm(v: Js): string {
    var hex := UpperHexOnly(Upper(Trim(if Truthy(v) then ToStr(v) else "")));
    var tail := LastN(hex, 4);
    if tail != "" then GeSdPrefix + Lower(tail) else ""
  }

  /** `isValidGeSd(s)`: `/^ge-sd-[0-9a-f]{4}$/`. */
  predicate IsValidGeSd(s: string) {
    IsGeSdCode(s)
  }

  lemma LowerOfUpperHex(t: string)
    requires forall i :: 0 <= i < |t| ==> IsUpperHex(t[i])
    ensures forall i :: 0 <= i < |t| ==> IsLowerHex(Lower(t)[i])
  {
  }

  /** The normalised input passes the format check exactly when it held at least four
      hex digits; it is empty exactly when it held none. */
  lemma ToMacNormValid(v: Js)
    ensures var hex := UpperHexOnly(Upper(Trim(if Truthy(v) then ToStr(v) else "")));
      (IsValidGeSd(ToMacNorm(v)) <==> |hex| >= 4) && (ToMacNorm(v) == "" <==> hex == "")
  {
    var hex := UpperHexOnly(Upper(Trim(if Truthy(v) then ToStr(v) else "")));
    var tail := LastN(hex, 4);
    var r := ToMacNorm(v);
    if tail != "" {
      LowerOfUpperHex(tail);
      assert r[..6] == GeSdPrefix && r[6..] == Lower(tail);
    }
  }

  /** A code already in `ge-sd-xxxx` form survives normalisation unchanged, and then the
      Dashboard's canonical form agrees with it. */
  lemma ToMacNormKeepsValid(s: string)
    requires IsValidGeSd(s)
    ensures ToMacNorm(Str(s)) == s
    ensures Canonical(ToMacNorm(Str(s))) == s
  {
    ToMacNormIdentity(s);
    GeSdCodeIsCanonical(s);
  }

  lemma ToMacNormIdentity(s: string)
    requires IsValidGeSd(s)
    ensures ToMacNorm(Str(s)) == s
  {
    GeSdTrimmed(s);
    GeSdHex(s);
    ToMacNormOfText(s);
    LastFourAfterPrefix(Upper(s[6..]));
    GeSdRebuilt(s);
  }

  lemma LastFourAfterPrefix(ut: string)
    requires |ut| == 4
    ensures LastN("ED" + ut, 4) == ut != ""
  {
  }

  lemma GeSdRebuilt(s: string)
    requires IsGeSdCode(s)
    ensures GeSdPrefix + s[6..] == s
  {
    assert s == s[..6] + s[6..];
  }

  lemma GeSdTrimmed(s: string)
    requires IsValidGeSd(s)
    ensures Trim(s) == s
  {
    assert TrimStart(s) == s;
    assert TrimEnd(s) == s;
  }

  /** The hex digits of an upper-cased `ge-sd-xxxx` code: the `E` and `D` of the prefix,
      then the four of the tail, which lower-case back to the tail. */
  lemma GeSdHex(s: string)
    requires IsValidGeSd(s)
    ensures |Upper(s[6..])| == 4 && Lower(Upper(s[6..])) == s[6..]
    ensures UpperHexOnly(Upper(s)) == "ED" + Upper(s[6..])
  {
    var tail := s[6..];
    GeSdRebuilt(s);
    UpperOfGeSd(tail);
    var ut := Upper(tail);
    UpperHexOnlyConcat("GE-SD-", ut);
    PrefixHexDigits();
    UpperHexKeeps(ut);
  }

  /** Upper-casing a hex tail gives upper-case hex digits that lower-case back to it. */
  lemma UpperOfGeSd(tail: string)
    requires IsHexTail(tail)
    ensures Upper(GeSdPrefix + tail) == "GE-SD-" + Upper(tail)
    ensures |Upper(tail)| == 4 && Lower(Upper(tail)) == tail
    ensures forall i :: 0 <= i < 4 ==> IsUpperHex(Upper(tail)[i])
  {
    UpperConcat(GeSdPrefix, tail);
    PrefixUpper();
    var ut := Upper(tail);
    forall i | 0 <= i < 4 ensures IsUpperHex(ut[i]) && LowerChar(ut[i]) == tail[i] {
      assert IsLowerHex(tail[i]);
    }
  }

  lemma ToMacNormOfText(s: string)
    requires s != ""
    ensures var tail := LastN(UpperHexOnly(Upper(Trim(s))), 4);
      ToMacNorm(Str(s)) == if tail != "" then GeSdPrefix + Lower(tail) else ""
  {
    assert Truthy(Str(s)) && ToStr(Str(s)) == s;
  }

  lemma PrefixUpper()
    ensures Upper(GeSdPrefix) == "GE-SD-"
  {
  }

  lemma PrefixHexDigits()
    ensures UpperHexOnly("GE-SD-") == "ED"
  {
  }

  lemma PrefixAlnum()
    ensures Alnum(GeSdPrefix) == "gesd"
  {
  }

  lemma {:induction false} UpperHexOnlyConcat(a: string, b: string)
    ensures UpperHexOnly(a + b) == UpperHexOnly(a) + UpperHexOnly(b)
  {
    if a != [] {
      assert (a + b)[0] == a[0] && (a + b)[1..] == a[1..] + b;
      UpperHexOnlyConcat(a[1..], b);
    } else {
      assert a + b == b;
    }
  }

  lemma {:induction false} UpperHexKeeps(s: string)
    requires forall i :: 0 <= i < |s| ==> IsUpperHex(s[i])
    ensures UpperHexOnly(s) == s
  {
    if s != [] {
      UpperHexKeeps(s[1..]);
      assert [s[0]] + s[1..] == s;
    }
  }

  lemma {:induction false} UpperConcat(a: string, b: string)
    ensures Upper(a + b) == Upper(a) + Upper(b)
  {
  }

  /** The letters E and D of a typed `GE-SD-` prefix count as hex digits: a code typed
      with only two hex digits is completed from the prefix and then passes the format
      check (`ge-sd-12` becomes `ge-sd-ed12`). */
  lemma ToMacNormAbsorbsPrefix(x: char, y: char)
    requires IsUpperHex(x) && IsUpperHex(y)
    ensures ToMacNorm(Str(GeSdPrefix + [x, y])) == GeSdPrefix + ['e', 'd', LowerChar(x), LowerChar(y)]
    ensures IsValidGeSd(ToMacNorm(Str(GeSdPrefix + [x, y])))
  {
    ShortCodeHexDigits(x, y);
    ShortCodeTail(x, y);
    ToMacNormOfText(GeSdPrefix + [x, y]);
    CompletedCodeValid(x, y);
  }

  lemma CompletedCodeValid(x: char, y: char)
    requires IsUpperHex(x) && IsUpperHex(y)
    ensures IsValidGeSd(GeSdPrefix + ['e', 'd', LowerChar(x), LowerChar(y)])
  {
    var r := GeSdPrefix + ['e', 'd', LowerChar(x), LowerChar(y)];
    assert r[..6] == GeSdPrefix;
  }


  lemma ShortCodeTail(x: char, y: char)
    requires IsUpperHex(x) && IsUpperHex(y)
    ensures Lower(LastN("ED" + [x, y], 4)) == ['e', 'd', LowerChar(x), LowerChar(y)]
  {
    assert LastN("ED" + [x, y], 4) == ['E', 'D', x, y];
  }


  lemma ShortCodeHexDigits(x: char, y: char)
    requires IsUpperHex(x) && IsUpperHex(y)
    ensures UpperHexOnly(Upper(Trim(GeSdPrefix + [x, y]))) == "ED" + [x, y]
  {
    ShortCodeTrimmed(x, y);
    ShortCodeUpper(x, y);
    UpperHexOnlyConcat("GE-SD-", [x, y]);
    PrefixHexDigits();
    UpperHexKeeps([x, y]);
  }

  lemma ShortCodeTrimmed(x: char, y: char)
    requires IsUpperHex(x) && IsUpperHex(y)
    ensures Trim(GeSdPrefix + [x, y]) == GeSdPrefix + [x, y]
  {
    var s := GeSdPrefix + [x, y];
    assert TrimStart(s) == s;
    assert TrimEnd(s) == s;
  }

  lemma ShortCodeUpper(x: char, y: char)
    requires IsUpperHex(x) && IsUpperHex(y)
    ensures Upper(GeSdPrefix + [x, y]) == "GE-SD-" + [x, y]
  {
    UpperConcat(GeSdPrefix, [x, y]);
    PrefixUpper();
    assert Upper([x, y]) == [x, y];
  }

}
