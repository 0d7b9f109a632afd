/** JavaScript values as the app handles them: what `JSON.parse` yields, plus
    `undefined` for a property that is not there, with the coercions the code
    relies on (`??`, `||`, truthiness, `String(v)`, `Number(v)`, object spread). */
module JsValues {
  import opened Text

  datatype Option<T> = None | Some(value: T)

  datatype Js =
    | Undefined
    | Null
    | Bool(b: bool)
    | Num(n: real)
    | Str(s: string)
    | Arr(items: seq<Js>)
    | Obj(fields: map<string, Js>)

  /** A plain object; `{...a, ...b}` is the map union `a + b`. */
  type Object = map<string, Js>

  /** `o.k`: a key that is not there reads as `undefined`. */
  function Prop(o: Object, k: string): Js {
    if k in o then o[k] else Undefined
  }

  /** `v?.k`. Arrays and primitives have no named data properties in this model. */
  function OptProp(v: Js, k: string): Js {
    if v.Obj? then Prop(v.fields, k) else Undefined
  }

  predicate Nullish(v: Js) { v.Undefined? || v.Null? }

  /** `a ?? b`: falls through on null and undefined only. */
  function Coalesce(a: Js, b: Js): (r: Js)
    ensures !Nullish(b) ==> !Nullish(r)
    ensures Nullish(r) ==> r == b
  {
    if Nullish(a) then b else a
  }

  predicate Truthy(v: Js) {
    match v
    case Undefined => false
    case Null => false
    case Bool(b) => b
    case Num(n) => n != 0.0
    case Str(s) => s != ""
    case Arr(_) => true
    case Obj(_) => true
  }

  /** `a || b`: falls through on every falsy value, the empty string included. */
  function Or(a: Js, b: Js): Js {
    if Truthy(a) then a else b
  }

  /** `a ?? b` and `a || b` differ exactly on the falsy values that are not nullish. */
  lemma CoalesceVersusOr(a: Js, b: Js)
    ensures Coalesce(a, b) != Or(a, b) ==> !Truthy(a) && !Nullish(a) && a != b
    ensures a == Str("") ==> Coalesce(a, b) == Str("") && Or(a, b) == b
  {
  }

  /** The result of `Number(v)`. */
  datatype NumVal = Finite(r: real) | Infinite(negative: bool) | NaN

  /** Digits of a run in a given radix, for the `0x`, `0o` and `0b` literals. */
  function RadixDigit(c: char, radix: nat): Option<nat> {
    var d :=
      if '0' <= c <= '9' then c as int - '0' as int
      else if 'a' <= c <= 'z' then c as int - 'a' as int + 10
      else if 'A' <= c <= 'Z' then c as int - 'A' as int + 10
      else 99;
    if d < radix then Some(d) else None
  }

  function RadixValue(s: string, radix: nat): Option<nat> {
    if s == [] then Some(0)
    else match (RadixValue(s[..|s| - 1], radix), RadixDigit(s[|s| - 1], radix))
      case (Some(v), Some(d)) => Some(v * radix + d)
      case _ => None
  }

  /** A StrUnsignedDecimalLiteral: digits with an optional fraction and exponent. */
  function UnsignedDecimal(u: string): Option<real> {
    var a := DigitRun(u);
    var intPart, rest := u[..a], u[a..];
    var hasDot := rest != [] && rest[0] == '.';
    var b := if hasDot then DigitRun(rest[1..]) else 0;
    var frac := if hasDot then rest[1..][..b] else "";
    var rest2 := if hasDot then rest[1..][b..] else rest;
    if |intPart| + |frac| == 0 then None
    else
      var mant := DigitsValue(intPart) as real + DigitsValue(frac) as real / Pow10(|frac|) as real;
      if rest2 == [] then Some(mant)
      else if rest2[0] == 'e' || rest2[0] == 'E' then
        var e := rest2[1..];
        var neg := e != [] && e[0] == '-';
        var ed := if e != [] && (e[0] == '-' || e[0] == '+') then e[1..] else e;
        if ed != [] && AllDigits(ed) then
          var scale := Pow10(DigitsValue(ed)) as real;
          Some(if neg then mant / scale else mant * scale)
        else None
      else None
  }

  /** ECMAScript's StringToNumber, as `Number(s)` applies it to a string. */
  function StringToNumber(s: string): NumVal {
    var t := Trim(s);
    if t == "" then Finite(0.0)
    else if t == "Infinity" || t == "+Infinity" then Infinite(false)
    else if t == "-Infinity" then Infinite(true)
    else if |t| > 2 && t[0] == '0' && (t[1] in "xXoObB") then
      var radix := if t[1] in "xX" then 16 else if t[1] in "oO" then 8 else 2;
      match RadixValue(t[2..], radix)
      case Some(v) => Finite(v as real)
      case None => NaN
    else
      var sign, body := if t[0] == '-' then -1.0 else 1.0, if t[0] == '-' || t[0] == '+' then t[1..] else t;
      match UnsignedDecimal(body)
      case Some(v) => Finite(sign * v)
      case None => NaN
  }

  /** `Number(v)`. An array converts through its string form, as ToPrimitive does. */
  function ToNumber(v: Js): NumVal {
    match v
    case Undefined => NaN
    case Null => Finite(0.0)
    case Bool(b) => Finite(if b then 1.0 else 0.0)
    case Num(n) => Finite(n)
    case Str(s) => StringToNumber(s)
    case Arr(_) => StringToNumber(ToStr(v))
    case Obj(_) => NaN
  }

  /** The number of fraction digits JavaScript prints for a non-integral value, searched up to 20. */
  function FractionDigits(r: real, k: nat): Option<nat>
    requires k >= 1
    decreases 21 - k
  {
    if k > 20 then None
    else
      var scaled := r * Pow10(k) as real;
      if scaled == scaled.Floor as real then Some(k) else FractionDigits(r, k + 1)
  }

  function PadLeft(s: string, n: nat): (r: string)
    ensures |r| >= n && |r| >= |s|
    decreases n - |s|
  {
    if |s| >= n then s else PadLeft("0" + s, n)
  }

  /** `String(x)` for a number. */
  function NumberToString(r: real): string {
    if r == r.Floor as real then IntToString(r.Floor)
    else
      match FractionDigits(r, 1)
      case None => IntToString(r.Floor)
      case Some(k) =>
        var scaled := (r * Pow10(k) as real).Floor;
        var digits := PadLeft(NatToString(if scaled < 0 then -scaled else scaled), k + 1);
        (if scaled < 0 then "-" else "") + digits[..|digits| - k] + "." + digits[|digits| - k..]
  }

  /** `String(v)`. */
  function ToStr(v: Js): string {
    match v
    case Undefined => "undefined"
    case Null => "null"
    case Bool(b) => if b then "true" else "false"
    case Num(n) => NumberToString(n)
    case Str(s) => s
    case Arr(items) => JoinItems(items)
    case Obj(_) => "[object Object]"
  }

  /** `Array.prototype.join(",")`: null and undefined elements print as the empty string. */
  function JoinItems(items: seq<Js>): string
    decreases items
  {
    if items == [] then ""
    else
      var head := if Nullish(items[0]) then "" else ToStr(items[0]);
      if |items| == 1 then head else head + "," + JoinItems(items[1..])
  }

  /** `String(x ?? '')`, the way the app turns an optional identifier into text. */
  function StrOrEmpty(v: Js): string {
    if Nullish(v) then "" else ToStr(v)
  }

  lemma {:induction false} DigitRunAll(s: string)
    requires AllDigits(s)
    ensures DigitRun(s) == |s|
  {
    if s != [] { DigitRunAll(s[1..]); }
  }

  lemma DigitsTrimmed(t: string)
    requires t != [] && AllDigits(t)
    ensures Trim(t) == t
  {
    assert TrimStart(t) == t;
    assert TrimEnd(t) == t;
  }

  /** A plain run of digits reads as its decimal value. */
  lemma UnsignedDecimalOfDigits(t: string)
    requires t != [] && AllDigits(t)
    ensures UnsignedDecimal(t) == Some(DigitsValue(t) as real)
  {
    DigitRunAll(t);
    assert t[..|t|] == t;
  }

  lemma NatTextNotSpecial(n: nat)
    ensures Trim(NatToString(n)) == NatToString(n)
    ensures UnsignedDecimal(NatToString(n)) == Some(n as real)
  {
    var t := NatToString(n);
    NatToStringRoundTrip(n);
    DigitsTrimmed(t);
    UnsignedDecimalOfDigits(t);
  }

  /** `Number(String(i)) === i` for every integer: the decimal rendering reads back exactly. */
  lemma IntToStringToNumber(i: int)
    ensures StringToNumber(IntToString(i)) == Finite(i as real)
    ensures ToNumber(Str(ToStr(Num(i as real)))) == Finite(i as real)
  {
    IntTextToNumber(i);
    IntegralText(i);
  }

  lemma IntTextToNumber(i: int)
    ensures StringToNumber(IntToString(i)) == Finite(i as real)
  {
    if i < 0 {
      NegativeTextToNumber(i);
    } else {
      NatTextToNumber(i);
    }
  }

  /** `String(x)` of an integral number is its integer rendering. */
  lemma IntegralText(i: int)
    ensures ToStr(Num(i as real)) == IntToString(i)
  {
    assert (i as real).Floor == i;
  }

  lemma NatTextToNumber(n: nat)
    ensures StringToNumber(NatToString(n)) == Finite(n as real)
  {
    var d := NatToString(n);
    NatTextNotSpecial(n);
    assert d != "Infinity" && d != "+Infinity" && d != "-Infinity" by { assert IsDigit(d[0]); }
    assert d[0] == '0' ==> n == 0;
  }

  lemma NegativeTextTrimmed(d: string)
    requires d != [] && AllDigits(d)
    ensures Trim("-" + d) == "-" + d && ("-" + d)[0] == '-' && ("-" + d)[1..] == d
    ensures "-" + d != "Infinity" && "-" + d != "+Infinity" && "-" + d != "-Infinity"
  {
    var t := "-" + d;
    assert TrimStart(t) == t;
    assert TrimEnd(t) == t by { assert t[|t| - 1] == d[|d| - 1]; }
    assert t[1..] == d;
    assert t != "-Infinity" by { assert t[1] == d[0]; assert IsDigit(d[0]); }
  }

  lemma NegativeDigitsToNumber(d: string, v: nat)
    requires d != [] && AllDigits(d) && UnsignedDecimal(d) == Some(v as real)
    ensures StringToNumber("-" + d) == Finite(-(v as real))
  {
    NegativeTextTrimmed(d);
  }

  lemma NegativeTextToNumber(i: int)
    requires i < 0
    ensures StringToNumber(IntToString(i)) == Finite(i as real)
  {
    var n: nat := -i;
    var d := NatToString(n);
    assert d != [] && AllDigits(d) && UnsignedDecimal(d) == Some(n as real) by {
      NatTextNotSpecial(n);
      NatToStringRoundTrip(n);
    }
    assert StringToNumber("-" + d) == Finite(-(n as real)) by {
      NegativeDigitsToNumber(d, n);
    }
    assert IntToString(i) == "-" + d;
  }
}
