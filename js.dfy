/** The slice of JavaScript's runtime semantics that the dashboard's logic relies on:
    values and plain objects, truthiness, `String(...)`, `.toString()`, `Number(...)`,
    `parseInt`, `Array.prototype.slice` and `Math.ceil` of a quotient. */
module Js {

  datatype Result<T, E> = Ok(value: T) | Err(error: E)

  datatype Option<T> = None | Some(value: T)

  /** The error a property access on `undefined` or `null` throws. */
  datatype JsError = TypeError

  /** Integral JavaScript numbers, plus NaN (fractions and infinities are not modelled). */
  datatype JsNumber = Int(i: int) | NaN

  /** A JavaScript value as it appears in form state, request bodies and decoded sheet rows. */
  datatype Value = Undefined | Null | Str(s: string) | Num(n: JsNumber) | Bool(b: bool)

  /** A plain object: own enumerable properties. */
  type Obj = map<string, Value>

  /** Property read: a missing key reads as `undefined`. */
  function Get(o: Obj, key: string): (v: Value)
    ensures key !in o ==> v == Undefined
    ensures key in o ==> v == o[key]
  {
    if key in o then o[key] else Undefined
  }

  /** `{...a, ...b}`: every property of `b`, and the properties of `a` that `b` lacks. */
  function Spread(a: Obj, b: Obj): (r: Obj)
    ensures r.Keys == a.Keys + b.Keys
    ensures forall k :: k in b ==> r[k] == b[k]
    ensures forall k :: k in a && k !in b ==> r[k] == a[k]
  {
    a + b
  }

  /** The text of a string value; other values have none. */
  function Text(v: Value): (t: string)
    ensures v.Str? ==> t == v.s
  {
    if v.Str? then v.s else ""
  }

  predicate Truthy(v: Value) {
    match v
    case Undefined => false
    case Null => false
    case Str(s) => s != ""
    case Num(n) => n.Int? && n.i != 0
    case Bool(b) => b
  }

  /** `a || b`: the first operand when it is truthy, otherwise the second. */
  function Or(a: Value, b: Value): (r: Value)
    ensures Truthy(r) <==> Truthy(a) || Truthy(b)
    ensures r == a || r == b
  {
    if Truthy(a) then a else b
  }

  // ---------------------------------------------------------------- characters

  predicate IsDigit(c: char) { '0' <= c <= '9' }

  predicate IsHexDigit(c: char) { IsDigit(c) || 'a' <= c <= 'f' || 'A' <= c <= 'F' }

  /** The regular expression `/^\d+$/`: non-empty and decimal digits only. */
  predicate AllDigits(s: string) {
    |s| > 0 && forall i :: 0 <= i < |s| ==> IsDigit(s[i])
  }

  /** White space and line terminators, as `trim` and `parseInt` skip them. */
  predicate IsJsSpace(c: char) {
    c == '\t' || c == '\n' || c == '\U{000B}' || c == '\U{000C}' || c == '\r' || c == ' '
    || c == '\U{00A0}' || c == '\U{1680}' || '\U{2000}' <= c <= '\U{200A}'
    || c == '\U{2028}' || c == '\U{2029}' || c == '\U{202F}' || c == '\U{205F}'
    || c == '\U{3000}' || c == '\U{FEFF}'
  }

  function DigitValue(c: char): (d: nat)
    requires IsHexDigit(c)
    ensures d < 16
    ensures IsDigit(c) ==> d < 10
  {
    if IsDigit(c) then (c as int) - ('0' as int)
    else if 'a' <= c <= 'f' then (c as int) - ('a' as int) + 10
    else (c as int) - ('A' as int) + 10
  }

  function DigitChar(d: nat): (c: char)
    requires d < 10
    ensures IsDigit(c) && DigitValue(c) == d
  {
    ('0' as int + d) as char
  }

  // ---------------------------------------------------------------- number to text

  /** Decimal digits of a natural number, without leading zeros. */
  function NatToString(n: nat): (s: string)
    ensures AllDigits(s)
    decreases n
  {
    if n < 10 then [DigitChar(n)] else NatToString(n / 10) + [DigitChar(n % 10)]
  }

  /** `String(i)` for an integral number. */
  function IntToString(i: int): string {
    if i < 0 then "-" + NatToString(-i) else NatToString(i)
  }

  /** `String(n)`. */
  function NumberToString(n: JsNumber): string {
    match n
    case Int(i) => IntToString(i)
    case NaN => "NaN"
  }

  /** `String(v)`. */
  function ToJsString(v: Value): string {
    match v
    case Undefined => "undefined"
    case Null => "null"
    case Str(s) => s
    case Num(n) => NumberToString(n)
    case Bool(b) => if b then "true" else "false"
  }

  /** `v.toString()`: throws on `undefined` and `null`, otherwise agrees with `String(v)`. */
  function ToStringMethod(v: Value): (r: Result<string, JsError>)
    ensures r.Err? <==> v.Undefined? || v.Null?
    ensures r.Ok? ==> r.value == ToJsString(v)
  {
    if v.Undefined? || v.Null? then Err(TypeError) else Ok(ToJsString(v))
  }

  /** `undefined` or `null`: reading a property of either throws. */
  predicate Nullish(v: Value) {
    v.Undefined? || v.Null?
  }

  /** `{...row, [key]: row[key].toString()}`: throws when the field is missing or null. */
  function StringifyField(row: Obj, key: string): (r: Result<Obj, JsError>)
    ensures r.Err? <==> Nullish(Get(row, key))
    ensures r.Ok? ==> r.value.Keys == row.Keys && key in row
    ensures r.Ok? ==> r.value[key] == Str(ToJsString(row[key]))
    ensures r.Ok? ==> forall k :: k in row && k != key ==> r.value[k] == row[k]
  {
    match ToStringMethod(Get(row, key))
    case Err(e) => Err(e)
    case Ok(text) => Ok(Spread(row, map[key := Str(text)]))
  }

  /** A field that is already text is left as it is. */
  lemma StringifyFieldOfText(row: Obj, key: string)
    requires key in row && row[key].Str?
    ensures StringifyField(row, key) == Ok(row)
  {
    assert ToStringMethod(Get(row, key)) == Ok(row[key].s);
    assert Str(row[key].s) == row[key];
    var r := Spread(row, map[key := row[key]]);
    assert StringifyField(row, key) == Ok(r);
    assert r.Keys == row.Keys;
    assert forall k :: k in r ==> r[k] == row[k];
    assert r == row;
  }

  /** `xs.map(f)` with a callback that may throw: the first throw ends the map. */
  function MapOrThrow<T, U>(xs: seq<T>, f: T -> Result<U, JsError>): (r: Result<seq<U>, JsError>)
    ensures r.Ok? <==> forall i :: 0 <= i < |xs| ==> f(xs[i]).Ok?
    ensures r.Ok? ==> |r.value| == |xs| && forall i :: 0 <= i < |xs| ==> r.value[i] == f(xs[i]).value
  {
    if xs == [] then Ok([])
    else match f(xs[0])
      case Err(e) => Err(e)
      case Ok(y) =>
        match MapOrThrow(xs[1..], f)
        case Err(e) => Err(e)
        case Ok(ys) => Ok([y] + ys)
  }

  // ---------------------------------------------------------------- text to number

  function TrimStart(s: string): (t: string)
    ensures |t| <= |s| && t == s[|s| - |t|..]
    ensures t != [] ==> !IsJsSpace(t[0])
  {
    if |s| > 0 && IsJsSpace(s[0]) then TrimStart(s[1..]) else s
  }

  function TrimEnd(s: string): (t: string)
    ensures |t| <= |s| && t == s[..|t|]
    ensures t != [] ==> !IsJsSpace(t[|t| - 1])
  {
    if |s| > 0 && IsJsSpace(s[|s| - 1]) then TrimEnd(s[..|s| - 1]) else s
  }

  /** The longest prefix of `s` made of decimal digits. */
  function LeadingDigits(s: string): (d: string)
    ensures |d| <= |s| && d == s[..|d|]
    ensures forall i :: 0 <= i < |d| ==> IsDigit(d[i])
    ensures |d| < |s| ==> !IsDigit(s[|d|])
  {
    if |s| > 0 && IsDigit(s[0]) then [s[0]] + LeadingDigits(s[1..]) else []
  }

  /** The longest prefix of `s` made of hexadecimal digits. */
  function LeadingHexDigits(s: string): (d: string)
    ensures |d| <= |s| && d == s[..|d|]
    ensures forall i :: 0 <= i < |d| ==> IsHexDigit(d[i])
    ensures |d| < |s| ==> !IsHexDigit(s[|d|])
  {
    if |s| > 0 && IsHexDigit(s[0]) then [s[0]] + LeadingHexDigits(s[1..]) else []
  }

  /** The value of a digit string in the given base (most significant digit first). */
  function DigitsValue(d: string, base: nat): nat
    requires base == 10 || base == 16
    requires forall i :: 0 <= i < |d| ==> IsHexDigit(d[i])
  {
    if d == [] then 0 else DigitsValue(d[..|d| - 1], base) * base + DigitValue(d[|d| - 1])
  }

  /** How `parseInt` chooses its base: `parseInt(s, 10)` or `parseInt(s)`. */
  datatype Radix = Decimal | Auto

  /** `parseInt(s, 10)` / `parseInt(s)`: skip leading white space, read an optional sign, then
      the longest run of digits (hexadecimal after `0x` when no radix is given); NaN when
      there are no digits. Whatever follows the digits is ignored. */
  function ParseInt(s: string, radix: Radix): JsNumber {
    var t := TrimStart(s);
    if |t| > 0 && t[0] == '-' then Negate(ParseUnsigned(t[1..], radix))
    else if |t| > 0 && t[0] == '+' then ParseUnsigned(t[1..], radix)
    else ParseUnsigned(t, radix)
  }

  /** The digits part of `parseInt`, after white space and sign. */
  function ParseUnsigned(u: string, radix: Radix): JsNumber {
    if radix == Auto && |u| >= 2 && u[0] == '0' && (u[1] == 'x' || u[1] == 'X') then
      var h := LeadingHexDigits(u[2..]);
      if h == [] then NaN else Int(DigitsValue(h, 16))
    else
      var d := LeadingDigits(u);
      if d == [] then NaN else Int(DigitsValue(d, 10))
  }

  function Negate(n: JsNumber): JsNumber {
    match n
    case Int(i) => Int(-i)
    case NaN => NaN
  }

  /** `Number.parseInt(v)` applied to any value: the argument is first turned into text. */
  function ParseIntValue(v: Value): JsNumber {
    ParseInt(ToJsString(v), Auto)
  }

  /** `Number(s)` for text: white space around is ignored, blank text is 0, an optionally
      signed run of decimal digits is its value, anything else is NaN. */
  function StringToNumber(s: string): JsNumber {
    var t := TrimEnd(TrimStart(s));
    if t == [] then Int(0)
    else
      var negative := t[0] == '-';
      var u := if t[0] == '-' || t[0] == '+' then t[1..] else t;
      if AllDigits(u) then Int((if negative then -1 else 1) * DigitsValue(u, 10)) else NaN
  }

  /** `Number(v)`. */
  function ToNumber(v: Value): JsNumber {
    match v
    case Undefined => NaN
    case Null => Int(0)
    case Str(s) => StringToNumber(s)
    case Num(n) => n
    case Bool(b) => Int(if b then 1 else 0)
  }

  /** `n * 2 - 1`. */
  function TwiceMinusOne(n: JsNumber): JsNumber {
    match n
    case Int(i) => Int(2 * i - 1)
    case NaN => NaN
  }

  // ---------------------------------------------------------------- arrays and arithmetic

  /** A relative index of `slice`: negative counts from the end; clamped to `[0, len]`. */
  function SliceIndex(i: int, len: nat): (r: nat)
    ensures r <= len
  {
    if i < 0 then (if len + i < 0 then 0 else len + i) else if i > len then len else i
  }

  /** `s.slice(start, end)`: a new array; `s` itself is a value and is not changed. */
  function Slice<T>(s: seq<T>, start: int, end: int): (r: seq<T>)
    ensures |r| <= |s|
  {
    var from := SliceIndex(start, |s|);
    var to := SliceIndex(end, |s|);
    if from < to then s[from..to] else []
  }

  /** `Math.ceil(n / k)` for a natural `n` and a positive `k`. */
  function CeilDiv(n: nat, k: nat): (r: nat)
    requires k > 0
    ensures (r - 1) * k < n <= r * k || (n == 0 && r == 0)
  {
    if n % k == 0 then n / k else n / k + 1
  }

  // ---------------------------------------------------------------- lemmas

  lemma {:induction false} DigitsValueOfNatToString(n: nat)
    ensures DigitsValue(NatToString(n), 10) == n
    decreases n
  {
    var s := NatToString(n);
    if n >= 10 {
      DigitsValueOfNatToString(n / 10);
      assert s[..|s| - 1] == NatToString(n / 10);
    }
  }

  lemma LeadingDigitsOfAllDigits(s: string)
    requires forall i :: 0 <= i < |s| ==> IsDigit(s[i])
    ensures LeadingDigits(s) == s
  {
  }

  /** The digit run stops at the first character that is not a digit. */
  lemma {:induction false} LeadingDigitsThen(d: string, r: string)
    requires forall i :: 0 <= i < |d| ==> IsDigit(d[i])
    requires r == [] || !IsDigit(r[0])
    ensures LeadingDigits(d + r) == d
    decreases |d|
  {
    if d == [] {
      assert d + r == r;
    } else {
      assert (d + r)[1..] == d[1..] + r;
      LeadingDigitsThen(d[1..], r);
    }
  }

  lemma NoSpaceFirst(u: string)
    requires |u| > 0 && IsDigit(u[0])
    ensures TrimStart(u) == u
  {
    assert !IsJsSpace(u[0]);
  }

  /** `parseInt(s, 10)` ignores whatever follows the digits. */
  lemma ParseIntOfDigitsThen(d: string, r: string)
    requires AllDigits(d) && (r == [] || !IsDigit(r[0]))
    ensures ParseInt(d + r, Decimal) == Int(DigitsValue(d, 10))
  {
    var u := d + r;
    assert u[0] == d[0];
    assert IsDigit(u[0]);
    NoSpaceFirst(u);
    assert ParseInt(u, Decimal) == ParseUnsigned(u, Decimal);
    LeadingDigitsThen(d, r);
  }

  /** Leading white space does not change what `parseInt` reads. */
  lemma ParseIntAfterSpace(c: char, s: string, radix: Radix)
    requires IsJsSpace(c)
    ensures ParseInt([c] + s, radix) == ParseInt(s, radix)
  {
    assert ([c] + s)[1..] == s;
  }

  /** Text that starts with anything but white space, a sign or a digit is NaN. */
  lemma ParseIntOfNonNumeric(s: string, radix: Radix)
    requires |s| > 0 && !IsJsSpace(s[0]) && !IsDigit(s[0]) && s[0] != '-' && s[0] != '+'
    ensures ParseInt(s, radix) == NaN
  {
  }

  /** A single digit parses to its value. */
  lemma ParseIntOfDigit(c: char)
    requires IsDigit(c)
    ensures ParseIntValue(Str([c])) == Int(DigitValue(c))
  {
    ParseIntOfDigits([c], Auto);
    assert [c][..0] == [];
  }

  /** `Number(c)` of a single digit is its value. */
  lemma ToNumberOfDigit(c: char)
    requires IsDigit(c)
    ensures ToNumber(Str([c])) == Int(DigitValue(c))
  {
    assert DigitsValue([c], 10) == DigitValue(c) by { assert [c][..0] == []; }
    StringToNumberOfDigits([c]);
  }

  /** The text of a two-digit number is its two digits. */
  lemma NatToStringTwoDigits(n: nat)
    requires 10 <= n < 100
    ensures NatToString(n) == [DigitChar(n / 10), DigitChar(n % 10)]
  {
  }

  /** `Number(d)` of a run of digits is its value. */
  lemma StringToNumberOfDigits(d: string)
    requires AllDigits(d)
    ensures StringToNumber(d) == Int(DigitsValue(d, 10))
  {
    NoSpaceFirst(d);
    assert IsDigit(d[|d| - 1]);
    assert TrimEnd(d) == d;
    assert d[0] != '-' && d[0] != '+' by { assert IsDigit(d[0]); }
  }

  /** A digit is not white space, so `TrimStart` leaves digit strings alone. */
  lemma TrimStartOfDigits(d: string)
    requires AllDigits(d)
    ensures TrimStart(d) == d && TrimStart("-" + d) == "-" + d
  {
    assert IsDigit(d[0]);
  }

  /** An unsigned run of digits is read whole, in base 10. */
  lemma ParseUnsignedOfDigits(d: string, radix: Radix)
    requires AllDigits(d)
    ensures ParseUnsigned(d, radix) == Int(DigitsValue(d, 10))
  {
    LeadingDigitsOfAllDigits(d);
    assert |d| >= 2 ==> IsDigit(d[1]);
  }

  /** An unsigned run of digits parses to its value. */
  lemma ParseIntOfDigits(d: string, radix: Radix)
    requires AllDigits(d)
    ensures ParseInt(d, radix) == Int(DigitsValue(d, 10))
  {
    TrimStartOfDigits(d);
    ParseUnsignedOfDigits(d, radix);
    assert d[0] != '-' && d[0] != '+';
  }

  /** A minus sign followed by a run of digits parses to the negated value. */
  lemma ParseIntOfNegativeDigits(d: string, radix: Radix)
    requires AllDigits(d)
    ensures ParseInt("-" + d, radix) == Int(-(DigitsValue(d, 10) as int))
  {
    var m := "-" + d;
    TrimStartOfDigits(d);
    ParseUnsignedOfDigits(d, radix);
    assert m[1..] == d;
  }

  /** `parseInt(String(i))` gives `i` back. */
  lemma {:induction false} ParseIntOfIntToString(i: int, radix: Radix)
    ensures ParseInt(IntToString(i), radix) == Int(i)
  {
    var n: nat := if i < 0 then -i else i;
    DigitsValueOfNatToString(n);
    if i < 0 {
      ParseIntOfNegativeDigits(NatToString(n), radix);
    } else {
      ParseIntOfDigits(NatToString(n), radix);
    }
  }

  lemma {:induction false} NatToStringNoLeadingZero(n: nat)
    ensures |NatToString(n)| > 1 ==> NatToString(n)[0] != '0'
    ensures |NatToString(n)| == 1 <==> n < 10
    decreases n
  {
    if n >= 10 {
      NatToStringNoLeadingZero(n / 10);
      if n / 10 >= 10 {
        assert NatToString(n)[0] == NatToString(n / 10)[0];
      }
    }
  }

  /** Distinct integers have distinct decimal spellings. */
  lemma IntToStringInjective(a: int, b: int)
    requires IntToString(a) == IntToString(b)
    ensures a == b
  {
    ParseIntOfIntToString(a, Decimal);
    ParseIntOfIntToString(b, Decimal);
  }
}
