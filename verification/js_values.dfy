/**
 * The slice of JavaScript value semantics that the dashboard's rules rely on:
 * truthiness, `??`, `||`, `String(v)`, `Number(v)`, `trim`, `toLowerCase`,
 * `includes`, and property lookup on a parsed JSON object.
 *
 * Numbers are integers here (plus NaN); the rules modelled never depend on a
 * fractional part.
 */
module JsValues {

  datatype Option<+T> = None | Some(value: T)

  /** A JavaScript value as read from a JSON payload or a component prop. */
  datatype Value = Undefined | Null | Bool(b: bool) | Num(n: int) | NaN | Str(s: string)

  /** A parsed JSON object: a missing key reads as `undefined`. */
  type Obj = map<string, Value>

  /** The result of `Number(v)`: always a number. */
  type NumValue = v: Value | v.Num? || v.NaN? witness Num(0)

  function Get(o: Obj, key: string): (r: Value)
    ensures key !in o ==> r == Undefined
  {
    if key in o then o[key] else Undefined
  }

  /** `!!v` */
  predicate Truthy(v: Value) {
    match v
    case Undefined => false
    case Null => false
    case Bool(b) => b
    case Num(n) => n != 0
    case NaN => false
    case Str(s) => s != ""
  }

  /** `v == null`: null or undefined. */
  predicate Nullish(v: Value) {
    v.Undefined? || v.Null?
  }

  /** `a ?? b` */
  function Coalesce(a: Value, b: Value): (r: Value)
    ensures !Nullish(a) ==> r == a
    ensures Nullish(a) ==> r == b
  {
    if Nullish(a) then b else a
  }

  /** `a || b` */
  function Or(a: Value, b: Value): (r: Value)
    ensures Truthy(a) ==> r == a
    ensures !Truthy(a) ==> r == b
  {
    if Truthy(a) then a else b
  }

  /** `vals.find(v => v !== undefined && v !== null)`: `undefined` when nothing qualifies. */
  function FirstDefined(vals: seq<Value>): (r: Value)
    ensures r == Undefined || r in vals
    ensures r != Undefined ==> !Nullish(r)
  {
    if |vals| == 0 then Undefined
    else if !Nullish(vals[0]) then vals[0]
    else FirstDefined(vals[1..])
  }

  /** `FirstDefined` returns the first non-nullish value, skipping nothing else. */
  lemma {:induction false} FirstDefinedIsFirst(vals: seq<Value>, k: nat)
    requires k < |vals| && !Nullish(vals[k])
    requires forall j :: 0 <= j < k ==> Nullish(vals[j])
    ensures FirstDefined(vals) == vals[k]
  {
    if k > 0 {
      FirstDefinedIsFirst(vals[1..], k - 1);
    }
  }

  /** With every candidate nullish, `find` yields `undefined`. */
  lemma {:induction false} FirstDefinedAllNullish(vals: seq<Value>)
    requires forall j :: 0 <= j < |vals| ==> Nullish(vals[j])
    ensures FirstDefined(vals) == Undefined
  {
    if |vals| > 0 {
      FirstDefinedAllNullish(vals[1..]);
    }
  }

  function DigitChar(d: int): char
    requires 0 <= d < 10
  {
    "0123456789"[d]
  }

  /** Decimal digits of a natural number, without leading zeros. */
  function NatDecimal(n: nat): (r: string)
    ensures |r| > 0
    ensures forall i :: 0 <= i < |r| ==> '0' <= r[i] <= '9'
    decreases n
  {
    if n < 10 then [DigitChar(n)] else NatDecimal(n / 10) + [DigitChar(n % 10)]
  }

  /** `String(n)` for an integral number. */
  function Decimal(n: int): (r: string)
    ensures |r| > 0
  {
    if n < 0 then "-" + NatDecimal(-n) else NatDecimal(n)
  }

  /** `String(v)` */
  function ToStr(v: Value): (r: string)
    ensures v.Str? ==> r == v.s
  {
    match v
    case Undefined => "undefined"
    case Null => "null"
    case Bool(b) => if b then "true" else "false"
    case Num(n) => Decimal(n)
    case NaN => "NaN"
    case Str(s) => s
  }

  /** ECMAScript WhiteSpace and LineTerminator code points, the set `trim` removes. */
  predicate IsJsSpace(c: char) {
    c == '\t' || c == '\n' || c == '\U{000B}' || c == '\U{000C}' || c == '\r' || c == ' '
    || c == '\U{00A0}' || c == '\U{1680}' || ('\U{2000}' <= c <= '\U{200A}')
    || c == '\U{2028}' || c == '\U{2029}' || c == '\U{202F}' || c == '\U{205F}'
    || c == '\U{3000}' || c == '\U{FEFF}'
  }

  function TrimStart(s: string): string
    decreases |s|
  {
    if |s| > 0 && IsJsSpace(s[0]) then TrimStart(s[1..]) else s
  }

  function TrimEnd(s: string): string
    decreases |s|
  {
    if |s| > 0 && IsJsSpace(s[|s| - 1]) then TrimEnd(s[..|s| - 1]) else s
  }

  /** `s.trim()` */
  function Trim(s: string): string {
    TrimEnd(TrimStart(s))
  }

  /** `TrimStart` drops a prefix and leaves no leading space. */
  lemma {:induction false} TrimStartShape(s: string)
    ensures var r := TrimStart(s);
      |r| <= |s| && r == s[|s| - |r|..] && (r == [] || !IsJsSpace(r[0]))
    decreases |s|
  {
    if |s| > 0 && IsJsSpace(s[0]) {
      TrimStartShape(s[1..]);
    }
  }

  /** `TrimEnd` drops a suffix and leaves no trailing space. */
  lemma {:induction false} TrimEndShape(s: string)
    ensures var r := TrimEnd(s);
      |r| <= |s| && r == s[..|r|] && (r == [] || !IsJsSpace(r[|r| - 1]))
    decreases |s|
  {
    if |s| > 0 && IsJsSpace(s[|s| - 1]) {
      TrimEndShape(s[..|s| - 1]);
    }
  }

  /** The trimmed string is no longer than the input and neither starts nor ends with white space. */
  lemma TrimShape(s: string)
    ensures var r := Trim(s);
      |r| <= |s| && (r == [] || (!IsJsSpace(r[0]) && !IsJsSpace(r[|r| - 1])))
  {
    var a := TrimStart(s);
    TrimStartShape(s);
    TrimEndShape(a);
    var r := TrimEnd(a);
    if r != [] {
      assert r[0] == a[0];
    }
  }

  /** A string with no surrounding white space is its own trim. */
  lemma TrimFixesTrimmed(s: string)
    requires s == [] || (!IsJsSpace(s[0]) && !IsJsSpace(s[|s| - 1]))
    ensures Trim(s) == s
  {
  }

  /** Trimming twice is trimming once. */
  lemma TrimIdempotent(s: string)
    ensures Trim(Trim(s)) == Trim(s)
  {
    TrimShape(s);
    TrimFixesTrimmed(Trim(s));
  }

  function LowerChar(c: char): char {
    if 'A' <= c <= 'Z' then (c as int + 32) as char else c
  }

  /** `s.toLowerCase()` on ASCII letters. */
  function Lower(s: string): (r: string)
    ensures |r| == |s|
  {
    seq(|s|, i requires 0 <= i < |s| => LowerChar(s[i]))
  }

  /** `s.includes(sub)` */
  predicate Contains(s: string, sub: string) {
    if sub <= s then true else if |s| == 0 then false else Contains(s[1..], sub)
  }

  /** `Contains` holds exactly when `sub` occurs at some offset. */
  lemma {:induction false} ContainsAt(s: string, sub: string, i: nat)
    requires i + |sub| <= |s| && s[i..i + |sub|] == sub
    ensures Contains(s, sub)
  {
    if !(sub <= s) {
      assert i > 0;
      assert s[1..][i - 1..i - 1 + |sub|] == s[i..i + |sub|];
      ContainsAt(s[1..], sub, i - 1);
    }
  }

  /** Every character of a contained string occurs in the containing one. */
  lemma {:induction false} ContainedChars(s: string, sub: string, j: nat)
    requires Contains(s, sub) && j < |sub|
    ensures sub[j] in s
    decreases |s|
  {
    if sub <= s {
      assert s[j] == sub[j];
    } else {
      ContainedChars(s[1..], sub, j);
      var k :| 0 <= k < |s[1..]| && s[1..][k] == sub[j];
      assert s[k + 1] == sub[j];
    }
  }

  predicate IsDigit(c: char) {
    '0' <= c <= '9'
  }

  function DigitsValue(s: string): (r: nat)
    requires forall i :: 0 <= i < |s| ==> IsDigit(s[i])
  {
    if |s| == 0 then 0
    else
      assert IsDigit(s[|s| - 1]);
      10 * DigitsValue(s[..|s| - 1]) + (s[|s| - 1] as int - '0' as int)
  }

  predicate AllDigits(s: string) {
    |s| > 0 && forall i :: 0 <= i < |s| ==> IsDigit(s[i])
  }

  /** StringToNumber on an already trimmed string: "" is 0, a signed run of digits its value, anything else NaN. */
  function ParseTrimmed(t: string): (r: NumValue)
    ensures t == "" ==> r == Num(0)
    ensures AllDigits(t) ==> r == Num(DigitsValue(t))
  {
    if t == "" then Num(0)
    else if AllDigits(t) then Num(DigitsValue(t))
    else if t[0] == '-' && AllDigits(t[1..]) then Num(-(DigitsValue(t[1..]) as int))
    else if t[0] == '+' && AllDigits(t[1..]) then Num(DigitsValue(t[1..]))
    else NaN
  }

  /** `Number(v)` */
  function ToNumber(v: Value): (r: NumValue)
    ensures v.Num? ==> r == v
    ensures v.Null? ==> r == Num(0)
    ensures v.Undefined? || v.NaN? ==> r == NaN
  {
    match v
    case Undefined => NaN
    case Null => Num(0)
    case Bool(b) => if b then Num(1) else Num(0)
    case Num(n) => v
    case NaN => NaN
    case Str(s) => ParseTrimmed(Trim(s))
  }

  /** `a + b` on numbers: NaN absorbs. */
  function NumAdd(a: NumValue, b: NumValue): (r: NumValue)
    ensures r.Num? <==> a.Num? && b.Num?
    ensures r.Num? ==> r.n == a.n + b.n
  {
    if a.Num? && b.Num? then Num(a.n + b.n) else NaN
  }

  /**
   * The elements of a JSON array as records, when none of them is `null`
   * (`None`); reading a property of a `null` element throws. A number,
   * string or array element reads like a record without fields.
   */
  function Records(xs: seq<Option<Obj>>): (r: Option<seq<Obj>>)
    ensures r.Some? <==> forall i :: 0 <= i < |xs| ==> xs[i].Some?
    ensures r.Some? ==> |r.value| == |xs| && forall i :: 0 <= i < |xs| ==> r.value[i] == xs[i].value
  {
    if forall i :: 0 <= i < |xs| ==> xs[i].Some? then Some(seq(|xs|, i requires 0 <= i < |xs| => xs[i].value))
    else None
  }

  /** `(v || '').trim()`: a TypeError (None) when `v || ''` is not a string. */
  function TrimOr(v: Value): (r: Option<string>)
    ensures r.None? <==> Truthy(v) && !v.Str?
  {
    match Or(v, Str(""))
    case Str(s) => Some(Trim(s))
    case _ => None
  }

  /** `String(v || "").trim().toLowerCase()`, the dashboard's `norm`. */
  function Norm(v: Value): string {
    Lower(Trim(ToStr(Or(v, Str("")))))
  }

  /** `String(s || "")` is `s` for a string. */
  lemma StrOrEmpty(v: string)
    ensures ToStr(Or(Str(v), Str(""))) == v
  {
  }

  /** On a trimmed string, `norm` is just lower-casing. */
  lemma NormOfTrimmed(v: string)
    requires Trim(v) == v
    ensures Norm(Str(v)) == Lower(v)
  {
    StrOrEmpty(v);
  }
}
