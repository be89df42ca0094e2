/** JSON values as the request payload and the static data files carry them,
    with JavaScript's truthiness, `?.` lookup, `||`, `??` and `String(v)`.
    Numbers are integers: no payload field the chatbot reads is fractional. */
module Js {
  import opened Wrappers
  import opened Text

  datatype Value =
    | Undefined
    | Null
    | Bool(b: bool)
    | Num(n: int)
    | Str(s: string)
    | Arr(items: seq<Value>)
    | Obj(props: map<string, Value>)

  /** What `if (v)` accepts. */
  predicate Truthy(v: Value) {
    match v
    case Undefined => false
    case Null => false
    case Bool(b) => b
    case Num(n) => n != 0
    case Str(s) => s != ""
    case _ => true
  }

  /** `v == null`: what `??` and a destructuring default look at. */
  predicate Nullish(v: Value) {
    v.Undefined? || v.Null?
  }

  /** `v?.[key]`: `undefined` unless `v` is an object holding `key`. */
  function Get(v: Value, key: string): (r: Value)
    ensures !v.Obj? ==> r == Undefined
    ensures v.Obj? && key in v.props ==> r == v.props[key]
  {
    if v.Obj? && key in v.props then v.props[key] else Undefined
  }

  /** `v.key`: throws a TypeError on `null` and `undefined`, else `v?.[key]`. */
  function Member(v: Value, key: string): (r: Result<Value>)
    ensures r.Failure? <==> Nullish(v)
    ensures r.Success? ==> r.value == Get(v, key)
  {
    if Nullish(v) then Failure("TypeError: Cannot read properties of " + ToStr(v)) else Success(Get(v, key))
  }

  /** `a || b`. */
  function Or(a: Value, b: Value): (r: Value)
    ensures Truthy(a) ==> r == a
    ensures !Truthy(a) ==> r == b
  {
    if Truthy(a) then a else b
  }

  /** `a ?? b`. */
  function Coalesce(a: Value, b: Value): (r: Value)
    ensures !Nullish(a) ==> r == a
    ensures Nullish(a) ==> r == b
  {
    if Nullish(a) then b else a
  }

  /** `String(v)`, also what a template literal `${v}` produces. */
  function ToStr(v: Value): string
    decreases v, 1
  {
    match v
    case Undefined => "undefined"
    case Null => "null"
    case Bool(b) => if b then "true" else "false"
    case Num(n) => IntToString(n)
    case Str(s) => s
    case Arr(items) => JoinItems(v, items)
    case Obj(_) => "[object Object]"
  }

  /** `Array.prototype.toString`: items joined by "," with `null` and
      `undefined` shown as "". */
  function JoinItems(whole: Value, items: seq<Value>): string
    requires whole.Arr? && forall i :: 0 <= i < |items| ==> items[i] in whole.items
    decreases whole, 0, |items|
  {
    if |items| == 0 then ""
    else
      var first := if Nullish(items[0]) then "" else ToStr(items[0]);
      if |items| == 1 then first else first + "," + JoinItems(whole, items[1..])
  }

  lemma StrIsItsOwnString(s: string)
    ensures ToStr(Str(s)) == s
  {
  }

  /** An upstream row (a NEIS API row or a parsed CSV record): every present
      field is text. */
  type Row = map<string, string>

  /** `row.key || fallback`. */
  function FieldOr(row: Row, key: string, fallback: string): (r: string)
    ensures key in row && row[key] != "" ==> r == row[key]
    ensures (key !in row || row[key] == "") ==> r == fallback
  {
    if key in row && row[key] != "" then row[key] else fallback
  }

  /** `${row.key}`: a missing field prints as "undefined". */
  function FieldText(row: Row, key: string): (r: string)
    ensures key in row ==> r == row[key]
    ensures key !in row ==> r == "undefined"
  {
    if key in row then row[key] else "undefined"
  }

  /** The same field as a JSON value. */
  function FieldValue(row: Row, key: string): (r: Value)
    ensures key in row <==> r.Str?
    ensures key in row ==> r == Str(row[key])
  {
    if key in row then Str(row[key]) else Undefined
  }

  /** `Number(s)` on text: surrounding whitespace is ignored, blank text is
      0 and a decimal numeral is its value. `None` stands for NaN and for the
      numeral forms this model does not read (sign, fraction, exponent, hex). */
  function ToNumber(s: string): (r: Option<int>)
    ensures r.Some? <==> AllDigits(Trim(s))
    ensures Blank(s) ==> r == Some(0)
    ensures r.Some? ==> r.value >= 0
  {
    var t := Trim(s);
    if AllDigits(t) then Some(DecimalValue(t)) else None
  }

  /** Reading back a rendered count gives the count. */
  lemma ToNumberOfNumeral(n: nat)
    ensures ToNumber(NatToString(n)) == Some(n)
  {
    var s := NatToString(n);
    assert !IsSpace(s[0]) && !IsSpace(s[|s| - 1]);
  }

  /** `String(Number(s))`: "NaN" when the text is not a number. */
  function NumberText(n: Option<int>): string {
    match n
    case Some(v) => IntToString(v)
    case None => "NaN"
  }

  /** A JSON object read from a static data file. */
  type Record = map<string, Value>

  /** `record.key`. */
  function Prop(r: Record, key: string): Value {
    if key in r then r[key] else Undefined
  }
}
