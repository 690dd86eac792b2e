/**
 * The values that `JSON.parse` can produce, and the few JavaScript operations
 * the dashboard and the scripts apply to them: truthiness, reading a property,
 * `a || b` and conversion to text in a template literal.
 *
 * A property read answers `Option<Json>`: `None` is JavaScript's `undefined`.
 * JSON numbers are modelled as integers.
 */
module Json {
  import opened Wrappers

  datatype Json =
    | JNull
    | JBool(b: bool)
    | JNum(n: int)
    | JStr(s: string)
    | JArr(items: seq<Json>)
    | JObj(fields: map<string, Json>)

  /** `Boolean(j)` for a JSON value. */
  predicate TruthyValue(j: Json)
  {
    match j
    case JNull => false
    case JBool(b) => b
    case JNum(n) => n != 0
    case JStr(s) => s != ""
    case JArr(_) => true
    case JObj(_) => true
  }

  /** `Boolean(v)` for the result of a property read (`undefined` is falsy). */
  predicate Truthy(v: Option<Json>)
  {
    v.Some? && TruthyValue(v.value)
  }

  /**
   * `j[key]` for a value that is not `null` (reading a property of `null`
   * throws, which callers model themselves). Only an object has own fields;
   * the property names this model reads (`order`, `pinned`, `customize`,
   * `owner`, `login`, `full_name`, `id`, `html_url`, `name`, `remote`,
   * `path`) are not inherited by any array, string, number or boolean.
   */
  function Prop(j: Json, key: string): (r: Option<Json>)
    requires !j.JNull?
    ensures r.Some? <==> j.JObj? && key in j.fields
    ensures r.Some? ==> r.value == j.fields[key]
  {
    if j.JObj? && key in j.fields then Some(j.fields[key]) else None
  }

  /** JavaScript's `a || b`: the first operand if it is truthy, else the second. */
  function Or(a: Option<Json>, b: Option<Json>): (r: Option<Json>)
    ensures Truthy(r) <==> Truthy(a) || Truthy(b)
    ensures r == a || r == b
  {
    if Truthy(a) then a else b
  }

  /** Decimal digits of a natural number, as `String(n)` writes them. */
  function NatText(n: nat): (r: string)
    ensures |r| > 0
    ensures forall i :: 0 <= i < |r| ==> '0' <= r[i] <= '9'
    decreases n
  {
    var d := ['0' + (n % 10) as char];
    if n < 10 then d else NatText(n / 10) + d
  }

  /**
   * `String(j)`, the text a template literal `${j}` inserts: arrays are joined
   * with "," (a `null` element gives ""), objects give "[object Object]".
   */
  function Text(j: Json): string
    decreases j
  {
    match j
    case JNull => "null"
    case JBool(b) => if b then "true" else "false"
    case JNum(n) => if n < 0 then "-" + NatText(-n) else NatText(n)
    case JStr(s) => s
    case JArr(xs) =>
      CommaJoin(seq(|xs|, i requires 0 <= i < |xs| => if xs[i].JNull? then "" else Text(xs[i])))
    case JObj(_) => "[object Object]"
  }

  /** `parts.join(",")`. */
  function CommaJoin(parts: seq<string>): string
  {
    if |parts| == 0 then ""
    else if |parts| == 1 then parts[0]
    else parts[0] + "," + CommaJoin(parts[1..])
  }
}
