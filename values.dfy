/** JavaScript values as the page query delivers them, and the few pieces of
    JavaScript semantics the core relies on: `undefined`, truthiness and the
    string conversion performed by a template literal. */
module Values {

  /** `None` stands for `undefined`: a property that is not there. */
  datatype Option<T> = None | Some(value: T)

  /** A JSON-like value: what a field of a query result can hold. */
  datatype Value =
    | Null
    | Bool(b: bool)
    | Num(n: int)
    | Str(s: string)
    | List(items: seq<Value>)
    | Obj(fields: map<string, Value>)

  /** A plain object, keyed by property name. */
  type Record = map<string, Value>

  /** Property read `r.k`: `undefined` when the property is missing. */
  function Get(r: Record, k: string): Option<Value>
  {
    if k in r then Some(r[k]) else None
  }

  /** Element read `s[i]` on an array: `undefined` past its end. */
  function At<T>(s: seq<T>, i: nat): Option<T>
  {
    if i < |s| then Some(s[i]) else None
  }

  /** JavaScript truthiness (`undefined`, `null`, `false`, `0` and `""` are falsy). */
  predicate Truthy(v: Option<Value>)
  {
    match v
    case None => false
    case Some(Null) => false
    case Some(Bool(b)) => b
    case Some(Num(n)) => n != 0
    case Some(Str(s)) => s != ""
    case Some(List(_)) => true
    case Some(Obj(_)) => true
  }

  function Digit(d: nat): char
    requires d < 10
  {
    "0123456789"[d]
  }

  /** The number a run of decimal digits denotes, read left to right; a
      character that is not a digit counts as 0. */
  function DigitsValue(s: string): nat
  {
    if s == [] then 0
    else
      var d := s[|s| - 1] as int - '0' as int;
      10 * DigitsValue(s[..|s| - 1]) + (if 0 <= d <= 9 then d else 0)
  }

  /** Decimal notation of a natural number. */
  function NatText(n: nat): (r: string)
    ensures |r| >= 1
    ensures forall i :: 0 <= i < |r| ==> '0' <= r[i] <= '9'
    ensures |r| > 1 ==> r[0] != '0'
    ensures DigitsValue(r) == n
  {
    if n < 10 then [Digit(n)] else NatText(n / 10) + [Digit(n % 10)]
  }

  /** `String(n)` for an integer: the digits of its magnitude, after a `-`
      exactly when it is negative. */
  function NumText(n: int): (r: string)
    ensures |r| >= 1 && (n < 0 <==> r[0] == '-')
    ensures n < 0 ==> r[1..] == NatText(-n)
    ensures n >= 0 ==> r == NatText(n)
  {
    if n < 0 then "-" + NatText(-n) else NatText(n)
  }

  /** `String(v)` for a value that is present. Arrays are joined with ","
      and show `null` elements as empty strings. */
  function ValueText(v: Value): string
    decreases v, 1
  {
    match v
    case Null => "null"
    case Bool(b) => if b then "true" else "false"
    case Num(n) => NumText(n)
    case Str(s) => s
    case List(items) => JoinText(v, 0)
    case Obj(_) => "[object Object]"
  }

  /** The items of the array `v` from index `i` on, as `Array.prototype.join(",")` writes them. */
  function JoinText(v: Value, i: nat): string
    requires v.List? && i <= |v.items|
    decreases v, 0, |v.items| - i
  {
    if i == |v.items| then ""
    else
      var item := v.items[i];
      var text := if item.Null? then "" else ValueText(item);
      if i + 1 == |v.items| then text else text + "," + JoinText(v, i + 1)
  }

  /** The text a template literal `${v}` inserts for a property read. */
  function Text(v: Option<Value>): (r: string)
    ensures v.None? ==> r == "undefined"
    ensures v.Some? && v.value.Str? ==> r == v.value.s
    ensures v.Some? && v.value.Num? ==> r == NumText(v.value.n)
    ensures v.Some? && v.value.Null? ==> r == "null"
  {
    match v
    case None => "undefined"
    case Some(x) => ValueText(x)
  }
}
