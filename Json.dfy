/** Decoded JSON values as the exporter sees them after `json.loads`, and the
    few pieces of Python semantics the exporter relies on: truthiness,
    `dict.get`, `a or b`, and `==` between a decoded value and a literal. */
module Json {

  datatype Option<T> = None | Some(value: T)

  /** A value produced by Python's json decoder. JSON numbers with a fraction
      or exponent (Python floats) are not modelled. */
  datatype Value =
    | Null
    | Bool(b: bool)
    | Int(i: int)
    | Str(s: string)
    | Arr(items: seq<Value>)
    | Obj(fields: map<string, Value>)

  /** Python truthiness: None, False, 0, "", [] and {} are false. */
  predicate Truthy(v: Value) {
    match v
    case Null => false
    case Bool(b) => b
    case Int(i) => i != 0
    case Str(s) => s != ""
    case Arr(items) => items != []
    case Obj(fields) => fields != map[]
  }

  /** `d.get(k)`: a missing key and a JSON null both read as None. */
  function Get(d: map<string, Value>, k: string): (v: Value)
    ensures k !in d ==> v == Null
    ensures k in d ==> v == d[k]
  {
    if k in d then d[k] else Null
  }

  /** `d.get(k, default)`: the default only when the key is missing. */
  function GetOr(d: map<string, Value>, k: string, default: Value): (v: Value)
    ensures k !in d ==> v == default
    ensures k in d ==> v == d[k]
  {
    if k in d then d[k] else default
  }

  /** Python's `a or b`: the left operand when it is truthy, else the right. */
  function Or(a: Value, b: Value): (v: Value)
    ensures Truthy(v) <==> Truthy(a) || Truthy(b)
    ensures Truthy(a) ==> v == a
    ensures !Truthy(a) ==> v == b
  {
    if Truthy(a) then a else b
  }

  /** `v == n` for an integer literal `n`. In Python `bool` is a subclass of
      `int`, so `True == 1` and `False == 0` hold as well. */
  predicate EqualsInt(v: Value, n: int) {
    match v
    case Int(i) => i == n
    case Bool(b) => (if b then 1 else 0) == n
    case _ => false
  }
}
