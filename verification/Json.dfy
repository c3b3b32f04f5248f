/** Parsed JSON as the Python code sees it, with int and float apart. */
module Json {
  import opened Powers
  import opened Wrappers

  datatype Json =
    | Null
    | Bool(b: bool)
    | Int(n: int)
    | Float(x: real)
    | Str(s: string)
    | List(items: seq<Json>)
    | Object(fields: map<string, Json>)

  /** dict.get(key): None for a missing key as for null. */
  function Get(fields: map<string, Json>, key: string): Json {
    if key in fields then fields[key] else Null
  }

  /** isinstance(j, (int, float)); a Python bool is an int. */
  predicate IsNumber(j: Json) {
    j.Int? || j.Float? || j.Bool?
  }

  /** The smallest integer that float() refuses with an OverflowError. */
  const FLOAT_OVERFLOW: int := Power(2, 1024) - Power(2, 970)

  lemma HalfWay(m: nat, k: nat)
    ensures 2 * (Power(2, m + k + 1) as int - Power(2, k)) == (Power(2, m) as int - 1) * Power(2, k + 1) + Power(2, m + k + 1)
  {
    PowerAdds(2, m, k + 1);
    assert Power(2, k + 1) == 2 * Power(2, k);
    var p: int, q: int := Power(2, m), Power(2, k + 1);
    assert (p - 1) * q == p * q - q;
  }

  /** It is half way from the largest float, (2^53 - 1) * 2^971, to the power of two after it. */
  lemma OverflowIsHalfWay()
    ensures 2 * FLOAT_OVERFLOW == (Power(2, 53) as int - 1) * Power(2, 971) + Power(2, 1024)
  {
    hide Power;
    HalfWay(53, 970);
  }

  /** float(j) of a JSON number, None for an OverflowError. */
  function ToFloat(j: Json): Option<real>
    requires IsNumber(j)
  {
    match j
    case Int(n) => if -FLOAT_OVERFLOW < n < FLOAT_OVERFLOW then Some(n as real) else None
    case Float(x) => Some(x)
    case Bool(b) => Some(if b then 1.0 else 0.0)
  }

  predicate Truthy(j: Json) {
    match j
    case Null => false
    case Bool(b) => b
    case Int(n) => n != 0
    case Float(x) => x != 0.0
    case Str(s) => s != ""
    case List(items) => items != []
    case Object(fields) => fields != map[]
  }
}
