/** Python values as the JSON decoder hands them to the detector, and the few
    Python operations the detector applies to them: truthiness, `dict.get`
    with a default, `isinstance(x, (int, float))` and numeric subtraction. */
module JsonValues {

  /** Python's `None` versus a present value. */
  datatype Option<+T> = None | Some(value: T)

  /** What a Python call does: it returns a value or it raises an exception. */
  datatype Outcome<+T> = Returned(value: T) | Raised

  /** A decoded JSON document. Numbers are integers: floating-point values are
      not part of this model. */
  datatype Json =
    | JNull
    | JBool(b: bool)
    | JNum(n: int)
    | JStr(s: string)
    | JArr(items: seq<Json>)
    | JObj(fields: map<string, Json>)

  /** `bool(v)`: None, False, 0, "", [] and {} are false, everything else true. */
  predicate Truthy(v: Json) {
    match v
    case JNull => false
    case JBool(b) => b
    case JNum(n) => n != 0
    case JStr(s) => s != ""
    case JArr(items) => items != []
    case JObj(fields) => fields != map[]
  }

  /** `d.get(key, default)` on a dict. */
  function Get(fields: map<string, Json>, key: string, default: Json): Json {
    if key in fields then fields[key] else default
  }

  /** `isinstance(v, (int, float))`; a bool is an int in Python. */
  predicate Numeric(v: Json) {
    v.JNum? || v.JBool?
  }

  /** The integer a numeric value stands for in arithmetic (True is 1, False is 0);
      0 for values that are not numeric, whose subtraction raises instead. */
  function NumValue(v: Json): int {
    match v
    case JNum(n) => n
    case JBool(b) => if b then 1 else 0
    case _ => 0
  }

  /** Python's `abs` on integers. */
  function Abs(x: int): nat {
    if x < 0 then -x else x
  }
}
