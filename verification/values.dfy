/**
 * Loosely typed values as the backend handles them: decoded JSON from the
 * marketplace API, cells of a pandas table, entries of a metadata dict.
 * `NaN` is the float pandas uses for a missing cell; `Real` is any other float.
 */
module Values {

  datatype Value =
    | Null
    | NaN
    | Bool(b: bool)
    | Int(i: int)
    | Real(r: real)
    | Str(s: string)
    | List(items: seq<Value>)
    | Obj(fields: map<string, Value>)

  /** A dict, a table row or a metadata bag: keys to values. */
  type Record = map<string, Value>

  /** Python's `bool(v)`: None, False, 0, 0.0, "", [] and {} are false; NaN is true. */
  predicate Truthy(v: Value)
  {
    match v
    case Null => false
    case NaN => true
    case Bool(b) => b
    case Int(i) => i != 0
    case Real(r) => r != 0.0
    case Str(s) => s != ""
    case List(xs) => xs != []
    case Obj(m) => m != map[]
  }

  /** `d.get(key, default)` on a dict. */
  function Get(d: Record, key: string, default: Value): Value
  {
    if key in d then d[key] else default
  }

  /** pandas' `isna` on a scalar cell: None and NaN are missing. */
  predicate IsNA(v: Value)
  {
    v.Null? || v.NaN?
  }

  /** The scalars whose `str()` the model spells out (see Text.PyStr). */
  predicate HasText(v: Value)
  {
    v.Null? || v.NaN? || v.Bool? || v.Int? || v.Str?
  }
}
