/** The Python values that a decoded JSON payload and the dashboard's session
    record can hold, with the two pieces of Python semantics the dashboard
    relies on: truthiness (used by `all([...])`) and the numeric comparison
    that makes `1 == True` and `0.0 == False`. */
module PyValues {

  import opened Wrappers

  /** A Python value as `json.loads` produces it, plus the strings the
      dashboard stores itself. `Float` is a finite float, taken as a real. */
  datatype Value =
    | Null
    | Bool(b: bool)
    | Int(i: int)
    | Float(x: real)
    | Str(s: string)
    | Arr(items: seq<Value>)
    | Obj(fields: map<string, Value>)

  /** Python's truth value of `v` (`bool(v)`). */
  predicate Truthy(v: Value) {
    match v
    case Null => false
    case Bool(b) => b
    case Int(i) => i != 0
    case Float(x) => x != 0.0
    case Str(s) => s != ""
    case Arr(items) => items != []
    case Obj(fields) => fields != map[]
  }

  /** Python's built-in `all` over a list. */
  function All(vs: seq<Value>): (r: bool)
    ensures r <==> forall i :: 0 <= i < |vs| ==> Truthy(vs[i])
  {
    if vs == [] then true else Truthy(vs[0]) && All(vs[1..])
  }

  /** `None` for a missing string, the string otherwise: what `os.getenv`
      hands to the credential check. */
  function FromOptional(s: Option<string>): (v: Value)
    ensures Truthy(v) <==> s.Some? && s.value != ""
  {
    match s
    case None => Null
    case Some(t) => Str(t)
  }

  /** The numeric value Python's `==` compares when one side is a number:
      `bool` is a subclass of `int`, and `int` and `float` compare by value.
      `None` for every non-numeric value, which is never equal to a number. */
  function NumericValue(v: Value): (r: Option<real>)
    ensures r.Some? ==> (Truthy(v) <==> r.value != 0.0)
  {
    match v
    case Bool(b) => Some(if b then 1.0 else 0.0)
    case Int(i) => Some(i as real)
    case Float(x) => Some(x)
    case _ => None
  }

  /** Python's `v == True` / `v == False` for a decoded value. */
  predicate EqualsBool(v: Value, b: bool) {
    NumericValue(v) == Some(if b then 1.0 else 0.0)
  }
}
