/** The alarm column of the dashboard (app.py:100-106): the stored `alarm`
    value is compared with `True`, then with `False`, using Python's `==`. */
module AlarmStatus {

  import opened PyValues

  /** What the column shows: the red alarm, the green "in range" message,
      or the neutral info box carrying the raw value. */
  datatype Status = Triggered | Normal | Info(raw: Value)

  function Classify(v: Value): (r: Status)
    ensures r == Triggered <==> EqualsBool(v, true)
    ensures r == Normal <==> EqualsBool(v, false)
    ensures r.Info? ==> r.raw == v
  {
    match v
    case Bool(b) => if b then Triggered else Normal
    case Int(i) => if i == 1 then Triggered else if i == 0 then Normal else Info(v)
    case Float(x) => if x == 1.0 then Triggered else if x == 0.0 then Normal else Info(v)
    case _ => Info(v)
  }
}
