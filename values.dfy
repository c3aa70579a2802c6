/** The dynamically typed Python values that flow through the library. */
module Values {
  import opened Wrappers
  import opened Exceptions
  import opened Strings

  /** A calendar day. */
  datatype CivilDate = CivilDate(year: int, month: int, day: int)

  datatype Value =
    | Null                        // None
    | Str(s: string)              // str
    | Int(i: int)                 // int
    | Bool(b: bool)               // bool
    | StrList(items: seq<string>) // list of str
    | Real(decimal: string)       // float(decimal); the numeric value is not computed
    | DaysSince(epoch: CivilDate, days: string) // datetime epoch + timedelta(days=float(days))
    | Timestamp(seconds: int)     // datetime.fromtimestamp(seconds), in local time

  /** `str(v)`, where the model can render it. */
  function PyStr(v: Value): (r: Outcome<string>)
    ensures v.Str? ==> r == Ok(v.s)
    ensures v.Int? ==> r == Ok(IntToString(v.i))
  {
    match v
    case Null => Ok("None")
    case Str(s) => Ok(s)
    case Int(i) => Ok(IntToString(i))
    case Bool(b) => Ok(if b then "True" else "False")
    case _ => Err(NotModelled)
  }

  /** `int(v)`. */
  function PyInt(v: Value): (r: Outcome<int>)
    ensures v.Str? ==> (r.Ok? <==> ParseInt(v.s).Some?)
  {
    match v
    case Str(s) => if ParseInt(s).Some? then Ok(ParseInt(s).value) else Err(ValueError(s))
    case Int(i) => Ok(i)
    case Bool(b) => Ok(if b then 1 else 0)
    case Real(_) => Err(NotModelled)
    case _ => Err(TypeError)
  }

  /** `xs[i]` on a list: a negative index counts from the end; IndexError outside. */
  function PyIndex<T>(xs: seq<T>, i: int): (r: Outcome<T>)
    ensures r.Ok? <==> -|xs| <= i < |xs|
    ensures r.Err? ==> r.error == IndexError(i)
  {
    if 0 <= i < |xs| then Ok(xs[i])
    else if -|xs| <= i < 0 then Ok(xs[|xs| + i])
    else Err(IndexError(i))
  }

  /**
   * `bool(v)`: None, "", 0, False and [] are false; a datetime is always true. The truth of a
   * float is not computed.
   */
  function Truthy(v: Value): (r: Outcome<bool>)
    ensures v.Bool? ==> r == Ok(v.b)
    ensures v.Null? ==> r == Ok(false)
  {
    match v
    case Null => Ok(false)
    case Str(s) => Ok(s != "")
    case Int(i) => Ok(i != 0)
    case Bool(b) => Ok(b)
    case StrList(items) => Ok(items != [])
    case Real(_) => Err(NotModelled)
    case DaysSince(_, _) => Ok(true)
    case Timestamp(_) => Ok(true)
  }

  /**
   * Python's `a == b` on texts, ints, bools, lists and None; `bool` is a subclass of `int`,
   * so `True == 1` and `False == 0`. Floats and datetimes are held as their text, so they are
   * compared by that text rather than by the number or instant it stands for.
   */
  predicate PyEq(a: Value, b: Value)
  {
    match (a, b)
    case (Bool(x), Int(y)) => (if x then 1 else 0) == y
    case (Int(x), Bool(y)) => x == (if y then 1 else 0)
    case _ => a == b
  }
}
