/**
 * The Python values the lab4 conversions work on: dictionaries from string
 * keys to integers or strings, the exceptions a lookup or a conversion
 * raises, and `int(v)` and `str(v)` on such values.
 */
module PyValue {
  import opened Wrappers
  import opened PyNum

  /** A dictionary value: `str | int`. */
  datatype Value = IntVal(i: int) | StrVal(s: string)

  /** The exceptions the conversions can raise. */
  datatype PyError = KeyError(key: string) | ValueError | ConnectionError

  type Dict = map<string, Value>

  /** `d[key]`: the value, or `KeyError(key)` when the key is missing. */
  function Lookup(d: Dict, key: string): (r: Result<Value, PyError>)
    ensures r.Success? <==> key in d
    ensures r.Success? ==> r.value == d[key]
    ensures r.Failure? ==> r.error == KeyError(key)
  {
    if key in d then Success(d[key]) else Failure(KeyError(key))
  }

  /** `int(v)`: an integer is itself; a string is parsed as `int()` parses
      text, and one it refuses raises `ValueError`. */
  function PyInt(v: Value): (r: Result<int, PyError>)
    ensures v.IntVal? ==> r == Success(v.i)
    ensures v.StrVal? ==> (r.Success? <==> ParseInt(v.s).Some?)
    ensures r.Failure? ==> r.error == ValueError
  {
    match v
    case IntVal(i) => Success(i)
    case StrVal(s) =>
      match ParseInt(s)
      case Some(n) => Success(n)
      case None => Failure(ValueError)
  }

  /** `str(v)`: a string is itself; an integer is written in decimal, and
      one of more than `MaxStrDigits` digits raises `ValueError`. */
  function PyStr(v: Value): Result<string, PyError>
  {
    match v
    case IntVal(i) => if FitsStrDigits(i) then Success(IntToString(i)) else Failure(ValueError)
    case StrVal(s) => Success(s)
  }

  /** `int(str(n)) == int(n)`: an integer that `str()` can write is read back
      from its text as itself; `str()` refuses exactly the integers past the
      digit bound. */
  lemma PyIntOfPyStr(n: int)
    ensures PyStr(IntVal(n)).Success? <==> FitsStrDigits(n)
    ensures PyStr(IntVal(n)).Success? ==> PyInt(StrVal(PyStr(IntVal(n)).value)) == PyInt(IntVal(n))
  {
    IntToStringRoundTrip(n);
  }
}
