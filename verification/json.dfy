/**
 * Scalar values of decoded JSON messages (integers, booleans, text and null; numbers with a
 * fraction part are not modelled) with Python's comparison semantics: `bool` is a
 * subclass of `int`, so `True == 1` and `False == 0`, while values of different kinds are
 * never equal. Ordering comparisons are defined between two numbers and between two
 * strings; any other pair raises.
 */
module Json {
  import opened Wrappers

  datatype JValue = JInt(i: int) | JBool(b: bool) | JStr(s: string) | JNull

  /** A decoded JSON object. */
  type Object = map<string, JValue>

  /** `isinstance(v, int)`: integers and booleans. */
  predicate IsNumber(v: JValue)
  {
    v.JInt? || v.JBool?
  }

  function AsNumber(v: JValue): int
    requires IsNumber(v)
  {
    if v.JInt? then v.i else if v.b then 1 else 0
  }

  /** Python `==` between two decoded values. */
  predicate PyEq(a: JValue, b: JValue)
  {
    if IsNumber(a) && IsNumber(b) then AsNumber(a) == AsNumber(b) else a == b
  }

  /** Python's order on `str`: lexicographic by code point, a proper prefix first. */
  predicate StrLe(a: string, b: string)
  {
    |a| == 0 || (|b| > 0 && (a[0] < b[0] || (a[0] == b[0] && StrLe(a[1..], b[1..]))))
  }

  /** The string order is reflexive, total and antisymmetric. */
  lemma {:induction false} StrLeOrder(a: string, b: string)
    ensures StrLe(a, a)
    ensures StrLe(a, b) || StrLe(b, a)
    ensures StrLe(a, b) && StrLe(b, a) ==> a == b
  {
    if |a| > 0 {
      StrLeOrder(a[1..], a[1..]);
      if |b| > 0 {
        StrLeOrder(a[1..], b[1..]);
        if StrLe(a, b) && StrLe(b, a) {
          assert a == [a[0]] + a[1..] && b == [b[0]] + b[1..];
        }
      }
    }
  }

  /**
   * Python `<=` between two decoded values: numeric between numbers (booleans included),
   * the string order between strings; any other pair, `None` with `None` included, raises.
   */
  function PyLe(a: JValue, b: JValue): (r: Result<bool>)
    ensures r.Ok? <==> (IsNumber(a) && IsNumber(b)) || (a.JStr? && b.JStr?)
    ensures r.Ok? && IsNumber(a) ==> (r.value <==> AsNumber(a) <= AsNumber(b))
    ensures r.Ok? && a.JStr? ==> (r.value <==> StrLe(a.s, b.s))
  {
    if IsNumber(a) && IsNumber(b) then Ok(AsNumber(a) <= AsNumber(b))
    else if a.JStr? && b.JStr? then Ok(StrLe(a.s, b.s))
    else Raises
  }

  /** Python truth value. */
  predicate Truthy(v: JValue)
  {
    match v
    case JInt(i) => i != 0
    case JBool(b) => b
    case JStr(s) => |s| > 0
    case JNull => false
  }

  /** `==` on decoded values is an equivalence, and equates exactly `True` with `1`, `False` with `0`. */
  lemma PyEqEquivalence(a: JValue, b: JValue, c: JValue)
    ensures PyEq(a, a)
    ensures PyEq(a, b) ==> PyEq(b, a)
    ensures PyEq(a, b) && PyEq(b, c) ==> PyEq(a, c)
    ensures PyEq(JBool(true), JInt(1)) && PyEq(JBool(false), JInt(0))
    ensures PyEq(a, b) && a != b ==> IsNumber(a) && IsNumber(b) && a.JInt? != b.JInt?
  {
  }
}
