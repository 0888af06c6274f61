/**
 * Shape validation of the JSON requests the DAF receives: the number of keys must be
 * exact and the required keys present. The code under `"msg"` is compared with Python
 * `==`, so `true` stands for code 1.
 */
module Messages {
  import opened Wrappers
  import opened Json

  /** Every key of `keys` is a key of `msg`. */
  function AllPresent(msg: Object, keys: seq<string>): (b: bool)
    ensures b <==> forall k :: k in keys ==> k in msg
  {
    if |keys| == 0 then true
    else keys[0] in msg && AllPresent(msg, keys[1..])
  }

  /** `__verifica_chaves_mensagem`: exactly `size` keys, all of `keys` among them. */
  function CheckKeys(msg: Object, keys: seq<string>, size: nat): (b: bool)
    ensures b <==> |msg| == size && forall k :: k in keys ==> k in msg
  {
    if |msg| != size then false else AllPresent(msg, keys)
  }

  /** The request code equals `n` under Python `==`. */
  predicate IsCode(code: JValue, n: int)
  {
    PyEq(code, JInt(n))
  }

  /**
   * The request code as a number. Python `==` equates a code with an integer only when the
   * code is an `int` or a `bool`, so a text or null code equals no request code.
   */
  function CodeOf(code: JValue): (n: Option<int>)
    ensures forall k :: IsCode(code, k) <==> n == Some(k)
  {
    if IsNumber(code) then Some(AsNumber(code)) else None
  }

  /** `__valida_mensagem`; the codes it does not list give a falsy result. */
  function Valid(msg: Object): bool
  {
    if "msg" !in msg then false
    else
      match CodeOf(msg["msg"])
      case None => false
      case Some(n) =>
        if n in {1, 2, 6, 7, 12, 13} then CheckKeys(msg, ["jwt"], 2)
        else if n in {3, 8, 9, 14, 15} then true
        else if n == 4 then CheckKeys(msg, ["fdf", "hdf", "pdv", "red"], 5)
        else if n == 5 then CheckKeys(msg, ["aut", "apg"], 3)
        else if n == 10 then CheckKeys(msg, ["crt", "sig"], 3)
        else if n == 11 then CheckKeys(msg, ["aut"], 2)
        else if n == 16 then CheckKeys(msg, ["ini", "fim"], 3)
        else false
  }

  // ---------------------------------------------------------------------------------------
  // The rule table, stated as the exact key set each code requires

  datatype Rule = AnyShape | ExactKeys(keys: set<string>) | NeverValid

  function RuleFor(n: int): Rule
  {
    if n in {1, 2, 6, 7, 12, 13} then ExactKeys({"msg", "jwt"})
    else if n in {3, 8, 9, 14, 15} then AnyShape
    else if n == 4 then ExactKeys({"msg", "fdf", "hdf", "pdv", "red"})
    else if n == 5 then ExactKeys({"msg", "aut", "apg"})
    else if n == 10 then ExactKeys({"msg", "crt", "sig"})
    else if n == 11 then ExactKeys({"msg", "aut"})
    else if n == 16 then ExactKeys({"msg", "ini", "fim"})
    else NeverValid
  }

  predicate Obeys(msg: Object, r: Rule)
  {
    match r
    case AnyShape => true
    case ExactKeys(keys) => msg.Keys == keys
    case NeverValid => false
  }

  /** A subset of the same size is the whole set. */
  lemma SubsetOfSameSize<T>(a: set<T>, b: set<T>)
    requires a <= b && |a| == |b|
    ensures a == b
  {
    assert b == a + (b - a);
    assert |b - a| == 0;
  }

  /** Checking a size and some required keys is checking the exact key set. */
  lemma CheckKeysIsExactSet(msg: Object, keys: seq<string>, size: nat, expected: set<string>)
    requires "msg" in msg && "msg" in expected
    requires forall k :: k in expected <==> k == "msg" || k in keys
    requires |expected| == size
    ensures CheckKeys(msg, keys, size) <==> msg.Keys == expected
  {
    if CheckKeys(msg, keys, size) {
      assert expected <= msg.Keys;
      assert |msg.Keys| == |msg|;
      SubsetOfSameSize(expected, msg.Keys);
    }
  }

  /**
   * A request is valid iff it carries a numeric code whose rule it obeys: no other key
   * than the required ones, none of them missing, or any shape for the codes without a
   * payload. Any other code, a non-numeric code or a missing code is never valid.
   */
  lemma ValidMatchesTable(msg: Object)
    ensures Valid(msg) <==> "msg" in msg && IsNumber(msg["msg"]) && Obeys(msg, RuleFor(AsNumber(msg["msg"])))
  {
    if "msg" in msg && IsNumber(msg["msg"]) {
      var n := AsNumber(msg["msg"]);
      if n in {1, 2, 6, 7, 12, 13} {
        CheckKeysIsExactSet(msg, ["jwt"], 2, {"msg", "jwt"});
      } else if n == 4 {
        CheckKeysIsExactSet(msg, ["fdf", "hdf", "pdv", "red"], 5, {"msg", "fdf", "hdf", "pdv", "red"});
      } else if n == 5 {
        CheckKeysIsExactSet(msg, ["aut", "apg"], 3, {"msg", "aut", "apg"});
      } else if n == 10 {
        CheckKeysIsExactSet(msg, ["crt", "sig"], 3, {"msg", "crt", "sig"});
      } else if n == 11 {
        CheckKeysIsExactSet(msg, ["aut"], 2, {"msg", "aut"});
      } else if n == 16 {
        CheckKeysIsExactSet(msg, ["ini", "fim"], 3, {"msg", "ini", "fim"});
      }
    }
  }
}
