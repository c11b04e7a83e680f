/** JavaScript values as the experiment code meets them: optional values,
    property lookups on plain objects, the short-circuit `||` chain and the
    number-to-text conversion used in template strings. */
module JsValues {

  datatype Option<T> = None | Some(value: T)

  /** A property value after the sensor's samples have been read: missing
      (`undefined` or `null`), `NaN`, or a finite number. */
  datatype JsValue = Undefined | NaN | Num(n: real)

  /** A sample object: property name to value; a name that is absent reads as `undefined`. */
  type Point = map<string, JsValue>

  function Get(p: Point, key: string): JsValue
  {
    if key in p then p[key] else Undefined
  }

  /** JavaScript truthiness on these values: `undefined`, `null`, `NaN` and `0` are falsy. */
  predicate Truthy(v: JsValue)
  {
    v.Num? && v.n != 0.0
  }

  /** JavaScript nullishness: only `undefined` and `null`. */
  predicate Nullish(v: JsValue)
  {
    v.Undefined?
  }

  /** How a chain of alternative property names is combined. */
  datatype Coalescing = LogicalOr | NullishCoalescing

  /** The test each operator applies to its left operand: `||` keeps a truthy
      value, `??` keeps any value that is not nullish. */
  predicate Passes(v: JsValue, mode: Coalescing)
  {
    match mode
    case LogicalOr => Truthy(v)
    case NullishCoalescing => !Nullish(v)
  }

  /** `p[k0] || p[k1] || ... || p[kn]` (LogicalOr) or the same chain written
      with `??` (NullishCoalescing): the value of the first name whose value
      passes the operator's test, otherwise the value of the LAST name. */
  function Chain(p: Point, keys: seq<string>, mode: Coalescing): JsValue
    requires |keys| > 0
  {
    var head := Get(p, keys[0]);
    if |keys| == 1 || Passes(head, mode) then head else Chain(p, keys[1..], mode)
  }

  /** What a chain evaluates to, stated without recursion. */
  lemma {:induction false} ChainIsFirstPassing(p: Point, keys: seq<string>, mode: Coalescing)
    requires |keys| > 0
    ensures forall i :: (0 <= i < |keys| && Passes(Get(p, keys[i]), mode)
                         && forall j :: 0 <= j < i ==> !Passes(Get(p, keys[j]), mode))
                        ==> Chain(p, keys, mode) == Get(p, keys[i])
    ensures (forall i :: 0 <= i < |keys| ==> !Passes(Get(p, keys[i]), mode))
            ==> Chain(p, keys, mode) == Get(p, keys[|keys| - 1])
  {
    if |keys| > 1 && !Passes(Get(p, keys[0]), mode) {
      ChainIsFirstPassing(p, keys[1..], mode);
      assert forall i :: 1 <= i < |keys| ==> keys[i] == keys[1..][i - 1];
    }
  }

  /** `parseFloat` applied to a value that is already a number, `NaN` or missing:
      `None` stands for `NaN`. */
  function ParseFloat(v: JsValue): (r: Option<real>)
    ensures r.Some? <==> v.Num?
    ensures r.Some? ==> r.value == v.n
  {
    match v
    case Num(n) => Some(n)
    case _ => None
  }

  function DigitChar(d: nat): char
    requires d < 10
  {
    "0123456789"[d]
  }

  /** Decimal text of a natural number, as a template string renders it. */
  function NatToString(n: nat): (s: string)
    ensures |s| > 0
    ensures forall i :: 0 <= i < |s| ==> '0' <= s[i] <= '9'
    decreases n
  {
    if n < 10 then [DigitChar(n)] else NatToString(n / 10) + [DigitChar(n % 10)]
  }

  /** Decimal text of an integer, with a leading '-' when negative. */
  function IntToString(n: int): string
  {
    if n < 0 then "-" + NatToString(-n) else NatToString(n)
  }
}
