/**
 * The few JavaScript value semantics the handlers and pages depend on:
 * the kinds a parsed JSON body or a page constant can hold, `typeof x === 'number'`,
 * `Number.isInteger`, strict equality `===`, and `Math.random`.
 *
 * Numbers are modelled as mathematical reals: NaN, the infinities (which a
 * JSON body reaches through an out-of-range literal such as `1e400`), negative
 * zero and rounding are not part of this model.
 */
module JsValues {

  /** A JavaScript value as it reaches the code: from `request.json()` or a constant. */
  datatype Value =
    | Undefined
    | Null
    | Boolean(b: bool)
    | Number(x: real)
    | Text(s: string)

  /** `typeof v === 'number'` */
  predicate IsNumber(v: Value) {
    v.Number?
  }

  /** The number an integer denotes. */
  function IntegerNumber(n: int): Value {
    Number(n as real)
  }

  /** `Number.isInteger(v)`: true only for a number with no fractional part. */
  predicate IsInteger(v: Value) {
    v.Number? && v.x.Floor as real == v.x
  }

  /** `Number.isInteger` holds exactly for the numbers that denote an integer. */
  lemma IsIntegerExactly(v: Value)
    ensures IsInteger(v) <==> exists n: int :: v == IntegerNumber(n)
  {
    if IsInteger(v) {
      assert v == IntegerNumber(v.x.Floor);
    }
  }

  /**
   * Strict equality `a === b` on the kinds above: no conversion between kinds,
   * so it holds exactly when both sides are the same value.
   */
  predicate StrictEquals(a: Value, b: Value)
    ensures StrictEquals(a, b) <==> a == b
  {
    match (a, b)
    case (Undefined, Undefined) => true
    case (Null, Null) => true
    case (Boolean(p), Boolean(q)) => p == q
    case (Number(x), Number(y)) => x == y
    case (Text(s), Text(t)) => s == t
    case _ => false
  }

  /** A value returned by `Math.random()`: a number in [0, 1). */
  type UnitReal = r: real | 0.0 <= r < 1.0 witness 0.0

  /**
   * The sequence of values `Math.random()` returns to one request handler:
   * the k-th call (counting from 0) returns `random(k)`. Fixing this oracle
   * makes every handler deterministic.
   */
  type Random = nat -> UnitReal
}
