/** The few JavaScript evaluation rules the task queries depend on: which
    values are truthy, what `a && b` evaluates to, and which elements
    `Array.prototype.filter` keeps. */
module Js {

  /** The values a filter callback in the task queries can produce. */
  datatype Value = Undefined | Null | Bool(b: bool) | Number(n: int) | Str(s: string)

  /** JavaScript truthiness: `undefined`, `null`, `false`, `0` and `""` are falsy. */
  predicate Truthy(v: Value) {
    match v
    case Undefined => false
    case Null => false
    case Bool(b) => b
    case Number(n) => n != 0
    case Str(s) => s != ""
  }

  /** `a && b`: the left operand when it is falsy, the right one otherwise. The
      right operand is only evaluated when the left is truthy, so callers pass
      a right operand that is harmless to compute either way. */
  function And(a: Value, b: Value): (r: Value)
    ensures Truthy(r) <==> Truthy(a) && Truthy(b)
    ensures !Truthy(a) ==> r == a
    ensures Truthy(a) ==> r == b
  {
    if Truthy(a) then b else a
  }

  /** `xs.filter(callback)`: keeps exactly the elements for which the callback's
      value is truthy. Results are unordered here, so a set stands for the array. */
  function Filter<T>(xs: set<T>, callback: T -> Value): (r: set<T>)
    ensures r <= xs
    ensures forall x :: x in xs ==> (x in r <==> Truthy(callback(x)))
  {
    set x | x in xs && Truthy(callback(x))
  }

  /** The value of an arrow function whose block body evaluates `expression` as
      a statement and then ends without `return`: `undefined`, whatever the
      expression's value. */
  function DiscardedBy(expression: Value): (r: Value)
    ensures !Truthy(r)
  {
    Undefined
  }

  /** A callback whose value is never truthy (for one, a block body with no
      `return`, which yields `undefined`) makes `filter` keep nothing. */
  lemma FilterFalsyIsEmpty<T>(xs: set<T>, callback: T -> Value)
    requires forall x :: x in xs ==> !Truthy(callback(x))
    ensures Filter(xs, callback) == {}
  {
  }
}
