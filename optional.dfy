/** A JavaScript value that may be `undefined` (or, for the places that test
    truthiness, otherwise falsy) is an `Option`. */
module Optional {

  datatype Option<+T> = None | Some(value: T)

  /** JavaScript `x || d` on a number that may be missing: a missing value
      and `0` are both falsy and give `d`. */
  function Or(x: Option<int>, d: int): (r: int)
    ensures x.Some? && x.value != 0 ==> r == x.value
    ensures x == None || x == Some(0) ==> r == d
  {
    if x.Some? && x.value != 0 then x.value else d
  }

  /** JavaScript truthiness of a number that may be missing. */
  predicate Truthy(x: Option<int>)
  {
    x.Some? && x.value != 0
  }

  /** JavaScript truthiness of a coordinate that may be missing. */
  predicate TruthyReal(x: Option<real>)
  {
    x.Some? && x.value != 0.0
  }
}
