/** `Calculator#add` and `Calculator#subtract`: the class has no state, so both are functions. */
module Calculator {

  /** Ruby integers are unbounded, so the sum never wraps around. */
  function Add(a: int, b: int): (sum: int)
    ensures sum - b == a && sum - a == b
  {
    a + b
  }

  function Subtract(a: int, b: int): (difference: int)
    ensures difference + b == a
  {
    a - b
  }

  /** Subtracting undoes adding, and adding undoes subtracting. */
  lemma AddSubtractInverse(a: int, b: int)
    ensures Subtract(Add(a, b), b) == a
    ensures Add(Subtract(a, b), b) == a
  {
  }
}
