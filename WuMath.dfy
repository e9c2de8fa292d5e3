/** The two comparison templates of the WebUDP library, at integer type. */
module WuMath {

  /** Returns the first argument only when it is strictly smaller, so a tie
      yields the second one. */
  function Min(a: int, b: int): (r: int)
    ensures r <= a && r <= b
    ensures r == a || r == b
    ensures a == b ==> r == b
  {
    if a < b then a else b
  }

  /** Returns the first argument only when it is strictly larger, so a tie
      yields the second one. */
  function Max(a: int, b: int): (r: int)
    ensures r >= a && r >= b
    ensures r == a || r == b
    ensures a == b ==> r == b
  {
    if a > b then a else b
  }

  /** Min and Max split a pair: together they return both arguments. */
  lemma MinMaxPair(a: int, b: int)
    ensures Min(a, b) + Max(a, b) == a + b
    ensures Min(a, b) <= Max(a, b)
  {
  }
}
