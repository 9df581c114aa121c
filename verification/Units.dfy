/** JavaScript strings and byte arrays as sequences of 16-bit units. */
module Units {

  type Unit = bv16

  /** An element past the end is `undefined`, and counts as zero in bit operations. */
  function At(units: seq<Unit>, i: nat): Unit {
    if i < |units| then units[i] else 0
  }

  /** What is left from `i` on. */
  function From(units: seq<Unit>, i: nat): seq<Unit> {
    if i < |units| then units[i..] else []
  }

  lemma AllLeft(units: seq<Unit>)
    ensures From(units, 0) == units
  {
  }
}
