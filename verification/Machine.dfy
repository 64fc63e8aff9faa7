/** Go's 64-bit signed integers. */
module Machine {
  const TWO_63 := 0x8000_0000_0000_0000
  const TWO_64 := 0x1_0000_0000_0000_0000

  predicate IsInt64(x: int) { -TWO_63 <= x < TWO_63 }

  /** Two's complement wrap-around of an exact result. */
  function Wrap64(x: int): int { (x + TWO_63) % TWO_64 - TWO_63 }

  function Minimum(x: int, y: int): int { if x <= y then x else y }

  lemma WrapIdentity(x: int)
    requires IsInt64(x)
    ensures Wrap64(x) == x
  {
  }

  /** Wrapping early or late makes no difference to a sum. */
  lemma WrapSum(x: int, y: int)
    ensures Wrap64(Wrap64(x) + y) == Wrap64(x + y)
  {
    var q := (x + TWO_63) / TWO_64;
    assert Wrap64(x) == x - q * TWO_64;
    assert (x + y + TWO_63 - q * TWO_64) % TWO_64 == (x + y + TWO_63) % TWO_64;
  }
}
