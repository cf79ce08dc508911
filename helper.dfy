/** `Helper.absolute` of the sliding-tile puzzle. */
module Helper {
  import opened JavaLang

  /** `absolute` on unbounded integers: negative inputs are negated. */
  function Absolute(x: int): (r: int)
    ensures r >= 0
    ensures x >= 0 ==> r == x
    ensures x < 0 ==> r == -x
  {
    if x < 0 then x * -1 else x
  }

  /** `absolute` on a Java `int`: `x *= -1` wraps around, so `Integer.MIN_VALUE` maps to itself. */
  function Absolute32(x: int): (r: int)
    requires IsInt32(x)
    ensures IsInt32(r)
  {
    if x < 0 then Wrap32(x * -1) else x
  }

  /** Away from `Integer.MIN_VALUE` the 32-bit version is the unbounded one. */
  lemma Absolute32Agrees(x: int)
    requires IsInt32(x) && x != INT_MIN
    ensures Absolute32(x) == Absolute(x)
  {
  }

  /** The result is non-negative exactly when the input is not `Integer.MIN_VALUE`. */
  lemma Absolute32NonNegative(x: int)
    requires IsInt32(x)
    ensures Absolute32(x) >= 0 <==> x != INT_MIN
  {
    if x == INT_MIN {
      assert x * -1 == INT_MAX + 1;
      assert Wrap32(x * -1) == INT_MIN;
    }
  }

  lemma AbsoluteSymmetric(x: int)
    ensures Absolute(-x) == Absolute(x)
  {
  }

  lemma AbsoluteIdempotent(x: int)
    ensures Absolute(Absolute(x)) == Absolute(x)
  {
  }
}
