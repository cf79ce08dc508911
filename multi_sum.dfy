/** `MultiSum.derivative`: the sum of the operands' derivatives. */
module MultiSums {
  import opened Expression
  import opened MultiFunctions

  /** The derivatives of the operands after the first two, collected in a loop, then the new `MultiSum`. */
  method MultiSumDerivative(functions: seq<Function>) returns (d: Function)
    requires WellFormed(Multi(MultiSum, functions))
    ensures d == Derivative(Multi(MultiSum, functions))
  {
    var moreDerivativeFunctions := new Function[|functions| - 2](_ => functions[0]);
    var i := 0;
    while i < moreDerivativeFunctions.Length
      invariant 0 <= i <= moreDerivativeFunctions.Length
      invariant forall k :: 0 <= k < i ==> moreDerivativeFunctions[k] == Derivative(functions[k + 2])
    {
      moreDerivativeFunctions[i] := Derivative(functions[i + 2]);
      i := i + 1;
    }
    d := NewMulti(MultiSum, Derivative(functions[0]), Derivative(functions[1]), moreDerivativeFunctions[..]);
    assert d.functions == seq(|functions|, k requires 0 <= k < |functions| => Derivative(functions[k]));
  }
}
