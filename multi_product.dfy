/** `MultiProduct.derivative`: the n-ary product rule, built with `excludeFunction`. */
module MultiProducts {
  import opened Expression
  import opened MultiFunctions

  /** `excludeFunction(index)`: an index loop that skips the first operand and the one at `index`. */
  method ExcludeFunction(functions: seq<Function>, index: int) returns (others: seq<Function>)
    requires 1 <= index < |functions|
    ensures others == Exclude(functions, index)
  {
    var otherFunctions := new Function[|functions| - 2](_ => functions[0]);
    var i := 0;
    while i < otherFunctions.Length
      invariant 0 <= i <= otherFunctions.Length
      invariant forall k :: 0 <= k < i ==> otherFunctions[k] == if k < index - 1 then functions[k + 1] else functions[k + 2]
    {
      if i < index - 1 {
        otherFunctions[i] := functions[i + 1];
      } else {
        otherFunctions[i] := functions[i + 2];
      }
      i := i + 1;
    }
    others := otherFunctions[..];
    assert forall k :: 0 <= k < |others| ==> others[k] == Exclude(functions, index)[k];
  }

  /** The first two terms, then one term per further factor built in a loop, summed by a `MultiSum`. */
  method MultiProductDerivative(functions: seq<Function>) returns (d: Function)
    requires WellFormed(Multi(MultiProduct, functions))
    ensures d == Derivative(Multi(MultiProduct, functions))
  {
    var otherFunctions := ExcludeFunction(functions, 1);
    var firstFunctionToSum := NewMulti(MultiProduct, Derivative(functions[0]), functions[1], otherFunctions);
    var secondFunctionToSum := NewMulti(MultiProduct, Derivative(functions[1]), functions[0], otherFunctions);
    var moreFunctionsToSum := new Function[|functions| - 2](_ => firstFunctionToSum);
    var i := 2;
    while i < |functions|
      invariant 2 <= i <= |functions|
      invariant forall k :: 2 <= k < i ==>
        moreFunctionsToSum[k - 2] == Multi(MultiProduct, ProductTerm(functions, k, Derivative(functions[k])))
    {
      moreFunctionsToSum[i - 2] := LaterTerm(functions, i);
      i := i + 1;
    }
    d := NewMulti(MultiSum, firstFunctionToSum, secondFunctionToSum, moreFunctionsToSum[..]);
    ProductRuleSum(functions, d.functions);
  }

  /** One pass of the loop: the term for factor `i`, from its derivative, factor 0 and the rest. */
  method LaterTerm(functions: seq<Function>, i: int) returns (term: Function)
    requires WellFormed(Multi(MultiProduct, functions)) && 2 <= i < |functions|
    ensures term == Multi(MultiProduct, ProductTerm(functions, i, Derivative(functions[i])))
  {
    var otherFunctions := ExcludeFunction(functions, i);
    term := NewMulti(MultiProduct, Derivative(functions[i]), functions[0], otherFunctions);
  }

  /** A sum whose term k is the product-rule term of factor k is the derivative of the product. */
  lemma ProductRuleSum(functions: seq<Function>, terms: seq<Function>)
    requires WellFormed(Multi(MultiProduct, functions)) && |terms| == |functions|
    requires forall k :: 0 <= k < |functions| ==>
      terms[k] == Multi(MultiProduct, ProductTerm(functions, k, Derivative(functions[k])))
    ensures Multi(MultiSum, terms) == Derivative(Multi(MultiProduct, functions))
  {
    var expected := Derivative(Multi(MultiProduct, functions));
    forall k | 0 <= k < |functions|
      ensures terms[k] == expected.functions[k]
    {
    }
  }
}
