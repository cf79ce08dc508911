/** `MultiFunction`: the operand array its constructor builds and the string its `toString` loop builds. */
module MultiFunctions {
  import opened Expression

  /**
   * The constructor: an array of `moreFunctions.length + 2` operands, the
   * first and second followed by the rest in argument order.
   */
  method NewMulti(kind: Kind, firstFunction: Function, secondFunction: Function, moreFunctions: seq<Function>)
    returns (f: Function)
    ensures f == Multi(kind, [firstFunction, secondFunction] + moreFunctions)
    ensures |f.functions| == |moreFunctions| + 2
  {
    var functions := new Function[|moreFunctions| + 2](_ => firstFunction);
    functions[1] := secondFunction;
    var i := 0;
    while i < |moreFunctions|
      invariant 0 <= i <= |moreFunctions|
      invariant functions[0] == firstFunction && functions[1] == secondFunction
      invariant forall k :: 0 <= k < i ==> functions[k + 2] == moreFunctions[k]
    {
      functions[i + 2] := moreFunctions[i];
      i := i + 1;
    }
    assert functions[..] == [firstFunction, secondFunction] + moreFunctions;
    f := Multi(kind, functions[..]);
  }

  /** The operand strings, in order. */
  function OperandStrings(fs: seq<Function>): (parts: seq<string>)
    ensures |parts| == |fs| && forall i :: 0 <= i < |fs| ==> parts[i] == ToString(fs[i])
  {
    seq(|fs|, i requires 0 <= i < |fs| => ToString(fs[i]))
  }

  /** `toString`: the first operand, then ` op ` and each further operand, all in parentheses. */
  method MultiToString(kind: Kind, functions: seq<Function>) returns (s: string)
    requires |functions| >= 1
    ensures s == ToString(Multi(kind, functions))
  {
    ghost var parts := OperandStrings(functions);
    var operator := OperatorOf(kind);
    var str := ToString(functions[0]);
    assert parts[..1] == [parts[0]];
    var i := 1;
    while i < |functions|
      invariant 1 <= i <= |functions|
      invariant str == JoinWith(parts[..i], operator)
    {
      JoinStep(parts, i, operator);
      str := str + " " + [operator] + " " + ToString(functions[i]);
      i := i + 1;
    }
    assert parts[..i] == parts;
    MultiText(kind, functions);
    s := "(" + str + ")";
  }

  /** One pass of the loop: the next operand joins the text after ` op `. */
  lemma JoinStep(parts: seq<string>, i: int, op: char)
    requires 1 <= i < |parts|
    ensures JoinWith(parts[..i + 1], op) == JoinWith(parts[..i], op) + " " + [op] + " " + parts[i]
  {
    assert parts[..i + 1][..i] == parts[..i];
  }

  lemma MultiText(kind: Kind, functions: seq<Function>)
    ensures ToString(Multi(kind, functions)) == "(" + JoinWith(OperandStrings(functions), OperatorOf(kind)) + ")"
  {
  }
}
