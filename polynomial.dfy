/**
 * `Polynomial`: coefficients in ascending order of exponent, its derivative
 * and its printed form. Coefficients are integers here.
 */
module Polynomials {
  import opened JavaLang

  /** The coefficients of the derivative: `[0]` for a constant, otherwise `(i+1)·c[i+1]` at index i. */
  function PolyDerivative(c: seq<int>): (d: seq<int>)
    requires |c| >= 1
    ensures |d| == if |c| == 1 then 1 else |c| - 1
  {
    if |c| == 1 then [0] else seq(|c| - 1, i requires 0 <= i < |c| - 1 => c[i + 1] * (i + 1))
  }

  /** The antiderivative with constant term `c0`: coefficient i of `d` divided by i+1, one place up. */
  function Integrate(d: seq<int>, c0: int): (c: seq<int>)
    ensures |c| == |d| + 1 && c[0] == c0
  {
    [c0] + seq(|d|, i requires 0 <= i < |d| => d[i] / (i + 1))
  }

  lemma MulAtLeast(k: int, b: int)
    requires k >= 1 && b > 0
    ensures k * b >= b
  {
    assert k * b == (k - 1) * b + b;
    assert (k - 1) * b >= 0;
  }

  lemma MulDivCancel(a: int, b: int)
    requires b > 0
    ensures (a * b) / b == a
  {
    var q, r := (a * b) / b, (a * b) % b;
    assert a * b == b * q + r && 0 <= r < b;
    assert (a - q) * b == r;
    if a > q {
      MulAtLeast(a - q, b);
    } else if a < q {
      MulAtLeast(q - a, b);
    }
  }

  /** Differentiating loses only the constant term: integrating back with it restores the polynomial. */
  lemma IntegrateDerivative(c: seq<int>)
    requires |c| >= 2
    ensures Integrate(PolyDerivative(c), c[0]) == c
  {
    var d := PolyDerivative(c);
    var back := Integrate(d, c[0]);
    forall i | 1 <= i < |c|
      ensures back[i] == c[i]
    {
      MulDivCancel(c[i], i);
    }
  }

  /** `derivative`: for one coefficient a fresh `[0]`, otherwise a new array filled in an index loop. */
  method DerivativeCoefficients(coefficients: seq<int>) returns (d: seq<int>)
    requires |coefficients| >= 1
    ensures d == PolyDerivative(coefficients)
  {
    if |coefficients| == 1 {
      return [0];
    }
    var derivativeCoefficients := new int[|coefficients| - 1];
    var i := 1;
    while i < |coefficients|
      invariant 1 <= i <= |coefficients|
      invariant forall k :: 0 <= k < i - 1 ==> derivativeCoefficients[k] == coefficients[k + 1] * (k + 1)
    {
      derivativeCoefficients[i - 1] := coefficients[i] * i;
      i := i + 1;
    }
    d := derivativeCoefficients[..];
  }

  predicate AllZero(c: seq<int>) {
    forall i :: 0 <= i < |c| ==> c[i] == 0
  }

  /** The joining operator before a term that is not the first: ` - ` for a negative coefficient. */
  function Operator(coefficient: int, first: bool): string {
    if first then "" else if coefficient < 0 then " - " else " + "
  }

  /** The coefficient as printed: its magnitude after an operator, and nothing for ±1 unless the exponent is 0. */
  function CoefficientText(coefficient: int, exponent: nat, first: bool): string {
    var shown := if !first && coefficient < 0 then -coefficient else coefficient;
    if (shown == 1 || shown == -1) && exponent != 0 then "" else IntToString(shown)
  }

  /** `x` for every exponent but 0, and `^i` after it from exponent 2 on. */
  function PowerText(exponent: nat): string {
    (if exponent != 0 then "x" else "") + (if exponent > 1 then "^" + IntToString(exponent) else "")
  }

  /** One printed term, as the loop body appends it. */
  function TermText(coefficient: int, exponent: nat, first: bool): string {
    Operator(coefficient, first) + CoefficientText(coefficient, exponent, first) + PowerText(exponent)
  }

  /** The terms of the non-zero coefficients, in ascending order of exponent. */
  function PolyBody(c: seq<int>): string {
    if c == [] then ""
    else
      var front := c[..|c| - 1];
      var last := c[|c| - 1];
      PolyBody(front) + (if last == 0 then "" else TermText(last, |c| - 1, AllZero(front)))
  }

  /** `toString`: `(0)` when every coefficient is 0, otherwise the terms in parentheses. */
  function PolyString(c: seq<int>): string {
    if AllZero(c) then "(0)" else "(" + PolyBody(c) + ")"
  }

  /** One pass of the loop body for a non-zero coefficient: operator, coefficient, variable, exponent. */
  method AppendTerm(coefficient: int, i: nat, firstTerm: bool) returns (term: string)
    ensures term == TermText(coefficient, i, firstTerm)
  {
    var shown := coefficient;
    var operator := "";
    if !firstTerm {
      if shown < 0 {
        operator := " - ";
        shown := -shown;
      } else {
        operator := " + ";
      }
    }
    var digits := "";
    if !((shown == 1 || shown == -1) && i != 0) {
      digits := IntToString(shown);
    }
    var variable := "";
    if i != 0 {
      variable := "x";
    }
    var exponent := "";
    if i > 1 {
      exponent := "^" + IntToString(i);
    }
    assert operator == Operator(coefficient, firstTerm);
    assert digits == CoefficientText(coefficient, i, firstTerm);
    var power := variable + exponent;
    assert power == PowerText(i);
    term := operator + digits + power;
  }

  /** `toString`: the loop over the coefficients with its `firstTerm` flag. */
  method PolynomialToString(coefficients: seq<int>) returns (s: string)
    ensures s == PolyString(coefficients)
  {
    var str := "";
    var firstTerm := true;
    var i := 0;
    while i < |coefficients|
      invariant 0 <= i <= |coefficients|
      invariant str == PolyBody(coefficients[..i])
      invariant firstTerm == AllZero(coefficients[..i])
    {
      BodyStep(coefficients, i);
      if coefficients[i] != 0 {
        var term := AppendTerm(coefficients[i], i, firstTerm);
        str := str + term;
        firstTerm := false;
      }
      i := i + 1;
    }
    assert coefficients[..i] == coefficients;
    if firstTerm {
      return "(0)";
    }
    s := "(" + str + ")";
  }

  lemma NatToStringNotZero(n: nat)
    requires n != 0
    ensures NatToString(n) != "0"
  {
    if n >= 10 {
      assert |NatToString(n)| >= 2;
    }
  }

  /**
   * The terms of a polynomial with a non-zero coefficient are not the text
   * `0`: a constant term prints a non-zero number, any other term an `x`,
   * and a later term starts with an operator.
   */
  lemma {:induction false} BodyNotZero(c: seq<int>)
    requires !AllZero(c)
    ensures PolyBody(c) != "" && PolyBody(c) != "0"
  {
    var front := c[..|c| - 1];
    var last := c[|c| - 1];
    assert c == front + [last];
    PolyBodyAppend(front, last);
    if !AllZero(front) {
      BodyNotZero(front);
      var t := if last == 0 then "" else TermText(last, |front|, false);
      NotZeroExtended(PolyBody(front), t);
    } else {
      BodyOfZeros(front);
      AllZeroAppend(front, last);
      FirstTermNotZero(last, |front|);
      assert PolyBody(c) == "" + TermText(last, |front|, true);
    }
  }

  lemma NotZeroExtended(b: string, t: string)
    requires b != "" && b != "0"
    ensures b + t != "" && b + t != "0"
  {
    assert (b + t)[..|b|] == b;
  }

  /** A first term is neither empty nor `0`: a constant prints a non-zero number, any other term an `x`. */
  lemma FirstTermNotZero(x: int, exponent: nat)
    requires x != 0
    ensures TermText(x, exponent, true) != "" && TermText(x, exponent, true) != "0"
  {
    var t := TermText(x, exponent, true);
    if exponent == 0 {
      if x < 0 {
        assert IntToString(x)[0] == '-';
      } else {
        NatToStringNotZero(x);
      }
      assert t == IntToString(x);
    } else {
      var head := Operator(x, true) + CoefficientText(x, exponent, true);
      assert t == head + PowerText(exponent);
      assert t[|head|] == 'x';
      assert 'x' in t && 'x' !in "0";
    }
  }

  lemma {:induction false} BodyOfZeros(c: seq<int>)
    requires AllZero(c)
    ensures PolyBody(c) == ""
  {
    if c != [] {
      BodyOfZeros(c[..|c| - 1]);
    }
  }

  /** `(0)` is printed exactly when every coefficient is 0. */
  lemma PolyStringZeroIff(c: seq<int>)
    ensures PolyString(c) == "(0)" <==> AllZero(c)
  {
    if !AllZero(c) {
      BodyNotZero(c);
      var b := PolyBody(c);
      var s := "(" + b + ")";
      assert s[1..|s| - 1] == b;
    }
  }

  lemma AllZeroAppend(front: seq<int>, x: int)
    ensures AllZero(front + [x]) <==> AllZero(front) && x == 0
  {
    var c := front + [x];
    assert c[|front|] == x;
    assert forall i :: 0 <= i < |front| ==> c[i] == front[i];
  }

  /** One more coefficient of the loop: its term is appended, and the prefix stays all zero only if it is 0. */
  lemma BodyStep(c: seq<int>, i: nat)
    requires i < |c|
    ensures PolyBody(c[..i + 1]) == PolyBody(c[..i]) + (if c[i] == 0 then "" else TermText(c[i], i, AllZero(c[..i])))
    ensures AllZero(c[..i + 1]) <==> AllZero(c[..i]) && c[i] == 0
  {
    assert c[..i + 1] == c[..i] + [c[i]];
    PolyBodyAppend(c[..i], c[i]);
    AllZeroAppend(c[..i], c[i]);
  }

  /** Appending a coefficient appends its term, if it is not 0. */
  lemma PolyBodyAppend(front: seq<int>, x: int)
    ensures PolyBody(front + [x]) == PolyBody(front) + (if x == 0 then "" else TermText(x, |front|, AllZero(front)))
  {
    var c := front + [x];
    assert c[..|c| - 1] == front && c[|c| - 1] == x;
  }

  /** A constant prints as its value in parentheses, or as `(0)`. */
  lemma ConstantString(v: int)
    ensures PolyString([v]) == if v == 0 then "(0)" else "(" + IntToString(v) + ")"
  {
    PolyBodyAppend([], v);
    assert [] + [v] == [v];
    if v != 0 {
      assert !AllZero([v]) by { assert [v][0] != 0; }
      assert TermText(v, 0, true) == IntToString(v);
    }
  }

  /**
   * The coefficient -1 is dropped with its sign on a first term: a leading
   * -x^n prints as `(x^n)`.
   */
  lemma MinusOneFirstTerm(front: seq<int>)
    requires |front| >= 2 && AllZero(front)
    ensures PolyString(front + [-1]) == "(x^" + IntToString(|front|) + ")"
  {
    LastTermText(front, -1);
    BodyOfZeros(front);
    PowerAbove(|front|);
    WrapFirst(IntToString(|front|));
  }

  /** On a later term the sign of -1 becomes the operator: ` - x^n` is appended. */
  lemma MinusOneLaterTerm(front: seq<int>)
    requires |front| >= 2 && !AllZero(front)
    ensures PolyString(front + [-1]) == "(" + PolyBody(front) + " - x^" + IntToString(|front|) + ")"
  {
    LastTermText(front, -1);
    PowerAbove(|front|);
    WrapLater(PolyBody(front), IntToString(|front|));
  }

  /** A polynomial ending in a non-zero coefficient prints its front and then that term, in parentheses. */
  lemma LastTermText(front: seq<int>, x: int)
    requires x != 0
    ensures PolyString(front + [x]) == "(" + (PolyBody(front) + TermText(x, |front|, AllZero(front))) + ")"
  {
    PolyBodyAppend(front, x);
    AllZeroAppend(front, x);
  }

  lemma PowerAbove(n: nat)
    requires n >= 2
    ensures PowerText(n) == "x^" + IntToString(n)
  {
  }

  lemma WrapFirst(e: string)
    ensures "(" + ("" + ("" + "" + ("x^" + e))) + ")" == "(x^" + e + ")"
  {
  }

  lemma WrapLater(b: string, e: string)
    ensures "(" + (b + (" - " + "" + ("x^" + e))) + ")" == "(" + b + " - x^" + e + ")"
  {
  }
}
