/**
 * The expression classes as one datatype: a polynomial, an operator applied
 * to two or more operands (`MultiSum`, `Sum`, `MultiProduct`, `Product`,
 * `Difference`, `Quotient`), a negation or an integer power. `derivative()`
 * is a structural rewrite and `toString()` a printer; both are defined here
 * by recursion, dispatching on the run-time class as the overriding methods do.
 */
module Expression {
  import opened JavaLang
  import opened Polynomials

  /** The run-time class of a `MultiFunction`. */
  datatype Kind = MultiSum | Sum | MultiProduct | Product | Difference | Quotient

  datatype Function =
    | Polynomial(coefficients: seq<int>)
    | Multi(kind: Kind, functions: seq<Function>)
    | Negation(negated: Function)
    | Power(base: Function, exponent: int)

  /** `Constant`: a polynomial with only the x^0 term. */
  function Constant(value: int): Function {
    Polynomial([value])
  }

  /** The operator each class passes to the `MultiFunction` constructor. */
  function OperatorOf(kind: Kind): char {
    match kind
    case MultiSum => '+'
    case Sum => '+'
    case MultiProduct => '*'
    case Product => '*'
    case Difference => '-'
    case Quotient => '/'
  }

  /** The classes whose constructor takes exactly two operands. */
  predicate Binary(kind: Kind) {
    kind != MultiSum && kind != MultiProduct
  }

  /**
   * What the constructors guarantee: every operator node has at least two
   * operands, exactly two for the binary classes. A polynomial needs a
   * coefficient, without which `derivative` would allocate an array of length -1.
   */
  predicate WellFormed(f: Function) {
    match f
    case Polynomial(c) => |c| >= 1
    case Multi(kind, fs) =>
      |fs| >= 2 && (Binary(kind) ==> |fs| == 2) && forall i :: 0 <= i < |fs| ==> WellFormed(fs[i])
    case Negation(g) => WellFormed(g)
    case Power(g, _) => WellFormed(g)
  }

  /** `excludeFunction(index)`: the operands other than the first and the one at `index`, in order. */
  function Exclude(fs: seq<Function>, index: int): (others: seq<Function>)
    requires 1 <= index < |fs|
    ensures |others| == |fs| - 2
  {
    fs[1..index] + fs[index + 1..]
  }

  /**
   * Term `i` of the n-ary product rule: the derivative `di` of factor `i`
   * first, then factor 1 (for i = 0) or factor 0 (otherwise), then
   * `excludeFunction` of 1 (for i = 0) or of i.
   */
  function ProductTerm(fs: seq<Function>, i: int, di: Function): seq<Function>
    requires |fs| >= 2 && 0 <= i < |fs|
  {
    if i == 0 then [di, fs[1]] + Exclude(fs, 1) else [di, fs[0]] + Exclude(fs, i)
  }

  lemma ExcludeWellFormed(fs: seq<Function>, index: int)
    requires 1 <= index < |fs| && forall i :: 0 <= i < |fs| ==> WellFormed(fs[i])
    ensures forall i :: 0 <= i < |fs| - 2 ==> WellFormed(Exclude(fs, index)[i])
  {
    var others := Exclude(fs, index);
    forall i | 0 <= i < |fs| - 2
      ensures WellFormed(others[i])
    {
      if i < index - 1 {
        assert others[i] == fs[i + 1];
      } else {
        assert others[i] == fs[i + 2];
      }
    }
  }

  /** `derivative()`, as each class overrides it. */
  function Derivative(f: Function): (d: Function)
    requires WellFormed(f)
    ensures WellFormed(d)
  {
    match f
    case Polynomial(c) => Polynomial(PolyDerivative(c))
    case Negation(g) => Negation(Derivative(g))
    case Power(g, n) =>
      if n == 1 then Derivative(g)
      else Multi(MultiProduct, [Constant(n), Power(g, n - 1), Derivative(g)])
    case Multi(kind, fs) =>
      OperatorRule(kind, fs, seq(|fs|, i requires 0 <= i < |fs| => Derivative(fs[i])))
  }

  /** The derivative of an operator node whose operands have the derivatives `ds`. */
  function OperatorRule(kind: Kind, fs: seq<Function>, ds: seq<Function>): (d: Function)
    requires WellFormed(Multi(kind, fs)) && |ds| == |fs|
    requires forall i :: 0 <= i < |ds| ==> WellFormed(ds[i])
    ensures WellFormed(d)
  {
    match kind
    case MultiSum => Multi(MultiSum, ds)
    case Sum => Multi(Sum, [ds[0], ds[1]])
    case MultiProduct =>
      Multi(MultiSum, seq(|fs|, i requires 0 <= i < |fs| =>
        ProductTermWellFormed(fs, i, ds[i]);
        Multi(MultiProduct, ProductTerm(fs, i, ds[i]))))
    case Product =>
      Multi(Sum, [Multi(Product, [ds[0], fs[1]]), Multi(Product, [ds[1], fs[0]])])
    case Difference => Multi(Difference, [ds[0], ds[1]])
    case Quotient =>
      var numerator := Multi(Difference, [Multi(Product, [ds[0], fs[1]]), Multi(Product, [ds[1], fs[0]])]);
      Multi(Quotient, [numerator, Power(fs[1], 2)])
  }

  /** A product-rule term of well-formed factors is a well-formed product of n factors. */
  lemma ProductTermWellFormed(fs: seq<Function>, i: int, di: Function)
    requires |fs| >= 2 && 0 <= i < |fs| && WellFormed(di)
    requires forall k :: 0 <= k < |fs| ==> WellFormed(fs[k])
    ensures WellFormed(Multi(MultiProduct, ProductTerm(fs, i, di)))
  {
    var index := if i == 0 then 1 else i;
    ExcludeWellFormed(fs, index);
    var t := ProductTerm(fs, i, di);
    var others := Exclude(fs, index);
    assert t == [di, fs[if i == 0 then 1 else 0]] + others;
    forall k | 0 <= k < |t|
      ensures WellFormed(t[k])
    {
      if k >= 2 {
        assert t[k] == others[k - 2];
      }
    }
  }

  /** Operand strings joined by ` op `, as the `MultiFunction.toString` loop accumulates them. */
  function JoinWith(parts: seq<string>, op: char): string {
    if |parts| == 0 then ""
    else if |parts| == 1 then parts[0]
    else JoinWith(parts[..|parts| - 1], op) + " " + [op] + " " + parts[|parts| - 1]
  }

  /** `toString()`, as each class overrides it. */
  function ToString(f: Function): string {
    match f
    case Polynomial(c) => PolyString(c)
    case Multi(kind, fs) =>
      "(" + JoinWith(seq(|fs|, i requires 0 <= i < |fs| => ToString(fs[i])), OperatorOf(kind)) + ")"
    case Negation(g) => "(-" + ToString(g) + ")"
    case Power(g, n) => "(" + ToString(g) + "^" + IntToString(n) + ")"
  }

  /** The class `derivative()` is declared to return, for each operator class. */
  function DerivativeKind(kind: Kind): Kind {
    match kind
    case MultiSum => MultiSum
    case Sum => Sum
    case MultiProduct => MultiSum
    case Product => Sum
    case Difference => Difference
    case Quotient => Quotient
  }

  /**
   * The derivative of an operator node is a node of the declared return
   * class; sums and differences keep their arity with operand i replaced by
   * its derivative, and an n-factor product becomes a sum of n terms.
   */
  lemma OperatorDerivativeShape(kind: Kind, fs: seq<Function>)
    requires WellFormed(Multi(kind, fs))
    ensures var d := Derivative(Multi(kind, fs));
      d.Multi? && d.kind == DerivativeKind(kind)
      && (kind == MultiSum || kind == Sum || kind == Difference ==>
            |d.functions| == |fs| && forall i :: 0 <= i < |fs| ==> d.functions[i] == Derivative(fs[i]))
      && (kind == MultiProduct ==> |d.functions| == |fs|)
      && (kind == Product || kind == Quotient ==> |d.functions| == 2)
  {
  }

  /**
   * Term `i` of the product rule has as many factors as the product: the
   * same factors, with factor `i` traded for `di`.
   */
  lemma ProductTermFactors(fs: seq<Function>, i: int, di: Function)
    requires |fs| >= 2 && 0 <= i < |fs|
    ensures var t := ProductTerm(fs, i, di);
      |t| == |fs| && t[0] == di && multiset(t) + multiset{fs[i]} == multiset(fs) + multiset{di}
  {
    if i == 0 {
      FirstTermFactors(fs, di);
    } else {
      LaterTermFactors(fs, i, di);
    }
  }

  lemma FirstTermFactors(fs: seq<Function>, di: Function)
    requires |fs| >= 2
    ensures multiset([di, fs[1]] + fs[2..]) + multiset{fs[0]} == multiset(fs) + multiset{di}
  {
    var rest := fs[2..];
    MultisetOfPair(di, fs[1], rest);
    assert fs == [fs[0], fs[1]] + rest;
    MultisetOfPair(fs[0], fs[1], rest);
  }

  lemma LaterTermFactors(fs: seq<Function>, i: int, di: Function)
    requires 1 <= i < |fs|
    ensures multiset([di, fs[0]] + fs[1..i] + fs[i + 1..]) + multiset{fs[i]} == multiset(fs) + multiset{di}
  {
    var mid, rest := fs[1..i], fs[i + 1..];
    MultisetOfSplit(di, fs[0], mid, rest);
    assert fs == [fs[0]] + mid + [fs[i]] + rest;
  }

  lemma MultisetOfPair(x: Function, y: Function, rest: seq<Function>)
    ensures multiset([x, y] + rest) == multiset{x} + multiset{y} + multiset(rest)
  {
  }

  lemma MultisetOfSplit(d: Function, f0: Function, mid: seq<Function>, rest: seq<Function>)
    ensures multiset([d, f0] + mid + rest) == multiset{d} + multiset{f0} + multiset(mid) + multiset(rest)
  {
  }

  /**
   * The derivative of an n-factor `MultiProduct` is a `MultiSum` of n
   * `MultiProduct` terms; term i starts with the derivative of factor i and
   * holds each other factor once.
   */
  lemma MultiProductDerivativeTerms(fs: seq<Function>)
    requires WellFormed(Multi(MultiProduct, fs))
    ensures var d := Derivative(Multi(MultiProduct, fs));
      d.kind == MultiSum && |d.functions| == |fs|
      && forall i :: 0 <= i < |fs| ==>
        var t := d.functions[i];
        t.Multi? && t.kind == MultiProduct && |t.functions| == |fs| && t.functions[0] == Derivative(fs[i])
        && multiset(t.functions) + multiset{fs[i]} == multiset(fs) + multiset{Derivative(fs[i])}
  {
    var d := Derivative(Multi(MultiProduct, fs));
    forall i | 0 <= i < |fs|
      ensures d.functions[i] == Multi(MultiProduct, ProductTerm(fs, i, Derivative(fs[i])))
    {
    }
    forall i | 0 <= i < |fs|
      ensures var t := ProductTerm(fs, i, Derivative(fs[i]));
        |t| == |fs| && t[0] == Derivative(fs[i]) && multiset(t) + multiset{fs[i]} == multiset(fs) + multiset{Derivative(fs[i])}
    {
      ProductTermFactors(fs, i, Derivative(fs[i]));
    }
  }

  /** Printing sees only the operator, not which class carries it. */
  lemma SameOperatorSameString(k: Kind, k': Kind, fs: seq<Function>, fs': seq<Function>)
    requires OperatorOf(k) == OperatorOf(k') && |fs| == |fs'|
    requires forall i :: 0 <= i < |fs| ==> ToString(fs[i]) == ToString(fs'[i])
    ensures ToString(Multi(k, fs)) == ToString(Multi(k', fs'))
  {
    var parts := seq(|fs|, i requires 0 <= i < |fs| => ToString(fs[i]));
    var parts' := seq(|fs'|, i requires 0 <= i < |fs'| => ToString(fs'[i]));
    assert parts == parts';
  }

  /** `Sum.derivative` prints as `MultiSum.derivative` would on the same two operands. */
  lemma SumAgreesWithMultiSum(a: Function, b: Function)
    requires WellFormed(a) && WellFormed(b)
    ensures ToString(Derivative(Multi(Sum, [a, b]))) == ToString(Derivative(Multi(MultiSum, [a, b])))
  {
    var d := Derivative(Multi(MultiSum, [a, b]));
    assert d.functions == [Derivative(a), Derivative(b)];
    SameOperatorSameString(Sum, MultiSum, [Derivative(a), Derivative(b)], d.functions);
  }

  /** The product rule on two factors, as `MultiProduct.derivative` applies it. */
  lemma TwoFactorDerivative(a: Function, b: Function)
    requires WellFormed(a) && WellFormed(b)
    ensures Derivative(Multi(MultiProduct, [a, b]))
      == Multi(MultiSum, [Multi(MultiProduct, [Derivative(a), b]), Multi(MultiProduct, [Derivative(b), a])])
  {
    var fs := [a, b];
    var d := Derivative(Multi(MultiProduct, fs));
    assert Exclude(fs, 1) == [];
    assert ProductTerm(fs, 0, Derivative(a)) == [Derivative(a), b];
    assert ProductTerm(fs, 1, Derivative(b)) == [Derivative(b), a];
    assert d.functions[0] == Multi(MultiProduct, ProductTerm(fs, 0, Derivative(a)));
    assert d.functions[1] == Multi(MultiProduct, ProductTerm(fs, 1, Derivative(b)));
  }

  /** `Product.derivative`: the sum of `Product(f0', f1)` and `Product(f1', f0)`. */
  lemma ProductDerivative(a: Function, b: Function)
    requires WellFormed(a) && WellFormed(b)
    ensures Derivative(Multi(Product, [a, b]))
      == Multi(Sum, [Multi(Product, [Derivative(a), b]), Multi(Product, [Derivative(b), a])])
  {
  }

  /** `Product.derivative` prints as `MultiProduct.derivative` would on the same two factors. */
  lemma ProductAgreesWithMultiProduct(a: Function, b: Function)
    requires WellFormed(a) && WellFormed(b)
    ensures ToString(Derivative(Multi(Product, [a, b]))) == ToString(Derivative(Multi(MultiProduct, [a, b])))
  {
    StringOfProductDerivative(a, b);
    StringOfTwoFactorDerivative(a, b);
    SumOfProductsAgree(Derivative(a), b, Derivative(b), a);
  }

  lemma StringOfProductDerivative(a: Function, b: Function)
    requires WellFormed(a) && WellFormed(b)
    ensures ToString(Derivative(Multi(Product, [a, b])))
      == ToString(Multi(Sum, [Multi(Product, [Derivative(a), b]), Multi(Product, [Derivative(b), a])]))
  {
    ProductDerivative(a, b);
  }

  lemma StringOfTwoFactorDerivative(a: Function, b: Function)
    requires WellFormed(a) && WellFormed(b)
    ensures ToString(Derivative(Multi(MultiProduct, [a, b])))
      == ToString(Multi(MultiSum, [Multi(MultiProduct, [Derivative(a), b]), Multi(MultiProduct, [Derivative(b), a])]))
  {
    TwoFactorDerivative(a, b);
  }

  lemma SumOfProductsAgree(w: Function, x: Function, y: Function, z: Function)
    ensures ToString(Multi(Sum, [Multi(Product, [w, x]), Multi(Product, [y, z])]))
      == ToString(Multi(MultiSum, [Multi(MultiProduct, [w, x]), Multi(MultiProduct, [y, z])]))
  {
    PairSameString(Product, MultiProduct, w, x, w, x);
    PairSameString(Product, MultiProduct, y, z, y, z);
    PairSameString(Sum, MultiSum, Multi(Product, [w, x]), Multi(Product, [y, z]), Multi(MultiProduct, [w, x]), Multi(MultiProduct, [y, z]));
  }

  lemma PairSameString(k: Kind, k': Kind, x: Function, y: Function, x': Function, y': Function)
    requires OperatorOf(k) == OperatorOf(k') && ToString(x) == ToString(x') && ToString(y) == ToString(y')
    ensures ToString(Multi(k, [x, y])) == ToString(Multi(k', [x', y']))
  {
    SameOperatorSameString(k, k', [x, y], [x', y']);
  }

  /**
   * `Power.derivative`: exponent 1 gives the base's derivative itself; any
   * other exponent, 0 included, the three factors n, f^(n-1) and f'.
   */
  lemma PowerDerivative(g: Function, n: int)
    requires WellFormed(g)
    ensures var d := Derivative(Power(g, n));
      (n == 1 ==> d == Derivative(g))
      && (n != 1 ==> d.Multi? && d.kind == MultiProduct && d.functions == [Constant(n), Power(g, n - 1), Derivative(g)])
  {
  }

  /** The second derivative of a negation is the negated second derivative. */
  lemma NegationSecondDerivative(g: Function)
    requires WellFormed(g)
    ensures Derivative(Derivative(Negation(g))) == Negation(Derivative(Derivative(g)))
  {
  }

  /**
   * `Quotient.derivative`: the numerator subtracts the two terms the
   * product rule adds for the same operands, and the denominator is g².
   */
  lemma QuotientRule(f: Function, g: Function)
    requires WellFormed(f) && WellFormed(g)
    ensures Derivative(Multi(Quotient, [f, g]))
      == Multi(Quotient, [Multi(Difference, Derivative(Multi(Product, [f, g])).functions), Power(g, 2)])
  {
  }

  /** Every printed function is wrapped in parentheses. */
  lemma Parenthesised(f: Function)
    ensures var s := ToString(f); |s| >= 2 && s[0] == '(' && s[|s| - 1] == ')'
  {
  }
}
