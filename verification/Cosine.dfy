/** `cosine_similarity` over exact arithmetic. */
module Cosine {
  import opened Common

  function Dot(v: Vector, w: Vector): real
    requires |v| == |w|
  {
    if v == [] then 0.0 else Dot(v[..|v| - 1], w[..|w| - 1]) + v[|v| - 1] * w[|w| - 1]
  }

  function Norm(v: Vector): real {
    Dot(v, v)
  }

  /** Sum of (v[i] b - w[i] a) squared. */
  function Cross(v: Vector, w: Vector, a: real, b: real): real
    requires |v| == |w|
    ensures Cross(v, w, a, b) >= 0.0
  {
    if v == [] then 0.0
    else
      var d := v[|v| - 1] * b - w[|w| - 1] * a;
      assert d * d >= 0.0;
      Cross(v[..|v| - 1], w[..|w| - 1], a, b) + d * d
  }

  lemma {:induction false} CrossExpands(v: Vector, w: Vector, a: real, b: real)
    requires |v| == |w|
    ensures Cross(v, w, a, b) == Norm(v) * (b * b) - 2.0 * Dot(v, w) * (a * b) + Norm(w) * (a * a)
  {
    if v != [] {
      var v0, w0 := v[..|v| - 1], w[..|w| - 1];
      var x, y := v[|v| - 1], w[|w| - 1];
      CrossExpands(v0, w0, a, b);
      var p, q, r := Norm(v0), Dot(v0, w0), Norm(w0);
      assert (x * b - y * a) * (x * b - y * a) == (x * x) * (b * b) - 2.0 * (x * y) * (a * b) + (y * y) * (a * a);
      assert (p + x * x) * (b * b) == p * (b * b) + (x * x) * (b * b);
      assert (q + x * y) * (a * b) == q * (a * b) + (x * y) * (a * b);
      assert (r + y * y) * (a * a) == r * (a * a) + (y * y) * (a * a);
    }
  }

  lemma {:induction false} NormNonNegative(v: Vector)
    ensures Norm(v) >= 0.0
  {
    if v != [] {
      NormNonNegative(v[..|v| - 1]);
      assert v[|v| - 1] * v[|v| - 1] >= 0.0;
    }
  }

  /** dot squared is at most the product of the squared norms, for vectors of any length. */
  lemma {:induction false} CauchySchwarz(v: Vector, w: Vector)
    requires |v| == |w|
    ensures Dot(v, w) * Dot(v, w) <= Norm(v) * Norm(w)
  {
    if v != [] {
      var v0, w0 := v[..|v| - 1], w[..|w| - 1];
      var a, b := v[|v| - 1], w[|w| - 1];
      CauchySchwarz(v0, w0);
      CrossExpands(v0, w0, a, b);
      OneMoreTerm(Dot(v0, w0), Norm(v0), Norm(w0), a, b);
    }
  }

  lemma OneMoreTerm(d: real, n: real, m: real, a: real, b: real)
    requires d * d <= n * m && n * (b * b) - 2.0 * d * (a * b) + m * (a * a) >= 0.0
    ensures (d + a * b) * (d + a * b) <= (n + a * a) * (m + b * b)
  {
    var p, q, r := a * b, a * a, b * b;
    assert p * p == q * r;
    assert (d + p) * (d + p) == d * d + 2.0 * d * p + p * p;
    assert (n + q) * (m + r) == n * m + n * r + m * q + q * r;
  }

  lemma {:induction false} DotSymmetric(v: Vector, w: Vector)
    requires |v| == |w|
    ensures Dot(v, w) == Dot(w, v)
  {
    if v != [] { DotSymmetric(v[..|v| - 1], w[..|w| - 1]); }
  }

  function Unit(n: nat, at: nat): (r: Vector)
    ensures |r| == n && forall i | 0 <= i < n :: r[i] == if i == at then 1.0 else 0.0
  {
    seq(n, i => if i == at then 1.0 else 0.0)
  }

  /** Every component takes part: the product with a unit vector picks it out. */
  lemma {:induction false} DotOfUnit(v: Vector, at: nat)
    ensures Dot(v, Unit(|v|, at)) == if at < |v| then v[at] else 0.0
  {
    if v != [] {
      var u := Unit(|v|, at);
      assert u[..|v| - 1] == Unit(|v| - 1, at);
      DotOfUnit(v[..|v| - 1], at);
    }
  }

  lemma {:induction false} DotAdds(v: Vector, w: Vector, x: Vector, y: Vector)
    requires |v| == |w| == |x| == |y| && forall i | 0 <= i < |v| :: x[i] == v[i] + w[i]
    ensures Dot(x, y) == Dot(v, y) + Dot(w, y)
  {
    if v != [] {
      var n := |v| - 1;
      DotAdds(v[..n], w[..n], x[..n], y[..n]);
      assert x[n] * y[n] == v[n] * y[n] + w[n] * y[n];
    }
  }

  function Times(x: real, y: real): real {
    x * y
  }

  function Scale(c: real, v: Vector): (r: Vector)
    ensures |r| == |v| && forall i | 0 <= i < |v| :: r[i] == Times(c, v[i])
  {
    seq(|v|, i requires 0 <= i < |v| => Times(c, v[i]))
  }

  lemma ScaleFront(c: real, v: Vector)
    requires v != []
    ensures Scale(c, v)[..|v| - 1] == Scale(c, v[..|v| - 1]) && Scale(c, v)[|v| - 1] == c * v[|v| - 1]
  {
    assert Times(c, v[|v| - 1]) == c * v[|v| - 1];
    hide Times;
  }

  lemma {:induction false} DotScales(c: real, v: Vector, w: Vector)
    requires |v| == |w|
    ensures Dot(Scale(c, v), w) == Times(c, Dot(v, w))
  {
    if v != [] {
      var v0, w0 := v[..|v| - 1], w[..|w| - 1];
      DotScales(c, v0, w0);
      ScaleFront(c, v);
      Regroup(c, v[|v| - 1], w[|w| - 1], Dot(v0, w0));
    }
  }

  lemma Regroup(c: real, x: real, y: real, d: real)
    ensures c * d + (c * x) * y == c * (d + x * y)
  {
    var p := x * y;
    assert (c * x) * y == c * p;
    assert c * (d + p) == c * d + c * p;
  }

  lemma PositiveProduct(a: real, b: real)
    requires a > 0.0 && b > 0.0
    ensures a * b > 0.0
  {
  }

  /** `root` behaves as the square root at `x`. */
  predicate RootAt(root: real -> real, x: real) {
    root(x) >= 0.0 && root(x) * root(x) == x
  }

  function Over(d: real, p: real): real
    requires p != 0.0
  {
    d / p
  }

  function Denominator(v: Vector, w: Vector, root: real -> real): real {
    Times(root(Norm(v)), root(Norm(w)))
  }

  function Similarity(v: Vector, w: Vector, root: real -> real): real {
    if v == [] || w == [] || |v| != |w| || Norm(v) <= 0.0 || Norm(w) <= 0.0 || Denominator(v, w, root) == 0.0 then 0.0
    else Clamp(Over(Dot(v, w), Denominator(v, w, root)), 0.0, 1.0)
  }

  /** The accumulation loop and the final quotient. */
  method CosineSimilarity(v: Vector, w: Vector, root: real -> real) returns (similarity: real)
    requires RootAt(root, Norm(v)) && RootAt(root, Norm(w))
    ensures similarity == Similarity(v, w, root)
    ensures 0.0 <= similarity <= 1.0
  {
    if v == [] || w == [] || |v| != |w| {
      return 0.0;
    }
    var dot, norm1, norm2 := 0.0, 0.0, 0.0;
    for i := 0 to |v|
      invariant dot == Dot(v[..i], w[..i]) && norm1 == Norm(v[..i]) && norm2 == Norm(w[..i])
    {
      assert v[..i + 1][..i] == v[..i] && w[..i + 1][..i] == w[..i];
      dot := dot + v[i] * w[i];
      norm1 := norm1 + v[i] * v[i];
      norm2 := norm2 + w[i] * w[i];
    }
    assert v[..|v|] == v && w[..|w|] == w;
    if norm1 <= 0.0 || norm2 <= 0.0 {
      return 0.0;
    }
    RootsArePositive(root, norm1, norm2);
    var denominator := Times(root(norm1), root(norm2));
    hide Times, Dot, Over;
    similarity := Clamp(Over(dot, denominator), 0.0, 1.0);
  }

  lemma RootsArePositive(root: real -> real, a: real, b: real)
    requires RootAt(root, a) && RootAt(root, b) && a > 0.0 && b > 0.0
    ensures root(a) > 0.0 && root(b) > 0.0 && Times(root(a), root(b)) > 0.0
  {
    var x, y := root(a), root(b);
    assert x != 0.0 && y != 0.0;
    PositiveProduct(x, y);
  }

  lemma DifferenceOfSquares(x: real, y: real)
    ensures x * x - y * y == (x - y) * (x + y)
  {
  }

  lemma SquareOrder(x: real, y: real)
    requires y >= 0.0 && x * x <= y * y
    ensures x <= y
  {
    DifferenceOfSquares(x, y);
    if x > y {
      PositiveProduct(x - y, x + y);
    }
  }

  /** The quotient never exceeds one: the upper clamp has nothing to do. */
  lemma UpperClampNeverFires(v: Vector, w: Vector, root: real -> real)
    requires |v| == |w| && Norm(v) > 0.0 && Norm(w) > 0.0
    requires RootAt(root, Norm(v)) && RootAt(root, Norm(w))
    ensures Denominator(v, w, root) > 0.0
    ensures Over(Dot(v, w), Denominator(v, w, root)) <= 1.0
    ensures Similarity(v, w, root) == Max(0.0, Over(Dot(v, w), Denominator(v, w, root)))
  {
    DenominatorIsPositive(v, w, root);
    QuotientAtMostOne(v, w, root);
    NonEmpty(v);
    NonEmpty(w);
    hide Dot, Times, Norm, RootAt, Over, Denominator;
  }

  lemma NonEmpty(v: Vector)
    ensures v == [] ==> Norm(v) == 0.0
  {
  }

  lemma DenominatorIsPositive(v: Vector, w: Vector, root: real -> real)
    requires Norm(v) > 0.0 && Norm(w) > 0.0 && RootAt(root, Norm(v)) && RootAt(root, Norm(w))
    ensures Denominator(v, w, root) > 0.0
  {
    hide Dot, Norm, Times, RootAt;
    RootsArePositive(root, Norm(v), Norm(w));
  }

  lemma QuotientAtMostOne(v: Vector, w: Vector, root: real -> real)
    requires |v| == |w| && Denominator(v, w, root) > 0.0 && RootAt(root, Norm(v)) && RootAt(root, Norm(w))
    ensures Over(Dot(v, w), Denominator(v, w, root)) <= 1.0
  {
    hide Dot, Times, Over, Norm, RootAt;
    CauchyTimes(v, w);
    RootTimes(root, Norm(v));
    RootTimes(root, Norm(w));
    Quotient(Dot(v, w), root(Norm(v)), root(Norm(w)), Norm(v), Norm(w));
  }

  lemma CauchyTimes(v: Vector, w: Vector)
    requires |v| == |w|
    ensures Times(Dot(v, w), Dot(v, w)) <= Times(Norm(v), Norm(w))
  {
    CauchySchwarz(v, w);
    hide Dot, Norm;
  }

  lemma RootTimes(root: real -> real, x: real)
    requires RootAt(root, x)
    ensures Times(root(x), root(x)) == x
  {
  }

  lemma Quotient(d: real, x: real, y: real, n: real, m: real)
    requires Times(x, x) == n && Times(y, y) == m && Times(d, d) <= Times(n, m) && Times(x, y) > 0.0
    ensures Over(d, Times(x, y)) <= 1.0
  {
    var p := x * y;
    assert p * p == (x * x) * (y * y);
    SquareOrder(d, p);
    AtMostOne(d, p);
  }

  lemma AtMostOne(d: real, p: real)
    requires p > 0.0 && d <= p
    ensures d / p <= 1.0
  {
    var q := d / p;
    assert q * p == d;
    if q > 1.0 { PositiveProduct(q - 1.0, p); }
  }

  lemma SimilarityIsSymmetric(v: Vector, w: Vector, root: real -> real)
    ensures Similarity(v, w, root) == Similarity(w, v, root)
  {
    if |v| == |w| { DotSymmetric(v, w); }
    assert Denominator(v, w, root) == Denominator(w, v, root);
    hide Dot, Times, Denominator, Over;
  }

  lemma RootsAgree(x: real, y: real)
    requires x >= 0.0 && y >= 0.0 && x * x == y * y
    ensures x == y
  {
    SquareOrder(x, y);
    SquareOrder(y, x);
  }

  /** A positive factor on one vector changes nothing. */
  lemma ScaleInvariant(c: real, v: Vector, w: Vector, root: real -> real)
    requires c > 0.0
    requires RootAt(root, Norm(v)) && RootAt(root, Norm(w)) && RootAt(root, Norm(Scale(c, v)))
    ensures Similarity(Scale(c, v), w, root) == Similarity(v, w, root)
  {
    hide Dot, Norm, Denominator, Over, Times, RootAt;
    ScaledNormSign(c, v);
    if v != [] && |v| == |w| && Norm(v) > 0.0 && Norm(w) > 0.0 {
      ScaledQuotient(c, v, w, root);
    }
  }

  lemma ScaledNormSign(c: real, v: Vector)
    requires c > 0.0
    ensures Norm(Scale(c, v)) > 0.0 <==> Norm(v) > 0.0
  {
    hide Dot, Norm;
    NormScales(c, v);
    NormNonNegative(v);
    var n := Norm(v);
    if n > 0.0 {
      PositiveProduct(c, n);
      PositiveProduct(c, c * n);
    }
  }

  lemma ScaledQuotient(c: real, v: Vector, w: Vector, root: real -> real)
    requires c > 0.0 && |v| == |w| && Norm(v) > 0.0 && Norm(w) > 0.0
    requires RootAt(root, Norm(v)) && RootAt(root, Norm(w)) && RootAt(root, Norm(Scale(c, v)))
    ensures var u := Scale(c, v);
            && Denominator(u, w, root) > 0.0 && Denominator(v, w, root) > 0.0
            && Over(Dot(u, w), Denominator(u, w, root)) == Over(Dot(v, w), Denominator(v, w, root))
  {
    hide Dot, Times, RootAt, Norm, Over;
    DotScales(c, v, w);
    ScaledRoot(c, v, root);
    RootsArePositive(root, Norm(v), Norm(w));
    Cancel(c, Dot(v, w), root(Norm(v)), root(Norm(w)));
  }

  lemma ScaledRoot(c: real, v: Vector, root: real -> real)
    requires c > 0.0 && RootAt(root, Norm(v)) && RootAt(root, Norm(Scale(c, v)))
    ensures root(Norm(Scale(c, v))) == Times(c, root(Norm(v)))
  {
    hide Dot, Norm;
    NormScales(c, v);
    RootScales(c, Norm(v), root(Norm(v)), root(Norm(Scale(c, v))));
  }

  lemma NormScales(c: real, v: Vector)
    ensures Norm(Scale(c, v)) == c * (c * Norm(v))
  {
    var u := Scale(c, v);
    DotScales(c, v, u);
    DotSymmetric(v, u);
    DotScales(c, v, v);
    hide Dot;
  }

  lemma RootScales(c: real, n: real, x: real, z: real)
    requires c > 0.0 && x >= 0.0 && x * x == n && z >= 0.0 && z * z == c * (c * n)
    ensures z == c * x
  {
    var y := c * x;
    assert y >= 0.0;
    assert y * y == c * (c * (x * x));
    RootsAgree(z, y);
  }

  lemma Cancel(c: real, d: real, x: real, y: real)
    requires c > 0.0 && Times(x, y) > 0.0
    ensures Times(Times(c, x), y) > 0.0 && Over(Times(c, d), Times(Times(c, x), y)) == Over(d, Times(x, y))
  {
    var p := x * y;
    var q := d / p;
    assert Times(Times(c, x), y) == c * p;
    PositiveProduct(c, p);
    assert q * p == d;
    assert c * d == q * (c * p);
  }

  /** Nothing to compare, or nothing in common: no similarity. */
  lemma NoSimilarity(v: Vector, w: Vector, root: real -> real)
    requires |v| == |w| ==> RootAt(root, Norm(v)) && RootAt(root, Norm(w))
    requires |v| != |w| || Norm(v) == 0.0 || Norm(w) == 0.0 || Dot(v, w) <= 0.0
    ensures Similarity(v, w, root) == 0.0
  {
    if |v| == |w| && v != [] && Norm(v) > 0.0 && Norm(w) > 0.0 {
      RootsArePositive(root, Norm(v), Norm(w));
      QuotientSign(Dot(v, w), Denominator(v, w, root));
    }
    hide Dot, Times, Norm, RootAt, Over;
  }

  lemma QuotientSign(d: real, p: real)
    requires p > 0.0
    ensures d <= 0.0 ==> Over(d, p) <= 0.0
  {
    var q := d / p;
    assert q * p == d;
    if q > 0.0 { PositiveProduct(q, p); }
  }

  /** A vector is as similar to itself as possible. */
  lemma SelfSimilarity(v: Vector, root: real -> real)
    requires Norm(v) > 0.0 && RootAt(root, Norm(v))
    ensures Similarity(v, v, root) == 1.0
  {
    assert v != [];
    assert Denominator(v, v, root) == Dot(v, v);
    SelfQuotient(Dot(v, v));
    hide Dot, Times, RootAt, Denominator, Over;
  }

  lemma SelfQuotient(d: real)
    requires d > 0.0
    ensures Over(d, d) == 1.0
  {
  }
}
