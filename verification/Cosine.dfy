/** Cosine similarity of real vectors. */
module Cosine {
  import opened Wrappers

  type Vector = seq<real>

  /** The square root is a parameter; `IsRoot` is all that is used of it. */
  type Root = real -> real

  ghost predicate IsRoot(root: Root) {
    forall x :: x >= 0.0 ==> root(x) >= 0.0 && root(x) * root(x) == x
  }

  // ---------------------------------------------------------------- products

  /** The product and quotient of two reals. Their definitions are hidden from the solver
      outside the lemmas of this section. */
  function Times(x: real, y: real): real {
    x * y
  }

  function Quotient(x: real, y: real): real
    requires y != 0.0
  {
    x / y
  }

  lemma TimesZero(x: real, y: real)
    ensures Times(x, y) == 0.0 <==> x == 0.0 || y == 0.0
  {
  }

  lemma TimesOne(x: real)
    ensures Times(x, 1.0) == x
  {
  }

  lemma TimesAdds(k: real, x: real, y: real)
    ensures Times(k, x + y) == Times(k, x) + Times(k, y)
  {
  }

  lemma TimesCommutes(x: real, y: real)
    ensures Times(x, y) == Times(y, x)
  {
  }

  lemma TimesAssociates(x: real, y: real, z: real)
    ensures Times(Times(x, y), z) == Times(x, Times(y, z))
  {
  }

  lemma TimesOrder(x: real, y: real, k: real)
    requires x <= y && k >= 0.0
    ensures Times(x, k) <= Times(y, k)
  {
  }

  lemma QuotientTimes(x: real, y: real)
    requires y != 0.0
    ensures Times(Quotient(x, y), y) == x
  {
  }

  /** A quotient is the one number that, times the divisor, gives the dividend. */
  lemma QuotientIsUnique(q: real, x: real, y: real)
    requires y != 0.0 && Times(q, y) == x
    ensures q == Quotient(x, y)
  {
  }

  lemma QuotientBounds(d: real, n: real)
    requires n > 0.0 && -n <= d <= n
    ensures -1.0 <= Quotient(d, n) <= 1.0
  {
  }

  lemma SquareIsPositive(x: real)
    ensures Times(x, x) >= 0.0
  {
  }

  lemma TimesPositive(x: real, y: real)
    requires x > 0.0 && y > 0.0
    ensures Times(x, y) > 0.0
  {
  }

  lemma StrictSquares(x: real, y: real)
    requires 0.0 <= y < x
    ensures Times(x, x) > Times(y, y)
  {
    hide Times;
    TimesAdds(x, x - y, y);
    TimesPositive(x, x - y);
    TimesOrder(y, x, y);
  }

  lemma NegatedSquare(x: real)
    ensures Times(-x, -x) == Times(x, x)
  {
  }

  lemma SquaresOrder(x: real, y: real)
    requires y >= 0.0
    ensures Times(x, x) <= Times(y, y) ==> -y <= x <= y
  {
    hide Times;
    NegatedSquare(x);
    if x > y {
      StrictSquares(x, y);
    } else if -x > y {
      StrictSquares(-x, y);
    }
  }

  lemma ProductOfSquares(x: real, y: real)
    ensures Times(Times(x, x), Times(y, y)) == Times(Times(x, y), Times(x, y))
  {
    hide Times;
    TimesAssociates(x, x, Times(y, y));
    TimesAssociates(x, y, y);
    TimesCommutes(Times(x, y), y);
    TimesAssociates(x, y, Times(x, y));
  }

  lemma SquareOfDifference(x: real, t: real, y: real)
    ensures Times(x - Times(t, y), x - Times(t, y)) ==
            Times(x, x) - 2.0 * Times(t, Times(x, y)) + Times(Times(t, t), Times(y, y))
  {
    var ty := t * y;
    assert (x - ty) * (x - ty) == x * x - 2.0 * (x * ty) + ty * ty;
    assert x * ty == t * (x * y);
    ProductOfSquares(t, y);
  }

  // ---------------------------------------------------------------- the similarity

  function Dot(a: Vector, b: Vector): real
    requires |a| == |b|
  {
    if a == [] then 0.0 else Times(a[0], b[0]) + Dot(a[1..], b[1..])
  }

  function Scale(k: real, a: Vector): (r: Vector)
    ensures |r| == |a|
  {
    if a == [] then [] else [Times(k, a[0])] + Scale(k, a[1..])
  }

  function Plus(a: Vector, b: Vector): (r: Vector)
    requires |a| == |b|
    ensures |r| == |a| && forall i :: 0 <= i < |a| ==> r[i] == a[i] + b[i]
  {
    seq(|a|, i requires 0 <= i < |a| => a[i] + b[i])
  }

  /** The similarity of two vectors of one length; 0 if either is zero. */
  function Similarity(root: Root, a: Vector, b: Vector): real
    requires |a| == |b|
  {
    var na, nb := root(Dot(a, a)), root(Dot(b, b));
    if na == 0.0 || nb == 0.0 then 0.0
    else
      TimesZero(na, nb);
      Quotient(Dot(a, b), Times(na, nb))
  }

  /** As the code computes it; none where it raises because the lengths differ. */
  method CosineSimilarity(root: Root, a: Vector, b: Vector) returns (r: Option<real>)
    ensures r == if |a| == |b| then Some(Similarity(root, a, b)) else None
  {
    hide Times, Quotient;
    if |a| != |b| {
      return None;
    }
    var dot := SumOfProducts(a, b);
    var aa := SumOfProducts(a, a);
    var bb := SumOfProducts(b, b);
    var normA, normB := root(aa), root(bb);
    if normA == 0.0 || normB == 0.0 {
      return Some(0.0);
    }
    TimesZero(normA, normB);
    return Some(Quotient(dot, Times(normA, normB)));
  }

  method SumOfProducts(a: Vector, b: Vector) returns (sum: real)
    requires |a| == |b|
    ensures sum == Dot(a, b)
  {
    hide Times;
    sum := 0.0;
    for i := 0 to |a|
      invariant sum + Dot(a[i..], b[i..]) == Dot(a, b)
    {
      assert a[i..][1..] == a[i + 1..] && b[i..][1..] == b[i + 1..];
      sum := sum + Times(a[i], b[i]);
    }
  }

  // ---------------------------------------------------------------- Cauchy-Schwarz

  /** `a - t * b`, componentwise. */
  function Minus(a: Vector, t: real, b: Vector): (r: Vector)
    requires |a| == |b|
    ensures |r| == |a|
  {
    if a == [] then [] else [a[0] - Times(t, b[0])] + Minus(a[1..], t, b[1..])
  }

  lemma {:induction false} SquareIsNonNegative(a: Vector)
    ensures Dot(a, a) >= 0.0
  {
    hide Times;
    if a != [] {
      SquareIsPositive(a[0]);
      SquareIsNonNegative(a[1..]);
    }
  }

  lemma {:induction false} ExpandSquare(a: Vector, t: real, b: Vector)
    requires |a| == |b|
    ensures Dot(Minus(a, t, b), Minus(a, t, b)) == Dot(a, a) - 2.0 * Times(t, Dot(a, b)) + Times(Times(t, t), Dot(b, b))
  {
    hide Times;
    if a == [] {
      TimesZero(t, 0.0);
      TimesZero(Times(t, t), 0.0);
    } else {
      ExpandSquare(a[1..], t, b[1..]);
      SquareOfDifference(a[0], t, b[0]);
      TimesAdds(t, Times(a[0], b[0]), Dot(a[1..], b[1..]));
      TimesAdds(Times(t, t), Times(b[0], b[0]), Dot(b[1..], b[1..]));
      assert Minus(a, t, b)[1..] == Minus(a[1..], t, b[1..]);
    }
  }

  lemma {:induction false} ZeroVector(a: Vector, b: Vector)
    requires |a| == |b| && Dot(b, b) == 0.0
    ensures Dot(a, b) == 0.0
  {
    hide Times;
    if b != [] {
      SquareIsNonNegative(b[1..]);
      SquareIsPositive(b[0]);
      TimesZero(b[0], b[0]);
      TimesZero(a[0], b[0]);
      ZeroVector(a[1..], b[1..]);
    }
  }

  /** A square that is never negative, at its minimum `t = d / y`. */
  lemma Discriminant(x: real, t: real, d: real, y: real)
    requires y > 0.0 && Times(t, y) == d
    requires x - 2.0 * Times(t, d) + Times(Times(t, t), y) >= 0.0
    ensures Times(d, d) <= Times(x, y)
  {
    hide Times;
    TimesAssociates(t, t, y);
    TimesOrder(Times(t, d), x, y);
    TimesAssociates(t, d, y);
    TimesCommutes(d, y);
    TimesAssociates(t, y, d);
  }

  lemma CauchySchwarz(a: Vector, b: Vector)
    requires |a| == |b|
    ensures Times(Dot(a, b), Dot(a, b)) <= Times(Dot(a, a), Dot(b, b))
  {
    hide Dot, Times, Quotient;
    var y := Dot(b, b);
    SquareIsNonNegative(b);
    if y == 0.0 {
      ZeroVector(a, b);
      TimesZero(Dot(a, b), Dot(a, b));
      TimesZero(Dot(a, a), y);
    } else {
      var t := Quotient(Dot(a, b), y);
      QuotientTimes(Dot(a, b), y);
      SquareIsNonNegative(Minus(a, t, b));
      ExpandSquare(a, t, b);
      Discriminant(Dot(a, a), t, Dot(a, b), y);
    }
  }

  // ---------------------------------------------------------------- bounds and scaling

  /** What `IsRoot` says, one number at a time. */
  lemma RootSquares(root: Root, x: real)
    requires IsRoot(root) && x >= 0.0
    ensures root(x) >= 0.0 && Times(root(x), root(x)) == x
  {
  }

  /** Every similarity lies in [-1, 1]. */
  lemma SimilarityIsBounded(root: Root, a: Vector, b: Vector)
    requires IsRoot(root) && |a| == |b|
    ensures -1.0 <= Similarity(root, a, b) <= 1.0
  {
    hide Dot, Times, Quotient, IsRoot;
    SquareIsNonNegative(a);
    SquareIsNonNegative(b);
    RootSquares(root, Dot(a, a));
    RootSquares(root, Dot(b, b));
    var na, nb := root(Dot(a, a)), root(Dot(b, b));
    if na != 0.0 && nb != 0.0 {
      TimesZero(na, nb);
      TimesZero(0.0, nb);
      TimesOrder(0.0, na, nb);
      CauchySchwarz(a, b);
      ProductOfSquares(na, nb);
      SquaresOrder(Dot(a, b), Times(na, nb));
      QuotientBounds(Dot(a, b), Times(na, nb));
    }
  }

  lemma {:induction false} DotOfScaled(k: real, a: Vector, b: Vector)
    requires |a| == |b|
    ensures Dot(a, Scale(k, b)) == Times(k, Dot(a, b))
  {
    hide Times;
    if a == [] {
      TimesZero(k, 0.0);
    } else {
      DotOfScaled(k, a[1..], b[1..]);
      TimesAssociates(a[0], k, b[0]);
      TimesCommutes(a[0], k);
      TimesAssociates(k, a[0], b[0]);
      TimesAdds(k, Times(a[0], b[0]), Dot(a[1..], b[1..]));
      assert Scale(k, b)[1..] == Scale(k, b[1..]);
    }
  }

  lemma {:induction false} DotCommutes(a: Vector, b: Vector)
    requires |a| == |b|
    ensures Dot(a, b) == Dot(b, a)
  {
    hide Times;
    if a != [] {
      TimesCommutes(a[0], b[0]);
      DotCommutes(a[1..], b[1..]);
    }
  }

  /** The norm of a scaled vector. */
  lemma RootOfScaled(root: Root, k: real, x: real)
    requires IsRoot(root) && k > 0.0 && x >= 0.0
    ensures root(Times(k, Times(k, x))) == Times(k, root(x))
  {
    hide Times, IsRoot;
    var r, kkx := root(x), Times(k, Times(k, x));
    RootSquares(root, x);
    TimesAssociates(k, k, x);
    TimesZero(0.0, k);
    TimesOrder(0.0, x, k);
    TimesOrder(0.0, Times(x, k), k);
    TimesOrder(0.0, r, k);
    TimesCommutes(x, k);
    TimesCommutes(Times(k, x), k);
    TimesCommutes(r, k);
    RootSquares(root, kkx);
    ProductOfSquares(k, r);
    SquaresOrder(root(kkx), Times(k, r));
    SquaresOrder(Times(k, r), root(kkx));
  }

  lemma CancelFactor(k: real, d: real, n: real)
    requires k > 0.0 && n != 0.0
    ensures Times(k, n) != 0.0 && Quotient(Times(k, d), Times(k, n)) == Quotient(d, n)
  {
    hide Times, Quotient;
    TimesZero(k, n);
    var q := Quotient(d, n);
    QuotientTimes(d, n);
    TimesAssociates(q, k, n);
    TimesCommutes(q, k);
    TimesAssociates(k, q, n);
    QuotientIsUnique(q, Times(k, d), Times(k, n));
  }

  /** A positive factor on one vector changes nothing. */
  lemma SimilarityIgnoresScale(root: Root, k: real, a: Vector, b: Vector)
    requires IsRoot(root) && k > 0.0 && |a| == |b|
    ensures Similarity(root, a, Scale(k, b)) == Similarity(root, a, b)
  {
    hide Dot, Times, Quotient, IsRoot, Scale;
    DotOfScaled(k, a, b);
    DotOfScaled(k, Scale(k, b), b);
    DotCommutes(Scale(k, b), b);
    DotOfScaled(k, b, b);
    SquareIsNonNegative(b);
    RootOfScaled(root, k, Dot(b, b));
    var na, nb := root(Dot(a, a)), root(Dot(b, b));
    TimesZero(k, nb);
    if na != 0.0 && nb != 0.0 {
      TimesZero(na, nb);
      TimesAssociates(na, k, nb);
      TimesCommutes(na, k);
      TimesAssociates(k, na, nb);
      CancelFactor(k, Dot(a, b), Times(na, nb));
    }
  }

  // ---------------------------------------------------------------- what the product is

  /** 1 at position `i`, 0 everywhere else. */
  function Unit(n: nat, i: nat): (u: Vector)
    requires i < n
    ensures |u| == n
  {
    seq(n, j requires 0 <= j < n => if j == i then 1.0 else 0.0)
  }

  lemma {:induction false} DotWithZeros(a: Vector, z: Vector)
    requires |a| == |z| && forall j :: 0 <= j < |z| ==> z[j] == 0.0
    ensures Dot(a, z) == 0.0
  {
    hide Times;
    if a != [] {
      TimesZero(a[0], z[0]);
      DotWithZeros(a[1..], z[1..]);
    }
  }

  /** The product takes in every component, each with the factor one. */
  lemma {:induction false} DotWithUnit(a: Vector, i: nat)
    requires i < |a|
    ensures Dot(a, Unit(|a|, i)) == a[i]
  {
    hide Times;
    var u := Unit(|a|, i);
    if i == 0 {
      TimesOne(a[0]);
      DotWithZeros(a[1..], u[1..]);
    } else {
      TimesZero(a[0], u[0]);
      assert u[1..] == Unit(|a| - 1, i - 1);
      DotWithUnit(a[1..], i - 1);
    }
  }

  /** And it is linear in each vector, so it is the sum of the products of the components. */
  lemma {:induction false} DotAdds(a: Vector, b: Vector, c: Vector)
    requires |a| == |b| == |c|
    ensures Dot(a, Plus(b, c)) == Dot(a, b) + Dot(a, c)
  {
    hide Times;
    if a != [] {
      assert Plus(b, c)[1..] == Plus(b[1..], c[1..]);
      TimesAdds(a[0], b[0], c[0]);
      DotAdds(a[1..], b[1..], c[1..]);
    }
  }

  // ---------------------------------------------------------------- when the bounds are met

  predicate NonZero(a: Vector) {
    exists i :: 0 <= i < |a| && a[i] != 0.0
  }

  lemma {:induction false} SquareIsZeroIff(a: Vector)
    ensures Dot(a, a) != 0.0 <==> NonZero(a)
  {
    hide Times;
    if a != [] {
      SquareIsPositive(a[0]);
      SquareIsNonNegative(a[1..]);
      TimesZero(a[0], a[0]);
      SquareIsZeroIff(a[1..]);
      if NonZero(a[1..]) {
        var i :| 0 <= i < |a[1..]| && a[1..][i] != 0.0;
        assert a[i + 1] != 0.0;
      }
    }
  }

  lemma {:induction false} NoDifference(a: Vector, t: real, b: Vector)
    requires |a| == |b| && !NonZero(Minus(a, t, b))
    ensures a == Scale(t, b)
  {
    hide Times;
    var m := Minus(a, t, b);
    if a != [] {
      assert m[0] == 0.0;
      assert !NonZero(m[1..]) by {
        assert forall i :: 0 <= i < |m[1..]| ==> m[1..][i] == m[i + 1];
      }
      NoDifference(a[1..], t, b[1..]);
      assert a == [a[0]] + a[1..];
    }
  }

  /** At the minimum `t = d / y` of the square nothing is left, if `d * d = x * y`. */
  lemma NothingLeft(x: real, t: real, d: real, y: real)
    requires y > 0.0 && Times(t, y) == d && Times(d, d) == Times(x, y)
    ensures x - 2.0 * Times(t, d) + Times(Times(t, t), y) == 0.0
  {
    hide Times;
    TimesAssociates(t, t, y);
    TimesAssociates(t, d, y);
    TimesCommutes(d, y);
    TimesAssociates(t, y, d);
    SameFactor(Times(t, d), x, y);
  }

  lemma SameFactor(u: real, v: real, y: real)
    requires y != 0.0 && Times(u, y) == Times(v, y)
    ensures u == v
  {
    hide Times, Quotient;
    QuotientIsUnique(u, Times(v, y), y);
    QuotientIsUnique(v, Times(v, y), y);
  }

  /** Equality in Cauchy-Schwarz: the vectors are parallel. */
  lemma EqualityIsParallel(a: Vector, b: Vector) returns (t: real)
    requires |a| == |b| && Dot(b, b) != 0.0
    requires Times(Dot(a, b), Dot(a, b)) == Times(Dot(a, a), Dot(b, b))
    ensures a == Scale(t, b) && Times(t, Dot(b, b)) == Dot(a, b)
  {
    hide Dot, Times, Quotient;
    SquareIsNonNegative(b);
    t := Quotient(Dot(a, b), Dot(b, b));
    QuotientTimes(Dot(a, b), Dot(b, b));
    ExpandSquare(a, t, b);
    NothingLeft(Dot(a, a), t, Dot(a, b), Dot(b, b));
    SquareIsZeroIff(Minus(a, t, b));
    NoDifference(a, t, b);
  }

  function Sign(k: real): real {
    if k > 0.0 then 1.0 else if k < 0.0 then -1.0 else 0.0
  }

  /** A multiple of a nonzero vector has the sign of the factor as its similarity to it. */
  lemma ParallelSimilarity(root: Root, k: real, b: Vector)
    requires IsRoot(root) && NonZero(b)
    ensures Similarity(root, Scale(k, b), b) == Sign(k)
  {
    hide Dot, Times, Quotient, IsRoot, Scale, NonZero;
    SquareIsZeroIff(b);
    SquareIsNonNegative(b);
    var y := Dot(b, b);
    DotCommutes(Scale(k, b), b);
    DotOfScaled(k, b, b);
    DotOfScaled(k, Scale(k, b), b);
    var m := if k < 0.0 then -k else k;
    TimesZero(k, y);
    TimesZero(k, 0.0);
    RootSquares(root, y);
    RootSquares(root, 0.0);
    TimesZero(root(y), root(y));
    TimesZero(root(0.0), root(0.0));
    if k != 0.0 {
      NegatedTwice(k, y);
      RootOfScaled(root, m, y);
      TimesAssociates(m, root(y), root(y));
      TimesZero(m, root(y));
      TimesZero(m, y);
      NegatedTimes(k, y);
      QuotientIsUnique(Sign(k), Times(k, y), Times(m, y));
    }
  }

  lemma NegatedTwice(k: real, y: real)
    ensures Times(-k, Times(-k, y)) == Times(k, Times(k, y))
  {
    assert (-k) * ((-k) * y) == k * (k * y);
  }

  lemma NegatedTimes(k: real, y: real)
    ensures Times(-k, y) == -Times(k, y) == Times(-1.0, Times(k, y)) == Times(k, -y)
    ensures Times(1.0, Times(k, y)) == Times(k, y)
    ensures Times(-1.0, Times(-k, y)) == Times(k, y)
  {
  }

  /** A positive multiple of a vector that is not zero, and a negative one. */
  ghost predicate Aligned(a: Vector, b: Vector)
    requires |a| == |b|
  {
    NonZero(b) && exists k :: k > 0.0 && a == Scale(k, b)
  }

  ghost predicate Opposite(a: Vector, b: Vector)
    requires |a| == |b|
  {
    NonZero(b) && exists k :: k < 0.0 && a == Scale(k, b)
  }

  /** The similarity is 1 exactly if the vectors are not zero and one is a positive multiple
      of the other, and -1 exactly for a negative one. */
  lemma BoundsAreMetIff(root: Root, a: Vector, b: Vector)
    requires IsRoot(root) && |a| == |b|
    ensures Similarity(root, a, b) == 1.0 <==> Aligned(a, b)
    ensures Similarity(root, a, b) == -1.0 <==> Opposite(a, b)
  {
    hide Dot, Times, Quotient, IsRoot, Scale, NonZero;
    SquareIsZeroIff(b);
    if NonZero(b) {
      forall k | a == Scale(k, b) ensures Similarity(root, a, b) == Sign(k) {
        ParallelSimilarity(root, k, b);
      }
    }
    if Similarity(root, a, b) == 1.0 || Similarity(root, a, b) == -1.0 {
      var t := ExtremeIsParallel(root, a, b);
      ParallelSimilarity(root, t, b);
    }
  }

  lemma ExtremeIsParallel(root: Root, a: Vector, b: Vector) returns (t: real)
    requires IsRoot(root) && |a| == |b|
    requires Similarity(root, a, b) == 1.0 || Similarity(root, a, b) == -1.0
    ensures NonZero(b) && a == Scale(t, b)
  {
    hide Dot, Times, Quotient, IsRoot, Scale, NonZero;
    SquareIsZeroIff(b);
    SquareIsNonNegative(a);
    SquareIsNonNegative(b);
    var x, y := Dot(a, a), Dot(b, b);
    RootSquares(root, x);
    RootSquares(root, y);
    var na, nb := root(x), root(y);
    TimesZero(na, nb);
    TimesZero(nb, nb);
    QuotientTimes(Dot(a, b), Times(na, nb));
    ProductOfSquares(na, nb);
    NegatedSquare(Times(na, nb));
    NegatedTimes(na, nb);
    t := EqualityIsParallel(a, b);
  }

  /** The law of cosines: with the product of the two norms, the similarity tells the
      distance of the vectors. That of a zero vector to any other is 0. */
  lemma LawOfCosines(root: Root, a: Vector, b: Vector)
    requires IsRoot(root) && |a| == |b|
    ensures var na, nb := root(Dot(a, a)), root(Dot(b, b));
            Dot(Minus(a, 1.0, b), Minus(a, 1.0, b)) ==
            Dot(a, a) + Dot(b, b) - 2.0 * (Similarity(root, a, b) * (na * nb))
    ensures !NonZero(a) || !NonZero(b) ==> Similarity(root, a, b) == 0.0
  {
    hide Dot, Times, Quotient, IsRoot, Minus, NonZero;
    var na, nb := root(Dot(a, a)), root(Dot(b, b));
    SquareIsNonNegative(a);
    SquareIsNonNegative(b);
    SquareIsZeroIff(a);
    SquareIsZeroIff(b);
    RootSquares(root, Dot(a, a));
    RootSquares(root, Dot(b, b));
    TimesZero(na, na);
    TimesZero(nb, nb);
    TimesZero(na, nb);
    ExpandSquare(a, 1.0, b);
    TimesOne(1.0);
    OneTimes(Dot(a, b));
    OneTimes(Dot(b, b));
    ZeroProduct(a, b);
    if na != 0.0 && nb != 0.0 {
      QuotientTimes(Dot(a, b), Times(na, nb));
      IsProduct(na, nb);
      IsProduct(Similarity(root, a, b), Times(na, nb));
    }
  }

  lemma OneTimes(x: real)
    ensures Times(1.0, x) == x
  {
  }

  lemma IsProduct(x: real, y: real)
    ensures Times(x, y) == x * y
  {
  }

  lemma ZeroProduct(a: Vector, b: Vector)
    requires |a| == |b|
    ensures Dot(a, a) == 0.0 || Dot(b, b) == 0.0 ==> Dot(a, b) == 0.0
  {
    if Dot(a, a) == 0.0 {
      ZeroVector(b, a);
      DotCommutes(a, b);
    } else if Dot(b, b) == 0.0 {
      ZeroVector(a, b);
    }
  }
}
