/** The ridge matrices of services/rl-engine/src/linucb.py in any dimension: they stay symmetric and
    positive definite, so the inverse the bandit takes always exists, and what it calls uncertainty is
    never negative and never grows. Arithmetic is exact. */
module LinUCB {
  import opened LinearAlgebra

  // ---------- ridge matrices ----------

  ghost predicate Shaped(d: nat, xs: seq<Vec>) {
    forall i :: 0 <= i < |xs| ==> |xs[i]| == d
  }

  /** `lam * I` plus the sum of `x x^T` over the observed contexts. */
  function Ridge(d: nat, lam: real, xs: seq<Vec>): (a: Mat)
    requires forall i :: 0 <= i < |xs| ==> |xs[i]| == d
    ensures Square(a, d)
  {
    if xs == [] then ScaledIdentity(d, lam)
    else AddOuter(Ridge(d, lam, xs[..|xs| - 1]), xs[|xs| - 1])
  }

  lemma {:induction false} RidgeSymmetric(d: nat, lam: real, xs: seq<Vec>, u: Vec, v: Vec)
    requires Shaped(d, xs) && |u| == |v| == d
    ensures Dot(u, MatVec(Ridge(d, lam, xs), v)) == Dot(v, MatVec(Ridge(d, lam, xs), u))
  {
    hide Dot, MatVec, Mul, Scale, AddOuter, ScaledIdentity, Square;
    if xs == [] {
      IdentityVec(d, lam, u);
      IdentityVec(d, lam, v);
      DotScale(u, lam, v);
      DotScale(v, lam, u);
      DotComm(u, v);
    } else {
      var before, x := xs[..|xs| - 1], xs[|xs| - 1];
      RidgeSymmetric(d, lam, before, u, v);
      OuterForm(Ridge(d, lam, before), x, u, v);
      OuterForm(Ridge(d, lam, before), x, v, u);
      MulComm(Dot(x, u), Dot(x, v));
    }
  }

  /** Positive definite: the quadratic form is at least `lam` times the squared length. */
  lemma {:induction false} RidgeForm(d: nat, lam: real, xs: seq<Vec>, v: Vec)
    requires Shaped(d, xs) && |v| == d
    ensures Dot(v, MatVec(Ridge(d, lam, xs), v)) >= Mul(lam, Dot(v, v))
  {
    hide Dot, MatVec, Mul, Scale, AddOuter, ScaledIdentity, Square;
    if xs == [] {
      IdentityVec(d, lam, v);
      DotScale(v, lam, v);
    } else {
      var before, x := xs[..|xs| - 1], xs[|xs| - 1];
      RidgeForm(d, lam, before, v);
      OuterForm(Ridge(d, lam, before), x, v, v);
      MulSquare(Dot(x, v));
    }
  }

  // ---------- the inverse ----------

  /** Applies the inverse of a ridge matrix, updating it context by context. */
  ghost function Solve(d: nat, lam: real, xs: seq<Vec>, v: Vec): (u: Vec)
    requires Shaped(d, xs) && |v| == d && lam > 0.0
    ensures |u| == d
    decreases |xs|
  {
    if xs == [] then Scale(1.0 / lam, v)
    else
      var before, z := xs[..|xs| - 1], xs[|xs| - 1];
      RankOne(z, Solve(d, lam, before, v), Solve(d, lam, before, z))
  }

  /** `y - (z . y / (1 + z . w)) w`. */
  ghost function RankOne(z: Vec, y: Vec, w: Vec): (u: Vec)
    requires |z| == |y| == |w|
    ensures |u| == |z|
  {
    if 1.0 + Dot(z, w) == 0.0 then y else Add(y, Scale(-(Dot(z, y) / (1.0 + Dot(z, w))), w))
  }

  /** `z^T A^-1 z` is not negative. */
  lemma SolveForm(d: nat, lam: real, xs: seq<Vec>, z: Vec)
    requires Shaped(d, xs) && |z| == d && lam > 0.0
    requires MatVec(Ridge(d, lam, xs), Solve(d, lam, xs, z)) == z
    ensures Dot(z, Solve(d, lam, xs, z)) >= 0.0
  {
    hide Dot, MatVec, Mul, Ridge, Solve;
    var w := Solve(d, lam, xs, z);
    RidgeForm(d, lam, xs, w);
    DotSelf(w);
    DotComm(w, z);
    MulPositive(lam, Dot(w, w));
  }

  /** The coefficient `c` of the update satisfies `z . (y - c w) = c`. */
  lemma Coefficient(z: Vec, y: Vec, w: Vec)
    requires |z| == |y| == |w| && 1.0 + Dot(z, w) != 0.0
    ensures var c := Dot(z, y) / (1.0 + Dot(z, w)); Dot(z, Add(y, Scale(-c, w))) == c
  {
    hide Dot, Scale, Add, Mul;
    var q := 1.0 + Dot(z, w);
    var c := Dot(z, y) / q;
    MulDivide(Dot(z, y), q);
    MulAdd(c, 1.0, Dot(z, w));
    MulConst(c);
    DotCombination(z, y, -c, w);
    MulNeg(c, Dot(z, w));
  }

  /** What a correction by a multiple of `w` solves, when the multiple is chosen right. */
  lemma CorrectedSolves(a: Mat, z: Vec, v: Vec, y: Vec, w: Vec, c: real, r: Vec)
    requires Square(a, |z|) && |v| == |y| == |w| == |z|
    requires MatVec(a, y) == v && MatVec(a, w) == z
    requires r == Add(y, Scale(-c, w)) && Dot(z, r) == c
    ensures MatVec(AddOuter(a, z), r) == v
  {
    hide Dot, Scale, Add, Mul, MatVec, AddOuter, Square;
    OuterVec(a, z, r);
    MatVecCombination(a, y, -c, w);
    CancelScaled(v, c, z);
  }

  /** The rank-one update keeps solving: `(A + z z^T)(y - c w) = v` when `A y = v` and `A w = z`. */
  lemma UpdateSolves(a: Mat, z: Vec, v: Vec, y: Vec, w: Vec)
    requires Square(a, |z|) && |v| == |y| == |w| == |z|
    requires MatVec(a, y) == v && MatVec(a, w) == z && 1.0 + Dot(z, w) != 0.0
    ensures MatVec(AddOuter(a, z), RankOne(z, y, w)) == v
  {
    hide Dot, Scale, Add, Mul, MatVec, AddOuter, Square;
    Coefficient(z, y, w);
    CorrectedSolves(a, z, v, y, w, Dot(z, y) / (1.0 + Dot(z, w)), RankOne(z, y, w));
  }

  lemma {:induction false} SolveSolves(d: nat, lam: real, xs: seq<Vec>, v: Vec)
    requires Shaped(d, xs) && |v| == d && lam > 0.0
    ensures MatVec(Ridge(d, lam, xs), Solve(d, lam, xs, v)) == v
    decreases |xs|
  {
    hide Dot, Scale, Mul, MatVec, AddOuter, Square, RankOne, ScaledIdentity;
    if xs == [] {
      IdentityVec(d, lam, Scale(1.0 / lam, v));
      ScaleBack(lam, v);
    } else {
      var before, z := xs[..|xs| - 1], xs[|xs| - 1];
      SolveSolves(d, lam, before, v);
      SolveSolves(d, lam, before, z);
      SolveForm(d, lam, before, z);
      UpdateSolves(Ridge(d, lam, before), z, v, Solve(d, lam, before, v), Solve(d, lam, before, z));
    }
  }

  lemma SolutionUnique(d: nat, lam: real, xs: seq<Vec>, u: Vec, v: Vec)
    requires Shaped(d, xs) && |u| == |v| == d && lam > 0.0
    requires MatVec(Ridge(d, lam, xs), u) == MatVec(Ridge(d, lam, xs), v)
    ensures u == v
  {
    hide Dot, Scale, Add, Mul, MatVec, Ridge;
    var a, t := Ridge(d, lam, xs), Add(u, Scale(-1.0, v));
    MatVecCombination(a, u, -1.0, v);
    DifferenceZero(MatVec(a, u), MatVec(a, v));
    DotZero(t);
    RidgeForm(d, lam, xs, t);
    DotSelf(t);
    MulPositive(lam, Dot(t, t));
    DifferenceZero(u, v);
  }

  /** Every right-hand side has exactly one solution. */
  ghost predicate Nonsingular(a: Mat, d: nat)
    requires Square(a, d)
  {
    forall v: Vec :: |v| == d ==> Solvable(a, v) && SolvedOnce(a, v)
  }

  ghost predicate Solvable(a: Mat, v: Vec)
    requires Square(a, |v|)
  {
    exists u: Vec :: |u| == |v| && MatVec(a, u) == v
  }

  ghost predicate SolvedOnce(a: Mat, v: Vec)
    requires Square(a, |v|)
  {
    forall u: Vec, w: Vec :: |u| == |v| == |w| && MatVec(a, u) == v && MatVec(a, w) == v ==> u == w
  }

  /** Whatever contexts were observed, the matrix to invert is nonsingular. */
  lemma RidgeNonsingular(d: nat, lam: real, xs: seq<Vec>)
    requires Shaped(d, xs) && lam > 0.0
    ensures Nonsingular(Ridge(d, lam, xs), d)
  {
    hide Ridge, MatVec, Square;
    var a := Ridge(d, lam, xs);
    forall v: Vec | |v| == d ensures Solvable(a, v) && SolvedOnce(a, v) {
      SolveSolves(d, lam, xs, v);
      forall u: Vec, w: Vec | |u| == d && |w| == d && MatVec(a, u) == v && MatVec(a, w) == v ensures u == w {
        SolutionUnique(d, lam, xs, u, w);
      }
    }
  }

  /** Whatever was observed, every arm can be scored: the matrix is invertible and no context `x = A u`
      has a negative `x^T A^-1 x` under the square root. */
  ghost predicate AlwaysScorable(d: nat, lam: real) {
    forall xs: seq<Vec> :: Shaped(d, xs) ==>
      Nonsingular(Ridge(d, lam, xs), d) && forall u: Vec :: |u| == d ==> Dot(u, MatVec(Ridge(d, lam, xs), u)) >= 0.0
  }

  /** Scoring works for every history exactly when lambda is positive, which nothing in the class checks. */
  lemma ScorableExactly(d: nat, lam: real)
    requires d > 0
    ensures AlwaysScorable(d, lam) <==> lam > 0.0
  {
    hide Dot, MatVec, Mul, Ridge, Nonsingular, ScaledIdentity, Scale;
    if lam > 0.0 {
      forall xs: seq<Vec> | Shaped(d, xs)
        ensures Nonsingular(Ridge(d, lam, xs), d)
        ensures forall u: Vec :: |u| == d ==> Dot(u, MatVec(Ridge(d, lam, xs), u)) >= 0.0
      {
        RidgeNonsingular(d, lam, xs);
        forall u: Vec | |u| == d ensures Dot(u, MatVec(Ridge(d, lam, xs), u)) >= 0.0 {
          RidgeForm(d, lam, xs, u);
          DotSelf(u);
          MulPositive(lam, Dot(u, u));
        }
      }
    } else {
      UnscorableAtFirst(d, lam);
      assert Shaped(d, []);
    }
  }

  /** A fresh arm already fails: its matrix is zero, or its form is negative on the all-ones vector. */
  lemma UnscorableAtFirst(d: nat, lam: real)
    requires d > 0 && lam <= 0.0
    ensures Shaped(d, [])
    ensures !Nonsingular(Ridge(d, lam, []), d) ||
            exists u: Vec :: |u| == d && Dot(u, MatVec(Ridge(d, lam, []), u)) < 0.0
  {
    hide Dot, MatVec, Mul, ScaledIdentity, Scale;
    var u: Vec := seq(d, _ => 1.0);
    assert u[0] == 1.0 && u != Zero(d);
    DotSelf(u);
    IdentityVec(d, lam, u);
    IdentityVec(d, lam, Zero(d));
    DotScale(u, lam, u);
    if lam == 0.0 {
      ZeroScale(u);
      ZeroScale(Zero(d));
      assert !SolvedOnce(Ridge(d, lam, []), Zero(d));
      assert |Zero(d)| == d;
    } else {
      NegativeProduct(lam, Dot(u, u));
    }
  }

  lemma ZeroScale(v: Vec)
    ensures Scale(0.0, v) == Zero(|v|)
  {
    forall i | 0 <= i < |v| ensures Scale(0.0, v)[i] == 0.0 { MulConst(v[i]); }
  }

  lemma NegativeProduct(a: real, b: real)
    requires a < 0.0 && b > 0.0
    ensures Mul(a, b) < 0.0
  {
  }

  /** `x^T A^-1 x`, the argument of the square root. */
  ghost function Spread(d: nat, lam: real, xs: seq<Vec>, x: Vec): real
    requires Shaped(d, xs) && |x| == d && lam > 0.0
  {
    Dot(x, Solve(d, lam, xs, x))
  }

  lemma SpreadNonNegative(d: nat, lam: real, xs: seq<Vec>, x: Vec)
    requires Shaped(d, xs) && |x| == d && lam > 0.0
    ensures Spread(d, lam, xs, x) >= 0.0
  {
    SolveSolves(d, lam, xs, x);
    SolveForm(d, lam, xs, x);
  }

  /** One more observation never makes any context more uncertain. */
  lemma SpreadShrinks(d: nat, lam: real, xs: seq<Vec>, z: Vec, x: Vec)
    requires Shaped(d, xs) && |x| == |z| == d && lam > 0.0
    ensures Shaped(d, xs + [z]) && Spread(d, lam, xs + [z], x) <= Spread(d, lam, xs, x)
  {
    hide Dot, Scale, Add, Mul, MatVec, Ridge;
    assert (xs + [z])[..|xs|] == xs;
    var y, w := Solve(d, lam, xs, x), Solve(d, lam, xs, z);
    CrossTerms(d, lam, xs, z, x);
    SpreadNonNegative(d, lam, xs, z);
    var p, q := Dot(z, y), 1.0 + Dot(z, w);
    DotCombination(x, y, -(p / q), w);
    Ratio(p, q);
  }

  /** By symmetry `x . A^-1 z = z . A^-1 x`. */
  lemma CrossTerms(d: nat, lam: real, xs: seq<Vec>, z: Vec, x: Vec)
    requires Shaped(d, xs) && |x| == |z| == d && lam > 0.0
    ensures Dot(x, Solve(d, lam, xs, z)) == Dot(z, Solve(d, lam, xs, x))
  {
    hide Dot, MatVec, Ridge, Solve;
    var y, w := Solve(d, lam, xs, x), Solve(d, lam, xs, z);
    SolveSolves(d, lam, xs, x);
    SolveSolves(d, lam, xs, z);
    RidgeSymmetric(d, lam, xs, y, w);
    DotComm(w, x);
    DotComm(y, z);
  }

  lemma Ratio(p: real, q: real)
    requires q >= 1.0
    ensures Mul(-(p / q), p) <= 0.0
  {
    hide Mul;
    var c := p / q;
    MulDivide(p, q);
    MulNeg(c, p);
    MulComm(c, q);
    MulAssoc(c, c, q);
    MulComm(Mul(c, c), q);
    MulSquare(c);
    MulPositive(q, Mul(c, c));
  }

  // ---------- determinants in two dimensions ----------

  function Det(a: Mat): real
    requires Square(a, 2)
  {
    Mul(a[0][0], a[1][1]) - Mul(a[0][1], a[1][0])
  }

  /** In two dimensions the determinant is at least `lam^2` and never decreases. */
  lemma {:induction false} RidgeDet(lam: real, xs: seq<Vec>)
    requires Shaped(2, xs) && lam > 0.0
    ensures Det(Ridge(2, lam, xs)) >= Mul(lam, lam)
    ensures xs != [] ==> Det(Ridge(2, lam, xs)) >= Det(Ridge(2, lam, xs[..|xs| - 1]))
  {
    hide Mul, Det, AddOuter;
    if xs == [] {
      DetIdentity(lam);
    } else {
      var before, x := xs[..|xs| - 1], xs[|xs| - 1];
      RidgeDet(lam, before);
      DetGrows(lam, before, x);
    }
  }

  lemma DetIdentity(lam: real)
    ensures Det(ScaledIdentity(2, lam)) == Mul(lam, lam)
  {
    hide Mul;
    MulConst(0.0);
  }

  lemma Dot2(u: Vec, v: Vec)
    requires |u| == |v| == 2
    ensures Dot(u, v) == Mul(u[0], v[0]) + Mul(u[1], v[1])
  {
    hide Mul;
    assert u[1..] == [u[1]] && v[1..] == [v[1]];
    assert Dot([u[1]], [v[1]]) == Mul(u[1], v[1]) + Dot([u[1]][1..], [v[1]][1..]);
  }

  /** The quadratic form of a 2x2 matrix, written out. */
  lemma Form2(a: Mat, p: real, q: real)
    requires Square(a, 2)
    ensures Dot([p, q], MatVec(a, [p, q])) ==
            Mul(p, Mul(a[0][0], p) + Mul(a[0][1], q)) + Mul(q, Mul(a[1][0], p) + Mul(a[1][1], q))
  {
    hide Mul, Dot;
    var v := [p, q];
    Dot2(a[0], v);
    Dot2(a[1], v);
    Dot2(v, MatVec(a, v));
  }

  lemma OuterEntries(a: Mat, x: Vec)
    requires Square(a, 2) && |x| == 2
    ensures Det(AddOuter(a, x)) ==
            Mul(a[0][0] + Mul(x[0], x[0]), a[1][1] + Mul(x[1], x[1]))
            - Mul(a[0][1] + Mul(x[0], x[1]), a[1][0] + Mul(x[1], x[0]))
  {
    hide Mul;
  }

  /** What an observation adds to the determinant is the old form on the vector orthogonal to it. */
  lemma DetGap(a: Mat, x: Vec)
    requires Square(a, 2) && |x| == 2
    ensures Det(AddOuter(a, x)) - Det(a) == Dot([x[1], -x[0]], MatVec(a, [x[1], -x[0]]))
  {
    OuterEntries(a, x);
    hide Mul, Dot, MatVec, AddOuter;
    Form2(a, x[1], -x[0]);
    DetExpansion(a[0][0], a[0][1], a[1][0], a[1][1], x[0], x[1]);
  }

  lemma DetGrows(lam: real, xs: seq<Vec>, x: Vec)
    requires Shaped(2, xs) && |x| == 2 && lam > 0.0
    ensures Det(AddOuter(Ridge(2, lam, xs), x)) >= Det(Ridge(2, lam, xs))
  {
    hide Mul, Dot, MatVec, AddOuter, Ridge, Det;
    var v := [x[1], -x[0]];
    RidgeForm(2, lam, xs, v);
    DotSelf(v);
    MulPositive(lam, Dot(v, v));
    DetGap(Ridge(2, lam, xs), x);
  }

  lemma DetExpansion(a: real, b: real, c: real, e: real, p: real, q: real)
    ensures Mul(a + Mul(p, p), e + Mul(q, q)) - Mul(b + Mul(p, q), c + Mul(q, p)) - (Mul(a, e) - Mul(b, c))
            == Mul(q, Mul(a, q) + Mul(b, -p)) + Mul(-p, Mul(c, q) + Mul(e, -p))
  {
    assert (a + p * p) * (e + q * q) == a * e + a * (q * q) + (p * p) * e + (p * p) * (q * q);
    assert (b + p * q) * (c + q * p) == b * c + b * (q * p) + (p * q) * c + (p * q) * (q * p);
    assert (p * p) * (q * q) == (p * q) * (q * p);
    assert q * (a * q + b * (-p)) == a * (q * q) - b * (q * p);
    assert (-p) * (c * q + e * (-p)) == (p * p) * e - (p * q) * c;
  }
}
