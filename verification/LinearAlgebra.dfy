/** Real vectors and matrices of any dimension, as far as ridge matrices need them. */
module LinearAlgebra {

  type Vec = seq<real>

  type Mat = seq<seq<real>>

  /** The product of two reals, named so that proofs about vectors can leave it closed. */
  function Mul(a: real, b: real): real { a * b }

  function Dot(u: Vec, v: Vec): real
    requires |u| == |v|
  {
    if u == [] then 0.0 else Mul(u[0], v[0]) + Dot(u[1..], v[1..])
  }

  function Scale(c: real, v: Vec): (r: Vec)
    ensures |r| == |v|
  {
    seq(|v|, i requires 0 <= i < |v| => Mul(c, v[i]))
  }

  function Add(u: Vec, v: Vec): (r: Vec)
    requires |u| == |v|
    ensures |r| == |v|
  {
    seq(|v|, i requires 0 <= i < |v| => u[i] + v[i])
  }

  function Zero(d: nat): (r: Vec)
    ensures |r| == d && forall i :: 0 <= i < d ==> r[i] == 0.0
  {
    seq(d, i requires 0 <= i < d => 0.0)
  }

  predicate Square(a: Mat, d: nat) {
    |a| == d && forall i :: 0 <= i < d ==> |a[i]| == d
  }

  function MatVec(a: Mat, v: Vec): (r: Vec)
    requires Square(a, |v|)
    ensures |r| == |v|
  {
    seq(|v|, i requires 0 <= i < |v| => Dot(a[i], v))
  }

  /** `np.eye(d) * lam`. */
  function ScaledIdentity(d: nat, lam: real): (a: Mat)
    ensures Square(a, d)
  {
    seq(d, i requires 0 <= i < d => seq(d, j requires 0 <= j < d => if i == j then lam else 0.0))
  }

  /** `a + x @ x.T`. */
  function AddOuter(a: Mat, x: Vec): (r: Mat)
    requires Square(a, |x|)
    ensures Square(r, |x|)
  {
    seq(|x|, i requires 0 <= i < |x| => Add(a[i], Scale(x[i], x)))
  }

  // ---------- products of reals ----------

  lemma MulSquare(x: real)
    ensures Mul(x, x) >= 0.0 && (Mul(x, x) == 0.0 ==> x == 0.0)
  {
    if x > 0.0 {
      MulPositive(x, x);
    } else if x < 0.0 {
      hide Mul;
      var y := -x;
      assert x == -y;
      MulNeg(y, x);
      MulComm(y, x);
      MulNeg(y, y);
      MulPositive(y, y);
    } else {
      MulConst(0.0);
    }
  }

  lemma MulComm(a: real, b: real)
    ensures Mul(a, b) == Mul(b, a)
  {
  }

  lemma MulAssoc(a: real, b: real, c: real)
    ensures Mul(a, Mul(b, c)) == Mul(Mul(a, b), c)
  {
  }

  lemma MulAdd(c: real, p: real, q: real)
    ensures Mul(c, p + q) == Mul(c, p) + Mul(c, q)
  {
  }

  lemma MulConst(x: real)
    ensures Mul(1.0, x) == x == Mul(x, 1.0) && Mul(0.0, x) == 0.0 == Mul(x, 0.0) && Mul(-1.0, x) == -x
  {
  }

  lemma MulNeg(c: real, x: real)
    ensures Mul(-c, x) == -Mul(c, x)
  {
  }

  lemma MulPositive(a: real, b: real)
    requires a > 0.0
    ensures (Mul(a, b) >= 0.0 <==> b >= 0.0) && (Mul(a, b) <= 0.0 <==> b <= 0.0)
  {
    if b > 0.0 { assert a * b > 0.0; } else if b < 0.0 { assert a * (-b) > 0.0; assert a * b == -(a * (-b)); }
  }

  lemma MulDivide(p: real, q: real)
    requires q != 0.0
    ensures Mul(p / q, q) == p
  {
  }

  // ---------- inner products ----------

  lemma {:induction false} DotComm(u: Vec, v: Vec)
    requires |u| == |v|
    ensures Dot(u, v) == Dot(v, u)
  {
    if u != [] {
      MulComm(u[0], v[0]);
      DotComm(u[1..], v[1..]);
    }
  }

  lemma {:induction false} DotAdd(u: Vec, v: Vec, w: Vec)
    requires |u| == |v| == |w|
    ensures Dot(u, Add(v, w)) == Dot(u, v) + Dot(u, w)
  {
    hide Mul;
    if u != [] {
      DotAdd(u[1..], v[1..], w[1..]);
      assert Add(v, w)[1..] == Add(v[1..], w[1..]);
      MulAdd(u[0], v[0], w[0]);
    }
  }

  lemma {:induction false} DotScale(u: Vec, c: real, v: Vec)
    requires |u| == |v|
    ensures Dot(u, Scale(c, v)) == Mul(c, Dot(u, v))
  {
    hide Mul;
    if u == [] {
      MulConst(c);
    } else {
      assert Scale(c, v)[1..] == Scale(c, v[1..]);
      DotScale(u[1..], c, v[1..]);
      MulAssoc(u[0], c, v[0]);
      MulComm(u[0], c);
      MulAssoc(c, u[0], v[0]);
      MulAdd(c, Mul(u[0], v[0]), Dot(u[1..], v[1..]));
    }
  }

  lemma {:induction false} DotSelf(v: Vec)
    ensures Dot(v, v) >= 0.0
    ensures Dot(v, v) == 0.0 ==> v == Zero(|v|)
  {
    hide Mul;
    if v != [] {
      DotSelf(v[1..]);
      MulSquare(v[0]);
      if Dot(v, v) == 0.0 {
        forall i | 0 <= i < |v| ensures v[i] == 0.0 { if i > 0 { assert v[i] == v[1..][i - 1]; } }
      }
    }
  }

  lemma {:induction false} DotZero(u: Vec)
    ensures Dot(u, Zero(|u|)) == 0.0
  {
    hide Mul;
    if u != [] {
      MulConst(u[0]);
      assert Zero(|u|)[1..] == Zero(|u[1..]|);
      DotZero(u[1..]);
    }
  }

  /** `u . (v + c w)`. */
  lemma DotCombination(u: Vec, v: Vec, c: real, w: Vec)
    requires |u| == |v| == |w|
    ensures Dot(u, Add(v, Scale(c, w))) == Dot(u, v) + Mul(c, Dot(u, w))
  {
    hide Dot, Add, Scale, Mul;
    DotAdd(u, v, Scale(c, w));
    DotScale(u, c, w);
  }

  /** `(v - c z) + c z = v`. */
  lemma CancelScaled(v: Vec, c: real, z: Vec)
    requires |v| == |z|
    ensures Add(Add(v, Scale(-c, z)), Scale(c, z)) == v
  {
    hide Mul;
    var l := Add(Add(v, Scale(-c, z)), Scale(c, z));
    forall i | 0 <= i < |v| ensures l[i] == v[i] {
      MulNeg(c, z[i]);
    }
  }

  lemma ScaleBack(c: real, v: Vec)
    requires c != 0.0
    ensures Scale(c, Scale(1.0 / c, v)) == v
  {
    hide Mul;
    var k := 1.0 / c;
    MulDivide(1.0, c);
    MulComm(c, k);
    forall i | 0 <= i < |v| ensures Scale(c, Scale(k, v))[i] == v[i] {
      MulAssoc(c, k, v[i]);
      MulConst(v[i]);
    }
  }

  lemma DifferenceZero(u: Vec, v: Vec)
    requires |u| == |v|
    ensures Add(u, Scale(-1.0, v)) == Zero(|u|) <==> u == v
  {
    hide Mul;
    var t := Add(u, Scale(-1.0, v));
    forall i | 0 <= i < |u| ensures t[i] == u[i] - v[i] { MulConst(v[i]); }
    if t == Zero(|u|) {
      forall i | 0 <= i < |u| ensures u[i] == v[i] { assert t[i] == 0.0; }
    }
  }

  // ---------- matrices on vectors ----------

  lemma MatVecCombination(a: Mat, v: Vec, c: real, w: Vec)
    requires Square(a, |v|) && |v| == |w|
    ensures MatVec(a, Add(v, Scale(c, w))) == Add(MatVec(a, v), Scale(c, MatVec(a, w)))
  {
    hide Dot, Mul;
    var l, r := MatVec(a, Add(v, Scale(c, w))), Add(MatVec(a, v), Scale(c, MatVec(a, w)));
    forall i | 0 <= i < |a| ensures l[i] == r[i] {
      DotCombination(a[i], v, c, w);
    }
  }

  lemma {:induction false} UnitDot(d: nat, lam: real, row: Vec, v: Vec, i: int)
    requires |row| == |v| == d
    requires forall j :: 0 <= j < d ==> row[j] == if j == i then lam else 0.0
    ensures Dot(row, v) == if 0 <= i < d then Mul(lam, v[i]) else 0.0
  {
    hide Mul;
    if d > 0 {
      UnitDot(d - 1, lam, row[1..], v[1..], i - 1);
      MulConst(v[0]);
    }
  }

  lemma IdentityVec(d: nat, lam: real, v: Vec)
    requires |v| == d
    ensures MatVec(ScaledIdentity(d, lam), v) == Scale(lam, v)
  {
    hide Dot, Mul;
    var l, r := MatVec(ScaledIdentity(d, lam), v), Scale(lam, v);
    forall i | 0 <= i < d ensures l[i] == r[i] {
      UnitDot(d, lam, ScaledIdentity(d, lam)[i], v, i);
    }
  }

  lemma OuterRow(row: Vec, c: real, x: Vec, v: Vec)
    requires |row| == |x| == |v|
    ensures Dot(Add(row, Scale(c, x)), v) == Dot(row, v) + Mul(Dot(x, v), c)
  {
    hide Dot, Add, Scale, Mul;
    DotComm(Add(row, Scale(c, x)), v);
    DotCombination(v, row, c, x);
    DotComm(v, row);
    DotComm(v, x);
    MulComm(c, Dot(x, v));
  }

  /** `(a + x x^T) v = a v + (x . v) x`. */
  lemma OuterVec(a: Mat, x: Vec, v: Vec)
    requires Square(a, |x|) && |v| == |x|
    ensures MatVec(AddOuter(a, x), v) == Add(MatVec(a, v), Scale(Dot(x, v), x))
  {
    hide Dot, Mul;
    var l, r := MatVec(AddOuter(a, x), v), Add(MatVec(a, v), Scale(Dot(x, v), x));
    forall i | 0 <= i < |x| ensures l[i] == r[i] {
      OuterRow(a[i], x[i], x, v);
    }
  }

  /** `u . (a + x x^T) v = u . a v + (x . v)(x . u)`. */
  lemma OuterForm(a: Mat, x: Vec, u: Vec, v: Vec)
    requires Square(a, |x|) && |v| == |x| == |u|
    ensures Dot(u, MatVec(AddOuter(a, x), v)) == Dot(u, MatVec(a, v)) + Mul(Dot(x, v), Dot(x, u))
  {
    hide Dot, Add, Scale, MatVec, AddOuter, Square, Mul;
    OuterVec(a, x, v);
    DotCombination(u, MatVec(a, v), Dot(x, v), x);
    DotComm(u, x);
  }
}
