/** The bandit object of services/rl-engine/src/linucb.py: its matrices are updated in place and always
    equal the ridge matrices of what each arm has seen. */
module LinUCBBandit {
  import opened LinearAlgebra
  import opened LinUCB
  import opened Wrappers

  datatype Result<T> = Ok(value: T) | ValueError(message: string) | LinAlgError

  /** `list(dict.fromkeys(arms))`: first occurrences, in order. */
  function Dedupe(arms: seq<string>): (r: seq<string>)
    ensures forall arm :: arm in r <==> arm in arms
    ensures Distinct(r)
    ensures arms != [] ==> r != []
  {
    if arms == [] then []
    else
      var r, last := Dedupe(arms[..|arms| - 1]), arms[|arms| - 1];
      assert arms == arms[..|arms| - 1] + [last];
      if last in r then r else r + [last]
  }

  /** In the order of first occurrence: later names only come behind. */
  lemma {:induction false} DedupeKeepsOrder(arms: seq<string>, k: nat)
    requires k <= |arms|
    ensures Dedupe(arms[..k]) <= Dedupe(arms)
  {
    if k < |arms| {
      var n := |arms| - 1;
      assert arms[..n][..k] == arms[..k];
      DedupeKeepsOrder(arms[..n], k);
    } else {
      assert arms[..k] == arms;
    }
  }

  ghost predicate Distinct(arms: seq<string>) {
    forall i, j :: 0 <= i < j < |arms| ==> arms[i] != arms[j]
  }

  /** What an arm was shown: contexts and their rewards. */
  datatype Seen = Seen(contexts: seq<Vec>, rewards: seq<real>)

  ghost predicate SeenShape(d: nat, seen: Seen) {
    Shaped(d, seen.contexts) && |seen.rewards| == |seen.contexts|
  }

  /** The reward-weighted sum of the contexts. */
  ghost function Weighted(d: nat, seen: Seen): (v: Vec)
    requires SeenShape(d, seen)
    ensures |v| == d
    decreases |seen.contexts|
  {
    if seen.contexts == [] then Zero(d)
    else
      var n := |seen.contexts| - 1;
      Add(Weighted(d, Seen(seen.contexts[..n], seen.rewards[..n])), Scale(seen.rewards[n], seen.contexts[n]))
  }

  ghost function Observe(seen: Seen, x: Vec, reward: real): Seen {
    Seen(seen.contexts + [x], seen.rewards + [reward])
  }

  lemma ObserveAdds(d: nat, lam: real, seen: Seen, x: Vec, reward: real)
    requires SeenShape(d, seen) && |x| == d
    ensures SeenShape(d, Observe(seen, x, reward))
    ensures Ridge(d, lam, Observe(seen, x, reward).contexts) == AddOuter(Ridge(d, lam, seen.contexts), x)
    ensures Weighted(d, Observe(seen, x, reward)) == Add(Weighted(d, seen), Scale(reward, x))
  {
    var next := Observe(seen, x, reward);
    assert next.contexts[..|seen.contexts|] == seen.contexts && next.rewards[..|seen.contexts|] == seen.rewards;
  }

  /** The stored matrix and vector of an arm are those of what it has seen. */
  ghost predicate ArmOk(d: nat, lam: real, a: Mat, b: Vec, seen: Seen) {
    SeenShape(d, seen) && a == Ridge(d, lam, seen.contexts) && b == Weighted(d, seen)
  }

  lemma NewArmOk(d: nat, lam: real)
    ensures ArmOk(d, lam, ScaledIdentity(d, lam), Zero(d), Seen([], []))
  {
  }

  lemma ObservedOk(d: nat, lam: real, a: Mat, b: Vec, seen: Seen, x: Vec, reward: real)
    requires ArmOk(d, lam, a, b, seen) && |x| == d
    ensures Square(a, |x|) && |b| == |Scale(reward, x)|
    ensures ArmOk(d, lam, AddOuter(a, x), Add(b, Scale(reward, x)), Observe(seen, x, reward))
  {
    hide Ridge, Weighted, AddOuter, Add, Scale, Observe;
    ObserveAdds(d, lam, seen, x, reward);
  }

  /** What `np.linalg.inv` does with a matrix: None is the LinAlgError of a singular one. */
  ghost predicate InverseOk(inv: Mat -> Option<Mat>, a: Mat, d: nat) {
    Square(a, d) ==>
      && (inv(a).Some? <==> Nonsingular(a, d))
      && (inv(a).Some? ==>
            Square(inv(a).value, d) && forall v: Vec :: |v| == d ==> MatVec(a, MatVec(inv(a).value, v)) == v)
  }

  ghost predicate Inverts(inv: Mat -> Option<Mat>) {
    forall a: Mat, d: nat :: InverseOk(inv, a, d)
  }

  lemma InverseExists(inv: Mat -> Option<Mat>, a: Mat, d: nat)
    requires Inverts(inv) && Square(a, d)
    ensures inv(a).Some? <==> Nonsingular(a, d)
    ensures inv(a).Some? ==> Square(inv(a).value, d)
  {
    hide Nonsingular, Square, MatVec;
    assert InverseOk(inv, a, d);
  }

  lemma InverseApplies(inv: Mat -> Option<Mat>, a: Mat, d: nat, v: Vec)
    requires Inverts(inv) && Square(a, d) && Nonsingular(a, d) && |v| == d
    ensures inv(a).Some? && Square(inv(a).value, d) && MatVec(a, MatVec(inv(a).value, v)) == v
  {
    hide Nonsingular, Square, MatVec;
    assert InverseOk(inv, a, d);
  }

  /** The inverse computed numerically applies like the solution function. */
  lemma InverseSolves(d: nat, lam: real, xs: seq<Vec>, inv: Mat -> Option<Mat>, v: Vec)
    requires Shaped(d, xs) && |v| == d && lam > 0.0 && Inverts(inv)
    ensures inv(Ridge(d, lam, xs)).Some? && Square(inv(Ridge(d, lam, xs)).value, d)
    ensures MatVec(inv(Ridge(d, lam, xs)).value, v) == Solve(d, lam, xs, v)
  {
    hide Inverts, Ridge, MatVec, Solve, Nonsingular, Square;
    var a := Ridge(d, lam, xs);
    RidgeNonsingular(d, lam, xs);
    InverseApplies(inv, a, d, v);
    SolveSolves(d, lam, xs, v);
    SolutionUnique(d, lam, xs, MatVec(inv(a).value, v), Solve(d, lam, xs, v));
  }

  /** The score from an inverse; None is the NaN that the root of a negative number gives. */
  function Rate(inverse: Option<Mat>, b: Vec, x: Vec, alpha: real, sqrt: real -> real): Option<real> {
    if inverse.None? || !Square(inverse.value, |x|) || |b| != |x| then None
    else
      var spread := Dot(x, MatVec(inverse.value, x));
      if spread < 0.0 then None else Some(Dot(MatVec(inverse.value, b), x) + Mul(alpha, sqrt(spread)))
  }

  /** `best`, None for minus infinity, is the first greatest of the scores that are numbers, at index `k`;
      comparisons with a NaN are false, so those are passed over. */
  ghost predicate FirstBest(ratings: seq<Option<real>>, k: nat, best: Option<real>) {
    match best
    case None => k == 0 && forall j :: 0 <= j < |ratings| ==> ratings[j].None?
    case Some(top) =>
      && k < |ratings| && ratings[k] == best
      && (forall j :: 0 <= j < |ratings| && ratings[j].Some? ==> ratings[j].value <= top)
      && (forall j :: 0 <= j < k && ratings[j].Some? ==> ratings[j].value < top)
  }

  lemma FirstBestStep(ratings: seq<Option<real>>, k: nat, best: Option<real>, r: Option<real>)
    requires FirstBest(ratings, k, best)
    ensures if r.Some? && (best.None? || r.value > best.value) then FirstBest(ratings + [r], |ratings|, r)
            else FirstBest(ratings + [r], k, best)
  {
  }

  /** Expected reward plus exploration bonus. */
  ghost function Score(d: nat, lam: real, alpha: real, seen: Seen, x: Vec, sqrt: real -> real): real
    requires SeenShape(d, seen) && |x| == d && lam > 0.0
  {
    Dot(Solve(d, lam, seen.contexts, Weighted(d, seen)), x) + Mul(alpha, sqrt(Spread(d, lam, seen.contexts, x)))
  }

  // ---------- what the estimate is ----------

  /** What an arm's estimate stands for: the solution of its ridge system. */
  ghost function Theta(d: nat, lam: real, seen: Seen): (v: Vec)
    requires SeenShape(d, seen) && lam > 0.0
    ensures |v| == d
  {
    Solve(d, lam, seen.contexts, Weighted(d, seen))
  }

  /** The regularised squared error of `u` as a prediction of the rewards seen. */
  function Loss(d: nat, lam: real, seen: Seen, u: Vec): real
    requires |u| == d && |seen.rewards| == |seen.contexts|
    requires forall i :: 0 <= i < |seen.contexts| ==> |seen.contexts[i]| == d
    decreases |seen.contexts|
  {
    if seen.contexts == [] then Mul(lam, Dot(u, u))
    else
      var n := |seen.contexts| - 1;
      var error := seen.rewards[n] - Dot(seen.contexts[n], u);
      Loss(d, lam, Seen(seen.contexts[..n], seen.rewards[..n]), u) + Mul(error, error)
  }

  function Squares(rewards: seq<real>): real {
    if rewards == [] then 0.0
    else Squares(rewards[..|rewards| - 1]) + Mul(rewards[|rewards| - 1], rewards[|rewards| - 1])
  }

  lemma SquareOfDifference(r: real, p: real)
    ensures Mul(r - p, r - p) == Mul(p, p) - 2.0 * Mul(r, p) + Mul(r, r)
  {
  }

  /** The error as a quadratic form in the stored matrix and vector. */
  lemma {:induction false} LossForm(d: nat, lam: real, seen: Seen, u: Vec)
    requires SeenShape(d, seen) && |u| == d
    ensures Loss(d, lam, seen, u) ==
            Dot(u, MatVec(Ridge(d, lam, seen.contexts), u)) - 2.0 * Dot(u, Weighted(d, seen)) + Squares(seen.rewards)
    decreases |seen.contexts|
  {
    hide Dot, MatVec, Mul, Scale, AddOuter, ScaledIdentity, Square, Add;
    if seen.contexts == [] {
      IdentityVec(d, lam, u);
      DotScale(u, lam, u);
      DotZero(u);
    } else {
      var n := |seen.contexts| - 1;
      var before, x, r := Seen(seen.contexts[..n], seen.rewards[..n]), seen.contexts[n], seen.rewards[n];
      LossForm(d, lam, before, u);
      OuterForm(Ridge(d, lam, before.contexts), x, u, u);
      DotCombination(u, Weighted(d, before), r, x);
      DotComm(x, u);
      SquareOfDifference(r, Dot(x, u));
    }
  }

  /** The form of a sum, for a symmetric matrix. */
  lemma FormOfSum(d: nat, lam: real, xs: seq<Vec>, u: Vec, t: Vec)
    requires Shaped(d, xs) && |u| == |t| == d
    ensures var a, sum := Ridge(d, lam, xs), Add(u, Scale(1.0, t));
            Dot(sum, MatVec(a, sum)) ==
            Dot(u, MatVec(a, u)) + 2.0 * Dot(t, MatVec(a, u)) + Dot(t, MatVec(a, t))
  {
    hide Dot, MatVec, Mul, Ridge, Scale, Add, Square;
    var a, sum := Ridge(d, lam, xs), Add(u, Scale(1.0, t));
    MatVecCombination(a, u, 1.0, t);
    DotCombination(sum, MatVec(a, u), 1.0, MatVec(a, t));
    DotComm(sum, MatVec(a, u));
    DotComm(sum, MatVec(a, t));
    DotCombination(MatVec(a, u), u, 1.0, t);
    DotCombination(MatVec(a, t), u, 1.0, t);
    DotComm(MatVec(a, u), u);
    DotComm(MatVec(a, u), t);
    DotComm(MatVec(a, t), u);
    DotComm(MatVec(a, t), t);
    RidgeSymmetric(d, lam, xs, u, t);
    MulConst(Dot(MatVec(a, u), t));
    MulConst(Dot(MatVec(a, t), t));
    MulConst(Dot(sum, MatVec(a, t)));
  }

  /** Every vector is the estimate plus a difference. */
  lemma Recover(u: Vec, v: Vec)
    requires |u| == |v|
    ensures Add(v, Scale(1.0, Add(u, Scale(-1.0, v)))) == u
  {
    hide Mul;
    var t := Add(u, Scale(-1.0, v));
    forall i | 0 <= i < |u| ensures Add(v, Scale(1.0, t))[i] == u[i] {
      MulConst(v[i]);
      MulConst(t[i]);
    }
  }

  /** The estimate is the ridge regression of the rewards seen: any other vector has a greater error, by at
      least lambda times the squared distance. */
  lemma LeastSquares(d: nat, lam: real, seen: Seen, u: Vec)
    requires SeenShape(d, seen) && |u| == d && lam > 0.0
    ensures var t := Add(u, Scale(-1.0, Theta(d, lam, seen)));
            Loss(d, lam, seen, u) >= Loss(d, lam, seen, Theta(d, lam, seen)) + Mul(lam, Dot(t, t))
    ensures u != Theta(d, lam, seen) ==> Loss(d, lam, seen, u) > Loss(d, lam, seen, Theta(d, lam, seen))
  {
    hide Dot, MatVec, Mul, Ridge, Scale, Add, Square, Solve, Loss, Weighted, Squares;
    var a, b, theta := Ridge(d, lam, seen.contexts), Weighted(d, seen), Theta(d, lam, seen);
    var t := Add(u, Scale(-1.0, theta));
    SolveSolves(d, lam, seen.contexts, b);
    LossForm(d, lam, seen, u);
    LossForm(d, lam, seen, theta);
    Recover(u, theta);
    FormOfSum(d, lam, seen.contexts, theta, t);
    DotComm(u, b);
    DotComm(theta, b);
    DotComm(t, b);
    DotCombination(b, theta, 1.0, t);
    MulConst(Dot(b, t));
    RidgeForm(d, lam, seen.contexts, t);
    DotSelf(t);
    DifferenceZero(u, theta);
    MulPositive(lam, Dot(t, t));
  }

  // ---------- what the score promises ----------

  /** With a non-negative alpha the score is optimistic: never below what the estimate predicts, and exactly
      that when alpha is zero. */
  lemma Optimistic(d: nat, lam: real, alpha: real, seen: Seen, x: Vec, sqrt: real -> real)
    requires SeenShape(d, seen) && |x| == d && lam > 0.0
    requires alpha >= 0.0 && forall v: real :: v >= 0.0 ==> sqrt(v) >= 0.0
    ensures Score(d, lam, alpha, seen, x, sqrt) >= Dot(x, Theta(d, lam, seen))
    ensures alpha == 0.0 ==> Score(d, lam, alpha, seen, x, sqrt) == Dot(x, Theta(d, lam, seen))
  {
    hide Dot, Mul, Solve, Weighted, Spread;
    var spread := Spread(d, lam, seen.contexts, x);
    SpreadNonNegative(d, lam, seen.contexts, x);
    DotComm(Theta(d, lam, seen), x);
    MulConst(sqrt(spread));
    if alpha > 0.0 { MulPositive(alpha, sqrt(spread)); }
  }

  function WithArm(arms: seq<string>, arm: string): seq<string> {
    if arm in arms then arms else arms + [arm]
  }

  ghost function WithSeen(seen: map<string, Seen>, arm: string): map<string, Seen> {
    if arm in seen then seen else seen[arm := Seen([], [])]
  }

  class Bandit {
    const alpha: real
    const lam: real
    const d: nat
    var arms: seq<string>
    var A: map<string, Mat>
    var b: map<string, Vec>
    ghost var seen: map<string, Seen>

    ghost predicate Valid()
      reads this
    {
      && d > 0 && arms != [] && Distinct(arms)
      && (forall arm :: arm in arms <==> arm in A)
      && A.Keys == b.Keys == seen.Keys
      && forall arm :: arm in A ==> ArmOk(d, lam, A[arm], b[arm], seen[arm])
    }

    constructor (arms: seq<string>, d: nat, alpha: real, lam: real)
      requires d > 0 && arms != []
      ensures Valid() && this.alpha == alpha && this.lam == lam && this.d == d && this.arms == Dedupe(arms)
      ensures forall arm :: arm in seen ==> seen[arm] == Seen([], [])
    {
      var deduped := Dedupe(arms);
      this.alpha, this.lam, this.d, this.arms := alpha, lam, d, deduped;
      this.A := map arm | arm in deduped :: ScaledIdentity(d, lam);
      this.b := map arm | arm in deduped :: Zero(d);
      this.seen := map arm | arm in deduped :: Seen([], []);
      NewArmOk(d, lam);
    }

    method AddArm(arm: string)
      requires Valid()
      modifies this
      ensures Valid()
      ensures arms == WithArm(old(arms), arm) && seen == WithSeen(old(seen), arm)
      ensures arm in old(A) ==> A == old(A) && b == old(b)
    {
      hide ArmOk, ScaledIdentity, Zero;
      if arm in A {
        return;
      }
      arms := arms + [arm];
      A := A[arm := ScaledIdentity(d, lam)];
      b := b[arm := Zero(d)];
      NewArmOk(d, lam);
      seen := seen[arm := Seen([], [])];
    }

    /** `if arm not in self.A: self.add_arm(arm)`. */
    method AddArmIfNew(arm: string)
      requires Valid()
      modifies this
      ensures Valid() && arms == WithArm(old(arms), arm) && seen == WithSeen(old(seen), arm) && arm in seen
    {
      if arm !in A {
        AddArm(arm);
      }
    }

    /** The two in-place additions to a known arm. */
    method Accumulate(arm: string, x: Vec, reward: real)
      requires Valid() && |x| == d && arm in seen
      modifies this
      ensures Valid() && arms == old(arms) && seen == old(seen)[arm := Observe(old(seen)[arm], x, reward)]
    {
      hide ArmOk, AddOuter, Add, Scale, Square, Observe, Distinct;
      ObservedOk(d, lam, A[arm], b[arm], seen[arm], x, reward);
      A := A[arm := AddOuter(A[arm], x)];
      b := b[arm := Add(b[arm], Scale(reward, x))];
      seen := seen[arm := Observe(seen[arm], x, reward)];
    }

    method Update(arm: string, x: Vec, reward: real) returns (r: Result<()>)
      requires Valid()
      modifies this
      ensures Valid() && (r.Ok? <==> |x| == d)
      ensures r.ValueError? ==> arms == old(arms) && A == old(A) && b == old(b) && seen == old(seen)
      ensures r.Ok? ==> arms == WithArm(old(arms), arm) && arm in WithSeen(old(seen), arm)
      ensures r.Ok? ==>
                seen == WithSeen(old(seen), arm)[arm := Observe(WithSeen(old(seen), arm)[arm], x, reward)]
    {
      if |x| != d {
        return ValueError("x must be shaped (d, 1)");
      }
      hide Observe, Valid, WithArm, WithSeen;
      AddArmIfNew(arm);
      Accumulate(arm, x, reward);
      return Ok(());
    }

    ghost predicate Invertible(arm: string)
      reads this
    {
      arm in A && Square(A[arm], d) && Nonsingular(A[arm], d)
    }

    lemma ArmSquare(arm: string)
      requires Valid() && arm in A
      ensures arm in b && arm in seen
      ensures Square(A[arm], d) && |b[arm]| == d && SeenShape(d, seen[arm])
      ensures A[arm] == Ridge(d, lam, seen[arm].contexts) && b[arm] == Weighted(d, seen[arm])
    {
      hide Ridge, Weighted, Square, Distinct;
      assert ArmOk(d, lam, A[arm], b[arm], seen[arm]);
    }

    /** The score of an arm, from the inverse of its matrix. */
    ghost function Rating(arm: string, x: Vec, inv: Mat -> Option<Mat>, sqrt: real -> real): Option<real>
      reads this
    {
      if arm in A && arm in b then Rate(inv(A[arm]), b[arm], x, alpha, sqrt) else None
    }

    /** The score that positive lambda guarantees: the one of what the arm has seen. */
    ghost function ScoreOf(arm: string, x: Vec, sqrt: real -> real): real
      reads this
    {
      if lam > 0.0 && arm in seen && |x| == d && SeenShape(d, seen[arm]) then
        Score(d, lam, alpha, seen[arm], x, sqrt)
      else 0.0
    }

    /** With positive lambda the inverse exists and the root's argument is never negative. */
    lemma RatingIsScore(arm: string, x: Vec, inv: Mat -> Option<Mat>, sqrt: real -> real)
      requires Valid() && lam > 0.0 && Inverts(inv) && arm in A && |x| == d
      ensures Invertible(arm) && Rating(arm, x, inv, sqrt) == Some(ScoreOf(arm, x, sqrt))
    {
      hide Inverts, Valid, Ridge, Weighted, Solve, MatVec, Dot, Mul, Square, Nonsingular;
      ArmSquare(arm);
      RidgeNonsingular(d, lam, seen[arm].contexts);
      InverseSolves(d, lam, seen[arm].contexts, inv, b[arm]);
      InverseSolves(d, lam, seen[arm].contexts, inv, x);
      SpreadNonNegative(d, lam, seen[arm].contexts, x);
    }

    method ScoreArm(arm: string, x: Vec, inv: Mat -> Option<Mat>, sqrt: real -> real)
      returns (ok: bool, score: Option<real>)
      requires Valid() && Inverts(inv) && arm in A && |x| == d
      ensures ok <==> Invertible(arm)
      ensures ok ==> score == Rating(arm, x, inv, sqrt)
    {
      hide Inverts, Valid, Ridge, Weighted, MatVec, Dot, Mul, Square, Nonsingular;
      ArmSquare(arm);
      InverseExists(inv, A[arm], d);
      var inverse := inv(A[arm]);
      if inverse.None? {
        return false, None;
      }
      var theta := MatVec(inverse.value, b[arm]);
      var spread := Dot(x, MatVec(inverse.value, x));
      score := if spread < 0.0 then None else Some(Dot(theta, x) + Mul(alpha, sqrt(spread)));
      ok := true;
    }

    /** The scores of the first `n` arms, in order. */
    ghost function Ratings(n: nat, x: Vec, inv: Mat -> Option<Mat>, sqrt: real -> real): (r: seq<Option<real>>)
      requires n <= |arms|
      reads this
      ensures |r| == n
    {
      if n == 0 then [] else Ratings(n - 1, x, inv, sqrt) + [Rating(arms[n-1], x, inv, sqrt)]
    }

    lemma {:induction false} RatingsAt(n: nat, i: nat, x: Vec, inv: Mat -> Option<Mat>, sqrt: real -> real)
      requires i < n <= |arms|
      ensures Ratings(n, x, inv, sqrt)[i] == Rating(arms[i], x, inv, sqrt)
    {
      hide Rating;
      if i < n - 1 { RatingsAt(n - 1, i, x, inv, sqrt); }
    }

    lemma Known()
      requires Valid()
      ensures arms != [] && forall arm :: arm in arms <==> arm in A
    {
      hide ArmOk, Distinct;
    }

    /** Index `k` holds the first arm of greatest score. */
    ghost predicate BestArm(k: nat, score: real, x: Vec, sqrt: real -> real)
      reads this
    {
      && k < |arms| && score == ScoreOf(arms[k], x, sqrt)
      && (forall j :: 0 <= j < |arms| ==> ScoreOf(arms[j], x, sqrt) <= score)
      && (forall j :: 0 <= j < k ==> ScoreOf(arms[j], x, sqrt) < score)
    }

    ghost predicate AllInvertible()
      reads this
    {
      forall j :: 0 <= j < |arms| ==> Invertible(arms[j])
    }

    /** Arm `k`, with score `best`, leads the first `n` arms. */
    ghost predicate Leads(arm: string, k: nat, best: Option<real>, n: nat,
                          x: Vec, inv: Mat -> Option<Mat>, sqrt: real -> real)
      reads this
    {
      n <= |arms| && k < |arms| && arm == arms[k] && FirstBest(Ratings(n, x, inv, sqrt), k, best)
    }

    lemma LeaderIsBest(arm: string, k: nat, best: Option<real>, x: Vec, inv: Mat -> Option<Mat>, sqrt: real -> real)
      requires Valid() && lam > 0.0 && Inverts(inv) && |x| == d
      requires Leads(arm, k, best, |arms|, x, inv, sqrt)
      ensures best.Some? && BestArm(k, best.value, x, sqrt)
    {
      hide Valid, Inverts, Invertible, Rating, Ratings, ScoreOf, Nonsingular, Square, Rate, MatVec, Dot, Mul;
      Known();
      var ratings := Ratings(|arms|, x, inv, sqrt);
      forall j | 0 <= j < |arms| ensures ratings[j] == Some(ScoreOf(arms[j], x, sqrt)) {
        RatingsAt(|arms|, j, x, inv, sqrt);
        RatingIsScore(arms[j], x, inv, sqrt);
      }
      assert ratings[0].Some?;
    }

    lemma LeadStep(arm: string, k: nat, best: Option<real>, i: nat, score: Option<real>,
                   x: Vec, inv: Mat -> Option<Mat>, sqrt: real -> real)
      requires i < |arms| && Leads(arm, k, best, i, x, inv, sqrt) && score == Rating(arms[i], x, inv, sqrt)
      ensures if score.Some? && (best.None? || score.value > best.value)
              then Leads(arms[i], i, score, i + 1, x, inv, sqrt)
              else Leads(arm, k, best, i + 1, x, inv, sqrt)
    {
      hide Rating, FirstBest;
      FirstBestStep(Ratings(i, x, inv, sqrt), k, best, score);
      assert Ratings(i + 1, x, inv, sqrt) == Ratings(i, x, inv, sqrt) + [score];
    }

    /** The loop over the arms; `ok` is false when a matrix is singular. */
    method RateAll(x: Vec, inv: Mat -> Option<Mat>, sqrt: real -> real)
      returns (ok: bool, bestArm: string, bestScore: Option<real>, ghost k: nat)
      requires Valid() && Inverts(inv) && |x| == d
      ensures ok <==> AllInvertible()
      ensures ok ==> Leads(bestArm, k, bestScore, |arms|, x, inv, sqrt)
    {
      hide Valid, Inverts, Invertible, Rating, Nonsingular, Square, Rate, MatVec, Dot, Mul;
      Known();
      ok, bestArm, bestScore, k := true, arms[0], None, 0;
      assert Leads(bestArm, 0, None, 0, x, inv, sqrt);
      hide Leads;
      for i := 0 to |arms|
        invariant forall j :: 0 <= j < i ==> Invertible(arms[j])
        invariant Leads(bestArm, k, bestScore, i, x, inv, sqrt)
      {
        var known, score := ScoreArm(arms[i], x, inv, sqrt);
        if !known {
          ok := false;
          return;
        }
        LeadStep(bestArm, k, bestScore, i, score, x, inv, sqrt);
        if score.Some? && (bestScore.None? || score.value > bestScore.value) {
          bestArm, bestScore, k := arms[i], score, i;
        }
      }
    }

    /** What a selection amounts to: a wrong dimension or a singular matrix raises; otherwise the arm
        returned leads all arms. */
    ghost predicate Selected(x: Vec, inv: Mat -> Option<Mat>, sqrt: real -> real, r: Result<(string, Option<real>)>)
      reads this
    {
      match r
      case ValueError(_) => |x| != d
      case LinAlgError => |x| == d && !AllInvertible()
      case Ok((arm, best)) =>
        |x| == d && AllInvertible() && exists k :: Leads(arm, k, best, |arms|, x, inv, sqrt)
    }

    /** The arm returned is the first of greatest score for what the arms have seen. */
    ghost predicate SelectedBest(x: Vec, sqrt: real -> real, r: Result<(string, Option<real>)>)
      reads this
    {
      && r.Ok? && r.value.1.Some?
      && exists k :: 0 <= k < |arms| && arms[k] == r.value.0 && BestArm(k, r.value.1.value, x, sqrt)
    }

    /** Picks the first arm of greatest score. Scores that are not numbers are passed over, the first arm
        at minus infinity standing in if there is no other; with positive lambda nothing raises and every
        score is a number, that of what its arm has seen. */
    method Select(x: Vec, inv: Mat -> Option<Mat>, sqrt: real -> real) returns (r: Result<(string, Option<real>)>)
      requires Valid() && Inverts(inv)
      ensures Selected(x, inv, sqrt, r)
      ensures |x| == d && lam > 0.0 ==> SelectedBest(x, sqrt, r)
    {
      hide Valid, Inverts, Invertible, Rating, Ratings, FirstBest, BestArm, Nonsingular, Square, Rate, MatVec, Dot, Mul;
      Known();
      if |x| != d {
        return ValueError("x must be shaped (d, 1)");
      }
      var ok, bestArm, bestScore, k := RateAll(x, inv, sqrt);
      if lam > 0.0 {
        forall j | 0 <= j < |arms| ensures Invertible(arms[j]) { RatingIsScore(arms[j], x, inv, sqrt); }
        LeaderIsBest(bestArm, k, bestScore, x, inv, sqrt);
      }
      return if ok then Ok((bestArm, bestScore)) else LinAlgError;
    }
  }

  /** The constructor's checks. */
  method NewBandit(arms: seq<string>, d: int, alpha: real, lam: real) returns (r: Result<Bandit>)
    ensures r.Ok? <==> d > 0 && arms != []
    ensures r.Ok? ==> fresh(r.value) && r.value.Valid()
    ensures r.Ok? ==> r.value.d == d && r.value.lam == lam && r.value.alpha == alpha
    ensures r.Ok? ==> r.value.arms == Dedupe(arms)
  {
    if d <= 0 {
      return ValueError("d must be > 0");
    }
    if arms == [] {
      return ValueError("at least one arm is required");
    }
    var bandit := new Bandit(arms, d, alpha, lam);
    r := Ok(bandit);
  }
}
