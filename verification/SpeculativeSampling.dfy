/** Speculative sampling: the law of the tokens it emits, and why that is the target's own law.
    Distributions are finite sequences of reals that sum to one. */
module SpeculativeSampling {
  import opened RealBounds

  /** f(0) + ... + f(n - 1) */
  function Total(n: nat, f: nat -> real): real {
    if n == 0 then 0.0 else Total(n - 1, f) + f(n - 1)
  }

  lemma {:induction false} TotalSame(n: nat, f: nat -> real, g: nat -> real)
    requires forall t: nat :: t < n ==> f(t) == g(t)
    ensures Total(n, f) == Total(n, g)
  {
    if n > 0 { TotalSame(n - 1, f, g); }
  }

  lemma {:induction false} TotalNonNegative(n: nat, f: nat -> real)
    requires forall t: nat :: t < n ==> f(t) >= 0.0
    ensures Total(n, f) >= 0.0
    ensures forall t: nat :: t < n ==> f(t) <= Total(n, f)
  {
    if n > 0 { TotalNonNegative(n - 1, f); }
  }

  type Dist = seq<real>

  /** The probability of token t; tokens outside the vocabulary have none. */
  function W(p: Dist, t: nat): real {
    if t < |p| then p[t] else 0.0
  }

  function WeightOf(p: Dist): nat -> real {
    (t: nat) => W(p, t)
  }

  function ZeroOf(): nat -> real {
    (t: nat) => 0.0
  }

  ghost predicate IsDist(p: Dist, size: nat) {
    |p| == size && (forall t :: 0 <= t < |p| ==> p[t] >= 0.0) && Total(size, WeightOf(p)) == 1.0
  }

  /** The floor the code puts under the draft probability before dividing. */
  const FLOOR: real := 0.000000000001

  /** The chance that the drafted token t is accepted. */
  function Accept(p: Dist, q: Dist, t: nat): real {
    Min(1.0, W(p, t) / Max(W(q, t), FLOOR))
  }

  /** By how much the target likes t better than the draft does. */
  function Excess(p: Dist, q: Dist, t: nat): real {
    Max(W(p, t) - W(q, t), 0.0)
  }

  function ExcessOf(p: Dist, q: Dist): nat -> real {
    (t: nat) => Excess(p, q, t)
  }

  function RejectOf(p: Dist, q: Dist): nat -> real {
    (t: nat) => W(q, t) * (1.0 - Accept(p, q, t))
  }

  function Residual(p: Dist, q: Dist): real {
    Total(|p|, ExcessOf(p, q))
  }

  /** The chance that a drafted token is rejected. */
  function Reject(p: Dist, q: Dist): real {
    Total(|p|, RejectOf(p, q))
  }

  /** t is the first most probable token. */
  function FirstMax(p: Dist): (t: nat)
    requires |p| > 0
    ensures t < |p| && forall u :: 0 <= u < |p| ==> p[u] <= p[t]
  {
    if |p| == 1 then 0
    else
      var t := FirstMax(p[..|p| - 1]);
      assert forall u :: 0 <= u < |p| - 1 ==> p[u] == p[..|p| - 1][u];
      if p[|p| - 1] > p[t] then |p| - 1 else t
  }

  /** The law of the replacement after a rejection: the normalised excess, or the target's best token without one. */
  function Replace(p: Dist, q: Dist, x: nat): real {
    if Residual(p, q) > 0.0 then Excess(p, q, x) / Residual(p, q)
    else if |p| > 0 && x == FirstMax(p) then 1.0 else 0.0
  }

  /** The chance that token x is drafted and accepted. */
  function Kept(p: Dist, q: Dist, x: nat): real {
    W(q, x) * Accept(p, q, x)
  }

  /** The chance that the drafted token is rejected and x replaces it. */
  function Redrawn(p: Dist, q: Dist, x: nat): real {
    Reject(p, q) * Replace(p, q, x)
  }

  /** The chance that one verified position emits token x. */
  function Emits(p: Dist, q: Dist, x: nat): real {
    Kept(p, q, x) + Redrawn(p, q, x)
  }

  // --- one position ---------------------------------------------------------------------------

  /** The floor does not bite at t: it only matters when both models give t a chance below it. */
  predicate FloorIdle(p: Dist, q: Dist, t: nat) {
    !(0.0 < W(q, t) < FLOOR && 0.0 < W(p, t) < FLOOR)
  }

  /** Drafting and accepting t has the chance min(p, q) exactly where the floor does not bite; where it bites the
      chance is strictly smaller. */
  lemma AcceptedMass(p: Dist, q: Dist, t: nat)
    requires W(p, t) >= 0.0 && W(q, t) >= 0.0
    ensures Kept(p, q, t) <= Min(W(p, t), W(q, t))
    ensures Kept(p, q, t) == Min(W(p, t), W(q, t)) <==> FloorIdle(p, q, t)
    ensures 0.0 <= Accept(p, q, t) <= 1.0
  {
    AcceptedCases(W(p, t), W(q, t), Accept(p, q, t));
  }

  lemma AcceptedCases(a: real, b: real, c: real)
    requires a >= 0.0 && b >= 0.0 && c == Min(1.0, a / Max(b, FLOOR))
    ensures 0.0 <= c <= 1.0 && b * c <= Min(a, b)
    ensures b * c == Min(a, b) <==> !(0.0 < b < FLOOR && 0.0 < a < FLOOR)
  {
    var m := Max(b, FLOOR);
    assert (a / m) * m == a;
    if a >= m {
      Quotient(a, m);
      assert b * c == b * 1.0;
    } else {
      QuotientBelow(a, m);
      if b >= FLOOR { assert b * c == a; } else { Scaled(a, b); }
    }
  }

  lemma Quotient(a: real, b: real)
    requires a >= b > 0.0
    ensures a / b >= 1.0
  {
    assert (a / b) * b == a;
  }

  lemma QuotientBelow(a: real, b: real)
    requires 0.0 <= a < b
    ensures 0.0 <= a / b < 1.0 && (a > 0.0 ==> a / b > 0.0)
  {
    assert (a / b) * b == a;
  }

  lemma Scaled(a: real, b: real)
    requires 0.0 <= a < FLOOR && 0.0 <= b < FLOOR
    ensures b * (a / FLOOR) <= a && b * (a / FLOOR) <= b
    ensures a > 0.0 && b > 0.0 ==> b * (a / FLOOR) < a && b * (a / FLOOR) < b
    ensures a == 0.0 || b == 0.0 ==> b * (a / FLOOR) == 0.0
  {
    var r := a / FLOOR;
    assert r * FLOOR == a;
    QuotientBelow(a, FLOOR);
    assert b * r <= FLOOR * r;
    if a > 0.0 && b > 0.0 {
      assert b * r < FLOOR * r;
      assert b * r < b * 1.0;
    }
  }

  /** The mass missing at t because of the floor. */
  function Deficit(p: Dist, q: Dist, t: nat): real {
    Min(W(p, t), W(q, t)) - Kept(p, q, t)
  }

  function DeficitOf(p: Dist, q: Dist): nat -> real {
    (t: nat) => Deficit(p, q, t)
  }

  /** Rejections cover the residual and whatever the floor took away. */
  lemma RejectIs(p: Dist, q: Dist, size: nat)
    requires IsDist(p, size) && IsDist(q, size)
    ensures Reject(p, q) == Residual(p, q) + Total(size, DeficitOf(p, q))
    ensures Residual(p, q) >= 0.0 && Total(size, DeficitOf(p, q)) >= 0.0
  {
    RejectSplit(p, q, size);
    forall t: nat | t < size ensures Deficit(p, q, t) >= 0.0 { AcceptedMass(p, q, t); }
    TotalNonNegative(size, DeficitOf(p, q));
    TotalNonNegative(size, ExcessOf(p, q));
  }

  lemma RejectSplit(p: Dist, q: Dist, n: nat)
    ensures Total(n, RejectOf(p, q)) == Total(n, ExcessOf(p, q)) + Total(n, DeficitOf(p, q))
                                        + Total(n, WeightOf(q)) - Total(n, WeightOf(p))
  {
    forall t: nat | t < n
      ensures RejectOf(p, q)(t) == ExcessOf(p, q)(t) + DeficitOf(p, q)(t) + WeightOf(q)(t) - WeightOf(p)(t)
    {
      assert W(q, t) * (1.0 - Accept(p, q, t)) == W(q, t) - W(q, t) * Accept(p, q, t);
    }
    TotalSplit(n, RejectOf(p, q), ExcessOf(p, q), DeficitOf(p, q), WeightOf(q), WeightOf(p));
  }

  lemma {:induction false} TotalSplit(n: nat, f: nat -> real, a: nat -> real, b: nat -> real, c: nat -> real,
                                      d: nat -> real)
    requires forall t: nat :: t < n ==> f(t) == a(t) + b(t) + c(t) - d(t)
    ensures Total(n, f) == Total(n, a) + Total(n, b) + Total(n, c) - Total(n, d)
  {
    if n > 0 { TotalSplit(n - 1, f, a, b, c, d); }
  }

  ghost predicate FloorNeverBites(p: Dist, q: Dist) {
    forall t: nat :: t < |p| ==> FloorIdle(p, q, t)
  }

  lemma NoDeficit(p: Dist, q: Dist, size: nat)
    requires IsDist(p, size) && IsDist(q, size) && FloorNeverBites(p, q)
    ensures Total(size, DeficitOf(p, q)) == 0.0
  {
    forall t: nat | t < size ensures Deficit(p, q, t) == 0.0 { AcceptedMass(p, q, t); }
    TotalSame(size, DeficitOf(p, q), ZeroOf());
    TotalZero(size);
  }

  lemma {:induction false} TotalZero(n: nat)
    ensures Total(n, ZeroOf()) == 0.0
  {
    if n > 0 { TotalZero(n - 1); }
  }

  /** part is the share r of the whole. */
  predicate Share(part: real, whole: real, r: real) {
    part == whole * r
  }

  lemma ReplacedIsExcess(p: Dist, q: Dist, size: nat, x: nat)
    requires IsDist(p, size) && IsDist(q, size)
    ensures Share(Excess(p, q, x), Residual(p, q), Replace(p, q, x))
  {
    var s, e := Residual(p, q), Excess(p, q, x);
    TotalNonNegative(size, ExcessOf(p, q));
    if s > 0.0 {
      assert s * (e / s) == e;
    } else {
      assert s == 0.0;
      assert x < size ==> ExcessOf(p, q)(x) <= 0.0;
    }
  }

  /** The floor's takings, all of them, that the replacement hands back to x. */
  function HandedBack(p: Dist, q: Dist, x: nat): real {
    Total(|p|, DeficitOf(p, q)) * Replace(p, q, x)
  }

  /** A replacement makes up the excess and hands back what the floor took. */
  lemma RedrawnIs(p: Dist, q: Dist, size: nat, x: nat)
    requires IsDist(p, size) && IsDist(q, size)
    ensures Redrawn(p, q, x) == Excess(p, q, x) + HandedBack(p, q, x)
  {
    RejectIs(p, q, size);
    ReplacedIsExcess(p, q, size, x);
    SplitRejection(Residual(p, q), Total(size, DeficitOf(p, q)), Replace(p, q, x), Excess(p, q, x));
  }

  lemma SplitRejection(s: real, lost: real, r: real, e: real)
    requires Share(e, s, r)
    ensures (s + lost) * r == e + lost * r
  {}

  /** In general: what the floor takes from the accepted mass, the replacement hands back in its own proportions.
      The emitted law is the target's at x exactly when those two agree at x. */
  lemma EmitsInGeneral(p: Dist, q: Dist, size: nat, x: nat)
    requires IsDist(p, size) && IsDist(q, size)
    ensures Emits(p, q, x) == W(p, x) - Deficit(p, q, x) + HandedBack(p, q, x)
    ensures Emits(p, q, x) == W(p, x) <==> Deficit(p, q, x) == HandedBack(p, q, x)
  {
    RedrawnIs(p, q, size, x);
  }

  /** What the floor takes from a token that the target likes better than the draft does, up to the factor FLOOR. */
  function Bite(p: Dist, q: Dist, x: nat): real {
    W(q, x) * (FLOOR - W(p, x))
  }

  /** The target likes token x better than the draft does. */
  ghost predicate Gains(p: Dist, q: Dist, x: nat) {
    W(p, x) > W(q, x)
  }

  /** The floor takes something exactly where it bites. */
  lemma DeficitIs(p: Dist, q: Dist, size: nat, x: nat)
    requires IsDist(p, size) && IsDist(q, size)
    ensures Deficit(p, q, x) >= 0.0 && (Deficit(p, q, x) == 0.0 <==> FloorIdle(p, q, x))
    ensures Gains(p, q, x) && !FloorIdle(p, q, x) ==> FLOOR * Deficit(p, q, x) == Bite(p, q, x)
    ensures Excess(p, q, x) >= 0.0 && (Excess(p, q, x) > 0.0 <==> Gains(p, q, x))
  {
    AcceptedMass(p, q, x);
    if Gains(p, q, x) && !FloorIdle(p, q, x) {
      BittenGain(W(p, x), W(q, x), Accept(p, q, x));
    }
  }

  lemma BittenGain(a: real, b: real, c: real)
    requires 0.0 < b < a < FLOOR && c == Min(1.0, a / Max(b, FLOOR))
    ensures FLOOR * (b - b * c) == b * (FLOOR - a)
  {
    QuotientBelow(a, FLOOR);
    assert c * FLOOR == a;
    assert FLOOR * (b - b * c) == b * (FLOOR - c * FLOOR);
  }

  /** Speculative sampling is exact at one position: token x is emitted with the target's own probability, for
      every token, whatever the draft; and a rejection can only happen when there is residual mass to draw from. */
  lemma StepExact(p: Dist, q: Dist, size: nat, x: nat)
    requires IsDist(p, size) && IsDist(q, size) && FloorNeverBites(p, q)
    ensures Emits(p, q, x) == W(p, x)
    ensures Reject(p, q) > 0.0 ==> Residual(p, q) > 0.0
  {
    RejectIs(p, q, size);
    NoDeficit(p, q, size);
    EmitsInGeneral(p, q, size, x);
    DeficitIs(p, q, size, x);
  }

  /** When the floor bites at a token the target likes no better than the draft does, that token comes out too
      rarely (unless it is the target's favourite and there is no residual). */
  lemma FloorUnderEmits(p: Dist, q: Dist, size: nat, x: nat)
    requires IsDist(p, size) && IsDist(q, size) && x < size
    requires !FloorIdle(p, q, x) && W(p, x) <= W(q, x)
    requires Residual(p, q) > 0.0 || x != FirstMax(p)
    ensures Emits(p, q, x) < W(p, x)
  {
    AcceptedMass(p, q, x);
    if Residual(p, q) > 0.0 {
      assert Excess(p, q, x) / Residual(p, q) == 0.0;
    }
  }

  // --- the whole law of one position ----------------------------------------------------------------

  /** One position has the target's law. */
  ghost predicate ExactLaw(p: Dist, q: Dist) {
    forall x: nat :: Emits(p, q, x) == W(p, x)
  }

  /** a is to b as c is to d. */
  predicate Ratio(a: real, b: real, c: real, d: real) {
    a * d == b * c
  }

  /** The floor bites exactly the tokens the target likes better, and takes from each in proportion to its excess. */
  ghost predicate Balanced(p: Dist, q: Dist) {
    && (forall x: nat :: FloorIdle(p, q, x) <==> !Gains(p, q, x))
    && (forall x: nat, y: nat :: Gains(p, q, x) && Gains(p, q, y) ==>
          Ratio(Bite(p, q, x), Excess(p, q, x), Bite(p, q, y), Excess(p, q, y)))
  }

  lemma {:induction false} Proportional(n: nat, a: real, e: nat -> real, b: real, d: nat -> real)
    requires forall t: nat :: t < n ==> a * e(t) == b * d(t)
    ensures a * Total(n, e) == b * Total(n, d)
  {
    if n > 0 {
      Proportional(n - 1, a, e, b, d);
      Spread(a, Total(n - 1, e), e(n - 1));
      Spread(b, Total(n - 1, d), d(n - 1));
    }
  }

  lemma Spread(a: real, x: real, y: real)
    ensures a * (x + y) == a * x + a * y
  {}

  /** Every token loses the same share of all that is lost as its excess is of the residual. */
  ghost predicate Shares(d: nat -> real, e: nat -> real, s: real, lost: real) {
    forall x: nat :: Ratio(d(x), e(x), lost, s)
  }

  /** d and e are proportional. */
  ghost predicate Crossed(d: nat -> real, e: nat -> real) {
    forall x: nat, y: nat :: Ratio(d(x), e(x), d(y), e(y))
  }

  /** Shares of the totals are proportional, and the other way round. */
  lemma SharesExactly(n: nat, d: nat -> real, e: nat -> real, s: real, lost: real)
    requires s == Total(n, e) && lost == Total(n, d) && s > 0.0
    ensures Shares(d, e, s, lost) <==> Crossed(d, e)
  {
    if Crossed(d, e) {
      forall x: nat ensures Ratio(d(x), e(x), lost, s) {
        assert forall y: nat :: Ratio(d(x), e(x), d(y), e(y));
        Proportional(n, d(x), e, e(x), d);
      }
    } else if Shares(d, e, s, lost) {
      forall x: nat, y: nat ensures Ratio(d(x), e(x), d(y), e(y)) {
        assert Ratio(d(x), e(x), lost, s) && Ratio(d(y), e(y), lost, s);
        CommonFactor(s, lost, d(x), e(x), d(y), e(y));
      }
    }
  }

  lemma CommonFactor(s: real, lost: real, dx: real, ex: real, dy: real, ey: real)
    requires s > 0.0 && Ratio(dx, ex, lost, s) && Ratio(dy, ey, lost, s)
    ensures Ratio(dx, ex, dy, ey)
  {
    assert (dx * ey) * s == (dx * s) * ey == (ex * lost) * ey == ex * (ey * lost) == ex * (dy * s) == (ex * dy) * s;
  }

  lemma Shared(d: real, s: real, lost: real, e: real, r: real)
    requires s > 0.0 && Share(e, s, r)
    ensures Share(d, lost, r) <==> Ratio(d, e, lost, s)
  {
    assert e * lost == (lost * r) * s;
    if d != lost * r { assert (d - lost * r) * s != 0.0; }
  }

  lemma BackIsShare(p: Dist, q: Dist, size: nat, x: nat, d: real)
    requires |p| == size
    ensures d == HandedBack(p, q, x) <==> Share(d, Total(size, DeficitOf(p, q)), Replace(p, q, x))
  {}

  lemma ExactShare(p: Dist, q: Dist, size: nat, x: nat)
    requires IsDist(p, size) && IsDist(q, size) && Residual(p, q) > 0.0
    ensures Emits(p, q, x) == W(p, x) <==>
            Ratio(Deficit(p, q, x), Excess(p, q, x), Total(size, DeficitOf(p, q)), Residual(p, q))
  {
    EmitsInGeneral(p, q, size, x);
    ReplacedIsExcess(p, q, size, x);
    BackIsShare(p, q, size, x, Deficit(p, q, x));
    Shared(Deficit(p, q, x), Residual(p, q), Total(size, DeficitOf(p, q)), Excess(p, q, x), Replace(p, q, x));
  }

  lemma ExactShares(p: Dist, q: Dist, size: nat)
    requires IsDist(p, size) && IsDist(q, size) && Residual(p, q) > 0.0
    ensures ExactLaw(p, q) <==> Shares(DeficitOf(p, q), ExcessOf(p, q), Residual(p, q), Total(size, DeficitOf(p, q)))
  {
    forall x: nat
      ensures Emits(p, q, x) == W(p, x) <==>
              Ratio(DeficitOf(p, q)(x), ExcessOf(p, q)(x), Total(size, DeficitOf(p, q)), Residual(p, q))
    {
      ExactShare(p, q, size, x);
    }
  }

  /** Losses and excesses are not negative, and where both are positive the loss is the bite over the floor. */
  ghost predicate Bitten(d: nat -> real, e: nat -> real, bite: nat -> real) {
    forall x: nat :: d(x) >= 0.0 && e(x) >= 0.0 && (d(x) > 0.0 && e(x) > 0.0 ==> FLOOR * d(x) == bite(x))
  }

  /** The tokens that lose are those that gain, and they lose in proportion to what they gain. */
  ghost predicate InProportion(d: nat -> real, e: nat -> real, bite: nat -> real) {
    && (forall x: nat :: d(x) > 0.0 <==> e(x) > 0.0)
    && (forall x: nat, y: nat :: e(x) > 0.0 && e(y) > 0.0 ==> Ratio(bite(x), e(x), bite(y), e(y)))
  }

  lemma CrossScaled(c: real, bitex: real, bitey: real, dx: real, dy: real, ex: real, ey: real)
    requires c != 0.0 && c * dx == bitex && c * dy == bitey
    ensures Ratio(bitex, ex, bitey, ey) <==> Ratio(dx, ex, dy, ey)
  {
    assert bitex * ey == c * (dx * ey) && bitey * ex == c * (ex * dy);
  }

  lemma CrossedExactly(d: nat -> real, e: nat -> real, bite: nat -> real, a: nat, b: nat)
    requires Bitten(d, e, bite) && d(a) > 0.0 && e(b) > 0.0
    ensures Crossed(d, e) <==> InProportion(d, e, bite)
  {
    if InProportion(d, e, bite) {
      forall x: nat, y: nat ensures Ratio(d(x), e(x), d(y), e(y)) {
        if e(x) > 0.0 && e(y) > 0.0 {
          CrossScaled(FLOOR, bite(x), bite(y), d(x), d(y), e(x), e(y));
        }
      }
    } else if Crossed(d, e) {
      forall x: nat ensures d(x) > 0.0 <==> e(x) > 0.0 {
        assert Ratio(d(x), e(x), d(b), e(b));
        assert Ratio(d(a), e(a), d(x), e(x));
      }
      forall x: nat, y: nat | e(x) > 0.0 && e(y) > 0.0 ensures Ratio(bite(x), e(x), bite(y), e(y)) {
        assert Ratio(d(x), e(x), d(y), e(y));
        CrossScaled(FLOOR, bite(x), bite(y), d(x), d(y), e(x), e(y));
      }
    }
  }

  // Without residual mass the two models agree, and the floor then bites more tokens than the target's favourite.

  lemma ResidualWhenBitten(p: Dist, q: Dist, size: nat)
    requires IsDist(p, size) && IsDist(q, size) && (Balanced(p, q) || ExactLaw(p, q)) && !FloorNeverBites(p, q)
    ensures Residual(p, q) > 0.0
  {
    if Residual(p, q) <= 0.0 {
      var t: nat :| t < |p| && !FloorIdle(p, q, t);
      Agree(p, q, size);
      var x := OtherBitten(p, q, size, t);
      FloorUnderEmits(p, q, size, x);
    }
  }

  lemma Agree(p: Dist, q: Dist, size: nat)
    requires IsDist(p, size) && IsDist(q, size) && Residual(p, q) <= 0.0
    ensures p == q
  {
    var gap := (t: nat) => W(q, t) - W(p, t);
    TotalNonNegative(size, ExcessOf(p, q));
    forall t: nat | t < size ensures gap(t) >= 0.0 { assert ExcessOf(p, q)(t) <= 0.0; }
    TotalNonNegative(size, gap);
    TotalSplit(size, gap, WeightOf(q), ZeroOf(), ZeroOf(), WeightOf(p));
    TotalZero(size);
    forall t: nat | t < size ensures p[t] == q[t] { assert gap(t) <= 0.0; }
  }

  lemma {:induction false} OneTerm(n: nat, f: nat -> real, t: nat)
    requires forall u: nat :: u < n && u != t ==> f(u) == 0.0
    ensures Total(n, f) == if t < n then f(t) else 0.0
  {
    if n > 0 { OneTerm(n - 1, f, t); }
  }

  lemma OtherBitten(p: Dist, q: Dist, size: nat, t: nat) returns (x: nat)
    requires IsDist(p, size) && p == q && t < size && !FloorIdle(p, q, t)
    ensures x < size && x != FirstMax(p) && !FloorIdle(p, q, x)
  {
    x := t;
    if t == FirstMax(p) {
      if forall u: nat :: u < size && u != t ==> WeightOf(p)(u) == 0.0 {
        OneTerm(size, WeightOf(p), t);
      } else {
        x :| x < size && x != t && WeightOf(p)(x) != 0.0;
      }
    }
  }

  function BiteOf(p: Dist, q: Dist): nat -> real {
    (t: nat) => Bite(p, q, t)
  }

  lemma DeficitsAre(p: Dist, q: Dist, size: nat)
    requires IsDist(p, size) && IsDist(q, size)
    ensures Bitten(DeficitOf(p, q), ExcessOf(p, q), BiteOf(p, q))
    ensures Balanced(p, q) <==> InProportion(DeficitOf(p, q), ExcessOf(p, q), BiteOf(p, q))
  {
    forall x: nat
      ensures DeficitOf(p, q)(x) >= 0.0 && (DeficitOf(p, q)(x) == 0.0 <==> FloorIdle(p, q, x))
      ensures ExcessOf(p, q)(x) >= 0.0 && (ExcessOf(p, q)(x) > 0.0 <==> Gains(p, q, x))
      ensures DeficitOf(p, q)(x) > 0.0 && ExcessOf(p, q)(x) > 0.0 ==> FLOOR * DeficitOf(p, q)(x) == BiteOf(p, q)(x)
    {
      DeficitIs(p, q, size, x);
    }
  }

  lemma CrossedIsBalanced(p: Dist, q: Dist, size: nat)
    requires IsDist(p, size) && IsDist(q, size) && Residual(p, q) > 0.0 && !FloorNeverBites(p, q)
    ensures Crossed(DeficitOf(p, q), ExcessOf(p, q)) <==> Balanced(p, q)
  {
    DeficitsAre(p, q, size);
    var a: nat :| a < |p| && !FloorIdle(p, q, a);
    DeficitIs(p, q, size, a);
    var b := SomeGain(size, ExcessOf(p, q));
    CrossedExactly(DeficitOf(p, q), ExcessOf(p, q), BiteOf(p, q), a, b);
  }

  lemma {:induction false} SomeGain(n: nat, e: nat -> real) returns (b: nat)
    requires Total(n, e) > 0.0
    ensures b < n && e(b) > 0.0
  {
    if e(n - 1) > 0.0 { b := n - 1; } else { b := SomeGain(n - 1, e); }
  }

  /** One position has the target's law if and only if the floor bites nowhere, or what it takes happens to be
      proportional to what the replacement gives back. */
  lemma LawExactly(p: Dist, q: Dist, size: nat)
    requires IsDist(p, size) && IsDist(q, size)
    ensures ExactLaw(p, q) <==> FloorNeverBites(p, q) || Balanced(p, q)
  {
    if FloorNeverBites(p, q) {
      forall x: nat ensures Emits(p, q, x) == W(p, x) { StepExact(p, q, size, x); }
    } else if Balanced(p, q) || ExactLaw(p, q) {
      ResidualWhenBitten(p, q, size);
      ExactShares(p, q, size);
      SharesExactly(size, DeficitOf(p, q), ExcessOf(p, q), Residual(p, q), Total(size, DeficitOf(p, q)));
      CrossedIsBalanced(p, q, size);
    }
  }

  /** The balanced exception needs every token that the target likes better to be tiny: with one that is not, or with
      none at all, the law is the target's if and only if the floor bites nowhere. */
  lemma LawExactlyInGeneral(p: Dist, q: Dist, size: nat)
    requires IsDist(p, size) && IsDist(q, size)
    requires (forall x: nat :: !Gains(p, q, x)) || (exists x: nat :: Gains(p, q, x) && FloorIdle(p, q, x))
    ensures ExactLaw(p, q) <==> FloorNeverBites(p, q)
  {
    LawExactly(p, q, size);
  }

  /** Equal models with one very unlikely token: that token comes out too rarely. */
  lemma TinyTokenComesOutTooRarely()
    ensures var p := [0.9999999999999, 0.0000000000001];
            IsDist(p, 2) && Emits(p, p, 1) < W(p, 1) && !ExactLaw(p, p)
  {
    var p := [0.9999999999999, 0.0000000000001];
    TwoTokens(p);
    assert FirstMax(p) != 1;
    FloorUnderEmits(p, p, 2, 1);
  }

  lemma TwoTokens(p: Dist)
    requires |p| == 2 && p[0] >= 0.0 && p[1] >= 0.0 && p[0] + p[1] == 1.0
    ensures IsDist(p, 2)
  {
    assert Total(2, WeightOf(p)) == Total(1, WeightOf(p)) + p[1];
    assert Total(1, WeightOf(p)) == Total(0, WeightOf(p)) + p[0];
  }

  /** The floor can bite and the law be the target's all the same. */
  lemma BalancedHappens()
    ensures var p, q := [0.0000000000005, 0.9999999999995], [0.00000000000025, 0.99999999999975];
            IsDist(p, 2) && IsDist(q, 2) && !FloorIdle(p, q, 0) && ExactLaw(p, q)
  {
    var p, q := [0.0000000000005, 0.9999999999995], [0.00000000000025, 0.99999999999975];
    TwoTokens(p);
    TwoTokens(q);
    assert Balanced(p, q) by {
      forall x: nat ensures Gains(p, q, x) <==> x == 0 {}
    }
    LawExactly(p, q, 2);
  }
}
