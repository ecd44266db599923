/** One verification pass of sampled speculative decoding, for given random draws. */
module SpeculativePass {
  import opened Options
  import opened PassRows
  import opened RealBounds
  import opened RealProducts
  import opened SpeculativeSampling

  /** A weighted draw picks an index of positive weight. */
  ghost predicate Draws(choose: (nat, seq<real>) -> nat) {
    forall j: nat, w: seq<real> {:trigger choose(j, w)} ::
      IsDist(w, |w|) ==> choose(j, w) < |w| && w[choose(j, w)] > 0.0
  }

  /** The weights of the replacement at one position: the law's own. */
  function Weights(p: Dist, q: Dist): (w: seq<real>)
    ensures |w| == |p|
  {
    seq(|p|, x requires 0 <= x < |p| => Replace(p, q, x))
  }

  /** What one pass works with: the target's rows over the n tokens so far and the draft, the draft model's own rows,
      the drafted tokens and one random number each. */
  datatype Pass = Pass(rows: seq<Dist>, n: nat, k: int, qs: seq<Dist>, drafts: seq<nat>, us: seq<real>)

  ghost predicate PassOk(a: Pass, size: nat) {
    && |a.drafts| == |a.qs| == |a.us| == Length(a.k) && |a.rows| == a.n + |a.drafts|
    && (forall i :: 0 <= i < |a.rows| ==> |a.rows[i]| == size)
    && (forall j :: 0 <= j < |a.qs| ==> |a.qs[j]| == size)
    && (forall j :: 0 <= j < |a.drafts| ==> a.drafts[j] < size)
  }

  /** The target's row that position j reads; k is the bonus position. */
  function RowRead(a: Pass, j: int): Option<Dist> {
    At(a.rows, a.n - 1 + j)
  }

  /** The drafted token at position j is accepted. */
  ghost predicate Accepts(a: Pass, j: nat)
    requires j < |a.drafts| && j < |a.qs| && j < |a.us|
  {
    RowRead(a, j).Some? && a.us[j] < Accept(RowRead(a, j).value, a.qs[j], a.drafts[j])
  }

  /** x replaces the drafted token that was rejected at position j. */
  ghost predicate Replaces(p: Dist, q: Dist, choose: (nat, seq<real>) -> nat, j: nat, x: nat) {
    if Residual(p, q) > 0.0 then x == choose(j, Weights(p, q)) else |p| > 0 && x == FirstMax(p)
  }

  /** How a pass came out: the drafted tokens before the first rejection, and the last token. */
  ghost predicate Outcome(a: Pass, choose: (nat, seq<real>) -> nat, out: seq<nat>)
    requires |a.drafts| == |a.qs| == |a.us| && out != [] && |out| <= |a.drafts| + 1
  {
    var j := |out| - 1;
    && out[..j] == a.drafts[..j]
    && (forall i :: 0 <= i < j ==> Accepts(a, i))
    && if j == |a.drafts| then RowRead(a, a.k).Some? && out[j] == choose(j, RowRead(a, a.k).value)
       else !Accepts(a, j) && RowRead(a, j).Some? && Replaces(RowRead(a, j).value, a.qs[j], choose, j, out[j])
  }

  /** The residual, normalised when there is any, as the code computes it. */
  method ResidualWeights(p: Dist, q: Dist) returns (w: seq<real>, s: real)
    requires |p| == |q|
    ensures s == Residual(p, q) && (s > 0.0 ==> w == Weights(p, q))
  {
    var resid := seq(|p|, x requires 0 <= x < |p| => Max(p[x] - q[x], 0.0));
    s := 0.0;
    for x := 0 to |p|
      invariant s == Total(x, ExcessOf(p, q))
    {
      s := s + resid[x];
    }
    w := if s > 0.0 then seq(|p|, x requires 0 <= x < |p| => resid[x] / s) else [];
  }

  /** The verification loop: accept each drafted token with its chance, replace the first rejected one, or add a bonus
      token when none is rejected.  The bonus row is the only one that may be missing, and then the call fails. */
  method VerifySampled(a: Pass, choose: (nat, seq<real>) -> nat, size: nat) returns (r: Option<seq<nat>>)
    requires PassOk(a, size) && size > 0
    ensures r.Some? ==> 1 <= |r.value| <= |a.drafts| + 1 && Outcome(a, choose, r.value)
    ensures r.None? <==> (forall j :: 0 <= j < |a.drafts| ==> Accepts(a, j)) && RowRead(a, a.k).None?
  {
    var out: seq<nat> := [];
    for j := 0 to |a.drafts|
      invariant out == a.drafts[..j]
      invariant forall i :: 0 <= i < j ==> Accepts(a, i)
    {
      var p, q, t := RowRead(a, j).value, a.qs[j], a.drafts[j];
      if a.us[j] < Min(1.0, p[t] / Max(q[t], FLOOR)) {
        out := out + [t];
      } else {
        var w, s := ResidualWeights(p, q);
        out := out + [if s > 0.0 then choose(j, w) else FirstMax(p)];
        return Some(out);
      }
    }
    var row := RowRead(a, a.k);
    if row.None? { return None; }
    r := Some(out + [choose(|a.drafts|, row.value)]);
  }

  /** The rows are the target's over the tokens so far and the draft. */
  ghost predicate ReadsFrom(a: Pass, target: seq<nat> -> Dist, tokens: seq<nat>) {
    |tokens| == a.n && |a.drafts| == Length(a.k) && RowsOf(target, tokens, a.drafts, a.rows)
  }

  /** The rows that a pass reads are those of the law over whole runs. */
  lemma ReadsAre(a: Pass, target: seq<nat> -> Dist, tokens: seq<nat>)
    requires ReadsFrom(a, target, tokens)
    ensures forall j :: 0 <= j < |a.drafts| ==>
              RowRead(a, j) == Some(target(VerifyContext(tokens + a.drafts[..j], a.drafts[j..])))
    ensures RowRead(a, a.k) == match BonusContext(tokens + a.drafts, a.k)
                               case Some(c) => Some(target(c))
                               case None => None
  {
    forall j | 0 <= j < |a.drafts|
      ensures RowRead(a, j) == Some(target(VerifyContext(tokens + a.drafts[..j], a.drafts[j..])))
    {
      VerifyRowIs(target, tokens, a.drafts, a.rows, j);
    }
    BonusRowIs(target, tokens, a.drafts, a.rows, a.k);
  }

  /** The row behind which token i of the output was decided. */
  function Decisive(a: Pass, i: nat): Option<Dist> {
    if i < |a.drafts| then RowRead(a, i) else RowRead(a, a.k)
  }

  /** After a non-empty text and for k not negative token i is decided with the target's row behind everything emitted
      before it. */
  lemma DecisiveIs(a: Pass, target: seq<nat> -> Dist, tokens: seq<nat>, choose: (nat, seq<real>) -> nat, out: seq<nat>,
                   i: nat)
    requires ReadsFrom(a, target, tokens) && tokens != [] && a.k >= 0
    requires |a.qs| == |a.us| == |a.drafts| && out != [] && |out| <= |a.drafts| + 1 && Outcome(a, choose, out)
    requires i < |out|
    ensures Decisive(a, i) == Some(target(tokens + out[..i]))
  {
    ReadsAre(a, target, tokens);
    assert out[..i] == out[..|out| - 1][..i] == a.drafts[..i];
    assert a.drafts[..|a.drafts|] == a.drafts;
  }

  lemma {:induction false} ShareOut(n: nat, f: nat -> real, g: nat -> real, s: real)
    requires s > 0.0 && forall x: nat :: x < n ==> f(x) == g(x) / s
    ensures Total(n, f) == Total(n, g) / s
  {
    if n > 0 { ShareOut(n - 1, f, g, s); }
  }

  /** With residual mass the replacement weights are a distribution. */
  lemma WeightsAreDist(p: Dist, q: Dist)
    requires |p| == |q| && Residual(p, q) > 0.0
    ensures IsDist(Weights(p, q), |p|)
  {
    var s, w := Residual(p, q), Weights(p, q);
    forall x: nat | x < |p| ensures w[x] == Excess(p, q, x) / s && w[x] >= 0.0 { NonNegative(Excess(p, q, x), s); }
    ShareOut(|p|, WeightOf(w), ExcessOf(p, q), s);
    SelfQuotient(s);
  }

  lemma NonNegative(a: real, s: real)
    requires a >= 0.0 && s > 0.0
    ensures a / s >= 0.0 && (a / s > 0.0 ==> a > 0.0)
  {
    assert (a / s) * s == a;
  }

  /** Whatever the draft proposes and however the draws fall, a pass emits only tokens to which the row they were
      decided with gives a positive probability. */
  lemma OnlyTargetTokens(a: Pass, choose: (nat, seq<real>) -> nat, size: nat, out: seq<nat>, i: nat)
    requires |a.qs| == |a.us| == |a.drafts|
    requires forall j :: 0 <= j < |a.rows| ==> IsDist(a.rows[j], size)
    requires forall j :: 0 <= j < |a.qs| ==> IsDist(a.qs[j], size)
    requires forall j :: 0 <= j < |a.drafts| ==> a.us[j] >= 0.0
    requires Draws(choose) && out != [] && |out| <= |a.drafts| + 1 && Outcome(a, choose, out) && i < |out|
    ensures Decisive(a, i).Some? && W(Decisive(a, i).value, out[i]) > 0.0
  {
    var j := |out| - 1;
    if i < j {
      assert out[i] == out[..j][i] == a.drafts[i];
      assert Accepts(a, i);
      AcceptedIsPossible(RowRead(a, i).value, a.qs[i], a.drafts[i]);
    } else if j < |a.drafts| {
      ReplacedIsPossible(RowRead(a, j).value, a.qs[j], size, choose, j, out[j]);
    } else {
      assert IsDist(RowRead(a, a.k).value, size);
    }
  }

  /** After a non-empty text and for k not negative, every token emitted is one the target could have come to itself. */
  lemma TargetCouldHave(a: Pass, target: seq<nat> -> Dist, tokens: seq<nat>, choose: (nat, seq<real>) -> nat, size: nat,
                        out: seq<nat>, i: nat)
    requires ReadsFrom(a, target, tokens) && tokens != [] && a.k >= 0
    requires forall c: seq<nat> :: IsDist(target(c), size)
    requires |a.qs| == |a.us| == |a.drafts|
    requires forall j :: 0 <= j < |a.qs| ==> IsDist(a.qs[j], size)
    requires forall j :: 0 <= j < |a.drafts| ==> a.us[j] >= 0.0
    requires Draws(choose) && out != [] && |out| <= |a.drafts| + 1 && Outcome(a, choose, out) && i < |out|
    ensures W(target(tokens + out[..i]), out[i]) > 0.0
  {
    OnlyTargetTokens(a, choose, size, out, i);
    DecisiveIs(a, target, tokens, choose, out, i);
  }

  lemma AcceptedIsPossible(p: Dist, q: Dist, t: nat)
    requires Accept(p, q, t) > 0.0
    ensures W(p, t) > 0.0
  {
    var m := Max(W(q, t), FLOOR);
    assert (W(p, t) / m) * m == W(p, t);
  }

  lemma ReplacedIsPossible(p: Dist, q: Dist, size: nat, choose: (nat, seq<real>) -> nat, j: nat, x: nat)
    requires IsDist(p, size) && IsDist(q, size) && Draws(choose)
    requires Replaces(p, q, choose, j, x)
    ensures W(p, x) > 0.0
  {
    if Residual(p, q) > 0.0 {
      WeightsAreDist(p, q);
      NonNegative(Excess(p, q, x), Residual(p, q));
    } else {
      SomePositive(p, size);
    }
  }

  lemma SomePositive(p: Dist, size: nat)
    requires IsDist(p, size) && size > 0
    ensures p[FirstMax(p)] > 0.0
  {
    if p[FirstMax(p)] <= 0.0 {
      forall t: nat | t < size ensures WeightOf(p)(t) == ZeroOf()(t) {}
      TotalSame(size, WeightOf(p), ZeroOf());
      TotalZero(size);
    }
  }
}
