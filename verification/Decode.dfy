/** The decode loop: fused log-probabilities, the grammar mask, greedy or sampled choice, and when it stops.
    Logits are reals, a masked logit is minus infinity; softmax and its normaliser are parameters. */
module Decode {
  import opened Counting
  import opened Options
  import opened RealProducts
  import opened TokenFsas

  datatype Logit = NegInf | Fin(v: real)

  predicate Less(x: Logit, y: Logit) {
    match (x, y)
    case (NegInf, Fin(_)) => true
    case (Fin(a), Fin(b)) => a < b
    case _ => false
  }

  /** i is the first position of the largest logit, as numpy's argmax picks it. */
  ghost predicate IsArgMax(x: seq<Logit>, i: int) {
    && 0 <= i < |x|
    && (forall j :: 0 <= j < |x| ==> !Less(x[i], x[j]))
    && (forall j :: 0 <= j < i ==> Less(x[j], x[i]))
  }

  method ArgMax(x: seq<Logit>) returns (i: nat)
    requires |x| > 0
    ensures IsArgMax(x, i)
  {
    i := 0;
    for k := 1 to |x|
      invariant i < k
      invariant forall j :: 0 <= j < k ==> !Less(x[i], x[j])
      invariant forall j :: 0 <= j < i ==> Less(x[j], x[i])
    {
      if Less(x[i], x[k]) { i := k; }
    }
  }

  lemma ArgMaxFirst(x: seq<Logit>, i: int, j: int)
    requires IsArgMax(x, i) && 0 <= j < |x| && !Less(x[j], x[i])
    ensures i <= j
  {}

  lemma ArgMaxUnique(x: seq<Logit>, i: int, j: int)
    requires IsArgMax(x, i) && IsArgMax(x, j)
    ensures i == j
  {
    assert !Less(x[i], x[j]) && !Less(x[j], x[i]);
    ArgMaxFirst(x, i, j);
    ArgMaxFirst(x, j, i);
  }

  function Finite(x: seq<real>): (r: seq<Logit>)
    ensures |r| == |x| && forall i :: 0 <= i < |x| ==> r[i] == Fin(x[i])
  {
    seq(|x|, i requires 0 <= i < |x| => Fin(x[i]))
  }

  /** Two finite rows that differ by a positive factor and one constant have the same argmax. */
  lemma ArgMaxShift(x: seq<real>, y: seq<real>, c: real, i: int)
    requires |x| == |y| && forall j :: 0 <= j < |x| ==> y[j] == x[j] - c
    ensures IsArgMax(Finite(x), i) <==> IsArgMax(Finite(y), i)
  {
    forall j, k | 0 <= j < |x| && 0 <= k < |x|
      ensures Less(Finite(x)[j], Finite(x)[k]) <==> Less(Finite(y)[j], Finite(y)[k])
    {}
  }

  // --- product of experts in log space -----------------------------------------------------

  /** The normaliser of a row of logits (log of the sum of exponentials). */
  type Normaliser = seq<real> -> real

  predicate Rows(logits: seq<seq<real>>, width: nat) {
    forall k :: 0 <= k < |logits| ==> |logits[k]| == width
  }

  /** The weighted sum of column i over the first n rows. */
  function WeightedColumn(logits: seq<seq<real>>, weights: seq<real>, i: nat, n: nat): real
    requires n <= |logits| && n <= |weights|
    requires forall k :: 0 <= k < n ==> i < |logits[k]|
  {
    if n == 0 then 0.0
    else WeightedColumn(logits, weights, i, n - 1) + weights[n - 1] * logits[n - 1][i]
  }

  /** The weights given, or all ones when none are. */
  function Weights(weights: Option<seq<real>>, n: nat): (ws: seq<real>)
    ensures weights == None || weights == Some([]) ==> |ws| == n && forall k :: 0 <= k < n ==> ws[k] == 1.0
    ensures weights.Some? && weights.value != [] ==> ws == weights.value
  {
    match weights
    case Some(ws) => if ws == [] then seq(n, _ => 1.0) else ws
    case None => seq(n, _ => 1.0)
  }

  /** The rows zip keeps: as many as there are both logits and weights. */
  function Used(logits: seq<seq<real>>, weights: Option<seq<real>>): nat {
    var ws := Weights(weights, |logits|);
    if |ws| < |logits| then |ws| else |logits|
  }

  /** Subtracting one constant from a whole row. */
  function Shifted(x: seq<real>, c: real): (r: seq<real>)
    ensures |r| == |x| && forall i :: 0 <= i < |x| ==> r[i] == x[i] - c
  {
    seq(|x|, i requires 0 <= i < |x| => x[i] - c)
  }

  /** The normaliser moves with its row, as the log of a sum of exponentials does. */
  ghost predicate Moves(lse: Normaliser) {
    forall x: seq<real>, c: real :: lse(Shifted(x, c)) == lse(x) - c
  }

  /** Every fused value is the weighted sum of the raw logits less one constant common to the row. */
  ghost predicate IsFused(logits: seq<seq<real>>, weights: Option<seq<real>>, width: nat, fused: seq<real>, c: real)
    requires Rows(logits, width)
  {
    && |fused| == width
    && forall i :: 0 <= i < width ==>
         fused[i] == WeightedColumn(logits, Weights(weights, |logits|), i, Used(logits, weights)) - c
  }

  /** Normalising each row and the sum only shifts the whole row: the weighted sum of logits decides the order, and the
      result is normalised. */
  method FuseLogprobs(lse: Normaliser, logits: seq<seq<real>>, weights: Option<seq<real>>, width: nat)
    returns (fused: seq<real>, ghost c: real)
    requires |logits| > 0 && Rows(logits, width)
    ensures IsFused(logits, weights, width, fused, c)
    ensures Moves(lse) ==> lse(fused) == 0.0
  {
    var ws := Weights(weights, |logits|);
    fused := seq(width, _ => 0.0);
    c := 0.0;
    for k := 0 to Used(logits, weights)
      invariant |fused| == width
      invariant forall i :: 0 <= i < width ==> fused[i] == WeightedColumn(logits, ws, i, k) - c
    {
      var z := lse(logits[k]);
      ghost var before := fused;
      fused := seq(width, i requires 0 <= i < width => fused[i] + ws[k] * (logits[k][i] - z));
      forall i | 0 <= i < width ensures fused[i] == WeightedColumn(logits, ws, i, k + 1) - (c + ws[k] * z) {
        assert fused[i] == before[i] + (ws[k] * logits[k][i] - ws[k] * z);
      }
      c := c + ws[k] * z;
    }
    var total := lse(fused);
    fused := Shifted(fused, total);
    c := c + total;
  }

  /** With one provider and no weights, fusing keeps the argmax of the raw logits. */
  lemma FuseOneKeepsArgMax(logits: seq<real>, fused: seq<real>, c: real, i: int)
    requires IsFused([logits], None, |logits|, fused, c)
    ensures IsArgMax(Finite(fused), i) <==> IsArgMax(Finite(logits), i)
  {
    forall j | 0 <= j < |logits| ensures fused[j] == logits[j] - c {
      assert WeightedColumn([logits], Weights(None, 1), j, 1) ==
             WeightedColumn([logits], Weights(None, 1), j, 0) + 1.0 * logits[j];
    }
    ArgMaxShift(logits, fused, c, i);
  }

  // --- nucleus filter --------------------------------------------------------------------------

  function Sum(x: seq<real>): real {
    if x == [] then 0.0 else Sum(x[..|x| - 1]) + x[|x| - 1]
  }

  lemma {:induction false} SumNonNegative(x: seq<real>)
    requires forall i :: 0 <= i < |x| ==> x[i] >= 0.0
    ensures Sum(x) >= 0.0 && forall i :: 0 <= i < |x| ==> x[i] <= Sum(x)
  {
    if x != [] {
      SumNonNegative(x[..|x| - 1]);
      forall i | 0 <= i < |x| ensures x[i] <= Sum(x) {
        if i < |x| - 1 { assert x[..|x| - 1][i] == x[i]; }
      }
    }
  }

  lemma {:induction false} SumScale(x: seq<real>, y: seq<real>, s: real)
    requires |x| == |y| && s != 0.0 && forall i :: 0 <= i < |x| ==> y[i] == x[i] / s
    ensures Sum(y) == Sum(x) / s
  {
    if x != [] {
      SumScale(x[..|x| - 1], y[..|y| - 1], s);
      var a, b := Sum(x[..|x| - 1]), x[|x| - 1];
      assert a / s + b / s == (a + b) / s;
    }
  }

  /** order lists every position once, by falling probability. */
  ghost predicate Ranking(probs: seq<real>, order: seq<nat>) {
    && |order| == |probs|
    && (forall k :: 0 <= k < |order| ==> order[k] < |probs|)
    && Distinct(order)
    && (forall k, l :: 0 <= k < l < |order| ==> probs[order[k]] >= probs[order[l]])
  }

  /** The total probability of the first n ranks. */
  function Cumulative(probs: seq<real>, order: seq<nat>, n: nat): real
    requires n <= |order| && forall k :: 0 <= k < |order| ==> order[k] < |probs|
  {
    if n == 0 then 0.0 else Cumulative(probs, order, n - 1) + probs[order[n - 1]]
  }

  /** Rank k survives the filter. */
  predicate KeepsRank(probs: seq<real>, order: seq<nat>, topP: real, k: nat)
    requires k < |order| && forall l :: 0 <= l < |order| ==> order[l] < |probs|
  {
    k == 0 || Cumulative(probs, order, k + 1) <= topP
  }

  /** out holds the surviving probabilities among the first n ranks and zero elsewhere. */
  ghost predicate Kept(probs: seq<real>, order: seq<nat>, topP: real, n: nat, out: seq<real>)
    requires Ranking(probs, order)
  {
    && |out| == |probs| && n <= |order|
    && (forall i :: 0 <= i < |probs| ==> out[i] == 0.0 || out[i] == probs[i])
    && (forall l :: 0 <= l < |order| ==>
          out[order[l]] == if l < n && KeepsRank(probs, order, topP, l) then probs[order[l]] else 0.0)
  }

  lemma KeptStep(probs: seq<real>, order: seq<nat>, topP: real, n: nat, out: seq<real>)
    requires Ranking(probs, order) && Kept(probs, order, topP, n, out) && n < |order|
    ensures Kept(probs, order, topP, n + 1,
                 if KeepsRank(probs, order, topP, n) then out[order[n] := probs[order[n]]] else out)
  {
    forall l | 0 <= l < |order| && l != n ensures order[l] != order[n] {}
  }

  /** out holds the surviving probabilities divided by s, and zero elsewhere. */
  ghost predicate ScaledBy(probs: seq<real>, order: seq<nat>, topP: real, out: seq<real>, s: real)
    requires Ranking(probs, order)
  {
    && |out| == |probs| && s > 0.0
    && forall k :: 0 <= k < |order| ==>
         out[order[k]] == if KeepsRank(probs, order, topP, k) then probs[order[k]] / s else 0.0
  }

  /** The filtered row: everything with top_p at least one, else the surviving ranks renormalised. */
  ghost predicate Filtered(probs: seq<real>, order: seq<nat>, topP: real, out: seq<real>)
    requires Ranking(probs, order)
  {
    if topP >= 1.0 then out == probs
    else Sum(out) == 1.0 && exists s: real :: ScaledBy(probs, order, topP, out, s)
  }

  /** The filter keeps the top rank and every rank whose cumulative probability is within top_p, renormalised;
      nothing outside the support enters, and the top token always stays. */
  method TopPFilter(probs: seq<real>, topP: real, order: seq<nat>) returns (out: seq<real>)
    requires |probs| > 0 && Ranking(probs, order)
    requires forall i :: 0 <= i < |probs| ==> probs[i] >= 0.0
    ensures |out| == |probs|
    ensures topP >= 1.0 ==> out == probs
    ensures forall i :: 0 <= i < |probs| ==> out[i] >= 0.0 && (out[i] > 0.0 ==> probs[i] > 0.0)
    ensures probs[order[0]] > 0.0 ==> out[order[0]] > 0.0 && Filtered(probs, order, topP, out)
    ensures topP < 1.0 && probs[order[0]] > 0.0 ==>
              forall k :: 0 <= k < |order| && probs[order[k]] > 0.0 ==>
                (out[order[k]] > 0.0 <==> KeepsRank(probs, order, topP, k))
  {
    if topP >= 1.0 { return probs; }
    out := seq(|probs|, _ => 0.0);
    var cum := 0.0;
    for k := 0 to |order|
      invariant Kept(probs, order, topP, k, out) && cum == Cumulative(probs, order, k)
    {
      KeptStep(probs, order, topP, k, out);
      cum := cum + probs[order[k]];
      if k == 0 || cum <= topP {
        out := out[order[k] := probs[order[k]]];
      }
    }
    out := Renormalise(probs, order, topP, out);
  }

  /** Divides the surviving probabilities by their sum, or falls back to all of them when that is zero. */
  method Renormalise(probs: seq<real>, order: seq<nat>, topP: real, kept: seq<real>) returns (out: seq<real>)
    requires |probs| > 0 && Ranking(probs, order) && Kept(probs, order, topP, |order|, kept)
    requires forall i :: 0 <= i < |probs| ==> probs[i] >= 0.0
    ensures |out| == |probs|
    ensures forall i :: 0 <= i < |probs| ==> out[i] >= 0.0 && (out[i] > 0.0 ==> probs[i] > 0.0)
    ensures probs[order[0]] > 0.0 ==>
              out[order[0]] > 0.0 && Sum(out) == 1.0 && exists s: real :: ScaledBy(probs, order, topP, out, s)
    ensures probs[order[0]] > 0.0 ==> forall k :: 0 <= k < |order| && probs[order[k]] > 0.0 ==>
              (out[order[k]] > 0.0 <==> KeepsRank(probs, order, topP, k))
  {
    SumNonNegative(kept);
    assert kept[order[0]] == probs[order[0]];
    if Sum(kept) > 0.0 {
      out := Normalised(kept);
      assert ScaledBy(probs, order, topP, out, Sum(kept)) by { Quotients(probs, order, topP, kept, out, Sum(kept)); }
    } else {
      out := probs;
    }
  }

  lemma Quotients(probs: seq<real>, order: seq<nat>, topP: real, kept: seq<real>, out: seq<real>, s: real)
    requires |probs| > 0 && Ranking(probs, order) && Kept(probs, order, topP, |order|, kept)
    requires s > 0.0 && |out| == |kept| && forall i :: 0 <= i < |kept| ==> out[i] == kept[i] / s
    ensures ScaledBy(probs, order, topP, out, s)
  {}

  function Normalised(x: seq<real>): (y: seq<real>)
    requires Sum(x) > 0.0
    ensures |y| == |x| && Sum(y) == 1.0
    ensures forall i :: 0 <= i < |x| ==> (y[i] > 0.0 <==> x[i] > 0.0) && (y[i] >= 0.0 <==> x[i] >= 0.0)
  {
    var s := Sum(x);
    var y := seq(|x|, i requires 0 <= i < |x| => x[i] / s);
    SumScale(x, y, s);
    QuotientSigns(x, y, s);
    SelfQuotient(s);
    y
  }

  lemma QuotientSigns(x: seq<real>, y: seq<real>, s: real)
    requires |x| == |y| && s > 0.0 && forall i :: 0 <= i < |x| ==> y[i] == x[i] / s
    ensures forall i :: 0 <= i < |x| ==> (y[i] > 0.0 <==> x[i] > 0.0) && (y[i] >= 0.0 <==> x[i] >= 0.0)
  {
    forall i | 0 <= i < |x| ensures (y[i] > 0.0 <==> x[i] > 0.0) && (y[i] >= 0.0 <==> x[i] >= 0.0) {
      assert y[i] * s == x[i];
      if y[i] > 0.0 { assert y[i] * s > 0.0; }
      if y[i] < 0.0 { assert y[i] * s < 0.0; }
    }
  }

  // --- the loop ----------------------------------------------------------------------------------

  /** A model: next-token logits, one finite value per vocabulary entry. */
  type Provider = seq<int> -> seq<real>

  /** How a sampled token is drawn: the softmax of a row at the given temperature, a ranking of the result, and the
      generator, which draws the given step's token from a row of probabilities. */
  datatype Sampler = Sampler(softmax: seq<Logit> -> seq<real>, topP: real, rank: seq<real> -> seq<nat>,
                             draw: (nat, seq<real>) -> nat)

  /** Some logit of the row is finite. */
  ghost predicate Live(x: seq<Logit>) {
    exists i :: 0 <= i < |x| && x[i].Fin?
  }

  ghost predicate SoftmaxOk(x: seq<Logit>, p: seq<real>) {
    && |p| == |x|
    && (forall i :: 0 <= i < |x| ==> p[i] >= 0.0 && (p[i] > 0.0 <==> x[i].Fin?))
    && (Live(x) ==> Sum(p) == 1.0)
  }

  ghost predicate IsLaw(p: seq<real>) {
    Sum(p) == 1.0 && forall i :: 0 <= i < |p| ==> p[i] >= 0.0
  }

  ghost predicate SamplerOk(s: Sampler) {
    && (forall x: seq<Logit> :: SoftmaxOk(x, s.softmax(x)))
    && (forall p: seq<real> :: Ranking(p, s.rank(p)))
    && (forall k: nat, p: seq<real> :: IsLaw(p) ==> s.draw(k, p) < |p| && p[s.draw(k, p)] > 0.0)
  }

  datatype Choice = Greedy | Sampled(sampler: Sampler)

  ghost predicate ProvidersOk(provs: seq<Provider>, vocabSize: nat) {
    forall k, ts :: 0 <= k < |provs| ==> |provs[k](ts)| == vocabSize
  }

  /** The rows the providers give for the tokens so far. */
  function AllLogits(provs: seq<Provider>, ts: seq<int>): (rows: seq<seq<real>>)
    ensures |rows| == |provs| && forall k :: 0 <= k < |provs| ==> rows[k] == provs[k](ts)
  {
    seq(|provs|, k requires 0 <= k < |provs| => provs[k](ts))
  }

  /** The mask leaves the allowed tokens as they are and makes every other one minus infinity. */
  function Masked(fused: seq<real>, allowed: seq<int>): (x: seq<Logit>)
    ensures |x| == |fused|
    ensures forall i :: 0 <= i < |fused| ==> x[i] == if i in allowed then Fin(fused[i]) else NegInf
  {
    seq(|fused|, i requires 0 <= i < |fused| => if i in allowed then Fin(fused[i]) else NegInf)
  }

  /** Why the loop ended. */
  datatype Stop = Limit | DeadEnd | EndToken | Terminal

  /** t is what the choice takes from the row x at step k: the first argmax, or the generator's draw from the filtered
      softmax. */
  ghost predicate Picks(choice: Choice, x: seq<Logit>, k: nat, t: int)
    requires choice.Sampled? ==> SamplerOk(choice.sampler)
  {
    match choice
    case Greedy => IsArgMax(x, t)
    case Sampled(s) =>
      exists law: seq<real> ::
        IsLaw(law) && Filtered(s.softmax(x), s.rank(s.softmax(x)), s.topP, law) && t == s.draw(k, law)
  }

  /** Picks one token from a row: never a masked one. */
  method Pick(x: seq<Logit>, choice: Choice, k: nat) returns (t: nat)
    requires Live(x) && (choice.Sampled? ==> SamplerOk(choice.sampler))
    ensures t < |x| && x[t].Fin? && Picks(choice, x, k, t)
  {
    match choice
    case Greedy =>
      t := ArgMax(x);
    case Sampled(s) =>
      var probs := s.softmax(x);
      assert SoftmaxOk(x, probs);
      var order := s.rank(probs);
      ghost var i :| 0 <= i < |x| && x[i].Fin?;
      TopIsPositive(probs, order, i);
      var law := TopPFilter(probs, s.topP, order);
      assert IsLaw(law);
      t := s.draw(k, law);
  }

  lemma TopIsPositive(probs: seq<real>, order: seq<nat>, i: nat)
    requires Ranking(probs, order) && i < |probs| && probs[i] > 0.0
    ensures |order| > 0 && probs[order[0]] > 0.0
  {
    DistinctBelow(order, |probs|, i);
    var k :| 0 <= k < |order| && order[k] == i;
  }

  ghost predicate GrammarOk(grammar: Option<TokenFsa>, vocabSize: nat) {
    grammar.Some? ==>
      grammar.value.Valid() && forall q: nat, t: int :: (q, t) in grammar.value.transitions ==> 0 <= t < vocabSize
  }

  /** The loop is in grammar state q after out. */
  ghost predicate InState(grammar: Option<TokenFsa>, out: seq<int>, q: nat) {
    grammar.Some? ==> grammar.value.Run(grammar.value.start, out) == Some(q)
  }

  /** What stands when the loop has produced out and is in grammar state q. */
  ghost predicate Progress(grammar: Option<TokenFsa>, eos: Option<int>, out: seq<int>, q: nat) {
    && InState(grammar, out, q)
    && (forall k :: 0 <= k < |out| - 1 ==> eos != Some(out[k]))
  }

  /** The row a token is picked from: the fused row, masked in grammar state q. */
  function RowIn(grammar: Option<TokenFsa>, q: nat, fused: seq<real>): (x: seq<Logit>)
    ensures |x| == |fused|
  {
    if grammar.Some? then Masked(fused, grammar.value.Allowed(q)) else Finite(fused)
  }

  /** t is picked at step k from the fused row for the tokens so far, masked in grammar state q. */
  ghost predicate PickedAt(provs: seq<Provider>, tokens: seq<int>, weights: Option<seq<real>>, vocabSize: nat,
                           grammar: Option<TokenFsa>, choice: Choice, q: nat, k: nat, t: int, fused: seq<real>, c: real)
    requires ProvidersOk(provs, vocabSize) && (choice.Sampled? ==> SamplerOk(choice.sampler))
  {
    IsFused(AllLogits(provs, tokens), weights, vocabSize, fused, c) && Picks(choice, RowIn(grammar, q, fused), k, t)
  }

  /** Token k of out is picked from the fused row for everything before it, masked in the grammar state everything
      before it leads to. */
  ghost predicate ChosenStep(provs: seq<Provider>, prompt: seq<int>, weights: Option<seq<real>>, vocabSize: nat,
                             grammar: Option<TokenFsa>, choice: Choice, out: seq<int>, k: nat)
    requires k < |out| && ProvidersOk(provs, vocabSize) && (choice.Sampled? ==> SamplerOk(choice.sampler))
  {
    exists q: nat, fused: seq<real>, c: real ::
      InState(grammar, out[..k], q)
      && PickedAt(provs, prompt + out[..k], weights, vocabSize, grammar, choice, q, k, out[k], fused, c)
  }

  ghost predicate Chosen(provs: seq<Provider>, prompt: seq<int>, weights: Option<seq<real>>, vocabSize: nat,
                         grammar: Option<TokenFsa>, choice: Choice, out: seq<int>)
    requires ProvidersOk(provs, vocabSize) && (choice.Sampled? ==> SamplerOk(choice.sampler))
  {
    forall k :: 0 <= k < |out| ==> ChosenStep(provs, prompt, weights, vocabSize, grammar, choice, out, k)
  }

  lemma ChosenSnoc(provs: seq<Provider>, prompt: seq<int>, weights: Option<seq<real>>, vocabSize: nat,
                   grammar: Option<TokenFsa>, choice: Choice, out: seq<int>, q: nat, t: int, fused: seq<real>, c: real)
    requires ProvidersOk(provs, vocabSize) && (choice.Sampled? ==> SamplerOk(choice.sampler))
    requires Chosen(provs, prompt, weights, vocabSize, grammar, choice, out) && InState(grammar, out, q)
    requires PickedAt(provs, prompt + out, weights, vocabSize, grammar, choice, q, |out|, t, fused, c)
    ensures Chosen(provs, prompt, weights, vocabSize, grammar, choice, out + [t])
  {
    var all := out + [t];
    forall k | 0 <= k < |all| ensures ChosenStep(provs, prompt, weights, vocabSize, grammar, choice, all, k) {
      if k < |out| {
        assert all[..k] == out[..k] && all[k] == out[k];
        assert ChosenStep(provs, prompt, weights, vocabSize, grammar, choice, out, k);
      } else {
        assert all[..k] == out && all[k] == t;
        assert PickedAt(provs, prompt + all[..k], weights, vocabSize, grammar, choice, q, k, all[k], fused, c);
      }
    }
  }

  lemma AllowedInRange(grammar: Option<TokenFsa>, vocabSize: nat, q: nat)
    requires grammar.Some? && GrammarOk(grammar, vocabSize)
    ensures forall t :: t in grammar.value.Allowed(q) ==>
              0 <= t < vocabSize && grammar.value.Advance(q, t).Some?
    ensures grammar.value.Allowed(q) != [] ==> grammar.value.Allowed(q)[0] in grammar.value.Allowed(q)
  {
    assert ListsOf(grammar.value.transitions, q, grammar.value.Allowed(q));
  }

  /** No token is allowed in state q. */
  predicate Stuck(grammar: Option<TokenFsa>, q: nat) {
    grammar.Some? && grammar.value.Allowed(q) == []
  }

  lemma RowIsLive(grammar: Option<TokenFsa>, vocabSize: nat, q: nat, fused: seq<real>)
    requires GrammarOk(grammar, vocabSize) && |fused| == vocabSize > 0 && !Stuck(grammar, q)
    ensures Live(RowIn(grammar, q, fused))
    ensures forall t: nat :: t < vocabSize && RowIn(grammar, q, fused)[t].Fin? && grammar.Some? ==>
              grammar.value.Advance(q, t).Some?
  {
    var row := RowIn(grammar, q, fused);
    if grammar.Some? {
      AllowedInRange(grammar, vocabSize, q);
      assert row[grammar.value.Allowed(q)[0]].Fin?;
    } else {
      assert row[0].Fin?;
    }
  }

  /** One turn of the loop: the next token, unless the grammar allows none. */
  method NextToken(provs: seq<Provider>, vocabSize: nat, tokens: seq<int>, weights: Option<seq<real>>,
                   grammar: Option<TokenFsa>, choice: Choice, lse: Normaliser, q: nat, k: nat)
    returns (t: Option<nat>, ghost fused: seq<real>, ghost c: real)
    requires |provs| > 0 && vocabSize > 0 && ProvidersOk(provs, vocabSize)
    requires GrammarOk(grammar, vocabSize) && (choice.Sampled? ==> SamplerOk(choice.sampler))
    ensures t.None? <==> Stuck(grammar, q)
    ensures t.Some? ==> PickedAt(provs, tokens, weights, vocabSize, grammar, choice, q, k, t.value, fused, c)
    ensures t.Some? && grammar.Some? ==> grammar.value.Advance(q, t.value).Some?
  {
    var row;
    row, c := FuseLogprobs(lse, AllLogits(provs, tokens), weights, vocabSize);
    fused := row;
    if Stuck(grammar, q) { return None, fused, c; }
    RowIsLive(grammar, vocabSize, q, row);
    var nxt := Pick(RowIn(grammar, q, row), choice, k);
    t := Some(nxt);
  }

  method DecodeLoop(provs: seq<Provider>, vocabSize: nat, prompt: seq<int>, maxNewTokens: int, eos: Option<int>,
                    weights: Option<seq<real>>, grammar: Option<TokenFsa>, choice: Choice, lse: Normaliser)
    returns (out: seq<int>, ghost stop: Stop, ghost state: nat)
    requires |provs| > 0 && vocabSize > 0 && ProvidersOk(provs, vocabSize)
    requires GrammarOk(grammar, vocabSize) && (choice.Sampled? ==> SamplerOk(choice.sampler))
    ensures Progress(grammar, eos, out, state)
    ensures |out| <= (if maxNewTokens < 0 then 0 else maxNewTokens)
    ensures stop == Limit ==> |out| == (if maxNewTokens < 0 then 0 else maxNewTokens)
    ensures stop == EndToken <==> out != [] && eos == Some(out[|out| - 1])
    ensures stop == DeadEnd ==> Stuck(grammar, state)
    ensures stop == Terminal ==> Stuck(grammar, state) && grammar.value.IsAccepting(state)
    ensures Chosen(provs, prompt, weights, vocabSize, grammar, choice, out)
  {
    out := [];
    var tokens := prompt;
    var q := if grammar.Some? then grammar.value.start else 0;
    state := q;
    while |out| < maxNewTokens
      invariant tokens == prompt + out && (|out| == 0 || |out| <= maxNewTokens) && state == q
      invariant Progress(grammar, eos, out, q)
      invariant out != [] ==> eos != Some(out[|out| - 1])
      invariant Chosen(provs, prompt, weights, vocabSize, grammar, choice, out)
      decreases maxNewTokens - |out|
    {
      var nxt;
      ghost var fused, c;
      nxt, fused, c := NextToken(provs, vocabSize, tokens, weights, grammar, choice, lse, q, |out|);
      if nxt.None? { return out, DeadEnd, q; }
      ChosenSnoc(provs, prompt, weights, vocabSize, grammar, choice, out, q, nxt.value, fused, c);
      assert (out + [nxt.value])[..|out|] == out;
      out, tokens := out + [nxt.value], tokens + [nxt.value];
      if grammar.Some? {
        q := grammar.value.Advance(q, nxt.value).value;
        state := q;
      }
      if eos == Some(nxt.value) { return out, EndToken, q; }
      if Stuck(grammar, q) && grammar.value.IsAccepting(q) { return out, Terminal, q; }
    }
    return out, Limit, q;
  }
}
