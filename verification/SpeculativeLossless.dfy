/** Speculative sampling as the code does it, over whole runs. */
module SpeculativeLossless {
  import opened Options
  import opened PassRows
  import opened SpeculativeSampling
  import opened SpeculativeLaw

  /** The two models as conditional distributions, and the number of drafted tokens per pass. */
  datatype Models = Models(target: seq<nat> -> Dist, draft: seq<nat> -> Dist, size: nat, k: int)

  ghost predicate ModelsOk(m: Models) {
    forall ctx: seq<nat> :: StepOk(m, ctx)
  }

  ghost predicate StepOk(m: Models, ctx: seq<nat>) {
    IsDist(m.target(ctx), m.size) && IsDist(m.draft(ctx), m.size)
  }

  function Sampler(m: Models): Scheme {
    Scheme((ctx: seq<nat>, t: nat) => W(m.target(ctx), t), (ctx: seq<nat>, t: nat) => W(m.draft(ctx), t),
           (row: seq<nat>, ctx: seq<nat>, t: nat) => Accept(m.target(row), m.draft(ctx), t),
           (row: seq<nat>, ctx: seq<nat>, t: nat) => Replace(m.target(row), m.draft(ctx), t), m.size, m.k)
  }

  lemma SamplerDrafts(m: Models)
    requires ModelsOk(m)
    ensures DraftsOk(Sampler(m))
  {
    var s := Sampler(m);
    forall ctx: seq<nat> ensures Total(s.size, DraftOf(s, ctx)) == 1.0 {
      assert StepOk(m, ctx);
      TotalSame(s.size, DraftOf(s, ctx), WeightOf(m.draft(ctx)));
    }
  }

  lemma Vanish(x: real, y: real)
    ensures x == 0.0 || y == 0.0 ==> x * y == 0.0
  {}

  lemma SamplerHits(m: Models, ctx: seq<nat>, y: nat, p: Dist, q: Dist)
    requires p == m.target(ctx) && q == m.draft(ctx) && |q| == m.size
    ensures Hit(Sampler(m), ctx, y) == Kept(p, q, y)
  {
    SameProduct(Sampler(m).draft(ctx, y), Sampler(m).accept(ctx, ctx, y), W(q, y), Accept(p, q, y));
    if y >= m.size { Vanish(W(q, y), Accept(p, q, y)); }
  }

  lemma SamplerRejects(m: Models, ctx: seq<nat>, p: Dist, q: Dist)
    requires p == m.target(ctx) && q == m.draft(ctx) && |p| == m.size
    ensures Total(m.size, RejectedOf(Sampler(m), ctx)) == Reject(p, q)
  {
    forall t: nat | t < m.size ensures RejectedOf(Sampler(m), ctx)(t) == RejectOf(p, q)(t) {
      SameProduct(DraftOf(Sampler(m), ctx)(t), 1.0 - AcceptOf(Sampler(m), ctx)(t), W(q, t), 1.0 - Accept(p, q, t));
    }
    TotalSame(m.size, RejectedOf(Sampler(m), ctx), RejectOf(p, q));
  }

  lemma SamplerMisses(m: Models, ctx: seq<nat>, y: nat, p: Dist, q: Dist)
    requires p == m.target(ctx) && q == m.draft(ctx) && |p| == m.size
    ensures Miss(Sampler(m), ctx, y) == Redrawn(p, q, y)
  {
    SamplerRejects(m, ctx, p, q);
    SameProduct(Total(m.size, RejectedOf(Sampler(m), ctx)), Sampler(m).replace(ctx, ctx, y),
                Reject(p, q), Replace(p, q, y));
  }

  /** A position of the sampler emits with the chances of SpeculativeSampling. */
  lemma SamplerEmits(m: Models, ctx: seq<nat>, y: nat)
    requires StepOk(m, ctx)
    ensures Emitted(Sampler(m), ctx, y) == Emits(m.target(ctx), m.draft(ctx), y)
  {
    SamplerHits(m, ctx, y, m.target(ctx), m.draft(ctx));
    SamplerMisses(m, ctx, y, m.target(ctx), m.draft(ctx));
  }

  /** The floor bites nowhere, or what it takes is balanced by the replacement. */
  ghost predicate FloorFine(m: Models, ctx: seq<nat>) {
    FloorNeverBites(m.target(ctx), m.draft(ctx)) || Balanced(m.target(ctx), m.draft(ctx))
  }

  /** A position is exact if and only if the law of that one position is the target's, which is when the floor is
      fine. */
  lemma SamplerIsExact(m: Models, ctx: seq<nat>)
    requires StepOk(m, ctx)
    ensures PositionExact(Sampler(m), ctx) <==> ExactLaw(m.target(ctx), m.draft(ctx))
    ensures PositionExact(Sampler(m), ctx) <==> FloorFine(m, ctx)
  {
    forall y: nat
      ensures Emitted(Sampler(m), ctx, y) == Emits(m.target(ctx), m.draft(ctx), y)
      ensures Sampler(m).target(ctx, y) == W(m.target(ctx), y)
    {
      SamplerEmits(m, ctx, y);
    }
    LawExactly(m.target(ctx), m.draft(ctx), m.size);
  }

  /** The floor is fine at every position that the loop can come to verify, within the limit. */
  ghost predicate PromptFine(m: Models, prompt: seq<nat>, maxNewTokens: int) {
    forall s: seq<nat> :: |s| < maxNewTokens && VerifiedLaw(Sampler(m), prompt, s) != 0.0 ==> FloorFine(m, prompt + s)
  }

  lemma FineIsExact(m: Models, prompt: seq<nat>, maxNewTokens: int)
    requires ModelsOk(m)
    ensures VerifiedExact(Sampler(m), prompt, maxNewTokens) <==> PromptFine(m, prompt, maxNewTokens)
  {
    forall s: seq<nat> ensures PositionExact(Sampler(m), prompt + s) <==> FloorFine(m, prompt + s) {
      assert StepOk(m, prompt + s);
      SamplerIsExact(m, prompt + s);
    }
  }

  /** On one given prompt: the speculative loop has the target's law if and only if the floor is fine after every text
      behind which the loop verifies a drafted token with any chance at all. */
  lemma SpeculativeExactly(m: Models, prompt: seq<nat>, maxNewTokens: int)
    requires ModelsOk(m) && Safe(prompt, maxNewTokens, m.k)
    ensures RunsExact(Sampler(m), prompt, maxNewTokens) <==> PromptFine(m, prompt, maxNewTokens)
  {
    var s := Sampler(m);
    SamplerDrafts(m);
    FineIsExact(m, prompt, maxNewTokens);
    if 0 < maxNewTokens && m.k < 0 {
      forall ys: seq<nat> | |ys| <= 1 ensures RunLaw(s, prompt, ys) == TargetLaw(s, prompt, ys) {
        if ys != [] { WrapsToItself(s, prompt, ys[0]); assert ys == [ys[0]]; }
      }
      forall t: seq<nat> ensures VerifiedLaw(s, prompt, t) == 0.0 { NothingVerified(s, prompt, t); }
    } else if 0 < maxNewTokens {
      PromptExactly(s, prompt, maxNewTokens);
    }
  }

  /** On all non-empty prompts at once. */
  lemma EverywhereExactly(m: Models)
    requires ModelsOk(m) && m.k >= 0
    ensures (forall prompt: seq<nat>, n: int :: prompt != [] ==> RunsExact(Sampler(m), prompt, n)) <==>
            m.k == 0 || forall ctx: seq<nat> :: ctx != [] ==> FloorFine(m, ctx)
  {
    SamplerDrafts(m);
    RunsExactly(Sampler(m));
    forall ctx: seq<nat> ensures PositionExact(Sampler(m), ctx) <==> FloorFine(m, ctx) {
      assert StepOk(m, ctx);
      SamplerIsExact(m, ctx);
    }
  }

  /** Where the floor never bites the speculative loop is lossless: the chance that its output starts with a text is the
      chance that sampling from the target alone does, for every draft and every safe call. */
  lemma SpeculativeIsTarget(m: Models, prompt: seq<nat>, maxNewTokens: int, ys: seq<nat>)
    requires ModelsOk(m) && forall c: seq<nat> :: FloorNeverBites(m.target(c), m.draft(c))
    requires Safe(prompt, maxNewTokens, m.k) && |ys| <= Length(maxNewTokens)
    ensures RunLaw(Sampler(m), prompt, ys) == TargetLaw(Sampler(m), prompt, ys)
  {
    SpeculativeExactly(m, prompt, maxNewTokens);
  }

  // --- unsafe calls ---------------------------------------------------------------------------

  /** Without a draft every token is a bonus token, read from the row the index lands on. */
  lemma Undrafted(m: Scheme, ctx: seq<nat>, y: nat, rest: seq<nat>)
    requires m.k <= 0
    ensures RunLaw(m, ctx, [y] + rest) ==
            match BonusContext(ctx, m.k)
            case None => 0.0
            case Some(row) => m.target(row, y) * RunLaw(m, ctx + [y], rest)
  {
    var ys := [y] + rest;
    assert ys[0] == y && ys[1..] == rest;
    assert DraftLaw(m, ctx, [], 0, ys) == VerifyLaw(m, ctx, [], ys);
  }

  /** A negative k as large as the prompt is long reads the right row once. */
  lemma WrapsToItself(m: Scheme, prompt: seq<nat>, y: nat)
    requires prompt != [] && m.k == -|prompt|
    ensures BonusContext(prompt, m.k) == Some(prompt)
    ensures RunLaw(m, prompt, [y]) == TargetLaw(m, prompt, [y]) == m.target(prompt, y)
  {
    assert prompt[..|prompt|] == prompt;
    assert [y] + [] == [y] && [y][1..] == [];
    Undrafted(m, prompt, y, []);
  }

  /** A target that takes token 1 after n tokens and token 0 otherwise, and a draft that always proposes token 0. */
  function OneAfter(n: nat, k: int): Models {
    Models((ctx: seq<nat>) => if |ctx| == n then [0.0, 1.0] else [1.0, 0.0], (ctx: seq<nat>) => [1.0, 0.0], 2, k)
  }

  lemma OneAfterOk(n: nat, k: int)
    ensures var m := OneAfter(n, k);
            ModelsOk(m) && forall ctx: seq<nat> :: FloorNeverBites(m.target(ctx), m.draft(ctx))
  {
    var m := OneAfter(n, k);
    TwoTokens([0.0, 1.0]);
    TwoTokens([1.0, 0.0]);
    forall ctx: seq<nat> ensures StepOk(m, ctx) && FloorNeverBites(m.target(ctx), m.draft(ctx)) {}
  }

  /** What the sampler of these two models does. */
  lemma OneAfterChances(n: nat, k: int, ctx: seq<nat>, y: nat)
    ensures Sampler(OneAfter(n, k)).target(ctx, y) == if y == (if |ctx| == n then 1 else 0) then 1.0 else 0.0
    ensures Sampler(OneAfter(n, k)).draft(ctx, y) == if y == 0 then 1.0 else 0.0
    ensures |ctx| != n ==> forall c: seq<nat> :: Sampler(OneAfter(n, k)).accept(ctx, c, 0) == 1.0
  {
    var m := OneAfter(n, k);
    CertainWeight(y);
    if |ctx| != n {
      forall c: seq<nat> ensures Sampler(m).accept(ctx, c, 0) == 1.0 {
        CertainAccepted(m.target(ctx), m.draft(c));
      }
    }
  }

  lemma CertainWeight(y: nat)
    ensures W([1.0, 0.0], y) == if y == 0 then 1.0 else 0.0
    ensures W([0.0, 1.0], y) == if y == 1 then 1.0 else 0.0
  {
    if y == 1 { assert [0.0, 1.0][y] == 1.0; }
  }

  lemma CertainAccepted(p: Dist, q: Dist)
    requires W(p, 0) == 1.0 && W(q, 0) == 1.0
    ensures Accept(p, q, 0) == 1.0
  {}

  /** A drafted token 0 that is verified against a row which takes it leaves no room for token 1. */
  lemma {:induction false} DraftWins(m: Scheme, drafted: seq<nat>, n: nat)
    requires drafted != [] && drafted[0] == 0
    requires forall row: seq<nat> :: row != [] ==> m.accept(row, [], 0) == 1.0
    ensures DraftLaw(m, [], drafted, n, [1]) == 0.0
    decreases n
  {
    if n == 0 {
      NoRoom(VerifyLaw(m, [] + [0], drafted[1..], []), StartOver(m, m.replace(drafted, [], 1), [], [1]));
    } else {
      var w, v := DraftOf(m, [] + drafted), Drafted(m, [], drafted, n - 1, [1]);
      forall t: nat | t < m.size ensures v(t) == 0.0 { DraftWins(m, drafted + [t], n - 1); }
      AllVanish(m.size, w, v);
      DraftLawIs(m, [], drafted, n, [1]);
    }
  }

  lemma NoRoom(goOn: real, startOver: real)
    ensures Position(1.0, false, goOn, startOver) == 0.0
  {}

  /** On an empty prompt the first drafted token is verified against the row behind the whole draft, so the token that
      the target is certain to start with never comes. */
  lemma EmptyPromptLosesToken(k: int)
    requires k > 0
    ensures RunLaw(Sampler(OneAfter(0, k)), [], [1]) == 0.0 && TargetLaw(Sampler(OneAfter(0, k)), [], [1]) == 1.0
  {
    var m := Sampler(OneAfter(0, k));
    var none: seq<nat> := [];
    var w, v := DraftOf(m, none + none), Drafted(m, [], [], k - 1, [1]);
    forall t: nat | t < m.size ensures w(t) == 0.0 || v(t) == 0.0 {
      assert none + none == none;
      OneAfterChances(0, k, none, t);
      if t == 0 { FirstDraftWins(k); }
    }
    AllVanish(m.size, w, v);
    DraftLawIs(m, [], [], k, [1]);
    OneAfterChances(0, k, [], 1);
    CertainToken(m, [], 1);
  }

  lemma FirstDraftWins(k: int)
    requires k > 0
    ensures Drafted(Sampler(OneAfter(0, k)), [], [], k - 1, [1])(0) == 0.0
  {
    var m := Sampler(OneAfter(0, k));
    forall row: seq<nat> | row != [] ensures m.accept(row, [], 0) == 1.0 { OneAfterChances(0, k, row, 0); }
    DraftWins(m, [] + [0], k - 1);
  }

  lemma AllVanish(n: nat, w: nat -> real, v: nat -> real)
    requires forall t: nat :: t < n ==> w(t) == 0.0 || v(t) == 0.0
    ensures Total(n, Times(w, v)) == 0.0
  {
    forall t: nat | t < n ensures Times(w, v)(t) == ZeroOf()(t) { Vanish(w(t), v(t)); }
    TotalSame(n, Times(w, v), ZeroOf());
    TotalZero(n);
  }

  lemma CertainToken(m: Scheme, ctx: seq<nat>, y: nat)
    requires m.target(ctx, y) == 1.0
    ensures TargetLaw(m, ctx, [y]) == 1.0
  {
    assert [y][1..] == [];
  }

  /** Without a draft and with another row than the prompt's, or none. */
  lemma WrongRow(prompt: seq<nat>, k: int)
    requires k <= 0 && BonusContext(prompt, k) != Some(prompt)
    ensures RunLaw(Sampler(OneAfter(|prompt|, k)), prompt, [1]) == 0.0
    ensures TargetLaw(Sampler(OneAfter(|prompt|, k)), prompt, [1]) == 1.0
  {
    var n := |prompt|;
    var m := Sampler(OneAfter(n, k));
    OneAfterChances(n, k, prompt, 1);
    CertainToken(m, prompt, 1);
    Undrafted(m, prompt, 1, []);
    assert [1] + [] == [1];
    if BonusContext(prompt, k).Some? { OtherRow(prompt, k, 1); }
  }

  lemma OtherRow(prompt: seq<nat>, k: int, y: nat)
    requires k <= 0 && BonusContext(prompt, k).Some? && BonusContext(prompt, k) != Some(prompt) && y == 1
    ensures Sampler(OneAfter(|prompt|, k)).target(BonusContext(prompt, k).value, y) == 0.0
  {
    var c := BonusContext(prompt, k).value;
    assert prompt[..|prompt|] == prompt;
    OneAfterChances(|prompt|, k, c, y);
  }

  /** The second token of a run whose index wrapped to the right row once. */
  lemma WrongSecondRow(prompt: seq<nat>, k: int, x: nat)
    requires prompt != [] && k == -|prompt| && x == (if |prompt| == 1 then 1 else 0)
    ensures RunLaw(Sampler(OneAfter(1, k)), prompt, [x, 1]) == 1.0
    ensures TargetLaw(Sampler(OneAfter(1, k)), prompt, [x, 1]) == 0.0
  {
    var m, next := Sampler(OneAfter(1, k)), prompt + [x];
    assert [x] + [1] == [x, 1] && [1] + [] == [1] && [x, 1][1..] == [1];
    WrapsToItself(m, prompt, x);
    assert BonusContext(next, k) == Some(next[..1]);
    Undrafted(m, prompt, x, [1]);
    Undrafted(m, next, 1, []);
    OneAfterChances(1, k, prompt, x);
    OneAfterChances(1, k, next[..1], 1);
    OneAfterChances(1, k, next, 1);
  }

  /** For a call that is not safe there are models at which the floor bites nowhere and the law is not the target's. */
  lemma UnsafeIsWrong(prompt: seq<nat>, maxNewTokens: int, k: int) returns (m: Models)
    requires !Safe(prompt, maxNewTokens, k)
    ensures ModelsOk(m) && m.k == k && forall ctx: seq<nat> :: FloorNeverBites(m.target(ctx), m.draft(ctx))
    ensures !RunsExact(Sampler(m), prompt, maxNewTokens)
  {
    var n := if prompt != [] && k == -|prompt| then 1 else |prompt|;
    var ys := [1];
    m := OneAfter(n, k);
    OneAfterOk(n, k);
    if prompt == [] && k > 0 {
      EmptyPromptLosesToken(k);
    } else if prompt != [] && k == -|prompt| {
      ys := [if |prompt| == 1 then 1 else 0, 1];
      WrongSecondRow(prompt, k, ys[0]);
    } else {
      WrongRow(prompt, k);
    }
    assert |ys| <= Length(maxNewTokens) && RunLaw(Sampler(m), prompt, ys) != TargetLaw(Sampler(m), prompt, ys);
  }

  /** Prompt, k and floor together.  For a safe call the loop has the target's law if and only if the floor is fine at
      every position it can come to verify; a call is safe if and only if that holds of all models. */
  lemma SampledRightExactly(prompt: seq<nat>, maxNewTokens: int, k: int)
    ensures Safe(prompt, maxNewTokens, k) <==>
            forall m: Models :: ModelsOk(m) && m.k == k ==>
              (RunsExact(Sampler(m), prompt, maxNewTokens) <==> PromptFine(m, prompt, maxNewTokens))
  {
    if Safe(prompt, maxNewTokens, k) {
      forall m: Models | ModelsOk(m) && m.k == k
        ensures RunsExact(Sampler(m), prompt, maxNewTokens) <==> PromptFine(m, prompt, maxNewTokens)
      {
        SpeculativeExactly(m, prompt, maxNewTokens);
      }
    } else {
      var m := UnsafeIsWrong(prompt, maxNewTokens, k);
      assert PromptFine(m, prompt, maxNewTokens);
    }
  }
}
