/** The law of a whole speculative run: draft k tokens, verify them left to right, correct or add a bonus token,
    and start over.  Stated for any accept/replace scheme; SpeculativeLossless supplies the sampler's own. */
module SpeculativeLaw {
  import opened Options
  import opened PassRows
  import opened SpeculativeSampling

  /** Chances conditional on the context: of the target's next token, of the drafted token, of accepting a drafted
      token, and of the replacement after a rejection.  The last two are decided with the target's row behind one text
      and the draft's behind another. */
  datatype Scheme = Scheme(target: (seq<nat>, nat) -> real, draft: (seq<nat>, nat) -> real, accept: (seq<nat>, seq<nat>,
                           nat) -> real, replace: (seq<nat>, seq<nat>, nat) -> real, size: nat, k: int)

  function DraftOf(m: Scheme, ctx: seq<nat>): nat -> real {
    (t: nat) => m.draft(ctx, t)
  }

  function AcceptOf(m: Scheme, ctx: seq<nat>): nat -> real {
    (t: nat) => m.accept(ctx, ctx, t)
  }

  /** The chance of drafting and losing each token. */
  function LostOf(w: nat -> real, c: nat -> real): nat -> real {
    (t: nat) => w(t) * (1.0 - c(t))
  }

  function RejectedOf(m: Scheme, ctx: seq<nat>): nat -> real {
    LostOf(DraftOf(m, ctx), AcceptOf(m, ctx))
  }

  /** The chance that y is drafted and accepted. */
  function Hit(m: Scheme, ctx: seq<nat>, y: nat): real {
    if y < m.size then m.draft(ctx, y) * m.accept(ctx, ctx, y) else 0.0
  }

  /** The chance that the drafted token is rejected and y replaces it. */
  function Miss(m: Scheme, ctx: seq<nat>, y: nat): real {
    Total(m.size, RejectedOf(m, ctx)) * m.replace(ctx, ctx, y)
  }

  /** The chance that a position verified against its own row emits y. */
  function Emitted(m: Scheme, ctx: seq<nat>, y: nat): real {
    Hit(m, ctx, y) + Miss(m, ctx, y)
  }

  /** The draft model's chances sum to one in every context. */
  ghost predicate DraftsOk(m: Scheme) {
    forall ctx: seq<nat> :: Total(m.size, DraftOf(m, ctx)) == 1.0
  }

  /** A position after ctx, on its own, emits with the target's chances. */
  ghost predicate PositionExact(m: Scheme, ctx: seq<nat>) {
    forall y: nat :: Emitted(m, ctx, y) == m.target(ctx, y)
  }

  /** The chance that sampling token by token from the target alone starts with ys. */
  function TargetLaw(m: Scheme, ctx: seq<nat>, ys: seq<nat>): real
    decreases |ys|
  {
    if ys == [] then 1.0 else m.target(ctx, ys[0]) * TargetLaw(m, ctx + [ys[0]], ys[1..])
  }

  /** The chance that the whole speculative loop, started after ctx, emits a text that starts with ys. */
  function RunLaw(m: Scheme, ctx: seq<nat>, ys: seq<nat>): real
    decreases |ys|, 2, 0
  {
    if ys == [] then 1.0 else DraftLaw(m, ctx, [], Length(m.k), ys)
  }

  /** The drafting phase: n more tokens are still to be drafted, each from the draft model after all before it. */
  function DraftLaw(m: Scheme, ctx: seq<nat>, drafted: seq<nat>, n: nat, ys: seq<nat>): real
    decreases |ys|, 1, n
  {
    if n == 0 then VerifyLaw(m, ctx, drafted, ys)
    else Total(m.size, (t: nat) => m.draft(ctx + drafted, t) * DraftLaw(m, ctx, drafted + [t], n - 1, ys))
  }

  /** The verification phase over the drafted tokens: accept and go on, or reject, replace and start a new pass;
      with the whole draft accepted, one bonus token from the target and then a new pass.  Each position is decided with
      the row that the pass reads for it; without a bonus row the run fails and emits nothing more. */
  function VerifyLaw(m: Scheme, ctx: seq<nat>, drafted: seq<nat>, ys: seq<nat>): real
    decreases |ys|, 0, |drafted| + 1
  {
    if ys == [] then 1.0
    else if drafted == [] then
      match BonusContext(ctx, m.k)
      case None => 0.0
      case Some(row) => StartOver(m, m.target(row, ys[0]), ctx, ys)
    else
      var row, t := VerifyContext(ctx, drafted), drafted[0];
      Position(m.accept(row, ctx, t), t == ys[0], VerifyLaw(m, ctx + [t], drafted[1..], ys[1..]),
               StartOver(m, m.replace(row, ctx, ys[0]), ctx, ys))
  }

  /** The pass ends with the first token of ys, which has the chance c, and a new pass follows. */
  function StartOver(m: Scheme, c: real, ctx: seq<nat>, ys: seq<nat>): real
    requires ys != []
    decreases |ys|, 0, 0
  {
    c * RunLaw(m, ctx + [ys[0]], ys[1..])
  }

  /** What starting over after a rejection is worth where the position reads its own row. */
  function Replaced(m: Scheme, ctx: seq<nat>, ys: seq<nat>): real
    requires ys != []
  {
    StartOver(m, m.replace(ctx, ctx, ys[0]), ctx, ys)
  }

  /** With chance c the drafted token is accepted, which only helps when it is the wanted one; otherwise it is
      replaced. */
  function Position(c: real, hit: bool, goOn: real, startOver: real): real {
    c * (if hit then goOn else 0.0) + (1.0 - c) * startOver
  }

  // --- arithmetic of finite sums ---------------------------------------------------------------

  function Times(w: nat -> real, v: nat -> real): nat -> real {
    (t: nat) => w(t) * v(t)
  }

  function Combine(e: real, x: real, d: real, y: real): real {
    e * x + d * y
  }

  ghost predicate Linear(n: nat, f: nat -> real, g: nat -> real, h: nat -> real, e: real, d: real) {
    forall t: nat :: t < n ==> f(t) == Combine(e, g(t), d, h(t))
  }

  /** Finite sums are linear. */
  lemma {:induction false} TotalLinear(n: nat, f: nat -> real, g: nat -> real, h: nat -> real, e: real, d: real)
    requires Linear(n, f, g, h, e, d)
    ensures Total(n, f) == Combine(e, Total(n, g), d, Total(n, h))
  {
    if n > 0 {
      TotalLinear(n - 1, f, g, h, e, d);
      Distribute(e, Total(n - 1, g), g(n - 1), d, Total(n - 1, h), h(n - 1));
    }
  }

  lemma Distribute(e: real, x: real, u: real, d: real, y: real, v: real)
    ensures Combine(e, x + u, d, y + v) == Combine(e, x, d, y) + Combine(e, u, d, v)
  {
    assert e * (x + u) == e * x + e * u;
    assert d * (y + v) == d * y + d * v;
  }

  /** Averaging positions that differ only in what going on is worth averages that worth. */
  lemma PositionAverage(n: nat, w: nat -> real, v: nat -> real, c: real, hit: bool, a: nat -> real, b: real)
    requires forall u: nat :: u < n ==> v(u) == Position(c, hit, a(u), b)
    requires Total(n, w) == 1.0
    ensures Total(n, Times(w, v)) == Position(c, hit, Total(n, Times(w, a)), b)
  {
    var e, d := if hit then c else 0.0, (1.0 - c) * b;
    PositionsLinear(n, w, v, c, hit, a, b, e, d);
    TotalLinear(n, Times(w, v), Times(w, a), w, e, d);
    AsPosition(c, hit, Total(n, Times(w, a)), b, e, d);
  }

  lemma PositionsLinear(n: nat, w: nat -> real, v: nat -> real, c: real, hit: bool, a: nat -> real, b: real, e: real,
                        d: real)
    requires forall u: nat :: u < n ==> v(u) == Position(c, hit, a(u), b)
    requires e == (if hit then c else 0.0) && d == (1.0 - c) * b
    ensures Linear(n, Times(w, v), Times(w, a), w, e, d)
  {
    forall u: nat | u < n ensures Times(w, v)(u) == Combine(e, Times(w, a)(u), d, w(u)) {
      WeightedPosition(w(u), v(u), c, hit, a(u), b, e, d, Times(w, v)(u), Times(w, a)(u));
    }
  }

  lemma AsPosition(c: real, hit: bool, x: real, b: real, e: real, d: real)
    requires e == (if hit then c else 0.0) && d == (1.0 - c) * b
    ensures Position(c, hit, x, b) == Combine(e, x, d, 1.0)
  {}

  lemma WeightedPosition(w: real, v: real, c: real, hit: bool, a: real, b: real, e: real, d: real,
                         wv: real, wa: real)
    requires v == Position(c, hit, a, b) && wv == w * v && wa == w * a
    requires e == (if hit then c else 0.0) && d == (1.0 - c) * b
    ensures wv == Combine(e, wa, d, w)
  {
    assert v == e * a + d;
    assert w * (e * a) == e * (w * a);
  }

  /** The chance of drafting and accepting the wanted token. */
  function HitOf(w: nat -> real, c: nat -> real, y: nat): nat -> real {
    (t: nat) => if t == y then w(t) * c(t) else 0.0
  }

  lemma {:induction false} HitTotal(n: nat, w: nat -> real, c: nat -> real, y: nat)
    ensures Total(n, HitOf(w, c, y)) == if y < n then w(y) * c(y) else 0.0
  {
    if n > 0 { HitTotal(n - 1, w, c, y); }
  }

  lemma SameProduct(a: real, b: real, c: real, d: real)
    requires a == c && b == d
    ensures a * b == c * d
  {}

  lemma HitIs(m: Scheme, ctx: seq<nat>, y: nat)
    ensures Total(m.size, HitOf(DraftOf(m, ctx), AcceptOf(m, ctx), y)) == Hit(m, ctx, y)
  {
    HitTotal(m.size, DraftOf(m, ctx), AcceptOf(m, ctx), y);
    SameProduct(DraftOf(m, ctx)(y), AcceptOf(m, ctx)(y), m.draft(ctx, y), m.accept(ctx, ctx, y));
  }

  lemma HitOrLost(w: real, v: real, c: real, hit: bool, z: real, b: real, wv: real, won: real, lost: real)
    requires v == Position(c, hit, z, b) && wv == w * v
    requires won == (if hit then w * c else 0.0) && lost == w * (1.0 - c)
    ensures wv == Combine(z, won, b, lost)
  {
    var d := 1.0 - c;
    assert w * (d * b) == b * (w * d);
    if hit { assert w * (c * z) == z * (w * c); }
  }

  // --- drafting first is deciding position by position ------------------------------------------

  /** What the drafting phase is worth once one more token t has been drafted. */
  function Drafted(m: Scheme, ctx: seq<nat>, drafted: seq<nat>, n: nat, ys: seq<nat>): nat -> real {
    (t: nat) => DraftLaw(m, ctx, drafted + [t], n, ys)
  }

  lemma DraftLawIs(m: Scheme, ctx: seq<nat>, drafted: seq<nat>, n: nat, ys: seq<nat>)
    requires n > 0
    ensures DraftLaw(m, ctx, drafted, n, ys) ==
            Total(m.size, Times(DraftOf(m, ctx + drafted), Drafted(m, ctx, drafted, n - 1, ys)))
  {
    var f := (t: nat) => m.draft(ctx + drafted, t) * DraftLaw(m, ctx, drafted + [t], n - 1, ys);
    assert DraftLaw(m, ctx, drafted, n, ys) == Total(m.size, f);
    TotalSame(m.size, f, Times(DraftOf(m, ctx + drafted), Drafted(m, ctx, drafted, n - 1, ys)));
  }

  lemma VerifyFirst(m: Scheme, ctx: seq<nat>, t: nat, rest: seq<nat>, ys: seq<nat>)
    requires ys != [] && ctx != []
    ensures VerifyLaw(m, ctx, [t] + rest, ys) ==
            Position(m.accept(ctx, ctx, t), t == ys[0], VerifyLaw(m, ctx + [t], rest, ys[1..]), Replaced(m, ctx, ys))
  {
    assert ([t] + rest)[1..] == rest;
  }

  /** A first position is decided independently of what is drafted behind it. */
  lemma {:induction false} FirstPosition(m: Scheme, ctx: seq<nat>, t: nat, rest: seq<nat>, n: nat, ys: seq<nat>,
                                         b: real)
    requires DraftsOk(m) && ctx != [] && ys != [] && b == Replaced(m, ctx, ys)
    ensures DraftLaw(m, ctx, [t] + rest, n, ys) ==
            Position(m.accept(ctx, ctx, t), t == ys[0], DraftLaw(m, ctx + [t], rest, n, ys[1..]), b)
    decreases n
  {
    if n == 0 {
      VerifyFirst(m, ctx, t, rest, ys);
    } else {
      var v, a := Drafted(m, ctx, [t] + rest, n - 1, ys), Drafted(m, ctx + [t], rest, n - 1, ys[1..]);
      var here := ctx + [t] + rest;
      assert ctx + ([t] + rest) == here;
      forall u: nat | u < m.size ensures v(u) == Position(m.accept(ctx, ctx, t), t == ys[0], a(u), b) {
        assert [t] + rest + [u] == [t] + (rest + [u]);
        FirstPosition(m, ctx, t, rest + [u], n - 1, ys, b);
      }
      PositionAverage(m.size, DraftOf(m, here), v, m.accept(ctx, ctx, t), t == ys[0], a, b);
      DraftLawIs(m, ctx, [t] + rest, n, ys);
      DraftLawIs(m, ctx + [t], rest, n, ys[1..]);
    }
  }

  lemma {:induction false} DraftNothingWanted(m: Scheme, ctx: seq<nat>, drafted: seq<nat>, n: nat)
    requires DraftsOk(m)
    ensures DraftLaw(m, ctx, drafted, n, []) == 1.0
    decreases n
  {
    if n > 0 {
      var w, v := DraftOf(m, ctx + drafted), Drafted(m, ctx, drafted, n - 1, []);
      forall t: nat | t < m.size ensures Times(w, v)(t) == w(t) {
        DraftNothingWanted(m, ctx, drafted + [t], n - 1);
      }
      TotalSame(m.size, Times(w, v), w);
      DraftLawIs(m, ctx, drafted, n, []);
    }
  }

  lemma FirstDrafted(m: Scheme, ctx: seq<nat>, n: nat, ys: seq<nat>, z: real, b: real, t: nat)
    requires DraftsOk(m) && ctx != [] && n > 0 && ys != [] && b == Replaced(m, ctx, ys)
    requires z == DraftLaw(m, ctx + [ys[0]], [], n - 1, ys[1..])
    ensures Drafted(m, ctx, [], n - 1, ys)(t) == Position(m.accept(ctx, ctx, t), t == ys[0], z, b)
  {
    assert [] + [t] == [t] + [];
    FirstPosition(m, ctx, t, [], n - 1, ys, b);
  }

  /** Shares of a pass: each drafted token's hit goes on, which is worth z, and its loss starts over, which is
      worth b. */
  lemma SharesSplit(n: nat, w: nat -> real, c: nat -> real, v: nat -> real, y: nat, z: real, b: real)
    requires forall t: nat :: t < n ==> v(t) == Position(c(t), t == y, z, b)
    ensures Linear(n, Times(w, v), HitOf(w, c, y), LostOf(w, c), z, b)
  {
    forall t: nat | t < n ensures Times(w, v)(t) == Combine(z, HitOf(w, c, y)(t), b, LostOf(w, c)(t)) {
      HitOrLost(w(t), v(t), c(t), t == y, z, b, Times(w, v)(t), HitOf(w, c, y)(t), LostOf(w, c)(t));
    }
  }

  lemma SharesTotal(n: nat, w: nat -> real, c: nat -> real, v: nat -> real, y: nat, z: real, b: real)
    requires forall t: nat :: t < n ==> v(t) == Position(c(t), t == y, z, b)
    ensures Total(n, Times(w, v)) == Combine(z, Total(n, HitOf(w, c, y)), b, Total(n, LostOf(w, c)))
  {
    SharesSplit(n, w, c, v, y, z, b);
    TotalLinear(n, Times(w, v), HitOf(w, c, y), LostOf(w, c), z, b);
  }

  lemma FirstDraft(m: Scheme, ctx: seq<nat>, n: nat, ys: seq<nat>)
    requires n > 0
    ensures Total(m.size, Times(DraftOf(m, ctx), Drafted(m, ctx, [], n - 1, ys))) == DraftLaw(m, ctx, [], n, ys)
  {
    assert ctx + [] == ctx;
    DraftLawIs(m, ctx, [], n, ys);
  }

  /** The first position of a drafting phase: hit and go on, or lose and start over. */
  lemma PassShares(m: Scheme, ctx: seq<nat>, n: nat, ys: seq<nat>, z: real, b: real)
    requires DraftsOk(m) && ctx != [] && n > 0 && ys != [] && b == Replaced(m, ctx, ys)
    requires z == DraftLaw(m, ctx + [ys[0]], [], n - 1, ys[1..])
    ensures DraftLaw(m, ctx, [], n, ys) == Combine(z, Hit(m, ctx, ys[0]), b, Total(m.size, RejectedOf(m, ctx)))
  {
    var w, c, v := DraftOf(m, ctx), AcceptOf(m, ctx), Drafted(m, ctx, [], n - 1, ys);
    forall t: nat | t < m.size ensures v(t) == Position(c(t), t == ys[0], z, b) {
      FirstDrafted(m, ctx, n, ys, z, b, t);
    }
    SharesTotal(m.size, w, c, v, ys[0], z, b);
    HitIs(m, ctx, ys[0]);
    FirstDraft(m, ctx, n, ys);
  }

  // --- the run as a walk over positions ---------------------------------------------------------

  /** The chance of ys, decided one token at a time with n drafted tokens still to be verified: a hit leaves one fewer,
      a miss or a bonus token starts a new pass.  After ys it is worth a where a drafted token is verified next, and b
      where the bonus token is. */
  function PositionLaw(m: Scheme, n: nat, ctx: seq<nat>, ys: seq<nat>, a: real, b: real): real
    decreases |ys|
  {
    if ys == [] then if n > 0 then a else b
    else
      var next, rest := ctx + [ys[0]], ys[1..];
      Combine(GoOn(m, n, ctx, ys[0]), PositionLaw(m, Length(n - 1), next, rest, a, b),
              Restart(m, n, ctx, ys[0]), PositionLaw(m, Length(m.k), next, rest, a, b))
  }

  /** The chance that the position emits y and the pass goes on. */
  function GoOn(m: Scheme, n: nat, ctx: seq<nat>, y: nat): real {
    if n > 0 then Hit(m, ctx, y) else 0.0
  }

  /** The chance that the position emits y and a new pass starts: a miss, or the bonus token. */
  function Restart(m: Scheme, n: nat, ctx: seq<nat>, y: nat): real {
    if n > 0 then Miss(m, ctx, y) else m.target(ctx, y)
  }

  lemma HitOrMiss(z: real, hit: real, b: real, rejected: real, replaced: real, run: real, miss: real)
    requires b == replaced * run && miss == rejected * replaced
    ensures Combine(z, hit, b, rejected) == Combine(hit, z, miss, run)
  {
    assert (replaced * run) * rejected == (rejected * replaced) * run;
  }

  lemma VerifiedStep(m: Scheme, ctx: seq<nat>, n: nat, ys: seq<nat>)
    requires DraftsOk(m) && ctx != [] && n > 0 && ys != []
    ensures DraftLaw(m, ctx, [], n, ys) ==
            Combine(Hit(m, ctx, ys[0]), DraftLaw(m, ctx + [ys[0]], [], n - 1, ys[1..]),
                    Miss(m, ctx, ys[0]), RunLaw(m, ctx + [ys[0]], ys[1..]))
  {
    var z, b := DraftLaw(m, ctx + [ys[0]], [], n - 1, ys[1..]), Replaced(m, ctx, ys);
    PassShares(m, ctx, n, ys, z, b);
    HitOrMiss(z, Hit(m, ctx, ys[0]), b, Total(m.size, RejectedOf(m, ctx)),
              m.replace(ctx, ctx, ys[0]), RunLaw(m, ctx + [ys[0]], ys[1..]), Miss(m, ctx, ys[0]));
  }

  lemma BonusStep(m: Scheme, ctx: seq<nat>, ys: seq<nat>)
    requires ctx != [] && m.k >= 0 && ys != []
    ensures DraftLaw(m, ctx, [], 0, ys) == StartOver(m, m.target(ctx, ys[0]), ctx, ys)
  {
    assert BonusContext(ctx, m.k) == Some(ctx);
  }

  lemma RunIsDraft(m: Scheme, ctx: seq<nat>, ys: seq<nat>)
    requires DraftsOk(m)
    ensures RunLaw(m, ctx, ys) == DraftLaw(m, ctx, [], Length(m.k), ys)
  {
    if ys == [] { DraftNothingWanted(m, ctx, [], Length(m.k)); }
  }

  /** Drafting all tokens first and then verifying them is deciding position by position. */
  lemma {:induction false} DraftIsPositions(m: Scheme, ctx: seq<nat>, n: nat, ys: seq<nat>)
    requires DraftsOk(m) && ctx != [] && m.k >= 0
    ensures DraftLaw(m, ctx, [], n, ys) == PositionLaw(m, n, ctx, ys, 1.0, 1.0)
    decreases |ys|
  {
    if ys == [] {
      DraftNothingWanted(m, ctx, [], n);
    } else {
      var next, rest := ctx + [ys[0]], ys[1..];
      DraftIsPositions(m, next, Length(m.k), rest);
      RunIsDraft(m, next, rest);
      if n == 0 {
        BonusStep(m, ctx, ys);
      } else {
        DraftIsPositions(m, next, n - 1, rest);
        VerifiedStep(m, ctx, n, ys);
      }
    }
  }

  lemma Scale(c: real, a: real, x: real, b: real, y: real)
    ensures c * Combine(a, x, b, y) == Combine(a, c * x, b, c * y)
  {
    assert c * (a * x) == a * (c * x) && c * (b * y) == b * (c * y);
  }

  lemma Exchange(h: real, s: real, a: real, x: real, u: real, b: real, y: real, v: real, p: real, q: real)
    requires p == Combine(a, x, b, y) && q == Combine(a, u, b, v)
    ensures Combine(h, p, s, q) == Combine(a, Combine(h, x, s, u), b, Combine(h, y, s, v))
  {
    Scale(h, a, x, b, y);
    Scale(s, a, u, b, v);
    Distribute(a, h * x, s * u, b, h * y, s * v);
  }

  lemma PositionLawIs(m: Scheme, n: nat, ctx: seq<nat>, ys: seq<nat>, a: real, b: real, p: real, q: real)
    requires ys != [] && p == PositionLaw(m, Length(n - 1), ctx + [ys[0]], ys[1..], a, b)
    requires q == PositionLaw(m, Length(m.k), ctx + [ys[0]], ys[1..], a, b)
    ensures PositionLaw(m, n, ctx, ys, a, b) == Combine(GoOn(m, n, ctx, ys[0]), p, Restart(m, n, ctx, ys[0]), q)
  {}

  /** The value is linear in what the two ends are worth. */
  lemma {:induction false} EndsSplit(m: Scheme, n: nat, ctx: seq<nat>, ys: seq<nat>, a: real, b: real)
    ensures PositionLaw(m, n, ctx, ys, a, b) ==
            Combine(a, PositionLaw(m, n, ctx, ys, 1.0, 0.0), b, PositionLaw(m, n, ctx, ys, 0.0, 1.0))
    decreases |ys|
  {
    if ys != [] {
      var next, rest, l, k := ctx + [ys[0]], ys[1..], Length(n - 1), Length(m.k);
      var p, q := PositionLaw(m, l, next, rest, a, b), PositionLaw(m, k, next, rest, a, b);
      var x, u := PositionLaw(m, l, next, rest, 1.0, 0.0), PositionLaw(m, k, next, rest, 1.0, 0.0);
      var y, v := PositionLaw(m, l, next, rest, 0.0, 1.0), PositionLaw(m, k, next, rest, 0.0, 1.0);
      EndsSplit(m, l, next, rest, a, b);
      EndsSplit(m, k, next, rest, a, b);
      PositionLawIs(m, n, ctx, ys, a, b, p, q);
      PositionLawIs(m, n, ctx, ys, 1.0, 0.0, x, u);
      PositionLawIs(m, n, ctx, ys, 0.0, 1.0, y, v);
      Exchange(GoOn(m, n, ctx, ys[0]), Restart(m, n, ctx, ys[0]), a, x, u, b, y, v, p, q);
    }
  }

  /** One token more: the position behind the text is a verified one or a bonus one. */
  lemma {:induction false} OneMore(m: Scheme, n: nat, ctx: seq<nat>, s: seq<nat>, y: nat)
    ensures PositionLaw(m, n, ctx, s + [y], 1.0, 1.0) ==
            PositionLaw(m, n, ctx, s, Emitted(m, ctx + s, y), m.target(ctx + s, y))
    decreases |s|
  {
    if s == [] {
      assert s + [y] == [y] && ctx + s == ctx && [y][1..] == [];
    } else {
      var next, rest := ctx + [s[0]], s[1..];
      assert (s + [y])[1..] == rest + [y];
      assert next + rest == ctx + s;
      OneMore(m, Length(m.k), next, rest, y);
      OneMore(m, Length(n - 1), next, rest, y);
    }
  }

  lemma {:induction false} TargetMore(m: Scheme, ctx: seq<nat>, s: seq<nat>, y: nat)
    ensures TargetLaw(m, ctx, s + [y]) == TargetLaw(m, ctx, s) * m.target(ctx + s, y)
    decreases |s|
  {
    if s == [] {
      assert s + [y] == [y] && ctx + s == ctx && [y][1..] == [];
    } else {
      assert (s + [y])[1..] == s[1..] + [y];
      assert ctx + [s[0]] + s[1..] == ctx + s;
      TargetMore(m, ctx + [s[0]], s[1..], y);
      Associate(m.target(ctx, s[0]), TargetLaw(m, ctx + [s[0]], s[1..]), m.target(ctx + s, y));
    }
  }

  lemma Associate(x: real, y: real, z: real)
    ensures x * (y * z) == (x * y) * z
  {}

  // --- exactly when -----------------------------------------------------------------------------

  /** The chance that the run emits s and then verifies a drafted token. */
  function VerifiedLaw(m: Scheme, ctx: seq<nat>, s: seq<nat>): real {
    PositionLaw(m, Length(m.k), ctx, s, 1.0, 0.0)
  }

  /** The chance that the run emits s and then adds a bonus token. */
  function BonusLaw(m: Scheme, ctx: seq<nat>, s: seq<nat>): real {
    PositionLaw(m, Length(m.k), ctx, s, 0.0, 1.0)
  }

  /** After s the run verifies a drafted token or adds a bonus token, and the next token comes from there. */
  lemma NextToken(m: Scheme, ctx: seq<nat>, s: seq<nat>, y: nat)
    requires DraftsOk(m) && ctx != [] && m.k >= 0
    ensures RunLaw(m, ctx, s) == VerifiedLaw(m, ctx, s) + BonusLaw(m, ctx, s)
    ensures RunLaw(m, ctx, s + [y]) ==
            Combine(Emitted(m, ctx + s, y), VerifiedLaw(m, ctx, s), m.target(ctx + s, y), BonusLaw(m, ctx, s))
  {
    var k := Length(m.k);
    DraftIsPositions(m, ctx, k, s);
    DraftIsPositions(m, ctx, k, s + [y]);
    EndsSplit(m, k, ctx, s, 1.0, 1.0);
    OneMore(m, k, ctx, s, y);
    EndsSplit(m, k, ctx, s, Emitted(m, ctx + s, y), m.target(ctx + s, y));
  }

  lemma SameNext(run: real, more: real, targetMore: real, e: real, t: real, a: real, b: real)
    requires run == a + b && more == Combine(e, a, t, b) && targetMore == run * t
    ensures more == targetMore <==> a == 0.0 || e == t
  {
    assert more - targetMore == a * (e - t);
  }

  /** Where the law agrees so far it agrees on the next token too if and only if the position is never verified or emits
      the token with the target's chance. */
  lemma AgreesOnNext(m: Scheme, ctx: seq<nat>, s: seq<nat>, y: nat)
    requires DraftsOk(m) && ctx != [] && m.k >= 0 && RunLaw(m, ctx, s) == TargetLaw(m, ctx, s)
    ensures RunLaw(m, ctx, s + [y]) == TargetLaw(m, ctx, s + [y]) <==>
            VerifiedLaw(m, ctx, s) == 0.0 || Emitted(m, ctx + s, y) == m.target(ctx + s, y)
  {
    NextToken(m, ctx, s, y);
    TargetMore(m, ctx, s, y);
    SameNext(RunLaw(m, ctx, s), RunLaw(m, ctx, s + [y]), TargetLaw(m, ctx, s + [y]), Emitted(m, ctx + s, y),
             m.target(ctx + s, y), VerifiedLaw(m, ctx, s), BonusLaw(m, ctx, s));
  }

  /** The loop on this prompt has the target's law, over the texts no longer than the limit. */
  ghost predicate RunsExact(m: Scheme, prompt: seq<nat>, maxNewTokens: int) {
    forall ys: seq<nat> :: |ys| <= Length(maxNewTokens) ==> RunLaw(m, prompt, ys) == TargetLaw(m, prompt, ys)
  }

  /** Every position that the loop can come to verify, within the limit, is exact. */
  ghost predicate VerifiedExact(m: Scheme, prompt: seq<nat>, maxNewTokens: int) {
    forall s: seq<nat> :: |s| < maxNewTokens && VerifiedLaw(m, prompt, s) != 0.0 ==> PositionExact(m, prompt + s)
  }

  lemma {:induction false} RunIsTarget(m: Scheme, prompt: seq<nat>, maxNewTokens: int, ys: seq<nat>)
    requires DraftsOk(m) && prompt != [] && m.k >= 0 && VerifiedExact(m, prompt, maxNewTokens)
    requires |ys| <= Length(maxNewTokens)
    ensures RunLaw(m, prompt, ys) == TargetLaw(m, prompt, ys)
    decreases |ys|
  {
    if ys != [] {
      var s, y := ys[..|ys| - 1], ys[|ys| - 1];
      assert ys == s + [y];
      RunIsTarget(m, prompt, maxNewTokens, s);
      AgreesOnNext(m, prompt, s, y);
      assert VerifiedLaw(m, prompt, s) != 0.0 ==> PositionExact(m, prompt + s);
    }
  }

  lemma VerifiedIsExact(m: Scheme, prompt: seq<nat>, maxNewTokens: int, s: seq<nat>, y: nat)
    requires DraftsOk(m) && prompt != [] && m.k >= 0 && RunsExact(m, prompt, maxNewTokens)
    requires |s| < maxNewTokens && VerifiedLaw(m, prompt, s) != 0.0
    ensures Emitted(m, prompt + s, y) == m.target(prompt + s, y)
  {
    assert RunLaw(m, prompt, s) == TargetLaw(m, prompt, s);
    assert RunLaw(m, prompt, s + [y]) == TargetLaw(m, prompt, s + [y]);
    AgreesOnNext(m, prompt, s, y);
  }

  /** On a non-empty prompt and for k not negative, the whole loop has the target's law if and only if every position
      that it can come to verify is exact, whatever is drafted and however many at a time. */
  lemma PromptExactly(m: Scheme, prompt: seq<nat>, maxNewTokens: int)
    requires DraftsOk(m) && prompt != [] && m.k >= 0
    ensures RunsExact(m, prompt, maxNewTokens) <==> VerifiedExact(m, prompt, maxNewTokens)
  {
    if VerifiedExact(m, prompt, maxNewTokens) {
      forall ys: seq<nat> | |ys| <= Length(maxNewTokens) ensures RunLaw(m, prompt, ys) == TargetLaw(m, prompt, ys) {
        RunIsTarget(m, prompt, maxNewTokens, ys);
      }
    }
    if RunsExact(m, prompt, maxNewTokens) {
      forall s: seq<nat>, y: nat | |s| < maxNewTokens && VerifiedLaw(m, prompt, s) != 0.0
        ensures Emitted(m, prompt + s, y) == m.target(prompt + s, y)
      {
        VerifiedIsExact(m, prompt, maxNewTokens, s, y);
      }
    }
  }

  /** When nothing is drafted nothing is verified. */
  lemma {:induction false} NothingVerified(m: Scheme, ctx: seq<nat>, s: seq<nat>)
    requires m.k <= 0
    ensures VerifiedLaw(m, ctx, s) == 0.0
    decreases |s|
  {
    if s != [] { NothingVerified(m, ctx + [s[0]], s[1..]); }
  }

  /** The first token of a run has the chance of one verified position. */
  lemma FirstToken(m: Scheme, ctx: seq<nat>, y: nat)
    requires DraftsOk(m) && ctx != [] && m.k > 0
    ensures RunLaw(m, ctx, [y]) == Emitted(m, ctx, y)
  {
    NextToken(m, ctx, [], y);
    assert [] + [y] == [y] && ctx + [] == ctx;
  }

  /** On all non-empty prompts at once: if and only if every position is exact, or nothing is ever drafted. */
  lemma RunsExactly(m: Scheme)
    requires DraftsOk(m) && m.k >= 0
    ensures (forall prompt: seq<nat>, n: int :: prompt != [] ==> RunsExact(m, prompt, n)) <==>
            m.k == 0 || forall ctx: seq<nat> :: ctx != [] ==> PositionExact(m, ctx)
  {
    if m.k == 0 || forall ctx: seq<nat> :: ctx != [] ==> PositionExact(m, ctx) {
      forall prompt: seq<nat>, n: int | prompt != [] ensures RunsExact(m, prompt, n) {
        forall s: seq<nat> | m.k == 0 ensures VerifiedLaw(m, prompt, s) == 0.0 { NothingVerified(m, prompt, s); }
        PromptExactly(m, prompt, n);
      }
    } else if forall prompt: seq<nat>, n: int :: prompt != [] ==> RunsExact(m, prompt, n) {
      forall ctx: seq<nat> | ctx != [] ensures PositionExact(m, ctx) {
        assert RunsExact(m, ctx, 1);
        PromptExactly(m, ctx, 1);
        assert VerifiedLaw(m, ctx, []) == 1.0 && ctx + [] == ctx;
      }
    }
  }
}

