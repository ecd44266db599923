/** Thompson fragments: which expression a wired piece of an NFA denotes, and why.

    A Frag records where the parser put each part of an expression.  Wired says that the
    graph has exactly the out-edges this layout calls for on every state of the fragment
    except its accept state, which stays open for whatever the fragment is composed into. */
module Thompson {
  import opened Regex
  import opened NfaModel

  datatype Frag =
    | FEps(q: nat)
    | FSym(s: nat, pred: CharPred, a: nat)
    | FCat(left: Frag, right: Frag)
    | FAlt(s: nat, a: nat, branches: seq<Frag>)
    | FStar(s: nat, a: nat, body: Frag)
    | FPlus(s: nat, a: nat, body: Frag)
    | FOpt(s: nat, a: nat, body: Frag)

  function Start(f: Frag): nat {
    match f
    case FEps(q) => q
    case FSym(s, _, _) => s
    case FCat(x, _) => Start(x)
    case FAlt(s, _, _) => s
    case FStar(s, _, _) => s
    case FPlus(s, _, _) => s
    case FOpt(s, _, _) => s
  }

  function Accept(f: Frag): nat {
    match f
    case FEps(q) => q
    case FSym(_, _, a) => a
    case FCat(_, y) => Accept(y)
    case FAlt(_, a, _) => a
    case FStar(_, a, _) => a
    case FPlus(_, a, _) => a
    case FOpt(_, a, _) => a
  }

  /** The expression a fragment lays out. */
  ghost function Erase(f: Frag): Re {
    match f
    case FEps(_) => Eps
    case FSym(_, pred, _) => Sym(pred)
    case FCat(x, y) => Cat(Erase(x), Erase(y))
    case FAlt(_, _, fs) => Alt(EraseAll(fs))
    case FStar(_, _, x) => Star(Erase(x))
    case FPlus(_, _, x) => Plus(Erase(x))
    case FOpt(_, _, x) => Opt(Erase(x))
  }

  ghost function EraseAll(fs: seq<Frag>): (rs: seq<Re>)
    ensures |rs| == |fs| && forall b :: 0 <= b < |fs| ==> rs[b] == Erase(fs[b])
  {
    seq(|fs|, b requires 0 <= b < |fs| => Erase(fs[b]))
  }

  /** q is a state of f other than its accept state. */
  ghost predicate Inner(f: Frag, q: nat) {
    match f
    case FEps(_) => false
    case FSym(s, _, _) => q == s
    case FCat(x, y) => Inner(x, q) || q == Accept(x) || Inner(y, q)
    case FAlt(s, _, fs) => q == s || exists b :: 0 <= b < |fs| && (Inner(fs[b], q) || q == Accept(fs[b]))
    case FStar(s, _, x) => q == s || Inner(x, q) || q == Accept(x)
    case FPlus(s, _, x) => q == s || Inner(x, q) || q == Accept(x)
    case FOpt(s, _, x) => q == s || Inner(x, q) || q == Accept(x)
  }

  ghost predicate Owns(f: Frag, q: nat) {
    Inner(f, q) || q == Accept(f)
  }

  /** State q has exactly the epsilon edges to T and no symbol arrow. */
  ghost predicate Links(g: Graph, q: nat, T: set<nat>) {
    q < |g.eps| && q < |g.sym| && g.eps[q] == T && g.sym[q] == []
  }

  ghost function Starts(fs: seq<Frag>): set<nat> {
    set b | 0 <= b < |fs| :: Start(fs[b])
  }

  ghost predicate Wired(g: Graph, f: Frag) {
    match f
    case FEps(q) => q < |g.eps|
    case FSym(s, pred, a) =>
      && s < |g.eps| && s < |g.sym| && a < |g.eps|
      && g.eps[s] == {} && g.sym[s] == [Arrow(pred, a)]
    case FCat(x, y) => Wired(g, x) && Wired(g, y) && Links(g, Accept(x), {Start(y)})
    case FAlt(s, a, fs) =>
      && a < |g.eps| && Links(g, s, Starts(fs))
      && forall b :: 0 <= b < |fs| ==> Wired(g, fs[b]) && Links(g, Accept(fs[b]), {a})
    case FStar(s, a, x) =>
      && a < |g.eps| && Wired(g, x)
      && Links(g, s, {Start(x), a}) && Links(g, Accept(x), {Start(x), a})
    case FPlus(s, a, x) =>
      && a < |g.eps| && Wired(g, x)
      && Links(g, s, {Start(x)}) && Links(g, Accept(x), {Start(x), a})
    case FOpt(s, a, x) =>
      && a < |g.eps| && Wired(g, x)
      && Links(g, s, {Start(x), a}) && Links(g, Accept(x), {a})
  }

  /** Edges out of the states a fragment controls decide whether it is wired; nothing else does. */
  lemma {:induction false} WiredFrame(g: Graph, g': Graph, f: Frag)
    requires Wired(g, f) && |g.eps| <= |g'.eps| && |g.sym| <= |g'.sym|
    requires forall q: nat :: Inner(f, q) && q < |g.eps| ==> g'.eps[q] == g.eps[q]
    requires forall q: nat :: Inner(f, q) && q < |g.sym| ==> g'.sym[q] == g.sym[q]
    ensures Wired(g', f)
  {
    match f
    case FEps(_) =>
    case FSym(s, _, _) => assert Inner(f, s);
    case FCat(x, y) =>
      WiredFrame(g, g', x);
      WiredFrame(g, g', y);
      assert Inner(f, Accept(x));
    case FAlt(s, _, fs) =>
      assert Inner(f, s);
      forall b | 0 <= b < |fs| ensures Wired(g', fs[b]) && Links(g', Accept(fs[b]), {f.a}) {
        assert Inner(f, Accept(fs[b]));
        forall q: nat | Inner(fs[b], q) ensures Inner(f, q) {}
        WiredFrame(g, g', fs[b]);
      }
    case FStar(s, _, x) =>
      assert Inner(f, s) && Inner(f, Accept(x));
      WiredFrame(g, g', x);
    case FPlus(s, _, x) =>
      assert Inner(f, s) && Inner(f, Accept(x));
      WiredFrame(g, g', x);
    case FOpt(s, _, x) =>
      assert Inner(f, s) && Inner(f, Accept(x));
      WiredFrame(g, g', x);
  }

  lemma StartOwned(f: Frag)
    ensures Owns(f, Start(f))
  {}

  // --- a walk through a fragment reads one of its words ----------------------------------

  /** The first edge of a walk out of a state that only has the epsilon edges to T. */
  lemma LinkStep(g: Graph, w: string, q: nat, T: set<nat>, i: nat, t: nat, j: nat, n: nat) returns (m: nat)
    requires Links(g, q, T) && q != t && Path(g, w, q, i, t, j, n)
    ensures n > 0 && m in T && Path(g, w, m, i, t, j, n - 1)
  {
    var k;
    m, k := PathStep(g, w, q, i, t, j, n);
  }

  /** Every walk that enters a fragment and ends outside it (or at its accept state) first
      reads a word of the fragment's expression, up to the accept state. */
  lemma {:induction false} Sound(g: Graph, f: Frag, w: string, i: nat, t: nat, j: nat, n: nat)
    returns (m: nat, k: nat)
    requires Wired(g, f) && !Inner(f, t) && Path(g, w, Start(f), i, t, j, n)
    ensures In(Erase(f), w, i, m) && Path(g, w, Accept(f), m, t, j, k) && k <= n
    decreases f, n, 1
  {
    match f
    case FEps(_) =>
      m, k := i, n;
    case FSym(s, pred, a) =>
      var q', i' := PathStep(g, w, s, i, t, j, n);
      m, k := i', n - 1;
    case FCat(x, y) =>
      m, k := SoundCat(g, f, w, i, t, j, n);
    case FAlt(s, a, fs) =>
      m, k := SoundAlt(g, f, w, i, t, j, n);
    case FStar(_, _, _) =>
      m, k := SoundStar(g, f, w, i, t, j, n);
    case FPlus(s, a, x) =>
      var q' := LinkStep(g, w, s, {Start(x)}, i, t, j, n);
      var c;
      m, k, c := SoundLoop(g, f, x, a, w, i, t, j, n - 1);
    case FOpt(_, _, _) =>
      m, k := SoundOpt(g, f, w, i, t, j, n);
  }

  lemma {:induction false} SoundStar(g: Graph, f: Frag, w: string, i: nat, t: nat, j: nat, n: nat)
    returns (m: nat, k: nat)
    requires f.FStar? && Wired(g, f) && !Inner(f, t) && Path(g, w, Start(f), i, t, j, n)
    ensures In(Erase(f), w, i, m) && Path(g, w, Accept(f), m, t, j, k) && k <= n
    decreases f, n, 0
  {
    var FStar(s, a, x) := f;
    var q' := LinkStep(g, w, s, {Start(x), a}, i, t, j, n);
    if q' == a {
      m, k := i, n - 1;
      assert Power(Erase(x), 0, w, i, i);
    } else {
      var c;
      m, k, c := SoundLoop(g, f, x, a, w, i, t, j, n - 1);
    }
  }

  lemma {:induction false} SoundOpt(g: Graph, f: Frag, w: string, i: nat, t: nat, j: nat, n: nat)
    returns (m: nat, k: nat)
    requires f.FOpt? && Wired(g, f) && !Inner(f, t) && Path(g, w, Start(f), i, t, j, n)
    ensures In(Erase(f), w, i, m) && Path(g, w, Accept(f), m, t, j, k) && k <= n
    decreases f, n, 0
  {
    var FOpt(s, a, x) := f;
    var q' := LinkStep(g, w, s, {Start(x), a}, i, t, j, n);
    if q' == a {
      m, k := i, n - 1;
    } else {
      var m1, k1 := Sound(g, x, w, i, t, j, n - 1);
      var q'' := LinkStep(g, w, Accept(x), {a}, m1, t, j, k1);
      m, k := m1, k1 - 1;
    }
  }

  lemma {:induction false} SoundCat(g: Graph, f: Frag, w: string, i: nat, t: nat, j: nat, n: nat)
    returns (m: nat, k: nat)
    requires f.FCat? && Wired(g, f) && !Inner(f, t) && Path(g, w, Start(f), i, t, j, n)
    ensures In(Erase(f), w, i, m) && Path(g, w, Accept(f), m, t, j, k) && k <= n
    decreases f, n, 0
  {
    var FCat(x, y) := f;
    var m1, k1 := Sound(g, x, w, i, t, j, n);
    var q' := LinkStep(g, w, Accept(x), {Start(y)}, m1, t, j, k1);
    m, k := Sound(g, y, w, m1, t, j, k1 - 1);
  }

  lemma {:induction false} SoundAlt(g: Graph, f: Frag, w: string, i: nat, t: nat, j: nat, n: nat)
    returns (m: nat, k: nat)
    requires f.FAlt? && Wired(g, f) && !Inner(f, t) && Path(g, w, Start(f), i, t, j, n)
    ensures In(Erase(f), w, i, m) && Path(g, w, Accept(f), m, t, j, k) && k <= n
    decreases f, n, 0
  {
    var b := AltEnter(g, f, w, i, t, j, n);
    var x := f.branches[b];
    var m1, k1 := Sound(g, x, w, i, t, j, n - 1);
    var q' := LinkStep(g, w, Accept(x), {f.a}, m1, t, j, k1);
    AltIn(f, b, w, i, m1);
    m, k := m1, k1 - 1;
  }

  /** The branch a walk takes out of the start state of an alternation. */
  lemma AltEnter(g: Graph, f: Frag, w: string, i: nat, t: nat, j: nat, n: nat) returns (b: nat)
    requires f.FAlt? && Wired(g, f) && !Inner(f, t) && Path(g, w, Start(f), i, t, j, n)
    ensures n > 0 && b < |f.branches| && Path(g, w, Start(f.branches[b]), i, t, j, n - 1)
    ensures Wired(g, f.branches[b]) && !Owns(f.branches[b], t) && Links(g, Accept(f.branches[b]), {f.a})
  {
    var q' := LinkStep(g, w, f.s, Starts(f.branches), i, t, j, n);
    b :| 0 <= b < |f.branches| && q' == Start(f.branches[b]);
  }

  lemma AltIn(f: Frag, b: nat, w: string, i: nat, j: nat)
    requires f.FAlt? && b < |f.branches| && In(Erase(f.branches[b]), w, i, j)
    ensures In(Erase(f), w, i, j)
  {
    assert In(EraseAll(f.branches)[b], w, i, j);
  }

  /** A walk that goes round a loop body reads at least one word of the body. */
  lemma {:induction false} SoundLoop(g: Graph, f: Frag, x: Frag, a: nat, w: string, i: nat, t: nat, j: nat, n: nat)
    returns (m: nat, k: nat, c: nat)
    requires x < f && Wired(g, x) && Links(g, Accept(x), {Start(x), a})
    requires !Owns(x, t) && Path(g, w, Start(x), i, t, j, n)
    ensures c >= 1 && Power(Erase(x), c, w, i, m) && Path(g, w, a, m, t, j, k) && k <= n
    decreases f, n, 0
  {
    var m1, k1 := Sound(g, x, w, i, t, j, n);
    var q' := LinkStep(g, w, Accept(x), {Start(x), a}, m1, t, j, k1);
    if q' == a {
      m, k, c := m1, k1 - 1, 1;
      assert Power(Erase(x), 0, w, m1, m1);
    } else {
      m, k, c := SoundLoop(g, f, x, a, w, m1, t, j, k1 - 1);
      c := c + 1;
    }
  }

  // --- every word of the expression is read by some walk ---------------------------------

  lemma {:induction false} Complete(g: Graph, f: Frag, w: string, i: nat, j: nat)
    requires Wired(g, f) && In(Erase(f), w, i, j)
    ensures Reach(g, w, Start(f), i, Accept(f), j)
    decreases f, 0
  {
    match f
    case FEps(q) =>
      ReachRefl(g, w, q, i);
    case FSym(s, pred, a) =>
      assert g.sym[s][0] == Arrow(pred, a);
      ReachEdge(g, w, s, i, a, j);
    case FCat(x, y) =>
      var m: nat :| In(Erase(x), w, i, m) && In(Erase(y), w, m, j);
      Complete(g, x, w, i, m);
      ReachLink(g, w, Accept(x), m, Start(y));
      Complete(g, y, w, m, j);
      ReachJoin(g, w, Start(x), i, Accept(x), m, Start(y), m);
      ReachJoin(g, w, Start(x), i, Start(y), m, Accept(y), j);
    case FAlt(s, a, fs) =>
      var b :| 0 <= b < |EraseAll(fs)| && In(EraseAll(fs)[b], w, i, j);
      Complete(g, fs[b], w, i, j);
      ReachLink(g, w, s, i, Start(fs[b]));
      ReachLink(g, w, Accept(fs[b]), j, a);
      ReachJoin(g, w, s, i, Start(fs[b]), i, Accept(fs[b]), j);
      ReachJoin(g, w, s, i, Accept(fs[b]), j, a, j);
    case FStar(s, a, x) =>
      var n: nat :| Power(Erase(x), n, w, i, j);
      if n == 0 {
        ReachLink(g, w, s, i, a);
      } else {
        ReachLink(g, w, s, i, Start(x));
        CompleteLoop(g, x, a, n, w, i, j);
        ReachJoin(g, w, s, i, Start(x), i, a, j);
      }
    case FPlus(s, a, x) =>
      var n: nat :| n >= 1 && Power(Erase(x), n, w, i, j);
      ReachLink(g, w, s, i, Start(x));
      CompleteLoop(g, x, a, n, w, i, j);
      ReachJoin(g, w, s, i, Start(x), i, a, j);
    case FOpt(s, a, x) =>
      if i == j {
        ReachLink(g, w, s, i, a);
      } else {
        Complete(g, x, w, i, j);
        ReachLink(g, w, s, i, Start(x));
        ReachLink(g, w, Accept(x), j, a);
        ReachJoin(g, w, s, i, Start(x), i, Accept(x), j);
        ReachJoin(g, w, s, i, Accept(x), j, a, j);
      }
  }

  lemma ReachLink(g: Graph, w: string, q: nat, i: nat, t: nat)
    requires q < |g.eps| && t in g.eps[q]
    ensures Reach(g, w, q, i, t, i)
  {
    ReachEdge(g, w, q, i, t, i);
  }

  lemma {:induction false} CompleteLoop(g: Graph, x: Frag, a: nat, n: nat, w: string, i: nat, j: nat)
    requires n >= 1 && Wired(g, x) && Links(g, Accept(x), {Start(x), a})
    requires Power(Erase(x), n, w, i, j)
    ensures Reach(g, w, Start(x), i, a, j)
    decreases x, n
  {
    var m: nat :| In(Erase(x), w, i, m) && Power(Erase(x), n - 1, w, m, j);
    Complete(g, x, w, i, m);
    if n == 1 {
      ReachLink(g, w, Accept(x), m, a);
      ReachJoin(g, w, Start(x), i, Accept(x), m, a, j);
    } else {
      ReachLink(g, w, Accept(x), m, Start(x));
      CompleteLoop(g, x, a, n - 1, w, m, j);
      ReachJoin(g, w, Start(x), i, Accept(x), m, Start(x), m);
      ReachJoin(g, w, Start(x), i, Start(x), m, a, j);
    }
  }

  // --- the closed fragment: the whole pattern --------------------------------------------

  /** A fragment nobody has composed further: its accept state has no way out. */
  ghost predicate Closed(g: Graph, f: Frag) {
    && WellFormed(g) && Wired(g, f) && !Inner(f, Accept(f)) && Links(g, Accept(f), {})
  }

  /** The set simulation accepts w exactly when w is in the language of the laid-out expression. */
  lemma AcceptsExactly(g: Graph, f: Frag, w: string)
    requires Closed(g, f)
    ensures Accept(f) in ReadSet(g, EpsClose(g, {Start(f)}), w) <==> Matches(Erase(f), w)
  {
    var s, a := Start(f), Accept(f);
    StartOwned(f);
    WiredInGraph(g, f, s);
    ReadSetIsReach(g, s, w, a);
    if Reach(g, w, s, 0, a, |w|) {
      var n: nat :| Path(g, w, s, 0, a, |w|, n);
      var m, k := Sound(g, f, w, 0, a, |w|, n);
      if k > 0 { var q', i' := PathStep(g, w, a, m, a, |w|, k); }
    }
    if Matches(Erase(f), w) { Complete(g, f, w, 0, |w|); }
  }

  lemma {:induction false} WiredInGraph(g: Graph, f: Frag, q: nat)
    requires Wired(g, f) && Owns(f, q)
    ensures q < |g.eps|
  {
    match f
    case FEps(_) =>
    case FSym(_, _, _) =>
    case FCat(x, y) =>
      if Owns(x, q) { WiredInGraph(g, x, q); } else { WiredInGraph(g, y, q); }
    case FAlt(s, a, fs) =>
      if q != s && q != a {
        var b :| 0 <= b < |fs| && (Inner(fs[b], q) || q == Accept(fs[b]));
        WiredInGraph(g, fs[b], q);
      }
    case FStar(s, a, x) => if q != s && q != a { WiredInGraph(g, x, q); }
    case FPlus(s, a, x) => if q != s && q != a { WiredInGraph(g, x, q); }
    case FOpt(s, a, x) => if q != s && q != a { WiredInGraph(g, x, q); }
  }

  /** Edges out of an inner state stay in the fragment. */
  lemma {:induction false} InnerStays(g: Graph, f: Frag, w: string, q: nat, i: nat, t: nat, j: nat)
    requires Wired(g, f) && Inner(f, q) && Edge(g, w, q, i, t, j)
    ensures Owns(f, t)
  {
    match f
    case FSym(s, _, a) =>
    case FCat(x, y) =>
      StartOwned(y);
      if q != Accept(x) {
        if Inner(x, q) { InnerStays(g, x, w, q, i, t, j); } else { InnerStays(g, y, w, q, i, t, j); }
      }
    case FAlt(s, a, fs) =>
      if q == s {
        var b :| 0 <= b < |fs| && t == Start(fs[b]);
        StartOwned(fs[b]);
      } else {
        var b :| 0 <= b < |fs| && (Inner(fs[b], q) || q == Accept(fs[b]));
        if q != Accept(fs[b]) { InnerStays(g, fs[b], w, q, i, t, j); }
      }
    case FStar(s, a, x) =>
      StartOwned(x);
      if q != s && q != Accept(x) { InnerStays(g, x, w, q, i, t, j); }
    case FPlus(s, a, x) =>
      StartOwned(x);
      if q != s && q != Accept(x) { InnerStays(g, x, w, q, i, t, j); }
    case FOpt(s, a, x) =>
      StartOwned(x);
      if q != s && q != Accept(x) { InnerStays(g, x, w, q, i, t, j); }
  }

  lemma {:induction false} WalkStays(g: Graph, f: Frag, w: string, q: nat, i: nat, t: nat, j: nat, n: nat)
    requires Closed(g, f) && Owns(f, q) && Path(g, w, q, i, t, j, n)
    ensures Owns(f, t)
    decreases n
  {
    if n > 0 {
      var m, k := PathStep(g, w, q, i, t, j, n);
      if Inner(f, q) { InnerStays(g, f, w, q, i, m, k); }
      WalkStays(g, f, w, m, k, t, j, n - 1);
    }
  }
}
