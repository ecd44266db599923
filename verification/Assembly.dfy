/** How the parser's graph updates assemble fragments: each update step, proved once. */
module Assembly {
  import opened Regex
  import opened NfaModel
  import opened Thompson

  /** g only adds states to g0; every old state keeps its edges. */
  ghost predicate Extends(g0: Graph, g: Graph) {
    && |g0.eps| <= |g.eps| && |g0.sym| <= |g.sym| && |g0.eps| == |g0.sym|
    && (forall q :: 0 <= q < |g0.eps| ==> g.eps[q] == g0.eps[q])
    && (forall q :: 0 <= q < |g0.sym| ==> g.sym[q] == g0.sym[q])
  }

  /** f is wired in g out of states that g0 did not have, and its accept state is still open. */
  ghost predicate Open(g0: Graph, g: Graph, f: Frag) {
    && Wired(g, f) && Links(g, Accept(f), {}) && !Inner(f, Accept(f))
    && (forall q: nat :: Owns(f, q) ==> |g0.eps| <= q)
  }

  ghost predicate Built(g0: Graph, g: Graph, f: Frag) {
    WellFormed(g) && Extends(g0, g) && Open(g0, g, f)
  }

  ghost predicate Disjoint(f: Frag, h: Frag) {
    forall q: nat :: !(Owns(f, q) && Owns(h, q))
  }

  /** A row of open, pairwise disjoint fragments, not yet connected to each other. */
  ghost predicate Row(g0: Graph, g: Graph, fs: seq<Frag>) {
    && WellFormed(g) && Extends(g0, g)
    && (forall k :: 0 <= k < |fs| ==> Open(g0, g, fs[k]))
    && (forall k, l :: 0 <= k < l < |fs| ==> Disjoint(fs[k], fs[l]))
  }

  /** Later additions to the shared NFA leave an earlier fragment as it was. */
  lemma OpenExtends(g0: Graph, g: Graph, g': Graph, f: Frag)
    requires Open(g0, g, f) && Extends(g, g')
    ensures Open(g0, g', f)
  {
    WiredFrame(g, g', f);
  }

  lemma BuiltLater(g0: Graph, g1: Graph, g2: Graph, f: Frag)
    requires Extends(g0, g1) && Built(g1, g2, f)
    ensures Built(g0, g2, f)
  {}

  /** ... and so do not change its language. */
  lemma LaterAdditionsKeepLanguage(g0: Graph, g: Graph, g': Graph, f: Frag, w: string)
    requires Built(g0, g, f) && WellFormed(g') && Extends(g, g')
    ensures Accept(f) in ReadSet(g', EpsClose(g', {Start(f)}), w) <==>
            Accept(f) in ReadSet(g, EpsClose(g, {Start(f)}), w)
  {
    OpenExtends(g0, g, g', f);
    AcceptsExactly(g, f, w);
    AcceptsExactly(g', f, w);
  }

  lemma RowSnoc(g0: Graph, g1: Graph, g2: Graph, fs: seq<Frag>, f: Frag)
    requires Row(g0, g1, fs) && Built(g1, g2, f)
    ensures Row(g0, g2, fs + [f])
  {
    forall k | 0 <= k < |fs| ensures Open(g0, g2, fs[k]) && Disjoint(fs[k], f) {
      OpenExtends(g0, g1, g2, fs[k]);
      forall q: nat | Owns(fs[k], q) ensures !Owns(f, q) { WiredInGraph(g1, fs[k], q); }
    }
  }

  lemma RowOne(g0: Graph, g: Graph, f: Frag)
    ensures Row(g0, g, [f]) <==> Built(g0, g, f)
  {
    if Row(g0, g, [f]) { assert Open(g0, g, [f][0]); }
  }

  // --- one fresh symbol, one fresh empty fragment -------------------------------------------

  lemma SymBuilt(g0: Graph, g: Graph, s: nat, pred: CharPred, a: nat)
    requires WellFormed(g0) && s == |g0.eps| && a == s + 1
    requires g.eps == g0.eps + [{}] + [{}] && g.sym == (g0.sym + [[]] + [[]])[s := [Arrow(pred, a)]]
    ensures Built(g0, g, FSym(s, pred, a))
  {}

  lemma EpsBuilt(g0: Graph, g: Graph, q: nat)
    requires WellFormed(g0) && q == |g0.eps|
    requires g.eps == g0.eps + [{}] && g.sym == g0.sym + [[]]
    ensures Built(g0, g, FEps(q))
  {}

  // --- concatenation --------------------------------------------------------------------------

  /** The fragment of a chain that has been linked left to right. */
  ghost function Chained(fs: seq<Frag>): Frag
    requires fs != []
  {
    if |fs| == 1 then fs[0] else FCat(Chained(fs[..|fs| - 1]), fs[|fs| - 1])
  }

  lemma {:induction false} ChainedErase(fs: seq<Frag>)
    requires fs != []
    ensures Erase(Chained(fs)) == CatAll(EraseAll(fs))
  {
    if |fs| > 1 {
      var n := |fs| - 1;
      assert EraseAll(fs)[..n] == EraseAll(fs[..n]);
      ChainedErase(fs[..n]);
    }
  }

  lemma {:induction false} ChainedEnds(fs: seq<Frag>)
    requires fs != []
    ensures Start(Chained(fs)) == Start(fs[0]) && Accept(Chained(fs)) == Accept(fs[|fs| - 1])
  {
    if |fs| > 1 { ChainedEnds(fs[..|fs| - 1]); }
  }

  /** An epsilon edge out of the open accept state of h does not disturb a disjoint fragment. */
  lemma OpenOther(g0: Graph, g: Graph, g': Graph, h: Frag, f: Frag, T: set<nat>)
    requires Open(g0, g, h) && Open(g0, g, f) && Disjoint(h, f)
    requires Accept(h) < |g.eps| && g' == g.(eps := g.eps[Accept(h) := T])
    ensures Open(g0, g', f)
  {
    assert Owns(h, Accept(h));
    assert !Owns(f, Accept(h));
    WiredFrame(g, g', f);
  }

  lemma WiredSelf(g0: Graph, g: Graph, g': Graph, h: Frag, T: set<nat>)
    requires Open(g0, g, h) && Accept(h) < |g.eps| && g' == g.(eps := g.eps[Accept(h) := T])
    ensures Wired(g', h) && Links(g', Accept(h), T)
  {
    WiredFrame(g, g', h);
  }

  lemma JoinOpen(g0: Graph, g: Graph, g': Graph, x: Frag, y: Frag)
    requires Open(g0, g, x) && Open(g0, g, y) && Disjoint(x, y)
    requires Accept(x) < |g.eps| && g' == g.(eps := g.eps[Accept(x) := {Start(y)}])
    ensures Open(g0, g', FCat(x, y))
  {
    var f := FCat(x, y);
    WiredSelf(g0, g, g', x, {Start(y)});
    OpenOther(g0, g, g', x, y, {Start(y)});
    assert Owns(y, Accept(y)) && !Owns(x, Accept(y));
    forall q: nat | Owns(f, q) ensures Owns(x, q) || Owns(y, q) {}
  }

  /** The row with its first k + 1 fragments linked into h. */
  ghost predicate Linking(g0: Graph, g: Graph, fs: seq<Frag>, k: nat, h: Frag) {
    && k < |fs| && h == Chained(fs[..k + 1])
    && WellFormed(g) && Extends(g0, g) && Open(g0, g, h)
    && (forall j :: k < j < |fs| ==> Open(g0, g, fs[j]) && Disjoint(h, fs[j]))
    && (forall i, j :: 0 <= i < j < |fs| ==> Disjoint(fs[i], fs[j]))
  }

  lemma LinkingStart(g0: Graph, g: Graph, fs: seq<Frag>)
    requires Row(g0, g, fs) && fs != []
    ensures Linking(g0, g, fs, 0, fs[0])
  {
    assert fs[..1] == [fs[0]];
  }

  /** One round of the linking loop: an epsilon edge from an accept state to the next start. */
  lemma LinkingStep(g0: Graph, g: Graph, g': Graph, fs: seq<Frag>, k: nat, h: Frag)
    requires Linking(g0, g, fs, k, h) && k + 1 < |fs| && Accept(h) < |g.eps|
    requires g' == g.(eps := g.eps[Accept(h) := g.eps[Accept(h)] + {Start(fs[k + 1])}])
    ensures Linking(g0, g', fs, k + 1, FCat(h, fs[k + 1]))
  {
    var y, f := fs[k + 1], FCat(h, fs[k + 1]);
    assert g.eps[Accept(h)] + {Start(y)} == {Start(y)};
    assert fs[..k + 2][..k + 1] == fs[..k + 1];
    JoinOpen(g0, g, g', h, y);
    assert Owns(h, Accept(h));
    StartOwned(y);
    WiredInGraph(g, y, Start(y));
    forall j | k + 1 < j < |fs| ensures Open(g0, g', fs[j]) && Disjoint(f, fs[j]) {
      OpenOther(g0, g, g', h, fs[j], {Start(y)});
      JoinDisjoint(h, y, fs[j]);
    }
  }

  lemma JoinDisjoint(x: Frag, y: Frag, z: Frag)
    requires Disjoint(x, z) && Disjoint(y, z)
    ensures Disjoint(FCat(x, y), z)
  {
    forall q: nat ensures !(Owns(FCat(x, y), q) && Owns(z, q)) {
      assert Owns(FCat(x, y), q) ==> Owns(x, q) || Owns(y, q);
    }
  }

  // --- repetition ------------------------------------------------------------------------------

  /** The graph after the two fresh states ns, na and the edges of a repetition node. */
  function WithNode(g: Graph, x: nat, T: set<nat>, xa: nat, U: set<nat>): Graph
    requires x == |g.eps| && xa < |g.eps|
  {
    Graph((g.eps + [{}] + [{}])[x := T][xa := U], g.sym + [[]] + [[]])
  }

  lemma NodeBase(g0: Graph, g: Graph, g': Graph, x: Frag, ns: nat, T: set<nat>, U: set<nat>)
    requires Built(g0, g, x) && ns == |g.eps| && g' == WithNode(g, ns, T, Accept(x), U)
    requires T <= {Start(x), ns + 1} && U <= {Start(x), ns + 1}
    ensures WellFormed(g') && Extends(g0, g') && Wired(g', x)
    ensures Links(g', ns, T) && Links(g', Accept(x), U) && Links(g', ns + 1, {})
    ensures forall q: nat :: Owns(x, q) ==> |g0.eps| <= q < ns
  {
    StartOwned(x);
    assert Owns(x, Accept(x));
    forall q: nat | Owns(x, q) ensures |g0.eps| <= q < ns { WiredInGraph(g, x, q); }
    NodeGraph(g0, g, g', Start(x), Accept(x), ns, T, U);
    WiredFrame(g, g', x);
  }

  /** The same without the fragment. */
  lemma NodeGraph(g0: Graph, g: Graph, g': Graph, s: nat, a: nat, ns: nat, T: set<nat>, U: set<nat>)
    requires WellFormed(g) && Extends(g0, g) && ns == |g.eps| && s < ns && |g0.eps| <= a < ns && Links(g, a, {})
    requires g' == WithNode(g, ns, T, a, U) && T <= {s, ns + 1} && U <= {s, ns + 1}
    ensures WellFormed(g') && Extends(g0, g') && |g'.eps| == |g'.sym| == ns + 2
    ensures Links(g', ns, T) && Links(g', a, U) && Links(g', ns + 1, {})
    ensures forall q: nat :: q < ns && q != a ==> g'.eps[q] == g.eps[q]
    ensures forall q: nat :: q < ns ==> g'.sym[q] == g.sym[q]
  {}

  lemma NodeOpen(g0: Graph, g: Graph, f: Frag, x: Frag, ns: nat)
    requires f == FStar(ns, ns + 1, x) || f == FPlus(ns, ns + 1, x) || f == FOpt(ns, ns + 1, x)
    requires Wired(g, f) && Links(g, ns + 1, {}) && |g0.eps| <= ns
    requires forall q: nat :: Owns(x, q) ==> |g0.eps| <= q < ns
    ensures Open(g0, g, f)
  {
    assert !Owns(x, ns + 1);
    forall q: nat | Owns(f, q) ensures |g0.eps| <= q {
      if q != ns && q != ns + 1 { assert Owns(x, q); }
    }
  }

  lemma NodeEnds(g0: Graph, g: Graph, x: Frag)
    requires Built(g0, g, x)
    ensures Accept(x) < |g.eps| && g.eps[Accept(x)] == {}
  {}

  lemma StarBuilt(g0: Graph, g: Graph, g': Graph, x: Frag, ns: nat)
    requires Built(g0, g, x) && ns == |g.eps|
    requires g' == WithNode(g, ns, {Start(x), ns + 1}, Accept(x), {Start(x), ns + 1})
    ensures Built(g0, g', FStar(ns, ns + 1, x))
  {
    NodeBase(g0, g, g', x, ns, {Start(x), ns + 1}, {Start(x), ns + 1});
    NodeOpen(g0, g', FStar(ns, ns + 1, x), x, ns);
  }

  lemma PlusBuilt(g0: Graph, g: Graph, g': Graph, x: Frag, ns: nat)
    requires Built(g0, g, x) && ns == |g.eps|
    requires g' == WithNode(g, ns, {Start(x)}, Accept(x), {Start(x), ns + 1})
    ensures Built(g0, g', FPlus(ns, ns + 1, x))
  {
    NodeBase(g0, g, g', x, ns, {Start(x)}, {Start(x), ns + 1});
    NodeOpen(g0, g', FPlus(ns, ns + 1, x), x, ns);
  }

  lemma OptBuilt(g0: Graph, g: Graph, g': Graph, x: Frag, ns: nat)
    requires Built(g0, g, x) && ns == |g.eps|
    requires g' == WithNode(g, ns, {Start(x), ns + 1}, Accept(x), {ns + 1})
    ensures Built(g0, g', FOpt(ns, ns + 1, x))
  {
    NodeBase(g0, g, g', x, ns, {Start(x), ns + 1}, {ns + 1});
    NodeOpen(g0, g', FOpt(ns, ns + 1, x), x, ns);
  }

  // --- alternation -----------------------------------------------------------------------------

  /** The alternation node with its first k branches connected. */
  ghost predicate AltPartial(g0: Graph, g: Graph, fs: seq<Frag>, s: nat, a: nat, k: nat) {
    && k <= |fs| && a == s + 1 && |g0.eps| <= s
    && WellFormed(g) && Extends(g0, g)
    && Links(g, s, Starts(fs[..k])) && Links(g, a, {})
    && (forall b :: 0 <= b < |fs| ==> AltBranch(g0, g, fs[b], s, if b < k then {a} else {}))
    && (forall b, c :: 0 <= b < c < |fs| ==> Disjoint(fs[b], fs[c]))
  }

  ghost predicate AltBranch(g0: Graph, g: Graph, f: Frag, s: nat, T: set<nat>) {
    && Wired(g, f) && Links(g, Accept(f), T) && !Inner(f, Accept(f))
    && (forall q: nat :: Owns(f, q) ==> |g0.eps| <= q < s)
  }

  lemma AltInit(g0: Graph, g: Graph, g': Graph, fs: seq<Frag>, s: nat)
    requires Row(g0, g, fs) && s == |g.eps|
    requires g' == Graph(g.eps + [{}] + [{}], g.sym + [[]] + [[]])
    ensures AltPartial(g0, g', fs, s, s + 1, 0)
  {
    forall b | 0 <= b < |fs| ensures AltBranch(g0, g', fs[b], s, {}) {
      OpenExtends(g0, g, g', fs[b]);
      forall q: nat | Owns(fs[b], q) ensures q < s { WiredInGraph(g, fs[b], q); }
    }
    assert Starts(fs[..0]) == {};
  }

  lemma AltEnds(g0: Graph, g: Graph, fs: seq<Frag>, s: nat, a: nat, k: nat)
    requires AltPartial(g0, g, fs, s, a, k) && k < |fs|
    ensures Accept(fs[k]) < s < |g.eps|
  {
    assert AltBranch(g0, g, fs[k], s, {});
    assert Owns(fs[k], Accept(fs[k]));
  }

  lemma AltStep(g0: Graph, g: Graph, g': Graph, fs: seq<Frag>, s: nat, a: nat, k: nat)
    requires AltPartial(g0, g, fs, s, a, k) && k < |fs|
    requires Accept(fs[k]) < s < |g.eps|
    requires g' == g.(eps := g.eps[s := g.eps[s] + {Start(fs[k])}][Accept(fs[k]) := g.eps[Accept(fs[k])] + {a}])
    ensures AltPartial(g0, g', fs, s, a, k + 1)
  {
    assert AltBranch(g0, g, fs[k], s, {});
    StartOwned(fs[k]);
    WiredInGraph(g, fs[k], Start(fs[k]));
    assert Owns(fs[k], Accept(fs[k]));
    forall b | 0 <= b < |fs| ensures AltBranch(g0, g', fs[b], s, if b < k + 1 then {a} else {}) {
      AltBranchKept(g0, g, g', fs, s, a, k, b);
    }
    MoreStarts(fs, k);
  }

  lemma MoreStarts(fs: seq<Frag>, k: nat)
    requires k < |fs|
    ensures Starts(fs[..k + 1]) == Starts(fs[..k]) + {Start(fs[k])}
  {
    assert fs[..k + 1] == fs[..k] + [fs[k]];
    StartsSnoc(fs[..k], fs[k]);
  }

  lemma AltBranchKept(g0: Graph, g: Graph, g': Graph, fs: seq<Frag>, s: nat, a: nat, k: nat, b: nat)
    requires AltPartial(g0, g, fs, s, a, k) && k < |fs| && b < |fs|
    requires Accept(fs[k]) < s < |g.eps|
    requires g' == g.(eps := g.eps[s := g.eps[s] + {Start(fs[k])}][Accept(fs[k]) := g.eps[Accept(fs[k])] + {a}])
    ensures AltBranch(g0, g', fs[b], s, if b < k + 1 then {a} else {})
  {
    assert AltBranch(g0, g, fs[b], s, if b < k then {a} else {});
    assert AltBranch(g0, g, fs[k], s, {});
    assert Owns(fs[k], Accept(fs[k])) && Owns(fs[b], Accept(fs[b]));
    if b != k {
      assert Disjoint(fs[b], fs[k]) || Disjoint(fs[k], fs[b]);
      assert !Owns(fs[b], Accept(fs[k]));
    }
    forall q: nat | Inner(fs[b], q) ensures q != s && q != Accept(fs[k]) {
      assert Owns(fs[b], q);
    }
    WiredFrame(g, g', fs[b]);
  }

  lemma StartsSnoc(fs: seq<Frag>, f: Frag)
    ensures Starts(fs + [f]) == Starts(fs) + {Start(f)}
  {
    var all := fs + [f];
    forall q | q in Starts(fs) ensures q in Starts(all) {
      var b :| 0 <= b < |fs| && q == Start(fs[b]);
      assert all[b] == fs[b];
    }
    assert all[|fs|] == f;
  }

  lemma AltBuilt(g0: Graph, g: Graph, fs: seq<Frag>, s: nat, a: nat)
    requires AltPartial(g0, g, fs, s, a, |fs|)
    ensures Built(g0, g, FAlt(s, a, fs))
  {
    assert fs[..|fs|] == fs;
    forall b | 0 <= b < |fs| ensures Wired(g, fs[b]) && Links(g, Accept(fs[b]), {a}) {
      assert AltBranch(g0, g, fs[b], s, {a});
    }
    var f := FAlt(s, a, fs);
    forall q: nat | Owns(f, q) ensures |g0.eps| <= q && (Inner(f, q) ==> q != a) {
      if q != s && q != a {
        var b :| 0 <= b < |fs| && (Inner(fs[b], q) || q == Accept(fs[b]));
        assert AltBranch(g0, g, fs[b], s, {a});
        assert Owns(fs[b], q);
      }
      if Inner(f, q) && q != s {
        var b :| 0 <= b < |fs| && (Inner(fs[b], q) || q == Accept(fs[b]));
        assert AltBranch(g0, g, fs[b], s, {a});
        assert Owns(fs[b], q);
      }
    }
    assert Owns(f, a);
  }
}
