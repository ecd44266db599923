/** When the simulated state set tells the truth about prefixes: it is non-empty exactly on
    the prefixes of words, provided every character class of the pattern matches something. */
module Viability {
  import opened Regex
  import opened NfaModel
  import opened Thompson

  /** Some text leads from q to t. */
  ghost predicate CanReach(g: Graph, q: nat, t: nat) {
    exists v: string :: Reach(g, v, q, 0, t, |v|)
  }

  lemma CanReachJoin(g: Graph, q: nat, m: nat, t: nat)
    requires CanReach(g, q, m) && CanReach(g, m, t)
    ensures CanReach(g, q, t)
  {
    var u: string :| Reach(g, u, q, 0, m, |u|);
    var v: string :| Reach(g, v, m, 0, t, |v|);
    ReachConcat(g, u, q, m, v, t);
  }

  /** Reading u from q to m and then v from m to t is reading u + v from q to t. */
  lemma ReachConcat(g: Graph, u: string, q: nat, m: nat, v: string, t: nat)
    requires Reach(g, u, q, 0, m, |u|) && Reach(g, v, m, 0, t, |v|)
    ensures Reach(g, u + v, q, 0, t, |u + v|)
  {
    var w := u + v;
    assert u[0..|u|] == w[0..|u|];
    assert v[0..|v|] == w[|u|..|u| + |v|];
    ReachSlice(g, u, q, 0, m, |u|, w, 0);
    ReachSlice(g, v, m, 0, t, |v|, w, |u|);
    ReachJoin(g, w, q, 0, m, |u|, t, |w|);
  }

  lemma CanReachLink(g: Graph, q: nat, t: nat)
    requires q < |g.eps| && t in g.eps[q]
    ensures CanReach(g, q, t)
  {
    ReachLink(g, [], q, 0, t);
  }

  lemma CanReachSelf(g: Graph, q: nat)
    ensures CanReach(g, q, q)
  {
    ReachRefl(g, [], q, 0);
    assert Reach(g, [], q, 0, q, |""|);
  }

  lemma CanReachSym(g: Graph, s: nat, pred: CharPred, a: nat)
    requires s < |g.sym| && g.sym[s] == [Arrow(pred, a)]
    requires exists c: char :: pred(c)
    ensures CanReach(g, s, a)
  {
    var c: char :| pred(c);
    assert g.sym[s][0].pred(c) && g.sym[s][0].dst == a;
    ReachEdge(g, [c], s, 0, a, 1);
    assert |[c]| == 1;
  }

  /** q has no way out on any character. */
  ghost predicate Stuck(g: Graph, q: nat) {
    && q < |g.eps| && q < |g.sym| && g.eps[q] == {}
    && forall k, c: char :: 0 <= k < |g.sym[q]| ==> !g.sym[q][k].pred(c)
  }

  lemma StuckStays(g: Graph, q: nat, t: nat)
    requires Stuck(g, q) && CanReach(g, q, t)
    ensures q == t
  {
    var v: string :| Reach(g, v, q, 0, t, |v|);
    var n: nat :| Path(g, v, q, 0, t, |v|, n);
    if n > 0 { var m, k := PathStep(g, v, q, 0, t, |v|, n); }
  }

  /** From q there is a way to the accept state, or to a state that is stuck before it. */
  ghost predicate Ends(g: Graph, f: Frag, q: nat) {
    CanReach(g, q, Accept(f)) || exists t: nat :: Inner(f, t) && Stuck(g, t) && CanReach(g, q, t)
  }

  lemma StuckEnds(g: Graph, f: Frag, q: nat)
    requires Inner(f, q) && Stuck(g, q)
    ensures Ends(g, f, q)
  {
    CanReachSelf(g, q);
  }

  /** What ends in a part ends in the whole, when the whole goes on from the part's accept state. */
  lemma EndsIn(g: Graph, x: Frag, f: Frag, q: nat, p: nat)
    requires Ends(g, x, p) && CanReach(g, q, p)
    requires (forall t: nat :: Inner(x, t) ==> Inner(f, t)) && Ends(g, f, Accept(x))
    ensures Ends(g, f, q)
  {
    if CanReach(g, p, Accept(x)) {
      CanReachJoin(g, q, p, Accept(x));
      EndsAfter(g, f, q, Accept(x));
    } else {
      var t: nat :| Inner(x, t) && Stuck(g, t) && CanReach(g, p, t);
      CanReachJoin(g, q, p, t);
    }
  }

  lemma EndsAfter(g: Graph, f: Frag, q: nat, p: nat)
    requires Ends(g, f, p) && CanReach(g, q, p)
    ensures Ends(g, f, q)
  {
    if CanReach(g, p, Accept(f)) {
      CanReachJoin(g, q, p, Accept(f));
    } else {
      var t: nat :| Inner(f, t) && Stuck(g, t) && CanReach(g, p, t);
      CanReachJoin(g, q, p, t);
    }
  }

  /** Every state of a fragment has such a way. */
  lemma {:induction false} StateEnds(g: Graph, f: Frag, q: nat)
    requires Wired(g, f) && Owns(f, q)
    ensures Ends(g, f, q)
    decreases f, 1
  {
    CanReachSelf(g, q);
    match f
    case FEps(_) =>
    case FSym(s, pred, a) =>
      if q == s {
        if exists c: char :: pred(c) { CanReachSym(g, s, pred, a); } else { StuckEnds(g, f, s); }
      }
    case FCat(x, y) =>
      StartOwned(y);
      StateEnds(g, y, if Owns(x, q) then Start(y) else q);
      if Owns(x, q) {
        StateEnds(g, x, q);
        CanReachLink(g, Accept(x), Start(y));
        EndsIn(g, y, f, Accept(x), Start(y)) by { CanReachSelf(g, Accept(y)); }
        EndsIn(g, x, f, q, q);
      } else {
        EndsIn(g, y, f, q, q) by { CanReachSelf(g, Accept(y)); }
      }
    case FAlt(s, a, fs) =>
      if q != a {
        if q == s && fs == [] {
          StuckEnds(g, f, s);
        } else {
          var b := 0;
          if q != s { b :| 0 <= b < |fs| && Owns(fs[b], q); }
          BodyEnds(g, f, fs[b], s, a, q);
        }
      }
    case FStar(s, a, x) =>
      if q == s { CanReachLink(g, s, a); } else if q != a { BodyEnds(g, f, x, s, a, q); }
    case FPlus(s, a, x) =>
      if q != a { BodyEnds(g, f, x, s, a, q); }
    case FOpt(s, a, x) =>
      if q == s { CanReachLink(g, s, a); } else if q != a { BodyEnds(g, f, x, s, a, q); }
  }

  lemma {:induction false} BodyEnds(g: Graph, f: Frag, x: Frag, s: nat, a: nat, q: nat)
    requires x < f && Wired(g, x) && a == Accept(f) && (q == s || Owns(x, q))
    requires forall t: nat :: Inner(x, t) ==> Inner(f, t)
    requires Accept(x) < |g.eps| && a in g.eps[Accept(x)]
    requires q == s ==> s < |g.eps| && Start(x) in g.eps[s]
    ensures Ends(g, f, q)
    decreases f, 0
  {
    var p := if q == s then Start(x) else q;
    StartOwned(x);
    StateEnds(g, x, p);
    CanReachLink(g, Accept(x), a);
    if q == s { CanReachLink(g, s, p); } else { CanReachSelf(g, q); }
    EndsIn(g, x, f, q, p);
  }

  /** With no empty class no state is stuck before the accept state. */
  lemma {:induction false} NotStuck(g: Graph, f: Frag, q: nat)
    requires Wired(g, f) && Inhabited(Erase(f)) && Inner(f, q)
    ensures !Stuck(g, q)
    decreases f
  {
    match f
    case FSym(s, pred, a) =>
      var c: char :| pred(c);
      assert g.sym[s][0].pred(c);
    case FCat(x, y) =>
      if Inner(x, q) { NotStuck(g, x, q); } else if q != Accept(x) { NotStuck(g, y, q); }
    case FAlt(s, a, fs) =>
      if q == s {
        assert Start(fs[0]) in Starts(fs);
      } else {
        var b :| 0 <= b < |fs| && (Inner(fs[b], q) || q == Accept(fs[b]));
        assert Inhabited(EraseAll(fs)[b]);
        if q != Accept(fs[b]) { NotStuck(g, fs[b], q); }
      }
    case FStar(s, a, x) => if q != s && q != Accept(x) { NotStuck(g, x, q); }
    case FPlus(s, a, x) => if q != s && q != Accept(x) { NotStuck(g, x, q); }
    case FOpt(s, a, x) => if q != s && q != Accept(x) { NotStuck(g, x, q); }
  }

  /** Every state of an inhabited fragment can still get to the accept state. */
  lemma LiveState(g: Graph, f: Frag, q: nat)
    requires Wired(g, f) && Inhabited(Erase(f)) && Owns(f, q)
    ensures CanReach(g, q, Accept(f))
  {
    StateEnds(g, f, q);
    forall t: nat | Inner(f, t) ensures !Stuck(g, t) { NotStuck(g, f, t); }
  }

  /** A way to the accept state completes the text to a word. */
  lemma CompletedMatches(g: Graph, f: Frag, w: string, t: nat, v: string)
    requires Closed(g, f) && Reach(g, w, Start(f), 0, t, |w|) && Reach(g, v, t, 0, Accept(f), |v|)
    ensures Matches(Erase(f), w + v)
  {
    ReachConcat(g, w, Start(f), t, v, Accept(f));
    StartOwned(f);
    WiredInGraph(g, f, Start(f));
    ReadSetIsReach(g, Start(f), w + v, Accept(f));
    AcceptsExactly(g, f, w + v);
  }

  /** With no empty class, the set after w is non-empty exactly when w can be completed to a word. */
  lemma ViablePrefix(g: Graph, f: Frag, w: string)
    requires Closed(g, f) && Inhabited(Erase(f))
    ensures ReadSet(g, EpsClose(g, {Start(f)}), w) != {} <==> exists v: string :: Matches(Erase(f), w + v)
  {
    var R := ReadSet(g, EpsClose(g, {Start(f)}), w);
    if R != {} {
      var t :| t in R;
      ReachableOwned(g, f, w, t);
      LiveState(g, f, t);
      var v: string :| Reach(g, v, t, 0, Accept(f), |v|);
      CompletedMatches(g, f, w, t, v);
    }
    if v: string :| Matches(Erase(f), w + v) {
      PrefixAlive(g, f, w, v);
    }
  }

  /** The half that needs no assumption: on a prefix of a word the set is never empty. */
  lemma PrefixAlive(g: Graph, f: Frag, w: string, v: string)
    requires Closed(g, f) && Matches(Erase(f), w + v)
    ensures ReadSet(g, EpsClose(g, {Start(f)}), w) != {}
  {
    AcceptsExactly(g, f, w + v);
    if ReadSet(g, EpsClose(g, {Start(f)}), w) == {} {
      ReadSetDead(g, EpsClose(g, {Start(f)}), w, v);
    }
  }

  lemma ReachableOwned(g: Graph, f: Frag, w: string, t: nat)
    requires Closed(g, f) && t in ReadSet(g, EpsClose(g, {Start(f)}), w)
    ensures Reach(g, w, Start(f), 0, t, |w|) && Owns(f, t)
  {
    StartOwned(f);
    WiredInGraph(g, f, Start(f));
    ReadSetIsReach(g, Start(f), w, t);
    var n: nat :| Path(g, w, Start(f), 0, t, |w|, n);
    WalkStays(g, f, w, Start(f), 0, t, |w|, n);
  }

  // --- the condition is exact, state by state ------------------------------------------

  /** Every state the simulation can be in still has a way to the accept state. */
  ghost predicate AllLive(g: Graph, f: Frag) {
    forall w: string, t: nat ::
      t in ReadSet(g, EpsClose(g, {Start(f)}), w) ==> CanReach(g, t, Accept(f))
  }

  /** An uninhabited fragment has a reachable state that is stuck before the accept state. */
  lemma {:induction false} DeadState(g: Graph, f: Frag) returns (q: nat)
    requires Wired(g, f) && !Inhabited(Erase(f))
    ensures Inner(f, q) && Stuck(g, q) && CanReach(g, Start(f), q)
    decreases f
  {
    match f
    case FSym(s, pred, a) =>
      q := s;
      CanReachSelf(g, s);
    case FCat(x, y) =>
      if Inhabited(Erase(x)) {
        q := DeadState(g, y);
        StartOwned(x);
        LiveState(g, x, Start(x));
        CanReachLink(g, Accept(x), Start(y));
        CanReachJoin(g, Start(x), Accept(x), Start(y));
        CanReachJoin(g, Start(x), Start(y), q);
      } else {
        q := DeadState(g, x);
      }
    case FAlt(s, a, fs) =>
      if fs == [] {
        q := s;
        CanReachSelf(g, s);
      } else {
        var b :| 0 <= b < |fs| && !Inhabited(EraseAll(fs)[b]);
        q := DeadState(g, fs[b]);
        CanReachLink(g, s, Start(fs[b]));
        CanReachJoin(g, s, Start(fs[b]), q);
      }
    case FStar(s, a, x) =>
      q := DeadState(g, x);
      CanReachLink(g, s, Start(x));
      CanReachJoin(g, s, Start(x), q);
    case FPlus(s, a, x) =>
      q := DeadState(g, x);
      CanReachLink(g, s, Start(x));
      CanReachJoin(g, s, Start(x), q);
    case FOpt(s, a, x) =>
      q := DeadState(g, x);
      CanReachLink(g, s, Start(x));
      CanReachJoin(g, s, Start(x), q);
  }

  /** Every reachable state can still finish exactly when no class of the pattern is empty. */
  lemma LiveExactly(g: Graph, f: Frag)
    requires Closed(g, f)
    ensures AllLive(g, f) <==> Inhabited(Erase(f))
  {
    if Inhabited(Erase(f)) {
      forall w: string, t: nat | t in ReadSet(g, EpsClose(g, {Start(f)}), w)
        ensures CanReach(g, t, Accept(f))
      {
        ReachableOwned(g, f, w, t);
        LiveState(g, f, t);
      }
    } else {
      var q := DeadState(g, f);
      var w: string :| Reach(g, w, Start(f), 0, q, |w|);
      StartOwned(f);
      WiredInGraph(g, f, Start(f));
      ReadSetIsReach(g, Start(f), w, q);
      if CanReach(g, q, Accept(f)) { StuckStays(g, q, Accept(f)); }
    }
  }
}
