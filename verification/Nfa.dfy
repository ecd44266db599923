/** The NFA with epsilon edges: its graph, its paths, and the set simulation that runs it. */
module NfaModel {
  import opened Counting
  import opened Regex

  datatype Arrow = Arrow(pred: CharPred, dst: nat)

  /** The two lists of an NFA object, as a value: per state, its epsilon targets and its symbol arrows. */
  datatype Graph = Graph(eps: seq<set<nat>>, sym: seq<seq<Arrow>>)

  ghost predicate WellFormed(g: Graph) {
    && |g.eps| == |g.sym|
    && (forall q, t :: 0 <= q < |g.eps| && t in g.eps[q] ==> t < |g.eps|)
    && (forall q, k :: 0 <= q < |g.sym| && 0 <= k < |g.sym[q]| ==> g.sym[q][k].dst < |g.eps|)
  }

  /** One edge of g taken while position i of w is the next one to read. */
  ghost predicate Edge(g: Graph, w: string, q: nat, i: nat, t: nat, j: nat) {
    || (q < |g.eps| && t in g.eps[q] && j == i)
    || (q < |g.sym| && i < |w| && j == i + 1 && SymEdge(g.sym[q], w[i], t))
  }

  ghost predicate SymEdge(arrows: seq<Arrow>, c: char, t: nat) {
    exists k :: 0 <= k < |arrows| && arrows[k].pred(c) && arrows[k].dst == t
  }

  /** A walk of n edges from state q at position i to state t at position j. */
  ghost predicate Path(g: Graph, w: string, q: nat, i: nat, t: nat, j: nat, n: nat)
    decreases n
  {
    if n == 0 then q == t && i == j
    else exists m: nat, k: nat :: Edge(g, w, q, i, m, k) && Path(g, w, m, k, t, j, n - 1)
  }

  lemma PathStep(g: Graph, w: string, q: nat, i: nat, t: nat, j: nat, n: nat) returns (m: nat, k: nat)
    requires n > 0 && Path(g, w, q, i, t, j, n)
    ensures Edge(g, w, q, i, m, k) && Path(g, w, m, k, t, j, n - 1)
  {
    m, k :| Edge(g, w, q, i, m, k) && Path(g, w, m, k, t, j, n - 1);
  }

  lemma PathCons(g: Graph, w: string, q: nat, i: nat, m: nat, k: nat, t: nat, j: nat, n: nat)
    requires Edge(g, w, q, i, m, k) && Path(g, w, m, k, t, j, n)
    ensures Path(g, w, q, i, t, j, n + 1)
  {}

  lemma {:induction false} PathJoin(g: Graph, w: string, q: nat, i: nat, m: nat, k: nat, n: nat, t: nat, j: nat,
                                    n': nat)
    requires Path(g, w, q, i, m, k, n) && Path(g, w, m, k, t, j, n')
    ensures Path(g, w, q, i, t, j, n + n')
    decreases n
  {
    if n > 0 {
      var q', i' := PathStep(g, w, q, i, m, k, n);
      PathJoin(g, w, q', i', m, k, n - 1, t, j, n');
      PathCons(g, w, q, i, q', i', t, j, n - 1 + n');
    }
  }

  /** Some walk leads from q at position i to t at position j. */
  ghost predicate Reach(g: Graph, w: string, q: nat, i: nat, t: nat, j: nat) {
    exists n: nat :: Path(g, w, q, i, t, j, n)
  }

  lemma ReachRefl(g: Graph, w: string, q: nat, i: nat)
    ensures Reach(g, w, q, i, q, i)
  {
    assert Path(g, w, q, i, q, i, 0);
  }

  lemma ReachJoin(g: Graph, w: string, q: nat, i: nat, m: nat, k: nat, t: nat, j: nat)
    requires Reach(g, w, q, i, m, k) && Reach(g, w, m, k, t, j)
    ensures Reach(g, w, q, i, t, j)
  {
    var n: nat :| Path(g, w, q, i, m, k, n);
    var n': nat :| Path(g, w, m, k, t, j, n');
    PathJoin(g, w, q, i, m, k, n, t, j, n');
  }

  lemma ReachEdge(g: Graph, w: string, q: nat, i: nat, t: nat, j: nat)
    requires Edge(g, w, q, i, t, j)
    ensures Reach(g, w, q, i, t, j)
  {
    assert Path(g, w, t, j, t, j, 0);
    PathCons(g, w, q, i, t, j, t, j, 0);
  }

  lemma PathSnoc(g: Graph, w: string, q: nat, i: nat, m: nat, k: nat, n: nat, t: nat, j: nat)
    requires Path(g, w, q, i, m, k, n) && Edge(g, w, m, k, t, j)
    ensures Path(g, w, q, i, t, j, n + 1)
  {
    assert Path(g, w, t, j, t, j, 0);
    PathCons(g, w, m, k, t, j, t, j, 0);
    PathJoin(g, w, q, i, m, k, n, t, j, 1);
  }

  lemma {:induction false} PathOrder(g: Graph, w: string, q: nat, i: nat, t: nat, j: nat, n: nat)
    requires Path(g, w, q, i, t, j, n)
    ensures i <= j && (i < j ==> j <= |w|)
    decreases n
  {
    if n > 0 {
      var m, k := PathStep(g, w, q, i, t, j, n);
      PathOrder(g, w, m, k, t, j, n - 1);
    }
  }

  /** The last edge of a walk. */
  lemma {:induction false} PathUnsnoc(g: Graph, w: string, q: nat, i: nat, t: nat, j: nat, n: nat)
    returns (m: nat, k: nat)
    requires n > 0 && Path(g, w, q, i, t, j, n)
    ensures Path(g, w, q, i, m, k, n - 1) && Edge(g, w, m, k, t, j)
    decreases n
  {
    var q', i' := PathStep(g, w, q, i, t, j, n);
    if n == 1 {
      m, k := q, i;
    } else {
      m, k := PathUnsnoc(g, w, q', i', t, j, n - 1);
      PathCons(g, w, q, i, q', i', m, k, n - 2);
    }
  }

  /** A walk only looks at the characters it reads. */
  lemma {:induction false} PathSlice(g: Graph, w: string, q: nat, i: nat, t: nat, j: nat, n: nat, v: string, d: nat)
    requires Path(g, w, q, i, t, j, n)
    requires i <= j <= |w| && d + (j - i) <= |v| && w[i..j] == v[d..d + (j - i)]
    ensures Path(g, v, q, d, t, d + (j - i), n)
    decreases n
  {
    if n > 0 {
      var m, k := PathStep(g, w, q, i, t, j, n);
      PathOrder(g, w, m, k, t, j, n - 1);
      if k > i { assert w[i] == w[i..j][0] == v[d]; }
      Subslices(w, i, k, j, v, d);
      PathSlice(g, w, m, k, t, j, n - 1, v, d + (k - i));
      PathCons(g, v, q, d, m, d + (k - i), t, d + (j - i), n - 1);
    }
  }

  // --- the set simulation ------------------------------------------------------------

  /** States reachable from S by epsilon edges alone. */
  ghost function EpsClose(g: Graph, S: set<nat>): set<nat> {
    set t | 0 <= t < |g.eps| && EpsReach(g, S, t)
  }

  ghost predicate EpsReach(g: Graph, S: set<nat>, t: nat) {
    exists q: nat :: q in S && Reach(g, [], q, 0, t, 0)
  }

  /** Targets of the arrows out of S that accept c. */
  ghost function MoveSet(g: Graph, S: set<nat>, c: char): set<nat> {
    set t | 0 <= t < |g.eps| && MoveReach(g, S, c, t)
  }

  ghost predicate MoveReach(g: Graph, S: set<nat>, c: char, t: nat) {
    exists q: nat :: q in S && q < |g.sym| && SymEdge(g.sym[q], c, t)
  }

  /** One simulated step: the arrows for c, then the epsilon closure. */
  ghost function StepSet(g: Graph, S: set<nat>, c: char): set<nat> {
    EpsClose(g, MoveSet(g, S, c))
  }

  /** The state set after reading w from the set S. */
  ghost function ReadSet(g: Graph, S: set<nat>, w: string): set<nat>
    decreases |w|
  {
    if w == [] then S else StepSet(g, ReadSet(g, S, w[..|w| - 1]), w[|w| - 1])
  }

  lemma {:induction false} ReadSetConcat(g: Graph, S: set<nat>, u: string, v: string)
    ensures ReadSet(g, S, u + v) == ReadSet(g, ReadSet(g, S, u), v)
    decreases |v|
  {
    if v == [] {
      assert u + v == u;
    } else {
      assert (u + v)[..|u + v| - 1] == u + v[..|v| - 1];
      ReadSetConcat(g, S, u, v[..|v| - 1]);
    }
  }

  lemma {:induction false} ReadSetEmpty(g: Graph, w: string)
    ensures ReadSet(g, {}, w) == {}
    decreases |w|
  {
    if w != [] {
      ReadSetEmpty(g, w[..|w| - 1]);
      assert MoveSet(g, {}, w[|w| - 1]) == {};
    }
  }

  /** Once the simulation has no state left it never recovers one. */
  lemma ReadSetDead(g: Graph, S: set<nat>, u: string, v: string)
    requires ReadSet(g, S, u) == {}
    ensures ReadSet(g, S, u + v) == {}
  {
    ReadSetConcat(g, S, u, v);
    ReadSetEmpty(g, v);
  }

  lemma ReadSetInGraph(g: Graph, S: set<nat>, w: string)
    requires forall q :: q in S ==> q < |g.eps|
    ensures forall q :: q in ReadSet(g, S, w) ==> q < |g.eps|
  {}

  /** An epsilon walk can be replayed at any position of any text. */
  lemma EpsReachAt(g: Graph, q: nat, t: nat, w: string, i: nat)
    requires Reach(g, [], q, 0, t, 0) && i <= |w|
    ensures Reach(g, w, q, i, t, i)
  {
    var n: nat :| Path(g, [], q, 0, t, 0, n);
    assert [][0..0] == w[i..i];
    PathSlice(g, [], q, 0, t, 0, n, w, i);
  }

  lemma ReachSlice(g: Graph, w: string, q: nat, i: nat, t: nat, j: nat, v: string, d: nat)
    requires Reach(g, w, q, i, t, j)
    requires i <= j <= |w| && d + (j - i) <= |v| && w[i..j] == v[d..d + (j - i)]
    ensures Reach(g, v, q, d, t, d + (j - i))
  {
    var n: nat :| Path(g, w, q, i, t, j, n);
    PathSlice(g, w, q, i, t, j, n, v, d);
  }

  /** A walk that reads all of w ends with its last symbol edge followed by epsilon edges. */
  lemma {:induction false} LastSymbol(g: Graph, w: string, q: nat, t: nat, n: nat) returns (q1: nat, q2: nat)
    requires |w| > 0 && Path(g, w, q, 0, t, |w|, n)
    ensures Reach(g, w, q, 0, q1, |w| - 1)
    ensures q1 < |g.sym| && SymEdge(g.sym[q1], w[|w| - 1], q2)
    ensures Reach(g, [], q2, 0, t, 0)
    decreases n
  {
    var m, k := PathUnsnoc(g, w, q, 0, t, |w|, n);
    if k < |w| {
      q1, q2 := m, t;
      ReachRefl(g, [], t, 0);
    } else {
      q1, q2 := LastSymbol(g, w, q, m, n - 1);
      assert Edge(g, [], m, 0, t, 0);
      ReachEdge(g, [], m, 0, t, 0);
      ReachJoin(g, [], q2, 0, m, 0, t, 0);
    }
  }

  /** The set simulation is exactly reachability: t is in the set after w when some walk reads w and ends in t. */
  lemma {:induction false} ReadSetIsReach(g: Graph, s: nat, w: string, t: nat)
    requires WellFormed(g) && s < |g.eps|
    ensures t in ReadSet(g, EpsClose(g, {s}), w) <==> Reach(g, w, s, 0, t, |w|)
    decreases |w|
  {
    if t in ReadSet(g, EpsClose(g, {s}), w) { ReadSetSound(g, s, w, t); }
    if Reach(g, w, s, 0, t, |w|) { ReadSetComplete(g, s, w, t); }
  }

  lemma {:induction false} ReadSetSound(g: Graph, s: nat, w: string, t: nat)
    requires t in ReadSet(g, EpsClose(g, {s}), w)
    ensures Reach(g, w, s, 0, t, |w|)
    decreases |w|
  {
    if w != [] {
      var u, c := w[..|w| - 1], w[|w| - 1];
      var q1, q2 := StepSetWitness(g, ReadSet(g, EpsClose(g, {s}), u), c, t);
      ReadSetSound(g, s, u, q1);
      ReachSlice(g, u, s, 0, q1, |u|, w, 0);
      ReachEdge(g, w, q1, |u|, q2, |w|);
      ReachJoin(g, w, s, 0, q1, |u|, q2, |w|);
      EpsReachAt(g, q2, t, w, |w|);
      ReachJoin(g, w, s, 0, q2, |w|, t, |w|);
    }
  }

  lemma {:induction false} ReadSetComplete(g: Graph, s: nat, w: string, t: nat)
    requires WellFormed(g) && s < |g.eps| && Reach(g, w, s, 0, t, |w|)
    ensures t in ReadSet(g, EpsClose(g, {s}), w)
    decreases |w|
  {
    var n: nat :| Path(g, w, s, 0, t, |w|, n);
    PathInGraph(g, w, s, 0, t, |w|, n);
    if w != [] {
      var u, c := w[..|w| - 1], w[|w| - 1];
      var q1, q2 := LastSymbol(g, w, s, t, n);
      ReachSlice(g, w, s, 0, q1, |u|, u, 0);
      ReadSetComplete(g, s, u, q1);
      StepSetHas(g, ReadSet(g, EpsClose(g, {s}), u), c, q1, q2, t);
    } else {
      assert s in {s};
    }
  }

  lemma StepSetWitness(g: Graph, R: set<nat>, c: char, t: nat) returns (q1: nat, q2: nat)
    requires t in StepSet(g, R, c)
    ensures q1 in R && q1 < |g.sym| && SymEdge(g.sym[q1], c, q2) && Reach(g, [], q2, 0, t, 0)
  {
    q2 :| q2 in MoveSet(g, R, c) && Reach(g, [], q2, 0, t, 0);
    q1 :| q1 in R && q1 < |g.sym| && SymEdge(g.sym[q1], c, q2);
  }

  lemma StepSetHas(g: Graph, R: set<nat>, c: char, q1: nat, q2: nat, t: nat)
    requires WellFormed(g) && q1 in R && q1 < |g.sym| && SymEdge(g.sym[q1], c, q2)
    requires t < |g.eps| && Reach(g, [], q2, 0, t, 0)
    ensures t in StepSet(g, R, c)
  {
    assert MoveReach(g, R, c, q2);
    assert q2 in MoveSet(g, R, c);
    assert EpsReach(g, MoveSet(g, R, c), t);
  }

  lemma {:induction false} PathInGraph(g: Graph, w: string, q: nat, i: nat, t: nat, j: nat, n: nat)
    requires WellFormed(g) && q < |g.eps| && Path(g, w, q, i, t, j, n)
    ensures t < |g.eps|
    decreases n
  {
    if n > 0 {
      var m, k := PathStep(g, w, q, i, t, j, n);
      PathInGraph(g, w, m, k, t, j, n - 1);
    }
  }

  /** A set closed under epsilon edges that contains S contains everything S reaches. */
  lemma {:induction false} ClosedContains(g: Graph, C: set<nat>, q: nat, t: nat, n: nat)
    requires forall a, b :: a in C && a < |g.eps| && b in g.eps[a] ==> b in C
    requires q in C && Path(g, [], q, 0, t, 0, n)
    ensures t in C
    decreases n
  {
    if n > 0 {
      var m, k := PathStep(g, [], q, 0, t, 0, n);
      ClosedContains(g, C, m, t, n - 1);
    }
  }

  lemma EpsReachEdge(g: Graph, S: set<nat>, s: nat, t: nat)
    requires EpsReach(g, S, s) && s < |g.eps| && t in g.eps[s]
    ensures EpsReach(g, S, t)
  {
    var q: nat :| q in S && Reach(g, [], q, 0, s, 0);
    ReachEdge(g, [], s, 0, t, 0);
    ReachJoin(g, [], q, 0, s, 0, t, 0);
  }

  /** The closure is the only closed set between S and what S reaches. */
  lemma ClosureUnique(g: Graph, S: set<nat>, C: set<nat>)
    requires ClosureInv(g, S, C, [])
    ensures C == EpsClose(g, S)
  {
    forall t: nat | t < |g.eps| && EpsReach(g, S, t) ensures t in C {
      var q: nat :| q in S && Reach(g, [], q, 0, t, 0);
      var n: nat :| Path(g, [], q, 0, t, 0, n);
      ClosedContains(g, C, q, t, n);
    }
  }

  ghost function States(g: Graph): set<nat> {
    set q: nat {:trigger g.eps[q]} | q < |g.eps|
  }

  /** Invariant of the closure loop: seen is reachable, and only stacked states may have unseen targets. */
  ghost predicate ClosureInv(g: Graph, S: set<nat>, seen: set<nat>, stack: seq<nat>) {
    && S <= seen <= States(g)
    && (forall q :: q in seen ==> EpsReach(g, S, q))
    && (forall q :: q in stack ==> q in seen)
    && (forall a, b :: a in seen && a !in stack && b in g.eps[a] ==> b in seen)
  }

  lemma ClosureInit(g: Graph, S: set<nat>, stack: seq<nat>)
    requires forall q :: q in S ==> q < |g.eps|
    requires forall q :: q in stack <==> q in S
    ensures ClosureInv(g, S, S, stack)
  {
    forall q | q in S ensures EpsReach(g, S, q) {
      ReachRefl(g, [], q, 0);
    }
  }

  lemma ClosureStep(g: Graph, S: set<nat>, seen: set<nat>, stack: seq<nat>, seen': set<nat>, stack': seq<nat>)
    requires WellFormed(g) && ClosureInv(g, S, seen, stack) && stack != []
    requires stack[|stack| - 1] < |g.eps|
    requires seen' == seen + g.eps[stack[|stack| - 1]]
    requires forall q :: q in stack' <==>
      q in stack[..|stack| - 1] || (q in g.eps[stack[|stack| - 1]] && q !in seen)
    ensures ClosureInv(g, S, seen', stack')
  {
    var s := stack[|stack| - 1];
    assert s in stack;
    forall t | t in g.eps[s] ensures t in States(g) && EpsReach(g, S, t) {
      EpsReachEdge(g, S, s, t);
    }
    forall a, b | a in seen' && a !in stack' && b in g.eps[a] ensures b in seen' {
      if a != s {
        assert a in seen;
        assert a !in stack;
      }
    }
  }

  lemma {:induction false} SymEdgeSnoc(arrows: seq<Arrow>, a: Arrow, c: char, t: nat)
    ensures SymEdge(arrows + [a], c, t) <==> SymEdge(arrows, c, t) || (a.pred(c) && a.dst == t)
  {
    var all := arrows + [a];
    if SymEdge(arrows, c, t) {
      var k :| 0 <= k < |arrows| && arrows[k].pred(c) && arrows[k].dst == t;
      assert all[k].pred(c) && all[k].dst == t;
    }
    if a.pred(c) && a.dst == t {
      assert all[|arrows|] == a;
    }
    if SymEdge(all, c, t) {
      var k :| 0 <= k < |all| && all[k].pred(c) && all[k].dst == t;
      assert k < |arrows| ==> arrows[k] == all[k];
    }
  }

  lemma MoveReachAdd(g: Graph, S: set<nat>, s: nat, c: char, t: nat)
    requires s < |g.sym|
    ensures MoveReach(g, S + {s}, c, t) <==> MoveReach(g, S, c, t) || SymEdge(g.sym[s], c, t)
  {
    if SymEdge(g.sym[s], c, t) { assert s in S + {s}; }
    if MoveReach(g, S, c, t) {
      var q: nat :| q in S && q < |g.sym| && SymEdge(g.sym[q], c, t);
      assert q in S + {s};
    }
  }

  // --- the NFA object ----------------------------------------------------------------

  /** The append-only NFA that the parser grows. */
  class Nfa {
    var eps: seq<set<nat>>
    var sym: seq<seq<Arrow>>

    constructor ()
      ensures Value() == Graph([], [])
    {
      eps, sym := [], [];
    }

    function Value(): Graph
      reads this
    {
      Graph(eps, sym)
    }

    method New() returns (q: nat)
      modifies this
      ensures q == |old(eps)|
      ensures eps == old(eps) + [{}] && sym == old(sym) + [[]]
    {
      eps := eps + [{}];
      sym := sym + [[]];
      q := |eps| - 1;
    }

    /** Adds an epsilon edge from q to t. */
    method AddEps(q: nat, t: nat)
      requires q < |eps|
      modifies this`eps
      ensures eps == old(eps)[q := old(eps)[q] + {t}]
    {
      eps := eps[q := eps[q] + {t}];
    }

    /** Appends a symbol arrow from q to t. */
    method AddSym(q: nat, pred: CharPred, t: nat)
      requires q < |sym|
      modifies this`sym
      ensures sym == old(sym)[q := old(sym)[q] + [Arrow(pred, t)]]
    {
      sym := sym[q := sym[q] + [Arrow(pred, t)]];
    }

    /** Depth-first epsilon closure with an explicit stack. */
    method Closure(states: set<nat>) returns (seen: set<nat>)
      requires WellFormed(Value())
      requires forall q :: q in states ==> q < |eps|
      ensures seen == EpsClose(Value(), states)
    {
      var stack := SetToSeq(states);
      seen := states;
      ClosureInit(Value(), states, stack);
      while stack != []
        invariant ClosureInv(Value(), states, seen, stack)
        decreases States(Value()) - seen, |stack|
      {
        seen, stack := Pop(states, seen, stack);
      }
      ClosureUnique(Value(), states, seen);
    }

    /** Takes one state off the stack and follows its epsilon edges. */
    method Pop(ghost states: set<nat>, seen0: set<nat>, stack0: seq<nat>) returns (seen: set<nat>, stack: seq<nat>)
      requires WellFormed(Value()) && ClosureInv(Value(), states, seen0, stack0) && stack0 != []
      ensures ClosureInv(Value(), states, seen, stack)
      ensures seen0 <= seen <= States(Value()) && (seen == seen0 ==> |stack| < |stack0|)
    {
      var s := stack0[|stack0| - 1];
      assert s in stack0;
      seen, stack := PushNew(eps[s], seen0, stack0[..|stack0| - 1]);
      ClosureStep(Value(), states, seen0, stack0, seen, stack);
    }

    /** One step of the simulation on character ch. */
    method Step(states: set<nat>, ch: char) returns (r: set<nat>)
      requires WellFormed(Value())
      requires forall q :: q in states ==> q < |eps|
      ensures r == StepSet(Value(), states, ch)
    {
      var nxt: set<nat> := {};
      var todo := states;
      while todo != {}
        invariant todo <= states
        invariant forall t: nat :: t in nxt <==> MoveReach(Value(), states - todo, ch, t)
        decreases todo
      {
        var s :| s in todo;
        ghost var done := states - todo;
        todo := todo - {s};
        assert states - todo == done + {s};
        var arrows := sym[s];
        for k := 0 to |arrows|
          invariant forall t: nat :: t in nxt <==> MoveReach(Value(), done, ch, t) || SymEdge(arrows[..k], ch, t)
        {
          assert arrows[..k + 1] == arrows[..k] + [arrows[k]];
          forall t: nat
            ensures SymEdge(arrows[..k + 1], ch, t) <==>
                    SymEdge(arrows[..k], ch, t) || (arrows[k].pred(ch) && arrows[k].dst == t)
          {
            SymEdgeSnoc(arrows[..k], arrows[k], ch, t);
          }
          if arrows[k].pred(ch) {
            nxt := nxt + {arrows[k].dst};
          }
        }
        assert arrows[..|arrows|] == arrows;
        forall t: nat ensures t in nxt <==> MoveReach(Value(), done + {s}, ch, t) {
          MoveReachAdd(Value(), done, s, ch, t);
        }
      }
      assert states - todo == states;
      assert nxt == MoveSet(Value(), states, ch);
      r := Closure(nxt);
    }
  }

  /** Marks every target that has not been seen yet and puts it on the stack. */
  method PushNew(targets: set<nat>, seen: set<nat>, stack: seq<nat>) returns (seen': set<nat>, stack': seq<nat>)
    ensures seen' == seen + targets
    ensures forall q :: q in stack' <==> q in stack || (q in targets && q !in seen)
    ensures targets <= seen ==> stack' == stack
  {
    seen', stack' := seen, stack;
    var todo := targets;
    while todo != {}
      invariant todo <= targets
      invariant seen' == seen + (targets - todo)
      invariant forall q :: q in stack' <==> q in stack || (q in targets - todo && q !in seen)
      invariant targets <= seen ==> stack' == stack
      decreases todo
    {
      var t :| t in todo;
      todo := todo - {t};
      if t !in seen' {
        seen' := seen' + {t};
        stack' := stack' + [t];
      }
    }
  }
}
