/** Compiling a pattern into a token automaton: the worklist loop that runs the NFA over whole
    vocabulary tokens, and what every run of the result means for the text it spells. */
module RegexFsa {
  import opened Counting
  import opened Options
  import opened Regex
  import opened Pattern
  import opened NfaModel
  import opened Thompson
  import opened Assembly
  import opened PatternParser
  import opened TokenFsas
  import opened SubsetConstruction

  /** The compiled pattern as the proofs see it: its graph and the fragment of the whole pattern. */
  datatype Machine = Machine(g: Graph, f: Frag)

  /** The set simulation of a machine. */
  ghost function SimOf(m: Machine): Sim {
    Sim(EpsClose(m.g, {Start(m.f)}), (S: States, w: string) => ReadSet(m.g, S, w), (S: States) => Accept(m.f) in S)
  }

  lemma SimLawful(m: Machine)
    requires Closed(m.g, m.f)
    ensures Lawful(SimOf(m))
  {
    var sim := SimOf(m);
    InitialNonEmpty(m);
    forall S: States, u: string, v: string ensures sim.read(sim.read(S, u), v) == sim.read(S, u + v) {
      ReadSetConcat(m.g, S, u, v);
    }
    forall w: string ensures sim.read({}, w) == {} {
      ReadSetEmpty(m.g, w);
    }
  }

  lemma InitialNonEmpty(m: Machine)
    requires Closed(m.g, m.f)
    ensures Start(m.f) in SimOf(m).init
    ensures forall q :: q in SimOf(m).init ==> q < |m.g.eps|
  {
    StartOwned(m.f);
    WiredInGraph(m.g, m.f, Start(m.f));
    ReachRefl(m.g, [], Start(m.f), 0);
    assert Start(m.f) in {Start(m.f)};
    assert EpsReach(m.g, {Start(m.f)}, Start(m.f));
  }

  /** sim is the set simulation of the graph g. */
  ghost predicate Simulates(sim: Sim, g: Graph) {
    && WellFormed(g) && Lawful(sim)
    && (forall q :: q in sim.init ==> q < |g.eps|)
    && (forall S: States, w: string {:trigger ReadSet(g, S, w)} :: sim.read(S, w) == ReadSet(g, S, w))
  }

  lemma ReachedInGraph(sim: Sim, g: Graph, S: States)
    requires Simulates(sim, g) && Reached(sim, S)
    ensures forall q :: q in S ==> q < |g.eps|
  {
    var w: string :| S == sim.read(sim.init, w);
    assert S == ReadSet(g, sim.init, w);
    ReadSetInGraph(g, sim.init, w);
  }

  /** Only so many different sets can be reached. */
  lemma EnoughStates(sim: Sim, g: Graph, maxStates: int, sets: set<States>)
    requires Simulates(sim, g) && maxStates >= Pow2(|g.eps|)
    ensures !TooMany(sim, maxStates, sets)
  {
    if forall S :: S in sets ==> S == {} || Reached(sim, S) {
      forall S | S in sets ensures forall q :: q in S ==> q < |g.eps| {
        if S != {} { ReachedInGraph(sim, g, S); }
      }
      SetsBelow(sets, |g.eps|);
    }
  }

  // --- the compiler ---------------------------------------------------------------------------

  datatype Compiled = Fsa(fsa: TokenFsa) | SyntaxError(error: Pattern.Error) | TooManyStates

  /** Runs one token's text through the NFA, giving up as soon as no state is left. */
  method WalkToken(nfa: Nfa, cur: States, text: string) returns (nxt: States)
    requires WellFormed(nfa.Value()) && forall q :: q in cur ==> q < |nfa.eps|
    ensures nxt == ReadSet(nfa.Value(), cur, text)
  {
    nxt := cur;
    assert text[..0] == [];
    for k := 0 to |text|
      invariant nxt == ReadSet(nfa.Value(), cur, text[..k])
      invariant forall q :: q in nxt ==> q < |nfa.eps|
    {
      assert text[..k + 1][..k] == text[..k];
      nxt := nfa.Step(nxt, text[k]);
      if nxt == {} {
        ReadSetDead(nfa.Value(), cur, text[..k + 1], text[k + 1..]);
        assert text[..k + 1] + text[k + 1..] == text;
        return;
      }
    }
    assert text[..|text|] == text;
  }

  method RegexToTokenFsa(tb: Ctype, pattern: string, vocab: Vocab, eos: Option<int>, maxStates: int)
    returns (r: Compiled, ghost m: Machine, ghost ids: Numbering)
    ensures Read(tb, pattern).Fail? ==> r == SyntaxError(Read(tb, pattern).error)
    ensures Read(tb, pattern).Ok? ==> !r.SyntaxError?
    ensures Read(tb, pattern).Ok? ==> Closed(m.g, m.f) && Erase(m.f) == Meaning(tb, Read(tb, pattern).value)
    ensures r.Fsa? ==> Correct(SimOf(m), vocab, eos, r.fsa, ids)
    ensures r.TooManyStates? ==> exists sets :: TooMany(SimOf(m), maxStates, sets)
    ensures maxStates >= Pow2(|m.g.eps|) ==> !r.TooManyStates?
  {
    m, ids := Machine(Graph([], []), FEps(0)), map[];
    var nfa := new Nfa();
    var parser := new Parser(tb, pattern, nfa);
    ghost var f;
    var frag;
    frag, f := parser.Parse();
    if frag.Error? {
      return SyntaxError(frag.error), m, ids;
    }
    m := Machine(nfa.Value(), f);
    SimLawful(m);
    InitialNonEmpty(m);
    StartOwned(f);
    WiredInGraph(m.g, f, Start(f));
    r, ids := Subsets(nfa, frag.a, frag.s, vocab, eos, maxStates, SimOf(m));
    if r.TooManyStates? && maxStates >= Pow2(|m.g.eps|) {
      var sets :| TooMany(SimOf(m), maxStates, sets);
      EnoughStates(SimOf(m), m.g, maxStates, sets);
      assert false;
    }
  }

  /** The worklist loop over state sets. */
  method Subsets(nfa: Nfa, accept: nat, start: nat, vocab: Vocab, eos: Option<int>, maxStates: int, ghost sim: Sim)
    returns (r: Compiled, ghost ids: Numbering)
    requires Simulates(sim, nfa.Value()) && start < |nfa.eps| && sim.init == EpsClose(nfa.Value(), {start})
    requires forall S: States :: sim.acc(S) <==> accept in S
    ensures !r.SyntaxError?
    ensures r.Fsa? ==> Correct(sim, vocab, eos, r.fsa, ids)
    ensures r.TooManyStates? ==> exists sets :: TooMany(sim, maxStates, sets)
  {
    var startSet := nfa.Closure({start});
    var k := Work(map[startSet := 0], [startSet], None, map[], {});
    Initial(sim, vocab, eos, k, maxStates);
    var full;
    k, full := ProcessQueue(nfa, k, accept, vocab, eos, maxStates, sim);
    if full { return TooManyStates, k.ids; }
    var fsa := MakeTokenFsa(k.transitions, 0, k.accepting);
    Finished(sim, vocab, eos, k, |k.order|, maxStates, fsa);
    return Fsa(fsa), k.ids;
  }

  /** Row after row, until the queue is used up. */
  method ProcessQueue(nfa: Nfa, k0: Work, accept: nat, vocab: Vocab, eos: Option<int>, maxStates: int, ghost sim: Sim)
    returns (k: Work, full: bool)
    requires Simulates(sim, nfa.Value()) && forall S: States :: sim.acc(S) <==> accept in S
    requires Between(sim, vocab, eos, k0, 0, maxStates)
    ensures full ==> exists sets :: TooMany(sim, maxStates, sets)
    ensures !full ==> Between(sim, vocab, eos, k, |k.order|, maxStates)
  {
    k, full := k0, false;
    var qi := 0;
    while qi < |k.order|
      invariant qi <= |k.order| && Between(sim, vocab, eos, k, qi, maxStates)
      decreases Bound(maxStates) - qi
    {
      k, full := ProcessRow(nfa, k, qi, accept, vocab, eos, maxStates, sim);
      if full { return; }
      qi := qi + 1;
    }
  }

  /** Takes the next set off the queue and completes its row. */
  method ProcessRow(nfa: Nfa, k0: Work, qi: nat, accept: nat, vocab: Vocab, eos: Option<int>, maxStates: int,
                    ghost sim: Sim)
    returns (k: Work, full: bool)
    requires Simulates(sim, nfa.Value()) && forall S: States :: sim.acc(S) <==> accept in S
    requires Between(sim, vocab, eos, k0, qi, maxStates) && qi < |k0.order|
    ensures full ==> exists sets :: TooMany(sim, maxStates, sets)
    ensures !full ==> Between(sim, vocab, eos, k, qi + 1, maxStates) && qi < |k.order|
  {
    k := BeginRow(k0, qi, accept in k0.order[qi], vocab, eos, maxStates, sim);
    k, full := FillRow(nfa, k, qi, vocab, eos, maxStates, sim);
    if !full { EndRow(sim, vocab, eos, k, qi); }
  }

  /** The loop over the vocabulary that fills one row. */
  method FillRow(nfa: Nfa, k0: Work, qi: nat, vocab: Vocab, eos: Option<int>, maxStates: int, ghost sim: Sim)
    returns (k: Work, full: bool)
    requires Simulates(sim, nfa.Value())
    requires Inside(sim, vocab, eos, k0, qi, {}, maxStates)
    ensures full ==> exists sets :: TooMany(sim, maxStates, sets)
    ensures !full ==> Inside(sim, vocab, eos, k, qi, vocab.Keys, maxStates)
  {
    k, full := k0, false;
    var tokens := SetToSeq(vocab.Keys);
    ghost var done := PrefixSets(tokens, vocab.Keys);
    for n := 0 to |tokens|
      invariant Inside(sim, vocab, eos, k, qi, done[n], maxStates)
    {
      k, full := TokenStep(nfa, k, qi, tokens[n], done[n], vocab, eos, maxStates, sim);
      if full { return; }
    }
  }

  /** The sets of the first n elements of a sequence, for every n. */
  lemma PrefixSets<T>(q: seq<T>, all: set<T>) returns (p: seq<set<T>>)
    requires forall x :: x in q <==> x in all
    ensures |p| == |q| + 1 && p[0] == {} && p[|q|] == all
    ensures forall n :: 0 <= n < |q| ==> p[n + 1] == p[n] + {q[n]}
  {
    p := seq(|q| + 1, n requires 0 <= n <= |q| => set x | x in q[..n]);
    assert q[..|q|] == q;
    forall n | 0 <= n < |q| ensures p[n + 1] == p[n] + {q[n]} {
      assert q[..n + 1] == q[..n] + [q[n]];
    }
  }

  /** Walks one token from the current set and records where it leads, if anywhere. */
  method TokenStep(nfa: Nfa, k0: Work, qi: nat, t: int, ghost done: set<int>, vocab: Vocab, eos: Option<int>,
                   maxStates: int, ghost sim: Sim)
    returns (k: Work, full: bool)
    requires Simulates(sim, nfa.Value())
    requires Inside(sim, vocab, eos, k0, qi, done, maxStates) && t in vocab
    ensures full ==> exists sets :: TooMany(sim, maxStates, sets)
    ensures !full ==> Inside(sim, vocab, eos, k, qi, done + {t}, maxStates)
  {
    var cur := k0.order[qi];
    ReachedInGraph(sim, nfa.Value(), cur);
    var nxt := WalkToken(nfa, cur, vocab[t]);
    if vocab[t] == "" || nxt == {} {
      SkipToken(sim, vocab, eos, k0, qi, done, t);
      k, full := k0, false;
    } else {
      k, full := AddEdge(k0, qi, t, nxt, done, vocab, eos, maxStates, sim);
    }
  }
}
