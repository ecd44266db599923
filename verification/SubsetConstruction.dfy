/** The subset construction over vocabulary tokens, for any simulation that maps a state set and
    a text to a state set.  The simulation is kept abstract here; RegexFsa supplies the NFA's. */
module SubsetConstruction {
  import opened Counting
  import opened Options
  import opened TokenFsas

  type States = set<nat>

  /** A deterministic simulation: where it starts, how a text moves it, and which sets accept. */
  datatype Sim = Sim(init: States, read: (States, string) -> States, acc: States -> bool)

  ghost predicate Lawful(m: Sim) {
    && m.init != {}
    && (forall S: States :: m.read(S, "") == S)
    && (forall S: States, u: string, v: string {:trigger m.read(S, u + v)} ::
          m.read(m.read(S, u), v) == m.read(S, u + v))
    && (forall w: string :: m.read({}, w) == {})
    && !m.acc({})
  }

  /** The numbering of state sets; the empty set stands for the sink after the end token. */
  type Numbering = map<States, nat>

  /** A token whose text keeps the simulation alive from S. */
  ghost predicate Viable(m: Sim, vocab: Vocab, S: States, t: int) {
    t in vocab && vocab[t] != "" && m.read(S, vocab[t]) != {}
  }

  /** Where token t leads from S; the end token leads to the sink unless its own text is viable. */
  ghost function Dest(m: Sim, vocab: Vocab, eos: Option<int>, S: States, t: int): Option<States> {
    DestSoFar(m, vocab, eos, S, t, vocab.Keys)
  }

  /** The same when only the tokens in done have been handled. */
  ghost function DestSoFar(m: Sim, vocab: Vocab, eos: Option<int>, S: States, t: int, done: set<int>): Option<States> {
    if t in done && Viable(m, vocab, S, t) then Some(m.read(S, vocab[t]))
    else if eos == Some(t) && m.acc(S) then Some({})
    else None
  }

  ghost predicate EdgeOk(ids: Numbering, transitions: map<(nat, int), nat>, S: States, t: int, dest: Option<States>)
    requires S in ids
  {
    match dest
    case None => (ids[S], t) !in transitions
    case Some(T) => T in ids && (ids[S], t) in transitions && transitions[(ids[S], t)] == ids[T]
  }

  /** The edges of S are those of the tokens in done. */
  ghost predicate RowOk(m: Sim, vocab: Vocab, eos: Option<int>, k: Work, S: States, done: set<int>)
    requires S in k.ids
  {
    forall t: int :: EdgeOk(k.ids, k.transitions, S, t, DestSoFar(m, vocab, eos, S, t, done))
  }

  ghost predicate RowEmpty(k: Work, S: States)
    requires S in k.ids
  {
    forall t: int :: (k.ids[S], t) !in k.transitions
  }

  ghost predicate IsNumber(ids: Numbering, q: nat) {
    exists S :: S in ids && ids[S] == q
  }

  /** The simulation is in S after some text. */
  ghost predicate Reached(m: Sim, S: States) {
    exists w: string :: S == m.read(m.init, w)
  }

  ghost predicate EdgesOk(m: Sim, vocab: Vocab, eos: Option<int>, fsa: TokenFsa, ids: Numbering, S: States)
    requires S in ids
  {
    forall t: int :: EdgeOk(ids, fsa.transitions, S, t, Dest(m, vocab, eos, S, t))
  }

  /** The automaton is the subset construction of m over the vocabulary: distinct numbers for distinct
      sets, every edge and accepting flag where the sets say, and no set that no text reaches. */
  ghost predicate Correct(m: Sim, vocab: Vocab, eos: Option<int>, fsa: TokenFsa, ids: Numbering) {
    && fsa.Valid() && Injective(ids)
    && fsa.start == 0 && m.init in ids && ids[m.init] == 0
    && (forall S :: S in ids ==> EdgesOk(m, vocab, eos, fsa, ids, S))
    && (forall S :: S in ids ==> (ids[S] in fsa.accepting <==> m.acc(S) || S == {}))
    && (forall S :: S in ids && S != {} ==> Reached(m, S))
    && (forall q: nat, t: int :: (q, t) in fsa.transitions ==> IsNumber(ids, q))
  }

  /** More distinct state sets (the sink counted as one) are reachable than the caller allowed. */
  ghost predicate TooMany(m: Sim, maxStates: int, sets: set<States>) {
    |sets| > maxStates && forall S :: S in sets ==> S == {} || Reached(m, S)
  }

  // --- the state of the construction ------------------------------------------------------

  datatype Work = Work(ids: Numbering, order: seq<States>, finalId: Option<nat>,
                       transitions: map<(nat, int), nat>, accepting: set<nat>)

  /** Numbering and queue agree: the queued sets are the numbered ones other than the sink, in order of arrival. */
  ghost predicate Queue(m: Sim, k: Work) {
    && Compact(k.ids) && Arrivals(m, k.ids, k.order)
    && ({} in k.ids <==> k.finalId.Some?) && (k.finalId.Some? ==> k.ids[{}] == k.finalId.value)
    && |k.ids| == |k.order| + (if k.finalId.Some? then 1 else 0)
    && (forall q: nat, t: int :: (q, t) in k.transitions ==> IsNumber(k.ids, q))
    && (forall q :: q in k.accepting ==> q < |k.ids|)
  }

  /** The queue begins with the initial set and holds the numbered sets other than the sink, once each. */
  ghost predicate Arrivals(m: Sim, ids: Numbering, order: seq<States>) {
    && |order| >= 1 && order[0] == m.init && m.init in ids && ids[m.init] == 0
    && (forall n :: 0 <= n < |order| ==> order[n] in ids && order[n] != {} && Reached(m, order[n]))
    && (forall n, l :: 0 <= n < l < |order| ==> order[n] != order[l])
    && (forall S :: S in ids && S != {} ==> S in order)
  }

  /** Rows before position qi are complete, row qi has the edges of the tokens in done (None: not begun),
      and no later state has edges yet. */
  ghost predicate Rows(m: Sim, vocab: Vocab, eos: Option<int>, k: Work, qi: nat, done: Option<set<int>>)
    requires Queue(m, k)
  {
    && (forall n :: 0 <= n < |k.order| ==> RowAt(m, vocab, eos, k, qi, done, n))
    && ({} in k.ids ==> RowEmpty(k, {}))
  }

  ghost predicate RowAt(m: Sim, vocab: Vocab, eos: Option<int>, k: Work, qi: nat, done: Option<set<int>>, n: nat)
    requires n < |k.order| && k.order[n] in k.ids
  {
    if n < qi then RowOk(m, vocab, eos, k, k.order[n], vocab.Keys)
    else if n == qi && done.Some? then RowOk(m, vocab, eos, k, k.order[n], done.value)
    else RowEmpty(k, k.order[n])
  }

  /** The accepting flags of the sets before position qi, and of the sink, are set. */
  ghost predicate Flags(m: Sim, k: Work, qi: nat)
    requires Queue(m, k)
  {
    && (forall n :: 0 <= n < |k.order| ==> (k.ids[k.order[n]] in k.accepting <==> n < qi && m.acc(k.order[n])))
    && ({} in k.ids ==> k.ids[{}] in k.accepting)
  }

  function Bound(maxStates: int): nat {
    if maxStates > 1 then maxStates else 1
  }

  /** Between rows: the first qi rows are complete. */
  ghost predicate Between(m: Sim, vocab: Vocab, eos: Option<int>, k: Work, qi: nat, maxStates: int) {
    Queue(m, k) && Rows(m, vocab, eos, k, qi, None) && Flags(m, k, qi) && |k.order| <= Bound(maxStates)
  }

  /** Inside row qi: the tokens in done have been handled. */
  ghost predicate Inside(m: Sim, vocab: Vocab, eos: Option<int>, k: Work, qi: nat, done: set<int>, maxStates: int) {
    && Queue(m, k) && qi < |k.order| && Rows(m, vocab, eos, k, qi, Some(done)) && Flags(m, k, qi + 1)
    && |k.order| <= Bound(maxStates)
  }

  // --- each update, proved once -------------------------------------------------------------

  lemma InitialQueue(m: Sim, k: Work)
    requires m.init != {} && m.init == m.read(m.init, "")
    requires k == Work(map[m.init := 0], [m.init], None, map[], {})
    ensures Queue(m, k)
  {
    assert Reached(m, m.init);
    assert |k.ids| == |k.ids.Keys|;
    assert k.ids.Keys == {m.init};
  }

  lemma Initial(m: Sim, vocab: Vocab, eos: Option<int>, k: Work, maxStates: int)
    requires Lawful(m) && k == Work(map[m.init := 0], [m.init], None, map[], {})
    ensures Between(m, vocab, eos, k, 0, maxStates)
  {
    InitialQueue(m, k);
  }

  function Numbered(k: Work, T: States): Work {
    k.(ids := k.ids[T := |k.ids|], order := k.order + [T])
  }

  function WithSink(k: Work): Work {
    k.(ids := k.ids[{} := |k.ids|], finalId := Some(|k.ids|), accepting := k.accepting + {|k.ids|})
  }

  function WithEdge(k: Work, S: States, t: int, v: nat): Work
    requires S in k.ids
  {
    k.(transitions := k.transitions[(k.ids[S], t) := v])
  }

  function WithFlag(k: Work, S: States): Work
    requires S in k.ids
  {
    k.(accepting := k.accepting + {k.ids[S]})
  }

  lemma IsNumberGrows(ids: Numbering, T: States, v: nat, q: nat)
    requires IsNumber(ids, q) && T !in ids
    ensures IsNumber(ids[T := v], q)
  {
    var S :| S in ids && ids[S] == q;
    assert S in ids[T := v] && ids[T := v][S] == q;
  }

  lemma QueueAdd(m: Sim, k: Work, T: States)
    requires Queue(m, k) && T !in k.ids && T != {} && Reached(m, T)
    ensures Queue(m, Numbered(k, T))
  {
    CompactGrows(k.ids, Numbered(k, T).ids, T);
    ArrivalsAdd(m, k.ids, Numbered(k, T).ids, k.order, T);
    NumbersGrow(k, T);
  }

  lemma ArrivalsAdd(m: Sim, ids: Numbering, more: Numbering, order: seq<States>, T: States)
    requires Arrivals(m, ids, order) && T !in ids && T != {} && Reached(m, T) && more == ids[T := |ids|]
    ensures Arrivals(m, more, order + [T])
  {
    var longer := order + [T];
    forall n | 0 <= n < |longer| ensures longer[n] in more && longer[n] != {} && Reached(m, longer[n]) {
      if n < |order| { assert longer[n] == order[n]; }
    }
    forall S | S in more && S != {} ensures S in longer {
      if S != T { assert S in order; }
    }
  }

  lemma ArrivalsSink(m: Sim, ids: Numbering, more: Numbering, order: seq<States>)
    requires Arrivals(m, ids, order) && {} !in ids && more == ids[{} := |ids|]
    ensures Arrivals(m, more, order)
  {}

  lemma QueueSink(m: Sim, k: Work)
    requires Queue(m, k) && k.finalId.None?
    ensures Queue(m, WithSink(k))
  {
    CompactGrows(k.ids, WithSink(k).ids, {});
    ArrivalsSink(m, k.ids, WithSink(k).ids, k.order);
    NumbersGrow(k, {});
  }

  lemma NumbersGrow(k: Work, T: States)
    requires (forall q: nat, t: int :: (q, t) in k.transitions ==> IsNumber(k.ids, q)) && T !in k.ids
    ensures forall q: nat, t: int :: (q, t) in k.transitions ==> IsNumber(k.ids[T := |k.ids|], q)
  {
    forall q: nat, t: int | (q, t) in k.transitions ensures IsNumber(k.ids[T := |k.ids|], q) {
      IsNumberGrows(k.ids, T, |k.ids|, q);
    }
  }

  /** Numbering more sets changes no row that was already there. */
  lemma RowGrows(m: Sim, vocab: Vocab, eos: Option<int>, k: Work, k': Work, S: States, done: set<int>)
    requires S in k.ids && k'.transitions == k.transitions
    requires Keeps(k.ids, k'.ids)
    ensures RowOk(m, vocab, eos, k, S, done) ==> RowOk(m, vocab, eos, k', S, done)
    ensures RowEmpty(k, S) ==> RowEmpty(k', S)
  {
    if RowOk(m, vocab, eos, k, S, done) {
      forall t: int ensures EdgeOk(k'.ids, k'.transitions, S, t, DestSoFar(m, vocab, eos, S, t, done)) {
        assert EdgeOk(k.ids, k.transitions, S, t, DestSoFar(m, vocab, eos, S, t, done));
      }
    }
  }

  /** Setting an edge of cur leaves the row of every other set alone. */
  lemma RowOther(m: Sim, vocab: Vocab, eos: Option<int>, k: Work, cur: States, t0: int, v: nat, S: States,
                 done: set<int>)
    requires Injective(k.ids) && S in k.ids && cur in k.ids && S != cur
    ensures RowOk(m, vocab, eos, k, S, done) ==> RowOk(m, vocab, eos, WithEdge(k, cur, t0, v), S, done)
    ensures RowEmpty(k, S) ==> RowEmpty(WithEdge(k, cur, t0, v), S)
  {
    var k' := WithEdge(k, cur, t0, v);
    if RowOk(m, vocab, eos, k, S, done) {
      forall t: int ensures EdgeOk(k.ids, k'.transitions, S, t, DestSoFar(m, vocab, eos, S, t, done)) {
        assert EdgeOk(k.ids, k.transitions, S, t, DestSoFar(m, vocab, eos, S, t, done));
      }
    }
  }

  lemma RowsGrow(m: Sim, vocab: Vocab, eos: Option<int>, k: Work, k': Work, qi: nat, done: Option<set<int>>)
    requires Queue(m, k) && Queue(m, k') && Rows(m, vocab, eos, k, qi, done) && k'.transitions == k.transitions
    requires Keeps(k.ids, k'.ids)
    requires |k.order| <= |k'.order| && k'.order[..|k.order|] == k.order
    requires forall T :: T in k'.ids && T !in k.ids ==> RowEmpty(k', T)
    requires qi < |k.order| || k'.order == k.order
    ensures Rows(m, vocab, eos, k', qi, done)
  {
    forall n | 0 <= n < |k'.order| ensures RowAt(m, vocab, eos, k', qi, done, n) {
      if n < |k.order| {
        assert k'.order[n] == k.order[n];
        assert RowAt(m, vocab, eos, k, qi, done, n);
        RowGrows(m, vocab, eos, k, k', k.order[n], if n == qi && done.Some? then done.value else vocab.Keys);
      } else {
        OldSet(m, k, k', n);
      }
    }
    if {} in k.ids { RowGrows(m, vocab, eos, k, k', {}, {}); }
  }

  lemma OldSet(m: Sim, k: Work, k': Work, n: nat)
    requires Queue(m, k) && Queue(m, k') && |k.order| <= n < |k'.order| && k'.order[..|k.order|] == k.order
    ensures k'.order[n] !in k.ids
  {
    forall l | 0 <= l < |k.order| ensures k.order[l] != k'.order[n] {
      assert k'.order[l] == k'.order[..|k.order|][l];
    }
  }

  lemma RowsOther(m: Sim, vocab: Vocab, eos: Option<int>, k: Work, qi: nat, done: Option<set<int>>, t0: int, v: nat,
                  done': set<int>)
    requires Queue(m, k) && Rows(m, vocab, eos, k, qi, done) && qi < |k.order|
    requires Queue(m, WithEdge(k, k.order[qi], t0, v))
    requires RowOk(m, vocab, eos, WithEdge(k, k.order[qi], t0, v), k.order[qi], done')
    ensures Rows(m, vocab, eos, WithEdge(k, k.order[qi], t0, v), qi, Some(done'))
  {
    var cur := k.order[qi];
    var k' := WithEdge(k, cur, t0, v);
    forall n | 0 <= n < |k'.order| ensures RowAt(m, vocab, eos, k', qi, Some(done'), n) {
      assert RowAt(m, vocab, eos, k, qi, done, n);
      if n != qi { RowOther(m, vocab, eos, k, cur, t0, v, k.order[n], vocab.Keys); }
    }
    if {} in k.ids { RowOther(m, vocab, eos, k, cur, t0, v, {}, {}); }
  }

  /** Numbering the sink keeps everything established so far. */
  lemma SinkStep(m: Sim, vocab: Vocab, eos: Option<int>, k: Work, qi: nat)
    requires Queue(m, k) && Rows(m, vocab, eos, k, qi, None) && Flags(m, k, qi) && k.finalId.None?
    ensures Queue(m, WithSink(k)) && Rows(m, vocab, eos, WithSink(k), qi, None) && Flags(m, WithSink(k), qi)
  {
    QueueSink(m, k);
    assert k.order[..|k.order|] == k.order;
    RowsGrow(m, vocab, eos, k, WithSink(k), qi, None);
  }

  /** The row of a set that is not accepting, or that has no end token, starts out empty. */
  lemma BeginPlainRow(m: Sim, vocab: Vocab, eos: Option<int>, k: Work, qi: nat)
    requires Queue(m, k) && Rows(m, vocab, eos, k, qi, None) && qi < |k.order|
    requires eos.None? || !m.acc(k.order[qi])
    ensures Rows(m, vocab, eos, k, qi, Some({}))
  {
    forall n | 0 <= n < |k.order| ensures RowAt(m, vocab, eos, k, qi, Some({}), n) {
      assert RowAt(m, vocab, eos, k, qi, None, n);
    }
  }

  /** The row of an accepting set starts with its end-token edge to the sink. */
  lemma BeginEosRow(m: Sim, vocab: Vocab, eos: Option<int>, k: Work, qi: nat)
    requires Queue(m, k) && Rows(m, vocab, eos, k, qi, None) && qi < |k.order|
    requires eos.Some? && k.finalId.Some? && m.acc(k.order[qi])
    ensures var k' := WithEdge(k, k.order[qi], eos.value, k.finalId.value);
            Queue(m, k') && Rows(m, vocab, eos, k', qi, Some({}))
  {
    var cur := k.order[qi];
    assert RowAt(m, vocab, eos, k, qi, None, qi);
    QueueEdge(m, k, cur, eos.value, k.finalId.value);
    assert RowOk(m, vocab, eos, WithEdge(k, cur, eos.value, k.finalId.value), cur, {});
    RowsOther(m, vocab, eos, k, qi, None, eos.value, k.finalId.value, {});
  }

  lemma FlagStep(m: Sim, k: Work, qi: nat)
    requires Queue(m, k) && Flags(m, k, qi) && qi < |k.order| && m.acc(k.order[qi])
    ensures Queue(m, WithFlag(k, k.order[qi])) && Flags(m, WithFlag(k, k.order[qi]), qi + 1)
  {
    var cur := k.order[qi];
    forall n | 0 <= n < |k.order| && n != qi ensures k.ids[k.order[n]] != k.ids[cur] {
      assert k.order[n] != cur;
    }
  }

  /** Rows do not look at the accepting flags. */
  lemma RowsFlag(m: Sim, vocab: Vocab, eos: Option<int>, k: Work, qi: nat, done: Option<set<int>>, S: States)
    requires Queue(m, k) && Rows(m, vocab, eos, k, qi, done) && S in k.ids && Queue(m, WithFlag(k, S))
    ensures Rows(m, vocab, eos, WithFlag(k, S), qi, done)
  {
    assert k.order[..|k.order|] == k.order;
    RowsGrow(m, vocab, eos, k, WithFlag(k, S), qi, done);
  }

  /** A token that leads nowhere leaves its row as it was. */
  lemma SkipToken(m: Sim, vocab: Vocab, eos: Option<int>, k: Work, qi: nat, done: set<int>, t: int)
    requires Queue(m, k) && Rows(m, vocab, eos, k, qi, Some(done)) && qi < |k.order|
    requires !Viable(m, vocab, k.order[qi], t)
    ensures Rows(m, vocab, eos, k, qi, Some(done + {t}))
  {
    var cur := k.order[qi];
    forall n | 0 <= n < |k.order| ensures RowAt(m, vocab, eos, k, qi, Some(done + {t}), n) {
      assert RowAt(m, vocab, eos, k, qi, Some(done), n);
      if n == qi {
        forall u: int ensures EdgeOk(k.ids, k.transitions, cur, u, DestSoFar(m, vocab, eos, cur, u, done + {t})) {
          assert EdgeOk(k.ids, k.transitions, cur, u, DestSoFar(m, vocab, eos, cur, u, done));
        }
      }
    }
  }

  lemma QueueEdge(m: Sim, k: Work, S: States, t: int, v: nat)
    requires Queue(m, k) && S in k.ids
    ensures Queue(m, WithEdge(k, S, t, v))
  {}

  lemma RowGainsEdge(m: Sim, vocab: Vocab, eos: Option<int>, k: Work, cur: States, done: set<int>, t: int, T: States)
    requires cur in k.ids && RowOk(m, vocab, eos, k, cur, done)
    requires Viable(m, vocab, cur, t) && T == m.read(cur, vocab[t]) && T in k.ids
    ensures RowOk(m, vocab, eos, WithEdge(k, cur, t, k.ids[T]), cur, done + {t})
  {
    var k' := WithEdge(k, cur, t, k.ids[T]);
    forall u: int ensures EdgeOk(k'.ids, k'.transitions, cur, u, DestSoFar(m, vocab, eos, cur, u, done + {t})) {
      assert EdgeOk(k.ids, k.transitions, cur, u, DestSoFar(m, vocab, eos, cur, u, done));
    }
  }

  /** A viable token gets an edge to the (already numbered) set it leads to. */
  lemma EdgeToken(m: Sim, vocab: Vocab, eos: Option<int>, k: Work, qi: nat, done: set<int>, t: int)
    requires Queue(m, k) && Rows(m, vocab, eos, k, qi, Some(done)) && qi < |k.order|
    requires Viable(m, vocab, k.order[qi], t) && m.read(k.order[qi], vocab[t]) in k.ids
    ensures var k' := WithEdge(k, k.order[qi], t, k.ids[m.read(k.order[qi], vocab[t])]);
            Queue(m, k') && Rows(m, vocab, eos, k', qi, Some(done + {t}))
  {
    var cur := k.order[qi];
    var T := m.read(cur, vocab[t]);
    assert RowAt(m, vocab, eos, k, qi, Some(done), qi);
    QueueEdge(m, k, cur, t, k.ids[T]);
    RowGainsEdge(m, vocab, eos, k, cur, done, t, T);
    RowsOther(m, vocab, eos, k, qi, Some(done), t, k.ids[T], done + {t});
  }

  lemma NewSetFlags(m: Sim, k: Work, qi: nat, T: States)
    requires Queue(m, k) && Flags(m, k, qi) && qi <= |k.order| && T !in k.ids && T != {}
    requires Queue(m, Numbered(k, T))
    ensures Flags(m, Numbered(k, T), qi)
  {
    var k' := Numbered(k, T);
    forall n | 0 <= n < |k'.order|
      ensures k'.ids[k'.order[n]] in k'.accepting <==> n < qi && m.acc(k'.order[n])
    {
      if n < |k.order| { assert k'.order[n] == k.order[n]; }
    }
  }

  /** Numbering a newly reached set leaves every row and flag as it was; its own row is empty. */
  lemma NewSet(m: Sim, vocab: Vocab, eos: Option<int>, k: Work, qi: nat, done: set<int>, T: States)
    requires Queue(m, k) && qi < |k.order| && Rows(m, vocab, eos, k, qi, Some(done)) && Flags(m, k, qi + 1)
    requires T !in k.ids && T != {} && Reached(m, T)
    ensures var k' := Numbered(k, T);
            Queue(m, k') && Rows(m, vocab, eos, k', qi, Some(done)) && Flags(m, k', qi + 1)
  {
    QueueAdd(m, k, T);
    assert Numbered(k, T).order[..|k.order|] == k.order;
    RowsGrow(m, vocab, eos, k, Numbered(k, T), qi, Some(done));
    NewSetFlags(m, k, qi + 1, T);
  }

  lemma EndRow(m: Sim, vocab: Vocab, eos: Option<int>, k: Work, qi: nat)
    requires Queue(m, k) && Rows(m, vocab, eos, k, qi, Some(vocab.Keys))
    ensures Rows(m, vocab, eos, k, qi + 1, None)
  {
    var next := qi + 1;
    forall n | 0 <= n < |k.order| ensures RowAt(m, vocab, eos, k, next, None, n) {
      assert RowAt(m, vocab, eos, k, qi, Some(vocab.Keys), n);
    }
  }

  /** Every queued row is complete: the automaton is correct. */
  lemma Finished(m: Sim, vocab: Vocab, eos: Option<int>, k: Work, qi: nat, maxStates: int, fsa: TokenFsa)
    requires Lawful(m) && Between(m, vocab, eos, k, qi, maxStates) && qi == |k.order|
    requires fsa.Valid() && fsa.transitions == k.transitions && fsa.start == 0 && fsa.accepting == k.accepting
    ensures Correct(m, vocab, eos, fsa, k.ids)
  {
    forall S | S in k.ids
      ensures EdgesOk(m, vocab, eos, fsa, k.ids, S)
      ensures k.ids[S] in fsa.accepting <==> m.acc(S) || S == {}
      ensures S != {} ==> Reached(m, S)
    {
      if S != {} {
        var n :| 0 <= n < |k.order| && k.order[n] == S;
        assert RowAt(m, vocab, eos, k, qi, None, n);
      }
    }
  }

  lemma OverLimit(m: Sim, k: Work, T: States, maxStates: int)
    requires Queue(m, k) && T !in k.ids && Reached(m, T) && |k.ids| >= maxStates
    ensures exists sets :: TooMany(m, maxStates, sets)
  {
    var sets := k.ids.Keys + {T};
    assert |sets| == |k.ids.Keys| + 1 == |k.ids| + 1;
    assert TooMany(m, maxStates, sets);
  }

  lemma ReachedFurther(m: Sim, S: States, w: string)
    requires Lawful(m) && Reached(m, S)
    ensures Reached(m, m.read(S, w))
  {
    var u: string :| S == m.read(m.init, u);
    assert m.read(m.init, u + w) == m.read(S, w);
  }

  /** The accepting flag of the current set, and its end-token edge to the sink. */
  method BeginRow(k0: Work, qi: nat, accepts: bool, vocab: Vocab, eos: Option<int>, maxStates: int, ghost m: Sim)
    returns (k: Work)
    requires Between(m, vocab, eos, k0, qi, maxStates) && qi < |k0.order| && accepts == m.acc(k0.order[qi])
    ensures Inside(m, vocab, eos, k, qi, {}, maxStates)
  {
    k := k0;
    var cur := k.order[qi];
    if !accepts {
      BeginPlainRow(m, vocab, eos, k, qi);
      return;
    }
    if eos.Some? && k.finalId.None? {
      SinkStep(m, vocab, eos, k, qi);
      k := WithSink(k);
    }
    FlagStep(m, k, qi);
    RowsFlag(m, vocab, eos, k, qi, None, cur);
    k := WithFlag(k, cur);
    if eos.Some? {
      BeginEosRow(m, vocab, eos, k, qi);
      k := WithEdge(k, cur, eos.value, k.finalId.value);
    } else {
      BeginPlainRow(m, vocab, eos, k, qi);
    }
  }

  /** One edge of the row, numbering and queueing its target first when it is new. */
  method AddEdge(k0: Work, qi: nat, t: int, nxt: States, ghost done: set<int>, vocab: Vocab, eos: Option<int>,
                 maxStates: int, ghost m: Sim)
    returns (k: Work, full: bool)
    requires Lawful(m) && Inside(m, vocab, eos, k0, qi, done, maxStates) && Viable(m, vocab, k0.order[qi], t)
    requires nxt == m.read(k0.order[qi], vocab[t])
    ensures full ==> exists sets :: TooMany(m, maxStates, sets)
    ensures !full ==> Inside(m, vocab, eos, k, qi, done + {t}, maxStates)
  {
    k := k0;
    var cur := k.order[qi];
    ReachedFurther(m, cur, vocab[t]);
    if nxt !in k.ids {
      if |k.ids| >= maxStates {
        OverLimit(m, k, nxt, maxStates);
        return k, true;
      }
      NewSet(m, vocab, eos, k, qi, done, nxt);
      k := Numbered(k, nxt);
    }
    EdgeToken(m, vocab, eos, k, qi, done, t);
    k := WithEdge(k, cur, t, k.ids[nxt]);
    full := false;
  }
}
