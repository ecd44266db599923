/** The token automaton that masks logits: transitions, and the per-state list of allowed tokens. */
module TokenFsas {
  import opened Options

  /** The texts of the tokens; a token may have none. */
  type Vocab = map<int, string>

  function TokenText(vocab: Vocab, t: int): string {
    if t in vocab then vocab[t] else ""
  }

  datatype TokenFsa = TokenFsa(
    transitions: map<(nat, int), nat>, start: nat, accepting: set<nat>, index: map<nat, seq<int>>)
  {
    /** The allowed lists name exactly the tokens with an outgoing transition, once each. */
    ghost predicate Valid() {
      forall q: nat :: ListsOf(transitions, q, Allowed(q))
    }

    function Allowed(q: nat): seq<int> {
      if q in index then index[q] else []
    }

    function Advance(q: nat, token: int): Option<nat> {
      if (q, token) in transitions then Some(transitions[(q, token)]) else None
    }

    predicate IsAccepting(q: nat) {
      q in accepting
    }

    /** Advancing token by token from q; None as soon as a transition is missing. */
    function Run(q: nat, ts: seq<int>): Option<nat>
      decreases |ts|
    {
      if ts == [] then Some(q)
      else match Run(q, ts[..|ts| - 1])
        case Some(m) => Advance(m, ts[|ts| - 1])
        case None => None
    }
  }

  ghost predicate ListsOf(transitions: map<(nat, int), nat>, q: nat, tokens: seq<int>) {
    && (forall t :: t in tokens <==> (q, t) in transitions)
    && (forall k, l :: 0 <= k < l < |tokens| ==> tokens[k] != tokens[l])
  }

  /** One pass over the transitions fills the per-state lists. */
  method MakeTokenFsa(transitions: map<(nat, int), nat>, start: nat, accepting: set<nat>) returns (fsa: TokenFsa)
    ensures fsa.transitions == transitions && fsa.start == start && fsa.accepting == accepting
    ensures fsa.Valid()
  {
    fsa := TokenFsa(transitions, start, accepting, map[]);
    var todo := transitions.Keys;
    ghost var done: set<(nat, int)> := {};
    while todo != {}
      invariant done !! todo && done + todo == transitions.Keys
      invariant fsa.transitions == transitions && fsa.start == start && fsa.accepting == accepting
      invariant forall q: nat, t :: t in fsa.Allowed(q) <==> (q, t) in done
      invariant forall q: nat, k, l :: 0 <= k < l < |fsa.Allowed(q)| ==> fsa.Allowed(q)[k] != fsa.Allowed(q)[l]
      decreases todo
    {
      var key :| key in todo;
      todo := todo - {key};
      done := done + {key};
      ghost var before := fsa;
      fsa := fsa.(index := fsa.index[key.0 := fsa.Allowed(key.0) + [key.1]]);
      assert forall q: nat :: q != key.0 ==> fsa.Allowed(q) == before.Allowed(q);
      assert fsa.Allowed(key.0) == before.Allowed(key.0) + [key.1];
    }
  }
}
