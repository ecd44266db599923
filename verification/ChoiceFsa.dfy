/** The choice trie: an automaton whose accepting token paths spell exactly one of the given choices. */
module ChoiceFsa {
  import opened Counting
  import opened Options
  import opened TokenFsas

  /** Token id lists by text, for the tokens that have text. */
  type Inverse = map<string, seq<int>>

  /** A trie state is the sequence of token texts consumed so far. */
  type Path = seq<string>

  type Edges = map<(Path, int), Path>

  ghost predicate InverseOf(inv: Inverse, vocab: Vocab) {
    && (forall s: string :: s in inv ==> s != "" && inv[s] != [])
    && (forall s: string, t: int :: Lists(inv, s, t) <==> t in vocab && vocab[t] == s && s != "")
  }

  function Concat(p: Path): string {
    if p == [] then "" else Concat(p[..|p| - 1]) + p[|p| - 1]
  }

  lemma ConcatSnoc(p: Path, t: string)
    ensures Concat(p + [t]) == Concat(p) + t
  {
    assert (p + [t])[..|p|] == p;
  }

  lemma {:induction false} ConcatCons(t: string, p: Path)
    ensures Concat([t] + p) == t + Concat(p)
  {
    if p == [] {
      var none: Path := [];
      assert [t] + p == none + [t];
      ConcatSnoc(none, t);
      assert "" + t == t + "";
    } else {
      var front, last := p[..|p| - 1], p[|p| - 1];
      assert [t] + p == ([t] + front) + [last];
      ConcatCons(t, front);
      ConcatSnoc([t] + front, last);
      Regroup(t, Concat(front), last);
    }
  }

  // --- the greedy split -----------------------------------------------------------------------

  /** t is the longest text of the vocabulary that s starts with. */
  ghost predicate IsLongest(inv: Inverse, s: string, t: string) {
    && t in inv && t <= s
    && forall u: string :: u in inv && u <= s ==> |u| <= |t|
  }

  ghost predicate NoPrefix(inv: Inverse, s: string) {
    forall u: string :: u in inv ==> !(u <= s)
  }

  /** toks has been consumed greedily from s, and mid remains. */
  ghost predicate Took(inv: Inverse, s: string, toks: Path, mid: string)
    decreases |toks|
  {
    if toks == [] then s == mid
    else IsLongest(inv, s, toks[0]) && toks[0] != "" && Took(inv, s[|toks[0]|..], toks[1..], mid)
  }

  /** The greedy split of s: it took toks and stopped at rest, where no token fits or nothing is left. */
  ghost predicate Splits(inv: Inverse, s: string, toks: Path, rest: string) {
    Took(inv, s, toks, rest) && (rest == "" || NoPrefix(inv, rest))
  }

  lemma LongestUnique(inv: Inverse, s: string, t: string, u: string)
    requires IsLongest(inv, s, t) && IsLongest(inv, s, u)
    ensures t == u
  {
    assert t == s[..|t|] && u == s[..|u|];
  }

  /** The split is unique: consumption is deterministic and stops at one place. */
  lemma {:induction false} SplitsUnique(inv: Inverse, s: string, p: Path, r: string, q: Path, r': string)
    requires "" !in inv && Splits(inv, s, p, r) && Splits(inv, s, q, r')
    ensures p == q && r == r'
    decreases |p|
  {
    if p != [] && q != [] {
      LongestUnique(inv, s, p[0], q[0]);
      SplitsUnique(inv, s[|p[0]|..], p[1..], r, q[1..], r');
      assert p == [p[0]] + p[1..] && q == [q[0]] + q[1..];
    }
  }

  lemma TookFirst(s: string, t: string, toks: Path, text: string, rest: string)
    requires toks != [] && t == toks[0] && t <= s && text == Concat(toks[1..]) && s[|t|..] == text + rest
    ensures s == Concat(toks) + rest
  {
    assert toks == [t] + toks[1..];
    ConcatCons(t, toks[1..]);
    assert s == t + s[|t|..];
    Regroup(t, text, rest);
  }

  /** Consumption takes the choice apart without losing anything. */
  lemma {:induction false} TookConcat(inv: Inverse, s: string, toks: Path, rest: string)
    requires Took(inv, s, toks, rest)
    ensures s == Concat(toks) + rest
    decreases |toks|
  {
    if toks == [] {
      assert Concat(toks) + rest == rest;
    } else {
      var t := toks[0];
      TookConcat(inv, s[|t|..], toks[1..], rest);
      TookFirst(s, t, toks, Concat(toks[1..]), rest);
    }
  }

  lemma {:induction false} TookTexts(inv: Inverse, s: string, toks: Path, rest: string)
    requires Took(inv, s, toks, rest)
    ensures forall k :: 0 <= k < |toks| ==> toks[k] in inv && toks[k] != ""
    decreases |toks|
  {
    if toks != [] {
      TookTexts(inv, s[|toks[0]|..], toks[1..], rest);
      forall k | 0 <= k < |toks| ensures toks[k] in inv && toks[k] != "" {
        if k > 0 { assert toks[k] == toks[1..][k - 1]; }
      }
    }
  }

  lemma {:induction false} TookSnoc(inv: Inverse, s: string, toks: Path, mid: string, t: string)
    requires Took(inv, s, toks, mid) && IsLongest(inv, mid, t) && t != ""
    ensures Took(inv, s, toks + [t], mid[|t|..])
    decreases |toks|
  {
    if toks != [] {
      TookSnoc(inv, s[|toks[0]|..], toks[1..], mid, t);
      assert (toks + [t])[1..] == toks[1..] + [t];
    }
  }

  lemma CharFits(inv: Inverse, s: string)
    requires s != "" && [s[0]] in inv
    ensures !NoPrefix(inv, s)
  {
    assert [s[0]] <= s;
  }

  /** With every single character in the vocabulary nothing is ever left over. */
  lemma NothingLeft(inv: Inverse, s: string, toks: Path, rest: string)
    requires Splits(inv, s, toks, rest) && forall c: char :: [c] in inv
    ensures rest == ""
  {
    if rest != "" { CharFits(inv, rest); }
  }

  /** The split is greedy, so it can fail on a choice that other tokens would spell: with the texts "ab", "a" and "bc"
      the choice "abc" is "a" and then "bc", but the split takes "ab" and is left with "c". */
  lemma GreedyMisses(inv: Inverse)
    requires forall u: string :: u in inv <==> u == "ab" || u == "a" || u == "bc"
    ensures "a" in inv && "bc" in inv && "a" + "bc" == "abc"
    ensures Splits(inv, "abc", ["ab"], "c")
  {
    var s, t, c := "abc", "ab", "c";
    assert t == s[..2] && s[2..] == c;
    assert IsLongest(inv, s, t);
    var none: Path := [];
    assert [t][1..] == none;
    assert Took(inv, s, [t], c);
    assert NoPrefix(inv, c) by {
      forall u: string | u in inv ensures !(u <= c) {
        assert u[0] != c[0] || |u| > |c|;
      }
    }
  }

  // --- the trie -----------------------------------------------------------------------------------

  /** A path that passes through p and goes on with t. */
  ghost predicate Passes(path: Path, p: Path, t: string) {
    t != "" && |p| < |path| && path[..|p|] == p && path[|p|] == t
  }

  /** Some path passes through p and goes on with t. */
  ghost predicate Continues(paths: seq<Path>, p: Path, t: string) {
    exists c :: 0 <= c < |paths| && Passes(paths[c], p, t)
  }

  /** Choice c was consumed completely, along the path p. */
  ghost predicate Completes(paths: seq<Path>, rests: seq<string>, c: nat, p: Path) {
    c < |rests| && c < |paths| && paths[c] == p && rests[c] == ""
  }

  ghost predicate PassedAfter(paths: seq<Path>, c: nat, p: Path, t: string) {
    exists d :: c < d < |paths| && Passes(paths[d], p, t)
  }

  /** A choice completes at p, and no later one goes on from there with the text t. */
  ghost predicate Loops(paths: seq<Path>, rests: seq<string>, p: Path, t: string) {
    exists c: nat :: Completes(paths, rests, c, p) && !PassedAfter(paths, c, p, t)
  }

  /** Where token t leads from p.  The end token loops where a choice completes; when it has text of its own and a later
      choice goes on with that text, the later choice wins. */
  ghost function Target(vocab: Vocab, eos: Option<int>, paths: seq<Path>, rests: seq<string>, p: Path,
                        t: int): Option<Path>
  {
    if eos == Some(t) && Loops(paths, rests, p, TokenText(vocab, t)) then Some(p)
    else if Continues(paths, p, TokenText(vocab, t)) then Some(p + [TokenText(vocab, t)])
    else None
  }

  function EdgeAt(edges: Edges, p: Path, t: int): Option<Path> {
    if (p, t) in edges then Some(edges[(p, t)]) else None
  }

  /** The edges are those of the trie of the paths. */
  ghost predicate TrieOf(vocab: Vocab, eos: Option<int>, paths: seq<Path>, rests: seq<string>, edges: Edges) {
    forall p: Path, t: int :: EdgeAt(edges, p, t) == Target(vocab, eos, paths, rests, p, t)
  }

  /** The accepting states are the paths of the choices that were consumed completely. */
  ghost predicate AcceptsOf(paths: seq<Path>, rests: seq<string>, accepting: set<Path>) {
    forall p: Path :: p in accepting <==> exists c: nat :: Completes(paths, rests, c, p)
  }

  ghost predicate SplitsAll(inv: Inverse, choices: seq<string>, paths: seq<Path>, rests: seq<string>) {
    && |paths| == |rests| == |choices|
    && forall c :: 0 <= c < |choices| ==> Splits(inv, choices[c], paths[c], rests[c])
  }

  /** The inverse restricted to the tokens in done. */
  ghost predicate InverseSoFar(inv: Inverse, vocab: Vocab, done: seq<int>) {
    && (forall s: string :: s in inv ==> s != "" && inv[s] != [])
    && (forall s: string, t: int :: Lists(inv, s, t) <==> t in done && t in vocab && vocab[t] == s && s != "")
  }

  ghost predicate Lists(inv: Inverse, s: string, t: int) {
    s in inv && t in inv[s]
  }

  lemma InvertStep(inv: Inverse, vocab: Vocab, done: seq<int>, t: int)
    requires InverseSoFar(inv, vocab, done) && t in vocab
    ensures var s := vocab[t];
            InverseSoFar(if s == "" then inv else inv[s := (if s in inv then inv[s] else []) + [t]], vocab, done + [t])
  {
    var s0 := vocab[t];
    var inv' := if s0 == "" then inv else inv[s0 := (if s0 in inv then inv[s0] else []) + [t]];
    forall s: string, u: int
      ensures Lists(inv', s, u) <==> u in done + [t] && u in vocab && vocab[u] == s && s != ""
    {
      assert Lists(inv, s, u) <==> u in done && u in vocab && vocab[u] == s && s != "";
      assert Lists(inv', s, u) <==> Lists(inv, s, u) || (s == s0 && s0 != "" && u == t);
    }
  }

  /** Lists the tokens of each text, for the tokens that have text. */
  method Invert(vocab: Vocab) returns (inv: Inverse)
    ensures InverseOf(inv, vocab)
  {
    inv := map[];
    var ids := SetToSeq(vocab.Keys);
    for n := 0 to |ids|
      invariant InverseSoFar(inv, vocab, ids[..n])
    {
      InvertStep(inv, vocab, ids[..n], ids[n]);
      assert ids[..n + 1] == ids[..n] + [ids[n]];
      var s := vocab[ids[n]];
      if s != "" {
        inv := inv[s := (if s in inv then inv[s] else []) + [ids[n]]];
      }
    }
    assert ids[..|ids|] == ids;
    forall s: string, t: int ensures Lists(inv, s, t) <==> t in vocab && vocab[t] == s && s != "" {}
  }

  /** The first token by falling length that the text starts with. */
  method LongestToken(inv: Inverse, s: string) returns (r: Option<string>)
    ensures r.Some? ==> IsLongest(inv, s, r.value)
    ensures r.None? ==> NoPrefix(inv, s)
  {
    r := None;
    var todo := inv.Keys;
    while todo != {}
      invariant todo <= inv.Keys
      invariant r.Some? ==> r.value in inv && r.value <= s
      invariant forall u: string :: u in inv && u !in todo && u <= s ==> r.Some? && |u| <= |r.value|
      decreases todo
    {
      var u :| u in todo;
      todo := todo - {u};
      if u <= s && (r.None? || |r.value| < |u|) { r := Some(u); }
    }
  }

  // Extending the last path by one text.

  lemma PassesSnoc(state: Path, tok: string, p: Path, u: string)
    requires tok != ""
    ensures Passes(state + [tok], p, u) <==> Passes(state, p, u) || (p == state && u == tok)
  {
    var longer := state + [tok];
    if |p| < |state| {
      assert longer[..|p|] == state[..|p|] && longer[|p|] == state[|p|];
    } else if |p| == |state| {
      assert longer[..|p|] == state && longer[|p|] == tok;
    }
  }

  lemma ContinuesLast(paths: seq<Path>, last: Path, p: Path, u: string)
    ensures Continues(paths + [last], p, u) <==> Continues(paths, p, u) || Passes(last, p, u)
  {
    var all := paths + [last];
    if Continues(paths, p, u) {
      var c :| 0 <= c < |paths| && Passes(paths[c], p, u);
      assert Passes(all[c], p, u);
    }
    if Passes(last, p, u) { assert Passes(all[|paths|], p, u); }
    if Continues(all, p, u) {
      var c :| 0 <= c < |all| && Passes(all[c], p, u);
      assert c < |paths| ==> all[c] == paths[c];
    }
  }

  lemma PassedAfterLast(paths: seq<Path>, last: Path, c: nat, p: Path, u: string)
    requires c < |paths|
    ensures PassedAfter(paths + [last], c, p, u) <==> PassedAfter(paths, c, p, u) || Passes(last, p, u)
  {
    var all := paths + [last];
    if PassedAfter(paths, c, p, u) {
      var d :| c < d < |paths| && Passes(paths[d], p, u);
      assert Passes(all[d], p, u);
    }
    if Passes(last, p, u) { assert Passes(all[|paths|], p, u); }
    if PassedAfter(all, c, p, u) {
      var d :| c < d < |all| && Passes(all[d], p, u);
      assert d < |paths| ==> all[d] == paths[d];
    }
  }

  /** A path that is still being consumed stops the loops of the states it passes through. */
  lemma LoopsLast(paths: seq<Path>, rests: seq<string>, last: Path, p: Path, u: string)
    requires |rests| == |paths|
    ensures Loops(paths + [last], rests, p, u) <==> Loops(paths, rests, p, u) && !Passes(last, p, u)
  {
    var all := paths + [last];
    forall c: nat ensures Completes(all, rests, c, p) <==> Completes(paths, rests, c, p) {
      if c < |paths| { assert all[c] == paths[c]; }
    }
    forall c: nat | c < |paths|
      ensures PassedAfter(all, c, p, u) <==> PassedAfter(paths, c, p, u) || Passes(last, p, u)
    {
      PassedAfterLast(paths, last, c, p, u);
    }
  }

  /** One text more on the last path changes the edges out of its old end that have this text, and no others. */
  lemma TargetSnoc(vocab: Vocab, eos: Option<int>, paths: seq<Path>, rests: seq<string>, state: Path, tok: string,
                   p: Path, t: int)
    requires |rests| == |paths| && tok != ""
    ensures Target(vocab, eos, paths + [state + [tok]], rests, p, t) ==
            if p == state && TokenText(vocab, t) == tok then Some(state + [tok])
            else Target(vocab, eos, paths + [state], rests, p, t)
  {
    var u := TokenText(vocab, t);
    PassesSnoc(state, tok, p, u);
    ContinuesLast(paths, state, p, u);
    ContinuesLast(paths, state + [tok], p, u);
    LoopsLast(paths, rests, state, p, u);
    LoopsLast(paths, rests, state + [tok], p, u);
  }

  /** A path of length zero changes nothing. */
  lemma TargetEmptyPath(vocab: Vocab, eos: Option<int>, paths: seq<Path>, rests: seq<string>, p: Path, t: int)
    requires |rests| == |paths|
    ensures Target(vocab, eos, paths + [[]], rests, p, t) == Target(vocab, eos, paths, rests, p, t)
  {
    ContinuesLast(paths, [], p, TokenText(vocab, t));
    LoopsLast(paths, rests, [], p, TokenText(vocab, t));
  }

  lemma LoopsDone(paths: seq<Path>, rests: seq<string>, r: string, p: Path, u: string)
    requires |paths| == |rests| + 1
    ensures Loops(paths, rests + [r], p, u) <==> Loops(paths, rests, p, u) || (r == "" && p == paths[|rests|])
  {
    var all := rests + [r];
    forall c: nat
      ensures Completes(paths, all, c, p) <==>
              Completes(paths, rests, c, p) || (c == |rests| && r == "" && p == paths[c])
    {
      if c < |rests| { assert all[c] == rests[c]; }
    }
    if r == "" && p == paths[|rests|] {
      assert Completes(paths, all, |rests|, p) && !PassedAfter(paths, |rests|, p, u);
    }
    if Loops(paths, rests, p, u) {
      var c: nat :| Completes(paths, rests, c, p) && !PassedAfter(paths, c, p, u);
      assert Completes(paths, all, c, p);
    }
  }

  /** The end of a choice that is consumed completely gets its end-token loop; nothing else changes. */
  lemma TargetDone(vocab: Vocab, eos: Option<int>, paths: seq<Path>, rests: seq<string>, r: string, p: Path, t: int)
    requires |paths| == |rests| + 1
    ensures Target(vocab, eos, paths, rests + [r], p, t) ==
            if eos == Some(t) && r == "" && p == paths[|rests|] then Some(p) else Target(vocab, eos, paths, rests, p, t)
  {
    LoopsDone(paths, rests, r, p, TokenText(vocab, t));
  }

  // The same for the edges.

  /** The edges out of state with the tokens ts now lead to next. */
  ghost predicate Redirects(edges0: Edges, edges: Edges, state: Path, ts: seq<int>, next: Path) {
    forall p: Path, t: int ::
      EdgeAt(edges, p, t) == if p == state && t in ts then Some(next) else EdgeAt(edges0, p, t)
  }

  lemma RedirectsSnoc(edges0: Edges, edges: Edges, state: Path, ts: seq<int>, t: int, next: Path)
    requires Redirects(edges0, edges, state, ts, next)
    ensures Redirects(edges0, edges[(state, t) := next], state, ts + [t], next)
  {
    var more := edges[(state, t) := next];
    forall p: Path, u: int
      ensures EdgeAt(more, p, u) == if p == state && u in ts + [t] then Some(next) else EdgeAt(edges0, p, u)
    {
      assert EdgeAt(edges, p, u) == if p == state && u in ts then Some(next) else EdgeAt(edges0, p, u);
    }
    assert Redirects(edges0, more, state, ts + [t], next);
  }

  /** Every token with the text taken gets an edge from the state to the next one. */
  method AddEdges(inv: Inverse, vocab: Vocab, edges0: Edges, state: Path, tok: string) returns (edges: Edges)
    requires InverseOf(inv, vocab) && tok in inv
    ensures Redirects(edges0, edges, state, inv[tok], state + [tok])
  {
    edges := edges0;
    var ids := inv[tok];
    for n := 0 to |ids|
      invariant Redirects(edges0, edges, state, ids[..n], state + [tok])
    {
      RedirectsSnoc(edges0, edges, state, ids[..n], ids[n], state + [tok]);
      assert ids[..n + 1] == ids[..n] + [ids[n]];
      edges := edges[(state, ids[n]) := state + [tok]];
    }
    assert ids[..|ids|] == ids;
  }

  lemma TrieSnoc(inv: Inverse, vocab: Vocab, eos: Option<int>, paths: seq<Path>, rests: seq<string>, state: Path,
                 tok: string, edges0: Edges, edges: Edges)
    requires InverseOf(inv, vocab) && tok in inv && |rests| == |paths|
    requires TrieOf(vocab, eos, paths + [state], rests, edges0)
    requires Redirects(edges0, edges, state, inv[tok], state + [tok])
    ensures TrieOf(vocab, eos, paths + [state + [tok]], rests, edges)
  {
    forall p: Path, t: int
      ensures EdgeAt(edges, p, t) == Target(vocab, eos, paths + [state + [tok]], rests, p, t)
    {
      TargetSnoc(vocab, eos, paths, rests, state, tok, p, t);
      assert Lists(inv, tok, t) <==> t in vocab && vocab[t] == tok && tok != "";
      assert EdgeAt(edges0, p, t) == Target(vocab, eos, paths + [state], rests, p, t);
    }
  }

  lemma TrieEmptyPath(vocab: Vocab, eos: Option<int>, paths: seq<Path>, rests: seq<string>, edges: Edges)
    requires TrieOf(vocab, eos, paths, rests, edges) && |rests| == |paths|
    ensures TrieOf(vocab, eos, paths + [[]], rests, edges)
  {
    forall p: Path, t: int ensures EdgeAt(edges, p, t) == Target(vocab, eos, paths + [[]], rests, p, t) {
      TargetEmptyPath(vocab, eos, paths, rests, p, t);
    }
  }

  lemma TrieDone(vocab: Vocab, eos: Option<int>, paths: seq<Path>, rests: seq<string>, r: string, edges: Edges)
    requires TrieOf(vocab, eos, paths, rests, edges) && |paths| == |rests| + 1
    ensures TrieOf(vocab, eos, paths, rests + [r],
                   if r == "" && eos.Some? then edges[(paths[|rests|], eos.value) := paths[|rests|]] else edges)
  {
    var edges' := if r == "" && eos.Some? then edges[(paths[|rests|], eos.value) := paths[|rests|]] else edges;
    forall p: Path, t: int ensures EdgeAt(edges', p, t) == Target(vocab, eos, paths, rests + [r], p, t) {
      TargetDone(vocab, eos, paths, rests, r, p, t);
      assert EdgeAt(edges, p, t) == Target(vocab, eos, paths, rests, p, t);
    }
  }

  /** Adds one choice: its greedy path, and its end as accepting when nothing is left over. */
  method AddChoice(inv: Inverse, vocab: Vocab, eos: Option<int>, edges0: Edges, accepting0: set<Path>,
                   ghost paths: seq<Path>, ghost rests: seq<string>, choice: string)
    returns (edges: Edges, accepting: set<Path>, state: Path, remaining: string)
    requires InverseOf(inv, vocab) && |rests| == |paths| && TrieOf(vocab, eos, paths, rests, edges0)
    ensures Splits(inv, choice, state, remaining)
    ensures accepting == if remaining == "" then accepting0 + {state} else accepting0
    ensures TrieOf(vocab, eos, paths + [state], rests + [remaining], edges)
  {
    edges, accepting, state, remaining := edges0, accepting0, [], choice;
    TrieEmptyPath(vocab, eos, paths, rests, edges);
    while remaining != ""
      invariant Took(inv, choice, state, remaining) && TrieOf(vocab, eos, paths + [state], rests, edges)
      decreases |remaining|
    {
      var tok := LongestToken(inv, remaining);
      if tok.None? {
        TrieDone(vocab, eos, paths + [state], rests, remaining, edges);
        return;
      }
      edges, state, remaining := Take(inv, vocab, eos, edges, paths, rests, choice, state, remaining, tok.value);
    }
    TrieDone(vocab, eos, paths + [state], rests, "", edges);
    accepting := accepting + {state};
    if eos.Some? { edges := edges[(state, eos.value) := state]; }
  }

  /** Consumes one token's text. */
  method Take(inv: Inverse, vocab: Vocab, ghost eos: Option<int>, edges0: Edges, ghost paths: seq<Path>,
              ghost rests: seq<string>, ghost choice: string, state0: Path, remaining0: string, tok: string)
    returns (edges: Edges, state: Path, remaining: string)
    requires InverseOf(inv, vocab) && |rests| == |paths| && IsLongest(inv, remaining0, tok)
    requires Took(inv, choice, state0, remaining0) && TrieOf(vocab, eos, paths + [state0], rests, edges0)
    ensures Took(inv, choice, state, remaining) && TrieOf(vocab, eos, paths + [state], rests, edges)
    ensures |remaining| < |remaining0|
  {
    assert tok != "";
    edges := AddEdges(inv, vocab, edges0, state0, tok);
    TrieSnoc(inv, vocab, eos, paths, rests, state0, tok, edges0, edges);
    TookSnoc(inv, choice, state0, remaining0, tok);
    state, remaining := state0 + [tok], remaining0[|tok|..];
  }

  /** The choices taken so far are split, and the edges and accepting states are those of their trie. */
  ghost predicate Building(choices: seq<string>, vocab: Vocab, eos: Option<int>, inv: Inverse, edges: Edges,
                           accepting: set<Path>, paths: seq<Path>, rests: seq<string>)
  {
    && SplitsAll(inv, choices, paths, rests) && TrieOf(vocab, eos, paths, rests, edges)
    && AcceptsOf(paths, rests, accepting)
  }

  lemma BuildingSnoc(choices: seq<string>, vocab: Vocab, eos: Option<int>, inv: Inverse, edges0: Edges,
                     accepting0: set<Path>, paths: seq<Path>, rests: seq<string>, choice: string, edges: Edges,
                     accepting: set<Path>, p: Path, r: string)
    requires Building(choices, vocab, eos, inv, edges0, accepting0, paths, rests)
    requires Splits(inv, choice, p, r) && accepting == (if r == "" then accepting0 + {p} else accepting0)
    requires TrieOf(vocab, eos, paths + [p], rests + [r], edges)
    ensures Building(choices + [choice], vocab, eos, inv, edges, accepting, paths + [p], rests + [r])
  {
    AcceptsSnoc(paths, rests, accepting0, p, r);
    SplitsSnoc(inv, choices, paths, rests, choice, p, r);
  }

  lemma SplitsSnoc(inv: Inverse, choices: seq<string>, paths: seq<Path>, rests: seq<string>, choice: string, p: Path,
                   r: string)
    requires SplitsAll(inv, choices, paths, rests) && Splits(inv, choice, p, r)
    ensures SplitsAll(inv, choices + [choice], paths + [p], rests + [r])
  {}

  lemma BuildingNone(vocab: Vocab, eos: Option<int>, inv: Inverse)
    ensures Building([], vocab, eos, inv, map[], {}, [], [])
  {
    forall p: Path, t: int ensures EdgeAt(map[], p, t) == Target(vocab, eos, [], [], p, t) {}
  }

  /** The trie of all choices. */
  method BuildTrie(choices: seq<string>, vocab: Vocab, eos: Option<int>)
    returns (edges: Edges, accepting: set<Path>, ghost inv: Inverse, ghost paths: seq<Path>, ghost rests: seq<string>)
    ensures InverseOf(inv, vocab) && SplitsAll(inv, choices, paths, rests)
    ensures TrieOf(vocab, eos, paths, rests, edges) && AcceptsOf(paths, rests, accepting)
  {
    var index := Invert(vocab);
    inv := index;
    edges, accepting, paths, rests := map[], {}, [], [];
    BuildingNone(vocab, eos, inv);
    for n := 0 to |choices|
      invariant Building(choices[..n], vocab, eos, inv, edges, accepting, paths, rests)
    {
      edges, accepting, paths, rests :=
        NextChoice(index, vocab, eos, edges, accepting, choices[..n], paths, rests, choices[n]);
      assert choices[..n + 1] == choices[..n] + [choices[n]];
    }
    assert choices[..|choices|] == choices;
  }

  method NextChoice(inv: Inverse, vocab: Vocab, eos: Option<int>, edges0: Edges, accepting0: set<Path>,
                    ghost choices: seq<string>, ghost paths0: seq<Path>, ghost rests0: seq<string>, choice: string)
    returns (edges: Edges, accepting: set<Path>, ghost paths: seq<Path>, ghost rests: seq<string>)
    requires InverseOf(inv, vocab) && Building(choices, vocab, eos, inv, edges0, accepting0, paths0, rests0)
    ensures Building(choices + [choice], vocab, eos, inv, edges, accepting, paths, rests)
  {
    var state, remaining;
    edges, accepting, state, remaining := AddChoice(inv, vocab, eos, edges0, accepting0, paths0, rests0, choice);
    BuildingSnoc(choices, vocab, eos, inv, edges0, accepting0, paths0, rests0, choice, edges, accepting, state,
                 remaining);
    paths, rests := paths0 + [state], rests0 + [remaining];
  }

  lemma AcceptsSnoc(paths: seq<Path>, rests: seq<string>, accepting: set<Path>, p: Path, r: string)
    requires |paths| == |rests| && AcceptsOf(paths, rests, accepting)
    ensures AcceptsOf(paths + [p], rests + [r], if r == "" then accepting + {p} else accepting)
  {
    var ps, rs := paths + [p], rests + [r];
    var acc := if r == "" then accepting + {p} else accepting;
    forall q: Path, c: nat
      ensures Completes(ps, rs, c, q) <==> Completes(paths, rests, c, q) || (c == |rests| && q == p && r == "")
    {
      if c < |rests| { assert ps[c] == paths[c] && rs[c] == rests[c]; }
    }
    forall q: Path ensures q in acc <==> exists c: nat :: Completes(ps, rs, c, q) {
      if q in accepting {
        var c: nat :| Completes(paths, rests, c, q);
        assert Completes(ps, rs, c, q);
      }
      if q == p && r == "" { assert Completes(ps, rs, |rests|, q); }
    }
  }

  // --- numbering the states -------------------------------------------------------------------

  type Numbers = map<Path, nat>

  /** Distinct numbers below the count, zero for the root. */
  ghost predicate NumbersOk(num: Numbers) {
    Compact(num) && [] in num && num[[]] == 0
  }

  /** Gives a state that has no number yet the next one. */
  method AddState(num0: Numbers, p: Path) returns (num: Numbers)
    requires NumbersOk(num0)
    ensures NumbersOk(num) && Keeps(num0, num) && p in num
  {
    num := num0;
    if p !in num {
      num := num[p := |num0|];
      CompactGrows(num0, num, p);
    }
  }

  ghost predicate EdgeNumbered(num: Numbers, edges: Edges, key: (Path, int))
    requires key in edges
  {
    key.0 in num && edges[key] in num
  }

  ghost predicate Numbered(num: Numbers, edges: Edges) {
    NumbersOk(num) && forall key :: key in edges ==> EdgeNumbered(num, edges, key)
  }

  /** The ends of the first n edges have numbers. */
  ghost predicate NumberedUpTo(num: Numbers, edges: Edges, keys: seq<(Path, int)>, n: nat) {
    && NumbersOk(num) && n <= |keys|
    && forall k :: 0 <= k < n ==> keys[k] in edges && EdgeNumbered(num, edges, keys[k])
  }

  method NumberStates(edges: Edges) returns (num: Numbers)
    ensures Numbered(num, edges)
  {
    num := map[[] := 0];
    var keys := SetToSeq(edges.Keys);
    for n := 0 to |keys|
      invariant NumberedUpTo(num, edges, keys, n)
    {
      num := NumberEdge(num, edges, keys, n);
    }
    forall key | key in edges ensures EdgeNumbered(num, edges, key) {
      assert key in keys;
    }
  }

  method NumberEdge(num0: Numbers, edges: Edges, keys: seq<(Path, int)>, n: nat) returns (num: Numbers)
    requires n < |keys| && keys[n] in edges && NumberedUpTo(num0, edges, keys, n)
    ensures NumberedUpTo(num, edges, keys, n + 1)
  {
    var one := AddState(num0, keys[n].0);
    num := AddState(one, edges[keys[n]]);
    KeepsNumbered(num0, one, num, edges, keys, n);
  }

  lemma KeepsNumbered(num0: Numbers, one: Numbers, num: Numbers, edges: Edges, keys: seq<(Path, int)>, n: nat)
    requires NumberedUpTo(num0, edges, keys, n) && Keeps(num0, one) && Keeps(one, num) && NumbersOk(num)
    requires n < |keys| && keys[n] in edges && keys[n].0 in one && edges[keys[n]] in num
    ensures NumberedUpTo(num, edges, keys, n + 1)
  {
    forall k | 0 <= k < n + 1 ensures keys[k] in edges && EdgeNumbered(num, edges, keys[k]) {
      if k < n { assert EdgeNumbered(num0, edges, keys[k]); }
    }
  }

  /** The automaton whose states are the numbers of the trie's states. */
  ghost predicate Renumbers(edges: Edges, accepting: set<Path>, num: Numbers, fsa: TokenFsa) {
    && Numbered(num, edges) && fsa.Valid() && fsa.start == 0
    && (forall p, t :: p in num ==> ((num[p], t) in fsa.transitions <==> (p, t) in edges))
    && (forall p, t :: p in num && (p, t) in edges ==> fsa.transitions[(num[p], t)] == num[edges[(p, t)]])
    && (forall p :: p in num ==> (num[p] in fsa.accepting <==> p in accepting))
  }

  method Renumber(edges: Edges, accepting: set<Path>) returns (fsa: TokenFsa, ghost num: Numbers)
    requires forall p :: p in accepting ==> Mentioned(edges, p)
    ensures Renumbers(edges, accepting, num, fsa)
  {
    var states := NumberStates(edges);
    num := states;
    MentionedNumbered(edges, accepting, states);
    fsa := MakeTokenFsa(NumberedEdges(edges, states), 0, NumberedStates(accepting, states));
    RenumbersAll(edges, accepting, num, fsa);
  }

  function NumberedEdges(edges: Edges, num: Numbers): map<(nat, int), nat>
    requires Numbered(num, edges)
  {
    assert forall key :: key in edges ==> EdgeNumbered(num, edges, key);
    NumberedInjective(edges, num);
    map key | key in edges :: (num[key.0], key.1) := num[edges[key]]
  }

  lemma NumberedInjective(edges: Edges, num: Numbers)
    requires Numbered(num, edges) && forall key :: key in edges ==> EdgeNumbered(num, edges, key)
    ensures forall j, k :: j in edges && k in edges && (num[j.0], j.1) == (num[k.0], k.1) ==> j == k
  {}

  function NumberedStates(accepting: set<Path>, num: Numbers): set<nat>
    requires forall p :: p in accepting ==> p in num
  {
    set p | p in accepting :: num[p]
  }

  lemma RenumbersAll(edges: Edges, accepting: set<Path>, num: Numbers, fsa: TokenFsa)
    requires Numbered(num, edges) && fsa.Valid() && fsa.start == 0 && forall p :: p in accepting ==> p in num
    requires fsa.transitions == NumberedEdges(edges, num) && fsa.accepting == NumberedStates(accepting, num)
    ensures Renumbers(edges, accepting, num, fsa)
  {
    forall p, t | p in num
      ensures (num[p], t) in fsa.transitions <==> (p, t) in edges
      ensures (p, t) in edges ==> edges[(p, t)] in num && fsa.transitions[(num[p], t)] == num[edges[(p, t)]]
    {
      TransitionsAre(edges, num, p, t);
    }
    forall p | p in num ensures num[p] in fsa.accepting <==> p in accepting {}
  }

  /** p is the root or an end of some edge. */
  ghost predicate Mentioned(edges: Edges, p: Path) {
    p == [] || exists key :: key in edges && (key.0 == p || edges[key] == p)
  }

  lemma MentionedNumbered(edges: Edges, accepting: set<Path>, num: Numbers)
    requires Numbered(num, edges) && forall p :: p in accepting ==> Mentioned(edges, p)
    ensures forall p :: p in accepting ==> p in num
  {
    forall p | p in accepting ensures p in num {
      if p != [] {
        var key :| key in edges && (key.0 == p || edges[key] == p);
        assert EdgeNumbered(num, edges, key);
      }
    }
  }

  lemma TransitionsAre(edges: Edges, num: Numbers, p: Path, t: int)
    requires Numbered(num, edges) && p in num
    ensures (num[p], t) in NumberedEdges(edges, num) <==> (p, t) in edges
    ensures (p, t) in edges ==> edges[(p, t)] in num && NumberedEdges(edges, num)[(num[p], t)] == num[edges[(p, t)]]
  {
    if (p, t) in edges {
      assert EdgeNumbered(num, edges, (p, t));
      assert (num[(p, t).0], (p, t).1) in NumberedEdges(edges, num);
    }
    if (num[p], t) in NumberedEdges(edges, num) {
      var key :| key in edges && (num[key.0], key.1) == (num[p], t);
      assert key == (p, t);
    }
  }
}
