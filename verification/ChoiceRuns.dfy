/** What the runs of a choice automaton spell, which choices it offers, and where it can get stuck. */
module ChoiceRuns {
  import opened Counting
  import opened Options
  import opened TokenFsas
  import opened ChoiceFsa

  /** What a construction goes through: the tokens by text, the greedy splits of the choices, their trie and its
      numbered states. */
  datatype Plan = Plan(inv: Inverse, paths: seq<Path>, rests: seq<string>, edges: Edges, accepting: set<Path>,
                       num: Numbers)

  ghost predicate Built(choices: seq<string>, vocab: Vocab, eos: Option<int>, plan: Plan, fsa: TokenFsa) {
    && InverseOf(plan.inv, vocab) && SplitsAll(plan.inv, choices, plan.paths, plan.rests)
    && TrieOf(vocab, eos, plan.paths, plan.rests, plan.edges) && AcceptsOf(plan.paths, plan.rests, plan.accepting)
    && Renumbers(plan.edges, plan.accepting, plan.num, fsa)
  }

  method BuildChoiceFsa(choices: seq<string>, vocab: Vocab, eos: Option<int>) returns (fsa: TokenFsa, ghost plan: Plan)
    ensures Built(choices, vocab, eos, plan, fsa)
    ensures forall ts: seq<int> :: Accepted(fsa, ts) ==> SpellsOneOf(choices, vocab, eos, ts)
  {
    var trie, finals;
    ghost var inv, paths, rests, num;
    trie, finals, inv, paths, rests := BuildTrie(choices, vocab, eos);
    forall p | p in finals ensures Mentioned(trie, p) {
      AcceptingMentioned(choices, vocab, eos, inv, paths, rests, trie, finals, p);
    }
    fsa, num := Renumber(trie, finals);
    plan := Plan(inv, paths, rests, trie, finals, num);
    forall ts: seq<int> | Accepted(fsa, ts) ensures SpellsOneOf(choices, vocab, eos, ts) {
      AcceptedIsChoice(choices, vocab, eos, plan, fsa, ts);
    }
  }

  /** Following ts from the start ends in an accepting state. */
  predicate Accepted(fsa: TokenFsa, ts: seq<int>) {
    fsa.Run(0, ts).Some? && fsa.IsAccepting(fsa.Run(0, ts).value)
  }

  /** p is the texts of ts, where an end token stands for nothing or, if it has one, for its text. */
  ghost predicate Reads(vocab: Vocab, eos: Option<int>, ts: seq<int>, p: Path)
    decreases |ts|
  {
    if ts == [] then p == []
    else
      var us, t := ts[..|ts| - 1], ts[|ts| - 1];
      || (eos == Some(t) && Reads(vocab, eos, us, p))
      || (p != [] && TokenText(vocab, t) != "" && p[|p| - 1] == TokenText(vocab, t)
          && Reads(vocab, eos, us, p[..|p| - 1]))
  }

  /** ts spells one of the choices. */
  ghost predicate SpellsOneOf(choices: seq<string>, vocab: Vocab, eos: Option<int>, ts: seq<int>) {
    exists p: Path :: Reads(vocab, eos, ts, p) && Concat(p) in choices
  }

  /** The texts of a token sequence, end tokens dropped. */
  function Texts(vocab: Vocab, eos: Option<int>, ts: seq<int>): Path {
    if ts == [] then []
    else
      var t := ts[|ts| - 1];
      Texts(vocab, eos, ts[..|ts| - 1]) + (if eos == Some(t) then [] else [TokenText(vocab, t)])
  }

  /** With a textless end token there is nothing else to read than the texts with the end tokens dropped. */
  lemma {:induction false} ReadsTexts(vocab: Vocab, eos: Option<int>, ts: seq<int>, p: Path)
    requires Reads(vocab, eos, ts, p) && (eos.Some? ==> TokenText(vocab, eos.value) == "")
    ensures p == Texts(vocab, eos, ts)
    decreases |ts|
  {
    if ts != [] {
      var us, t := ts[..|ts| - 1], ts[|ts| - 1];
      if eos == Some(t) {
        ReadsTexts(vocab, eos, us, p);
        assert Texts(vocab, eos, us) + [] == Texts(vocab, eos, us);
      } else {
        ReadsTexts(vocab, eos, us, p[..|p| - 1]);
        assert p == p[..|p| - 1] + [TokenText(vocab, t)];
      }
    }
  }

  lemma ReadsEos(vocab: Vocab, eos: Option<int>, ts: seq<int>, t: int, p: Path)
    requires Reads(vocab, eos, ts, p) && eos == Some(t)
    ensures Reads(vocab, eos, ts + [t], p)
  {
    assert (ts + [t])[..|ts|] == ts;
  }

  lemma ReadsSnoc(vocab: Vocab, eos: Option<int>, ts: seq<int>, t: int, p: Path)
    requires Reads(vocab, eos, ts, p) && TokenText(vocab, t) != ""
    ensures Reads(vocab, eos, ts + [t], p + [TokenText(vocab, t)])
  {
    assert (ts + [t])[..|ts|] == ts;
    assert (p + [TokenText(vocab, t)])[..|p|] == p;
  }

  // --- steps of the automaton -------------------------------------------------------------------

  /** The automaton's step is the trie's edge, numbered. */
  lemma StepIsTarget(choices: seq<string>, vocab: Vocab, eos: Option<int>, plan: Plan, fsa: TokenFsa, p: Path, t: int)
    requires Built(choices, vocab, eos, plan, fsa) && p in plan.num
    ensures var q := Target(vocab, eos, plan.paths, plan.rests, p, t);
            && (fsa.Advance(plan.num[p], t).Some? <==> q.Some?)
            && (q.Some? ==> q.value in plan.num && fsa.Advance(plan.num[p], t) == Some(plan.num[q.value]))
    ensures t in fsa.Allowed(plan.num[p]) <==> Target(vocab, eos, plan.paths, plan.rests, p, t).Some?
  {
    assert EdgeAt(plan.edges, p, t) == Target(vocab, eos, plan.paths, plan.rests, p, t);
    if (p, t) in plan.edges { assert EdgeNumbered(plan.num, plan.edges, (p, t)); }
    assert (plan.num[p], t) in fsa.transitions <==> (p, t) in plan.edges;
    assert ListsOf(fsa.transitions, plan.num[p], fsa.Allowed(plan.num[p]));
  }

  lemma RunSnoc(fsa: TokenFsa, ts: seq<int>, t: int)
    requires fsa.Run(0, ts).Some?
    ensures fsa.Run(0, ts + [t]) == fsa.Advance(fsa.Run(0, ts).value, t)
  {
    assert (ts + [t])[..|ts|] == ts;
  }

  /** p is a prefix of some path. */
  ghost predicate OnPath(paths: seq<Path>, p: Path) {
    exists c :: 0 <= c < |paths| && p <= paths[c]
  }

  lemma ContinuesOnPath(paths: seq<Path>, p: Path, s: string)
    requires Continues(paths, p, s)
    ensures OnPath(paths, p + [s])
  {
    var c :| 0 <= c < |paths| && Passes(paths[c], p, s);
    assert paths[c][..|p| + 1] == p + [s];
    assert p + [s] <= paths[c];
  }

  /** A defined run is in the state named by the texts it has read. */
  lemma {:induction false} RunState(choices: seq<string>, vocab: Vocab, eos: Option<int>, plan: Plan, fsa: TokenFsa,
                                    ts: seq<int>)
    returns (p: Path)
    requires Built(choices, vocab, eos, plan, fsa)
    requires fsa.Run(0, ts).Some?
    ensures Reads(vocab, eos, ts, p) && p in plan.num && fsa.Run(0, ts).value == plan.num[p]
    ensures (p == [] || OnPath(plan.paths, p)) && Free(vocab, eos, plan.paths, plan.rests, p)
    decreases |ts|
  {
    if ts == [] {
      p := [];
    } else {
      var us, t := ts[..|ts| - 1], ts[|ts| - 1];
      assert ts == us + [t];
      var q := RunState(choices, vocab, eos, plan, fsa, us);
      StepIsTarget(choices, vocab, eos, plan, fsa, q, t);
      p := Target(vocab, eos, plan.paths, plan.rests, q, t).value;
      TargetReads(vocab, eos, plan.paths, plan.rests, us, q, t);
      TargetFree(vocab, eos, plan.paths, plan.rests, q, t);
    }
  }

  lemma TargetReads(vocab: Vocab, eos: Option<int>, paths: seq<Path>, rests: seq<string>, ts: seq<int>, p: Path, t: int)
    requires Reads(vocab, eos, ts, p) && (p == [] || OnPath(paths, p))
    requires Target(vocab, eos, paths, rests, p, t).Some?
    ensures var q := Target(vocab, eos, paths, rests, p, t).value;
            Reads(vocab, eos, ts + [t], q) && (q == [] || OnPath(paths, q))
  {
    if eos == Some(t) && Loops(paths, rests, p, TokenText(vocab, t)) {
      ReadsEos(vocab, eos, ts, t, p);
    } else {
      ReadsSnoc(vocab, eos, ts, t, p);
      ContinuesOnPath(paths, p, TokenText(vocab, t));
    }
  }

  /** The end token, and no other, has the text s. */
  ghost predicate OnlyEnd(vocab: Vocab, eos: Option<int>, s: string) {
    eos.Some? && s != "" && forall t: int :: TokenText(vocab, t) == s <==> t == eos.value
  }

  /** The end token's loop takes the only edge with which a path could go on from p with the text s. */
  ghost predicate Eaten(vocab: Vocab, eos: Option<int>, paths: seq<Path>, rests: seq<string>, p: Path, s: string) {
    OnlyEnd(vocab, eos, s) && Loops(paths, rests, p, s)
  }

  /** No step of the path is eaten. */
  ghost predicate Free(vocab: Vocab, eos: Option<int>, paths: seq<Path>, rests: seq<string>, path: Path) {
    forall i :: 0 <= i < |path| ==> !Eaten(vocab, eos, paths, rests, path[..i], path[i])
  }

  lemma FreeSnoc(vocab: Vocab, eos: Option<int>, paths: seq<Path>, rests: seq<string>, p: Path, s: string)
    ensures Free(vocab, eos, paths, rests, p + [s]) <==>
            Free(vocab, eos, paths, rests, p) && !Eaten(vocab, eos, paths, rests, p, s)
  {
    var longer := p + [s];
    assert longer[..|p|] == p && longer[|p|] == s;
    forall i | 0 <= i < |p| ensures longer[..i] == p[..i] && longer[i] == p[i] {}
    if Free(vocab, eos, paths, rests, longer) {
      forall i | 0 <= i < |p| ensures !Eaten(vocab, eos, paths, rests, p[..i], p[i]) {
        assert !Eaten(vocab, eos, paths, rests, longer[..i], longer[i]);
      }
      assert !Eaten(vocab, eos, paths, rests, longer[..|p|], longer[|p|]);
    }
  }

  /** A step that was taken is not eaten. */
  lemma TargetFree(vocab: Vocab, eos: Option<int>, paths: seq<Path>, rests: seq<string>, p: Path, t: int)
    requires Free(vocab, eos, paths, rests, p) && Target(vocab, eos, paths, rests, p, t).Some?
    ensures Free(vocab, eos, paths, rests, Target(vocab, eos, paths, rests, p, t).value)
  {
    var s := TokenText(vocab, t);
    if !(eos == Some(t) && Loops(paths, rests, p, s)) {
      assert OnlyEnd(vocab, eos, s) ==> eos == Some(t);
      FreeSnoc(vocab, eos, paths, rests, p, s);
    }
  }

  // --- what is accepted ---------------------------------------------------------------------------

  /** Every accepting state but the root is the end of an edge. */
  lemma AcceptingMentioned(choices: seq<string>, vocab: Vocab, eos: Option<int>, inv: Inverse, paths: seq<Path>,
                           rests: seq<string>, edges: Edges, accepting: set<Path>, p: Path)
    requires InverseOf(inv, vocab) && SplitsAll(inv, choices, paths, rests)
    requires TrieOf(vocab, eos, paths, rests, edges) && AcceptsOf(paths, rests, accepting) && p in accepting
    ensures Mentioned(edges, p)
  {
    if p != [] {
      var c: nat :| Completes(paths, rests, c, p);
      var q, s := p[..|p| - 1], p[|p| - 1];
      LastStep(inv, choices[c], paths[c], rests[c], p, q, s);
      var t := inv[s][0];
      assert Lists(inv, s, t);
      assert EdgeAt(edges, q, t) == Target(vocab, eos, paths, rests, q, t);
      if eos == Some(t) {
        EosMentioned(vocab, eos, paths, rests, edges, c, p, t);
      } else {
        assert (q, t) in edges && edges[(q, t)] == p;
      }
    }
  }

  lemma EosMentioned(vocab: Vocab, eos: Option<int>, paths: seq<Path>, rests: seq<string>, edges: Edges, c: nat,
                     p: Path, t: int)
    requires TrieOf(vocab, eos, paths, rests, edges) && Completes(paths, rests, c, p) && eos == Some(t)
    ensures Mentioned(edges, p)
  {
    assert EdgeAt(edges, p, t) == Target(vocab, eos, paths, rests, p, t);
    if !Loops(paths, rests, p, TokenText(vocab, t)) {
      assert PassedAfter(paths, c, p, TokenText(vocab, t));
      var d :| c < d < |paths| && Passes(paths[d], p, TokenText(vocab, t));
    }
    assert (p, t) in edges && (p, t).0 == p;
  }

  /** Where an accepted run stands, the choices that were consumed completely along its texts are spelled. */
  lemma AcceptedState(choices: seq<string>, vocab: Vocab, eos: Option<int>, plan: Plan, fsa: TokenFsa, p: Path)
    returns (c: nat)
    requires Built(choices, vocab, eos, plan, fsa)
    requires p in plan.num && fsa.IsAccepting(plan.num[p])
    ensures Completes(plan.paths, plan.rests, c, p) && Concat(p) == choices[c]
  {
    c :| Completes(plan.paths, plan.rests, c, p);
    TookConcat(plan.inv, choices[c], p, "");
    assert Concat(p) + "" == Concat(p);
  }

  /** Every run that ends in an accepting state spells one of the choices. */
  lemma AcceptedIsChoice(choices: seq<string>, vocab: Vocab, eos: Option<int>, plan: Plan, fsa: TokenFsa, ts: seq<int>)
    requires Built(choices, vocab, eos, plan, fsa) && Accepted(fsa, ts)
    ensures SpellsOneOf(choices, vocab, eos, ts)
    ensures (eos.Some? ==> TokenText(vocab, eos.value) == "") ==> Concat(Texts(vocab, eos, ts)) in choices
  {
    var p := RunState(choices, vocab, eos, plan, fsa, ts);
    var c := AcceptedState(choices, vocab, eos, plan, fsa, p);
    if eos.Some? ==> TokenText(vocab, eos.value) == "" { ReadsTexts(vocab, eos, ts, p); }
  }

  // --- what is offered ------------------------------------------------------------------------------

  /** The end token has no text, or shares it with another token. */
  ghost predicate Spare(vocab: Vocab, eos: Option<int>) {
    eos.Some? && TokenText(vocab, eos.value) != "" ==>
      exists t: int :: t != eos.value && t in vocab && vocab[t] == vocab[eos.value]
  }

  /** Some run spells the choice and is then in an accepting state, the one named by the texts it has read. */
  ghost predicate Offered(choices: seq<string>, vocab: Vocab, eos: Option<int>, num: Numbers, fsa: TokenFsa, c: nat)
    requires c < |choices|
  {
    exists ts: seq<int>, p: Path :: Accepted(fsa, ts) && StandsAt(num, fsa, ts, p) && Reads(vocab, eos, ts, p)
                                    && Concat(p) == choices[c]
  }

  /** The run ts is in the state of the path p. */
  ghost predicate StandsAt(num: Numbers, fsa: TokenFsa, ts: seq<int>, p: Path) {
    p in num && fsa.Run(0, ts) == Some(num[p])
  }

  /** A step along a path has an edge unless it is eaten, because every text taken belongs to some token. */
  lemma PathEdge(vocab: Vocab, eos: Option<int>, inv: Inverse, paths: seq<Path>, rests: seq<string>, p: Path, s: string)
    returns (t: int)
    requires InverseOf(inv, vocab) && Continues(paths, p, s) && s in inv && !Eaten(vocab, eos, paths, rests, p, s)
    ensures TokenText(vocab, t) == s != "" && Target(vocab, eos, paths, rests, p, t) == Some(p + [s])
  {
    t := inv[s][0];
    assert Lists(inv, s, t);
    if eos == Some(t) && Loops(paths, rests, p, s) {
      t :| TokenText(vocab, t) == s && t != eos.value;
    }
  }

  /** The last step of a prefix of a path. */
  lemma LastStep(inv: Inverse, choice: string, path: Path, rest: string, p: Path, q: Path, s: string)
    requires Splits(inv, choice, path, rest) && p <= path && p != [] && q == p[..|p| - 1] && s == p[|p| - 1]
    ensures s in inv && Passes(path, q, s) && q <= path && p == q + [s]
  {
    TookTexts(inv, choice, path, rest);
  }

  /** Walking along a path one text at a time, with any tokens that have those texts. */
  lemma {:induction false} FollowPath(choices: seq<string>, vocab: Vocab, eos: Option<int>, plan: Plan, fsa: TokenFsa,
                                      c: nat, p: Path)
    returns (ts: seq<int>)
    requires Built(choices, vocab, eos, plan, fsa)
    requires c < |plan.paths| && p <= plan.paths[c] && Free(vocab, eos, plan.paths, plan.rests, p)
    ensures Reads(vocab, eos, ts, p) && StandsAt(plan.num, fsa, ts, p)
    decreases |p|
  {
    if p == [] {
      ts := [];
    } else {
      var q, s := p[..|p| - 1], p[|p| - 1];
      LastStep(plan.inv, choices[c], plan.paths[c], plan.rests[c], p, q, s);
      FreeSnoc(vocab, eos, plan.paths, plan.rests, q, s);
      var us := FollowPath(choices, vocab, eos, plan, fsa, c, q);
      ts := FollowStep(choices, vocab, eos, plan, fsa, us, q, s);
    }
  }

  /** One more text of a path. */
  lemma FollowStep(choices: seq<string>, vocab: Vocab, eos: Option<int>, plan: Plan, fsa: TokenFsa, us: seq<int>,
                   p: Path, s: string)
    returns (ts: seq<int>)
    requires Built(choices, vocab, eos, plan, fsa) && !Eaten(vocab, eos, plan.paths, plan.rests, p, s)
    requires Continues(plan.paths, p, s) && s in plan.inv && Reads(vocab, eos, us, p) && StandsAt(plan.num, fsa, us, p)
    ensures Reads(vocab, eos, ts, p + [s]) && StandsAt(plan.num, fsa, ts, p + [s])
  {
    var t := PathEdge(vocab, eos, plan.inv, plan.paths, plan.rests, p, s);
    StepIsTarget(choices, vocab, eos, plan, fsa, p, t);
    RunSnoc(fsa, us, t);
    ReadsSnoc(vocab, eos, us, t, p);
    ts := us + [t];
  }

  /** A choice that splits completely into tokens is spelled by some accepted run, when no step of its path is eaten. */
  lemma ChoiceIsOffered(choices: seq<string>, vocab: Vocab, eos: Option<int>, plan: Plan, fsa: TokenFsa, c: nat)
    requires Built(choices, vocab, eos, plan, fsa) && c < |choices| && plan.rests[c] == ""
    requires Free(vocab, eos, plan.paths, plan.rests, plan.paths[c])
    ensures Offered(choices, vocab, eos, plan.num, fsa, c)
  {
    var ts := FollowPath(choices, vocab, eos, plan, fsa, c, plan.paths[c]);
    assert Completes(plan.paths, plan.rests, c, plan.paths[c]);
    TookConcat(plan.inv, choices[c], plan.paths[c], "");
    assert Concat(plan.paths[c]) + "" == Concat(plan.paths[c]);
    assert Accepted(fsa, ts) && StandsAt(plan.num, fsa, ts, plan.paths[c]) && Reads(vocab, eos, ts, plan.paths[c]);
  }

  lemma OfferedPath(choices: seq<string>, vocab: Vocab, eos: Option<int>, plan: Plan, fsa: TokenFsa, c: nat,
                    ts: seq<int>, p: Path)
    requires Built(choices, vocab, eos, plan, fsa) && c < |choices|
    requires Accepted(fsa, ts) && StandsAt(plan.num, fsa, ts, p) && Concat(p) == choices[c]
    ensures plan.rests[c] == "" && plan.paths[c] == p && Free(vocab, eos, plan.paths, plan.rests, p)
  {
    var d := AcceptedState(choices, vocab, eos, plan, fsa, p);
    SplitsUnique(plan.inv, choices[c], plan.paths[c], plan.rests[c], plan.paths[d], plan.rests[d]);
    var q := RunState(choices, vocab, eos, plan, fsa, ts);
    assert q == p;
  }

  /** A choice is offered if and only if its greedy split leaves nothing over and no step of it is eaten. */
  lemma OfferedExactly(choices: seq<string>, vocab: Vocab, eos: Option<int>, plan: Plan, fsa: TokenFsa, c: nat)
    requires Built(choices, vocab, eos, plan, fsa) && c < |choices|
    ensures Offered(choices, vocab, eos, plan.num, fsa, c) <==>
            plan.rests[c] == "" && Free(vocab, eos, plan.paths, plan.rests, plan.paths[c])
  {
    if plan.rests[c] == "" && Free(vocab, eos, plan.paths, plan.rests, plan.paths[c]) {
      ChoiceIsOffered(choices, vocab, eos, plan, fsa, c);
    }
    if Offered(choices, vocab, eos, plan.num, fsa, c) {
      var ts: seq<int>, p: Path :| Accepted(fsa, ts) && StandsAt(plan.num, fsa, ts, p) && Reads(vocab, eos, ts, p)
                                   && Concat(p) == choices[c];
      OfferedPath(choices, vocab, eos, plan, fsa, c, ts, p);
    }
  }

  /** A spare end token eats nothing. */
  lemma SpareIsFree(vocab: Vocab, eos: Option<int>, paths: seq<Path>, rests: seq<string>, path: Path)
    requires Spare(vocab, eos)
    ensures Free(vocab, eos, paths, rests, path)
  {
    if eos.Some? && TokenText(vocab, eos.value) != "" {
      var t: int :| t != eos.value && t in vocab && vocab[t] == vocab[eos.value];
      assert TokenText(vocab, t) == TokenText(vocab, eos.value);
    }
    forall s: string ensures !OnlyEnd(vocab, eos, s) {
      assert eos.Some? && s != TokenText(vocab, eos.value) ==> !OnlyEnd(vocab, eos, s);
    }
  }

  /** When every character is a token and the end token is spare, every choice is offered. */
  lemma AllOffered(choices: seq<string>, vocab: Vocab, eos: Option<int>, plan: Plan, fsa: TokenFsa, c: nat)
    requires Built(choices, vocab, eos, plan, fsa) && c < |choices|
    requires Spare(vocab, eos) && forall ch: char :: [ch] in plan.inv
    ensures Offered(choices, vocab, eos, plan.num, fsa, c)
  {
    NothingLeft(plan.inv, choices[c], plan.paths[c], plan.rests[c]);
    SpareIsFree(vocab, eos, plan.paths, plan.rests, plan.paths[c]);
    OfferedExactly(choices, vocab, eos, plan, fsa, c);
  }

  /** Without a spare end token there are choices for which the end token's loop takes the only edge: its own text and
      the empty choice after it.  The text then splits completely and is never offered. */
  lemma SpareIsNeeded(vocab: Vocab, e: int, s: string, plan: Plan, fsa: TokenFsa)
    requires !Spare(vocab, Some(e)) && s == TokenText(vocab, e)
    requires Built([s, ""], vocab, Some(e), plan, fsa)
    ensures plan.rests[0] == "" && !Offered([s, ""], vocab, Some(e), plan.num, fsa, 0)
  {
    PathsOfPair(vocab, e, s, plan.inv, plan.paths, plan.rests);
    forall ts: seq<int>, p: Path | StandsAt(plan.num, fsa, ts, p) ensures p == [] {
      StaysAtRoot(vocab, e, s, plan, fsa, ts);
    }
    assert forall p: Path :: p == [] ==> Concat(p) != s;
  }

  lemma PathsOfPair(vocab: Vocab, e: int, s: string, inv: Inverse, paths: seq<Path>, rests: seq<string>)
    requires InverseOf(inv, vocab) && SplitsAll(inv, [s, ""], paths, rests) && s == TokenText(vocab, e) != ""
    ensures paths == [[s], []] && rests == ["", ""]
  {
    assert Lists(inv, s, e);
    var none: Path := [];
    assert s[|s|..] == "" && [s][1..] == none;
    assert Took(inv, s[|s|..], none, "");
    assert Splits(inv, s, [s], "");
    SplitsUnique(inv, s, paths[0], rests[0], [s], "");
    SplitsUnique(inv, "", paths[1], rests[1], none, "");
  }

  /** The only edge out of the root is the end token's loop. */
  lemma OnlyLoop(vocab: Vocab, e: int, s: string, paths: seq<Path>, rests: seq<string>, t: int)
    requires !Spare(vocab, Some(e)) && s == TokenText(vocab, e) && paths == [[s], []] && rests == ["", ""]
    ensures Target(vocab, Some(e), paths, rests, [], t) == if t == e then Some([]) else None
  {
    var u := TokenText(vocab, t);
    if t == e {
      assert Completes(paths, rests, 1, []) && !PassedAfter(paths, 1, [], u);
    } else {
      assert u != s || u == "";
      assert !Passes([s], [], u) && !Passes([], [], u);
    }
  }

  lemma {:induction false} StaysAtRoot(vocab: Vocab, e: int, s: string, plan: Plan, fsa: TokenFsa, ts: seq<int>)
    requires !Spare(vocab, Some(e)) && s == TokenText(vocab, e) && plan.paths == [[s], []] && plan.rests == ["", ""]
    requires Built([s, ""], vocab, Some(e), plan, fsa)
    requires fsa.Run(0, ts).Some?
    ensures [] in plan.num && fsa.Run(0, ts) == Some(plan.num[[]])
    decreases |ts|
  {
    if ts != [] {
      var us, t := ts[..|ts| - 1], ts[|ts| - 1];
      StaysAtRoot(vocab, e, s, plan, fsa, us);
      StepIsTarget([s, ""], vocab, Some(e), plan, fsa, [], t);
      OnlyLoop(vocab, e, s, plan.paths, plan.rests, t);
    }
  }

  /** Some construction for the end token's own text and the empty choice after it. */
  lemma PairBuilt(vocab: Vocab, e: int, s: string) returns (plan: Plan, fsa: TokenFsa)
    requires !Spare(vocab, Some(e)) && s == TokenText(vocab, e)
    ensures Built([s, ""], vocab, Some(e), plan, fsa)
  {
    var inv := InverseFor(vocab);
    InverseForIs(vocab);
    var root: Path, end: Path := [], [s];
    var edges := map[(root, e) := root, (end, e) := end];
    var num := map[root := 0, end := 1];
    var paths, rests := [end, root], ["", ""];
    PairSplits(vocab, e, s, inv);
    PairTrie(vocab, e, s, paths, rests, edges);
    PairAccepts(paths, rests, root, end);
    fsa := TokenFsa(map[(0, e) := 0, (1, e) := 1], 0, {0, 1}, map[0 := [e], 1 := [e]]);
    PairNumbered(e, root, end, edges, num, fsa);
    plan := Plan(inv, paths, rests, edges, {root, end}, num);
  }

  lemma PairSplits(vocab: Vocab, e: int, s: string, inv: Inverse)
    requires InverseOf(inv, vocab) && s == TokenText(vocab, e) != ""
    ensures SplitsAll(inv, [s, ""], [[s], []], ["", ""])
  {
    assert Lists(inv, s, e);
    var none: Path := [];
    assert s[|s|..] == "" && [s][1..] == none;
    assert Took(inv, s[|s|..], none, "");
    assert Splits(inv, s, [s], "");
  }

  lemma PairTrie(vocab: Vocab, e: int, s: string, paths: seq<Path>, rests: seq<string>, edges: Edges)
    requires !Spare(vocab, Some(e)) && s == TokenText(vocab, e) && paths == [[s], []] && rests == ["", ""]
    requires edges == map[([], e) := [], ([s], e) := [s]]
    ensures TrieOf(vocab, Some(e), paths, rests, edges)
  {
    forall p: Path, t: int ensures EdgeAt(edges, p, t) == Target(vocab, Some(e), paths, rests, p, t) {
      if p == [] { OnlyLoop(vocab, e, s, paths, rests, t); } else { OnlyLoopBehind(vocab, e, s, paths, rests, p, t); }
    }
  }

  lemma OnlyLoopBehind(vocab: Vocab, e: int, s: string, paths: seq<Path>, rests: seq<string>, p: Path, t: int)
    requires !Spare(vocab, Some(e)) && s == TokenText(vocab, e) && paths == [[s], []] && rests == ["", ""] && p != []
    ensures Target(vocab, Some(e), paths, rests, p, t) == if t == e && p == [s] then Some(p) else None
  {
    var u := TokenText(vocab, t);
    assert !Passes([s], p, u) && !Passes([], p, u);
    assert !Continues(paths, p, u);
    if p == [s] {
      assert Completes(paths, rests, 0, p) && !PassedAfter(paths, 0, p, u);
    } else {
      assert forall c: nat :: !Completes(paths, rests, c, p);
    }
  }

  lemma PairAccepts(paths: seq<Path>, rests: seq<string>, root: Path, end: Path)
    requires paths == [end, root] && rests == ["", ""]
    ensures AcceptsOf(paths, rests, {root, end})
  {
    assert Completes(paths, rests, 0, end) && Completes(paths, rests, 1, root);
  }

  lemma PairNumbered(e: int, root: Path, end: Path, edges: Edges, num: Numbers, fsa: TokenFsa)
    requires root == [] && end != root && edges == map[(root, e) := root, (end, e) := end]
    requires num == map[root := 0, end := 1]
    requires fsa == TokenFsa(map[(0, e) := 0, (1, e) := 1], 0, {0, 1}, map[0 := [e], 1 := [e]])
    ensures Renumbers(edges, {root, end}, num, fsa)
  {
    PairNumbers(root, end, num);
    forall key | key in edges ensures EdgeNumbered(num, edges, key) {}
    PairValid(e, fsa);
    PairTransitions(e, root, end, edges, num, fsa.transitions);
  }

  lemma PairValid(e: int, fsa: TokenFsa)
    requires fsa == TokenFsa(map[(0, e) := 0, (1, e) := 1], 0, {0, 1}, map[0 := [e], 1 := [e]])
    ensures fsa.Valid()
  {
    forall q: nat ensures ListsOf(fsa.transitions, q, fsa.Allowed(q)) {}
  }

  lemma PairTransitions(e: int, root: Path, end: Path, edges: Edges, num: Numbers, ts: map<(nat, int), nat>)
    requires end != root && edges == map[(root, e) := root, (end, e) := end] && num == map[root := 0, end := 1]
    requires ts == map[(0, e) := 0, (1, e) := 1]
    ensures forall p, t :: p in num ==> ((num[p], t) in ts <==> (p, t) in edges)
    ensures forall p, t :: p in num && (p, t) in edges ==> edges[(p, t)] in num && ts[(num[p], t)] == num[edges[(p, t)]]
  {
    forall p, t | p in num ensures (num[p], t) in ts <==> (p, t) in edges {}
  }

  lemma PairNumbers(root: Path, end: Path, num: Numbers)
    requires root == [] && end != root && num == map[root := 0, end := 1]
    ensures NumbersOk(num)
  {
    assert num.Keys == {root, end};
    assert |num| == |num.Keys| == 2;
  }

  function TextsOf(vocab: Vocab): set<string> {
    set t | t in vocab && vocab[t] != "" :: vocab[t]
  }

  function TokensOf(vocab: Vocab, s: string): set<int> {
    set t | t in vocab && vocab[t] == s
  }

  /** The tokens with text, by text. */
  ghost function InverseFor(vocab: Vocab): Inverse {
    map s | s in TextsOf(vocab) :: Listing(TokensOf(vocab, s))
  }

  lemma InverseForIs(vocab: Vocab)
    ensures InverseOf(InverseFor(vocab), vocab)
  {
    var inv := InverseFor(vocab);
    forall s: string, t: int ensures Lists(inv, s, t) <==> t in vocab && vocab[t] == s && s != "" {
      if t in vocab && vocab[t] == s && s != "" { assert s in TextsOf(vocab); }
    }
    forall s: string | s in inv ensures s != "" && inv[s] != [] {
      var t: int :| t in vocab && vocab[t] != "" && vocab[t] == s;
      assert Lists(inv, s, t);
    }
  }

  /** Over all lists of choices: every choice that splits completely is offered, always, if and only if the end token
      has no text that it alone has. */
  lemma AlwaysOfferedExactly(vocab: Vocab, eos: Option<int>)
    ensures (forall choices: seq<string>, plan: Plan, fsa: TokenFsa, c: nat ::
               Built(choices, vocab, eos, plan, fsa) && c < |choices| && plan.rests[c] == "" ==>
                 Offered(choices, vocab, eos, plan.num, fsa, c)) <==>
            Spare(vocab, eos)
  {
    if Spare(vocab, eos) {
      forall choices: seq<string>, plan: Plan, fsa: TokenFsa, c: nat
             | Built(choices, vocab, eos, plan, fsa) && c < |choices| && plan.rests[c] == ""
        ensures Offered(choices, vocab, eos, plan.num, fsa, c)
      {
        SpareIsFree(vocab, eos, plan.paths, plan.rests, plan.paths[c]);
        OfferedExactly(choices, vocab, eos, plan, fsa, c);
      }
    } else {
      var s := TokenText(vocab, eos.value);
      var plan, fsa := PairBuilt(vocab, eos.value, s);
      SpareIsNeeded(vocab, eos.value, s, plan, fsa);
    }
  }

  // --- where a run is stuck ---------------------------------------------------------------------

  /** Where a run gets stuck outside the accepting states: exactly at the place where some choice stopped splitting,
      if no other choice completes there or goes on from there (or where there is no choice at all). */
  lemma StuckExactly(choices: seq<string>, vocab: Vocab, eos: Option<int>, plan: Plan, fsa: TokenFsa, ts: seq<int>)
    returns (p: Path)
    requires Built(choices, vocab, eos, plan, fsa)
    requires fsa.Run(0, ts).Some?
    ensures Reads(vocab, eos, ts, p) && StandsAt(plan.num, fsa, ts, p)
    ensures (fsa.Allowed(fsa.Run(0, ts).value) == [] && !fsa.IsAccepting(fsa.Run(0, ts).value)) <==>
            (choices == [] || exists c :: 0 <= c < |plan.paths| && plan.paths[c] == p && plan.rests[c] != "")
            && p !in plan.accepting && forall s: string :: !Continues(plan.paths, p, s)
  {
    p := RunState(choices, vocab, eos, plan, fsa, ts);
    if p !in plan.accepting {
      if forall s: string :: !Continues(plan.paths, p, s) {
        NoStep(choices, vocab, eos, plan, fsa, p);
        if choices != [] {
          PathTexts(plan.inv, choices, plan.paths, plan.rests);
          var c := EndOfPath(plan.paths, p);
          assert plan.rests[c] == "" ==> Completes(plan.paths, plan.rests, c, p);
        }
      } else {
        var s: string :| Continues(plan.paths, p, s);
        SomeStep(choices, vocab, eos, plan, fsa, p, s);
      }
    }
  }

  lemma NoStep(choices: seq<string>, vocab: Vocab, eos: Option<int>, plan: Plan, fsa: TokenFsa, p: Path)
    requires Built(choices, vocab, eos, plan, fsa) && p in plan.num
    requires p !in plan.accepting && forall s: string :: !Continues(plan.paths, p, s)
    ensures fsa.Allowed(plan.num[p]) == []
  {
    if fsa.Allowed(plan.num[p]) != [] {
      var t := fsa.Allowed(plan.num[p])[0];
      StepIsTarget(choices, vocab, eos, plan, fsa, p, t);
      LoopsAccept(plan.paths, plan.rests, plan.accepting, p, TokenText(vocab, t));
    }
  }

  lemma LoopsAccept(paths: seq<Path>, rests: seq<string>, accepting: set<Path>, p: Path, u: string)
    requires AcceptsOf(paths, rests, accepting)
    ensures Loops(paths, rests, p, u) ==> p in accepting
  {
    if Loops(paths, rests, p, u) {
      var c: nat :| Completes(paths, rests, c, p) && !PassedAfter(paths, c, p, u);
      assert Completes(paths, rests, c, p);
    }
  }

  lemma SomeStep(choices: seq<string>, vocab: Vocab, eos: Option<int>, plan: Plan, fsa: TokenFsa, p: Path, s: string)
    requires Built(choices, vocab, eos, plan, fsa) && p in plan.num
    requires Continues(plan.paths, p, s)
    ensures fsa.Allowed(plan.num[p]) != []
  {
    var c :| 0 <= c < |plan.paths| && Passes(plan.paths[c], p, s);
    TookTexts(plan.inv, choices[c], plan.paths[c], plan.rests[c]);
    var t := plan.inv[s][0];
    assert Lists(plan.inv, s, t);
    StepIsTarget(choices, vocab, eos, plan, fsa, p, t);
    assert t in fsa.Allowed(plan.num[p]);
  }

  lemma EndOfPath(paths: seq<Path>, p: Path) returns (c: nat)
    requires paths != [] && (p == [] || OnPath(paths, p))
    requires forall k, i :: 0 <= k < |paths| && 0 <= i < |paths[k]| ==> paths[k][i] != ""
    ensures c < |paths| && (paths[c] == p || (|p| < |paths[c]| && Continues(paths, p, paths[c][|p|])))
  {
    c := 0;
    if p != [] { c :| 0 <= c < |paths| && p <= paths[c]; }
    if |p| < |paths[c]| { assert Passes(paths[c], p, paths[c][|p|]); }
  }

  lemma PathTexts(inv: Inverse, choices: seq<string>, paths: seq<Path>, rests: seq<string>)
    requires SplitsAll(inv, choices, paths, rests)
    ensures forall k, i :: 0 <= k < |paths| && 0 <= i < |paths[k]| ==> paths[k][i] != ""
  {
    forall k | 0 <= k < |paths| ensures forall i :: 0 <= i < |paths[k]| ==> paths[k][i] != "" {
      TookTexts(inv, choices[k], paths[k], rests[k]);
    }
  }
}
