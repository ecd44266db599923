/** What every run of a compiled token automaton means for the text its tokens spell. */
module TokenRuns {
  import opened Options
  import opened Regex
  import opened Pattern
  import opened NfaModel
  import opened Thompson
  import opened Viability
  import opened EmptyClasses
  import opened EmptyClassPatterns
  import opened TokenFsas
  import opened SubsetConstruction
  import opened RegexFsa

  /** The text of a token sequence; a token without text spells nothing. */
  function Spell(vocab: Vocab, ts: seq<int>): string {
    if ts == [] then "" else Spell(vocab, ts[..|ts| - 1]) + TokenText(vocab, ts[|ts| - 1])
  }

  predicate HasText(vocab: Vocab, t: int) {
    TokenText(vocab, t) != ""
  }

  ghost predicate AllText(vocab: Vocab, ts: seq<int>) {
    forall t :: t in ts ==> HasText(vocab, t)
  }

  /** The end token has no text of its own, so it never stands for characters. */
  ghost predicate EosTextless(vocab: Vocab, eos: Option<int>) {
    eos.Some? ==> !HasText(vocab, eos.value)
  }

  /** Following tokens other than the end token is reading the text they spell: a run exists exactly when
      every token has text and the simulation survives it, and it ends in the state numbered for that set. */
  lemma {:induction false} RunIsRead(m: Sim, vocab: Vocab, eos: Option<int>, fsa: TokenFsa, ids: Numbering,
                                     ts: seq<int>)
    requires Lawful(m) && Correct(m, vocab, eos, fsa, ids)
    requires forall t :: t in ts ==> eos != Some(t)
    ensures fsa.Run(0, ts).Some? <==> AllText(vocab, ts) && m.read(m.init, Spell(vocab, ts)) != {}
    ensures fsa.Run(0, ts).Some? ==>
              m.read(m.init, Spell(vocab, ts)) in ids && fsa.Run(0, ts).value == ids[m.read(m.init, Spell(vocab, ts))]
    decreases |ts|
  {
    if ts != [] {
      var us, t := ts[..|ts| - 1], ts[|ts| - 1];
      assert ts == us + [t];
      RunIsRead(m, vocab, eos, fsa, ids, us);
      var S := m.read(m.init, Spell(vocab, us));
      assert m.read(m.init, Spell(vocab, us) + TokenText(vocab, t)) == m.read(S, TokenText(vocab, t));
      if S in ids {
        StepIsRead(m, vocab, eos, fsa, ids, S, t);
      }
      assert AllText(vocab, ts) <==> AllText(vocab, us) && HasText(vocab, t);
      if S == {} { assert m.read(S, TokenText(vocab, t)) == {}; }
    }
  }

  lemma StepIsRead(m: Sim, vocab: Vocab, eos: Option<int>, fsa: TokenFsa, ids: Numbering, S: States, t: int)
    requires Correct(m, vocab, eos, fsa, ids) && S in ids && eos != Some(t)
    ensures fsa.Advance(ids[S], t).Some? <==> HasText(vocab, t) && m.read(S, TokenText(vocab, t)) != {}
    ensures fsa.Advance(ids[S], t).Some? ==>
              && m.read(S, TokenText(vocab, t)) in ids
              && fsa.Advance(ids[S], t).value == ids[m.read(S, TokenText(vocab, t))]
  {
    assert EdgesOk(m, vocab, eos, fsa, ids, S);
    assert EdgeOk(ids, fsa.transitions, S, t, Dest(m, vocab, eos, S, t));
  }

  /** The end token is allowed exactly at accepting states and leads to the sink, unless its own text is viable
      there: then the text wins and the sequence goes on. */
  lemma EosStep(m: Sim, vocab: Vocab, e: int, fsa: TokenFsa, ids: Numbering, S: States)
    requires Correct(m, vocab, Some(e), fsa, ids) && S in ids
    ensures Viable(m, vocab, S, e) ==>
              m.read(S, vocab[e]) in ids && fsa.Advance(ids[S], e) == Some(ids[m.read(S, vocab[e])])
    ensures !Viable(m, vocab, S, e) ==>
              (fsa.Advance(ids[S], e).Some? <==> m.acc(S))
              && (m.acc(S) ==> {} in ids && fsa.Advance(ids[S], e) == Some(ids[{}]))
    ensures m.acc(S) ==> ((fsa.Advance(ids[S], e).Some? && {} in ids && fsa.Advance(ids[S], e).value == ids[{}])
                          <==> !Viable(m, vocab, S, e))
  {
    assert EdgesOk(m, vocab, Some(e), fsa, ids, S);
    assert EdgeOk(ids, fsa.transitions, S, e, Dest(m, vocab, Some(e), S, e));
  }

  /** Nothing follows the end token. */
  lemma SinkIsTerminal(m: Sim, vocab: Vocab, eos: Option<int>, fsa: TokenFsa, ids: Numbering)
    requires Lawful(m) && Correct(m, vocab, eos, fsa, ids) && {} in ids
    ensures fsa.IsAccepting(ids[{}]) && fsa.Allowed(ids[{}]) == []
    ensures forall t: int :: fsa.Advance(ids[{}], t).None?
  {
    var allowed := fsa.Allowed(ids[{}]);
    assert ListsOf(fsa.transitions, ids[{}], allowed);
    assert allowed != [] ==> allowed[0] in allowed && fsa.Advance(ids[{}], allowed[0]).Some?;
    assert EdgesOk(m, vocab, eos, fsa, ids, {});
    forall t: int ensures fsa.Advance(ids[{}], t).None? {
      assert EdgeOk(ids, fsa.transitions, {}, t, Dest(m, vocab, eos, {}, t));
    }
  }

  /** Only vocabulary tokens and the end token ever appear in a transition. */
  lemma TokensInRange(m: Sim, vocab: Vocab, eos: Option<int>, fsa: TokenFsa, ids: Numbering, vocabSize: nat)
    requires Correct(m, vocab, eos, fsa, ids)
    requires (forall t :: t in vocab ==> 0 <= t < vocabSize) && (eos.Some? ==> 0 <= eos.value < vocabSize)
    ensures forall q: nat, t: int :: (q, t) in fsa.transitions ==> 0 <= t < vocabSize
  {
    forall q: nat, t: int | (q, t) in fsa.transitions ensures 0 <= t < vocabSize {
      var S :| S in ids && ids[S] == q;
      assert EdgesOk(m, vocab, eos, fsa, ids, S);
      assert EdgeOk(ids, fsa.transitions, S, t, Dest(m, vocab, eos, S, t));
    }
  }

  /** Every defined run has the end token at most once, as its last token, after a text the simulation accepts. */
  lemma {:induction false} RunShape(m: Sim, vocab: Vocab, eos: Option<int>, fsa: TokenFsa, ids: Numbering, ts: seq<int>)
    requires Lawful(m) && Correct(m, vocab, eos, fsa, ids) && EosTextless(vocab, eos)
    requires fsa.Run(0, ts).Some?
    ensures forall k :: 0 <= k < |ts| - 1 ==> eos != Some(ts[k])
    ensures ts != [] && eos == Some(ts[|ts| - 1]) ==>
              m.acc(m.read(m.init, Spell(vocab, ts))) && {} in ids && fsa.Run(0, ts).value == ids[{}]
    decreases |ts|
  {
    if ts != [] {
      var us, t := ts[..|ts| - 1], ts[|ts| - 1];
      RunShape(m, vocab, eos, fsa, ids, us);
      if {} in ids { SinkIsTerminal(m, vocab, eos, fsa, ids); }
      forall k | 0 <= k < |us| ensures eos != Some(us[k]) {}
      if eos == Some(t) {
        assert Spell(vocab, ts) == Spell(vocab, us) + "";
        RunIsRead(m, vocab, eos, fsa, ids, us);
        EosStep(m, vocab, t, fsa, ids, m.read(m.init, Spell(vocab, us)));
      }
    }
  }

  // --- the same, for a compiled pattern ----------------------------------------------------

  /** A pattern, its vocabulary and the automaton compiled for them. */
  ghost predicate CompiledFor(tb: Ctype, pattern: string, vocab: Vocab, eos: Option<int>, fsa: TokenFsa, m: Machine,
                              ids: Numbering)
  {
    && Read(tb, pattern).Ok? && Closed(m.g, m.f) && Erase(m.f) == Meaning(tb, Read(tb, pattern).value)
    && Correct(SimOf(m), vocab, eos, fsa, ids)
  }

  /** A run over tokens other than the end token exists exactly when every token has text and the NFA survives
      the text; it ends in an accepting state exactly when the text matches the pattern. */
  lemma RunMatches(tb: Ctype, pattern: string, vocab: Vocab, eos: Option<int>, fsa: TokenFsa, m: Machine,
                   ids: Numbering, ts: seq<int>)
    requires CompiledFor(tb, pattern, vocab, eos, fsa, m, ids)
    requires forall t :: t in ts ==> eos != Some(t)
    ensures fsa.Run(0, ts).Some? <==>
              AllText(vocab, ts) && ReadSet(m.g, EpsClose(m.g, {Start(m.f)}), Spell(vocab, ts)) != {}
    ensures fsa.Run(0, ts).Some? ==>
              (fsa.IsAccepting(fsa.Run(0, ts).value) <==> PatternMatches(tb, pattern, Spell(vocab, ts)))
    ensures AllText(vocab, ts) && PatternMatches(tb, pattern, Spell(vocab, ts)) ==> fsa.Run(0, ts).Some?
  {
    SimLawful(m);
    RunIsRead(SimOf(m), vocab, eos, fsa, ids, ts);
    AcceptsExactly(m.g, m.f, Spell(vocab, ts));
  }

  /** Where no text misleads, the allowed runs are exactly the spellings of prefixes of matches. */
  lemma RunIsViablePrefix(tb: Ctype, pattern: string, vocab: Vocab, eos: Option<int>, fsa: TokenFsa, m: Machine,
                          ids: Numbering, ts: seq<int>)
    requires CompiledFor(tb, pattern, vocab, eos, fsa, m, ids)
    requires HonestBehind(tb, pattern) && (ts == [] ==> Honest(tb, pattern))
    requires forall t :: t in ts ==> eos != Some(t)
    ensures fsa.Run(0, ts).Some? <==> AllText(vocab, ts) && CanMatch(tb, pattern, Spell(vocab, ts))
  {
    RunMatches(tb, pattern, vocab, eos, fsa, m, ids, ts);
    if AllText(vocab, ts) {
      if ts != [] { SpellsSomething(vocab, ts); }
      AliveIsPrefix(m.g, m.f, Spell(vocab, ts));
      CanMatchIsPrefix(tb, pattern, Erase(m.f), Spell(vocab, ts));
    }
  }

  lemma SpellsSomething(vocab: Vocab, ts: seq<int>)
    requires ts != [] && AllText(vocab, ts)
    ensures Spell(vocab, ts) != ""
  {
    assert HasText(vocab, ts[|ts| - 1]);
  }

  /** With a textless end token: it is allowed after exactly the runs whose text matches, and ends the run. */
  lemma EosAfterMatch(tb: Ctype, pattern: string, vocab: Vocab, e: int, fsa: TokenFsa, m: Machine,
                      ids: Numbering, ts: seq<int>)
    requires CompiledFor(tb, pattern, vocab, Some(e), fsa, m, ids) && !HasText(vocab, e)
    requires e !in ts && fsa.Run(0, ts).Some?
    ensures e in fsa.Allowed(fsa.Run(0, ts).value) <==> PatternMatches(tb, pattern, Spell(vocab, ts))
    ensures e in fsa.Allowed(fsa.Run(0, ts).value) ==>
              exists sink: nat :: fsa.Run(0, ts + [e]) == Some(sink) && fsa.IsAccepting(sink) && fsa.Allowed(sink) == []
  {
    SimLawful(m);
    RunIsRead(SimOf(m), vocab, Some(e), fsa, ids, ts);
    RunMatches(tb, pattern, vocab, Some(e), fsa, m, ids, ts);
    var S := SimOf(m).read(SimOf(m).init, Spell(vocab, ts));
    EosStep(SimOf(m), vocab, e, fsa, ids, S);
    AcceptsExactly(m.g, m.f, Spell(vocab, ts));
    assert ListsOf(fsa.transitions, ids[S], fsa.Allowed(ids[S]));
    if e in fsa.Allowed(ids[S]) {
      SinkIsTerminal(SimOf(m), vocab, Some(e), fsa, ids);
      assert (ts + [e])[..|ts|] == ts;
      assert fsa.Run(0, ts + [e]) == Some(ids[{}]);
    }
  }

  /** Token t may come after ts: the end token after a text that matches, a token with text when the text stays a
      prefix of a match. */
  ghost predicate MayFollow(tb: Ctype, pattern: string, vocab: Vocab, eos: Option<int>, ts: seq<int>, t: int) {
    if eos == Some(t) then PatternMatches(tb, pattern, Spell(vocab, ts))
    else HasText(vocab, t) && CanMatch(tb, pattern, Spell(vocab, ts) + TokenText(vocab, t))
  }

  /** The mask is exact: where no text misleads and the end token is textless, the tokens allowed after a run are
      exactly those that may follow it. */
  lemma AllowedExactly(tb: Ctype, pattern: string, vocab: Vocab, eos: Option<int>, fsa: TokenFsa, m: Machine,
                       ids: Numbering, ts: seq<int>, t: int)
    requires CompiledFor(tb, pattern, vocab, eos, fsa, m, ids) && HonestBehind(tb, pattern) && EosTextless(vocab, eos)
    requires (forall u :: u in ts ==> eos != Some(u)) && fsa.Run(0, ts).Some?
    ensures t in fsa.Allowed(fsa.Run(0, ts).value) <==> MayFollow(tb, pattern, vocab, eos, ts, t)
  {
    if eos == Some(t) {
      EosAfterMatch(tb, pattern, vocab, t, fsa, m, ids, ts);
    } else {
      RunHasText(tb, pattern, vocab, eos, fsa, m, ids, ts);
      RunIsViablePrefix(tb, pattern, vocab, eos, fsa, m, ids, ts + [t]);
      SpellSnoc(vocab, ts, t);
      AllowedIsStep(fsa, ts, t);
      assert AllText(vocab, ts + [t]) <==> HasText(vocab, t) by { assert (ts + [t])[|ts|] == t; }
    }
  }

  lemma AllowedIsStep(fsa: TokenFsa, ts: seq<int>, t: int)
    requires fsa.Valid() && fsa.Run(0, ts).Some?
    ensures t in fsa.Allowed(fsa.Run(0, ts).value) <==> fsa.Run(0, ts + [t]).Some?
  {
    assert (ts + [t])[..|ts|] == ts;
    assert ListsOf(fsa.transitions, fsa.Run(0, ts).value, fsa.Allowed(fsa.Run(0, ts).value));
  }

  /** The vocabulary has a token for the single character c. */
  ghost predicate HasChar(vocab: Vocab, c: char) {
    exists t: int :: t in vocab && vocab[t] == [c]
  }

  lemma SpellSnoc(vocab: Vocab, ts: seq<int>, t: int)
    ensures Spell(vocab, ts + [t]) == Spell(vocab, ts) + TokenText(vocab, t)
  {
    assert (ts + [t])[..|ts|] == ts;
  }

  /** Whenever a run can be continued by any text at all and the vocabulary has every character as a token, some token
      is allowed: where no text misleads, only runs whose text matches can be stuck. */
  lemma NeverStuckEarly(tb: Ctype, pattern: string, vocab: Vocab, eos: Option<int>, fsa: TokenFsa, m: Machine,
                        ids: Numbering, ts: seq<int>)
    requires CompiledFor(tb, pattern, vocab, eos, fsa, m, ids) && Honest(tb, pattern) && EosTextless(vocab, eos)
    requires forall c: char :: HasChar(vocab, c)
    requires (forall t :: t in ts ==> eos != Some(t)) && fsa.Run(0, ts).Some?
    requires fsa.Allowed(fsa.Run(0, ts).value) == []
    ensures PatternMatches(tb, pattern, Spell(vocab, ts))
  {
    RunIsViablePrefix(tb, pattern, vocab, eos, fsa, m, ids, ts);
    var v: string :| PatternMatches(tb, pattern, Spell(vocab, ts) + v);
    if v == "" {
      assert Spell(vocab, ts) + v == Spell(vocab, ts);
    } else {
      var t := NextCharAllowed(tb, pattern, vocab, eos, fsa, m, ids, ts, v);
      assert false;
    }
  }

  lemma NextCharAllowed(tb: Ctype, pattern: string, vocab: Vocab, eos: Option<int>, fsa: TokenFsa, m: Machine,
                        ids: Numbering, ts: seq<int>, v: string) returns (t: int)
    requires CompiledFor(tb, pattern, vocab, eos, fsa, m, ids) && EosTextless(vocab, eos)
    requires (forall t :: t in ts ==> eos != Some(t)) && fsa.Run(0, ts).Some?
    requires v != "" && HasChar(vocab, v[0]) && PatternMatches(tb, pattern, Spell(vocab, ts) + v)
    ensures t in fsa.Allowed(fsa.Run(0, ts).value)
  {
    t := NextCharRuns(tb, pattern, vocab, eos, fsa, m, ids, ts, v);
    AllowedIsStep(fsa, ts, t);
  }

  /** A token for the next character extends the run. */
  lemma NextCharRuns(tb: Ctype, pattern: string, vocab: Vocab, eos: Option<int>, fsa: TokenFsa, m: Machine,
                     ids: Numbering, ts: seq<int>, v: string) returns (t: int)
    requires CompiledFor(tb, pattern, vocab, eos, fsa, m, ids) && EosTextless(vocab, eos)
    requires (forall t :: t in ts ==> eos != Some(t)) && fsa.Run(0, ts).Some?
    requires v != "" && HasChar(vocab, v[0]) && PatternMatches(tb, pattern, Spell(vocab, ts) + v)
    ensures fsa.Valid() && fsa.Run(0, ts + [t]).Some?
  {
    t :| t in vocab && vocab[t] == [v[0]];
    RunHasText(tb, pattern, vocab, eos, fsa, m, ids, ts);
    SpellChar(vocab, ts, t, v);
    ViableRuns(tb, pattern, vocab, eos, fsa, m, ids, ts + [t], v[1..]);
  }

  lemma SpellChar(vocab: Vocab, ts: seq<int>, t: int, v: string)
    requires AllText(vocab, ts) && v != "" && t in vocab && vocab[t] == [v[0]]
    ensures HasText(vocab, t) && AllText(vocab, ts + [t])
    ensures Spell(vocab, ts + [t]) + v[1..] == Spell(vocab, ts) + v
  {
    SpellSnoc(vocab, ts, t);
    var text := Spell(vocab, ts);
    assert [v[0]] + v[1..] == v;
    assert (text + [v[0]]) + v[1..] == text + ([v[0]] + v[1..]);
  }

  lemma RunHasText(tb: Ctype, pattern: string, vocab: Vocab, eos: Option<int>, fsa: TokenFsa, m: Machine,
                   ids: Numbering, ts: seq<int>)
    requires CompiledFor(tb, pattern, vocab, eos, fsa, m, ids)
    requires (forall t :: t in ts ==> eos != Some(t)) && fsa.Run(0, ts).Some?
    ensures fsa.Valid() && AllText(vocab, ts)
  {
    RunMatches(tb, pattern, vocab, eos, fsa, m, ids, ts);
  }

  lemma ViableRuns(tb: Ctype, pattern: string, vocab: Vocab, eos: Option<int>, fsa: TokenFsa, m: Machine,
                   ids: Numbering, ts: seq<int>, v: string)
    requires CompiledFor(tb, pattern, vocab, eos, fsa, m, ids)
    requires forall t :: t in ts ==> eos != Some(t)
    requires AllText(vocab, ts) && PatternMatches(tb, pattern, Spell(vocab, ts) + v)
    ensures fsa.Run(0, ts).Some?
  {
    var text := Spell(vocab, ts);
    SimLawful(m);
    PrefixAlive(m.g, m.f, text, v);
    RunMatches(tb, pattern, vocab, eos, fsa, m, ids, ts);
  }
  // --- and the condition is exact -----------------------------------------------------------

  /** The mask after ts is exact. */
  ghost predicate MaskIsExact(tb: Ctype, pattern: string, vocab: Vocab, eos: Option<int>, fsa: TokenFsa, ts: seq<int>) {
    (forall u :: u in ts ==> eos != Some(u)) && fsa.Run(0, ts).Some? ==>
      forall t: int :: t in fsa.Allowed(fsa.Run(0, ts).value) <==> MayFollow(tb, pattern, vocab, eos, ts, t)
  }

  /** Any text can be spelled one character at a time. */
  lemma {:induction false} SpellChars(vocab: Vocab, eos: Option<int>, w: string) returns (ts: seq<int>)
    requires EosTextless(vocab, eos) && forall c: char :: HasChar(vocab, c)
    ensures Spell(vocab, ts) == w && AllText(vocab, ts) && |ts| == |w| && forall t :: t in ts ==> eos != Some(t)
    decreases |w|
  {
    if w == "" {
      ts := [];
    } else {
      var c := w[|w| - 1];
      var us := SpellChars(vocab, eos, w[..|w| - 1]);
      assert HasChar(vocab, c);
      var t: int :| t in vocab && vocab[t] == [c];
      assert HasText(vocab, t);
      ts := us + [t];
      SpellSnoc(vocab, us, t);
      assert w == w[..|w| - 1] + [c];
    }
  }

  /** A text that misleads is allowed although it starts no match. */
  lemma MisleadingRun(tb: Ctype, pattern: string, vocab: Vocab, eos: Option<int>, fsa: TokenFsa, m: Machine,
                      ids: Numbering, w: string) returns (ts: seq<int>)
    requires CompiledFor(tb, pattern, vocab, eos, fsa, m, ids) && EosTextless(vocab, eos)
    requires (forall c: char :: HasChar(vocab, c)) && Misleads(Erase(m.f), w)
    ensures (forall t :: t in ts ==> eos != Some(t)) && AllText(vocab, ts) && Spell(vocab, ts) == w && |ts| == |w|
    ensures fsa.Run(0, ts).Some? && !CanMatch(tb, pattern, w)
  {
    ts := SpellChars(vocab, eos, w);
    StopIsAlive(m.g, m.f, w);
    RunMatches(tb, pattern, vocab, eos, fsa, m, ids, ts);
    CanMatchIsPrefix(tb, pattern, Erase(m.f), w);
  }

  lemma MisleadingMask(tb: Ctype, pattern: string, vocab: Vocab, eos: Option<int>, fsa: TokenFsa, m: Machine,
                       ids: Numbering, w: string) returns (ts: seq<int>)
    requires CompiledFor(tb, pattern, vocab, eos, fsa, m, ids) && EosTextless(vocab, eos)
    requires (forall c: char :: HasChar(vocab, c)) && w != "" && Misleads(Erase(m.f), w)
    ensures !MaskIsExact(tb, pattern, vocab, eos, fsa, ts)
  {
    var all := MisleadingRun(tb, pattern, vocab, eos, fsa, m, ids, w);
    ts := all[..|all| - 1];
    var t := all[|all| - 1];
    assert all == ts + [t] && t in all && forall u :: u in ts ==> u in all;
    MaskTooWide(tb, pattern, vocab, eos, fsa, ts, t);
  }

  /** A run that goes on to a text which starts no match. */
  lemma MaskTooWide(tb: Ctype, pattern: string, vocab: Vocab, eos: Option<int>, fsa: TokenFsa, ts: seq<int>, t: int)
    requires fsa.Valid() && fsa.Run(0, ts + [t]).Some? && !CanMatch(tb, pattern, Spell(vocab, ts + [t]))
    requires (forall u :: u in ts ==> eos != Some(u)) && eos != Some(t)
    ensures !MaskIsExact(tb, pattern, vocab, eos, fsa, ts)
  {
    assert (ts + [t])[..|ts|] == ts;
    assert fsa.Run(0, ts).Some?;
    SpellSnoc(vocab, ts, t);
    AllowedIsStep(fsa, ts, t);
    assert !MayFollow(tb, pattern, vocab, eos, ts, t);
  }

  /** With every character in the vocabulary and a textless end token: every run's mask is exact if and only if no text,
      the empty one aside, leads to an empty class and to nothing else. */
  lemma MaskExactly(tb: Ctype, pattern: string, vocab: Vocab, eos: Option<int>, fsa: TokenFsa, m: Machine,
                    ids: Numbering)
    requires CompiledFor(tb, pattern, vocab, eos, fsa, m, ids) && EosTextless(vocab, eos)
    requires forall c: char :: HasChar(vocab, c)
    ensures (forall ts: seq<int> :: MaskIsExact(tb, pattern, vocab, eos, fsa, ts)) <==> HonestBehind(tb, pattern)
  {
    if HonestBehind(tb, pattern) {
      forall ts: seq<int>, t: int | (forall u :: u in ts ==> eos != Some(u)) && fsa.Run(0, ts).Some?
        ensures t in fsa.Allowed(fsa.Run(0, ts).value) <==> MayFollow(tb, pattern, vocab, eos, ts, t)
      {
        AllowedExactly(tb, pattern, vocab, eos, fsa, m, ids, ts, t);
      }
    } else {
      var w: string :| w != "" && Misleads(Erase(m.f), w);
      var ts := MisleadingMask(tb, pattern, vocab, eos, fsa, m, ids, w);
    }
  }

  /** Under the same assumptions the runs are exactly the spellings of prefixes of matches if and only if no text at all
      misleads. */
  lemma RunsExactly(tb: Ctype, pattern: string, vocab: Vocab, eos: Option<int>, fsa: TokenFsa, m: Machine,
                    ids: Numbering)
    requires CompiledFor(tb, pattern, vocab, eos, fsa, m, ids) && EosTextless(vocab, eos)
    requires forall c: char :: HasChar(vocab, c)
    ensures (forall ts: seq<int> :: (forall t :: t in ts ==> eos != Some(t)) ==>
              (fsa.Run(0, ts).Some? <==> AllText(vocab, ts) && CanMatch(tb, pattern, Spell(vocab, ts)))) <==>
            Honest(tb, pattern)
  {
    if Honest(tb, pattern) {
      forall ts: seq<int> | forall t :: t in ts ==> eos != Some(t)
        ensures fsa.Run(0, ts).Some? <==> AllText(vocab, ts) && CanMatch(tb, pattern, Spell(vocab, ts))
      {
        RunIsViablePrefix(tb, pattern, vocab, eos, fsa, m, ids, ts);
      }
    } else {
      var w: string :| Misleads(Erase(m.f), w);
      var ts := MisleadingRun(tb, pattern, vocab, eos, fsa, m, ids, w);
    }
  }
}
