/** Pattern to text, end to end: what the decode loop produces when it is masked with a compiled pattern. */
module ConstrainedDecode {
  import opened Options
  import opened Regex
  import opened Pattern
  import opened NfaModel
  import opened Thompson
  import opened TokenFsas
  import opened SubsetConstruction
  import opened RegexFsa
  import opened TokenRuns
  import opened Viability
  import opened EmptyClassPatterns
  import D = Decode

  /** A finished decode over an automaton compiled with the end token fsaEos, where the loop itself watches
      for that same token or for none.  The contract of DecodeLoop provides exactly these facts. */
  ghost predicate Finished(tb: Ctype, pattern: string, vocab: Vocab, fsaEos: Option<int>, fsa: TokenFsa, m: Machine,
                           ids: Numbering, eos: Option<int>, out: seq<int>, stop: D.Stop, state: nat)
  {
    && CompiledFor(tb, pattern, vocab, fsaEos, fsa, m, ids) && EosTextless(vocab, fsaEos)
    && (eos == None || eos == fsaEos)
    && D.Progress(Some(fsa), eos, out, state)
    && (stop == D.EndToken ==> out != [] && eos == Some(out[|out| - 1]))
    && (stop == D.DeadEnd ==> fsa.Allowed(state) == [])
    && (stop == D.Terminal ==> fsa.IsAccepting(state) && fsa.Allowed(state) == [])
  }

  /** The output ends with the automaton's end token. */
  predicate EndsWith(out: seq<int>, eos: Option<int>) {
    out != [] && eos == Some(out[|out| - 1])
  }

  lemma EndedMatches(tb: Ctype, pattern: string, vocab: Vocab, fsaEos: Option<int>, fsa: TokenFsa, m: Machine,
                     ids: Numbering, out: seq<int>)
    requires CompiledFor(tb, pattern, vocab, fsaEos, fsa, m, ids) && EosTextless(vocab, fsaEos)
    requires fsa.Run(0, out).Some?
    ensures EndsWith(out, fsaEos) ==> PatternMatches(tb, pattern, Spell(vocab, out))
    ensures !EndsWith(out, fsaEos) ==> forall t :: t in out ==> fsaEos != Some(t)
  {
    SimLawful(m);
    RunShape(SimOf(m), vocab, fsaEos, fsa, ids, out);
    AcceptsExactly(m.g, m.f, Spell(vocab, out));
  }

  /** Stopping on the end token or at a terminal state means the text matches the pattern. */
  lemma StoppedTextMatches(tb: Ctype, pattern: string, vocab: Vocab, fsaEos: Option<int>, fsa: TokenFsa, m: Machine,
                           ids: Numbering, eos: Option<int>, out: seq<int>, stop: D.Stop, state: nat)
    requires Finished(tb, pattern, vocab, fsaEos, fsa, m, ids, eos, out, stop, state)
    requires stop == D.EndToken || stop == D.Terminal
    ensures PatternMatches(tb, pattern, Spell(vocab, out))
  {
    EndedMatches(tb, pattern, vocab, fsaEos, fsa, m, ids, out);
    if !EndsWith(out, fsaEos) {
      RunMatches(tb, pattern, vocab, fsaEos, fsa, m, ids, out);
    }
  }

  /** Whatever the reason for stopping, the text produced keeps the NFA alive; where no text misleads it is a prefix of
      some match. */
  lemma TextIsViable(tb: Ctype, pattern: string, vocab: Vocab, fsaEos: Option<int>, fsa: TokenFsa, m: Machine,
                     ids: Numbering, eos: Option<int>, out: seq<int>, stop: D.Stop, state: nat)
    requires Finished(tb, pattern, vocab, fsaEos, fsa, m, ids, eos, out, stop, state)
    ensures ReadSet(m.g, EpsClose(m.g, {Start(m.f)}), Spell(vocab, out)) != {}
    ensures Honest(tb, pattern) ==> CanMatch(tb, pattern, Spell(vocab, out))
  {
    var w := Spell(vocab, out);
    EndedMatches(tb, pattern, vocab, fsaEos, fsa, m, ids, out);
    if EndsWith(out, fsaEos) {
      assert w + "" == w;
      PrefixAlive(m.g, m.f, w, "");
      assert PatternMatches(tb, pattern, w + "");
    } else {
      RunMatches(tb, pattern, vocab, fsaEos, fsa, m, ids, out);
      if Honest(tb, pattern) { RunIsViablePrefix(tb, pattern, vocab, fsaEos, fsa, m, ids, out); }
    }
  }

  /** With every character available as a token and where no text misleads, a dead end can only follow a match. */
  lemma DeadEndMatches(tb: Ctype, pattern: string, vocab: Vocab, fsaEos: Option<int>, fsa: TokenFsa, m: Machine,
                       ids: Numbering, eos: Option<int>, out: seq<int>, stop: D.Stop, state: nat)
    requires Finished(tb, pattern, vocab, fsaEos, fsa, m, ids, eos, out, stop, state)
    requires stop == D.DeadEnd && Honest(tb, pattern) && forall c: char :: HasChar(vocab, c)
    ensures PatternMatches(tb, pattern, Spell(vocab, out))
  {
    EndedMatches(tb, pattern, vocab, fsaEos, fsa, m, ids, out);
    if !EndsWith(out, fsaEos) {
      NeverStuckEarly(tb, pattern, vocab, fsaEos, fsa, m, ids, out);
    }
  }

  /** The fused row with every token masked that the pattern does not let follow ts. */
  ghost function PatternRow(tb: Ctype, pattern: string, vocab: Vocab, eos: Option<int>, ts: seq<int>, fused: seq<real>)
    : (x: seq<D.Logit>)
    ensures |x| == |fused|
    ensures forall i :: 0 <= i < |fused| ==>
              x[i] == if MayFollow(tb, pattern, vocab, eos, ts, i) then D.Fin(fused[i]) else D.NegInf
  {
    seq(|fused|, i requires 0 <= i < |fused| =>
      if MayFollow(tb, pattern, vocab, eos, ts, i) then D.Fin(fused[i]) else D.NegInf)
  }

  /** Token k is picked, greedily or by a draw, from the fused row for everything before it, with exactly the tokens
      masked that the pattern does not let follow. */
  ghost predicate PatternStep(tb: Ctype, pattern: string, vocab: Vocab, eos: Option<int>, provs: seq<D.Provider>,
                              prompt: seq<int>, weights: Option<seq<real>>, vocabSize: nat, choice: D.Choice,
                              out: seq<int>, k: nat)
    requires k < |out| && D.ProvidersOk(provs, vocabSize) && (choice.Sampled? ==> D.SamplerOk(choice.sampler))
  {
    exists fused: seq<real>, c: real ::
      D.IsFused(D.AllLogits(provs, prompt + out[..k]), weights, vocabSize, fused, c)
      && D.Picks(choice, PatternRow(tb, pattern, vocab, eos, out[..k], fused), k, out[k])
  }

  lemma RowIsPatternRow(tb: Ctype, pattern: string, vocab: Vocab, eos: Option<int>, fsa: TokenFsa, m: Machine,
                        ids: Numbering, ts: seq<int>, fused: seq<real>)
    requires CompiledFor(tb, pattern, vocab, eos, fsa, m, ids) && HonestBehind(tb, pattern) && EosTextless(vocab, eos)
    requires (forall u :: u in ts ==> eos != Some(u)) && fsa.Run(0, ts).Some?
    ensures D.RowIn(Some(fsa), fsa.Run(0, ts).value, fused) == PatternRow(tb, pattern, vocab, eos, ts, fused)
  {
    var q := fsa.Run(0, ts).value;
    forall i | 0 <= i < |fused|
      ensures D.Masked(fused, fsa.Allowed(q))[i] == PatternRow(tb, pattern, vocab, eos, ts, fused)[i]
    {
      AllowedExactly(tb, pattern, vocab, eos, fsa, m, ids, ts, i);
    }
  }

  lemma StepsFollowPattern(tb: Ctype, pattern: string, vocab: Vocab, eos: Option<int>, fsa: TokenFsa, m: Machine,
                           ids: Numbering, provs: seq<D.Provider>, prompt: seq<int>, weights: Option<seq<real>>,
                           vocabSize: nat, choice: D.Choice, out: seq<int>, state: nat, k: nat)
    requires CompiledFor(tb, pattern, vocab, eos, fsa, m, ids) && HonestBehind(tb, pattern) && EosTextless(vocab, eos)
    requires k < |out| && D.ProvidersOk(provs, vocabSize) && (choice.Sampled? ==> D.SamplerOk(choice.sampler))
    requires D.Progress(Some(fsa), eos, out, state) && fsa.start == 0
    requires D.ChosenStep(provs, prompt, weights, vocabSize, Some(fsa), choice, out, k)
    ensures PatternStep(tb, pattern, vocab, eos, provs, prompt, weights, vocabSize, choice, out, k)
  {
    var q: nat, fused: seq<real>, c: real :|
      D.InState(Some(fsa), out[..k], q)
      && D.PickedAt(provs, prompt + out[..k], weights, vocabSize, Some(fsa), choice, q, k, out[k], fused, c);
    RowIsPatternRow(tb, pattern, vocab, eos, fsa, m, ids, out[..k], fused);
    assert D.Picks(choice, PatternRow(tb, pattern, vocab, eos, out[..k], fused), k, out[k]);
  }

  /** The whole pipeline: compile the pattern, decode under its mask, and the text obeys the pattern. */
  method DecodeMatching(tb: Ctype, pattern: string, vocab: Vocab, eos: Option<int>, maxStates: int,
                        provs: seq<D.Provider>, vocabSize: nat, prompt: seq<int>, maxNewTokens: int,
                        weights: Option<seq<real>>, choice: D.Choice, lse: D.Normaliser)
    returns (r: Option<seq<int>>, ghost stop: D.Stop)
    requires |provs| > 0 && vocabSize > 0 && D.ProvidersOk(provs, vocabSize)
    requires choice.Sampled? ==> D.SamplerOk(choice.sampler)
    requires forall t :: t in vocab ==> 0 <= t < vocabSize
    requires EosTextless(vocab, eos) && (eos.Some? ==> 0 <= eos.value < vocabSize)
    ensures Read(tb, pattern).Fail? ==> r == None
    ensures r.Some? && (stop == D.EndToken || stop == D.Terminal) ==> PatternMatches(tb, pattern, Spell(vocab, r.value))
    ensures r.Some? && Honest(tb, pattern) ==> CanMatch(tb, pattern, Spell(vocab, r.value))
    ensures r.Some? && Honest(tb, pattern) && (forall c: char :: HasChar(vocab, c)) && stop == D.DeadEnd ==>
              PatternMatches(tb, pattern, Spell(vocab, r.value))
    ensures r.Some? && HonestBehind(tb, pattern) ==>
              forall k :: 0 <= k < |r.value| ==>
                PatternStep(tb, pattern, vocab, eos, provs, prompt, weights, vocabSize, choice, r.value, k)
  {
    stop := D.Limit;
    var compiled;
    ghost var m, ids;
    compiled, m, ids := RegexToTokenFsa(tb, pattern, vocab, eos, maxStates);
    if !compiled.Fsa? { return None, stop; }
    var fsa := compiled.fsa;
    TokensInRange(SimOf(m), vocab, eos, fsa, ids, vocabSize);
    var out;
    ghost var state;
    out, stop, state := D.DecodeLoop(provs, vocabSize, prompt, maxNewTokens, eos, weights, Some(fsa), choice, lse);
    TextIsViable(tb, pattern, vocab, eos, fsa, m, ids, eos, out, stop, state);
    if stop == D.EndToken || stop == D.Terminal {
      StoppedTextMatches(tb, pattern, vocab, eos, fsa, m, ids, eos, out, stop, state);
    } else if stop == D.DeadEnd && Honest(tb, pattern) && (forall c: char :: HasChar(vocab, c)) {
      DeadEndMatches(tb, pattern, vocab, eos, fsa, m, ids, eos, out, stop, state);
    }
    if HonestBehind(tb, pattern) {
      forall k | 0 <= k < |out|
        ensures PatternStep(tb, pattern, vocab, eos, provs, prompt, weights, vocabSize, choice, out, k)
      {
        assert D.ChosenStep(provs, prompt, weights, vocabSize, Some(fsa), choice, out, k);
        StepsFollowPattern(tb, pattern, vocab, eos, fsa, m, ids, provs, prompt, weights, vocabSize, choice, out,
                           state, k);
      }
    }
    r := Some(out);
  }
}
