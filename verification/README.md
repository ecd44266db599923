# Verified model of mixle-mlops

A Dafny 4.11 model of the parts of mixle-mlops whose promises hold for every input or every run, with proofs of those
promises. `dafny verify dfyconfig.toml` checks the whole project.

The model covers six parts of the repository.

1. **Constrained decoding** (`engines/regex_fsa.py`, `engines/grammar.py`, `engines/decode.py`). A pattern is read by a
   recursive-descent parser that grows a shared Thompson NFA, the NFA is determinised over a vocabulary of
   multi-character tokens, and a decode loop masks logits with the result. `Regex` gives patterns a language;
   `Pattern` is the grammar as a syntax tree with a reading function; `PatternParser` is the parser class, proved to
   build that language; `Thompson`, `Assembly`, `Viability` and `EmptyClasses` are about the NFA; `SubsetConstruction`,
   `RegexFsa` and `TokenRuns` about the token automaton; `Decode` and `ConstrainedDecode` about the loop. `ChoiceFsa` and
   `ChoiceRuns` are the second, smaller compiler for fixed choices.
2. **Speculative decoding** (`engines/decode.py`). `SpeculativeGreedy` proves that the draft-verify-correct loop returns
   what plain greedy decoding returns; `PassRows` says which rows a target pass reads, `SpeculativePass` is the sampled
   verification loop for given draws, and `SpeculativeSampling`, `SpeculativeLaw` and `SpeculativeLossless` prove when
   sampling has the target's law, position by position and over whole runs.
3. **The KV-prefix-cached provider** (`engines/providers.py`). `CausalNet` is a causal transformer on values,
   `KvCache` the model object that mutates the cache it is given, layer by layer, and `TreeProvider` the LRU table of
   snapshots.
4. **Farthest-first selection** (`gateway/moa_select.py`): `MaxMin` and `CosineDistance`.
5. **Rate limiting over a TTL cache** (`cache/memory.py`, `cache/ratelimit.py`): `TimedMap`, `MemoryCache`, `RateRules`,
   `RateLimit`, `TokenBucketRuns`, `LimiterBuckets`, `FixedWindowRuns`.
6. **Scanners, printers and scorers** (`frontend/lib/api.ts`, `documents/parse.py`, `datasets/code_tasks.py`):
   `SseStream`, `ChunkText`, `Findall`, `Pages`, `PageNoise`, `PageParsers`, `ListParser`, `RenderParse`, `PageTeacher`,
   `Verify`, `Harvest`.

Objects that the source updates in place (`Nfa`, `Parser`, `DynamicCache`, `TreeLogitProvider`, `MemoryCache`,
`RateLimiter`) are classes; loops are methods proved against functions, and the promises are lemmas about those
functions. Logits, distances, times and probabilities are real numbers.

## Where the code and its documentation differ

The model follows the code.

- The module comment of `regex_fsa.py` lists `{n,m}` repetition; the parser accepts `{n}` only.
- `allowed` is documented as the tokens that keep the output matching. In front of a character class that matches
  nothing the NFA stays alive although that way leads nowhere, so the mask says too much for `a[]`
  (`EmptyClassPatterns.TrailingEmptyClass`) and is right for `[]?b` (`EmptyClassPatterns.OptionalEmptyClass`). With every
  character in the vocabulary and a textless end token, the mask of every run is exact if and only if no text but the
  empty one leads to an empty class and to nothing else (`TokenRuns.MaskExactly`); a pattern without empty classes has no
  such text. An end token with text of its own is `TokenRuns.EosStep`.
- The choice automaton is documented as always correct. It keeps the partial path of a choice that its greedy split
  cannot finish, which can happen to a choice that other tokens would spell (`ChoiceFsa.GreedyMisses`), so decoding can
  get stuck there (`ChoiceRuns.StuckExactly`); and the loop of an end token that has text of its own can take the only
  edge of a choice. Every choice that splits completely is offered, always, if and only if the end token has no text that
  it alone has (`ChoiceRuns.AlwaysOfferedExactly`; per choice `ChoiceRuns.OfferedExactly`).
- Speculative decoding is documented as exact. Position j of a pass reads row `n - 1 + j`, so on an empty prompt the
  first position is verified against the row behind the whole draft, and with a negative k nothing is drafted and the
  bonus token comes from an earlier row, or the call fails. Greedy decoding is right for all models if and only if the
  prompt is not empty and k not negative, apart from calls for at most one token (`SpeculativeGreedy.RightExactly`). With
  sampling, a call that is safe in this sense has the target's law if and only if, at every position the loop can come to
  verify, the 1e-12 floor bites no token (it bites one that both models give a positive chance below it) or what it takes
  is in proportion to what the replacement gives back (`SpeculativeLossless.SpeculativeExactly`); the calls for which this
  is so of all models are the safe ones and no others (`SpeculativeLossless.SampledRightExactly`). There are concrete
  inputs: an empty prompt after which a certain token never comes (`SpeculativeLossless.EmptyPromptLosesToken`), a floor
  that makes the law inexact (`SpeculativeSampling.TinyTokenComesOutTooRarely`) and one that does not
  (`SpeculativeSampling.BalancedHappens`).
- A token bucket is documented as `burst` tokens refilled at `limit / window`; because buckets are forgotten after four
  windows, that rate holds, for a positive limit and window, exactly when `burst <= 4 * limit`
  (`LimiterBuckets.RateHoldsExactly`). With a window of 0 buckets are forgotten at once, so every check finds a full one.
- `prefix_logprobs` is documented as `(len, vocab)` rows; for an empty sequence it returns one row.
- The reference teacher recognises a list page only when no name or value on it contains `class='item'` or
  `class="item"` (`PageTeacher.ListPageIsRecognisedExactly`).

## Model

| member | source | states |
|---|---|---|
| NfaModel.Nfa.Closure | mixle_mlops/engines/regex_fsa.py:39-48 | the stack loop returns exactly the states reachable by epsilon edges |
| NfaModel.Nfa.Step | mixle_mlops/engines/regex_fsa.py:50-56 | one step is the epsilon closure of all moves on the character |
| NfaModel.ReadSetIsReach | mixle_mlops/engines/regex_fsa.py:39-56 | folding step from the start closure yields exactly the states some walk reading the text ends in |
| PatternParser.Parser.constructor | mixle_mlops/engines/regex_fsa.py:62-65 | a new parser stands at the start of its pattern on the given NFA |
| PatternParser.Parser.Parse | mixle_mlops/engines/regex_fsa.py:70-74 | the whole pattern yields a fragment whose expression is the pattern's meaning, or the grammar's error; the NFA is only extended |
| PatternParser.Parser.ParseAlt | mixle_mlops/engines/regex_fsa.py:76-87 | alternation is the union of its branches |
| PatternParser.Parser.ParseConcat | mixle_mlops/engines/regex_fsa.py:89-98 | concatenation in order, the empty group being the empty word |
| PatternParser.Parser.ParseRepeat | mixle_mlops/engines/regex_fsa.py:100-116 | an atom with at most one quantifier |
| PatternParser.Parser.Brace | mixle_mlops/engines/regex_fsa.py:140-158 | n copies built by re-parsing the atom's own source mean n repetitions, none for zero |
| PatternParser.Parser.ParseAtom | mixle_mlops/engines/regex_fsa.py:160-186 | groups, classes, dot, escapes and literals, with the parser's errors |
| PatternParser.Parser.CharClass | mixle_mlops/engines/regex_fsa.py:188-219 | ranges, escapes, negation and the unterminated class |
| PatternRoundTrip.ReadText | mixle_mlops/engines/regex_fsa.py:70-219 | reading the text of a well-formed tree gives that tree back |
| PatternRoundTrip.AcceptedExactly | mixle_mlops/engines/regex_fsa.py:70-219 | a pattern is accepted if and only if it is the text of a well-formed tree |
| PatternRoundTrip.Unambiguous | mixle_mlops/engines/regex_fsa.py:76-219 | no pattern has two readings |
| PatternRoundTrip.ReadAtomSource | mixle_mlops/engines/regex_fsa.py:101-103 | the source slice kept for an atom reads back, on its own, as the same expression |
| Thompson.AcceptsExactly | mixle_mlops/engines/regex_fsa.py:39-224 | the NFA simulation accepts a text if and only if the text is in the language of the fragment's expression |
| Assembly.LaterAdditionsKeepLanguage | mixle_mlops/engines/regex_fsa.py:29-37 | adding to the shared NFA never changes what an earlier fragment accepts |
| Viability.ViablePrefix | mixle_mlops/engines/regex_fsa.py:227-232 | with no empty class, the state set after a text is non-empty if and only if the text is a prefix of a word |
| Viability.PrefixAlive | mixle_mlops/engines/regex_fsa.py:227-232 | on a prefix of a word the state set is never empty, whatever the classes |
| Viability.LiveExactly | mixle_mlops/engines/regex_fsa.py:76-158 | every reachable state can still reach acceptance if and only if every class of the pattern matches something |
| EmptyClasses.SoundStop | mixle_mlops/engines/regex_fsa.py:39-56 | a walk into a state without a way out stops in front of an empty class of the pattern, or has read a word of the fragment and goes on behind it |
| EmptyClasses.CompleteStop | mixle_mlops/engines/regex_fsa.py:39-56 | every text that leads to the front of an empty class is read by a walk into such a state |
| EmptyClasses.AliveExactly | mixle_mlops/engines/regex_fsa.py:227-232 | for every pattern, the state set after a text is non-empty if and only if the text can be completed to a match or to a text that leads to an empty class |
| EmptyClasses.ViableExactly | mixle_mlops/engines/regex_fsa.py:227-232 | non-empty state sets are exactly those of prefixes of matches if and only if every text that leads to an empty class is itself a prefix of a match |
| EmptyClassPatterns.TrailingEmptyClass | mixle_mlops/engines/regex_fsa.py:188-219 | the pattern a[] is accepted, and after a the state set promises a match that no text completes |
| EmptyClassPatterns.OptionalEmptyClass | mixle_mlops/engines/regex_fsa.py:188-219 | the pattern []?b has an empty class and no text misleads all the same |
| EscapeLiterals.EscapeIsLiteral | mixle_mlops/engines/regex_fsa.py:278-283 | an escaped string is a pattern that matches that string and nothing else |
| TokenFsas.MakeTokenFsa | mixle_mlops/engines/grammar.py:12-22 | the constructor lists, per state, exactly the tokens that have a transition |
| RegexFsa.WalkToken | mixle_mlops/engines/regex_fsa.py:255-263 | a token's text is run through the NFA, stopping when no state is left |
| RegexFsa.RegexToTokenFsa | mixle_mlops/engines/regex_fsa.py:227-275 | the automaton numbers exactly the reachable state sets, with an edge per viable token, an end edge and sink at accepting sets, an error for a bad pattern, and an error past the state limit only when there really are that many sets, so never with a limit of two to the number of NFA states |
| TokenRuns.RunIsRead | mixle_mlops/engines/grammar.py:24-31 | a run over tokens other than the end token exists if and only if the NFA survives their text, and ends in the state of that set |
| TokenRuns.RunMatches | mixle_mlops/engines/regex_fsa.py:232-275 | the state reached is accepting if and only if the text so far matches the pattern |
| TokenRuns.RunIsViablePrefix | mixle_mlops/engines/regex_fsa.py:227-232 | where no text misleads, the allowed runs are exactly the spellings of prefixes of matches |
| TokenRuns.RunsExactly | mixle_mlops/engines/regex_fsa.py:227-275 | with every character in the vocabulary and a textless end token, this holds of all runs if and only if no text misleads |
| TokenRuns.EosStep | mixle_mlops/engines/regex_fsa.py:244-273 | at an accepting set the end token leads to the sink if and only if its own text is not viable there |
| TokenRuns.EosAfterMatch | mixle_mlops/engines/regex_fsa.py:244-250 | a textless end token is allowed exactly after texts that match, and ends the run |
| TokenRuns.AllowedExactly | mixle_mlops/engines/regex_fsa.py:227-275 | where no text misleads and with a textless end token, the allowed tokens are exactly those that may follow: the end token after a match, a token with text when the text stays a prefix of a match |
| TokenRuns.MaskExactly | mixle_mlops/engines/regex_fsa.py:227-275 | with every character in the vocabulary and a textless end token, every run's allowed tokens are exactly those that may follow if and only if no text but the empty one misleads |
| TokenRuns.SinkIsTerminal | mixle_mlops/engines/regex_fsa.py:237-250 | nothing follows the end token |
| TokenRuns.NeverStuckEarly | mixle_mlops/engines/regex_fsa.py:255-273 | with every character in the vocabulary and where no text misleads, a run without a next token has matched |
| Decode.FuseLogprobs | mixle_mlops/engines/decode.py:43-51 | fusing is the weighted sum of logits up to one constant for the whole row, and the fused row is normalised |
| Decode.FuseOneKeepsArgMax | mixle_mlops/engines/decode.py:43-51 | with one provider and no weights the argmax is that of the raw logits |
| Decode.TopPFilter | mixle_mlops/engines/decode.py:54-64 | the support is the top rank and every rank whose cumulative probability is within top_p, every kept probability divided by the same number so that they sum to one |
| Decode.Pick | mixle_mlops/engines/decode.py:90-95 | a masked token is never picked; greedy picking is the first maximum, sampling the generator's draw from the filtered softmax of the row |
| Decode.DecodeLoop | mixle_mlops/engines/decode.py:67-103 | the loop follows defined transitions, stops for one of four reasons, and picks each token, greedily or by a draw, from the fused row masked in the grammar state reached |
| ConstrainedDecode.StoppedTextMatches | mixle_mlops/engines/decode.py:96-103 | stopping on the end token or at a terminal state means the text matches |
| ConstrainedDecode.TextIsViable | mixle_mlops/engines/decode.py:76-103 | whatever ends decoding, the text keeps the NFA alive and, where no text misleads, is a prefix of a match |
| ConstrainedDecode.DeadEndMatches | mixle_mlops/engines/decode.py:82-84 | with every character in the vocabulary and where no text misleads, the dead-end return only follows a match |
| ConstrainedDecode.DecodeMatching | mixle_mlops/engines/decode.py:67-108 | pattern to text: for any providers and any greedy or sampled choices the decoded text obeys the pattern, and where no text misleads each token is picked from the fused row with exactly those tokens masked that the pattern does not let follow |
| ChoiceFsa.BuildTrie | mixle_mlops/engines/regex_fsa.py:335-362 | the edges are exactly the steps of the choices' greedy longest-token splits and the end token's loops, the later choice winning where an end token has text, and the accepting states their complete ends |
| ChoiceFsa.NothingLeft | mixle_mlops/engines/regex_fsa.py:347-353 | with every single character as a token no split leaves anything over |
| ChoiceFsa.GreedyMisses | mixle_mlops/engines/regex_fsa.py:349-353 | a vocabulary and a choice that two of its tokens spell but the greedy split does not |
| ChoiceFsa.Renumber | mixle_mlops/engines/regex_fsa.py:363-372 | renumbering tuple states is injective and keeps every edge and accepting state |
| ChoiceRuns.BuildChoiceFsa | mixle_mlops/engines/regex_fsa.py:335-372 | the automaton returned is that trie, renumbered, starting at 0 |
| ChoiceRuns.AcceptedIsChoice | mixle_mlops/engines/regex_fsa.py:335-372 | an accepted run spells one of the choices, an end token standing for nothing or for its own text; for a textless end token, with end tokens dropped |
| ChoiceRuns.OfferedExactly | mixle_mlops/engines/regex_fsa.py:345-361 | a choice is offered if and only if its greedy split leaves nothing over and at no step of it the end token alone has the text and loops there |
| ChoiceRuns.AllOffered | mixle_mlops/engines/regex_fsa.py:345-361 | with every character as a token and an end token without text that it alone has, every choice is offered |
| ChoiceRuns.SpareIsNeeded | mixle_mlops/engines/regex_fsa.py:345-361 | an end token with text that it alone has takes the edge of a choice away: its text, followed by the empty choice, is never offered |
| ChoiceRuns.AlwaysOfferedExactly | mixle_mlops/engines/regex_fsa.py:345-361 | over all lists of choices, every completely split choice is offered if and only if the end token has no text that it alone has |
| ChoiceRuns.StuckExactly | mixle_mlops/engines/regex_fsa.py:345-361 | a run is stuck outside the accepting states exactly where a choice stopped splitting and no other completes or goes on, or where there are no choices |
| SpeculativeGreedy.SeqLogits | mixle_mlops/engines/decode.py:111-118 | row i is the provider's answer after the first i + 1 tokens |
| SpeculativeGreedy.Verify | mixle_mlops/engines/decode.py:150-174 | one pass yields between 1 and k + 1 tokens, after a non-empty text and for k not negative all of them the target's own greedy tokens; otherwise which row the first one comes from, or that the pass fails |
| SpeculativeGreedy.SpeculativeDecode | mixle_mlops/engines/decode.py:121-181 | the loop ends and, on a non-empty prompt and for k not negative, returns the target's greedy run for every draft, end token and length limit; otherwise what it returns, or that it fails, with the row index wrapped around |
| SpeculativeGreedy.GreedyRunUnique | mixle_mlops/engines/decode.py:67-103 | there is only one greedy run |
| SpeculativeGreedy.DecodeIsGreedy | mixle_mlops/engines/decode.py:67-108 | the plain decode loop returns that run |
| SpeculativeGreedy.SpeculativeEqualsDecode | mixle_mlops/engines/decode.py:121-181 | greedy speculative decoding and plain greedy decoding return the same tokens on every such call |
| SpeculativeGreedy.RightExactly | mixle_mlops/engines/decode.py:121-181 | the loop is right for all models if and only if the prompt is not empty and k not negative, or at most one token is asked for in the two ways named |
| SpeculativeSampling.AcceptedMass | mixle_mlops/engines/decode.py:162-166 | drafting and accepting a token has the chance min(p, q) if and only if the 1e-12 floor does not bite there |
| SpeculativeSampling.RejectIs | mixle_mlops/engines/decode.py:162-172 | the chance of rejection is the residual mass plus what the floor took |
| SpeculativeSampling.StepExact | mixle_mlops/engines/decode.py:162-172 | where the floor bites nowhere, one position emits each token with the target's probability, and a rejection implies positive residual mass |
| SpeculativeSampling.EmitsInGeneral | mixle_mlops/engines/decode.py:162-172 | the emitted chance in general: the target's, less what the floor took there, plus the share of all it took that the replacement hands back |
| SpeculativeSampling.LawExactly | mixle_mlops/engines/decode.py:162-172 | a position has the target's whole law if and only if the floor bites nowhere, or bites exactly the tokens the target likes better and takes from each in proportion to its excess |
| SpeculativeSampling.LawExactlyInGeneral | mixle_mlops/engines/decode.py:162-172 | when some token the target likes better is not bitten, or there is none, this is if and only if the floor bites nowhere |
| SpeculativeSampling.TinyTokenComesOutTooRarely | mixle_mlops/engines/decode.py:162-172 | two equal models, one token with probability 1e-13: it comes out too rarely |
| SpeculativeSampling.BalancedHappens | mixle_mlops/engines/decode.py:162-172 | two models for which the floor bites and the law is exact all the same |
| SpeculativeSampling.FloorUnderEmits | mixle_mlops/engines/decode.py:162-165 | where the floor bites a token the target likes no better than the draft, that token comes out too rarely |
| PassRows.VerifyRowIs | mixle_mlops/engines/decode.py:150-154 | position j of a pass reads the target's row behind the text before it, but the row behind the whole draft when there is nothing before it |
| PassRows.BonusRowIs | mixle_mlops/engines/decode.py:150-174 | the bonus row is the target's row behind everything, an earlier one for a negative k, or missing |
| SpeculativePass.VerifySampled | mixle_mlops/engines/decode.py:150-174 | for given draws the loop keeps the drafted tokens before the first rejection and ends in the replacement or the bonus token, each decided with row n - 1 + j of the pass and drawn with the law's own weights; it fails exactly when all are accepted and the bonus row is missing |
| SpeculativePass.ReadsAre | mixle_mlops/engines/decode.py:150-174 | the rows that a pass reads are those with which the law over whole runs decides |
| SpeculativePass.WeightsAreDist | mixle_mlops/engines/decode.py:168-170 | with residual mass the replacement weights sum to one |
| SpeculativePass.OnlyTargetTokens | mixle_mlops/engines/decode.py:150-174 | whatever the draft and the draws, every token a pass emits has positive probability in the row it was decided with |
| SpeculativePass.TargetCouldHave | mixle_mlops/engines/decode.py:150-174 | after a non-empty text and for k not negative that is the target's own probability behind everything emitted before it |
| SpeculativeLaw.DraftIsPositions | mixle_mlops/engines/decode.py:137-181 | drafting k tokens first and verifying them afterwards has the law of deciding position by position |
| SpeculativeLaw.RunIsTarget | mixle_mlops/engines/decode.py:137-181 | on a non-empty prompt and for k not negative, if each position that can come to be verified is exact, the whole loop of drafts, corrections and bonus tokens has the target's joint law |
| SpeculativeLaw.FirstToken | mixle_mlops/engines/decode.py:137-181 | the first token after a non-empty text has the chance of one verified position |
| SpeculativeLaw.PromptExactly | mixle_mlops/engines/decode.py:137-181 | on one non-empty prompt, within the length limit and for k not negative, the loop has the target's joint law if and only if every position it can come to verify is exact |
| SpeculativeLaw.RunsExactly | mixle_mlops/engines/decode.py:137-181 | on all non-empty prompts the loop has the target's joint law if and only if every position is exact or nothing is drafted |
| SpeculativeLossless.SamplerIsExact | mixle_mlops/engines/decode.py:162-172 | with the code's accept and replace rules a position is exact if and only if the floor bites nowhere there or is balanced |
| SpeculativeLossless.SpeculativeExactly | mixle_mlops/engines/decode.py:121-181 | for a safe call, on one given prompt, the loop has the target's law if and only if the floor bites nowhere or is balanced after every text behind which a drafted token is verified with a chance other than zero |
| SpeculativeLossless.EverywhereExactly | mixle_mlops/engines/decode.py:121-181 | on all non-empty prompts and for k not negative the loop has the target's law if and only if nothing is drafted or in every context the floor bites nowhere or is balanced |
| SpeculativeLossless.SpeculativeIsTarget | mixle_mlops/engines/decode.py:121-181 | where the floor never bites, for every draft, text and safe call, the speculative loop starts with that text with the target's own probability |
| SpeculativeLossless.SampledRightExactly | mixle_mlops/engines/decode.py:121-181 | prompt, limit and k together: the condition on the floor decides the law for all models if and only if the call is safe |
| SpeculativeLossless.UnsafeIsWrong | mixle_mlops/engines/decode.py:150-174 | for every call that is not safe there are models at which the floor bites nowhere and the law is not the target's |
| SpeculativeLossless.EmptyPromptLosesToken | mixle_mlops/engines/decode.py:154-166 | on an empty prompt a token that the target is certain to start with never comes |
| CausalNet.Causal | mixle_mlops/engines/providers.py:103-108 | no row of any layer depends on later tokens |
| CausalNet.LayerAppends | mixle_mlops/engines/providers.py:144-156 | cached and new keys and values together are those of one forward over everything |
| KvCache.DynamicCache.Update | mixle_mlops/engines/providers.py:148-152 | updating a cache object rebinds one layer to a longer one and touches no other layer |
| KvCache.Forward | mixle_mlops/engines/providers.py:203-206 | a forward on top of a cache grows that object into the snapshot of the whole context and returns the logits of each new position as if uncached |
| KvCache.ShareOneCache | mixle_mlops/engines/providers.py:144-152 | two siblings forwarded on one live cache: the second is scored in a context that also holds the first |
| TreeProvider.TreeLogitProvider.FreshPast | mixle_mlops/engines/providers.py:168-178 | a new cache object holding the stored layers |
| TreeProvider.TreeLogitProvider.ForwardFrom | mixle_mlops/engines/providers.py:193-210 | the node stored for a prefix is its exact snapshot; the ancestor counts as used, the oldest nodes are evicted, a negative limit fails |
| TreeProvider.TreeLogitProvider.Evict | mixle_mlops/engines/providers.py:208-209 | exactly the newest entries within the limit survive |
| TreeProvider.TreeLogitProvider.NextLogits | mixle_mlops/engines/providers.py:212-223 | for every history and eviction the logits are those of one uncached forward of the root token and the prefix; every node stays exact, the node count stays within the limit and the new use order is given |
| TreeProvider.TreeLogitProvider.PrefixLogprobs | mixle_mlops/engines/providers.py:225-235 | row d of one forward is the log-softmax of what next_logits gives for the first d tokens |
| MaxMin.ScoreOrder | mixle_mlops/gateway/moa_select.py:134-145 | without quality weight, scores order candidates as their gains do |
| MaxMin.MinMaxKeepsOrder | mixle_mlops/gateway/moa_select.py:165-172 | min-max scaling keeps which of two values is larger |
| MaxMin.Select | mixle_mlops/gateway/moa_select.py:109-152 | min(max(k, 1), n) different indices, the seed first, each later one the first best score; an error for a quality vector of the wrong length |
| MaxMin.GreedyIsFarthest | mixle_mlops/gateway/moa_select.py:134-147 | without quality, or with weight zero on it, every pick is the lowest-numbered farthest candidate |
| MaxMin.GreedyIsBestQuality | mixle_mlops/gateway/moa_select.py:86-95 | with all weight on quality nothing left out is better than anything picked |
| MaxMin.GainsNeverRise | mixle_mlops/gateway/moa_select.py:134-149 | successive gains never increase |
| MaxMin.LastGainIsLeastDistance | mixle_mlops/gateway/moa_select.py:134-149 | the last gain is the least distance between two picks |
| MaxMin.EverythingIsNear | mixle_mlops/gateway/moa_select.py:134-149 | every other candidate lies within the last gain of a pick |
| MaxMin.SelectionIsNearBest | mixle_mlops/gateway/moa_select.py:98-103 | for a distance with triangle slack rho, no set of the same size is spread more than 2 * rho times as far |
| CosineDistance.CosineIsNearMetric | mixle_mlops/gateway/moa_select.py:32-46 | for embeddings of any lengths, the cosine distance of the rows divided by their norms (zero rows as they are) is such a distance with rho = 2, and zero from every non-zero row to itself |
| MemoryCache.MemoryCache.Get | mixle_mlops/cache/memory.py:30-43 | drops an expired entry, counts a hit or a miss, returns the live value |
| MemoryCache.MemoryCache.Set | mixle_mlops/cache/memory.py:45-52 | stores with expiry and purges at every multiple of 256 entries |
| MemoryCache.MemoryCache.Incr | mixle_mlops/cache/memory.py:54-66 | starts anew when missing or expired, else adds and keeps the old expiry; an unreadable counter is an error and changes nothing |
| MemoryCache.MemoryCache.Expire | mixle_mlops/cache/memory.py:68-75 | renews the expiry of a live entry only |
| MemoryCache.MemoryCache.Delete | mixle_mlops/cache/memory.py:77-79 | removes the key and reports whether it was stored |
| MemoryCache.MemoryCache.Stats | mixle_mlops/cache/memory.py:81-92 | purges, then reports size and counters |
| MemoryCache.MemoryCache.Clear | mixle_mlops/cache/memory.py:94-98 | empties the map and both counters |
| MemoryCache.StepRefines | mixle_mlops/cache/memory.py:22-98 | one operation keeps the cache and the plain timed map indistinguishable and gives the same answer |
| MemoryCache.CacheRefinesMap | mixle_mlops/cache/memory.py:12-98 | for every sequence of operations at non-decreasing times the answers are those of a map in which expired entries are absent, except exactly where an expired entry that is still stored is deleted |
| MemoryCache.HitsAndMissesAreReads | mixle_mlops/cache/memory.py:30-43 | hits plus misses is the number of reads since the last clear |
| RateLimit.RateLimiter.CheckFixedWindow | mixle_mlops/cache/ratelimit.py:64-72 | charges the window's counter in any case and admits within the limit |
| RateLimit.RateLimiter.CheckTokenBucket | mixle_mlops/cache/ratelimit.py:78-93 | refill, charge or refuse with retry_after, and store for four windows; no other key looks different |
| RateLimit.RateLimiter.Check | mixle_mlops/cache/ratelimit.py:95-101 | an empty identity is anonymous and a burst selects the token bucket |
| TokenBucketRuns.NextOk | mixle_mlops/cache/ratelimit.py:78-93 | stored tokens stay between zero and the capacity |
| TokenBucketRuns.BoundedExactly | mixle_mlops/cache/ratelimit.py:78-93 | every run admits at most a full bucket and the refill in any interval, if and only if the bucket can refill while it is kept |
| LimiterBuckets.RateHoldsExactly | mixle_mlops/cache/ratelimit.py:78-93 | for a positive limit and window, the promised rate holds over every interval of every run, expiry included, if and only if burst is at most four times the limit |
| TokenBucketRuns.DrainWaitDrain | mixle_mlops/cache/ratelimit.py:86-88 | with a larger burst, draining, waiting four windows and draining again breaks the rate |
| TokenBucketRuns.RetryAfterIsExact | mixle_mlops/cache/ratelimit.py:91-93 | a refused request that fits is admitted alone from retry_after on and not before, unless the bucket is forgotten first |
| TokenBucketRuns.RetryAfterWithinKeep | mixle_mlops/cache/ratelimit.py:91-93 | when the bucket can refill while kept, retry_after is positive and comes before it is forgotten |
| TokenBucketRuns.TooLargeIsRefused | mixle_mlops/cache/ratelimit.py:86-93 | a request larger than the bucket is always refused |
| LimiterBuckets.CheckIsStep | mixle_mlops/cache/ratelimit.py:78-93 | a check on the limiter object is one step of such a run |
| FixedWindowRuns.CheckIsStep | mixle_mlops/cache/ratelimit.py:64-72 | a check on the limiter object is one step of such a run, admitted exactly when the run admits it |
| FixedWindowRuns.RetryAfterIsNextWindow | mixle_mlops/cache/ratelimit.py:68-71 | the retry_after of a refusal is positive, at most one window, and leads to the first instant of the next window |
| FixedWindowRuns.CheckCounts | mixle_mlops/cache/ratelimit.py:60-72 | a counter never expires inside its own window, for any interleaving of clients |
| FixedWindowRuns.AllowedExactly | mixle_mlops/cache/ratelimit.py:64-72 | a check is admitted if and only if all the client has asked for in that window, refused requests included, fits the limit |
| FixedWindowRuns.WindowBound | mixle_mlops/cache/ratelimit.py:64-72 | no window admits more than the limit |
| FixedWindowRuns.AnyStretchBound | mixle_mlops/cache/ratelimit.py:60-72 | any half-open stretch of one window length admits at most twice the limit |
| FixedWindowRuns.TwiceTheLimitHappens | mixle_mlops/cache/ratelimit.py:60-72 | twice the limit is reached around a window border |
| FixedWindowRuns.RunOnTheCache | mixle_mlops/cache/ratelimit.py:64-72 | the same decisions come out on the cache with its lazy drops and purges |
| SseStream.ReadStream | frontend/lib/api.ts:272-304 | the handler calls depend only on the concatenation of the chunks |
| SseStream.DrainMore | frontend/lib/api.ts:282-304 | text arriving later never disturbs what was handled; reading goes on from the buffer, and a stop is final |
| SseStream.LinesBeforeLastBlank | frontend/lib/api.ts:276-304 | the calls are those of handling every line before the last blank line in order until one stops the stream, and nothing after it |
| ChunkText.ChunkText | mixle_mlops/documents/parse.py:150-172 | the loop ends for every size and overlap, and its chunks are the stripped non-empty windows |
| ChunkText.CutIs | mixle_mlops/documents/parse.py:158-164 | a window ends at the text's end, at its last blank when that lies past the middle, or is full with no blank there |
| ChunkText.WindowsCover | mixle_mlops/documents/parse.py:157-171 | windows advance, leave no gap, overlap by at most the capped overlap and reach the end |
| ChunkText.ChunksAreSlices | mixle_mlops/documents/parse.py:158-168 | every chunk is a contiguous slice no longer than the size, without white space at its ends |
| ChunkText.NothingLost | mixle_mlops/documents/parse.py:150-172 | every character that is not white space is in a chunk, at its place |
| Verify.CountHits | mixle_mlops/datasets/code_tasks.py:264-271 | remove-as-you-match counts the multiset intersection |
| Verify.Score | mixle_mlops/datasets/code_tasks.py:260-275 | exactness and score as computed, nothing parsed scoring zero |
| Verify.VerifyRecords | mixle_mlops/datasets/code_tasks.py:256-275 | on whole records: exact if and only if something was parsed and it is the same records up to order with values compared as strings, which is when the score is one |
| Verify.SameRowExactly | mixle_mlops/datasets/code_tasks.py:256-257 | two records are the same row if and only if they have the same keys and their values show the same |
| Verify.F1Is | mixle_mlops/datasets/code_tasks.py:272-274 | the score is twice the hits over the rows of both sides |
| Verify.ScoreIsOneExactly | mixle_mlops/datasets/code_tasks.py:260-275 | exact if and only if equal as multisets; the score lies in [0, 1] and is 1 if and only if exact |
| Verify.CountRows | mixle_mlops/datasets/code_tasks.py:480-485 | the counting loop gives each row's multiplicity |
| Verify.SameKeyExactly | mixle_mlops/datasets/code_tasks.py:480-485 | two record lists have the same key if and only if they are equal as multisets |
| Harvest.HarvestTask | mixle_mlops/datasets/code_tasks.py:422-436 | up to max(1, attempts) tries, each told of the failure before it |
| Harvest.HarvestAll | mixle_mlops/datasets/code_tasks.py:405-436 | the trajectories of all tasks, in task order |
| Harvest.TryPasses | mixle_mlops/datasets/code_tasks.py:422-436 | a trajectory is a program whose own run scored at least the threshold; a failed program is recorded if and only if it was not the first attempt |
| Harvest.KeptInOrder | mixle_mlops/datasets/code_tasks.py:420-436 | at most one trajectory per task |
| Harvest.KeptIsExact | mixle_mlops/datasets/code_tasks.py:405-436 | with the default threshold every kept program's run gave exactly the true records |
| Harvest.LeftOutFails | mixle_mlops/datasets/code_tasks.py:422-436 | a task is left out only when every one of its attempts scored below the threshold |
| Findall.YieldsBody | mixle_mlops/datasets/code_tasks.py:613-625 | between its marks a body that holds no closing mark is found whole, whatever follows |
| Pages.RenderPage | mixle_mlops/datasets/code_tasks.py:90-135 | the page is the non-empty parts joined by newlines, the header taken from the first record |
| RenderParse.PageYields | mixle_mlops/datasets/code_tasks.py:106-135 | on a page with any noise the scan for records finds exactly the records' bodies, in order, behind a table's header |
| RenderParse.TableRoundTrip | mixle_mlops/datasets/code_tasks.py:609-617 | the table program gives the rows back exactly when the schema has a field |
| RenderParse.DivsRoundTrip | mixle_mlops/datasets/code_tasks.py:619-627 | the divs program gives the rows back |
| RenderParse.ListPageRoundTrip | mixle_mlops/datasets/code_tasks.py:629-637 | the list program gives the rows back for different field names |
| PageTeacher.RoundTrip | mixle_mlops/datasets/code_tasks.py:90-135 | rendering and parsing undo each other for every schema with a field, typed records and noise choice |
| PageTeacher.TablePageIsRecognised | mixle_mlops/datasets/code_tasks.py:608-609 | a table page always gets the table program |
| PageTeacher.DivsPageIsRecognised | mixle_mlops/datasets/code_tasks.py:618-619 | a divs page with a record gets the divs program |
| PageTeacher.ListPageIsRecognisedExactly | mixle_mlops/datasets/code_tasks.py:608-630 | a list page gets the list program if and only if no name or value holds an item mark |
| PageTeacher.EmptyDivsPageIsList | mixle_mlops/datasets/code_tasks.py:608-630 | a divs page without records gets the list program |
| PageTeacher.TeacherRoundTrip | mixle_mlops/datasets/code_tasks.py:594-639 | the teacher's own choice of program gives the records back, also when there are none |

## Left out

- Floating point: logits, log-sum-exp, probabilities, distances and clocks are reals; softmax and log-softmax are parameters of which only the shift, positivity and sum are used.
- Character tables: which characters are digits, word characters or white space is a parameter, so the results hold for ASCII and Unicode alike.
- Interpreter limits: recursion depth and the digit limit of `int()` on a `{n}` count are not modelled.
- Predicates of character classes are data (ranges, escapes, negation) instead of closures; the language they denote is the same.
- Viability.ViablePrefix: one direction needs every class to match something, which is sufficient; EmptyClasses.ViableExactly has the exact condition.
- JSON schemas: `json_schema_to_regex` and its claim of valid JSON are not modelled; `_escape` is.
- `TokenFSA.from_token_sequence_alternation` is a demonstration grammar and is not modelled.
- SpeculativeGreedy.SpeculativeDecode: on an empty prompt with no draft, a provider with a pass over whole sequences may answer anything for the empty one; the sampled pass and its law take it to have no rows then, so that the call fails.
- Random numbers: the sampling decode loop draws from a generator that is a parameter, a sampled pass takes its draws as arguments, and the law over whole runs is defined by recursion on chances, not derived from a random generator; it is over prefixes of the output, so the length limit and end token only cut it off.
- One attention layer of CausalNet is a causal function of all keys and values up to a position; weights, heads, precision and `position_ids` beyond the cache length are inside it, and a network has at least one layer.
- Legacy cache helpers of older transformers releases are not modelled, only the layer-by-layer form.
- Device placement, tensor copies and vocabulary bounds of token ids in the provider are not modelled.
- Square roots: the norms of embeddings are parameters of which only the square is used; the embedder and the check of the matrix shape are not modelled.
- Quality mixes with a weight strictly between 0 and 1 are modelled by the loop and its scores; the spread guarantees are stated for weight 0 or no quality, which is where they hold.
- `mean_diversity` only reports a mean and is not modelled.
- A stored None is a value like any other in the model; `get` in Python cannot tell it from a missing key.
- The lock: methods are atomic; each reads the clock it is given, and runs are at non-decreasing times. The wall clock and the monotonic clock are one clock.
- RateLimit.RateLimiter.CheckTokenBucket: get followed by set is not atomic, so runs of one bucket are sequential; other kinds of values under the bucket's key are excluded.
- Cache keys are functions of identity and window assumed not to collide where several clients are involved; hashing itself is not modelled.
- The Redis backend, HTTP routes, headers and provider adapters are not modelled.
- The conversion of token counts to characters and document extraction around `chunk_text` are not modelled; window sizes are given in characters.
- Network reads, the text decoder and JSON parsing in `streamChat` are parameters: chunks are strings and a payload is ignored, an error or a delta. Exceptions thrown by handlers are not modelled.
- Rendered records are rows of values in schema order, the same order in which they are rendered; unknown template names are excluded by type, and random choices are parameters.
- The emitted programs are modelled as functions, not as Python source, so names that would break a quoted string are not considered; building dictionaries from rows is not modelled.
- The sandbox that runs programs and the LLM teacher are an arbitrary function of task, attempt and earlier failure.
