/** Greedy speculative decoding: draft, verify in one target pass, correct; and why it loses nothing. */
module SpeculativeGreedy {
  import opened Options
  import opened PassRows
  import opened Decode

  /** A model with per-step logits and, optionally, all rows of a sequence in one pass. */
  datatype Model = Model(next: Provider, rows: Option<seq<int> -> seq<seq<real>>>)

  /** Row i of a pass over a non-empty sequence predicts the token after the first i + 1. */
  ghost predicate Consistent(m: Model, vocabSize: nat) {
    && vocabSize > 0
    && (forall ts: seq<int> :: |m.next(ts)| == vocabSize)
    && (m.rows.Some? ==> forall ts: seq<int> :: ts != [] ==> RowsAre(m, ts, m.rows.value(ts)))
  }

  ghost predicate RowsAre(m: Model, ts: seq<int>, rows: seq<seq<real>>) {
    |rows| == |ts| && forall i :: 0 <= i < |ts| ==> rows[i] == m.next(ts[..i + 1])
  }

  method SeqLogits(m: Model, vocabSize: nat, ts: seq<int>) returns (rows: seq<seq<real>>)
    requires Consistent(m, vocabSize)
    ensures ts != [] ==> RowsAre(m, ts, rows)
    ensures ts == [] && m.rows.None? ==> rows == []
  {
    if m.rows.Some? { return m.rows.value(ts); }
    rows := [];
    for i := 0 to |ts|
      invariant |rows| == i && forall l :: 0 <= l < i ==> rows[l] == m.next(ts[..l + 1])
    {
      rows := rows + [m.next(ts[..i + 1])];
    }
  }

  /** t is the token greedy decoding takes after ts. */
  ghost predicate Takes(next: Provider, ts: seq<int>, t: int) {
    IsArgMax(Finite(next(ts)), t)
  }

  /** Every token of out is the greedy one after everything before it. */
  ghost predicate GreedyPath(next: Provider, prompt: seq<int>, out: seq<int>) {
    forall k :: 0 <= k < |out| ==> Takes(next, prompt + out[..k], out[k])
  }

  /** The end token can only stand last. */
  ghost predicate OnlyLast(eos: Option<int>, out: seq<int>) {
    forall j :: 0 <= j < |out| - 1 ==> eos != Some(out[j])
  }

  /** out was stopped by the end token or the length limit and by nothing else. */
  ghost predicate Stops(maxNewTokens: int, eos: Option<int>, out: seq<int>) {
    && |out| <= Length(maxNewTokens)
    && OnlyLast(eos, out)
    && (|out| < Length(maxNewTokens) ==> out != [] && eos == Some(out[|out| - 1]))
  }

  /** out is the greedy continuation of prompt. */
  ghost predicate GreedyRun(next: Provider, prompt: seq<int>, maxNewTokens: int, eos: Option<int>, out: seq<int>) {
    GreedyPath(next, prompt, out) && Stops(maxNewTokens, eos, out)
  }

  /** There is only one such continuation. */
  lemma {:induction false} GreedyRunUnique(next: Provider, prompt: seq<int>, maxNewTokens: int, eos: Option<int>,
                                           a: seq<int>, b: seq<int>)
    requires GreedyRun(next, prompt, maxNewTokens, eos, a) && GreedyRun(next, prompt, maxNewTokens, eos, b)
    ensures a == b
  {
    AgreeUpTo(next, prompt, a, b, if |a| < |b| then |a| else |b|);
  }

  lemma {:induction false} AgreeUpTo(next: Provider, prompt: seq<int>, a: seq<int>, b: seq<int>, n: nat)
    requires GreedyPath(next, prompt, a) && GreedyPath(next, prompt, b) && n <= |a| && n <= |b|
    ensures a[..n] == b[..n] && forall i :: 0 <= i < n ==> a[i] == b[i]
  {
    if n > 0 {
      AgreeUpTo(next, prompt, a, b, n - 1);
      assert Takes(next, prompt + a[..n - 1], a[n - 1]) && Takes(next, prompt + b[..n - 1], b[n - 1]);
      ArgMaxUnique(Finite(next(prompt + a[..n - 1])), a[n - 1], b[n - 1]);
      assert a[..n] == a[..n - 1] + [a[n - 1]] && b[..n] == b[..n - 1] + [b[n - 1]];
    }
  }

  /** The plain decode loop on one provider, without weights or grammar, is greedy decoding. */
  lemma DecodeIsGreedy(next: Provider, vocabSize: nat, prompt: seq<int>, maxNewTokens: int, eos: Option<int>,
                       out: seq<int>, stop: Stop)
    requires vocabSize > 0 && ProvidersOk([next], vocabSize)
    requires Progress(None, eos, out, 0) && |out| <= Length(maxNewTokens)
    requires stop == Limit || stop == EndToken
    requires stop == Limit ==> |out| == Length(maxNewTokens)
    requires stop == EndToken <==> out != [] && eos == Some(out[|out| - 1])
    requires Chosen([next], prompt, None, vocabSize, None, Greedy, out)
    ensures GreedyRun(next, prompt, maxNewTokens, eos, out)
  {
    forall k | 0 <= k < |out| ensures Takes(next, prompt + out[..k], out[k]) {
      assert ChosenStep([next], prompt, None, vocabSize, None, Greedy, out, k);
      var ts := prompt + out[..k];
      var rows := AllLogits([next], ts);
      assert rows == [next(ts)];
      assert |[next][0](ts)| == vocabSize;
      var q: nat, fused: seq<real>, c: real :|
        PickedAt([next], ts, None, vocabSize, None, Greedy, q, k, out[k], fused, c);
      FuseOneKeepsArgMax(next(ts), fused, c, out[k]);
    }
  }

  // --- speculative decoding -----------------------------------------------------------------

  /** The draft proposes k tokens, each greedy for itself. */
  method Propose(draft: Model, vocabSize: nat, tokens: seq<int>, k: nat) returns (toks: seq<int>)
    requires Consistent(draft, vocabSize)
    ensures |toks| == k && GreedyPath(draft.next, tokens, toks)
  {
    toks := [];
    for j := 0 to k
      invariant |toks| == j && GreedyPath(draft.next, tokens, toks)
    {
      var t := ArgMax(Finite(draft.next(tokens + toks)));
      PathSnoc(draft.next, tokens, toks, t);
      toks := toks + [t];
    }
  }

  lemma PathSnoc(next: Provider, prompt: seq<int>, out: seq<int>, t: int)
    requires GreedyPath(next, prompt, out) && Takes(next, prompt + out, t)
    ensures GreedyPath(next, prompt, out + [t])
  {
    var all := out + [t];
    forall k | 0 <= k < |all| ensures Takes(next, prompt + all[..k], all[k]) {
      if k < |out| {
        assert all[..k] == out[..k] && all[k] == out[k];
      } else {
        assert all[..k] == out;
      }
    }
  }

  lemma PathJoin(next: Provider, prompt: seq<int>, a: seq<int>, b: seq<int>)
    requires GreedyPath(next, prompt, a) && GreedyPath(next, prompt + a, b)
    ensures GreedyPath(next, prompt, a + b)
  {
    var all := a + b;
    forall k | 0 <= k < |all| ensures Takes(next, prompt + all[..k], all[k]) {
      if k < |a| {
        assert all[..k] == a[..k] && all[k] == a[k];
      } else {
        assert prompt + all[..k] == prompt + a + b[..k - |a|];
        assert all[k] == b[k - |a|];
      }
    }
  }

  lemma PathPrefix(next: Provider, prompt: seq<int>, out: seq<int>, n: nat)
    requires GreedyPath(next, prompt, out) && n <= |out|
    ensures GreedyPath(next, prompt, out[..n])
  {
    forall k | 0 <= k < n ensures Takes(next, prompt + out[..n][..k], out[..n][k]) {
      assert out[..n][..k] == out[..k] && out[..n][k] == out[k];
    }
  }

  /** The row of the pass that predicts the token after tokens + draft[..j]. */
  lemma PassRow(m: Model, tokens: seq<int>, drafts: seq<int>, rows: seq<seq<real>>, j: nat)
    requires tokens != [] && RowsAre(m, tokens + drafts, rows) && j <= |drafts|
    ensures At(rows, |tokens| - 1 + j) == Some(m.next(tokens + drafts[..j]))
  {
    assert (tokens + drafts)[..|tokens| + j] == tokens + drafts[..j];
  }

  /** Every token of out is the greedy one after only the first tokens of everything before it. */
  ghost predicate BackPath(next: Provider, prompt: seq<int>, k: int, out: seq<int>) {
    forall j :: 0 <= j < |out| ==> BackTakes(next, prompt + out[..j], k, out[j])
  }

  ghost predicate BackTakes(next: Provider, ts: seq<int>, k: int, t: int) {
    0 <= Back(|ts|, k) <= |ts| && Takes(next, ts[..Back(|ts|, k)], t)
  }

  lemma BackSnoc(next: Provider, prompt: seq<int>, k: int, out: seq<int>, t: int)
    requires BackPath(next, prompt, k, out) && BackTakes(next, prompt + out, k, t)
    ensures BackPath(next, prompt, k, out + [t])
  {
    var all := out + [t];
    forall j | 0 <= j < |all| ensures BackTakes(next, prompt + all[..j], k, all[j]) {
      if j < |out| {
        assert all[..j] == out[..j] && all[j] == out[j];
      } else {
        assert all[..j] == out;
      }
    }
  }

  lemma BackPrefix(next: Provider, prompt: seq<int>, k: int, out: seq<int>, n: nat)
    requires BackPath(next, prompt, k, out) && n <= |out|
    ensures BackPath(next, prompt, k, out[..n])
  {
    forall j | 0 <= j < n ensures BackTakes(next, prompt + out[..n][..j], k, out[..n][j]) {
      assert out[..n][..j] == out[..j] && out[..n][j] == out[j];
    }
  }

  /** One target pass verifies the draft: the accepted tokens are the target's own greedy tokens. */
  method Verify(target: Model, vocabSize: nat, tokens: seq<int>, drafts: seq<int>, k: int)
    returns (accepted: Option<seq<int>>)
    requires Consistent(target, vocabSize) && |drafts| == Length(k)
    ensures tokens != [] && k >= 0 ==> accepted.Some? && GreedyPath(target.next, tokens, accepted.value)
    ensures accepted.Some? ==> 1 <= |accepted.value| <= |drafts| + 1
    ensures tokens != [] && k < 0 ==> (accepted.Some? <==> 2 * |tokens| + k >= 1)
    ensures tokens != [] && k < 0 && accepted.Some? ==> BackTakes(target.next, tokens, k, accepted.value[0])
    ensures tokens == [] && k > 0 ==> accepted.Some? && Takes(target.next, drafts, accepted.value[0])
    ensures tokens == [] && k <= 0 && target.rows.None? ==> accepted.None?
  {
    var rows := SeqLogits(target, vocabSize, tokens + drafts);
    var out: seq<int> := [];
    for j := 0 to |drafts|
      invariant |out| == j && out == drafts[..j]
      invariant tokens != [] && k >= 0 ==> GreedyPath(target.next, tokens, out)
      invariant tokens == [] && j > 0 ==> Takes(target.next, drafts, out[0])
    {
      var tgt := RowToken(target, vocabSize, tokens, drafts, rows, j);
      if tgt.None? { return None; }
      if tokens != [] { PathSnoc(target.next, tokens, out, tgt.value); }
      out := out + [tgt.value];
      if drafts[j] != tgt.value { return Some(out); }
    }
    assert drafts[..|drafts|] == drafts;
    var bonus := RowToken(target, vocabSize, tokens, drafts, rows, k);
    if bonus.None? { return None; }
    if tokens != [] && k >= 0 { PathSnoc(target.next, tokens, out, bonus.value); }
    accepted := Some(out + [bonus.value]);
  }

  lemma BackRow(m: Model, tokens: seq<int>, rows: seq<seq<real>>, k: int)
    requires tokens != [] && RowsAre(m, tokens, rows) && k < 0
    ensures 2 * |tokens| + k >= 1 ==>
              1 <= Back(|tokens|, k) <= |tokens|
              && At(rows, |tokens| - 1 + k) == Some(m.next(tokens[..Back(|tokens|, k)]))
    ensures 2 * |tokens| + k < 1 ==> At(rows, |tokens| - 1 + k) == None
  {}

  /** The greedy token of row n - 1 + j of the pass; None when there is no such row. */
  method RowToken(target: Model, vocabSize: nat, tokens: seq<int>, drafts: seq<int>, rows: seq<seq<real>>, j: int)
    returns (t: Option<int>)
    requires Consistent(target, vocabSize) && j <= |drafts| && (j < 0 ==> drafts == [])
    requires tokens + drafts != [] ==> RowsAre(target, tokens + drafts, rows)
    requires tokens + drafts == [] && target.rows.None? ==> rows == []
    ensures tokens != [] && j >= 0 ==> t.Some? && Takes(target.next, tokens + drafts[..j], t.value)
    ensures tokens != [] && j < 0 ==> (t.Some? <==> 2 * |tokens| + j >= 1)
    ensures tokens != [] && j < 0 && t.Some? ==> BackTakes(target.next, tokens, j, t.value)
    ensures tokens == [] && drafts != [] ==> t.Some? && (j == 0 ==> Takes(target.next, drafts, t.value))
    ensures tokens == [] && drafts == [] && target.rows.None? ==> t.None?
  {
    if tokens != [] && j >= 0 { PassRow(target, tokens, drafts, rows, j); }
    if tokens != [] && j < 0 {
      assert tokens + drafts == tokens;
      BackRow(target, tokens, rows, j);
    }
    assert tokens == [] ==> tokens + drafts == drafts && drafts[..|drafts|] == drafts;
    var row := At(rows, |tokens| - 1 + j);
    if row.None? || |row.value| == 0 { return None; }
    var best := ArgMax(Finite(row.value));
    t := Some(best);
  }

  /** The first target pass of an empty prompt: where the true first row would be, Python's index wraps to the
      last row, so the token comes from after the whole draft. */
  ghost predicate WrappedFirst(draft: Provider, target: Provider, k: int, t: int) {
    exists d: seq<int> :: |d| == k && GreedyPath(draft, [], d) && Takes(target, d, t)
  }

  /** What the loop returns; None is an index out of range. */
  ghost predicate Answers(draft: Model, target: Model, prompt: seq<int>, maxNewTokens: int, k: int, eos: Option<int>,
                          r: Option<seq<int>>)
  {
    if maxNewTokens <= 0 then r == Some([])
    else if prompt != [] && k >= 0 then r.Some? && GreedyRun(target.next, prompt, maxNewTokens, eos, r.value)
    else if prompt != [] then
      if 2 * |prompt| + k >= 1 then
        r.Some? && BackPath(target.next, prompt, k, r.value) && Stops(maxNewTokens, eos, r.value)
      else r.None?
    else if k > 0 then r.Some? && r.value != [] && WrappedFirst(draft.next, target.next, k, r.value[0])
    else target.rows.None? ==> r.None?
  }

  method SpeculativeDecode(draft: Model, target: Model, vocabSize: nat, prompt: seq<int>, maxNewTokens: int, k: int,
                           eos: Option<int>)
    returns (r: Option<seq<int>>, ghost counts: seq<nat>)
    requires Consistent(draft, vocabSize) && Consistent(target, vocabSize)
    ensures Answers(draft, target, prompt, maxNewTokens, k, eos, r)
    ensures CountsOk(counts, k) && |counts| <= Length(maxNewTokens)
  {
    var tokens := prompt;
    var out: seq<int> := [];
    counts := [];
    while |out| < maxNewTokens
      invariant tokens == prompt + out && |counts| <= |out| && |counts| <= Length(maxNewTokens)
      invariant SoFar(draft, target, prompt, k, out) && NoneIn(eos, out) && CountsOk(counts, k)
      decreases maxNewTokens - |out|
    {
      var failed, ended;
      ghost var count;
      out, tokens, failed, ended, count := Round(draft, target, vocabSize, prompt, out, tokens, k, eos);
      if failed { return None, counts; }
      counts := counts + [count];
      if ended {
        Truncated(draft, target, prompt, maxNewTokens, k, eos, out);
        return Some(Truncate(out, maxNewTokens)), counts;
      }
    }
    Truncated(draft, target, prompt, maxNewTokens, k, eos, out);
    r := Some(Truncate(out, maxNewTokens));
  }

  /** Every pass yields between one and k + 1 tokens. */
  ghost predicate CountsOk(counts: seq<nat>, k: int) {
    forall i :: 0 <= i < |counts| ==> 1 <= counts[i] <= Length(k) + 1
  }

  ghost predicate NoneIn(eos: Option<int>, out: seq<int>) {
    forall i :: 0 <= i < |out| ==> eos != Some(out[i])
  }

  /** The first row asked for does not exist. */
  predicate NoRow(target: Model, prompt: seq<int>, k: int) {
    if prompt == [] then k <= 0 && target.rows.None? else 2 * |prompt| + k < 1
  }

  /** What the tokens produced so far are. */
  ghost predicate SoFar(draft: Model, target: Model, prompt: seq<int>, k: int, out: seq<int>) {
    && (prompt != [] && k >= 0 ==> GreedyPath(target.next, prompt, out))
    && (prompt != [] && k < 0 ==> BackPath(target.next, prompt, k, out))
    && (prompt == [] && out != [] && k > 0 ==> WrappedFirst(draft.next, target.next, k, out[0]))
    && (NoRow(target, prompt, k) ==> out == [])
  }

  /** One round: draft, verify, emit. */
  method Round(draft: Model, target: Model, vocabSize: nat, prompt: seq<int>, out0: seq<int>, tokens0: seq<int>, k: int,
               eos: Option<int>)
    returns (out: seq<int>, tokens: seq<int>, failed: bool, ended: bool, ghost count: nat)
    requires Consistent(draft, vocabSize) && Consistent(target, vocabSize) && tokens0 == prompt + out0
    requires SoFar(draft, target, prompt, k, out0) && NoneIn(eos, out0)
    ensures failed ==> (prompt == [] && k <= 0) || (prompt != [] && NoRow(target, prompt, k))
    ensures NoRow(target, prompt, k) ==> failed
    ensures !failed ==>
              && 1 <= count <= Length(k) + 1 && |out0| < |out| <= |out0| + count && tokens == prompt + out
              && SoFar(draft, target, prompt, k, out) && OnlyLast(eos, out)
              && (ended <==> eos == Some(out[|out| - 1])) && (!ended ==> NoneIn(eos, out))
  {
    out, tokens, failed, ended, count := out0, tokens0, true, false, 0;
    var drafts := Propose(draft, vocabSize, tokens0, Length(k));
    var verified := Verify(target, vocabSize, tokens0, drafts, k);
    if verified.None? { return; }
    var accepted := verified.value;
    failed, count := false, |accepted|;
    out, tokens, ended := Emit(prompt, out0, tokens0, accepted, eos);
    RoundKeeps(draft, target, prompt, k, drafts, out0, accepted, out);
  }

  lemma RoundKeeps(draft: Model, target: Model, prompt: seq<int>, k: int, drafts: seq<int>, out0: seq<int>,
                   accepted: seq<int>, out: seq<int>)
    requires SoFar(draft, target, prompt, k, out0) && 1 <= |accepted| <= Length(k) + 1 && !NoRow(target, prompt, k)
    requires |drafts| == Length(k) && GreedyPath(draft.next, prompt + out0, drafts)
    requires prompt + out0 != [] && k >= 0 ==> GreedyPath(target.next, prompt + out0, accepted)
    requires prompt + out0 != [] && k < 0 ==> BackTakes(target.next, prompt + out0, k, accepted[0])
    requires prompt + out0 == [] && k > 0 ==> Takes(target.next, drafts, accepted[0])
    requires |out0| < |out| <= |out0 + accepted| && out == (out0 + accepted)[..|out|]
    ensures SoFar(draft, target, prompt, k, out)
  {
    if prompt != [] && k >= 0 {
      PathJoin(target.next, prompt, out0, accepted);
      PathPrefix(target.next, prompt, out0 + accepted, |out|);
    } else if prompt != [] {
      assert out == out0 + [accepted[0]];
      BackSnoc(target.next, prompt, k, out0, accepted[0]);
    } else if out0 == [] {
      assert prompt + out0 == [];
      assert out[0] == accepted[0];
    } else {
      assert out[0] == out0[0];
    }
  }

  /** The first max_new_tokens tokens, or all of them when there are fewer. */
  function Truncate(out: seq<int>, maxNewTokens: int): seq<int> {
    if |out| <= Length(maxNewTokens) then out else out[..Length(maxNewTokens)]
  }

  lemma Truncated(draft: Model, target: Model, prompt: seq<int>, maxNewTokens: int, k: int, eos: Option<int>,
                  out: seq<int>)
    requires SoFar(draft, target, prompt, k, out) && OnlyLast(eos, out)
    requires |out| < Length(maxNewTokens) ==> out != [] && eos == Some(out[|out| - 1])
    ensures Answers(draft, target, prompt, maxNewTokens, k, eos, Some(Truncate(out, maxNewTokens)))
  {
    var n := Length(maxNewTokens);
    if |out| > n {
      if prompt != [] && k >= 0 { PathPrefix(target.next, prompt, out, n); }
      if prompt != [] && k < 0 { BackPrefix(target.next, prompt, k, out, n); }
    }
  }

  /** Appends the accepted tokens one by one to both lists, stopping after the end token. */
  method Emit(ghost prompt: seq<int>, out0: seq<int>, tokens0: seq<int>, accepted: seq<int>, eos: Option<int>)
    returns (out: seq<int>, tokens: seq<int>, ended: bool)
    requires accepted != [] && NoneIn(eos, out0) && tokens0 == prompt + out0
    ensures |out0| < |out| <= |out0| + |accepted| && out == (out0 + accepted)[..|out|]
    ensures tokens == prompt + out
    ensures OnlyLast(eos, out) && (ended <==> eos == Some(out[|out| - 1]))
    ensures !ended ==> NoneIn(eos, out)
  {
    out, tokens, ended := out0, tokens0, false;
    for i := 0 to |accepted|
      invariant |out| == |out0| + i && out == (out0 + accepted)[..|out|] && tokens == prompt + out
      invariant NoneIn(eos, out)
    {
      out := out + [accepted[i]];
      tokens := tokens + [accepted[i]];
      if eos == Some(accepted[i]) { return out, tokens, true; }
    }
  }

  // --- exactly when ---------------------------------------------------------------------------

  ghost predicate Right(target: Model, prompt: seq<int>, maxNewTokens: int, eos: Option<int>, r: Option<seq<int>>) {
    r.Some? && GreedyRun(target.next, prompt, maxNewTokens, eos, r.value)
  }

  /** The loop is right for all models if the call is safe; if it is not, there are models for which it is wrong. */
  lemma RightExactly(prompt: seq<int>, maxNewTokens: int, k: int)
    ensures Safe(prompt, maxNewTokens, k) ==>
              forall draft: Model, target: Model, eos: Option<int>, r: Option<seq<int>> ::
                Answers(draft, target, prompt, maxNewTokens, k, eos, r) ==> Right(target, prompt, maxNewTokens, eos, r)
    ensures !Safe(prompt, maxNewTokens, k) ==>
              exists draft: Model, target: Model ::
                Consistent(draft, 2) && Consistent(target, 2)
                && forall r: Option<seq<int>> ::
                     Answers(draft, target, prompt, maxNewTokens, k, None, r) ==>
                       !Right(target, prompt, maxNewTokens, None, r)
  {
    if Safe(prompt, maxNewTokens, k) {
      forall draft: Model, target: Model, eos: Option<int>, r: Option<seq<int>>
             | Answers(draft, target, prompt, maxNewTokens, k, eos, r)
        ensures Right(target, prompt, maxNewTokens, eos, r)
      {
        SafeIsRight(draft, target, prompt, maxNewTokens, k, eos, r);
      }
    } else {
      var draft, target := WrongModels(prompt, maxNewTokens, k);
    }
  }

  lemma SafeIsRight(draft: Model, target: Model, prompt: seq<int>, maxNewTokens: int, k: int, eos: Option<int>,
                    r: Option<seq<int>>)
    requires Safe(prompt, maxNewTokens, k) && Answers(draft, target, prompt, maxNewTokens, k, eos, r)
    ensures Right(target, prompt, maxNewTokens, eos, r)
  {
    if maxNewTokens == 1 && prompt != [] && k == -|prompt| {
      var out := r.value;
      forall j | 0 <= j < |out| ensures Takes(target.next, prompt + out[..j], out[j]) {
        assert BackTakes(target.next, prompt + out[..j], k, out[j]);
        assert prompt + out[..0] == prompt == prompt[..|prompt|];
      }
    }
  }

  /** The model that prefers token 1 exactly after n tokens. */
  function OneAfter(n: nat): Model {
    Model((ts: seq<int>) => if |ts| == n then [0.0, 1.0] else [1.0, 0.0], None)
  }

  lemma OneAfterTakes(n: nat, ts: seq<int>, t: int)
    ensures Takes(OneAfter(n).next, ts, t) ==> t == if |ts| == n then 1 else 0
  {
    var x := Finite(OneAfter(n).next(ts));
    assert x == if |ts| == n then [Fin(0.0), Fin(1.0)] else [Fin(1.0), Fin(0.0)];
    assert Takes(OneAfter(n).next, ts, t) ==> 0 <= t < 2 && !Less(x[t], x[0]) && !Less(x[t], x[1]);
  }

  lemma WrongModels(prompt: seq<int>, maxNewTokens: int, k: int) returns (draft: Model, target: Model)
    requires !Safe(prompt, maxNewTokens, k)
    ensures Consistent(draft, 2) && Consistent(target, 2)
    ensures forall r: Option<seq<int>> ::
              Answers(draft, target, prompt, maxNewTokens, k, None, r) ==> !Right(target, prompt, maxNewTokens, None, r)
  {
    draft := OneAfter(0);
    target := OneAfter(if prompt != [] && k == -|prompt| then 1 else |prompt|);
    forall r: Option<seq<int>> | Answers(draft, target, prompt, maxNewTokens, k, None, r)
      ensures !Right(target, prompt, maxNewTokens, None, r)
    {
      if r.Some? { WrongAnswer(draft, target, prompt, maxNewTokens, k, r.value); }
    }
  }

  lemma WrongAnswer(draft: Model, target: Model, prompt: seq<int>, maxNewTokens: int, k: int, out: seq<int>)
    requires !Safe(prompt, maxNewTokens, k)
    requires target == OneAfter(if prompt != [] && k == -|prompt| then 1 else |prompt|)
    requires Answers(draft, target, prompt, maxNewTokens, k, None, Some(out))
    ensures !GreedyPath(target.next, prompt, out)
  {
    if prompt == [] {
      EmptyPromptWrong(draft.next, k, out);
    } else {
      var j := if k == -|prompt| then 1 else 0;
      var ts := prompt + out[..j];
      assert BackTakes(target.next, ts, k, out[j]);
      OneAfterTakes(if k == -|prompt| then 1 else |prompt|, ts[..Back(|ts|, k)], out[j]);
      OneAfterTakes(if k == -|prompt| then 1 else |prompt|, ts, out[j]);
    }
  }

  /** On an empty prompt the first token comes from after the whole draft. */
  lemma EmptyPromptWrong(draft: Provider, k: int, out: seq<int>)
    requires k > 0 && out != [] && WrappedFirst(draft, OneAfter(0).next, k, out[0])
    ensures !GreedyPath(OneAfter(0).next, [], out)
  {
    var d: seq<int> :| |d| == k && GreedyPath(draft, [], d) && Takes(OneAfter(0).next, d, out[0]);
    OneAfterTakes(0, d, out[0]);
    var none: seq<int> := [];
    OneAfterTakes(0, none + out[..0], out[0]);
  }

  // --- lossless -------------------------------------------------------------------------------

  /** Greedy speculative decoding returns exactly what plain greedy decoding of the target returns, whatever the
      draft proposes, for every safe call. */
  method SpeculativeEqualsDecode(draft: Model, target: Model, vocabSize: nat, prompt: seq<int>, maxNewTokens: int,
                                 k: int, eos: Option<int>, lse: Normaliser)
    returns (fast: seq<int>, plain: seq<int>)
    requires Consistent(draft, vocabSize) && Consistent(target, vocabSize) && Safe(prompt, maxNewTokens, k)
    ensures fast == plain && GreedyRun(target.next, prompt, maxNewTokens, eos, plain)
  {
    ghost var stop, state, counts;
    plain, stop, state := DecodeLoop([target.next], vocabSize, prompt, maxNewTokens, eos, None, None, Greedy, lse);
    DecodeIsGreedy(target.next, vocabSize, prompt, maxNewTokens, eos, plain, stop);
    var r;
    r, counts := SpeculativeDecode(draft, target, vocabSize, prompt, maxNewTokens, k, eos);
    SafeIsRight(draft, target, prompt, maxNewTokens, k, eos, r);
    fast := r.value;
    GreedyRunUnique(target.next, prompt, maxNewTokens, eos, fast, plain);
  }
}
