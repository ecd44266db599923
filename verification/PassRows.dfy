/** Which rows one target pass reads.  The pass runs over the tokens so far and the draft behind them, and position j of
    the draft is verified against row n - 1 + j, where n is the number of tokens so far; a negative index counts from
    the end. */
module PassRows {
  import opened Options

  /** How often a loop over a range of n goes round: a negative n counts as zero. */
  function Length(n: int): nat {
    if n < 0 then 0 else n
  }

  /** Indexing a list: negative positions count from the end, anything else outside fails. */
  function At<T>(rows: seq<T>, i: int): Option<T> {
    if 0 <= i < |rows| then Some(rows[i])
    else if -|rows| <= i < 0 then Some(rows[|rows| + i])
    else None
  }

  /** With a negative k nothing is drafted and the bonus row's index lies k rows before the last one, or wraps around:
      the row belongs to only the first Back(n, k) of n tokens. */
  function Back(n: nat, k: int): int {
    if n + k >= 1 then n + k else 2 * n + k
  }

  /** The text behind which the target's row is read to verify the next token of ahead after ctx: ctx itself, but all
      that has been drafted when there is nothing before it. */
  function VerifyContext<T>(ctx: seq<T>, ahead: seq<T>): seq<T> {
    if ctx == [] then ahead else ctx
  }

  /** The text behind which the bonus row is read once everything drafted has been accepted; None when there is no such
      row. */
  function BonusContext<T>(ctx: seq<T>, k: int): (r: Option<seq<T>>)
    ensures k >= 0 && ctx != [] ==> r == Some(ctx)
    ensures ctx == [] ==> r == None
  {
    var back := Back(|ctx|, if k < 0 then k else 0);
    assert ctx[..|ctx|] == ctx;
    if 1 <= back <= |ctx| then Some(ctx[..back]) else None
  }

  /** The rows of a pass over ctx and then drafts. */
  ghost predicate RowsOf<T, R>(row: seq<T> -> R, ctx: seq<T>, drafts: seq<T>, rows: seq<R>) {
    |rows| == |ctx| + |drafts| && forall i :: 0 <= i < |rows| ==> rows[i] == row((ctx + drafts)[..i + 1])
  }

  /** Position j reads the row behind its own context. */
  lemma VerifyRowIs<T, R>(row: seq<T> -> R, ctx: seq<T>, drafts: seq<T>, rows: seq<R>, j: nat)
    requires RowsOf(row, ctx, drafts, rows) && j < |drafts|
    ensures At(rows, |ctx| - 1 + j) == Some(row(VerifyContext(ctx + drafts[..j], drafts[j..])))
  {
    if ctx == [] && j == 0 {
      assert (ctx + drafts)[..|drafts|] == drafts == drafts[j..];
      assert ctx + drafts[..j] == [];
    } else {
      assert (ctx + drafts)[..|ctx| + j] == ctx + drafts[..j];
    }
  }

  /** ... and the bonus row is the one behind its context, or there is none. */
  lemma BonusRowIs<T, R>(row: seq<T> -> R, ctx: seq<T>, drafts: seq<T>, rows: seq<R>, k: int)
    requires RowsOf(row, ctx, drafts, rows) && |drafts| == Length(k)
    ensures At(rows, |ctx| - 1 + k) ==
            match BonusContext(ctx + drafts, k) case Some(c) => Some(row(c)) case None => None
  {
    var all := ctx + drafts;
    assert all[..|all|] == all;
  }

  /** What the caller can check beforehand: something in the prompt and no negative k.  (Asked for one token only, a
      negative k as large as the prompt is long wraps to the right row by accident.) */
  predicate Safe<T(==)>(prompt: seq<T>, maxNewTokens: int, k: int) {
    || maxNewTokens <= 0
    || (prompt != [] && k >= 0)
    || (prompt != [] && maxNewTokens == 1 && k == -|prompt|)
  }
}
