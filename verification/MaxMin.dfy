/** Farthest-first selection of a diverse subset, and how close to the best subset it comes. */
module MaxMin {
  import opened Bounds
  import opened Counting
  import opened Options

  type Matrix = seq<seq<real>>

  ghost predicate Square(d: Matrix) {
    forall i :: 0 <= i < |d| ==> |d[i]| == |d|
  }

  ghost predicate Symmetric(d: Matrix)
    requires Square(d)
  {
    forall i, j :: 0 <= i < |d| && 0 <= j < |d| ==> d[i][j] == d[j][i]
  }

  ghost predicate Indices(d: Matrix, sel: seq<nat>) {
    forall t :: 0 <= t < |sel| ==> sel[t] < |d|
  }

  /** The distance from j to the nearest of sel. */
  function Gain(d: Matrix, sel: seq<nat>, j: nat): (g: real)
    requires Square(d) && Indices(d, sel) && sel != [] && j < |d|
    ensures forall t :: 0 <= t < |sel| ==> g <= d[j][sel[t]]
    ensures exists t :: 0 <= t < |sel| && g == d[j][sel[t]]
  {
    var last := d[j][sel[|sel| - 1]];
    if |sel| == 1 then assert last == d[j][sel[0]]; last
    else
      var rest := sel[..|sel| - 1];
      var g := Gain(d, rest, j);
      assert forall t :: 0 <= t < |rest| ==> sel[t] == rest[t];
      if last < g then last else g
  }

  /** sel[t] is a candidate of the greatest gain, the lowest-numbered one. */
  ghost predicate Pick(d: Matrix, sel: seq<nat>, t: nat)
    requires Square(d) && Indices(d, sel) && 0 < t < |sel|
  {
    && sel[t] !in sel[..t]
    && forall j: nat :: j < |d| && j !in sel[..t] ==>
         Gain(d, sel[..t], j) <= Gain(d, sel[..t], sel[t])
         && (Gain(d, sel[..t], j) == Gain(d, sel[..t], sel[t]) ==> sel[t] <= j)
  }

  ghost predicate FarthestFirst(d: Matrix, sel: seq<nat>) {
    Square(d) && Indices(d, sel) && forall t :: 0 < t < |sel| ==> Pick(d, sel, t)
  }

  /** The number of indices kept out of n for a requested k. */
  function Kept(k: int, n: nat): nat {
    if n == 0 then 0 else Max(1, Min(k, n))
  }

  // --- scores -----------------------------------------------------------------------------------

  /** Indices not in sel, ascending. */
  function Remaining(n: nat, sel: seq<nat>): (cand: seq<nat>)
    ensures forall j: nat :: j in cand <==> j < n && j !in sel
    ensures forall a, b :: 0 <= a < b < |cand| ==> cand[a] < cand[b]
  {
    if n == 0 then []
    else if n - 1 in sel then Remaining(n - 1, sel)
    else
      var below := Remaining(n - 1, sel);
      assert forall a :: 0 <= a < |below| ==> below[a] in below;
      below + [n - 1]
  }

  function Gains(d: Matrix, sel: seq<nat>, cand: seq<nat>): (g: seq<real>)
    requires Square(d) && Indices(d, sel) && sel != [] && Indices(d, cand)
    ensures |g| == |cand|
  {
    seq(|cand|, i requires 0 <= i < |cand| => Gain(d, sel, cand[i]))
  }

  function Least(x: seq<real>): (m: real)
    requires x != []
    ensures forall i :: 0 <= i < |x| ==> m <= x[i]
  {
    if |x| == 1 then x[0]
    else
      var m := Least(x[1..]);
      assert forall i :: 1 <= i < |x| ==> x[i] == x[1..][i - 1];
      if x[0] < m then x[0] else m
  }

  function Greatest(x: seq<real>): (m: real)
    requires x != []
    ensures forall i :: 0 <= i < |x| ==> x[i] <= m
  {
    if |x| == 1 then x[0]
    else
      var m := Greatest(x[1..]);
      assert forall i :: 1 <= i < |x| ==> x[i] == x[1..][i - 1];
      if x[0] > m then x[0] else m
  }

  /** Scaling between a least and a greatest value; zero when there is nothing to tell apart. */
  function Scaled(x: real, lo: real, hi: real): real {
    if hi <= lo then 0.0 else (x - lo) / (hi - lo)
  }

  function MinMax(x: seq<real>): (s: seq<real>)
    requires x != []
    ensures |s| == |x|
  {
    seq(|x|, i requires 0 <= i < |x| => Scaled(x[i], Least(x), Greatest(x)))
  }

  lemma ScaledMonotone(x: real, y: real, lo: real, hi: real)
    requires lo <= x <= hi && lo <= y <= hi
    ensures Scaled(x, lo, hi) <= Scaled(y, lo, hi) <==> x <= y
  {
    if hi > lo {
      var w := hi - lo;
      assert (x - lo) / w * w == x - lo;
      assert (y - lo) / w * w == y - lo;
    }
  }

  /** Min-max normalisation does not change which of two values is larger. */
  lemma MinMaxKeepsOrder(x: seq<real>, i: nat, j: nat)
    requires i < |x| && j < |x|
    ensures MinMax(x)[i] <= MinMax(x)[j] <==> x[i] <= x[j]
  {
    ScaledMonotone(x[i], x[j], Least(x), Greatest(x));
  }

  function Mix(alpha: real, q: real, v: real): real {
    alpha * q + (1.0 - alpha) * v
  }

  lemma MixEnds(q: real, v: real)
    ensures Mix(0.0, q, v) == v && Mix(1.0, q, v) == q
  {}

  /** The score of each candidate: its gain, or the mix of normalised quality and normalised gain. */
  function Scores(d: Matrix, quality: Option<seq<real>>, alpha: real, sel: seq<nat>): (s: seq<real>)
    requires Square(d) && Indices(d, sel) && sel != [] && (quality.Some? ==> |quality.value| == |d|)
    ensures |s| == |Remaining(|d|, sel)|
  {
    var cand := Remaining(|d|, sel);
    if cand == [] then []
    else
      assert Indices(d, cand) by { assert forall t :: 0 <= t < |cand| ==> cand[t] in cand; }
      var g := Gains(d, sel, cand);
      if quality.None? then g
      else
        var q, v := MinMax(quality.value), MinMax(g);
        seq(|cand|, i requires 0 <= i < |cand| => Mix(alpha, q[cand[i]], v[i]))
  }

  ghost predicate FirstMax(s: seq<real>, best: nat) {
    best < |s| && forall j :: 0 <= j < |s| ==> s[j] <= s[best] && (s[j] == s[best] ==> best <= j)
  }

  /** sel[t] is the candidate of the first best score. */
  ghost predicate Chosen(d: Matrix, quality: Option<seq<real>>, alpha: real, sel: seq<nat>, t: nat)
    requires Square(d) && Indices(d, sel) && (quality.Some? ==> |quality.value| == |d|) && 0 < t < |sel|
  {
    var cand := Remaining(|d|, sel[..t]);
    exists best: nat :: best < |cand| && FirstMax(Scores(d, quality, alpha, sel[..t]), best) && sel[t] == cand[best]
  }

  ghost predicate Greedy(d: Matrix, quality: Option<seq<real>>, alpha: real, sel: seq<nat>) {
    && Square(d) && Indices(d, sel) && (quality.Some? ==> |quality.value| == |d|)
    && forall t :: 0 < t < |sel| ==> Chosen(d, quality, alpha, sel, t)
  }

  /** The first pick: index 0, or the first of the best quality. */
  ghost predicate Seeded(d: Matrix, quality: Option<seq<real>>, seed: nat) {
    if quality.None? then seed == 0 else FirstMax(quality.value, seed)
  }

  // --- the loop ---------------------------------------------------------------------------------

  /** First index of the greatest score. */
  method ArgMax(score: seq<real>) returns (best: nat)
    requires score != []
    ensures FirstMax(score, best)
  {
    best := 0;
    for i := 1 to |score|
      invariant best < i
      invariant forall j :: 0 <= j < i ==> score[j] <= score[best] && (score[j] == score[best] ==> best <= j)
    {
      if score[i] > score[best] { best := i; }
    }
  }

  lemma NotAllChosen(n: nat, sel: seq<nat>)
    requires |sel| < n && (forall t :: 0 <= t < |sel| ==> sel[t] < n)
    ensures Remaining(n, sel) != []
  {
    UpToIs(n);
    if UpTo(n) <= Elements(sel) {
      SubsetSize(UpTo(n), Elements(sel));
      ElementsSize(sel);
    }
    var j: nat :| j in UpTo(n) && j !in Elements(sel);
    assert j in Remaining(n, sel);
  }

  lemma {:induction false} ElementsSize(s: seq<nat>)
    ensures |Elements(s)| <= |s|
  {
    if s != [] {
      ElementsSize(s[1..]);
      assert Elements(s) == Elements(s[1..]) + {s[0]};
    }
  }

  /** Appending the chosen candidate keeps the selection greedy. */
  lemma ExtendGreedy(d: Matrix, quality: Option<seq<real>>, alpha: real, sel: seq<nat>, best: nat)
    requires Greedy(d, quality, alpha, sel) && Distinct(sel) && sel != []
    requires best < |Remaining(|d|, sel)| && FirstMax(Scores(d, quality, alpha, sel), best)
    ensures var longer := sel + [Remaining(|d|, sel)[best]];
            Greedy(d, quality, alpha, longer) && Distinct(longer)
  {
    var pick := Remaining(|d|, sel)[best];
    assert pick in Remaining(|d|, sel);
    var longer := sel + [pick];
    forall t: nat | 0 < t < |longer| ensures Chosen(d, quality, alpha, longer, t) {
      if t < |sel| {
        ChosenStays(d, quality, alpha, sel, pick, t);
      } else {
        assert longer[..t] == sel && longer[t] == pick;
      }
    }
  }

  lemma ChosenStays(d: Matrix, quality: Option<seq<real>>, alpha: real, sel: seq<nat>, pick: nat, t: nat)
    requires Greedy(d, quality, alpha, sel) && 0 < t < |sel| && pick < |d|
    ensures Indices(d, sel + [pick]) && Chosen(d, quality, alpha, sel + [pick], t)
  {
    assert (sel + [pick])[..t] == sel[..t];
    assert Chosen(d, quality, alpha, sel, t);
  }

  /** The selection; None is the ValueError for a quality vector of the wrong length. */
  method Select(d: Matrix, k: int, quality: Option<seq<real>>, alpha: real) returns (r: Option<seq<nat>>)
    requires Square(d)
    ensures r.None? <==> |d| > 0 && quality.Some? && |quality.value| != |d|
    ensures r.Some? ==> |r.value| == Kept(k, |d|) && Distinct(r.value) && Indices(d, r.value)
    ensures r.Some? && |d| > 0 ==> Seeded(d, quality, r.value[0]) && Greedy(d, quality, alpha, r.value)
  {
    var n := |d|;
    if n == 0 { return Some([]); }
    var keep := Max(1, Min(k, n));
    var seed := 0;
    if quality.Some? {
      if |quality.value| != n { return None; }
      seed := ArgMax(MinMax(quality.value));
      forall j: nat | j < n
        ensures quality.value[j] <= quality.value[seed]
        ensures quality.value[j] == quality.value[seed] ==> seed <= j
      {
        MinMaxKeepsOrder(quality.value, j, seed);
        MinMaxKeepsOrder(quality.value, seed, j);
      }
    }
    var selected: seq<nat> := [seed];
    while |selected| < keep
      invariant 1 <= |selected| <= keep && Distinct(selected) && Indices(d, selected)
      invariant Seeded(d, quality, selected[0]) && Greedy(d, quality, alpha, selected)
      decreases keep - |selected|
    {
      NotAllChosen(n, selected);
      var best := ArgMax(Scores(d, quality, alpha, selected));
      ExtendGreedy(d, quality, alpha, selected, best);
      selected := selected + [Remaining(n, selected)[best]];
    }
    r := Some(selected);
  }

  // --- what pure diversity amounts to --------------------------------------------------------------

  /** A candidate's score when only its gain counts, and when only its quality does. */
  lemma ScoreAt(d: Matrix, quality: Option<seq<real>>, alpha: real, sel: seq<nat>, i: nat)
    returns (cand: seq<nat>, score: real)
    requires Square(d) && Indices(d, sel) && sel != [] && (quality.Some? ==> |quality.value| == |d|)
    requires i < |Remaining(|d|, sel)|
    ensures cand == Remaining(|d|, sel) && Indices(d, cand) && score == Scores(d, quality, alpha, sel)[i]
    ensures quality.None? ==> score == Gain(d, sel, cand[i])
    ensures quality.Some? && alpha == 0.0 ==> score == MinMax(Gains(d, sel, cand))[i]
    ensures quality.Some? && alpha == 1.0 ==> score == MinMax(quality.value)[cand[i]]
  {
    cand := Remaining(|d|, sel);
    score := Scores(d, quality, alpha, sel)[i];
    assert forall t :: 0 <= t < |cand| ==> cand[t] in cand;
    if quality.Some? { MixEnds(MinMax(quality.value)[cand[i]], MinMax(Gains(d, sel, cand))[i]); }
  }

  lemma ScoreOrder(d: Matrix, quality: Option<seq<real>>, alpha: real, sel: seq<nat>, i: nat, j: nat)
    requires Square(d) && Indices(d, sel) && sel != [] && (quality.Some? ==> |quality.value| == |d|)
    requires i < |Remaining(|d|, sel)| && j < |Remaining(|d|, sel)| && (quality.None? || alpha == 0.0)
    ensures Indices(d, Remaining(|d|, sel))
    ensures Scores(d, quality, alpha, sel)[i] <= Scores(d, quality, alpha, sel)[j] <==>
            Gain(d, sel, Remaining(|d|, sel)[i]) <= Gain(d, sel, Remaining(|d|, sel)[j])
  {
    var cand, a := ScoreAt(d, quality, alpha, sel, i);
    var _, b := ScoreAt(d, quality, alpha, sel, j);
    if quality.Some? { MinMaxKeepsOrder(Gains(d, sel, cand), i, j); }
  }

  /** Without quality scores, or with no weight on them, every pick after the first is a farthest one. */
  lemma GreedyIsFarthest(d: Matrix, quality: Option<seq<real>>, alpha: real, sel: seq<nat>)
    requires Greedy(d, quality, alpha, sel) && (quality.None? || alpha == 0.0)
    ensures FarthestFirst(d, sel)
  {
    forall t: nat | 0 < t < |sel| ensures Pick(d, sel, t) {
      var best := ChosenIndex(d, quality, alpha, sel, t);
      forall j: nat | j < |d| && j !in sel[..t]
        ensures Gain(d, sel[..t], j) <= Gain(d, sel[..t], sel[t])
        ensures Gain(d, sel[..t], j) == Gain(d, sel[..t], sel[t]) ==> sel[t] <= j
      {
        FarthestPick(d, quality, alpha, sel[..t], sel[t], best, j);
      }
    }
  }

  lemma ChosenIndex(d: Matrix, quality: Option<seq<real>>, alpha: real, sel: seq<nat>, t: nat) returns (best: nat)
    requires Greedy(d, quality, alpha, sel) && 0 < t < |sel|
    ensures best < |Remaining(|d|, sel[..t])| && sel[t] == Remaining(|d|, sel[..t])[best]
    ensures FirstMax(Scores(d, quality, alpha, sel[..t]), best) && sel[t] !in sel[..t]
  {
    assert Chosen(d, quality, alpha, sel, t);
    best :| best < |Remaining(|d|, sel[..t])| && FirstMax(Scores(d, quality, alpha, sel[..t]), best)
            && sel[t] == Remaining(|d|, sel[..t])[best];
    assert sel[t] in Remaining(|d|, sel[..t]);
  }

  lemma FarthestPick(d: Matrix, quality: Option<seq<real>>, alpha: real, sel: seq<nat>, pick: nat, best: nat, j: nat)
    requires Square(d) && Indices(d, sel) && sel != [] && (quality.Some? ==> |quality.value| == |d|)
    requires quality.None? || alpha == 0.0
    requires best < |Remaining(|d|, sel)| && FirstMax(Scores(d, quality, alpha, sel), best)
    requires pick == Remaining(|d|, sel)[best] && pick < |d| && j < |d| && j !in sel
    ensures Gain(d, sel, j) <= Gain(d, sel, pick) && (Gain(d, sel, j) == Gain(d, sel, pick) ==> pick <= j)
  {
    var cand := Remaining(|d|, sel);
    assert j in cand;
    var i: nat :| i < |cand| && cand[i] == j;
    ScoreOrder(d, quality, alpha, sel, i, best);
    ScoreOrder(d, quality, alpha, sel, best, i);
  }

  /** With all the weight on quality, the picks come in order of quality: nothing left out is better than anything
      picked. */
  lemma GreedyIsBestQuality(d: Matrix, quality: seq<real>, sel: seq<nat>, t: nat, j: nat)
    requires Greedy(d, Some(quality), 1.0, sel) && sel != [] && Seeded(d, Some(quality), sel[0])
    requires t < |sel| && j < |d| && j !in sel[..t]
    ensures quality[j] <= quality[sel[t]]
  {
    if t > 0 {
      var best := ChosenIndex(d, Some(quality), 1.0, sel, t);
      assert j in Remaining(|d|, sel[..t]);
      var i: nat :| i < |Remaining(|d|, sel[..t])| && Remaining(|d|, sel[..t])[i] == j;
      var _, a := ScoreAt(d, Some(quality), 1.0, sel[..t], i);
      var _, b := ScoreAt(d, Some(quality), 1.0, sel[..t], best);
      MinMaxKeepsOrder(quality, j, sel[t]);
    }
  }

  // --- what farthest-first picks are worth -----------------------------------------------------------

  /** Being near more points only makes a point nearer. */
  lemma GainFalls(d: Matrix, sel: seq<nat>, t: nat, u: nat, j: nat)
    requires Square(d) && Indices(d, sel) && 0 < t <= u <= |sel| && j < |d|
    ensures Gain(d, sel[..u], j) <= Gain(d, sel[..t], j)
  {
    var a :| 0 <= a < |sel[..t]| && Gain(d, sel[..t], j) == d[j][sel[..t][a]];
    assert sel[..u][a] == sel[..t][a];
  }

  /** Later picks never gain more than earlier ones. */
  lemma GainsNeverRise(d: Matrix, sel: seq<nat>, t: nat, u: nat)
    requires FarthestFirst(d, sel) && 0 < t <= u < |sel|
    ensures Gain(d, sel[..u], sel[u]) <= Gain(d, sel[..t], sel[t])
  {
    assert Pick(d, sel, t) && Pick(d, sel, u);
    assert sel[u] !in sel[..t] by { assert forall a :: 0 <= a < t ==> sel[..u][a] == sel[a]; }
    GainFalls(d, sel, t, u, sel[u]);
  }

  function LastGain(d: Matrix, sel: seq<nat>): real
    requires Square(d) && Indices(d, sel) && |sel| >= 2
  {
    Gain(d, sel[..|sel| - 1], sel[|sel| - 1])
  }

  /** The last gain is the least distance between two picks. */
  lemma LastGainIsLeastDistance(d: Matrix, sel: seq<nat>)
    requires FarthestFirst(d, sel) && Symmetric(d) && |sel| >= 2
    ensures forall a, b :: 0 <= a < |sel| && 0 <= b < |sel| && a != b ==> LastGain(d, sel) <= d[sel[a]][sel[b]]
    ensures exists a :: 0 <= a < |sel| - 1 && LastGain(d, sel) == d[sel[|sel| - 1]][sel[a]]
  {
    var last := |sel| - 1;
    forall a, b | 0 <= a < b < |sel| ensures LastGain(d, sel) <= d[sel[a]][sel[b]] == d[sel[b]][sel[a]] {
      GainsNeverRise(d, sel, b, last);
      assert sel[..b][a] == sel[a];
    }
    LastGainIsReached(d, sel);
  }

  lemma LastGainIsReached(d: Matrix, sel: seq<nat>)
    requires Square(d) && Indices(d, sel) && |sel| >= 2
    ensures exists a :: 0 <= a < |sel| - 1 && LastGain(d, sel) == d[sel[|sel| - 1]][sel[a]]
  {
    var last := |sel| - 1;
    var a :| 0 <= a < |sel[..last]| && LastGain(d, sel) == d[sel[last]][sel[..last][a]];
    assert sel[..last][a] == sel[a];
  }

  /** Everything not picked is within the last gain of a pick. */
  lemma EverythingIsNear(d: Matrix, sel: seq<nat>, j: nat) returns (center: nat)
    requires FarthestFirst(d, sel) && |sel| >= 2 && j < |d|
    ensures center < |sel| - 1 && (j == sel[center] || d[j][sel[center]] <= LastGain(d, sel))
  {
    var last := |sel| - 1;
    var before := sel[..last];
    if j in before {
      center :| 0 <= center < last && before[center] == j;
    } else {
      assert Pick(d, sel, last);
      center :| 0 <= center < |before| && Gain(d, before, j) == d[j][before[center]];
    }
  }

  /** A distance up to a factor: symmetric, never negative, and the triangle inequality with slack rho. */
  ghost predicate NearMetric(d: Matrix, rho: real) {
    && Square(d) && Symmetric(d) && rho >= 0.5
    && (forall x, y :: 0 <= x < |d| && 0 <= y < |d| ==> d[x][y] >= 0.0)
    && (forall x, y, z :: 0 <= x < |d| && 0 <= y < |d| && 0 <= z < |d| ==> Relaxed(d, rho, x, y, z))
  }

  ghost predicate Relaxed(d: Matrix, rho: real, x: nat, y: nat, z: nat)
    requires Square(d) && x < |d| && y < |d| && z < |d|
  {
    d[x][z] <= rho * (d[x][y] + d[y][z])
  }

  lemma {:induction false} Centers(d: Matrix, sel: seq<nat>, other: seq<nat>) returns (c: seq<nat>)
    requires FarthestFirst(d, sel) && |sel| >= 2 && Indices(d, other)
    ensures |c| == |other|
    ensures forall a :: 0 <= a < |c| ==>
              c[a] < |sel| - 1 && (other[a] == sel[c[a]] || d[other[a]][sel[c[a]]] <= LastGain(d, sel))
  {
    if other == [] {
      c := [];
    } else {
      var rest := other[..|other| - 1];
      c := Centers(d, sel, rest);
      var last := EverythingIsNear(d, sel, other[|other| - 1]);
      c := c + [last];
    }
  }

  lemma LastGainNonNegative(d: Matrix, rho: real, sel: seq<nat>) returns (r: real)
    requires NearMetric(d, rho) && FarthestFirst(d, sel) && |sel| >= 2
    ensures r == LastGain(d, sel) && r >= 0.0
  {
    r := LastGain(d, sel);
    LastGainIsLeastDistance(d, sel);
  }

  lemma TwoNearOneCenter(d: Matrix, rho: real, r: real, x: nat, y: nat, center: nat)
    requires NearMetric(d, rho) && x < |d| && y < |d| && center < |d| && x != y && r >= 0.0
    requires (x == center || d[x][center] <= r) && (y == center || d[y][center] <= r)
    ensures d[x][y] <= 2.0 * rho * r
  {
    if x != center && y != center {
      assert Relaxed(d, rho, x, center, y);
      Slack(rho, r, d[x][center], d[center][y]);
    } else {
      OneSided(rho, r);
    }
  }

  lemma Slack(rho: real, r: real, x: real, y: real)
    requires rho >= 0.0 && x <= r && y <= r
    ensures rho * (x + y) <= 2.0 * rho * r
  {
    assert rho * (x + y) <= rho * (r + r);
  }

  lemma OneSided(rho: real, r: real)
    requires rho >= 0.5 && r >= 0.0
    ensures r <= 2.0 * rho * r
  {
    var m := 2.0 * rho;
    assert (m - 1.0) * r >= 0.0;
  }

  /** No other set of the same size spreads its members farther apart than 2 * rho times what the selection does:
      two of its members lie at most that far from each other. */
  lemma SelectionIsNearBest(d: Matrix, rho: real, sel: seq<nat>, other: seq<nat>) returns (a: nat, b: nat)
    requires NearMetric(d, rho) && FarthestFirst(d, sel) && |sel| >= 2
    requires Indices(d, other) && Distinct(other) && |other| == |sel|
    ensures a < b < |other| && d[other[a]][other[b]] <= 2.0 * rho * LastGain(d, sel)
  {
    var c := Centers(d, sel, other);
    a, b := Pigeonhole(c, |sel| - 1);
    var r := LastGainNonNegative(d, rho, sel);
    TwoNearOneCenter(d, rho, r, other[a], other[b], sel[c[a]]);
  }
}

/** Cosine distance between embedding rows of length one (or zero): a near-metric with slack two. */
module CosineDistance {
  import opened MaxMin

  type Vec = seq<real>

  function Dot(u: Vec, v: Vec): real
    requires |u| == |v|
  {
    if u == [] then 0.0 else u[0] * v[0] + Dot(u[1..], v[1..])
  }

  function Sq(x: real): (s: real)
    ensures s >= 0.0
  {
    x * x
  }

  /** Squared length of u - v. */
  function DiffSq(u: Vec, v: Vec): (s: real)
    requires |u| == |v|
    ensures s >= 0.0
  {
    if u == [] then 0.0 else Sq(u[0] - v[0]) + DiffSq(u[1..], v[1..])
  }

  /** Squared length of u + v. */
  function SumSq(u: Vec, v: Vec): (s: real)
    requires |u| == |v|
    ensures s >= 0.0
  {
    if u == [] then 0.0 else Sq(u[0] + v[0]) + SumSq(u[1..], v[1..])
  }

  lemma {:induction false} SquaresAre(u: Vec, v: Vec)
    requires |u| == |v|
    ensures DiffSq(u, v) == Dot(u, u) + Dot(v, v) - 2.0 * Dot(u, v)
    ensures SumSq(u, v) == Dot(u, u) + Dot(v, v) + 2.0 * Dot(u, v)
  {
    if u != [] {
      SquaresAre(u[1..], v[1..]);
      Binomials(u[0], v[0]);
    }
  }

  lemma Binomials(a: real, b: real)
    ensures Sq(a - b) == a * a + b * b - 2.0 * (a * b)
    ensures Sq(a + b) == a * a + b * b + 2.0 * (a * b)
  {}

  lemma {:induction false} DotSymmetric(u: Vec, v: Vec)
    requires |u| == |v|
    ensures Dot(u, v) == Dot(v, u)
  {
    if u != [] { DotSymmetric(u[1..], v[1..]); }
  }

  lemma {:induction false} DotZero(u: Vec, v: Vec)
    requires |u| == |v| && forall i :: 0 <= i < |u| ==> u[i] == 0.0
    ensures Dot(u, v) == 0.0
  {
    if u != [] { DotZero(u[1..], v[1..]); }
  }

  /** Coordinate by coordinate, (a - c)^2 <= 2 (a - b)^2 + 2 (b - c)^2. */
  lemma {:induction false} SquaresRelaxed(u: Vec, v: Vec, w: Vec)
    requires |u| == |v| == |w|
    ensures DiffSq(u, w) <= 2.0 * (DiffSq(u, v) + DiffSq(v, w))
  {
    if u != [] {
      SquaresRelaxed(u[1..], v[1..], w[1..]);
      RelaxedStep(u[0] - v[0], v[0] - w[0]);
      assert u[0] - w[0] == (u[0] - v[0]) + (v[0] - w[0]);
    }
  }

  lemma RelaxedStep(x: real, y: real)
    ensures Sq(x + y) <= 2.0 * (Sq(x) + Sq(y))
  {
    Binomials(x, y);
    assert Sq(x - y) >= 0.0;
  }

  /** A row after normalisation: of length one, or the zero row. */
  ghost predicate Normal(u: Vec) {
    Dot(u, u) == 1.0 || forall i :: 0 <= i < |u| ==> u[i] == 0.0
  }

  /** norms[i] is the length of row i: the square root of its product with itself. */
  predicate Norms(e: seq<Vec>, norms: seq<real>) {
    |norms| == |e| && forall i :: 0 <= i < |e| ==> norms[i] >= 0.0 && Sq(norms[i]) == Dot(e[i], e[i])
  }

  predicate Rectangular(e: seq<Vec>) {
    forall i, j :: 0 <= i < |e| && 0 <= j < |e| ==> |e[i]| == |e[j]|
  }

  function Divided(u: Vec, c: real): (r: Vec)
    requires c != 0.0
    ensures |r| == |u|
  {
    if u == [] then [] else [u[0] / c] + Divided(u[1..], c)
  }

  /** A row over its length; a zero row stays as it is. */
  function Unit(u: Vec, norm: real): (r: Vec)
    ensures |r| == |u|
  {
    Divided(u, if norm == 0.0 then 1.0 else norm)
  }

  /** n times x is y. */
  predicate Makes(n: real, x: real, y: real) {
    n * x == y
  }

  lemma {:induction false} DotDivided(u: Vec, c: real)
    requires c != 0.0
    ensures Makes(Sq(c), Dot(Divided(u, c), Divided(u, c)), Dot(u, u))
  {
    if u != [] {
      var x, rest := u[0] / c, Dot(Divided(u[1..], c), Divided(u[1..], c));
      DotDivided(u[1..], c);
      assert Divided(u, c)[1..] == Divided(u[1..], c);
      SquareDivided(u[0], c, x, rest);
    }
  }

  lemma SquareDivided(a: real, c: real, x: real, rest: real)
    requires c != 0.0 && x == a / c
    ensures Sq(c) * (x * x + rest) == a * a + Sq(c) * rest
  {
    assert x * c == a;
    assert Sq(c) * (x * x) == (x * c) * (x * c);
  }

  lemma PositiveProduct(a: real, b: real, s: real)
    requires a > 0.0 && b > 0.0 && s == a * b
    ensures s > 0.0
  {}

  lemma SquareOfZero(x: real, s: real)
    requires s == x * x
    ensures s >= 0.0 && (s == 0.0 ==> x == 0.0)
  {
    if x > 0.0 { PositiveProduct(x, x, s); } else if x < 0.0 { PositiveProduct(0.0 - x, 0.0 - x, s); }
  }

  lemma {:induction false} DotOfZero(u: Vec)
    ensures Dot(u, u) >= 0.0 && (Dot(u, u) == 0.0 ==> forall i :: 0 <= i < |u| ==> u[i] == 0.0)
  {
    if u != [] {
      DotOfZero(u[1..]);
      SquareOfZero(u[0], u[0] * u[0]);
      assert forall i :: 0 < i < |u| ==> u[i] == u[1..][i - 1];
    }
  }

  lemma {:induction false} DividedByOne(u: Vec)
    ensures Divided(u, 1.0) == u
  {
    if u != [] { DividedByOne(u[1..]); }
  }

  /** Normalising gives a row of length one, or leaves the zero row. */
  lemma UnitIsNormal(u: Vec, norm: real)
    requires norm >= 0.0 && Sq(norm) == Dot(u, u)
    ensures Normal(Unit(u, norm)) && (norm != 0.0 ==> Dot(Unit(u, norm), Unit(u, norm)) == 1.0)
  {
    if norm == 0.0 {
      DotOfZero(u);
      DividedByOne(u);
    } else {
      DotDivided(u, norm);
      SquareOfZero(norm, Sq(norm));
      UnitFactor(Sq(norm), Dot(Divided(u, norm), Divided(u, norm)));
    }
  }

  lemma UnitFactor(n: real, x: real)
    requires n != 0.0 && Makes(n, x, n)
    ensures x == 1.0
  {}

  function Clip(x: real): real {
    if x < -1.0 then -1.0 else if x > 1.0 then 1.0 else x
  }

  function Distance(u: Vec, v: Vec): real
    requires |u| == |v|
  {
    1.0 - Clip(Dot(u, v))
  }

  /** The pairwise cosine distances of the rows, each divided by its length first. */
  function Distances(e: seq<Vec>, norms: seq<real>): (d: Matrix)
    requires Rectangular(e) && |norms| == |e|
  {
    seq(|e|, i requires 0 <= i < |e| =>
      seq(|e|, j requires 0 <= j < |e| => Distance(Unit(e[i], norms[i]), Unit(e[j], norms[j]))))
  }

  /** Clipping is idle: half the squared difference for two unit rows, one as soon as a row is zero. */
  lemma DistanceIs(u: Vec, v: Vec)
    requires |u| == |v| && Normal(u) && Normal(v)
    ensures 0.0 <= Distance(u, v) <= 2.0
    ensures if Dot(u, u) == 1.0 && Dot(v, v) == 1.0 then 2.0 * Distance(u, v) == DiffSq(u, v)
            else Distance(u, v) == 1.0
  {
    if Dot(u, u) == 1.0 && Dot(v, v) == 1.0 {
      SquaresAre(u, v);
    } else if Dot(u, u) == 1.0 {
      DotSymmetric(u, v);
      DotZero(v, u);
    } else {
      DotZero(u, v);
    }
  }

  lemma DistanceRelaxed(u: Vec, v: Vec, w: Vec)
    requires |u| == |v| == |w| && Normal(u) && Normal(v) && Normal(w)
    ensures Distance(u, w) <= 2.0 * (Distance(u, v) + Distance(v, w))
  {
    DistanceIs(u, v);
    DistanceIs(v, w);
    DistanceIs(u, w);
    SquaresRelaxed(u, v, w);
  }

  /** So a diverse selection by cosine distance is spread at least a quarter as far as the best one, whatever the
      embeddings; and only a zero row has a distance to itself. */
  lemma CosineIsNearMetric(e: seq<Vec>, norms: seq<real>)
    requires Rectangular(e) && Norms(e, norms)
    ensures NearMetric(Distances(e, norms), 2.0)
    ensures forall i :: 0 <= i < |e| ==> Distances(e, norms)[i][i] == if norms[i] == 0.0 then 1.0 else 0.0
  {
    var d := Distances(e, norms);
    forall x, y | 0 <= x < |d| && 0 <= y < |d|
      ensures d[x][y] >= 0.0 && d[x][y] == d[y][x]
      ensures x == y ==> d[x][y] == if norms[x] == 0.0 then 1.0 else 0.0
    {
      EntryIs(e[x], norms[x], e[y], norms[y]);
      SelfIs(e[x], norms[x]);
    }
    forall x, y, z | 0 <= x < |d| && 0 <= y < |d| && 0 <= z < |d| ensures Relaxed(d, 2.0, x, y, z) {
      UnitIsNormal(e[x], norms[x]);
      UnitIsNormal(e[y], norms[y]);
      UnitIsNormal(e[z], norms[z]);
      DistanceRelaxed(Unit(e[x], norms[x]), Unit(e[y], norms[y]), Unit(e[z], norms[z]));
    }
  }

  lemma EntryIs(u: Vec, m: real, v: Vec, n: real)
    requires |u| == |v| && m >= 0.0 && Sq(m) == Dot(u, u) && n >= 0.0 && Sq(n) == Dot(v, v)
    ensures Distance(Unit(u, m), Unit(v, n)) >= 0.0
    ensures Distance(Unit(u, m), Unit(v, n)) == Distance(Unit(v, n), Unit(u, m))
  {
    UnitIsNormal(u, m);
    UnitIsNormal(v, n);
    DistanceIs(Unit(u, m), Unit(v, n));
    DotSymmetric(Unit(u, m), Unit(v, n));
  }

  lemma SelfIs(u: Vec, n: real)
    requires n >= 0.0 && Sq(n) == Dot(u, u)
    ensures Distance(Unit(u, n), Unit(u, n)) == if n == 0.0 then 1.0 else 0.0
  {
    if n == 0.0 {
      DotOfZero(u);
      DividedByOne(u);
      DotZero(u, u);
    } else {
      UnitIsNormal(u, n);
    }
  }
}
