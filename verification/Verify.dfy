/** Scoring extracted records against the truth, and keeping only programs that pass. */
module Verify {
  import opened Options
  import opened RealProducts

  /** A row as the scorer sees it: the set of its (key, value) pairs as strings. */
  type Row = set<(string, string)>

  function Canon<V>(show: V -> string, records: seq<map<string, V>>): (rows: seq<Row>)
    ensures |rows| == |records|
    ensures forall i :: 0 <= i < |records| ==> rows[i] == set k | k in records[i] :: (k, show(records[i][k]))
  {
    if records == [] then []
    else [set k | k in records[0] :: (k, show(records[0][k]))] + Canon(show, records[1..])
  }

  /** s without the first occurrence of x. */
  function RemoveFirst(s: seq<Row>, x: Row): (r: seq<Row>)
    requires x in s
    ensures multiset(r) == multiset(s) - multiset{x}
  {
    if s[0] == x then
      assert s == [s[0]] + s[1..];
      s[1..]
    else
      assert s == [s[0]] + s[1..];
      [s[0]] + RemoveFirst(s[1..], x)
  }

  function Hits(p: seq<Row>, t: seq<Row>): nat {
    |multiset(p) * multiset(t)|
  }

  lemma MatchStep(p: multiset<Row>, t: multiset<Row>, x: Row)
    ensures (p + multiset{x}) * t == if x in t - p * t then p * t + multiset{x} else p * t
  {}

  /** What has been matched so far: as many rows as counted, all taken out of the pool. */
  ghost predicate Matched(seen: multiset<Row>, truth: multiset<Row>, pool: seq<Row>, hits: nat) {
    hits == |seen * truth| && multiset(pool) == truth - seen * truth
  }

  /** Take a truth row away if it equals x. */
  method MatchRow(x: Row, before: seq<Row>, count: nat, ghost seen: multiset<Row>, ghost truth: multiset<Row>)
    returns (pool: seq<Row>, hits: nat)
    requires Matched(seen, truth, before, count)
    ensures Matched(seen + multiset{x}, truth, pool, hits)
  {
    pool, hits := before, count;
    MatchStep(seen, truth, x);
    assert x in before <==> x in multiset(before);
    if x in before {
      pool := RemoveFirst(before, x);
      hits := count + 1;
    }
  }

  /** The matching loop: take a truth row away for every parsed row that equals one. */
  method CountHits(p: seq<Row>, t: seq<Row>) returns (hits: nat)
    ensures hits == Hits(p, t)
  {
    var pool := t;
    hits := 0;
    var i := 0;
    ghost var seen: multiset<Row> := multiset{};
    while i < |p|
      invariant i <= |p| && seen == multiset(p[..i]) && Matched(seen, multiset(t), pool, hits)
    {
      pool, hits := MatchRow(p[i], pool, hits, seen, multiset(t));
      assert p[..i + 1] == p[..i] + [p[i]];
      seen := seen + multiset{p[i]};
      i := i + 1;
    }
    assert p[..i] == p;
  }

  // --- the score -----------------------------------------------------------------------------------

  /** The harmonic mean of precision and recall, computed as the code does; p is not zero. */
  function F1(hits: nat, p: nat, t: nat): real
    requires p > 0
  {
    var precision := hits as real / p as real;
    var recall := if t > 0 then hits as real / t as real else 0.0;
    if precision + recall == 0.0 then 0.0 else 2.0 * precision * recall / (precision + recall)
  }

  method Score(parsed: Option<seq<Row>>, truth: seq<Row>) returns (exact: bool, f1: real)
    ensures parsed.None? || parsed.value == [] ==> !exact && f1 == 0.0
    ensures parsed.Some? && parsed.value != [] ==>
              && exact == (Hits(parsed.value, truth) == |truth| == |parsed.value|)
              && f1 == F1(Hits(parsed.value, truth), |parsed.value|, |truth|)
  {
    if parsed.None? || parsed.value == [] { return false, 0.0; }
    var p := parsed.value;
    var hits := CountHits(p, truth);
    f1 := F1(hits, |p|, |truth|);
    exact := hits == |truth| && |p| == |truth|;
  }

  /** Two records are the same row exactly when they have the same keys and their values show the same. */
  lemma SameRowExactly<V>(show: V -> string, a: map<string, V>, b: map<string, V>)
    ensures Canon(show, [a]) == Canon(show, [b]) <==>
            a.Keys == b.Keys && forall k :: k in a && k in b ==> show(a[k]) == show(b[k])
  {
    var x, y := Canon(show, [a])[0], Canon(show, [b])[0];
    if x == y {
      forall k ensures k in a <==> k in b {
        if k in a { assert (k, show(a[k])) in y; }
        if k in b { assert (k, show(b[k])) in x; }
      }
      forall k | k in a && k in b ensures show(a[k]) == show(b[k]) {
        assert (k, show(a[k])) in y;
      }
    }
  }

  /** The same records up to order, with values compared as they show. */
  ghost predicate SameRecords<V>(show: V -> string, a: seq<map<string, V>>, b: seq<map<string, V>>) {
    multiset(Canon(show, a)) == multiset(Canon(show, b))
  }

  /** Scoring whole records: exact when something was parsed and it is the same records. */
  method VerifyRecords<V>(show: V -> string, parsed: Option<seq<map<string, V>>>, truth: seq<map<string, V>>)
    returns (exact: bool, f1: real)
    ensures exact <==> parsed.Some? && parsed.value != [] && SameRecords(show, parsed.value, truth)
    ensures 0.0 <= f1 <= 1.0 && (f1 == 1.0 <==> exact)
    ensures parsed.Some? && parsed.value != [] ==>
              f1 == F1(Hits(Canon(show, parsed.value), Canon(show, truth)), |parsed.value|, |truth|)
  {
    if parsed.None? || parsed.value == [] { return false, 0.0; }
    var p, t := Canon(show, parsed.value), Canon(show, truth);
    exact, f1 := Score(Some(p), t);
    ScoreIsOneExactly(p, t);
  }

  lemma HarmonicMean(h: real, p: real, t: real, a: real, b: real, f: real)
    requires h > 0.0 && p > 0.0 && t > 0.0
    requires Product(a, p) == h && Product(b, t) == h && Product(f, a + b) == 2.0 * Product(a, b)
    ensures Product(f, p + t) == 2.0 * h
  {
    assert Product(Product(a + b, p), t) == Product(h, p + t) by {
      assert Product(Product(a + b, p), t) == Product(Product(a, p), t) + Product(Product(b, t), p);
    }
    assert Product(f, Product(h, p + t)) == 2.0 * Product(h, h) by {
      assert Product(Product(Product(f, a + b), p), t) == 2.0 * Product(Product(a, p), Product(b, t));
    }
    assert Product(h, Product(f, p + t) - 2.0 * h) == 0.0;
  }

  /** The score is twice the hits over the number of rows on both sides. */
  lemma F1Is(hits: nat, p: nat, t: nat)
    requires p > 0 && (hits > 0 ==> t > 0)
    ensures Product(F1(hits, p, t), p as real + t as real) == 2.0 * hits as real
  {
    if hits > 0 {
      var h, x, y := hits as real, p as real, t as real;
      var a, b := h / x, h / y;
      PositiveQuotient(h, x);
      PositiveQuotient(h, y);
      HarmonicMean(h, x, y, a, b, F1(hits, p, t));
    }
  }

  lemma MeetsAll(a: multiset<Row>, b: multiset<Row>)
    ensures |a * b| <= |a| && (|a * b| == |a| <==> a <= b)
  {
    assert a == a * b + (a - a * b);
    assert |a| == |a * b| + |a - a * b|;
    if |a * b| == |a| { assert a - a * b == multiset{}; assert a * b == a; }
    if a <= b { assert a * b == a; }
  }

  lemma SameRows(p: seq<Row>, t: seq<Row>)
    ensures Hits(p, t) <= |p| && Hits(p, t) <= |t|
    ensures Hits(p, t) == |p| == |t| <==> multiset(p) == multiset(t)
  {
    var a, b := multiset(p), multiset(t);
    assert |a| == |p| && |b| == |t|;
    assert a * b == b * a;
    MeetsAll(a, b);
    MeetsAll(b, a);
  }

  /** exact means equal as multisets of rows; the score lies between 0 and 1 and is 1 exactly then. */
  lemma ScoreIsOneExactly(p: seq<Row>, t: seq<Row>)
    requires p != []
    ensures Hits(p, t) == |t| == |p| <==> multiset(p) == multiset(t)
    ensures 0.0 <= F1(Hits(p, t), |p|, |t|) <= 1.0
    ensures F1(Hits(p, t), |p|, |t|) == 1.0 <==> multiset(p) == multiset(t)
  {
    SameRows(p, t);
    F1Is(Hits(p, t), |p|, |t|);
    Between(F1(Hits(p, t), |p|, |t|), |p| as real + |t| as real, 2.0 * Hits(p, t) as real);
  }

  lemma Between(f: real, n: real, m: real)
    requires n > 0.0 && Product(f, n) == m && 0.0 <= m <= n
    ensures 0.0 <= f <= 1.0 && (f == 1.0 <==> m == n)
  {
    Sign(f, n);
    Sign(1.0 - f, n);
    assert Product(1.0 - f, n) == n - Product(f, n);
  }

  // --- the label-free key -----------------------------------------------------------------------------

  function Counts(rows: seq<Row>): map<Row, nat> {
    map row | row in rows :: multiset(rows)[row]
  }

  lemma CountsSnoc(rows: seq<Row>, row: Row)
    ensures Counts(rows + [row]) == Counts(rows)[row := (if row in Counts(rows) then Counts(rows)[row] else 0) + 1]
  {
    assert multiset(rows + [row]) == multiset(rows) + multiset{row};
    assert row in Counts(rows) <==> row in multiset(rows);
  }

  /** The counting loop. */
  method CountRows(rows: seq<Row>) returns (counter: map<Row, nat>)
    ensures counter == Counts(rows)
  {
    counter := map[];
    var i := 0;
    while i < |rows|
      invariant i <= |rows| && counter == Counts(rows[..i])
    {
      assert rows[..i + 1] == rows[..i] + [rows[i]];
      CountsSnoc(rows[..i], rows[i]);
      counter := counter[rows[i] := (if rows[i] in counter then counter[rows[i]] else 0) + 1];
      i := i + 1;
    }
    assert rows[..i] == rows;
  }

  function RecordsKey(rows: seq<Row>): set<(Row, nat)> {
    Counts(rows).Items
  }

  /** Two record lists have the same key exactly when they are equal as multisets: the agreement of two programs at
      serving time is the same relation as exactness in training. */
  lemma SameKeyExactly(a: seq<Row>, b: seq<Row>)
    ensures RecordsKey(a) == RecordsKey(b) <==> multiset(a) == multiset(b)
  {
    if RecordsKey(a) == RecordsKey(b) {
      forall row: Row ensures multiset(a)[row] == multiset(b)[row] {
        KeyCovers(a, b, row);
        KeyCovers(b, a, row);
      }
    }
    if multiset(a) == multiset(b) {
      forall row: Row ensures row in a <==> row in b {
        assert row in multiset(a) <==> row in multiset(b);
      }
      assert Counts(a) == Counts(b);
    }
  }

  lemma KeyCovers(a: seq<Row>, b: seq<Row>, row: Row)
    requires RecordsKey(a) == RecordsKey(b)
    ensures multiset(a)[row] <= multiset(b)[row]
  {
    if row in a {
      assert (row, Counts(a)[row]) in RecordsKey(a);
      assert (row, multiset(a)[row]) in Counts(b).Items;
    }
  }
}

/** Harvesting: ask, run, score, and keep a program only when it passes; otherwise ask again with the failure. */
module Harvest {
  import opened Options
  import opened Verify

  /** A failed program and what went wrong with it. */
  datatype Failure = Failure(code: string, feedback: string)

  datatype Ran = Ran(parsed: Option<seq<Row>>, error: Option<string>)

  /** The outside world: what the teacher writes for a task and attempt, and what running a program gives. */
  datatype World = World(teach: (nat, nat, Option<Failure>) -> string, run: (nat, nat, string) -> Ran,
                         wrong: real -> string)

  datatype Trajectory = Trajectory(task: nat, code: string, f1: real, failed: Option<Failure>)

  function ScoreOf(parsed: Option<seq<Row>>, truth: seq<Row>): real {
    if parsed.None? || parsed.value == [] then 0.0
    else F1(Hits(parsed.value, truth), |parsed.value|, |truth|)
  }

  function FeedbackOf(w: World, ran: Ran, f1: real): string {
    if ran.error.Some? && ran.error.value != "" then ran.error.value else w.wrong(f1)
  }

  /** What the attempts from number a on come to, after failure last. */
  function Try(w: World, task: nat, truth: seq<Row>, minF1: real, a: nat, attempts: nat,
               last: Option<Failure>): Option<Trajectory>
    decreases attempts - a
  {
    if a >= attempts then None
    else
      var code := w.teach(task, a, last);
      var ran := w.run(task, a, code);
      var f1 := ScoreOf(ran.parsed, truth);
      if f1 >= minF1 then Some(Trajectory(task, code, f1, last))
      else Try(w, task, truth, minF1, a + 1, attempts, Some(Failure(code, FeedbackOf(w, ran, f1))))
  }

  function Attempts(attempts: int): nat {
    if attempts < 1 then 1 else attempts
  }

  /** The trajectories of the first n tasks, in task order. */
  function Kept(w: World, truths: seq<seq<Row>>, minF1: real, attempts: int, n: nat): seq<Trajectory>
    requires n <= |truths|
  {
    if n == 0 then []
    else
      var t := Try(w, n - 1, truths[n - 1], minF1, 0, Attempts(attempts), None);
      Kept(w, truths, minF1, attempts, n - 1) + if t.Some? then [t.value] else []
  }

  /** One task: up to the given number of attempts. */
  method HarvestTask(w: World, task: nat, truth: seq<Row>, minF1: real, attempts: nat) returns (t: Option<Trajectory>)
    ensures t == Try(w, task, truth, minF1, 0, attempts, None)
  {
    var last: Option<Failure> := None;
    var a := 0;
    while a < attempts
      invariant 0 <= a <= attempts
      invariant Try(w, task, truth, minF1, 0, attempts, None) == Try(w, task, truth, minF1, a, attempts, last)
    {
      var code := w.teach(task, a, last);
      var ran := w.run(task, a, code);
      var _, f1 := Score(ran.parsed, truth);
      if f1 >= minF1 { return Some(Trajectory(task, code, f1, last)); }
      last := Some(Failure(code, FeedbackOf(w, ran, f1)));
      a := a + 1;
    }
    t := None;
  }

  method HarvestAll(w: World, truths: seq<seq<Row>>, minF1: real, attempts: int)
    returns (trajectories: seq<Trajectory>, attempted: nat)
    ensures trajectories == Kept(w, truths, minF1, attempts, |truths|) && attempted == |truths|
  {
    trajectories, attempted := [], 0;
    while attempted < |truths|
      invariant attempted <= |truths| && trajectories == Kept(w, truths, minF1, attempts, attempted)
    {
      var t := HarvestTask(w, attempted, truths[attempted], minF1, Attempts(attempts));
      attempted := attempted + 1;
      if t.Some? { trajectories := trajectories + [t.value]; }
    }
  }

  /** A trajectory is the outcome of running its own code in some attempt, scored at least minF1; a failed program is
      recorded exactly when it was not the first attempt. */
  lemma {:induction false} TryPasses(w: World, task: nat, truth: seq<Row>, minF1: real, a: nat, attempts: nat,
                                     last: Option<Failure>)
    returns (k: nat)
    requires Try(w, task, truth, minF1, a, attempts, last).Some?
    ensures var t := Try(w, task, truth, minF1, a, attempts, last).value;
            && a <= k < attempts && t.task == task
            && t.f1 == ScoreOf(w.run(task, k, t.code).parsed, truth) >= minF1
            && (k == a ==> t.failed == last) && (k > a ==> t.failed.Some?)
    decreases attempts - a
  {
    var code := w.teach(task, a, last);
    var ran := w.run(task, a, code);
    var f1 := ScoreOf(ran.parsed, truth);
    k := a;
    if f1 < minF1 {
      k := TryPasses(w, task, truth, minF1, a + 1, attempts, Some(Failure(code, FeedbackOf(w, ran, f1))));
    }
  }

  ghost predicate InTaskOrder(kept: seq<Trajectory>, n: nat) {
    && (forall i :: 0 <= i < |kept| ==> kept[i].task < n)
    && (forall i, j :: 0 <= i < j < |kept| ==> kept[i].task < kept[j].task)
  }

  lemma LastKept(w: World, truths: seq<seq<Row>>, minF1: real, attempts: int, n: nat) returns (last: seq<Trajectory>)
    requires n < |truths|
    ensures Kept(w, truths, minF1, attempts, n + 1) == Kept(w, truths, minF1, attempts, n) + last
    ensures |last| <= 1 && forall i :: 0 <= i < |last| ==> last[i].task == n
  {
    var t := Try(w, n, truths[n], minF1, 0, Attempts(attempts), None);
    last := if t.Some? then [t.value] else [];
    if t.Some? { var k := TryPasses(w, n, truths[n], minF1, 0, Attempts(attempts), None); }
  }

  /** Trajectories come in task order, at most one for each task. */
  lemma {:induction false} KeptInOrder(w: World, truths: seq<seq<Row>>, minF1: real, attempts: int, n: nat)
    requires n <= |truths|
    ensures InTaskOrder(Kept(w, truths, minF1, attempts, n), n)
  {
    if n > 0 {
      KeptInOrder(w, truths, minF1, attempts, n - 1);
      var last := LastKept(w, truths, minF1, attempts, n - 1);
      TaskOrderSnoc(Kept(w, truths, minF1, attempts, n - 1), last, n - 1);
    }
  }

  lemma TaskOrderSnoc(kept: seq<Trajectory>, last: seq<Trajectory>, n: nat)
    requires InTaskOrder(kept, n) && |last| <= 1 && forall i :: 0 <= i < |last| ==> last[i].task == n
    ensures InTaskOrder(kept + last, n + 1)
  {}

  lemma {:induction false} KeptIsTried(w: World, truths: seq<seq<Row>>, minF1: real, attempts: int, n: nat, i: nat)
    requires n <= |truths| && i < |Kept(w, truths, minF1, attempts, n)|
    ensures var t := Kept(w, truths, minF1, attempts, n)[i];
            t.task < n && Try(w, t.task, truths[t.task], minF1, 0, Attempts(attempts), None) == Some(t)
  {
    if i < |Kept(w, truths, minF1, attempts, n - 1)| {
      KeptIsTried(w, truths, minF1, attempts, n - 1, i);
    } else {
      var k := TryPasses(w, n - 1, truths[n - 1], minF1, 0, Attempts(attempts), None);
    }
  }

  /** With the default threshold, everything kept is a program whose run gave exactly the true records. */
  lemma KeptIsExact(w: World, truths: seq<seq<Row>>, attempts: int, i: nat) returns (k: nat)
    requires i < |Kept(w, truths, 1.0, attempts, |truths|)|
    ensures var t := Kept(w, truths, 1.0, attempts, |truths|)[i];
            && t.task < |truths| && k < Attempts(attempts)
            && w.run(t.task, k, t.code).parsed.Some?
            && multiset(w.run(t.task, k, t.code).parsed.value) == multiset(truths[t.task])
  {
    KeptIsTried(w, truths, 1.0, attempts, |truths|, i);
    var t := Kept(w, truths, 1.0, attempts, |truths|)[i];
    k := TryPasses(w, t.task, truths[t.task], 1.0, 0, Attempts(attempts), None);
    ScoreIsOneExactly(w.run(t.task, k, t.code).parsed.value, truths[t.task]);
  }

  /** A task is left out only when every one of its attempts scores below the threshold. */
  lemma {:induction false} LeftOutFails(w: World, task: nat, truth: seq<Row>, minF1: real, a: nat, attempts: nat,
                                        last: Option<Failure>, k: nat) returns (code: string)
    requires Try(w, task, truth, minF1, a, attempts, last).None? && a <= k < attempts
    ensures ScoreOf(w.run(task, k, code).parsed, truth) < minF1
    ensures exists f: Option<Failure> :: code == w.teach(task, k, f)
    decreases attempts - a
  {
    var first := w.teach(task, a, last);
    var ran := w.run(task, a, first);
    if k == a {
      code := first;
    } else {
      code := LeftOutFails(w, task, truth, minF1, a + 1, attempts,
                           Some(Failure(first, FeedbackOf(w, ran, ScoreOf(ran.parsed, truth)))), k);
    }
  }
}
