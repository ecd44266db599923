/** Counting facts: sequences without repetitions, and the pigeonhole principle. */
module Counting {
  function UpTo(n: nat): set<nat> {
    if n == 0 then {} else UpTo(n - 1) + {n - 1}
  }

  lemma {:induction false} UpToIs(n: nat)
    ensures |UpTo(n)| == n && forall k: nat :: k in UpTo(n) <==> k < n
  {
    if n > 0 {
      UpToIs(n - 1);
      assert n - 1 !in UpTo(n - 1);
    }
  }

  function Elements<T>(s: seq<T>): set<T> {
    set x | x in s
  }

  lemma Regroup<T>(a: seq<T>, b: seq<T>, c: seq<T>)
    ensures a + (b + c) == (a + b) + c
  {}

  lemma PrefixAt<T>(s: seq<T>, n: nat, i: nat)
    requires i < n <= |s|
    ensures s[..n][i] == s[i]
  {}

  lemma SuffixAt<T>(s: seq<T>, n: nat, i: nat)
    requires n + i < |s|
    ensures s[n..][i] == s[n + i]
  {}

  lemma SplitAt<T>(s: seq<T>, n: nat)
    requires n <= |s|
    ensures s == s[..n] + s[n..]
  {}

  /** Both ends of walking along two sequences of one length, taking from the first and leaving the second. */
  lemma HalfwayAtEnds<T>(s: seq<T>, t: seq<T>)
    requires |s| == |t|
    ensures s[..0] + t[0..] == t && s[..|s|] + t[|s|..] == s && s[..|s|] + [] == s && s[..0] + [] == []
  {}

  ghost predicate Distinct<T>(s: seq<T>) {
    forall k, l :: 0 <= k < l < |s| ==> s[k] != s[l]
  }

  lemma {:induction false} DistinctSize<T>(s: seq<T>)
    requires Distinct(s)
    ensures |Elements(s)| == |s|
  {
    if s != [] {
      var rest, x := s[..|s| - 1], s[|s| - 1];
      DistinctSize(rest);
      assert Elements(s) == Elements(rest) + {x};
    }
  }

  lemma {:induction false} SubsetSize<T>(a: set<T>, b: set<T>)
    requires a <= b
    ensures |a| <= |b|
  {
    if a != {} {
      var x :| x in a;
      SubsetSize(a - {x}, b - {x});
    }
  }

  /** n distinct values below n are all of them. */
  lemma DistinctBelow(s: seq<nat>, n: nat, i: nat)
    requires Distinct(s) && |s| == n && i < n && forall k :: 0 <= k < |s| ==> s[k] < n
    ensures i in s
  {
    UpToIs(n);
    DistinctSize(s);
    if i !in Elements(s) {
      assert Elements(s) <= UpTo(n) - {i};
      SubsetSize(Elements(s), UpTo(n) - {i});
    }
  }

  /** More values than there are places to put them: two coincide. */
  lemma {:induction false} Pigeonhole(s: seq<nat>, m: nat) returns (k: nat, l: nat)
    requires |s| > m && forall i :: 0 <= i < |s| ==> s[i] < m
    ensures k < l < |s| && s[k] == s[l]
  {
    UpToIs(m);
    if Distinct(s) {
      DistinctSize(s);
      SubsetSize(Elements(s), UpTo(m));
    }
    k, l :| 0 <= k < l < |s| && s[k] == s[l];
  }

  /** The elements of a set in some order. */
  method SetToSeq<T(==)>(s: set<T>) returns (q: seq<T>)
    ensures forall x :: x in q <==> x in s
  {
    q := [];
    var todo := s;
    while todo != {}
      invariant todo <= s
      invariant forall x :: x in q <==> x in s && x !in todo
      decreases todo
    {
      var x :| x in todo;
      todo := todo - {x};
      q := q + [x];
    }
  }

  /** The same as a value. */
  ghost function Listing<T(!new)>(all: set<T>): (r: seq<T>)
    ensures forall x :: x in r <==> x in all
  {
    if all == {} then []
    else
      var x :| x in all;
      [x] + Listing(all - {x})
  }

  // --- numberings -----------------------------------------------------------------------

  /** Different things have different numbers. */
  ghost predicate Injective<K(!new)>(num: map<K, nat>) {
    forall p, q :: p in num && q in num && num[p] == num[q] ==> p == q
  }

  /** What had a number still has it. */
  ghost predicate Keeps<K(!new)>(num: map<K, nat>, more: map<K, nat>) {
    forall q :: q in num ==> q in more && more[q] == num[q]
  }

  /** Different things have different numbers, all below their count. */
  ghost predicate Compact<K(!new)>(num: map<K, nat>) {
    Injective(num) && forall q :: q in num ==> num[q] < |num|
  }

  /** Giving one more thing the next free number. */
  lemma CompactGrows<K(!new)>(num: map<K, nat>, more: map<K, nat>, x: K)
    requires Compact(num) && x !in num && more == num[x := |num|]
    ensures Compact(more) && |more| == |num| + 1 && Keeps(num, more)
  {
    assert more.Keys == num.Keys + {x};
    assert |more| == |more.Keys| == |num.Keys| + 1;
  }

  // --- how many sets there are ----------------------------------------------------------

  /** 2 to the n. */
  function Pow2(n: nat): nat {
    if n == 0 then 1 else 2 * Pow2(n - 1)
  }

  function Without(sets: set<set<nat>>, x: nat): set<set<nat>> {
    set S | S in sets :: S - {x}
  }

  /** Taking x out of sets that all have it leaves as many different sets. */
  lemma {:induction false} WithoutSame(sets: set<set<nat>>, x: nat)
    requires forall S :: S in sets ==> x in S
    ensures |Without(sets, x)| == |sets|
    decreases sets
  {
    if sets == {} {
      assert Without(sets, x) == {};
    } else {
      var T :| T in sets;
      var rest := sets - {T};
      WithoutSame(rest, x);
      forall S | S in rest ensures S - {x} != T - {x} {
        assert S == (S - {x}) + {x} && T == (T - {x}) + {x};
      }
      assert Without(sets, x) == Without(rest, x) + {T - {x}};
    }
  }

  ghost predicate AllBelow(sets: set<set<nat>>, n: nat) {
    forall S :: S in sets ==> forall q :: q in S ==> q < n
  }

  /** There are at most 2 to the n sets of numbers below n. */
  lemma {:induction false} SetsBelow(sets: set<set<nat>>, n: nat)
    requires AllBelow(sets, n)
    ensures |sets| <= Pow2(n)
    decreases n
  {
    if n == 0 {
      forall S | S in sets ensures S == {} {}
      assert sets <= {{}};
      SubsetSize(sets, {{}});
    } else {
      var have := set S | S in sets && n - 1 in S;
      WithoutSame(have, n - 1);
      SetsBelow(sets - have, n - 1);
      SetsBelow(Without(have, n - 1), n - 1);
      assert sets == have + (sets - have);
    }
  }
}
