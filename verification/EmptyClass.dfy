/** What an empty character class does to the simulation: a walk can get to the front of the class and no further, so
    the state set stays alive although that way leads nowhere.  Exactly when this makes the set say too much. */
module EmptyClasses {
  import opened Regex
  import opened NfaModel
  import opened Thompson
  import opened Viability

  /** Reading w[i..j] can end in front of a class of r that matches nothing. */
  ghost predicate StopsAt(r: Re, w: string, i: nat, j: nat)
    decreases r, 0
  {
    match r
    case Eps => false
    case Sym(pred) => i == j && forall c: char :: !pred(c)
    case Cat(x, y) => StopsAt(x, w, i, j) || exists m: nat :: In(x, w, i, m) && StopsAt(y, w, m, j)
    case Alt(rs) => (rs == [] && i == j) || exists b :: 0 <= b < |rs| && StopsAt(rs[b], w, i, j)
    case Star(x) => StopsRound(x, w, i, j)
    case Plus(x) => StopsRound(x, w, i, j)
    case Opt(x) => StopsAt(x, w, i, j)
  }

  /** The same after going round a loop body any number of times. */
  ghost predicate StopsRound(x: Re, w: string, i: nat, j: nat)
    decreases x, 1
  {
    exists n: nat, m: nat :: Power(x, n, w, i, m) && StopsAt(x, w, m, j)
  }

  ghost predicate Stops(r: Re, w: string) {
    StopsAt(r, w, 0, |w|)
  }

  /** Some word of r starts with w. */
  ghost predicate IsPrefix(r: Re, w: string) {
    exists v: string :: Matches(r, w + v)
  }

  /** w leads to an empty class and to nothing else. */
  ghost predicate Misleads(r: Re, w: string) {
    Stops(r, w) && !IsPrefix(r, w)
  }

  /** Without an empty class there is nowhere to stop. */
  lemma {:induction false} InhabitedNeverStops(r: Re, w: string, i: nat, j: nat)
    requires Inhabited(r)
    ensures !StopsAt(r, w, i, j)
    decreases r
  {
    match r
    case Eps =>
    case Sym(_) =>
    case Cat(x, y) =>
      InhabitedNeverStops(x, w, i, j);
      forall m: nat ensures !StopsAt(y, w, m, j) { InhabitedNeverStops(y, w, m, j); }
    case Alt(rs) =>
      forall b | 0 <= b < |rs| ensures !StopsAt(rs[b], w, i, j) { InhabitedNeverStops(rs[b], w, i, j); }
    case Star(x) =>
      forall m: nat ensures !StopsAt(x, w, m, j) { InhabitedNeverStops(x, w, m, j); }
      assert !StopsRound(x, w, i, j);
    case Plus(x) =>
      forall m: nat ensures !StopsAt(x, w, m, j) { InhabitedNeverStops(x, w, m, j); }
      assert !StopsRound(x, w, i, j);
    case Opt(x) => InhabitedNeverStops(x, w, i, j);
  }

  // --- a walk into a stuck state stops in front of an empty class -----------------------------

  lemma StuckPath(g: Graph, w: string, q: nat, i: nat, t: nat, j: nat, n: nat)
    requires Stuck(g, q) && Path(g, w, q, i, t, j, n)
    ensures n == 0 && q == t && i == j
  {
    if n > 0 { var m, k := PathStep(g, w, q, i, t, j, n); }
  }

  lemma LinkedNotStuck(g: Graph, q: nat, T: set<nat>, t: nat)
    requires Links(g, q, T) && Stuck(g, t) && T != {}
    ensures q != t
  {}

  /** Every walk into a fragment that ends in a stuck state either stops inside, in front of an empty class, or reads a
      word of the fragment up to its accept state and goes on from there. */
  lemma {:induction false} SoundStop(g: Graph, f: Frag, w: string, i: nat, t: nat, j: nat, n: nat)
    returns (stop: bool, m: nat, k: nat)
    requires Wired(g, f) && Stuck(g, t) && Path(g, w, Start(f), i, t, j, n)
    ensures stop ==> StopsAt(Erase(f), w, i, j)
    ensures !stop ==> In(Erase(f), w, i, m) && Path(g, w, Accept(f), m, t, j, k) && k <= n
    decreases f, n, 1
  {
    stop, m, k := false, i, n;
    match f
    case FEps(_) =>
    case FSym(s, pred, a) =>
      if n == 0 {
        stop := true;
        SymStops(g, s, pred, a);
      } else {
        var q', i' := PathStep(g, w, s, i, t, j, n);
        m, k := i', n - 1;
      }
    case FCat(_, _) => stop, m, k := SoundStopCat(g, f, w, i, t, j, n);
    case FAlt(_, _, _) => stop, m, k := SoundStopAlt(g, f, w, i, t, j, n);
    case FStar(_, _, _) => stop, m, k := SoundStopStar(g, f, w, i, t, j, n);
    case FPlus(s, a, x) =>
      LinkedNotStuck(g, s, {Start(x)}, t);
      var q' := LinkStep(g, w, s, {Start(x)}, i, t, j, n);
      var c;
      stop, m, k, c := SoundStopLoop(g, f, x, a, w, i, t, j, n - 1);
    case FOpt(_, _, _) => stop, m, k := SoundStopOpt(g, f, w, i, t, j, n);
  }

  lemma SymStops(g: Graph, s: nat, pred: CharPred, a: nat)
    requires Stuck(g, s) && g.sym[s] == [Arrow(pred, a)]
    ensures forall c: char :: !pred(c)
  {
    assert g.sym[s][0] == Arrow(pred, a);
  }

  lemma {:induction false} SoundStopCat(g: Graph, f: Frag, w: string, i: nat, t: nat, j: nat, n: nat)
    returns (stop: bool, m: nat, k: nat)
    requires f.FCat? && Wired(g, f) && Stuck(g, t) && Path(g, w, Start(f), i, t, j, n)
    ensures stop ==> StopsAt(Erase(f), w, i, j)
    ensures !stop ==> In(Erase(f), w, i, m) && Path(g, w, Accept(f), m, t, j, k) && k <= n
    decreases f, n, 0
  {
    var FCat(x, y) := f;
    stop, m, k := SoundStop(g, x, w, i, t, j, n);
    if !stop {
      LinkedNotStuck(g, Accept(x), {Start(y)}, t);
      var q' := LinkStep(g, w, Accept(x), {Start(y)}, m, t, j, k);
      var m1 := m;
      stop, m, k := SoundStop(g, y, w, m1, t, j, k - 1);
      CatStops(Erase(x), Erase(y), w, i, m1, m, j, stop);
    }
  }

  lemma CatStops(x: Re, y: Re, w: string, i: nat, m1: nat, m: nat, j: nat, stop: bool)
    requires In(x, w, i, m1) && if stop then StopsAt(y, w, m1, j) else In(y, w, m1, m)
    ensures if stop then StopsAt(Cat(x, y), w, i, j) else In(Cat(x, y), w, i, m)
  {}

  lemma {:induction false} SoundStopAlt(g: Graph, f: Frag, w: string, i: nat, t: nat, j: nat, n: nat)
    returns (stop: bool, m: nat, k: nat)
    requires f.FAlt? && Wired(g, f) && Stuck(g, t) && Path(g, w, Start(f), i, t, j, n)
    ensures stop ==> StopsAt(Erase(f), w, i, j)
    ensures !stop ==> In(Erase(f), w, i, m) && Path(g, w, Accept(f), m, t, j, k) && k <= n
    decreases f, n, 0
  {
    var b;
    stop, b := AltStopEnter(g, f, w, i, t, j, n);
    m, k := i, n;
    if !stop {
      stop, m, k := SoundStop(g, f.branches[b], w, i, t, j, n - 1);
      if stop { AltStops(f, b, w, i, j); } else { k := AltStopLeave(g, f, b, w, i, m, t, j, k); }
    }
  }

  /** The branch a walk to a stuck state takes; without branches it has stopped. */
  lemma AltStopEnter(g: Graph, f: Frag, w: string, i: nat, t: nat, j: nat, n: nat) returns (stop: bool, b: nat)
    requires f.FAlt? && Wired(g, f) && Stuck(g, t) && Path(g, w, Start(f), i, t, j, n)
    ensures stop ==> StopsAt(Erase(f), w, i, j)
    ensures !stop ==> n > 0 && b < |f.branches| && Path(g, w, Start(f.branches[b]), i, t, j, n - 1)
  {
    stop, b := f.branches == [], 0;
    if stop {
      assert Stuck(g, f.s);
      StuckPath(g, w, f.s, i, t, j, n);
    } else {
      assert Start(f.branches[0]) in Starts(f.branches);
      LinkedNotStuck(g, f.s, Starts(f.branches), t);
      var q := LinkStep(g, w, f.s, Starts(f.branches), i, t, j, n);
      b :| 0 <= b < |f.branches| && q == Start(f.branches[b]);
    }
  }

  lemma AltStops(f: Frag, b: nat, w: string, i: nat, j: nat)
    requires f.FAlt? && b < |f.branches| && StopsAt(Erase(f.branches[b]), w, i, j)
    ensures StopsAt(Erase(f), w, i, j)
  {
    assert StopsAt(EraseAll(f.branches)[b], w, i, j);
  }

  lemma AltStopLeave(g: Graph, f: Frag, b: nat, w: string, i: nat, m: nat, t: nat, j: nat, n: nat) returns (k: nat)
    requires f.FAlt? && Wired(g, f) && Stuck(g, t) && b < |f.branches| && In(Erase(f.branches[b]), w, i, m)
    requires Path(g, w, Accept(f.branches[b]), m, t, j, n)
    ensures In(Erase(f), w, i, m) && Path(g, w, f.a, m, t, j, k) && k < n
  {
    LinkedNotStuck(g, Accept(f.branches[b]), {f.a}, t);
    var q := LinkStep(g, w, Accept(f.branches[b]), {f.a}, m, t, j, n);
    AltIn(f, b, w, i, m);
    k := n - 1;
  }

  lemma {:induction false} SoundStopStar(g: Graph, f: Frag, w: string, i: nat, t: nat, j: nat, n: nat)
    returns (stop: bool, m: nat, k: nat)
    requires f.FStar? && Wired(g, f) && Stuck(g, t) && Path(g, w, Start(f), i, t, j, n)
    ensures stop ==> StopsAt(Erase(f), w, i, j)
    ensures !stop ==> In(Erase(f), w, i, m) && Path(g, w, Accept(f), m, t, j, k) && k <= n
    decreases f, n, 0
  {
    var FStar(s, a, x) := f;
    LinkedNotStuck(g, s, {Start(x), a}, t);
    var q' := LinkStep(g, w, s, {Start(x), a}, i, t, j, n);
    if q' == a {
      stop, m, k := false, i, n - 1;
      assert Power(Erase(x), 0, w, i, i);
    } else {
      var c;
      stop, m, k, c := SoundStopLoop(g, f, x, a, w, i, t, j, n - 1);
    }
  }

  lemma {:induction false} SoundStopOpt(g: Graph, f: Frag, w: string, i: nat, t: nat, j: nat, n: nat)
    returns (stop: bool, m: nat, k: nat)
    requires f.FOpt? && Wired(g, f) && Stuck(g, t) && Path(g, w, Start(f), i, t, j, n)
    ensures stop ==> StopsAt(Erase(f), w, i, j)
    ensures !stop ==> In(Erase(f), w, i, m) && Path(g, w, Accept(f), m, t, j, k) && k <= n
    decreases f, n, 0
  {
    var FOpt(s, a, x) := f;
    LinkedNotStuck(g, s, {Start(x), a}, t);
    var q' := LinkStep(g, w, s, {Start(x), a}, i, t, j, n);
    if q' == a {
      stop, m, k := false, i, n - 1;
    } else {
      stop, m, k := SoundStop(g, x, w, i, t, j, n - 1);
      if !stop {
        LinkedNotStuck(g, Accept(x), {a}, t);
        var q'' := LinkStep(g, w, Accept(x), {a}, m, t, j, k);
        k := k - 1;
      }
    }
  }

  /** A walk round a loop body stops in some round or leaves after at least one. */
  lemma {:induction false} SoundStopLoop(g: Graph, f: Frag, x: Frag, a: nat, w: string, i: nat, t: nat, j: nat, n: nat)
    returns (stop: bool, m: nat, k: nat, c: nat)
    requires x < f && Wired(g, x) && Links(g, Accept(x), {Start(x), a})
    requires Stuck(g, t) && Path(g, w, Start(x), i, t, j, n)
    ensures stop ==> StopsRound(Erase(x), w, i, j)
    ensures !stop ==> c >= 1 && Power(Erase(x), c, w, i, m) && Path(g, w, a, m, t, j, k) && k <= n
    decreases f, n, 0
  {
    var m1, k1;
    stop, m1, k1 := SoundStop(g, x, w, i, t, j, n);
    m, k, c := m1, k1, 1;
    if stop {
      assert Power(Erase(x), 0, w, i, i);
    } else {
      LinkedNotStuck(g, Accept(x), {Start(x), a}, t);
      var q' := LinkStep(g, w, Accept(x), {Start(x), a}, m1, t, j, k1);
      if q' == a {
        k := k1 - 1;
        assert Power(Erase(x), 0, w, m1, m1);
      } else {
        stop, m, k, c := SoundStopLoop(g, f, x, a, w, m1, t, j, k1 - 1);
        if stop { OneRoundMore(Erase(x), w, i, m1, j); }
        c := c + 1;
      }
    }
  }

  lemma OneRoundMore(x: Re, w: string, i: nat, m1: nat, j: nat)
    requires In(x, w, i, m1) && StopsRound(x, w, m1, j)
    ensures StopsRound(x, w, i, j)
  {
    var n: nat, m: nat :| Power(x, n, w, m1, m) && StopsAt(x, w, m, j);
    assert Power(x, n + 1, w, i, m);
  }

  // --- and every such text is read by some walk -------------------------------------------------

  /** From q at i some walk ends at j in a stuck state of f before its accept state. */
  ghost predicate Blocks(g: Graph, f: Frag, w: string, q: nat, i: nat, j: nat) {
    exists t: nat :: Inner(f, t) && Stuck(g, t) && Reach(g, w, q, i, t, j)
  }

  lemma BlocksAfter(g: Graph, x: Frag, f: Frag, w: string, q: nat, i: nat, m: nat, k: nat, j: nat)
    requires Blocks(g, x, w, m, k, j) && Reach(g, w, q, i, m, k)
    requires forall t: nat :: Inner(x, t) ==> Inner(f, t)
    ensures Blocks(g, f, w, q, i, j)
  {
    var t: nat :| Inner(x, t) && Stuck(g, t) && Reach(g, w, m, k, t, j);
    ReachJoin(g, w, q, i, m, k, t, j);
  }

  lemma {:induction false} CompleteStop(g: Graph, f: Frag, w: string, i: nat, j: nat)
    requires Wired(g, f) && StopsAt(Erase(f), w, i, j)
    ensures Blocks(g, f, w, Start(f), i, j)
    decreases f, 0
  {
    match f
    case FSym(s, pred, a) =>
      ReachRefl(g, w, s, i);
      assert Inner(f, s) && Stuck(g, s);
    case FCat(x, y) =>
      if StopsAt(Erase(x), w, i, j) {
        CompleteStop(g, x, w, i, j);
        ReachRefl(g, w, Start(x), i);
        BlocksAfter(g, x, f, w, Start(x), i, Start(x), i, j);
      } else {
        var m: nat :| In(Erase(x), w, i, m) && StopsAt(Erase(y), w, m, j);
        Complete(g, x, w, i, m);
        ReachLink(g, w, Accept(x), m, Start(y));
        ReachJoin(g, w, Start(x), i, Accept(x), m, Start(y), m);
        CompleteStop(g, y, w, m, j);
        BlocksAfter(g, y, f, w, Start(x), i, Start(y), m, j);
      }
    case FAlt(s, a, fs) =>
      if fs == [] {
        ReachRefl(g, w, s, i);
        assert Inner(f, s) && Stuck(g, s);
      } else {
        var b :| 0 <= b < |EraseAll(fs)| && StopsAt(EraseAll(fs)[b], w, i, j);
        CompleteStop(g, fs[b], w, i, j);
        ReachLink(g, w, s, i, Start(fs[b]));
        BlocksAfter(g, fs[b], f, w, s, i, Start(fs[b]), i, j);
      }
    case FStar(s, a, x) => CompleteStopLoop(g, f, x, s, a, w, i, j);
    case FPlus(s, a, x) => CompleteStopLoop(g, f, x, s, a, w, i, j);
    case FOpt(s, a, x) =>
      CompleteStop(g, x, w, i, j);
      ReachLink(g, w, s, i, Start(x));
      BlocksAfter(g, x, f, w, s, i, Start(x), i, j);
  }

  lemma {:induction false} CompleteStopLoop(g: Graph, f: Frag, x: Frag, s: nat, a: nat, w: string, i: nat, j: nat)
    requires (f == FStar(s, a, x) || f == FPlus(s, a, x)) && x < f && Wired(g, f) && StopsRound(Erase(x), w, i, j)
    ensures Blocks(g, f, w, s, i, j)
    decreases x, 1
  {
    var n: nat, m: nat :| Power(Erase(x), n, w, i, m) && StopsAt(Erase(x), w, m, j);
    ReachLink(g, w, s, i, Start(x));
    Rounds(g, x, a, n, w, i, m);
    ReachJoin(g, w, s, i, Start(x), i, Start(x), m);
    CompleteStop(g, x, w, m, j);
    BlocksAfter(g, x, f, w, s, i, Start(x), m, j);
  }

  /** Any number of rounds lead back to the start of the body. */
  lemma {:induction false} Rounds(g: Graph, x: Frag, a: nat, n: nat, w: string, i: nat, j: nat)
    requires Wired(g, x) && Links(g, Accept(x), {Start(x), a}) && Power(Erase(x), n, w, i, j)
    ensures Reach(g, w, Start(x), i, Start(x), j)
    decreases n
  {
    if n == 0 {
      ReachRefl(g, w, Start(x), i);
    } else {
      var m: nat :| In(Erase(x), w, i, m) && Power(Erase(x), n - 1, w, m, j);
      Complete(g, x, w, i, m);
      ReachLink(g, w, Accept(x), m, Start(x));
      ReachJoin(g, w, Start(x), i, Accept(x), m, Start(x), m);
      Rounds(g, x, a, n - 1, w, m, j);
      ReachJoin(g, w, Start(x), i, Start(x), m, Start(x), j);
    }
  }

  // --- exactly what the state set says ------------------------------------------------------------

  ghost predicate Alive(g: Graph, f: Frag, w: string) {
    ReadSet(g, EpsClose(g, {Start(f)}), w) != {}
  }

  lemma StopIsAlive(g: Graph, f: Frag, w: string)
    requires Closed(g, f) && Stops(Erase(f), w)
    ensures Alive(g, f, w)
  {
    CompleteStop(g, f, w, 0, |w|);
    var t: nat :| Inner(f, t) && Stuck(g, t) && Reach(g, w, Start(f), 0, t, |w|);
    StartOwned(f);
    WiredInGraph(g, f, Start(f));
    ReadSetIsReach(g, Start(f), w, t);
  }

  lemma AlivePrefix(g: Graph, f: Frag, w: string, v: string)
    requires Closed(g, f) && Alive(g, f, w + v)
    ensures Alive(g, f, w)
  {
    if !Alive(g, f, w) { ReadSetDead(g, EpsClose(g, {Start(f)}), w, v); }
  }

  lemma BlockedIsStop(g: Graph, f: Frag, w: string, t: nat)
    requires Closed(g, f) && Inner(f, t) && Stuck(g, t) && Reach(g, w, Start(f), 0, t, |w|)
    ensures Stops(Erase(f), w)
  {
    var n: nat :| Path(g, w, Start(f), 0, t, |w|, n);
    var stop, m, k := SoundStop(g, f, w, 0, t, |w|, n);
    if !stop { StuckPath(g, w, Accept(f), m, t, |w|, k); }
  }

  lemma AliveEnds(g: Graph, f: Frag, w: string) returns (v: string)
    requires Closed(g, f) && Alive(g, f, w)
    ensures Matches(Erase(f), w + v) || Stops(Erase(f), w + v)
  {
    var t :| t in ReadSet(g, EpsClose(g, {Start(f)}), w);
    ReachableOwned(g, f, w, t);
    StateEnds(g, f, t);
    if CanReach(g, t, Accept(f)) {
      v :| Reach(g, v, t, 0, Accept(f), |v|);
      CompletedMatches(g, f, w, t, v);
    } else {
      var u: nat :| Inner(f, u) && Stuck(g, u) && CanReach(g, t, u);
      v :| Reach(g, v, t, 0, u, |v|);
      ReachConcat(g, w, Start(f), t, v, u);
      BlockedIsStop(g, f, w + v, u);
    }
  }

  /** The state set is non-empty after exactly those texts that can be completed to a word or to a text that ends in
      front of an empty class. */
  lemma AliveExactly(g: Graph, f: Frag, w: string)
    requires Closed(g, f)
    ensures Alive(g, f, w) <==> exists v: string :: Matches(Erase(f), w + v) || Stops(Erase(f), w + v)
  {
    if Alive(g, f, w) { var v := AliveEnds(g, f, w); }
    if v: string :| Matches(Erase(f), w + v) || Stops(Erase(f), w + v) {
      if Matches(Erase(f), w + v) {
        PrefixAlive(g, f, w, v);
      } else {
        StopIsAlive(g, f, w + v);
        AlivePrefix(g, f, w, v);
      }
    }
  }

  /** Where no continuation of w misleads, the state set after w is non-empty exactly if w starts a word. */
  lemma AliveIsPrefix(g: Graph, f: Frag, w: string)
    requires Closed(g, f) && forall v: string :: !Misleads(Erase(f), w + v)
    ensures Alive(g, f, w) <==> IsPrefix(Erase(f), w)
  {
    AliveExactly(g, f, w);
    if v: string :| Stops(Erase(f), w + v) {
      assert !Misleads(Erase(f), w + v);
      PrefixOfPrefix(Erase(f), w, v);
    }
  }

  lemma PrefixOfPrefix(r: Re, w: string, v: string)
    requires IsPrefix(r, w + v)
    ensures IsPrefix(r, w)
  {
    var u: string :| Matches(r, w + v + u);
    assert w + v + u == w + (v + u);
  }

  /** The state set tells the truth about every text if and only if no text misleads. */
  lemma ViableExactly(g: Graph, f: Frag)
    requires Closed(g, f)
    ensures (forall w: string :: Alive(g, f, w) <==> IsPrefix(Erase(f), w)) <==>
            forall w: string :: !Misleads(Erase(f), w)
  {
    if forall w: string :: !Misleads(Erase(f), w) {
      forall w: string ensures Alive(g, f, w) <==> IsPrefix(Erase(f), w) { AliveIsPrefix(g, f, w); }
    } else {
      var w: string :| Misleads(Erase(f), w);
      StopIsAlive(g, f, w);
      assert Alive(g, f, w) && !IsPrefix(Erase(f), w);
    }
  }
}

/** The same for pattern texts. */
module EmptyClassPatterns {
  import opened Regex
  import opened Pattern
  import opened PatternRoundTrip
  import opened EmptyClasses

  /** The language of a pattern text. */
  ghost predicate PatternMatches(tb: Ctype, pattern: string, w: string) {
    Read(tb, pattern).Ok? && Matches(Meaning(tb, Read(tb, pattern).value), w)
  }

  /** Every character class of the pattern matches some character. */
  ghost predicate NoEmptyClass(tb: Ctype, pattern: string) {
    Read(tb, pattern).Ok? && Inhabited(Meaning(tb, Read(tb, pattern).value))
  }

  /** Some match of the pattern starts with w. */
  ghost predicate CanMatch(tb: Ctype, pattern: string, w: string) {
    exists v: string :: PatternMatches(tb, pattern, w + v)
  }

  /** No text leads to an empty class and to nothing else. */
  ghost predicate Honest(tb: Ctype, pattern: string) {
    Read(tb, pattern).Ok? && forall w: string :: !Misleads(Meaning(tb, Read(tb, pattern).value), w)
  }

  /** The same for texts that are not empty: only a pattern that matches nothing at all can tell the two apart. */
  ghost predicate HonestBehind(tb: Ctype, pattern: string) {
    Read(tb, pattern).Ok? && forall w: string :: w != "" ==> !Misleads(Meaning(tb, Read(tb, pattern).value), w)
  }

  lemma NoEmptyClassIsHonest(tb: Ctype, pattern: string)
    requires NoEmptyClass(tb, pattern)
    ensures Honest(tb, pattern)
  {
    var r := Meaning(tb, Read(tb, pattern).value);
    forall w: string ensures !Misleads(r, w) { InhabitedNeverStops(r, w, 0, |w|); }
  }

  lemma CanMatchIsPrefix(tb: Ctype, pattern: string, r: Re, w: string)
    requires Read(tb, pattern).Ok? && r == Meaning(tb, Read(tb, pattern).value)
    ensures CanMatch(tb, pattern, w) <==> IsPrefix(r, w)
  {
    if v: string :| Matches(r, w + v) { assert PatternMatches(tb, pattern, w + v); }
    if v: string :| PatternMatches(tb, pattern, w + v) { assert Matches(r, w + v); }
  }

  // --- two patterns with an empty class --------------------------------------------------------

  function Pair(x: Piece, y: Piece): Tree {
    Tree([Branch([x, y])])
  }

  lemma ReadPair(tb: Ctype, x: Piece, y: Piece)
    requires PieceOk(tb, x) && PieceOk(tb, y)
    ensures Read(tb, PieceText(x) + PieceText(y)) == Ok(Pair(x, y), |PieceText(x) + PieceText(y)|)
    ensures Meaning(tb, Pair(x, y)) == Cat(PieceMeaning(tb, x), PieceMeaning(tb, y))
  {
    var b := Branch([x, y]);
    assert BranchOk(tb, b);
    assert [x, y] == [x] + [y] && [y] == [y] + [];
    PiecesTextCons(x, [y]);
    PiecesTextCons(y, []);
    assert PieceText(y) + "" == PieceText(y);
    ReadText(tb, Pair(x, y));
    PairMeaning(tb, x, y);
  }

  lemma PairMeaning(tb: Ctype, x: Piece, y: Piece)
    ensures Meaning(tb, Pair(x, y)) == Cat(PieceMeaning(tb, x), PieceMeaning(tb, y))
  {
    var b := Branch([x, y]);
    var rs := seq(|b.pieces|, k requires 0 <= k < |b.pieces| => PieceMeaning(tb, b.pieces[k]));
    assert rs[..1] == [PieceMeaning(tb, x)];
    assert BranchMeaning(tb, b) == CatAll(rs);
  }

  function LitPiece(c: char): Piece {
    Piece(Char(Lit(c)), Once)
  }

  function EmptySet(): Atom {
    Char(Set(false, []))
  }

  lemma EmptySetMatchesNothing(tb: Ctype)
    ensures AtomMeaning(tb, EmptySet()).Sym? && forall c: char :: !AtomMeaning(tb, EmptySet()).pred(c)
    ensures AtomOk(tb, EmptySet()) && AtomText(EmptySet()) == "[]"
  {}

  /** After a[] has read its a the simulation is alive, and nothing completes the text. */
  lemma TrailingEmptyClass(tb: Ctype)
    ensures Read(tb, "a[]").Ok? && Misleads(Meaning(tb, Read(tb, "a[]").value), "a") && !HonestBehind(tb, "a[]")
  {
    var x, y := LitPiece('a'), Piece(EmptySet(), Once);
    EmptySetMatchesNothing(tb);
    assert PieceText(x) + PieceText(y) == "a[]";
    ReadPair(tb, x, y);
    NothingBehind(PieceMeaning(tb, x), PieceMeaning(tb, y), "a");
  }

  lemma NothingBehind(x: Re, y: Re, w: string)
    requires x.Sym? && |w| == 1 && x.pred(w[0]) && y.Sym? && forall c: char :: !y.pred(c)
    ensures Misleads(Cat(x, y), w)
  {
    assert In(x, w, 0, 1) && StopsAt(y, w, 1, 1);
    forall v: string ensures !Matches(Cat(x, y), w + v) {
      if Matches(Cat(x, y), w + v) { var m := CatSplit(x, y, w + v, 0, |w + v|); }
    }
  }

  /** []?b has an empty class and is honest all the same: the one text that leads to the class starts a match. */
  lemma OptionalEmptyClass(tb: Ctype)
    ensures !NoEmptyClass(tb, "[]?b") && Honest(tb, "[]?b")
  {
    var x, y := Piece(EmptySet(), ZeroOrOne), LitPiece('b');
    EmptySetMatchesNothing(tb);
    assert PieceText(x) + PieceText(y) == "[]?b";
    ReadPair(tb, x, y);
    OptionIsHonest(AtomMeaning(tb, EmptySet()), PieceMeaning(tb, y), 'b');
  }

  lemma OptionIsHonest(a: Re, b: Re, c: char)
    requires a.Sym? && (forall d: char :: !a.pred(d)) && b.Sym? && b.pred(c)
    ensures !Inhabited(Cat(Opt(a), b)) && forall w: string :: !Misleads(Cat(Opt(a), b), w)
  {
    assert !Inhabited(Opt(a));
    forall w: string ensures !Misleads(Cat(Opt(a), b), w) { WayRound(a, b, c, w); }
  }

  lemma WayRound(a: Re, b: Re, c: char, w: string)
    requires a.Sym? && (forall d: char :: !a.pred(d)) && b.Sym? && b.pred(c)
    ensures !Misleads(Cat(Opt(a), b), w)
  {
    if Stops(Cat(Opt(a), b), w) {
      StopsAhead(Opt(a), b, c, w);
      OptStops(a, w);
      assert w == "" && w + [c] == [c];
      assert In(Opt(a), w + [c], 0, 0) && In(b, w + [c], 0, 1);
      assert Matches(Cat(Opt(a), b), w + [c]);
    }
  }
  lemma StopsAhead(x: Re, y: Re, c: char, w: string)
    requires y.Sym? && y.pred(c) && Stops(Cat(x, y), w)
    ensures StopsAt(x, w, 0, |w|)
  {
    var r := Cat(x, y);
    assert StopsAt(r.left, w, 0, |w|) || exists m: nat :: In(r.left, w, 0, m) && StopsAt(r.right, w, m, |w|);
  }

  lemma OptStops(x: Re, w: string)
    requires x.Sym? && StopsAt(Opt(x), w, 0, |w|)
    ensures w == ""
  {
    var r := Opt(x);
    assert StopsAt(r.body, w, 0, |w|);
  }
}
