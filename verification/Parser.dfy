/** The recursive-descent parser that builds Thompson fragments in a shared NFA while it moves
    its read position, proved against Pattern.Read and the fragment layouts of Thompson. */
module PatternParser {
  import opened Regex
  import opened Options
  import opened Pattern
  import opened PatternRoundTrip
  import opened NfaModel
  import opened Thompson
  import opened Assembly

  datatype Result = Done(s: nat, a: nat) | Error(error: Pattern.Error)

  /** What every parsing method promises: it fails exactly as the grammar does, and otherwise stops
      where the grammar stops, having built an open fragment for the expression r. */
  ghost predicate Outcome(g0: Graph, g: Graph, res: Result, f: Frag, i: nat, next: nat, r: Re) {
    res == Done(Start(f), Accept(f)) && i == next && Built(g0, g, f) && Erase(f) == r
  }

  /** A row of fragments for the expressions rs, with the (start, accept) pairs the parser holds. */
  ghost predicate Frags(g0: Graph, g: Graph, pairs: seq<(nat, nat)>, fs: seq<Frag>, rs: seq<Re>) {
    && |pairs| == |fs| == |rs| && Row(g0, g, fs)
    && (forall k :: 0 <= k < |fs| ==> pairs[k] == (Start(fs[k]), Accept(fs[k])))
    && (forall k :: 0 <= k < |fs| ==> Erase(fs[k]) == rs[k])
  }

  lemma FragsSnoc(g0: Graph, g1: Graph, g2: Graph, pairs: seq<(nat, nat)>, fs: seq<Frag>, rs: seq<Re>, f: Frag, r: Re)
    requires Frags(g0, g1, pairs, fs, rs) && Built(g1, g2, f) && Erase(f) == r
    ensures Frags(g0, g2, pairs + [(Start(f), Accept(f))], fs + [f], rs + [r])
  {
    RowSnoc(g0, g1, g2, fs, f);
  }

  lemma BranchFragsSnoc(tb: Ctype, g0: Graph, g1: Graph, g2: Graph, pairs: seq<(nat, nat)>, fs: seq<Frag>,
                        bs: seq<Branch>, f: Frag, b: Branch)
    requires Frags(g0, g1, pairs, fs, BranchMeanings(tb, bs)) && Built(g1, g2, f) && Erase(f) == BranchMeaning(tb, b)
    ensures Frags(g0, g2, pairs + [(Start(f), Accept(f))], fs + [f], BranchMeanings(tb, bs + [b]))
  {
    FragsSnoc(g0, g1, g2, pairs, fs, BranchMeanings(tb, bs), f, BranchMeaning(tb, b));
    assert BranchMeanings(tb, bs + [b]) == BranchMeanings(tb, bs) + [BranchMeaning(tb, b)];
  }

  lemma PieceFragsSnoc(tb: Ctype, g0: Graph, g1: Graph, g2: Graph, pairs: seq<(nat, nat)>, fs: seq<Frag>,
                       ps: seq<Piece>, f: Frag, x: Piece)
    requires Frags(g0, g1, pairs, fs, PieceMeanings(tb, ps)) && Built(g1, g2, f) && Erase(f) == PieceMeaning(tb, x)
    ensures Frags(g0, g2, pairs + [(Start(f), Accept(f))], fs + [f], PieceMeanings(tb, ps + [x]))
  {
    FragsSnoc(g0, g1, g2, pairs, fs, PieceMeanings(tb, ps), f, PieceMeaning(tb, x));
    assert PieceMeanings(tb, ps + [x]) == PieceMeanings(tb, ps) + [PieceMeaning(tb, x)];
  }

  lemma CopyFragsSnoc(g0: Graph, g1: Graph, g2: Graph, pairs: seq<(nat, nat)>, fs: seq<Frag>, k: nat, r: Re, f: Frag)
    requires Frags(g0, g1, pairs, fs, Copies(r, k)) && Built(g1, g2, f) && Erase(f) == r
    ensures Frags(g0, g2, pairs + [(Start(f), Accept(f))], fs + [f], Copies(r, k + 1))
  {
    FragsSnoc(g0, g1, g2, pairs, fs, Copies(r, k), f, r);
    assert Copies(r, k + 1) == Copies(r, k) + [r];
  }

  function Copies(r: Re, n: nat): seq<Re> {
    seq(n, _ => r)
  }

  lemma FragsErase(g0: Graph, g: Graph, pairs: seq<(nat, nat)>, fs: seq<Frag>, rs: seq<Re>)
    requires Frags(g0, g, pairs, fs, rs)
    ensures EraseAll(fs) == rs
  {}

  function PieceMeanings(tb: Ctype, ps: seq<Piece>): (rs: seq<Re>)
    ensures |rs| == |ps| && forall k :: 0 <= k < |ps| ==> rs[k] == PieceMeaning(tb, ps[k])
  {
    seq(|ps|, k requires 0 <= k < |ps| => PieceMeaning(tb, ps[k]))
  }

  function BranchMeanings(tb: Ctype, bs: seq<Branch>): (rs: seq<Re>)
    ensures |rs| == |bs| && forall k :: 0 <= k < |bs| ==> rs[k] == BranchMeaning(tb, bs[k])
  {
    seq(|bs|, k requires 0 <= k < |bs| => BranchMeaning(tb, bs[k]))
  }

  lemma BranchMeaningIs(tb: Ctype, b: Branch)
    ensures BranchMeaning(tb, b) == CatAll(PieceMeanings(tb, b.pieces))
  {
    assert PieceMeanings(tb, b.pieces) ==
           seq(|b.pieces|, k requires 0 <= k < |b.pieces| => PieceMeaning(tb, b.pieces[k]));
  }

  lemma TimesMeaning(tb: Ctype, at: Atom, q: Quant, n: nat)
    requires q.Times? && IntOf(tb, q.digits) == Some(n)
    ensures PieceMeaning(tb, Piece(at, q)) == Repeat(AtomMeaning(tb, at), n)
  {}

  lemma MeaningIs(tb: Ctype, t: Tree)
    ensures Meaning(tb, t) ==
            if |t.branches| == 1 then BranchMeaning(tb, t.branches[0]) else Alt(BranchMeanings(tb, t.branches))
  {
    assert seq(|t.branches|, k requires 0 <= k < |t.branches| => BranchMeaning(tb, t.branches[k]))
        == BranchMeanings(tb, t.branches);
  }

  class Parser {
    const tb: Ctype
    const p: string
    const nfa: Nfa
    var i: nat

    constructor (tb: Ctype, pattern: string, nfa: Nfa)
      ensures this.tb == tb && p == pattern && this.nfa == nfa && i == 0
    {
      this.tb, p, this.nfa, i := tb, pattern, nfa, 0;
    }

    ghost predicate Valid()
      reads this, nfa
    {
      i <= |p| && WellFormed(nfa.Value())
    }

    /** The whole pattern: a fragment for its meaning, or the grammar's error. */
    method Parse() returns (res: Result, ghost f: Frag)
      requires Valid() && i == 0
      modifies this, nfa
      ensures match Read(tb, p)
              case Fail(e) => res == Error(e)
              case Ok(t, next) => Outcome(old(nfa.Value()), nfa.Value(), res, f, i, next, Meaning(tb, t))
      decreases |p|, |p| - i, 8
    {
      res, f := ParseAlt();
      if res.Done? && i != |p| {
        res := Error(Unexpected);
      }
    }

    method ParseAlt() returns (res: Result, ghost f: Frag)
      requires Valid()
      modifies this, nfa
      ensures match ReadTree(tb, p, old(i))
              case Fail(e) => res == Error(e)
              case Ok(t, next) => Outcome(old(nfa.Value()), nfa.Value(), res, f, i, next, Meaning(tb, t))
      decreases |p|, |p| - i, 7
    {
      ghost var g0, i0 := nfa.Value(), i;
      var frags: seq<(nat, nat)>, failed;
      ghost var fs: seq<Frag>, bs: seq<Branch>;
      f := FEps(0);
      failed, frags, fs, bs := FirstBranch();
      if failed.Some? { return Error(failed.value), f; }
      while i < |p| && p[i] == '|'
        invariant Branching(g0, i0, frags, fs, bs)
        decreases |p| - i
      {
        failed, frags, fs, bs := NextBranch(frags, g0, i0, fs, bs);
        if failed.Some? { return Error(failed.value), f; }
      }
      res, f := Alternate(frags, g0, fs, bs);
    }

    /** The branches bs have been read from i0 on, and stand in a row of fragments. */
    ghost predicate Branching(g0: Graph, i0: nat, frags: seq<(nat, nat)>, fs: seq<Frag>, bs: seq<Branch>)
      reads this, nfa
    {
      && i0 <= i <= |p| && |bs| >= 1 && Frags(g0, nfa.Value(), frags, fs, BranchMeanings(tb, bs))
      && ReadBranches(tb, p, i0) == MoreBranches(bs, i)
    }

    method FirstBranch()
      returns (failed: Option<Pattern.Error>, frags: seq<(nat, nat)>, ghost fs: seq<Frag>, ghost bs: seq<Branch>)
      requires Valid()
      modifies this, nfa
      ensures failed.Some? ==> ReadBranches(tb, p, old(i)) == Fail(failed.value)
      ensures failed.None? ==> Branching(old(nfa.Value()), old(i), frags, fs, bs)
      decreases |p|, |p| - i, 6
    {
      ghost var i0 := i;
      var first;
      ghost var f;
      first, f := ParseConcat();
      if first.Error? { return Some(first.error), [], [], []; }
      RowOne(old(nfa.Value()), nfa.Value(), f);
      failed, frags, fs, bs := None, [(first.s, first.a)], [f], [Branch(ReadPieces(tb, p, i0).value)];
    }

    method NextBranch(frags0: seq<(nat, nat)>, ghost g0: Graph, ghost i0: nat, ghost fs0: seq<Frag>,
                      ghost bs0: seq<Branch>)
      returns (failed: Option<Pattern.Error>, frags: seq<(nat, nat)>, ghost fs: seq<Frag>, ghost bs: seq<Branch>)
      requires Branching(g0, i0, frags0, fs0, bs0) && i < |p| && p[i] == '|'
      modifies this, nfa
      ensures failed.Some? ==> ReadBranches(tb, p, i0) == Fail(failed.value)
      ensures failed.None? ==> Branching(g0, i0, frags, fs, bs) && old(i) < i
      decreases |p|, |p| - i, 6
    {
      ghost var g1, i1 := nfa.Value(), i + 1;
      i := i + 1;
      var more;
      ghost var f;
      more, f := ParseConcat();
      if more.Error? { return Some(more.error), [], [], []; }
      ghost var b := Branch(ReadPieces(tb, p, i1).value);
      MoreBranchesStep(bs0, i1 - 1);
      BranchFragsSnoc(tb, g0, g1, nfa.Value(), frags0, fs0, bs0, f, b);
      failed, frags, fs, bs := None, frags0 + [(more.s, more.a)], fs0 + [f], bs0 + [b];
    }

    /** A single branch stands for itself; several are fanned out of a new start state and into a new accept state. */
    method Alternate(frags: seq<(nat, nat)>, ghost g0: Graph, ghost fs: seq<Frag>, ghost bs: seq<Branch>)
      returns (res: Result, ghost f: Frag)
      requires |bs| >= 1 && Frags(g0, nfa.Value(), frags, fs, BranchMeanings(tb, bs))
      modifies nfa
      ensures Outcome(g0, nfa.Value(), res, f, i, i, Meaning(tb, Tree(bs)))
    {
      MeaningIs(tb, Tree(bs));
      if |frags| == 1 {
        RowOne(g0, nfa.Value(), fs[0]);
        assert fs == [fs[0]];
        return Done(frags[0].0, frags[0].1), fs[0];
      }
      res, f := FanOut(frags, g0, fs, BranchMeanings(tb, bs));
    }

    method FanOut(frags: seq<(nat, nat)>, ghost g0: Graph, ghost fs: seq<Frag>, ghost rs: seq<Re>)
      returns (res: Result, ghost f: Frag)
      requires Frags(g0, nfa.Value(), frags, fs, rs)
      modifies nfa
      ensures Outcome(g0, nfa.Value(), res, f, i, i, Re.Alt(rs))
    {
      FragsErase(g0, nfa.Value(), frags, fs, rs);
      ghost var g1 := nfa.Value();
      var s := nfa.New();
      var a := nfa.New();
      AltInit(g0, g1, nfa.Value(), fs, s);
      for k := 0 to |frags|
        invariant AltPartial(g0, nfa.Value(), fs, s, a, k)
      {
        Connect(frags[k], s, a, g0, fs, k);
      }
      AltBuilt(g0, nfa.Value(), fs, s, a);
      return Done(s, a), FAlt(s, a, fs);
    }

    /** Connects one branch to the new start and accept states. */
    method Connect(frag: (nat, nat), s: nat, a: nat, ghost g0: Graph, ghost fs: seq<Frag>, ghost k: nat)
      requires AltPartial(g0, nfa.Value(), fs, s, a, k) && k < |fs| && frag == (Start(fs[k]), Accept(fs[k]))
      modifies nfa
      ensures AltPartial(g0, nfa.Value(), fs, s, a, k + 1)
    {
      ghost var g := nfa.Value();
      AltEnds(g0, g, fs, s, a, k);
      nfa.AddEps(s, frag.0);
      nfa.AddEps(frag.1, a);
      AltStep(g0, g, nfa.Value(), fs, s, a, k);
    }

    /** What ReadBranches returns once the branches bs have been read up to j. */
    ghost function MoreBranches(bs: seq<Branch>, j: nat): Res<seq<Branch>>
      requires j <= |p|
    {
      if Next(p, j) == Some('|') then Prepend(bs, ReadBranches(tb, p, j + 1)) else Ok(bs, j)
    }

    lemma MoreBranchesStep(bs: seq<Branch>, j: nat)
      requires j < |p| && p[j] == '|' && ReadPieces(tb, p, j + 1).Ok?
      ensures var Ok(ps, k) := ReadPieces(tb, p, j + 1); MoreBranches(bs, j) == MoreBranches(bs + [Branch(ps)], k)
    {
      var Ok(ps, k) := ReadPieces(tb, p, j + 1);
      if Next(p, k) == Some('|') {
        PrependPush(bs, Branch(ps), ReadBranches(tb, p, k + 1));
      }
    }

    method ParseConcat() returns (res: Result, ghost f: Frag)
      requires Valid()
      modifies this, nfa
      ensures match ReadPieces(tb, p, old(i))
              case Fail(e) => res == Error(e)
              case Ok(ps, next) =>
                Outcome(old(nfa.Value()), nfa.Value(), res, f, i, next, BranchMeaning(tb, Branch(ps)))
      decreases |p|, |p| - i, 5
    {
      ghost var g0, i0 := nfa.Value(), i;
      var frags: seq<(nat, nat)>, failed := [], None;
      ghost var fs: seq<Frag>, ps: seq<Piece> := [], [];
      f := FEps(0);
      PrependNil(ReadPieces(tb, p, i0));
      while i < |p| && p[i] != '|' && p[i] != ')'
        invariant Piecing(g0, i0, frags, fs, ps)
        decreases |p| - i
      {
        failed, frags, fs, ps := NextPiece(frags, g0, i0, fs, ps);
        if failed.Some? { return Error(failed.value), f; }
      }
      assert ps + [] == ps;
      BranchMeaningIs(tb, Branch(ps));
      res, f := Sequence(frags, g0, fs, PieceMeanings(tb, ps));
    }

    /** The pieces ps have been read from i0 on, and stand in a row of fragments. */
    ghost predicate Piecing(g0: Graph, i0: nat, frags: seq<(nat, nat)>, fs: seq<Frag>, ps: seq<Piece>)
      reads this, nfa
    {
      && i0 <= i <= |p| && Frags(g0, nfa.Value(), frags, fs, PieceMeanings(tb, ps))
      && ReadPieces(tb, p, i0) == Prepend(ps, ReadPieces(tb, p, i))
    }

    method NextPiece(frags0: seq<(nat, nat)>, ghost g0: Graph, ghost i0: nat, ghost fs0: seq<Frag>,
                     ghost ps0: seq<Piece>)
      returns (failed: Option<Pattern.Error>, frags: seq<(nat, nat)>, ghost fs: seq<Frag>, ghost ps: seq<Piece>)
      requires Piecing(g0, i0, frags0, fs0, ps0) && i < |p| && p[i] != '|' && p[i] != ')'
      modifies this, nfa
      ensures failed.Some? ==> ReadPieces(tb, p, i0) == Fail(failed.value)
      ensures failed.None? ==> Piecing(g0, i0, frags, fs, ps) && old(i) < i
      decreases |p|, |p| - i, 4
    {
      ghost var g1, i1 := nfa.Value(), i;
      var one;
      ghost var f;
      one, f := ParseRepeat();
      if one.Error? { return Some(one.error), [], [], []; }
      ghost var x := ReadPiece(tb, p, i1).value;
      PrependPush(ps0, x, ReadPieces(tb, p, i));
      PieceFragsSnoc(tb, g0, g1, nfa.Value(), frags0, fs0, ps0, f, x);
      failed, frags, fs, ps := None, frags0 + [(one.s, one.a)], fs0 + [f], ps0 + [x];
    }

    /** A row in sequence; an empty one is a fresh state that is its own accept state. */
    method Sequence(frags: seq<(nat, nat)>, ghost g0: Graph, ghost fs: seq<Frag>, ghost rs: seq<Re>)
      returns (res: Result, ghost f: Frag)
      requires Frags(g0, nfa.Value(), frags, fs, rs)
      modifies nfa
      ensures Outcome(g0, nfa.Value(), res, f, i, i, CatAll(rs))
    {
      if |frags| == 0 {
        res, f := Fresh(g0);
      } else {
        res, f := Chain(frags, g0, fs, rs);
      }
    }

    /** A fresh state that is its own accept state means the empty word. */
    method Fresh(ghost g0: Graph) returns (res: Result, ghost f: Frag)
      requires WellFormed(nfa.Value()) && Extends(g0, nfa.Value())
      modifies nfa
      ensures Outcome(g0, nfa.Value(), res, f, i, i, Eps)
    {
      ghost var g1 := nfa.Value();
      var s := nfa.New();
      EpsBuilt(g1, nfa.Value(), s);
      BuiltLater(g0, g1, nfa.Value(), FEps(s));
      return Done(s, s), FEps(s);
    }

    /** Links a non-empty row of fragments: each accept state gets an epsilon edge to the next start. */
    method Chain(frags: seq<(nat, nat)>, ghost g0: Graph, ghost fs: seq<Frag>, ghost rs: seq<Re>)
      returns (res: Result, ghost f: Frag)
      requires |frags| > 0 && Frags(g0, nfa.Value(), frags, fs, rs)
      modifies nfa
      ensures Outcome(g0, nfa.Value(), res, f, i, i, CatAll(rs))
    {
      f := fs[0];
      FragsErase(g0, nfa.Value(), frags, fs, rs);
      LinkingStart(g0, nfa.Value(), fs);
      for k := 0 to |frags| - 1
        invariant Linking(g0, nfa.Value(), fs, k, f)
      {
        ghost var g := nfa.Value();
        ChainedEnds(fs[..k + 1]);
        nfa.AddEps(frags[k].1, frags[k + 1].0);
        LinkingStep(g0, g, nfa.Value(), fs, k, f);
        f := FCat(f, fs[k + 1]);
      }
      assert fs[..|fs|] == fs;
      ChainedEnds(fs);
      ChainedErase(fs);
      return Done(frags[0].0, frags[|frags| - 1].1), f;
    }

    method ParseRepeat() returns (res: Result, ghost f: Frag)
      requires Valid()
      modifies this, nfa
      ensures match ReadPiece(tb, p, old(i))
              case Fail(e) => res == Error(e)
              case Ok(x, next) => Outcome(old(nfa.Value()), nfa.Value(), res, f, i, next, PieceMeaning(tb, x))
      decreases |p|, |p| - i, 3
    {
      ghost var g0 := nfa.Value();
      var start := i;
      res, f := ParseAtom();
      if res.Error? { return; }
      res, f := Quantified(res.s, res.a, p[start..i], g0, f, start, ReadAtom(tb, p, start).value);
    }

    /** The quantifier behind an atom, if there is one. */
    method Quantified(s: nat, a: nat, src: string, ghost g0: Graph, ghost x: Frag, ghost start: nat, ghost at: Atom)
      returns (res: Result, ghost f: Frag)
      requires Valid()
      requires Built(g0, nfa.Value(), x) && s == Start(x) && a == Accept(x)
      requires start < i && ReadAtom(tb, p, start) == Ok(at, i) && src == p[start..i]
      requires Erase(x) == AtomMeaning(tb, at)
      modifies this, nfa
      ensures match ReadQuant(tb, p, old(i))
              case Fail(e) => res == Error(e)
              case Ok(q, next) => Outcome(g0, nfa.Value(), res, f, i, next, PieceMeaning(tb, Piece(at, q)))
      decreases |p|, |p| - i, 1
    {
      if i < |p| && p[i] == '*' {
        i := i + 1;
        res, f := Star(s, a, g0, x);
      } else if i < |p| && p[i] == '+' {
        i := i + 1;
        res, f := PlusWrap(s, a, g0, x);
      } else if i < |p| && p[i] == '?' {
        i := i + 1;
        res, f := Optional(s, a, g0, x);
      } else if i < |p| && p[i] == '{' {
        res, f := Brace(s, a, src, g0, x, start, at);
      } else {
        res, f := Done(s, a), x;
      }
    }

    /** The only epsilon edge of a state without any. */
    method AddOne(q: nat, t: nat)
      requires q < |nfa.eps| && nfa.eps[q] == {}
      modifies nfa
      ensures nfa.eps == old(nfa.eps)[q := {t}] && nfa.sym == old(nfa.sym)
    {
      nfa.AddEps(q, t);
      assert {} + {t} == {t};
    }

    /** The only two epsilon edges of a state without any. */
    method AddTwo(q: nat, t: nat, u: nat)
      requires q < |nfa.eps| && nfa.eps[q] == {}
      modifies nfa
      ensures nfa.eps == old(nfa.eps)[q := {t, u}] && nfa.sym == old(nfa.sym)
    {
      nfa.AddEps(q, t);
      nfa.AddEps(q, u);
      assert {} + {t} + {u} == {t, u};
    }

    method Star(s: nat, a: nat, ghost g0: Graph, ghost x: Frag) returns (res: Result, ghost f: Frag)
      requires Built(g0, nfa.Value(), x) && s == Start(x) && a == Accept(x)
      modifies nfa
      ensures Outcome(g0, nfa.Value(), res, f, i, i, Re.Star(Erase(x)))
    {
      ghost var g := nfa.Value();
      var ns := nfa.New();
      var na := nfa.New();
      ghost var e := nfa.eps;
      NodeEnds(g0, g, x);
      AddTwo(ns, s, na);
      AddTwo(a, s, na);
      assert nfa.eps == e[ns := {s, na}][a := {s, na}];
      StarBuilt(g0, g, nfa.Value(), x, ns);
      return Done(ns, na), FStar(ns, na, x);
    }

    method PlusWrap(s: nat, a: nat, ghost g0: Graph, ghost x: Frag) returns (res: Result, ghost f: Frag)
      requires Built(g0, nfa.Value(), x) && s == Start(x) && a == Accept(x)
      modifies nfa
      ensures Outcome(g0, nfa.Value(), res, f, i, i, Plus(Erase(x)))
    {
      ghost var g := nfa.Value();
      var ns := nfa.New();
      var na := nfa.New();
      ghost var e := nfa.eps;
      NodeEnds(g0, g, x);
      AddOne(ns, s);
      AddTwo(a, s, na);
      assert nfa.eps == e[ns := {s}][a := {s, na}];
      PlusBuilt(g0, g, nfa.Value(), x, ns);
      return Done(ns, na), FPlus(ns, na, x);
    }

    method Optional(s: nat, a: nat, ghost g0: Graph, ghost x: Frag) returns (res: Result, ghost f: Frag)
      requires Built(g0, nfa.Value(), x) && s == Start(x) && a == Accept(x)
      modifies nfa
      ensures Outcome(g0, nfa.Value(), res, f, i, i, Opt(Erase(x)))
    {
      ghost var g := nfa.Value();
      var ns := nfa.New();
      var na := nfa.New();
      ghost var e := nfa.eps;
      NodeEnds(g0, g, x);
      AddTwo(ns, s, na);
      AddOne(a, na);
      assert nfa.eps == e[ns := {s, na}][a := {na}];
      OptBuilt(g0, g, nfa.Value(), x, ns);
      return Done(ns, na), FOpt(ns, na, x);
    }

    /** {n}: n - 1 further copies of the atom, each built by a new parser over the atom's source. */
    method Brace(s: nat, a: nat, src: string, ghost g0: Graph, ghost x: Frag, ghost start: nat, ghost at: Atom)
      returns (res: Result, ghost f: Frag)
      requires Valid() && i < |p| && p[i] == '{'
      requires Built(g0, nfa.Value(), x) && s == Start(x) && a == Accept(x)
      requires start < i && ReadAtom(tb, p, start) == Ok(at, i) && src == p[start..i]
      requires Erase(x) == AtomMeaning(tb, at)
      modifies this, nfa
      ensures match ReadBrace(tb, p, old(i))
              case Fail(e) => res == Error(e)
              case Ok(q, next) =>
                Outcome(g0, nfa.Value(), res, f, i, next, PieceMeaning(tb, Piece(at, q)))
      decreases |p|, |p| - i, 0
    {
      ghost var q := ReadBrace(tb, p, i);
      assert |src| == i - start;
      var failed, n := BraceCount();
      if failed.Some? { return Error(failed.value), x; }
      TimesMeaning(tb, at, q.value, n);
      res, f := Replicate(s, a, src, n, g0, x, start, at);
    }

    /** The number between the braces. */
    method BraceCount() returns (failed: Option<Pattern.Error>, n: nat)
      requires i < |p| && p[i] == '{'
      modifies this`i
      ensures match ReadBrace(tb, p, old(i))
              case Fail(e) => failed == Some(e)
              case Ok(q, next) => failed.None? && i == next && q.Times? && IntOf(tb, q.digits) == Some(n)
    {
      var num, j := Digits(i + 1);
      if num == "" || j >= |p| || p[j] != '}' { return Some(BadBrace), 0; }
      i := j + 1;
      var value := IntOf(tb, num);
      if value.None? { return Some(NotAnInteger), 0; }
      return None, value.value;
    }

    /** The digits from position j0 on. */
    method Digits(j0: nat) returns (num: string, j: nat)
      requires j0 <= |p|
      ensures j == DigitsEnd(tb, p, j0) && num == p[j0..j]
    {
      j, num := j0, "";
      while j < |p| && tb.digit(p[j])
        invariant j0 <= j <= |p| && num == p[j0..j]
        invariant DigitsEnd(tb, p, j) == DigitsEnd(tb, p, j0)
      {
        num := num + [p[j]];
        j := j + 1;
      }
    }

    /** n copies of the atom in sequence; none at all leaves a fresh state that is its own accept. */
    method Replicate(s: nat, a: nat, src: string, n: nat, ghost g0: Graph, ghost x: Frag, ghost start: nat,
                     ghost at: Atom)
      returns (res: Result, ghost f: Frag)
      requires Built(g0, nfa.Value(), x) && s == Start(x) && a == Accept(x)
      requires start <= |p| && ReadAtom(tb, p, start) == Ok(at, start + |src|)
      requires |src| < |p| && src == p[start..start + |src|] && Erase(x) == AtomMeaning(tb, at)
      modifies nfa
      ensures Outcome(g0, nfa.Value(), res, f, i, i, Repeat(AtomMeaning(tb, at), n))
      decreases |p|, 0, 0
    {
      ghost var r := AtomMeaning(tb, at);
      if n == 0 {
        res, f := Fresh(g0);
        return;
      }
      var frags := [(s, a)];
      ghost var fs := [x];
      RowOne(g0, nfa.Value(), x);
      ReadAtomSource(tb, p, start, at, start + |src|);
      for k := 1 to n
        invariant |frags| == k && Frags(g0, nfa.Value(), frags, fs, Copies(r, k))
      {
        frags, fs := AddCopy(frags, src, g0, fs, k, r);
      }
      res, f := Chain(frags, g0, fs, Copies(r, n));
    }

    /** One more copy of the atom, built by a new parser over the atom's source. */
    method AddCopy(frags0: seq<(nat, nat)>, src: string, ghost g0: Graph, ghost fs0: seq<Frag>, ghost k: nat,
                   ghost r: Re)
      returns (frags: seq<(nat, nat)>, ghost fs: seq<Frag>)
      requires |src| < |p| && Read(tb, src).Ok? && Meaning(tb, Read(tb, src).value) == r
      requires |frags0| == k && Frags(g0, nfa.Value(), frags0, fs0, Copies(r, k))
      modifies nfa
      ensures |frags| == k + 1 && Frags(g0, nfa.Value(), frags, fs, Copies(r, k + 1))
      decreases |src|, |src|, 9
    {
      ghost var g1 := nfa.Value();
      var sub := new Parser(tb, src, nfa);
      var copy;
      ghost var f;
      copy, f := sub.Parse();
      CopyFragsSnoc(g0, g1, nfa.Value(), frags0, fs0, k, r, f);
      frags, fs := frags0 + [(copy.s, copy.a)], fs0 + [f];
    }

    method ParseAtom() returns (res: Result, ghost f: Frag)
      requires Valid()
      modifies this, nfa
      ensures match ReadAtom(tb, p, old(i))
              case Fail(e) => res == Error(e)
              case Ok(a, next) => Outcome(old(nfa.Value()), nfa.Value(), res, f, i, next, AtomMeaning(tb, a))
      decreases |p|, |p| - i, 2
    {
      f := FEps(0);
      if i == |p| { return Error(Unexpected), f; }
      var c := p[i];
      if c == '(' {
        i := i + 1;
        res, f := ParseAlt();
        if res.Error? { return; }
        if i == |p| || p[i] != ')' { return Error(UnbalancedParen), f; }
        i := i + 1;
      } else if c == '[' {
        res, f := CharClass();
      } else if c == '.' {
        i := i + 1;
        res, f := SymFrag(LeafPred(tb, Dot));
      } else if c == '\\' {
        i := i + 1;
        if i == |p| { return Error(TrailingBackslash), f; }
        var esc := p[i];
        i := i + 1;
        res, f := SymFrag(LeafPred(tb, Escape(esc)));
      } else if c in ")|*+?{" {
        return Error(Unexpected), f;
      } else {
        i := i + 1;
        res, f := SymFrag(LeafPred(tb, Lit(c)));
      }
    }

    method CharClass() returns (res: Result, ghost f: Frag)
      requires Valid() && i < |p| && p[i] == '['
      modifies this, nfa
      ensures match ReadClass(p, old(i))
              case Fail(e) => res == Error(e)
              case Ok(leaf, next) => Outcome(old(nfa.Value()), nfa.Value(), res, f, i, next, Sym(LeafPred(tb, leaf)))
    {
      f := FEps(0);
      var negate := ClassOpen();
      var preds := ClassItems();
      if preds.Fail? { return Error(preds.error), f; }
      i := i + 1;
      res, f := SymFrag(LeafPred(tb, Set(negate, preds.value)));
    }

    /** The opening bracket and the caret. */
    method ClassOpen() returns (negate: bool)
      requires i < |p|
      modifies this`i
      ensures negate == (Next(p, old(i) + 1) == Some('^')) && i == (if negate then old(i) + 2 else old(i) + 1) <= |p|
    {
      i := i + 1;
      negate := false;
      if i < |p| && p[i] == '^' {
        negate := true;
        i := i + 1;
      }
    }

    /** The items of a class up to its closing bracket. */
    method ClassItems() returns (r: Res<seq<Item>>)
      requires i <= |p|
      modifies this`i
      ensures r == ReadItems(p, old(i)) && (r.Ok? ==> i == r.next)
    {
      ghost var i0 := i;
      var preds: seq<Item> := [];
      PrependNil(ReadItems(p, i0));
      while i < |p| && p[i] != ']'
        invariant i0 <= i <= |p|
        invariant ReadItems(p, i0) == Prepend(preds, ReadItems(p, i))
        decreases |p| - i
      {
        var item := ClassItem();
        if item.Fail? { return Fail(item.error); }
        PrependPush(preds, item.value, ReadItems(p, item.next));
        preds := preds + [item.value];
      }
      if i == |p| { return Fail(UnbalancedBracket); }
      assert preds + [] == preds;
      r := Ok(preds, i);
    }

    /** One escape, range or literal inside a class. */
    method ClassItem() returns (r: Res<Item>)
      requires i < |p| && p[i] != ']'
      modifies this`i
      ensures r == ReadItem(p, old(i)) && (r.Ok? ==> i == r.next)
    {
      var ch := p[i];
      if ch == '\\' {
        i := i + 1;
        if i == |p| { return Fail(IndexOutOfRange); }
        var esc := p[i];
        i := i + 1;
        return Ok(EscItem(esc), i);
      }
      if i + 2 < |p| && p[i + 1] == '-' && p[i + 2] != ']' {
        var hi := p[i + 2];
        i := i + 3;
        return Ok(Range(ch, hi), i);
      }
      i := i + 1;
      return Ok(LitItem(ch), i);
    }

    method SymFrag(pred: CharPred) returns (res: Result, ghost f: Frag)
      requires WellFormed(nfa.Value())
      modifies nfa
      ensures Outcome(old(nfa.Value()), nfa.Value(), res, f, i, i, Sym(pred))
    {
      ghost var g := nfa.Value();
      var s := nfa.New();
      var a := nfa.New();
      nfa.AddSym(s, pred, a);
      assert [] + [Arrow(pred, a)] == [Arrow(pred, a)];
      SymBuilt(g, nfa.Value(), s, pred, a);
      return Done(s, a), FSym(s, pred, a);
    }
  }
}
