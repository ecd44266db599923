/** Reading and writing patterns undo each other: Read(p) yields a tree exactly when p is the
    text of a well-formed tree, and that tree is the only one. */
module PatternRoundTrip {
  import opened Options
  import opened Pattern

  /** t is what p spells from i to j. */
  ghost predicate Spells(p: string, i: nat, j: nat, t: string) {
    i <= j <= |p| && |t| == j - i && forall k {:trigger t[k]} :: 0 <= k < |t| ==> t[k] == p[i + k]
  }

  lemma SpellsSlice(p: string, i: nat, j: nat, t: string)
    requires i <= j <= |p|
    ensures Spells(p, i, j, t) <==> p[i..j] == t
  {
    if p[i..j] == t {
      forall k | 0 <= k < |t| ensures t[k] == p[i + k] { assert p[i..j][k] == p[i + k]; }
    }
  }

  lemma SpellsJoin(p: string, i: nat, k: nat, j: nat, u: string, v: string)
    requires Spells(p, i, k, u) && Spells(p, k, j, v)
    ensures Spells(p, i, j, u + v)
  {}

  lemma SpellsSplit(p: string, i: nat, j: nat, u: string, v: string)
    requires Spells(p, i, j, u + v)
    ensures Spells(p, i, i + |u|, u) && Spells(p, i + |u|, j, v)
  {
    forall k | 0 <= k < |u| ensures u[k] == p[i + k] { assert (u + v)[k] == u[k]; }
    forall k | 0 <= k < |v| ensures v[k] == p[i + |u| + k] { assert (u + v)[|u| + k] == v[k]; }
  }

  lemma SpellsJoin3(p: string, i: nat, k: nat, m: nat, j: nat, u: string, v: string, t: string)
    requires Spells(p, i, k, u) && Spells(p, k, m, v) && Spells(p, m, j, t)
    ensures Spells(p, i, j, u + v + t)
  {
    SpellsJoin(p, i, k, m, u, v);
    SpellsJoin(p, i, m, j, u + v, t);
  }

  lemma SpellsSplit3(p: string, i: nat, j: nat, u: string, v: string, t: string)
    requires Spells(p, i, j, u + v + t)
    ensures var k, m := i + |u|, i + |u| + |v|; Spells(p, i, k, u) && Spells(p, k, m, v) && Spells(p, m, j, t)
  {
    SpellsSplit(p, i, j, u + v, t);
    SpellsSplit(p, i, i + |u + v|, u, v);
  }

  lemma SpellsAt(p: string, i: nat, j: nat, t: string, k: nat)
    requires Spells(p, i, j, t) && k < |t|
    ensures i + k < j && p[i + k] == t[k]
  {}

  lemma SpellsOne(p: string, i: nat)
    requires i < |p|
    ensures Spells(p, i, i + 1, [p[i]])
  {}

  ghost predicate BranchesOk(tb: Ctype, bs: seq<Branch>) {
    forall k :: 0 <= k < |bs| ==> BranchOk(tb, bs[k])
  }

  ghost predicate PiecesOk(tb: Ctype, ps: seq<Piece>) {
    forall k :: 0 <= k < |ps| ==> PieceOk(tb, ps[k])
  }

  lemma PiecesTextCons(x: Piece, ps: seq<Piece>)
    ensures PiecesText([x] + ps) == PieceText(x) + PiecesText(ps)
  {
    assert ([x] + ps)[1..] == ps;
  }

  lemma BranchesTextCons(b: Branch, bs: seq<Branch>)
    requires bs != []
    ensures BranchesText([b] + bs) == PiecesText(b.pieces) + "|" + BranchesText(bs)
  {
    assert ([b] + bs)[1..] == bs;
  }

  lemma ItemsTextCons(x: Item, xs: seq<Item>)
    ensures ItemsText([x] + xs) == ItemText(x) + ItemsText(xs)
    ensures ItemsOk([x] + xs) <==> ItemOk(x, ItemsText(xs) + "]") && ItemsOk(xs)
  {
    assert ([x] + xs)[1..] == xs;
  }

  // --- soundness: what was read is well-formed and spells what was consumed ---------------

  lemma ReadItemSound(p: string, i: nat, x: Item, j: nat, rest: string, k: nat)
    requires i < |p| && p[i] != ']' && ReadItem(p, i) == Ok(x, j)
    requires Spells(p, j, k, rest) && rest != ""
    ensures Spells(p, i, j, ItemText(x)) && ItemOk(x, rest)
  {
    SpellsAt(p, j, k, rest, 0);
    if |rest| >= 2 { SpellsAt(p, j, k, rest, 1); }
  }

  lemma {:induction false} ReadItemsSound(p: string, i: nat, xs: seq<Item>, j: nat)
    requires i <= |p| && ReadItems(p, i) == Ok(xs, j)
    ensures ItemsOk(xs) && Spells(p, i, j, ItemsText(xs))
    decreases |p| - i
  {
    if p[i] != ']' {
      var Ok(x, k) := ReadItem(p, i);
      var Ok(ys, _) := ReadItems(p, k);
      ReadItemsSound(p, k, ys, j);
      SpellsOne(p, j);
      SpellsJoin(p, k, j, j + 1, ItemsText(ys), "]");
      ReadItemSound(p, i, x, k, ItemsText(ys) + "]", j + 1);
      SpellsJoin(p, i, k, j, ItemText(x), ItemsText(ys));
      ItemsTextCons(x, ys);
    }
  }

  function OpenText(negate: bool): string {
    if negate then "[^" else "["
  }

  lemma OpenSpelled(p: string, i: nat, leaf: Leaf) returns (k: nat)
    requires i < |p| && p[i] == '[' && ReadClass(p, i).Ok? && leaf == ReadClass(p, i).value
    ensures i < k <= |p| && Spells(p, i, k, OpenText(leaf.negate)) && (leaf.negate || Next(p, k) != Some('^'))
    ensures ReadItems(p, k) == Ok(leaf.items, ReadClass(p, i).next - 1)
  {
    k := if leaf.negate then i + 2 else i + 1;
  }

  lemma ReadClassSound(p: string, i: nat, leaf: Leaf, j: nat)
    requires i < |p| && p[i] == '[' && ReadClass(p, i) == Ok(leaf, j)
    ensures LeafOk(leaf) && Spells(p, i, j, LeafText(leaf))
  {
    var k := OpenSpelled(p, i, leaf);
    ReadItemsSound(p, k, leaf.items, j - 1);
    SpellsOne(p, j - 1);
    SpellsJoin3(p, i, k, j - 1, j, OpenText(leaf.negate), ItemsText(leaf.items), "]");
    NoCaret(p, k, leaf, j - 1);
  }

  lemma NoCaret(p: string, k: nat, leaf: Leaf, j: nat)
    requires leaf.Set? && ItemsOk(leaf.items) && Spells(p, k, j, ItemsText(leaf.items))
    requires leaf.negate || Next(p, k) != Some('^')
    ensures LeafOk(leaf)
  {
    if ItemsText(leaf.items) != "" { SpellsAt(p, k, j, ItemsText(leaf.items), 0); }
  }

  lemma {:induction false} DigitsEndSound(tb: Ctype, p: string, j: nat)
    requires j <= |p|
    ensures var k := DigitsEnd(tb, p, j);
            (forall x :: j <= x < k ==> tb.digit(p[x])) && (k < |p| ==> !tb.digit(p[k]))
    decreases |p| - j
  {
    if j < |p| && tb.digit(p[j]) { DigitsEndSound(tb, p, j + 1); }
  }

  lemma ReadBraceSound(tb: Ctype, p: string, i: nat, digits: string, j: nat)
    requires i < |p| && p[i] == '{' && ReadBrace(tb, p, i) == Ok(Times(digits), j)
    ensures QuantOk(tb, Times(digits)) && Spells(p, i, j, "{" + digits + "}")
  {
    DigitsEndSound(tb, p, i + 1);
    assert digits == p[i + 1..j - 1];
    SpellsSlice(p, i + 1, j - 1, digits);
    SpellsOne(p, i);
    SpellsOne(p, j - 1);
    SpellsJoin3(p, i, i + 1, j - 1, j, "{", digits, "}");
  }

  lemma ReadQuantSound(tb: Ctype, p: string, i: nat, q: Quant, j: nat)
    requires i <= |p| && ReadQuant(tb, p, i) == Ok(q, j)
    ensures QuantOk(tb, q) && Spells(p, i, j, QuantText(q))
  {
    if q.Times? { ReadBraceSound(tb, p, i, q.digits, j); }
  }

  lemma {:induction false} ReadBranchesSound(tb: Ctype, p: string, i: nat, bs: seq<Branch>, j: nat)
    requires i <= |p| && ReadBranches(tb, p, i) == Ok(bs, j)
    ensures BranchesOk(tb, bs) && Spells(p, i, j, BranchesText(bs))
    decreases |p| - i, 3
  {
    var Ok(ps, k) := ReadPieces(tb, p, i);
    ReadPiecesSound(tb, p, i, ps, k);
    if Next(p, k) == Some('|') {
      var Ok(cs, _) := ReadBranches(tb, p, k + 1);
      ReadBranchesSound(tb, p, k + 1, cs, j);
      SpellsOne(p, k);
      SpellsJoin3(p, i, k, k + 1, j, PiecesText(ps), "|", BranchesText(cs));
      BranchesTextCons(Branch(ps), cs);
    }
  }

  lemma {:induction false} ReadPiecesSound(tb: Ctype, p: string, i: nat, ps: seq<Piece>, j: nat)
    requires i <= |p| && ReadPieces(tb, p, i) == Ok(ps, j)
    ensures PiecesOk(tb, ps) && Spells(p, i, j, PiecesText(ps))
    decreases |p| - i, 2
  {
    if !(i == |p| || p[i] == '|' || p[i] == ')') {
      var Ok(x, k) := ReadPiece(tb, p, i);
      var Ok(ys, _) := ReadPieces(tb, p, k);
      ReadPieceSound(tb, p, i, x, k);
      ReadPiecesSound(tb, p, k, ys, j);
      SpellsJoin(p, i, k, j, PieceText(x), PiecesText(ys));
      PiecesTextCons(x, ys);
    }
  }

  lemma {:induction false} ReadPieceSound(tb: Ctype, p: string, i: nat, x: Piece, j: nat)
    requires i <= |p| && ReadPiece(tb, p, i) == Ok(x, j)
    ensures PieceOk(tb, x) && Spells(p, i, j, PieceText(x))
    decreases |p| - i, 1
  {
    var Ok(a, k) := ReadAtom(tb, p, i);
    ReadAtomSound(tb, p, i, a, k);
    ReadQuantSound(tb, p, k, x.quant, j);
    SpellsJoin(p, i, k, j, AtomText(a), QuantText(x.quant));
  }

  lemma {:induction false} ReadAtomSound(tb: Ctype, p: string, i: nat, a: Atom, j: nat)
    requires i <= |p| && ReadAtom(tb, p, i) == Ok(a, j)
    ensures AtomOk(tb, a) && Spells(p, i, j, AtomText(a))
    decreases |p| - i, 0
  {
    if p[i] == '(' {
      ReadBranchesSound(tb, p, i + 1, a.body.branches, j - 1);
      SpellsOne(p, i);
      SpellsOne(p, j - 1);
      SpellsJoin3(p, i, i + 1, j - 1, j, "(", Text(a.body), ")");
    } else if p[i] == '[' {
      ReadClassSound(p, i, a.leaf, j);
    }
  }

  // --- completeness: a well-formed tree is read back from its text ------------------------

  lemma ReadItemComplete(p: string, i: nat, k: nat, x: Item, rest: string, j: nat)
    requires ItemOk(x, rest) && Spells(p, i, k, ItemText(x)) && Spells(p, k, j, rest)
    requires rest != "" && rest[|rest| - 1] == ']'
    ensures i < |p| && p[i] != ']' && ReadItem(p, i) == Ok(x, k)
  {
    var t := ItemText(x);
    SpellsAt(p, i, k, t, 0);
    if |t| > 1 { SpellsAt(p, i, k, t, 1); }
    if |t| > 2 { SpellsAt(p, i, k, t, 2); }
    SpellsAt(p, k, j, rest, 0);
    if |rest| > 1 { SpellsAt(p, k, j, rest, 1); }
  }

  lemma {:induction false} ReadItemsComplete(p: string, i: nat, xs: seq<Item>, j: nat)
    requires ItemsOk(xs) && Spells(p, i, j, ItemsText(xs)) && j < |p| && p[j] == ']'
    ensures ReadItems(p, i) == Ok(xs, j)
    decreases xs
  {
    if xs != [] {
      var x, ys := xs[0], xs[1..];
      assert xs == [x] + ys;
      ItemsTextCons(x, ys);
      SpellsSplit(p, i, j, ItemText(x), ItemsText(ys));
      var k := i + |ItemText(x)|;
      SpellsOne(p, j);
      SpellsJoin(p, k, j, j + 1, ItemsText(ys), "]");
      ReadItemComplete(p, i, k, x, ItemsText(ys) + "]", j + 1);
      ReadItemsComplete(p, k, ys, j);
    }
  }

  /** Where the parts of a class lie: the opening up to k, the items up to m, the closing bracket. */
  lemma ClassParts(p: string, i: nat, leaf: Leaf, j: nat) returns (k: nat, m: nat)
    requires leaf.Set? && Spells(p, i, j, LeafText(leaf))
    ensures k == i + |OpenText(leaf.negate)| && Spells(p, i, k, OpenText(leaf.negate))
    ensures Spells(p, k, m, ItemsText(leaf.items)) && m + 1 == j <= |p| && p[m] == ']'
  {
    var open, t := OpenText(leaf.negate), ItemsText(leaf.items);
    SpellsSplit3(p, i, j, open, t, "]");
    k, m := i + |open|, i + |open| + |t|;
    SpellsAt(p, m, j, "]", 0);
  }

  lemma ClassOpens(p: string, i: nat, leaf: Leaf, k: nat, m: nat)
    requires leaf.Set? && LeafOk(leaf) && k == i + |OpenText(leaf.negate)| && Spells(p, i, k, OpenText(leaf.negate))
    requires Spells(p, k, m, ItemsText(leaf.items)) && m < |p| && p[m] == ']'
    ensures i < |p| && p[i] == '[' && (leaf.negate <==> Next(p, i + 1) == Some('^'))
    ensures k == if leaf.negate then i + 2 else i + 1
  {
    SpellsAt(p, i, k, OpenText(leaf.negate), 0);
    if leaf.negate {
      SpellsAt(p, i, k, OpenText(leaf.negate), 1);
    } else if ItemsText(leaf.items) != "" {
      SpellsAt(p, k, m, ItemsText(leaf.items), 0);
    }
  }

  lemma ReadClassComplete(p: string, i: nat, leaf: Leaf, j: nat)
    requires leaf.Set? && LeafOk(leaf) && Spells(p, i, j, LeafText(leaf))
    ensures i < |p| && p[i] == '[' && ReadClass(p, i) == Ok(leaf, j)
  {
    var k, m := ClassParts(p, i, leaf, j);
    ClassOpens(p, i, leaf, k, m);
    ReadItemsComplete(p, k, leaf.items, m);
  }

  lemma {:induction false} DigitsEndComplete(tb: Ctype, p: string, j: nat, k: nat)
    requires j <= k < |p| && !tb.digit(p[k]) && forall x :: j <= x < k ==> tb.digit(p[x])
    ensures DigitsEnd(tb, p, j) == k
    decreases k - j
  {
    if j < k { DigitsEndComplete(tb, p, j + 1, k); }
  }

  lemma ReadBraceComplete(tb: Ctype, p: string, i: nat, digits: string, j: nat)
    requires QuantOk(tb, Times(digits)) && Spells(p, i, j, "{" + digits + "}")
    ensures i < |p| && p[i] == '{' && ReadBrace(tb, p, i) == Ok(Times(digits), j)
  {
    SpellsSplit3(p, i, j, "{", digits, "}");
    SpellsAt(p, i, i + 1, "{", 0);
    SpellsAt(p, j - 1, j, "}", 0);
    forall x: nat | i + 1 <= x < j - 1 ensures tb.digit(p[x]) {
      SpellsAt(p, i + 1, j - 1, digits, x - i - 1);
    }
    DigitsEndComplete(tb, p, i + 1, j - 1);
    SpellsSlice(p, i + 1, j - 1, digits);
  }

  lemma ReadQuantComplete(tb: Ctype, p: string, i: nat, q: Quant, j: nat)
    requires QuantOk(tb, q) && Spells(p, i, j, QuantText(q))
    requires j < |p| ==> p[j] !in "*+?{"
    ensures ReadQuant(tb, p, i) == Ok(q, j)
  {
    match q
    case Once => assert j < |p| ==> p[j] != '*' && p[j] != '+' && p[j] != '?' && p[j] != '{';
    case ZeroOrMore => SpellsAt(p, i, j, "*", 0);
    case OneOrMore => SpellsAt(p, i, j, "+", 0);
    case ZeroOrOne => SpellsAt(p, i, j, "?", 0);
    case Times(digits) => ReadBraceComplete(tb, p, i, digits, j);
  }

  /** Where a list of pieces may stop: at the end, at a bar, or at a closing parenthesis. */
  predicate PiecesStop(p: string, j: nat) {
    j < |p| ==> p[j] == '|' || p[j] == ')'
  }

  /** Where a whole tree may stop. */
  predicate TreeStops(p: string, j: nat) {
    j < |p| ==> p[j] == ')'
  }

  lemma BarAt(p: string, i: nat, j: nat, u: string, v: string) returns (k: nat)
    requires Spells(p, i, j, u + "|" + v)
    ensures i <= k && Spells(p, i, k, u) && k < |p| && p[k] == '|' && Spells(p, k + 1, j, v)
  {
    k := i + |u|;
    SpellsSplit3(p, i, j, u, "|", v);
    SpellsAt(p, k, k + 1, "|", 0);
  }

  lemma BranchesSplit(tb: Ctype, bs: seq<Branch>) returns (ps: seq<Piece>, cs: seq<Branch>)
    requires bs != [] && BranchesOk(tb, bs)
    ensures PiecesOk(tb, ps) && BranchesOk(tb, cs) && bs == [Branch(ps)] + cs
    ensures BranchesText(bs) == if cs == [] then PiecesText(ps) else PiecesText(ps) + "|" + BranchesText(cs)
  {
    ps, cs := bs[0].pieces, bs[1..];
    assert BranchOk(tb, bs[0]);
  }

  lemma ReadBranchesMore(tb: Ctype, p: string, i: nat, ps: seq<Piece>, k: nat, cs: seq<Branch>, j: nat)
    requires i <= |p| && ReadPieces(tb, p, i) == Ok(ps, k) && k < |p| && p[k] == '|'
    requires ReadBranches(tb, p, k + 1) == Ok(cs, j)
    ensures ReadBranches(tb, p, i) == Ok([Branch(ps)] + cs, j)
  {}

  lemma ReadBranchesOne(tb: Ctype, p: string, i: nat, bs: seq<Branch>, ps: seq<Piece>, j: nat)
    requires i <= |p| && bs == [Branch(ps)] + [] && ReadPieces(tb, p, i) == Ok(ps, j) && TreeStops(p, j)
    ensures ReadBranches(tb, p, i) == Ok(bs, j)
  {
    assert bs == [Branch(ps)];
  }

  lemma {:induction false} ReadBranchesComplete(tb: Ctype, p: string, i: nat, bs: seq<Branch>, j: nat)
    requires bs != [] && BranchesOk(tb, bs) && Spells(p, i, j, BranchesText(bs)) && TreeStops(p, j)
    ensures ReadBranches(tb, p, i) == Ok(bs, j)
    decreases |p| - i, 3
  {
    var ps, cs := BranchesSplit(tb, bs);
    if cs == [] {
      ReadPiecesComplete(tb, p, i, ps, j);
      ReadBranchesOne(tb, p, i, bs, ps, j);
    } else {
      var k := BarAt(p, i, j, PiecesText(ps), BranchesText(cs));
      ReadPiecesComplete(tb, p, i, ps, k);
      ReadBranchesComplete(tb, p, k + 1, cs, j);
      ReadBranchesMore(tb, p, i, ps, k, cs, j);
    }
  }

  lemma {:induction false} ReadPiecesComplete(tb: Ctype, p: string, i: nat, ps: seq<Piece>, j: nat)
    requires PiecesOk(tb, ps) && Spells(p, i, j, PiecesText(ps)) && PiecesStop(p, j)
    ensures ReadPieces(tb, p, i) == Ok(ps, j)
    decreases |p| - i, 2
  {
    if ps != [] {
      var x, ys := ps[0], ps[1..];
      assert ps == [x] + ys;
      assert PieceOk(tb, x);
      PiecesTextCons(x, ys);
      SpellsSplit(p, i, j, PieceText(x), PiecesText(ys));
      var k := i + |PieceText(x)|;
      PieceHead(tb, x);
      SpellsAt(p, i, k, PieceText(x), 0);
      if ys != [] {
        PiecesTextCons(ys[0], ys[1..]);
        assert ys == [ys[0]] + ys[1..];
        PieceHead(tb, ys[0]);
        SpellsAt(p, k, j, PiecesText(ys), 0);
      }
      ReadPieceComplete(tb, p, i, x, k);
      ReadPiecesComplete(tb, p, k, ys, j);
    }
  }

  /** A piece starts with an atom, and no atom starts with a quantifier or a terminator. */
  lemma PieceHead(tb: Ctype, x: Piece)
    requires PieceOk(tb, x)
    ensures PieceText(x) != "" && PieceText(x)[0] !in "*+?{|)"
  {
    var t := AtomText(x.atom);
    match x.atom
    case Group(body) => assert t[0] == '(';
    case Char(leaf) =>
      match leaf
      case Dot => assert t[0] == '.';
      case Escape(_) => assert t[0] == '\\';
      case Lit(c) => assert t[0] == c;
      case Set(_, _) => assert t[0] == '[';
  }

  lemma {:induction false} ReadPieceComplete(tb: Ctype, p: string, i: nat, x: Piece, j: nat)
    requires PieceOk(tb, x) && Spells(p, i, j, PieceText(x))
    requires j < |p| ==> p[j] !in "*+?{"
    ensures ReadPiece(tb, p, i) == Ok(x, j)
    decreases |p| - i, 1
  {
    SpellsSplit(p, i, j, AtomText(x.atom), QuantText(x.quant));
    var k := i + |AtomText(x.atom)|;
    ReadAtomComplete(tb, p, i, x.atom, k);
    ReadQuantComplete(tb, p, k, x.quant, j);
  }

  lemma {:induction false} ReadAtomComplete(tb: Ctype, p: string, i: nat, a: Atom, j: nat)
    requires AtomOk(tb, a) && Spells(p, i, j, AtomText(a))
    ensures ReadAtom(tb, p, i) == Ok(a, j)
    decreases |p| - i, 0
  {
    match a
    case Group(t) =>
      SpellsSplit3(p, i, j, "(", Text(t), ")");
      SpellsAt(p, i, i + 1, "(", 0);
      SpellsAt(p, j - 1, j, ")", 0);
      ReadBranchesComplete(tb, p, i + 1, t.branches, j - 1);
    case Char(leaf) =>
      if leaf.Set? {
        ReadClassComplete(p, i, leaf, j);
      } else {
        SpellsAt(p, i, j, LeafText(leaf), 0);
        if leaf.Escape? { SpellsAt(p, i, j, LeafText(leaf), 1); }
      }
  }

  // --- the grammar theorem ----------------------------------------------------------------

  /** Reading the text of a well-formed tree gives back that tree. */
  lemma ReadText(tb: Ctype, t: Tree)
    requires TreeOk(tb, t)
    ensures Read(tb, Text(t)) == Ok(t, |Text(t)|)
  {
    var p := Text(t);
    assert Spells(p, 0, |p|, p);
    ReadBranchesComplete(tb, p, 0, t.branches, |p|);
  }

  /** A tree that was read is well-formed and its text is the pattern. */
  lemma TextRead(tb: Ctype, p: string)
    requires Read(tb, p).Ok?
    ensures TreeOk(tb, Read(tb, p).value) && Text(Read(tb, p).value) == p
  {
    var t := Read(tb, p).value;
    ReadBranchesSound(tb, p, 0, t.branches, |p|);
    SpellsSlice(p, 0, |p|, Text(t));
    assert p[0..|p|] == p;
  }

  /** The accepted patterns are exactly the texts of well-formed trees. */
  lemma AcceptedExactly(tb: Ctype, p: string)
    ensures Read(tb, p).Ok? <==> exists t: Tree :: TreeOk(tb, t) && Text(t) == p
  {
    if Read(tb, p).Ok? { TextRead(tb, p); }
    if t: Tree :| TreeOk(tb, t) && Text(t) == p { ReadText(tb, t); }
  }

  /** The grammar is unambiguous. */
  lemma Unambiguous(tb: Ctype, t: Tree, u: Tree)
    requires TreeOk(tb, t) && TreeOk(tb, u) && Text(t) == Text(u)
    ensures t == u
  {
    ReadText(tb, t);
    ReadText(tb, u);
  }

  /** An atom standing alone as a whole pattern. */
  function Alone(a: Atom): Tree {
    Tree([Branch([Piece(a, Once)])])
  }

  lemma AloneText(tb: Ctype, a: Atom)
    requires AtomOk(tb, a)
    ensures TreeOk(tb, Alone(a)) && Text(Alone(a)) == AtomText(a)
    ensures Meaning(tb, Alone(a)) == AtomMeaning(tb, a)
  {
    var x := Piece(a, Once);
    var b := Branch([x]);
    PiecesTextCons(x, []);
    assert [x] + [] == [x];
    assert PieceOk(tb, x);
    assert BranchOk(tb, b);
    assert PieceMeaning(tb, x) == AtomMeaning(tb, a);
    assert BranchMeaning(tb, b) == AtomMeaning(tb, a);
  }

  /** Re-reading just the source text of an atom gives the same expression again: the {n} case. */
  lemma ReadAtomSource(tb: Ctype, p: string, i: nat, a: Atom, j: nat)
    requires i <= |p| && ReadAtom(tb, p, i) == Ok(a, j)
    ensures Read(tb, p[i..j]).Ok? && Meaning(tb, Read(tb, p[i..j]).value) == AtomMeaning(tb, a)
  {
    ReadAtomSound(tb, p, i, a, j);
    SpellsSlice(p, i, j, AtomText(a));
    AloneText(tb, a);
    ReadText(tb, Alone(a));
  }
}
