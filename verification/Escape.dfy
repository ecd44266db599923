/** Escaping a literal: the escaped text is a pattern that matches the literal and nothing else. */
module EscapeLiterals {
  import opened Options
  import opened Regex
  import opened Pattern
  import opened PatternRoundTrip

  /** The characters _escape puts a backslash before. */
  predicate Meta(c: char) {
    c in ".[]()|*+?{}\\^"
  }

  function EscapeChar(c: char): string {
    if Meta(c) then ['\\', c] else [c]
  }

  function EscapeText(s: string): string {
    if s == [] then "" else EscapeChar(s[0]) + EscapeText(s[1..])
  }

  function CharPiece(c: char): Piece {
    Piece(Char(if Meta(c) then Escape(c) else Lit(c)), Once)
  }

  function CharPieces(s: string): (ps: seq<Piece>)
    ensures |ps| == |s| && forall k :: 0 <= k < |s| ==> ps[k] == CharPiece(s[k])
  {
    seq(|s|, k requires 0 <= k < |s| => CharPiece(s[k]))
  }

  function LiteralTree(s: string): Tree {
    Tree([Branch(CharPieces(s))])
  }

  lemma {:induction false} LiteralText(s: string)
    ensures PiecesText(CharPieces(s)) == EscapeText(s)
  {
    if s != [] {
      assert CharPieces(s) == [CharPiece(s[0])] + CharPieces(s[1..]);
      PiecesTextCons(CharPiece(s[0]), CharPieces(s[1..]));
      assert PieceText(CharPiece(s[0])) == EscapeChar(s[0]);
      LiteralText(s[1..]);
    }
  }

  function CharRes(tb: Ctype, s: string): (rs: seq<Re>)
    ensures |rs| == |s| && forall k :: 0 <= k < |s| ==> rs[k] == PieceMeaning(tb, CharPiece(s[k]))
  {
    seq(|s|, k requires 0 <= k < |s| => PieceMeaning(tb, CharPiece(s[k])))
  }

  lemma CharRe(tb: Ctype, c: char, w: string, i: nat, j: nat)
    ensures In(PieceMeaning(tb, CharPiece(c)), w, i, j) <==> j == i + 1 && i < |w| && w[i] == c
  {}

  /** The expression of a literal is that of all but its last character, and then that character. */
  lemma LiteralSnoc(tb: Ctype, s: string) returns (x: Re, y: Re)
    requires |s| > 1
    ensures CatAll(CharRes(tb, s)) == Cat(x, y)
    ensures x == CatAll(CharRes(tb, s[..|s| - 1])) && y == PieceMeaning(tb, CharPiece(s[|s| - 1]))
  {
    var rs, n := CharRes(tb, s), |s| - 1;
    assert rs[..n] == CharRes(tb, s[..n]);
    x, y := CatAll(CharRes(tb, s[..n])), rs[n];
  }

  lemma SliceSnoc(w: string, i: nat, m: nat, s: string)
    requires i <= m < |w| && |s| > 0 && w[i..m] == s[..|s| - 1] && w[m] == s[|s| - 1]
    ensures w[i..m + 1] == s
  {
    assert w[i..m + 1] == w[i..m] + [w[m]];
  }

  lemma {:induction false} LiteralReads(tb: Ctype, s: string, w: string, i: nat, j: nat)
    requires i <= |w| && In(CatAll(CharRes(tb, s)), w, i, j)
    ensures j == i + |s| && j <= |w| && w[i..j] == s
  {
    if |s| == 1 {
      CharRe(tb, s[0], w, i, j);
    } else if |s| > 1 {
      var x, y := LiteralSnoc(tb, s);
      var m := CatSplit(x, y, w, i, j);
      LiteralReads(tb, s[..|s| - 1], w, i, m);
      CharRe(tb, s[|s| - 1], w, m, j);
      SliceSnoc(w, i, m, s);
    }
  }

  lemma {:induction false} LiteralIsRead(tb: Ctype, s: string, w: string, i: nat)
    requires i + |s| <= |w| && w[i..i + |s|] == s
    ensures In(CatAll(CharRes(tb, s)), w, i, i + |s|)
  {
    if |s| == 1 {
      assert w[i] == w[i..i + 1][0];
      CharRe(tb, s[0], w, i, i + 1);
    } else if |s| > 1 {
      var x, y := LiteralSnoc(tb, s);
      var m := i + |s| - 1;
      assert w[i..m] == w[i..i + |s|][..|s| - 1];
      assert w[m] == w[i..i + |s|][|s| - 1];
      LiteralIsRead(tb, s[..|s| - 1], w, i);
      CharRe(tb, s[|s| - 1], w, m, m + 1);
      CatJoin(x, y, w, i, m, m + 1);
    }
  }

  lemma CatJoin(x: Re, y: Re, w: string, i: nat, m: nat, j: nat)
    requires In(x, w, i, m) && In(y, w, m, j)
    ensures In(Cat(x, y), w, i, j)
  {
    var r := Cat(x, y);
    assert In(r.left, w, i, m) && In(r.right, w, m, j);
  }

  /** The escaped literal is accepted as a pattern and its language is the literal alone, for every string. */
  lemma EscapeIsLiteral(tb: Ctype, s: string, w: string)
    ensures Read(tb, EscapeText(s)).Ok?
    ensures Matches(Meaning(tb, Read(tb, EscapeText(s)).value), w) <==> w == s
  {
    var t, b := LiteralTree(s), Branch(CharPieces(s));
    LiteralText(s);
    forall k | 0 <= k < |s| ensures PieceOk(tb, CharPieces(s)[k]) {}
    assert BranchOk(tb, b);
    assert t.branches == [b];
    ReadText(tb, t);
    assert Meaning(tb, t) == BranchMeaning(tb, b);
    assert seq(|b.pieces|, k requires 0 <= k < |b.pieces| => PieceMeaning(tb, b.pieces[k])) == CharRes(tb, s);
    assert w[0..|w|] == w;
    if w == s { LiteralIsRead(tb, s, w, 0); }
    if In(CatAll(CharRes(tb, s)), w, 0, |w|) { LiteralReads(tb, s, w, 0, |w|); }
  }
}
