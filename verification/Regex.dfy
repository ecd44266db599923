/** Regular expressions over character predicates, and the language each denotes.

    The language is given as a matching relation on positions: In(r, w, i, j) says that
    the slice w[i..j] belongs to the language of r.  Only the slice matters (InSlice). */
module Regex {
  /** A symbol predicate; the compiler stores these as closures on NFA arrows. */
  type CharPred = char -> bool

  datatype Re =
    | Eps
    | Sym(pred: CharPred)
    | Cat(left: Re, right: Re)
    | Alt(branches: seq<Re>)
    | Star(body: Re)
    | Plus(body: Re)
    | Opt(body: Re)

  ghost predicate In(r: Re, w: string, i: nat, j: nat)
    decreases r, 0
  {
    match r
    case Eps => i == j
    case Sym(pred) => j == i + 1 && i < |w| && pred(w[i])
    case Cat(x, y) => exists m: nat :: In(x, w, i, m) && In(y, w, m, j)
    case Alt(rs) => exists b :: 0 <= b < |rs| && In(rs[b], w, i, j)
    case Star(x) => exists n: nat :: Power(x, n, w, i, j)
    case Plus(x) => exists n: nat :: n >= 1 && Power(x, n, w, i, j)
    case Opt(x) => i == j || In(x, w, i, j)
  }

  /** w[i..j] is a concatenation of n words of r. */
  ghost predicate Power(r: Re, n: nat, w: string, i: nat, j: nat)
    decreases r, n + 1
  {
    if n == 0 then i == j
    else exists m: nat :: In(r, w, i, m) && Power(r, n - 1, w, m, j)
  }

  /** The language of r, on whole words. */
  ghost predicate Matches(r: Re, w: string) {
    In(r, w, 0, |w|)
  }

  /** Every symbol predicate of r accepts some character (and no alternation is empty). */
  ghost predicate Inhabited(r: Re) {
    match r
    case Eps => true
    case Sym(pred) => exists c: char :: pred(c)
    case Cat(x, y) => Inhabited(x) && Inhabited(y)
    case Alt(rs) => rs != [] && forall b :: 0 <= b < |rs| ==> Inhabited(rs[b])
    case Star(x) => Inhabited(x)
    case Plus(x) => Inhabited(x)
    case Opt(x) => Inhabited(x)
  }

  /** Left-nested concatenation of a list, collapsing the empty and the singleton list. */
  function CatAll(rs: seq<Re>): Re {
    if |rs| == 0 then Eps
    else if |rs| == 1 then rs[0]
    else Cat(CatAll(rs[..|rs| - 1]), rs[|rs| - 1])
  }

  /** r{n}: n copies in sequence. */
  function Repeat(r: Re, n: nat): Re {
    CatAll(seq(n, _ => r))
  }

  lemma {:induction false} InOrder(r: Re, w: string, i: nat, j: nat)
    requires In(r, w, i, j)
    ensures i <= j && (i < j ==> j <= |w|)
    decreases r, 0
  {
    match r
    case Eps =>
    case Sym(_) =>
    case Cat(x, y) =>
      var m: nat :| In(x, w, i, m) && In(y, w, m, j);
      InOrder(x, w, i, m);
      InOrder(y, w, m, j);
    case Alt(rs) =>
      var b :| 0 <= b < |rs| && In(rs[b], w, i, j);
      InOrder(rs[b], w, i, j);
    case Star(x) =>
      var n: nat :| Power(x, n, w, i, j);
      PowerOrder(x, n, w, i, j);
    case Plus(x) =>
      var n: nat :| n >= 1 && Power(x, n, w, i, j);
      PowerOrder(x, n, w, i, j);
    case Opt(x) =>
      if i != j { InOrder(x, w, i, j); }
  }

  lemma {:induction false} PowerOrder(r: Re, n: nat, w: string, i: nat, j: nat)
    requires Power(r, n, w, i, j)
    ensures i <= j && (i < j ==> j <= |w|)
    decreases r, n + 1
  {
    if n > 0 {
      var m: nat :| In(r, w, i, m) && Power(r, n - 1, w, m, j);
      InOrder(r, w, i, m);
      PowerOrder(r, n - 1, w, m, j);
    }
  }

  /** Membership depends on the characters of the slice alone, not on what surrounds it. */
  lemma {:induction false} InSlice(r: Re, w: string, i: nat, j: nat, v: string, k: nat)
    requires In(r, w, i, j)
    requires j <= |w| && k + (j - i) <= |v|
    requires i <= j && w[i..j] == v[k..k + (j - i)]
    ensures In(r, v, k, k + (j - i))
    decreases r, 0
  {
    match r
    case Eps =>
    case Sym(_) => assert w[i] == w[i..j][0] == v[k];
    case Cat(x, y) =>
      var m: nat :| In(x, w, i, m) && In(y, w, m, j);
      InOrder(x, w, i, m);
      InOrder(y, w, m, j);
      Subslices(w, i, m, j, v, k);
      InSlice(x, w, i, m, v, k);
      InSlice(y, w, m, j, v, k + (m - i));
    case Alt(rs) =>
      var b :| 0 <= b < |rs| && In(rs[b], w, i, j);
      InSlice(rs[b], w, i, j, v, k);
    case Star(x) =>
      var n: nat :| Power(x, n, w, i, j);
      PowerSlice(x, n, w, i, j, v, k);
    case Plus(x) =>
      var n: nat :| n >= 1 && Power(x, n, w, i, j);
      PowerSlice(x, n, w, i, j, v, k);
    case Opt(x) =>
      if i != j { InSlice(x, w, i, j, v, k); }
  }

  lemma {:induction false} PowerSlice(r: Re, n: nat, w: string, i: nat, j: nat, v: string, k: nat)
    requires Power(r, n, w, i, j)
    requires j <= |w| && k + (j - i) <= |v|
    requires i <= j && w[i..j] == v[k..k + (j - i)]
    ensures Power(r, n, v, k, k + (j - i))
    decreases r, n + 1
  {
    if n > 0 {
      var m: nat :| In(r, w, i, m) && Power(r, n - 1, w, m, j);
      InOrder(r, w, i, m);
      PowerOrder(r, n - 1, w, m, j);
      Subslices(w, i, m, j, v, k);
      InSlice(r, w, i, m, v, k);
      PowerSlice(r, n - 1, w, m, j, v, k + (m - i));
    }
  }

  lemma Subslices(w: string, i: nat, m: nat, j: nat, v: string, k: nat)
    requires i <= m <= j <= |w| && k + (j - i) <= |v| && w[i..j] == v[k..k + (j - i)]
    ensures w[i..m] == v[k..k + (m - i)]
    ensures w[m..j] == v[k + (m - i)..k + (j - i)]
  {
    assert w[i..m] == w[i..j][..m - i];
    assert w[m..j] == w[i..j][m - i..];
  }

  /** Powers can be peeled from the right as well as from the left. */
  lemma {:induction false} PowerSnoc(r: Re, n: nat, w: string, i: nat, m: nat, j: nat)
    requires Power(r, n, w, i, m) && In(r, w, m, j)
    ensures Power(r, n + 1, w, i, j)
  {
    if n == 0 {
      assert Power(r, 0, w, j, j);
    } else {
      var k: nat :| In(r, w, i, k) && Power(r, n - 1, w, k, m);
      PowerSnoc(r, n - 1, w, k, m, j);
    }
  }

  lemma {:induction false} PowerUnsnoc(r: Re, n: nat, w: string, i: nat, j: nat) returns (m: nat)
    requires n >= 1 && Power(r, n, w, i, j)
    ensures Power(r, n - 1, w, i, m) && In(r, w, m, j)
  {
    var k: nat :| In(r, w, i, k) && Power(r, n - 1, w, k, j);
    if n == 1 {
      m := i;
    } else {
      m := PowerUnsnoc(r, n - 1, w, k, j);
    }
  }

  lemma CatSplit(x: Re, y: Re, w: string, i: nat, j: nat) returns (m: nat)
    requires In(Cat(x, y), w, i, j)
    ensures In(x, w, i, m) && In(y, w, m, j)
  {
    var r := Cat(x, y);
    m :| In(r.left, w, i, m) && In(r.right, w, m, j);
  }

  /** r{n} denotes exactly the n-fold power of the language of r. */
  lemma {:induction false} RepeatIsPower(r: Re, n: nat, w: string, i: nat, j: nat)
    ensures In(Repeat(r, n), w, i, j) <==> Power(r, n, w, i, j)
  {
    if n == 1 {
      assert Power(r, 1, w, i, j) <==> In(r, w, i, j) by {
        if In(r, w, i, j) { assert Power(r, 0, w, j, j); }
      }
    } else if n > 1 {
      assert seq(n, _ => r)[..n - 1] == seq(n - 1, _ => r);
      var x := Repeat(r, n - 1);
      assert Repeat(r, n) == Cat(x, r);
      if In(Repeat(r, n), w, i, j) {
        var m := CatSplit(x, r, w, i, j);
        RepeatIsPower(r, n - 1, w, i, m);
        PowerSnoc(r, n - 1, w, i, m, j);
      }
      if Power(r, n, w, i, j) {
        var m := PowerUnsnoc(r, n, w, i, j);
        RepeatIsPower(r, n - 1, w, i, m);
      }
    }
  }
}
