/** The pattern grammar: its concrete syntax trees, their text, and the recursive-descent
    reading of a pattern string.  Read is the specification the imperative parser is proved
    against; the theorems here say that it accepts exactly the texts of well-formed trees. */
module Pattern {
  import opened Options
  import opened Regex

  /** The character tables of the host language: str.isdigit, str.isalnum, str.isspace, and the
      value int() gives a digit (superscripts are digits without one). */
  datatype Tables = Tables(digit: CharPred, alnum: CharPred, space: CharPred, decimal: char -> Option<nat>)

  type Ctype = t: Tables | !t.digit('}') witness Tables(c => false, c => false, c => false, c => None)

  /** One item of a bracket class, as written. */
  datatype Item = EscItem(c: char) | LitItem(c: char) | Range(lo: char, hi: char)

  /** A pattern leaf, as written. */
  datatype Leaf = Dot | Escape(c: char) | Lit(c: char) | Set(negate: bool, items: seq<Item>)

  datatype Quant = Once | ZeroOrMore | OneOrMore | ZeroOrOne | Times(digits: string)
  datatype Atom = Group(body: Tree) | Char(leaf: Leaf)
  datatype Piece = Piece(atom: Atom, quant: Quant)
  datatype Branch = Branch(pieces: seq<Piece>)
  datatype Tree = Tree(branches: seq<Branch>)

  // --- what a tree means ---------------------------------------------------------------

  function EscapePred(tb: Ctype, e: char): CharPred {
    if e == 'd' then tb.digit
    else if e == 'D' then (c: char) => !tb.digit(c)
    else if e == 'w' then (c: char) => tb.alnum(c) || c == '_'
    else if e == 'W' then (c: char) => !(tb.alnum(c) || c == '_')
    else if e == 's' then tb.space
    else if e == 'S' then (c: char) => !tb.space(c)
    else (c: char) => c == e
  }

  function ItemPred(tb: Ctype, item: Item): CharPred {
    match item
    case EscItem(e) => EscapePred(tb, e)
    case LitItem(l) => (c: char) => c == l
    case Range(lo, hi) => (c: char) => lo <= c <= hi
  }

  predicate AnyItem(tb: Ctype, items: seq<Item>, c: char) {
    exists k :: 0 <= k < |items| && ItemPred(tb, items[k])(c)
  }

  function LeafPred(tb: Ctype, leaf: Leaf): CharPred {
    match leaf
    case Dot => (c: char) => c != '\n'
    case Escape(e) => EscapePred(tb, e)
    case Lit(l) => (c: char) => c == l
    case Set(negate, items) => (c: char) => AnyItem(tb, items, c) != negate
  }

  /** int(num) on a string of digits: fails on a digit that has no decimal value. */
  function IntOf(tb: Ctype, digits: string): Option<nat>
    decreases |digits|
  {
    if digits == [] then Some(0)
    else match (IntOf(tb, digits[..|digits| - 1]), tb.decimal(digits[|digits| - 1]))
      case (Some(n), Some(d)) => Some(10 * n + d)
      case _ => None
  }

  /** The expression a tree denotes.  Groups and single-branch, single-piece levels add nothing. */
  function Meaning(tb: Ctype, t: Tree): Re
    decreases t
  {
    if |t.branches| == 1 then BranchMeaning(tb, t.branches[0])
    else Alt(seq(|t.branches|, k requires 0 <= k < |t.branches| => BranchMeaning(tb, t.branches[k])))
  }

  function BranchMeaning(tb: Ctype, b: Branch): Re
    decreases b
  {
    CatAll(seq(|b.pieces|, k requires 0 <= k < |b.pieces| => PieceMeaning(tb, b.pieces[k])))
  }

  function PieceMeaning(tb: Ctype, x: Piece): Re
    decreases x
  {
    var r := AtomMeaning(tb, x.atom);
    match x.quant
    case Once => r
    case ZeroOrMore => Star(r)
    case OneOrMore => Plus(r)
    case ZeroOrOne => Opt(r)
    case Times(digits) => (match IntOf(tb, digits) case Some(n) => Repeat(r, n) case None => Eps)
  }

  function AtomMeaning(tb: Ctype, a: Atom): Re
    decreases a
  {
    match a
    case Group(t) => Meaning(tb, t)
    case Char(leaf) => Sym(LeafPred(tb, leaf))
  }

  // --- the text of a tree --------------------------------------------------------------

  function ItemText(item: Item): string {
    match item
    case EscItem(c) => ['\\', c]
    case LitItem(c) => [c]
    case Range(lo, hi) => [lo, '-', hi]
  }

  function ItemsText(items: seq<Item>): string {
    if items == [] then "" else ItemText(items[0]) + ItemsText(items[1..])
  }

  function LeafText(leaf: Leaf): string {
    match leaf
    case Dot => "."
    case Escape(c) => ['\\', c]
    case Lit(c) => [c]
    case Set(negate, items) => (if negate then "[^" else "[") + ItemsText(items) + "]"
  }

  function QuantText(q: Quant): string {
    match q
    case Once => ""
    case ZeroOrMore => "*"
    case OneOrMore => "+"
    case ZeroOrOne => "?"
    case Times(digits) => "{" + digits + "}"
  }

  function Text(t: Tree): string
    decreases t, 1
  {
    BranchesText(t.branches)
  }

  function BranchesText(bs: seq<Branch>): string
    decreases bs, 0
  {
    if |bs| == 0 then ""
    else if |bs| == 1 then PiecesText(bs[0].pieces)
    else PiecesText(bs[0].pieces) + "|" + BranchesText(bs[1..])
  }

  function PiecesText(ps: seq<Piece>): string
    decreases ps, 0
  {
    if ps == [] then "" else PieceText(ps[0]) + PiecesText(ps[1..])
  }

  function PieceText(x: Piece): string
    decreases x, 1
  {
    AtomText(x.atom) + QuantText(x.quant)
  }

  function AtomText(a: Atom): string
    decreases a, 0
  {
    match a
    case Group(t) => "(" + Text(t) + ")"
    case Char(leaf) => LeafText(leaf)
  }

  // --- which trees are read back from their own text ------------------------------------

  /** The characters that cannot stand for themselves at the start of an atom. */
  predicate Reserved(c: char) {
    c in "([.\\)|*+?{"
  }

  /** A literal inside a class must not look like the start of a range. */
  predicate LooksLikeRange(rest: string) {
    |rest| >= 2 && rest[0] == '-' && rest[1] != ']'
  }

  predicate ItemOk(item: Item, rest: string) {
    match item
    case EscItem(_) => true
    case LitItem(c) => c != '\\' && c != ']' && !LooksLikeRange(rest)
    case Range(lo, hi) => lo != '\\' && lo != ']' && hi != ']'
  }

  predicate ItemsOk(items: seq<Item>) {
    items == [] || (ItemOk(items[0], ItemsText(items[1..]) + "]") && ItemsOk(items[1..]))
  }

  predicate LeafOk(leaf: Leaf) {
    match leaf
    case Dot => true
    case Escape(_) => true
    case Lit(c) => !Reserved(c)
    case Set(negate, items) => ItemsOk(items) && (negate || ItemsText(items) == "" || ItemsText(items)[0] != '^')
  }

  predicate QuantOk(tb: Ctype, q: Quant) {
    q.Times? ==>
      q.digits != [] && (forall k :: 0 <= k < |q.digits| ==> tb.digit(q.digits[k])) && IntOf(tb, q.digits).Some?
  }

  predicate TreeOk(tb: Ctype, t: Tree)
    decreases t, 1
  {
    t.branches != [] && forall k :: 0 <= k < |t.branches| ==> BranchOk(tb, t.branches[k])
  }

  predicate BranchOk(tb: Ctype, b: Branch)
    decreases b, 1
  {
    forall k :: 0 <= k < |b.pieces| ==> PieceOk(tb, b.pieces[k])
  }

  predicate PieceOk(tb: Ctype, x: Piece)
    decreases x, 1
  {
    QuantOk(tb, x.quant) && AtomOk(tb, x.atom)
  }

  predicate AtomOk(tb: Ctype, a: Atom)
    decreases a, 0
  {
    match a
    case Group(t) => TreeOk(tb, t)
    case Char(leaf) => LeafOk(leaf)
  }

  // --- reading a pattern -----------------------------------------------------------------

  datatype Error =
    | Unexpected | UnbalancedParen | UnbalancedBracket | TrailingBackslash | BadBrace | NotAnInteger | IndexOutOfRange

  datatype Res<T> = Ok(value: T, next: nat) | Fail(error: Error)

  function Next(p: string, i: nat): Option<char> {
    if i < |p| then Some(p[i]) else None
  }

  function ReadItem(p: string, i: nat): (r: Res<Item>)
    requires i < |p|
    ensures r.Ok? ==> i < r.next <= |p|
  {
    if p[i] == '\\' then
      if i + 1 < |p| then Ok(EscItem(p[i + 1]), i + 2) else Fail(IndexOutOfRange)
    else if i + 2 < |p| && p[i + 1] == '-' && p[i + 2] != ']' then Ok(Range(p[i], p[i + 2]), i + 3)
    else Ok(LitItem(p[i]), i + 1)
  }

  function ReadItems(p: string, i: nat): (r: Res<seq<Item>>)
    requires i <= |p|
    ensures r.Ok? ==> i <= r.next < |p| && p[r.next] == ']'
    decreases |p| - i
  {
    if i == |p| then Fail(UnbalancedBracket)
    else if p[i] == ']' then Ok([], i)
    else match ReadItem(p, i)
      case Fail(e) => Fail(e)
      case Ok(x, j) => Push(x, ReadItems(p, j))
  }

  function Push<T>(x: T, r: Res<seq<T>>): Res<seq<T>> {
    match r
    case Ok(xs, j) => Ok([x] + xs, j)
    case Fail(e) => Fail(e)
  }

  /** What a loop that has already collected xs will return. */
  function Prepend<T>(xs: seq<T>, r: Res<seq<T>>): Res<seq<T>> {
    match r
    case Ok(ys, j) => Ok(xs + ys, j)
    case Fail(e) => Fail(e)
  }

  lemma PrependPush<T>(xs: seq<T>, x: T, r: Res<seq<T>>)
    ensures Prepend(xs, Push(x, r)) == Prepend(xs + [x], r)
  {
    if r.Ok? { assert xs + ([x] + r.value) == xs + [x] + r.value; }
  }

  lemma PrependNil<T>(r: Res<seq<T>>)
    ensures Prepend([], r) == r
  {
    if r.Ok? { assert [] + r.value == r.value; }
  }

  function ReadClass(p: string, i: nat): (r: Res<Leaf>)
    requires i < |p| && p[i] == '['
    ensures r.Ok? ==> i < r.next <= |p|
  {
    var negate := Next(p, i + 1) == Some('^');
    match ReadItems(p, if negate then i + 2 else i + 1)
    case Fail(e) => Fail(e)
    case Ok(items, j) => Ok(Set(negate, items), j + 1)
  }

  function DigitsEnd(tb: Ctype, p: string, j: nat): (k: nat)
    requires j <= |p|
    ensures j <= k <= |p|
    decreases |p| - j
  {
    if j < |p| && tb.digit(p[j]) then DigitsEnd(tb, p, j + 1) else j
  }

  /** The {n} suffix whose opening brace is at i. */
  function ReadBrace(tb: Ctype, p: string, i: nat): (r: Res<Quant>)
    requires i < |p|
    ensures r.Ok? ==> i < r.next <= |p| && r.value.Times?
  {
    var k := DigitsEnd(tb, p, i + 1);
    if k == i + 1 || k == |p| || p[k] != '}' then Fail(BadBrace)
    else if IntOf(tb, p[i + 1..k]).None? then Fail(NotAnInteger)
    else Ok(Times(p[i + 1..k]), k + 1)
  }

  function ReadQuant(tb: Ctype, p: string, i: nat): (r: Res<Quant>)
    requires i <= |p|
    ensures r.Ok? ==> i <= r.next <= |p|
  {
    match Next(p, i)
    case Some(c) =>
      if c == '*' then Ok(ZeroOrMore, i + 1)
      else if c == '+' then Ok(OneOrMore, i + 1)
      else if c == '?' then Ok(ZeroOrOne, i + 1)
      else if c == '{' then ReadBrace(tb, p, i)
      else Ok(Once, i)
    case None => Ok(Once, i)
  }

  function ReadTree(tb: Ctype, p: string, i: nat): (r: Res<Tree>)
    requires i <= |p|
    ensures r.Ok? ==> i <= r.next <= |p|
    decreases |p| - i, 4
  {
    match ReadBranches(tb, p, i)
    case Ok(bs, j) => Ok(Tree(bs), j)
    case Fail(e) => Fail(e)
  }

  function ReadBranches(tb: Ctype, p: string, i: nat): (r: Res<seq<Branch>>)
    requires i <= |p|
    ensures r.Ok? ==> i <= r.next <= |p| && r.value != []
    decreases |p| - i, 3
  {
    match ReadPieces(tb, p, i)
    case Fail(e) => Fail(e)
    case Ok(ps, j) =>
      if Next(p, j) == Some('|') then Push(Branch(ps), ReadBranches(tb, p, j + 1)) else Ok([Branch(ps)], j)
  }

  function ReadPieces(tb: Ctype, p: string, i: nat): (r: Res<seq<Piece>>)
    requires i <= |p|
    ensures r.Ok? ==> i <= r.next <= |p| && (r.next == |p| || p[r.next] == '|' || p[r.next] == ')')
    decreases |p| - i, 2
  {
    if i == |p| || p[i] == '|' || p[i] == ')' then Ok([], i)
    else match ReadPiece(tb, p, i)
      case Fail(e) => Fail(e)
      case Ok(x, j) => Push(x, ReadPieces(tb, p, j))
  }

  function ReadPiece(tb: Ctype, p: string, i: nat): (r: Res<Piece>)
    requires i <= |p|
    ensures r.Ok? ==> i < r.next <= |p|
    decreases |p| - i, 1
  {
    match ReadAtom(tb, p, i)
    case Fail(e) => Fail(e)
    case Ok(a, j) =>
      match ReadQuant(tb, p, j)
      case Fail(e) => Fail(e)
      case Ok(q, k) => Ok(Piece(a, q), k)
  }

  function ReadAtom(tb: Ctype, p: string, i: nat): (r: Res<Atom>)
    requires i <= |p|
    ensures r.Ok? ==> i < r.next <= |p|
    decreases |p| - i, 0
  {
    match Next(p, i)
    case None => Fail(Unexpected)
    case Some(c) =>
      if c == '(' then
        match ReadTree(tb, p, i + 1)
        case Fail(e) => Fail(e)
        case Ok(t, j) => if Next(p, j) == Some(')') then Ok(Group(t), j + 1) else Fail(UnbalancedParen)
      else if c == '[' then
        match ReadClass(p, i)
        case Fail(e) => Fail(e)
        case Ok(leaf, j) => Ok(Char(leaf), j)
      else if c == '.' then Ok(Char(Dot), i + 1)
      else if c == '\\' then
        if i + 1 < |p| then Ok(Char(Escape(p[i + 1])), i + 2) else Fail(TrailingBackslash)
      else if c in ")|*+?{" then Fail(Unexpected)
      else Ok(Char(Lit(c)), i + 1)
  }

  /** Reading the whole pattern: nothing may be left over. */
  function Read(tb: Ctype, p: string): Res<Tree> {
    match ReadTree(tb, p, 0)
    case Fail(e) => Fail(e)
    case Ok(t, j) => if j == |p| then Ok(t, j) else Fail(Unexpected)
  }
}
