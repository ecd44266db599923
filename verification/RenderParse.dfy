/** Pages rendered from records, with noise, in three templates. */
module Pages {
  import opened Counting
  import opened Options
  import opened Findall

  datatype Template = Table | Divs | List

  /** The seeded choices of the generator: the title word, optional noise, and the line break inside cells. */
  datatype Extras = Extras(title: string, nav: Option<string>, comment: Option<string>, aside: Option<string>,
                           footer: Option<string>, nl: string)

  function Head(title: string): string {
    "<html>" + "<head>" + ("<title>" + title + " report") + "</title>" + "</head>" + "<body>"
  }

  function Nav(n: Option<string>): string {
    if n.None? then ""
    else "<nav>" + "<a href='/'>home" + "</a>" + ("<a href='/x" + n.value + "'>archive") + "</a>" + "</nav>"
  }

  function Comment(text: Option<string>): string {
    if text.None? then "" else "<!-- " + text.value + " -->"
  }

  function Aside(n: Option<string>): string {
    if n.None? then "" else ("<aside" + " class='promo'>") + ("only " + n.value + " days left") + "</aside>"
  }

  function Footer(year: Option<string>): string {
    if year.None? then "" else "<footer>" + ("generated " + year.value) + "</footer>"
  }

  function HeadCells(fields: seq<string>): string {
    if fields == [] then "" else (("<th>" + fields[0]) + "</th>") + HeadCells(fields[1..])
  }

  function Cells(values: seq<string>): string {
    if values == [] then "" else ("<td>" + values[0] + "</td>") + Cells(values[1..])
  }

  function Spans(fields: seq<string>, values: seq<string>, nl: string): string
    requires |fields| == |values|
  {
    if values == [] then ""
    else
      (("<span class='" + fields[0] + "'") + (">" + values[0] + "</span>") + nl) + Spans(fields[1..], values[1..], nl)
  }

  function Pairs(fields: seq<string>, values: seq<string>): seq<string>
    requires |fields| == |values|
  {
    if values == [] then [] else [fields[0] + ": " + values[0]] + Pairs(fields[1..], values[1..])
  }

  function Join(parts: seq<string>, sep: string): string {
    if parts == [] then "" else if |parts| == 1 then parts[0] else parts[0] + sep + Join(parts[1..], sep)
  }

  /** The parts that stand for one record; extra is the noise drawn with it. */
  function RowParts(t: Template, fields: seq<string>, values: seq<string>, extra: Option<string>,
                    nl: string): seq<string>
    requires |fields| == |values|
  {
    match t
    case Table => [Comment(extra), "<tr>" + Cells(values) + "</tr>"]
    case Divs => [if extra.None? then "" else "<div class='spacer'>" + "</div>",
                  "<div class='item'>" + (nl + Spans(fields, values, nl)) + "</div>"]
    case List => ["<li>" + Join(Pairs(fields, values), " | ") + "</li>", Comment(extra)]
  }

  function Rows(t: Template, fields: seq<string>, rows: seq<seq<string>>, extras: seq<Option<string>>,
                nl: string): seq<string>
    requires |extras| == |rows| && forall i :: 0 <= i < |rows| ==> |rows[i]| == |fields|
  {
    if rows == [] then []
    else
      var n := |rows| - 1;
      Rows(t, fields, rows[..n], extras[..n], nl) + RowParts(t, fields, rows[n], extras[n], nl)
  }

  function Before(t: Template, fields: seq<string>, x: Extras): seq<string> {
    [Head(x.title), Nav(x.nav), Comment(x.comment), Aside(x.aside)]
    + match t
      case Table => ["<table id='data'>", "<tr>" + HeadCells(fields) + "</tr>"]
      case Divs => ["<div class='items'>"]
      case List => ["<ul class='records'>"]
  }

  function Behind(t: Template, x: Extras): seq<string> {
    [match t case Table => "</table>" case Divs => "</div>" case List => "</ul>", Footer(x.footer),
     "</body>" + "</html>"]
  }

  function Page(t: Template, fields: seq<string>, rows: seq<seq<string>>, extras: seq<Option<string>>,
                x: Extras): string
    requires |extras| == |rows| && forall i :: 0 <= i < |rows| ==> |rows[i]| == |fields|
  {
    JoinLines(Before(t, Shown(fields, rows), x) + Rows(t, fields, rows, extras, x.nl) + Behind(t, x))
  }

  /** Field names come from the first record, so without records there are none to show. */
  function Shown(fields: seq<string>, rows: seq<seq<string>>): seq<string> {
    if rows == [] then [] else fields
  }

  lemma NextRow(t: Template, fields: seq<string>, rows: seq<seq<string>>, extras: seq<Option<string>>, nl: string,
                i: nat)
    requires |extras| == |rows| && (forall j :: 0 <= j < |rows| ==> |rows[j]| == |fields|) && i < |rows|
    ensures Rows(t, fields, rows[..i + 1], extras[..i + 1], nl) ==
            Rows(t, fields, rows[..i], extras[..i], nl) + RowParts(t, fields, rows[i], extras[i], nl)
  {
    var upTo, with := rows[..i + 1], extras[..i + 1];
    assert upTo[..i] == rows[..i] && with[..i] == extras[..i];
  }

  /** The renderer: appends parts as it goes and joins the non-empty ones. */
  method RenderPage(t: Template, fields: seq<string>, rows: seq<seq<string>>, extras: seq<Option<string>>, x: Extras)
    returns (page: string)
    requires |extras| == |rows| && forall i :: 0 <= i < |rows| ==> |rows[i]| == |fields|
    ensures page == Page(t, fields, rows, extras, x)
  {
    var parts := OpenPage(t, Shown(fields, rows), x);
    parts := AppendRows(t, fields, rows, extras, x.nl, parts);
    parts := parts + Behind(t, x);
    page := JoinLines(parts);
  }

  method AppendRows(t: Template, fields: seq<string>, rows: seq<seq<string>>, extras: seq<Option<string>>, nl: string,
                    before: seq<string>) returns (parts: seq<string>)
    requires |extras| == |rows| && forall i :: 0 <= i < |rows| ==> |rows[i]| == |fields|
    ensures parts == before + Rows(t, fields, rows, extras, nl)
  {
    parts := before;
    var i := 0;
    while i < |rows|
      invariant i <= |rows| && parts == before + Rows(t, fields, rows[..i], extras[..i], nl)
    {
      NextRow(t, fields, rows, extras, nl, i);
      Regroup(before, Rows(t, fields, rows[..i], extras[..i], nl), RowParts(t, fields, rows[i], extras[i], nl));
      parts := parts + RowParts(t, fields, rows[i], extras[i], nl);
      i := i + 1;
    }
    assert rows[..i] == rows && extras[..i] == extras;
  }

  method OpenPage(t: Template, fields: seq<string>, x: Extras) returns (parts: seq<string>)
    ensures parts == Before(t, fields, x)
  {
    parts := [Head(x.title)];
    parts := parts + [Nav(x.nav)];
    parts := parts + [Comment(x.comment)];
    parts := parts + [Aside(x.aside)];
    match t {
      case Table =>
        parts := parts + ["<table id='data'>"];
        parts := parts + ["<tr>" + HeadCells(fields) + "</tr>"];
      case Divs => parts := parts + ["<div class='items'>"];
      case List => parts := parts + ["<ul class='records'>"];
    }
  }
}

/** What a scan for rows, items or list entries finds in the noise around the records: nothing. */
module PageNoise {
  import opened Options
  import opened Findall
  import opened Pages

  /** An opening tag such as <tr>, <table, <div class='item'> or <li>. */
  ghost predicate Opening(m: Marks) {
    && |m.open| >= 3 && m.open[0] == '<'
    && (m.open[1] == 't' || m.open[1] == 'd' || m.open[1] == 'l') && (m.open[1] == 't' ==> m.open[2] != 'i')
  }

  /** Generated words and numbers hold no markup. */
  ghost predicate PlainWord(s: Option<string>) {
    s.Some? ==> '<' !in s.value
  }

  ghost predicate PlainExtras(x: Extras) {
    '<' !in x.title && PlainWord(x.nav) && PlainWord(x.comment) && PlainWord(x.aside) && PlainWord(x.footer)
  }

  /** A tag, with the text behind it, that no row begins with. */
  lemma Passed(m: Marks, tag: string, tail: string)
    requires Opening(m) && tag == "<" + tail && tail != "" && '<' !in tail
    requires tail[0] != 't' && tail[0] != 'd' && tail[0] != 'l'
    ensures Yields(m, tag, [])
  {
    assert [m.open[0]] + tail == tag;
    YieldsTag(m, tag, tail, 1);
  }

  /** Moving the first character out of a concatenation. */
  lemma Lead(a: string, a': string, b: string, c: string)
    requires a == "<" + a'
    ensures a + b + c == "<" + (a' + b + c) && a + b == "<" + (a' + b)
  {}

  lemma Both(m: Marks, a: string, b: string)
    requires Yields(m, a, []) && Yields(m, b, [])
    ensures Yields(m, a + b, [])
  {
    YieldsBoth(m, a, [], b, []);
    var none: seq<string> := [];
    assert none + none == none;
  }

  lemma Both4(m: Marks, a: string, b: string, c: string, d: string)
    requires Yields(m, a, []) && Yields(m, b, []) && Yields(m, c, []) && Yields(m, d, [])
    ensures Yields(m, a + b + c + d, [])
  {
    Both(m, a, b);
    Both(m, a + b, c);
    Both(m, a + b + c, d);
  }

  lemma Both6(m: Marks, a: string, b: string, c: string, d: string, e: string, f: string)
    requires Yields(m, a, []) && Yields(m, b, []) && Yields(m, c, []) && Yields(m, d, []) && Yields(m, e, [])
    requires Yields(m, f, [])
    ensures Yields(m, a + b + c + d + e + f, [])
  {
    Both4(m, a, b, c, d);
    Both(m, a + b + c + d, e);
    Both(m, a + b + c + d + e, f);
  }

  lemma Said(m: Marks, text: string)
    requires Opening(m) && '<' !in text
    ensures Yields(m, text, [])
  {
    YieldsText(m, text);
  }

  lemma HeadPassed(m: Marks, title: string)
    requires Opening(m) && '<' !in title
    ensures Yields(m, Head(title), [])
  {
    Passed(m, "<html>", "html>");
    Passed(m, "<head>", "head>");
    Both(m, "<html>", "<head>");
    var t := "<title>" + title + " report";
    TitlePassed(m, title, t);
    Both(m, "<html>" + "<head>", t);
    Passed(m, "</title>", "/title>");
    Both(m, "<html>" + "<head>" + t, "</title>");
    Passed(m, "</head>", "/head>");
    Both(m, "<html>" + "<head>" + t + "</title>", "</head>");
    Passed(m, "<body>", "body>");
    Both(m, "<html>" + "<head>" + t + "</title>" + "</head>", "<body>");
  }

  lemma TitlePassed(m: Marks, title: string, t: string)
    requires Opening(m) && '<' !in title && t == "<title>" + title + " report"
    ensures Yields(m, t, [])
  {
    var tail := "title>" + title + " report";
    Lead("<title>", "title>", title, " report");
    assert [m.open[0]] + tail == t;
    YieldsTag(m, t, tail, if m.open[1] == 't' then 2 else 1);
  }

  lemma NavPassed(m: Marks, n: Option<string>)
    requires Opening(m) && PlainWord(n)
    ensures Yields(m, Nav(n), [])
  {
    if n.None? {
      YieldsNothing(m);
    } else {
      var link := "<a href='/x" + n.value + "'>archive";
      Passed(m, "<nav>", "nav>");
      Passed(m, "<a href='/'>home", "a href='/'>home");
      Passed(m, "</a>", "/a>");
      LinkPassed(m, n.value, link);
      Passed(m, "</nav>", "/nav>");
      Both6(m, "<nav>", "<a href='/'>home", "</a>", link, "</a>", "</nav>");
    }
  }

  lemma LinkPassed(m: Marks, number: string, link: string)
    requires Opening(m) && '<' !in number && link == "<a href='/x" + number + "'>archive"
    ensures Yields(m, link, [])
  {
    Lead("<a href='/x", "a href='/x", number, "'>archive");
    Passed(m, link, "a href='/x" + number + "'>archive");
  }

  lemma CommentPassed(m: Marks, text: Option<string>)
    requires Opening(m) && PlainWord(text)
    ensures Yields(m, Comment(text), [])
  {
    if text.None? {
      YieldsNothing(m);
    } else {
      Lead("<!-- ", "!-- ", text.value, " -->");
      Passed(m, Comment(text), "!-- " + text.value + " -->");
    }
  }

  lemma AsidePassed(m: Marks, n: Option<string>)
    requires Opening(m) && PlainWord(n)
    ensures Yields(m, Aside(n), [])
  {
    if n.None? {
      YieldsNothing(m);
    } else {
      var said := "only " + n.value + " days left";
      AsideParts(m);
      Said(m, said);
      Both4(m, "<aside", " class='promo'>", said, "</aside>");
    }
  }

  lemma AsideParts(m: Marks)
    requires Opening(m)
    ensures Yields(m, "<aside", []) && Yields(m, " class='promo'>", []) && Yields(m, "</aside>", [])
  {
    Passed(m, "<aside", "aside");
    Said(m, " class='promo'>");
    Passed(m, "</aside>", "/aside>");
  }

  lemma FooterPassed(m: Marks, year: Option<string>)
    requires Opening(m) && PlainWord(year)
    ensures Yields(m, Footer(year), [])
  {
    if year.None? {
      YieldsNothing(m);
    } else {
      var said := "generated " + year.value;
      Passed(m, "<footer>", "footer>");
      Said(m, said);
      Both(m, "<footer>", said);
      Passed(m, "</footer>", "/footer>");
      Both(m, "<footer>" + said, "</footer>");
    }
  }

  lemma EndPassed(m: Marks)
    requires Opening(m)
    ensures Yields(m, "</body>" + "</html>", [])
  {
    Passed(m, "</body>", "/body>");
    Passed(m, "</html>", "/html>");
    Both(m, "</body>", "</html>");
  }
}

/** The programs the reference teacher writes, run on pages. */
module PageParsers {
  import opened Options
  import opened Findall
  import opened Pages
  import opened PageNoise

  function RowMarks(): Marks {
    Marks("<tr>", "</tr>", (c: char) => true)
  }

  /** Without re.S the dot stops at a newline. */
  function CellMarks(): Marks {
    Marks("<td>", "</td>", (c: char) => c != '\n')
  }

  function ItemMarks(): Marks {
    Marks("<div class='item'>", "</div>", (c: char) => true)
  }

  function SpanMarks(): Marks {
    Marks(">", "</span>", (c: char) => c != '<')
  }

  function EntryMarks(): Marks {
    Marks("<li>", "</li>", (c: char) => true)
  }

  /** The values of each row with one cell per field. */
  function TableValues(k: nat, rows: seq<string>): seq<seq<string>> {
    if rows == [] then []
    else
      var v := FindAll(CellMarks(), rows[0]);
      (if |v| == k then [v] else []) + TableValues(k, rows[1..])
  }

  function ParseTable(k: nat, page: string): seq<seq<string>> {
    TableValues(k, FindAll(RowMarks(), page))
  }

  /** The first k values of each item; None is the IndexError when one has fewer. */
  function DivValues(k: nat, items: seq<string>): Option<seq<seq<string>>> {
    if items == [] then Some([])
    else
      var v, rest := FindAll(SpanMarks(), items[0]), DivValues(k, items[1..]);
      if |v| < k || rest.None? then None else Some([v[..k]] + rest.value)
  }

  function ParseDivs(k: nat, page: string): Option<seq<seq<string>>> {
    DivValues(k, FindAll(ItemMarks(), page))
  }

  // --- tables ---------------------------------------------------------------------------------------

  ghost predicate TableText(s: string) {
    '<' !in s && '\n' !in s
  }

  lemma {:induction false} CellsYield(values: seq<string>)
    requires forall i :: 0 <= i < |values| ==> TableText(values[i])
    ensures Yields(CellMarks(), Cells(values), values)
  {
    var m := CellMarks();
    if values == [] {
      YieldsNothing(m);
    } else {
      CellsYield(values[1..]);
      RunsText(m, values[0]);
      YieldsBody(m, values[0]);
      YieldsBoth(m, "<td>" + values[0] + "</td>", [values[0]], Cells(values[1..]), values[1..]);
      assert [values[0]] + values[1..] == values;
    }
  }

  lemma {:induction false} CellsRun(values: seq<string>)
    requires forall i :: 0 <= i < |values| ==> '<' !in values[i]
    ensures Runs(RowMarks(), Cells(values))
  {
    var m := RowMarks();
    if values == [] {
      RunsNothing(m);
    } else {
      CellsRun(values[1..]);
      RunsTag(m, "<td>", "td>", 1);
      RunsText(m, values[0]);
      RunsBoth(m, "<td>", values[0]);
      RunsTag(m, "</td>", "/td>", 3);
      RunsBoth(m, "<td>" + values[0], "</td>");
      RunsBoth(m, "<td>" + values[0] + "</td>", Cells(values[1..]));
    }
  }

  lemma {:induction false} HeadCellsPass(fields: seq<string>)
    requires forall i :: 0 <= i < |fields| ==> '<' !in fields[i]
    ensures Yields(CellMarks(), HeadCells(fields), []) && Runs(RowMarks(), HeadCells(fields))
  {
    var m, r := CellMarks(), RowMarks();
    if fields == [] {
      YieldsNothing(m);
      RunsNothing(r);
    } else {
      HeadCellsPass(fields[1..]);
      HeadCellYields(m, fields[0]);
      HeadCellRuns(r, fields[0]);
      var none: seq<string> := [];
      YieldsBoth(m, "<th>" + fields[0] + "</th>", none, HeadCells(fields[1..]), none);
      assert none + none == none;
      RunsBoth(r, "<th>" + fields[0] + "</th>", HeadCells(fields[1..]));
    }
  }

  lemma HeadCellYields(m: Marks, name: string)
    requires m == CellMarks() && '<' !in name
    ensures Yields(m, "<th>" + name + "</th>", [])
  {
    var none: seq<string> := [];
    YieldsTag(m, "<th>", "th>", 2);
    YieldsText(m, name);
    assert none + none == none;
    YieldsBoth(m, "<th>", none, name, none);
    YieldsTag(m, "</th>", "/th>", 1);
    YieldsBoth(m, "<th>" + name, none, "</th>", none);
  }

  lemma HeadCellRuns(r: Marks, name: string)
    requires r == RowMarks() && '<' !in name
    ensures Runs(r, "<th>" + name + "</th>")
  {
    RunsTag(r, "<th>", "th>", 1);
    RunsText(r, name);
    RunsBoth(r, "<th>", name);
    RunsTag(r, "</th>", "/th>", 3);
    RunsBoth(r, "<th>" + name, "</th>");
  }

  // --- divs -----------------------------------------------------------------------------------------

  lemma {:induction false} SpansYield(fields: seq<string>, values: seq<string>, nl: string)
    requires |fields| == |values| && '>' !in nl
    requires forall i :: 0 <= i < |fields| ==> '>' !in fields[i] && '<' !in values[i]
    ensures Yields(SpanMarks(), Spans(fields, values, nl), values)
  {
    var m := SpanMarks();
    if values == [] {
      YieldsNothing(m);
    } else {
      SpansYield(fields[1..], values[1..], nl);
      SpanYields(m, fields[0], values[0], nl);
      YieldsBoth(m, ("<span class='" + fields[0] + "'") + (">" + values[0] + "</span>") + nl, [values[0]],
                 Spans(fields[1..], values[1..], nl), values[1..]);
      assert [values[0]] + values[1..] == values;
    }
  }

  lemma SpanYields(m: Marks, name: string, value: string, nl: string)
    requires m == SpanMarks() && '>' !in name && '<' !in value && '>' !in nl
    ensures Yields(m, ("<span class='" + name + "'") + (">" + value + "</span>") + nl, [value])
  {
    var none: seq<string> := [];
    YieldsText(m, "<span class='" + name + "'");
    RunsText(m, value);
    YieldsBody(m, value);
    YieldsBoth(m, "<span class='" + name + "'", none, ">" + value + "</span>", [value]);
    YieldsText(m, nl);
    assert none + [value] == [value] && [value] + none == [value];
    YieldsBoth(m, ("<span class='" + name + "'") + (">" + value + "</span>"), [value], nl, none);
  }

  lemma {:induction false} SpansRun(fields: seq<string>, values: seq<string>, nl: string)
    requires |fields| == |values| && '<' !in nl
    requires forall i :: 0 <= i < |fields| ==> '<' !in fields[i] && '<' !in values[i]
    ensures Runs(ItemMarks(), Spans(fields, values, nl))
  {
    var m := ItemMarks();
    if values == [] {
      RunsNothing(m);
    } else {
      SpansRun(fields[1..], values[1..], nl);
      SpanRuns(m, fields[0], values[0], nl);
      RunsBoth(m, ("<span class='" + fields[0] + "'") + (">" + values[0] + "</span>") + nl,
               Spans(fields[1..], values[1..], nl));
    }
  }

  lemma SpanRuns(m: Marks, name: string, value: string, nl: string)
    requires m == ItemMarks() && '<' !in name && '<' !in value && '<' !in nl
    ensures Runs(m, ("<span class='" + name + "'") + (">" + value + "</span>") + nl)
  {
    SpanOpenRuns(m, name, "<span class='" + name + "'");
    RunsText(m, ">" + value);
    RunsTag(m, "</span>", "/span>", 2);
    RunsText(m, nl);
    RunsBoth4(m, "<span class='" + name + "'", ">" + value, "</span>", nl);
  }

  lemma SpanOpenRuns(m: Marks, name: string, open: string)
    requires m == ItemMarks() && '<' !in name && open == "<span class='" + name + "'"
    ensures Runs(m, open)
  {
    Lead("<span class='", "span class='", name, "'");
    RunsTag(m, open, "span class='" + name + "'", 1);
  }

  lemma RunsBoth4(m: Marks, a: string, b: string, c: string, d: string)
    requires Runs(m, a) && Runs(m, b) && Runs(m, c) && Runs(m, d)
    ensures Runs(m, a + (b + c) + d)
  {
    RunsBoth(m, b, c);
    RunsBoth(m, a, b + c);
    RunsBoth(m, a + (b + c), d);
  }
}

/** The list program: entries of "name: value" pairs. */
module ListParser {
  import opened Options
  import opened Counting
  import opened Findall
  import opened Pages
  import opened PageParsers

  /** Where sep first occurs: a capture with nothing in front. */
  function Cut(sep: string): Marks {
    Marks("", sep, (c: char) => true)
  }

  function Split(s: string, sep: string): (parts: seq<string>)
    requires sep != ""
    decreases |s|
  {
    var k := Capture(Cut(sep), s);
    if k.None? then [s]
    else
      CaptureFits(Cut(sep), s);
      [s[..k.value]] + Split(s[k.value + |sep|..], sep)
  }

  /** The key and value of a pair; None is the ValueError when there is no separator. */
  function SplitPair(p: string): Option<(string, string)> {
    var k := Capture(Cut(": "), p);
    if k.None? then None
    else
      CaptureFits(Cut(": "), p);
      Some((p[..k.value], p[k.value + 2..]))
  }

  function Dict(pairs: seq<string>): Option<map<string, string>> {
    if pairs == [] then Some(map[])
    else
      var n := |pairs| - 1;
      var before, last := Dict(pairs[..n]), SplitPair(pairs[n]);
      if before.None? || last.None? then None else Some(before.value[last.value.0 := last.value.1])
  }

  /** The values of the fields in order; None is the KeyError of a missing one. */
  function Lookup(kv: map<string, string>, fields: seq<string>): Option<seq<string>> {
    if fields == [] then Some([])
    else if fields[0] !in kv || Lookup(kv, fields[1..]).None? then None
    else Some([kv[fields[0]]] + Lookup(kv, fields[1..]).value)
  }

  function EntryValues(fields: seq<string>, entry: string): Option<seq<string>> {
    var kv := Dict(Split(entry, " | "));
    if kv.None? then None else Lookup(kv.value, fields)
  }

  function ListValues(fields: seq<string>, entries: seq<string>): Option<seq<seq<string>>> {
    if entries == [] then Some([])
    else
      var first, rest := EntryValues(fields, entries[0]), ListValues(fields, entries[1..]);
      if first.None? || rest.None? then None else Some([first.value] + rest.value)
  }

  function ParseList(fields: seq<string>, page: string): Option<seq<seq<string>>> {
    ListValues(fields, FindAll(EntryMarks(), page))
  }

  // --- splitting undoes joining ---------------------------------------------------------------------

  /** A text without a bar holds no separator, unless a bar follows it at once. */
  lemma {:induction false} RunsUpTo(text: string, rest: string)
    requires '|' !in text && (rest == "" || rest[0] != '|')
    ensures RunsBefore(Cut(" | "), text, rest)
  {
    if text == "" {
      assert text + rest == rest;
    } else {
      var s, tail := text + rest, text[1..] + rest;
      assert s[1..] == tail;
      assert tail == "" || tail[0] != '|' by { if |text| > 1 { assert text[1] in text; } }
      RunsUpTo(text[1..], rest);
    }
  }

  lemma {:induction false} SplitJoin(parts: seq<string>)
    requires parts != [] && forall i :: 0 <= i < |parts| ==> '|' !in parts[i]
    ensures Split(Join(parts, " | "), " | ") == parts
  {
    var first := parts[0];
    if |parts| == 1 {
      RunsUpTo(first, "");
      assert first + "" == first;
    } else {
      var rest := Join(parts[1..], " | ");
      SplitJoin(parts[1..]);
      RunsUpTo(first, " | " + rest);
      var s := first + (" | " + rest);
      assert Capture(Cut(" | "), " | " + rest) == Some(0);
      assert s == Join(parts, " | ");
      assert s[..|first|] == first && s[|first| + 3..] == rest;
    }
  }

  lemma PairSplits(name: string, value: string)
    requires ':' !in name
    ensures SplitPair(name + ": " + value) == Some((name, value))
  {
    var m, rest := Cut(": "), ": " + value;
    RunsText(m, name);
    assert RunsBefore(m, name, rest);
    assert Capture(m, rest) == Some(0);
    assert name + ": " + value == name + rest;
    assert (name + rest)[..|name|] == name && (name + rest)[|name| + 2..] == value;
  }

  ghost predicate Names(fields: seq<string>) {
    Distinct(fields) && forall i :: 0 <= i < |fields| ==> ':' !in fields[i]
  }

  lemma {:induction false} PairAt(fields: seq<string>, values: seq<string>, i: nat)
    requires |fields| == |values| && i < |fields|
    ensures |Pairs(fields, values)| == |fields| && Pairs(fields, values)[i] == fields[i] + ": " + values[i]
  {
    if i > 0 { PairAt(fields[1..], values[1..], i - 1); } else if |fields| > 1 { PairAt(fields[1..], values[1..], 0); }
  }

  /** The pairs up to number n as a dictionary: exactly those names, with their values. */
  ghost predicate Holds(kv: map<string, string>, fields: seq<string>, values: seq<string>, n: nat)
    requires n <= |fields| == |values|
  {
    forall i :: 0 <= i < n ==> fields[i] in kv && kv[fields[i]] == values[i]
  }

  lemma {:induction false} DictHolds(fields: seq<string>, values: seq<string>, n: nat)
    requires |fields| == |values| && Names(fields) && n <= |fields|
    ensures |Pairs(fields, values)| == |fields|
    ensures var kv := Dict(Pairs(fields, values)[..n]); kv.Some? && Holds(kv.value, fields, values, n)
  {
    if fields != [] { PairAt(fields, values, 0); }
    if n > 0 {
      var upTo := Pairs(fields, values)[..n];
      DictHolds(fields, values, n - 1);
      assert upTo[..n - 1] == Pairs(fields, values)[..n - 1];
      PairAt(fields, values, n - 1);
      PairSplits(fields[n - 1], values[n - 1]);
    }
  }

  lemma {:induction false} LookupFinds(kv: map<string, string>, fields: seq<string>, values: seq<string>)
    requires |fields| == |values| && forall i :: 0 <= i < |fields| ==> fields[i] in kv && kv[fields[i]] == values[i]
    ensures Lookup(kv, fields) == Some(values)
  {
    if fields != [] {
      LookupFinds(kv, fields[1..], values[1..]);
      assert [values[0]] + values[1..] == values;
    }
  }

  ghost predicate NoBar(fields: seq<string>, values: seq<string>) {
    (forall i :: 0 <= i < |fields| ==> '|' !in fields[i]) && (forall i :: 0 <= i < |values| ==> '|' !in values[i])
  }

  /** An entry gives its values back. */
  lemma EntryRoundTrip(fields: seq<string>, values: seq<string>)
    requires fields != [] && |fields| == |values| && Names(fields) && NoBar(fields, values)
    ensures EntryValues(fields, Join(Pairs(fields, values), " | ")) == Some(values)
  {
    var pairs := Pairs(fields, values);
    PairAt(fields, values, 0);
    forall i | 0 <= i < |pairs| ensures '|' !in pairs[i] { PairAt(fields, values, i); }
    SplitJoin(pairs);
    DictHolds(fields, values, |fields|);
    assert pairs[..|fields|] == pairs;
    LookupFinds(Dict(pairs).value, fields, values);
  }

  lemma {:induction false} ListRoundTrip(fields: seq<string>, rows: seq<seq<string>>, entries: seq<string>)
    requires fields != [] && Names(fields) && |entries| == |rows|
    requires forall i :: 0 <= i < |rows| ==> |rows[i]| == |fields| && NoBar(fields, rows[i])
    requires forall i :: 0 <= i < |rows| ==> entries[i] == Join(Pairs(fields, rows[i]), " | ")
    ensures ListValues(fields, entries) == Some(rows)
  {
    if rows != [] {
      EntryRoundTrip(fields, rows[0]);
      ListRoundTrip(fields, rows[1..], entries[1..]);
      assert [rows[0]] + rows[1..] == rows;
    }
  }
}

/** Rendering and parsing undo each other. */
module RenderParse {
  import opened Counting
  import opened Options
  import opened Findall
  import opened Pages
  import opened PageNoise
  import opened PageParsers
  import opened ListParser

  function MarksOf(t: Template): Marks {
    match t case Table => RowMarks() case Divs => ItemMarks() case List => EntryMarks()
  }

  /** What stands between the marks of one record. */
  function Body(t: Template, fields: seq<string>, values: seq<string>, nl: string): string
    requires |fields| == |values|
  {
    match t
    case Table => Cells(values)
    case Divs => nl + Spans(fields, values, nl)
    case List => Join(Pairs(fields, values), " | ")
  }

  function Bodies(t: Template, fields: seq<string>, rows: seq<seq<string>>, nl: string): seq<string>
    requires forall i :: 0 <= i < |rows| ==> |rows[i]| == |fields|
  {
    if rows == [] then [] else Bodies(t, fields, rows[..|rows| - 1], nl) + [Body(t, fields, rows[|rows| - 1], nl)]
  }

  /** Characters the template cannot carry in names and values. */
  ghost predicate NameOk(t: Template, name: string) {
    '<' !in name && (t.Divs? ==> '>' !in name) && (t.List? ==> '|' !in name && ':' !in name)
  }

  ghost predicate ValueOk(t: Template, value: string) {
    '<' !in value && (t.Table? ==> '\n' !in value) && (t.List? ==> '|' !in value)
  }

  ghost predicate RowOk(t: Template, fields: seq<string>, values: seq<string>) {
    && |values| == |fields|
    && (forall i :: 0 <= i < |fields| ==> NameOk(t, fields[i]))
    && (forall i :: 0 <= i < |values| ==> ValueOk(t, values[i]))
  }

  /** Line breaks hold no markup. */
  ghost predicate BreakOk(nl: string) {
    '<' !in nl && '>' !in nl
  }

  lemma BodyRuns(t: Template, fields: seq<string>, values: seq<string>, nl: string)
    requires RowOk(t, fields, values) && BreakOk(nl)
    ensures Runs(MarksOf(t), Body(t, fields, values, nl))
  {
    match t
    case Table => CellsRun(values);
    case Divs =>
      RunsText(ItemMarks(), nl);
      SpansRun(fields, values, nl);
      RunsBoth(ItemMarks(), nl, Spans(fields, values, nl));
    case List =>
      JoinPlain(fields, values);
      RunsText(EntryMarks(), Join(Pairs(fields, values), " | "));
  }

  lemma {:induction false} JoinPlain(fields: seq<string>, values: seq<string>)
    requires |fields| == |values| && forall i :: 0 <= i < |fields| ==> '<' !in fields[i] && '<' !in values[i]
    ensures '<' !in Join(Pairs(fields, values), " | ")
  {
    if fields != [] {
      JoinPlain(fields[1..], values[1..]);
      assert Pairs(fields, values)[1..] == Pairs(fields[1..], values[1..]);
    }
  }

  // --- what the scan finds on a page -------------------------------------------------------------------

  ghost predicate AllYield(m: Marks, parts: seq<string>, found: seq<seq<string>>) {
    |parts| == |found| && forall i :: 0 <= i < |parts| ==> Yields(m, parts[i], found[i])
  }

  lemma AllYieldBoth(m: Marks, a: seq<string>, x: seq<seq<string>>, b: seq<string>, y: seq<seq<string>>)
    requires AllYield(m, a, x) && AllYield(m, b, y)
    ensures AllYield(m, a + b, x + y)
  {
    forall i | 0 <= i < |a + b| ensures Yields(m, (a + b)[i], (x + y)[i]) {
      if i < |a| { assert Yields(m, a[i], x[i]); } else { assert Yields(m, b[i - |a|], y[i - |a|]); }
    }
  }

  lemma {:induction false} FlattenBoth(x: seq<seq<string>>, y: seq<seq<string>>)
    ensures Flatten(x + y) == Flatten(x) + Flatten(y)
  {
    if x == [] {
      assert x + y == y;
    } else {
      FlattenBoth(x[1..], y);
      assert (x + y)[1..] == x[1..] + y;
      Regroup(x[0], Flatten(x[1..]), Flatten(y));
    }
  }

  lemma FlattenTwo(a: seq<string>, b: seq<string>)
    ensures Flatten([a, b]) == a + b && Flatten([b]) == b
  {
    assert [a, b][1..] == [b] && [b][1..] == [];
    assert Flatten([b]) == b + Flatten([]) == b;
  }

  function Nothing(): seq<string> {
    []
  }

  /** What each part before the records yields. */
  function FoundBefore(t: Template, fields: seq<string>): seq<seq<string>> {
    [Nothing(), Nothing(), Nothing(), Nothing()] + if t.Table? then [Nothing(), [HeadCells(fields)]] else [Nothing()]
  }

  function FoundRow(t: Template, body: string): seq<seq<string>> {
    if t.List? then [[body], Nothing()] else [Nothing(), [body]]
  }

  function FoundRows(t: Template, bodies: seq<string>): seq<seq<string>> {
    if bodies == [] then [] else FoundRows(t, bodies[..|bodies| - 1]) + FoundRow(t, bodies[|bodies| - 1])
  }

  lemma NoisePasses(t: Template, x: Extras)
    requires PlainExtras(x)
    ensures AllYield(MarksOf(t), [Head(x.title), Nav(x.nav), Comment(x.comment), Aside(x.aside)],
                     [Nothing(), Nothing(), Nothing(), Nothing()])
  {
    var m := MarksOf(t);
    HeadPassed(m, x.title);
    NavPassed(m, x.nav);
    CommentPassed(m, x.comment);
    AsidePassed(m, x.aside);
  }

  lemma TableTagPasses()
    ensures Yields(RowMarks(), "<table id='data'>", Nothing())
  {
    YieldsTag(RowMarks(), "<table id='data'>", "table id='data'>", 2);
  }

  lemma TwoYield(m: Marks, a: string, x: seq<string>, b: string, y: seq<string>)
    requires Yields(m, a, x) && Yields(m, b, y)
    ensures AllYield(m, [a, b], [x, y])
  {}

  lemma TableOpens(fields: seq<string>)
    requires forall i :: 0 <= i < |fields| ==> '<' !in fields[i]
    ensures AllYield(RowMarks(), ["<table id='data'>", "<tr>" + HeadCells(fields) + "</tr>"],
                     [Nothing(), [HeadCells(fields)]])
  {
    TableTagPasses();
    HeadCellsPass(fields);
    YieldsBody(RowMarks(), HeadCells(fields));
    TwoYield(RowMarks(), "<table id='data'>", Nothing(), "<tr>" + HeadCells(fields) + "</tr>", [HeadCells(fields)]);
  }

  lemma DivsOpen()
    ensures Yields(ItemMarks(), "<div class='items'>", Nothing())
  {
    YieldsTag(ItemMarks(), "<div class='items'>", "div class='items'>", 16);
  }

  lemma ListOpens()
    ensures Yields(EntryMarks(), "<ul class='records'>", Nothing())
  {
    Passed(EntryMarks(), "<ul class='records'>", "ul class='records'>");
  }

  lemma BeforeYields(t: Template, fields: seq<string>, x: Extras)
    requires PlainExtras(x) && forall i :: 0 <= i < |fields| ==> '<' !in fields[i]
    ensures AllYield(MarksOf(t), Before(t, fields, x), FoundBefore(t, fields))
  {
    NoisePasses(t, x);
    var noise, none := [Head(x.title), Nav(x.nav), Comment(x.comment), Aside(x.aside)],
                       [Nothing(), Nothing(), Nothing(), Nothing()];
    match t
    case Table =>
      TableOpens(fields);
      AllYieldBoth(MarksOf(t), noise, none, ["<table id='data'>", "<tr>" + HeadCells(fields) + "</tr>"],
                   [Nothing(), [HeadCells(fields)]]);
    case Divs =>
      DivsOpen();
      AllYieldBoth(MarksOf(t), noise, none, ["<div class='items'>"], [Nothing()]);
    case List =>
      ListOpens();
      AllYieldBoth(MarksOf(t), noise, none, ["<ul class='records'>"], [Nothing()]);
  }

  lemma BehindYields(t: Template, x: Extras)
    requires PlainExtras(x)
    ensures AllYield(MarksOf(t), Behind(t, x), [Nothing(), Nothing(), Nothing()])
  {
    var m := MarksOf(t);
    ClosingPassed(t, Behind(t, x)[0]);
    FooterPassed(m, x.footer);
    EndPassed(m);
    forall i | 0 <= i < 3 ensures Yields(m, Behind(t, x)[i], [Nothing(), Nothing(), Nothing()][i]) {
      assert i == 0 || i == 1 || i == 2;
    }
  }

  lemma ClosingPassed(t: Template, tag: string)
    requires tag == match t case Table => "</table>" case Divs => "</div>" case List => "</ul>"
    ensures Yields(MarksOf(t), tag, [])
  {
    match t
    case Table => Passed(MarksOf(t), tag, "/table>");
    case Divs => Passed(MarksOf(t), tag, "/div>");
    case List => Passed(MarksOf(t), tag, "/ul>");
  }

  lemma SpacerTagPasses(tag: string)
    requires tag == "<div class='spacer'>"
    ensures Yields(ItemMarks(), tag, [])
  {
    YieldsTag(ItemMarks(), tag, "div class='spacer'>", 12);
  }

  lemma SpacerPasses()
    ensures Yields(ItemMarks(), "<div class='spacer'>" + "</div>", Nothing())
  {
    SpacerTagPasses("<div class='spacer'>");
    ClosingPassed(Divs, "</div>");
    Both(ItemMarks(), "<div class='spacer'>", "</div>");
  }

  lemma RowYields(t: Template, fields: seq<string>, values: seq<string>, extra: Option<string>, nl: string)
    requires RowOk(t, fields, values) && BreakOk(nl) && PlainWord(extra)
    ensures AllYield(MarksOf(t), RowParts(t, fields, values, extra, nl), FoundRow(t, Body(t, fields, values, nl)))
  {
    var m, body := MarksOf(t), Body(t, fields, values, nl);
    BodyRuns(t, fields, values, nl);
    YieldsBody(m, body);
    if t.Divs? {
      if extra.None? { YieldsNothing(m); } else { SpacerPasses(); }
    } else {
      CommentPassed(m, extra);
    }
  }

  lemma {:induction false} RowsYield(t: Template, fields: seq<string>, rows: seq<seq<string>>,
                                     extras: seq<Option<string>>, nl: string)
    requires |extras| == |rows| && BreakOk(nl) && forall i :: 0 <= i < |rows| ==> |rows[i]| == |fields|
    requires forall i :: 0 <= i < |rows| ==> RowOk(t, fields, rows[i]) && PlainWord(extras[i])
    ensures AllYield(MarksOf(t), Rows(t, fields, rows, extras, nl), FoundRows(t, Bodies(t, fields, rows, nl)))
  {
    if rows != [] {
      var n := |rows| - 1;
      RowsYield(t, fields, rows[..n], extras[..n], nl);
      RowYields(t, fields, rows[n], extras[n], nl);
      var bodies := Bodies(t, fields, rows, nl);
      assert bodies[..|bodies| - 1] == Bodies(t, fields, rows[..n], nl);
      AllYieldBoth(MarksOf(t), Rows(t, fields, rows[..n], extras[..n], nl),
                   FoundRows(t, Bodies(t, fields, rows[..n], nl)),
                   RowParts(t, fields, rows[n], extras[n], nl), FoundRow(t, Body(t, fields, rows[n], nl)));
    }
  }

  lemma {:induction false} FoundRowsAre(t: Template, bodies: seq<string>)
    ensures Flatten(FoundRows(t, bodies)) == bodies
  {
    if bodies != [] {
      var n := |bodies| - 1;
      FoundRowsAre(t, bodies[..n]);
      FlattenBoth(FoundRows(t, bodies[..n]), FoundRow(t, bodies[n]));
      FoundRowIs(t, bodies[n]);
      LastBack(bodies);
    }
  }

  lemma LastBack<T>(x: seq<T>)
    requires x != []
    ensures x[..|x| - 1] + [x[|x| - 1]] == x
  {}

  lemma FoundRowIs(t: Template, body: string)
    ensures Flatten(FoundRow(t, body)) == [body]
  {
    FlattenTwo(FoundRow(t, body)[0], FoundRow(t, body)[1]);
  }

  ghost predicate PageOk(t: Template, fields: seq<string>, rows: seq<seq<string>>, extras: seq<Option<string>>,
                         x: Extras)
  {
    && |extras| == |rows| && PlainExtras(x) && BreakOk(x.nl) && (forall i :: 0 <= i < |rows| ==> |rows[i]| == |fields|)
    && (forall i :: 0 <= i < |rows| ==> RowOk(t, fields, rows[i]) && PlainWord(extras[i]))
  }

  /** On a whole page, noise included, the scan for records finds the records' bodies in order, and for a table the
      header row in front of them. */
  lemma PageYields(t: Template, fields: seq<string>, rows: seq<seq<string>>, extras: seq<Option<string>>, x: Extras)
    requires PageOk(t, fields, rows, extras, x)
    ensures FindAll(MarksOf(t), Page(t, fields, rows, extras, x)) ==
            (if t.Table? then [HeadCells(Shown(fields, rows))] else []) + Bodies(t, fields, rows, x.nl)
  {
    var m, shown, bodies := MarksOf(t), Shown(fields, rows), Bodies(t, fields, rows, x.nl);
    assert rows != [] ==> RowOk(t, fields, rows[0]);
    BeforeYields(t, shown, x);
    RowsYield(t, fields, rows, extras, x.nl);
    BehindYields(t, x);
    var a, b, c := Before(t, shown, x), Rows(t, fields, rows, extras, x.nl), Behind(t, x);
    var fa, fb, fc := FoundBefore(t, shown), FoundRows(t, bodies), [Nothing(), Nothing(), Nothing()];
    AllYieldBoth(m, a, fa, b, fb);
    AllYieldBoth(m, a + b, fa + fb, c, fc);
    YieldsLines(m, a + b + c, fa + fb + fc);
    FoundIn(m, JoinLines(a + b + c), Flatten(fa + fb + fc));
    FoundRowsAre(t, bodies);
    FlattenBoth(fa + fb, fc);
    FlattenBoth(fa, fb);
    EdgesAre(t, shown);
  }

  lemma EdgesAre(t: Template, fields: seq<string>)
    ensures Flatten(FoundBefore(t, fields)) == if t.Table? then [HeadCells(fields)] else []
    ensures Flatten([Nothing(), Nothing(), Nothing()]) == []
  {
    FlattenNothing(3);
    assert [Nothing(), Nothing(), Nothing()] == seq(3, i => Nothing());
    FlattenNothing(4);
    assert [Nothing(), Nothing(), Nothing(), Nothing()] == seq(4, i => Nothing());
    var tail := if t.Table? then [Nothing(), [HeadCells(fields)]] else [Nothing()];
    FlattenBoth([Nothing(), Nothing(), Nothing(), Nothing()], tail);
    if t.Table? { FlattenTwo(Nothing(), [HeadCells(fields)]); } else { FlattenTwo(Nothing(), Nothing()); }
  }

  lemma {:induction false} FlattenNothing(n: nat)
    ensures Flatten(seq(n, i => Nothing())) == []
  {
    if n > 0 {
      FlattenNothing(n - 1);
      assert seq(n, i => Nothing())[1..] == seq(n - 1, i => Nothing());
    }
  }

  // --- round trips ------------------------------------------------------------------------------------

  lemma {:induction false} BodiesAre(t: Template, fields: seq<string>, rows: seq<seq<string>>, nl: string)
    requires forall j :: 0 <= j < |rows| ==> |rows[j]| == |fields|
    ensures |Bodies(t, fields, rows, nl)| == |rows|
    ensures forall i :: 0 <= i < |rows| ==> Bodies(t, fields, rows, nl)[i] == Body(t, fields, rows[i], nl)
  {
    if rows != [] { BodiesAre(t, fields, rows[..|rows| - 1], nl); }
  }

  lemma {:induction false} TableValuesAre(k: nat, rows: seq<seq<string>>, bodies: seq<string>)
    requires |bodies| == |rows|
    requires forall i :: 0 <= i < |rows| ==> |rows[i]| == k && forall j :: 0 <= j < |rows[i]| ==> TableText(rows[i][j])
    requires forall i :: 0 <= i < |rows| ==> bodies[i] == Cells(rows[i])
    ensures TableValues(k, bodies) == rows
  {
    if rows != [] {
      CellsYield(rows[0]);
      FoundIn(CellMarks(), Cells(rows[0]), rows[0]);
      TableValuesAre(k, rows[1..], bodies[1..]);
      assert [rows[0]] + rows[1..] == rows;
    }
  }

  /** The table program gives the records back exactly when the schema has a field; with no field it takes the header
      row for a record. */
  lemma TableRoundTrip(fields: seq<string>, rows: seq<seq<string>>, extras: seq<Option<string>>, x: Extras)
    requires PageOk(Table, fields, rows, extras, x)
    ensures ParseTable(|fields|, Page(Table, fields, rows, extras, x)) == (if fields == [] then [[]] else []) + rows
  {
    var shown, bodies := Shown(fields, rows), Bodies(Table, fields, rows, x.nl);
    PageYields(Table, fields, rows, extras, x);
    BodiesAre(Table, fields, rows, x.nl);
    forall i | 0 <= i < |rows| ensures forall j :: 0 <= j < |rows[i]| ==> TableText(rows[i][j]) {
      assert RowOk(Table, fields, rows[i]);
    }
    TableValuesAre(|fields|, rows, bodies);
    assert rows != [] ==> RowOk(Table, fields, rows[0]);
    HeaderSkipped(fields, shown, bodies);
  }

  lemma HeaderSkipped(fields: seq<string>, shown: seq<string>, bodies: seq<string>)
    requires forall i :: 0 <= i < |shown| ==> '<' !in shown[i]
    ensures TableValues(|fields|, [HeadCells(shown)] + bodies) ==
            (if fields == [] then [[]] else []) + TableValues(|fields|, bodies)
  {
    HeadCellsPass(shown);
    FoundIn(CellMarks(), HeadCells(shown), []);
    assert ([HeadCells(shown)] + bodies)[1..] == bodies;
  }

  lemma {:induction false} DivValuesAre(fields: seq<string>, rows: seq<seq<string>>, items: seq<string>, nl: string)
    requires |items| == |rows| && BreakOk(nl)
    requires forall i :: 0 <= i < |rows| ==> RowOk(Divs, fields, rows[i]) && items[i] == Body(Divs, fields, rows[i], nl)
    ensures DivValues(|fields|, items) == Some(rows)
  {
    if rows != [] {
      var values := rows[0];
      assert RowOk(Divs, fields, values);
      SpansYield(fields, values, nl);
      YieldsText(SpanMarks(), nl);
      YieldsBoth(SpanMarks(), nl, [], Spans(fields, values, nl), values);
      var none: seq<string> := [];
      assert none + values == values;
      FoundIn(SpanMarks(), items[0], values);
      DivValuesAre(fields, rows[1..], items[1..], nl);
      assert values[..|fields|] == values && [values] + rows[1..] == rows;
    }
  }

  /** The divs program gives the records back. */
  lemma DivsRoundTrip(fields: seq<string>, rows: seq<seq<string>>, extras: seq<Option<string>>, x: Extras)
    requires PageOk(Divs, fields, rows, extras, x)
    ensures ParseDivs(|fields|, Page(Divs, fields, rows, extras, x)) == Some(rows)
  {
    PageYields(Divs, fields, rows, extras, x);
    BodiesAre(Divs, fields, rows, x.nl);
    var none: seq<string> := [];
    assert none + Bodies(Divs, fields, rows, x.nl) == Bodies(Divs, fields, rows, x.nl);
    DivValuesAre(fields, rows, Bodies(Divs, fields, rows, x.nl), x.nl);
  }

  /** The list program gives the records back, for a schema of different names. */
  lemma ListPageRoundTrip(fields: seq<string>, rows: seq<seq<string>>, extras: seq<Option<string>>, x: Extras)
    requires PageOk(List, fields, rows, extras, x) && fields != [] && Names(fields)
    ensures ParseList(fields, Page(List, fields, rows, extras, x)) == Some(rows)
  {
    PageYields(List, fields, rows, extras, x);
    BodiesAre(List, fields, rows, x.nl);
    var none: seq<string> := [];
    assert none + Bodies(List, fields, rows, x.nl) == Bodies(List, fields, rows, x.nl);
    forall i | 0 <= i < |rows| ensures NoBar(fields, rows[i]) { assert RowOk(List, fields, rows[i]); }
    ListRoundTrip(fields, rows, Bodies(List, fields, rows, x.nl));
  }
}

/** Which program the teacher picks for a page, and the whole way from typed records and back. */
module PageTeacher {
  import opened Options
  import opened Findall
  import opened Pages
  import opened PageNoise
  import opened PageParsers
  import opened ListParser
  import opened RenderParse

  /** pat occurs somewhere in s. */
  predicate Contains(s: string, pat: string) {
    pat <= s || (s != "" && Contains(s[1..], pat))
  }

  const ITEM_SINGLE := "class='item'"
  const ITEM_DOUBLE := "class=\"item\""

  /** The program is chosen by looking for a table tag, then for an item class. */
  function Sniff(page: string): Template {
    if Contains(page, "<table") then Table
    else if Contains(page, ITEM_SINGLE) || Contains(page, ITEM_DOUBLE) then Divs
    else List
  }

  // --- containment ------------------------------------------------------------------------------------

  lemma {:induction false} ContainsBehind(a: string, s: string, pat: string)
    requires Contains(s, pat)
    ensures Contains(a + s, pat)
  {
    if a == "" {
      assert a + s == s;
    } else {
      ContainsBehind(a[1..], s, pat);
      assert (a + s)[1..] == a[1..] + s;
    }
  }

  /** A character foreign to the pattern separates: it occurs left of it or right of it. */
  lemma {:induction false} ContainsSplit(a: string, c: char, b: string, pat: string)
    requires c !in pat && pat != ""
    ensures Contains(a + [c] + b, pat) <==> Contains(a, pat) || Contains(b, pat)
  {
    var s := a + [c] + b;
    if a == "" {
      assert s[0] == c && s[1..] == b;
      assert pat[0] in pat;
    } else {
      ContainsSplit(a[1..], c, b, pat);
      assert s[1..] == a[1..] + [c] + b;
      PrefixSplit(a, c, b, pat);
    }
  }

  lemma PrefixSplit(a: string, c: char, b: string, pat: string)
    requires c !in pat
    ensures pat <= a + [c] + b <==> pat <= a
  {
    assert (a + [c] + b)[|a|] == c;
    assert |pat| > |a| ==> pat[|a|] in pat;
  }

  lemma {:induction false} LinesContain(parts: seq<string>, pat: string)
    requires pat != "" && '\n' !in pat
    ensures Contains(JoinLines(parts), pat) <==> exists i :: 0 <= i < |parts| && Contains(parts[i], pat)
  {
    if parts != [] {
      LinesContain(parts[1..], pat);
      var rest := JoinLines(parts[1..]);
      assert (exists i :: 0 <= i < |parts| && Contains(parts[i], pat)) <==>
             Contains(parts[0], pat) || exists i :: 0 <= i < |parts[1..]| && Contains(parts[1..][i], pat) by {
        if i :| 0 <= i < |parts| && Contains(parts[i], pat) && i > 0 { assert parts[1..][i - 1] == parts[i]; }
        if i :| 0 <= i < |parts[1..]| && Contains(parts[1..][i], pat) { assert parts[i + 1] == parts[1..][i]; }
      }
      if parts[0] != "" && rest != "" {
        ContainsSplit(parts[0], '\n', rest, pat);
        assert parts[0] + "\n" + rest == parts[0] + ['\n'] + rest;
      }
    }
  }

  // --- a table page, and pages without a table ---------------------------------------------------------

  function Occurrences(pat: string): Marks {
    Marks(pat, "", (c: char) => true)
  }

  lemma {:induction false} NoneFound(s: string, pat: string)
    requires pat != "" && FindAll(Occurrences(pat), s) == []
    ensures !Contains(s, pat)
  {
    if s != "" {
      assert Capture(Occurrences(pat), s[0..]) == Some(0);
      if !(pat <= s) { NoneFound(s[1..], pat); }
    }
  }

  lemma PassedNotContained(s: string, pat: string)
    requires pat != "" && Yields(Occurrences(pat), s, [])
    ensures !Contains(s, pat)
  {
    FoundIn(Occurrences(pat), s, []);
    NoneFound(s, pat);
  }

  function TableTag(): Marks {
    Occurrences("<table")
  }

  lemma {:induction false} SpansPassed(fields: seq<string>, values: seq<string>, nl: string)
    requires |fields| == |values| && '<' !in nl
    requires forall i :: 0 <= i < |fields| ==> '<' !in fields[i] && '<' !in values[i]
    ensures Yields(TableTag(), Spans(fields, values, nl), [])
  {
    var m := TableTag();
    if values == [] {
      YieldsNothing(m);
    } else {
      SpansPassed(fields[1..], values[1..], nl);
      var open, said := "<span class='" + fields[0] + "'", ">" + values[0];
      Lead("<span class='", "span class='", fields[0], "'");
      Passed(m, open, "span class='" + fields[0] + "'");
      Said(m, said);
      Passed(m, "</span>", "/span>");
      Both(m, said, "</span>");
      Both(m, open, said + "</span>");
      Said(m, nl);
      Both(m, open + (said + "</span>"), nl);
      Both(m, open + (said + "</span>") + nl, Spans(fields[1..], values[1..], nl));
    }
  }

  lemma DivPassed(tag: string, tail: string)
    requires tag == "<" + tail && tail != "" && tail[0] == 'd' && '<' !in tail
    ensures Yields(TableTag(), tag, [])
  {
    YieldsTag(TableTag(), tag, tail, 1);
  }

  lemma ItemTagPassed()
    ensures Yields(TableTag(), "<div class='item'>", []) && Yields(TableTag(), "</div>", [])
  {
    Passed(TableTag(), "</div>", "/div>");
    DivPassed("<div class='item'>", "div class='item'>");
  }

  lemma SpacerTagPassed(tag: string)
    requires tag == "<div class='spacer'>"
    ensures Yields(TableTag(), tag, [])
  {
    DivPassed(tag, "div class='spacer'>");
  }

  lemma SpacerPassed()
    ensures Yields(TableTag(), "<div class='spacer'>" + "</div>", [])
  {
    DivsTagsPassed();
    SpacerTagPassed("<div class='spacer'>");
    Both(TableTag(), "<div class='spacer'>", "</div>");
  }

  lemma ItemPassed(fields: seq<string>, values: seq<string>, extra: Option<string>, nl: string)
    requires RowOk(Divs, fields, values) && BreakOk(nl)
    ensures forall i :: 0 <= i < 2 ==> Yields(TableTag(), RowParts(Divs, fields, values, extra, nl)[i], [])
  {
    var m, body := TableTag(), nl + Spans(fields, values, nl);
    ItemTagPassed();
    Said(m, nl);
    SpansPassed(fields, values, nl);
    Both(m, nl, Spans(fields, values, nl));
    Both(m, "<div class='item'>", body);
    Both(m, "<div class='item'>" + body, "</div>");
    if extra.None? { YieldsNothing(m); } else { SpacerPassed(); }
  }

  lemma EntryPassed(fields: seq<string>, values: seq<string>, extra: Option<string>, nl: string)
    requires RowOk(List, fields, values) && PlainWord(extra)
    ensures forall i :: 0 <= i < 2 ==> Yields(TableTag(), RowParts(List, fields, values, extra, nl)[i], [])
  {
    var m, body := TableTag(), Join(Pairs(fields, values), " | ");
    YieldsTag(m, "<li>", "li>", 1);
    JoinPlain(fields, values);
    Said(m, body);
    Both(m, "<li>", body);
    Passed(m, "</li>", "/li>");
    Both(m, "<li>" + body, "</li>");
    CommentPassed(m, extra);
  }

  ghost predicate NoneContain(parts: seq<string>, pat: string) {
    forall i :: 0 <= i < |parts| ==> !Contains(parts[i], pat)
  }

  lemma NoneContainBoth(a: seq<string>, b: seq<string>, pat: string)
    requires NoneContain(a, pat) && NoneContain(b, pat)
    ensures NoneContain(a + b, pat)
  {}

  lemma {:induction false} NoTableInRows(t: Template, fields: seq<string>, rows: seq<seq<string>>,
                                         extras: seq<Option<string>>, nl: string)
    requires !t.Table? && |extras| == |rows| && BreakOk(nl) && forall i :: 0 <= i < |rows| ==> |rows[i]| == |fields|
    requires forall i :: 0 <= i < |rows| ==> RowOk(t, fields, rows[i]) && PlainWord(extras[i])
    ensures NoneContain(Rows(t, fields, rows, extras, nl), "<table")
  {
    if rows != [] {
      var n := |rows| - 1;
      NoTableInRows(t, fields, rows[..n], extras[..n], nl);
      var parts := RowParts(t, fields, rows[n], extras[n], nl);
      if t.Divs? { ItemPassed(fields, rows[n], extras[n], nl); } else { EntryPassed(fields, rows[n], extras[n], nl); }
      PassedNotContained(parts[0], "<table");
      PassedNotContained(parts[1], "<table");
      NoneContainBoth(Rows(t, fields, rows[..n], extras[..n], nl), parts, "<table");
    }
  }

  /** The tag a page without a table opens with, and the one it ends with. */
  function OpenTag(t: Template): string {
    if t.Divs? then "<div class='items'>" else "<ul class='records'>"
  }

  function CloseTag(t: Template): string {
    if t.Divs? then "</div>" else "</ul>"
  }

  lemma BeforeFree(t: Template, fields: seq<string>, x: Extras, pat: string)
    requires !t.Table? && !Contains(Head(x.title), pat) && !Contains(Nav(x.nav), pat)
    requires !Contains(Comment(x.comment), pat)
    requires !Contains(Aside(x.aside), pat) && !Contains(OpenTag(t), pat)
    ensures NoneContain(Before(t, fields, x), pat)
  {
    assert Before(t, fields, x) == [Head(x.title), Nav(x.nav), Comment(x.comment), Aside(x.aside), OpenTag(t)];
  }

  lemma BehindFree(t: Template, x: Extras, pat: string)
    requires !t.Table? && !Contains(CloseTag(t), pat) && !Contains(Footer(x.footer), pat)
    requires !Contains("</body>" + "</html>", pat)
    ensures NoneContain(Behind(t, x), pat)
  {
    assert Behind(t, x) == [CloseTag(t), Footer(x.footer), "</body>" + "</html>"];
  }

  lemma NoTableInNoise(t: Template, fields: seq<string>, x: Extras, pat: string)
    requires !t.Table? && PlainExtras(x) && pat == "<table"
    ensures NoneContain(Before(t, fields, x), pat) && NoneContain(Behind(t, x), pat)
  {
    var m := TableTag();
    HeadPassed(m, x.title);
    PassedNotContained(Head(x.title), pat);
    NavPassed(m, x.nav);
    PassedNotContained(Nav(x.nav), pat);
    CommentPassed(m, x.comment);
    PassedNotContained(Comment(x.comment), pat);
    AsidePassed(m, x.aside);
    PassedNotContained(Aside(x.aside), pat);
    FooterPassed(m, x.footer);
    PassedNotContained(Footer(x.footer), pat);
    EndPassed(m);
    PassedNotContained("</body>" + "</html>", pat);
    if t.Divs? { DivsTagsPassed(); } else { ListTagsPassed(); }
    PassedNotContained(OpenTag(t), pat);
    PassedNotContained(CloseTag(t), pat);
    BeforeFree(t, fields, x, pat);
    BehindFree(t, x, pat);
  }

  lemma DivsTagsPassed()
    ensures Yields(TableTag(), "<div class='items'>", []) && Yields(TableTag(), "</div>", [])
  {
    DivPassed("<div class='items'>", "div class='items'>");
    Passed(TableTag(), "</div>", "/div>");
  }

  lemma ListTagsPassed()
    ensures Yields(TableTag(), "<ul class='records'>", []) && Yields(TableTag(), "</ul>", [])
  {
    Passed(TableTag(), "<ul class='records'>", "ul class='records'>");
    Passed(TableTag(), "</ul>", "/ul>");
  }

  function Parts(t: Template, fields: seq<string>, rows: seq<seq<string>>, extras: seq<Option<string>>,
                 x: Extras): seq<string>
    requires |extras| == |rows| && forall i :: 0 <= i < |rows| ==> |rows[i]| == |fields|
  {
    Before(t, Shown(fields, rows), x) + Rows(t, fields, rows, extras, x.nl) + Behind(t, x)
  }

  lemma NoTable(t: Template, fields: seq<string>, rows: seq<seq<string>>, extras: seq<Option<string>>, x: Extras)
    requires !t.Table? && PageOk(t, fields, rows, extras, x)
    ensures !Contains(Page(t, fields, rows, extras, x), "<table")
  {
    NoTableInNoise(t, Shown(fields, rows), x, "<table");
    NoTableInRows(t, fields, rows, extras, x.nl);
    NoneContainBoth(Before(t, Shown(fields, rows), x), Rows(t, fields, rows, extras, x.nl), "<table");
    NoneContainBoth(Before(t, Shown(fields, rows), x) + Rows(t, fields, rows, extras, x.nl), Behind(t, x), "<table");
    LinesContain(Parts(t, fields, rows, extras, x), "<table");
  }

  /** A table page is always recognised. */
  lemma TablePageIsRecognised(fields: seq<string>, rows: seq<seq<string>>, extras: seq<Option<string>>, x: Extras)
    requires PageOk(Table, fields, rows, extras, x)
    ensures Sniff(Page(Table, fields, rows, extras, x)) == Table
  {
    var parts := Parts(Table, fields, rows, extras, x);
    assert parts[4] == "<table id='data'>" && "<table" <= parts[4];
    LinesContain(parts, "<table");
  }

  // --- divs pages, and list pages that look like them ---------------------------------------------------

  /** A divs page with a record on it is recognised. */
  lemma DivsPageIsRecognised(fields: seq<string>, rows: seq<seq<string>>, extras: seq<Option<string>>, x: Extras)
    requires PageOk(Divs, fields, rows, extras, x) && rows != []
    ensures Sniff(Page(Divs, fields, rows, extras, x)) == Divs
  {
    NoTable(Divs, fields, rows, extras, x);
    var n, parts := |rows| - 1, Parts(Divs, fields, rows, extras, x);
    var item := RowParts(Divs, fields, rows[n], extras[n], x.nl)[1];
    var before := Before(Divs, Shown(fields, rows), x) + Rows(Divs, fields, rows[..n], extras[..n], x.nl);
    assert parts[|before| + 1] == item;
    ItemIsMarked(x.nl + Spans(fields, rows[n], x.nl));
    LinesContain(parts, ITEM_SINGLE);
  }

  lemma ItemIsMarked(body: string)
    ensures Contains("<div class='item'>" + body + "</div>", ITEM_SINGLE)
  {
    var behind := ITEM_SINGLE + (">" + body + "</div>");
    assert "<div class='item'>" == "<div " + (ITEM_SINGLE + ">");
    assert "<div class='item'>" + body + "</div>" == "<div " + behind;
    assert ITEM_SINGLE <= behind;
    ContainsBehind("<div ", behind, ITEM_SINGLE);
  }

  /** What is needed about the two item marks: some of their characters, and characters foreign to them. */
  ghost predicate ItemMark(pat: string) {
    '=' in pat && 't' in pat && 'c' in pat && ForeignMarkup(pat) && ForeignText(pat)
  }

  ghost predicate ForeignMarkup(pat: string) {
    '<' !in pat && '>' !in pat && '/' !in pat && 'o' !in pat
  }

  ghost predicate ForeignText(pat: string) {
    ' ' !in pat && '|' !in pat && ':' !in pat && '\n' !in pat
  }

  lemma MarkupIsForeign()
    ensures ForeignMarkup(ITEM_SINGLE) && ForeignMarkup(ITEM_DOUBLE)
  {}

  lemma TextIsForeign()
    ensures ForeignText(ITEM_SINGLE) && ForeignText(ITEM_DOUBLE)
  {}

  lemma BothAreMarks()
    ensures ItemMark(ITEM_SINGLE) && ItemMark(ITEM_DOUBLE)
  {
    MarkupIsForeign();
    TextIsForeign();
    assert ITEM_SINGLE[0] == 'c' && ITEM_SINGLE[5] == '=' && ITEM_SINGLE[8] == 't';
    assert ITEM_DOUBLE[0] == 'c' && ITEM_DOUBLE[5] == '=' && ITEM_DOUBLE[8] == 't';
  }

  /** A text without one of its characters does not contain the pattern. */
  lemma {:induction false} Lacks(s: string, pat: string, c: char)
    requires c in pat && c !in s
    ensures !Contains(s, pat)
  {
    PrefixHas(s, pat, c);
    if s != "" { Lacks(s[1..], pat, c); }
  }

  lemma PrefixHas(s: string, pat: string, c: char)
    requires c in pat
    ensures pat <= s ==> c in s
  {
    var i :| 0 <= i < |pat| && pat[i] == c;
    assert pat <= s ==> s[i] == c;
  }

  /** Occurrences do not straddle a foreign character. */
  lemma AtForeign(a: string, b: string, pat: string)
    requires b != "" && b[0] !in pat && pat != ""
    ensures Contains(a + b, pat) <==> Contains(a, pat) || Contains(b, pat)
  {
    ContainsSplit(a, b[0], b[1..], pat);
    assert a + [b[0]] + b[1..] == a + b;
    ContainsSplit("", b[0], b[1..], pat);
    assert "" + [b[0]] + b[1..] == b;
    Lacks("", pat, pat[0]);
  }

  /** Generated words and numbers hold no equals sign either. */
  ghost predicate Quiet(s: Option<string>) {
    s.Some? ==> '=' !in s.value
  }

  ghost predicate QuietExtras(x: Extras) {
    '=' !in x.title && Quiet(x.nav) && Quiet(x.comment) && Quiet(x.aside) && Quiet(x.footer)
  }

  lemma NavFree(n: Option<string>, pat: string)
    requires Quiet(n) && ItemMark(pat)
    ensures !Contains(Nav(n), pat)
  {
    if n.None? {
      Lacks("", pat, '=');
    } else {
      var link := "<a href='/x" + n.value + "'>archive";
      LinkFree(n.value, link, pat);
      var s := "<nav>" + "<a href='/'>home";
      Lacks("<nav>", pat, '=');
      Lacks("<a href='/'>home", pat, 'c');
      AtForeign("<nav>", "<a href='/'>home", pat);
      Lacks("</a>", pat, '=');
      AtForeign(s, "</a>", pat);
      AtForeign(s + "</a>", link, pat);
      AtForeign(s + "</a>" + link, "</a>", pat);
      Lacks("</nav>", pat, '=');
      AtForeign(s + "</a>" + link + "</a>", "</nav>", pat);
    }
  }

  lemma LinkFree(n: string, link: string, pat: string)
    requires '=' !in n && ItemMark(pat) && link == "<a href='/x" + n + "'>archive"
    ensures !Contains(link, pat) && link[0] == '<'
  {
    var tail := "/x" + n + "'>archive";
    assert "<a href='/x" == "<a href='" + "/x";
    assert link == "<a href='" + tail;
    Lacks("<a href='", pat, 'c');
    Lacks(tail, pat, '=');
    AtForeign("<a href='", tail, pat);
  }

  lemma AsideFree(n: Option<string>, pat: string)
    requires Quiet(n) && ItemMark(pat)
    ensures !Contains(Aside(n), pat)
  {
    if n.None? {
      Lacks("", pat, '=');
    } else {
      var said := "only " + n.value + " days left";
      Lacks("<aside", pat, '=');
      Lacks(" class='promo'>", pat, 't');
      AtForeign("<aside", " class='promo'>", pat);
      Lacks(said, pat, '=');
      AtForeign("<aside" + " class='promo'>", said, pat);
      Lacks("</aside>", pat, '=');
      AtForeign("<aside" + " class='promo'>" + said, "</aside>", pat);
    }
  }

  lemma NoiseFree(t: Template, fields: seq<string>, x: Extras, pat: string)
    requires !t.Table? && QuietExtras(x) && ItemMark(pat) && !Contains(OpenTag(t), pat)
    ensures NoneContain(Before(t, fields, x), pat) && NoneContain(Behind(t, x), pat)
  {
    Lacks(Head(x.title), pat, '=');
    NavFree(x.nav, pat);
    CommentFree(x.comment, pat);
    AsideFree(x.aside, pat);
    BeforeFree(t, fields, x, pat);
    EndFree(t, x, pat);
  }

  lemma EndFree(t: Template, x: Extras, pat: string)
    requires !t.Table? && QuietExtras(x) && ItemMark(pat)
    ensures NoneContain(Behind(t, x), pat)
  {
    Lacks(CloseTag(t), pat, '=');
    Lacks(Footer(x.footer), pat, '=');
    Lacks("</body>" + "</html>", pat, '=');
    BehindFree(t, x, pat);
  }

  lemma CommentFree(text: Option<string>, pat: string)
    requires Quiet(text) && ItemMark(pat)
    ensures !Contains(Comment(text), pat)
  {
    Lacks(Comment(text), pat, '=');
  }

  /** A name or a value of the row contains the pattern. */
  ghost predicate RowHas(fields: seq<string>, values: seq<string>, pat: string)
    requires |fields| == |values|
  {
    exists i :: 0 <= i < |fields| && (Contains(fields[i], pat) || Contains(values[i], pat))
  }

  lemma PairHas(name: string, value: string, pat: string)
    requires ItemMark(pat)
    ensures Contains(name + ": " + value, pat) <==> Contains(name, pat) || Contains(value, pat)
  {
    assert name + ": " + value == name + (": " + value);
    AtForeign(name, ": " + value, pat);
    assert ": " + value == "" + [':'] + ("" + [' '] + value);
    ContainsSplit("", ':', "" + [' '] + value, pat);
    ContainsSplit("", ' ', value, pat);
    Lacks("", pat, '=');
  }

  lemma {:induction false} JoinHas(fields: seq<string>, values: seq<string>, pat: string)
    requires |fields| == |values| && ItemMark(pat)
    ensures Contains(Join(Pairs(fields, values), " | "), pat) <==> RowHas(fields, values, pat)
  {
    if fields == [] {
      Lacks("", pat, '=');
    } else {
      var pair, pairs := fields[0] + ": " + values[0], Pairs(fields[1..], values[1..]);
      JoinHas(fields[1..], values[1..], pat);
      PairHas(fields[0], values[0], pat);
      RowHasFirst(fields, values, pat);
      assert Pairs(fields, values)[1..] == pairs;
      if |fields| == 1 {
        Lacks("", pat, '=');
      } else {
        SeparatedHas(pair, Join(pairs, " | "), pat);
      }
    }
  }

  lemma RowHasFirst(fields: seq<string>, values: seq<string>, pat: string)
    requires |fields| == |values| && fields != []
    ensures RowHas(fields, values, pat) <==>
            Contains(fields[0], pat) || Contains(values[0], pat) || RowHas(fields[1..], values[1..], pat)
  {
    if i :| 0 <= i < |fields| && (Contains(fields[i], pat) || Contains(values[i], pat)) && i > 0 {
      assert fields[1..][i - 1] == fields[i] && values[1..][i - 1] == values[i];
    }
    if i :| 0 <= i < |fields[1..]| && (Contains(fields[1..][i], pat) || Contains(values[1..][i], pat)) {
      assert fields[i + 1] == fields[1..][i] && values[i + 1] == values[1..][i];
    }
  }

  lemma SeparatedHas(a: string, b: string, pat: string)
    requires ItemMark(pat)
    ensures Contains(a + " | " + b, pat) <==> Contains(a, pat) || Contains(b, pat)
  {
    assert a + " | " + b == a + [' '] + ("" + ['|'] + ("" + [' '] + b));
    ContainsSplit(a, ' ', "" + ['|'] + ("" + [' '] + b), pat);
    ContainsSplit("", '|', "" + [' '] + b, pat);
    ContainsSplit("", ' ', b, pat);
    Lacks("", pat, '=');
  }

  lemma EntryHas(fields: seq<string>, values: seq<string>, extra: Option<string>, nl: string, pat: string)
    requires |fields| == |values| && ItemMark(pat) && Quiet(extra)
    ensures var parts := RowParts(List, fields, values, extra, nl);
            (Contains(parts[0], pat) <==> RowHas(fields, values, pat)) && !Contains(parts[1], pat)
  {
    var body := Join(Pairs(fields, values), " | ");
    JoinHas(fields, values, pat);
    assert "<li>" + body + "</li>" == "<li" + ['>'] + (body + "</li>");
    ContainsSplit("<li", '>', body + "</li>", pat);
    Lacks("<li", pat, '=');
    AtForeign(body, "</li>", pat);
    Lacks("</li>", pat, '=');
    CommentFree(extra, pat);
  }

  /** Some part of a page contains the pattern. */
  ghost predicate SomeContain(parts: seq<string>, pat: string) {
    exists i :: 0 <= i < |parts| && Contains(parts[i], pat)
  }

  lemma SomeContainBoth(a: seq<string>, b: seq<string>, pat: string)
    ensures SomeContain(a + b, pat) <==> SomeContain(a, pat) || SomeContain(b, pat)
  {
    if i :| 0 <= i < |a + b| && Contains((a + b)[i], pat) {
      assert if i < |a| then Contains(a[i], pat) else Contains(b[i - |a|], pat);
    }
    if i :| 0 <= i < |a| && Contains(a[i], pat) { assert (a + b)[i] == a[i]; }
    if i :| 0 <= i < |b| && Contains(b[i], pat) { assert (a + b)[i + |a|] == b[i]; }
  }

  /** A name or value of some record contains the pattern. */
  ghost predicate RecordsHave(fields: seq<string>, rows: seq<seq<string>>, pat: string)
    requires forall i :: 0 <= i < |rows| ==> |rows[i]| == |fields|
  {
    exists i :: 0 <= i < |rows| && RowHas(fields, rows[i], pat)
  }

  lemma {:induction false} RowsHave(fields: seq<string>, rows: seq<seq<string>>, extras: seq<Option<string>>,
                                    nl: string, pat: string)
    requires |extras| == |rows| && ItemMark(pat) && forall i :: 0 <= i < |rows| ==> |rows[i]| == |fields|
    requires forall i :: 0 <= i < |rows| ==> Quiet(extras[i])
    ensures SomeContain(Rows(List, fields, rows, extras, nl), pat) <==> RecordsHave(fields, rows, pat)
  {
    if rows != [] {
      var n := |rows| - 1;
      RowsHave(fields, rows[..n], extras[..n], nl, pat);
      var parts := RowParts(List, fields, rows[n], extras[n], nl);
      EntryHas(fields, rows[n], extras[n], nl, pat);
      SomeContainBoth(Rows(List, fields, rows[..n], extras[..n], nl), parts, pat);
      assert SomeContain(parts, pat) <==> Contains(parts[0], pat);
      LastRowHas(fields, rows, pat);
    }
  }

  lemma LastRowHas(fields: seq<string>, rows: seq<seq<string>>, pat: string)
    requires rows != [] && forall i :: 0 <= i < |rows| ==> |rows[i]| == |fields|
    ensures RecordsHave(fields, rows, pat) <==>
            RecordsHave(fields, rows[..|rows| - 1], pat) || RowHas(fields, rows[|rows| - 1], pat)
  {
    var n := |rows| - 1;
    if i :| 0 <= i < |rows| && RowHas(fields, rows[i], pat) && i < n { assert rows[..n][i] == rows[i]; }
    if i :| 0 <= i < n && RowHas(fields, rows[..n][i], pat) { assert rows[i] == rows[..n][i]; }
  }

  lemma ListPageHas(fields: seq<string>, rows: seq<seq<string>>, extras: seq<Option<string>>, x: Extras, pat: string)
    requires |extras| == |rows| && ItemMark(pat) && QuietExtras(x)
    requires forall i :: 0 <= i < |rows| ==> |rows[i]| == |fields|
    requires forall i :: 0 <= i < |rows| ==> Quiet(extras[i])
    ensures Contains(Page(List, fields, rows, extras, x), pat) <==> RecordsHave(fields, rows, pat)
  {
    var a, b, c := Before(List, Shown(fields, rows), x), Rows(List, fields, rows, extras, x.nl), Behind(List, x);
    LinesContain(a + b + c, pat);
    Lacks(OpenTag(List), pat, 't');
    NoiseFree(List, Shown(fields, rows), x, pat);
    RowsHave(fields, rows, extras, x.nl, pat);
    OnlyMiddleContains(a, b, c, pat);
  }

  lemma OnlyMiddleContains(a: seq<string>, b: seq<string>, c: seq<string>, pat: string)
    requires NoneContain(a, pat) && NoneContain(c, pat)
    ensures SomeContain(a + b + c, pat) <==> SomeContain(b, pat)
  {
    SomeContainBoth(a + b, c, pat);
    SomeContainBoth(a, b, pat);
  }

  /** A list page is recognised exactly when no name or value on it holds an item mark; otherwise the teacher takes it
      for a divs page. */
  lemma ListPageIsRecognisedExactly(fields: seq<string>, rows: seq<seq<string>>, extras: seq<Option<string>>, x: Extras)
    requires PageOk(List, fields, rows, extras, x) && QuietExtras(x) && forall i :: 0 <= i < |rows| ==> Quiet(extras[i])
    ensures Sniff(Page(List, fields, rows, extras, x)) ==
            if RecordsHave(fields, rows, ITEM_SINGLE) || RecordsHave(fields, rows, ITEM_DOUBLE) then Divs else List
  {
    BothAreMarks();
    NoTable(List, fields, rows, extras, x);
    ListPageHas(fields, rows, extras, x, ITEM_SINGLE);
    ListPageHas(fields, rows, extras, x, ITEM_DOUBLE);
  }

  // --- a divs page without records ------------------------------------------------------------------

  /** The class of the surrounding tag is longer than an item's by one letter. */
  lemma ItemsIsNotSingle(tag: string)
    requires tag == "<div class='items'>"
    ensures !Contains(tag, ITEM_SINGLE)
  {
    BothAreMarks();
    var start, name := ItemsTag(tag);
    NameIsNotItem(name);
    TagHas(start, name, tag, ITEM_SINGLE);
  }

  lemma ItemsIsNotDouble(tag: string)
    requires tag == "<div class='items'>"
    ensures !Contains(tag, ITEM_DOUBLE)
  {
    assert ITEM_DOUBLE[6] == '"';
    Lacks(tag, ITEM_DOUBLE, '"');
  }

  lemma ItemsTag(tag: string) returns (start: string, name: string)
    requires tag == "<div class='items'>"
    ensures name == "class='items'" && 'c' !in start && tag == start + [' '] + (name + ">")
  {
    start, name := "<div", "class='items'";
  }

  lemma TagHas(start: string, name: string, tag: string, pat: string)
    requires ItemMark(pat) && tag == start + [' '] + (name + ">") && 'c' !in start
    ensures Contains(tag, pat) <==> Contains(name, pat)
  {
    ContainsSplit(start, ' ', name + ">", pat);
    Lacks(start, pat, 'c');
    Lacks(">", pat, 'c');
    AtForeign(name, ">", pat);
  }

  lemma NameIsNotItem(name: string)
    requires name == "class='items'"
    ensures !Contains(name, ITEM_SINGLE)
  {
    assert ITEM_SINGLE[0] == 'c' && ITEM_SINGLE[11] == '\'' && name[11] == 's';
    assert name[1..] == "lass='items'";
    Lacks(name[1..], ITEM_SINGLE, 'c');
  }

  /** Without records a divs page is taken for a list page. */
  lemma EmptyDivsPageIsList(fields: seq<string>, x: Extras)
    requires PageOk(Divs, fields, [], [], x) && QuietExtras(x)
    ensures Sniff(Page(Divs, fields, [], [], x)) == List
  {
    NoTable(Divs, fields, [], [], x);
    BothAreMarks();
    ItemsIsNotSingle(OpenTag(Divs));
    ItemsIsNotDouble(OpenTag(Divs));
    EmptyDivsPageLacks(fields, x, ITEM_SINGLE);
    EmptyDivsPageLacks(fields, x, ITEM_DOUBLE);
  }

  lemma EmptyDivsPageLacks(fields: seq<string>, x: Extras, pat: string)
    requires QuietExtras(x) && ItemMark(pat) && !Contains(OpenTag(Divs), pat)
    ensures !Contains(Page(Divs, fields, [], [], x), pat)
  {
    var none: seq<string> := [];
    NoiseFree(Divs, none, x, pat);
    NoneContainBoth(Before(Divs, none, x) + none, Behind(Divs, x), pat);
    assert Before(Divs, none, x) + none == Before(Divs, none, x);
    LinesContain(Parts(Divs, fields, [], [], x), pat);
  }

  /** The list program finds no entry there. */
  lemma EmptyDivsPageHasNoEntries(fields: seq<string>, x: Extras)
    requires PageOk(Divs, fields, [], [], x)
    ensures FindAll(EntryMarks(), Page(Divs, fields, [], [], x)) == []
  {
    var m := EntryMarks();
    var none: seq<string> := [];
    var before, behind := Before(Divs, none, x), Behind(Divs, x);
    BeforePassed(m, x);
    FooterPassed(m, x.footer);
    EndPassed(m);
    Passed(m, "</div>", "/div>");
    ThreePassed(m, behind, "</div>", Footer(x.footer), "</body>" + "</html>");
    assert before + none + behind == before + behind;
    AllPassed(m, before + behind);
  }

  ghost predicate EachPassed(m: Marks, parts: seq<string>) {
    forall i :: 0 <= i < |parts| ==> Yields(m, parts[i], [])
  }

  lemma ThreePassed(m: Marks, parts: seq<string>, a: string, b: string, c: string)
    requires parts == [a, b, c] && Yields(m, a, []) && Yields(m, b, []) && Yields(m, c, [])
    ensures EachPassed(m, parts)
  {}

  lemma FivePassed(m: Marks, parts: seq<string>, a: string, b: string, c: string, d: string, e: string)
    requires parts == [a, b, c, d, e] && Yields(m, a, []) && Yields(m, b, []) && Yields(m, c, []) && Yields(m, d, [])
    requires Yields(m, e, [])
    ensures EachPassed(m, parts)
  {}

  lemma BeforePassed(m: Marks, x: Extras)
    requires m == EntryMarks() && PlainExtras(x)
    ensures EachPassed(m, Before(Divs, [], x))
  {
    HeadPassed(m, x.title);
    NavPassed(m, x.nav);
    CommentPassed(m, x.comment);
    AsidePassed(m, x.aside);
    YieldsTag(m, OpenTag(Divs), "div class='items'>", 1);
    FivePassed(m, Before(Divs, [], x), Head(x.title), Nav(x.nav), Comment(x.comment), Aside(x.aside), OpenTag(Divs));
  }

  lemma AllPassed(m: Marks, parts: seq<string>)
    requires m.open != "" && m.open[0] != '\n' && EachPassed(m, parts)
    ensures FindAll(m, JoinLines(parts)) == []
  {
    var found := seq(|parts|, i => Nothing());
    YieldsLines(m, parts, found);
    FlattenNothing(|parts|);
    FoundIn(m, JoinLines(parts), []);
  }

  // --- from records to a page and back --------------------------------------------------------------------

  function ShownRow<V>(show: V -> string, values: seq<V>): (r: seq<string>)
    ensures |r| == |values|
  {
    seq(|values|, i requires 0 <= i < |values| => show(values[i]))
  }

  function ShownRows<V>(show: V -> string, records: seq<seq<V>>): (r: seq<seq<string>>)
    ensures |r| == |records| && forall i :: 0 <= i < |records| ==> r[i] == ShownRow(show, records[i])
  {
    seq(|records|, i requires 0 <= i < |records| => ShownRow(show, records[i]))
  }

  /** Applies the casts of the schema, field by field from number i on; None is the ValueError of a failing one. */
  function CastRow<V>(cast: (nat, string) -> Option<V>, values: seq<string>, i: nat): Option<seq<V>>
    decreases |values|
  {
    if values == [] then Some([])
    else
      var first, rest := cast(i, values[0]), CastRow(cast, values[1..], i + 1);
      if first.None? || rest.None? then None else Some([first.value] + rest.value)
  }

  function CastRows<V>(cast: (nat, string) -> Option<V>, rows: seq<seq<string>>): Option<seq<seq<V>>> {
    if rows == [] then Some([])
    else
      var first, rest := CastRow(cast, rows[0], 0), CastRows(cast, rows[1..]);
      if first.None? || rest.None? then None else Some([first.value] + rest.value)
  }

  /** The program for a template, with its casts. */
  function Program<V>(t: Template, fields: seq<string>, cast: (nat, string) -> Option<V>,
                      page: string): Option<seq<seq<V>>>
  {
    var rows := match t
                case Table => Some(ParseTable(|fields|, page))
                case Divs => ParseDivs(|fields|, page)
                case List => ParseList(fields, page);
    if rows.None? then None else CastRows(cast, rows.value)
  }

  /** Casting undoes showing for every value of a record. */
  ghost predicate CastUndoesShow<V>(show: V -> string, cast: (nat, string) -> Option<V>, values: seq<V>) {
    forall i :: 0 <= i < |values| ==> cast(i, show(values[i])) == Some(values[i])
  }

  lemma {:induction false} CastRowIs<V>(show: V -> string, cast: (nat, string) -> Option<V>, values: seq<V>, i: nat)
    requires CastUndoesShow(show, cast, values) && i <= |values|
    ensures CastRow(cast, ShownRow(show, values)[i..], i) == Some(values[i..])
    decreases |values| - i
  {
    var shown := ShownRow(show, values)[i..];
    if i == |values| {
      assert shown == [] && values[i..] == [];
    } else {
      CastRowIs(show, cast, values, i + 1);
      assert shown[0] == show(values[i]) && shown[1..] == ShownRow(show, values)[i + 1..];
      assert [values[i]] + values[i + 1..] == values[i..];
    }
  }

  lemma {:induction false} CastRowsAre<V>(show: V -> string, cast: (nat, string) -> Option<V>, records: seq<seq<V>>)
    requires forall r :: 0 <= r < |records| ==> CastUndoesShow(show, cast, records[r])
    ensures CastRows(cast, ShownRows(show, records)) == Some(records)
  {
    if records != [] {
      CastRowsAre(show, cast, records[1..]);
      assert ShownRows(show, records)[1..] == ShownRows(show, records[1..]);
      CastRowIs(show, cast, records[0], 0);
      var shown := ShownRow(show, records[0]);
      assert shown[0..] == shown && records[0][0..] == records[0];
      assert [records[0]] + records[1..] == records;
    }
  }

  /** Rendering and parsing undo each other: for every schema with a field, every list of records the template can
      carry and every choice of noise, the program for the template gives the records back, in order. */
  lemma RoundTrip<V>(t: Template, fields: seq<string>, records: seq<seq<V>>, show: V -> string,
                     cast: (nat, string) -> Option<V>, extras: seq<Option<string>>, x: Extras)
    requires PageOk(t, fields, ShownRows(show, records), extras, x)
    requires fields != [] && (t.List? ==> Names(fields))
    requires forall r :: 0 <= r < |records| ==> CastUndoesShow(show, cast, records[r])
    ensures Program(t, fields, cast, Page(t, fields, ShownRows(show, records), extras, x)) == Some(records)
  {
    var rows := ShownRows(show, records);
    match t {
      case Table => TableRoundTrip(fields, rows, extras, x);
      case Divs => DivsRoundTrip(fields, rows, extras, x);
      case List => ListPageRoundTrip(fields, rows, extras, x);
    }
    var none: seq<seq<string>> := [];
    assert none + rows == rows;
    CastRowsAre(show, cast, records);
  }

  /** The teacher's own choice of program gives them back too, when no name or value on a list page looks like an item;
      without records a divs page is taken for a list page, which gives the same empty answer. */
  lemma TeacherRoundTrip<V>(t: Template, fields: seq<string>, records: seq<seq<V>>, show: V -> string,
                            cast: (nat, string) -> Option<V>, extras: seq<Option<string>>, x: Extras)
    requires PageOk(t, fields, ShownRows(show, records), extras, x) && QuietExtras(x)
    requires forall i :: 0 <= i < |extras| ==> Quiet(extras[i])
    requires fields != [] && (t.List? ==> Names(fields))
    requires t.List? ==> !RecordsHave(fields, ShownRows(show, records), ITEM_SINGLE)
                         && !RecordsHave(fields, ShownRows(show, records), ITEM_DOUBLE)
    requires forall r :: 0 <= r < |records| ==> CastUndoesShow(show, cast, records[r])
    ensures var page := Page(t, fields, ShownRows(show, records), extras, x);
            Program(Sniff(page), fields, cast, page) == Some(records)
  {
    var rows := ShownRows(show, records);
    if t.Divs? && records == [] {
      assert rows == [] && extras == [];
      EmptyDivsPageIsList(fields, x);
      EmptyDivsPageHasNoEntries(fields, x);
    } else {
      match t {
        case Table => TablePageIsRecognised(fields, rows, extras, x);
        case Divs => DivsPageIsRecognised(fields, rows, extras, x);
        case List => ListPageIsRecognisedExactly(fields, rows, extras, x);
      }
      RoundTrip(t, fields, records, show, cast, extras, x);
    }
  }
}
