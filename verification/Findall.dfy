/** Regular-expression scanning for text between two literal marks, as in re.findall("open(...)close", s), and the
    little algebra that shows what it finds in a page put together from parts. */
module Findall {
  import opened Options

  /** open(.*?)close with every captured character satisfying ok. */
  datatype Marks = Marks(open: string, close: string, ok: char -> bool)

  /** The length of the shortest capture at the front of s, if a close follows it. */
  function Capture(m: Marks, s: string): Option<nat> {
    if m.close <= s then Some(0)
    else if s == "" || !m.ok(s[0]) then None
    else match Capture(m, s[1..])
         case Some(k) => Some(k + 1)
         case None => None
  }

  lemma {:induction false} CaptureFits(m: Marks, s: string)
    requires Capture(m, s).Some?
    ensures Capture(m, s).value + |m.close| <= |s|
  {
    if !(m.close <= s) { CaptureFits(m, s[1..]); }
  }

  /** All captures, scanning from left to right and going on behind each match. */
  function FindAll(m: Marks, s: string): seq<string>
    decreases |s|
  {
    if s == "" || m.open == "" then []
    else if m.open <= s && Capture(m, s[|m.open|..]).Some? then
      var k := Capture(m, s[|m.open|..]).value;
      CaptureFits(m, s[|m.open|..]);
      [s[|m.open|..][..k]] + FindAll(m, s[|m.open|..][k + |m.close|..])
    else FindAll(m, s[1..])
  }

  // --- parts that a scan passes over, and parts it captures from ---------------------------------------

  /** Whatever follows part, the scan finds found in it and goes on behind it. */
  ghost predicate Yields(m: Marks, part: string, found: seq<string>) {
    forall rest: string :: YieldsBefore(m, part, found, rest)
  }

  ghost predicate YieldsBefore(m: Marks, part: string, found: seq<string>, rest: string) {
    FindAll(m, part + rest) == found + FindAll(m, rest)
  }

  /** Whatever follows part, a capture runs through it. */
  ghost predicate Runs(m: Marks, part: string) {
    forall rest: string :: RunsBefore(m, part, rest)
  }

  ghost predicate RunsBefore(m: Marks, part: string, rest: string) {
    Capture(m, part + rest) ==
      match Capture(m, rest)
      case Some(k) => Some(k + |part|)
      case None => None
  }

  lemma YieldsNothing(m: Marks)
    ensures Yields(m, "", [])
  {
    forall rest: string ensures YieldsBefore(m, "", [], rest) { assert "" + rest == rest; }
  }

  lemma YieldsBoth(m: Marks, a: string, x: seq<string>, b: string, y: seq<string>)
    requires Yields(m, a, x) && Yields(m, b, y)
    ensures Yields(m, a + b, x + y)
  {
    forall rest: string ensures YieldsBefore(m, a + b, x + y, rest) {
      assert YieldsBefore(m, a, x, b + rest) && YieldsBefore(m, b, y, rest);
      YieldsInTurn(m, a, x, b, y, rest);
    }
  }

  lemma YieldsInTurn(m: Marks, a: string, x: seq<string>, b: string, y: seq<string>, rest: string)
    requires YieldsBefore(m, a, x, b + rest) && YieldsBefore(m, b, y, rest)
    ensures YieldsBefore(m, a + b, x + y, rest)
  {
    var more := FindAll(m, rest);
    assert (a + b) + rest == a + (b + rest);
    assert x + (y + more) == (x + y) + more;
  }

  lemma FoundIn(m: Marks, part: string, found: seq<string>)
    requires Yields(m, part, found)
    ensures FindAll(m, part) == found
  {
    assert part + "" == part;
    assert YieldsBefore(m, part, found, "");
  }

  lemma RunsNothing(m: Marks)
    ensures Runs(m, "")
  {
    forall rest: string ensures RunsBefore(m, "", rest) { assert "" + rest == rest; }
  }

  lemma RunsBoth(m: Marks, a: string, b: string)
    requires Runs(m, a) && Runs(m, b)
    ensures Runs(m, a + b)
  {
    forall rest: string ensures RunsBefore(m, a + b, rest) {
      assert (a + b) + rest == a + (b + rest);
      assert RunsBefore(m, a, b + rest) && RunsBefore(m, b, rest);
    }
  }

  /** open body close, with a body that captures run through, yields that body. */
  lemma YieldsBody(m: Marks, body: string)
    requires m.open != "" && Runs(m, body)
    ensures Yields(m, m.open + body + m.close, [body])
  {
    forall rest: string ensures YieldsBefore(m, m.open + body + m.close, [body], rest) {
      YieldsBodyBefore(m, body, rest);
    }
  }

  lemma YieldsBodyBefore(m: Marks, body: string, rest: string)
    requires m.open != "" && Runs(m, body)
    ensures YieldsBefore(m, m.open + body + m.close, [body], rest)
  {
    var tail := m.close + rest;
    BodyParts(m.open, body, m.close, rest, tail);
    assert RunsBefore(m, body, tail);
    assert Capture(m, tail) == Some(0);
  }

  lemma BodyParts(open: string, body: string, close: string, rest: string, tail: string)
    requires tail == close + rest
    ensures ((open + body + close) + rest)[|open|..] == body + tail && open <= (open + body + close) + rest
    ensures (body + tail)[..|body|] == body && (body + tail)[|body| + |close|..] == rest
  {}

  // --- text and tags ----------------------------------------------------------------------------------

  /** The scan passes over a character that no match begins with. */
  lemma YieldsChar(m: Marks, c: char)
    requires m.open != "" && m.open[0] != c
    ensures Yields(m, [c], [])
  {
    forall rest: string ensures YieldsBefore(m, [c], [], rest) {
      var s := [c] + rest;
      assert s[0] == c && s[1..] == rest;
    }
  }

  lemma {:induction false} YieldsText(m: Marks, text: string)
    requires m.open != "" && m.open[0] !in text
    ensures Yields(m, text, [])
  {
    var none: seq<string> := [];
    assert none + none == none;
    if text == "" {
      YieldsNothing(m);
    } else {
      assert text[0] in text;
      YieldsChar(m, text[0]);
      YieldsText(m, text[1..]);
      YieldsBoth(m, [text[0]], none, text[1..], none);
      assert [text[0]] + text[1..] == text;
    }
  }

  /** A capture runs through characters that are allowed and that close does not begin with. */
  lemma {:induction false} RunsText(m: Marks, text: string)
    requires m.close != "" && m.close[0] !in text && forall c :: c in text ==> m.ok(c)
    ensures Runs(m, text)
  {
    if text == "" {
      RunsNothing(m);
    } else {
      assert text[0] in text;
      forall rest: string ensures RunsBefore(m, [text[0]], rest) {
        assert ([text[0]] + rest)[0] != m.close[0] && ([text[0]] + rest)[1..] == rest;
      }
      RunsText(m, text[1..]);
      RunsBoth(m, [text[0]], text[1..]);
      assert [text[0]] + text[1..] == text;
    }
  }

  /** a and b differ at position k. */
  ghost predicate Differ(a: string, b: string, k: nat) {
    k < |a| && k < |b| && a[k] != b[k]
  }

  /** The scan passes over a tag, with the text behind it, that is not the opening one. */
  lemma YieldsTag(m: Marks, tag: string, tail: string, k: nat)
    requires m.open != "" && tag == [m.open[0]] + tail && m.open[0] !in tail && Differ(tag, m.open, k)
    ensures Yields(m, tag, [])
  {
    YieldsText(m, tail);
    forall rest: string ensures YieldsBefore(m, tag, [], rest) {
      assert (tag + rest)[k] == tag[k];
      assert (tag + rest)[1..] == tail + rest;
      assert YieldsBefore(m, tail, [], rest);
    }
  }

  /** A capture runs through a tag, with the text behind it, that is not the closing one. */
  lemma RunsTag(m: Marks, tag: string, tail: string, k: nat)
    requires m.close != "" && tag == [m.close[0]] + tail && m.close[0] !in tail && Differ(tag, m.close, k)
    requires m.ok(m.close[0]) && forall c :: c in tail ==> m.ok(c)
    ensures Runs(m, tag)
  {
    RunsText(m, tail);
    forall rest: string ensures RunsBefore(m, tag, rest) {
      assert (tag + rest)[k] == tag[k];
      assert (tag + rest)[1..] == tail + rest;
      assert RunsBefore(m, tail, rest);
    }
  }

  // --- lines joined into a page -------------------------------------------------------------------------

  /** The non-empty parts, joined by newlines. */
  function JoinLines(parts: seq<string>): string {
    if parts == [] then ""
    else if parts[0] == "" then JoinLines(parts[1..])
    else if JoinLines(parts[1..]) == "" then parts[0]
    else parts[0] + "\n" + JoinLines(parts[1..])
  }

  function Flatten(found: seq<seq<string>>): seq<string> {
    if found == [] then [] else found[0] + Flatten(found[1..])
  }

  /** A page yields what its parts yield, in order. */
  lemma {:induction false} YieldsLines(m: Marks, parts: seq<string>, found: seq<seq<string>>)
    requires m.open != "" && m.open[0] != '\n' && |parts| == |found|
    requires forall i :: 0 <= i < |parts| ==> Yields(m, parts[i], found[i])
    ensures Yields(m, JoinLines(parts), Flatten(found))
  {
    if parts == [] {
      YieldsNothing(m);
    } else {
      YieldsLines(m, parts[1..], found[1..]);
      var first, rest := parts[0], JoinLines(parts[1..]);
      assert Yields(m, first, found[0]);
      if first == "" {
        YieldsBoth(m, "", found[0], rest, Flatten(found[1..]));
        assert "" + rest == rest;
      } else if rest == "" {
        YieldsBoth(m, first, found[0], rest, Flatten(found[1..]));
        assert first + rest == first;
      } else {
        YieldsText(m, "\n");
        YieldsBoth(m, first, found[0], "\n", []);
        YieldsBoth(m, first + "\n", found[0] + [], rest, Flatten(found[1..]));
        assert found[0] + [] == found[0];
      }
    }
  }
}
