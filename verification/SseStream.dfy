/** Reading a server-sent event stream in arbitrary pieces. */
module SseStream {
  import opened Counting
  import opened Options
  import opened Strings

  /** What the handlers are told. */
  datatype Call = OnDelta(text: string) | OnError(message: string)

  /** What a data payload is: not JSON or without content, an error object, or a content delta. */
  datatype Payload = Ignored | Failed(message: string) | Content(text: string)

  datatype Protocol = Protocol(isSpace: char -> bool, parse: string -> Payload)

  datatype Outcome = Outcome(calls: seq<Call>, stopped: bool)

  function HandleData(p: Protocol, data: string): Outcome {
    if data == "[DONE]" then Outcome([], true)
    else match p.parse(data)
         case Ignored => Outcome([], false)
         case Failed(message) => Outcome([OnError(message)], true)
         case Content(text) => Outcome(if text == "" then [] else [OnDelta(text)], false)
  }

  function HandleLine(p: Protocol, line: string): Outcome {
    var trimmed := Strip(p.isSpace, line);
    if "data:" <= trimmed then HandleData(p, Strip(p.isSpace, trimmed[5..])) else Outcome([], false)
  }

  function LineHandler(p: Protocol): string -> Outcome {
    (line: string) => HandleLine(p, line)
  }

  /** First x, then y unless x ended the stream. */
  function Then(x: Outcome, y: Outcome): Outcome {
    if x.stopped then x else Outcome(x.calls + y.calls, y.stopped)
  }

  lemma ThenAssociates(x: Outcome, y: Outcome, z: Outcome)
    ensures Then(Then(x, y), z) == Then(x, Then(y, z))
  {}

  lemma ThenNothing(x: Outcome)
    ensures Then(Outcome([], false), x) == x && Then(x, Outcome([], false)) == x
  {}

  /** Lines in order, until one of them ends the stream. */
  function HandleLines(tell: string -> Outcome, lines: seq<string>): Outcome {
    if lines == [] then Outcome([], false) else Then(tell(lines[0]), HandleLines(tell, lines[1..]))
  }

  /** Where c first occurs in s from position i on; |s| when it does not. */
  function Find(s: string, c: char, i: nat): (k: nat)
    requires i <= |s|
    ensures i <= k <= |s| && (forall j :: i <= j < k ==> s[j] != c) && (k < |s| ==> s[k] == c)
    decreases |s| - i
  {
    if i == |s| || s[i] == c then i else Find(s, c, i + 1)
  }

  function Lines(s: string): (lines: seq<string>)
    ensures lines != []
  {
    var k := Find(s, '\n', 0);
    if k == |s| then [s] else [s[..k]] + Lines(s[k + 1..])
  }

  ghost predicate BlankAt(s: string, i: int) {
    0 <= i && i + 2 <= |s| && s[i] == '\n' && s[i + 1] == '\n'
  }

  /** The first blank line: the position of the first two newlines in a row, or nothing. */
  function FirstBlank(s: string, i: nat): (k: Option<nat>)
    requires i <= |s|
    ensures k.Some? ==> i <= k.value && BlankAt(s, k.value) && forall j :: i <= j < k.value ==> !BlankAt(s, j)
    ensures k.None? ==> forall j :: i <= j ==> !BlankAt(s, j)
    decreases |s| - i
  {
    if i + 2 > |s| then None
    else if s[i] == '\n' && s[i + 1] == '\n' then Some(i)
    else FirstBlank(s, i + 1)
  }

  /** What becomes of one event. */
  function EventHandler(p: Protocol): string -> Outcome {
    (raw: string) => HandleLines(LineHandler(p), Lines(raw))
  }

  /** What has been told, what is still buffered, and whether the stream has ended. */
  datatype Reader = Reader(calls: seq<Call>, buffer: string, stopped: bool)

  function After(first: Outcome, r: Reader, rest: string): Reader {
    if first.stopped then Reader(first.calls, rest, true)
    else Reader(first.calls + r.calls, r.buffer, r.stopped)
  }

  /** Handles every complete event in the buffer. */
  function Drain(handle: string -> Outcome, buffer: string): Reader
    decreases |buffer|
  {
    var sep := FirstBlank(buffer, 0);
    if sep.None? then Reader([], buffer, false)
    else After(handle(buffer[..sep.value]), Drain(handle, buffer[sep.value + 2..]), buffer[sep.value + 2..])
  }

  /** The first event of s, and what follows it. */
  ghost predicate Splits(s: string, raw: string, rest: string) {
    s == raw + "\n\n" + rest && FirstBlank(s, 0) == Some(|raw|)
  }

  lemma FirstSplit(s: string) returns (raw: string, rest: string)
    requires FirstBlank(s, 0).Some?
    ensures Splits(s, raw, rest)
  {
    var k := FirstBlank(s, 0).value;
    raw, rest := s[..k], s[k + 2..];
  }

  lemma DrainSplit(handle: string -> Outcome, s: string, raw: string, rest: string)
    requires Splits(s, raw, rest)
    ensures Drain(handle, s) == After(handle(raw), Drain(handle, rest), rest)
  {
    assert s[..|raw|] == raw && s[|raw| + 2..] == rest;
  }

  // --- the read loop --------------------------------------------------------------------------------

  function Joined(chunks: seq<string>): string {
    if chunks == [] then "" else Joined(chunks[..|chunks| - 1]) + chunks[|chunks| - 1]
  }

  /** The lines of one event. */
  method HandleEvent(p: Protocol, raw: string, before: seq<Call>) returns (calls: seq<Call>, stopped: bool)
    ensures calls == before + HandleLines(LineHandler(p), Lines(raw)).calls
    ensures stopped == HandleLines(LineHandler(p), Lines(raw)).stopped
  {
    calls := before;
    var lines := Lines(raw);
    ghost var tell := LineHandler(p);
    ghost var all := Then(Outcome(before, false), HandleLines(tell, lines));
    for i := 0 to |lines|
      invariant Then(Outcome(calls, false), HandleLines(tell, lines[i..])) == all
    {
      NextLine(tell, lines, i, calls, all);
      var stop;
      calls, stop := TellLine(p, lines[i], calls);
      if stop { return calls, true; }
    }
    stopped := false;
  }

  method TellLine(p: Protocol, line: string, before: seq<Call>) returns (calls: seq<Call>, stopped: bool)
    ensures calls == before + HandleLine(p, line).calls && stopped == HandleLine(p, line).stopped
  {
    var trimmed := Strip(p.isSpace, line);
    if !("data:" <= trimmed) { return before, false; }
    var data := Strip(p.isSpace, trimmed[5..]);
    if data == "[DONE]" { return before, true; }
    match p.parse(data)
    case Ignored => return before, false;
    case Failed(message) => return before + [OnError(message)], true;
    case Content(text) => return if text == "" then before else before + [OnDelta(text)], false;
  }

  lemma NextLine(tell: string -> Outcome, lines: seq<string>, i: nat, calls: seq<Call>, all: Outcome)
    requires i < |lines| && Then(Outcome(calls, false), HandleLines(tell, lines[i..])) == all
    ensures all ==
            Then(Outcome(calls + tell(lines[i]).calls, tell(lines[i]).stopped), HandleLines(tell, lines[i + 1..]))
  {
    assert lines[i..][1..] == lines[i + 1..];
    ThenAssociates(Outcome(calls, false), tell(lines[i]), HandleLines(tell, lines[i + 1..]));
  }

  /** calls told so far and a buffer yet to be drained come to total. */
  ghost predicate Pending(handle: string -> Outcome, calls: seq<Call>, buffer: string, total: Reader) {
    var r := Drain(handle, buffer);
    total == Reader(calls + r.calls, r.buffer, r.stopped)
  }

  lemma PendingStep(handle: string -> Outcome, calls: seq<Call>, buffer: string, total: Reader)
    returns (raw: string, rest: string)
    requires Pending(handle, calls, buffer, total) && FirstBlank(buffer, 0).Some?
    ensures raw == buffer[..FirstBlank(buffer, 0).value] && rest == buffer[FirstBlank(buffer, 0).value + 2..]
    ensures if handle(raw).stopped then total == Reader(calls + handle(raw).calls, rest, true)
            else Pending(handle, calls + handle(raw).calls, rest, total)
  {
    raw, rest := buffer[..FirstBlank(buffer, 0).value], buffer[FirstBlank(buffer, 0).value + 2..];
    Regroup(calls, handle(raw).calls, Drain(handle, rest).calls);
  }

  /** All complete events of a buffer. */
  method DrainBuffer(p: Protocol, full: string, before: seq<Call>)
    returns (calls: seq<Call>, buffer: string, stopped: bool)
    ensures var r := Drain(EventHandler(p), full);
            Reader(calls, buffer, stopped) == Reader(before + r.calls, r.buffer, r.stopped)
  {
    ghost var r := Drain(EventHandler(p), full);
    ghost var total := Reader(before + r.calls, r.buffer, r.stopped);
    calls, buffer := before, full;
    var sep := FirstBlank(buffer, 0);
    while sep.Some?
      invariant sep == FirstBlank(buffer, 0) && Pending(EventHandler(p), calls, buffer, total)
      decreases |buffer|
    {
      var raw', rest' := PendingStep(EventHandler(p), calls, buffer, total);
      var raw := buffer[..sep.value];
      buffer := buffer[sep.value + 2..];
      calls, stopped := HandleEvent(p, raw, calls);
      if stopped { return; }
      sep := FirstBlank(buffer, 0);
    }
    stopped := false;
  }

  /** The loop over reads: what the handlers are told does not depend on how the text was cut into chunks. */
  method ReadStream(p: Protocol, chunks: seq<string>) returns (calls: seq<Call>)
    ensures calls == Drain(EventHandler(p), Joined(chunks)).calls
  {
    calls := [];
    var buffer := "";
    var i := 0;
    while i < |chunks|
      invariant i <= |chunks| && Drain(EventHandler(p), Joined(chunks[..i])) == Reader(calls, buffer, false)
    {
      assert chunks[..i + 1][..i] == chunks[..i];
      DrainMore(EventHandler(p), Joined(chunks[..i]), chunks[i]);
      var stopped;
      calls, buffer, stopped := DrainBuffer(p, buffer + chunks[i], calls);
      if stopped {
        StoppedStays(p, chunks, i + 1);
        return;
      }
      i := i + 1;
    }
    assert chunks[..i] == chunks;
  }

  /** all is what r becomes when the text behind its buffer is read as more. */
  ghost predicate GoesOn(r: Reader, more: Reader, all: Reader) {
    if r.stopped then all.calls == r.calls && all.stopped
    else all == Reader(r.calls + more.calls, more.buffer, more.stopped)
  }

  /** Text arriving later does not disturb what was already handled: go on from the buffer. */
  lemma {:induction false} DrainMore(handle: string -> Outcome, a: string, b: string)
    ensures var r := Drain(handle, a); GoesOn(r, Drain(handle, r.buffer + b), Drain(handle, a + b))
    decreases |a|
  {
    if FirstBlank(a, 0).Some? {
      var first, rest := FirstEvent(handle, a, b);
      DrainMore(handle, rest, b);
      var r := Drain(handle, rest);
      AfterGoesOn(first, rest, rest + b, r, Drain(handle, r.buffer + b), Drain(handle, rest + b));
    }
  }

  lemma AfterGoesOn(first: Outcome, x: string, y: string, r: Reader, more: Reader, all: Reader)
    requires GoesOn(r, more, all)
    ensures GoesOn(After(first, r, x), more, After(first, all, y))
  {}

  /** The first event is the same, with or without text behind it. */
  lemma FirstEvent(handle: string -> Outcome, a: string, b: string) returns (first: Outcome, rest: string)
    requires FirstBlank(a, 0).Some?
    ensures |rest| < |a|
    ensures Drain(handle, a) == After(first, Drain(handle, rest), rest)
    ensures Drain(handle, a + b) == After(first, Drain(handle, rest + b), rest + b)
  {
    var raw;
    raw, rest := FirstSplit(a);
    first := handle(raw);
    SplitStays(a, b, raw, rest);
    DrainSplit(handle, a, raw, rest);
    DrainSplit(handle, a + b, raw, rest + b);
  }

  lemma SplitStays(a: string, b: string, raw: string, rest: string)
    requires Splits(a, raw, rest)
    ensures Splits(a + b, raw, rest + b)
  {
    BlankStays(a, b, |raw|);
  }

  lemma BlankStays(a: string, b: string, k: nat)
    requires FirstBlank(a, 0) == Some(k)
    ensures FirstBlank(a + b, 0) == Some(k)
  {
    assert BlankAt(a + b, k);
    forall j | 0 <= j < k ensures !BlankAt(a + b, j) { assert !BlankAt(a, j); }
  }

  lemma {:induction false} StoppedStays(p: Protocol, chunks: seq<string>, i: nat)
    requires i <= |chunks| && Drain(EventHandler(p), Joined(chunks[..i])).stopped
    ensures Drain(EventHandler(p), Joined(chunks)).calls == Drain(EventHandler(p), Joined(chunks[..i])).calls
    decreases |chunks| - i
  {
    if i == |chunks| {
      assert chunks[..i] == chunks;
    } else {
      assert chunks[..i + 1][..i] == chunks[..i];
      DrainMore(EventHandler(p), Joined(chunks[..i]), chunks[i]);
      StoppedStays(p, chunks, i + 1);
    }
  }

  // --- what the events amount to ----------------------------------------------------------------------

  lemma {:induction false} HandleAppend(tell: string -> Outcome, a: seq<string>, b: seq<string>)
    ensures HandleLines(tell, a + b) == Then(HandleLines(tell, a), HandleLines(tell, b))
  {
    if a == [] {
      assert a + b == b;
      ThenNothing(HandleLines(tell, b));
    } else {
      assert (a + b)[1..] == a[1..] + b;
      HandleAppend(tell, a[1..], b);
      ThenAssociates(tell(a[0]), HandleLines(tell, a[1..]), HandleLines(tell, b));
    }
  }

  lemma {:induction false} LinesAppend(a: string, b: string)
    ensures Lines(a + "\n" + b) == Lines(a) + Lines(b)
    decreases |a|
  {
    var s := a + "\n" + b;
    var k := FirstBreak(a, b, s);
    if k < |a| {
      LinesAppend(a[k + 1..], b);
      Regroup([a[..k]], Lines(a[k + 1..]), Lines(b));
    }
  }

  /** The first line of a text with a break put into it. */
  lemma FirstBreak(a: string, b: string, s: string) returns (k: nat)
    requires s == a + "\n" + b
    ensures k == Find(a, '\n', 0) == Find(s, '\n', 0) <= |a| && k < |s| && s[..k] == a[..k]
    ensures k == |a| ==> a[..k] == a && s[k + 1..] == b
    ensures k < |a| ==> s[k + 1..] == a[k + 1..] + "\n" + b
  {
    k := Find(a, '\n', 0);
    assert s[k] == '\n' && forall j :: 0 <= j < k ==> s[j] == a[j];
    FindIs(s, '\n', k);
  }

  lemma FindIs(s: string, c: char, k: nat)
    requires k < |s| && s[k] == c && forall j :: 0 <= j < k ==> s[j] != c
    ensures Find(s, c, 0) == k
  {}

  lemma EmptyLineIgnored(p: Protocol)
    ensures LineHandler(p)("") == Outcome([], false)
  {}

  /** i is the last blank line of s. */
  ghost predicate LastBlank(s: string, i: nat) {
    BlankAt(s, i) && forall j :: i < j ==> !BlankAt(s, j)
  }

  /** The reader told what handling the lines of text in order tells. */
  ghost predicate Tells(tell: string -> Outcome, r: Reader, text: string) {
    Outcome(r.calls, r.stopped) == HandleLines(tell, Lines(text))
  }

  /** Events and their borders do not matter beyond this: every line before the last blank line is handled, in order,
      until one ends the stream; whatever follows the last blank line is dropped. */
  lemma LinesBeforeLastBlank(p: Protocol, s: string, i: nat)
    requires LastBlank(s, i)
    ensures Tells(LineHandler(p), Drain(EventHandler(p), s), s[..i])
  {
    EmptyLineIgnored(p);
    EventsAreLines(LineHandler(p), EventHandler(p), s, i);
  }

  lemma {:induction false} EventsAreLines(tell: string -> Outcome, handle: string -> Outcome, s: string, i: nat)
    requires tell("") == Outcome([], false) && forall raw: string :: handle(raw) == HandleLines(tell, Lines(raw))
    requires LastBlank(s, i)
    ensures Tells(tell, Drain(handle, s), s[..i])
    decreases |s|
  {
    var raw, rest := FirstSplit(s);
    if i >= |raw| + 2 {
      var j := i - |raw| - 2;
      LastBlankInRest(s, raw, rest, i);
      EventsAreLines(tell, handle, rest, j);
      TwoEvents(tell, s[..i], raw, rest[..j], Drain(handle, rest), rest);
    } else {
      NoBlankInRest(s, raw, rest, i);
      OneEvent(tell, s[..i], raw, rest);
    }
    DrainSplit(handle, s, raw, rest);
  }

  /** The lines of an event, a blank one, and the lines behind it. */
  lemma TwoEvents(tell: string -> Outcome, text: string, raw: string, tail: string, r: Reader, rest: string)
    requires tell("") == Outcome([], false)
    requires text == raw + "\n\n" + tail && Tells(tell, r, tail)
    ensures Tells(tell, After(HandleLines(tell, Lines(raw)), r, rest), text)
  {
    assert text == raw + "\n" + ("" + "\n" + tail);
    LinesAppend("", tail);
    LinesAppend(raw, "" + "\n" + tail);
    HandleAppend(tell, Lines(raw), [""] + Lines(tail));
    FirstLine(tell, "", Lines(tail));
    ThenNothing(HandleLines(tell, Lines(tail)));
  }

  lemma FirstLine(tell: string -> Outcome, line: string, rest: seq<string>)
    ensures HandleLines(tell, [line] + rest) == Then(tell(line), HandleLines(tell, rest))
  {
    assert ([line] + rest)[1..] == rest;
  }

  lemma OneEvent(tell: string -> Outcome, text: string, raw: string, rest: string)
    requires tell("") == Outcome([], false)
    requires text == raw || text == raw + "\n"
    ensures Tells(tell, After(HandleLines(tell, Lines(raw)), Reader([], rest, false), rest), text)
  {
    ThenNothing(HandleLines(tell, Lines(raw)));
    if text != raw {
      assert text == raw + "\n" + "";
      LinesAppend(raw, "");
      HandleAppend(tell, Lines(raw), [""]);
      assert [""] + [] == [""];
      FirstLine(tell, "", []);
    }
  }

  lemma LastBlankInRest(s: string, raw: string, rest: string, i: nat)
    requires Splits(s, raw, rest) && LastBlank(s, i) && i >= |raw| + 2
    ensures LastBlank(rest, i - |raw| - 2)
  {
    var n := |raw| + 2;
    assert BlankAt(rest, i - n);
    forall j | i - n < j ensures !BlankAt(rest, j) { assert !BlankAt(s, j + n); }
  }

  lemma NoBlankInRest(s: string, raw: string, rest: string, i: nat)
    requires Splits(s, raw, rest) && LastBlank(s, i) && i < |raw| + 2
    ensures FirstBlank(rest, 0).None? && (i == |raw| || i == |raw| + 1)
  {
    var n := |raw| + 2;
    forall j | 0 <= j ensures !BlankAt(rest, j) { assert !BlankAt(s, j + n); }
  }
}
