/** Sliding-window chunking of a text. */
module ChunkText {
  import opened Bounds
  import opened Counting
  import opened Strings

  /** Python's slice: negative bounds count from the end, and out-of-range bounds are pulled in. */
  function Bound(i: int, n: nat): (k: nat)
    ensures k <= n
  {
    if i + n < 0 then 0 else if i < 0 then n + i else if i > n then n else i
  }

  function Slice(s: string, a: int, b: int): string {
    if Bound(a, |s|) <= Bound(b, |s|) then s[Bound(a, |s|)..Bound(b, |s|)] else ""
  }

  /** The last occurrence of c, or -1. */
  function RFind(s: string, c: char): (k: int)
    ensures -1 <= k < |s| && (k >= 0 ==> s[k] == c) && forall i :: k < i < |s| ==> s[i] != c
  {
    if s == [] then -1
    else if s[|s| - 1] == c then |s| - 1
    else
      var k := RFind(s[..|s| - 1], c);
      assert forall i :: 0 <= i < |s| - 1 ==> s[i] == s[..|s| - 1][i];
      k
  }

  datatype Window = Window(start: nat, end: int)

  /** Where the window that begins at start is cut: at its last blank, unless that comes too early. */
  function EndOf(text: string, size: int, start: nat): int {
    var end := Min(start + size, |text|);
    if end < |text| then
      var cut := RFind(Slice(text, start, end), ' ');
      if cut > size / 2 then start + cut else end
    else end
  }

  function CutOf(text: string, size: int): nat -> int {
    (start: nat) => EndOf(text, size, start)
  }

  /** The stripped text of a window. */
  function PieceOf(isSpace: char -> bool, text: string): (nat, int) -> string {
    (start: nat, end: int) => Strip(isSpace, Slice(text, start, end))
  }

  /** The windows from start on, over n characters; start always moves. */
  function Windows(n: nat, cut: nat -> int, over: int, start: nat): seq<Window>
    decreases n - start
  {
    if start >= n then []
    else
      [Window(start, cut(start))]
      + if cut(start) >= n then [] else Windows(n, cut, over, Max(cut(start) - over, start + 1))
  }

  /** The windows' texts, without the empty ones. */
  function Chunks(piece: (nat, int) -> string, ws: seq<Window>): seq<string> {
    if ws == [] then []
    else
      var last := ws[|ws| - 1];
      var chunk := piece(last.start, last.end);
      Chunks(piece, ws[..|ws| - 1]) + if chunk == "" then [] else [chunk]
  }

  /** The chunker, for windows of size characters that overlap by so many.  It ends for every size and overlap. */
  method ChunkText(isSpace: char -> bool, given: string, size: int, overlap: int) returns (chunks: seq<string>)
    ensures var text := Strip(isSpace, given);
            chunks == Chunks(PieceOf(isSpace, text), Windows(|text|, CutOf(text, size), Min(overlap, size - 1), 0))
  {
    var text := Strip(isSpace, given);
    if text == "" { return []; }
    var over := Min(overlap, size - 1);
    chunks := Slide(PieceOf(isSpace, text), |text|, CutOf(text, size), over);
  }

  /** The loop over windows. */
  method Slide(piece: (nat, int) -> string, n: nat, cut: nat -> int, over: int) returns (chunks: seq<string>)
    ensures chunks == Chunks(piece, Windows(n, cut, over, 0))
  {
    chunks := [];
    var start, last := 0, false;
    ghost var all, done: seq<Window> := Windows(n, cut, over, 0), [];
    NothingDone(piece, n, cut, over, all, done);
    while start < n
      invariant Doing(piece, n, cut, over, all, done, start, chunks)
      decreases n - start
    {
      start, chunks, last, done := DoWindow(piece, n, cut, over, all, done, start, chunks);
      if last { return; }
    }
    AllDone(piece, n, cut, over, all, done, start, chunks);
  }

  /** One window: keeps its text unless it is empty, and moves on unless it was the last one. */
  method DoWindow(piece: (nat, int) -> string, n: nat, cut: nat -> int, over: int, ghost all: seq<Window>,
                  ghost done0: seq<Window>, start0: nat, chunks0: seq<string>)
    returns (start: nat, chunks: seq<string>, last: bool, ghost done: seq<Window>)
    requires start0 < n && Doing(piece, n, cut, over, all, done0, start0, chunks0)
    ensures last ==> chunks == Chunks(piece, all)
    ensures !last ==> start0 < start && Doing(piece, n, cut, over, all, done, start, chunks)
  {
    var end := cut(start0);
    var chunk := piece(start0, end);
    start, chunks, last, done := start0, chunks0, end >= n, done0 + [Window(start0, end)];
    if chunk != "" { chunks := chunks + [chunk]; }
    if !last { start := Max(end - over, start + 1); }
    WindowDone(piece, n, cut, over, all, done0, start0, chunks0, chunks);
  }

  /** The windows done so far, their chunks, and the windows to come. */
  ghost predicate Doing(piece: (nat, int) -> string, n: nat, cut: nat -> int, over: int, all: seq<Window>,
                        done: seq<Window>, start: nat, chunks: seq<string>)
  {
    chunks == Chunks(piece, done) && all == done + Windows(n, cut, over, start)
  }

  lemma NothingDone(piece: (nat, int) -> string, n: nat, cut: nat -> int, over: int, all: seq<Window>,
                    done: seq<Window>)
    requires all == Windows(n, cut, over, 0) && done == []
    ensures Doing(piece, n, cut, over, all, done, 0, [])
  {}

  lemma AllDone(piece: (nat, int) -> string, n: nat, cut: nat -> int, over: int, all: seq<Window>, done: seq<Window>,
                start: nat, chunks: seq<string>)
    requires start >= n && Doing(piece, n, cut, over, all, done, start, chunks)
    ensures chunks == Chunks(piece, all)
  {
    assert done + [] == done;
  }

  /** The windows behind the one that begins at start. */
  function Later(n: nat, cut: nat -> int, over: int, start: nat): seq<Window> {
    if cut(start) >= n then [] else Windows(n, cut, over, Max(cut(start) - over, start + 1))
  }

  lemma NextWindow(n: nat, cut: nat -> int, over: int, all: seq<Window>, done: seq<Window>, start: nat)
    requires start < n && all == done + Windows(n, cut, over, start)
    ensures var more := done + [Window(start, cut(start))];
            if cut(start) >= n then all == more
            else all == more + Windows(n, cut, over, Max(cut(start) - over, start + 1))
  {
    assert Windows(n, cut, over, start) == [Window(start, cut(start))] + Later(n, cut, over, start);
    Regroup(done, [Window(start, cut(start))], Later(n, cut, over, start));
  }

  lemma NextChunk(piece: (nat, int) -> string, done: seq<Window>, w: Window)
    ensures var chunk := piece(w.start, w.end);
            Chunks(piece, done + [w]) == if chunk == "" then Chunks(piece, done) else Chunks(piece, done) + [chunk]
  {
    assert (done + [w])[..|done|] == done;
  }

  lemma WindowDone(piece: (nat, int) -> string, n: nat, cut: nat -> int, over: int, all: seq<Window>,
                   done: seq<Window>, start: nat, chunks0: seq<string>, chunks: seq<string>)
    requires start < n && Doing(piece, n, cut, over, all, done, start, chunks0)
    requires chunks == if piece(start, cut(start)) == "" then chunks0 else chunks0 + [piece(start, cut(start))]
    ensures var more := done + [Window(start, cut(start))];
            if cut(start) >= n then chunks == Chunks(piece, all)
            else Doing(piece, n, cut, over, all, more, Max(cut(start) - over, start + 1), chunks)
  {
    NextWindow(n, cut, over, all, done, start);
    NextChunk(piece, done, Window(start, cut(start)));
  }

  // --- what the windows are worth ------------------------------------------------------------------

  /** With a positive size a cut lies inside its window, which is full unless it is broken at a blank or at the end. */
  lemma CutIs(text: string, size: nat, start: nat)
    requires size >= 1 && start < |text|
    ensures var end := EndOf(text, size, start);
            && start < end <= |text| && end - start <= size
            && (end < |text| ==>
                 if text[end] == ' ' && size / 2 < end - start < size then
                   forall i :: end < i < start + size ==> text[i] != ' '
                 else end == start + size && forall i :: start + size / 2 < i < end ==> text[i] != ' ')
  {
    var cut := LastBlank(text, start, Min(start + size, |text|));
  }

  /** Where the last blank of a window lies. */
  lemma LastBlank(text: string, start: nat, full: nat) returns (cut: int)
    requires start <= full <= |text|
    ensures cut == RFind(Slice(text, start, full), ' ') && -1 <= cut < full - start
    ensures cut >= 0 ==> text[start + cut] == ' '
    ensures forall i :: start <= i < full && start + cut < i ==> text[i] != ' '
  {
    var window := Slice(text, start, full);
    assert window == text[start..full];
    cut := RFind(window, ' ');
    forall i | start <= i < full && start + cut < i ensures text[i] != ' ' { assert text[i] == window[i - start]; }
    if cut >= 0 { assert text[start + cut] == window[cut]; }
  }

  /** A cut function that stays inside its window. */
  ghost predicate Good(n: nat, cut: nat -> int, size: nat) {
    forall start: nat :: start < n ==> start < cut(start) <= n && cut(start) - start <= size
  }

  lemma CutsAreGood(text: string, size: nat)
    requires size >= 1
    ensures Good(|text|, CutOf(text, size), size)
  {
    forall start: nat | start < |text|
      ensures start < CutOf(text, size)(start) <= |text| && CutOf(text, size)(start) - start <= size
    {
      CutIs(text, size, start);
    }
  }

  /** Windows start at the beginning, advance, overlap by at most over, leave no gap and reach the end. */
  ghost predicate Covers(ws: seq<Window>, start: nat, n: nat, size: nat, over: nat) {
    && ws != [] && ws[0].start == start && ws[|ws| - 1].end == n
    && (forall k :: 0 <= k < |ws| ==> ws[k].start < ws[k].end <= n && ws[k].end - ws[k].start <= size)
    && (forall k, l :: 0 <= k < l < |ws| && l == k + 1 ==>
          ws[k].start < ws[l].start <= ws[k].end && ws[k].end - ws[l].start <= over)
  }

  lemma {:induction false} WindowsCover(n: nat, cut: nat -> int, size: nat, over: nat, start: nat)
    requires Good(n, cut, size) && start < n
    ensures Covers(Windows(n, cut, over, start), start, n, size, over)
    decreases n - start
  {
    var end := cut(start);
    if end < n {
      var next: nat := Max(end - over, start + 1);
      WindowsCover(n, cut, size, over, next);
      CoverMore(Window(start, end), Windows(n, cut, over, next), next, n, size, over);
    }
  }

  lemma CoverMore(w: Window, rest: seq<Window>, next: nat, n: nat, size: nat, over: nat)
    requires Covers(rest, next, n, size, over)
    requires w.start < w.end <= n && w.end - w.start <= size && w.start < next <= w.end && w.end - next <= over
    ensures Covers([w] + rest, w.start, n, size, over)
  {
    var ws := [w] + rest;
    forall k, l | 0 <= k < l < |ws| && l == k + 1
      ensures ws[k].start < ws[l].start <= ws[k].end && ws[k].end - ws[l].start <= over
    {
      assert k > 0 ==> ws[k] == rest[k - 1] && ws[l] == rest[l - 1];
    }
  }

  /** What lies behind the first window is covered by the others. */
  lemma CoversBehind(ws: seq<Window>, start: nat, n: nat, size: nat, over: nat, i: nat)
    requires Covers(ws, start, n, size, over) && ws[0].end <= i < n
    ensures |ws| > 1 && ws[1].start <= i && Covers(ws[1..], ws[1].start, n, size, over)
  {
    var rest := ws[1..];
    forall k | 0 <= k < |rest| ensures rest[k] == ws[k + 1] { SuffixAt(ws, 1, k); }
  }

  /** So every position lies in a window. */
  lemma {:induction false} InSomeWindow(ws: seq<Window>, start: nat, n: nat, size: nat, over: nat, i: nat)
    returns (k: nat)
    requires Covers(ws, start, n, size, over) && start <= i < n
    ensures k < |ws| && ws[k].start <= i < ws[k].end
    decreases |ws|
  {
    if i < ws[0].end {
      k := 0;
    } else {
      CoversBehind(ws, start, n, size, over, i);
      var m := InSomeWindow(ws[1..], ws[1].start, n, size, over, i);
      SuffixAt(ws, 1, m);
      k := m + 1;
    }
  }

  lemma {:induction false} ChunkOfWindow(piece: (nat, int) -> string, ws: seq<Window>, k: nat) returns (c: nat)
    requires k < |ws| && piece(ws[k].start, ws[k].end) != ""
    ensures c < |Chunks(piece, ws)| && Chunks(piece, ws)[c] == piece(ws[k].start, ws[k].end)
  {
    var last := |ws| - 1;
    if k == last {
      c := |Chunks(piece, ws[..last])|;
    } else {
      c := ChunkOfWindow(piece, ws[..last], k);
    }
  }

  lemma {:induction false} ChunkFromWindow(piece: (nat, int) -> string, ws: seq<Window>, c: nat) returns (k: nat)
    requires c < |Chunks(piece, ws)|
    ensures k < |ws| && Chunks(piece, ws)[c] == piece(ws[k].start, ws[k].end) != ""
  {
    var last := |ws| - 1;
    if c == |Chunks(piece, ws[..last])| {
      k := last;
    } else {
      k := ChunkFromWindow(piece, ws[..last], c);
    }
  }

  lemma ChunkWindow(piece: (nat, int) -> string, n: nat, cut: nat -> int, size: nat, over: nat, c: nat)
    returns (start: nat, end: nat)
    requires Good(n, cut, size) && c < |Chunks(piece, Windows(n, cut, over, 0))|
    ensures start < end <= n && end - start <= size
    ensures Chunks(piece, Windows(n, cut, over, 0))[c] == piece(start, end) != ""
  {
    var ws := Windows(n, cut, over, 0);
    var k := ChunkFromWindow(piece, ws, c);
    WindowsCover(n, cut, size, over, 0);
    start, end := ws[k].start, ws[k].end;
  }

  /** Every chunk is a slice of the stripped text, at most size long, with no white space at its ends. */
  lemma ChunksAreSlices(isSpace: char -> bool, text: string, size: nat, over: nat, c: nat) returns (a: nat, b: nat)
    requires size >= 1
    requires c < |Chunks(PieceOf(isSpace, text), Windows(|text|, CutOf(text, size), over, 0))|
    ensures a < b <= |text| && b - a <= size && !isSpace(text[a]) && !isSpace(text[b - 1])
    ensures Chunks(PieceOf(isSpace, text), Windows(|text|, CutOf(text, size), over, 0))[c] == text[a..b]
  {
    CutsAreGood(text, size);
    var start, end := ChunkWindow(PieceOf(isSpace, text), |text|, CutOf(text, size), size, over, c);
    a, b := PieceIs(isSpace, text, start, end);
  }

  lemma PieceIs(isSpace: char -> bool, text: string, start: nat, end: nat) returns (a: nat, b: nat)
    requires start < end <= |text|
    ensures start <= a <= b <= end && PieceOf(isSpace, text)(start, end) == text[a..b]
    ensures a < b ==> !isSpace(text[a]) && !isSpace(text[b - 1])
    ensures forall i :: start <= i < end && !isSpace(text[i]) ==> a <= i < b
  {
    var window := text[start..end];
    assert Slice(text, start, end) == window;
    var x, y := StripIs(isSpace, window);
    a, b := start + x, start + y;
    SliceOfSlice(text, start, end, x, y);
    forall i | start <= i < a ensures isSpace(text[i]) { assert text[i] == window[..x][i - start]; }
    forall i | b <= i < end ensures isSpace(text[i]) { assert text[i] == window[y..][i - b]; }
  }

  lemma SliceOfSlice(text: string, start: nat, end: nat, x: nat, y: nat)
    requires start <= end <= |text| && x <= y <= end - start
    ensures text[start..end][x..y] == text[start + x..start + y]
  {
    var window := text[start..end];
    var inner, outer := window[x..y], text[start + x..start + y];
    forall k | 0 <= k < |inner| ensures inner[k] == outer[k] {
      assert inner[k] == window[x + k] == text[start + x + k];
    }
    assert inner == outer;
  }

  /** Nothing but white space is lost: every other character of the text is in a chunk, at its place. */
  lemma NothingLost(isSpace: char -> bool, text: string, size: nat, over: nat, i: nat) returns (c: nat, a: nat, b: nat)
    requires size >= 1 && i < |text| && !isSpace(text[i])
    ensures c < |Chunks(PieceOf(isSpace, text), Windows(|text|, CutOf(text, size), over, 0))|
    ensures a <= i < b <= |text|
    ensures Chunks(PieceOf(isSpace, text), Windows(|text|, CutOf(text, size), over, 0))[c] == text[a..b]
  {
    var ws := Windows(|text|, CutOf(text, size), over, 0);
    CutsAreGood(text, size);
    WindowsCover(|text|, CutOf(text, size), size, over, 0);
    var k := InSomeWindow(ws, 0, |text|, size, over, i);
    a, b := PieceIs(isSpace, text, ws[k].start, ws[k].end);
    assert text[a..b] != "";
    c := ChunkOfWindow(PieceOf(isSpace, text), ws, k);
  }
}
