/** Taking white space off the ends of a text. */
module Strings {

  function TrimStart(isSpace: char -> bool, s: string): string {
    if s != [] && isSpace(s[0]) then TrimStart(isSpace, s[1..]) else s
  }

  function TrimEnd(isSpace: char -> bool, s: string): string {
    if s != [] && isSpace(s[|s| - 1]) then TrimEnd(isSpace, s[..|s| - 1]) else s
  }

  function Strip(isSpace: char -> bool, s: string): string {
    TrimEnd(isSpace, TrimStart(isSpace, s))
  }

  ghost predicate Blank(isSpace: char -> bool, s: string) {
    forall i :: 0 <= i < |s| ==> isSpace(s[i])
  }

  /** Stripping removes white space at both ends and nothing else. */
  lemma StripIs(isSpace: char -> bool, s: string) returns (a: nat, b: nat)
    ensures a <= b <= |s| && Strip(isSpace, s) == s[a..b]
    ensures Blank(isSpace, s[..a]) && Blank(isSpace, s[b..])
    ensures a < b ==> !isSpace(s[a]) && !isSpace(s[b - 1])
  {
    a := TrimStartIs(isSpace, s);
    var m := TrimEndIs(isSpace, s[a..]);
    b := a + m;
    assert s[a..][..m] == s[a..b] && s[a..][m..] == s[b..];
    if a < b { assert TrimStart(isSpace, s) == s[a..] && s[a..][0] == s[a]; assert s[a..][m - 1] == s[b - 1]; }
  }

  lemma {:induction false} TrimStartIs(isSpace: char -> bool, s: string) returns (a: nat)
    ensures a <= |s| && TrimStart(isSpace, s) == s[a..] && Blank(isSpace, s[..a])
    ensures a < |s| ==> !isSpace(s[a])
  {
    a := 0;
    if s != [] && isSpace(s[0]) {
      var m := TrimStartIs(isSpace, s[1..]);
      a := m + 1;
      assert s[1..][m..] == s[a..];
      forall i | 0 <= i < a ensures isSpace(s[..a][i]) { assert i > 0 ==> s[i] == s[1..][..m][i - 1]; }
    }
  }

  lemma {:induction false} TrimEndIs(isSpace: char -> bool, s: string) returns (b: nat)
    ensures b <= |s| && TrimEnd(isSpace, s) == s[..b] && Blank(isSpace, s[b..])
    ensures b > 0 ==> !isSpace(s[b - 1])
  {
    b := |s|;
    if s != [] && isSpace(s[|s| - 1]) {
      var t := s[..|s| - 1];
      b := TrimEndIs(isSpace, t);
      assert t[..b] == s[..b];
      forall i | b <= i < |s| ensures isSpace(s[i]) { assert i < |t| ==> s[i] == t[b..][i - b]; }
    }
  }
}
