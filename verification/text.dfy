/** ASCII string operations used across the merger: trimming, case folding,
    substring search and joining, with the facts later proofs rely on. */
module Text {

  datatype Option<+T> = None | Some(value: T)

  predicate IsSpace(c: char) {
    c == ' ' || c == '\t' || c == '\n' || c == '\r' || c == '\U{000B}' || c == '\U{000C}'
  }

  function LowerChar(c: char): char {
    if 'A' <= c <= 'Z' then (c as int + 32) as char else c
  }

  function UpperChar(c: char): char {
    if 'a' <= c <= 'z' then (c as int - 32) as char else c
  }

  function Lower(s: string): (r: string)
    ensures |r| == |s|
    ensures forall i :: 0 <= i < |s| ==> r[i] == LowerChar(s[i])
  {
    seq(|s|, i requires 0 <= i < |s| => LowerChar(s[i]))
  }

  function Upper(s: string): (r: string)
    ensures |r| == |s|
    ensures forall i :: 0 <= i < |s| ==> r[i] == UpperChar(s[i])
  {
    seq(|s|, i requires 0 <= i < |s| => UpperChar(s[i]))
  }

  function TrimLeft(s: string): (r: string)
    ensures |r| <= |s|
  {
    if s != "" && IsSpace(s[0]) then TrimLeft(s[1..]) else s
  }

  function TrimRight(s: string): (r: string)
    ensures |r| <= |s|
  {
    if s != "" && IsSpace(s[|s| - 1]) then TrimRight(s[..|s| - 1]) else s
  }

  function TrimSpace(s: string): string { TrimRight(TrimLeft(s)) }

  /** A text that trimming leaves alone: empty, or with visible ends. */
  predicate Trimmed(s: string) {
    s == "" || (!IsSpace(s[0]) && !IsSpace(s[|s| - 1]))
  }

  predicate AllSpace(s: string) { forall i :: 0 <= i < |s| ==> IsSpace(s[i]) }

  /** TrimLeft cuts off exactly the leading white space. */
  lemma TrimLeftCuts(s: string)
    ensures var r := TrimLeft(s);
            var k := |s| - |r|;
            r == s[k..] && AllSpace(s[..k]) && (r != "" ==> !IsSpace(r[0]))
  {
    hide IsSpace;
    if s != "" && IsSpace(s[0]) {
      TrimLeftCuts(s[1..]);
      var k := |s| - |TrimLeft(s)|;
      assert s[1..][k - 1..] == s[k..];
      forall i | 0 <= i < k ensures IsSpace(s[..k][i]) {
        if i > 0 { assert s[..k][i] == s[1..][..k - 1][i - 1]; }
      }
    }
  }

  /** TrimRight cuts off exactly the trailing white space. */
  lemma TrimRightCuts(s: string)
    ensures var r := TrimRight(s);
            r == s[..|r|] && AllSpace(s[|r|..]) && (r != "" ==> !IsSpace(r[|r| - 1]))
  {
    hide IsSpace;
    if s != "" && IsSpace(s[|s| - 1]) {
      var p := s[..|s| - 1];
      TrimRightCuts(p);
      var n := |TrimRight(s)|;
      assert p[..n] == s[..n];
      forall i | 0 <= i < |s| - n ensures IsSpace(s[n..][i]) {
        if i < |s| - n - 1 { assert s[n..][i] == p[n..][i]; }
      }
    }
  }

  /** TrimSpace returns the part of s between its outer white space. */
  lemma TrimSpaceCuts(s: string) returns (i: nat, j: nat)
    ensures i <= j <= |s| && TrimSpace(s) == s[i..j]
    ensures AllSpace(s[..i]) && AllSpace(s[j..]) && Trimmed(s[i..j])
  {
    hide TrimLeft, TrimRight, IsSpace;
    var l := TrimLeft(s);
    TrimLeftCuts(s);
    TrimRightCuts(l);
    i := |s| - |l|;
    j := i + |TrimRight(l)|;
    CutTwice(s, i, j);
  }

  lemma OuterSpace(y: string, i: nat, j: nat)
    requires i <= j <= |y| && AllSpace(y[..i]) && AllSpace(y[j..])
    ensures forall k :: 0 <= k < i || j <= k < |y| ==> IsSpace(y[k])
  {
    hide IsSpace;
    forall k | 0 <= k < i ensures IsSpace(y[k]) { assert y[..i][k] == y[k]; }
    forall k | j <= k < |y| ensures IsSpace(y[k]) { assert y[j..][k - j] == y[k]; }
  }

  lemma CutTwice(s: string, i: nat, j: nat)
    requires i <= j <= |s|
    ensures s[i..][..j - i] == s[i..j] && s[i..][j - i..] == s[j..]
    ensures i < j ==> s[i..j][0] == s[i..][0]
  {
  }

  lemma TrimShorter(s: string)
    ensures |TrimSpace(s)| <= |s|
  {
  }

  lemma TrimSpaceKeepsTrimmed(s: string)
    requires Trimmed(s)
    ensures TrimSpace(s) == s
  {
    assert TrimLeft(s) == s;
  }

  lemma TrimLeftPadding(pad: string, s: string)
    requires AllSpace(pad)
    ensures TrimLeft(pad + s) == TrimLeft(s)
  {
    if pad == "" {
      assert pad + s == s;
    } else {
      assert (pad + s)[1..] == pad[1..] + s;
      TrimLeftPadding(pad[1..], s);
    }
  }

  lemma TrimRightPadding(s: string, pad: string)
    requires AllSpace(pad)
    ensures TrimRight(s + pad) == TrimRight(s)
    decreases |pad|
  {
    if pad == "" {
      assert s + pad == s;
    } else {
      assert (s + pad)[..|s + pad| - 1] == s + pad[..|pad| - 1];
      TrimRightPadding(s, pad[..|pad| - 1]);
    }
  }

  /** White space around a trimmed text is exactly what TrimSpace removes. */
  lemma TrimSpaceUnpads(before: string, s: string, after: string)
    requires AllSpace(before) && AllSpace(after) && Trimmed(s)
    ensures TrimSpace(before + s + after) == s
  {
    assert before + s + after == before + (s + after);
    TrimLeftPadding(before, s + after);
    if s == "" {
      assert s + after == after + "";
      TrimLeftPadding(after, "");
    } else {
      assert TrimLeft(s + after) == s + after;
      TrimRightPadding(s, after);
    }
  }

  lemma AssociateThree(a: string, b: string, c: string)
    ensures a + b + c == a + (b + c)
  {
  }

  // ---- Substring search ----

  predicate OccursAt(s: string, sub: string, i: int) {
    0 <= i && i + |sub| <= |s| && s[i..i + |sub|] == sub
  }

  /** An occurrence holds every character of the text. */
  lemma OccursHas(s: string, sub: string, p: int, i: nat)
    requires i < |sub|
    ensures OccursAt(s, sub, p) ==> s[p + i] == sub[i]
  {
    if OccursAt(s, sub, p) { assert s[p..p + |sub|][i] == sub[i]; }
  }

  function IndexFrom(s: string, sub: string, i: nat): (r: int)
    requires i <= |s|
    ensures r == -1 || i <= r <= |s| - |sub|
    decreases |s| - i
  {
    if OccursAt(s, sub, i) then i
    else if i == |s| then -1
    else IndexFrom(s, sub, i + 1)
  }

  /** The first position of `sub` in `s`, or -1. */
  function IndexOf(s: string, sub: string): (r: int)
    ensures r == -1 || 0 <= r <= |s| - |sub|
  {
    IndexFrom(s, sub, 0)
  }

  /** IndexFrom finds the first occurrence at or after i, if there is one. */
  lemma {:induction false} IndexFromFirst(s: string, sub: string, i: nat)
    requires i <= |s|
    ensures var r := IndexFrom(s, sub, i);
            && (r >= 0 ==> OccursAt(s, sub, r))
            && forall j :: i <= j && (r == -1 || j < r) ==> !OccursAt(s, sub, j)
    decreases |s| - i
  {
    if i < |s| && !OccursAt(s, sub, i) { IndexFromFirst(s, sub, i + 1); }
  }

  /** An occurrence with nothing earlier is the one IndexFrom reports. */
  lemma FirstOccurrence(s: string, sub: string, i: nat, r: int)
    requires i <= r && OccursAt(s, sub, r)
    requires forall j :: i <= j < r ==> !OccursAt(s, sub, j)
    ensures IndexFrom(s, sub, i) == r
  {
    IndexFromFirst(s, sub, i);
  }

  lemma SliceOfSlice(s: string, x: nat, y: nat, i: nat, j: nat)
    requires x <= i <= j <= y <= |s|
    ensures s[x..y][i - x..j - x] == s[i..j]
  {
    var u := s[x..y];
    forall k | 0 <= k < j - i ensures u[i - x..j - x][k] == s[i..j][k] {
      assert u[i - x + k] == s[i + k];
    }
  }

  predicate HasPrefix(s: string, p: string) { |p| <= |s| && s[..|p|] == p }

  predicate HasSuffix(s: string, p: string) { |p| <= |s| && s[|s| - |p|..] == p }

  lemma PrefixHas(s: string, p: string, i: nat)
    requires i < |p|
    ensures HasPrefix(s, p) ==> |s| > i && s[i] == p[i]
  {
    if HasPrefix(s, p) { assert s[..|p|][i] == p[i]; }
  }

  function TrimSuffix(s: string, suffix: string): string {
    if HasSuffix(s, suffix) then s[..|s| - |suffix|] else s
  }

  lemma SuffixHas(s: string, p: string, i: nat)
    requires i < |p|
    ensures HasSuffix(s, p) ==> s[|s| - |p| + i] == p[i]
  {
    if HasSuffix(s, p) { assert s[|s| - |p|..][i] == p[i]; }
  }

  predicate Contains(s: string, sub: string) { IndexOf(s, sub) >= 0 }

  function Join(parts: seq<string>, sep: string): string {
    if parts == [] then ""
    else if |parts| == 1 then parts[0]
    else parts[0] + sep + Join(parts[1..], sep)
  }

  // ---- Identifiers ----

  function TrimQuotesLeft(s: string): (r: string)
    ensures |r| <= |s|
  {
    if s != "" && s[0] == '"' then TrimQuotesLeft(s[1..]) else s
  }

  function TrimQuotesRight(s: string): (r: string)
    ensures |r| <= |s|
  {
    if s != "" && s[|s| - 1] == '"' then TrimQuotesRight(s[..|s| - 1]) else s
  }

  /** The lookup key of an identifier: trimmed, unquoted, lower-cased. */
  function NormIdent(s: string): string {
    Lower(TrimQuotesRight(TrimQuotesLeft(TrimSpace(s))))
  }
}
