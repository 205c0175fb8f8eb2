/** Keywords as people write them: in any case, with any white space between. */
module Phrases {
  import opened Text
  import opened Patterns

  predicate Blanks(s: string) { s != "" && forall i :: 0 <= i < |s| ==> IsBlank(s[i]) }

  /** x is the word w in some case. */
  predicate Spells(x: string, w: string) { Lower(x) == Lower(w) }

  // ---- Positions ----

  lemma HeadOf(s: string, p: nat, a: string, b: string)
    requires p <= |s| && s[p..] == a + b
    ensures p + |a| <= |s| && s[p + |a|..] == b && forall k :: 0 <= k < |a| ==> s[p + k] == a[k]
  {
    assert |s| - p == |a| + |b|;
    assert forall k :: 0 <= k < |a| ==> s[p..][k] == a[k];
    assert s[p..][|a|..] == b;
  }

  lemma {:induction false} SkipTo(s: string, i: nat, n: nat)
    requires i <= n <= |s| && (forall k :: i <= k < n ==> IsBlank(s[k])) && (n < |s| ==> !IsBlank(s[n]))
    ensures SkipSpaces(s, i) == n
    decreases n - i
  {
    if i < n { SkipTo(s, i + 1, n); }
  }

  lemma {:induction false} WordTo(s: string, i: nat, n: nat)
    requires i <= n <= |s| && (forall k :: i <= k < n ==> !IsBlank(s[k])) && (n < |s| ==> IsBlank(s[n]))
    ensures BlankEnd(s, i) == n
    decreases n - i
  {
    if i < n { WordTo(s, i + 1, n); }
  }

  lemma SpelledLength(x: string, w: string)
    requires Spells(x, w)
    ensures |x| == |w|
  {
    assert |Lower(x)| == |Lower(w)|;
  }

  lemma WordHere(s: string, i: nat, x: string, w: string, rest: string)
    requires i <= |s| && Spells(x, w) && s[i..] == x + rest
    ensures MatchesAt(s, i, w) && i + |w| <= |s| && s[i + |w|..] == rest && |x| == |w|
  {
    SpelledLength(x, w);
    HeadOf(s, i, x, rest);
    assert s[i..i + |w|] == x;
  }

  /** Another character means another word. */
  lemma NotHere(s: string, i: nat, w: string)
    requires i <= |s| && w != "" && (i < |s| ==> LowerChar(s[i]) != LowerChar(w[0]))
    ensures !MatchesAt(s, i, w) && Keyword(s, i, w) == i
  {
    MatchHas(s, i, w, 0);
  }

  lemma BlanksHere(s: string, i: nat, b: string, rest: string)
    requires i <= |s| && s[i..] == b + rest && (forall k :: 0 <= k < |b| ==> IsBlank(b[k]))
    requires rest != "" ==> !IsBlank(rest[0])
    ensures i + |b| <= |s| && SkipSpaces(s, i) == i + |b| && s[i + |b|..] == rest
  {
    hide IsBlank;
    HeadOf(s, i, b, rest);
    if rest != "" { assert s[i + |b|] == s[i + |b|..][0]; }
    SkipTo(s, i, i + |b|);
  }

  /** A keyword and the white space behind it. */
  lemma KeywordHere(s: string, i: nat, x: string, w: string, b: string, rest: string)
    requires i <= |s| && Spells(x, w) && Blanks(b) && s[i..] == x + (b + rest) && (rest != "" ==> !IsBlank(rest[0]))
    ensures var n := i + |x| + |b|; n <= |s| && Keyword(s, i, w) == n && s[n..] == rest
  {
    hide MatchesAt, IsBlank, Spells, SkipSpaces;
    WordHere(s, i, x, w, b + rest);
    BlanksHere(s, i + |w|, b, rest);
  }

  /** Two keywords with white space between. */
  lemma PairHere(s: string, i: nat, x: string, w: string, b: string, y: string, v: string, rest: string)
    requires i <= |s| && Spells(x, w) && Blanks(b) && Spells(y, v) && v != "" && 'A' <= v[0] <= 'Z'
    requires s[i..] == x + (b + (y + rest))
    ensures var n := i + |x| + |b| + |y|; n <= |s| && TwoWords(s, i, w, v) == n && s[n..] == rest
  {
    SpelledLength(y, v);
    assert LowerChar(y[0]) == Lower(y)[0] == Lower(v)[0];
    LetterVisible(y[0], v[0]);
    WordHere(s, i, x, w, b + (y + rest));
    hide MatchesAt, IsBlank, SkipSpaces, Spells;
    BlanksHere(s, i + |w|, b, y + rest);
    WordHere(s, i + |w| + |b|, y, v, rest);
  }

  lemma LetterVisible(c: char, d: char)
    requires LowerChar(c) == LowerChar(d) && 'A' <= d <= 'Z'
    ensures !IsBlank(c)
  {
  }

  /** A word up to the next white space. */
  lemma TokenHere(s: string, i: nat, name: string, rest: string)
    requires i <= |s| && Token(name) && s[i..] == name + rest && (rest != "" ==> IsBlank(rest[0]))
    ensures i + |name| <= |s| && BlankEnd(s, i) == i + |name| && s[i + |name|..] == rest && s[i..i + |name|] == name
    ensures s[i] == name[0] && !IsBlank(s[i])
  {
    hide IsBlank;
    HeadOf(s, i, name, rest);
    if rest != "" { assert s[i + |name|] == s[i + |name|..][0]; }
    WordTo(s, i, i + |name|);
  }
}
