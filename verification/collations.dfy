/** COLLATE clauses however they are spaced, written and quoted. */
module Collations {
  import opened Text
  import opened Patterns
  import opened Columns
  import opened Phrases
  import ColumnPrint

  /** The text of a quoted identifier: every quote in it is doubled. */
  function Doubled(n: string): string {
    if n == "" then "" else (if n[0] == '"' then "\"\"" else [n[0]]) + Doubled(n[1..])
  }

  predicate NoQuote(s: string) { forall i :: 0 <= i < |s| ==> s[i] != '"' }

  // ---- The end of the name ----

  /** A quoted name ends at the quote that is not doubled. */
  lemma {:induction false} QuotedTo(s: string, p: nat, pair: int, n: string, rest: string)
    requires p <= |s| && -1 <= pair < |s| && s[p..] == Doubled(n) + ("\"" + rest) && (rest != "" ==> rest[0] != '"')
    ensures QuotedEnd(s, p, pair) == p + |Doubled(n)| + 1
    decreases |n|
  {
    if n == "" {
      HeadOf(s, p, "\"", rest);
      if rest != "" { assert s[p + 1..][0] == rest[0]; }
    } else {
      var h := if n[0] == '"' then "\"\"" else [n[0]];
      assert s[p..] == h + (Doubled(n[1..]) + ("\"" + rest));
      HeadOf(s, p, h, Doubled(n[1..]) + ("\"" + rest));
      if n[0] == '"' { assert s[p] == '"' && s[p + 1] == '"'; } else { assert s[p] == n[0]; }
      QuotedTo(s, p + |h|, if n[0] == '"' then p else pair, n[1..], rest);
    }
  }

  lemma {:induction false} NoQuoteTo(s: string, p: nat, pair: int)
    requires p <= |s| && -1 <= pair < |s| && forall k :: p <= k < |s| ==> s[k] != '"'
    ensures QuotedEnd(s, p, pair) == if pair >= 0 then pair + 1 else -1
    decreases |s| - p
  {
    if p < |s| { NoQuoteTo(s, p + 1, pair); }
  }

  /** Without a closing quote the name ends inside the last doubled pair. */
  lemma {:induction false} UnclosedTo(s: string, p: nat, pair: int, n: string, u: string)
    requires p <= |s| && -1 <= pair < |s| && s[p..] == Doubled(n) + ("\"\"" + u) && NoQuote(u)
    ensures QuotedEnd(s, p, pair) == p + |Doubled(n)| + 1
    decreases |n|
  {
    if n == "" {
      HeadOf(s, p, "\"\"", u);
      assert s[p] == '"' && s[p + 1] == '"';
      assert forall k :: p + 2 <= k < |s| ==> s[k] == s[p + 2..][k - p - 2];
      NoQuoteTo(s, p + 2, p);
    } else {
      var h := if n[0] == '"' then "\"\"" else [n[0]];
      assert s[p..] == h + (Doubled(n[1..]) + ("\"\"" + u));
      HeadOf(s, p, h, Doubled(n[1..]) + ("\"\"" + u));
      if n[0] == '"' { assert s[p] == '"' && s[p + 1] == '"'; } else { assert s[p] == n[0]; }
      UnclosedTo(s, p + |h|, if n[0] == '"' then p else pair, n[1..], u);
    }
  }

  /** A collation name as it is written, and what may stand behind it. */
  ghost predicate Written(name: string, rest: string) {
    || (exists n: string :: name == "\"" + Doubled(n) + "\"" && (rest != "" ==> rest[0] != '"'))
    || (Token(name) && name[0] != '"' && (rest != "" ==> IsBlank(rest[0])))
  }

  lemma NameTo(s: string, k: nat, name: string, rest: string)
    requires k <= |s| && s[k..] == name + rest && Written(name, rest)
    ensures CollationEnd(s, k) == k + |name|
  {
    HeadOf(s, k, name, rest);
    if name != "" && name[0] == '"' {
      var n: string :| name == "\"" + Doubled(n) + "\"" && (rest != "" ==> rest[0] != '"');
      assert s[k..] == "\"" + (Doubled(n) + ("\"" + rest));
      HeadOf(s, k, "\"", Doubled(n) + ("\"" + rest));
      QuotedTo(s, k + 1, -1, n, rest);
    } else {
      if rest != "" { assert s[k + |name|..][0] == rest[0]; }
      WordTo(s, k, k + |name|);
    }
  }

  /** With no other quote an opening quote is a character of a word. */
  lemma OpenName(s: string, k: nat, name: string, rest: string)
    requires k <= |s| && s[k..] == name + rest && Token(name) && (rest != "" ==> IsBlank(rest[0]))
    requires name[0] == '"' && NoQuote(name[1..]) && NoQuote(rest)
    ensures CollationEnd(s, k) == k + |name|
  {
    HeadOf(s, k, name, rest);
    if rest != "" { assert s[k + |name|..][0] == rest[0]; }
    forall i | k + 1 <= i < |s| ensures s[i] != '"' {
      if i < k + |name| { assert s[i] == name[1..][i - k - 1]; } else { assert s[i] == s[k + |name|..][i - k - |name|]; }
    }
    NoQuoteTo(s, k + 1, -1);
    WordTo(s, k, k + |name|);
  }

  // ---- The clause ----

  lemma NotBlank(c: char)
    requires LowerChar(c) == 'c'
    ensures !IsBlank(c)
  {
  }

  lemma WrittenHead(name: string, rest: string)
    requires Written(name, rest)
    ensures name != "" && !IsBlank(name[0])
  {
  }

  /** The parts of a clause that begins at i. */
  ghost predicate Clauses(s: string, i: nat, a: string, kw: string, b: string, name: string, rest: string) {
    var j := i + |a|;
    var k := j + 7 + |b|;
    && k < |s| && (forall x :: i <= x < j ==> IsBlank(s[x])) && !IsBlank(s[j]) && Lower(s[j..j + 7]) == "collate"
    && (forall x :: j + 7 <= x < k ==> IsBlank(s[x])) && !IsBlank(s[k]) && s[k..] == name + rest
  }

  lemma ClauseParts(s: string, i: nat, a: string, kw: string, b: string, name: string, rest: string)
    requires i <= |s| && s[i..] == a + (kw + (b + (name + rest)))
    requires Blanks(a) && Blanks(b) && Lower(kw) == "collate" && name != "" && !IsBlank(name[0])
    ensures Clauses(s, i, a, kw, b, name, rest)
  {
    var j := i + |a|;
    var k := j + 7 + |b|;
    assert |kw| == |Lower(kw)| == 7 && LowerChar(kw[0]) == Lower(kw)[0] == 'c';
    NotBlank(kw[0]);
    hide Lower, IsBlank;
    HeadOf(s, i, a, kw + (b + (name + rest)));
    HeadOf(s, j, kw, b + (name + rest));
    HeadOf(s, j + 7, b, name + rest);
    HeadOf(s, k, name, rest);
    assert s[j] == kw[0] && s[k] == name[0];
    assert s[j..j + 7] == kw;
  }

  lemma ClauseFound(s: string, i: nat, a: string, kw: string, b: string, name: string, rest: string)
    requires i <= |s| && |a| > 0 && |b| > 0 && Clauses(s, i, a, kw, b, name, rest) && Written(name, rest) && name != ""
    ensures FindCollate(s, i) == Clause(i, i + |a| + 7 + |b|, i + |a| + 7 + |b| + |name|)
  {
    hide FindCollate, CollationEnd, Written, Lower, IsBlank, SkipSpaces;
    var j := i + |a|;
    var k := j + 7 + |b|;
    SameLower();
    SkipTo(s, i, j);
    SkipTo(s, j + 7, k);
    NameTo(s, k, name, rest);
    Begins(s, i, j, k);
  }

  lemma Behind(t: string, u: string)
    ensures (t + u)[|t|..] == u
  {
  }

  /** The clause of t COLLATE name rest begins behind t. */
  lemma ClauseHere(t: string, a: string, kw: string, b: string, name: string, rest: string)
    requires Blanks(a) && Blanks(b) && Lower(kw) == "collate" && Written(name, rest)
    ensures var s := t + (a + (kw + (b + (name + rest))));
            FindCollate(s, |t|) == Clause(|t|, |t| + |a| + 7 + |b|, |t| + |a| + 7 + |b| + |name|)
  {
    var s := t + (a + (kw + (b + (name + rest))));
    WrittenHead(name, rest);
    assert |a| > 0 && |b| > 0;
    hide *;
    Behind(t, a + (kw + (b + (name + rest))));
    ClauseParts(s, |t|, a, kw, b, name, rest);
    ClauseFound(s, |t|, a, kw, b, name, rest);
  }

  lemma SameLower()
    ensures Lower("COLLATE") == "collate"
  {
  }

  lemma Begins(s: string, i: nat, j: nat, k: nat)
    requires i < j <= |s| && j + 7 < k <= |s| && MatchesAt(s, j, "COLLATE") && CollationEnd(s, k) > k
    requires SkipSpaces(s, i) == j && SkipSpaces(s, j + 7) == k
    ensures FindCollate(s, i) == Clause(i, k, CollationEnd(s, k))
  {
    hide MatchesAt, CollationEnd, SkipSpaces;
  }

  /** No COLLATE in t, in any case. */
  predicate Without(t: string) { forall j :: 0 <= j <= |t| ==> !MatchesAt(t, j, "COLLATE") }

  lemma MatchInside(t: string, z: string, j: nat)
    requires j < |t| && Without(t) && z != "" && IsBlank(z[0])
    ensures !MatchesAt(t + z, j, "COLLATE")
  {
    var s := t + z;
    if j + 7 <= |t| {
      assert s[j..j + 7] == t[j..j + 7];
      assert !MatchesAt(t, j, "COLLATE");
    } else {
      MatchHas(s, j, "COLLATE", |t| - j);
      assert s[|t|] == z[0];
    }
  }

  lemma {:induction false} NoneBefore(t: string, z: string, i: nat)
    requires Without(t) && t != "" && !IsBlank(t[|t| - 1]) && z != "" && IsBlank(z[0]) && i <= |t|
    ensures FindCollate(t + z, i) == FindCollate(t + z, |t|)
    decreases |t| - i
  {
    hide MatchesAt, IsBlank, Without, CollationEnd;
    var s := t + z;
    if i < |t| {
      assert s[|t| - 1] == t[|t| - 1];
      ColumnPrint.SkipStops(s, i, |t| - 1);
      MatchInside(t, z, SkipSpaces(s, i));
      NoneBefore(t, z, i + 1);
    }
  }

  /** A COLLATE clause is taken out with the white space before it, and its name is
      kept as written: any blanks, any case, and with doubled quotes in the name. */
  lemma CollateTaken(t: string, a: string, kw: string, b: string, name: string, rest: string)
    requires t != "" && !IsBlank(t[|t| - 1]) && Without(t)
    requires Blanks(a) && Blanks(b) && Lower(kw) == "collate" && Written(name, rest)
    ensures WithoutCollate(t + (a + (kw + (b + (name + rest))))) == (name, t + rest)
  {
    hide *;
    var z := a + (kw + (b + (name + rest)));
    var n := |t| + |a| + 7 + |b|;
    ClauseHere(t, a, kw, b, name, rest);
    KeywordLength(kw);
    BlankFirst(a, kw + (b + (name + rest)));
    NoneBefore(t, z, 0);
    Slices(t, a, kw, b, name, rest, t + z);
    TakesClause(t + z, |t|, n, n + |name|);
  }

  lemma TakesClause(s: string, from: nat, name: nat, to: nat)
    requires FindCollate(s, 0) == Clause(from, name, to)
    ensures WithoutCollate(s) == (s[name..to], s[..from] + s[to..])
  {
    hide FindCollate;
  }

  lemma KeywordLength(kw: string)
    requires Lower(kw) == "collate"
    ensures |kw| == 7
  {
  }

  lemma BlankFirst(a: string, z: string)
    requires Blanks(a)
    ensures a + z != "" && IsBlank((a + z)[0])
  {
  }

  lemma Slices(t: string, a: string, kw: string, b: string, name: string, rest: string, s: string)
    requires |kw| == 7 && s == t + (a + (kw + (b + (name + rest))))
    ensures var n := |t| + |a| + 7 + |b|;
            n + |name| <= |s| && s[..|t|] == t && s[n..n + |name|] == name && s[n + |name|..] == rest
  {
    assert s == (t + a + kw + b) + name + rest;
  }
}
