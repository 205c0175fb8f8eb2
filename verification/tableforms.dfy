/** CREATE TABLE, its partitions and CREATE SEQUENCE in the forms people write. */
module TableForms {
  import opened Text
  import opened Ast
  import opened Patterns
  import opened Phrases
  import opened WrittenForms
  import opened Rereading
  import ColumnList
  import Scanner
  import Structured

  /** A word and the white space behind it, or nothing. */
  function Maybe(use: bool, x: string, b: string, rest: string): string {
    if use then x + (b + rest) else rest
  }

  /** One of two words in its place; what follows is not taken for either. */
  lemma EitherHere(s: string, i: nat, use: bool, x: string, first: bool, a: string, c: string, b: string, rest: string)
    requires i <= |s| && s[i..] == Maybe(use, x, b, rest)
    requires use ==> Named(x, if first then a else c) && Blanks(b)
    requires Visible(rest)
    requires use && !first ==> Keyword(s, i, a) == i
    requires !use ==> Keyword(s, i, a) == i && Keyword(s, i, c) == i
    ensures var n := i + if use then |x| + |b| else 0; n <= |s| && Either(s, i, a, c) == n && s[n..] == rest
  {
    hide Keyword, IsBlank;
    if use { KeywordHere(s, i, x, if first then a else c, b, rest); }
  }

  /** Word w is not at the place of a text that spells v, if they differ. */
  lemma OtherWord(s: string, i: nat, x: string, v: string, w: string, k: nat, rest: string)
    requires i <= |s| && s[i..] == x + rest && Spells(x, v) && k < |v| && k < |w| && LowerChar(v[k]) != LowerChar(w[k])
    ensures Keyword(s, i, w) == i
  {
    SpelledLength(x, v);
    HeadOf(s, i, x, rest);
    assert LowerChar(s[i + k]) == Lower(x)[k] == Lower(v)[k];
    NotKeyword(s, i, w, k);
  }

  /** TEMP is not TEMPORARY. */
  lemma NotTemporary(s: string, i: nat, x: string, b: string, rest: string)
    requires i <= |s| && s[i..] == x + (b + rest) && Named(x, "TEMP") && Blanks(b)
    ensures Keyword(s, i, "TEMPORARY") == i
  {
    SpelledLength(x, "TEMP");
    HeadOf(s, i, x, b + rest);
    assert (b + rest)[0] == b[0];
    assert s[i + 4] == s[i + 4..][0] == b[0];
    NotKeyword(s, i, "TEMPORARY", 4);
  }

  // ---- IF NOT EXISTS ----

  lemma PhraseHere(s: string, i: nat, x: string, b: string, y: string, c: string, z: string, d: string, rest: string)
    requires i <= |s| && s[i..] == x + (b + (y + (c + (z + (d + rest)))))
    requires Named(x, "IF") && Blanks(b) && Named(y, "NOT") && Blanks(c) && Named(z, "EXISTS") && Blanks(d)
    requires Visible(rest)
    ensures var n := i + |x| + |b| + |y| + |c| + |z| + |d|;
            n <= |s| && i < n && IfNotExists(s, i) == n && s[n..] == rest
  {
    var u := z + (d + rest);
    NamedHead(y, "NOT", c + u);
    NamedHead(z, "EXISTS", d + rest);
    PhraseParts(s, i, x, b, y, c, z, d, rest, u, y + (c + u));
  }

  lemma PhraseParts(s: string, i: nat, x: string, b: string, y: string, c: string, z: string, d: string, rest: string,
                    u: string, v: string)
    requires i <= |s| && s[i..] == x + (b + v) && v == y + (c + u) && u == z + (d + rest)
    requires Named(x, "IF") && Blanks(b) && Named(y, "NOT") && Blanks(c) && Named(z, "EXISTS") && Blanks(d)
    requires Visible(rest) && Visible(u) && Visible(v)
    ensures var n := i + |x| + |b| + |y| + |c| + |z| + |d|;
            n <= |s| && i < n && IfNotExists(s, i) == n && s[n..] == rest
  {
    hide Keyword, IsBlank, Spells;
    KeywordHere(s, i, x, "IF", b, v);
    KeywordHere(s, i + |x| + |b|, y, "NOT", c, u);
    KeywordHere(s, i + |x| + |b| + |y| + |c|, z, "EXISTS", d, rest);
  }

  /** A name is no IF NOT EXISTS when something else stands behind it. */
  lemma NoPhrase(s: string, i: nat, name: string, gap: string, rest: string)
    requires i <= |s| && Token(name) && s[i..] == name + (gap + rest) && (gap != "" ==> Blanks(gap))
    requires rest != "" && !IsBlank(rest[0]) && LowerChar(rest[0]) != 'n' && (gap != "" || rest[0] == '(')
    ensures IfNotExists(s, i) == i
  {
    var m := i + |name|;
    HeadOf(s, i, name, gap + rest);
    HeadOf(s, m, gap, rest);
    assert s[m + |gap|] == s[m + |gap|..][0];
    if gap != "" { assert s[m] == gap[0]; }
    if |name| > 2 { assert s[i + 2] == name[2]; }
    if |name| == 2 && gap != "" { SkipTo(s, m, m + |gap|); }
    NoIf(s, i, |name|, m + |gap|, gap != "");
  }

  lemma NoIf(s: string, i: nat, n: nat, q: nat, spaced: bool)
    requires 0 < n && i + n <= q < |s| && (if spaced then i + n < q && IsBlank(s[i + n]) else q == i + n && s[q] == '(')
    requires LowerChar(s[q]) != 'n' && (n > 2 ==> !IsBlank(s[i + 2])) && (n == 2 && spaced ==> SkipSpaces(s, i + 2) == q)
    ensures IfNotExists(s, i) == i
  {
    if n == 1 {
      NotKeyword(s, i, "IF", 1);
    } else if n == 2 && spaced {
      hide MatchesAt, SkipSpaces;
      NotHere(s, q, "NOT");
    } else {
      assert SkipSpaces(s, i + 2) == i + 2;
      hide MatchesAt;
    }
  }

  // ---- The head ----

  /** CREATE [scope] [life] TABLE, and then rest. */
  function HeadText(c: string, b: string, scope: string, b1: string, life: string, b2: string, t: string, b3: string,
                    rest: string): string
  {
    c + (b + Maybe(scope != "", scope, b1, Maybe(life != "", life, b2, t + (b3 + rest))))
  }

  predicate Scope(scope: string, b: string) {
    scope == "" || ((Named(scope, "GLOBAL") || Named(scope, "LOCAL")) && Blanks(b))
  }

  predicate Life(life: string, b: string) {
    life == "" || ((Named(life, "TEMPORARY") || Named(life, "TEMP") || Named(life, "UNLOGGED")) && Blanks(b))
  }

  predicate HeadWords(c: string, b: string, scope: string, b1: string, life: string, b2: string, t: string, b3: string) {
    Named(c, "CREATE") && Blanks(b) && Scope(scope, b1) && Life(life, b2) && Named(t, "TABLE") && Blanks(b3)
  }

  lemma MaybeVisible(x: string, w: string, b: string, rest: string)
    requires (x == "" && Visible(rest)) || Named(x, w)
    ensures Visible(Maybe(x != "", x, b, rest))
  {
    if x != "" { NamedHead(x, w, b + rest); }
  }

  /** TABLE, or a word for the lifetime, is no word for the scope. */
  lemma ScopeHere(s: string, i: nat, scope: string, b1: string, x: string, w: string, rest: string)
    requires i <= |s| && s[i..] == Maybe(scope != "", scope, b1, x + rest)
    requires Scope(scope, b1)
    requires Named(x, w) && w in {"TABLE", "TEMPORARY", "TEMP", "UNLOGGED"}
    ensures var n := i + if scope != "" then |scope| + |b1| else 0;
            n <= |s| && Either(s, i, "GLOBAL", "LOCAL") == n && s[n..] == x + rest
  {
    hide Keyword, IsBlank, Spells, Visible;
    NamedHead(x, w, rest);
    NotScope(w);
    var first := Named(scope, "GLOBAL");
    if scope != "" && !first { OtherWord(s, i, scope, "LOCAL", "GLOBAL", 0, b1 + (x + rest)); }
    if scope == "" {
      OtherWord(s, i, x, w, "GLOBAL", 0, rest);
      OtherWord(s, i, x, w, "LOCAL", 0, rest);
    }
    EitherHere(s, i, scope != "", scope, first, "GLOBAL", "LOCAL", b1, x + rest);
  }

  lemma NotScope(w: string)
    requires w in {"TABLE", "TEMPORARY", "TEMP", "UNLOGGED"}
    ensures LowerChar(w[0]) != 'g' && LowerChar(w[0]) != 'l'
  {
  }

  /** The word for the lifetime, and what it says. */
  lemma LifeHere(s: string, g: nat, life: string, b2: string, t: string, rest: string)
    requires g <= |s| && s[g..] == Maybe(life != "", life, b2, t + rest) && Named(t, "TABLE")
    requires Life(life, b2)
    ensures var n := g + if life != "" then |life| + |b2| else 0;
            var e := Either(s, g, "TEMPORARY", "TEMP");
            && n <= |s| && s[n..] == t + rest
            && (if e > g then e else Keyword(s, g, "UNLOGGED")) == n
            && (e > g <==> Named(life, "TEMPORARY") || Named(life, "TEMP"))
            && (n > g <==> life != "")
  {
    NamedHead(t, "TABLE", rest);
    if life == "" {
      OtherWord(s, g, t, "TABLE", "TEMPORARY", 1, rest);
      OtherWord(s, g, t, "TABLE", "TEMP", 1, rest);
      OtherWord(s, g, t, "TABLE", "UNLOGGED", 0, rest);
      hide Keyword, Spells;
      assert !Named(life, "TEMPORARY") && !Named(life, "TEMP");
    } else if Named(life, "UNLOGGED") {
      OtherWord(s, g, life, "UNLOGGED", "TEMPORARY", 0, b2 + (t + rest));
      OtherWord(s, g, life, "UNLOGGED", "TEMP", 0, b2 + (t + rest));
      KeywordHere(s, g, life, "UNLOGGED", b2, t + rest);
      hide Keyword;
      NamedHead(life, "UNLOGGED", "");
      Differ(life);
    } else {
      var first := Named(life, "TEMPORARY");
      if !first { NotTemporary(s, g, life, b2, t + rest); }
      hide Keyword, Spells, IsBlank;
      EitherHere(s, g, true, life, first, "TEMPORARY", "TEMP", b2, t + rest);
    }
  }

  lemma Differ(life: string)
    requires Named(life, "UNLOGGED")
    ensures !Named(life, "TEMPORARY") && !Named(life, "TEMP")
  {
    assert Lower("UNLOGGED")[0] == 'u' && Lower("TEMPORARY")[0] == 't' && Lower("TEMP")[0] == 't';
  }

  /** The head of CREATE TABLE says whether the table is temporary or unlogged, and
      what follows is the name or IF NOT EXISTS. */
  lemma HeadRead(c: string, b: string, scope: string, b1: string, life: string, b2: string, t: string, b3: string,
                 rest: string)
    requires HeadWords(c, b, scope, b1, life, b2, t, b3) && Visible(rest)
    ensures var s := HeadText(c, b, scope, b1, life, b2, t, b3, rest);
            && |rest| <= |s| && s[|s| - |rest|..] == rest
            && TablePrefix(s) == Prefix(Named(life, "TEMPORARY") || Named(life, "TEMP"), Named(life, "UNLOGGED"),
                                        IfNotExists(s, |s| - |rest|))
  {
    hide Keyword, Either, IfNotExists, TablePrefix, Named, Blanks, Scope, Life, Visible, Maybe;
    var s := HeadText(c, b, scope, b1, life, b2, t, b3, rest);
    var x, w, tail := LifeFirst(life, b2, t, b3 + rest);
    var i, g := HeadPlaces(s, c, b, scope, b1, Maybe(life != "", life, b2, t + (b3 + rest)), x, w, tail);
    var n := TablePlaces(s, g, life, b2, t, b3, rest);
    HeadSteps(s, i, g, n, n + |t| + |b3|);
    Never(life, b2);
  }

  lemma LifeFirst(life: string, b2: string, t: string, r: string) returns (x: string, w: string, tail: string)
    requires Named(t, "TABLE") && Life(life, b2)
    ensures Maybe(life != "", life, b2, t + r) == x + tail && Named(x, w) && w in {"TABLE", "TEMPORARY", "TEMP", "UNLOGGED"}
  {
    x := if life == "" then t else life;
    tail := if life == "" then r else b2 + (t + r);
    w := if life == "" then "TABLE" else if Named(life, "TEMPORARY") then "TEMPORARY"
         else if Named(life, "TEMP") then "TEMP" else "UNLOGGED";
  }

  lemma HeadPlaces(s: string, c: string, b: string, scope: string, b1: string, u: string, x: string, w: string,
                   tail: string)
    returns (i: nat, g: nat)
    requires Named(c, "CREATE") && Blanks(b) && Scope(scope, b1) && u == x + tail
    requires Named(x, w) && w in {"TABLE", "TEMPORARY", "TEMP", "UNLOGGED"}
    requires s == c + (b + Maybe(scope != "", scope, b1, u))
    ensures 0 < i <= g <= |s| && Keyword(s, 0, "CREATE") == i && Either(s, i, "GLOBAL", "LOCAL") == g && s[g..] == u
  {
    hide *;
    var v := Maybe(scope != "", scope, b1, u);
    ScopeVisible(scope, b1, x, w, tail);
    CreateHere(s, c, b, v);
    i := |c| + |b|;
    g := i + if scope != "" then |scope| + |b1| else 0;
    ScopeHere(s, i, scope, b1, x, w, tail);
  }

  lemma CreateHere(s: string, c: string, b: string, v: string)
    requires s == c + (b + v) && Named(c, "CREATE") && Blanks(b) && Visible(v)
    ensures Keyword(s, 0, "CREATE") == |c| + |b| && 0 < |c| + |b| <= |s| && s[|c| + |b|..] == v
  {
    hide Keyword, IsBlank, Spells;
    assert s[0..] == s;
    KeywordHere(s, 0, c, "CREATE", b, v);
  }

  lemma ScopeVisible(scope: string, b1: string, x: string, w: string, tail: string)
    requires Scope(scope, b1) && Named(x, w)
    ensures Visible(Maybe(scope != "", scope, b1, x + tail))
  {
    NamedHead(x, w, tail);
    MaybeVisible(scope, if Named(scope, "GLOBAL") then "GLOBAL" else "LOCAL", b1, x + tail);
  }

  lemma TablePlaces(s: string, g: nat, life: string, b2: string, t: string, b3: string, rest: string) returns (n: nat)
    requires g <= |s| && s[g..] == Maybe(life != "", life, b2, t + (b3 + rest))
    requires Named(t, "TABLE") && Blanks(b3) && Life(life, b2) && Visible(rest)
    ensures var e, m := Either(s, g, "TEMPORARY", "TEMP"), n + |t| + |b3|;
            && g <= n < m <= |s| && (if e > g then e else Keyword(s, g, "UNLOGGED")) == n
            && Keyword(s, n, "TABLE") == m && m == |s| - |rest| && s[m..] == rest
            && (e > g <==> Named(life, "TEMPORARY") || Named(life, "TEMP")) && (n > g <==> life != "")
            && Either(s, g, "TEMPORARY", "TEMP") >= g
  {
    n := g + if life != "" then |life| + |b2| else 0;
    NamedHead(t, "TABLE", "");
    hide Keyword, Either, IsBlank, Spells, Visible;
    LifeHere(s, g, life, b2, t, b3 + rest);
    KeywordHere(s, n, t, "TABLE", b3, rest);
  }

  lemma Never(life: string, b2: string)
    requires Life(life, b2)
    ensures Named(life, "UNLOGGED") <==> life != "" && !Named(life, "TEMPORARY") && !Named(life, "TEMP")
    ensures life == "" ==> !Named(life, "TEMPORARY") && !Named(life, "TEMP") && !Named(life, "UNLOGGED")
    ensures Named(life, "UNLOGGED") ==> !Named(life, "TEMPORARY") && !Named(life, "TEMP")
  {
    if Named(life, "UNLOGGED") { Differ(life); }
  }

  lemma HeadSteps(s: string, i: nat, g: nat, n: nat, m: nat)
    requires 0 < i <= g <= n < m <= |s| && Keyword(s, 0, "CREATE") == i && Either(s, i, "GLOBAL", "LOCAL") == g
    requires var e := Either(s, g, "TEMPORARY", "TEMP"); (if e > g then e else Keyword(s, g, "UNLOGGED")) == n
    requires Keyword(s, n, "TABLE") == m
    ensures var e := Either(s, g, "TEMPORARY", "TEMP");
            TablePrefix(s) == Prefix(e > g, e == g && n > g, IfNotExists(s, m))
  {
    hide Keyword, Either, IfNotExists;
  }

  // ---- Name and body ----

  predicate NoParen(name: string) { forall k :: 0 <= k < |name| ==> name[k] != '(' }

  /** A paren behind white space ends the name. */
  lemma SpacedOpen(s: string, i: nat, name: string, gap: string, rest: string)
    requires i <= |s| && Token(name) && Blanks(gap) && s[i..] == name + (gap + ("(" + rest))
    ensures var k := i + |name|; NameAndOpen(s, i) == (k, k + |gap|) && s[i..k] == name
  {
    hide SkipSpaces, BlankEnd;
    var u := "(" + rest;
    assert (gap + u)[0] == gap[0];
    TokenHere(s, i, name, gap + u);
    BlanksHere(s, i + |name|, gap, u);
    HeadOf(s, i + |name| + |gap|, "(", rest);
  }

  lemma {:induction false} LastOpenIs(s: string, lo: nat, n: nat, q: nat)
    requires lo <= q < n <= |s| && s[q] == '(' && forall k :: q < k < n ==> s[k] != '('
    ensures LastOpen(s, lo, n) == q
    decreases n
  {
    if q < n - 1 { LastOpenIs(s, lo, n - 1, q); }
  }

  /** A paren glued to the name ends it, too, if the word goes on without another
      paren and none opens behind it. */
  lemma GluedOpen(s: string, i: nat, name: string, word: string, gap: string, rest: string)
    requires i <= |s| && Token(name) && NoParen(name)
    requires NoParen(word) && (forall k :: 0 <= k < |word| ==> !IsBlank(word[k]))
    requires s[i..] == (name + "(" + word) + (gap + rest) && (gap != "" ==> Blanks(gap)) && (gap == "" ==> rest == "")
    requires rest != "" ==> !IsBlank(rest[0]) && rest[0] != '('
    ensures var k := i + |name|; NameAndOpen(s, i) == (k, k) && s[i..k] == name
  {
    var w := name + "(" + word;
    assert Token(w);
    hide *;
    WordThen(s, i, w, gap, rest);
    OpenInside(s, i, name, word);
    OpenSteps(s, i, |name|, |w|);
  }

  /** Behind the word no paren opens. */
  lemma WordThen(s: string, i: nat, w: string, gap: string, rest: string)
    requires i <= |s| && Token(w) && s[i..] == w + (gap + rest) && (gap != "" ==> Blanks(gap)) && (gap == "" ==> rest == "")
    requires rest != "" ==> !IsBlank(rest[0]) && rest[0] != '('
    ensures var n := i + |w|; i < n <= |s| && BlankEnd(s, i) == n && OpenAt(s, n) == -1 && s[i..n] == w
  {
    if gap != "" { assert (gap + rest)[0] == gap[0]; }
    TokenHere(s, i, w, gap + rest);
    BlanksHere(s, i + |w|, gap, rest);
    hide SkipSpaces, BlankEnd, IsBlank, Token;
    HeadOf(s, i + |w|, gap, rest);
    if rest != "" { assert s[i + |w| + |gap|] == s[i + |w| + |gap|..][0]; }
  }

  lemma OpenSteps(s: string, i: nat, n: nat, m: nat)
    requires n < m && i + m <= |s| && BlankEnd(s, i) == i + m && OpenAt(s, i + m) == -1
    requires LastOpen(s, i + 1, i + m) == i + n
    ensures NameAndOpen(s, i) == (i + n, i + n)
  {
    hide BlankEnd, OpenAt, LastOpen;
  }

  lemma OpenInside(s: string, i: nat, name: string, word: string)
    requires i + |name| + 1 + |word| <= |s| && name != "" && NoParen(word)
    requires s[i..i + |name| + 1 + |word|] == name + "(" + word
    ensures LastOpen(s, i + 1, i + |name| + 1 + |word|) == i + |name| && s[i..i + |name|] == name
  {
    hide LastOpen;
    var w := name + "(" + word;
    var t := s[i..i + |w|];
    assert t[|name|] == '(' && t[..|name|] == name;
    forall x | i + |name| < x < i + |w| ensures s[x] != '(' { assert s[x] == t[x - i] == word[x - i - |name| - 1]; }
    LastOpenIs(s, i + 1, i + |w|, i + |name|);
  }

  /** What the reading of a table body makes of the whole statement. */
  function TableOf(name: string, temporary: bool, unlogged: bool, body: string, rest: string): Reading {
    match ColumnList.ReadColumnList(body)
    case BadColumn(_) => Malformed
    case Listed(columns, constraints) =>
      Read(CreateTable(name, temporary, unlogged, columns, constraints, PartitionClause(rest)))
  }

  lemma BodyRead(s: string, p: Prefix, name: string, open: nat, ps: seq<Structured.Piece>, rest: string)
    requires p.Prefix? && Structured.AllProper(ps) && open <= |s|
    requires s[open..] == "(" + Structured.TextOf(ps) + ")" + rest
    ensures ReadBody(s, p, name, open) == TableOf(name, p.temporary, p.unlogged, Structured.TextOf(ps), rest)
  {
    hide ColumnList.ReadColumnList, PartitionClause, Scanner.ParenBody, Structured.TextOf, Structured.AllProper;
    var body := Structured.TextOf(ps);
    Structured.GroupFound(s[..open], ps, rest);
    assert s == s[..open] + ("(" + body + ")" + rest);
    assert s[..open] + ("(" + body + ")" + rest) == s[..open] + "(" + body + ")" + rest;
    assert s[open + |body| + 2..] == s[open..][|body| + 2..] == rest;
  }

  /** A body in parens, and what follows it. */
  predicate BodyText(u: string, ps: seq<Structured.Piece>, rest: string) {
    Structured.AllProper(ps) && u == "(" + Structured.TextOf(ps) + ")" + rest
  }

  /** A table with a paren behind its name: the body is read between the parens that
      belong together, and what follows is asked for a partition clause. */
  lemma TableRead(s: string, p: Prefix, name: string, gap: string, u: string, ps: seq<Structured.Piece>, rest: string)
    requires p.Prefix? && TablePrefix(s) == p && p.at <= |s| && Token(name) && Blanks(gap)
    requires BodyText(u, ps, rest) && s[p.at..] == name + (gap + u)
    ensures ReadCreateTable(s) == TableOf(name, p.temporary, p.unlogged, Structured.TextOf(ps), rest)
  {
    hide *;
    BodyOpens(u, ps, rest);
    SpacedOpen(s, p.at, name, gap, Structured.TextOf(ps) + ")" + rest);
    var k := p.at + |name|;
    OpenText(s, p.at, name, gap, u);
    BodyRead(s, p, name, k + |gap|, ps, rest);
    TableSteps(s, p, name, k, k + |gap|);
  }

  lemma BodyOpens(u: string, ps: seq<Structured.Piece>, rest: string)
    requires BodyText(u, ps, rest)
    ensures Structured.AllProper(ps) && u == "(" + Structured.TextOf(ps) + ")" + rest
    ensures u == "(" + (Structured.TextOf(ps) + ")" + rest)
  {
    hide Structured.TextOf;
  }

  lemma OpenText(s: string, i: nat, name: string, gap: string, u: string)
    requires i <= |s| && s[i..] == name + (gap + u)
    ensures i + |name| + |gap| <= |s| && s[i + |name| + |gap|..] == u
  {
    HeadOf(s, i, name, gap + u);
    HeadOf(s, i + |name|, gap, u);
  }

  lemma TableSteps(s: string, p: Prefix, name: string, k: nat, open: nat)
    requires p.Prefix? && TablePrefix(s) == p && p.at <= k <= open < |s|
    requires NameAndOpen(s, p.at) == (k, open) && s[p.at..k] == name
    ensures ReadCreateTable(s) == ReadBody(s, p, name, open)
  {
    hide TablePrefix, NameAndOpen, ReadBody;
  }

  lemma BodyStarts(name: string, gap: string, u: string, ps: seq<Structured.Piece>, rest: string)
    requires Token(name) && BodyText(u, ps, rest)
    ensures u != "" && !IsBlank(u[0]) && LowerChar(u[0]) != 'n' && name + (gap + u) != "" && Visible(name + (gap + u))
  {
    hide Structured.TextOf;
    assert u[0] == '(';
    var r := name + (gap + u);
    assert r[0] == name[0];
  }

  /** CREATE TABLE in every form: with a scope or not, temporary, unlogged or
      neither, in any case and spacing, with any well-nested body. */
  lemma AnyTableRead(c: string, b: string, scope: string, b1: string, life: string, b2: string, t: string, b3: string,
                     name: string, gap: string, u: string, ps: seq<Structured.Piece>, rest: string)
    requires HeadWords(c, b, scope, b1, life, b2, t, b3) && Token(name) && Blanks(gap) && BodyText(u, ps, rest)
    ensures ReadCreateTable(HeadText(c, b, scope, b1, life, b2, t, b3, name + (gap + u)))
            == TableOf(name, Named(life, "TEMPORARY") || Named(life, "TEMP"), Named(life, "UNLOGGED"),
                       Structured.TextOf(ps), rest)
  {
    hide *;
    BodyStarts(name, gap, u, ps, rest);
    GapThere(gap);
    HeadRead(c, b, scope, b1, life, b2, t, b3, name + (gap + u));
    var s := HeadText(c, b, scope, b1, life, b2, t, b3, name + (gap + u));
    NoPhrase(s, |s| - |name + (gap + u)|, name, gap, u);
    TableRead(s, TablePrefix(s), name, gap, u, ps, rest);
  }

  lemma GapThere(gap: string)
    requires Blanks(gap)
    ensures gap != ""
  {
  }

  /** IF NOT EXISTS in front of r. */
  function PhraseText(x: string, d: string, y: string, e: string, z: string, f: string, r: string): string {
    x + (d + (y + (e + (z + (f + r)))))
  }

  predicate PhraseWords(x: string, d: string, y: string, e: string, z: string, f: string) {
    Named(x, "IF") && Blanks(d) && Named(y, "NOT") && Blanks(e) && Named(z, "EXISTS") && Blanks(f)
  }

  /** So it is read with IF NOT EXISTS, which changes nothing. */
  lemma ExistingTableRead(c: string, b: string, scope: string, b1: string, life: string, b2: string, t: string, b3: string,
                          x: string, d: string, y: string, e: string, z: string, f: string,
                          name: string, gap: string, u: string, ps: seq<Structured.Piece>, rest: string)
    requires HeadWords(c, b, scope, b1, life, b2, t, b3) && Token(name) && Blanks(gap) && BodyText(u, ps, rest)
    requires PhraseWords(x, d, y, e, z, f)
    ensures ReadCreateTable(HeadText(c, b, scope, b1, life, b2, t, b3, PhraseText(x, d, y, e, z, f, name + (gap + u))))
            == TableOf(name, Named(life, "TEMPORARY") || Named(life, "TEMP"), Named(life, "UNLOGGED"),
                       Structured.TextOf(ps), rest)
  {
    hide *;
    BodyStarts(name, gap, u, ps, rest);
    BehindPhrase(c, b, scope, b1, life, b2, t, b3, x, d, y, e, z, f, name + (gap + u));
    var s := HeadText(c, b, scope, b1, life, b2, t, b3, PhraseText(x, d, y, e, z, f, name + (gap + u)));
    TableRead(s, TablePrefix(s), name, gap, u, ps, rest);
  }

  lemma PhraseRead(s: string, i: nat, x: string, d: string, y: string, e: string, z: string, f: string, r: string)
    requires i <= |s| && PhraseWords(x, d, y, e, z, f) && Visible(r) && s[i..] == PhraseText(x, d, y, e, z, f, r)
    ensures i < IfNotExists(s, i) == |s| - |r| && s[|s| - |r|..] == r
  {
    hide IfNotExists, Named, Blanks, Visible;
    PhraseHere(s, i, x, d, y, e, z, f, r);
  }

  lemma PhraseStarts(x: string, d: string, y: string, e: string, z: string, f: string, r: string)
    requires PhraseWords(x, d, y, e, z, f)
    ensures PhraseText(x, d, y, e, z, f, r) != "" && Visible(PhraseText(x, d, y, e, z, f, r))
  {
    NamedHead(x, "IF", d + (y + (e + (z + (f + r)))));
  }

  lemma BehindPhrase(c: string, b: string, scope: string, b1: string, life: string, b2: string, t: string, b3: string,
                     x: string, d: string, y: string, e: string, z: string, f: string, r: string)
    requires HeadWords(c, b, scope, b1, life, b2, t, b3) && PhraseWords(x, d, y, e, z, f) && r != "" && Visible(r)
    ensures var s := HeadText(c, b, scope, b1, life, b2, t, b3, PhraseText(x, d, y, e, z, f, r));
            && |r| <= |s| && s[|s| - |r|..] == r
            && TablePrefix(s) == Prefix(Named(life, "TEMPORARY") || Named(life, "TEMP"), Named(life, "UNLOGGED"), |s| - |r|)
  {
    hide *;
    var v := PhraseText(x, d, y, e, z, f, r);
    var s := HeadText(c, b, scope, b1, life, b2, t, b3, v);
    PhraseStarts(x, d, y, e, z, f, r);
    HeadRead(c, b, scope, b1, life, b2, t, b3, v);
    PhraseRead(s, |s| - |v|, x, d, y, e, z, f, r);
  }

  // ---- What follows the body ----

  /** What stands behind PARTITION BY, in any case, and before a semicolon. */
  lemma PartitionBy(lead: string, kw: string, v: string)
    requires Upper(kw) == PARTITION_BY && Trimmed(lead + kw + v) && lead + kw + v != ""
    requires forall p :: 0 <= p < |lead| ==> !OccursAt(Upper(lead + kw + v), PARTITION_BY, p)
    requires !HasSuffix(v, ";")
    ensures PartitionClause(lead + kw + v) == TrimSpace(v) == PartitionClause(lead + kw + v + ";")
  {
    var r := lead + kw + v;
    KeywordFound(lead, kw, v);
    NoSemicolon(lead, kw, v);
    TrimSpaceKeepsTrimmed(r);
    TrimSpaceKeepsTrimmed(r + ";");
    assert (r + ";")[|r|..] == ";";
    assert TrimSuffix(r + ";", ";") == r;
    hide TrimSpace, HasSuffix, Upper, OccursAt;
    assert r[|lead| + |kw|..] == v;
  }

  lemma KeywordFound(lead: string, kw: string, v: string)
    requires Upper(kw) == PARTITION_BY
    requires forall p :: 0 <= p < |lead| ==> !OccursAt(Upper(lead + kw + v), PARTITION_BY, p)
    ensures IndexOf(Upper(lead + kw + v), PARTITION_BY) == |lead| && |kw| == |PARTITION_BY|
  {
    hide Upper;
    var s := lead + kw + v;
    var u := Upper(s);
    var w := Upper(kw);
    assert |kw| == |w|;
    forall i | 0 <= i < |w| ensures u[|lead|..|lead| + |w|][i] == w[i] { assert s[|lead| + i] == kw[i]; }
    assert u[|lead|..|lead| + |w|] == w;
    FirstOccurrence(u, w, 0, |lead|);
  }

  lemma NoSemicolon(lead: string, kw: string, v: string)
    requires Upper(kw) == PARTITION_BY && !HasSuffix(v, ";")
    ensures !HasSuffix(lead + kw + v, ";")
  {
    var r := lead + kw + v;
    SuffixHas(r, ";", 0);
    assert |kw| == |Upper(kw)| == 12 && UpperChar(kw[11]) == Upper(kw)[11] == 'Y';
    assert r[|r| - 1] == if v == "" then kw[11] else v[|v| - 1];
    if v != "" { assert v[|v| - 1..] == [v[|v| - 1]]; }
  }

  /** A text kept as it stands loses the white space around it and one semicolon. */
  lemma KeptText(a: string, s: string, b: string)
    requires AllSpace(a) && AllSpace(b) && s != "" && Trimmed(s) && s[|s| - 1] != ';'
    ensures Verbatim(a + s + b) == s == Verbatim(a + (s + ";") + b)
  {
    hide TrimSpace;
    TrimSpaceUnpads(a, s, b);
    TrimSpaceUnpads(a, s + ";", b);
    SuffixHas(s, ";", 0);
    assert (s + ";")[|s|..] == ";";
  }

  // ---- Partitions ----

  function OfText(x: string, b: string, y: string, c: string, rest: string): string { x + (b + (y + (c + rest))) }

  predicate OfWords(x: string, b: string, y: string, c: string) {
    Named(x, "PARTITION") && Blanks(b) && Named(y, "OF") && Blanks(c)
  }

  /** PARTITION OF behind the name: the statement is kept as it stands. */
  lemma PartitionRead(s: string, p: Prefix, name: string, gap: string, x: string, b: string, y: string, c: string,
                      rest: string)
    requires p.Prefix? && TablePrefix(s) == p && p.at <= |s| && Token(name) && NoParen(name) && Blanks(gap)
    requires OfWords(x, b, y, c) && Visible(rest) && s[p.at..] == name + (gap + OfText(x, b, y, c, rest))
    ensures ReadCreateTable(s) == Read(CreateObject(Partition, NormIdent(name), false, Verbatim(s)))
  {
    hide *;
    OfStarts(x, b, y, c, rest);
    NameBefore(s, p.at, name, gap, OfText(x, b, y, c, rest));
    WordsBehind(s, p.at + |name| + |gap|, x, b, y, c, rest);
    PartitionSteps(s, p, name, p.at + |name|, p.at + |name| + |gap|, p.at + |name| + |gap| + |x| + |b|);
  }

  lemma OfStarts(x: string, b: string, y: string, c: string, rest: string)
    requires OfWords(x, b, y, c)
    ensures var w := OfText(x, b, y, c, rest); w != "" && Visible(w) && w[0] != '('
  {
    NamedHead(x, "PARTITION", b + (y + (c + rest)));
  }

  lemma PartitionSteps(s: string, p: Prefix, name: string, k: nat, l: nat, m: nat)
    requires p.Prefix? && TablePrefix(s) == p && p.at < k < l < m <= |s| && BlankEnd(s, p.at) == k && SkipSpaces(s, k) == l
    requires Keyword(s, l, "PARTITION") == m && Keyword(s, m, "OF") > m && NameAndOpen(s, p.at).1 == -1
    requires s[p.at..k] == name
    ensures ReadCreateTable(s) == Read(CreateObject(Partition, NormIdent(name), false, Verbatim(s)))
  {
    hide TablePrefix, NameAndOpen, Keyword, BlankEnd, SkipSpaces, NormIdent, Verbatim;
  }

  /** A name without a paren, and none behind it. */
  lemma NameBefore(s: string, i: nat, name: string, gap: string, w: string)
    requires i <= |s| && Token(name) && NoParen(name) && Blanks(gap) && s[i..] == name + (gap + w)
    requires w != "" && Visible(w) && w[0] != '('
    ensures var k := i + |name|;
            && i < k < k + |gap| < |s| && BlankEnd(s, i) == k && SkipSpaces(s, k) == k + |gap| && s[i..k] == name
            && NameAndOpen(s, i).1 == -1 && s[k + |gap|..] == w
  {
    hide BlankEnd, SkipSpaces, IsBlank;
    var k := i + |name|;
    assert (gap + w)[0] == gap[0];
    TokenHere(s, i, name, gap + w);
    BlanksHere(s, k, gap, w);
    HeadOf(s, i, name, gap + w);
    assert s[k + |gap|] == s[k + |gap|..][0] == w[0];
    NoneOpen(s, i + 1, k);
    assert OpenAt(s, k) == -1;
    hide LastOpen;
  }

  lemma WordsBehind(s: string, l: nat, x: string, b: string, y: string, c: string, rest: string)
    requires l <= |s| && s[l..] == OfText(x, b, y, c, rest) && OfWords(x, b, y, c) && Visible(rest)
    ensures var m := l + |x| + |b|; l < m <= |s| && Keyword(s, l, "PARTITION") == m && Keyword(s, m, "OF") > m
  {
    hide Keyword, IsBlank, Spells;
    NamedHead(y, "OF", c + rest);
    KeywordHere(s, l, x, "PARTITION", b, y + (c + rest));
    KeywordHere(s, l + |x| + |b|, y, "OF", c, rest);
  }

  lemma {:induction false} NoneOpen(s: string, lo: nat, n: nat)
    requires n <= |s| && forall k :: lo <= k < n ==> s[k] != '('
    ensures LastOpen(s, lo, n) == -1
    decreases n
  {
    if lo < n { NoneOpen(s, lo, n - 1); }
  }

  // ---- Sequences ----

  /** CREATE SEQUENCE: the name, and the options on one line. */
  lemma SequenceRead(c: string, b: string, q: string, d: string, name: string, gap: string, rest: string)
    requires Named(c, "CREATE") && Blanks(b) && Named(q, "SEQUENCE") && Blanks(d) && Token(name)
    requires if gap == "" then rest == "" else Blanks(gap) && rest != "" && Visible(rest) && LowerChar(rest[0]) != 'n'
    ensures ReadCreateSequence(c + (b + (q + (d + (name + (gap + rest))))))
            == Read(CreateSequence(name, Flattened(TrimSpace(gap + rest), 0)))
  {
    var r := name + (gap + rest);
    var s := c + (b + (q + (d + r)));
    assert r[0] == name[0];
    hide Blanks, Named, Token, Flattened, ReadCreateSequence, IfNotExists, Keyword, TrimSpace;
    SequenceHead(s, c, b, q, d, r, q + (d + r));
    var k := |s| - |r|;
    NotPhrase(s, k, name, gap, rest);
    SequenceTail(s, k, k, name, gap, rest);
  }

  lemma NotPhrase(s: string, k: nat, name: string, gap: string, rest: string)
    requires k <= |s| && s[k..] == name + (gap + rest) && Token(name)
    requires if gap == "" then rest == "" else Blanks(gap) && rest != "" && Visible(rest) && LowerChar(rest[0]) != 'n'
    ensures IfNotExists(s, k) == k
  {
    hide IfNotExists;
    if gap == "" {
      assert name + (gap + rest) == name;
      LastName(s, k, name);
    } else {
      NoPhrase(s, k, name, gap, rest);
    }
  }

  lemma NameStarts(name: string, more: string)
    requires Token(name)
    ensures name + more != "" && Visible(name + more)
  {
    assert (name + more)[0] == name[0];
  }

  lemma LastName(s: string, k: nat, name: string)
    requires k <= |s| && s[k..] == name && Token(name)
    ensures IfNotExists(s, k) == k
  {
    HeadOf(s, k, name, "");
    if |name| > 2 { assert s[k + 2] == name[2]; }
    if k + 2 <= |s| { assert SkipSpaces(s, k + 2) == k + 2; }
    assert Keyword(s, k, "IF") == k;
  }

  lemma SequenceHead(s: string, c: string, b: string, q: string, d: string, r: string, u: string)
    requires Named(c, "CREATE") && Blanks(b) && Named(q, "SEQUENCE") && Blanks(d) && r != "" && Visible(r)
    requires s == c + (b + u) && u == q + (d + r)
    ensures var i, k := |c| + |b|, |s| - |r|;
            0 < i < k && Keyword(s, 0, "CREATE") == i && Keyword(s, i, "SEQUENCE") == k && s[k..] == r
  {
    hide *;
    NamedHead(q, "SEQUENCE", d + r);
    CreateHere(s, c, b, u);
    SequenceHere(s, |c| + |b|, q, d, r);
  }

  lemma SequenceHere(s: string, i: nat, q: string, d: string, r: string)
    requires i <= |s| && s[i..] == q + (d + r) && Named(q, "SEQUENCE") && Blanks(d) && r != "" && Visible(r)
    ensures var k := |s| - |r|; i < k && Keyword(s, i, "SEQUENCE") == k && s[k..] == r
  {
    hide Keyword, IsBlank, Spells;
    KeywordHere(s, i, q, "SEQUENCE", d, r);
  }

  lemma SequenceTail(s: string, k: nat, from: nat, name: string, gap: string, rest: string)
    requires k <= from <= |s| && Token(name) && s[from..] == name + (gap + rest) && (gap != "" ==> Blanks(gap))
    requires gap == "" ==> rest == ""
    requires IfNotExists(s, k) == from && Keyword(s, 0, "CREATE") > 0
    requires Keyword(s, Keyword(s, 0, "CREATE"), "SEQUENCE") == k > Keyword(s, 0, "CREATE")
    ensures ReadCreateSequence(s) == Read(CreateSequence(name, Flattened(TrimSpace(gap + rest), 0)))
  {
    hide Keyword, IfNotExists, Flattened, TrimSpace;
    if gap != "" { assert (gap + rest)[0] == gap[0]; }
    TokenHere(s, from, name, gap + rest);
    hide BlankEnd;
    assert BlankEnd(s, from) == from + |name| > from;
  }

  /** The same with IF NOT EXISTS. */
  lemma ExistingSequenceRead(c: string, b: string, q: string, d: string, x: string, e: string, y: string, f: string,
                             z: string, g: string, name: string, gap: string, rest: string)
    requires Named(c, "CREATE") && Blanks(b) && Named(q, "SEQUENCE") && Blanks(d) && Token(name)
    requires PhraseWords(x, e, y, f, z, g) && if gap == "" then rest == "" else Blanks(gap)
    ensures ReadCreateSequence(c + (b + (q + (d + PhraseText(x, e, y, f, z, g, name + (gap + rest))))))
            == Read(CreateSequence(name, Flattened(TrimSpace(gap + rest), 0)))
  {
    var r := name + (gap + rest);
    NameStarts(name, gap + rest);
    ExistingWords(c, b, q, d, x, e, y, f, z, g, name, gap, rest, r, PhraseText(x, e, y, f, z, g, r));
  }

  lemma ExistingWords(c: string, b: string, q: string, d: string, x: string, e: string, y: string, f: string,
                      z: string, g: string, name: string, gap: string, rest: string, r: string, v: string)
    requires Named(c, "CREATE") && Blanks(b) && Named(q, "SEQUENCE") && Blanks(d) && Token(name)
    requires PhraseWords(x, e, y, f, z, g) && (if gap == "" then rest == "" else Blanks(gap))
    requires r == name + (gap + rest) && Visible(r) && v == PhraseText(x, e, y, f, z, g, r)
    ensures ReadCreateSequence(c + (b + (q + (d + v)))) == Read(CreateSequence(name, Flattened(TrimSpace(gap + rest), 0)))
  {
    hide *;
    PhraseStarts(x, e, y, f, z, g, r);
    var s := c + (b + (q + (d + v)));
    SequenceHead(s, c, b, q, d, v, q + (d + v));
    ExistingTail(s, |s| - |v|, x, e, y, f, z, g, name, gap, rest, r);
  }

  lemma ExistingTail(s: string, k: nat, x: string, e: string, y: string, f: string, z: string, g: string,
                     name: string, gap: string, rest: string, r: string)
    requires k <= |s| && PhraseWords(x, e, y, f, z, g) && s[k..] == PhraseText(x, e, y, f, z, g, r) && Visible(r)
    requires Token(name) && r == name + (gap + rest) && (if gap == "" then rest == "" else Blanks(gap))
    requires Keyword(s, 0, "CREATE") > 0 && Keyword(s, Keyword(s, 0, "CREATE"), "SEQUENCE") == k > Keyword(s, 0, "CREATE")
    ensures ReadCreateSequence(s) == Read(CreateSequence(name, Flattened(TrimSpace(gap + rest), 0)))
  {
    hide *;
    PhraseRead(s, k, x, e, y, f, z, g, r);
    SequenceTail(s, k, IfNotExists(s, k), name, gap, rest);
  }
}
