/** Sequence options in the forms people write: short and long, in any case and
    with any white space, and with numbers of either sign. */
module OptionForms {
  import opened Text
  import opened Ast
  import opened Patterns
  import opened Phrases
  import opened WrittenForms
  import opened SequenceBody
  import opened SequenceParser

  /** Digits, with or without a minus sign. */
  predicate Integer(v: string) {
    var d := if v != "" && v[0] == '-' then 1 else 0;
    |v| > d && forall i :: d <= i < |v| ==> '0' <= v[i] <= '9'
  }

  /** The number ends where the digits do. */
  predicate NoDigit(rest: string) { rest != "" ==> !('0' <= rest[0] <= '9') }

  lemma {:induction false} DigitsUpTo(s: string, i: nat, n: nat)
    requires i <= n <= |s| && (forall k :: i <= k < n ==> '0' <= s[k] <= '9') && (n < |s| ==> !('0' <= s[n] <= '9'))
    ensures DigitsEnd(s, i) == n
    decreases n - i
  {
    if i < n { DigitsUpTo(s, i + 1, n); }
  }

  lemma IntegerHere(s: string, i: nat, v: string, rest: string)
    requires i <= |s| && Integer(v) && NoDigit(rest) && s[i..] == v + rest
    ensures var n := i + |v|; i < n <= |s| && NumberEnd(s, i) == n && s[i..n] == v && Visible(v + rest) && v + rest != ""
    ensures LowerChar(s[i]) !in {'b', 'w'}
  {
    HeadOf(s, i, v, rest);
    var d := if v[0] == '-' then 1 else 0;
    if rest != "" { assert s[i + |v|] == s[i + |v|..][0]; }
    assert s[i] == v[0] == (v + rest)[0];
    DigitsUpTo(s, i + d, i + |v|);
    assert s[i..i + |v|] == v;
  }

  /** An option starts at a, behind no word character. */
  predicate Starts(s: string, a: nat) { a <= |s| && (a > 0 ==> !IsWordChar(s[a - 1])) }

  lemma StartsBoundary(s: string, a: nat, x: string, w: string, rest: string)
    requires Starts(s, a) && Named(x, w) && s[a..] == x + rest
    ensures Boundary(s, a)
  {
    NamedHead(x, w, rest);
    assert s[a] == s[a..][0] == x[0];
  }

  /** A keyword at a, and what is behind it. */
  lemma KeyHere(s: string, a: nat, x: string, w: string, b: string, r: string)
    requires a <= |s| && s[a..] == x + (b + r) && Named(x, w) && Blanks(b) && Visible(r)
    ensures var k := a + |x| + |b|; a < k <= |s| && Keyword(s, a, w) == k && s[k..] == r
  {
    hide Keyword, IsBlank, Spells;
    KeywordHere(s, a, x, w, b, r);
  }

  lemma NumberSteps(s: string, k: nat, l: nat, w: string, filler: string, a: nat, n: nat)
    requires a < k <= l < n <= |s| && Keyword(s, a, w) == k && (if filler != "" then Keyword(s, k, filler) else k) == l
    requires NumberEnd(s, l) == n
    ensures Numbered(s, a, w, filler) == Some(s[l..n])
  {
    hide Keyword, NumberEnd;
  }

  lemma NumberRead(s: string, a: nat, x: string, w: string, filler: string, b: string, v: string, rest: string)
    requires a <= |s| && s[a..] == x + (b + (v + rest)) && Named(x, w) && Blanks(b) && Integer(v) && NoDigit(rest)
    requires filler in {"", "BY", "WITH"}
    ensures Numbered(s, a, w, filler) == Some(v)
  {
    hide Keyword, NumberEnd, IsBlank, Spells, Named, Blanks, Numbered;
    var k := a + |x| + |b|;
    VisibleInteger(v, rest);
    KeyHere(s, a, x, w, b, v + rest);
    IntegerHere(s, k, v, rest);
    if filler != "" { NotHere(s, k, filler); }
    NumberSteps(s, k, k, w, filler, a, k + |v|);
  }

  lemma VisibleInteger(v: string, rest: string)
    requires Integer(v)
    ensures v + rest != "" && Visible(v + rest)
  {
    assert (v + rest)[0] == v[0];
  }

  lemma FilledRead(s: string, a: nat, x: string, w: string, b: string, y: string, filler: string, c: string, v: string,
                   rest: string)
    requires a <= |s| && s[a..] == x + (b + (y + (c + (v + rest)))) && Named(x, w) && Blanks(b)
    requires Named(y, filler) && Blanks(c) && Integer(v) && NoDigit(rest)
    ensures Numbered(s, a, w, filler) == Some(v)
  {
    FilledWords(s, a, x, w, b, y, filler, c, v, rest, v + rest, y + (c + (v + rest)));
  }

  lemma FilledWords(s: string, a: nat, x: string, w: string, b: string, y: string, filler: string, c: string, v: string,
                    rest: string, r: string, u: string)
    requires a <= |s| && s[a..] == x + (b + u) && u == y + (c + r) && r == v + rest && Named(x, w) && Blanks(b)
    requires Named(y, filler) && Blanks(c) && Integer(v) && NoDigit(rest)
    ensures Numbered(s, a, w, filler) == Some(v)
  {
    hide *;
    VisibleInteger(v, rest);
    NamedHead(y, filler, c + r);
    var k := a + |x| + |b|;
    var l := k + |y| + |c|;
    KeyHere(s, a, x, w, b, u);
    KeyHere(s, k, y, filler, c, r);
    IntegerHere(s, l, v, rest);
    FillerThere(y, filler);
    NumberSteps(s, k, l, w, filler, a, l + |v|);
  }

  lemma FillerThere(y: string, filler: string)
    requires Named(y, filler)
    ensures filler != ""
  {
  }

  /** The patterns with a number: their places in the list, words and fillers. */
  const NUMBERED := {
    (3, "INCREMENT", "BY"), (4, "MINVALUE", ""), (5, "MAXVALUE", ""), (6, "START", "WITH"), (7, "CACHE", ""),
    (12, "RESTART", "WITH")}

  lemma NumberedIs(s: string, a: nat, p: (int, string, string))
    requires p in NUMBERED && a <= |s| && Boundary(s, a)
    ensures 0 <= p.0 < 14 && Captured(s, a, p.0) == Numbered(s, a, p.1, p.2) && p.2 in {"", "BY", "WITH"}
  {
    hide Numbered, Boundary;
  }

  /** Each takes its number without the filler. */
  lemma ShortForm(s: string, a: nat, p: (int, string, string), x: string, b: string, v: string, rest: string)
    requires p in NUMBERED && Starts(s, a) && Named(x, p.1) && Blanks(b) && Integer(v) && NoDigit(rest)
    requires s[a..] == x + (b + (v + rest))
    ensures 0 <= p.0 < 14 && Captured(s, a, p.0) == Some(v)
  {
    hide NUMBERED, Boundary, Numbered, Captured, Named, Blanks, Integer;
    StartsBoundary(s, a, x, p.1, b + (v + rest));
    NumberedIs(s, a, p);
    NumberRead(s, a, x, p.1, p.2, b, v, rest);
  }

  /** And with it, where there is one. */
  lemma LongForm(s: string, a: nat, p: (int, string, string), x: string, b: string, y: string, c: string, v: string,
                 rest: string)
    requires p in NUMBERED && p.2 != "" && Starts(s, a) && Named(x, p.1) && Blanks(b) && Named(y, p.2) && Blanks(c)
    requires Integer(v) && NoDigit(rest) && s[a..] == x + (b + (y + (c + (v + rest))))
    ensures 0 <= p.0 < 14 && Captured(s, a, p.0) == Some(v)
  {
    hide NUMBERED, Boundary, Numbered, Captured, Named, Blanks, Integer;
    StartsBoundary(s, a, x, p.1, b + (y + (c + (v + rest))));
    NumberedIs(s, a, p);
    FilledRead(s, a, x, p.1, b, y, p.2, c, v, rest);
  }

  /** No word character follows. */
  predicate Ends(rest: string) { rest != "" ==> !IsWordChar(rest[0]) }

  lemma WholeHere(s: string, i: nat, x: string, w: string, rest: string)
    requires i <= |s| && Named(x, w) && s[i..] == x + rest && Ends(rest) && IsWordChar(w[|w| - 1])
    ensures WholeEnd(s, i, w) == i + |w| > i
  {
    hide MatchesAt;
    NamedHead(x, w, rest);
    LastChar(x, w);
    WordHere(s, i, x, w, rest);
    HeadOf(s, i, x, rest);
    assert s[i + |w| - 1] == x[|w| - 1];
    if rest != "" { assert s[i + |w|] == s[i + |w|..][0]; }
  }

  lemma LastChar(x: string, w: string)
    requires Named(x, w) && IsWordChar(w[|w| - 1])
    ensures |x| == |w| && IsWordChar(x[|w| - 1])
  {
    assert |Lower(x)| == |Lower(w)|;
    assert LowerChar(x[|w| - 1]) == Lower(x)[|w| - 1] == Lower(w)[|w| - 1];
  }

  /** NO with MINVALUE, MAXVALUE or CYCLE. */
  lemma NegativeForm(s: string, a: nat, p: (int, string), x: string, b: string, y: string, rest: string)
    requires p in {(0, "MINVALUE"), (1, "MAXVALUE"), (2, "CYCLE")} && Starts(s, a)
    requires Named(x, "NO") && Blanks(b) && Named(y, p.1) && Ends(rest) && s[a..] == x + (b + (y + rest))
    ensures 0 <= p.0 < 14 && Captured(s, a, p.0) == Some("")
  {
    NamedHead(y, p.1, rest);
    assert IsWordChar(p.1[|p.1| - 1]);
    NegativeIs(s, a, p);
    NegativeRead(s, a, p.1, x, b, y, rest, y + rest);
  }

  lemma NegativeIs(s: string, a: nat, p: (int, string))
    requires p in {(0, "MINVALUE"), (1, "MAXVALUE"), (2, "CYCLE")} && a <= |s|
    ensures 0 <= p.0 < 14 && Captured(s, a, p.0) == if Boundary(s, a) then Negated(s, a, p.1) else None
  {
    hide Negated, Boundary;
  }

  lemma NegativeRead(s: string, a: nat, w: string, x: string, b: string, y: string, rest: string, r: string)
    requires Starts(s, a) && Named(x, "NO") && Blanks(b) && Named(y, w) && Ends(rest) && IsWordChar(w[|w| - 1])
    requires s[a..] == x + (b + r) && r == y + rest && Visible(r)
    ensures Boundary(s, a) && Negated(s, a, w) == Some("")
  {
    StartsBoundary(s, a, x, "NO", b + r);
    assert a <= |s|;
    hide *;
    var k := a + |x| + |b|;
    KeyHere(s, a, x, "NO", b, r);
    WholeHere(s, k, y, w, rest);
    NegativeSteps(s, a, k, w);
  }

  lemma NegativeSteps(s: string, a: nat, k: nat, w: string)
    requires a < k <= |s| && Keyword(s, a, "NO") == k && WholeEnd(s, k, w) > k
    ensures Negated(s, a, w) == Some("")
  {
    hide Keyword, WholeEnd;
  }

  /** CYCLE and RESTART alone. */
  lemma WordForm(s: string, a: nat, p: (int, string), x: string, rest: string)
    requires p in {(8, "CYCLE"), (13, "RESTART")} && Starts(s, a) && Named(x, p.1) && Ends(rest) && s[a..] == x + rest
    ensures 0 <= p.0 < 14 && Captured(s, a, p.0) == Some("")
  {
    hide WholeEnd, Boundary;
    StartsBoundary(s, a, x, p.1, rest);
    assert IsWordChar(p.1[|p.1| - 1]);
    WholeHere(s, a, x, p.1, rest);
  }

  lemma NameSteps(s: string, a: nat, k: nat, l: nat, n: nat)
    requires a < k <= l < n <= |s| && Boundary(s, a) && BlankEnd(s, l) == n
    ensures Keyword(s, a, "AS") == k == l ==> Captured(s, a, 10) == Some(s[l..n])
    ensures Keyword(s, a, "OWNED") == k < l && Keyword(s, k, "BY") == l ==> Captured(s, a, 9) == Some(s[l..n])
  {
    hide Keyword, BlankEnd, Boundary;
  }

  /** AS with a name. */
  lemma AsForm(s: string, a: nat, x: string, b: string, name: string, rest: string)
    requires Starts(s, a) && Named(x, "AS") && Blanks(b) && Token(name) && (rest != "" ==> IsBlank(rest[0]))
    requires s[a..] == x + (b + (name + rest))
    ensures Captured(s, a, 10) == Some(name)
  {
    hide Captured, Keyword, BlankEnd, Boundary, IsBlank, Spells, Named, Blanks, Token;
    NameFirst(name, rest);
    StartsBoundary(s, a, x, "AS", b + (name + rest));
    KeyHere(s, a, x, "AS", b, name + rest);
    TokenHere(s, a + |x| + |b|, name, rest);
    NameSteps(s, a, a + |x| + |b|, a + |x| + |b|, a + |x| + |b| + |name|);
  }

  lemma NameFirst(name: string, rest: string)
    requires Token(name)
    ensures name + rest != "" && Visible(name + rest) && name != ""
  {
    assert (name + rest)[0] == name[0];
  }

  /** OWNED BY with a name. */
  lemma OwnedForm(s: string, a: nat, x: string, b: string, y: string, c: string, name: string, rest: string)
    requires Starts(s, a) && Blanks(b) && Token(name) && (rest != "" ==> IsBlank(rest[0]))
    requires Named(x, "OWNED") && Named(y, "BY") && Blanks(c) && s[a..] == x + (b + (y + (c + (name + rest))))
    ensures Captured(s, a, 9) == Some(name)
  {
    NameFirst(name, rest);
    NamedHead(y, "BY", c + (name + rest));
    OwnedRead(s, a, x, b, y, c, name, rest, name + rest, y + (c + (name + rest)));
  }

  lemma OwnedRead(s: string, a: nat, x: string, b: string, y: string, c: string, name: string, rest: string, r: string,
                  u: string)
    requires Starts(s, a) && Blanks(b) && Token(name) && (rest != "" ==> IsBlank(rest[0]))
    requires Named(x, "OWNED") && Named(y, "BY") && Blanks(c) && Visible(r) && Visible(u) && y != "" && name != ""
    requires s[a..] == x + (b + u) && u == y + (c + r) && r == name + rest
    ensures Captured(s, a, 9) == Some(name)
  {
    hide Captured, Keyword, BlankEnd, Boundary, IsBlank, Spells, Named, Blanks, Token;
    var k := a + |x| + |b|;
    var l := k + |y| + |c|;
    StartsBoundary(s, a, x, "OWNED", b + u);
    KeyHere(s, a, x, "OWNED", b, u);
    KeyHere(s, k, y, "BY", c, r);
    TokenHere(s, l, name, rest);
    NameSteps(s, a, k, l, l + |name|);
  }

  /** SET LOGGED and SET UNLOGGED, as they are written. */
  lemma LoggedForm(s: string, a: nat, x: string, b: string, y: string, w: string, rest: string)
    requires w in {"LOGGED", "UNLOGGED"} && Starts(s, a) && Named(x, "SET") && Blanks(b) && Named(y, w) && Ends(rest)
    requires s[a..] == x + (b + (y + rest))
    ensures Captured(s, a, 11) == Some(y)
  {
    hide Captured, Keyword, WholeEnd, Boundary, IsBlank, Spells, Named, Blanks, Ends;
    var k := a + |x| + |b|;
    StartsBoundary(s, a, x, "SET", b + (y + rest));
    NamedHead(y, w, rest);
    KeyHere(s, a, x, "SET", b, y + rest);
    LoggedHere(s, k, y, w, rest);
    LoggedSteps(s, a, k, k + |y|);
  }

  lemma LoggedHere(s: string, k: nat, y: string, w: string, rest: string)
    requires w in {"LOGGED", "UNLOGGED"} && k <= |s| && Named(y, w) && Ends(rest) && s[k..] == y + rest
    ensures var e := if WholeEnd(s, k, "LOGGED") > k then WholeEnd(s, k, "LOGGED") else WholeEnd(s, k, "UNLOGGED");
            k < e == k + |y| && s[k..e] == y
  {
    hide MatchesAt, Boundary;
    NamedHead(y, w, rest);
    assert IsWordChar(w[|w| - 1]);
    WholeHere(s, k, y, w, rest);
    HeadOf(s, k, y, rest);
    assert s[k..k + |y|] == y;
    if w == "UNLOGGED" { NotHere(s, k, "LOGGED"); }
  }

  lemma LoggedSteps(s: string, a: nat, k: nat, e: nat)
    requires a < k < e <= |s| && Boundary(s, a) && Keyword(s, a, "SET") == k
    requires (if WholeEnd(s, k, "LOGGED") > k then WholeEnd(s, k, "LOGGED") else WholeEnd(s, k, "UNLOGGED")) == e
    ensures Captured(s, a, 11) == Some(s[k..e])
  {
    hide Keyword, WholeEnd, Boundary;
  }

  // ---- From captures to options ----

  /** A pattern that matches where the text begins is found there. */
  lemma FoundFirst(s: string, n: nat)
    requires n < 14 && Captured(s, 0, n).Some?
    ensures Found(s, 0, n) == Captured(s, 0, n)
  {
    hide Captured;
  }

  /** The kinds of the options by pattern. */
  lemma KindsByPattern()
    ensures SPECS[0] == NoMinValue && SPECS[1] == NoMaxValue && SPECS[2] == NoCycle && SPECS[3] == IncrementBy
    ensures SPECS[4] == MinValue && SPECS[5] == MaxValue && SPECS[6] == StartWith && SPECS[7] == Cache && SPECS[8] == Cycle
    ensures SPECS[9] == OwnedBy && SPECS[10] == As && SPECS[11] == SetLogged && SPECS[12] == Restart && SPECS[13] == Restart
  {
  }

  /** One semicolon at the end does not count. */
  lemma SemicolonDropped(text: string)
    requires !HasSuffix(text, ";")
    ensures OptionsOf(text + ";") == OptionsOf(text)
  {
    hide Picked, TrimSpace;
    assert (text + ";")[|text|..] == ";";
    assert TrimSuffix(text + ";", ";") == text;
  }
}
