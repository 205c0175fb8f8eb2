/** The items of a table body in the forms people write: constraints with a name
    and without, and columns. */
module ItemForms {
  import opened Text
  import opened Ast
  import opened Patterns
  import opened Phrases
  import opened WrittenForms
  import opened ColumnList
  import Columns

  /** The definition that is kept of a named constraint: its first line, trimmed. */
  lemma {:induction false} LineTo(s: string, i: nat, line: string, more: string)
    requires i <= |s| && s[i..] == line + more && '\n' !in line && (more != "" ==> more[0] == '\n')
    ensures LineBreak(s, i) == i + |line| && s[i..LineBreak(s, i)] == line
  {
    HeadOf(s, i, line, more);
    forall k | i <= k < i + |line| ensures s[k] != '\n' { assert s[k] == line[k - i]; }
    if more != "" { assert s[i + |line|] == s[i + |line|..][0]; }
    LineIs(s, i, i + |line|);
    assert s[i..i + |line|] == line;
  }

  lemma {:induction false} LineIs(s: string, i: nat, n: nat)
    requires i <= n <= |s| && (forall k :: i <= k < n ==> s[k] != '\n') && (n < |s| ==> s[n] == '\n')
    ensures LineBreak(s, i) == n
    decreases n - i
  {
    if i < n { LineIs(s, i + 1, n); }
  }

  /** CONSTRAINT name definition: the name, and the definition up to the end of its
      line; further lines are lost. */
  lemma NamedConstraint(x: string, b: string, name: string, c: string, line: string, more: string)
    requires Named(x, "CONSTRAINT") && Blanks(b) && Token(name) && Blanks(c)
    requires line != "" && Visible(line) && '\n' !in line && (more != "" ==> more[0] == '\n')
    ensures ReadItem(x + (b + (name + (c + (line + more))))) == ConstraintItem(Constraint(name, TrimSpace(line)))
  {
    LineVisible(line, more);
    ConstraintRead(x, b, name, c, line, more, line + more, name + (c + (line + more)));
  }

  lemma LineVisible(line: string, more: string)
    requires line != "" && Visible(line)
    ensures line + more != "" && Visible(line + more)
  {
    assert (line + more)[0] == line[0];
  }

  lemma ConstraintRead(x: string, b: string, name: string, c: string, line: string, more: string, r: string, v: string)
    requires Named(x, "CONSTRAINT") && Blanks(b) && Token(name) && Blanks(c) && '\n' !in line
    requires more != "" ==> more[0] == '\n'
    requires r == line + more && r != "" && Visible(r) && v == name + (c + r)
    ensures ReadItem(x + (b + v)) == ConstraintItem(Constraint(name, TrimSpace(line)))
  {
    hide *;
    var s := x + (b + v);
    ConstraintFirst(s, x, b, v, name, c + r);
    NameSecond(s, 10 + |b|, name, c, r);
    var l := |s| - |r|;
    LineTo(s, l, line, more);
    ConstraintSteps(s, 10 + |b|, 10 + |b| + |name|, l, name);
  }

  lemma ConstraintSteps(s: string, j: nat, k: nat, l: nat, name: string)
    requires 10 < j < k < l < |s| && MatchesAt(s, 0, "CONSTRAINT") && SkipSpaces(s, 10) == j && BlankEnd(s, j) == k
    requires SkipSpaces(s, k) == l && s[j..k] == name
    ensures ReadItem(s) == ConstraintItem(Constraint(name, TrimSpace(s[l..LineBreak(s, l)])))
  {
    hide MatchesAt, SkipSpaces, BlankEnd, LineBreak, TrimSpace;
  }

  lemma ConstraintFirst(s: string, x: string, b: string, v: string, name: string, more: string)
    requires s == x + (b + v) && Named(x, "CONSTRAINT") && Blanks(b) && v == name + more && Token(name)
    ensures MatchesAt(s, 0, "CONSTRAINT") && 10 + |b| <= |s| && SkipSpaces(s, 10) == 10 + |b| > 10 && s[10 + |b|..] == v
  {
    hide Token, SkipSpaces, MatchesAt, IsBlank;
    NameFirst(name, more);
    assert s[0..] == s;
    WordHere(s, 0, x, "CONSTRAINT", b + v);
    BlanksHere(s, 10, b, v);
  }

  lemma NameSecond(s: string, j: nat, name: string, c: string, r: string)
    requires j <= |s| && s[j..] == name + (c + r) && Token(name) && Blanks(c) && r != "" && Visible(r)
    ensures var k, l := j + |name|, |s| - |r|;
            j < k < l < |s| && BlankEnd(s, j) == k && SkipSpaces(s, k) == l && s[j..k] == name && s[l..] == r
  {
    hide SkipSpaces, BlankEnd, IsBlank;
    NameFirst(name, c + r);
    BlankFirst(c, r);
    TokenHere(s, j, name, c + r);
    BlanksHere(s, j + |name|, c, r);
  }

  lemma NameFirst(name: string, more: string)
    requires Token(name)
    ensures name + more != "" && Visible(name + more) && name != ""
  {
    assert (name + more)[0] == name[0];
  }

  lemma BlankFirst(c: string, r: string)
    requires Blanks(c)
    ensures c + r != "" && IsBlank((c + r)[0])
  {
  }

  // ---- Unnamed constraints ----

  const PAIRS := {("PRIMARY", "KEY"), ("FOREIGN", "KEY")}

  const SINGLES := {"UNIQUE", "CHECK", "EXCLUDE", "LIKE"}

  lemma NotNamed(s: string, i: nat)
    requires |s| > 0 && (LowerChar(s[0]) == 'c' ==> |s| > 1 && LowerChar(s[1]) != 'o')
    ensures ConstraintLine(s) == None
  {
    hide MatchesAt;
    MatchHas(s, 0, "CONSTRAINT", 0);
    MatchHas(s, 0, "CONSTRAINT", 1);
  }

  /** PRIMARY KEY and FOREIGN KEY begin a constraint without a name, which is kept
      as it stands. */
  lemma KeyConstraint(x: string, b: string, y: string, p: (string, string), rest: string)
    requires p in PAIRS && Named(x, p.0) && Blanks(b) && Named(y, p.1)
    ensures var s := x + (b + (y + rest)); ReadItem(s) == ConstraintItem(Constraint("", s))
  {
    hide TwoWords, MatchesAt, IsBlank, Spells, ConstraintLine;
    var s := x + (b + (y + rest));
    NamedHead(x, p.0, b + (y + rest));
    assert LowerChar(p.0[0]) != 'c' by { assert p.0 in {"PRIMARY", "FOREIGN"}; }
    NotNamed(s, 0);
    assert s[0..] == s;
    PairHere(s, 0, x, p.0, b, y, p.1, rest);
  }

  /** So do UNIQUE, CHECK, EXCLUDE and LIKE, and whatever begins with them: no end
      of the word is asked for. */
  lemma WordConstraint(x: string, w: string, rest: string)
    requires w in SINGLES && Named(x, w)
    ensures ReadItem(x + rest) == ConstraintItem(Constraint("", x + rest))
  {
    hide TwoWords, MatchesAt, ConstraintLine;
    var s := x + rest;
    NamedHead(x, w, rest);
    if w == "CHECK" { assert LowerChar(x[1]) == Lower(x)[1] == Lower(w)[1] == 'h'; }
    NotNamed(s, 0);
    assert s[0..] == s;
    WordHere(s, 0, x, w, rest);
  }

  /** Any other beginning is a column. */
  lemma OtherColumn(s: string)
    requires s != "" && LowerChar(s[0]) !in {'c', 'p', 'f', 'u', 'e', 'l'}
    ensures ReadItem(s) == ColumnItem(Columns.ParseColumn(s))
  {
    hide MatchesAt, ConstraintLine, Columns.ParseColumn;
    NotNamed(s, 0);
    MatchHas(s, 0, "PRIMARY", 0);
    MatchHas(s, 0, "FOREIGN", 0);
    MatchHas(s, 0, "UNIQUE", 0);
    MatchHas(s, 0, "CHECK", 0);
    MatchHas(s, 0, "EXCLUDE", 0);
    MatchHas(s, 0, "LIKE", 0);
  }
}
