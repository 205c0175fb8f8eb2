/** Statements in the forms people write: identity clauses, untracked ALTERs, and
    the heads of CREATE TABLE and CREATE SEQUENCE, in any case and with any white
    space between the words. */
module WrittenForms {
  import opened Text
  import opened Ast
  import opened Patterns
  import opened Phrases
  import opened Rereading
  import AlterObjects
  import ColumnList
  import Scanner
  import Structured

  predicate Visible(rest: string) { rest != "" ==> !IsBlank(rest[0]) }

  /** The word has a capital first and is spelled by x. */
  predicate Named(x: string, w: string) { w != "" && 'A' <= w[0] <= 'Z' && Spells(x, w) }

  lemma NamedHead(x: string, w: string, rest: string)
    requires Named(x, w)
    ensures x != "" && x + rest != "" && (x + rest)[0] == x[0] && LowerChar(x[0]) == LowerChar(w[0]) && Visible(x + rest)
    ensures |x| == |w|
  {
    assert LowerChar(x[0]) == Lower(x)[0] == Lower(w)[0] && |Lower(x)| == |Lower(w)|;
    LetterVisible(x[0], w[0]);
  }

  // ---- Identity clauses ----

  /** ALWAYS, or BY and DEFAULT. */
  ghost predicate KindWords(kind: string) {
    || Named(kind, "ALWAYS")
    || exists x: string, b: string, y: string :: Named(x, "BY") && Blanks(b) && Named(y, "DEFAULT") && kind == x + (b + y)
  }

  lemma KindHere(s: string, j: nat, kind: string, rest: string)
    requires j <= |s| && KindWords(kind) && s[j..] == kind + rest
    ensures j + |kind| <= |s| && KindEnd(s, j) == j + |kind| && s[j + |kind|..] == rest && kind != "" && !IsBlank(kind[0])
  {
    hide MatchesAt, Spells, IsBlank, Named, Blanks, KindEnd;
    if Named(kind, "ALWAYS") {
      AlwaysHere(s, j, kind, rest);
    } else {
      var x: string, b: string, y: string :|
        Named(x, "BY") && Blanks(b) && Named(y, "DEFAULT") && kind == x + (b + y);
      assert s[j..] == x + (b + (y + rest));
      ByDefaultHere(s, j, x, b, y, rest);
    }
  }

  lemma AlwaysHere(s: string, j: nat, kind: string, rest: string)
    requires j <= |s| && Named(kind, "ALWAYS") && s[j..] == kind + rest
    ensures j + |kind| <= |s| && KindEnd(s, j) == j + |kind| && s[j + |kind|..] == rest && kind != "" && !IsBlank(kind[0])
  {
    NamedHead(kind, "ALWAYS", "");
    assert kind + "" == kind;
    WordHere(s, j, kind, "ALWAYS", rest);
    hide MatchesAt, Spells;
  }

  lemma ByDefaultHere(s: string, j: nat, x: string, b: string, y: string, rest: string)
    requires j <= |s| && Named(x, "BY") && Blanks(b) && Named(y, "DEFAULT") && s[j..] == x + (b + (y + rest))
    ensures var kind := x + (b + y);
            && j + |kind| <= |s| && KindEnd(s, j) == j + |kind| && s[j + |kind|..] == rest
            && kind != "" && !IsBlank(kind[0])
  {
    NamedHead(x, "BY", b + y);
    assert s[j] == s[j..][0] == x[0];
    NotHere(s, j, "ALWAYS");
    hide MatchesAt, Spells, IsBlank;
    PairHere(s, j, x, "BY", b, y, "DEFAULT", rest);
  }

  lemma GeneratedHere(s: string, i: nat, g: string, b: string, r: string)
    requires i <= |s| && Named(g, "GENERATED") && Blanks(b) && Visible(r) && s[i..] == g + (b + r)
    ensures var j := i + 9 + |b|;
            j <= |s| && MatchesAt(s, i, "GENERATED") && SkipSpaces(s, i + 9) == j && s[j..] == r && j > i + 9
  {
    hide Spells, IsBlank, MatchesAt, SkipSpaces;
    WordHere(s, i, g, "GENERATED", b + r);
    BlanksHere(s, i + 9, b, r);
  }

  lemma KindThenBlanks(s: string, j: nat, kind: string, c: string, r: string)
    requires j <= |s| && KindWords(kind) && Blanks(c) && Visible(r) && s[j..] == kind + (c + r)
    ensures var k := j + |kind|;
            && k + |c| <= |s| && KindEnd(s, j) == k > j && SkipSpaces(s, k) == k + |c| > k && s[k + |c|..] == r
            && Visible(kind + (c + r))
  {
    hide KindWords, IsBlank, KindEnd, SkipSpaces;
    KindHere(s, j, kind, c + r);
    assert (kind + (c + r))[0] == kind[0];
    BlanksHere(s, j + |kind|, c, r);
  }

  lemma IdentityParts(s: string, i: nat, j: nat, k: nat, l: nat, e: nat)
    requires i + 9 < j < k < l < e <= |s| && MatchesAt(s, i, "GENERATED") && SkipSpaces(s, i + 9) == j
    requires KindEnd(s, j) == k && SkipSpaces(s, k) == l && TwoWords(s, l, "AS", "IDENTITY") == e
    ensures IdentityKind(s, i) == (j, k, e)
  {
    hide MatchesAt, SkipSpaces, KindEnd, TwoWords;
  }

  lemma TailOf(t: string, r: string)
    ensures |t| <= |t + r| && (t + r)[|t|..] == r
  {
  }

  /** GENERATED kind AS IDENTITY is seen with its kind, whatever the case and the
      white space. */
  lemma IdentitySeen(t: string, g: string, b: string, kind: string, c: string, a: string, d: string, y: string,
                     rest: string)
    requires Named(g, "GENERATED") && Blanks(b) && KindWords(kind) && Blanks(c)
    requires Named(a, "AS") && Blanks(d) && Named(y, "IDENTITY")
    ensures var s := t + (g + (b + (kind + (c + (a + (d + (y + rest)))))));
            var j := |t| + 9 + |b|;
            IdentityKind(s, |t|) == (j, j + |kind|, j + |kind| + |c| + |a| + |d| + |y|)
  {
    NamedHead(a, "AS", d + (y + rest));
    NamedHead(y, "IDENTITY", rest);
    IdentityRead(t, g, b, kind, c, a, d, y, rest, a + (d + (y + rest)));
  }

  lemma IdentityRead(t: string, g: string, b: string, kind: string, c: string, a: string, d: string, y: string,
                     rest: string, r: string)
    requires Named(g, "GENERATED") && Blanks(b) && KindWords(kind) && Blanks(c) && Visible(r)
    requires Named(a, "AS") && Blanks(d) && Named(y, "IDENTITY") && a != "" && r == a + (d + (y + rest))
    ensures var s := t + (g + (b + (kind + (c + r))));
            var j := |t| + 9 + |b|;
            IdentityKind(s, |t|) == (j, j + |kind|, j + |kind| + |c| + |a| + |d| + |y|)
  {
    hide KindWords, IsBlank, MatchesAt, SkipSpaces, KindEnd, TwoWords, IdentityKind, Visible, Blanks;
    var u := kind + (c + r);
    var s := t + (g + (b + u));
    var i := |t|;
    var j := i + 9 + |b|;
    KindVisible(kind, c + r);
    TailOf(t, g + (b + u));
    GeneratedHere(s, i, g, b, u);
    KindThenBlanks(s, j, kind, c, r);
    PairHere(s, j + |kind| + |c|, a, "AS", d, y, "IDENTITY", rest);
    IdentityParts(s, i, j, j + |kind|, j + |kind| + |c|, j + |kind| + |c| + |a| + |d| + |y|);
  }

  lemma KindVisible(kind: string, r: string)
    requires KindWords(kind)
    ensures Visible(kind + r)
  {
    hide Named, Blanks, Visible;
    if Named(kind, "ALWAYS") {
      NamedHead(kind, "ALWAYS", r);
    } else {
      var x: string, b: string, y: string :|
        Named(x, "BY") && Blanks(b) && Named(y, "DEFAULT") && kind == x + (b + y);
      NamedHead(x, "BY", b + (y + r));
      assert kind + r == x + (b + (y + r));
    }
  }

  // ---- Untracked ALTERs ----

  /** OWNER TO and SET SCHEMA with something behind them. */
  lemma ActionSeen(x: string, b: string, y: string, c: string, who: string)
    requires (Named(x, "OWNER") && Named(y, "TO")) || (Named(x, "SET") && Named(y, "SCHEMA"))
    requires Blanks(b) && Blanks(c) && Visible(who)
    ensures OwnerOrSchemaAction(x + (b + (y + (c + who))))
  {
    var t := x + (b + (y + (c + who)));
    assert t[0..] == t;
    if Named(x, "OWNER") && Named(y, "TO") {
      hide MatchesAt, SkipSpaces, TwoWords;
      PairHere(t, 0, x, "OWNER", b, y, "TO", c + who);
      BlanksHere(t, |x| + |b| + |y|, c, who);
    } else {
      NamedHead(x, "SET", b + (y + (c + who)));
      MatchHas(t, 0, "OWNER", 0);
      hide MatchesAt, SkipSpaces;
      assert TwoWords(t, 0, "OWNER", "TO") == 0;
      hide TwoWords;
      PairHere(t, 0, x, "SET", b, y, "SCHEMA", c + who);
      BlanksHere(t, |x| + |b| + |y|, c, who);
    }
  }

  lemma TailAt(s: string, n: nat, r: string)
    requires n <= |s| && s[n..] == r && '\n' !in r
    ensures s[n..LineBreak(s, n)] == r
  {
    forall k | n <= k < |s| ensures s[k] != '\n' { assert s[k] == r[k - n]; }
    ColumnList.BreakIs(s, n);
    assert s[n..|s|] == s[n..];
  }

  lemma PairPlain(s: string, k: nat, i: string, b: string, e: string, rest: string)
    requires k <= |s| && s[k..] == i + (b + (e + rest)) && Named(i, "IF") && Blanks(b) && Named(e, "EXISTS")
    ensures var n := k + |i| + |b| + |e|; k < n <= |s| && TwoWords(s, k, "IF", "EXISTS") == n && s[n..] == rest
  {
    hide TwoWords, IsBlank;
    NamedHead(i, "IF", "");
    PairHere(s, k, i, "IF", b, e, "EXISTS", rest);
  }

  /** The name and the action behind it, with IF EXISTS before them. */
  lemma IfExistsSkipped(s: string, k: nat, i: string, b: string, e: string, c: string, name: string, d: string,
                        action: string, r: string)
    requires k <= |s| && s[k..] == i + (b + (e + r)) && r == NameText(c, name, d, action)
    requires Named(i, "IF") && Blanks(b) && Named(e, "EXISTS") && Blanks(c) && Token(name) && Blanks(d)
    requires action != "" && Visible(action)
    ensures TwoWords(s, k, "IF", "EXISTS") > k && ActionBehind(s, TwoWords(s, k, "IF", "EXISTS"), action)
  {
    hide *;
    PairPlain(s, k, i, b, e, r);
    NameBehind(s, k + |i| + |b| + |e|, c, name, d, action);
  }

  /** White space, a name, white space and the action. */
  function NameText(c: string, name: string, d: string, action: string): string { c + (name + (d + action)) }

  /** The action stands behind the name that follows. */
  predicate ActionBehind(s: string, end: nat, action: string)
    requires end <= |s|
  {
    var from := SkipSpaces(s, end);
    var to := BlankEnd(s, from);
    from > end && to > from && SkipSpaces(s, to) > to && s[SkipSpaces(s, to)..] == action
  }

  lemma NameBehind(s: string, end: nat, c: string, name: string, d: string, action: string)
    requires end <= |s| && s[end..] == NameText(c, name, d, action) && Blanks(c) && Token(name) && Blanks(d)
    requires action != "" && Visible(action)
    ensures ActionBehind(s, end, action)
  {
    hide SkipSpaces, BlankEnd, IsBlank;
    var r := name + (d + action);
    NameOnward(name, d, action);
    BlanksHere(s, end, c, r);
    var from := end + |c|;
    TokenHere(s, from, name, d + action);
    BlanksHere(s, from + |name|, d, action);
  }

  lemma NameOnward(name: string, d: string, action: string)
    requires Token(name) && Blanks(d)
    ensures Visible(name + (d + action)) && d + action != "" && IsBlank((d + action)[0])
  {
    assert (name + (d + action))[0] == name[0];
    assert (d + action)[0] == d[0];
  }

  /** With IF EXISTS such a text is untracked exactly when its action is. */
  lemma ExistingUntracked(x: string, b: string, y: string, c: string, i: string, d: string, e: string, f: string,
                          name: string, g: string, action: string, kind: string)
    requires Named(x, "ALTER") && Blanks(b) && kind in {"DOMAIN", "VIEW"} && Named(y, kind) && Blanks(c)
    requires Named(i, "IF") && Blanks(d) && Named(e, "EXISTS") && Blanks(f) && Token(name) && Blanks(g)
    requires action != "" && Visible(action) && '\n' !in action
    ensures OwnerOrSchema(x + (b + (y + (c + (i + (d + (e + (f + (name + (g + action))))))))), kind)
            <==> OwnerOrSchemaAction(action)
  {
    UntrackedWords(x, b, y, c, i, d, e, f, name, g, action, kind, i + (d + (e + (f + (name + (g + action))))));
  }

  lemma UntrackedWords(x: string, b: string, y: string, c: string, i: string, d: string, e: string, f: string,
                       name: string, g: string, action: string, kind: string, r: string)
    requires Named(x, "ALTER") && Blanks(b) && kind in {"DOMAIN", "VIEW"} && Named(y, kind) && Blanks(c)
    requires Named(i, "IF") && Blanks(d) && Named(e, "EXISTS") && Blanks(f) && Token(name) && Blanks(g)
    requires action != "" && Visible(action) && '\n' !in action && r == i + (d + (e + NameText(f, name, g, action)))
    ensures OwnerOrSchema(x + (b + (y + (c + r))), kind) <==> OwnerOrSchemaAction(action)
  {
    hide *;
    var s := x + (b + (y + (c + r)));
    var k := |x| + |b| + |y| + |c|;
    NamedHead(y, kind, c + r);
    NamedHead(i, "IF", d + (e + NameText(f, name, g, action)));
    TwoKeywords(s, x, b, y, c, r, kind);
    IfExistsSkipped(s, k, i, d, e, f, name, g, action, NameText(f, name, g, action));
    ActionEnds(s, TwoWords(s, k, "IF", "EXISTS"), action);
    UntrackedSteps(s, kind, |x| + |b|, k, action);
  }

  lemma ActionEnds(s: string, end: nat, action: string)
    requires end <= |s| && ActionBehind(s, end, action) && '\n' !in action
    ensures var n := SkipSpaces(s, BlankEnd(s, SkipSpaces(s, end))); s[n..LineBreak(s, n)] == action
  {
    hide SkipSpaces, BlankEnd, LineBreak;
    TailAt(s, SkipSpaces(s, BlankEnd(s, SkipSpaces(s, end))), action);
  }

  lemma UntrackedSteps(s: string, kind: string, a: nat, k: nat, action: string)
    requires 0 < a < k <= |s| && Keyword(s, 0, "ALTER") == a && Keyword(s, a, kind) == k
    requires var e := TwoWords(s, k, "IF", "EXISTS"); e > k && ActionBehind(s, e, action)
    requires var n := SkipSpaces(s, BlankEnd(s, SkipSpaces(s, TwoWords(s, k, "IF", "EXISTS"))));
             s[n..LineBreak(s, n)] == action
    ensures OwnerOrSchema(s, kind) <==> OwnerOrSchemaAction(action)
  {
    hide Keyword, TwoWords, SkipSpaces, BlankEnd, LineBreak, OwnerOrSchemaAction;
  }

  lemma TwoKeywords(s: string, x: string, b: string, y: string, c: string, r: string, kind: string)
    requires s == x + (b + (y + (c + r))) && Named(x, "ALTER") && Blanks(b) && Named(y, kind) && Blanks(c)
    requires Visible(r) && Visible(y + (c + r))
    ensures var a, k := |x| + |b|, |x| + |b| + |y| + |c|;
            && 0 < a < k <= |s| && Keyword(s, 0, "ALTER") == a && Keyword(s, a, kind) == k && s[k..] == r
  {
    hide Keyword, IsBlank;
    assert s[0..] == s;
    KeywordHere(s, 0, x, "ALTER", b, y + (c + r));
    KeywordHere(s, |x| + |b|, y, kind, c, r);
  }
}
