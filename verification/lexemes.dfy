/** What the splitter makes of each lexeme, written out: the text that begins with
    it is the rest of the text with the lexeme taken, or dropped. */
module Lexemes {
  import opened Text
  import opened Splitter
  import opened Splitting

  /** Scanning x and then the rest is scanning the rest with `taken` collected. */
  ghost predicate Takes(x: string, rest: string, taken: string) {
    forall cur :: Pieces(x + rest, 0, cur) == Pieces(rest, 0, cur + taken)
  }

  lemma LexemeTaken(x: string, rest: string, taken: string)
    requires x != "" && x[0] != ';' && LexEnd(x + rest, 0) == |x|
    requires taken == if StartsComment(x + rest, 0) then "" else x
    ensures Takes(x, rest, taken)
  {
    hide LexEnd, StartsComment, Pieces;
    var s := x + rest;
    forall cur ensures Pieces(s, 0, cur) == Pieces(rest, 0, cur + taken) {
      PiecesStep(s, 0, cur);
      PiecesShift(x, rest, 0, cur + taken);
      assert s[0..|x|] == x && cur + "" == cur;
    }
  }

  // ---- Literals ----

  /** A value as it stands in a literal: every quote doubled. */
  function Escaped(v: string): string {
    if v == "" then "" else (if v[0] == '\'' then "''" else [v[0]]) + Escaped(v[1..])
  }

  lemma {:induction false} LiteralEnd(s: string, i: nat, v: string, rest: string)
    requires i <= |s| && s[i..] == Escaped(v) + rest
    requires rest == "" || (rest[0] == '\'' && (|rest| > 1 ==> rest[1] != '\''))
    ensures QuoteEnd(s, i) == i + |Escaped(v)| + if rest == "" then 0 else 1
    decreases v
  {
    var t := Escaped(v) + rest;
    assert forall k :: i <= k < |s| ==> s[k] == t[k - i];
    if v == "" {
      assert t == rest;
    } else {
      var head := if v[0] == '\'' then "''" else [v[0]];
      assert t == head + (Escaped(v[1..]) + rest);
      assert s[i + |head|..] == t[|head|..] == Escaped(v[1..]) + rest;
      LiteralEnd(s, i + |head|, v[1..], rest);
    }
  }

  /** A literal is taken whole, whatever stands in it. */
  lemma LiteralTaken(v: string, rest: string)
    requires rest != "" ==> rest[0] != '\''
    ensures var x := "'" + Escaped(v) + "'"; Takes(x, rest, x)
  {
    var x := "'" + Escaped(v) + "'";
    var s := x + rest;
    assert s[1..] == Escaped(v) + ("'" + rest);
    LiteralEnd(s, 1, v, "'" + rest);
    LexemeTaken(x, rest, x);
  }

  /** One that is not closed takes all the rest. */
  lemma LiteralUnclosed(v: string, cur: string)
    ensures var x := "'" + Escaped(v); Pieces(x, 0, cur) == [cur + x]
  {
    var x := "'" + Escaped(v);
    assert x[1..] == Escaped(v) + "";
    LiteralEnd(x, 1, v, "");
    PiecesStep(x, 0, cur);
    PiecesEnd(x, cur + x);
    assert x[0..|x|] == x;
  }

  // ---- Comments ----

  lemma {:induction false} LineTo(s: string, i: nat, n: nat)
    requires i <= n <= |s| && (forall k :: i <= k < n ==> s[k] != '\n') && (n < |s| ==> s[n] == '\n')
    ensures LineEnd(s, i) == if n < |s| then n + 1 else n
    decreases n - i
  {
    if i < n { LineTo(s, i + 1, n); }
  }

  /** A line comment goes, line break included. */
  lemma LineDropped(c: string, rest: string)
    requires '\n' !in c
    ensures Takes("--" + c + "\n", rest, "")
  {
    var x := "--" + c + "\n";
    var s := x + rest;
    assert forall k :: 2 <= k < 2 + |c| ==> s[k] == c[k - 2];
    assert s[2 + |c|] == '\n' && s[0] == '-' && s[1] == '-';
    LineTo(s, 2, 2 + |c|);
    LexemeTaken(x, rest, "");
  }

  lemma LineToEnd(c: string, cur: string)
    requires '\n' !in c
    ensures Pieces("--" + c, 0, cur) == [cur]
  {
    var x := "--" + c;
    assert forall k :: 2 <= k < |x| ==> x[k] == c[k - 2];
    LineTo(x, 2, |x|);
    PiecesStep(x, 0, cur);
    PiecesEnd(x, cur);
  }

  lemma {:induction false} BlockTo(s: string, i: nat)
    requires i <= |s|
    ensures var r := IndexFrom(s, "*/", i);
            BlockEnd(s, i) == if r < 0 then |s| else r + 2
    decreases |s| - i
  {
    if i < |s| {
      Star(s, i);
      hide OccursAt;
      BlockTo(s, i + 1);
    }
  }

  lemma Star(s: string, i: nat)
    requires i < |s|
    ensures OccursAt(s, "*/", i) <==> s[i] == '*' && i + 1 < |s| && s[i + 1] == '/'
  {
    OccursHas(s, "*/", i, 0);
    OccursHas(s, "*/", i, 1);
    if s[i] == '*' && i + 1 < |s| && s[i + 1] == '/' { assert s[i..i + 2] == "*/"; }
  }

  /** A block comment goes up to the first end of one; they do not nest. */
  lemma BlockDropped(c: string, rest: string)
    requires IndexOf(c + "*/", "*/") == |c|
    ensures Takes("/*" + c + "*/", rest, "")
  {
    var x := "/*" + c + "*/";
    var s := x + rest;
    assert s[0] == '/' && s[1] == '*';
    BlockTo(s, 2);
    FirstIn("/*", c, "*/", rest);
    LexemeTaken(x, rest, "");
  }

  /** The first occurrence of t in c + t is the first one in a + c + t + b. */
  lemma FirstIn(a: string, c: string, t: string, b: string)
    requires IndexOf(c + t, t) == |c|
    ensures IndexFrom(a + c + t + b, t, |a|) == |a| + |c|
  {
    hide IndexFrom;
    var u, s, n := c + t, a + c + t + b, |a|;
    assert s[n..n + |u|] == u;
    IndexWithin(s, n, n + |u|, t, n);
  }

  lemma BlockToEnd(c: string, cur: string)
    requires IndexOf(c, "*/") < 0
    ensures Pieces("/*" + c, 0, cur) == [cur]
  {
    var x := "/*" + c;
    assert x[0] == '/' && x[1] == '*';
    BlockTo(x, 2);
    NotIn("/*", c, "*/");
    PiecesStep(x, 0, cur);
    PiecesEnd(x, cur);
  }

  lemma NotIn(a: string, c: string, t: string)
    requires IndexOf(c, t) < 0
    ensures IndexFrom(a + c, t, |a|) < 0
  {
    hide IndexFrom;
    var s, n := a + c, |a|;
    assert s[n..|s|] == c;
    IndexWithin(s, n, |s|, t, n);
  }

  // ---- Dollar quotes ----

  /** The tag with this name. */
  function Tag(name: string): string { "$" + name + "$" }

  lemma {:induction false} NextDollar(s: string, i: nat, n: nat)
    requires i <= n <= |s| && (forall k :: i <= k < n ==> s[k] != '$') && (n < |s| ==> s[n] == '$')
    ensures IndexFrom(s, "$", i) == if n < |s| then n else -1
    decreases n - i
  {
    DollarChar(s, i);
    if i < n { NextDollar(s, i + 1, n); }
  }

  lemma DollarChar(s: string, i: nat)
    requires i <= |s|
    ensures OccursAt(s, "$", i) <==> i < |s| && s[i] == '$'
  {
    OccursHas(s, "$", i, 0);
    if i < |s| && s[i] == '$' { assert s[i..i + 1] == "$"; }
  }

  lemma TagAt(s: string, i: nat, name: string, more: string)
    requires '$' !in name && i <= |s| && s[i..] == Tag(name) + more
    ensures i < |s| && IndexFrom(s, "$", i + 1) == i + 1 + |name| && s[i..i + 2 + |name|] == Tag(name)
  {
    var t := Tag(name);
    var u := t + more;
    assert forall k :: i <= k < |s| ==> s[k] == u[k - i];
    assert forall k :: i + 1 <= k < i + 1 + |name| ==> s[k] == name[k - i - 1];
    NextDollar(s, i + 1, i + 1 + |name|);
    assert u[..|t|] == t && s[i..i + |t|] == s[i..][..|t|];
  }

  /** A dollar block ends behind the first occurrence of its own tag, whatever
      dollar signs stand before that. */
  lemma DollarCloses(p: string, name: string, body: string, rest: string)
    requires '$' !in name && IndexOf(body + Tag(name), Tag(name)) == |body|
    ensures var t := Tag(name); DollarEnd(p + (t + body + t + rest), |p|) == |p| + |t| + |body| + |t|
  {
    hide IndexFrom, DollarEnd, Tag;
    var t := Tag(name);
    var s := t + body + t + rest;
    TagLength(name);
    DollarShift(p, s, 0);
    assert s == t + (body + t + rest) && s[0..] == s;
    TagAt(s, 0, name, body + t + rest);
    FirstIn(t, body, t, rest);
    DollarIs(s, 0, 1 + |name|);
    assert s[0..|t|] == t;
  }

  lemma TagLength(name: string)
    ensures |Tag(name)| == |name| + 2
  {
  }

  /** Where the tag does not come again, or no tag is closed, the sign stands alone. */
  lemma DollarAlone(p: string, name: string, rest: string)
    requires '$' !in name && (IndexOf(rest, Tag(name)) < 0)
    ensures DollarEnd(p + (Tag(name) + rest), |p|) == |p| + 1
  {
    var t := Tag(name);
    var s := t + rest;
    DollarShift(p, s, 0);
    assert s[0..] == s;
    TagAt(s, 0, name, rest);
    NotIn(t, rest, t);
  }

  lemma DollarLast(p: string, rest: string)
    requires '$' !in rest
    ensures DollarEnd(p + ("$" + rest), |p|) == |p| + 1
  {
    var s := "$" + rest;
    DollarShift(p, s, 0);
    assert forall k :: 1 <= k < |s| ==> s[k] == rest[k - 1];
    NextDollar(s, 1, |s|);
  }

  /** A block is taken whole. */
  lemma BlockTaken(name: string, body: string, rest: string)
    requires '$' !in name && IndexOf(body + Tag(name), Tag(name)) == |body|
    ensures var x := Tag(name) + body + Tag(name); Takes(x, rest, x)
  {
    var x := Tag(name) + body + Tag(name);
    assert "" + (Tag(name) + body + Tag(name) + rest) == x + rest;
    DollarCloses("", name, body, rest);
    LexemeTaken(x, rest, x);
  }

  lemma SignTaken(name: string, rest: string)
    requires '$' !in name && IndexOf(rest, Tag(name)) < 0
    ensures Takes("$", name + "$" + rest, "$")
  {
    var s := Tag(name) + rest;
    assert "" + s == s == "$" + (name + "$" + rest);
    DollarAlone("", name, rest);
    LexemeTaken("$", name + "$" + rest, "$");
  }

  lemma LastSignTaken(rest: string)
    requires '$' !in rest
    ensures Takes("$", rest, "$")
  {
    assert "" + ("$" + rest) == "$" + rest;
    DollarLast("", rest);
    LexemeTaken("$", rest, "$");
  }

  // ---- The rest ----

  lemma SeparatorCuts(rest: string, cur: string)
    ensures Pieces(";" + rest, 0, cur) == [cur] + Pieces(rest, 0, "")
  {
    PiecesStep(";" + rest, 0, cur);
    PiecesShift(";", rest, 0, "");
  }

  /** Any other character is taken as it is; one that could open a comment, if it
      does not. */
  lemma CharTaken(c: char, rest: string)
    requires c != ';' && c != '\'' && c != '$'
    requires c == '-' ==> rest == "" || rest[0] != '-'
    requires c == '/' ==> rest == "" || rest[0] != '*'
    ensures Takes([c], rest, [c])
  {
    var s := [c] + rest;
    assert s[0] == c && (rest != "" ==> s[1] == rest[0]);
    LexemeTaken([c], rest, [c]);
  }

  lemma NothingTaken(cur: string)
    ensures Pieces("", 0, cur) == [cur]
  {
  }

  // ---- A function body that names a parameter ----

  const BODY := " $1; "

  lemma BodyText(t: string)
    requires t == BODY + Tag("")
    ensures IndexOf(t, Tag("")) == |BODY|
  {
    assert t == " $1; $$" && Tag("") == "$$";
    assert t[5..7] == "$$";
    forall j | 0 <= j < 5 ensures !OccursAt(t, "$$", j) {
      OccursHas(t, "$$", j, 0);
      OccursHas(t, "$$", j, 1);
    }
    FirstOccurrence(t, "$$", 0, 5);
  }

  /** `$$ $1; $$` is one statement. */
  lemma ParameterBody()
    ensures var s := "$$" + BODY + "$$"; Statements(s) == [s]
  {
    hide Pieces, TrimSpace, IndexFrom, Keep, BODY;
    BodyText(BODY + Tag(""));
    assert Tag("") == "$$";
    var s := "$$" + BODY + "$$";
    BlockTaken("", BODY, "");
    assert s + "" == s && "" + s == s;
    assert Pieces(s + "", 0, "") == Pieces("", 0, "" + s);
    NothingTaken(s);
    assert s[0] == '$' && s[|s| - 1] == '$';
    TrimSpaceKeepsTrimmed(s);
    KeepOne(s, []);
    assert [s] + [] == [s] && [s] + Keep([]) == [s] by { KeepNone(); }
  }

  lemma KeepNone()
    ensures Keep([]) == []
  {
  }
}
