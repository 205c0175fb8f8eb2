/** RENAME COLUMN rewrites whole words in the constraint definitions: when
    renaming back restores them, and when renames commute. */
module ColumnRename {
  import opened Text
  import opened Ast
  import opened Patterns
  import opened Positions
  import opened Catalog
  import opened Absorption

  predicate Identifier(w: string) { w != "" && forall i :: 0 <= i < |w| ==> IsWordChar(w[i]) }

  /** Word by word: every maximal run of word characters that is w, in any case,
      becomes t, and all else stays. */
  function WordsReplaced(s: string, w: string, t: string): string
    decreases |s|
  {
    if s == "" then ""
    else
      var n := NameRun(s);
      if n == 0 then [s[0]] + WordsReplaced(s[1..], w, t)
      else (if Lower(s[..n]) == Lower(w) then t else s[..n]) + WordsReplaced(s[n..], w, t)
  }

  /** As above, with the template filled in for each word it replaces. */
  function WordsExpanded(s: string, w: string, t: string): string
    decreases |s|
  {
    if s == "" then ""
    else
      var n := NameRun(s);
      if n == 0 then [s[0]] + WordsExpanded(s[1..], w, t)
      else (if Lower(s[..n]) == Lower(w) then Expand(t, s[..n]) else s[..n]) + WordsExpanded(s[n..], w, t)
  }

  // ---- The scanner replaces words ----

  lemma {:induction false} RunChars(s: string)
    ensures var n := NameRun(s);
            (forall i :: 0 <= i < n ==> IsWordChar(s[i])) && (n < |s| ==> !IsWordChar(s[n]))
  {
    if s != "" && IsWordChar(s[0]) { RunChars(s[1..]); }
  }

  lemma RunIs(s: string, n: nat)
    requires n <= |s| && (forall i :: 0 <= i < n ==> IsWordChar(s[i])) && (n < |s| ==> !IsWordChar(s[n]))
    ensures NameRun(s) == n
  {
    RunChars(s);
  }

  lemma SameWordChar(c: char)
    ensures IsWordChar(LowerChar(c)) == IsWordChar(c)
  {
  }

  lemma MatchChars(s: string, i: nat, w: string)
    requires MatchesAt(s, i, w) && Identifier(w)
    ensures forall j :: i <= j < i + |w| ==> IsWordChar(s[j])
  {
    forall j | i <= j < i + |w| ensures IsWordChar(s[j]) {
      assert Lower(s[i..i + |w|])[j - i] == Lower(w)[j - i];
      SameWordChar(s[j]);
      SameWordChar(w[j - i]);
    }
  }

  /** i starts a word: no word character before it, or none at it. */
  predicate Starts(s: string, i: nat)
    requires i <= |s|
  {
    i == 0 || !IsWordChar(s[i - 1])
  }

  lemma WordAtIsRun(s: string, i: nat, w: string)
    requires i <= |s| && Starts(s, i) && Identifier(w)
    ensures var n := NameRun(s[i..]);
            WordAt(s, i, w) <==> n > 0 && Lower(s[i..i + n]) == Lower(w)
  {
    var n := NameRun(s[i..]);
    RunChars(s[i..]);
    assert forall j :: i <= j < i + n ==> s[j] == s[i..][j - i];
    assert i + n < |s| ==> s[i + n] == s[i..][n];
    hide Lower;
    if MatchesAt(s, i, w) {
      MatchChars(s, i, w);
      if Boundary(s, i + |w|) { assert n == |w| by { NotPast(s, i, n, |w|); } }
    }
    if n > 0 && Lower(s[i..i + n]) == Lower(w) {
      assert |s[i..i + n]| == |w|;
    }
  }

  lemma NotPast(s: string, i: nat, n: nat, m: nat)
    requires i + n <= |s| && i + m <= |s| && m > 0
    requires forall j :: i <= j < i + n ==> IsWordChar(s[j])
    requires forall j :: i <= j < i + m ==> IsWordChar(s[j])
    requires (i + n < |s| ==> !IsWordChar(s[i + n])) && Boundary(s, i + m)
    ensures n == m
  {
  }

  lemma ScanStep(s: string, i: nat, w: string, t: string)
    requires i < |s| && Identifier(w)
    ensures ReplaceWordFrom(s, i, w, t) ==
            if WordAt(s, i, w) then Expand(t, s[i..i + |w|]) + ReplaceWordFrom(s, i + |w|, w, t)
            else [s[i]] + ReplaceWordFrom(s, i + 1, w, t)
  {
    hide WordAt, Expand;
    if !WordAt(s, i, w) {
      var rest := [s[i]] + ReplaceWordFrom(s, i + 1, w, t);
      assert "" + rest == rest;
    }
  }

  lemma NoBoundary(s: string, i: nat, w: string)
    requires 0 < i < |s| && IsWordChar(s[i - 1]) && IsWordChar(s[i])
    ensures !WordAt(s, i, w)
  {
  }

  lemma SliceHead(s: string, i: nat, e: nat, rest: string)
    requires i < e <= |s|
    ensures [s[i]] + (s[i + 1..e] + rest) == s[i..e] + rest
  {
    assert s[i..e] == [s[i]] + s[i + 1..e];
  }

  /** Inside a word nothing is replaced. */
  lemma {:induction false} InsideWord(s: string, j: nat, e: nat, w: string, t: string)
    requires 0 < j <= e <= |s| && Identifier(w)
    requires forall x :: j - 1 <= x < e ==> IsWordChar(s[x])
    ensures ReplaceWordFrom(s, j, w, t) == s[j..e] + ReplaceWordFrom(s, e, w, t)
    decreases e - j
  {
    hide ReplaceWordFrom, WordAt, Expand, IsWordChar;
    if j < e {
      NoBoundary(s, j, w);
      ScanStep(s, j, w, t);
      InsideWord(s, j + 1, e, w, t);
      SliceHead(s, j, e, ReplaceWordFrom(s, e, w, t));
    } else {
      assert s[j..e] + ReplaceWordFrom(s, e, w, t) == ReplaceWordFrom(s, e, w, t);
    }
  }

  lemma RunInside(s: string, i: nat)
    requires i < |s|
    ensures var e := i + NameRun(s[i..]); e <= |s| && forall x :: i <= x < e ==> IsWordChar(s[x])
  {
    RunChars(s[i..]);
    hide NameRun, IsWordChar;
    var e := i + NameRun(s[i..]);
    forall x | i <= x < e ensures IsWordChar(s[x]) { assert s[x] == s[i..][x - i]; }
  }

  /** A word at i: replaced, or kept, and the scanner goes on behind it. */
  lemma AtWord(s: string, i: nat, w: string, t: string)
    requires i < |s| && Starts(s, i) && Identifier(w) && NameRun(s[i..]) > 0
    ensures var e := i + NameRun(s[i..]);
            ReplaceWordFrom(s, i, w, t) ==
            (if Lower(s[i..e]) == Lower(w) then Expand(t, s[i..e]) else s[i..e]) + ReplaceWordFrom(s, e, w, t)
  {
    hide ReplaceWordFrom, WordAt, Expand, NameRun, IsWordChar, Starts;
    var e := i + NameRun(s[i..]);
    WordAtIsRun(s, i, w);
    ScanStep(s, i, w, t);
    if WordAt(s, i, w) {
      SameLength(s[i..e], w);
    } else {
      hide Lower;
      RunInside(s, i);
      InsideWord(s, i + 1, e, w, t);
      SliceHead(s, i, e, ReplaceWordFrom(s, e, w, t));
    }
  }

  lemma AtOther(s: string, i: nat, w: string, t: string)
    requires i < |s| && Starts(s, i) && Identifier(w) && NameRun(s[i..]) == 0
    ensures ReplaceWordFrom(s, i, w, t) == [s[i]] + ReplaceWordFrom(s, i + 1, w, t) && Starts(s, i + 1)
  {
    hide ReplaceWordFrom, WordAt, Expand;
    WordAtIsRun(s, i, w);
    ScanStep(s, i, w, t);
    RunChars(s[i..]);
    assert s[i..][0] == s[i];
  }

  lemma WordsStep(s: string, i: nat, w: string, t: string)
    requires i < |s|
    ensures var n := NameRun(s[i..]);
            WordsExpanded(s[i..], w, t) ==
            if n == 0 then [s[i]] + WordsExpanded(s[i + 1..], w, t)
            else (if Lower(s[i..i + n]) == Lower(w) then Expand(t, s[i..i + n]) else s[i..i + n]) + WordsExpanded(s[i + n..], w, t)
  {
    hide NameRun, Lower, Expand;
    var r := s[i..];
    var n := NameRun(r);
    assert r[0] == s[i] && r[1..] == s[i + 1..];
    assert r[..n] == s[i..i + n] && r[n..] == s[i + n..];
  }

  lemma ScanEnd(s: string, w: string, t: string)
    requires Identifier(w)
    ensures ReplaceWordFrom(s, |s|, w, t) == "" && WordsExpanded(s[|s|..], w, t) == ""
  {
  }

  /** The scanner's result, from a word start on, is the replacement word by word. */
  lemma {:induction false} ReplaceFromStart(s: string, i: nat, w: string, t: string)
    requires i <= |s| && Starts(s, i) && Identifier(w)
    ensures ReplaceWordFrom(s, i, w, t) == WordsExpanded(s[i..], w, t)
    decreases |s| - i
  {
    hide ReplaceWordFrom, WordsExpanded, WordAt, NameRun, Starts, IsWordChar, Lower, Identifier;
    if i == |s| {
      ScanEnd(s, w, t);
    } else {
      WordsStep(s, i, w, t);
      var n := NameRun(s[i..]);
      if n == 0 {
        AtOther(s, i, w, t);
        ReplaceFromStart(s, i + 1, w, t);
      } else {
        AtWord(s, i, w, t);
        AfterRun(s, i, n, w, t);
      }
    }
  }

  /** Past the end of a run that is not the end of the text, one more character
      brings the scanner to a word start. */
  lemma AfterRun(s: string, i: nat, n: nat, w: string, t: string)
    requires i + n <= |s| && n > 0 && n == NameRun(s[i..]) && Identifier(w)
    ensures ReplaceWordFrom(s, i + n, w, t) == WordsExpanded(s[i + n..], w, t)
    decreases |s| - i, 0
  {
    hide ReplaceWordFrom, WordsExpanded, WordAt, NameRun, IsWordChar, Lower, Identifier, Starts;
    var e := i + n;
    if e == |s| {
      ScanEnd(s, w, t);
    } else {
      RunStops(s, i, n, w);
      ScanStep(s, e, w, t);
      WordsStep(s, e, w, t);
      ReplaceFromStart(s, e + 1, w, t);
    }
  }

  lemma RunStops(s: string, i: nat, n: nat, w: string)
    requires i + n < |s| && n == NameRun(s[i..]) && Identifier(w)
    ensures Starts(s, i + n + 1) && !WordAt(s, i + n, w) && NameRun(s[i + n..]) == 0
  {
    var e := i + n;
    RunChars(s[i..]);
    assert s[e] == s[i..][n];
    if MatchesAt(s, e, w) { MatchChars(s, e, w); }
    assert s[e..][0] == s[e];
    RunIs(s[e..], 0);
  }

  /** The scanner replaces exactly the words that are w, by the filled template. */
  lemma ReplacesWords(s: string, w: string, t: string)
    requires Identifier(w)
    ensures ReplaceWord(s, w, t) == WordsExpanded(s, w, t)
  {
    ReplaceFromStart(s, 0, w, t);
    assert s[0..] == s;
  }

  /** Is w one of the words of s, in any case? */
  predicate HasWord(s: string, w: string)
    decreases |s|
  {
    s != "" &&
    var n := NameRun(s);
    if n == 0 then HasWord(s[1..], w) else Lower(s[..n]) == Lower(w) || HasWord(s[n..], w)
  }

  lemma RunIdentifier(s: string)
    requires s != "" && NameRun(s) > 0
    ensures Identifier(s[..NameRun(s)])
  {
    RunChars(s);
  }

  lemma PlainIdentifier(w: string)
    requires Identifier(w)
    ensures '$' !in w
  {
  }

  // ---- Dollar signs in the new name ----

  /** A dollar sign that the template does not keep: before another one, before a
      name, or before a name in braces. */
  predicate Reference(t: string) {
    && |t| > 1 && t[0] == '$'
    && (t[1] == '$' || IsWordChar(t[1])
        || (t[1] == '{' && var n := NameRun(t[2..]); n > 0 && 2 + n < |t| && t[2 + n] == '}'))
  }

  /** No dollar sign of the text is one of those. */
  predicate Literal(t: string) { t == "" || (!Reference(t) && Literal(t[1..])) }

  function Dollars(s: string): nat {
    if s == "" then 0 else (if s[0] == '$' then 1 else 0) + Dollars(s[1..])
  }

  lemma {:induction false} DollarsAppend(a: string, b: string)
    ensures Dollars(a + b) == Dollars(a) + Dollars(b)
  {
    if a == "" {
      assert a + b == b;
    } else {
      assert (a + b)[1..] == a[1..] + b;
      DollarsAppend(a[1..], b);
    }
  }

  lemma {:induction false} NoDollars(s: string)
    requires '$' !in s
    ensures Dollars(s) == 0
  {
    if s != "" {
      assert s[0] in s && forall c :: c in s[1..] ==> c in s;
      NoDollars(s[1..]);
    }
  }

  lemma DollarsFrom(t: string, k: nat)
    requires k <= |t|
    ensures Dollars(t) == Dollars(t[..k]) + Dollars(t[k..])
  {
    DollarsAppend(t[..k], t[k..]);
    assert t == t[..k] + t[k..];
  }

  /** One step of the template. */
  lemma ExpandStep(t: string, m: string) returns (k: nat, x: string)
    requires t != ""
    ensures 0 < k <= |t| && Expand(t, m) == x + Expand(t[k..], m)
    ensures if Reference(t) then (x == "$" && k == 2 && t[1] == '$') || x == "" || x == m else x == [t[0]] && k == 1
  {
    k, x := 1, [t[0]];
    if Reference(t) {
      if t[1] == '$' {
        k, x := 2, "$";
      } else {
        var from := if t[1] == '{' then 2 else 1;
        var n := NameRun(t[from..]);
        k := from + n + if t[1] == '{' then 1 else 0;
        RunChars(t[from..]);
        assert from == 1 ==> t[from..][0] == t[1];
        x := if t[from..from + n] == "0" then m else "";
      }
    } else if t[0] == '$' && |t| > 1 && t[1] != '{' {
      assert t[1..][0] == t[1];
    }
  }

  /** Filling in loses no dollar sign exactly when there is none to lose. */
  lemma {:induction false} ExpandDollars(t: string, m: string)
    requires '$' !in m
    ensures if Literal(t) then Expand(t, m) == t else Dollars(Expand(t, m)) < Dollars(t)
    ensures Dollars(Expand(t, m)) <= Dollars(t)
    decreases |t|
  {
    hide Expand, Reference;
    if t != "" {
      var k, x := ExpandStep(t, m);
      NoDollars(m);
      if Reference(t) {
        ExpandDollars(t[k..], m);
        DollarsAppend(x, Expand(t[k..], m));
        DollarsFrom(t, k);
        HeadDollars(t, k);
      } else {
        ExpandDollars(t[1..], m);
        DollarsAppend([t[0]], Expand(t[1..], m));
        DollarsFrom(t, 1);
        assert t == [t[0]] + t[1..] && t[..1] == [t[0]];
      }
    } else {
      EmptyTemplate(m);
    }
  }

  lemma EmptyTemplate(m: string)
    ensures Expand("", m) == ""
  {
  }

  lemma HeadDollars(t: string, k: nat)
    requires Reference(t) && 0 < k <= |t|
    ensures Dollars(t[..k]) > 0 && (k == 2 && t[1] == '$' ==> Dollars(t[..k]) == 2) && Dollars("$") == 1 && Dollars("") == 0
  {
    assert t[..k][0] == '$';
    assert "$"[1..] == "";
    if k == 2 && t[1] == '$' {
      assert t[..k] == "$" + "$";
      DollarsAppend("$", "$");
    }
  }

  /** A template stands for itself exactly when it is literal. */
  lemma LiteralExactly(t: string, m: string)
    requires '$' !in m
    ensures Expand(t, m) == t <==> Literal(t)
  {
    ExpandDollars(t, m);
    hide Expand, Literal, Dollars;
  }

  lemma {:induction false} ExpandedDollars(s: string, w: string, t: string)
    requires Identifier(w) && !Literal(t)
    ensures Dollars(WordsExpanded(s, w, t)) <= Dollars(WordsReplaced(s, w, t))
    ensures HasWord(s, w) ==> Dollars(WordsExpanded(s, w, t)) < Dollars(WordsReplaced(s, w, t))
    decreases |s|
  {
    hide Dollars, Expand, Literal, Lower;
    if s != "" {
      var n := NameRun(s);
      if n == 0 {
        ExpandedDollars(s[1..], w, t);
        DollarsAppend([s[0]], WordsExpanded(s[1..], w, t));
        DollarsAppend([s[0]], WordsReplaced(s[1..], w, t));
      } else {
        var word := s[..n];
        RunIdentifier(s);
        PlainIdentifier(word);
        ExpandDollars(t, word);
        ExpandedDollars(s[n..], w, t);
        DollarsAppend(if Lower(word) == Lower(w) then Expand(t, word) else word, WordsExpanded(s[n..], w, t));
        DollarsAppend(if Lower(word) == Lower(w) then t else word, WordsReplaced(s[n..], w, t));
      }
    }
  }

  lemma {:induction false} SameWords(s: string, w: string, t: string)
    requires Literal(t) || !HasWord(s, w)
    ensures WordsExpanded(s, w, t) == WordsReplaced(s, w, t)
    decreases |s|
  {
    hide Expand, Literal, Lower;
    if s != "" {
      var n := NameRun(s);
      if n == 0 {
        SameWords(s[1..], w, t);
      } else {
        RunIdentifier(s);
        PlainIdentifier(s[..n]);
        if Literal(t) { LiteralExactly(t, s[..n]); }
        SameWords(s[n..], w, t);
      }
    }
  }

  /** The scanner writes the new name for every word that is the old one, and
      changes nothing else, exactly when no dollar sign of the new name is filled
      in, or the old name is not among the words. */
  lemma ReplacesExactly(s: string, w: string, t: string)
    requires Identifier(w)
    ensures ReplaceWord(s, w, t) == WordsReplaced(s, w, t) <==> Literal(t) || !HasWord(s, w)
  {
    hide ReplaceWord, WordsReplaced, WordsExpanded, Literal, HasWord, Dollars;
    ReplacesWords(s, w, t);
    if Literal(t) || !HasWord(s, w) { SameWords(s, w, t); } else { ExpandedDollars(s, w, t); }
  }

  lemma {:induction false} IdentifierLiteral(t: string)
    requires '$' !in t
    ensures Literal(t)
  {
    if t != "" {
      assert t[0] in t && forall c :: c in t[1..] ==> c in t;
      IdentifierLiteral(t[1..]);
    }
  }

  lemma IdentifierReplaced(s: string, w: string, t: string)
    requires Identifier(w) && Identifier(t)
    ensures ReplaceWord(s, w, t) == WordsReplaced(s, w, t)
  {
    PlainIdentifier(t);
    IdentifierLiteral(t);
    ReplacesExactly(s, w, t);
  }

  // ---- Quoted names ----

  predicate Quoted(w: string) { w != "" && !IsWordChar(w[0]) && !IsWordChar(w[|w| - 1]) }

  /** An occurrence with a word character on either side. */
  predicate Glued(s: string, i: nat, w: string) {
    MatchesAt(s, i, w) && i > 0 && IsWordChar(s[i - 1]) && i + |w| < |s| && IsWordChar(s[i + |w|])
  }

  /** A quoted name is seen where word characters enclose it, and nowhere else. */
  lemma QuotedSeen(s: string, i: nat, w: string)
    requires Quoted(w)
    ensures WordAt(s, i, w) <==> Glued(s, i, w)
  {
    var n := |w| - 1;
    MatchHas(s, i, w, 0);
    MatchHas(s, i, w, n);
    SameWordChar(w[0]);
    SameWordChar(w[n]);
    hide MatchesAt, IsWordChar, LowerChar;
    if MatchesAt(s, i, w) {
      SameWordChar(s[i]);
      SameWordChar(s[i + n]);
    }
  }

  lemma {:induction false} UnseenKept(s: string, i: nat, w: string, t: string)
    requires i <= |s| && forall j :: i <= j <= |s| ==> !WordAt(s, j, w)
    ensures ReplaceWordFrom(s, i, w, t) == s[i..]
    decreases |s| - i
  {
    hide WordAt, Expand;
    if i < |s| {
      UnseenKept(s, i + 1, w, t);
      assert s[i..] == [s[i]] + s[i + 1..];
      assert "" + s[i..] == s[i..];
    }
  }

  lemma {:induction false} PlainExpand(t: string, m: string)
    requires '$' !in t
    ensures Expand(t, m) == t
  {
    hide NameRun;
    if t != "" {
      assert t[0] in t && forall c :: c in t[1..] ==> c in t;
      PlainExpand(t[1..], m);
      PlainStep(t, m);
      hide Expand;
      assert [t[0]] + t[1..] == t;
    }
  }

  lemma PlainStep(t: string, m: string)
    requires t != "" && t[0] != '$'
    ensures Expand(t, m) == [t[0]] + Expand(t[1..], m)
  {
  }

  lemma SeenHere(s: string, i: nat, w: string, t: string)
    requires i <= |s| && WordAt(s, i, w) && '$' !in t
    ensures |ReplaceWordFrom(s, i, w, t)| >= |t|
  {
    hide Boundary, Expand;
    PlainExpand(t, s[i..i + |w|]);
    PlainExpand(t, "");
  }

  /** One place that is seen takes the whole template into the text. */
  lemma {:induction false} SeenLengthens(s: string, i: nat, j: nat, w: string, t: string)
    requires i <= j <= |s| && WordAt(s, j, w) && '$' !in t
    ensures |ReplaceWordFrom(s, i, w, t)| >= |t|
    decreases j - i
  {
    hide WordAt, Expand;
    if WordAt(s, i, w) {
      SeenHere(s, i, w, t);
    } else {
      SeenLengthens(s, i + 1, j, w, t);
    }
  }

  lemma LongerTemplate(s: string) returns (t: string)
    ensures |t| > |s| && '$' !in t
  {
    t := seq(|s| + 1, _ => 'x');
  }

  /** A text keeps a quoted old name, whatever the new name, exactly when no
      occurrence of it stands between two word characters. */
  lemma QuotedKept(s: string, w: string)
    requires Quoted(w)
    ensures (forall t :: ReplaceWord(s, w, t) == s) <==> forall i :: 0 <= i <= |s| ==> !Glued(s, i, w)
  {
    hide Quoted, Glued, WordAt, ReplaceWordFrom;
    if i :| 0 <= i <= |s| && Glued(s, i, w) {
      QuotedSeen(s, i, w);
      var t := LongerTemplate(s);
      SeenLengthens(s, 0, i, w, t);
      assert ReplaceWord(s, w, t) != s;
    } else {
      forall i | 0 <= i <= |s| ensures !WordAt(s, i, w) { QuotedSeen(s, i, w); }
      forall t ensures ReplaceWord(s, w, t) == s {
        UnseenKept(s, 0, w, t);
        assert s[0..] == s;
      }
    }
  }

  const QUOTED_A := "\"a\""

  const CHECK_A := "CHECK (\"a\" > 0)"

  lemma CheckText(i: nat)
    ensures !Glued(CHECK_A, i, QUOTED_A)
  {
    MatchHas(CHECK_A, i, QUOTED_A, 0);
    hide MatchesAt;
    if i < |CHECK_A| && i > 0 && CHECK_A[i] == '"' { assert !IsWordChar(CHECK_A[i - 1]) || !IsWordChar(CHECK_A[i + 1]); }
  }

  /** Renaming the column "a" leaves CHECK ("a" > 0) with the old name. */
  lemma CheckKept(name: string, newName: string)
    ensures var cs := [Constraint(name, CHECK_A)]; RenameInConstraints(cs, QUOTED_A, newName) == cs
  {
    hide ReplaceWord, Glued;
    forall i: nat ensures !Glued(CHECK_A, i, QUOTED_A) { CheckText(i); }
    QuotedKept(CHECK_A, QUOTED_A);
    assert ReplaceWord(CHECK_A, QUOTED_A, newName) == CHECK_A;
  }

  // ---- Renaming there and back ----

  lemma WordThen(word: string, rest: string)
    requires Identifier(word) && (rest != "" ==> !IsWordChar(rest[0]))
    ensures NameRun(word + rest) == |word| && (word + rest)[..|word|] == word && (word + rest)[|word|..] == rest
  {
    var s := word + rest;
    assert forall i :: 0 <= i < |word| ==> s[i] == word[i];
    assert rest != "" ==> s[|word|] == rest[0];
    RunIs(s, |word|);
  }

  lemma OtherThen(c: char, rest: string)
    requires !IsWordChar(c)
    ensures var s := [c] + rest; NameRun(s) == 0 && s[0] == c && s[1..] == rest
  {
  }

  /** What follows a word starts with no word character, after replacing too. */
  lemma RestStarts(s: string, w: string, t: string)
    requires s != "" && NameRun(s) > 0
    ensures var rest := WordsReplaced(s[NameRun(s)..], w, t); rest != "" ==> !IsWordChar(rest[0])
  {
    var n := NameRun(s);
    RunChars(s);
    if n < |s| {
      assert s[n..][0] == s[n];
      RunIs(s[n..], 0);
    }
  }

  /** The two words of a definition after a and b have both become a. */
  function Merged(s: string, a: string, b: string): string
    decreases |s|
  {
    if s == "" then ""
    else
      var n := NameRun(s);
      if n == 0 then [s[0]] + Merged(s[1..], a, b)
      else (if Lower(s[..n]) == Lower(a) || Lower(s[..n]) == Lower(b) then a else s[..n]) + Merged(s[n..], a, b)
  }

  /** One word: unfolding a replacement at it. */
  lemma ReplaceAtWord(word: string, rest: string, w: string, t: string)
    requires Identifier(word) && (rest != "" ==> !IsWordChar(rest[0]))
    ensures WordsReplaced(word + rest, w, t) == (if Lower(word) == Lower(w) then t else word) + WordsReplaced(rest, w, t)
  {
    WordThen(word, rest);
  }

  lemma {:induction false} ReplaceTwice(s: string, a: string, b: string)
    requires Identifier(a) && Identifier(b)
    ensures WordsReplaced(WordsReplaced(s, a, b), b, a) == Merged(s, a, b)
    decreases |s|
  {
    if s != "" {
      var n := NameRun(s);
      if n == 0 {
        RunChars(s);
        ReplaceTwice(s[1..], a, b);
        OtherThen(s[0], WordsReplaced(s[1..], a, b));
      } else {
        var word, rest := s[..n], WordsReplaced(s[n..], a, b);
        ReplaceTwice(s[n..], a, b);
        RestStarts(s, a, b);
        RunIdentifier(s);
        ReplaceAtWord(if Lower(word) == Lower(a) then b else word, rest, b, a);
      }
    }
  }

  lemma LowerAppend(x: string, y: string)
    ensures Lower(x + y) == Lower(x) + Lower(y)
  {
  }

  lemma SameLength(x: string, y: string)
    ensures Lower(x) == Lower(y) ==> |x| == |y|
  {
    assert |x| == |Lower(x)| && |y| == |Lower(y)|;
  }

  lemma LowerRun(s: string, r: string)
    requires Lower(s) == Lower(r)
    ensures NameRun(s) == NameRun(r)
  {
    var n := NameRun(s);
    RunChars(s);
    assert |s| == |Lower(s)| == |Lower(r)| == |r|;
    forall i | 0 <= i < |s| ensures IsWordChar(s[i]) == IsWordChar(r[i]) {
      assert LowerChar(s[i]) == Lower(s)[i] == Lower(r)[i] == LowerChar(r[i]);
      SameWordChar(s[i]);
      SameWordChar(r[i]);
    }
    RunIs(r, n);
  }

  lemma LowerParts(x: string, y: string, u: string, v: string)
    requires |x| == |u|
    ensures Lower(x + y) == Lower(u + v) <==> Lower(x) == Lower(u) && Lower(y) == Lower(v)
  {
    LowerAppend(x, y);
    LowerAppend(u, v);
    if Lower(x + y) == Lower(u + v) {
      assert Lower(x + y)[..|x|] == Lower(x) && Lower(u + v)[..|u|] == Lower(u);
      assert Lower(x + y)[|x|..] == Lower(y) && Lower(u + v)[|u|..] == Lower(v);
    }
  }

  lemma RunsDiffer(s: string, r: string)
    requires NameRun(s) != NameRun(r)
    ensures Lower(s) != Lower(r)
  {
    if Lower(s) == Lower(r) { LowerRun(s, r); }
  }

  lemma MergedStarts(s: string, a: string, b: string)
    requires s != "" && NameRun(s) > 0
    ensures var rest := Merged(s[NameRun(s)..], a, b); rest != "" ==> !IsWordChar(rest[0])
  {
    var n := NameRun(s);
    RunChars(s);
    if n < |s| {
      assert s[n..][0] == s[n];
      RunIs(s[n..], 0);
    }
  }

  /** Merging keeps the text up to case exactly when b was not among its words. */
  lemma {:induction false} MergedIs(s: string, a: string, b: string)
    requires Identifier(a) && Identifier(b) && Lower(a) != Lower(b)
    ensures Lower(Merged(s, a, b)) == Lower(s) <==> !HasWord(s, b)
    decreases |s|
  {
    if s != "" {
      var n := NameRun(s);
      if n == 0 {
        MergedIs(s[1..], a, b);
        LowerParts([s[0]], Merged(s[1..], a, b), [s[0]], s[1..]);
        assert s == [s[0]] + s[1..];
      } else {
        var word, rest := s[..n], Merged(s[n..], a, b);
        var word' := if Lower(word) == Lower(a) || Lower(word) == Lower(b) then a else word;
        MergedIs(s[n..], a, b);
        MergedStarts(s, a, b);
        RunIdentifier(s);
        assert s == word + s[n..];
        WordThen(word', rest);
        if |word'| == n {
          LowerParts(word', rest, word, s[n..]);
        } else {
          SameLength(word, a);
          RunsDiffer(word' + rest, s);
        }
      }
    }
  }

  /** Renaming a to b and back restores a definition, up to the case of a's
      occurrences, exactly when b was not one of its words. */
  lemma RenamedBack(s: string, a: string, b: string)
    requires Identifier(a) && Identifier(b) && Lower(a) != Lower(b)
    ensures Lower(ReplaceWord(ReplaceWord(s, a, b), b, a)) == Lower(s) <==> !HasWord(s, b)
  {
    IdentifierReplaced(s, a, b);
    IdentifierReplaced(ReplaceWord(s, a, b), b, a);
    ReplaceTwice(s, a, b);
    MergedIs(s, a, b);
    hide ReplaceWord, WordsReplaced, HasWord, Merged, Lower;
  }

  lemma {:induction false} ReplacesCommute(s: string, a: string, b: string, c: string, d: string)
    requires Identifier(a) && Identifier(b) && Identifier(c) && Identifier(d)
    requires Lower(a) != Lower(c) && Lower(b) != Lower(c) && Lower(d) != Lower(a)
    ensures WordsReplaced(WordsReplaced(s, a, b), c, d) == WordsReplaced(WordsReplaced(s, c, d), a, b)
    decreases |s|
  {
    if s != "" {
      var n := NameRun(s);
      if n == 0 {
        RunChars(s);
        ReplacesCommute(s[1..], a, b, c, d);
        OtherThen(s[0], WordsReplaced(s[1..], a, b));
        OtherThen(s[0], WordsReplaced(s[1..], c, d));
      } else {
        var word, x, y := s[..n], WordsReplaced(s[n..], a, b), WordsReplaced(s[n..], c, d);
        ReplacesCommute(s[n..], a, b, c, d);
        RestStarts(s, a, b);
        RestStarts(s, c, d);
        RunIdentifier(s);
        ReplaceAtWord(if Lower(word) == Lower(a) then b else word, x, c, d);
        ReplaceAtWord(if Lower(word) == Lower(c) then d else word, y, a, b);
      }
    }
  }

  // ---- Columns ----

  lemma {:induction false} NoQuotes(s: string)
    requires Identifier(s)
    ensures TrimQuotesLeft(s) == s && TrimQuotesRight(s) == s && Trimmed(s)
  {
  }

  /** The key of an identifier is its lower-case form. */
  lemma IdentifierKey(w: string)
    requires Identifier(w)
    ensures NormIdent(w) == Lower(w)
  {
    NoQuotes(w);
    TrimSpaceKeepsTrimmed(w);
  }

  /** RENAME COLUMN a TO b on a table that has a at position i. */
  function RenamedAt(t: TableDef, i: nat, a: string, b: string): TableDef
    requires i < |t.columns|
  {
    t.(constraints := RenameInConstraints(t.constraints, a, b), columns := t.columns[i := t.columns[i].(name := b)])
  }

  lemma RenameApplies(t: TableDef, a: string, b: string)
    requires Find(ColumnKeys(t.columns), NormIdent(a)) >= 0
    ensures TableAction(t, RenameColumn(a, b)) == Changed(RenamedAt(t, Find(ColumnKeys(t.columns), NormIdent(a)), a, b))
  {
    hide NormIdent, FindFrom, RenameInConstraints;
  }

  lemma RenamedKeys(t: TableDef, i: nat, a: string, b: string)
    requires i < |t.columns|
    ensures ColumnKeys(RenamedAt(t, i, a, b).columns) == ColumnKeys(t.columns)[i := NormIdent(b)]
  {
    hide NormIdent, RenameInConstraints;
  }

  /** r is t with column i called a, and with each definition the same up to
      case exactly when b was not one of its words. */
  ghost predicate Restored(t: TableDef, r: TableDef, i: nat, a: string, b: string)
    requires i < |t.columns|
  {
    && |r.constraints| == |t.constraints|
    && r == t.(columns := t.columns[i := t.columns[i].(name := a)], constraints := r.constraints)
    && forall n :: 0 <= n < |t.constraints| ==>
         var was, now := t.constraints[n], r.constraints[n];
         now.name == was.name && (Lower(now.definition) == Lower(was.definition) <==> !HasWord(was.definition, b))
  }

  lemma RestoredBoth(t: TableDef, i: nat, a: string, b: string)
    requires Identifier(a) && Identifier(b) && Lower(a) != Lower(b) && i < |t.columns|
    ensures Restored(t, RenamedAt(RenamedAt(t, i, a, b), i, b, a), i, a, b)
  {
    var r := RenamedAt(RenamedAt(t, i, a, b), i, b, a);
    forall n | 0 <= n < |t.constraints|
      ensures r.constraints[n].definition == ReplaceWord(ReplaceWord(t.constraints[n].definition, a, b), b, a)
      ensures Lower(r.constraints[n].definition) == Lower(t.constraints[n].definition)
              <==> !HasWord(t.constraints[n].definition, b)
    {
      RenamedBack(t.constraints[n].definition, a, b);
    }
    hide ReplaceWord, Identifier;
    assert r.columns == t.columns[i := t.columns[i].(name := a)];
  }

  lemma BackApplies(t: TableDef, a: string, b: string)
    requires Find(ColumnKeys(t.columns), NormIdent(a)) >= 0 && NormIdent(b) !in ColumnKeys(t.columns)
    ensures var i := Find(ColumnKeys(t.columns), NormIdent(a));
            var there := TableAction(t, RenameColumn(a, b));
            there.Changed? &&
            TableAction(there.value, RenameColumn(b, a)) == Changed(RenamedAt(RenamedAt(t, i, a, b), i, b, a))
  {
    var keys, i := ColumnKeys(t.columns), Find(ColumnKeys(t.columns), NormIdent(a));
    RenameApplies(t, a, b);
    RenamedKeys(t, i, a, b);
    hide TableAction, NormIdent, FindFrom, ColumnKeys, RenameInConstraints;
    FindIs(keys[i := NormIdent(b)], NormIdent(b), i);
    RenameApplies(RenamedAt(t, i, a, b), b, a);
  }

  /** Renaming a column to a free name and back succeeds, restores the columns,
      and restores a definition up to case exactly when the free name was not
      one of its words. */
  lemma RenameColumnBack(t: TableDef, a: string, b: string)
    requires Identifier(a) && Identifier(b) && Lower(a) != Lower(b)
    requires NormIdent(a) in ColumnKeys(t.columns) && NormIdent(b) !in ColumnKeys(t.columns)
    ensures var i := Find(ColumnKeys(t.columns), NormIdent(a));
            var there := TableAction(t, RenameColumn(a, b));
            i >= 0 && there.Changed? &&
            var back := TableAction(there.value, RenameColumn(b, a));
            back.Changed? && Restored(t, back.value, i, a, b)
  {
    FindMember(ColumnKeys(t.columns), NormIdent(a));
    assert |ColumnKeys(t.columns)| == |t.columns|;
    hide TableAction, NormIdent, FindFrom, ColumnKeys, Restored, RenamedAt, Lower, Identifier;
    BackApplies(t, a, b);
    RestoredBoth(t, Find(ColumnKeys(t.columns), NormIdent(a)), a, b);
  }

  lemma OtherFound(keys: seq<string>, i: nat, k: string, j: string)
    requires i < |keys| && Find(keys, j) >= 0 && Find(keys, j) != i && k != j
    ensures Find(keys[i := k], j) == Find(keys, j)
  {
    FindFromLeast(keys, j, 0);
    FindIs(keys[i := k], j, Find(keys, j));
  }

  lemma CommuteApplies(t: TableDef, a: string, b: string, c: string, d: string)
    requires Find(ColumnKeys(t.columns), NormIdent(a)) >= 0 && Find(ColumnKeys(t.columns), NormIdent(c)) >= 0
    requires NormIdent(a) != NormIdent(c) && NormIdent(b) != NormIdent(c)
    ensures var i, j := Find(ColumnKeys(t.columns), NormIdent(a)), Find(ColumnKeys(t.columns), NormIdent(c));
            var first := TableAction(t, RenameColumn(a, b));
            && i != j && first.Changed?
            && TableAction(first.value, RenameColumn(c, d)) == Changed(RenamedAt(RenamedAt(t, i, a, b), j, c, d))
  {
    var i, j := Find(ColumnKeys(t.columns), NormIdent(a)), Find(ColumnKeys(t.columns), NormIdent(c));
    RenameApplies(t, a, b);
    RenamedKeys(t, i, a, b);
    hide NormIdent, FindFrom, RenameInConstraints, TableAction, ColumnKeys;
    OtherFound(ColumnKeys(t.columns), i, NormIdent(b), NormIdent(c));
    RenameApplies(RenamedAt(t, i, a, b), c, d);
  }

  lemma ConstraintsCommute(cs: seq<Constraint>, a: string, b: string, c: string, d: string)
    requires Identifier(a) && Identifier(b) && Identifier(c) && Identifier(d)
    requires Lower(a) != Lower(c) && Lower(b) != Lower(c) && Lower(d) != Lower(a)
    ensures RenameInConstraints(RenameInConstraints(cs, a, b), c, d) == RenameInConstraints(RenameInConstraints(cs, c, d), a, b)
  {
    forall n | 0 <= n < |cs|
      ensures ReplaceWord(ReplaceWord(cs[n].definition, a, b), c, d) == ReplaceWord(ReplaceWord(cs[n].definition, c, d), a, b)
    {
      var s := cs[n].definition;
      IdentifierReplaced(s, a, b);
      IdentifierReplaced(s, c, d);
      IdentifierReplaced(ReplaceWord(s, a, b), c, d);
      IdentifierReplaced(ReplaceWord(s, c, d), a, b);
      ReplacesCommute(s, a, b, c, d);
    }
    hide ReplaceWord, Identifier, Lower;
  }

  lemma BothRenamed(t: TableDef, i: nat, j: nat, a: string, b: string, c: string, d: string)
    requires Identifier(a) && Identifier(b) && Identifier(c) && Identifier(d)
    requires Lower(a) != Lower(c) && Lower(b) != Lower(c) && Lower(d) != Lower(a)
    requires i < |t.columns| && j < |t.columns| && i != j
    ensures RenamedAt(RenamedAt(t, i, a, b), j, c, d) == RenamedAt(RenamedAt(t, j, c, d), i, a, b)
  {
    ConstraintsCommute(t.constraints, a, b, c, d);
    hide RenameInConstraints, Identifier, Lower;
  }

  /** Renames of two columns to names that neither has commute. */
  lemma RenamesCommute(t: TableDef, a: string, b: string, c: string, d: string)
    requires Identifier(a) && Identifier(b) && Identifier(c) && Identifier(d)
    requires Lower(a) != Lower(c) && Lower(b) != Lower(c) && Lower(d) != Lower(a)
    requires NormIdent(a) in ColumnKeys(t.columns) && NormIdent(c) in ColumnKeys(t.columns)
    ensures var x, y := TableAction(t, RenameColumn(a, b)), TableAction(t, RenameColumn(c, d));
            && x.Changed? && y.Changed? && TableAction(x.value, RenameColumn(c, d)).Changed?
            && TableAction(x.value, RenameColumn(c, d)) == TableAction(y.value, RenameColumn(a, b))
  {
    FindMember(ColumnKeys(t.columns), NormIdent(a));
    FindMember(ColumnKeys(t.columns), NormIdent(c));
    IdentifierKey(a);
    IdentifierKey(b);
    IdentifierKey(c);
    IdentifierKey(d);
    hide NormIdent, FindFrom, RenameInConstraints, TableAction, ColumnKeys, Identifier, Lower;
    CommuteApplies(t, a, b, c, d);
    CommuteApplies(t, c, d, a, b);
    hide RenamedAt;
    BothRenamed(t, Find(ColumnKeys(t.columns), NormIdent(a)), Find(ColumnKeys(t.columns), NormIdent(c)), a, b, c, d);
  }
}
