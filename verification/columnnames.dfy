/** How a column definition begins: plain and double-quoted names. */
module ColumnNames {
  import opened Text
  import opened Ast
  import opened Columns
  import ColumnPrint

  lemma AppendSpace(a: string, b: string)
    requires AllSpace(a) && AllSpace(b)
    ensures AllSpace(a + b)
  {
  }

  /** White space around a text does not change what trimming leaves. */
  lemma TrimPadded(a: string, x: string, b: string)
    requires AllSpace(a) && AllSpace(b)
    ensures TrimSpace(a + x + b) == TrimSpace(x)
  {
    hide TrimSpace, AllSpace;
    var i, j := TrimSpaceCuts(x);
    var core := x[i..j];
    AppendSpace(a, x[..i]);
    AppendSpace(x[j..], b);
    TrimSpaceUnpads(a + x[..i], core, x[j..] + b);
    assert x == x[..i] + core + x[j..];
    assert a + x + b == a + x[..i] + core + (x[j..] + b);
  }

  /** Trimming a text that begins and goes on with visible text h leaves h, and
      behind it nothing but what trimming the rest leaves. */
  lemma TrimBehind(h: string, c: string) returns (tail: string)
    requires h != "" && !IsSpace(h[0]) && !IsSpace(h[|h| - 1])
    ensures TrimSpace(h + c) == h + tail && TrimSpace(tail) == TrimSpace(c)
    ensures tail != "" ==> c != "" && tail[0] == c[0]
    ensures |tail| <= |c|
  {
    hide TrimSpace;
    var t := h + c;
    var i, j := TrimSpaceCuts(t);
    OuterSpace(t, i, j);
    assert t[0] == h[0] && t[|h| - 1] == h[|h| - 1];
    assert i == 0 && j >= |h|;
    tail := t[|h|..j];
    assert t[0..j] == h + tail && c == tail + t[j..];
    assert AllSpace("");
    TrimPadded("", tail, t[j..]);
    assert "" + tail + t[j..] == c;
  }

  lemma SeparatorSpace(w: char)
    requires w in {' ', '\t', '\n'}
    ensures EndsIdent(w) && IsSpace(w) && AllSpace([w])
  {
  }

  lemma {:induction false} IdentTo(s: string, i: nat, n: nat)
    requires i <= n <= |s| && (forall k :: i <= k < n ==> !EndsIdent(s[k])) && (n < |s| ==> EndsIdent(s[n]))
    ensures IdentEnd(s, i) == n
    decreases n - i
  {
    if i < n { IdentTo(s, i + 1, n); }
  }

  lemma VisibleRun(h: string, k: nat)
    requires k < |h| && forall i :: 0 <= i < |h| ==> !IsSpace(h[i])
    ensures !EndsIdent(h[k])
  {
  }

  /** A plain name ends at the first blank, tab or line break. */
  lemma PlainName(name: string, w: char, c: string)
    requires name != "" && name[0] != '"' && (forall i :: 0 <= i < |name| ==> !IsSpace(name[i])) && w in {' ', '\t', '\n'}
    ensures ParseColumn(name + [w] + c) == Parsed(ParseClauses(name, TrimSpace(c)))
  {
    hide TrimSpace, IsSpace, ParseClauses;
    SeparatorSpace(w);
    var tail := TrimBehind(name, [w] + c);
    AssociateThree(name, [w], c);
    var s := name + tail;
    TrimPadded([w], c, "");
    assert [w] + c + "" == [w] + c;
    TrimAgain(name + ([w] + c));
    forall k | 0 <= k < |name| ensures !EndsIdent(s[k]) { VisibleRun(name, k); }
    IdentTo(s, 0, |name|);
    assert s[|name|..] == tail && s[..|name|] == name;
    if tail == "" { assert s == name; EmptyTrim(tail); }
  }

  lemma EmptyTrim(t: string)
    requires t == ""
    ensures TrimSpace(t) == ""
  {
  }

  lemma TrimAgain(t: string)
    ensures TrimSpace(TrimSpace(t)) == TrimSpace(t)
  {
    var i, j := TrimSpaceCuts(t);
    TrimSpaceKeepsTrimmed(TrimSpace(t));
  }

  lemma FirstQuote(n: string, rest: string)
    requires '"' !in n
    ensures IndexOf(n + "\"" + rest, "\"") == |n|
  {
    var s := n + "\"" + rest;
    assert s[|n|..|n| + 1] == "\"";
    forall j | 0 <= j < |n| ensures !OccursAt(s, "\"", j) { OccursHas(s, "\"", j, 0); }
    FirstOccurrence(s, "\"", 0, |n|);
  }

  lemma NoQuote(n: string)
    requires '"' !in n
    ensures IndexOf(n, "\"") == -1
  {
    IndexFromFirst(n, "\"", 0);
    var r := IndexOf(n, "\"");
    if r >= 0 { OccursHas(n, "\"", r, 0); }
  }

  /** Around a quoted name. */
  lemma QuotedIdent(n: string, c: string)
    requires '"' !in n
    ensures var s := TrimSpace("\"" + n + "\"" + c);
            s != "" && ExtractIdent(s) == (n, TrimSpace(c))
  {
    hide TrimSpace;
    var h := "\"" + n + "\"";
    assert h[0] == '"' && h[|h| - 1] == '"';
    var tail := TrimBehind(h, c);
    TrimAgain(h + c);
    var s := h + tail;
    FirstQuote(n, tail);
    assert s[0] == '"' && s[1..] == n + "\"" + tail;
    assert s[1..|n| + 1] == n && s[|n| + 2..] == tail;
  }

  /** What stands between double quotes is the name, white space included, and the
      rest is read as behind a plain name. */
  lemma QuotedName(n: string, c: string)
    requires '"' !in n && n != ""
    ensures ParseColumn("\"" + n + "\" " + c) == Parsed(ParseClauses(n, TrimSpace(c)))
    ensures ParseColumn("x " + c) == Parsed(ParseClauses("x", TrimSpace(c)))
    ensures ParseColumn("\"" + n + "\" " + c) == Parsed(ParseColumn("x " + c).column.(name := n))
  {
    var h := "\"" + n + "\"";
    assert AllSpace(" ") && AllSpace("");
    assert "\"" + n + "\" " + c == h + (" " + c);
    assert "x " + c == "x" + [' '] + c;
    PlainName("x", ' ', c);
    hide TrimSpace, ExtractIdent;
    QuotedIdent(n, " " + c);
    TrimPadded(" ", c, "");
    assert " " + c + "" == " " + c;
  }

  /** No text, an empty name, and a quote that is not closed. */
  lemma UnusualNames(n: string, c: string)
    requires '"' !in n && Trimmed("\"" + n)
    ensures AllSpace(c) ==> ParseColumn(c) == EmptyDefinition
    ensures ParseColumn("\"\"" + c) == NoName
    ensures ParseColumn("\"" + n) == if n == "" then NoName else Parsed(ParseClauses(n, ""))
  {
    QuotedIdent("", c);
    assert "\"" + "" + "\"" + c == "\"\"" + c;
    if AllSpace(c) {
      assert AllSpace("");
      TrimSpaceUnpads(c, "", "");
      assert c + "" + "" == c;
    }
    var s := "\"" + n;
    TrimSpaceKeepsTrimmed(s);
    NoQuote(n);
    assert s[1..] == n;
  }

  // ---- The keywords ----

  /** The words that end a type, and those that end a default. */
  const TYPE_ENDS := {"PRIMARY KEY", "REFERENCES ", "UNIQUE", "CHECK ", "GENERATED ", "COMPRESSION ", "STORAGE "}

  const VALUE_ENDS := {"PRIMARY KEY", "REFERENCES ", "UNIQUE", "CHECK ", "GENERATED "}

  lemma KeywordText(w: string, rest: string, words: seq<string>)
    requires w in words && Upper(w) == w
    ensures ColumnPrint.BeginsWith(w + rest, words)
  {
    var l := w + rest;
    assert Upper(l)[0..|w|] == Upper(w);
  }

  /** The type ends at each of these words, and they begin the constraints. */
  lemma TypeEndsAt(t: string, w: string, rest: string)
    requires w in TYPE_ENDS
    requires ColumnPrint.Solid(t) && ColumnPrint.FreeOfClauses(t) && Trimmed(w + rest)
    ensures var (dataType, inline) := SplitTypeAndConstraints(t + " " + (w + rest));
            TrimSpace(dataType) == t && inline == w + rest
  {
    hide ColumnPrint.FreeOfClauses, Upper, TrimSpace, SplitTypeAndConstraints, Trimmed, TYPE_ENDS, CLAUSE_WORDS;
    Capitals(w);
    var l := w + rest;
    assert l != "";
    KeywordText(w, rest, CLAUSE_WORDS);
    ColumnPrint.ReadsType(t, "", l);
    assert t + "" + (" " + l) == t + " " + l;
  }

  lemma Capitals(w: string)
    requires w in TYPE_ENDS
    ensures Upper(w) == w && w != "" && w in CLAUSE_WORDS
  {
  }

  /** A default ends at each of these words. */
  lemma DefaultEndsAt(d: string, w: string, rest: string)
    requires w in VALUE_ENDS
    requires ColumnPrint.Solid(d) && ColumnPrint.FreeOfStops(d) && ColumnPrint.Free(d, "NULL") && Trimmed(w + rest)
    ensures ExtractDefaultValue(d + " " + (w + rest)) == (d, w + rest)
  {
    hide ColumnPrint.FreeOfStops, ColumnPrint.Free, Upper, TrimSpace, ExtractDefaultValue, Trimmed, VALUE_ENDS,
         ColumnPrint.VALUE_STOPS;
    Stops(w);
    var l := w + rest;
    assert l != "";
    KeywordText(w, rest, ColumnPrint.VALUE_STOPS);
    ColumnPrint.ReadsValue(d, l);
    assert d + (" " + l) == d + " " + l;
  }

  lemma Stops(w: string)
    requires w in VALUE_ENDS
    ensures w in ColumnPrint.VALUE_STOPS && Upper(w) == w && w != ""
  {
  }

  // ---- Case ----

  /** A keyword is found in any case. */
  lemma AnyCase(a: string, x: string, b: string, w: string)
    requires Upper(x) == w && forall p :: 0 <= p < |a| ==> !OccursAt(Upper(a + x + b), w, p)
    ensures IndexCI(a + x + b, w) == |a|
  {
    hide Upper;
    var s := a + x + b;
    var u := Upper(s);
    assert |x| == |w|;
    forall i | 0 <= i < |w| ensures u[|a|..|a| + |w|][i] == w[i] { assert s[|a| + i] == x[i] && Upper(x)[i] == w[i]; }
    assert u[|a|..|a| + |w|] == w;
    FirstOccurrence(u, w, 0, |a|);
  }
}
