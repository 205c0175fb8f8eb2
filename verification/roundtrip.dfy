/** The splitter undoes the emitter's separators: splitting the written file
    gives back exactly the statement texts, in order. */
module RoundTrip {
  import opened Text
  import opened Catalog
  import opened Splitter
  import opened Splitting
  import opened Script

  // ---- Lexically self-contained text ----

  /** From i on: no separator, no comment, and every literal and dollar block
      that opens also closes. */
  predicate Whole(s: string, i: nat)
    requires i <= |s|
    decreases |s| - i
  {
    i == |s| || (s[i] != ';' && !StartsComment(s, i) && Complete(s, i) && Whole(s, LexEnd(s, i)))
  }

  predicate Fragment(s: string) { Whole(s, 0) }

  /** A fragment that stands alone as a statement. */
  predicate Closed(s: string) { Fragment(s) && s != "" && Trimmed(s) }

  lemma {:induction false} WholeIsSolid(s: string, i: nat)
    requires i <= |s| && Whole(s, i)
    ensures Solid(s, i, |s|) && Tidy(s, i)
    decreases |s| - i
  {
    hide LexEnd, Complete, StartsComment;
    if i < |s| { WholeIsSolid(s, LexEnd(s, i)); }
  }

  /** A fragment that is not blank: closed but for white space around it. */
  predicate Padded(s: string) { Fragment(s) && TrimSpace(s) != "" }

  lemma ClosedPadded(s: string)
    requires Closed(s)
    ensures Padded(s) && TrimSpace(s) == s
  {
    TrimSpaceKeepsTrimmed(s);
    hide TrimSpace, Fragment;
  }

  /** Trimming leaves exactly the trimmed texts alone. */
  lemma TrimFixes(s: string)
    ensures TrimSpace(s) == s <==> Trimmed(s)
  {
    if Trimmed(s) { TrimSpaceKeepsTrimmed(s); }
    var i, j := TrimSpaceCuts(s);
  }

  lemma PaddedSplits(t: string)
    requires Padded(t)
    ensures Statements(t) == [TrimSpace(t)] && Tidy(t, 0)
  {
    WholeIsSolid(t, 0);
    SolidAlone(t, 0, "");
    assert "" + t[0..] == t;
    hide TrimSpace;
    KeepOne(t, []);
    assert [t] + [] == [t];
  }

  // ---- White space between statements ----

  /** Text collected earlier only prefixes the first piece. */
  lemma {:induction false} PiecesPrefix(s: string, i: nat, ws: string, cur: string)
    requires i <= |s|
    ensures var ps := Pieces(s, i, cur); Pieces(s, i, ws + cur) == [ws + ps[0]] + ps[1..]
    decreases |s| - i
  {
    hide LexEnd, StartsComment;
    if i < |s| {
      var n := LexEnd(s, i);
      if s[i] == ';' {
        assert ([cur] + Pieces(s, i + 1, ""))[1..] == Pieces(s, i + 1, "");
      } else if StartsComment(s, i) {
        PiecesPrefix(s, n, ws, cur);
      } else {
        PiecesPrefix(s, n, ws, cur + s[i..n]);
        assert ws + (cur + s[i..n]) == ws + cur + s[i..n];
      }
    }
  }

  lemma {:induction false} PiecesSpaces(s: string, i: nat, n: nat, cur: string)
    requires i <= n <= |s| && forall k :: i <= k < n ==> IsSpace(s[k])
    ensures Pieces(s, i, cur) == Pieces(s, n, cur + s[i..n])
    decreases n - i
  {
    if i < n {
      assert IsSpace(s[i]) && LexEnd(s, i) == i + 1;
      PiecesSpaces(s, i + 1, n, cur + s[i..i + 1]);
      assert cur + s[i..i + 1] + s[i + 1..n] == cur + s[i..n];
    } else {
      assert cur + s[i..n] == cur;
    }
  }

  /** White space in front of a script changes nothing. */
  lemma LeadingSpace(ws: string, b: string)
    requires AllSpace(ws)
    ensures Statements(ws + b) == Statements(b)
  {
    var s := ws + b;
    PiecesSpaces(s, 0, |ws|, "");
    assert "" + s[0..|ws|] == ws && ws + "" == ws;
    PiecesShift(ws, b, 0, ws);
    PiecesPrefix(b, 0, ws, "");
    var ps := Pieces(b, 0, "");
    TrimLeftPadding(ws, ps[0]);
    KeepOne(ws + ps[0], ps[1..]);
    KeepOne(ps[0], ps[1..]);
    assert ps == [ps[0]] + ps[1..];
  }

  // ---- The written lines ----

  function TextsOf(ls: seq<Line>): (r: seq<string>)
    ensures |r| == |ls|
  {
    seq(|ls|, i requires 0 <= i < |ls| => ls[i].text)
  }

  function TrimmedTexts(ls: seq<Line>): (r: seq<string>)
    ensures |r| == |ls|
  {
    seq(|ls|, i requires 0 <= i < |ls| => TrimSpace(ls[i].text))
  }

  ghost predicate WellSpaced(ls: seq<Line>) {
    forall l :: l in ls ==> Padded(l.text) && AllSpace(l.gap)
  }

  /** Splitting written lines gives back their texts, trimmed, whatever the gaps. */
  lemma {:induction false} SplitWritten(ls: seq<Line>)
    requires WellSpaced(ls)
    ensures Statements(Written(ls)) == TrimmedTexts(ls)
  {
    hide Padded, Fragment, AllSpace, Tidy;
    if ls == [] {
      assert Pieces("", 0, "") == [""] && TrimSpace("") == "";
      KeepOne("", []);
      assert [""] + [] == [""];
    } else {
      var l, rest := ls[0], ls[1..];
      assert l in ls && Padded(l.text) && AllSpace(l.gap);
      PaddedSplits(l.text);
      SplitWritten(rest);
      hide Statements, Written, TrimSpace;
      LeadingSpace(l.gap, Written(rest));
      SplitComposes(l.text, l.gap + Written(rest));
      assert Written(ls) == l.text + ";" + (l.gap + Written(rest)) by { WrittenHead(ls); }
      assert TrimmedTexts(ls) == [TrimSpace(l.text)] + TrimmedTexts(rest);
    }
  }

  lemma WrittenHead(ls: seq<Line>)
    requires ls != []
    ensures Written(ls) == ls[0].text + ";" + (ls[0].gap + Written(ls[1..]))
  {
  }

  lemma {:induction false} TrimNewlinesStops(a: string, n: nat)
    requires a != "" && a[|a| - 1] != '\n'
    ensures TrimNewlines(a + seq(n, _ => '\n')) == a
  {
    if n == 0 {
      assert a + seq(n, _ => '\n') == a;
    } else {
      var s := a + seq(n, _ => '\n');
      assert s[..|s| - 1] == a + seq(n - 1, _ => '\n');
      TrimNewlinesStops(a, n - 1);
    }
  }

  /** Trimming the file's final newlines and adding one back only changes the
      gap after the last statement. */
  lemma TrimmedWritten(ls: seq<Line>)
    requires ls != [] && (ls[|ls| - 1].gap == "\n\n" || ls[|ls| - 1].gap == "\n")
    ensures var n := |ls| - 1;
            TrimNewlines(Written(ls)) + "\n" == Written(ls[n := ls[n].(gap := "\n")])
  {
    var n := |ls| - 1;
    var init, l := ls[..n], ls[n];
    assert ls == init + [l];
    assert ls[n := l.(gap := "\n")] == init + [l.(gap := "\n")];
    WrittenAppend(init, [l]);
    WrittenAppend(init, [l.(gap := "\n")]);
    var a := Written(init) + l.text + ";";
    assert [l][1..] == [] && [l.(gap := "\n")][1..] == [];
    assert Written(ls) == a + l.gap;
    assert Written(ls[n := l.(gap := "\n")]) == a + "\n";
    hide Written;
    assert l.gap == seq(|l.gap|, _ => '\n');
    TrimNewlinesStops(a, |l.gap|);
  }

  ghost predicate NewlineGaps(ls: seq<Line>) {
    forall l :: l in ls ==> l.gap == "\n" || l.gap == "\n\n"
  }

  /** Text round trip for any script: the separators, the two kinds of gaps and
      the trimmed end of the file are all undone by the splitter. */
  lemma SplitFile(ls: seq<Line>)
    requires NewlineGaps(ls) && forall l :: l in ls ==> Padded(l.text)
    ensures Statements(TrimNewlines(Written(ls)) + "\n") == TrimmedTexts(ls)
  {
    if ls == [] {
      hide Statements;
      assert TrimNewlines("") + "\n" == "\n" + "";
      LeadingSpace("\n", "");
      SplitWritten([]);
    } else {
      hide Padded, Statements, Written, TrimNewlines;
      var n := |ls| - 1;
      var last := ls[n].(gap := "\n");
      assert ls[n] in ls;
      TrimmedWritten(ls);
      LastGap(ls, last);
      SplitWritten(ls[n := last]);
    }
  }

  lemma LastGap(ls: seq<Line>, last: Line)
    requires NewlineGaps(ls) && (forall l :: l in ls ==> Padded(l.text)) && ls != []
    requires last == ls[|ls| - 1].(gap := "\n")
    ensures var ls' := ls[|ls| - 1 := last];
            (forall l :: l in ls' ==> Padded(l.text) && AllSpace(l.gap)) && TrimmedTexts(ls') == TrimmedTexts(ls)
  {
    hide Padded, TrimSpace;
    var n := |ls| - 1;
    var ls' := ls[n := last];
    assert ls[n] in ls;
    assert AllSpace("\n") && AllSpace("\n\n");
    hide AllSpace;
    forall l | l in ls' ensures Padded(l.text) && AllSpace(l.gap) {
      assert l == last || l in ls;
    }
  }

  // ---- Every script has newline gaps ----

  lemma {:induction false} GroupGaps(sql: string, alters: seq<string>)
    ensures NewlineGaps(Group(sql, alters))
    decreases |alters|
  {
    if alters != [] { GroupGaps(alters[0], alters[1..]); }
  }

  lemma {:induction false} SectionGaps(os: seq<ObjectDef>, n: nat)
    ensures NewlineGaps(SectionLines(os, n))
  {
    if os != [] {
      GroupGaps(os[0].sql, os[0].postAlters);
      SectionGaps(os[1..], n);
      hide Group, Section;
    }
  }

  lemma SpacedGaps(d: Database)
    ensures NewlineGaps(SequenceLines(d.sequences)) && NewlineGaps(TypeLines(d.types)) && NewlineGaps(TableLines(d.tables))
    ensures NewlineGaps(IndexLines(d.indexes)) && NewlineGaps(TruncateLines(d.truncates)) && NewlineGaps(UnknownLines(d.unknowns))
  {
    hide TableText, IndexText, SequenceText, EnumText, TruncateText;
  }

  lemma GapsAppend(a: seq<Line>, b: seq<Line>)
    requires NewlineGaps(a) && NewlineGaps(b)
    ensures NewlineGaps(a + b)
  {
  }

  lemma ScriptGaps(d: Database)
    ensures NewlineGaps(ScriptOf(d))
  {
    hide SectionLines, SequenceLines, TypeLines, TableLines, IndexLines, TruncateLines, UnknownLines, NewlineGaps;
    var s, t, e, x := SequenceLines(d.sequences), TableLines(d.tables), TypeLines(d.types), IndexLines(d.indexes);
    var c, u := TruncateLines(d.truncates), UnknownLines(d.unknowns);
    var os := d.objects;
    SpacedGaps(d);
    SectionGaps(os, 0);
    SectionGaps(os, 1);
    SectionGaps(os, 2);
    SectionGaps(os, 3);
    SectionGaps(os, 4);
    SectionGaps(os, 5);
    SectionGaps(os, 6);
    SectionGaps(os, 7);
    SectionGaps(os, 8);
    var a := SectionLines(os, 0) + SectionLines(os, 1);
    GapsAppend(SectionLines(os, 0), SectionLines(os, 1));
    GapsAppend(a, s);
    GapsAppend(a + s, e);
    var b := a + s + e + SectionLines(os, 2) + SectionLines(os, 3);
    GapsAppend(a + s + e, SectionLines(os, 2));
    GapsAppend(a + s + e + SectionLines(os, 2), SectionLines(os, 3));
    GapsAppend(b, t);
    GapsAppend(b + t, SectionLines(os, 4));
    GapsAppend(b + t + SectionLines(os, 4), x);
    var f := b + t + SectionLines(os, 4) + x + SectionLines(os, 5) + SectionLines(os, 6);
    GapsAppend(b + t + SectionLines(os, 4) + x, SectionLines(os, 5));
    GapsAppend(b + t + SectionLines(os, 4) + x + SectionLines(os, 5), SectionLines(os, 6));
    GapsAppend(f, SectionLines(os, 7));
    GapsAppend(f + SectionLines(os, 7), SectionLines(os, 8));
    GapsAppend(f + SectionLines(os, 7) + SectionLines(os, 8), c);
    GapsAppend(f + SectionLines(os, 7) + SectionLines(os, 8) + c, u);
  }

  lemma TextsTrimmed(ls: seq<Line>)
    ensures TrimmedTexts(ls) == TextsOf(ls) <==> forall l :: l in ls ==> Trimmed(l.text)
  {
    hide TrimSpace, Trimmed;
    forall l: Line ensures TrimSpace(l.text) == l.text <==> Trimmed(l.text) { TrimFixes(l.text); }
    if forall l :: l in ls ==> Trimmed(l.text) {
      forall i | 0 <= i < |ls| ensures TrimmedTexts(ls)[i] == TextsOf(ls)[i] { assert ls[i] in ls; }
    }
    if TrimmedTexts(ls) == TextsOf(ls) {
      forall l | l in ls ensures Trimmed(l.text) {
        var i :| 0 <= i < |ls| && ls[i] == l;
        assert TrimmedTexts(ls)[i] == TextsOf(ls)[i];
      }
    }
  }

  /** Splitting the output file gives the statements of the script, trimmed, and
      exactly as printed if and only if no printed text begins or ends in white
      space. */
  lemma SplitOutput(d: Database)
    requires forall l :: l in ScriptOf(d) ==> Padded(l.text)
    ensures Statements(Output(d)) == TrimmedTexts(ScriptOf(d))
    ensures Statements(Output(d)) == TextsOf(ScriptOf(d)) <==> forall l :: l in ScriptOf(d) ==> Trimmed(l.text)
  {
    ScriptGaps(d);
    hide ScriptOf, Statements, Written, TrimNewlines, Padded, Trimmed;
    SplitFile(ScriptOf(d));
    TextsTrimmed(ScriptOf(d));
  }
}
