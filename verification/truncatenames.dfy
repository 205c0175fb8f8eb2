/** Reading back a printed TRUNCATE whose names may hold white space. */
module TruncateNames {
  import opened Text
  import opened Ast
  import opened Patterns
  import opened Script
  import opened TruncateParser

  function List(names: seq<string>): string { Join(names, ", ") }

  /** The reader takes part of the list for something else: a modifier at its end,
      the word TABLE at its start, or the word ONLY. */
  predicate Claimed(names: seq<string>) {
    var list := List(names);
    LastModifier("TRUNCATE " + list).Some? || HasPrefix(Upper(list), "TABLE ") || RemoveOnly(list, 0) != list
  }

  // ---- What is not claimed is read ----

  lemma {:induction false} ListNamed(names: seq<string>)
    requires names != [] && AllNamed(names)
    ensures var l := List(names); l != "" && Trimmed(l) && l[|l| - 1] !in {'*', ';'}
  {
    var a := names[0];
    assert a in names;
    if |names| > 1 {
      assert forall n :: n in names[1..] ==> n in names;
      ListNamed(names[1..]);
      var rest := List(names[1..]);
      var l := a + ", " + rest;
      assert l[0] == a[0] && l[|l| - 1] == rest[|rest| - 1];
    }
  }

  lemma ListRead(names: seq<string>)
    requires names != [] && AllNamed(names)
    ensures TableNames(SplitCommas(List(names))) == names
  {
    hide AllNamed, Join, TableNames, SplitCommas;
    NamesRead(names, "", "");
    assert "" + List(names) + "" == List(names);
  }

  lemma UnclaimedRead(t: Truncate)
    requires t.tables != [] && AllNamed(t.tables) && !Claimed(t.tables)
    ensures ReadTables(StripModifiers("TRUNCATE " + List(t.tables) + Modifiers(t))) == Some(t)
  {
    hide AllNamed, List, TableNames, SplitCommas, RemoveOnly, HasPrefix, Upper, TrimSpace, Trimmed, LastModifier, Modifiers;
    var names := t.tables;
    var list := List(names);
    var s := "TRUNCATE " + list;
    StripPrinted(s, t);
    ListNamed(names);
    ListPlace(list, "");
    BlankUnpads(list);
    assert s + "" == s && list + "" == list && list[0..] == list;
    ListRead(names);
  }

  // ---- Visible characters ----

  predicate Seen(c: char) { !IsSpace(c) && c != ',' }

  /** How many characters are neither white space nor commas. */
  function Visible(s: string): nat {
    if s == "" then 0 else (if Seen(s[0]) then 1 else 0) + Visible(s[1..])
  }

  lemma {:induction false} VisibleAppend(a: string, b: string)
    ensures Visible(a + b) == Visible(a) + Visible(b)
  {
    hide IsSpace;
    if a == "" {
      assert a + b == b;
    } else {
      assert (a + b)[1..] == a[1..] + b;
      VisibleAppend(a[1..], b);
    }
  }

  lemma {:induction false} NoneVisible(s: string)
    requires AllSpace(s)
    ensures Visible(s) == 0
  {
    if s != "" {
      assert AllSpace(s[1..]);
      NoneVisible(s[1..]);
    }
  }

  lemma VisibleCut(s: string, i: nat)
    requires i <= |s|
    ensures Visible(s) == Visible(s[..i]) + Visible(s[i..])
  {
    assert s == s[..i] + s[i..];
    VisibleAppend(s[..i], s[i..]);
  }

  lemma VisibleTrim(s: string)
    ensures Visible(TrimSpace(s)) == Visible(s)
  {
    hide Visible, TrimSpace;
    var i, j := TrimSpaceCuts(s);
    VisibleCut(s, i);
    VisibleCut(s[i..], j - i);
    CutTwice(s, i, j);
    NoneVisible(s[..i]);
    NoneVisible(s[j..]);
  }

  lemma VisibleSome(s: string, i: nat)
    requires i < |s| && Seen(s[i])
    ensures Visible(s) > 0
  {
    VisibleCut(s, i);
    assert s[i..][0] == s[i];
  }

  function VisibleAll(parts: seq<string>): nat {
    if parts == [] then 0 else Visible(parts[0]) + VisibleAll(parts[1..])
  }

  lemma {:induction false} VisibleJoin(names: seq<string>)
    ensures Visible(List(names)) == VisibleAll(names)
  {
    if |names| == 1 {
      assert names[1..] == [];
    } else if names != [] {
      VisibleJoin(names[1..]);
      var rest := List(names[1..]);
      VisibleAppend(names[0] + ", ", rest);
      VisibleAppend(names[0], ", ");
      assert Visible(", ") == 0 by { assert ", "[1..] == " " && " "[1..] == ""; }
    }
  }

  lemma {:induction false} VisibleSplit(s: string)
    ensures VisibleAll(SplitCommas(s)) == Visible(s)
    decreases |s|
  {
    var i := IndexOf(s, ",");
    if i < 0 {
      assert [s][1..] == [];
    } else {
      VisibleSplit(s[i + 1..]);
      IndexFromFirst(s, ",", 0);
      OccursChar(s, ',', i);
      VisibleCut(s, i);
      assert s[i..][1..] == s[i + 1..];
      assert ([s[..i]] + SplitCommas(s[i + 1..]))[1..] == SplitCommas(s[i + 1..]);
    }
  }

  lemma VisibleName(part: string)
    ensures Visible(TableName(part)) <= Visible(part)
  {
    hide TrimSpace;
    var t := TrimSpace(part);
    VisibleTrim(part);
    VisibleTrim(TrimSuffix(t, "*"));
    if HasSuffix(t, "*") { VisibleCut(t, |t| - 1); }
  }

  lemma {:induction false} VisibleNames(parts: seq<string>)
    ensures VisibleAll(TableNames(parts)) <= VisibleAll(parts)
  {
    if parts != [] {
      VisibleNames(parts[1..]);
      VisibleName(parts[0]);
      hide TableName, Visible;
      var n, rest := TableName(parts[0]), TableNames(parts[1..]);
      assert [] + rest == rest && ([n] + rest)[1..] == rest;
    }
  }

  // ---- What is claimed is lost ----

  lemma OnlyVisible(s: string, i: nat, j: nat)
    requires MatchesAt(s, i, "ONLY") && i + 4 <= j <= |s|
    ensures Visible(s[j..]) < Visible(s[i..])
  {
    MatchHas(s, i, "ONLY", 0);
    hide MatchesAt;
    var t := s[i..];
    VisibleCut(t, j - i);
    assert t[j - i..] == s[j..] && t[..j - i][0] == s[i];
    VisibleSome(t[..j - i], 0);
  }

  lemma {:induction false} OnlyLost(s: string, i: nat)
    requires i <= |s|
    ensures Visible(RemoveOnly(s, i)) <= Visible(s[i..])
    ensures RemoveOnly(s, i) != s[i..] ==> Visible(RemoveOnly(s, i)) < Visible(s[i..])
    decreases |s| - i
  {
    hide Seen, SkipSpaces, Boundary;
    if i < |s| {
      var j := if MatchesAt(s, i, "ONLY") then SkipSpaces(s, i + 4) else 0;
      if j > i + 4 && Boundary(s, i) {
        OnlyVisible(s, i, j);
        OnlyLost(s, j);
      } else {
        OnlyLost(s, i + 1);
        assert s[i..] == [s[i]] + s[i + 1..];
        VisibleAppend([s[i]], s[i + 1..]);
        VisibleAppend([s[i]], RemoveOnly(s, i + 1));
      }
    }
  }

  lemma TableLost(s: string)
    ensures Visible(WithoutTable(s)) <= Visible(s)
    ensures HasPrefix(Upper(s), "TABLE ") ==> Visible(WithoutTable(s)) < Visible(s)
  {
    PrefixHas(Upper(s), "TABLE ", 4);
    hide TrimSpace, HasPrefix;
    if HasPrefix(Upper(s), "TABLE ") {
      assert |Upper(s)| == |s|;
      VisibleTrim(s[5..]);
      VisibleCut(s, 5);
      assert s[..5][4] == s[4] && UpperChar(s[4]) == 'E';
      VisibleSome(s[..5], 4);
    }
  }

  lemma WordLast(m: Modifier)
    ensures Word(m)[|Word(m)| - 1] in {'E', 'T', 'Y'}
  {
  }

  lemma LetterSeen(c: char)
    requires 'A' <= UpperChar(c) <= 'Z'
    ensures Seen(c)
  {
  }

  lemma LastVisible(s: string, n: nat)
    requires n < |s| && Seen(s[|s| - 1])
    ensures Visible(s[..n]) < Visible(s)
  {
    hide Visible, Seen;
    VisibleCut(s, n);
    var t := s[n..];
    assert t[|t| - 1] == s[|s| - 1];
    VisibleSome(t, |t| - 1);
  }

  lemma SuffixVisible(s: string, w: string)
    requires HasSuffix(Upper(s), w) && w != "" && 'A' <= w[|w| - 1] <= 'Z'
    ensures |w| <= |s| && Visible(s[..|s| - |w|]) < Visible(s)
  {
    hide Visible, Seen, HasSuffix, Upper;
    SuffixFitsIn(s, w);
    LetterSeen(s[|s| - 1]);
    LastVisible(s, |s| - |w|);
  }

  lemma SuffixFitsIn(s: string, w: string)
    requires HasSuffix(Upper(s), w) && w != ""
    ensures |w| <= |s| && UpperChar(s[|s| - 1]) == w[|w| - 1]
  {
    SuffixHas(Upper(s), w, |w| - 1);
  }

  lemma ModifierVisible(s: string, m: Modifier)
    requires HasSuffix(Upper(s), Word(m))
    ensures |Word(m)| <= |s| && Visible(s[..|s| - |Word(m)|]) < Visible(s)
  {
    hide Word, Visible, HasSuffix, Upper;
    WordLast(m);
    SuffixVisible(s, Word(m));
  }

  /** Stripping modifiers leaves a beginning, and a shorter one if there was any. */
  lemma {:induction false} ModifiersLost(s: string)
    ensures var r := StripModifiers(s).rest;
            Visible(r) <= Visible(s) && (LastModifier(s).Some? ==> Visible(r) < Visible(s))
    decreases |s|
  {
    hide LastModifier, Word, Visible;
    match LastModifier(s)
    case None =>
    case Some(m) =>
      ModifierVisible(s, m);
      ModifiersLost(s[..|s| - |Word(m)|]);
  }

  lemma ReadVisible(r: Stripped)
    requires ReadTables(r).Some?
    ensures VisibleAll(ReadTables(r).value.tables) + 8 <= Visible(r.rest)
    ensures var list := TrimSpace(r.rest[8..]);
            HasPrefix(Upper(list), "TABLE ") || RemoveOnly(WithoutTable(list), 0) != WithoutTable(list)
            ==> VisibleAll(ReadTables(r).value.tables) + 8 < Visible(r.rest)
  {
    var list := TrimSpace(r.rest[8..]);
    var rest := WithoutTable(list);
    KeywordVisible(r.rest);
    VisibleTrim(r.rest[8..]);
    TableLost(list);
    OnlyLost(rest, 0);
    VisibleSplit(RemoveOnly(rest, 0));
    VisibleNames(SplitCommas(RemoveOnly(rest, 0)));
    hide TrimSpace, WithoutTable, RemoveOnly, SplitCommas, TableNames, Visible, VisibleAll, HasPrefix, Upper;
    assert rest[0..] == rest;
  }

  lemma KeywordLetter(s: string, i: nat)
    requires HasPrefix(Upper(s), TRUNCATE) && i < 8
    ensures i < |s| && Seen(s[i])
  {
    PrefixHas(Upper(s), TRUNCATE, i);
    assert 'A' <= TRUNCATE[i] <= 'Z';
    hide HasPrefix, Seen;
    LetterSeen(s[i]);
  }

  lemma KeywordVisible(s: string)
    requires HasPrefix(Upper(s), TRUNCATE)
    ensures |s| >= 8 && Visible(s) == 8 + Visible(s[8..])
  {
    hide HasPrefix, Seen, Visible;
    KeywordLetter(s, 7);
    var t := s[..8];
    forall i | 0 <= i < 8 ensures Seen(t[i]) { KeywordLetter(s, i); }
    VisibleCut(s, 8);
    AllVisible(t);
  }

  lemma {:induction false} AllVisible(s: string)
    requires forall i :: 0 <= i < |s| ==> Seen(s[i])
    ensures Visible(s) == |s|
  {
    if s != "" { AllVisible(s[1..]); }
  }

  lemma ClaimedLost(t: Truncate)
    requires t.tables != [] && AllNamed(t.tables) && Claimed(t.tables)
    ensures ReadTables(StripModifiers("TRUNCATE " + List(t.tables) + Modifiers(t))) != Some(t)
  {
    var list := List(t.tables);
    var s := "TRUNCATE " + list;
    var r := StripModifiers(s + Modifiers(t));
    StripPrinted(s, t);
    ModifiersLost(s);
    ListNamed(t.tables);
    ListPlace(list, "");
    BlankUnpads(list);
    VisibleJoin(t.tables);
    assert s + "" == s && list + "" == list;
    KeywordVisible(s);
    VisibleAppend(" ", list);
    BlankUnseen();
    hide AllNamed, Join, RemoveOnly, HasPrefix, Upper, TrimSpace, Trimmed, Modifiers, ReadTables, Visible, VisibleAll;
    if ReadTables(r).Some? {
      ReadVisible(r);
      if LastModifier(s).None? { NothingStripped(s); }
    }
  }

  lemma BlankUnseen()
    ensures Visible(" ") == 0
  {
    assert " "[1..] == "";
  }

  lemma NothingStripped(s: string)
    requires LastModifier(s).None?
    ensures StripModifiers(s).rest == s
  {
    hide LastModifier;
  }

  /** Reading a printed TRUNCATE gives the statement back exactly when the reader
      claims no part of its list. */
  lemma TruncateReadExact(t: Truncate)
    requires t.tables != [] && AllNamed(t.tables)
    ensures ReadTruncate(TruncateText(t)) == Some(t) <==> !Claimed(t.tables)
  {
    TextParts(t);
    NamedEnds(t);
    TrimSpaceKeepsTrimmed(TruncateText(t));
    hide ReadTables, StripModifiers, TruncateText, AllNamed, Claimed, TrimSpace, Join;
    if Claimed(t.tables) { ClaimedLost(t); } else { UnclaimedRead(t); }
  }

  lemma NamedEnds(t: Truncate)
    requires t.tables != [] && AllNamed(t.tables)
    ensures var s := TruncateText(t); Trimmed(s) && TrimSuffix(s, ";") == s
  {
    TextParts(t);
    ListNamed(t.tables);
    var s, j, m := TruncateText(t), List(t.tables), Modifiers(t);
    hide Join, TruncateText, AllNamed;
    assert s[0] == 'T';
    assert s[|s| - 1] == if m == "" then j[|j| - 1] else m[|m| - 1];
    assert m != "" ==> m[|m| - 1] in {'Y', 'E'};
    SuffixHas(s, ";", 0);
  }
}
