/** Reading a TRUNCATE statement, and reading back the one the script prints. */
module TruncateParser {
  import opened Text
  import opened Ast
  import opened Patterns
  import opened Script
  import Catalog
  import Truncates

  // ---- Modifiers ----

  datatype Modifier = CascadeWord | RestrictWord | RestartWord | ContinueWord

  function Word(m: Modifier): (w: string)
    ensures |w| > 0
  {
    match m
    case CascadeWord => " CASCADE"
    case RestrictWord => " RESTRICT"
    case RestartWord => " RESTART IDENTITY"
    case ContinueWord => " CONTINUE IDENTITY"
  }

  /** The modifier at the end of the text. */
  function LastModifier(s: string): (m: Option<Modifier>)
    ensures m.Some? ==> HasSuffix(Upper(s), Word(m.value))
  {
    var upper := Upper(s);
    if HasSuffix(upper, " CASCADE") then Some(CascadeWord)
    else if HasSuffix(upper, " RESTRICT") then Some(RestrictWord)
    else if HasSuffix(upper, " RESTART IDENTITY") then Some(RestartWord)
    else if HasSuffix(upper, " CONTINUE IDENTITY") then Some(ContinueWord)
    else None
  }

  datatype Stripped = Stripped(rest: string, restartIdentity: bool, cascade: bool)

  function StripModifiers(s: string): Stripped
    decreases |s|
  {
    match LastModifier(s)
    case None => Stripped(s, false, false)
    case Some(m) =>
      var r := StripModifiers(s[..|s| - |Word(m)|]);
      Stripped(r.rest, r.restartIdentity || m.RestartWord?, r.cascade || m.CascadeWord?)
  }

  // ---- Names ----

  /** Removes every word ONLY and the white space after it, from i on. */
  function RemoveOnly(s: string, i: nat): string
    requires i <= |s|
    decreases |s| - i
  {
    if i == |s| then ""
    else
      var j := if MatchesAt(s, i, "ONLY") then SkipSpaces(s, i + 4) else 0;
      if j > i + 4 && Boundary(s, i) then RemoveOnly(s, j) else [s[i]] + RemoveOnly(s, i + 1)
  }

  function SplitCommas(s: string): (r: seq<string>)
    ensures r != []
    decreases |s|
  {
    var i := IndexOf(s, ",");
    if i < 0 then [s] else [s[..i]] + SplitCommas(s[i + 1..])
  }

  function TableName(part: string): string { TrimSpace(TrimSuffix(TrimSpace(part), "*")) }

  function TableNames(parts: seq<string>): seq<string> {
    if parts == [] then []
    else (if TableName(parts[0]) != "" then [TableName(parts[0])] else []) + TableNames(parts[1..])
  }

  const TRUNCATE := "TRUNCATE"

  function WithoutTable(s: string): string {
    if HasPrefix(Upper(s), "TABLE ") then TrimSpace(s[5..]) else s
  }

  /** None: the text is passed through unread. */
  function ReadTables(r: Stripped): Option<Truncate> {
    if !HasPrefix(Upper(r.rest), TRUNCATE) then None
    else
      var list := WithoutTable(TrimSpace(r.rest[|TRUNCATE|..]));
      var tables := TableNames(SplitCommas(RemoveOnly(list, 0)));
      if tables == [] then None else Some(Truncate(tables, r.restartIdentity, r.cascade))
  }

  function ReadTruncate(sql: string): Option<Truncate> {
    ReadTables(StripModifiers(TrimSpace(TrimSuffix(TrimSpace(sql), ";"))))
  }

  /** The modifier loop. */
  method StripWords(text: string) returns (r: Stripped)
    ensures r == StripModifiers(text)
  {
    hide LastModifier, Word, HasSuffix, Upper;
    var s, restartIdentity, cascade := text, false, false;
    var m := LastModifier(s);
    while m.Some?
      invariant m == LastModifier(s)
      invariant var all, rest := StripModifiers(text), StripModifiers(s);
                && all.rest == rest.rest
                && all.restartIdentity == (restartIdentity || rest.restartIdentity)
                && all.cascade == (cascade || rest.cascade)
      decreases |s|
    {
      SuffixFits(s, m.value);
      cascade := cascade || m.value.CascadeWord?;
      restartIdentity := restartIdentity || m.value.RestartWord?;
      s := s[..|s| - |Word(m.value)|];
      m := LastModifier(s);
    }
    return Stripped(s, restartIdentity, cascade);
  }

  lemma SuffixFits(s: string, m: Modifier)
    requires HasSuffix(Upper(s), Word(m))
    ensures |Word(m)| <= |s|
  {
  }

  /** The loop over the names. */
  method CollectTables(list: string) returns (tables: seq<string>)
    ensures tables == TableNames(SplitCommas(list))
  {
    hide TableName, SplitCommas;
    tables := [];
    var parts := SplitCommas(list);
    for i := 0 to |parts|
      invariant tables + TableNames(parts[i..]) == TableNames(parts)
    {
      assert parts[i..][0] == parts[i] && parts[i..][1..] == parts[i + 1..];
      if TableName(parts[i]) != "" { tables := tables + [TableName(parts[i])]; }
    }
    assert parts[|parts|..] == [] && tables + [] == tables;
  }

  method ParseTruncate(sql: string) returns (r: Option<Truncate>)
    ensures r == ReadTruncate(sql)
  {
    hide TrimSpace, TrimSuffix, RemoveOnly, StripModifiers, TableNames, SplitCommas, HasPrefix, WithoutTable, Upper;
    var stripped := StripWords(TrimSpace(TrimSuffix(TrimSpace(sql), ";")));
    var s := stripped.rest;
    if !HasPrefix(Upper(s), TRUNCATE) { return None; }
    s := TrimSpace(AfterKeyword(s));
    s := RemoveOnly(WithoutTable(s), 0);
    var tables := CollectTables(s);
    if tables == [] { return None; }
    return Some(Truncate(tables, stripped.restartIdentity, stripped.cascade));
  }

  function AfterKeyword(s: string): string
    requires HasPrefix(Upper(s), TRUNCATE)
  {
    s[|TRUNCATE|..]
  }

  // ---- Reading back a printed TRUNCATE ----

  /** Visible characters only, no comma, and no star or semicolon. */
  predicate PlainName(n: string) {
    n != "" && forall i :: 0 <= i < |n| ==> !IsSpace(n[i]) && n[i] != ',' && n[i] != '*' && n[i] != ';'
  }

  predicate PlainNames(names: seq<string>) { forall n :: n in names ==> PlainName(n) }

  /** Any name the reader can hold: trimmed, without a comma, and with no star or
      semicolon at its end. */
  predicate Named(n: string) {
    n != "" && Trimmed(n) && (forall i :: 0 <= i < |n| ==> n[i] != ',') && n[|n| - 1] !in {'*', ';'}
  }

  predicate AllNamed(names: seq<string>) { forall n :: n in names ==> Named(n) }

  lemma PlainIsNamed(names: seq<string>)
    requires PlainNames(names)
    ensures AllNamed(names)
  {
  }

  /** White space is one blank after a comma. */
  predicate BlankAfterComma(s: string) {
    forall i :: 0 <= i < |s| && IsSpace(s[i]) ==> s[i] == ' ' && i > 0 && s[i - 1] == ','
  }

  lemma {:induction false} ListBlanks(names: seq<string>)
    requires PlainNames(names)
    ensures BlankAfterComma(Join(names, ", "))
    ensures names != [] ==> Trimmed(Join(names, ", ")) && Join(names, ", ") != "" && Join(names, ", ")[|Join(names, ", ")| - 1] !in {',', ';'}
    ensures names != [] ==> Join(names, ", ")[0] != ' '
  {
    if |names| > 1 {
      assert names[0] in names && forall n :: n in names[1..] ==> n in names;
      ListBlanks(names[1..]);
      var a, rest := names[0], Join(names[1..], ", ");
      var s := a + ", " + rest;
      assert s[|s| - 1] == rest[|rest| - 1];
      forall i | 0 <= i < |s| && IsSpace(s[i]) ensures s[i] == ' ' && i > 0 && s[i - 1] == ',' {
        if i >= |a| + 2 { assert s[i] == rest[i - |a| - 2]; }
      }
    } else if names != [] {
      assert names[0] in names;
    }
  }

  lemma {:induction false} NoOnly(s: string, i: nat)
    requires i <= |s| && BlankAfterComma(s)
    ensures RemoveOnly(s, i) == s[i..]
    decreases |s| - i
  {
    if i < |s| {
      NoOnly(s, i + 1);
      if MatchesAt(s, i, "ONLY") {
        assert Lower(s[i..i + 4])[3] == Lower("ONLY")[3];
        assert LowerChar(s[i + 3]) == 'y';
        assert i + 4 < |s| ==> !IsSpace(s[i + 4]);
        assert SkipSpaces(s, i + 4) == i + 4;
      }
      assert s[i..] == [s[i]] + s[i + 1..];
    }
  }

  lemma TableWord(s: string)
    requires HasPrefix(Upper(s), "TABLE ")
    ensures s[4] != ',' && IsSpace(s[5])
  {
    var u := Upper(s);
    assert u[..6][4] == 'E' && u[..6][5] == ' ';
    assert UpperChar(s[5]) == ' ' && UpperChar(s[4]) == 'E';
  }

  lemma NoTableWord(s: string)
    requires BlankAfterComma(s)
    ensures WithoutTable(s) == s
  {
    if HasPrefix(Upper(s), "TABLE ") { TableWord(s); }
  }

  lemma LastChar(s: string, c: char)
    requires HasSuffix(s, [c])
    ensures s[|s| - 1] == c
  {
    assert s[|s| - 1..][0] == c;
  }

  lemma OccursChar(s: string, c: char, i: int)
    requires OccursAt(s, [c], i)
    ensures s[i] == c
  {
    assert s[i..i + 1][0] == c;
  }

  lemma NameRead(n: string, gap: string)
    requires Named(n) && (gap == "" || gap == " ")
    ensures TableName(gap + n) == n
  {
    assert gap + n + "" == gap + n;
    TrimSpaceUnpads(gap, n, "");
    if HasSuffix(n, "*") { LastChar(n, '*'); }
    TrimSpaceKeepsTrimmed(n);
  }

  lemma FirstComma(a: string, rest: string)
    requires ',' !in a
    ensures IndexOf(a + "," + rest, ",") == |a|
  {
    var s := a + "," + rest;
    assert s[|a|..|a| + 1] == ",";
    forall j | 0 <= j < |a| ensures !OccursAt(s, ",", j) { assert s[j..j + 1][0] == a[j]; }
    FirstOccurrence(s, ",", 0, |a|);
  }

  lemma NoComma(a: string)
    requires ',' !in a
    ensures IndexOf(a, ",") == -1
  {
    IndexFromFirst(a, ",", 0);
    var r := IndexOf(a, ",");
    if r >= 0 { OccursChar(a, ',', r); }
  }

  lemma OneNameRead(a: string, gap: string, tail: string)
    requires Named(a) && (gap == "" || gap == " ") && (tail == "" || tail == ",")
    ensures TableNames(SplitCommas(gap + a + tail)) == [a]
  {
    NameRead(a, gap);
    assert ',' !in gap + a;
    hide TableName, Named;
    assert [gap + a][1..] == [];
    if tail == "" {
      NoComma(gap + a);
      assert gap + a + tail == gap + a;
    } else {
      LastCommaRead(gap + a);
    }
  }

  lemma MoreNamesRead(a: string, gap: string, rest: string, names: seq<string>)
    requires Named(a) && (gap == "" || gap == " ") && TableNames(SplitCommas(rest)) == names
    ensures TableNames(SplitCommas(gap + a + "," + rest)) == [a] + names
  {
    NameRead(a, gap);
    assert ',' !in gap + a;
    hide TableName, Named;
    FirstComma(gap + a, rest);
    Truncates.CommaCut(gap + a, rest);
    var parts := SplitCommas(rest);
    hide SplitCommas;
    assert ([gap + a] + parts)[1..] == parts;
  }

  /** Splitting the printed list at its commas gives the names back, with or
      without a comma at the end. */
  lemma {:induction false} NamesRead(names: seq<string>, gap: string, tail: string)
    requires names != [] && AllNamed(names) && (gap == "" || gap == " ") && (tail == "" || tail == ",")
    ensures TableNames(SplitCommas(gap + Join(names, ", ") + tail)) == names
    decreases |names|
  {
    var a := names[0];
    assert a in names;
    hide TableNames, SplitCommas, Named;
    assert names == [a] + names[1..];
    if |names| == 1 {
      OneNameRead(a, gap, tail);
    } else {
      assert forall n :: n in names[1..] ==> n in names;
      NamesRead(names[1..], " ", tail);
      ListShape(gap, a, Join(names[1..], ", "), tail);
      MoreNamesRead(a, gap, " " + Join(names[1..], ", ") + tail, names[1..]);
    }
  }

  lemma ListShape(gap: string, a: string, more: string, tail: string)
    ensures gap + (a + ", " + more) + tail == gap + a + "," + (" " + more + tail)
  {
    var l, r := gap + (a + ", " + more) + tail, gap + a + "," + (" " + more + tail);
    assert |l| == |r|;
  }

  lemma LastCommaRead(a: string)
    requires ',' !in a
    ensures TableNames(SplitCommas(a + ",")) == TableNames([a])
  {
    FirstComma(a, "");
    assert a + "," + "" == a + ",";
    Truncates.CommaCut(a, "");
    NoComma("");
    assert SplitCommas("") == [""];
    assert TableName("") == "";
    assert SplitCommas(a + ",") == [a] + [""];
    assert [a][1..] == [] && ([a] + [""])[1..] == [""] && [""][1..] == [];
  }

  // ---- Modifiers of a printed TRUNCATE ----

  lemma SuffixOf(s: string, w: string)
    requires Upper(w) == w
    ensures HasSuffix(Upper(s + w), w) && (s + w)[..|s + w| - |w|] == s
  {
    var u := Upper(s + w);
    forall i | 0 <= i < |w| ensures u[|s|..][i] == w[i] { assert (s + w)[|s| + i] == w[i] && Upper(w)[i] == w[i]; }
    assert u[|s|..] == w;
  }

  lemma EndsAlike(s: string, w: string)
    requires HasSuffix(s, w) && w != ""
    ensures s[|s| - 1] == w[|w| - 1]
  {
    assert s[|s| - |w|..][|w| - 1] == w[|w| - 1];
  }

  lemma StripCascade(s: string)
    ensures StripModifiers(s + " CASCADE") == StripModifiers(s).(cascade := true)
  {
    SuffixOf(s, " CASCADE");
  }

  lemma StripRestart(s: string)
    ensures StripModifiers(s + " RESTART IDENTITY") == StripModifiers(s).(restartIdentity := true)
  {
    var t := s + " RESTART IDENTITY";
    SuffixOf(s, " RESTART IDENTITY");
    assert Upper(t)[|t| - 1] == 'Y';
    hide Word;
    if HasSuffix(Upper(t), " CASCADE") { EndsAlike(Upper(t), " CASCADE"); }
    if HasSuffix(Upper(t), " RESTRICT") { EndsAlike(Upper(t), " RESTRICT"); }
    assert LastModifier(t) == Some(RestartWord);
    assert Word(RestartWord) == " RESTART IDENTITY";
  }

  function Modifiers(t: Truncate): string {
    (if t.restartIdentity then " RESTART IDENTITY" else "") + (if t.cascade then " CASCADE" else "")
  }

  /** Printed modifiers are read back as the flags, before what else is read. */
  lemma StripPrinted(s: string, t: Truncate)
    ensures var r := StripModifiers(s);
            StripModifiers(s + Modifiers(t))
            == Stripped(r.rest, r.restartIdentity || t.restartIdentity, r.cascade || t.cascade)
  {
    var a := s + if t.restartIdentity then " RESTART IDENTITY" else "";
    hide StripModifiers;
    if t.restartIdentity { StripRestart(s); } else { assert a == s; }
    if t.cascade { StripCascade(a); } else { assert a + "" == a; }
    var x, y := if t.restartIdentity then " RESTART IDENTITY" else "", if t.cascade then " CASCADE" else "";
    assert s + Modifiers(t) == s + x + y;
  }

  // ---- A last name that reads as a modifier ----

  predicate Swallowed(n: string) { Upper(n) == "CASCADE" || Upper(n) == "RESTRICT" }

  lemma BlankPlace(a: string, m: string)
    requires ' ' !in m
    ensures var s := a + " " + m;
            s[|a|] == ' ' && s[|a| + 1..] == m && forall i :: |a| < i < |s| ==> s[i] != ' '
  {
    var s := a + " " + m;
    forall i | |a| < i < |s| ensures s[i] != ' ' {
      assert s[i] == m[i - |a| - 1];
    }
  }

  /** The part after the last blank is unique. */
  lemma SameTail(a: string, m: string, x: string)
    requires ' ' !in m && ' ' !in x && HasSuffix(a + " " + m, " " + x)
    ensures m == x
  {
    var s := a + " " + m;
    var p := |s| - |" " + x|;
    BlankPlace(a, m);
    BlankPlace(s[..p], x);
    assert s == s[..p] + s[p..];
    assert s[..p] + " " + x == s[..p] + (" " + x);
  }

  lemma SuffixWord(y: string, n: string, x: string)
    requires PlainName(n) && ' ' !in x && HasSuffix(Upper(y + " " + n), " " + x)
    ensures Upper(n) == x
  {
    assert Upper(y + " " + n) == Upper(y) + " " + Upper(n);
    assert forall i :: 0 <= i < |n| ==> UpperChar(n[i]) != ' ';
    hide HasSuffix, PlainName;
    SameTail(Upper(y), Upper(n), x);
  }

  /** The text before the last name: the keyword, or a list with a comma. */
  predicate Before(y: string) { y == TRUNCATE || (y != "" && y[|y| - 1] == ',') }

  lemma NoSuffixBefore(y: string, w: string)
    requires Before(y) && w in {" CASCADE", " RESTRICT", " RESTART IDENTITY", " CONTINUE IDENTITY", " RESTART", " CONTINUE"}
    ensures !HasSuffix(Upper(y), w)
  {
    assert ' ' !in Upper(TRUNCATE);
    if HasSuffix(Upper(y), w) {
      EndsAlike(Upper(y), w);
      BeginsAlike(Upper(y), w);
    }
  }

  lemma BeginsAlike(s: string, w: string)
    requires HasSuffix(s, w) && w != ""
    ensures w[0] in s
  {
    assert s[|s| - |w|..][0] == w[0];
    assert s[|s| - |w|] == w[0];
  }

  lemma NothingBefore(y: string)
    requires Before(y)
    ensures StripModifiers(y) == Stripped(y, false, false)
  {
    NoSuffixBefore(y, " CASCADE");
    NoSuffixBefore(y, " RESTRICT");
    NoSuffixBefore(y, " RESTART IDENTITY");
    NoSuffixBefore(y, " CONTINUE IDENTITY");
    hide HasSuffix;
  }

  lemma TwoWordSuffix(y: string, n: string, first: string)
    requires PlainName(n) && Before(y) && first in {" RESTART", " CONTINUE"}
    ensures !HasSuffix(Upper(y + " " + n), first + " IDENTITY")
  {
    hide HasSuffix, PlainName, Before, Upper;
    if HasSuffix(Upper(y + " " + n), first + " IDENTITY") {
      LastWordIs(y, n, first);
      NoSuffixBefore(y, first);
    }
  }

  lemma LastWordIs(y: string, n: string, first: string)
    requires PlainName(n) && HasSuffix(Upper(y + " " + n), first + " IDENTITY")
    ensures HasSuffix(Upper(y), first)
  {
    hide HasSuffix, PlainName;
    var u := Upper(y + " " + n);
    SuffixTail(u, first, " IDENTITY");
    assert " " + "IDENTITY" == " IDENTITY";
    SuffixWord(y, n, "IDENTITY");
    assert |n| == |Upper(n)|;
    assert y + " " + n == y + (" " + n);
    HeadSuffix(y, " " + n, first, " IDENTITY");
  }

  lemma SuffixTail(u: string, a: string, b: string)
    requires HasSuffix(u, a + b)
    ensures HasSuffix(u, b)
  {
    assert u[|u| - |b|..] == u[|u| - |a + b|..][|a|..];
  }

  lemma HeadSuffix(y: string, n: string, a: string, b: string)
    requires HasSuffix(Upper(y + n), a + b) && |n| == |b|
    ensures HasSuffix(Upper(y), a)
  {
    var u := Upper(y + n);
    assert u[|u| - |a + b|..][..|a|] == a;
    assert Upper(y)[|y| - |a|..] == u[|u| - |a + b|..][..|a|];
  }

  lemma KeptName(y: string, n: string)
    requires PlainName(n) && Before(y) && !Swallowed(n)
    ensures LastModifier(y + " " + n) == None
  {
    var s := y + " " + n;
    TwoWordSuffix(y, n, " RESTART");
    TwoWordSuffix(y, n, " CONTINUE");
    assert " RESTART" + " IDENTITY" == " RESTART IDENTITY" && " CONTINUE" + " IDENTITY" == " CONTINUE IDENTITY";
    assert " " + "CASCADE" == " CASCADE" && " " + "RESTRICT" == " RESTRICT";
    hide HasSuffix, PlainName, Before;
    if HasSuffix(Upper(s), " CASCADE") { SuffixWord(y, n, "CASCADE"); }
    if HasSuffix(Upper(s), " RESTRICT") { SuffixWord(y, n, "RESTRICT"); }
  }

  lemma SwallowedName(y: string, n: string)
    requires Swallowed(n)
    ensures var m := LastModifier(y + " " + n);
            m.Some? && |Word(m.value)| == |n| + 1
  {
    WordSuffix(y, n, Upper(n));
    var u := Upper(y + " " + n);
    hide HasSuffix, Upper;
    assert " " + "CASCADE" == " CASCADE" && " " + "RESTRICT" == " RESTRICT";
    if HasSuffix(u, " CASCADE") && HasSuffix(u, " RESTRICT") { DifferentEnds(u); }
    assert |n| == |Upper(n)|;
  }

  lemma DifferentEnds(u: string)
    ensures !(HasSuffix(u, " CASCADE") && HasSuffix(u, " RESTRICT"))
  {
    if HasSuffix(u, " CASCADE") { EndsAlike(u, " CASCADE"); }
    if HasSuffix(u, " RESTRICT") { EndsAlike(u, " RESTRICT"); }
  }

  lemma LastNameModifier(y: string, n: string)
    requires PlainName(n) && Before(y)
    ensures var s := y + " " + n;
            if Swallowed(n) then StripModifiers(s).rest == y else StripModifiers(s) == Stripped(s, false, false)
  {
    var s := y + " " + n;
    hide LastModifier, Word, PlainName, Before, Swallowed;
    if Swallowed(n) {
      SwallowedName(y, n);
      NothingBefore(y);
      assert s[..|s| - (|n| + 1)] == y;
    } else {
      KeptName(y, n);
    }
  }

  lemma WordSuffix(y: string, n: string, x: string)
    requires Upper(n) == x
    ensures HasSuffix(Upper(y + " " + n), " " + x)
  {
    var u := Upper(y + " " + n);
    assert u[|y|..] == " " + x;
  }

  // ---- The whole statement ----

  lemma ListText(names: seq<string>, tail: string)
    requires names != [] && PlainNames(names) && (tail == "" || tail == ",")
    ensures var s := Join(names, ", ") + tail;
            BlankAfterComma(s) && Trimmed(s) && s != ""
  {
    ListBlanks(names);
    hide Join;
    var j := Join(names, ", ");
    var s := j + tail;
    assert forall i :: 0 <= i < |j| ==> s[i] == j[i];
  }

  lemma ReadList(names: seq<string>, tail: string, restartIdentity: bool, cascade: bool)
    requires names != [] && PlainNames(names) && (tail == "" || tail == ",")
    ensures ReadTables(Stripped("TRUNCATE " + Join(names, ", ") + tail, restartIdentity, cascade))
            == Some(Truncate(names, restartIdentity, cascade))
  {
    hide Join, PlainNames, BlankAfterComma, TableNames, SplitCommas, RemoveOnly, WithoutTable, HasPrefix, Upper, TrimSpace,
         Trimmed;
    var list := Join(names, ", ") + tail;
    ListText(names, tail);
    PlainIsNamed(names);
    NamesRead(names, "", tail);
    NoTableWord(list);
    NoOnly(list, 0);
    ListPlace(Join(names, ", "), tail);
    BlankUnpads(list);
    assert list[0..] == list && "" + Join(names, ", ") + tail == list;
  }

  lemma BlankUnpads(list: string)
    requires Trimmed(list)
    ensures TrimSpace(" " + list) == list
  {
    assert " " + list + "" == " " + list;
    TrimSpaceUnpads(" ", list, "");
  }

  lemma ListPlace(list: string, tail: string)
    ensures var s := "TRUNCATE " + list + tail; HasPrefix(Upper(s), TRUNCATE) && s[8..] == " " + (list + tail)
  {
    var s := "TRUNCATE " + list + tail;
    assert Upper(s)[..8] == TRUNCATE;
    assert |s[8..]| == |" " + (list + tail)|;
  }

  lemma {:induction false} ListEnd(names: seq<string>)
    requires |names| > 1
    ensures Join(names, ", ") == Join(names[..|names| - 1], ", ") + ", " + names[|names| - 1]
    decreases |names|
  {
    var a, more, last := names[0], names[1..], names[|names| - 1];
    var init := names[..|names| - 1];
    if |names| == 2 {
      assert init == [a] && more == [last];
    } else {
      ListEnd(more);
      assert more[..|more| - 1] == init[1..] && more[|more| - 1] == last && init[0] == a;
      Associate(a, Join(init[1..], ", "), last);
    }
  }

  lemma Associate(a: string, b: string, c: string)
    ensures a + ", " + (b + ", " + c) == a + ", " + b + ", " + c
  {
    var l, r := a + ", " + (b + ", " + c), a + ", " + b + ", " + c;
    assert |l| == |r|;
  }

  /** The printed list is the text before the last name, a blank and that name. */
  lemma LastNamePlace(names: seq<string>) returns (y: string)
    requires names != [] && PlainNames(names)
    ensures Before(y) && "TRUNCATE " + Join(names, ", ") == y + " " + names[|names| - 1]
    ensures y == if |names| == 1 then TRUNCATE else "TRUNCATE " + Join(names[..|names| - 1], ", ") + ","
  {
    var last := names[|names| - 1];
    if |names| == 1 {
      y := TRUNCATE;
      assert "TRUNCATE " + last == TRUNCATE + " " + last;
    } else {
      var init := Join(names[..|names| - 1], ", ");
      y := "TRUNCATE " + init + ",";
      ListEnd(names);
      hide *;
      var l, r := "TRUNCATE " + (init + ", " + last), y + " " + last;
      assert |l| == |r|;
      assert l == r;
    }
  }

  lemma NothingLeft(restartIdentity: bool, cascade: bool)
    ensures ReadTables(Stripped(TRUNCATE, restartIdentity, cascade)) == None
  {
    assert Upper(TRUNCATE)[..8] == TRUNCATE;
    assert TRUNCATE[8..] == "";
    NoComma("");
    assert SplitCommas("") == [""] && TableName("") == "" && [""][1..] == [];
  }

  /** Without the trimming at the ends, a printed TRUNCATE is read back exactly
      when its last name is not a word the modifiers swallow. */
  lemma BodyReadBack(t: Truncate)
    requires t.tables != [] && PlainNames(t.tables)
    ensures ReadTables(StripModifiers("TRUNCATE " + Join(t.tables, ", ") + Modifiers(t))) == Some(t)
            <==> !Swallowed(t.tables[|t.tables| - 1])
  {
    var names := t.tables;
    var last := names[|names| - 1];
    assert last in names;
    var y := LastNamePlace(names);
    var s := "TRUNCATE " + Join(names, ", ");
    LastNameModifier(y, last);
    StripPrinted(s, t);
    var r := StripModifiers(s + Modifiers(t));
    hide StripModifiers, ReadTables, Modifiers, Swallowed, Join, Before;
    if Swallowed(last) {
      if |names| == 1 {
        NothingLeft(r.restartIdentity, r.cascade);
      } else {
        var init := names[..|names| - 1];
        assert forall n :: n in init ==> n in names;
        ReadList(init, ",", r.restartIdentity, r.cascade);
      }
    } else {
      ReadList(names, "", r.restartIdentity, r.cascade);
      assert s + "" == s;
    }
  }

  lemma TextParts(t: Truncate)
    ensures TruncateText(t) == "TRUNCATE " + Join(t.tables, ", ") + Modifiers(t)
  {
    var a, x := "TRUNCATE " + Join(t.tables, ", "), if t.restartIdentity then " RESTART IDENTITY" else "";
    var y := if t.cascade then " CASCADE" else "";
    hide Join;
    assert a + x + y == a + (x + y);
  }

  lemma TextEnds(t: Truncate)
    requires t.tables != [] && PlainNames(t.tables)
    ensures var s := TruncateText(t); Trimmed(s) && !HasSuffix(s, ";")
  {
    TextParts(t);
    ListBlanks(t.tables);
    var s, j, m := TruncateText(t), Join(t.tables, ", "), Modifiers(t);
    hide Join, BlankAfterComma, TruncateText, PlainNames;
    assert s[0] == 'T';
    assert s[|s| - 1] == if m == "" then j[|j| - 1] else m[|m| - 1];
    assert m != "" ==> m[|m| - 1] in {'Y', 'E'};
    if HasSuffix(s, ";") { EndsAlike(s, ";"); }
  }

  /** Reading a printed TRUNCATE gives the statement back exactly when its last
      table is not called CASCADE or RESTRICT. */
  lemma TruncateReadBack(t: Truncate)
    requires t.tables != [] && PlainNames(t.tables)
    ensures ReadTruncate(TruncateText(t)) == Some(t) <==> !Swallowed(t.tables[|t.tables| - 1])
  {
    var s := TruncateText(t);
    TextParts(t);
    TextEnds(t);
    BodyReadBack(t);
    TrimSpaceKeepsTrimmed(s);
    hide ReadTables, StripModifiers, TruncateText, PlainNames, Swallowed, TrimSpace, Join;
  }

  // ---- No commas in what is read ----

  lemma {:induction false} PiecesNoComma(s: string)
    ensures forall p :: p in SplitCommas(s) ==> ',' !in p
    decreases |s|
  {
    var i := IndexOf(s, ",");
    IndexFromFirst(s, ",", 0);
    if i < 0 {
      forall j | 0 <= j < |s| ensures s[j] != ',' { assert !OccursAt(s, ",", j); assert s[j..j + 1] == [s[j]]; }
    } else {
      forall j | 0 <= j < i ensures s[..i][j] != ',' { assert !OccursAt(s, ",", j); assert s[j..j + 1] == [s[j]]; }
      PiecesNoComma(s[i + 1..]);
    }
  }

  lemma TrimNoComma(s: string)
    requires ',' !in s
    ensures ',' !in TrimSpace(s)
  {
    var i, j := TrimSpaceCuts(s);
  }

  lemma {:induction false} QuotesNoComma(s: string)
    requires ',' !in s
    ensures ',' !in TrimQuotesLeft(s) && ',' !in TrimQuotesRight(s)
    decreases |s|
  {
    if s != "" {
      QuotesNoComma(s[1..]);
      QuotesNoComma(s[..|s| - 1]);
    }
  }

  lemma NormNoComma(s: string)
    requires ',' !in s
    ensures ',' !in NormIdent(s)
  {
    TrimNoComma(s);
    QuotesNoComma(TrimSpace(s));
    QuotesNoComma(TrimQuotesLeft(TrimSpace(s)));
    hide TrimSpace, TrimQuotesLeft, TrimQuotesRight;
    var t := TrimQuotesRight(TrimQuotesLeft(TrimSpace(s)));
    assert forall i :: 0 <= i < |t| ==> t[i] in t && LowerChar(t[i]) != ',';
  }

  lemma {:induction false} NamesNoComma(parts: seq<string>)
    requires forall p :: p in parts ==> ',' !in p
    ensures forall n :: n in TableNames(parts) ==> ',' !in n
  {
    if parts != [] {
      var a := parts[0];
      assert a in parts && forall p :: p in parts[1..] ==> p in parts;
      NamesNoComma(parts[1..]);
      TrimNoComma(a);
      TrimNoComma(TrimSuffix(TrimSpace(a), "*"));
    }
  }

  /** What is read has at least one table, and no comma in any key. */
  lemma ReadListed(sql: string)
    requires ReadTruncate(sql).Some?
    ensures Truncates.Listed(ReadTruncate(sql).value)
  {
    var r := StripModifiers(TrimSpace(TrimSuffix(TrimSpace(sql), ";")));
    var list := RemoveOnly(WithoutTable(TrimSpace(r.rest[|TRUNCATE|..])), 0);
    PiecesNoComma(list);
    NamesNoComma(SplitCommas(list));
    hide StripModifiers, TrimSpace, RemoveOnly, SplitCommas, TableNames;
    var tables := ReadTruncate(sql).value.tables;
    hide NormIdent;
    forall n | n in Catalog.NormAll(tables) ensures ',' !in n {
      var i :| 0 <= i < |tables| && Catalog.NormAll(tables)[i] == n;
      assert tables[i] in tables;
      NormNoComma(tables[i]);
    }
  }
}
