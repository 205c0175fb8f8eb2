/** Reading back a printed CREATE TABLE. */
module PrintedTables {
  import opened Text
  import opened Ast
  import opened Catalog
  import opened Patterns
  import opened Columns
  import opened Script
  import opened Rereading
  import ColumnList
  import ColumnPrint
  import ColumnReadBack
  import Replay
  import Scanner

  // ---- Up to the name ----

  const PLAIN := "CREATE TABLE "

  const TEMPORARY := "CREATE TEMPORARY TABLE "

  const UNLOGGED := "CREATE UNLOGGED TABLE "

  function Lead(t: TableDef): string {
    if t.temporary then TEMPORARY else if t.unlogged then UNLOGGED else PLAIN
  }

  /** A text that goes on with a name and an opening paren. */
  predicate Opens(s: string, i: nat, name: string) {
    && Token(name) && i + |name| + 1 < |s| && s[i..i + |name|] == name && s[i + |name|] == ' ' && s[i + |name| + 1] == '('
  }

  lemma NameStarts(s: string, i: nat, name: string)
    requires Opens(s, i, name)
    ensures i < |s| && !IsBlank(s[i]) && IfNotExists(s, i) == i
  {
    assert forall j :: i <= j < i + |name| ==> s[j] == s[i..i + |name|][j - i] == name[j - i];
    hide IfNotExists;
    NotIf(s, i, |name|);
  }

  lemma LeadWords()
    ensures |PLAIN| == 13 && PLAIN[0..6] == "CREATE" && PLAIN[6] == ' ' && PLAIN[7..12] == "TABLE" && PLAIN[12] == ' '
    ensures PLAIN[7] == 'T' && PLAIN[8] == 'A'
    ensures |TEMPORARY| == 23 && TEMPORARY[0..6] == "CREATE" && TEMPORARY[6] == ' ' && TEMPORARY[7..16] == "TEMPORARY"
    ensures TEMPORARY[7] == 'T' && TEMPORARY[16] == ' ' && TEMPORARY[17] == 'T' && TEMPORARY[17..22] == "TABLE"
    ensures TEMPORARY[22] == ' '
    ensures |UNLOGGED| == 22 && UNLOGGED[0..6] == "CREATE" && UNLOGGED[6] == ' ' && UNLOGGED[7..15] == "UNLOGGED"
    ensures UNLOGGED[7] == 'U' && UNLOGGED[15] == ' ' && UNLOGGED[16] == 'T' && UNLOGGED[16..21] == "TABLE"
    ensures UNLOGGED[21] == ' '
  {
  }

  lemma PlainPrefix(s: string)
    requires |s| > 13 && s[..|PLAIN|] == PLAIN && !IsBlank(s[13]) && IfNotExists(s, 13) == 13
    ensures TablePrefix(s) == Prefix(false, false, 13)
  {
    hide MatchesAt, IfNotExists, PLAIN, Keyword;
    LeadWords();
    SameStart(s, PLAIN, 0, 6);
    SameStart(s, PLAIN, 7, 12);
    SameStart(s, PLAIN, 8, 8);
    KeywordAt(s, 0, "CREATE");
    NotKeyword(s, 7, "GLOBAL", 0);
    NotKeyword(s, 7, "LOCAL", 0);
    NotKeyword(s, 7, "TEMPORARY", 1);
    NotKeyword(s, 7, "TEMP", 1);
    NotKeyword(s, 7, "UNLOGGED", 0);
    KeywordAt(s, 7, "TABLE");
  }

  lemma TemporaryPrefix(s: string)
    requires |s| > 23 && s[..|TEMPORARY|] == TEMPORARY && !IsBlank(s[23]) && IfNotExists(s, 23) == 23
    ensures TablePrefix(s) == Prefix(true, false, 23)
  {
    hide MatchesAt, IfNotExists, TEMPORARY, Keyword;
    LeadWords();
    SameStart(s, TEMPORARY, 0, 6);
    SameStart(s, TEMPORARY, 7, 16);
    SameStart(s, TEMPORARY, 17, 22);
    KeywordAt(s, 0, "CREATE");
    NotKeyword(s, 7, "GLOBAL", 0);
    NotKeyword(s, 7, "LOCAL", 0);
    KeywordAt(s, 7, "TEMPORARY");
    KeywordAt(s, 17, "TABLE");
  }

  lemma UnloggedPrefix(s: string)
    requires |s| > 22 && s[..|UNLOGGED|] == UNLOGGED && !IsBlank(s[22]) && IfNotExists(s, 22) == 22
    ensures TablePrefix(s) == Prefix(false, true, 22)
  {
    hide MatchesAt, IfNotExists, UNLOGGED, Keyword;
    LeadWords();
    SameStart(s, UNLOGGED, 0, 6);
    SameStart(s, UNLOGGED, 7, 15);
    SameStart(s, UNLOGGED, 16, 21);
    KeywordAt(s, 0, "CREATE");
    NotKeyword(s, 7, "GLOBAL", 0);
    NotKeyword(s, 7, "LOCAL", 0);
    NotKeyword(s, 7, "TEMPORARY", 0);
    NotKeyword(s, 7, "TEMP", 0);
    KeywordAt(s, 7, "UNLOGGED");
    KeywordAt(s, 16, "TABLE");
  }

  /** A text begins with every part of its lead. */
  lemma SameStart(s: string, lead: string, i: nat, j: nat)
    requires |lead| <= |s| && s[..|lead|] == lead && i <= j < |lead|
    ensures s[i..j] == lead[i..j] && s[j] == lead[j] && s[i] == lead[i]
  {
    assert s[..|lead|][i..j] == s[i..j];
    assert s[j] == s[..|lead|][j] && s[i] == s[..|lead|][i];
  }

  lemma PrefixRead(t: TableDef, s: string)
    requires |Lead(t)| < |s| && s[..|Lead(t)|] == Lead(t) && Opens(s, |Lead(t)|, t.name)
    ensures TablePrefix(s) == Prefix(t.temporary, t.unlogged && !t.temporary, |Lead(t)|)
  {
    NameStarts(s, |Lead(t)|, t.name);
    LeadWords();
    hide Opens, TablePrefix, IfNotExists;
    if t.temporary { TemporaryPrefix(s); } else if t.unlogged { UnloggedPrefix(s); } else { PlainPrefix(s); }
  }

  lemma OpenRead(s: string, i: nat, name: string)
    requires Opens(s, i, name)
    ensures NameAndOpen(s, i) == (i + |name|, i + |name| + 1)
  {
    var k := i + |name|;
    assert forall j :: i <= j < k ==> s[j] == s[i..k][j - i] == name[j - i];
    ColumnList.BlankRun(s, i, k);
    ColumnPrint.OneBlank(s, k);
    hide BlankEnd, SkipSpaces, LastOpen;
  }

  // ---- Behind the body ----

  predicate Clause(p: string) { p == "" || (Trimmed(p) && p[|p| - 1] != ';') }

  lemma ClauseRead(p: string)
    requires Clause(p)
    ensures PartitionClause(if p == "" then "" else " PARTITION BY " + p) == p
  {
    if p == "" {
      assert TrimSpace("") == "" && Verbatim("") == "";
      IndexFromFirst(Upper(""), PARTITION_BY, 0);
    } else {
      ClauseFound(p);
    }
  }

  lemma ClauseFound(p: string)
    requires p != "" && Clause(p)
    ensures PartitionClause(" PARTITION BY " + p) == p
  {
    hide TrimSpace, IndexOf, Trimmed, PARTITION_BY;
    var r := PARTITION_BY + " " + p;
    ClauseShape(p);
    SuffixHas(r, ";", 0);
    TrimSpaceUnpads(" ", r, "");
    TrimSpaceKeepsTrimmed(r);
    FirstHere(r, p);
    TrimSpaceUnpads(" ", p, "");
  }

  lemma ClauseShape(p: string)
    requires p != "" && Clause(p)
    ensures var r := PARTITION_BY + " " + p;
            && " PARTITION BY " + p == " " + r + "" && Trimmed(r) && r[|r| - 1] != ';' && r[|PARTITION_BY|..] == " " + p + ""
            && AllSpace(" ") && AllSpace("") && Trimmed(p)
  {
    var r := PARTITION_BY + " " + p;
    assert r[0] == PARTITION_BY[0] && r[|r| - 1] == p[|p| - 1];
    assert " PARTITION BY " == " " + PARTITION_BY + " ";
  }

  lemma FirstHere(r: string, p: string)
    requires r == PARTITION_BY + " " + p
    ensures IndexOf(Upper(r), PARTITION_BY) == 0
  {
    assert Upper(PARTITION_BY) == PARTITION_BY;
    assert Upper(r)[0..12] == Upper(PARTITION_BY);
    FirstOccurrence(Upper(r), PARTITION_BY, 0, 0);
  }

  // ---- The whole table ----

  /** A table as the parser makes them, of which nothing is lost. */
  ghost predicate Rereadable(t: TableDef) {
    && Token(t.name) && Scanner.AllItems(Items(t)) && Clause(t.partitionBy)
    && (forall c :: c in t.columns ==> ColumnReadBack.Printable(c) && ColumnList.ComesBack(c))
    && (forall c :: c in t.constraints ==> ColumnList.Stated(c) && ColumnList.OneLine(c))
  }

  /** The table that is read: the inline constraints of a column as one text. */
  function MergedTable(t: TableDef): TableDef {
    t.(unlogged := t.unlogged && !t.temporary, columns := ColumnList.MergedColumns(t.columns))
  }

  lemma BodyListed(t: TableDef)
    requires Rereadable(t)
    ensures ColumnList.ReadColumnList(TableBody(t))
            == ColumnList.Listed(ColumnList.MergedColumns(t.columns), t.constraints)
  {
    hide ColumnList.ReadColumnList, TableBody, Items, ColumnReadBack.Printable, ColumnList.ComesBack, ColumnList.Stated,
         ColumnList.OneLine, Scanner.AllItems;
    ColumnList.TableReadBackExact(t);
  }

  lemma HeadIs(t: TableDef)
    ensures TableHead(t) == Lead(t) + t.name + " "
  {
    assert "CREATE " + TableKeyword(t) + " " == Lead(t);
  }

  lemma TextPlaces(t: TableDef)
    requires Token(t.name)
    ensures var s, n := TableText(t), |Lead(t)|;
            && n < |s| && s[..n] == Lead(t) && Opens(s, n, t.name) && |TableHead(t)| == n + |t.name| + 1
            && s[|TableHead(t)| + |TableBody(t)| + 2..] == TableTail(t)
            && |TableHead(t)| + |TableBody(t)| + 2 <= |s|
  {
    HeadIs(t);
    hide TableHead, TableBody, TableTail, Lead;
    Places(Lead(t), t.name, TableBody(t), TableTail(t));
  }

  lemma Places(lead: string, name: string, body: string, tail: string)
    requires Token(name)
    ensures var s, n := lead + name + " " + "(" + body + ")" + tail, |lead|;
            n < |s| && s[..n] == lead && Opens(s, n, name) && s[n + |name| + 1 + |body| + 2..] == tail
  {
    var s, n := lead + name + " " + "(" + body + ")" + tail, |lead|;
    hide Token;
    assert s == lead + (name + " " + "(" + body + ")" + tail);
    assert s[n..n + |name|] == name;
  }

  /** A printed table is read as that table, with inline constraints joined. */
  lemma TableReread(t: TableDef)
    requires Rereadable(t)
    ensures ReadCreateTable(TableText(t)) == Read(Replay.TableStatement(MergedTable(t)))
  {
    hide Opens, Token, TablePrefix, NameAndOpen, PartitionClause, ColumnList.ReadColumnList, ColumnList.MergedColumns,
         Scanner.AllItems, Items, TableText, TableHead, TableBody, TableTail, Lead, Scanner.ParenBody, Scanner.FirstClose,
         Scanner.CommaItems, Clause, Columns.ParseColumn;
    var s := TableText(t);
    TextPlaces(t);
    PrefixRead(t, s);
    OpenRead(s, |Lead(t)|, t.name);
    Scanner.TableBodyRoundTrip(t);
    BodyListed(t);
    TailRead(t);
    NameSlice(s, |Lead(t)|, t.name);
  }

  lemma NameSlice(s: string, i: nat, name: string)
    requires Opens(s, i, name)
    ensures i + |name| <= |s| && s[i..i + |name|] == name
  {
  }

  lemma TailRead(t: TableDef)
    requires Clause(t.partitionBy)
    ensures PartitionClause(TableTail(t)) == t.partitionBy
  {
    ClauseRead(t.partitionBy);
  }

  // ---- Printing it again ----

  lemma MergedItems(t: TableDef)
    requires forall c :: c in t.columns ==> ColumnReadBack.Printable(c)
    ensures Items(MergedTable(t)) == Items(t)
  {
    hide ColumnText, ConstraintText, ColumnReadBack.Printable;
    forall i | 0 <= i < |t.columns| ensures ColumnText(MergedTable(t).columns[i]) == ColumnText(t.columns[i]) {
      assert t.columns[i] in t.columns;
      ColumnReadBack.InlineSolid(t.columns[i]);
      ColumnReadBack.MergedText(t.columns[i]);
    }
  }

  /** The table that is read prints the same text. */
  lemma MergedTableText(t: TableDef)
    requires forall c :: c in t.columns ==> ColumnReadBack.Printable(c)
    ensures TableText(MergedTable(t)) == TableText(t)
  {
    MergedItems(t);
    hide Items, ColumnList.MergedColumns;
  }
}
