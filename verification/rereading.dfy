/** How the parser reads statements, for the forms the script prints itself:
    CREATE TYPE, CREATE TABLE, CREATE INDEX, CREATE SEQUENCE and TRUNCATE. */
module Rereading {
  import opened Text
  import opened Ast
  import opened Patterns
  import opened Columns
  import ColumnList
  import ColumnPrint
  import Scanner
  import TruncateParser

  /** What the parser makes of one statement text. */
  datatype Reading = Read(statement: Statement) | Malformed

  type Parser = string -> Reading

  /** A text kept verbatim, without its semicolon. */
  function Verbatim(sql: string): string { TrimSuffix(TrimSpace(sql), ";") }

  // ---- CREATE TYPE ----

  datatype TypeHead = NoType | TypeHead(from: nat, to: nat, rest: nat)

  /** CREATE TYPE name AS: where the name starts and ends, and what follows. */
  function HeadOfType(s: string): (h: TypeHead)
    ensures h.TypeHead? ==> h.from <= h.to <= h.rest <= |s|
  {
    var i := Keyword(s, 0, "CREATE");
    var j := Keyword(s, i, "TYPE");
    var k := BlankEnd(s, j);
    var l := SkipSpaces(s, k);
    if i > 0 && j > i && k > j && l > k && MatchesAt(s, l, "AS") then TypeHead(j, k, l + 2) else NoType
  }

  /** The paren behind the word at i, or -1. */
  function OpenAfter(s: string, i: nat, w: string): (p: int)
    requires i <= |s|
    ensures p == -1 || i <= p < |s|
  {
    var j := SkipSpaces(s, i);
    if j > i && MatchesAt(s, j, w) then OpenAt(s, j + |w|) else -1
  }

  /** The paren at i, behind white space, or -1. */
  function OpenAt(s: string, i: nat): (p: int)
    requires i <= |s|
    ensures p == -1 || i <= p < |s|
  {
    var k := SkipSpaces(s, i);
    if k < |s| && s[k] == '(' then k else -1
  }

  /** The last closing paren from lo on and before n, or -1. */
  function LastClose(s: string, lo: nat, n: nat): (q: int)
    requires n <= |s|
    ensures q == -1 || lo <= q < n
  {
    if n <= lo then -1 else if s[n - 1] == ')' then n - 1 else LastClose(s, lo, n - 1)
  }

  /** The paren that ends the labels of an enum opened at p: the last one on the
      same line, for the pattern crosses no line break. */
  function LabelsEnd(s: string, p: nat): (q: int)
    requires p < |s|
    ensures q == -1 || p + 1 < q < |s|
  {
    LastClose(s, p + 2, LineBreak(s, p + 1))
  }

  function TrimTicksLeft(s: string): (r: string)
    ensures |r| <= |s|
  {
    if s != "" && s[0] == '\'' then TrimTicksLeft(s[1..]) else s
  }

  function TrimTicksRight(s: string): (r: string)
    ensures |r| <= |s|
  {
    if s != "" && s[|s| - 1] == '\'' then TrimTicksRight(s[..|s| - 1]) else s
  }

  function LabelsOf(items: seq<string>): seq<string> {
    seq(|items|, i requires 0 <= i < |items| => TrimTicksRight(TrimTicksLeft(TrimSpace(items[i]))))
  }

  /** An enum with its labels, else a range or composite type kept verbatim, else
      passed through. */
  function ReadType(sql: string): Statement {
    match HeadOfType(sql)
    case NoType => Unknown(sql)
    case TypeHead(from, to, rest) =>
      var p := OpenAfter(sql, rest, "ENUM");
      var q := if p >= 0 then LabelsEnd(sql, p) else -1;
      if q >= 0 then CreateType(sql[from..to], LabelsOf(Scanner.CommaItems(sql[p + 1..q])))
      else if OpenAfter(sql, rest, "RANGE") >= 0 || OpenAt(sql, rest) >= 0 then
        CreateObject(TypeKind, NormIdent(sql[from..to]), false, Verbatim(sql))
      else Unknown(sql)
  }

  // ---- CREATE TABLE ----

  datatype Prefix = NoPrefix | Prefix(temporary: bool, unlogged: bool, at: nat)

  /** One of the words, or none. */
  function Either(s: string, i: nat, a: string, b: string): (n: nat)
    requires i <= |s|
    ensures i <= n <= |s|
  {
    if Keyword(s, i, a) > i then Keyword(s, i, a) else Keyword(s, i, b)
  }

  function IfNotExists(s: string, i: nat): (n: nat)
    requires i <= |s|
    ensures i <= n <= |s|
  {
    var j := Keyword(s, i, "IF");
    var k := Keyword(s, j, "NOT");
    var l := Keyword(s, k, "EXISTS");
    if j > i && k > j && l > k then l else i
  }

  /** CREATE [TEMPORARY | UNLOGGED] TABLE [IF NOT EXISTS], up to the name. */
  function TablePrefix(s: string): (p: Prefix)
    ensures p.Prefix? ==> p.at <= |s|
  {
    var i := Keyword(s, 0, "CREATE");
    var g := Either(s, i, "GLOBAL", "LOCAL");
    var t := Either(s, g, "TEMPORARY", "TEMP");
    var u := if t > g then t else Keyword(s, g, "UNLOGGED");
    var n := Keyword(s, u, "TABLE");
    if i > 0 && n > u then Prefix(t > g, t == g && u > g, IfNotExists(s, n)) else NoPrefix
  }

  /** The last opening paren from lo on and before n, or -1. */
  function LastOpen(s: string, lo: nat, n: nat): (q: int)
    requires n <= |s|
    ensures q == -1 || lo <= q < n
  {
    if n <= lo then -1 else if s[n - 1] == '(' then n - 1 else LastOpen(s, lo, n - 1)
  }

  /** Where the name at j ends and the table body opens: behind the whole word, or
      at the last paren inside it; -1 for neither. */
  function NameAndOpen(s: string, j: nat): (r: (int, int))
    requires j <= |s|
    ensures r.1 == -1 || (j <= r.0 <= r.1 < |s|)
  {
    var k := BlankEnd(s, j);
    if k > j && OpenAt(s, k) >= 0 then (k, OpenAt(s, k))
    else var q := LastOpen(s, j + 1, k); (q, q)
  }

  const PARTITION_BY := "PARTITION BY"

  /** The partition clause in what follows the table body. */
  function PartitionClause(rest: string): string {
    var r := TrimSpace(Verbatim(rest));
    var i := IndexOf(Upper(r), PARTITION_BY);
    if i < 0 then "" else TrimSpace(r[i + |PARTITION_BY|..])
  }

  function ReadBody(sql: string, p: Prefix, name: string, open: nat): Reading
    requires p.Prefix?
  {
    match Scanner.ParenBody(sql, open)
    case Inside(body) =>
      (match ColumnList.ReadColumnList(body)
       case BadColumn(_) => Malformed
       case Listed(columns, constraints) =>
         var rest := if open + |body| + 2 <= |sql| then sql[open + |body| + 2..] else "";
         Read(CreateTable(name, p.temporary, p.unlogged, columns, constraints, PartitionClause(rest))))
    case _ => Malformed
  }

  /** Without a body: a partition is kept verbatim, anything else is an error. */
  function ReadPartition(sql: string, p: Prefix): Reading
    requires p.Prefix? ==> p.at <= |sql|
  {
    if p.NoPrefix? then Malformed
    else
      var k := BlankEnd(sql, p.at);
      var l := SkipSpaces(sql, k);
      var m := Keyword(sql, l, "PARTITION");
      if k > p.at && l > k && m > l && Keyword(sql, m, "OF") > m
      then Read(CreateObject(Partition, NormIdent(sql[p.at..k]), false, Verbatim(sql)))
      else Malformed
  }

  function ReadCreateTable(sql: string): Reading {
    var p := TablePrefix(sql);
    if p.NoPrefix? then Malformed
    else
      var (end, open) := NameAndOpen(sql, p.at);
      if open >= 0 then ReadBody(sql, p, sql[p.at..end], open) else ReadPartition(sql, p)
  }

  // ---- CREATE INDEX ----

  datatype IndexTail = NoTail | IndexTail(name: string, tableName: string, body: string)

  /** name ON table body, to the end of the line. */
  function TailOfIndex(s: string, i: nat): IndexTail
    requires i <= |s|
  {
    var k := BlankEnd(s, i);
    var l := SkipSpaces(s, k);
    var on := Keyword(s, l, "ON");
    var t := BlankEnd(s, on);
    var b := SkipSpaces(s, t);
    if k > i && l > k && on > l && t > on
    then IndexTail(s[i..k], s[on..t], Verbatim(s[b..LineBreak(s, b)]))
    else NoTail
  }

  datatype IndexRead = NoIndex | IndexRead(concurrently: bool, ifNotExists: bool, tail: IndexTail)

  /** An optional phrase is taken when the rest can be read behind it. */
  function AfterIfNotExists(s: string, i: nat): IndexRead
    requires i <= |s|
  {
    var j := IfNotExists(s, i);
    if j > i && TailOfIndex(s, j).IndexTail? then IndexRead(false, true, TailOfIndex(s, j))
    else if TailOfIndex(s, i).IndexTail? then IndexRead(false, false, TailOfIndex(s, i))
    else NoIndex
  }

  function AfterConcurrently(s: string, i: nat): IndexRead
    requires i <= |s|
  {
    var j := Keyword(s, i, "CONCURRENTLY");
    if j > i && AfterIfNotExists(s, j).IndexRead? then AfterIfNotExists(s, j).(concurrently := true)
    else AfterIfNotExists(s, i)
  }

  function ReadCreateIndex(sql: string): Reading {
    var i := Keyword(sql, 0, "CREATE");
    var u := Keyword(sql, i, "UNIQUE");
    var x := Keyword(sql, u, "INDEX");
    if i == 0 || x == u then Malformed
    else
      match AfterConcurrently(sql, x)
      case NoIndex => Malformed
      case IndexRead(concurrently, ifNotExists, tail) =>
        if tail.NoTail? then Malformed
        else Read(CreateIndex(tail.name, tail.tableName, u > i, concurrently, ifNotExists, tail.body))
  }

  // ---- CREATE SEQUENCE ----

  /** The text from i on, with one blank for every run of white space. */
  function Flattened(s: string, i: nat): string
    requires i <= |s|
    decreases |s| - i
  {
    if i == |s| then ""
    else if IsBlank(s[i]) then " " + Flattened(s, SkipSpaces(s, i + 1))
    else [s[i]] + Flattened(s, i + 1)
  }

  /** Where the name starts: behind IF NOT EXISTS, if a name follows it. */
  function SequenceName(s: string, i: nat): (n: nat)
    requires i <= |s|
    ensures i <= n <= |s|
  {
    var j := IfNotExists(s, i);
    if BlankEnd(s, j) > j then j else i
  }

  function ReadCreateSequence(sql: string): Reading {
    var i := Keyword(sql, 0, "CREATE");
    var k := Keyword(sql, i, "SEQUENCE");
    var from := SequenceName(sql, k);
    var to := BlankEnd(sql, from);
    if i == 0 || k == i || to == from then Malformed
    else Read(CreateSequence(sql[from..to], Flattened(TrimSpace(sql[to..]), 0)))
  }

  // ---- The dispatch ----

  predicate TableFirst(upper: string) {
    || HasPrefix(upper, "CREATE TABLE") || HasPrefix(upper, "CREATE TEMPORARY TABLE")
    || HasPrefix(upper, "CREATE TEMP TABLE") || HasPrefix(upper, "CREATE UNLOGGED TABLE")
    || HasPrefix(upper, "CREATE GLOBAL TEMPORARY TABLE") || HasPrefix(upper, "CREATE LOCAL TEMPORARY TABLE")
    || HasPrefix(upper, "CREATE GLOBAL TEMP TABLE") || HasPrefix(upper, "CREATE LOCAL TEMP TABLE")
  }

  /** Reading a statement; `other` reads the kinds not modelled here. */
  function Parse(text: string, other: Parser): Reading {
    var sql := TrimSpace(text);
    var upper := Upper(sql);
    if TableFirst(upper) then ReadCreateTable(sql)
    else if HasPrefix(upper, "CREATE UNIQUE INDEX") || HasPrefix(upper, "CREATE INDEX") then ReadCreateIndex(sql)
    else if HasPrefix(upper, "CREATE SEQUENCE") then ReadCreateSequence(sql)
    else if HasPrefix(upper, "CREATE TYPE") then Read(ReadType(sql))
    else if HasPrefix(upper, "TRUNCATE") then
      (match TruncateParser.ReadTruncate(sql)
       case Some(t) => Read(TruncateTables(t))
       case None => Read(Unknown(sql)))
    else other(sql)
  }

  // ---- The words of a printed text ----

  /** A different character means a different word. */
  lemma NotKeyword(s: string, i: nat, w: string, k: nat)
    requires i <= |s| && k < |w| && (i + k < |s| ==> LowerChar(s[i + k]) != LowerChar(w[k]))
    ensures !MatchesAt(s, i, w) && Keyword(s, i, w) == i
  {
    MatchHas(s, i, w, k);
  }

  /** A word ends at the blank behind it. */
  lemma WordEnds(a: string, word: string, rest: string)
    requires Token(word) && (rest != "" ==> IsBlank(rest[0]))
    ensures BlankEnd(a + word + rest, |a|) == |a| + |word|
  {
    var s, n := a + word + rest, |a| + |word|;
    assert forall j :: |a| <= j < n ==> s[j] == word[j - |a|];
    assert rest != "" ==> s[n] == rest[0];
    ColumnList.BlankRun(s, |a|, n);
  }

  /** Neither the name of a table nor what follows it is IF NOT EXISTS. */
  lemma NotIf(s: string, i: nat, n: nat)
    requires n > 0 && i + n + 1 < |s| && (forall j :: i <= j < i + n ==> !IsBlank(s[j]))
    requires s[i + n] == ' ' && !IsBlank(s[i + n + 1]) && LowerChar(s[i + n + 1]) != 'n'
    ensures IfNotExists(s, i) == i
  {
    MatchHas(s, i, "IF", 1);
    hide MatchesAt;
    if Keyword(s, i, "IF") > i {
      assert IsBlank(s[i + 2]);
      ColumnPrint.OneBlank(s, i + 2);
      NotKeyword(s, i + 3, "NOT", 0);
    }
  }

  /** IF NOT EXISTS is never taken for the name of a table, so that the pattern has
      nothing to go back to once it has read the phrase. */
  lemma NoOtherName(s: string, i: nat, temporary: bool, unlogged: bool)
    requires i <= |s| && IfNotExists(s, i) > i
    ensures NameAndOpen(s, i).1 == -1 && ReadPartition(s, Prefix(temporary, unlogged, i)) == Malformed
  {
    var j := Keyword(s, i, "IF");
    assert j > i && Keyword(s, j, "NOT") > j;
    MatchHas(s, i, "IF", 0);
    MatchHas(s, i, "IF", 1);
    MatchHas(s, j, "NOT", 0);
    assert IsBlank(s[i + 2]);
    hide MatchesAt;
    ColumnList.BlankRun(s, i, i + 2);
    assert LastOpen(s, i + 1, i + 2) == -1;
    NotKeyword(s, j, "PARTITION", 0);
    hide Keyword;
    assert SkipSpaces(s, i + 2) == j;
  }
}
