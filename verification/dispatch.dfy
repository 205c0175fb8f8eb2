/** Which reader a statement text goes to. */
module Dispatch {
  import opened Text
  import opened Ast
  import opened Rereading
  import TruncateParser

  const TABLE_HEADS := {
    "CREATE TABLE", "CREATE TEMPORARY TABLE", "CREATE TEMP TABLE", "CREATE UNLOGGED TABLE",
    "CREATE GLOBAL TEMPORARY TABLE", "CREATE LOCAL TEMPORARY TABLE", "CREATE GLOBAL TEMP TABLE", "CREATE LOCAL TEMP TABLE"}

  lemma HeadSeen(h: string, rest: string)
    ensures HasPrefix(Upper(h + rest), Upper(h))
  {
    assert Upper(h + rest)[..|h|] == Upper(h);
  }

  lemma TableSeen(u: string, h: string)
    requires h in TABLE_HEADS && HasPrefix(u, h)
    ensures TableFirst(u)
  {
    hide HasPrefix;
  }

  /** Letters tell the heads apart. */
  lemma NoTable(u: string)
    requires |u| > 7 && u[7] !in {'T', 'U', 'G', 'L'}
    ensures !TableFirst(u)
  {
    hide HasPrefix;
    forall h | h in TABLE_HEADS ensures HasPrefix(u, h) ==> h[7] in {'T', 'U', 'G', 'L'} && u[7] == h[7] {
      HeadLetter(h);
      PrefixHas(u, h, 7);
    }
    Heads();
  }

  lemma Heads()
    ensures "CREATE TABLE" in TABLE_HEADS && "CREATE TEMPORARY TABLE" in TABLE_HEADS && "CREATE TEMP TABLE" in TABLE_HEADS
    ensures "CREATE UNLOGGED TABLE" in TABLE_HEADS && "CREATE GLOBAL TEMPORARY TABLE" in TABLE_HEADS
    ensures "CREATE LOCAL TEMPORARY TABLE" in TABLE_HEADS && "CREATE GLOBAL TEMP TABLE" in TABLE_HEADS
    ensures "CREATE LOCAL TEMP TABLE" in TABLE_HEADS
  {
  }

  lemma HeadLetter(h: string)
    requires h in TABLE_HEADS
    ensures |h| > 7 && h[7] in {'T', 'U', 'G', 'L'}
  {
  }

  /** CREATE TABLE in any of its forms, in any case. */
  lemma TableDispatched(sql: string, h: string, rest: string, other: Parser)
    requires sql == h + rest && Upper(h) in TABLE_HEADS && Trimmed(sql)
    ensures Parse(sql, other) == ReadCreateTable(sql)
  {
    hide TABLE_HEADS, HasPrefix, Upper, TrimSpace, TableFirst, ReadCreateTable;
    HeadSeen(h, rest);
    TrimSpaceKeepsTrimmed(sql);
    TableSeen(Upper(sql), Upper(h));
  }

  lemma IndexDispatched(sql: string, h: string, rest: string, other: Parser)
    requires sql == h + rest && Upper(h) in {"CREATE INDEX", "CREATE UNIQUE INDEX"} && Trimmed(sql)
    ensures Parse(sql, other) == ReadCreateIndex(sql)
  {
    hide HasPrefix, Upper, TrimSpace, TableFirst, ReadCreateIndex;
    var u := Upper(sql);
    HeadSeen(h, rest);
    TrimSpaceKeepsTrimmed(sql);
    PrefixHas(u, Upper(h), 7);
    PrefixHas(u, Upper(h), 8);
    if Upper(h) == "CREATE INDEX" {
      NoTable(u);
    } else {
      PrefixHas(u, "CREATE UNLOGGED TABLE", 9);
      PrefixHas(u, Upper(h), 9);
      OnlyUnlogged(u);
    }
  }

  lemma OnlyUnlogged(u: string)
    requires |u| > 7 && u[7] == 'U' && !HasPrefix(u, "CREATE UNLOGGED TABLE")
    ensures !TableFirst(u)
  {
    hide HasPrefix;
    PrefixHas(u, "CREATE TABLE", 7);
    PrefixHas(u, "CREATE TEMPORARY TABLE", 7);
    PrefixHas(u, "CREATE TEMP TABLE", 7);
    PrefixHas(u, "CREATE GLOBAL TEMPORARY TABLE", 7);
    PrefixHas(u, "CREATE LOCAL TEMPORARY TABLE", 7);
    PrefixHas(u, "CREATE GLOBAL TEMP TABLE", 7);
    PrefixHas(u, "CREATE LOCAL TEMP TABLE", 7);
  }

  lemma SequenceHead(u: string)
    requires HasPrefix(u, "CREATE SEQUENCE")
    ensures !TableFirst(u) && !HasPrefix(u, "CREATE UNIQUE INDEX") && !HasPrefix(u, "CREATE INDEX")
  {
    hide HasPrefix, TableFirst;
    PrefixHas(u, "CREATE SEQUENCE", 7);
    NoTable(u);
    PrefixHas(u, "CREATE UNIQUE INDEX", 7);
    PrefixHas(u, "CREATE INDEX", 7);
  }

  lemma SequenceDispatched(sql: string, h: string, rest: string, other: Parser)
    requires sql == h + rest && Upper(h) == "CREATE SEQUENCE" && Trimmed(sql)
    ensures Parse(sql, other) == ReadCreateSequence(sql)
  {
    hide HasPrefix, Upper, TrimSpace, TableFirst, ReadCreateSequence;
    HeadSeen(h, rest);
    TrimSpaceKeepsTrimmed(sql);
    SequenceHead(Upper(sql));
  }

  lemma TypeHead(u: string)
    requires HasPrefix(u, "CREATE TYPE")
    ensures !TableFirst(u) && !HasPrefix(u, "CREATE UNIQUE INDEX") && !HasPrefix(u, "CREATE INDEX")
    ensures !HasPrefix(u, "CREATE SEQUENCE")
  {
    hide HasPrefix, TableFirst;
    PrefixHas(u, "CREATE TYPE", 7);
    PrefixHas(u, "CREATE TYPE", 8);
    TypeNoTable(u);
    PrefixHas(u, "CREATE UNIQUE INDEX", 7);
    PrefixHas(u, "CREATE INDEX", 7);
    PrefixHas(u, "CREATE SEQUENCE", 7);
  }

  lemma TypeDispatched(sql: string, h: string, rest: string, other: Parser)
    requires sql == h + rest && Upper(h) == "CREATE TYPE" && Trimmed(sql)
    ensures Parse(sql, other) == Read(ReadType(sql))
  {
    hide HasPrefix, Upper, TrimSpace, TableFirst, ReadType;
    HeadSeen(h, rest);
    TrimSpaceKeepsTrimmed(sql);
    TypeHead(Upper(sql));
  }

  lemma TypeNoTable(u: string)
    requires |u| > 8 && u[7] == 'T' && u[8] == 'Y'
    ensures !TableFirst(u)
  {
    hide HasPrefix;
    PrefixHas(u, "CREATE TABLE", 8);
    PrefixHas(u, "CREATE TEMPORARY TABLE", 8);
    PrefixHas(u, "CREATE TEMP TABLE", 8);
    PrefixHas(u, "CREATE UNLOGGED TABLE", 7);
    PrefixHas(u, "CREATE GLOBAL TEMPORARY TABLE", 7);
    PrefixHas(u, "CREATE LOCAL TEMPORARY TABLE", 7);
    PrefixHas(u, "CREATE GLOBAL TEMP TABLE", 7);
    PrefixHas(u, "CREATE LOCAL TEMP TABLE", 7);
  }

  /** TRUNCATE; a text without a table is passed through. */
  lemma TruncateDispatched(sql: string, h: string, rest: string, other: Parser)
    requires sql == h + rest && Upper(h) == "TRUNCATE" && Trimmed(sql)
    ensures Parse(sql, other)
            == match TruncateParser.ReadTruncate(sql)
               case Some(t) => Read(TruncateTables(t))
               case None => Read(Unknown(sql))
  {
    hide HasPrefix, Upper, TrimSpace, TableFirst, TruncateParser.ReadTruncate;
    var u := Upper(sql);
    HeadSeen(h, rest);
    TrimSpaceKeepsTrimmed(sql);
    PrefixHas(u, "TRUNCATE", 0);
    NoCreate(u);
  }

  lemma NoCreate(u: string)
    requires u != "" && u[0] != 'C'
    ensures !TableFirst(u) && !HasPrefix(u, "CREATE UNIQUE INDEX") && !HasPrefix(u, "CREATE INDEX")
    ensures !HasPrefix(u, "CREATE SEQUENCE") && !HasPrefix(u, "CREATE TYPE")
  {
    hide HasPrefix;
    PrefixHas(u, "CREATE TABLE", 0);
    PrefixHas(u, "CREATE TEMPORARY TABLE", 0);
    PrefixHas(u, "CREATE TEMP TABLE", 0);
    PrefixHas(u, "CREATE UNLOGGED TABLE", 0);
    PrefixHas(u, "CREATE GLOBAL TEMPORARY TABLE", 0);
    PrefixHas(u, "CREATE LOCAL TEMPORARY TABLE", 0);
    PrefixHas(u, "CREATE GLOBAL TEMP TABLE", 0);
    PrefixHas(u, "CREATE LOCAL TEMP TABLE", 0);
    PrefixHas(u, "CREATE UNIQUE INDEX", 0);
    PrefixHas(u, "CREATE INDEX", 0);
    PrefixHas(u, "CREATE SEQUENCE", 0);
    PrefixHas(u, "CREATE TYPE", 0);
  }

  /** What begins with neither C nor T is for another reader. */
  lemma OtherDispatched(sql: string, other: Parser)
    requires sql != "" && Trimmed(sql) && LowerChar(sql[0]) !in {'c', 't'}
    ensures Parse(sql, other) == other(sql)
  {
    hide HasPrefix, Upper, TrimSpace, TableFirst;
    var u := Upper(sql);
    TrimSpaceKeepsTrimmed(sql);
    assert u[0] == UpperChar(sql[0]) && u[0] !in {'C', 'T'};
    NoCreate(u);
    PrefixHas(u, "TRUNCATE", 0);
  }
}
