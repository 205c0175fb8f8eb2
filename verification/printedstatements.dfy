/** What the parser makes of the statements the script prints itself. */
module PrintedStatements {
  import opened Text
  import opened Ast
  import opened Catalog
  import opened Patterns
  import opened Script
  import opened Rereading
  import ColumnReadBack
  import PrintedIndexes
  import PrintedSequences
  import PrintedTables
  import PrintedTypes
  import Replay
  import TruncateNames
  import TruncateParser

  // ---- Prefixes ----

  lemma LeadFirst(lead: string, rest: string, p: string)
    requires |p| <= |lead|
    ensures HasPrefix(Upper(lead + rest), p) <==> HasPrefix(Upper(lead), p)
  {
    assert Upper(lead + rest)[..|p|] == Upper(lead)[..|p|];
  }

  /** A text that begins with CREATE and goes on with neither TABLE nor a table
      modifier. */
  lemma NotTable(upper: string)
    requires |upper| > 9 && upper[7] !in {'G', 'L'} && (upper[7] == 'T' ==> upper[8] == 'Y')
    requires upper[7] == 'U' ==> upper[9] != 'L'
    ensures !TableFirst(upper)
  {
    PrefixHas(upper, "CREATE TABLE", 7);
    PrefixHas(upper, "CREATE TABLE", 8);
    PrefixHas(upper, "CREATE TEMPORARY TABLE", 7);
    PrefixHas(upper, "CREATE TEMPORARY TABLE", 8);
    PrefixHas(upper, "CREATE TEMP TABLE", 7);
    PrefixHas(upper, "CREATE TEMP TABLE", 8);
    PrefixHas(upper, "CREATE UNLOGGED TABLE", 7);
    PrefixHas(upper, "CREATE UNLOGGED TABLE", 9);
    PrefixHas(upper, "CREATE GLOBAL TEMPORARY TABLE", 7);
    PrefixHas(upper, "CREATE LOCAL TEMPORARY TABLE", 7);
    PrefixHas(upper, "CREATE GLOBAL TEMP TABLE", 7);
    PrefixHas(upper, "CREATE LOCAL TEMP TABLE", 7);
    hide HasPrefix;
  }

  lemma NotCreate(upper: string)
    requires upper != "" && upper[0] != 'C'
    ensures !TableFirst(upper) && !HasPrefix(upper, "CREATE UNIQUE INDEX") && !HasPrefix(upper, "CREATE INDEX")
    ensures !HasPrefix(upper, "CREATE TYPE") && !HasPrefix(upper, "CREATE SEQUENCE")
  {
    PrefixHas(upper, "CREATE TABLE", 0);
    PrefixHas(upper, "CREATE TEMPORARY TABLE", 0);
    PrefixHas(upper, "CREATE TEMP TABLE", 0);
    PrefixHas(upper, "CREATE UNLOGGED TABLE", 0);
    PrefixHas(upper, "CREATE GLOBAL TEMPORARY TABLE", 0);
    PrefixHas(upper, "CREATE LOCAL TEMPORARY TABLE", 0);
    PrefixHas(upper, "CREATE GLOBAL TEMP TABLE", 0);
    PrefixHas(upper, "CREATE LOCAL TEMP TABLE", 0);
    PrefixHas(upper, "CREATE UNIQUE INDEX", 0);
    PrefixHas(upper, "CREATE INDEX", 0);
    PrefixHas(upper, "CREATE TYPE", 0);
    PrefixHas(upper, "CREATE SEQUENCE", 0);
    hide HasPrefix;
  }

  // ---- Tables ----

  lemma TableStart(t: TableDef, rest: string)
    ensures TableFirst(Upper(PrintedTables.Lead(t) + rest))
  {
    var lead := PrintedTables.Lead(t);
    if t.temporary {
      assert HasPrefix(Upper(lead), "CREATE TEMPORARY TABLE");
      LeadFirst(lead, rest, "CREATE TEMPORARY TABLE");
    } else if t.unlogged {
      assert HasPrefix(Upper(lead), "CREATE UNLOGGED TABLE");
      LeadFirst(lead, rest, "CREATE UNLOGGED TABLE");
    } else {
      assert HasPrefix(Upper(lead), "CREATE TABLE");
      LeadFirst(lead, rest, "CREATE TABLE");
    }
  }

  lemma TableShape(t: TableDef) returns (rest: string)
    requires PrintedTables.Rereadable(t)
    ensures TableText(t) == PrintedTables.Lead(t) + rest && Trimmed(TableText(t))
  {
    PrintedTables.HeadIs(t);
    hide TableBody, PrintedTables.Lead, TableHead;
    var lead, body, tail := PrintedTables.Lead(t), TableBody(t), TableTail(t);
    rest := t.name + " " + "(" + body + ")" + tail;
    assert TableText(t) == lead + rest;
    LeadVisible(t);
    TailVisible(t);
    var s := TableText(t);
    assert s[0] == lead[0];
    assert s[|s| - 1] == if tail == "" then ')' else tail[|tail| - 1];
  }

  lemma LeadVisible(t: TableDef)
    ensures PrintedTables.Lead(t) != "" && !IsSpace(PrintedTables.Lead(t)[0])
  {
  }

  lemma TailVisible(t: TableDef)
    requires PrintedTables.Clause(t.partitionBy)
    ensures var tail := TableTail(t); tail != "" ==> !IsSpace(tail[|tail| - 1])
  {
    var tail := TableTail(t);
    if tail != "" { assert tail[|tail| - 1] == t.partitionBy[|t.partitionBy| - 1]; }
  }

  lemma TableParsed(t: TableDef, other: Parser)
    requires PrintedTables.Rereadable(t)
    ensures Parse(TableText(t), other) == Read(Replay.TableStatement(PrintedTables.MergedTable(t)))
  {
    hide TableText, PrintedTables.Rereadable, PrintedTables.Lead, PrintedTables.MergedTable, ReadCreateTable, TableFirst,
         TrimSpace;
    var rest := TableShape(t);
    TrimSpaceKeepsTrimmed(TableText(t));
    TableStart(t, rest);
    PrintedTables.TableReread(t);
  }

  // ---- Enums ----

  lemma EnumShape(e: EnumDef) returns (rest: string)
    ensures EnumText(e) == PrintedTypes.TYPE_LEAD + rest && Trimmed(EnumText(e))
  {
    var labels := Join(Quoted(e.labels), LABEL_BREAK);
    hide Join, Quoted;
    rest := e.name + " AS ENUM (\n    " + labels + "\n)";
    assert EnumText(e) == PrintedTypes.TYPE_LEAD + rest;
    var s := EnumText(e);
    assert s[0] == 'C' && s[|s| - 1] == ')';
  }

  lemma TypeStart(rest: string)
    ensures var upper := Upper(PrintedTypes.TYPE_LEAD + rest);
            && !TableFirst(upper) && !HasPrefix(upper, "CREATE UNIQUE INDEX") && !HasPrefix(upper, "CREATE INDEX")
            && !HasPrefix(upper, "CREATE SEQUENCE") && HasPrefix(upper, "CREATE TYPE")
  {
    var lead := PrintedTypes.TYPE_LEAD;
    var upper := Upper(lead + rest);
    LeadFirst(lead, rest, "CREATE TYPE");
    assert Upper(lead) == lead && lead[..11] == "CREATE TYPE" && lead[7] == 'T' && lead[8] == 'Y';
    assert upper[7] == 'T' && upper[8] == 'Y';
    hide HasPrefix, PrintedTypes.TYPE_LEAD;
    NotTable(upper);
    PrefixHas(upper, "CREATE UNIQUE INDEX", 7);
    PrefixHas(upper, "CREATE INDEX", 7);
    PrefixHas(upper, "CREATE SEQUENCE", 7);
  }

  /** The parser passes a printed enum through. */
  lemma EnumParsed(e: EnumDef, other: Parser)
    requires Token(e.name)
    ensures Parse(EnumText(e), other) == Read(Unknown(EnumText(e)))
  {
    hide EnumText, ReadType, TableFirst, TrimSpace, Token, PrintedTypes.TYPE_LEAD;
    var rest := EnumShape(e);
    TrimSpaceKeepsTrimmed(EnumText(e));
    TypeStart(rest);
    PrintedTypes.EnumUnread(e);
  }

  // ---- Indexes ----

  lemma IndexStart(x: IndexDef, more: string)
    ensures var upper := Upper(PrintedIndexes.CREATE + PrintedIndexes.Optional(x.unique, PrintedIndexes.UNIQUE)
                               + PrintedIndexes.INDEX + more);
            !TableFirst(upper) && (HasPrefix(upper, "CREATE UNIQUE INDEX") || HasPrefix(upper, "CREATE INDEX"))
  {
    var lead := PrintedIndexes.CREATE + PrintedIndexes.Optional(x.unique, PrintedIndexes.UNIQUE) + PrintedIndexes.INDEX;
    var p := if x.unique then "CREATE UNIQUE INDEX" else "CREATE INDEX";
    assert lead == p + " " && Upper(p) == p && p[7] == (if x.unique then 'U' else 'I') && (x.unique ==> p[9] == 'I');
    assert lead + more == p + (" " + more);
    PrefixOf(p, " " + more);
    hide HasPrefix;
    NotTable(Upper(lead + more));
  }

  lemma PrefixOf(p: string, more: string)
    requires Upper(p) == p
    ensures var upper := Upper(p + more);
            HasPrefix(upper, p) && |upper| == |p| + |more| && forall i :: 0 <= i < |p| ==> upper[i] == p[i]
  {
    var upper := Upper(p + more);
    forall i | 0 <= i < |p| ensures upper[i] == p[i] { assert Upper(p)[i] == p[i]; }
    assert upper[..|p|] == p;
  }

  lemma IndexParsed(x: IndexDef, other: Parser)
    requires PrintedIndexes.Rereadable(x) && !PrintedIndexes.Stolen(x)
    ensures Parse(IndexText(x), other) == Read(Replay.IndexStatement(x))
  {
    hide IndexText, PrintedIndexes.Rereadable, PrintedIndexes.Stolen, PrintedIndexes.BareText, PrintedIndexes.Rest,
         ReadCreateIndex, TableFirst, TrimSpace, HasPrefix, PrintedIndexes.CREATE, PrintedIndexes.UNIQUE, PrintedIndexes.INDEX;
    PrintedIndexes.TextIsBare(x);
    PrintedIndexes.BareParts(x);
    IndexStart(x, PrintedIndexes.Optional(x.concurrently, PrintedIndexes.CONCURRENTLY) + PrintedIndexes.Rest(x));
    PrintedIndexes.IndexReread(x);
  }

  // ---- Sequences ----

  lemma SequenceStart(more: string)
    ensures var upper := Upper("CREATE SEQUENCE " + more);
            && !TableFirst(upper) && !HasPrefix(upper, "CREATE UNIQUE INDEX") && !HasPrefix(upper, "CREATE INDEX")
            && HasPrefix(upper, "CREATE SEQUENCE")
  {
    var p := "CREATE SEQUENCE";
    assert Upper(p) == p && p[7] == 'S';
    assert "CREATE SEQUENCE " + more == p + (" " + more);
    PrefixOf(p, " " + more);
    hide HasPrefix;
    var upper := Upper(p + (" " + more));
    NotTable(upper);
    PrefixHas(upper, "CREATE UNIQUE INDEX", 7);
    PrefixHas(upper, "CREATE INDEX", 7);
  }

  lemma SequenceParsed(s: SequenceDef, other: Parser)
    requires PrintedSequences.Rereadable(s) && !PrintedSequences.Stolen(s)
    ensures Parse(SequenceText(s), other) == Read(CreateSequence(s.name, s.body))
  {
    hide ReadCreateSequence, TableFirst, TrimSpace, HasPrefix, PrintedSequences.Rereadable, PrintedSequences.Stolen,
         SequenceText, PrintedSequences.NamePart;
    PrintedSequences.TextParts(s);
    TrimSpaceKeepsTrimmed(SequenceText(s));
    SequenceStart(PrintedSequences.NamePart(s));
    PrintedSequences.SequenceReread(s);
  }

  // ---- TRUNCATE ----

  /** Table names the reader can tell apart, the last of them no modifier. */
  predicate RereadableTruncate(t: Truncate) {
    t.tables != [] && TruncateParser.AllNamed(t.tables) && !TruncateNames.Claimed(t.tables)
  }

  lemma TruncateStart(rest: string)
    ensures var upper := Upper("TRUNCATE " + rest);
            && !TableFirst(upper) && !HasPrefix(upper, "CREATE UNIQUE INDEX") && !HasPrefix(upper, "CREATE INDEX")
            && !HasPrefix(upper, "CREATE TYPE") && !HasPrefix(upper, "CREATE SEQUENCE") && HasPrefix(upper, "TRUNCATE")
  {
    var p := "TRUNCATE";
    assert Upper(p) == p && p[0] == 'T';
    assert "TRUNCATE " + rest == p + (" " + rest);
    PrefixOf(p, " " + rest);
    hide HasPrefix;
    NotCreate(Upper("TRUNCATE " + rest));
  }

  lemma TruncateParsed(t: Truncate, other: Parser)
    requires RereadableTruncate(t)
    ensures Parse(TruncateText(t), other) == Read(TruncateTables(t))
  {
    hide TruncateText, TruncateParser.AllNamed, TruncateNames.Claimed, TruncateParser.ReadTruncate,
         TruncateParser.Modifiers, TableFirst, TrimSpace, HasPrefix, Join;
    TruncateNames.NamedEnds(t);
    TrimSpaceKeepsTrimmed(TruncateText(t));
    TruncateParser.TextParts(t);
    AssociateThree("TRUNCATE ", Join(t.tables, ", "), TruncateParser.Modifiers(t));
    TruncateStart(Join(t.tables, ", ") + TruncateParser.Modifiers(t));
    TruncateNames.TruncateReadExact(t);
  }

  /** Reading trims first. */
  lemma ParseTrims(text: string, other: Parser)
    ensures Parse(TrimSpace(text), other) == Parse(text, other)
  {
    var i, j := TrimSpaceCuts(text);
    TrimSpaceKeepsTrimmed(TrimSpace(text));
    hide TrimSpace, TableFirst, HasPrefix;
  }
}
