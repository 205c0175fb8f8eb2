/** The emitted script: which statements are printed, in which order, and how
    each is written. */
module Script {
  import opened Text
  import opened Ast
  import opened Catalog

  // ---- Statement texts, without their closing semicolon ----

  function SequenceText(s: SequenceDef): string {
    "CREATE SEQUENCE " + s.name + if s.body != "" then " " + s.body else ""
  }

  function Quote(l: string): string { "'" + l + "'" }

  function Quoted(labels: seq<string>): seq<string> {
    seq(|labels|, i requires 0 <= i < |labels| => Quote(labels[i]))
  }

  const LABEL_BREAK := ",\n    "

  function EnumText(e: EnumDef): string {
    "CREATE TYPE " + e.name + " AS ENUM (\n    " + Join(Quoted(e.labels), LABEL_BREAK) + "\n)"
  }

  function EnumTexts(es: seq<EnumDef>): (r: seq<string>)
    ensures |r| == |es|
  {
    seq(|es|, i requires 0 <= i < |es| => EnumText(es[i]))
  }

  function ColumnParts(c: Column): seq<string> {
    [c.name, c.dataType]
    + (if c.collation != "" then ["COLLATE " + c.collation] else [])
    + (if c.notNull then ["NOT NULL"] else [])
    + (if c.default.Some? then ["DEFAULT " + c.default.value] else [])
    + c.inline
  }

  function ColumnText(c: Column): string { Join(ColumnParts(c), " ") }

  function ConstraintText(c: Constraint): string {
    if c.name != "" then "CONSTRAINT " + c.name + " " + c.definition else c.definition
  }

  /** The items of a table body, columns before constraints. */
  function Items(t: TableDef): (r: seq<string>)
    ensures |r| == |t.columns| + |t.constraints|
  {
    seq(|t.columns|, i requires 0 <= i < |t.columns| => ColumnText(t.columns[i]))
    + seq(|t.constraints|, i requires 0 <= i < |t.constraints| => ConstraintText(t.constraints[i]))
  }

  const INDENT := "    "

  function Lines(items: seq<string>): string {
    if items == [] then ""
    else INDENT + items[0] + (if |items| == 1 then "" else ",") + "\n" + Lines(items[1..])
  }

  function TableKeyword(t: TableDef): string {
    if t.temporary then "TEMPORARY TABLE" else if t.unlogged then "UNLOGGED TABLE" else "TABLE"
  }

  function TableHead(t: TableDef): string { "CREATE " + TableKeyword(t) + " " + t.name + " " }

  function TableTail(t: TableDef): string {
    if t.partitionBy != "" then " PARTITION BY " + t.partitionBy else ""
  }

  function TableBody(t: TableDef): string { "\n" + Lines(Items(t)) }

  function TableText(t: TableDef): string { TableHead(t) + "(" + TableBody(t) + ")" + TableTail(t) }

  function IndexText(x: IndexDef): string {
    "CREATE " + (if x.unique then "UNIQUE " else "") + "INDEX "
    + (if x.concurrently then "CONCURRENTLY " else "") + (if x.ifNotExists then "IF NOT EXISTS " else "")
    + x.name + " ON " + x.tableName + " " + x.body
  }

  function TruncateText(t: Truncate): string {
    "TRUNCATE " + Join(t.tables, ", ") + (if t.restartIdentity then " RESTART IDENTITY" else "")
    + if t.cascade then " CASCADE" else ""
  }

  // ---- Sections ----

  const SECTIONS: nat := 9

  /** The section of the script that an object is printed in. */
  function Section(k: ObjectKind): (n: nat)
    ensures n < SECTIONS
  {
    match k
    case SchemaKind => 0
    case Extension => 1
    case TypeKind => 2
    case Domain => 3
    case Partition => 4
    case Function | Procedure => 5
    case View | MatView => 6
    case Trigger => 7
    case Policy | Rule => 8
  }

  /** Sections that print the ALTER texts after each CREATE. */
  predicate PrintsAlters(section: nat) { section in {1, 3, 5, 6, 8} }

  datatype Line = Line(text: string, gap: string)

  /** A CREATE text and its ALTER texts, closed by an empty line. */
  function Group(sql: string, alters: seq<string>): seq<Line>
    decreases |alters|
  {
    if alters == [] then [Line(sql, "\n\n")] else [Line(sql, "\n")] + Group(alters[0], alters[1..])
  }

  function ObjectLines(o: ObjectDef): seq<Line> {
    if PrintsAlters(Section(o.kind)) then Group(o.sql, o.postAlters) else [Line(o.sql, "\n\n")]
  }

  function SectionLines(os: seq<ObjectDef>, n: nat): seq<Line> {
    if os == [] then []
    else (if Section(os[0].kind) == n then ObjectLines(os[0]) else []) + SectionLines(os[1..], n)
  }

  function Spaced(text: string): Line { Line(text, "\n\n") }

  function SequenceLines(ss: seq<SequenceDef>): seq<Line> {
    seq(|ss|, i requires 0 <= i < |ss| => Spaced(SequenceText(ss[i])))
  }

  function TypeLines(es: seq<EnumDef>): seq<Line> {
    seq(|es|, i requires 0 <= i < |es| => Spaced(EnumText(es[i])))
  }

  function TableLines(ts: seq<TableDef>): seq<Line> {
    seq(|ts|, i requires 0 <= i < |ts| => Spaced(TableText(ts[i])))
  }

  function IndexLines(xs: seq<IndexDef>): seq<Line> {
    seq(|xs|, i requires 0 <= i < |xs| => Spaced(IndexText(xs[i])))
  }

  function TruncateLines(ts: seq<Truncate>): seq<Line> {
    seq(|ts|, i requires 0 <= i < |ts| => Spaced(TruncateText(ts[i])))
  }

  function UnknownLines(us: seq<string>): seq<Line> {
    seq(|us|, i requires 0 <= i < |us| => Spaced(us[i]))
  }

  /** The whole script, statement by statement. */
  function ScriptOf(d: Database): seq<Line> {
    SectionLines(d.objects, 0) + SectionLines(d.objects, 1)
    + SequenceLines(d.sequences) + TypeLines(d.types)
    + SectionLines(d.objects, 2) + SectionLines(d.objects, 3)
    + TableLines(d.tables) + SectionLines(d.objects, 4) + IndexLines(d.indexes)
    + SectionLines(d.objects, 5) + SectionLines(d.objects, 6)
    + SectionLines(d.objects, 7) + SectionLines(d.objects, 8)
    + TruncateLines(d.truncates) + UnknownLines(d.unknowns)
  }

  /** The characters of a row of lines. */
  function Written(ls: seq<Line>): string {
    if ls == [] then "" else ls[0].text + ";" + ls[0].gap + Written(ls[1..])
  }

  function TrimNewlines(s: string): string {
    if s != "" && s[|s| - 1] == '\n' then TrimNewlines(s[..|s| - 1]) else s
  }

  /** The file that is written for a schema. */
  function Output(d: Database): string { TrimNewlines(Written(ScriptOf(d))) + "\n" }

  lemma {:induction false} WrittenAppend(a: seq<Line>, b: seq<Line>)
    ensures Written(a + b) == Written(a) + Written(b)
  {
    if a == [] {
      assert a + b == b;
    } else {
      assert (a + b)[1..] == a[1..] + b;
      WrittenAppend(a[1..], b);
    }
  }
}
