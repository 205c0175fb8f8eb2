/** The schema as a value, and what single tables, label lists and sequence
    bodies do under the actions that do not touch the position maps. */
module Catalog {
  import opened Text
  import opened Ast
  import opened Patterns
  import opened Positions
  import SequenceBody

  datatype TableDef = TableDef(
    name: string,
    temporary: bool,
    unlogged: bool,
    columns: seq<Column>,
    constraints: seq<Constraint>,
    partitionBy: string
  )

  datatype SequenceDef = SequenceDef(name: string, body: string)

  datatype EnumDef = EnumDef(name: string, labels: seq<string>)

  datatype IndexDef = IndexDef(
    name: string, tableName: string, unique: bool, concurrently: bool, ifNotExists: bool, body: string)

  datatype ObjectDef = ObjectDef(kind: ObjectKind, name: string, sql: string, postAlters: seq<string>)

  datatype Database = Database(
    tables: seq<TableDef>,
    sequences: seq<SequenceDef>,
    types: seq<EnumDef>,
    indexes: seq<IndexDef>,
    objects: seq<ObjectDef>,
    truncates: seq<Truncate>,
    unknowns: seq<string>
  )

  const EMPTY := Database([], [], [], [], [], [], [])

  datatype Error =
    | AlreadyExists(op: string, name: string)
    | NotFound(op: string, name: string)
    | NoIdentity(op: string, name: string)
    | MissingDefinition(op: string)

  datatype Change<+T> = Changed(value: T) | Refused(error: Error)

  // ---- Keys ----

  function ObjectKey(kind: ObjectKind, name: string): string {
    Lower(KindText(kind)) + ":" + Lower(TrimSpace(name))
  }

  lemma KindTextShape(k: ObjectKind)
    ensures ':' !in KindText(k) && |KindText(k)| > 3
    ensures forall i :: 0 <= i < |KindText(k)| ==> Lower(KindText(k))[i] != ':'
  {
    match k
    case View =>
    case MatView =>
    case SchemaKind =>
    case Extension =>
    case Function =>
    case Procedure =>
    case Trigger =>
    case Domain =>
    case Policy =>
    case Rule =>
    case TypeKind =>
    case Partition =>
  }

  lemma KindTextInjective(k: ObjectKind, l: ObjectKind)
    requires Lower(KindText(k)) == Lower(KindText(l))
    ensures k == l
  {
    var a, b := KindText(k), KindText(l);
    assert |a| == |Lower(a)| == |Lower(b)| == |b|;
    KindTextShape(k);
    KindTextShape(l);
    assert LowerChar(a[0]) == Lower(a)[0] == Lower(b)[0] == LowerChar(b[0]);
    assert LowerChar(a[1]) == Lower(a)[1] == Lower(b)[1] == LowerChar(b[1]);
  }

  lemma SplitAtColon(a: string, x: string, b: string, y: string)
    requires a + ":" + x == b + ":" + y
    requires (forall i :: 0 <= i < |a| ==> a[i] != ':') && forall i :: 0 <= i < |b| ==> b[i] != ':'
    ensures a == b
  {
    var s, t := a + ":" + x, b + ":" + y;
    assert s[|a|] == ':' && t[|b|] == ':';
    assert forall i :: 0 <= i < |b| ==> t[i] == b[i];
    assert forall i :: 0 <= i < |a| ==> s[i] == a[i];
    assert s[..|a|] == a && t[..|b|] == b;
  }

  /** Object keys of different kinds never meet. */
  lemma KeyTellsKind(k: ObjectKind, n: string, l: ObjectKind, m: string)
    requires ObjectKey(k, n) == ObjectKey(l, m)
    ensures k == l
  {
    hide KindText, Lower, TrimSpace;
    KindTextShape(k);
    KindTextShape(l);
    KindLength(k);
    KindLength(l);
    SplitAtColon(Lower(KindText(k)), Lower(TrimSpace(n)), Lower(KindText(l)), Lower(TrimSpace(m)));
    KindTextInjective(k, l);
  }

  lemma KindLength(k: ObjectKind)
    ensures |Lower(KindText(k))| == |KindText(k)|
  {
  }

  /** Byte-wise lexicographic order, as the program's sort uses. */
  predicate LexLeq(a: string, b: string) {
    a == "" || (b != "" && (a[0] < b[0] || (a[0] == b[0] && LexLeq(a[1..], b[1..]))))
  }

  function Insert(s: string, sorted: seq<string>): seq<string> {
    if sorted == [] || LexLeq(s, sorted[0]) then [s] + sorted
    else [sorted[0]] + Insert(s, sorted[1..])
  }

  function Sort(names: seq<string>): seq<string> {
    if names == [] then [] else Insert(names[0], Sort(names[1..]))
  }

  function NormAll(names: seq<string>): seq<string> {
    seq(|names|, i requires 0 <= i < |names| => NormIdent(names[i]))
  }

  /** The set of tables a TRUNCATE names, as a key. */
  function TruncateKey(t: Truncate): string { Join(Sort(NormAll(t.tables)), ",") }

  function TableKeys(ts: seq<TableDef>): seq<string> {
    seq(|ts|, i requires 0 <= i < |ts| => NormIdent(ts[i].name))
  }

  function SequenceKeys(ss: seq<SequenceDef>): seq<string> {
    seq(|ss|, i requires 0 <= i < |ss| => NormIdent(ss[i].name))
  }

  function TypeKeys(ts: seq<EnumDef>): seq<string> {
    seq(|ts|, i requires 0 <= i < |ts| => NormIdent(ts[i].name))
  }

  function IndexKeys(xs: seq<IndexDef>): seq<string> {
    seq(|xs|, i requires 0 <= i < |xs| => NormIdent(xs[i].name))
  }

  function ObjectKeys(os: seq<ObjectDef>): seq<string> {
    seq(|os|, i requires 0 <= i < |os| => ObjectKey(os[i].kind, os[i].name))
  }

  function TruncateKeys(ts: seq<Truncate>): seq<string> {
    seq(|ts|, i requires 0 <= i < |ts| => TruncateKey(ts[i]))
  }

  function ColumnKeys(cs: seq<Column>): seq<string> {
    seq(|cs|, i requires 0 <= i < |cs| => NormIdent(cs[i].name))
  }

  function ConstraintKeys(cs: seq<Constraint>): seq<string> {
    seq(|cs|, i requires 0 <= i < |cs| => NormIdent(cs[i].name))
  }

  // ---- Inline constraints ----

  /** The first inline constraint at or after i that starts with the prefix, or -1. */
  function FindInline(cs: seq<string>, prefix: string, i: nat): (r: int)
    requires i <= |cs|
    ensures r == -1 || i <= r < |cs|
    decreases |cs| - i
  {
    if i == |cs| then -1
    else if HasPrefix(Upper(cs[i]), prefix) then i
    else FindInline(cs, prefix, i + 1)
  }

  function ReplaceOrAppendInline(cs: seq<string>, prefix: string, value: string): seq<string> {
    var i := FindInline(cs, prefix, 0);
    if i >= 0 then cs[i := value] else cs + [value]
  }

  function RemoveInline(cs: seq<string>, prefix: string): seq<string> {
    var i := FindInline(cs, prefix, 0);
    if i >= 0 then RemoveAt(cs, i) else cs
  }

  /** The first identity clause at or after i, or -1. */
  function FindIdentity(cs: seq<string>, i: nat): (r: int)
    requires i <= |cs|
    ensures r == -1 || i <= r < |cs|
    decreases |cs| - i
  {
    if i == |cs| then -1
    else if HasPrefix(Upper(TrimSpace(cs[i])), "GENERATED") then i
    else FindIdentity(cs, i + 1)
  }

  function SetIdentity(cs: seq<string>, kind: string): Option<seq<string>> {
    var i := FindIdentity(cs, 0);
    if i >= 0 then Some(cs[i := ReplaceIdentityKind(cs[i], 0, kind)]) else None
  }

  /** The first column at or after i with an inline primary key, or -1. */
  function FindPrimaryKey(cols: seq<Column>, i: nat): (r: int)
    requires i <= |cols|
    ensures r == -1 || i <= r < |cols|
    decreases |cols| - i
  {
    if i == |cols| then -1
    else if FindInline(cols[i].inline, "PRIMARY KEY", 0) >= 0 then i
    else FindPrimaryKey(cols, i + 1)
  }

  function WithoutInline(cols: seq<Column>, i: nat, prefix: string): seq<Column>
    requires i < |cols|
  {
    cols[i := cols[i].(inline := RemoveInline(cols[i].inline, prefix))]
  }

  /** Columns from i on: drops the inline constraint whose automatic name,
      table_column_suffix, is cKey. */
  function DropColumnConstraint(cols: seq<Column>, tKey: string, cKey: string, i: nat): Option<seq<Column>>
    requires i <= |cols|
    decreases |cols| - i
  {
    if i == |cols| then None
    else
      var stem := tKey + "_" + NormIdent(cols[i].name);
      if cKey == stem + "_key" then Some(WithoutInline(cols, i, "UNIQUE"))
      else if cKey == stem + "_fkey" then Some(WithoutInline(cols, i, "REFERENCES"))
      else if cKey == stem + "_check" then Some(WithoutInline(cols, i, "CHECK"))
      else DropColumnConstraint(cols, tKey, cKey, i + 1)
  }

  function DropAutoNamed(cols: seq<Column>, tKey: string, cKey: string): Option<seq<Column>> {
    var pk := FindPrimaryKey(cols, 0);
    if cKey == tKey + "_pkey" && pk >= 0 then Some(WithoutInline(cols, pk, "PRIMARY KEY"))
    else DropColumnConstraint(cols, tKey, cKey, 0)
  }

  // ---- ALTER TABLE actions on one table ----

  function RenameInConstraints(cs: seq<Constraint>, column: string, newName: string): seq<Constraint> {
    seq(|cs|, i requires 0 <= i < |cs| => cs[i].(definition := ReplaceWord(cs[i].definition, column, newName)))
  }

  function RedirectConstraints(cs: seq<Constraint>, name: string, newName: string): seq<Constraint> {
    seq(|cs|, i requires 0 <= i < |cs| => cs[i].(definition := ReplaceReferences(cs[i].definition, 0, name, newName)))
  }

  function RedirectInline(c: string, name: string, newName: string): string {
    if HasPrefix(Upper(TrimSpace(c)), "REFERENCES") then ReplaceReferences(c, 0, name, newName) else c
  }

  function RedirectInlines(cs: seq<string>, name: string, newName: string): seq<string> {
    seq(|cs|, i requires 0 <= i < |cs| => RedirectInline(cs[i], name, newName))
  }

  function RedirectColumns(cols: seq<Column>, name: string, newName: string): seq<Column> {
    seq(|cols|, i requires 0 <= i < |cols| => cols[i].(inline := RedirectInlines(cols[i].inline, name, newName)))
  }

  /** The table part of RENAME TO: new name, self-references redirected. */
  function RenameTable(t: TableDef, newName: string): TableDef {
    t.(name := newName,
       constraints := RedirectConstraints(t.constraints, t.name, newName),
       columns := RedirectColumns(t.columns, t.name, newName))
  }

  function AddColumnTo(t: TableDef, def: Option<Column>): Change<TableDef> {
    match def
    case None => Refused(MissingDefinition("ADD COLUMN"))
    case Some(c) =>
      if Find(ColumnKeys(t.columns), NormIdent(c.name)) >= 0 then Refused(AlreadyExists("ADD COLUMN", c.name))
      else Changed(t.(columns := t.columns + [c]))
  }

  function AddConstraintTo(t: TableDef, c: Constraint): Change<TableDef> {
    if c.name != "" && Find(ConstraintKeys(t.constraints), NormIdent(c.name)) >= 0
    then Refused(AlreadyExists("ADD CONSTRAINT", c.name))
    else Changed(t.(constraints := t.constraints + [c]))
  }

  function DropConstraintFrom(t: TableDef, name: string, ifExists: bool): Change<TableDef> {
    var cKey := NormIdent(name);
    var i := Find(ConstraintKeys(t.constraints), cKey);
    if i >= 0 then Changed(t.(constraints := RemoveAt(t.constraints, i)))
    else
      match DropAutoNamed(t.columns, NormIdent(t.name), cKey)
      case Some(cols) => Changed(t.(columns := cols))
      case None => if ifExists then Changed(t) else Refused(NotFound("DROP CONSTRAINT", name))
  }

  /** The actions that need an existing column, with the column found at i. */
  function ColumnAction(t: TableDef, a: Action, i: nat): Change<TableDef>
    requires i < |t.columns|
  {
    var c := t.columns[i];
    match a
    case DropColumn(_) => Changed(t.(columns := RemoveAt(t.columns, i)))
    case AlterColumnType(_, dataType) => Changed(t.(columns := t.columns[i := c.(dataType := dataType)]))
    case SetDefault(_, expr) => Changed(t.(columns := t.columns[i := c.(default := Some(expr))]))
    case DropDefault(_) => Changed(t.(columns := t.columns[i := c.(default := None)]))
    case SetNotNull(_) => Changed(t.(columns := t.columns[i := c.(notNull := true)]))
    case DropNotNull(_) => Changed(t.(columns := t.columns[i := c.(notNull := false)]))
    case RenameColumn(column, newName) =>
      Changed(t.(constraints := RenameInConstraints(t.constraints, column, newName),
                 columns := t.columns[i := c.(name := newName)]))
    case AddGenerated(_, clause) =>
      Changed(t.(columns := t.columns[i := c.(inline := ReplaceOrAppendInline(c.inline, "GENERATED", clause))]))
    case DropIdentity(column, ifExists) =>
      if FindInline(c.inline, "GENERATED", 0) < 0 && !ifExists then Refused(NoIdentity("DROP IDENTITY", column))
      else Changed(t.(columns := t.columns[i := c.(inline := RemoveInline(c.inline, "GENERATED"))]))
    case SetStorage(_, storage) =>
      Changed(t.(columns := t.columns[i := c.(inline := ReplaceOrAppendInline(c.inline, "STORAGE", "STORAGE " + storage))]))
    case SetCompression(_, compression) =>
      Changed(t.(columns := t.columns[i := c.(inline :=
        ReplaceOrAppendInline(c.inline, "COMPRESSION", "COMPRESSION " + compression))]))
    case SetGenerated(column, kind) =>
      (match SetIdentity(c.inline, kind)
       case None => Refused(NoIdentity("SET GENERATED", column))
       case Some(cs) => Changed(t.(columns := t.columns[i := c.(inline := cs)])))
    case _ => Changed(t)
  }

  /** The operation name an action reports when its column is missing. */
  function ColumnOp(a: Action): string {
    match a
    case DropColumn(_) => "DROP COLUMN"
    case AlterColumnType(_, _) => "ALTER COLUMN TYPE"
    case SetDefault(_, _) => "SET DEFAULT"
    case DropDefault(_) => "DROP DEFAULT"
    case SetNotNull(_) => "SET NOT NULL"
    case DropNotNull(_) => "DROP NOT NULL"
    case RenameColumn(_, _) => "RENAME COLUMN"
    case AddGenerated(_, _) => "ADD GENERATED"
    case DropIdentity(_, _) => "DROP IDENTITY"
    case SetStorage(_, _) => "SET STORAGE"
    case SetCompression(_, _) => "SET COMPRESSION"
    case SetGenerated(_, _) => "SET GENERATED"
    case _ => ""
  }

  predicate ToleratesMissing(a: Action) { a.DropIdentity? && a.ifExists }

  /** One action on one table; the schema-wide part of RENAME TO is elsewhere. */
  function TableAction(t: TableDef, a: Action): Change<TableDef> {
    match a
    case Skip => Changed(t)
    case AddColumn(def) => AddColumnTo(t, def)
    case AddConstraint(c) => AddConstraintTo(t, c)
    case DropConstraint(name, ifExists) => DropConstraintFrom(t, name, ifExists)
    case RenameConstraint(name, newName) =>
      var i := Find(ConstraintKeys(t.constraints), NormIdent(name));
      if i < 0 then Refused(NotFound("RENAME CONSTRAINT", name))
      else Changed(t.(constraints := t.constraints[i := t.constraints[i].(name := newName)]))
    case RenameTo(newName) => Changed(RenameTable(t, newName))
    case _ =>
      var i := Find(ColumnKeys(t.columns), NormIdent(a.column));
      if i >= 0 then ColumnAction(t, a, i)
      else if ToleratesMissing(a) then Changed(t)
      else Refused(NotFound(ColumnOp(a), a.column))
  }

  // ---- Enum labels ----

  function InsertAt<T>(s: seq<T>, i: nat, x: T): seq<T>
    requires i <= |s|
  {
    s[..i] + [x] + s[i..]
  }

  function AddLabel(labels: seq<string>, value: string, ifNotExists: bool, before: string, after: string)
    : Change<seq<string>>
  {
    if Find(labels, value) >= 0 then
      if ifNotExists then Changed(labels) else Refused(AlreadyExists("ADD VALUE", value))
    else if before != "" then
      var i := Find(labels, before);
      if i < 0 then Refused(NotFound("ADD VALUE BEFORE", before)) else Changed(InsertAt(labels, i, value))
    else if after != "" then
      var i := Find(labels, after);
      if i < 0 then Refused(NotFound("ADD VALUE AFTER", after)) else Changed(InsertAt(labels, i + 1, value))
    else Changed(labels + [value])
  }

  function RenameLabel(labels: seq<string>, value: string, newValue: string): Change<seq<string>> {
    var i := Find(labels, value);
    if i < 0 then Refused(NotFound("RENAME VALUE", value)) else Changed(labels[i := newValue])
  }

  // ---- Sequence options ----

  /** Writes one option into a sequence body: the options of its family go, the
      new one is appended. RESTART is run-time state and changes nothing. */
  function ApplyOption(body: string, o: SeqOption): string {
    if o.kind.Restart? then body
    else
      var rest := TrimSpace(SequenceBody.Removed(body, 0, SequenceBody.FamilyOf(o.kind)));
      var text := SequenceBody.Spelling(o);
      if rest == "" then text else rest + " " + text
  }

  function ApplyOptions(body: string, opts: seq<SeqOption>): string
    decreases |opts|
  {
    if opts == [] then body else ApplyOptions(ApplyOption(body, opts[0]), opts[1..])
  }

  // ---- Indexes of one table ----

  function WithoutTable(xs: seq<IndexDef>, key: string): seq<IndexDef> {
    if xs == [] then []
    else (if NormIdent(xs[0].tableName) != key then [xs[0]] else []) + WithoutTable(xs[1..], key)
  }

  function MoveIndexes(xs: seq<IndexDef>, key: string, newName: string): seq<IndexDef> {
    seq(|xs|, i requires 0 <= i < |xs| =>
      if NormIdent(xs[i].tableName) == key then xs[i].(tableName := newName) else xs[i])
  }
}
