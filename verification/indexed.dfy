/** The schema with its six position maps, as a value, and the effect of every
    statement on it: what the program does for every input, including run-time
    panics when a map entry points past its list. */
module Indexed {
  import opened Text
  import opened Ast
  import opened Positions
  import opened Catalog
  import Patterns

  datatype Maps = Maps(
    tables: Index, sequences: Index, types: Index, indexes: Index, objects: Index, truncates: Index)

  datatype Schema = Schema(db: Database, at: Maps)

  const NEW := Schema(EMPTY, Maps(map[], map[], map[], map[], map[], map[]))

  datatype Outcome = Done | Failed(error: Error) | Crashed

  datatype Ran<+T> = Ran(state: T, outcome: Outcome)

  /** What indexing a list of length n with the entry for k does. */
  datatype Hit = Absent | At(pos: nat) | Beyond

  function Look(m: Index, k: string, n: nat): (h: Hit)
    ensures h.At? ==> h.pos < n
    ensures h.Absent? <==> k !in m
  {
    if k !in m then Absent else if m[k] < n then At(m[k]) else Beyond
  }

  // ---- Tables ----

  function CreateTableX(x: Schema, t: TableDef): Ran<Schema> {
    var key := NormIdent(t.name);
    if key in x.at.tables then Ran(x, Failed(AlreadyExists("CREATE TABLE", t.name)))
    else
      Ran(Schema(x.db.(tables := x.db.tables + [t]),
                 x.at.(tables := x.at.tables[key := |x.db.tables|])), Done)
  }

  function RenameTableX(x: Schema, p: nat, oldKey: string, newName: string): Schema
    requires p < |x.db.tables|
  {
    Schema(x.db.(tables := x.db.tables[p := RenameTable(x.db.tables[p], newName)],
                 indexes := MoveIndexes(x.db.indexes, oldKey, newName)),
           x.at.(tables := (x.at.tables - {oldKey})[NormIdent(newName) := p]))
  }

  function ActionsX(x: Schema, p: nat, oldKey: string, actions: seq<Action>): Ran<Schema>
    requires p < |x.db.tables|
    decreases |actions|
  {
    if actions == [] then Ran(x, Done)
    else if actions[0].RenameTo? then ActionsX(RenameTableX(x, p, oldKey, actions[0].newName), p, oldKey, actions[1..])
    else
      match TableAction(x.db.tables[p], actions[0])
      case Refused(e) => Ran(x, Failed(e))
      case Changed(t) => ActionsX(x.(db := x.db.(tables := x.db.tables[p := t])), p, oldKey, actions[1..])
  }

  function AlterTableX(x: Schema, name: string, actions: seq<Action>): Ran<Schema> {
    var key := NormIdent(name);
    match Look(x.at.tables, key, |x.db.tables|)
    case Absent => Ran(x, Failed(NotFound("ALTER TABLE", name)))
    case Beyond => Ran(x, Crashed)
    case At(p) => ActionsX(x, p, key, actions)
  }

  function RemoveObject(x: Schema, key: string, p: nat): Schema
    requires p < |x.db.objects|
  {
    var objects := RemoveAt(x.db.objects, p);
    Schema(x.db.(objects := objects),
           x.at.(objects := Reindex(ObjectKeys(objects), x.at.objects - {key}, p)))
  }

  function RemoveTable(x: Schema, key: string, p: nat): Schema
    requires p < |x.db.tables|
  {
    var tables := RemoveAt(x.db.tables, p);
    var indexes := WithoutTable(x.db.indexes, key);
    Schema(x.db.(tables := tables, indexes := indexes),
           x.at.(tables := Reindex(TableKeys(tables), x.at.tables - {key}, p),
                 indexes := Reindex(IndexKeys(indexes), map[], 0)))
  }

  function DropOneX(x: Schema, name: string, ifExists: bool): Ran<Schema> {
    var key := NormIdent(name);
    match Look(x.at.tables, key, |x.db.tables|)
    case Beyond => Ran(x, Crashed)
    case At(p) => Ran(RemoveTable(x, key, p), Done)
    case Absent =>
      var partKey := ObjectKey(Partition, name);
      match Look(x.at.objects, partKey, |x.db.objects|)
      case Beyond => Ran(x, Crashed)
      case At(p) => Ran(RemoveObject(x, partKey, p), Done)
      case Absent => if ifExists then Ran(x, Done) else Ran(x, Failed(NotFound("DROP TABLE", name)))
  }

  function DropTablesX(x: Schema, names: seq<string>, ifExists: bool): Ran<Schema>
    decreases |names|
  {
    if names == [] then Ran(x, Done)
    else
      var r := DropOneX(x, names[0], ifExists);
      if r.outcome.Done? then DropTablesX(r.state, names[1..], ifExists) else r
  }

  // ---- Indexes ----

  function CreateIndexX(x: Schema, d: IndexDef): Ran<Schema> {
    var key := NormIdent(d.name);
    match Look(x.at.indexes, key, |x.db.indexes|)
    case Absent =>
      Ran(Schema(x.db.(indexes := x.db.indexes + [d]),
                 x.at.(indexes := x.at.indexes[key := |x.db.indexes|])), Done)
    case Beyond => Ran(x, if d.ifNotExists then Done else Crashed)
    case At(p) => Ran(if d.ifNotExists then x else x.(db := x.db.(indexes := x.db.indexes[p := d])), Done)
  }

  function DropIndexX(x: Schema, name: string, ifExists: bool): Ran<Schema> {
    var key := NormIdent(name);
    match Look(x.at.indexes, key, |x.db.indexes|)
    case Absent => Ran(x, if ifExists then Done else Failed(NotFound("DROP INDEX", name)))
    case Beyond => Ran(x, Crashed)
    case At(p) =>
      var indexes := RemoveAt(x.db.indexes, p);
      Ran(Schema(x.db.(indexes := indexes),
                 x.at.(indexes := Reindex(IndexKeys(indexes), x.at.indexes - {key}, p))), Done)
  }

  function AlterIndexX(x: Schema, name: string, newName: string): Ran<Schema> {
    var key := NormIdent(name);
    match Look(x.at.indexes, key, |x.db.indexes|)
    case Absent => Ran(x, Failed(NotFound("ALTER INDEX", name)))
    case Beyond => Ran(x, Crashed)
    case At(p) =>
      Ran(Schema(x.db.(indexes := x.db.indexes[p := x.db.indexes[p].(name := newName)]),
                 x.at.(indexes := (x.at.indexes - {key})[NormIdent(newName) := p])), Done)
  }

  // ---- Sequences ----

  function CreateSequenceX(x: Schema, d: SequenceDef): Ran<Schema> {
    var key := NormIdent(d.name);
    if key in x.at.sequences then Ran(x, Failed(AlreadyExists("CREATE SEQUENCE", d.name)))
    else
      Ran(Schema(x.db.(sequences := x.db.sequences + [d]),
                 x.at.(sequences := x.at.sequences[key := |x.db.sequences|])), Done)
  }

  function DropSequenceX(x: Schema, name: string, ifExists: bool): Ran<Schema> {
    var key := NormIdent(name);
    match Look(x.at.sequences, key, |x.db.sequences|)
    case Absent => Ran(x, if ifExists then Done else Failed(NotFound("DROP SEQUENCE", name)))
    case Beyond => Ran(x, Crashed)
    case At(p) =>
      var sequences := RemoveAt(x.db.sequences, p);
      Ran(Schema(x.db.(sequences := sequences),
                 x.at.(sequences := Reindex(SequenceKeys(sequences), x.at.sequences - {key}, p))), Done)
  }

  function AlterSequenceX(x: Schema, name: string, newName: string): Ran<Schema> {
    var key := NormIdent(name);
    match Look(x.at.sequences, key, |x.db.sequences|)
    case Absent => Ran(x, Failed(NotFound("ALTER SEQUENCE", name)))
    case Beyond => Ran(x, Crashed)
    case At(p) =>
      Ran(Schema(x.db.(sequences := x.db.sequences[p := x.db.sequences[p].(name := newName)]),
                 x.at.(sequences := (x.at.sequences - {key})[NormIdent(newName) := p])), Done)
  }

  function AlterSequenceOptsX(x: Schema, name: string, opts: seq<SeqOption>): Ran<Schema> {
    var key := NormIdent(name);
    match Look(x.at.sequences, key, |x.db.sequences|)
    case Absent => Ran(x, Failed(NotFound("ALTER SEQUENCE", name)))
    case Beyond => Ran(x, if opts == [] then Done else Crashed)
    case At(p) =>
      var d := x.db.sequences[p];
      Ran(x.(db := x.db.(sequences := x.db.sequences[p := d.(body := ApplyOptions(d.body, opts))])), Done)
  }

  // ---- Types ----

  function CreateTypeX(x: Schema, d: EnumDef): Ran<Schema> {
    var key := NormIdent(d.name);
    if key in x.at.types then Ran(x, Failed(AlreadyExists("CREATE TYPE", d.name)))
    else
      Ran(Schema(x.db.(types := x.db.types + [d]), x.at.(types := x.at.types[key := |x.db.types|])), Done)
  }

  function DropTypeX(x: Schema, name: string, ifExists: bool): Ran<Schema> {
    var key := NormIdent(name);
    match Look(x.at.types, key, |x.db.types|)
    case Beyond => Ran(x, Crashed)
    case At(p) =>
      var types := RemoveAt(x.db.types, p);
      Ran(Schema(x.db.(types := types),
                 x.at.(types := Reindex(TypeKeys(types), x.at.types - {key}, p))), Done)
    case Absent =>
      var objKey := ObjectKey(TypeKind, name);
      match Look(x.at.objects, objKey, |x.db.objects|)
      case Beyond => Ran(x, Crashed)
      case At(p) => Ran(RemoveObject(x, objKey, p), Done)
      case Absent => Ran(x, if ifExists then Done else Failed(NotFound("DROP TYPE", name)))
  }

  /** The object part of renaming a composite or range type. */
  function RenamedType(o: ObjectDef, name: string, newName: string): ObjectDef {
    o.(name := NormIdent(newName), sql := Patterns.ReplaceTypeName(o.sql, name, newName))
  }

  function AlterTypeX(x: Schema, name: string, a: TypeAction): Ran<Schema> {
    var key := NormIdent(name);
    match Look(x.at.types, key, |x.db.types|)
    case Beyond => Ran(x, Crashed)
    case Absent =>
      if !a.RenameType? then Ran(x, Failed(NotFound("ALTER TYPE", name)))
      else
        var objKey := ObjectKey(TypeKind, name);
        (match Look(x.at.objects, objKey, |x.db.objects|)
         case Absent => Ran(x, Failed(NotFound("ALTER TYPE", name)))
         case Beyond => Ran(x, Crashed)
         case At(p) =>
           Ran(Schema(x.db.(objects := x.db.objects[p := RenamedType(x.db.objects[p], name, a.newName)]),
                      x.at.(objects := (x.at.objects - {objKey})[ObjectKey(TypeKind, a.newName) := p])), Done))
    case At(p) =>
      var d := x.db.types[p];
      match a
      case RenameType(newName) =>
        Ran(Schema(x.db.(types := x.db.types[p := d.(name := newName)]),
                   x.at.(types := (x.at.types - {key})[NormIdent(newName) := p])), Done)
      case _ =>
        match LabelAction(d.labels, a)
        case Refused(e) => Ran(x, Failed(e))
        case Changed(labels) => Ran(x.(db := x.db.(types := x.db.types[p := d.(labels := labels)])), Done)
  }

  function LabelAction(labels: seq<string>, a: TypeAction): Change<seq<string>> {
    match a
    case AddValue(value, ifNotExists, before, after) => AddLabel(labels, value, ifNotExists, before, after)
    case RenameValue(value, newValue) => RenameLabel(labels, value, newValue)
    case RenameType(_) => Changed(labels)
  }

  // ---- Generic objects ----

  function CreateObjectX(x: Schema, kind: ObjectKind, name: string, orReplace: bool, sql: string): Ran<Schema> {
    var key := ObjectKey(kind, name);
    match Look(x.at.objects, key, |x.db.objects|)
    case Absent =>
      Ran(Schema(x.db.(objects := x.db.objects + [ObjectDef(kind, name, sql, [])]),
                 x.at.(objects := x.at.objects[key := |x.db.objects|])), Done)
    case Beyond => Ran(x, if orReplace then Crashed else Failed(AlreadyExists("CREATE " + KindText(kind), name)))
    case At(p) =>
      if orReplace then
        Ran(x.(db := x.db.(objects := x.db.objects[p := x.db.objects[p].(sql := sql, postAlters := [])])), Done)
      else Ran(x, Failed(AlreadyExists("CREATE " + KindText(kind), name)))
  }

  function DropObjectX(x: Schema, kind: ObjectKind, name: string, ifExists: bool): Ran<Schema> {
    var key := ObjectKey(kind, name);
    match Look(x.at.objects, key, |x.db.objects|)
    case Absent => Ran(x, if ifExists then Done else Failed(NotFound("DROP " + KindText(kind), name)))
    case Beyond => Ran(x, Crashed)
    case At(p) => Ran(RemoveObject(x, key, p), Done)
  }

  function AlterObjectX(x: Schema, kind: ObjectKind, oldName: string, newName: string): Ran<Schema> {
    var key := ObjectKey(kind, oldName);
    match Look(x.at.objects, key, |x.db.objects|)
    case Absent => Ran(x, Failed(NotFound("ALTER " + KindText(kind), oldName)))
    case Beyond => Ran(x, Crashed)
    case At(p) =>
      Ran(Schema(x.db.(objects := x.db.objects[p := x.db.objects[p].(name := newName)]),
                 x.at.(objects := (x.at.objects - {key})[ObjectKey(kind, newName) := p])), Done)
  }

  /** Attaches an ALTER text to its object, or passes it through. */
  function AttachX(x: Schema, kind: ObjectKind, name: string, sql: string): Ran<Schema> {
    match Look(x.at.objects, ObjectKey(kind, name), |x.db.objects|)
    case Absent => Ran(x.(db := x.db.(unknowns := x.db.unknowns + [sql])), Done)
    case Beyond => Ran(x, Crashed)
    case At(p) =>
      var o := x.db.objects[p];
      Ran(x.(db := x.db.(objects := x.db.objects[p := o.(postAlters := o.postAlters + [sql])])), Done)
  }

  /** ALTER DOMAIN and ALTER VIEW with OWNER TO or SET SCHEMA are not tracked. */
  predicate Untracked(kind: ObjectKind, sql: string) {
    (kind.Domain? && Patterns.OwnerOrSchema(sql, "DOMAIN")) || (kind.View? && Patterns.OwnerOrSchema(sql, "VIEW"))
  }

  function TruncateX(x: Schema, t: Truncate): Ran<Schema> {
    var key := TruncateKey(t);
    match Look(x.at.truncates, key, |x.db.truncates|)
    case Absent =>
      Ran(Schema(x.db.(truncates := x.db.truncates + [t]),
                 x.at.(truncates := x.at.truncates[key := |x.db.truncates|])), Done)
    case Beyond => Ran(x, Crashed)
    case At(p) => Ran(x.(db := x.db.(truncates := x.db.truncates[p := t])), Done)
  }

  // ---- Every statement ----

  function ApplyX(x: Schema, s: Statement): Ran<Schema> {
    match s
    case CreateTable(name, temporary, unlogged, columns, constraints, partitionBy) =>
      CreateTableX(x, TableDef(name, temporary, unlogged, columns, constraints, partitionBy))
    case AlterTable(name, actions) => AlterTableX(x, name, actions)
    case DropTable(names, ifExists) => DropTablesX(x, names, ifExists)
    case CreateIndex(name, tableName, unique, concurrently, ifNotExists, body) =>
      CreateIndexX(x, IndexDef(name, tableName, unique, concurrently, ifNotExists, body))
    case DropIndex(name, ifExists) => DropIndexX(x, name, ifExists)
    case AlterIndex(name, newName) => AlterIndexX(x, name, newName)
    case CreateSequence(name, body) => CreateSequenceX(x, SequenceDef(name, body))
    case DropSequence(name, ifExists) => DropSequenceX(x, name, ifExists)
    case CreateType(name, labels) => CreateTypeX(x, EnumDef(name, labels))
    case DropType(name, ifExists) => DropTypeX(x, name, ifExists)
    case AlterType(name, action) => AlterTypeX(x, name, action)
    case CreateObject(kind, name, orReplace, sql) => CreateObjectX(x, kind, name, orReplace, sql)
    case DropObject(kind, name, ifExists) => DropObjectX(x, kind, name, ifExists)
    case AlterSequence(name, newName) => AlterSequenceX(x, name, newName)
    case AlterSequenceOpts(name, options) => AlterSequenceOptsX(x, name, options)
    case AlterObject(kind, oldName, newName) => AlterObjectX(x, kind, oldName, newName)
    case AlterFunctionOpts(kind, name, sql) => AttachX(x, kind, name, sql)
    case AlterObjectOpts(kind, name, sql) =>
      if Untracked(kind, sql) then Ran(x, Done) else AttachX(x, kind, name, sql)
    case TruncateTables(t) => TruncateX(x, t)
    case Unknown(raw) => Ran(x.(db := x.db.(unknowns := x.db.unknowns + [raw])), Done)
  }

  /** A run stops at the first statement that does not succeed. */
  function RunX(x: Schema, ss: seq<Statement>): Ran<Schema>
    decreases |ss|
  {
    if ss == [] then Ran(x, Done)
    else
      var r := ApplyX(x, ss[0]);
      if r.outcome.Done? then RunX(r.state, ss[1..]) else r
  }
}
