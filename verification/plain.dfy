/** The same statements on the bare lists: objects are found by linear search,
    and there is no index to maintain. */
module Plain {
  import opened Text
  import opened Ast
  import opened Positions
  import opened Catalog
  import opened Indexed

  function CreateTableP(d: Database, t: TableDef): Ran<Database> {
    if Find(TableKeys(d.tables), NormIdent(t.name)) >= 0 then Ran(d, Failed(AlreadyExists("CREATE TABLE", t.name)))
    else Ran(d.(tables := d.tables + [t]), Done)
  }

  function RenameTableP(d: Database, p: nat, oldKey: string, newName: string): Database
    requires p < |d.tables|
  {
    d.(tables := d.tables[p := RenameTable(d.tables[p], newName)],
       indexes := MoveIndexes(d.indexes, oldKey, newName))
  }

  function ActionsP(d: Database, p: nat, oldKey: string, actions: seq<Action>): Ran<Database>
    requires p < |d.tables|
    decreases |actions|
  {
    if actions == [] then Ran(d, Done)
    else if actions[0].RenameTo? then ActionsP(RenameTableP(d, p, oldKey, actions[0].newName), p, oldKey, actions[1..])
    else
      match TableAction(d.tables[p], actions[0])
      case Refused(e) => Ran(d, Failed(e))
      case Changed(t) => ActionsP(d.(tables := d.tables[p := t]), p, oldKey, actions[1..])
  }

  function AlterTableP(d: Database, name: string, actions: seq<Action>): Ran<Database> {
    var p := Find(TableKeys(d.tables), NormIdent(name));
    if p < 0 then Ran(d, Failed(NotFound("ALTER TABLE", name)))
    else ActionsP(d, p, NormIdent(name), actions)
  }

  function DropOneP(d: Database, name: string, ifExists: bool): Ran<Database> {
    var p := Find(TableKeys(d.tables), NormIdent(name));
    var q := Find(ObjectKeys(d.objects), ObjectKey(Partition, name));
    if p >= 0 then
      Ran(d.(tables := RemoveAt(d.tables, p), indexes := WithoutTable(d.indexes, NormIdent(name))), Done)
    else if q >= 0 then Ran(d.(objects := RemoveAt(d.objects, q)), Done)
    else if ifExists then Ran(d, Done)
    else Ran(d, Failed(NotFound("DROP TABLE", name)))
  }

  function DropTablesP(d: Database, names: seq<string>, ifExists: bool): Ran<Database>
    decreases |names|
  {
    if names == [] then Ran(d, Done)
    else
      var r := DropOneP(d, names[0], ifExists);
      if r.outcome.Done? then DropTablesP(r.state, names[1..], ifExists) else r
  }

  function CreateIndexP(d: Database, x: IndexDef): Ran<Database> {
    var p := Find(IndexKeys(d.indexes), NormIdent(x.name));
    if p < 0 then Ran(d.(indexes := d.indexes + [x]), Done)
    else if x.ifNotExists then Ran(d, Done)
    else Ran(d.(indexes := d.indexes[p := x]), Done)
  }

  function DropIndexP(d: Database, name: string, ifExists: bool): Ran<Database> {
    var p := Find(IndexKeys(d.indexes), NormIdent(name));
    if p >= 0 then Ran(d.(indexes := RemoveAt(d.indexes, p)), Done)
    else Ran(d, if ifExists then Done else Failed(NotFound("DROP INDEX", name)))
  }

  function AlterIndexP(d: Database, name: string, newName: string): Ran<Database> {
    var p := Find(IndexKeys(d.indexes), NormIdent(name));
    if p < 0 then Ran(d, Failed(NotFound("ALTER INDEX", name)))
    else Ran(d.(indexes := d.indexes[p := d.indexes[p].(name := newName)]), Done)
  }

  function CreateSequenceP(d: Database, x: SequenceDef): Ran<Database> {
    if Find(SequenceKeys(d.sequences), NormIdent(x.name)) >= 0
    then Ran(d, Failed(AlreadyExists("CREATE SEQUENCE", x.name)))
    else Ran(d.(sequences := d.sequences + [x]), Done)
  }

  function DropSequenceP(d: Database, name: string, ifExists: bool): Ran<Database> {
    var p := Find(SequenceKeys(d.sequences), NormIdent(name));
    if p >= 0 then Ran(d.(sequences := RemoveAt(d.sequences, p)), Done)
    else Ran(d, if ifExists then Done else Failed(NotFound("DROP SEQUENCE", name)))
  }

  function AlterSequenceP(d: Database, name: string, newName: string): Ran<Database> {
    var p := Find(SequenceKeys(d.sequences), NormIdent(name));
    if p < 0 then Ran(d, Failed(NotFound("ALTER SEQUENCE", name)))
    else Ran(d.(sequences := d.sequences[p := d.sequences[p].(name := newName)]), Done)
  }

  function AlterSequenceOptsP(d: Database, name: string, opts: seq<SeqOption>): Ran<Database> {
    var p := Find(SequenceKeys(d.sequences), NormIdent(name));
    if p < 0 then Ran(d, Failed(NotFound("ALTER SEQUENCE", name)))
    else
      var s := d.sequences[p];
      Ran(d.(sequences := d.sequences[p := s.(body := ApplyOptions(s.body, opts))]), Done)
  }

  function CreateTypeP(d: Database, x: EnumDef): Ran<Database> {
    if Find(TypeKeys(d.types), NormIdent(x.name)) >= 0 then Ran(d, Failed(AlreadyExists("CREATE TYPE", x.name)))
    else Ran(d.(types := d.types + [x]), Done)
  }

  function DropTypeP(d: Database, name: string, ifExists: bool): Ran<Database> {
    var p := Find(TypeKeys(d.types), NormIdent(name));
    var q := Find(ObjectKeys(d.objects), ObjectKey(TypeKind, name));
    if p >= 0 then Ran(d.(types := RemoveAt(d.types, p)), Done)
    else if q >= 0 then Ran(d.(objects := RemoveAt(d.objects, q)), Done)
    else Ran(d, if ifExists then Done else Failed(NotFound("DROP TYPE", name)))
  }

  function AlterTypeP(d: Database, name: string, a: TypeAction): Ran<Database> {
    var p := Find(TypeKeys(d.types), NormIdent(name));
    var q := Find(ObjectKeys(d.objects), ObjectKey(TypeKind, name));
    if p >= 0 then
      var e := d.types[p];
      match a
      case RenameType(newName) => Ran(d.(types := d.types[p := e.(name := newName)]), Done)
      case _ =>
        match LabelAction(e.labels, a)
        case Refused(err) => Ran(d, Failed(err))
        case Changed(labels) => Ran(d.(types := d.types[p := e.(labels := labels)]), Done)
    else if a.RenameType? && q >= 0 then
      Ran(d.(objects := d.objects[q := RenamedType(d.objects[q], name, a.newName)]), Done)
    else Ran(d, Failed(NotFound("ALTER TYPE", name)))
  }

  function CreateObjectP(d: Database, kind: ObjectKind, name: string, orReplace: bool, sql: string): Ran<Database> {
    var p := Find(ObjectKeys(d.objects), ObjectKey(kind, name));
    if p < 0 then Ran(d.(objects := d.objects + [ObjectDef(kind, name, sql, [])]), Done)
    else if orReplace then Ran(d.(objects := d.objects[p := d.objects[p].(sql := sql, postAlters := [])]), Done)
    else Ran(d, Failed(AlreadyExists("CREATE " + KindText(kind), name)))
  }

  function DropObjectP(d: Database, kind: ObjectKind, name: string, ifExists: bool): Ran<Database> {
    var p := Find(ObjectKeys(d.objects), ObjectKey(kind, name));
    if p >= 0 then Ran(d.(objects := RemoveAt(d.objects, p)), Done)
    else Ran(d, if ifExists then Done else Failed(NotFound("DROP " + KindText(kind), name)))
  }

  function AlterObjectP(d: Database, kind: ObjectKind, oldName: string, newName: string): Ran<Database> {
    var p := Find(ObjectKeys(d.objects), ObjectKey(kind, oldName));
    if p < 0 then Ran(d, Failed(NotFound("ALTER " + KindText(kind), oldName)))
    else Ran(d.(objects := d.objects[p := d.objects[p].(name := newName)]), Done)
  }

  function AttachP(d: Database, kind: ObjectKind, name: string, sql: string): Ran<Database> {
    var p := Find(ObjectKeys(d.objects), ObjectKey(kind, name));
    if p < 0 then Ran(d.(unknowns := d.unknowns + [sql]), Done)
    else
      var o := d.objects[p];
      Ran(d.(objects := d.objects[p := o.(postAlters := o.postAlters + [sql])]), Done)
  }

  function TruncateP(d: Database, t: Truncate): Ran<Database> {
    var p := Find(TruncateKeys(d.truncates), TruncateKey(t));
    if p < 0 then Ran(d.(truncates := d.truncates + [t]), Done)
    else Ran(d.(truncates := d.truncates[p := t]), Done)
  }

  function ApplyP(d: Database, s: Statement): Ran<Database> {
    match s
    case CreateTable(name, temporary, unlogged, columns, constraints, partitionBy) =>
      CreateTableP(d, TableDef(name, temporary, unlogged, columns, constraints, partitionBy))
    case AlterTable(name, actions) => AlterTableP(d, name, actions)
    case DropTable(names, ifExists) => DropTablesP(d, names, ifExists)
    case CreateIndex(name, tableName, unique, concurrently, ifNotExists, body) =>
      CreateIndexP(d, IndexDef(name, tableName, unique, concurrently, ifNotExists, body))
    case DropIndex(name, ifExists) => DropIndexP(d, name, ifExists)
    case AlterIndex(name, newName) => AlterIndexP(d, name, newName)
    case CreateSequence(name, body) => CreateSequenceP(d, SequenceDef(name, body))
    case DropSequence(name, ifExists) => DropSequenceP(d, name, ifExists)
    case CreateType(name, labels) => CreateTypeP(d, EnumDef(name, labels))
    case DropType(name, ifExists) => DropTypeP(d, name, ifExists)
    case AlterType(name, action) => AlterTypeP(d, name, action)
    case CreateObject(kind, name, orReplace, sql) => CreateObjectP(d, kind, name, orReplace, sql)
    case DropObject(kind, name, ifExists) => DropObjectP(d, kind, name, ifExists)
    case AlterSequence(name, newName) => AlterSequenceP(d, name, newName)
    case AlterSequenceOpts(name, options) => AlterSequenceOptsP(d, name, options)
    case AlterObject(kind, oldName, newName) => AlterObjectP(d, kind, oldName, newName)
    case AlterFunctionOpts(kind, name, sql) => AttachP(d, kind, name, sql)
    case AlterObjectOpts(kind, name, sql) =>
      if Untracked(kind, sql) then Ran(d, Done) else AttachP(d, kind, name, sql)
    case TruncateTables(t) => TruncateP(d, t)
    case Unknown(raw) => Ran(d.(unknowns := d.unknowns + [raw]), Done)
  }

  function RunP(d: Database, ss: seq<Statement>): Ran<Database>
    decreases |ss|
  {
    if ss == [] then Ran(d, Done)
    else
      var r := ApplyP(d, ss[0]);
      if r.outcome.Done? then RunP(r.state, ss[1..]) else r
  }

  /** Running two batches is running one after the other. */
  lemma {:induction false} RunAppend(d: Database, a: seq<Statement>, b: seq<Statement>)
    ensures RunP(d, a + b) == if RunP(d, a).outcome.Done? then RunP(RunP(d, a).state, b) else RunP(d, a)
    decreases |a|
  {
    hide ApplyP;
    if a == [] {
      assert a + b == b;
    } else {
      assert (a + b)[0] == a[0] && (a + b)[1..] == a[1..] + b;
      var r := ApplyP(d, a[0]);
      if r.outcome.Done? { RunAppend(r.state, a[1..], b); }
    }
  }
}
