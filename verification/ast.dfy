/** Parsed DDL statements and the actions they carry. */
module Ast {
  import opened Text

  datatype Constraint = Constraint(name: string, definition: string)

  datatype Column = Column(
    name: string,
    dataType: string,
    collation: string,
    notNull: bool,
    default: Option<string>,
    inline: seq<string>
  )

  /** One action of ALTER TABLE. */
  datatype Action =
    | AddColumn(def: Option<Column>)
    | DropColumn(column: string)
    | AlterColumnType(column: string, dataType: string)
    | SetDefault(column: string, expr: string)
    | DropDefault(column: string)
    | SetNotNull(column: string)
    | DropNotNull(column: string)
    | RenameColumn(column: string, newName: string)
    | RenameTo(newName: string)
    | AddConstraint(added: Constraint)
    | DropConstraint(name: string, ifExists: bool)
    | AddGenerated(column: string, clause: string)
    | DropIdentity(column: string, ifExists: bool)
    | SetStorage(column: string, storage: string)
    | SetCompression(column: string, compression: string)
    | RenameConstraint(name: string, newName: string)
    | SetGenerated(column: string, kind: string)
    | Skip

  /** Empty `before` and `after` mean the clause is absent. */
  datatype TypeAction =
    | AddValue(value: string, ifNotExists: bool, before: string, after: string)
    | RenameValue(value: string, newValue: string)
    | RenameType(newName: string)

  datatype ObjectKind =
    | View | MatView | SchemaKind | Extension | Function | Procedure
    | Trigger | Domain | Policy | Rule | TypeKind | Partition

  function KindText(k: ObjectKind): string {
    match k
    case View => "VIEW"
    case MatView => "MATERIALIZED VIEW"
    case SchemaKind => "SCHEMA"
    case Extension => "EXTENSION"
    case Function => "FUNCTION"
    case Procedure => "PROCEDURE"
    case Trigger => "TRIGGER"
    case Domain => "DOMAIN"
    case Policy => "POLICY"
    case Rule => "RULE"
    case TypeKind => "TYPE"
    case Partition => "PARTITION"
  }

  /** The option kinds of CREATE and ALTER SEQUENCE. */
  datatype OptionKind =
    | IncrementBy | NoMinValue | MinValue | NoMaxValue | MaxValue | StartWith
    | Cache | NoCycle | Cycle | OwnedBy | As | SetLogged | Restart

  /** An option; the value of a flag is empty. */
  datatype SeqOption = SeqOption(kind: OptionKind, value: string)

  datatype Truncate = Truncate(tables: seq<string>, restartIdentity: bool, cascade: bool)

  datatype Statement =
    | CreateTable(tableName: string, temporary: bool, unlogged: bool,
                  columns: seq<Column>, constraints: seq<Constraint>, partitionBy: string)
    | AlterTable(tableName: string, actions: seq<Action>)
    | DropTable(tableNames: seq<string>, ifExists: bool)
    | CreateIndex(indexName: string, tableName: string, unique: bool, concurrently: bool,
                  ifNotExists: bool, body: string)
    | DropIndex(indexName: string, ifExists: bool)
    | AlterIndex(indexName: string, newName: string)
    | CreateSequence(seqName: string, body: string)
    | DropSequence(seqName: string, ifExists: bool)
    | CreateType(typeName: string, labels: seq<string>)
    | DropType(typeName: string, ifExists: bool)
    | AlterType(typeName: string, action: TypeAction)
    | CreateObject(kind: ObjectKind, name: string, orReplace: bool, sql: string)
    | DropObject(kind: ObjectKind, name: string, ifExists: bool)
    | AlterSequence(seqName: string, newName: string)
    | AlterSequenceOpts(seqName: string, options: seq<SeqOption>)
    | AlterObject(kind: ObjectKind, oldName: string, newName: string)
    | AlterFunctionOpts(kind: ObjectKind, name: string, sql: string)
    | AlterObjectOpts(kind: ObjectKind, name: string, sql: string)
    | TruncateTables(truncate: Truncate)
    | Unknown(raw: string)
}
