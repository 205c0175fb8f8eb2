# A model of pg-ddl-merge in Dafny

pg-ddl-merge reads a stream of PostgreSQL DDL statements, folds them into a schema held in memory and
prints one clean script that is meant to be equivalent. This project models that pipeline and proves
what it promises.

- `splitter.dfy`, `lexemes.dfy`, `splitting.dfy`, `separators.dfy`: the statement splitter, a character state machine,
  against a reading of the input as a row of lexemes; what the lexemes are, where it cuts, composition and stability.
- `catalog.dfy`, `indexed.dfy`, `plain.dfy`, `schema.dfy`: the schema three times over. `SchemaState` has
  the class with its lists, shared table objects and six hand-kept position maps; `Indexed` is the same as a
  value, with a run-time panic as an outcome of its own; `Plain` has bare lists and linear search.
- `positions.dfy`, `refinement.dfy`, `failure.dfy`: when the maps stay the inverses of the lists, and that
  the indexed schema then behaves as the bare lists; what failed statements leave behind.
- `effects.dfy`, `columnactions.dfy`, `identifiers.dfy`: what every statement and every action of ALTER TABLE does to the
  lists, said of the first object with the name, and when two spellings are one name.
- `absorption.dfy`, `dangling.dfy`, `ledger.dfy`, `labels.dfy`, `truncates.dfy`, `columnrename.dfy`, `templates.dfy`,
  `alterobjects.dfy`: laws over whole runs of the schema and its statements.
- `sequencebody.dfy`, `optionlists.dfy`, `optionplaces.dfy`, `sequences.dfy`, `quietnames.dfy`, `sequenceparser.dfy`,
  `optionreading.dfy`, `optionforms.dfy`: sequence bodies as texts, with the patterns that read options and take them out, against lists
  of options.
- `script.dfy`, `emitter.dfy`, `scriptlayout.dfy`, `printedforms.dfy`, `printedlabels.dfy`, `replay.dfy`, `soundness.dfy`,
  `roundtrip.dfy`, `fragments.dfy`: the emitter, the layout of what it writes, its statements replayed, and its text
  split again.
- `selfreferences.dfy`, `identitykinds.dfy`, `renamedtypes.dfy`: what the rewriting of stored definitions comes to.
- `phrases.dfy`, `writtenforms.dfy`, `tableforms.dfy`, `itemforms.dfy`, `truncateforms.dfy`, `collations.dfy`,
  `columnnames.dfy`, `structured.dfy`, `dispatch.dfy`: statements as people write them, in any case and spacing.
- `scanner.dfy`, `columns.dfy`, `columnprint.dfy`, `columnreadback.dfy`, `columnlist.dfy`, `truncateparser.dfy`,
  `truncatenames.dfy`: the hand-written scanners of the parser, each against what the printer writes.
- `merger.dfy`, `mergefailures.dfy`: the fold over all files, and where it stops.
- `rereading.dfy`, `printedtypes.dfy`, `printedtables.dfy`, `printedindexes.dfy`, `printedsequences.dfy`,
  `printedstatements.dfy`, `secondreading.dfy`, `secondmerge.dfy`: how the parser reads the statements the script prints, and exactly when
  merging the merged file again changes nothing.

Where a law is false of the code, the code is kept, the law is proved under its exact condition, and
where a short run shows the failure it is a lemma of its own:

- A rename onto a key in use, or two RENAME TO in one ALTER TABLE, breaks the position maps
  (`Refinement.ApplyRefines`, `Failure.CollidingRenameBreaks`, `Failure.RepeatedRenamePanics`).
- The generic object rename leaves the stored text behind, so the script no longer rebuilds the schema
  (`Soundness.ReplayExact`, `Soundness.RenameBreaksReplay`).
- A composite type renamed to a name whose raw and normalised forms differ is stored under one key and
  indexed under another (`Refinement.RenameCompositeRefines`, `Failure.QuotedCompositeBreaks`).
- A composite type whose text has two blanks before its name keeps the old name when it is renamed
  (`RenamedTypes.RewriteExact`, `RenamedTypes.DoubleBlankKept`).
- A column without NOT NULL loses a NULL from its constraints: ON DELETE SET NULL comes back as ON DELETE SET, and
  CHECK (x IS NOT NULL) makes the column NOT NULL (`ColumnReadBack.ColumnRoundTripExact`,
  `ColumnReadBack.SetNullLost`, `ColumnReadBack.NotNullGained`). In the same way a COLLATE inside a constraint becomes
  the column's, ON DELETE SET DEFAULT before another clause becomes its default, and STORAGE or COMPRESSION behind a
  default becomes part of it.
- A column whose name merely begins with UNIQUE, CHECK, EXCLUDE or LIKE is parsed as a constraint, and a
  named constraint keeps only the first line of its definition (`ColumnList.MisreadExact`,
  `ColumnList.TableReadBackExact`).
- RENAME TO does not follow every reference of a table to itself: a table called e or ref has its keyword cut, a quoted
  name is not seen, and an inline text that begins with another constraint is not looked at
  (`SelfReferences.RedirectsExactly`, `SelfReferences.SeenExactly`, `SelfReferences.InlineFollowsExactly`).
- RENAME COLUMN fills in dollar signs of the new name and does not see a quoted old one
  (`ColumnRename.ReplacesExactly`, `ColumnRename.QuotedKept`, `ColumnRename.CheckKept`); SET GENERATED accepts a
  generated column without an identity and changes nothing (`IdentityKinds.StoredUnchanged`,
  `IdentityKinds.StoredExample`).
- Writing an option into a sequence body can cut the name behind OWNED BY or AS: NO CYCLE leaves `OWNED BY bi` of
  `OWNED BY bicycle` (`QuietNames.QuietExact`, `QuietNames.BicycleLost`).
- `CREATE INDEX i ON users(email)`, without a blank, is kept as an index without a body on a table called
  `users(email)`: it is printed with a blank at its end, which splitting removes, and it hangs on no table
  (`PrintedIndexes.GluedColumns`, `PrintedIndexes.GluedUnattached`, `Fragments.SplitCleanOutput`).
- A printed enum is not read back as one, so a second merge moves it behind the tables that use it; an ALTER that came
  before its CREATE is attached by the second merge (`PrintedTypes.EnumUnread`, `SecondMerge.MergeTwiceExact`,
  `SecondMerge.EnumBehindTable`, `SecondMerge.EarlyAlterMoves`).
- A printed TRUNCATE whose last table is called CASCADE or RESTRICT loses it when read back, and so does a name that
  holds the word ONLY or begins with TABLE (`TruncateParser.TruncateReadBack`, `TruncateNames.TruncateReadExact`). An
  index called CONCURRENTLY on a table called ON and a sequence called IF can be misread
  (`PrintedIndexes.IndexReread`, `PrintedSequences.SequenceReread`).

Code and documentation disagree in two places, and the model follows the code: README.md:108 says that
constraint definitions are not updated after RENAME COLUMN, while merger/schema/schema.go:185-196 updates
them; merger/schema/model.go:31 says that only functions and procedures carry ALTER texts, while
merger/parser/parser.go:1132-1200 and merger/schema/schema.go:724-753 attach them to extensions, domains,
policies and views too.

The model is ASCII. The parser reads CREATE TABLE, CREATE TYPE, CREATE INDEX, CREATE SEQUENCE and TRUNCATE from text
(`rereading.dfy`), and the options of ALTER SEQUENCE (`sequenceparser.dfy`); for all other statements it is a
parameter: `Reader` says which names are read from a verbatim text, and `Parser` what a statement text is read as.

## Model

| member | source | states |
|---|---|---|
| Splitter.Split | merger/parser/splitter.go:7-115 | The character state machine returns exactly the statements of the lexeme reading of the input: quoted strings with doubled quotes, dollar blocks, line and block comments; it always ends, across dollar jumps of any length |
| Splitter.DollarBlock | merger/parser/splitter.go:42-71 | The text copied at a dollar sign is the whole block when its tag occurs again, else the sign alone |
| Separators.SplitsAtSeparator | merger/parser/splitter.go:7-115 | For every input, comments and dollar blocks included, what stands before and what stands after a separator are split on their own |
| Separators.PiecesCount | merger/parser/splitter.go:7-115 | Nothing else cuts: there is one piece more than separators met |
| Separators.NoSeparatorOnePiece | merger/parser/splitter.go:7-115 | A text without a separator is one statement, or none when it is blank |
| Splitting.SeparatesByParity | merger/parser/splitter.go:7-115 | Without comments and dollar signs, a `;` separates exactly when an even number of quotes stands before it |
| Splitting.SplitComposes | merger/parser/splitter.go:7-115 | Splitting `a;b` is splitting a and then b, whenever scanning a ends in the normal state and every dollar sign met there opens a block closing in a |
| Splitting.PiecesJoin | merger/parser/splitter.go:7-115 | On comment-free input the untrimmed pieces joined by `;` are the input |
| Splitting.SplitStable | merger/parser/splitter.go:7-115 | On comment-free input every statement that comes out splits to itself |
| Splitting.DollarCut | merger/parser/splitter.go:42-71 | Seen inside a window, a dollar block ends where it ends in the whole text if it fits, else it is a lone sign |
| Lexemes.DollarCloses | merger/parser/splitter.go:42-71 | A dollar block goes from its tag to the next occurrence of that same tag, for every tag and body |
| Lexemes.DollarAlone | merger/parser/splitter.go:56-59 | A dollar sign whose tag does not occur again is taken alone |
| Lexemes.LiteralTaken | merger/parser/splitter.go:29-32 | A quoted literal, semicolons and comment signs included, is one lexeme and is kept |
| Lexemes.LineDropped | merger/parser/splitter.go:34-36 | A line comment is dropped up to and with its line break |
| Lexemes.BlockDropped | merger/parser/splitter.go:38-40 | A block comment is dropped up to its first end mark, and to the end of the input without one (`Lexemes.BlockToEnd`) |
| Lexemes.ParameterBody | merger/parser/splitter.go:42-71 | `$$ $1; $$` is one statement |
| Positions.LookupIsFind | merger/schema/model.go:35-50 | With a map inverse to its list, a map look-up is linear search |
| Positions.InverseRemove | merger/schema/schema.go:399-414 | Shifting the list, deleting the key and re-indexing the tail keeps map and list inverse |
| Positions.InverseRename | merger/schema/schema.go:684-708 | Deleting the old key and inserting the new one keeps them inverse exactly when the new key is free or the old one |
| Positions.InverseRenames | merger/schema/schema.go:95-109 | A row of RENAME TO in one ALTER TABLE, all deleting the first key, keeps them inverse exactly when every target is free or the first key and every target but the last is deleted again or is the last |
| Positions.InverseRebuild | merger/schema/schema.go:361-373 | Rebuilding the index map from scratch gives the inverse of the filtered list |
| Refinement.ApplyRefines | merger/schema/schema.go:31-75 | From a consistent state every statement has the outcome and the lists of the map-free version, and leaves all six maps inverse exactly when it has no rename collision |
| Refinement.AlterTableRefines | merger/schema/schema.go:95-233 | ALTER TABLE keeps the table map inverse exactly when the renames that run, up to a failing action, are safe together |
| Refinement.DropTablesRefines | merger/schema/schema.go:326-374 | DROP TABLE over several names, failing or not, refines removal from the bare lists and keeps all maps inverse |
| Refinement.RenameCompositeRefines | merger/schema/schema.go:493-518 | Renaming a composite type keeps the object map inverse exactly when the target is free and the raw and the normalised new name have one key |
| RenamedTypes.NameReplaced | merger/schema/schema.go:756-772 | The rewritten text of a composite type has the new name for the old one, and is unchanged when the names do not normalise alike |
| RenamedTypes.RewriteExact | merger/schema/schema.go:756-772 | For every text that is read as a type of the name, the rewritten text names the new one exactly when one blank stands between CREATE, TYPE and the name |
| RenamedTypes.DoubleBlankKept | merger/schema/schema.go:756-772 | With two blanks the old name stays in the text |
| RenamedTypes.ReadRenamed | merger/parser/parser.go:728-755 | A text with a new name for the old one is read as before, under the new name |
| RenamedTypes.CompositeRead | merger/parser/parser.go:745-752 | CREATE TYPE name AS ( is read as a composite type of the name, kept as it stands |
| RenamedTypes.RangeRead | merger/parser/parser.go:737-744 | So is a range type |
| RenamedTypes.TypeFollows | merger/schema/schema.go:493-518 | So for parsed types the text follows a rename: the half of the premise of `Soundness.MergeSound` that is about ALTER TYPE holds by itself |
| Refinement.RunRefines | merger/schema/schema.go:31-75 | The representation invariant over whole runs, failed statements included, with the whole run refined by the map-free lists |
| Refinement.ReachableConsistent | merger/schema/model.go:61-70 | From the empty schema, without rename collisions, every run keeps all maps inverse and never indexes past a list |
| Catalog.KeyTellsKind | merger/schema/schema.go:26-29 | Object keys of different kinds never coincide |
| SchemaState.Schema.constructor | merger/schema/model.go:61-70 | A new schema has empty lists and empty maps |
| SchemaState.Schema.Apply | merger/schema/schema.go:31-75 | The heap schema with its shared table objects does on every statement what the value-level schema does, panics included |
| SchemaState.Schema.ApplyCreateTable | merger/schema/schema.go:77-93 | New state and outcome of CREATE TABLE |
| SchemaState.Schema.ApplyAlterTable | merger/schema/schema.go:95-109 | The row of actions runs on the table object found once, under the key of the statement, up to the first failure |
| SchemaState.Schema.PositionOf | merger/schema/schema.go:222-227 | Looking for the table object by identity finds the position it was taken from |
| SchemaState.Schema.ApplyRenameTo | merger/schema/schema.go:198-233 | RENAME TO redirects self-references, moves the key and hands the indexes on |
| SchemaState.Schema.RenameInIndexes | merger/schema/schema.go:228-232 | Every index of the old table name, and no other, gets the new one |
| SchemaState.Table.Change | merger/schema/schema.go:111-324 | Every ALTER TABLE action does to the table object what it does to the table as a value, or refuses with the same error and no change |
| SchemaState.Table.ChangeColumn | merger/schema/schema.go:130-196 | The actions on a column found at a position |
| SchemaState.Table.RedirectSelf | merger/schema/schema.go:198-221 | RENAME TO runs the redirect over every constraint definition and every inline constraint that begins with REFERENCES, and changes nothing else |
| SelfReferences.RedirectsExactly | merger/schema/schema.go:200-206 | The redirect turns every reference into its keyword, its white space and the new name, and keeps the rest, exactly when the old name does not occur in the word REFERENCES or there is no reference |
| SelfReferences.ConstraintsFollow | merger/schema/schema.go:200-206 | All definitions of a table follow its rename exactly under that condition |
| SelfReferences.InlineFollowsExactly | merger/schema/schema.go:208-217 | An inline constraint follows exactly when it begins with REFERENCES and the keyword does not hold the old name, or it holds no reference |
| SelfReferences.SeenExactly | merger/schema/schema.go:201-201 | A reference is seen exactly when the name ends in a word character, so a quoted name is never followed |
| SelfReferences.FollowsExactly | merger/schema/schema.go:198-206 | The only reference of a definition follows exactly when it is seen and its keyword stays whole |
| SelfReferences.KeywordCut | merger/schema/schema.go:202-205 | In a table called e the reference REFERENCES e(id) becomes Rnodes(id) |
| SchemaState.Table.RemoveConstraint | merger/schema/schema.go:245-259 | DROP CONSTRAINT by name, else by the automatic name of an inline constraint |
| ColumnActions.FieldSet | merger/schema/schema.go:138-183 | SET and DROP NOT NULL, SET and DROP DEFAULT and TYPE give the first column of the name that value, and leave its other fields, the other columns and the constraints as they are |
| ColumnActions.ColumnMissing | merger/schema/schema.go:130-324 | Without the column every action is refused under its own name, but for DROP IDENTITY IF EXISTS |
| ColumnActions.ColumnDropped | merger/schema/schema.go:130-136 | DROP COLUMN takes out that column and keeps the order of the others |
| ColumnActions.ColumnRenamed | merger/schema/schema.go:185-196 | RENAME COLUMN changes one name, and replaces the word in every definition |
| ColumnActions.TableRenamed | merger/schema/schema.go:198-219 | RENAME TO redirects every definition and every inline text that begins with REFERENCES, and changes the name |
| ColumnActions.ColumnAdded | merger/schema/schema.go:117-129 | ADD COLUMN appends, and refuses a name that is taken or a missing definition |
| ColumnActions.ConstraintAdded | merger/schema/schema.go:235-243 | ADD CONSTRAINT appends, and refuses a name that is taken; without a name it always appends |
| ColumnActions.ConstraintDropped | merger/schema/schema.go:245-251 | A constraint of the name is dropped before any automatic name is thought of |
| ColumnActions.ConstraintRenamed | merger/schema/schema.go:303-309 | RENAME CONSTRAINT changes one name in its place |
| ColumnActions.AutomaticDropped | merger/schema/schema.go:852-884 | table_column_key, _fkey and _check take the first UNIQUE, REFERENCES or CHECK text of that column, and nothing else |
| ColumnActions.PrimaryDropped | merger/schema/schema.go:852-884 | table_pkey takes the first PRIMARY KEY text of the first column that has one |
| ColumnActions.NothingDropped | merger/schema/schema.go:245-259 | Any other name is refused, unless IF EXISTS is given |
| ColumnActions.UniqueDropped | merger/schema/schema.go:852-884 | users_email_key drops the UNIQUE of users.email |
| ColumnActions.InlineSet | merger/schema/schema.go:261-301 | STORAGE, COMPRESSION and GENERATED texts stand for the first one of their kind, or last |
| ColumnActions.IdentityDropped | merger/schema/schema.go:270-284 | DROP IDENTITY takes the first GENERATED text; without one it is refused, unless IF EXISTS is given |
| ColumnActions.IdentityPlace | merger/schema/schema.go:821-850 | SET GENERATED rewrites the first identity text, behind any white space, and is refused without one |
| ColumnActions.LastActionWins | merger/schema/schema.go:138-301 | Of two actions that set the same thing in one column the second decides |
| ColumnActions.ActionsCommute | merger/schema/schema.go:138-301 | Actions on different columns can be swapped |
| SchemaState.Schema.DropOneTable | merger/schema/schema.go:335-374 | DROP TABLE of one name: a table with its indexes, else a partition, else an error unless IF EXISTS |
| SchemaState.Schema.RemoveTableAt | merger/schema/schema.go:354-373 | The table list is shifted and its map re-indexed, the table's indexes are filtered out and their map rebuilt |
| SchemaState.Schema.ReindexTables | merger/schema/schema.go:356-359 | The tail re-index loop writes the entries of exactly the keys from the position on |
| SchemaState.Schema.KeepOtherIndexes | merger/schema/schema.go:360-367 | The filter loop keeps exactly the indexes of other tables, in order |
| SchemaState.Schema.RebuildIndexIndex | merger/schema/schema.go:369-372 | The rebuild loop gives the re-indexed empty map |
| SchemaState.Schema.ApplyCreateIndex | merger/schema/schema.go:376-397 | CREATE INDEX appends, keeps, or overwrites in place |
| SchemaState.Schema.ApplyDropIndex | merger/schema/schema.go:399-414 | New state and outcome of DROP INDEX |
| SchemaState.Schema.ApplyAlterIndex | merger/schema/schema.go:416-427 | New state and outcome of ALTER INDEX RENAME |
| SchemaState.Schema.ApplyDropSequence | merger/schema/schema.go:439-454 | New state and outcome of DROP SEQUENCE |
| SchemaState.Schema.ApplyDropType | merger/schema/schema.go:466-491 | DROP TYPE of an enum, else of a composite type |
| SchemaState.Schema.ApplyAlterType | merger/schema/schema.go:493-557 | ALTER TYPE on an enum, else the rename of a composite type |
| SchemaState.Schema.ApplyCreateObject | merger/schema/schema.go:575-592 | CREATE of a verbatim object; OR REPLACE replaces the text and drops the attached ALTERs |
| SchemaState.Schema.DeleteObject | merger/schema/schema.go:594-610 | Removing an object shifts the list and re-indexes the tail |
| SchemaState.Schema.ApplyAlterObject | merger/schema/schema.go:697-708 | The generic rename changes name and key, not the text |
| SchemaState.Schema.Attach | merger/schema/schema.go:710-720 | An ALTER text is attached to its object, or passed through when there is none |
| SchemaState.Schema.ApplyAlterObjectOpts | merger/schema/schema.go:724-753 | As Attach, except that OWNER TO and SET SCHEMA of domains and views change nothing |
| SchemaState.Schema.ApplyTruncate | merger/schema/schema.go:667-682 | A TRUNCATE replaces the entry of its key or is appended |
| SchemaState.Schema.ApplyAlterSequenceOpts | merger/schema/schema.go:655-665 | The options are written one after the other into the body |
| Effects.TableCreated | merger/schema/schema.go:77-93 | CREATE TABLE appends the table, or is refused when the name is taken |
| Effects.TableAltered | merger/schema/schema.go:95-109 | One action replaces the table in its place by what the action makes of it, or fails and changes nothing |
| Effects.ActionsSplit | merger/schema/schema.go:95-109 | A row of actions is a row of statements, one action each |
| Effects.TableMoved | merger/schema/schema.go:198-233 | RENAME TO gives the table its name in its place, and of the indexes exactly those of the old key follow |
| Effects.TableDropped | merger/schema/schema.go:335-374 | DROP TABLE takes out the first table of the name and the indexes of that name, in order |
| Effects.PartitionDropped | merger/schema/schema.go:338-348 | With no table of the name the partition goes |
| Effects.TablesDropped | merger/schema/schema.go:326-333 | Several names are dropped one by one, up to the first failure |
| Effects.IndexReplaced | merger/schema/schema.go:386-393 | CREATE INDEX of a taken name stands in its place, or does nothing with IF NOT EXISTS |
| Effects.IndexDropped | merger/schema/schema.go:399-414 | DROP INDEX takes out that index and nothing else |
| Effects.IndexRenamed | merger/schema/schema.go:416-427 | ALTER INDEX changes one name in its place |
| Effects.SequenceCreated | merger/schema/schema.go:429-437 | CREATE SEQUENCE appends, or is refused when the name is taken |
| Effects.SequenceWritten | merger/schema/schema.go:655-665 | ALTER SEQUENCE options change one body in its place |
| Effects.SequenceRenamed | merger/schema/schema.go:684-695 | RENAME TO changes one name; the body stays |
| Effects.SequenceDropped | merger/schema/schema.go:439-454 | DROP SEQUENCE takes out that sequence |
| Effects.EnumDropped | merger/schema/schema.go:466-476 | DROP TYPE takes the enum, whatever composite types there are |
| Effects.CompositeDropped | merger/schema/schema.go:477-486 | Without an enum it takes the composite or range type |
| Effects.EnumRenamed | merger/schema/schema.go:493-518 | An enum gets its new name in its place, with its labels |
| Effects.LabelRenamed | merger/schema/schema.go:548-556 | RENAME VALUE puts the new label in the place of the old one |
| Effects.CompositeRenamed | merger/schema/schema.go:497-507 | A composite type gets the normalised new name and its rewritten text in its place |
| Effects.TypeMissing | merger/schema/schema.go:487-511 | With neither, everything fails but DROP TYPE IF EXISTS |
| Effects.ObjectReplaced | merger/schema/schema.go:575-584 | OR REPLACE gives the new text and forgets the ALTERs, in the same place; without it the object is refused |
| Effects.ObjectDropped | merger/schema/schema.go:594-611 | DROP takes out the object of that kind and name, case and outer white space aside |
| Effects.ObjectRenamed | merger/schema/schema.go:697-708 | RENAME TO changes the name; text and ALTERs stay |
| Effects.TextAttached | merger/schema/schema.go:710-753 | An ALTER text goes behind those of its object, to the unknowns without one, and nowhere when it is untracked |
| Effects.KeysMeet | merger/schema/schema.go:26-29 | Two objects have one key exactly when they have one kind and one name up to case and outer white space |
| Identifiers.OneName | merger/schema/schema.go:19-23 | A name is looked up under its lower-cased text, whatever white space and quotes stand around it |
| Identifiers.NamesMeet | merger/schema/schema.go:19-23 | Two spellings are one name exactly when they differ in case at most |
| SchemaState.InsertLabel | merger/schema/schema.go:568-573 | The in-place shift of the label array yields prefix, new label, suffix |
| SchemaState.FindColumnIdx | merger/schema/schema.go:775-782 | The loop finds the first column of the key |
| SchemaState.RemoveInlineConstraint | merger/schema/schema.go:808-819 | The loop removes the first inline constraint with the prefix |
| SchemaState.SetGeneratedKind | merger/schema/schema.go:823-848 | The first GENERATED constraint has its identity clauses rewritten, or there is no such constraint |
| IdentityKinds.ClauseReplaced | merger/schema/schema.go:821-848 | In any text, the first identity clause, in any case and white space, gets the new kind; everything else up to the end of its line stays |
| IdentityKinds.KindSet | merger/schema/schema.go:821-848 | The clause is then found again at its place, with the kind that was set |
| IdentityKinds.LastKindWins | merger/schema/schema.go:821-848 | Setting one kind and then another is setting the second, in every text with any number of clauses |
| IdentityKinds.SetTwice | merger/schema/schema.go:823-848 | The same for the list of inline constraints: the second SET GENERATED finds the same constraint and leaves what it leaves by itself |
| IdentityKinds.StoredUnchanged | merger/schema/schema.go:823-848 | SET GENERATED changes nothing, for every kind and for ALWAYS and BY DEFAULT alone, exactly when the first GENERATED constraint holds no identity clause |
| IdentityKinds.StoredExample | merger/schema/schema.go:823-848 | GENERATED ALWAYS AS (a + b) STORED holds none, and is accepted unchanged |
| WrittenForms.IdentitySeen | merger/schema/schema.go:821 | GENERATED kind AS IDENTITY is seen with its kind in any case and spacing |
| Failure.ActionsLeavePrefix | merger/schema/schema.go:95-109 | A failing ALTER TABLE leaves the state after exactly the actions before the failing one, and reports that action's error |
| Failure.NamesLeavePrefix | merger/schema/schema.go:326-333 | A failing DROP TABLE leaves the state after exactly the names before the failing one |
| Failure.FailureLeavesPrefix | merger/schema/schema.go:31-75 | Any other statement that fails changes nothing at all |
| Failure.RepeatedRenamePanics | merger/schema/schema.go:95-109 | Two RENAME TO in one ALTER TABLE: a four-statement run that ends in an index past the table list |
| Failure.CollidingRenameBreaks | merger/schema/schema.go:198-233 | RENAME TO onto a live table succeeds and leaves the maps inconsistent |
| Failure.QuotedCompositeBreaks | merger/schema/schema.go:493-518 | Renaming a composite type to "Addr2" in quotes succeeds, leaves the maps inconsistent, and DROP TYPE addr2 then finds nothing |
| AlterObjects.ActionDecides | merger/schema/schema.go:13-17 | An ALTER DOMAIN or ALTER VIEW text on one line is untracked exactly when its action is OWNER TO or SET SCHEMA with something behind it |
| AlterObjects.OwnerUntracked | merger/schema/schema.go:722-753 | OWNER TO and SET SCHEMA on a domain or view, with any name and any argument, leave the schema as it is |
| WrittenForms.ExistingUntracked | merger/schema/schema.go:13-17 | With IF EXISTS, too, a text is untracked exactly when its action is |
| Absorption.OffStep | merger/schema/schema.go:31-75 | A statement that is not on a table does the same with the table and its indexes erased: same outcome, erased result |
| Absorption.OwnStep | merger/schema/schema.go:95-109 | A statement on the table that does not drop it changes nothing once the table, under its new key, and its indexes are erased |
| Absorption.OwnDrop | merger/schema/schema.go:335-374 | Dropping the table, alone or among other names, does to the database what dropping the other names does to the erased one |
| Absorption.Absorption | merger/schema/schema.go:31-75 | Create a table, alter it, rename it any number of times, index it, drop it, with any statements on other objects in between: the run ends where the run without the table's statements ends |
| Absorption.AbsorptionWithMaps | merger/schema/schema.go:31-75 | The same for the indexed schema, position maps included |
| Dangling.AlterTableHands | merger/schema/schema.go:198-233 | ALTER TABLE hands exactly the table's indexes to its final name, in place, and touches no other index |
| Dangling.DropTakesItsIndexes | merger/schema/schema.go:335-374 | DROP TABLE removes all indexes of the table and leaves those of every other table, in order |
| Dangling.StepAnchored | merger/schema/schema.go:376-397 | A statement without rename collision keeps every index on a live table exactly when it is no effective CREATE INDEX on a missing table |
| Dangling.ReachableAnchored | merger/schema/schema.go:376-397 | Over whole runs from the empty schema no state has a dangling index exactly when every CREATE INDEX names a live table |
| Emitter.EmitColumn | merger/emitter/emitter.go:234-247 | A column is its parts joined by blanks |
| Emitter.EmitTable | merger/emitter/emitter.go:189-232 | The loops with the running counter put a comma after every item but the last |
| Emitter.EmitWithAlters | merger/emitter/emitter.go:39-49 | A CREATE text, its ALTER texts and an empty line |
| Emitter.EmitSection | merger/emitter/emitter.go:28-165 | One pass prints the objects of one section, in order |
| Emitter.Emit | merger/emitter/emitter.go:25-187 | The whole output is the script of the schema, section by section, sequence bodies as they are stored, without trailing newlines but one |
| ScriptLayout.OutputBlocks | merger/emitter/emitter.go:25-187 | The output is, kind by kind in the order the documentation lists, each statement with its ALTERs and a blank line behind |
| PrintedLabels.LabelsReadBack | merger/emitter/emitter.go:58-66 | What stands between the parens of a printed enum is split and unquoted to its labels |
| PrintedLabels.EnumRead | merger/parser/parser.go:728-736 | An enum on one line is read with its labels |
| PrintedLabels.LabelRead | merger/parser/parser.go:731-734 | A label loses the white space around it and every tick at its ends |
| PrintedForms.EnumForm | merger/emitter/emitter.go:58-66 | An enum of two labels, character by character |
| PrintedForms.TableForm | merger/emitter/emitter.go:189-232 | A table: its words, its name, the items indented with commas between, and PARTITION BY |
| PrintedForms.BodyItems | merger/emitter/emitter.go:189-232 | Columns before constraints, each in its printed form |
| PrintedForms.IndexForm | merger/emitter/emitter.go:102-118 | An index with all its words |
| ColumnPrint.TextIs | merger/emitter/emitter.go:234-247 | A column is printed with name, type, COLLATE, NOT NULL, DEFAULT and inline texts in that order |
| Soundness.ScriptPrints | merger/emitter/emitter.go:25-187 | The printed script consists of the texts of exactly the statements that are replayed, in order |
| Replay.ReplayRebuilds | merger/emitter/emitter.go:25-187 | When the keys are distinct and every stored text still names its object, replaying the script from empty rebuilds the schema with its objects in script order, without error |
| Replay.RegroupedPermutes | merger/emitter/emitter.go:28-165 | Script order is a permutation of the objects |
| Soundness.StepKeepsReplayable | merger/schema/schema.go:31-75 | Every statement as the parser makes it, without collision and without a rename behind a text's back, keeps the schema replayable |
| Soundness.MergeSound | merger/emitter/emitter.go:25-187 | Merge soundness: for every schema a faithful run reaches, failed runs included, the emitted statements run without error and rebuild it |
| Soundness.ReplayExact | merger/emitter/emitter.go:25-187 | The script rebuilds the schema exactly when keys are distinct, texts name their objects, and no object of a section without ALTERs carries any |
| Soundness.RenameBreaksReplay | merger/schema/schema.go:697-708 | After the generic object rename the script no longer rebuilds the schema |
| Soundness.OutputStable | merger/emitter/emitter.go:25-187 | Objects in script order print the same bytes |
| Soundness.MergeIdempotent | merger/emitter/emitter.go:25-187 | Running the statements that the script stands for prints the same bytes again; what the parser makes of their texts is SecondMerge |
| RoundTrip.SplitWritten | merger/emitter/emitter.go:25-187 | Splitting printed lines gives back their texts, trimmed, whatever mix of line endings stands between them |
| RoundTrip.SplitFile | merger/emitter/emitter.go:186-186 | The final newline trim does not disturb that |
| RoundTrip.SplitOutput | merger/emitter/emitter.go:25-187 | Splitting the output gives the emitted statement texts, in order and trimmed, and exactly as printed if and only if none begins or ends in white space |
| Fragments.TableClosed | merger/emitter/emitter.go:189-232 | A printed table is lexically closed when its stored pieces are |
| Fragments.IndexPadded | merger/emitter/emitter.go:102-118 | A printed index ends in a blank exactly when it has no body |
| Fragments.SplitCleanOutput | merger/emitter/emitter.go:25-187 | Text round trip from conditions on the stored pieces alone: the texts come back trimmed, and as printed if and only if every index has a body |
| Ledger.StepBalanced | merger/schema/schema.go:575-611 | Every statement balances the ledger of every text: held after plus lost is held before plus arrived |
| Ledger.RunBalanced | merger/schema/schema.go:710-753 | The balance over whole runs |
| Ledger.PrintedOnce | merger/emitter/emitter.go:28-165 | Every held ALTER or pass-through text is printed exactly as often as it is held, besides the statements the schema itself prints |
| Ledger.CarriersPrint | merger/emitter/emitter.go:28-165 | Every kind the parser makes ALTER statements for has them printed |
| Ledger.Conservation | merger/schema/schema.go:710-753 | Over a run, what the script prints of a text is what arrived less what OR REPLACE or DROP discarded |
| Ledger.AltersFollowCreate | merger/emitter/emitter.go:39-49 | In the script the ALTERs of an object directly follow its CREATE, in arrival order |
| Labels.AddedLabelPlace | merger/schema/schema.go:519-547 | ADD VALUE puts the label next to its anchor or last; taking it out gives the old labels in their old order; labels stay distinct |
| Labels.RefusedLabel | merger/schema/schema.go:519-547 | ADD VALUE is refused exactly for a repeated label without IF NOT EXISTS or for a missing anchor |
| Labels.FindInserted | merger/schema/schema.go:568-573 | Every other label keeps its place or moves up by one |
| Labels.StepLabels | merger/schema/schema.go:493-557 | A statement keeps all labels distinct exactly when it lists distinct labels and renames to a free one |
| Labels.RunLabels | merger/schema/schema.go:493-557 | Over whole runs labels are distinct in every state exactly when every statement meets that |
| OptionPlaces.OwnEnd | merger/schema/schema.go:612-634 | The removal pattern of a family takes an option of that family from its first character to its last |
| OptionPlaces.ShortIncrement | merger/schema/schema.go:621-621 | INCREMENT without BY is taken out too, to the end of its number |
| OptionPlaces.ShortStart | merger/schema/schema.go:626-626 | And so is START without WITH |
| OptionPlaces.NothingInside | merger/schema/schema.go:612-634 | It finds nothing inside an option of another family whose name is quiet, whatever option follows |
| Sequences.RemovedBody | merger/schema/schema.go:636-653 | Taking a family out of the text of a list of options gives the text of the list without that family |
| Sequences.LastWriterWins | merger/schema/schema.go:636-665 | Writing a row of options into a body text leaves the untouched options in order, followed by the last write of each family in write order |
| Sequences.SameOptionsAgain | merger/schema/schema.go:655-665 | Writing the same options again changes nothing |
| OptionLists.OnePerWrittenFamily | merger/schema/schema.go:616-653 | In that list a written family has exactly one option, any other family is as before; RESTART writes nothing |
| QuietNames.RemovedExactly | merger/schema/schema.go:636-643 | Any body text at all is kept by the removal exactly when no option of the family is seen in it |
| QuietNames.QuietExact | merger/schema/schema.go:612-653 | A name behind OWNED BY survives every other option and every write exactly when it is quiet: no MINVALUE, MAXVALUE or CYCLE in it, no NO and no word AS at its end |
| QuietNames.BicycleLost | merger/schema/schema.go:636-653 | Writing NO CYCLE turns OWNED BY bicycle into OWNED BY bi NO CYCLE |
| SequenceParser.ParseSequenceOptions | merger/parser/parser.go:1023-1043 | The loop over the patterns with its set of seen families picks, from the text, the first matching pattern of each family, in pattern order |
| SequenceParser.PickedFamily | merger/parser/parser.go:1023-1043 | A family has one parsed option when one of its patterns matches, else none |
| SequenceParser.ParsedOptionsApplied | merger/schema/schema.go:655-665 | What is parsed from a text never repeats a family, so all of it but RESTART ends up in the body, in order, behind the untouched options |
| OptionForms.ShortForm | merger/parser/parser.go:1000-1021 | Every option with a number is read without BY or WITH, negative numbers included |
| OptionForms.LongForm | merger/parser/parser.go:1000-1021 | And with it, in any case and spacing |
| OptionForms.NegativeForm | merger/parser/parser.go:1005-1007 | NO MINVALUE, NO MAXVALUE and NO CYCLE are read as whole words |
| OptionForms.OwnedForm | merger/parser/parser.go:1014 | OWNED BY takes the next word |
| OptionForms.LoggedForm | merger/parser/parser.go:1016 | SET LOGGED and SET UNLOGGED are kept as they are written |
| OptionForms.SemicolonDropped | merger/parser/parser.go:1024 | A semicolon at the end changes nothing |
| OptionReading.OptionsReadBack | merger/parser/parser.go:999-1043 | Reading the text of a list of options without repeats gives exactly its options, in pattern order, but for RESTART |
| OptionReading.OptionsTransfer | merger/parser/parser.go:982-1043 | ALTER SEQUENCE with the text of such a list: the body keeps its other options and gets exactly those of the list |
| Truncates.SortSorts | merger/schema/schema.go:667-676 | Sorting permutes and orders |
| Truncates.SortedUnique | merger/schema/schema.go:667-676 | A sorted list is determined by its multiset |
| Truncates.JoinInjective | merger/schema/schema.go:674-674 | Joining comma-free names by commas is injective |
| Truncates.KeyIsCanonical | merger/schema/schema.go:667-682 | Two TRUNCATEs have one key exactly when they name the same tables as multisets |
| Truncates.CommaBreaksKey | merger/schema/schema.go:667-682 | With a comma in a name different tables would share a key; the parser splits at every comma, so none of its statements holds one (TruncateParser.ReadListed) |
| Truncates.TruncatesFold | merger/schema/schema.go:667-682 | Over whole runs: one entry per key, in first-seen order, holding the last statement |
| Truncates.OneEntryPerTableSet | merger/schema/schema.go:667-682 | The same without keys: entries are one per multiset of tables, none missing, each the last statement on it |
| TruncateParser.ParseTruncate | merger/parser/parser.go:1045-1098 | The modifier loop and the name loop compute the reading of a TRUNCATE text |
| TruncateNames.TruncateReadExact | merger/parser/parser.go:1045-1098 | A printed TRUNCATE, its names with white space or not, is read back exactly when the reader takes no modifier off the end of the list, no TABLE off its start and no ONLY out of it |
| TruncateParser.TruncateReadBack | merger/parser/parser.go:1045-1098 | With names free of white space that is so exactly when the last table is not called CASCADE or RESTRICT |
| TruncateParser.ReadListed | merger/parser/parser.go:1085-1097 | What is read names at least one table, and no key has a comma |
| TruncateForms.ModifierRead | merger/parser/parser.go:1051-1068 | What each of the four words at the end says |
| TruncateForms.ListRead | merger/parser/parser.go:1071-1097 | TRUNCATE and TRUNCATE TABLE are read with the names of the list, without ONLY and stars |
| TruncateForms.OutsideDropped | merger/parser/parser.go:1046 | White space outside and one semicolon do not count |
| ColumnRename.ReplacesWords | merger/schema/schema.go:185-196 | For every new name, dollar signs included, the scanner replaces exactly the maximal words equal to the old name, in any case, by the filled template |
| ColumnRename.LiteralExactly | merger/schema/schema.go:193-194 | A new name stands for itself exactly when none of its dollar signs stands before another one, a name, or a name in braces |
| ColumnRename.ReplacesExactly | merger/schema/schema.go:185-196 | What is written is the new name itself exactly when it is literal in that sense or the old name is not among the words |
| Templates.Reference | merger/schema/schema.go:191-195 | A dollar sign with a word behind it in the new name is the match for 0 and nothing for any other word |
| Templates.Braced | merger/schema/schema.go:191-195 | So it is in braces, with anything behind them; a doubled sign is one (`Templates.DoubledSign`) |
| ColumnRename.QuotedSeen | merger/schema/schema.go:191-192 | An occurrence of a quoted old name is seen exactly when word characters stand on both sides of it |
| ColumnRename.QuotedKept | merger/schema/schema.go:191-195 | A definition keeps a quoted old name, whatever the new name, exactly when no occurrence stands between two word characters |
| ColumnRename.CheckKept | merger/schema/schema.go:185-196 | Renaming the column "a" leaves CHECK ("a" > 0) as it is |
| ColumnRename.RenamedBack | merger/schema/schema.go:185-196 | Renaming a to b and back restores a definition up to the case of a exactly when b was not one of its words |
| ColumnRename.RenameColumnBack | merger/schema/schema.go:185-196 | RENAME COLUMN to a free name and back succeeds and restores columns and constraints, definitions under that condition |
| ColumnRename.RenamesCommute | merger/schema/schema.go:185-196 | Renames of two columns to names neither has commute |
| Scanner.ParenClose | merger/parser/parser.go:202-231 | The scan finds the first return to depth zero outside quotes |
| Scanner.FirstCloseLeast | merger/parser/parser.go:202-231 | It is a closing position and no earlier one is |
| Scanner.ExtractParenBody | merger/parser/parser.go:234-264 | The body is the text, untrimmed, between the opening paren and that same position |
| Scanner.SplitAtDepthZeroCommas | merger/parser/parser.go:267-303 | Parts are cut at the commas at depth zero outside quotes |
| Scanner.TableBodyRoundTrip | merger/emitter/emitter.go:189-232 | In a printed table the matching paren is the printer's, and comma splitting gives back column and constraint texts in order |
| Structured.GroupFound | merger/parser/parser.go:234-263 | For every text nested from words, literals and groups, the body is found between the parens that belong together |
| Structured.GroupOpen | merger/parser/parser.go:234-263 | A group without its closing paren is unmatched |
| Structured.LiteralOpen | merger/parser/parser.go:234-263 | A literal that stays open hides the closing paren |
| Structured.ItemsFound | merger/parser/parser.go:267-303 | Commas cut between such items and nowhere else; a blank last item is dropped |
| Columns.ParseColumnDef | merger/parser/parser.go:343-400 | The stepwise parse of a shrinking rest computes the reading of a column definition |
| ColumnNames.PlainName | merger/parser/parser.go:415-421 | A plain name ends at the first blank, tab or line break, and the rest is read as the clauses |
| ColumnNames.QuotedName | merger/parser/parser.go:408-413 | A double-quoted name is read without its quotes, with the clauses that a plain name would have |
| ColumnNames.UnusualNames | merger/parser/parser.go:403-422 | An empty definition, an empty quoted name, and a quote that is not closed |
| ColumnNames.TypeEndsAt | merger/parser/parser.go:425-442 | The type ends at each of the seven words |
| ColumnNames.DefaultEndsAt | merger/parser/parser.go:445-456 | The default ends at each of its stop words |
| Collations.CollateTaken | merger/parser/parser.go:358-363 | A COLLATE clause is taken out whatever its case and spacing, and with doubled quotes in the name |
| ColumnPrint.FindsCollation | merger/parser/parser.go:358-363 | The collation found is the printed clause, not a match straddling the type |
| ColumnPrint.FindsDefault | merger/parser/parser.go:377-386 | The default found is the printed one |
| ColumnPrint.ReadsValue | merger/parser/parser.go:445-456 | The default value ends where the first inline constraint begins |
| ColumnPrint.SkipsDefault | merger/parser/parser.go:377-386 | A GENERATED BY DEFAULT is not taken for a default |
| ColumnPrint.ClauseInTail | merger/parser/parser.go:358-363 | Behind a type free of the word, a COLLATE clause is found exactly when the clauses after the type hold one |
| ColumnPrint.NullInTail | merger/parser/parser.go:365-375 | Behind a type free of it, a NULL is found exactly when the clauses after the type hold one |
| ColumnReadBack.ColumnRoundTrip | merger/emitter/emitter.go:234-247 | Parsing a printed column recovers name, type, collation, NOT NULL and default, with the inline constraints as one text, when the clauses keep what is theirs |
| ColumnReadBack.ColumnRoundTripExact | merger/parser/parser.go:343-400 | That is so exactly when no COLLATE is found in default or constraints unless one was printed, no NULL unless NOT NULL was, no bare DEFAULT in the constraints, and the default ends where the printer ended it |
| ColumnReadBack.MergedText | merger/emitter/emitter.go:234-247 | Printing the column that was read gives the same text |
| ColumnReadBack.NothingInvented | merger/parser/parser.go:377-395 | The default and type stages return no more characters than they are given |
| ColumnReadBack.NotNullGained | merger/parser/parser.go:366-368 | A NOT NULL inside a constraint, such as CHECK (x IS NOT NULL), is read as the column's own |
| ColumnReadBack.TrailingNullLost | merger/parser/parser.go:369-375 | A constraint that ends in NULL, such as ON DELETE SET NULL, comes back without it |
| ColumnReadBack.SetNullLost | merger/parser/parser.go:369-375 | A concrete reference with ON DELETE SET NULL comes back as ON DELETE SET and prints differently |
| ColumnList.ParseColumnList | merger/parser/parser.go:310-341 | The loop over the items computes the reading of a table body |
| ItemForms.NamedConstraint | merger/parser/parser.go:319-325 | CONSTRAINT name gives the name and the first line of the definition, in any case and spacing |
| ItemForms.KeyConstraint | merger/parser/parser.go:327-332 | PRIMARY KEY and FOREIGN KEY begin a constraint that is kept as it stands |
| ItemForms.WordConstraint | merger/parser/parser.go:327-332 | So does everything that begins with UNIQUE, CHECK, EXCLUDE or LIKE |
| ColumnList.TableReadBack | merger/parser/parser.go:310-341 | What the parser makes of a printed table body: misread columns, lost clauses and cut definitions included |
| ColumnList.MisreadExact | merger/parser/parser.go:305-333 | A printed column is read as a constraint exactly when its name begins with UNIQUE, CHECK, EXCLUDE or LIKE, or is PRIMARY or FOREIGN before a type that begins with KEY, or is CONSTRAINT with text behind the first word of the type |
| ColumnList.TableReadBackExact | merger/parser/parser.go:310-341 | A printed table is read back exactly when no column looks like a constraint, every column keeps its clauses, and no named constraint spans lines |
| ColumnList.KeywordNameMisread | merger/parser/parser.go:304-308 | Any column whose name begins with UNIQUE, CHECK, EXCLUDE or LIKE is read as a constraint |
| Merger.Run | merger/merger.go:18-55 | The nested loops feed every statement of every file, in order, to one schema, stop at the first failure, and return the script of the result |
| Merger.FeedRuns | merger/merger.go:33-46 | Feeding readable texts is running their statements |
| Merger.FilesJoin | merger/merger.go:33-46 | Cutting a file in two behind a statement does not change what is fed |
| MergeFailures.SourceAt | merger/merger.go:30-37 | The statements run file after file, in the order of each file |
| MergeFailures.FirstFailure | merger/merger.go:38-44 | The first text that cannot be read or whose statement fails ends the merge with the name of its file |
| MergeFailures.MergedExactly | merger/merger.go:36-54 | A file is written exactly when everything was read and ran, with the script of the final schema |
| PrintedTypes.EnumUnread | merger/parser/parser.go:728-755 | A printed enum is never read as an enum: its labels stand on lines of their own, which the pattern does not cross, so it is passed through |
| PrintedTypes.OneLineRead | merger/parser/parser.go:728-736 | Written on one line, with something between its parens, an enum is read with its labels |
| PrintedTables.TableReread | merger/parser/parser.go:146-198 | A printed CREATE TABLE is read as that table, its columns merged, with its modifier and partition clause |
| PrintedTables.MergedTableText | merger/emitter/emitter.go:189-232 | The table that is read prints the same text |
| PrintedIndexes.IndexReread | merger/parser/parser.go:665-679 | A printed CREATE INDEX is read as that index exactly when it is not an index called CONCURRENTLY on a table called ON, with a body and without options |
| PrintedIndexes.GluedColumns | merger/parser/parser.go:665-679 | CREATE INDEX i ON users(email) is read as an index on a table called users(email), without a body |
| PrintedIndexes.GluedUnattached | merger/schema/schema.go:228-232 | The key of such an index is not the key of the table meant, so neither DROP TABLE nor RENAME TO reaches it |
| PrintedSequences.SequenceReread | merger/parser/parser.go:704-715 | A printed CREATE SEQUENCE is read as that sequence exactly when it is not called IF with a body that goes on with NOT EXISTS and a name |
| PrintedSequences.FlattenedFlat | merger/parser/parser.go:709-710 | The body as the parser makes it has one blank wherever there was white space, and none at its end, so it is such a body |
| Rereading.NoOtherName | merger/parser/parser.go:147-160 | Once IF NOT EXISTS is read before a table name, neither form of the pattern matches with IF for the name, so there is nothing to go back to |
| TableForms.AnyTableRead | merger/parser/parser.go:146-198 | CREATE TABLE with or without GLOBAL, LOCAL, TEMPORARY, TEMP and UNLOGGED, in any case and spacing, is read with its name, its flags and the items of its body |
| TableForms.ExistingTableRead | merger/parser/parser.go:146-198 | So it is with IF NOT EXISTS |
| TableForms.GluedOpen | merger/parser/parser.go:11 | A paren glued to the name ends the name |
| TableForms.PartitionRead | merger/parser/parser.go:147-156 | PARTITION OF keeps the statement as it stands |
| TableForms.PartitionBy | merger/parser/parser.go:181-187 | What stands behind PARTITION BY, in any case and before a semicolon, is the partition clause |
| TableForms.KeptText | merger/parser/parser.go:147-156 | A text that is kept loses the white space around it and one semicolon |
| TableForms.SequenceRead | merger/parser/parser.go:704-715 | CREATE SEQUENCE is read with its name and its options on one line, in any case and spacing |
| TableForms.ExistingSequenceRead | merger/parser/parser.go:704-715 | CREATE SEQUENCE IF NOT EXISTS is read with its name and its options on one line |
| Dispatch.TableDispatched | merger/parser/parser.go:44-57 | Each of the eight heads of CREATE TABLE, in any case, goes to its reader |
| Dispatch.IndexDispatched | merger/parser/parser.go:62-63 | CREATE INDEX and CREATE UNIQUE INDEX, in any case, go to theirs |
| Dispatch.TruncateDispatched | merger/parser/parser.go:139-140 | TRUNCATE goes to its reader, and is passed through when that finds no table |
| SecondReading.ScriptRereads | merger/parser/parser.go:43-144 | What every text of the script is read as, line by line |
| SecondReading.RereadRebuilds | merger/schema/schema.go:31-75 | Running that rebuilds the schema in script order, with every enum among the texts passed through |
| SecondMerge.EnumsMove | merger/emitter/emitter.go:25-187 | The second script has the enums behind everything but the texts passed through before |
| SecondMerge.PassRun | merger/schema/schema.go:710-753 | Texts passed through once pass again, and never fail, unless one is an ALTER whose object is there; then less is printed |
| SecondMerge.SecondExact | merger/emitter/emitter.go:25-187 | The second output is the first exactly when there is no enum or nothing for it to move behind, and no passed-through ALTER is caught |
| SecondMerge.MergeTwiceExact | merger/merger.go:18-55 | The same for the whole second merge: split, read, apply and print the output of a faithful run, failed or not |
| SecondMerge.EnumBehindTable | merger/merger.go:18-55 | Any enum and any table: the second merge prints a different file |
| SecondMerge.EarlyAlterMoves | merger/merger.go:18-55 | An ALTER FUNCTION that came before its CREATE: the second merge prints a different file |

## Left out

- Reading and writing files, the directory listing, the file order by name, flags and stderr warnings: plumbing
  without schema logic; `Merger.Run` starts from file contents in order.
- The recognition patterns of `Parse` for statements other than CREATE TABLE, CREATE TYPE, CREATE INDEX, CREATE SEQUENCE
  and TRUNCATE: the regular-expression engine is not part of this model, and such statements enter as syntax values.
  Patterns that are modelled are written out as scanning functions, with the alternatives they can fall back on.
- SecondMerge.MergeTwiceExact: verbatim texts are assumed to be read as what they were read from; tables are those that
  come back (`ColumnList.TableReadBackExact`), TRUNCATEs, indexes and sequences those that are read back
  (`TruncateNames.TruncateReadExact`, `PrintedIndexes.IndexReread`, `PrintedSequences.SequenceReread`).
- Sequences.LastWriterWins: is about bodies that list options as the program writes them, with quiet names; what the
  removal does to any other text is `QuietNames.RemovedExactly`.
- OptionReading.OptionsReadBack: RESTART is left aside, for a name may hold the word; it writes nothing.
- IdentityKinds.LastKindWins: a kind is ALWAYS, or BY and DEFAULT with white space between, as the parser takes it.
- SchemaState.Schema.Apply: the slices are sequence values, so sharing of backing arrays between slices is not
  modelled; the sharing of table objects is.
- Columns.ParseColumnDef: the search for a collation follows the leftmost match with backtracking written out by
  hand; white space is what the patterns call white space, without the vertical tab.
- ColumnReadBack.ColumnRoundTripExact: requires type and default to be free of the keywords the parser stops at, blanks
  included, and of COLLATE, NULL and DEFAULT, and the first inline constraint to begin with a keyword it splits at; the
  inline constraints come back as one text, and may hold any word.
- TruncateNames.TruncateReadExact: names are trimmed, without a comma, and without a star or semicolon at their end, as
  the reader leaves them.
- ColumnRename.RenameColumnBack: names are words of letters, digits and underscores; other names are the subject of
  `ColumnRename.ReplacesExactly` and `ColumnRename.QuotedKept`.
- Unicode case folding and white space beyond ASCII.
- The meaning of stored SQL texts such as function bodies, CHECK expressions and views.
- Ordering of tables by foreign keys, which the tool does not do.
- Text of error messages beyond operation and name.
