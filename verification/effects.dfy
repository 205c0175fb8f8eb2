/** What single statements do to the lists, said of the first object with the
    name: it is taken out or given its new contents in its place, new objects go
    to the end, and everything else stays. */
module Effects {
  import opened Text
  import opened Ast
  import opened Positions
  import opened Catalog
  import opened Indexed
  import opened Plain

  /** The list with x in place p. */
  function Put<T>(s: seq<T>, p: nat, x: T): seq<T>
    requires p < |s|
  {
    s[..p] + [x] + s[p + 1..]
  }

  /** The list without place p. */
  function Cut<T>(s: seq<T>, p: nat): seq<T>
    requires p < |s|
  {
    s[..p] + s[p + 1..]
  }

  lemma PutIs<T>(s: seq<T>, p: nat, x: T)
    requires p < |s|
    ensures s[p := x] == Put(s, p, x)
  {
  }

  lemma CutIs<T>(s: seq<T>, p: nat)
    requires p < |s|
    ensures RemoveAt(s, p) == Cut(s, p)
  {
  }

  /** The p-th key is the first k. */
  predicate First(keys: seq<string>, p: nat, k: string) {
    p < |keys| && keys[p] == k && forall j :: 0 <= j < p ==> keys[j] != k
  }

  lemma FirstFound(keys: seq<string>, p: nat, k: string)
    requires First(keys, p, k)
    ensures Find(keys, k) == p
  {
    FindFromLeast(keys, k, 0);
  }

  lemma NoneFound(keys: seq<string>, k: string)
    requires k !in keys
    ensures Find(keys, k) == -1
  {
    FindMember(keys, k);
  }

  predicate TableAt(d: Database, p: nat, name: string) {
    && p < |d.tables| && NormIdent(d.tables[p].name) == NormIdent(name)
    && forall j :: 0 <= j < p ==> NormIdent(d.tables[j].name) != NormIdent(name)
  }

  predicate NoTable(d: Database, name: string) {
    forall j :: 0 <= j < |d.tables| ==> NormIdent(d.tables[j].name) != NormIdent(name)
  }

  predicate IndexAt(d: Database, p: nat, name: string) {
    && p < |d.indexes| && NormIdent(d.indexes[p].name) == NormIdent(name)
    && forall j :: 0 <= j < p ==> NormIdent(d.indexes[j].name) != NormIdent(name)
  }

  predicate NoIndex(d: Database, name: string) {
    forall j :: 0 <= j < |d.indexes| ==> NormIdent(d.indexes[j].name) != NormIdent(name)
  }

  predicate SequenceAt(d: Database, p: nat, name: string) {
    && p < |d.sequences| && NormIdent(d.sequences[p].name) == NormIdent(name)
    && forall j :: 0 <= j < p ==> NormIdent(d.sequences[j].name) != NormIdent(name)
  }

  predicate NoSequence(d: Database, name: string) {
    forall j :: 0 <= j < |d.sequences| ==> NormIdent(d.sequences[j].name) != NormIdent(name)
  }

  predicate EnumAt(d: Database, p: nat, name: string) {
    && p < |d.types| && NormIdent(d.types[p].name) == NormIdent(name)
    && forall j :: 0 <= j < p ==> NormIdent(d.types[j].name) != NormIdent(name)
  }

  predicate NoEnum(d: Database, name: string) {
    forall j :: 0 <= j < |d.types| ==> NormIdent(d.types[j].name) != NormIdent(name)
  }

  /** The names of objects are compared without case and outer blanks; quotes count. */
  predicate SameObject(o: ObjectDef, kind: ObjectKind, name: string) {
    o.kind == kind && Lower(TrimSpace(o.name)) == Lower(TrimSpace(name))
  }

  predicate ObjectAt(d: Database, p: nat, kind: ObjectKind, name: string) {
    && p < |d.objects| && SameObject(d.objects[p], kind, name)
    && forall j :: 0 <= j < p ==> !SameObject(d.objects[j], kind, name)
  }

  predicate NoObject(d: Database, kind: ObjectKind, name: string) {
    forall j :: 0 <= j < |d.objects| ==> !SameObject(d.objects[j], kind, name)
  }

  lemma TableFound(d: Database, p: nat, name: string)
    requires TableAt(d, p, name)
    ensures Find(TableKeys(d.tables), NormIdent(name)) == p
  {
    hide NormIdent, FindFrom;
    FirstFound(TableKeys(d.tables), p, NormIdent(name));
  }

  lemma TableUnfound(d: Database, name: string)
    requires NoTable(d, name)
    ensures Find(TableKeys(d.tables), NormIdent(name)) == -1
  {
    hide NormIdent, FindFrom;
    NoneFound(TableKeys(d.tables), NormIdent(name));
  }

  lemma IndexFound(d: Database, p: nat, name: string)
    requires IndexAt(d, p, name)
    ensures Find(IndexKeys(d.indexes), NormIdent(name)) == p
  {
    hide NormIdent, FindFrom;
    FirstFound(IndexKeys(d.indexes), p, NormIdent(name));
  }

  lemma IndexUnfound(d: Database, name: string)
    requires NoIndex(d, name)
    ensures Find(IndexKeys(d.indexes), NormIdent(name)) == -1
  {
    hide NormIdent, FindFrom;
    NoneFound(IndexKeys(d.indexes), NormIdent(name));
  }

  lemma SequenceFound(d: Database, p: nat, name: string)
    requires SequenceAt(d, p, name)
    ensures Find(SequenceKeys(d.sequences), NormIdent(name)) == p
  {
    hide NormIdent, FindFrom;
    FirstFound(SequenceKeys(d.sequences), p, NormIdent(name));
  }

  lemma SequenceUnfound(d: Database, name: string)
    requires NoSequence(d, name)
    ensures Find(SequenceKeys(d.sequences), NormIdent(name)) == -1
  {
    hide NormIdent, FindFrom;
    NoneFound(SequenceKeys(d.sequences), NormIdent(name));
  }

  lemma EnumFound(d: Database, p: nat, name: string)
    requires EnumAt(d, p, name)
    ensures Find(TypeKeys(d.types), NormIdent(name)) == p
  {
    hide NormIdent, FindFrom;
    FirstFound(TypeKeys(d.types), p, NormIdent(name));
  }

  lemma EnumUnfound(d: Database, name: string)
    requires NoEnum(d, name)
    ensures Find(TypeKeys(d.types), NormIdent(name)) == -1
  {
    hide NormIdent, FindFrom;
    NoneFound(TypeKeys(d.types), NormIdent(name));
  }

  /** Two objects share a key exactly when they have one kind and one name. */
  lemma KeysMeet(o: ObjectDef, kind: ObjectKind, name: string)
    ensures ObjectKey(o.kind, o.name) == ObjectKey(kind, name) <==> SameObject(o, kind, name)
  {
    hide KindText, Lower, TrimSpace;
    var a, b := ObjectKey(o.kind, o.name), ObjectKey(kind, name);
    if a == b {
      KeyTellsKind(o.kind, o.name, kind, name);
      var n := |Lower(KindText(kind))|;
      assert a[n + 1..] == Lower(TrimSpace(o.name)) && b[n + 1..] == Lower(TrimSpace(name));
    }
  }

  lemma ObjectFound(d: Database, p: nat, kind: ObjectKind, name: string)
    requires ObjectAt(d, p, kind, name)
    ensures Find(ObjectKeys(d.objects), ObjectKey(kind, name)) == p
  {
    hide SameObject, ObjectKey, FindFrom;
    forall j | 0 <= j <= p ensures ObjectKeys(d.objects)[j] == ObjectKey(kind, name) <==> j == p {
      KeysMeet(d.objects[j], kind, name);
    }
    FirstFound(ObjectKeys(d.objects), p, ObjectKey(kind, name));
  }

  lemma ObjectThere(d: Database, p: nat, kind: ObjectKind, name: string)
    requires ObjectAt(d, p, kind, name)
    ensures p < |d.objects| && d.objects[p].kind == kind
  {
  }

  lemma ObjectUnfound(d: Database, kind: ObjectKind, name: string)
    requires NoObject(d, kind, name)
    ensures Find(ObjectKeys(d.objects), ObjectKey(kind, name)) == -1
  {
    hide SameObject, ObjectKey, FindFrom;
    forall j | 0 <= j < |d.objects| ensures ObjectKeys(d.objects)[j] != ObjectKey(kind, name) {
      KeysMeet(d.objects[j], kind, name);
    }
    NoneFound(ObjectKeys(d.objects), ObjectKey(kind, name));
  }

  // ---- Which function does what ----

  lemma TypeSteps(d: Database, name: string, ifExists: bool, a: TypeAction)
    ensures ApplyP(d, DropType(name, ifExists)) == DropTypeP(d, name, ifExists)
    ensures ApplyP(d, AlterType(name, a)) == AlterTypeP(d, name, a)
  {
    hide DropTypeP, AlterTypeP;
  }

  lemma IndexSteps(d: Database, name: string, ifExists: bool, newName: string)
    ensures ApplyP(d, DropIndex(name, ifExists)) == DropIndexP(d, name, ifExists)
    ensures ApplyP(d, AlterIndex(name, newName)) == AlterIndexP(d, name, newName)
  {
    hide DropIndexP, AlterIndexP;
  }

  lemma SequenceSteps(d: Database, name: string, ifExists: bool, newName: string, opts: seq<SeqOption>)
    ensures ApplyP(d, DropSequence(name, ifExists)) == DropSequenceP(d, name, ifExists)
    ensures ApplyP(d, AlterSequence(name, newName)) == AlterSequenceP(d, name, newName)
    ensures ApplyP(d, AlterSequenceOpts(name, opts)) == AlterSequenceOptsP(d, name, opts)
  {
    hide DropSequenceP, AlterSequenceP, AlterSequenceOptsP;
  }

  lemma ObjectSteps(d: Database, kind: ObjectKind, name: string, sql: string, ifExists: bool)
    ensures ApplyP(d, CreateObject(kind, name, ifExists, sql)) == CreateObjectP(d, kind, name, ifExists, sql)
    ensures ApplyP(d, DropObject(kind, name, ifExists)) == DropObjectP(d, kind, name, ifExists)
    ensures ApplyP(d, AlterObject(kind, name, sql)) == AlterObjectP(d, kind, name, sql)
    ensures ApplyP(d, AlterFunctionOpts(kind, name, sql)) == AttachP(d, kind, name, sql)
    ensures ApplyP(d, AlterObjectOpts(kind, name, sql))
            == if Untracked(kind, sql) then Ran(d, Done) else AttachP(d, kind, name, sql)
  {
    hide CreateObjectP, DropObjectP, AlterObjectP, AttachP, Untracked;
  }

  // ---- Indexes ----

  /** A new index goes to the end. */
  lemma IndexCreated(d: Database, x: IndexDef)
    requires NoIndex(d, x.name)
    ensures ApplyP(d, CreateIndex(x.name, x.tableName, x.unique, x.concurrently, x.ifNotExists, x.body))
            == Ran(d.(indexes := d.indexes + [x]), Done)
  {
    hide Put, Cut, RemoveAt, NormIdent, FindFrom, NoIndex;
    IndexUnfound(d, x.name);
  }

  /** An index whose name is taken stands in its place, unless IF NOT EXISTS was
      written: then nothing changes. */
  lemma IndexReplaced(d: Database, p: nat, x: IndexDef)
    requires IndexAt(d, p, x.name)
    ensures ApplyP(d, CreateIndex(x.name, x.tableName, x.unique, x.concurrently, x.ifNotExists, x.body))
            == Ran(if x.ifNotExists then d else d.(indexes := Put(d.indexes, p, x)), Done)
  {
    PutIs(d.indexes, p, x);
    hide Put, Cut, RemoveAt, NormIdent, FindFrom, IndexAt;
    IndexFound(d, p, x.name);
  }

  lemma IndexDropped(d: Database, p: nat, name: string, ifExists: bool)
    requires IndexAt(d, p, name)
    ensures ApplyP(d, DropIndex(name, ifExists)) == Ran(d.(indexes := Cut(d.indexes, p)), Done)
  {
    IndexSteps(d, name, ifExists, "");
    CutIs(d.indexes, p);
    hide ApplyP, Cut, RemoveAt, NormIdent, FindFrom, IndexAt;
    IndexFound(d, p, name);
  }

  /** ALTER INDEX changes one name. */
  lemma IndexRenamed(d: Database, p: nat, name: string, newName: string)
    requires IndexAt(d, p, name)
    ensures var x := d.indexes[p];
            var y := IndexDef(newName, x.tableName, x.unique, x.concurrently, x.ifNotExists, x.body);
            ApplyP(d, AlterIndex(name, newName)) == Ran(d.(indexes := Put(d.indexes, p, y)), Done)
  {
    IndexSteps(d, name, false, newName);
    PutIs(d.indexes, p, d.indexes[p].(name := newName));
    hide ApplyP, Put, NormIdent, FindFrom, IndexAt;
    IndexFound(d, p, name);
  }

  lemma IndexMissing(d: Database, name: string, newName: string)
    requires NoIndex(d, name)
    ensures ApplyP(d, DropIndex(name, true)) == Ran(d, Done)
    ensures ApplyP(d, DropIndex(name, false)) == Ran(d, Failed(NotFound("DROP INDEX", name)))
    ensures ApplyP(d, AlterIndex(name, newName)) == Ran(d, Failed(NotFound("ALTER INDEX", name)))
  {
    hide ApplyP, Put, Cut, RemoveAt, NormIdent, FindFrom, NoIndex;
    IndexSteps(d, name, true, newName);
    IndexSteps(d, name, false, newName);
    IndexUnfound(d, name);
  }

  // ---- Sequences ----

  lemma SequenceCreated(d: Database, p: nat, name: string, body: string)
    ensures NoSequence(d, name) ==>
              ApplyP(d, CreateSequence(name, body)) == Ran(d.(sequences := d.sequences + [SequenceDef(name, body)]), Done)
    ensures SequenceAt(d, p, name) ==>
              ApplyP(d, CreateSequence(name, body)) == Ran(d, Failed(AlreadyExists("CREATE SEQUENCE", name)))
  {
    hide Put, Cut, RemoveAt, NormIdent, FindFrom, NoSequence, SequenceAt;
    if NoSequence(d, name) { SequenceUnfound(d, name); }
    if SequenceAt(d, p, name) { SequenceFound(d, p, name); }
  }

  lemma SequenceDropped(d: Database, p: nat, name: string, ifExists: bool)
    requires SequenceAt(d, p, name)
    ensures ApplyP(d, DropSequence(name, ifExists)) == Ran(d.(sequences := Cut(d.sequences, p)), Done)
  {
    SequenceSteps(d, name, ifExists, "", []);
    CutIs(d.sequences, p);
    hide ApplyP, Cut, RemoveAt, NormIdent, FindFrom, SequenceAt;
    SequenceFound(d, p, name);
  }

  lemma SequenceRenamed(d: Database, p: nat, name: string, newName: string)
    requires SequenceAt(d, p, name)
    ensures ApplyP(d, AlterSequence(name, newName))
            == Ran(d.(sequences := Put(d.sequences, p, SequenceDef(newName, d.sequences[p].body))), Done)
  {
    SequenceSteps(d, name, false, newName, []);
    PutIs(d.sequences, p, SequenceDef(newName, d.sequences[p].body));
    hide ApplyP, Put, NormIdent, FindFrom, SequenceAt;
    SequenceFound(d, p, name);
  }

  /** Options change one body; what they write is the subject of Sequences. */
  lemma SequenceWritten(d: Database, p: nat, name: string, opts: seq<SeqOption>)
    requires SequenceAt(d, p, name)
    ensures ApplyP(d, AlterSequenceOpts(name, opts))
            == Ran(d.(sequences := Put(d.sequences, p,
                 SequenceDef(d.sequences[p].name, ApplyOptions(d.sequences[p].body, opts)))), Done)
  {
    SequenceSteps(d, name, false, "", opts);
    PutIs(d.sequences, p, SequenceDef(d.sequences[p].name, ApplyOptions(d.sequences[p].body, opts)));
    hide ApplyP, Put, NormIdent, FindFrom, SequenceAt, ApplyOptions;
    SequenceFound(d, p, name);
  }

  lemma SequenceMissing(d: Database, name: string, newName: string, opts: seq<SeqOption>)
    requires NoSequence(d, name)
    ensures ApplyP(d, DropSequence(name, true)) == Ran(d, Done)
    ensures ApplyP(d, DropSequence(name, false)) == Ran(d, Failed(NotFound("DROP SEQUENCE", name)))
    ensures ApplyP(d, AlterSequence(name, newName)) == Ran(d, Failed(NotFound("ALTER SEQUENCE", name)))
    ensures ApplyP(d, AlterSequenceOpts(name, opts)) == Ran(d, Failed(NotFound("ALTER SEQUENCE", name)))
  {
    hide ApplyP, Put, Cut, RemoveAt, NormIdent, FindFrom, NoSequence, ApplyOptions;
    SequenceSteps(d, name, true, newName, opts);
    SequenceSteps(d, name, false, newName, opts);
    SequenceUnfound(d, name);
  }

  // ---- Types ----

  lemma EnumCreated(d: Database, p: nat, name: string, labels: seq<string>)
    ensures NoEnum(d, name) ==>
              ApplyP(d, CreateType(name, labels)) == Ran(d.(types := d.types + [EnumDef(name, labels)]), Done)
    ensures EnumAt(d, p, name) ==>
              ApplyP(d, CreateType(name, labels)) == Ran(d, Failed(AlreadyExists("CREATE TYPE", name)))
  {
    hide Put, Cut, RemoveAt, NormIdent, FindFrom, NoEnum, EnumAt;
    if NoEnum(d, name) { EnumUnfound(d, name); }
    if EnumAt(d, p, name) { EnumFound(d, p, name); }
  }

  /** An enum is dropped, or renamed in its place, whatever composite types there are. */
  lemma EnumDropped(d: Database, p: nat, name: string, ifExists: bool)
    requires EnumAt(d, p, name)
    ensures ApplyP(d, DropType(name, ifExists)) == Ran(d.(types := Cut(d.types, p)), Done)
  {
    TypeSteps(d, name, ifExists, RenameType(""));
    CutIs(d.types, p);
    hide ApplyP, Cut, RemoveAt, NormIdent, FindFrom, EnumAt, ObjectKey;
    EnumFound(d, p, name);
  }

  lemma EnumRenamed(d: Database, p: nat, name: string, newName: string)
    requires EnumAt(d, p, name)
    ensures ApplyP(d, AlterType(name, RenameType(newName)))
            == Ran(d.(types := Put(d.types, p, EnumDef(newName, d.types[p].labels))), Done)
  {
    TypeSteps(d, name, false, RenameType(newName));
    PutIs(d.types, p, EnumDef(newName, d.types[p].labels));
    hide ApplyP, Put, NormIdent, FindFrom, EnumAt, ObjectKey;
    EnumFound(d, p, name);
  }

  /** RENAME VALUE puts the new label in the place of the first old one. */
  lemma LabelRenamed(d: Database, p: nat, name: string, i: nat, value: string, newValue: string)
    requires EnumAt(d, p, name) && First(d.types[p].labels, i, value)
    ensures var e := d.types[p];
            ApplyP(d, AlterType(name, RenameValue(value, newValue)))
            == Ran(d.(types := Put(d.types, p, EnumDef(e.name, Put(e.labels, i, newValue)))), Done)
  {
    hide ApplyP, Put, NormIdent, FindFrom, EnumAt, ObjectKey, First;
    EnumThere(d, p, name);
    TypeSteps(d, name, false, RenameValue(value, newValue));
    EnumFound(d, p, name);
    var e := d.types[p];
    LabelPut(e.labels, i, value, newValue);
    PutIs(d.types, p, EnumDef(e.name, Put(e.labels, i, newValue)));
  }

  lemma EnumThere(d: Database, p: nat, name: string)
    requires EnumAt(d, p, name)
    ensures p < |d.types|
  {
  }

  lemma LabelPut(labels: seq<string>, i: nat, value: string, newValue: string)
    requires First(labels, i, value)
    ensures i < |labels| && RenameLabel(labels, value, newValue) == Changed(Put(labels, i, newValue))
  {
    FirstFound(labels, i, value);
    PutIs(labels, i, newValue);
  }

  lemma LabelMissing(d: Database, p: nat, name: string, value: string, newValue: string)
    requires EnumAt(d, p, name) && value !in d.types[p].labels
    ensures ApplyP(d, AlterType(name, RenameValue(value, newValue))) == Ran(d, Failed(NotFound("RENAME VALUE", value)))
  {
    hide ApplyP, NormIdent, FindFrom, EnumAt, ObjectKey;
    EnumThere(d, p, name);
    TypeSteps(d, name, false, RenameValue(value, newValue));
    EnumFound(d, p, name);
    FindMember(d.types[p].labels, value);
  }

  /** Without an enum of the name, DROP TYPE takes the composite type out. */
  lemma CompositeDropped(d: Database, p: nat, name: string, ifExists: bool)
    requires NoEnum(d, name) && ObjectAt(d, p, TypeKind, name)
    ensures ApplyP(d, DropType(name, ifExists)) == Ran(d.(objects := Cut(d.objects, p)), Done)
  {
    hide ApplyP, ObjectAt, Cut, RemoveAt, NormIdent, FindFrom, NoEnum, ObjectKey;
    TypeSteps(d, name, ifExists, RenameType(""));
    ObjectThere(d, p, TypeKind, name);
    CutIs(d.objects, p);
    EnumUnfound(d, name);
    ObjectFound(d, p, TypeKind, name);
  }

  /** RENAME TO renames it and rewrites its text, the subject of RenamedTypes. */
  lemma CompositeRenamed(d: Database, p: nat, name: string, newName: string)
    requires NoEnum(d, name) && ObjectAt(d, p, TypeKind, name)
    ensures var o := d.objects[p];
            var o' := ObjectDef(TypeKind, NormIdent(newName), Patterns.ReplaceTypeName(o.sql, name, newName), o.postAlters);
            ApplyP(d, AlterType(name, RenameType(newName))) == Ran(d.(objects := Put(d.objects, p, o')), Done)
  {
    hide ApplyP, ObjectAt, Put, NormIdent, FindFrom, NoEnum, ObjectKey, Patterns.ReplaceTypeName;
    TypeSteps(d, name, false, RenameType(newName));
    ObjectThere(d, p, TypeKind, name);
    var o := d.objects[p];
    PutIs(d.objects, p,
      ObjectDef(TypeKind, NormIdent(newName), Patterns.ReplaceTypeName(o.sql, name, newName), o.postAlters));
    EnumUnfound(d, name);
    ObjectFound(d, p, TypeKind, name);
  }

  /** With neither, all of it fails, except DROP TYPE IF EXISTS. */
  lemma TypeMissing(d: Database, name: string, a: TypeAction)
    requires NoEnum(d, name) && NoObject(d, TypeKind, name)
    ensures ApplyP(d, DropType(name, true)) == Ran(d, Done)
    ensures ApplyP(d, DropType(name, false)) == Ran(d, Failed(NotFound("DROP TYPE", name)))
    ensures ApplyP(d, AlterType(name, a)) == Ran(d, Failed(NotFound("ALTER TYPE", name)))
  {
    hide ApplyP, Put, Cut, RemoveAt, NormIdent, FindFrom, NoEnum, NoObject, ObjectKey, LabelAction;
    TypeSteps(d, name, true, a);
    TypeSteps(d, name, false, a);
    EnumUnfound(d, name);
    ObjectUnfound(d, TypeKind, name);
  }

  /** Labels are for enums only. */
  lemma CompositeHasNoLabels(d: Database, name: string, a: TypeAction)
    requires NoEnum(d, name) && !a.RenameType?
    ensures ApplyP(d, AlterType(name, a)) == Ran(d, Failed(NotFound("ALTER TYPE", name)))
  {
    hide ApplyP, Put, Cut, RemoveAt, NormIdent, FindFrom, NoEnum, ObjectKey, LabelAction;
    TypeSteps(d, name, false, a);
    EnumUnfound(d, name);
  }

  // ---- Generic objects ----

  lemma ObjectCreated(d: Database, kind: ObjectKind, name: string, orReplace: bool, sql: string)
    requires NoObject(d, kind, name)
    ensures ApplyP(d, CreateObject(kind, name, orReplace, sql))
            == Ran(d.(objects := d.objects + [ObjectDef(kind, name, sql, [])]), Done)
  {
    hide ApplyP, Put, Cut, RemoveAt, FindFrom, NoObject, ObjectKey;
    ObjectSteps(d, kind, name, sql, orReplace);
    ObjectUnfound(d, kind, name);
  }

  /** OR REPLACE gives an object its new text and forgets its ALTERs; its name
      and place stay. Without it the object is refused. */
  lemma ObjectReplaced(d: Database, p: nat, kind: ObjectKind, name: string, sql: string)
    requires ObjectAt(d, p, kind, name)
    ensures ApplyP(d, CreateObject(kind, name, true, sql))
            == Ran(d.(objects := Put(d.objects, p, ObjectDef(kind, d.objects[p].name, sql, []))), Done)
    ensures ApplyP(d, CreateObject(kind, name, false, sql))
            == Ran(d, Failed(AlreadyExists("CREATE " + KindText(kind), name)))
  {
    hide ApplyP, ObjectAt, Put, Cut, RemoveAt, FindFrom, ObjectKey, KindText;
    ObjectSteps(d, kind, name, sql, true);
    ObjectSteps(d, kind, name, sql, false);
    ObjectThere(d, p, kind, name);
    var o := ObjectDef(kind, d.objects[p].name, sql, []);
    ObjectFound(d, p, kind, name);
    PutIs(d.objects, p, o);
  }

  lemma ObjectDropped(d: Database, p: nat, kind: ObjectKind, name: string, ifExists: bool)
    requires ObjectAt(d, p, kind, name)
    ensures ApplyP(d, DropObject(kind, name, ifExists)) == Ran(d.(objects := Cut(d.objects, p)), Done)
  {
    hide ApplyP, ObjectAt, Cut, RemoveAt, FindFrom, ObjectKey, KindText;
    ObjectSteps(d, kind, name, "", ifExists);
    ObjectThere(d, p, kind, name);
    CutIs(d.objects, p);
    ObjectFound(d, p, kind, name);
  }

  /** RENAME TO changes the name and not the text. */
  lemma ObjectRenamed(d: Database, p: nat, kind: ObjectKind, name: string, newName: string)
    requires ObjectAt(d, p, kind, name)
    ensures var o := d.objects[p];
            ApplyP(d, AlterObject(kind, name, newName))
            == Ran(d.(objects := Put(d.objects, p, ObjectDef(kind, newName, o.sql, o.postAlters))), Done)
  {
    hide ApplyP, ObjectAt, Put, FindFrom, ObjectKey, KindText;
    ObjectSteps(d, kind, name, newName, false);
    ObjectThere(d, p, kind, name);
    PutIs(d.objects, p, ObjectDef(kind, newName, d.objects[p].sql, d.objects[p].postAlters));
    ObjectFound(d, p, kind, name);
  }

  lemma ObjectMissing(d: Database, kind: ObjectKind, name: string, newName: string)
    requires NoObject(d, kind, name)
    ensures ApplyP(d, DropObject(kind, name, true)) == Ran(d, Done)
    ensures ApplyP(d, DropObject(kind, name, false)) == Ran(d, Failed(NotFound("DROP " + KindText(kind), name)))
    ensures ApplyP(d, AlterObject(kind, name, newName)) == Ran(d, Failed(NotFound("ALTER " + KindText(kind), name)))
  {
    hide ApplyP, Put, Cut, RemoveAt, FindFrom, NoObject, ObjectKey, KindText;
    ObjectSteps(d, kind, name, newName, true);
    ObjectSteps(d, kind, name, newName, false);
    ObjectUnfound(d, kind, name);
  }

  /** Another ALTER text goes behind those of its object, or is passed through. */
  lemma TextAttached(d: Database, p: nat, kind: ObjectKind, name: string, sql: string)
    ensures ObjectAt(d, p, kind, name) ==>
              var o := d.objects[p];
              ApplyP(d, AlterFunctionOpts(kind, name, sql))
              == Ran(d.(objects := Put(d.objects, p, ObjectDef(kind, o.name, o.sql, o.postAlters + [sql]))), Done)
    ensures NoObject(d, kind, name) ==>
              ApplyP(d, AlterFunctionOpts(kind, name, sql)) == Ran(d.(unknowns := d.unknowns + [sql]), Done)
    ensures ApplyP(d, AlterObjectOpts(kind, name, sql))
            == if Untracked(kind, sql) then Ran(d, Done) else ApplyP(d, AlterFunctionOpts(kind, name, sql))
  {
    hide ApplyP, Put, Cut, RemoveAt, FindFrom, ObjectKey, TrimSpace, Lower, NoObject, Untracked;
    ObjectSteps(d, kind, name, sql, false);
    if ObjectAt(d, p, kind, name) {
      var o := ObjectDef(kind, d.objects[p].name, d.objects[p].sql, d.objects[p].postAlters + [sql]);
      ObjectFound(d, p, kind, name);
      PutIs(d.objects, p, o);
    }
    if NoObject(d, kind, name) { ObjectUnfound(d, kind, name); }
  }

  /** Only texts of domains and views go untracked. */
  lemma OthersTracked(d: Database, kind: ObjectKind, name: string, sql: string)
    requires !kind.Domain? && !kind.View?
    ensures ApplyP(d, AlterObjectOpts(kind, name, sql)) == ApplyP(d, AlterFunctionOpts(kind, name, sql))
  {
    hide ApplyP, AttachP;
    ObjectSteps(d, kind, name, sql, false);
  }

  // ---- Tables ----

  lemma TableCreated(d: Database, p: nat, t: TableDef)
    ensures var s := CreateTable(t.name, t.temporary, t.unlogged, t.columns, t.constraints, t.partitionBy);
            && (NoTable(d, t.name) ==> ApplyP(d, s) == Ran(d.(tables := d.tables + [t]), Done))
            && (TableAt(d, p, t.name) ==> ApplyP(d, s) == Ran(d, Failed(AlreadyExists("CREATE TABLE", t.name))))
  {
    hide Put, Cut, RemoveAt, NormIdent, FindFrom, NoTable, TableAt;
    if NoTable(d, t.name) { TableUnfound(d, t.name); }
    if TableAt(d, p, t.name) { TableFound(d, p, t.name); }
  }

  /** The indexes of other tables, in their order. */
  function Others(xs: seq<IndexDef>, table: string): (r: seq<IndexDef>)
    ensures forall x :: x in r <==> x in xs && NormIdent(x.tableName) != NormIdent(table)
  {
    if xs == [] then []
    else
      var n := |xs| - 1;
      Others(xs[..n], table) + if NormIdent(xs[n].tableName) == NormIdent(table) then [] else [xs[n]]
  }

  lemma OthersSnoc(xs: seq<IndexDef>, x: IndexDef, table: string)
    ensures Others(xs + [x], table) == Others(xs, table) + if NormIdent(x.tableName) == NormIdent(table) then [] else [x]
  {
    hide NormIdent;
    assert (xs + [x])[..|xs|] == xs;
  }

  lemma {:induction false} OthersCons(x: IndexDef, xs: seq<IndexDef>, table: string)
    ensures Others([x] + xs, table) == (if NormIdent(x.tableName) == NormIdent(table) then [] else [x]) + Others(xs, table)
    decreases |xs|
  {
    hide NormIdent, Others;
    if xs == [] {
      OthersSnoc([], x, table);
      NoOthers(table);
      assert [x] + xs == [] + [x];
    } else {
      var n := |xs| - 1;
      assert [x] + xs == ([x] + xs[..n]) + [xs[n]] && xs == xs[..n] + [xs[n]];
      OthersSnoc([x] + xs[..n], xs[n], table);
      OthersSnoc(xs[..n], xs[n], table);
      OthersCons(x, xs[..n], table);
    }
  }

  lemma NoOthers(table: string)
    ensures Others([], table) == []
  {
  }

  lemma {:induction false} OthersKept(xs: seq<IndexDef>, table: string)
    ensures WithoutTable(xs, NormIdent(table)) == Others(xs, table)
  {
    hide NormIdent, Others;
    NoOthers(table);
    if xs != [] {
      OthersCons(xs[0], xs[1..], table);
      OthersKept(xs[1..], table);
      assert [xs[0]] + xs[1..] == xs;
    }
  }

  /** DROP TABLE takes out the table and its indexes. */
  lemma TableDropped(d: Database, p: nat, name: string, ifExists: bool)
    requires TableAt(d, p, name)
    ensures ApplyP(d, DropTable([name], ifExists))
            == Ran(d.(tables := Cut(d.tables, p), indexes := Others(d.indexes, name)), Done)
  {
    OthersKept(d.indexes, name);
    DropsSingle(d, name, ifExists);
    CutIs(d.tables, p);
    hide Put, Cut, RemoveAt, NormIdent, FindFrom, TableAt, ObjectKey, WithoutTable, Others, DropTablesP;
    TableFound(d, p, name);
  }

  lemma DropsSingle(d: Database, name: string, ifExists: bool)
    ensures DropTablesP(d, [name], ifExists) == DropOneP(d, name, ifExists)
  {
    hide DropOneP;
    var r := DropOneP(d, name, ifExists);
    assert [name][1..] == [];
    assert DropTablesP(r.state, [], ifExists) == Ran(r.state, Done);
  }

  /** DROP TABLE of a partition takes out that object, when no table has the name. */
  lemma PartitionDropped(d: Database, p: nat, name: string, ifExists: bool)
    requires NoTable(d, name) && ObjectAt(d, p, Partition, name)
    ensures ApplyP(d, DropTable([name], ifExists)) == Ran(d.(objects := Cut(d.objects, p)), Done)
  {
    hide ObjectAt, Put, Cut, RemoveAt, NormIdent, FindFrom, NoTable, ObjectKey, DropTablesP, WithoutTable;
    ObjectThere(d, p, Partition, name);
    DropsSingle(d, name, ifExists);
    CutIs(d.objects, p);
    TableUnfound(d, name);
    ObjectFound(d, p, Partition, name);
  }

  lemma TableMissing(d: Database, name: string, actions: seq<Action>)
    requires NoTable(d, name)
    ensures ApplyP(d, AlterTable(name, actions)) == Ran(d, Failed(NotFound("ALTER TABLE", name)))
    ensures NoObject(d, Partition, name) ==>
              && ApplyP(d, DropTable([name], true)) == Ran(d, Done)
              && ApplyP(d, DropTable([name], false)) == Ran(d, Failed(NotFound("DROP TABLE", name)))
  {
    hide Put, Cut, RemoveAt, NormIdent, FindFrom, NoTable, NoObject, ObjectKey, DropTablesP, WithoutTable, ActionsP;
    DropsSingle(d, name, true);
    DropsSingle(d, name, false);
    TableUnfound(d, name);
    if NoObject(d, Partition, name) { ObjectUnfound(d, Partition, name); }
  }

  /** Several names are dropped one after the other; the first failure ends it. */
  lemma TablesDropped(d: Database, names: seq<string>, name: string, ifExists: bool)
    ensures var r := ApplyP(d, DropTable([name], ifExists));
            ApplyP(d, DropTable([name] + names, ifExists))
            == if r.outcome.Done? then ApplyP(r.state, DropTable(names, ifExists)) else r
  {
    hide DropOneP;
    DropsSingle(d, name, ifExists);
    assert ([name] + names)[1..] == names;
  }

  /** One action of ALTER TABLE replaces the table by what the action makes of it. */
  lemma TableAltered(d: Database, p: nat, name: string, a: Action)
    requires TableAt(d, p, name) && !a.RenameTo?
    ensures match TableAction(d.tables[p], a)
            case Refused(e) => ApplyP(d, AlterTable(name, [a])) == Ran(d, Failed(e))
            case Changed(t) =>
              ApplyP(d, AlterTable(name, [a])) == Ran(d.(tables := Put(d.tables, p, t)), Done)
  {
    hide Put, Cut, RemoveAt, NormIdent, FindFrom, TableAt, TableAction;
    TableFound(d, p, name);
    OneAction(d, p, NormIdent(name), a);
    match TableAction(d.tables[p], a)
    case Refused(_) =>
    case Changed(t) => PutIs(d.tables, p, t);
  }

  lemma OneAction(d: Database, p: nat, key: string, a: Action)
    requires p < |d.tables| && !a.RenameTo?
    ensures ActionsP(d, p, key, [a])
            == match TableAction(d.tables[p], a)
               case Refused(e) => Ran(d, Failed(e))
               case Changed(t) => Ran(d.(tables := d.tables[p := t]), Done)
  {
    hide TableAction;
    assert [a][1..] == [];
    match TableAction(d.tables[p], a)
    case Refused(_) =>
    case Changed(t) =>
      assert ActionsP(d.(tables := d.tables[p := t]), p, key, []) == Ran(d.(tables := d.tables[p := t]), Done);
  }

  /** Several actions that do not rename the table are several statements. */
  lemma ActionsSplit(d: Database, p: nat, name: string, a: Action, actions: seq<Action>)
    requires TableAt(d, p, name) && !a.RenameTo?
    ensures var r := ApplyP(d, AlterTable(name, [a]));
            ApplyP(d, AlterTable(name, [a] + actions))
            == if r.outcome.Done? then ApplyP(r.state, AlterTable(name, actions)) else r
  {
    hide Put, Cut, RemoveAt, NormIdent, FindFrom, TableAt, TableAction;
    TableFound(d, p, name);
    OneAction(d, p, NormIdent(name), a);
    TableAltered(d, p, name, a);
    assert ([a] + actions)[1..] == actions;
    match TableAction(d.tables[p], a)
    case Refused(_) =>
    case Changed(t) =>
      ActionKeepsName(d.tables[p], a);
      KeptAt(d, p, name, t);
      TableFound(d.(tables := d.tables[p := t]), p, name);
  }

  lemma KeptAt(d: Database, p: nat, name: string, t: TableDef)
    requires TableAt(d, p, name) && t.name == d.tables[p].name
    ensures TableAt(d.(tables := d.tables[p := t]), p, name)
  {
    hide NormIdent;
  }

  lemma ActionKeepsName(t: TableDef, a: Action)
    requires !a.RenameTo?
    ensures TableAction(t, a).Changed? ==> TableAction(t, a).value.name == t.name
  {
    hide NormIdent, FindFrom, SetIdentity, ReplaceOrAppendInline, RemoveInline, FindInline, DropAutoNamed,
      RenameInConstraints;
  }

  /** RENAME TO gives the table its new name, and every index of it names it so. */
  lemma TableMoved(d: Database, p: nat, name: string, newName: string)
    requires TableAt(d, p, name)
    ensures exists r: TableDef, xs: seq<IndexDef> ::
              && TableAction(d.tables[p], RenameTo(newName)) == Changed(r)
              && ApplyP(d, AlterTable(name, [RenameTo(newName)]))
                 == Ran(d.(tables := Put(d.tables, p, r), indexes := xs), Done)
              && |xs| == |d.indexes|
              && forall j :: 0 <= j < |xs| ==>
                   var x := d.indexes[j];
                   xs[j] == if NormIdent(x.tableName) != NormIdent(name) then x
                            else IndexDef(x.name, newName, x.unique, x.concurrently, x.ifNotExists, x.body)
  {
    var r := RenameTable(d.tables[p], newName);
    var xs := MoveIndexes(d.indexes, NormIdent(name), newName);
    PutIs(d.tables, p, r);
    OneRename(d, p, NormIdent(name), newName);
    Moved(d.indexes, name, newName);
    hide Put, NormIdent, FindFrom, TableAt, RenameTable, MoveIndexes, ActionsP;
    TableFound(d, p, name);
    assert ApplyP(d, AlterTable(name, [RenameTo(newName)])) == Ran(d.(tables := Put(d.tables, p, r), indexes := xs), Done);
  }

  lemma Moved(xs: seq<IndexDef>, name: string, newName: string)
    ensures var r := MoveIndexes(xs, NormIdent(name), newName);
            && |r| == |xs|
            && forall j :: 0 <= j < |r| ==>
                 var x := xs[j];
                 r[j] == if NormIdent(x.tableName) != NormIdent(name) then x
                         else IndexDef(x.name, newName, x.unique, x.concurrently, x.ifNotExists, x.body)
  {
    hide NormIdent;
  }

  lemma OneRename(d: Database, p: nat, key: string, newName: string)
    requires p < |d.tables|
    ensures ActionsP(d, p, key, [RenameTo(newName)])
            == Ran(d.(tables := d.tables[p := RenameTable(d.tables[p], newName)],
                      indexes := MoveIndexes(d.indexes, key, newName)), Done)
  {
    hide RenameTable, MoveIndexes;
    var d' := RenameTableP(d, p, key, newName);
    assert [RenameTo(newName)][1..] == [];
    assert ActionsP(d', p, key, []) == Ran(d', Done);
  }

  /** Whatever is not understood is kept, in order. */
  lemma RawKept(d: Database, raw: string)
    ensures ApplyP(d, Unknown(raw)) == Ran(d.(unknowns := d.unknowns + [raw]), Done)
  {
  }
}
