/** Merge soundness over runs: what a run must satisfy for its merged script to
    rebuild the schema, and that this is exactly when it does. */
module Soundness {
  import opened Text
  import opened Ast
  import opened Positions
  import opened Catalog
  import opened Indexed
  import opened Plain
  import opened Refinement
  import opened Script
  import opened Replay

  // ---- What the parser guarantees ----

  predicate Canonical(name: string) { Lower(TrimSpace(name)) == name }

  /** The names a reader finds in CREATE texts are normalised. */
  ghost predicate CanonicalReader(rd: Reader) {
    forall kind, sql :: Canonical(rd.created(kind, sql))
  }

  /** The parser fills names from the text, and attaches ALTER texts only to the
      kinds it knows. */
  predicate WellRead(rd: Reader, s: Statement) {
    match s
    case CreateObject(kind, name, _, sql) => name == rd.created(kind, sql)
    case AlterFunctionOpts(kind, name, sql) =>
      (kind.Function? || kind.Procedure?) && name == rd.altered(kind, sql)
    case AlterObjectOpts(kind, name, sql) => PrintsAlters(Section(kind)) && name == rd.altered(kind, sql)
    case _ => true
  }

  /** A rename of a generic object leaves its texts saying the new name. */
  predicate TextFollows(d: Database, s: Statement, rd: Reader) {
    match s
    case AlterObject(kind, oldName, newName) =>
      var p := Find(ObjectKeys(d.objects), ObjectKey(kind, oldName));
      p >= 0 ==> Readable(d.objects[p].(name := newName), rd)
    case AlterType(name, RenameType(newName)) =>
      var p := Find(ObjectKeys(d.objects), ObjectKey(TypeKind, name));
      Find(TypeKeys(d.types), NormIdent(name)) < 0 && p >= 0 ==>
        Readable(RenamedType(d.objects[p], name, newName), rd)
    case _ => true
  }

  lemma CanonicalKeys(kind: ObjectKind, a: string, b: string)
    requires Canonical(a) && Canonical(b) && ObjectKey(kind, a) == ObjectKey(kind, b)
    ensures a == b
  {
    var n := |Lower(KindText(kind))| + 1;
    assert ObjectKey(kind, a)[n..] == Lower(TrimSpace(a));
    assert ObjectKey(kind, b)[n..] == Lower(TrimSpace(b));
  }

  // ---- One statement ----

  /** The position maps that go with lists whose keys are distinct. */
  function MapsOf(d: Database): Maps {
    Maps(Reindex(TableKeys(d.tables), map[], 0), Reindex(SequenceKeys(d.sequences), map[], 0),
         Reindex(TypeKeys(d.types), map[], 0), Reindex(IndexKeys(d.indexes), map[], 0),
         Reindex(ObjectKeys(d.objects), map[], 0), Reindex(TruncateKeys(d.truncates), map[], 0))
  }

  lemma MapsConsistent(d: Database)
    requires KeysDistinct(d)
    ensures Consistent(Schema(d, MapsOf(d)))
  {
    InverseRebuild(TableKeys(d.tables));
    InverseRebuild(SequenceKeys(d.sequences));
    InverseRebuild(TypeKeys(d.types));
    InverseRebuild(IndexKeys(d.indexes));
    InverseRebuild(ObjectKeys(d.objects));
    InverseRebuild(TruncateKeys(d.truncates));
    hide Distinct, Inverse, Reindex;
  }

  lemma ConsistentDistinct(x: Schema)
    requires Consistent(x)
    ensures KeysDistinct(x.db)
  {
    InverseDistinct(TableKeys(x.db.tables), x.at.tables);
    InverseDistinct(SequenceKeys(x.db.sequences), x.at.sequences);
    InverseDistinct(TypeKeys(x.db.types), x.at.types);
    InverseDistinct(IndexKeys(x.db.indexes), x.at.indexes);
    InverseDistinct(ObjectKeys(x.db.objects), x.at.objects);
    InverseDistinct(TruncateKeys(x.db.truncates), x.at.truncates);
    hide Distinct, Inverse;
  }

  /** No list ever holds two entries with the same key, unless a rename collides. */
  lemma StepKeepsDistinct(d: Database, s: Statement)
    requires KeysDistinct(d) && NoCollision(d, s)
    ensures KeysDistinct(ApplyP(d, s).state)
  {
    hide *;
    var x := Schema(d, MapsOf(d));
    MapsConsistent(d);
    ApplyRefines(x, s);
    assert Consistent(ApplyX(x, s).state) && ApplyX(x, s).state.db == ApplyP(d, s).state by {
      RefinesMeans(ApplyX(x, s), ApplyP(d, s), NoCollision(d, s));
    }
    ConsistentDistinct(ApplyX(x, s).state);
  }

  lemma RefinesMeans(r: Ran<Schema>, q: Ran<Database>, safe: bool)
    requires Refines(r, q, safe)
    ensures r.outcome == q.outcome && r.state.db == q.state && (safe ==> Consistent(r.state))
  {
  }

  lemma RemovedReadable(os: seq<ObjectDef>, p: nat, rd: Reader)
    requires p < |os| && AllReadable(os, rd)
    ensures AllReadable(RemoveAt(os, p), rd)
  {
    hide Readable;
    assert forall o :: o in RemoveAt(os, p) ==> o in os;
  }

  lemma UpdatedReadable(os: seq<ObjectDef>, p: nat, o: ObjectDef, rd: Reader)
    requires p < |os| && AllReadable(os, rd) && Readable(o, rd)
    ensures AllReadable(os[p := o], rd)
  {
    hide Readable;
    assert forall q :: q in os[p := o] ==> q == o || q in os;
  }

  lemma CreateReadable(d: Database, kind: ObjectKind, orReplace: bool, sql: string, rd: Reader)
    requires AllReadable(d.objects, rd) && CanonicalReader(rd)
    ensures AllReadable(CreateObjectP(d, kind, rd.created(kind, sql), orReplace, sql).state.objects, rd)
  {
    var name := rd.created(kind, sql);
    var p := Find(ObjectKeys(d.objects), ObjectKey(kind, name));
    if p >= 0 && orReplace {
      var o := d.objects[p];
      KeyTellsKind(kind, name, o.kind, o.name);
      assert o in d.objects && Readable(o, rd);
      assert Canonical(rd.created(o.kind, o.sql)) && Canonical(name);
      CanonicalKeys(kind, name, o.name);
      UpdatedReadable(d.objects, p, o.(sql := sql, postAlters := []), rd);
    } else if p < 0 {
      var o := ObjectDef(kind, name, sql, []);
      assert Readable(o, rd);
      hide Readable;
      assert forall q :: q in d.objects + [o] ==> q == o || q in d.objects;
    }
  }

  lemma AttachReadable(d: Database, kind: ObjectKind, sql: string, rd: Reader)
    requires AllReadable(d.objects, rd) && PrintsAlters(Section(kind))
    requires !Untracked(kind, sql)
    ensures AllReadable(AttachP(d, kind, rd.altered(kind, sql), sql).state.objects, rd)
  {
    var name := rd.altered(kind, sql);
    var p := Find(ObjectKeys(d.objects), ObjectKey(kind, name));
    if p >= 0 {
      var o := d.objects[p];
      KeyTellsKind(kind, name, o.kind, o.name);
      assert o in d.objects && Readable(o, rd);
      var o' := o.(postAlters := o.postAlters + [sql]);
      assert forall a :: a in o'.postAlters ==> a == sql || a in o.postAlters;
      assert Attaches(rd, kind, o.name, sql);
      hide ObjectKey, Attaches;
      assert Readable(o', rd);
      UpdatedReadable(d.objects, p, o', rd);
    }
  }

  lemma {:induction false} ActionsKeepObjects(d: Database, p: nat, oldKey: string, actions: seq<Action>)
    requires p < |d.tables|
    ensures ActionsP(d, p, oldKey, actions).state.objects == d.objects
    decreases |actions|
  {
    hide TableAction, RenameTable, NormIdent;
    if actions != [] {
      if actions[0].RenameTo? {
        ActionsKeepObjects(RenameTableP(d, p, oldKey, actions[0].newName), p, oldKey, actions[1..]);
      } else {
        match TableAction(d.tables[p], actions[0])
        case Refused(_) =>
        case Changed(t) => ActionsKeepObjects(d.(tables := d.tables[p := t]), p, oldKey, actions[1..]);
      }
    }
  }

  lemma {:induction false} DropsReadable(d: Database, names: seq<string>, ifExists: bool, rd: Reader)
    requires AllReadable(d.objects, rd)
    ensures AllReadable(DropTablesP(d, names, ifExists).state.objects, rd)
    decreases |names|
  {
    if names != [] {
      var q := Find(ObjectKeys(d.objects), ObjectKey(Partition, names[0]));
      if q >= 0 { RemovedReadable(d.objects, q, rd); }
      hide NormIdent, ObjectKey, WithoutTable, Find, Readable;
      var r := DropOneP(d, names[0], ifExists);
      assert AllReadable(r.state.objects, rd);
      DropsReadable(r.state, names[1..], ifExists, rd);
    }
  }

  lemma RenamesReadable(d: Database, s: Statement, rd: Reader)
    requires AllReadable(d.objects, rd) && TextFollows(d, s, rd)
    requires s.AlterObject? || s.AlterType?
    ensures AllReadable(ApplyP(d, s).state.objects, rd)
  {
    match s
    case AlterObject(kind, oldName, newName) =>
      var p := Find(ObjectKeys(d.objects), ObjectKey(kind, oldName));
      if p >= 0 { UpdatedReadable(d.objects, p, d.objects[p].(name := newName), rd); }
    case AlterType(name, action) =>
      var p := Find(ObjectKeys(d.objects), ObjectKey(TypeKind, name));
      hide LabelAction, Readable;
      if Find(TypeKeys(d.types), NormIdent(name)) < 0 && p >= 0 && action.RenameType? {
        UpdatedReadable(d.objects, p, RenamedType(d.objects[p], name, action.newName), rd);
      }
    case _ =>
  }

  /** The texts keep saying what the schema says. */
  lemma StepKeepsReadable(d: Database, s: Statement, rd: Reader)
    requires AllReadable(d.objects, rd) && CanonicalReader(rd)
    requires WellRead(rd, s) && TextFollows(d, s, rd)
    ensures AllReadable(ApplyP(d, s).state.objects, rd)
  {
    hide NormIdent, TruncateKey, Readable, LabelAction, ApplyOptions, ActionsP, DropTablesP, CreateObjectP, AttachP,
         AlterTypeP, AlterObjectP, DropTypeP, DropObjectP;
    match s
    case AlterTable(name, actions) =>
      var p := Find(TableKeys(d.tables), NormIdent(name));
      if p >= 0 { ActionsKeepObjects(d, p, NormIdent(name), actions); }
    case DropTable(names, ifExists) => DropsReadable(d, names, ifExists, rd);
    case DropType(name, ifExists) => DropTypeReadable(d, name, ifExists, rd);
    case AlterType(name, action) => RenamesReadable(d, s, rd);
    case AlterObject(kind, oldName, newName) => RenamesReadable(d, s, rd);
    case CreateObject(kind, name, orReplace, sql) => CreateReadable(d, kind, orReplace, sql, rd);
    case DropObject(kind, name, ifExists) => DropObjectReadable(d, kind, name, ifExists, rd);
    case AlterFunctionOpts(kind, name, sql) => AttachReadable(d, kind, sql, rd);
    case AlterObjectOpts(kind, name, sql) => if !Untracked(kind, sql) { AttachReadable(d, kind, sql, rd); }
    case _ =>
  }

  lemma DropTypeReadable(d: Database, name: string, ifExists: bool, rd: Reader)
    requires AllReadable(d.objects, rd)
    ensures AllReadable(DropTypeP(d, name, ifExists).state.objects, rd)
  {
    var q := Find(ObjectKeys(d.objects), ObjectKey(TypeKind, name));
    if q >= 0 { RemovedReadable(d.objects, q, rd); }
    hide NormIdent, ObjectKey, Readable;
  }

  lemma DropObjectReadable(d: Database, kind: ObjectKind, name: string, ifExists: bool, rd: Reader)
    requires AllReadable(d.objects, rd)
    ensures AllReadable(DropObjectP(d, kind, name, ifExists).state.objects, rd)
  {
    var q := Find(ObjectKeys(d.objects), ObjectKey(kind, name));
    if q >= 0 { RemovedReadable(d.objects, q, rd); }
    hide NormIdent, ObjectKey, Readable, KindText;
  }

  lemma StepKeepsReplayable(d: Database, s: Statement, rd: Reader)
    requires Replayable(d, rd) && CanonicalReader(rd)
    requires WellRead(rd, s) && NoCollision(d, s) && TextFollows(d, s, rd)
    ensures Replayable(ApplyP(d, s).state, rd)
  {
    StepKeepsDistinct(d, s);
    StepKeepsReadable(d, s, rd);
    hide *;
    assert Replayable(ApplyP(d, s).state, rd) by { ReplayableIs(ApplyP(d, s).state, rd); }
  }

  lemma ReplayableIs(d: Database, rd: Reader)
    ensures Replayable(d, rd) <==> KeysDistinct(d) && AllReadable(d.objects, rd)
  {
    hide KeysDistinct, AllReadable;
  }

  // ---- Runs ----

  /** Every statement that runs is as the parser makes it, collides with nothing
      and renames no object behind the back of its texts. */
  predicate Faithful(d: Database, ss: seq<Statement>, rd: Reader)
    decreases |ss|
  {
    ss == [] ||
    (&& WellRead(rd, ss[0]) && NoCollision(d, ss[0]) && TextFollows(d, ss[0], rd)
     && (ApplyP(d, ss[0]).outcome.Done? ==> Faithful(ApplyP(d, ss[0]).state, ss[1..], rd)))
  }

  lemma {:induction false} RunKeepsReplayable(d: Database, ss: seq<Statement>, rd: Reader)
    requires Replayable(d, rd) && CanonicalReader(rd) && Faithful(d, ss, rd)
    ensures Replayable(RunP(d, ss).state, rd)
    decreases |ss|
  {
    hide ApplyP, Replayable, CanonicalReader, WellRead, NoCollision, TextFollows;
    if ss != [] {
      StepKeepsReplayable(d, ss[0], rd);
      if ApplyP(d, ss[0]).outcome.Done? {
        RunKeepsReplayable(ApplyP(d, ss[0]).state, ss[1..], rd);
      }
    }
  }

  /** Migration compaction preserves meaning: running the emitted statements of
      any schema a faithful run reaches, failed runs included, succeeds and gives
      the same schema with its objects in script order. */
  lemma MergeSound(ss: seq<Statement>, rd: Reader)
    requires CanonicalReader(rd) && Faithful(EMPTY, ss, rd)
    ensures var d := RunP(EMPTY, ss).state;
            RunP(EMPTY, Decompile(d, rd)) == Ran(Regroup(d), Done)
  {
    assert Replayable(EMPTY, rd);
    RunKeepsReplayable(EMPTY, ss, rd);
    ReplayRebuilds(RunP(EMPTY, ss).state, rd);
  }

  // ---- Exactly when ----

  predicate CreatesOnly(rd: Reader, s: Statement) {
    && WellRead(rd, s)
    && !s.AlterTable? && !s.AlterIndex? && !s.AlterSequence? && !s.AlterType? && !s.AlterObject?
  }

  lemma CreatesFaithful(d: Database, s: Statement, rd: Reader)
    requires CreatesOnly(rd, s)
    ensures NoCollision(d, s) && TextFollows(d, s, rd)
  {
  }

  lemma {:induction false} CreatesKeep(d: Database, ss: seq<Statement>, rd: Reader)
    requires Replayable(d, rd) && CanonicalReader(rd)
    requires forall s :: s in ss ==> CreatesOnly(rd, s)
    ensures Replayable(RunP(d, ss).state, rd)
    decreases |ss|
  {
    hide ApplyP, Replayable, CanonicalReader, CreatesOnly, NoCollision, TextFollows;
    if ss != [] {
      assert WellRead(rd, ss[0]) by { CreatesWellRead(rd, ss[0]); }
      CreatesFaithful(d, ss[0], rd);
      StepKeepsReplayable(d, ss[0], rd);
      if ApplyP(d, ss[0]).outcome.Done? { CreatesKeep(ApplyP(d, ss[0]).state, ss[1..], rd); }
    }
  }

  lemma CreatesWellRead(rd: Reader, s: Statement)
    requires CreatesOnly(rd, s)
    ensures WellRead(rd, s)
  {
  }

  lemma {:induction false} AltersCreate(rd: Reader, kind: ObjectKind, alters: seq<string>, s: Statement)
    requires PrintsAlters(Section(kind)) && s in ReadAlters(rd, kind, alters)
    ensures CreatesOnly(rd, s)
  {
    if s != ReadAlter(rd, kind, alters[0]) { AltersCreate(rd, kind, alters[1..], s); }
  }

  lemma {:induction false} ObjectsCreate(rd: Reader, os: seq<ObjectDef>, s: Statement)
    requires s in AllStatements(os, rd)
    ensures CreatesOnly(rd, s)
  {
    var o := os[0];
    if s in AllStatements(os[1..], rd) {
      ObjectsCreate(rd, os[1..], s);
    } else {
      assert s in ObjectStatements(o, rd);
      if s != ReadCreate(rd, o.kind, o.sql) { AltersCreate(rd, o.kind, o.postAlters, s); }
    }
  }

  lemma DecompileCreates(d: Database, rd: Reader, s: Statement)
    requires s in Decompile(d, rd)
    ensures CreatesOnly(rd, s)
  {
    var os := d.objects;
    if i: nat :| i < SECTIONS && s in SectionStatements(os, i, rd) {
      ObjectsCreate(rd, InSection(os, i), s);
    } else {
      assert forall i: nat :: i < SECTIONS ==> s !in SectionStatements(os, i, rd);
      hide SectionStatements;
      assert s in SequenceStatements(d.sequences) || s in TypeStatements(d.types) || s in TableStatements(d.tables)
          || s in IndexStatements(d.indexes) || s in TruncateStatements(d.truncates) || s in UnknownStatements(d.unknowns);
    }
  }

  /** The script rebuilds a schema exactly when its keys are distinct and every
      stored text still says what the schema says. */
  lemma ReplayExact(d: Database, rd: Reader)
    requires CanonicalReader(rd)
    ensures RunP(EMPTY, Decompile(d, rd)) == Ran(Regroup(d), Done) <==> Replayable(d, rd)
  {
    hide Decompile, Replayable, CanonicalReader, Regroup, CreatesOnly;
    if Replayable(d, rd) {
      ReplayRebuilds(d, rd);
    } else if RunP(EMPTY, Decompile(d, rd)) == Ran(Regroup(d), Done) {
      forall s | s in Decompile(d, rd) ensures CreatesOnly(rd, s) { DecompileCreates(d, rd, s); }
      EmptyReplayable(rd);
      CreatesKeep(EMPTY, Decompile(d, rd), rd);
      RegroupReplayable(d, rd);
      assert false;
    }
  }

  lemma EmptyReplayable(rd: Reader)
    ensures Replayable(EMPTY, rd)
  {
  }

  lemma RenamedUnreadable(d: Database, kind: ObjectKind, oldName: string, newName: string, rd: Reader)
    requires AllReadable(d.objects, rd) && Find(ObjectKeys(d.objects), ObjectKey(kind, oldName)) >= 0
    ensures var d' := AlterObjectP(d, kind, oldName, newName).state;
            var o := d.objects[Find(ObjectKeys(d.objects), ObjectKey(kind, oldName))];
            o.name != newName ==> !AllReadable(d'.objects, rd)
  {
    var p := Find(ObjectKeys(d.objects), ObjectKey(kind, oldName));
    hide ObjectKey, FindFrom, KindText, Attaches, Section, PrintsAlters;
    var o := d.objects[p];
    var d' := AlterObjectP(d, kind, oldName, newName).state;
    assert o in d.objects && Readable(o, rd);
    assert d'.objects[p] == o.(name := newName) && d'.objects[p] in d'.objects;
  }

  /** Renaming a generic object whose text declares its old name: the schema
      changes, the printed text does not, and the script no longer rebuilds it. */
  lemma RenameBreaksReplay(d: Database, kind: ObjectKind, oldName: string, newName: string, rd: Reader)
    requires CanonicalReader(rd) && Replayable(d, rd)
    requires Find(ObjectKeys(d.objects), ObjectKey(kind, oldName)) >= 0
    ensures var d' := ApplyP(d, AlterObject(kind, oldName, newName)).state;
            var o := d.objects[Find(ObjectKeys(d.objects), ObjectKey(kind, oldName))];
            o.name != newName ==> RunP(EMPTY, Decompile(d', rd)) != Ran(Regroup(d'), Done)
  {
    hide ObjectKey, Find, Decompile, KeysDistinct, Regroup, AllReadable, AlterObjectP, CanonicalReader, ObjectKeys, RunP;
    RenamedUnreadable(d, kind, oldName, newName, rd);
    ReplayExact(ApplyP(d, AlterObject(kind, oldName, newName)).state, rd);
  }

  // ---- The second pass prints the same file ----

  lemma {:induction false} SectionLinesAppend(a: seq<ObjectDef>, b: seq<ObjectDef>, n: nat)
    ensures SectionLines(a + b, n) == SectionLines(a, n) + SectionLines(b, n)
  {
    hide ObjectLines, Section;
    if a == [] {
      assert a + b == b;
    } else {
      assert (a + b)[1..] == a[1..] + b;
      SectionLinesAppend(a[1..], b, n);
    }
  }

  /** A section prints the objects of that section and nothing else. */
  lemma {:induction false} SectionLinesOf(os: seq<ObjectDef>, m: nat, n: nat)
    ensures SectionLines(InSection(os, m), n) == if m == n then SectionLines(os, n) else []
  {
    hide ObjectLines, Section;
    if os != [] {
      var tail := InSection(os[1..], m);
      SectionLinesOf(os[1..], m, n);
      if Section(os[0].kind) == m {
        assert ([os[0]] + tail)[1..] == tail;
      } else {
        assert [] + tail == tail;
      }
      assert m == n && Section(os[0].kind) != n ==> [] + SectionLines(os[1..], n) == SectionLines(os[1..], n);
    }
  }

  lemma NoLines(n: nat)
    ensures SectionLines([], n) == []
  {
  }

  lemma {:induction false} SectionsLines(os: seq<ObjectDef>, m: nat, n: nat)
    ensures SectionLines(Sections(os, m), n) == if n < m then SectionLines(os, n) else []
  {
    hide Sections, InSection, SectionLines;
    if m == 0 {
      SectionsNone(os);
      NoLines(n);
    } else {
      SectionsStep(os, m);
      SectionsLines(os, m - 1, n);
      SectionLinesAppend(Sections(os, m - 1), InSection(os, m - 1), n);
      SectionLinesOf(os, m - 1, n);
      assert SectionLines(os, n) + [] == SectionLines(os, n) && [] + SectionLines(os, n) == SectionLines(os, n);
    }
  }

  /** Merging the merged file again prints it byte for byte. */
  lemma OutputStable(d: Database)
    ensures Output(Regroup(d)) == Output(d)
  {
    var os := d.objects;
    forall n: nat | n < SECTIONS ensures SectionLines(Regrouped(os), n) == SectionLines(os, n) {
      SectionsLines(os, SECTIONS, n);
    }
    hide SectionLines, Written, Regrouped;
  }

  /** The second merge: parse and apply the script of a faithful run, print. */
  lemma MergeIdempotent(ss: seq<Statement>, rd: Reader)
    requires CanonicalReader(rd) && Faithful(EMPTY, ss, rd)
    ensures var d := RunP(EMPTY, ss).state;
            var again := RunP(EMPTY, Decompile(d, rd));
            again.outcome.Done? && Output(again.state) == Output(d)
  {
    MergeSound(ss, rd);
    OutputStable(RunP(EMPTY, ss).state);
  }

  // ---- The statements are the ones printed ----

  /** How a statement of the script is written. */
  function StatementText(s: Statement): string {
    match s
    case CreateTable(name, temporary, unlogged, columns, constraints, partitionBy) =>
      TableText(TableDef(name, temporary, unlogged, columns, constraints, partitionBy))
    case CreateIndex(name, tableName, unique, concurrently, ifNotExists, body) =>
      IndexText(IndexDef(name, tableName, unique, concurrently, ifNotExists, body))
    case CreateSequence(name, body) => SequenceText(SequenceDef(name, body))
    case CreateType(name, labels) => EnumText(EnumDef(name, labels))
    case CreateObject(_, _, _, sql) => sql
    case AlterFunctionOpts(_, _, sql) => sql
    case AlterObjectOpts(_, _, sql) => sql
    case TruncateTables(t) => TruncateText(t)
    case Unknown(raw) => raw
    case _ => ""
  }

  /** Line by line, `ls` are the texts of `ss`. */
  predicate Prints(ls: seq<Line>, ss: seq<Statement>) {
    |ls| == |ss| && forall i :: 0 <= i < |ls| ==> ls[i].text == StatementText(ss[i])
  }

  lemma PrintsAppend(a: seq<Line>, s: seq<Statement>, b: seq<Line>, t: seq<Statement>)
    requires Prints(a, s) && Prints(b, t)
    ensures Prints(a + b, s + t)
  {
    hide StatementText;
  }

  lemma AlterText(rd: Reader, kind: ObjectKind, sql: string)
    ensures StatementText(ReadAlter(rd, kind, sql)) == sql
  {
  }

  lemma {:induction false} GroupPrints(sql: string, alters: seq<string>, kind: ObjectKind, rd: Reader, c: Statement)
    requires StatementText(c) == sql
    ensures Prints(Group(sql, alters), [c] + ReadAlters(rd, kind, alters))
    decreases |alters|
  {
    hide StatementText, ReadAlter;
    if alters == [] {
      assert [c] + ReadAlters(rd, kind, alters) == [c];
    } else {
      var a := ReadAlter(rd, kind, alters[0]);
      AlterText(rd, kind, alters[0]);
      GroupPrints(alters[0], alters[1..], kind, rd, a);
      PrintsAppend([Line(sql, "\n")], [c], Group(alters[0], alters[1..]), [a] + ReadAlters(rd, kind, alters[1..]));
    }
  }

  lemma {:induction false} SectionPrints(os: seq<ObjectDef>, n: nat, rd: Reader)
    ensures Prints(SectionLines(os, n), SectionStatements(os, n, rd))
  {
    if os != [] {
      var o := os[0];
      SectionPrints(os[1..], n, rd);
      var tail := InSection(os[1..], n);
      if Section(o.kind) == n {
        assert ([o] + tail)[1..] == tail;
        var c := ReadCreate(rd, o.kind, o.sql);
        GroupPrints(o.sql, o.postAlters, o.kind, rd, c);
        assert [c] + [] == [c];
        assert Prints(ObjectLines(o), ObjectStatements(o, rd));
        hide ObjectLines, ObjectStatements;
        PrintsAppend(ObjectLines(o), ObjectStatements(o, rd), SectionLines(os[1..], n), AllStatements(tail, rd));
      } else {
        assert [] + tail == tail && [] + SectionLines(os[1..], n) == SectionLines(os[1..], n);
      }
    }
  }

  /** The script printed for a schema consists of the texts of exactly the
      statements that are replayed, in the same order. */
  lemma ScriptPrints(d: Database, rd: Reader)
    ensures Prints(ScriptOf(d), Decompile(d, rd))
  {
    var os := d.objects;
    forall n: nat | n < SECTIONS ensures Prints(SectionLines(os, n), SectionStatements(os, n, rd)) {
      SectionPrints(os, n, rd);
    }
    hide SectionLines, SectionStatements, StatementText, TableText, IndexText, SequenceText, EnumText, TruncateText;
    SimplePrints(d);
    var l := SectionLines(os, 0) + SectionLines(os, 1);
    var s := SectionStatements(os, 0, rd) + SectionStatements(os, 1, rd);
    PrintsAppend(SectionLines(os, 0), SectionStatements(os, 0, rd), SectionLines(os, 1), SectionStatements(os, 1, rd));
    var l', s' := PrintsFour(l, s, SequenceLines(d.sequences), SequenceStatements(d.sequences),
                             TypeLines(d.types), TypeStatements(d.types),
                             SectionLines(os, 2), SectionStatements(os, 2, rd),
                             SectionLines(os, 3), SectionStatements(os, 3, rd));
    var l'', s'' := PrintsFour(l', s', TableLines(d.tables), TableStatements(d.tables),
                               SectionLines(os, 4), SectionStatements(os, 4, rd),
                               IndexLines(d.indexes), IndexStatements(d.indexes),
                               SectionLines(os, 5), SectionStatements(os, 5, rd));
    var l3, s3 := PrintsFour(l'', s'', SectionLines(os, 6), SectionStatements(os, 6, rd),
                             SectionLines(os, 7), SectionStatements(os, 7, rd),
                             SectionLines(os, 8), SectionStatements(os, 8, rd),
                             TruncateLines(d.truncates), TruncateStatements(d.truncates));
    PrintsAppend(l3, s3, UnknownLines(d.unknowns), UnknownStatements(d.unknowns));
    hide Prints, SequenceLines, TypeLines, TableLines, IndexLines, TruncateLines, UnknownLines, SequenceStatements,
         TypeStatements, TableStatements, IndexStatements, TruncateStatements, UnknownStatements;
  }

  lemma PrintsFour(l: seq<Line>, s: seq<Statement>, l1: seq<Line>, s1: seq<Statement>, l2: seq<Line>, s2: seq<Statement>,
                   l3: seq<Line>, s3: seq<Statement>, l4: seq<Line>, s4: seq<Statement>)
    returns (ls: seq<Line>, ss: seq<Statement>)
    requires Prints(l, s) && Prints(l1, s1) && Prints(l2, s2) && Prints(l3, s3) && Prints(l4, s4)
    ensures ls == l + l1 + l2 + l3 + l4 && ss == s + s1 + s2 + s3 + s4 && Prints(ls, ss)
  {
    hide *;
    ls, ss := l + l1 + l2 + l3 + l4, s + s1 + s2 + s3 + s4;
    PrintsAppend(l, s, l1, s1);
    PrintsAppend(l + l1, s + s1, l2, s2);
    PrintsAppend(l + l1 + l2, s + s1 + s2, l3, s3);
    PrintsAppend(l + l1 + l2 + l3, s + s1 + s2 + s3, l4, s4);
  }

  lemma SimplePrints(d: Database)
    ensures Prints(SequenceLines(d.sequences), SequenceStatements(d.sequences))
    ensures Prints(TypeLines(d.types), TypeStatements(d.types))
    ensures Prints(TableLines(d.tables), TableStatements(d.tables))
    ensures Prints(IndexLines(d.indexes), IndexStatements(d.indexes))
    ensures Prints(TruncateLines(d.truncates), TruncateStatements(d.truncates))
    ensures Prints(UnknownLines(d.unknowns), UnknownStatements(d.unknowns))
  {
    hide TableText, IndexText, SequenceText, EnumText, TruncateText;
  }
}
