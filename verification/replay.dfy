/** Merge soundness: running the emitted statements from an empty schema
    rebuilds the schema, exactly when the stored texts still say what the
    schema says. */
module Replay {
  import opened Text
  import opened Ast
  import opened Positions
  import opened Catalog
  import opened Indexed
  import opened Plain
  import opened Refinement
  import opened Script

  /** What the parser reads from a verbatim text: the name a CREATE declares and
      the name an ALTER is about. */
  datatype Reader = Reader(
    created: (ObjectKind, string) -> string,
    altered: (ObjectKind, string) -> string
  )

  // ---- The emitted statements ----

  function ReadCreate(rd: Reader, kind: ObjectKind, sql: string): Statement {
    CreateObject(kind, rd.created(kind, sql),
                 !kind.TypeKind? && !kind.Partition? && Contains(Upper(sql), "OR REPLACE"), sql)
  }

  function ReadAlter(rd: Reader, kind: ObjectKind, sql: string): Statement {
    if kind.Function? || kind.Procedure? then AlterFunctionOpts(kind, rd.altered(kind, sql), sql)
    else AlterObjectOpts(kind, rd.altered(kind, sql), sql)
  }

  function ReadAlters(rd: Reader, kind: ObjectKind, sqls: seq<string>): seq<Statement> {
    if sqls == [] then [] else [ReadAlter(rd, kind, sqls[0])] + ReadAlters(rd, kind, sqls[1..])
  }

  function ObjectStatements(o: ObjectDef, rd: Reader): seq<Statement> {
    [ReadCreate(rd, o.kind, o.sql)]
    + if PrintsAlters(Section(o.kind)) then ReadAlters(rd, o.kind, o.postAlters) else []
  }

  function InSection(os: seq<ObjectDef>, n: nat): seq<ObjectDef> {
    if os == [] then []
    else (if Section(os[0].kind) == n then [os[0]] else []) + InSection(os[1..], n)
  }

  function AllStatements(os: seq<ObjectDef>, rd: Reader): seq<Statement> {
    if os == [] then [] else ObjectStatements(os[0], rd) + AllStatements(os[1..], rd)
  }

  function TableStatement(t: TableDef): Statement {
    CreateTable(t.name, t.temporary, t.unlogged, t.columns, t.constraints, t.partitionBy)
  }

  function IndexStatement(x: IndexDef): Statement {
    CreateIndex(x.name, x.tableName, x.unique, x.concurrently, x.ifNotExists, x.body)
  }

  function SequenceStatements(ss: seq<SequenceDef>): seq<Statement> {
    seq(|ss|, i requires 0 <= i < |ss| => CreateSequence(ss[i].name, ss[i].body))
  }

  function TypeStatements(es: seq<EnumDef>): seq<Statement> {
    seq(|es|, i requires 0 <= i < |es| => CreateType(es[i].name, es[i].labels))
  }

  function TableStatements(ts: seq<TableDef>): seq<Statement> {
    seq(|ts|, i requires 0 <= i < |ts| => TableStatement(ts[i]))
  }

  function IndexStatements(xs: seq<IndexDef>): seq<Statement> {
    seq(|xs|, i requires 0 <= i < |xs| => IndexStatement(xs[i]))
  }

  function TruncateStatements(ts: seq<Truncate>): seq<Statement> {
    seq(|ts|, i requires 0 <= i < |ts| => TruncateTables(ts[i]))
  }

  function UnknownStatements(us: seq<string>): seq<Statement> {
    seq(|us|, i requires 0 <= i < |us| => Unknown(us[i]))
  }

  function SectionStatements(os: seq<ObjectDef>, n: nat, rd: Reader): seq<Statement> {
    AllStatements(InSection(os, n), rd)
  }

  /** The statements that the texts of the script stand for. */
  function Decompile(d: Database, rd: Reader): seq<Statement> {
    SectionStatements(d.objects, 0, rd) + SectionStatements(d.objects, 1, rd)
    + SequenceStatements(d.sequences) + TypeStatements(d.types)
    + SectionStatements(d.objects, 2, rd) + SectionStatements(d.objects, 3, rd)
    + TableStatements(d.tables) + SectionStatements(d.objects, 4, rd) + IndexStatements(d.indexes)
    + SectionStatements(d.objects, 5, rd) + SectionStatements(d.objects, 6, rd)
    + SectionStatements(d.objects, 7, rd) + SectionStatements(d.objects, 8, rd)
    + TruncateStatements(d.truncates) + UnknownStatements(d.unknowns)
  }

  /** The objects of the first n sections, section by section. */
  function Sections(os: seq<ObjectDef>, n: nat): seq<ObjectDef> {
    if n == 0 then [] else Sections(os, n - 1) + InSection(os, n - 1)
  }

  /** The objects in script order: stably regrouped by section. */
  function Regrouped(os: seq<ObjectDef>): seq<ObjectDef> { Sections(os, SECTIONS) }

  function Regroup(d: Database): Database { d.(objects := Regrouped(d.objects)) }

  // ---- When the texts still say what the schema says ----

  ghost predicate KeysDistinct(d: Database) {
    && Distinct(TableKeys(d.tables)) && Distinct(SequenceKeys(d.sequences)) && Distinct(TypeKeys(d.types))
    && Distinct(IndexKeys(d.indexes)) && Distinct(ObjectKeys(d.objects)) && Distinct(TruncateKeys(d.truncates))
  }

  /** The ALTER text a attaches to object (kind, name) when read back. */
  predicate Attaches(rd: Reader, kind: ObjectKind, name: string, a: string) {
    && ObjectKey(kind, rd.altered(kind, a)) == ObjectKey(kind, name)
    && !Untracked(kind, a)
  }

  predicate Readable(o: ObjectDef, rd: Reader) {
    && rd.created(o.kind, o.sql) == o.name
    && (!PrintsAlters(Section(o.kind)) ==> o.postAlters == [])
    && forall a :: a in o.postAlters ==> Attaches(rd, o.kind, o.name, a)
  }

  predicate AllReadable(os: seq<ObjectDef>, rd: Reader) {
    forall o :: o in os ==> Readable(o, rd)
  }

  ghost predicate Replayable(d: Database, rd: Reader) {
    KeysDistinct(d) && AllReadable(d.objects, rd)
  }

  // ---- Replaying each part ----

  lemma DistinctHead(keys: seq<string>, k: string, rest: seq<string>)
    requires Distinct(keys + [k] + rest)
    ensures Find(keys, k) < 0
    ensures Distinct(keys + [k])
  {
    var all := keys + [k] + rest;
    assert all[|keys|] == k;
    forall i | 0 <= i < |keys| ensures keys[i] != k { assert all[i] == keys[i]; }
    forall i, j | 0 <= i < j < |keys + [k]| ensures (keys + [k])[i] != (keys + [k])[j] {
      assert all[i] == (keys + [k])[i] && all[j] == (keys + [k])[j];
    }
    FindMember(keys, k);
  }

  lemma {:induction false} ReplayTables(d: Database, ts: seq<TableDef>)
    requires Distinct(TableKeys(d.tables + ts))
    ensures RunP(d, TableStatements(ts)) == Ran(d.(tables := d.tables + ts), Done)
    decreases |ts|
  {
    hide NormIdent, Find;
    if ts == [] {
      assert d.tables + ts == d.tables;
    } else {
      var t := ts[0];
      assert TableKeys(d.tables + ts) == TableKeys(d.tables) + [NormIdent(t.name)] + TableKeys(ts[1..]);
      DistinctHead(TableKeys(d.tables), NormIdent(t.name), TableKeys(ts[1..]));
      var d' := d.(tables := d.tables + [t]);
      assert ApplyP(d, TableStatement(t)) == Ran(d', Done);
      hide ApplyP;
      assert TableStatements(ts)[1..] == TableStatements(ts[1..]);
      assert d'.tables + ts[1..] == d.tables + ts;
      ReplayTables(d', ts[1..]);
    }
  }

  lemma {:induction false} ReplaySequences(d: Database, ss: seq<SequenceDef>)
    requires Distinct(SequenceKeys(d.sequences + ss))
    ensures RunP(d, SequenceStatements(ss)) == Ran(d.(sequences := d.sequences + ss), Done)
    decreases |ss|
  {
    hide NormIdent, Find;
    if ss == [] {
      assert d.sequences + ss == d.sequences;
    } else {
      var s := ss[0];
      assert SequenceKeys(d.sequences + ss) == SequenceKeys(d.sequences) + [NormIdent(s.name)] + SequenceKeys(ss[1..]);
      DistinctHead(SequenceKeys(d.sequences), NormIdent(s.name), SequenceKeys(ss[1..]));
      var d' := d.(sequences := d.sequences + [s]);
      assert ApplyP(d, CreateSequence(s.name, s.body)) == Ran(d', Done);
      hide ApplyP;
      assert SequenceStatements(ss)[1..] == SequenceStatements(ss[1..]);
      assert d'.sequences + ss[1..] == d.sequences + ss;
      ReplaySequences(d', ss[1..]);
    }
  }

  lemma {:induction false} ReplayTypes(d: Database, es: seq<EnumDef>)
    requires Distinct(TypeKeys(d.types + es))
    ensures RunP(d, TypeStatements(es)) == Ran(d.(types := d.types + es), Done)
    decreases |es|
  {
    hide NormIdent, Find;
    if es == [] {
      assert d.types + es == d.types;
    } else {
      var e := es[0];
      assert TypeKeys(d.types + es) == TypeKeys(d.types) + [NormIdent(e.name)] + TypeKeys(es[1..]);
      DistinctHead(TypeKeys(d.types), NormIdent(e.name), TypeKeys(es[1..]));
      var d' := d.(types := d.types + [e]);
      assert ApplyP(d, CreateType(e.name, e.labels)) == Ran(d', Done);
      hide ApplyP;
      assert TypeStatements(es)[1..] == TypeStatements(es[1..]);
      assert d'.types + es[1..] == d.types + es;
      ReplayTypes(d', es[1..]);
    }
  }

  lemma {:induction false} ReplayIndexes(d: Database, xs: seq<IndexDef>)
    requires Distinct(IndexKeys(d.indexes + xs))
    ensures RunP(d, IndexStatements(xs)) == Ran(d.(indexes := d.indexes + xs), Done)
    decreases |xs|
  {
    hide NormIdent, Find;
    if xs == [] {
      assert d.indexes + xs == d.indexes;
    } else {
      var x := xs[0];
      assert IndexKeys(d.indexes + xs) == IndexKeys(d.indexes) + [NormIdent(x.name)] + IndexKeys(xs[1..]);
      DistinctHead(IndexKeys(d.indexes), NormIdent(x.name), IndexKeys(xs[1..]));
      var d' := d.(indexes := d.indexes + [x]);
      assert ApplyP(d, IndexStatement(x)) == Ran(d', Done);
      hide ApplyP;
      assert IndexStatements(xs)[1..] == IndexStatements(xs[1..]);
      assert d'.indexes + xs[1..] == d.indexes + xs;
      ReplayIndexes(d', xs[1..]);
    }
  }

  lemma {:induction false} ReplayTruncates(d: Database, ts: seq<Truncate>)
    requires Distinct(TruncateKeys(d.truncates + ts))
    ensures RunP(d, TruncateStatements(ts)) == Ran(d.(truncates := d.truncates + ts), Done)
    decreases |ts|
  {
    hide TruncateKey, Find;
    if ts == [] {
      assert d.truncates + ts == d.truncates;
    } else {
      var t := ts[0];
      assert TruncateKeys(d.truncates + ts) == TruncateKeys(d.truncates) + [TruncateKey(t)] + TruncateKeys(ts[1..]);
      DistinctHead(TruncateKeys(d.truncates), TruncateKey(t), TruncateKeys(ts[1..]));
      var d' := d.(truncates := d.truncates + [t]);
      assert ApplyP(d, TruncateTables(t)) == Ran(d', Done);
      hide ApplyP;
      assert TruncateStatements(ts)[1..] == TruncateStatements(ts[1..]);
      assert d'.truncates + ts[1..] == d.truncates + ts;
      ReplayTruncates(d', ts[1..]);
    }
  }

  lemma {:induction false} ReplayUnknowns(d: Database, us: seq<string>)
    ensures RunP(d, UnknownStatements(us)) == Ran(d.(unknowns := d.unknowns + us), Done)
    decreases |us|
  {
    if us == [] {
      assert d.unknowns + us == d.unknowns;
    } else {
      var d' := d.(unknowns := d.unknowns + [us[0]]);
      assert ApplyP(d, Unknown(us[0])) == Ran(d', Done);
      hide ApplyP;
      assert UnknownStatements(us)[1..] == UnknownStatements(us[1..]);
      assert d'.unknowns + us[1..] == d.unknowns + us;
      ReplayUnknowns(d', us[1..]);
    }
  }

  lemma AttachLast(d: Database, rd: Reader, a: string)
    requires d.objects != [] && Distinct(ObjectKeys(d.objects))
    requires var o := d.objects[|d.objects| - 1]; Attaches(rd, o.kind, o.name, a)
    ensures var p := |d.objects| - 1;
            var o := d.objects[p];
            ApplyP(d, ReadAlter(rd, o.kind, a)) ==
            Ran(d.(objects := d.objects[p := o.(postAlters := o.postAlters + [a])]), Done)
  {
    hide ObjectKey, Find;
    FindDistinct(ObjectKeys(d.objects), |d.objects| - 1);
  }

  /** ALTER texts of the last object attach to it, in order. */
  lemma {:induction false} ReplayAlters(d: Database, rd: Reader, alters: seq<string>)
    requires d.objects != [] && Distinct(ObjectKeys(d.objects))
    requires var o := d.objects[|d.objects| - 1];
             forall a :: a in alters ==> Attaches(rd, o.kind, o.name, a)
    ensures var p := |d.objects| - 1;
            var o := d.objects[p];
            RunP(d, ReadAlters(rd, o.kind, alters)) ==
            Ran(d.(objects := d.objects[p := o.(postAlters := o.postAlters + alters)]), Done)
    decreases |alters|
  {
    hide ObjectKey, ApplyP, ReadAlter, Attaches;
    var p := |d.objects| - 1;
    var o := d.objects[p];
    if alters == [] {
      assert o.postAlters + alters == o.postAlters;
      assert d.objects[p := o] == d.objects;
    } else {
      var a := alters[0];
      AttachLast(d, rd, a);
      var d' := d.(objects := d.objects[p := o.(postAlters := o.postAlters + [a])]);
      assert ObjectKeys(d'.objects) == ObjectKeys(d.objects);
      ReplayAlters(d', rd, alters[1..]);
      var goal := o.(postAlters := o.postAlters + alters);
      assert o.postAlters + [a] + alters[1..] == o.postAlters + alters;
      assert d'.objects[p := goal] == d.objects[p := goal];
      assert ReadAlters(rd, o.kind, alters)[0] == ReadAlter(rd, o.kind, a);
      assert ReadAlters(rd, o.kind, alters)[1..] == ReadAlters(rd, o.kind, alters[1..]);
    }
  }

  lemma CreateLast(d: Database, o: ObjectDef, rd: Reader)
    requires rd.created(o.kind, o.sql) == o.name && Distinct(ObjectKeys(d.objects + [o]))
    ensures ApplyP(d, ReadCreate(rd, o.kind, o.sql)) ==
            Ran(d.(objects := d.objects + [o.(postAlters := [])]), Done)
  {
    hide ObjectKey, Find;
    var keys, key := ObjectKeys(d.objects), ObjectKey(o.kind, o.name);
    assert ObjectKeys(d.objects + [o]) == keys + [key] + [];
    DistinctHead(keys, key, []);
  }

  lemma ReplayObject(d: Database, o: ObjectDef, rd: Reader)
    requires Readable(o, rd) && Distinct(ObjectKeys(d.objects + [o]))
    ensures RunP(d, ObjectStatements(o, rd)) == Ran(d.(objects := d.objects + [o]), Done)
  {
    CreateLast(d, o, rd);
    hide ApplyP, ObjectKey, ReadCreate, Attaches;
    var d' := d.(objects := d.objects + [o.(postAlters := [])]);
    assert ObjectKeys(d'.objects) == ObjectKeys(d.objects + [o]);
    var ss := ObjectStatements(o, rd);
    assert ss[0] == ReadCreate(rd, o.kind, o.sql);
    if PrintsAlters(Section(o.kind)) {
      ReplayAlters(d', rd, o.postAlters);
      assert ss[1..] == ReadAlters(rd, o.kind, o.postAlters);
      assert [] + o.postAlters == o.postAlters;
      assert d'.objects[|d.objects| := o] == d.objects + [o];
    } else {
      assert ss[1..] == [];
    }
  }

  lemma {:induction false} ReplayObjects(d: Database, os: seq<ObjectDef>, rd: Reader)
    requires AllReadable(os, rd) && Distinct(ObjectKeys(d.objects + os))
    ensures RunP(d, AllStatements(os, rd)) == Ran(d.(objects := d.objects + os), Done)
    decreases |os|
  {
    hide ObjectKey, Readable, ObjectStatements;
    if os == [] {
      assert d.objects + os == d.objects;
    } else {
      var o, rest := os[0], os[1..];
      var keys := ObjectKeys(d.objects);
      assert ObjectKeys(d.objects + os) == keys + [ObjectKey(o.kind, o.name)] + ObjectKeys(rest);
      DistinctHead(keys, ObjectKey(o.kind, o.name), ObjectKeys(rest));
      assert ObjectKeys(d.objects + [o]) == keys + [ObjectKey(o.kind, o.name)];
      ReplayObject(d, o, rd);
      var d' := d.(objects := d.objects + [o]);
      assert d'.objects + rest == d.objects + os;
      ReplayObjects(d', rest, rd);
      RunAppend(d, ObjectStatements(o, rd), AllStatements(rest, rd));
    }
  }

  // ---- Regrouping keeps the objects ----

  lemma InSectionCons(o: ObjectDef, rest: seq<ObjectDef>, n: nat)
    ensures InSection([o] + rest, n) == (if Section(o.kind) == n then [o] else []) + InSection(rest, n)
  {
    assert ([o] + rest)[1..] == rest;
  }

  ghost function Count<T>(s: seq<T>, x: T): nat {
    if s == [] then 0 else (if s[0] == x then 1 else 0) + Count(s[1..], x)
  }

  lemma {:induction false} CountAppend<T>(a: seq<T>, b: seq<T>, x: T)
    ensures Count(a + b, x) == Count(a, x) + Count(b, x)
  {
    if a == [] {
      assert a + b == b;
    } else {
      assert (a + b)[1..] == a[1..] + b;
      CountAppend(a[1..], b, x);
    }
  }

  lemma {:induction false} CountMember<T>(s: seq<T>, x: T)
    ensures x in s <==> Count(s, x) > 0
  {
    if s != [] {
      assert s == [s[0]] + s[1..];
      CountMember(s[1..], x);
    }
  }

  lemma SectionsStep(os: seq<ObjectDef>, n: nat)
    requires n > 0
    ensures Sections(os, n) == Sections(os, n - 1) + InSection(os, n - 1)
  {
  }

  lemma CountOne<T>(x: T, y: T)
    ensures Count([x], y) == if x == y then 1 else 0
  {
    assert [x][1..] == [];
  }

  lemma {:induction false} SectionsCons(o: ObjectDef, rest: seq<ObjectDef>, n: nat, x: ObjectDef)
    ensures Count(Sections([o] + rest, n), x) ==
            Count(Sections(rest, n), x) + if Section(o.kind) < n && x == o then 1 else 0
  {
    hide Section, Sections, InSection, Count;
    if n == 0 {
      SectionsNone([o] + rest);
      SectionsNone(rest);
    } else {
      var os := [o] + rest;
      SectionsStep(os, n);
      SectionsStep(rest, n);
      SectionsCons(o, rest, n - 1, x);
      InSectionCons(o, rest, n - 1);
      CountAppend(Sections(os, n - 1), InSection(os, n - 1), x);
      CountAppend(Sections(rest, n - 1), InSection(rest, n - 1), x);
      if Section(o.kind) == n - 1 {
        CountAppend([o], InSection(rest, n - 1), x);
        CountOne(o, x);
      } else {
        assert [] + InSection(rest, n - 1) == InSection(rest, n - 1);
      }
    }
  }

  lemma SectionsNone(os: seq<ObjectDef>)
    ensures Sections(os, 0) == []
  {
  }

  lemma ObjectKeysAppend(a: seq<ObjectDef>, b: seq<ObjectDef>)
    ensures ObjectKeys(a + b) == ObjectKeys(a) + ObjectKeys(b)
  {
    hide ObjectKey;
  }

  lemma ObjectKeysOne(o: ObjectDef)
    ensures ObjectKeys([o]) == [ObjectKey(o.kind, o.name)] && ObjectKeys([]) == []
  {
    hide ObjectKey;
  }

  lemma {:induction false} SectionsConsKeys(o: ObjectDef, rest: seq<ObjectDef>, n: nat, k: string)
    ensures Count(ObjectKeys(Sections([o] + rest, n)), k) ==
            Count(ObjectKeys(Sections(rest, n)), k)
            + if Section(o.kind) < n && k == ObjectKey(o.kind, o.name) then 1 else 0
  {
    hide ObjectKey, Section, Sections, InSection, Count, ObjectKeys;
    if n == 0 {
      SectionsNone([o] + rest);
      SectionsNone(rest);
    } else {
      var os := [o] + rest;
      var more, fewer, tail := Sections(os, n - 1), Sections(rest, n - 1), InSection(rest, n - 1);
      SectionsStep(os, n);
      SectionsStep(rest, n);
      SectionsConsKeys(o, rest, n - 1, k);
      InSectionCons(o, rest, n - 1);
      ObjectKeysAppend(more, InSection(os, n - 1));
      ObjectKeysAppend(fewer, tail);
      CountAppend(ObjectKeys(more), ObjectKeys(InSection(os, n - 1)), k);
      CountAppend(ObjectKeys(fewer), ObjectKeys(tail), k);
      if Section(o.kind) == n - 1 {
        ObjectKeysAppend([o], tail);
        ObjectKeysOne(o);
        CountAppend([ObjectKey(o.kind, o.name)], ObjectKeys(tail), k);
        CountOne(ObjectKey(o.kind, o.name), k);
      } else {
        assert [] + tail == tail;
      }
    }
  }

  lemma {:induction false} SectionsEmpty(n: nat)
    ensures Sections([], n) == []
  {
    if n > 0 { SectionsEmpty(n - 1); }
  }

  /** Regrouping permutes the objects. */
  lemma {:induction false} RegroupedPermutes(os: seq<ObjectDef>, x: ObjectDef, k: string)
    ensures Count(Regrouped(os), x) == Count(os, x)
    ensures Count(ObjectKeys(Regrouped(os)), k) == Count(ObjectKeys(os), k)
  {
    hide ObjectKey, Section, Sections;
    if os == [] {
      SectionsEmpty(SECTIONS);
    } else {
      var o, rest := os[0], os[1..];
      RegroupedPermutes(rest, x, k);
      SectionsCons(o, rest, SECTIONS, x);
      SectionsConsKeys(o, rest, SECTIONS, k);
      assert os == [o] + rest;
      assert ObjectKeys(os) == [ObjectKey(o.kind, o.name)] + ObjectKeys(rest);
      CountAppend([o], rest, x);
      CountAppend([ObjectKey(o.kind, o.name)], ObjectKeys(rest), k);
    }
  }

  lemma {:induction false} DistinctCounts(keys: seq<string>)
    ensures Distinct(keys) <==> forall k :: Count(keys, k) <= 1
  {
    if keys != [] {
      var k, rest := keys[0], keys[1..];
      DistinctCounts(rest);
      CountMember(rest, k);
      if Distinct(keys) {
        HeadIsNew(keys);
        assert Distinct(rest) by { assert forall i :: 0 <= i < |rest| ==> rest[i] == keys[i + 1]; }
        forall x ensures Count(keys, x) <= 1 { assert Count(rest, x) <= 1; }
      } else {
        var i, j :| 0 <= i < j < |keys| && keys[i] == keys[j];
        if i == 0 {
          assert rest[j - 1] == k;
          assert Count(keys, k) > 1;
        } else {
          assert rest[i - 1] == rest[j - 1];
          var x :| Count(rest, x) > 1;
          assert Count(keys, x) > 1;
        }
      }
    }
  }

  /** The conditions for a replay do not depend on the order of the objects. */
  lemma RegroupReplayable(d: Database, rd: Reader)
    ensures Replayable(Regroup(d), rd) <==> Replayable(d, rd)
  {
    RegroupDistinct(d.objects);
    RegroupMembers(d.objects);
    hide Regrouped, Readable, Distinct;
  }

  lemma RegroupDistinct(os: seq<ObjectDef>)
    ensures Distinct(ObjectKeys(Regrouped(os))) <==> Distinct(ObjectKeys(os))
  {
    hide *;
    var a, b := ObjectKeys(os), ObjectKeys(Regrouped(os));
    DistinctCounts(a);
    DistinctCounts(b);
    var any := ObjectDef(View, "", "", []);
    if Distinct(a) {
      forall k ensures Count(b, k) <= 1 {
        RegroupedPermutes(os, any, k);
        assert Count(a, k) <= 1;
      }
    }
    if Distinct(b) {
      forall k ensures Count(a, k) <= 1 {
        RegroupedPermutes(os, any, k);
        assert Count(b, k) <= 1;
      }
    }
  }

  lemma RegroupMembers(os: seq<ObjectDef>)
    ensures forall o :: o in os <==> o in Regrouped(os)
  {
    forall o ensures o in os <==> o in Regrouped(os) {
      RegroupedPermutes(os, o, "");
      CountMember(os, o);
      CountMember(Regrouped(os), o);
    }
  }

  lemma DistinctPrefix(a: seq<string>, b: seq<string>)
    requires Distinct(a + b)
    ensures Distinct(a)
  {
    assert forall i :: 0 <= i < |a| ==> (a + b)[i] == a[i];
  }

  /** Every prefix of the sections has distinct keys if all of them do. */
  lemma {:induction false} SectionsDistinct(os: seq<ObjectDef>, n: nat, m: nat)
    requires n <= m && Distinct(ObjectKeys(Sections(os, m)))
    ensures Distinct(ObjectKeys(Sections(os, n)))
    decreases m - n
  {
    hide ObjectKey, InSection;
    if n < m {
      assert ObjectKeys(Sections(os, m)) == ObjectKeys(Sections(os, m - 1)) + ObjectKeys(InSection(os, m - 1));
      DistinctPrefix(ObjectKeys(Sections(os, m - 1)), ObjectKeys(InSection(os, m - 1)));
      SectionsDistinct(os, n, m - 1);
    }
  }

  lemma {:induction false} InSectionReadable(os: seq<ObjectDef>, n: nat, rd: Reader)
    requires AllReadable(os, rd)
    ensures AllReadable(InSection(os, n), rd)
  {
    hide Readable, Section;
    if os != [] { InSectionReadable(os[1..], n, rd); }
  }

  /** Replaying section n after the sections before it. */
  lemma ReplaySection(d: Database, os: seq<ObjectDef>, n: nat, rd: Reader)
    requires n < SECTIONS && d.objects == Sections(os, n)
    requires AllReadable(os, rd) && Distinct(ObjectKeys(Regrouped(os)))
    ensures RunP(d, SectionStatements(os, n, rd)) == Ran(d.(objects := Sections(os, n + 1)), Done)
  {
    hide Sections, InSection, AllStatements, RunP, AllReadable, Distinct, ObjectKeys;
    SectionsDistinct(os, n + 1, SECTIONS);
    SectionsStep(os, n + 1);
    InSectionReadable(os, n, rd);
    ReplayObjects(d, InSection(os, n), rd);
  }

  /** A run that succeeds, followed by another. */
  lemma RunThen(d: Database, a: seq<Statement>, d1: Database, b: seq<Statement>, d2: Database)
    requires RunP(d, a) == Ran(d1, Done) && RunP(d1, b) == Ran(d2, Done)
    ensures RunP(d, a + b) == Ran(d2, Done)
  {
    RunAppend(d, a, b);
  }

  /** When the texts still say what the schema says, the script rebuilds it. */
  lemma ReplayRebuilds(d: Database, rd: Reader)
    requires Replayable(d, rd)
    ensures RunP(EMPTY, Decompile(d, rd)) == Ran(Regroup(d), Done)
  {
    RegroupReplayable(d, rd);
    ReplayFirstHalf(d, rd);
    ReplaySecondHalf(d, rd);
    RunThen(EMPTY, FirstHalf(d, rd), HalfWay(d), SecondHalf(d, rd), Regroup(d));
    HalvesAre(d, rd);
  }

  function FirstHalf(d: Database, rd: Reader): seq<Statement> {
    SectionStatements(d.objects, 0, rd) + SectionStatements(d.objects, 1, rd)
    + SequenceStatements(d.sequences) + TypeStatements(d.types)
    + SectionStatements(d.objects, 2, rd) + SectionStatements(d.objects, 3, rd)
    + TableStatements(d.tables) + SectionStatements(d.objects, 4, rd)
  }

  function SecondHalf(d: Database, rd: Reader): seq<Statement> {
    IndexStatements(d.indexes)
    + SectionStatements(d.objects, 5, rd) + SectionStatements(d.objects, 6, rd)
    + SectionStatements(d.objects, 7, rd) + SectionStatements(d.objects, 8, rd)
    + TruncateStatements(d.truncates) + UnknownStatements(d.unknowns)
  }

  function HalfWay(d: Database): Database {
    EMPTY.(objects := Sections(d.objects, 5), sequences := d.sequences, types := d.types, tables := d.tables)
  }

  lemma HalvesAre(d: Database, rd: Reader)
    ensures Decompile(d, rd) == FirstHalf(d, rd) + SecondHalf(d, rd)
  {
    var os := d.objects;
    Associate(FirstHalf(d, rd), IndexStatements(d.indexes), SectionStatements(os, 5, rd), SectionStatements(os, 6, rd),
              SectionStatements(os, 7, rd), SectionStatements(os, 8, rd), TruncateStatements(d.truncates),
              UnknownStatements(d.unknowns));
    hide SectionStatements, IndexStatements, TruncateStatements, UnknownStatements, SequenceStatements, TypeStatements,
         TableStatements;
  }

  lemma Associate<T>(h: seq<T>, a: seq<T>, b: seq<T>, c: seq<T>, e: seq<T>, f: seq<T>, g: seq<T>, i: seq<T>)
    ensures h + a + b + c + e + f + g + i == h + (a + b + c + e + f + g + i)
  {
    assert h + a + b == h + (a + b);
    assert h + (a + b) + c == h + (a + b + c);
    assert h + (a + b + c) + e == h + (a + b + c + e);
    assert h + (a + b + c + e) + f == h + (a + b + c + e + f);
    assert h + (a + b + c + e + f) + g == h + (a + b + c + e + f + g);
    assert h + (a + b + c + e + f + g) + i == h + (a + b + c + e + f + g + i);
  }

  lemma ReplayFirstHalf(d: Database, rd: Reader)
    requires Replayable(d, rd) && Distinct(ObjectKeys(Regrouped(d.objects)))
    ensures RunP(EMPTY, FirstHalf(d, rd)) == Ran(HalfWay(d), Done)
  {
    var os := d.objects;
    var o0, o1 := SectionStatements(os, 0, rd), SectionStatements(os, 1, rd);
    var o2, o3, o4 := SectionStatements(os, 2, rd), SectionStatements(os, 3, rd), SectionStatements(os, 4, rd);
    var ss, es, ts := SequenceStatements(d.sequences), TypeStatements(d.types), TableStatements(d.tables);
    assert FirstHalf(d, rd) == o0 + o1 + ss + es + o2 + o3 + ts + o4;
    assert Sections(os, 0) == [];
    assert [] + d.sequences == d.sequences && [] + d.types == d.types && [] + d.tables == d.tables;
    hide RunP, SectionStatements, SequenceStatements, TypeStatements, TableStatements, Sections, InSection, FirstHalf;
    var d1 := EMPTY.(objects := Sections(os, 1));
    ReplaySection(EMPTY, os, 0, rd);
    var d2 := EMPTY.(objects := Sections(os, 2));
    ReplaySection(d1, os, 1, rd);
    RunThen(EMPTY, o0, d1, o1, d2);
    var d3 := d2.(sequences := d.sequences);
    ReplaySequences(d2, d.sequences);
    RunThen(EMPTY, o0 + o1, d2, ss, d3);
    var d4 := d3.(types := d.types);
    ReplayTypes(d3, d.types);
    RunThen(EMPTY, o0 + o1 + ss, d3, es, d4);
    var d5 := d4.(objects := Sections(os, 3));
    ReplaySection(d4, os, 2, rd);
    RunThen(EMPTY, o0 + o1 + ss + es, d4, o2, d5);
    var d6 := d5.(objects := Sections(os, 4));
    ReplaySection(d5, os, 3, rd);
    RunThen(EMPTY, o0 + o1 + ss + es + o2, d5, o3, d6);
    var d7 := d6.(tables := d.tables);
    ReplayTables(d6, d.tables);
    RunThen(EMPTY, o0 + o1 + ss + es + o2 + o3, d6, ts, d7);
    ReplaySection(d7, os, 4, rd);
    RunThen(EMPTY, o0 + o1 + ss + es + o2 + o3 + ts, d7, o4, HalfWay(d));
  }

  lemma ReplaySecondHalf(d: Database, rd: Reader)
    requires Replayable(d, rd) && Distinct(ObjectKeys(Regrouped(d.objects)))
    ensures RunP(HalfWay(d), SecondHalf(d, rd)) == Ran(Regroup(d), Done)
  {
    var os := d.objects;
    var start := HalfWay(d);
    var xs, ts, us := IndexStatements(d.indexes), TruncateStatements(d.truncates), UnknownStatements(d.unknowns);
    var o5, o6 := SectionStatements(os, 5, rd), SectionStatements(os, 6, rd);
    var o7, o8 := SectionStatements(os, 7, rd), SectionStatements(os, 8, rd);
    assert SecondHalf(d, rd) == xs + o5 + o6 + o7 + o8 + ts + us;
    assert [] + d.indexes == d.indexes && [] + d.truncates == d.truncates && [] + d.unknowns == d.unknowns;
    hide RunP, SectionStatements, IndexStatements, TruncateStatements, UnknownStatements, Sections, InSection, SecondHalf;
    var d1 := start.(indexes := d.indexes);
    ReplayIndexes(start, d.indexes);
    var d2 := d1.(objects := Sections(os, 6));
    ReplaySection(d1, os, 5, rd);
    RunThen(start, xs, d1, o5, d2);
    var d3 := d1.(objects := Sections(os, 7));
    ReplaySection(d2, os, 6, rd);
    RunThen(start, xs + o5, d2, o6, d3);
    var d4 := d1.(objects := Sections(os, 8));
    ReplaySection(d3, os, 7, rd);
    RunThen(start, xs + o5 + o6, d3, o7, d4);
    var d5 := d1.(objects := Sections(os, 9));
    ReplaySection(d4, os, 8, rd);
    RunThen(start, xs + o5 + o6 + o7, d4, o8, d5);
    var d6 := d5.(truncates := d.truncates);
    ReplayTruncates(d5, d.truncates);
    RunThen(start, xs + o5 + o6 + o7 + o8, d5, ts, d6);
    ReplayUnknowns(d6, d.unknowns);
    RunThen(start, xs + o5 + o6 + o7 + o8 + ts, d6, us, Regroup(d));
  }
}
