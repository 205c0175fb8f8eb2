/** The position maps stay the inverses of their lists, exactly as long as no
    rename lands on a key in use; and while they do, the indexed schema behaves
    as the bare lists. */
module Refinement {
  import opened Text
  import opened Ast
  import opened Positions
  import opened Catalog
  import opened Indexed
  import opened Plain

  /** Each of the six maps is the inverse of its list. */
  ghost predicate Consistent(x: Schema) {
    && Inverse(TableKeys(x.db.tables), x.at.tables)
    && Inverse(SequenceKeys(x.db.sequences), x.at.sequences)
    && Inverse(TypeKeys(x.db.types), x.at.types)
    && Inverse(IndexKeys(x.db.indexes), x.at.indexes)
    && Inverse(ObjectKeys(x.db.objects), x.at.objects)
    && Inverse(TruncateKeys(x.db.truncates), x.at.truncates)
  }

  // ---- When a statement is safe ----

  /** Target keys of the renames that run, up to the first action that fails. */
  function RenamesRun(t: TableDef, actions: seq<Action>): seq<string>
    decreases |actions|
  {
    if actions == [] then []
    else if actions[0].RenameTo? then
      [NormIdent(actions[0].newName)] + RenamesRun(RenameTable(t, actions[0].newName), actions[1..])
    else
      match TableAction(t, actions[0])
      case Refused(_) => []
      case Changed(t') => RenamesRun(t', actions[1..])
  }

  /** Renaming oldKey to newKey within keys: impossible, or to a usable key. */
  predicate FreeTarget(keys: seq<string>, oldKey: string, newKey: string) {
    oldKey in keys ==> newKey == oldKey || newKey !in keys
  }

  /** What a caller must check before a statement for the maps to stay right. */
  predicate NoCollision(d: Database, s: Statement) {
    match s
    case AlterTable(name, actions) =>
      var p := Find(TableKeys(d.tables), NormIdent(name));
      p >= 0 ==> RenamesSafe(TableKeys(d.tables), NormIdent(name), RenamesRun(d.tables[p], actions))
    case AlterIndex(name, newName) => FreeTarget(IndexKeys(d.indexes), NormIdent(name), NormIdent(newName))
    case AlterSequence(name, newName) => FreeTarget(SequenceKeys(d.sequences), NormIdent(name), NormIdent(newName))
    case AlterType(name, RenameType(newName)) =>
      if NormIdent(name) in TypeKeys(d.types) then FreeTarget(TypeKeys(d.types), NormIdent(name), NormIdent(newName))
      else
        ObjectKey(TypeKind, name) in ObjectKeys(d.objects) ==>
          && FreeTarget(ObjectKeys(d.objects), ObjectKey(TypeKind, name), ObjectKey(TypeKind, newName))
          && ObjectKey(TypeKind, newName) == ObjectKey(TypeKind, NormIdent(newName))
    case AlterObject(kind, oldName, newName) =>
      FreeTarget(ObjectKeys(d.objects), ObjectKey(kind, oldName), ObjectKey(kind, newName))
    case _ => true
  }

  /** The indexed result is consistent exactly when `safe`, and has the outcome
      and the lists of the plain result. */
  ghost predicate Refines(r: Ran<Schema>, q: Ran<Database>, safe: bool) {
    r.outcome == q.outcome && r.state.db == q.state && (Consistent(r.state) <==> safe)
  }

  lemma CreateTableRefines(x: Schema, t: TableDef)
    requires Consistent(x)
    ensures Refines(CreateTableX(x, t), CreateTableP(x.db, t), true)
  {
    hide Inverse, FindFrom;
    var keys, key := TableKeys(x.db.tables), NormIdent(t.name);
    LookupIsFind(keys, x.at.tables, key);
    if key !in x.at.tables {
      InverseAppend(keys, x.at.tables, key);
      assert TableKeys(x.db.tables + [t]) == keys + [key];
    }
  }

  lemma CreateSequenceRefines(x: Schema, s: SequenceDef)
    requires Consistent(x)
    ensures Refines(CreateSequenceX(x, s), CreateSequenceP(x.db, s), true)
  {
    hide Inverse, FindFrom;
    var keys, key := SequenceKeys(x.db.sequences), NormIdent(s.name);
    LookupIsFind(keys, x.at.sequences, key);
    if key !in x.at.sequences {
      InverseAppend(keys, x.at.sequences, key);
      assert SequenceKeys(x.db.sequences + [s]) == keys + [key];
    }
  }

  lemma CreateTypeRefines(x: Schema, e: EnumDef)
    requires Consistent(x)
    ensures Refines(CreateTypeX(x, e), CreateTypeP(x.db, e), true)
  {
    hide Inverse, FindFrom;
    var keys, key := TypeKeys(x.db.types), NormIdent(e.name);
    LookupIsFind(keys, x.at.types, key);
    if key !in x.at.types {
      InverseAppend(keys, x.at.types, key);
      assert TypeKeys(x.db.types + [e]) == keys + [key];
    }
  }

  lemma CreateIndexRefines(x: Schema, d: IndexDef)
    requires Consistent(x)
    ensures Refines(CreateIndexX(x, d), CreateIndexP(x.db, d), true)
  {
    hide Inverse, FindFrom;
    var keys, key := IndexKeys(x.db.indexes), NormIdent(d.name);
    LookupIsFind(keys, x.at.indexes, key);
    if key !in x.at.indexes {
      InverseAppend(keys, x.at.indexes, key);
      assert IndexKeys(x.db.indexes + [d]) == keys + [key];
    } else {
      assert IndexKeys(x.db.indexes[x.at.indexes[key] := d]) == keys;
    }
  }

  lemma DropIndexRefines(x: Schema, name: string, ifExists: bool)
    requires Consistent(x)
    ensures Refines(DropIndexX(x, name, ifExists), DropIndexP(x.db, name, ifExists), true)
  {
    hide Reindex, NormIdent, ObjectKey, Inverse, FindFrom;
    var keys, key := IndexKeys(x.db.indexes), NormIdent(name);
    LookupIsFind(keys, x.at.indexes, key);
    if key in x.at.indexes {
      var p := x.at.indexes[key];
      InverseRemove(keys, x.at.indexes, p);
      assert IndexKeys(RemoveAt(x.db.indexes, p)) == RemoveAt(keys, p);
    }
  }

  lemma AlterIndexRefines(x: Schema, name: string, newName: string)
    requires Consistent(x)
    ensures Refines(AlterIndexX(x, name, newName), AlterIndexP(x.db, name, newName), FreeTarget(IndexKeys(x.db.indexes), NormIdent(name), NormIdent(newName)))
  {
    hide Inverse, FindFrom;
    var keys, key := IndexKeys(x.db.indexes), NormIdent(name);
    LookupIsFind(keys, x.at.indexes, key);
    LookupIsFind(keys, x.at.indexes, NormIdent(newName));
    if key in x.at.indexes {
      var p := x.at.indexes[key];
      InverseRename(keys, x.at.indexes, p, NormIdent(newName));
      assert IndexKeys(x.db.indexes[p := x.db.indexes[p].(name := newName)]) == keys[p := NormIdent(newName)];
    }
  }

  lemma DropSequenceRefines(x: Schema, name: string, ifExists: bool)
    requires Consistent(x)
    ensures Refines(DropSequenceX(x, name, ifExists), DropSequenceP(x.db, name, ifExists), true)
  {
    hide Reindex, NormIdent, ObjectKey, Inverse, FindFrom;
    var keys, key := SequenceKeys(x.db.sequences), NormIdent(name);
    LookupIsFind(keys, x.at.sequences, key);
    if key in x.at.sequences {
      var p := x.at.sequences[key];
      InverseRemove(keys, x.at.sequences, p);
      assert SequenceKeys(RemoveAt(x.db.sequences, p)) == RemoveAt(keys, p);
    }
  }

  lemma AlterSequenceRefines(x: Schema, name: string, newName: string)
    requires Consistent(x)
    ensures Refines(AlterSequenceX(x, name, newName), AlterSequenceP(x.db, name, newName), FreeTarget(SequenceKeys(x.db.sequences), NormIdent(name), NormIdent(newName)))
  {
    hide Inverse, FindFrom;
    var keys, key := SequenceKeys(x.db.sequences), NormIdent(name);
    LookupIsFind(keys, x.at.sequences, key);
    LookupIsFind(keys, x.at.sequences, NormIdent(newName));
    if key in x.at.sequences {
      var p := x.at.sequences[key];
      InverseRename(keys, x.at.sequences, p, NormIdent(newName));
      assert SequenceKeys(x.db.sequences[p := x.db.sequences[p].(name := newName)]) == keys[p := NormIdent(newName)];
    }
  }

  lemma AlterSequenceOptsRefines(x: Schema, name: string, opts: seq<SeqOption>)
    requires Consistent(x)
    ensures Refines(AlterSequenceOptsX(x, name, opts), AlterSequenceOptsP(x.db, name, opts), true)
  {
    hide Inverse, FindFrom;
    var keys, key := SequenceKeys(x.db.sequences), NormIdent(name);
    LookupIsFind(keys, x.at.sequences, key);
    hide ApplyOptions;
    if key in x.at.sequences {
      var p := x.at.sequences[key];
      var s := x.db.sequences[p];
      assert SequenceKeys(x.db.sequences[p := s.(body := ApplyOptions(s.body, opts))]) == keys;
    }
  }

  lemma RemoveObjectConsistent(x: Schema, key: string)
    requires Consistent(x) && key in x.at.objects
    ensures x.at.objects[key] < |x.db.objects| && Consistent(RemoveObject(x, key, x.at.objects[key]))
    ensures RemoveObject(x, key, x.at.objects[key]).db == x.db.(objects := RemoveAt(x.db.objects, x.at.objects[key]))
  {
    hide Reindex, NormIdent, ObjectKey, Inverse, FindFrom;
    var keys, p := ObjectKeys(x.db.objects), x.at.objects[key];
    LookupIsFind(keys, x.at.objects, key);
    InverseRemove(keys, x.at.objects, p);
    assert ObjectKeys(RemoveAt(x.db.objects, p)) == RemoveAt(keys, p);
  }

  lemma DropObjectRefines(x: Schema, kind: ObjectKind, name: string, ifExists: bool)
    requires Consistent(x)
    ensures Refines(DropObjectX(x, kind, name, ifExists), DropObjectP(x.db, kind, name, ifExists), true)
  {
    hide Reindex, NormIdent, ObjectKey, FindFrom, KindText, Inverse, RemoveAt;
    var key := ObjectKey(kind, name);
    LookupIsFind(ObjectKeys(x.db.objects), x.at.objects, key);
    hide RemoveObject, ObjectKeys;
    if key in x.at.objects { RemoveObjectConsistent(x, key); }
  }

  lemma SameObjectKeys(os: seq<ObjectDef>, p: nat, o: ObjectDef)
    requires p < |os| && o.kind == os[p].kind && o.name == os[p].name
    ensures ObjectKeys(os[p := o]) == ObjectKeys(os)
  {
    hide ObjectKey;
  }

  lemma MoreObjectKeys(os: seq<ObjectDef>, o: ObjectDef)
    ensures ObjectKeys(os + [o]) == ObjectKeys(os) + [ObjectKey(o.kind, o.name)]
  {
    hide ObjectKey;
  }

  lemma CreateObjectRefines(x: Schema, kind: ObjectKind, name: string, orReplace: bool, sql: string)
    requires Consistent(x)
    ensures Refines(CreateObjectX(x, kind, name, orReplace, sql), CreateObjectP(x.db, kind, name, orReplace, sql), true)
  {
    hide Inverse, FindFrom, ObjectKey, KindText, ObjectKeys;
    var keys, key := ObjectKeys(x.db.objects), ObjectKey(kind, name);
    var os := x.db.objects;
    LookupIsFind(keys, x.at.objects, key);
    ObjectKeysLength(os);
    if key !in x.at.objects {
      InverseAppend(keys, x.at.objects, key);
      MoreObjectKeys(os, ObjectDef(kind, name, sql, []));
    } else {
      var p := x.at.objects[key];
      SameObjectKeys(os, p, os[p].(sql := sql, postAlters := []));
    }
  }

  lemma ObjectKeysLength(os: seq<ObjectDef>)
    ensures |ObjectKeys(os)| == |os|
  {
  }

  lemma AlterObjectRefines(x: Schema, kind: ObjectKind, oldName: string, newName: string)
    requires Consistent(x)
    ensures Refines(AlterObjectX(x, kind, oldName, newName), AlterObjectP(x.db, kind, oldName, newName), FreeTarget(ObjectKeys(x.db.objects), ObjectKey(kind, oldName), ObjectKey(kind, newName)))
  {
    hide Inverse, FindFrom;
    var keys, key, newKey := ObjectKeys(x.db.objects), ObjectKey(kind, oldName), ObjectKey(kind, newName);
    var os := x.db.objects;
    LookupIsFind(keys, x.at.objects, key);
    LookupIsFind(keys, x.at.objects, newKey);
    if key in x.at.objects {
      var p := x.at.objects[key];
      KeyTellsKind(kind, oldName, os[p].kind, os[p].name);
      InverseRename(keys, x.at.objects, p, newKey);
      assert ObjectKeys(os[p := os[p].(name := newName)]) == keys[p := newKey];
    }
  }

  lemma AttachRefines(x: Schema, kind: ObjectKind, name: string, sql: string)
    requires Consistent(x)
    ensures Refines(AttachX(x, kind, name, sql), AttachP(x.db, kind, name, sql), true)
  {
    hide Inverse, FindFrom;
    var keys, key := ObjectKeys(x.db.objects), ObjectKey(kind, name);
    var os := x.db.objects;
    LookupIsFind(keys, x.at.objects, key);
    if key in x.at.objects {
      var p := x.at.objects[key];
      assert ObjectKeys(os[p := os[p].(postAlters := os[p].postAlters + [sql])]) == keys;
    }
  }

  lemma TruncateRefines(x: Schema, t: Truncate)
    requires Consistent(x)
    ensures Refines(TruncateX(x, t), TruncateP(x.db, t), true)
  {
    hide Inverse, FindFrom;
    var keys, key := TruncateKeys(x.db.truncates), TruncateKey(t);
    LookupIsFind(keys, x.at.truncates, key);
    if key !in x.at.truncates {
      InverseAppend(keys, x.at.truncates, key);
      assert TruncateKeys(x.db.truncates + [t]) == keys + [key];
    } else {
      assert TruncateKeys(x.db.truncates[x.at.truncates[key] := t]) == keys;
    }
  }

  lemma RemoveTypeConsistent(x: Schema, key: string)
    requires Consistent(x) && key in x.at.types
    ensures var p := x.at.types[key];
            p < |x.db.types| &&
            var types := RemoveAt(x.db.types, p);
            Consistent(Schema(x.db.(types := types), x.at.(types := Reindex(TypeKeys(types), x.at.types - {key}, p))))
  {
    hide Reindex, NormIdent, ObjectKey, Inverse, FindFrom;
    var keys, p := TypeKeys(x.db.types), x.at.types[key];
    LookupIsFind(keys, x.at.types, key);
    InverseRemove(keys, x.at.types, p);
    assert TypeKeys(RemoveAt(x.db.types, p)) == RemoveAt(keys, p);
  }

  lemma DropTypeRefines(x: Schema, name: string, ifExists: bool)
    requires Consistent(x)
    ensures Refines(DropTypeX(x, name, ifExists), DropTypeP(x.db, name, ifExists), true)
  {
    hide Reindex, NormIdent, ObjectKey, Inverse, FindFrom, RemoveAt, RemoveObject;
    var key, objKey := NormIdent(name), ObjectKey(TypeKind, name);
    LookupIsFind(TypeKeys(x.db.types), x.at.types, key);
    LookupIsFind(ObjectKeys(x.db.objects), x.at.objects, objKey);
    hide TypeKeys, ObjectKeys;
    if key in x.at.types {
      RemoveTypeConsistent(x, key);
    } else if objKey in x.at.objects {
      RemoveObjectConsistent(x, objKey);
    }
  }

  lemma AlterTypeRefines(x: Schema, name: string, a: TypeAction)
    requires Consistent(x)
    ensures Refines(AlterTypeX(x, name, a), AlterTypeP(x.db, name, a), NoCollision(x.db, AlterType(name, a)))
  {
    hide NormIdent, Patterns.ReplaceTypeName, LabelAction, Find;
    LookupIsFind(TypeKeys(x.db.types), x.at.types, NormIdent(name));
    LookupIsFind(ObjectKeys(x.db.objects), x.at.objects, ObjectKey(TypeKind, name));
    if NormIdent(name) in x.at.types {
      AlterEnumRefines(x, name, a);
    } else if a.RenameType? && ObjectKey(TypeKind, name) in x.at.objects {
      RenameCompositeRefines(x, name, a.newName);
    }
  }

  lemma AlterEnumRefines(x: Schema, name: string, a: TypeAction)
    requires Consistent(x) && NormIdent(name) in x.at.types
    ensures Refines(AlterTypeX(x, name, a), AlterTypeP(x.db, name, a),
                    a.RenameType? ==> FreeTarget(TypeKeys(x.db.types), NormIdent(name), NormIdent(a.newName)))
  {
    hide Inverse, FindFrom;
    var keys, key := TypeKeys(x.db.types), NormIdent(name);
    var p := x.at.types[key];
    LookupIsFind(keys, x.at.types, key);
    hide NormIdent, LabelAction, Find;
    match a
    case RenameType(newName) =>
      var newKey := NormIdent(newName);
      LookupIsFind(keys, x.at.types, newKey);
      InverseRename(keys, x.at.types, p, newKey);
      assert TypeKeys(x.db.types[p := x.db.types[p].(name := newName)]) == keys[p := newKey];
    case _ =>
      match LabelAction(x.db.types[p].labels, a)
      case Refused(_) =>
      case Changed(labels) =>
        assert TypeKeys(x.db.types[p := x.db.types[p].(labels := labels)]) == keys;
  }

  /** A composite type is stored under one key and indexed under another when
      the raw and the normalised new name differ. */
  lemma RenameCompositeRefines(x: Schema, name: string, newName: string)
    requires Consistent(x) && NormIdent(name) !in x.at.types && ObjectKey(TypeKind, name) in x.at.objects
    ensures Refines(AlterTypeX(x, name, RenameType(newName)), AlterTypeP(x.db, name, RenameType(newName)),
                    && FreeTarget(ObjectKeys(x.db.objects), ObjectKey(TypeKind, name), ObjectKey(TypeKind, newName))
                    && ObjectKey(TypeKind, newName) == ObjectKey(TypeKind, NormIdent(newName)))
  {
    hide NormIdent, Patterns.ReplaceTypeName, FindFrom, Inverse, ObjectKeys, TypeKeys, RenamedType, KindText;
    var key := ObjectKey(TypeKind, name);
    var p := x.at.objects[key];
    LookupIsFind(TypeKeys(x.db.types), x.at.types, NormIdent(name));
    LookupIsFind(ObjectKeys(x.db.objects), x.at.objects, key);
    ObjectKeysLength(x.db.objects);
    hide ObjectKey, FreeTarget;
    RenamedCompositeInverse(x.db.objects, x.at.objects, name, newName);
  }

  lemma RenamedCompositeInverse(os: seq<ObjectDef>, m: Index, name: string, newName: string)
    requires Inverse(ObjectKeys(os), m) && ObjectKey(TypeKind, name) in m
    ensures var key, newKey, p := ObjectKey(TypeKind, name), ObjectKey(TypeKind, newName), m[ObjectKey(TypeKind, name)];
            p < |os| &&
            (Inverse(ObjectKeys(os[p := RenamedType(os[p], name, newName)]), (m - {key})[newKey := p]) <==>
             FreeTarget(ObjectKeys(os), key, newKey) && newKey == ObjectKey(TypeKind, NormIdent(newName)))
  {
    var keys, key := ObjectKeys(os), ObjectKey(TypeKind, name);
    var newKey, storedKey := ObjectKey(TypeKind, newName), ObjectKey(TypeKind, NormIdent(newName));
    var p := m[key];
    LookupIsFind(keys, m, key);
    LookupIsFind(keys, m, newKey);
    KeyTellsKind(TypeKind, name, os[p].kind, os[p].name);
    hide NormIdent, Patterns.ReplaceTypeName, FindFrom, ObjectKey;
    var os' := os[p := RenamedType(os[p], name, newName)];
    assert ObjectKeys(os') == keys[p := storedKey];
    var m' := (m - {key})[newKey := p];
    if newKey == storedKey {
      InverseRename(keys, m, p, newKey);
    } else {
      assert m'[newKey] == p && ObjectKeys(os')[p] == storedKey;
    }
  }

  // ---- ALTER TABLE ----

  /** The state after the actions, apart from the row of position-map updates. */
  lemma {:induction false} ActionsRun(x: Schema, p: nat, oldKey: string, actions: seq<Action>)
    requires p < |x.db.tables|
    ensures var r, q := ActionsX(x, p, oldKey, actions), ActionsP(x.db, p, oldKey, actions);
            var targets := RenamesRun(x.db.tables[p], actions);
            && r.outcome == q.outcome && r.state.db == q.state
            && r.state.at == x.at.(tables := RenameEntries(x.at.tables, oldKey, p, targets))
            && |r.state.db.tables| == |x.db.tables|
            && r.state.db == x.db.(tables := x.db.tables[p := r.state.db.tables[p]], indexes := r.state.db.indexes)
            && IndexKeys(r.state.db.indexes) == IndexKeys(x.db.indexes)
            && NormIdent(r.state.db.tables[p].name) ==
               (if targets == [] then NormIdent(x.db.tables[p].name) else targets[|targets| - 1])
    decreases |actions|
  {
    hide NormIdent, TableAction, RenameTable;
    if actions != [] {
      var t := x.db.tables[p];
      if actions[0].RenameTo? {
        var newName := actions[0].newName;
        var x' := RenameTableX(x, p, oldKey, newName);
        RenameKeepsName(t, newName);
        assert IndexKeys(x'.db.indexes) == IndexKeys(x.db.indexes);
        ActionsRun(x', p, oldKey, actions[1..]);
      } else {
        match TableAction(t, actions[0])
        case Refused(_) =>
        case Changed(t') =>
          ActionKeepsName(t, actions[0]);
          ActionsRun(x.(db := x.db.(tables := x.db.tables[p := t'])), p, oldKey, actions[1..]);
      }
    }
  }

  lemma RenameKeepsName(t: TableDef, newName: string)
    ensures RenameTable(t, newName).name == newName
  {
  }

  lemma ActionKeepsName(t: TableDef, a: Action)
    requires !a.RenameTo? && TableAction(t, a).Changed?
    ensures TableAction(t, a).value.name == t.name
  {
    hide ReplaceOrAppendInline, RemoveInline, SetIdentity, DropAutoNamed, Find, NormIdent, RenameInConstraints;
  }

  /** The rows of actions leave the maps inverse exactly when they are safe. */
  lemma ActionsConsistent(x: Schema, p: nat, actions: seq<Action>)
    requires Consistent(x) && p < |x.db.tables|
    ensures var keys := TableKeys(x.db.tables);
            Consistent(ActionsX(x, p, keys[p], actions).state) <==>
            RenamesSafe(keys, keys[p], RenamesRun(x.db.tables[p], actions))
  {
    hide NormIdent, ActionsX, ActionsP, RenamesRun, RenameEntries, RenamesSafe, Inverse;
    var keys := TableKeys(x.db.tables);
    var key, targets := keys[p], RenamesRun(x.db.tables[p], actions);
    ActionsRun(x, p, key, actions);
    var y := ActionsX(x, p, key, actions).state;
    TableKeysUpdate(x.db.tables, p, y.db.tables[p]);
    hide TableKeys;
    if targets == [] {
      NoEntries(x.at.tables, key, p);
      NoTargets(keys, key);
      assert keys[p := keys[p]] == keys;
    } else {
      InverseRenames(keys, x.at.tables, p, targets);
    }
  }

  lemma TableKeysUpdate(ts: seq<TableDef>, p: nat, t: TableDef)
    requires p < |ts|
    ensures |TableKeys(ts)| == |ts| && TableKeys(ts)[p] == NormIdent(ts[p].name)
    ensures TableKeys(ts[p := t]) == TableKeys(ts)[p := NormIdent(t.name)]
  {
    hide NormIdent;
  }

  lemma AlterTableRefines(x: Schema, name: string, actions: seq<Action>)
    requires Consistent(x)
    ensures Refines(AlterTableX(x, name, actions), AlterTableP(x.db, name, actions),
                    NoCollision(x.db, AlterTable(name, actions)))
  {
    var keys, key := TableKeys(x.db.tables), NormIdent(name);
    LookupIsFind(keys, x.at.tables, key);
    if key in x.at.tables {
      var p := x.at.tables[key];
      assert keys[p] == key;
      hide NormIdent, ActionsX, ActionsP, RenamesRun, RenamesSafe, Inverse, FindFrom, Consistent, TableKeys;
      ActionsConsistent(x, p, actions);
      ActionsRun(x, p, key, actions);
    }
  }

  lemma NoEntries(m: Index, first: string, i: nat)
    ensures RenameEntries(m, first, i, []) == m
  {
  }

  lemma NoTargets(keys: seq<string>, first: string)
    ensures RenamesSafe(keys, first, [])
  {
  }

  // ---- DROP TABLE ----

  lemma IndexKeysHead(x: IndexDef, rest: seq<IndexDef>)
    ensures IndexKeys([x] + rest) == [NormIdent(x.name)] + IndexKeys(rest)
  {
    hide NormIdent;
  }

  lemma HeadIsNew(keys: seq<string>)
    requires Distinct(keys) && keys != []
    ensures keys[0] !in keys[1..] && Distinct(keys[1..])
  {
  }

  lemma DistinctCons(k: string, keys: seq<string>)
    ensures Distinct([k] + keys) <==> k !in keys && Distinct(keys)
  {
    var all := [k] + keys;
    assert all[1..] == keys;
    if Distinct(all) { HeadIsNew(all); }
    assert forall i :: 0 < i < |all| ==> all[i] == keys[i - 1];
  }

  lemma WithoutTableStep(x: IndexDef, rest: seq<IndexDef>, key: string)
    ensures WithoutTable([x] + rest, key) ==
            if NormIdent(x.tableName) != key then [x] + WithoutTable(rest, key) else WithoutTable(rest, key)
  {
    hide NormIdent;
    assert ([x] + rest)[1..] == rest;
    assert [] + WithoutTable(rest, key) == WithoutTable(rest, key);
  }

  /** Removing elements leaves the keys of the others distinct. */
  lemma {:induction false} WithoutTableKeys(xs: seq<IndexDef>, key: string)
    requires Distinct(IndexKeys(xs))
    ensures Distinct(IndexKeys(WithoutTable(xs, key)))
    ensures forall k :: k in IndexKeys(WithoutTable(xs, key)) ==> k in IndexKeys(xs)
    decreases |xs|
  {
    if xs == [] {
      assert WithoutTable(xs, key) == xs;
    } else {
      hide NormIdent, IndexKeys, WithoutTable, Distinct;
      var x, rest := xs[0], xs[1..];
      var kept := WithoutTable(rest, key);
      assert xs == [x] + rest;
      WithoutTableStep(x, rest, key);
      IndexKeysHead(x, rest);
      IndexKeysHead(x, kept);
      DistinctCons(NormIdent(x.name), IndexKeys(rest));
      DistinctCons(NormIdent(x.name), IndexKeys(kept));
      WithoutTableKeys(rest, key);
    }
  }

  lemma RemoveTableConsistent(x: Schema, key: string)
    requires Consistent(x) && key in x.at.tables
    ensures Consistent(RemoveTable(x, key, x.at.tables[key]))
  {
    hide Inverse, FindFrom;
    var keys, p := TableKeys(x.db.tables), x.at.tables[key];
    hide NormIdent, Reindex, WithoutTable;
    LookupIsFind(keys, x.at.tables, key);
    InverseRemove(keys, x.at.tables, p);
    assert TableKeys(RemoveAt(x.db.tables, p)) == RemoveAt(keys, p);
    RebuiltIndexes(x.db.indexes, x.at.indexes, key);
  }

  lemma RebuiltIndexes(xs: seq<IndexDef>, m: Index, key: string)
    requires Inverse(IndexKeys(xs), m)
    ensures var keys := IndexKeys(WithoutTable(xs, key)); Inverse(keys, Reindex(keys, map[], 0))
  {
    InverseDistinct(IndexKeys(xs), m);
    WithoutTableKeys(xs, key);
    InverseRebuild(IndexKeys(WithoutTable(xs, key)));
  }

  lemma DropOneRefines(x: Schema, name: string, ifExists: bool)
    requires Consistent(x)
    ensures Refines(DropOneX(x, name, ifExists), DropOneP(x.db, name, ifExists), true)
  {
    hide Inverse, FindFrom;
    var key, partKey := NormIdent(name), ObjectKey(Partition, name);
    LookupIsFind(TableKeys(x.db.tables), x.at.tables, key);
    LookupIsFind(ObjectKeys(x.db.objects), x.at.objects, partKey);
    hide NormIdent, Reindex, WithoutTable, ObjectKey, FindFrom;
    if key in x.at.tables {
      RemoveTableConsistent(x, key);
    } else if partKey in x.at.objects {
      RemoveObjectConsistent(x, partKey);
    }
  }

  lemma {:induction false} DropTablesRefines(x: Schema, names: seq<string>, ifExists: bool)
    requires Consistent(x)
    ensures Refines(DropTablesX(x, names, ifExists), DropTablesP(x.db, names, ifExists), true)
    decreases |names|
  {
    hide DropOneX, DropOneP;
    if names != [] {
      DropOneRefines(x, names[0], ifExists);
      var r := DropOneX(x, names[0], ifExists);
      if r.outcome.Done? { DropTablesRefines(r.state, names[1..], ifExists); }
    }
  }

  // ---- Every statement, every run ----

  /** One statement: same outcome and same lists as linear search, and the maps
      stay inverse exactly when the statement has no collision. */
  lemma ApplyRefines(x: Schema, s: Statement)
    requires Consistent(x)
    ensures Refines(ApplyX(x, s), ApplyP(x.db, s), NoCollision(x.db, s))
  {
    if s.AlterIndex? || s.AlterSequence? || s.AlterObject? {
      RenamesRefine(x, s);
    } else {
      OthersRefine(x, s);
    }
  }

  lemma RenamesRefine(x: Schema, s: Statement)
    requires Consistent(x) && (s.AlterIndex? || s.AlterSequence? || s.AlterObject?)
    ensures Refines(ApplyX(x, s), ApplyP(x.db, s), NoCollision(x.db, s))
  {
    hide AlterIndexX, AlterSequenceX, AlterObjectX, AlterIndexP, AlterSequenceP, AlterObjectP, NormIdent, ObjectKey,
         FreeTarget, Consistent, IndexKeys, SequenceKeys, ObjectKeys;
    match s
    case AlterIndex(name, newName) => AlterIndexRefines(x, name, newName);
    case AlterSequence(name, newName) => AlterSequenceRefines(x, name, newName);
    case AlterObject(kind, oldName, newName) => AlterObjectRefines(x, kind, oldName, newName);
  }

  lemma PassThroughConsistent(x: Schema, raw: string)
    requires Consistent(x)
    ensures Consistent(x.(db := x.db.(unknowns := x.db.unknowns + [raw])))
  {
    hide Inverse;
  }

  lemma OthersRefine(x: Schema, s: Statement)
    requires Consistent(x) && !s.AlterIndex? && !s.AlterSequence? && !s.AlterObject?
    ensures Refines(ApplyX(x, s), ApplyP(x.db, s), NoCollision(x.db, s))
  {
    hide CreateTableX, AlterTableX, DropTablesX, CreateIndexX, DropIndexX, CreateSequenceX, DropSequenceX, CreateTypeX,
         DropTypeX, AlterTypeX, CreateObjectX, DropObjectX, AlterSequenceOptsX, AttachX, TruncateX, CreateTableP,
         AlterTableP, DropTablesP, CreateIndexP, DropIndexP, CreateSequenceP, DropSequenceP, CreateTypeP, DropTypeP,
         AlterTypeP, CreateObjectP, DropObjectP, AlterSequenceOptsP, AttachP, TruncateP, NormIdent, ObjectKey, FindFrom,
         RenamesSafe, RenamesRun, Inverse, FreeTarget, TableKeys, TypeKeys, ObjectKeys, IndexKeys, SequenceKeys,
         TruncateKeys, Consistent;
    match s
    case CreateTable(name, temporary, unlogged, columns, constraints, partitionBy) =>
      CreateTableRefines(x, TableDef(name, temporary, unlogged, columns, constraints, partitionBy));
    case AlterTable(name, actions) => AlterTableRefines(x, name, actions);
    case DropTable(names, ifExists) => DropTablesRefines(x, names, ifExists);
    case CreateIndex(name, tableName, unique, concurrently, ifNotExists, body) =>
      CreateIndexRefines(x, IndexDef(name, tableName, unique, concurrently, ifNotExists, body));
    case DropIndex(name, ifExists) => DropIndexRefines(x, name, ifExists);
    case CreateSequence(name, body) => CreateSequenceRefines(x, SequenceDef(name, body));
    case DropSequence(name, ifExists) => DropSequenceRefines(x, name, ifExists);
    case CreateType(name, labels) => CreateTypeRefines(x, EnumDef(name, labels));
    case DropType(name, ifExists) => DropTypeRefines(x, name, ifExists);
    case AlterType(name, action) => AlterTypeRefines(x, name, action);
    case CreateObject(kind, name, orReplace, sql) => CreateObjectRefines(x, kind, name, orReplace, sql);
    case DropObject(kind, name, ifExists) => DropObjectRefines(x, kind, name, ifExists);
    case AlterSequenceOpts(name, options) => AlterSequenceOptsRefines(x, name, options);
    case AlterFunctionOpts(kind, name, sql) => AttachRefines(x, kind, name, sql);
    case AlterObjectOpts(kind, name, sql) => AttachRefines(x, kind, name, sql);
    case TruncateTables(t) => TruncateRefines(x, t);
    case Unknown(raw) => PassThroughConsistent(x, raw);
  }

  /** No statement of the run collides, up to the first one that fails. */
  predicate NoCollisions(d: Database, ss: seq<Statement>)
    decreases |ss|
  {
    ss == [] ||
    (NoCollision(d, ss[0]) &&
     (ApplyP(d, ss[0]).outcome.Done? ==> NoCollisions(ApplyP(d, ss[0]).state, ss[1..])))
  }

  /** The representation invariant over every run, failed ones included, and the
      refinement of the whole run by the map-free lists. */
  lemma {:induction false} RunRefines(x: Schema, ss: seq<Statement>)
    requires Consistent(x) && NoCollisions(x.db, ss)
    ensures Refines(RunX(x, ss), RunP(x.db, ss), true)
    decreases |ss|
  {
    hide ApplyX, ApplyP, NoCollision;
    if ss != [] {
      ApplyRefines(x, ss[0]);
      var r := ApplyX(x, ss[0]);
      if r.outcome.Done? { RunRefines(r.state, ss[1..]); }
    }
  }

  /** From an empty schema nothing ever panics without a collision. */
  lemma ReachableConsistent(ss: seq<Statement>)
    requires NoCollisions(EMPTY, ss)
    ensures Refines(RunX(NEW, ss), RunP(EMPTY, ss), true)
    ensures !RunX(NEW, ss).outcome.Crashed?
  {
    RunRefines(NEW, ss);
    PlainNeverCrashes(EMPTY, ss);
  }

  lemma {:induction false} PlainActionsNeverCrash(d: Database, p: nat, oldKey: string, actions: seq<Action>)
    requires p < |d.tables|
    ensures !ActionsP(d, p, oldKey, actions).outcome.Crashed?
    decreases |actions|
  {
    hide TableAction, RenameTable, NormIdent;
    if actions != [] {
      if actions[0].RenameTo? {
        PlainActionsNeverCrash(RenameTableP(d, p, oldKey, actions[0].newName), p, oldKey, actions[1..]);
      } else {
        match TableAction(d.tables[p], actions[0])
        case Refused(_) =>
        case Changed(t) => PlainActionsNeverCrash(d.(tables := d.tables[p := t]), p, oldKey, actions[1..]);
      }
    }
  }

  lemma {:induction false} PlainDropNeverCrashes(d: Database, names: seq<string>, ifExists: bool)
    ensures !DropTablesP(d, names, ifExists).outcome.Crashed?
    decreases |names|
  {
    hide NormIdent, ObjectKey, WithoutTable, Find;
    if names != [] {
      PlainDropNeverCrashes(DropOneP(d, names[0], ifExists).state, names[1..], ifExists);
    }
  }

  lemma PlainStepNeverCrashes(d: Database, s: Statement)
    ensures !ApplyP(d, s).outcome.Crashed?
  {
    hide NormIdent, ObjectKey, TruncateKey, Find, ActionsP, DropTablesP, LabelAction, ApplyOptions;
    match s
    case AlterTable(name, actions) =>
      var p := Find(TableKeys(d.tables), NormIdent(name));
      if p >= 0 { PlainActionsNeverCrash(d, p, NormIdent(name), actions); }
    case DropTable(names, ifExists) => PlainDropNeverCrashes(d, names, ifExists);
    case _ =>
  }

  lemma {:induction false} PlainNeverCrashes(d: Database, ss: seq<Statement>)
    ensures !RunP(d, ss).outcome.Crashed?
    decreases |ss|
  {
    hide ApplyP;
    if ss != [] {
      PlainStepNeverCrashes(d, ss[0]);
      PlainNeverCrashes(ApplyP(d, ss[0]).state, ss[1..]);
    }
  }
}
