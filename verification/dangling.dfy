/** Indexes always belong to a live table: what creates, moves and removes them. */
module Dangling {
  import opened Text
  import opened Ast
  import opened Positions
  import opened Catalog
  import opened Indexed
  import opened Plain
  import opened Refinement
  import opened Absorption

  /** Every index names a live table. */
  ghost predicate NoDangling(d: Database) {
    forall i :: 0 <= i < |d.indexes| ==> NormIdent(d.indexes[i].tableName) in TableKeys(d.tables)
  }

  /** A CREATE INDEX that takes effect names a live table. */
  predicate Anchored(d: Database, s: Statement) {
    s.CreateIndex? ==>
      || NormIdent(s.tableName) in TableKeys(d.tables)
      || (s.ifNotExists && NormIdent(s.indexName) in IndexKeys(d.indexes))
  }

  /** ys is xs with the indexes of table k handed to table k2, and nothing else changed. */
  ghost predicate Handed(xs: seq<IndexDef>, ys: seq<IndexDef>, k: string, k2: string) {
    && |xs| == |ys|
    && forall i :: 0 <= i < |xs| ==>
         if Of(xs[i], k) then Of(ys[i], k2) && ys[i] == xs[i].(tableName := ys[i].tableName) else ys[i] == xs[i]
  }

  /** Where indexes end up under a row of renames that all look for the first key. */
  function Landing(k: string, targets: seq<string>): string
    decreases |targets|
  {
    if targets == [] then k else if targets[0] != k then targets[0] else Landing(k, targets[1..])
  }

  lemma {:induction false} NoneMove(d: Database, p: nat, k: string, actions: seq<Action>)
    requires p < |d.tables| && forall i :: 0 <= i < |d.indexes| ==> !Of(d.indexes[i], k)
    ensures ActionsP(d, p, k, actions).state.indexes == d.indexes
    decreases |actions|
  {
    hide NormIdent, TableAction, RenameTable;
    if actions != [] {
      if actions[0].RenameTo? {
        var d1 := RenameTableP(d, p, k, actions[0].newName);
        assert d1.indexes == d.indexes;
        NoneMove(d1, p, k, actions[1..]);
      } else {
        match TableAction(d.tables[p], actions[0])
        case Refused(_) =>
        case Changed(t') => NoneMove(d.(tables := d.tables[p := t']), p, k, actions[1..]);
      }
    }
  }

  lemma {:induction false} ActionsHand(d: Database, p: nat, k: string, actions: seq<Action>)
    requires p < |d.tables|
    ensures Handed(d.indexes, ActionsP(d, p, k, actions).state.indexes, k, Landing(k, RenamesRun(d.tables[p], actions)))
    decreases |actions|
  {
    hide NormIdent, TableAction, RenameTable;
    if actions != [] {
      var t := d.tables[p];
      if actions[0].RenameTo? {
        var newName := actions[0].newName;
        var d1 := RenameTableP(d, p, k, newName);
        RenameRow(t, actions);
        var rest := RenamesRun(RenameTable(t, newName), actions[1..]);
        assert ([NormIdent(newName)] + rest)[1..] == rest;
        hide RenamesRun, ActionsP;
        if NormIdent(newName) == k { ActionsHand(d1, p, k, actions[1..]); } else { NoneMove(d1, p, k, actions[1..]); }
      } else {
        match TableAction(t, actions[0])
        case Refused(_) =>
        case Changed(t') => ActionsHand(d.(tables := d.tables[p := t']), p, k, actions[1..]);
      }
    }
  }

  /** Under safe renames the indexes land on the last target. */
  lemma {:induction false} SafeLanding(keys: seq<string>, k: string, targets: seq<string>)
    requires RenamesSafe(keys, k, targets) && targets != []
    ensures Landing(k, targets) == targets[|targets| - 1]
    decreases |targets|
  {
    assert targets[0] == k || targets[0] == targets[|targets| - 1];
    if targets[0] == k && |targets| > 1 {
      assert RenamesSafe(keys, k, targets[1..]);
      SafeLanding(keys, k, targets[1..]);
    }
  }

  /** RENAME TO takes exactly the table's indexes along. */
  lemma AlterTableHands(d: Database, name: string, actions: seq<Action>)
    requires NormIdent(name) in TableKeys(d.tables) && NoCollision(d, AlterTable(name, actions))
    ensures var k, p := NormIdent(name), Find(TableKeys(d.tables), NormIdent(name));
            var d' := AlterTableP(d, name, actions).state;
            && p >= 0 && |d'.tables| == |d.tables| && d' == d.(tables := d.tables[p := d'.tables[p]], indexes := d'.indexes)
            && Handed(d.indexes, d'.indexes, k, NormIdent(d'.tables[p].name))
  {
    var k, p := NormIdent(name), Find(TableKeys(d.tables), NormIdent(name));
    FindMember(TableKeys(d.tables), k);
    var targets := RenamesRun(d.tables[p], actions);
    assert NormIdent(d.tables[p].name) == k;
    hide NormIdent, Handed, RenamesRun, ActionsP, RenamesSafe, FindFrom;
    ActionsShape(d, p, k, actions);
    ActionsHand(d, p, k, actions);
    if targets != [] { SafeLanding(TableKeys(d.tables), k, targets); }
  }

  lemma AlterTableAnchored(d: Database, name: string, actions: seq<Action>)
    requires NoDangling(d) && NoCollision(d, AlterTable(name, actions))
    ensures NoDangling(AlterTableP(d, name, actions).state)
  {
    var k := NormIdent(name);
    FindMember(TableKeys(d.tables), k);
    if k in TableKeys(d.tables) {
      AlterTableHands(d, name, actions);
      HandedAnchored(d, AlterTableP(d, name, actions).state, k);
    }
  }

  lemma HandedAnchored(d: Database, d': Database, k: string)
    requires NoDangling(d)
    requires var p := Find(TableKeys(d.tables), k);
             && p >= 0 && |d'.tables| == |d.tables| && d' == d.(tables := d.tables[p := d'.tables[p]], indexes := d'.indexes)
             && Handed(d.indexes, d'.indexes, k, NormIdent(d'.tables[p].name))
    ensures NoDangling(d')
  {
    var p := Find(TableKeys(d.tables), k);
    hide NormIdent, FindFrom;
    forall i | 0 <= i < |d'.indexes| ensures NormIdent(d'.indexes[i].tableName) in TableKeys(d'.tables) {
      var j := NormIdent(d.indexes[i].tableName);
      assert j in TableKeys(d.tables);
      var q :| 0 <= q < |d.tables| && TableKeys(d.tables)[q] == j;
      if Of(d.indexes[i], k) {
        assert TableKeys(d'.tables)[p] == NormIdent(d'.tables[p].name);
      } else {
        assert q != p && TableKeys(d'.tables)[q] == j;
      }
    }
  }

  /** The indexes of one table, in order. */
  function IndexesOf(xs: seq<IndexDef>, k: string): seq<IndexDef> {
    if xs == [] then [] else (if Of(xs[0], k) then [xs[0]] else []) + IndexesOf(xs[1..], k)
  }

  lemma IndexesOfHead(x: IndexDef, ys: seq<IndexDef>, k: string)
    ensures IndexesOf([x] + ys, k) == (if Of(x, k) then [x] else []) + IndexesOf(ys, k)
  {
    hide NormIdent;
    assert ([x] + ys)[1..] == ys;
  }

  /** Leaving out one table's indexes leaves those of every other table as they are. */
  lemma {:induction false} OthersKept(xs: seq<IndexDef>, k: string, j: string)
    ensures IndexesOf(WithoutTable(xs, k), j) == if j == k then [] else IndexesOf(xs, j)
    decreases |xs|
  {
    hide NormIdent;
    if xs != [] {
      var x, rest := xs[0], WithoutTable(xs[1..], k);
      OthersKept(xs[1..], k, j);
      IndexesOfHead(x, rest, j);
      assert [] + rest == rest;
    }
  }

  /** DROP TABLE removes the table and exactly its indexes, in place. */
  lemma DropTakesItsIndexes(d: Database, name: string, ifExists: bool, j: string)
    requires NormIdent(name) in TableKeys(d.tables)
    ensures var d' := DropOneP(d, name, ifExists).state;
            IndexesOf(d'.indexes, j) == if j == NormIdent(name) then [] else IndexesOf(d.indexes, j)
  {
    FindMember(TableKeys(d.tables), NormIdent(name));
    OthersKept(d.indexes, NormIdent(name), j);
    hide NormIdent, FindFrom, WithoutTable, IndexesOf;
  }

  lemma DropOneAnchored(d: Database, name: string, ifExists: bool)
    requires NoDangling(d) && Distinct(TableKeys(d.tables))
    ensures var d' := DropOneP(d, name, ifExists).state; NoDangling(d') && Distinct(TableKeys(d'.tables))
  {
    hide NormIdent, FindFrom, ObjectKey, NoDangling, Distinct, TableKeys, RemoveAt, WithoutTable;
    var k := NormIdent(name);
    var p := Find(TableKeys(d.tables), k);
    KeyCount(d.tables);
    if p >= 0 {
      FindFromLeast(TableKeys(d.tables), k, 0);
      TableGone(d, p, k);
    } else {
      SameAnchors(d, DropOneP(d, name, ifExists).state);
    }
  }

  lemma KeyCount(ts: seq<TableDef>)
    ensures |TableKeys(ts)| == |ts|
  {
    hide NormIdent;
  }

  lemma SameAnchors(d: Database, e: Database)
    requires NoDangling(d) && e.tables == d.tables && e.indexes == d.indexes
    ensures NoDangling(e)
  {
  }

  /** Without a table and its indexes every index is still on a live table. */
  lemma TableGone(d: Database, p: nat, k: string)
    requires NoDangling(d) && Distinct(TableKeys(d.tables)) && p < |d.tables| && TableKeys(d.tables)[p] == k
    ensures var d' := d.(tables := RemoveAt(d.tables, p), indexes := WithoutTable(d.indexes, k));
            NoDangling(d') && Distinct(TableKeys(d'.tables))
  {
    hide NormIdent, FindFrom;
    var ts, xs := RemoveAt(d.tables, p), WithoutTable(d.indexes, k);
    TableKeysRemove(d.tables, p);
    WithoutSubset(d.indexes, k);
    RemovedKeys(TableKeys(d.tables), p);
    forall i | 0 <= i < |xs| ensures NormIdent(xs[i].tableName) in TableKeys(ts) {
      var j := NormIdent(xs[i].tableName);
      assert xs[i] in d.indexes && j != k;
      var n :| 0 <= n < |d.indexes| && d.indexes[n] == xs[i];
      var q :| 0 <= q < |d.tables| && TableKeys(d.tables)[q] == j;
      assert TableKeys(ts)[Shift(q, p)] == j;
    }
  }

  lemma {:induction false} DropTablesAnchored(d: Database, names: seq<string>, ifExists: bool)
    requires NoDangling(d) && Distinct(TableKeys(d.tables))
    ensures NoDangling(DropTablesP(d, names, ifExists).state)
    decreases |names|
  {
    hide DropOneP, NoDangling, Distinct;
    if names != [] {
      DropOneAnchored(d, names[0], ifExists);
      var r := DropOneP(d, names[0], ifExists);
      if r.outcome.Done? { DropTablesAnchored(r.state, names[1..], ifExists); }
    }
  }

  lemma CreateIndexAnchored(d: Database, x: IndexDef)
    requires NoDangling(d)
    ensures NoDangling(CreateIndexP(d, x).state) <==>
            NormIdent(x.tableName) in TableKeys(d.tables) || (x.ifNotExists && NormIdent(x.name) in IndexKeys(d.indexes))
  {
    var p := Find(IndexKeys(d.indexes), NormIdent(x.name));
    FindMember(IndexKeys(d.indexes), NormIdent(x.name));
    var d' := CreateIndexP(d, x).state;
    hide NormIdent, FindFrom;
    if p < 0 { assert d'.indexes[|d.indexes|] == x; } else if !x.ifNotExists { assert d'.indexes[p] == x; }
  }

  lemma OtherAnchored(d: Database, s: Statement)
    requires NoDangling(d) && !s.AlterTable? && !s.DropTable? && !s.CreateIndex?
    ensures NoDangling(ApplyP(d, s).state)
  {
    hide NormIdent, FindFrom, ObjectKey, KindText, LabelAction, ApplyOptions, TruncateKey, RenamedType;
    var d' := ApplyP(d, s).state;
    if s.CreateTable? {
      assert forall i :: 0 <= i < |d.tables| ==> TableKeys(d'.tables)[i] == TableKeys(d.tables)[i];
    }
  }

  /** One statement keeps every index on a live table exactly when it is no
      CREATE INDEX on a missing table. */
  lemma StepAnchored(d: Database, s: Statement)
    requires NoDangling(d) && Distinct(TableKeys(d.tables)) && NoCollision(d, s)
    ensures NoDangling(ApplyP(d, s).state) <==> Anchored(d, s)
  {
    hide NormIdent, NoDangling, Distinct, NoCollision, DropTablesP, AlterTableP, CreateIndexP;
    match s
    case AlterTable(name, actions) => AlterTableAnchored(d, name, actions);
    case DropTable(names, ifExists) => DropTablesAnchored(d, names, ifExists);
    case CreateIndex(name, tableName, unique, concurrently, ifNotExists, body) =>
      CreateIndexAnchored(d, IndexDef(name, tableName, unique, concurrently, ifNotExists, body));
    case _ => OtherAnchored(d, s);
  }

  /** Every CREATE INDEX of the run, up to the first failure, is anchored. */
  predicate AllAnchored(d: Database, ss: seq<Statement>)
    decreases |ss|
  {
    ss == [] ||
    (Anchored(d, ss[0]) && (ApplyP(d, ss[0]).outcome.Done? ==> AllAnchored(ApplyP(d, ss[0]).state, ss[1..])))
  }

  /** No state the run goes through has a dangling index. */
  ghost predicate NeverDangling(d: Database, ss: seq<Statement>)
    decreases |ss|
  {
    && NoDangling(d)
    && (ss != [] ==>
          var r := ApplyP(d, ss[0]);
          if r.outcome.Done? then NeverDangling(r.state, ss[1..]) else NoDangling(r.state))
  }

  lemma {:induction false} RunAnchored(x: Schema, ss: seq<Statement>)
    requires Consistent(x) && NoDangling(x.db) && NoCollisions(x.db, ss)
    ensures NeverDangling(x.db, ss) <==> AllAnchored(x.db, ss)
    decreases |ss|
  {
    if ss != [] {
      ApplyRefines(x, ss[0]);
      InverseDistinct(TableKeys(x.db.tables), x.at.tables);
      StepAnchored(x.db, ss[0]);
      var r := ApplyX(x, ss[0]);
      hide ApplyX, ApplyP, NoCollision, Anchored, NoDangling, Consistent, Distinct;
      if r.outcome.Done? && Anchored(x.db, ss[0]) { RunAnchored(r.state, ss[1..]); }
    }
  }

  /** From an empty schema, without rename collisions, no index is ever left
      without its table exactly when every CREATE INDEX names a live one. */
  lemma ReachableAnchored(ss: seq<Statement>)
    requires NoCollisions(EMPTY, ss)
    ensures NeverDangling(EMPTY, ss) <==> AllAnchored(EMPTY, ss)
  {
    RunAnchored(NEW, ss);
  }
}
