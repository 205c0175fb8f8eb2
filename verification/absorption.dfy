/** A table that is created and later dropped leaves no trace: the run ends in
    the schema of the run without the statements on that table. */
module Absorption {
  import opened Text
  import opened Ast
  import opened Positions
  import opened Catalog
  import opened Indexed
  import opened Plain
  import opened Refinement

  /** Exactly one table has the key k. */
  ghost predicate Live(ts: seq<TableDef>, k: string) {
    var p := Find(TableKeys(ts), k);
    p >= 0 && forall i :: 0 <= i < |ts| && NormIdent(ts[i].name) == k ==> i == p
  }

  /** The database without the table of key k and without its indexes. */
  function Erased(d: Database, k: string): Database {
    var p := Find(TableKeys(d.tables), k);
    if p < 0 then d else d.(tables := RemoveAt(d.tables, p), indexes := WithoutTable(d.indexes, k))
  }

  /** Does index x belong to the table of key k? */
  predicate Of(x: IndexDef, k: string) { NormIdent(x.tableName) == k }

  predicate OwnsIndex(d: Database, k: string, name: string) {
    var p := Find(IndexKeys(d.indexes), NormIdent(name));
    p >= 0 && Of(d.indexes[p], k)
  }

  /** Is s a statement on the table of key k, or on one of its indexes? */
  predicate Mine(d: Database, k: string, s: Statement) {
    match s
    case CreateTable(name, _, _, _, _, _) => NormIdent(name) == k
    case AlterTable(name, _) => NormIdent(name) == k
    case DropTable(names, _) => k in NormAll(names)
    case CreateIndex(_, tableName, _, _, _, _) => NormIdent(tableName) == k
    case DropIndex(name, _) => OwnsIndex(d, k, name)
    case AlterIndex(name, _) => OwnsIndex(d, k, name)
    case _ => false
  }

  /** The keys the actions of an ALTER TABLE rename the table to. */
  function Targets(d: Database, name: string, actions: seq<Action>): seq<string> {
    var p := Find(TableKeys(d.tables), NormIdent(name));
    if p < 0 then [] else RenamesRun(d.tables[p], actions)
  }

  /** No other table and no index of another table has the key k2. */
  predicate FreshTable(d: Database, k: string, k2: string) {
    k2 == k || (k2 !in TableKeys(d.tables) && forall i :: 0 <= i < |d.indexes| ==> !Of(d.indexes[i], k2))
  }

  /** Renaming the table to one key after the other: all are fresh, and each is
      its first key or the last one. */
  predicate FreshTargets(d: Database, k: string, targets: seq<string>) {
    forall x :: x in targets ==> FreshTable(d, k, x) && (x == k || x == targets[|targets| - 1])
  }

  /** A statement on the table takes no name of another table or index, and a
      statement on others takes none of this table's. */
  predicate Separate(d: Database, k: string, s: Statement) {
    match s
    case AlterTable(name, actions) =>
      var targets := Targets(d, name, actions);
      if NormIdent(name) == k then FreshTargets(d, k, targets) else k !in targets
    case CreateIndex(name, tableName, _, _, _, _) =>
      var p := Find(IndexKeys(d.indexes), NormIdent(name));
      p >= 0 ==> (Of(d.indexes[p], k) <==> NormIdent(tableName) == k)
    case _ => true
  }

  /** The table's key after a statement on it. */
  function KeyAfter(d: Database, k: string, s: Statement): string {
    if s.AlterTable? && Targets(d, s.tableName, s.actions) != [] then
      var targets := Targets(d, s.tableName, s.actions);
      targets[|targets| - 1]
    else k
  }

  /** Up to the DROP TABLE of the table, which comes, all statements are separate. */
  predicate Absorbed(d: Database, k: string, ss: seq<Statement>)
    decreases |ss|
  {
    && ss != []
    && Separate(d, k, ss[0])
    && var d' := ApplyP(d, ss[0]).state;
       if !Mine(d, k, ss[0]) then Absorbed(d', k, ss[1..])
       else ss[0].DropTable? || Absorbed(d', KeyAfter(d, k, ss[0]), ss[1..])
  }

  /** The names without the first one of key k. */
  function OtherNames(names: seq<string>, k: string): seq<string> {
    if names == [] then []
    else if NormIdent(names[0]) == k then names[1..]
    else [names[0]] + OtherNames(names[1..], k)
  }

  /** What is left of a DROP TABLE that names the table. */
  function OtherDrops(s: Statement, k: string): seq<Statement>
    requires s.DropTable?
  {
    var names := OtherNames(s.tableNames, k);
    if names == [] then [] else [DropTable(names, s.ifExists)]
  }

  /** The statements that are left when those on the table are deleted. */
  function Without(d: Database, k: string, ss: seq<Statement>): seq<Statement>
    decreases |ss|
  {
    if ss == [] then []
    else
      var d' := ApplyP(d, ss[0]).state;
      if !Mine(d, k, ss[0]) then [ss[0]] + Without(d', k, ss[1..])
      else if ss[0].DropTable? then OtherDrops(ss[0], k) + ss[1..]
      else Without(d', KeyAfter(d, k, ss[0]), ss[1..])
  }

  // ---- Lists with one element removed ----

  /** Where position p goes when position q is removed. */
  function Shift(p: nat, q: nat): (r: int)
    requires p != q
    ensures 0 <= r <= p
  {
    if p < q then p else p - 1
  }

  lemma RemoveUpdate<T>(s: seq<T>, q: nat, p: nat, x: T)
    requires q < |s| && p < |s| && p != q
    ensures var p' := Shift(p, q);
            p' < |RemoveAt(s, q)| && RemoveAt(s, q)[p'] == s[p] && RemoveAt(s[p := x], q) == RemoveAt(s, q)[p' := x]
  {
  }

  lemma RemoveTwice<T>(s: seq<T>, q: nat, p: nat)
    requires q < |s| && p < |s| && p != q
    ensures var p' := Shift(p, q);
            var q' := Shift(q, p);
            p' < |s| - 1 && q' < |s| - 1 && RemoveAt(RemoveAt(s, p), q') == RemoveAt(RemoveAt(s, q), p')
  {
  }

  /** The first occurrence is what linear search finds. */
  lemma FindIs(keys: seq<string>, k: string, p: nat)
    requires p < |keys| && keys[p] == k && forall i :: 0 <= i < p ==> keys[i] != k
    ensures Find(keys, k) == p
  {
    FindFromLeast(keys, k, 0);
  }

  lemma FindNone(keys: seq<string>, k: string)
    requires k !in keys
    ensures Find(keys, k) == -1
  {
    FindMember(keys, k);
  }

  lemma TableKeysRemove(ts: seq<TableDef>, q: nat)
    requires q < |ts|
    ensures TableKeys(RemoveAt(ts, q)) == RemoveAt(TableKeys(ts), q)
  {
    hide NormIdent;
  }

  lemma FindPastRemoved(keys: seq<string>, q: nat, j: string)
    requires q < |keys| && keys[q] != j
    ensures var p := Find(keys, j);
            Find(RemoveAt(keys, q), j) == if p < 0 then -1 else Shift(p, q)
  {
    var p := Find(keys, j);
    FindFromLeast(keys, j, 0);
    var rest := RemoveAt(keys, q);
    if p < 0 { FindNone(rest, j); } else { FindIs(rest, j, Shift(p, q)); }
  }

  /** Another table is found at its shifted place in the erased list. */
  lemma FindOther(ts: seq<TableDef>, k: string, j: string)
    requires Live(ts, k) && j != k
    ensures var q, p := Find(TableKeys(ts), k), Find(TableKeys(ts), j);
            p != q && Find(TableKeys(RemoveAt(ts, q)), j) == if p < 0 then -1 else Shift(p, q)
  {
    var q := Find(TableKeys(ts), k);
    TableKeysRemove(ts, q);
    hide NormIdent, RemoveAt;
    FindPastRemoved(TableKeys(ts), q, j);
  }

  lemma LiveUpdate(ts: seq<TableDef>, k: string, p: nat, t: TableDef)
    requires Live(ts, k) && p < |ts| && p != Find(TableKeys(ts), k) && NormIdent(t.name) != k
    ensures Live(ts[p := t], k) && Find(TableKeys(ts[p := t]), k) == Find(TableKeys(ts), k)
  {
    hide NormIdent;
    var q := Find(TableKeys(ts), k);
    FindFromLeast(TableKeys(ts), k, 0);
    FindIs(TableKeys(ts[p := t]), k, q);
  }

  lemma LiveRemove(ts: seq<TableDef>, k: string, p: nat)
    requires Live(ts, k) && p < |ts| && p != Find(TableKeys(ts), k)
    ensures Live(RemoveAt(ts, p), k) && Find(TableKeys(RemoveAt(ts, p)), k) == Shift(Find(TableKeys(ts), k), p)
  {
    TableKeysRemove(ts, p);
    var q := Find(TableKeys(ts), k);
    FindFromLeast(TableKeys(ts), k, 0);
    hide NormIdent;
    assert TableKeys(ts)[p] != k;
    FindIs(RemoveAt(TableKeys(ts), p), k, Shift(q, p));
    forall i | 0 <= i < |ts| - 1 && NormIdent(RemoveAt(ts, p)[i].name) == k ensures i == Shift(q, p) {
      var j := if i < p then i else i + 1;
      assert RemoveAt(ts, p)[i] == ts[j];
    }
  }

  lemma LiveAppend(ts: seq<TableDef>, k: string, t: TableDef)
    requires Live(ts, k) && NormIdent(t.name) != k
    ensures Live(ts + [t], k) && Find(TableKeys(ts + [t]), k) == Find(TableKeys(ts), k)
  {
    hide NormIdent;
    FindFromLeast(TableKeys(ts), k, 0);
    FindIs(TableKeys(ts + [t]), k, Find(TableKeys(ts), k));
  }

  // ---- Index lists without one table ----

  lemma {:induction false} WithoutAppend(a: seq<IndexDef>, b: seq<IndexDef>, k: string)
    ensures WithoutTable(a + b, k) == WithoutTable(a, k) + WithoutTable(b, k)
    decreases |a|
  {
    hide WithoutTable, Of;
    if a == [] {
      assert a + b == b;
      WithoutNone(k);
    } else {
      WithoutAppend(a[1..], b, k);
      assert a + b == [a[0]] + (a[1..] + b) && a == [a[0]] + a[1..];
      WithoutHead(a[0], a[1..] + b, k);
      WithoutHead(a[0], a[1..], k);
      var here := if !Of(a[0], k) then [a[0]] else [];
      assert here + (WithoutTable(a[1..], k) + WithoutTable(b, k)) == here + WithoutTable(a[1..], k) + WithoutTable(b, k);
    }
  }

  lemma WithoutNone(k: string)
    ensures WithoutTable([], k) == []
  {
  }

  lemma WithoutSplit(xs: seq<IndexDef>, p: nat, x: IndexDef, k: string)
    requires p < |xs|
    ensures WithoutTable(xs[p := x], k)
            == WithoutTable(xs[..p], k) + (if Of(x, k) then [] else [x]) + WithoutTable(xs[p + 1..], k)
    ensures WithoutTable(RemoveAt(xs, p), k) == WithoutTable(xs[..p], k) + WithoutTable(xs[p + 1..], k)
  {
    assert xs[p := x] == xs[..p] + ([x] + xs[p + 1..]);
    WithoutAppend(xs[..p], [x] + xs[p + 1..], k);
    WithoutAppend([x], xs[p + 1..], k);
    WithoutAppend(xs[..p], xs[p + 1..], k);
    WithoutOne(x, k);
    hide NormIdent;
  }

  lemma WithoutOne(x: IndexDef, k: string)
    ensures WithoutTable([x], k) == if Of(x, k) then [] else [x]
  {
    hide NormIdent;
    assert [x][1..] == [];
  }

  lemma {:induction false} WithoutSubset(xs: seq<IndexDef>, k: string)
    ensures forall x :: x in WithoutTable(xs, k) ==> x in xs && !Of(x, k)
  {
    hide NormIdent;
    if xs != [] { WithoutSubset(xs[1..], k); }
  }

  lemma WithoutKeys(xs: seq<IndexDef>, k: string, j: string)
    requires j !in IndexKeys(xs)
    ensures j !in IndexKeys(WithoutTable(xs, k))
  {
    WithoutSubset(xs, k);
    hide NormIdent, WithoutTable;
    var ys := WithoutTable(xs, k);
    forall i | 0 <= i < |ys| ensures IndexKeys(ys)[i] != j {
      assert ys[i] in xs;
      var p :| 0 <= p < |xs| && xs[p] == ys[i];
      assert IndexKeys(xs)[p] in IndexKeys(xs);
    }
  }

  /** An index of another table is found among those that are kept. */
  lemma FindKept(xs: seq<IndexDef>, k: string, j: string)
    ensures var p := Find(IndexKeys(xs), j);
            && (p < 0 ==> Find(IndexKeys(WithoutTable(xs, k)), j) == -1)
            && (p >= 0 && !Of(xs[p], k) ==> Find(IndexKeys(WithoutTable(xs, k)), j) == |WithoutTable(xs[..p], k)|)
  {
    var p := Find(IndexKeys(xs), j);
    FindMember(IndexKeys(xs), j);
    hide NormIdent, WithoutTable, FindFrom;
    if p < 0 {
      WithoutKeys(xs, k, j);
      FindNone(IndexKeys(WithoutTable(xs, k)), j);
    } else if !Of(xs[p], k) {
      FindKeptAt(xs, k, p);
    }
  }

  lemma FindKeptAt(xs: seq<IndexDef>, k: string, p: nat)
    requires p < |xs| && !Of(xs[p], k) && Find(IndexKeys(xs), NormIdent(xs[p].name)) == p
    ensures Find(IndexKeys(WithoutTable(xs, k)), NormIdent(xs[p].name)) == |WithoutTable(xs[..p], k)|
  {
    var j := NormIdent(xs[p].name);
    FindFromLeast(IndexKeys(xs), j, 0);
    assert xs[p := xs[p]] == xs;
    WithoutSplit(xs, p, xs[p], k);
    hide NormIdent, WithoutTable, FindFrom, Of;
    assert IndexKeys(xs[..p]) == IndexKeys(xs)[..p];
    WithoutKeys(xs[..p], k, j);
    KeysFound(WithoutTable(xs[..p], k), xs[p], WithoutTable(xs[p + 1..], k));
  }

  lemma KeysFound(a: seq<IndexDef>, x: IndexDef, b: seq<IndexDef>)
    requires NormIdent(x.name) !in IndexKeys(a)
    ensures Find(IndexKeys(a + [x] + b), NormIdent(x.name)) == |a|
  {
    hide NormIdent;
    var all := a + [x] + b;
    forall i | 0 <= i < |a| ensures IndexKeys(all)[i] != NormIdent(x.name) {
      assert IndexKeys(all)[i] == IndexKeys(a)[i];
    }
    FindIs(IndexKeys(all), NormIdent(x.name), |a|);
  }

  lemma MoveHead(x: IndexDef, ys: seq<IndexDef>, j: string, newName: string)
    ensures MoveIndexes([x] + ys, j, newName)
            == [if NormIdent(x.tableName) == j then x.(tableName := newName) else x] + MoveIndexes(ys, j, newName)
  {
    hide NormIdent;
  }

  lemma {:induction false} MoveWithout(xs: seq<IndexDef>, k: string, j: string, newName: string)
    requires j != k && NormIdent(newName) != k
    ensures WithoutTable(MoveIndexes(xs, j, newName), k) == MoveIndexes(WithoutTable(xs, k), j, newName)
    decreases |xs|
  {
    hide NormIdent, MoveIndexes;
    if xs == [] {
      NothingMoved(j, newName);
    } else {
      var x, rest := xs[0], MoveIndexes(xs[1..], j, newName);
      var x' := if NormIdent(x.tableName) == j then x.(tableName := newName) else x;
      MoveWithout(xs[1..], k, j, newName);
      assert xs == [x] + xs[1..];
      MoveHead(x, xs[1..], j, newName);
      WithoutHead(x', rest, k);
      WithoutHead(x, xs[1..], k);
      MoveHead(x, WithoutTable(xs[1..], k), j, newName);
      hide WithoutTable;
      var w := WithoutTable(xs[1..], k);
      assert [] + w == w && [] + MoveIndexes(w, j, newName) == MoveIndexes(w, j, newName);
    }
  }

  lemma NothingMoved(j: string, newName: string)
    ensures MoveIndexes([], j, newName) == []
  {
  }

  /** Moving the table's indexes to a fresh key and leaving those out. */
  lemma {:induction false} MoveOwn(xs: seq<IndexDef>, k: string, newName: string)
    requires NormIdent(newName) == k || forall i :: 0 <= i < |xs| ==> !Of(xs[i], NormIdent(newName))
    ensures WithoutTable(MoveIndexes(xs, k, newName), NormIdent(newName)) == WithoutTable(xs, k)
    decreases |xs|
  {
    hide NormIdent;
    if xs != [] {
      assert MoveIndexes(xs, k, newName)[1..] == MoveIndexes(xs[1..], k, newName);
      MoveOwn(xs[1..], k, newName);
    }
  }

  lemma {:induction false} WithoutCommutes(xs: seq<IndexDef>, k: string, j: string)
    ensures WithoutTable(WithoutTable(xs, j), k) == WithoutTable(WithoutTable(xs, k), j)
    decreases |xs|
  {
    hide NormIdent;
    if xs != [] {
      var x, a, b := xs[0], WithoutTable(xs[1..], j), WithoutTable(xs[1..], k);
      WithoutCommutes(xs[1..], k, j);
      WithoutHead(x, a, k);
      WithoutHead(x, b, j);
      assert xs == [x] + xs[1..];
      WithoutHead(x, xs[1..], j);
      WithoutHead(x, xs[1..], k);
      assert [] + a == a && [] + b == b;
    }
  }

  lemma WithoutHead(x: IndexDef, ys: seq<IndexDef>, k: string)
    ensures WithoutTable([x] + ys, k) == (if !Of(x, k) then [x] else []) + WithoutTable(ys, k)
  {
    hide NormIdent;
    assert ([x] + ys)[1..] == ys;
  }

  // ---- Statements on other objects ----

  /** The statement does to the erased database what it does to the whole one. */
  ghost predicate Simulated(d: Database, k: string, r: Ran<Database>, e: Ran<Database>) {
    e == Ran(Erased(r.state, k), r.outcome) && Live(r.state.tables, k)
  }

  lemma UpdateErased(d: Database, k: string, p: nat, t: TableDef)
    requires Live(d.tables, k) && p < |d.tables| && p != Find(TableKeys(d.tables), k) && NormIdent(t.name) != k
    ensures var p' := Shift(p, Find(TableKeys(d.tables), k));
            var e := Erased(d, k);
            var d' := d.(tables := d.tables[p := t]);
            && p' < |e.tables| && e.tables[p'] == d.tables[p]
            && Live(d'.tables, k) && Find(TableKeys(d'.tables), k) == Find(TableKeys(d.tables), k)
            && Erased(d', k) == e.(tables := e.tables[p' := t])
  {
    LiveUpdate(d.tables, k, p, t);
    RemoveUpdate(d.tables, Find(TableKeys(d.tables), k), p, t);
    hide NormIdent, RemoveAt, Find;
  }

  lemma RenameErased(d: Database, k: string, p: nat, oldKey: string, newName: string)
    requires Live(d.tables, k) && p < |d.tables| && p != Find(TableKeys(d.tables), k)
    requires oldKey != k && NormIdent(newName) != k
    ensures var q := Find(TableKeys(d.tables), k);
            var e := Erased(d, k);
            var d' := RenameTableP(d, p, oldKey, newName);
            && Shift(p, q) < |e.tables|
            && Live(d'.tables, k) && Find(TableKeys(d'.tables), k) == q
            && Erased(d', k) == RenameTableP(e, Shift(p, q), oldKey, newName)
  {
    var t := RenameTable(d.tables[p], newName);
    RenameKeepsName(d.tables[p], newName);
    UpdateErased(d, k, p, t);
    MoveWithout(d.indexes, k, oldKey, newName);
    hide NormIdent, RemoveAt, Find, RenameTable, MoveIndexes, WithoutTable;
  }

  lemma {:induction false} ActionsOff(d: Database, k: string, p: nat, oldKey: string, actions: seq<Action>)
    requires Live(d.tables, k) && p < |d.tables| && p != Find(TableKeys(d.tables), k)
    requires oldKey != k && k !in RenamesRun(d.tables[p], actions)
    ensures var p' := Shift(p, Find(TableKeys(d.tables), k));
            && p' < |Erased(d, k).tables| && Erased(d, k).tables[p'] == d.tables[p]
            && Simulated(d, k, ActionsP(d, p, oldKey, actions), ActionsP(Erased(d, k), p', oldKey, actions))
    decreases |actions|
  {
    var t := d.tables[p];
    assert NormIdent(t.name) != k;
    UpdateErased(d, k, p, t);
    hide NormIdent, TableAction, RenameTable, Live, Erased, Find;
    if actions != [] {
      if actions[0].RenameTo? {
        var newName := actions[0].newName;
        RenameErased(d, k, p, oldKey, newName);
        RenameRow(t, actions);
        ActionsOff(RenameTableP(d, p, oldKey, newName), k, p, oldKey, actions[1..]);
      } else {
        match TableAction(t, actions[0])
        case Refused(_) =>
        case Changed(t') =>
          ActionKeepsName(t, actions[0]);
          UpdateErased(d, k, p, t');
          ActionsOff(d.(tables := d.tables[p := t']), k, p, oldKey, actions[1..]);
      }
    }
  }

  lemma RenameRow(t: TableDef, actions: seq<Action>)
    requires actions != [] && actions[0].RenameTo?
    ensures RenamesRun(t, actions)
            == [NormIdent(actions[0].newName)] + RenamesRun(RenameTable(t, actions[0].newName), actions[1..])
  {
  }

  lemma AlterTableOff(d: Database, k: string, name: string, actions: seq<Action>)
    requires Live(d.tables, k) && NormIdent(name) != k && k !in Targets(d, name, actions)
    ensures Simulated(d, k, AlterTableP(d, name, actions), AlterTableP(Erased(d, k), name, actions))
  {
    var key := NormIdent(name);
    var p := Find(TableKeys(d.tables), key);
    FindOther(d.tables, k, key);
    hide NormIdent, ActionsP, RenamesRun;
    if p >= 0 { ActionsOff(d, k, p, key, actions); }
  }

  lemma RemoveAppend<T>(s: seq<T>, q: nat, x: T)
    requires q < |s|
    ensures RemoveAt(s + [x], q) == RemoveAt(s, q) + [x]
  {
  }

  lemma CreateTableOff(d: Database, k: string, t: TableDef)
    requires Live(d.tables, k) && NormIdent(t.name) != k
    ensures Simulated(d, k, CreateTableP(d, t), CreateTableP(Erased(d, k), t))
  {
    FindOther(d.tables, k, NormIdent(t.name));
    LiveAppend(d.tables, k, t);
    var q := Find(TableKeys(d.tables), k);
    RemoveAppend(d.tables, q, t);
    hide NormIdent, RemoveAt, FindFrom, WithoutTable, TableKeys, Live;
  }

  lemma DropOneOff(d: Database, k: string, name: string, ifExists: bool)
    requires Live(d.tables, k) && NormIdent(name) != k
    ensures Simulated(d, k, DropOneP(d, name, ifExists), DropOneP(Erased(d, k), name, ifExists))
  {
    hide NormIdent, RemoveAt, Find, WithoutTable, ObjectKey;
    var j := NormIdent(name);
    var q, p := Find(TableKeys(d.tables), k), Find(TableKeys(d.tables), j);
    FindOther(d.tables, k, j);
    if p >= 0 {
      LiveRemove(d.tables, k, p);
      RemoveTwice(d.tables, q, p);
      WithoutCommutes(d.indexes, k, j);
    }
  }

  lemma {:induction false} DropTablesOff(d: Database, k: string, names: seq<string>, ifExists: bool)
    requires Live(d.tables, k) && k !in NormAll(names)
    ensures Simulated(d, k, DropTablesP(d, names, ifExists), DropTablesP(Erased(d, k), names, ifExists))
    decreases |names|
  {
    hide DropOneP, NormIdent, Live, Erased;
    if names != [] {
      assert NormAll(names)[0] in NormAll(names) && NormAll(names[1..]) == NormAll(names)[1..];
      DropOneOff(d, k, names[0], ifExists);
      var r := DropOneP(d, names[0], ifExists);
      if r.outcome.Done? { DropTablesOff(r.state, k, names[1..], ifExists); }
    }
  }

  lemma KeptUpdate(xs: seq<IndexDef>, p: nat, x: IndexDef, k: string)
    requires p < |xs| && !Of(xs[p], k) && !Of(x, k)
    ensures var p', ys := |WithoutTable(xs[..p], k)|, WithoutTable(xs, k);
            && p' < |ys| && ys[p'] == xs[p]
            && WithoutTable(xs[p := x], k) == ys[p' := x]
            && WithoutTable(RemoveAt(xs, p), k) == RemoveAt(ys, p')
  {
    assert xs[p := xs[p]] == xs;
    WithoutSplit(xs, p, xs[p], k);
    WithoutSplit(xs, p, x, k);
    var a, b := WithoutTable(xs[..p], k), WithoutTable(xs[p + 1..], k);
    Middle(a, xs[p], b, x);
    hide *;
  }

  lemma Middle<T>(a: seq<T>, o: T, b: seq<T>, x: T)
    ensures var s := a + [o] + b;
            s[|a|] == o && s[|a| := x] == a + [x] + b && RemoveAt(s, |a|) == a + b
  {
  }

  lemma CreateIndexOff(d: Database, k: string, x: IndexDef)
    requires Live(d.tables, k) && !Of(x, k)
    requires !OwnsIndex(d, k, x.name)
    ensures Simulated(d, k, CreateIndexP(d, x), CreateIndexP(Erased(d, k), x))
  {
    var xs := d.indexes;
    var p := Find(IndexKeys(xs), NormIdent(x.name));
    FindKept(xs, k, NormIdent(x.name));
    WithoutAppend(xs, [x], k);
    WithoutOne(x, k);
    if p >= 0 { KeptUpdate(xs, p, x, k); }
    hide NormIdent, RemoveAt, Find, WithoutTable;
  }

  lemma DropIndexOff(d: Database, k: string, name: string, ifExists: bool)
    requires Live(d.tables, k) && !OwnsIndex(d, k, name)
    ensures Simulated(d, k, DropIndexP(d, name, ifExists), DropIndexP(Erased(d, k), name, ifExists))
  {
    var xs := d.indexes;
    var p := Find(IndexKeys(xs), NormIdent(name));
    FindKept(xs, k, NormIdent(name));
    if p >= 0 { KeptUpdate(xs, p, xs[p], k); }
    hide NormIdent, RemoveAt, Find, WithoutTable;
  }

  lemma AlterIndexOff(d: Database, k: string, name: string, newName: string)
    requires Live(d.tables, k) && !OwnsIndex(d, k, name)
    ensures Simulated(d, k, AlterIndexP(d, name, newName), AlterIndexP(Erased(d, k), name, newName))
  {
    var xs := d.indexes;
    var p := Find(IndexKeys(xs), NormIdent(name));
    FindKept(xs, k, NormIdent(name));
    if p >= 0 { KeptUpdate(xs, p, xs[p].(name := newName), k); }
    hide NormIdent, RemoveAt, Find, WithoutTable;
  }

  predicate OnTablesOrIndexes(s: Statement) {
    s.CreateTable? || s.AlterTable? || s.DropTable? || s.CreateIndex? || s.DropIndex? || s.AlterIndex?
  }

  lemma ElsewhereOff(d: Database, k: string, s: Statement)
    requires Live(d.tables, k) && !OnTablesOrIndexes(s)
    ensures Simulated(d, k, ApplyP(d, s), ApplyP(Erased(d, k), s))
  {
    hide NormIdent, RemoveAt, Find, WithoutTable, ObjectKey, KindText, LabelAction, ApplyOptions, TruncateKey, RenamedType,
         Live;
  }

  /** A statement that is not on the table does the same with and without it. */
  lemma OffStep(d: Database, k: string, s: Statement)
    requires Live(d.tables, k) && !Mine(d, k, s) && Separate(d, k, s)
    ensures Simulated(d, k, ApplyP(d, s), ApplyP(Erased(d, k), s))
  {
    hide NormIdent, Find, Live, Erased, Targets, DropTablesP, AlterTableP, CreateTableP, CreateIndexP, DropIndexP, AlterIndexP,
         NormAll;
    match s
    case CreateTable(name, temporary, unlogged, columns, constraints, partitionBy) =>
      CreateTableOff(d, k, TableDef(name, temporary, unlogged, columns, constraints, partitionBy));
    case AlterTable(name, actions) => AlterTableOff(d, k, name, actions);
    case DropTable(names, ifExists) => DropTablesOff(d, k, names, ifExists);
    case CreateIndex(name, tableName, unique, concurrently, ifNotExists, body) =>
      CreateIndexOff(d, k, IndexDef(name, tableName, unique, concurrently, ifNotExists, body));
    case DropIndex(name, ifExists) => DropIndexOff(d, k, name, ifExists);
    case AlterIndex(name, newName) => AlterIndexOff(d, k, name, newName);
    case _ => ElsewhereOff(d, k, s);
  }

  // ---- Statements on the table ----

  /** Once no index has the table's first key, its renames move none. */
  lemma {:induction false} RenamesMoveNone(d: Database, p: nat, k: string, actions: seq<Action>)
    requires p < |d.tables| && forall i :: 0 <= i < |d.indexes| ==> !Of(d.indexes[i], k)
    ensures ActionsP(d, p, k, actions).state.indexes == d.indexes
    decreases |actions|
  {
    hide NormIdent, TableAction, RenameTable;
    if actions != [] {
      if actions[0].RenameTo? {
        var newName := actions[0].newName;
        assert MoveIndexes(d.indexes, k, newName) == d.indexes;
        RenamesMoveNone(RenameTableP(d, p, k, newName), p, k, actions[1..]);
      } else {
        match TableAction(d.tables[p], actions[0])
        case Refused(_) =>
        case Changed(t') => RenamesMoveNone(d.(tables := d.tables[p := t']), p, k, actions[1..]);
      }
    }
  }

  function LastKey(k: string, targets: seq<string>): string {
    if targets == [] then k else targets[|targets| - 1]
  }

  /** A row of actions on the table moves its indexes along with it. */
  lemma {:induction false} ActionsOwn(d: Database, k: string, p: nat, actions: seq<Action>)
    requires p < |d.tables| && NormIdent(d.tables[p].name) == k
    requires FreshTargets(d, k, RenamesRun(d.tables[p], actions))
    ensures WithoutTable(ActionsP(d, p, k, actions).state.indexes, LastKey(k, RenamesRun(d.tables[p], actions)))
            == WithoutTable(d.indexes, k)
    decreases |actions|
  {
    hide NormIdent, TableAction, RenameTable, WithoutTable, FreshTable, RenameTableP;
    if actions != [] {
      var t := d.tables[p];
      if actions[0].RenameTo? {
        var newName := actions[0].newName;
        var d1 := RenameTableP(d, p, k, newName);
        var rest := RenamesRun(RenameTable(t, newName), actions[1..]);
        RenameRow(t, actions);
        FirstTarget(d, k, NormIdent(newName), rest);
        RenameOwn(d, k, p, newName);
        if NormIdent(newName) == k {
          ActionsOwn(d1, k, p, actions[1..]);
        } else {
          RenamesMoveNone(d1, p, k, actions[1..]);
        }
      } else {
        match TableAction(t, actions[0])
        case Refused(_) =>
        case Changed(t') =>
          ActionKeepsName(t, actions[0]);
          var d1 := d.(tables := d.tables[p := t']);
          FreshSame(d, d1, k);
          ActionsOwn(d1, k, p, actions[1..]);
      }
    }
  }

  lemma FirstTarget(d: Database, k: string, x: string, rest: seq<string>)
    requires FreshTargets(d, k, [x] + rest)
    ensures FreshTable(d, k, x) && FreshTargets(d, k, rest)
    ensures x != k ==> LastKey(k, [x] + rest) == x
    ensures x == k ==> LastKey(k, [x] + rest) == LastKey(k, rest)
  {
    hide FreshTable;
    var all := [x] + rest;
    assert all[0] == x && all[1..] == rest;
    assert forall y :: y in rest ==> y in all;
    if rest != [] { assert all[|all| - 1] == rest[|rest| - 1]; }
  }

  /** One rename of the table: its indexes have the new key, and the rest is as before. */
  lemma RenameOwn(d: Database, k: string, p: nat, newName: string)
    requires p < |d.tables| && NormIdent(d.tables[p].name) == k && FreshTable(d, k, NormIdent(newName))
    ensures var d1 := RenameTableP(d, p, k, newName);
            && |d1.tables| == |d.tables| && d1.tables[p] == RenameTable(d.tables[p], newName)
            && WithoutTable(d1.indexes, NormIdent(newName)) == WithoutTable(d.indexes, k)
            && (if NormIdent(newName) == k
                then NormIdent(d1.tables[p].name) == k && (forall x :: FreshTable(d, k, x) ==> FreshTable(d1, k, x))
                else forall i :: 0 <= i < |d1.indexes| ==> !Of(d1.indexes[i], k))
  {
    RenameKeepsName(d.tables[p], newName);
    FreshMoves(d, k, newName);
    hide NormIdent, WithoutTable, RenameTable;
    var d1 := RenameTableP(d, p, k, newName);
    if NormIdent(newName) == k {
      assert TableKeys(d1.tables) == TableKeys(d.tables);
      forall x | FreshTable(d, k, x) ensures FreshTable(d1, k, x) {
        forall i | 0 <= i < |d1.indexes| && x != k ensures !Of(d1.indexes[i], x) { assert !Of(d.indexes[i], x); }
      }
    }
  }

  lemma FreshMoves(d: Database, k: string, newName: string)
    requires FreshTable(d, k, NormIdent(newName))
    ensures WithoutTable(MoveIndexes(d.indexes, k, newName), NormIdent(newName)) == WithoutTable(d.indexes, k)
  {
    MoveOwn(d.indexes, k, newName);
  }

  lemma FreshSame(d: Database, d1: Database, k: string)
    requires d1.indexes == d.indexes && |d1.tables| == |d.tables|
    requires forall i :: 0 <= i < |d.tables| ==> NormIdent(d1.tables[i].name) == NormIdent(d.tables[i].name)
    ensures forall x :: FreshTable(d, k, x) ==> FreshTable(d1, k, x)
  {
    hide NormIdent, Of;
    assert TableKeys(d1.tables) == TableKeys(d.tables);
  }

  lemma ActionsShape(d: Database, p: nat, oldKey: string, actions: seq<Action>)
    requires p < |d.tables|
    ensures var d' := ActionsP(d, p, oldKey, actions).state;
            var targets := RenamesRun(d.tables[p], actions);
            && |d'.tables| == |d.tables| && d' == d.(tables := d.tables[p := d'.tables[p]], indexes := d'.indexes)
            && NormIdent(d'.tables[p].name) ==
               (if targets == [] then NormIdent(d.tables[p].name) else targets[|targets| - 1])
  {
    ActionsRun(Schema(d, NEW.at), p, oldKey, actions);
    hide *;
  }

  lemma LiveRenamed(ts: seq<TableDef>, k: string, t: TableDef)
    requires Live(ts, k) && (NormIdent(t.name) == k || NormIdent(t.name) !in TableKeys(ts))
    ensures var q := Find(TableKeys(ts), k);
            var ts' := ts[q := t];
            Live(ts', NormIdent(t.name)) && Find(TableKeys(ts'), NormIdent(t.name)) == q && RemoveAt(ts', q) == RemoveAt(ts, q)
  {
    var q := Find(TableKeys(ts), k);
    var ts', k' := ts[q := t], NormIdent(t.name);
    hide NormIdent;
    forall i | 0 <= i < |ts| && i != q ensures NormIdent(ts'[i].name) != k' {
      assert TableKeys(ts)[i] in TableKeys(ts);
    }
    FindIs(TableKeys(ts'), k', q);
  }

  /** The database after actions on the table at q, which is then called k2. */
  lemma OwnErased(d: Database, k: string, d': Database, k2: string)
    requires Live(d.tables, k)
    requires var q := Find(TableKeys(d.tables), k);
             && |d'.tables| == |d.tables| && d' == d.(tables := d.tables[q := d'.tables[q]], indexes := d'.indexes)
             && NormIdent(d'.tables[q].name) == k2 && (k2 == k || k2 !in TableKeys(d.tables))
             && WithoutTable(d'.indexes, k2) == WithoutTable(d.indexes, k)
    ensures Live(d'.tables, k2) && Erased(d', k2) == Erased(d, k)
  {
    var q := Find(TableKeys(d.tables), k);
    var t := d'.tables[q];
    hide NormIdent, WithoutTable, FindFrom, RemoveAt, Live;
    LiveRenamed(d.tables, k, t);
    assert d'.tables == d.tables[q := t];
    hide Find, TableKeys;
  }

  lemma OwnTargets(d: Database, k: string, name: string, actions: seq<Action>)
    requires Live(d.tables, k) && NormIdent(name) == k && Separate(d, k, AlterTable(name, actions))
    ensures var q := Find(TableKeys(d.tables), k);
            var targets := RenamesRun(d.tables[q], actions);
            var k2 := KeyAfter(d, k, AlterTable(name, actions));
            && NormIdent(d.tables[q].name) == k && FreshTargets(d, k, targets)
            && k2 == LastKey(k, targets) && (k2 == k || k2 !in TableKeys(d.tables))
            && AlterTableP(d, name, actions) == ActionsP(d, q, k, actions)
  {
    hide RenamesRun, ActionsP, FindFrom, NormIdent;
    var q := Find(TableKeys(d.tables), k);
    var targets := RenamesRun(d.tables[q], actions);
    assert targets != [] ==> targets[|targets| - 1] in targets;
  }

  lemma AlterTableOwn(d: Database, k: string, name: string, actions: seq<Action>)
    requires Live(d.tables, k) && NormIdent(name) == k && Separate(d, k, AlterTable(name, actions))
    ensures var d' := AlterTableP(d, name, actions).state;
            var k' := KeyAfter(d, k, AlterTable(name, actions));
            Live(d'.tables, k') && Erased(d', k') == Erased(d, k)
  {
    var q := Find(TableKeys(d.tables), k);
    OwnTargets(d, k, name, actions);
    hide NormIdent, WithoutTable, ActionsP, RenamesRun, FindFrom, RemoveAt, AlterTableP, KeyAfter, Separate, FreshTable,
         FreshTargets, Erased, Targets;
    ActionsOwn(d, k, q, actions);
    ActionsShape(d, q, k, actions);
    hide Live, TableKeys, Find;
    OwnErased(d, k, AlterTableP(d, name, actions).state, KeyAfter(d, k, AlterTable(name, actions)));
  }

  lemma CreateIndexOwn(d: Database, k: string, x: IndexDef)
    requires Live(d.tables, k) && Of(x, k)
    requires var p := Find(IndexKeys(d.indexes), NormIdent(x.name)); p >= 0 ==> Of(d.indexes[p], k)
    ensures var d' := CreateIndexP(d, x).state; Live(d'.tables, k) && Erased(d', k) == Erased(d, k)
  {
    var xs := d.indexes;
    var p := Find(IndexKeys(xs), NormIdent(x.name));
    WithoutAppend(xs, [x], k);
    WithoutOne(x, k);
    if p >= 0 { OwnUpdate(xs, p, x, k); }
    hide NormIdent, WithoutTable;
  }

  lemma OwnUpdate(xs: seq<IndexDef>, p: nat, x: IndexDef, k: string)
    requires p < |xs| && Of(xs[p], k) && Of(x, k)
    ensures WithoutTable(xs[p := x], k) == WithoutTable(xs, k) == WithoutTable(RemoveAt(xs, p), k)
  {
    assert xs[p := xs[p]] == xs;
    WithoutSplit(xs, p, xs[p], k);
    WithoutSplit(xs, p, x, k);
    hide WithoutTable;
    EmptyMiddle(WithoutTable(xs[..p], k), WithoutTable(xs[p + 1..], k));
  }

  lemma EmptyMiddle<T>(a: seq<T>, b: seq<T>)
    ensures a + [] + b == a + b
  {
  }

  lemma IndexOwn(d: Database, k: string, name: string, newName: string)
    requires Live(d.tables, k) && OwnsIndex(d, k, name)
    ensures var d' := DropIndexP(d, name, false).state; Live(d'.tables, k) && Erased(d', k) == Erased(d, k)
    ensures var d' := AlterIndexP(d, name, newName).state; Live(d'.tables, k) && Erased(d', k) == Erased(d, k)
  {
    var xs := d.indexes;
    var p := Find(IndexKeys(xs), NormIdent(name));
    OwnUpdate(xs, p, xs[p].(name := newName), k);
    hide NormIdent, WithoutTable, RemoveAt, FindFrom;
  }

  /** A statement on the table that does not drop it changes nothing else. */
  lemma OwnStep(d: Database, k: string, s: Statement)
    requires Live(d.tables, k) && Mine(d, k, s) && Separate(d, k, s) && !s.DropTable? && ApplyP(d, s).outcome.Done?
    ensures var d', k' := ApplyP(d, s).state, KeyAfter(d, k, s); Live(d'.tables, k') && Erased(d', k') == Erased(d, k)
  {
    match s
    case AlterTable(name, actions) =>
      hide NormIdent, Find, Live, Erased, Targets, AlterTableP;
      AlterTableOwn(d, k, name, actions);
    case CreateIndex(name, tableName, unique, concurrently, ifNotExists, body) =>
      hide NormIdent, FindFrom, Live, Erased, CreateIndexP;
      CreateIndexOwn(d, k, IndexDef(name, tableName, unique, concurrently, ifNotExists, body));
    case DropIndex(name, ifExists) =>
      hide NormIdent, FindFrom, Live, Erased;
      IndexOwn(d, k, name, name);
    case AlterIndex(name, newName) =>
      hide NormIdent, FindFrom, Live, Erased;
      IndexOwn(d, k, name, newName);
    case _ => hide NormIdent, FindFrom, Erased;
  }

  /** Dropping the table among others does what dropping the others does without it. */
  lemma {:induction false} OwnDrop(d: Database, k: string, names: seq<string>, ifExists: bool)
    requires Live(d.tables, k) && k in NormAll(names) && DropTablesP(d, names, ifExists).outcome.Done?
    ensures DropTablesP(Erased(d, k), OtherNames(names, k), ifExists) == DropTablesP(d, names, ifExists)
    decreases |names|
  {
    hide NormIdent, DropOneP, Live, Erased;
    var rest := names[1..];
    assert NormAll(names) == [NormIdent(names[0])] + NormAll(rest);
    if NormIdent(names[0]) == k {
      DropsItself(d, k, names[0], ifExists);
    } else {
      DropOneOff(d, k, names[0], ifExists);
      OwnDrop(DropOneP(d, names[0], ifExists).state, k, rest, ifExists);
      var others := OtherNames(rest, k);
      assert ([names[0]] + others)[0] == names[0] && ([names[0]] + others)[1..] == others;
    }
  }

  lemma DropsItself(d: Database, k: string, name: string, ifExists: bool)
    requires Live(d.tables, k) && NormIdent(name) == k
    ensures DropOneP(d, name, ifExists) == Ran(Erased(d, k), Done)
  {
    hide NormIdent, RemoveAt, Find, WithoutTable, ObjectKey;
  }

  // ---- Whole runs ----

  lemma {:induction false} RunAbsorbs(d: Database, k: string, ss: seq<Statement>)
    requires Live(d.tables, k) && Absorbed(d, k, ss) && RunP(d, ss).outcome.Done?
    ensures RunP(Erased(d, k), Without(d, k, ss)) == RunP(d, ss)
    decreases |ss|
  {
    var s, d' := ss[0], ApplyP(d, ss[0]).state;
    hide ApplyP, Live, Erased, Separate, Mine, KeyAfter;
    if !Mine(d, k, s) {
      OffStep(d, k, s);
      RunAbsorbs(d', k, ss[1..]);
      var rest := Without(d', k, ss[1..]);
      assert ([s] + rest)[0] == s && ([s] + rest)[1..] == rest;
    } else if s.DropTable? {
      OtherDropsRun(d, k, s, ss[1..]);
    } else {
      OwnStep(d, k, s);
      RunAbsorbs(d', KeyAfter(d, k, s), ss[1..]);
    }
  }

  /** What is left of the DROP TABLE, then the rest of the run. */
  lemma OtherDropsRun(d: Database, k: string, s: Statement, ss: seq<Statement>)
    requires Live(d.tables, k) && s.DropTable? && Mine(d, k, s) && ApplyP(d, s).outcome.Done?
    ensures RunP(Erased(d, k), OtherDrops(s, k) + ss) == RunP(ApplyP(d, s).state, ss)
    ensures NoCollisions(ApplyP(d, s).state, ss) ==> NoCollisions(Erased(d, k), OtherDrops(s, k) + ss)
  {
    var names := OtherNames(s.tableNames, k);
    OwnDrop(d, k, s.tableNames, s.ifExists);
    hide NormIdent, NormAll, Erased, Live, OtherNames, NoCollision;
    if names == [] {
      assert [] + ss == ss;
    } else {
      var left := DropTable(names, s.ifExists);
      assert ([left] + ss)[0] == left && ([left] + ss)[1..] == ss;
      assert ApplyP(Erased(d, k), left) == ApplyP(d, s);
      DropsFree(Erased(d, k), left);
      hide ApplyP;
    }
  }

  lemma DropsFree(d: Database, s: Statement)
    requires s.DropTable?
    ensures NoCollision(d, s)
  {
  }

  /** A new table without indexes is all that its creation adds. */
  lemma CreatedThenErased(d: Database, t: TableDef)
    requires CreateTableP(d, t).outcome.Done?
    requires forall i :: 0 <= i < |d.indexes| ==> !Of(d.indexes[i], NormIdent(t.name))
    ensures var d' := CreateTableP(d, t).state; Live(d'.tables, NormIdent(t.name)) && Erased(d', NormIdent(t.name)) == d
  {
    var k, ts := NormIdent(t.name), d.tables + [t];
    FindMember(TableKeys(d.tables), k);
    NothingOf(d.indexes, k);
    hide NormIdent, WithoutTable;
    forall i | 0 <= i < |d.tables| ensures TableKeys(ts)[i] != k {
      assert TableKeys(ts)[i] == TableKeys(d.tables)[i];
    }
    FindIs(TableKeys(ts), k, |d.tables|);
    forall i | 0 <= i < |ts| && NormIdent(ts[i].name) == k ensures i == |d.tables| { assert TableKeys(ts)[i] == k; }
    assert RemoveAt(ts, |d.tables|) == d.tables;
  }

  lemma {:induction false} NothingOf(xs: seq<IndexDef>, k: string)
    requires forall i :: 0 <= i < |xs| ==> !Of(xs[i], k)
    ensures WithoutTable(xs, k) == xs
    decreases |xs|
  {
    hide NormIdent;
    if xs != [] { NothingOf(xs[1..], k); }
  }

  /** Creating a table, working on it, and dropping it, with any statements on
      other objects in between, ends where the run without it ends. */
  lemma Absorption(d: Database, create: Statement, ss: seq<Statement>)
    requires create.CreateTable?
    requires var k := NormIdent(create.tableName);
             && (forall i :: 0 <= i < |d.indexes| ==> !Of(d.indexes[i], k))
             && Absorbed(ApplyP(d, create).state, k, ss)
    requires RunP(d, [create] + ss).outcome.Done?
    ensures RunP(d, Without(ApplyP(d, create).state, NormIdent(create.tableName), ss)) == RunP(d, [create] + ss)
  {
    var CreateTable(name, temporary, unlogged, columns, constraints, partitionBy) := create;
    assert ([create] + ss)[0] == create && ([create] + ss)[1..] == ss;
    CreatedThenErased(d, TableDef(name, temporary, unlogged, columns, constraints, partitionBy));
    hide NormIdent, Absorbed, Without, CreateTableP;
    RunAbsorbs(ApplyP(d, create).state, NormIdent(name), ss);
  }

  // ---- The same with the position maps ----

  lemma FewerKeysSafe(keys: seq<string>, fewer: seq<string>, first: string, targets: seq<string>)
    requires forall x :: x in fewer ==> x in keys
    ensures RenamesSafe(keys, first, targets) ==> RenamesSafe(fewer, first, targets)
  {
  }

  lemma AlterTableFree(d: Database, k: string, name: string, actions: seq<Action>)
    requires Live(d.tables, k) && NormIdent(name) != k && NoCollision(d, AlterTable(name, actions))
    ensures NoCollision(Erased(d, k), AlterTable(name, actions))
  {
    var q, key := Find(TableKeys(d.tables), k), NormIdent(name);
    var p := Find(TableKeys(d.tables), key);
    FindOther(d.tables, k, key);
    if p >= 0 {
      RemoveUpdate(d.tables, q, p, d.tables[p]);
      TableKeysRemove(d.tables, q);
      hide NormIdent, RenamesRun, FindFrom, RenamesSafe;
      FewerKeysSafe(TableKeys(d.tables), TableKeys(RemoveAt(d.tables, q)), key, RenamesRun(d.tables[p], actions));
    }
  }

  lemma OffFree(d: Database, k: string, s: Statement)
    requires Live(d.tables, k) && !Mine(d, k, s) && NoCollision(d, s)
    ensures NoCollision(Erased(d, k), s)
  {
    hide NormIdent, FindFrom, RenamesRun, RenamesSafe, ObjectKey, WithoutTable, RemoveAt;
    match s
    case AlterTable(name, actions) => AlterTableFree(d, k, name, actions);
    case AlterIndex(name, newName) =>
      if NormIdent(name) !in IndexKeys(d.indexes) { WithoutKeys(d.indexes, k, NormIdent(name)); }
      if NormIdent(newName) !in IndexKeys(d.indexes) { WithoutKeys(d.indexes, k, NormIdent(newName)); }
    case _ =>
  }

  lemma {:induction false} WithoutFree(d: Database, k: string, ss: seq<Statement>)
    requires Live(d.tables, k) && Absorbed(d, k, ss) && NoCollisions(d, ss) && RunP(d, ss).outcome.Done?
    ensures NoCollisions(Erased(d, k), Without(d, k, ss))
    decreases |ss|
  {
    var s, d' := ss[0], ApplyP(d, ss[0]).state;
    hide ApplyP, Live, Erased, Separate, Mine, KeyAfter, NoCollision;
    if !Mine(d, k, s) {
      OffStep(d, k, s);
      OffFree(d, k, s);
      WithoutFree(d', k, ss[1..]);
      var rest := Without(d', k, ss[1..]);
      assert ([s] + rest)[0] == s && ([s] + rest)[1..] == rest;
    } else if s.DropTable? {
      OtherDropsRun(d, k, s, ss[1..]);
    } else {
      OwnStep(d, k, s);
      WithoutFree(d', KeyAfter(d, k, s), ss[1..]);
    }
  }

  /** A list of keys has at most one inverse. */
  lemma InverseUnique(keys: seq<string>, m: Index, n: Index)
    requires Inverse(keys, m) && Inverse(keys, n)
    ensures m == n
  {
    forall k ensures (k in m <==> k in n) && (k in m ==> m[k] == n[k]) {
      if k in m { assert keys[m[k]] == k; }
      if k in n { assert keys[n[k]] == k; }
    }
  }

  lemma ConsistentUnique(x: Schema, y: Schema)
    requires Consistent(x) && Consistent(y) && x.db == y.db
    ensures x == y
  {
    InverseUnique(TableKeys(x.db.tables), x.at.tables, y.at.tables);
    InverseUnique(SequenceKeys(x.db.sequences), x.at.sequences, y.at.sequences);
    InverseUnique(TypeKeys(x.db.types), x.at.types, y.at.types);
    InverseUnique(IndexKeys(x.db.indexes), x.at.indexes, y.at.indexes);
    InverseUnique(ObjectKeys(x.db.objects), x.at.objects, y.at.objects);
    InverseUnique(TruncateKeys(x.db.truncates), x.at.truncates, y.at.truncates);
    hide Inverse;
  }

  /** The absorbed run and the run without the table end in the same schema,
      position maps included. */
  lemma AbsorptionWithMaps(x: Schema, create: Statement, ss: seq<Statement>)
    requires Consistent(x) && NoCollisions(x.db, [create] + ss) && RunX(x, [create] + ss).outcome.Done?
    requires create.CreateTable?
    requires var k := NormIdent(create.tableName);
             && (forall i :: 0 <= i < |x.db.indexes| ==> !Of(x.db.indexes[i], k))
             && Absorbed(ApplyP(x.db, create).state, k, ss)
    ensures RunX(x, Without(ApplyP(x.db, create).state, NormIdent(create.tableName), ss)) == RunX(x, [create] + ss)
  {
    var all, k, d' := [create] + ss, NormIdent(create.tableName), ApplyP(x.db, create).state;
    var fewer := Without(d', k, ss);
    var CreateTable(name, temporary, unlogged, columns, constraints, partitionBy) := create;
    RunRefines(x, all);
    assert all[0] == create && all[1..] == ss;
    CreatedThenErased(x.db, TableDef(name, temporary, unlogged, columns, constraints, partitionBy));
    hide NormIdent, Absorbed, Without, CreateTableP, Live, Erased, RunX, Consistent, NoCollision, Of;
    WithoutFree(d', k, ss);
    RunRefines(x, fewer);
    Absorption(x.db, create, ss);
    ConsistentUnique(RunX(x, all).state, RunX(x, fewer).state);
  }
}
