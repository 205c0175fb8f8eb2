/** What a failed statement leaves behind, and the runs that break the maps. */
module Failure {
  import opened Text
  import opened Ast
  import opened Positions
  import opened Catalog
  import opened Indexed
  import opened Refinement

  /** The number of actions that run before the first refused one. */
  function ActionsDone(t: TableDef, actions: seq<Action>): (n: nat)
    ensures n <= |actions|
    decreases |actions|
  {
    if actions == [] then 0
    else
      match TableAction(t, actions[0])
      case Refused(_) => 0
      case Changed(t') => 1 + ActionsDone(t', actions[1..])
  }

  /** A failing row of actions stops before the first refused action, in the
      state that the actions before it lead to. */
  lemma {:induction false} ActionsLeavePrefix(x: Schema, p: nat, oldKey: string, actions: seq<Action>)
    requires p < |x.db.tables|
    ensures var n := ActionsDone(x.db.tables[p], actions);
            var r := ActionsX(x, p, oldKey, actions);
            && (r.outcome.Done? <==> n == |actions|)
            && ActionsX(x, p, oldKey, actions[..n]) == Ran(r.state, Done)
            && |r.state.db.tables| == |x.db.tables|
            && (n < |actions| ==>
                  var c := TableAction(r.state.db.tables[p], actions[n]);
                  c.Refused? && r.outcome == Failed(c.error))
    decreases |actions|
  {
    hide TableAction, RenameTable, NormIdent;
    if actions != [] {
      var t := x.db.tables[p];
      RenameIsChange(t, actions[0]);
      match TableAction(t, actions[0])
      case Refused(_) => assert actions[..0] == [];
      case Changed(t') =>
        var x' := if actions[0].RenameTo? then RenameTableX(x, p, oldKey, actions[0].newName)
                  else x.(db := x.db.(tables := x.db.tables[p := t']));
        ActionsLeavePrefix(x', p, oldKey, actions[1..]);
        var n := 1 + ActionsDone(t', actions[1..]);
        assert actions[..n][0] == actions[0] && actions[..n][1..] == actions[1..][..n - 1];
    }
  }

  lemma RenameIsChange(t: TableDef, a: Action)
    ensures a.RenameTo? ==> TableAction(t, a) == Changed(RenameTable(t, a.newName))
  {
  }

  /** The number of names dropped before the first missing one. */
  function NamesDone(x: Schema, names: seq<string>, ifExists: bool): (n: nat)
    ensures n <= |names|
    decreases |names|
  {
    if names == [] || !DropOneX(x, names[0], ifExists).outcome.Done? then 0
    else 1 + NamesDone(DropOneX(x, names[0], ifExists).state, names[1..], ifExists)
  }

  lemma DropTablesStep(x: Schema, names: seq<string>, ifExists: bool)
    requires names != []
    ensures var r := DropOneX(x, names[0], ifExists);
            DropTablesX(x, names, ifExists) == if r.outcome.Done? then DropTablesX(r.state, names[1..], ifExists) else r
    ensures DropTablesX(x, [], ifExists) == Ran(x, Done)
  {
    hide DropOneX;
  }

  lemma PrefixTail(names: seq<string>, n: nat)
    requires 0 < n <= |names|
    ensures names[..n] != [] && names[..n][0] == names[0] && names[..n][1..] == names[1..][..n - 1]
  {
  }

  lemma {:induction false} NamesLeavePrefix(x: Schema, names: seq<string>, ifExists: bool)
    ensures var n := NamesDone(x, names, ifExists);
            var r := DropTablesX(x, names, ifExists);
            && (r.outcome.Done? <==> n == |names|)
            && DropTablesX(x, names[..n], ifExists) == Ran(r.state, Done)
            && (n < |names| ==> DropOneX(r.state, names[n], ifExists) == r)
    decreases |names|
  {
    hide DropOneX, DropTablesX;
    DropTablesStep(x, [""], ifExists);
    if names == [] {
      assert names[..0] == [];
    } else {
      DropTablesStep(x, names, ifExists);
      if DropOneX(x, names[0], ifExists).outcome.Done? {
        var x' := DropOneX(x, names[0], ifExists).state;
        NamesLeavePrefix(x', names[1..], ifExists);
        var n := 1 + NamesDone(x', names[1..], ifExists);
        PrefixTail(names, n);
        DropTablesStep(x, names[..n], ifExists);
      } else {
        DropOneKeeps(x, names[0], ifExists);
        assert names[..0] == [];
      }
    }
  }

  lemma DropOneKeeps(x: Schema, name: string, ifExists: bool)
    ensures !DropOneX(x, name, ifExists).outcome.Done? ==> DropOneX(x, name, ifExists).state == x
  {
    hide NormIdent, ObjectKey, RemoveTable, RemoveObject;
  }

  /** The part of a statement that ran before the failure. */
  function Prefix(x: Schema, s: Statement): Option<Statement> {
    match s
    case AlterTable(name, actions) =>
      (match Look(x.at.tables, NormIdent(name), |x.db.tables|)
       case At(p) => Some(AlterTable(name, actions[..ActionsDone(x.db.tables[p], actions)]))
       case _ => None)
    case DropTable(names, ifExists) => Some(DropTable(names[..NamesDone(x, names, ifExists)], ifExists))
    case _ => None
  }

  /** A statement that fails or panics changes nothing, except that ALTER TABLE
      and DROP TABLE keep exactly the actions or names before the failing one. */
  lemma FailureLeavesPrefix(x: Schema, s: Statement)
    requires !ApplyX(x, s).outcome.Done?
    ensures match Prefix(x, s)
            case None => ApplyX(x, s).state == x
            case Some(done) => ApplyX(x, done) == Ran(ApplyX(x, s).state, Done)
  {
    hide NormIdent, ObjectKey, TruncateKey, LabelAction, ApplyOptions, Reindex, ActionsX, DropTablesX, ActionsDone, NamesDone;
    match s
    case AlterTable(name, actions) =>
      var hit := Look(x.at.tables, NormIdent(name), |x.db.tables|);
      if hit.At? { ActionsLeavePrefix(x, hit.pos, NormIdent(name), actions); }
    case DropTable(names, ifExists) => NamesLeavePrefix(x, names, ifExists);
    case _ =>
  }

  // ---- Runs that break the position maps ----

  function Bare(name: string): Statement { CreateTable(name, false, false, [], [], "") }

  lemma Keys()
    ensures NormIdent("a") == "a" && NormIdent("b") == "b" && NormIdent("c") == "c"
  {
    assert TrimSpace("a") == "a" && TrimSpace("b") == "b" && TrimSpace("c") == "c";
    assert Lower("a") == "a" && Lower("b") == "b" && Lower("c") == "c";
  }

  lemma RunCons(x: Schema, s: Statement, rest: seq<Statement>)
    ensures RunX(x, [s] + rest) ==
            if ApplyX(x, s).outcome.Done? then RunX(ApplyX(x, s).state, rest) else ApplyX(x, s)
  {
    hide ApplyX;
    assert ([s] + rest)[1..] == rest;
  }

  const TWO_RENAMES := [RenameTo("b"), RenameTo("c")]

  lemma FirstTable()
    ensures var r := ApplyX(NEW, Bare("a")); r.outcome.Done? && |r.state.db.tables| == 1 && r.state.at.tables == map["a" := 0]
  {
    Keys();
    hide NormIdent;
  }

  /** Both renames drop the first key only: the middle one stays behind. */
  lemma StaleKey(x: Schema)
    requires |x.db.tables| == 1 && x.at.tables == map["a" := 0]
    ensures var r := ApplyX(x, AlterTable("a", TWO_RENAMES));
            r.outcome.Done? && |r.state.db.tables| == 1 && r.state.at.tables == map["b" := 0, "c" := 0]
  {
    Keys();
    hide NormIdent, RenameTable, MoveIndexes;
    var x2 := RenameTableX(x, 0, "a", "b");
    assert TWO_RENAMES[1..] == [RenameTo("c")] && TWO_RENAMES[1..][1..] == [];
    assert ActionsX(x, 0, "a", TWO_RENAMES) == ActionsX(x2, 0, "a", TWO_RENAMES[1..]);
  }

  lemma EntryPastEnd(x: Schema)
    requires |x.db.tables| == 1 && x.at.tables == map["b" := 0, "c" := 0]
    ensures var r := ApplyX(x, DropTable(["b"], false));
            r.outcome.Done? && r.state.db.tables == [] && r.state.at.tables == map["c" := 0]
  {
    Keys();
    hide NormIdent, WithoutTable, ObjectKey;
    assert ["b"][1..] == [];
  }

  lemma PastEndPanics(x: Schema)
    requires x.db.tables == [] && x.at.tables == map["c" := 0]
    ensures ApplyX(x, AlterTable("c", [])).outcome == Crashed
  {
    Keys();
    hide NormIdent;
  }

  /** Two renames in one ALTER TABLE leave a stale key: dropping the table by it
      leaves the other entry past the end, and using that entry panics. */
  lemma RepeatedRenamePanics()
    ensures RunX(NEW, [Bare("a")] + ([AlterTable("a", TWO_RENAMES)] + ([DropTable(["b"], false)] + ([AlterTable("c", [])] + []))))
            .outcome == Crashed
  {
    hide ApplyX, RunX, TWO_RENAMES, Bare;
    FirstTable();
    var x1 := ApplyX(NEW, Bare("a")).state;
    StaleKey(x1);
    var x2 := ApplyX(x1, AlterTable("a", TWO_RENAMES)).state;
    EntryPastEnd(x2);
    var x3 := ApplyX(x2, DropTable(["b"], false)).state;
    PastEndPanics(x3);
    var ss3 := [AlterTable("c", [])] + [];
    var ss2 := [DropTable(["b"], false)] + ss3;
    var ss1 := [AlterTable("a", TWO_RENAMES)] + ss2;
    RunCons(NEW, Bare("a"), ss1);
    RunCons(x1, AlterTable("a", TWO_RENAMES), ss2);
    RunCons(x2, DropTable(["b"], false), ss3);
    RunCons(x3, AlterTable("c", []), []);
  }

  /** Renaming onto a live table succeeds and breaks the maps. */
  lemma CollidingRenameBreaks()
    ensures var r := RunX(NEW, [Bare("a"), Bare("b"), AlterTable("a", [RenameTo("b")])]);
            r.outcome.Done? && !Consistent(r.state)
  {
    Keys();
    var ss := [Bare("a"), Bare("b"), AlterTable("a", [RenameTo("b")])];
    hide NormIdent;
    var x1 := ApplyX(NEW, ss[0]).state;
    var x2 := ApplyX(x1, ss[1]).state;
    assert x2.at.tables == map["a" := 0, "b" := 1] && |x2.db.tables| == 2 && x2.db.tables[1].name == "b";
    var x3 := RenameTableX(x2, 0, "a", "b");
    assert [RenameTo("b")][1..] == [];
    assert ApplyX(x2, ss[2]) == Ran(x3, Done);
    assert x3.at.tables["b"] == 0 && TableKeys(x3.db.tables)[1] == "b";
    hide ApplyX;
    assert ss[1..][1..] == [ss[2]] && ss[1..][0] == ss[1];
    assert RunX(x2, ss[1..][1..]) == Ran(x3, Done);
    assert RunX(x1, ss[1..]) == Ran(x3, Done);
  }

  const QUOTED_ADDR := "\"Addr2\""

  const ADDR := "addr2"

  lemma QuotedKeys()
    ensures NormIdent(QUOTED_ADDR) == ADDR && |ObjectKey(TypeKind, QUOTED_ADDR)| != |ObjectKey(TypeKind, ADDR)|
  {
    var q := QUOTED_ADDR;
    assert TrimSpace(ADDR) == ADDR && TrimSpace(q) == q;
    assert TrimQuotesLeft(q) == "Addr2\"" && TrimQuotesRight("Addr2\"") == "Addr2" && Lower("Addr2") == ADDR;
  }

  /** The only object, a type, gets a quoted name. */
  lemma QuotedRename(x: Schema, name: string)
    requires x.at.types == map[] && x.at.objects == map[ObjectKey(TypeKind, name) := 0]
    requires |x.db.objects| == 1 && x.db.objects[0].kind == TypeKind
    ensures var r := ApplyX(x, AlterType(name, RenameType(QUOTED_ADDR)));
            && r.outcome.Done? && r.state.at.types == map[]
            && r.state.at.objects == map[ObjectKey(TypeKind, QUOTED_ADDR) := 0]
            && ObjectKeys(r.state.db.objects) == [ObjectKey(TypeKind, ADDR)]
  {
    QuotedKeys();
    hide NormIdent, ObjectKey, Patterns.ReplaceTypeName, QUOTED_ADDR, ADDR;
  }

  lemma FiledWrongly(x: Schema)
    requires x.at.types == map[] && x.at.objects == map[ObjectKey(TypeKind, QUOTED_ADDR) := 0]
    requires ObjectKeys(x.db.objects) == [ObjectKey(TypeKind, ADDR)]
    ensures !Consistent(x) && ApplyX(x, DropType(ADDR, false)).outcome.Failed?
  {
    QuotedKeys();
    hide NormIdent, ObjectKey, QUOTED_ADDR, ADDR;
    assert ObjectKey(TypeKind, ADDR) !in x.at.objects;
    assert ObjectKeys(x.db.objects)[0] == ObjectKey(TypeKind, ADDR);
  }

  /** Renaming a composite type to a quoted name succeeds, but files the type
      under the raw name: the maps disagree, and the new name finds nothing. */
  lemma QuotedCompositeBreaks(name: string, sql: string)
    ensures var rename := AlterType(name, RenameType(QUOTED_ADDR));
            var r := RunX(NEW, [CreateObject(TypeKind, name, false, sql)] + ([rename] + []));
            && r.outcome.Done? && !Consistent(r.state)
            && ApplyX(r.state, DropType(ADDR, false)).outcome.Failed?
  {
    hide ApplyX, RunX, QUOTED_ADDR, ADDR, ObjectKey;
    var s1, s2 := CreateObject(TypeKind, name, false, sql), AlterType(name, RenameType(QUOTED_ADDR));
    FirstType(name, sql);
    var x1 := ApplyX(NEW, s1).state;
    QuotedRename(x1, name);
    var x2 := ApplyX(x1, s2).state;
    FiledWrongly(x2);
    RunCons(NEW, s1, [s2] + []);
    RunCons(x1, s2, []);
    RunNone(x2);
  }

  lemma FirstType(name: string, sql: string)
    ensures var r := ApplyX(NEW, CreateObject(TypeKind, name, false, sql));
            && r.outcome.Done? && r.state.at.types == map[] && r.state.at.objects == map[ObjectKey(TypeKind, name) := 0]
            && |r.state.db.objects| == 1 && r.state.db.objects[0].kind == TypeKind
  {
    hide ObjectKey;
  }

  lemma RunNone(x: Schema)
    ensures RunX(x, []) == Ran(x, Done)
  {
  }
}
