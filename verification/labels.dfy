/** Enum labels: where a new one goes, and when all labels stay distinct. */
module Labels {
  import opened Text
  import opened Ast
  import opened Positions
  import opened Catalog
  import opened Indexed
  import opened Plain
  import opened Absorption

  lemma DistinctInsert(labels: seq<string>, i: nat, x: string)
    requires i <= |labels| && Distinct(labels) && x !in labels
    ensures Distinct(InsertAt(labels, i, x)) && Find(InsertAt(labels, i, x), x) == i
    ensures RemoveAt(InsertAt(labels, i, x), i) == labels
  {
    var r := InsertAt(labels, i, x);
    assert forall j :: 0 <= j < |r| ==> r[j] == if j < i then labels[j] else if j == i then x else labels[j - 1];
    FindIs(r, x, i);
  }

  lemma FindInserted(labels: seq<string>, i: nat, x: string, y: string)
    requires i <= |labels| && Distinct(labels) && x !in labels && y in labels
    ensures Find(InsertAt(labels, i, x), y) == Find(labels, y) + if Find(labels, y) < i then 0 else 1
  {
    var r := InsertAt(labels, i, x);
    FindMember(labels, y);
    var p := Find(labels, y);
    assert forall j :: 0 <= j < |r| ==> r[j] == if j < i then labels[j] else if j == i then x else labels[j - 1];
    FindIs(r, y, p + if p < i then 0 else 1);
  }

  /** ADD VALUE puts the label next to its anchor, or last, and taking it out
      again gives the old labels in their old order. */
  lemma AddedLabelPlace(labels: seq<string>, value: string, ifNotExists: bool, before: string, after: string)
    requires Distinct(labels) && value !in labels && AddLabel(labels, value, ifNotExists, before, after).Changed?
    ensures var r := AddLabel(labels, value, ifNotExists, before, after).value;
            var p := Find(r, value);
            && 0 <= p < |r| == |labels| + 1 && RemoveAt(r, p) == labels && Distinct(r)
            && (before != "" ==> p + 1 < |r| && r[p + 1] == before)
            && (before == "" && after != "" ==> p > 0 && r[p - 1] == after)
            && (before == "" && after == "" ==> p == |labels|)
  {
    FindMember(labels, value);
    var i := if before != "" then Find(labels, before) else if after != "" then Find(labels, after) + 1 else |labels|;
    assert labels + [value] == InsertAt(labels, |labels|, value);
    DistinctInsert(labels, i, value);
    assert InsertAt(labels, i, value)[i] == value;
    assert before != "" ==> InsertAt(labels, i, value)[i + 1] == labels[i];
    assert before == "" && after != "" ==> InsertAt(labels, i, value)[i - 1] == labels[i - 1];
    hide FindFrom, Distinct, RemoveAt, InsertAt;
  }

  /** A refused ADD VALUE is a repeated label or a missing anchor. */
  lemma RefusedLabel(labels: seq<string>, value: string, ifNotExists: bool, before: string, after: string)
    ensures AddLabel(labels, value, ifNotExists, before, after).Refused? <==>
            if value in labels then !ifNotExists
            else (before != "" && before !in labels) || (before == "" && after != "" && after !in labels)
  {
    FindMember(labels, value);
    FindMember(labels, before);
    FindMember(labels, after);
    hide FindFrom, InsertAt;
  }

  // ---- Distinct labels over runs ----

  ghost predicate DistinctLabels(es: seq<EnumDef>) {
    forall i :: 0 <= i < |es| ==> Distinct(es[i].labels)
  }

  /** CREATE TYPE lists distinct labels, and RENAME VALUE takes a free one. */
  ghost predicate LabelsFree(d: Database, s: Statement) {
    match s
    case CreateType(name, labels) => NormIdent(name) in TypeKeys(d.types) || Distinct(labels)
    case AlterType(name, RenameValue(value, newValue)) =>
      var p := Find(TypeKeys(d.types), NormIdent(name));
      p >= 0 ==> value !in d.types[p].labels || newValue == value || newValue !in d.types[p].labels
    case _ => true
  }

  lemma RenamedDistinct(labels: seq<string>, value: string, newValue: string)
    requires Distinct(labels) && Find(labels, value) >= 0
    ensures Distinct(labels[Find(labels, value) := newValue]) <==> newValue == value || newValue !in labels
  {
    FindMember(labels, value);
    var i := Find(labels, value);
    var r := labels[i := newValue];
    if newValue != value && newValue in labels {
      var j :| 0 <= j < |labels| && labels[j] == newValue;
      assert r[i] == r[j] && i != j;
    } else if newValue == value {
      assert r == labels;
    }
  }

  lemma ChangedLabels(labels: seq<string>, a: TypeAction)
    requires Distinct(labels) && !a.RenameType? && LabelAction(labels, a).Changed?
    ensures Distinct(LabelAction(labels, a).value) <==>
            (a.RenameValue? ==> a.newValue == a.value || a.newValue !in labels)
  {
    match a
    case AddValue(value, ifNotExists, before, after) =>
      FindMember(labels, value);
      if value !in labels { AddedLabelPlace(labels, value, ifNotExists, before, after); }
      hide FindFrom, Distinct, InsertAt;
    case RenameValue(value, newValue) =>
      FindMember(labels, value);
      if value in labels { RenamedDistinct(labels, value, newValue); }
      hide FindFrom, Distinct;
  }

  lemma UpdatedLabels(es: seq<EnumDef>, p: nat, e: EnumDef)
    requires DistinctLabels(es) && p < |es|
    ensures DistinctLabels(es[p := e]) <==> Distinct(e.labels)
  {
    hide Distinct;
    assert es[p := e][p] == e;
  }

  lemma AlterTypeLabels(d: Database, name: string, a: TypeAction)
    requires DistinctLabels(d.types)
    ensures DistinctLabels(AlterTypeP(d, name, a).state.types) <==> LabelsFree(d, AlterType(name, a))
  {
    var p := Find(TypeKeys(d.types), NormIdent(name));
    hide FindFrom, NormIdent, ObjectKey, Patterns.ReplaceTypeName, Distinct;
    if p >= 0 {
      var e := d.types[p];
      assert Distinct(e.labels);
      if a.RenameType? {
        UpdatedLabels(d.types, p, e.(name := a.newName));
      } else {
        if LabelAction(e.labels, a).Changed? {
          ChangedLabels(e.labels, a);
          UpdatedLabels(d.types, p, e.(labels := LabelAction(e.labels, a).value));
        }
        if a.RenameValue? { FindMember(e.labels, a.value); }
      }
    }
  }

  lemma CreateTypeLabels(d: Database, x: EnumDef)
    requires DistinctLabels(d.types)
    ensures DistinctLabels(CreateTypeP(d, x).state.types) <==> NormIdent(x.name) in TypeKeys(d.types) || Distinct(x.labels)
  {
    FindMember(TypeKeys(d.types), NormIdent(x.name));
    hide FindFrom, NormIdent, Distinct;
    assert (d.types + [x])[|d.types|] == x;
  }

  lemma SameTypes(d: Database, s: Statement)
    requires !s.CreateType? && !s.AlterType? && !s.DropType?
    ensures ApplyP(d, s).state.types == d.types
  {
    hide NormIdent, ObjectKey, KindText, FindFrom, TruncateKey, ActionsP, DropTablesP, ApplyOptions;
    match s
    case AlterTable(name, actions) =>
      var p := Find(TableKeys(d.tables), NormIdent(name));
      if p >= 0 { ActionsShape(d, p, NormIdent(name), actions); }
    case DropTable(names, ifExists) => DropsKeepTypes(d, names, ifExists);
    case _ =>
  }

  lemma DropTypeLabels(d: Database, name: string, ifExists: bool)
    requires DistinctLabels(d.types)
    ensures DistinctLabels(DropTypeP(d, name, ifExists).state.types)
  {
    hide NormIdent, ObjectKey, FindFrom, Distinct;
  }

  lemma {:induction false} DropsKeepTypes(d: Database, names: seq<string>, ifExists: bool)
    ensures DropTablesP(d, names, ifExists).state.types == d.types
    decreases |names|
  {
    hide NormIdent, ObjectKey, FindFrom, WithoutTable;
    if names != [] { DropsKeepTypes(DropOneP(d, names[0], ifExists).state, names[1..], ifExists); }
  }

  /** A statement keeps the labels of every type distinct exactly when it lists
      distinct labels and renames to a free one. */
  lemma StepLabels(d: Database, s: Statement)
    requires DistinctLabels(d.types)
    ensures DistinctLabels(ApplyP(d, s).state.types) <==> LabelsFree(d, s)
  {
    match s
    case CreateType(name, labels) =>
      hide DistinctLabels, CreateTypeP, NormIdent, Distinct;
      CreateTypeLabels(d, EnumDef(name, labels));
    case AlterType(name, a) =>
      hide DistinctLabels, AlterTypeP, LabelsFree;
      AlterTypeLabels(d, name, a);
    case DropType(name, ifExists) =>
      hide DistinctLabels, DropTypeP;
      DropTypeLabels(d, name, ifExists);
    case _ =>
      hide DistinctLabels, ApplyP;
      SameTypes(d, s);
  }

  ghost predicate AllLabelsFree(d: Database, ss: seq<Statement>)
    decreases |ss|
  {
    ss == [] ||
    (LabelsFree(d, ss[0]) && (ApplyP(d, ss[0]).outcome.Done? ==> AllLabelsFree(ApplyP(d, ss[0]).state, ss[1..])))
  }

  /** In every state of the run, no type lists a label twice. */
  ghost predicate AlwaysDistinct(d: Database, ss: seq<Statement>)
    decreases |ss|
  {
    && DistinctLabels(d.types)
    && (ss != [] ==>
          var r := ApplyP(d, ss[0]);
          if r.outcome.Done? then AlwaysDistinct(r.state, ss[1..]) else DistinctLabels(r.state.types))
  }

  lemma {:induction false} RunLabels(d: Database, ss: seq<Statement>)
    requires DistinctLabels(d.types)
    ensures AlwaysDistinct(d, ss) <==> AllLabelsFree(d, ss)
    decreases |ss|
  {
    if ss != [] {
      StepLabels(d, ss[0]);
      var r := ApplyP(d, ss[0]);
      hide ApplyP, LabelsFree, DistinctLabels;
      if r.outcome.Done? && LabelsFree(d, ss[0]) { RunLabels(r.state, ss[1..]); }
    }
  }
}
