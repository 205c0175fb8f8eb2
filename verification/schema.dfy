/** The schema as the program keeps it: one mutable object with growing and
    shifting lists, six position maps, and tables that are updated in place.
    Every method is specified by the value-level effect in module Indexed. */
module SchemaState {
  import opened Text
  import opened Ast
  import opened Positions
  import opened Catalog
  import opened Patterns
  import I = Indexed

  // ---- Searches and list edits ----

  method FindColumnIdx(cols: seq<Column>, key: string) returns (r: int)
    ensures r == Find(ColumnKeys(cols), key)
  {
    hide NormIdent;
    for i := 0 to |cols|
      invariant FindFrom(ColumnKeys(cols), key, i) == Find(ColumnKeys(cols), key)
    {
      if NormIdent(cols[i].name) == key { return i; }
    }
    return -1;
  }

  method FindConstraintIdx(cs: seq<Constraint>, key: string) returns (r: int)
    ensures r == Find(ConstraintKeys(cs), key)
  {
    hide NormIdent;
    for i := 0 to |cs|
      invariant FindFrom(ConstraintKeys(cs), key, i) == Find(ConstraintKeys(cs), key)
    {
      if NormIdent(cs[i].name) == key { return i; }
    }
    return -1;
  }

  method FindLabelIdx(labels: seq<string>, value: string) returns (r: int)
    ensures r == Find(labels, value)
  {
    for i := 0 to |labels|
      invariant FindFrom(labels, value, i) == Find(labels, value)
    {
      if labels[i] == value { return i; }
    }
    return -1;
  }

  lemma ShiftedIs(labels: seq<string>, pos: nat, value: string, r: seq<string>)
    requires pos <= |labels| && |r| == |labels| + 1 && r[pos] == value
    requires forall k :: 0 <= k < pos ==> r[k] == labels[k]
    requires forall k :: pos < k <= |labels| ==> r[k] == labels[k - 1]
    ensures r == InsertAt(labels, pos, value)
  {
  }

  /** Grows the label array by one and shifts its tail right by one place. */
  method InsertLabel(labels: seq<string>, pos: nat, value: string) returns (r: seq<string>)
    requires pos <= |labels|
    ensures r == InsertAt(labels, pos, value)
  {
    hide InsertAt;
    var n := |labels|;
    var a := new string[n + 1](i => if 0 <= i < n then labels[i] else "");
    var i := n;
    while i > pos
      invariant pos <= i <= n
      invariant forall k :: 0 <= k < i ==> a[k] == labels[k]
      invariant forall k :: i < k <= n ==> a[k] == labels[k - 1]
    {
      a[i] := a[i - 1];
      i := i - 1;
    }
    a[pos] := value;
    r := a[..];
    ShiftedIs(labels, pos, value, r);
  }

  method ReplaceOrAppendInlineConstraint(cs: seq<string>, prefix: string, value: string) returns (r: seq<string>)
    ensures r == ReplaceOrAppendInline(cs, prefix, value)
  {
    hide Upper, HasPrefix;
    for i := 0 to |cs|
      invariant FindInline(cs, prefix, i) == FindInline(cs, prefix, 0)
    {
      if HasPrefix(Upper(cs[i]), prefix) { return cs[i := value]; }
    }
    return cs + [value];
  }

  method RemoveInlineConstraint(cs: seq<string>, prefix: string) returns (r: seq<string>)
    ensures r == RemoveInline(cs, prefix)
  {
    hide Upper, HasPrefix;
    for i := 0 to |cs|
      invariant FindInline(cs, prefix, i) == FindInline(cs, prefix, 0)
    {
      if HasPrefix(Upper(cs[i]), prefix) { return cs[..i] + cs[i + 1..]; }
    }
    return cs;
  }

  method SetGeneratedKind(cs: seq<string>, kind: string) returns (r: Option<seq<string>>)
    ensures r == SetIdentity(cs, kind)
  {
    hide Upper, HasPrefix, TrimSpace, ReplaceIdentityKind;
    for i := 0 to |cs|
      invariant FindIdentity(cs, i) == FindIdentity(cs, 0)
    {
      if HasPrefix(Upper(TrimSpace(cs[i])), "GENERATED") {
        return Some(cs[i := ReplaceIdentityKind(cs[i], 0, kind)]);
      }
    }
    return None;
  }

  /** Removing shortens the list exactly when something was there to remove. */
  lemma RemoveInlineLength(cs: seq<string>, prefix: string)
    ensures |RemoveInline(cs, prefix)| < |cs| <==> FindInline(cs, prefix, 0) >= 0
    ensures FindInline(cs, prefix, 0) < 0 ==> RemoveInline(cs, prefix) == cs
  {
  }

  /** One pass over the labels of one enum type. */
  method AlterLabels(labels: seq<string>, a: TypeAction) returns (r: Change<seq<string>>)
    requires !a.RenameType?
    ensures r == I.LabelAction(labels, a)
  {
    match a
    case AddValue(value, ifNotExists, before, after) =>
      var found := FindLabelIdx(labels, value);
      if found >= 0 {
        if ifNotExists { return Changed(labels); }
        return Refused(AlreadyExists("ADD VALUE", value));
      }
      if before != "" {
        var pos := FindLabelIdx(labels, before);
        if pos < 0 { return Refused(NotFound("ADD VALUE BEFORE", before)); }
        var ls := InsertLabel(labels, pos, value);
        return Changed(ls);
      } else if after != "" {
        var pos := FindLabelIdx(labels, after);
        if pos < 0 { return Refused(NotFound("ADD VALUE AFTER", after)); }
        var ls := InsertLabel(labels, pos + 1, value);
        return Changed(ls);
      }
      return Changed(labels + [value]);
    case RenameValue(value, newValue) =>
      var pos := FindLabelIdx(labels, value);
      if pos < 0 { return Refused(NotFound("RENAME VALUE", value)); }
      return Changed(labels[pos := newValue]);
  }

  // ---- Tables ----

  class Table {
    var name: string
    var temporary: bool
    var unlogged: bool
    var columns: seq<Column>
    var constraints: seq<Constraint>
    var partitionBy: string

    constructor (t: TableDef)
      ensures Value() == t
    {
      name, temporary, unlogged := t.name, t.temporary, t.unlogged;
      columns, constraints, partitionBy := t.columns, t.constraints, t.partitionBy;
    }

    function Value(): TableDef
      reads this
    {
      TableDef(name, temporary, unlogged, columns, constraints, partitionBy)
    }

    /** Drops the inline constraint that PostgreSQL would have named cKey. */
    method DropInlineConstraintByAutoName(cKey: string) returns (dropped: bool)
      modifies this`columns
      ensures match DropAutoNamed(old(columns), NormIdent(name), cKey)
              case Some(cols) => dropped && columns == cols
              case None => !dropped && columns == old(columns)
    {
      var tKey := NormIdent(name);
      hide NormIdent, RemoveInline, FindInline;
      if cKey == tKey + "_pkey" {
        for i := 0 to |columns|
          invariant columns == old(columns)
          invariant FindPrimaryKey(columns, i) == FindPrimaryKey(columns, 0)
        {
          RemoveInlineLength(columns[i].inline, "PRIMARY KEY");
          var rest := RemoveInlineConstraint(columns[i].inline, "PRIMARY KEY");
          var before := |columns[i].inline|;
          if |rest| < before {
            columns := columns[i := columns[i].(inline := rest)];
            return true;
          }
        }
      }
      for i := 0 to |columns|
        invariant columns == old(columns)
        invariant DropColumnConstraint(columns, tKey, cKey, i) == DropColumnConstraint(columns, tKey, cKey, 0)
        invariant cKey == tKey + "_pkey" ==> FindPrimaryKey(columns, 0) < 0
      {
        var stem := tKey + "_" + NormIdent(columns[i].name);
        var prefix := if cKey == stem + "_key" then "UNIQUE"
                      else if cKey == stem + "_fkey" then "REFERENCES"
                      else if cKey == stem + "_check" then "CHECK" else "";
        if prefix != "" {
          var rest := RemoveInlineConstraint(columns[i].inline, prefix);
          columns := columns[i := columns[i].(inline := rest)];
          return true;
        }
      }
      return false;
    }

    predicate OnInline(a: Action) {
      a.AddGenerated? || a.DropIdentity? || a.SetStorage? || a.SetCompression? || a.SetGenerated?
    }

    /** The actions on a column's inline constraints. */
    method ChangeInline(a: Action, i: nat) returns (refused: Option<Error>)
      requires i < |columns| && OnInline(a)
      modifies this`columns
      ensures match ColumnAction(old(Value()), a, i)
              case Refused(e) => refused == Some(e) && Value() == old(Value())
              case Changed(t) => refused == None && Value() == t
    {
      hide RemoveInline, ReplaceOrAppendInline, SetIdentity, ReplaceWord, FindInline;
      refused := None;
      var c := columns[i];
      match a
      case AddGenerated(_, clause) =>
        var cs := ReplaceOrAppendInlineConstraint(c.inline, "GENERATED", clause);
        columns := columns[i := c.(inline := cs)];
      case DropIdentity(column, ifExists) =>
        var cs := RemoveInlineConstraint(c.inline, "GENERATED");
        RemoveInlineLength(c.inline, "GENERATED");
        if |cs| == |c.inline| && !ifExists { return Some(NoIdentity("DROP IDENTITY", column)); }
        columns := columns[i := c.(inline := cs)];
      case SetStorage(_, storage) =>
        var cs := ReplaceOrAppendInlineConstraint(c.inline, "STORAGE", "STORAGE " + storage);
        columns := columns[i := c.(inline := cs)];
      case SetCompression(_, compression) =>
        var cs := ReplaceOrAppendInlineConstraint(c.inline, "COMPRESSION", "COMPRESSION " + compression);
        columns := columns[i := c.(inline := cs)];
      case SetGenerated(column, kind) =>
        var cs := SetGeneratedKind(c.inline, kind);
        if cs.None? { return Some(NoIdentity("SET GENERATED", column)); }
        columns := columns[i := c.(inline := cs.value)];
    }

    /** The actions that update a column found at position i. */
    method ChangeColumn(a: Action, i: nat) returns (refused: Option<Error>)
      requires i < |columns| && NeedsColumn(a)
      modifies this`columns, this`constraints
      ensures match ColumnAction(old(Value()), a, i)
              case Refused(e) => refused == Some(e) && Value() == old(Value())
              case Changed(t) => refused == None && Value() == t
    {
      hide RemoveInline, ReplaceOrAppendInline, SetIdentity, ReplaceWord, FindInline;
      if OnInline(a) {
        refused := ChangeInline(a, i);
        return;
      }
      refused := None;
      var c := columns[i];
      match a
      case DropColumn(_) => columns := columns[..i] + columns[i + 1..];
      case AlterColumnType(_, dataType) => columns := columns[i := c.(dataType := dataType)];
      case SetDefault(_, expr) => columns := columns[i := c.(default := Some(expr))];
      case DropDefault(_) => columns := columns[i := c.(default := None)];
      case SetNotNull(_) => columns := columns[i := c.(notNull := true)];
      case DropNotNull(_) => columns := columns[i := c.(notNull := false)];
      case RenameColumn(column, newName) =>
        RenameInDefinitions(column, newName);
        columns := columns[i := c.(name := newName)];
    }

    method RenameInDefinitions(column: string, newName: string)
      modifies this`constraints
      ensures constraints == RenameInConstraints(old(constraints), column, newName)
    {
      hide ReplaceWord;
      for i := 0 to |constraints|
        invariant |constraints| == |old(constraints)|
        invariant forall k :: 0 <= k < i ==> constraints[k] == RenameInConstraints(old(constraints), column, newName)[k]
        invariant forall k :: i <= k < |constraints| ==> constraints[k] == old(constraints)[k]
      {
        var c := constraints[i];
        constraints := constraints[i := c.(definition := ReplaceWord(c.definition, column, newName))];
      }
    }

    method AppendConstraint(c: Constraint) returns (refused: Option<Error>)
      modifies this`constraints
      ensures match AddConstraintTo(old(Value()), c)
              case Refused(e) => refused == Some(e) && Value() == old(Value())
              case Changed(t) => refused == None && Value() == t
    {
      hide NormIdent, Find;
      if c.name != "" {
        var i := FindConstraintIdx(constraints, NormIdent(c.name));
        if i >= 0 { return Some(AlreadyExists("ADD CONSTRAINT", c.name)); }
      }
      constraints := constraints + [c];
      return None;
    }

    method RemoveConstraint(cName: string, ifExists: bool) returns (refused: Option<Error>)
      modifies this`columns, this`constraints
      ensures match DropConstraintFrom(old(Value()), cName, ifExists)
              case Refused(e) => refused == Some(e) && Value() == old(Value())
              case Changed(t) => refused == None && Value() == t
    {
      hide NormIdent, Find, DropAutoNamed;
      var cKey := NormIdent(cName);
      var i := FindConstraintIdx(constraints, cKey);
      if i >= 0 {
        constraints := constraints[..i] + constraints[i + 1..];
        return None;
      }
      var dropped := DropInlineConstraintByAutoName(cKey);
      if dropped || ifExists { return None; }
      return Some(NotFound("DROP CONSTRAINT", cName));
    }

    predicate NeedsColumn(a: Action) {
      && !a.Skip? && !a.AddColumn? && !a.AddConstraint? && !a.DropConstraint? && !a.RenameConstraint? && !a.RenameTo?
    }

    /** The actions that need an existing column. */
    method ChangeFound(a: Action) returns (refused: Option<Error>)
      requires NeedsColumn(a)
      modifies this`columns, this`constraints
      ensures match TableAction(old(Value()), a)
              case Refused(e) => refused == Some(e) && Value() == old(Value())
              case Changed(t) => refused == None && Value() == t
    {
      hide NormIdent, ColumnAction, Find, ColumnOp;
      refused := None;
      var i := FindColumnIdx(columns, NormIdent(a.column));
      if i >= 0 {
        refused := ChangeColumn(a, i);
      } else if !ToleratesMissing(a) {
        return Some(NotFound(ColumnOp(a), a.column));
      }
    }

    /** What an action does to the table itself. */
    method Change(a: Action) returns (refused: Option<Error>)
      modifies this`name, this`columns, this`constraints
      ensures match TableAction(old(Value()), a)
              case Refused(e) => refused == Some(e) && Value() == old(Value())
              case Changed(t) => refused == None && Value() == t
    {
      hide NormIdent, ColumnAction, Find, AddConstraintTo, DropConstraintFrom, RenameTable;
      refused := None;
      match a
      case Skip =>
      case AddColumn(None) => return Some(MissingDefinition("ADD COLUMN"));
      case AddColumn(Some(c)) =>
        var i := FindColumnIdx(columns, NormIdent(c.name));
        if i >= 0 { return Some(AlreadyExists("ADD COLUMN", c.name)); }
        columns := columns + [c];
      case AddConstraint(c) =>
        refused := AppendConstraint(c);
      case DropConstraint(cName, ifExists) =>
        refused := RemoveConstraint(cName, ifExists);
      case RenameConstraint(cName, newName) =>
        var i := FindConstraintIdx(constraints, NormIdent(cName));
        if i < 0 { return Some(NotFound("RENAME CONSTRAINT", cName)); }
        constraints := constraints[i := constraints[i].(name := newName)];
      case RenameTo(newName) =>
        RedirectSelf(newName);
        name := newName;
      case _ => refused := ChangeFound(a);
    }

    /** Redirects the references the table makes to itself. */
    method RedirectSelf(newName: string)
      modifies this`columns, this`constraints
      ensures Value().(name := newName) == RenameTable(old(Value()), newName)
    {
      hide ReplaceReferences, RedirectInline;
      for i := 0 to |constraints|
        invariant columns == old(columns) && |constraints| == |old(constraints)|
        invariant forall k :: 0 <= k < i ==> constraints[k] == RedirectConstraints(old(constraints), name, newName)[k]
        invariant forall k :: i <= k < |constraints| ==> constraints[k] == old(constraints)[k]
      {
        var c := constraints[i];
        constraints := constraints[i := c.(definition := ReplaceReferences(c.definition, 0, name, newName))];
      }
      assert constraints == RedirectConstraints(old(constraints), name, newName);
      for i := 0 to |columns|
        invariant constraints == RedirectConstraints(old(constraints), name, newName)
        invariant |columns| == |old(columns)|
        invariant forall k :: 0 <= k < i ==> columns[k] == RedirectColumns(old(columns), name, newName)[k]
        invariant forall k :: i <= k < |columns| ==> columns[k] == old(columns)[k]
      {
        var cs := RedirectInlineConstraints(columns[i].inline, name, newName);
        columns := columns[i := columns[i].(inline := cs)];
      }
      assert columns == RedirectColumns(old(columns), name, newName);
    }
  }

  method RedirectInlineConstraints(cs: seq<string>, name: string, newName: string) returns (r: seq<string>)
    ensures r == RedirectInlines(cs, name, newName)
  {
    hide ReplaceReferences, HasPrefix, Upper, TrimSpace;
    r := cs;
    for j := 0 to |cs|
      invariant |r| == |cs|
      invariant forall k :: 0 <= k < j ==> r[k] == RedirectInline(cs[k], name, newName)
      invariant forall k :: j <= k < |cs| ==> r[k] == cs[k]
    {
      if HasPrefix(Upper(TrimSpace(cs[j])), "REFERENCES") {
        r := r[j := ReplaceReferences(cs[j], 0, name, newName)];
      }
    }
  }

  /** The values of a list of tables. */
  ghost function Values(ts: seq<Table>): (r: seq<TableDef>)
    reads ts
    ensures |r| == |ts|
  {
    seq(|ts|, i requires 0 <= i < |ts| reads ts => ts[i].Value())
  }

  // ---- The schema ----

  class Schema {
    var tables: seq<Table>
    var sequences: seq<SequenceDef>
    var types: seq<EnumDef>
    var indexes: seq<IndexDef>
    var objects: seq<ObjectDef>
    var truncates: seq<Truncate>
    var unknowns: seq<string>

    var tableIndex: Index
    var seqIndex: Index
    var typeIndex: Index
    var indexIndex: Index
    var objectIdx: Index
    var truncateIdx: Index

    /** No table object is listed twice. */
    ghost predicate Valid()
      reads this
    {
      forall i, j :: 0 <= i < j < |tables| ==> tables[i] != tables[j]
    }

    /** The schema as a value: its lists and its six maps. */
    ghost function View(): I.Schema
      reads this, tables
    {
      I.Schema(Database(Values(tables), sequences, types, indexes, objects, truncates, unknowns),
               I.Maps(tableIndex, seqIndex, typeIndex, indexIndex, objectIdx, truncateIdx))
    }

    constructor ()
      ensures Valid() && View() == I.NEW && tables == []
    {
      tables, sequences, types, indexes, objects, truncates, unknowns := [], [], [], [], [], [], [];
      tableIndex, seqIndex, typeIndex, indexIndex, objectIdx, truncateIdx := map[], map[], map[], map[], map[], map[];
    }

    // ---- Sequences ----

    method ApplyCreateSequence(d: SequenceDef) returns (outcome: I.Outcome)
      modifies this`sequences, this`seqIndex
      ensures I.Ran(View(), outcome) == I.CreateSequenceX(old(View()), d)
    {
      var key := NormIdent(d.name);
      if key in seqIndex { return I.Failed(AlreadyExists("CREATE SEQUENCE", d.name)); }
      seqIndex := seqIndex[key := |sequences|];
      sequences := sequences + [d];
      return I.Done;
    }

    method ApplyDropSequence(name: string, ifExists: bool) returns (outcome: I.Outcome)
      modifies this`sequences, this`seqIndex
      ensures I.Ran(View(), outcome) == I.DropSequenceX(old(View()), name, ifExists)
    {
      hide NormIdent;
      var key := NormIdent(name);
      if key !in seqIndex {
        if ifExists { return I.Done; }
        return I.Failed(NotFound("DROP SEQUENCE", name));
      }
      var idx := seqIndex[key];
      if idx >= |sequences| { return I.Crashed; }
      sequences := sequences[..idx] + sequences[idx + 1..];
      seqIndex := seqIndex - {key};
      ghost var goal := Reindex(SequenceKeys(sequences), seqIndex, idx);
      for i := idx to |sequences|
        invariant sequences == RemoveAt(old(sequences), idx)
        invariant Reindex(SequenceKeys(sequences), seqIndex, i) == goal
      {
        seqIndex := seqIndex[NormIdent(sequences[i].name) := i];
      }
      return I.Done;
    }

    method ApplyAlterSequence(name: string, newName: string) returns (outcome: I.Outcome)
      modifies this`sequences, this`seqIndex
      ensures I.Ran(View(), outcome) == I.AlterSequenceX(old(View()), name, newName)
    {
      var oldKey := NormIdent(name);
      if oldKey !in seqIndex { return I.Failed(NotFound("ALTER SEQUENCE", name)); }
      var idx := seqIndex[oldKey];
      if idx >= |sequences| { return I.Crashed; }
      sequences := sequences[idx := sequences[idx].(name := newName)];
      seqIndex := seqIndex - {oldKey};
      seqIndex := seqIndex[NormIdent(newName) := idx];
      return I.Done;
    }

    method ApplyAlterSequenceOpts(name: string, opts: seq<SeqOption>) returns (outcome: I.Outcome)
      modifies this`sequences
      ensures I.Ran(View(), outcome) == I.AlterSequenceOptsX(old(View()), name, opts)
    {
      hide NormIdent, ApplyOption;
      var key := NormIdent(name);
      if key !in seqIndex { return I.Failed(NotFound("ALTER SEQUENCE", name)); }
      var idx := seqIndex[key];
      if opts == [] {
        assert idx < |sequences| ==> sequences[idx := sequences[idx].(body := sequences[idx].body)] == sequences;
        return I.Done;
      }
      if idx >= |sequences| { return I.Crashed; }
      ghost var d := sequences[idx];
      for i := 0 to |opts|
        invariant |sequences| == |old(sequences)|
        invariant sequences == old(sequences)[idx := d.(body := sequences[idx].body)]
        invariant ApplyOptions(sequences[idx].body, opts[i..]) == ApplyOptions(d.body, opts)
      {
        assert opts[i..][1..] == opts[i + 1..];
        sequences := sequences[idx := sequences[idx].(body := ApplyOption(sequences[idx].body, opts[i]))];
      }
      return I.Done;
    }

    // ---- Types ----

    method ApplyCreateType(d: EnumDef) returns (outcome: I.Outcome)
      modifies this`types, this`typeIndex
      ensures I.Ran(View(), outcome) == I.CreateTypeX(old(View()), d)
    {
      var key := NormIdent(d.name);
      if key in typeIndex { return I.Failed(AlreadyExists("CREATE TYPE", d.name)); }
      typeIndex := typeIndex[key := |types|];
      types := types + [d];
      return I.Done;
    }

    /** Shifts an enum type out of the list and re-indexes the tail. */
    method DeleteType(key: string, idx: nat)
      requires idx < |types|
      modifies this`types, this`typeIndex
      ensures types == RemoveAt(old(types), idx)
      ensures typeIndex == Reindex(TypeKeys(types), old(typeIndex) - {key}, idx)
    {
      hide NormIdent;
      types := types[..idx] + types[idx + 1..];
      typeIndex := typeIndex - {key};
      ghost var goal := Reindex(TypeKeys(types), typeIndex, idx);
      for i := idx to |types|
        invariant types == RemoveAt(old(types), idx)
        invariant Reindex(TypeKeys(types), typeIndex, i) == goal
      {
        typeIndex := typeIndex[NormIdent(types[i].name) := i];
      }
    }

    method ApplyDropType(name: string, ifExists: bool) returns (outcome: I.Outcome)
      modifies this`types, this`typeIndex, this`objects, this`objectIdx
      ensures I.Ran(View(), outcome) == I.DropTypeX(old(View()), name, ifExists)
    {
      hide NormIdent, ObjectKey, Reindex;
      var key := NormIdent(name);
      if key in typeIndex {
        var idx := typeIndex[key];
        if idx >= |types| { return I.Crashed; }
        DeleteType(key, idx);
        return I.Done;
      }
      var objKey := ObjectKey(TypeKind, name);
      if objKey in objectIdx {
        var objIdx := objectIdx[objKey];
        if objIdx >= |objects| { return I.Crashed; }
        DeleteObject(objKey, objIdx);
        return I.Done;
      }
      if ifExists { return I.Done; }
      return I.Failed(NotFound("DROP TYPE", name));
    }

    method ApplyAlterType(name: string, a: TypeAction) returns (outcome: I.Outcome)
      modifies this`types, this`typeIndex, this`objects, this`objectIdx
      ensures I.Ran(View(), outcome) == I.AlterTypeX(old(View()), name, a)
    {
      hide NormIdent, ObjectKey, ReplaceTypeName, I.LabelAction;
      var key := NormIdent(name);
      if key !in typeIndex {
        if a.RenameType? {
          var objKey := ObjectKey(TypeKind, name);
          if objKey in objectIdx {
            var objIdx := objectIdx[objKey];
            if objIdx >= |objects| { return I.Crashed; }
            var newObjKey := ObjectKey(TypeKind, a.newName);
            var o := objects[objIdx];
            objects := objects[objIdx := o.(name := NormIdent(a.newName), sql := ReplaceTypeName(o.sql, name, a.newName))];
            objectIdx := objectIdx - {objKey};
            objectIdx := objectIdx[newObjKey := objIdx];
            return I.Done;
          }
        }
        return I.Failed(NotFound("ALTER TYPE", name));
      }
      var idx := typeIndex[key];
      if idx >= |types| { return I.Crashed; }
      if a.RenameType? {
        types := types[idx := types[idx].(name := a.newName)];
        typeIndex := typeIndex - {key};
        typeIndex := typeIndex[NormIdent(a.newName) := idx];
        return I.Done;
      }
      var change := AlterLabels(types[idx].labels, a);
      if change.Refused? { return I.Failed(change.error); }
      types := types[idx := types[idx].(labels := change.value)];
      return I.Done;
    }

    // ---- Indexes ----

    method ApplyCreateIndex(d: IndexDef) returns (outcome: I.Outcome)
      modifies this`indexes, this`indexIndex
      ensures I.Ran(View(), outcome) == I.CreateIndexX(old(View()), d)
    {
      hide NormIdent;
      var key := NormIdent(d.name);
      if key in indexIndex {
        if d.ifNotExists { return I.Done; }
        var pos := indexIndex[key];
        if pos >= |indexes| { return I.Crashed; }
        indexes := indexes[pos := d];
        return I.Done;
      }
      indexIndex := indexIndex[key := |indexes|];
      indexes := indexes + [d];
      return I.Done;
    }

    method ApplyDropIndex(name: string, ifExists: bool) returns (outcome: I.Outcome)
      modifies this`indexes, this`indexIndex
      ensures I.Ran(View(), outcome) == I.DropIndexX(old(View()), name, ifExists)
    {
      hide NormIdent;
      var key := NormIdent(name);
      if key !in indexIndex {
        if ifExists { return I.Done; }
        return I.Failed(NotFound("DROP INDEX", name));
      }
      var idx := indexIndex[key];
      if idx >= |indexes| { return I.Crashed; }
      indexes := indexes[..idx] + indexes[idx + 1..];
      indexIndex := indexIndex - {key};
      ghost var goal := Reindex(IndexKeys(indexes), indexIndex, idx);
      for i := idx to |indexes|
        invariant indexes == RemoveAt(old(indexes), idx)
        invariant Reindex(IndexKeys(indexes), indexIndex, i) == goal
      {
        indexIndex := indexIndex[NormIdent(indexes[i].name) := i];
      }
      return I.Done;
    }

    method ApplyAlterIndex(name: string, newName: string) returns (outcome: I.Outcome)
      modifies this`indexes, this`indexIndex
      ensures I.Ran(View(), outcome) == I.AlterIndexX(old(View()), name, newName)
    {
      var oldKey := NormIdent(name);
      if oldKey !in indexIndex { return I.Failed(NotFound("ALTER INDEX", name)); }
      var idx := indexIndex[oldKey];
      if idx >= |indexes| { return I.Crashed; }
      indexes := indexes[idx := indexes[idx].(name := newName)];
      indexIndex := indexIndex - {oldKey};
      indexIndex := indexIndex[NormIdent(newName) := idx];
      return I.Done;
    }

    // ---- Generic objects ----

    /** Shifts an object out of the list and re-indexes the tail. */
    method DeleteObject(key: string, idx: nat)
      requires idx < |objects|
      modifies this`objects, this`objectIdx
      ensures View() == I.RemoveObject(old(View()), key, idx)
    {
      hide ObjectKey;
      objects := objects[..idx] + objects[idx + 1..];
      objectIdx := objectIdx - {key};
      ghost var goal := Reindex(ObjectKeys(objects), objectIdx, idx);
      for i := idx to |objects|
        invariant objects == RemoveAt(old(objects), idx)
        invariant Reindex(ObjectKeys(objects), objectIdx, i) == goal
      {
        objectIdx := objectIdx[ObjectKey(objects[i].kind, objects[i].name) := i];
      }
    }

    method ApplyCreateObject(kind: ObjectKind, name: string, orReplace: bool, sql: string) returns (outcome: I.Outcome)
      modifies this`objects, this`objectIdx
      ensures I.Ran(View(), outcome) == I.CreateObjectX(old(View()), kind, name, orReplace, sql)
    {
      hide ObjectKey, KindText;
      var key := ObjectKey(kind, name);
      if key in objectIdx {
        if orReplace {
          var idx := objectIdx[key];
          if idx >= |objects| { return I.Crashed; }
          objects := objects[idx := objects[idx].(sql := sql, postAlters := [])];
          return I.Done;
        }
        return I.Failed(AlreadyExists("CREATE " + KindText(kind), name));
      }
      objectIdx := objectIdx[key := |objects|];
      objects := objects + [ObjectDef(kind, name, sql, [])];
      return I.Done;
    }

    method ApplyDropObject(kind: ObjectKind, name: string, ifExists: bool) returns (outcome: I.Outcome)
      modifies this`objects, this`objectIdx
      ensures I.Ran(View(), outcome) == I.DropObjectX(old(View()), kind, name, ifExists)
    {
      hide ObjectKey, KindText, I.RemoveObject;
      var key := ObjectKey(kind, name);
      if key !in objectIdx {
        if ifExists { return I.Done; }
        return I.Failed(NotFound("DROP " + KindText(kind), name));
      }
      var idx := objectIdx[key];
      if idx >= |objects| { return I.Crashed; }
      DeleteObject(key, idx);
      return I.Done;
    }

    method ApplyAlterObject(kind: ObjectKind, oldName: string, newName: string) returns (outcome: I.Outcome)
      modifies this`objects, this`objectIdx
      ensures I.Ran(View(), outcome) == I.AlterObjectX(old(View()), kind, oldName, newName)
    {
      hide ObjectKey, KindText;
      var oldKey := ObjectKey(kind, oldName);
      if oldKey !in objectIdx { return I.Failed(NotFound("ALTER " + KindText(kind), oldName)); }
      var idx := objectIdx[oldKey];
      if idx >= |objects| { return I.Crashed; }
      objects := objects[idx := objects[idx].(name := newName)];
      objectIdx := objectIdx - {oldKey};
      objectIdx := objectIdx[ObjectKey(kind, newName) := idx];
      return I.Done;
    }

    /** Shared end of ALTER FUNCTION and the other content-changing ALTERs. */
    method Attach(kind: ObjectKind, name: string, sql: string) returns (outcome: I.Outcome)
      modifies this`objects, this`unknowns
      ensures I.Ran(View(), outcome) == I.AttachX(old(View()), kind, name, sql)
    {
      hide ObjectKey;
      var key := ObjectKey(kind, name);
      if key !in objectIdx {
        unknowns := unknowns + [sql];
        return I.Done;
      }
      var idx := objectIdx[key];
      if idx >= |objects| { return I.Crashed; }
      objects := objects[idx := objects[idx].(postAlters := objects[idx].postAlters + [sql])];
      return I.Done;
    }

    method ApplyAlterObjectOpts(kind: ObjectKind, name: string, sql: string) returns (outcome: I.Outcome)
      modifies this`objects, this`unknowns
      ensures I.Ran(View(), outcome) ==
              if I.Untracked(kind, sql) then I.Ran(old(View()), I.Done)
              else I.AttachX(old(View()), kind, name, sql)
    {
      hide I.AttachX;
      if kind.Domain? {
        if Patterns.OwnerOrSchema(sql, "DOMAIN") { return I.Done; }
      }
      if kind.View? {
        if Patterns.OwnerOrSchema(sql, "VIEW") { return I.Done; }
      }
      outcome := Attach(kind, name, sql);
    }

    method ApplyTruncate(t: Truncate) returns (outcome: I.Outcome)
      modifies this`truncates, this`truncateIdx
      ensures I.Ran(View(), outcome) == I.TruncateX(old(View()), t)
    {
      hide TruncateKey;
      var key := TruncateKey(t);
      if key in truncateIdx {
        var idx := truncateIdx[key];
        if idx >= |truncates| { return I.Crashed; }
        truncates := truncates[idx := t];
      } else {
        truncateIdx := truncateIdx[key := |truncates|];
        truncates := truncates + [t];
      }
      return I.Done;
    }

    // ---- Tables ----

    method ApplyCreateTable(d: TableDef) returns (outcome: I.Outcome)
      requires Valid()
      modifies this`tables, this`tableIndex
      ensures Valid() && (forall t :: t in tables ==> t in old(tables) || fresh(t))
      ensures I.Ran(View(), outcome) == I.CreateTableX(old(View()), d)
    {
      hide NormIdent;
      var key := NormIdent(d.name);
      if key in tableIndex { return I.Failed(AlreadyExists("CREATE TABLE", d.name)); }
      var t := new Table(d);
      tableIndex := tableIndex[key := |tables|];
      tables := tables + [t];
      assert Values(tables) == old(Values(tables)) + [d];
      return I.Done;
    }

    /** The position of a table object in the list. */
    method PositionOf(t: Table, ghost p: nat) returns (i: nat)
      requires Valid() && p < |tables| && tables[p] == t
      ensures i == p
    {
      i := 0;
      while tables[i] != t
        invariant i <= p
        decreases p - i
      {
        i := i + 1;
      }
    }

    method ApplyRenameTo(t: Table, newName: string, oldKey: string, ghost p: nat)
      requires Valid() && p < |tables| && tables[p] == t
      modifies this`tableIndex, this`indexes, t
      ensures View() == I.RenameTableX(old(View()), p, oldKey, newName)
    {
      hide NormIdent, RenameTable, MoveIndexes;
      ghost var before := Values(tables);
      var newKey := NormIdent(newName);
      t.RedirectSelf(newName);
      tableIndex := tableIndex - {oldKey};
      t.name := newName;
      var i := PositionOf(t, p);
      tableIndex := tableIndex[newKey := i];
      assert Values(tables) == before[p := RenameTable(before[p], newName)];
      RenameInIndexes(oldKey, newName);
    }

    /** Every index of the old table name gets the new one. */
    method RenameInIndexes(oldKey: string, newName: string)
      modifies this`indexes
      ensures indexes == MoveIndexes(old(indexes), oldKey, newName)
    {
      hide NormIdent;
      for j := 0 to |indexes|
        invariant |indexes| == |old(indexes)|
        invariant forall k :: 0 <= k < j ==> indexes[k] == MoveIndexes(old(indexes), oldKey, newName)[k]
        invariant forall k :: j <= k < |indexes| ==> indexes[k] == old(indexes)[k]
      {
        if NormIdent(indexes[j].tableName) == oldKey {
          indexes := indexes[j := indexes[j].(tableName := newName)];
        }
      }
    }

    method ApplyAction(t: Table, a: Action, oldKey: string, ghost p: nat) returns (outcome: I.Outcome)
      requires Valid() && p < |tables| && tables[p] == t
      modifies this`tableIndex, this`indexes, t
      ensures I.ActionsX(old(View()), p, oldKey, [a]) == I.Ran(View(), outcome)
      ensures !outcome.Crashed?
    {
      hide NormIdent, RenameTable, TableAction;
      ghost var x := View();
      assert [a][1..] == [];
      if a.RenameTo? {
        ApplyRenameTo(t, a.newName, oldKey, p);
        return I.Done;
      }
      var refused := t.Change(a);
      if refused.Some? {
        assert Values(tables) == x.db.tables;
        return I.Failed(refused.value);
      }
      assert Values(tables) == x.db.tables[p := t.Value()];
      return I.Done;
    }

    method ApplyAlterTable(name: string, actions: seq<Action>) returns (outcome: I.Outcome)
      requires Valid()
      modifies this`tableIndex, this`indexes, tables
      ensures Valid() && tables == old(tables)
      ensures I.Ran(View(), outcome) == I.AlterTableX(old(View()), name, actions)
    {
      hide NormIdent, I.ActionsX;
      var key := NormIdent(name);
      if key !in tableIndex { return I.Failed(NotFound("ALTER TABLE", name)); }
      var idx := tableIndex[key];
      if idx >= |tables| { return I.Crashed; }
      var t := tables[idx];
      ghost var goal := I.ActionsX(View(), idx, key, actions);
      for i := 0 to |actions|
        invariant Valid() && tables == old(tables)
        invariant I.ActionsX(View(), idx, key, actions[i..]) == goal
      {
        SplitActions(View(), idx, key, actions[i], actions[i + 1..]);
        assert actions[i..] == [actions[i]] + actions[i + 1..];
        outcome := ApplyAction(t, actions[i], key, idx);
        if outcome.Failed? { return; }
      }
      NoActions(View(), idx, key);
      return I.Done;
    }

    /** Removes a table and its indexes, re-indexing both lists. */
    method RemoveTableAt(key: string, idx: nat)
      requires Valid() && idx < |tables|
      modifies this`tables, this`tableIndex, this`indexes, this`indexIndex
      ensures Valid() && tables == RemoveAt(old(tables), idx)
      ensures View() == I.RemoveTable(old(View()), key, idx)
    {
      hide NormIdent, Reindex, WithoutTable, TableKeys, IndexKeys, RemoveAt, Values;
      CutTable(idx);
      tableIndex := tableIndex - {key};
      ReindexTables(idx);
      KeepOtherIndexes(key);
      RebuildIndexIndex();
    }

    method CutTable(idx: nat)
      requires Valid() && idx < |tables|
      modifies this`tables
      ensures Valid() && |tables| == |old(tables)| - 1 && tables == RemoveAt(old(tables), idx)
      ensures idx < |old(Values(tables))| && Values(tables) == RemoveAt(old(Values(tables)), idx)
    {
      tables := tables[..idx] + tables[idx + 1..];
    }

    method ReindexTables(idx: nat)
      requires idx <= |tables|
      modifies this`tableIndex
      ensures tableIndex == Reindex(TableKeys(Values(tables)), old(tableIndex), idx)
    {
      hide NormIdent;
      for i := idx to |tables|
        invariant Reindex(TableKeys(Values(tables)), tableIndex, i) == Reindex(TableKeys(Values(tables)), old(tableIndex), idx)
      {
        tableIndex := tableIndex[NormIdent(tables[i].name) := i];
      }
    }

    method KeepOtherIndexes(key: string)
      modifies this`indexes
      ensures indexes == WithoutTable(old(indexes), key)
    {
      hide NormIdent;
      var kept := [];
      for i := 0 to |indexes|
        invariant kept + WithoutTable(indexes[i..], key) == WithoutTable(indexes, key)
      {
        assert indexes[i..][1..] == indexes[i + 1..];
        var ix := indexes[i];
        if NormIdent(ix.tableName) != key {
          assert kept + ([ix] + WithoutTable(indexes[i + 1..], key)) == kept + [ix] + WithoutTable(indexes[i + 1..], key);
          kept := kept + [ix];
        } else {
          assert [] + WithoutTable(indexes[i + 1..], key) == WithoutTable(indexes[i + 1..], key);
        }
      }
      assert kept + [] == kept;
      indexes := kept;
    }

    method RebuildIndexIndex()
      modifies this`indexIndex
      ensures indexIndex == Reindex(IndexKeys(indexes), map[], 0)
    {
      hide NormIdent;
      indexIndex := map[];
      for i := 0 to |indexes|
        invariant Reindex(IndexKeys(indexes), indexIndex, i) == Reindex(IndexKeys(indexes), map[], 0)
      {
        indexIndex := indexIndex[NormIdent(indexes[i].name) := i];
      }
    }

    method DropOneTable(name: string, ifExists: bool) returns (outcome: I.Outcome)
      requires Valid()
      modifies this
      ensures Valid() && (forall t :: t in tables ==> t in old(tables))
      ensures I.Ran(View(), outcome) == I.DropOneX(old(View()), name, ifExists)
    {
      hide NormIdent, ObjectKey, I.RemoveTable, I.RemoveObject;
      var key := NormIdent(name);
      if key !in tableIndex {
        var partKey := ObjectKey(Partition, name);
        if partKey in objectIdx {
          var partIdx := objectIdx[partKey];
          if partIdx >= |objects| { return I.Crashed; }
          DeleteObject(partKey, partIdx);
          return I.Done;
        }
        if ifExists { return I.Done; }
        return I.Failed(NotFound("DROP TABLE", name));
      }
      var idx := tableIndex[key];
      if idx >= |tables| { return I.Crashed; }
      RemoveTableAt(key, idx);
      return I.Done;
    }

    method ApplyDropTable(names: seq<string>, ifExists: bool) returns (outcome: I.Outcome)
      requires Valid()
      modifies this
      ensures Valid() && (forall t :: t in tables ==> t in old(tables))
      ensures I.Ran(View(), outcome) == I.DropTablesX(old(View()), names, ifExists)
    {
      hide I.DropOneX;
      for i := 0 to |names|
        invariant Valid() && (forall t :: t in tables ==> t in old(tables))
        invariant I.DropTablesX(View(), names[i..], ifExists) == I.DropTablesX(old(View()), names, ifExists)
      {
        assert names[i..][1..] == names[i + 1..];
        outcome := DropOneTable(names[i], ifExists);
        if !outcome.Done? { return; }
      }
      return I.Done;
    }

    method PassThrough(raw: string) returns (outcome: I.Outcome)
      requires Valid()
      modifies this
      ensures Valid() && tables == old(tables)
      ensures I.Ran(View(), outcome) == I.ApplyX(old(View()), Unknown(raw))
    {
      hide Values;
      unknowns := unknowns + [raw];
      return I.Done;
    }

    // ---- Every statement ----

    predicate OnObjects(s: Statement) {
      || s.CreateObject? || s.DropObject? || s.AlterObject? || s.AlterFunctionOpts? || s.AlterObjectOpts?
      || s.TruncateTables? || s.Unknown?
    }

    /** The statements on verbatim objects, TRUNCATE and pass-through texts. */
    method ApplyToObjects(s: Statement) returns (outcome: I.Outcome)
      requires Valid() && OnObjects(s)
      modifies this
      ensures Valid() && tables == old(tables)
      ensures I.Ran(View(), outcome) == I.ApplyX(old(View()), s)
    {
      hide I.CreateObjectX, I.DropObjectX, I.AlterObjectX, I.AttachX, I.TruncateX, I.Untracked, Values, View;
      match s
      case CreateObject(kind, name, orReplace, sql) => outcome := ApplyCreateObject(kind, name, orReplace, sql);
      case DropObject(kind, name, ifExists) => outcome := ApplyDropObject(kind, name, ifExists);
      case AlterObject(kind, oldName, newName) => outcome := ApplyAlterObject(kind, oldName, newName);
      case AlterFunctionOpts(kind, name, sql) => outcome := Attach(kind, name, sql);
      case AlterObjectOpts(kind, name, sql) => outcome := ApplyAlterObjectOpts(kind, name, sql);
      case TruncateTables(t) => outcome := ApplyTruncate(t);
      case Unknown(raw) => outcome := PassThrough(raw);
    }

    method Apply(s: Statement) returns (outcome: I.Outcome)
      requires Valid()
      modifies this, tables
      ensures Valid() && (forall t :: t in tables ==> t in old(tables) || fresh(t))
      ensures I.Ran(View(), outcome) == I.ApplyX(old(View()), s)
    {
      hide I.CreateTableX, I.AlterTableX, I.DropTablesX, I.CreateIndexX, I.DropIndexX, I.AlterIndexX,
           I.CreateSequenceX, I.DropSequenceX, I.CreateTypeX, I.DropTypeX, I.AlterTypeX, I.CreateObjectX,
           I.DropObjectX, I.AlterSequenceX, I.AlterSequenceOptsX, I.AlterObjectX, I.AttachX, I.TruncateX,
           I.Untracked, Values, View;
      match s
      case CreateTable(name, temporary, unlogged, columns, constraints, partitionBy) =>
        outcome := ApplyCreateTable(TableDef(name, temporary, unlogged, columns, constraints, partitionBy));
      case AlterTable(name, actions) => outcome := ApplyAlterTable(name, actions);
      case DropTable(names, ifExists) => outcome := ApplyDropTable(names, ifExists);
      case CreateIndex(name, tableName, unique, concurrently, ifNotExists, body) =>
        outcome := ApplyCreateIndex(IndexDef(name, tableName, unique, concurrently, ifNotExists, body));
      case DropIndex(name, ifExists) => outcome := ApplyDropIndex(name, ifExists);
      case AlterIndex(name, newName) => outcome := ApplyAlterIndex(name, newName);
      case CreateSequence(name, options) => outcome := ApplyCreateSequence(SequenceDef(name, options));
      case DropSequence(name, ifExists) => outcome := ApplyDropSequence(name, ifExists);
      case CreateType(name, labels) => outcome := ApplyCreateType(EnumDef(name, labels));
      case DropType(name, ifExists) => outcome := ApplyDropType(name, ifExists);
      case AlterType(name, action) => outcome := ApplyAlterType(name, action);
      case AlterSequence(name, newName) => outcome := ApplyAlterSequence(name, newName);
      case AlterSequenceOpts(name, options) => outcome := ApplyAlterSequenceOpts(name, options);
      case _ => outcome := ApplyToObjects(s);
    }
  }

  /** A row of actions is its first action and then the others. */
  lemma SplitActions(x: I.Schema, p: nat, oldKey: string, a: Action, rest: seq<Action>)
    requires p < |x.db.tables|
    ensures var r := I.ActionsX(x, p, oldKey, [a]);
            && |r.state.db.tables| == |x.db.tables|
            && I.ActionsX(x, p, oldKey, [a] + rest) ==
               if r.outcome.Done? then I.ActionsX(r.state, p, oldKey, rest) else r
  {
    hide TableAction, RenameTable, NormIdent;
    assert [a][1..] == [] && ([a] + rest)[1..] == rest;
  }

  lemma NoActions(x: I.Schema, p: nat, oldKey: string)
    requires p < |x.db.tables|
    ensures I.ActionsX(x, p, oldKey, []) == I.Ran(x, I.Done)
  {
  }
}
