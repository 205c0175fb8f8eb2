/** What the actions of ALTER TABLE do to columns and constraints, field by field. */
module ColumnActions {
  import opened Text
  import opened Ast
  import opened Patterns
  import opened Positions
  import opened Catalog

  // ---- Which column is meant ----

  /** Column i is the first one of that name. */
  predicate Names(t: TableDef, i: nat, name: string) {
    && i < |t.columns| && NormIdent(t.columns[i].name) == NormIdent(name)
    && forall j :: 0 <= j < i ==> NormIdent(t.columns[j].name) != NormIdent(name)
  }

  predicate NoColumn(t: TableDef, name: string) {
    forall j :: 0 <= j < |t.columns| ==> NormIdent(t.columns[j].name) != NormIdent(name)
  }

  /** Constraint i is the first one of that name. */
  predicate NamesConstraint(t: TableDef, i: nat, name: string) {
    && i < |t.constraints| && NormIdent(t.constraints[i].name) == NormIdent(name)
    && forall j :: 0 <= j < i ==> NormIdent(t.constraints[j].name) != NormIdent(name)
  }

  predicate NoConstraint(t: TableDef, name: string) {
    forall j :: 0 <= j < |t.constraints| ==> NormIdent(t.constraints[j].name) != NormIdent(name)
  }

  lemma FoundFirst(keys: seq<string>, k: string, i: nat)
    requires i < |keys| && keys[i] == k && forall j :: 0 <= j < i ==> keys[j] != k
    ensures Find(keys, k) == i
  {
    FindFromLeast(keys, k, 0);
  }

  lemma ColumnFound(t: TableDef, i: nat, name: string)
    requires Names(t, i, name)
    ensures Find(ColumnKeys(t.columns), NormIdent(name)) == i
  {
    hide NormIdent, FindFrom;
    FoundFirst(ColumnKeys(t.columns), NormIdent(name), i);
  }

  lemma ColumnAbsent(t: TableDef, name: string)
    requires NoColumn(t, name)
    ensures Find(ColumnKeys(t.columns), NormIdent(name)) == -1
  {
    hide NormIdent, FindFrom;
    FindMember(ColumnKeys(t.columns), NormIdent(name));
  }

  lemma ConstraintFound(t: TableDef, i: nat, name: string)
    requires NamesConstraint(t, i, name)
    ensures Find(ConstraintKeys(t.constraints), NormIdent(name)) == i
  {
    hide NormIdent, FindFrom;
    FoundFirst(ConstraintKeys(t.constraints), NormIdent(name), i);
  }

  lemma ConstraintAbsent(t: TableDef, name: string)
    requires NoConstraint(t, name)
    ensures Find(ConstraintKeys(t.constraints), NormIdent(name)) == -1
  {
    hide NormIdent, FindFrom;
    FindMember(ConstraintKeys(t.constraints), NormIdent(name));
  }

  /** The actions on one existing column. */
  predicate OnColumn(a: Action) {
    !a.Skip? && !a.AddColumn? && !a.AddConstraint? && !a.DropConstraint? && !a.RenameConstraint? && !a.RenameTo?
  }

  lemma Reaches(t: TableDef, i: nat, a: Action)
    requires OnColumn(a) && Names(t, i, a.column)
    ensures TableAction(t, a) == ColumnAction(t, a, i)
  {
    hide NormIdent, FindFrom, ColumnAction;
    ColumnFound(t, i, a.column);
  }

  lemma Misses(t: TableDef, a: Action)
    requires OnColumn(a) && NoColumn(t, a.column)
    ensures TableAction(t, a)
            == if a.DropIdentity? && a.ifExists then Changed(t) else Refused(NotFound(ColumnOp(a), a.column))
  {
    hide NormIdent, FindFrom, ColumnAction, ColumnOp;
    ColumnAbsent(t, a.column);
  }

  lemma UpdateAt<T>(s: seq<T>, i: nat, x: T)
    requires i < |s|
    ensures s[i := x] == s[..i] + [x] + s[i + 1..]
  {
  }

  /** The table with column c at i and nothing else changed. */
  function With(t: TableDef, i: nat, c: Column): TableDef
    requires i < |t.columns|
  {
    TableDef(t.name, t.temporary, t.unlogged, t.columns[..i] + [c] + t.columns[i + 1..], t.constraints, t.partitionBy)
  }

  // ---- Fields ----

  /** Type, default and NOT NULL: the field gets its value, the other fields, the
      other columns and the constraints stay. */
  lemma FieldSet(t: TableDef, i: nat, column: string, value: string)
    requires Names(t, i, column)
    ensures var c := t.columns[i];
            && TableAction(t, SetNotNull(column))
               == Changed(With(t, i, Column(c.name, c.dataType, c.collation, true, c.default, c.inline)))
            && TableAction(t, DropNotNull(column))
               == Changed(With(t, i, Column(c.name, c.dataType, c.collation, false, c.default, c.inline)))
            && TableAction(t, SetDefault(column, value))
               == Changed(With(t, i, Column(c.name, c.dataType, c.collation, c.notNull, Some(value), c.inline)))
            && TableAction(t, DropDefault(column))
               == Changed(With(t, i, Column(c.name, c.dataType, c.collation, c.notNull, None, c.inline)))
            && TableAction(t, AlterColumnType(column, value))
               == Changed(With(t, i, Column(c.name, value, c.collation, c.notNull, c.default, c.inline)))
  {
    hide NormIdent, TableAction;
    Reaches(t, i, SetNotNull(column));
    Reaches(t, i, DropNotNull(column));
    Reaches(t, i, SetDefault(column, value));
    Reaches(t, i, DropDefault(column));
    Reaches(t, i, AlterColumnType(column, value));
    var c := t.columns[i];
    UpdateAt(t.columns, i, Column(c.name, c.dataType, c.collation, true, c.default, c.inline));
    UpdateAt(t.columns, i, Column(c.name, c.dataType, c.collation, false, c.default, c.inline));
    UpdateAt(t.columns, i, Column(c.name, c.dataType, c.collation, c.notNull, Some(value), c.inline));
    UpdateAt(t.columns, i, Column(c.name, c.dataType, c.collation, c.notNull, None, c.inline));
    UpdateAt(t.columns, i, Column(c.name, value, c.collation, c.notNull, c.default, c.inline));
  }

  /** DROP COLUMN takes the column out; the others keep their order. */
  lemma ColumnDropped(t: TableDef, i: nat, column: string)
    requires Names(t, i, column)
    ensures TableAction(t, DropColumn(column))
            == Changed(TableDef(t.name, t.temporary, t.unlogged, t.columns[..i] + t.columns[i + 1..], t.constraints,
                                t.partitionBy))
  {
    hide NormIdent, TableAction;
    Reaches(t, i, DropColumn(column));
  }

  /** RENAME COLUMN changes the name of the column and the word in every definition. */
  lemma ColumnRenamed(t: TableDef, i: nat, column: string, newName: string)
    requires Names(t, i, column)
    ensures var c := t.columns[i];
            var t' := With(t, i, Column(newName, c.dataType, c.collation, c.notNull, c.default, c.inline));
            exists cs: seq<Constraint> :: TableAction(t, RenameColumn(column, newName)) == Changed(t'.(constraints := cs))
              && |cs| == |t.constraints|
              && forall j :: 0 <= j < |cs| ==>
                   cs[j] == Constraint(t.constraints[j].name, ReplaceWord(t.constraints[j].definition, column, newName))
  {
    hide NormIdent, ReplaceWord, TableAction;
    Reaches(t, i, RenameColumn(column, newName));
    var c := t.columns[i];
    UpdateAt(t.columns, i, Column(newName, c.dataType, c.collation, c.notNull, c.default, c.inline));
    var t' := With(t, i, Column(newName, c.dataType, c.collation, c.notNull, c.default, c.inline));
    assert TableAction(t, RenameColumn(column, newName))
           == Changed(t'.(constraints := RenameInConstraints(t.constraints, column, newName)));
  }

  /** Without the column every such action is refused with its own name, except
      DROP IDENTITY IF EXISTS, which changes nothing. */
  lemma ColumnMissing(t: TableDef, a: Action)
    requires OnColumn(a) && NoColumn(t, a.column)
    ensures var r := TableAction(t, a);
            match a
            case SetNotNull(c) => r == Refused(NotFound("SET NOT NULL", c))
            case DropNotNull(c) => r == Refused(NotFound("DROP NOT NULL", c))
            case SetDefault(c, _) => r == Refused(NotFound("SET DEFAULT", c))
            case DropDefault(c) => r == Refused(NotFound("DROP DEFAULT", c))
            case AlterColumnType(c, _) => r == Refused(NotFound("ALTER COLUMN TYPE", c))
            case DropColumn(c) => r == Refused(NotFound("DROP COLUMN", c))
            case RenameColumn(c, _) => r == Refused(NotFound("RENAME COLUMN", c))
            case AddGenerated(c, _) => r == Refused(NotFound("ADD GENERATED", c))
            case SetGenerated(c, _) => r == Refused(NotFound("SET GENERATED", c))
            case SetStorage(c, _) => r == Refused(NotFound("SET STORAGE", c))
            case SetCompression(c, _) => r == Refused(NotFound("SET COMPRESSION", c))
            case DropIdentity(c, ifExists) => r == if ifExists then Changed(t) else Refused(NotFound("DROP IDENTITY", c))
  {
    hide NoColumn, TableAction;
    Misses(t, a);
  }

  // ---- Inline constraints ----

  /** The k-th inline text is the first that begins with w. */
  predicate FirstWith(cs: seq<string>, k: nat, w: string) {
    k < |cs| && HasPrefix(Upper(cs[k]), w) && forall j :: 0 <= j < k ==> !HasPrefix(Upper(cs[j]), w)
  }

  predicate NoneWith(cs: seq<string>, w: string) { forall j :: 0 <= j < |cs| ==> !HasPrefix(Upper(cs[j]), w) }

  lemma {:induction false} InlineFound(cs: seq<string>, w: string, i: nat)
    requires i <= |cs| && forall j :: 0 <= j < i ==> !HasPrefix(Upper(cs[j]), w)
    ensures var k := FindInline(cs, w, i); if k < 0 then NoneWith(cs, w) else FirstWith(cs, k, w)
    decreases |cs| - i
  {
    hide HasPrefix, Upper;
    if i < |cs| && !HasPrefix(Upper(cs[i]), w) { InlineFound(cs, w, i + 1); }
  }

  /** v stands for the first text with w, or behind all texts if there is none. */
  predicate Put(cs: seq<string>, r: seq<string>, w: string, v: string) {
    && (NoneWith(cs, w) ==> r == cs + [v])
    && forall k :: 0 <= k < |cs| && FirstWith(cs, k, w) ==> r == cs[..k] + [v] + cs[k + 1..]
  }

  /** The first text with w is gone, and nothing else. */
  predicate Taken(cs: seq<string>, r: seq<string>, w: string) {
    && (NoneWith(cs, w) ==> r == cs)
    && forall k :: 0 <= k < |cs| && FirstWith(cs, k, w) ==> r == cs[..k] + cs[k + 1..]
  }

  lemma FirstUnique(cs: seq<string>, k: nat, w: string)
    requires FirstWith(cs, k, w)
    ensures !NoneWith(cs, w) && forall j: nat :: FirstWith(cs, j, w) ==> j == k
  {
    hide HasPrefix, Upper;
  }

  lemma InlinePut(cs: seq<string>, w: string, v: string)
    ensures Put(cs, ReplaceOrAppendInline(cs, w, v), w, v)
  {
    hide HasPrefix, Upper, FindInline;
    InlineFound(cs, w, 0);
    var k := FindInline(cs, w, 0);
    if k >= 0 {
      FirstUnique(cs, k, w);
      assert cs[k := v] == cs[..k] + [v] + cs[k + 1..];
    }
    hide FirstWith;
  }

  lemma InlineTaken(cs: seq<string>, w: string)
    ensures Taken(cs, RemoveInline(cs, w), w)
  {
    hide HasPrefix, Upper, FindInline;
    InlineFound(cs, w, 0);
    var k := FindInline(cs, w, 0);
    if k >= 0 { FirstUnique(cs, k, w); }
    hide FirstWith;
  }

  /** Column i with other inline texts. */
  function Inlined(t: TableDef, i: nat, inline: seq<string>): TableDef
    requires i < |t.columns|
  {
    var c := t.columns[i];
    With(t, i, Column(c.name, c.dataType, c.collation, c.notNull, c.default, inline))
  }

  /** STORAGE, COMPRESSION and GENERATED stand for the first text that begins so,
      or behind all inline texts. */
  lemma InlineSet(t: TableDef, i: nat, column: string, v: string)
    requires Names(t, i, column)
    ensures exists r: seq<string> :: TableAction(t, SetStorage(column, v)) == Changed(Inlined(t, i, r))
              && Put(t.columns[i].inline, r, "STORAGE", "STORAGE " + v)
    ensures exists r: seq<string> :: TableAction(t, SetCompression(column, v)) == Changed(Inlined(t, i, r))
              && Put(t.columns[i].inline, r, "COMPRESSION", "COMPRESSION " + v)
    ensures exists r: seq<string> :: TableAction(t, AddGenerated(column, v)) == Changed(Inlined(t, i, r))
              && Put(t.columns[i].inline, r, "GENERATED", v)
  {
    hide NormIdent, TableAction, ReplaceOrAppendInline, Put;
    var cs := t.columns[i].inline;
    InlinePut(cs, "STORAGE", "STORAGE " + v);
    InlinePut(cs, "COMPRESSION", "COMPRESSION " + v);
    InlinePut(cs, "GENERATED", v);
    Reaches(t, i, SetStorage(column, v));
    Reaches(t, i, SetCompression(column, v));
    Reaches(t, i, AddGenerated(column, v));
    InlinedIs(t, i, ReplaceOrAppendInline(cs, "STORAGE", "STORAGE " + v));
    InlinedIs(t, i, ReplaceOrAppendInline(cs, "COMPRESSION", "COMPRESSION " + v));
    InlinedIs(t, i, ReplaceOrAppendInline(cs, "GENERATED", v));
  }

  lemma InlinedIs(t: TableDef, i: nat, inline: seq<string>)
    requires i < |t.columns|
    ensures t.(columns := t.columns[i := t.columns[i].(inline := inline)]) == Inlined(t, i, inline)
  {
    UpdateAt(t.columns, i, t.columns[i].(inline := inline));
  }

  /** DROP IDENTITY takes the first GENERATED text; without one it is refused,
      unless IF EXISTS is given. */
  lemma IdentityDropped(t: TableDef, i: nat, column: string, ifExists: bool)
    requires Names(t, i, column)
    ensures NoneWith(t.columns[i].inline, "GENERATED") && !ifExists ==>
              TableAction(t, DropIdentity(column, ifExists)) == Refused(NoIdentity("DROP IDENTITY", column))
    ensures ifExists || !NoneWith(t.columns[i].inline, "GENERATED") ==>
              exists r: seq<string> :: TableAction(t, DropIdentity(column, ifExists)) == Changed(Inlined(t, i, r))
                && Taken(t.columns[i].inline, r, "GENERATED")
  {
    hide NormIdent, TableAction, RemoveInline, Taken;
    var cs := t.columns[i].inline;
    var a := DropIdentity(column, ifExists);
    Reaches(t, i, a);
    SomeWith(cs, "GENERATED");
    InlineTaken(cs, "GENERATED");
    InlinedIs(t, i, RemoveInline(cs, "GENERATED"));
    hide NoneWith, FindInline;
    if ifExists || FindInline(cs, "GENERATED", 0) >= 0 {
      assert TableAction(t, a) == Changed(Inlined(t, i, RemoveInline(cs, "GENERATED")));
    }
  }

  lemma SomeWith(cs: seq<string>, w: string)
    ensures FindInline(cs, w, 0) < 0 <==> NoneWith(cs, w)
  {
    hide FindInline, HasPrefix, Upper;
    InlineFound(cs, w, 0);
    var k := FindInline(cs, w, 0);
    if k >= 0 { FirstUnique(cs, k, w); }
  }

  /** SET GENERATED changes inline texts only, and is refused exactly without a
      GENERATED text; what it writes is the subject of IdentityKinds. */
  lemma IdentitySet(t: TableDef, i: nat, column: string, kind: string)
    requires Names(t, i, column)
    ensures match SetIdentity(t.columns[i].inline, kind)
            case None => TableAction(t, SetGenerated(column, kind)) == Refused(NoIdentity("SET GENERATED", column))
            case Some(r) => TableAction(t, SetGenerated(column, kind)) == Changed(Inlined(t, i, r))
  {
    hide NormIdent, TableAction, SetIdentity;
    Reaches(t, i, SetGenerated(column, kind));
    match SetIdentity(t.columns[i].inline, kind)
    case None =>
    case Some(r) => InlinedIs(t, i, r);
  }

  /** SET GENERATED rewrites the first inline text that begins with GENERATED behind
      any white space. */
  lemma {:induction false} IdentityFound(cs: seq<string>, i: nat, k: nat)
    requires i <= k <= |cs| && (forall j :: i <= j < k ==> !HasPrefix(Upper(TrimSpace(cs[j])), "GENERATED"))
    requires k < |cs| ==> HasPrefix(Upper(TrimSpace(cs[k])), "GENERATED")
    ensures FindIdentity(cs, i) == if k < |cs| then k else -1
    decreases k - i
  {
    hide HasPrefix, Upper, TrimSpace;
    if i < k { IdentityFound(cs, i + 1, k); }
  }

  lemma IdentityPlace(cs: seq<string>, k: nat, kind: string)
    requires k <= |cs| && (forall j :: 0 <= j < k ==> !HasPrefix(Upper(TrimSpace(cs[j])), "GENERATED"))
    requires k < |cs| ==> HasPrefix(Upper(TrimSpace(cs[k])), "GENERATED")
    ensures SetIdentity(cs, kind)
            == if k < |cs| then Some(cs[..k] + [ReplaceIdentityKind(cs[k], 0, kind)] + cs[k + 1..]) else None
  {
    hide HasPrefix, Upper, TrimSpace, ReplaceIdentityKind, FindIdentity;
    IdentityFound(cs, 0, k);
    if k < |cs| {
      var v := ReplaceIdentityKind(cs[k], 0, kind);
      assert cs[k := v] == cs[..k] + [v] + cs[k + 1..];
    }
  }

  // ---- Adding ----

  /** ADD COLUMN appends a new column, and refuses a name that is there. */
  lemma ColumnAdded(t: TableDef, c: Column)
    ensures NoColumn(t, c.name) ==>
              TableAction(t, AddColumn(Some(c)))
              == Changed(TableDef(t.name, t.temporary, t.unlogged, t.columns + [c], t.constraints, t.partitionBy))
    ensures !NoColumn(t, c.name) ==> TableAction(t, AddColumn(Some(c))) == Refused(AlreadyExists("ADD COLUMN", c.name))
    ensures TableAction(t, AddColumn(None)) == Refused(MissingDefinition("ADD COLUMN"))
  {
    hide NormIdent, FindFrom;
    var keys, k := ColumnKeys(t.columns), NormIdent(c.name);
    FindMember(keys, k);
    if !NoColumn(t, c.name) {
      var j :| 0 <= j < |t.columns| && NormIdent(t.columns[j].name) == k;
      assert keys[j] == k;
    } else {
      ColumnAbsent(t, c.name);
    }
  }

  /** ADD CONSTRAINT appends; only a name that is there is refused. */
  lemma ConstraintAdded(t: TableDef, c: Constraint)
    ensures c.name == "" || NoConstraint(t, c.name) ==>
              TableAction(t, AddConstraint(c))
              == Changed(TableDef(t.name, t.temporary, t.unlogged, t.columns, t.constraints + [c], t.partitionBy))
    ensures c.name != "" && !NoConstraint(t, c.name) ==>
              TableAction(t, AddConstraint(c)) == Refused(AlreadyExists("ADD CONSTRAINT", c.name))
  {
    hide NormIdent, FindFrom;
    var keys, k := ConstraintKeys(t.constraints), NormIdent(c.name);
    FindMember(keys, k);
    if !NoConstraint(t, c.name) {
      var j :| 0 <= j < |t.constraints| && NormIdent(t.constraints[j].name) == k;
      assert keys[j] == k;
    } else {
      ConstraintAbsent(t, c.name);
    }
  }

  lemma ConstraintMissing(t: TableDef, name: string, newName: string)
    requires NoConstraint(t, name)
    ensures TableAction(t, RenameConstraint(name, newName)) == Refused(NotFound("RENAME CONSTRAINT", name))
  {
    hide NormIdent, FindFrom;
    ConstraintAbsent(t, name);
  }

  /** RENAME CONSTRAINT changes one name. */
  lemma ConstraintRenamed(t: TableDef, i: nat, name: string, newName: string)
    requires NamesConstraint(t, i, name)
    ensures TableAction(t, RenameConstraint(name, newName))
            == Changed(t.(constraints := t.constraints[..i] + [Constraint(newName, t.constraints[i].definition)]
                                         + t.constraints[i + 1..]))
  {
    hide NormIdent, FindFrom;
    ConstraintFound(t, i, name);
    UpdateAt(t.constraints, i, Constraint(newName, t.constraints[i].definition));
  }

  // ---- Dropping constraints ----

  /** A constraint of that name is taken out, whatever the columns say. */
  lemma ConstraintDropped(t: TableDef, i: nat, name: string, ifExists: bool)
    requires NamesConstraint(t, i, name)
    ensures TableAction(t, DropConstraint(name, ifExists))
            == Changed(t.(constraints := t.constraints[..i] + t.constraints[i + 1..]))
  {
    hide NormIdent, FindFrom, DropAutoNamed;
    ConstraintFound(t, i, name);
  }

  /** The word of the inline text that an automatic name stands for. */
  function WordFor(suffix: string): string {
    if suffix == "_key" then "UNIQUE" else if suffix == "_fkey" then "REFERENCES" else "CHECK"
  }

  const SUFFIXES := {"_key", "_fkey", "_check"}

  lemma SuffixesDiffer(a: string, x: string, b: string, y: string)
    requires x in SUFFIXES && y in SUFFIXES && a + x == b + y
    ensures a == b && x == y
  {
    var s, t := a + x, b + y;
    var n := |s|;
    assert x[|x| - 1] == s[n - 1] && y[|y| - 1] == t[n - 1];
    assert x[|x| - 4] == s[n - 4] && y[|y| - 4] == t[n - 4];
    assert |x| == |y|;
    assert s[..n - |x|] == a && t[..n - |y|] == b;
  }

  lemma StemsDiffer(tKey: string, a: string, b: string)
    requires tKey + "_" + a == tKey + "_" + b
    ensures a == b
  {
    assert (tKey + "_" + a)[|tKey| + 1..] == a && (tKey + "_" + b)[|tKey| + 1..] == b;
  }

  /** The key of an automatic name: table, column and suffix. */
  function AutoKey(tKey: string, column: string, suffix: string): string { tKey + "_" + column + suffix }

  lemma {:induction false} ReachesColumn(cols: seq<Column>, tKey: string, i: nat, p: nat, suffix: string)
    requires i <= p < |cols| && suffix in SUFFIXES
    requires forall j :: i <= j < p ==> NormIdent(cols[j].name) != NormIdent(cols[p].name)
    ensures DropColumnConstraint(cols, tKey, AutoKey(tKey, NormIdent(cols[p].name), suffix), i)
            == Some(WithoutInline(cols, p, WordFor(suffix)))
    decreases p - i
  {
    hide NormIdent, WithoutInline;
    var cKey := AutoKey(tKey, NormIdent(cols[p].name), suffix);
    var stem := tKey + "_" + NormIdent(cols[i].name);
    forall y | y in SUFFIXES && cKey == stem + y ensures NormIdent(cols[i].name) == NormIdent(cols[p].name) && y == suffix {
      SuffixesDiffer(tKey + "_" + NormIdent(cols[p].name), suffix, stem, y);
      StemsDiffer(tKey, NormIdent(cols[p].name), NormIdent(cols[i].name));
    }
    if i < p {
      assert "_key" in SUFFIXES && "_fkey" in SUFFIXES && "_check" in SUFFIXES;
      hide SUFFIXES, AutoKey;
      ReachesColumn(cols, tKey, i + 1, p, suffix);
    }
  }

  /** It is not the name of a primary key. */
  lemma NotPrimary(tKey: string, column: string, suffix: string)
    requires suffix in SUFFIXES
    ensures AutoKey(tKey, column, suffix) != tKey + "_pkey"
  {
    var s, t := AutoKey(tKey, column, suffix), tKey + "_pkey";
    var n := |t|;
    assert t[n - 4] == 'p' && t[n - 1] == 'y';
    assert |s| == n ==> s[n - 1] == suffix[|suffix| - 1] && s[n - 4] == suffix[|suffix| - 4];
  }

  lemma WithoutIs(t: TableDef, i: nat, w: string)
    requires i < |t.columns|
    ensures t.(columns := WithoutInline(t.columns, i, w)) == Inlined(t, i, RemoveInline(t.columns[i].inline, w))
  {
    hide RemoveInline;
    InlinedIs(t, i, RemoveInline(t.columns[i].inline, w));
  }

  /** With no constraint of that name, table_column_key takes the first UNIQUE of
      the column, _fkey the first REFERENCES and _check the first CHECK; nothing
      else changes, and nothing at all if there is none. */
  lemma AutomaticDropped(t: TableDef, p: nat, name: string, suffix: string, ifExists: bool)
    requires p < |t.columns| && Names(t, p, t.columns[p].name) && NoConstraint(t, name) && suffix in SUFFIXES
    requires NormIdent(name) == AutoKey(NormIdent(t.name), NormIdent(t.columns[p].name), suffix)
    ensures exists r: seq<string> :: TableAction(t, DropConstraint(name, ifExists)) == Changed(Inlined(t, p, r))
              && Taken(t.columns[p].inline, r,
                       if suffix == "_key" then "UNIQUE" else if suffix == "_fkey" then "REFERENCES" else "CHECK")
  {
    hide NormIdent, FindFrom, DropColumnConstraint, WithoutInline, RemoveInline, Taken, FindPrimaryKey, Inlined, AutoKey;
    var cs, w := t.columns[p].inline, WordFor(suffix);
    ConstraintAbsent(t, name);
    ReachesColumn(t.columns, NormIdent(t.name), 0, p, suffix);
    NotPrimary(NormIdent(t.name), NormIdent(t.columns[p].name), suffix);
    InlineTaken(cs, w);
    WithoutIs(t, p, w);
    assert TableAction(t, DropConstraint(name, ifExists)) == Changed(Inlined(t, p, RemoveInline(cs, w)));
  }

  /** Column p is the first one with a primary key among its inline texts. */
  predicate FirstPrimary(cols: seq<Column>, p: nat) {
    && p < |cols| && !NoneWith(cols[p].inline, "PRIMARY KEY")
    && forall j :: 0 <= j < p ==> NoneWith(cols[j].inline, "PRIMARY KEY")
  }

  lemma {:induction false} PrimaryFound(cols: seq<Column>, i: nat, p: nat)
    requires i <= p && FirstPrimary(cols, p)
    ensures FindPrimaryKey(cols, i) == p
    decreases p - i
  {
    hide NoneWith, FindInline;
    SomeWith(cols[i].inline, "PRIMARY KEY");
    if i < p {
      assert NoneWith(cols[i].inline, "PRIMARY KEY");
      PrimaryFound(cols, i + 1, p);
    }
  }

  /** table_pkey takes the first PRIMARY KEY of the first column that has one. */
  lemma PrimaryDropped(t: TableDef, p: nat, name: string, ifExists: bool)
    requires FirstPrimary(t.columns, p) && NoConstraint(t, name) && NormIdent(name) == NormIdent(t.name) + "_pkey"
    ensures exists r: seq<string> :: TableAction(t, DropConstraint(name, ifExists)) == Changed(Inlined(t, p, r))
              && Taken(t.columns[p].inline, r, "PRIMARY KEY")
  {
    hide NormIdent, FindFrom, DropColumnConstraint, WithoutInline, RemoveInline, Taken, FindPrimaryKey, Inlined, NoneWith;
    var cs := t.columns[p].inline;
    ConstraintAbsent(t, name);
    PrimaryFound(t.columns, 0, p);
    InlineTaken(cs, "PRIMARY KEY");
    WithoutIs(t, p, "PRIMARY KEY");
    assert TableAction(t, DropConstraint(name, ifExists)) == Changed(Inlined(t, p, RemoveInline(cs, "PRIMARY KEY")));
  }

  lemma {:induction false} NoneReached(cols: seq<Column>, tKey: string, cKey: string, i: nat)
    requires i <= |cols|
    requires forall j, x :: i <= j < |cols| && x in SUFFIXES ==> cKey != AutoKey(tKey, NormIdent(cols[j].name), x)
    ensures DropColumnConstraint(cols, tKey, cKey, i) == None
    decreases |cols| - i
  {
    hide NormIdent;
    if i < |cols| {
      var k := NormIdent(cols[i].name);
      assert "_key" in SUFFIXES && "_fkey" in SUFFIXES && "_check" in SUFFIXES;
      assert cKey != AutoKey(tKey, k, "_key") && cKey != AutoKey(tKey, k, "_fkey") && cKey != AutoKey(tKey, k, "_check");
      NoneReached(cols, tKey, cKey, i + 1);
    }
  }

  lemma {:induction false} NoPrimary(cols: seq<Column>, i: nat)
    requires i <= |cols| && forall j :: 0 <= j < |cols| ==> NoneWith(cols[j].inline, "PRIMARY KEY")
    ensures FindPrimaryKey(cols, i) == -1
    decreases |cols| - i
  {
    if i < |cols| {
      SomeWith(cols[i].inline, "PRIMARY KEY");
      hide NoneWith, FindInline;
      NoPrimary(cols, i + 1);
    }
  }

  /** Any other name is refused, unless IF EXISTS is given. */
  lemma NothingDropped(t: TableDef, name: string, ifExists: bool)
    requires NoConstraint(t, name)
    requires forall j, x :: 0 <= j < |t.columns| && x in SUFFIXES ==>
               NormIdent(name) != AutoKey(NormIdent(t.name), NormIdent(t.columns[j].name), x)
    requires NormIdent(name) == NormIdent(t.name) + "_pkey" ==>
               forall j :: 0 <= j < |t.columns| ==> NoneWith(t.columns[j].inline, "PRIMARY KEY")
    ensures TableAction(t, DropConstraint(name, ifExists))
            == if ifExists then Changed(t) else Refused(NotFound("DROP CONSTRAINT", name))
  {
    hide NormIdent, NoneWith, FindPrimaryKey;
    ConstraintAbsent(t, name);
    NoneReached(t.columns, NormIdent(t.name), NormIdent(name), 0);
    if NormIdent(name) == NormIdent(t.name) + "_pkey" { NoPrimary(t.columns, 0); }
    hide FindFrom, DropColumnConstraint, WithoutInline, AutoKey;
  }

  /** RENAME TO changes the name, and redirects every definition and every inline text
      that begins with REFERENCES; what a redirection does is the subject of
      SelfReferences. */
  lemma TableRenamed(t: TableDef, newName: string)
    ensures exists r: TableDef :: TableAction(t, RenameTo(newName)) == Changed(r)
              && r.name == newName && r.temporary == t.temporary && r.unlogged == t.unlogged
              && r.partitionBy == t.partitionBy
              && |r.columns| == |t.columns| && |r.constraints| == |t.constraints|
              && (forall j :: 0 <= j < |t.constraints| ==>
                   var c := t.constraints[j];
                   r.constraints[j] == Constraint(c.name, ReplaceReferences(c.definition, 0, t.name, newName)))
              && (forall j :: 0 <= j < |t.columns| ==> Redirected(t.columns[j], r.columns[j], t.name, newName))
  {
    hide ReplaceReferences, Redirected;
    var r := RenameTable(t, newName);
    forall j | 0 <= j < |t.columns| ensures Redirected(t.columns[j], r.columns[j], t.name, newName) {
      InlineRedirected(t.columns[j], t.name, newName);
    }
    hide RedirectInlines;
    assert TableAction(t, RenameTo(newName)) == Changed(r);
  }

  /** Column d is column c with its references to the table of that name redirected. */
  predicate Redirected(c: Column, d: Column, name: string, newName: string) {
    && d == Column(c.name, c.dataType, c.collation, c.notNull, c.default, d.inline) && |d.inline| == |c.inline|
    && forall k :: 0 <= k < |c.inline| ==>
         d.inline[k] == if HasPrefix(Upper(TrimSpace(c.inline[k])), "REFERENCES")
                        then ReplaceReferences(c.inline[k], 0, name, newName) else c.inline[k]
  }

  lemma InlineRedirected(c: Column, name: string, newName: string)
    ensures Redirected(c, c.(inline := RedirectInlines(c.inline, name, newName)), name, newName)
  {
    hide ReplaceReferences, HasPrefix, Upper, TrimSpace;
  }

  // ---- Rows of actions ----

  /** The actions that set something in one column, whatever was there. */
  predicate Sets(a: Action) {
    || a.SetNotNull? || a.DropNotNull? || a.SetDefault? || a.DropDefault? || a.AlterColumnType?
    || a.SetStorage? || a.SetCompression?
    || (a.AddGenerated? && HasPrefix(Upper(a.clause), "GENERATED"))
  }

  /** Do they set the same thing? */
  predicate SameField(a: Action, b: Action) {
    || ((a.SetNotNull? || a.DropNotNull?) && (b.SetNotNull? || b.DropNotNull?))
    || ((a.SetDefault? || a.DropDefault?) && (b.SetDefault? || b.DropDefault?))
    || (a.AlterColumnType? && b.AlterColumnType?) || (a.SetStorage? && b.SetStorage?)
    || (a.SetCompression? && b.SetCompression?) || (a.AddGenerated? && b.AddGenerated?)
  }

  lemma {:induction false} FindPut(cs: seq<string>, w: string, v: string, i: nat)
    requires i <= |cs| && FindInline(cs, w, i) >= 0 && HasPrefix(Upper(v), w)
    ensures var k := FindInline(cs, w, i); FindInline(cs[k := v], w, i) == k
    decreases |cs| - i
  {
    hide HasPrefix, Upper;
    if !HasPrefix(Upper(cs[i]), w) { FindPut(cs, w, v, i + 1); }
  }

  lemma {:induction false} FindBehind(cs: seq<string>, w: string, v: string, i: nat)
    requires i <= |cs| && FindInline(cs, w, i) < 0 && HasPrefix(Upper(v), w)
    ensures FindInline(cs + [v], w, i) == |cs|
    decreases |cs| - i
  {
    hide HasPrefix, Upper;
    if i < |cs| { FindBehind(cs, w, v, i + 1); }
  }

  lemma PutTwice(cs: seq<string>, w: string, v: string, x: string)
    requires HasPrefix(Upper(v), w)
    ensures ReplaceOrAppendInline(ReplaceOrAppendInline(cs, w, v), w, x) == ReplaceOrAppendInline(cs, w, x)
  {
    hide FindInline, HasPrefix, Upper;
    var k := FindInline(cs, w, 0);
    if k >= 0 {
      FindPut(cs, w, v, 0);
      assert cs[k := v][k := x] == cs[k := x];
    } else {
      FindBehind(cs, w, v, 0);
      assert (cs + [v])[|cs| := x] == cs + [x];
    }
  }

  lemma StorageWords(v: string)
    ensures HasPrefix(Upper("STORAGE " + v), "STORAGE") && HasPrefix(Upper("COMPRESSION " + v), "COMPRESSION")
  {
    assert Upper("STORAGE " + v)[..7] == "STORAGE" && Upper("COMPRESSION " + v)[..11] == "COMPRESSION";
  }

  /** What such an action makes of its column: the rest of the table is not asked. */
  function Edited(c: Column, a: Action): Column
    requires Sets(a)
  {
    ColumnAction(TableDef("", false, false, [c], [], ""), a, 0).value.columns[0]
  }

  lemma EditsOne(t: TableDef, i: nat, a: Action)
    requires Sets(a) && i < |t.columns|
    ensures ColumnAction(t, a, i) == Changed(t.(columns := t.columns[i := Edited(t.columns[i], a)]))
    ensures Edited(t.columns[i], a).name == t.columns[i].name
  {
    hide ReplaceOrAppendInline, HasPrefix, Upper;
  }

  /** Column i becomes what the action makes of it. */
  lemma EditsColumn(t: TableDef, i: nat, a: Action)
    requires Sets(a) && Names(t, i, a.column)
    ensures TableAction(t, a) == Changed(t.(columns := t.columns[i := Edited(t.columns[i], a)]))
    ensures Edited(t.columns[i], a).name == t.columns[i].name
  {
    hide TableAction, ColumnAction, Edited, NormIdent, HasPrefix, Upper;
    Reaches(t, i, a);
    EditsOne(t, i, a);
  }

  lemma StillNamed(t: TableDef, i: nat, c: Column, j: nat, name: string)
    requires i < |t.columns| && c.name == t.columns[i].name && Names(t, j, name)
    ensures Names(t.(columns := t.columns[i := c]), j, name)
  {
    hide NormIdent;
  }

  /** The inline text that an action puts down, and the word that it begins with. */
  lemma EditsInline(c: Column, a: Action, w: string, v: string)
    requires Sets(a)
    requires (a.SetStorage? && w == "STORAGE" && v == "STORAGE " + a.storage)
             || (a.SetCompression? && w == "COMPRESSION" && v == "COMPRESSION " + a.compression)
             || (a.AddGenerated? && w == "GENERATED" && v == a.clause)
    ensures Edited(c, a) == c.(inline := ReplaceOrAppendInline(c.inline, w, v)) && HasPrefix(Upper(v), w)
  {
    hide ReplaceOrAppendInline, HasPrefix, Upper;
    if a.SetStorage? { StorageWords(a.storage); }
    if a.SetCompression? { StorageWords(a.compression); }
  }

  lemma EditedTwice(c: Column, a: Action, b: Action)
    requires Sets(a) && Sets(b) && SameField(a, b)
    ensures Edited(Edited(c, a), b) == Edited(c, b)
  {
    if a.SetStorage? || a.SetCompression? || a.AddGenerated? {
      var w := if a.SetStorage? then "STORAGE" else if a.SetCompression? then "COMPRESSION" else "GENERATED";
      var v := if a.SetStorage? then "STORAGE " + a.storage else if a.SetCompression? then "COMPRESSION " + a.compression
               else a.clause;
      var x := if b.SetStorage? then "STORAGE " + b.storage else if b.SetCompression? then "COMPRESSION " + b.compression
               else b.clause;
      hide Edited, ReplaceOrAppendInline, HasPrefix, Upper;
      EditsInline(c, a, w, v);
      EditsInline(c, b, w, x);
      EditsInline(Edited(c, a), b, w, x);
      PutTwice(c.inline, w, v, x);
    } else {
      hide ReplaceOrAppendInline, HasPrefix, Upper;
    }
  }

  /** Of two actions that set the same thing in one column the last one decides. */
  lemma LastActionWins(t: TableDef, i: nat, a: Action, b: Action)
    requires Sets(a) && Sets(b) && SameField(a, b) && Names(t, i, a.column) && Names(t, i, b.column)
    ensures TableAction(t, a).Changed? && TableAction(TableAction(t, a).value, b) == TableAction(t, b)
  {
    EditedTwice(t.columns[i], a, b);
    hide NormIdent, TableAction, Edited, Names, HasPrefix, Upper, SameField;
    EditsColumn(t, i, a);
    EditsColumn(t, i, b);
    NamesInside(t, i, b.column);
    var c := Edited(t.columns[i], a);
    StillNamed(t, i, c, i, b.column);
    EditsColumn(t.(columns := t.columns[i := c]), i, b);
    assert t.columns[i := c][i := Edited(t.columns[i], b)] == t.columns[i := Edited(t.columns[i], b)];
  }

  lemma NamesInside(t: TableDef, i: nat, name: string)
    requires Names(t, i, name)
    ensures i < |t.columns|
  {
  }

  /** Actions on different columns can be swapped. */
  lemma ActionsCommute(t: TableDef, i: nat, a: Action, j: nat, b: Action)
    requires Sets(a) && Sets(b) && Names(t, i, a.column) && Names(t, j, b.column) && i != j
    ensures TableAction(t, a).Changed? && TableAction(t, b).Changed?
    ensures TableAction(TableAction(t, a).value, b) == TableAction(TableAction(t, b).value, a)
  {
    hide NormIdent, TableAction, Edited, Names, HasPrefix, Upper;
    NamesInside(t, i, a.column);
    NamesInside(t, j, b.column);
    EditsColumn(t, i, a);
    EditsColumn(t, j, b);
    var c, d := Edited(t.columns[i], a), Edited(t.columns[j], b);
    StillNamed(t, i, c, j, b.column);
    StillNamed(t, j, d, i, a.column);
    EditsColumn(t.(columns := t.columns[i := c]), j, b);
    EditsColumn(t.(columns := t.columns[j := d]), i, a);
    assert t.columns[i := c][j := d] == t.columns[j := d][i := c];
  }

  // ---- UNIQUE of an e-mail address ----

  lemma Visible(s: string)
    requires s != "" && forall i :: 0 <= i < |s| ==> 'a' <= s[i] <= 'z' || s[i] == '_'
    ensures NormIdent(s) == s
  {
    TrimSpaceKeepsTrimmed(s);
    assert TrimQuotesLeft(s) == s && TrimQuotesRight(s) == s && Lower(s) == s;
  }

  lemma UsersEmail()
    ensures AutoKey("users", "email", "_key") == "users_email_key"
  {
  }

  lemma OnlyUnique(r: seq<string>)
    requires Taken(["UNIQUE"], r, "UNIQUE")
    ensures r == []
  {
    assert Upper("UNIQUE") == "UNIQUE";
    assert FirstWith(["UNIQUE"], 0, "UNIQUE");
  }

  /** table_column_key drops the only inline text of a UNIQUE column. */
  lemma OnlyUniqueDropped(table: string, column: string, dataType: string, name: string, ifExists: bool)
    requires NormIdent(name) == AutoKey(NormIdent(table), NormIdent(column), "_key")
    ensures TableAction(TableDef(table, false, false, [Column(column, dataType, "", false, None, ["UNIQUE"])], [], ""),
                        DropConstraint(name, ifExists))
            == Changed(TableDef(table, false, false, [Column(column, dataType, "", false, None, [])], [], ""))
  {
    var c := Column(column, dataType, "", false, None, ["UNIQUE"]);
    var t := TableDef(table, false, false, [c], [], "");
    assert "_key" in SUFFIXES;
    hide NormIdent, AutoKey, SUFFIXES, TableAction, Taken;
    AutomaticDropped(t, 0, name, "_key", ifExists);
    var r: seq<string> :| TableAction(t, DropConstraint(name, ifExists)) == Changed(Inlined(t, 0, r))
                          && Taken(c.inline, r, "UNIQUE");
    OnlyUnique(r);
    LoneInlined(t, []);
  }

  lemma LoneInlined(t: TableDef, inline: seq<string>)
    requires |t.columns| == 1
    ensures Inlined(t, 0, inline) == t.(columns := [t.columns[0].(inline := inline)])
  {
  }

  /** users_email_key drops the UNIQUE of users.email. */
  lemma UniqueDropped(ifExists: bool)
    ensures TableAction(TableDef("users", false, false, [Column("email", "text", "", false, None, ["UNIQUE"])], [], ""),
                        DropConstraint("users_email_key", ifExists))
            == Changed(TableDef("users", false, false, [Column("email", "text", "", false, None, [])], [], ""))
  {
    hide NormIdent, AutoKey, TableAction;
    Visible("users");
    Visible("email");
    Visible("users_email_key");
    UsersEmail();
    OnlyUniqueDropped("users", "email", "text", "users_email_key", ifExists);
  }
}
