/** No ALTER text is lost or printed twice: what arrives is held, printed once in
    the group of its CREATE or passed through, until its object is replaced or
    dropped. */
module Ledger {
  import opened Text
  import opened Ast
  import opened Positions
  import opened Catalog
  import opened Indexed
  import opened Plain
  import opened Script
  import opened Replay
  import opened Absorption
  import opened Refinement

  /** How often the objects carry the text a. */
  ghost function Carried(os: seq<ObjectDef>, a: string): nat {
    if os == [] then 0 else Count(os[0].postAlters, a) + Carried(os[1..], a)
  }

  ghost function Held(d: Database, a: string): nat { Carried(d.objects, a) + Count(d.unknowns, a) }

  /** The ALTER or pass-through text a statement brings, if it is tracked. */
  function Brings(s: Statement): Option<string> {
    match s
    case AlterFunctionOpts(_, _, sql) => Some(sql)
    case AlterObjectOpts(kind, _, sql) => if Untracked(kind, sql) then None else Some(sql)
    case Unknown(raw) => Some(raw)
    case _ => None
  }

  ghost function Arrives(s: Statement, a: string): nat { if Brings(s) == Some(a) then 1 else 0 }

  ghost function CarriedBy(d: Database, kind: ObjectKind, name: string, a: string): nat {
    var p := Find(ObjectKeys(d.objects), ObjectKey(kind, name));
    if p < 0 then 0 else Count(d.objects[p].postAlters, a)
  }

  ghost function LostByNames(d: Database, names: seq<string>, ifExists: bool, a: string): nat
    decreases |names|
  {
    if names == [] then 0
    else
      var r := DropOneP(d, names[0], ifExists);
      (if NormIdent(names[0]) in TableKeys(d.tables) then 0 else CarriedBy(d, Partition, names[0], a))
      + if r.outcome.Done? then LostByNames(r.state, names[1..], ifExists, a) else 0
  }

  /** How often the text a goes with an object that the statement replaces or drops. */
  ghost function Lost(d: Database, s: Statement, a: string): nat {
    match s
    case CreateObject(kind, name, orReplace, _) => if orReplace then CarriedBy(d, kind, name, a) else 0
    case DropObject(kind, name, _) => CarriedBy(d, kind, name, a)
    case DropType(name, _) => if NormIdent(name) in TypeKeys(d.types) then 0 else CarriedBy(d, TypeKind, name, a)
    case DropTable(names, ifExists) => LostByNames(d, names, ifExists, a)
    case _ => 0
  }

  // ---- Counting over lists of objects ----

  lemma {:induction false} CarriedAppend(xs: seq<ObjectDef>, ys: seq<ObjectDef>, a: string)
    ensures Carried(xs + ys, a) == Carried(xs, a) + Carried(ys, a)
  {
    if xs == [] {
      assert xs + ys == ys;
    } else {
      assert (xs + ys)[1..] == xs[1..] + ys;
      CarriedAppend(xs[1..], ys, a);
    }
  }

  lemma CarriedOne(o: ObjectDef, a: string)
    ensures Carried([o], a) == Count(o.postAlters, a)
  {
    assert [o][1..] == [];
  }

  lemma CarriedSplit(os: seq<ObjectDef>, p: nat, o: ObjectDef, a: string)
    requires p < |os|
    ensures Carried(os[p := o], a) == Carried(os, a) - Count(os[p].postAlters, a) + Count(o.postAlters, a)
    ensures Carried(RemoveAt(os, p), a) == Carried(os, a) - Count(os[p].postAlters, a)
  {
    var x, y := os[..p], os[p + 1..];
    assert os == x + ([os[p]] + y) && os[p := o] == x + ([o] + y);
    CarriedAppend(x, [os[p]] + y, a);
    CarriedAppend([os[p]], y, a);
    CarriedAppend(x, [o] + y, a);
    CarriedAppend([o], y, a);
    CarriedAppend(x, y, a);
    CarriedOne(os[p], a);
    CarriedOne(o, a);
  }

  lemma CarriedCreate(os: seq<ObjectDef>, kind: ObjectKind, name: string, sql: string, a: string)
    ensures Carried(os + [ObjectDef(kind, name, sql, [])], a) == Carried(os, a)
  {
    CarriedAppend(os, [ObjectDef(kind, name, sql, [])], a);
    CarriedOne(ObjectDef(kind, name, sql, []), a);
  }

  // ---- One statement ----

  /** What is held afterwards and what was lost is what was held and what arrived. */
  ghost predicate Balanced(d: Database, s: Statement, r: Ran<Database>, a: string) {
    Held(r.state, a) + Lost(d, s, a) == Held(d, a) + Arrives(s, a)
  }

  lemma AttachBalanced(d: Database, kind: ObjectKind, name: string, sql: string, a: string)
    ensures Held(AttachP(d, kind, name, sql).state, a) == Held(d, a) + if sql == a then 1 else 0
  {
    var p := Find(ObjectKeys(d.objects), ObjectKey(kind, name));
    CountOne(sql, a);
    if p < 0 {
      CountAppend(d.unknowns, [sql], a);
    } else {
      var o := d.objects[p];
      CountAppend(o.postAlters, [sql], a);
      CarriedSplit(d.objects, p, o.(postAlters := o.postAlters + [sql]), a);
    }
    hide Find, ObjectKey, Count, Carried;
  }

  lemma UnknownBalanced(d: Database, raw: string, a: string)
    ensures Held(d.(unknowns := d.unknowns + [raw]), a) == Held(d, a) + if raw == a then 1 else 0
  {
    CountAppend(d.unknowns, [raw], a);
    CountOne(raw, a);
    hide Count, Carried;
  }

  lemma CreateBalanced(d: Database, kind: ObjectKind, name: string, orReplace: bool, sql: string, a: string)
    ensures Held(CreateObjectP(d, kind, name, orReplace, sql).state, a)
            + (if orReplace then CarriedBy(d, kind, name, a) else 0) == Held(d, a)
  {
    var p := Find(ObjectKeys(d.objects), ObjectKey(kind, name));
    if p < 0 {
      CarriedCreate(d.objects, kind, name, sql, a);
    } else {
      CarriedSplit(d.objects, p, d.objects[p].(sql := sql, postAlters := []), a);
      assert Count([], a) == 0;
    }
    hide Find, ObjectKey, KindText, Carried;
  }

  lemma RemoveBalanced(d: Database, kind: ObjectKind, name: string, a: string)
    requires Find(ObjectKeys(d.objects), ObjectKey(kind, name)) >= 0
    ensures var p := Find(ObjectKeys(d.objects), ObjectKey(kind, name));
            Held(d.(objects := RemoveAt(d.objects, p)), a) + CarriedBy(d, kind, name, a) == Held(d, a)
  {
    var p := Find(ObjectKeys(d.objects), ObjectKey(kind, name));
    CarriedSplit(d.objects, p, d.objects[p], a);
    hide Find, ObjectKey, Carried, Count;
  }

  lemma DropOneBalanced(d: Database, name: string, ifExists: bool, a: string)
    ensures Held(DropOneP(d, name, ifExists).state, a)
            + (if NormIdent(name) in TableKeys(d.tables) then 0 else CarriedBy(d, Partition, name, a)) == Held(d, a)
  {
    FindMember(TableKeys(d.tables), NormIdent(name));
    hide FindFrom, ObjectKey, Carried, Count, NormIdent, WithoutTable;
    if Find(ObjectKeys(d.objects), ObjectKey(Partition, name)) >= 0 { RemoveBalanced(d, Partition, name, a); }
  }

  lemma {:induction false} DropNamesBalanced(d: Database, names: seq<string>, ifExists: bool, a: string)
    ensures Held(DropTablesP(d, names, ifExists).state, a) + LostByNames(d, names, ifExists, a) == Held(d, a)
    decreases |names|
  {
    hide DropOneP, Held, CarriedBy, NormIdent;
    if names != [] {
      DropOneBalanced(d, names[0], ifExists, a);
      var r := DropOneP(d, names[0], ifExists);
      if r.outcome.Done? { DropNamesBalanced(r.state, names[1..], ifExists, a); }
    }
  }

  lemma DropTypeBalanced(d: Database, name: string, ifExists: bool, a: string)
    ensures Held(DropTypeP(d, name, ifExists).state, a)
            + (if NormIdent(name) in TypeKeys(d.types) then 0 else CarriedBy(d, TypeKind, name, a)) == Held(d, a)
  {
    FindMember(TypeKeys(d.types), NormIdent(name));
    hide FindFrom, ObjectKey, Carried, Count, NormIdent;
    if Find(ObjectKeys(d.objects), ObjectKey(TypeKind, name)) >= 0 { RemoveBalanced(d, TypeKind, name, a); }
  }

  lemma DropObjectBalanced(d: Database, kind: ObjectKind, name: string, ifExists: bool, a: string)
    ensures Held(DropObjectP(d, kind, name, ifExists).state, a) + CarriedBy(d, kind, name, a) == Held(d, a)
  {
    hide FindFrom, ObjectKey, KindText, Carried, Count;
    if Find(ObjectKeys(d.objects), ObjectKey(kind, name)) >= 0 { RemoveBalanced(d, kind, name, a); }
  }

  lemma RenameBalanced(d: Database, p: nat, o: ObjectDef, a: string)
    requires p < |d.objects| && o.postAlters == d.objects[p].postAlters
    ensures Held(d.(objects := d.objects[p := o]), a) == Held(d, a)
  {
    CarriedSplit(d.objects, p, o, a);
  }

  lemma OtherBalanced(d: Database, s: Statement, a: string)
    requires s.AlterType? || s.AlterObject?
    ensures Held(ApplyP(d, s).state, a) == Held(d, a)
  {
    hide FindFrom, ObjectKey, KindText, Carried, Count, NormIdent, LabelAction, Patterns.ReplaceTypeName;
    match s
    case AlterType(name, action) =>
      var q := Find(ObjectKeys(d.objects), ObjectKey(TypeKind, name));
      if q >= 0 && action.RenameType? {
        RenameBalanced(d, q, RenamedType(d.objects[q], name, action.newName), a);
      }
    case AlterObject(kind, oldName, newName) =>
      var p := Find(ObjectKeys(d.objects), ObjectKey(kind, oldName));
      if p >= 0 { RenameBalanced(d, p, d.objects[p].(name := newName), a); }
  }

  lemma AlterTableBalanced(d: Database, name: string, actions: seq<Action>, a: string)
    ensures Held(AlterTableP(d, name, actions).state, a) == Held(d, a)
  {
    var p := Find(TableKeys(d.tables), NormIdent(name));
    if p >= 0 { ActionsShape(d, p, NormIdent(name), actions); }
    hide Carried, Count, NormIdent, FindFrom, ActionsP;
  }

  /** Every statement balances the ledger of every text. */
  lemma StepBalanced(d: Database, s: Statement, a: string)
    ensures Balanced(d, s, ApplyP(d, s), a)
  {
    hide Held, CarriedBy, LostByNames, NormIdent, ObjectKey, KindText, Find, AttachP, CreateObjectP, DropObjectP, DropTypeP,
         DropTablesP, AlterTableP, TruncateKey, ApplyOptions;
    match s
    case AlterTable(name, actions) => AlterTableBalanced(d, name, actions, a);
    case DropTable(names, ifExists) => DropNamesBalanced(d, names, ifExists, a);
    case CreateObject(kind, name, orReplace, sql) => CreateBalanced(d, kind, name, orReplace, sql, a);
    case DropObject(kind, name, ifExists) => DropObjectBalanced(d, kind, name, ifExists, a);
    case DropType(name, ifExists) => DropTypeBalanced(d, name, ifExists, a);
    case AlterType(_, _) => OtherBalanced(d, s, a);
    case AlterObject(_, _, _) => OtherBalanced(d, s, a);
    case AlterFunctionOpts(kind, name, sql) => AttachBalanced(d, kind, name, sql, a);
    case AlterObjectOpts(kind, name, sql) => AttachBalanced(d, kind, name, sql, a);
    case Unknown(raw) => UnknownBalanced(d, raw, a);
    case _ => SameHeld(d, s, a);
  }

  lemma SameHeld(d: Database, s: Statement, a: string)
    requires s.CreateTable? || s.CreateIndex? || s.DropIndex? || s.AlterIndex? || s.CreateSequence? || s.DropSequence?
             || s.CreateType? || s.AlterSequence? || s.AlterSequenceOpts? || s.TruncateTables?
    ensures Held(ApplyP(d, s).state, a) == Held(d, a)
  {
    hide Carried, Count, NormIdent, Find, TruncateKey, ApplyOptions;
  }

  // ---- Runs ----

  ghost function Arrived(d: Database, ss: seq<Statement>, a: string): nat
    decreases |ss|
  {
    if ss == [] then 0
    else
      Arrives(ss[0], a) + if ApplyP(d, ss[0]).outcome.Done? then Arrived(ApplyP(d, ss[0]).state, ss[1..], a) else 0
  }

  ghost function LostInRun(d: Database, ss: seq<Statement>, a: string): nat
    decreases |ss|
  {
    if ss == [] then 0
    else
      Lost(d, ss[0], a) + if ApplyP(d, ss[0]).outcome.Done? then LostInRun(ApplyP(d, ss[0]).state, ss[1..], a) else 0
  }

  lemma {:induction false} RunBalanced(d: Database, ss: seq<Statement>, a: string)
    ensures Held(RunP(d, ss).state, a) + LostInRun(d, ss, a) == Held(d, a) + Arrived(d, ss, a)
    decreases |ss|
  {
    hide ApplyP, Held, Lost, Arrives;
    if ss != [] {
      StepBalanced(d, ss[0], a);
      var r := ApplyP(d, ss[0]);
      if r.outcome.Done? { RunBalanced(r.state, ss[1..], a); }
    }
  }

  // ---- What is printed ----

  ghost function Times(ls: seq<Line>, a: string): nat {
    if ls == [] then 0 else (if ls[0].text == a then 1 else 0) + Times(ls[1..], a)
  }

  lemma {:induction false} TimesAppend(x: seq<Line>, y: seq<Line>, a: string)
    ensures Times(x + y, a) == Times(x, a) + Times(y, a)
  {
    if x == [] {
      assert x + y == y;
    } else {
      assert (x + y)[1..] == x[1..] + y;
      TimesAppend(x[1..], y, a);
    }
  }

  lemma TimesOne(l: Line, a: string)
    ensures Times([l], a) == if l.text == a then 1 else 0
  {
    assert [l][1..] == [];
  }

  lemma {:induction false} GroupTimes(sql: string, alters: seq<string>, a: string)
    ensures Times(Group(sql, alters), a) == (if sql == a then 1 else 0) + Count(alters, a)
    decreases |alters|
  {
    if alters == [] {
      TimesOne(Line(sql, "\n\n"), a);
    } else {
      GroupTimes(alters[0], alters[1..], a);
      TimesAppend([Line(sql, "\n")], Group(alters[0], alters[1..]), a);
      TimesOne(Line(sql, "\n"), a);
    }
  }

  /** How often a is attached to an object whose section prints no ALTERs. */
  ghost function Hidden(os: seq<ObjectDef>, a: string): nat {
    if os == [] then 0
    else (if PrintsAlters(Section(os[0].kind)) then 0 else Count(os[0].postAlters, a)) + Hidden(os[1..], a)
  }

  function Bare(os: seq<ObjectDef>): seq<ObjectDef> {
    seq(|os|, i requires 0 <= i < |os| => os[i].(postAlters := []))
  }

  /** The database without attached ALTERs and pass-through texts. */
  function Stripped(d: Database): Database { d.(objects := Bare(d.objects), unknowns := []) }

  ghost function PrintedIn(os: seq<ObjectDef>, n: nat, a: string): nat {
    if os == [] then 0
    else
      (if Section(os[0].kind) == n && PrintsAlters(n) then Count(os[0].postAlters, a) else 0) + PrintedIn(os[1..], n, a)
  }

  lemma ObjectTimes(o: ObjectDef, a: string)
    ensures Times(ObjectLines(o), a) ==
            Times(ObjectLines(o.(postAlters := [])), a)
            + if PrintsAlters(Section(o.kind)) then Count(o.postAlters, a) else 0
  {
    GroupTimes(o.sql, o.postAlters, a);
    GroupTimes(o.sql, [], a);
    assert Count([], a) == 0;
  }

  lemma {:induction false} SectionTimes(os: seq<ObjectDef>, n: nat, a: string)
    ensures Times(SectionLines(os, n), a) == Times(SectionLines(Bare(os), n), a) + PrintedIn(os, n, a)
    decreases |os|
  {
    hide Times, ObjectLines, Section, PrintsAlters;
    if os != [] {
      var o, rest := os[0], os[1..];
      var o' := o.(postAlters := []);
      SectionTimes(rest, n, a);
      assert Bare(os)[1..] == Bare(rest) && Bare(os)[0] == o';
      TimesAppend(ObjectLines(o), SectionLines(rest, n), a);
      TimesAppend(ObjectLines(o'), SectionLines(Bare(rest), n), a);
      ObjectTimes(o, a);
      assert [] + SectionLines(rest, n) == SectionLines(rest, n);
      assert [] + SectionLines(Bare(rest), n) == SectionLines(Bare(rest), n);
    }
  }

  ghost function PrintedUpTo(os: seq<ObjectDef>, n: nat, a: string): nat {
    if n == 0 then 0 else PrintedUpTo(os, n - 1, a) + PrintedIn(os, n - 1, a)
  }

  /** The object at the head counts in one section only. */
  lemma {:induction false} HeadPrinted(os: seq<ObjectDef>, n: nat, a: string)
    requires os != []
    ensures PrintedUpTo(os, n, a) == PrintedUpTo(os[1..], n, a)
            + if Section(os[0].kind) < n && PrintsAlters(Section(os[0].kind)) then Count(os[0].postAlters, a) else 0
  {
    hide Count, Section, PrintsAlters;
    if n > 0 { HeadPrinted(os, n - 1, a); }
  }

  /** The nine sections together print every attached text that is not hidden. */
  lemma {:induction false} AllPrinted(os: seq<ObjectDef>, a: string)
    ensures PrintedUpTo(os, SECTIONS, a) + Hidden(os, a) == Carried(os, a)
  {
    hide Count;
    if os == [] {
      NonePrinted(SECTIONS, a);
    } else {
      HeadPrinted(os, SECTIONS, a);
      AllPrinted(os[1..], a);
    }
  }

  lemma {:induction false} NonePrinted(n: nat, a: string)
    ensures PrintedUpTo([], n, a) == 0
  {
    if n > 0 { NonePrinted(n - 1, a); }
  }

  lemma {:induction false} UnknownTimes(us: seq<string>, a: string)
    ensures Times(UnknownLines(us), a) == Count(us, a)
  {
    if us != [] {
      UnknownTimes(us[1..], a);
      assert UnknownLines(us)[1..] == UnknownLines(us[1..]);
    }
  }

  /** The lines between two sections that hold no objects. */
  lemma ScriptTimes(d: Database, a: string)
    ensures Times(ScriptOf(d), a) ==
            Times(SectionLines(d.objects, 0), a) + Times(SectionLines(d.objects, 1), a)
            + Times(SequenceLines(d.sequences), a) + Times(TypeLines(d.types), a)
            + Times(SectionLines(d.objects, 2), a) + Times(SectionLines(d.objects, 3), a)
            + Times(TableLines(d.tables), a) + Times(SectionLines(d.objects, 4), a) + Times(IndexLines(d.indexes), a)
            + Times(SectionLines(d.objects, 5), a) + Times(SectionLines(d.objects, 6), a)
            + Times(SectionLines(d.objects, 7), a) + Times(SectionLines(d.objects, 8), a)
            + Times(TruncateLines(d.truncates), a) + Times(UnknownLines(d.unknowns), a)
  {
    var s, t, e, x := SequenceLines(d.sequences), TableLines(d.tables), TypeLines(d.types), IndexLines(d.indexes);
    var c, u := TruncateLines(d.truncates), UnknownLines(d.unknowns);
    var o0, o1, o2 := SectionLines(d.objects, 0), SectionLines(d.objects, 1), SectionLines(d.objects, 2);
    var o3, o4, o5 := SectionLines(d.objects, 3), SectionLines(d.objects, 4), SectionLines(d.objects, 5);
    var o6, o7, o8 := SectionLines(d.objects, 6), SectionLines(d.objects, 7), SectionLines(d.objects, 8);
    hide Times, SectionLines, SequenceLines, TypeLines, TableLines, IndexLines, TruncateLines, UnknownLines;
    TimesAppend(o0, o1, a);
    TimesAppend(o0 + o1, s, a);
    TimesAppend(o0 + o1 + s, e, a);
    TimesAppend(o0 + o1 + s + e, o2, a);
    TimesAppend(o0 + o1 + s + e + o2, o3, a);
    TimesAppend(o0 + o1 + s + e + o2 + o3, t, a);
    TimesAppend(o0 + o1 + s + e + o2 + o3 + t, o4, a);
    TimesAppend(o0 + o1 + s + e + o2 + o3 + t + o4, x, a);
    TimesAppend(o0 + o1 + s + e + o2 + o3 + t + o4 + x, o5, a);
    TimesAppend(o0 + o1 + s + e + o2 + o3 + t + o4 + x + o5, o6, a);
    TimesAppend(o0 + o1 + s + e + o2 + o3 + t + o4 + x + o5 + o6, o7, a);
    TimesAppend(o0 + o1 + s + e + o2 + o3 + t + o4 + x + o5 + o6 + o7, o8, a);
    TimesAppend(o0 + o1 + s + e + o2 + o3 + t + o4 + x + o5 + o6 + o7 + o8, c, a);
    TimesAppend(o0 + o1 + s + e + o2 + o3 + t + o4 + x + o5 + o6 + o7 + o8 + c, u, a);
  }

  lemma NineSections(os: seq<ObjectDef>, a: string)
    ensures PrintedUpTo(os, SECTIONS, a) ==
            PrintedIn(os, 0, a) + PrintedIn(os, 1, a) + PrintedIn(os, 2, a) + PrintedIn(os, 3, a) + PrintedIn(os, 4, a)
            + PrintedIn(os, 5, a) + PrintedIn(os, 6, a) + PrintedIn(os, 7, a) + PrintedIn(os, 8, a)
  {
    hide PrintedIn;
    assert PrintedUpTo(os, 1, a) == PrintedUpTo(os, 0, a) + PrintedIn(os, 0, a);
    assert PrintedUpTo(os, 2, a) == PrintedUpTo(os, 1, a) + PrintedIn(os, 1, a);
    assert PrintedUpTo(os, 3, a) == PrintedUpTo(os, 2, a) + PrintedIn(os, 2, a);
    assert PrintedUpTo(os, 4, a) == PrintedUpTo(os, 3, a) + PrintedIn(os, 3, a);
    assert PrintedUpTo(os, 5, a) == PrintedUpTo(os, 4, a) + PrintedIn(os, 4, a);
    assert PrintedUpTo(os, 6, a) == PrintedUpTo(os, 5, a) + PrintedIn(os, 5, a);
    assert PrintedUpTo(os, 7, a) == PrintedUpTo(os, 6, a) + PrintedIn(os, 6, a);
    assert PrintedUpTo(os, 8, a) == PrintedUpTo(os, 7, a) + PrintedIn(os, 7, a);
  }

  /** The script has each held text exactly as often as it is held, over and
      above the statements that the schema itself prints. */
  lemma PrintedOnce(d: Database, a: string)
    ensures Times(ScriptOf(d), a) + Hidden(d.objects, a) == Times(ScriptOf(Stripped(d)), a) + Held(d, a)
  {
    var os := d.objects;
    ScriptTimes(d, a);
    ScriptTimes(Stripped(d), a);
    hide ScriptOf, Times, SectionLines, Hidden, Count, Carried, PrintedIn, PrintedUpTo, SequenceLines, TypeLines,
         TableLines, IndexLines, TruncateLines, UnknownLines, Bare;
    SectionTimes(os, 0, a);
    SectionTimes(os, 1, a);
    SectionTimes(os, 2, a);
    SectionTimes(os, 3, a);
    SectionTimes(os, 4, a);
    SectionTimes(os, 5, a);
    SectionTimes(os, 6, a);
    SectionTimes(os, 7, a);
    SectionTimes(os, 8, a);
    NineSections(os, a);
    AllPrinted(os, a);
    UnknownTimes(d.unknowns, a);
    UnknownTimes([], a);
    CountNone(a);
  }

  lemma CountNone(a: string)
    ensures Count([], a) == 0
  {
  }

  // ---- Only printing kinds carry ALTERs ----

  /** The kinds that the parser makes ALTER statements for. */
  predicate Carrier(k: ObjectKind) {
    k.Function? || k.Procedure? || k.Extension? || k.Domain? || k.Policy? || k.View?
  }

  /** Every kind that can carry ALTERs has them printed. */
  lemma CarriersPrint(k: ObjectKind)
    ensures Carrier(k) ==> PrintsAlters(Section(k))
  {
  }

  predicate AltersCarriers(s: Statement) {
    (s.AlterFunctionOpts? || s.AlterObjectOpts?) ==> Carrier(s.kind)
  }

  predicate NothingHidden(os: seq<ObjectDef>) {
    forall o :: o in os && !PrintsAlters(Section(o.kind)) ==> o.postAlters == []
  }

  lemma {:induction false} NothingHiddenCount(os: seq<ObjectDef>, a: string)
    requires NothingHidden(os)
    ensures Hidden(os, a) == 0
  {
    if os != [] {
      assert os[0] in os;
      assert forall o :: o in os[1..] ==> o in os;
      NothingHiddenCount(os[1..], a);
    }
  }

  lemma RemoveNothingHidden(os: seq<ObjectDef>, p: nat)
    requires NothingHidden(os) && p < |os|
    ensures NothingHidden(RemoveAt(os, p))
  {
    hide Section, PrintsAlters;
    assert forall o :: o in RemoveAt(os, p) ==> o in os;
  }

  lemma UpdateNothingHidden(os: seq<ObjectDef>, p: nat, o: ObjectDef)
    requires NothingHidden(os) && p < |os| && (!PrintsAlters(Section(o.kind)) ==> o.postAlters == [])
    ensures NothingHidden(os[p := o])
  {
    hide Section, PrintsAlters;
    assert forall x :: x in os[p := o] ==> x == o || x in os;
  }

  lemma {:induction false} DropsNothingHidden(d: Database, names: seq<string>, ifExists: bool)
    requires NothingHidden(d.objects)
    ensures NothingHidden(DropTablesP(d, names, ifExists).state.objects)
    decreases |names|
  {
    hide NormIdent, ObjectKey, FindFrom, WithoutTable, NothingHidden;
    if names != [] {
      var q := Find(ObjectKeys(d.objects), ObjectKey(Partition, names[0]));
      if q >= 0 { RemoveNothingHidden(d.objects, q); }
      var r := DropOneP(d, names[0], ifExists);
      if r.outcome.Done? { DropsNothingHidden(r.state, names[1..], ifExists); }
    }
  }

  lemma AttachNothingHidden(d: Database, kind: ObjectKind, name: string, sql: string)
    requires NothingHidden(d.objects) && Carrier(kind)
    ensures NothingHidden(AttachP(d, kind, name, sql).state.objects)
  {
    var p := Find(ObjectKeys(d.objects), ObjectKey(kind, name));
    hide NothingHidden;
    if p >= 0 {
      var o := d.objects[p];
      KeyTellsKind(kind, name, o.kind, o.name);
      CarriersPrint(kind);
      hide ObjectKey, FindFrom, Section, PrintsAlters;
      UpdateNothingHidden(d.objects, p, o.(postAlters := o.postAlters + [sql]));
    }
  }

  lemma CreateNothingHidden(d: Database, kind: ObjectKind, name: string, orReplace: bool, sql: string)
    requires NothingHidden(d.objects)
    ensures NothingHidden(CreateObjectP(d, kind, name, orReplace, sql).state.objects)
  {
    var p := Find(ObjectKeys(d.objects), ObjectKey(kind, name));
    hide ObjectKey, KindText, FindFrom, Section, PrintsAlters;
    if p >= 0 { UpdateNothingHidden(d.objects, p, d.objects[p].(sql := sql, postAlters := [])); }
  }

  lemma RenameNothingHidden(d: Database, s: Statement)
    requires NothingHidden(d.objects) && (s.AlterType? || s.AlterObject?)
    ensures NothingHidden(ApplyP(d, s).state.objects)
  {
    hide FindFrom, ObjectKey, KindText, NormIdent, LabelAction, Patterns.ReplaceTypeName, NothingHidden, Section, PrintsAlters;
    match s
    case AlterType(name, action) =>
      var q := Find(ObjectKeys(d.objects), ObjectKey(TypeKind, name));
      if q >= 0 && action.RenameType? {
        HeldByMember(d.objects, q);
        UpdateNothingHidden(d.objects, q, RenamedType(d.objects[q], name, action.newName));
      }
    case AlterObject(kind, oldName, newName) =>
      var p := Find(ObjectKeys(d.objects), ObjectKey(kind, oldName));
      if p >= 0 {
        HeldByMember(d.objects, p);
        UpdateNothingHidden(d.objects, p, d.objects[p].(name := newName));
      }
  }

  lemma HeldByMember(os: seq<ObjectDef>, p: nat)
    requires NothingHidden(os) && p < |os|
    ensures !PrintsAlters(Section(os[p].kind)) ==> os[p].postAlters == []
  {
  }

  lemma StepNothingHidden(d: Database, s: Statement)
    requires NothingHidden(d.objects) && AltersCarriers(s)
    ensures NothingHidden(ApplyP(d, s).state.objects)
  {
    hide NormIdent, ObjectKey, KindText, FindFrom, AttachP, CreateObjectP, DropTablesP, ActionsP, TruncateKey, ApplyOptions,
         LabelAction, NothingHidden, Section, PrintsAlters;
    match s
    case AlterTable(name, actions) =>
      var p := Find(TableKeys(d.tables), NormIdent(name));
      if p >= 0 { ActionsShape(d, p, NormIdent(name), actions); }
    case DropTable(names, ifExists) => DropsNothingHidden(d, names, ifExists);
    case CreateObject(kind, name, orReplace, sql) => CreateNothingHidden(d, kind, name, orReplace, sql);
    case DropObject(kind, name, _) =>
      var p := Find(ObjectKeys(d.objects), ObjectKey(kind, name));
      if p >= 0 { RemoveNothingHidden(d.objects, p); }
    case DropType(name, _) =>
      var q := Find(ObjectKeys(d.objects), ObjectKey(TypeKind, name));
      if q >= 0 { RemoveNothingHidden(d.objects, q); }
    case AlterType(_, _) => RenameNothingHidden(d, s);
    case AlterObject(_, _, _) => RenameNothingHidden(d, s);
    case AlterFunctionOpts(kind, name, sql) => AttachNothingHidden(d, kind, name, sql);
    case AlterObjectOpts(kind, name, sql) => AttachNothingHidden(d, kind, name, sql);
    case _ =>
  }

  lemma {:induction false} RunNothingHidden(d: Database, ss: seq<Statement>)
    requires NothingHidden(d.objects) && forall s :: s in ss ==> AltersCarriers(s)
    ensures NothingHidden(RunP(d, ss).state.objects)
    decreases |ss|
  {
    hide ApplyP, NothingHidden, AltersCarriers;
    if ss != [] {
      assert ss[0] in ss && forall s :: s in ss[1..] ==> s in ss;
      StepNothingHidden(d, ss[0]);
      var r := ApplyP(d, ss[0]);
      if r.outcome.Done? { RunNothingHidden(r.state, ss[1..]); }
    }
  }

  /** Over a whole run: what the script prints of a text, besides the schema's
      own statements, is what arrived less what was replaced or dropped. */
  lemma Conservation(ss: seq<Statement>, a: string)
    requires NoCollisions(EMPTY, ss) && forall s :: s in ss ==> AltersCarriers(s)
    ensures var d := RunX(NEW, ss).state.db;
            Times(ScriptOf(d), a) + LostInRun(EMPTY, ss, a) == Times(ScriptOf(Stripped(d)), a) + Arrived(EMPTY, ss, a)
  {
    var d := RunP(EMPTY, ss).state;
    ReachableConsistent(ss);
    RunNothingHidden(EMPTY, ss);
    NothingHiddenCount(d.objects, a);
    RunBalanced(EMPTY, ss, a);
    PrintedOnce(d, a);
    assert Held(EMPTY, a) == 0;
    hide ScriptOf, Times, LostInRun, Arrived, Held, RunX, RunP, Stripped, AltersCarriers;
  }

  // ---- Where they are printed ----

  predicate WithinAt(part: seq<Line>, whole: seq<Line>, n: nat) {
    n + |part| <= |whole| && whole[n..n + |part|] == part
  }

  /** The lines of part appear in whole, one after the other. */
  ghost predicate Within(part: seq<Line>, whole: seq<Line>) {
    exists n: nat :: WithinAt(part, whole, n)
  }

  lemma WithinLarger(part: seq<Line>, x: seq<Line>, whole: seq<Line>, y: seq<Line>)
    requires Within(part, whole)
    ensures Within(part, x + whole + y)
  {
    var n: nat :| WithinAt(part, whole, n);
    var all := x + whole + y;
    assert all[|x| + n..|x| + n + |part|] == whole[n..n + |part|];
    assert WithinAt(part, all, |x| + n);
  }

  lemma WithinAtEnd(part: seq<Line>, x: seq<Line>, whole: seq<Line>)
    requires Within(part, whole)
    ensures Within(part, x + whole)
  {
    WithinLarger(part, x, whole, []);
    assert x + whole + [] == x + whole;
  }

  lemma WithinBefore(part: seq<Line>, whole: seq<Line>, y: seq<Line>)
    requires Within(part, whole)
    ensures Within(part, whole + y)
  {
    WithinLarger(part, [], whole, y);
    assert [] + whole + y == whole + y;
  }

  lemma {:induction false} ObjectWithin(os: seq<ObjectDef>, i: nat)
    requires i < |os|
    ensures Within(ObjectLines(os[i]), SectionLines(os, Section(os[i].kind)))
    decreases i
  {
    hide ObjectLines, Section;
    var n := Section(os[i].kind);
    var rest := SectionLines(os[1..], n);
    if i == 0 {
      var whole := ObjectLines(os[0]);
      assert WithinAt(whole, whole, 0);
      WithinBefore(whole, whole, rest);
    } else {
      ObjectWithin(os[1..], i - 1);
      WithinAtEnd(ObjectLines(os[i]), if Section(os[0].kind) == n then ObjectLines(os[0]) else [], rest);
    }
  }

  lemma SectionWithin(part: seq<Line>, d: Database, n: nat)
    requires n < SECTIONS && Within(part, SectionLines(d.objects, n))
    ensures Within(part, ScriptOf(d))
  {
    var s, t, e, x := SequenceLines(d.sequences), TableLines(d.tables), TypeLines(d.types), IndexLines(d.indexes);
    var c, u := TruncateLines(d.truncates), UnknownLines(d.unknowns);
    var o0, o1, o2 := SectionLines(d.objects, 0), SectionLines(d.objects, 1), SectionLines(d.objects, 2);
    var o3, o4, o5 := SectionLines(d.objects, 3), SectionLines(d.objects, 4), SectionLines(d.objects, 5);
    var o6, o7, o8 := SectionLines(d.objects, 6), SectionLines(d.objects, 7), SectionLines(d.objects, 8);
    var before1 := if n == 0 then o0 else o0 + o1;
    hide Within, SectionLines, SequenceLines, TypeLines, TableLines, IndexLines, TruncateLines, UnknownLines;
    if n == 1 { WithinAtEnd(part, o0, o1); }
    if n == 0 { WithinBefore(part, o0, o1); }
    var a1 := o0 + o1 + s + e;
    if n <= 1 { WithinBefore(part, o0 + o1, s); WithinBefore(part, o0 + o1 + s, e); }
    var a2 := a1 + o2 + o3;
    if n == 2 { WithinAtEnd(part, a1, o2); }
    if n < 2 { WithinBefore(part, a1, o2); }
    if n == 3 { WithinAtEnd(part, a1 + o2, o3); }
    if n < 3 { WithinBefore(part, a1 + o2, o3); }
    var a3 := a2 + t + o4 + x;
    if n < 4 { WithinBefore(part, a2, t); WithinBefore(part, a2 + t, o4); }
    if n == 4 { WithinAtEnd(part, a2 + t, o4); }
    if n <= 4 { WithinBefore(part, a2 + t + o4, x); }
    if n < 5 { WithinBefore(part, a3, o5); }
    if n == 5 { WithinAtEnd(part, a3, o5); }
    if n < 6 { WithinBefore(part, a3 + o5, o6); }
    if n == 6 { WithinAtEnd(part, a3 + o5, o6); }
    var a4 := a3 + o5 + o6;
    if n < 7 { WithinBefore(part, a4, o7); }
    if n == 7 { WithinAtEnd(part, a4, o7); }
    if n < 8 { WithinBefore(part, a4 + o7, o8); }
    if n == 8 { WithinAtEnd(part, a4 + o7, o8); }
    WithinBefore(part, a4 + o7 + o8, c);
    WithinBefore(part, a4 + o7 + o8 + c, u);
  }

  lemma {:induction false} GroupTexts(sql: string, alters: seq<string>)
    ensures var g := Group(sql, alters);
            && |g| == 1 + |alters| && g[0].text == sql
            && forall i :: 0 <= i < |alters| ==> g[1 + i].text == alters[i]
    decreases |alters|
  {
    if alters != [] { GroupTexts(alters[0], alters[1..]); }
  }

  /** Line n is the CREATE of o and the next lines are its ALTERs, in order. */
  ghost predicate GroupAt(ls: seq<Line>, n: nat, o: ObjectDef) {
    && n + |o.postAlters| < |ls| && ls[n].text == o.sql
    && forall j :: 0 <= j < |o.postAlters| ==> ls[n + 1 + j].text == o.postAlters[j]
  }

  /** In the script, the ALTERs of an object follow its CREATE directly, in the
      order they arrived. */
  lemma AltersFollowCreate(d: Database, i: nat)
    requires i < |d.objects| && NothingHidden(d.objects)
    ensures exists n: nat :: GroupAt(ScriptOf(d), n, d.objects[i])
  {
    var o, part, whole := d.objects[i], ObjectLines(d.objects[i]), ScriptOf(d);
    ObjectWithin(d.objects, i);
    SectionWithin(part, d, Section(o.kind));
    GroupTexts(o.sql, o.postAlters);
    assert |part| == 1 + |o.postAlters| && part[0].text == o.sql;
    hide ScriptOf, Section, PrintsAlters, ObjectLines;
    var n: nat :| WithinAt(part, whole, n);
    assert whole[n] == whole[n..n + |part|][0];
    forall j | 0 <= j < |o.postAlters| ensures whole[n + 1 + j].text == o.postAlters[j] {
      assert whole[n + 1 + j] == whole[n..n + |part|][1 + j];
    }
    assert GroupAt(whole, n, o);
  }
}
