/** Merging the merged file again, with the parser as it is: exactly when the
    second output is the first. */
module SecondMerge {
  import opened Text
  import opened Ast
  import opened Patterns
  import opened Positions
  import opened Catalog
  import opened Indexed
  import opened Plain
  import opened Refinement
  import opened Splitter
  import opened Script
  import opened Replay
  import opened Soundness
  import opened RoundTrip
  import opened Fragments
  import opened Rereading
  import opened SecondReading
  import opened Merger
  import PrintedStatements
  import PrintedTables

  // ---- Sizes ----

  function Size(d: Database): nat { |Written(ScriptOf(d))| }

  /** The last line of a script closes with an empty line. */
  predicate ClosedOff(ls: seq<Line>) { ls == [] || ls[|ls| - 1].gap == "\n\n" }

  lemma {:induction false} GroupClosedOff(sql: string, alters: seq<string>)
    ensures ClosedOff(Group(sql, alters)) && Group(sql, alters) != []
    decreases |alters|
  {
    if alters != [] { GroupClosedOff(alters[0], alters[1..]); }
  }

  lemma {:induction false} SectionClosedOff(os: seq<ObjectDef>, n: nat)
    ensures ClosedOff(SectionLines(os, n))
  {
    hide Group, Section;
    if os != [] {
      GroupClosedOff(os[0].sql, os[0].postAlters);
      SectionClosedOff(os[1..], n);
    }
  }

  lemma SpacedClosedOff(d: Database)
    ensures ClosedOff(SequenceLines(d.sequences)) && ClosedOff(TypeLines(d.types)) && ClosedOff(TableLines(d.tables))
    ensures ClosedOff(IndexLines(d.indexes)) && ClosedOff(TruncateLines(d.truncates)) && ClosedOff(UnknownLines(d.unknowns))
  {
    hide TableText, IndexText, SequenceText, EnumText, TruncateText;
  }

  lemma AppendClosedOff(a: seq<Line>, b: seq<Line>)
    requires ClosedOff(a) && ClosedOff(b)
    ensures ClosedOff(a + b)
  {
  }

  lemma ScriptClosedOff(d: Database)
    ensures ClosedOff(ScriptOf(d))
  {
    var os := d.objects;
    SpacedClosedOff(d);
    forall n: nat ensures ClosedOff(SectionLines(os, n)) { SectionClosedOff(os, n); }
    hide SectionLines, SequenceLines, TypeLines, TableLines, IndexLines, TruncateLines, UnknownLines, ClosedOff;
    var a := SectionLines(os, 0) + SectionLines(os, 1);
    AppendClosedOff(SectionLines(os, 0), SectionLines(os, 1));
    AppendClosedOff(a, SequenceLines(d.sequences));
    var b := a + SequenceLines(d.sequences);
    AppendClosedOff(b, TypeLines(d.types));
    var c := b + TypeLines(d.types);
    AppendClosedOff(c, SectionLines(os, 2));
    AppendClosedOff(c + SectionLines(os, 2), SectionLines(os, 3));
    var e := c + SectionLines(os, 2) + SectionLines(os, 3);
    AppendClosedOff(e, TableLines(d.tables));
    AppendClosedOff(e + TableLines(d.tables), SectionLines(os, 4));
    var f := e + TableLines(d.tables) + SectionLines(os, 4);
    AppendClosedOff(f, IndexLines(d.indexes));
    AppendClosedOff(f + IndexLines(d.indexes), SectionLines(os, 5));
    var g := f + IndexLines(d.indexes) + SectionLines(os, 5);
    AppendClosedOff(g, SectionLines(os, 6));
    AppendClosedOff(g + SectionLines(os, 6), SectionLines(os, 7));
    var h := g + SectionLines(os, 6) + SectionLines(os, 7);
    AppendClosedOff(h, SectionLines(os, 8));
    AppendClosedOff(h + SectionLines(os, 8), TruncateLines(d.truncates));
    AppendClosedOff(h + SectionLines(os, 8) + TruncateLines(d.truncates), UnknownLines(d.unknowns));
  }

  lemma LineSize(l: Line)
    ensures |Written([l])| == |l.text| + 1 + |l.gap|
  {
    assert [l][1..] == [];
  }

  /** The file is one character shorter than its lines: the last line break goes. */
  lemma OutputSize(d: Database)
    ensures |Output(d)| == if ScriptOf(d) == [] then 1 else Size(d) - 1
    ensures ScriptOf(d) != [] ==> Size(d) >= 3
  {
    ScriptClosedOff(d);
    hide ScriptOf, TrimNewlines;
    var ls := ScriptOf(d);
    if ls == [] {
      NoNewlines();
    } else {
      LastShorter(ls);
    }
  }

  lemma NoNewlines()
    ensures TrimNewlines("") == ""
  {
  }

  lemma LastShorter(ls: seq<Line>)
    requires ls != [] && ls[|ls| - 1].gap == "\n\n"
    ensures |TrimNewlines(Written(ls)) + "\n"| == |Written(ls)| - 1 && |Written(ls)| >= 3
  {
    TrimmedWritten(ls);
    hide TrimNewlines, Written;
    var n := |ls| - 1;
    var init, l, l' := ls[..n], ls[n], ls[n].(gap := "\n");
    assert ls == init + [l] && ls[n := l'] == init + [l'];
    WrittenAppend(init, [l]);
    WrittenAppend(init, [l']);
    LineSize(l);
    LineSize(l');
  }

  lemma SizeParts(d: Database)
    ensures Size(d) == |Written(LinesBefore(d))| + |Written(TypeLines(d.types))| + |Written(LinesBetween(d))|
                       + |Written(UnknownLines(d.unknowns))|
  {
    ScriptParts(d);
    hide Written, LinesBefore, LinesBetween, TypeLines, UnknownLines, ScriptOf;
    var a, t, m := LinesBefore(d), TypeLines(d.types), LinesBetween(d);
    WrittenAppend(a, t);
    WrittenAppend(a + t, m);
    WrittenAppend(a + t + m, UnknownLines(d.unknowns));
  }

  function Wide(os: seq<ObjectDef>, n: nat): nat { |Written(SectionLines(os, n))| }

  lemma BeforeSize(d: Database)
    ensures |Written(LinesBefore(d))| == Wide(d.objects, 0) + Wide(d.objects, 1) + |Written(SequenceLines(d.sequences))|
  {
    hide Written, SectionLines, SequenceLines;
    WrittenAppend(SectionLines(d.objects, 0), SectionLines(d.objects, 1));
    WrittenAppend(SectionLines(d.objects, 0) + SectionLines(d.objects, 1), SequenceLines(d.sequences));
  }

  lemma BetweenSize(d: Database)
    ensures var os := d.objects;
            |Written(LinesBetween(d))| == Wide(os, 2) + Wide(os, 3) + Wide(os, 4) + Wide(os, 5) + Wide(os, 6) + Wide(os, 7)
            + Wide(os, 8) + |Written(TableLines(d.tables))| + |Written(IndexLines(d.indexes))|
            + |Written(TruncateLines(d.truncates))|
  {
    var os := d.objects;
    hide Written, SectionLines, TableLines, IndexLines, TruncateLines;
    var a := SectionLines(os, 2);
    WrittenAppend(a, SectionLines(os, 3));
    var b := a + SectionLines(os, 3);
    WrittenAppend(b, TableLines(d.tables));
    WrittenAppend(b + TableLines(d.tables), SectionLines(os, 4));
    var c := b + TableLines(d.tables) + SectionLines(os, 4);
    WrittenAppend(c, IndexLines(d.indexes));
    WrittenAppend(c + IndexLines(d.indexes), SectionLines(os, 5));
    var e := c + IndexLines(d.indexes) + SectionLines(os, 5);
    WrittenAppend(e, SectionLines(os, 6));
    WrittenAppend(e + SectionLines(os, 6), SectionLines(os, 7));
    var f := e + SectionLines(os, 6) + SectionLines(os, 7);
    WrittenAppend(f, SectionLines(os, 8));
    WrittenAppend(f + SectionLines(os, 8), TruncateLines(d.truncates));
  }

  lemma {:induction false} GroupGrows(sql: string, alters: seq<string>, text: string)
    ensures |Written(Group(sql, alters + [text]))| == |Written(Group(sql, alters))| + |text| + 2
    decreases |alters|
  {
    hide Written;
    if alters == [] {
      assert ([] + [text])[1..] == [] && ([] + [text])[0] == text;
      assert Group(sql, [] + [text]) == [Line(sql, "\n")] + [Line(text, "\n\n")];
      WrittenAppend([Line(sql, "\n")], [Line(text, "\n\n")]);
      LineSize(Line(sql, "\n"));
      LineSize(Line(sql, "\n\n"));
      LineSize(Line(text, "\n\n"));
    } else {
      var more := alters + [text];
      assert more[0] == alters[0] && more[1..] == alters[1..] + [text];
      GroupGrows(alters[0], alters[1..], text);
      WrittenAppend([Line(sql, "\n")], Group(alters[0], alters[1..]));
      WrittenAppend([Line(sql, "\n")], Group(alters[0], alters[1..] + [text]));
    }
  }

  function Altered(o: ObjectDef, text: string): ObjectDef { o.(postAlters := o.postAlters + [text]) }

  lemma ObjectGrows(o: ObjectDef, text: string)
    ensures |Written(ObjectLines(Altered(o, text)))|
            == |Written(ObjectLines(o))| + if PrintsAlters(Section(o.kind)) then |text| + 2 else 0
  {
    hide Written, Section;
    GroupGrows(o.sql, o.postAlters, text);
  }

  lemma WideStep(o: ObjectDef, rest: seq<ObjectDef>, n: nat)
    ensures Wide([o] + rest, n) == (if Section(o.kind) == n then |Written(ObjectLines(o))| else 0) + Wide(rest, n)
  {
    hide Written, ObjectLines, Section;
    assert ([o] + rest)[1..] == rest;
    if Section(o.kind) == n {
      WrittenAppend(ObjectLines(o), SectionLines(rest, n));
    } else {
      assert [] + SectionLines(rest, n) == SectionLines(rest, n);
    }
  }

  lemma {:induction false} WideGrows(os: seq<ObjectDef>, p: nat, text: string, n: nat)
    requires p < |os|
    ensures Wide(os[p := Altered(os[p], text)], n)
            == Wide(os, n) + if Section(os[p].kind) == n && PrintsAlters(n) then |text| + 2 else 0
    decreases |os|
  {
    hide Wide, Section, PrintsAlters;
    var o, rest := os[0], os[1..];
    var os' := os[p := Altered(os[p], text)];
    assert os == [o] + rest;
    WideStep(o, rest, n);
    if p == 0 {
      assert os' == [Altered(o, text)] + rest;
      WideStep(Altered(o, text), rest, n);
      ObjectGrows(o, text);
    } else {
      assert os' == [o] + rest[p - 1 := Altered(rest[p - 1], text)];
      WideStep(o, rest[p - 1 := Altered(rest[p - 1], text)], n);
      WideGrows(rest, p - 1, text, n);
    }
  }

  /** An attached text is printed with one character less than a passed-through
      one, or not at all. */
  lemma AttachedSize(d: Database, p: nat, text: string)
    requires p < |d.objects|
    ensures Size(d.(objects := d.objects[p := Altered(d.objects[p], text)])) < Size(d) + |text| + 3
  {
    var os := d.objects;
    var d' := d.(objects := os[p := Altered(os[p], text)]);
    hide Wide, PrintsAlters, LinesBefore, LinesBetween, Written, Size, Section;
    SizeParts(d);
    SizeParts(d');
    BeforeSize(d);
    BeforeSize(d');
    BetweenSize(d);
    BetweenSize(d');
    WideGrows(os, p, text, 0);
    WideGrows(os, p, text, 1);
    WideGrows(os, p, text, 2);
    WideGrows(os, p, text, 3);
    WideGrows(os, p, text, 4);
    WideGrows(os, p, text, 5);
    WideGrows(os, p, text, 6);
    WideGrows(os, p, text, 7);
    WideGrows(os, p, text, 8);
  }

  lemma UnknownAppend(a: seq<string>, b: seq<string>)
    ensures UnknownLines(a + b) == UnknownLines(a) + UnknownLines(b)
  {
  }

  lemma PassedSize(d: Database, text: string)
    ensures Size(d.(unknowns := d.unknowns + [text])) == Size(d) + |text| + 3
  {
    var d' := d.(unknowns := d.unknowns + [text]);
    hide Written, Size, UnknownLines;
    SizeParts(d);
    SizeParts(d');
    assert LinesBefore(d') == LinesBefore(d) && LinesBetween(d') == LinesBetween(d);
    UnknownAppend(d.unknowns, [text]);
    OneUnknown(text);
    WrittenAppend(UnknownLines(d.unknowns), [Script.Spaced(text)]);
    LineSize(Script.Spaced(text));
  }

  lemma OneUnknown(text: string)
    ensures UnknownLines([text]) == [Script.Spaced(text)]
  {
  }

  // ---- The passed-through texts, run again ----

  /** An ALTER whose object is there, or that is not tracked: it does not pass
      through again. */
  predicate Caught(d: Database, s: Statement) {
    match s
    case AlterFunctionOpts(kind, name, _) => Find(ObjectKeys(d.objects), ObjectKey(kind, name)) >= 0
    case AlterObjectOpts(kind, name, sql) =>
      Untracked(kind, sql) || Find(ObjectKeys(d.objects), ObjectKey(kind, name)) >= 0
    case _ => false
  }

  lemma AlteredKeys(os: seq<ObjectDef>, p: nat, text: string)
    requires p < |os|
    ensures ObjectKeys(os[p := Altered(os[p], text)]) == ObjectKeys(os)
  {
    hide ObjectKey;
  }

  lemma KeyCount(os: seq<ObjectDef>)
    ensures |ObjectKeys(os)| == |os|
  {
  }

  lemma PassStep(d: Database, s: Statement, text: string)
    requires PassedThrough(s, text)
    ensures var r := ApplyP(d, s);
            && r.outcome.Done? && ObjectKeys(r.state.objects) == ObjectKeys(d.objects)
            && (!Caught(d, s) ==> r.state == d.(unknowns := d.unknowns + [text]))
            && (Caught(d, s) ==> Size(r.state) < Size(d) + |text| + 3)
  {
    KeyCount(d.objects);
    hide Size, ObjectKey, ObjectKeys, Find;
    if s.AlterFunctionOpts? || s.AlterObjectOpts? {
      var p := Find(ObjectKeys(d.objects), ObjectKey(s.kind, s.name));
      if 0 <= p {
        AttachedSize(d, p, text);
        AlteredKeys(d.objects, p, text);
      }
    }
  }

  function TextsSize(texts: seq<string>): nat { if texts == [] then 0 else |texts[0]| + 3 + TextsSize(texts[1..]) }

  predicate AllPassed(ss: seq<Statement>, texts: seq<string>) {
    |ss| == |texts| && forall i :: 0 <= i < |ss| ==> PassedThrough(ss[i], texts[i])
  }

  lemma CaughtAlike(d: Database, e: Database, s: Statement)
    requires ObjectKeys(d.objects) == ObjectKeys(e.objects)
    ensures Caught(d, s) == Caught(e, s)
  {
    hide ObjectKeys, Find;
  }

  /** Running them never fails. If none is caught they pass through again; if one
      is, less is printed than before. */
  lemma {:induction false} PassRun(d: Database, ss: seq<Statement>, texts: seq<string>)
    requires AllPassed(ss, texts)
    ensures var r := RunP(d, ss);
            && r.outcome.Done?
            && ((forall s :: s in ss ==> !Caught(d, s)) ==> r.state == d.(unknowns := d.unknowns + texts))
            && Size(r.state) <= Size(d) + TextsSize(texts)
            && ((exists s :: s in ss && Caught(d, s)) ==> Size(r.state) < Size(d) + TextsSize(texts))
    decreases |ss|
  {
    hide ApplyP, Caught, Size, ObjectKeys, PassedThrough;
    if ss == [] {
      assert d.unknowns + texts == d.unknowns;
    } else {
      var s, text := ss[0], texts[0];
      PassStep(d, s, text);
      var d' := ApplyP(d, s).state;
      if !Caught(d, s) { PassedSize(d, text); }
      PassRun(d', ss[1..], texts[1..]);
      forall q ensures Caught(d', q) == Caught(d, q) { CaughtAlike(d', d, q); }
      assert ss == [s] + ss[1..];
      assert d.unknowns + [text] + texts[1..] == d.unknowns + texts;
    }
  }

  lemma {:induction false} PassedSizes(d: Database, texts: seq<string>)
    ensures Size(d.(unknowns := d.unknowns + texts)) == Size(d) + TextsSize(texts)
    decreases |texts|
  {
    hide Size;
    if texts == [] {
      assert d.unknowns + texts == d.unknowns;
    } else {
      var d' := d.(unknowns := d.unknowns + [texts[0]]);
      PassedSize(d, texts[0]);
      PassedSizes(d', texts[1..]);
      assert d'.unknowns + texts[1..] == d.unknowns + texts;
    }
  }

  // ---- The two scripts ----

  lemma RegroupedLines(d: Database)
    ensures forall n: nat :: n < SECTIONS ==> SectionLines(Regrouped(d.objects), n) == SectionLines(d.objects, n)
  {
    forall n: nat | n < SECTIONS ensures SectionLines(Regrouped(d.objects), n) == SectionLines(d.objects, n) {
      SectionsLines(d.objects, SECTIONS, n);
    }
  }

  lemma MergedLines(ts: seq<TableDef>)
    requires forall t :: t in ts ==> PrintedTables.Rereadable(t)
    ensures TableLines(MergedTables(ts)) == TableLines(ts)
  {
    forall i | 0 <= i < |ts| ensures TableText(PrintedTables.MergedTable(ts[i])) == TableText(ts[i]) {
      assert ts[i] in ts;
      MergedText(ts[i]);
    }
    hide TableText, PrintedTables.MergedTable, PrintedTables.Rereadable;
  }

  lemma MergedText(t: TableDef)
    requires PrintedTables.Rereadable(t)
    ensures TableText(PrintedTables.MergedTable(t)) == TableText(t)
  {
    hide TableText, PrintedTables.MergedTable;
    PrintedTables.MergedTableText(t);
  }

  lemma EnumLines(es: seq<EnumDef>)
    ensures UnknownLines(EnumTexts(es)) == TypeLines(es)
  {
    hide EnumText;
  }

  /** What the second merge prints when nothing is caught: the enums behind
      everything but the texts passed through before. */
  lemma EnumsMove(d: Database)
    requires forall t :: t in d.tables ==> PrintedTables.Rereadable(t)
    ensures ScriptOf(Rebuilt(d).(unknowns := EnumTexts(d.types) + d.unknowns))
            == LinesBefore(d) + LinesBetween(d) + (TypeLines(d.types) + UnknownLines(d.unknowns))
  {
    var e := Rebuilt(d).(unknowns := EnumTexts(d.types) + d.unknowns);
    hide SectionLines, TableLines, TypeLines, SequenceLines, IndexLines, TruncateLines, UnknownLines, Regrouped, MergedTables,
         EnumTexts, PrintedTables.Rereadable, ScriptOf;
    ScriptParts(e);
    RegroupedLines(d);
    MergedLines(d.tables);
    EnumLines(d.types);
    UnknownAppend(EnumTexts(d.types), d.unknowns);
    assert LinesBefore(e) == LinesBefore(d) && LinesBetween(e) == LinesBetween(d);
    assert TypeLines([]) == [] by { NoEnums(); }
    assert LinesBefore(d) + [] + LinesBetween(d) == LinesBefore(d) + LinesBetween(d);
  }

  lemma NoEnums()
    ensures TypeLines([]) == []
  {
  }

  /** Nothing is printed between the enums and the texts passed through. */
  predicate NothingBetween(d: Database) {
    && d.tables == [] && d.indexes == [] && d.truncates == []
    && forall o :: o in d.objects ==> Section(o.kind) < 2
  }

  lemma {:induction false} SectionNone(os: seq<ObjectDef>, n: nat)
    ensures SectionLines(os, n) == [] <==> forall o :: o in os ==> Section(o.kind) != n
  {
    hide Section;
    if os != [] {
      var o, rest := os[0], os[1..];
      SectionNone(rest, n);
      assert os == [o] + rest;
      assert o in os && forall p :: p in os <==> p == o || p in rest;
      GroupSome(o.sql, o.postAlters);
      hide Group;
    }
  }

  lemma GroupSome(sql: string, alters: seq<string>)
    ensures Group(sql, alters) != []
  {
  }

  lemma BetweenNone(d: Database)
    ensures LinesBetween(d) == [] <==> NothingBetween(d)
  {
    var os := d.objects;
    forall n: nat ensures SectionLines(os, n) == [] <==> forall o :: o in os ==> Section(o.kind) != n { SectionNone(os, n); }
    assert forall o :: o in os ==> Section(o.kind) < SECTIONS;
    hide SectionLines, Section, TableText, IndexText, TruncateText;
    if LinesBetween(d) == [] {
      forall o | o in os ensures Section(o.kind) < 2 {
        assert SectionLines(os, 2) == [] && SectionLines(os, 3) == [] && SectionLines(os, 4) == [] && SectionLines(os, 5) == [];
        assert SectionLines(os, 6) == [] && SectionLines(os, 7) == [] && SectionLines(os, 8) == [];
      }
    }
  }

  // ---- Moved enums are seen ----

  lemma {:induction false} AltersKnown(rd: Reader, kind: ObjectKind, alters: seq<string>, s: Statement)
    requires s in ReadAlters(rd, kind, alters)
    ensures !s.Unknown?
  {
    if s != ReadAlter(rd, kind, alters[0]) { AltersKnown(rd, kind, alters[1..], s); }
  }

  lemma {:induction false} ObjectsKnown(rd: Reader, os: seq<ObjectDef>, s: Statement)
    requires s in AllStatements(os, rd)
    ensures !s.Unknown?
  {
    var o := os[0];
    if s in AllStatements(os[1..], rd) {
      ObjectsKnown(rd, os[1..], s);
    } else {
      assert s in ObjectStatements(o, rd);
      if s != ReadCreate(rd, o.kind, o.sql) { AltersKnown(rd, o.kind, o.postAlters, s); }
    }
  }

  lemma BetweenKnown(d: Database, rd: Reader, s: Statement)
    requires s in Between(d, rd)
    ensures !s.Unknown?
  {
    var os := d.objects;
    if n: nat :| n < SECTIONS && s in SectionStatements(os, n, rd) {
      ObjectsKnown(rd, InSection(os, n), s);
    } else {
      assert forall n: nat :: n < SECTIONS ==> s !in SectionStatements(os, n, rd);
      hide SectionStatements, MergedTables;
      assert s in TableStatements(MergedTables(d.tables)) || s in IndexStatements(d.indexes)
          || s in TruncateStatements(d.truncates);
    }
  }

  lemma FirstRead(ls: seq<Line>, ss: seq<Statement>, other: Parser)
    requires ReadsAs(ls, ss, other) && ls != []
    ensures ss != [] && Parse(TrimSpace(ls[0].text), other) == Read(ss[0])
  {
    hide Parse;
    PrintedStatements.ParseTrims(ls[0].text, other);
  }

  /** The first enum and the first statement behind the enums are different texts,
      for the parser tells them apart. */
  lemma FirstDiffer(d: Database, rd: Reader, other: Parser, us: seq<Statement>)
    requires Legible(d, rd, other, us) && d.types != [] && LinesBetween(d) != []
    ensures TrimSpace(TypeLines(d.types)[0].text) != TrimSpace(LinesBetween(d)[0].text)
  {
    hide Parse, LinesBetween, Between, TypeLines, ReadsAs, Legible, TrimSpace, EnumTexts;
    SimpleReads(d, rd, other, us);
    BetweenReads(d, rd, other, us);
    EnumsSome(d.types);
    FirstRead(TypeLines(d.types), UnknownStatements(EnumTexts(d.types)), other);
    FirstRead(LinesBetween(d), Between(d, rd), other);
    BetweenKnown(d, rd, Between(d, rd)[0]);
  }

  lemma EnumsSome(es: seq<EnumDef>)
    requires es != []
    ensures TypeLines(es) != []
  {
  }

  lemma TextsAt(a: seq<Line>, b: seq<Line>, c: seq<Line>)
    requires b != []
    ensures TrimmedTexts(a + b + c)[|a|] == TrimSpace(b[0].text)
  {
    hide TrimSpace;
    assert (a + b + c)[|a|] == b[0];
  }

  lemma AllPadded(d: Database)
    requires Clean(d)
    ensures forall l :: l in ScriptOf(d) ==> Padded(l.text)
  {
    forall l | l in ScriptOf(d) ensures Padded(l.text) { LinePadded(d, l); }
  }

  /** Enums that move are seen in the output. */
  lemma MovedSeen(d: Database, e: Database, rd: Reader, other: Parser, us: seq<Statement>)
    requires Clean(d) && Legible(d, rd, other, us) && d.types != [] && LinesBetween(d) != []
    requires ScriptOf(e) == LinesBefore(d) + LinesBetween(d) + (TypeLines(d.types) + UnknownLines(d.unknowns))
    ensures Output(e) != Output(d)
  {
    hide Clean, Legible, Padded, Output, Statements, LinesBefore, LinesBetween, TypeLines, UnknownLines, ScriptOf,
         TrimmedTexts, TrimSpace;
    var a, t, m, u := LinesBefore(d), TypeLines(d.types), LinesBetween(d), UnknownLines(d.unknowns);
    AllPadded(d);
    ScriptParts(d);
    assert forall l :: l in ScriptOf(e) ==> l in ScriptOf(d);
    SplitOutput(d);
    SplitOutput(e);
    EnumsSome(d.types);
    assert a + t + m + u == a + t + (m + u);
    TextsAt(a, t, m + u);
    TextsAt(a, m, t + u);
    FirstDiffer(d, rd, other, us);
  }

  // ---- Exactly when ----

  /** The schema the second merge ends with. */
  function Second(d: Database, rd: Reader, us: seq<Statement>): Database { RunP(EMPTY, Reread(d, rd, us)).state }

  predicate Settled(d: Database, us: seq<Statement>) {
    (d.types == [] || NothingBetween(d)) && forall s :: s in us ==> !Caught(d, s)
  }

  lemma RebuiltKeys(d: Database, s: Statement)
    ensures Caught(Rebuilt(d), s) == Caught(d, s)
  {
    hide Regrouped, ObjectKey, Find, ObjectKeys, MergedTables, EnumTexts, Count;
    var a, b := ObjectKeys(d.objects), ObjectKeys(Regrouped(d.objects));
    if s.AlterFunctionOpts? || s.AlterObjectOpts? {
      var k := ObjectKey(s.kind, s.name);
      RegroupedPermutes(d.objects, ObjectDef(View, "", "", []), k);
      CountMember(a, k);
      CountMember(b, k);
      FindMember(a, k);
      FindMember(b, k);
    }
  }

  lemma PassedOf(d: Database, rd: Reader, other: Parser, us: seq<Statement>)
    requires Legible(d, rd, other, us)
    ensures AllPassed(us, d.unknowns) && forall t :: t in d.tables ==> PrintedTables.Rereadable(t)
  {
    hide Parse, PrintedTables.Rereadable, ObjectRead;
  }

  /** With nothing caught, the second output is the first exactly when there is no
      enum or nothing for it to move behind. */
  lemma UncaughtExact(d: Database, rd: Reader, other: Parser, us: seq<Statement>)
    requires Clean(d) && Legible(d, rd, other, us)
    ensures var e := Rebuilt(d).(unknowns := EnumTexts(d.types) + d.unknowns);
            Size(e) == Size(d) && (Output(e) == Output(d) <==> d.types == [] || NothingBetween(d))
  {
    hide Clean, Legible, LinesBefore, LinesBetween, TypeLines, UnknownLines, ScriptOf, NothingBetween, Rebuilt,
         Written, TrimNewlines;
    var e := Rebuilt(d).(unknowns := EnumTexts(d.types) + d.unknowns);
    var a, t, m, u := LinesBefore(d), TypeLines(d.types), LinesBetween(d), UnknownLines(d.unknowns);
    PassedOf(d, rd, other, us);
    EnumsMove(d);
    ScriptParts(d);
    BetweenNone(d);
    SameSize(a, t, m, u);
    if d.types == [] {
      NoEnums();
      assert a + [] + m + u == a + m + ([] + u);
    } else if m == [] {
      assert a + t + [] + u == a + [] + (t + u);
    } else {
      MovedSeen(d, e, rd, other, us);
    }
  }

  lemma SameSize(a: seq<Line>, t: seq<Line>, m: seq<Line>, u: seq<Line>)
    ensures |Written(a + m + (t + u))| == |Written(a + t + m + u)|
  {
    hide Written;
    WrittenAppend(a, m);
    WrittenAppend(a + m, t + u);
    WrittenAppend(t, u);
    WrittenAppend(a, t);
    WrittenAppend(a + t, m);
    WrittenAppend(a + t + m, u);
  }

  lemma NoScriptNoSize(d: Database)
    requires ScriptOf(d) == []
    ensures Size(d) == 0
  {
  }

  lemma SmallerSeen(e: Database, d: Database)
    requires Size(e) < Size(d)
    ensures Output(e) != Output(d)
  {
    OutputSize(e);
    OutputSize(d);
    hide Size, Output, ScriptOf;
    if ScriptOf(d) == [] { NoScriptNoSize(d); }
    if ScriptOf(e) == [] { NoScriptNoSize(e); }
  }

  /** Running the rereading never fails, and prints the first output again exactly
      when the schema is settled. */
  lemma SecondExact(d: Database, rd: Reader, other: Parser, us: seq<Statement>)
    requires Replayable(d, rd) && Clean(d) && Legible(d, rd, other, us)
    ensures RunP(EMPTY, Reread(d, rd, us)).outcome.Done?
    ensures Output(Second(d, rd, us)) == Output(d) <==> Settled(d, us)
  {
    hide Replayable, Clean, Legible, RunP, Reread, Rebuilt, Size, Output, Caught, NothingBetween, EnumTexts;
    var m := Rebuilt(d);
    PassedOf(d, rd, other, us);
    RereadRebuilds(d, rd, us);
    PassRun(m, us, d.unknowns);
    PassedSizes(m, d.unknowns);
    UncaughtExact(d, rd, other, us);
    RebuiltUnknowns(d);
    forall s ensures Caught(m, s) == Caught(d, s) { RebuiltKeys(d, s); }
    if exists s :: s in us && Caught(d, s) {
      SmallerSeen(Second(d, rd, us), d);
    }
  }

  lemma RebuiltUnknowns(d: Database)
    ensures Rebuilt(d).unknowns == EnumTexts(d.types)
  {
  }

  // ---- The whole second merge ----

  /** The parser, with `other` for the kinds not modelled. */
  function Tool(other: Parser): Parser { text => Parse(text, other) }

  lemma SourcesRead(d: Database, rd: Reader, name: string, other: Parser, us: seq<Statement>)
    requires Clean(d) && Legible(d, rd, other, us)
    ensures Reads(Sources([File(name, Output(d))]), Tool(other), Reread(d, rd, us))
  {
    hide Statements, Output, Clean, ScriptOf, Reread, Parse, Sources, SourcesIn, Legible, Padded, TrimSpace;
    var ls, ss := ScriptOf(d), Reread(d, rd, us);
    AllPadded(d);
    SplitOutput(d);
    ScriptRereads(d, rd, other, us);
    OneFile(name, Output(d));
    SourceTexts(name, TrimmedTexts(ls));
    var sources := Sources([File(name, Output(d))]);
    forall i | 0 <= i < |ss| ensures Tool(other)(sources[i].text) == Read(ss[i]) {
      assert sources[i].text == TrimSpace(ls[i].text);
      PrintedStatements.ParseTrims(ls[i].text, other);
    }
  }

  lemma RereadNoRename(d: Database, rd: Reader, other: Parser, us: seq<Statement>)
    requires Legible(d, rd, other, us)
    ensures NoCollisions(EMPTY, Reread(d, rd, us))
  {
    PassedOf(d, rd, other, us);
    forall s | s in Reread(d, rd, us) ensures NoRename(s) { StatementNoRename(d, rd, us, s); }
    hide Reread;
    CreatesNeverCollide(EMPTY, Reread(d, rd, us));
  }

  lemma StatementNoRename(d: Database, rd: Reader, us: seq<Statement>, s: Statement)
    requires AllPassed(us, d.unknowns) && s in Reread(d, rd, us)
    ensures NoRename(s)
  {
    hide SectionStatements, MergedTables, EnumTexts, PassedThrough, TableStatements, IndexStatements, SequenceStatements,
         TruncateStatements;
    var e := d.(tables := MergedTables(d.tables));
    if s in us {
      var i :| 0 <= i < |us| && us[i] == s;
      PassedNoRename(s, d.unknowns[i]);
    } else if s in UnknownStatements(EnumTexts(d.types)) {
    } else {
      assert s in Decompile(e, rd);
      hide Decompile;
      DecompileCreates(e, rd, s);
    }
  }

  lemma PassedNoRename(s: Statement, text: string)
    requires PassedThrough(s, text)
    ensures NoRename(s)
  {
  }

  lemma RunsIndexed(ss: seq<Statement>)
    requires NoCollisions(EMPTY, ss) && RunP(EMPTY, ss).outcome.Done?
    ensures RunX(NEW, ss).outcome.Done? && RunX(NEW, ss).state.db == RunP(EMPTY, ss).state
  {
    ReachableConsistent(ss);
    hide RunX, RunP, Consistent;
  }

  /** The schema a run ends with. */
  function Final(ss: seq<Statement>): Database { RunP(EMPTY, ss).state }

  function OfOneFile(end: End): Result { Conclude(end, 1) }

  /** Merging the output file of a schema. */
  function Again(d: Database, name: string, other: Parser): Result {
    OfOneFile(Feed(NEW, Sources([File(name, Output(d))]), Tool(other)))
  }

  /** The merge of one file succeeded with this text. */
  predicate Gives(r: Result, text: string) { r == Merged(text, 1) }

  predicate GivesOther(r: Result, text: string) { r.Merged? && r.output != text }

  /** The schema's output file is read as the rereading, which runs without failing. */
  ghost predicate Replayed(d: Database, rd: Reader, other: Parser, us: seq<Statement>) {
    Clean(d) && Legible(d, rd, other, us) && RunP(EMPTY, Reread(d, rd, us)).outcome.Done?
  }

  lemma AgainIs(d: Database, rd: Reader, name: string, other: Parser, us: seq<Statement>)
    requires Replayed(d, rd, other, us)
    ensures Gives(Again(d, name, other), Output(Second(d, rd, us)))
  {
    hide RunP, Clean, Output, RunX, Feed, Sources, Reread, Legible;
    SourcesRead(d, rd, name, other, us);
    RereadNoRename(d, rd, other, us);
    RunsIndexed(Reread(d, rd, us));
    FeedRuns(NEW, Sources([File(name, Output(d))]), Tool(other), Reread(d, rd, us));
  }

  /** A faithful run whose schema is clean and legible. */
  ghost predicate ReadRun(ss: seq<Statement>, rd: Reader, other: Parser, us: seq<Statement>) {
    CanonicalReader(rd) && Faithful(EMPTY, ss, rd) && Clean(Final(ss)) && Legible(Final(ss), rd, other, us)
  }

  /** Merging the output of a merge again succeeds, and gives the same bytes exactly
      when there is no enum, or nothing printed behind the enums but texts passed
      through, and no such text is an ALTER whose object the schema holds. */
  lemma MergeTwiceExact(ss: seq<Statement>, rd: Reader, name: string, other: Parser, us: seq<Statement>)
    requires ReadRun(ss, rd, other, us)
    ensures Again(Final(ss), name, other).Merged?
    ensures Gives(Again(Final(ss), name, other), Output(Final(ss))) <==> Settled(Final(ss), us)
  {
    hide RunP, Faithful, Clean, Output, CanonicalReader, Legible, Settled, Replayable, Again, Reread;
    EmptyReplayable(rd);
    RunKeepsReplayable(EMPTY, ss, rd);
    SecondExact(Final(ss), rd, other, us);
    AgainIs(Final(ss), rd, name, other, us);
  }

  // ---- Two runs that are not settled ----

  lemma TwoRun(a: Statement, b: Statement)
    requires ApplyP(EMPTY, a).outcome.Done?
    ensures RunP(EMPTY, [a, b]).state == ApplyP(ApplyP(EMPTY, a).state, b).state
  {
    hide ApplyP;
    RunOne(EMPTY, a);
    RunOne(ApplyP(EMPTY, a).state, b);
    RunAppend(EMPTY, [a], [b]);
    assert [a] + [b] == [a, b];
  }

  lemma RunOne(d: Database, s: Statement)
    ensures RunP(d, [s]) == ApplyP(d, s)
  {
    hide ApplyP;
    assert [s][1..] == [];
  }

  lemma OneFaithful(d: Database, s: Statement, rd: Reader)
    requires CreatesOnly(rd, s)
    ensures Faithful(d, [s], rd)
  {
    hide ApplyP, NoCollision, TextFollows, CreatesOnly;
    assert [s][1..] == [];
    CreatesFaithful(d, s, rd);
    CreatesWellRead(rd, s);
  }

  lemma TwoFaithful(a: Statement, b: Statement, rd: Reader)
    requires CreatesOnly(rd, a) && CreatesOnly(rd, b)
    ensures Faithful(EMPTY, [a, b], rd)
  {
    hide ApplyP, NoCollision, TextFollows, CreatesOnly;
    assert [a, b][1..] == [b];
    CreatesFaithful(EMPTY, a, rd);
    CreatesWellRead(rd, a);
    OneFaithful(ApplyP(EMPTY, a).state, b, rd);
  }

  lemma NothingFound(k: string)
    ensures Find([], k) < 0
  {
  }

  lemma EnumThenTable(e: EnumDef, t: TableDef)
    ensures Final([CreateType(e.name, e.labels), TableStatement(t)]) == EMPTY.(types := [e], tables := [t])
  {
    var a, b := CreateType(e.name, e.labels), TableStatement(t);
    hide NormIdent;
    NothingFound(NormIdent(e.name));
    NothingFound(NormIdent(t.name));
    assert TypeKeys([]) == [] && TableKeys([]) == [] && [] + [e] == [e] && [] + [t] == [t];
    assert ApplyP(EMPTY, a) == Ran(EMPTY.(types := [e]), Done);
    assert ApplyP(EMPTY.(types := [e]), b) == Ran(EMPTY.(types := [e], tables := [t]), Done);
    hide ApplyP;
    TwoRun(a, b);
  }

  /** Any enum and any table: the second merge prints the enum behind the table
      that may use it. */
  lemma EnumBehindTable(e: EnumDef, t: TableDef, rd: Reader, name: string, other: Parser)
    requires CanonicalReader(rd) && CleanEnum(e) && Token(e.name) && CleanTable(t) && PrintedTables.Rereadable(t)
    ensures var ss := [CreateType(e.name, e.labels), TableStatement(t)];
            GivesOther(Again(Final(ss), name, other), Output(Final(ss)))
  {
    hide Final, Faithful, Clean, Legible, Again, Output, CanonicalReader, Settled, CleanEnum, CleanTable, Token,
         PrintedTables.Rereadable, EnumText, TableText;
    var ss := [CreateType(e.name, e.labels), TableStatement(t)];
    EnumThenTable(e, t);
    TwoFaithful(CreateType(e.name, e.labels), TableStatement(t), rd);
    EnumTableLegible(e, t, rd, other);
    MergeTwiceExact(ss, rd, name, other, []);
    AgainFiles(Final(ss), name, other);
  }

  lemma EnumTableLegible(e: EnumDef, t: TableDef, rd: Reader, other: Parser)
    requires CleanEnum(e) && Token(e.name) && CleanTable(t) && PrintedTables.Rereadable(t)
    ensures var d := EMPTY.(types := [e], tables := [t]); Clean(d) && Legible(d, rd, other, []) && !Settled(d, [])
  {
    hide CleanTable, CleanEnum, PrintedTables.Rereadable, Token, Parse;
  }

  lemma AgainFiles(d: Database, name: string, other: Parser)
    ensures var r := Again(d, name, other); r.Merged? ==> r.files == 1
  {
    hide Feed, Sources, Output;
    StoppedNot(NEW, Sources([File(name, Output(d))]), Tool(other));
  }

  lemma {:induction false} StoppedNot(x: Indexed.Schema, sources: seq<Source>, parse: Parser)
    ensures var r := Feed(x, sources, parse); r.Stopped? ==> !r.result.Merged?
    decreases |sources|
  {
    hide ApplyX;
    if sources != [] && parse(sources[0].text).Read? {
      StoppedNot(ApplyX(x, parse(sources[0].text).statement).state, sources[1..], parse);
    }
  }

  lemma AlterThenCreate(n: string, m: string, alter: string, create: string, orReplace: bool)
    ensures Final([AlterFunctionOpts(Function, m, alter), CreateObject(Function, n, orReplace, create)])
            == EMPTY.(unknowns := [alter], objects := [ObjectDef(Function, n, create, [])])
  {
    var a, b := AlterFunctionOpts(Function, m, alter), CreateObject(Function, n, orReplace, create);
    hide ObjectKey;
    NothingFound(ObjectKey(Function, m));
    NothingFound(ObjectKey(Function, n));
    var o := ObjectDef(Function, n, create, []);
    assert ObjectKeys([]) == [] && [] + [alter] == [alter] && [] + [o] == [o];
    assert ApplyP(EMPTY, a) == Ran(EMPTY.(unknowns := [alter]), Done);
    assert ApplyP(EMPTY.(unknowns := [alter]), b)
           == Ran(EMPTY.(unknowns := [alter], objects := [ObjectDef(Function, n, create, [])]), Done);
    hide ApplyP;
    TwoRun(a, b);
  }

  /** An ALTER FUNCTION that came before its CREATE: the second merge attaches it,
      and prints a different file. */
  lemma EarlyAlterMoves(alter: string, create: string, rd: Reader, name: string, other: Parser)
    requires CanonicalReader(rd) && Closed(alter) && Closed(create)
    requires ObjectKey(Function, rd.altered(Function, alter)) == ObjectKey(Function, rd.created(Function, create))
    requires Parse(alter, other) == Read(ReadAlter(rd, Function, alter))
    requires Parse(create, other) == Read(ReadCreate(rd, Function, create))
    ensures var ss := [ReadAlter(rd, Function, alter), ReadCreate(rd, Function, create)];
            GivesOther(Again(Final(ss), name, other), Output(Final(ss)))
  {
    hide Final, Faithful, Clean, Legible, Again, Output, CanonicalReader, Settled, Parse, ObjectKey, Closed;
    var a, b := ReadAlter(rd, Function, alter), ReadCreate(rd, Function, create);
    var n, m := rd.created(Function, create), rd.altered(Function, alter);
    AlterThenCreate(n, m, alter, create, b.orReplace);
    TwoFaithful(a, b, rd);
    var d := EMPTY.(unknowns := [alter], objects := [ObjectDef(Function, n, create, [])]);
    EarlyAlterCaught(d, n, a);
    EarlyAlterLegible(alter, create, n, rd, other);
    MergeTwiceExact([a, b], rd, name, other, [a]);
    AgainFiles(d, name, other);
  }

  lemma EarlyAlterCaught(d: Database, n: string, a: Statement)
    requires |d.objects| == 1 && d.objects[0].kind == Function && d.objects[0].name == n
    requires a.AlterFunctionOpts? && ObjectKey(a.kind, a.name) == ObjectKey(Function, n)
    ensures !Settled(d, [a])
  {
    hide ObjectKey, NothingBetween;
    var keys := ObjectKeys(d.objects);
    assert keys[0] == ObjectKey(Function, n);
    FindMember(keys, ObjectKey(Function, n));
    hide ObjectKeys, Find;
    assert a in [a] && Caught(d, a);
  }

  lemma EarlyAlterLegible(alter: string, create: string, n: string, rd: Reader, other: Parser)
    requires Closed(alter) && Closed(create)
    requires Parse(alter, other) == Read(ReadAlter(rd, Function, alter))
    requires Parse(create, other) == Read(ReadCreate(rd, Function, create))
    ensures var d := EMPTY.(unknowns := [alter], objects := [ObjectDef(Function, n, create, [])]);
            Clean(d) && Legible(d, rd, other, [ReadAlter(rd, Function, alter)])
  {
    hide Closed, Parse;
  }
}
