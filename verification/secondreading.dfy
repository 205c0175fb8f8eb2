/** Reading the merged file again: which statements its texts are read as, and
    which schema they build. */
module SecondReading {
  import opened Text
  import opened Ast
  import opened Patterns
  import opened Positions
  import opened Catalog
  import opened Indexed
  import opened Plain
  import opened Refinement
  import opened Script
  import opened Replay
  import opened Rereading
  import PrintedIndexes
  import PrintedSequences
  import PrintedStatements
  import PrintedTables

  function MergedTables(ts: seq<TableDef>): (r: seq<TableDef>)
    ensures |r| == |ts|
  {
    seq(|ts|, i requires 0 <= i < |ts| => PrintedTables.MergedTable(ts[i]))
  }

  // ---- What the texts are read as ----

  function Before(d: Database, rd: Reader): seq<Statement> {
    SectionStatements(d.objects, 0, rd) + SectionStatements(d.objects, 1, rd) + SequenceStatements(d.sequences)
  }

  function Between(d: Database, rd: Reader): seq<Statement> {
    SectionStatements(d.objects, 2, rd) + SectionStatements(d.objects, 3, rd)
    + TableStatements(MergedTables(d.tables)) + SectionStatements(d.objects, 4, rd) + IndexStatements(d.indexes)
    + SectionStatements(d.objects, 5, rd) + SectionStatements(d.objects, 6, rd)
    + SectionStatements(d.objects, 7, rd) + SectionStatements(d.objects, 8, rd) + TruncateStatements(d.truncates)
  }

  /** The enums are passed through where they stand; `us` are the readings of the
      texts that were passed through before. */
  function Reread(d: Database, rd: Reader, us: seq<Statement>): seq<Statement> {
    Before(d, rd) + UnknownStatements(EnumTexts(d.types)) + Between(d, rd) + us
  }

  function LinesBefore(d: Database): seq<Line> {
    SectionLines(d.objects, 0) + SectionLines(d.objects, 1) + SequenceLines(d.sequences)
  }

  function LinesBetween(d: Database): seq<Line> {
    SectionLines(d.objects, 2) + SectionLines(d.objects, 3)
    + TableLines(d.tables) + SectionLines(d.objects, 4) + IndexLines(d.indexes)
    + SectionLines(d.objects, 5) + SectionLines(d.objects, 6)
    + SectionLines(d.objects, 7) + SectionLines(d.objects, 8) + TruncateLines(d.truncates)
  }

  lemma ScriptParts(d: Database)
    ensures ScriptOf(d) == LinesBefore(d) + TypeLines(d.types) + LinesBetween(d) + UnknownLines(d.unknowns)
  {
    hide SectionLines, SequenceLines, TypeLines, TableLines, IndexLines, TruncateLines, UnknownLines;
    var os := d.objects;
    Ten(LinesBefore(d) + TypeLines(d.types), SectionLines(os, 2), SectionLines(os, 3), TableLines(d.tables),
        SectionLines(os, 4), IndexLines(d.indexes), SectionLines(os, 5), SectionLines(os, 6), SectionLines(os, 7),
        SectionLines(os, 8), TruncateLines(d.truncates));
  }

  lemma Ten<T>(h: seq<T>, a: seq<T>, b: seq<T>, c: seq<T>, e: seq<T>, f: seq<T>, g: seq<T>, i: seq<T>, j: seq<T>, k: seq<T>,
               l: seq<T>)
    ensures h + a + b + c + e + f + g + i + j + k + l == h + (a + b + c + e + f + g + i + j + k + l)
  {
    assert h + a + b == h + (a + b);
    assert h + (a + b) + c == h + (a + b + c);
    assert h + (a + b + c) + e == h + (a + b + c + e);
    assert h + (a + b + c + e) + f == h + (a + b + c + e + f);
    assert h + (a + b + c + e + f) + g == h + (a + b + c + e + f + g);
    assert h + (a + b + c + e + f + g) + i == h + (a + b + c + e + f + g + i);
    assert h + (a + b + c + e + f + g + i) + j == h + (a + b + c + e + f + g + i + j);
    assert h + (a + b + c + e + f + g + i + j) + k == h + (a + b + c + e + f + g + i + j + k);
    assert h + (a + b + c + e + f + g + i + j + k) + l == h + (a + b + c + e + f + g + i + j + k + l);
  }

  /** Line by line, the texts of `ls` are read as `ss`. */
  predicate ReadsAs(ls: seq<Line>, ss: seq<Statement>, other: Parser) {
    |ls| == |ss| && forall i :: 0 <= i < |ls| ==> Parse(ls[i].text, other) == Read(ss[i])
  }

  lemma ReadsAppend(a: seq<Line>, s: seq<Statement>, b: seq<Line>, t: seq<Statement>, other: Parser)
    requires ReadsAs(a, s, other) && ReadsAs(b, t, other)
    ensures ReadsAs(a + b, s + t, other)
  {
    hide Parse;
  }

  /** The verbatim texts of an object are read as its CREATE and its ALTERs. */
  predicate ObjectRead(o: ObjectDef, rd: Reader, other: Parser) {
    && Parse(o.sql, other) == Read(ReadCreate(rd, o.kind, o.sql))
    && forall a :: a in o.postAlters ==> Parse(a, other) == Read(ReadAlter(rd, o.kind, a))
  }

  /** What passing through a text makes of it: itself, or an ALTER that has, or had,
      no object to attach to. */
  predicate PassedThrough(s: Statement, text: string) {
    s == Unknown(text) || (s.AlterFunctionOpts? && s.sql == text) || (s.AlterObjectOpts? && s.sql == text)
  }

  /** The printed texts are such as the parser reads: stored pieces as it made
      them, and verbatim texts read as what they were read from. */
  ghost predicate Legible(d: Database, rd: Reader, other: Parser, us: seq<Statement>) {
    && (forall t :: t in d.tables ==> PrintedTables.Rereadable(t))
    && (forall e :: e in d.types ==> Token(e.name))
    && (forall x :: x in d.indexes ==> PrintedIndexes.Rereadable(x) && !PrintedIndexes.Stolen(x))
    && (forall t :: t in d.truncates ==> PrintedStatements.RereadableTruncate(t))
    && (forall s :: s in d.sequences ==> PrintedSequences.Rereadable(s) && !PrintedSequences.Stolen(s))
    && (forall o :: o in d.objects ==> ObjectRead(o, rd, other))
    && |us| == |d.unknowns|
    && forall i :: 0 <= i < |us| ==> Parse(d.unknowns[i], other) == Read(us[i]) && PassedThrough(us[i], d.unknowns[i])
  }

  lemma {:induction false} GroupReads(sql: string, alters: seq<string>, kind: ObjectKind, rd: Reader, c: Statement, other: Parser)
    requires Parse(sql, other) == Read(c) && forall a :: a in alters ==> Parse(a, other) == Read(ReadAlter(rd, kind, a))
    ensures ReadsAs(Group(sql, alters), [c] + ReadAlters(rd, kind, alters), other)
    decreases |alters|
  {
    hide Parse, ReadAlter;
    if alters == [] {
      assert [c] + ReadAlters(rd, kind, alters) == [c];
    } else {
      var a := ReadAlter(rd, kind, alters[0]);
      assert alters[0] in alters && forall b :: b in alters[1..] ==> b in alters;
      GroupReads(alters[0], alters[1..], kind, rd, a, other);
      ReadsAppend([Line(sql, "\n")], [c], Group(alters[0], alters[1..]), [a] + ReadAlters(rd, kind, alters[1..]), other);
    }
  }

  lemma ObjectReads(o: ObjectDef, rd: Reader, other: Parser)
    requires ObjectRead(o, rd, other)
    ensures ReadsAs(ObjectLines(o), ObjectStatements(o, rd), other)
  {
    hide Parse, ReadCreate, Section;
    var c := ReadCreate(rd, o.kind, o.sql);
    GroupReads(o.sql, o.postAlters, o.kind, rd, c, other);
    assert [c] + [] == [c];
  }

  lemma {:induction false} SectionReads(os: seq<ObjectDef>, n: nat, rd: Reader, other: Parser)
    requires forall o :: o in os ==> ObjectRead(o, rd, other)
    ensures ReadsAs(SectionLines(os, n), SectionStatements(os, n, rd), other)
  {
    hide Parse, ObjectRead, ObjectLines, ObjectStatements, Section;
    if os != [] {
      var o, rest := os[0], os[1..];
      assert o in os && forall p :: p in rest ==> p in os;
      SectionReads(rest, n, rd, other);
      var tail := InSection(rest, n);
      if Section(o.kind) == n {
        assert ([o] + tail)[1..] == tail;
        ObjectReads(o, rd, other);
        ReadsAppend(ObjectLines(o), ObjectStatements(o, rd), SectionLines(rest, n), AllStatements(tail, rd), other);
      } else {
        assert [] + tail == tail && [] + SectionLines(rest, n) == SectionLines(rest, n);
      }
    }
  }

  lemma SimpleReads(d: Database, rd: Reader, other: Parser, us: seq<Statement>)
    requires Legible(d, rd, other, us)
    ensures ReadsAs(SequenceLines(d.sequences), SequenceStatements(d.sequences), other)
    ensures ReadsAs(TypeLines(d.types), UnknownStatements(EnumTexts(d.types)), other)
    ensures ReadsAs(IndexLines(d.indexes), IndexStatements(d.indexes), other)
    ensures ReadsAs(TruncateLines(d.truncates), TruncateStatements(d.truncates), other)
    ensures ReadsAs(UnknownLines(d.unknowns), us, other)
  {
    hide Parse, IndexText, SequenceText, EnumText, TruncateText, PrintedTables.Rereadable, PrintedIndexes.Rereadable,
         PrintedIndexes.Stolen, PrintedSequences.Rereadable, PrintedSequences.Stolen, PrintedStatements.RereadableTruncate,
         ObjectRead, Token, IndexStatement;
    forall i | 0 <= i < |d.types| ensures Parse(EnumText(d.types[i]), other) == Read(Unknown(EnumText(d.types[i]))) {
      assert d.types[i] in d.types;
      PrintedStatements.EnumParsed(d.types[i], other);
    }
    forall i | 0 <= i < |d.indexes| ensures Parse(IndexText(d.indexes[i]), other) == Read(IndexStatement(d.indexes[i])) {
      assert d.indexes[i] in d.indexes;
      PrintedStatements.IndexParsed(d.indexes[i], other);
    }
    forall i | 0 <= i < |d.truncates|
      ensures Parse(TruncateText(d.truncates[i]), other) == Read(TruncateTables(d.truncates[i]))
    {
      assert d.truncates[i] in d.truncates;
      PrintedStatements.TruncateParsed(d.truncates[i], other);
    }
    forall i | 0 <= i < |d.sequences|
      ensures Parse(SequenceText(d.sequences[i]), other) == Read(CreateSequence(d.sequences[i].name, d.sequences[i].body))
    {
      assert d.sequences[i] in d.sequences;
      PrintedStatements.SequenceParsed(d.sequences[i], other);
    }
  }

  lemma TableReads(ts: seq<TableDef>, other: Parser)
    requires forall t :: t in ts ==> PrintedTables.Rereadable(t)
    ensures ReadsAs(TableLines(ts), TableStatements(MergedTables(ts)), other)
  {
    hide Parse, TableText, PrintedTables.Rereadable, TableStatement, PrintedTables.MergedTable;
    forall i | 0 <= i < |ts|
      ensures Parse(TableText(ts[i]), other) == Read(TableStatement(PrintedTables.MergedTable(ts[i])))
    {
      assert ts[i] in ts;
      PrintedStatements.TableParsed(ts[i], other);
    }
  }

  lemma BeforeReads(d: Database, rd: Reader, other: Parser, us: seq<Statement>)
    requires Legible(d, rd, other, us)
    ensures ReadsAs(LinesBefore(d), Before(d, rd), other)
  {
    var os := d.objects;
    SimpleReads(d, rd, other, us);
    SectionReads(os, 0, rd, other);
    SectionReads(os, 1, rd, other);
    hide ReadsAs, SectionLines, SectionStatements, SequenceLines, SequenceStatements;
    var l, s := SectionLines(os, 0) + SectionLines(os, 1), SectionStatements(os, 0, rd) + SectionStatements(os, 1, rd);
    ReadsAppend(SectionLines(os, 0), SectionStatements(os, 0, rd), SectionLines(os, 1), SectionStatements(os, 1, rd), other);
    ReadsAppend(l, s, SequenceLines(d.sequences), SequenceStatements(d.sequences), other);
  }

  lemma ReadsTwo(l: seq<Line>, s: seq<Statement>, a: seq<Line>, t: seq<Statement>, b: seq<Line>, u: seq<Statement>, other: Parser)
    requires ReadsAs(l, s, other) && ReadsAs(a, t, other) && ReadsAs(b, u, other)
    ensures ReadsAs(l + a + b, s + t + u, other)
  {
    hide ReadsAs;
    ReadsAppend(l, s, a, t, other);
    ReadsAppend(l + a, s + t, b, u, other);
  }

  lemma BetweenReads(d: Database, rd: Reader, other: Parser, us: seq<Statement>)
    requires Legible(d, rd, other, us)
    ensures ReadsAs(LinesBetween(d), Between(d, rd), other)
  {
    var os := d.objects;
    SimpleReads(d, rd, other, us);
    TableReads(d.tables, other);
    forall n: nat | n < SECTIONS ensures ReadsAs(SectionLines(os, n), SectionStatements(os, n, rd), other) {
      SectionReads(os, n, rd, other);
    }
    hide ReadsAs, SectionLines, SectionStatements, TableLines, TableStatements, IndexLines, IndexStatements, TruncateLines,
         TruncateStatements, MergedTables;
    var l, s := SectionLines(os, 2), SectionStatements(os, 2, rd);
    ReadsTwo(l, s, SectionLines(os, 3), SectionStatements(os, 3, rd), TableLines(d.tables),
             TableStatements(MergedTables(d.tables)), other);
    l, s := l + SectionLines(os, 3) + TableLines(d.tables),
            s + SectionStatements(os, 3, rd) + TableStatements(MergedTables(d.tables));
    ReadsTwo(l, s, SectionLines(os, 4), SectionStatements(os, 4, rd), IndexLines(d.indexes), IndexStatements(d.indexes), other);
    l, s := l + SectionLines(os, 4) + IndexLines(d.indexes), s + SectionStatements(os, 4, rd) + IndexStatements(d.indexes);
    ReadsTwo(l, s, SectionLines(os, 5), SectionStatements(os, 5, rd), SectionLines(os, 6), SectionStatements(os, 6, rd), other);
    l, s := l + SectionLines(os, 5) + SectionLines(os, 6), s + SectionStatements(os, 5, rd) + SectionStatements(os, 6, rd);
    ReadsTwo(l, s, SectionLines(os, 7), SectionStatements(os, 7, rd), SectionLines(os, 8), SectionStatements(os, 8, rd), other);
    l, s := l + SectionLines(os, 7) + SectionLines(os, 8), s + SectionStatements(os, 7, rd) + SectionStatements(os, 8, rd);
    ReadsAppend(l, s, TruncateLines(d.truncates), TruncateStatements(d.truncates), other);
  }

  /** Every text of the script is read, and this is what as. */
  lemma ScriptRereads(d: Database, rd: Reader, other: Parser, us: seq<Statement>)
    requires Legible(d, rd, other, us)
    ensures ReadsAs(ScriptOf(d), Reread(d, rd, us), other)
  {
    hide ReadsAs, LinesBefore, LinesBetween, Before, Between, TypeLines, UnknownLines, UnknownStatements, ScriptOf, Legible;
    ScriptParts(d);
    SimpleReads(d, rd, other, us);
    BeforeReads(d, rd, other, us);
    BetweenReads(d, rd, other, us);
    ReadsTwo(LinesBefore(d), Before(d, rd), TypeLines(d.types), UnknownStatements(EnumTexts(d.types)), LinesBetween(d),
             Between(d, rd), other);
    ReadsAppend(LinesBefore(d) + TypeLines(d.types) + LinesBetween(d),
                Before(d, rd) + UnknownStatements(EnumTexts(d.types)) + Between(d, rd), UnknownLines(d.unknowns), us, other);
  }

  // ---- What they build ----

  /** The schema before the texts that were passed through: objects in script order,
      no enum, and the enums' texts passed through. */
  function Rebuilt(d: Database): Database {
    Regroup(d).(types := [], tables := MergedTables(d.tables), unknowns := EnumTexts(d.types))
  }

  lemma MergedKeys(ts: seq<TableDef>)
    ensures TableKeys(MergedTables(ts)) == TableKeys(ts)
  {
    hide NormIdent;
  }

  function AfterTypes(d: Database): Database {
    EMPTY.(objects := Sections(d.objects, 2), sequences := d.sequences, unknowns := EnumTexts(d.types))
  }

  lemma ReplayBefore(d: Database, rd: Reader)
    requires Replayable(d, rd) && Distinct(ObjectKeys(Regrouped(d.objects)))
    ensures RunP(EMPTY, Before(d, rd) + UnknownStatements(EnumTexts(d.types))) == Ran(AfterTypes(d), Done)
  {
    var os := d.objects;
    var o0, o1 := SectionStatements(os, 0, rd), SectionStatements(os, 1, rd);
    var ss, es := SequenceStatements(d.sequences), UnknownStatements(EnumTexts(d.types));
    assert Sections(os, 0) == [];
    assert [] + d.sequences == d.sequences && [] + EnumTexts(d.types) == EnumTexts(d.types);
    hide RunP, SectionStatements, SequenceStatements, UnknownStatements, Sections, InSection, EnumTexts;
    var d1 := EMPTY.(objects := Sections(os, 1));
    ReplaySection(EMPTY, os, 0, rd);
    var d2 := EMPTY.(objects := Sections(os, 2));
    ReplaySection(d1, os, 1, rd);
    RunThen(EMPTY, o0, d1, o1, d2);
    var d3 := d2.(sequences := d.sequences);
    ReplaySequences(d2, d.sequences);
    RunThen(EMPTY, o0 + o1, d2, ss, d3);
    ReplayUnknowns(d3, EnumTexts(d.types));
    RunThen(EMPTY, o0 + o1 + ss, d3, es, AfterTypes(d));
  }

  lemma ReplayBetween(d: Database, rd: Reader)
    requires Replayable(d, rd) && Distinct(ObjectKeys(Regrouped(d.objects)))
    ensures RunP(AfterTypes(d), Between(d, rd)) == Ran(Rebuilt(d), Done)
  {
    var os := d.objects;
    var start, mts := AfterTypes(d), MergedTables(d.tables);
    var o2, o3, o4 := SectionStatements(os, 2, rd), SectionStatements(os, 3, rd), SectionStatements(os, 4, rd);
    var o5, o6 := SectionStatements(os, 5, rd), SectionStatements(os, 6, rd);
    var o7, o8 := SectionStatements(os, 7, rd), SectionStatements(os, 8, rd);
    var ts, xs, tr := TableStatements(mts), IndexStatements(d.indexes), TruncateStatements(d.truncates);
    assert Between(d, rd) == o2 + o3 + ts + o4 + xs + o5 + o6 + o7 + o8 + tr;
    assert [] + mts == mts && [] + d.indexes == d.indexes && [] + d.truncates == d.truncates;
    MergedKeys(d.tables);
    hide RunP, SectionStatements, TableStatements, IndexStatements, TruncateStatements, Sections, InSection, Between,
         MergedTables, EnumTexts;
    var d1 := start.(objects := Sections(os, 3));
    ReplaySection(start, os, 2, rd);
    var d2 := start.(objects := Sections(os, 4));
    ReplaySection(d1, os, 3, rd);
    RunThen(start, o2, d1, o3, d2);
    var d3 := d2.(tables := mts);
    ReplayTables(d2, mts);
    RunThen(start, o2 + o3, d2, ts, d3);
    var d4 := d3.(objects := Sections(os, 5));
    ReplaySection(d3, os, 4, rd);
    RunThen(start, o2 + o3 + ts, d3, o4, d4);
    var d5 := d4.(indexes := d.indexes);
    ReplayIndexes(d4, d.indexes);
    RunThen(start, o2 + o3 + ts + o4, d4, xs, d5);
    var d6 := d5.(objects := Sections(os, 6));
    ReplaySection(d5, os, 5, rd);
    RunThen(start, o2 + o3 + ts + o4 + xs, d5, o5, d6);
    var d7 := d5.(objects := Sections(os, 7));
    ReplaySection(d6, os, 6, rd);
    RunThen(start, o2 + o3 + ts + o4 + xs + o5, d6, o6, d7);
    var d8 := d5.(objects := Sections(os, 8));
    ReplaySection(d7, os, 7, rd);
    RunThen(start, o2 + o3 + ts + o4 + xs + o5 + o6, d7, o7, d8);
    var d9 := d5.(objects := Sections(os, 9));
    ReplaySection(d8, os, 8, rd);
    RunThen(start, o2 + o3 + ts + o4 + xs + o5 + o6 + o7, d8, o8, d9);
    ReplayTruncates(d9, d.truncates);
    RunThen(start, o2 + o3 + ts + o4 + xs + o5 + o6 + o7 + o8, d9, tr, Rebuilt(d));
  }

  /** The rereading of a replayable schema's script builds that schema, but for the
      enums, before the passed-through texts run. */
  lemma RereadRebuilds(d: Database, rd: Reader, us: seq<Statement>)
    requires Replayable(d, rd)
    ensures RunP(EMPTY, Reread(d, rd, us)) == RunP(Rebuilt(d), us)
  {
    hide RunP, Before, Between, UnknownStatements, Rebuilt, AfterTypes, Replayable, Distinct, ObjectKeys, Regrouped;
    RegroupReplayable(d, rd);
    DistinctObjects(d, rd);
    ReplayBefore(d, rd);
    ReplayBetween(d, rd);
    var b := Before(d, rd) + UnknownStatements(EnumTexts(d.types));
    RunThen(EMPTY, b, AfterTypes(d), Between(d, rd), Rebuilt(d));
    RunAppend(EMPTY, b + Between(d, rd), us);
  }

  lemma DistinctObjects(d: Database, rd: Reader)
    requires Replayable(Regroup(d), rd)
    ensures Distinct(ObjectKeys(Regrouped(d.objects)))
  {
    hide Distinct, Regrouped, AllReadable;
  }
}
