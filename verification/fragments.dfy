/** Printed statements are lexically closed when the stored pieces they are put
    together from are self-contained. */
module Fragments {
  import opened Text
  import opened Ast
  import opened Catalog
  import opened Splitter
  import opened Splitting
  import opened Script
  import opened RoundTrip

  // ---- Joining fragments ----

  lemma {:induction false} QuoteClosesShift(p: string, s: string, i: nat)
    requires i <= |s|
    ensures QuoteCloses(p + s, |p| + i) == QuoteCloses(s, i)
    decreases |s| - i
  {
    if i < |s| {
      if s[i] != '\'' { QuoteClosesShift(p, s, i + 1); }
      else if i + 1 < |s| && s[i + 1] == '\'' { QuoteClosesShift(p, s, i + 2); }
    }
  }

  lemma CompleteShift(p: string, s: string, i: nat)
    requires i < |s| && !StartsComment(s, i)
    ensures Complete(p + s, |p| + i) == Complete(s, i)
  {
    LexShift(p, s, i);
    QuoteClosesShift(p, s, i + 1);
    DollarShift(p, s, i);
    hide LexEnd, DollarEnd, QuoteCloses;
  }

  lemma {:induction false} WholeShift(p: string, s: string, i: nat)
    requires i <= |s| && Whole(s, i)
    ensures Whole(p + s, |p| + i)
    decreases |s| - i
  {
    if i < |s| {
      LexShift(p, s, i);
      CompleteShift(p, s, i);
      hide LexEnd, Complete, StartsComment;
      WholeShift(p, s, LexEnd(s, i));
    }
  }

  lemma CompleteLocal(a: string, b: string, i: nat)
    requires i < |a| && Complete(a, i) && !StartsComment(a, i) && Meets(a, b)
    ensures Complete(a + b, i)
  {
    LexLocal(a, b, i);
    if a[i] == '\'' {
      QuoteLocal(a, b, i + 1);
    } else if a[i] == '$' {
      DollarLocal(a, b, i);
    }
  }

  lemma {:induction false} WholeLocal(a: string, b: string, i: nat)
    requires i <= |a| && Whole(a, i) && Whole(a + b, |a|) && Meets(a, b)
    ensures Whole(a + b, i)
    decreases |a| - i
  {
    if i < |a| {
      LexLocal(a, b, i);
      CompleteLocal(a, b, i);
      hide LexEnd, Complete, StartsComment, Meets;
      WholeLocal(a, b, LexEnd(a, i));
    }
  }

  lemma FragmentJoin(a: string, b: string)
    requires Fragment(a) && Fragment(b) && Meets(a, b)
    ensures Fragment(a + b)
  {
    WholeShift(a, b, 0);
    WholeLocal(a, b, 0);
  }

  /** Free of every character that can open or close anything. */
  predicate Plain(s: string) {
    forall c :: c in s ==> c != '\'' && c != '$' && c != ';' && c != '-' && c != '/' && c != '*'
  }

  lemma {:induction false} PlainWhole(s: string, i: nat)
    requires i <= |s| && Plain(s)
    ensures Whole(s, i)
    decreases |s| - i
  {
    if i < |s| {
      assert s[i] in s;
      PlainWhole(s, i + 1);
    }
  }

  /** A plain separator between two fragments gives a fragment. */
  lemma Sandwich(a: string, sep: string, b: string)
    requires Fragment(a) && Fragment(b) && sep != "" && Plain(sep)
    ensures Fragment(a + sep + b)
  {
    PlainWhole(sep, 0);
    assert sep[0] in sep && sep[|sep| - 1] in sep;
    hide Fragment;
    assert Fragment(sep) by { FragmentIs(sep); }
    FragmentJoin(a, sep);
    FragmentJoin(a + sep, b);
  }

  lemma FragmentIs(s: string)
    requires Whole(s, 0)
    ensures Fragment(s)
  {
  }

  lemma EmptyFragment()
    ensures Fragment("")
  {
  }

  lemma PlainFragment(s: string)
    requires Plain(s)
    ensures Fragment(s)
  {
    PlainWhole(s, 0);
  }

  /** A plain text in front of a fragment. */
  lemma Prefixed(lead: string, b: string)
    requires lead != "" && Plain(lead) && Fragment(b)
    ensures Fragment(lead + b)
  {
    EmptyFragment();
    Sandwich("", lead, b);
    assert "" + lead == lead;
  }

  /** A plain text after a fragment. */
  lemma Suffixed(a: string, tail: string)
    requires tail != "" && Plain(tail) && Fragment(a)
    ensures Fragment(a + tail)
  {
    EmptyFragment();
    Sandwich(a, tail, "");
    assert a + tail + "" == a + tail;
  }

  ghost predicate AllFragments(parts: seq<string>) {
    forall p :: p in parts ==> Fragment(p)
  }

  lemma {:induction false} JoinFragments(parts: seq<string>, sep: string)
    requires AllFragments(parts) && sep != "" && Plain(sep)
    ensures Fragment(Join(parts, sep))
  {
    hide Fragment;
    if parts == [] {
      EmptyFragment();
    } else if |parts| > 1 {
      JoinFragments(parts[1..], sep);
      Sandwich(parts[0], sep, Join(parts[1..], sep));
    }
  }

  // ---- Self-contained stored pieces ----

  ghost predicate CleanColumn(c: Column) {
    && Fragment(c.name) && Fragment(c.dataType) && Fragment(c.collation)
    && (c.default.Some? ==> Fragment(c.default.value)) && AllFragments(c.inline)
  }

  ghost predicate CleanConstraint(c: Constraint) { Fragment(c.name) && Fragment(c.definition) }

  ghost predicate CleanTable(t: TableDef) {
    && Fragment(t.name)
    && (forall c :: c in t.columns ==> CleanColumn(c))
    && (forall c :: c in t.constraints ==> CleanConstraint(c))
    && (t.partitionBy != "" ==> Closed(t.partitionBy))
  }

  /** The body may be empty: `CREATE INDEX i ON users(email)` has its columns in
      the table name. */
  ghost predicate CleanIndex(x: IndexDef) {
    Fragment(x.name) && Closed(x.tableName) && Fragment(x.body) && Trimmed(x.body)
  }

  ghost predicate CleanSequence(s: SequenceDef) {
    Closed(s.name) && (s.body != "" ==> Closed(s.body))
  }

  /** Labels print between quotes as they are stored, so they must be escaped. */
  ghost predicate CleanEnum(e: EnumDef) {
    Fragment(e.name) && forall l :: l in e.labels ==> Fragment(Quote(l))
  }

  ghost predicate CleanTruncate(t: Truncate) {
    t.tables != [] && forall n :: n in t.tables ==> Closed(n)
  }

  ghost predicate CleanObject(o: ObjectDef) {
    Closed(o.sql) && forall a :: a in o.postAlters ==> Closed(a)
  }

  ghost predicate Clean(d: Database) {
    && (forall s :: s in d.sequences ==> CleanSequence(s)) && (forall e :: e in d.types ==> CleanEnum(e))
    && (forall t :: t in d.tables ==> CleanTable(t)) && (forall x :: x in d.indexes ==> CleanIndex(x))
    && (forall o :: o in d.objects ==> CleanObject(o)) && (forall t :: t in d.truncates ==> CleanTruncate(t))
    && (forall u :: u in d.unknowns ==> Closed(u))
  }

  // ---- Printed statements are closed ----

  predicate Starts(lead: string) { lead != "" && Plain(lead) && !IsSpace(lead[0]) }

  predicate Ends(s: string) { s != "" && !IsSpace(s[|s| - 1]) }

  predicate Separator(sep: string) { sep != "" && Plain(sep) }

  lemma ClosedEnds(lead: string, s: string)
    requires Starts(lead) && Fragment(lead + s) && Ends(s)
    ensures Closed(lead + s)
  {
    hide Fragment;
    var t := lead + s;
    assert t[0] == lead[0] && t[|t| - 1] == s[|s| - 1];
  }

  /** lead a sep b, with b ending the statement. */
  lemma ClosedPair(lead: string, a: string, sep: string, b: string)
    requires Starts(lead) && Fragment(a) && Separator(sep) && Fragment(b) && Ends(b)
    ensures Closed(lead + a + sep + b)
  {
    hide Fragment, Plain, IsSpace;
    Prefixed(lead, a);
    Sandwich(lead + a, sep, b);
    var s := a + sep + b;
    assert lead + s == lead + a + sep + b;
    assert s[|s| - 1] == b[|b| - 1];
    ClosedEnds(lead, s);
  }

  /** lead a sep b close, with a plain closing text. */
  lemma ClosedBody(lead: string, a: string, sep: string, b: string, close: string)
    requires Starts(lead) && Fragment(a) && Separator(sep) && Fragment(b) && Separator(close) && Ends(close)
    ensures Closed(lead + a + sep + b + close)
  {
    hide Fragment, Plain, IsSpace;
    Prefixed(lead, a);
    Sandwich(lead + a, sep, b);
    Suffixed(lead + a + sep + b, close);
    var s := a + sep + b + close;
    assert lead + s == lead + a + sep + b + close;
    assert s[|s| - 1] == close[|close| - 1];
    ClosedEnds(lead, s);
  }

  /** lead a sep b sep2 c. */
  lemma ClosedTriple(lead: string, a: string, sep: string, b: string, sep2: string, c: string)
    requires Starts(lead) && Fragment(a) && Separator(sep) && Fragment(b) && Separator(sep2) && Fragment(c) && Ends(c)
    ensures Closed(lead + a + sep + b + sep2 + c)
  {
    hide Fragment, Plain, IsSpace;
    Sandwich(a, sep, b);
    ClosedPair(lead, a + sep + b, sep2, c);
    assert lead + (a + sep + b) + sep2 + c == lead + a + sep + b + sep2 + c;
  }

  lemma FragmentsAppend(a: seq<string>, b: seq<string>)
    requires AllFragments(a) && AllFragments(b)
    ensures AllFragments(a + b)
  {
    hide Fragment;
  }

  lemma FragmentsOne(a: string)
    requires Fragment(a)
    ensures AllFragments([a]) && AllFragments([])
  {
    hide Fragment;
  }

  lemma PlainWords()
    ensures Plain(" ") && Plain("NOT NULL") && Plain("COLLATE ") && Plain("DEFAULT ") && Plain("CONSTRAINT ")
  {
  }

  lemma OptionalFragment(present: bool, a: string)
    requires Fragment(a)
    ensures AllFragments(if present then [a] else [])
  {
    FragmentsOne(a);
    hide Fragment;
  }

  lemma PairFragments(a: string, b: string)
    requires Fragment(a) && Fragment(b)
    ensures AllFragments([a, b])
  {
    hide Fragment;
  }

  lemma ColumnFragment(c: Column)
    requires CleanColumn(c)
    ensures Fragment(ColumnText(c))
  {
    hide Fragment, Plain, Join, AllFragments;
    PlainWords();
    PairFragments(c.name, c.dataType);
    PlainFragment("NOT NULL");
    OptionalFragment(c.notNull, "NOT NULL");
    Prefixed("COLLATE ", c.collation);
    OptionalFragment(c.collation != "", "COLLATE " + c.collation);
    var d := if c.default.Some? then "DEFAULT " + c.default.value else "NOT NULL";
    if c.default.Some? { Prefixed("DEFAULT ", c.default.value); }
    OptionalFragment(c.default.Some?, d);
    ColumnFragments(c, if c.collation != "" then ["COLLATE " + c.collation] else [],
                    if c.notNull then ["NOT NULL"] else [], if c.default.Some? then [d] else []);
    JoinFragments(ColumnParts(c), " ");
  }

  lemma ColumnFragments(c: Column, p1: seq<string>, p2: seq<string>, p3: seq<string>)
    requires AllFragments([c.name, c.dataType]) && AllFragments(p1) && AllFragments(p2) && AllFragments(p3)
    requires AllFragments(c.inline)
    ensures AllFragments([c.name, c.dataType] + p1 + p2 + p3 + c.inline)
  {
    hide *;
    FragmentsAppend([c.name, c.dataType], p1);
    FragmentsAppend([c.name, c.dataType] + p1, p2);
    FragmentsAppend([c.name, c.dataType] + p1 + p2, p3);
    FragmentsAppend([c.name, c.dataType] + p1 + p2 + p3, c.inline);
  }

  lemma ConstraintFragment(c: Constraint)
    requires CleanConstraint(c)
    ensures Fragment(ConstraintText(c))
  {
    if c.name != "" {
      Prefixed("CONSTRAINT ", c.name);
      hide Fragment;
      Sandwich("CONSTRAINT " + c.name, " ", c.definition);
    }
  }

  lemma ItemsFragments(t: TableDef)
    requires CleanTable(t)
    ensures AllFragments(Items(t))
  {
    hide Fragment, ColumnText, ConstraintText, CleanColumn, CleanConstraint;
    forall p | p in Items(t) ensures Fragment(p) {
      var i :| 0 <= i < |Items(t)| && Items(t)[i] == p;
      if i < |t.columns| {
        assert t.columns[i] in t.columns;
        ColumnFragment(t.columns[i]);
      } else {
        assert t.constraints[i - |t.columns|] in t.constraints;
        ConstraintFragment(t.constraints[i - |t.columns|]);
      }
    }
  }

  lemma {:induction false} LinesFragment(items: seq<string>)
    requires AllFragments(items)
    ensures Fragment(Lines(items))
  {
    hide Fragment;
    if items == [] {
      EmptyFragment();
    } else {
      var rest := Lines(items[1..]);
      var sep := (if |items| == 1 then "" else ",") + "\n";
      LinesFragment(items[1..]);
      Prefixed(INDENT, items[0]);
      Sandwich(INDENT + items[0], sep, rest);
      assert INDENT + items[0] + (if |items| == 1 then "" else ",") + "\n" + rest == INDENT + items[0] + sep + rest;
    }
  }

  lemma TableWords(t: TableDef)
    ensures Starts("CREATE " + TableKeyword(t) + " ") && Separator(" (\n") && Separator(")") && Ends(")")
    ensures Separator(") PARTITION BY ")
  {
  }

  lemma TableClosed(t: TableDef)
    requires CleanTable(t)
    ensures Closed(TableText(t))
  {
    hide Fragment, Items, Lines, Closed, TableText, TableKeyword, Starts, Separator, Ends, AllFragments, CleanColumn,
         CleanConstraint;
    var lead := "CREATE " + TableKeyword(t) + " ";
    var body := Lines(Items(t));
    TableWords(t);
    ItemsFragments(t);
    LinesFragment(Items(t));
    TableTextParts(t, lead, body);
    if t.partitionBy != "" {
      CleanTail(t);
      ClosedTriple(lead, t.name, " (\n", body, ") PARTITION BY ", t.partitionBy);
    } else {
      ClosedBody(lead, t.name, " (\n", body, ")");
    }
  }

  lemma CleanTail(t: TableDef)
    requires CleanTable(t) && t.partitionBy != ""
    ensures Fragment(t.partitionBy) && Ends(t.partitionBy)
  {
    hide Fragment;
  }

  lemma TableTextShape(lead: string, name: string, body: string, tail: string)
    ensures lead + name + " " + "(" + ("\n" + body) + ")" + (" PARTITION BY " + tail)
            == lead + name + " (\n" + body + ") PARTITION BY " + tail
    ensures lead + name + " " + "(" + ("\n" + body) + ")" + "" == lead + name + " (\n" + body + ")"
  {
    var a := lead + name + " " + "(" + ("\n" + body) + ")";
    var b := lead + name + " (\n" + body + ")";
    assert a == b;
    assert a + (" PARTITION BY " + tail) == lead + name + " (\n" + body + ") PARTITION BY " + tail by {
      assert b + (" PARTITION BY " + tail) == lead + name + " (\n" + body + (")" + " PARTITION BY ") + tail;
    }
  }

  lemma TableTextParts(t: TableDef, lead: string, body: string)
    requires lead == "CREATE " + TableKeyword(t) + " " && body == Lines(Items(t))
    ensures t.partitionBy != "" ==> TableText(t) == lead + t.name + " (\n" + body + ") PARTITION BY " + t.partitionBy
    ensures t.partitionBy == "" ==> TableText(t) == lead + t.name + " (\n" + body + ")"
  {
    hide Lines, Items;
    TableTextShape(lead, t.name, body, t.partitionBy);
  }

  lemma IndexWords(x: IndexDef) returns (a: string, c: string, e: string)
    ensures Plain(a) && Plain(c) && Plain(e)
    ensures IndexText(x) == "CREATE " + a + "INDEX " + c + e + x.name + " ON " + x.tableName + " " + x.body
  {
    a := if x.unique then "UNIQUE " else "";
    c, e := if x.concurrently then "CONCURRENTLY " else "", if x.ifNotExists then "IF NOT EXISTS " else "";
  }

  lemma IndexLead(x: IndexDef) returns (lead: string)
    ensures Starts(lead) && IndexText(x) == lead + x.name + " ON " + x.tableName + " " + x.body
  {
    var a, c, e := IndexWords(x);
    assert Starts("CREATE ") && Plain("INDEX ");
    hide IndexText, Starts, Plain;
    StartsAppend("CREATE ", a);
    StartsAppend("CREATE " + a, "INDEX ");
    StartsAppend("CREATE " + a + "INDEX ", c);
    StartsAppend("CREATE " + a + "INDEX " + c, e);
    lead := "CREATE " + a + "INDEX " + c + e;
  }

  lemma StartsAppend(a: string, b: string)
    requires Starts(a) && Plain(b)
    ensures Starts(a + b)
  {
  }

  lemma IndexPadded(x: IndexDef)
    requires CleanIndex(x)
    ensures Padded(IndexText(x)) && (Trimmed(IndexText(x)) <==> x.body != "")
  {
    var lead := IndexLead(x);
    assert Separator(" ON ") && Separator(" ");
    hide Fragment, Starts, Separator, Ends, IndexText, Padded;
    if x.body == "" {
      IndexWithoutBody(x, lead);
    } else {
      assert Ends(x.body) by { LastVisible(x.body); }
      ClosedFragment(x.tableName);
      ClosedTriple(lead, x.name, " ON ", x.tableName, " ", x.body);
      ClosedPadded(IndexText(x));
    }
  }

  lemma LastVisible(s: string)
    requires s != "" && Trimmed(s)
    ensures Ends(s)
  {
  }

  /** Without a body the text ends in the blank before it. */
  lemma IndexWithoutBody(x: IndexDef, lead: string)
    requires CleanIndex(x) && x.body == "" && Starts(lead)
    requires IndexText(x) == lead + x.name + " ON " + x.tableName + " " + x.body
    ensures Padded(IndexText(x)) && !Trimmed(IndexText(x))
  {
    assert Separator(" ON ") && Plain(" ") && AllSpace(" ") && AllSpace("");
    ClosedFragment(x.tableName);
    hide Fragment, Starts, Separator, Ends, IndexText, Plain;
    var t := lead + x.name + " ON " + x.tableName;
    ClosedPair(lead, x.name, " ON ", x.tableName);
    assert IndexText(x) == t + " " && "" + t + " " == t + " ";
    TrimSpaceUnpads("", t, " ");
    Suffixed(t, " ");
    hide TrimSpace;
    assert IsSpace((t + " ")[|t|]);
  }

  lemma ClosedFragment(s: string)
    requires Closed(s)
    ensures Fragment(s) && Ends(s)
  {
    hide Fragment;
  }

  lemma {:induction false} JoinLast(parts: seq<string>, sep: string)
    requires parts != [] && parts[|parts| - 1] != ""
    ensures var j := Join(parts, sep); j != "" && j[|j| - 1] == parts[|parts| - 1][|parts[|parts| - 1]| - 1]
  {
    if |parts| > 1 { JoinLast(parts[1..], sep); }
  }

  lemma SequenceClosed(s: SequenceDef)
    requires CleanSequence(s)
    ensures Closed(SequenceText(s))
  {
    hide Fragment, Starts, Separator, Ends, Closed;
    var lead := "CREATE SEQUENCE ";
    SequenceWords();
    ClosedFragment(s.name);
    if s.body == "" {
      ClosedAlone(lead, s.name);
      assert lead + s.name + "" == lead + s.name;
    } else {
      ClosedFragment(s.body);
      ClosedPair(lead, s.name, " ", s.body);
      SequenceTextParts(s);
    }
  }

  lemma SequenceWords()
    ensures Starts("CREATE SEQUENCE ") && Separator(" ")
  {
  }

  lemma SequenceTextParts(s: SequenceDef)
    requires s.body != ""
    ensures SequenceText(s) == "CREATE SEQUENCE " + s.name + " " + s.body
  {
    AssociateThree("CREATE SEQUENCE " + s.name, " ", s.body);
  }

  lemma EnumClosed(e: EnumDef)
    requires CleanEnum(e)
    ensures Closed(EnumText(e))
  {
    var lead, sep, close := "CREATE TYPE ", " AS ENUM (\n    ", "\n)";
    assert Starts(lead) && Separator(sep) && Separator(close) && Ends(close) && Plain(LABEL_BREAK);
    assert EnumText(e) == lead + e.name + sep + Join(Quoted(e.labels), LABEL_BREAK) + close;
    LabelsFragment(e);
    hide Fragment, Closed, Join, EnumText, Starts, Separator, Ends;
    ClosedBody(lead, e.name, sep, Join(Quoted(e.labels), LABEL_BREAK), close);
  }

  lemma LabelsFragment(e: EnumDef)
    requires CleanEnum(e)
    ensures Fragment(Join(Quoted(e.labels), LABEL_BREAK))
  {
    assert Plain(LABEL_BREAK);
    hide Fragment;
    var parts := Quoted(e.labels);
    forall p | p in parts ensures Fragment(p) {
      var i :| 0 <= i < |parts| && parts[i] == p;
      assert e.labels[i] in e.labels;
    }
    JoinFragments(parts, LABEL_BREAK);
  }

  lemma TruncateClosed(t: Truncate)
    requires CleanTruncate(t)
    ensures Closed(TruncateText(t))
  {
    var lead, names := "TRUNCATE ", Join(t.tables, ", ");
    var tail := (if t.restartIdentity then " RESTART IDENTITY" else "") + if t.cascade then " CASCADE" else "";
    assert Starts(lead);
    assert tail != "" ==> Separator(tail) && Ends(tail);
    assert TruncateText(t) == lead + names + tail by { TruncateTextParts(t, names); }
    NamesClosed(t);
    EmptyFragment();
    hide Fragment, Closed, Join, TruncateText, Starts, Separator, Ends;
    if tail == "" {
      ClosedAlone(lead, names);
      assert lead + names + tail == lead + names;
    } else {
      ClosedTail(lead, names, tail);
    }
  }

  lemma TruncateTextParts(t: Truncate, names: string)
    requires names == Join(t.tables, ", ")
    ensures TruncateText(t) == "TRUNCATE " + names +
            ((if t.restartIdentity then " RESTART IDENTITY" else "") + if t.cascade then " CASCADE" else "")
  {
    hide Join;
    var lead := "TRUNCATE " + names;
    var a, b := if t.restartIdentity then " RESTART IDENTITY" else "", if t.cascade then " CASCADE" else "";
    AssociateThree(lead, a, b);
  }

  lemma ClosedAlone(lead: string, s: string)
    requires Starts(lead) && Fragment(s) && Ends(s)
    ensures Closed(lead + s)
  {
    hide Fragment;
    Prefixed(lead, s);
    ClosedEnds(lead, s);
  }

  lemma ClosedTail(lead: string, s: string, tail: string)
    requires Starts(lead) && Fragment(s) && Separator(tail) && Ends(tail)
    ensures Closed(lead + s + tail)
  {
    hide Fragment;
    Suffixed(s, tail);
    var u := s + tail;
    assert u[|u| - 1] == tail[|tail| - 1];
    ClosedAlone(lead, u);
    AssociateThree(lead, s, tail);
  }

  lemma NamesClosed(t: Truncate)
    requires CleanTruncate(t)
    ensures Fragment(Join(t.tables, ", ")) && Ends(Join(t.tables, ", "))
  {
    assert Plain(", ");
    hide Fragment;
    var last := t.tables[|t.tables| - 1];
    assert last in t.tables && Closed(last);
    JoinFragments(t.tables, ", ");
    JoinLast(t.tables, ", ");
  }

  lemma {:induction false} GroupClosed(sql: string, alters: seq<string>, l: Line)
    requires Closed(sql) && (forall a :: a in alters ==> Closed(a)) && l in Group(sql, alters)
    ensures Closed(l.text)
    decreases |alters|
  {
    hide Closed;
    if alters != [] && l != Line(sql, "\n") { GroupClosed(alters[0], alters[1..], l); }
  }

  lemma {:induction false} SectionClosed(os: seq<ObjectDef>, n: nat, l: Line)
    requires (forall o :: o in os ==> CleanObject(o)) && l in SectionLines(os, n)
    ensures Closed(l.text)
  {
    hide Closed, Group, Section;
    if l in SectionLines(os[1..], n) {
      SectionClosed(os[1..], n, l);
    } else {
      assert os[0] in os;
      if PrintsAlters(Section(os[0].kind)) { GroupClosed(os[0].sql, os[0].postAlters, l); }
    }
  }

  /** Every line but those of the indexes is closed. */
  lemma LineClosed(d: Database, l: Line)
    requires Clean(d) && l in ScriptOf(d)
    ensures l in IndexLines(d.indexes) || Closed(l.text)
  {
    var os := d.objects;
    if n: nat :| n < SECTIONS && l in SectionLines(os, n) {
      SectionClosed(os, n, l);
    } else if l !in IndexLines(d.indexes) {
      assert forall n: nat :: n < SECTIONS ==> l !in SectionLines(os, n);
      hide SectionLines;
      assert l in SequenceLines(d.sequences) || l in TypeLines(d.types) || l in TableLines(d.tables)
          || l in TruncateLines(d.truncates) || l in UnknownLines(d.unknowns);
      SpacedClosed(d, l);
    }
  }

  lemma SpacedClosed(d: Database, l: Line)
    requires Clean(d)
    requires l in SequenceLines(d.sequences) || l in TypeLines(d.types) || l in TableLines(d.tables)
          || l in TruncateLines(d.truncates) || l in UnknownLines(d.unknowns)
    ensures Closed(l.text)
  {
    hide Closed, TableText, IndexText, SequenceText, EnumText, TruncateText, CleanTable, CleanIndex, CleanSequence,
         CleanEnum, CleanTruncate, CleanObject;
    if l in SequenceLines(d.sequences) {
      var i :| 0 <= i < |d.sequences| && SequenceLines(d.sequences)[i] == l;
      SequenceClosed(d.sequences[i]);
    } else if l in TypeLines(d.types) {
      var i :| 0 <= i < |d.types| && TypeLines(d.types)[i] == l;
      EnumClosed(d.types[i]);
    } else if l in TableLines(d.tables) {
      var i :| 0 <= i < |d.tables| && TableLines(d.tables)[i] == l;
      TableClosed(d.tables[i]);
    } else if l in TruncateLines(d.truncates) {
      var i :| 0 <= i < |d.truncates| && TruncateLines(d.truncates)[i] == l;
      TruncateClosed(d.truncates[i]);
    }
  }

  lemma IndexLinePadded(d: Database, l: Line)
    requires Clean(d) && l in IndexLines(d.indexes)
    ensures Padded(l.text) && (Trimmed(l.text) <== forall x :: x in d.indexes ==> x.body != "")
  {
    hide Padded, Trimmed, IndexText, CleanIndex, CleanTable, CleanSequence, CleanEnum, CleanTruncate, CleanObject;
    var i :| 0 <= i < |d.indexes| && IndexLines(d.indexes)[i] == l;
    assert d.indexes[i] in d.indexes;
    IndexPadded(d.indexes[i]);
  }

  lemma LinePadded(d: Database, l: Line)
    requires Clean(d) && l in ScriptOf(d)
    ensures Padded(l.text) && (Trimmed(l.text) <== forall x :: x in d.indexes ==> x.body != "")
  {
    hide ScriptOf, Clean, Padded, IndexLines;
    LineClosed(d, l);
    if l in IndexLines(d.indexes) { IndexLinePadded(d, l); } else { ClosedPadded(l.text); }
  }

  lemma IndexLineIn(d: Database, x: IndexDef)
    requires x in d.indexes
    ensures Script.Spaced(IndexText(x)) in ScriptOf(d)
  {
    hide SectionLines, IndexText, SequenceLines, TypeLines, TableLines, TruncateLines, UnknownLines;
    var i :| 0 <= i < |d.indexes| && d.indexes[i] == x;
    assert IndexLines(d.indexes)[i] == Script.Spaced(IndexText(x));
    assert Script.Spaced(IndexText(x)) in IndexLines(d.indexes);
  }

  lemma CleanIndexes(d: Database, x: IndexDef)
    requires Clean(d) && x in d.indexes
    ensures CleanIndex(x)
  {
    hide CleanIndex, CleanTable, CleanSequence, CleanEnum, CleanTruncate, CleanObject;
  }

  /** Text round trip: with self-contained stored pieces, splitting the output
      file gives the statements of the script, in order and trimmed, and exactly
      as printed if and only if every index has a body. */
  lemma SplitCleanOutput(d: Database)
    requires Clean(d)
    ensures Statements(Output(d)) == TrimmedTexts(ScriptOf(d))
    ensures Statements(Output(d)) == TextsOf(ScriptOf(d)) <==> forall x :: x in d.indexes ==> x.body != ""
  {
    hide ScriptOf, Statements, Clean, Output, Padded, Trimmed, IndexText;
    forall l | l in ScriptOf(d)
      ensures Padded(l.text) && (Trimmed(l.text) <== forall x :: x in d.indexes ==> x.body != "")
    {
      LinePadded(d, l);
    }
    SplitOutput(d);
    if x :| x in d.indexes && x.body == "" {
      IndexLineIn(d, x);
      CleanIndexes(d, x);
      IndexPadded(x);
    }
  }
}
