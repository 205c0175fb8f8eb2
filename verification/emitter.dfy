/** Printing the schema: appends to one buffer in successive loops. */
module Emitter {
  import opened Text
  import opened Ast
  import opened Catalog
  import opened Script
  import opened SchemaState

  method EmitColumn(c: Column) returns (r: string)
    ensures r == ColumnText(c)
  {
    var parts := [c.name, c.dataType];
    if c.collation != "" { parts := parts + ["COLLATE " + c.collation]; }
    if c.notNull { parts := parts + ["NOT NULL"]; }
    if c.default.Some? { parts := parts + ["DEFAULT " + c.default.value]; }
    parts := parts + c.inline;
    assert parts == ColumnParts(c);
    return Join(parts, " ");
  }

  /** One printed line of a table body. */
  lemma LinesStep(items: seq<string>, i: nat)
    requires i < |items|
    ensures Lines(items[i..]) ==
            INDENT + items[i] + (if i + 1 == |items| then "" else ",") + "\n" + Lines(items[i + 1..])
  {
    assert items[i..][1..] == items[i + 1..];
  }

  method EmitTable(t: TableDef) returns (r: string)
    ensures r == TableText(t) + ";\n"
  {
    hide ColumnText, ConstraintText, Lines;
    var sb := "CREATE " + TableKeyword(t) + " " + t.name + " (\n";
    ghost var head := sb;
    ghost var items := Items(t);
    var totalItems := |t.columns| + |t.constraints|;
    var i := 0;
    assert items[0..] == items;
    for k := 0 to |t.columns|
      invariant i == k
      invariant sb + Lines(items[i..]) == head + Lines(items)
    {
      LinesStep(items, i);
      i := i + 1;
      var comma := if i == totalItems then "" else ",";
      var text := EmitColumn(t.columns[k]);
      ghost var rest := Lines(items[i..]);
      assert sb + (INDENT + text + comma + "\n" + rest) == sb + INDENT + text + comma + "\n" + rest;
      sb := sb + INDENT + text + comma + "\n";
    }
    for k := 0 to |t.constraints|
      invariant i == |t.columns| + k
      invariant sb + Lines(items[i..]) == head + Lines(items)
    {
      LinesStep(items, i);
      i := i + 1;
      var comma := if i == totalItems then "" else ",";
      var c := t.constraints[k];
      assert items[i - 1] == ConstraintText(c);
      var line := EmitConstraint(c);
      ghost var rest := Lines(items[i..]);
      assert sb + (INDENT + line + comma + "\n" + rest) == sb + INDENT + line + comma + "\n" + rest;
      sb := sb + INDENT + line + comma + "\n";
    }
    EmptyLines();
    assert items[i..] == [] && sb + "" == sb;
    if t.partitionBy != "" {
      sb := sb + ") PARTITION BY " + t.partitionBy + ";\n";
    } else {
      sb := sb + ");\n";
    }
    TableTextIs(t, head);
    return sb;
  }

  lemma EmptyLines()
    ensures Lines([]) == ""
  {
  }

  method EmitConstraint(c: Constraint) returns (line: string)
    ensures line == ConstraintText(c)
  {
    if c.name != "" {
      line := "CONSTRAINT " + c.name + " " + c.definition;
    } else {
      line := c.definition;
    }
  }

  lemma TableTextIs(t: TableDef, head: string)
    requires head == "CREATE " + TableKeyword(t) + " " + t.name + " (\n"
    ensures TableText(t) + ";\n" ==
            head + Lines(Items(t)) + (if t.partitionBy != "" then ") PARTITION BY " + t.partitionBy + ";\n" else ");\n")
  {
    hide Lines, Items;
    var tail := if t.partitionBy != "" then " PARTITION BY " + t.partitionBy else "";
    TableShape(TableHead(t), Lines(Items(t)), tail);
    if t.partitionBy != "" {
      assert ")" + tail + ";\n" == ") PARTITION BY " + t.partitionBy + ";\n";
    } else {
      assert ")" + tail + ";\n" == ");\n";
    }
  }

  lemma TableShape(head: string, lines: string, tail: string)
    ensures head + "(" + ("\n" + lines) + ")" + tail + ";\n" == head + "(\n" + lines + (")" + tail + ";\n")
  {
    var a, b := head + "(" + ("\n" + lines), head + "(\n" + lines;
    assert a == b;
    assert b + ")" + tail + ";\n" == b + (")" + tail + ";\n");
  }

  lemma GroupWritten(sql: string, alters: seq<string>)
    ensures Written(Group(sql, alters)) ==
            if alters == [] then sql + ";\n\n" else sql + ";\n" + Written(Group(alters[0], alters[1..]))
  {
    if alters == [] {
      assert Group(sql, alters)[1..] == [];
    } else {
      assert Group(sql, alters)[1..] == Group(alters[0], alters[1..]);
    }
  }

  lemma NextAlter(sb: string, alters: seq<string>, i: nat)
    requires i < |alters|
    ensures sb + Written(Group(alters[i], alters[i + 1..])) ==
            if i + 1 == |alters| then sb + alters[i] + ";\n" + "\n"
            else sb + alters[i] + ";\n" + Written(Group(alters[i + 1], alters[i + 2..]))
  {
    hide Written, Group;
    var alter, rest := alters[i], alters[i + 1..];
    GroupWritten(alter, rest);
    if rest == [] {
      assert sb + (alter + ";\n\n") == sb + alter + ";\n" + "\n";
    } else {
      assert rest[0] == alters[i + 1] && rest[1..] == alters[i + 2..];
      var tail := Written(Group(rest[0], rest[1..]));
      assert sb + (alter + ";\n" + tail) == sb + alter + ";\n" + tail;
    }
  }

  lemma FirstAlter(sb: string, sql: string, alters: seq<string>)
    ensures sb + Written(Group(sql, alters)) ==
            if alters == [] then sb + sql + ";\n" + "\n"
            else sb + sql + ";\n" + Written(Group(alters[0], alters[1..]))
  {
    var all := [sql] + alters;
    assert all[1..] == alters;
    if alters != [] { assert all[1] == alters[0] && all[2..] == alters[1..]; }
    hide Written, Group;
    NextAlter(sb, all, 0);
  }

  /** A CREATE text, its ALTER texts and an empty line. */
  method EmitWithAlters(buffer: string, sql: string, alters: seq<string>) returns (sb: string)
    ensures sb == buffer + Written(Group(sql, alters))
  {
    hide Written, Group;
    FirstAlter(buffer, sql, alters);
    ghost var goal := buffer + Written(Group(sql, alters));
    sb := buffer + sql + ";\n";
    for i := 0 to |alters|
      invariant i < |alters| ==> sb + Written(Group(alters[i], alters[i + 1..])) == goal
      invariant i == |alters| ==> sb + "\n" == goal
    {
      NextAlter(sb, alters, i);
      sb := sb + alters[i] + ";\n";
    }
    sb := sb + "\n";
  }

  /** One object: its CREATE text, with its ALTER texts where its section has them. */
  method EmitObject(buffer: string, o: ObjectDef) returns (sb: string)
    ensures sb == buffer + Written(ObjectLines(o))
  {
    if PrintsAlters(Section(o.kind)) {
      sb := EmitWithAlters(buffer, o.sql, o.postAlters);
    } else {
      WrittenOne(o.sql);
      assert buffer + (o.sql + ";\n\n") == buffer + o.sql + ";\n\n";
      sb := buffer + o.sql + ";\n\n";
    }
  }

  lemma WrittenOne(sql: string)
    ensures Written([Line(sql, "\n\n")]) == sql + ";\n\n"
  {
    assert [Line(sql, "\n\n")][1..] == [];
  }

  lemma SectionStep(os: seq<ObjectDef>, i: nat, n: nat)
    requires i < |os|
    ensures Written(SectionLines(os[i..], n)) ==
            (if Section(os[i].kind) == n then Written(ObjectLines(os[i])) else "") + Written(SectionLines(os[i + 1..], n))
  {
    hide ObjectLines, Section, Written;
    assert os[i..][0] == os[i] && os[i..][1..] == os[i + 1..];
    var rest := SectionLines(os[i + 1..], n);
    if Section(os[i].kind) == n {
      WrittenAppend(ObjectLines(os[i]), rest);
    } else {
      assert [] + rest == rest && "" + Written(rest) == Written(rest);
    }
  }

  lemma SectionEnd(os: seq<ObjectDef>, n: nat)
    ensures os[0..] == os && Written(SectionLines(os[|os|..], n)) == ""
  {
  }

  lemma AssociateTwo(a: string, b: string, c: string)
    ensures a + (b + c) == a + b + c && "" + c == c && a + "" == a
  {
  }

  /** One pass over the objects, printing those of one section. */
  method EmitSection(buffer: string, os: seq<ObjectDef>, n: nat) returns (sb: string)
    ensures sb == buffer + Written(SectionLines(os, n))
  {
    hide Group, Section, ObjectLines, SectionLines, Written;
    sb := buffer;
    SectionEnd(os, n);
    for i := 0 to |os|
      invariant sb + Written(SectionLines(os[i..], n)) == buffer + Written(SectionLines(os, n))
    {
      SectionStep(os, i, n);
      AssociateTwo(sb, Written(ObjectLines(os[i])), Written(SectionLines(os[i + 1..], n)));
      if Section(os[i].kind) == n { sb := EmitObject(sb, os[i]); }
    }
    AssociateTwo(sb, "", "");
  }

  /** Appending one spaced statement to the buffer. */
  lemma SpacedStep(sb: string, ls: seq<Line>, i: nat)
    requires i < |ls| && ls[i].gap == "\n\n"
    ensures sb + Written(ls[i..]) == sb + ls[i].text + ";\n\n" + Written(ls[i + 1..])
  {
    assert ls[i..][0] == ls[i] && ls[i..][1..] == ls[i + 1..];
    ghost var w := Written(ls[i + 1..]);
    assert sb + (ls[i].text + ";" + ls[i].gap + w) == sb + ls[i].text + ";\n\n" + w;
  }

  lemma SpacedEnd(sb: string, ls: seq<Line>)
    ensures sb + Written(ls[|ls|..]) == sb && ls[0..] == ls
  {
  }

  method EmitSequences(buffer: string, ss: seq<SequenceDef>) returns (sb: string)
    ensures sb == buffer + Written(SequenceLines(ss))
  {
    ghost var ls := SequenceLines(ss);
    hide Written;
    sb := buffer;
    SpacedEnd(sb, ls);
    for i := 0 to |ss|
      invariant sb + Written(ls[i..]) == buffer + Written(ls)
    {
      SpacedStep(sb, ls, i);
      var s := ss[i];
      var text := "CREATE SEQUENCE " + s.name;
      if s.body != "" { text := text + (" " + s.body); }
      assert text == ls[i].text;
      sb := sb + text + ";\n\n";
    }
    SpacedEnd(sb, ls);
  }

  method EmitTypes(buffer: string, es: seq<EnumDef>) returns (sb: string)
    ensures sb == buffer + Written(TypeLines(es))
  {
    ghost var ls := TypeLines(es);
    hide Written, Join;
    sb := buffer;
    SpacedEnd(sb, ls);
    for i := 0 to |es|
      invariant sb + Written(ls[i..]) == buffer + Written(ls)
    {
      SpacedStep(sb, ls, i);
      var labels := [];
      for j := 0 to |es[i].labels|
        invariant labels == Quoted(es[i].labels)[..j]
      {
        labels := labels + ["'" + es[i].labels[j] + "'"];
      }
      assert labels == Quoted(es[i].labels);
      sb := sb + ("CREATE TYPE " + es[i].name + " AS ENUM (\n    " + Join(labels, ",\n    ") + "\n)") + ";\n\n";
    }
    SpacedEnd(sb, ls);
  }

  method EmitTables(buffer: string, ts: seq<Table>) returns (sb: string)
    ensures sb == buffer + Written(TableLines(Values(ts)))
  {
    ghost var ls := TableLines(Values(ts));
    hide Written, TableText;
    sb := buffer;
    SpacedEnd(sb, ls);
    for i := 0 to |ts|
      invariant sb + Written(ls[i..]) == buffer + Written(ls)
    {
      SpacedStep(sb, ls, i);
      var text := EmitTable(ts[i].Value());
      assert sb + text + "\n" == sb + ls[i].text + ";\n\n";
      sb := sb + text + "\n";
    }
    SpacedEnd(sb, ls);
  }

  method EmitIndexes(buffer: string, xs: seq<IndexDef>) returns (sb: string)
    ensures sb == buffer + Written(IndexLines(xs))
  {
    ghost var ls := IndexLines(xs);
    hide Written;
    sb := buffer;
    SpacedEnd(sb, ls);
    for i := 0 to |xs|
      invariant sb + Written(ls[i..]) == buffer + Written(ls)
    {
      SpacedStep(sb, ls, i);
      var x := xs[i];
      var unique, concurrently, ifNotExists := "", "", "";
      if x.unique { unique := "UNIQUE "; }
      if x.concurrently { concurrently := "CONCURRENTLY "; }
      if x.ifNotExists { ifNotExists := "IF NOT EXISTS "; }
      var text := "CREATE " + unique + "INDEX " + concurrently + ifNotExists + x.name + " ON " + x.tableName + " " + x.body;
      assert text == ls[i].text;
      sb := sb + text + ";\n\n";
    }
    SpacedEnd(sb, ls);
  }

  method EmitTruncates(buffer: string, ts: seq<Truncate>) returns (sb: string)
    ensures sb == buffer + Written(TruncateLines(ts))
  {
    ghost var ls := TruncateLines(ts);
    hide Written, Join;
    sb := buffer;
    SpacedEnd(sb, ls);
    for i := 0 to |ts|
      invariant sb + Written(ls[i..]) == buffer + Written(ls)
    {
      SpacedStep(sb, ls, i);
      var text := "TRUNCATE " + Join(ts[i].tables, ", ");
      if ts[i].restartIdentity { text := text + " RESTART IDENTITY"; }
      if ts[i].cascade { text := text + " CASCADE"; }
      assert text == ls[i].text;
      sb := sb + text + ";\n\n";
    }
    SpacedEnd(sb, ls);
  }

  method EmitUnknowns(buffer: string, us: seq<string>) returns (sb: string)
    ensures sb == buffer + Written(UnknownLines(us))
  {
    ghost var ls := UnknownLines(us);
    hide Written;
    sb := buffer;
    SpacedEnd(sb, ls);
    for i := 0 to |us|
      invariant sb + Written(ls[i..]) == buffer + Written(ls)
    {
      SpacedStep(sb, ls, i);
      sb := sb + us[i] + ";\n\n";
    }
    SpacedEnd(sb, ls);
  }

  /** The buffer after the sections, in the order of the script. */
  lemma ScriptWritten(d: Database)
    ensures Written(ScriptOf(d)) ==
            Written(SectionLines(d.objects, 0)) + Written(SectionLines(d.objects, 1))
            + Written(SequenceLines(d.sequences)) + Written(TypeLines(d.types))
            + Written(SectionLines(d.objects, 2)) + Written(SectionLines(d.objects, 3))
            + Written(TableLines(d.tables)) + Written(SectionLines(d.objects, 4)) + Written(IndexLines(d.indexes))
            + Written(SectionLines(d.objects, 5)) + Written(SectionLines(d.objects, 6))
            + Written(SectionLines(d.objects, 7)) + Written(SectionLines(d.objects, 8))
            + Written(TruncateLines(d.truncates)) + Written(UnknownLines(d.unknowns))
  {
    var os := d.objects;
    var a := SectionLines(os, 0);
    var b, c, e := SectionLines(os, 1), SequenceLines(d.sequences), TypeLines(d.types);
    var f, g, h := SectionLines(os, 2), SectionLines(os, 3), TableLines(d.tables);
    var i, j, k := SectionLines(os, 4), IndexLines(d.indexes), SectionLines(os, 5);
    var l, m, n := SectionLines(os, 6), SectionLines(os, 7), SectionLines(os, 8);
    var o, p := TruncateLines(d.truncates), UnknownLines(d.unknowns);
    assert ScriptOf(d) == a + b + c + e + f + g + h + i + j + k + l + m + n + o + p;
    hide *;
    WrittenAppend(a, b);
    WrittenAppend(a + b, c);
    WrittenAppend(a + b + c, e);
    WrittenAppend(a + b + c + e, f);
    WrittenAppend(a + b + c + e + f, g);
    WrittenAppend(a + b + c + e + f + g, h);
    WrittenAppend(a + b + c + e + f + g + h, i);
    WrittenAppend(a + b + c + e + f + g + h + i, j);
    WrittenAppend(a + b + c + e + f + g + h + i + j, k);
    WrittenAppend(a + b + c + e + f + g + h + i + j + k, l);
    WrittenAppend(a + b + c + e + f + g + h + i + j + k + l, m);
    WrittenAppend(a + b + c + e + f + g + h + i + j + k + l + m, n);
    WrittenAppend(a + b + c + e + f + g + h + i + j + k + l + m + n, o);
    WrittenAppend(a + b + c + e + f + g + h + i + j + k + l + m + n + o, p);
  }

  /** All sections, one after the other. */
  method EmitSections(objects: seq<ObjectDef>, sequences: seq<SequenceDef>, types: seq<EnumDef>, tables: seq<Table>,
                      indexes: seq<IndexDef>, truncates: seq<Truncate>, unknowns: seq<string>)
    returns (sb: string)
    ensures sb == Written(ScriptOf(Database(Values(tables), sequences, types, indexes, objects, truncates, unknowns)))
  {
    ghost var d := Database(Values(tables), sequences, types, indexes, objects, truncates, unknowns);
    ScriptWritten(d);
    hide *;
    sb := EmitSection("", objects, 0);
    assert sb == Written(SectionLines(objects, 0));
    sb := EmitSection(sb, objects, 1);
    sb := EmitSequences(sb, sequences);
    sb := EmitTypes(sb, types);
    sb := EmitSection(sb, objects, 2);
    sb := EmitSection(sb, objects, 3);
    sb := EmitTables(sb, tables);
    sb := EmitSection(sb, objects, 4);
    sb := EmitIndexes(sb, indexes);
    sb := EmitSection(sb, objects, 5);
    sb := EmitSection(sb, objects, 6);
    sb := EmitSection(sb, objects, 7);
    sb := EmitSection(sb, objects, 8);
    sb := EmitTruncates(sb, truncates);
    sb := EmitUnknowns(sb, unknowns);
    assert Values(tables) == d.tables;
  }

  /** Prints the whole schema. */
  method Emit(s: Schema) returns (r: string)
    ensures r == Output(s.View().db)
  {
    hide ScriptOf, Written, Values;
    var sb := EmitSections(s.objects, s.sequences, s.types, s.tables, s.indexes, s.truncates, s.unknowns);
    return TrimNewlines(sb) + "\n";
  }
}
