/** The printed statements, character by character. */
module PrintedForms {
  import opened Text
  import opened Ast
  import opened Catalog
  import opened Script

  /** Each item on a line of its own, four blanks in. */
  function Indented(items: seq<string>): seq<string> {
    seq(|items|, i requires 0 <= i < |items| => "    " + items[i])
  }

  /** A body is its indented items with a comma and a line break between. */
  lemma {:induction false} BodyForm(items: seq<string>)
    ensures items != [] ==> Lines(items) == Join(Indented(items), ",\n") + "\n"
    ensures items == [] ==> Lines(items) == ""
  {
    if items != [] {
      BodyForm(items[1..]);
      assert Indented(items)[1..] == Indented(items[1..]);
      assert Indented(items)[0] == "    " + items[0];
      LineForm(items);
    }
  }

  lemma LineForm(items: seq<string>)
    requires items != [] && Indented(items)[1..] == Indented(items[1..]) && Indented(items)[0] == "    " + items[0]
    requires items[1..] != [] ==> Lines(items[1..]) == Join(Indented(items[1..]), ",\n") + "\n"
    ensures Lines(items) == Join(Indented(items), ",\n") + "\n"
  {
    LineStep(items);
    JoinStep(Indented(items));
    var x := "    " + items[0];
    if |items| == 1 {
      EndLine(x);
    } else {
      hide Indented, Lines, Join;
      MiddleLine(x, Join(Indented(items[1..]), ",\n"));
    }
  }

  lemma LineStep(items: seq<string>)
    requires items != []
    ensures Lines(items) == "    " + items[0] + (if |items| == 1 then "" else ",") + "\n" + Lines(items[1..])
    ensures |items| == 1 ==> Lines(items[1..]) == "" && |Indented(items)| == 1
  {
  }

  lemma JoinStep(xs: seq<string>)
    requires xs != []
    ensures Join(xs, ",\n") == if |xs| == 1 then xs[0] else xs[0] + ",\n" + Join(xs[1..], ",\n")
  {
    hide Lines;
  }

  lemma EndLine(x: string)
    ensures x + "" + "\n" + "" == x + "\n"
  {
  }

  lemma MiddleLine(x: string, j: string)
    ensures x + "," + "\n" + (j + "\n") == x + ",\n" + j + "\n"
  {
    assert "," + "\n" == ",\n";
    assert x + "," + "\n" + (j + "\n") == x + ("," + "\n") + (j + "\n");
  }

  /** The columns come first, then the constraints, each as it is printed. */
  lemma BodyItems(t: TableDef)
    ensures var xs, n := Items(t), |t.columns|;
            && |xs| == n + |t.constraints|
            && (forall i :: 0 <= i < n ==> xs[i] == ColumnText(t.columns[i]))
            && forall i :: n <= i < |xs| ==>
                 var c := t.constraints[i - n];
                 xs[i] == if c.name == "" then c.definition else "CONSTRAINT " + c.name + " " + c.definition
  {
    hide ColumnText;
  }

  /** A table: its words, its name, the body in parens, and PARTITION BY if it has one. */
  lemma TableForm(t: TableDef)
    requires Items(t) != []
    ensures TableText(t)
            == (if t.temporary then "CREATE TEMPORARY TABLE " else if t.unlogged then "CREATE UNLOGGED TABLE "
                else "CREATE TABLE ")
               + t.name + " (\n" + Join(Indented(Items(t)), ",\n") + "\n)"
               + (if t.partitionBy == "" then "" else " PARTITION BY " + t.partitionBy)
  {
    hide Items, Indented, Join, Lines, TableHead;
    BodyForm(Items(t));
    HeadForm(t);
    var j := Join(Indented(Items(t)), ",\n");
    var h := TableHead(t);
    var tail := TableTail(t);
    assert h + "(" + ("\n" + (j + "\n")) + ")" + tail == h + "(\n" + j + "\n)" + tail;
  }

  lemma HeadForm(t: TableDef)
    ensures TableHead(t) + "(\n"
            == (if t.temporary then "CREATE TEMPORARY TABLE " else if t.unlogged then "CREATE UNLOGGED TABLE "
                else "CREATE TABLE ")
               + t.name + " (\n"
  {
    var w := TableKeyword(t);
    var k := if t.temporary then "CREATE TEMPORARY TABLE " else if t.unlogged then "CREATE UNLOGGED TABLE "
             else "CREATE TABLE ";
    assert "CREATE " + w + " " == k;
    assert k + t.name + " " + "(\n" == k + t.name + " (\n";
  }

  /** An index with every word; the body is printed behind a blank. */
  lemma IndexForm(name: string, table: string, body: string)
    ensures IndexText(IndexDef(name, table, true, true, true, body))
            == "CREATE UNIQUE INDEX CONCURRENTLY IF NOT EXISTS " + name + " ON " + table + " " + body
  {
    AllWords();
  }

  lemma AllWords()
    ensures "CREATE " + "UNIQUE " + "INDEX " + "CONCURRENTLY " + "IF NOT EXISTS "
            == "CREATE UNIQUE INDEX CONCURRENTLY IF NOT EXISTS "
  {
  }

  /** And one with none. */
  lemma PlainIndexForm(name: string, table: string, body: string)
    ensures IndexText(IndexDef(name, table, false, false, false, body))
            == "CREATE INDEX " + name + " ON " + table + " " + body
  {
    NoWords();
  }

  lemma NoWords()
    ensures "CREATE " + "" + "INDEX " + "" + "" == "CREATE INDEX "
  {
  }

  /** A sequence with its options, and without. */
  lemma SequenceForm(name: string, body: string)
    ensures SequenceText(SequenceDef(name, "")) == "CREATE SEQUENCE " + name
    ensures body != "" ==> SequenceText(SequenceDef(name, body)) == "CREATE SEQUENCE " + name + " " + body
  {
    assert "CREATE SEQUENCE " + name + "" == "CREATE SEQUENCE " + name;
    assert "CREATE SEQUENCE " + name + (" " + body) == "CREATE SEQUENCE " + name + " " + body;
  }

  lemma JoinTwo(a: string, b: string, sep: string)
    ensures Join([a, b], sep) == a + sep + b && Join([a], sep) == a
  {
    assert [a, b][1..] == [b];
  }

  /** A TRUNCATE of two tables with both words, and without. */
  lemma TruncateForm(a: string, b: string)
    ensures TruncateText(Truncate([a, b], true, true)) == "TRUNCATE " + a + ", " + b + " RESTART IDENTITY CASCADE"
    ensures TruncateText(Truncate([a], false, false)) == "TRUNCATE " + a
  {
    JoinTwo(a, b, ", ");
    var t := "TRUNCATE " + (a + ", " + b);
    assert t == "TRUNCATE " + a + ", " + b;
    assert t + " RESTART IDENTITY" + " CASCADE" == t + " RESTART IDENTITY CASCADE";
    assert "TRUNCATE " + a + "" + "" == "TRUNCATE " + a;
  }

  /** An enum of two labels. */
  lemma EnumForm(name: string, a: string, b: string)
    ensures EnumText(EnumDef(name, [a, b])) == "CREATE TYPE " + name + " AS ENUM (\n    '" + a + "',\n    '" + b + "'\n)"
  {
    var q := Quoted([a, b]);
    assert q == ["'" + a + "'", "'" + b + "'"];
    JoinTwo("'" + a + "'", "'" + b + "'", ",\n    ");
    EnumParts(name, a, b);
    hide Quoted;
  }

  lemma EnumParts(name: string, a: string, b: string)
    ensures "CREATE TYPE " + name + " AS ENUM (\n    " + ("'" + a + "'" + ",\n    " + ("'" + b + "'")) + "\n)"
            == "CREATE TYPE " + name + " AS ENUM (\n    '" + a + "',\n    '" + b + "'\n)"
  {
    var h := "CREATE TYPE " + name;
    assert " AS ENUM (\n    " + "'" == " AS ENUM (\n    '";
    assert "'" + ",\n    " + "'" == "',\n    '" && "'" + "\n)" == "'\n)";
    assert h + " AS ENUM (\n    " + (("'" + a + "'") + ",\n    " + ("'" + b + "'")) + "\n)"
           == h + (" AS ENUM (\n    " + "'") + a + ("'" + ",\n    " + "'") + b + ("'" + "\n)");
  }
}
