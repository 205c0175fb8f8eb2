/** The labels of a printed enum: what stands between its parens is split and
    trimmed to the labels again. */
module PrintedLabels {
  import opened Text
  import opened Ast
  import opened Patterns
  import opened Catalog
  import opened Script
  import opened Rereading
  import opened Scanner
  import PrintedTypes

  /** Labels without a tick; commas, parens and white space may stand in them. */
  predicate NoTicks(labels: seq<string>) { forall l :: l in labels ==> '\'' !in l }

  /** What is printed between the parens. */
  function EnumBody(e: EnumDef): string { "\n    " + Join(Quoted(e.labels), ",\n    ") + "\n" }

  lemma EnumTextParts(e: EnumDef)
    ensures EnumText(e) == "CREATE TYPE " + e.name + " AS ENUM (" + EnumBody(e) + ")"
  {
    hide Join;
    var j := Join(Quoted(e.labels), ",\n    ");
    var a := "CREATE TYPE " + e.name;
    assert " AS ENUM (\n    " == " AS ENUM (" + "\n    " && "\n)" == "\n" + ")";
    assert a + " AS ENUM (\n    " + j + "\n)" == a + " AS ENUM (" + ("\n    " + j + "\n") + ")";
  }

  // ---- Single labels ----

  lemma {:induction false} LiteralCalm(t: string, i: nat)
    requires 0 < i < |t| && t[|t| - 1] == '\'' && forall k :: i <= k < |t| - 1 ==> t[k] != '\''
    ensures Calm(t, i, Mark(0, true))
    decreases |t| - i
  {
    if i < |t| - 1 { LiteralCalm(t, i + 1); } else { assert Calm(t, |t|, ZERO); }
  }

  lemma QuoteItem(l: string)
    requires '\'' !in l
    ensures Item(Quote(l))
  {
    var t := Quote(l);
    assert t[0] == '\'' && t[|t| - 1] == '\'';
    forall k | 1 <= k < |t| - 1 ensures t[k] != '\'' { assert t[k] == l[k - 1]; }
    LiteralCalm(t, 1);
  }

  lemma TicksOff(l: string)
    requires '\'' !in l
    ensures TrimTicksRight(TrimTicksLeft(TrimSpace(Quote(l)))) == l
  {
    var t := Quote(l);
    assert t[0] == '\'' && t[|t| - 1] == '\'';
    TrimSpaceKeepsTrimmed(t);
    var u := l + "'";
    assert t[1..] == u;
    if l == "" {
      assert u == "'" && TrimTicksLeft(u[1..]) == "";
    } else {
      assert u[0] == l[0] && l[0] in l;
      assert u[..|u| - 1] == l && l[|l| - 1] in l;
      assert TrimTicksRight(l) == l;
    }
  }

  predicate Ticks(s: string) { forall i :: 0 <= i < |s| ==> s[i] == '\'' }

  lemma {:induction false} TicksLeft(q: string, x: string)
    requires Ticks(q) && (x != "" ==> x[0] != '\'')
    ensures TrimTicksLeft(q + x) == x
    decreases |q|
  {
    if q == "" {
      assert q + x == x;
    } else {
      assert (q + x)[1..] == q[1..] + x;
      TicksLeft(q[1..], x);
    }
  }

  lemma {:induction false} TicksRight(x: string, q: string)
    requires Ticks(q) && (x != "" ==> x[|x| - 1] != '\'')
    ensures TrimTicksRight(x + q) == x
    decreases |q|
  {
    if q == "" {
      assert x + q == x;
    } else {
      var s := x + q;
      assert s[|s| - 1] == q[|q| - 1] && s[..|s| - 1] == x + q[..|q| - 1];
      TicksRight(x, q[..|q| - 1]);
    }
  }

  /** A label loses the white space around it, and then every tick at its ends. */
  lemma LabelRead(a: string, p: string, x: string, q: string, b: string)
    requires AllSpace(a) && AllSpace(b) && Ticks(p) && p != "" && Ticks(q) && q != ""
    requires x != "" && x[0] != '\'' && x[|x| - 1] != '\''
    ensures LabelsOf([a + (p + (x + q)) + b]) == [x]
  {
    hide TrimSpace, TrimTicksLeft, TrimTicksRight;
    var t := p + (x + q);
    assert t[0] == p[0] && t[|t| - 1] == q[|q| - 1];
    TrimSpaceUnpads(a, t, b);
    assert (x + q)[0] == x[0];
    TicksLeft(p, x + q);
    TicksRight(x, q);
  }

  lemma LabelsOff(labels: seq<string>)
    requires NoTicks(labels)
    ensures LabelsOf(Quoted(labels)) == labels
  {
    hide Quote, TrimSpace, TrimTicksLeft, TrimTicksRight;
    forall i | 0 <= i < |labels| ensures LabelsOf(Quoted(labels))[i] == labels[i] {
      assert labels[i] in labels;
      TicksOff(labels[i]);
    }
  }

  lemma QuotedItems(labels: seq<string>)
    requires NoTicks(labels)
    ensures AllItems(Quoted(labels))
  {
    hide Quote, Item;
    forall t | t in Quoted(labels) ensures Item(t) {
      var i :| 0 <= i < |labels| && Quoted(labels)[i] == t;
      assert labels[i] in labels;
      QuoteItem(labels[i]);
    }
  }

  // ---- As they are printed ----

  lemma {:induction false} LinesAre(items: seq<string>)
    requires items != []
    ensures Lines(items) == "    " + Join(items, ",\n    ") + "\n"
    decreases |items|
  {
    if |items| == 1 {
      assert items[1..] == [];
      assert INDENT + items[0] + "" + "\n" + "" == "    " + items[0] + "\n";
    } else {
      LinesAre(items[1..]);
      var j := Join(items[1..], ",\n    ");
      assert INDENT + items[0] + "," + "\n" + ("    " + j + "\n") == "    " + (items[0] + ",\n    " + j) + "\n";
    }
  }

  /** The labels are found between the parens of the printed text. */
  lemma LabelsReadBack(e: EnumDef)
    requires NoTicks(e.labels)
    ensures LabelsOf(CommaItems(EnumBody(e))) == e.labels
  {
    hide CommaItems, LabelsOf, Lines, Item;
    if e.labels == [] {
      NoLabels(e);
    } else {
      var items := Quoted(e.labels);
      LinesAre(items);
      QuotedItems(e.labels);
      LinesSplit("\n", items);
      hide Join;
      assert "\n    " + Join(items, ",\n    ") + "\n" == "\n" + ("    " + Join(items, ",\n    ") + "\n");
      LabelsOff(e.labels);
    }
  }

  lemma NoLabels(e: EnumDef)
    requires e.labels == []
    ensures LabelsOf(CommaItems(EnumBody(e))) == []
  {
    assert Quoted(e.labels) == [];
    var pad := "\n    " + "" + "\n";
    SplitNone(pad);
    assert pad + Lines([]) == pad;
  }

  // ---- On one line ----

  lemma {:induction false} ListSplit(pad: string, items: seq<string>)
    requires (pad == "" || pad == " ") && items != [] && AllItems(items)
    ensures CommaItems(pad + Join(items, ", ")) == items
    decreases |items|
  {
    hide TrimSpace, Item, Calm;
    var t := items[0];
    assert t in items && Blank(pad) && items == [t] + items[1..];
    LinePart(pad, t, "");
    assert pad + t + "" == pad + t;
    ItemNonempty(t);
    if |items| == 1 {
      OnePart(pad + t, t);
    } else {
      assert forall x :: x in items[1..] ==> x in items;
      ListSplit(" ", items[1..]);
      var tail := " " + Join(items[1..], ", ");
      assert pad + (t + ", " + Join(items[1..], ", ")) == pad + t + "," + tail;
      FirstPart(pad + t, tail);
    }
  }

  lemma OnePart(s: string, t: string)
    requires Calm(s, 0, ZERO) && TrimSpace(s) == t && t != ""
    ensures CommaItems(s) == [t]
  {
    hide TrimSpace, Calm;
    assert s[0..|s|] == s && s[0..] == s;
    CalmKeeps(s, 0, 0, |s|, 0, s, ZERO);
  }

  lemma FirstPart(first: string, tail: string)
    requires Calm(first, 0, ZERO)
    ensures CommaItems(first + "," + tail) == [TrimSpace(first)] + CommaItems(tail)
  {
    hide TrimSpace, Calm;
    var s := first + "," + tail;
    CommaAfter(first, tail);
    CalmKeeps(s, 0, 0, |first|, 0, first, ZERO);
    PartsShift(first + ",", tail, 0, 0, ZERO);
  }

  lemma {:induction false} NoBreak(items: seq<string>)
    requires forall t :: t in items ==> '\n' !in t
    ensures '\n' !in Join(items, ", ")
  {
    if items != [] {
      assert items[0] in items;
      assert forall t :: t in items[1..] ==> t in items;
      NoBreak(items[1..]);
    }
  }

  /** An enum written on one line is read with its name and its labels. */
  lemma EnumRead(name: string, labels: seq<string>)
    requires Token(name) && labels != [] && NoTicks(labels) && forall l :: l in labels ==> '\n' !in l
    ensures ReadType(PrintedTypes.EnumHead(name) + (Join(Quoted(labels), ", ") + ")")) == CreateType(name, labels)
  {
    hide ReadType, Join, CommaItems, LabelsOf;
    var items := Quoted(labels);
    QuotedItems(labels);
    ListSplit("", items);
    LabelsOff(labels);
    forall t | t in items ensures '\n' !in t {
      var i :| 0 <= i < |labels| && items[i] == t;
      assert labels[i] in labels;
      QuoteBreak(labels[i]);
    }
    NoBreak(items);
    var j := Join(items, ", ");
    assert "" + j == j && j != "" by { JoinSome(items); }
    PrintedTypes.OneLineRead(name, j);
  }

  lemma QuoteBreak(l: string)
    requires '\n' !in l
    ensures '\n' !in Quote(l)
  {
  }

  lemma JoinSome(items: seq<string>)
    requires items != [] && AllItems(items)
    ensures Join(items, ", ") != ""
  {
    assert items[0] in items && Item(items[0]);
  }
}
