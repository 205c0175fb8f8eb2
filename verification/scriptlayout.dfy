/** The file that is written, block by block: which texts it holds, in which order,
    and what stands between them. */
module ScriptLayout {
  import opened Text
  import opened Ast
  import opened Catalog
  import opened Script

  /** A block is a statement and what follows it directly. */
  type Block = seq<string>

  /** The blocks of the objects of these kinds, with their ALTERs or without. */
  function Of(os: seq<ObjectDef>, kinds: set<ObjectKind>, alters: bool): seq<Block> {
    if os == [] then []
    else
      (if os[0].kind in kinds then [[os[0].sql] + if alters then os[0].postAlters else []] else [])
      + Of(os[1..], kinds, alters)
  }

  function Singles(texts: seq<string>): seq<Block> {
    if texts == [] then [] else [[texts[0]]] + Singles(texts[1..])
  }

  function SequenceTexts(ss: seq<SequenceDef>): seq<string> { seq(|ss|, i requires 0 <= i < |ss| => SequenceText(ss[i])) }

  function TableTexts(ts: seq<TableDef>): seq<string> { seq(|ts|, i requires 0 <= i < |ts| => TableText(ts[i])) }

  function IndexTexts(xs: seq<IndexDef>): seq<string> { seq(|xs|, i requires 0 <= i < |xs| => IndexText(xs[i])) }

  function TruncateTexts(ts: seq<Truncate>): seq<string> { seq(|ts|, i requires 0 <= i < |ts| => TruncateText(ts[i])) }

  /** The blocks of the file, kind by kind. */
  function Blocks(d: Database): seq<Block> {
    var os := d.objects;
    Of(os, {SchemaKind}, false)
    + Of(os, {Extension}, true)
    + Singles(SequenceTexts(d.sequences))
    + Singles(EnumTexts(d.types))
    + Of(os, {TypeKind}, false)
    + Of(os, {Domain}, true)
    + Singles(TableTexts(d.tables))
    + Of(os, {Partition}, false)
    + Singles(IndexTexts(d.indexes))
    + Of(os, {Function, Procedure}, true)
    + Of(os, {View, MatView}, true)
    + Of(os, {Trigger}, false)
    + Of(os, {Policy, Rule}, true)
    + Singles(TruncateTexts(d.truncates))
    + Singles(d.unknowns)
  }

  /** Every text on a line of its own, and an empty line at the end. */
  function BlockText(b: Block): string { if b == [] then "\n" else b[0] + ";\n" + BlockText(b[1..]) }

  function FileText(bs: seq<Block>): string { if bs == [] then "" else BlockText(bs[0]) + FileText(bs[1..]) }

  lemma {:induction false} FileAppend(a: seq<Block>, b: seq<Block>)
    ensures FileText(a + b) == FileText(a) + FileText(b)
  {
    hide BlockText;
    if a == [] {
      assert a + b == b;
    } else {
      assert (a + b)[1..] == a[1..] + b;
      FileAppend(a[1..], b);
      AssociateThree(BlockText(a[0]), FileText(a[1..]), FileText(b));
    }
  }

  lemma {:induction false} GroupText(sql: string, alters: seq<string>)
    ensures Written(Group(sql, alters)) == BlockText([sql] + alters)
    decreases |alters|
  {
    assert ([sql] + alters)[1..] == alters;
    if alters == [] {
      assert [Line(sql, "\n\n")][1..] == [];
      assert sql + ";" + "\n\n" + "" == sql + ";\n" + "\n";
    } else {
      var rest := Group(alters[0], alters[1..]);
      GroupText(alters[0], alters[1..]);
      assert [alters[0]] + alters[1..] == alters;
      hide Group, BlockText;
      assert ([Line(sql, "\n")] + rest)[1..] == rest;
      assert sql + ";" + "\n" + Written(rest) == sql + ";\n" + Written(rest);
    }
  }

  lemma ObjectText(o: ObjectDef, alters: bool)
    requires PrintsAlters(Section(o.kind)) == alters
    ensures Written(ObjectLines(o)) == BlockText([o.sql] + if alters then o.postAlters else [])
  {
    hide BlockText, Written;
    GroupText(o.sql, o.postAlters);
    GroupText(o.sql, []);
  }

  lemma OneBlock(b: Block)
    ensures FileText([b]) == BlockText(b)
  {
    hide BlockText;
    assert [b][1..] == [] && BlockText(b) + "" == BlockText(b);
  }

  /** The section of these kinds is written as their blocks. */
  lemma {:induction false} SectionText(os: seq<ObjectDef>, n: nat, kinds: set<ObjectKind>, alters: bool)
    requires forall k: ObjectKind :: (Section(k) == n <==> k in kinds) && (k in kinds ==> PrintsAlters(n) == alters)
    ensures Written(SectionLines(os, n)) == FileText(Of(os, kinds, alters))
  {
    hide ObjectLines, BlockText, Section, PrintsAlters;
    if os != [] {
      var o := os[0];
      SectionText(os[1..], n, kinds, alters);
      var ls := if Section(o.kind) == n then ObjectLines(o) else [];
      WrittenAppend(ls, SectionLines(os[1..], n));
      var b := [o.sql] + if alters then o.postAlters else [];
      if o.kind in kinds {
        ObjectText(o, alters);
        FileAppend([b], Of(os[1..], kinds, alters));
        OneBlock(b);
        assert ls == ObjectLines(o) && Of(os, kinds, alters) == [b] + Of(os[1..], kinds, alters);
      } else {
        assert [] + Of(os[1..], kinds, alters) == Of(os[1..], kinds, alters);
      }
    }
  }

  lemma {:induction false} SpacedText(ls: seq<Line>, texts: seq<string>)
    requires |ls| == |texts| && forall i :: 0 <= i < |ls| ==> ls[i] == Line(texts[i], "\n\n")
    ensures Written(ls) == FileText(Singles(texts))
    decreases |ls|
  {
    if ls != [] {
      SpacedText(ls[1..], texts[1..]);
      var b := [texts[0]];
      assert b[1..] == [];
      assert BlockText(b) == texts[0] + ";\n" + "\n";
      assert texts[0] + ";" + "\n\n" == texts[0] + ";\n" + "\n";
      assert Singles(texts) == [b] + Singles(texts[1..]) && ([b] + Singles(texts[1..]))[1..] == Singles(texts[1..]);
    }
  }

  lemma ObjectSections(os: seq<ObjectDef>)
    ensures Written(SectionLines(os, 0)) == FileText(Of(os, {SchemaKind}, false))
    ensures Written(SectionLines(os, 1)) == FileText(Of(os, {Extension}, true))
    ensures Written(SectionLines(os, 2)) == FileText(Of(os, {TypeKind}, false))
    ensures Written(SectionLines(os, 3)) == FileText(Of(os, {Domain}, true))
    ensures Written(SectionLines(os, 4)) == FileText(Of(os, {Partition}, false))
    ensures Written(SectionLines(os, 5)) == FileText(Of(os, {Function, Procedure}, true))
    ensures Written(SectionLines(os, 6)) == FileText(Of(os, {View, MatView}, true))
    ensures Written(SectionLines(os, 7)) == FileText(Of(os, {Trigger}, false))
    ensures Written(SectionLines(os, 8)) == FileText(Of(os, {Policy, Rule}, true))
  {
    hide Written, SectionLines, FileText, Of;
    SectionText(os, 0, {SchemaKind}, false);
    SectionText(os, 1, {Extension}, true);
    SectionText(os, 2, {TypeKind}, false);
    SectionText(os, 3, {Domain}, true);
    SectionText(os, 4, {Partition}, false);
    SectionText(os, 5, {Function, Procedure}, true);
    SectionText(os, 6, {View, MatView}, true);
    SectionText(os, 7, {Trigger}, false);
    SectionText(os, 8, {Policy, Rule}, true);
  }

  lemma ListSections(d: Database)
    ensures Written(SequenceLines(d.sequences)) == FileText(Singles(SequenceTexts(d.sequences)))
    ensures Written(TypeLines(d.types)) == FileText(Singles(EnumTexts(d.types)))
    ensures Written(TableLines(d.tables)) == FileText(Singles(TableTexts(d.tables)))
    ensures Written(IndexLines(d.indexes)) == FileText(Singles(IndexTexts(d.indexes)))
    ensures Written(TruncateLines(d.truncates)) == FileText(Singles(TruncateTexts(d.truncates)))
    ensures Written(UnknownLines(d.unknowns)) == FileText(Singles(d.unknowns))
  {
    hide Written, FileText, Singles, SequenceText, EnumText, TableText, IndexText, TruncateText;
    SpacedText(SequenceLines(d.sequences), SequenceTexts(d.sequences));
    SpacedText(TypeLines(d.types), EnumTexts(d.types));
    SpacedText(TableLines(d.tables), TableTexts(d.tables));
    SpacedText(IndexLines(d.indexes), IndexTexts(d.indexes));
    SpacedText(TruncateLines(d.truncates), TruncateTexts(d.truncates));
    SpacedText(UnknownLines(d.unknowns), d.unknowns);
  }

  /** One more group of lines and of blocks. */
  lemma OneMore(ls: seq<Line>, bs: seq<Block>, l: seq<Line>, b: seq<Block>)
    requires Written(ls) == FileText(bs) && Written(l) == FileText(b)
    ensures Written(ls + l) == FileText(bs + b)
  {
    hide Written, FileText;
    WrittenAppend(ls, l);
    FileAppend(bs, b);
  }

  lemma ScriptText(d: Database)
    ensures Written(ScriptOf(d)) == FileText(Blocks(d))
  {
    var os := d.objects;
    var l0, b0 := SectionLines(os, 0), Of(os, {SchemaKind}, false);
    var l1, b1 := SectionLines(os, 1), Of(os, {Extension}, true);
    var l2, b2 := SequenceLines(d.sequences), Singles(SequenceTexts(d.sequences));
    var l3, b3 := TypeLines(d.types), Singles(EnumTexts(d.types));
    var l4, b4 := SectionLines(os, 2), Of(os, {TypeKind}, false);
    var l5, b5 := SectionLines(os, 3), Of(os, {Domain}, true);
    var l6, b6 := TableLines(d.tables), Singles(TableTexts(d.tables));
    var l7, b7 := SectionLines(os, 4), Of(os, {Partition}, false);
    var l8, b8 := IndexLines(d.indexes), Singles(IndexTexts(d.indexes));
    var l9, b9 := SectionLines(os, 5), Of(os, {Function, Procedure}, true);
    var la, ba := SectionLines(os, 6), Of(os, {View, MatView}, true);
    var lb, bb := SectionLines(os, 7), Of(os, {Trigger}, false);
    var lc, bc := SectionLines(os, 8), Of(os, {Policy, Rule}, true);
    var ld, bd := TruncateLines(d.truncates), Singles(TruncateTexts(d.truncates));
    var le, be := UnknownLines(d.unknowns), Singles(d.unknowns);
    assert ScriptOf(d) == l0 + l1 + l2 + l3 + l4 + l5 + l6 + l7 + l8 + l9 + la + lb + lc + ld + le;
    assert Blocks(d) == b0 + b1 + b2 + b3 + b4 + b5 + b6 + b7 + b8 + b9 + ba + bb + bc + bd + be;
    ObjectSections(os);
    ListSections(d);
    hide *;
    OneMore(l0, b0, l1, b1);
    OneMore(l0 + l1, b0 + b1, l2, b2);
    OneMore(l0 + l1 + l2, b0 + b1 + b2, l3, b3);
    var l, b := l0 + l1 + l2 + l3, b0 + b1 + b2 + b3;
    OneMore(l, b, l4, b4);
    OneMore(l + l4, b + b4, l5, b5);
    OneMore(l + l4 + l5, b + b4 + b5, l6, b6);
    OneMore(l + l4 + l5 + l6, b + b4 + b5 + b6, l7, b7);
    var m, c := l + l4 + l5 + l6 + l7, b + b4 + b5 + b6 + b7;
    OneMore(m, c, l8, b8);
    OneMore(m + l8, c + b8, l9, b9);
    OneMore(m + l8 + l9, c + b8 + b9, la, ba);
    OneMore(m + l8 + l9 + la, c + b8 + b9 + ba, lb, bb);
    var n, e := m + l8 + l9 + la + lb, c + b8 + b9 + ba + bb;
    OneMore(n, e, lc, bc);
    OneMore(n + lc, e + bc, ld, bd);
    OneMore(n + lc + ld, e + bc + bd, le, be);
  }

  // ---- The end of the file ----

  lemma {:induction false} BlockEnds(b: Block)
    requires b != []
    ensures var s := BlockText(b); |s| >= 3 && s[|s| - 3] == ';' && s[|s| - 2] == '\n' && s[|s| - 1] == '\n'
    decreases |b|
  {
    if |b| > 1 { BlockEnds(b[1..]); } else { assert BlockText(b[1..]) == "\n"; }
  }

  lemma {:induction false} FileEnds(bs: seq<Block>)
    requires bs != [] && forall b :: b in bs ==> b != []
    ensures var s := FileText(bs); |s| >= 3 && s[|s| - 3] == ';' && s[|s| - 2] == '\n' && s[|s| - 1] == '\n'
    decreases |bs|
  {
    hide BlockText;
    assert bs[0] in bs;
    BlockEnds(bs[0]);
    if |bs| > 1 {
      assert forall b :: b in bs[1..] ==> b in bs;
      FileEnds(bs[1..]);
    }
  }

  lemma {:induction false} OfBlocks(os: seq<ObjectDef>, kinds: set<ObjectKind>, alters: bool)
    ensures forall b :: b in Of(os, kinds, alters) ==> b != []
  {
    if os != [] { OfBlocks(os[1..], kinds, alters); }
  }

  lemma {:induction false} SingleBlocks(texts: seq<string>)
    ensures forall b :: b in Singles(texts) ==> b != []
  {
    if texts != [] { SingleBlocks(texts[1..]); }
  }

  lemma NoEmptyBlock(d: Database)
    ensures forall b :: b in Blocks(d) ==> b != []
  {
    hide Of, Singles;
    var os := d.objects;
    OfBlocks(os, {SchemaKind}, false);
    OfBlocks(os, {Extension}, true);
    OfBlocks(os, {TypeKind}, false);
    OfBlocks(os, {Domain}, true);
    OfBlocks(os, {Partition}, false);
    OfBlocks(os, {Function, Procedure}, true);
    OfBlocks(os, {View, MatView}, true);
    OfBlocks(os, {Trigger}, false);
    OfBlocks(os, {Policy, Rule}, true);
    SingleBlocks(SequenceTexts(d.sequences));
    SingleBlocks(EnumTexts(d.types));
    SingleBlocks(TableTexts(d.tables));
    SingleBlocks(IndexTexts(d.indexes));
    SingleBlocks(TruncateTexts(d.truncates));
    SingleBlocks(d.unknowns);
  }

  lemma TwoBreaks(s: string)
    requires |s| >= 3 && s[|s| - 3] == ';' && s[|s| - 2] == '\n' && s[|s| - 1] == '\n'
    ensures TrimNewlines(s) + "\n" == s[..|s| - 1]
  {
    var a, b := s[..|s| - 1], s[..|s| - 2];
    assert a[..|a| - 1] == b && a[|a| - 1] == '\n' && b[|b| - 1] == ';';
    assert TrimNewlines(b) == b && TrimNewlines(a) == b && TrimNewlines(s) == b;
  }

  /** The file is its blocks, without the last empty line; with no block it is one
      line break. */
  lemma OutputBlocks(d: Database)
    ensures var bs := Blocks(d);
            && (bs == [] ==> Output(d) == "\n")
            && (bs != [] ==> FileText(bs) != "" && Output(d) == FileText(bs)[..|FileText(bs)| - 1])
  {
    hide Blocks, ScriptOf, Written;
    ScriptText(d);
    NoEmptyBlock(d);
    var bs := Blocks(d);
    if bs != [] {
      FileEnds(bs);
      var s := FileText(bs);
      TwoBreaks(s);
    }
  }
}
