/** Reading the items of a table body, and reading back a printed table. */
module ColumnList {
  import opened Text
  import opened Ast
  import opened Catalog
  import opened Patterns
  import opened Columns
  import opened Script
  import Scanner
  import ColumnPrint
  import ColumnReadBack

  // ---- One item ----

  /** A CONSTRAINT clause: its name, and the rest of the definition's first line. */
  function ConstraintLine(part: string): Option<Constraint> {
    if !MatchesAt(part, 0, "CONSTRAINT") then None
    else
      var j := SkipSpaces(part, 10);
      var k := BlankEnd(part, j);
      var l := SkipSpaces(part, k);
      if j > 10 && k > j && l > k && l < |part|
      then Some(Constraint(part[j..k], TrimSpace(part[l..LineBreak(part, l)])))
      else None
  }

  /** Does the item begin with the keyword of an unnamed constraint? No word end
      is asked for. */
  predicate KeywordFirst(part: string) {
    || TwoWords(part, 0, "PRIMARY", "KEY") > 0 || MatchesAt(part, 0, "UNIQUE") || TwoWords(part, 0, "FOREIGN", "KEY") > 0
    || MatchesAt(part, 0, "CHECK") || MatchesAt(part, 0, "EXCLUDE") || MatchesAt(part, 0, "LIKE")
  }

  datatype Item = ConstraintItem(definition: Constraint) | ColumnItem(column: Columns.Parsed)

  function ReadItem(part: string): Item {
    match ConstraintLine(part)
    case Some(c) => ConstraintItem(c)
    case None =>
      if KeywordFirst(part) then ConstraintItem(Constraint("", part)) else ColumnItem(ParseColumn(part))
  }

  // ---- All items ----

  datatype Listing = Listed(columns: seq<Column>, constraints: seq<Constraint>) | BadColumn(reason: Columns.Parsed)

  function AddItem(item: Item, rest: Listing): Listing {
    match item
    case ColumnItem(p) => if !p.Parsed? then BadColumn(p) else
      (match rest
       case BadColumn(_) => rest
       case Listed(cols, cons) => Listed([p.column] + cols, cons))
    case ConstraintItem(c) =>
      match rest
      case BadColumn(_) => rest
      case Listed(cols, cons) => Listed(cols, [c] + cons)
  }

  function ReadItems(parts: seq<string>): Listing {
    if parts == [] then Listed([], []) else AddItem(ReadItem(TrimSpace(parts[0])), ReadItems(parts[1..]))
  }

  function ReadColumnList(body: string): Listing { ReadItems(Scanner.CommaItems(body)) }

  /** What is still to be read, put behind what has been read. */
  function Behind(cols: seq<Column>, cons: seq<Constraint>, rest: Listing): Listing {
    match rest
    case BadColumn(_) => rest
    case Listed(c, k) => Listed(cols + c, cons + k)
  }

  lemma BehindItem(cols: seq<Column>, cons: seq<Constraint>, item: Item, rest: Listing)
    ensures Behind(cols, cons, AddItem(item, rest)) ==
            match item
            case ColumnItem(p) => if p.Parsed? then Behind(cols + [p.column], cons, rest) else BadColumn(p)
            case ConstraintItem(c) => Behind(cols, cons + [c], rest)
  {
    if rest.Listed? {
      match item
      case ColumnItem(p) => if p.Parsed? { assert cols + [p.column] + rest.columns == cols + ([p.column] + rest.columns); }
      case ConstraintItem(c) => assert cons + [c] + rest.constraints == cons + ([c] + rest.constraints);
    }
  }

  method ParseColumnList(body: string) returns (r: Listing)
    ensures r == ReadColumnList(body)
  {
    hide ConstraintLine, KeywordFirst, ParseColumn, TrimSpace, AddItem, Scanner.CommaItems;
    var parts := Scanner.SplitAtDepthZeroCommas(body);
    var cols: seq<Column>, constraints: seq<Constraint> := [], [];
    BehindNothing(ReadItems(parts));
    assert parts[0..] == parts;
    for i := 0 to |parts|
      invariant Behind(cols, constraints, ReadItems(parts[i..])) == ReadItems(parts)
    {
      assert parts[i..][0] == parts[i] && parts[i..][1..] == parts[i + 1..];
      var part := TrimSpace(parts[i]);
      BehindItem(cols, constraints, ReadItem(part), ReadItems(parts[i + 1..]));
      var m := ConstraintLine(part);
      if m.Some? {
        constraints := constraints + [m.value];
        continue;
      }
      if KeywordFirst(part) {
        constraints := constraints + [Constraint("", part)];
        continue;
      }
      var col := ParseColumnDef(part);
      if !col.Parsed? { return BadColumn(col); }
      cols := cols + [col.column];
    }
    assert parts[|parts|..] == [];
    assert cols + [] == cols && constraints + [] == constraints;
    return Listed(cols, constraints);
  }

  lemma BehindNothing(r: Listing)
    ensures Behind([], [], r) == r
  {
    if r.Listed? { assert [] + r.columns == r.columns && [] + r.constraints == r.constraints; }
  }

  // ---- Reading back a printed table ----

  /** A constraint as the parser makes them. */
  predicate Stated(c: Constraint) {
    && c.definition != "" && Trimmed(c.definition) && !IsBlank(c.definition[0])
    && if c.name != "" then forall i :: 0 <= i < |c.name| ==> !IsBlank(c.name[i])
       else ConstraintLine(c.definition) == None && KeywordFirst(c.definition)
  }

  /** A named constraint keeps the first line of its definition only. */
  function FirstLine(c: Constraint): Constraint {
    if c.name == "" then c else c.(definition := TrimSpace(c.definition[..LineBreak(c.definition, 0)]))
  }

  predicate Misread(c: Column) { ReadItem(ColumnText(c)).ConstraintItem? }

  function KeptColumns(cols: seq<Column>): seq<Column> {
    if cols == [] then []
    else (if Misread(cols[0]) then [] else [ColumnReadBack.ReadAgain(cols[0])]) + KeptColumns(cols[1..])
  }

  function MisreadColumns(cols: seq<Column>): seq<Constraint> {
    if cols == [] then []
    else (if Misread(cols[0]) then [ReadItem(ColumnText(cols[0])).definition] else []) + MisreadColumns(cols[1..])
  }

  function FirstLines(cs: seq<Constraint>): seq<Constraint> {
    seq(|cs|, i requires 0 <= i < |cs| => FirstLine(cs[i]))
  }

  lemma {:induction false} LineBreakShift(p: string, s: string, i: nat)
    requires i <= |s|
    ensures LineBreak(p + s, |p| + i) == |p| + LineBreak(s, i)
    decreases |s| - i
  {
    if i < |s| && s[i] != '\n' {
      assert (p + s)[|p| + i] == s[i];
      LineBreakShift(p, s, i + 1);
    } else if i < |s| {
      assert (p + s)[|p| + i] == s[i];
    }
  }

  lemma NamedParts(name: string, def: string)
    requires name != "" && (forall i :: 0 <= i < |name| ==> !IsBlank(name[i])) && def != "" && !IsBlank(def[0])
    ensures var s := "CONSTRAINT " + name + " " + def;
            var k := 11 + |name|;
            && MatchesAt(s, 0, "CONSTRAINT") && SkipSpaces(s, 10) == 11 && BlankEnd(s, 11) == k
            && SkipSpaces(s, k) == k + 1 && s[11..k] == name && s[k + 1..] == def
  {
    var s := "CONSTRAINT " + name + " " + def;
    var k := 11 + |name|;
    assert s[0..10] == "CONSTRAINT";
    assert s[10] == ' ' && s[11] == name[0] && s[k] == ' ' && s[k + 1] == def[0];
    assert forall i :: 11 <= i < k ==> s[i] == name[i - 11];
    NameStops(s, 11, k);
    assert SkipSpaces(s, 11) == 11 && SkipSpaces(s, k + 1) == k + 1;
  }

  lemma {:induction false} NameStops(s: string, i: nat, n: nat)
    requires i <= n < |s| && IsBlank(s[n]) && forall j :: i <= j < n ==> !IsBlank(s[j])
    ensures BlankEnd(s, i) == n
    decreases n - i
  {
    if i < n { NameStops(s, i + 1, n); }
  }

  lemma ConstraintRead(c: Constraint)
    requires Stated(c)
    ensures ReadItem(ConstraintText(c)) == ConstraintItem(FirstLine(c))
  {
    if c.name != "" {
      var s := "CONSTRAINT " + c.name + " " + c.definition;
      var lead := "CONSTRAINT " + c.name + " ";
      NamedParts(c.name, c.definition);
      LineBreakShift(lead, c.definition, 0);
      assert s == lead + c.definition;
      var n := LineBreak(c.definition, 0);
      assert s[|lead|..|lead| + n] == c.definition[..n];
      hide TrimSpace, KeywordFirst, ParseColumn;
    } else {
      hide ConstraintLine, KeywordFirst, ParseColumn;
    }
  }

  lemma ConstraintTexts(cs: seq<Constraint>)
    requires cs != []
    ensures var texts := seq(|cs|, i requires 0 <= i < |cs| => ConstraintText(cs[i]));
            texts[0] == ConstraintText(cs[0])
            && texts[1..] == seq(|cs[1..]|, i requires 0 <= i < |cs[1..]| => ConstraintText(cs[1..][i]))
  {
    hide ConstraintText;
  }

  lemma {:induction false} ConstraintsRead(cs: seq<Constraint>)
    requires forall c :: c in cs ==> Stated(c) && Trimmed(ConstraintText(c))
    ensures ReadItems(seq(|cs|, i requires 0 <= i < |cs| => ConstraintText(cs[i]))) == Listed([], FirstLines(cs))
  {
    hide ConstraintText, Stated, ReadItem, FirstLine, TrimSpace;
    if cs != [] {
      assert cs[0] in cs && forall c :: c in cs[1..] ==> c in cs;
      ConstraintsRead(cs[1..]);
      ConstraintTexts(cs);
      ConstraintRead(cs[0]);
      TrimSpaceKeepsTrimmed(ConstraintText(cs[0]));
      assert FirstLines(cs) == [FirstLine(cs[0])] + FirstLines(cs[1..]);
    }
  }

  function ColumnTexts(cols: seq<Column>): seq<string> {
    seq(|cols|, i requires 0 <= i < |cols| => ColumnText(cols[i]))
  }

  function ConstraintTextsOf(cs: seq<Constraint>): seq<string> {
    seq(|cs|, i requires 0 <= i < |cs| => ConstraintText(cs[i]))
  }

  lemma TextsHead(cols: seq<Column>, rest: seq<string>)
    requires cols != []
    ensures var parts := ColumnTexts(cols) + rest;
            parts[0] == ColumnText(cols[0]) && parts[1..] == ColumnTexts(cols[1..]) + rest
  {
    hide ColumnText;
  }

  lemma ColumnRead(c: Column)
    requires ColumnReadBack.Printable(c)
    ensures ReadItem(ColumnText(c)) == if Misread(c) then ConstraintItem(ReadItem(ColumnText(c)).definition)
                                       else ColumnItem(Columns.Parsed.Parsed(ColumnReadBack.ReadAgain(c)))
  {
    ColumnReadBack.StartsParse(c);
    hide ColumnReadBack.Printable, ColumnText, ParseColumn, ConstraintLine, KeywordFirst, ColumnReadBack.ReadAgain;
  }

  lemma {:induction false} ItemsRead(cols: seq<Column>, cs: seq<Constraint>)
    requires forall c :: c in cols ==> ColumnReadBack.Printable(c) && Trimmed(ColumnText(c))
    requires forall c :: c in cs ==> Stated(c) && Trimmed(ConstraintText(c))
    ensures ReadItems(ColumnTexts(cols) + ConstraintTextsOf(cs))
            == Listed(KeptColumns(cols), MisreadColumns(cols) + FirstLines(cs))
    decreases |cols|
  {
    hide ColumnText, ColumnReadBack.Printable, Stated, ReadItem, TrimSpace, ConstraintText, ColumnReadBack.ReadAgain, FirstLines;
    var rest := ConstraintTextsOf(cs);
    if cols == [] {
      ConstraintsRead(cs);
      assert ColumnTexts(cols) + rest == rest;
      assert [] + FirstLines(cs) == FirstLines(cs);
    } else {
      assert cols[0] in cols && forall c :: c in cols[1..] ==> c in cols;
      ItemsRead(cols[1..], cs);
      TextsHead(cols, rest);
      ColumnRead(cols[0]);
      TrimSpaceKeepsTrimmed(ColumnText(cols[0]));
      var more := MisreadColumns(cols[1..]);
      if Misread(cols[0]) {
        var d := ReadItem(ColumnText(cols[0])).definition;
        assert [d] + (more + FirstLines(cs)) == [d] + more + FirstLines(cs);
        assert [] + KeptColumns(cols[1..]) == KeptColumns(cols[1..]);
      } else {
        assert [] + more == more;
      }
    }
  }

  /** What the parser makes of a printed table body: columns that look like a
      constraint end up among the constraints, and named constraints lose all
      but the first line of their definitions. */
  lemma TableReadBack(t: TableDef)
    requires Scanner.AllItems(Items(t)) && (forall c :: c in t.columns ==> ColumnReadBack.Printable(c))
    requires forall c :: c in t.constraints ==> Stated(c)
    ensures ReadColumnList(TableBody(t))
            == Listed(KeptColumns(t.columns), MisreadColumns(t.columns) + FirstLines(t.constraints))
  {
    hide *;
    Scanner.TableBodyRoundTrip(t);
    ItemsAre(t);
    ItemsTrimmed(t);
    ItemsRead(t.columns, t.constraints);
    BodyItems(t);
  }

  lemma BodyItems(t: TableDef)
    requires Scanner.CommaItems(TableBody(t)) == Items(t)
    ensures ReadColumnList(TableBody(t)) == ReadItems(Items(t))
  {
    hide Scanner.CommaItems, TableBody, Items, ReadItems;
  }

  lemma ItemsAre(t: TableDef)
    ensures Items(t) == ColumnTexts(t.columns) + ConstraintTextsOf(t.constraints)
  {
    hide ColumnText, ConstraintText;
  }

  lemma ItemsTrimmed(t: TableDef)
    requires Scanner.AllItems(Items(t))
    ensures forall c :: c in t.columns ==> Trimmed(ColumnText(c))
    ensures forall c :: c in t.constraints ==> Trimmed(ConstraintText(c))
  {
    var items := Items(t);
    hide ColumnText, ConstraintText, Trimmed;
    forall c | c in t.columns ensures Trimmed(ColumnText(c)) {
      var i :| 0 <= i < |t.columns| && t.columns[i] == c;
      assert items[i] == ColumnText(c) && items[i] in items;
    }
    forall c | c in t.constraints ensures Trimmed(ConstraintText(c)) {
      var i :| 0 <= i < |t.constraints| && t.constraints[i] == c;
      assert items[|t.columns| + i] == ConstraintText(c) && items[|t.columns| + i] in items;
    }
  }

  // ---- Which columns look like a constraint ----

  predicate BeginsWord(s: string, w: string) { HasPrefix(Upper(s), w) }

  /** The name begins like an unnamed constraint, is the first word of one and the
      type begins with its second, or is CONSTRAINT with text behind the first
      word of the type. */
  predicate LooksLikeConstraint(c: Column) {
    || BeginsWord(c.name, "UNIQUE") || BeginsWord(c.name, "CHECK") || BeginsWord(c.name, "EXCLUDE")
    || BeginsWord(c.name, "LIKE")
    || ((Upper(c.name) == "PRIMARY" || Upper(c.name) == "FOREIGN") && BeginsWord(c.dataType, "KEY"))
    || (Upper(c.name) == "CONSTRAINT" && (HasBlank(c.dataType) || HasClauses(c)))
  }

  predicate HasClauses(c: Column) { c.collation != "" || c.notNull || c.default.Some? || c.inline != [] }

  predicate HasBlank(s: string) { exists i :: 0 <= i < |s| && IsBlank(s[i]) }

  /** A text starts with w, in any case, exactly when it matches w at 0. */
  lemma MatchesStart(s: string, w: string)
    requires Upper(w) == w
    ensures MatchesAt(s, 0, w) <==> BeginsWord(s, w)
  {
    ColumnPrint.MatchIsOccurrence(s, w, 0);
    if |w| <= |s| { assert Upper(s)[0..|w|] == Upper(s)[..|w|]; }
  }

  /** A word without blanks cannot reach over the blank behind the name. */
  lemma StartsInName(name: string, rest: string, w: string)
    requires Upper(w) == w && ' ' !in w && (rest != "" ==> rest[0] == ' ')
    ensures BeginsWord(name + rest, w) <==> BeginsWord(name, w)
  {
    var s := name + rest;
    var u := Upper(s);
    if |w| <= |name| {
      assert u[..|w|] == Upper(name)[..|w|];
    } else if |w| <= |s| {
      assert u[..|w|][|name|] == u[|name|] == ' ';
      assert w[|name|] in w;
    }
  }

  lemma {:induction false} BlankRun(s: string, i: nat, n: nat)
    requires i <= n <= |s| && (forall j :: i <= j < n ==> !IsBlank(s[j])) && (n < |s| ==> IsBlank(s[n]))
    ensures BlankEnd(s, i) == n
    decreases n - i
  {
    if i < n { BlankRun(s, i + 1, n); }
  }

  /** The reading of `name rest` as a CONSTRAINT clause. */
  lemma ConstraintNamed(name: string, rest: string)
    requires ColumnPrint.Name(name) && ColumnPrint.Solid(rest)
    ensures ConstraintLine(name + " " + rest).Some? <==> Upper(name) == "CONSTRAINT" && HasBlank(rest)
  {
    var s := name + " " + rest;
    assert s == name + (" " + rest);
    MatchesStart(s, "CONSTRAINT");
    StartsInName(name, " " + rest, "CONSTRAINT");
    assert forall i :: 0 <= i < |name| ==> s[i] == name[i];
    if BeginsWord(name, "CONSTRAINT") {
      if |name| > 10 {
        assert s[10] == name[10];
        assert SkipSpaces(s, 10) == 10;
      } else {
        NamedTail(s, rest);
      }
    }
    WholeWord(name, "CONSTRAINT");
  }

  lemma WholeWord(name: string, w: string)
    ensures Upper(name) == w <==> BeginsWord(name, w) && |name| == |w|
    ensures BeginsWord(name, w) ==> |w| <= |name|
  {
    assert Upper(name)[..|name|] == Upper(name);
  }

  lemma NamedTail(s: string, rest: string)
    requires |s| == 11 + |rest| && s[10] == ' ' && s[11..] == rest && ColumnPrint.Solid(rest) && MatchesAt(s, 0, "CONSTRAINT")
    ensures ConstraintLine(s).Some? <==> HasBlank(rest)
  {
    assert s[11] == rest[0];
    assert SkipSpaces(s, 11) == 11 && SkipSpaces(s, 10) == 11;
    assert forall i :: 0 <= i < |rest| ==> s[11 + i] == rest[i];
    FirstWord(s, 11);
    var k := BlankEnd(s, 11);
    if k < |s| {
      assert IsBlank(rest[k - 11]);
      assert s[|s| - 1] == rest[|rest| - 1];
      ColumnPrint.SkipStops(s, k, |s| - 1);
    }
  }

  lemma {:induction false} FirstWord(s: string, i: nat)
    requires i <= |s|
    ensures var k := BlankEnd(s, i);
            (k < |s| ==> IsBlank(s[k])) && forall j :: i <= j < k ==> !IsBlank(s[j])
    decreases |s| - i
  {
    if i < |s| && !IsBlank(s[i]) { FirstWord(s, i + 1); }
  }

  /** The two words of a key constraint at the head of `name rest`. */
  lemma KeyWords(name: string, rest: string, first: string)
    requires ColumnPrint.Name(name) && ColumnPrint.Solid(rest) && first in {"PRIMARY", "FOREIGN"}
    ensures TwoWords(name + " " + rest, 0, first, "KEY") > 0 <==> Upper(name) == first && BeginsWord(rest, "KEY")
  {
    assert Upper(first) == first && ' ' !in first && |first| == 7;
    hide BeginsWord, MatchesAt, Upper;
    var s := name + " " + rest;
    assert s == name + (" " + rest);
    MatchesStart(s, first);
    StartsInName(name, " " + rest, first);
    WholeWord(name, first);
    assert forall i :: 0 <= i < |name| ==> s[i] == name[i];
    if BeginsWord(name, first) {
      if |name| > 7 {
        assert s[7] == name[7];
        assert SkipSpaces(s, 7) == 7;
      } else {
        assert s[8] == rest[0];
        assert SkipSpaces(s, 8) == 8 && SkipSpaces(s, 7) == 8;
        assert s[8..] == rest;
        KeyAt(s, rest);
      }
    }
  }

  lemma KeyAt(s: string, rest: string)
    requires |s| >= 8 && s[8..] == rest
    ensures MatchesAt(s, 8, "KEY") <==> BeginsWord(rest, "KEY")
  {
    MatchesStart(rest, "KEY");
    if |rest| >= 3 { assert s[8..11] == rest[0..3]; }
  }

  lemma RestBegins(c: Column)
    requires ColumnReadBack.Printable(c)
    ensures var rest := ColumnReadBack.Rest(c);
            && ColumnPrint.Solid(rest) && ColumnText(c) == c.name + " " + rest
            && (BeginsWord(rest, "KEY") <==> BeginsWord(c.dataType, "KEY"))
            && (HasBlank(rest) <==> HasBlank(c.dataType) || HasClauses(c))
  {
    ColumnReadBack.RestLonger(c);
    ColumnReadBack.RestSolid(c);
    ColumnReadBack.InlineSolid(c);
    ColumnPrint.TextIs(c);
    ColumnReadBack.PrintedShape(c);
    var t, rest := c.dataType, ColumnReadBack.Rest(c);
    var more := ColumnReadBack.RestMore(c);
    hide ColumnReadBack.Printable, ColumnReadBack.Rest, ColumnText, ColumnPrint.Solid;
    StartsInName(t, more, "KEY");
    BlankIn(t, more);
  }

  lemma BlankIn(t: string, more: string)
    requires more != "" ==> more[0] == ' '
    ensures HasBlank(t + more) <==> HasBlank(t) || t + more != t
  {
    var s := t + more;
    if HasBlank(t) {
      var i :| 0 <= i < |t| && IsBlank(t[i]);
      assert IsBlank(s[i]);
    } else if more != "" {
      assert IsBlank(s[|t|]);
      assert |s| > |t|;
    } else {
      assert s == t;
    }
  }

  /** A printed column is read as a constraint exactly when its fields say so. */
  lemma MisreadExact(c: Column)
    requires ColumnReadBack.Printable(c)
    ensures Misread(c) <==> LooksLikeConstraint(c)
  {
    var text, rest := ColumnText(c), ColumnReadBack.Rest(c);
    RestBegins(c);
    hide ColumnReadBack.Rest, ColumnText, ColumnPrint.Solid, ConstraintLine, TwoWords, HasBlank, BeginsWord, MatchesAt,
         ParseColumn;
    NameOf(c);
    ConstraintNamed(c.name, rest);
    KeyWords(c.name, rest, "PRIMARY");
    KeyWords(c.name, rest, "FOREIGN");
    FourWords(c.name, rest);
  }

  lemma NameOf(c: Column)
    requires ColumnReadBack.Printable(c)
    ensures ColumnPrint.Name(c.name)
  {
  }

  lemma FourWords(name: string, rest: string)
    ensures forall w :: w in {"UNIQUE", "CHECK", "EXCLUDE", "LIKE"} ==>
              (MatchesAt(name + " " + rest, 0, w) <==> BeginsWord(name, w))
  {
    assert name + " " + rest == name + (" " + rest);
    hide MatchesAt, BeginsWord;
    forall w | w in {"UNIQUE", "CHECK", "EXCLUDE", "LIKE"}
      ensures MatchesAt(name + " " + rest, 0, w) <==> BeginsWord(name, w)
    {
      assert Upper(w) == w && ' ' !in w;
      MatchesStart(name + " " + rest, w);
      StartsInName(name, " " + rest, w);
    }
  }

  // ---- When nothing is lost ----

  function MergedColumns(cols: seq<Column>): seq<Column> {
    seq(|cols|, i requires 0 <= i < |cols| => ColumnReadBack.Merged(cols[i]))
  }

  predicate OneLine(c: Constraint) { c.name != "" ==> '\n' !in c.definition }

  /** The column comes back as a column, and as the one that was printed. */
  predicate ComesBack(c: Column) { !LooksLikeConstraint(c) && ColumnReadBack.Kept(c) }

  lemma {:induction false} KeptCount(cols: seq<Column>)
    ensures |KeptColumns(cols)| <= |cols|
    ensures |KeptColumns(cols)| == |cols| <==> forall c :: c in cols ==> !Misread(c)
    ensures |KeptColumns(cols)| == |cols| ==>
              MisreadColumns(cols) == [] && forall i :: 0 <= i < |cols| ==> KeptColumns(cols)[i] == ColumnReadBack.ReadAgain(cols[i])
  {
    hide Misread, ColumnReadBack.ReadAgain;
    if cols != [] {
      KeptCount(cols[1..]);
      assert cols == [cols[0]] + cols[1..];
      assert forall c :: c in cols <==> c == cols[0] || c in cols[1..];
    }
  }

  /** All columns come back as printed exactly when each of them does. */
  lemma KeptAll(cols: seq<Column>)
    requires forall c :: c in cols ==> ColumnReadBack.Printable(c)
    ensures KeptColumns(cols) == MergedColumns(cols) <==> forall c :: c in cols ==> ComesBack(c)
    ensures KeptColumns(cols) == MergedColumns(cols) ==> MisreadColumns(cols) == []
  {
    hide Misread, LooksLikeConstraint, ColumnReadBack.Merged, ColumnReadBack.ReadAgain, ColumnReadBack.Kept,
         ColumnReadBack.Printable;
    KeptCount(cols);
    forall c | c in cols ensures ComesBack(c) <==> !Misread(c) && ColumnReadBack.ReadAgain(c) == ColumnReadBack.Merged(c) {
      MisreadExact(c);
      ColumnReadBack.StartsParse(c);
      ColumnReadBack.ColumnRoundTripExact(c);
    }
    var kept, all := KeptColumns(cols), MergedColumns(cols);
    if forall c :: c in cols ==> ComesBack(c) {
      forall i | 0 <= i < |cols| ensures kept[i] == all[i] { assert cols[i] in cols; }
    }
    if kept == all {
      forall c | c in cols ensures ComesBack(c) {
        var i :| 0 <= i < |cols| && cols[i] == c;
        assert kept[i] == all[i];
      }
    }
  }

  lemma {:induction false} BreakIs(s: string, i: nat)
    requires i <= |s|
    ensures LineBreak(s, i) == |s| <==> '\n' !in s[i..]
    decreases |s| - i
  {
    if i < |s| {
      assert s[i..] == [s[i]] + s[i + 1..];
      if s[i] != '\n' { BreakIs(s, i + 1); }
    }
  }

  lemma FirstLineIsAll(c: Constraint)
    requires Stated(c)
    ensures FirstLine(c) == c <==> OneLine(c)
  {
    if c.name != "" {
      var def, n := c.definition, LineBreak(c.definition, 0);
      BreakIs(def, 0);
      assert def[0..] == def;
      if n == |def| {
        assert def[..n] == def;
        TrimSpaceKeepsTrimmed(def);
      } else {
        TrimShorter(def[..n]);
      }
    }
  }

  lemma FirstLinesAll(cs: seq<Constraint>)
    requires forall c :: c in cs ==> Stated(c)
    ensures FirstLines(cs) == cs <==> forall c :: c in cs ==> OneLine(c)
  {
    hide Stated, FirstLine, OneLine;
    forall c | c in cs ensures FirstLine(c) == c <==> OneLine(c) { FirstLineIsAll(c); }
    if FirstLines(cs) == cs {
      forall c | c in cs ensures OneLine(c) {
        var i :| 0 <= i < |cs| && cs[i] == c;
        assert FirstLines(cs)[i] == FirstLine(c);
      }
    }
    if forall c :: c in cs ==> OneLine(c) {
      forall i | 0 <= i < |cs| ensures FirstLines(cs)[i] == cs[i] { assert cs[i] in cs; }
    }
  }

  /** A printed table is read back, columns and constraints, exactly when no
      column looks like a constraint, every column's clauses keep what is theirs,
      and no named constraint spans lines. */
  lemma TableReadBackExact(t: TableDef)
    requires Scanner.AllItems(Items(t)) && (forall c :: c in t.columns ==> ColumnReadBack.Printable(c))
    requires forall c :: c in t.constraints ==> Stated(c)
    ensures ReadColumnList(TableBody(t)) == Listed(MergedColumns(t.columns), t.constraints)
            <==> (forall c :: c in t.columns ==> ComesBack(c)) && (forall c :: c in t.constraints ==> OneLine(c))
  {
    TableReadBack(t);
    KeptAll(t.columns);
    FirstLinesAll(t.constraints);
    hide Misread, OneLine, ComesBack, ReadColumnList, TableBody, Items, ColumnReadBack.Printable, Stated, FirstLines,
         Scanner.AllItems;
    assert [] + FirstLines(t.constraints) == FirstLines(t.constraints);
  }

  /** Whatever else it holds, a column whose name begins with one of four
      keywords is misread. */
  lemma KeywordNameMisread(c: Column, w: string)
    requires w in {"UNIQUE", "CHECK", "EXCLUDE", "LIKE"} && HasPrefix(Upper(c.name), w)
    ensures Misread(c)
  {
    var rest := NameFirst(c);
    FourWords(c.name, rest);
    hide ConstraintLine, ParseColumn, ColumnText, MatchesAt, TwoWords;
  }

  lemma NameFirst(c: Column) returns (rest: string)
    ensures ColumnText(c) == c.name + " " + rest
  {
    var parts := ColumnParts(c);
    assert parts[0] == c.name && |parts| > 1;
    rest := Join(parts[1..], " ");
    hide ColumnParts;
  }
}
