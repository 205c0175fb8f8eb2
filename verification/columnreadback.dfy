/** Reading back a printed column: what comes back, and exactly when that is the
    column that was printed. */
module ColumnReadBack {
  import opened Text
  import opened Ast
  import opened Patterns
  import opened Columns
  import opened Script
  import opened ColumnPrint

  /** Name, type, collation and default without the keywords the parser looks for,
      blanks included: a type may hold CHECK(x > 0). Inline constraints that begin
      with a word the parser splits at. */
  ghost predicate Printable(c: Column) {
    var t := c.dataType;
    && Name(c.name)
    && Solid(t) && FreeOfClauses(t) && Free(t, "COLLATE") && Free(t, "NULL") && Free(t, "DEFAULT")
    && !HasSuffix(Upper(t), "BY")
    && (c.collation != "" ==> CollationName(c.collation))
    && (c.default.Some? ==> Value(c.default.value))
    && (c.inline != [] ==> Solid(InlineText(c)) && BeginsWith(InlineText(c), CLAUSE_WORDS))
  }

  ghost predicate Value(d: string) { Solid(d) && FreeOfStops(d) && Free(d, "NULL") }

  /** What the parser makes of the printed column: the inline constraints come
      back as one. */
  function Merged(c: Column): Column {
    c.(inline := if InlineText(c) != "" then [InlineText(c)] else [])
  }

  // ---- What the clauses must not say ----

  /** What is printed behind NOT NULL. */
  function Tail(c: Column): string { DefaultText(c) + AfterBlank(InlineText(c)) }

  /** No COLLATE clause is taken out of the default or the constraints. */
  predicate KeepsCollation(c: Column) { c.collation != "" || FindCollate(Tail(c), 0) == NoClause }

  /** No NULL is taken out of them: with NOT NULL printed, that one is taken. */
  predicate KeepsNull(c: Column) { c.notNull || IndexCI(Tail(c), " NULL") < 0 }

  /** No DEFAULT is taken out of the constraints, and no constraint is taken for
      part of the default. */
  predicate KeepsDefault(c: Column) {
    if c.default.Some? then c.inline == [] || BeginsWith(InlineText(c), VALUE_STOPS) else NoBareDefault(InlineText(c))
  }

  predicate Kept(c: Column) { KeepsCollation(c) && KeepsNull(c) && KeepsDefault(c) }

  /** What is printed behind the name. */
  function Rest(c: Column): string { c.dataType + CollateText(c) + (NullText(c) + Tail(c)) }

  lemma InlineSolid(c: Column)
    requires Printable(c)
    ensures InlineText(c) != "" <==> c.inline != []
    ensures InlineText(c) != "" ==> Solid(InlineText(c))
  {
    hide Free, FreeOfStops, FreeOfClauses, Name, CollationName, BeginsWith;
  }

  lemma SpacedClauses(l: string)
    requires l != "" ==> Solid(l)
    ensures Clauses(AfterBlank(l))
  {
    if l != "" { assert AfterBlank(l)[|AfterBlank(l)| - 1] == l[|l| - 1]; }
  }

  lemma TailClauses(c: Column)
    requires Printable(c)
    ensures Clauses(Tail(c)) && (NullText(c) + Tail(c) != "" ==> (NullText(c) + Tail(c))[0] == ' ')
  {
    hide Free, FreeOfStops, FreeOfClauses, Name, CollationName, InlineText, BeginsWith;
    var l := InlineText(c);
    InlineSolid(c);
    SpacedClauses(l);
    if c.default.Some? {
      var d := c.default.value;
      var z := Tail(c);
      assert z[0] == ' ';
      assert Solid(d);
      if l != "" { assert z[|z| - 1] == l[|l| - 1]; } else { assert z[|z| - 1] == d[|d| - 1]; }
    } else {
      assert Tail(c) == AfterBlank(l);
    }
  }

  lemma Regroup(a: string, b: string, c: string, d: string)
    ensures a + b + c + d == a + (b + (c + d))
  {
    assert b + (c + d) == b + c + d;
  }

  lemma PrintedShape(c: Column)
    ensures c.name + " " + c.dataType + CollateText(c) + NullText(c) + DefaultText(c) + AfterBlank(InlineText(c))
            == c.name + " " + Rest(c)
  {
    var n, t, x := c.name + " ", c.dataType, CollateText(c);
    var y, d, l := NullText(c), DefaultText(c), AfterBlank(InlineText(c));
    assert Rest(c) == t + x + (y + (d + l));
    hide *;
    Regroup(t + x, y, d, l);
    assert n + t + x == n + (t + x);
    assert n + (t + x) + y == n + (t + x + y);
    assert n + (t + x + y) + d == n + (t + x + y + d);
    assert n + (t + x + y + d) + l == n + (t + x + y + d + l);
  }

  lemma SolidTail(a: string, b: string)
    requires Solid(a) && (b != "" ==> !IsSpace(b[|b| - 1]))
    ensures Solid(a + b)
  {
    var s := a + b;
    assert s[0] == a[0] && s[|s| - 1] == if b == "" then a[|a| - 1] else b[|b| - 1];
  }

  lemma CollateEnd(c: Column)
    requires c.collation != "" ==> CollationName(c.collation)
    ensures var x := CollateText(c); x != "" ==> !IsSpace(x[|x| - 1])
  {
    var x := CollateText(c);
    if c.collation != "" { assert x[|x| - 1] == c.collation[|c.collation| - 1]; }
  }

  lemma NullEnd(c: Column)
    ensures var x := NullText(c); x != "" ==> !IsSpace(x[|x| - 1])
  {
  }

  lemma RestSolid(c: Column)
    requires Printable(c)
    ensures Solid(Rest(c))
  {
    var t, z := c.dataType, Tail(c);
    TailClauses(c);
    CollateEnd(c);
    NullEnd(c);
    hide Free, FreeOfStops, FreeOfClauses, InlineText, DefaultText, BeginsWith, Name, CollateText, NullText,
         Solid, AfterBlank, Tail;
    SolidTail(t, CollateText(c));
    SolidTail(t + CollateText(c), NullText(c));
    SolidTail(t + CollateText(c) + NullText(c), z);
    AssociateThree(t + CollateText(c), NullText(c), z);
  }

  /** What is printed behind the type, if anything, begins with a blank. */
  lemma RestMore(c: Column) returns (more: string)
    requires Printable(c)
    ensures Rest(c) == c.dataType + more && (more != "" ==> more[0] == ' ')
  {
    TailClauses(c);
    var x, y := CollateText(c), NullText(c) + Tail(c);
    more := x + y;
    AssociateThree(c.dataType, x, y);
    hide Tail, NullText;
  }

  lemma RestLonger(c: Column)
    requires Printable(c)
    ensures Rest(c) != c.dataType <==> c.collation != "" || c.notNull || c.default.Some? || c.inline != []
  {
    InlineSolid(c);
    hide InlineText;
    assert |Rest(c)| == |c.dataType| + |CollateText(c)| + |NullText(c)| + |Tail(c)|;
    if CollateText(c) == "" && NullText(c) == "" && Tail(c) == "" {
      assert c.dataType + "" + ("" + "") == c.dataType;
    }
  }

  /** What the parser makes of a printed column, losses included. */
  function ReadAgain(c: Column): Column { ParseClauses(c.name, Rest(c)) }

  /** The name is read first; the rest is the printed clauses. */
  lemma StartsParse(c: Column)
    requires Printable(c)
    ensures ParseColumn(ColumnText(c)) == Parsed(ReadAgain(c))
  {
    InlineSolid(c);
    TextIs(c);
    PrintedShape(c);
    RestSolid(c);
    ReadsName(c.name, Rest(c));
    hide TrimSpace, ExtractIdent, ParseClauses, ColumnText, Rest, Solid;
  }

  // ---- Stage 1: the collation is taken out ----

  /** The type with NOT NULL behind it. */
  lemma TypeNotNull(c: Column)
    requires Printable(c)
    ensures var t := c.dataType + NullText(c); Solid(t) && Free(t, "COLLATE")
  {
    var t := c.dataType;
    NullEnd(c);
    SolidTail(t, NullText(c));
    LiteralsFree();
    hide Free;
    if c.notNull {
      FreeJoin(t, "NOT", "COLLATE");
      FreeJoin(t + " " + "NOT", "NULL", "COLLATE");
      assert t + " " + "NOT" + " " + "NULL" == t + NullText(c);
    } else {
      assert t + "" == t;
    }
  }

  /** With no collation printed, one is found exactly when the tail holds one. */
  lemma CollateFound(c: Column)
    requires Printable(c) && c.collation == ""
    ensures FindCollate(Rest(c), 0) == Moved(FindCollate(Tail(c), 0), |c.dataType + NullText(c)|)
  {
    TypeNotNull(c);
    TailClauses(c);
    hide Free, FreeOfClauses, FindCollate, Tail, NullText, Solid;
    ClauseInTail(c.dataType + NullText(c), Tail(c));
    assert Rest(c) == c.dataType + NullText(c) + Tail(c) by { RestPlain(c); }
  }

  lemma RestPlain(c: Column)
    requires c.collation == ""
    ensures Rest(c) == c.dataType + (NullText(c) + Tail(c)) == c.dataType + NullText(c) + Tail(c)
  {
    hide NullText, Tail;
    assert c.dataType + "" == c.dataType;
    AssociateThree(c.dataType, NullText(c), Tail(c));
  }

  lemma StageCollate(c: Column)
    requires Printable(c)
    ensures KeepsCollation(c) ==> WithoutCollate(Rest(c)) == (c.collation, c.dataType + (NullText(c) + Tail(c)))
    ensures !KeepsCollation(c) ==> WithoutCollate(Rest(c)).0 != c.collation
  {
    hide Free, FreeOfClauses, FindCollate, Tail, NullText, InlineText;
    TailClauses(c);
    if c.collation == "" {
      CollateFound(c);
      RestPlain(c);
      ClauseNamed(Rest(c));
    } else {
      TakesCollation(c.dataType, c.collation, NullText(c) + Tail(c));
    }
  }

  /** A clause that is found has a name. */
  lemma {:induction false} ClauseNames(s: string, i: nat)
    requires i <= |s|
    ensures var f := FindCollate(s, i); f.Clause? ==> f.name < f.to
    decreases |s| - i
  {
    hide SkipSpaces, MatchesAt, CollationEnd;
    if i < |s| { ClauseNames(s, i + 1); }
  }

  lemma ClauseNamed(s: string)
    ensures WithoutCollate(s) == ("", s) <==> FindCollate(s, 0) == NoClause
    ensures WithoutCollate(s).0 == "" <==> FindCollate(s, 0) == NoClause
  {
    ClauseNames(s, 0);
    hide FindCollate;
  }

  // ---- Stage 2: NOT NULL is taken out ----

  lemma WithNotNull(t: string, z: string)
    requires Solid(t) && Free(t, "NULL") && Clauses(z)
    ensures WithoutNull(t + (" NOT NULL" + z)) == (true, t + (if z != "" then " " else "") + z)
  {
    ReadsNotNull(t, z);
    hide *;
    AssociateThree(t, " NOT NULL", z);
    assert z == "" ==> t + "" + z == t;
  }

  /** The blank that taking out NOT NULL leaves behind the type. */
  function GapOf(c: Column): string { if c.notNull && Tail(c) != "" then " " else "" }

  lemma StageNull(c: Column)
    requires Printable(c) && KeepsNull(c)
    ensures WithoutNull(c.dataType + (NullText(c) + Tail(c))) == (c.notNull, c.dataType + GapOf(c) + Tail(c))
  {
    hide Free, FreeOfStops, FreeOfClauses, BeginsWith, CollationName, Name, Solid, WithoutNull, HasSuffix, Clauses, Tail,
         IndexCI, InlineText, Value;
    var t, z := c.dataType, Tail(c);
    TailClauses(c);
    if c.notNull {
      WithNotNull(t, z);
    } else {
      ReadsNoNull(t, z);
      assert t + ("" + z) == t + z && t + "" + z == t + z;
    }
  }

  // ---- Stage 3: the default is taken out ----

  lemma NothingBare()
    ensures NoBareDefault("")
  {
  }

  lemma DefaultShape(a: string, d: string, tail: string)
    ensures a + (" DEFAULT " + d + tail) == a + DEFAULT + (d + tail)
  {
  }

  lemma WithDefault(t: string, gap: string, d: string, l: string)
    requires Solid(t) && Gap(gap) && Free(t, "DEFAULT") && !HasSuffix(Upper(t), "BY") && Value(d)
    requires l != "" ==> Solid(l) && BeginsWith(l, VALUE_STOPS)
    ensures WithoutDefault(t + gap + (" DEFAULT " + d + AfterBlank(l))) == (Some(d), t + "" + AfterBlank(l))
  {
    ReadsDefault(t, gap, d, l);
    hide *;
    DefaultShape(t + gap, d, AfterBlank(l));
    assert t + "" == t;
  }

  lemma WithNoDefault(t: string, gap: string, l: string)
    requires Solid(t) && Gap(gap) && Free(t, "DEFAULT") && NoBareDefault(l) && (l == "" ==> gap == "")
    ensures WithoutDefault(t + gap + AfterBlank(l)) == (None, t + gap + AfterBlank(l))
  {
    if l == "" {
      assert t + gap + "" == t;
      NoDefaultAtAll(t);
    } else {
      SkipsDefault(t, gap, l);
      hide *;
      AssociateThree(t + gap, " ", l);
    }
  }

  lemma StageDefault(c: Column)
    requires Printable(c) && KeepsDefault(c)
    ensures WithoutDefault(c.dataType + GapOf(c) + Tail(c))
            == (c.default, c.dataType + (if c.default.Some? then "" else GapOf(c)) + AfterBlank(InlineText(c)))
  {
    var t, l := c.dataType, InlineText(c);
    InlineSolid(c);
    hide Free, FreeOfStops, FreeOfClauses, InlineText, BeginsWith, NoBareDefault, CollationName, Name, Trimmed, Solid,
         WithoutDefault, HasSuffix, Value;
    if c.default.Some? {
      WithDefault(t, GapOf(c), c.default.value, l);
    } else {
      assert Tail(c) == AfterBlank(l);
      WithNoDefault(t, GapOf(c), l);
    }
  }

  // ---- Stage 4: the inline constraints are split from the type ----

  lemma StageType(c: Column)
    requires Printable(c)
    ensures var (dataType, inline) :=
              SplitTypeAndConstraints(c.dataType + (if c.default.Some? then "" else GapOf(c)) + AfterBlank(InlineText(c)));
            TrimSpace(dataType) == c.dataType && inline == InlineText(c)
  {
    var t, l := c.dataType, InlineText(c);
    InlineSolid(c);
    assert c.default.None? && l == "" ==> Tail(c) == "";
    hide Free, FreeOfStops, FreeOfClauses, InlineText, BeginsWith, CollationName, Name;
    ReadsType(t, if c.default.Some? then "" else GapOf(c), l);
  }

  /** When the clauses keep what is theirs, parsing the printed column recovers
      its name, type, collation, NOT NULL and default, with the inline
      constraints as one text. */
  lemma ColumnRoundTrip(c: Column)
    requires Printable(c) && Kept(c)
    ensures ParseColumn(ColumnText(c)) == Parsed(Merged(c))
  {
    StartsParse(c);
    StageCollate(c);
    StageNull(c);
    StageDefault(c);
    StageType(c);
    hide TrimSpace, WithoutCollate, WithoutNull, WithoutDefault, SplitTypeAndConstraints, Printable, ColumnText, InlineText,
         NullText, Rest, Tail, GapOf, AfterBlank, KeepsCollation, KeepsNull, KeepsDefault;
  }

  /** Printing what was read gives the printed text again. */
  lemma MergedText(c: Column)
    requires c.inline == [] || InlineText(c) != ""
    ensures ColumnText(Merged(c)) == ColumnText(c)
  {
    TextIs(c);
    var m := Merged(c);
    assert InlineText(m) == InlineText(c) by { if InlineText(c) != "" { assert m.inline == [InlineText(c)]; } }
    hide ColumnText, InlineText;
    TextIs(m);
  }

  // ---- When something is lost ----

  /** The last two stages invent nothing: what they return is no longer than
      what they were given. */
  lemma NothingInvented(r: string)
    ensures var (default, r3) := WithoutDefault(r);
            var (dataType, inline) := SplitTypeAndConstraints(r3);
            |TrimSpace(dataType)| + |inline| + (if default.Some? then 8 + |default.value| else 0) <= |r|
  {
    DefaultShrinks(r);
    var r3 := WithoutDefault(r).1;
    TypeShrinks(r3);
    hide WithoutDefault, SplitTypeAndConstraints, TrimSpace;
  }

  lemma TypeShrinks(s: string)
    ensures var (dataType, inline) := SplitTypeAndConstraints(s); |TrimSpace(dataType)| + |inline| <= |s|
  {
    hide Earliest, TrimSpace;
    var n := Earliest(s, CLAUSE_WORDS);
    TrimShorter(s[..n]);
    TrimShorter(s[n..]);
    TrimShorter(s);
    TrimShorter(TrimSpace(s[..n]));
  }

  lemma DefaultShrinks(r: string)
    ensures var (default, r3) := WithoutDefault(r);
            |r3| + (if default.Some? then 8 + |default.value| else 0) <= |r|
  {
    hide Earliest, TrimSpace, AfterBy;
    var idx := IndexCI(r, DEFAULT);
    if idx >= 0 && !AfterBy(r, idx) {
      var after := r[idx + |DEFAULT|..];
      var n := Earliest(after, STOP_WORDS);
      TrimShorter(after[..n]);
      TrimShorter(after[n..]);
      TrimShorter(TrimSpace(after[n..]));
      TrimShorter(r[..idx]);
      TrimShorter(TrimSpace(r[..idx]) + " " + TrimSpace(TrimSpace(after[n..])));
    }
  }

  /** Without NOT NULL printed, a NULL in the tail is taken out: NOT NULL is read
      or five characters are gone. */
  lemma NullTaken(c: Column)
    requires Printable(c) && !KeepsNull(c)
    ensures var (notNull, r) := WithoutNull(c.dataType + (NullText(c) + Tail(c)));
            notNull || |r| + 5 <= |c.dataType + Tail(c)|
  {
    hide Free, FreeOfStops, FreeOfClauses, BeginsWith, CollationName, Name, Solid, HasSuffix, Clauses, Tail, IndexCI,
         TrimSpace, InlineText, Value;
    var t, z := c.dataType, Tail(c);
    TailClauses(c);
    NullInTail(t, z);
    assert t + ("" + z) == t + z;
    TrimShorter(RemoveFirst(t + z, " NULL"));
  }

  lemma TailLength(c: Column)
    requires c.inline == [] ==> InlineText(c) == ""
    ensures |Tail(c)| <= 1 + |InlineText(c)| + if c.default.Some? then 9 + |c.default.value| else 0
  {
    hide InlineText;
  }

  lemma NullLost(c: Column)
    requires Printable(c) && KeepsCollation(c) && !KeepsNull(c)
    ensures ReadAgain(c) != Merged(c)
  {
    StageCollate(c);
    NullTaken(c);
    InlineSolid(c);
    TailLength(c);
    NothingInvented(WithoutNull(c.dataType + (NullText(c) + Tail(c))).1);
    hide TrimSpace, WithoutCollate, WithoutNull, WithoutDefault, SplitTypeAndConstraints, Printable, InlineText,
         NullText, Rest, Tail, KeepsCollation;
  }

  lemma CollationLost(c: Column)
    requires Printable(c) && !KeepsCollation(c)
    ensures ReadAgain(c) != Merged(c)
  {
    StageCollate(c);
    hide TrimSpace, WithoutCollate, WithoutNull, WithoutDefault, SplitTypeAndConstraints, Printable, InlineText, Rest,
         KeepsCollation;
  }

  /** A clause word at the head leaves no room for a DEFAULT before position 3. */
  lemma DefaultFar(l: string)
    requires BeginsWith(l, CLAUSE_WORDS) && Solid(l)
    ensures var i := IndexCI(" " + l, DEFAULT); i < 0 || i >= 3
  {
    hide CLAUSE_WORDS, Upper, OccursAt, BeginsWith, Solid, IndexFrom;
    var s := " " + l;
    var u := Upper(s);
    HeadLetters(l);
    IndexFromFirst(u, DEFAULT, 0);
    var i := IndexCI(s, DEFAULT);
    assert DEFAULT[0] == ' ' && DEFAULT[1] == 'D';
    OccursHas(u, DEFAULT, i, 0);
    OccursHas(u, DEFAULT, i, 1);
  }

  lemma HeadLetters(l: string)
    requires BeginsWith(l, CLAUSE_WORDS)
    ensures var u := Upper(" " + l); |u| > 2 && u[1] !in {'D', ' '} && u[2] != ' '
  {
    var k :| k in CLAUSE_WORDS && OccursAt(Upper(l), k, 0);
    ClauseHead(k);
    hide CLAUSE_WORDS;
    OccursHas(Upper(l), k, 0, 0);
    OccursHas(Upper(l), k, 0, 1);
    assert Upper(" " + l)[1] == Upper(l)[0] && Upper(" " + l)[2] == Upper(l)[1];
  }

  lemma ClauseHead(k: string)
    requires k in CLAUSE_WORDS
    ensures |k| > 1 && k[0] !in {'D', 'N', ' '} && k[1] != ' '
  {
  }

  /** A DEFAULT in the constraints that does not follow BY is taken out. */
  lemma BareDefaultTaken(t: string, gap: string, l: string)
    requires Gap(gap) && Free(t, "DEFAULT") && !NoBareDefault(l) && Solid(l) && BeginsWith(l, CLAUSE_WORDS)
    ensures WithoutDefault(t + gap + AfterBlank(l)).0.Some?
  {
    hide IndexCI, Free, TrimSpace, Solid, BeginsWith, AfterBy, ExtractDefaultValue;
    var a, tail := t + gap, " " + l;
    GapFree(t, gap, "DEFAULT");
    DefaultInTail(a, l);
    DefaultFar(l);
    SameWindow(a, tail);
    SolidFull(l);
  }

  lemma NotAtHead(d: string, l: string)
    requires l != "" && BeginsWith(l, CLAUSE_WORDS) && !BeginsWith(l, VALUE_STOPS)
    ensures forall k :: k in STOP_WORDS ==> !OccursAt(Upper(d + (" " + l)), k, |d| + 1)
  {
    KeywordLists();
    NotNullFirst(l, CLAUSE_WORDS);
    AssociateThree(d, " ", l);
    hide CLAUSE_WORDS;
    forall k | k in STOP_WORDS ensures !OccursAt(Upper(d + (" " + l)), k, |d| + 1) {
      OccursRight(d + " ", l, k, |d| + 1);
      if k in VALUE_STOPS {
        assert !OccursAt(Upper(l), k, 0);
      } else {
        OccursRight(" ", l, "NULL", 1);
        NotNull(l);
      }
    }
  }

  lemma NotNull(l: string)
    requires BeginsWith(l, CLAUSE_WORDS)
    ensures !OccursAt(Upper(l), "NOT NULL", 0) && !OccursAt(Upper(l), "NULL", 0)
  {
    KeywordLists();
    var k :| k in CLAUSE_WORDS && OccursAt(Upper(l), k, 0);
    hide CLAUSE_WORDS;
    OccursHas(Upper(l), k, 0, 0);
    OccursHas(Upper(l), "NOT NULL", 0, 0);
    OccursHas(Upper(l), "NULL", 0, 0);
  }

  lemma ValueRunsOn(d: string, l: string)
    requires FreeOfStops(d) && Free(d, "NULL") && l != "" && BeginsWith(l, CLAUSE_WORDS) && !BeginsWith(l, VALUE_STOPS)
    ensures Earliest(d + AfterBlank(l), STOP_WORDS) >= |d| + 2
  {
    hide Free, FreeOfStops, Earliest, STOP_WORDS, CLAUSE_WORDS, VALUE_STOPS, BeginsWith, OccursAt, Upper;
    var s := d + (" " + l);
    KeywordLists();
    NotNullFirst(l, CLAUSE_WORDS);
    StopsBefore(d, " " + l);
    NotAtHead(d, l);
    forall k, p | k in STOP_WORDS && p < |d| + 2 ensures !OccursAt(Upper(s), k, p) {
      if p <= |d| { assert NoneBefore(s, STOP_WORDS, |d| + 1); }
    }
    EarliestBound(s, STOP_WORDS, |d| + 2);
  }

  /** Trimming does not cut a visible character off. */
  lemma TrimKeepsVisible(y: string, d: string)
    requires Solid(d) && |y| > |d| + 1 && !IsSpace(y[0]) && !IsSpace(y[|d| + 1])
    ensures TrimSpace(y) != d
  {
    hide TrimSpace, IsSpace, AllSpace;
    var i, j := TrimSpaceCuts(y);
    OuterSpace(y, i, j);
    assert |y[i..j]| == j - i;
  }

  /** A constraint the parser does not stop at becomes part of the default. */
  lemma DefaultRunsOn(t: string, gap: string, d: string, l: string)
    requires Solid(t) && Gap(gap) && Free(t, "DEFAULT") && !HasSuffix(Upper(t), "BY") && Value(d)
    requires Solid(l) && BeginsWith(l, CLAUSE_WORDS) && !BeginsWith(l, VALUE_STOPS)
    ensures WithoutDefault(t + gap + (" DEFAULT " + d + AfterBlank(l))).0 != Some(d)
  {
    hide IndexCI, AfterBy, TrimSpace, Free, FreeOfStops, AfterBlank, Solid, HasSuffix, BeginsWith, ExtractDefaultValue;
    var rest := d + AfterBlank(l);
    ValueLonger(d, l);
    FindsDefault(t, gap, rest);
    AssociateThree(t + gap, DEFAULT, rest);
    NotAfterBy(t, gap, DEFAULT + rest);
    CutsAround(t + gap, rest);
    DefaultShape(t + gap, d, AfterBlank(l));
  }

  lemma ValueLonger(d: string, l: string)
    requires Value(d) && Solid(l) && BeginsWith(l, CLAUSE_WORDS) && !BeginsWith(l, VALUE_STOPS)
    ensures ExtractDefaultValue(d + AfterBlank(l)).0 != d
  {
    var rest := d + AfterBlank(l);
    ValueRunsOn(d, l);
    assert rest[0] == d[0] && rest[|d| + 1] == l[0];
    hide Earliest, TrimSpace, Free, FreeOfStops, BeginsWith, STOP_WORDS, CLAUSE_WORDS, VALUE_STOPS;
    var n := Earliest(rest, STOP_WORDS);
    TrimKeepsVisible(rest[..n], d);
  }

  lemma DefaultLost(c: Column)
    requires Printable(c) && KeepsCollation(c) && KeepsNull(c) && !KeepsDefault(c)
    ensures ReadAgain(c) != Merged(c)
  {
    hide Free, FreeOfStops, FreeOfClauses, InlineText, BeginsWith, NoBareDefault, CollationName, Name, Trimmed, Solid,
         WithoutDefault, HasSuffix, Value, TrimSpace, WithoutCollate, WithoutNull, SplitTypeAndConstraints, Rest,
         KeepsCollation, KeepsNull;
    StageCollate(c);
    StageNull(c);
    InlineSolid(c);
    NothingBare();
    var t, l := c.dataType, InlineText(c);
    if c.default.Some? {
      DefaultRunsOn(t, GapOf(c), c.default.value, l);
    } else {
      assert c.inline != [];
      assert Tail(c) == AfterBlank(l);
      BareDefaultTaken(t, GapOf(c), l);
    }
  }

  /** The printed column is read back exactly when no COLLATE is found in its
      clauses unless one was printed, no NULL unless NOT NULL was, and the
      default ends where the printer ended it. */
  lemma ColumnRoundTripExact(c: Column)
    requires Printable(c)
    ensures ParseColumn(ColumnText(c)) == Parsed(Merged(c)) <==> Kept(c)
  {
    hide ParseColumn, ColumnText, ReadAgain, Printable, KeepsCollation, KeepsNull, KeepsDefault, Merged;
    StartsParse(c);
    if Kept(c) {
      ColumnRoundTrip(c);
    } else if !KeepsCollation(c) {
      CollationLost(c);
    } else if !KeepsNull(c) {
      NullLost(c);
    } else {
      DefaultLost(c);
    }
  }

  // ---- Ordinary columns that are not read back ----

  lemma {:induction false} NoCollation(s: string, i: nat)
    requires i <= |s| && Free(s, "COLLATE")
    ensures FindCollate(s, i) == NoClause
    decreases |s| - i
  {
    if i < |s| {
      assert Upper("COLLATE") == "COLLATE";
      MatchIsOccurrence(s, "COLLATE", SkipSpaces(s, i));
      NoCollation(s, i + 1);
    }
  }

  /** A NOT NULL inside a constraint is read as the column's own. */
  lemma NotNullGained(c: Column)
    requires Printable(c) && KeepsCollation(c) && IndexCI(Tail(c), "NOT NULL") >= 0
    ensures ReadAgain(c).notNull
  {
    StageCollate(c);
    var t, z := c.dataType, NullText(c) + Tail(c);
    hide Rest, Printable, KeepsCollation, WithoutCollate, Tail, NullText, WithoutDefault, SplitTypeAndConstraints, TrimSpace;
    OccursBehind(NullText(c), Tail(c), "NOT NULL");
    OccursBehind(t, z, "NOT NULL");
  }

  lemma OccursBehind(a: string, z: string, w: string)
    requires IndexCI(z, w) >= 0
    ensures IndexCI(a + z, w) >= 0
  {
    IndexFromFirst(Upper(z), w, 0);
    IndexFromFirst(Upper(a + z), w, 0);
    OccursRight(a, z, w, |a| + IndexCI(z, w));
  }

  lemma NoStraddle(y: string, p: nat)
    requires p < |y| && !OccursAt(Upper(y), " NULL", p)
    ensures !OccursAt(Upper(y + " NULL"), " NULL", p)
  {
    if p + 5 <= |y| {
      OccursLeft(y, " NULL", " NULL", p);
    } else {
      assert Upper(y + " NULL")[|y|] == ' ';
      OccursHas(Upper(y + " NULL"), " NULL", p, |y| - p);
    }
  }

  /** The first NULL of a text that ends in its only one. */
  lemma LastNull(y: string)
    requires IndexCI(y, " NULL") < 0 && !HasSuffix(Upper(y), "NOT")
    ensures IndexCI(y + " NULL", " NULL") == |y| && IndexCI(y + " NULL", "NOT NULL") < 0
  {
    var s := y + " NULL";
    IndexFromFirst(Upper(y), " NULL", 0);
    forall p | 0 <= p < |y| ensures !OccursAt(Upper(s), " NULL", p) { NoStraddle(y, p); }
    assert OccursAt(Upper(s), " NULL", |y|) by { assert Upper(s)[|y|..|y| + 5] == " NULL"; }
    FirstOccurrence(Upper(s), " NULL", 0, |y|);
    NoNotNull(y);
    hide Upper, OccursAt, HasSuffix;
  }

  lemma NoNotNull(y: string)
    requires IndexCI(y + " NULL", " NULL") == |y| && !HasSuffix(Upper(y), "NOT")
    ensures IndexCI(y + " NULL", "NOT NULL") < 0
  {
    var s := y + " NULL";
    var k := IndexCI(s, "NOT NULL");
    IndexFromFirst(Upper(s), "NOT NULL", 0);
    IndexFromFirst(Upper(s), " NULL", 0);
    if k >= 0 {
      assert "NOT" + " NULL" == "NOT NULL";
      TailOccurs(s, "NOT", " NULL", k);
      NotEnds(y, k);
    }
  }

  lemma NotEnds(y: string, k: nat)
    requires OccursAt(Upper(y + " NULL"), "NOT NULL", k) && k + 3 >= |y|
    ensures HasSuffix(Upper(y), "NOT")
  {
    var u, w := Upper(y + " NULL"), "NOT NULL";
    assert |u| == |y| + 5 && k + 3 == |y|;
    assert w[0] == 'N' && w[1] == 'O' && w[2] == 'T';
    OccursHas(u, w, k, 0);
    OccursHas(u, w, k, 1);
    OccursHas(u, w, k, 2);
    assert forall i :: 0 <= i < |y| ==> Upper(y)[i] == u[i];
    assert Upper(y)[k..] == [u[k], u[k + 1], u[k + 2]];
  }

  /** A constraint that ends in NULL loses it: `ON DELETE SET NULL` comes back as
      `ON DELETE SET`. */
  lemma TrailingNullLost(c: Column, x: string)
    requires var kept := c.(inline := [x]);
             && c.inline == [x + " NULL"] && x != "" && !HasSuffix(Upper(x), "NOT")
             && !c.notNull && c.default.None? && c.collation == ""
             && Printable(kept) && Kept(kept) && Printable(c) && KeepsCollation(c)
    ensures ParseColumn(ColumnText(c)) == Parsed(c.(inline := [x]))
  {
    var kept := c.(inline := [x]);
    var t := c.dataType;
    ColumnRoundTrip(kept);
    StartsParse(kept);
    StartsParse(c);
    StageCollate(kept);
    StageCollate(c);
    StageNull(kept);
    TailIs(c, x + " NULL");
    TailIs(kept, x);
    TrailingNullTaken(t, x);
    hide ParseColumn, ColumnText, Printable, KeepsCollation, KeepsDefault, WithoutCollate, WithoutNull, WithoutDefault,
         SplitTypeAndConstraints, Rest, Tail, TrimSpace, IndexCI;
    assert Merged(kept) == kept by { assert InlineText(kept) == x; }
  }

  lemma TailIs(c: Column, l: string)
    requires c.inline == [l] && l != "" && c.default.None? && !c.notNull
    ensures Tail(c) == " " + l && GapOf(c) == "" && c.dataType + (NullText(c) + Tail(c)) == c.dataType + " " + l
    ensures c.dataType + GapOf(c) + Tail(c) == c.dataType + " " + l
  {
    var t := c.dataType;
    assert InlineText(c) == l;
    assert "" + (" " + l) == " " + l;
    AssociateThree(t, " ", l);
    assert t + "" == t;
  }

  lemma TrailingNullTaken(t: string, x: string)
    requires Solid(t) && Free(t, "NULL") && Solid(x) && IndexCI(" " + x, " NULL") < 0 && !HasSuffix(Upper(x), "NOT")
    ensures WithoutNull(t + " " + (x + " NULL")) == (false, t + " " + x)
  {
    var y := t + " " + x;
    assert Trimmed(y) && Clauses(" " + x) by { assert y[0] == t[0] && y[|y| - 1] == x[|x| - 1]; }
    hide IndexCI, TrimSpace, HasSuffix, Upper, Free, Solid, Clauses, Trimmed;
    SolidFull(x);
    AssociateThree(t, " ", x);
    NullInTail(t, " " + x);
    assert t + " " + (x + " NULL") == y + " NULL";
    SuffixInside(t, x);
    LastNull(y);
    TrimSpaceKeepsTrimmed(y);
    NullCut(y);
  }

  lemma NullCut(y: string)
    ensures (y + " NULL")[..|y|] == y && (y + " NULL")[|y| + 5..] == "" && y + "" == y
  {
  }

  lemma SuffixInside(t: string, x: string)
    requires x != "" && !HasSuffix(Upper(x), "NOT")
    ensures !HasSuffix(Upper(t + " " + x), "NOT")
  {
    var u := Upper(t + " " + x);
    if |x| >= 3 {
      assert Upper(x)[|x| - 3..] == u[|u| - 3..];
    } else {
      assert u[|t|] == ' ';
      SuffixHas(u, "NOT", 2 - |x|);
    }
  }

  lemma NoUnder(s: string, w: string, c: char)
    requires c in w && c !in Upper(s)
    ensures Free(s, w)
  {
    var i :| 0 <= i < |w| && w[i] == c;
    var u := Upper(s);
    forall p ensures !OccursAt(u, w, p) {
      OccursHas(u, w, p, i);
    }
  }

  lemma LongKeywords()
    ensures FreeOfClauses("int")
  {
    assert |"int" + " "| == 4 && forall k :: k in CLAUSE_WORDS ==> |k| > 4;
    hide CLAUSE_WORDS;
    forall k | k in CLAUSE_WORDS ensures Free("int" + " ", k) { ShortFree("int" + " ", k); }
  }

  lemma IntColumn()
    ensures Name("parent_id") && Solid("int") && FreeOfClauses("int")
    ensures Free("int", "COLLATE") && Free("int", "NULL") && Free("int", "DEFAULT") && !HasSuffix(Upper("int"), "BY")
  {
    ShortFree("int", "COLLATE");
    ShortFree("int", "NULL");
    ShortFree("int", "DEFAULT");
    LongKeywords();
    hide Free;
    assert Upper("int") == "INT";
  }

  function ParentId(x: string): Column { Column("parent_id", "int", "", false, None, [x]) }

  lemma NothingFound(x: string)
    requires 'A' !in Upper(x)
    ensures FindCollate(" " + x, 0) == NoClause && NoBareDefault(x)
  {
    var s := " " + x;
    assert Upper(s) == " " + Upper(x);
    assert 'A' in "COLLATE" && 'A' in DEFAULT by { assert "COLLATE"[4] == 'A' && DEFAULT[4] == 'A'; }
    NoUnder(s, "COLLATE", 'A');
    NoUnder(s, DEFAULT, 'A');
    hide Upper, FindCollate, OccursAt;
    NoCollation(s, 0);
    IndexFromFirst(Upper(s), DEFAULT, 0);
  }

  lemma SolidFull(x: string)
    requires Solid(x)
    ensures x != ""
  {
  }

  lemma InlineIs(x: string)
    ensures InlineText(ParentId(x)) == x
  {
  }

  /** A reference without the letter A names no COLLATE and no DEFAULT. */
  lemma PlainReference(x: string)
    requires Solid(x) && OccursAt(Upper(x), "REFERENCES ", 0) && 'A' !in Upper(x)
    ensures var c := ParentId(x);
            && InlineText(c) == x && Tail(c) == " " + x && Printable(c) && KeepsCollation(c) && KeepsDefault(c)
  {
    hide Free, FreeOfClauses, Name, FindCollate, NoBareDefault, InlineText, Upper, OccursAt, Solid, HasSuffix, Tail;
    IntColumn();
    assert BeginsWith(x, CLAUSE_WORDS) by { assert "REFERENCES " in CLAUSE_WORDS; }
    SolidFull(x);
    InlineIs(x);
    TailIs(ParentId(x), x);
    NothingFound(x);
  }

  lemma ReferenceText(x: string)
    ensures ColumnText(ParentId(x)) == "parent_id int " + x
  {
    var p := ["parent_id", "int"] + [x];
    assert ColumnParts(ParentId(x)) == p;
    hide ColumnParts;
    assert p[0] == "parent_id" && p[1..] == ["int", x] && ["int", x][1..] == [x];
    assert Join([x], " ") == x;
    assert Join(["int", x], " ") == "int" + " " + x;
    assert Join(p, " ") == "parent_id" + " " + ("int" + " " + x);
    assert "parent_id" + " " + ("int" + " " + x) == "parent_id int " + x;
  }

  lemma SetText()
    ensures var x := SET_ACTION;
            && Upper(x) == "REFERENCES NODES(ID) ON DELETE SET"
            && Upper(x + " NULL") == Upper(x) + " NULL" && Solid(x) && Solid(x + " NULL")
  {
  }

  lemma SetUpper(u: string)
    requires u == "REFERENCES NODES(ID) ON DELETE SET"
    ensures 'A' !in u && 'A' !in u + " NULL" && 'U' !in u && !HasSuffix(u, "NOT")
    ensures OccursAt(u, "REFERENCES ", 0) && OccursAt(u + " NULL", "REFERENCES ", 0)
  {
    assert u[|u| - 3..] == "SET";
    assert u[0..11] == "REFERENCES ";
    assert (u + " NULL")[0..11] == u[0..11];
  }

  const SET_ACTION := "REFERENCES nodes(id) ON DELETE SET"

  /** Ordinary input: a reference with ON DELETE SET NULL comes back without the
      NULL, and so is printed differently the second time. */
  lemma SetNullLost()
    ensures ParseColumn(ColumnText(ParentId(SET_ACTION + " NULL"))) == Parsed(ParentId(SET_ACTION))
    ensures ColumnText(ParentId(SET_ACTION)) != ColumnText(ParentId(SET_ACTION + " NULL"))
  {
    hide ParseColumn, ColumnText;
    SetText();
    SetUpper(Upper(SET_ACTION));
    SetNullParsed(SET_ACTION);
    ReferenceText(SET_ACTION);
    ReferenceText(SET_ACTION + " NULL");
    assert |"parent_id int " + SET_ACTION| != |"parent_id int " + (SET_ACTION + " NULL")|;
  }

  lemma SetNullParsed(x: string)
    requires Solid(x) && Solid(x + " NULL") && OccursAt(Upper(x), "REFERENCES ", 0)
    requires OccursAt(Upper(x + " NULL"), "REFERENCES ", 0) && 'A' !in Upper(x) && 'A' !in Upper(x + " NULL")
    requires 'U' !in Upper(x) && !HasSuffix(Upper(x), "NOT")
    ensures ParseColumn(ColumnText(ParentId(x + " NULL"))) == Parsed(ParentId(x))
  {
    hide FindCollate, Printable, ParseColumn, Upper, ColumnText, InlineText, Tail, Solid, HasSuffix, KeepsCollation,
         KeepsDefault;
    SolidFull(x);
    PlainReference(x);
    PlainReference(x + " NULL");
    NoNullIn(x);
    assert ParentId(x + " NULL").(inline := [x]) == ParentId(x);
    TrailingNullLost(ParentId(x + " NULL"), x);
  }

  lemma NoNullIn(x: string)
    requires 'U' !in Upper(x)
    ensures IndexCI(" " + x, " NULL") < 0
  {
    assert Upper(" " + x) == " " + Upper(x);
    NoUnder(" " + x, " NULL", 'U');
    IndexFromFirst(Upper(" " + x), " NULL", 0);
  }
}
