/** Parsing a printed column gives the column back, and printing it again gives
    the same text. */
module ColumnPrint {
  import opened Text
  import opened Ast
  import opened Patterns
  import opened Columns
  import opened Script

  // ---- Words that do not occur ----

  /** The upper-case word never occurs in s, in any case. */
  ghost predicate Free(s: string, word: string) {
    forall p :: !OccursAt(Upper(s), word, p)
  }

  predicate Word(w: string) { w != "" && ' ' !in w }

  lemma UpperAppend(a: string, b: string)
    ensures Upper(a + b) == Upper(a) + Upper(b)
  {
  }

  lemma UpperSlice(s: string, i: nat, j: nat)
    requires i <= j <= |s|
    ensures Upper(s[i..j]) == Upper(s)[i..j]
  {
  }

  /** An occurrence in a + b that ends inside a is an occurrence in a. */
  lemma OccursLeft(a: string, b: string, w: string, p: int)
    requires p + |w| <= |a|
    ensures OccursAt(Upper(a + b), w, p) <==> OccursAt(Upper(a), w, p)
  {
    UpperAppend(a, b);
    if 0 <= p { assert Upper(a + b)[p..p + |w|] == Upper(a)[p..p + |w|]; }
  }

  lemma OccursRight(a: string, b: string, w: string, p: int)
    requires |a| <= p
    ensures OccursAt(Upper(a + b), w, p) <==> OccursAt(Upper(b), w, p - |a|)
  {
    UpperAppend(a, b);
    var u := Upper(a + b);
    if p + |w| <= |u| {
      assert u[p..p + |w|] == Upper(b)[p - |a|..p - |a| + |w|];
    }
  }

  /** A word cannot straddle a space: not in a means not up to the space after a. */
  lemma NotBefore(a: string, rest: string, w: string, p: int)
    requires Free(a, w) && Word(w) && (rest != "" ==> rest[0] == ' ') && p <= |a|
    ensures !OccursAt(Upper(a + rest), w, p)
  {
    var u := Upper(a + rest);
    assert rest != "" ==> u[|a|] == ' ';
    assert forall i :: 0 <= i < |w| ==> w[i] in w;
    if p + |w| <= |a| {
      OccursLeft(a, rest, w, p);
    } else if 0 <= p && p + |w| <= |u| {
      assert u[p..p + |w|][|a| - p] == u[|a|];
    }
  }

  lemma FreeJoin(a: string, b: string, w: string)
    requires Free(a, w) && Free(b, w) && Word(w)
    ensures Free(a + " " + b, w)
  {
    var s := a + (" " + b);
    assert a + " " + b == s;
    forall p ensures !OccursAt(Upper(s), w, p) {
      if p <= |a| {
        NotBefore(a, " " + b, w, p);
      } else {
        OccursRight(a + " ", b, w, p);
        assert a + " " + b == s;
      }
    }
  }

  lemma ShortFree(s: string, w: string)
    requires |s| < |w|
    ensures Free(s, w)
  {
  }

  lemma LiteralsFree()
    ensures Free("DEFAULT", "NULL") && Free("DEFAULT", "COLLATE") && Free("NULL", "COLLATE") && Free("NOT", "COLLATE")
    ensures Free("NOT", "NULL")
  {
    ShortFree("NULL", "COLLATE");
    ShortFree("NOT", "COLLATE");
    ShortFree("NOT", "NULL");
    var u := Upper("DEFAULT");
    assert u == "DEFAULT";
    forall p ensures !OccursAt(u, "NULL", p) && !OccursAt(u, "COLLATE", p) {
      if 0 <= p <= 3 { assert u[p..p + 4][0] != 'N'; }
      if p == 0 { assert u[0..7][0] == 'D'; }
    }
  }

  // ---- The printed pieces ----

  function CollateText(c: Column): string { if c.collation != "" then " COLLATE " + c.collation else "" }

  function NullText(c: Column): string { if c.notNull then " NOT NULL" else "" }

  function DefaultText(c: Column): string { if c.default.Some? then " DEFAULT " + c.default.value else "" }

  function InlineText(c: Column): string { Join(c.inline, " ") }

  function AfterBlank(s: string): string { if s != "" then " " + s else "" }

  lemma {:induction false} JoinAppend(a: seq<string>, b: seq<string>)
    requires a != [] && b != []
    ensures Join(a + b, " ") == Join(a, " ") + " " + Join(b, " ")
    decreases |a|
  {
    var s := a + b;
    if |a| == 1 {
      assert s[1..] == b && s[0] == a[0];
    } else {
      assert s[1..] == a[1..] + b && s[0] == a[0];
      JoinAppend(a[1..], b);
      var x, y, z := a[0] + " ", Join(a[1..], " "), Join(b, " ");
      assert x + (y + " " + z) == x + y + " " + z;
    }
  }

  lemma JoinMaybe(a: seq<string>, b: seq<string>)
    requires a != [] && |b| <= 1 && (b != [] ==> b[0] != "")
    ensures Join(a + b, " ") == Join(a, " ") + if b == [] then "" else " " + b[0]
  {
    if b == [] {
      assert a + b == a;
    } else {
      JoinAppend(a, b);
      var x := Join(a, " ");
      assert x + " " + b[0] == x + (" " + b[0]);
    }
  }

  /** A printed column is its name, its type and the optional clauses. */
  lemma TextIs(c: Column)
    requires c.inline == [] || InlineText(c) != ""
    ensures ColumnText(c) == c.name + " " + c.dataType + CollateText(c) + NullText(c) + DefaultText(c) + AfterBlank(InlineText(c))
  {
    var p0 := [c.name, c.dataType];
    var p1 := if c.collation != "" then ["COLLATE " + c.collation] else [];
    var p2 := if c.notNull then ["NOT NULL"] else [];
    var p3 := if c.default.Some? then ["DEFAULT " + c.default.value] else [];
    assert Join(p0, " ") == c.name + " " + c.dataType by { assert p0[1..] == [c.dataType]; }
    ClausesAre(c);
    hide Join, CollateText, NullText, DefaultText;
    JoinMaybe(p0, p1);
    JoinMaybe(p0 + p1, p2);
    JoinMaybe(p0 + p1 + p2, p3);
    InlineJoin(p0 + p1 + p2 + p3, c);
  }

  lemma ClausesAre(c: Column)
    ensures CollateText(c) == if c.collation != "" then " " + ("COLLATE " + c.collation) else ""
    ensures NullText(c) == if c.notNull then " " + "NOT NULL" else ""
    ensures DefaultText(c) == if c.default.Some? then " " + ("DEFAULT " + c.default.value) else ""
  {
    assert " " + ("COLLATE " + c.collation) == " COLLATE " + c.collation;
    if c.default.Some? { assert " " + ("DEFAULT " + c.default.value) == " DEFAULT " + c.default.value; }
  }

  lemma InlineJoin(parts: seq<string>, c: Column)
    requires parts != [] && (c.inline == [] || InlineText(c) != "")
    ensures Join(parts + c.inline, " ") == Join(parts, " ") + AfterBlank(InlineText(c))
  {
    if c.inline == [] {
      assert parts + c.inline == parts;
    } else {
      JoinAppend(parts, c.inline);
      var x, y := Join(parts, " "), InlineText(c);
      assert x + " " + y == x + (" " + y);
    }
  }

  // ---- Name ----

  predicate Name(s: string) {
    s != "" && s[0] != '"' && forall i :: 0 <= i < |s| ==> !IsSpace(s[i])
  }

  lemma {:induction false} NameEnds(s: string, n: nat, i: nat)
    requires i <= n < |s| && s[n] == ' ' && forall k :: i <= k < n ==> !IsSpace(s[k])
    ensures IdentEnd(s, i) == n
    decreases n - i
  {
    if i < n { NameEnds(s, n, i + 1); }
  }

  /** Non-empty and with visible ends. */
  predicate Solid(s: string) { s != "" && Trimmed(s) }

  lemma ReadsName(name: string, rest: string)
    requires Name(name) && Solid(rest)
    ensures var s := name + " " + rest; TrimSpace(s) == s && ExtractIdent(s) == (name, rest)
  {
    var s := name + " " + rest;
    assert s[0] == name[0] && s[|s| - 1] == rest[|rest| - 1];
    TrimSpaceKeepsTrimmed(s);
    assert forall k :: 0 <= k < |name| ==> s[k] == name[k];
    NameEnds(s, |name|, 0);
    assert s[|name|..] == " " + rest + "" && s[..|name|] == name;
    TrimSpaceUnpads(" ", rest, "");
  }

  // ---- Collation ----

  lemma MatchIsOccurrence(s: string, w: string, j: nat)
    requires Upper(w) == w
    ensures MatchesAt(s, j, w) <==> OccursAt(Upper(s), w, j)
  {
    if j + |w| <= |s| {
      var t := s[j..j + |w|];
      UpperSlice(s, j, j + |w|);
      if Lower(t) == Lower(w) {
        forall i | 0 <= i < |w| ensures Upper(t)[i] == w[i] { assert Lower(t)[i] == Lower(w)[i] && Upper(w)[i] == w[i]; }
        assert Upper(t) == w;
      }
      if Upper(t) == w {
        forall i | 0 <= i < |w| ensures Lower(t)[i] == Lower(w)[i] { assert Upper(t)[i] == w[i]; }
        assert Lower(t) == Lower(w);
      }
    }
  }

  /** A collation name: a bare word, or one quoted name. */
  predicate CollationName(s: string) {
    && s != ""
    && if s[0] == '"' then |s| > 1 && s[|s| - 1] == '"' && forall i :: 0 < i < |s| - 1 ==> s[i] != '"'
       else forall i :: 0 <= i < |s| ==> !IsSpace(s[i])
  }

  lemma {:induction false} QuotedStops(s: string, n: nat, p: nat)
    requires p <= n < |s| && s[n] == '"' && (n + 1 < |s| ==> s[n + 1] != '"')
    requires forall k :: p <= k < n ==> s[k] != '"'
    ensures QuotedEnd(s, p, -1) == n + 1
    decreases n - p
  {
    if p < n { QuotedStops(s, n, p + 1); }
  }

  lemma {:induction false} BareStops(s: string, n: nat, p: nat)
    requires p <= n <= |s| && (n < |s| ==> s[n] == ' ') && forall k :: p <= k < n ==> !IsSpace(s[k])
    ensures BlankEnd(s, p) == n
    decreases n - p
  {
    if p < n { BareStops(s, n, p + 1); }
  }

  lemma CollationStops(s: string, k: nat, name: string, rest: string)
    requires k <= |s| && s[k..] == name + rest && CollationName(name) && (rest != "" ==> rest[0] == ' ')
    ensures CollationEnd(s, k) == k + |name|
  {
    var n := k + |name|;
    assert forall i :: 0 <= i < |name| ==> s[k + i] == (name + rest)[i] == name[i];
    assert n < |s| ==> s[n] == (name + rest)[|name|] == ' ';
    if name[0] == '"' {
      assert s[n - 1] == name[|name| - 1];
      QuotedStops(s, n - 1, k + 1);
    } else {
      BareStops(s, n, k);
    }
  }

  lemma {:induction false} SkipStops(s: string, i: nat, n: nat)
    requires i <= n < |s| && !IsBlank(s[n])
    ensures i <= SkipSpaces(s, i) <= n
    decreases n - i
  {
    if i < n && IsBlank(s[i]) { SkipStops(s, i + 1, n); }
  }

  lemma InTail(t: string, u: string, i: nat, j: nat)
    requires i <= j <= |u|
    ensures (t + u)[|t| + i..|t| + j] == u[i..j] && (t + u)[|t| + i..] == u[i..]
    ensures i < |u| ==> (t + u)[|t| + i] == u[i]
  {
  }


  lemma OneBlank(s: string, i: nat)
    requires i + 1 < |s| && s[i] == ' ' && !IsBlank(s[i + 1])
    ensures SkipSpaces(s, i) == i + 1
  {
    assert SkipSpaces(s, i + 1) == i + 1;
  }

  lemma MatchesItself(s: string, i: nat, w: string)
    requires i + |w| <= |s| && s[i..i + |w|] == w
    ensures MatchesAt(s, i, w)
  {
  }

  lemma ClauseAt(s: string, i: nat, end: nat)
    requires i < |s| && SkipSpaces(s, i) == i + 1 && MatchesAt(s, i + 1, "COLLATE") && SkipSpaces(s, i + 8) == i + 9
    requires end > i + 9 && CollationEnd(s, i + 9) == end
    ensures FindCollate(s, i) == Clause(i, i + 9, end)
  {
    hide SkipSpaces, CollationEnd, MatchesAt;
  }

  lemma VisibleHead(name: string)
    requires CollationName(name)
    ensures !IsSpace(name[0])
  {
  }

  /** A text that starts with a COLLATE clause. */
  predicate ClauseFirst(u: string, name: string, rest: string) {
    && name != "" && |u| > 9 && u[0] == ' ' && u[1] == 'C' && u[1..8] == "COLLATE" && u[8] == ' ' && u[9] == name[0]
    && u[9..] == name + rest
  }

  const COLLATE_LEAD := " COLLATE "

  lemma CollateLead(name: string, rest: string)
    requires name != ""
    ensures ClauseFirst(COLLATE_LEAD + name + rest, name, rest) && (COLLATE_LEAD + name + rest)[0] == ' '
  {
    var lead, s := COLLATE_LEAD, name + rest;
    assert COLLATE_LEAD + name + rest == lead + s;
    assert lead[0] == ' ' && lead[1] == 'C' && lead[1..8] == "COLLATE" && lead[8] == ' ';
    assert (lead + s)[1..8] == lead[1..8];
  }

  lemma ClauseBehind(t: string, u: string, name: string, rest: string)
    requires ClauseFirst(u, name, rest)
    ensures var s, n := t + u, |t|;
            && |s| > n + 9 && s[n] == ' ' && s[n + 1] == 'C' && s[n + 1..n + 8] == "COLLATE" && s[n + 8] == ' '
            && s[n + 9] == name[0] && s[n + 9..] == name + rest
  {
    InTail(t, u, 0, 1);
    InTail(t, u, 1, 8);
    InTail(t, u, 8, 9);
    InTail(t, u, 9, 10);
  }

  lemma CollateIn(t: string, u: string, name: string, rest: string)
    requires ClauseFirst(u, name, rest) && CollationName(name) && (rest != "" ==> rest[0] == ' ')
    ensures FindCollate(t + u, |t|) == Clause(|t|, |t| + 9, |t| + 9 + |name|)
  {
    var s, n := t + u, |t|;
    VisibleHead(name);
    ClauseBehind(t, u, name, rest);
    hide MatchesAt, SkipSpaces, CollationEnd, FindCollate, CollationName, ClauseFirst;
    OneBlank(s, n);
    OneBlank(s, n + 8);
    MatchesItself(s, n + 1, "COLLATE");
    CollationStops(s, n + 9, name, rest);
    ClauseAt(s, n, n + 9 + |name|);
  }

  /** The clause that the printer wrote. */
  lemma CollateHere(t: string, name: string, rest: string)
    requires CollationName(name) && (rest != "" ==> rest[0] == ' ')
    ensures FindCollate(t + (COLLATE_LEAD + name + rest), |t|) == Clause(|t|, |t| + 9, |t| + 9 + |name|)
  {
    hide *;
    NamePresent(name);
    CollateLead(name, rest);
    CollateIn(t, COLLATE_LEAD + name + rest, name, rest);
  }

  /** No COLLATE clause starts inside a type that is free of the word. */
  lemma {:induction false} NoClauseInside(t: string, z: string, i: nat)
    requires Solid(t) && Free(t, "COLLATE") && (z != "" ==> z[0] == ' ') && i <= |t|
    ensures FindCollate(t + z, i) == FindCollate(t + z, |t|)
    decreases |t| - i
  {
    var s := t + z;
    if i < |t| {
      assert s[|t| - 1] == t[|t| - 1];
      SkipStops(s, i, |t| - 1);
      var j := SkipSpaces(s, i);
      assert Upper("COLLATE") == "COLLATE";
      hide Free, SkipSpaces, CollationEnd;
      MatchIsOccurrence(s, "COLLATE", j);
      NotBefore(t, z, "COLLATE", j);
      NoClauseInside(t, z, i + 1);
    }
  }

  /** The clause after the type is the first COLLATE clause. */
  lemma FindsCollation(t: string, name: string, rest: string)
    requires Solid(t) && Free(t, "COLLATE") && CollationName(name) && (rest != "" ==> rest[0] == ' ')
    ensures FindCollate(t + (COLLATE_LEAD + name + rest), 0) == Clause(|t|, |t| + 9, |t| + 9 + |name|)
  {
    hide FindCollate, CollationName, Solid, Free, COLLATE_LEAD;
    var tail := COLLATE_LEAD + name + rest;
    NamePresent(name);
    CollateLead(name, rest);
    NoClauseInside(t, tail, 0);
    CollateHere(t, name, rest);
  }

  lemma NamePresent(name: string)
    requires CollationName(name)
    ensures name != ""
  {
  }

  // ---- The same search behind a text ----

  lemma {:induction false} SkipShift(a: string, z: string, i: nat)
    requires i <= |z|
    ensures SkipSpaces(a + z, |a| + i) == |a| + SkipSpaces(z, i)
    decreases |z| - i
  {
    if i < |z| {
      assert (a + z)[|a| + i] == z[i];
      if IsBlank(z[i]) { SkipShift(a, z, i + 1); }
    }
  }

  lemma {:induction false} BlankShift(a: string, z: string, i: nat)
    requires i <= |z|
    ensures BlankEnd(a + z, |a| + i) == |a| + BlankEnd(z, i)
    decreases |z| - i
  {
    if i < |z| {
      assert (a + z)[|a| + i] == z[i];
      if !IsBlank(z[i]) { BlankShift(a, z, i + 1); }
    }
  }

  function Behind(a: string, n: int): int { if n < 0 then -1 else |a| + n }

  lemma {:induction false} QuotedShift(a: string, z: string, p: nat, pair: int)
    requires p <= |z| && -1 <= pair < |z|
    ensures QuotedEnd(a + z, |a| + p, Behind(a, pair)) == Behind(a, QuotedEnd(z, p, pair))
    decreases |z| - p
  {
    if p < |z| {
      assert (a + z)[|a| + p] == z[p] && (p + 1 < |z| ==> (a + z)[|a| + p + 1] == z[p + 1]);
      if z[p] != '"' {
        QuotedShift(a, z, p + 1, pair);
      } else if p + 1 < |z| && z[p + 1] == '"' {
        QuotedShift(a, z, p + 2, p);
      }
    }
  }

  lemma CollationShift(a: string, z: string, k: nat)
    requires k <= |z|
    ensures CollationEnd(a + z, |a| + k) == |a| + CollationEnd(z, k)
  {
    BlankShift(a, z, k);
    if k < |z| {
      assert (a + z)[|a| + k] == z[k];
      QuotedShift(a, z, k + 1, -1);
    }
  }

  lemma MatchShift(a: string, z: string, i: nat, w: string)
    requires i <= |z|
    ensures MatchesAt(a + z, |a| + i, w) == MatchesAt(z, i, w)
  {
    if i + |w| <= |z| { assert (a + z)[|a| + i..|a| + i + |w|] == z[i..i + |w|]; }
  }

  function Moved(c: Clause, n: nat): Clause {
    match c
    case NoClause => NoClause
    case Clause(from, name, to) => Clause(n + from, n + name, n + to)
  }

  lemma {:induction false} ClauseShift(a: string, z: string, i: nat)
    requires i <= |z|
    ensures FindCollate(a + z, |a| + i) == Moved(FindCollate(z, i), |a|)
    decreases |z| - i
  {
    hide SkipSpaces, MatchesAt, CollationEnd;
    if i < |z| {
      var j := SkipSpaces(z, i);
      SkipShift(a, z, i);
      MatchShift(a, z, j, "COLLATE");
      if MatchesAt(z, j, "COLLATE") {
        MatchFits(z, j, "COLLATE");
        SkipShift(a, z, j + 7);
        CollationShift(a, z, SkipSpaces(z, j + 7));
      } else {
        CollationShift(a, z, j);
      }
      ClauseShift(a, z, i + 1);
    }
  }

  lemma MatchFits(s: string, i: nat, w: string)
    requires MatchesAt(s, i, w)
    ensures i + |w| <= |s|
  {
  }

  /** Behind a type free of the word, a COLLATE clause is found exactly when the
      clauses after the type hold one. */
  lemma ClauseInTail(t: string, z: string)
    requires Solid(t) && Free(t, "COLLATE") && (z != "" ==> z[0] == ' ')
    ensures FindCollate(t + z, 0) == Moved(FindCollate(z, 0), |t|)
  {
    hide FindCollate, Free;
    NoClauseInside(t, z, 0);
    ClauseShift(t, z, 0);
  }

  lemma TakesCollation(t: string, name: string, rest: string)
    requires Solid(t) && Free(t, "COLLATE") && CollationName(name) && (rest != "" ==> rest[0] == ' ')
    ensures WithoutCollate(t + (COLLATE_LEAD + name) + rest) == (name, t + rest)
  {
    FindsCollation(t, name, rest);
    CollateCut(t, name, rest);
    hide FindCollate;
  }

  lemma CollateCut(t: string, name: string, rest: string)
    ensures var s := t + (COLLATE_LEAD + name + rest);
            && t + (COLLATE_LEAD + name) + rest == s && s[|t| + 9..|t| + 9 + |name|] == name
            && s[..|t|] == t && s[|t| + 9 + |name|..] == rest
  {
    var u := COLLATE_LEAD + name + rest;
    InTail(t, u, 9, 9 + |name|);
    InTail(t, u, 9 + |name|, |u|);
  }

  // ---- NOT NULL ----

  /** An occurrence of a text contains one of its tail. */
  lemma TailOccurs(s: string, lead: string, w: string, p: int)
    requires OccursAt(Upper(s), lead + w, p)
    ensures OccursAt(Upper(s), w, p + |lead|)
  {
    var u := Upper(s);
    assert u[p..p + |lead + w|][|lead|..] == w;
    SliceOfSlice(u, p, p + |lead + w|, p + |lead|, p + |lead + w|);
  }

  /** A rest of clauses: empty, or a space and a visible end. */
  predicate Clauses(z: string) { z != "" ==> z[0] == ' ' && !IsSpace(z[|z| - 1]) }

  /** Behind a type free of NULL, a literal NULL is found exactly when the
      clauses after the type hold one. */
  lemma NullInTail(a: string, z: string)
    requires Free(a, "NULL") && Clauses(z)
    ensures (IndexCI(a + z, " NULL") < 0 <==> IndexCI(z, " NULL") < 0)
            && (IndexCI(a + z, " NULL") < 0 ==> IndexCI(a + z, "NOT NULL") < 0)
  {
    var s := a + z;
    var i, j, k := IndexCI(s, " NULL"), IndexCI(z, " NULL"), IndexCI(s, "NOT NULL");
    IndexFromFirst(Upper(s), " NULL", 0);
    IndexFromFirst(Upper(z), " NULL", 0);
    IndexFromFirst(Upper(s), "NOT NULL", 0);
    assert " " + "NULL" == " NULL" && "NOT" + " NULL" == "NOT NULL";
    hide Upper, OccursAt, Free, IndexCI, IndexFrom;
    if i >= 0 {
      TailOccurs(s, " ", "NULL", i);
      if i + 1 <= |a| { NotBefore(a, z, "NULL", i + 1); }
      OccursRight(a, z, " NULL", i);
    }
    if j >= 0 { OccursRight(a, z, " NULL", |a| + j); }
    if k >= 0 { TailOccurs(s, "NOT", " NULL", k); }
  }

  lemma ReadsNoNull(a: string, z: string)
    requires Solid(a) && Free(a, "NULL") && Clauses(z) && IndexCI(z, " NULL") < 0
    ensures WithoutNull(a + z) == (false, a + z)
  {
    var s := a + z;
    assert s[0] == a[0] && s[|s| - 1] == if z == "" then a[|a| - 1] else z[|z| - 1];
    NullInTail(a, z);
    TrimSpaceKeepsTrimmed(s);
    hide IndexCI;
  }

  lemma FindsNotNull(a: string, z: string)
    requires Solid(a) && Free(a, "NULL")
    ensures IndexCI(a + " NOT NULL" + z, "NOT NULL") == |a| + 1
  {
    var s := a + " NOT NULL" + z;
    var u := Upper(s);
    var b := a + " NOT";
    assert s == b + (" NULL" + z) && b == a + " " + "NOT";
    LiteralsFree();
    FreeJoin(a, "NOT", "NULL");
    assert u[|a| + 1..|a| + 9] == "NOT NULL";
    forall p | 0 <= p < |a| + 1 ensures !OccursAt(u, "NOT NULL", p) {
      if OccursAt(u, "NOT NULL", p) {
        assert "NOT " + "NULL" == "NOT NULL";
        TailOccurs(s, "NOT ", "NULL", p);
        NotBefore(b, " NULL" + z, "NULL", p + 4);
      }
    }
    FirstOccurrence(u, "NOT NULL", 0, |a| + 1);
  }

  lemma ReadsNotNull(a: string, z: string)
    requires Solid(a) && Free(a, "NULL") && Clauses(z)
    ensures WithoutNull(a + " NOT NULL" + z) == (true, if z == "" then a else a + " " + z)
  {
    var s := a + " NOT NULL" + z;
    FindsNotNull(a, z);
    var r := a + " " + z;
    assert s[..|a| + 1] == a + " " && s[|a| + 9..] == z;
    assert RemoveFirst(s, "NOT NULL") == r;
    if z == "" {
      assert r == "" + a + " ";
      TrimSpaceUnpads("", a, " ");
    } else {
      assert r[0] == a[0] && r[|r| - 1] == z[|z| - 1];
      TrimSpaceKeepsTrimmed(r);
    }
  }

  // ---- First of several keywords ----

  ghost predicate NoneBefore(s: string, keywords: seq<string>, n: nat) {
    forall k, p :: k in keywords && p < n ==> !OccursAt(Upper(s), k, p)
  }

  lemma {:induction false} EarliestIs(s: string, keywords: seq<string>, n: nat)
    requires n <= |s| && NoneBefore(s, keywords, n)
    requires n == |s| || exists k :: k in keywords && OccursAt(Upper(s), k, n)
    requires "" !in keywords
    ensures Earliest(s, keywords) == n
    decreases |keywords|
  {
    if keywords != [] {
      var k, rest := keywords[0], keywords[1..];
      var u := Upper(s);
      IndexFromFirst(u, k, 0);
      assert k in keywords;
      var i := IndexCI(s, k);
      EarliestBound(s, rest, n);
      if OccursAt(u, k, n) {
        assert i == n;
      } else {
        assert forall x :: x in rest ==> x in keywords;
        if n != |s| {
          var x :| x in keywords && OccursAt(u, x, n);
          assert x in rest;
        }
        EarliestIs(s, rest, n);
      }
    }
  }

  lemma {:induction false} EarliestBound(s: string, keywords: seq<string>, n: nat)
    requires n <= |s| && NoneBefore(s, keywords, n)
    ensures Earliest(s, keywords) >= n
    decreases |keywords|
  {
    if keywords != [] {
      IndexFromFirst(Upper(s), keywords[0], 0);
      assert keywords[0] in keywords;
      assert forall x :: x in keywords[1..] ==> x in keywords;
      EarliestBound(s, keywords[1..], n);
    }
  }

  lemma PrefixOccurs(u: string, head: string, keyword: string, p: int)
    requires HasPrefix(keyword, head)
    ensures OccursAt(u, keyword, p) ==> OccursAt(u, head, p)
  {
    if OccursAt(u, keyword, p) {
      SliceOfSlice(u, p, p + |keyword|, p, p + |head|);
      assert u[p..p + |keyword|][..|head|] == head;
    }
  }

  /** A text free of the first word of a keyword has no such keyword up to its end. */
  lemma HeadFree(a: string, rest: string, head: string, keyword: string, p: int)
    requires Free(a, head) && Word(head) && HasPrefix(keyword, head) && (rest != "" ==> rest[0] == ' ') && p <= |a|
    ensures !OccursAt(Upper(a + rest), keyword, p)
  {
    NotBefore(a, rest, head, p);
    PrefixOccurs(Upper(a + rest), head, keyword, p);
  }

  /** Does l begin with one of the keywords, in any case? */
  predicate BeginsWith(l: string, keywords: seq<string>) {
    exists k :: k in keywords && OccursAt(Upper(l), k, 0)
  }

  lemma BeginsAt(a: string, l: string, keywords: seq<string>)
    requires BeginsWith(l, keywords)
    ensures exists k :: k in keywords && OccursAt(Upper(a + l), k, |a|)
  {
    var k :| k in keywords && OccursAt(Upper(l), k, 0);
    OccursRight(a, l, k, |a|);
  }

  // ---- DEFAULT ----

  const VALUE_STOPS := ["PRIMARY KEY", "REFERENCES ", "UNIQUE", "CHECK ", "GENERATED "]

  /** No keyword stands in s, with a blank behind it. */
  ghost predicate FreeFrom(s: string, keywords: seq<string>) {
    forall k :: k in keywords ==> Free(s + " ", k)
  }

  ghost predicate FreeOfStops(d: string) { FreeFrom(d, VALUE_STOPS) }

  /** What may follow a text free of keywords: nothing, or a blank and no KEY. */
  predicate Follows(rest: string) {
    rest != "" ==> rest[0] == ' ' && (|rest| > 1 ==> UpperChar(rest[1]) != 'K')
  }

  lemma InnerBlank(k: string, i: nat)
    requires k in CLAUSE_WORDS
    ensures |k| > 2 && k[0] != ' ' && (i + 1 < |k| && k[i] == ' ' ==> k[i + 1] == 'K')
  {
  }

  /** A text free of a keyword has none up to its end, whatever follows. */
  lemma KeywordBefore(t: string, rest: string, k: string, p: int)
    requires Free(t + " ", k) && k in CLAUSE_WORDS && Follows(rest) && p <= |t|
    ensures !OccursAt(Upper(t + rest), k, p)
  {
    hide CLAUSE_WORDS;
    InnerBlank(k, 0);
    var u := Upper(t + rest);
    if OccursAt(u, k, p) {
      if p + |k| <= |t| {
        OccursLeft(t, rest, k, p);
        OccursLeft(t, " ", k, p);
      } else {
        assert rest != "" && u[|t|] == ' ';
        OccursHas(u, k, p, |t| - p);
        if p + |k| == |t| + 1 {
          assert t + rest == t + " " + rest[1..];
          OccursLeft(t + " ", rest[1..], k, p);
        } else {
          OccursHas(u, k, p, |t| + 1 - p);
          InnerBlank(k, |t| - p);
        }
      }
      assert false;
    }
  }

  /** A literal cannot straddle the blank after a text that is free of its end,
      unless what follows the blank begins with that end. */
  lemma NotNullBefore(d: string, rest: string, p: int)
    requires Free(d, "NULL") && (rest != "" ==> rest[0] == ' ' && !OccursAt(Upper(rest), "NULL", 1)) && p <= |d|
    ensures !OccursAt(Upper(d + rest), "NOT NULL", p) && !OccursAt(Upper(d + rest), "NULL", p)
  {
    var u := Upper(d + rest);
    NotBefore(d, rest, "NULL", p);
    if OccursAt(u, "NOT NULL", p) {
      assert "NOT " + "NULL" == "NOT NULL";
      TailOccurs(d + rest, "NOT ", "NULL", p);
      if p + 4 <= |d| {
        NotBefore(d, rest, "NULL", p + 4);
      } else {
        assert u[|d|] == ' ';
        OccursHas(u, "NOT NULL", p, |d| - p);
        OccursRight(d, rest, "NULL", p + 4);
      }
    }
  }

  lemma StopsBefore(d: string, rest: string)
    requires FreeOfStops(d) && Free(d, "NULL") && Follows(rest)
    requires rest != "" ==> !OccursAt(Upper(rest), "NULL", 1)
    ensures NoneBefore(d + rest, STOP_WORDS, |d| + if rest == "" then 0 else 1)
  {
    var n := |d| + if rest == "" then 0 else 1;
    hide Upper, OccursAt, Free;
    forall k, p | k in STOP_WORDS && p < n ensures !OccursAt(Upper(d + rest), k, p) {
      if k in VALUE_STOPS { KeywordBefore(d, rest, k, p); } else { NotNullBefore(d, rest, p); }
    }
  }

  /** A text that begins with one of the keywords does not begin with NULL or KEY. */
  lemma NotNullFirst(l: string, keywords: seq<string>)
    requires BeginsWith(l, keywords) && (forall k :: k in keywords ==> k != "" && k[0] != 'N' && k[0] != 'K')
    ensures !OccursAt(Upper(" " + l), "NULL", 1) && Follows(" " + l)
  {
    var k :| k in keywords && OccursAt(Upper(l), k, 0);
    var u := Upper(" " + l);
    OccursHas(Upper(l), k, 0, 0);
    OccursHas(u, "NULL", 1, 0);
    assert u[1] == Upper(l)[0];
  }

  /** Where a spaced pair is cut when its second part begins with a keyword. */
  lemma PairEnd(a: string, l: string, keywords: seq<string>, starts: seq<string>)
    requires l != "" && BeginsWith(l, starts) && (forall k :: k in starts ==> k in keywords) && "" !in keywords
    requires NoneBefore(a + (" " + l), keywords, |a| + 1)
    ensures Earliest(a + AfterBlank(l), keywords) == |a| + 1
  {
    BeginsAt(a + " ", l, starts);
    AssociateThree(a, " ", l);
    EarliestIs(a + (" " + l), keywords, |a| + 1);
  }

  lemma AloneEnd(a: string, keywords: seq<string>)
    requires "" !in keywords && NoneBefore(a + "", keywords, |a|)
    ensures Earliest(a + AfterBlank(""), keywords) == |a|
  {
    assert a + "" == a;
    EarliestIs(a, keywords, |a|);
  }

  lemma KeywordLists()
    ensures "" !in STOP_WORDS && "" !in CLAUSE_WORDS
    ensures forall k :: k in VALUE_STOPS ==> k in STOP_WORDS && k in CLAUSE_WORDS
    ensures forall k :: k in CLAUSE_WORDS ==> k != "" && k[0] != 'N' && k[0] != 'K'
  {
  }

  lemma ValueEnd(d: string, l: string)
    requires FreeOfStops(d) && Free(d, "NULL")
    requires l != "" ==> BeginsWith(l, VALUE_STOPS)
    ensures Earliest(d + AfterBlank(l), STOP_WORDS) == |d| + if l == "" then 0 else 1
  {
    KeywordLists();
    hide Free, FreeOfStops, Earliest, STOP_WORDS, VALUE_STOPS, NoneBefore, BeginsWith;
    if l == "" {
      StopsBefore(d, "");
      AloneEnd(d, STOP_WORDS);
    } else {
      NotNullFirst(l, VALUE_STOPS);
      AssociateThree(d, " ", l);
      StopsBefore(d, " " + l);
      PairEnd(d, l, STOP_WORDS, VALUE_STOPS);
    }
  }

  lemma PairHalves(d: string, l: string)
    requires Solid(d) && (l != "" ==> Solid(l))
    ensures var s := d + AfterBlank(l);
            var n := |d| + if l == "" then 0 else 1;
            n <= |s| && TrimSpace(s[..n]) == d && TrimSpace(s[n..]) == l
  {
    Halves(d, "", l);
    assert d + "" == d;
  }

  /** The default value ends where the first inline constraint begins. */
  lemma ReadsValue(d: string, l: string)
    requires Solid(d) && FreeOfStops(d) && Free(d, "NULL")
    requires l != "" ==> Solid(l) && BeginsWith(l, VALUE_STOPS)
    ensures ExtractDefaultValue(d + AfterBlank(l)) == (d, l)
  {
    hide Earliest, Free, FreeOfStops, STOP_WORDS, VALUE_STOPS, TrimSpace, BeginsWith, AfterBlank, Trimmed, Solid;
    ValueEnd(d, l);
    PairHalves(d, l);
  }

  /** The two sides of a spaced pair, trimmed. */
  lemma Halves(t: string, gap: string, l: string)
    requires Solid(t) && Gap(gap) && (l != "" ==> Solid(l)) && (l == "" ==> gap == "")
    ensures var s := t + gap + AfterBlank(l);
            var n := |t + gap| + if l == "" then 0 else 1;
            n <= |s| && TrimSpace(s[..n]) == t && s[n..] == l && TrimSpace(l) == l
  {
    TrimSpaceKeepsTrimmed(l);
    var pad := gap + if l == "" then "" else " ";
    HalvesCut(t, gap, l, pad);
    TrimSpaceUnpads("", t, pad);
  }

  lemma HalvesCut(t: string, gap: string, l: string, pad: string)
    requires Gap(gap) && pad == gap + if l == "" then "" else " "
    ensures var s := t + gap + AfterBlank(l);
            var n := |t + gap| + if l == "" then 0 else 1;
            n <= |s| && s[..n] == "" + t + pad && s[n..] == l && AllSpace(pad)
  {
    var blank := if l == "" then "" else " ";
    assert AfterBlank(l) == blank + l;
    CutAfter(t, gap, blank, l);
  }

  lemma CutAfter(t: string, gap: string, blank: string, l: string)
    ensures var s := t + gap + (blank + l);
            var n := |t + gap| + |blank|;
            s[..n] == "" + t + (gap + blank) && s[n..] == l
  {
    var s := t + gap + (blank + l);
    assert s == t + (gap + blank) + l;
  }

  predicate Gap(g: string) { g == "" || g == " " }

  /** Trimming the last characters of a text ending in at most one space gives a
      tail of the text before that space. */
  lemma WindowIsTail(t: string, gap: string, from: nat)
    requires Solid(t) && Gap(gap) && from <= |t|
    ensures var w := TrimSpace((t + gap)[from..]);
            |w| <= |t| && w == t[|t| - |w|..]
  {
    var y := t[from..];
    TrimLeftCuts(y);
    var r := TrimLeft(y);
    var k := |y| - |r|;
    TailVisible(t, from);
    WindowParts(t, gap, from, k);
    hide TrimSpace, TrimLeft;
    TrimSpaceUnpads(y[..k], r, gap);
  }

  /** The last character of a tail of a solid text is visible. */
  lemma TailVisible(t: string, from: nat)
    requires Solid(t) && from <= |t|
    ensures forall k :: 0 <= k < |t[from..]| ==> !IsSpace(t[from..][k..][|t[from..][k..]| - 1])
  {
    var y := t[from..];
    forall k | 0 <= k < |y| ensures !IsSpace(y[k..][|y[k..]| - 1]) {
      assert y[k..][|y[k..]| - 1] == y[|y| - 1] == t[|t| - 1];
    }
  }

  lemma WindowParts(t: string, gap: string, from: nat, k: nat)
    requires Gap(gap) && from <= |t| && k <= |t[from..]|
    ensures var y := t[from..];
            && (t + gap)[from..] == y[..k] + y[k..] + gap && AllSpace(gap)
            && y[k..] == t[|t| - |y[k..]|..]
  {
    var y := t[from..];
    assert (t + gap)[from..] == y + gap;
    assert y[..k] + y[k..] == y;
  }

  lemma NotAfterBy(t: string, gap: string, rest: string)
    requires Solid(t) && Gap(gap) && !HasSuffix(Upper(t), "BY")
    ensures !AfterBy(t + gap + rest, |t + gap|)
  {
    var s, n := t + gap + rest, |t + gap|;
    var from := if n < 3 then 0 else n - 3;
    assert s[from..n] == (t + gap)[from..];
    WindowIsTail(t, gap, from);
    var w := TrimSpace((t + gap)[from..]);
    UpperSlice(t, |t| - |w|, |t|);
  }

  lemma FindsDefault(t: string, gap: string, rest: string)
    requires Free(t, "DEFAULT") && Gap(gap)
    ensures IndexCI(t + gap + DEFAULT + rest, DEFAULT) == |t + gap|
  {
    GapFree(t, gap, "DEFAULT");
    FirstDefault(t + gap, rest);
  }

  lemma DefaultWords()
    ensures " " + "DEFAULT " == DEFAULT && Word("DEFAULT") && HasPrefix("DEFAULT ", "DEFAULT")
    ensures Upper(DEFAULT) == DEFAULT && |DEFAULT| == 9 && DEFAULT[0] == ' '
  {
  }

  lemma UpperMiddle(a: string, w: string, rest: string)
    requires Upper(w) == w
    ensures OccursAt(Upper(a + (w + rest)), w, |a|)
  {
    var u := Upper(a + (w + rest));
    assert u[|a|..|a| + |w|] == Upper(w);
  }

  lemma FirstDefault(a: string, rest: string)
    requires Free(a, "DEFAULT")
    ensures IndexCI(a + DEFAULT + rest, DEFAULT) == |a|
  {
    DefaultWords();
    var s := a + (DEFAULT + rest);
    AssociateThree(a, DEFAULT, rest);
    UpperMiddle(a, DEFAULT, rest);
    assert (DEFAULT + rest)[0] == ' ';
    hide DEFAULT, OccursAt, Free, Word, HasPrefix, Upper;
    forall p | 0 <= p < |a| ensures !OccursAt(Upper(s), DEFAULT, p) {
      if OccursAt(Upper(s), DEFAULT, p) {
        TailOccurs(s, " ", "DEFAULT ", p);
        HeadFree(a, DEFAULT + rest, "DEFAULT", "DEFAULT ", p + 1);
      }
    }
    FirstOccurrence(Upper(s), DEFAULT, 0, |a|);
  }

  lemma TrimGap(t: string, gap: string)
    requires Solid(t) && Gap(gap)
    ensures TrimSpace(t + gap) == t
  {
    assert "" + t + gap == t + gap;
    TrimSpaceUnpads("", t, gap);
  }

  lemma ReadsDefault(t: string, gap: string, d: string, l: string)
    requires Solid(t) && Gap(gap) && Free(t, "DEFAULT") && !HasSuffix(Upper(t), "BY")
    requires Solid(d) && FreeOfStops(d) && Free(d, "NULL")
    requires l != "" ==> Solid(l) && BeginsWith(l, VALUE_STOPS)
    ensures WithoutDefault(t + gap + DEFAULT + (d + AfterBlank(l))) == (Some(d), t + AfterBlank(l))
  {
    var rest := d + AfterBlank(l);
    FindsDefault(t, gap, rest);
    AssociateThree(t + gap, DEFAULT, rest);
    NotAfterBy(t, gap, DEFAULT + rest);
    ReadsValue(d, l);
    TrimGap(t, gap);
    Rejoin(t, l);
    CutsAround(t + gap, rest);
    hide IndexCI, AfterBy, ExtractDefaultValue, TrimSpace, Free, FreeOfStops;
  }

  lemma CutsAround(a: string, rest: string)
    ensures var s := a + DEFAULT + rest; s[..|a|] == a && s[|a| + |DEFAULT|..] == rest
  {
  }

  lemma Rejoin(t: string, l: string)
    requires Solid(t) && (l != "" ==> Solid(l))
    ensures TrimSpace(t + " " + TrimSpace(l)) == t + AfterBlank(l)
  {
    TrimSpaceKeepsTrimmed(l);
    var r := t + " " + l;
    if l == "" {
      assert r == t + " ";
      TrimGap(t, " ");
      assert t + AfterBlank(l) == t;
    } else {
      assert r[0] == t[0] && r[|r| - 1] == l[|l| - 1];
      TrimSpaceKeepsTrimmed(r);
      assert r == t + AfterBlank(l);
    }
  }

  /** No DEFAULT in the inline constraints, except the one of BY DEFAULT. */
  predicate NoBareDefault(l: string) {
    var s := " " + l;
    var i := IndexCI(s, DEFAULT);
    i >= 0 ==> i >= 3 && AfterBy(s, i)
  }

  lemma GapFree(t: string, gap: string, w: string)
    requires Gap(gap) && Free(t, w) && Word(w)
    ensures Free(t + gap, w)
  {
    if gap == "" {
      assert t + gap == t;
    } else {
      ShortFree("", w);
      FreeJoin(t, "", w);
      assert t + " " + "" == t + gap;
    }
  }

  /** The first DEFAULT of the whole is the first one of the constraints. */
  lemma DefaultInTail(a: string, l: string)
    requires Free(a, "DEFAULT")
    ensures var tail := " " + l;
            IndexCI(a + tail, DEFAULT) == if IndexCI(tail, DEFAULT) < 0 then -1 else |a| + IndexCI(tail, DEFAULT)
  {
    hide Free, Upper, OccursAt, IndexFrom, DEFAULT;
    var tail := " " + l;
    var s := a + tail;
    var i, j := IndexCI(s, DEFAULT), IndexCI(tail, DEFAULT);
    IndexFromFirst(Upper(s), DEFAULT, 0);
    IndexFromFirst(Upper(tail), DEFAULT, 0);
    if i >= 0 {
      DefaultPast(a, tail, i);
      OccursRight(a, tail, DEFAULT, i);
    }
    if j >= 0 { OccursRight(a, tail, DEFAULT, |a| + j); }
  }

  lemma DefaultPast(a: string, tail: string, i: nat)
    requires Free(a, "DEFAULT") && (tail != "" ==> tail[0] == ' ') && OccursAt(Upper(a + tail), DEFAULT, i)
    ensures i >= |a|
  {
    assert " " + "DEFAULT " == DEFAULT;
    TailOccurs(a + tail, " ", "DEFAULT ", i);
    PrefixOccurs(Upper(a + tail), "DEFAULT", "DEFAULT ", i + 1);
    if i + 1 <= |a| { NotBefore(a, tail, "DEFAULT", i + 1); }
  }

  lemma SameWindow(a: string, tail: string)
    ensures forall j :: 3 <= j <= |tail| ==> AfterBy(a + tail, |a| + j) == AfterBy(tail, j)
  {
    forall j | 3 <= j <= |tail| ensures AfterBy(a + tail, |a| + j) == AfterBy(tail, j) {
      assert (a + tail)[|a| + j - 3..|a| + j] == tail[j - 3..j];
    }
  }

  lemma SkipsDefault(t: string, gap: string, l: string)
    requires Solid(t) && Gap(gap) && Free(t, "DEFAULT") && NoBareDefault(l)
    ensures var s := t + gap + " " + l; WithoutDefault(s) == (None, s)
  {
    var a, tail := t + gap, " " + l;
    var s := a + tail;
    AssociateThree(a, " ", l);
    GapFree(t, gap, "DEFAULT");
    DefaultInTail(a, l);
    hide IndexCI, Free, TrimSpace;
    SameWindow(a, tail);
  }

  lemma NoDefaultAtAll(t: string)
    requires Free(t, "DEFAULT")
    ensures WithoutDefault(t) == (None, t)
  {
    IndexFromFirst(Upper(t), DEFAULT, 0);
    var i := IndexCI(t, DEFAULT);
    assert t + "" == t;
    if i >= 0 { DefaultPast(t, "", i); }
  }

  // ---- Type and inline constraints ----

  ghost predicate FreeOfClauses(t: string) { FreeFrom(t, CLAUSE_WORDS) }

  lemma ClausesBefore(t: string, rest: string)
    requires FreeOfClauses(t) && Follows(rest)
    ensures NoneBefore(t + rest, CLAUSE_WORDS, |t| + if rest == "" then 0 else 1)
  {
    hide CLAUSE_WORDS, OccursAt, Upper, Free;
    var n := |t| + if rest == "" then 0 else 1;
    forall k, p | k in CLAUSE_WORDS && p < n ensures !OccursAt(Upper(t + rest), k, p) { KeywordBefore(t, rest, k, p); }
  }

  lemma FreeOfClausesGap(t: string, gap: string)
    requires FreeOfClauses(t) && Gap(gap)
    ensures FreeOfClauses(t + gap)
  {
    var s := t + gap + " ";
    hide CLAUSE_WORDS, OccursAt, Upper;
    if gap == "" {
      assert t + gap == t;
    } else {
      assert s == t + "  ";
      forall k, p | k in CLAUSE_WORDS ensures !OccursAt(Upper(s), k, p) {
        if p <= |t| { KeywordBefore(t, "  ", k, p); } else { LongKeyword(s, k, p); }
      }
    }
  }

  lemma LongKeyword(s: string, k: string, p: int)
    requires k in CLAUSE_WORDS && p + 2 > |s| - 1
    ensures !OccursAt(Upper(s), k, p)
  {
    InnerBlank(k, 0);
  }

  lemma TypeEnd(a: string, l: string)
    requires FreeOfClauses(a) && (l != "" ==> BeginsWith(l, CLAUSE_WORDS))
    ensures Earliest(a + AfterBlank(l), CLAUSE_WORDS) == |a| + if l == "" then 0 else 1
  {
    KeywordLists();
    hide Free, FreeOfClauses, Earliest, CLAUSE_WORDS, STOP_WORDS, VALUE_STOPS, NoneBefore, BeginsWith;
    if l == "" {
      ClausesBefore(a, "");
      AloneEnd(a, CLAUSE_WORDS);
    } else {
      NotNullFirst(l, CLAUSE_WORDS);
      ClausesBefore(a, " " + l);
      PairEnd(a, l, CLAUSE_WORDS, CLAUSE_WORDS);
    }
  }

  lemma SplitsAt(s: string, n: nat)
    requires Earliest(s, CLAUSE_WORDS) == n
    ensures SplitTypeAndConstraints(s) == if n < |s| then (TrimSpace(s[..n]), TrimSpace(s[n..])) else (s, "")
  {
    hide Earliest, CLAUSE_WORDS, TrimSpace;
  }

  lemma ReadsTypeAlone(t: string)
    requires Solid(t) && FreeOfClauses(t)
    ensures SplitTypeAndConstraints(t) == (t, "") && TrimSpace(t) == t
  {
    TrimmedAlready(t);
    hide Earliest, Free, FreeOfClauses, TrimSpace, BeginsWith, CLAUSE_WORDS, Solid;
    TypeEnd(t, "");
    assert t + AfterBlank("") == t;
    SplitsAt(t, |t|);
  }

  lemma ReadsTypePair(t: string, gap: string, l: string)
    requires Solid(t) && Gap(gap) && FreeOfClauses(t) && l != "" && Solid(l) && BeginsWith(l, CLAUSE_WORDS)
    ensures var (dataType, inline) := SplitTypeAndConstraints(t + gap + AfterBlank(l));
            TrimSpace(dataType) == t && inline == l
  {
    FreeOfClausesGap(t, gap);
    TrimmedAlready(t);
    SpacedLonger(t + gap, l);
    hide Earliest, Free, FreeOfClauses, TrimSpace, BeginsWith, CLAUSE_WORDS, Solid, AfterBlank, SplitTypeAndConstraints, Gap;
    TypeEnd(t + gap, l);
    Halves(t, gap, l);
    SplitsAt(t + gap + AfterBlank(l), |t + gap| + 1);
  }

  lemma ReadsType(t: string, gap: string, l: string)
    requires Solid(t) && Gap(gap) && FreeOfClauses(t)
    requires l != "" ==> Solid(l) && BeginsWith(l, CLAUSE_WORDS)
    requires l == "" ==> gap == ""
    ensures var (dataType, inline) := SplitTypeAndConstraints(t + gap + AfterBlank(l));
            TrimSpace(dataType) == t && inline == l
  {
    hide Free, FreeOfClauses, TrimSpace, BeginsWith, CLAUSE_WORDS, Solid, SplitTypeAndConstraints;
    if l == "" {
      NothingAdded(t, gap);
      ReadsTypeAlone(t);
    } else {
      ReadsTypePair(t, gap, l);
    }
  }

  lemma TrimmedAlready(t: string)
    requires Solid(t)
    ensures TrimSpace(t) == t
  {
    TrimSpaceKeepsTrimmed(t);
  }

  lemma NothingAdded(t: string, gap: string)
    requires gap == ""
    ensures t + gap + AfterBlank("") == t
  {
  }

  lemma SpacedLonger(a: string, l: string)
    requires l != ""
    ensures |a + AfterBlank(l)| == |a| + 1 + |l|
  {
  }
}
