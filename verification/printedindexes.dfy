/** Reading back a printed CREATE INDEX. */
module PrintedIndexes {
  import opened Text
  import opened Ast
  import opened Catalog
  import opened Patterns
  import opened Columns
  import opened Script
  import opened Rereading
  import ColumnList
  import ColumnPrint
  import Replay

  /** A stored index as the parser makes them: words for names, and a body on one line. */
  predicate Rereadable(x: IndexDef) {
    && Token(x.name) && Token(x.tableName) && Trimmed(x.tableName)
    && Trimmed(x.body) && '\n' !in x.body && (x.body != "" ==> x.body[|x.body| - 1] != ';')
  }

  /** An index called CONCURRENTLY on a table called ON, with a body: the name is
      taken for the keyword, and ON for the name. */
  predicate Stolen(x: IndexDef) {
    !x.concurrently && !x.ifNotExists && Lower(x.name) == "concurrently" && Lower(x.tableName) == "on" && x.body != ""
  }

  const IF_NOT_EXISTS := "IF NOT EXISTS "

  function Behind(x: IndexDef): string { if x.body == "" then "" else " " + x.body }

  /** From the name on. */
  function NamePart(x: IndexDef): string { x.name + " ON " + x.tableName + Behind(x) }

  function Optional(present: bool, phrase: string): string { if present then phrase else "" }

  /** The printed text without a blank at its end. */
  function BareText(x: IndexDef): string {
    "CREATE " + Optional(x.unique, "UNIQUE ") + "INDEX " + Optional(x.concurrently, "CONCURRENTLY ")
    + Optional(x.ifNotExists, IF_NOT_EXISTS) + NamePart(x)
  }

  // ---- Words at their places ----

  lemma KeywordIn(a: string, w: string, rest: string)
    requires rest != "" && !IsBlank(rest[0])
    ensures Keyword(a + (w + " ") + rest, |a|, w) == |a + (w + " ")|
  {
    var s := a + (w + " ") + rest;
    assert s == a + w + (" " + rest);
    assert s[|a|..|a| + |w|] == w && s[|a| + |w|] == ' ' && s[|a| + |w| + 1] == rest[0];
    KeywordAt(s, |a|, w);
  }

  lemma NotIn(a: string, rest: string, w: string)
    requires w != "" && rest != "" && LowerChar(rest[0]) != LowerChar(w[0])
    ensures Keyword(a + rest, |a|, w) == |a|
  {
    assert (a + rest)[|a|] == rest[0];
    NotKeyword(a + rest, |a|, w, 0);
  }

  // ---- From the name on ----

  lemma BodyRead(s: string, t: nat, body: string)
    requires t <= |s| && s[t..] == (if body == "" then "" else " " + body)
    requires Trimmed(body) && '\n' !in body && (body != "" ==> body[|body| - 1] != ';')
    ensures var b := SkipSpaces(s, t); Verbatim(s[b..LineBreak(s, b)]) == body
  {
    if body == "" {
      assert t == |s|;
      assert TrimSpace("") == "";
    } else {
      assert s[t] == s[t..][0] == ' ' && s[t + 1] == s[t..][1] == body[0];
      ColumnPrint.OneBlank(s, t);
      assert s[t + 1..] == s[t..][1..] == body;
      ColumnList.BreakIs(s, t + 1);
      assert s[t + 1..|s|] == body;
      TrimSpaceKeepsTrimmed(body);
      SuffixHas(body, ";", 0);
    }
  }

  /** Name, ON, table and body stand at i. */
  predicate Placed(s: string, i: nat, x: IndexDef) {
    var k := i + |x.name|;
    var t := k + 4 + |x.tableName|;
    && t <= |s| && s[i..k] == x.name && s[k..k + 4] == " ON " && s[k + 4..t] == x.tableName && s[t..] == Behind(x)
  }

  lemma NamePlaced(a: string, x: IndexDef)
    ensures Placed(a + NamePart(x), |a|, x)
  {
    hide Behind;
    Split(a, x.name, " ON ", x.tableName, Behind(x));
  }

  lemma OnPlaces(s: string, k: nat)
    requires k + 4 <= |s| && s[k..k + 4] == " ON "
    ensures s[k] == ' ' && s[k + 1..k + 3] == "ON" && s[k + 1] == 'O' && s[k + 2] == 'N' && s[k + 3] == ' '
  {
    var on := " ON ";
    assert on[0] == ' ' && on[1] == 'O' && on[2] == 'N' && on[3] == ' ' && on[1..3] == "ON";
    assert s[k] == s[k..k + 4][0] && s[k + 1] == s[k..k + 4][1] && s[k + 2] == s[k..k + 4][2] && s[k + 3] == s[k..k + 4][3];
    assert s[k + 1..k + 3] == s[k..k + 4][1..3];
  }

  lemma Split(a: string, n: string, on: string, t: string, b: string)
    ensures var s, k := a + (n + on + t + b), |a| + |n|;
            && s == a + n + (on + t + b) && s == (a + n + on) + t + b
            && s[|a|..k] == n && s[k..k + |on|] == on && s[k + |on|..k + |on| + |t|] == t && s[k + |on| + |t|..] == b
  {
    var s := a + (n + on + t + b);
    assert s == a + n + (on + t + b);
    assert s == (a + n + on) + t + b;
  }

  lemma TailOf(s: string, i: nat, k: nat, t: nat)
    requires i < k <= |s| && BlankEnd(s, i) == k && SkipSpaces(s, k) == k + 1
    requires Keyword(s, k + 1, "ON") == k + 4 && k + 4 < t && BlankEnd(s, k + 4) == t
    ensures var b := SkipSpaces(s, t);
            TailOfIndex(s, i) == IndexTail(s[i..k], s[k + 4..t], Verbatim(s[b..LineBreak(s, b)]))
  {
    hide BlankEnd, Verbatim, LineBreak, SkipSpaces, Keyword;
  }

  lemma TailRead(s: string, i: nat, x: IndexDef)
    requires Rereadable(x) && Placed(s, i, x)
    ensures i <= |s| && TailOfIndex(s, i) == IndexTail(x.name, x.tableName, x.body)
  {
    hide BlankEnd, Verbatim, LineBreak, SkipSpaces, Keyword, Behind, Token, Trimmed, TailOfIndex, Placed, IsBlank;
    var k := i + |x.name|;
    var t := k + 4 + |x.tableName|;
    BehindIs(x);
    PlacedSlices(s, i, x);
    BodyRead(s, t, x.body);
    WordsRead(s, i, x);
    TokenHead(x.name);
    TokenHead(x.tableName);
    TailOf(s, i, k, t);
  }

  lemma PlacedSlices(s: string, i: nat, x: IndexDef)
    requires Placed(s, i, x)
    ensures var k := i + |x.name|;
            var t := k + 4 + |x.tableName|;
            t <= |s| && s[i..k] == x.name && s[k + 4..t] == x.tableName && s[t..] == Behind(x)
  {
    hide Behind;
  }

  /** Where the name, ON and the table name end. */
  lemma WordsRead(s: string, i: nat, x: IndexDef)
    requires Token(x.name) && Token(x.tableName) && Placed(s, i, x)
    ensures var k := i + |x.name|;
            && BlankEnd(s, i) == k && SkipSpaces(s, k) == k + 1 && Keyword(s, k + 1, "ON") == k + 4
            && BlankEnd(s, k + 4) == k + 4 + |x.tableName|
  {
    hide BlankEnd, SkipSpaces, Keyword, IsBlank, Behind;
    var k := i + |x.name|;
    var t := k + 4 + |x.tableName|;
    OnPlaces(s, k);
    TokenHead(x.tableName);
    NameVisible(s, i, x.name);
    NameVisible(s, k + 4, x.tableName);
    BlankHere(s, t, x);
    BlankIsBlank();
    ColumnList.BlankRun(s, i, k);
    ColumnPrint.OneBlank(s, k);
    KeywordAt(s, k + 1, "ON");
    ColumnList.BlankRun(s, k + 4, t);
  }

  lemma BlankIsBlank()
    ensures IsBlank(' ') && !IsBlank('O')
  {
  }

  lemma BehindIs(x: IndexDef)
    ensures Behind(x) == if x.body == "" then "" else " " + x.body
  {
  }

  lemma BlankHere(s: string, t: nat, x: IndexDef)
    requires t <= |s| && s[t..] == Behind(x)
    ensures t < |s| ==> IsBlank(s[t])
  {
    BehindHead(x);
    assert t < |s| ==> s[t] == s[t..][0];
  }

  lemma NameVisible(s: string, i: nat, name: string)
    requires Token(name) && i + |name| <= |s| && s[i..i + |name|] == name
    ensures forall j :: i <= j < i + |name| ==> !IsBlank(s[j])
  {
    forall j | i <= j < i + |name| ensures !IsBlank(s[j]) { assert s[j] == s[i..i + |name|][j - i]; }
  }

  lemma BehindHead(x: IndexDef)
    ensures var b := Behind(x); b != "" ==> IsBlank(b[0])
  {
  }

  // ---- The optional phrases ----

  lemma PhraseRead(b: string, rest: string)
    requires rest != "" && !IsBlank(rest[0])
    ensures IfNotExists(b + IF_NOT_EXISTS + rest, |b|) == |b| + 14
  {
    var s := b + IF_NOT_EXISTS + rest;
    assert IF_NOT_EXISTS == "IF" + " " + ("NOT" + " ") + ("EXISTS" + " ");
    assert s == b + ("IF" + " ") + ("NOT EXISTS " + rest);
    assert s == (b + "IF ") + ("NOT" + " ") + ("EXISTS " + rest);
    assert s == (b + "IF NOT ") + ("EXISTS" + " ") + rest;
    hide Keyword;
    KeywordIn(b, "IF", "NOT EXISTS " + rest);
    KeywordIn(b + "IF ", "NOT", "EXISTS " + rest);
    KeywordIn(b + "IF NOT ", "EXISTS", rest);
  }

  lemma NameNotIf(s: string, i: nat, x: IndexDef)
    requires Rereadable(x) && Placed(s, i, x)
    ensures i <= |s| && IfNotExists(s, i) == i
  {
    hide IfNotExists, Behind, Lower, Trimmed, IsBlank;
    BlankIsBlank();
    OnPlaces(s, i + |x.name|);
    NameVisible(s, i, x.name);
    NotIf(s, i, |x.name|);
  }

  lemma NameHead(x: IndexDef)
    requires Rereadable(x)
    ensures NamePart(x) != "" && !IsBlank(NamePart(x)[0]) && NamePart(x)[0] == x.name[0]
  {
  }

  lemma AfterRead(b: string, x: IndexDef)
    requires Rereadable(x)
    ensures AfterIfNotExists(b + Optional(x.ifNotExists, IF_NOT_EXISTS) + NamePart(x), |b|)
            == IndexRead(false, x.ifNotExists, IndexTail(x.name, x.tableName, x.body))
  {
    hide Rereadable, NamePart, IfNotExists, TailOfIndex, Placed;
    NameHead(x);
    if x.ifNotExists {
      PhraseRead(b, NamePart(x));
      NamePlaced(b + IF_NOT_EXISTS, x);
      assert |b + IF_NOT_EXISTS| == |b| + 14;
      TailRead(b + IF_NOT_EXISTS + NamePart(x), |b| + 14, x);
    } else {
      assert b + "" == b;
      NamePlaced(b, x);
      NameNotIf(b + NamePart(x), |b|, x);
      TailRead(b + NamePart(x), |b|, x);
    }
  }

  /** `ON table` is no name with its ON, unless the table is called ON as well. */
  lemma NoTail(s: string, j: nat, table: string)
    requires Token(table) && j + 3 + |table| <= |s| && (Lower(table) == "on" ==> j + 3 + |table| == |s|)
    requires j + 3 + |table| < |s| ==> IsBlank(s[j + 3 + |table|])
    requires s[j] == 'O' && s[j + 1] == 'N' && s[j + 2] == ' ' && s[j + 3..j + 3 + |table|] == table
    ensures AfterIfNotExists(s, j) == NoIndex
  {
    NotKeyword(s, j, "IF", 0);
    assert s[j + 3] == s[j + 3..j + 3 + |table|][0] == table[0];
    ColumnList.BlankRun(s, j, j + 2);
    ColumnPrint.OneBlank(s, j + 2);
    NoSecondOn(s, j + 3, table);
    hide Keyword, SkipSpaces, BlankEnd;
  }

  lemma NoSecondOn(s: string, l: nat, table: string)
    requires Token(table) && l + |table| <= |s| && s[l..l + |table|] == table
    requires Lower(table) == "on" ==> l + |table| == |s|
    requires l + |table| < |s| ==> IsBlank(s[l + |table|])
    ensures Keyword(s, l, "ON") == l
  {
    assert forall i :: 0 <= i < |table| ==> s[l + i] == table[i];
    if |table| > 2 {
      assert SkipSpaces(s, l + 2) == l + 2;
    } else if |table| == 2 {
      assert s[l..l + 2] == table && Lower("ON") == "on";
    } else {
      OneLetter(s, l);
    }
  }

  lemma OneLetter(s: string, l: nat)
    requires l < |s|
    ensures Keyword(s, l, "ON") > l ==> l + 1 < |s| && LowerChar(s[l + 1]) == 'n' && IsBlank(s[l + 2])
  {
    MatchHas(s, l, "ON", 1);
  }

  const CONCURRENTLY := "CONCURRENTLY "

  /** What follows CREATE [UNIQUE] INDEX [CONCURRENTLY]. */
  function Rest(x: IndexDef): string { Optional(x.ifNotExists, IF_NOT_EXISTS) + NamePart(x) }

  lemma RestHead(x: IndexDef)
    requires Rereadable(x)
    ensures Rest(x) != "" && !IsBlank(Rest(x)[0])
    ensures x.ifNotExists ==> Rest(x)[0] == 'I'
    ensures !x.ifNotExists ==> Rest(x) == NamePart(x)
  {
    NameHead(x);
    hide NamePart, Rereadable;
    assert "" + NamePart(x) == NamePart(x);
  }

  /** A name that is the word CONCURRENTLY is given back to the name, if what
      follows is not read behind the keyword. */
  lemma NotConcurrent(a: string, x: IndexDef)
    requires Rereadable(x) && !x.concurrently
    ensures !Stolen(x) ==> AfterConcurrently(a + Rest(x), |a|) == AfterIfNotExists(a + Rest(x), |a|)
    ensures Stolen(x) ==> AfterConcurrently(a + Rest(x), |a|).IndexRead? && AfterConcurrently(a + Rest(x), |a|).concurrently
  {
    hide Rereadable, NamePart, AfterIfNotExists, Rest, Placed, Stolen;
    RestHead(x);
    var s := a + Rest(x);
    StolenParts(x);
    if x.ifNotExists {
      NotIn(a, Rest(x), "CONCURRENTLY");
    } else {
      NamePlaced(a, x);
      if Stolen(x) { NameStolen(s, |a|, x); } else { NameTaken(s, |a|, x); }
    }
  }

  lemma StolenParts(x: IndexDef)
    ensures Stolen(x) ==> !x.ifNotExists
  {
  }

  lemma NameTaken(s: string, i: nat, x: IndexDef)
    requires Rereadable(x) && Placed(s, i, x) && !x.concurrently && !x.ifNotExists && !Stolen(x)
    ensures i <= |s|
    ensures var j := Keyword(s, i, "CONCURRENTLY"); j > i ==> AfterIfNotExists(s, j) == NoIndex
  {
    hide AfterIfNotExists, Keyword, IsBlank, Trimmed;
    var k := i + |x.name|;
    BlankIsBlank();
    OnPlaces(s, k);
    BlankHere(s, k + 4 + |x.tableName|, x);
    NameVisible(s, i, x.name);
    WordTaken(s, i, k);
    if Keyword(s, i, "CONCURRENTLY") > i {
      assert Lower(x.name) == "concurrently" by { LowerConcurrently(); }
      NoTail(s, k + 1, x.tableName);
    }
  }

  lemma LowerConcurrently()
    ensures Lower("CONCURRENTLY") == "concurrently"
  {
  }

  /** Behind the name taken for a keyword stands an index called ON. */
  lemma NameStolen(s: string, i: nat, x: IndexDef)
    requires Rereadable(x) && Placed(s, i, x) && Stolen(x)
    ensures i <= |s|
    ensures var j := Keyword(s, i, "CONCURRENTLY"); j > i && AfterIfNotExists(s, j).IndexRead?
  {
    hide TailOfIndex, IsBlank, Keyword, IfNotExists;
    var k := i + |x.name|;
    BlankIsBlank();
    OnPlaces(s, k);
    NameMatches(s, i, x.name);
    assert Lower(x.tableName) == "on" && |Lower(x.tableName)| == 2;
    OnTail(s, k + 1, x.tableName, x.body);
  }

  lemma NameMatches(s: string, i: nat, name: string)
    requires Lower(name) == "concurrently" && i + |name| + 1 < |s| && s[i..i + |name|] == name
    requires s[i + |name|] == ' ' && !IsBlank(s[i + |name| + 1])
    ensures Keyword(s, i, "CONCURRENTLY") == i + |name| + 1
  {
    LowerConcurrently();
    assert |name| == 12;
    ColumnPrint.OneBlank(s, i + 12);
  }

  lemma OnTail(s: string, j: nat, table: string, body: string)
    requires j + 6 < |s| && |table| == 2 && s[j] == 'O' && s[j + 1] == 'N' && s[j + 2] == ' ' && s[j + 3..j + 3 + |table|] == table
    requires Lower(table) == "on" && Trimmed(body) && body != "" && s[j + 5..] == " " + body
    ensures TailOfIndex(s, j).IndexTail?
  {
    assert s[j + 5] == s[j + 5..][0] == ' ' && s[j + 6] == s[j + 5..][1] == body[0];
    assert Lower(table)[0] == 'o' && s[j + 3] == s[j + 3..j + 5][0];
    assert Lower("ON") == "on" && MatchesAt(s, j + 3, "ON");
    hide MatchesAt;
    ColumnList.BlankRun(s, j, j + 2);
    ColumnPrint.OneBlank(s, j + 2);
    ColumnPrint.OneBlank(s, j + 5);
    OneMore(s, j + 6);
    hide SkipSpaces, BlankEnd, Verbatim, LineBreak;
  }

  lemma OneMore(s: string, i: nat)
    requires i < |s| && !IsBlank(s[i])
    ensures BlankEnd(s, i) > i
  {
  }

  /** The word is taken only when it is the whole name. */
  lemma WordTaken(s: string, i: nat, k: nat)
    requires i < k < |s| && (forall j :: i <= j < k ==> !IsBlank(s[j])) && s[k] == ' ' && k + 1 < |s| && !IsBlank(s[k + 1])
    ensures var j := Keyword(s, i, "CONCURRENTLY"); j > i ==> j == k + 1 && k == i + 12 && MatchesAt(s, i, "CONCURRENTLY")
  {
    ColumnPrint.OneBlank(s, k);
    if i + 12 > k { MatchHas(s, i, "CONCURRENTLY", k - i); }
    NoBlankWord();
    hide MatchesAt;
  }

  lemma NoBlankWord()
    ensures forall k :: 0 <= k < 12 ==> LowerChar("CONCURRENTLY"[k]) != ' '
  {
  }

  lemma ConcurrentlyRead(a: string, x: IndexDef)
    requires Rereadable(x)
    ensures var r := AfterConcurrently(a + Optional(x.concurrently, CONCURRENTLY) + Rest(x), |a|);
            && (!Stolen(x) ==> r == IndexRead(x.concurrently, x.ifNotExists, IndexTail(x.name, x.tableName, x.body)))
            && (Stolen(x) ==> r.IndexRead? && r.concurrently && !x.concurrently)
  {
    hide Rereadable, NamePart, AfterIfNotExists, Rest;
    NotStolen(x);
    hide Stolen;
    RestHead(x);
    var b := a + Optional(x.concurrently, CONCURRENTLY);
    RestAppend(b, x);
    AfterRead(b, x);
    if x.concurrently {
      assert CONCURRENTLY == "CONCURRENTLY" + " ";
      KeywordIn(a, "CONCURRENTLY", Rest(x));
    } else {
      assert b == a;
      NotConcurrent(a, x);
    }
  }

  lemma NotStolen(x: IndexDef)
    ensures Stolen(x) ==> !x.concurrently
  {
  }

  lemma RestAppend(b: string, x: IndexDef)
    ensures b + Rest(x) == b + Optional(x.ifNotExists, IF_NOT_EXISTS) + NamePart(x)
  {
    hide NamePart;
    AssociateThree(b, Optional(x.ifNotExists, IF_NOT_EXISTS), NamePart(x));
  }

  const CREATE := "CREATE "

  const UNIQUE := "UNIQUE "

  const INDEX := "INDEX "

  /** CREATE [UNIQUE] INDEX and all that follows. */
  lemma BareParts(x: IndexDef)
    ensures var u, more := Optional(x.unique, UNIQUE), Optional(x.concurrently, CONCURRENTLY) + Rest(x);
            && BareText(x) == CREATE + (u + (INDEX + more)) == CREATE + u + (INDEX + more) == CREATE + u + INDEX + more
            && BareText(x) == CREATE + u + INDEX + Optional(x.concurrently, CONCURRENTLY) + Rest(x)
  {
    hide NamePart, Rest;
    var u, c := Optional(x.unique, UNIQUE), Optional(x.concurrently, CONCURRENTLY);
    RestAppend(CREATE + u + INDEX + c, x);
    assert BareText(x) == CREATE + u + INDEX + c + Rest(x);
    AssociateThree(CREATE + u + INDEX, c, Rest(x));
    AssociateThree(CREATE + u, INDEX, c + Rest(x));
    AssociateThree(CREATE, u, INDEX + (c + Rest(x)));
  }

  lemma UniqueRead(more: string, unique: bool)
    requires more != "" && !IsBlank(more[0])
    ensures var u := Optional(unique, UNIQUE);
            var s := CREATE + u + INDEX + more;
            && Keyword(s, 0, "CREATE") == 7 && Keyword(s, 7, "UNIQUE") == 7 + |u|
            && Keyword(s, 7 + |u|, "INDEX") == |CREATE + u + INDEX|
  {
    var u := Optional(unique, UNIQUE);
    var s := CREATE + u + INDEX + more;
    assert "" + ("CREATE" + " ") == CREATE && "UNIQUE" + " " == UNIQUE && "INDEX" + " " == INDEX;
    hide Keyword;
    AssociateThree(CREATE + u, INDEX, more);
    AssociateThree(CREATE, u, INDEX + more);
    assert "" + ("CREATE" + " ") + (u + (INDEX + more)) == s;
    KeywordIn("", "CREATE", u + (INDEX + more));
    KeywordIn(CREATE + u, "INDEX", more);
    if unique {
      KeywordIn(CREATE, "UNIQUE", INDEX + more);
    } else {
      assert CREATE + u == CREATE;
      NotIn(CREATE, INDEX + more, "UNIQUE");
    }
  }

  lemma MoreHead(x: IndexDef)
    requires Rereadable(x)
    ensures var more := Optional(x.concurrently, CONCURRENTLY) + Rest(x); more != "" && !IsBlank(more[0])
  {
    hide Rest, Rereadable, CONCURRENTLY, IsBlank;
    RestHead(x);
    assert CONCURRENTLY != "" && !IsBlank(CONCURRENTLY[0]) by { Visible(); }
  }

  lemma Visible()
    ensures CONCURRENTLY != "" && !IsBlank(CONCURRENTLY[0])
  {
  }

  /** A printed index is read as that index, exactly when its name is not taken
      for a keyword. */
  lemma IndexReread(x: IndexDef)
    requires Rereadable(x)
    ensures ReadCreateIndex(BareText(x)) == Read(Replay.IndexStatement(x)) <==> !Stolen(x)
  {
    hide Rereadable, Stolen, NamePart, Rest, BareText, Keyword, AfterConcurrently, CREATE, UNIQUE, INDEX, CONCURRENTLY;
    var u, more := Optional(x.unique, UNIQUE), Optional(x.concurrently, CONCURRENTLY) + Rest(x);
    BareParts(x);
    MoreHead(x);
    UniqueRead(more, x.unique);
    ConcurrentlyRead(CREATE + u + INDEX, x);
    LeadLengths();
  }

  lemma LeadLengths()
    ensures |CREATE| == 7 && |UNIQUE| == 7 && |INDEX| == 6
  {
  }

  /** The printed text is that text, with a blank at its end when there is no body. */
  lemma TextIsBare(x: IndexDef)
    requires Rereadable(x)
    ensures TrimSpace(IndexText(x)) == BareText(x)
  {
    BareTrimmed(x);
    hide Rereadable, TrimSpace, Trimmed;
    if x.body == "" {
      assert IndexText(x) == "" + BareText(x) + " " by { NoBody(x); }
      assert AllSpace("") && AllSpace(" ");
      hide BareText, IndexText;
      TrimSpaceUnpads("", BareText(x), " ");
    } else {
      assert IndexText(x) == BareText(x) by { WithBody(x); }
      hide BareText, IndexText;
      TrimSpaceKeepsTrimmed(BareText(x));
    }
  }

  /** Up to the name. */
  function LeadText(x: IndexDef): string {
    "CREATE " + Optional(x.unique, "UNIQUE ") + "INDEX " + Optional(x.concurrently, "CONCURRENTLY ")
    + Optional(x.ifNotExists, IF_NOT_EXISTS)
  }

  lemma Leads(x: IndexDef)
    ensures BareText(x) == LeadText(x) + NamePart(x)
    ensures IndexText(x) == LeadText(x) + x.name + " ON " + x.tableName + " " + x.body
  {
  }

  lemma NoBody(x: IndexDef)
    requires x.body == ""
    ensures IndexText(x) == "" + BareText(x) + " "
  {
    Leads(x);
    hide LeadText, BareText, IndexText;
    Regrouped(LeadText(x), x.name, " ON ", x.tableName, "");
  }

  lemma WithBody(x: IndexDef)
    requires x.body != ""
    ensures IndexText(x) == BareText(x)
  {
    Leads(x);
    hide LeadText, BareText, IndexText;
    Regrouped(LeadText(x), x.name, " ON ", x.tableName, " " + x.body);
    AssociateThree(LeadText(x) + x.name + " ON " + x.tableName, " ", x.body);
  }

  lemma Regrouped(a: string, n: string, on: string, t: string, b: string)
    ensures a + n + on + t + b == a + (n + on + t + b)
  {
    Split(a, n, on, t, b);
    assert a + n + on + t + b == (a + n + on) + t + b;
  }

  lemma BareTrimmed(x: IndexDef)
    requires Rereadable(x)
    ensures Trimmed(BareText(x)) && BareText(x) != ""
  {
    var s, n := BareText(x), NamePart(x);
    assert s[0] == 'C';
    assert n[|n| - 1] == if x.body == "" then x.tableName[|x.tableName| - 1] else x.body[|x.body| - 1];
    assert s[|s| - 1] == n[|n| - 1];
  }

  // ---- Columns written against the table name ----

  /** Without a blank before its columns, a table's name is read with them, and
      the index has no body. */
  lemma GluedColumns(name: string, table: string, columns: string)
    requires Token(name) && Token(table) && Trimmed(table) && (columns != "" ==> Token(columns))
    ensures ReadCreateIndex("CREATE INDEX " + name + " ON " + table + ("(" + columns + ")"))
            == Read(CreateIndex(name, table + ("(" + columns + ")"), false, false, false, ""))
  {
    var glued := table + ("(" + columns + ")");
    var x := IndexDef(name, glued, false, false, false, "");
    GluedToken(table, columns);
    assert !Stolen(x) by { assert |Lower(glued)| == |glued| > 2; }
    assert BareText(x) == "CREATE INDEX " + name + " ON " + glued by {
      assert "CREATE " + "" + "INDEX " + "" + "" == "CREATE INDEX ";
      Regrouped("CREATE INDEX ", name, " ON ", glued, "");
      assert "CREATE INDEX " + name + " ON " + glued + "" == "CREATE INDEX " + name + " ON " + glued;
    }
    AssociateThree("CREATE INDEX " + name + " ON ", table, "(" + columns + ")");
    hide BareText, ReadCreateIndex;
    IndexReread(x);
  }

  lemma GluedToken(table: string, columns: string)
    requires Token(table) && Trimmed(table) && (columns != "" ==> Token(columns))
    ensures var glued := table + ("(" + columns + ")"); Token(glued) && Trimmed(glued) && |glued| > 2
  {
    var c := "(" + columns + ")";
    var glued := table + c;
    assert forall i :: 0 <= i < |columns| ==> c[i + 1] == columns[i];
    assert forall i :: 0 <= i < |c| ==> !IsBlank(c[i]);
    assert glued[0] == table[0] && glued[|glued| - 1] == c[|c| - 1] == ')';
  }

  /** Trimming and unquoting lose nothing but white space and quotes. */
  lemma {:induction false} QuotesKept(s: string, c: char)
    requires c != '"'
    ensures c in TrimQuotesLeft(s) <==> c in s
    ensures c in TrimQuotesRight(s) <==> c in s
    decreases |s|
  {
    if s != "" {
      assert s == [s[0]] + s[1..] && s == s[..|s| - 1] + [s[|s| - 1]];
      QuotesKept(s[1..], c);
      QuotesKept(s[..|s| - 1], c);
    }
  }

  lemma TrimKeeps(s: string)
    ensures '(' in TrimSpace(s) <==> '(' in s
  {
    hide TrimSpace, IsSpace;
    var i, j := TrimSpaceCuts(s);
    OuterSpace(s, i, j);
    NoSpace();
    if '(' in s {
      var k :| 0 <= k < |s| && s[k] == '(';
      assert i <= k < j;
      assert s[i..j][k - i] == '(';
    }
  }

  lemma NoSpace()
    ensures !IsSpace('(')
  {
  }

  lemma LowerKeeps(u: string)
    ensures '(' in Lower(u) <==> '(' in u
  {
    var l := Lower(u);
    if '(' in l {
      var k :| 0 <= k < |l| && l[k] == '(';
      assert u[k] == '(';
    }
    if '(' in u {
      var k :| 0 <= k < |u| && u[k] == '(';
      assert l[k] == '(';
    }
  }

  lemma KeyKeeps(s: string)
    ensures '(' in NormIdent(s) <==> '(' in s
  {
    var t := TrimSpace(s);
    hide TrimSpace, TrimQuotesLeft, TrimQuotesRight, Lower;
    TrimKeeps(s);
    QuotesKept(t, '(');
    QuotesKept(TrimQuotesLeft(t), '(');
    LowerKeeps(TrimQuotesRight(TrimQuotesLeft(t)));
  }

  /** Such an index hangs on no table: its key is not that of the table meant. */
  lemma GluedUnattached(table: string, columns: string)
    requires '(' !in table
    ensures NormIdent(table + ("(" + columns + ")")) != NormIdent(table)
  {
    KeyKeeps(table);
    KeyKeeps(table + ("(" + columns + ")"));
    hide NormIdent;
    assert (table + ("(" + columns + ")"))[|table|] == '(';
  }
}
