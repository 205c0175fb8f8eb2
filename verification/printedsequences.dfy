/** Reading back a printed CREATE SEQUENCE. */
module PrintedSequences {
  import opened Text
  import opened Ast
  import opened Catalog
  import opened Patterns
  import opened Script
  import opened Rereading
  import ColumnList
  import ColumnPrint

  /** Every blank stands alone before something visible. */
  predicate Flat(s: string) {
    forall i :: 0 <= i < |s| && IsBlank(s[i]) ==> s[i] == ' ' && i + 1 < |s| && !IsBlank(s[i + 1])
  }

  /** A stored sequence as the parser makes them: a word for the name, and a flat body. */
  predicate Rereadable(s: SequenceDef) {
    Token(s.name) && Trimmed(s.name) && Trimmed(s.body) && Flat(s.body)
  }

  const NOT_EXISTS := "not exists "

  /** A sequence called IF whose body begins with NOT EXISTS and goes on. */
  predicate Stolen(s: SequenceDef) {
    Lower(s.name) == "if" && |s.body| > |NOT_EXISTS| && Lower(s.body[..|NOT_EXISTS|]) == NOT_EXISTS
  }

  /** Behind CREATE SEQUENCE. */
  function NamePart(s: SequenceDef): string { s.name + if s.body != "" then " " + s.body else "" }

  lemma TextParts(s: SequenceDef)
    requires Rereadable(s)
    ensures SequenceText(s) == "CREATE SEQUENCE " + NamePart(s) && Trimmed(SequenceText(s))
  {
    var t := SequenceText(s);
    AssociateThree("CREATE SEQUENCE ", s.name, if s.body != "" then " " + s.body else "");
    assert t[0] == 'C';
    assert t[|t| - 1] == if s.body != "" then s.body[|s.body| - 1] else s.name[|s.name| - 1];
  }

  // ---- Flat texts ----

  lemma {:induction false} FlatKept(s: string, i: nat)
    requires i <= |s| && Flat(s)
    ensures Flattened(s, i) == s[i..]
    decreases |s| - i
  {
    if i < |s| {
      if IsBlank(s[i]) { assert SkipSpaces(s, i + 1) == i + 1; }
      FlatKept(s, i + 1);
      assert s[i..] == [s[i]] + s[i + 1..];
    }
  }

  lemma {:induction false} FlattenedShorter(s: string, i: nat)
    requires i <= |s|
    ensures |Flattened(s, i)| <= |s| - i
    decreases |s| - i
  {
    if i < |s| { FlattenedShorter(s, if IsBlank(s[i]) then SkipSpaces(s, i + 1) else i + 1); }
  }

  /** Reading a trimmed text makes it flat. */
  lemma {:induction false} FlattenedFlat(s: string, i: nat)
    requires i <= |s| && (s != "" ==> !IsSpace(s[|s| - 1]))
    ensures var r := Flattened(s, i);
            && Flat(r) && (r != "" ==> !IsBlank(r[|r| - 1]))
            && (r == "" <==> i == |s|) && (i < |s| ==> IsBlank(r[0]) == IsBlank(s[i]))
    decreases |s| - i
  {
    if i < |s| {
      if IsBlank(s[i]) {
        var k := SkipSpaces(s, i + 1);
        ColumnPrint.SkipStops(s, i + 1, |s| - 1);
        BlanksAre(s, i + 1);
        FlattenedFlat(s, k);
        ConsFlat(' ', Flattened(s, k));
      } else {
        FlattenedFlat(s, i + 1);
        ConsFlat(s[i], Flattened(s, i + 1));
      }
    }
  }

  lemma ConsFlat(c: char, r: string)
    requires Flat(r) && (IsBlank(c) ==> c == ' ' && r != "" && !IsBlank(r[0]))
    ensures Flat([c] + r)
  {
    var s := [c] + r;
    forall i | 0 <= i < |s| && IsBlank(s[i]) ensures s[i] == ' ' && i + 1 < |s| && !IsBlank(s[i + 1]) {
      if i > 0 { assert s[i] == r[i - 1]; }
    }
  }

  // ---- Reading ----

  lemma LeadWords(s: string, rest: string)
    requires s == "CREATE SEQUENCE " + rest && rest != "" && !IsBlank(rest[0])
    ensures Keyword(s, 0, "CREATE") == 7 && Keyword(s, 7, "SEQUENCE") == 16 && s[16..] == rest
  {
    var lead := "CREATE SEQUENCE ";
    assert lead[0..6] == "CREATE" && lead[6] == ' ' && lead[7..15] == "SEQUENCE" && lead[7] == 'S' && lead[15] == ' ';
    assert s[0..6] == lead[0..6] && s[7..15] == lead[7..15] && s[6] == ' ' && s[15] == ' ' && s[7] == 'S' && s[16] == rest[0];
    KeywordAt(s, 0, "CREATE");
    KeywordAt(s, 7, "SEQUENCE");
    hide Keyword;
  }

  /** The printed text: the name at 16, a blank and the body behind it. */
  predicate Printed(t: string, s: SequenceDef) {
    var m := 16 + |s.name|;
    && m <= |t| && t[16..m] == s.name
    && (if s.body == "" then m == |t| else m < |t| && t[m] == ' ' && t[m + 1..] == s.body)
  }

  lemma TextPrinted(s: SequenceDef)
    requires Rereadable(s)
    ensures Printed("CREATE SEQUENCE " + NamePart(s), s) && NamePart(s) != "" && !IsBlank(NamePart(s)[0])
  {
    var t := "CREATE SEQUENCE " + NamePart(s);
    assert t[16..] == NamePart(s);
    assert t[16..16 + |s.name|] == NamePart(s)[..|s.name|] == s.name;
    if s.body != "" {
      assert t[16 + |s.name|] == NamePart(s)[|s.name|] == ' ';
      assert t[17 + |s.name|..] == NamePart(s)[|s.name| + 1..] == s.body;
    }
  }

  lemma NameEnd(t: string, s: SequenceDef)
    requires Rereadable(s) && Printed(t, s)
    ensures BlankEnd(t, 16) == 16 + |s.name| > 16
  {
    forall j | 16 <= j < 16 + |s.name| ensures !IsBlank(t[j]) { assert t[j] == t[16..16 + |s.name|][j - 16]; }
    ColumnList.BlankRun(t, 16, 16 + |s.name|);
  }

  lemma BodyBack(t: string, s: SequenceDef)
    requires Rereadable(s) && Printed(t, s)
    ensures Flattened(TrimSpace(t[16 + |s.name|..]), 0) == s.body
  {
    var m := 16 + |s.name|;
    if s.body == "" {
      assert t[m..] == "" && TrimSpace("") == "";
    } else {
      assert t[m..] == " " + s.body + "";
      TrimSpaceUnpads(" ", s.body, "");
      FlatKept(s.body, 0);
      assert s.body[0..] == s.body;
    }
  }

  lemma BodyAt(t: string, s: SequenceDef, i: nat)
    requires Printed(t, s) && i < |s.body|
    ensures 17 + |s.name| + i < |t| && t[17 + |s.name| + i] == s.body[i]
  {
    assert t[17 + |s.name|..][i] == s.body[i];
  }

  lemma TwoLetters(t: string, s: SequenceDef)
    requires Rereadable(s) && Printed(t, s)
    ensures MatchesAt(t, 16, "IF") && SkipSpaces(t, 18) > 18 ==> Lower(s.name) == "if" && |s.name| == 2
  {
    MatchHas(t, 16, "IF", 0);
    MatchHas(t, 16, "IF", 1);
    NameEnd(t, s);
    assert Lower("IF") == "if";
    if MatchesAt(t, 16, "IF") && SkipSpaces(t, 18) > 18 {
      SkipNeeds(t, 18);
      ColumnList.BlankRun(t, 16, 18);
    }
  }

  lemma OneBlankAt(t: string, s: SequenceDef, i: nat)
    requires Rereadable(s) && Printed(t, s) && i < |s.body| && IsBlank(s.body[i])
    ensures s.body[i] == ' ' && i + 1 < |s.body| && SkipSpaces(t, 17 + |s.name| + i) == 18 + |s.name| + i
  {
    BodyAt(t, s, i);
    BodyAt(t, s, i + 1);
    ColumnPrint.OneBlank(t, 17 + |s.name| + i);
  }

  /** IF NOT EXISTS and a name are seen exactly in a stolen text. */
  lemma StolenSeen(t: string, s: SequenceDef)
    requires Rereadable(s) && Printed(t, s)
    ensures SequenceName(t, 16) == if Stolen(s) then 30 else 16
  {
    hide Rereadable, Printed, Keyword;
    PrintedLength(t, s);
    if Stolen(s) {
      StolenRead(t, s);
    } else {
      var j := IfNotExists(t, 16);
      if j > 16 && BlankEnd(t, j) > j { StolenIf(t, s); }
    }
  }

  lemma PrintedLength(t: string, s: SequenceDef)
    requires Printed(t, s)
    ensures 16 + |s.name| <= |t| && (s.body != "" ==> 17 + |s.name| + |s.body| == |t|)
  {
  }

  lemma NotExistsParts(b: string)
    ensures |b| >= 11 && Lower(b[..11]) == NOT_EXISTS <==>
            |b| >= 11 && MatchesAt(b, 0, "NOT") && LowerChar(b[3]) == ' ' && MatchesAt(b, 4, "EXISTS") && LowerChar(b[10]) == ' '
  {
    if |b| >= 11 {
      var l, n := Lower(b[..11]), NOT_EXISTS;
      assert Lower("NOT") == "not" == n[0..3] && Lower("EXISTS") == "exists" == n[4..10] && n[3] == ' ' && n[10] == ' ';
      LowerParts(b, 0, 3);
      LowerParts(b, 4, 10);
      assert l[3] == LowerChar(b[3]) && l[10] == LowerChar(b[10]);
      hide Lower;
      assert l == l[0..3] + [l[3]] + l[4..10] + [l[10]];
      assert n == n[0..3] + [n[3]] + n[4..10] + [n[10]];
    }
  }

  lemma LowerParts(b: string, i: nat, j: nat)
    requires i <= j <= 11 <= |b|
    ensures Lower(b[i..j]) == Lower(b[..11])[i..j]
  {
  }

  lemma LowerBlank(c: char)
    ensures LowerChar(c) == ' ' <==> c == ' '
  {
  }

  lemma BodyMatch(t: string, s: SequenceDef, i: nat, w: string)
    requires Printed(t, s) && i <= |s.body| && s.body != ""
    ensures MatchesAt(t, 17 + |s.name| + i, w) == MatchesAt(s.body, i, w)
  {
    var k := 17 + |s.name|;
    if i + |w| <= |s.body| { assert t[k + i..k + i + |w|] == t[k..][i..i + |w|] == s.body[i..i + |w|]; }
  }

  /** The word IF and the blank behind it. */
  lemma IfSeen(t: string, s: SequenceDef)
    requires Rereadable(s) && Printed(t, s) && |s.name| == 2 && s.body != ""
    ensures Keyword(t, 16, "IF") == (if MatchesAt(t, 16, "IF") then 19 else 16)
  {
    BodyAt(t, s, 0);
    ColumnPrint.OneBlank(t, 18);
    hide MatchesAt;
  }

  lemma StolenRead(t: string, s: SequenceDef)
    requires Rereadable(s) && Printed(t, s) && Stolen(s)
    ensures SequenceName(t, 16) == 30
  {
    var b := s.body;
    assert |Lower(s.name)| == |s.name| == 2;
    assert MatchesAt(t, 16, "IF") by { assert Lower("IF") == "if"; }
    NotExistsParts(b);
    LowerBlank(b[3]);
    LowerBlank(b[10]);
    hide MatchesAt, Lower, NOT_EXISTS, Stolen;
    IfSeen(t, s);
    BodyMatch(t, s, 0, "NOT");
    BodyMatch(t, s, 4, "EXISTS");
    OneBlankAt(t, s, 3);
    OneBlankAt(t, s, 10);
    BodyAt(t, s, 11);
    VisibleEnd(t, 30);
    hide SkipSpaces, BlankEnd, Rereadable, Printed;
  }

  lemma VisibleEnd(t: string, i: nat)
    requires i < |t| && !IsBlank(t[i])
    ensures BlankEnd(t, i) > i
  {
  }

  lemma SkipNeeds(t: string, i: nat)
    requires i <= |t| && SkipSpaces(t, i) > i
    ensures i < |t| && IsBlank(t[i])
  {
  }

  lemma StolenIf(t: string, s: SequenceDef)
    requires Rereadable(s) && Printed(t, s) && 16 <= |t|
    requires var j := IfNotExists(t, 16); j > 16 && BlankEnd(t, j) > j
    ensures Stolen(s)
  {
    var b := s.body;
    var j1 := Keyword(t, 16, "IF");
    var j2 := Keyword(t, j1, "NOT");
    var j3 := Keyword(t, j2, "EXISTS");
    assert MatchesAt(t, 16, "IF");
    TwoLetters(t, s);
    SkipNeeds(t, 18);
    hide MatchesAt, Lower, NOT_EXISTS;
    assert b != "";
    IfSeen(t, s);
    SkipNeeds(t, 22);
    BodyMatch(t, s, 0, "NOT");
    BodyAt(t, s, 3);
    OneBlankAt(t, s, 3);
    SkipNeeds(t, 29);
    BodyMatch(t, s, 4, "EXISTS");
    BodyAt(t, s, 10);
    OneBlankAt(t, s, 10);
    LowerBlank(b[3]);
    LowerBlank(b[10]);
    NotExistsParts(b);
  }

  /** A printed sequence is read as that sequence, exactly when its name is not
      taken for IF NOT EXISTS. */
  lemma SequenceReread(s: SequenceDef)
    requires Rereadable(s)
    ensures ReadCreateSequence(SequenceText(s)) == Read(CreateSequence(s.name, s.body)) <==> !Stolen(s)
  {
    var t := "CREATE SEQUENCE " + NamePart(s);
    TextParts(s);
    TextPrinted(s);
    LeadWords(t, NamePart(s));
    StolenSeen(t, s);
    PrintedLength(t, s);
    NameEnd(t, s);
    BodyBack(t, s);
    hide Keyword, BlankEnd, SequenceName, Flattened, TrimSpace, Rereadable, SequenceText, NamePart;
    if Stolen(s) {
      var to := BlankEnd(t, 30);
      TrimShorter(t[to..]);
      FlattenedShorter(TrimSpace(t[to..]), 0);
      StolenBody(s);
    }
  }

  lemma StolenBody(s: SequenceDef)
    requires Stolen(s)
    ensures |s.name| == 2 && s.body != ""
  {
    assert |Lower(s.name)| == |s.name|;
  }
}
