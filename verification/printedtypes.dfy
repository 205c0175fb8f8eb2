/** Reading back a printed enum: it never is one, for its labels stand on lines
    of their own. */
module PrintedTypes {
  import opened Text
  import opened Ast
  import opened Catalog
  import opened Patterns
  import opened Columns
  import opened Rereading
  import ColumnPrint
  import Scanner
  import Script

  const TYPE_LEAD := "CREATE TYPE "

  const ENUM_OPEN := " AS ENUM ("

  /** An enum declaration up to its opening paren. */
  function EnumHead(name: string): string { TYPE_LEAD + name + ENUM_OPEN }

  lemma LeadPlaces()
    ensures |TYPE_LEAD| == 12 && TYPE_LEAD[0..6] == "CREATE" && TYPE_LEAD[6] == ' ' && TYPE_LEAD[7..11] == "TYPE"
    ensures TYPE_LEAD[7] == 'T' && TYPE_LEAD[11] == ' '
    ensures |ENUM_OPEN| == 10 && ENUM_OPEN[0] == ' ' && ENUM_OPEN[1..3] == "AS" && ENUM_OPEN[1] == 'A' && ENUM_OPEN[3] == ' '
    ensures ENUM_OPEN[4] == 'E' && ENUM_OPEN[4..8] == "ENUM" && ENUM_OPEN[8] == ' ' && ENUM_OPEN[9] == '('
  {
  }

  /** What stands where in an enum declaration. */
  predicate EnumPlaces(s: string, n: nat) {
    && |s| >= 22 + n && s[0..6] == "CREATE" && s[6] == ' ' && s[7] == 'T' && s[7..11] == "TYPE" && s[11] == ' '
    && s[12 + n] == ' ' && s[13 + n] == 'A' && s[13 + n..15 + n] == "AS" && s[15 + n] == ' '
    && s[16 + n] == 'E' && s[16 + n..20 + n] == "ENUM" && s[20 + n] == ' ' && s[21 + n] == '('
  }

  lemma EnumPlaced(name: string, rest: string)
    ensures EnumPlaces(EnumHead(name) + rest, |name|)
  {
    LeadPlaces();
    hide TYPE_LEAD, ENUM_OPEN;
    var s, n := EnumHead(name) + rest, |name|;
    assert s == TYPE_LEAD + (name + ENUM_OPEN + rest);
    assert s[0..6] == TYPE_LEAD[0..6] && s[7..11] == TYPE_LEAD[7..11];
    OpenPlaces(TYPE_LEAD + name, rest);
  }

  lemma OpenPlaces(a: string, rest: string)
    ensures var s, n := a + ENUM_OPEN + rest, |a|;
            && s[n..n + 10] == ENUM_OPEN && s[n + 1..n + 3] == ENUM_OPEN[1..3] && s[n + 4..n + 8] == ENUM_OPEN[4..8]
  {
    var s, n := a + ENUM_OPEN + rest, |a|;
    assert s[n..n + 10] == ENUM_OPEN;
    SliceOfSlice(s, n, n + 10, n + 1, n + 3);
    SliceOfSlice(s, n, n + 10, n + 4, n + 8);
  }

  lemma HeadRead(name: string, rest: string)
    requires Token(name)
    ensures HeadOfType(EnumHead(name) + rest) == TypeHead(12, 12 + |name|, 15 + |name|)
  {
    var s, n := EnumHead(name) + rest, |name|;
    EnumPlaced(name, rest);
    assert s[12] == name[0] by { assert s == TYPE_LEAD + name + (ENUM_OPEN + rest) && |TYPE_LEAD| == 12; }
    NameRead(name, rest);
    hide EnumHead, MatchesAt, BlankEnd;
    KeywordAt(s, 0, "CREATE");
    KeywordAt(s, 7, "TYPE");
    ColumnPrint.OneBlank(s, 12 + n);
    ColumnPrint.MatchesItself(s, 13 + n, "AS");
    hide Keyword, SkipSpaces;
  }

  lemma NameRead(name: string, rest: string)
    requires Token(name)
    ensures BlankEnd(EnumHead(name) + rest, 12) == 12 + |name|
  {
    LeadPlaces();
    hide TYPE_LEAD, ENUM_OPEN, BlankEnd;
    WordEnds(TYPE_LEAD, name, ENUM_OPEN + rest);
    assert EnumHead(name) + rest == TYPE_LEAD + name + (ENUM_OPEN + rest);
  }

  /** Behind AS stands ENUM and its paren, and nothing else that is looked for. */
  lemma OpenRead(s: string, n: nat)
    requires EnumPlaces(s, n)
    ensures OpenAfter(s, 15 + n, "ENUM") == 21 + n && OpenAfter(s, 15 + n, "RANGE") == -1 && OpenAt(s, 15 + n) == -1
  {
    ColumnPrint.OneBlank(s, 15 + n);
    ColumnPrint.OneBlank(s, 20 + n);
    ColumnPrint.MatchesItself(s, 16 + n, "ENUM");
    NotKeyword(s, 16 + n, "RANGE", 0);
    hide SkipSpaces, MatchesAt;
  }

  lemma HeadLength(name: string)
    ensures |EnumHead(name)| == 22 + |name|
  {
  }

  /** With a line break behind the paren, no labels are found. */
  lemma BreakUnread(name: string, rest: string)
    requires Token(name) && rest != "" && rest[0] == '\n'
    ensures ReadType(EnumHead(name) + rest) == Unknown(EnumHead(name) + rest)
  {
    var s, n := EnumHead(name) + rest, |name|;
    EnumPlaced(name, rest);
    HeadRead(name, rest);
    OpenRead(s, n);
    HeadLength(name);
    assert s[22 + n] == '\n';
    assert LabelsEnd(s, 21 + n) == -1;
    hide HeadOfType, OpenAfter, OpenAt, LabelsEnd, EnumHead;
  }

  /** A printed enum is never read as an enum: it is passed through. */
  lemma EnumUnread(e: EnumDef)
    requires Token(e.name)
    ensures ReadType(Script.EnumText(e)) == Unknown(Script.EnumText(e))
  {
    var rest := "\n    " + Join(Script.Quoted(e.labels), Script.LABEL_BREAK) + "\n)";
    EnumTextIs(e.name, Join(Script.Quoted(e.labels), Script.LABEL_BREAK));
    hide ReadType, EnumHead, Join;
    BreakUnread(e.name, rest);
  }

  lemma EnumTextIs(name: string, labels: string)
    ensures "CREATE TYPE " + name + " AS ENUM (\n    " + labels + "\n)" == EnumHead(name) + ("\n    " + labels + "\n)")
  {
    var a := "CREATE TYPE " + name;
    assert " AS ENUM (\n    " == ENUM_OPEN + "\n    ";
    assert a + (ENUM_OPEN + "\n    ") == a + ENUM_OPEN + "\n    ";
  }

  lemma {:induction false} NoLineBreak(s: string, i: nat, n: nat)
    requires i <= n <= |s| && (forall j :: i <= j < n ==> s[j] != '\n') && (n == |s| || s[n] == '\n')
    ensures LineBreak(s, i) == n
    decreases n - i
  {
    if i < n { NoLineBreak(s, i + 1, n); }
  }

  /** Written on one line, with at least one character between the parens, an enum
      is read. */
  lemma OneLineRead(name: string, labels: string)
    requires Token(name) && labels != "" && '\n' !in labels
    ensures ReadType(EnumHead(name) + (labels + ")")) == CreateType(name, LabelsOf(Scanner.CommaItems(labels)))
  {
    hide HeadOfType, OpenAfter, OpenAt, LabelsEnd, EnumHead, Scanner.CommaItems, LabelsOf, EnumPlaces, Token;
    var rest := labels + ")";
    var s, n := EnumHead(name) + rest, |name|;
    EnumPlaced(name, rest);
    HeadRead(name, rest);
    OpenRead(s, n);
    HeadLength(name);
    OneLineEnd(EnumHead(name), labels);
    NameSlice(name, rest);
    BodySlice(EnumHead(name), labels);
  }

  lemma NameSlice(name: string, rest: string)
    ensures (EnumHead(name) + rest)[12..12 + |name|] == name
  {
    LeadPlaces();
    hide TYPE_LEAD, ENUM_OPEN;
    assert EnumHead(name) + rest == TYPE_LEAD + name + (ENUM_OPEN + rest);
  }

  lemma BodySlice(head: string, labels: string)
    ensures (head + (labels + ")"))[|head|..|head| + |labels|] == labels
  {
    assert head + (labels + ")") == head + labels + ")";
  }

  lemma OneLineEnd(head: string, labels: string)
    requires labels != "" && '\n' !in labels && head != ""
    ensures LabelsEnd(head + (labels + ")"), |head| - 1) == |head| + |labels|
  {
    var s := head + (labels + ")");
    assert forall j :: |head| <= j < |head| + |labels| ==> s[j] == labels[j - |head|];
    assert s[|s| - 1] == ')';
    NoLineBreak(s, |head|, |s|);
  }
}
