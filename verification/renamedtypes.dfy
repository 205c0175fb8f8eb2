/** ALTER TYPE ... RENAME TO on a composite or range type: what becomes of its
    stored text, and what the text is then read as. */
module RenamedTypes {
  import opened Text
  import opened Ast
  import opened Patterns
  import opened Positions
  import opened Catalog
  import opened Indexed
  import opened Columns
  import opened Rereading
  import opened Script
  import opened Replay
  import Soundness
  import Scanner
  import ColumnPrint
  import ColumnList
  import IdentityKinds
  import TruncateParser

  // ---- The rewritten text ----

  /** What ends the name: a blank, a tab or a line end. */
  predicate EndsName(c: char) { c == ' ' || c == '\t' || c == '\n' || c == '\r' }

  lemma {:induction false} NameTo(s: string, i: nat, n: nat)
    requires i <= n <= |s| && (forall k :: i <= k < n ==> !EndsName(s[k])) && (n < |s| ==> EndsName(s[n]))
    ensures TokenEnd(s, i) == n
    decreases n - i
  {
    if i < n { NameTo(s, i + 1, n); }
  }

  /** In a text CREATE TYPE was ..., in any case, the new name stands for the old
      one if that is the name meant; otherwise the text stays. */
  lemma NameReplaced(lead: string, was: string, tail: string, name: string, newName: string)
    requires Upper(lead) == CREATE_TYPE && (forall i :: 0 <= i < |was| ==> !EndsName(was[i]))
    requires tail == "" || EndsName(tail[0])
    ensures ReplaceTypeName(lead + was + tail, name, newName)
            == lead + (if NormIdent(was) == NormIdent(name) then newName else was) + tail
  {
    hide NormIdent, CREATE_TYPE, IndexFrom, Upper, EndsName, TokenEnd;
    LeadFirst(lead, was + tail);
    AssociateThree(lead, was, tail);
    NameSlice(lead, was, tail);
  }

  lemma LeadFirst(lead: string, more: string)
    requires Upper(lead) == CREATE_TYPE
    ensures IndexOf(Upper(lead + more), CREATE_TYPE) == 0 && |lead| == |CREATE_TYPE|
  {
    assert |Upper(lead)| == |lead|;
    assert Upper(lead + more)[0..|lead|] == Upper(lead);
    hide CREATE_TYPE, Upper;
    FirstOccurrence(Upper(lead + more), CREATE_TYPE, 0, 0);
  }

  lemma NameSlice(lead: string, was: string, tail: string)
    requires (forall i :: 0 <= i < |was| ==> !EndsName(was[i])) && (tail == "" || EndsName(tail[0]))
    ensures var s, n := lead + was + tail, |lead| + |was|;
            TokenEnd(s, |lead|) == n && s[|lead|..n] == was && s[..|lead|] == lead && s[n..] == tail
  {
    hide EndsName;
    var s, n := lead + was + tail, |lead| + |was|;
    forall k | |lead| <= k < n ensures !EndsName(s[k]) { assert s[k] == was[k - |lead|]; }
    assert n < |s| ==> s[n] == tail[0];
    NameTo(s, |lead|, n);
  }

  /** ALTER TYPE addr RENAME TO address. */
  lemma AddressRenamed()
    ensures ReplaceTypeName("CREATE TYPE addr" + " AS (street text)", "addr", "address")
            == "CREATE TYPE address" + " AS (street text)"
  {
    var lead, tail := CREATE_TYPE, " AS (street text)";
    assert Upper(lead) == CREATE_TYPE && tail[0] == ' ';
    assert lead + "addr" == "CREATE TYPE addr" && lead + "address" == "CREATE TYPE address";
    hide NormIdent, CREATE_TYPE, ReplaceTypeName;
    NameReplaced(lead, "addr", tail, "addr", "address");
  }

  /** A text without CREATE TYPE and its blank stays as it is. */
  lemma NoLead(sql: string, name: string, newName: string)
    requires IndexOf(Upper(sql), CREATE_TYPE) < 0
    ensures ReplaceTypeName(sql, name, newName) == sql
  {
  }

  const DOUBLE_BLANK := "CREATE  TYPE addr AS (street text)"

  lemma DoubleBlankText(u: string)
    requires u == Upper(DOUBLE_BLANK)
    ensures forall j :: !OccursAt(u, CREATE_TYPE, j)
  {
    forall j ensures !OccursAt(u, CREATE_TYPE, j) {
      OccursHas(u, CREATE_TYPE, j, 0);
      OccursHas(u, CREATE_TYPE, j, 7);
    }
  }

  /** With two blanks between the words the stored text keeps the old name. */
  lemma DoubleBlankKept(newName: string)
    ensures ReplaceTypeName(DOUBLE_BLANK, "addr", newName) == DOUBLE_BLANK
  {
    hide DOUBLE_BLANK, IndexFrom, NormIdent;
    var u := Upper(DOUBLE_BLANK);
    DoubleBlankText(u);
    IndexFromFirst(u, CREATE_TYPE, 0);
  }

  /** As the parser reads a composite or range declaration, the name stands at 12
      and a blank, tab or line end behind it. */
  predicate Usual(sql: string) {
    var h := HeadOfType(sql);
    h.TypeHead? && h.from == 12 && h.to < |sql| && Upper(sql[..12]) == CREATE_TYPE && EndsName(sql[h.to])
  }

  function Renamed(sql: string, newName: string): string
    requires HeadOfType(sql).TypeHead?
  {
    sql[..HeadOfType(sql).from] + newName + sql[HeadOfType(sql).to..]
  }

  lemma {:induction false} BlankEndIs(s: string, i: nat)
    requires i <= |s|
    ensures var n := BlankEnd(s, i);
            (forall k :: i <= k < n ==> !IsBlank(s[k])) && (n < |s| ==> IsBlank(s[n]))
    decreases |s| - i
  {
    if i < |s| && !IsBlank(s[i]) { BlankEndIs(s, i + 1); }
  }

  /** Where the parts of the head stand: CREATE, blanks, TYPE at a, blanks, the name. */
  lemma HeadParts(s: string) returns (a: nat)
    requires HeadOfType(s).TypeHead?
    ensures var h := HeadOfType(s);
            && 6 < a && a + 4 < h.from < h.to < |s| && IsBlank(s[h.to]) && IsBlank(s[6]) && IsBlank(s[a + 4])
            && (forall k :: 0 <= k < 6 ==> !IsBlank(s[k])) && (forall k :: 6 <= k < a ==> IsBlank(s[k]))
            && (forall k :: a <= k < a + 4 ==> !IsBlank(s[k])) && (forall k :: a + 4 <= k < h.from ==> IsBlank(s[k]))
            && (forall k :: h.from <= k < h.to ==> !IsBlank(s[k]))
  {
    hide MatchesAt, BlankEnd;
    a := Keyword(s, 0, "CREATE");
    var from := Keyword(s, a, "TYPE");
    WordVisible(s, 0, "CREATE");
    WordVisible(s, a, "TYPE");
    BlanksAre(s, 6);
    BlanksAre(s, a + 4);
    BlankEndIs(s, from);
  }

  lemma WordVisible(s: string, i: nat, w: string)
    requires w in {"CREATE", "TYPE"} && MatchesAt(s, i, w)
    ensures forall k :: i <= k < i + |w| ==> !IsBlank(s[k])
  {
    forall k | i <= k < i + |w| ensures !IsBlank(s[k]) {
      MatchHas(s, i, w, k - i);
      assert 'A' <= w[k - i] <= 'Z';
    }
  }

  /** The words CREATE TYPE do not stand again in the head. */
  lemma LeadOnce(s: string, pos: int)
    requires HeadOfType(s).TypeHead? && OccursAt(Upper(s), CREATE_TYPE, pos)
    ensures pos == 0 || pos + 12 > HeadOfType(s).to
  {
    hide HeadOfType, OccursAt, Upper, CREATE_TYPE, IsBlank;
    var a := HeadParts(s);
    LeadChars(s, pos);
    assert !IsBlank(s[pos]) && !IsBlank(s[pos + 5]) && IsBlank(s[pos + 11]);
  }

  lemma LeadChars(s: string, pos: int)
    requires OccursAt(Upper(s), CREATE_TYPE, pos)
    ensures 0 <= pos && pos + 12 <= |s| && (forall k :: pos <= k < pos + 6 ==> !IsBlank(s[k])) && IsBlank(s[pos + 11])
  {
    forall k | pos <= k < pos + 6 ensures !IsBlank(s[k]) {
      OccursHas(Upper(s), CREATE_TYPE, pos, k - pos);
      assert 'A' <= CREATE_TYPE[k - pos] <= 'Z';
    }
    OccursHas(Upper(s), CREATE_TYPE, pos, 11);
  }

  /** The old name goes exactly in the usual form. */
  lemma RewriteExact(sql: string, name: string, newName: string)
    requires HeadOfType(sql).TypeHead? && Token(newName)
    requires var h := HeadOfType(sql);
             && NormIdent(name) == NormIdent(sql[h.from..h.to]) && NormIdent(name) != NormIdent(newName)
             && NormIdent(name) != ""
    ensures ReplaceTypeName(sql, name, newName) == Renamed(sql, newName) <==> Usual(sql)
  {
    hide HeadOfType;
    var a := HeadParts(sql);
    if Usual(sql) {
      UsualRewritten(sql, name, newName);
    } else {
      UnusualKept(sql, name, newName);
    }
  }

  lemma UsualRewritten(sql: string, name: string, newName: string)
    requires Usual(sql) && var h := HeadOfType(sql); NormIdent(name) == NormIdent(sql[h.from..h.to])
    ensures ReplaceTypeName(sql, name, newName) == Renamed(sql, newName)
  {
    hide HeadOfType, NormIdent, ReplaceTypeName;
    var a := HeadParts(sql);
    var h := HeadOfType(sql);
    var lead, was, tail := sql[..12], sql[12..h.to], sql[h.to..];
    forall i | 0 <= i < |was| ensures !EndsName(was[i]) { assert was[i] == sql[12 + i] && !IsBlank(sql[12 + i]); }
    assert sql == lead + was + tail;
    NameReplaced(lead, was, tail, name, newName);
  }

  /** A text that agrees with s beyond the name has the same name there. */
  lemma SameName(s: string, from: nat, to: nat, r: string, newName: string)
    requires from < to < |s| && to < |r| && Token(newName) && IsBlank(s[to]) && r[..to + 1] == s[..to + 1]
    requires forall k :: from <= k < to ==> !IsBlank(s[k])
    requires r == s[..from] + newName + s[to..]
    ensures s[from..to] == newName
  {
    forall k | from <= k <= to ensures r[k] == s[k] { assert r[k] == r[..to + 1][k]; }
    var n := from + |newName|;
    forall k | from <= k < n ensures !IsBlank(r[k]) { assert r[k] == newName[k - from]; }
    assert r[n] == s[to];
    ColumnList.BlankRun(r, from, to);
    ColumnList.BlankRun(r, from, n);
    assert r[from..n] == newName;
  }

  lemma NotItself(s: string, from: nat, to: nat, newName: string)
    requires from <= to <= |s| && s == s[..from] + newName + s[to..]
    ensures s[from..to] == newName
  {
    var w := s[..from] + newName + s[to..];
    assert |w| == |s| && w[from..from + |newName|] == newName;
  }

  lemma UnusualKept(sql: string, name: string, newName: string)
    requires HeadOfType(sql).TypeHead? && !Usual(sql) && Token(newName)
    requires var h := HeadOfType(sql);
             && NormIdent(name) == NormIdent(sql[h.from..h.to]) && NormIdent(name) != NormIdent(newName)
             && NormIdent(name) != ""
    ensures ReplaceTypeName(sql, name, newName) != Renamed(sql, newName)
  {
    hide NormIdent, IndexFrom, HeadOfType, Upper, Usual, ReplaceTypeName, CREATE_TYPE;
    var h := HeadOfType(sql);
    var a := HeadParts(sql);
    var pos := IndexOf(Upper(sql), CREATE_TYPE);
    IndexFromFirst(Upper(sql), CREATE_TYPE, 0);
    if sql == Renamed(sql, newName) { NotItself(sql, h.from, h.to, newName); }
    if pos < 0 {
      NoLead(sql, name, newName);
    } else if pos == 0 {
      LeadUpper(sql);
      LeadBlank(sql);
      FirstLead(sql, name, newName);
    } else {
      LeadOnce(sql, pos);
      LaterLead(sql, name, newName, pos);
    }
  }

  lemma OneOfTwo(sql: string, name: string, newName: string, pos: int)
    requires pos == IndexOf(Upper(sql), CREATE_TYPE) >= 0
    ensures pos + 12 <= |sql|
    ensures var r := ReplaceTypeName(sql, name, newName);
            r == sql || r == sql[..pos + 12] + newName + sql[TokenEnd(sql, pos + 12)..]
  {
    hide NormIdent, IndexFrom, TokenEnd;
  }

  lemma FrontKept(a: string, b: string, n: nat)
    requires n <= |a|
    ensures (a + b)[..n] == a[..n]
  {
  }

  lemma LaterLead(sql: string, name: string, newName: string, pos: int)
    requires HeadOfType(sql).TypeHead? && Token(newName) && sql != Renamed(sql, newName)
    requires var h := HeadOfType(sql);
             && h.from < h.to < |sql| && pos == IndexOf(Upper(sql), CREATE_TYPE) >= 0 && pos + 12 > h.to
             && IsBlank(sql[h.to]) && (forall k :: h.from <= k < h.to ==> !IsBlank(sql[k]))
             && sql[h.from..h.to] != newName
    ensures ReplaceTypeName(sql, name, newName) != Renamed(sql, newName)
  {
    hide NormIdent, IndexFrom, HeadOfType, Upper, TokenEnd, Token, IsBlank, ReplaceTypeName, CREATE_TYPE;
    var h := HeadOfType(sql);
    OneOfTwo(sql, name, newName, pos);
    var start := pos + 12;
    var r := sql[..start] + newName + sql[TokenEnd(sql, start)..];
    FrontKept(sql[..start], newName + sql[TokenEnd(sql, start)..], h.to + 1);
    assert r == sql[..start] + (newName + sql[TokenEnd(sql, start)..]);
    if r == Renamed(sql, newName) { SameName(sql, h.from, h.to, r, newName); }
  }

  lemma LeadUpper(sql: string)
    requires OccursAt(Upper(sql), CREATE_TYPE, 0)
    ensures |sql| >= 12 && Upper(sql[..12]) == CREATE_TYPE
  {
    assert Upper(sql[..12]) == Upper(sql)[0..12];
  }

  lemma LeadBlank(sql: string)
    requires HeadOfType(sql).TypeHead? && |sql| >= 12 && Upper(sql[..12]) == CREATE_TYPE
    ensures var from := HeadOfType(sql).from; from >= 12 && (from > 12 ==> IsBlank(sql[12]))
  {
    hide HeadOfType, Upper;
    var a := HeadParts(sql);
    assert CREATE_TYPE[7] == 'T';
    assert Upper(sql[..12])[7] == UpperChar(sql[7]) == 'T';
    assert !IsBlank(sql[7]);
  }

  lemma {:induction false} TokenEndIs(s: string, i: nat)
    requires i <= |s|
    ensures var n := TokenEnd(s, i); n < |s| ==> EndsName(s[n])
    decreases |s| - i
  {
    if i < |s| && !EndsName(s[i]) { TokenEndIs(s, i + 1); }
  }

  lemma FirstLead(sql: string, name: string, newName: string)
    requires HeadOfType(sql).TypeHead? && !Usual(sql) && Token(newName) && IndexOf(Upper(sql), CREATE_TYPE) == 0
    requires |sql| >= 12 && Upper(sql[..12]) == CREATE_TYPE && sql != Renamed(sql, newName)
    requires var h := HeadOfType(sql);
             12 <= h.from < h.to < |sql| && (h.from > 12 ==> IsBlank(sql[12]))
    ensures ReplaceTypeName(sql, name, newName) != Renamed(sql, newName)
  {
    hide NormIdent, IndexFrom, HeadOfType;
    var h := HeadOfType(sql);
    var end := TokenEnd(sql, 12);
    TokenEndIs(sql, 12);
    var r, w := sql[..12] + newName + sql[end..], Renamed(sql, newName);
    if h.from > 12 {
      assert r[12] == newName[0] && w[12] == sql[12];
    } else {
      assert |r| - |w| == h.to - end;
    }
  }

  // ---- What the texts are read as ----

  /** The head of a declaration, from where its parts stand. */
  lemma HeadBuilt(s: string, a: nat, from: nat, to: nat, l: nat)
    requires 6 < a && a + 4 < from < to < |s| && MatchesAt(s, 0, "CREATE") && MatchesAt(s, a, "TYPE")
    requires (forall k :: 6 <= k < a ==> IsBlank(s[k])) && !IsBlank(s[a])
    requires forall k :: a + 4 <= k < from ==> IsBlank(s[k])
    requires (forall k :: from <= k < to ==> !IsBlank(s[k])) && IsBlank(s[to])
    requires SkipSpaces(s, to) == l && MatchesAt(s, l, "AS")
    ensures HeadOfType(s) == TypeHead(from, to, l + 2)
  {
    hide MatchesAt, SkipSpaces, BlankEnd;
    assert !IsBlank(s[from]);
    IdentityKinds.BlanksTo(s, 6, a);
    IdentityKinds.BlanksTo(s, a + 4, from);
    ColumnList.BlankRun(s, from, to);
    SkipsOne(s, to);
  }

  lemma SkipsOne(s: string, i: nat)
    requires i < |s| && IsBlank(s[i])
    ensures SkipSpaces(s, i) > i
  {
  }

  lemma HeadWords(s: string) returns (a: nat)
    requires HeadOfType(s).TypeHead?
    ensures var h := HeadOfType(s);
            && 6 < a && a + 4 < h.from < h.to < |s| && MatchesAt(s, 0, "CREATE") && MatchesAt(s, a, "TYPE")
            && (forall k :: 6 <= k < a ==> IsBlank(s[k])) && !IsBlank(s[a])
            && (forall k :: a + 4 <= k < h.from ==> IsBlank(s[k]))
            && (forall k :: h.from <= k < h.to ==> !IsBlank(s[k])) && IsBlank(s[h.to])
            && MatchesAt(s, SkipSpaces(s, h.to), "AS") && h.rest == SkipSpaces(s, h.to) + 2
  {
    hide MatchesAt, SkipSpaces, BlankEnd;
    a := HeadParts(s);
    var a1 := Keyword(s, 0, "CREATE");
    WordVisible(s, 0, "CREATE");
    WordVisible(s, a1, "TYPE");
    BlanksAre(s, 6);
    assert a == a1;
  }

  /** The declaration with another name has its head at the same place. */
  lemma HeadRenamed(s: string, newName: string)
    requires HeadOfType(s).TypeHead? && Token(newName)
    ensures var h := HeadOfType(s);
            HeadOfType(Renamed(s, newName)) == TypeHead(h.from, h.from + |newName|, h.rest - h.to + h.from + |newName|)
  {
    hide HeadOfType, MatchesAt, SkipSpaces;
    var h := HeadOfType(s);
    var a := HeadWords(s);
    var p, z := s[..h.from], s[h.to..];
    var b := p + newName;
    var w := Renamed(s, newName);
    assert w == b + z && s == s[..h.to] + z;
    var l := SkipSpaces(z, 0);
    ColumnPrint.SkipShift(s[..h.to], z, 0);
    ColumnPrint.SkipShift(b, z, 0);
    ColumnPrint.MatchShift(s[..h.to], z, l, "AS");
    ColumnPrint.MatchShift(b, z, l, "AS");
    assert forall k :: 0 <= k < h.from ==> w[k] == s[k];
    assert forall k :: h.from <= k < |b| ==> w[k] == newName[k - h.from];
    assert w[|b|] == s[h.to];
    SameStart(s, w, 0, "CREATE");
    SameStart(s, w, a, "TYPE");
    HeadBuilt(w, a, h.from, |b|, |b| + l);
  }

  lemma SameStart(s: string, w: string, i: nat, word: string)
    requires i + |word| <= |s| && i + |word| <= |w| && forall k :: i <= k < i + |word| ==> w[k] == s[k]
    ensures MatchesAt(s, i, word) == MatchesAt(w, i, word)
  {
    assert s[i..i + |word|] == w[i..i + |word|];
  }

  lemma OpenShift(a: string, z: string, i: nat, w: string)
    requires i <= |z|
    ensures OpenAt(a + z, |a| + i) == if OpenAt(z, i) < 0 then -1 else |a| + OpenAt(z, i)
    ensures OpenAfter(a + z, |a| + i, w) == if OpenAfter(z, i, w) < 0 then -1 else |a| + OpenAfter(z, i, w)
  {
    hide SkipSpaces, MatchesAt;
    var j := SkipSpaces(z, i);
    ColumnPrint.SkipShift(a, z, i);
    assert j < |z| ==> (a + z)[|a| + j] == z[j];
    ColumnPrint.MatchShift(a, z, j, w);
    if MatchesAt(z, j, w) {
      MatchFits(z, j, w);
      var k := SkipSpaces(z, j + |w|);
      ColumnPrint.SkipShift(a, z, j + |w|);
      assert k < |z| ==> (a + z)[|a| + k] == z[k];
    }
  }

  lemma MatchFits(z: string, j: nat, w: string)
    requires MatchesAt(z, j, w)
    ensures j + |w| <= |z|
  {
  }

  lemma {:induction false} CloseShift(a: string, z: string, lo: nat, n: nat)
    requires n <= |z|
    ensures LastClose(a + z, |a| + lo, |a| + n) == if LastClose(z, lo, n) < 0 then -1 else |a| + LastClose(z, lo, n)
    decreases n
  {
    if n > lo {
      assert (a + z)[|a| + n - 1] == z[n - 1];
      if z[n - 1] != ')' { CloseShift(a, z, lo, n - 1); }
    }
  }

  lemma LabelsShift(a: string, z: string, p: nat)
    requires p < |z|
    ensures LabelsEnd(a + z, |a| + p) == if LabelsEnd(z, p) < 0 then -1 else |a| + LabelsEnd(z, p)
  {
    ColumnList.LineBreakShift(a, z, p + 1);
    CloseShift(a, z, p + 2, LineBreak(z, p + 1));
  }

  /** The reading of a declaration whose head ends in front of z. */
  function ReadTail(name: string, text: string, z: string, rest: nat): Statement
    requires rest <= |z|
  {
    var p := OpenAfter(z, rest, "ENUM");
    var q := if p >= 0 then LabelsEnd(z, p) else -1;
    if q >= 0 then CreateType(name, LabelsOf(Scanner.CommaItems(z[p + 1..q])))
    else if OpenAfter(z, rest, "RANGE") >= 0 || OpenAt(z, rest) >= 0 then
      CreateObject(TypeKind, NormIdent(name), false, Verbatim(text))
    else Unknown(text)
  }

  lemma ReadsTail(a: string, z: string, from: nat, rest: nat)
    requires from <= |a| && rest <= |z| && HeadOfType(a + z) == TypeHead(from, |a|, |a| + rest)
    ensures ReadType(a + z) == ReadTail(a[from..], a + z, z, rest)
  {
    hide HeadOfType, OpenAfter, OpenAt, LabelsEnd, LabelsOf, Scanner.CommaItems, Verbatim, NormIdent;
    OpenShift(a, z, rest, "ENUM");
    OpenShift(a, z, rest, "RANGE");
    assert (a + z)[from..|a|] == a[from..];
    var p := OpenAfter(z, rest, "ENUM");
    if p >= 0 {
      LabelsShift(a, z, p);
      var q := LabelsEnd(z, p);
      if q >= 0 { assert (a + z)[|a| + p + 1..|a| + q] == z[p + 1..q]; }
    }
  }

  /** The same statement about another type. */
  function Retyped(s: Statement, newName: string, text: string): Statement {
    match s
    case CreateType(_, labels) => CreateType(newName, labels)
    case CreateObject(kind, _, orReplace, _) => CreateObject(kind, NormIdent(newName), orReplace, Verbatim(text))
    case _ => Unknown(text)
  }

  /** A declaration with another name is read as that of the type so called. */
  lemma ReadRenamed(s: string, newName: string)
    requires HeadOfType(s).TypeHead? && Token(newName)
    ensures ReadType(Renamed(s, newName)) == Retyped(ReadType(s), newName, Renamed(s, newName))
  {
    hide HeadOfType, ReadType, Verbatim, NormIdent, ReadTail, Retyped, Token;
    var h := HeadOfType(s);
    HeadRenamed(s, newName);
    RestWithin(s);
    var p, z := s[..h.from], s[h.to..];
    var b, w := p + newName, Renamed(s, newName);
    assert w == b + z && s == s[..h.to] + z && b[h.from..] == newName;
    ReadsTail(s[..h.to], z, h.from, h.rest - h.to);
    ReadsTail(b, z, h.from, h.rest - h.to);
    TailRetyped(s[..h.to][h.from..], s, newName, w, z, h.rest - h.to);
  }

  lemma TailRetyped(name: string, s: string, newName: string, w: string, z: string, rest: nat)
    requires rest <= |z|
    ensures ReadTail(newName, w, z, rest) == Retyped(ReadTail(name, s, z, rest), newName, w)
  {
    hide Verbatim, NormIdent, LabelsOf, OpenAfter, OpenAt, LabelsEnd, Scanner.CommaItems, Retyped;
    RetypedKinds(name, s, newName, w);
  }

  lemma RetypedKinds(name: string, s: string, newName: string, w: string)
    ensures forall labels: seq<string> :: Retyped(CreateType(name, labels), newName, w) == CreateType(newName, labels)
    ensures Retyped(CreateObject(TypeKind, NormIdent(name), false, Verbatim(s)), newName, w)
            == CreateObject(TypeKind, NormIdent(newName), false, Verbatim(w))
    ensures Retyped(Unknown(s), newName, w) == Unknown(w)
  {
    hide Verbatim, NormIdent;
  }

  lemma RestWithin(s: string)
    requires HeadOfType(s).TypeHead?
    ensures var h := HeadOfType(s); h.from <= h.to <= h.rest <= |s|
  {
  }

  lemma LeadText(name: string, more: string)
    requires Token(name) && more != "" && IsBlank(more[0])
    ensures var s := CREATE_TYPE + name + more;
            && MatchesAt(s, 0, "CREATE") && IsBlank(s[6]) && MatchesAt(s, 7, "TYPE") && !IsBlank(s[7]) && IsBlank(s[11])
            && (forall k :: 12 <= k < 12 + |name| ==> !IsBlank(s[k])) && s[12 + |name|] == more[0]
  {
    var s := CREATE_TYPE + name + more;
    var c := CREATE_TYPE;
    assert c[0..6] == "CREATE" && c[6] == ' ' && c[7..11] == "TYPE" && c[7] == 'T' && c[11] == ' ';
    assert s[0..6] == c[0..6] && s[7..11] == c[7..11];
    ColumnPrint.MatchesItself(s, 0, "CREATE");
    ColumnPrint.MatchesItself(s, 7, "TYPE");
    forall k | 12 <= k < 12 + |name| ensures !IsBlank(s[k]) { assert s[k] == name[k - 12]; }
  }

  lemma TailWords(more: string)
    requires |more| > 3 && more[..3] == " AS" && (more[3] == ' ' || more[3] == '(')
    ensures SkipSpaces(more, 0) == 1 && MatchesAt(more, 1, "AS")
  {
    assert more[0] == more[..3][0] && more[1] == more[..3][1] && more[1..3] == more[..3][1..3] == "AS";
    ColumnPrint.OneBlank(more, 0);
    ColumnPrint.MatchesItself(more, 1, "AS");
  }

  /** CREATE TYPE name AS and something behind it. */
  lemma TypeRead(name: string, more: string)
    requires Token(name) && |more| > 3 && more[..3] == " AS" && (more[3] == ' ' || more[3] == '(')
    ensures ReadType(CREATE_TYPE + name + more) == ReadTail(name, CREATE_TYPE + name + more, more, 3)
  {
    var a := CREATE_TYPE + name;
    var s, to := a + more, 12 + |name|;
    assert more[0] == more[..3][0] == ' ';
    LeadText(name, more);
    TailWords(more);
    hide ReadTail, ReadType, MatchesAt, Token, HeadOfType;
    ColumnPrint.SkipShift(a, more, 0);
    ColumnPrint.MatchShift(a, more, 1, "AS");
    HeadBuilt(s, 7, 12, to, to + 1);
    ReadsTail(a, more, 12, 3);
    assert a[12..] == name;
  }

  /** A composite type is kept verbatim under its normalised name. */
  lemma CompositeRead(name: string, body: string)
    requires Token(name)
    ensures var s := CREATE_TYPE + name + (" AS (" + body);
            ReadType(s) == CreateObject(TypeKind, NormIdent(name), false, Verbatim(s))
  {
    hide MatchesAt, SkipSpaces, Verbatim, NormIdent, LabelsEnd, LabelsOf, Scanner.CommaItems, ReadType;
    var more := " AS (" + body;
    assert more[..3] == " AS" && more[3] == ' ' && more[4] == '(';
    TypeRead(name, more);
    ColumnPrint.OneBlank(more, 3);
    NotKeyword(more, 4, "ENUM", 0);
    NotKeyword(more, 4, "RANGE", 0);
  }

  /** So is a range type. */
  lemma RangeRead(name: string, body: string)
    requires Token(name)
    ensures var s := CREATE_TYPE + name + (" AS RANGE (" + body);
            ReadType(s) == CreateObject(TypeKind, NormIdent(name), false, Verbatim(s))
  {
    hide ReadType, Verbatim, NormIdent, LabelsEnd, LabelsOf, Scanner.CommaItems, OpenAfter, OpenAt, Token, IsBlank;
    var more := " AS RANGE (" + body;
    RangeTail(more, body);
    TypeRead(name, more);
  }

  lemma RangeTail(more: string, body: string)
    requires more == " AS RANGE (" + body
    ensures |more| > 10 && more[..3] == " AS" && more[3] == ' '
    ensures OpenAfter(more, 3, "ENUM") == -1 && OpenAfter(more, 3, "RANGE") == 10
  {
    hide MatchesAt, SkipSpaces;
    var lead := " AS RANGE (";
    assert lead[..3] == " AS" && lead[3] == ' ' && lead[4] == 'R' && lead[4..9] == "RANGE";
    assert lead[9] == ' ' && lead[10] == '(';
    assert more[..3] == lead[..3] && more[4..9] == lead[4..9] && more[3] == ' ' && more[4] == 'R' && more[9] == ' ';
    assert more[10] == '(';
    ColumnPrint.OneBlank(more, 3);
    ColumnPrint.OneBlank(more, 9);
    NotKeyword(more, 4, "ENUM", 0);
    ColumnPrint.MatchesItself(more, 4, "RANGE");
  }

  // ---- The text follows the rename ----

  /** The reader finds the name of a type declaration as the parser does. */
  ghost predicate ReadsTypes(rd: Reader) {
    forall sql :: ReadType(sql).CreateObject? ==> rd.created(TypeKind, sql) == ReadType(sql).name
  }

  lemma LowerQuotes(s: string)
    ensures TrimQuotesLeft(Lower(s)) == Lower(TrimQuotesLeft(s))
    ensures TrimQuotesRight(Lower(s)) == Lower(TrimQuotesRight(s))
  {
    LeftQuotes(s);
    RightQuotes(s);
  }

  lemma {:induction false} LeftQuotes(s: string)
    ensures TrimQuotesLeft(Lower(s)) == Lower(TrimQuotesLeft(s))
    decreases |s|
  {
    if s != "" {
      QuoteLower(s[0]);
      assert Lower(s)[1..] == Lower(s[1..]);
      LeftQuotes(s[1..]);
    }
  }

  lemma {:induction false} RightQuotes(s: string)
    ensures TrimQuotesRight(Lower(s)) == Lower(TrimQuotesRight(s))
    decreases |s|
  {
    if s != "" {
      QuoteLower(s[|s| - 1]);
      assert Lower(s)[..|s| - 1] == Lower(s[..|s| - 1]);
      RightQuotes(s[..|s| - 1]);
    }
  }

  lemma QuoteLower(c: char)
    ensures LowerChar(c) == '"' <==> c == '"'
  {
  }

  lemma {:induction false} QuotesGone(s: string)
    ensures var l, r := TrimQuotesLeft(s), TrimQuotesRight(s);
            (l != "" ==> l[0] != '"') && (r != "" ==> r[|r| - 1] != '"') && (l != "" ==> l[|l| - 1] == s[|s| - 1])
    ensures |TrimQuotesRight(s)| > 0 ==> s != "" && TrimQuotesRight(s)[0] == s[0]
    decreases |s|
  {
    if s != "" {
      QuotesGone(s[1..]);
      QuotesGone(s[..|s| - 1]);
    }
  }

  /** Without quotes at its ends, a text keeps all its characters. */
  lemma QuotesTwice(x: string)
    ensures var y := TrimQuotesRight(TrimQuotesLeft(x)); TrimQuotesRight(TrimQuotesLeft(y)) == y
  {
    var l := TrimQuotesLeft(x);
    var y := TrimQuotesRight(l);
    QuotesGone(x);
    QuotesGone(l);
  }

  /** Names with one object key have one table key, if one of them is normalised. */
  lemma KeysAgree(name: string, was: string)
    requires ObjectKey(TypeKind, name) == ObjectKey(TypeKind, NormIdent(was)) && Soundness.Canonical(NormIdent(was))
    ensures NormIdent(name) == NormIdent(was)
  {
    var n := |Lower(KindText(TypeKind))| + 1;
    assert ObjectKey(TypeKind, name)[n..] == Lower(TrimSpace(name));
    assert ObjectKey(TypeKind, NormIdent(was))[n..] == Lower(TrimSpace(NormIdent(was)));
    hide ObjectKey, Lower, TrimSpace, TrimQuotesLeft, TrimQuotesRight;
    var k := Lower(TrimSpace(name));
    LowerQuotes(TrimSpace(name));
    LowerQuotes(TrimQuotesLeft(TrimSpace(name)));
    var u := TrimSpace(was);
    LowerQuotes(u);
    LowerQuotes(TrimQuotesLeft(u));
    QuotesTwice(Lower(u));
  }

  /** The type declared by a text in the usual form is found again under its new
      name: its text follows the rename. */
  lemma TypeFollows(d: Database, name: string, newName: string, rd: Reader)
    requires Soundness.CanonicalReader(rd) && ReadsTypes(rd) && Token(newName)
    requires var p := Find(ObjectKeys(d.objects), ObjectKey(TypeKind, name));
             p >= 0 ==> Readable(d.objects[p], rd) && Usual(d.objects[p].sql) && ReadType(d.objects[p].sql).CreateObject?
    ensures Soundness.TextFollows(d, AlterType(name, RenameType(newName)), rd)
  {
    hide Readable, RenamedType, ObjectKey, FindFrom;
    var p := Find(ObjectKeys(d.objects), ObjectKey(TypeKind, name));
    if p >= 0 {
      FindFromLeast(ObjectKeys(d.objects), ObjectKey(TypeKind, name), 0);
      OneFollows(d.objects[p], name, newName, rd);
    }
  }

  lemma OneFollows(o: ObjectDef, name: string, newName: string, rd: Reader)
    requires Soundness.CanonicalReader(rd) && ReadsTypes(rd) && Token(newName)
    requires ObjectKey(TypeKind, name) == ObjectKey(o.kind, o.name)
    requires Readable(o, rd) && Usual(o.sql) && ReadType(o.sql).CreateObject?
    ensures Readable(RenamedType(o, name, newName), rd)
  {
    hide ObjectKey, NormIdent, HeadOfType, ReadType, ReplaceTypeName, Usual, Token, Verbatim, Soundness.Canonical;
    KeyTellsKind(TypeKind, name, o.kind, o.name);
    ReadName(o.sql);
    var h := HeadOfType(o.sql);
    var was := o.sql[h.from..h.to];
    assert rd.created(TypeKind, o.sql) == NormIdent(was) == o.name;
    assert Soundness.Canonical(rd.created(TypeKind, o.sql));
    KeysAgree(name, was);
    UsualRewritten(o.sql, name, newName);
    ReadRenamed(o.sql, newName);
  }

  lemma ReadName(sql: string)
    requires ReadType(sql).CreateObject?
    ensures var h := HeadOfType(sql); h.TypeHead? && h.to <= |sql| && ReadType(sql).name == NormIdent(sql[h.from..h.to])
  {
    hide HeadOfType, NormIdent, Verbatim, OpenAfter, OpenAt, LabelsEnd, LabelsOf, Scanner.CommaItems;
  }
}
