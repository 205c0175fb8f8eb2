/** TRUNCATE in the forms people write: TABLE, ONLY, stars, and the words behind
    the names. */
module TruncateForms {
  import opened Text
  import opened Ast
  import opened Patterns
  import opened Phrases
  import opened TruncateParser
  import WrittenForms
  import ColumnPrint

  // ---- The words behind the names ----

  /** What each word says of the statement. */
  lemma ModifierRead(s: string, w: string)
    requires Upper(w) in {" CASCADE", " RESTRICT", " RESTART IDENTITY", " CONTINUE IDENTITY"}
    ensures var r := StripModifiers(s);
            StripModifiers(s + w)
            == Stripped(r.rest, r.restartIdentity || Upper(w) == " RESTART IDENTITY", r.cascade || Upper(w) == " CASCADE")
  {
    var t, u := s + w, Upper(w);
    UpperSuffix(s, w);
    assert |w| == |u|;
    hide Word, StripModifiers;
    Endings(t, u);
    Strips(t, s);
  }

  lemma UpperSuffix(s: string, w: string)
    ensures HasSuffix(Upper(s + w), Upper(w)) && (s + w)[..|s + w| - |w|] == s
  {
    var u := Upper(s + w);
    assert u[|s|..] == Upper(w);
  }

  /** The word is the one that is found. */
  lemma Endings(t: string, u: string)
    requires u in {" CASCADE", " RESTRICT", " RESTART IDENTITY", " CONTINUE IDENTITY"} && HasSuffix(Upper(t), u)
    ensures LastModifier(t) == Some(if u == " CASCADE" then CascadeWord else if u == " RESTRICT" then RestrictWord
                                    else if u == " RESTART IDENTITY" then RestartWord else ContinueWord)
  {
    hide Upper;
    var up := Upper(t);
    if u == " CONTINUE IDENTITY" {
      Continue(up);
    } else {
      SuffixHas(up, u, |u| - 1);
      SuffixHas(up, " CASCADE", 7);
      SuffixHas(up, " RESTRICT", 8);
      hide HasSuffix;
    }
  }

  lemma Continue(up: string)
    requires HasSuffix(up, " CONTINUE IDENTITY")
    ensures !HasSuffix(up, " CASCADE") && !HasSuffix(up, " RESTRICT") && !HasSuffix(up, " RESTART IDENTITY")
  {
    hide HasSuffix;
    var u := " CONTINUE IDENTITY";
    SuffixHas(up, u, 17);
    SuffixHas(up, u, 7);
    SuffixHas(up, " CASCADE", 7);
    SuffixHas(up, " RESTRICT", 8);
    SuffixHas(up, " RESTART IDENTITY", 6);
  }

  lemma Strips(t: string, s: string)
    requires LastModifier(t).Some? && |t| >= |Word(LastModifier(t).value)|
    requires t[..|t| - |Word(LastModifier(t).value)|] == s
    ensures var m, r := LastModifier(t).value, StripModifiers(s);
            StripModifiers(t) == Stripped(r.rest, r.restartIdentity || m.RestartWord?, r.cascade || m.CascadeWord?)
  {
    hide LastModifier, Word;
  }

  /** White space outside and one semicolon do not count. */
  lemma OutsideDropped(a: string, s: string, b: string)
    requires AllSpace(a) && AllSpace(b) && Trimmed(s) && !HasSuffix(s, ";")
    ensures ReadTruncate(a + s + b) == ReadTruncate(a + (s + ";") + b) == ReadTables(StripModifiers(s))
  {
    TrimSpaceUnpads(a, s, b);
    TrimSpaceKeepsTrimmed(s);
    assert Trimmed(s + ";");
    TrimSpaceUnpads(a, s + ";", b);
    assert (s + ";")[|s|..] == ";";
    assert TrimSuffix(s + ";", ";") == s;
    hide TrimSpace, StripModifiers, ReadTables, HasSuffix, Trimmed, AllSpace;
  }

  // ---- The names ----

  /** One table of the list: ONLY and the white space behind it, or nothing; the
      name; and a star, or nothing. */
  datatype Listed = Listed(only: string, name: string, star: string)

  predicate Only(o: string) {
    o == "" || (|o| > 4 && Spells(o[..4], "ONLY") && forall i :: 4 <= i < |o| ==> IsBlank(o[i]))
  }

  predicate Star(t: string) {
    t == "" || (t[|t| - 1] == '*' && forall i :: 0 <= i < |t| - 1 ==> IsBlank(t[i]))
  }

  /** A name, without ONLY as a word of its own. */
  predicate Kept(n: string) {
    && TruncateParser.Named(n) && !IsBlank(n[0])
    && forall k :: 0 <= k < |n| && MatchesAt(n, k, "ONLY") && (k > 0 ==> !IsWordChar(n[k - 1])) ==>
         k + 4 < |n| && !IsBlank(n[k + 4])
  }

  predicate Usual(x: Listed) { Only(x.only) && Kept(x.name) && Star(x.star) }

  /** A name with its star, a separator, and what follows. */
  function Item(x: Listed, sep: string, rest: string): string { x.name + (x.star + (sep + rest)) }

  function Separator(xs: seq<Listed>): string { if |xs| > 1 then ", " else "" }

  /** The list as it is written, and without the word ONLY. */
  function Written(xs: seq<Listed>): string {
    if xs == [] then "" else xs[0].only + Item(xs[0], Separator(xs), Written(xs[1..]))
  }

  function Bare(xs: seq<Listed>): string {
    if xs == [] then "" else Item(xs[0], Separator(xs), Bare(xs[1..]))
  }

  function Names(xs: seq<Listed>): seq<string> {
    if xs == [] then [] else [xs[0].name] + Names(xs[1..])
  }

  lemma CopyChar(s: string, i: nat)
    requires i < |s| && (MatchesAt(s, i, "ONLY") && Boundary(s, i) ==> SkipSpaces(s, i + 4) == i + 4)
    ensures RemoveOnly(s, i) == [s[i]] + RemoveOnly(s, i + 1)
  {
    hide MatchesAt, SkipSpaces;
  }

  /** No ONLY that counts begins from i on and before n. */
  predicate Plain(s: string, i: nat, n: nat)
    requires i <= n <= |s|
  {
    forall k :: i <= k < n && MatchesAt(s, k, "ONLY") && Boundary(s, k) ==> SkipSpaces(s, k + 4) == k + 4
  }

  lemma {:induction false} Copied(s: string, i: nat, n: nat)
    requires i <= n <= |s| && Plain(s, i, n)
    ensures RemoveOnly(s, i) == s[i..n] + RemoveOnly(s, n)
    decreases n - i
  {
    hide MatchesAt, SkipSpaces, Boundary, RemoveOnly;
    if i < n {
      CopyChar(s, i);
      Copied(s, i + 1, n);
      assert s[i..n] == [s[i]] + s[i + 1..n];
    } else {
      assert s[i..n] + RemoveOnly(s, n) == RemoveOnly(s, n);
    }
  }

  /** ONLY and its white space are dropped. */
  lemma OnlyDropped(s: string, i: nat, o: string, rest: string)
    requires i <= |s| && o != "" && Only(o) && s[i..] == o + rest && rest != "" && !IsBlank(rest[0])
    requires i > 0 ==> !IsWordChar(s[i - 1])
    ensures i + |o| <= |s| && RemoveOnly(s, i) == RemoveOnly(s, i + |o|) && s[i + |o|..] == rest
  {
    hide MatchesAt, SkipSpaces, Boundary;
    var x, b := o[..4], o[4..];
    assert o + rest == x + (b + rest);
    WordHere(s, i, x, "ONLY", b + rest);
    BlanksHere(s, i + 4, b, rest);
    WrittenForms.NamedHead(x, "ONLY", b + rest);
    assert s[i] == s[i..][0] == x[0];
    LetterStarts(s, i);
  }

  lemma LetterStarts(s: string, i: nat)
    requires i < |s| && LowerChar(s[i]) == 'o' && (i > 0 ==> !IsWordChar(s[i - 1]))
    ensures Boundary(s, i)
  {
  }

  /** What may follow a name. */
  predicate Closes(rest: string) { rest != "" ==> IsBlank(rest[0]) || rest[0] in {'*', ','} }

  lemma NamePlain(s: string, i: nat, n: string, rest: string)
    requires i <= |s| && Kept(n) && s[i..] == n + rest && Closes(rest)
    ensures i + |n| <= |s| && Plain(s, i, i + |n|) && s[i + |n|..] == rest && s[i..i + |n|] == n
  {
    HeadOf(s, i, n, rest);
    if rest != "" { assert s[i + |n|] == s[i + |n|..][0]; }
    assert s[i..i + |n|] == n;
    forall k | i <= k < i + |n| && MatchesAt(s, k, "ONLY") && Boundary(s, k) ensures SkipSpaces(s, k + 4) == k + 4 {
      OnlyInside(s, i, n, k);
    }
  }

  lemma OnlyInside(s: string, i: nat, n: string, k: nat)
    requires Kept(n) && i <= k < i + |n| <= |s| && s[i..i + |n|] == n && MatchesAt(s, k, "ONLY") && Boundary(s, k)
    requires i + |n| < |s| ==> IsBlank(s[i + |n|]) || s[i + |n|] in {'*', ','}
    ensures SkipSpaces(s, k + 4) == k + 4
  {
    MatchHas(s, k, "ONLY", 0);
    var q := k - i;
    assert s[k] == n[q];
    if q > 0 { assert s[k - 1] == n[q - 1]; }
    if q + 4 <= |n| {
      SliceOfSlice(s, i, i + |n|, k, k + 4);
      assert n[q..q + 4] == s[k..k + 4];
      assert MatchesAt(n, q, "ONLY");
      assert s[k + 4] == n[q + 4];
    } else {
      MatchHas(s, k, "ONLY", |n| - q);
    }
  }

  lemma MarksPlain(s: string, i: nat, marks: string, rest: string)
    requires i <= |s| && s[i..] == marks + rest && Marks(marks)
    ensures i + |marks| <= |s| && Plain(s, i, i + |marks|) && s[i + |marks|..] == rest && s[i..i + |marks|] == marks
  {
    HeadOf(s, i, marks, rest);
    assert s[i..i + |marks|] == marks;
    forall k | i <= k < i + |marks| ensures !MatchesAt(s, k, "ONLY") {
      assert s[k] == marks[k - i];
      MatchHas(s, k, "ONLY", 0);
    }
  }

  lemma TailStarts(star: string, more: string)
    requires Star(star) && (more != "" ==> more[0] == ',')
    ensures Closes(star + more)
  {
    if star != "" { assert (star + more)[0] == star[0]; }
  }

  /** A separator, or nothing at the end of the list. */
  predicate Between(sep: string, rest: string) { sep in {"", ", "} && (sep == "" ==> rest == "") }

  /** Behind the separator the next name begins. */
  predicate Onward(s: string, m: nat, sep: string, rest: string) {
    m <= |s| && s[m..] == rest && (sep != "" ==> m > 0 && s[m - 1] == ' ')
  }

  /** The name and what is behind it are copied up to the next name. */
  lemma ItemCopied(s: string, i: nat, x: Listed, sep: string, rest: string) returns (m: nat)
    requires Rests(s, i, x.only + Item(x, sep, rest)) && Usual(x) && Between(sep, rest) && Apart(s, i)
    ensures i <= |s| && Onward(s, m, sep, rest) && m <= |s| && RemoveOnly(s, i) == Item(x, sep, RemoveOnly(s, m))
  {
    hide *;
    NameOnward(x, sep, rest);
    UsualOnly(x);
    OnlyPassed(s, i, x.only, Item(x, sep, rest));
    m := NameCopied(s, i + |x.only|, x, sep, rest);
  }

  /** No word goes on at i. */
  predicate Apart(s: string, i: nat) { 0 < i <= |s| ==> !IsWordChar(s[i - 1]) }

  /** What is left of s from i on. */
  predicate Rests(s: string, i: nat, u: string) { i <= |s| && s[i..] == u }

  /** ONLY or nothing in front of u. */
  lemma OnlyPassed(s: string, i: nat, o: string, u: string)
    requires Rests(s, i, o + u) && Only(o) && u != "" && !IsBlank(u[0]) && Apart(s, i)
    ensures var j := i + |o|;
            i <= j <= |s| && RemoveOnly(s, i) == RemoveOnly(s, j) && Rests(s, j, u) && Apart(s, j)
  {
    hide RemoveOnly, Only, IsBlank, Apart;
    if |o| > 0 { OnlyBefore(s, i, o, u); } else { NothingBefore(o, u); }
  }

  lemma NothingBefore(o: string, u: string)
    requires |o| == 0
    ensures o + u == u
  {
  }

  lemma OnlyBefore(s: string, i: nat, o: string, u: string)
    requires Rests(s, i, o + u) && o != "" && Only(o) && u != "" && !IsBlank(u[0]) && Apart(s, i)
    ensures var j := i + |o|;
            i <= j <= |s| && RemoveOnly(s, i) == RemoveOnly(s, j) && Rests(s, j, u) && Apart(s, j)
  {
    hide RemoveOnly, Only, IsBlank, IsWordChar;
    OnlyEnds(o);
    LastOf(s, i, o, u);
    OnlyDropped(s, i, o, u);
  }

  lemma UsualOnly(x: Listed)
    requires Usual(x)
    ensures Only(x.only)
  {
  }

  lemma LastOf(s: string, i: nat, o: string, u: string)
    requires i <= |s| && s[i..] == o + u && o != ""
    ensures i + |o| <= |s| && s[i + |o| - 1] == o[|o| - 1]
  {
    HeadOf(s, i, o, u);
  }

  lemma OnlyEnds(o: string)
    requires o != "" && Only(o)
    ensures !IsWordChar(o[|o| - 1])
  {
  }

  lemma NameOnward(x: Listed, sep: string, rest: string)
    requires Usual(x)
    ensures Item(x, sep, rest) != "" && !IsBlank(Item(x, sep, rest)[0])
  {
    assert Item(x, sep, rest)[0] == x.name[0];
  }

  lemma NameCopied(s: string, j: nat, x: Listed, sep: string, rest: string) returns (m: nat)
    requires Rests(s, j, Item(x, sep, rest)) && Usual(x) && Between(sep, rest) && Apart(s, j)
    ensures j <= |s| && Onward(s, m, sep, rest) && m <= |s| && RemoveOnly(s, j) == Item(x, sep, RemoveOnly(s, m))
  {
    hide *;
    MarksAre(x, sep, rest);
    Regroup(x, sep, rest);
    var k := NameThen(s, j, x.name, x.star + sep + rest);
    m := MarksThen(s, k, x.star, sep, rest);
    Regroup(x, sep, RemoveOnly(s, m));
  }

  lemma NameThen(s: string, j: nat, n: string, rest: string) returns (k: nat)
    requires Rests(s, j, n + rest) && Kept(n) && Closes(rest)
    ensures j <= k <= |s| && Rests(s, k, rest) && RemoveOnly(s, j) == n + RemoveOnly(s, k)
  {
    hide Kept, Closes, RemoveOnly, Plain;
    k := j + |n|;
    NamePlain(s, j, n, rest);
    Copied(s, j, k);
  }

  lemma MarksThen(s: string, k: nat, star: string, sep: string, rest: string) returns (m: nat)
    requires Rests(s, k, star + sep + rest) && Between(sep, rest) && Marks(star + sep)
    ensures k <= m <= |s| && Onward(s, m, sep, rest) && RemoveOnly(s, k) == star + sep + RemoveOnly(s, m)
  {
    hide RemoveOnly, Plain, IsBlank, Marks;
    var marks := star + sep;
    MarksEnd(star, sep);
    m := k + |marks|;
    MarksPlain(s, k, marks, rest);
    Copied(s, k, m);
    if sep != "" { assert s[m - 1] == s[k..m][|marks| - 1]; }
  }

  /** Neither a star nor a comma begins the word. */
  predicate Marks(marks: string) { forall k :: 0 <= k < |marks| ==> IsBlank(marks[k]) || marks[k] in {'*', ','} }

  lemma MarksEnd(star: string, sep: string)
    requires sep == "" || sep == ", "
    ensures sep != "" ==> |star + sep| > 0 && (star + sep)[|star + sep| - 1] == ' '
  {
  }

  lemma Regroup(x: Listed, sep: string, rest: string)
    ensures Item(x, sep, rest) == x.name + (x.star + sep + rest)
  {
  }

  lemma MarksAre(x: Listed, sep: string, rest: string)
    requires Usual(x) && Between(sep, rest)
    ensures Kept(x.name) && Closes(x.star + sep + rest) && Marks(x.star + sep)
  {
    if sep != "" { assert (sep + rest)[0] == ','; }
    TailStarts(x.star, sep + rest);
    assert x.star + (sep + rest) == x.star + sep + rest;
  }

  /** The words ONLY go, and nothing else of the list. */
  lemma {:induction false} OnlyGone(s: string, i: nat, xs: seq<Listed>)
    requires i <= |s| && s[i..] == Written(xs) && xs != [] && (forall x :: x in xs ==> Usual(x))
    requires Apart(s, i)
    ensures RemoveOnly(s, i) == Bare(xs)
    decreases |xs|
  {
    hide RemoveOnly, Usual, Item;
    var x, sep, rest := xs[0], Separator(xs), Written(xs[1..]);
    assert x in xs && forall y :: y in xs[1..] ==> y in xs;
    NothingLeft(s);
    var m := ItemCopied(s, i, x, sep, rest);
    if |xs| > 1 { OnlyGone(s, m, xs[1..]); } else { assert m == |s|; }
  }

  lemma NothingLeft(s: string)
    ensures RemoveOnly(s, |s|) == ""
  {
  }

  // ---- Cutting the list ----

  /** A star behind the name is dropped with the white space around. */
  lemma StarDropped(pad: string, n: string, star: string)
    requires AllSpace(pad) && TruncateParser.Named(n) && Star(star)
    ensures TableName(pad + (n + star)) == n
  {
    assert pad + (n + star) + "" == pad + (n + star);
    TrimSpaceKeepsTrimmed(n);
    SuffixHas(n, "*", 0);
    if star == "" {
      assert n + star == n;
      TrimSpaceUnpads(pad, n, "");
    } else {
      var blanks := star[..|star| - 1];
      var u := n + star;
      assert u[0] == n[0] && u[|u| - 1] == '*';
      TrimSpaceUnpads(pad, u, "");
      assert u == n + blanks + "*";
      assert TrimSuffix(u, "*") == n + blanks;
      assert AllSpace(blanks) && AllSpace("");
      assert "" + n + blanks == n + blanks;
      TrimSpaceUnpads("", n, blanks);
    }
  }

  lemma NoComma(n: string, star: string)
    requires Kept(n) && Star(star)
    ensures ',' !in n + star
  {
    assert forall c :: c in star ==> IsBlank(c) || c == '*';
  }

  lemma {:induction false} NamesFound(pad: string, xs: seq<Listed>)
    requires pad in {"", " "} && xs != [] && forall x :: x in xs ==> Usual(x)
    ensures TableNames(SplitCommas(pad + Bare(xs))) == Names(xs)
    decreases |xs|
  {
    hide TableName, Usual, SplitCommas, TableNames, Bare;
    var x := xs[0];
    assert x in xs && forall y :: y in xs[1..] ==> y in xs;
    var a := pad + (x.name + x.star);
    ItemName(pad, x);
    if |xs| == 1 {
      BareLast(pad, xs);
      TablesLast(a);
      assert Names(xs[1..]) == [];
    } else {
      BareCut(pad, xs);
      NamesFound(" ", xs[1..]);
      CommaFirst(a, " " + Bare(xs[1..]));
      TablesMore(a, SplitCommas(" " + Bare(xs[1..])));
    }
  }

  lemma ItemName(pad: string, x: Listed)
    requires pad in {"", " "} && Usual(x)
    ensures var a := pad + (x.name + x.star); TableName(a) == x.name && x.name != "" && ',' !in a
  {
    hide TableName;
    StarDropped(pad, x.name, x.star);
    NoComma(x.name, x.star);
  }

  lemma BareLast(pad: string, xs: seq<Listed>)
    requires |xs| == 1
    ensures pad + Bare(xs) == pad + (xs[0].name + xs[0].star)
  {
    assert Item(xs[0], "", "") == xs[0].name + xs[0].star;
  }

  lemma TablesLast(a: string)
    requires ',' !in a && TableName(a) != ""
    ensures TableNames(SplitCommas(a)) == [TableName(a)]
  {
    hide TableName;
    TruncateParser.NoComma(a);
    assert [a][1..] == [];
  }

  lemma TablesMore(a: string, rest: seq<string>)
    requires TableName(a) != ""
    ensures TableNames([a] + rest) == [TableName(a)] + TableNames(rest)
  {
    hide TableName;
    assert ([a] + rest)[1..] == rest;
  }

  lemma BareCut(pad: string, xs: seq<Listed>)
    requires |xs| > 1
    ensures pad + Bare(xs) == pad + (xs[0].name + xs[0].star) + "," + (" " + Bare(xs[1..]))
  {
    ItemCut(pad, xs[0], Bare(xs[1..]));
  }

  lemma ItemCut(pad: string, x: Listed, b: string)
    ensures pad + Item(x, ", ", b) == pad + (x.name + x.star) + "," + (" " + b)
  {
    assert ", " + b == "," + (" " + b);
  }

  lemma CommaFirst(a: string, rest: string)
    requires ',' !in a
    ensures SplitCommas(a + "," + rest) == [a] + SplitCommas(rest)
  {
    FirstComma(a, rest);
    assert (a + "," + rest)[|a| + 1..] == rest && (a + "," + rest)[..|a|] == a;
  }

  // ---- The whole list ----

  /** TRUNCATE [TABLE] list: the names of the list, without ONLY and stars. A list
      that begins with the word TABLE would be taken for the keyword. */
  lemma ListRead(lead: string, xs: seq<Listed>, restartIdentity: bool, cascade: bool)
    requires Upper(lead) in {"TRUNCATE ", "TRUNCATE TABLE "} && xs != [] && forall x :: x in xs ==> Usual(x)
    requires !HasPrefix(Upper(Written(xs)), "TABLE ") && Trimmed(Written(xs))
    ensures ReadTables(Stripped(lead + Written(xs), restartIdentity, cascade))
            == Some(Truncate(Names(xs), restartIdentity, cascade))
  {
    var list := Written(xs);
    assert list[0..] == list;
    OnlyGone(list, 0, xs);
    NamesFound("", xs);
    assert "" + Bare(xs) == Bare(xs);
    hide RemoveOnly, TableNames, SplitCommas, Usual, Written, Bare;
    LeadRead(lead, list);
    assert Names(xs) != [];
  }

  lemma LeadRead(lead: string, list: string)
    requires Upper(lead) in {"TRUNCATE ", "TRUNCATE TABLE "} && Trimmed(list) && list != ""
    requires !HasPrefix(Upper(list), "TABLE ")
    ensures HasPrefix(Upper(lead + list), TRUNCATE)
    ensures WithoutTable(TrimSpace((lead + list)[|TRUNCATE|..])) == list
  {
    LeadHead(lead, list);
    if Upper(lead) == "TRUNCATE " {
      BlankBefore(lead, 8);
      hide Upper, TrimSpace, Trimmed;
      assert lead[8..] == [lead[8]];
      TrimSpaceUnpads([lead[8]], list, "");
      assert (lead + list)[8..] == [lead[8]] + list + "";
    } else {
      BlankBefore(lead, 8);
      BlankBefore(lead, 14);
      TableLead(lead, list);
    }
  }

  lemma LeadHead(lead: string, list: string)
    requires Upper(lead) in {"TRUNCATE ", "TRUNCATE TABLE "}
    ensures HasPrefix(Upper(lead + list), TRUNCATE) && |lead| == |Upper(lead)|
  {
    var u := Upper(lead);
    assert u[..8] == "TRUNCATE";
    assert Upper(lead + list)[..8] == u[..8];
  }

  lemma BlankBefore(lead: string, i: nat)
    requires i < |lead| && Upper(lead)[i] == ' '
    ensures lead[i] == ' '
  {
  }

  lemma TableLead(lead: string, list: string)
    requires Upper(lead) == "TRUNCATE TABLE " && lead[8] == ' ' && lead[14] == ' ' && Trimmed(list) && list != ""
    ensures WithoutTable(TrimSpace((lead + list)[8..])) == list
  {
    hide TrimSpace, Upper;
    var t := lead[9..];
    var u := Upper(lead);
    assert Upper(t) == u[9..] == "TABLE ";
    var w := t + list;
    assert w[0] == t[0] && Upper(t)[0] == 'T' && w[|w| - 1] == list[|list| - 1];
    assert (lead + list)[8..] == " " + w + "";
    TrimSpaceUnpads(" ", w, "");
    assert Upper(w)[..6] == Upper(t);
    assert w[5..] == " " + list + "" by { assert t[5] == lead[14]; }
    TrimSpaceUnpads(" ", list, "");
  }
}
