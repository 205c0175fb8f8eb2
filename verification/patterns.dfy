/** The textual rewrites the schema applies to stored definitions: whole-word
    replacement, self-references, identity kinds and composite type names. */
module Patterns {
  import opened Text

  predicate IsWordChar(c: char) {
    'a' <= c <= 'z' || 'A' <= c <= 'Z' || '0' <= c <= '9' || c == '_'
  }

  /** A word boundary lies between positions i - 1 and i. */
  predicate Boundary(s: string, i: nat)
    requires i <= |s|
  {
    (i > 0 && IsWordChar(s[i - 1])) != (i < |s| && IsWordChar(s[i]))
  }

  predicate MatchesAt(s: string, i: nat, w: string) {
    i + |w| <= |s| && Lower(s[i..i + |w|]) == Lower(w)
  }

  /** A match has every character, in some case. */
  lemma MatchHas(s: string, i: nat, w: string, k: nat)
    requires k < |w|
    ensures MatchesAt(s, i, w) ==> LowerChar(s[i + k]) == LowerChar(w[k])
  {
    if MatchesAt(s, i, w) { assert Lower(s[i..i + |w|])[k] == Lower(w)[k]; }
  }

  predicate WordAt(s: string, i: nat, w: string) {
    MatchesAt(s, i, w) && Boundary(s, i) && Boundary(s, i + |w|)
  }

  function NameRun(s: string): (n: nat)
    ensures n <= |s|
  {
    if s != "" && IsWordChar(s[0]) then 1 + NameRun(s[1..]) else 0
  }

  /** Fills a replacement template for the match m: `$$` is a dollar sign,
      `$0` the match, any other `$name` is empty, and a `$` before no name stays. */
  function Expand(t: string, m: string): string
    decreases |t|
  {
    if t == "" then ""
    else if t[0] != '$' then [t[0]] + Expand(t[1..], m)
    else if |t| > 1 && t[1] == '$' then "$" + Expand(t[2..], m)
    else
      var brace := |t| > 1 && t[1] == '{';
      var from := if brace then 2 else 1;
      var n := NameRun(t[from..]);
      if n == 0 || (brace && !(from + n < |t| && t[from + n] == '}')) then "$" + Expand(t[1..], m)
      else (if t[from..from + n] == "0" then m else "") + Expand(t[from + n + if brace then 1 else 0..], m)
  }

  /** Replaces every whole-word, case-insensitive occurrence of w from i on. */
  function ReplaceWordFrom(s: string, i: nat, w: string, template: string): string
    requires i <= |s|
    decreases |s| - i
  {
    if w != "" && WordAt(s, i, w) then
      Expand(template, s[i..i + |w|]) + ReplaceWordFrom(s, i + |w|, w, template)
    else
      (if WordAt(s, i, w) then Expand(template, "") else "")
      + if i == |s| then "" else [s[i]] + ReplaceWordFrom(s, i + 1, w, template)
  }

  function ReplaceWord(s: string, w: string, template: string): string {
    ReplaceWordFrom(s, 0, w, template)
  }

  /** White space as the patterns see it: without the vertical tab. */
  predicate IsBlank(c: char) { IsSpace(c) && c != '\U{000B}' }

  /** One word, as the patterns capture it. */
  predicate Token(name: string) { name != "" && forall i :: 0 <= i < |name| ==> !IsBlank(name[i]) }

  function SkipSpaces(s: string, i: nat): (j: nat)
    requires i <= |s|
    ensures i <= j <= |s|
    decreases |s| - i
  {
    if i < |s| && IsBlank(s[i]) then SkipSpaces(s, i + 1) else i
  }

  function BlankEnd(s: string, i: nat): (n: nat)
    requires i <= |s|
    ensures i <= n <= |s|
    decreases |s| - i
  {
    if i < |s| && !IsBlank(s[i]) then BlankEnd(s, i + 1) else i
  }

  /** End of the keyword at i and of the white space behind it, or i. */
  function Keyword(s: string, i: nat, w: string): (n: nat)
    requires i <= |s|
    ensures i <= n <= |s|
  {
    if MatchesAt(s, i, w) && SkipSpaces(s, i + |w|) > i + |w| then SkipSpaces(s, i + |w|) else i
  }

  lemma {:induction false} BlanksAre(s: string, i: nat)
    requires i <= |s|
    ensures forall x :: i <= x < SkipSpaces(s, i) ==> IsBlank(s[x])
    ensures SkipSpaces(s, i) < |s| ==> !IsBlank(s[SkipSpaces(s, i)])
    decreases |s| - i
  {
    if i < |s| && IsBlank(s[i]) { BlanksAre(s, i + 1); }
  }

  lemma TokenHead(w: string)
    requires Token(w)
    ensures w != "" && !IsBlank(w[0])
  {
  }

  /** A word at its place, with a blank and something visible behind it. */
  lemma KeywordAt(s: string, i: nat, w: string)
    requires i + |w| + 1 < |s| && s[i..i + |w|] == w && s[i + |w|] == ' ' && !IsBlank(s[i + |w| + 1])
    ensures Keyword(s, i, w) == i + |w| + 1
  {
    var j := i + |w|;
    assert SkipSpaces(s, j + 1) == j + 1 && SkipSpaces(s, j) == j + 1;
  }

  /** End of the words `a b` separated by white space at i, or i if absent. */
  function TwoWords(s: string, i: nat, a: string, b: string): (n: nat)
    requires i <= |s|
    ensures i <= n <= |s|
  {
    if !MatchesAt(s, i, a) then i
    else
      var j := SkipSpaces(s, i + |a|);
      if j > i + |a| && MatchesAt(s, j, b) then j + |b| else i
  }

  /** End of a reference to table `name` at i, or i if there is none. */
  function ReferenceEnd(s: string, i: nat, name: string): (n: nat)
    requires i <= |s|
    ensures i <= n <= |s|
  {
    var n := TwoWords(s, i, "REFERENCES", name);
    if n > i && Boundary(s, i) && Boundary(s, n) then n else i
  }

  /** Redirects references to table `name` to `newName`: in each match, the text
      from the first occurrence of the name on is replaced. */
  function ReplaceReferences(s: string, i: nat, name: string, newName: string): string
    requires i <= |s|
    decreases |s| - i
  {
    if i == |s| then ""
    else
      var n := ReferenceEnd(s, i, name);
      if n > i then
        var k := IndexOf(Upper(s[i..n]), Upper(name));
        s[i..i + if k < 0 then 0 else k] + newName + ReplaceReferences(s, n, name, newName)
      else [s[i]] + ReplaceReferences(s, i + 1, name, newName)
  }

  function LineBreak(s: string, i: nat): (n: nat)
    requires i <= |s|
    ensures i <= n <= |s|
    decreases |s| - i
  {
    if i < |s| && s[i] != '\n' then LineBreak(s, i + 1) else i
  }

  /** End of ALWAYS or BY DEFAULT at j, or j if there is neither. */
  function KindEnd(s: string, j: nat): (k: nat)
    requires j <= |s|
    ensures j <= k <= |s|
  {
    if MatchesAt(s, j, "ALWAYS") then j + 6 else TwoWords(s, j, "BY", "DEFAULT")
  }

  /** Where ALWAYS or BY DEFAULT starts and ends in an identity clause at i, and
      where the clause ends; all three i when there is no such clause. */
  function IdentityKind(s: string, i: nat): (r: (nat, nat, nat))
    requires i <= |s|
    ensures i <= r.0 <= r.1 <= r.2 <= |s|
  {
    if !MatchesAt(s, i, "GENERATED") then (i, i, i)
    else
      var j := SkipSpaces(s, i + 9);
      var k := KindEnd(s, j);
      var l := SkipSpaces(s, k);
      var e := TwoWords(s, l, "AS", "IDENTITY");
      if j > i + 9 && k > j && l > k && e > l then (j, k, e) else (i, i, i)
  }

  function ReplaceIdentityKind(s: string, i: nat, kind: string): string
    requires i <= |s|
    decreases |s| - i
  {
    if i == |s| then ""
    else
      var (j, k, e) := IdentityKind(s, i);
      if k > i then
        var n := LineBreak(s, e);
        s[i..j] + kind + s[k..n] + ReplaceIdentityKind(s, n, kind)
      else [s[i]] + ReplaceIdentityKind(s, i + 1, kind)
  }

  // ---- Composite type names ----

  const CREATE_TYPE := "CREATE TYPE "

  function TokenEnd(s: string, i: nat): (n: nat)
    requires i <= |s|
    ensures i <= n <= |s|
    decreases |s| - i
  {
    if i < |s| && s[i] != ' ' && s[i] != '\t' && s[i] != '\n' && s[i] != '\r' then TokenEnd(s, i + 1) else i
  }

  /** Puts newName in place of the type name of a CREATE TYPE text. */
  function ReplaceTypeName(sql: string, oldName: string, newName: string): string {
    var pos := IndexOf(Upper(sql), CREATE_TYPE);
    if pos < 0 then sql
    else
      var start := pos + |CREATE_TYPE|;
      var end := TokenEnd(sql, start);
      if NormIdent(sql[start..end]) == NormIdent(oldName) then sql[..start] + newName + sql[end..] else sql
  }

  // ---- ALTER DOMAIN and ALTER VIEW ----

  /** Is t an OWNER TO or SET SCHEMA with something behind it? */
  predicate OwnerOrSchemaAction(t: string) {
    var n := if TwoWords(t, 0, "OWNER", "TO") > 0 then TwoWords(t, 0, "OWNER", "TO") else TwoWords(t, 0, "SET", "SCHEMA");
    n > 0 && SkipSpaces(t, n) > n
  }

  /** Is that the action of ALTER kind [IF EXISTS] name, to the end of its line? */
  predicate OwnerOrSchema(sql: string, kind: string) {
    var a := Keyword(sql, 0, "ALTER");
    var k := Keyword(sql, a, kind);
    var e := TwoWords(sql, k, "IF", "EXISTS");
    var from := if e > k then SkipSpaces(sql, e) else k;
    var to := BlankEnd(sql, from);
    var action := SkipSpaces(sql, to);
    a > 0 && k > a && (e > k ==> from > e) && to > from && action > to
    && OwnerOrSchemaAction(sql[action..LineBreak(sql, action)])
  }
}
