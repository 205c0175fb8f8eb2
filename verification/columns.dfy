/** Parsing one column definition: the rest of the text is consumed stepwise by
    case-insensitive substring search. */
module Columns {
  import opened Text
  import opened Ast
  import opened Patterns

  // ---- Name ----

  predicate EndsIdent(c: char) { c == ' ' || c == '\t' || c == '\n' }

  function IdentEnd(s: string, i: nat): (n: nat)
    requires i <= |s|
    ensures i <= n <= |s|
    decreases |s| - i
  {
    if i < |s| && !EndsIdent(s[i]) then IdentEnd(s, i + 1) else i
  }

  /** The first identifier, without its double quotes, and the trimmed rest. */
  function ExtractIdent(text: string): (string, string) {
    var s := TrimSpace(text);
    if s == "" then ("", "")
    else if s[0] == '"' then
      var end := IndexOf(s[1..], "\"");
      if end < 0 then (s[1..], "") else (s[1..end + 1], TrimSpace(s[end + 2..]))
    else
      var n := IdentEnd(s, 0);
      if n == |s| then (s, "") else (s[..n], TrimSpace(s[n..]))
  }

  // ---- Collation ----

  /** From inside a double-quoted name at p: the position after the closing
      quote; with none left, after the first quote of the last doubled pair. */
  function QuotedEnd(s: string, p: nat, pair: int): (n: int)
    requires p <= |s| && -1 <= pair < |s|
    ensures -1 <= n <= |s|
    decreases |s| - p
  {
    if p == |s| then (if pair >= 0 then pair + 1 else -1)
    else if s[p] != '"' then QuotedEnd(s, p + 1, pair)
    else if p + 1 < |s| && s[p + 1] == '"' then QuotedEnd(s, p + 2, p)
    else p + 1
  }

  function CollationEnd(s: string, k: nat): (n: nat)
    requires k <= |s|
    ensures k <= n <= |s|
  {
    var q := if k < |s| && s[k] == '"' then QuotedEnd(s, k + 1, -1) else -1;
    if q >= k then q else BlankEnd(s, k)
  }

  datatype Clause = NoClause | Clause(from: nat, name: nat, to: nat)

  /** The first COLLATE clause at or after i: where it starts, where its name
      starts and where it ends. */
  function FindCollate(s: string, i: nat): (c: Clause)
    requires i <= |s|
    ensures c.Clause? ==> i <= c.from <= c.name <= c.to <= |s|
    decreases |s| - i
  {
    if i == |s| then NoClause
    else
      var j := SkipSpaces(s, i);
      var k := if MatchesAt(s, j, "COLLATE") then SkipSpaces(s, j + 7) else j;
      if j > i && k > j + 7 && CollationEnd(s, k) > k then Clause(i, k, CollationEnd(s, k))
      else FindCollate(s, i + 1)
  }

  // ---- Keywords ----

  /** Case-insensitive search; in ASCII folding either way finds the same places. */
  function IndexCI(s: string, keyword: string): (r: int)
    ensures r == -1 || 0 <= r <= |s| - |keyword|
  {
    IndexOf(Upper(s), keyword)
  }

  function RemoveFirst(s: string, keyword: string): string {
    var i := IndexCI(s, keyword);
    if i < 0 then s else s[..i] + s[i + |keyword|..]
  }

  /** The least first occurrence of any of the keywords, or |s|. */
  function Earliest(s: string, keywords: seq<string>): (n: nat)
    ensures n <= |s|
    decreases |keywords|
  {
    if keywords == [] then |s|
    else
      var i := IndexCI(s, keywords[0]);
      var rest := Earliest(s, keywords[1..]);
      if i >= 0 && i < rest then i else rest
  }

  const STOP_WORDS := ["NOT NULL", "NULL", "PRIMARY KEY", "REFERENCES ", "UNIQUE", "CHECK ", "GENERATED "]

  const CLAUSE_WORDS := ["PRIMARY KEY", "REFERENCES ", "UNIQUE", "CHECK ", "GENERATED ", "COMPRESSION ", "STORAGE "]

  function ExtractDefaultValue(s: string): (string, string) {
    var n := Earliest(s, STOP_WORDS);
    (TrimSpace(s[..n]), TrimSpace(s[n..]))
  }

  function SplitTypeAndConstraints(s: string): (string, string) {
    var n := Earliest(s, CLAUSE_WORDS);
    if n < |s| then (TrimSpace(s[..n]), TrimSpace(s[n..])) else (s, "")
  }

  /** The DEFAULT at idx belongs to GENERATED BY DEFAULT. */
  predicate AfterBy(s: string, idx: nat)
    requires idx <= |s|
  {
    Upper(TrimSpace(s[if idx < 3 then 0 else idx - 3..idx])) == "BY"
  }

  // ---- The whole definition ----

  datatype Parsed = Parsed(column: Column) | EmptyDefinition | NoName

  function WithoutCollate(rest: string): (string, string) {
    match FindCollate(rest, 0)
    case NoClause => ("", rest)
    case Clause(from, name, to) => (rest[name..to], rest[..from] + rest[to..])
  }

  function WithoutNull(rest: string): (bool, string) {
    if IndexCI(rest, "NOT NULL") >= 0 then (true, TrimSpace(RemoveFirst(rest, "NOT NULL")))
    else (false, TrimSpace(RemoveFirst(rest, " NULL")))
  }

  const DEFAULT := " DEFAULT "

  function WithoutDefault(rest: string): (Option<string>, string) {
    var idx := IndexCI(rest, DEFAULT);
    if idx >= 0 && !AfterBy(rest, idx) then
      var (value, remainder) := ExtractDefaultValue(rest[idx + |DEFAULT|..]);
      (Some(value), TrimSpace(TrimSpace(rest[..idx]) + " " + TrimSpace(remainder)))
    else (None, rest)
  }

  /** The clauses behind the name, taken out one after the other. */
  function ParseClauses(name: string, rest: string): Column {
    var (collation, r1) := WithoutCollate(rest);
    var (notNull, r2) := WithoutNull(r1);
    var (default, r3) := WithoutDefault(r2);
    var (dataType, inline) := SplitTypeAndConstraints(r3);
    Column(name, TrimSpace(dataType), collation, notNull, default, if inline != "" then [inline] else [])
  }

  function ParseColumn(text: string): Parsed {
    var s := TrimSpace(text);
    if s == "" then EmptyDefinition
    else
      var (name, rest) := ExtractIdent(s);
      if name == "" then NoName else Parsed(ParseClauses(name, rest))
  }

  /** The same, one step after the other on a shrinking rest. */
  method ParseColumnDef(text: string) returns (r: Parsed)
    ensures r == ParseColumn(text)
  {
    hide TrimSpace, ExtractIdent, FindCollate, IndexCI, RemoveFirst, AfterBy, ExtractDefaultValue,
         SplitTypeAndConstraints;
    var s := TrimSpace(text);
    if s == "" { return EmptyDefinition; }
    var (name, rest) := ExtractIdent(s);
    if name == "" { return NoName; }
    var col := Column(name, "", "", false, None, []);
    var collate := FindCollate(rest, 0);
    if collate.Clause? {
      col := col.(collation := rest[collate.name..collate.to]);
      rest := rest[..collate.from] + rest[collate.to..];
    }
    if IndexCI(rest, "NOT NULL") >= 0 {
      col := col.(notNull := true);
      rest := TrimSpace(RemoveFirst(rest, "NOT NULL"));
    } else {
      rest := TrimSpace(RemoveFirst(rest, " NULL"));
    }
    var idx := IndexCI(rest, DEFAULT);
    if idx >= 0 && !AfterBy(rest, idx) {
      var before := rest[..idx];
      var after := rest[idx + |DEFAULT|..];
      var (value, remainder) := ExtractDefaultValue(after);
      col := col.(default := Some(value));
      rest := TrimSpace(TrimSpace(before) + " " + TrimSpace(remainder));
    }
    var (dataType, inline) := SplitTypeAndConstraints(rest);
    return Parsed(col.(dataType := TrimSpace(dataType), inline := if inline != "" then [inline] else []));
  }
}
