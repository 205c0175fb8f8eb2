/** Which ALTER DOMAIN and ALTER VIEW texts are not tracked. */
module AlterObjects {
  import opened Text
  import opened Ast
  import opened Patterns
  import opened Indexed
  import ColumnList
  import ColumnPrint

  /** ALTER kind name action, as it is usually written. */
  function AlterText(kind: string, name: string, action: string): string {
    "ALTER " + (kind + (" " + (name + (" " + action))))
  }

  /** The parts of such a text: kind at 6, name at n, action at m. */
  predicate Written(s: string, kind: string, name: string, action: string) {
    var n := 7 + |kind|;
    var m := n + |name| + 1;
    && |s| == m + |action| && s[0..5] == "ALTER" && s[5] == ' ' && s[6..n - 1] == kind && s[n - 1] == ' '
    && s[n..m - 1] == name && s[m - 1] == ' ' && s[m..] == action
  }

  lemma Behind(s: string, i: nat, w: string, rest: string)
    requires i <= |s| && s[i..] == w + (" " + rest)
    ensures var k := i + |w|; k + 1 <= |s| && s[i..k] == w && s[k] == ' ' && s[k + 1..] == rest
  {
    var t, k := s[i..], i + |w|;
    assert |t| == |s| - i;
    assert s[i..k] == t[..|w|] && s[k] == t[|w|] && s[k + 1..] == t[|w| + 1..];
  }

  lemma Parts(kind: string, name: string, action: string)
    ensures Written(AlterText(kind, name, action), kind, name, action)
  {
    var lead := "ALTER ";
    var b := kind + (" " + (name + (" " + action)));
    var s := lead + b;
    assert lead[0..5] == "ALTER" && lead[5] == ' ';
    assert s[0..5] == lead[0..5] && s[5] == ' ' && s[6..] == b;
    Behind(s, 6, kind, name + (" " + action));
    Behind(s, 7 + |kind|, name, action);
  }

  lemma NameThere(s: string, n: nat, m: nat, name: string)
    requires Token(name) && m == n + |name| + 1 && m < |s| && s[n..m - 1] == name && s[m - 1] == ' ' && !IsBlank(s[m])
    ensures BlankEnd(s, n) == m - 1 > n && SkipSpaces(s, m - 1) == m
  {
    forall j | n <= j < m - 1 ensures !IsBlank(s[j]) { assert s[j] == s[n..m - 1][j - n]; }
    ColumnList.BlankRun(s, n, m - 1);
    ColumnPrint.OneBlank(s, m - 1);
  }

  /** The name is not taken for IF EXISTS. */
  lemma NotIfExists(s: string, n: nat, m: nat, name: string)
    requires Token(name) && m == n + |name| + 1 && m < |s| && s[n..m - 1] == name && s[m - 1] == ' ' && !IsBlank(s[m])
    requires Lower(name) == "if" ==> !MatchesAt(s, m, "EXISTS")
    ensures TwoWords(s, n, "IF", "EXISTS") == n
  {
    forall j | n <= j < m - 1 ensures !IsBlank(s[j]) { assert s[j] == s[n..m - 1][j - n]; }
    MatchHas(s, n, "IF", 1);
    assert Lower("IF") == "if";
    if MatchesAt(s, n, "IF") && |name| == 2 { assert Lower(name) == Lower(s[n..n + 2]) == "if"; }
    ColumnPrint.OneBlank(s, m - 1);
    hide MatchesAt;
  }

  /** A text that can be such an action: on one line, and not EXISTS behind a name IF. */
  predicate OneLine(name: string, action: string) {
    action != "" && !IsBlank(action[0]) && '\n' !in action && (Lower(name) == "if" ==> !MatchesAt(action, 0, "EXISTS"))
  }

  /** Such a text is untracked exactly when its action is. */
  lemma ActionDecides(s: string, kind: string, name: string, action: string)
    requires Written(s, kind, name, action) && kind in {"DOMAIN", "VIEW"} && Token(name) && OneLine(name, action)
    ensures OwnerOrSchema(s, kind) <==> OwnerOrSchemaAction(action)
  {
    hide OwnerOrSchemaAction, Token, IsBlank, Lower, MatchesAt;
    var n := 7 + |kind|;
    var m := n + |name| + 1;
    Heads(s, kind, name, action);
    hide Written;
    KeywordAt(s, 0, "ALTER");
    KeywordAt(s, 6, kind);
    NotIfExists(s, n, m, name);
    NameThere(s, n, m, name);
    ColumnList.BreakIs(s, m);
    assert s[m..|s|] == action;
  }

  /** Every part begins with a visible character. */
  lemma Heads(s: string, kind: string, name: string, action: string)
    requires Written(s, kind, name, action) && kind in {"DOMAIN", "VIEW"} && Token(name) && OneLine(name, action)
    ensures var n := 7 + |kind|;
            var m := n + |name| + 1;
            && m < |s| && s[0..5] == "ALTER" && s[5] == ' ' && !IsBlank(s[6]) && s[6..n - 1] == kind && s[n - 1] == ' '
            && !IsBlank(s[n]) && s[n..m - 1] == name && s[m - 1] == ' ' && !IsBlank(s[m]) && s[m..] == action
            && '\n' !in s[m..] && (Lower(name) == "if" ==> !MatchesAt(s, m, "EXISTS"))
  {
    var n := 7 + |kind|;
    var m := n + |name| + 1;
    TokenHead(name);
    KindHead(kind);
    hide Lower, IsBlank, Token;
    assert s[m] == s[m..][0] && s[n] == s[n..m - 1][0] && s[6] == s[6..n - 1][0];
    if MatchesAt(s, m, "EXISTS") { assert s[m..m + 6] == s[m..][0..6] == action[0..6]; }
  }

  lemma KindHead(kind: string)
    requires kind in {"DOMAIN", "VIEW"}
    ensures kind != "" && !IsBlank(kind[0]) && !IsBlank('D') && !IsBlank('V')
  {
  }

  lemma WordsOf(a: string, b: string, who: string)
    requires a != "" && b != "" && !IsBlank(b[0]) && who != ""
    ensures var t := a + " " + b + " " + who;
            var n := |a| + 1 + |b|;
            TwoWords(t, 0, a, b) == n && SkipSpaces(t, n) > n
  {
    var t := a + " " + b + " " + who;
    var n := |a| + 1 + |b|;
    assert t[0..|a|] == a && t[|a|] == ' ' && t[|a| + 1..n] == b && t[n] == ' ' && t[|a| + 1] == b[0];
    ColumnPrint.MatchesItself(t, 0, a);
    ColumnPrint.MatchesItself(t, |a| + 1, b);
    ColumnPrint.OneBlank(t, |a|);
    hide MatchesAt;
  }

  lemma SkippedStatement(x: Schema, kind: ObjectKind, key: string, sql: string)
    requires Untracked(kind, sql)
    ensures ApplyX(x, AlterObjectOpts(kind, key, sql)) == Ran(x, Done)
  {
    hide Untracked;
  }

  /** OWNER TO and SET SCHEMA on a domain or view leave the schema as it is. */
  lemma OwnerUntracked(x: Schema, kind: ObjectKind, name: string, key: string, action: string, who: string)
    requires (kind.Domain? || kind.View?) && Token(name) && who != "" && '\n' !in who
    requires action in {"OWNER TO " + who, "SET SCHEMA " + who}
    ensures ApplyX(x, AlterObjectOpts(kind, key, AlterText(KindText(kind), name, action))) == Ran(x, Done)
  {
    var sql := AlterText(KindText(kind), name, action);
    hide ApplyX, OwnerOrSchema, OwnerOrSchemaAction, AlterText, Token, Written, OneLine;
    ActionOne(name, who, action);
    Parts(KindText(kind), name, action);
    ActionDecides(sql, KindText(kind), name, action);
    SkippedStatement(x, kind, key, sql);
  }

  lemma ActionOne(name: string, who: string, action: string)
    requires who != "" && '\n' !in who && action in {"OWNER TO " + who, "SET SCHEMA " + who}
    ensures OneLine(name, action) && OwnerOrSchemaAction(action)
  {
    assert action[0] in {'O', 'S'} && '\n' !in action;
    MatchHas(action, 0, "EXISTS", 0);
    hide MatchesAt, OwnerOrSchemaAction;
    if action == "OWNER TO " + who { OwnerAction(who); } else { SchemaAction(who); }
  }

  lemma OwnerAction(who: string)
    requires who != ""
    ensures OwnerOrSchemaAction("OWNER TO " + who)
  {
    hide MatchesAt, SkipSpaces, TwoWords;
    WordsOf("OWNER", "TO", who);
    assert "OWNER" + " " + "TO" + " " + who == "OWNER TO " + who;
  }

  lemma SchemaAction(who: string)
    requires who != ""
    ensures OwnerOrSchemaAction("SET SCHEMA " + who)
  {
    var t := "SET SCHEMA " + who;
    MatchHas(t, 0, "OWNER", 0);
    hide MatchesAt, SkipSpaces;
    WordsOf("SET", "SCHEMA", who);
    assert "SET" + " " + "SCHEMA" + " " + who == t;
  }
}
