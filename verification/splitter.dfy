/** Statement splitting. The specification reads the input as a row of lexemes
    (quoted strings, dollar blocks, comments, single characters); the method is
    the byte-by-byte state machine. */
module Splitter {
  import opened Text

  // ---- Lexeme extents: each function returns an end position ----

  /** From inside a string literal at i, the position after its closing quote;
      a doubled quote does not close. An unclosed literal runs to the end. */
  function QuoteEnd(s: string, i: nat): (n: nat)
    requires i <= |s|
    ensures i <= n <= |s| && (i < |s| ==> i < n)
    decreases |s| - i
  {
    if i == |s| then i
    else if s[i] != '\'' then QuoteEnd(s, i + 1)
    else if i + 1 < |s| && s[i + 1] == '\'' then QuoteEnd(s, i + 2)
    else i + 1
  }

  function LineEnd(s: string, i: nat): (n: nat)
    requires i <= |s|
    ensures i <= n <= |s|
    decreases |s| - i
  {
    if i == |s| then i else if s[i] == '\n' then i + 1 else LineEnd(s, i + 1)
  }

  function BlockEnd(s: string, i: nat): (n: nat)
    requires i <= |s|
    ensures i <= n <= |s|
    decreases |s| - i
  {
    if i == |s| then i
    else if s[i] == '*' && i + 1 < |s| && s[i + 1] == '/' then i + 2
    else BlockEnd(s, i + 1)
  }

  /** Where the block with opening tag s[i..tagEnd] ends, or i + 1 when its tag
      does not occur again. */
  function TagEnd(s: string, i: nat, tagEnd: nat): (n: nat)
    requires i < tagEnd <= |s|
    ensures i < n <= |s|
  {
    var close := IndexFrom(s, s[i..tagEnd], tagEnd);
    if close < 0 then i + 1 else close + (tagEnd - i)
  }

  /** The position after the dollar-quoted block that starts at i, or after the
      dollar sign alone when it opens no block that closes later. */
  function DollarEnd(s: string, i: nat): (n: nat)
    requires i < |s|
    ensures i < n <= |s|
  {
    var end := IndexFrom(s, "$", i + 1);
    if end < 0 then i + 1 else TagEnd(s, i, end + 1)
  }

  predicate StartsLine(s: string, i: nat) { i + 1 < |s| && s[i] == '-' && s[i + 1] == '-' }

  predicate StartsBlock(s: string, i: nat) { i + 1 < |s| && s[i] == '/' && s[i + 1] == '*' }

  predicate StartsComment(s: string, i: nat) { StartsLine(s, i) || StartsBlock(s, i) }

  /** The end of the lexeme that starts at i in the normal state. */
  function LexEnd(s: string, i: nat): (n: nat)
    requires i < |s|
    ensures i < n <= |s|
  {
    if s[i] == '\'' then QuoteEnd(s, i + 1)
    else if StartsLine(s, i) then LineEnd(s, i + 2)
    else if StartsBlock(s, i) then BlockEnd(s, i + 2)
    else if s[i] == '$' then DollarEnd(s, i)
    else i + 1
  }

  /** Untrimmed pieces of s from i on, the first one continuing `cur`: cut at
      every `;` that is a lexeme of its own, comments dropped. */
  function Pieces(s: string, i: nat, cur: string): (ps: seq<string>)
    requires i <= |s|
    ensures ps != []
    decreases |s| - i
  {
    if i == |s| then [cur]
    else if s[i] == ';' then [cur] + Pieces(s, i + 1, "")
    else
      var n := LexEnd(s, i);
      Pieces(s, n, if StartsComment(s, i) then cur else cur + s[i..n])
  }

  /** Trims every piece and drops the empty ones. */
  function Keep(ps: seq<string>): seq<string> {
    if ps == [] then []
    else
      var p := TrimSpace(ps[0]);
      if p == "" then Keep(ps[1..]) else [p] + Keep(ps[1..])
  }

  function Statements(sql: string): seq<string> { Keep(Pieces(sql, 0, "")) }

  lemma KeepAppend(a: seq<string>, b: seq<string>)
    ensures Keep(a + b) == Keep(a) + Keep(b)
  {
    if a == [] {
      assert a + b == b;
    } else {
      assert (a + b)[1..] == a[1..] + b;
      KeepAppend(a[1..], b);
    }
  }

  lemma KeepOne(p: string, rest: seq<string>)
    ensures Keep([p] + rest) == (if TrimSpace(p) == "" then [] else [TrimSpace(p)]) + Keep(rest)
  {
    assert ([p] + rest)[1..] == rest;
  }

  // ---- The state machine ----

  datatype ScanState = Normal | SingleQuote | LineComment | BlockComment

  /** The pieces still to come from state st at position i with buf collected. */
  function Resume(s: string, st: ScanState, i: nat, buf: string): seq<string>
    requires i <= |s|
  {
    match st
    case Normal => Pieces(s, i, buf)
    case SingleQuote => Pieces(s, QuoteEnd(s, i), buf + s[i..QuoteEnd(s, i)])
    case LineComment => Pieces(s, LineEnd(s, i), buf)
    case BlockComment => Pieces(s, BlockEnd(s, i), buf)
  }

  /** Inside a literal. */
  lemma ResumeQuote(s: string, i: nat, buf: string)
    requires i < |s|
    ensures Resume(s, SingleQuote, i, buf) ==
            if s[i] != '\'' then Resume(s, SingleQuote, i + 1, buf + [s[i]])
            else if i + 1 < |s| && s[i + 1] == '\'' then Resume(s, SingleQuote, i + 2, buf + [s[i]] + [s[i + 1]])
            else Resume(s, Normal, i + 1, buf + [s[i]])
  {
    var n := QuoteEnd(s, i);
    if s[i] != '\'' {
      assert buf + s[i..n] == buf + [s[i]] + s[i + 1..n];
    } else if i + 1 < |s| && s[i + 1] == '\'' {
      assert buf + s[i..n] == buf + [s[i]] + [s[i + 1]] + s[i + 2..n];
    } else {
      assert buf + s[i..n] == buf + [s[i]];
    }
  }

  lemma ResumeEnd(s: string, st: ScanState, buf: string)
    ensures Resume(s, st, |s|, buf) == [buf] + []
    ensures Keep(Resume(s, st, |s|, buf)) == if TrimSpace(buf) == "" then [] else [TrimSpace(buf)]
  {
    assert buf + s[|s|..|s|] == buf;
    KeepOne(buf, []);
  }

  lemma ResumeOpenQuote(s: string, i: nat, buf: string)
    requires i < |s| && s[i] == '\''
    ensures Resume(s, Normal, i, buf) == Resume(s, SingleQuote, i + 1, buf + [s[i]])
  {
    var n := QuoteEnd(s, i + 1);
    assert buf + s[i..n] == buf + [s[i]] + s[i + 1..n];
  }

  lemma ResumeOpenComment(s: string, i: nat, buf: string)
    requires i + 1 < |s|
    ensures s[i] == '-' && s[i + 1] == '-' ==> Resume(s, Normal, i, buf) == Resume(s, LineComment, i + 2, buf)
    ensures s[i] == '/' && s[i + 1] == '*' ==> Resume(s, Normal, i, buf) == Resume(s, BlockComment, i + 2, buf)
  {
  }

  lemma ResumeSeparator(s: string, i: nat, buf: string) returns (rest: seq<string>)
    requires i < |s| && s[i] == ';'
    ensures rest == Resume(s, Normal, i + 1, "")
    ensures TrimSpace(buf) == "" ==> Keep(Resume(s, Normal, i, buf)) == Keep(rest)
    ensures TrimSpace(buf) != "" ==> Keep(Resume(s, Normal, i, buf)) == [TrimSpace(buf)] + Keep(rest)
  {
    rest := Pieces(s, i + 1, "");
    KeepOne(buf, rest);
    hide TrimSpace, Keep;
    assert [] + Keep(rest) == Keep(rest);
  }

  lemma MoveOver(a: seq<string>, x: string, b: seq<string>)
    ensures a + ([x] + b) == a + [x] + b
  {
  }

  lemma NothingLeft(a: seq<string>)
    ensures a + [] == a
  {
  }

  /** A dollar sign or any other single character that opens nothing. */
  lemma ResumePlain(s: string, i: nat, buf: string)
    requires i < |s| && s[i] != '\'' && s[i] != ';'
    requires i + 1 < |s| ==> !(s[i] == '-' && s[i + 1] == '-') && !(s[i] == '/' && s[i + 1] == '*')
    ensures Resume(s, Normal, i, buf) ==
            if s[i] == '$' then Resume(s, Normal, DollarEnd(s, i), buf + s[i..DollarEnd(s, i)])
            else Resume(s, Normal, i + 1, buf + [s[i]])
  {
    assert s[i..i + 1] == [s[i]];
  }

  /** Inside a comment. */
  lemma ResumeComment(s: string, i: nat, buf: string)
    requires i < |s|
    ensures Resume(s, LineComment, i, buf) == Resume(s, if s[i] == '\n' then Normal else LineComment, i + 1, buf)
    ensures Resume(s, BlockComment, i, buf) ==
            if s[i] == '*' && i + 1 < |s| && s[i + 1] == '/' then Resume(s, Normal, i + 2, buf)
            else Resume(s, BlockComment, i + 1, buf)
  {
  }

  /** The text copied at a dollar sign: a whole block, or the sign alone. */
  method DollarBlock(sql: string, i: nat) returns (block: string)
    requires i < |sql|
    ensures block == sql[i..DollarEnd(sql, i)]
  {
    var end := IndexFrom(sql, "$", i + 1);
    if end >= 0 {
      var tag := sql[i..end + 1];
      var close := IndexFrom(sql, tag, end + 1);
      if close >= 0 {
        return sql[i..close + |tag|];
      }
    }
    return sql[i..i + 1];
  }

  /** One character in the normal state, other than a separator. */
  method StepNormal(sql: string, pos: nat, collected: string) returns (st: ScanState, i: nat, buf: string)
    requires pos < |sql| && sql[pos] != ';'
    ensures pos < i <= |sql| && Resume(sql, Normal, pos, collected) == Resume(sql, st, i, buf)
  {
    hide Pieces, DollarEnd, QuoteEnd, Resume;
    st, i, buf := Normal, pos, collected;
    var ch := sql[i];
    if ch == '\'' {
      ResumeOpenQuote(sql, i, buf);
      st, buf, i := SingleQuote, buf + [ch], i + 1;
    } else if ch == '-' && i + 1 < |sql| && sql[i + 1] == '-' {
      ResumeOpenComment(sql, i, buf);
      st, i := LineComment, i + 2;
    } else if ch == '/' && i + 1 < |sql| && sql[i + 1] == '*' {
      ResumeOpenComment(sql, i, buf);
      st, i := BlockComment, i + 2;
    } else if ch == '$' {
      ResumePlain(sql, i, buf);
      var block := DollarBlock(sql, i);
      buf, i := buf + block, i + |block|;
    } else {
      ResumePlain(sql, i, buf);
      buf, i := buf + [ch], i + 1;
    }
  }

  method Split(sql: string) returns (stmts: seq<string>)
    ensures stmts == Statements(sql)
  {
    stmts := [];
    var buf := "";
    var st := Normal;
    var i := 0;
    ghost var rest := Pieces(sql, 0, "");
    assert rest == Resume(sql, st, i, buf) && Statements(sql) == Keep(rest);
    hide *;
    while i < |sql|
      invariant 0 <= i <= |sql|
      invariant rest == Resume(sql, st, i, buf)
      invariant Statements(sql) == stmts + Keep(rest)
    {
      var ch := sql[i];
      match st {
        case Normal =>
          if ch == ';' {
            rest := ResumeSeparator(sql, i, buf);
            var s := TrimSpace(buf);
            if s != "" {
              MoveOver(stmts, s, Keep(rest));
              stmts := stmts + [s];
            }
            buf, i := "", i + 1;
          } else {
            st, i, buf := StepNormal(sql, i, buf);
          }
        case SingleQuote =>
          ResumeQuote(sql, i, buf);
          buf := buf + [ch];
          if ch == '\'' {
            if i + 1 < |sql| && sql[i + 1] == '\'' {
              buf, i := buf + [sql[i + 1]], i + 2;
            } else {
              st, i := Normal, i + 1;
            }
          } else {
            i := i + 1;
          }
        case LineComment =>
          ResumeComment(sql, i, buf);
          if ch == '\n' {
            st := Normal;
          }
          i := i + 1;
        case BlockComment =>
          ResumeComment(sql, i, buf);
          if ch == '*' && i + 1 < |sql| && sql[i + 1] == '/' {
            st, i := Normal, i + 2;
          } else {
            i := i + 1;
          }
      }
    }
    ResumeEnd(sql, st, buf);
    NothingLeft(stmts);
    var s := TrimSpace(buf);
    if s != "" {
      stmts := stmts + [s];
    }
  }
}
