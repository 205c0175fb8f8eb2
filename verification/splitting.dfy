/** Laws of statement splitting: what a separator is, how splitting composes,
    what it preserves, and that its results are stable. */
module Splitting {
  import opened Text
  import opened Splitter

  // ---- Where the separators are ----

  /** Reading lexeme by lexeme from i arrives exactly at j. */
  predicate LexemeAt(s: string, i: nat, j: nat)
    requires i <= |s|
    decreases |s| - i
  {
    i == j || (i < |s| && i < j && LexemeAt(s, LexEnd(s, i), j))
  }

  /** A `;` that is a lexeme of its own: outside quotes, blocks and comments. */
  predicate Separates(s: string, j: nat) {
    j < |s| && s[j] == ';' && LexemeAt(s, 0, j)
  }

  function Quotes(s: string): nat {
    if s == "" then 0 else Quotes(s[..|s| - 1]) + if s[|s| - 1] == '\'' then 1 else 0
  }

  /** Free of dollar signs and of comment openers. */
  predicate PlainText(s: string) {
    '$' !in s && forall i :: 0 <= i < |s| ==> !StartsComment(s, i)
  }

  lemma {:induction false} QuotesAt(s: string, i: nat)
    requires i < |s|
    ensures Quotes(s[..i + 1]) == Quotes(s[..i]) + if s[i] == '\'' then 1 else 0
  {
    assert s[..i + 1][..i] == s[..i];
  }

  /** Inside a literal, a position before its end has an odd number of quotes
      behind it unless it is itself a quote; the end has an even number. */
  lemma {:induction false} QuoteParity(s: string, i: nat, j: nat)
    requires i <= |s| && i <= j <= QuoteEnd(s, i) && Quotes(s[..i]) % 2 == 1
    ensures j < QuoteEnd(s, i) && s[j] != '\'' ==> Quotes(s[..j]) % 2 == 1
    ensures j == QuoteEnd(s, i) < |s| ==> Quotes(s[..j]) % 2 == 0
    decreases |s| - i
  {
    if i < |s| {
      QuotesAt(s, i);
      if s[i] != '\'' {
        if j > i { QuoteParity(s, i + 1, j); }
      } else if i + 1 < |s| && s[i + 1] == '\'' {
        QuotesAt(s, i + 1);
        if j >= i + 2 { QuoteParity(s, i + 2, j); }
      }
    }
  }

  /** On plain text a `;` separates exactly when an even number of quote
      characters precedes it: doubled quotes need no lookahead. */
  lemma {:induction false} SeparatorParity(s: string, i: nat, j: nat)
    requires PlainText(s) && i <= j < |s| && s[j] == ';' && Quotes(s[..i]) % 2 == 0
    ensures LexemeAt(s, i, j) <==> Quotes(s[..j]) % 2 == 0
    decreases |s| - i
  {
    if i < j {
      assert s[i] in s && !StartsComment(s, i);
      var n := LexEnd(s, i);
      QuotesAt(s, i);
      if s[i] == '\'' {
        if j < n {
          QuoteParity(s, i + 1, j);
        } else {
          QuoteParity(s, i + 1, n);
          SeparatorParity(s, n, j);
        }
      } else {
        SeparatorParity(s, n, j);
      }
    }
  }

  lemma SeparatesByParity(s: string, j: nat)
    requires PlainText(s) && j < |s|
    ensures Separates(s, j) <==> s[j] == ';' && Quotes(s[..j]) % 2 == 0
  {
    if s[j] == ';' { SeparatorParity(s, 0, j); }
  }

  // ---- Composition ----

  predicate QuoteCloses(s: string, i: nat)
    requires i <= |s|
    decreases |s| - i
  {
    i < |s| &&
    if s[i] != '\'' then QuoteCloses(s, i + 1)
    else i + 1 < |s| && s[i + 1] == '\'' ==> QuoteCloses(s, i + 2)
  }

  predicate LineCloses(s: string, i: nat)
    requires i <= |s|
    decreases |s| - i
  {
    i < |s| && (s[i] == '\n' || LineCloses(s, i + 1))
  }

  predicate BlockCloses(s: string, i: nat)
    requires i <= |s|
    decreases |s| - i
  {
    i + 1 < |s| && ((s[i] == '*' && s[i + 1] == '/') || BlockCloses(s, i + 1))
  }

  /** The lexeme at i ends inside s for a reason that more text cannot change. */
  predicate Complete(s: string, i: nat)
    requires i < |s|
  {
    if s[i] == '\'' then QuoteCloses(s, i + 1)
    else if StartsLine(s, i) then LineCloses(s, i + 2)
    else if StartsBlock(s, i) then BlockCloses(s, i + 2)
    else s[i] == '$' ==> DollarEnd(s, i) > i + 1
  }

  /** Scanning from i ends in the normal state, and every dollar sign met in
      the normal state opens a block that closes inside s. */
  predicate Tidy(s: string, i: nat)
    requires i <= |s|
    decreases |s| - i
  {
    i == |s| || (Complete(s, i) && Tidy(s, LexEnd(s, i)))
  }

  /** The last character of a and the first of b do not merge into one token. */
  predicate Meets(a: string, b: string) {
    a != "" && b != "" ==>
      var x, y := a[|a| - 1], b[0];
      !(x == '\'' && y == '\'') && !(x == '-' && y == '-') && !(x == '/' && y == '*')
  }

  lemma {:induction false} QuoteLocal(a: string, rest: string, i: nat)
    requires i <= |a| && QuoteCloses(a, i) && Meets(a, rest)
    ensures QuoteEnd(a + rest, i) == QuoteEnd(a, i) && QuoteCloses(a + rest, i)
    decreases |a| - i
  {
    if a[i] != '\'' {
      QuoteLocal(a, rest, i + 1);
    } else if i + 1 < |a| && a[i + 1] == '\'' {
      QuoteLocal(a, rest, i + 2);
    }
  }

  lemma {:induction false} LineLocal(a: string, rest: string, i: nat)
    requires i <= |a| && LineCloses(a, i)
    ensures LineEnd(a + rest, i) == LineEnd(a, i)
    decreases |a| - i
  {
    if a[i] != '\n' { LineLocal(a, rest, i + 1); }
  }

  lemma {:induction false} BlockLocal(a: string, rest: string, i: nat)
    requires i <= |a| && BlockCloses(a, i)
    ensures BlockEnd(a + rest, i) == BlockEnd(a, i)
    decreases |a| - i
  {
    if !(a[i] == '*' && a[i + 1] == '/') { BlockLocal(a, rest, i + 1); }
  }

  lemma OccursWithin(s: string, x: nat, y: nat, sub: string, i: nat)
    requires x <= i <= y <= |s|
    ensures OccursAt(s[x..y], sub, i - x) <==> i + |sub| <= y && OccursAt(s, sub, i)
  {
    if i + |sub| <= y { SliceOfSlice(s, x, y, i, i + |sub|); }
  }

  lemma FoundPast(s: string, sub: string, i: nat, y: nat)
    requires i <= y <= |s| && i + |sub| > y
    ensures var r := IndexFrom(s, sub, i); r >= 0 ==> r + |sub| > y
  {
    hide OccursAt;
  }

  /** A search inside s[x..y] finds what the search in s finds, if it fits. */
  lemma {:induction false} IndexWithin(s: string, x: nat, y: nat, sub: string, i: nat)
    requires x <= i <= y <= |s|
    ensures var r := IndexFrom(s, sub, i);
            IndexFrom(s[x..y], sub, i - x) == if r >= 0 && r + |sub| <= y then r - x else -1
    decreases y - i
  {
    hide OccursAt;
    OccursWithin(s, x, y, sub, i);
    if i + |sub| > y { FoundPast(s, sub, i, y); }
    if i < y { IndexWithin(s, x, y, sub, i + 1); }
  }

  lemma TagCut(s: string, x: nat, y: nat, k: nat, tagEnd: nat)
    requires x <= k < tagEnd <= y <= |s|
    ensures TagEnd(s[x..y], k - x, tagEnd - x) + x == if TagEnd(s, k, tagEnd) <= y then TagEnd(s, k, tagEnd) else k + 1
  {
    SliceOfSlice(s, x, y, k, tagEnd);
    IndexWithin(s, x, y, s[k..tagEnd], tagEnd);
  }

  lemma TagAfter(s: string, k: nat, tagEnd: nat)
    requires k < tagEnd <= |s|
    ensures TagEnd(s, k, tagEnd) == k + 1 || TagEnd(s, k, tagEnd) > tagEnd
  {
    hide IndexFrom;
  }

  lemma DollarIs(s: string, k: nat, end: int)
    requires k < |s| && end == IndexFrom(s, "$", k + 1)
    ensures DollarEnd(s, k) == if end < 0 then k + 1 else TagEnd(s, k, end + 1)
  {
    hide IndexFrom, TagEnd;
  }

  lemma DollarFits(s: string, u: string, x: nat, y: nat, k: nat, end: int)
    requires x <= k < y <= |s| && |u| == y - x && end == IndexFrom(s, "$", k + 1)
    requires IndexFrom(u, "$", k - x + 1) == if end >= 0 && end + 1 <= y then end - x else -1
    requires end >= 0 && end + 1 <= y ==>
               TagEnd(u, k - x, end + 1 - x) + x == if TagEnd(s, k, end + 1) <= y then TagEnd(s, k, end + 1) else k + 1
    ensures DollarEnd(u, k - x) + x == if DollarEnd(s, k) <= y then DollarEnd(s, k) else k + 1
  {
    hide IndexFrom, TagEnd, DollarEnd;
    DollarIs(s, k, end);
    if end >= 0 && end + 1 <= y {
      DollarIs(u, k - x, end - x);
    } else {
      DollarIs(u, k - x, -1);
      if end >= 0 { TagAfter(s, k, end + 1); }
    }
  }

  /** Inside s[x..y] a dollar block is seen exactly when all of it fits. */
  lemma DollarCut(s: string, x: nat, y: nat, k: nat)
    requires x <= k < y <= |s|
    ensures DollarEnd(s[x..y], k - x) + x == if DollarEnd(s, k) <= y then DollarEnd(s, k) else k + 1
  {
    hide IndexFrom, TagEnd, DollarEnd;
    var end := IndexFrom(s, "$", k + 1);
    IndexWithin(s, x, y, "$", k + 1);
    if end >= 0 && end + 1 <= y { TagCut(s, x, y, k, end + 1); }
    DollarFits(s, s[x..y], x, y, k, end);
  }

  lemma DollarLocal(a: string, rest: string, i: nat)
    requires i < |a| && DollarEnd(a, i) > i + 1
    ensures DollarEnd(a + rest, i) == DollarEnd(a, i)
  {
    var w := a + rest;
    assert w[0..|a|] == a;
    DollarCut(w, 0, |a|, i);
  }

  lemma LexLocal(a: string, rest: string, i: nat)
    requires i < |a| && Complete(a, i) && Meets(a, rest)
    ensures LexEnd(a + rest, i) == LexEnd(a, i)
    ensures StartsComment(a + rest, i) == StartsComment(a, i)
  {
    if a[i] == '\'' {
      QuoteLocal(a, rest, i + 1);
    } else if StartsLine(a, i) {
      LineLocal(a, rest, i + 2);
    } else if StartsBlock(a, i) {
      BlockLocal(a, rest, i + 2);
    } else if a[i] == '$' {
      DollarLocal(a, rest, i);
    }
  }

  lemma PiecesEnd(s: string, cur: string)
    ensures Pieces(s, |s|, cur) == [cur]
  {
  }

  lemma PiecesStep(s: string, i: nat, cur: string)
    requires i < |s|
    ensures Pieces(s, i, cur) ==
            if s[i] == ';' then [cur] + Pieces(s, i + 1, "")
            else Pieces(s, LexEnd(s, i), if StartsComment(s, i) then cur else cur + s[i..LexEnd(s, i)])
  {
    hide LexEnd, StartsComment;
  }

  lemma TidyStep(a: string, i: nat)
    requires i < |a| && Tidy(a, i)
    ensures Complete(a, i) && Tidy(a, LexEnd(a, i)) && (a[i] == ';' ==> LexEnd(a, i) == i + 1)
  {
    hide QuoteEnd, LineEnd, BlockEnd, DollarEnd;
  }

  lemma SliceFront(a: string, rest: string, i: nat, n: nat)
    requires i < n <= |a|
    ensures (a + rest)[i] == a[i] && (a + rest)[i..n] == a[i..n]
  {
  }

  lemma Separated(a: string, b: string)
    ensures a + ";" + b == a + (";" + b) && (a + ";" + b)[|a|] == ';'
  {
  }

  lemma Associate(x: string, y: seq<string>, z: seq<string>)
    ensures [x] + (y + z) == [x] + y + z
  {
  }

  /** The scan of a tidy text is not disturbed by what follows it. */
  lemma {:induction false} PiecesLocal(a: string, b: string, i: nat, cur: string)
    requires i <= |a| && Tidy(a, i)
    ensures Pieces(a + ";" + b, i, cur) == Pieces(a, i, cur) + Pieces(a + ";" + b, |a| + 1, "")
    decreases |a| - i
  {
    hide LexEnd, StartsComment, Complete, Tidy, Pieces;
    var w := a + ";" + b;
    Separated(a, b);
    PiecesStep(w, i, cur);
    if i == |a| {
      PiecesEnd(a, cur);
    } else {
      PiecesStep(a, i, cur);
      TidyStep(a, i);
      LexLocal(a, ";" + b, i);
      var n := LexEnd(a, i);
      SliceFront(a, ";" + b, i, n);
      if a[i] == ';' {
        PiecesLocal(a, b, i + 1, "");
        Associate(cur, Pieces(a, i + 1, ""), Pieces(w, |a| + 1, ""));
      } else {
        PiecesLocal(a, b, n, if StartsComment(a, i) then cur else cur + a[i..n]);
      }
    }
  }

  lemma {:induction false} QuoteShift(p: string, s: string, i: nat)
    requires i <= |s|
    ensures QuoteEnd(p + s, |p| + i) == |p| + QuoteEnd(s, i)
    decreases |s| - i
  {
    if i < |s| {
      if s[i] != '\'' { QuoteShift(p, s, i + 1); }
      else if i + 1 < |s| && s[i + 1] == '\'' { QuoteShift(p, s, i + 2); }
    }
  }

  lemma {:induction false} CommentShift(p: string, s: string, i: nat)
    requires i <= |s|
    ensures LineEnd(p + s, |p| + i) == |p| + LineEnd(s, i)
    ensures BlockEnd(p + s, |p| + i) == |p| + BlockEnd(s, i)
    decreases |s| - i
  {
    if i < |s| { CommentShift(p, s, i + 1); }
  }

  lemma DollarShift(p: string, s: string, i: nat)
    requires i < |s|
    ensures DollarEnd(p + s, |p| + i) == |p| + DollarEnd(s, i)
  {
    var w := p + s;
    assert w[|p|..|w|] == s;
    DollarCut(w, |p|, |w|, |p| + i);
  }

  lemma LexShift(p: string, s: string, i: nat)
    requires i < |s|
    ensures LexEnd(p + s, |p| + i) == |p| + LexEnd(s, i)
    ensures StartsComment(p + s, |p| + i) == StartsComment(s, i)
  {
    var w := p + s;
    assert w[|p| + i] == s[i] && (i + 1 < |s| ==> w[|p| + i + 1] == s[i + 1]);
    hide QuoteEnd, LineEnd, BlockEnd, DollarEnd;
    if s[i] == '\'' {
      QuoteShift(p, s, i + 1);
    } else if StartsComment(s, i) {
      CommentShift(p, s, i + 2);
    } else if s[i] == '$' {
      DollarShift(p, s, i);
    }
  }

  lemma SliceBehind(p: string, s: string, i: nat, n: nat)
    requires i < n <= |s|
    ensures (p + s)[|p| + i] == s[i] && (p + s)[|p| + i..|p| + n] == s[i..n]
  {
  }

  /** Text before the scanning position has no influence. */
  lemma {:induction false} PiecesShift(p: string, s: string, i: nat, cur: string)
    requires i <= |s|
    ensures Pieces(p + s, |p| + i, cur) == Pieces(s, i, cur)
    decreases |s| - i
  {
    hide Pieces, LexEnd, StartsComment;
    if i == |s| {
      PiecesEnd(s, cur);
      PiecesEnd(p + s, cur);
    } else {
      LexShift(p, s, i);
      var n := LexEnd(s, i);
      SliceBehind(p, s, i, n);
      PiecesStep(s, i, cur);
      PiecesStep(p + s, |p| + i, cur);
      if s[i] == ';' {
        PiecesShift(p, s, i + 1, "");
      } else {
        PiecesShift(p, s, n, if StartsComment(s, i) then cur else cur + s[i..n]);
      }
    }
  }

  /** Splitting composes at a separator that follows tidy text. */
  lemma SplitComposes(a: string, b: string)
    requires Tidy(a, 0)
    ensures Statements(a + ";" + b) == Statements(a) + Statements(b)
  {
    PiecesLocal(a, b, 0, "");
    PiecesShift(a + ";", b, 0, "");
    KeepAppend(Pieces(a, 0, ""), Pieces(b, 0, ""));
  }

  // ---- Comment-free input ----

  predicate NoComment(s: string, i: nat)
    requires i <= |s|
    decreases |s| - i
  {
    i == |s| || (!StartsComment(s, i) && NoComment(s, LexEnd(s, i)))
  }

  lemma JoinCons(p: string, ps: seq<string>, sep: string)
    requires ps != []
    ensures Join([p] + ps, sep) == p + sep + Join(ps, sep)
  {
    assert ([p] + ps)[1..] == ps;
  }

  /** The untrimmed pieces joined by `;` give the input back. */
  lemma TailJoin(cur: string, s: string, i: nat, n: nat)
    requires i <= n <= |s|
    ensures cur + s[i..n] + s[n..] == cur + s[i..]
  {
  }

  lemma TailSeparator(cur: string, s: string, i: nat)
    requires i < |s| && s[i] == ';'
    ensures cur + ";" + ("" + s[i + 1..]) == cur + s[i..]
  {
  }

  lemma {:induction false} PiecesJoin(s: string, i: nat, cur: string)
    requires i <= |s| && NoComment(s, i)
    ensures Join(Pieces(s, i, cur), ";") == cur + s[i..]
    decreases |s| - i
  {
    hide LexEnd, TrimSpace, Pieces, StartsComment, NoComment;
    if i == |s| {
      PiecesEnd(s, cur);
      assert cur + s[i..] == cur;
    } else {
      NoCommentStep(s, i);
      PiecesStep(s, i, cur);
      hide Join;
      var n := LexEnd(s, i);
      if s[i] == ';' {
        PiecesJoin(s, i + 1, "");
        JoinCons(cur, Pieces(s, i + 1, ""), ";");
        TailSeparator(cur, s, i);
      } else {
        PiecesJoin(s, n, cur + s[i..n]);
        TailJoin(cur, s, i, n);
      }
    }
  }

  /** Lexemes fill s[i..m] exactly, none of them a separator or a comment. */
  predicate Solid(s: string, i: nat, m: nat)
    requires i <= m <= |s|
    decreases m - i
  {
    i == m ||
    (s[i] != ';' && !StartsComment(s, i) && LexEnd(s, i) <= m && Solid(s, LexEnd(s, i), m))
  }

  lemma {:induction false} SolidExtends(s: string, i: nat, k: nat, m: nat)
    requires i <= k <= m <= |s| && Solid(s, i, k) && Solid(s, k, m)
    ensures Solid(s, i, m)
    decreases k - i
  {
    if i < k { SolidExtends(s, LexEnd(s, i), k, m); }
  }

  lemma {:induction false} SolidAlone(s: string, i: nat, cur: string)
    requires i <= |s| && Solid(s, i, |s|)
    ensures Pieces(s, i, cur) == [cur + s[i..]]
    decreases |s| - i
  {
    if i < |s| {
      var n := LexEnd(s, i);
      SolidAlone(s, n, cur + s[i..n]);
      assert cur + s[i..n] + s[n..] == cur + s[i..];
    } else {
      assert cur + s[i..] == cur;
    }
  }

  lemma {:induction false} SolidSkipsSpace(s: string, i: nat, x: nat, m: nat)
    requires i <= x <= m <= |s| && Solid(s, i, m)
    requires forall k :: i <= k < x ==> IsSpace(s[k])
    ensures Solid(s, x, m)
    decreases x - i
  {
    if i < x {
      assert IsSpace(s[i]) && LexEnd(s, i) == i + 1;
      SolidSkipsSpace(s, i + 1, x, m);
    }
  }

  /** Cutting a literal where only white space follows keeps its extent. */
  lemma {:induction false} QuoteCut(s: string, x: nat, y: nat, k: nat)
    requires x <= k <= y <= |s|
    requires forall p :: y <= p < QuoteEnd(s, k) ==> s[p] != '\''
    requires y < |s| ==> s[y] != '\''
    ensures QuoteEnd(s[x..y], k - x) + x == if QuoteEnd(s, k) <= y then QuoteEnd(s, k) else y
    decreases y - k
  {
    if k < y {
      assert s[x..y][k - x] == s[k];
      if s[k] != '\'' {
        QuoteCut(s, x, y, k + 1);
      } else if k + 1 < |s| && s[k + 1] == '\'' {
        assert k + 1 < y;
        assert s[x..y][k + 1 - x] == s[k + 1];
        QuoteCut(s, x, y, k + 2);
      }
    }
  }

  /** A dollar block ends with a dollar sign. */
  lemma DollarLast(s: string, k: nat)
    requires k < |s| && s[k] == '$' && DollarEnd(s, k) > k + 1
    ensures s[DollarEnd(s, k) - 1] == '$'
  {
    hide DollarEnd, IndexFrom, TagEnd;
    var end := IndexFrom(s, "$", k + 1);
    IndexFromFirst(s, "$", k + 1);
    DollarIs(s, k, end);
    TagLast(s, k, end);
  }

  lemma OccursLast(s: string, sub: string, i: int)
    requires OccursAt(s, sub, i) && sub != ""
    ensures s[i + |sub| - 1] == sub[|sub| - 1]
  {
    assert s[i..i + |sub|][|sub| - 1] == sub[|sub| - 1];
  }

  lemma TagLast(s: string, k: nat, end: nat)
    requires k < end < |s| && OccursAt(s, "$", end) && TagEnd(s, k, end + 1) > k + 1
    ensures s[TagEnd(s, k, end + 1) - 1] == '$'
  {
    hide IndexFrom, OccursAt;
    var tag := s[k..end + 1];
    OccursLast(s, "$", end);
    assert tag[|tag| - 1] == s[end];
    IndexFromFirst(s, tag, end + 1);
    OccursLast(s, tag, IndexFrom(s, tag, end + 1));
  }

  /** A solid stretch stays solid when cut out with only white space behind. */
  lemma {:induction false} SolidCut(s: string, x: nat, k: nat, y: nat, m: nat)
    requires x <= k <= y <= m <= |s| && Solid(s, k, m)
    requires forall p :: y <= p < m ==> IsSpace(s[p])
    requires m < |s| ==> s[m] == ';'
    ensures Solid(s[x..y], k - x, y - x)
    decreases y - k
  {
    hide DollarEnd, QuoteEnd, LineEnd, BlockEnd;
    if k < y {
      var u := s[x..y];
      var n := LexEnd(s, k);
      assert u[k - x] == s[k];
      assert k + 1 < y ==> u[k + 1 - x] == s[k + 1];
      if s[k] == '\'' {
        QuoteCut(s, x, y, k + 1);
      } else if s[k] == '$' {
        if n > k + 1 { DollarLast(s, k); }
        DollarCut(s, x, y, k);
      }
      assert LexEnd(u, k - x) + x == if n <= y then n else y;
      if n <= y { SolidCut(s, x, n, y, m); }
    }
  }

  /** The visible part of s[i..m]. */
  lemma TrimWindow(s: string, i: nat, m: nat) returns (x: nat, y: nat)
    requires i <= m <= |s|
    ensures i <= x <= y <= m && TrimSpace(s[i..m]) == s[x..y] && Trimmed(s[x..y])
    ensures (forall k :: i <= k < x ==> IsSpace(s[k])) && (forall k :: y <= k < m ==> IsSpace(s[k]))
  {
    hide TrimSpace, IsSpace, Trimmed;
    var p := s[i..m];
    var a, b := TrimSpaceCuts(p);
    x, y := i + a, i + b;
    SliceOfSlice(s, i, m, x, y);
    forall k | i <= k < x ensures IsSpace(s[k]) { assert s[k] == p[..a][k - i]; }
    forall k | y <= k < m ensures IsSpace(s[k]) { assert s[k] == p[b..][k - y]; }
  }

  lemma SolidStatement(q: string)
    requires q != "" && Trimmed(q) && Solid(q, 0, |q|)
    ensures Statements(q) == [q]
  {
    SolidAlone(q, 0, "");
    hide Solid, Pieces, TrimSpace;
    assert "" + q[0..] == q;
    TrimSpaceKeepsTrimmed(q);
    KeepOne(q, []);
    assert [q] + [] == [q];
  }

  /** A piece s[i..m], once trimmed, is its own only statement. */
  lemma PieceStable(s: string, i: nat, m: nat)
    requires i <= m <= |s| && Solid(s, i, m) && (m < |s| ==> s[m] == ';')
    ensures var q := TrimSpace(s[i..m]); q != "" ==> Statements(q) == [q]
  {
    hide Solid, Statements, TrimSpace, Trimmed, IsSpace;
    var x, y := TrimWindow(s, i, m);
    SolidSkipsSpace(s, i, x, m);
    SolidCut(s, x, x, y, m);
    if s[x..y] != "" { SolidStatement(s[x..y]); }
  }

  predicate Stable(ps: seq<string>) {
    forall q :: q in ps ==> Statements(q) == [q]
  }

  /** One lexeme that is neither a separator nor a comment is solid. */
  lemma SolidOne(s: string, i: nat)
    requires i < |s| && s[i] != ';' && !StartsComment(s, i)
    ensures Solid(s, i, LexEnd(s, i))
  {
    hide LexEnd;
  }

  lemma SolidNone(s: string, i: nat)
    requires i <= |s|
    ensures Solid(s, i, i) && s[i..i] == ""
  {
  }

  lemma NoCommentStep(s: string, i: nat)
    requires i < |s| && NoComment(s, i)
    ensures !StartsComment(s, i) && NoComment(s, LexEnd(s, i)) && (s[i] == ';' ==> LexEnd(s, i) == i + 1)
  {
    hide QuoteEnd, LineEnd, BlockEnd, DollarEnd;
  }

  lemma StableMore(p: string, ps: seq<string>)
    requires Stable(Keep(ps)) && (TrimSpace(p) != "" ==> Statements(TrimSpace(p)) == [TrimSpace(p)])
    ensures Stable(Keep([p] + ps))
  {
    KeepOne(p, ps);
    hide TrimSpace, Keep;
  }

  lemma Extend(s: string, start: nat, i: nat, n: nat)
    requires start <= i <= n <= |s|
    ensures s[start..i] + s[i..n] == s[start..n]
  {
  }

  lemma LastStable(s: string, start: nat)
    requires start <= |s| && Solid(s, start, |s|)
    ensures Stable(Keep([s[start..|s|]]))
  {
    PieceStable(s, start, |s|);
    hide LexEnd, Statements, TrimSpace, Solid, Keep, Stable;
    StableNone();
    StableMore(s[start..|s|], []);
    assert [s[start..|s|]] + [] == [s[start..|s|]];
  }

  lemma {:induction false} PiecesStable(s: string, start: nat, i: nat)
    requires start <= i <= |s| && NoComment(s, i) && Solid(s, start, i)
    ensures Stable(Keep(Pieces(s, i, s[start..i])))
    decreases |s| - i
  {
    hide LexEnd, Statements, TrimSpace, Solid, Keep, Stable, Pieces, NoComment, StartsComment;
    var cur := s[start..i];
    if i == |s| {
      PiecesEnd(s, cur);
      LastStable(s, start);
    } else {
      PiecesStep(s, i, cur);
      NoCommentStep(s, i);
      if s[i] == ';' {
        PieceStable(s, start, i);
        SolidNone(s, i + 1);
        PiecesStable(s, i + 1, i + 1);
        StableMore(cur, Pieces(s, i + 1, ""));
      } else {
        var n := LexEnd(s, i);
        SolidOne(s, i);
        SolidExtends(s, start, i, n);
        Extend(s, start, i, n);
        PiecesStable(s, start, n);
      }
    }
  }

  lemma StableNone()
    ensures Stable(Keep([]))
  {
  }

  /** On comment-free input every statement splits to itself, and the pieces
      before trimming are the input cut at its separators. */
  lemma SplitStable(s: string)
    requires NoComment(s, 0)
    ensures forall q :: q in Statements(s) ==> Statements(q) == [q]
    ensures Join(Pieces(s, 0, ""), ";") == s
  {
    assert s[0..0] == "";
    PiecesStable(s, 0, 0);
    PiecesJoin(s, 0, "");
    assert "" + s[0..] == s;
  }
}
