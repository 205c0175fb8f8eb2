/** Splitting cuts exactly at the separators, for every input. */
module Separators {
  import opened Text
  import opened Splitter
  import opened Splitting

  // ---- Cutting behind the lexemes before j ----

  lemma {:induction false} LineCut(s: string, j: nat, i: nat)
    requires i <= j < |s| && LineEnd(s, i) <= j
    ensures LineEnd(s[..j], i) == LineEnd(s, i)
    decreases j - i
  {
    if i < j {
      assert s[..j][i] == s[i];
      if s[i] != '\n' { LineCut(s, j, i + 1); }
    }
  }

  lemma {:induction false} BlockCut(s: string, j: nat, i: nat)
    requires i <= j < |s| && BlockEnd(s, i) <= j
    ensures BlockEnd(s[..j], i) == BlockEnd(s, i)
    decreases j - i
  {
    if i < j {
      assert s[..j][i] == s[i] && (i + 1 < j ==> s[..j][i + 1] == s[i + 1]);
      if !(s[i] == '*' && s[i + 1] == '/') { BlockCut(s, j, i + 1); }
    }
  }

  lemma PrefixIs(s: string, j: nat)
    requires j <= |s|
    ensures s[0..j] == s[..j]
  {
  }

  /** A lexeme that ends by j is the same in the text cut off at j. */
  lemma LexCut(s: string, j: nat, i: nat)
    requires i < j < |s| && s[j] == ';' && LexEnd(s, i) <= j
    ensures LexEnd(s[..j], i) == LexEnd(s, i) && StartsComment(s[..j], i) == StartsComment(s, i)
  {
    hide QuoteEnd, LineEnd, BlockEnd, DollarEnd;
    var a := s[..j];
    assert a[i] == s[i] && (i + 1 < j ==> a[i + 1] == s[i + 1]);
    PrefixIs(s, j);
    if s[i] == '\'' {
      QuoteCut(s, 0, j, i + 1);
    } else if StartsLine(s, i) {
      LineCut(s, j, i + 2);
    } else if StartsBlock(s, i) {
      BlockCut(s, j, i + 2);
    } else if s[i] == '$' {
      DollarCut(s, 0, j, i);
    }
  }

  lemma {:induction false} LexemeBounds(s: string, i: nat, j: nat)
    requires i <= |s| && LexemeAt(s, i, j)
    ensures i <= j <= |s| && (i < j ==> i < |s| && LexEnd(s, i) <= j && LexemeAt(s, LexEnd(s, i), j))
    decreases |s| - i
  {
    hide LexEnd;
    if i < j { LexemeBounds(s, LexEnd(s, i), j); }
  }

  /** Up to a separator at j the scan does what it does on the text before j. */
  lemma {:induction false} PiecesCut(s: string, j: nat, i: nat, cur: string)
    requires i <= j < |s| && s[j] == ';' && LexemeAt(s, i, j)
    ensures Pieces(s, i, cur) == Pieces(s[..j], i, cur) + Pieces(s, j + 1, "")
    decreases j - i
  {
    hide LexEnd, StartsComment, Pieces, LexemeAt;
    var a := s[..j];
    PiecesStep(s, i, cur);
    if i == j {
      PiecesEnd(a, cur);
    } else {
      LexemeBounds(s, i, j);
      SeparatorLexeme(s, i);
      LexCut(s, j, i);
      PiecesStep(a, i, cur);
      var n := LexEnd(s, i);
      assert a[i] == s[i] && a[i..n] == s[i..n];
      if s[i] == ';' {
        PiecesCut(s, j, i + 1, "");
        Associate(cur, Pieces(a, i + 1, ""), Pieces(s, j + 1, ""));
      } else {
        PiecesCut(s, j, n, if StartsComment(s, i) then cur else cur + s[i..n]);
      }
    }
  }

  lemma SeparatorLexeme(s: string, i: nat)
    requires i < |s|
    ensures s[i] == ';' ==> LexEnd(s, i) == i + 1
  {
  }

  /** Every separator cuts: what stands before it and what stands after it are
      split on their own. */
  lemma SplitsAtSeparator(s: string, j: nat)
    requires Separates(s, j)
    ensures Statements(s) == Statements(s[..j]) + Statements(s[j + 1..])
  {
    hide Pieces, Keep, LexemeAt;
    var b := s[j + 1..];
    PiecesCut(s, j, 0, "");
    assert s == s[..j + 1] + b;
    PiecesShift(s[..j + 1], b, 0, "");
    KeepAppend(Pieces(s[..j], 0, ""), Pieces(b, 0, ""));
  }

  /** How many separators a scan from i meets. */
  function Count(s: string, i: nat): nat
    requires i <= |s|
    decreases |s| - i
  {
    if i == |s| then 0 else (if s[i] == ';' then 1 else 0) + Count(s, LexEnd(s, i))
  }

  /** Nothing else cuts: there is one piece more than separators. */
  lemma {:induction false} PiecesCount(s: string, i: nat, cur: string)
    requires i <= |s|
    ensures |Pieces(s, i, cur)| == 1 + Count(s, i)
    decreases |s| - i
  {
    hide LexEnd, StartsComment, Pieces;
    if i == |s| {
      PiecesEnd(s, cur);
    } else {
      PiecesStep(s, i, cur);
      SeparatorLexeme(s, i);
      var n := LexEnd(s, i);
      PiecesCount(s, n, if s[i] == ';' then "" else if StartsComment(s, i) then cur else cur + s[i..n]);
    }
  }

  /** The counted ones are the `;` that are lexemes of their own. */
  lemma {:induction false} CountedSeparates(s: string, i: nat)
    requires i <= |s|
    ensures Count(s, i) == 0 <==> forall j :: i <= j < |s| && s[j] == ';' ==> !LexemeAt(s, i, j)
    decreases |s| - i
  {
    hide LexEnd;
    if i < |s| {
      var n := LexEnd(s, i);
      CountedSeparates(s, n);
      forall j | n <= j < |s| ensures LexemeAt(s, i, j) == LexemeAt(s, n, j) {
      }
      forall j | i < j < n ensures !LexemeAt(s, i, j) {
        if LexemeAt(s, n, j) { LexemeBounds(s, n, j); }
      }
      assert LexemeAt(s, i, i);
    }
  }

  /** A text without a separator is one statement, or none when it is blank. */
  lemma NoSeparatorOnePiece(s: string)
    requires forall j: nat :: !Separates(s, j)
    ensures |Pieces(s, 0, "")| == 1 && |Statements(s)| <= 1
  {
    CountedSeparates(s, 0);
    PiecesCount(s, 0, "");
    hide Pieces, LexemeAt, TrimSpace;
    forall j: nat | 0 <= j < |s| && s[j] == ';' ensures !LexemeAt(s, 0, j) { assert !Separates(s, j); }
    var ps := Pieces(s, 0, "");
    assert ps == [ps[0]] + [];
    KeepOne(ps[0], []);
  }
}
