/** What makes two spellings one name: white space, double quotes and case. */
module Identifiers {
  import opened Text
  import opened Ast
  import opened Catalog
  import opened Patterns

  const CAPITALS := "ABCDEFGHIJKLMNOPQRSTUVWXYZ"

  const SMALLS := "abcdefghijklmnopqrstuvwxyz"

  lemma LettersAre(i: nat)
    requires i < 26
    ensures |CAPITALS| == |SMALLS| == 26 && CAPITALS[i] as int == 65 + i && SMALLS[i] as int == 97 + i
  {
    if i < 9 { FirstLetters(i); } else if i < 18 { MiddleLetters(i); } else { LastLetters(i); }
    Lengths();
  }

  lemma Lengths()
    ensures |CAPITALS| == |SMALLS| == 26
  {
  }

  lemma FirstLetters(i: nat)
    requires i < 9
    ensures |CAPITALS| == |SMALLS| == 26 && CAPITALS[i] as int == 65 + i && SMALLS[i] as int == 97 + i
  {
  }

  lemma MiddleLetters(i: nat)
    requires 9 <= i < 18
    ensures |CAPITALS| == |SMALLS| == 26 && CAPITALS[i] as int == 65 + i && SMALLS[i] as int == 97 + i
  {
  }

  lemma LastLetters(i: nat)
    requires 18 <= i < 26
    ensures |CAPITALS| == |SMALLS| == 26 && CAPITALS[i] as int == 65 + i && SMALLS[i] as int == 97 + i
  {
  }

  /** Case folding takes each letter of one alphabet to that of the other. */
  lemma LettersFold(i: nat)
    requires i < 26
    ensures |CAPITALS| == |SMALLS| == 26
    ensures LowerChar(CAPITALS[i]) == SMALLS[i] == LowerChar(SMALLS[i])
    ensures UpperChar(SMALLS[i]) == CAPITALS[i] == UpperChar(CAPITALS[i])
  {
    hide CAPITALS, SMALLS;
    LettersAre(i);
  }

  /** No other character is changed. */
  lemma OthersStay(c: char)
    ensures LowerChar(c) != c ==> c in CAPITALS
    ensures UpperChar(c) != c ==> c in SMALLS
  {
    hide CAPITALS, SMALLS;
    Lengths();
    if 'A' <= c <= 'Z' { LettersAre(c as int - 65); }
    if 'a' <= c <= 'z' { LettersAre(c as int - 97); }
  }

  /** White space: the codes 9 to 13, and the blank. */
  lemma SpaceCodes(c: char)
    ensures IsSpace(c) <==> 9 <= c as int <= 13 || c as int == 32
  {
  }

  /** The patterns take all of it but the vertical tab. */
  lemma BlankCodes(c: char)
    ensures IsBlank(c) <==> c as int in {9, 10, 12, 13, 32}
  {
  }

  predicate Quotes(s: string) { forall i :: 0 <= i < |s| ==> s[i] == '"' }

  /** No quote at either end, and white space there only inside quotes. */
  predicate Core(left: string, x: string, right: string) {
    && x != "" && x[0] != '"' && x[|x| - 1] != '"'
    && (left == "" ==> !IsSpace(x[0])) && (right == "" ==> !IsSpace(x[|x| - 1]))
  }

  lemma {:induction false} LeftOff(q: string, x: string)
    requires Quotes(q) && x != "" && x[0] != '"'
    ensures TrimQuotesLeft(q + x) == x
    decreases |q|
  {
    if q == "" {
      assert q + x == x;
    } else {
      assert (q + x)[1..] == q[1..] + x;
      LeftOff(q[1..], x);
    }
  }

  lemma {:induction false} RightOff(x: string, q: string)
    requires Quotes(q) && x != "" && x[|x| - 1] != '"'
    ensures TrimQuotesRight(x + q) == x
    decreases |q|
  {
    if q == "" {
      assert x + q == x;
    } else {
      var s := x + q;
      assert s[|s| - 1] == q[|q| - 1] && s[..|s| - 1] == x + q[..|q| - 1];
      RightOff(x, q[..|q| - 1]);
    }
  }

  /** A name is found under its lower-cased text, whatever white space and quotes
      stand around it. */
  lemma OneName(a: string, left: string, x: string, right: string, b: string)
    requires AllSpace(a) && AllSpace(b) && Quotes(left) && Quotes(right) && Core(left, x, right)
    ensures NormIdent(a + (left + (x + right)) + b) == Lower(x)
  {
    hide TrimSpace, TrimQuotesLeft, TrimQuotesRight;
    var s := left + (x + right);
    Ends(left, x, right);
    TrimSpaceUnpads(a, s, b);
    assert (x + right)[0] == x[0];
    LeftOff(left, x + right);
    RightOff(x, right);
  }

  lemma Ends(left: string, x: string, right: string)
    requires Quotes(left) && Quotes(right) && Core(left, x, right)
    ensures Trimmed(left + (x + right))
  {
    var s := left + (x + right);
    assert s[0] == if left == "" then x[0] else left[0];
    assert s[|s| - 1] == if right == "" then x[|x| - 1] else right[|right| - 1];
  }

  /** Two such names meet exactly when they differ in case at most. */
  lemma NamesMeet(left: string, x: string, right: string, l: string, y: string, r: string)
    requires Quotes(left) && Quotes(right) && Core(left, x, right) && Quotes(l) && Quotes(r) && Core(l, y, r)
    ensures NormIdent(left + (x + right)) == NormIdent(l + (y + r))
            <==> |x| == |y| && forall i :: 0 <= i < |x| ==> LowerChar(x[i]) == LowerChar(y[i])
  {
    hide NormIdent, Core, Quotes;
    var s, t := left + (x + right), l + (y + r);
    assert "" + s + "" == s && "" + t + "" == t && AllSpace("");
    OneName("", left, x, right, "");
    OneName("", l, y, r, "");
    SameLower(x, y);
  }

  lemma SameLower(x: string, y: string)
    ensures Lower(x) == Lower(y) <==> |x| == |y| && forall i :: 0 <= i < |x| ==> LowerChar(x[i]) == LowerChar(y[i])
  {
    if Lower(x) == Lower(y) {
      assert |x| == |Lower(x)| == |Lower(y)| == |y|;
      forall i | 0 <= i < |x| ensures LowerChar(x[i]) == LowerChar(y[i]) {
        assert Lower(x)[i] == Lower(y)[i];
      }
    }
  }
}
