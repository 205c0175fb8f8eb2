/** SET GENERATED: what becomes of an identity clause, and of a generated column
    that has none. */
module IdentityKinds {
  import opened Text
  import opened Patterns
  import opened Catalog
  import ColumnPrint

  const ALWAYS := "ALWAYS"

  const BY_DEFAULT := "BY DEFAULT"

  /** Does an identity clause start at or after i? */
  predicate HasIdentity(s: string, i: nat)
    requires i <= |s|
    decreases |s| - i
  {
    IdentityKind(s, i).1 > i || (i < |s| && HasIdentity(s, i + 1))
  }

  // ---- Without an identity clause ----

  lemma {:induction false} NothingReplaced(s: string, i: nat, kind: string)
    requires i <= |s| && !HasIdentity(s, i)
    ensures ReplaceIdentityKind(s, i, kind) == s[i..]
    decreases |s| - i
  {
    hide IdentityKind;
    if i < |s| {
      NothingReplaced(s, i + 1, kind);
      assert s[i..] == [s[i]] + s[i + 1..];
    }
  }

  lemma NoneAtEnd(s: string)
    ensures !HasIdentity(s, |s|)
  {
  }

  /** A longer kind gives a longer text, as soon as there is a clause to put it in. */
  lemma {:induction false} KindsDiffer(s: string, i: nat, a: string, b: string)
    requires i <= |s| && |a| < |b|
    ensures |ReplaceIdentityKind(s, i, a)| <= |ReplaceIdentityKind(s, i, b)|
    ensures HasIdentity(s, i) ==> |ReplaceIdentityKind(s, i, a)| < |ReplaceIdentityKind(s, i, b)|
    decreases |s| - i
  {
    hide IdentityKind, LineBreak;
    if i < |s| {
      var (j, k, e) := IdentityKind(s, i);
      if k > i {
        KindsDiffer(s, LineBreak(s, e), a, b);
      } else {
        KindsDiffer(s, i + 1, a, b);
      }
    } else {
      NoneAtEnd(s);
    }
  }

  /** SET GENERATED on a column with a GENERATED constraint is accepted, and
      changes nothing, whichever kind is set, exactly when the first such
      constraint holds no identity clause. */
  lemma StoredUnchanged(cs: seq<string>)
    requires FindIdentity(cs, 0) >= 0
    ensures var stored := !HasIdentity(cs[FindIdentity(cs, 0)], 0);
            && ((forall kind :: SetIdentity(cs, kind) == Some(cs)) <==> stored)
            && (SetIdentity(cs, ALWAYS) == Some(cs) == SetIdentity(cs, BY_DEFAULT) <==> stored)
  {
    hide ReplaceIdentityKind, HasIdentity, Upper, TrimSpace, HasPrefix;
    var p := FindIdentity(cs, 0);
    var c := cs[p];
    assert c[0..] == c;
    if !HasIdentity(c, 0) {
      forall kind ensures SetIdentity(cs, kind) == Some(cs) {
        NothingReplaced(c, 0, kind);
        assert cs[p := c] == cs;
      }
    } else {
      KindsDiffer(c, 0, ALWAYS, BY_DEFAULT);
      var x, y := ReplaceIdentityKind(c, 0, ALWAYS), ReplaceIdentityKind(c, 0, BY_DEFAULT);
      assert cs[p := x][p] == x && cs[p := y][p] == y;
      assert SetIdentity(cs, ALWAYS) == Some(cs[p := x]) && SetIdentity(cs, BY_DEFAULT) == Some(cs[p := y]);
      assert x != y;
    }
  }

  // ---- Stored generated columns ----

  lemma {:induction false} NoGenerated(s: string, i: nat)
    requires i <= |s| && forall j :: i <= j < |s| ==> LowerChar(s[j]) != 'g'
    ensures !HasIdentity(s, i)
    decreases |s| - i
  {
    MatchHas(s, i, "GENERATED", 0);
    hide MatchesAt;
    if i < |s| { NoGenerated(s, i + 1); }
  }

  lemma StoredText(s: string)
    requires s == "GENERATED ALWAYS AS (a + b) STORED"
    ensures |s| == 34 && s[9] == ' ' && s[10] == 'A' && s[16] == ' ' && s[17] == 'A' && s[19] == ' ' && s[20] == '('
    ensures forall j :: 1 <= j < |s| ==> LowerChar(s[j]) != 'g'
  {
  }

  lemma NotByDefault(s: string, j: nat)
    requires j < |s| && LowerChar(s[j]) == 'a'
    ensures TwoWords(s, j, "BY", "DEFAULT") == j
  {
    MatchHas(s, j, "BY", 0);
    hide MatchesAt;
  }

  lemma StoredKind(s: string)
    requires |s| == 34 && s[9] == ' ' && s[10] == 'A' && s[16] == ' ' && s[17] == 'A' && s[19] == ' ' && s[20] == '('
    ensures IdentityKind(s, 0) == (0, 0, 0)
  {
    hide MatchesAt;
    ColumnPrint.OneBlank(s, 9);
    ColumnPrint.OneBlank(s, 16);
    ColumnPrint.OneBlank(s, 19);
    NotByDefault(s, 10);
    MatchHas(s, 20, "IDENTITY", 0);
    hide SkipSpaces;
  }

  /** A stored generated column: SET GENERATED answers with the list unchanged. */
  lemma StoredExample(kind: string)
    ensures var cs := ["GENERATED ALWAYS AS (a + b) STORED"];
            !HasIdentity(cs[0], 0) && SetIdentity(cs, kind) == Some(cs)
  {
    var s := "GENERATED ALWAYS AS (a + b) STORED";
    var cs := [s];
    StoredText(s);
    StoredKind(s);
    NoGenerated(s, 1);
    assert FindIdentity(cs, 0) == 0 by { StoredFirst(s); }
    hide IdentityKind, FindIdentity, SetIdentity;
    StoredUnchanged(cs);
  }

  lemma StoredFirst(s: string)
    requires s == "GENERATED ALWAYS AS (a + b) STORED"
    ensures HasPrefix(Upper(TrimSpace(s)), "GENERATED")
  {
    StoredText(s);
    assert s[..9] == "GENERATED" && !IsSpace(s[0]) && !IsSpace(s[|s| - 1]);
    TrimSpaceKeepsTrimmed(s);
    UpperWord(s);
  }

  lemma UpperWord(s: string)
    requires |s| >= 9 && s[..9] == "GENERATED"
    ensures HasPrefix(Upper(s), "GENERATED")
  {
    assert Upper(s)[..9] == s[..9] by {
      forall i | 0 <= i < 9 ensures Upper(s)[i] == s[..9][i] { assert s[i] == s[..9][i]; }
    }
  }

  // ---- Setting a kind ----

  /** What SET GENERATED takes for a kind: ALWAYS, or BY and DEFAULT with white
      space between. */
  predicate Kind(k: string) { k != "" && KindEnd(k, 0) == |k| }

  lemma BothKinds()
    ensures Kind(ALWAYS) && Kind(BY_DEFAULT)
  {
    assert MatchesAt(ALWAYS, 0, "ALWAYS");
    var b := BY_DEFAULT;
    MatchHas(b, 0, "ALWAYS", 0);
    assert b[0..2] == "BY" && b[3..10] == "DEFAULT";
    ColumnPrint.OneBlank(b, 2);
  }

  /** Before n nothing is an identity clause. */
  predicate Unidentified(s: string, n: nat)
    requires n <= |s|
  {
    forall i :: 0 <= i < n ==> IdentityKind(s, i).1 <= i
  }

  lemma CopyStep(s: string, i: nat, kind: string)
    requires i < |s| && IdentityKind(s, i).1 <= i
    ensures ReplaceIdentityKind(s, i, kind) == [s[i]] + ReplaceIdentityKind(s, i + 1, kind)
  {
    hide IdentityKind;
  }

  lemma ClauseStep(s: string, i: nat, kind: string)
    requires i <= |s| && IdentityKind(s, i).1 > i
    ensures var (j, k, e) := IdentityKind(s, i);
            var n := LineBreak(s, e);
            ReplaceIdentityKind(s, i, kind) == s[i..j] + kind + s[k..n] + ReplaceIdentityKind(s, n, kind)
  {
    hide IdentityKind, LineBreak;
  }

  lemma SliceHead(s: string, i: nat, n: nat, rest: string)
    requires i < n <= |s|
    ensures [s[i]] + (s[i + 1..n] + rest) == s[i..n] + rest
  {
    assert s[i..n] == [s[i]] + s[i + 1..n];
  }

  lemma {:induction false} CopiedUpTo(s: string, i: nat, n: nat, kind: string)
    requires i <= n <= |s| && Unidentified(s, n)
    ensures ReplaceIdentityKind(s, i, kind) == s[i..n] + ReplaceIdentityKind(s, n, kind)
    decreases n - i
  {
    hide IdentityKind, ReplaceIdentityKind;
    if i < n {
      CopiedUpTo(s, i + 1, n, kind);
      CopyStep(s, i, kind);
      SliceHead(s, i, n, ReplaceIdentityKind(s, n, kind));
    } else {
      assert s[i..n] + ReplaceIdentityKind(s, n, kind) == ReplaceIdentityKind(s, n, kind);
    }
  }

  lemma JoinSlices(s: string, n: nat, j: nat, kind: string, b: string, rest: string)
    requires n <= j <= |s|
    ensures s[0..n] + (s[n..j] + kind + b + rest) == s[..j] + kind + b + rest
  {
    assert s[0..n] + s[n..j] == s[..j];
  }

  /** The first identity clause of any text gets the new kind; all else up to
      the end of its line stays. */
  lemma ClauseReplaced(s: string, n: nat, kind: string)
    requires n <= |s| && Unidentified(s, n) && IdentityKind(s, n).1 > n
    ensures var (j, k, e) := IdentityKind(s, n);
            var m := LineBreak(s, e);
            ReplaceIdentityKind(s, 0, kind) == s[..j] + kind + s[k..m] + ReplaceIdentityKind(s, m, kind)
  {
    hide IdentityKind, Unidentified, ReplaceIdentityKind, LineBreak;
    var (j, k, e) := IdentityKind(s, n);
    var m := LineBreak(s, e);
    CopiedUpTo(s, 0, n, kind);
    ClauseStep(s, n, kind);
    JoinSlices(s, n, j, kind, s[k..m], ReplaceIdentityKind(s, m, kind));
  }

  // ---- The same characters are read the same way ----

  /** The n characters at x in s are those at y in t. */
  predicate Same(s: string, x: nat, t: string, y: nat, n: nat) {
    x + n <= |s| && y + n <= |t| && s[x..x + n] == t[y..y + n]
  }

  lemma SamePart(s: string, x: nat, t: string, y: nat, n: nat, d: nat, m: nat)
    requires Same(s, x, t, y, n) && d + m <= n
    ensures Same(s, x + d, t, y + d, m) && x + n <= |s| && y + n <= |t|
    ensures m > 0 ==> s[x + d] == t[y + d]
  {
    SliceOfSlice(s, x, x + n, x + d, x + d + m);
    SliceOfSlice(t, y, y + n, y + d, y + d + m);
    if m > 0 { assert s[x + d] == s[x..x + n][d] == t[y..y + n][d]; }
  }

  lemma MatchSame(s: string, x: nat, t: string, y: nat, n: nat, w: string)
    requires Same(s, x, t, y, n) && |w| <= n
    ensures MatchesAt(s, x, w) == MatchesAt(t, y, w)
  {
    SamePart(s, x, t, y, n, 0, |w|);
  }

  lemma {:induction false} SkipSame(s: string, x: nat, t: string, y: nat, n: nat)
    requires Same(s, x, t, y, n) && SkipSpaces(s, x) < x + n
    ensures SkipSpaces(t, y) - y == SkipSpaces(s, x) - x
    decreases n
  {
    SamePart(s, x, t, y, n, 0, n);
    if IsBlank(s[x]) {
      SamePart(s, x, t, y, n, 1, n - 1);
      SkipSame(s, x + 1, t, y + 1, n - 1);
    }
  }

  lemma TwoWordsSame(s: string, x: nat, t: string, y: nat, n: nat, a: string, b: string)
    requires Same(s, x, t, y, n) && b != "" && x < TwoWords(s, x, a, b) <= x + n
    ensures TwoWords(t, y, a, b) - y == TwoWords(s, x, a, b) - x
  {
    hide SkipSpaces, MatchesAt, Same;
    var d := |a|;
    MatchSame(s, x, t, y, n, a);
    SamePart(s, x, t, y, n, d, n - d);
    var j := SkipSpaces(s, x + d);
    SkipSame(s, x + d, t, y + d, n - d);
    SamePart(s, x, t, y, n, j - x, n - (j - x));
    MatchSame(s, j, t, y + (j - x), n - (j - x), b);
  }

  lemma KindSame(s: string, x: nat, t: string, y: nat, n: nat)
    requires Same(s, x, t, y, n) && x < KindEnd(s, x) <= x + n
    ensures KindEnd(t, y) - y == KindEnd(s, x) - x
  {
    hide SkipSpaces, MatchesAt, Same;
    if MatchesAt(s, x, "ALWAYS") {
      MatchSame(s, x, t, y, n, "ALWAYS");
    } else {
      TwoWordsSame(s, x, t, y, n, "BY", "DEFAULT");
      KindStart(s, x);
      SamePart(s, x, t, y, n, 0, n);
      MatchHas(t, y, "ALWAYS", 0);
    }
  }

  /** What a kind starts with. */
  lemma KindStart(s: string, x: nat)
    requires x <= |s| && x < KindEnd(s, x)
    ensures !IsBlank(s[x])
    ensures LowerChar(s[x]) == if MatchesAt(s, x, "ALWAYS") then 'a' else 'b'
  {
    MatchHas(s, x, "ALWAYS", 0);
    MatchHas(s, x, "BY", 0);
    hide MatchesAt, SkipSpaces;
  }

  /** The steps of an identity clause at i: kind from j to k, AS at l, end at e. */
  predicate Steps(s: string, i: nat, j: nat, k: nat, l: nat, e: nat) {
    && MatchesAt(s, i, "GENERATED") && SkipSpaces(s, i + 9) == j && i + 9 < j
    && KindEnd(s, j) == k && j < k
    && SkipSpaces(s, k) == l && k < l
    && TwoWords(s, l, "AS", "IDENTITY") == e && l < e
  }

  lemma StepsIf(s: string, i: nat, j: nat, k: nat, l: nat, e: nat)
    requires i <= |s| && Steps(s, i, j, k, l, e)
    ensures IdentityKind(s, i) == (j, k, e)
  {
    hide SkipSpaces, MatchesAt, KindEnd, TwoWords;
  }

  lemma StepsOf(s: string, i: nat) returns (l: nat)
    requires i <= |s| && IdentityKind(s, i).1 > i
    ensures var (j, k, e) := IdentityKind(s, i);
            k <= l <= |s| && Steps(s, i, j, k, l, e)
  {
    hide SkipSpaces, MatchesAt, KindEnd, TwoWords;
    l := SkipSpaces(s, IdentityKind(s, i).1);
  }

  lemma ClauseSame(s: string, x: nat, t: string, y: nat, n: nat)
    requires Same(s, x, t, y, n)
    ensures var (j, k, e) := IdentityKind(s, x);
            k > x && e <= x + n ==> IdentityKind(t, y) == (j - x + y, k - x + y, e - x + y)
  {
    hide SkipSpaces, MatchesAt, KindEnd, TwoWords, IdentityKind;
    var (j, k, e) := IdentityKind(s, x);
    if k > x && e <= x + n {
      var l := StepsOf(s, x);
      var p, q, r := j - x, k - x, l - x;
      StepsSame(s, x, t, y, n, p, q, r, e - x);
      StepsIf(t, y, y + p, y + q, y + r, y + (e - x));
    }
  }

  lemma StepsSame(s: string, x: nat, t: string, y: nat, n: nat, j: nat, k: nat, l: nat, e: nat)
    requires Same(s, x, t, y, n) && x + e <= |s| && Steps(s, x, x + j, x + k, x + l, x + e) && e <= n
    ensures Steps(t, y, y + j, y + k, y + l, y + e)
  {
    hide SkipSpaces, MatchesAt, KindEnd, TwoWords, Same;
    SamePart(s, x, t, y, n, k, n - k);
    WordSame(s, x, t, y, n, j);
    SamePart(s, x, t, y, n, j, n - j);
    KindSame(s, x + j, t, y + j, n - j);
    EndSame(s, x + k, t, y + k, n - k, l - k, e - k);
  }

  lemma WordSame(s: string, x: nat, t: string, y: nat, n: nat, j: nat)
    requires Same(s, x, t, y, n) && MatchesAt(s, x, "GENERATED") && SkipSpaces(s, x + 9) == x + j && 9 < j < n
    ensures MatchesAt(t, y, "GENERATED") && SkipSpaces(t, y + 9) == y + j
  {
    hide SkipSpaces, MatchesAt, Same;
    SamePart(s, x, t, y, n, 9, n - 9);
    MatchSame(s, x, t, y, n, "GENERATED");
    SkipSame(s, x + 9, t, y + 9, n - 9);
  }

  lemma EndSame(s: string, x: nat, t: string, y: nat, n: nat, l: nat, e: nat)
    requires Same(s, x, t, y, n) && SkipSpaces(s, x) == x + l && 0 < l < e <= n
    requires TwoWords(s, x + l, "AS", "IDENTITY") == x + e
    ensures SkipSpaces(t, y) == y + l && TwoWords(t, y + l, "AS", "IDENTITY") == y + e
  {
    hide SkipSpaces, TwoWords, Same;
    SkipSame(s, x, t, y, n);
    SamePart(s, x, t, y, n, l, n - l);
    TwoWordsSame(s, x + l, t, y + l, n - l, "AS", "IDENTITY");
  }

  // ---- What comes before does not matter ----

  lemma SameTail(a: string, z: string, i: nat)
    requires i <= |z|
    ensures Same(a + z, |a| + i, z, i, |z| - i) && Same(z, i, a + z, |a| + i, |z| - i)
  {
    assert (a + z)[|a| + i..|a| + |z|] == z[i..|z|];
  }

  lemma ClauseShift(a: string, z: string, i: nat)
    requires i <= |z|
    ensures var (j, k, e) := IdentityKind(z, i);
            IdentityKind(a + z, |a| + i) == (|a| + j, |a| + k, |a| + e)
  {
    hide Same, IdentityKind;
    SameTail(a, z, i);
    ClauseSame(z, i, a + z, |a| + i, |z| - i);
    ClauseSame(a + z, |a| + i, z, i, |z| - i);
    NoClause(z, i);
    NoClause(a + z, |a| + i);
  }

  lemma NoClause(s: string, i: nat)
    requires i <= |s|
    ensures IdentityKind(s, i).1 == i ==> IdentityKind(s, i) == (i, i, i)
  {
  }

  lemma {:induction false} BreakShift(a: string, z: string, i: nat)
    requires i <= |z|
    ensures LineBreak(a + z, |a| + i) == |a| + LineBreak(z, i)
    decreases |z| - i
  {
    if i < |z| {
      assert (a + z)[|a| + i] == z[i];
      if z[i] != '\n' { BreakShift(a, z, i + 1); }
    }
  }

  /** One clause, given what follows its line. */
  lemma ShiftClause(a: string, z: string, i: nat, kind: string)
    requires i <= |z| && IdentityKind(z, i).1 > i
    requires var n := LineBreak(z, IdentityKind(z, i).2);
             ReplaceIdentityKind(a + z, |a| + n, kind) == ReplaceIdentityKind(z, n, kind)
    ensures ReplaceIdentityKind(a + z, |a| + i, kind) == ReplaceIdentityKind(z, i, kind)
  {
    hide IdentityKind, LineBreak, ReplaceIdentityKind;
    var (j, k, e) := IdentityKind(z, i);
    var n := LineBreak(z, e);
    ClauseShift(a, z, i);
    BreakShift(a, z, e);
    ColumnPrint.InTail(a, z, i, j);
    ColumnPrint.InTail(a, z, k, n);
    ClauseStep(z, i, kind);
    ClauseStep(a + z, |a| + i, kind);
  }

  lemma {:induction false} ReplaceShift(a: string, z: string, i: nat, kind: string)
    requires i <= |z|
    ensures ReplaceIdentityKind(a + z, |a| + i, kind) == ReplaceIdentityKind(z, i, kind)
    decreases |z| - i
  {
    hide IdentityKind, LineBreak, ReplaceIdentityKind;
    if i < |z| {
      if IdentityKind(z, i).1 > i {
        ReplaceShift(a, z, LineBreak(z, IdentityKind(z, i).2), kind);
        ShiftClause(a, z, i, kind);
      } else {
        ClauseShift(a, z, i);
        ReplaceShift(a, z, i + 1, kind);
        ColumnPrint.InTail(a, z, i, i + 1);
        CopyStep(z, i, kind);
        CopyStep(a + z, |a| + i, kind);
      }
    } else {
      AtEnd(z, kind);
      AtEnd(a + z, kind);
    }
  }

  lemma AtEnd(s: string, kind: string)
    ensures ReplaceIdentityKind(s, |s|, kind) == ""
  {
  }

  // ---- Replacing makes no new clause ----

  predicate NoStart(s: string, i: nat, n: nat) { n <= |s| && forall x :: i <= x < n ==> LowerChar(s[x]) != 'g' }

  lemma BlanksNoStart(s: string, i: nat)
    requires i <= |s|
    ensures NoStart(s, i, SkipSpaces(s, i))
    decreases |s| - i
  {
  }

  lemma MatchNoStart(s: string, i: nat, w: string, d: nat)
    requires MatchesAt(s, i, w) && NoStart(w, d, |w|)
    ensures NoStart(s, i + d, i + |w|)
  {
    forall x | i + d <= x < i + |w| ensures LowerChar(s[x]) != 'g' { MatchHas(s, i, w, x - i); }
  }

  lemma TwoWordsNoStart(s: string, i: nat, a: string, b: string)
    requires i <= |s| && NoStart(a, 0, |a|) && NoStart(b, 0, |b|)
    ensures NoStart(s, i, TwoWords(s, i, a, b))
  {
    hide MatchesAt, SkipSpaces;
    if MatchesAt(s, i, a) {
      MatchNoStart(s, i, a, 0);
      BlanksNoStart(s, i + |a|);
      var j := SkipSpaces(s, i + |a|);
      if MatchesAt(s, j, b) { MatchNoStart(s, j, b, 0); }
    }
  }

  lemma KindNoStart(s: string, i: nat)
    requires i <= |s|
    ensures NoStart(s, i, KindEnd(s, i))
  {
    hide MatchesAt, TwoWords;
    if MatchesAt(s, i, "ALWAYS") { MatchNoStart(s, i, "ALWAYS", 0); }
    TwoWordsNoStart(s, i, "BY", "DEFAULT");
  }

  /** Inside an identity clause no other one starts. */
  lemma ClauseNoStart(s: string, i: nat)
    requires i <= |s| && IdentityKind(s, i).1 > i
    ensures LowerChar(s[i]) == 'g' && NoStart(s, i + 1, IdentityKind(s, i).2)
  {
    hide MatchesAt, TwoWords, SkipSpaces, KindEnd, IdentityKind;
    var (j, k, e) := IdentityKind(s, i);
    var l := StepsOf(s, i);
    MatchHas(s, i, "GENERATED", 0);
    MatchNoStart(s, i, "GENERATED", 1);
    BlanksNoStart(s, i + 9);
    KindNoStart(s, j);
    BlanksNoStart(s, k);
    TwoWordsNoStart(s, l, "AS", "IDENTITY");
  }

  /** Up to its first clause a text stays as it is. */
  lemma {:induction false} KeptBefore(s: string, i: nat, kind: string, m: nat)
    requires i <= |s| && NoStart(ReplaceIdentityKind(s, i, kind), 0, m)
    ensures Same(ReplaceIdentityKind(s, i, kind), 0, s, i, m)
    decreases m
  {
    hide IdentityKind, ReplaceIdentityKind;
    var u := ReplaceIdentityKind(s, i, kind);
    if m > 0 {
      if i == |s| { AtEnd(s, kind); }
      ClauseHead(s, i, kind);
      assert LowerChar(u[0]) != 'g';
      CopyStep(s, i, kind);
      var v := ReplaceIdentityKind(s, i + 1, kind);
      assert u == [s[i]] + v;
      forall x | 0 <= x < m - 1 ensures LowerChar(v[x]) != 'g' { assert v[x] == u[x + 1]; }
      KeptBefore(s, i + 1, kind, m - 1);
      ConsSame(s, i, v, m);
    }
  }

  lemma ConsSame(s: string, i: nat, v: string, m: nat)
    requires i < |s| && m > 0 && Same(v, 0, s, i + 1, m - 1)
    ensures Same([s[i]] + v, 0, s, i, m)
  {
    var u := [s[i]] + v;
    assert s[i..i + m] == [s[i]] + s[i + 1..i + 1 + (m - 1)];
    assert u[0..m] == [s[i]] + v[0..m - 1];
  }

  /** A clause keeps its first letter. */
  lemma ClauseHead(s: string, i: nat, kind: string)
    requires i <= |s|
    ensures var u := ReplaceIdentityKind(s, i, kind);
            IdentityKind(s, i).1 > i ==> u != "" && LowerChar(u[0]) == 'g'
  {
    hide ReplaceIdentityKind, IdentityKind, LineBreak;
    var (j, k, e) := IdentityKind(s, i);
    if k > i {
      ClauseStep(s, i, kind);
      ClauseNoStart(s, i);
      var l := StepsOf(s, i);
      assert ReplaceIdentityKind(s, i, kind)[0] == s[i..j][0];
    }
  }

  /** Where there was no clause there is none afterwards. */
  lemma NoNewClause(s: string, i: nat, kind: string)
    requires i < |s| && IdentityKind(s, i).1 <= i
    ensures IdentityKind(ReplaceIdentityKind(s, i, kind), 0).1 == 0
  {
    hide IdentityKind, ReplaceIdentityKind;
    var u := ReplaceIdentityKind(s, i, kind);
    var (j, k, e) := IdentityKind(u, 0);
    if k > 0 {
      CopyStep(s, i, kind);
      var v := ReplaceIdentityKind(s, i + 1, kind);
      assert u == [s[i]] + v;
      ClauseNoStart(u, 0);
      forall x | 0 <= x < e - 1 ensures LowerChar(v[x]) != 'g' { assert v[x] == u[x + 1]; }
      KeptBefore(s, i + 1, kind, e - 1);
      ConsSame(s, i, v, e);
      ClauseSame(u, 0, s, i, e);
      assert false;
    }
  }

  // ---- The last kind wins ----

  lemma {:induction false} BlanksTo(s: string, i: nat, n: nat)
    requires i <= n < |s| && !IsBlank(s[n]) && forall x :: i <= x < n ==> IsBlank(s[x])
    ensures SkipSpaces(s, i) == n
    decreases n - i
  {
    if i < n { BlanksTo(s, i + 1, n); }
  }

  /** The text with the new kind holds the clause at the same place, now of that
      kind, and the line ends where it ended. */
  lemma KindSet(s: string, i: nat, kind: string, rest: string)
    requires i <= |s| && IdentityKind(s, i).1 > i && Kind(kind)
    ensures var (j, k, e) := IdentityKind(s, i);
            var a := s[i..j] + kind;
            |a| > 0 && IdentityKind(a + s[k..e] + rest, 0) == (j - i, |a|, |a| + (e - k))
  {
    hide IdentityKind, SkipSpaces, TwoWords, KindEnd, MatchesAt, LowerChar, Same;
    var (j, k, e) := IdentityKind(s, i);
    var l := StepsOf(s, i);
    var a, n := s[i..j] + kind, j - i;
    var u := a + s[k..e] + rest;
    ThreeParts(s, i, j, k, e, kind, rest);
    MatchSame(s, i, u, 0, n, "GENERATED");
    KindStart(kind, 0);
    assert u[n] == kind[0];
    BlanksAfter(s, i, u, n);
    KindSame(kind, 0, u, n, |kind|);
    EndSame(s, k, u, |a|, e - k, l - k, e - k);
    StepsIf(u, 0, n, |a|, |a| + (l - k), |a| + (e - k));
  }

  lemma ThreeParts(s: string, i: nat, j: nat, k: nat, e: nat, kind: string, rest: string)
    requires i <= j <= k <= e <= |s|
    ensures var a := s[i..j] + kind;
            var u := a + s[k..e] + rest;
            Same(s, i, u, 0, j - i) && Same(kind, 0, u, j - i, |kind|) && Same(s, k, u, |a|, e - k)
  {
    var a := s[i..j] + kind;
    var u := a + s[k..e] + rest;
    assert u[0..j - i] == s[i..j];
    assert u[j - i..|a|] == kind[0..|kind|];
    assert u[|a|..|a| + (e - k)] == s[k..e];
  }

  lemma BlanksAfter(s: string, i: nat, u: string, n: nat)
    requires Same(s, i, u, 0, n) && 9 < n && i + 9 < SkipSpaces(s, i + 9) == i + n && n < |u| && !IsBlank(u[n])
    ensures SkipSpaces(u, 9) == n
  {
    hide SkipSpaces, IsBlank;
    BlanksAre(s, i + 9);
    forall x | 9 <= x < n ensures IsBlank(u[x]) { assert u[x] == u[0..n][x] == s[i..i + n][x] == s[i + x]; }
    BlanksTo(u, 9, n);
  }

  lemma {:induction false} BreakIn(s: string, i: nat, n: nat, t: string, y: nat, m: nat)
    requires i <= n <= |s| && LineBreak(s, i) == n && Same(s, i, t, y, n - i)
    requires m == y + (n - i) && (m == |t| || t[m] == '\n')
    ensures LineBreak(t, y) == m
    decreases n - i
  {
    if i < n {
      SamePart(s, i, t, y, n - i, 0, n - i);
      SamePart(s, i, t, y, n - i, 1, n - i - 1);
      BreakIn(s, i + 1, n, t, y + 1, m);
    }
  }

  lemma BreakAt(s: string, i: nat)
    requires i <= |s|
    ensures var n := LineBreak(s, i); n == |s| || s[n] == '\n'
    decreases |s| - i
  {
  }

  /** At a line break no clause starts. */
  lemma BreakStays(s: string, n: nat, kind: string)
    requires n < |s| && s[n] == '\n'
    ensures var u := ReplaceIdentityKind(s, n, kind); u != "" && u[0] == '\n'
  {
    MatchHas(s, n, "GENERATED", 0);
    hide MatchesAt, LineBreak;
  }

  lemma SetTwiceAt(s: string, i: nat, first: string, second: string)
    requires i <= |s| && IdentityKind(s, i).1 > i && Kind(first)
    ensures var (j, k, e) := IdentityKind(s, i);
            var n := LineBreak(s, e);
            ReplaceIdentityKind(ReplaceIdentityKind(s, i, first), 0, second)
            == s[i..j] + second + s[k..n] + ReplaceIdentityKind(ReplaceIdentityKind(s, n, first), 0, second)
  {
    hide IdentityKind, ReplaceIdentityKind, LineBreak, Kind;
    var (j, k, e) := IdentityKind(s, i);
    var n := LineBreak(s, e);
    var v := ReplaceIdentityKind(s, n, first);
    var a, b := s[i..j] + first, s[k..n];
    var u := a + b + v;
    ClauseStep(s, i, first);
    assert s[k..n] == s[k..e] + s[e..n];
    assert u == a + s[k..e] + (s[e..n] + v);
    KindSet(s, i, first, s[e..n] + v);
    var p, q := |a| + (e - k), |a| + |b|;
    assert u[p..q] == s[e..n];
    BreakAt(s, e);
    if n < |s| { BreakStays(s, n, first); } else { AtEnd(s, first); }
    BreakIn(s, e, n, u, p, q);
    ClauseStep(u, 0, second);
    assert u[0..j - i] == s[i..j] && u[|a|..q] == b;
    ReplaceShift(a + b, v, 0, second);
  }

  /** Of two kinds set one after the other, only the second is left, whatever the text. */
  lemma {:induction false} LastKindWins(s: string, i: nat, first: string, second: string)
    requires i <= |s| && Kind(first)
    ensures ReplaceIdentityKind(ReplaceIdentityKind(s, i, first), 0, second) == ReplaceIdentityKind(s, i, second)
    decreases |s| - i
  {
    hide IdentityKind, ReplaceIdentityKind, LineBreak, Kind;
    if i == |s| {
      AtEnd(s, first);
      AtEnd(s, second);
      AtEnd("", second);
    } else if IdentityKind(s, i).1 > i {
      var (j, k, e) := IdentityKind(s, i);
      SetTwiceAt(s, i, first, second);
      ClauseStep(s, i, second);
      LastKindWins(s, LineBreak(s, e), first, second);
    } else {
      var v := ReplaceIdentityKind(s, i + 1, first);
      NoNewClause(s, i, first);
      CopyStep(s, i, first);
      CopyStep(s, i, second);
      var u := [s[i]] + v;
      assert ReplaceIdentityKind(s, i, first) == u && u[0] == s[i];
      CopyStep(u, 0, second);
      ReplaceShift([s[i]], v, 0, second);
      LastKindWins(s, i + 1, first, second);
    }
  }

  // ---- The constraint is found again ----

  predicate Generated(s: string) { HasPrefix(Upper(s), "GENERATED") }

  lemma GeneratedIs(s: string)
    ensures Generated(s) <==> |s| >= 9 && Upper(s[..9]) == "GENERATED"
  {
    if |s| >= 9 { assert Upper(s)[..9] == Upper(s[..9]); }
  }

  lemma {:induction false} TrimKeeps(s: string, i: nat)
    requires i < |s| && !IsSpace(s[i])
    ensures |TrimRight(s)| > i
  {
    if IsSpace(s[|s| - 1]) { TrimKeeps(s[..|s| - 1], i); }
  }

  /** Trimming does not reach into the word. */
  lemma GeneratedTrimmed(s: string)
    ensures Generated(TrimSpace(s)) <==> Generated(TrimLeft(s))
  {
    var l := TrimLeft(s);
    var r := TrimRight(l);
    TrimRightCuts(l);
    PrefixHas(Upper(l), "GENERATED", 8);
    GeneratedIs(l);
    GeneratedIs(r);
    hide TrimLeft, TrimRight, Generated;
    if |l| >= 9 && Upper(l[..9]) == "GENERATED" {
      assert UpperChar(l[8]) == 'D' by { assert Upper(l[..9])[8] == UpperChar(l[8]); }
      TrimKeeps(l, 8);
      assert r[..9] == l[..9];
    } else if |r| >= 9 {
      assert r[..9] == l[..9];
    }
  }

  lemma {:induction false} CopiedWord(s: string, i: nat, n: nat, kind: string)
    requires i <= n && NoStart(s, i, n)
    ensures ReplaceIdentityKind(s, i, kind) == s[i..n] + ReplaceIdentityKind(s, n, kind)
    decreases n - i
  {
    hide IdentityKind, ReplaceIdentityKind;
    if i < n {
      NoClauseAt(s, i);
      CopyStep(s, i, kind);
      CopiedWord(s, i + 1, n, kind);
      SliceHead(s, i, n, ReplaceIdentityKind(s, n, kind));
    } else {
      assert s[i..n] + ReplaceIdentityKind(s, n, kind) == ReplaceIdentityKind(s, n, kind);
    }
  }

  lemma NoClauseAt(s: string, i: nat)
    requires i < |s| && LowerChar(s[i]) != 'g'
    ensures IdentityKind(s, i).1 <= i
  {
    MatchHas(s, i, "GENERATED", 0);
    hide MatchesAt;
  }

  lemma WordNoStart(s: string, i: nat)
    requires i <= |s| && Generated(s[i..])
    ensures i + 9 <= |s| && NoStart(s, i + 1, i + 9)
  {
    var t := s[i..];
    forall x | i + 1 <= x < i + 9 ensures LowerChar(s[x]) != 'g' {
      PrefixHas(Upper(t), "GENERATED", x - i);
      assert s[x] == t[x - i];
    }
  }

  lemma {:induction false} StillGenerated(s: string, i: nat, kind: string)
    requires i <= |s| && Generated(TrimLeft(s[i..]))
    ensures Generated(TrimLeft(ReplaceIdentityKind(s, i, kind)))
    decreases |s| - i
  {
    hide IdentityKind, ReplaceIdentityKind, Generated, LineBreak, Kind;
    var u := ReplaceIdentityKind(s, i, kind);
    if i < |s| && IsSpace(s[i]) {
      NoClauseAt(s, i);
      CopyStep(s, i, kind);
      assert s[i..][1..] == s[i + 1..] && u[1..] == ReplaceIdentityKind(s, i + 1, kind);
      StillGenerated(s, i + 1, kind);
    } else {
      assert TrimLeft(s[i..]) == s[i..];
      WordNoStart(s, i);
      HeadKept(s, i, kind);
      assert u[0] == s[i];
      GeneratedIs(s[i..]);
      GeneratedIs(u);
      assert s[i..][..9] == s[i..i + 9];
    }
  }

  lemma HeadKept(s: string, i: nat, kind: string)
    requires i + 9 <= |s| && NoStart(s, i + 1, i + 9)
    ensures var u := ReplaceIdentityKind(s, i, kind); |u| >= 9 && u[..9] == s[i..i + 9] && u[0] == s[i]
  {
    hide IdentityKind, ReplaceIdentityKind, LineBreak;
    var u := ReplaceIdentityKind(s, i, kind);
    if IdentityKind(s, i).1 > i {
      var (j, k, e) := IdentityKind(s, i);
      var l := StepsOf(s, i);
      ClauseStep(s, i, kind);
      assert s[i..j][..9] == s[i..i + 9];
    } else {
      CopyStep(s, i, kind);
      CopiedWord(s, i + 1, i + 9, kind);
      SliceHead(s, i, i + 9, ReplaceIdentityKind(s, i + 9, kind));
    }
  }

  lemma {:induction false} FoundAgain(cs: seq<string>, i: nat, p: nat, u: string)
    requires i <= p < |cs| && FindIdentity(cs, i) == p && Generated(TrimSpace(u))
    ensures FindIdentity(cs[p := u], i) == p
    decreases p - i
  {
    hide TrimSpace, Upper, HasPrefix;
    if i < p { FoundAgain(cs, i + 1, p, u); }
  }

  lemma {:induction false} FindIdentityIs(cs: seq<string>, i: nat)
    requires i <= |cs| && FindIdentity(cs, i) >= 0
    ensures Generated(TrimSpace(cs[FindIdentity(cs, i)]))
    decreases |cs| - i
  {
    hide TrimSpace, Upper, HasPrefix;
    if !HasPrefix(Upper(TrimSpace(cs[i])), "GENERATED") { FindIdentityIs(cs, i + 1); }
  }

  /** Two SET GENERATED on one column leave what the second leaves by itself. */
  lemma SetTwice(cs: seq<string>, first: string, second: string)
    requires FindIdentity(cs, 0) >= 0 && Kind(first)
    ensures SetIdentity(cs, first).Some? && SetIdentity(SetIdentity(cs, first).value, second) == SetIdentity(cs, second)
  {
    hide ReplaceIdentityKind, FindIdentity, Generated, TrimSpace, TrimLeft, Kind;
    var p := FindIdentity(cs, 0);
    var c := cs[p];
    var u := ReplaceIdentityKind(c, 0, first);
    assert c[0..] == c;
    FindIdentityIs(cs, 0);
    GeneratedTrimmed(c);
    StillGenerated(c, 0, first);
    GeneratedTrimmed(u);
    FoundAgain(cs, 0, p, u);
    LastKindWins(c, 0, first, second);
    assert cs[p := u][p := ReplaceIdentityKind(c, 0, second)] == cs[p := ReplaceIdentityKind(c, 0, second)];
  }
}
