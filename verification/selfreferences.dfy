/** RENAME TO redirects the references of a table to itself: which are seen, and
    when the redirected text is the one meant. */
module SelfReferences {
  import opened Text
  import opened Patterns
  import opened Ast
  import opened Catalog

  const REFERENCES := "REFERENCES"

  /** Is there a reference to the table at or after i? */
  predicate HasReference(s: string, i: nat, name: string)
    requires i <= |s|
    decreases |s| - i
  {
    i < |s| && (ReferenceEnd(s, i, name) > i || HasReference(s, i + 1, name))
  }

  /** Does the name occur in the keyword itself, in any case? */
  predicate InKeyword(name: string) { Contains(REFERENCES, Upper(name)) }

  lemma {:induction false} SpacesSkipped(s: string, i: nat)
    requires i <= |s|
    ensures forall j :: i <= j < SkipSpaces(s, i) ==> IsBlank(s[j])
    decreases |s| - i
  {
    if i < |s| && IsBlank(s[i]) { SpacesSkipped(s, i + 1); }
  }

  /** A reference is the keyword, white space and the name. */
  lemma ReferenceParts(s: string, i: nat, name: string)
    requires i <= |s| && ReferenceEnd(s, i, name) > i
    ensures var p := ReferenceEnd(s, i, name) - |name|;
            && p > i + 10 && MatchesAt(s, i, REFERENCES) && MatchesAt(s, p, name)
            && forall j :: i + 10 <= j < p ==> IsBlank(s[j])
  {
    SpacesSkipped(s, i + 10);
  }

  /** What is meant: in every reference the name is replaced, and its keyword and
      white space stay. */
  function Redirected(s: string, i: nat, name: string, newName: string): string
    requires i <= |s|
    decreases |s| - i
  {
    if i == |s| then ""
    else
      var n := ReferenceEnd(s, i, name);
      if n > i then
        ReferenceParts(s, i, name);
        s[i..n - |name|] + newName + Redirected(s, n, name, newName)
      else [s[i]] + Redirected(s, i + 1, name, newName)
  }

  lemma UpperOfMatch(s: string, i: nat, w: string)
    requires MatchesAt(s, i, w)
    ensures Upper(s[i..i + |w|]) == Upper(w)
  {
    var t := s[i..i + |w|];
    assert |t| == |w|;
    forall j | 0 <= j < |w| ensures Upper(t)[j] == Upper(w)[j] {
      assert Lower(t)[j] == Lower(w)[j];
      assert LowerChar(t[j]) == LowerChar(w[j]);
    }
  }

  lemma BlankKept(c: char, d: char)
    requires IsBlank(c) && UpperChar(d) == UpperChar(c)
    ensures IsBlank(d)
  {
  }

  /** Before its place in a reference, the name occurs in the keyword or nowhere. */
  lemma NoEarlier(m: string, name: string, q: nat, p: nat)
    requires p == |m| - |name| && p > 10 && Token(name) && Upper(m)[..10] == REFERENCES && q < p
    requires forall j :: 10 <= j < p ==> IsBlank(m[j])
    ensures OccursAt(Upper(m), Upper(name), q) <==> OccursAt(REFERENCES, Upper(name), q)
  {
    var u := Upper(m);
    if q + |name| <= 10 {
      assert u[q..q + |name|] == u[..10][q..q + |name|];
    } else if OccursAt(u, Upper(name), q) {
      var j := if q < 10 then 10 else q;
      assert u[q..q + |name|][j - q] == u[j];
      BlankKept(m[j], name[j - q]);
    }
  }

  /** The scanner finds the name in a reference at its place exactly when the
      keyword does not hold it, and too early else. */
  lemma NamePlace(s: string, i: nat, name: string)
    requires i <= |s| && Token(name) && ReferenceEnd(s, i, name) > i
    ensures var n := ReferenceEnd(s, i, name);
            var k := IndexOf(Upper(s[i..n]), Upper(name));
            0 <= k <= n - i - |name| && (k == n - i - |name| <==> !InKeyword(name))
  {
    hide ReferenceEnd, MatchesAt, Upper;
    var n := ReferenceEnd(s, i, name);
    var m, w := s[i..n], Upper(name);
    var p := n - i - |name|;
    ReferenceParts(s, i, name);
    MatchParts(s, i, n, name);
    IndexFromFirst(Upper(m), w, 0);
    IndexFromFirst(REFERENCES, w, 0);
    forall q: nat | q < p ensures OccursAt(Upper(m), w, q) <==> OccursAt(REFERENCES, w, q) { NoEarlier(m, name, q, p); }
  }

  lemma MatchParts(s: string, i: nat, n: nat, name: string)
    requires i + 10 < n - |name| && n <= |s| && MatchesAt(s, i, REFERENCES) && MatchesAt(s, n - |name|, name)
    requires forall j :: i + 10 <= j < n - |name| ==> IsBlank(s[j])
    ensures var m := s[i..n];
            var p := |m| - |name|;
            && p == n - i - |name| && Upper(m)[..10] == REFERENCES && OccursAt(Upper(m), Upper(name), p)
            && forall j :: 10 <= j < p ==> IsBlank(m[j])
  {
    var m := s[i..n];
    UpperOfMatch(s, i, REFERENCES);
    UpperOfMatch(s, n - |name|, name);
    assert Upper(m)[..10] == Upper(s[i..i + 10]);
    assert Upper(m)[n - i - |name|..n - i] == Upper(s[n - |name|..n]);
    assert Upper(REFERENCES) == REFERENCES;
  }

  lemma {:induction false} NoneLeft(s: string, i: nat, name: string, newName: string)
    requires i <= |s| && !HasReference(s, i, name)
    ensures ReplaceReferences(s, i, name, newName) == s[i..] == Redirected(s, i, name, newName)
    decreases |s| - i
  {
    hide ReferenceEnd;
    if i < |s| {
      NoneLeft(s, i + 1, name, newName);
      assert s[i..] == [s[i]] + s[i + 1..];
    }
  }

  /** One reference: what the scanner writes, and what is meant. */
  lemma AtReference(s: string, i: nat, name: string, newName: string)
    requires i < |s| && Token(name) && ReferenceEnd(s, i, name) > i
    ensures var n := ReferenceEnd(s, i, name);
            var k := IndexOf(Upper(s[i..n]), Upper(name));
            && 0 <= k <= n - i - |name|
            && (k == n - i - |name| <==> !InKeyword(name))
            && ReplaceReferences(s, i, name, newName) == s[i..i + k] + newName + ReplaceReferences(s, n, name, newName)
            && Redirected(s, i, name, newName) == s[i..n - |name|] + newName + Redirected(s, n, name, newName)
  {
    hide ReferenceEnd, IndexOf, Upper, InKeyword, Token, MatchesAt, IsBlank, HasReference;
    NamePlace(s, i, name);
    ReferenceParts(s, i, name);
    ReplaceStep(s, i, name, newName);
  }

  lemma ReplaceStep(s: string, i: nat, name: string, newName: string)
    requires i < |s| && ReferenceEnd(s, i, name) > i && IndexOf(Upper(s[i..ReferenceEnd(s, i, name)]), Upper(name)) >= 0
    ensures var n := ReferenceEnd(s, i, name);
            var k := IndexOf(Upper(s[i..n]), Upper(name));
            ReplaceReferences(s, i, name, newName) == s[i..i + k] + newName + ReplaceReferences(s, n, name, newName)
  {
    hide ReferenceEnd, IndexOf, Upper;
  }

  /** Nothing is ever longer than meant; with the name in the keyword, a text with
      a reference is shorter. */
  lemma {:induction false} NeverLonger(s: string, i: nat, name: string, newName: string)
    requires i <= |s| && Token(name)
    ensures |ReplaceReferences(s, i, name, newName)| <= |Redirected(s, i, name, newName)|
    ensures InKeyword(name) && HasReference(s, i, name) ==>
              |ReplaceReferences(s, i, name, newName)| < |Redirected(s, i, name, newName)|
    decreases |s| - i
  {
    hide ReferenceEnd, IndexOf, Upper, InKeyword;
    if i < |s| {
      if ReferenceEnd(s, i, name) > i {
        AtReference(s, i, name, newName);
        NeverLonger(s, ReferenceEnd(s, i, name), name, newName);
      } else {
        NeverLonger(s, i + 1, name, newName);
      }
    }
  }

  lemma {:induction false} RedirectsAll(s: string, i: nat, name: string, newName: string)
    requires i <= |s| && Token(name) && !InKeyword(name)
    ensures ReplaceReferences(s, i, name, newName) == Redirected(s, i, name, newName)
    decreases |s| - i
  {
    hide IndexOf, Upper, InKeyword;
    if i < |s| {
      if ReferenceEnd(s, i, name) > i {
        hide ReferenceEnd;
        AtReference(s, i, name, newName);
        RedirectsAll(s, ReferenceEnd(s, i, name), name, newName);
      } else {
        hide ReferenceEnd;
        RedirectsAll(s, i + 1, name, newName);
      }
    }
  }

  /** Every reference becomes its keyword, its white space and the new name, and
      nothing else changes, exactly when the old name does not occur in the word
      REFERENCES or there is no reference. */
  lemma RedirectsExactly(s: string, name: string, newName: string)
    requires Token(name)
    ensures ReplaceReferences(s, 0, name, newName) == Redirected(s, 0, name, newName)
            <==> !InKeyword(name) || !HasReference(s, 0, name)
  {
    hide ReplaceReferences, Redirected, InKeyword, HasReference;
    NeverLonger(s, 0, name, newName);
    if !InKeyword(name) {
      RedirectsAll(s, 0, name, newName);
    } else if !HasReference(s, 0, name) {
      NoneLeft(s, 0, name, newName);
    }
  }

  // ---- The whole table ----

  /** The definitions of the named and unnamed table constraints follow a rename
      of their table, all of them, exactly when the old name does not occur in
      the word REFERENCES or none of them refers to the table. */
  lemma ConstraintsFollow(t: TableDef, newName: string)
    requires Token(t.name)
    ensures (forall i :: 0 <= i < |t.constraints| ==>
              RenameTable(t, newName).constraints[i].definition == Redirected(t.constraints[i].definition, 0, t.name, newName))
            <==> !InKeyword(t.name) || forall c :: c in t.constraints ==> !HasReference(c.definition, 0, t.name)
  {
    hide ReplaceReferences, Redirected, InKeyword, HasReference;
    forall i | 0 <= i < |t.constraints|
      ensures RenameTable(t, newName).constraints[i].definition == Redirected(t.constraints[i].definition, 0, t.name, newName)
              <==> !InKeyword(t.name) || !HasReference(t.constraints[i].definition, 0, t.name)
    {
      RedirectsExactly(t.constraints[i].definition, t.name, newName);
    }
    if forall c :: c in t.constraints ==> !HasReference(c.definition, 0, t.name) {
      assert forall i :: 0 <= i < |t.constraints| ==> t.constraints[i] in t.constraints;
    }
  }

  lemma {:induction false} LengthMoves(s: string, i: nat, name: string, newName: string)
    requires i <= |s|
    ensures var r := |Redirected(s, i, name, newName)|;
            && (|newName| >= |name| ==> r >= |s| - i) && (|newName| <= |name| ==> r <= |s| - i)
            && (HasReference(s, i, name) && |newName| != |name| ==> r != |s| - i)
    decreases |s| - i
  {
    hide ReferenceEnd;
    if i < |s| {
      var n := ReferenceEnd(s, i, name);
      if n > i {
        ReferenceParts(s, i, name);
        LengthMoves(s, n, name, newName);
      } else {
        LengthMoves(s, i + 1, name, newName);
      }
    }
  }

  lemma {:induction false} NameChanges(s: string, i: nat, name: string, newName: string)
    requires i <= |s| && |newName| == |name| && Lower(newName) != Lower(name) && HasReference(s, i, name)
    ensures Redirected(s, i, name, newName) != s[i..]
    decreases |s| - i
  {
    hide ReferenceEnd, Lower;
    var n := ReferenceEnd(s, i, name);
    var r := Redirected(s, i, name, newName);
    if n > i {
      ReferenceParts(s, i, name);
      var p := n - |name| - i;
      assert r[p..p + |name|] == newName;
      assert s[i..][p..p + |name|] == s[n - |name|..n];
      SameFold(s, n - |name|, name);
    } else {
      NameChanges(s, i + 1, name, newName);
      assert r[1..] == Redirected(s, i + 1, name, newName) && s[i..][1..] == s[i + 1..];
    }
  }

  lemma SameFold(s: string, i: nat, name: string)
    requires MatchesAt(s, i, name)
    ensures Lower(s[i..i + |name|]) == Lower(name)
  {
  }

  /** An inline constraint follows a rename of its table to another name exactly
      when it begins with REFERENCES and the keyword does not hold the old name,
      or it does not refer to the table. */
  lemma InlineFollowsExactly(c: string, name: string, newName: string)
    requires Token(name) && Lower(newName) != Lower(name)
    ensures RedirectInline(c, name, newName) == Redirected(c, 0, name, newName)
            <==> !HasReference(c, 0, name) || (HasPrefix(Upper(TrimSpace(c)), "REFERENCES") && !InKeyword(name))
  {
    hide ReplaceReferences, Redirected, InKeyword, HasReference, TrimSpace, Lower, Upper, HasPrefix;
    RedirectsExactly(c, name, newName);
    LengthMoves(c, 0, name, newName);
    assert c[0..] == c;
    if HasReference(c, 0, name) && |newName| == |name| { NameChanges(c, 0, name, newName); }
    if !HasReference(c, 0, name) { NoneLeft(c, 0, name, newName); }
  }

  // ---- Which references are seen ----

  /** A reference written with one blank is seen exactly when the table's name
      ends in a word character: a quoted name's is not. */
  lemma SeenExactly(name: string, tail: string)
    requires Token(name) && (tail != "" ==> !IsWordChar(tail[0]))
    ensures var s := "REFERENCES " + name + tail;
            ReferenceEnd(s, 0, name) == if IsWordChar(name[|name| - 1]) then 11 + |name| else 0
  {
    var s := "REFERENCES " + name + tail;
    assert s[0..10] == REFERENCES && s[0] == 'R' && s[10] == ' ' && s[11] == name[0];
    assert s[11..11 + |name|] == name && s[10 + |name|] == name[|name| - 1];
    assert tail != "" ==> s[11 + |name|] == tail[0];
    assert SkipSpaces(s, 11) == 11 && SkipSpaces(s, 10) == 11;
  }

  /** The only reference in a definition follows the new name exactly when it is
      seen and its keyword stays whole; one that is not seen never does. */
  lemma FollowsExactly(name: string, tail: string, newName: string)
    requires Token(name) && (tail != "" ==> !IsWordChar(tail[0]))
    requires !HasReference("REFERENCES " + name + tail, 1, name)
    ensures ReplaceReferences("REFERENCES " + name + tail, 0, name, newName) == "REFERENCES " + newName + tail
            <==> if IsWordChar(name[|name| - 1]) then !InKeyword(name) else name == newName
  {
    hide ReferenceEnd, InKeyword, ReplaceReferences, HasReference, IndexOf, IsWordChar, Upper;
    var s := "REFERENCES " + name + tail;
    SeenExactly(name, tail);
    Cuts("REFERENCES ", name, tail);
    if IsWordChar(name[|name| - 1]) {
      AtReference(s, 0, name, newName);
      var n := 11 + |name|;
      Later(s, 1, n, name);
      NoneLeft(s, n, name, newName);
      var k := IndexOf(Upper(s[0..n]), Upper(name));
      assert k != 11 ==> |s[0..k] + newName + tail| < |"REFERENCES " + newName + tail|;
    } else {
      NotSeen(s, name, newName);
      SameMiddle("REFERENCES ", name, newName, tail);
    }
  }

  lemma NotSeen(s: string, name: string, newName: string)
    requires s != "" && ReferenceEnd(s, 0, name) == 0 && !HasReference(s, 1, name)
    ensures ReplaceReferences(s, 0, name, newName) == s
  {
    hide ReferenceEnd;
    NoneLeft(s, 1, name, newName);
    assert [s[0]] + s[1..] == s;
  }

  lemma Cuts(a: string, b: string, c: string)
    ensures var s := a + b + c; s[0..|a|] == a && s[|a| + |b|..] == c
  {
  }

  lemma SameMiddle(a: string, x: string, y: string, z: string)
    ensures a + x + z == a + y + z <==> x == y
  {
    if a + x + z == a + y + z {
      assert |x| == |y|;
      assert (a + x + z)[|a|..|a| + |x|] == x && (a + y + z)[|a|..|a| + |x|] == y;
    }
  }

  lemma {:induction false} Later(s: string, i: nat, n: nat, name: string)
    requires i <= n <= |s| && !HasReference(s, i, name)
    ensures !HasReference(s, n, name)
    decreases n - i
  {
    if i < n { Later(s, i + 1, n, name); }
  }

  lemma NoneInside()
    ensures !HasReference("REFERENCES e(id)", 1, "e")
  {
    var s := "REFERENCES e(id)";
    hide HasReference;
    NoKeyword(s);
    NoMatches(s, 1, "e");
  }

  lemma NoKeyword(s: string)
    requires s == "REFERENCES e(id)"
    ensures forall j :: 1 <= j < |s| ==> !MatchesAt(s, j, REFERENCES)
  {
    forall j | 1 <= j < |s| ensures !MatchesAt(s, j, REFERENCES) { MatchHas(s, j, REFERENCES, 0); }
  }

  lemma {:induction false} NoMatches(s: string, i: nat, name: string)
    requires i <= |s| && forall j :: i <= j < |s| ==> !MatchesAt(s, j, REFERENCES)
    ensures !HasReference(s, i, name)
    decreases |s| - i
  {
    hide MatchesAt;
    if i < |s| { NoMatches(s, i + 1, name); }
  }

  /** In a table called e, renamed to nodes, the reference is cut short inside
      its keyword. */
  lemma KeywordCut()
    ensures ReplaceReferences("REFERENCES e(id)", 0, "e", "nodes") == "Rnodes(id)"
  {
    hide ReplaceReferences, ReferenceEnd, HasReference, IndexOf, IsWordChar, Upper;
    var s := "REFERENCES e(id)";
    EntryTexts(s);
    SeenExactly("e", "(id)");
    AtReference(s, 0, "e", "nodes");
    NoneInside();
    Later(s, 1, 12, "e");
    NoneLeft(s, 12, "e", "nodes");
    FirstE(s);
  }

  lemma FirstE(s: string)
    requires s == "REFERENCES e(id)"
    ensures IndexOf(Upper(s[0..12]), Upper("e")) == 1
  {
    var u := "REFERENCES E";
    assert Upper("e") == "E" && Upper(s[0..12]) == u;
    assert u[1..2] == "E" && u[0..1] == "R";
    FirstOccurrence(u, "E", 0, 1);
  }

  lemma EntryTexts(s: string)
    requires s == "REFERENCES e(id)"
    ensures s == "REFERENCES " + "e" + "(id)" && s[12..] == "(id)" && s[0..1] == "R" && IsWordChar("e"[0])
    ensures Token("e") && !IsWordChar("(id)"[0])
  {
  }
}
