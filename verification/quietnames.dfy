/** Which names in a sequence body survive when options are written into it. */
module QuietNames {
  import opened Text
  import opened Ast
  import opened Patterns
  import opened Catalog
  import opened SequenceBody
  import opened OptionLists
  import opened OptionPlaces
  import opened Sequences
  import ColumnPrint

  function Owned(v: string): SeqOption { SeqOption(OwnedBy, v) }

  /** Writing o into a body that says OWNED BY v and one thing more does what it
      does to the list of the two. */
  predicate Survives(v: string, next: SeqOption, o: SeqOption) {
    ApplyOption(BodyText([Owned(v), next]), o) == BodyText(WriteOne([Owned(v), next], o))
  }

  // ---- An option that is seen is taken out ----

  lemma {:induction false} RemovedNoLonger(s: string, i: nat, f: Family)
    requires i <= |s|
    ensures |Removed(s, i, f)| <= |s| - i
    decreases |s| - i
  {
    hide OptionEnd;
    if i < |s| {
      var j := SkipSpaces(s, i);
      var n := OptionEnd(s, j, f);
      RemovedNoLonger(s, if n > j then n else i + 1, f);
    }
  }

  lemma {:induction false} RemovedShorter(s: string, i: nat, q: nat, f: Family)
    requires i <= q < |s| && OptionEnd(s, q, f) > q && !IsBlank(s[q])
    ensures |Removed(s, i, f)| < |s| - i
    decreases q - i
  {
    hide OptionEnd;
    var j := SkipSpaces(s, i);
    var n := OptionEnd(s, j, f);
    if n > j {
      RemovedNoLonger(s, n, f);
    } else {
      RemovedShorter(s, i + 1, q, f);
    }
  }

  /** Any text keeps all its characters exactly when no option of the family is
      seen in it. */
  lemma RemovedExactly(s: string, f: Family)
    ensures Removed(s, 0, f) == s <==> forall q :: 0 <= q < |s| && !IsBlank(s[q]) ==> OptionEnd(s, q, f) == q
  {
    hide OptionEnd, Removed, IsBlank;
    if q :| 0 <= q < |s| && !IsBlank(s[q]) && OptionEnd(s, q, f) != q {
      RemovedShorter(s, 0, q, f);
    } else {
      forall p | 0 <= p < |s| ensures OptionEnd(s, SkipSpaces(s, p), f) == SkipSpaces(s, p) { BlanksAre(s, p); }
      Copied(s, 0, |s|, f);
      RemovedEnd(s, f);
      assert s[0..|s|] + "" == s;
    }
  }

  /** An option at q that runs to the end of the text goes with all behind it, if
      no earlier one runs past q. */
  lemma {:induction false} RemovedBefore(s: string, i: nat, q: nat, f: Family)
    requires i <= q < |s| && OptionEnd(s, q, f) == |s| && !IsBlank(s[q])
    requires forall j :: 0 <= j < q ==> OptionEnd(s, j, f) <= q
    ensures |Removed(s, i, f)| <= q - i
    decreases q - i
  {
    hide OptionEnd;
    var j := SkipSpaces(s, i);
    var n := OptionEnd(s, j, f);
    ColumnPrint.SkipStops(s, i, q);
    if j < q && n > j {
      assert OptionEnd(s, j, f) <= q;
      RemovedBefore(s, n, q, f);
    } else if j < q {
      RemovedBefore(s, i + 1, q, f);
    }
  }

  lemma TwoKept(a: SeqOption, b: SeqOption, f: Family)
    requires FamilyOf(a.kind) != f && FamilyOf(b.kind) != f
    ensures WithoutFamily([a, b], f) == [a, b]
  {
    assert [a, b][1..] == [b] && [b][1..] == [];
    assert WithoutFamily([b], f) == [b];
  }

  /** A body keeps all its characters, or writes something else than its list. */
  lemma SeenLost(v: string, next: SeqOption, o: SeqOption, q: nat)
    requires !o.kind.Restart? && FamilyOf(o.kind) !in {OwnedF, FamilyOf(next.kind)}
    requires var s := BodyText([Owned(v), next]); q < |s| && OptionEnd(s, q, FamilyOf(o.kind)) > q && !IsBlank(s[q])
    ensures !Survives(v, next, o)
  {
    hide OptionEnd, Removed, Spelling, IsBlank;
    var os := [Owned(v), next];
    var s, f := BodyText(os), FamilyOf(o.kind);
    TwoKept(Owned(v), next, f);
    RemovedShorter(s, 0, q, f);
    TrimShorter(Removed(s, 0, f));
    hide FamilyOf, WithoutFamily, BodyText;
    BodyAppend(os, o);
  }

  // ---- Names that do not survive ----

  const COUNT := SeqOption(Cache, "1")

  const FLAG := SeqOption(Cycle, "")

  lemma CountProper()
    ensures Proper(COUNT) && Proper(FLAG) && Proper(SeqOption(As, "int"))
    ensures Proper(SeqOption(NoMinValue, "")) && Proper(SeqOption(NoMaxValue, ""))
  {
    assert DigitsEnd("1", 0) == 1;
    var v := "int";
    assert v[0] == 'i' && v[1] == 'n' && v[2] == 't';
    MatchHas(v, 1, "AS", 0);
    MatchHas(v, 1, "NO", 1);
  }

  /** The body: the name from 9 on, then the other option. */
  lemma BodyOf(v: string, next: SeqOption)
    requires Token(v) && Proper(next)
    ensures var s := BodyText([Owned(v), next]);
            var m := 9 + |v|;
            && s == "OWNED BY " + v + (" " + Spelling(next)) && m < |s| && NameAt(s, 9, m) && s[9..m] == v
  {
    ProperNotRestart(next);
    SpellingHead(next);
    hide Spelling, Proper, Token;
    var t := "OWNED BY " + v;
    var s := t + (" " + Spelling(next));
    assert [Owned(v), next][1..] == [next] && [next][1..] == [];
    assert Spelled([next]) == " " + Spelling(next);
    assert Spelling(Owned(v)) == t by { OwnedSpelling(v); }
    assert s[9..9 + |v|] == v && s[8] == ' ' && s[9 + |v|] == ' ' && s[10 + |v|] == Spelling(next)[0];
    TokenHead(v);
  }

  lemma OwnedSpelling(v: string)
    ensures Spelling(Owned(v)) == "OWNED BY " + v
  {
  }

  lemma BoundSeen(s: string, q: nat, f: Family)
    requires q <= |s| && (f.MinF? || f.MaxF?) && MatchesAt(s, q, Head(f))
    ensures q < |s| && OptionEnd(s, q, f) > q && !IsBlank(s[q])
  {
    HeadNotNo(s, q, Head(f));
    MatchHas(s, q, Head(f), 0);
    hide MatchesAt, NumberEnd, SkipSpaces, Keyword;
  }

  lemma CycleSeen(s: string, q: nat)
    requires q <= |s| && WholeEnd(s, q, "CYCLE") > q
    ensures q < |s| && OptionEnd(s, q, CycleF) > q && !IsBlank(s[q])
  {
    HeadNotNo(s, q, "CYCLE");
    MatchHas(s, q, "CYCLE", 0);
    hide MatchesAt, Boundary, Keyword;
  }

  lemma AsSeen(s: string, q: nat)
    requires q + 3 < |s| && MatchesAt(s, q, "AS") && Boundary(s, q) && s[q + 2] == ' ' && !IsBlank(s[q + 3])
    ensures OptionEnd(s, q, AsF) > q && !IsBlank(s[q])
  {
    ColumnPrint.OneBlank(s, q + 2);
    MatchHas(s, q, "AS", 0);
    hide MatchesAt, Boundary, SkipSpaces;
  }

  lemma BoundLost(v: string, p: nat, o: SeqOption)
    requires Token(v) && p <= |v| && (o.kind.NoMinValue? || o.kind.NoMaxValue?) && MatchesAt(v, p, Head(FamilyOf(o.kind)))
    ensures !Survives(v, COUNT, o)
  {
    hide BodyText, Survives, Proper, Token, MatchesAt, OptionEnd;
    CountProper();
    BodyOf(v, COUNT);
    var s, f := BodyText([Owned(v), COUNT]), FamilyOf(o.kind);
    MatchWithin(v, p, Head(f));
    MatchInName(s, 9, 9 + |v|, 9 + p, Head(f));
    BoundSeen(s, 9 + p, f);
    SeenLost(v, COUNT, o, 9 + p);
  }

  lemma MatchWithin(v: string, p: nat, w: string)
    requires MatchesAt(v, p, w)
    ensures p + |w| <= |v|
  {
  }

  lemma CycleLost(v: string, p: nat)
    requires Token(v) && p <= |v| && WholeEnd(v, p, "CYCLE") > p
    ensures !Survives(v, COUNT, FLAG)
  {
    hide BodyText, Survives, Proper, Token, MatchesAt, OptionEnd, Boundary;
    CountProper();
    BodyOf(v, COUNT);
    var s, m := BodyText([Owned(v), COUNT]), 9 + |v|;
    MatchWithin(v, p, "CYCLE");
    MatchInName(s, 9, m, 9 + p, "CYCLE");
    BoundaryInName(s, 9, m, 9 + p + 5);
    CycleSeen(s, 9 + p);
    SeenLost(v, COUNT, FLAG, 9 + p);
  }

  lemma AsLost(v: string)
    requires Token(v) && |v| >= 2 && MatchesAt(v, |v| - 2, "AS") && Boundary(v, |v| - 2)
    ensures !Survives(v, COUNT, SeqOption(As, "int"))
  {
    hide BodyText, Survives, Proper, Token, MatchesAt, OptionEnd, Boundary, IsBlank;
    CountProper();
    BodyOf(v, COUNT);
    var s, m := BodyText([Owned(v), COUNT]), 9 + |v|;
    MatchInName(s, 9, m, m - 2, "AS");
    BoundaryInName(s, 9, m, m - 2);
    AfterEnd(s, m);
    AsSeen(s, m - 2);
    SeenLost(v, COUNT, SeqOption(As, "int"), m - 2);
  }

  // ---- A name that ends in NO ----

  /** A CYCLE option has its N at the start, if at all. */
  lemma CycleHasNoN(s: string, j: nat, x: nat)
    requires j <= |s| && j < x < OptionEnd(s, j, CycleF)
    ensures LowerChar(s[x]) != 'n'
  {
    var k := Keyword(s, j, "NO");
    if x >= k {
      MatchHas(s, k, "CYCLE", x - k);
    } else {
      MatchHas(s, j, "NO", 1);
      BlanksAre(s, j + 2);
    }
  }

  lemma NoSeen(s: string, q: nat)
    requires q + 8 == |s| && MatchesAt(s, q, "NO") && s[q + 2] == ' ' && s[q + 3..] == "CYCLE"
    ensures OptionEnd(s, q, CycleF) == |s| && !IsBlank(s[q]) && LowerChar(s[q]) == 'n'
  {
    MatchHas(s, q, "NO", 0);
    assert s[q + 3] == s[q + 3..][0] == 'C' && s[q + 7] == s[q + 3..][4] == 'E' && s[q + 3..q + 8] == "CYCLE";
    ColumnPrint.OneBlank(s, q + 2);
    ColumnPrint.MatchesItself(s, q + 3, "CYCLE");
    hide MatchesAt, SkipSpaces;
  }

  lemma NoLost(v: string)
    requires Token(v) && |v| >= 2 && MatchesAt(v, |v| - 2, "NO")
    ensures !Survives(v, FLAG, FLAG)
  {
    hide BodyText, Proper, Token, MatchesAt, OptionEnd, IsBlank, Removed, Spelling, LowerChar;
    CountProper();
    BodyOf(v, FLAG);
    var s, m := BodyText([Owned(v), FLAG]), 9 + |v|;
    var q := m - 2;
    FlagText(s, v);
    MatchInName(s, 9, m, q, "NO");
    NoSeen(s, q);
    forall j | 0 <= j < q ensures OptionEnd(s, j, CycleF) <= q {
      if OptionEnd(s, j, CycleF) > q { CycleHasNoN(s, j, q); }
    }
    RemovedBefore(s, 0, q, CycleF);
    TrimShorter(Removed(s, 0, CycleF));
    FlagWritten(v);
    ShortLost(v, s);
  }

  lemma FlagText(s: string, v: string)
    requires s == "OWNED BY " + v + (" " + Spelling(FLAG))
    ensures |s| == 15 + |v| && s[9 + |v|] == ' ' && s[10 + |v|..] == "CYCLE" && Spelling(FLAG) == "CYCLE"
  {
    assert Spelling(FLAG) == "CYCLE" + "" == "CYCLE";
  }

  lemma FlagWritten(v: string)
    ensures WriteOne([Owned(v), FLAG], FLAG) == [Owned(v), FLAG]
  {
    assert [Owned(v), FLAG][1..] == [FLAG] && [FLAG][1..] == [];
    assert WithoutFamily([FLAG], CycleF) == [];
    assert WithoutFamily([Owned(v), FLAG], CycleF) == [Owned(v)];
  }

  lemma ShortLost(v: string, s: string)
    requires s == BodyText([Owned(v), FLAG]) && |s| == 15 + |v| && |TrimSpace(Removed(s, 0, CycleF))| < 9 + |v|
    requires WriteOne([Owned(v), FLAG], FLAG) == [Owned(v), FLAG]
    ensures !Survives(v, FLAG, FLAG)
  {
    hide Removed, TrimSpace, BodyText, WriteOne;
    assert |Spelling(FLAG)| == 5;
  }

  /** A name survives whatever follows it and whatever is written exactly when it
      is quiet. */
  lemma QuietExact(v: string)
    requires Token(v) && Trimmed(v)
    ensures Quiet(v) <==> forall next, o :: Proper(next) && Proper(o) ==> Survives(v, next, o)
  {
    hide Survives, Token, MatchesAt, Boundary, WholeEnd, BodyText;
    if Quiet(v) {
      forall next, o | Proper(next) && Proper(o) ensures Survives(v, next, o) {
        assert Proper(Owned(v));
        hide Proper;
        QuietSurvives(v, next, o);
      }
    } else {
      CountProper();
      hide Proper, Trimmed;
      NotQuiet(v);
    }
  }

  lemma QuietSurvives(v: string, next: SeqOption, o: SeqOption)
    requires Proper(Owned(v)) && Proper(next) && Proper(o)
    ensures Survives(v, next, o)
  {
    hide Proper, ApplyOption, BodyText, WriteOne;
    WritesOne([Owned(v), next], o);
  }

  lemma NotQuiet(v: string)
    requires Token(v) && !Quiet(v)
    ensures !Survives(v, FLAG, FLAG) || !Survives(v, COUNT, FLAG) || !Survives(v, COUNT, SeqOption(As, "int"))
            || !Survives(v, COUNT, SeqOption(NoMinValue, "")) || !Survives(v, COUNT, SeqOption(NoMaxValue, ""))
  {
    hide Survives, Token, MatchesAt, Boundary, WholeEnd;
    if |v| >= 2 && MatchesAt(v, |v| - 2, "NO") {
      NoLost(v);
    } else if |v| >= 2 && MatchesAt(v, |v| - 2, "AS") && Boundary(v, |v| - 2) {
      AsLost(v);
    } else {
      var p :| 0 <= p <= |v| && (MatchesAt(v, p, "MINVALUE") || MatchesAt(v, p, "MAXVALUE") || WholeEnd(v, p, "CYCLE") != p);
      if MatchesAt(v, p, "MINVALUE") {
        BoundLost(v, p, SeqOption(NoMinValue, ""));
      } else if MatchesAt(v, p, "MAXVALUE") {
        BoundLost(v, p, SeqOption(NoMaxValue, ""));
      } else {
        CycleLost(v, p);
      }
    }
  }

  // ---- A name that loses its end ----

  const BICYCLE := "OWNED BY bicycle"

  lemma BicycleChars(s: string)
    requires s == BICYCLE
    ensures |s| == 16 && s[..11] == "OWNED BY bi" && Trimmed("OWNED BY bi")
    ensures s[11] == 'c' && s[12] == 'y' && s[13] == 'c' && s[14] == 'l' && s[15] == 'e'
    ensures forall i :: 0 <= i < 11 ==> s[i] in {'O', 'W', 'N', 'E', 'D', ' ', 'B', 'Y', 'b', 'i'} && (s[i] == 'N' ==> s[i + 1] == 'E')
  {
  }

  lemma BeforeCycle(s: string, q: nat)
    requires s == BICYCLE && q < 11
    ensures OptionEnd(s, q, CycleF) == q
  {
    BicycleChars(s);
    MatchHas(s, q, "CYCLE", 0);
    MatchHas(s, q, "NO", 0);
    MatchHas(s, q, "NO", 1);
    hide MatchesAt, Boundary, SkipSpaces, BICYCLE;
  }

  lemma CycleMatches(s: string)
    requires |s| == 16 && s[11] == 'c' && s[12] == 'y' && s[13] == 'c' && s[14] == 'l' && s[15] == 'e'
    ensures WholeEnd(s, 11, "CYCLE") == 16
  {
    var w := s[11..16];
    assert w == "cycle" && Lower("cycle") == "cycle" && Lower("CYCLE") == "cycle";
  }

  lemma BicycleUnseen(s: string)
    requires s == BICYCLE
    ensures |s| == 16 && Unseen(s, 0, 11, CycleF)
  {
    hide BICYCLE, OptionEnd;
    BicycleChars(s);
    forall p | 0 <= p < 11 ensures OptionEnd(s, SkipSpaces(s, p), CycleF) == SkipSpaces(s, p) {
      VisibleAt(s, 10);
      ColumnPrint.SkipStops(s, p, 10);
      BeforeCycle(s, SkipSpaces(s, p));
    }
  }

  lemma VisibleAt(s: string, i: nat)
    requires |s| == 16 && i == 10 && s[..11] == "OWNED BY bi"
    ensures !IsBlank(s[10])
  {
    assert s[10] == s[..11][10] == 'i';
  }

  lemma BicycleRemoved()
    ensures Removed(BICYCLE, 0, CycleF) == "OWNED BY bi" && Trimmed("OWNED BY bi")
  {
    var s := BICYCLE;
    hide BICYCLE, Removed, Unseen;
    BicycleUnseen(s);
    BicycleChars(s);
    Copied(s, 0, 11, CycleF);
    CycleToEnd(s);
    assert s[0..11] == s[..11] && s[..11] + "" == s[..11];
  }

  lemma Written(body: string, rest: string, o: SeqOption, text: string)
    requires !o.kind.Restart? && Removed(body, 0, FamilyOf(o.kind)) == rest && Trimmed(rest) && rest != ""
    requires Spelling(o) == text
    ensures ApplyOption(body, o) == rest + " " + text
  {
    hide Removed, Spelling, FamilyOf;
    TrimSpaceKeepsTrimmed(rest);
  }

  /** Writing NO CYCLE cuts a sequence owned by a bicycle down to one owned by bi. */
  lemma BicycleLost()
    ensures ApplyOption(BICYCLE, SeqOption(NoCycle, "")) == "OWNED BY bi" + " " + "NO CYCLE"
  {
    hide BICYCLE, Removed, TrimSpace, Trimmed, Spelling, ApplyOption;
    BicycleRemoved();
    FlagSpelling();
    Written(BICYCLE, "OWNED BY bi", SeqOption(NoCycle, ""), "NO CYCLE");
  }

  lemma FlagSpelling()
    ensures Spelling(SeqOption(NoCycle, "")) == "NO CYCLE"
  {
    assert "NO CYCLE" + "" == "NO CYCLE";
  }

  lemma CycleToEnd(s: string)
    requires s == BICYCLE
    ensures Removed(s, 11, CycleF) == ""
  {
    BicycleChars(s);
    CycleMatches(s);
    HeadNotNo(s, 11, "CYCLE");
    HeadC(s);
    hide BICYCLE;
  }

  lemma HeadC(s: string)
    requires |s| == 16 && s[11] == 'c'
    ensures SkipSpaces(s, 11) == 11 && Keyword(s, 11, "NO") == 11
  {
    MatchHas(s, 11, "NO", 0);
    hide MatchesAt;
  }
}
