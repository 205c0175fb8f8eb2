/** Reading the text of a list of options gives its options, in the order of the
    patterns. */
module OptionReading {
  import opened Text
  import opened Ast
  import opened Patterns
  import opened Catalog
  import opened SequenceBody
  import opened OptionLists
  import opened OptionPlaces
  import opened Sequences
  import opened SequenceParser
  import ColumnPrint

  // ---- What a pattern captures is an option that is seen ----

  lemma NumberedStart(s: string, i: nat)
    requires i <= |s| && Numbered(s, i, "START", "WITH").Some?
    ensures StartEnd(s, i) > i
  {
    var k := Keyword(s, i, "START");
    if k > i && !MatchesAt(s, k, "WITH") { assert Keyword(s, k, "WITH") == k; }
    NotNumber(s, k);
    hide MatchesAt, NumberEnd;
  }

  lemma NotNumber(s: string, k: nat)
    requires k <= |s|
    ensures MatchesAt(s, k, "WITH") ==> NumberEnd(s, k) == k
  {
    MatchHas(s, k, "WITH", 0);
    hide MatchesAt;
  }

  lemma NegatedSeen(s: string, i: nat, w: string)
    requires i <= |s| && Negated(s, i, w).Some? && w != ""
    ensures BoundEnd(s, i, w) > i
  {
    hide MatchesAt, NumberEnd, SkipSpaces, Boundary;
  }

  lemma BoundSeen(s: string, i: nat, w: string)
    requires i <= |s| && Numbered(s, i, w, "").Some? && w in {"MINVALUE", "MAXVALUE"}
    ensures BoundEnd(s, i, w) > i
  {
    HeadNotNo(s, i, w);
    hide MatchesAt, NumberEnd;
  }

  lemma CycleNotNo(s: string, i: nat)
    requires i <= |s|
    ensures WholeEnd(s, i, "CYCLE") > i ==> Keyword(s, i, "NO") == i
  {
    HeadNotNo(s, i, "CYCLE");
    hide MatchesAt, Boundary, Keyword;
  }

  /** What a pattern captures lies in an option of its family. */
  lemma CapturedSeen(s: string, i: nat, n: nat)
    requires i <= |s| && n < 12 && Captured(s, i, n).Some?
    ensures OptionEnd(s, i, FamilyOf(SPECS[n])) > i
  {
    hide Keyword, WholeEnd, Boundary, NumberEnd, BlankEnd, BoundEnd, StartEnd, MatchesAt;
    match n
    case 0 => NegatedSeen(s, i, "MINVALUE");
    case 1 => NegatedSeen(s, i, "MAXVALUE");
    case 4 => BoundSeen(s, i, "MINVALUE");
    case 5 => BoundSeen(s, i, "MAXVALUE");
    case 6 => NumberedStart(s, i);
    case 8 => CycleNotNo(s, i);
    case _ =>
  }

  // ---- An option is captured at its place ----

  /** The value that stands in the text of an option. */
  function ValueOf(o: SeqOption): string { if IsFlag(o.kind) then "" else o.value }

  /** The pattern for a kind. */
  function SpecOf(k: OptionKind): (n: nat)
    ensures n < 14 && SPECS[n] == k
  {
    match k
    case NoMinValue => 0
    case NoMaxValue => 1
    case NoCycle => 2
    case IncrementBy => 3
    case MinValue => 4
    case MaxValue => 5
    case StartWith => 6
    case Cache => 7
    case Cycle => 8
    case OwnedBy => 9
    case As => 10
    case SetLogged => 11
    case Restart => 12
  }

  lemma TwoWordsNumbered(s: string, a: nat, m: nat, w: string, n: nat)
    requires n + 2 < |w| && a + |w| <= m && Ended(s, m) && s[a..a + |w|] == w
    requires w[n] == ' ' && !IsBlank(w[n + 1]) && w[|w| - 1] == ' ' && Number(s[a + |w|..m])
    ensures Numbered(s, a, w[..n], w[n + 1..|w| - 1]) == Some(s[a + |w|..m])
  {
    hide Keyword, Number, NumberEnd, IsBlank;
    NumberPlaced(s, a + |w|, m);
    TwoFirstWords(s, a, w, n);
  }

  lemma OneWordNumbered(s: string, a: nat, m: nat, w: string, n: nat)
    requires |w| == n + 1 && a + |w| <= m && Ended(s, m) && s[a..a + |w|] == w && w[n] == ' ' && Number(s[a + |w|..m])
    ensures Numbered(s, a, w[..n], "") == Some(s[a + |w|..m])
  {
    hide Keyword, Number, NumberEnd, IsBlank;
    NumberPlaced(s, a + |w|, m);
    FirstWord(s, a, w, n);
  }

  lemma NumberedCaptured(s: string, a: nat, o: SeqOption, m: nat)
    requires Proper(o) && Placed(s, a, o, m) && Boundary(s, a)
    requires o.kind.IncrementBy? || o.kind.StartWith? || o.kind.Cache? || o.kind.MinValue? || o.kind.MaxValue?
    ensures Captured(s, a, SpecOf(o.kind)) == Some(o.value)
  {
    hide Number, Placed, Boundary, Ended, Captured;
    PlacedParts(s, a, o, m);
    PlacedBound(s, a, o, m);
    match o.kind
    case IncrementBy => IncrementCaptured(s, a, m);
    case StartWith => StartCaptured(s, a, m);
    case Cache => CacheCaptured(s, a, m);
    case MinValue | MaxValue => BoundCaptured(s, a, o, m);
  }

  lemma IncrementCaptured(s: string, a: nat, m: nat)
    requires a + 13 <= m && Ended(s, m) && s[a..a + 13] == "INCREMENT BY " && Number(s[a + 13..m]) && Boundary(s, a)
    ensures Captured(s, a, 3) == Some(s[a + 13..m])
  {
    hide Number, Numbered, Boundary, Ended;
    var w := "INCREMENT BY ";
    assert w[..9] == "INCREMENT" && w[10..12] == "BY" && w[10] == 'B';
    VisibleHeads();
    TwoWordsNumbered(s, a, m, w, 9);
  }

  lemma StartCaptured(s: string, a: nat, m: nat)
    requires a + 11 <= m && Ended(s, m) && s[a..a + 11] == "START WITH " && Number(s[a + 11..m]) && Boundary(s, a)
    ensures Captured(s, a, 6) == Some(s[a + 11..m])
  {
    hide Number, Numbered, Boundary, Ended;
    var w := "START WITH ";
    assert w[..5] == "START" && w[6..10] == "WITH" && w[6] == 'W';
    VisibleHeads();
    TwoWordsNumbered(s, a, m, w, 5);
  }

  lemma CacheCaptured(s: string, a: nat, m: nat)
    requires a + 6 <= m && Ended(s, m) && s[a..a + 6] == "CACHE " && Number(s[a + 6..m]) && Boundary(s, a)
    ensures Captured(s, a, 7) == Some(s[a + 6..m])
  {
    hide Number, Numbered, Boundary, Ended;
    var w := "CACHE ";
    assert w[..5] == "CACHE" && w[5] == ' ';
    OneWordNumbered(s, a, m, w, 5);
  }

  lemma BoundCaptured(s: string, a: nat, o: SeqOption, m: nat)
    requires (o.kind.MinValue? || o.kind.MaxValue?) && a + 9 <= m && Ended(s, m) && s[a..a + 9] == Words(o.kind)
    requires Number(s[a + 9..m]) && Boundary(s, a)
    ensures Captured(s, a, SpecOf(o.kind)) == Some(s[a + 9..m])
  {
    hide Number, Numbered, Boundary, Ended;
    var w := Words(o.kind);
    assert w[8] == ' ' && w[..8] == if o.kind.MinValue? then "MINVALUE" else "MAXVALUE";
    OneWordNumbered(s, a, m, w, 8);
  }

  /** NO and its word, where an option ends. */
  lemma NegatedPlaced(s: string, a: nat, m: nat, w: string)
    requires w in {"MINVALUE", "MAXVALUE", "CYCLE"} && m == a + 3 + |w| <= |s| && Ended(s, m) && s[a..m] == "NO " + w
    ensures Negated(s, a, w) == Some("")
  {
    hide Keyword, MatchesAt, Ended;
    var t := "NO " + w;
    assert t[..2] == "NO" && t[2] == ' ' && t[3..|t|] == w && t[3] == w[0];
    SubWord(s, a, t, 3, |t|);
    SubWord(s, a, t, 0, 3);
    VisibleHeads();
    FirstWord(s, a, t, 2);
    ColumnPrint.MatchesItself(s, a + 3, w);
    AfterEnd(s, m);
    LastLetter(s, a, m, t);
  }

  lemma LastLetter(s: string, a: nat, m: nat, t: string)
    requires t != "" && m <= |s| && a + |t| == m && s[a..m] == t
    ensures s[m - 1] == t[|t| - 1]
  {
    assert s[m - 1] == s[a..m][|t| - 1];
  }

  lemma FlagCaptured(s: string, a: nat, o: SeqOption, m: nat)
    requires Proper(o) && Placed(s, a, o, m) && Boundary(s, a) && IsFlag(o.kind)
    ensures Captured(s, a, SpecOf(o.kind)) == Some("")
  {
    PlacedParts(s, a, o, m);
    hide Negated, Placed, Boundary, Ended, WholeEnd;
    match o.kind
    case NoMinValue => assert "NO MINVALUE" == "NO " + "MINVALUE"; NegatedPlaced(s, a, m, "MINVALUE");
    case NoMaxValue => assert "NO MAXVALUE" == "NO " + "MAXVALUE"; NegatedPlaced(s, a, m, "MAXVALUE");
    case NoCycle => assert "NO CYCLE" == "NO " + "CYCLE"; NegatedPlaced(s, a, m, "CYCLE");
    case Cycle => CyclePlaced(s, a, m);
  }

  lemma NameCaptured(s: string, a: nat, o: SeqOption, m: nat)
    requires Proper(o) && Placed(s, a, o, m) && Boundary(s, a) && (o.kind.OwnedBy? || o.kind.As? || o.kind.SetLogged?)
    ensures Captured(s, a, SpecOf(o.kind)) == Some(o.value)
  {
    hide Placed, Boundary, Captured, Quiet, Token, Ended, Trimmed;
    PlacedParts(s, a, o, m);
    PlacedBound(s, a, o, m);
    match o.kind
    case OwnedBy => OwnedCaptured(s, a, m);
    case As => AsCaptured(s, a, m);
    case SetLogged => LoggedCaptured(s, a, m);
  }

  lemma OwnedCaptured(s: string, a: nat, m: nat)
    requires a + 9 <= m <= |s| && Ended(s, m) && s[a..a + 9] == "OWNED BY " && Token(s[a + 9..m]) && Boundary(s, a)
    ensures Captured(s, a, 9) == Some(s[a + 9..m])
  {
    hide Keyword, BlankEnd, Token, IsBlank, Ended, Boundary;
    var w := "OWNED BY ";
    assert w[..5] == "OWNED" && w[6..8] == "BY" && w[6] == 'B';
    VisibleHeads();
    NamePlaced(s, a + 9, m);
    TwoFirstWords(s, a, w, 5);
  }

  lemma AsCaptured(s: string, a: nat, m: nat)
    requires a + 3 <= m <= |s| && Ended(s, m) && s[a..a + 3] == "AS " && Token(s[a + 3..m]) && Boundary(s, a)
    ensures Captured(s, a, 10) == Some(s[a + 3..m])
  {
    hide Keyword, BlankEnd, Token, IsBlank, Ended, Boundary;
    var w := "AS ";
    assert w[..2] == "AS" && w[2] == ' ';
    NamePlaced(s, a + 3, m);
    FirstWord(s, a, w, 2);
  }

  lemma LoggedCaptured(s: string, a: nat, m: nat)
    requires a + 4 <= m <= |s| && Ended(s, m) && s[a..a + 4] == "SET " && Boundary(s, a)
    requires Lower(s[a + 4..m]) == "logged" || Lower(s[a + 4..m]) == "unlogged"
    ensures Captured(s, a, 11) == Some(s[a + 4..m])
  {
    hide Keyword, WholeEnd, IsBlank, Ended, Boundary;
    var w := "SET ";
    assert w[..3] == "SET" && w[3] == ' ';
    LoggedWord(s, a + 4, m, s[a + 4..m]);
    FirstWord(s, a, w, 3);
  }

  lemma StartBoundary(s: string, a: nat, o: SeqOption, m: nat)
    requires Proper(o) && Placed(s, a, o, m)
    ensures Boundary(s, a)
  {
    ProperNotRestart(o);
    SpellingHead(o);
    hide Spelling, Proper;
    assert s[a] == Spelling(o)[0];
    Heads(s[a]);
  }

  /** Every option is captured by the pattern for its kind, where it starts. */
  lemma OwnCaptured(s: string, a: nat, o: SeqOption, m: nat)
    requires Proper(o) && Placed(s, a, o, m)
    ensures SpecOf(o.kind) < 12 && Captured(s, a, SpecOf(o.kind)) == Some(ValueOf(o))
  {
    StartBoundary(s, a, o, m);
    ProperNotRestart(o);
    hide Captured, Proper, Placed;
    if IsFlag(o.kind) {
      FlagCaptured(s, a, o, m);
    } else if o.kind.OwnedBy? || o.kind.As? || o.kind.SetLogged? {
      NameCaptured(s, a, o, m);
    } else {
      NumberedCaptured(s, a, o, m);
    }
  }

  // ---- Nothing else is captured ----

  lemma BlankUncaptured(s: string, q: nat, n: nat)
    requires q < |s| && s[q] == ' ' && n < 12
    ensures Captured(s, q, n).None?
  {
    hide OptionEnd, Captured, Head;
    var f := FamilyOf(SPECS[n]);
    if Captured(s, q, n).Some? {
      CapturedSeen(s, q, n);
      HeadNeeded(s, q, f);
      HeadWithin(s, q, f, q);
      HeadNotEmpty(f);
      MatchHas(s, q, "NO", 0);
      hide MatchesAt;
      assert false;
    }
  }

  lemma HeadNotEmpty(f: Family)
    ensures Head(f) != ""
  {
  }

  /** No pattern of another family captures anything inside an option. */
  lemma OtherUncaptured(s: string, a: nat, o: SeqOption, m: nat, q: nat, n: nat)
    requires Proper(o) && Placed(s, a, o, m) && a <= q < m && n < 12 && FamilyOf(SPECS[n]) != FamilyOf(o.kind)
    ensures Captured(s, q, n).None?
  {
    hide OptionEnd, Captured, Proper;
    var f := FamilyOf(SPECS[n]);
    NothingInside(s, a, o, m, q, f);
    if Captured(s, q, n).Some? {
      CapturedSeen(s, q, n);
      assert false;
    }
  }

  lemma WithoutO(k: OptionKind)
    requires k.MinValue? || k.MaxValue? || k.Cycle?
    ensures forall i :: 0 <= i < |Words(k)| ==> LowerChar(Words(k)[i]) != 'o'
  {
  }

  /** An option that is not negated is not captured as one that is. */
  lemma NotNegated(s: string, a: nat, o: SeqOption, m: nat, q: nat, n: nat)
    requires Proper(o) && Placed(s, a, o, m) && a <= q < m && n < 3
    requires o.kind.MinValue? || o.kind.MaxValue? || o.kind.Cycle?
    ensures Captured(s, q, n).None?
  {
    hide WholeEnd, Boundary, Placed, Proper;
    NoNo(s, a, o, m, q);
    NoKeyword(s, q);
    hide MatchesAt, Keyword;
  }

  lemma NoKeyword(s: string, q: nat)
    requires q <= |s| && !MatchesAt(s, q, "NO")
    ensures Keyword(s, q, "NO") == q
  {
  }

  lemma NoNo(s: string, a: nat, o: SeqOption, m: nat, q: nat)
    requires Proper(o) && Placed(s, a, o, m) && a <= q < m
    requires o.kind.MinValue? || o.kind.MaxValue? || o.kind.Cycle?
    ensures m <= |s| && !MatchesAt(s, q, "NO")
  {
    PlacedParts(s, a, o, m);
    WithoutO(o.kind);
    MatchHas(s, q, "NO", 1);
    var w := Words(o.kind);
    var b := a + |w|;
    hide Words, MatchesAt;
    if q + 1 < b {
      assert s[q + 1] == s[a..b][q + 1 - a];
    } else if q + 1 < m {
      NumberChars(o.value);
      assert s[q + 1] == s[b..m][q + 1 - b];
    }
  }

  // ---- Walking through a list ----

  /** What the n-th pattern should find: the value of the first option of its kind. */
  function ValueIn(os: seq<SeqOption>, k: OptionKind): Option<string> {
    if os == [] then None else if os[0].kind == k then Some(ValueOf(os[0])) else ValueIn(os[1..], k)
  }

  /** The pattern is the only one of its family for these options, or one of the
      first three, for the options with NO. */
  predicate Fits(os: seq<SeqOption>, n: nat)
    requires n < 12
  {
    forall o :: o in os ==> FamilyOf(o.kind) != FamilyOf(SPECS[n]) || o.kind == SPECS[n] || n < 3
  }

  lemma {:induction false} NothingFound(s: string, i: nat, m: nat, n: nat)
    requires i <= m <= |s| && n < 12 && forall q :: i <= q < m ==> Captured(s, q, n).None?
    ensures Found(s, i, n) == Found(s, m, n)
    decreases m - i
  {
    hide Captured;
    if i < m {
      assert Captured(s, i, n).None?;
      NothingFound(s, i + 1, m, n);
    }
  }

  lemma FoundHere(s: string, i: nat, n: nat)
    requires i <= |s| && n < 14 && Captured(s, i, n).Some?
    ensures Found(s, i, n) == Captured(s, i, n)
  {
    hide Captured;
  }

  lemma NegativeKinds(o: SeqOption, n: nat)
    requires n < 3 && FamilyOf(o.kind) == FamilyOf(SPECS[n]) && o.kind != SPECS[n]
    ensures o.kind.MinValue? || o.kind.MaxValue? || o.kind.Cycle?
  {
  }

  lemma SpecOfSpec(n: nat)
    requires n < 12
    ensures SpecOf(SPECS[n]) == n
  {
  }

  /** One option: the pattern finds it, or goes on behind it. */
  lemma FoundAtOption(s: string, a: nat, o: SeqOption, m: nat, n: nat)
    requires Proper(o) && Placed(s, a, o, m) && n < 12 && Fits([o], n)
    ensures Found(s, a, n) == if o.kind == SPECS[n] then Some(ValueOf(o)) else Found(s, m, n)
  {
    hide Captured, Proper, Found, ValueOf;
    if o.kind == SPECS[n] {
      OwnCaptured(s, a, o, m);
      SpecOfSpec(n);
      FoundHere(s, a, n);
    } else {
      forall q | a <= q < m ensures Captured(s, q, n).None? {
        if FamilyOf(o.kind) != FamilyOf(SPECS[n]) {
          OtherUncaptured(s, a, o, m, q, n);
        } else {
          assert o in [o];
          NegativeKinds(o, n);
          NotNegated(s, a, o, m, q, n);
        }
      }
      NothingFound(s, a, m, n);
    }
  }

  lemma EndUncaptured(s: string, n: nat)
    requires n < 12
    ensures Found(s, |s|, n) == None
  {
    if Captured(s, |s|, n).Some? { CapturedSeen(s, |s|, n); }
  }

  /** What a pattern finds in the text of a list. */
  lemma {:induction false} FoundSpelled(s: string, i: nat, os: seq<SeqOption>, n: nat)
    requires i <= |s| && s[i..] == Spelled(os) && AllProper(os) && n < 12 && Fits(os, n)
    ensures Found(s, i, n) == ValueIn(os, SPECS[n])
    decreases os, 1
  {
    hide Spelling, Found, Proper, FamilyOf, ValueOf;
    if os == [] {
      EndUncaptured(s, n);
    } else {
      var t := Spelling(os[0]) + Spelled(os[1..]);
      assert Spelled(os) == " " + t by { AssociateThree(" ", Spelling(os[0]), Spelled(os[1..])); }
      assert s[i] == s[i..][0] == ' ' && s[i + 1..] == s[i..][1..] == t;
      BlankUncaptured(s, i, n);
      OneStep(s, i, n);
      FoundFirst(s, i + 1, os, n);
    }
  }

  lemma OneStep(s: string, i: nat, n: nat)
    requires i < |s| && n < 12 && Captured(s, i, n).None?
    ensures Found(s, i, n) == Found(s, i + 1, n)
  {
    hide Captured;
  }

  lemma {:induction false} FoundFirst(s: string, a: nat, os: seq<SeqOption>, n: nat)
    requires os != [] && AllProper(os) && a <= |s| && s[a..] == Spelling(os[0]) + Spelled(os[1..]) && (a > 0 ==> s[a - 1] == ' ')
    requires n < 12 && Fits(os, n)
    ensures Found(s, a, n) == ValueIn(os, SPECS[n])
    decreases os, 0
  {
    hide Spelling, Found, Proper, FamilyOf, ValueOf, Placed;
    FirstPlaced(s, a, os);
    var m := a + |Spelling(os[0])|;
    PlacedBound(s, a, os[0], m);
    FoundAtOption(s, a, os[0], m, n);
    if os[0].kind != SPECS[n] { FoundSpelled(s, m, os[1..], n); }
  }

  lemma PlacedBound(s: string, a: nat, o: SeqOption, m: nat)
    requires Placed(s, a, o, m)
    ensures a < m <= |s| && Ended(s, m)
  {
  }

  // ---- The options of a whole body ----

  /** No two options of the list are of one family. */
  ghost predicate Unrepeated(os: seq<SeqOption>) { forall f :: !Repeats(os, f) }

  lemma {:induction false} InFamily(os: seq<SeqOption>, o: SeqOption)
    requires o in os
    ensures o in OfFamily(os, FamilyOf(o.kind))
  {
    hide FamilyOf;
    if o != os[0] { InFamily(os[1..], o); }
  }

  lemma SameKind(os: seq<SeqOption>, a: SeqOption, b: SeqOption)
    requires Unrepeated(os) && a in os && b in os && FamilyOf(a.kind) == FamilyOf(b.kind)
    ensures a == b
  {
    hide FamilyOf, OfFamily;
    InFamily(os, a);
    InFamily(os, b);
    assert !Repeats(os, FamilyOf(a.kind));
  }

  /** The first option of the kind. */
  lemma {:induction false} ValueInHas(os: seq<SeqOption>, k: OptionKind)
    ensures ValueIn(os, k).Some? <==> exists o :: o in os && o.kind == k
    ensures forall o :: Unrepeated(os) && o in os && o.kind == k ==> ValueIn(os, k) == Some(ValueOf(o))
    decreases os
  {
    hide ValueOf, Repeats;
    if os != [] {
      ValueInHas(os[1..], k);
      forall o | Unrepeated(os) && o in os && o.kind == k ensures ValueIn(os, k) == Some(ValueOf(o)) {
        if os[0].kind == k {
          SameKind(os, o, os[0]);
        } else {
          TailUnrepeated(os);
        }
      }
    }
  }

  lemma TailUnrepeated(os: seq<SeqOption>)
    requires os != [] && Unrepeated(os)
    ensures Unrepeated(os[1..])
  {
    hide FamilyOf;
    forall f ensures !Repeats(os[1..], f) { assert !Repeats(os, f); }
  }

  lemma FoundInBody(os: seq<SeqOption>, n: nat)
    requires AllProper(os) && n < 12 && Fits(os, n)
    ensures Found(BodyText(os), 0, n) == ValueIn(os, SPECS[n])
  {
    hide Found, Proper, FamilyOf, ValueOf, Spelling;
    var s := BodyText(os);
    if os == [] {
      EndUncaptured(s, n);
    } else {
      assert s[0..] == s;
      FoundFirst(s, 0, os, n);
    }
  }

  lemma FirstThree(n: nat, j: nat)
    requires n < 12 && j < n && FamilyOf(SPECS[j]) == FamilyOf(SPECS[n])
    ensures j < 3 <= n
  {
  }

  lemma NegatedSpec(k: OptionKind, n: nat)
    requires 3 <= n < 12 && FamilyOf(k) == FamilyOf(SPECS[n]) && k != SPECS[n]
    ensures SpecOf(k) < 3
  {
  }

  /** A pattern is chosen exactly when the list has an option of its kind. */
  lemma ChosenInBody(os: seq<SeqOption>, n: nat)
    requires AllProper(os) && Unrepeated(os) && n < 12
    ensures Chosen(BodyText(os), n) <==> ValueIn(os, SPECS[n]).Some?
    ensures Chosen(BodyText(os), n) ==> Found(BodyText(os), 0, n) == ValueIn(os, SPECS[n])
  {
    hide Found, Proper, FamilyOf, ValueOf, Repeats, BodyText;
    var s, k := BodyText(os), SPECS[n];
    ValueInHas(os, k);
    if Fits(os, n) {
      FoundInBody(os, n);
      forall j | 0 <= j < n && FamilyOf(SPECS[j]) == FamilyOf(SPECS[n]) && ValueIn(os, k).Some? ensures Found(s, 0, j).None? {
        NoOther(os, n, j);
      }
    } else {
      var o :| o in os && FamilyOf(o.kind) == FamilyOf(k) && o.kind != k && n >= 3;
      NegatedSpec(o.kind, n);
      var j := SpecOf(o.kind);
      ValueInHas(os, o.kind);
      FoundInBody(os, j);
      if ValueIn(os, k).Some? {
        var b :| b in os && b.kind == k;
        SameKind(os, o, b);
      }
    }
  }

  lemma NoOther(os: seq<SeqOption>, n: nat, j: nat)
    requires AllProper(os) && Unrepeated(os) && n < 12 && j < n && FamilyOf(SPECS[j]) == FamilyOf(SPECS[n])
    requires ValueIn(os, SPECS[n]).Some?
    ensures Found(BodyText(os), 0, j).None?
  {
    hide Found, Proper, ValueOf, Repeats, BodyText;
    FirstThree(n, j);
    FoundInBody(os, j);
    ValueInHas(os, SPECS[n]);
    ValueInHas(os, SPECS[j]);
    SpecOfSpec(n);
    SpecOfSpec(j);
    hide FamilyOf;
    var b :| b in os && b.kind == SPECS[n];
    if ValueIn(os, SPECS[j]).Some? {
      var a :| a in os && a.kind == SPECS[j];
      SameKind(os, a, b);
    }
  }

  /** The options of a list in the order of the first n patterns. */
  function InOrder(os: seq<SeqOption>, n: nat): seq<SeqOption>
    requires n <= 12
  {
    if n == 0 then []
    else
      InOrder(os, n - 1)
      + (match ValueIn(os, SPECS[n - 1]) case Some(v) => [SeqOption(SPECS[n - 1], v)] case None => [])
  }

  lemma {:induction false} PickedInOrder(os: seq<SeqOption>, n: nat)
    requires AllProper(os) && Unrepeated(os) && n <= 12
    ensures Picked(BodyText(os), n) == InOrder(os, n)
  {
    hide Found, Proper, ValueIn, Repeats, BodyText, Chosen;
    if n > 0 {
      PickedInOrder(os, n - 1);
      ChosenInBody(os, n - 1);
    }
  }

  /** Each option of the list is in the ordered one, and nothing else is. */
  lemma {:induction false} InOrderHas(os: seq<SeqOption>, n: nat, o: SeqOption)
    requires n <= 12
    ensures o in InOrder(os, n) <==> ValueIn(os, o.kind) == Some(o.value) && exists j :: 0 <= j < n && SPECS[j] == o.kind
  {
    hide ValueIn;
    if n > 0 { InOrderHas(os, n - 1, o); }
  }

  lemma EffectiveAppend(a: seq<SeqOption>, b: seq<SeqOption>)
    ensures Effective(a + b) == Effective(a) + Effective(b)
  {
    if a == [] {
      assert a + b == b;
    } else {
      assert (a + b)[1..] == a[1..] + b;
      EffectiveAppend(a[1..], b);
    }
  }

  lemma {:induction false} InOrderEffective(os: seq<SeqOption>, n: nat)
    requires n <= 12
    ensures Effective(InOrder(os, n)) == InOrder(os, n)
  {
    hide ValueIn;
    if n > 0 {
      InOrderEffective(os, n - 1);
      var last := match ValueIn(os, SPECS[n - 1]) case Some(v) => [SeqOption(SPECS[n - 1], v)] case None => [];
      EffectiveAppend(InOrder(os, n - 1), last);
      NotRestartSpec(n - 1);
      if last != [] { assert last[1..] == []; }
    }
  }

  lemma NotRestartSpec(n: nat)
    requires n < 12
    ensures !SPECS[n].Restart?
  {
  }

  /** The last two patterns pick nothing but RESTART. */
  lemma OnlyRestartBehind(s: string)
    ensures Effective(Picked(s, 14)) == Effective(Picked(s, 12))
    ensures forall o :: o in Picked(s, 14) ==> o in Picked(s, 12) || o.kind.Restart?
  {
    hide Found;
    var a := if Chosen(s, 12) then [SeqOption(SPECS[12], Found(s, 0, 12).value)] else [];
    var b := if Chosen(s, 13) then [SeqOption(SPECS[13], Found(s, 0, 13).value)] else [];
    assert Picked(s, 13) == Picked(s, 12) + a && Picked(s, 14) == Picked(s, 13) + b;
    EffectiveAppend(Picked(s, 12), a);
    EffectiveAppend(Picked(s, 13), b);
    if a != [] { assert a[1..] == []; }
    if b != [] { assert b[1..] == []; }
  }

  lemma BodyAsText(os: seq<SeqOption>)
    requires AllProper(os) && !HasSuffix(BodyText(os), ";")
    ensures OptionsOf(BodyText(os)) == Picked(BodyText(os), 14)
  {
    SpelledIsBody(os);
    hide Picked, TrimSpace;
  }

  /** Reading the text of a list without repeats gives its options in the order of
      the patterns, but for RESTART. */
  lemma OptionsReadBack(os: seq<SeqOption>)
    requires AllProper(os) && Unrepeated(os) && !HasSuffix(BodyText(os), ";")
    ensures Effective(OptionsOf(BodyText(os))) == InOrder(os, 12)
  {
    hide Picked, BodyText, Proper, Repeats, HasSuffix;
    BodyAsText(os);
    OnlyRestartBehind(BodyText(os));
    PickedInOrder(os, 12);
    InOrderEffective(os, 12);
  }

  lemma ReadQuiet(os: seq<SeqOption>, o: SeqOption)
    requires AllProper(os) && Unrepeated(os) && !HasSuffix(BodyText(os), ";") && o in OptionsOf(BodyText(os))
    ensures QuietOption(o)
  {
    hide Picked, BodyText, Repeats, HasSuffix, Quiet, Trimmed;
    BodyAsText(os);
    OnlyRestartBehind(BodyText(os));
    PickedInOrder(os, 12);
    InOrderHas(os, 12, o);
    ValueInHas(os, o.kind);
    if !o.kind.Restart? {
      var p :| p in os && p.kind == o.kind;
    }
  }

  /** ALTER SEQUENCE with the text of a list: the body keeps its other options in
      their order, and those of the list follow in the order of the patterns. */
  lemma OptionsTransfer(body: seq<SeqOption>, os: seq<SeqOption>)
    requires AllProper(body) && AllProper(os) && Unrepeated(os) && !HasSuffix(BodyText(os), ";")
    ensures var opts := OptionsOf(BodyText(os));
            ApplyOptions(BodyText(body), opts) == BodyText(Untouched(body, opts) + InOrder(os, 12))
  {
    hide OptionsOf, BodyText, Proper, Repeats, HasSuffix, QuietOption, ApplyOptions, Untouched, Effective, InOrder;
    forall o | o in OptionsOf(BodyText(os)) ensures QuietOption(o) { ReadQuiet(os, o); }
    ParsedOptionsApplied(body, BodyText(os));
    OptionsReadBack(os);
  }
}
