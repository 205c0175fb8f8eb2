/** Where options stand in a sequence body: the patterns see an option from its
    first character to its last, and nothing else inside it. */
module OptionPlaces {
  import opened Text
  import opened Ast
  import opened Patterns
  import opened SequenceBody
  import ColumnPrint
  import ColumnList

  predicate Number(v: string) { v != "" && NumberEnd(v, 0) == |v| }

  /** Nothing in the name is taken for an option, or for the start of one. */
  predicate Quiet(v: string) {
    && (forall p :: 0 <= p <= |v| ==>
        !MatchesAt(v, p, "MINVALUE") && !MatchesAt(v, p, "MAXVALUE") && WholeEnd(v, p, "CYCLE") == p)
    && (|v| >= 2 ==> !MatchesAt(v, |v| - 2, "NO") && !(MatchesAt(v, |v| - 2, "AS") && Boundary(v, |v| - 2)))
  }

  /** An option as the parser makes it, with a name that is quiet. */
  predicate Proper(o: SeqOption) {
    match o.kind
    case IncrementBy | MinValue | MaxValue | StartWith | Cache => Number(o.value)
    case NoMinValue | NoMaxValue | NoCycle | Cycle => true
    case OwnedBy | As => Token(o.value) && Trimmed(o.value) && Quiet(o.value)
    case SetLogged => Lower(o.value) == "logged" || Lower(o.value) == "unlogged"
    case Restart => false
  }

  // ---- An option at its place ----

  lemma ProperNotRestart(o: SeqOption)
    requires Proper(o)
    ensures !o.kind.Restart?
  {
  }

  /** What may follow an option: nothing, or a blank and the start of another one. */
  predicate Ended(s: string, m: nat) {
    m <= |s| && (m < |s| ==> s[m] == ' ' && m + 1 < |s| && s[m + 1] in "INMSCOA")
  }

  /** The option stands in s from a to m. */
  predicate Placed(s: string, a: nat, o: SeqOption, m: nat) {
    && a < m && Ended(s, m) && s[a..m] == Spelling(o)
    && (a > 0 ==> s[a - 1] == ' ')
  }

  lemma Heads(c: char)
    requires c in "INMSCOA"
    ensures !IsBlank(c) && !IsDigit(c) && c != '-' && LowerChar(c) !in "bwlu" && IsWordChar(c)
  {
  }

  /** Behind an option no blank is skipped but one, and no number or word of its own follows. */
  lemma AfterEnd(s: string, m: nat)
    requires Ended(s, m)
    ensures SkipSpaces(s, m) == if m < |s| then m + 1 else m
    ensures m < |s| ==> NumberEnd(s, m + 1) == m + 1 && !IsBlank(s[m + 1]) && LowerChar(s[m + 1]) !in "bwlu"
    ensures m < |s| ==> !IsWordChar(s[m]) && !IsDigit(s[m]) && IsBlank(s[m])
  {
    if m < |s| {
      Heads(s[m + 1]);
      ColumnPrint.OneBlank(s, m);
    }
  }

  lemma {:induction false} DigitsTo(s: string, i: nat, m: nat)
    requires i <= m <= |s| && (forall k :: i <= k < m ==> IsDigit(s[k])) && (m < |s| ==> !IsDigit(s[m]))
    ensures DigitsEnd(s, i) == m
    decreases m - i
  {
    if i < m { DigitsTo(s, i + 1, m); }
  }

  lemma {:induction false} DigitsAre(s: string, i: nat)
    requires i <= |s|
    ensures forall k :: i <= k < DigitsEnd(s, i) ==> IsDigit(s[k])
    decreases |s| - i
  {
    if i < |s| && IsDigit(s[i]) { DigitsAre(s, i + 1); }
  }

  lemma NumberChars(v: string)
    requires Number(v)
    ensures var d := if v[0] == '-' then 1 else 0; d < |v| && forall k :: d <= k < |v| ==> IsDigit(v[k])
  {
    var d := if v[0] == '-' then 1 else 0;
    DigitsAre(v, d);
  }

  lemma NumberPlaced(s: string, k: nat, m: nat)
    requires k <= m && Ended(s, m) && Number(s[k..m])
    ensures NumberEnd(s, k) == m > k && !IsBlank(s[k])
  {
    var v := s[k..m];
    NumberChars(v);
    var d := if v[0] == '-' then 1 else 0;
    assert v[0] == s[k];
    forall x | k + d <= x < m ensures IsDigit(s[x]) { assert s[x] == v[x - k]; }
    if m < |s| { AfterEnd(s, m); }
    DigitsTo(s, k + d, m);
  }

  /** The words of the option and its value, at their places. */
  lemma PlacedParts(s: string, a: nat, o: SeqOption, m: nat)
    requires Placed(s, a, o, m)
    ensures var w := Words(o.kind);
            var b := a + |w|;
            && b <= m && s[a..b] == w && s[b..m] == (if IsFlag(o.kind) then "" else o.value)
  {
    var w := Words(o.kind);
    var b := a + |w|;
    hide Words, IsFlag;
    SliceOfSlice(s, a, m, a, b);
    SliceOfSlice(s, a, m, b, m);
  }

  lemma SubWord(s: string, a: nat, w: string, p: nat, q: nat)
    requires p <= q <= |w| && a + |w| <= |s| && s[a..a + |w|] == w
    ensures s[a + p..a + q] == w[p..q] && (q < |w| ==> s[a + q] == w[q])
  {
    SliceOfSlice(s, a, a + |w|, a + p, a + q);
    if q < |w| { assert s[a + q] == s[a..a + |w|][q]; }
  }

  /** The first word of w, with the blank behind it. */
  lemma FirstWord(s: string, a: nat, w: string, n: nat)
    requires n < |w| && a + |w| <= |s| && s[a..a + |w|] == w && w[n] == ' '
    requires a + n + 1 < |s| && !IsBlank(s[a + n + 1])
    ensures Keyword(s, a, w[..n]) == a + n + 1
  {
    SubWord(s, a, w, 0, n);
    assert w[0..n] == w[..n];
    KeywordAt(s, a, w[..n]);
  }

  /** Two words, each with a blank behind it. */
  lemma TwoFirstWords(s: string, a: nat, w: string, n: nat)
    requires n + 2 < |w| && a + |w| <= |s| && s[a..a + |w|] == w && w[n] == ' ' && !IsBlank(w[n + 1]) && w[|w| - 1] == ' '
    requires a + |w| < |s| && !IsBlank(s[a + |w|])
    ensures Keyword(s, a, w[..n]) == a + n + 1 && Keyword(s, a + n + 1, w[n + 1..|w| - 1]) == a + |w|
  {
    SubWord(s, a, w, 0, n + 1);
    FirstWord(s, a, w, n);
    SubWord(s, a, w, n + 1, |w| - 1);
    KeywordAt(s, a + n + 1, w[n + 1..|w| - 1]);
  }

  lemma VisibleHeads()
    ensures !IsBlank('M') && !IsBlank('C') && !IsBlank('B') && !IsBlank('W')
  {
  }

  lemma IncrementPlaced(s: string, a: nat, m: nat)
    requires a + 13 <= m && Ended(s, m) && s[a..a + 13] == "INCREMENT BY " && Number(s[a + 13..m])
    ensures OptionEnd(s, a, IncrementF) == m
  {
    hide NumberEnd, Keyword, Number, IsBlank;
    var w := "INCREMENT BY ";
    assert w[..9] == "INCREMENT" && w[10..12] == "BY" && w[10] == 'B';
    VisibleHeads();
    NumberPlaced(s, a + 13, m);
    TwoFirstWords(s, a, w, 9);
  }

  lemma NoFiller(s: string, k: nat)
    requires k < |s| && (IsDigit(s[k]) || s[k] == '-')
    ensures !MatchesAt(s, k, "BY") && !MatchesAt(s, k, "WITH")
  {
    MatchHas(s, k, "BY", 0);
    MatchHas(s, k, "WITH", 0);
  }

  lemma NumberHead(s: string, k: nat, m: nat)
    requires k <= m <= |s| && Number(s[k..m])
    ensures k < |s| && (IsDigit(s[k]) || s[k] == '-')
  {
    NumberChars(s[k..m]);
    assert s[k] == s[k..m][0];
  }

  /** INCREMENT without BY is seen as well. */
  lemma ShortIncrement(s: string, a: nat, m: nat)
    requires a + 10 <= m && Ended(s, m) && s[a..a + 10] == "INCREMENT " && Number(s[a + 10..m])
    ensures OptionEnd(s, a, IncrementF) == m
  {
    hide NumberEnd, Number, IsBlank, MatchesAt, SkipSpaces;
    var w := "INCREMENT ";
    assert w[..9] == "INCREMENT" && w[9] == ' ';
    NumberPlaced(s, a + 10, m);
    NumberHead(s, a + 10, m);
    NoFiller(s, a + 10);
    FirstWord(s, a, w, 9);
  }

  /** START without WITH is seen as well. */
  lemma ShortStart(s: string, a: nat, m: nat)
    requires a + 6 <= m && Ended(s, m) && s[a..a + 6] == "START " && Number(s[a + 6..m])
    ensures OptionEnd(s, a, StartF) == m
  {
    hide NumberEnd, Number, IsBlank, MatchesAt;
    var w := "START ";
    assert w[0..5] == "START" && w[5] == ' ';
    NumberPlaced(s, a + 6, m);
    NumberHead(s, a + 6, m);
    NoFiller(s, a + 6);
    SubWord(s, a, w, 0, 5);
    ColumnPrint.MatchesItself(s, a, "START");
    ColumnPrint.OneBlank(s, a + 5);
  }

  lemma OwnCache(s: string, a: nat, o: SeqOption, m: nat)
    requires Proper(o) && Placed(s, a, o, m) && o.kind.Cache?
    ensures OptionEnd(s, a, CacheF) == m
  {
    var w := "CACHE ";
    PlacedParts(s, a, o, m);
    assert w[..5] == "CACHE";
    hide NumberEnd, Keyword;
    NumberPlaced(s, a + 6, m);
    FirstWord(s, a, w, 5);
  }

  lemma StartPlaced(s: string, a: nat, m: nat)
    requires a + 11 <= m && Ended(s, m) && s[a..a + 11] == "START WITH " && Number(s[a + 11..m])
    ensures OptionEnd(s, a, StartF) == m
  {
    hide NumberEnd, Number, MatchesAt, IsBlank;
    var w := "START WITH ";
    assert w[0..5] == "START" && w[6..10] == "WITH" && w[5] == ' ' && w[6] == 'W' && w[10] == ' ';
    VisibleHeads();
    NumberPlaced(s, a + 11, m);
    SubWord(s, a, w, 0, 5);
    SubWord(s, a, w, 6, 10);
    SubWord(s, a, w, 0, 6);
    ColumnPrint.MatchesItself(s, a, "START");
    ColumnPrint.MatchesItself(s, a + 6, "WITH");
    ColumnPrint.OneBlank(s, a + 5);
    ColumnPrint.OneBlank(s, a + 10);
  }

  /** MINVALUE or MAXVALUE with a number. */
  lemma OwnBound(s: string, a: nat, m: nat, w: string)
    requires a + 9 <= m && Ended(s, m) && s[a..a + 9] == w + " " && |w| == 8 && w[0] == 'M' && Number(s[a + 9..m])
    ensures BoundEnd(s, a, w) == m
  {
    var t := w + " ";
    assert t[0..8] == w && t[8] == ' ' && t[0] == 'M';
    SubWord(s, a, t, 0, 8);
    SubWord(s, a, t, 0, 0);
    MatchHas(s, a, "NO", 0);
    ColumnPrint.MatchesItself(s, a, w);
    hide MatchesAt, NumberEnd;
    NumberPlaced(s, a + 9, m);
    ColumnPrint.OneBlank(s, a + 8);
  }

  /** NO MINVALUE or NO MAXVALUE. */
  lemma OwnNoBound(s: string, a: nat, m: nat, w: string)
    requires m == a + 11 && Ended(s, m) && s[a..m] == "NO " + w && |w| == 8 && w[0] == 'M'
    ensures BoundEnd(s, a, w) == m
  {
    hide MatchesAt, NumberEnd, Keyword, Ended, IsBlank;
    var t := "NO " + w;
    assert t[..2] == "NO" && t[2] == ' ' && t[3..11] == w && t[3] == 'M';
    AfterEnd(s, m);
    SubWord(s, a, t, 3, 11);
    SubWord(s, a, t, 0, 3);
    VisibleHeads();
    FirstWord(s, a, t, 2);
    ColumnPrint.MatchesItself(s, a + 3, w);
  }

  lemma BoundKinds(s: string, a: nat, o: SeqOption, m: nat)
    requires Proper(o) && Placed(s, a, o, m) && (o.kind.MinValue? || o.kind.NoMinValue? || o.kind.MaxValue? || o.kind.NoMaxValue?)
    ensures OptionEnd(s, a, FamilyOf(o.kind)) == m
  {
    PlacedParts(s, a, o, m);
    hide BoundEnd, Number;
    match o.kind
    case MinValue => assert "MINVALUE " == "MINVALUE" + " "; OwnBound(s, a, m, "MINVALUE");
    case MaxValue => assert "MAXVALUE " == "MAXVALUE" + " "; OwnBound(s, a, m, "MAXVALUE");
    case NoMinValue => assert "NO MINVALUE" == "NO " + "MINVALUE"; OwnNoBound(s, a, m, "MINVALUE");
    case NoMaxValue => assert "NO MAXVALUE" == "NO " + "MAXVALUE"; OwnNoBound(s, a, m, "MAXVALUE");
  }

  /** CYCLE at b, where an option ends. */
  lemma CyclePlaced(s: string, b: nat, m: nat)
    requires m == b + 5 && Ended(s, m) && s[b..m] == "CYCLE"
    ensures WholeEnd(s, b, "CYCLE") == m && s[b] == 'C' && Keyword(s, b, "NO") == b
  {
    AfterEnd(s, m);
    assert s[b] == s[b..m][0] == 'C' && s[m - 1] == s[b..m][4] == 'E';
    ColumnPrint.MatchesItself(s, b, "CYCLE");
    MatchHas(s, b, "NO", 0);
    hide MatchesAt;
  }

  lemma OwnCycle(s: string, a: nat, o: SeqOption, m: nat)
    requires Proper(o) && Placed(s, a, o, m) && (o.kind.Cycle? || o.kind.NoCycle?)
    ensures OptionEnd(s, a, CycleF) == m
  {
    hide WholeEnd, Keyword, IsBlank, Proper;
    PlacedParts(s, a, o, m);
    if o.kind.NoCycle? {
      NoCyclePlaced(s, a, m);
    } else {
      CyclePlaced(s, a, m);
    }
  }

  lemma NoCyclePlaced(s: string, a: nat, m: nat)
    requires m == a + 8 && Ended(s, m) && s[a..m] == "NO CYCLE"
    ensures OptionEnd(s, a, CycleF) == m
  {
    hide WholeEnd, Keyword, IsBlank;
    var t := "NO CYCLE";
    assert t[..2] == "NO" && t[2] == ' ' && t[3..8] == "CYCLE";
    SubWord(s, a, t, 3, 8);
    VisibleHeads();
    CyclePlaced(s, a + 3, m);
    FirstWord(s, a, t, 2);
  }

  lemma OwnedPlaced(s: string, a: nat, m: nat)
    requires a + 9 <= m && Ended(s, m) && s[a..a + 9] == "OWNED BY " && Token(s[a + 9..m])
    ensures OptionEnd(s, a, OwnedF) == m
  {
    hide Keyword, BlankEnd, Token, IsBlank;
    var w := "OWNED BY ";
    assert w[..5] == "OWNED" && w[6..8] == "BY" && w[6] == 'B';
    VisibleHeads();
    NamePlaced(s, a + 9, m);
    TwoFirstWords(s, a, w, 5);
  }

  lemma NamePlaced(s: string, k: nat, m: nat)
    requires k <= m && Ended(s, m) && Token(s[k..m])
    ensures BlankEnd(s, k) == m > k && !IsBlank(s[k])
  {
    var v := s[k..m];
    forall x | k <= x < m ensures !IsBlank(s[x]) { assert s[x] == v[x - k]; }
    ColumnList.BlankRun(s, k, m);
  }

  lemma OwnAs(s: string, a: nat, o: SeqOption, m: nat)
    requires Proper(o) && Placed(s, a, o, m) && o.kind.As?
    ensures OptionEnd(s, a, AsF) == m
  {
    var w := "AS ";
    PlacedParts(s, a, o, m);
    assert w[..2] == "AS";
    hide Keyword;
    NamePlaced(s, a + 3, m);
    FirstWord(s, a, w, 2);
    SubWord(s, a, w, 0, 0);
    assert Boundary(s, a);
  }

  lemma OwnLogged(s: string, a: nat, o: SeqOption, m: nat)
    requires Proper(o) && Placed(s, a, o, m) && o.kind.SetLogged?
    ensures OptionEnd(s, a, LoggedF) == m
  {
    hide OptionEnd;
    PlacedParts(s, a, o, m);
    LoggedPlaced(s, a, m, o.value);
  }

  lemma LoggedPlaced(s: string, a: nat, m: nat, v: string)
    requires a + 4 <= m && Ended(s, m) && s[a..a + 4] == "SET " && s[a + 4..m] == v
    requires Lower(v) == "logged" || Lower(v) == "unlogged"
    ensures OptionEnd(s, a, LoggedF) == m
  {
    hide Keyword, WholeEnd, Ended, IsBlank;
    var w := "SET ";
    assert w[..3] == "SET" && w[3] == ' ';
    LoggedWord(s, a + 4, m, v);
    FirstWord(s, a, w, 3);
  }

  lemma LoggedWord(s: string, k: nat, m: nat, v: string)
    requires k <= m && Ended(s, m) && s[k..m] == v && (Lower(v) == "logged" || Lower(v) == "unlogged")
    ensures k < m && !IsBlank(s[k])
    ensures (WholeEnd(s, k, "LOGGED") == m || (WholeEnd(s, k, "LOGGED") == k && WholeEnd(s, k, "UNLOGGED") == m))
  {
    AfterEnd(s, m);
    LoggedLower();
    assert |Lower(v)| == |v|;
    assert s[k] == v[0] && s[m - 1] == v[|v| - 1];
    assert Lower(v)[0] == LowerChar(v[0]) && Lower(v)[|v| - 1] == LowerChar(v[|v| - 1]);
    MatchHas(s, k, "LOGGED", 0);
  }

  lemma LoggedLower()
    ensures Lower("LOGGED") == "logged" && Lower("UNLOGGED") == "unlogged"
  {
  }

  /** An option is seen from its first character to its last. */
  lemma OwnEnd(s: string, a: nat, o: SeqOption, m: nat)
    requires Proper(o) && Placed(s, a, o, m)
    ensures OptionEnd(s, a, FamilyOf(o.kind)) == m
  {
    PlacedParts(s, a, o, m);
    hide Placed, OptionEnd, Number, Token, Quiet, Ended;
    match o.kind
    case IncrementBy => IncrementPlaced(s, a, m);
    case MinValue | NoMinValue | MaxValue | NoMaxValue => BoundKinds(s, a, o, m);
    case StartWith => StartPlaced(s, a, m);
    case Cache => OwnCache(s, a, o, m);
    case Cycle | NoCycle => OwnCycle(s, a, o, m);
    case OwnedBy => OwnedPlaced(s, a, m);
    case As => OwnAs(s, a, o, m);
    case SetLogged => OwnLogged(s, a, o, m);
    case Restart =>
  }

  // ---- No other option inside ----

  /** The word an option of the family must have. */
  function Head(f: Family): string {
    match f
    case IncrementF => "INCREMENT"
    case MinF => "MINVALUE"
    case MaxF => "MAXVALUE"
    case StartF => "START"
    case CacheF => "CACHE"
    case CycleF => "CYCLE"
    case OwnedF => "OWNED"
    case AsF => "AS"
    case LoggedF => "SET"
    case RestartF => "RESTART"
  }

  predicate Negates(f: Family) { f.MinF? || f.MaxF? || f.CycleF? }

  /** An option starts with its word, or with NO before it. */
  lemma HeadNeeded(s: string, q: nat, f: Family)
    requires q <= |s| && OptionEnd(s, q, f) > q
    ensures !f.RestartF?
    ensures var h := Keyword(s, q, "NO");
            MatchesAt(s, q, Head(f)) || (Negates(f) && h > q && MatchesAt(s, h, Head(f)) && OptionEnd(s, h, f) > h)
  {
    hide MatchesAt, SkipSpaces, NumberEnd, Boundary, BlankEnd;
    if Negates(f) {
      var h := Keyword(s, q, "NO");
      HeadNotNo(s, h, Head(f));
    }
  }

  lemma HeadNotNo(s: string, h: nat, w: string)
    requires h <= |s| && w in {"MINVALUE", "MAXVALUE", "CYCLE"}
    ensures MatchesAt(s, h, w) ==> Keyword(s, h, "NO") == h
  {
    MatchHas(s, h, w, 0);
    MatchHas(s, h, "NO", 0);
    hide MatchesAt;
  }

  /** The letters of an option's words. */
  function Letters(f: Family): set<char> {
    match f
    case IncrementF => {' ', 'B', 'C', 'E', 'I', 'M', 'N', 'R', 'T', 'Y'}
    case MinF => {' ', 'A', 'E', 'I', 'L', 'M', 'N', 'O', 'U', 'V'}
    case MaxF => {' ', 'A', 'E', 'L', 'M', 'N', 'O', 'U', 'V', 'X'}
    case StartF => {' ', 'A', 'H', 'I', 'R', 'S', 'T', 'W'}
    case CacheF => {' ', 'A', 'C', 'E', 'H'}
    case CycleF => {' ', 'C', 'E', 'L', 'N', 'O', 'Y'}
    case OwnedF => {' ', 'B', 'D', 'E', 'N', 'O', 'W', 'Y'}
    case AsF => {' ', 'A', 'S'}
    case LoggedF => {' ', 'E', 'S', 'T'}
    case RestartF => {}
  }

  predicate Spells(k: OptionKind) {
    forall i :: 0 <= i < |Words(k)| ==> Words(k)[i] in Letters(FamilyOf(k))
  }

  lemma SpellsOne(k: OptionKind)
    requires k in {IncrementBy, StartWith, Cache, OwnedBy, As, SetLogged}
    ensures Spells(k)
  {
  }

  lemma SpellsTwo(k: OptionKind)
    requires k in {MinValue, NoMinValue, MaxValue, NoMaxValue, Cycle, NoCycle}
    ensures Spells(k)
  {
  }

  /** A letter of f's word that the words of g do not have. */
  function Missing(f: Family, g: Family): (i: nat)
    ensures i < |Head(f)|
  {
    match f
    case IncrementF => if g == StartF then 1 else 3
    case MinF => if g == MaxF then 1 else 3
    case MaxF => 2
    case StartF => if g == AsF then 1 else if g == LoggedF then 2 else 0
    case CacheF => if g == StartF then 0 else 3
    case CycleF => if g == IncrementF then 3 else if g == OwnedF then 0 else 1
    case OwnedF => if g == StartF then 0 else 1
    case AsF => if g in {MinF, MaxF, CacheF} then 1 else 0
    case LoggedF => if g == StartF || g == AsF then 1 else 0
    case RestartF => 0
  }

  lemma LettersLack(f: Family, g: Family)
    requires f != g && !f.RestartF? && !g.RestartF? && !(f.AsF? && g.StartF?)
    ensures var c := Head(f)[Missing(f, g)]; c !in Letters(g) && 'A' <= c <= 'Z'
  {
  }

  lemma LettersUpper(g: Family)
    ensures forall c :: c in Letters(g) ==> 'A' <= c <= 'Z' || c == ' '
  {
  }

  lemma WordsLack(f: Family, k: OptionKind, i: nat)
    requires FamilyOf(k) != f && !f.RestartF? && !k.Restart? && !(f.AsF? && k.StartWith?) && i < |Words(k)|
    ensures LowerChar(Words(k)[i]) != LowerChar(Head(f)[Missing(f, FamilyOf(k))])
  {
    var g := FamilyOf(k);
    LettersLack(f, g);
    LettersUpper(g);
    assert Spells(k) by {
      hide Spells;
      if k in {IncrementBy, StartWith, Cache, OwnedBy, As, SetLogged} { SpellsOne(k); } else { SpellsTwo(k); }
    }
    hide Letters, Words, Head, Missing;
  }

  lemma HeadLetters(f: Family, i: nat)
    requires i < |Head(f)|
    ensures 'A' <= Head(f)[i] <= 'Z'
  {
  }

  /** The family's word holds no blank, so it ends where a blank stands, or before. */
  lemma HeadWithin(s: string, h: nat, f: Family, x: nat)
    requires h <= x && (x < |s| ==> s[x] == ' ') && x <= |s|
    ensures MatchesAt(s, h, Head(f)) ==> h + |Head(f)| <= x
  {
    if h + |Head(f)| > x && x < |s| {
      MatchHas(s, h, Head(f), x - h);
      HeadLetters(f, x - h);
    }
  }

  /** The words of an option hold no word of another family. */
  lemma HeadInWords(s: string, a: nat, k: OptionKind, h: nat, f: Family)
    requires var w := Words(k);
             && a <= h < a + |w| <= |s| && s[a..a + |w|] == w
             && (w[|w| - 1] == ' ' || (a + |w| < |s| ==> s[a + |w|] == ' '))
    requires FamilyOf(k) != f && !f.RestartF? && !k.Restart?
    ensures !MatchesAt(s, h, Head(f))
  {
    hide Words, Head, MatchesAt;
    var w := Words(k);
    assert forall x :: a <= x < a + |w| ==> s[x] == s[a..a + |w|][x - a] == w[x - a];
    if w[|w| - 1] == ' ' {
      assert s[a + |w| - 1] == ' ';
      HeadWithin(s, h, f, a + |w| - 1);
    } else {
      HeadWithin(s, h, f, a + |w|);
    }
    if f.AsF? && k.StartWith? {
      AsInStart(s, a, h);
    } else if MatchesAt(s, h, Head(f)) {
      var i := Missing(f, FamilyOf(k));
      MatchHas(s, h, Head(f), i);
      WordsLack(f, k, h + i - a);
    }
  }

  lemma AsInStart(s: string, a: nat, h: nat)
    requires var n := |Words(StartWith)|; a + n <= |s| && s[a..a + n] == Words(StartWith) && a <= h < a + n
    ensures !MatchesAt(s, h, Head(AsF))
  {
    var w := "START WITH ";
    assert w[0] == 'S' && w[1] == 'T' && w[2] == 'A' && w[3] == 'R' && w[4] == 'T' && w[5] == ' ' && w[6] == 'W'
           && w[7] == 'I' && w[8] == 'T' && w[9] == 'H' && w[10] == ' ';
    assert forall x :: a <= x < a + 11 ==> s[x] == w[x - a];
    MatchHas(s, h, "AS", 0);
    MatchHas(s, h, "AS", 1);
    hide MatchesAt;
  }

  lemma HeadInNumber(s: string, b: nat, m: nat, h: nat, f: Family)
    requires b <= h < m <= |s| && Number(s[b..m])
    ensures !MatchesAt(s, h, Head(f))
  {
    NumberChars(s[b..m]);
    assert s[h] == s[b..m][h - b];
    MatchHas(s, h, Head(f), 0);
    HeadLetters(f, 0);
    hide MatchesAt, Head, Number;
  }

  lemma LoggedLetters(v: string, i: nat)
    requires (Lower(v) == "logged" || Lower(v) == "unlogged") && i < |v|
    ensures LowerChar(v[i]) in {'l', 'o', 'g', 'e', 'd', 'u', 'n'}
  {
    assert Lower(v)[i] == LowerChar(v[i]);
  }

  lemma HeadInLogged(s: string, b: nat, m: nat, h: nat, f: Family)
    requires b <= h < m && Ended(s, m) && (Lower(s[b..m]) == "logged" || Lower(s[b..m]) == "unlogged")
    requires !f.LoggedF? && !f.RestartF?
    ensures !MatchesAt(s, h, Head(f))
  {
    hide MatchesAt;
    var v := s[b..m];
    LoggedLetters(v, h - b);
    assert s[h] == v[h - b];
    MatchHas(s, h, Head(f), 0);
    if f.OwnedF? {
      MatchHas(s, h, Head(f), 1);
      if h + 1 < m {
        LoggedLetters(v, h + 1 - b);
        assert s[h + 1] == v[h + 1 - b];
      }
    }
  }

  // ---- No option inside a name ----

  /** A name at its place: in a body, from b to m, with a blank before it. */
  predicate NameAt(s: string, b: nat, m: nat) {
    0 < b < m && Ended(s, m) && Token(s[b..m]) && s[b - 1] == ' '
  }

  lemma MatchInName(s: string, b: nat, m: nat, h: nat, w: string)
    requires NameAt(s, b, m) && b <= h && h + |w| <= m
    ensures MatchesAt(s, h, w) == MatchesAt(s[b..m], h - b, w)
  {
    SliceOfSlice(s, b, m, h, h + |w|);
  }

  lemma BoundaryInName(s: string, b: nat, m: nat, h: nat)
    requires NameAt(s, b, m) && b <= h <= m
    ensures Boundary(s, h) == Boundary(s[b..m], h - b)
  {
    var v := s[b..m];
    if h > b { assert s[h - 1] == v[h - 1 - b]; }
    if h < m { assert s[h] == v[h - b]; }
  }

  /** Nothing behind the name completes an option that its last word starts. */
  lemma NoNumberAfter(s: string, b: nat, m: nat, h: nat, w: string)
    requires NameAt(s, b, m) && b <= h && h + |w| <= m && MatchesAt(s, h, w)
    ensures var k := Keyword(s, h, w);
            k == h || (k == m + 1 < |s| && NumberEnd(s, k) == k && LowerChar(s[k]) !in "bwlu" && h + |w| == m)
  {
    AfterEnd(s, m);
    if h + |w| < m { assert s[h + |w|] == s[b..m][h + |w| - b]; }
    hide MatchesAt, NumberEnd;
  }

  lemma NotStart(s: string, k: nat, w: string)
    requires k < |s| && w != "" && LowerChar(s[k]) != LowerChar(w[0])
    ensures !MatchesAt(s, k, w)
  {
    MatchHas(s, k, w, 0);
  }

  /** A word in the name needs something behind it that does not come. */
  lemma WordInName(s: string, b: nat, m: nat, h: nat, f: Family)
    requires NameAt(s, b, m) && b <= h && h + |Head(f)| <= m && MatchesAt(s, h, Head(f))
    requires f.IncrementF? || f.StartF? || f.CacheF? || f.OwnedF? || f.LoggedF?
    ensures OptionEnd(s, h, f) == h
  {
    hide MatchesAt, NumberEnd, NameAt;
    NoNumberAfter(s, b, m, h, Head(f));
    var k := Keyword(s, h, Head(f));
    if k > h {
      Letters4(s[k]);
      NotStart(s, k, "BY");
      NotStart(s, k, "WITH");
      NotStart(s, k, "LOGGED");
      NotStart(s, k, "UNLOGGED");
    }
  }

  lemma Letters4(c: char)
    requires LowerChar(c) !in "bwlu"
    ensures LowerChar(c) != LowerChar('B') && LowerChar(c) != LowerChar('W') && LowerChar(c) != LowerChar('L')
    ensures LowerChar(c) != LowerChar('U')
  {
  }

  /** No option of another family starts in a quiet name. */
  lemma QuietName(s: string, b: nat, m: nat, h: nat, f: Family)
    requires NameAt(s, b, m) && Quiet(s[b..m]) && b <= h < m && MatchesAt(s, h, Head(f)) && !f.RestartF?
    ensures OptionEnd(s, h, f) == h
  {
    hide MatchesAt, OptionEnd;
    HeadWithin(s, h, f, m);
    match f
    case IncrementF | StartF | CacheF | OwnedF | LoggedF => WordInName(s, b, m, h, f);
    case MinF | MaxF => MatchInName(s, b, m, h, Head(f));
    case CycleF => CycleInName(s, b, m, h);
    case AsF => AsInName(s, b, m, h);
  }

  lemma CycleInName(s: string, b: nat, m: nat, h: nat)
    requires NameAt(s, b, m) && Quiet(s[b..m]) && b <= h && h + 5 <= m && MatchesAt(s, h, "CYCLE")
    ensures OptionEnd(s, h, CycleF) == h
  {
    HeadNotNo(s, h, "CYCLE");
    hide MatchesAt, Boundary, NameAt, Keyword;
    MatchInName(s, b, m, h, "CYCLE");
    BoundaryInName(s, b, m, h + 5);
    assert WholeEnd(s[b..m], h - b, "CYCLE") == h - b;
  }

  lemma AsInName(s: string, b: nat, m: nat, h: nat)
    requires NameAt(s, b, m) && Quiet(s[b..m]) && b <= h && h + 2 <= m && MatchesAt(s, h, "AS")
    ensures OptionEnd(s, h, AsF) == h
  {
    hide MatchesAt, Boundary, NumberEnd;
    NoNumberAfter(s, b, m, h, "AS");
    hide NameAt, Keyword;
    MatchInName(s, b, m, h, "AS");
    BoundaryInName(s, b, m, h);
  }

  // ---- Nothing but the option itself ----

  /** A word of another family inside an option starts no option of that family. */
  lemma HeadInside(s: string, a: nat, o: SeqOption, m: nat, h: nat, f: Family)
    requires Proper(o) && Placed(s, a, o, m) && a <= h < m && f != FamilyOf(o.kind) && !f.RestartF?
    requires MatchesAt(s, h, Head(f))
    ensures OptionEnd(s, h, f) == h
  {
    hide MatchesAt, OptionEnd, Proper, Head, Words;
    PlacedParts(s, a, o, m);
    WordsEnd(o.kind);
    ProperNotRestart(o);
    if h < a + |Words(o.kind)| {
      HeadInWords(s, a, o.kind, h, f);
    } else {
      LastOf(s, a, Words(o.kind));
      HeadInValue(s, a + |Words(o.kind)|, o, m, h, f);
    }
  }

  lemma LetterE()
    ensures !IsBlank('E') && LowerChar('E') != 'o'
  {
  }

  /** The last character of a word at its place. */
  lemma LastOf(s: string, a: nat, w: string)
    requires w != "" && a + |w| <= |s| && s[a..a + |w|] == w
    ensures s[a + |w| - 1] == w[|w| - 1]
  {
    SubWord(s, a, w, |w| - 1, |w| - 1);
  }

  lemma HeadInValue(s: string, b: nat, o: SeqOption, m: nat, h: nat, f: Family)
    requires Proper(o) && !IsFlag(o.kind) && 0 < b <= h < m && Ended(s, m) && s[b..m] == o.value && s[b - 1] == ' '
    requires f != FamilyOf(o.kind) && !f.RestartF? && MatchesAt(s, h, Head(f))
    ensures OptionEnd(s, h, f) == h
  {
    hide MatchesAt, OptionEnd, Quiet, Number, Head;
    match o.kind
    case IncrementBy | MinValue | MaxValue | StartWith | Cache => HeadInNumber(s, b, m, h, f);
    case OwnedBy | As => QuietName(s, b, m, h, f);
    case SetLogged => HeadInLogged(s, b, m, h, f);
  }

  lemma WordsEnd(k: OptionKind)
    ensures Words(k) != "" && (!IsFlag(k) ==> Words(k)[|Words(k)| - 1] == ' ')
  {
  }

  lemma WordsLast(k: OptionKind)
    requires IsFlag(k)
    ensures Words(k)[|Words(k)| - 1] == 'E'
  {
  }

  lemma NumberLast(v: string)
    requires Number(v)
    ensures v != "" && IsDigit(v[|v| - 1])
  {
    NumberChars(v);
  }

  lemma LastLetter(v: string)
    requires Lower(v) == "logged" || Lower(v) == "unlogged"
    ensures v != "" && LowerChar(v[|v| - 1]) == 'd'
  {
    assert |Lower(v)| == |v| && Lower(v)[|v| - 1] == LowerChar(v[|v| - 1]);
  }

  /** The last character of a value, and of an option without one. */
  lemma ValueLast(o: SeqOption)
    requires Proper(o)
    ensures IsFlag(o.kind) || (o.value != "" && !IsBlank(o.value[|o.value| - 1]))
    ensures IsFlag(o.kind) || o.kind.OwnedBy? || o.kind.As? || LowerChar(o.value[|o.value| - 1]) != 'o'
  {
    hide Number, Quiet;
    match o.kind
    case IncrementBy | MinValue | MaxValue | StartWith | Cache => NumberLast(o.value);
    case SetLogged => LastLetter(o.value);
    case _ =>
  }

  lemma PlacedLast(s: string, a: nat, o: SeqOption, m: nat)
    requires Proper(o) && Placed(s, a, o, m)
    ensures !IsBlank(s[m - 1])
    ensures !o.kind.OwnedBy? && !o.kind.As? ==> LowerChar(s[m - 1]) != 'o'
  {
    hide Proper, Words, IsFlag, IsBlank, LowerChar;
    PlacedParts(s, a, o, m);
    ValueLast(o);
    WordsEnd(o.kind);
    LetterE();
    var b := a + |Words(o.kind)|;
    if IsFlag(o.kind) {
      WordsLast(o.kind);
      LastOf(s, a, Words(o.kind));
    } else {
      LastOf(s, b, o.value);
    }
  }

  /** An option does not end in NO. */
  lemma EndsNotNo(s: string, a: nat, o: SeqOption, m: nat)
    requires Proper(o) && Placed(s, a, o, m) && a + 2 <= m
    ensures !MatchesAt(s, m - 2, "NO")
  {
    hide MatchesAt, Words, Quiet, Token;
    MatchHas(s, m - 2, "NO", 1);
    PlacedLast(s, a, o, m);
    if o.kind.OwnedBy? || o.kind.As? {
      PlacedParts(s, a, o, m);
      WordsEnd(o.kind);
      LastOf(s, a, Words(o.kind));
      NameEndsNotNo(s, a + |Words(o.kind)|, m);
    }
  }

  lemma NameEndsNotNo(s: string, b: nat, m: nat)
    requires NameAt(s, b, m) && Quiet(s[b..m])
    ensures m >= 2 && !MatchesAt(s, m - 2, "NO")
  {
    MatchHas(s, m - 2, "NO", 0);
    hide MatchesAt;
    if b + 2 <= m { MatchInName(s, b, m, m - 2, "NO"); }
  }

  /** No option of another family starts inside an option. */
  lemma NothingInside(s: string, a: nat, o: SeqOption, m: nat, q: nat, f: Family)
    requires Proper(o) && Placed(s, a, o, m) && a <= q < m && f != FamilyOf(o.kind)
    ensures OptionEnd(s, q, f) == q
  {
    hide Head, Proper, SkipSpaces;
    if OptionEnd(s, q, f) > q {
      HeadNeeded(s, q, f);
      hide OptionEnd;
      if MatchesAt(s, q, Head(f)) {
        HeadInside(s, a, o, m, q, f);
      } else {
        NoInside(s, a, o, m, q);
        HeadInside(s, a, o, m, Keyword(s, q, "NO"), f);
      }
    }
  }

  lemma NoWithin(s: string, q: nat, m: nat)
    requires q < m && Ended(s, m)
    ensures MatchesAt(s, q, "NO") ==> q + 2 <= m
  {
    MatchHas(s, q, "NO", 1);
    hide MatchesAt;
  }

  lemma NoInside(s: string, a: nat, o: SeqOption, m: nat, q: nat)
    requires Proper(o) && Placed(s, a, o, m) && a <= q < m
    ensures q <= Keyword(s, q, "NO") < m
  {
    hide Proper;
    NoWithin(s, q, m);
    if MatchesAt(s, q, "NO") {
      EndsNotNo(s, a, o, m);
      PlacedLast(s, a, o, m);
      ColumnPrint.SkipStops(s, q + 2, m - 1);
    }
  }
}
