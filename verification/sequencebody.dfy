/** Sequence bodies: how options are spelled in them, and the patterns by which an
    option of the same family is taken out before a new one is written. */
module SequenceBody {
  import opened Text
  import opened Ast
  import opened Patterns

  datatype Family = IncrementF | MinF | MaxF | StartF | CacheF | CycleF | OwnedF | AsF | LoggedF | RestartF

  function FamilyOf(k: OptionKind): Family {
    match k
    case IncrementBy => IncrementF
    case NoMinValue | MinValue => MinF
    case NoMaxValue | MaxValue => MaxF
    case StartWith => StartF
    case Cache => CacheF
    case NoCycle | Cycle => CycleF
    case OwnedBy => OwnedF
    case As => AsF
    case SetLogged => LoggedF
    case Restart => RestartF
  }

  predicate IsFlag(k: OptionKind) { k.NoMinValue? || k.NoMaxValue? || k.NoCycle? || k.Cycle? }

  /** The words of an option, with a blank behind them if a value follows. */
  function Words(kind: OptionKind): string {
    match kind
    case IncrementBy => "INCREMENT BY "
    case NoMinValue => "NO MINVALUE"
    case MinValue => "MINVALUE "
    case NoMaxValue => "NO MAXVALUE"
    case MaxValue => "MAXVALUE "
    case StartWith => "START WITH "
    case Cache => "CACHE "
    case NoCycle => "NO CYCLE"
    case Cycle => "CYCLE"
    case OwnedBy => "OWNED BY "
    case As => "AS "
    case SetLogged => "SET "
    case Restart => "RESTART "
  }

  /** How an option is spelled when it is written into a body. */
  function Spelling(o: SeqOption): string { Words(o.kind) + if IsFlag(o.kind) then "" else o.value }

  predicate IsDigit(c: char) { '0' <= c <= '9' }

  function DigitsEnd(s: string, i: nat): (n: nat)
    requires i <= |s|
    ensures i <= n <= |s|
    decreases |s| - i
  {
    if i < |s| && IsDigit(s[i]) then DigitsEnd(s, i + 1) else i
  }

  /** End of a number at i, with or without a minus sign, or i. */
  function NumberEnd(s: string, i: nat): (n: nat)
    requires i <= |s|
    ensures i <= n <= |s|
  {
    var d := if i < |s| && s[i] == '-' then i + 1 else i;
    if DigitsEnd(s, d) > d then DigitsEnd(s, d) else i
  }

  /** End of the word w at i, or i. */
  function WordEnd(s: string, i: nat, w: string): (n: nat)
    requires i <= |s|
    ensures i <= n <= |s|
  {
    if MatchesAt(s, i, w) then i + |w| else i
  }

  /** End of the word w at i where no word character follows, or i. */
  function WholeEnd(s: string, i: nat, w: string): (n: nat)
    requires i <= |s|
    ensures i <= n <= |s|
  {
    if MatchesAt(s, i, w) && Boundary(s, i + |w|) then i + |w| else i
  }

  /** End of [NO] w at i, with a number behind it or without, or i. */
  function BoundEnd(s: string, i: nat, w: string): (n: nat)
    requires i <= |s|
    ensures i <= n <= |s|
  {
    var k := Keyword(s, i, "NO");
    var e := WordEnd(s, k, w);
    var b := SkipSpaces(s, e);
    if e == k then i else if b > e && NumberEnd(s, b) > b then NumberEnd(s, b) else e
  }

  /** End of START [WITH] number at i, or i. */
  function StartEnd(s: string, i: nat): (n: nat)
    requires i <= |s|
    ensures i <= n <= |s|
  {
    var k := WordEnd(s, i, "START");
    var w := SkipSpaces(s, k);
    var l := if w > k then WordEnd(s, w, "WITH") else w;
    var m := if l > w then SkipSpaces(s, l) else w;
    if k > i && w > k && (l > w ==> m > l) && NumberEnd(s, m) > m then NumberEnd(s, m) else i
  }

  /** End of an option of family f at i, or i. RESTART is in no body. */
  function OptionEnd(s: string, i: nat, f: Family): (n: nat)
    requires i <= |s|
    ensures i <= n <= |s|
  {
    match f
    case IncrementF =>
      var k := Keyword(s, i, "INCREMENT");
      var l := Keyword(s, k, "BY");
      if k > i && NumberEnd(s, l) > l then NumberEnd(s, l) else i
    case MinF => BoundEnd(s, i, "MINVALUE")
    case MaxF => BoundEnd(s, i, "MAXVALUE")
    case StartF => StartEnd(s, i)
    case CacheF =>
      var k := Keyword(s, i, "CACHE");
      if k > i && NumberEnd(s, k) > k then NumberEnd(s, k) else i
    case CycleF =>
      var k := Keyword(s, i, "NO");
      if WholeEnd(s, k, "CYCLE") > k then k + 5 else i
    case OwnedF =>
      var k := Keyword(s, i, "OWNED");
      var l := Keyword(s, k, "BY");
      if k > i && l > k && BlankEnd(s, l) > l then BlankEnd(s, l) else i
    case AsF =>
      var k := Keyword(s, i, "AS");
      if Boundary(s, i) && k > i && BlankEnd(s, k) > k then BlankEnd(s, k) else i
    case LoggedF =>
      var k := Keyword(s, i, "SET");
      var e := if WholeEnd(s, k, "LOGGED") > k then WholeEnd(s, k, "LOGGED") else WholeEnd(s, k, "UNLOGGED");
      if k > i && e > k then e else i
    case RestartF => i
  }

  /** The text from i on without the options of family f and the white space
      before them. */
  function Removed(s: string, i: nat, f: Family): string
    requires i <= |s|
    decreases |s| - i
  {
    if i == |s| then ""
    else
      var j := SkipSpaces(s, i);
      var n := OptionEnd(s, j, f);
      if n > j then Removed(s, n, f) else [s[i]] + Removed(s, i + 1, f)
  }
}
