/** Reading the options of ALTER SEQUENCE, and writing them into a body. */
module SequenceParser {
  import opened Text
  import opened Ast
  import opened Patterns
  import opened Catalog
  import opened SequenceBody
  import opened OptionLists
  import opened OptionPlaces
  import opened Sequences

  // ---- The option patterns ----

  /** The kinds of the patterns in the order they are tried. */
  const SPECS: seq<OptionKind> := [
    NoMinValue, NoMaxValue, NoCycle, IncrementBy, MinValue, MaxValue, StartWith, Cache, Cycle, OwnedBy, As, SetLogged,
    Restart, Restart]

  /** The text from k to n, if there is any. */
  function Taken(s: string, k: nat, n: nat): Option<string>
    requires k <= n <= |s|
  {
    if n > k then Some(s[k..n]) else None
  }

  /** NO w, as whole words. */
  function Negated(s: string, i: nat, w: string): Option<string>
    requires i <= |s|
  {
    var k := Keyword(s, i, "NO");
    if k > i && WholeEnd(s, k, w) > k then Some("") else None
  }

  /** w [filler] number. */
  function Numbered(s: string, i: nat, w: string, filler: string): Option<string>
    requires i <= |s|
  {
    var k := Keyword(s, i, w);
    var l := if filler != "" then Keyword(s, k, filler) else k;
    if k > i then Taken(s, l, NumberEnd(s, l)) else None
  }

  /** What the n-th pattern captures at i; nothing captured is the empty string. */
  function Captured(s: string, i: nat, n: nat): Option<string>
    requires i <= |s| && n < 14
  {
    if !Boundary(s, i) then None
    else
      match n
      case 0 => Negated(s, i, "MINVALUE")
      case 1 => Negated(s, i, "MAXVALUE")
      case 2 => Negated(s, i, "CYCLE")
      case 3 => Numbered(s, i, "INCREMENT", "BY")
      case 4 => Numbered(s, i, "MINVALUE", "")
      case 5 => Numbered(s, i, "MAXVALUE", "")
      case 6 => Numbered(s, i, "START", "WITH")
      case 7 => Numbered(s, i, "CACHE", "")
      case 8 => if WholeEnd(s, i, "CYCLE") > i then Some("") else None
      case 9 =>
        var k := Keyword(s, i, "OWNED");
        var l := Keyword(s, k, "BY");
        if k > i && l > k then Taken(s, l, BlankEnd(s, l)) else None
      case 10 =>
        var k := Keyword(s, i, "AS");
        if k > i then Taken(s, k, BlankEnd(s, k)) else None
      case 11 =>
        var k := Keyword(s, i, "SET");
        var e := if WholeEnd(s, k, "LOGGED") > k then WholeEnd(s, k, "LOGGED") else WholeEnd(s, k, "UNLOGGED");
        if k > i then Taken(s, k, e) else None
      case 12 => Numbered(s, i, "RESTART", "WITH")
      case 13 => if WholeEnd(s, i, "RESTART") > i then Some("") else None
  }

  /** What the n-th pattern captures at its first match from i on. */
  function Found(s: string, i: nat, n: nat): Option<string>
    requires i <= |s| && n < 14
    decreases |s| - i
  {
    if Captured(s, i, n).Some? then Captured(s, i, n) else if i < |s| then Found(s, i + 1, n) else None
  }

  /** The pattern matches and no earlier one of its family does. */
  predicate Chosen(s: string, n: nat)
    requires n < 14
  {
    Found(s, 0, n).Some? && forall j :: 0 <= j < n && FamilyOf(SPECS[j]) == FamilyOf(SPECS[n]) ==> Found(s, 0, j).None?
  }

  /** The options of the chosen ones among the first n patterns. */
  function Picked(s: string, n: nat): seq<SeqOption>
    requires n <= 14
  {
    if n == 0 then []
    else Picked(s, n - 1) + if Chosen(s, n - 1) then [SeqOption(SPECS[n - 1], Found(s, 0, n - 1).value)] else []
  }

  function OptionsOf(text: string): seq<SeqOption> { Picked(TrimSpace(TrimSuffix(text, ";")), 14) }

  method ParseSequenceOptions(text: string) returns (opts: seq<SeqOption>)
    ensures opts == OptionsOf(text)
  {
    hide FamilyOf, Found, TrimSpace, TrimSuffix;
    var s := TrimSpace(TrimSuffix(text, ";"));
    opts := [];
    var seen: set<Family> := {};
    for i := 0 to |SPECS|
      invariant opts == Picked(s, i)
      invariant forall f :: f in seen <==> exists j :: 0 <= j < i && Found(s, 0, j).Some? && FamilyOf(SPECS[j]) == f
    {
      var f := FamilyOf(SPECS[i]);
      if f !in seen {
        var m := Found(s, 0, i);
        if m.Some? {
          seen := seen + {f};
          opts := opts + [SeqOption(SPECS[i], m.value)];
        }
      }
    }
  }

  // ---- One option a family ----

  /** Does one of the first n patterns match that belongs to family f? */
  predicate Matched(s: string, n: nat, f: Family)
    requires n <= 14
  {
    exists j :: 0 <= j < n && Found(s, 0, j).Some? && FamilyOf(SPECS[j]) == f
  }

  lemma ChosenFirst(s: string, i: nat)
    requires i < 14
    ensures Chosen(s, i) <==> Found(s, 0, i).Some? && !Matched(s, i, FamilyOf(SPECS[i]))
  {
    hide Found;
  }

  lemma MatchedStep(s: string, n: nat, f: Family)
    requires 0 < n <= 14
    ensures Matched(s, n, f) <==> Matched(s, n - 1, f) || (Found(s, 0, n - 1).Some? && FamilyOf(SPECS[n - 1]) == f)
  {
    hide FamilyOf, SPECS, Found;
  }

  lemma OneOfFamily(o: SeqOption, f: Family)
    ensures OfFamily([o], f) == if FamilyOf(o.kind) == f then [o] else []
  {
    assert [o][1..] == [];
  }

  /** A family has one picked option when one of its patterns matches, else none. */
  lemma {:induction false} PickedFamily(s: string, n: nat, f: Family)
    requires n <= 14
    ensures |OfFamily(Picked(s, n), f)| == if Matched(s, n, f) then 1 else 0
  {
    assert |SPECS| == 14;
    hide FamilyOf, SPECS, Matched, Chosen, Found;
    if n > 0 {
      PickedFamily(s, n - 1, f);
      ChosenFirst(s, n - 1);
      MatchedStep(s, n, f);
      var o := if Chosen(s, n - 1) then [SeqOption(SPECS[n - 1], Found(s, 0, n - 1).value)] else [];
      OfFamilyAppend(Picked(s, n - 1), o, f);
      if o != [] { OneOfFamily(o[0], f); }
    } else {
      NoneMatched(s, f);
    }
  }

  lemma NoneMatched(s: string, f: Family)
    ensures !Matched(s, 0, f)
  {
  }

  // ---- Writing what was read ----

  predicate Repeats(opts: seq<SeqOption>, f: Family) { |OfFamily(opts, f)| > 1 }

  /** Without repeats every option but RESTART is written, in the order given. */
  function Effective(opts: seq<SeqOption>): seq<SeqOption> {
    if opts == [] then []
    else (if opts[0].kind.Restart? then [] else [opts[0]]) + Effective(opts[1..])
  }

  lemma {:induction false} WritesOfFamily(opts: seq<SeqOption>, f: Family)
    requires Writes(opts, f)
    ensures OfFamily(opts, f) != []
  {
    hide FamilyOf, Writes;
    if opts == [] {
      NoWrites(f);
    } else {
      WritesHead(opts, f);
      if Writes(opts[1..], f) { WritesOfFamily(opts[1..], f); }
    }
  }

  lemma {:induction false} NoRepeatsAllWritten(opts: seq<SeqOption>)
    requires forall f :: !Repeats(opts, f)
    ensures LastWrites(opts) == Effective(opts)
  {
    hide FamilyOf, Writes;
    if opts != [] {
      forall f ensures !Repeats(opts[1..], f) { assert !Repeats(opts, f); }
      NoRepeatsAllWritten(opts[1..]);
      var f := FamilyOf(opts[0].kind);
      assert !Repeats(opts, f);
      if Writes(opts[1..], f) { WritesOfFamily(opts[1..], f); }
    }
  }

  lemma ParsedNeverRepeats(s: string, f: Family)
    ensures !Repeats(Picked(s, 14), f)
  {
    PickedFamily(s, 14, f);
    hide Picked, OfFamily, Matched;
  }

  // ---- What is read is proper ----

  lemma NumberSlice(s: string, k: nat)
    requires k <= |s| && NumberEnd(s, k) > k
    ensures Number(s[k..NumberEnd(s, k)])
  {
    var m := NumberEnd(s, k);
    var v := s[k..m];
    var d := if s[k] == '-' then 1 else 0;
    DigitsAre(s, k + d);
    assert v[0] == s[k];
    forall x | d <= x < |v| ensures IsDigit(v[x]) { assert v[x] == s[k + x]; }
    DigitsTo(v, d, |v|);
  }

  lemma NumberedIs(s: string, i: nat, w: string, filler: string)
    requires i <= |s|
    ensures var v := Numbered(s, i, w, filler); v.Some? ==> Number(v.value)
  {
    var k := Keyword(s, i, w);
    var l := if filler != "" then Keyword(s, k, filler) else k;
    hide Number, NumberEnd, Keyword;
    if NumberEnd(s, l) > l { NumberSlice(s, l); }
  }

  lemma {:induction false} BlankEndAre(s: string, k: nat)
    requires k <= |s|
    ensures forall x :: k <= x < BlankEnd(s, k) ==> !IsBlank(s[x])
    decreases |s| - k
  {
    if k < |s| && !IsBlank(s[k]) { BlankEndAre(s, k + 1); }
  }

  lemma NameTaken(s: string, k: nat)
    requires k <= |s|
    ensures var v := Taken(s, k, BlankEnd(s, k)); v.Some? ==> Token(v.value)
  {
    BlankEndAre(s, k);
    var v := s[k..BlankEnd(s, k)];
    assert forall x :: 0 <= x < |v| ==> v[x] == s[k + x];
  }

  lemma LoggedTaken(s: string, k: nat)
    requires k <= |s|
    ensures var e := if WholeEnd(s, k, "LOGGED") > k then WholeEnd(s, k, "LOGGED") else WholeEnd(s, k, "UNLOGGED");
            var v := Taken(s, k, e);
            v.Some? ==> Lower(v.value) == "logged" || Lower(v.value) == "unlogged"
  {
    LoggedLower();
    hide Boundary;
  }

  /** An option whose name, if it has one, is quiet. */
  predicate QuietOption(o: SeqOption) { o.kind.OwnedBy? || o.kind.As? ==> Trimmed(o.value) && Quiet(o.value) }

  lemma CapturedProper(s: string, i: nat, n: nat)
    requires i <= |s| && n < 12 && Captured(s, i, n).Some? && QuietOption(SeqOption(SPECS[n], Captured(s, i, n).value))
    ensures Proper(SeqOption(SPECS[n], Captured(s, i, n).value))
  {
    hide Number, Quiet, Negated, NumberEnd, BlankEnd, WholeEnd, Token, Trimmed, Boundary, Taken, Numbered, Keyword;
    match n
    case 3 => NumberedIs(s, i, "INCREMENT", "BY");
    case 4 => NumberedIs(s, i, "MINVALUE", "");
    case 5 => NumberedIs(s, i, "MAXVALUE", "");
    case 6 => NumberedIs(s, i, "START", "WITH");
    case 7 => NumberedIs(s, i, "CACHE", "");
    case 9 => NameTaken(s, Keyword(s, Keyword(s, i, "OWNED"), "BY"));
    case 10 => NameTaken(s, Keyword(s, i, "AS"));
    case 11 => LoggedTaken(s, Keyword(s, i, "SET"));
    case _ =>
  }

  lemma {:induction false} FoundProper(s: string, i: nat, n: nat)
    requires i <= |s| && n < 12 && Found(s, i, n).Some? && QuietOption(SeqOption(SPECS[n], Found(s, i, n).value))
    ensures Proper(SeqOption(SPECS[n], Found(s, i, n).value))
    decreases |s| - i
  {
    hide Captured, Proper, QuietOption, SPECS;
    if Captured(s, i, n).Some? { CapturedProper(s, i, n); } else { FoundProper(s, i + 1, n); }
  }

  lemma {:induction false} PickedWritable(s: string, n: nat)
    requires n <= 14 && forall o :: o in Picked(s, n) ==> QuietOption(o)
    ensures Writable(Picked(s, n))
  {
    hide Found, Proper, QuietOption, Chosen;
    if n > 0 {
      PickedWritable(s, n - 1);
      if Chosen(s, n - 1) {
        ChosenFound(s, n - 1);
        var o := SeqOption(SPECS[n - 1], Found(s, 0, n - 1).value);
        assert o in Picked(s, n);
        if n <= 12 { FoundProper(s, 0, n - 1); }
      }
    }
  }

  lemma ChosenFound(s: string, n: nat)
    requires n < 14 && Chosen(s, n)
    ensures Found(s, 0, n).Some?
  {
    hide Found;
  }

  /** ALTER SEQUENCE with the options of a text: the untouched options stay in
      order, and all that was read but RESTART follows. */
  lemma ParsedOptionsApplied(os: seq<SeqOption>, text: string)
    requires AllProper(os) && forall o :: o in OptionsOf(text) ==> QuietOption(o)
    ensures var opts := OptionsOf(text);
            ApplyOptions(BodyText(os), opts) == BodyText(Untouched(os, opts) + Effective(opts))
  {
    var s := TrimSpace(TrimSuffix(text, ";"));
    var opts := OptionsOf(text);
    hide Picked, LastWrites, Untouched, Effective, ApplyOptions, Repeats, BodyText, Proper, QuietOption, TrimSpace, TrimSuffix;
    PickedWritable(s, 14);
    LastWriterWins(os, opts);
    forall f ensures !Repeats(opts, f) { ParsedNeverRepeats(s, f); }
    NoRepeatsAllWritten(opts);
  }
}
