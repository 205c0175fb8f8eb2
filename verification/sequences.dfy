/** Sequence bodies that list proper options: writing options into the text does
    what writing them into the list does. */
module Sequences {
  import opened Text
  import opened Ast
  import opened Patterns
  import opened Catalog
  import opened SequenceBody
  import opened OptionLists
  import opened OptionPlaces
  import ColumnPrint

  /** The options of a list, each with a blank before it. */
  function Spelled(os: seq<SeqOption>): string {
    if os == [] then "" else " " + Spelling(os[0]) + Spelled(os[1..])
  }

  /** The body that lists the options. */
  function BodyText(os: seq<SeqOption>): string {
    if os == [] then "" else Spelling(os[0]) + Spelled(os[1..])
  }

  predicate AllProper(os: seq<SeqOption>) { forall o :: o in os ==> Proper(o) }

  // ---- Taking a family out of a body ----

  /** No option of the family is seen from i up to n. */
  predicate Unseen(s: string, i: nat, n: nat, f: Family)
    requires n <= |s|
  {
    forall p :: i <= p < n ==> OptionEnd(s, SkipSpaces(s, p), f) == SkipSpaces(s, p)
  }

  lemma {:induction false} Copied(s: string, i: nat, n: nat, f: Family)
    requires i <= n <= |s| && Unseen(s, i, n, f)
    ensures Removed(s, i, f) == s[i..n] + Removed(s, n, f)
    decreases n - i
  {
    hide OptionEnd, SkipSpaces;
    if i < n {
      assert OptionEnd(s, SkipSpaces(s, i), f) == SkipSpaces(s, i);
      Copied(s, i + 1, n, f);
      assert s[i..n] == [s[i]] + s[i + 1..n];
    }
  }

  lemma OtherUnseen(s: string, a: nat, o: SeqOption, m: nat, f: Family)
    requires Proper(o) && Placed(s, a, o, m) && f != FamilyOf(o.kind)
    ensures Unseen(s, a, m, f)
  {
    hide OptionEnd, Proper;
    PlacedLast(s, a, o, m);
    forall p | a <= p < m ensures OptionEnd(s, SkipSpaces(s, p), f) == SkipSpaces(s, p) {
      ColumnPrint.SkipStops(s, p, m - 1);
      NothingInside(s, a, o, m, SkipSpaces(s, p), f);
    }
  }

  lemma SpellingHead(o: SeqOption)
    requires !o.kind.Restart?
    ensures Spelling(o) != "" && Spelling(o)[0] in "INMSCOA"
  {
    WordsHead(o.kind);
    hide Words;
  }

  lemma WordsHead(k: OptionKind)
    requires !k.Restart?
    ensures Words(k) != "" && Words(k)[0] in "INMSCOA"
  {
  }

  lemma SpelledHead(os: seq<SeqOption>)
    requires os != [] && AllProper(os)
    ensures var s := Spelled(os); |s| > 1 && s[0] == ' ' && s[1] in "INMSCOA"
  {
    ProperNotRestart(os[0]);
    SpellingHead(os[0]);
    hide Spelling, Proper;
  }

  lemma CutAt(s: string, a: nat, t: string, rest: string)
    requires a <= |s| && s[a..] == t + rest
    ensures var m := a + |t|; m <= |s| && s[a..m] == t && s[m..] == rest
  {
    assert |s[a..]| == |s| - a;
    assert s[a + |t|..] == s[a..][|t|..];
    assert s[a..a + |t|] == s[a..][..|t|];
  }

  lemma EndedBy(s: string, m: nat, os: seq<SeqOption>)
    requires m <= |s| && s[m..] == Spelled(os) && AllProper(os)
    ensures Ended(s, m)
  {
    hide Proper, Spelling;
    if os != [] {
      SpelledHead(os);
      assert s[m] == s[m..][0] && s[m + 1] == s[m..][1];
    }
  }

  /** The first option of a list stands behind the blank. */
  lemma FirstPlaced(s: string, a: nat, os: seq<SeqOption>)
    requires os != [] && AllProper(os) && a <= |s| && s[a..] == Spelling(os[0]) + Spelled(os[1..]) && (a > 0 ==> s[a - 1] == ' ')
    ensures var m := a + |Spelling(os[0])|;
            Placed(s, a, os[0], m) && s[m..] == Spelled(os[1..])
  {
    hide Spelling, Proper, Spelled, Ended;
    ProperNotRestart(os[0]);
    SpellingHead(os[0]);
    CutAt(s, a, Spelling(os[0]), Spelled(os[1..]));
    EndedBy(s, a + |Spelling(os[0])|, os[1..]);
  }

  /** What one option leaves of itself. */
  lemma FirstRemoved(s: string, a: nat, o: SeqOption, m: nat, f: Family)
    requires Proper(o) && Placed(s, a, o, m)
    ensures Removed(s, a, f) == (if FamilyOf(o.kind) == f then "" else Spelling(o)) + Removed(s, m, f)
  {
    hide OptionEnd, Proper, Spelling;
    if FamilyOf(o.kind) == f {
      OwnEnd(s, a, o, m);
      assert SkipSpaces(s, a) == a by { PlacedFirst(s, a, o, m); }
    } else {
      OtherUnseen(s, a, o, m, f);
      Copied(s, a, m, f);
    }
  }

  lemma PlacedFirst(s: string, a: nat, o: SeqOption, m: nat)
    requires Proper(o) && Placed(s, a, o, m)
    ensures !IsBlank(s[a])
  {
    ProperNotRestart(o);
    SpellingHead(o);
    hide Spelling;
    assert s[a] == Spelling(o)[0];
    Heads(s[a]);
  }

  /** The blank before an option goes with it, or stays with it. */
  lemma BlankRemoved(s: string, a: nat, o: SeqOption, m: nat, f: Family)
    requires Proper(o) && Placed(s, a, o, m) && a > 0
    ensures Removed(s, a - 1, f) == (if FamilyOf(o.kind) == f then "" else " " + Spelling(o)) + Removed(s, m, f)
  {
    hide OptionEnd, Proper, Spelling;
    PlacedFirst(s, a, o, m);
    ColumnPrint.OneBlank(s, a - 1);
    if FamilyOf(o.kind) == f {
      OwnEnd(s, a, o, m);
    } else {
      NothingInside(s, a, o, m, a, f);
      FirstRemoved(s, a, o, m, f);
      AssociateThree(" ", Spelling(o), Removed(s, m, f));
    }
  }

  lemma {:induction false} RemovedSpelled(s: string, i: nat, os: seq<SeqOption>, f: Family)
    requires i <= |s| && s[i..] == Spelled(os) && AllProper(os)
    ensures Removed(s, i, f) == Spelled(WithoutFamily(os, f))
    decreases os
  {
    hide Spelling, Removed, Proper, FamilyOf;
    if os == [] {
      RemovedEnd(s, f);
    } else {
      var t := Spelling(os[0]) + Spelled(os[1..]);
      assert Spelled(os) == " " + t by { AssociateThree(" ", Spelling(os[0]), Spelled(os[1..])); }
      assert s[i] == s[i..][0] == ' ' && s[i + 1..] == s[i..][1..] == t;
      FirstPlaced(s, i + 1, os);
      var m := i + 1 + |Spelling(os[0])|;
      BlankRemoved(s, i + 1, os[0], m, f);
      RemovedSpelled(s, m, os[1..], f);
      SpelledWithout(os, f);
    }
  }

  lemma RemovedEnd(s: string, f: Family)
    ensures Removed(s, |s|, f) == ""
  {
  }

  lemma SpelledWithout(os: seq<SeqOption>, f: Family)
    requires os != []
    ensures Spelled(WithoutFamily(os, f))
            == (if FamilyOf(os[0].kind) == f then "" else " " + Spelling(os[0])) + Spelled(WithoutFamily(os[1..], f))
  {
    hide Spelling, FamilyOf;
    var rest := WithoutFamily(os[1..], f);
    assert [] + rest == rest && ([os[0]] + rest)[1..] == rest;
  }

  lemma {:induction false} WithoutProper(os: seq<SeqOption>, f: Family)
    requires AllProper(os)
    ensures AllProper(WithoutFamily(os, f))
  {
    hide Proper, FamilyOf;
    if os != [] { WithoutProper(os[1..], f); }
  }

  /** Proper texts begin and end with visible characters. */
  lemma SpellingSolid(o: SeqOption)
    requires Proper(o)
    ensures Spelling(o) != "" && Trimmed(Spelling(o))
  {
    ProperNotRestart(o);
    SpellingHead(o);
    ValueTrimmed(o);
    WordsEnd(o.kind);
    hide Words, IsFlag, Proper;
    Heads(Spelling(o)[0]);
  }

  lemma ValueTrimmed(o: SeqOption)
    requires Proper(o)
    ensures var t := Spelling(o); t != "" && !IsSpace(t[|t| - 1])
  {
    ValueLast(o);
    WordsEnd(o.kind);
    if IsFlag(o.kind) { WordsLast(o.kind); }
    hide Words, Quiet, Number;
    if !IsFlag(o.kind) && !o.kind.OwnedBy? && !o.kind.As? {
      if o.kind.SetLogged? { LastLetter(o.value); } else { NumberLast(o.value); }
    }
  }

  lemma {:induction false} BodyTrimmed(os: seq<SeqOption>)
    requires AllProper(os) && os != []
    ensures BodyText(os) != "" && Trimmed(BodyText(os))
  {
    hide Spelling, Proper;
    SpellingSolid(os[0]);
    var b := BodyText(os);
    if os[1..] != [] {
      BodyTrimmed(os[1..]);
      var c := BodyText(os[1..]);
      assert Spelled(os[1..]) == " " + c by { AssociateThree(" ", Spelling(os[1]), Spelled(os[1..][1..])); }
      assert b[|b| - 1] == c[|c| - 1] && b[0] == Spelling(os[0])[0];
    } else {
      assert b == Spelling(os[0]);
    }
  }

  lemma SpelledIsBody(os: seq<SeqOption>)
    requires AllProper(os)
    ensures TrimSpace(Spelled(os)) == BodyText(os) == TrimSpace(BodyText(os))
  {
    hide Spelling, Proper;
    if os == [] {
      assert TrimSpace("") == "";
    } else {
      BodyTrimmed(os);
      var t := BodyText(os);
      assert Spelled(os) == " " + t by { AssociateThree(" ", Spelling(os[0]), Spelled(os[1..])); }
      TrimSpaceKeepsTrimmed(t);
      assert " " + t == " " + t + "";
      TrimSpaceUnpads(" ", t, "");
    }
  }

  /** Taking a family out of the text of a list gives the text of the rest. */
  lemma RemovedBody(os: seq<SeqOption>, f: Family)
    requires AllProper(os)
    ensures TrimSpace(Removed(BodyText(os), 0, f)) == BodyText(WithoutFamily(os, f))
  {
    hide Spelling, Removed, Proper, TrimSpace, FamilyOf;
    var s, rest := BodyText(os), WithoutFamily(os, f);
    WithoutProper(os, f);
    SpelledIsBody(rest);
    if os == [] {
      RemovedEnd(s, f);
    } else {
      assert s[0..] == s;
      FirstPlaced(s, 0, os);
      var m := |Spelling(os[0])|;
      FirstRemoved(s, 0, os[0], m, f);
      RemovedSpelled(s, m, os[1..], f);
      WithoutHead(os, f);
      var others := WithoutFamily(os[1..], f);
      assert "" + Spelled(others) == Spelled(others);
    }
  }

  lemma WithoutHead(os: seq<SeqOption>, f: Family)
    requires os != []
    ensures var others := WithoutFamily(os[1..], f);
            && (FamilyOf(os[0].kind) == f ==> WithoutFamily(os, f) == others)
            && (FamilyOf(os[0].kind) != f ==> BodyText(WithoutFamily(os, f)) == Spelling(os[0]) + Spelled(others))
  {
    hide FamilyOf, Spelling;
    var others := WithoutFamily(os[1..], f);
    assert [] + others == others && ([os[0]] + others)[1..] == others;
  }

  // ---- Writing options ----

  lemma SpelledAppend(a: seq<SeqOption>, b: seq<SeqOption>)
    ensures Spelled(a + b) == Spelled(a) + Spelled(b)
  {
    hide Spelling;
    if a == [] {
      assert a + b == b;
    } else {
      assert (a + b)[1..] == a[1..] + b;
      SpelledAppend(a[1..], b);
    }
  }

  lemma BodyAppend(os: seq<SeqOption>, o: SeqOption)
    ensures BodyText(os + [o]) == if os == [] then Spelling(o) else BodyText(os) + " " + Spelling(o)
  {
    hide Spelling;
    assert [o][1..] == [] && Spelled([o]) == " " + Spelling(o);
    if os == [] {
      assert [] + [o] == [o];
    } else {
      assert (os + [o])[1..] == os[1..] + [o];
      SpelledAppend(os[1..], [o]);
      AssociateThree(BodyText(os), " ", Spelling(o));
    }
  }

  /** Writing an option into the text of a list gives the text of the list with
      that option written. */
  lemma WritesOne(os: seq<SeqOption>, o: SeqOption)
    requires AllProper(os) && (Proper(o) || o.kind.Restart?)
    ensures ApplyOption(BodyText(os), o) == BodyText(WriteOne(os, o)) && AllProper(WriteOne(os, o))
  {
    hide Spelling, Removed, Proper, TrimSpace, FamilyOf, BodyText, WithoutFamily;
    if !o.kind.Restart? {
      var rest := WithoutFamily(os, FamilyOf(o.kind));
      RemovedBody(os, FamilyOf(o.kind));
      WithoutProper(os, FamilyOf(o.kind));
      BodyAppend(rest, o);
      BodyEmpty(rest);
    }
  }

  lemma BodyEmpty(os: seq<SeqOption>)
    requires AllProper(os)
    ensures BodyText(os) == "" <==> os == []
  {
    if os != [] { SpellingSolid(os[0]); }
    hide Spelling;
  }

  /** Options that may be written: proper ones, and RESTART. */
  predicate Writable(opts: seq<SeqOption>) { forall o :: o in opts ==> Proper(o) || o.kind.Restart? }

  lemma {:induction false} WritesMany(os: seq<SeqOption>, opts: seq<SeqOption>)
    requires AllProper(os) && Writable(opts)
    ensures ApplyOptions(BodyText(os), opts) == BodyText(WriteAll(os, opts)) && AllProper(WriteAll(os, opts))
    decreases |opts|
  {
    hide ApplyOption, Proper, BodyText, WriteOne;
    if opts != [] {
      WritesOne(os, opts[0]);
      WritesMany(WriteOne(os, opts[0]), opts[1..]);
    }
  }

  /** Writing a row of options into a body: what no option writes stays in its
      order, then the last write of every family follows. */
  lemma LastWriterWins(os: seq<SeqOption>, opts: seq<SeqOption>)
    requires AllProper(os) && Writable(opts)
    ensures ApplyOptions(BodyText(os), opts) == BodyText(Untouched(os, opts) + LastWrites(opts))
  {
    WritesMany(os, opts);
    LastWritesLeft(os, opts);
    hide *;
  }

  /** Writing the same options again changes nothing. */
  lemma SameOptionsAgain(os: seq<SeqOption>, opts: seq<SeqOption>)
    requires AllProper(os) && Writable(opts)
    ensures var body := ApplyOptions(BodyText(os), opts); ApplyOptions(body, opts) == body
  {
    WritesMany(os, opts);
    WritesMany(WriteAll(os, opts), opts);
    WritingTwice(os, opts);
    hide *;
  }
}
