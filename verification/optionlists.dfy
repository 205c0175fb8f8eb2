/** Sequence options as lists: what writing one option after the other leaves. */
module OptionLists {
  import opened Ast
  import opened SequenceBody

  function WithoutFamily(body: seq<SeqOption>, f: Family): seq<SeqOption> {
    if body == [] then []
    else (if FamilyOf(body[0].kind) == f then [] else [body[0]]) + WithoutFamily(body[1..], f)
  }

  function WriteOne(body: seq<SeqOption>, o: SeqOption): seq<SeqOption> {
    if o.kind.Restart? then body else WithoutFamily(body, FamilyOf(o.kind)) + [o]
  }

  function WriteAll(body: seq<SeqOption>, opts: seq<SeqOption>): seq<SeqOption>
    decreases |opts|
  {
    if opts == [] then body else WriteAll(WriteOne(body, opts[0]), opts[1..])
  }

  /** Does the list write an option of family f? RESTART writes nothing. */
  predicate Writes(opts: seq<SeqOption>, f: Family) {
    exists i :: 0 <= i < |opts| && !opts[i].kind.Restart? && FamilyOf(opts[i].kind) == f
  }

  /** The body's options of families that are not written, in their order. */
  function Untouched(body: seq<SeqOption>, opts: seq<SeqOption>): seq<SeqOption> {
    if body == [] then []
    else (if Writes(opts, FamilyOf(body[0].kind)) then [] else [body[0]]) + Untouched(body[1..], opts)
  }

  /** The last write of each family, in the order of those writes. */
  function LastWrites(opts: seq<SeqOption>): seq<SeqOption> {
    if opts == [] then []
    else
      (if opts[0].kind.Restart? || Writes(opts[1..], FamilyOf(opts[0].kind)) then [] else [opts[0]])
      + LastWrites(opts[1..])
  }

  lemma {:induction false} UntouchedAppend(a: seq<SeqOption>, b: seq<SeqOption>, opts: seq<SeqOption>)
    ensures Untouched(a + b, opts) == Untouched(a, opts) + Untouched(b, opts)
    decreases |a|
  {
    hide Writes;
    if a == [] {
      assert a + b == b;
    } else {
      assert (a + b)[1..] == a[1..] + b;
      UntouchedAppend(a[1..], b, opts);
    }
  }

  lemma UntouchedOne(o: SeqOption, opts: seq<SeqOption>)
    ensures Untouched([o], opts) == if Writes(opts, FamilyOf(o.kind)) then [] else [o]
  {
    assert [o][1..] == [];
  }

  lemma WritesHead(opts: seq<SeqOption>, f: Family)
    requires opts != []
    ensures Writes(opts, f) <==> (!opts[0].kind.Restart? && FamilyOf(opts[0].kind) == f) || Writes(opts[1..], f)
  {
    if Writes(opts[1..], f) {
      var i :| 0 <= i < |opts[1..]| && !opts[1..][i].kind.Restart? && FamilyOf(opts[1..][i].kind) == f;
      assert opts[i + 1] == opts[1..][i];
    }
    if Writes(opts, f) {
      var i :| 0 <= i < |opts| && !opts[i].kind.Restart? && FamilyOf(opts[i].kind) == f;
      assert i > 0 ==> opts[1..][i - 1] == opts[i];
    }
  }

  /** Removing a family first changes nothing for what the whole list leaves alone. */
  lemma {:induction false} UntouchedWithout(body: seq<SeqOption>, opts: seq<SeqOption>)
    requires opts != []
    ensures Untouched(if opts[0].kind.Restart? then body else WithoutFamily(body, FamilyOf(opts[0].kind)), opts[1..])
            == Untouched(body, opts)
    decreases |body|
  {
    hide Writes, FamilyOf;
    if body != [] {
      UntouchedWithout(body[1..], opts);
      WritesHead(opts, FamilyOf(body[0].kind));
      var f := FamilyOf(opts[0].kind);
      if !opts[0].kind.Restart? && FamilyOf(body[0].kind) == f {
        assert [] + WithoutFamily(body[1..], f) == WithoutFamily(body[1..], f);
      } else if !opts[0].kind.Restart? {
        UntouchedAppend([body[0]], WithoutFamily(body[1..], f), opts[1..]);
        UntouchedOne(body[0], opts[1..]);
      }
    }
  }

  lemma HeadTail(o: SeqOption, rest: seq<SeqOption>)
    ensures var opts := [o] + rest; opts != [] && opts[0] == o && opts[1..] == rest
  {
  }

  lemma LastWritesHead(o: SeqOption, rest: seq<SeqOption>)
    ensures LastWrites([o] + rest)
            == (if o.kind.Restart? || Writes(rest, FamilyOf(o.kind)) then [] else [o]) + LastWrites(rest)
  {
    hide Writes, FamilyOf;
    HeadTail(o, rest);
  }

  lemma ApplyHead(body: seq<SeqOption>, o: SeqOption, rest: seq<SeqOption>)
    ensures WriteAll(body, [o] + rest) == WriteAll(WriteOne(body, o), rest)
  {
    hide WriteOne;
    HeadTail(o, rest);
  }

  /** What is left alone after writing one option. */
  lemma UntouchedWrite(body: seq<SeqOption>, o: SeqOption, rest: seq<SeqOption>)
    ensures Untouched(WriteOne(body, o), rest) == Untouched(body, [o] + rest)
            + if o.kind.Restart? || Writes(rest, FamilyOf(o.kind)) then [] else [o]
  {
    hide Writes, FamilyOf, WithoutFamily, Untouched;
    HeadTail(o, rest);
    UntouchedWithout(body, [o] + rest);
    if o.kind.Restart? {
      assert Untouched(body, [o] + rest) + [] == Untouched(body, [o] + rest);
    } else {
      UntouchedAppend(WithoutFamily(body, FamilyOf(o.kind)), [o], rest);
      UntouchedOne(o, rest);
    }
  }

  lemma FirstWrite(body: seq<SeqOption>, o: SeqOption, rest: seq<SeqOption>)
    requires WriteAll(WriteOne(body, o), rest) == Untouched(WriteOne(body, o), rest) + LastWrites(rest)
    ensures WriteAll(body, [o] + rest) == Untouched(body, [o] + rest) + LastWrites([o] + rest)
  {
    hide Writes, FamilyOf, WriteOne, WriteAll, Untouched, LastWrites;
    ApplyHead(body, o, rest);
    LastWritesHead(o, rest);
    UntouchedWrite(body, o, rest);
    Associated(Untouched(body, [o] + rest),
               if o.kind.Restart? || Writes(rest, FamilyOf(o.kind)) then [] else [o], LastWrites(rest));
  }

  /** Writing a row of options: what no option writes stays in its order, then
      the last write of every family follows. */
  lemma {:induction false} LastWritesLeft(body: seq<SeqOption>, opts: seq<SeqOption>)
    ensures WriteAll(body, opts) == Untouched(body, opts) + LastWrites(opts)
    decreases |opts|
  {
    if opts == [] {
      hide Writes;
      NothingWritten(body);
    } else {
      hide WriteAll, WriteOne, Untouched, LastWrites;
      LastWritesLeft(WriteOne(body, opts[0]), opts[1..]);
      FirstWrite(body, opts[0], opts[1..]);
      assert opts == [opts[0]] + opts[1..];
    }
  }

  lemma {:induction false} NothingWritten(body: seq<SeqOption>)
    ensures Untouched(body, []) == body
  {
    if body != [] {
      assert !Writes([], FamilyOf(body[0].kind));
      NothingWritten(body[1..]);
    }
  }

  /** The options of one family in a body. */
  function OfFamily(body: seq<SeqOption>, f: Family): seq<SeqOption> {
    if body == [] then [] else (if FamilyOf(body[0].kind) == f then [body[0]] else []) + OfFamily(body[1..], f)
  }

  lemma OfFamilyHead(o: SeqOption, rest: seq<SeqOption>, f: Family)
    ensures OfFamily([o] + rest, f) == (if FamilyOf(o.kind) == f then [o] else []) + OfFamily(rest, f)
  {
    hide FamilyOf;
    assert ([o] + rest)[1..] == rest;
  }

  lemma Associated(a: seq<SeqOption>, b: seq<SeqOption>, c: seq<SeqOption>)
    ensures a + (b + c) == a + b + c
  {
  }

  lemma {:induction false} OfFamilyAppend(a: seq<SeqOption>, b: seq<SeqOption>, f: Family)
    ensures OfFamily(a + b, f) == OfFamily(a, f) + OfFamily(b, f)
    decreases |a|
  {
    if a == [] {
      assert a + b == b;
    } else {
      hide FamilyOf, OfFamily;
      var o, rest := a[0], a[1..];
      assert a == [o] + rest && a + b == [o] + (rest + b);
      OfFamilyHead(o, rest, f);
      OfFamilyHead(o, rest + b, f);
      OfFamilyAppend(rest, b, f);
      Associated(if FamilyOf(o.kind) == f then [o] else [], OfFamily(rest, f), OfFamily(b, f));
    }
  }

  lemma {:induction false} UntouchedFamily(body: seq<SeqOption>, opts: seq<SeqOption>, f: Family)
    ensures OfFamily(Untouched(body, opts), f) == if Writes(opts, f) then [] else OfFamily(body, f)
    decreases |body|
  {
    hide FamilyOf, Writes;
    if body != [] {
      UntouchedFamily(body[1..], opts, f);
      var here := if Writes(opts, FamilyOf(body[0].kind)) then [] else [body[0]];
      OfFamilyAppend(here, Untouched(body[1..], opts), f);
      assert here != [] ==> here[1..] == [];
    }
  }

  lemma {:induction false} LastWritesFamily(opts: seq<SeqOption>, f: Family)
    ensures |OfFamily(LastWrites(opts), f)| == if Writes(opts, f) then 1 else 0
  {
    hide FamilyOf, Writes;
    if opts == [] {
      NoWrites(f);
    } else {
      LastWritesFamily(opts[1..], f);
      WritesHead(opts, f);
      var gone := opts[0].kind.Restart? || Writes(opts[1..], FamilyOf(opts[0].kind));
      var here := if gone then [] else [opts[0]];
      OfFamilyAppend(here, LastWrites(opts[1..]), f);
      assert here != [] ==> here[1..] == [];
    }
  }

  lemma NoWrites(f: Family)
    ensures !Writes([], f)
  {
  }

  /** After writing, a written family has exactly one option, and the options of
      any other family are what they were. */
  lemma OnePerWrittenFamily(body: seq<SeqOption>, opts: seq<SeqOption>, f: Family)
    ensures var r := OfFamily(WriteAll(body, opts), f);
            if Writes(opts, f) then |r| == 1 else r == OfFamily(body, f)
  {
    LastWritesLeft(body, opts);
    UntouchedFamily(body, opts, f);
    LastWritesFamily(opts, f);
    OfFamilyAppend(Untouched(body, opts), LastWrites(opts), f);
    hide Writes, Untouched, LastWrites, OfFamily, WriteAll;
  }

  /** Writing the same options again changes nothing. */
  lemma WritingTwice(body: seq<SeqOption>, opts: seq<SeqOption>)
    ensures WriteAll(WriteAll(body, opts), opts) == WriteAll(body, opts)
  {
    hide Untouched, LastWrites, WriteAll, Writes;
    var u, l := Untouched(body, opts), LastWrites(opts);
    LastWritesLeft(body, opts);
    LastWritesLeft(u + l, opts);
    UntouchedAppend(u, l, opts);
    UntouchedTwice(body, opts);
    WritesUntouched(opts, opts);
    assert u + [] == u;
  }

  lemma {:induction false} UntouchedTwice(body: seq<SeqOption>, opts: seq<SeqOption>)
    ensures Untouched(Untouched(body, opts), opts) == Untouched(body, opts)
    decreases |body|
  {
    hide Writes, FamilyOf;
    if body != [] {
      UntouchedTwice(body[1..], opts);
      if Writes(opts, FamilyOf(body[0].kind)) {
        assert [] + Untouched(body[1..], opts) == Untouched(body[1..], opts);
      } else {
        UntouchedAppend([body[0]], Untouched(body[1..], opts), opts);
        UntouchedOne(body[0], opts);
      }
    }
  }

  /** Nothing that a tail of the list writes is left alone by the whole list. */
  lemma {:induction false} WritesUntouched(tail: seq<SeqOption>, opts: seq<SeqOption>)
    requires forall f :: Writes(tail, f) ==> Writes(opts, f)
    ensures Untouched(LastWrites(tail), opts) == []
    decreases |tail|
  {
    hide FamilyOf, Writes;
    if tail != [] {
      var o := tail[0];
      forall f | Writes(tail[1..], f) ensures Writes(opts, f) { WritesHead(tail, f); }
      WritesUntouched(tail[1..], opts);
      WritesHead(tail, FamilyOf(o.kind));
      var here := if o.kind.Restart? || Writes(tail[1..], FamilyOf(o.kind)) then [] else [o];
      UntouchedAppend(here, LastWrites(tail[1..]), opts);
      if here != [] { UntouchedOne(o, opts); }
    }
  }
}
