/** Texts built from plain words, quoted literals and parenthesised groups: the
    paren and comma scans see their structure. */
module Structured {
  import opened Text
  import opened Scanner

  datatype Piece = Plain(text: string) | Literal(value: string) | Group(pieces: seq<Piece>)

  function PieceText(p: Piece): string
    decreases p, 0
  {
    match p
    case Plain(t) => t
    case Literal(v) => "'" + v + "'"
    case Group(ps) => "(" + TextOf(ps) + ")"
  }

  function TextOf(ps: seq<Piece>): string
    decreases ps, 1
  {
    if ps == [] then "" else PieceText(ps[0]) + TextOf(ps[1..])
  }

  /** Words hold neither quotes nor parens, and literals no quote of their own: a
      doubled quote is two literals side by side. */
  predicate Proper(p: Piece)
    decreases p, 0
  {
    match p
    case Plain(t) => forall i :: 0 <= i < |t| ==> t[i] != '\'' && t[i] != '(' && t[i] != ')'
    case Literal(v) => forall i :: 0 <= i < |v| ==> v[i] != '\''
    case Group(ps) => AllProper(ps)
  }

  predicate AllProper(ps: seq<Piece>)
    decreases ps, 1
  {
    ps == [] || (Proper(ps[0]) && AllProper(ps[1..]))
  }

  /** No comma outside literals and groups. */
  predicate Whole(ps: seq<Piece>) {
    forall p :: p in ps ==> p.Plain? ==> forall i :: 0 <= i < |p.text| ==> p.text[i] != ','
  }

  lemma {:induction false} PlainNested(t: string, i: nat)
    requires i <= |t| && forall k :: i <= k < |t| ==> t[k] != '\'' && t[k] != '(' && t[k] != ')'
    ensures Nested(t, i, ZERO)
    ensures (forall k :: i <= k < |t| ==> t[k] != ',') ==> Calm(t, i, ZERO)
    decreases |t| - i
  {
    if i < |t| { PlainNested(t, i + 1); }
  }

  lemma {:induction false} LiteralCalm(t: string, i: nat)
    requires 0 < i < |t| && t[|t| - 1] == '\'' && forall k :: i <= k < |t| - 1 ==> t[k] != '\''
    ensures Calm(t, i, Mark(0, true))
    decreases |t| - i
  {
    if i < |t| - 1 { LiteralCalm(t, i + 1); }
  }

  /** Inside parens every comma is deeper. */
  lemma {:induction false} GroupCalm(t: string, i: nat, m: Mark)
    requires i <= |t| && Nested(t, i, m)
    ensures Calm("(" + t + ")", i + 1, m.(depth := m.depth + 1))
    decreases |t| - i
  {
    var g := "(" + t + ")";
    if i < |t| {
      assert g[i + 1] == t[i];
      GroupCalm(t, i + 1, Read(m, t[i]));
    } else {
      assert g[i + 1] == ')';
    }
  }

  lemma {:induction false} CalmAppend(a: string, b: string, i: nat, m: Mark)
    requires i <= |a| && Calm(a, i, m) && Calm(b, 0, ZERO)
    ensures Calm(a + b, i, m)
    decreases |a| - i
  {
    if i < |a| { CalmAppend(a, b, i + 1, Read(m, a[i])); } else { CalmShift(a, b, 0, ZERO); }
  }

  lemma {:induction false} CalmShift(a: string, b: string, i: nat, m: Mark)
    requires i <= |b| && Calm(b, i, m)
    ensures Calm(a + b, |a| + i, m)
    decreases |b| - i
  {
    if i < |b| { CalmShift(a, b, i + 1, Read(m, b[i])); }
  }

  lemma {:induction false} PieceBalanced(p: Piece)
    requires Proper(p)
    ensures Nested(PieceText(p), 0, ZERO)
    ensures (p.Plain? ==> forall i :: 0 <= i < |p.text| ==> p.text[i] != ',') ==> Calm(PieceText(p), 0, ZERO)
    decreases p, 0
  {
    match p
    case Plain(t) => PlainNested(t, 0);
    case Literal(v) =>
      var t := PieceText(p);
      assert t[0] == '\'';
      LiteralCalm(t, 1);
      CalmNested(t, 0, ZERO);
    case Group(ps) =>
      Balanced(ps);
      GroupCalm(TextOf(ps), 0, ZERO);
      CalmNested(PieceText(p), 0, ZERO);
  }

  /** A structured text is balanced, and calm if all its commas are inside. */
  lemma {:induction false} Balanced(ps: seq<Piece>)
    requires AllProper(ps)
    ensures Nested(TextOf(ps), 0, ZERO)
    ensures Whole(ps) ==> Calm(TextOf(ps), 0, ZERO)
    decreases ps, 1
  {
    if ps != [] {
      PieceBalanced(ps[0]);
      Balanced(ps[1..]);
      NestedAppend(PieceText(ps[0]), TextOf(ps[1..]), 0, ZERO);
      if Whole(ps) {
        assert ps[0] in ps && forall p :: p in ps[1..] ==> p in ps;
        CalmAppend(PieceText(ps[0]), TextOf(ps[1..]), 0, ZERO);
      }
    }
  }

  // ---- Parens ----

  /** The paren body is the whole group, whatever its literals and groups hold,
      and whatever follows. */
  lemma GroupFound(before: string, ps: seq<Piece>, rest: string)
    requires AllProper(ps)
    ensures ParenBody(before + "(" + TextOf(ps) + ")" + rest, |before|) == Inside(TextOf(ps))
  {
    var t := TextOf(ps);
    var s := before + "(" + t + ")" + rest;
    var a, b := |before| + 1, |before| + 1 + |t|;
    Balanced(ps);
    assert s[a..b] == t && s[a - 1] == '(' && s[b] == ')';
    NestedCloses(s, a, b, 0, t, ZERO);
    hide Nested, Calm;
  }

  /** Without its closing paren the group is unmatched. */
  lemma GroupOpen(before: string, ps: seq<Piece>)
    requires AllProper(ps)
    ensures ParenBody(before + "(" + TextOf(ps), |before|) == Unmatched
  {
    var t := TextOf(ps);
    var s := before + "(" + t;
    var a, b := |before| + 1, |before| + 1 + |t|;
    Balanced(ps);
    assert s[a..b] == t && s[a - 1] == '(';
    NestedCloses(s, a, b, 0, t, ZERO);
    hide Nested, Calm;
  }

  /** So it is when a literal inside stays open, for then no paren is read. */
  lemma LiteralOpen(before: string, ps: seq<Piece>, v: string)
    requires AllProper(ps) && forall i :: 0 <= i < |v| ==> v[i] != '\''
    ensures ParenBody(before + "(" + TextOf(ps) + "'" + v, |before|) == Unmatched
  {
    hide Nested, Calm;
    var t := TextOf(ps);
    var s := before + "(" + t + "'" + v;
    var a, b := |before| + 1, |before| + 1 + |t|;
    Balanced(ps);
    assert s[a..b] == t && s[a - 1] == '(' && s[b] == '\'';
    NestedCloses(s, a, b, 0, t, ZERO);
    NeverCloses(s, b + 1);
  }

  lemma {:induction false} NeverCloses(s: string, i: nat)
    requires i <= |s| && forall k :: i <= k < |s| ==> s[k] != '\''
    ensures FirstClose(s, i, Mark(1, true)) == -1
    decreases |s| - i
  {
    if i < |s| { NeverCloses(s, i + 1); }
  }

  // ---- Commas ----

  /** The items one after the other, with commas between. */
  function Listed(items: seq<seq<Piece>>): string {
    if items == [] then "" else if |items| == 1 then TextOf(items[0]) else TextOf(items[0]) + "," + Listed(items[1..])
  }

  function Trims(items: seq<seq<Piece>>): seq<string> {
    seq(|items|, i requires 0 <= i < |items| => TrimSpace(TextOf(items[i])))
  }

  /** The last item does not count if it is blank. */
  function WithoutBlankEnd(parts: seq<string>): seq<string> {
    if parts != [] && parts[|parts| - 1] == "" then parts[..|parts| - 1] else parts
  }

  lemma TakesItem(w: string, start: nat, t: string, rest: string)
    requires start <= |w| && Calm(t, 0, ZERO) && w[start..] == t + "," + rest
    ensures CommaParts(w, start, start, ZERO)
            == [TrimSpace(t)] + CommaParts(w, start + |t| + 1, start + |t| + 1, ZERO)
    ensures start + |t| + 1 <= |w| && w[start + |t| + 1..] == rest
  {
    hide TrimSpace, Calm;
    var n := start + |t|;
    assert w[start..][..|t|] == t && w[start..][|t|] == ',' && w[start..][|t| + 1..] == rest;
    assert w[start..n] == t && w[n] == ',' && w[n + 1..] == rest;
    CalmKeeps(w, start, start, n, 0, t, ZERO);
  }

  lemma TakesLast(w: string, start: nat, t: string)
    requires start <= |w| && Calm(t, 0, ZERO) && w[start..] == t
    ensures CommaParts(w, start, start, ZERO) == if TrimSpace(t) != "" then [TrimSpace(t)] else []
  {
    hide TrimSpace, Calm;
    CalmKeeps(w, start, start, |w|, 0, t, ZERO);
  }

  lemma {:induction false} ItemsFrom(w: string, start: nat, items: seq<seq<Piece>>)
    requires items != [] && start <= |w| && w[start..] == Listed(items)
    requires forall ps :: ps in items ==> AllProper(ps) && Whole(ps)
    ensures CommaParts(w, start, start, ZERO) == WithoutBlankEnd(Trims(items))
    decreases |items|
  {
    hide TrimSpace, CommaParts, TextOf, AllProper, Whole, Calm;
    var t := TextOf(items[0]);
    assert items[0] in items;
    Balanced(items[0]);
    if |items| == 1 {
      TakesLast(w, start, t);
      assert Trims(items) == [TrimSpace(t)];
      assert Trims(items)[..0] == [];
    } else {
      TakesItem(w, start, t, Listed(items[1..]));
      forall ps | ps in items[1..] ensures AllProper(ps) && Whole(ps) { assert ps in items; }
      ItemsFrom(w, start + |t| + 1, items[1..]);
      var tail := Trims(items[1..]);
      assert Trims(items) == [TrimSpace(t)] + tail;
      assert tail[|tail| - 1] == "" ==> ([TrimSpace(t)] + tail)[..|tail|] == [TrimSpace(t)] + tail[..|tail| - 1];
    }
  }

  /** Commas cut between the items and nowhere else, neither in literals nor in
      groups, and each item is trimmed. */
  lemma ItemsFound(items: seq<seq<Piece>>)
    requires items != [] && forall ps :: ps in items ==> AllProper(ps) && Whole(ps)
    ensures CommaItems(Listed(items)) == WithoutBlankEnd(Trims(items))
  {
    hide Listed, AllProper, Whole, Trims, CommaParts;
    assert Listed(items)[0..] == Listed(items);
    ItemsFrom(Listed(items), 0, items);
  }
}
