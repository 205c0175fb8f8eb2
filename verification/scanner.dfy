/** Paren matching and comma splitting. The specification counts quote
    characters by parity; the code looks ahead for doubled quotes. */
module Scanner {
  import opened Text
  import opened Catalog
  import opened Script

  /** Paren depth and whether an odd number of quotes has been read. */
  datatype Mark = Mark(depth: int, quoted: bool)

  const ZERO := Mark(0, false)

  function Read(m: Mark, c: char): Mark {
    if c == '\'' then m.(quoted := !m.quoted)
    else if m.quoted then m
    else if c == '(' then m.(depth := m.depth + 1)
    else if c == ')' then m.(depth := m.depth - 1)
    else m
  }

  /** The mark before position j, reading from position i with mark m. */
  function MarkAt(s: string, i: nat, m: Mark, j: nat): Mark
    requires i <= j <= |s|
    decreases j
  {
    if i == j then m else Read(MarkAt(s, i, m, j - 1), s[j - 1])
  }

  /** Position j holds a closing paren outside quotes that returns to depth zero. */
  predicate ClosesAt(s: string, i: nat, m: Mark, j: nat)
    requires i <= j < |s|
  {
    s[j] == ')' && MarkAt(s, i, m, j) == Mark(1, false)
  }

  /** The first closing position from i on, or -1. */
  function FirstClose(s: string, i: nat, m: Mark): (r: int)
    requires i <= |s|
    ensures r == -1 || i <= r < |s|
    decreases |s| - i
  {
    if i == |s| then -1
    else if s[i] == ')' && m == Mark(1, false) then i
    else FirstClose(s, i + 1, Read(m, s[i]))
  }

  lemma {:induction false} MarkAtStep(s: string, i: nat, m: Mark, j: nat)
    requires i < j <= |s|
    ensures MarkAt(s, i, m, j) == MarkAt(s, i + 1, Read(m, s[i]), j)
    decreases j
  {
    if i + 1 < j { MarkAtStep(s, i, m, j - 1); }
  }

  /** FirstClose is the least position at which the paren closes. */
  lemma {:induction false} FirstCloseLeast(s: string, i: nat, m: Mark)
    requires i <= |s|
    ensures var r := FirstClose(s, i, m);
            && (r >= 0 ==> ClosesAt(s, i, m, r))
            && forall j :: i <= j < |s| && (r == -1 || j < r) ==> !ClosesAt(s, i, m, j)
    decreases |s| - i
  {
    if i < |s| && !(s[i] == ')' && m == Mark(1, false)) {
      var m' := Read(m, s[i]);
      FirstCloseLeast(s, i + 1, m');
      var r := FirstClose(s, i, m);
      if r >= 0 { MarkAtStep(s, i, m, r); }
      forall j | i <= j < |s| && (r == -1 || j < r) ensures !ClosesAt(s, i, m, j) {
        if i < j {
          MarkAtStep(s, i, m, j);
          assert !ClosesAt(s, i + 1, m', j);
        }
      }
    }
  }

  /** Where reading goes on after a literal that opened before i: past its
      closing quote, or to the end. */
  method SkipLiteral(sql: string, start: nat, ghost depth: int) returns (i: nat)
    requires start <= |sql|
    ensures start <= i <= |sql|
    ensures i < |sql| ==> FirstClose(sql, start, Mark(depth, true)) == FirstClose(sql, i + 1, Mark(depth, false))
    ensures i == |sql| ==> FirstClose(sql, start, Mark(depth, true)) == -1
  {
    i := start;
    while i < |sql|
      invariant start <= i <= |sql|
      invariant FirstClose(sql, start, Mark(depth, true)) == FirstClose(sql, i, Mark(depth, true))
    {
      if sql[i] == '\'' {
        if i + 1 < |sql| && sql[i + 1] == '\'' {
          i := i + 1;
        } else {
          break;
        }
      }
      i := i + 1;
    }
  }

  /** The position of the paren that closes the one at start, or -1. */
  method ParenClose(sql: string, start: nat) returns (r: int)
    ensures start < |sql| && sql[start] == '(' ==> r == FirstClose(sql, start, ZERO)
    ensures !(start < |sql| && sql[start] == '(') ==> r == -1
  {
    if start >= |sql| || sql[start] != '(' { return -1; }
    var depth := 0;
    var i := start;
    while i < |sql|
      invariant start <= i <= |sql| + 1
      invariant i <= |sql| ==> FirstClose(sql, start, ZERO) == FirstClose(sql, i, Mark(depth, false))
      invariant i > |sql| ==> FirstClose(sql, start, ZERO) == -1
    {
      if sql[i] == '(' {
        depth := depth + 1;
      } else if sql[i] == ')' {
        depth := depth - 1;
        if depth == 0 { return i; }
      } else if sql[i] == '\'' {
        i := SkipLiteral(sql, i + 1, depth);
      }
      i := i + 1;
    }
    return -1;
  }

  datatype Body = Inside(text: string) | NoParen | Unmatched

  /** The text between the paren at start and the one that closes it. */
  function ParenBody(sql: string, start: nat): Body {
    if start >= |sql| || sql[start] != '(' then NoParen
    else
      var r := FirstClose(sql, start, ZERO);
      if r < 0 then Unmatched else if r > start then Inside(sql[start + 1..r]) else Unmatched
  }

  method ExtractParenBody(sql: string, start: nat) returns (b: Body)
    ensures b == ParenBody(sql, start)
  {
    if start >= |sql| || sql[start] != '(' { return NoParen; }
    var depth := 0;
    var i := start;
    while i < |sql|
      invariant start <= i <= |sql| + 1
      invariant i == start ==> depth == 0
      invariant i <= |sql| ==> FirstClose(sql, start, ZERO) == FirstClose(sql, i, Mark(depth, false))
      invariant i > |sql| ==> FirstClose(sql, start, ZERO) == -1
    {
      if sql[i] == '(' {
        depth := depth + 1;
      } else if sql[i] == ')' {
        depth := depth - 1;
        if depth == 0 { return Inside(sql[start + 1..i]); }
      } else if sql[i] == '\'' {
        i := SkipLiteral(sql, i + 1, depth);
      }
      i := i + 1;
    }
    return Unmatched;
  }

  // ---- Comma splitting ----

  /** Parts of s[start..], reading from i with mark m: cut at commas at depth
      zero outside quotes, trimmed; an empty last part is dropped. */
  function CommaParts(s: string, start: nat, i: nat, m: Mark): seq<string>
    requires start <= i <= |s|
    decreases |s| - i
  {
    if i == |s| then
      var tail := TrimSpace(s[start..]);
      if tail != "" then [tail] else []
    else if s[i] == ',' && m == ZERO then [TrimSpace(s[start..i])] + CommaParts(s, i + 1, i + 1, ZERO)
    else CommaParts(s, start, i + 1, Read(m, s[i]))
  }

  function CommaItems(s: string): seq<string> { CommaParts(s, 0, 0, ZERO) }

  method SplitAtDepthZeroCommas(s: string) returns (parts: seq<string>)
    ensures parts == CommaItems(s)
  {
    hide TrimSpace;
    parts := [];
    var depth, start, inQuote := 0, 0, false;
    var i := 0;
    while i < |s|
      invariant 0 <= start <= i <= |s|
      invariant parts + CommaParts(s, start, i, Mark(depth, inQuote)) == CommaItems(s)
    {
      var ch := s[i];
      if inQuote {
        if ch == '\'' {
          if i + 1 < |s| && s[i + 1] == '\'' {
            i := i + 1;
          } else {
            inQuote := false;
          }
        }
      } else if ch == '\'' {
        inQuote := true;
      } else if ch == '(' {
        depth := depth + 1;
      } else if ch == ')' {
        depth := depth - 1;
      } else if ch == ',' {
        if depth == 0 {
          var part := TrimSpace(s[start..i]);
          ghost var rest := CommaParts(s, i + 1, i + 1, ZERO);
          assert parts + ([part] + rest) == parts + [part] + rest;
          parts := parts + [part];
          start := i + 1;
        }
      }
      i := i + 1;
    }
    var tail := TrimSpace(s[start..]);
    if tail != "" {
      parts := parts + [tail];
    } else {
      assert parts + [] == parts;
    }
  }

  // ---- Self-contained items ----

  /** From i on with mark m: depth never falls below zero, no comma at depth
      zero, and the end is at depth zero outside quotes. */
  predicate Calm(t: string, i: nat, m: Mark)
    requires i <= |t|
    decreases |t| - i
  {
    if i == |t| then m == ZERO
    else m.depth >= 0 && !(t[i] == ',' && m == ZERO) && Calm(t, i + 1, Read(m, t[i]))
  }

  predicate Item(t: string) { t != "" && Trimmed(t) && Calm(t, 0, ZERO) }

  /** As Calm, but commas at depth zero are allowed. */
  predicate Nested(t: string, i: nat, m: Mark)
    requires i <= |t|
    decreases |t| - i
  {
    if i == |t| then m == ZERO else m.depth >= 0 && Nested(t, i + 1, Read(m, t[i]))
  }

  lemma {:induction false} CalmNested(t: string, i: nat, m: Mark)
    requires i <= |t| && Calm(t, i, m)
    ensures Nested(t, i, m)
    decreases |t| - i
  {
    if i < |t| { CalmNested(t, i + 1, Read(m, t[i])); }
  }

  lemma {:induction false} NestedAppend(a: string, b: string, i: nat, m: Mark)
    requires i <= |a| && Nested(a, i, m) && Nested(b, 0, ZERO)
    ensures Nested(a + b, i, m)
    decreases |a| - i
  {
    if i < |a| {
      NestedAppend(a, b, i + 1, Read(m, a[i]));
    } else {
      NestedShift(a, b, 0, ZERO);
    }
  }

  lemma {:induction false} NestedShift(a: string, b: string, i: nat, m: Mark)
    requires i <= |b| && Nested(b, i, m)
    ensures Nested(a + b, |a| + i, m)
    decreases |b| - i
  {
    if i < |b| { NestedShift(a, b, i + 1, Read(m, b[i])); }
  }

  /** Reading over a nested stretch w[a..b] of a larger text, one level down. */
  lemma {:induction false} NestedCloses(w: string, a: nat, b: nat, k: nat, t: string, m: Mark)
    requires a <= b <= |w| && w[a..b] == t && k <= |t| && Nested(t, k, m)
    ensures FirstClose(w, a + k, m.(depth := m.depth + 1)) == FirstClose(w, b, Mark(1, false))
    decreases |t| - k
  {
    if k < |t| {
      assert w[a + k] == t[k];
      NestedCloses(w, a, b, k + 1, t, Read(m, t[k]));
    }
  }

  /** Commas inside a calm stretch do not cut. */
  lemma {:induction false} CalmKeeps(w: string, start: nat, a: nat, b: nat, k: nat, t: string, m: Mark)
    requires start <= a <= b <= |w| && w[a..b] == t && k <= |t| && Calm(t, k, m)
    ensures CommaParts(w, start, a + k, m) == CommaParts(w, start, b, ZERO)
    decreases |t| - k
  {
    hide TrimSpace;
    if k < |t| {
      assert w[a + k] == t[k];
      CalmKeeps(w, start, a, b, k + 1, t, Read(m, t[k]));
    }
  }

  predicate Blank(s: string) { forall i :: 0 <= i < |s| ==> s[i] == ' ' || s[i] == '\n' }

  lemma {:induction false} BlankCalm(s: string, i: nat)
    requires i <= |s| && Blank(s)
    ensures Calm(s, i, ZERO)
    decreases |s| - i
  {
    if i < |s| { BlankCalm(s, i + 1); }
  }

  /** Calm texts in a row are calm. */
  lemma {:induction false} CalmAppend(a: string, b: string, i: nat, m: Mark)
    requires i <= |a| && Calm(a, i, m) && Calm(b, 0, ZERO)
    ensures Calm(a + b, i, m)
    decreases |a| - i
  {
    if i < |a| {
      CalmAppend(a, b, i + 1, Read(m, a[i]));
    } else {
      CalmShift(a, b, 0, ZERO);
    }
  }

  lemma {:induction false} CalmShift(a: string, b: string, i: nat, m: Mark)
    requires i <= |b| && Calm(b, i, m)
    ensures Calm(a + b, |a| + i, m)
    decreases |b| - i
  {
    if i < |b| { CalmShift(a, b, i + 1, Read(m, b[i])); }
  }

  /** Parts do not depend on what comes before their start. */
  lemma {:induction false} PartsShift(p: string, s: string, start: nat, i: nat, m: Mark)
    requires start <= i <= |s|
    ensures CommaParts(p + s, |p| + start, |p| + i, m) == CommaParts(s, start, i, m)
    decreases |s| - i
  {
    hide TrimSpace;
    var w := p + s;
    if i == |s| {
      assert w[|p| + start..] == s[start..];
    } else {
      assert w[|p| + start..|p| + i] == s[start..i];
      if s[i] == ',' && m == ZERO {
        PartsShift(p, s, i + 1, i + 1, ZERO);
      } else {
        PartsShift(p, s, start, i + 1, Read(m, s[i]));
      }
    }
  }

  // ---- The printed table body ----

  ghost predicate AllItems(items: seq<string>) {
    forall t :: t in items ==> Item(t)
  }

  /** The first printed line, up to its comma or to the end. */
  lemma LinePart(pad: string, t: string, tail: string)
    requires Blank(pad) && Item(t)
    ensures Calm(pad + t, 0, ZERO) && TrimSpace(pad + t) == t
    ensures Blank(tail) ==> TrimSpace(pad + t + tail) == t && Calm(pad + t + tail, 0, ZERO)
  {
    BlankCalm(pad, 0);
    CalmAppend(pad, t, 0, ZERO);
    assert AllSpace(pad) && AllSpace("");
    TrimSpaceUnpads(pad, t, "");
    assert pad + t + "" == pad + t;
    if Blank(tail) {
      assert AllSpace(tail);
      TrimSpaceUnpads(pad, t, tail);
      BlankCalm(tail, 0);
      CalmAppend(pad + t, tail, 0, ZERO);
    }
  }

  lemma SplitNone(pad: string)
    requires Blank(pad)
    ensures CommaItems(pad + Lines([])) == []
  {
    hide TrimSpace, Item;
    BlankCalm(pad, 0);
    var s := pad + Lines([]);
    assert s == pad && s[0..|s|] == s;
    CalmKeeps(s, 0, 0, |s|, 0, s, ZERO);
    BlankTrims(pad);
    assert s[0..] == pad;
  }

  lemma SplitLast(pad: string, items: seq<string>)
    requires Blank(pad) && |items| == 1 && Item(items[0])
    ensures CommaItems(pad + Lines(items)) == items
  {
    hide TrimSpace, Item, Blank, Calm, Lines;
    var t, lead := items[0], pad + INDENT;
    var s := lead + t + "\n";
    BlankLead(pad);
    BlankBreak();
    LinePart(lead, t, "\n");
    LastLine(items, pad);
    assert s[0..|s|] == s && s[0..] == s;
    CalmKeeps(s, 0, 0, |s|, 0, s, ZERO);
    ItemNonempty(t);
    assert items == [t];
  }

  lemma BlankLead(pad: string)
    requires Blank(pad)
    ensures Blank(pad + INDENT)
  {
  }

  lemma BlankBreak()
    ensures Blank("\n")
  {
  }

  lemma CommaAfter(first: string, tail: string)
    ensures var s := first + "," + tail; s[0..|first|] == first && s[|first|] == ','
  {
  }

  lemma SplitFirst(pad: string, items: seq<string>)
    requires Blank(pad) && |items| > 1 && Item(items[0])
    requires CommaItems("\n" + Lines(items[1..])) == items[1..]
    ensures CommaItems(pad + Lines(items)) == items
  {
    hide TrimSpace, Item, Blank, Calm, Lines;
    var t, lead := items[0], pad + INDENT;
    var first, tail := lead + t, "\n" + Lines(items[1..]);
    var s := first + "," + tail;
    BlankLead(pad);
    LinePart(lead, t, "");
    FirstLine(items, pad);
    CommaAfter(first, tail);
    CalmKeeps(s, 0, 0, |first|, 0, first, ZERO);
    PartsShift(first + ",", tail, 0, 0, ZERO);
    assert items == [t] + items[1..];
  }

  /** Splitting a printed body at its commas gives back the items. */
  lemma {:induction false} LinesSplit(pad: string, items: seq<string>)
    requires Blank(pad) && AllItems(items)
    ensures CommaItems(pad + Lines(items)) == items
    decreases |items|
  {
    hide TrimSpace, Item, Lines, CommaItems;
    if items == [] {
      SplitNone(pad);
    } else {
      assert items[0] in items && forall x :: x in items[1..] ==> x in items;
      if |items| == 1 {
        SplitLast(pad, items);
      } else {
        LinesSplit("\n", items[1..]);
        SplitFirst(pad, items);
      }
    }
  }

  lemma ItemNonempty(t: string)
    requires Item(t)
    ensures t != ""
  {
  }

  lemma BlankTrims(pad: string)
    requires Blank(pad)
    ensures TrimSpace(pad) == ""
  {
    assert AllSpace(pad) && AllSpace("");
    TrimSpaceUnpads(pad, "", "");
    assert pad + "" + "" == pad;
  }

  lemma LastLine(items: seq<string>, pad: string)
    requires |items| == 1
    ensures pad + Lines(items) == pad + INDENT + items[0] + "\n"
  {
    assert items[1..] == [];
    assert Lines(items) == INDENT + items[0] + "" + "\n" + "";
  }

  lemma FirstLine(items: seq<string>, pad: string)
    requires |items| > 1
    ensures pad + Lines(items) == pad + INDENT + items[0] + "," + ("\n" + Lines(items[1..]))
  {
    hide Lines;
    assert Lines(items) == INDENT + items[0] + "," + "\n" + Lines(items[1..]) by { LinesHead(items); }
  }

  lemma LinesHead(items: seq<string>)
    requires |items| > 1
    ensures Lines(items) == INDENT + items[0] + "," + "\n" + Lines(items[1..])
  {
  }

  lemma {:induction false} LinesNested(items: seq<string>)
    requires AllItems(items)
    ensures Nested(Lines(items), 0, ZERO)
  {
    hide Item, Trimmed;
    if items != [] {
      var t, rest := items[0], Lines(items[1..]);
      var end := (if |items| == 1 then "" else ",") + "\n";
      assert t in items && Calm(t, 0, ZERO) by { assert Item(t); ItemCalm(t); }
      CalmNested(t, 0, ZERO);
      LinesNested(items[1..]);
      assert Nested(INDENT, 0, ZERO) by { BlankCalm(INDENT, 0); CalmNested(INDENT, 0, ZERO); }
      FlatNested(end, 0);
      hide Nested, Lines;
      NestedAppend(INDENT, t, 0, ZERO);
      NestedAppend(INDENT + t, end, 0, ZERO);
      NestedAppend(INDENT + t + end, rest, 0, ZERO);
      assert Lines(items) == INDENT + t + end + rest by { LinesEnd(items, end); }
    }
  }

  lemma ItemCalm(t: string)
    requires Item(t)
    ensures Calm(t, 0, ZERO)
  {
  }

  /** Text without quotes and parens is nested. */
  lemma {:induction false} FlatNested(t: string, i: nat)
    requires i <= |t| && forall k :: 0 <= k < |t| ==> t[k] != '(' && t[k] != ')' && t[k] != '\''
    ensures Nested(t, i, ZERO)
    decreases |t| - i
  {
    if i < |t| { FlatNested(t, i + 1); }
  }

  lemma LinesEnd(items: seq<string>, end: string)
    requires items != [] && end == (if |items| == 1 then "" else ",") + "\n"
    ensures Lines(items) == INDENT + items[0] + end + Lines(items[1..])
  {
    var rest := Lines(items[1..]);
    var comma := if |items| == 1 then "" else ",";
    assert Lines(items) == INDENT + items[0] + comma + "\n" + rest;
    hide Lines;
    var a := INDENT + items[0];
    AssociateThree(a, comma, "\n");
  }

  /** The matching paren of a printed table is the one the printer wrote, and
      splitting what is between them gives the column and constraint texts back,
      one item each, in order. */
  lemma TableBodyRoundTrip(t: TableDef)
    requires AllItems(Items(t))
    ensures FirstClose(TableText(t), |TableHead(t)|, ZERO) == |TableHead(t)| + 1 + |TableBody(t)|
    ensures ParenBody(TableText(t), |TableHead(t)|) == Inside(TableBody(t))
    ensures CommaItems(TableBody(t)) == Items(t)
  {
    var head, body, tail := TableHead(t), TableBody(t), TableTail(t);
    var w := TableText(t);
    assert w == head + "(" + body + ")" + tail;
    assert body == "\n" + Lines(Items(t));
    LinesNested(Items(t));
    LinesSplit("\n", Items(t));
    hide TableText, TableHead, TableBody, TableTail, Items, Lines;
    FlatNested("\n", 0);
    NestedAppend("\n", Lines(Items(t)), 0, ZERO);
    BracketedBody(head, body, tail);
  }

  lemma BracketedBody(head: string, body: string, tail: string)
    requires Nested(body, 0, ZERO)
    ensures var w := head + "(" + body + ")" + tail;
            && FirstClose(w, |head|, ZERO) == |head| + 1 + |body|
            && ParenBody(w, |head|) == Inside(body)
  {
    var w := head + "(" + body + ")" + tail;
    var a, b := |head| + 1, |head| + 1 + |body|;
    assert w[a..b] == body && w[|head|] == '(' && w[b] == ')';
    NestedCloses(w, a, b, 0, body, ZERO);
  }
}
