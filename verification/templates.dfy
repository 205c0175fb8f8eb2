/** How the new name of a column is filled in: dollar signs in it are read as
    references to the match. */
module Templates {
  import opened Text
  import opened Patterns

  /** Text without a dollar sign is copied. */
  lemma {:induction false} PlainPart(a: string, rest: string, m: string)
    requires forall i :: 0 <= i < |a| ==> a[i] != '$'
    ensures Expand(a + rest, m) == a + Expand(rest, m)
  {
    if a == "" {
      assert a + rest == rest;
    } else {
      assert (a + rest)[1..] == a[1..] + rest;
      PlainPart(a[1..], rest, m);
      assert [a[0]] + (a[1..] + Expand(rest, m)) == a + Expand(rest, m);
    }
  }

  /** A doubled dollar sign is one. */
  lemma DoubledSign(rest: string, m: string)
    ensures Expand("$$" + rest, m) == "$" + Expand(rest, m)
  {
    assert ("$$" + rest)[2..] == rest;
  }

  predicate Name(n: string) { n != "" && forall i :: 0 <= i < |n| ==> IsWordChar(n[i]) }

  /** No word character begins the text. */
  predicate Apart(rest: string) { rest != "" ==> !IsWordChar(rest[0]) }

  lemma {:induction false} RunIs(n: string, rest: string)
    requires (forall i :: 0 <= i < |n| ==> IsWordChar(n[i])) && Apart(rest)
    ensures NameRun(n + rest) == |n|
  {
    if n == "" {
      assert n + rest == rest;
    } else {
      assert (n + rest)[1..] == n[1..] + rest;
      RunIs(n[1..], rest);
    }
  }

  /** What a reference stands for: 0 is the match, and there is nothing else. */
  function Meaning(n: string, m: string): string { if n == "0" then m else "" }

  /** A reference goes to the end of its word. */
  lemma Reference(n: string, rest: string, m: string)
    requires Name(n) && Apart(rest)
    ensures Expand("$" + (n + rest), m) == Meaning(n, m) + Expand(rest, m)
  {
    var t := "$" + (n + rest);
    assert t[1] == n[0] && IsWordChar(n[0]);
    assert t[1..] == n + rest;
    RunIs(n, rest);
    assert t[1..1 + |n|] == n && t[1 + |n|..] == rest;
  }

  /** Or stands in braces, with anything behind them. */
  lemma Braced(n: string, rest: string, m: string)
    requires Name(n)
    ensures Expand("${" + (n + ("}" + rest)), m) == Meaning(n, m) + Expand(rest, m)
  {
    var u := "}" + rest;
    var t := "${" + (n + u);
    assert u[0] == '}' && t[2..] == n + u && t[1] == '{';
    RunIs(n, u);
    assert t[2..2 + |n|] == n && t[2 + |n|] == '}' && t[2 + |n| + 1..] == rest;
  }

  /** A sign before anything else stands for itself. */
  lemma LoneSign(rest: string, m: string)
    requires rest == "" || (!IsWordChar(rest[0]) && rest[0] != '$' && rest[0] != '{')
    ensures Expand("$" + rest, m) == "$" + Expand(rest, m)
  {
    var t := "$" + rest;
    assert t[1..] == rest;
    if rest != "" { assert t[1] == rest[0]; }
    assert NameRun(t[1..]) == 0;
  }
}
