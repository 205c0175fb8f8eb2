/** TRUNCATE statements share an entry exactly when they name the same tables. */
module Truncates {
  import opened Text
  import opened Ast
  import opened Positions
  import opened Catalog
  import opened Indexed
  import opened Plain
  import opened Replay
  import opened Refinement
  import opened Absorption

  // ---- The order ----

  lemma {:induction false} LexTotal(a: string, b: string)
    ensures LexLeq(a, b) || LexLeq(b, a)
  {
    if a != "" && b != "" { LexTotal(a[1..], b[1..]); }
  }

  lemma {:induction false} LexAntisymmetric(a: string, b: string)
    requires LexLeq(a, b) && LexLeq(b, a)
    ensures a == b
  {
    if a != "" {
      LexAntisymmetric(a[1..], b[1..]);
      assert a == [a[0]] + a[1..] && b == [b[0]] + b[1..];
    }
  }

  lemma {:induction false} LexTransitive(a: string, b: string, c: string)
    requires LexLeq(a, b) && LexLeq(b, c)
    ensures LexLeq(a, c)
  {
    if a != "" && a[0] == b[0] && b[0] == c[0] { LexTransitive(a[1..], b[1..], c[1..]); }
  }

  // ---- Sorting ----

  ghost predicate Sorted(s: seq<string>) {
    forall i, j :: 0 <= i < j < |s| ==> LexLeq(s[i], s[j])
  }

  lemma {:induction false} InsertCounts(x: string, s: seq<string>, y: string)
    ensures Count(Insert(x, s), y) == Count(s, y) + if x == y then 1 else 0
  {
    hide LexLeq;
    if s == [] || LexLeq(x, s[0]) {
      assert ([x] + s)[1..] == s;
    } else {
      InsertCounts(x, s[1..], y);
      assert ([s[0]] + Insert(x, s[1..]))[1..] == Insert(x, s[1..]);
    }
  }

  lemma {:induction false} InsertSorted(x: string, s: seq<string>)
    requires Sorted(s)
    ensures Sorted(Insert(x, s))
    ensures forall y :: y in Insert(x, s) ==> y == x || y in s
  {
    hide LexLeq;
    if s == [] {
    } else if LexLeq(x, s[0]) {
      var r := [x] + s;
      forall i, j | 0 <= i < j < |r| ensures LexLeq(r[i], r[j]) {
        if i == 0 && j > 1 { LexTransitive(x, s[0], s[j - 1]); }
      }
    } else {
      LexTotal(x, s[0]);
      InsertSorted(x, s[1..]);
      var t := Insert(x, s[1..]);
      var r := [s[0]] + t;
      forall i, j | 0 <= i < j < |r| ensures LexLeq(r[i], r[j]) {
        if i == 0 { assert r[j] in t; } else { assert LexLeq(t[i - 1], t[j - 1]); }
      }
    }
  }

  /** Sorting permutes and orders. */
  lemma {:induction false} SortSorts(s: seq<string>, y: string)
    ensures Count(Sort(s), y) == Count(s, y)
    ensures Sorted(Sort(s))
  {
    hide Insert;
    if s != [] {
      SortSorts(s[1..], y);
      InsertCounts(s[0], Sort(s[1..]), y);
      InsertSorted(s[0], Sort(s[1..]));
    }
  }

  lemma SortedHead(a: seq<string>, b: seq<string>)
    requires Sorted(a) && Sorted(b) && a != [] && b != []
    requires a[0] in b && b[0] in a
    ensures a[0] == b[0]
  {
    var i :| 0 <= i < |b| && b[i] == a[0];
    var j :| 0 <= j < |a| && a[j] == b[0];
    if i > 0 && j > 0 { LexAntisymmetric(a[0], b[0]); }
  }

  /** A sorted list is determined by what it counts. */
  lemma {:induction false} SortedUnique(a: seq<string>, b: seq<string>)
    requires Sorted(a) && Sorted(b) && forall y :: Count(a, y) == Count(b, y)
    ensures a == b
  {
    hide LexLeq;
    if a == [] {
      if b != [] { CountMember(b, b[0]); }
    } else {
      CountMember(a, a[0]);
      CountMember(b, a[0]);
      assert b != [];
      CountMember(b, b[0]);
      CountMember(a, b[0]);
      SortedHead(a, b);
      forall y ensures Count(a[1..], y) == Count(b[1..], y) {
        assert Count(a, y) == Count(b, y);
      }
      SortedUnique(a[1..], b[1..]);
      assert a == [a[0]] + a[1..] && b == [b[0]] + b[1..];
    }
  }

  // ---- The key ----

  predicate CommaFree(names: seq<string>) { forall n :: n in names ==> ',' !in n }

  lemma CommaCut(x: string, rest: string)
    ensures var j := x + "," + rest; j[..|x|] == x && j[|x|] == ',' && j[|x| + 1..] == rest
  {
  }

  lemma JoinSplits(a: seq<string>)
    requires CommaFree(a) && a != []
    ensures var j := Join(a, ",");
            && |a[0]| <= |j| && j[..|a[0]|] == a[0] && (|a| == 1 <==> |j| == |a[0]|)
            && (|a| > 1 ==> j[|a[0]|] == ',' && j[|a[0]| + 1..] == Join(a[1..], ","))
  {
    if |a| > 1 { CommaCut(a[0], Join(a[1..], ",")); }
  }

  lemma NotShorter(m: nat, y: string, j: string)
    requires m <= |j| && (m < |j| ==> j[m] == ',') && |y| <= |j| && j[..|y|] == y && ',' !in y
    ensures |y| <= m
  {
    assert forall i :: 0 <= i < |y| ==> y[i] == j[i] && y[i] in y;
  }

  /** Joining by commas loses nothing on comma-free names. */
  lemma {:induction false} JoinInjective(a: seq<string>, b: seq<string>)
    requires CommaFree(a) && CommaFree(b) && a != [] && b != [] && Join(a, ",") == Join(b, ",")
    ensures a == b
  {
    var j := Join(a, ",");
    JoinSplits(a);
    JoinSplits(b);
    var m, n := |a[0]|, |b[0]|;
    assert a[0] in a && b[0] in b;
    hide Join;
    NotShorter(m, b[0], j);
    NotShorter(n, a[0], j);
    if |a| > 1 {
      assert forall x :: x in a[1..] ==> x in a;
      assert forall x :: x in b[1..] ==> x in b;
      JoinInjective(a[1..], b[1..]);
      assert a == [a[0]] + a[1..] && b == [b[0]] + b[1..];
    }
  }

  /** The same normalised names, each as often. */
  ghost predicate SameTables(a: Truncate, b: Truncate) {
    forall n :: Count(NormAll(a.tables), n) == Count(NormAll(b.tables), n)
  }

  /** At least one name, and none with a comma: what the parser produces. */
  predicate Listed(t: Truncate) { t.tables != [] && CommaFree(NormAll(t.tables)) }

  lemma SortOf(t: Truncate)
    requires Listed(t)
    ensures CommaFree(Sort(NormAll(t.tables))) && Sort(NormAll(t.tables)) != []
    ensures Sorted(Sort(NormAll(t.tables)))
  {
    var names := NormAll(t.tables);
    assert names != [];
    hide NormAll, Sort, LexLeq;
    forall n | n in Sort(names) ensures ',' !in n {
      SortSorts(names, n);
      CountMember(Sort(names), n);
      CountMember(names, n);
    }
    SortSorts(names, "");
    SortNonempty(names);
  }

  lemma SortNonempty(names: seq<string>)
    requires names != []
    ensures Sort(names) != []
  {
    SortSorts(names, names[0]);
    CountMember(names, names[0]);
    hide Sort;
    assert Count([], names[0]) == 0;
  }

  /** Two TRUNCATEs have one key exactly when they name the same tables. */
  lemma KeyIsCanonical(a: Truncate, b: Truncate)
    requires Listed(a) && Listed(b)
    ensures TruncateKey(a) == TruncateKey(b) <==> SameTables(a, b)
  {
    var x, y := NormAll(a.tables), NormAll(b.tables);
    SortOf(a);
    SortOf(b);
    hide NormAll, Sort, Listed, LexLeq, Sorted, CommaFree;
    if TruncateKey(a) == TruncateKey(b) {
      JoinInjective(Sort(x), Sort(y));
      forall n ensures Count(x, n) == Count(y, n) { SortSorts(x, n); SortSorts(y, n); }
    }
    if SameTables(a, b) {
      forall n ensures Count(Sort(x), n) == Count(Sort(y), n) { SortSorts(x, n); SortSorts(y, n); }
      SortedUnique(Sort(x), Sort(y));
    }
  }

  lemma PlainKeys()
    ensures NormIdent("a") == "a" && NormIdent("b") == "b" && NormIdent("a,b") == "a,b"
  {
    assert TrimSpace("a") == "a" && TrimSpace("b") == "b" && TrimSpace("a,b") == "a,b";
    assert Lower("a") == "a" && Lower("b") == "b" && Lower("a,b") == "a,b";
  }

  lemma SortedNames()
    ensures NormAll(["a,b"]) == ["a,b"] && NormAll(["a", "b"]) == ["a", "b"]
    ensures Sort(["a,b"]) == ["a,b"] && Sort(["a", "b"]) == ["a", "b"]
  {
    PlainKeys();
    hide NormIdent;
    var one, two := ["a,b"], ["a", "b"];
    assert one[1..] == [] && two[1..] == ["b"] && ["b"][1..] == [];
    assert Sort(["b"]) == ["b"] && LexLeq("a", "b");
  }

  /** With a comma inside a quoted name, different tables share a key. */
  lemma CommaBreaksKey()
    ensures var a, b := Truncate(["a,b"], false, false), Truncate(["a", "b"], false, false);
            TruncateKey(a) == TruncateKey(b) && !SameTables(a, b)
  {
    SortedNames();
    hide NormAll, Sort;
    var one, two := ["a,b"], ["a", "b"];
    assert two[1..] == ["b"];
    assert Join(two, ",") == "a" + "," + Join(["b"], ",") == "a,b" == Join(one, ",");
    assert Count(one, "a,b") == 1;
    assert Count(["b"], "a,b") == 0 && Count(two, "a,b") == 0;
  }

  // ---- Runs ----

  /** The TRUNCATEs that a run executes, in order. */
  function Executed(d: Database, ss: seq<Statement>): seq<Truncate>
    decreases |ss|
  {
    if ss == [] then []
    else
      (if ss[0].TruncateTables? then [ss[0].truncate] else [])
      + if ApplyP(d, ss[0]).outcome.Done? then Executed(ApplyP(d, ss[0]).state, ss[1..]) else []
  }

  function Recorded(kept: seq<Truncate>, t: Truncate): seq<Truncate> {
    var p := Find(TruncateKeys(kept), TruncateKey(t));
    if p < 0 then kept + [t] else kept[p := t]
  }

  function RecordAll(kept: seq<Truncate>, ts: seq<Truncate>): seq<Truncate>
    decreases |ts|
  {
    if ts == [] then kept else RecordAll(Recorded(kept, ts[0]), ts[1..])
  }

  lemma StepRecords(d: Database, s: Statement)
    ensures ApplyP(d, s).state.truncates == if s.TruncateTables? then Recorded(d.truncates, s.truncate) else d.truncates
  {
    hide NormIdent, ObjectKey, KindText, FindFrom, TruncateKey, ActionsP, DropTablesP, ApplyOptions, LabelAction;
    match s
    case AlterTable(name, actions) =>
      var p := Find(TableKeys(d.tables), NormIdent(name));
      if p >= 0 { ActionsShape(d, p, NormIdent(name), actions); }
    case DropTable(names, ifExists) => DropsKeepTruncates(d, names, ifExists);
    case _ =>
  }

  lemma {:induction false} DropsKeepTruncates(d: Database, names: seq<string>, ifExists: bool)
    ensures DropTablesP(d, names, ifExists).state.truncates == d.truncates
    decreases |names|
  {
    hide NormIdent, ObjectKey, FindFrom, WithoutTable;
    if names != [] { DropsKeepTruncates(DropOneP(d, names[0], ifExists).state, names[1..], ifExists); }
  }

  lemma {:induction false} RunRecords(d: Database, ss: seq<Statement>)
    ensures RunP(d, ss).state.truncates == RecordAll(d.truncates, Executed(d, ss))
    decreases |ss|
  {
    hide ApplyP, Recorded;
    if ss != [] {
      StepRecords(d, ss[0]);
      var r := ApplyP(d, ss[0]);
      if r.outcome.Done? { RunRecords(r.state, ss[1..]); }
      var rest := if r.outcome.Done? then Executed(r.state, ss[1..]) else [];
      if ss[0].TruncateTables? {
        assert ([ss[0].truncate] + rest)[1..] == rest;
      } else {
        assert [] + rest == rest;
      }
    }
  }

  lemma {:induction false} RecordLast(kept: seq<Truncate>, ts: seq<Truncate>, t: Truncate)
    ensures RecordAll(kept, ts + [t]) == Recorded(RecordAll(kept, ts), t)
    decreases |ts|
  {
    hide Recorded;
    if ts == [] {
      assert ([] + [t])[1..] == [] && [] + [t] == [t];
      assert RecordAll(Recorded(kept, t), []) == Recorded(kept, t);
    } else {
      assert (ts + [t])[1..] == ts[1..] + [t];
      RecordLast(Recorded(kept, ts[0]), ts[1..], t);
    }
  }

  /** Position of the first statement with key k in ts, or |ts|. */
  function FirstAt(ts: seq<Truncate>, k: string): (n: nat)
    ensures n <= |ts|
    ensures n < |ts| ==> TruncateKey(ts[n]) == k
  {
    if ts == [] then 0 else if TruncateKey(ts[0]) == k then 0 else 1 + FirstAt(ts[1..], k)
  }

  lemma {:induction false} FirstAtAppend(ts: seq<Truncate>, t: Truncate, k: string)
    ensures FirstAt(ts + [t], k) ==
            if FirstAt(ts, k) < |ts| then FirstAt(ts, k) else if TruncateKey(t) == k then |ts| else |ts| + 1
  {
    hide TruncateKey;
    if ts == [] {
      assert [] + [t] == [t] && [t][1..] == [];
    } else {
      assert (ts + [t])[1..] == ts[1..] + [t];
      FirstAtAppend(ts[1..], t, k);
    }
  }

  /** t is the last statement of ts with its key. */
  ghost predicate LastOf(ts: seq<Truncate>, t: Truncate, n: nat) {
    n < |ts| && ts[n] == t && forall m :: n < m < |ts| ==> TruncateKey(ts[m]) != TruncateKey(t)
  }

  ghost predicate IsLast(ts: seq<Truncate>, t: Truncate) { exists n: nat :: LastOf(ts, t, n) }

  ghost predicate HoldsLast(kept: seq<Truncate>, ts: seq<Truncate>) {
    forall i :: 0 <= i < |kept| ==> IsLast(ts, kept[i])
  }

  ghost predicate FirstSeenOrder(kept: seq<Truncate>, ts: seq<Truncate>) {
    forall i, j :: 0 <= i < j < |kept| ==> FirstAt(ts, TruncateKey(kept[i])) < FirstAt(ts, TruncateKey(kept[j]))
  }

  ghost predicate Covers(keys: seq<string>, ts: seq<Truncate>) {
    forall n :: 0 <= n < |ts| ==> TruncateKey(ts[n]) in keys
  }

  /** One entry per key, in first-seen order, each holding the last statement. */
  ghost predicate Folded(kept: seq<Truncate>, ts: seq<Truncate>) {
    && Distinct(TruncateKeys(kept)) && Covers(TruncateKeys(kept), ts)
    && HoldsLast(kept, ts) && FirstSeenOrder(kept, ts)
  }

  lemma LastKept(ts: seq<Truncate>, t: Truncate, x: Truncate)
    requires IsLast(ts, x) && TruncateKey(x) != TruncateKey(t)
    ensures IsLast(ts + [t], x)
    ensures FirstAt(ts, TruncateKey(x)) < |ts|
  {
    var n: nat :| LastOf(ts, x, n);
    hide TruncateKey;
    assert LastOf(ts + [t], x, n);
    FirstAtLeast(ts, n);
  }

  lemma {:induction false} FirstAtLeast(ts: seq<Truncate>, n: nat)
    requires n < |ts|
    ensures FirstAt(ts, TruncateKey(ts[n])) <= n
  {
    hide TruncateKey;
    if n > 0 { FirstAtLeast(ts[1..], n - 1); }
  }

  lemma StepDistinct(kept: seq<Truncate>, ts: seq<Truncate>, t: Truncate)
    requires Distinct(TruncateKeys(kept)) && Covers(TruncateKeys(kept), ts)
    ensures Distinct(TruncateKeys(Recorded(kept, t))) && Covers(TruncateKeys(Recorded(kept, t)), ts + [t])
  {
    var k, r, all := TruncateKey(t), Recorded(kept, t), ts + [t];
    FindMember(TruncateKeys(kept), k);
    hide TruncateKey, FindFrom;
    var p := Find(TruncateKeys(kept), k);
    assert TruncateKeys(r) == if p < 0 then TruncateKeys(kept) + [k] else TruncateKeys(kept);
    forall n | 0 <= n < |all| ensures TruncateKey(all[n]) in TruncateKeys(r) {
      if n == |ts| {
        assert TruncateKeys(r)[if p < 0 then |kept| else p] == k;
      } else {
        assert TruncateKey(ts[n]) in TruncateKeys(kept);
      }
    }
  }

  lemma StepHoldsLast(kept: seq<Truncate>, ts: seq<Truncate>, t: Truncate)
    requires Distinct(TruncateKeys(kept)) && HoldsLast(kept, ts)
    ensures HoldsLast(Recorded(kept, t), ts + [t])
  {
    var r := Recorded(kept, t);
    assert LastOf(ts + [t], t, |ts|);
    forall i | 0 <= i < |r| ensures IsLast(ts + [t], r[i]) {
      if r[i] != t { StaysLast(kept, ts, t, i); }
    }
  }

  lemma StaysLast(kept: seq<Truncate>, ts: seq<Truncate>, t: Truncate, i: nat)
    requires Distinct(TruncateKeys(kept)) && HoldsLast(kept, ts)
    requires i < |Recorded(kept, t)| && Recorded(kept, t)[i] != t
    ensures IsLast(ts + [t], Recorded(kept, t)[i])
  {
    var k := TruncateKey(t);
    FindMember(TruncateKeys(kept), k);
    var p := Find(TruncateKeys(kept), k);
    assert i < |kept| && i != p && Recorded(kept, t)[i] == kept[i];
    assert TruncateKeys(kept)[i] != k by { if p >= 0 { assert TruncateKeys(kept)[p] == k; } }
    LastKept(ts, t, kept[i]);
  }

  lemma StepOrder(kept: seq<Truncate>, ts: seq<Truncate>, t: Truncate)
    requires Folded(kept, ts)
    ensures FirstSeenOrder(Recorded(kept, t), ts + [t])
  {
    var k, r, all := TruncateKey(t), Recorded(kept, t), ts + [t];
    FindMember(TruncateKeys(kept), k);
    hide TruncateKey, FindFrom, FirstAt, Distinct, Covers, HoldsLast;
    forall i, j | 0 <= i < j < |r| ensures FirstAt(all, TruncateKey(r[i])) < FirstAt(all, TruncateKey(r[j])) {
      SeenFirst(kept, ts, i);
      FirstAtAppend(ts, t, TruncateKey(r[i]));
      FirstAtAppend(ts, t, TruncateKey(r[j]));
      if j < |kept| {
        SeenFirst(kept, ts, j);
        assert TruncateKey(r[i]) == TruncateKey(kept[i]) && TruncateKey(r[j]) == TruncateKey(kept[j]);
      } else {
        assert r[i] == kept[i] && r[j] == t;
        if FirstAt(ts, k) < |ts| { SeenKept(kept, ts, k); }
      }
    }
  }

  lemma FoldedStep(kept: seq<Truncate>, ts: seq<Truncate>, t: Truncate)
    requires Folded(kept, ts)
    ensures Folded(Recorded(kept, t), ts + [t])
  {
    hide Distinct, Covers, HoldsLast, FirstSeenOrder, Recorded, TruncateKeys;
    StepDistinct(kept, ts, t);
    StepHoldsLast(kept, ts, t);
    StepOrder(kept, ts, t);
  }

  lemma SeenFirst(kept: seq<Truncate>, ts: seq<Truncate>, i: nat)
    requires Folded(kept, ts) && i < |kept|
    ensures FirstAt(ts, TruncateKey(kept[i])) < |ts|
  {
    assert IsLast(ts, kept[i]);
    var n: nat :| LastOf(ts, kept[i], n);
    FirstAtLeast(ts, n);
  }

  lemma SeenKept(kept: seq<Truncate>, ts: seq<Truncate>, k: string)
    requires Folded(kept, ts) && FirstAt(ts, k) < |ts|
    ensures k in TruncateKeys(kept)
  {
    hide TruncateKey;
    assert TruncateKey(ts[FirstAt(ts, k)]) in TruncateKeys(kept);
  }

  lemma {:induction false} RecordFolds(ts: seq<Truncate>)
    ensures Folded(RecordAll([], ts), ts)
    decreases |ts|
  {
    hide Recorded, TruncateKey;
    if ts != [] {
      var init, t := ts[..|ts| - 1], ts[|ts| - 1];
      assert ts == init + [t];
      RecordFolds(init);
      RecordLast([], init, t);
      hide Folded;
      FoldedStep(RecordAll([], init), init, t);
    }
  }

  /** After any run from the empty schema the entries are one per set of tables,
      in first-seen order, each holding the last TRUNCATE of that set. */
  lemma TruncatesFold(ss: seq<Statement>)
    requires NoCollisions(EMPTY, ss)
    ensures Folded(RunX(NEW, ss).state.db.truncates, Executed(EMPTY, ss))
  {
    ReachableConsistent(ss);
    RunRecords(EMPTY, ss);
    RecordFolds(Executed(EMPTY, ss));
  }

  /** t is the last statement of ts on its tables. */
  ghost predicate LastOnTables(ts: seq<Truncate>, t: Truncate, n: nat) {
    n < |ts| && ts[n] == t && forall m :: n < m < |ts| ==> !SameTables(ts[m], t)
  }

  ghost predicate IsLastOnTables(ts: seq<Truncate>, t: Truncate) { exists n: nat :: LastOnTables(ts, t, n) }

  ghost predicate HasEntry(kept: seq<Truncate>, t: Truncate) {
    exists i :: 0 <= i < |kept| && SameTables(t, kept[i])
  }

  /** One entry per set of tables, each the last statement on it; and none missing. */
  ghost predicate OnePerTables(kept: seq<Truncate>, ts: seq<Truncate>) {
    && (forall i, j :: 0 <= i < j < |kept| ==> !SameTables(kept[i], kept[j]))
    && (forall n :: 0 <= n < |ts| ==> HasEntry(kept, ts[n]))
    && (forall i :: 0 <= i < |kept| ==> IsLastOnTables(ts, kept[i]))
  }

  lemma LastWithoutKeys(ts: seq<Truncate>, t: Truncate, n: nat)
    requires LastOf(ts, t, n) && forall x :: x in ts ==> Listed(x)
    ensures LastOnTables(ts, t, n) && Listed(t)
  {
    hide TruncateKey, SameTables, Listed;
    assert ts[n] in ts;
    forall m | n < m < |ts| ensures !SameTables(ts[m], t) {
      assert ts[m] in ts;
      KeyIsCanonical(ts[m], t);
    }
  }

  lemma FoldedWithoutKeys(kept: seq<Truncate>, ts: seq<Truncate>)
    requires Folded(kept, ts) && forall t :: t in ts ==> Listed(t)
    ensures OnePerTables(kept, ts)
  {
    forall i | 0 <= i < |kept| ensures Listed(kept[i]) && IsLastOnTables(ts, kept[i]) {
      assert IsLast(ts, kept[i]);
      var n: nat :| LastOf(ts, kept[i], n);
      LastWithoutKeys(ts, kept[i], n);
    }
    forall i, j | 0 <= i < j < |kept| ensures !SameTables(kept[i], kept[j]) {
      KeyIsCanonical(kept[i], kept[j]);
      assert TruncateKeys(kept)[i] != TruncateKeys(kept)[j];
    }
    forall n | 0 <= n < |ts| ensures HasEntry(kept, ts[n]) {
      EntryFor(kept, ts, n);
    }
  }

  lemma EntryFor(kept: seq<Truncate>, ts: seq<Truncate>, n: nat)
    requires n < |ts| && Covers(TruncateKeys(kept), ts) && (forall t :: t in ts ==> Listed(t))
    requires forall i :: 0 <= i < |kept| ==> Listed(kept[i])
    ensures HasEntry(kept, ts[n])
  {
    assert TruncateKey(ts[n]) in TruncateKeys(kept);
    var i :| 0 <= i < |kept| && TruncateKeys(kept)[i] == TruncateKey(ts[n]);
    assert ts[n] in ts;
    KeyIsCanonical(ts[n], kept[i]);
  }

  /** The same without keys, for statements as the parser makes them. */
  lemma OneEntryPerTableSet(ss: seq<Statement>)
    requires NoCollisions(EMPTY, ss)
    requires forall t :: t in Executed(EMPTY, ss) ==> Listed(t)
    ensures OnePerTables(RunX(NEW, ss).state.db.truncates, Executed(EMPTY, ss))
  {
    TruncatesFold(ss);
    hide *;
    FoldedWithoutKeys(RunX(NEW, ss).state.db.truncates, Executed(EMPTY, ss));
  }
}
