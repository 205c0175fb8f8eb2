/** An index from key to list position, kept by hand: when it is the inverse of
    the list of keys, and what the operations on both do to that. */
module Positions {

  type Index = map<string, nat>

  /** The index and the list of keys are inverse to each other. */
  ghost predicate Inverse(keys: seq<string>, m: Index) {
    && (forall i :: 0 <= i < |keys| ==> keys[i] in m && m[keys[i]] == i)
    && (forall k :: k in m ==> m[k] < |keys| && keys[m[k]] == k)
  }

  ghost predicate Distinct(keys: seq<string>) {
    forall i, j :: 0 <= i < j < |keys| ==> keys[i] != keys[j]
  }

  function RemoveAt<T>(s: seq<T>, i: nat): seq<T>
    requires i < |s|
  {
    s[..i] + s[i + 1..]
  }

  /** The position of the first k at or after i, or -1. */
  function FindFrom(keys: seq<string>, k: string, i: nat): (r: int)
    requires i <= |keys|
    ensures r == -1 || (i <= r < |keys| && keys[r] == k)
    decreases |keys| - i
  {
    if i == |keys| then -1 else if keys[i] == k then i else FindFrom(keys, k, i + 1)
  }

  function Find(keys: seq<string>, k: string): (r: int)
    ensures r == -1 || (0 <= r < |keys| && keys[r] == k)
  {
    FindFrom(keys, k, 0)
  }

  lemma {:induction false} FindFromLeast(keys: seq<string>, k: string, i: nat)
    requires i <= |keys|
    ensures var r := FindFrom(keys, k, i);
            forall j :: i <= j < |keys| && (r == -1 || j < r) ==> keys[j] != k
    decreases |keys| - i
  {
    if i < |keys| && keys[i] != k { FindFromLeast(keys, k, i + 1); }
  }

  /** Linear search succeeds exactly on members. */
  lemma FindMember(keys: seq<string>, k: string)
    ensures Find(keys, k) == -1 <==> k !in keys
  {
    FindFromLeast(keys, k, 0);
  }

  lemma FindDistinct(keys: seq<string>, i: nat)
    requires Distinct(keys) && i < |keys|
    ensures Find(keys, keys[i]) == i
  {
    FindFromLeast(keys, keys[i], 0);
  }

  /** With an inverse index, looking up is linear search. */
  lemma LookupIsFind(keys: seq<string>, m: Index, k: string)
    requires Inverse(keys, m)
    ensures k in m <==> k in keys
    ensures Find(keys, k) == if k in m then m[k] else -1
  {
    FindFromLeast(keys, k, 0);
  }

  lemma InverseDistinct(keys: seq<string>, m: Index)
    requires Inverse(keys, m)
    ensures Distinct(keys)
  {
    forall i, j | 0 <= i < j < |keys| ensures keys[i] != keys[j] {
      assert m[keys[i]] == i && m[keys[j]] == j;
    }
  }

  /** Overwrites the entries of the keys from position i on. */
  function Reindex(keys: seq<string>, m: Index, i: nat): Index
    requires i <= |keys|
    decreases |keys| - i
  {
    if i == |keys| then m else Reindex(keys, m[keys[i] := i], i + 1)
  }

  /** After re-indexing, a tail key has its position and any other key is as before. */
  lemma {:induction false} ReindexAt(keys: seq<string>, m: Index, i: nat, k: string)
    requires i <= |keys| && Distinct(keys)
    ensures var r := Reindex(keys, m, i);
            var p := FindFrom(keys, k, i);
            if p >= 0 then k in r && r[k] == p
            else (k in r <==> k in m) && (k in r ==> r[k] == m[k])
    decreases |keys| - i
  {
    if i < |keys| {
      ReindexAt(keys, m[keys[i] := i], i + 1, k);
      FindFromLeast(keys, k, i + 1);
    }
  }

  lemma InverseAppend(keys: seq<string>, m: Index, k: string)
    requires Inverse(keys, m) && k !in m
    ensures Inverse(keys + [k], m[k := |keys|])
  {
  }

  lemma RemovedKeys(keys: seq<string>, i: nat)
    requires i < |keys| && Distinct(keys)
    ensures var ks := RemoveAt(keys, i);
            && |ks| == |keys| - 1
            && (forall j :: 0 <= j < |ks| ==> ks[j] == if j < i then keys[j] else keys[j + 1])
            && Distinct(ks)
  {
  }

  lemma RemovedEntry(keys: seq<string>, m: Index, i: nat, k: string)
    requires Inverse(keys, m) && i < |keys|
    ensures var ks := RemoveAt(keys, i);
            var r := Reindex(ks, m - {keys[i]}, i);
            k in r ==> r[k] < |ks| && ks[r[k]] == k
  {
    var ks := RemoveAt(keys, i);
    InverseDistinct(keys, m);
    RemovedKeys(keys, i);
    ReindexAt(ks, m - {keys[i]}, i, k);
    FindFromLeast(ks, k, i);
    hide RemoveAt, Reindex, FindFrom;
    if k in m && k != keys[i] && m[k] > i {
      assert ks[m[k] - 1] == k;
    }
  }

  lemma RemovedKey(keys: seq<string>, m: Index, i: nat, j: nat)
    requires Inverse(keys, m) && i < |keys| && j < |RemoveAt(keys, i)|
    ensures var ks := RemoveAt(keys, i);
            var r := Reindex(ks, m - {keys[i]}, i);
            ks[j] in r && r[ks[j]] == j
  {
    var ks := RemoveAt(keys, i);
    InverseDistinct(keys, m);
    RemovedKeys(keys, i);
    ReindexAt(ks, m - {keys[i]}, i, ks[j]);
    FindFromLeast(ks, ks[j], i);
    hide RemoveAt, Reindex, FindFrom;
    assert j < i ==> m[keys[j]] == j && keys[i] != keys[j];
  }

  /** Removing position i, dropping its key and re-indexing the tail. */
  lemma InverseRemove(keys: seq<string>, m: Index, i: nat)
    requires Inverse(keys, m) && i < |keys|
    ensures Inverse(RemoveAt(keys, i), Reindex(RemoveAt(keys, i), m - {keys[i]}, i))
  {
    hide Reindex;
    var ks := RemoveAt(keys, i);
    var r := Reindex(ks, m - {keys[i]}, i);
    forall j | 0 <= j < |ks| ensures ks[j] in r && r[ks[j]] == j { RemovedKey(keys, m, i, j); }
    forall k | k in r ensures r[k] < |ks| && ks[r[k]] == k { RemovedEntry(keys, m, i, k); }
  }

  /** Renaming position i keeps the inverse exactly when the new key is free or
      was already the key of that position. */
  lemma InverseRename(keys: seq<string>, m: Index, i: nat, k: string)
    requires Inverse(keys, m) && i < |keys|
    ensures Inverse(keys[i := k], (m - {keys[i]})[k := i]) <==> k == keys[i] || k !in m
  {
    var ks, r := keys[i := k], (m - {keys[i]})[k := i];
    if k == keys[i] || k !in m {
      assert Inverse(ks, r);
    } else {
      var j := m[k];
      assert j != i && ks[j] == k && r[k] == i;
    }
  }

  lemma InverseRebuild(keys: seq<string>)
    requires Distinct(keys)
    ensures Inverse(keys, Reindex(keys, map[], 0))
  {
    var r := Reindex(keys, map[], 0);
    forall j | 0 <= j < |keys| ensures keys[j] in r && r[keys[j]] == j {
      ReindexAt(keys, map[], 0, keys[j]);
      FindDistinct(keys, j);
    }
    forall k | k in r ensures r[k] < |keys| && keys[r[k]] == k {
      ReindexAt(keys, map[], 0, k);
    }
  }

  // ---- Several renames of one position that all drop the same first key ----

  function RenameEntries(m: Index, first: string, i: nat, targets: seq<string>): Index
    decreases |targets|
  {
    if targets == [] then m
    else RenameEntries((m - {first})[targets[0] := i], first, i, targets[1..])
  }

  /** Every target is free or the first key, and every target but the last is
      dropped again or is the last one. */
  predicate RenamesSafe(keys: seq<string>, first: string, targets: seq<string>) {
    forall j :: 0 <= j < |targets| ==>
      && (targets[j] == first || targets[j] !in keys)
      && (targets[j] == first || targets[j] == targets[|targets| - 1])
  }

  /** Is k one of the entries that a row of renames adds? */
  predicate Added(first: string, targets: seq<string>, k: string)
    requires targets != []
  {
    (k in targets && k != first) || k == targets[|targets| - 1]
  }

  /** The entries left by a row of renames, in closed form. */
  lemma {:induction false} RenameEntryAt(m: Index, first: string, i: nat, targets: seq<string>, k: string)
    requires targets != []
    ensures var r := RenameEntries(m, first, i, targets);
            if Added(first, targets, k) then k in r && r[k] == i
            else if k == first then k !in r
            else (k in r <==> k in m) && (k in r ==> r[k] == m[k])
    decreases |targets|
  {
    if |targets| > 1 {
      RenameEntryAt((m - {first})[targets[0] := i], first, i, targets[1..], k);
      assert k in targets <==> k == targets[0] || k in targets[1..];
    } else {
      assert targets == [targets[0]];
    }
  }

  lemma RenamedKey(keys: seq<string>, m: Index, i: nat, targets: seq<string>, j: nat)
    requires Inverse(keys, m) && i < |keys| && targets != [] && RenamesSafe(keys, keys[i], targets)
    requires j < |keys|
    ensures var ks := keys[i := targets[|targets| - 1]];
            var r := RenameEntries(m, keys[i], i, targets);
            ks[j] in r && r[ks[j]] == j
  {
    var k := keys[i := targets[|targets| - 1]][j];
    RenameEntryAt(m, keys[i], i, targets, k);
    hide RenameEntries;
    assert m[keys[j]] == j && m[keys[i]] == i;
  }

  lemma RenamedEntry(keys: seq<string>, m: Index, i: nat, targets: seq<string>, k: string)
    requires Inverse(keys, m) && i < |keys| && targets != [] && RenamesSafe(keys, keys[i], targets)
    ensures var ks := keys[i := targets[|targets| - 1]];
            var r := RenameEntries(m, keys[i], i, targets);
            k in r ==> r[k] < |ks| && ks[r[k]] == k
  {
    RenameEntryAt(m, keys[i], i, targets, k);
    hide RenameEntries;
    assert k in m ==> keys[m[k]] == k;
  }

  lemma SafeRenamesInverse(keys: seq<string>, m: Index, i: nat, targets: seq<string>)
    requires Inverse(keys, m) && i < |keys| && targets != [] && RenamesSafe(keys, keys[i], targets)
    ensures Inverse(keys[i := targets[|targets| - 1]], RenameEntries(m, keys[i], i, targets))
  {
    var ks := keys[i := targets[|targets| - 1]];
    var r := RenameEntries(m, keys[i], i, targets);
    hide RenameEntries, RenamesSafe;
    forall j | 0 <= j < |ks| ensures ks[j] in r && r[ks[j]] == j { RenamedKey(keys, m, i, targets, j); }
    forall k | k in r ensures r[k] < |ks| && ks[r[k]] == k { RenamedEntry(keys, m, i, targets, k); }
  }

  /** The row of renames keeps the inverse exactly when it is safe. */
  lemma InverseRenames(keys: seq<string>, m: Index, i: nat, targets: seq<string>)
    requires Inverse(keys, m) && i < |keys| && targets != []
    ensures Inverse(keys[i := targets[|targets| - 1]], RenameEntries(m, keys[i], i, targets))
            <==> RenamesSafe(keys, keys[i], targets)
  {
    var first, last := keys[i], targets[|targets| - 1];
    if RenamesSafe(keys, first, targets) {
      SafeRenamesInverse(keys, m, i, targets);
    } else {
      var j :| 0 <= j < |targets| && !((targets[j] == first || targets[j] !in keys) &&
                                       (targets[j] == first || targets[j] == last));
      var k := targets[j];
      var ks, r := keys[i := last], RenameEntries(m, first, i, targets);
      RenameEntryAt(m, first, i, targets, k);
      assert k in targets && k != first && k in r && r[k] == i;
      if k in keys {
        var q :| 0 <= q < |keys| && keys[q] == k;
        assert q != i && ks[q] == k;
      } else {
        assert k != last && ks[i] == last;
      }
    }
  }
}
