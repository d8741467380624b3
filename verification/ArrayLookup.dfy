/**
 findArrayByTypeID after one cleanArrays on a fresh index: it finds the one kept array of a
 canonical type and length whenever there is one; its scan runs past the key, so without such an
 array it may return an array of another type, but never one of another length.
 */
module ArrayLookup {
  import opened Basics
  import opened SymbolTable
  import opened CleanupSpec
  import opened Sweeping
  import opened ArrayCleanup

  // The vector is strictly increasing in element type and length, as cleanArrays leaves it.
  ghost predicate TypeAscending(objects: seq<Sym>, list: seq<Handle>)
    requires Within(list, |objects|)
  {
    forall k, l | 0 <= k < l < |list| ::
      var a, b := objects[list[k]], objects[list[l]]; a.typ < b.typ || (a.typ == b.typ && a.length < b.length)
  }

  lemma {:induction false} InsertAtEnd(m: seq<(nat, Handle)>, key: nat, h: Handle)
    requires forall i | 0 <= i < |m| :: m[i].0 <= key
    ensures MultimapInsert(m, key, h) == m + [(key, h)]
  {
    if m != [] {
      InsertAtEnd(m[1..], key, h);
      assert m + [(key, h)] == [m[0]] + (m[1..] + [(key, h)]);
    }
  }

  // The pairs are ordered by key.
  ghost predicate IsIndex(m: seq<(nat, Handle)>) {
    forall i, j | 0 <= i < j < |m| :: m[i].0 <= m[j].0
  }

  // A pair goes behind those of its key and before those of larger keys, and all the others stay in order.
  lemma {:induction false} InsertsBehind(m: seq<(nat, Handle)>, key: nat, h: Handle) returns (i: nat)
    requires IsIndex(m)
    ensures IsIndex(MultimapInsert(m, key, h))
    ensures i <= |m| && MultimapInsert(m, key, h) == m[..i] + [(key, h)] + m[i..]
    ensures (forall j | 0 <= j < i :: m[j].0 <= key) && (forall j | i <= j < |m| :: key < m[j].0)
  {
    i := 0;
    if m != [] && m[0].0 <= key {
      var k := InsertsBehind(m[1..], key, h);
      i := k + 1;
      var rest := m[1..];
      assert [m[0]] + (rest[..k] + [(key, h)] + rest[k..]) == m[..i] + [(key, h)] + m[i..];
      forall j | 0 <= j < i ensures m[j].0 <= key { assert j == 0 || m[j] == rest[j - 1]; }
      forall j | i <= j < |m| ensures key < m[j].0 { assert m[j] == rest[j - 1]; }
      StaysIndex(m, i, key, h);
    } else {
      assert [(key, h)] + m == m[..0] + [(key, h)] + m[0..];
      StaysIndex(m, 0, key, h);
    }
  }

  lemma StaysIndex(m: seq<(nat, Handle)>, i: nat, key: nat, h: Handle)
    requires IsIndex(m) && i <= |m|
    requires (forall j | 0 <= j < i :: m[j].0 <= key) && (forall j | i <= j < |m| :: key < m[j].0)
    ensures IsIndex(m[..i] + [(key, h)] + m[i..])
  {}

  // Filling an empty index from an ascending vector lists the vector with its types as keys.
  lemma {:induction false} IndexLists(objects: seq<Sym>, list: seq<Handle>, n: nat)
    requires Within(list, |objects|) && TypeAscending(objects, list) && n <= |list|
    ensures var m := IndexArrays([], objects, list, n);
            |m| == n && forall i | 0 <= i < n :: m[i] == (objects[list[i]].typ, list[i])
  {
    hide MultimapInsert;
    if n > 0 {
      IndexLists(objects, list, n - 1);
      InsertAtEnd(IndexArrays([], objects, list, n - 1), objects[list[n - 1]].typ, list[n - 1]);
    }
  }

  // A scan returns the first array of the length from its start on, or nothing if there is none.
  lemma {:induction false} ScanFinds(m: seq<(nat, Handle)>, objects: seq<Sym>, i: nat, length: nat)
    requires i <= |m| && PairsWithin(m, |objects|)
    ensures match ScanLength(m, objects, i, length)
            case Some(h) => exists k :: i <= k < |m| && m[k].1 == h && objects[h].length == length
                                        && forall l | i <= l < k :: objects[m[l].1].length != length
            case None => forall k | i <= k < |m| :: objects[m[k].1].length != length
    decreases |m| - i
  {
    if i < |m| && objects[m[i].1].length != length { ScanFinds(m, objects, i + 1, length); }
  }

  lemma {:induction false} ScanAliasesFinds(m: seq<(nat, Handle)>, objects: seq<Sym>, ids: set<nat>, length: nat)
    requires PairsWithin(m, |objects|)
    ensures match ScanAliases(m, objects, ids, length)
            case Some(h) => h < |objects| && objects[h].length == length && exists k :: 0 <= k < |m| && m[k].1 == h
            case None => true
  {
    if ids != {} {
      ScanFinds(m, objects, FirstKey(m, Least(ids)), length);
      ScanAliasesFinds(m, objects, ids - {Least(ids)}, length);
    }
  }

  // From the first pair of its type on, no array before position `k` has its length.
  lemma {:induction false} FirstOfLength(objects: seq<Sym>, list: seq<Handle>, m: seq<(nat, Handle)>, k: nat, j: nat)
    requires Within(list, |objects|) && TypeAscending(objects, list) && k < |list| == |m|
    requires forall i | 0 <= i < |m| :: m[i] == (objects[list[i]].typ, list[i])
    requires FirstKey(m, objects[list[k]].typ) <= j < k
    ensures objects[m[j].1].length != objects[list[k]].length
  {
    var i := FirstKey(m, objects[list[k]].typ);
    assert objects[list[i]].typ == objects[list[k]].typ;
    if i < j { assert objects[list[i]].typ <= objects[list[j]].typ; }
  }

  // The array at position `k` of the vector is what its type and length find.
  lemma {:induction false} FindsKept(objects: seq<Sym>, list: seq<Handle>, aliases: set<nat>, k: nat)
    requires Within(list, |objects|) && TypeAscending(objects, list) && k < |list|
    ensures PairsWithin(IndexArrays([], objects, list, |list|), |objects|)
    ensures FindArray(IndexArrays([], objects, list, |list|), objects, aliases, objects[list[k]].typ,
            objects[list[k]].length)
            == Some(list[k])
  {
    IndexLists(objects, list, |list|);
    var m := IndexArrays([], objects, list, |list|);
    var i := FirstKey(m, objects[list[k]].typ);
    assert m[k].0 == objects[list[k]].typ && i <= k;
    forall j | i <= j < k ensures objects[m[j].1].length != objects[list[k]].length {
      FirstOfLength(objects, list, m, k, j);
    }
    ScanReaches(m, objects, i, k, objects[list[k]].length);
  }

  lemma {:induction false} ScanReaches(m: seq<(nat, Handle)>, objects: seq<Sym>, i: nat, k: nat, length: nat)
    requires i <= k < |m| && PairsWithin(m, |objects|) && objects[m[k].1].length == length
    requires forall j | i <= j < k :: objects[m[j].1].length != length
    ensures ScanLength(m, objects, i, length) == Some(m[k].1)
    decreases k - i
  {
    if i < k { ScanReaches(m, objects, i + 1, k, length); }
  }

  // Whatever is found is an array of the vector and has the length asked for.
  lemma {:induction false} FoundHasLength(objects: seq<Sym>, list: seq<Handle>, aliases: set<nat>, id: nat, length: nat)
    requires Within(list, |objects|) && TypeAscending(objects, list)
    ensures PairsWithin(IndexArrays([], objects, list, |list|), |objects|)
    ensures match FindArray(IndexArrays([], objects, list, |list|), objects, aliases, id, length)
            case Some(h) => h in list && h < |objects| && objects[h].length == length
            case None => forall i | 0 <= i < |list| :: objects[list[i]].typ != id || objects[list[i]].length != length
  {
    IndexLists(objects, list, |list|);
    var m := IndexArrays([], objects, list, |list|);
    ScanFinds(m, objects, FirstKey(m, id), length);
    ScanAliasesFinds(m, objects, aliases, length);
    forall i | 0 <= i < |list| && objects[list[i]].typ == id ensures i >= FirstKey(m, id) { assert m[i].0 == id; }
  }

  // An array of the length at position `k`, at or after some array of the type `key`.
  ghost predicate IsReachable(m: seq<(nat, Handle)>, objects: seq<Sym>, key: nat, length: nat, k: nat)
    requires PairsWithin(m, |objects|)
  {
    k < |m| && objects[m[k].1].length == length && exists i: nat :: i <= k && m[i].0 == key
  }

  // The first such array.
  ghost predicate IsReachedFrom(m: seq<(nat, Handle)>, objects: seq<Sym>, key: nat, length: nat, h: Handle)
    requires PairsWithin(m, |objects|)
  {
    exists k: nat ::
      && IsReachable(m, objects, key, length, k) && m[k].1 == h
      && forall l: nat | l < k :: !IsReachable(m, objects, key, length, l)
  }

  lemma {:induction false} ReachableIff(m: seq<(nat, Handle)>, objects: seq<Sym>, key: nat, length: nat, k: nat)
    requires PairsWithin(m, |objects|)
    ensures IsReachable(m, objects, key, length, k) <==>
            FirstKey(m, key) <= k < |m| && objects[m[k].1].length == length
  {
    var i := FirstKey(m, key);
    if i <= k < |m| { assert m[i].0 == key; }
  }

  // The scan for one key gives the first array of the length that it reaches.
  lemma {:induction false} ScanFromIs(m: seq<(nat, Handle)>, objects: seq<Sym>, key: nat, length: nat)
    requires PairsWithin(m, |objects|)
    ensures match ScanFrom(m, objects, key, length)
            case Some(h) => IsReachedFrom(m, objects, key, length, h)
            case None => forall k: nat :: !IsReachable(m, objects, key, length, k)
  {
    hide IsReachable;
    ScanFinds(m, objects, FirstKey(m, key), length);
    forall k: nat { ReachableIff(m, objects, key, length, k); }
  }

  lemma {:induction false} ReachedOnce(m: seq<(nat, Handle)>, objects: seq<Sym>, key: nat, length: nat, g: Handle,
                                       h: Handle)
    requires PairsWithin(m, |objects|)
    requires IsReachedFrom(m, objects, key, length, g) && IsReachedFrom(m, objects, key, length, h)
    ensures g == h
  {
    var k: nat :| IsReachable(m, objects, key, length, k) && m[k].1 == g
                  && forall l: nat | l < k :: !IsReachable(m, objects, key, length, l);
    var n: nat :| IsReachable(m, objects, key, length, n) && m[n].1 == h
                  && forall l: nat | l < n :: !IsReachable(m, objects, key, length, l);
    assert k == n;
  }

  // Something is reached from the key.
  ghost predicate ReachesAny(m: seq<(nat, Handle)>, objects: seq<Sym>, key: nat, length: nat)
    requires PairsWithin(m, |objects|)
  {
    exists h: Handle :: IsReachedFrom(m, objects, key, length, h)
  }

  lemma {:induction false} ScanFromIff(m: seq<(nat, Handle)>, objects: seq<Sym>, key: nat, length: nat)
    requires PairsWithin(m, |objects|)
    ensures forall h: Handle ::
              ScanFrom(m, objects, key, length) == Some(h) <==> IsReachedFrom(m, objects, key, length, h)
    ensures ScanFrom(m, objects, key, length).Some? <==> ReachesAny(m, objects, key, length)
  {
    hide ScanFrom, IsReachable;
    ScanFromIs(m, objects, key, length);
    forall h: Handle | IsReachedFrom(m, objects, key, length, h)
      ensures ScanFrom(m, objects, key, length) == Some(h) {
      if ScanFrom(m, objects, key, length).Some? {
        ReachedOnce(m, objects, key, length, ScanFrom(m, objects, key, length).value, h);
      }
    }
  }

  // `h` is what the least of the ids gives from which anything is reached.
  ghost predicate IsReachedFromLeast(m: seq<(nat, Handle)>, objects: seq<Sym>, ids: set<nat>, length: nat, h: Handle)
    requires PairsWithin(m, |objects|)
  {
    exists id :: id in ids && IsReachedFrom(m, objects, id, length, h)
                 && forall j <- ids | j < id :: !ReachesAny(m, objects, j, length)
  }

  lemma {:induction false} ScanAliasesIff(m: seq<(nat, Handle)>, objects: seq<Sym>, ids: set<nat>, length: nat,
                                          h: Handle)
    requires PairsWithin(m, |objects|)
    ensures ScanAliases(m, objects, ids, length) == Some(h) <==> IsReachedFromLeast(m, objects, ids, length, h)
  {
    hide IsReachedFrom, ScanFrom, ReachesAny;
    if ids != {} {
      var least := Least(ids);
      ScanFromIff(m, objects, least, length);
      ScanAliasesIff(m, objects, ids - {least}, length, h);
    }
  }

  /**
   findArrayByTypeID on any index: it gives the first array of the length at or after one of the type asked for,
   whatever its own type, and if there is none, what the least alias gives from which there is one.
   */
  lemma FindArrayIff(m: seq<(nat, Handle)>, objects: seq<Sym>, aliases: set<nat>, id: nat, length: nat, h: Handle)
    requires PairsWithin(m, |objects|)
    ensures FindArray(m, objects, aliases, id, length) == Some(h) <==>
            || IsReachedFrom(m, objects, id, length, h)
            || (!ReachesAny(m, objects, id, length) && IsReachedFromLeast(m, objects, aliases, length, h))
  {
    hide IsReachedFrom, ScanFrom, ReachesAny, IsReachedFromLeast;
    ScanFromIff(m, objects, id, length);
    ScanAliasesIff(m, objects, aliases, length, h);
  }

  /**
   The lookup on the table that cleanArrays leaves: it succeeds with an array of the type asked for
   exactly when a kept array has that type and length, and then it is that one.
   */
  lemma LookupAfterCleanArrays(t: Table, id: nat, length: nat, aliases: set<nat>)
    requires Listed(t, t.names.arrays) && Within(t.names.arrays, |t.objects|)
    ensures var c := CleanArrays(t);
            var objects, kept := c.table.objects, c.table.names.arrays;
            && Within(kept, |objects|) && PairsWithin(IndexArrays([], objects, kept, |kept|), |objects|)
            && (var r := FindArray(IndexArrays([], objects, kept, |kept|), objects, aliases, id, length);
                && (r.Some? ==> r.value in kept && r.value < |objects| && objects[r.value].length == length)
                && (forall i | 0 <= i < |kept| && objects[kept[i]].typ == id && objects[kept[i]].length == length ::
                      r == Some(kept[i])))
  {
    var c := CleanArrays(t);
    var objects, kept := c.table.objects, c.table.names.arrays;
    if t.names.arrays != [] {
      forall k, l | 0 <= k < l < |kept|
        ensures var a, b := objects[kept[k]], objects[kept[l]]; a.typ < b.typ || (a.typ == b.typ && a.length < b.length)
      {
        KeptAscends(t, k, l);
      }
    }
    assert TypeAscending(objects, kept);
    FoundHasLength(objects, kept, aliases, id, length);
    forall i | 0 <= i < |kept| && objects[kept[i]].typ == id && objects[kept[i]].length == length
      ensures FindArray(IndexArrays([], objects, kept, |kept|), objects, aliases, id, length) == Some(kept[i])
    {
      FindsKept(objects, kept, aliases, i);
    }
  }

  // ---- a second pass over the same arrays ----

  // The entries of the index for a vector.
  function Entries(objects: seq<Sym>, list: seq<Handle>): (r: seq<(nat, Handle)>)
    requires Within(list, |objects|)
    ensures |r| == |list| && forall i | 0 <= i < |list| :: r[i] == (objects[list[i]].typ, list[i])
  {
    seq(|list|, i requires 0 <= i < |list| => (objects[list[i]].typ, list[i]))
  }

  lemma {:induction false} InsertAddsOne(m: seq<(nat, Handle)>, key: nat, h: Handle)
    ensures multiset(MultimapInsert(m, key, h)) == multiset(m) + multiset{(key, h)}
  {
    if m != [] && m[0].0 <= key {
      InsertAddsOne(m[1..], key, h);
      assert m == [m[0]] + m[1..];
    }
  }

  // Indexing a vector adds its entries, whatever the index held before.
  lemma {:induction false} IndexAdds(m: seq<(nat, Handle)>, objects: seq<Sym>, list: seq<Handle>, n: nat)
    requires Within(list, |objects|) && n <= |list|
    ensures multiset(IndexArrays(m, objects, list, n)) == multiset(m) + multiset(Entries(objects, list)[..n])
  {
    hide MultimapInsert, Entries;
    var all := Entries(objects, list);
    if n == 0 {
      assert all[..0] == [];
    } else {
      IndexAdds(m, objects, list, n - 1);
      InsertAddsOne(IndexArrays(m, objects, list, n - 1), objects[list[n - 1]].typ, list[n - 1]);
      OneMore(all, n);
    }
  }

  lemma OneMore(all: seq<(nat, Handle)>, n: nat)
    requires 0 < n <= |all|
    ensures multiset(all[..n]) == multiset(all[..n - 1]) + multiset{all[n - 1]}
  {
    assert all[..n] == all[..n - 1] + [all[n - 1]];
  }

  // Indexing one vector after another into an empty index.
  lemma {:induction false} IndexAddsTwo(objects: seq<Sym>, a: seq<Handle>, b: seq<Handle>)
    requires Within(a, |objects|) && Within(b, |objects|)
    ensures multiset(IndexArrays(IndexArrays([], objects, a, |a|), objects, b, |b|))
            == multiset(Entries(objects, a)) + multiset(Entries(objects, b))
  {
    hide IndexArrays, Entries;
    IndexAdds([], objects, a, |a|);
    IndexAdds(IndexArrays([], objects, a, |a|), objects, b, |b|);
    assert Entries(objects, a)[..|a|] == Entries(objects, a) && Entries(objects, b)[..|b|] == Entries(objects, b);
  }
}
