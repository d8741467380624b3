/**
 Sorting and sweeping, for any strict order on objects of distinct ids and any equality: what is
 kept, what is deleted, and what the deleted objects are aliased to.
 */
module Sweeping {
  import opened SymbolTable
  import opened Invariant
  import opened CleanupSpec

  // ---- sorting ----

  // `less` is a strict order, total on objects with different ids.
  ghost predicate StrictTotal(less: (Sym, Sym) -> bool) {
    && (forall a, b :: less(a, b) ==> !less(b, a))
    && (forall a, b, c :: less(a, b) && less(b, c) ==> less(a, c))
    && (forall a: Sym, b: Sym :: a.id == b.id || less(a, b) || less(b, a))
  }

  ghost predicate DistinctIds(objects: seq<Sym>, list: seq<Handle>)
    requires Within(list, |objects|)
  {
    forall i, j | 0 <= i < j < |list| :: objects[list[i]].id != objects[list[j]].id
  }

  ghost predicate Ascending(objects: seq<Sym>, s: seq<Handle>, less: (Sym, Sym) -> bool)
    requires Within(s, |objects|)
  {
    forall i, j | 0 <= i < j < |s| :: less(objects[s[i]], objects[s[j]])
  }

  lemma {:induction false} InsertAscends(objects: seq<Sym>, h: Handle, s: seq<Handle>, less: (Sym, Sym) -> bool)
    requires StrictTotal(less) && h < |objects| && Within(s, |objects|) && Ascending(objects, s, less)
    requires forall i | 0 <= i < |s| :: objects[s[i]].id != objects[h].id
    ensures Ascending(objects, Insert(objects, h, s, less), less)
  {
    if s != [] && !less(objects[h], objects[s[0]]) {
      var r := Insert(objects, h, s[1..], less);
      InsertAscends(objects, h, s[1..], less);
      forall i | 0 <= i < |r| ensures less(objects[s[0]], objects[r[i]]) {
        assert r[i] in multiset(r);
        assert r[i] == h || r[i] in s[1..];
      }
    }
  }

  // std::sort with the source's comparison leaves the list in ascending order.
  lemma {:induction false} SortAscends(objects: seq<Sym>, list: seq<Handle>, less: (Sym, Sym) -> bool)
    requires StrictTotal(less) && Within(list, |objects|) && DistinctIds(objects, list)
    ensures Ascending(objects, Sort(objects, list, less), less)
  {
    if list != [] {
      var r := Sort(objects, list[1..], less);
      SortAscends(objects, list[1..], less);
      forall i | 0 <= i < |r| ensures objects[r[i]].id != objects[list[0]].id {
        assert r[i] in multiset(r);
        assert r[i] in list[1..];
      }
      InsertAscends(objects, list[0], r, less);
    }
  }

  lemma LeastIsSame(objects: seq<Sym>, a: seq<Handle>, b: seq<Handle>, less: (Sym, Sym) -> bool)
    requires StrictTotal(less) && Within(a, |objects|) && Within(b, |objects|) && a != []
    requires Ascending(objects, a, less) && Ascending(objects, b, less) && multiset(a) == multiset(b)
    ensures b != [] && a[0] == b[0]
  {
    assert a[0] in multiset(b) && b != [];
    assert b[0] in multiset(a);
    var i :| 0 <= i < |b| && b[i] == a[0];
    var j :| 0 <= j < |a| && a[j] == b[0];
  }

  // The ascending arrangement is unique, so the choice of the sorting algorithm does not matter.
  lemma {:induction false} AscendingIsUnique(objects: seq<Sym>, a: seq<Handle>, b: seq<Handle>,
                                             less: (Sym, Sym) -> bool)
    requires StrictTotal(less) && Within(a, |objects|) && Within(b, |objects|)
    requires Ascending(objects, a, less) && Ascending(objects, b, less) && multiset(a) == multiset(b)
    ensures a == b
  {
    hide StrictTotal;
    if a != [] {
      LeastIsSame(objects, a, b, less);
      assert a == [a[0]] + a[1..] && b == [b[0]] + b[1..];
      assert multiset(a[1..]) == multiset(a) - multiset{a[0]};
      AscendingIsUnique(objects, a[1..], b[1..], less);
    } else {
      assert |multiset(b)| == 0;
    }
  }

  // The element of the list that sorts first; a pass never pushes it to the new list.
  ghost predicate IsFirst(objects: seq<Sym>, list: seq<Handle>, h: Handle, less: (Sym, Sym) -> bool)
    requires Within(list, |objects|) && h < |objects|
  {
    h in list && forall i | 0 <= i < |list| && list[i] != h :: less(objects[h], objects[list[i]])
  }

  lemma FirstIsPosition0(objects: seq<Sym>, s: seq<Handle>, list: seq<Handle>, i: nat, less: (Sym, Sym) -> bool)
    requires Within(list, |objects|) && Within(s, |objects|) && i < |s| && forall g :: g in s <==> g in list
    requires Ascending(objects, s, less) && StrictTotal(less)
    ensures IsFirst(objects, list, s[i], less) <==> i == 0
  {
    if i == 0 {
      forall j | 0 <= j < |list| && list[j] != s[0] ensures less(objects[s[0]], objects[list[j]]) {
        assert list[j] in s;
        var k: nat :| k < |s| && s[k] == list[j];
      }
    } else {
      assert s[0] in list && less(objects[s[0]], objects[s[i]]);
      var k: nat :| k < |list| && list[k] == s[0];
    }
  }

  // ---- heads ----

  // The position of the head after `n` elements: the element that later equal ones merge into.
  function HeadIndex(objects: seq<Sym>, s: seq<Handle>, n: nat, equal: (Sym, Sym) -> bool): (i: nat)
    requires 1 <= n <= |s| && Within(s, |objects|)
    ensures i < n
  {
    if n == 1 then 0
    else
      var i := HeadIndex(objects, s, n - 1, equal);
      if equal(objects[s[i]], objects[s[n - 1]]) then i else n - 1
  }

  // The positions of the elements pushed to the new list: every head but the first.
  function KeptAt(objects: seq<Sym>, s: seq<Handle>, n: nat, equal: (Sym, Sym) -> bool): (r: seq<nat>)
    requires 1 <= n <= |s| && Within(s, |objects|)
    ensures forall k | 0 <= k < |r| :: 1 <= r[k] < n
    ensures forall k, l | 0 <= k < l < |r| :: r[k] < r[l]
    ensures HeadIndex(objects, s, n, equal) == if r == [] then 0 else r[|r| - 1]
  {
    if n == 1 then []
    else
      var r := KeptAt(objects, s, n - 1, equal);
      if HeadIndex(objects, s, n, equal) == n - 1 then r + [n - 1] else r
  }

  // Position `i` heads a run: it survives the sweep.
  ghost predicate IsHead(objects: seq<Sym>, s: seq<Handle>, i: nat, equal: (Sym, Sym) -> bool)
    requires i < |s| && Within(s, |objects|)
  {
    HeadIndex(objects, s, i + 1, equal) == i
  }

  lemma {:induction false} KeptAtHeads(objects: seq<Sym>, s: seq<Handle>, n: nat, equal: (Sym, Sym) -> bool)
    requires 1 <= n <= |s| && Within(s, |objects|)
    ensures forall i: nat | 1 <= i < n :: i in KeptAt(objects, s, n, equal) <==> IsHead(objects, s, i, equal)
  {
    if n > 1 {
      KeptAtHeads(objects, s, n - 1, equal);
      var r := KeptAt(objects, s, n - 1, equal);
      assert n - 1 !in r;
      assert forall i | i in r + [n - 1] :: i in r || i == n - 1;
      assert n - 1 in r + [n - 1];
    }
  }

  // The head is itself a head, and nothing between it and the end of the prefix is.
  lemma {:induction false} HeadIsHead(objects: seq<Sym>, s: seq<Handle>, n: nat, equal: (Sym, Sym) -> bool)
    requires 1 <= n <= |s| && Within(s, |objects|)
    ensures IsHead(objects, s, HeadIndex(objects, s, n, equal), equal)
    ensures forall i: nat | HeadIndex(objects, s, n, equal) < i < n ::
              !IsHead(objects, s, i, equal) && HeadIndex(objects, s, i + 1, equal) == HeadIndex(objects, s, n, equal)
              && equal(objects[s[HeadIndex(objects, s, n, equal)]], objects[s[i]])
  {
    if n > 1 {
      HeadIsHead(objects, s, n - 1, equal);
      var h := HeadIndex(objects, s, n, equal);
      forall i: nat | h < i < n
        ensures !IsHead(objects, s, i, equal) && HeadIndex(objects, s, i + 1, equal) == h
                && equal(objects[s[h]], objects[s[i]])
      {
        if i == n - 1 { assert HeadIndex(objects, s, i + 1, equal) == h; }
      }
    }
  }

  // ---- the sweep in terms of heads ----

  // The kept list is the heads after the first, and the sweep's head is the last head.
  lemma {:induction false} SweepKeeps(objects: seq<Sym>, al: Aliasing, s: seq<Handle>, n: nat,
                                      equal: (Sym, Sym) -> bool)
    requires 1 <= n <= |s| && Within(s, |objects|)
    ensures var w := Sweep(objects, al, s, n, equal);
            var r := KeptAt(objects, s, n, equal);
            && w.head == s[HeadIndex(objects, s, n, equal)]
            && |w.kept| == |r| && forall k | 0 <= k < |r| :: w.kept[k] == s[r[k]]
  {
    if n > 1 { SweepKeeps(objects, al, s, n - 1, equal); }
  }

  // Nothing is lost: the sorted list is its first element, the kept and the deleted ones.
  lemma {:induction false} SweepConserves(objects: seq<Sym>, al: Aliasing, s: seq<Handle>, n: nat,
                                          equal: (Sym, Sym) -> bool)
    requires 1 <= n <= |s| && Within(s, |objects|)
    ensures var w := Sweep(objects, al, s, n, equal); Conserved(s[..n], s[0], w.kept, w.deleted)
  {
    hide Conserved, SweepStep;
    if n == 1 {
      assert s[..1] == [s[0]];
      ConservedStart(s[0]);
    } else {
      SweepConserves(objects, al, s, n - 1, equal);
      SweepConservesStep(objects, al, s, n, equal);
    }
  }

  // The whole sweep of a permutation `s` of a list conserves the list.
  lemma {:induction false} SweepConservesAll(objects: seq<Sym>, al: Aliasing, list: seq<Handle>, s: seq<Handle>,
                                             equal: (Sym, Sym) -> bool)
    requires s != [] && Within(s, |objects|) && multiset(s) == multiset(list)
    ensures var w := Sweep(objects, al, s, |s|, equal); Conserved(list, s[0], w.kept, w.deleted)
  {
    assert s[..|s|] == s;
    SweepConserves(objects, al, s, |s|, equal);
  }

  lemma SweepConservesStep(objects: seq<Sym>, al: Aliasing, s: seq<Handle>, n: nat, equal: (Sym, Sym) -> bool)
    requires 1 < n <= |s| && Within(s, |objects|)
    requires var w := Sweep(objects, al, s, n - 1, equal); Conserved(s[..n - 1], s[0], w.kept, w.deleted)
    ensures var w := Sweep(objects, al, s, n, equal); Conserved(s[..n], s[0], w.kept, w.deleted)
  {
    var w0 := Sweep(objects, al, s, n - 1, equal);
    assert s[..n - 1] + [s[n - 1]] == s[..n];
    ConservedStep(s[..n - 1], s[0], w0.kept, w0.deleted, s[n - 1]);
    StepLists(objects, w0, s[n - 1], equal);
  }

  // A step appends the object to exactly one of the two lists.
  lemma StepLists(objects: seq<Sym>, w: Swept, h: Handle, equal: (Sym, Sym) -> bool)
    requires w.head < |objects| && h < |objects|
    ensures var w1 := SweepStep(objects, w, h, equal);
            if equal(objects[w.head], objects[h])
            then w1.kept == w.kept && w1.deleted == w.deleted + [h]
            else w1.kept == w.kept + [h] && w1.deleted == w.deleted
  {}

  // `all` holds exactly the elements of the three parts, with their multiplicities.
  ghost predicate Conserved(all: seq<Handle>, first: Handle, kept: seq<Handle>, deleted: seq<Handle>) {
    multiset(all) == multiset{first} + multiset(kept) + multiset(deleted)
  }

  lemma ConservedStart(first: Handle)
    ensures Conserved([first], first, [], [])
  {}

  lemma ConservedStep(all: seq<Handle>, first: Handle, kept: seq<Handle>, deleted: seq<Handle>, x: Handle)
    requires Conserved(all, first, kept, deleted)
    ensures Conserved(all + [x], first, kept + [x], deleted) && Conserved(all + [x], first, kept, deleted + [x])
  {}

  // Exactly the positions that are not heads are deleted.
  lemma {:induction false} SweepDeletes(objects: seq<Sym>, al: Aliasing, s: seq<Handle>, n: nat,
                                        equal: (Sym, Sym) -> bool, i: nat)
    requires i < n <= |s| && Within(s, |objects|) && DistinctIds(objects, s)
    ensures s[i] in Sweep(objects, al, s, n, equal).deleted <==> !IsHead(objects, s, i, equal)
  {
    hide SweepStep;
    if n > 1 {
      var w0 := Sweep(objects, al, s, n - 1, equal);
      SweepKeeps(objects, al, s, n - 1, equal);
      SweepOnlyDeletes(objects, al, s, n - 1, equal);
      StepLists(objects, w0, s[n - 1], equal);
      if i < n - 1 {
        SweepDeletes(objects, al, s, n - 1, equal, i);
        AppendOther(w0.deleted, s[n - 1], s[i]);
      } else {
        assert s[i] !in w0.deleted;
        AppendOther(w0.deleted, s[n - 1], s[i]);
      }
    }
  }

  lemma AppendOther(list: seq<Handle>, x: Handle, y: Handle)
    ensures y in list + [x] <==> y in list || y == x
  {}

  lemma {:induction false} SweepOnlyDeletes(objects: seq<Sym>, al: Aliasing, s: seq<Handle>, n: nat,
                                            equal: (Sym, Sym) -> bool)
    requires 1 <= n <= |s| && Within(s, |objects|)
    ensures forall h <- Sweep(objects, al, s, n, equal).deleted :: exists i :: 1 <= i < n && s[i] == h
  {
    if n > 1 {
      SweepOnlyDeletes(objects, al, s, n - 1, equal);
      var w := Sweep(objects, al, s, n, equal);
      forall h | h in w.deleted ensures exists i :: 1 <= i < n && s[i] == h {
        if h !in Sweep(objects, al, s, n - 1, equal).deleted { assert s[n - 1] == h; }
      }
    }
  }

  // A deleted position among the first `n` has the id `x`.
  ghost predicate IsMerged(objects: seq<Sym>, s: seq<Handle>, n: nat, equal: (Sym, Sym) -> bool, x: nat)
    requires n <= |s| && Within(s, |objects|)
  {
    exists i: nat :: i < n && !IsHead(objects, s, i, equal) && objects[s[i]].id == x
  }

  // Every deleted position is aliased to its head.
  lemma {:induction false} SweepAliases(objects: seq<Sym>, al: Aliasing, s: seq<Handle>, n: nat,
                                        equal: (Sym, Sym) -> bool, i: nat)
    requires i < n <= |s| && Within(s, |objects|) && DistinctIds(objects, s) && !IsHead(objects, s, i, equal)
    ensures var target := Sweep(objects, al, s, n, equal).aliases.target;
            && objects[s[i]].id in target
            && target[objects[s[i]].id] == objects[s[HeadIndex(objects, s, i + 1, equal)]].id
  {
    hide Sweep, HeadIndex;
    if i < n - 1 {
      SweepAliases(objects, al, s, n - 1, equal, i);
      AliasStays(objects, al, s, n, equal, i);
    } else {
      LastAliased(objects, al, s, i, equal);
    }
  }

  // An element that is merged is aliased to the head.
  lemma {:induction false} LastAliased(objects: seq<Sym>, al: Aliasing, s: seq<Handle>, i: nat,
                                       equal: (Sym, Sym) -> bool)
    requires i < |s| && Within(s, |objects|) && !IsHead(objects, s, i, equal)
    ensures var target := Sweep(objects, al, s, i + 1, equal).aliases.target;
            && objects[s[i]].id in target
            && target[objects[s[i]].id] == objects[s[HeadIndex(objects, s, i + 1, equal)]].id
  {
    SweepKeeps(objects, al, s, i, equal);
  }

  // One more element leaves the aliases of those before it.
  lemma {:induction false} AliasStays(objects: seq<Sym>, al: Aliasing, s: seq<Handle>, n: nat,
                                      equal: (Sym, Sym) -> bool, i: nat)
    requires i < n - 1 < n <= |s| && Within(s, |objects|) && DistinctIds(objects, s)
    requires objects[s[i]].id in Sweep(objects, al, s, n - 1, equal).aliases.target
    ensures var x, target := objects[s[i]].id, Sweep(objects, al, s, n, equal).aliases.target;
            x in target && target[x] == Sweep(objects, al, s, n - 1, equal).aliases.target[x]
  {
    assert objects[s[i]].id != objects[s[n - 1]].id;
  }

  // No other alias changes.
  lemma {:induction false} SweepAliasesOnly(objects: seq<Sym>, al: Aliasing, s: seq<Handle>, n: nat,
                                            equal: (Sym, Sym) -> bool, x: nat)
    requires 1 <= n <= |s| && Within(s, |objects|) && !IsMerged(objects, s, n, equal, x)
    ensures var target := Sweep(objects, al, s, n, equal).aliases.target;
            && (x in target <==> x in al.target)
            && (x in target ==> target[x] == al.target[x])
  {
    if n > 1 {
      MergedGrows(objects, s, n, equal, x);
      SweepAliasesOnly(objects, al, s, n - 1, equal, x);
      SweepKeeps(objects, al, s, n - 1, equal);
    }
  }

  lemma MergedGrows(objects: seq<Sym>, s: seq<Handle>, n: nat, equal: (Sym, Sym) -> bool, x: nat)
    requires 1 < n <= |s| && Within(s, |objects|)
    ensures IsMerged(objects, s, n, equal, x) <==>
            IsMerged(objects, s, n - 1, equal, x) || (!IsHead(objects, s, n - 1, equal) && objects[s[n - 1]].id == x)
  {
    if IsMerged(objects, s, n - 1, equal, x) {
      var i: nat :| i < n - 1 && !IsHead(objects, s, i, equal) && objects[s[i]].id == x;
      assert i < n;
    }
  }

  // The reverse lists stay the inverse of the alias map.
  lemma {:induction false} SweepReverses(objects: seq<Sym>, al: Aliasing, s: seq<Handle>, n: nat,
                                         equal: (Sym, Sym) -> bool)
    requires 1 <= n <= |s| && Within(s, |objects|) && DistinctIds(objects, s)
    requires ReverseOk(al) && forall i | 0 <= i < |s| :: objects[s[i]].id !in al.target
    ensures ReverseOk(Sweep(objects, al, s, n, equal).aliases)
  {
    if n > 1 {
      hide ReverseOk, AddAlternativeID, IsMerged;
      SweepReverses(objects, al, s, n - 1, equal);
      var w := Sweep(objects, al, s, n - 1, equal);
      NotYetMerged(objects, al, s, n - 1, equal);
      AliasingKeeps(w.aliases, objects[w.head].id, objects[s[n - 1]].id);
    }
  }

  // An element is no alias before the sweep comes to it.
  lemma NotYetMerged(objects: seq<Sym>, al: Aliasing, s: seq<Handle>, n: nat, equal: (Sym, Sym) -> bool)
    requires 1 <= n < |s| && Within(s, |objects|) && DistinctIds(objects, s)
    requires objects[s[n]].id !in al.target
    ensures objects[s[n]].id !in Sweep(objects, al, s, n, equal).aliases.target
  {
    var x := objects[s[n]].id;
    assert !IsMerged(objects, s, n, equal, x);
    SweepAliasesOnly(objects, al, s, n, equal, x);
  }

  // An element is in the kept list exactly when its position is that of a head other than the first.
  lemma {:induction false} KeptPosition(objects: seq<Sym>, al: Aliasing, s: seq<Handle>, i: nat,
                                        equal: (Sym, Sym) -> bool)
    requires i < |s| && Within(s, |objects|) && DistinctIds(objects, s)
    ensures s[i] in Sweep(objects, al, s, |s|, equal).kept <==> i > 0 && IsHead(objects, s, i, equal)
  {
    var r := KeptAt(objects, s, |s|, equal);
    var w := Sweep(objects, al, s, |s|, equal);
    SweepKeeps(objects, al, s, |s|, equal);
    KeptAtHeads(objects, s, |s|, equal);
    if i > 0 && IsHead(objects, s, i, equal) {
      var k: nat :| k < |r| && r[k] == i;
      assert w.kept[k] == s[i];
    }
    if s[i] in w.kept {
      var k: nat :| k < |w.kept| && w.kept[k] == s[i];
      assert s[r[k]] == s[i] && r[k] == i && r[k] in r;
    }
  }

  // ---- the lists that the passes work on ----

  // What the passes need of a table: objects registered under their ids, none of which is 0, a list without repeats.
  ghost predicate Listed(t: Table, list: seq<Handle>) {
    && ObjectsOk(t) && 0 !in t.symbolIDMap
    && (forall i | 0 <= i < |list| :: list[i] < |t.objects|)
    && (forall i, j | 0 <= i < j < |list| :: list[i] != list[j])
  }

  // Every element type that is set resolves.
  ghost predicate ArraysResolve(t: Table) {
    Listed(t, t.names.arrays) &&
    forall h: nat | h < |t.objects| && h in t.names.arrays :: t.objects[h].typ == 0 || Find(t, t.objects[h].typ).Some?
  }

  // Every return type that is set and every parameter type resolves.
  ghost predicate FunctionsResolve(t: Table) {
    Listed(t, t.names.funcList) &&
    forall h: nat | h < |t.objects| && h in t.names.funcList ::
      && (t.objects[h].rettype == 0 || Find(t, t.objects[h].rettype).Some?)
      && ParamsResolve(t, t.objects[h].params)
  }

  // The type ids of the parameters are set and resolve.
  ghost predicate ParamsResolve(t: Table, params: seq<(string, nat)>) {
    forall i | 0 <= i < |params| :: params[i].1 != 0 && Find(t, params[i].1).Some?
  }

  // The id does not resolve to one of the objects `dead`, which clean-ups deleted.
  ghost predicate IsAlive(t: Table, dead: seq<Handle>, id: nat) {
    Find(t, id).Some? ==> Find(t, id).value !in dead
  }

  // What cleanArrays needs: objects registered under their ids, no array listed twice or deleted, every
  // element type set to an id that resolves to an object that is not deleted.
  ghost predicate ArraysCleanable(t: Table, dead: seq<Handle>) {
    && ArraysResolve(t)
    && forall h: nat | h < |t.objects| && h in t.names.arrays ::
         h !in dead && (t.objects[h].typ != 0 ==> IsAlive(t, dead, t.objects[h].typ))
  }

  // What cleanFunctions needs, the same of functions.
  ghost predicate FunctionsCleanable(t: Table, dead: seq<Handle>) {
    && FunctionsResolve(t)
    && forall h: nat | h < |t.objects| && h in t.names.funcList ::
         && h !in dead && (t.objects[h].rettype != 0 ==> IsAlive(t, dead, t.objects[h].rettype))
         && ParamsAlive(t, dead, t.objects[h].params)
  }

  ghost predicate ParamsAlive(t: Table, dead: seq<Handle>, params: seq<(string, nat)>) {
    forall i | 0 <= i < |params| :: IsAlive(t, dead, params[i].1)
  }

  lemma InvLists(t: Table)
    requires Inv(t)
    ensures Listed(t, t.names.arrays) && Listed(t, t.names.funcList)
  {
    assert forall i | 0 <= i < |t.names.arrays| :: t.names.arrays[i] in t.names.arrays;
    assert forall i | 0 <= i < |t.names.funcList| :: t.names.funcList[i] in t.names.funcList;
  }

  lemma ListedIds(t: Table, list: seq<Handle>, objects: seq<Sym>)
    requires Listed(t, list) && |objects| == |t.objects| && forall h: nat | h < |objects| ::
             objects[h].id == t.objects[h].id
    ensures Within(list, |objects|) && DistinctIds(objects, list)
  {}

  // A permutation of a list without repeats has distinct ids too.
  lemma PermutedIds(objects: seq<Sym>, list: seq<Handle>, s: seq<Handle>)
    requires Within(list, |objects|) && Within(s, |objects|) && DistinctIds(objects, list)
             && multiset(list) == multiset(s)
    ensures DistinctIds(objects, s)
    ensures forall h :: h in s <==> h in list
  {
    forall h ensures h in s <==> h in list {
      assert h in s <==> h in multiset(s);
      assert h in list <==> h in multiset(list);
    }
    forall i, j | 0 <= i < j < |s| ensures objects[s[i]].id != objects[s[j]].id {
      NoRepeats(objects, list);
      if s[i] == s[j] { RepeatCounts(s, i, j); }
      assert s[i] in list && s[j] in list;
      var k: nat :| k < |list| && list[k] == s[i];
      var l: nat :| l < |list| && list[l] == s[j];
    }
  }

  lemma {:induction false} NoRepeats(objects: seq<Sym>, list: seq<Handle>)
    requires Within(list, |objects|) && DistinctIds(objects, list)
    ensures forall h :: multiset(list)[h] <= 1
  {
    if list != [] {
      NoRepeats(objects, list[1..]);
      assert list == [list[0]] + list[1..];
      assert list[0] !in list[1..];
    }
  }

  lemma RepeatCounts(s: seq<Handle>, i: nat, j: nat)
    requires i < j < |s| && s[i] == s[j]
    ensures multiset(s)[s[i]] >= 2
  {
    assert s == s[..j] + s[j..];
    assert s[..j][i] in multiset(s[..j]) && s[j..][0] in multiset(s[j..]);
  }

  // ---- the sorted list of a pass ----

  // Sorting and sweeping the list of a pass: what every pass can rely on.
  lemma {:induction false} SortedList(t: Table, list: seq<Handle>, objects: seq<Sym>, less: (Sym, Sym) -> bool)
    requires Listed(t, list) && StrictTotal(less)
    requires |objects| == |t.objects| && forall h: nat | h < |objects| :: objects[h].id == t.objects[h].id
    ensures Within(list, |objects|)
    ensures var s := Sort(objects, list, less);
            Ascending(objects, s, less) && DistinctIds(objects, s) && forall h :: h in s <==> h in list
  {
    ListedIds(t, list, objects);
    SortAscends(objects, list, less);
    PermutedIds(objects, list, Sort(objects, list, less));
  }

  // An id resolves after the sweep as it did before: the merged ids keep naming their own objects.
  lemma {:induction false} SweepKeepsFind(t: Table, t1: Table, s: seq<Handle>, equal: (Sym, Sym) -> bool, id: nat)
    requires ObjectsOk(t) && |t1.objects| == |t.objects| && t1.symbolIDMap == t.symbolIDMap
    requires forall h: nat | h < |t.objects| :: t1.objects[h].id == t.objects[h].id
    requires s != [] && Within(s, |t1.objects|) && t1.aliases == Sweep(t1.objects, t.aliases, s, |s|, equal).aliases
    ensures Find(t1, id) == Find(t, id)
  {
    if id !in t.symbolIDMap {
      assert !IsMerged(t1.objects, s, |s|, equal, id);
      SweepAliasesOnly(t1.objects, t.aliases, s, |s|, equal, id);
    }
  }

  // A canonical type id resolves to the object that the original id resolved to.
  lemma CanonicalResolvesSame(t: Table, id: nat)
    requires ObjectsOk(t) && (id == 0 || Find(t, id).Some?)
    ensures id != 0 ==> Find(t, Canonical(t, id)) == Find(t, id)
    ensures Canonical(t, Canonical(t, id)) == Canonical(t, id)
    ensures id != 0 && Find(t, id).Some? ==> Canonical(t, id) == t.objects[Find(t, id).value].id
  {}
}
