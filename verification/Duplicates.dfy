/**
 Which arrays and functions a clean-up deletes, told from the table before it, and when a lookup by id
 finds a deleted object afterwards: the object stays registered under its id, ahead of its new alias.
 */
module Duplicates {
  import opened SymbolTable
  import opened Invariant
  import opened CleanupSpec
  import opened Sweeping
  import ArrayCleanup
  import FunctionCleanup

  // ---- arrays ----

  // The type ids resolve to the same symbol, or are the same and resolve to none.
  predicate SameType(t: Table, a: nat, b: nat) {
    a == b || (a != 0 && b != 0 && Find(t, a).Some? && Find(t, a) == Find(t, b))
  }

  lemma SameTypeIff(t: Table, a: nat, b: nat)
    requires ObjectsOk(t) && 0 !in t.symbolIDMap
    ensures Canonical(t, a) == Canonical(t, b) <==> SameType(t, a, b)
  {}

  // Two arrays of the same element type and length.
  predicate SameArray(t: Table, a: Sym, b: Sym) {
    SameType(t, a.typ, b.typ) && a.length == b.length
  }

  // Another listed array of the same type and length has a smaller id.
  ghost predicate IsDuplicateArray(t: Table, h: Handle) {
    && h < |t.objects| && h in t.names.arrays
    && exists m: nat :: m < |t.objects| && m in t.names.arrays && SameArray(t, t.objects[m], t.objects[h])
                        && t.objects[m].id < t.objects[h].id
  }

  lemma MinimalIsNoDuplicate(t: Table, h: Handle)
    requires Listed(t, t.names.arrays) && h < |t.objects| && h in t.names.arrays
    ensures Within(t.names.arrays, |t.objects|)
    ensures ArrayCleanup.IsMinimal(CleanArrays(t).table.objects, t.names.arrays, h) <==> !IsDuplicateArray(t, h)
  {
    ArrayCleanup.PassObjects(t);
    var objects := CleanArrays(t).table.objects;
    forall m: nat | m < |t.objects| && m in t.names.arrays
      ensures ArrayEqual(objects[m], objects[h]) <==> SameArray(t, t.objects[m], t.objects[h])
      ensures objects[m].id == t.objects[m].id
    {
      SameTypeIff(t, t.objects[m].typ, t.objects[h].typ);
    }
  }

  lemma DeletedIsListed(list: seq<Handle>, first: Handle, kept: seq<Handle>, deleted: seq<Handle>, h: Handle)
    requires Conserved(list, first, kept, deleted) && h in deleted
    ensures h in list
  {
    assert h in multiset(deleted);
    assert h in multiset(list);
  }

  // cleanArrays deletes exactly the duplicates.
  lemma DeletedArrays(t: Table, h: Handle)
    requires Listed(t, t.names.arrays)
    ensures Within(t.names.arrays, |t.objects|)
    ensures h in CleanArrays(t).deleted <==> IsDuplicateArray(t, h)
  {
    var c := CleanArrays(t);
    if h in c.deleted && t.names.arrays != [] {
      ArrayCleanup.ArraysConserved(t);
      DeletedIsListed(t.names.arrays, c.sorted[0], c.table.names.arrays, c.deleted, h);
    }
    if h in t.names.arrays {
      ArrayCleanup.DeletedExactly(t, h);
      MinimalIsNoDuplicate(t, h);
    }
  }

  /**
   After cleanArrays a lookup finds the same object as before, and a deleted one exactly when that object
   was a duplicate.
   */
  lemma FindsDeletedArray(t: Table, id: nat)
    requires Listed(t, t.names.arrays)
    ensures Within(t.names.arrays, |t.objects|)
    ensures Find(CleanArrays(t).table, id) == Find(t, id)
    ensures Find(t, id).Some? ==>
              (Find(CleanArrays(t).table, id).value in CleanArrays(t).deleted
               <==> IsDuplicateArray(t, Find(t, id).value))
  {
    ArrayCleanup.CleanArraysKeepsFind(t, id);
    if Find(t, id).Some? { DeletedArrays(t, Find(t, id).value); }
  }

  // By element type, then length, then id.
  predicate ArrayBefore(a: Sym, b: Sym) {
    a.typ < b.typ || (a.typ == b.typ && (a.length < b.length || (a.length == b.length && a.id < b.id)))
  }

  // Some element of the list comes before `h`.
  ghost predicate ComesAfterAny(objects: seq<Sym>, list: seq<Handle>, h: Handle, less: (Sym, Sym) -> bool)
    requires h < |objects|
  {
    exists g: Handle :: g < |objects| && g in list && less(objects[g], objects[h])
  }

  lemma {:induction false} NotFirstIff(objects: seq<Sym>, list: seq<Handle>, h: Handle, less: (Sym, Sym) -> bool)
    requires Within(list, |objects|) && h < |objects| && h in list && DistinctIds(objects, list) && StrictTotal(less)
    ensures IsFirst(objects, list, h, less) <==> !ComesAfterAny(objects, list, h, less)
  {
    var j :| 0 <= j < |list| && list[j] == h;
    if IsFirst(objects, list, h, less) {
      forall g: Handle | g < |objects| && g in list ensures !less(objects[g], objects[h]) {
        var i :| 0 <= i < |list| && list[i] == g;
        assert g == h || less(objects[h], objects[list[i]]);
      }
    } else {
      var i :| 0 <= i < |list| && list[i] != h && !less(objects[h], objects[list[i]]);
      assert list[i] in list && objects[list[i]].id != objects[list[j]].id;
    }
  }

  // The new vector holds exactly the listed arrays that are no duplicates and come after another one, by the
  // types they resolve to.
  lemma KeptArrays(t: Table, h: Handle)
    requires Listed(t, t.names.arrays) && h in t.names.arrays
    ensures Within(t.names.arrays, |t.objects|) && h < |t.objects|
    ensures var c := CleanArrays(t);
            h in c.table.names.arrays <==>
            !IsDuplicateArray(t, h) && ComesAfterAny(c.table.objects, t.names.arrays, h, ArrayBefore)
  {
    hide IsDuplicateArray, CleanArrays, IsFirst;
    var c, list := CleanArrays(t), t.names.arrays;
    ArrayCleanup.KeptExactly(t, h);
    MinimalIsNoDuplicate(t, h);
    ArrayCleanup.PassObjects(t);
    ListedIds(t, list, c.table.objects);
    ArrayCleanup.ArrayLessIsStrictTotal();
    NotFirstIff(c.table.objects, list, h, ArrayLess);
    assert forall a, b :: ArrayLess(a, b) <==> ArrayBefore(a, b);
  }

  // ---- functions ----

  // The function just before it, by id among those of its signature, has its name too.
  ghost predicate FollowsEqual(objects: seq<Sym>, list: seq<Handle>, h: Handle)
    requires Within(list, |objects|) && h < |objects|
  {
    exists i: nat :: i < |list| && FunctionEqual(objects[list[i]], objects[h]) && objects[list[i]].id < objects[h].id
                     && NoneBetween(objects, list, objects[list[i]], objects[h])
  }

  ghost predicate NoneBetween(objects: seq<Sym>, list: seq<Handle>, f: Sym, g: Sym)
    requires Within(list, |objects|)
  {
    forall i | 0 <= i < |list| && SameSignature(objects[list[i]], g) :: !(f.id < objects[list[i]].id < g.id)
  }

  lemma {:induction false} HeadIffDifferent(objects: seq<Sym>, s: seq<Handle>, i: nat)
    requires i < |s| && Within(s, |objects|)
    ensures IsHead(objects, s, i, FunctionEqual) <==> i == 0 || !FunctionEqual(objects[s[i - 1]], objects[s[i]])
  {
    if i > 0 { HeadIsHead(objects, s, i, FunctionEqual); }
  }

  lemma NeighbourIsNearest(objects: seq<Sym>, s: seq<Handle>, i: nat)
    requires 0 < i < |s| && Within(s, |objects|) && Ascending(objects, s, FunctionLess)
    requires FunctionEqual(objects[s[i - 1]], objects[s[i]])
    ensures FollowsEqual(objects, s, s[i])
  {
    FunctionCleanup.EarlierHasSmallerId(objects, s, i - 1, i);
    forall j | 0 <= j < |s| && SameSignature(objects[s[j]], objects[s[i]])
      ensures !(objects[s[i - 1]].id < objects[s[j]].id < objects[s[i]].id)
    {
      if j != i && j != i - 1 {
        FunctionCleanup.EarlierHasSmallerId(objects, s, i - 1, j);
        FunctionCleanup.EarlierHasSmallerId(objects, s, j, i);
      }
    }
  }

  lemma NearestIsNeighbour(objects: seq<Sym>, s: seq<Handle>, i: nat)
    requires i < |s| && Within(s, |objects|) && Ascending(objects, s, FunctionLess) && FollowsEqual(objects, s, s[i])
    ensures i > 0 && FunctionEqual(objects[s[i - 1]], objects[s[i]])
  {
    var j: nat :| j < |s| && FunctionEqual(objects[s[j]], objects[s[i]]) && objects[s[j]].id < objects[s[i]].id
                  && NoneBetween(objects, s, objects[s[j]], objects[s[i]]);
    FunctionCleanup.EarlierHasSmallerId(objects, s, j, i);
    if j < i - 1 { FunctionCleanup.Sandwich(objects, s, j, i - 1, i); }
  }

  lemma FollowsIn(objects: seq<Sym>, s: seq<Handle>, list: seq<Handle>, h: Handle)
    requires Within(s, |objects|) && Within(list, |objects|) && h < |objects| && forall g <- s :: g in list
    requires forall g <- list :: g in s
    requires FollowsEqual(objects, s, h)
    ensures FollowsEqual(objects, list, h)
  {
    var i: nat :| i < |s| && FunctionEqual(objects[s[i]], objects[h]) && objects[s[i]].id < objects[h].id
                  && NoneBetween(objects, s, objects[s[i]], objects[h]);
    assert s[i] in list;
    var j: nat :| j < |list| && list[j] == s[i];
    forall k | 0 <= k < |list| && SameSignature(objects[list[k]], objects[h])
      ensures !(objects[list[j]].id < objects[list[k]].id < objects[h].id)
    {
      assert list[k] in s;
      var l: nat :| l < |s| && s[l] == list[k];
    }
  }

  // Two functions of the same return type and parameter types.
  predicate SameTypes(t: Table, f: Sym, g: Sym) {
    && SameType(t, f.rettype, g.rettype) && |f.params| == |g.params|
    && forall k | 0 <= k < |f.params| :: SameType(t, f.params[k].1, g.params[k].1)
  }

  // The listed function `m` comes just before `h`, by id among those of the same types.
  ghost predicate IsJustBefore(t: Table, m: Handle, h: Handle)
    requires h < |t.objects|
  {
    && m < |t.objects| && m in t.names.funcList && SameTypes(t, t.objects[m], t.objects[h])
    && t.objects[m].id < t.objects[h].id
    && forall k: nat | k < |t.objects| && k in t.names.funcList && SameTypes(t, t.objects[k], t.objects[h]) ::
         !(t.objects[m].id < t.objects[k].id < t.objects[h].id)
  }

  // Of the listed functions of the same types the one just before has the same name.
  ghost predicate IsDuplicateFunction(t: Table, h: Handle) {
    && h < |t.objects| && h in t.names.funcList
    && exists m: Handle :: IsJustBefore(t, m, h) && t.objects[m].name == t.objects[h].name
  }

  lemma SameTypesIff(t: Table, f: Sym, g: Sym)
    requires ObjectsOk(t) && 0 !in t.symbolIDMap
    ensures SameSignature(UpdatedFunctionTypes(t, f), UpdatedFunctionTypes(t, g)) <==> SameTypes(t, f, g)
  {
    var f1, g1 := UpdatedFunctionTypes(t, f), UpdatedFunctionTypes(t, g);
    SameTypeIff(t, f.rettype, g.rettype);
    if |f.params| == |g.params| {
      forall k | 0 <= k < |f.params|
        ensures f1.params[k].1 == g1.params[k].1 <==> SameType(t, f.params[k].1, g.params[k].1) {
        SameTypeIff(t, f.params[k].1, g.params[k].1);
      }
    }
  }

  // The functions with the types they resolve to compare as the types of the functions do.
  ghost predicate ComparesAlike(t: Table, objects: seq<Sym>, h: Handle)
    requires h < |t.objects| == |objects|
  {
    forall m: nat | m < |t.objects| && m in t.names.funcList ::
      && (SameSignature(objects[m], objects[h]) <==> SameTypes(t, t.objects[m], t.objects[h]))
      && objects[m].id == t.objects[m].id && objects[m].name == t.objects[m].name
  }

  lemma UpdatedComparesAlike(t: Table, h: Handle)
    requires Listed(t, t.names.funcList) && h < |t.objects| && h in t.names.funcList
    ensures ComparesAlike(t, FunctionObjects(t), h)
  {
    hide SameSignature, SameTypes, UpdatedFunctionTypes;
    forall m: nat | m < |t.objects| && m in t.names.funcList
      ensures SameSignature(FunctionObjects(t)[m], FunctionObjects(t)[h]) <==>
              SameTypes(t, t.objects[m], t.objects[h])
      ensures FunctionObjects(t)[m].id == t.objects[m].id && FunctionObjects(t)[m].name == t.objects[m].name
    {
      SameTypesIff(t, t.objects[m], t.objects[h]);
      UpdatedKeeps(t, t.objects[m]);
    }
  }

  lemma DuplicateFollows(t: Table, objects: seq<Sym>, h: Handle)
    requires h < |t.objects| == |objects| && h in t.names.funcList && Within(t.names.funcList, |objects|)
    requires ComparesAlike(t, objects, h) && IsDuplicateFunction(t, h)
    ensures FollowsEqual(objects, t.names.funcList, h)
  {
    hide SameSignature, SameTypes;
    var list := t.names.funcList;
    var m: Handle :| IsJustBefore(t, m, h) && t.objects[m].name == t.objects[h].name;
    var i: nat :| i < |list| && list[i] == m;
    forall j | 0 <= j < |list| && SameSignature(objects[list[j]], objects[h])
      ensures !(objects[m].id < objects[list[j]].id < objects[h].id)
    {
      assert list[j] in list;
    }
    assert FunctionEqual(objects[list[i]], objects[h]);
  }

  lemma FollowsDuplicate(t: Table, objects: seq<Sym>, h: Handle)
    requires h < |t.objects| == |objects| && h in t.names.funcList && Within(t.names.funcList, |objects|)
    requires ComparesAlike(t, objects, h) && FollowsEqual(objects, t.names.funcList, h)
    ensures IsDuplicateFunction(t, h)
  {
    hide SameSignature, SameTypes;
    var list := t.names.funcList;
    var i: nat :| i < |list| && FunctionEqual(objects[list[i]], objects[h]) && objects[list[i]].id < objects[h].id
                  && NoneBetween(objects, list, objects[list[i]], objects[h]);
    assert list[i] in list;
    forall k: nat | k < |t.objects| && k in list && SameTypes(t, t.objects[k], t.objects[h])
      ensures !(t.objects[list[i]].id < t.objects[k].id < t.objects[h].id)
    {
      var j: nat :| j < |list| && list[j] == k;
    }
    assert IsJustBefore(t, list[i], h);
  }

  lemma UpdatedKeeps(t: Table, f: Sym)
    ensures UpdatedFunctionTypes(t, f).id == f.id && UpdatedFunctionTypes(t, f).name == f.name
  {}

  lemma {:induction false} SweptIffFollows(objects: seq<Sym>, al: Aliasing, s: seq<Handle>, i: nat)
    requires i < |s| && Within(s, |objects|) && Ascending(objects, s, FunctionLess) && DistinctIds(objects, s)
    ensures s[i] in Sweep(objects, al, s, |s|, FunctionEqual).deleted <==> FollowsEqual(objects, s, s[i])
  {
    SweepDeletes(objects, al, s, |s|, FunctionEqual, i);
    HeadIffDifferent(objects, s, i);
    if FollowsEqual(objects, s, s[i]) { NearestIsNeighbour(objects, s, i); }
    if i > 0 && FunctionEqual(objects[s[i - 1]], objects[s[i]]) { NeighbourIsNearest(objects, s, i); }
  }

  // cleanFunctions deletes exactly the functions that follow an equal one.
  lemma DeletedFunctions(t: Table, h: Handle)
    requires Listed(t, t.names.funcList)
    ensures Within(t.names.funcList, |t.objects|)
    ensures h in CleanFunctions(t).deleted <==> IsDuplicateFunction(t, h)
  {
    var c := CleanFunctions(t);
    FunctionCleanup.Sorted(t);
    var s, objects := c.sorted, c.table.objects;
    if t.names.funcList == [] {
      assert Sort(FunctionObjects(t), t.names.funcList, FunctionLess) == [];
    } else if h !in t.names.funcList {
      FunctionCleanup.FunctionsConserved(t);
      if h in c.deleted { DeletedIsListed(t.names.funcList, s[0], c.table.names.funcList, c.deleted, h); }
    } else {
      DeletedListedFunction(t, h);
    }
  }

  // The new list holds exactly the listed functions that are no duplicates and come after another one, by the
  // types they resolve to.
  lemma KeptFunctions(t: Table, h: Handle)
    requires Listed(t, t.names.funcList) && h in t.names.funcList
    ensures Within(t.names.funcList, |t.objects|) && h < |t.objects|
    ensures h in CleanFunctions(t).table.names.funcList <==>
            && !IsDuplicateFunction(t, h)
            && exists g: Handle :: g < |t.objects| && g in t.names.funcList
                                   && FunctionCleanup.FunctionBefore(FunctionObjects(t)[g], FunctionObjects(t)[h])
  {
    hide FunctionLess, FunctionCleanup.FunctionBefore, IsDuplicateFunction, CleanFunctions, IsFirst;
    KeptButFirst(t, h);
    FunctionCleanup.PassObjects(t);
    ListedIds(t, t.names.funcList, FunctionObjects(t));
    FunctionCleanup.FunctionLessIsStrictTotal();
    NotFirstIff(FunctionObjects(t), t.names.funcList, h, FunctionLess);
    forall f, g ensures FunctionLess(f, g) <==> FunctionCleanup.FunctionBefore(f, g) {
      FunctionCleanup.FunctionLessIff(f, g);
    }
  }

  lemma KeptButFirst(t: Table, h: Handle)
    requires Listed(t, t.names.funcList) && h in t.names.funcList
    ensures Within(t.names.funcList, |t.objects|) && h < |t.objects|
    ensures h in CleanFunctions(t).table.names.funcList <==>
            !IsDuplicateFunction(t, h) && !IsFirst(FunctionObjects(t), t.names.funcList, h, FunctionLess)
  {
    var c, list := CleanFunctions(t), t.names.funcList;
    FunctionCleanup.FunctionsConserved(t);
    DeletedFunctions(t, h);
    FunctionCleanup.PassObjects(t);
    ListedIds(t, list, c.table.objects);
    NoRepeats(c.table.objects, list);
    ConservedOnce(list, c.sorted[0], c.table.names.funcList, c.deleted, h);
    FirstIsOne(c.table.objects, list, c.sorted[0], h);
  }

  lemma ConservedOnce(list: seq<Handle>, first: Handle, kept: seq<Handle>, deleted: seq<Handle>, h: Handle)
    requires Conserved(list, first, kept, deleted) && h in list && forall g :: multiset(list)[g] <= 1
    ensures h in kept <==> h !in deleted && h != first
  {
    assert multiset(list)[h] == multiset{first}[h] + multiset(kept)[h] + multiset(deleted)[h];
    assert h in multiset(list);
  }

  lemma FirstIsOne(objects: seq<Sym>, list: seq<Handle>, first: Handle, h: Handle)
    requires Within(list, |objects|) && first < |objects| && h < |objects| && h in list
    requires IsFirst(objects, list, first, FunctionLess)
    ensures IsFirst(objects, list, h, FunctionLess) <==> h == first
  {
    FunctionCleanup.FunctionLessIsStrictTotal();
    var i :| 0 <= i < |list| && list[i] == h;
    var j :| 0 <= j < |list| && list[j] == first;
  }

  lemma DeletedListedFunction(t: Table, h: Handle)
    requires Listed(t, t.names.funcList) && h in t.names.funcList
    ensures Within(t.names.funcList, |t.objects|)
    ensures h in CleanFunctions(t).deleted <==> IsDuplicateFunction(t, h)
  {
    FunctionCleanup.Sorted(t);
    var c := CleanFunctions(t);
    var s, objects, list := c.sorted, c.table.objects, t.names.funcList;
    assert h in s;
    var i: nat :| i < |s| && s[i] == h;
    assert objects == FunctionObjects(t);
    SweptIffFollows(objects, t.aliases, s, i);
    UpdatedComparesAlike(t, h);
    if IsDuplicateFunction(t, h) { DuplicateFollows(t, objects, h); }
    if FollowsEqual(objects, list, h) { FollowsDuplicate(t, objects, h); }
    if FollowsEqual(objects, s, h) { FollowsIn(objects, s, list, h); }
    if FollowsEqual(objects, list, h) { FollowsIn(objects, list, s, h); }
  }

  // The new list ascends by return type, number of parameters, parameter types and id.
  lemma KeptFunctionsAscend(t: Table, k: nat, l: nat)
    requires Listed(t, t.names.funcList) && Within(t.names.funcList, |t.objects|)
    requires t.names.funcList != [] && k < l < |CleanFunctions(t).table.names.funcList|
    ensures var c := CleanFunctions(t);
            var kept := c.table.names.funcList;
            FunctionCleanup.FunctionBefore(c.table.objects[kept[k]], c.table.objects[kept[l]])
  {
    FunctionCleanup.Sorted(t);
    var c := CleanFunctions(t);
    assert t.names.funcList[0] in c.sorted;
    SweptAscend(c.table.objects, t.aliases, c.sorted, k, l);
  }

  lemma {:induction false} SweptAscend(objects: seq<Sym>, al: Aliasing, s: seq<Handle>, k: nat, l: nat)
    requires s != [] && Within(s, |objects|) && Ascending(objects, s, FunctionLess)
    requires k < l < |Sweep(objects, al, s, |s|, FunctionEqual).kept|
    ensures var kept := Sweep(objects, al, s, |s|, FunctionEqual).kept;
            FunctionCleanup.FunctionBefore(objects[kept[k]], objects[kept[l]])
  {
    hide FunctionLess, FunctionEqual, Sweep, FunctionCleanup.FunctionBefore;
    SweepKeeps(objects, al, s, |s|, FunctionEqual);
    var r := KeptAt(objects, s, |s|, FunctionEqual);
    FunctionCleanup.FunctionLessIff(objects[s[r[k]]], objects[s[r[l]]]);
  }
}
