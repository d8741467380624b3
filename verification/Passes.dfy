/**
 Exactly when another clean-up may follow one: when what it would read, the types of the arrays or of the
 functions that are still listed, has not been deleted.
 */
module Passes {
  import opened SymbolTable
  import opened CleanupSpec
  import opened Sweeping
  import opened Settled
  import opened Duplicates
  import opened Liveness
  import opened ArrayLookup

  // The type id is set and resolves to an array, or a function, that the pass deletes.
  ghost predicate FindsDuplicateArray(t: Table, id: nat) {
    id != 0 && Find(t, id).Some? && IsDuplicateArray(t, Find(t, id).value)
  }

  ghost predicate FindsDuplicateFunction(t: Table, id: nat) {
    id != 0 && Find(t, id).Some? && IsDuplicateFunction(t, Find(t, id).value)
  }

  // The types of a function.
  ghost predicate HasType(f: Sym, id: nat) {
    id == f.rettype || exists i :: 0 <= i < |f.params| && f.params[i].1 == id
  }

  // An id that was alive is so after a pass unless what it resolves to is among the newly deleted.
  lemma AliveAfter(t: Table, t1: Table, dead: seq<Handle>, gone: seq<Handle>, id: nat, id1: nat)
    requires Find(t1, id1) == Find(t, id) && IsAlive(t, dead, id)
    ensures IsAlive(t1, dead + gone, id1) <==> (Find(t, id).Some? ==> Find(t, id).value !in gone)
  {}

  // ---- after cleanArrays ----

  // The new vector is part of the old one and free of deleted arrays.
  lemma KeptArray(t: Table, h: Handle)
    requires IdsSettled(t)
    ensures Within(t.names.arrays, |t.objects|)
    ensures h in CleanArrays(t).table.names.arrays ==> h in t.names.arrays && !IsDuplicateArray(t, h)
  {
    if t.names.arrays == [] {
      assert Sort(ArrayObjects(t), t.names.arrays, ArrayLess) == [];
      EmptyArrays(t);
    } else {
      ArraysSettleMaps(t);
      if h in CleanArrays(t).table.names.arrays {
        ArrayCleanup.KeptExactly(t, h);
        MinimalIsNoDuplicate(t, h);
      }
    }
  }

  // No array of the new vector has an element type that is deleted.
  ghost predicate KeptArraysFindNone(t: Table)
    requires Within(t.names.arrays, |t.objects|)
  {
    forall h: nat | h < |t.objects| && h in CleanArrays(t).table.names.arrays ::
      !FindsDuplicateArray(t, t.objects[h].typ)
  }

  lemma KeptArrayAlive(t: Table, dead: seq<Handle>, h: Handle)
    requires IdsSettled(t) && ArraysCleanable(t, dead) && Within(t.names.arrays, |t.objects|)
    requires h in CleanArrays(t).table.names.arrays && h < |t.objects|
    ensures var c := CleanArrays(t);
            && h < |c.table.objects| && h !in dead + c.deleted
            && ((c.table.objects[h].typ != 0 ==> IsAlive(c.table, dead + c.deleted, c.table.objects[h].typ))
                <==> !FindsDuplicateArray(t, t.objects[h].typ))
  {
    var c, id := CleanArrays(t), t.objects[h].typ;
    KeptArray(t, h);
    DeletedArrays(t, h);
    ArrayCleanup.PassObjects(t);
    CanonicalAlike(t, id);
    if id != 0 {
      TypeAfterCleanArrays(t, h);
      AliveAfter(t, c.table, dead, c.deleted, id, c.table.objects[h].typ);
      if Find(t, id).Some? { DeletedArrays(t, Find(t, id).value); }
    }
  }

  // After cleanArrays it may run again exactly if no array of the new vector has a deleted element type.
  lemma ArraysAfterCleanArraysIff(t: Table, dead: seq<Handle>)
    requires IdsSettled(t) && ArraysCleanable(t, dead)
    ensures Within(t.names.arrays, |t.objects|) && ThirdSearchDead(CleanArrays(t).table)
    ensures ArraysCleanable(CleanArrays(t).table, dead + CleanArrays(t).deleted) <==> KeptArraysFindNone(t)
  {
    hide MapsSettled, ThirdSearchDead, FindsDuplicateArray, IsAlive;
    var c := CleanArrays(t);
    CleanArraysKeepsIds(t);
    SettledFind(c.table, 0);
    forall h: nat | h < |t.objects| && h in c.table.names.arrays
      ensures h < |c.table.objects| && h !in dead + c.deleted
      ensures (c.table.objects[h].typ != 0 ==> IsAlive(c.table, dead + c.deleted, c.table.objects[h].typ))
              <==> !FindsDuplicateArray(t, t.objects[h].typ)
    {
      KeptArrayAlive(t, dead, h);
    }
  }

  ghost predicate TypesAlive(t: Table, dead: seq<Handle>, f: Sym) {
    (f.rettype != 0 ==> IsAlive(t, dead, f.rettype)) && ParamsAlive(t, dead, f.params)
  }

  // The types of a function one by one.
  lemma FunctionTypesAre(t: Table, t1: Table, dead: seq<Handle>, f: Sym)
    requires ParamsResolve(t, f.params)
    ensures TypesAlive(t1, dead, f) <==> forall id: nat | HasType(f, id) && id != 0 :: IsAlive(t1, dead, id)
  {
    forall i | 0 <= i < |f.params| ensures HasType(f, f.params[i].1) && f.params[i].1 != 0 {}
    assert HasType(f, f.rettype);
  }

  // What cleanFunctions needs, function by function.
  lemma CleanableOneByOne(t: Table, dead: seq<Handle>)
    requires FunctionsResolve(t)
    ensures FunctionsCleanable(t, dead) <==>
            forall h: nat | h < |t.objects| && h in t.names.funcList :: h !in dead && TypesAlive(t, dead, t.objects[h])
  {}

  // The function has no type that cleanArrays deletes.
  ghost predicate FindsNoArray(t: Table, f: Sym) {
    forall id: nat | HasType(f, id) :: !FindsDuplicateArray(t, id)
  }

  // No listed function has one.
  ghost predicate FunctionsFindNoArray(t: Table) {
    forall h: nat | h < |t.objects| && h in t.names.funcList :: FindsNoArray(t, t.objects[h])
  }

  lemma FunctionAfterCleanArrays(t: Table, dead: seq<Handle>, h: Handle)
    requires IdsSettled(t) && FunctionsCleanable(t, dead) && Within(t.names.arrays, |t.objects|)
    requires h < |t.objects| && h in t.names.funcList
    ensures var c := CleanArrays(t);
            && h < |c.table.objects| && h !in dead + c.deleted
            && (TypesAlive(c.table, dead + c.deleted, c.table.objects[h]) <==> FindsNoArray(t, t.objects[h]))
  {
    var c, f := CleanArrays(t), t.objects[h];
    ArraysAreNotFunctions(t);
    ArrayCleanup.PassObjects(t);
    DeletedArrays(t, h);
    forall id: nat | HasType(f, id) && id != 0
      ensures IsAlive(c.table, dead + c.deleted, id) <==> !FindsDuplicateArray(t, id)
    {
      ArrayCleanup.CleanArraysKeepsFind(t, id);
      AliveAfter(t, c.table, dead, c.deleted, id, id);
      if Find(t, id).Some? { DeletedArrays(t, Find(t, id).value); }
    }
    FunctionTypesAre(t, c.table, dead + c.deleted, f);
  }

  // After cleanArrays cleanFunctions may run exactly if no function has a type that is deleted.
  lemma FunctionsAfterCleanArraysIff(t: Table, dead: seq<Handle>)
    requires IdsSettled(t) && FunctionsCleanable(t, dead)
    ensures Within(t.names.arrays, |t.objects|) && ThirdSearchDead(CleanArrays(t).table)
    ensures FunctionsCleanable(CleanArrays(t).table, dead + CleanArrays(t).deleted) <==> FunctionsFindNoArray(t)
  {
    hide FunctionsCleanable, TypesAlive, FindsNoArray, ThirdSearchDead, MapsSettled;
    var c := CleanArrays(t);
    CleanArraysKeepsIds(t);
    SettledFind(c.table, 0);
    ArrayCleanup.PassObjects(t);
    CleanableOneByOne(c.table, dead + c.deleted);
    forall h: nat | h < |t.objects| && h in t.names.funcList
      ensures h < |c.table.objects| && h !in dead + c.deleted
      ensures TypesAlive(c.table, dead + c.deleted, c.table.objects[h]) <==> FindsNoArray(t, t.objects[h])
    {
      FunctionAfterCleanArrays(t, dead, h);
    }
  }

  // ---- after cleanFunctions ----

  // The new list is part of the old one and free of deleted functions.
  lemma KeptFunction(t: Table, h: Handle)
    requires IdsSettled(t)
    ensures Within(t.names.funcList, |t.objects|)
    ensures h in CleanFunctions(t).table.names.funcList ==> h in t.names.funcList && !IsDuplicateFunction(t, h)
  {
    if t.names.funcList == [] {
      assert Sort(FunctionObjects(t), t.names.funcList, FunctionLess) == [];
      EmptyFunctions(t);
    } else {
      FunctionsSettleMaps(t);
      DeletedFunctions(t, h);
      var c := CleanFunctions(t);
      if h in c.table.names.funcList { KeptIsNotDeleted(t, h); }
    }
  }

  lemma KeptIsNotDeleted(t: Table, h: Handle)
    requires IdsSettled(t) && t.names.funcList != [] && Within(t.names.funcList, |t.objects|)
    requires h in CleanFunctions(t).table.names.funcList
    ensures h !in CleanFunctions(t).deleted
  {
    var c := CleanFunctions(t);
    FunctionsPassed(t);
    var objects, s := c.table.objects, c.sorted;
    var k: nat :| k < |c.table.names.funcList| && c.table.names.funcList[k] == h;
    var i := KeptHead(objects, t.aliases, s, FunctionEqual, k);
    SweepDeletes(objects, t.aliases, s, |s|, FunctionEqual, i);
  }

  // No listed array has an element type that cleanFunctions deletes.
  ghost predicate ArraysFindNoFunction(t: Table) {
    forall h: nat | h < |t.objects| && h in t.names.arrays :: !FindsDuplicateFunction(t, t.objects[h].typ)
  }

  lemma ArrayAfterCleanFunctions(t: Table, dead: seq<Handle>, h: Handle)
    requires IdsSettled(t) && ArraysCleanable(t, dead) && Within(t.names.funcList, |t.objects|)
    requires h < |t.objects| && h in t.names.arrays
    ensures var c := CleanFunctions(t);
            && h < |c.table.objects| && h !in dead + c.deleted && c.table.objects[h] == t.objects[h]
            && (t.objects[h].typ != 0 ==>
                  (IsAlive(c.table, dead + c.deleted, t.objects[h].typ)
                   <==> !FindsDuplicateFunction(t, t.objects[h].typ)))
  {
    var c, id := CleanFunctions(t), t.objects[h].typ;
    ArraysAreNotFunctions(t);
    FunctionCleanup.PassObjects(t);
    DeletedFunctions(t, h);
    if id != 0 {
      CleanFunctionsFinds(t, id);
      AliveAfter(t, c.table, dead, c.deleted, id, id);
      if Find(t, id).Some? { DeletedFunctions(t, Find(t, id).value); }
    }
  }

  // After cleanFunctions cleanArrays may run exactly if no array has an element type that is deleted.
  lemma ArraysAfterCleanFunctionsIff(t: Table, dead: seq<Handle>)
    requires IdsSettled(t) && ArraysCleanable(t, dead)
    ensures Within(t.names.funcList, |t.objects|) && ThirdSearchDead(CleanFunctions(t).table)
    ensures ArraysCleanable(CleanFunctions(t).table, dead + CleanFunctions(t).deleted) <==> ArraysFindNoFunction(t)
  {
    hide ThirdSearchDead, MapsSettled, IsDuplicateFunction, Find;
    var c := CleanFunctions(t);
    CleanFunctionsKeepsIds(t);
    SettledFind(c.table, 0);
    FunctionCleanup.PassObjects(t);
    forall h: nat | h < |t.objects| && h in t.names.arrays
      ensures h < |c.table.objects| && h !in dead + c.deleted && c.table.objects[h] == t.objects[h]
      ensures t.objects[h].typ != 0 ==>
                (IsAlive(c.table, dead + c.deleted, t.objects[h].typ) <==> !FindsDuplicateFunction(t, t.objects[h].typ))
    {
      ArrayAfterCleanFunctions(t, dead, h);
    }
  }

  // The function has no type that cleanFunctions deletes.
  ghost predicate FindsNoFunction(t: Table, f: Sym) {
    forall id: nat | HasType(f, id) :: !FindsDuplicateFunction(t, id)
  }

  // No function of the new list has one.
  ghost predicate KeptFunctionsFindNone(t: Table)
    requires Within(t.names.funcList, |t.objects|)
  {
    forall h: nat | h < |t.objects| && h in CleanFunctions(t).table.names.funcList :: FindsNoFunction(t, t.objects[h])
  }

  // The types of a function after the pass are those before, in canonical form.
  lemma CanonicalTypes(t: Table, f: Sym, id: nat)
    requires HasType(f, id)
    ensures HasType(UpdatedFunctionTypes(t, f), Canonical(t, id))
  {
    if id != f.rettype {
      var i :| 0 <= i < |f.params| && f.params[i].1 == id;
      assert UpdatedFunctionTypes(t, f).params[i].1 == Canonical(t, id);
    }
  }

  lemma CanonicalFrom(t: Table, f: Sym, id1: nat) returns (id: nat)
    requires HasType(UpdatedFunctionTypes(t, f), id1)
    ensures HasType(f, id) && id1 == Canonical(t, id)
  {
    var g := UpdatedFunctionTypes(t, f);
    if id1 == g.rettype {
      id := f.rettype;
    } else {
      var i :| 0 <= i < |g.params| && g.params[i].1 == id1;
      id := f.params[i].1;
    }
  }

  lemma TypeAfterCleanFunctions(t: Table, dead: seq<Handle>, id: nat)
    requires IdsSettled(t) && Within(t.names.funcList, |t.objects|) && id != 0 && IsAlive(t, dead, id)
    ensures Canonical(t, id) != 0
    ensures IsAlive(CleanFunctions(t).table, dead + CleanFunctions(t).deleted, Canonical(t, id))
            <==> !FindsDuplicateFunction(t, id)
  {
    var c := CleanFunctions(t);
    CanonicalAlike(t, id);
    CleanFunctionsFinds(t, Canonical(t, id));
    AliveAfter(t, c.table, dead, c.deleted, id, Canonical(t, id));
    if Find(t, id).Some? { DeletedFunctions(t, Find(t, id).value); }
  }

  lemma KeptFunctionAlive(t: Table, dead: seq<Handle>, f: Sym)
    requires IdsSettled(t) && Within(t.names.funcList, |t.objects|) && ParamsResolve(t, f.params)
             && TypesAlive(t, dead, f)
    ensures var c := CleanFunctions(t);
            TypesAlive(c.table, dead + c.deleted, UpdatedFunctionTypes(t, f)) <==> FindsNoFunction(t, f)
  {
    var c, g := CleanFunctions(t), UpdatedFunctionTypes(t, f);
    FunctionTypesAre(t, t, dead, f);
    CanonicalParams(t, f);
    FunctionTypesAre(c.table, c.table, dead + c.deleted, g);
    forall id: nat | HasType(f, id) && id != 0
      ensures IsAlive(c.table, dead + c.deleted, Canonical(t, id)) <==> !FindsDuplicateFunction(t, id)
    {
      TypeAfterCleanFunctions(t, dead, id);
    }
    CanonicalTypesAlive(t, c.table, dead + c.deleted, f);
  }

  lemma CanonicalResolves(t: Table, id: nat)
    requires IdsSettled(t) && Within(t.names.funcList, |t.objects|) && id != 0 && Find(t, id).Some?
    ensures Canonical(t, id) != 0 && Find(CleanFunctions(t).table, Canonical(t, id)).Some?
  {
    CanonicalAlike(t, id);
    CleanFunctionsFinds(t, Canonical(t, id));
  }

  // The parameter types resolve after the pass, too.
  lemma CanonicalParams(t: Table, f: Sym)
    requires IdsSettled(t) && Within(t.names.funcList, |t.objects|) && ParamsResolve(t, f.params)
    ensures ParamsResolve(CleanFunctions(t).table, UpdatedFunctionTypes(t, f).params)
  {
    hide IdsSettled, Canonical, Find, CleanFunctions;
    forall i | 0 <= i < |f.params|
      ensures Canonical(t, f.params[i].1) != 0 && Find(CleanFunctions(t).table, Canonical(t, f.params[i].1)).Some?
    {
      CanonicalResolves(t, f.params[i].1);
    }
  }

  lemma CanonicalTypesAlive(t: Table, t1: Table, dead: seq<Handle>, f: Sym)
    requires MapsSettled(t)
    ensures (forall id: nat | HasType(UpdatedFunctionTypes(t, f), id) && id != 0 :: IsAlive(t1, dead, id))
            <==> forall id: nat | HasType(f, id) && id != 0 :: IsAlive(t1, dead, Canonical(t, id))
  {
    var g := UpdatedFunctionTypes(t, f);
    if forall id: nat | HasType(g, id) && id != 0 :: IsAlive(t1, dead, id) {
      forall id: nat | HasType(f, id) && id != 0 ensures IsAlive(t1, dead, Canonical(t, id)) {
        CanonicalTypes(t, f, id);
        CanonicalAlike(t, id);
      }
    }
    if forall id: nat | HasType(f, id) && id != 0 :: IsAlive(t1, dead, Canonical(t, id)) {
      forall id: nat | HasType(g, id) && id != 0 ensures IsAlive(t1, dead, id) {
        var id0 := CanonicalFrom(t, f, id);
        CanonicalAlike(t, id0);
      }
    }
  }

  lemma FunctionAfterCleanFunctions(t: Table, dead: seq<Handle>, h: Handle)
    requires IdsSettled(t) && FunctionsCleanable(t, dead) && Within(t.names.funcList, |t.objects|)
    requires h < |t.objects| && h in CleanFunctions(t).table.names.funcList
    ensures var c := CleanFunctions(t);
            && h < |c.table.objects| && h !in dead + c.deleted
            && (TypesAlive(c.table, dead + c.deleted, c.table.objects[h]) <==> FindsNoFunction(t, t.objects[h]))
  {
    KeptFunction(t, h);
    DeletedFunctions(t, h);
    FunctionCleanup.PassObjects(t);
    KeptFunctionAlive(t, dead, t.objects[h]);
  }

  // After cleanFunctions it may run again exactly if no function of the new list has a type that is deleted.
  lemma FunctionsAfterCleanFunctionsIff(t: Table, dead: seq<Handle>)
    requires IdsSettled(t) && FunctionsCleanable(t, dead)
    ensures Within(t.names.funcList, |t.objects|) && ThirdSearchDead(CleanFunctions(t).table)
    ensures FunctionsCleanable(CleanFunctions(t).table, dead + CleanFunctions(t).deleted) <==> KeptFunctionsFindNone(t)
  {
    hide FunctionsCleanable, TypesAlive, FindsNoFunction, ThirdSearchDead, MapsSettled, CleanFunctions;
    var c := CleanFunctions(t);
    CleanFunctionsKeepsIds(t);
    SettledFind(c.table, 0);
    CleanableOneByOne(c.table, dead + c.deleted);
    forall h: nat | h < |t.objects| && h in c.table.names.funcList
      ensures h < |c.table.objects| && h !in dead + c.deleted
      ensures TypesAlive(c.table, dead + c.deleted, c.table.objects[h]) <==> FindsNoFunction(t, t.objects[h])
    {
      FunctionAfterCleanFunctions(t, dead, h);
    }
  }

  // ---- cleanArrays twice ----

  // The first sorted array is lost.
  function Rest(list: seq<Handle>): seq<Handle> {
    if list == [] then [] else list[1..]
  }

  // A sweep over different arrays keeps all but the first and merges none.
  lemma {:induction false} SweepOfDifferent(objects: seq<Sym>, al: Aliasing, s: seq<Handle>, n: nat)
    requires 1 <= n <= |s| && Within(s, |objects|)
    requires forall i, j | 0 <= i < j < |s| :: !ArrayEqual(objects[s[i]], objects[s[j]])
    ensures Sweep(objects, al, s, n, ArrayEqual) == Swept(al, s[n - 1], s[1..n], [])
  {
    if n > 1 {
      SweepOfDifferent(objects, al, s, n - 1);
      assert !ArrayEqual(objects[s[n - 2]], objects[s[n - 1]]);
      assert s[1..n] == s[1..n - 1] + [s[n - 1]];
    }
  }

  // The types of the new vector are canonical.
  lemma KeptTypesCanonical(t: Table, h: Handle)
    requires IdsSettled(t) && h < |t.objects| && Within(t.names.arrays, |t.objects|)
    requires h in CleanArrays(t).table.names.arrays
    ensures h < |CleanArrays(t).table.objects|
    ensures UpdatedArrayTypes(CleanArrays(t).table, CleanArrays(t).table.objects[h]) == CleanArrays(t).table.objects[h]
  {
    KeptArray(t, h);
    ArrayCleanup.PassObjects(t);
    if t.objects[h].typ != 0 { ArrayCleanup.CleanArraysKeepsTypes(t, h); }
  }

  // No two arrays of the vector are equal, and they are sorted with their types canonical.
  ghost predicate IsStrict(t: Table) {
    && Within(t.names.arrays, |t.objects|) && ArrayObjects(t) == t.objects
    && Ascending(t.objects, t.names.arrays, ArrayLess)
    && forall i, j | 0 <= i < j < |t.names.arrays| ::
         !ArrayEqual(t.objects[t.names.arrays[i]], t.objects[t.names.arrays[j]])
  }

  lemma KeptIsStrict(t: Table)
    requires IdsSettled(t) && t.names.arrays != []
    ensures Within(t.names.arrays, |t.objects|) && IsStrict(CleanArrays(t).table)
  {
    hide CleanArrays, IdsSettled, UpdatedArrayTypes;
    SettledLists(t);
    var t1 := CleanArrays(t).table;
    var kept := t1.names.arrays;
    forall h: nat | h < |t1.objects| && h in kept ensures UpdatedArrayTypes(t1, t1.objects[h]) == t1.objects[h] {
      KeptTypesCanonical(t, h);
    }
    forall k: nat, l: nat | k < l < |kept|
      ensures ArrayLess(t1.objects[kept[k]], t1.objects[kept[l]])
      ensures !ArrayEqual(t1.objects[kept[k]], t1.objects[kept[l]])
    {
      ArrayCleanup.KeptAscends(t, k, l);
    }
  }

  lemma SettledLists(t: Table)
    requires IdsSettled(t)
    ensures Listed(t, t.names.arrays) && Within(t.names.arrays, |t.objects|)
  {}

  // The sort changes nothing on such a vector.
  lemma StrictIsSorted(t: Table)
    requires IsStrict(t) && Listed(t, t.names.arrays)
    ensures SortedArrays(t) == t.names.arrays
  {
    var list := t.names.arrays;
    ArrayCleanup.ArrayLessIsStrictTotal();
    SortAscends(t.objects, list, ArrayLess);
    AscendingIsUnique(t.objects, SortedArrays(t), list, ArrayLess);
  }

  lemma StrictPass(t: Table)
    requires IsStrict(t) && Listed(t, t.names.arrays)
    ensures CleanArrays(t).deleted == []
    ensures CleanArrays(t).table == t.(names := t.names.(arrays := Rest(t.names.arrays)))
  {
    hide Sort, Sweep, Ascending;
    StrictIsSorted(t);
    var s := t.names.arrays;
    if s != [] {
      SweepOfDifferent(t.objects, t.aliases, s, |s|);
      assert s[1..|s|] == s[1..];
    }
  }

  // A second cleanArrays in a row deletes nothing and changes nothing but the vector, from which the array
  // that now sorts first is lost, too.
  lemma SecondCleanArrays(t: Table)
    requires IdsSettled(t)
    ensures Within(t.names.arrays, |t.objects|)
    ensures var t1 := CleanArrays(t).table;
            && Within(t1.names.arrays, |t1.objects|) && CleanArrays(t1).deleted == []
            && CleanArrays(t1).table == t1.(names := t1.names.(arrays := Rest(t1.names.arrays)))
  {
    hide IdsSettled, IsStrict, CleanArrays;
    SettledLists(t);
    CleanArraysKeepsIds(t);
    SettledLists(CleanArrays(t).table);
    if t.names.arrays == [] { NothingIsStrict(t); } else { KeptIsStrict(t); }
    StrictPass(CleanArrays(t).table);
  }

  lemma NothingIsStrict(t: Table)
    requires t.names.arrays == []
    ensures IsStrict(CleanArrays(t).table)
  {
    assert Sort(ArrayObjects(t), t.names.arrays, ArrayLess) == [];
    EmptyArrays(t);
    assert ArrayObjects(t) == t.objects;
  }

  // The index by type then holds the arrays of the second vector twice.
  lemma IndexedTwice(t: Table)
    requires Within(t.names.arrays, |t.objects|)
    ensures var t1 := CleanArrays(t).table;
            var kept, again := t1.names.arrays, Rest(t1.names.arrays);
            && Within(kept, |t1.objects|) && Within(again, |t1.objects|)
            && multiset(IndexArrays(IndexArrays([], t1.objects, kept, |kept|), t1.objects, again, |again|))
               == multiset(Entries(t1.objects, kept)) + multiset(Entries(t1.objects, again))
  {
    var t1 := CleanArrays(t).table;
    IndexAddsTwo(t1.objects, t1.names.arrays, Rest(t1.names.arrays));
  }
}
