/**
 Deleted objects: a clean-up leaves them registered, so that whatever refers to one afterwards reads freed
 memory.  A state in which nothing that stays refers to a deleted object, and exactly when a clean-up leaves
 one.
 */
module Liveness {
  import opened Basics
  import opened Dwarf
  import opened SymbolTable
  import opened Runs
  import opened Caches
  import opened CleanupSpec
  import opened Sweeping
  import opened Settled
  import opened Duplicates

  // The object has the type id.
  predicate RefersTo(x: Sym, id: nat) {
    id != 0 && (id == x.typ || id == x.rettype || exists i :: 0 <= i < |x.params| && x.params[i].1 == id)
  }

  // The object refers to no deleted one.
  ghost predicate RefersAlive(t: Table, dead: seq<Handle>, x: Sym) {
    forall id: nat | RefersTo(x, id) :: IsAlive(t, dead, id)
  }

  // No object that is not deleted refers to a deleted one.
  ghost predicate NoneRefersDead(t: Table, dead: seq<Handle>) {
    forall h: nat | h < |t.objects| && h !in dead :: RefersAlive(t, dead, t.objects[h])
  }

  // The ids of the deleted objects are aliases.
  ghost predicate DeadAliased(t: Table, dead: seq<Handle>) {
    forall h <- dead :: h < |t.objects| && t.objects[h].id in t.aliases.target
  }

  // A table on which the clean-ups may run and types may be followed, the objects `dead` being deleted.
  ghost predicate IsSettled(t: Table, dead: seq<Handle>) {
    IdsSettled(t) && DeadAliased(t, dead) && NoneRefersDead(t, dead)
  }

  // What the clean-ups ask for.
  lemma SettledIsCleanable(t: Table, dead: seq<Handle>)
    requires IsSettled(t, dead)
    ensures ArraysCleanable(t, dead) && FunctionsCleanable(t, dead) && ThirdSearchDead(t)
  {
    SettledFind(t, 0);
    forall h: nat | h < |t.objects| && h in t.names.arrays
      ensures h !in dead && (t.objects[h].typ != 0 ==> IsAlive(t, dead, t.objects[h].typ))
    {
      ListedIsAlive(t, dead, t.names.arrays, Array, h);
      if t.objects[h].typ != 0 { assert RefersTo(t.objects[h], t.objects[h].typ); }
    }
    forall h: nat | h < |t.objects| && h in t.names.funcList
      ensures h !in dead && (t.objects[h].rettype != 0 ==> IsAlive(t, dead, t.objects[h].rettype))
      ensures ParamsAlive(t, dead, t.objects[h].params)
    {
      ListedIsAlive(t, dead, t.names.funcList, Func, h);
      FunctionTypesAlive(t, dead, t.objects[h]);
    }
  }

  lemma ListedIsAlive(t: Table, dead: seq<Handle>, list: seq<Handle>, kind: Kind, h: Handle)
    requires ListSettled(t, list, kind) && DeadAliased(t, dead) && NoneRefersDead(t, dead) && h in list
    ensures h < |t.objects| && h !in dead && RefersAlive(t, dead, t.objects[h])
  {
    var i: nat :| i < |list| && list[i] == h;
    assert IsFree(t, list[i], kind);
  }

  lemma FunctionTypesAlive(t: Table, dead: seq<Handle>, f: Sym)
    requires RefersAlive(t, dead, f) && ParamsResolve(t, f.params)
    ensures (f.rettype != 0 ==> IsAlive(t, dead, f.rettype)) && ParamsAlive(t, dead, f.params)
  {
    if f.rettype != 0 { assert RefersTo(f, f.rettype); }
    forall i | 0 <= i < |f.params| ensures IsAlive(t, dead, f.params[i].1) {
      assert RefersTo(f, f.params[i].1);
    }
  }

  // After a run nothing has been deleted.
  lemma RunSettles(ops: seq<Op>, s: State)
    requires RunsTo(ops, s) && TypesPresent(s.table)
    ensures IsSettled(s.table, [])
  {
    RunSettlesIds(ops, s);
  }

  // ---- what a pass does to references ----

  // The object has a type id that resolves as `id` does.
  ghost predicate HasTwin(t: Table, x: Sym, id: nat) {
    exists id1: nat :: RefersTo(x, id1) && Find(t, id1) == Find(t, id)
  }

  // Objects refer to the same objects before and after.
  ghost predicate RefersAlike(t: Table, x: Sym, y: Sym) {
    (forall id: nat | RefersTo(x, id) :: HasTwin(t, y, id)) && (forall id: nat | RefersTo(y, id) :: HasTwin(t, x, id))
  }

  lemma TwinAlive(t: Table, t1: Table, dead: seq<Handle>, x: Sym, id: nat)
    requires RefersAlive(t, dead, x) && HasTwin(t, x, id) && Find(t1, id) == Find(t, id)
    ensures IsAlive(t1, dead, id)
  {
    var id1: nat :| RefersTo(x, id1) && Find(t, id1) == Find(t, id);
    assert IsAlive(t, dead, id1);
  }

  lemma AlikeAlive(t: Table, t1: Table, dead: seq<Handle>, x: Sym, y: Sym)
    requires RefersAlike(t, x, y) && forall id :: Find(t1, id) == Find(t, id)
    ensures RefersAlive(t, dead, x) <==> RefersAlive(t1, dead, y)
  {
    if RefersAlive(t, dead, x) {
      forall id: nat | RefersTo(y, id) ensures IsAlive(t1, dead, id) { TwinAlive(t, t1, dead, x, id); }
    }
    if RefersAlive(t1, dead, y) {
      assert RefersAlive(t, dead, y) by {
        forall id: nat | RefersTo(y, id) ensures IsAlive(t, dead, id) { assert IsAlive(t1, dead, id); }
      }
      forall id: nat | RefersTo(x, id) ensures IsAlive(t, dead, id) { TwinAlive(t, t, dead, y, id); }
    }
  }

  lemma CanonicalAlike(t: Table, id: nat)
    requires MapsSettled(t)
    ensures id != 0 ==> Canonical(t, id) != 0 && Find(t, Canonical(t, id)) == Find(t, id)
    ensures id == 0 ==> Canonical(t, id) == 0
  {
    if id != 0 && Find(t, id).Some? { CanonicalResolvesSame(t, id); }
  }

  lemma ArrayAlike(t: Table, x: Sym)
    requires MapsSettled(t)
    ensures RefersAlike(t, x, UpdatedArrayTypes(t, x))
  {
    var y := UpdatedArrayTypes(t, x);
    CanonicalAlike(t, x.typ);
    forall id: nat | RefersTo(x, id) ensures HasTwin(t, y, id) {
      if id == x.typ { assert RefersTo(y, y.typ); } else { assert RefersTo(y, id); }
    }
    forall id: nat | RefersTo(y, id) ensures HasTwin(t, x, id) {
      if id == y.typ { assert RefersTo(x, x.typ); } else { assert RefersTo(x, id); }
    }
  }

  lemma FunctionAlike(t: Table, x: Sym)
    requires MapsSettled(t)
    ensures RefersAlike(t, x, UpdatedFunctionTypes(t, x))
  {
    var y := UpdatedFunctionTypes(t, x);
    CanonicalAlike(t, x.rettype);
    forall i | 0 <= i < |x.params| ensures y.params[i].1 == Canonical(t, x.params[i].1) {}
    forall id: nat | RefersTo(x, id) ensures HasTwin(t, y, id) {
      FunctionRefForth(t, x, id);
    }
    forall id: nat | RefersTo(y, id) ensures HasTwin(t, x, id) {
      FunctionRefBack(t, x, id);
    }
  }

  lemma FunctionRefForth(t: Table, x: Sym, id: nat)
    requires MapsSettled(t) && RefersTo(x, id)
    ensures RefersTo(UpdatedFunctionTypes(t, x), Canonical(t, id)) || id == x.typ
    ensures HasTwin(t, UpdatedFunctionTypes(t, x), id)
  {
    var y := UpdatedFunctionTypes(t, x);
    CanonicalAlike(t, id);
    if id == x.typ {
      assert RefersTo(y, id);
    } else if id != x.rettype {
      var i :| 0 <= i < |x.params| && x.params[i].1 == id;
      assert y.params[i].1 == Canonical(t, id);
    }
  }

  lemma FunctionRefBack(t: Table, x: Sym, id: nat)
    requires MapsSettled(t) && RefersTo(UpdatedFunctionTypes(t, x), id)
    ensures HasTwin(t, x, id)
  {
    var y := UpdatedFunctionTypes(t, x);
    if id == x.typ {
      assert RefersTo(x, id);
    } else if id == y.rettype {
      CanonicalAlike(t, x.rettype);
      assert RefersTo(x, x.rettype);
    } else {
      var i :| 0 <= i < |y.params| && y.params[i].1 == id;
      CanonicalAlike(t, x.params[i].1);
      assert RefersTo(x, x.params[i].1);
    }
  }

  lemma SelfAlike(t: Table, x: Sym)
    ensures RefersAlike(t, x, x)
  {}

  // No object outlives the pass and refers to one that does not.
  ghost predicate Unreferenced(t: Table, dead: seq<Handle>, gone: seq<Handle>) {
    forall h: nat | h < |t.objects| && h !in dead && h !in gone :: RefersAlive(t, gone, t.objects[h])
  }

  // References after a pass meet no deleted object exactly when those before it met none that it deletes.
  lemma PassRefs(t: Table, t1: Table, dead: seq<Handle>, gone: seq<Handle>)
    requires NoneRefersDead(t, dead) && |t1.objects| == |t.objects| && forall id :: Find(t1, id) == Find(t, id)
    requires forall h: nat | h < |t.objects| :: RefersAlike(t, t.objects[h], t1.objects[h])
    ensures NoneRefersDead(t1, dead + gone) <==> Unreferenced(t, dead, gone)
  {
    forall h: nat | h < |t.objects|
      ensures RefersAlive(t, dead + gone, t.objects[h]) <==> RefersAlive(t1, dead + gone, t1.objects[h]) {
      AlikeAlive(t, t1, dead + gone, t.objects[h], t1.objects[h]);
    }
    forall h: nat | h < |t.objects| && h !in dead
      ensures RefersAlive(t, dead + gone, t.objects[h]) <==> RefersAlive(t, gone, t.objects[h])
    {
      BothAlive(t, dead, gone, t.objects[h]);
    }
  }

  lemma BothAlive(t: Table, dead: seq<Handle>, gone: seq<Handle>, x: Sym)
    requires RefersAlive(t, dead, x)
    ensures RefersAlive(t, dead + gone, x) <==> RefersAlive(t, gone, x)
  {
    forall id: nat | RefersTo(x, id) ensures IsAlive(t, dead + gone, id) <==> IsAlive(t, gone, id) {
      assert IsAlive(t, dead, id);
    }
  }

  // ---- cleanArrays ----

  // Aliases stay aliases through a sweep.
  lemma {:induction false} AliasesStay(objects: seq<Sym>, al: Aliasing, s: seq<Handle>, equal: (Sym, Sym) -> bool,
                                       n: nat)
    requires s != [] && Within(s, |objects|) && DistinctIds(objects, s) && n in al.target
    ensures n in Sweep(objects, al, s, |s|, equal).aliases.target
  {
    if IsMerged(objects, s, |s|, equal, n) {
      var i: nat :| i < |s| && !IsHead(objects, s, i, equal) && objects[s[i]].id == n;
      SweepAliases(objects, al, s, |s|, equal, i);
    } else {
      SweepAliasesOnly(objects, al, s, |s|, equal, n);
    }
  }

  lemma DeadArraysAliased(t: Table, dead: seq<Handle>)
    requires IdsSettled(t) && DeadAliased(t, dead) && t.names.arrays != []
    ensures Within(t.names.arrays, |t.objects|)
    ensures DeadAliased(CleanArrays(t).table, dead + CleanArrays(t).deleted)
  {
    ArraysPassed(t);
    var c := CleanArrays(t);
    forall h <- dead + c.deleted ensures h < |c.table.objects| && c.table.objects[h].id in c.table.aliases.target {
      if h in dead {
        AliasesStay(c.table.objects, t.aliases, c.sorted, ArrayEqual, t.objects[h].id);
      } else {
        DeletedArrays(t, h);
        var m := ArrayCleanup.DeletedIsAliased(t, h);
      }
    }
  }

  // No object that is neither deleted nor a duplicate array refers to a duplicate array.
  ghost predicate DuplicateArraysUnreferenced(t: Table, dead: seq<Handle>) {
    forall h: nat, id: nat | h < |t.objects| && h !in dead && !IsDuplicateArray(t, h) && RefersTo(t.objects[h], id) ::
      Find(t, id).Some? ==> !IsDuplicateArray(t, Find(t, id).value)
  }

  lemma UnreferencedArrays(t: Table, dead: seq<Handle>)
    requires Listed(t, t.names.arrays)
    ensures Within(t.names.arrays, |t.objects|)
    ensures Unreferenced(t, dead, CleanArrays(t).deleted) <==> DuplicateArraysUnreferenced(t, dead)
  {
    forall h: Handle ensures h in CleanArrays(t).deleted <==> IsDuplicateArray(t, h) { DeletedArrays(t, h); }
    var gone := CleanArrays(t).deleted;
    if DuplicateArraysUnreferenced(t, dead) {
      forall h: nat | h < |t.objects| && h !in dead && h !in gone ensures RefersAlive(t, gone, t.objects[h]) {}
    }
    if Unreferenced(t, dead, gone) {
      forall h: nat, id: nat | h < |t.objects| && h !in dead && !IsDuplicateArray(t, h) && RefersTo(t.objects[h], id)
        ensures Find(t, id).Some? ==> !IsDuplicateArray(t, Find(t, id).value)
      {
        assert RefersAlive(t, gone, t.objects[h]) && IsAlive(t, gone, id);
      }
    }
  }

  lemma ArraysReferAlike(t: Table)
    requires IdsSettled(t)
    ensures Within(t.names.arrays, |t.objects|) && |CleanArrays(t).table.objects| == |t.objects|
    ensures forall id :: Find(CleanArrays(t).table, id) == Find(t, id)
    ensures forall h: nat | h < |t.objects| :: RefersAlike(t, t.objects[h], CleanArrays(t).table.objects[h])
  {
    forall id ensures Find(CleanArrays(t).table, id) == Find(t, id) { ArrayCleanup.CleanArraysKeepsFind(t, id); }
    ArrayCleanup.PassObjects(t);
    forall h: nat | h < |t.objects| ensures RefersAlike(t, t.objects[h], CleanArrays(t).table.objects[h]) {
      if h in t.names.arrays { ArrayAlike(t, t.objects[h]); } else { SelfAlike(t, t.objects[h]); }
    }
  }

  /**
   After cleanArrays no object that stays refers to a deleted one, and all that the clean-ups need besides
   still holds, exactly when none of them referred to a duplicate array before.  `Passes` says when a
   clean-up may follow, which does not depend on variables and other objects that no clean-up reads.
   */
  lemma CleanArraysSettlesIff(t: Table, dead: seq<Handle>)
    requires IsSettled(t, dead)
    ensures Within(t.names.arrays, |t.objects|)
    ensures IsSettled(CleanArrays(t).table, dead + CleanArrays(t).deleted) <==> DuplicateArraysUnreferenced(t, dead)
  {
    CleanArraysKeepsIds(t);
    ArraysReferAlike(t);
    PassRefs(t, CleanArrays(t).table, dead, CleanArrays(t).deleted);
    UnreferencedArrays(t, dead);
    if t.names.arrays == [] {
      assert Sort(ArrayObjects(t), t.names.arrays, ArrayLess) == [];
      EmptyArrays(t);
      assert dead + [] == dead;
    } else {
      DeadArraysAliased(t, dead);
    }
  }

  lemma TypeAfterCleanArrays(t: Table, h: Handle)
    requires IdsSettled(t) && h < |t.objects| && h in t.names.arrays && t.objects[h].typ != 0
    ensures Within(t.names.arrays, |t.objects|) && |CleanArrays(t).table.objects| == |t.objects|
    ensures Find(CleanArrays(t).table, CleanArrays(t).table.objects[h].typ) == Find(t, t.objects[h].typ)
  {
    ArraysReferAlike(t);
    ArrayCleanup.PassObjects(t);
    CanonicalAlike(t, t.objects[h].typ);
  }

  // The same of the first pass after a parse.
  lemma FirstCleanArraysSettlesIff(t: Table)
    requires IsSettled(t, [])
    ensures Within(t.names.arrays, |t.objects|)
    ensures IsSettled(CleanArrays(t).table, CleanArrays(t).deleted) <==> DuplicateArraysUnreferenced(t, [])
  {
    CleanArraysSettlesIff(t, []);
    NoneBefore(CleanArrays(t).deleted);
  }

  lemma NoneBefore(dead: seq<Handle>)
    ensures [] + dead == dead
  {}

  lemma NotUnreferenced(t: Table, h: Handle, id: nat)
    requires h < |t.objects| && !IsDuplicateArray(t, h) && RefersTo(t.objects[h], id)
    requires Find(t, id).Some? && IsDuplicateArray(t, Find(t, id).value)
    ensures !DuplicateArraysUnreferenced(t, [])
  {}

  lemma ReferredDuplicate(t: Table, h: Handle, id: nat)
    requires IsSettled(t, []) && h < |t.objects| && !IsDuplicateArray(t, h) && RefersTo(t.objects[h], id)
    requires Find(t, id).Some? && IsDuplicateArray(t, Find(t, id).value)
    ensures Within(t.names.arrays, |t.objects|) && !IsSettled(CleanArrays(t).table, CleanArrays(t).deleted)
  {
    FirstCleanArraysSettlesIff(t);
    NotUnreferenced(t, h, id);
  }

  // An array that is kept while that of its element type is deleted goes on referring to it.
  lemma KeptRefersToDeleted(t: Table, h: Handle, g: Handle)
    requires IsSettled(t, []) && IsDuplicateArray(t, g) && !IsDuplicateArray(t, h)
    requires h < |t.objects| && h in t.names.arrays && t.objects[h].typ != 0 && Find(t, t.objects[h].typ) == Some(g)
    ensures Within(t.names.arrays, |t.objects|) && |CleanArrays(t).table.objects| == |t.objects|
    ensures var c := CleanArrays(t);
            && g in c.deleted && h !in c.deleted && Find(c.table, c.table.objects[h].typ) == Some(g)
            && !IsSettled(c.table, c.deleted)
  {
    TypeAfterCleanArrays(t, h);
    ReferredDuplicate(t, h, t.objects[h].typ);
    DeletedArrays(t, g);
    DeletedArrays(t, h);
  }

  // A cached type of an object that is not deleted is not deleted either.
  lemma CachedAlive(t: Table, dead: seq<Handle>, h: Handle)
    requires IsSettled(t, dead) && h < |t.objects| && h !in dead && t.objects[h].base.Some?
    ensures t.objects[h].base.value !in dead
  {
    assert CoherentAt(t, h) && RefersTo(t.objects[h], t.objects[h].typ);
  }

  // ---- cleanFunctions ----

  lemma DeadFunctionsAliased(t: Table, dead: seq<Handle>)
    requires IdsSettled(t) && DeadAliased(t, dead) && t.names.funcList != []
    ensures Within(t.names.funcList, |t.objects|)
    ensures DeadAliased(CleanFunctions(t).table, dead + CleanFunctions(t).deleted)
  {
    FunctionsPassed(t);
    var c := CleanFunctions(t);
    forall h <- dead + c.deleted ensures h < |c.table.objects| && c.table.objects[h].id in c.table.aliases.target {
      if h in dead {
        AliasesStay(c.table.objects, t.aliases, c.sorted, FunctionEqual, t.objects[h].id);
      } else {
        DeletedFunctions(t, h);
        var m := FunctionCleanup.DeletedFunctionIsAliased(t, h);
      }
    }
  }

  // No object that is neither deleted nor a duplicate function refers to a duplicate function.
  ghost predicate DuplicateFunctionsUnreferenced(t: Table, dead: seq<Handle>) {
    forall h: nat, id: nat | h < |t.objects| && h !in dead && !IsDuplicateFunction(t, h)
      && RefersTo(t.objects[h], id) ::
      Find(t, id).Some? ==> !IsDuplicateFunction(t, Find(t, id).value)
  }

  lemma UnreferencedFunctions(t: Table, dead: seq<Handle>)
    requires Listed(t, t.names.funcList)
    ensures Within(t.names.funcList, |t.objects|)
    ensures Unreferenced(t, dead, CleanFunctions(t).deleted) <==> DuplicateFunctionsUnreferenced(t, dead)
  {
    forall h: Handle ensures h in CleanFunctions(t).deleted <==> IsDuplicateFunction(t, h) { DeletedFunctions(t, h); }
    var gone := CleanFunctions(t).deleted;
    if DuplicateFunctionsUnreferenced(t, dead) {
      forall h: nat | h < |t.objects| && h !in dead && h !in gone ensures RefersAlive(t, gone, t.objects[h]) {}
    }
    if Unreferenced(t, dead, gone) {
      forall h: nat, id: nat | h < |t.objects| && h !in dead && !IsDuplicateFunction(t, h) && RefersTo(t.objects[h], id)
        ensures Find(t, id).Some? ==> !IsDuplicateFunction(t, Find(t, id).value)
      {
        assert RefersAlive(t, gone, t.objects[h]) && IsAlive(t, gone, id);
      }
    }
  }

  lemma FunctionsReferAlike(t: Table)
    requires IdsSettled(t)
    ensures Within(t.names.funcList, |t.objects|) && |CleanFunctions(t).table.objects| == |t.objects|
    ensures forall id :: Find(CleanFunctions(t).table, id) == Find(t, id)
    ensures forall h: nat | h < |t.objects| :: RefersAlike(t, t.objects[h], CleanFunctions(t).table.objects[h])
  {
    forall id ensures Find(CleanFunctions(t).table, id) == Find(t, id) { CleanFunctionsFinds(t, id); }
    FunctionCleanup.PassObjects(t);
    forall h: nat | h < |t.objects| ensures RefersAlike(t, t.objects[h], CleanFunctions(t).table.objects[h]) {
      if h in t.names.funcList { FunctionAlike(t, t.objects[h]); } else { SelfAlike(t, t.objects[h]); }
    }
  }

  lemma CleanFunctionsFinds(t: Table, id: nat)
    requires IdsSettled(t)
    ensures Within(t.names.funcList, |t.objects|) && Find(CleanFunctions(t).table, id) == Find(t, id)
  {
    if t.names.funcList == [] {
      assert Sort(FunctionObjects(t), t.names.funcList, FunctionLess) == [];
      EmptyFunctions(t);
    } else {
      CleanFunctionsKeepsFind(t, id);
    }
  }

  // The same of cleanFunctions and the duplicate functions.
  lemma CleanFunctionsSettlesIff(t: Table, dead: seq<Handle>)
    requires IsSettled(t, dead)
    ensures Within(t.names.funcList, |t.objects|)
    ensures IsSettled(CleanFunctions(t).table, dead + CleanFunctions(t).deleted)
            <==> DuplicateFunctionsUnreferenced(t, dead)
  {
    CleanFunctionsKeepsIds(t);
    FunctionsReferAlike(t);
    PassRefs(t, CleanFunctions(t).table, dead, CleanFunctions(t).deleted);
    UnreferencedFunctions(t, dead);
    if t.names.funcList == [] {
      assert Sort(FunctionObjects(t), t.names.funcList, FunctionLess) == [];
      EmptyFunctions(t);
      assert dead + [] == dead;
    } else {
      DeadFunctionsAliased(t, dead);
    }
  }
}
