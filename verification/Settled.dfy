/**
 Between runs and clean-ups, as far as ids go: a table after any run satisfies what the clean-ups need, and
 each clean-up leaves it so.  The invariant of a run itself does not survive a clean-up: a deleted object
 stays registered under its id while the id becomes an alias.  What this means for deleted objects is the
 subject of Liveness.
 */
module Settled {
  import opened Dwarf
  import opened SymbolTable
  import opened Invariant
  import opened Runs
  import opened Caches
  import opened CleanupSpec
  import opened Sweeping
  import ArrayCleanup
  import FunctionCleanup

  // Every alias points directly at a registered symbol.
  ghost predicate TargetsOk(t: Table) {
    forall n <- t.aliases.target :: t.aliases.target[n] in t.symbolIDMap
  }

  // The list holds objects of one class, none of them twice and none of them aliased away.
  ghost predicate ListSettled(t: Table, list: seq<Handle>, kind: Kind) {
    Listed(t, list) && forall i | 0 <= i < |list| :: IsFree(t, list[i], kind)
  }

  ghost predicate MapsSettled(t: Table) {
    ObjectsOk(t) && 0 !in t.symbolIDMap && 0 !in t.aliases.target && ReverseOk(t.aliases) && TargetsOk(t)
  }

  ghost predicate IdsSettled(t: Table) {
    && MapsSettled(t) && Coherent(t)
    && ListSettled(t, t.names.arrays, Array) && ListSettled(t, t.names.funcList, Func)
    && ArraysResolve(t) && FunctionsResolve(t)
  }

  // The types that arrays and functions refer to are all in the table.
  ghost predicate TypesPresent(t: Table) {
    && (forall h: nat | h < |t.objects| && t.objects[h].kind == Array ::
      t.objects[h].typ == 0 || Find(t, t.objects[h].typ).Some?)
    && (forall h: nat | h < |t.objects| && t.objects[h].kind == Func ::
          (t.objects[h].rettype == 0 || Find(t, t.objects[h].rettype).Some?) && ParamsResolve(t, t.objects[h].params))
  }

  // After a run that saw the types that arrays and functions refer to.
  lemma RunSettlesIds(ops: seq<Op>, s: State)
    requires RunsTo(ops, s) && TypesPresent(s.table)
    ensures IdsSettled(s.table)
  {
    RunKeepsTable(ops, s);
    CachesAreCoherent(ops, s);
    InvLists(s.table);
    InvSettles(s.table);
    assert forall h <- s.table.names.arrays :: s.table.objects[h].kind == Array;
    assert forall h <- s.table.names.funcList :: s.table.objects[h].kind == Func;
  }

  lemma InvSettles(t: Table)
    requires Inv(t) && Listed(t, t.names.arrays) && Listed(t, t.names.funcList)
    ensures MapsSettled(t) && ListSettled(t, t.names.arrays, Array) && ListSettled(t, t.names.funcList, Func)
  {
    assert forall i | 0 <= i < |t.names.arrays| :: t.names.arrays[i] in t.names.arrays;
    assert forall i | 0 <= i < |t.names.funcList| :: t.names.funcList[i] in t.names.funcList;
  }

  // findSymbolByID stays exact, its third search dead.
  lemma SettledFind(t: Table, id: nat)
    requires MapsSettled(t)
    ensures Find(t, id).Some? <==> id in t.symbolIDMap || id in t.aliases.target
    ensures ThirdSearchDead(t)
  {
    forall i <- t.aliases.reverse, n <- t.aliases.reverse[i] ensures i in t.symbolIDMap {
      assert t.aliases.target[n] == i;
    }
  }

  // ---- one pass ----

  // `t1` is `t` after a pass over the sorted list `s`.
  ghost predicate Passed(t: Table, t1: Table, s: seq<Handle>, equal: (Sym, Sym) -> bool) {
    && |t1.objects| == |t.objects| && t1.symbolIDMap == t.symbolIDMap
    && (forall h: nat | h < |t.objects| ::
          t1.objects[h].id == t.objects[h].id && t1.objects[h].kind == t.objects[h].kind
            && t1.objects[h].base == t.objects[h].base)
    && s != [] && Within(s, |t1.objects|) && DistinctIds(t1.objects, s)
    && t1.aliases == Sweep(t1.objects, t.aliases, s, |s|, equal).aliases
  }

  lemma PassKeepsMaps(t: Table, t1: Table, s: seq<Handle>, equal: (Sym, Sym) -> bool)
    requires MapsSettled(t) && Passed(t, t1, s, equal)
    requires forall i | 0 <= i < |s| :: t.objects[s[i]].id !in t.aliases.target
    ensures MapsSettled(t1)
  {
    SweepReverses(t1.objects, t.aliases, s, |s|, equal);
    assert !IsMerged(t1.objects, s, |s|, equal, 0);
    SweepAliasesOnly(t1.objects, t.aliases, s, |s|, equal, 0);
    forall n <- t1.aliases.target ensures t1.aliases.target[n] in t1.symbolIDMap {
      PassTarget(t, t1, s, equal, n);
    }
  }

  lemma PassTarget(t: Table, t1: Table, s: seq<Handle>, equal: (Sym, Sym) -> bool, n: nat)
    requires ObjectsOk(t) && TargetsOk(t) && Passed(t, t1, s, equal) && n in t1.aliases.target
    ensures t1.aliases.target[n] in t.symbolIDMap
  {
    if IsMerged(t1.objects, s, |s|, equal, n) {
      var i: nat :| i < |s| && !IsHead(t1.objects, s, i, equal) && t1.objects[s[i]].id == n;
      SweepAliases(t1.objects, t.aliases, s, |s|, equal, i);
      var k := HeadIndex(t1.objects, s, i + 1, equal);
      assert t.objects[s[k]].id in t.symbolIDMap;
    } else {
      SweepAliasesOnly(t1.objects, t.aliases, s, |s|, equal, n);
    }
  }

  // The new list of the pass: some of the old one, none of them merged away.
  lemma {:induction false} PassKeepsList(t: Table, t1: Table, s: seq<Handle>, equal: (Sym, Sym) -> bool, kind: Kind)
    requires ListSettled(t, s, kind) && Passed(t, t1, s, equal)
    ensures var kept := Sweep(t1.objects, t.aliases, s, |s|, equal).kept;
            ListSettled(t1, kept, kind) && forall h <- kept :: h in s
  {
    var kept := Sweep(t1.objects, t.aliases, s, |s|, equal).kept;
    KeptOnce(t1.objects, t.aliases, s, equal);
    forall k: nat | k < |kept| ensures kept[k] in s && IsFree(t1, kept[k], kind) {
      KeptIsFree(t, t1, s, equal, kind, k);
    }
    KeepsListed(t, t1, s, kept);
  }

  // An object of the class that is not aliased away.
  ghost predicate IsFree(t: Table, h: Handle, kind: Kind) {
    h < |t.objects| && t.objects[h].kind == kind && t.objects[h].id !in t.aliases.target
  }

  lemma {:induction false} KeptIsFree(t: Table, t1: Table, s: seq<Handle>, equal: (Sym, Sym) -> bool, kind: Kind,
                                      k: nat)
    requires ListSettled(t, s, kind) && Passed(t, t1, s, equal)
    requires k < |Sweep(t1.objects, t.aliases, s, |s|, equal).kept|
    ensures var h := Sweep(t1.objects, t.aliases, s, |s|, equal).kept[k]; h in s && IsFree(t1, h, kind)
  {
    var i := KeptHead(t1.objects, t.aliases, s, equal, k);
    KeptStaysFree(t, t1, s, equal, i);
  }

  lemma KeepsListed(t: Table, t1: Table, s: seq<Handle>, kept: seq<Handle>)
    requires Listed(t, s) && |t1.objects| == |t.objects| && t1.symbolIDMap == t.symbolIDMap
    requires forall h: nat | h < |t.objects| :: t1.objects[h].id == t.objects[h].id
    requires (forall k | 0 <= k < |kept| :: kept[k] in s) && (forall k, l | 0 <= k < l < |kept| :: kept[k] != kept[l])
    ensures Listed(t1, kept)
  {}

  lemma KeptStaysFree(t: Table, t1: Table, s: seq<Handle>, equal: (Sym, Sym) -> bool, i: nat)
    requires Passed(t, t1, s, equal) && i < |s| && IsHead(t1.objects, s, i, equal)
             && t.objects[s[i]].id !in t.aliases.target
    ensures t1.objects[s[i]].id !in t1.aliases.target
  {
    HeadIsNotMerged(t1.objects, s, i, equal);
    SweepAliasesOnly(t1.objects, t.aliases, s, |s|, equal, t1.objects[s[i]].id);
  }

  // Where in the sorted list an element of the new list comes from.
  lemma KeptHead(objects: seq<Sym>, al: Aliasing, s: seq<Handle>, equal: (Sym, Sym) -> bool, k: nat) returns (i: nat)
    requires s != [] && Within(s, |objects|) && k < |Sweep(objects, al, s, |s|, equal).kept|
    ensures i < |s| && IsHead(objects, s, i, equal) && Sweep(objects, al, s, |s|, equal).kept[k] == s[i]
  {
    SweepKeeps(objects, al, s, |s|, equal);
    KeptAtHeads(objects, s, |s|, equal);
    i := KeptAt(objects, s, |s|, equal)[k];
    assert i in KeptAt(objects, s, |s|, equal);
  }

  lemma {:induction false} KeptOnce(objects: seq<Sym>, al: Aliasing, s: seq<Handle>, equal: (Sym, Sym) -> bool)
    requires s != [] && Within(s, |objects|) && DistinctIds(objects, s)
    ensures var kept := Sweep(objects, al, s, |s|, equal).kept; forall k, l | 0 <= k < l < |kept| :: kept[k] != kept[l]
  {
    SweepKeeps(objects, al, s, |s|, equal);
  }

  lemma HeadIsNotMerged(objects: seq<Sym>, s: seq<Handle>, i: nat, equal: (Sym, Sym) -> bool)
    requires i < |s| && Within(s, |objects|) && DistinctIds(objects, s) && IsHead(objects, s, i, equal)
    ensures !IsMerged(objects, s, |s|, equal, objects[s[i]].id)
  {}

  // The list of the other class.
  lemma PassKeepsOther(t: Table, t1: Table, s: seq<Handle>, equal: (Sym, Sym) -> bool, list: seq<Handle>, kind: Kind)
    requires ObjectsOk(t) && ListSettled(t, list, kind) && Passed(t, t1, s, equal)
    requires forall i | 0 <= i < |s| :: t.objects[s[i]].kind != kind
    ensures ListSettled(t1, list, kind)
  {
    forall i | 0 <= i < |list| ensures IsFree(t1, list[i], kind) {
      assert IsFree(t, list[i], kind);
      var x := t1.objects[list[i]].id;
      assert t.symbolIDMap[x] == list[i];
      assert !IsMerged(t1.objects, s, |s|, equal, x);
      SweepAliasesOnly(t1.objects, t.aliases, s, |s|, equal, x);
    }
    assert ObjectsOk(t1);
  }

  // Cached base types stay right when types become canonical.
  lemma PassKeepsCaches(t: Table, t1: Table)
    requires Coherent(t) && |t1.objects| == |t.objects| && forall id :: Find(t1, id) == Find(t, id)
    requires forall h: nat | h < |t.objects| ::
               && t1.objects[h].kind == t.objects[h].kind && t1.objects[h].base == t.objects[h].base
               && TypeKept(t, t1, h)
    ensures Coherent(t1)
  {
    forall h: nat | h < |t1.objects| ensures CoherentAt(t1, h) {
      assert CoherentAt(t, h);
    }
  }

  // Canonical types are canonical already: updating a function's types again changes nothing.
  lemma FunctionTypesIdempotent(t: Table, f: Sym)
    requires ObjectsOk(t) && (f.rettype == 0 || Find(t, f.rettype).Some?) && ParamsResolve(t, f.params)
    ensures UpdatedFunctionTypes(t, UpdatedFunctionTypes(t, f)) == UpdatedFunctionTypes(t, f)
  {
    CanonicalResolvesSame(t, f.rettype);
    var g := UpdatedFunctionTypes(t, f);
    forall i | 0 <= i < |f.params| ensures Canonical(t, g.params[i].1) == g.params[i].1 {
      CanonicalResolvesSame(t, f.params[i].1);
    }
    assert UpdatedFunctionTypes(t, g).params == g.params;
  }

  // ---- cleanArrays ----

  lemma ArraysPassed(t: Table)
    requires ListSettled(t, t.names.arrays, Array) && t.names.arrays != []
    ensures Within(t.names.arrays, |t.objects|)
    ensures var c := CleanArrays(t);
            && Passed(t, c.table, c.sorted, ArrayEqual) && ListSettled(t, c.sorted, Array)
            && (forall h :: h in c.sorted <==> h in t.names.arrays)
            && c.table.names == t.names.(arrays :=
              Sweep(c.table.objects, t.aliases, c.sorted, |c.sorted|, ArrayEqual).kept)
  {
    var c := CleanArrays(t);
    ArrayCleanup.PassObjects(t);
    ArrayCleanup.ArrayLessIsStrictTotal();
    SortedList(t, t.names.arrays, c.table.objects, ArrayLess);
    assert t.names.arrays[0] in c.sorted;
    SortedIsSettled(t, t.names.arrays, c.sorted, c.table.objects, Array);
  }

  // A permutation of a settled list is settled.
  lemma SortedIsSettled(t: Table, list: seq<Handle>, s: seq<Handle>, objects: seq<Sym>, kind: Kind)
    requires ListSettled(t, list, kind) && (forall h :: h in s <==> h in list)
    requires |objects| == |t.objects| && Within(s, |objects|) && DistinctIds(objects, s)
    ensures ListSettled(t, s, kind)
  {
    forall i | 0 <= i < |s| ensures IsFree(t, s[i], kind) {
      assert s[i] in list;
      var k: nat :| k < |list| && list[k] == s[i];
    }
  }

  lemma ArraysStayResolved(t: Table, t1: Table)
    requires ArraysResolve(t) && ListSettled(t1, t1.names.arrays, Array) && |t1.objects| == |t.objects|
    requires forall h <- t1.names.arrays :: h in t.names.arrays
    requires forall h: nat | h < |t.objects| :: TypeKept(t, t1, h)
    ensures ArraysResolve(t1)
  {
    forall h: nat | h < |t1.objects| && h in t1.names.arrays
      ensures t1.objects[h].typ == 0 || Find(t1, t1.objects[h].typ).Some? {
      assert TypeKept(t, t1, h);
    }
  }

  lemma FunctionsStayResolved(t: Table, t1: Table)
    requires FunctionsResolve(t) && ListSettled(t1, t1.names.funcList, Func) && |t1.objects| == |t.objects|
    requires forall h <- t1.names.funcList :: h in t.names.funcList
    requires forall id :: Find(t1, id) == Find(t, id)
    requires forall h: nat | h < |t.objects| && h in t.names.funcList ::
               t1.objects[h] == t.objects[h] || t1.objects[h] == UpdatedFunctionTypes(t, t.objects[h])
    requires ObjectsOk(t) && 0 !in t.symbolIDMap
    ensures FunctionsResolve(t1)
  {
    forall h: nat | h < |t1.objects| && h in t1.names.funcList
      ensures t1.objects[h].rettype == 0 || Find(t1, t1.objects[h].rettype).Some?
      ensures ParamsResolve(t1, t1.objects[h].params)
    {
      FunctionTypesResolve(t, t.objects[h]);
    }
  }

  lemma FunctionTypesResolve(t: Table, f: Sym)
    requires ObjectsOk(t) && 0 !in t.symbolIDMap && (f.rettype == 0 || Find(t, f.rettype).Some?)
             && ParamsResolve(t, f.params)
    ensures var g := UpdatedFunctionTypes(t, f);
            (g.rettype == 0 || Find(t, g.rettype).Some?) && ParamsResolve(t, g.params)
  {
    CanonicalResolvesSame(t, f.rettype);
    forall i | 0 <= i < |f.params|
      ensures Canonical(t, f.params[i].1) != 0 && Find(t, Canonical(t, f.params[i].1)).Some? {
      CanonicalResolvesSame(t, f.params[i].1);
    }
  }

  // What cleanArrays keeps, in the two cases: no arrays, and a sweep.
  lemma ArraysSettleMaps(t: Table)
    requires IdsSettled(t) && t.names.arrays != []
    ensures Within(t.names.arrays, |t.objects|)
    ensures var t1 := CleanArrays(t).table;
            && MapsSettled(t1) && ListSettled(t1, t1.names.arrays, Array) && ListSettled(t1, t1.names.funcList, Func)
            && t1.names.funcList == t.names.funcList && forall h <- t1.names.arrays :: h in t.names.arrays
  {
    hide MapsSettled, Coherent, ArraysResolve, FunctionsResolve, Sweep;
    ArraysPassed(t);
    var c := CleanArrays(t);
    assert forall i | 0 <= i < |c.sorted| :: IsFree(t, c.sorted[i], Array);
    PassKeepsMaps(t, c.table, c.sorted, ArrayEqual);
    PassKeepsList(t, c.table, c.sorted, ArrayEqual, Array);
    PassKeepsOther(t, c.table, c.sorted, ArrayEqual, t.names.funcList, Func);
  }

  lemma ArrayTypesKept(t: Table, t1: Table)
    requires MapsSettled(t) && Listed(t, t.names.arrays) && Within(t.names.arrays, |t.objects|)
             && t1 == CleanArrays(t).table
    ensures |t1.objects| == |t.objects| && forall id :: Find(t1, id) == Find(t, id)
    ensures forall h: nat | h < |t.objects| :: TypeKept(t, t1, h)
    ensures forall h: nat | h < |t.objects| ::
            t1.objects[h].kind == t.objects[h].kind && t1.objects[h].base == t.objects[h].base
    ensures forall h: nat | h < |t.objects| && h !in t.names.arrays :: t1.objects[h] == t.objects[h]
  {
    ArrayCleanup.PassObjects(t);
    forall id ensures Find(t1, id) == Find(t, id) { ArrayCleanup.CleanArraysKeepsFind(t, id); }
    forall h: nat | h < |t.objects| ensures TypeKept(t, t1, h) { ArrayTypeKept(t, t1, h); }
  }

  lemma ArraysSettleTypes(t: Table, t1: Table)
    requires IdsSettled(t) && Within(t.names.arrays, |t.objects|) && t1 == CleanArrays(t).table
    requires ListSettled(t1, t1.names.arrays, Array) && ListSettled(t1, t1.names.funcList, Func)
    requires t1.names.funcList == t.names.funcList && forall h <- t1.names.arrays :: h in t.names.arrays
    ensures ArraysResolve(t1) && FunctionsResolve(t1) && Coherent(t1)
  {
    ArrayTypesKept(t, t1);
    ArraysStayResolved(t, t1);
    ArraysAreNotFunctions(t);
    FunctionsStayResolved(t, t1);
    PassKeepsCaches(t, t1);
  }

  // The object refers to the same type as before.
  ghost predicate TypeKept(t: Table, t1: Table, h: Handle)
    requires h < |t.objects| == |t1.objects|
  {
    if t.objects[h].typ == 0 || Find(t, t.objects[h].typ).None? then t1.objects[h].typ == t.objects[h].typ
    else t1.objects[h].typ != 0 && Find(t1, t1.objects[h].typ) == Find(t, t.objects[h].typ)
  }

  lemma ArrayTypeKept(t: Table, t1: Table, h: Handle)
    requires MapsSettled(t) && Listed(t, t.names.arrays) && Within(t.names.arrays, |t.objects|)
             && t1 == CleanArrays(t).table
    requires h < |t.objects|
    ensures TypeKept(t, t1, h)
  {
    ArrayCleanup.PassObjects(t);
    if t.objects[h].typ != 0 && Find(t, t.objects[h].typ).Some? {
      ArrayCleanup.CleanArraysKeepsTypes(t, h);
      CanonicalResolvesSame(t, t.objects[h].typ);
    }
  }

  lemma ArraysAreNotFunctions(t: Table)
    requires ListSettled(t, t.names.arrays, Array) && ListSettled(t, t.names.funcList, Func)
    ensures forall h :: !(h in t.names.arrays && h in t.names.funcList)
  {
    assert forall i | 0 <= i < |t.names.arrays| :: IsFree(t, t.names.arrays[i], Array);
    assert forall i | 0 <= i < |t.names.funcList| :: IsFree(t, t.names.funcList[i], Func);
  }

  // cleanArrays keeps all that IdsSettled says.
  lemma CleanArraysKeepsIds(t: Table)
    requires IdsSettled(t)
    ensures Within(t.names.arrays, |t.objects|) && IdsSettled(CleanArrays(t).table)
  {
    if t.names.arrays == [] {
      assert Sort(ArrayObjects(t), t.names.arrays, ArrayLess) == [];
      EmptyArrays(t);
    } else {
      ArraysSettleMaps(t);
      ArraysSettleTypes(t, CleanArrays(t).table);
    }
  }

  // ---- cleanFunctions ----

  lemma FunctionsPassed(t: Table)
    requires ListSettled(t, t.names.funcList, Func) && t.names.funcList != []
    ensures Within(t.names.funcList, |t.objects|)
    ensures var c := CleanFunctions(t);
            && Passed(t, c.table, c.sorted, FunctionEqual) && ListSettled(t, c.sorted, Func)
            && (forall h :: h in c.sorted <==> h in t.names.funcList)
            && c.table.names == t.names.(funcList :=
              Sweep(c.table.objects, t.aliases, c.sorted, |c.sorted|, FunctionEqual).kept)
  {
    var c := CleanFunctions(t);
    FunctionCleanup.PassObjects(t);
    FunctionCleanup.Sorted(t);
    assert t.names.funcList[0] in c.sorted;
    SortedIsSettled(t, t.names.funcList, c.sorted, c.table.objects, Func);
  }

  lemma FunctionsSettleMaps(t: Table)
    requires IdsSettled(t) && t.names.funcList != []
    ensures Within(t.names.funcList, |t.objects|)
    ensures var t1 := CleanFunctions(t).table;
            && MapsSettled(t1) && ListSettled(t1, t1.names.arrays, Array) && ListSettled(t1, t1.names.funcList, Func)
            && t1.names.arrays == t.names.arrays && forall h <- t1.names.funcList :: h in t.names.funcList
  {
    hide MapsSettled, Coherent, ArraysResolve, FunctionsResolve, Sweep;
    FunctionsPassed(t);
    var c := CleanFunctions(t);
    assert forall i | 0 <= i < |c.sorted| :: IsFree(t, c.sorted[i], Func);
    PassKeepsMaps(t, c.table, c.sorted, FunctionEqual);
    PassKeepsList(t, c.table, c.sorted, FunctionEqual, Func);
    PassKeepsOther(t, c.table, c.sorted, FunctionEqual, t.names.arrays, Array);
  }

  lemma CleanFunctionsKeepsFind(t: Table, id: nat)
    requires ListSettled(t, t.names.funcList, Func) && t.names.funcList != []
    ensures Within(t.names.funcList, |t.objects|) && Find(CleanFunctions(t).table, id) == Find(t, id)
  {
    FunctionsPassed(t);
    SweepKeepsFind(t, CleanFunctions(t).table, CleanFunctions(t).sorted, FunctionEqual, id);
  }

  lemma FunctionsSettleTypes(t: Table, t1: Table)
    requires IdsSettled(t) && Within(t.names.funcList, |t.objects|) && t1 == CleanFunctions(t).table
             && t.names.funcList != []
    requires ListSettled(t1, t1.names.arrays, Array) && ListSettled(t1, t1.names.funcList, Func)
    requires t1.names.arrays == t.names.arrays && forall h <- t1.names.funcList :: h in t.names.funcList
    ensures ArraysResolve(t1) && FunctionsResolve(t1) && Coherent(t1)
  {
    FunctionCleanup.PassObjects(t);
    forall id ensures Find(t1, id) == Find(t, id) { CleanFunctionsKeepsFind(t, id); }
    assert forall h: nat | h < |t.objects| :: TypeKept(t, t1, h);
    ArraysStayResolved(t, t1);
    FunctionsStayResolved(t, t1);
    PassKeepsCaches(t, t1);
  }

  // cleanFunctions keeps all that IdsSettled says.
  lemma CleanFunctionsKeepsIds(t: Table)
    requires IdsSettled(t)
    ensures Within(t.names.funcList, |t.objects|) && IdsSettled(CleanFunctions(t).table)
  {
    if t.names.funcList == [] {
      assert Sort(FunctionObjects(t), t.names.funcList, FunctionLess) == [];
      EmptyFunctions(t);
    } else {
      FunctionsSettleMaps(t);
      FunctionsSettleTypes(t, CleanFunctions(t).table);
    }
  }

  // Functions of one name were merged when they were created: a clean-up right after a run deletes
  // only functions without a name.
  lemma NamedFunctionsSurvive(ops: seq<Op>, s: State, h: Handle)
    requires RunsTo(ops, s) && h < |s.table.objects| && h in s.table.names.funcList
    ensures Within(s.table.names.funcList, |s.table.objects|)
    ensures h in CleanFunctions(s.table).deleted ==> s.table.objects[h].name == ""
  {
    RunKeepsTable(ops, s);
    InvLists(s.table);
    if h in CleanFunctions(s.table).deleted {
      var m := FunctionCleanup.DeletedFunctionIsAliased(s.table, h);
      FunctionCleanup.PassObjects(s.table);
      FunctionsShareNoName(s.table, m, h);
    }
  }

  lemma FunctionsShareNoName(t: Table, m: Handle, h: Handle)
    requires Inv(t) && m in t.names.funcList && h in t.names.funcList
    ensures m < |t.objects| && h < |t.objects|
            && (m != h && t.objects[m].name == t.objects[h].name ==> t.objects[h].name == "")
  {}
}
