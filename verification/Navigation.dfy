/**
 Types followed by the code, with its caches, on tables from which clean-ups may have deleted objects.
 */
module Navigation {
  import opened Basics
  import opened Dwarf
  import opened SymbolTable
  import opened Runs
  import opened Parts
  import opened Caches
  import opened CleanupSpec
  import opened Sweeping
  import opened Settled
  import opened Duplicates
  import opened Liveness
  import opened Symbols
  import opened Links
  import opened TypeChains

  // ---- chains and deleted objects ----

  // Following the type `h`, or its size, reads no object that was deleted.
  ghost predicate ChainAlive(t: Table, dead: seq<Handle>, h: Handle) {
    Avoids(TypeLinks(t), h, dead)
  }

  ghost predicate SizeAlive(t: Table, dead: seq<Handle>, h: Handle) {
    Avoids(SizeLinks(t), h, dead)
  }

  // On a settled table every chain from an object that is not deleted avoids the deleted ones.
  lemma SettledChainsAlive(t: Table, dead: seq<Handle>, h: Handle)
    requires IsSettled(t, dead) && h !in dead
    ensures ChainAlive(t, dead, h) && SizeAlive(t, dead, h)
  {
    forall j: nat | j < |t.objects| && j !in dead && TypeReferred(t, j).Some?
      ensures TypeReferred(t, j).value !in dead {
      assert RefersAlive(t, dead, t.objects[j]) && RefersTo(t.objects[j], t.objects[j].typ);
      assert IsAlive(t, dead, t.objects[j].typ);
    }
    forall j: nat | j < |t.objects| && j !in dead && SizeTarget(t, j).Some? ensures SizeTarget(t, j).value !in dead {
      if t.objects[j].kind == Array { SizeReferredAlive(t, dead, j); }
    }
    forall n: nat | Follow(TypeLinks(t), h, n).Some? ensures Follow(TypeLinks(t), h, n).value !in dead {
      StaysAway(TypeLinks(t), h, dead, n);
    }
    forall n: nat | Follow(SizeLinks(t), h, n).Some? ensures Follow(SizeLinks(t), h, n).value !in dead {
      StaysAway(SizeLinks(t), h, dead, n);
    }
  }

  lemma SizeReferredAlive(t: Table, dead: seq<Handle>, j: Handle)
    requires IsSettled(t, dead) && j < |t.objects| && j !in dead && t.objects[j].kind == Array && SizeTarget(t, j).Some?
    ensures SizeTarget(t, j).value !in dead
  {
    assert Find(t, 0) == None;
    if t.objects[j].typ != 0 {
      assert RefersAlive(t, dead, t.objects[j]) && RefersTo(t.objects[j], t.objects[j].typ);
      assert IsAlive(t, dead, t.objects[j].typ);
    }
  }

  // cleanArrays changes no reference and no size.
  lemma CleanArraysKeepsLinks(t: Table)
    requires IdsSettled(t)
    ensures Within(t.names.arrays, |t.objects|)
    ensures TypeLinks(CleanArrays(t).table) == TypeLinks(t) && SizeLinks(CleanArrays(t).table) == SizeLinks(t)
  {
    ArraysPass(t);
    AllLinksKept(t, CleanArrays(t).table);
  }

  // What the pass does to objects.
  ghost predicate IsPass(t: Table, t1: Table) {
    SameKinds(t, t1) && (forall id :: Find(t1, id) == Find(t, id)) && forall h: nat | h < |t.objects| ::
      || t1.objects[h] == t.objects[h] || t1.objects[h] == UpdatedArrayTypes(t, t.objects[h])
      || t1.objects[h] == UpdatedFunctionTypes(t, t.objects[h])
  }

  lemma ArraysPass(t: Table)
    requires IdsSettled(t)
    ensures Within(t.names.arrays, |t.objects|) && IsPass(t, CleanArrays(t).table)
  {
    ArrayCleanup.PassObjects(t);
    forall id ensures Find(CleanArrays(t).table, id) == Find(t, id) { ArrayCleanup.CleanArraysKeepsFind(t, id); }
  }

  lemma FunctionsPass(t: Table)
    requires IdsSettled(t)
    ensures Within(t.names.funcList, |t.objects|) && IsPass(t, CleanFunctions(t).table)
  {
    hide Find, CleanFunctions;
    FunctionCleanup.PassObjects(t);
    forall id ensures Find(CleanFunctions(t).table, id) == Find(t, id) { CleanFunctionsFinds(t, id); }
  }

  // Nor does cleanFunctions.
  lemma CleanFunctionsKeepsLinks(t: Table)
    requires IdsSettled(t)
    ensures Within(t.names.funcList, |t.objects|)
    ensures TypeLinks(CleanFunctions(t).table) == TypeLinks(t) && SizeLinks(CleanFunctions(t).table) == SizeLinks(t)
  {
    FunctionsPass(t);
    AllLinksKept(t, CleanFunctions(t).table);
  }

  lemma AllLinksKept(t: Table, t1: Table)
    requires MapsSettled(t) && IsPass(t, t1)
    ensures TypeLinks(t1) == TypeLinks(t) && SizeLinks(t1) == SizeLinks(t)
  {
    forall h: nat | h < |t.objects|
      ensures TypeLinks(t1)[h] == TypeLinks(t)[h] && SizeLinks(t1)[h] == SizeLinks(t)[h]
    {
      LinksKept(t, t1, h);
    }
  }

  lemma LinksKept(t: Table, t1: Table, h: Handle)
    requires MapsSettled(t) && IsPass(t, t1) && h < |t.objects|
    ensures Target(t1, h) == Target(t, h) && SizeTarget(t1, h) == SizeTarget(t, h)
  {
    CanonicalAlike(t, t.objects[h].typ);
  }

  ghost predicate SameKinds(t: Table, t1: Table) {
    |t1.objects| == |t.objects| && forall h: nat | h < |t.objects| :: t1.objects[h].kind == t.objects[h].kind
  }

  // The chain passes no duplicate array.
  ghost predicate PassesNoDuplicate(t: Table, links: Links, h: Handle) {
    forall n: nat | Follow(links, h, n).Some? :: !IsDuplicateArray(t, Follow(links, h, n).value)
  }

  lemma AvoidsMore(t: Table, links: Links, h: Handle, dead: seq<Handle>)
    requires Listed(t, t.names.arrays)
    ensures Within(t.names.arrays, |t.objects|)
    ensures Avoids(links, h, dead + CleanArrays(t).deleted)
            <==> Avoids(links, h, dead) && PassesNoDuplicate(t, links, h)
  {
    forall g: Handle ensures g in CleanArrays(t).deleted <==> IsDuplicateArray(t, g) { DeletedArrays(t, g); }
    var gone := CleanArrays(t).deleted;
    if Avoids(links, h, dead + gone) {
      forall n: nat | Follow(links, h, n).Some?
        ensures Follow(links, h, n).value !in dead && !IsDuplicateArray(t, Follow(links, h, n).value)
      {
        assert Follow(links, h, n).value !in dead + gone;
      }
    }
  }

  /**
   After cleanArrays a type can still be followed exactly when it could be before and its chain passes no
   duplicate array; then it has the same real type.
   */
  lemma {:induction false} CleanArraysKeepsChain(t: Table, dead: seq<Handle>, h: Handle)
    requires IdsSettled(t) && ChainEnds(t, h)
    ensures Within(t.names.arrays, |t.objects|)
    ensures var c := CleanArrays(t);
            && (ChainAlive(c.table, dead + c.deleted, h) <==>
                  ChainAlive(t, dead, h) && PassesNoDuplicate(t, TypeLinks(t), h))
            && ChainEnds(c.table, h) && RealType(c.table, h) == RealType(t, h)
  {
    CleanArraysKeepsLinks(t);
    AvoidsMore(t, TypeLinks(t), h, dead);
    ArrayCleanup.PassObjects(t);
    SameLinksSameType(t, CleanArrays(t).table, h);
  }

  // The same of sizes.
  lemma {:induction false} CleanArraysKeepsSize(t: Table, dead: seq<Handle>, h: Handle)
    requires IdsSettled(t) && SizeEnds(t, h)
    ensures Within(t.names.arrays, |t.objects|)
    ensures var c := CleanArrays(t);
            && (SizeAlive(c.table, dead + c.deleted, h) <==>
                  SizeAlive(t, dead, h) && PassesNoDuplicate(t, SizeLinks(t), h))
            && SizeEnds(c.table, h) && ByteSize(c.table, h) == ByteSize(t, h)
  {
    CleanArraysKeepsLinks(t);
    AvoidsMore(t, SizeLinks(t), h, dead);
    ArrayCleanup.PassObjects(t);
    SameLinksSameSize(t, CleanArrays(t).table, h);
  }

  // The chain passes no duplicate function.
  ghost predicate PassesNoDuplicateFunction(t: Table, links: Links, h: Handle) {
    forall n: nat | Follow(links, h, n).Some? :: !IsDuplicateFunction(t, Follow(links, h, n).value)
  }

  lemma AvoidsMoreFunctions(t: Table, links: Links, h: Handle, dead: seq<Handle>)
    requires Listed(t, t.names.funcList)
    ensures Within(t.names.funcList, |t.objects|)
    ensures Avoids(links, h, dead + CleanFunctions(t).deleted)
            <==> Avoids(links, h, dead) && PassesNoDuplicateFunction(t, links, h)
  {
    forall g: Handle ensures g in CleanFunctions(t).deleted <==> IsDuplicateFunction(t, g) { DeletedFunctions(t, g); }
    var gone := CleanFunctions(t).deleted;
    if Avoids(links, h, dead + gone) {
      forall n: nat | Follow(links, h, n).Some?
        ensures Follow(links, h, n).value !in dead && !IsDuplicateFunction(t, Follow(links, h, n).value)
      {
        assert Follow(links, h, n).value !in dead + gone;
      }
    }
  }

  // After cleanFunctions the same holds of duplicate functions.
  lemma {:induction false} CleanFunctionsKeepsChain(t: Table, dead: seq<Handle>, h: Handle)
    requires IdsSettled(t) && ChainEnds(t, h)
    ensures Within(t.names.funcList, |t.objects|)
    ensures var c := CleanFunctions(t);
            && (ChainAlive(c.table, dead + c.deleted, h) <==>
                  ChainAlive(t, dead, h) && PassesNoDuplicateFunction(t, TypeLinks(t), h))
            && ChainEnds(c.table, h) && RealType(c.table, h) == RealType(t, h)
  {
    CleanFunctionsKeepsLinks(t);
    AvoidsMoreFunctions(t, TypeLinks(t), h, dead);
    FunctionCleanup.PassObjects(t);
    SameLinksSameType(t, CleanFunctions(t).table, h);
  }

  lemma {:induction false} CleanFunctionsKeepsSize(t: Table, dead: seq<Handle>, h: Handle)
    requires IdsSettled(t) && SizeEnds(t, h)
    ensures Within(t.names.funcList, |t.objects|)
    ensures var c := CleanFunctions(t);
            && (SizeAlive(c.table, dead + c.deleted, h) <==>
                  SizeAlive(t, dead, h) && PassesNoDuplicateFunction(t, SizeLinks(t), h))
            && SizeEnds(c.table, h) && ByteSize(c.table, h) == ByteSize(t, h)
  {
    CleanFunctionsKeepsLinks(t);
    AvoidsMoreFunctions(t, SizeLinks(t), h, dead);
    FunctionCleanup.PassObjects(t);
    SameLinksSameSize(t, CleanFunctions(t).table, h);
  }

  // Objects are the same but for caches and type ids.
  ghost predicate SameObjects(t: Table, t1: Table) {
    |t1.objects| == |t.objects| && forall h: nat | h < |t.objects| ::
      && t1.objects[h].kind == t.objects[h].kind && t1.objects[h].length == t.objects[h].length
      && t1.objects[h].byteSize == t.objects[h].byteSize
  }

  lemma {:induction false} SameLinksSameType(t: Table, t1: Table, h: Handle)
    requires SameObjects(t, t1) && TypeLinks(t1) == TypeLinks(t) && ChainEnds(t, h)
    ensures ChainEnds(t1, h) && RealType(t1, h) == RealType(t, h)
    decreases ChainLength(TypeLinks(t), h)
  {
    assert Next(TypeLinks(t1), h) == Target(t1, h) && Next(TypeLinks(t), h) == Target(t, h);
    if Target(t, h).Some? {
      TargetChainEnds(t, h);
      SameLinksSameType(t, t1, Target(t, h).value);
    }
  }

  lemma {:induction false} SameLinksSameSize(t: Table, t1: Table, h: Handle)
    requires SameObjects(t, t1) && SizeLinks(t1) == SizeLinks(t) && SizeEnds(t, h)
    ensures SizeEnds(t1, h) && ByteSize(t1, h) == ByteSize(t, h)
    decreases ChainLength(SizeLinks(t), h)
  {
    assert Next(SizeLinks(t1), h) == SizeTarget(t1, h) && Next(SizeLinks(t), h) == SizeTarget(t, h);
    if SizeTarget(t, h).Some? {
      SizeTargetEnds(t, h);
      SameLinksSameSize(t, t1, SizeTarget(t, h).value);
    }
  }

  // ---- the code, with its caches ----

  // A table on which types can be looked up, the objects `dead` being deleted.
  ghost predicate Navigable(t: Table, dead: seq<Handle>) {
    ThirdSearchDead(t) && Coherent(t) && (forall k <- t.symbolIDMap :: t.symbolIDMap[k] < |t.objects|)
    && forall d <- dead :: d < |t.objects| && IsBaseType(t.objects[d].kind)
  }

  // Only cached base types differ.
  ghost predicate SameButCaches(t: Table, t1: Table) {
    t1 == t.(objects := t1.objects) && |t1.objects| == |t.objects|
    && forall h: nat | h < |t.objects| :: t1.objects[h] == t.objects[h].(base := t1.objects[h].base)
  }

  lemma CachesCompose(t: Table, t1: Table, t2: Table)
    requires SameButCaches(t, t1) && SameButCaches(t1, t2)
    ensures SameButCaches(t, t2)
  {}

  lemma CachesKeepLinks(t: Table, t1: Table, h: Handle)
    requires SameButCaches(t, t1) && h < |t.objects|
    ensures Find(t1, t1.objects[h].typ) == Find(t, t.objects[h].typ) && TypeReferred(t1, h) == TypeReferred(t, h)
    ensures Target(t1, h) == Target(t, h) && SizeTarget(t1, h) == SizeTarget(t, h)
  {}

  // getBaseType on a navigable table gives the type referred to, and changes caches only.
  lemma ResolveNavigates(t: Table, dead: seq<Handle>, h: Handle)
    requires Navigable(t, dead) && h < |t.objects| && IsRefType(t.objects[h].kind)
    ensures ResolveBase(t, h).Some? <==> Target(t, h).Some?
    ensures ResolveBase(t, h).Some? ==>
              var t1 := ResolveBase(t, h).value;
              Navigable(t1, dead) && SameButCaches(t, t1) && t1.objects[h].base == Target(t, h)
  {
    assert CoherentAt(t, h);
    if ResolveBase(t, h).Some? { ResolveCoherent(t, h); }
  }

  // What is found under the type id of an object whose chain is alive is not deleted: only types are deleted.
  lemma ReferredAlive(t: Table, dead: seq<Handle>, h: Handle)
    requires Navigable(t, dead) && h < |t.objects| && (TypeReferred(t, h).Some? ==> TypeReferred(t, h).value !in dead)
    ensures t.objects[h].typ != 0 ==> IsAlive(t, dead, t.objects[h].typ)
  {}

  // One step of the loops: RefBaseType::getBaseType.
  method StepToBase(manager: SymbolManager, h: Handle, ghost t: Table) returns (base: Option<Handle>)
    requires manager.Valid() && Navigable(manager.Contents(), manager.deleted) && SameButCaches(t, manager.Contents())
    requires h < |manager.objects| && IsRefType(manager.objects[h].kind)
    requires Target(t, h).Some? ==> Target(t, h).value !in manager.deleted
    modifies manager`symbolIDAliasReverseList, manager.objects
    ensures base == Target(t, h)
    ensures base.Some? ==>
              manager.Valid() && Navigable(manager.Contents(), manager.deleted) && SameButCaches(t, manager.Contents())
  {
    ghost var t0 := manager.Contents();
    CachesKeepLinks(t, t0, h);
    ResolveNavigates(t0, manager.deleted, h);
    ReferredAlive(t0, manager.deleted, h);
    if manager.objects[h].base.None? && manager.objects[h].typ == 0 { return None; }
    TypeOfCached(t0, h);
    base := manager.ResolveBaseType(h);
    if base.Some? { CachesCompose(t, t0, manager.Contents()); }
  }

  lemma TypeOfCached(t: Table, h: Handle)
    requires Coherent(t) && h < |t.objects| && !(t.objects[h].base.None? && t.objects[h].typ == 0)
    ensures t.objects[h].typ != 0
  {
    assert CoherentAt(t, h);
  }

  // Instance::getRealType of an instance of the type `h`.
  method GetRealType(manager: SymbolManager, h: Handle) returns (r: Option<Handle>)
    requires manager.Valid() && Navigable(manager.Contents(), manager.deleted)
    requires ChainEnds(manager.Contents(), h) && ChainAlive(manager.Contents(), manager.deleted, h)
    modifies manager`symbolIDAliasReverseList, manager.objects
    ensures r == RealType(old(manager.Contents()), h)
    ensures forall g: Handle :: r == Some(g) <==> IsRealType(old(manager.Contents()), h, g)
    ensures r == None <==> HasNoRealType(old(manager.Contents()), h)
    ensures r.Some? ==>
              && manager.Valid() && Navigable(manager.Contents(), manager.deleted)
              && SameButCaches(old(manager.Contents()), manager.Contents())
  {
    hide Navigable, TypeReferred, IsBaseType, IsRealType, HasNoRealType;
    ghost var t := manager.Contents();
    var bt: Handle := h;
    while IsRefType(manager.objects[bt].kind)
      invariant manager.Valid() && Navigable(manager.Contents(), manager.deleted)
                && SameButCaches(t, manager.Contents())
      invariant ChainEnds(t, bt) && ChainAlive(t, manager.deleted, bt) && RealType(t, h) == RealType(t, bt)
      decreases ChainLength(TypeLinks(t), bt)
    {
      AvoidsNext(TypeLinks(t), bt, manager.deleted);
      if Target(t, bt).Some? {
        TargetChainEnds(t, bt);
        AvoidsNext(TypeLinks(t), Target(t, bt).value, manager.deleted);
      }
      var next := StepToBase(manager, bt, t);
      if next.None? {
        RealTypeIff(t, h);
        return None;
      }
      bt := next.value;
    }
    RealTypeIff(t, h);
    r := Some(bt);
  }

  // findSymbolByID for the type id of an object; none if it fails or the object is no type where one is asked for.
  method FindReferred(manager: SymbolManager, h: Handle, typeOnly: bool, ghost t: Table) returns (found: Option<Handle>)
    requires manager.Valid() && Navigable(manager.Contents(), manager.deleted) && SameButCaches(t, manager.Contents())
    requires h < |manager.objects|
    modifies manager`symbolIDAliasReverseList
    ensures typeOnly ==> found == TypeReferred(t, h)
    ensures !typeOnly && t.objects[h].kind == Array ==> found == SizeTarget(t, h)
    ensures found.Some? ==> manager.Contents() == old(manager.Contents())
  {
    CachesKeepLinks(t, manager.Contents(), h);
    if typeOnly && manager.objects[h].typ == 0 { return None; }
    found := manager.FindSymbolByID(manager.objects[h].typ);
    if found.None? { return; }
    if typeOnly && !IsBaseType(manager.objects[found.value].kind) { return None; }
  }

  // getByteSize of Symbol, RefBaseType, Array and StructuredMember.
  method GetByteSize(manager: SymbolManager, h: Handle, ghost t: Table) returns (size: Option<nat>)
    requires manager.Valid() && Navigable(manager.Contents(), manager.deleted) && SameButCaches(t, manager.Contents())
    requires SizeEnds(t, h) && SizeAlive(t, manager.deleted, h)
    modifies manager`symbolIDAliasReverseList, manager.objects
    ensures size == ByteSize(t, h)
    ensures size.Some? ==>
              manager.Valid() && Navigable(manager.Contents(), manager.deleted) && SameButCaches(t, manager.Contents())
    decreases ChainLength(SizeLinks(t), h)
  {
    if !AsksForSize(manager.objects[h].View()) {
      return Some(manager.objects[h].byteSize);
    }
    SizeStep(t, manager.deleted, h);
    var asked := AskForSize(manager, h, t);
    if asked.None? { return None; }
    size := GetByteSize(manager, asked.value, t);
    if size.Some? && manager.objects[h].kind == Array {
      size := Some(manager.objects[h].length * size.value % U64 % U32);
    }
  }

  lemma SizeStep(t: Table, dead: seq<Handle>, h: Handle)
    requires SizeEnds(t, h) && SizeAlive(t, dead, h)
    ensures SizeTarget(t, h).Some? ==>
              var g := SizeTarget(t, h).value;
              && SizeEnds(t, g) && SizeAlive(t, dead, g) && g !in dead
              && ChainLength(SizeLinks(t), g) < ChainLength(SizeLinks(t), h)
  {
    AvoidsNext(SizeLinks(t), h, dead);
    if SizeTarget(t, h).Some? {
      SizeTargetEnds(t, h);
      AvoidsNext(SizeLinks(t), SizeTarget(t, h).value, dead);
    }
  }

  // The object whose size is asked for.
  method AskForSize(manager: SymbolManager, h: Handle, ghost t: Table) returns (asked: Option<Handle>)
    requires manager.Valid() && Navigable(manager.Contents(), manager.deleted) && SameButCaches(t, manager.Contents())
    requires h < |manager.objects| && AsksForSize(t.objects[h])
    requires SizeTarget(t, h).Some? ==> SizeTarget(t, h).value !in manager.deleted
    modifies manager`symbolIDAliasReverseList, manager.objects
    ensures asked == SizeTarget(t, h)
    ensures asked.Some? ==>
              manager.Valid() && Navigable(manager.Contents(), manager.deleted) && SameButCaches(t, manager.Contents())
  {
    if manager.objects[h].kind == Array || manager.objects[h].kind == Member {
      asked := FindReferred(manager, h, manager.objects[h].kind == Member, t);
    } else {
      asked := StepToBase(manager, h, t);
    }
  }

  // ---- which tables are navigable ----

  // Every table of a run is.
  lemma RunIsNavigable(ops: seq<Op>, s: State)
    requires RunsTo(ops, s)
    ensures Navigable(s.table, []) && SizesOk(s.table)
  {
    CachesAreCoherent(ops, s);
    RunKeepsTable(ops, s);
    InvLists(s.table);
    InvSettles(s.table);
    SettledFind(s.table, 0);
    ReplaySizes(START, ops);
  }

  // A pass leaves ids, kinds and caches so that types can be looked up, and it deletes only types.
  lemma NavigableAfter(t: Table, t1: Table, dead: seq<Handle>, gone: seq<Handle>)
    requires Navigable(t, dead) && IdsSettled(t1) && t1.symbolIDMap == t.symbolIDMap && SameKinds(t, t1)
    requires forall d <- gone :: d < |t.objects| && IsBaseType(t.objects[d].kind)
    ensures Navigable(t1, dead + gone)
  {
    SettledFind(t1, 0);
  }

  lemma ListedKind(t: Table, list: seq<Handle>, kind: Kind, h: Handle)
    requires ListSettled(t, list, kind) && h in list
    ensures h < |t.objects| && t.objects[h].kind == kind
  {
    var i: nat :| i < |list| && list[i] == h;
    assert IsFree(t, list[i], kind);
  }

  lemma DeletedArrayKind(t: Table, d: Handle)
    requires IdsSettled(t) && Within(t.names.arrays, |t.objects|) && d in CleanArrays(t).deleted
    ensures d < |t.objects| && IsBaseType(t.objects[d].kind)
  {
    DeletedArrays(t, d);
    ListedKind(t, t.names.arrays, Array, d);
  }

  lemma DeletedFunctionKind(t: Table, d: Handle)
    requires IdsSettled(t) && Within(t.names.funcList, |t.objects|) && d in CleanFunctions(t).deleted
    ensures d < |t.objects| && IsBaseType(t.objects[d].kind)
  {
    DeletedFunctions(t, d);
    ListedKind(t, t.names.funcList, Func, d);
  }

  lemma ArraysKeepKinds(t: Table)
    requires IdsSettled(t)
    ensures Within(t.names.arrays, |t.objects|)
    ensures CleanArrays(t).table.symbolIDMap == t.symbolIDMap && SameKinds(t, CleanArrays(t).table)
  {
    ArrayCleanup.PassObjects(t);
  }

  lemma FunctionsKeepKinds(t: Table)
    requires IdsSettled(t)
    ensures Within(t.names.funcList, |t.objects|)
    ensures CleanFunctions(t).table.symbolIDMap == t.symbolIDMap && SameKinds(t, CleanFunctions(t).table)
  {
    FunctionCleanup.PassObjects(t);
  }

  // So is every table that a clean-up leaves: types can be looked up after any number of passes.
  lemma CleanArraysIsNavigable(t: Table, dead: seq<Handle>)
    requires IdsSettled(t) && Navigable(t, dead)
    ensures Within(t.names.arrays, |t.objects|)
    ensures Navigable(CleanArrays(t).table, dead + CleanArrays(t).deleted)
  {
    hide Navigable, IdsSettled, SameKinds, CleanArrays;
    CleanArraysKeepsIds(t);
    ArraysKeepKinds(t);
    var c := CleanArrays(t);
    forall d <- c.deleted ensures d < |t.objects| && IsBaseType(t.objects[d].kind) { DeletedArrayKind(t, d); }
    NavigableAfter(t, c.table, dead, c.deleted);
  }

  lemma CleanFunctionsIsNavigable(t: Table, dead: seq<Handle>)
    requires IdsSettled(t) && Navigable(t, dead)
    ensures Within(t.names.funcList, |t.objects|)
    ensures Navigable(CleanFunctions(t).table, dead + CleanFunctions(t).deleted)
  {
    hide Navigable, IdsSettled, SameKinds, CleanFunctions;
    CleanFunctionsKeepsIds(t);
    FunctionsKeepKinds(t);
    var c := CleanFunctions(t);
    forall d <- c.deleted ensures d < |t.objects| && IsBaseType(t.objects[d].kind) { DeletedFunctionKind(t, d); }
    NavigableAfter(t, c.table, dead, c.deleted);
  }
}
