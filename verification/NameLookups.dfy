/**
 Lookups by name after a clean-up: the indexes by name keep the deleted objects, so that a lookup reads one
 exactly when a duplicate comes up to, or is, what it finds.
 */
module NameLookups {
  import opened SymbolTable
  import opened CleanupSpec
  import opened Sweeping
  import opened Duplicates
  import opened Instances

  // The objects that findBaseTypeByName<T> reads for a name.
  function TriedFor(t: Table, name: string, kind: Kind): seq<Handle> {
    CastsTried(t.objects, BaseTypesNamed(t.names, name), kind)
  }

  // The objects have the same classes.
  ghost predicate SameClasses(a: seq<Sym>, b: seq<Sym>) {
    |a| == |b| && forall h: nat | h < |a| :: a[h].kind == b[h].kind
  }

  lemma {:induction false} SameCasts(a: seq<Sym>, b: seq<Sym>, hs: seq<Handle>, kind: Kind)
    requires SameClasses(a, b)
    ensures CastsTried(a, hs, kind) == CastsTried(b, hs, kind) && FirstCast(a, hs, kind) == FirstCast(b, hs, kind)
  {
    if hs != [] { SameCasts(a, b, hs[1..], kind); }
  }

  // A lookup of a type by name reads a deleted object.
  ghost predicate ReadsDeleted(t: Table, dead: seq<Handle>, name: string, kind: Kind) {
    exists h :: h in TriedFor(t, name, kind) && h in dead
  }

  // After a pass that deletes `gone` the same objects are found and read.
  lemma {:induction false} ReadsAfter(t: Table, t1: Table, dead: seq<Handle>, gone: seq<Handle>, name: string,
                                      kind: Kind)
    requires t1.names.baseTypes == t.names.baseTypes && SameClasses(t.objects, t1.objects)
    ensures TriedFor(t1, name, kind) == TriedFor(t, name, kind)
    ensures FirstCast(t1.objects, BaseTypesNamed(t1.names, name), kind)
            == FirstCast(t.objects, BaseTypesNamed(t.names, name), kind)
    ensures ReadsDeleted(t1, dead + gone, name, kind)
            <==> ReadsDeleted(t, dead, name, kind) || ReadsDeleted(t, gone, name, kind)
  {
    SameCasts(t.objects, t1.objects, BaseTypesNamed(t.names, name), kind);
    if ReadsDeleted(t1, dead + gone, name, kind) {
      var h :| h in TriedFor(t1, name, kind) && h in dead + gone;
      assert h in dead || h in gone;
    }
    if ReadsDeleted(t, dead, name, kind) {
      var h :| h in TriedFor(t, name, kind) && h in dead;
      assert h in dead + gone;
    }
    if ReadsDeleted(t, gone, name, kind) {
      var h :| h in TriedFor(t, name, kind) && h in gone;
      assert h in dead + gone;
    }
  }

  /**
   After cleanArrays a lookup of a type by name finds what it found before; it reads a deleted object exactly
   when it did before or one of the objects up to the one it finds is a duplicate array.
   */
  lemma {:induction false} NameReadsDeletedArray(t: Table, dead: seq<Handle>, name: string, kind: Kind)
    requires Listed(t, t.names.arrays)
    ensures Within(t.names.arrays, |t.objects|)
    ensures var c := CleanArrays(t);
            && FirstCast(c.table.objects, BaseTypesNamed(c.table.names, name), kind)
               == FirstCast(t.objects, BaseTypesNamed(t.names, name), kind)
            && (ReadsDeleted(c.table, dead + c.deleted, name, kind) <==>
                ReadsDeleted(t, dead, name, kind)
                || exists h :: h in TriedFor(t, name, kind) && IsDuplicateArray(t, h))
  {
    var c := CleanArrays(t);
    ArrayCleanup.PassObjects(t);
    ReadsAfter(t, c.table, dead, c.deleted, name, kind);
    forall h: Handle ensures h in c.deleted <==> IsDuplicateArray(t, h) { DeletedArrays(t, h); }
  }

  // The same of cleanFunctions and duplicate functions.
  lemma {:induction false} NameReadsDeletedFunction(t: Table, dead: seq<Handle>, name: string, kind: Kind)
    requires Listed(t, t.names.funcList)
    ensures Within(t.names.funcList, |t.objects|)
    ensures var c := CleanFunctions(t);
            && FirstCast(c.table.objects, BaseTypesNamed(c.table.names, name), kind)
               == FirstCast(t.objects, BaseTypesNamed(t.names, name), kind)
            && (ReadsDeleted(c.table, dead + c.deleted, name, kind) <==>
                  ReadsDeleted(t, dead, name, kind)
                  || exists h :: h in TriedFor(t, name, kind) && IsDuplicateFunction(t, h))
  {
    var c := CleanFunctions(t);
    FunctionCleanup.PassObjects(t);
    ReadsAfter(t, c.table, dead, c.deleted, name, kind);
    forall h: Handle ensures h in c.deleted <==> IsDuplicateFunction(t, h) { DeletedFunctions(t, h); }
  }

  // The other indexes hold one object for a name: it is deleted exactly if it was a duplicate.
  lemma IndexHoldsDeletedArray(t: Table, name: string)
    requires Listed(t, t.names.arrays)
    ensures Within(t.names.arrays, |t.objects|)
    ensures var c := CleanArrays(t);
            && Named(c.table, c.table.names.refTypes, name) == Named(t, t.names.refTypes, name)
            && FirstNamed(c.table, name) == FirstNamed(t, name)
            && (Named(t, t.names.refTypes, name).Some? ==>
                  (Named(t, t.names.refTypes, name).value in c.deleted
                   <==> IsDuplicateArray(t, Named(t, t.names.refTypes, name).value)))
            && (FirstNamed(t, name).Some? ==>
                  (FirstNamed(t, name).value in c.deleted <==> IsDuplicateArray(t, FirstNamed(t, name).value)))
  {
    ArrayCleanup.PassObjects(t);
    var r, f := Named(t, t.names.refTypes, name), FirstNamed(t, name);
    if r.Some? { DeletedArrays(t, r.value); }
    if f.Some? { DeletedArrays(t, f.value); }
  }

  lemma IndexHoldsDeletedFunction(t: Table, name: string)
    requires Listed(t, t.names.funcList)
    ensures Within(t.names.funcList, |t.objects|)
    ensures var c := CleanFunctions(t);
            && Named(c.table, c.table.names.functions, name) == Named(t, t.names.functions, name)
            && FirstNamed(c.table, name) == FirstNamed(t, name)
            && (Named(t, t.names.functions, name).Some? ==>
                  (Named(t, t.names.functions, name).value in c.deleted
                   <==> IsDuplicateFunction(t, Named(t, t.names.functions, name).value)))
            && (FirstNamed(t, name).Some? ==>
                  (FirstNamed(t, name).value in c.deleted <==> IsDuplicateFunction(t, FirstNamed(t, name).value)))
  {
    FunctionCleanup.PassObjects(t);
    var r, f := Named(t, t.names.functions, name), FirstNamed(t, name);
    if r.Some? { DeletedFunctions(t, r.value); }
    if f.Some? { DeletedFunctions(t, f.value); }
  }
}
