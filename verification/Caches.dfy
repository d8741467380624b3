/**
 The lazily cached base type of a referring type: whenever it is set it is what a fresh lookup of
 the type id would give.
 */
module Caches {
  import opened Basics
  import opened Dwarf
  import opened SymbolTable
  import opened Invariant
  import opened Runs
  import opened Parts

  ghost predicate CoherentAt(t: Table, h: Handle)
    requires h < |t.objects|
  {
    var x := t.objects[h];
    x.base.Some? ==>
      IsRefType(x.kind) && x.typ != 0 && Find(t, x.typ) == x.base
      && x.base.value < |t.objects| && IsBaseType(t.objects[x.base.value].kind)
  }

  ghost predicate Coherent(t: Table) {
    forall h: nat | h < |t.objects| :: CoherentAt(t, h)
  }

  // No visit touches the cached base types; a new object has none.
  ghost predicate BasesKept(t: Table, t1: Table) {
    |t.objects| <= |t1.objects|
    && (forall h: nat | h < |t.objects| :: t1.objects[h].base == t.objects[h].base)
    && (forall h: nat | |t.objects| <= h < |t1.objects| :: t1.objects[h].base == None)
  }

  lemma VisitKeepsBases(t: Table, place: Place, die: Die, parent: Option<Handle>)
    ensures match VisitDie(t, place, die, parent) case None => true case Some(v) => BasesKept(t, v.table)
  {
    VisitKeepsParts(t, place, die, parent);
  }

  // A cached base type stays right while the table grows.
  lemma CoherentCarries(t: Table, t1: Table)
    requires Inv(t) && Inv(t1) && Extends(t, t1) && BasesKept(t, t1) && Coherent(t)
    ensures Coherent(t1)
  {
    forall h: nat | h < |t1.objects| ensures CoherentAt(t1, h) {
      if h < |t.objects| { CoherentAtCarries(t, t1, h); }
    }
  }

  lemma CoherentAtCarries(t: Table, t1: Table, h: Handle)
    requires Inv(t) && Inv(t1) && Extends(t, t1) && BasesKept(t, t1) && h < |t.objects| && CoherentAt(t, h)
    ensures CoherentAt(t1, h)
  {
    if t.objects[h].base.Some? {
      assert SameIdentity(t.objects[h], t1.objects[h]);
      FindIsStable(t, t1, t.objects[h].typ);
      assert SameIdentity(t.objects[t.objects[h].base.value], t1.objects[t.objects[h].base.value]);
    }
  }

  lemma ResolveCoherent(t: Table, h: Handle)
    requires Coherent(t) && h < |t.objects| && ResolveBase(t, h).Some?
    ensures Coherent(ResolveBase(t, h).value)
  {
    var t1 := ResolveBase(t, h).value;
    forall g: nat | g < |t1.objects| ensures CoherentAt(t1, g) {
      assert CoherentAt(t, g);
    }
  }

  lemma LookupKeepsBases(s: State, op: Op)
    requires !op.Visit? && !op.Resolve? && Step(s, op).Some?
    ensures BasesKept(s.table, Step(s, op).value.table)
  {}

  lemma LookupCoherent(s: State, op: Op)
    requires Inv(s.table) && Coherent(s.table) && !op.Visit? && Step(s, op).Some?
    ensures Coherent(Step(s, op).value.table)
  {
    if op.Resolve? {
      ResolveCoherent(s.table, op.handle);
    } else {
      LookupKeeps(s, op);
      LookupKeepsBases(s, op);
      CoherentCarries(s.table, Step(s, op).value.table);
    }
  }

  lemma StepCoherent(hist: seq<Op>, s: State, op: Op)
    requires RunOk(hist, s) && Fresh(hist, op) && Coherent(s.table) && Step(s, op).Some?
    ensures Coherent(Step(s, op).value.table)
  {
    if op.Visit? {
      StepKeeps(hist, s, op);
      VisitKeepsBases(s.table, op.place, op.die, ParentSym(s.syms, op.parent));
      CoherentCarries(s.table, Step(s, op).value.table);
    } else {
      LookupCoherent(s, op);
    }
  }

  lemma {:induction false} ReplayCoherent(hist: seq<Op>, s: State, ops: seq<Op>)
    requires RunOk(hist, s) && DistinctKeys(hist + ops) && Coherent(s.table) && Replay(s, ops).Some?
    ensures Coherent(Replay(s, ops).value.table)
    decreases |ops|
  {
    if ops != [] {
      assert hist + [ops[0]] + ops[1..] == hist + ops;
      NewVisitIsFresh(hist, ops[0], ops[1..]);
      StepKeeps(hist, s, ops[0]);
      StepCoherent(hist, s, ops[0]);
      ReplayCoherent(hist + [ops[0]], Step(s, ops[0]).value, ops[1..]);
    }
  }

  // At every point of every run, whatever lookups filled the caches, the caches are right.
  lemma CachesAreCoherent(ops: seq<Op>, s: State)
    requires RunsTo(ops, s)
    ensures Coherent(s.table)
  {
    EmptyIsOk();
    assert [] + ops == ops;
    ReplayCoherent([], START, ops);
  }
}
