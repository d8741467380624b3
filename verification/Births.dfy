/**
 What an object keeps from the DIE that created it, over any run: its size, and a member its location.
 */
module Births {
  import opened Basics
  import opened Dwarf
  import opened SymbolTable
  import opened Invariant
  import opened Runs
  import opened Parts

  // The first visit that returned the object `h`.
  function Birth(ops: seq<Op>, syms: seq<Option<Handle>>, h: Handle): (op: Option<Op>)
    requires |ops| == |syms|
    ensures op.Some? ==> op.value.Visit?
  {
    if ops == [] then None
    else
      var n := |ops| - 1;
      var before := Birth(ops[..n], syms[..n], h);
      if before.Some? then before else if ops[n].Visit? && syms[n] == Some(h) then Some(ops[n]) else None
  }

  // The size of a new object, and the location of a new member.
  predicate IsAsBorn(x: Sym, die: Die) {
    && x.byteSize == (if x.kind == Pointer || x.kind == Array then 8 else die.byteSize % U32)
    && (x.kind == Member ==> x.location == match die.memberLocation case None => 0 case Some(l) => l % U32)
  }

  ghost predicate BornAgrees(hist: seq<Op>, s: State, h: Handle)
    requires |hist| == |s.syms| && h < |s.table.objects|
  {
    var birth := Birth(hist, s.syms, h);
    birth.Some? && IsAsBorn(s.table.objects[h], birth.value.die)
  }

  // The visit's new object, if there is one, is as its DIE says, and it is what the visit returned.
  ghost predicate BearsRight(t: Table, v: Visited, die: Die) {
    |t.objects| <= |v.table.objects| <= |t.objects| + 1
    && (|v.table.objects| > |t.objects| ==>
          v.sym == Some(|t.objects|) && IsAsBorn(v.table.objects[|t.objects|], die))
  }

  lemma TypeBears(t: Table, place: Place, die: Die, kind: Kind)
    requires kind in {Base, Struct, Union, Enum}
    ensures BearsRight(t, TypeInstance(t, place, die, kind), die)
  {}

  lemma NewRefBears(t: Table, place: Place, die: Die, kind: Kind)
    requires IsRefType(kind)
    ensures BearsRight(t, Visited(NewRefType(t, place, die, kind), Some(|t.objects|)), die)
  {}

  lemma RefBears(t: Table, place: Place, die: Die, kind: Kind)
    requires IsRefType(kind)
    ensures BearsRight(t, RefTypeInstance(t, place, die, kind), die)
  {
    NewRefBears(t, place, die, kind);
  }

  lemma FunctionBears(t: Table, place: Place, die: Die)
    ensures BearsRight(t, FunctionInstance(t, place, die), die)
  {}

  lemma VariableBears(t: Table, place: Place, die: Die)
    ensures BearsRight(t, VariableInstance(t, place, die), die)
  {}

  lemma MemberBears(t: Table, place: Place, die: Die, p: Handle)
    requires p < |t.objects|
    ensures BearsRight(t, AddMember(t, place, die, p), die)
  {}

  lemma VisitBears(t: Table, place: Place, die: Die, parent: Option<Handle>)
    ensures match VisitDie(t, place, die, parent) case None => true case Some(v) => BearsRight(t, v, die)
  {
    match die.tag
    case TypedefTag => RefBears(t, place, die, Typedef);
    case PointerTag => RefBears(t, place, die, Pointer);
    case ConstTag => RefBears(t, place, die, Const);
    case ArrayTag => NewRefBears(t, place, die, Array);
    case StructTag => TypeBears(t, place, die, Struct);
    case UnionTag => TypeBears(t, place, die, Union);
    case BaseTag => TypeBears(t, place, die, Base);
    case EnumTag => TypeBears(t, place, die, Enum);
    case SubprogramTag => FunctionBears(t, place, die);
    case VariableTag => VariableBears(t, place, die);
    case MemberTag =>
      var p := ParentOf(t, parent, IsStructured);
      if p.Some? { MemberBears(t, place, die, p.value); }
    case _ =>
  }

  // ---- members keep their location ----

  ghost predicate LocationsKept(t: Table, t1: Table) {
    |t.objects| <= |t1.objects| && forall g: nat | g < |t.objects| && t.objects[g].kind == Member ::
      t1.objects[g].location == t.objects[g].location
  }

  lemma VariableKeepsLocations(t: Table, place: Place, die: Die)
    requires IndexOk(t, t.names.variables, IsVariable)
    ensures LocationsKept(t, VariableInstance(t, place, die).table)
  {}

  lemma MemberKeepsLocations(t: Table, place: Place, die: Die, p: Handle)
    requires p < |t.objects|
    ensures LocationsKept(t, AddMember(t, place, die, p).table)
  {}

  lemma TypesKeepLocations(t: Table, place: Place, die: Die, kind: Kind)
    ensures LocationsKept(t, TypeInstance(t, place, die, kind).table)
    ensures LocationsKept(t, NewRefType(t, place, die, kind))
            && LocationsKept(t, RefTypeInstance(t, place, die, kind).table)
  {}

  lemma FunctionKeepsLocations(t: Table, place: Place, die: Die)
    ensures LocationsKept(t, FunctionInstance(t, place, die).table)
  {}

  lemma VisitKeepsLocations(t: Table, place: Place, die: Die, parent: Option<Handle>)
    requires IndexOk(t, t.names.variables, IsVariable)
    ensures match VisitDie(t, place, die, parent) case None => true case Some(v) => LocationsKept(t, v.table)
  {
    hide TypeInstance, RefTypeInstance, FunctionInstance, VariableInstance, NewRefType, AddMember;
    match die.tag
    case TypedefTag => TypesKeepLocations(t, place, die, Typedef);
    case PointerTag => TypesKeepLocations(t, place, die, Pointer);
    case ConstTag => TypesKeepLocations(t, place, die, Const);
    case ArrayTag => TypesKeepLocations(t, place, die, Array);
    case StructTag => TypesKeepLocations(t, place, die, Struct);
    case UnionTag => TypesKeepLocations(t, place, die, Union);
    case BaseTag => TypesKeepLocations(t, place, die, Base);
    case EnumTag => TypesKeepLocations(t, place, die, Enum);
    case SubprogramTag => FunctionKeepsLocations(t, place, die);
    case VariableTag => VariableKeepsLocations(t, place, die);
    case MemberTag =>
      var p := ParentOf(t, parent, IsStructured);
      if p.Some? { MemberKeepsLocations(t, place, die, p.value); }
    case _ =>
  }

  // ---- every step keeps what objects were born with ----

  lemma {:induction false} BirthGrows(hist: seq<Op>, syms: seq<Option<Handle>>, op: Op, sym: Option<Handle>, h: Handle)
    requires |hist| == |syms|
    ensures Birth(hist + [op], syms + [sym], h)
            == var before := Birth(hist, syms, h);
               if before.Some? then before else if op.Visit? && sym == Some(h) then Some(op) else None
  {
    assert (hist + [op])[..|hist|] == hist && (syms + [sym])[..|syms|] == syms;
  }

  lemma {:induction false} NotBornYet(hist: seq<Op>, syms: seq<Option<Handle>>, h: Handle)
    requires |hist| == |syms| && forall i | 0 <= i < |syms| :: syms[i] != Some(h)
    ensures Birth(hist, syms, h) == None
  {
    if hist != [] { NotBornYet(hist[..|hist| - 1], syms[..|syms| - 1], h); }
  }

  lemma LookupKeepsBorn(s: State, op: Op, h: Handle)
    requires !op.Visit? && Step(s, op).Some? && h < |s.table.objects|
    ensures var t1 := Step(s, op).value.table;
            |t1.objects| == |s.table.objects| && t1.objects[h].byteSize == s.table.objects[h].byteSize
            && t1.objects[h].location == s.table.objects[h].location && t1.objects[h].kind == s.table.objects[h].kind
  {}

  lemma OldKeepsBorn(s: State, op: Op, s1: State, h: Handle)
    requires Inv(s.table) && Step(s, op) == Some(s1) && Extends(s.table, s1.table) && h < |s.table.objects|
    ensures s1.table.objects[h].byteSize == s.table.objects[h].byteSize
            && s1.table.objects[h].kind == s.table.objects[h].kind
    ensures s.table.objects[h].kind == Member ==> s1.table.objects[h].location == s.table.objects[h].location
  {
    assert SameIdentity(s.table.objects[h], s1.table.objects[h]);
    if op.Visit? {
      VisitKeepsParts(s.table, op.place, op.die, ParentSym(s.syms, op.parent));
      VisitKeepsLocations(s.table, op.place, op.die, ParentSym(s.syms, op.parent));
      assert PartsKept(s.table.objects[h], s1.table.objects[h]);
    } else {
      LookupKeepsBorn(s, op, h);
    }
  }

  lemma NewIsBorn(hist: seq<Op>, s: State, op: Op, s1: State)
    requires SymsOk(hist, s) && Step(s, op) == Some(s1) && |s1.table.objects| > |s.table.objects|
    requires |s1.syms| == |s.syms| + 1 && s1.syms[..|s.syms|] == s.syms
    ensures |s1.table.objects| == |s.table.objects| + 1 && BornAgrees(hist + [op], s1, |s.table.objects|)
  {
    var h := |s.table.objects|;
    if !op.Visit? {
      LookupGrowsNothing(s, op);
      assert false;
    }
    VisitBears(s.table, op.place, op.die, ParentSym(s.syms, op.parent));
    assert s1.syms == s.syms + [Some(h)];
    NotBornYet(hist, s.syms, h);
    BirthGrows(hist, s.syms, op, Some(h), h);
  }

  lemma LookupGrowsNothing(s: State, op: Op)
    requires !op.Visit? && Step(s, op).Some?
    ensures |Step(s, op).value.table.objects| == |s.table.objects|
  {}

  ghost predicate AllBornAgree(hist: seq<Op>, s: State) {
    |hist| == |s.syms| && forall h: nat | h < |s.table.objects| :: BornAgrees(hist, s, h)
  }

  lemma StepBorn(hist: seq<Op>, s: State, op: Op)
    requires RunOk(hist, s) && Fresh(hist, op) && Step(s, op).Some? && AllBornAgree(hist, s)
    ensures AllBornAgree(hist + [op], Step(s, op).value)
  {
    StepKeeps(hist, s, op);
    OldAreBorn(hist, s, op, Step(s, op).value);
    if |Step(s, op).value.table.objects| > |s.table.objects| { NewIsBorn(hist, s, op, Step(s, op).value); }
    AllAreBorn(hist + [op], s, Step(s, op).value);
  }

  lemma OldAreBorn(hist: seq<Op>, s: State, op: Op, s1: State)
    requires Inv(s.table) && Step(s, op) == Some(s1) && Extends(s.table, s1.table) && AllBornAgree(hist, s)
    requires |s1.syms| == |s.syms| + 1 && s1.syms[..|s.syms|] == s.syms
    ensures forall h: nat | h < |s.table.objects| :: BornAgrees(hist + [op], s1, h)
  {
    forall h: nat | h < |s.table.objects| ensures BornAgrees(hist + [op], s1, h) { OldIsBorn(hist, s, op, s1, h); }
  }

  lemma AllAreBorn(hist1: seq<Op>, s: State, s1: State)
    requires |hist1| == |s1.syms| && |s.table.objects| <= |s1.table.objects| <= |s.table.objects| + 1
    requires forall h: nat | h < |s.table.objects| :: BornAgrees(hist1, s1, h)
    requires |s1.table.objects| > |s.table.objects| ==> BornAgrees(hist1, s1, |s.table.objects|)
    ensures AllBornAgree(hist1, s1)
  {}

  lemma OldIsBorn(hist: seq<Op>, s: State, op: Op, s1: State, h: Handle)
    requires |hist| == |s.syms| && Inv(s.table) && Step(s, op) == Some(s1) && Extends(s.table, s1.table)
    requires |s1.syms| == |s.syms| + 1 && s1.syms[..|s.syms|] == s.syms
    requires h < |s.table.objects| && BornAgrees(hist, s, h)
    ensures BornAgrees(hist + [op], s1, h)
  {
    var sym := s1.syms[|s.syms|];
    assert s1.syms == s.syms + [sym];
    OldKeepsBorn(s, op, s1, h);
    BirthGrows(hist, s.syms, op, sym, h);
  }

  lemma {:induction false} ReplayBorn(hist: seq<Op>, s: State, ops: seq<Op>)
    requires RunOk(hist, s) && DistinctKeys(hist + ops) && AllBornAgree(hist, s) && Replay(s, ops).Some?
    ensures AllBornAgree(hist + ops, Replay(s, ops).value)
    decreases |ops|
  {
    hide Step, RunOk, AllBornAgree;
    if ops == [] {
      assert hist + ops == hist;
    } else {
      assert hist + [ops[0]] + ops[1..] == hist + ops;
      NewVisitIsFresh(hist, ops[0], ops[1..]);
      StepKeeps(hist, s, ops[0]);
      StepBorn(hist, s, ops[0]);
      ReplayBorn(hist + [ops[0]], Step(s, ops[0]).value, ops[1..]);
    }
  }

  /**
   After any run every object has the size that the first visit which returned it gave, whatever was merged
   into it later, and a member has the location that visit gave.
   */
  lemma ObjectsAreAsBorn(ops: seq<Op>, s: State, h: Handle)
    requires RunsTo(ops, s) && h < |s.table.objects|
    ensures |ops| == |s.syms| && BornAgrees(ops, s, h)
  {
    EmptyIsOk();
    assert [] + ops == ops;
    ReplayBorn([], START, ops);
  }
}
