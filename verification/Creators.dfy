/**
 Which DIE created the symbol that the visit of a DIE returns, told from the DIEs of the run alone: the
 first one of the name and class, but for reference types the last array of the name, if there is one.
 */
module Creators {
  import opened Basics
  import opened Dwarf
  import opened SymbolTable
  import opened Invariant
  import opened VisitKeeps
  import opened Runs

  // ---- the creating DIE ----

  // A visit of a DIE of one of the classes that register.
  predicate Registers(op: Op) {
    op.Visit? && Wanted(op.die).Some?
  }

  // A registering DIE of the name whose class casts to `kind`.
  predicate Offers(op: Op, name: string, kind: Kind) {
    Registers(op) && op.die.name == name && Casts(Wanted(op.die).value, kind)
  }

  predicate IsRefNamed(op: Op, name: string) {
    Registers(op) && op.die.name == name && IsRefType(Wanted(op.die).value)
  }

  predicate IsArrayNamed(op: Op, name: string) {
    op.Visit? && op.die.tag == ArrayTag && op.die.name == name
  }

  // The first DIE before operation `i` that offers `kind` under the name.
  function FirstOffer(ops: seq<Op>, i: nat, name: string, kind: Kind): (r: Option<nat>)
    requires i <= |ops|
    ensures match r
            case Some(j) => j < i && Offers(ops[j], name, kind) && forall k | 0 <= k < j :: !Offers(ops[k], name, kind)
            case None => forall k | 0 <= k < i :: !Offers(ops[k], name, kind)
  {
    if i == 0 then None
    else
      var r := FirstOffer(ops, i - 1, name, kind);
      if r.Some? then r else if Offers(ops[i - 1], name, kind) then Some(i - 1) else None
  }

  function FirstRef(ops: seq<Op>, i: nat, name: string): (r: Option<nat>)
    requires i <= |ops|
    ensures match r
            case Some(j) => j < i && IsRefNamed(ops[j], name) && forall k | 0 <= k < j :: !IsRefNamed(ops[k], name)
            case None => forall k | 0 <= k < i :: !IsRefNamed(ops[k], name)
  {
    if i == 0 then None
    else
      var r := FirstRef(ops, i - 1, name);
      if r.Some? then r else if IsRefNamed(ops[i - 1], name) then Some(i - 1) else None
  }

  function LastArray(ops: seq<Op>, i: nat, name: string): (r: Option<nat>)
    requires i <= |ops|
    ensures match r
            case Some(j) => j < i && IsArrayNamed(ops[j], name) && forall k | j < k < i :: !IsArrayNamed(ops[k], name)
            case None => forall k | 0 <= k < i :: !IsArrayNamed(ops[k], name)
  {
    if i == 0 then None
    else if IsArrayNamed(ops[i - 1], name) then Some(i - 1)
    else LastArray(ops, i - 1, name)
  }

  // The DIE whose object the index of reference types holds for the name before operation `i`.
  function RefIndex(ops: seq<Op>, i: nat, name: string): (r: Option<nat>)
    requires i <= |ops|
    ensures r.Some? ==> r.value < i && IsRefNamed(ops[r.value], name)
    ensures r.None? ==> forall k | 0 <= k < i :: !IsRefNamed(ops[k], name)
  {
    if LastArray(ops, i, name).Some? then LastArray(ops, i, name) else FirstRef(ops, i, name)
  }

  // The operation whose DIE created the symbol of the DIE of operation `i`; none if the visit returns none.
  function Creator(ops: seq<Op>, i: nat): (r: Option<nat>)
    requires i < |ops| && Registers(ops[i])
    ensures r.Some? ==> r.value <= i && Registers(ops[r.value]) && ops[r.value].die.name == ops[i].die.name
                        && Casts(Wanted(ops[r.value].die).value, Wanted(ops[i].die).value)
  {
    var name, kind := ops[i].die.name, Wanted(ops[i].die).value;
    if name == "" || kind == Array then Some(i)
    else if IsRefType(kind) then
      match RefIndex(ops, i, name)
      case None => Some(i)
      case Some(j) => if Casts(Wanted(ops[j].die).value, kind) then Some(j) else None
    else
      match FirstOffer(ops, i, name, kind)
      case None => Some(i)
      case Some(j) => Some(j)
  }

  // ---- objects and the operations that created them ----

  // An object is created once.
  lemma CreatedOnce(ops: seq<Op>, s: State, j: nat, k: nat, h: Handle)
    requires RunsTo(ops, s) && Created(ops, s, j, h) && Created(ops, s, k, h)
    ensures j == k
  {
    RunKeepsTable(ops, s);
    SameKey(s.table.ids, DieKey(ops[j].place, ops[j].die), DieKey(ops[k].place, ops[k].die));
  }

  lemma SameKey(ids: Ids, a: Key, b: Key)
    requires IdsOk(ids) && a in ids.byKey && b in ids.byKey && ids.byKey[a] == ids.byKey[b]
    ensures a == b
  {}

  // Objects are as old as the operations that created them.
  lemma CreatedInOrder(ops: seq<Op>, s: State, j: nat, g: Handle, k: nat, h: Handle)
    requires RunsTo(ops, s) && Created(ops, s, j, g) && Created(ops, s, k, h)
    ensures g < h <==> j < k
  {
    if j < k { CreationOrder(ops, s, k, h, j); }
    if k < j { CreationOrder(ops, s, j, g, k); }
  }

  // `mid` is the state of the run before operation `i`.
  ghost predicate IsBefore(ops: seq<Op>, s: State, i: nat, mid: State) {
    i <= |ops| == |s.syms| && RunsTo(ops, s) && RunsTo(ops[..i], mid) && RunOk(ops[..i], mid)
    && Extends(mid.table, s.table) && mid.syms == s.syms[..i]
  }

  lemma StateBefore(ops: seq<Op>, s: State, i: nat) returns (mid: State)
    requires RunsTo(ops, s) && i <= |ops|
    ensures IsBefore(ops, s, i, mid)
  {
    mid := RunSplits(ops, s, i);
  }

  // Two successive states.
  lemma StepBetween(ops: seq<Op>, i: nat, mid: State, next: State)
    requires i < |ops| && Replay(START, ops[..i]) == Some(mid) && Replay(START, ops[..i + 1]) == Some(next)
    ensures Step(mid, ops[i]) == Some(next)
  {
    assert ops[..i + 1] == ops[..i] + [ops[i]];
    ReplaySnoc(START, ops[..i], ops[i]);
  }

  lemma StepAt(ops: seq<Op>, s: State, i: nat) returns (mid: State, next: State)
    requires RunsTo(ops, s) && i < |ops|
    ensures IsBefore(ops, s, i, mid) && IsBefore(ops, s, i + 1, next) && Step(mid, ops[i]) == Some(next)
  {
    mid := StateBefore(ops, s, i);
    next := StateBefore(ops, s, i + 1);
    StepBetween(ops, i, mid, next);
  }

  // The operation that created an object of a registering class, before operation `i`.
  lemma MakerOf(ops: seq<Op>, s: State, i: nat, mid: State, h: Handle) returns (j: nat)
    requires IsBefore(ops, s, i, mid) && h < |mid.table.objects| && mid.table.objects[h].kind != Member
    ensures j < i && Created(ops, s, j, h) && Registers(ops[j])
    ensures Wanted(ops[j].die) == Some(mid.table.objects[h].kind) && ops[j].die.name == mid.table.objects[h].name
    ensures h < |s.table.objects| && SameIdentity(mid.table.objects[h], s.table.objects[h])
  {
    assert IsCreated(ops[..i], mid, h);
    j :| Created(ops[..i], mid, j, h);
    CreatedPersists(ops[..i], mid, ops, s, j, h);
  }

  // What an operation before `i` created is there before operation `i`.
  lemma MadeBefore(ops: seq<Op>, s: State, i: nat, mid: State, j: nat, h: Handle)
    requires IsBefore(ops, s, i, mid) && j < i && Created(ops, s, j, h) && Registers(ops[j])
    ensures h < |mid.table.objects| && mid.table.objects[h].name == ops[j].die.name
    ensures Wanted(ops[j].die) == Some(mid.table.objects[h].kind)
  {
    hide Replay, Inv;
    RunKeepsTable(ops, s);
    assert mid.syms[j] == Some(h);
    assert SameIdentity(mid.table.objects[h], s.table.objects[h]);
  }

  // Operation `j` created the object `h`, which is as `x`.
  ghost predicate IsMaker(ops: seq<Op>, s: State, i: nat, x: Sym, h: Handle, j: nat) {
    && j < i <= |ops| && Created(ops, s, j, h) && Registers(ops[j])
    && Wanted(ops[j].die) == Some(x.kind) && ops[j].die.name == x.name
  }

  ghost predicate HasMaker(ops: seq<Op>, s: State, i: nat, x: Sym, h: Handle) {
    exists j: nat :: IsMaker(ops, s, i, x, h, j)
  }

  // The objects of the table `t`, but for members, are those that operations before `i` created.
  ghost predicate MadeFrom(ops: seq<Op>, s: State, i: nat, t: Table) {
    (forall h: nat | h < |t.objects| && t.objects[h].kind != Member :: HasMaker(ops, s, i, t.objects[h], h))
    && forall j: nat, h: nat | j < i <= |ops| && Created(ops, s, j, h) && Registers(ops[j]) ::
         h < |t.objects| && IsMaker(ops, s, i, t.objects[h], h, j)
  }

  lemma BeforeIsMade(ops: seq<Op>, s: State, i: nat, mid: State)
    requires IsBefore(ops, s, i, mid)
    ensures MadeFrom(ops, s, i, mid.table)
  {
    forall h: nat | h < |mid.table.objects| && mid.table.objects[h].kind != Member
      ensures HasMaker(ops, s, i, mid.table.objects[h], h)
    {
      var j := MakerOf(ops, s, i, mid, h);
      assert IsMaker(ops, s, i, mid.table.objects[h], h, j);
    }
    forall j: nat, h: nat | j < i <= |ops| && Created(ops, s, j, h) && Registers(ops[j])
      ensures h < |mid.table.objects| && IsMaker(ops, s, i, mid.table.objects[h], h, j)
    {
      MadeBefore(ops, s, i, mid, j, h);
    }
  }

  lemma TheMaker(ops: seq<Op>, s: State, i: nat, t: Table, h: Handle) returns (j: nat)
    requires MadeFrom(ops, s, i, t) && h < |t.objects| && t.objects[h].kind != Member
    ensures IsMaker(ops, s, i, t.objects[h], h, j)
  {
    assert HasMaker(ops, s, i, t.objects[h], h);
    j :| IsMaker(ops, s, i, t.objects[h], h, j);
  }

  // A visit after which there is one more object created it.
  lemma NewIsCreated(ops: seq<Op>, s: State, i: nat, mid: State, next: State)
    requires IsBefore(ops, s, i, mid) && i < |ops| && IsBefore(ops, s, i + 1, next) && Step(mid, ops[i]) == Some(next)
    requires ops[i].Visit? && |next.table.objects| > |mid.table.objects|
    ensures s.syms[i] == Some(|mid.table.objects|) && Created(ops, s, i, |mid.table.objects|)
  {
    var op, h := ops[i], |mid.table.objects|;
    VisitCreates(mid.table, op.place, op.die, ParentSym(mid.syms, op.parent));
    assert next.syms[i] == Some(h) == s.syms[i];
    assert Created(ops[..i + 1], next, i, h);
    CreatedPersists(ops[..i + 1], next, ops, s, i, h);
  }

  // ---- what a visit finds in the table ----

  ghost predicate IsA(t: Table, h: Handle, name: string, kind: Kind) {
    h < |t.objects| && t.objects[h].name == name && Casts(t.objects[h].kind, kind)
  }

  // The first cast of a list of handles is the first in the list.
  lemma {:induction false} FirstCastIsFirst(objects: seq<Sym>, hs: seq<Handle>, kind: Kind, i: nat)
    requires i < |hs| && hs[i] < |objects| && Casts(objects[hs[i]].kind, kind) && IsAscending(hs)
    ensures FirstCast(objects, hs, kind).Some? && FirstCast(objects, hs, kind).value <= hs[i]
  {
    if i > 0 && !(hs[0] < |objects| && Casts(objects[hs[0]].kind, kind)) {
      assert IsAscending(hs[1..]);
      FirstCastIsFirst(objects, hs[1..], kind, i - 1);
    }
  }

  // The types found by name are the oldest ones.
  lemma {:induction false} OldestIsFound(t: Table, name: string, kind: Kind)
    requires Inv(t) && name != "" && IsBaseType(kind)
    ensures match FirstCast(t.objects, BaseTypesNamed(t.names, name), kind)
            case None => forall h: nat :: !IsA(t, h, name, kind)
            case Some(h) => IsA(t, h, name, kind) && forall g: nat | IsA(t, g, name, kind) :: h <= g
  {
    var hs := BaseTypesNamed(t.names, name);
    forall g: nat | IsA(t, g, name, kind)
      ensures FirstCast(t.objects, hs, kind).Some? && FirstCast(t.objects, hs, kind).value <= g
    {
      assert g in hs && IsAscending(hs);
      var i: nat :| i < |hs| && hs[i] == g;
      FirstCastIsFirst(t.objects, hs, kind, i);
    }
    BaseLookup(t, name, kind);
  }

  // A variable found by name is the only one of its name.
  lemma VariableIsFound(t: Table, name: string)
    requires Inv(t)
    ensures match Named(t, t.names.variables, name)
            case None => name != "" ==> forall h: nat :: !IsA(t, h, name, Var)
            case Some(h) => name != "" && IsA(t, h, name, Var) && forall g: nat | IsA(t, g, name, Var) :: g == h
  {}

  // A reference type found by name is the youngest one of its name.
  lemma YoungestIsFound(t: Table, name: string)
    requires Inv(t)
    ensures IsYoungestRef(t, name, Named(t, t.names.refTypes, name))
  {}

  // ---- the theorem ----

  // What the theorem says of operation `i`.
  ghost predicate CreatorRight(ops: seq<Op>, s: State, i: nat)
    requires i < |ops| == |s.syms| && Registers(ops[i])
  {
    match Creator(ops, i)
    case None => s.syms[i] == None
    case Some(j) => j <= i && s.syms[j] == s.syms[i] && s.syms[i].Some? && Created(ops, s, j, s.syms[i].value)
  }

  // What the lookup by name finds for a class that is no reference type.
  function LookUp(t: Table, name: string, kind: Kind): Option<Handle> {
    if kind == Var then Named(t, t.names.variables, name) else FirstCast(t.objects, BaseTypesNamed(t.names, name), kind)
  }

  // `found` is the oldest object of the name and class, if there is one.
  ghost predicate IsOldest(t: Table, name: string, kind: Kind, found: Option<Handle>) {
    match found
    case None => name != "" ==> forall h: nat :: !IsA(t, h, name, kind)
    case Some(h) => name != "" && IsA(t, h, name, kind) && forall g: nat | IsA(t, g, name, kind) :: h <= g
  }

  lemma {:induction false} LookUpIsOldest(t: Table, name: string, kind: Kind)
    requires Inv(t) && (IsBaseType(kind) || kind == Var)
    ensures IsOldest(t, name, kind, LookUp(t, name, kind))
  {
    VariableIsFound(t, name);
    if kind != Var {
      if name == "" { assert BaseTypesNamed(t.names, name) == []; } else { OldestIsFound(t, name, kind); }
    }
  }

  // The visit returned `found`, or a new object if there is none.
  ghost predicate ReturnsFound(t: Table, v: Visited, found: Option<Handle>) {
    if found.None? then |v.table.objects| > |t.objects| else v.sym == found
  }

  lemma TypeReturns(t: Table, place: Place, die: Die, kind: Kind)
    requires kind != Var
    ensures ReturnsFound(t, TypeInstance(t, place, die, kind), LookUp(t, die.name, kind))
  {}

  lemma FunctionReturns(t: Table, place: Place, die: Die)
    ensures ReturnsFound(t, FunctionInstance(t, place, die), LookUp(t, die.name, Func))
  {}

  lemma VariableReturns(t: Table, place: Place, die: Die)
    ensures ReturnsFound(t, VariableInstance(t, place, die), LookUp(t, die.name, Var))
  {}

  // A visit for a class that is no reference type returns what the lookup finds, or a new object.
  lemma VisitLooksUp(t: Table, place: Place, die: Die, parent: Option<Handle>)
    requires Wanted(die).Some? && !IsRefType(Wanted(die).value)
    ensures match VisitDie(t, place, die, parent)
            case None => true
            case Some(v) => ReturnsFound(t, v, LookUp(t, die.name, Wanted(die).value))
  {
    hide TypeInstance, FunctionInstance, VariableInstance, ReturnsFound, LookUp;
    match die.tag
    case StructTag => TypeReturns(t, place, die, Struct);
    case UnionTag => TypeReturns(t, place, die, Union);
    case BaseTag => TypeReturns(t, place, die, Base);
    case EnumTag => TypeReturns(t, place, die, Enum);
    case SubprogramTag => FunctionReturns(t, place, die);
    case VariableTag => VariableReturns(t, place, die);
  }

  // The state before a visit, and what the visit made of it.
  lemma VisitOf(ops: seq<Op>, s: State, i: nat) returns (mid: State, v: Visited)
    requires RunsTo(ops, s) && i < |ops| && Registers(ops[i])
    ensures IsBefore(ops, s, i, mid) && Inv(mid.table)
    ensures VisitDie(mid.table, ops[i].place, ops[i].die, ParentSym(mid.syms, ops[i].parent)) == Some(v)
    ensures |s.syms| == |ops| && s.syms[i] == v.sym
    ensures |v.table.objects| > |mid.table.objects| ==> s.syms[i].Some? && Created(ops, s, i, s.syms[i].value)
  {
    var next: State;
    mid, next := StepAt(ops, s, i);
    v := Visited(next.table, next.syms[i]);
    StepVisits(mid, ops[i], next);
    if |v.table.objects| > |mid.table.objects| { NewIsCreated(ops, s, i, mid, next); }
  }

  lemma OtherVisit(ops: seq<Op>, s: State, i: nat) returns (mid: State, v: Visited)
    requires RunsTo(ops, s) && i < |ops| && Registers(ops[i]) && !IsRefType(Wanted(ops[i].die).value)
    ensures IsBefore(ops, s, i, mid) && Inv(mid.table) && |s.syms| == |ops| && s.syms[i] == v.sym
    ensures |v.table.objects| > |mid.table.objects| ==> CreatedThere(ops, s, i)
    ensures ReturnsFound(mid.table, v, LookUp(mid.table, ops[i].die.name, Wanted(ops[i].die).value))
  {
    mid, v := VisitOf(ops, s, i);
    VisitLooksUp(mid.table, ops[i].place, ops[i].die, ParentSym(mid.syms, ops[i].parent));
  }

  lemma WantedIsRegistered(die: Die)
    requires Wanted(die).Some?
    ensures IsBaseType(Wanted(die).value) || Wanted(die) == Some(Var)
  {}

  // What the lookup of a visit found, and what the visit returned.
  lemma VisitFinds(ops: seq<Op>, s: State, i: nat, name: string, kind: Kind) returns (t: Table, found: Option<Handle>)
    requires RunsTo(ops, s) && i < |ops| && Registers(ops[i])
    requires name == ops[i].die.name && Wanted(ops[i].die) == Some(kind) && !IsRefType(kind)
    ensures |s.syms| == |ops| && MadeFrom(ops, s, i, t) && IsOldest(t, name, kind, found)
    ensures if found.Some? then s.syms[i] == found else CreatedThere(ops, s, i)
  {
    hide VisitDie, Inv, Replay, MadeFrom, IsOldest;
    WantedIsRegistered(ops[i].die);
    var mid, v := OtherVisit(ops, s, i);
    BeforeIsMade(ops, s, i, mid);
    t, found := mid.table, LookUp(mid.table, name, kind);
    LookUpIsOldest(t, name, kind);
  }

  lemma StepVisits(s: State, op: Op, s1: State)
    requires op.Visit? && Step(s, op) == Some(s1)
    ensures |s1.syms| == |s.syms| + 1
    ensures VisitDie(s.table, op.place, op.die, ParentSym(s.syms, op.parent))
            == Some(Visited(s1.table, s1.syms[|s.syms|]))
  {}

  // The first DIE that offers a class created what it returned.
  lemma {:induction false} FirstOfferCreates(ops: seq<Op>, i: nat, name: string, kind: Kind)
    requires i <= |ops| && FirstOffer(ops, i, name, kind).Some? && name != "" && (kind == Var || IsBaseType(kind))
    requires !IsRefType(kind)
    ensures var j := FirstOffer(ops, i, name, kind).value; Creator(ops, j) == Some(j)
  {
    var j := FirstOffer(ops, i, name, kind).value;
    var k := Wanted(ops[j].die).value;
    if IsRefType(k) && RefIndex(ops, j, name).Some? {
      assert Offers(ops[RefIndex(ops, j, name).value], name, kind);
    }
  }

  lemma OfferedIsFound(ops: seq<Op>, s: State, i: nat, t: Table, name: string, kind: Kind, j: nat,
                       found: Option<Handle>)
    requires RunsTo(ops, s) && MadeFrom(ops, s, i, t) && name != "" && kind != Member
    requires IsOldest(t, name, kind, found) && i <= |ops| && j < i && Offers(ops[j], name, kind)
    requires forall k | 0 <= k < j :: !Offers(ops[k], name, kind)
    requires j < |s.syms| && s.syms[j].Some? && Created(ops, s, j, s.syms[j].value)
    ensures found == s.syms[j]
  {
    var g := s.syms[j].value;
    assert IsMaker(ops, s, i, t.objects[g], g, j);
    assert IsA(t, g, name, kind);
    var k := TheMaker(ops, s, i, t, found.value);
    assert Offers(ops[k], name, kind);
    CreatedInOrder(ops, s, k, found.value, j, g);
  }

  lemma NothingIsFound(ops: seq<Op>, s: State, i: nat, t: Table, name: string, kind: Kind, found: Option<Handle>)
    requires MadeFrom(ops, s, i, t) && IsOldest(t, name, kind, found) && kind != Member && i <= |ops|
    requires name == "" || forall k | 0 <= k < i :: !Offers(ops[k], name, kind)
    ensures found == None
  {
    if found.Some? {
      var k := TheMaker(ops, s, i, t, found.value);
      assert Offers(ops[k], name, kind);
    }
  }

  // The same for reference types: `found` is the youngest of the name.
  ghost predicate IsYoungestRef(t: Table, name: string, found: Option<Handle>) {
    match found
    case None => name != "" ==> forall h: nat | h < |t.objects| && IsRefType(t.objects[h].kind) ::
      t.objects[h].name != name
    case Some(h) =>
      && name != "" && h < |t.objects| && IsRefType(t.objects[h].kind) && t.objects[h].name == name
      && forall g: nat | g < |t.objects| && IsRefType(t.objects[g].kind) && t.objects[g].name == name :: g <= h
  }

  // The visit of a typedef, pointer or const DIE returned `found` if it casts, or a new object if there is
  // none; that of an array DIE always returned a new one.
  ghost predicate ReturnsRef(t: Table, v: Visited, kind: Kind, found: Option<Handle>) {
    match found
    case None => |v.table.objects| > |t.objects|
    case Some(h) =>
      h < |t.objects| && if kind == Array then |v.table.objects| > |t.objects|
                         else v.sym == if Casts(t.objects[h].kind, kind) then found else None
  }

  lemma RefReturns(t: Table, place: Place, die: Die, kind: Kind)
    requires kind != Array
    ensures ReturnsRef(t, RefTypeInstance(t, place, die, kind), kind, Named(t, t.names.refTypes, die.name))
  {}

  lemma ArrayReturns(t: Table, place: Place, die: Die)
    ensures ReturnsRef(t, Visited(NewRefType(t, place, die, Array), Some(|t.objects|)), Array,
                       Named(t, t.names.refTypes, die.name))
  {}

  lemma VisitLooksUpRef(t: Table, place: Place, die: Die, parent: Option<Handle>)
    requires Wanted(die).Some? && IsRefType(Wanted(die).value)
    ensures match VisitDie(t, place, die, parent)
            case None => true
            case Some(v) => ReturnsRef(t, v, Wanted(die).value, Named(t, t.names.refTypes, die.name))
  {
    hide RefTypeInstance, NewRefType, ReturnsRef, Named;
    match die.tag
    case TypedefTag => RefReturns(t, place, die, Typedef);
    case PointerTag => RefReturns(t, place, die, Pointer);
    case ConstTag => RefReturns(t, place, die, Const);
    case ArrayTag => ArrayReturns(t, place, die);
  }

  lemma RefVisit(ops: seq<Op>, s: State, i: nat) returns (mid: State, v: Visited)
    requires RunsTo(ops, s) && i < |ops| && Registers(ops[i]) && IsRefType(Wanted(ops[i].die).value)
    ensures IsBefore(ops, s, i, mid) && Inv(mid.table) && |s.syms| == |ops| && s.syms[i] == v.sym
    ensures |v.table.objects| > |mid.table.objects| ==> CreatedThere(ops, s, i)
    ensures ReturnsRef(mid.table, v, Wanted(ops[i].die).value,
            Named(mid.table, mid.table.names.refTypes, ops[i].die.name))
  {
    mid, v := VisitOf(ops, s, i);
    VisitLooksUpRef(mid.table, ops[i].place, ops[i].die, ParentSym(mid.syms, ops[i].parent));
  }

  lemma VisitFindsRef(ops: seq<Op>, s: State, i: nat, name: string, kind: Kind)
      returns (t: Table, found: Option<Handle>)
    requires RunsTo(ops, s) && i < |ops| && Registers(ops[i])
    requires name == ops[i].die.name && Wanted(ops[i].die) == Some(kind) && IsRefType(kind)
    ensures |s.syms| == |ops| && MadeFrom(ops, s, i, t) && IsYoungestRef(t, name, found)
    ensures kind == Array || found.None? ==> CreatedThere(ops, s, i)
    ensures kind != Array && found.Some? ==>
              found.value < |t.objects| && s.syms[i] == if Casts(t.objects[found.value].kind, kind) then found else None
  {
    hide VisitDie, Inv, Replay, MadeFrom, IsYoungestRef;
    var mid, v := RefVisit(ops, s, i);
    BeforeIsMade(ops, s, i, mid);
    t, found := mid.table, Named(mid.table, mid.table.names.refTypes, name);
    YoungestIsFound(t, name);
  }

  lemma NoRefIsFound(ops: seq<Op>, s: State, i: nat, t: Table, name: string, found: Option<Handle>)
    requires MadeFrom(ops, s, i, t) && IsYoungestRef(t, name, found) && i <= |ops|
    requires name == "" || forall k | 0 <= k < i :: !IsRefNamed(ops[k], name)
    ensures found == None
  {
    if found.Some? {
      var k := TheMaker(ops, s, i, t, found.value);
      assert IsRefNamed(ops[k], name);
    }
  }

  // The DIE in the index created its object, and a later one before operation `i` creates none.
  lemma IndexedCreates(ops: seq<Op>, i: nat, name: string)
    requires i <= |ops| && RefIndex(ops, i, name).Some? && name != ""
    ensures Creator(ops, RefIndex(ops, i, name).value) == RefIndex(ops, i, name)
    ensures forall k: nat | RefIndex(ops, i, name).value < k < i && IsRefNamed(ops[k], name) ::
            Creator(ops, k) != Some(k)
  {
    var j := RefIndex(ops, i, name).value;
    if LastArray(ops, i, name).None? {
      assert LastArray(ops, j, name).None? && FirstRef(ops, j, name).None?;
    }
    forall k: nat | j < k < i && IsRefNamed(ops[k], name) ensures Creator(ops, k) != Some(k) {
      assert RefIndex(ops, k, name).Some?;
    }
  }

  lemma IndexedIsFound(ops: seq<Op>, s: State, i: nat, t: Table, name: string, j: nat, found: Option<Handle>)
    requires RunsTo(ops, s) && MadeFrom(ops, s, i, t) && name != "" && i <= |ops| == |s.syms|
    requires IsYoungestRef(t, name, found) && j < i && IsRefNamed(ops[j], name) && CreatedThere(ops, s, j)
    requires forall k: nat | j < k < i && IsRefNamed(ops[k], name) ::
             CreatorRight(ops, s, k) && Creator(ops, k) != Some(k)
    ensures found == s.syms[j] && found.value < |t.objects| && Wanted(ops[j].die) == Some(t.objects[found.value].kind)
  {
    var g := s.syms[j].value;
    assert IsMaker(ops, s, i, t.objects[g], g, j);
    var k := TheMaker(ops, s, i, t, found.value);
    assert IsRefNamed(ops[k], name);
    NoneIsYounger(ops, s, j, g, k, found.value);
  }

  lemma NoneIsYounger(ops: seq<Op>, s: State, j: nat, g: Handle, k: nat, h: Handle)
    requires RunsTo(ops, s) && Created(ops, s, j, g) && Created(ops, s, k, h) && g <= h && Registers(ops[k])
    requires k > j ==> CreatorRight(ops, s, k) && Creator(ops, k) != Some(k)
    ensures g == h
  {
    CreatedInOrder(ops, s, j, g, k, h);
    if k > j { CreatorIsItself(ops, s, k, h); }
  }

  // Operation `j` created what it returned.
  ghost predicate CreatedThere(ops: seq<Op>, s: State, j: nat) {
    j < |ops| == |s.syms| && s.syms[j].Some? && Created(ops, s, j, s.syms[j].value)
  }

  lemma CreatorIsItself(ops: seq<Op>, s: State, k: nat, h: Handle)
    requires RunsTo(ops, s) && k < |ops| == |s.syms| && Registers(ops[k]) && CreatorRight(ops, s, k)
             && Created(ops, s, k, h)
    ensures Creator(ops, k) == Some(k)
  {
    var j := Creator(ops, k);
    if j.Some? { CreatedOnce(ops, s, j.value, k, h); }
  }

  lemma NewOffer(ops: seq<Op>, s: State, i: nat, name: string, kind: Kind)
    requires RunsTo(ops, s) && i < |ops| && Registers(ops[i])
    requires name == ops[i].die.name && Wanted(ops[i].die) == Some(kind) && !IsRefType(kind)
    requires name == "" || forall k | 0 <= k < i :: !Offers(ops[k], name, kind)
    ensures CreatedThere(ops, s, i)
  {
    var t, found := VisitFinds(ops, s, i, name, kind);
    NothingIsFound(ops, s, i, t, name, kind, found);
  }

  lemma OldOffer(ops: seq<Op>, s: State, i: nat, name: string, kind: Kind, j: nat)
    requires RunsTo(ops, s) && i < |ops| == |s.syms| && Registers(ops[i])
    requires name == ops[i].die.name != "" && Wanted(ops[i].die) == Some(kind) && !IsRefType(kind)
    requires j < i && Offers(ops[j], name, kind) && CreatedThere(ops, s, j)
    requires forall k | 0 <= k < j :: !Offers(ops[k], name, kind)
    ensures s.syms[i] == s.syms[j]
  {
    var t, found := VisitFinds(ops, s, i, name, kind);
    OfferedIsFound(ops, s, i, t, name, kind, j, found);
  }

  lemma OfferStep(ops: seq<Op>, s: State, i: nat)
    requires RunsTo(ops, s) && i < |ops| == |s.syms| && Registers(ops[i]) && !IsRefType(Wanted(ops[i].die).value)
    requires forall k: nat | k < i && Registers(ops[k]) :: CreatorRight(ops, s, k)
    ensures CreatorRight(ops, s, i)
  {
    var name, kind := ops[i].die.name, Wanted(ops[i].die).value;
    var first := FirstOffer(ops, i, name, kind);
    if name == "" || first.None? {
      NewOffer(ops, s, i, name, kind);
    } else {
      FirstOfferCreates(ops, i, name, kind);
      assert CreatorRight(ops, s, first.value);
      OldOffer(ops, s, i, name, kind, first.value);
    }
  }

  lemma NewRef(ops: seq<Op>, s: State, i: nat, name: string, kind: Kind)
    requires RunsTo(ops, s) && i < |ops| && Registers(ops[i])
    requires name == ops[i].die.name && Wanted(ops[i].die) == Some(kind) && IsRefType(kind)
    requires kind == Array || name == "" || forall k | 0 <= k < i :: !IsRefNamed(ops[k], name)
    ensures CreatedThere(ops, s, i)
  {
    var t, found := VisitFindsRef(ops, s, i, name, kind);
    if kind != Array { NoRefIsFound(ops, s, i, t, name, found); }
  }

  lemma OldRef(ops: seq<Op>, s: State, i: nat, name: string, kind: Kind, j: nat)
    requires RunsTo(ops, s) && i < |ops| == |s.syms| && Registers(ops[i])
    requires name == ops[i].die.name != "" && Wanted(ops[i].die) == Some(kind) && IsRefType(kind) && kind != Array
    requires j < i && IsRefNamed(ops[j], name) && CreatedThere(ops, s, j)
    requires forall k: nat | j < k < i && IsRefNamed(ops[k], name) ::
             CreatorRight(ops, s, k) && Creator(ops, k) != Some(k)
    ensures s.syms[i] == if Casts(Wanted(ops[j].die).value, kind) then s.syms[j] else None
  {
    var t, found := VisitFindsRef(ops, s, i, name, kind);
    IndexedIsFound(ops, s, i, t, name, j, found);
  }

  lemma RefStep(ops: seq<Op>, s: State, i: nat)
    requires RunsTo(ops, s) && i < |ops| == |s.syms| && Registers(ops[i]) && IsRefType(Wanted(ops[i].die).value)
    requires forall k: nat | k < i && Registers(ops[k]) :: CreatorRight(ops, s, k)
    ensures CreatorRight(ops, s, i)
  {
    var name, kind := ops[i].die.name, Wanted(ops[i].die).value;
    var indexed := RefIndex(ops, i, name);
    if name == "" || indexed.None? || kind == Array {
      NewRef(ops, s, i, name, kind);
    } else {
      IndexedCreates(ops, i, name);
      assert CreatorRight(ops, s, indexed.value);
      OldRef(ops, s, i, name, kind, indexed.value);
    }
  }

  /**
   The visit of a registering DIE returns the object that its creating DIE created, and none exactly when
   the DIE has no creator: it is a typedef, pointer or const DIE, and the index holds a reference type of
   another class under its name.
   */
  lemma {:induction false} CreatorIsRight(ops: seq<Op>, s: State, i: nat)
    requires RunsTo(ops, s) && i < |ops| && Registers(ops[i])
    ensures |s.syms| == |ops| && CreatorRight(ops, s, i)
    decreases i
  {
    RunKeepsTable(ops, s);
    forall k: nat | k < i && Registers(ops[k]) ensures CreatorRight(ops, s, k) { CreatorIsRight(ops, s, k); }
    if IsRefType(Wanted(ops[i].die).value) { RefStep(ops, s, i); } else { OfferStep(ops, s, i); }
  }

  lemma NoCreatorIff(ops: seq<Op>, i: nat)
    requires i < |ops| && Registers(ops[i])
    ensures Creator(ops, i) == None <==>
            && ops[i].die.tag in {TypedefTag, PointerTag, ConstTag} && ops[i].die.name != ""
            && RefIndex(ops, i, ops[i].die.name).Some?
            && !Casts(Wanted(ops[RefIndex(ops, i, ops[i].die.name).value].die).value, Wanted(ops[i].die).value)
  {}

  // ---- runs that cannot stop ----

  // A visit that neither fails an assertion nor throws, whatever the table.
  predicate CannotStop(op: Op) {
    op.Visit? && op.die.tag != EnumeratorTag && op.die.tag != SubrangeTag
  }

  lemma {:induction false} NeverStops(s: State, ops: seq<Op>) returns (s1: State)
    requires forall op <- ops :: CannotStop(op)
    ensures Replay(s, ops) == Some(s1)
    decreases |ops|
  {
    s1 := s;
    if ops != [] {
      assert CannotStop(ops[0]);
      s1 := NeverStops(Step(s, ops[0]).value, ops[1..]);
    }
  }
}
