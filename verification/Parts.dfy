/**
 What a visit does to the parts of objects that it does not look at, and what follows over runs: sizes
 stay 32-bit numbers, and the members of a struct or union are objects unless a lookup by an unknown
 name entered a null one.
 */
module Parts {
  import opened Basics
  import opened Dwarf
  import opened SymbolTable

  // A visit leaves an object its cached base type and its size, and adds no null member to it.
  ghost predicate PartsKept(x: Sym, y: Sym) {
    && y.base == x.base && y.byteSize == x.byteSize
    && forall n <- y.members :: y.members[n].Some? || (n in x.members && x.members[n].None?)
  }

  // A new object has no cached base type, a 32-bit size and no members.
  ghost predicate IsFreshObject(y: Sym) {
    y.base == None && y.byteSize < U32 && y.members == map[]
  }

  ghost predicate PartsStay(t: Table, t1: Table) {
    |t.objects| <= |t1.objects|
    && (forall h: nat | h < |t.objects| :: PartsKept(t.objects[h], t1.objects[h]))
    && (forall h: nat | |t.objects| <= h < |t1.objects| :: IsFreshObject(t1.objects[h]))
  }

  lemma NothingStays(t: Table)
    ensures PartsStay(t, t)
  {}

  lemma FunctionKeepsParts(t: Table, place: Place, die: Die)
    ensures PartsStay(t, FunctionInstance(t, place, die).table)
  {}

  lemma VariableKeepsParts(t: Table, place: Place, die: Die)
    ensures PartsStay(t, VariableInstance(t, place, die).table)
  {}

  lemma NewRefKeepsParts(t: Table, place: Place, die: Die, kind: Kind)
    ensures PartsStay(t, NewRefType(t, place, die, kind))
  {}

  lemma RefKeepsParts(t: Table, place: Place, die: Die, kind: Kind)
    ensures PartsStay(t, RefTypeInstance(t, place, die, kind).table)
  {
    NewRefKeepsParts(t, place, die, kind);
  }

  lemma NewSymbolKeepsParts(t: Table, place: Place, die: Die, kind: Kind)
    ensures PartsStay(t, NewSymbol(t, place, die, kind))
  {}

  lemma TypeKeepsParts(t: Table, place: Place, die: Die, kind: Kind)
    ensures PartsStay(t, TypeInstance(t, place, die, kind).table)
  {
    NewSymbolKeepsParts(t, place, die, kind);
    NothingStays(t);
  }

  lemma MemberKeepsParts(t: Table, place: Place, die: Die, p: Handle)
    requires p < |t.objects|
    ensures PartsStay(t, AddMember(t, place, die, p).table)
  {}

  lemma UpdatesKeepParts(t: Table, place: Place, die: Die, value: nat, p: Handle)
    requires p < |t.objects|
    ensures PartsStay(t, AddEnum(t, die.name, value, p)) && PartsStay(t, UpdateArray(t, place, die, p))
    ensures PartsStay(t, AddParam(t, place, die, p))
  {}

  lemma VisitKeepsParts(t: Table, place: Place, die: Die, parent: Option<Handle>)
    ensures match VisitDie(t, place, die, parent) case None => true case Some(v) => PartsStay(t, v.table)
  {
    NothingStays(t);
    match die.tag
    case TypedefTag => RefKeepsParts(t, place, die, Typedef);
    case PointerTag => RefKeepsParts(t, place, die, Pointer);
    case ConstTag => RefKeepsParts(t, place, die, Const);
    case ArrayTag => NewRefKeepsParts(t, place, die, Array);
    case StructTag => TypeKeepsParts(t, place, die, Struct);
    case UnionTag => TypeKeepsParts(t, place, die, Union);
    case BaseTag => TypeKeepsParts(t, place, die, Base);
    case EnumTag => TypeKeepsParts(t, place, die, Enum);
    case SubprogramTag => FunctionKeepsParts(t, place, die);
    case VariableTag => VariableKeepsParts(t, place, die);
    case MemberTag =>
      var p := ParentOf(t, parent, IsStructured);
      if p.Some? { MemberKeepsParts(t, place, die, p.value); }
    case EnumeratorTag =>
      var p := ParentOf(t, parent, IsEnum);
      if p.Some? && die.constValue.Some? { UpdatesKeepParts(t, place, die, die.constValue.value, p.value); }
    case SubrangeTag =>
      var p := ParentOf(t, parent, IsArray);
      if p.Some? { UpdatesKeepParts(t, place, die, 0, p.value); }
    case FormalTag =>
      var p := ParentOf(t, parent, IsFunction);
      if p.Some? { UpdatesKeepParts(t, place, die, 0, p.value); }
    case OtherTag =>
  }

  // ---- sizes ----

  ghost predicate SizesOk(t: Table) {
    forall h: nat | h < |t.objects| :: t.objects[h].byteSize < U32
  }

  lemma StepKeepsSizes(s: State, op: Op)
    requires SizesOk(s.table) && Step(s, op).Some?
    ensures SizesOk(Step(s, op).value.table)
  {
    if op.Visit? {
      var t1 := Step(s, op).value.table;
      VisitKeepsParts(s.table, op.place, op.die, ParentSym(s.syms, op.parent));
      forall h: nat | h < |t1.objects| ensures t1.objects[h].byteSize < U32 {
        if h < |s.table.objects| { assert PartsKept(s.table.objects[h], t1.objects[h]); }
      }
    }
  }

  lemma {:induction false} ReplaySizes(s: State, ops: seq<Op>)
    requires SizesOk(s.table) && Replay(s, ops).Some?
    ensures SizesOk(Replay(s, ops).value.table)
    decreases |ops|
  {
    if ops != [] {
      StepKeepsSizes(s, ops[0]);
      ReplaySizes(Step(s, ops[0]).value, ops[1..]);
    }
  }

  // ---- null members ----

  // The members of a struct or union are objects.
  ghost predicate NoNullMembers(t: Table) {
    forall h: nat | h < |t.objects| :: forall n <- t.objects[h].members :: t.objects[h].members[n].Some?
  }

  // The operation looks up no member by an unknown name.
  ghost predicate LooksUpKnown(s: State, op: Op) {
    op.MemberNamed? && op.handle < |s.table.objects| && IsStructured(s.table.objects[op.handle].kind) ==>
      op.name in s.table.objects[op.handle].members
  }

  // Null members are entered by lookups of unknown names, and by nothing else.
  lemma NullMembersIff(s: State, op: Op)
    requires NoNullMembers(s.table) && Step(s, op).Some?
    ensures NoNullMembers(Step(s, op).value.table) <==> LooksUpKnown(s, op)
  {
    var t1 := Step(s, op).value.table;
    match op
    case Visit(place, die, parent, _) =>
      VisitKeepsParts(s.table, place, die, ParentSym(s.syms, parent));
      forall h: nat | h < |t1.objects| ensures forall n <- t1.objects[h].members :: t1.objects[h].members[n].Some? {
        if h < |s.table.objects| { assert PartsKept(s.table.objects[h], t1.objects[h]); }
      }
    case MemberNamed(h, name) =>
      if !LooksUpKnown(s, op) { assert name in t1.objects[h].members; }
    case Resolve(h) => assert forall g: nat | g < |t1.objects| :: t1.objects[g].members == s.table.objects[g].members;
    case _ =>
  }
}
