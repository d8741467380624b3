/**
 Handles never dangle: whatever the operations, the handles that the table stores and the visits
 return denote objects.
 */
module Ranges {
  import opened Basics
  import opened Dwarf
  import opened SymbolTable

  ghost predicate StateInRange(s: State) {
    && HandlesInRange(s.table)
    && forall i | 0 <= i < |s.syms| && s.syms[i].Some? :: s.syms[i].value < |s.table.objects|
  }

  lemma SetSymInRange(t: Table, h: Handle, x: Sym)
    requires HandlesInRange(t) && h < |t.objects| && SymInRange(x, |t.objects|)
    ensures HandlesInRange(SetSym(t, h, x))
  {}

  lemma ApplyInRange(t: Table, h: Handle, update: (Ids, Sym))
    requires HandlesInRange(t) && h < |t.objects|
    requires update.1.base == t.objects[h].base && update.1.members == t.objects[h].members
    ensures HandlesInRange(Apply(t, h, update))
  {
    assert SymInRange(t.objects[h], |t.objects|);
    SetSymInRange(t.(ids := update.0), h, update.1);
  }

  lemma NewSymbolInRange(t: Table, place: Place, die: Die, kind: Kind)
    requires HandlesInRange(t)
    ensures HandlesInRange(NewSymbol(t, place, die, kind))
  {
    var ids := Intern(t.ids, DieKey(place, die));
    var t1 := AddSymbol(t.(ids := ids.0), FreshSym(kind, ids.1, die));
    AddSymbolInRange(t.(ids := ids.0), FreshSym(kind, ids.1, die));
    if IsBaseType(kind) { AddBaseTypeInRange(t1, die.name, |t.objects|); }
  }

  lemma AddSymbolInRange(t: Table, x: Sym)
    requires HandlesInRange(t) && x.base.None? && x.members == map[]
    ensures HandlesInRange(AddSymbol(t, x))
  {
    var t1 := AddSymbol(t, x);
    forall h: nat | h < |t1.objects| ensures SymInRange(t1.objects[h], |t1.objects|) {
      assert h < |t.objects| ==> SymInRange(t.objects[h], |t.objects|);
    }
  }

  lemma AddBaseTypeInRange(t: Table, name: string, h: Handle)
    requires HandlesInRange(t) && h < |t.objects|
    ensures HandlesInRange(t.(names := AddBaseType(t.names, name, h)))
  {}

  lemma NewRefTypeInRange(t: Table, place: Place, die: Die, kind: Kind)
    requires HandlesInRange(t)
    ensures HandlesInRange(NewRefType(t, place, die, kind))
  {
    var h := |t.objects|;
    NewSymbolInRange(t, place, die, kind);
    var t1 := NewSymbol(t, place, die, kind);
    ApplyInRange(t1, h, InternedType(t1.ids, t1.objects[h], place, die));
    var t2 := SetType(t1, place, die, h);
    RefNamesInRange(t2, die.name, h, kind);
  }

  lemma RefNamesInRange(t: Table, name: string, h: Handle, kind: Kind)
    requires HandlesInRange(t) && h < |t.objects|
    ensures var names := AddRefBaseType(t.names, name, h);
            HandlesInRange(t.(names := if kind == Array then AddArray(names, h) else names))
  {}

  lemma NewFunctionInRange(t: Table, place: Place, die: Die)
    requires HandlesInRange(t)
    ensures HandlesInRange(NewFunction(t, place, die))
  {
    var h := |t.objects|;
    NewSymbolInRange(t, place, die, Func);
    var t0 := NewSymbol(t, place, die, Func);
    UpdateFunctionInRange(t0, place, die, h);
    var t1 := UpdateFunction(t0, place, die, h);
    FunctionNamesInRange(t1, die.name, h);
    ApplyInRange(t1.(names := AddFunction(t1.names, die.name, h)), h, (t1.ids, t1.objects[h].(paramsFinal := false)));
  }

  lemma UpdateFunctionInRange(t: Table, place: Place, die: Die, h: Handle)
    requires HandlesInRange(t) && h < |t.objects|
    ensures HandlesInRange(UpdateFunction(t, place, die, h))
  {
    ApplyInRange(t, h, UpdatedFunction(t.ids, t.objects[h], place, die));
  }

  lemma FunctionNamesInRange(t: Table, name: string, h: Handle)
    requires HandlesInRange(t) && h < |t.objects|
    ensures HandlesInRange(t.(names := AddFunction(t.names, name, h)))
  {}

  lemma NewVariableInRange(t: Table, place: Place, die: Die)
    requires HandlesInRange(t)
    ensures HandlesInRange(NewVariable(t, place, die))
  {
    var h := |t.objects|;
    NewSymbolInRange(t, place, die, Var);
    var t0 := NewSymbol(t, place, die, Var);
    ApplyInRange(t0, h, InternedType(t0.ids, t0.objects[h], place, die));
    var t1 := SetType(t0, place, die, h);
    VariableNamesInRange(t1, die.name, h);
    var t2 := t1.(names := AddVariable(t1.names, die.name, h));
    if die.location.Some? { ApplyInRange(t2, h, (t2.ids, t2.objects[h].(location := die.location.value))); }
  }

  lemma VariableNamesInRange(t: Table, name: string, h: Handle)
    requires HandlesInRange(t) && h < |t.objects|
    ensures HandlesInRange(t.(names := AddVariable(t.names, name, h)))
  {}

  lemma AddMemberInRange(t: Table, place: Place, die: Die, p: Handle)
    requires HandlesInRange(t) && p < |t.objects|
    ensures var v := AddMember(t, place, die, p);
            HandlesInRange(v.table) && (v.sym.Some? ==> v.sym.value < |v.table.objects|)
  {
    assert SymInRange(t.objects[p], |t.objects|);
    if die.name !in t.objects[p].members {
      var h := |t.objects|;
      NewSymbolInRange(t, place, die, Member);
      var t0 := NewSymbol(t, place, die, Member);
      ApplyInRange(t0, h, InternedType(t0.ids, t0.objects[h], place, die));
      var t1 := SetType(t0, place, die, h);
      if die.memberLocation.Some? {
        ApplyInRange(t1, h, (t1.ids, t1.objects[h].(location := die.memberLocation.value % U32)));
      }
      var t2 := NewMember(t, place, die);
      assert SymInRange(t2.objects[p], |t2.objects|);
      SetSymInRange(t2, p, t2.objects[p].(members := t2.objects[p].members[die.name := Some(h)]));
    }
  }

  lemma AliasInRange(t: Table, h: Handle, key: Key)
    requires HandlesInRange(t) && h < |t.objects|
    ensures HandlesInRange(AddAlternativeDwarfID(t, h, key))
  {}

  // A visit keeps the handles in range and returns one in range.
  ghost predicate VisitedInRange(v: Visited) {
    HandlesInRange(v.table) && (v.sym.Some? ==> v.sym.value < |v.table.objects|)
  }

  lemma TypeInRange(t: Table, place: Place, die: Die, kind: Kind)
    requires HandlesInRange(t)
    ensures VisitedInRange(TypeInstance(t, place, die, kind))
  {
    NewSymbolInRange(t, place, die, kind);
    var r := FirstCast(t.objects, BaseTypesNamed(t.names, die.name), kind);
    if r.Some? { AliasInRange(t, r.value, DieKey(place, die)); }
  }

  lemma RefTypeInRange(t: Table, place: Place, die: Die, kind: Kind)
    requires HandlesInRange(t)
    ensures VisitedInRange(RefTypeInstance(t, place, die, kind))
  {
    NewRefTypeInRange(t, place, die, kind);
    var r := Named(t, t.names.refTypes, die.name);
    if r.Some? { AliasInRange(t, r.value, DieKey(place, die)); }
  }

  lemma FunctionInRange(t: Table, place: Place, die: Die)
    requires HandlesInRange(t)
    ensures VisitedInRange(FunctionInstance(t, place, die))
  {
    NewFunctionInRange(t, place, die);
    var r := FirstCast(t.objects, BaseTypesNamed(t.names, die.name), Func);
    if r.Some? {
      UpdateFunctionInRange(t, place, die, r.value);
      AliasInRange(UpdateFunction(t, place, die, r.value), r.value, DieKey(place, die));
    }
  }

  lemma VariableInRange(t: Table, place: Place, die: Die)
    requires HandlesInRange(t)
    ensures VisitedInRange(VariableInstance(t, place, die))
  {
    NewVariableInRange(t, place, die);
    var r := Named(t, t.names.variables, die.name);
    if r.Some? {
      ApplyInRange(t, r.value, (t.ids, UpdatedVariable(t.objects[r.value], die)));
      AliasInRange(UpdateVariable(t, die, r.value), r.value, DieKey(place, die));
    }
  }

  lemma VisitInRange(t: Table, place: Place, die: Die, parent: Option<Handle>)
    requires HandlesInRange(t)
    ensures match VisitDie(t, place, die, parent) case None => true case Some(v) => VisitedInRange(v)
  {
    match die.tag
    case TypedefTag => RefTypeInRange(t, place, die, Typedef);
    case PointerTag => RefTypeInRange(t, place, die, Pointer);
    case ConstTag => RefTypeInRange(t, place, die, Const);
    case ArrayTag => NewRefTypeInRange(t, place, die, Array);
    case StructTag => TypeInRange(t, place, die, Struct);
    case UnionTag => TypeInRange(t, place, die, Union);
    case BaseTag => TypeInRange(t, place, die, Base);
    case EnumTag => TypeInRange(t, place, die, Enum);
    case SubprogramTag => FunctionInRange(t, place, die);
    case VariableTag => VariableInRange(t, place, die);
    case MemberTag =>
      var p := ParentOf(t, parent, IsStructured);
      if p.Some? { AddMemberInRange(t, place, die, p.value); }
    case EnumeratorTag =>
      var p := ParentOf(t, parent, IsEnum);
      if p.Some? && die.constValue.Some? {
        ApplyInRange(t, p.value, (t.ids, WithEnumerator(t.objects[p.value], die.name, die.constValue.value)));
      }
    case SubrangeTag =>
      var p := ParentOf(t, parent, IsArray);
      if p.Some? { ApplyInRange(t, p.value, UpdatedArray(t.ids, t.objects[p.value], place, die)); }
    case FormalTag =>
      var p := ParentOf(t, parent, IsFunction);
      if p.Some? { ApplyInRange(t, p.value, WithParam(t.ids, t.objects[p.value], place, die)); }
    case OtherTag =>
  }

  lemma ResolveInRange(t: Table, h: Handle)
    requires HandlesInRange(t) && h < |t.objects| && ResolveBase(t, h).Some?
    ensures HandlesInRange(ResolveBase(t, h).value)
  {
    assert SymInRange(t.objects[h], |t.objects|);
    var t1 := ResolveBase(t, h).value;
    if t1 != t { SetSymInRange(t, h, t1.objects[h]); }
  }

  lemma MemberNamedInRange(t: Table, h: Handle, name: string)
    requires HandlesInRange(t) && h < |t.objects|
    ensures HandlesInRange(MemberByName(t, h, name))
  {
    assert SymInRange(t.objects[h], |t.objects|);
    var t1 := MemberByName(t, h, name);
    if t1 != t { SetSymInRange(t, h, t1.objects[h]); }
  }

  lemma VisitStepInRange(s: State, op: Op)
    requires StateInRange(s) && op.Visit? && Step(s, op).Some?
    ensures StateInRange(Step(s, op).value) && |s.table.objects| <= |Step(s, op).value.table.objects|
  {
    VisitInRange(s.table, op.place, op.die, ParentSym(s.syms, op.parent));
    VisitGrows(s.table, op.place, op.die, ParentSym(s.syms, op.parent));
  }

  lemma VisitGrows(t: Table, place: Place, die: Die, parent: Option<Handle>)
    ensures match VisitDie(t, place, die, parent) case None => true case Some(v) => |t.objects| <= |v.table.objects|
  {}

  lemma StepInRange(s: State, op: Op)
    requires StateInRange(s) && Step(s, op).Some?
    ensures StateInRange(Step(s, op).value)
  {
    match op
    case Visit(_, _, _, _) => VisitStepInRange(s, op);
    case RevID(id) =>
    case Aliases(id) =>
    case Resolve(h) => ResolveInRange(s.table, h);
    case MemberNamed(h, name) => MemberNamedInRange(s.table, h, name);
  }

  lemma {:induction false} ReplayInRange(s: State, ops: seq<Op>)
    requires StateInRange(s) && Replay(s, ops).Some?
    ensures StateInRange(Replay(s, ops).value)
    decreases |ops|
  {
    if ops != [] {
      StepInRange(s, ops[0]);
      ReplayInRange(Step(s, ops[0]).value, ops[1..]);
    }
  }
}
