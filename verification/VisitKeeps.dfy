/**
 Every kind of visit keeps the invariant, and a visit that yields a symbol leaves the visited DIE
 resolving to it.
 */
module VisitKeeps {
  import opened Basics
  import opened Dwarf
  import opened SymbolTable
  import opened Invariant

  // The class a DIE asks for, when visiting it registers the DIE.
  function Wanted(die: Die): Option<Kind> {
    match die.tag
    case TypedefTag => Some(Typedef)
    case PointerTag => Some(Pointer)
    case ConstTag => Some(Const)
    case StructTag => Some(Struct)
    case UnionTag => Some(Union)
    case BaseTag => Some(Base)
    case EnumTag => Some(Enum)
    case ArrayTag => Some(Array)
    case SubprogramTag => Some(Func)
    case VariableTag => if die.specification then None else Some(Var)
    case _ => None
  }

  // The DIE of `key` resolves to the object `h`, which has its name and the class it asked for.
  ghost predicate ResolvesTo(t: Table, key: Key, die: Die, h: Handle) {
    && key in t.ids.byKey
    && Find(t, t.ids.byKey[key]) == Some(h)
    && h < |t.objects|
    && t.objects[h].name == die.name
    && Wanted(die).Some? && Casts(t.objects[h].kind, Wanted(die).value)
  }

  // The type that an object created for `die` refers to.
  ghost predicate TypeStored(ids: Ids, place: Place, die: Die, typ: nat) {
    if die.typeRef.Some?
    then RefKey(place, die.typeRef.value) in ids.byKey && ids.byKey[RefKey(place, die.typeRef.value)] == typ
    else typ == 0
  }

  // ---- constructors enter one object ----

  lemma NewSymbolEnters(t: Table, place: Place, die: Die, kind: Kind)
    requires IdsOk(t.ids) && kind in {Base, Struct, Union, Enum}
    ensures var t1 := NewSymbol(t, place, die, kind);
            Enters(t, t1, DieKey(place, die), FreshSym(kind, t1.ids.byKey[DieKey(place, die)], die))
  {
    InternKeeps(t.ids, DieKey(place, die));
  }

  // The object and the interning tables after SetType(NewSymbol(..)).
  lemma TypedSymbolEnters(t: Table, place: Place, die: Die, kind: Kind)
    requires IdsOk(t.ids)
    ensures var t1 := SetType(NewSymbol(t, place, die, kind), place, die, |t.objects|);
            var s := t1.objects[|t.objects|];
            && IdsGrow(t.ids, t1.ids)
            && DieKey(place, die) in t1.ids.byKey
            && s == FreshSym(kind, t1.ids.byKey[DieKey(place, die)], die).(typ := s.typ)
            && TypeStored(t1.ids, place, die, s.typ)
            && t1.objects == t.objects + [s]
            && t1.symbolIDMap == t.symbolIDMap[s.id := |t.objects|]
            && t1.aliases == t.aliases
            && t1.names == if IsBaseType(kind) then AddBaseType(t.names, die.name, |t.objects|) else t.names
  {
    InternKeeps(t.ids, DieKey(place, die));
    InternTypeKeeps(Intern(t.ids, DieKey(place, die)).0, place, die.typeRef);
    var t0 := NewSymbol(t, place, die, kind);
    var t1 := SetType(t0, place, die, |t.objects|);
    assert t1.objects == t.objects + [t1.objects[|t.objects|]];
  }

  lemma NewRefTypeEnters(t: Table, place: Place, die: Die, kind: Kind)
    requires IdsOk(t.ids) && IsRefType(kind)
    ensures var t1 := NewRefType(t, place, die, kind);
            var s := t1.objects[|t.objects|];
            && Enters(t, t1, DieKey(place, die), s) && TypeStored(t1.ids, place, die, s.typ)
            && s == FreshSym(kind, s.id, die).(typ := s.typ)
  {
    TypedSymbolEnters(t, place, die, kind);
  }

  lemma NewVariableEnters(t: Table, place: Place, die: Die)
    requires IdsOk(t.ids)
    ensures var t1 := NewVariable(t, place, die);
            var s := t1.objects[|t.objects|];
            && Enters(t, t1, DieKey(place, die), s) && TypeStored(t1.ids, place, die, s.typ)
            && s == FreshSym(Var, s.id, die).(typ := s.typ, location := s.location)
  {
    TypedSymbolEnters(t, place, die, Var);
    var t1 := NewVariable(t, place, die);
    assert t1.objects == t.objects + [t1.objects[|t.objects|]];
  }

  lemma NewMemberEnters(t: Table, place: Place, die: Die)
    requires IdsOk(t.ids)
    ensures var t1 := NewMember(t, place, die);
            var s := t1.objects[|t.objects|];
            && Enters(t, t1, DieKey(place, die), s) && TypeStored(t1.ids, place, die, s.typ)
            && s == FreshSym(Member, s.id, die).(typ := s.typ, location := s.location)
  {
    TypedSymbolEnters(t, place, die, Member);
    var t1 := NewMember(t, place, die);
    assert t1.objects == t.objects + [t1.objects[|t.objects|]];
  }

  // What Function::update does to the object and to the interning tables.
  lemma UpdateFunctionMeans(t: Table, place: Place, die: Die, h: Handle)
    requires IdsOk(t.ids) && h < |t.objects|
    ensures var t1 := UpdateFunction(t, place, die, h);
            var f, g := t.objects[h], t1.objects[h];
            && IdsGrow(t.ids, t1.ids)
            && t1 == Table(t1.ids, t.objects[h := g], t.symbolIDMap, t.aliases, t.names)
            && g == f.(rettype := g.rettype, address := g.address, paramsFinal := true)
            && g.rettype == (if f.rettype == 0 && die.typeRef.Some?
                             then t1.ids.byKey[RefKey(place, die.typeRef.value)] else f.rettype)
            && (f.rettype == 0 && die.typeRef.Some? ==> g.rettype > 0)
            && g.address == if f.address == 0 && die.lowPc.Some? then die.lowPc.value else f.address
  {
    InternTypeKeeps(t.ids, place, die.typeRef);
  }

  lemma NewFunctionEnters(t: Table, place: Place, die: Die)
    requires IdsOk(t.ids)
    ensures var t1 := NewFunction(t, place, die);
            var s := t1.objects[|t.objects|];
            && Enters(t, t1, DieKey(place, die), s)
            && TypeStored(t1.ids, place, die, s.rettype)
            && s.address == (if die.lowPc.Some? then die.lowPc.value else 0)
            && s == FreshSym(Func, s.id, die).(rettype := s.rettype, address := s.address)
  {
    var h := |t.objects|;
    var key := DieKey(place, die);
    InternKeeps(t.ids, key);
    var t0 := NewSymbol(t, place, die, Func);
    assert t0.objects == t.objects + [FreshSym(Func, t0.ids.byKey[key], die)];
    UpdateFunctionMeans(t0, place, die, h);
    var t1 := NewFunction(t, place, die);
    assert t1.objects == t.objects + [t1.objects[h]];
  }

  // ---- every visit keeps the invariant ----

  // What a visit leaves behind: the invariant, and the visited DIE resolving to its symbol.
  ghost predicate Good(t: Table, v: Visited, place: Place, die: Die) {
    && KeptBy(t, v.table, DieKey(place, die))
    && (v.sym.Some? ==> v.sym.value < |v.table.objects|)
    && (v.sym.Some? && Wanted(die).Some? ==> ResolvesTo(v.table, DieKey(place, die), die, v.sym.value))
  }

  lemma EnteredResolves(t: Table, t1: Table, place: Place, die: Die, s: Sym)
    requires Inv(t) && Unseen(t, DieKey(place, die)) && Enters(t, t1, DieKey(place, die), s)
    requires NewName(t, s) && s.members == map[] && s.name == die.name
    requires Wanted(die).Some? ==> s.kind == Wanted(die).value
    ensures Good(t, Visited(t1, Some(|t.objects|)), place, die)
  {
    EntersKeeps(t, t1, DieKey(place, die), s);
  }

  lemma AliasedResolves(t: Table, place: Place, die: Die, h: Handle)
    requires Inv(t) && Unseen(t, DieKey(place, die)) && h < |t.objects|
    requires t.objects[h].name == die.name && Wanted(die).Some? && Casts(t.objects[h].kind, Wanted(die).value)
    ensures Good(t, Visited(AddAlternativeDwarfID(t, h, DieKey(place, die)), Some(h)), place, die)
  {
    AliasKeeps(t, h, DieKey(place, die));
  }

  // The name index of base types gives an object of the name, or there is none to merge with.
  lemma {:induction false} BaseLookup(t: Table, name: string, kind: Kind)
    requires BaseIndexOk(t) && IsBaseType(kind)
    ensures match FirstCast(t.objects, BaseTypesNamed(t.names, name), kind)
            case Some(h) => h < |t.objects| && t.objects[h].name == name && Casts(t.objects[h].kind, kind)
            case None => name == "" || forall h: nat | h < |t.objects| && t.objects[h].name == name ::
              t.objects[h].kind != kind
  {}

  lemma TypeInstanceKeeps(t: Table, place: Place, die: Die, kind: Kind)
    requires Inv(t) && Unseen(t, DieKey(place, die))
    requires kind in {Base, Struct, Union, Enum} && Wanted(die) == Some(kind)
    ensures Good(t, TypeInstance(t, place, die, kind), place, die)
  {
    BaseLookup(t, die.name, kind);
    match FirstCast(t.objects, BaseTypesNamed(t.names, die.name), kind)
    case Some(h) => AliasedResolves(t, place, die, h);
    case None =>
      NewSymbolEnters(t, place, die, kind);
      var t1 := NewSymbol(t, place, die, kind);
      EnteredResolves(t, t1, place, die, FreshSym(kind, t1.ids.byKey[DieKey(place, die)], die));
  }

  // An index by name gives an object of the name and class, or there is none of that name.
  lemma IndexLookup(t: Table, index: map<string, Handle>, test: Kind -> bool, name: string)
    requires IndexOk(t, index, test)
    ensures match Named(t, index, name)
            case Some(h) => name != "" && h < |t.objects| && t.objects[h].name == name && test(t.objects[h].kind)
            case None => name == "" || forall h: nat | h < |t.objects| && t.objects[h].name == name ::
              !test(t.objects[h].kind)
  {}

  // A visit that does nothing.
  lemma NothingKeeps(t: Table, place: Place, die: Die)
    requires Inv(t)
    ensures Good(t, Visited(t, None), place, die)
  {}

  lemma RefTypeInstanceKeeps(t: Table, place: Place, die: Die, kind: Kind)
    requires Inv(t) && Unseen(t, DieKey(place, die)) && IsRefType(kind) && Wanted(die) == Some(kind)
    ensures Good(t, RefTypeInstance(t, place, die, kind), place, die)
  {
    match Named(t, t.names.refTypes, die.name)
    case Some(h) =>
      IndexLookup(t, t.names.refTypes, IsRefType, die.name);
      if Casts(t.objects[h].kind, kind) {
        AliasedResolves(t, place, die, h);
      } else {
        NothingKeeps(t, place, die);
      }
    case None => NewRefTypeKeeps(t, place, die, kind);
  }

  lemma NewRefTypeKeeps(t: Table, place: Place, die: Die, kind: Kind)
    requires Inv(t) && Unseen(t, DieKey(place, die)) && IsRefType(kind) && Wanted(die) == Some(kind)
    ensures Good(t, Visited(NewRefType(t, place, die, kind), Some(|t.objects|)), place, die)
  {
    NewRefTypeEnters(t, place, die, kind);
    var t1 := NewRefType(t, place, die, kind);
    EnteredResolves(t, t1, place, die, t1.objects[|t.objects|]);
  }

  // A visit to an updated table is a visit to the table before the update.
  lemma GoodAfterUpdate(t: Table, t1: Table, v: Visited, place: Place, die: Die)
    requires Extends(t, t1) && t1.symbolIDMap == t.symbolIDMap && t1.aliases == t.aliases
    requires Good(t1, v, place, die)
    ensures Good(t, v, place, die)
  {
    ExtendsTransitive(t, t1, v.table);
  }

  // An update of one object's own fields, followed by making the DIE its alias.
  lemma UpdatedAliasKeeps(t: Table, t1: Table, place: Place, die: Die, h: Handle)
    requires Inv(t) && Unseen(t, DieKey(place, die)) && Updates(t, t1) && h < |t.objects|
    requires t.objects[h].name == die.name && Wanted(die).Some? && Casts(t.objects[h].kind, Wanted(die).value)
    ensures Good(t, Visited(AddAlternativeDwarfID(t1, h, DieKey(place, die)), Some(h)), place, die)
  {
    UpdatesKeeps(t, t1);
    assert Unseen(t1, DieKey(place, die)) by { UpdatesUnseen(t, t1, DieKey(place, die)); }
    AliasedResolves(t1, place, die, h);
    GoodAfterUpdate(t, t1, Visited(AddAlternativeDwarfID(t1, h, DieKey(place, die)), Some(h)), place, die);
  }

  lemma UpdatesUnseen(t: Table, t1: Table, key: Key)
    requires IssuedOk(t) && Updates(t, t1) && Unseen(t, key)
    ensures Unseen(t1, key)
  {
    if key in t1.ids.byKey { NewIdIsFree(t, t1.ids, key); }
  }

  lemma UpdateFunctionUpdates(t: Table, place: Place, die: Die, h: Handle)
    requires IdsOk(t.ids) && h < |t.objects|
    ensures Updates(t, UpdateFunction(t, place, die, h))
  {
    UpdateFunctionMeans(t, place, die, h);
  }

  lemma UpdateVariableUpdates(t: Table, die: Die, h: Handle)
    requires IdsOk(t.ids) && h < |t.objects|
    ensures Updates(t, UpdateVariable(t, die, h))
  {}

  lemma FunctionInstanceKeeps(t: Table, place: Place, die: Die)
    requires Inv(t) && Unseen(t, DieKey(place, die)) && Wanted(die) == Some(Func)
    ensures Good(t, FunctionInstance(t, place, die), place, die)
  {
    BaseLookup(t, die.name, Func);
    match FirstCast(t.objects, BaseTypesNamed(t.names, die.name), Func)
    case Some(h) =>
      UpdateFunctionUpdates(t, place, die, h);
      UpdatedAliasKeeps(t, UpdateFunction(t, place, die, h), place, die, h);
    case None =>
      NewFunctionKeeps(t, place, die);
  }

  lemma NewFunctionKeeps(t: Table, place: Place, die: Die)
    requires Inv(t) && Unseen(t, DieKey(place, die)) && Wanted(die) == Some(Func)
    requires die.name == "" || forall h: nat | h < |t.objects| && t.objects[h].name == die.name ::
             t.objects[h].kind != Func
    ensures Good(t, Visited(NewFunction(t, place, die), Some(|t.objects|)), place, die)
  {
    NewFunctionEnters(t, place, die);
    var t1 := NewFunction(t, place, die);
    EnteredResolves(t, t1, place, die, t1.objects[|t.objects|]);
  }

  lemma NewVariableKeeps(t: Table, place: Place, die: Die)
    requires Inv(t) && Unseen(t, DieKey(place, die)) && Wanted(die) == Some(Var)
    requires die.name == "" || forall h: nat | h < |t.objects| && t.objects[h].name == die.name ::
             t.objects[h].kind != Var
    ensures Good(t, Visited(NewVariable(t, place, die), Some(|t.objects|)), place, die)
  {
    NewVariableEnters(t, place, die);
    var t1 := NewVariable(t, place, die);
    EnteredResolves(t, t1, place, die, t1.objects[|t.objects|]);
  }

  lemma VariableInstanceKeeps(t: Table, place: Place, die: Die)
    requires Inv(t) && Unseen(t, DieKey(place, die)) && Wanted(die) == Some(Var)
    ensures Good(t, VariableInstance(t, place, die), place, die)
  {
    IndexLookup(t, t.names.variables, IsVariable, die.name);
    match Named(t, t.names.variables, die.name)
    case Some(h) =>
      UpdateVariableUpdates(t, die, h);
      UpdatedAliasKeeps(t, UpdateVariable(t, die, h), place, die, h);
    case None => NewVariableKeeps(t, place, die);
  }

  // The update of a symbol by a child DIE that does not register.
  lemma ApplyKeeps(t: Table, place: Place, die: Die, h: Handle, update: (Ids, Sym))
    requires Inv(t) && h < |t.objects|
    requires IdsGrow(t.ids, update.0) && SameIdentity(t.objects[h], update.1)
    requires update.1.members == t.objects[h].members
    ensures Good(t, Visited(Apply(t, h, update), None), place, die)
  {
    ApplyUpdates(t, h, update);
    UpdatesKeeps(t, Apply(t, h, update));
  }

  lemma ApplyUpdates(t: Table, h: Handle, update: (Ids, Sym))
    requires h < |t.objects| && IdsGrow(t.ids, update.0) && SameIdentity(t.objects[h], update.1)
    requires update.1.members == t.objects[h].members
    ensures Updates(t, Apply(t, h, update))
  {}

  lemma AddParamKeeps(t: Table, place: Place, die: Die, h: Handle)
    requires Inv(t) && h < |t.objects|
    ensures Good(t, Visited(AddParam(t, place, die, h), None), place, die)
  {
    InternTypeKeeps(t.ids, place, die.typeRef);
    ApplyKeeps(t, place, die, h, WithParam(t.ids, t.objects[h], place, die));
  }

  lemma UpdateArrayKeeps(t: Table, place: Place, die: Die, h: Handle)
    requires Inv(t) && h < |t.objects|
    ensures Good(t, Visited(UpdateArray(t, place, die, h), None), place, die)
  {
    InternTypeKeeps(t.ids, place, die.typeRef);
    ApplyKeeps(t, place, die, h, UpdatedArray(t.ids, t.objects[h], place, die));
  }

  lemma AddEnumKeeps(t: Table, place: Place, die: Die, value: nat, h: Handle)
    requires Inv(t) && h < |t.objects|
    ensures Good(t, Visited(AddEnum(t, die.name, value, h), None), place, die)
  {
    ApplyKeeps(t, place, die, h, (t.ids, WithEnumerator(t.objects[h], die.name, value)));
  }

  // Storing a member, or a null member, in the member map of an object.
  lemma SetMemberKeeps(t: Table, p: Handle, name: string, m: Option<Handle>)
    requires Inv(t) && p < |t.objects|
    requires m.Some? ==> m.value < |t.objects| && t.objects[m.value].kind == Member && t.objects[m.value].name == name
    ensures var t1 := SetSym(t, p, t.objects[p].(members := t.objects[p].members[name := m]));
            Inv(t1) && Extends(t, t1) && forall key :: OnlyAdds(t, t1, key)
  {
    var t1 := SetSym(t, p, t.objects[p].(members := t.objects[p].members[name := m]));
    assert SameIdentities(t, t1);
    IdentityKeepsNames(t, t1);
    IdentityKeepsMerges(t, t1);
    IdentityKeepsMaps(t, t1);
    SetMemberMembers(t, t1, p, name, m);
  }

  lemma SetMemberMembers(t: Table, t1: Table, p: Handle, name: string, m: Option<Handle>)
    requires MembersOk(t) && p < |t.objects|
    requires t1.objects == t.objects[p := t.objects[p].(members := t.objects[p].members[name := m])]
    requires m.Some? ==> m.value < |t.objects| && t.objects[m.value].kind == Member && t.objects[m.value].name == name
    ensures MembersOk(t1)
  {}

  lemma AddMemberKeeps(t: Table, place: Place, die: Die, p: Handle)
    requires Inv(t) && Unseen(t, DieKey(place, die)) && p < |t.objects| && Wanted(die).None?
    ensures Good(t, AddMember(t, place, die, p), place, die)
  {
    if die.name in t.objects[p].members {
      OldMemberKeeps(t, place, die, p);
    } else {
      NewMemberEnters(t, place, die);
      var t1 := NewMember(t, place, die);
      EnteredResolves(t, t1, place, die, t1.objects[|t.objects|]);
      SetMemberKeeps(t1, p, die.name, Some(|t.objects|));
      MemberExtends(t, t1, AddMember(t, place, die, p), place, die);
    }
  }

  lemma OldMemberKeeps(t: Table, place: Place, die: Die, p: Handle)
    requires Inv(t) && p < |t.objects| && die.name in t.objects[p].members && Wanted(die).None?
    ensures Good(t, Visited(t, t.objects[p].members[die.name]), place, die)
  {}

  lemma MemberExtends(t: Table, t1: Table, v: Visited, place: Place, die: Die)
    requires KeptBy(t, t1, DieKey(place, die)) && Wanted(die).None?
    requires Inv(v.table) && Extends(t1, v.table)
    requires v.table.symbolIDMap == t1.symbolIDMap && v.table.aliases == t1.aliases && v.table.ids == t1.ids
    requires v.sym.Some? ==> v.sym.value < |v.table.objects|
    ensures Good(t, v, place, die)
  {
    ExtendsTransitive(t, t1, v.table);
  }

  // The visit of a member DIE.
  lemma VisitMemberKeeps(t: Table, place: Place, die: Die, parent: Option<Handle>)
    requires Inv(t) && Unseen(t, DieKey(place, die)) && die.tag == MemberTag
    ensures VisitDie(t, place, die, parent).Some? && Good(t, VisitDie(t, place, die, parent).value, place, die)
  {
    NothingKeeps(t, place, die);
    var p := ParentOf(t, parent, IsStructured);
    if p.Some? { AddMemberKeeps(t, place, die, p.value); }
  }

  // The visit of another DIE that changes its parent, or nothing.
  lemma VisitPartKeeps(t: Table, place: Place, die: Die, parent: Option<Handle>)
    requires Inv(t) && Wanted(die).None? && die.tag != MemberTag
    ensures match VisitDie(t, place, die, parent)
            case None => true
            case Some(v) => Good(t, v, place, die)
  {
    hide Good, Inv;
    NothingKeeps(t, place, die);
    match die.tag
    case EnumeratorTag =>
      var p := ParentOf(t, parent, IsEnum);
      if p.Some? && die.constValue.Some? { AddEnumKeeps(t, place, die, die.constValue.value, p.value); }
    case SubrangeTag =>
      var p := ParentOf(t, parent, IsArray);
      if p.Some? { UpdateArrayKeeps(t, place, die, p.value); }
    case FormalTag =>
      var p := ParentOf(t, parent, IsFunction);
      if p.Some? { AddParamKeeps(t, place, die, p.value); }
    case _ =>
  }

  // initSymbolFromDie keeps the table consistent, for any DIE not visited before and any parent.
  lemma VisitDieKeeps(t: Table, place: Place, die: Die, parent: Option<Handle>)
    requires Inv(t) && Unseen(t, DieKey(place, die))
    ensures match VisitDie(t, place, die, parent)
            case None => true
            case Some(v) => Good(t, v, place, die)
  {
    match die.tag
    case TypedefTag => RefTypeInstanceKeeps(t, place, die, Typedef);
    case PointerTag => RefTypeInstanceKeeps(t, place, die, Pointer);
    case ConstTag => RefTypeInstanceKeeps(t, place, die, Const);
    case StructTag => TypeInstanceKeeps(t, place, die, Struct);
    case UnionTag => TypeInstanceKeeps(t, place, die, Union);
    case BaseTag => TypeInstanceKeeps(t, place, die, Base);
    case EnumTag => TypeInstanceKeeps(t, place, die, Enum);
    case ArrayTag => NewRefTypeKeeps(t, place, die, Array);
    case SubprogramTag => FunctionInstanceKeeps(t, place, die);
    case VariableTag =>
      if die.specification { VisitPartKeeps(t, place, die, parent); } else { VariableInstanceKeeps(t, place, die); }
    case MemberTag => VisitMemberKeeps(t, place, die, parent);
    case _ => VisitPartKeeps(t, place, die, parent);
  }
}
