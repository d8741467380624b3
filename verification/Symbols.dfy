/**
 The symbol objects and the symbol manager, updated in place.  C++ pointers to symbols are handles,
 positions in the manager's list of objects; the class hierarchy below Symbol is one class with the
 fields of all of them, its dynamic class being the field `kind`.
 */
module Symbols {
  import opened Basics
  import opened Dwarf
  import opened SymbolTable
  import opened Ranges
  import opened CleanupSpec
  import opened Sweeping

  class Symbol {
    const kind: Kind
    const id: nat
    const name: string
    ghost const handle: Handle
    var byteSize: nat
    var typ: nat
    var base: Option<Handle>
    var rettype: nat
    var address: nat
    var paramList: seq<(string, nat)>
    var paramsFinal: bool
    var length: nat
    var lengthType: nat
    var location: nat
    var memberNameMap: map<string, Option<Handle>>
    var enumValues: map<nat, string>

    function View(): Sym
      reads this
    {
      Sym(kind, id, name, byteSize, typ, base, rettype, address, paramList, paramsFinal, length, lengthType,
          location, memberNameMap, enumValues)
    }

    constructor (kind: Kind, id: nat, name: string, byteSize: nat, ghost handle: Handle)
      ensures View() == NewSym(kind, id, name, byteSize) && this.handle == handle
    {
      this.kind, this.id, this.name, this.handle := kind, id, name, handle;
      this.byteSize := byteSize;
      typ, base, rettype, address, paramList, paramsFinal := 0, None, 0, 0, [], false;
      length, lengthType, location, memberNameMap, enumValues := 0, 0, 0, map[], map[];
    }

    // The part of RefBaseType's and ReferencingType's constructors that stores the type id.
    method SetType(manager: SymbolManager, place: Place, die: Die)
      modifies this, manager`currentID, manager`idMap, manager`idRevMap
      ensures (manager.IdTables(), View()) == InternedType(old(manager.IdTables()), old(View()), place, die)
    {
      typ := 0;
      if die.typeRef.Some? {
        typ := manager.GetID(RefKey(place, die.typeRef.value));
      }
    }

    // Function::addParam
    method AddParam(manager: SymbolManager, place: Place, die: Die)
      modifies this, manager`currentID, manager`idMap, manager`idRevMap
      ensures (manager.IdTables(), View()) == WithParam(old(manager.IdTables()), old(View()), place, die)
    {
      if paramsFinal { return; }
      if die.typeRef.Some? {
        var paramType := manager.GetID(RefKey(place, die.typeRef.value));
        paramList := paramList + [(die.name, paramType)];
      }
    }

    // Function::update
    method UpdateFunction(manager: SymbolManager, place: Place, die: Die)
      modifies this, manager`currentID, manager`idMap, manager`idRevMap
      ensures (manager.IdTables(), View()) == UpdatedFunction(old(manager.IdTables()), old(View()), place, die)
    {
      if rettype == 0 && die.typeRef.Some? {
        rettype := manager.GetID(RefKey(place, die.typeRef.value));
      }
      if address == 0 && die.lowPc.Some? {
        address := die.lowPc.value;
      }
      paramsFinal := true;
    }

    // Array::update
    method UpdateArray(manager: SymbolManager, place: Place, die: Die)
      modifies this, manager`currentID, manager`idMap, manager`idRevMap
      ensures (manager.IdTables(), View()) == UpdatedArray(old(manager.IdTables()), old(View()), place, die)
    {
      if die.typeRef.Some? {
        lengthType := manager.GetID(RefKey(place, die.typeRef.value));
      }
      if die.upperBound.Some? {
        length := (die.upperBound.value + 1) % U64;
      }
    }

    // Variable::update
    method UpdateVariable(die: Die)
      modifies this
      ensures View() == UpdatedVariable(old(View()), die)
    {
      if location != 0 { return; }
      if die.location.Some? {
        location := die.location.value;
      }
    }

    // Enum::addEnum
    method AddEnum(name: string, value: nat)
      modifies this
      ensures View() == WithEnumerator(old(View()), name, value)
    {
      enumValues := enumValues[value % U32 := name];
    }

    // Array::updateTypes; `t` is the table whose ids the manager resolves.
    method UpdateArrayTypes(manager: SymbolManager, ghost t: Table)
      requires manager.Resolves(t) && (typ != 0 ==> Find(t, typ).Some? && IsAlive(t, manager.deleted, typ))
      modifies this, manager`symbolIDAliasReverseList
      ensures manager.symbolIDAliasReverseList == old(manager.symbolIDAliasReverseList)
      ensures View() == UpdatedArrayTypes(t, old(View()))
    {
      if typ != 0 {
        typ := manager.CanonicalID(typ, t);
      }
    }

    // Function::updateTypes
    method UpdateFunctionTypes(manager: SymbolManager, ghost t: Table)
      requires manager.Resolves(t) && (rettype != 0 ==> Find(t, rettype).Some? && IsAlive(t, manager.deleted, rettype))
      requires ParamsResolve(t, paramList) && ParamsAlive(t, manager.deleted, paramList)
      modifies this, manager`symbolIDAliasReverseList
      ensures manager.symbolIDAliasReverseList == old(manager.symbolIDAliasReverseList)
      ensures View() == UpdatedFunctionTypes(t, old(View()))
    {
      if rettype != 0 {
        rettype := manager.CanonicalID(rettype, t);
      }
      var i := 0;
      ghost var params := paramList;
      while i < |paramList|
        invariant 0 <= i <= |paramList| == |params|
        invariant manager.symbolIDAliasReverseList == old(manager.symbolIDAliasReverseList)
        invariant forall k | 0 <= k < |params| ::
                    paramList[k] == if k < i then (params[k].0, Canonical(t, params[k].1)) else params[k]
        invariant View() == old(View()).(rettype := Canonical(t, old(rettype)), params := paramList)
      {
        var canonical := manager.CanonicalID(paramList[i].1, t);
        paramList := paramList[i := (paramList[i].0, canonical)];
        i := i + 1;
      }
    }
  }

  // The array at a place of the vector, and the arrays before it.
  lemma ArrayIsCleanable(t: Table, dead: seq<Handle>, i: nat)
    requires ArraysCleanable(t, dead) && i < |t.names.arrays|
    ensures var list := t.names.arrays;
            && list[i] < |t.objects| && list[i] !in list[..i] && list[..i + 1] == list[..i] + [list[i]]
            && (t.objects[list[i]].typ != 0 ==>
                  Find(t, t.objects[list[i]].typ).Some? && IsAlive(t, dead, t.objects[list[i]].typ))
  {
    PrefixGrows(t.names.arrays, i);
  }

  lemma FunctionIsCleanable(t: Table, dead: seq<Handle>, i: nat)
    requires FunctionsCleanable(t, dead) && i < |t.names.funcList|
    ensures var list := t.names.funcList;
            && list[i] < |t.objects| && list[i] !in list[..i] && list[..i + 1] == list[..i] + [list[i]]
            && (t.objects[list[i]].rettype != 0 ==>
                  Find(t, t.objects[list[i]].rettype).Some? && IsAlive(t, dead, t.objects[list[i]].rettype))
            && ParamsResolve(t, t.objects[list[i]].params) && ParamsAlive(t, dead, t.objects[list[i]].params)
  {
    PrefixGrows(t.names.funcList, i);
  }

  // The objects of a list, read as values.
  function Views(objects: seq<Symbol>): (views: seq<Sym>)
    reads objects
    ensures |views| == |objects| && forall i | 0 <= i < |objects| :: views[i] == objects[i].View()
  {
    seq(|objects|, i requires 0 <= i < |objects| reads objects => objects[i].View())
  }

  lemma {:induction false} ResolveExtends(trace: seq<Op>, s: State, h: Handle)
    requires Replay(START, trace) == Some(s) && h < |s.table.objects|
    ensures Replay(START, trace + [Resolve(h)]) ==
            match ResolveBase(s.table, h) case None => None case Some(t) => Some(State(t, s.syms + [None]))
  {
    ReplaySnoc(START, trace, Resolve(h));
  }

  lemma {:induction false} MemberNamedExtends(trace: seq<Op>, s: State, h: Handle, name: string)
    requires Replay(START, trace) == Some(s) && h < |s.table.objects|
    ensures Replay(START, trace + [MemberNamed(h, name)])
            == Some(State(MemberByName(s.table, h, name), s.syms + [None]))
  {
    ReplaySnoc(START, trace, MemberNamed(h, name));
  }

  class SymbolManager {
    var currentID: nat
    var idMap: map<Key, nat>
    var idRevMap: map<nat, Key>
    var objects: seq<Symbol>
    var symbolIDMap: map<nat, Handle>
    var symbolIDAliasMap: map<nat, nat>
    var symbolIDAliasReverseList: map<nat, set<nat>>
    var baseTypeNameMap: map<string, seq<Handle>>
    var refBaseTypeNameMap: map<string, Handle>
    var variableNameMap: map<string, Handle>
    var functionNameMap: map<string, Handle>
    var funcList: seq<Handle>
    var arrayVector: seq<Handle>
    var arrayTypeMap: seq<(nat, Handle)>

    // The objects that the clean-ups deleted.
    ghost var deleted: seq<Handle>

    // The operations so far and what they returned.
    ghost var trace: seq<Op>
    ghost var results: seq<Option<Handle>>

    // The symbol objects.
    ghost var Repr: set<Symbol>

    ghost function IdTables(): Ids
      reads this
    {
      Ids(currentID, idMap, idRevMap)
    }

    ghost function Aliases(): Aliasing
      reads this
    {
      Aliasing(symbolIDAliasMap, symbolIDAliasReverseList)
    }

    ghost function NameTables(): Names
      reads this
    {
      Names(baseTypeNameMap, refBaseTypeNameMap, variableNameMap, functionNameMap, funcList, arrayVector)
    }

    // The whole state as a value.
    ghost function Contents(): Table
      reads this, objects
    {
      Table(IdTables(), Views(objects), symbolIDMap, Aliases(), NameTables())
    }

    // Every object is listed once, at the position that is its handle.
    ghost predicate Valid()
      reads this, objects
    {
      forall i | 0 <= i < |objects| :: objects[i].handle == i && objects[i] in Repr
    }

    constructor ()
      ensures Valid() && Contents() == EMPTY && trace == [] && results == []
      ensures objects == [] && arrayTypeMap == [] && deleted == [] && Repr == {}
    {
      currentID, idMap, idRevMap, objects := 0, map[], map[], [];
      symbolIDMap, symbolIDAliasMap, symbolIDAliasReverseList := map[], map[], map[];
      baseTypeNameMap, refBaseTypeNameMap, variableNameMap, functionNameMap := map[], map[], map[], map[];
      funcList, arrayVector := [], [];
      arrayTypeMap := [];
      trace, results, deleted, Repr := [], [], [], {};
    }

    // ---- identifiers ----

    method GetID(key: Key) returns (id: nat)
      modifies this`currentID, this`idMap, this`idRevMap
      ensures (IdTables(), id) == Intern(old(IdTables()), key)
    {
      if key !in idMap || idMap[key] == 0 {
        var newID := currentID + 1;
        currentID := newID;
        idMap := idMap[key := newID];
        idRevMap := idRevMap[newID := key];
        return newID;
      }
      return idMap[key];
    }

    // ---- registration ----

    // Symbol's constructor, the id having been issued.
    method AddSymbol(kind: Kind, id: nat, name: string, byteSize: nat) returns (h: Handle)
      requires Valid()
      modifies this`objects, this`Repr, this`symbolIDMap
      ensures Valid() && h == |old(objects)|
      ensures Contents() == SymbolTable.AddSymbol(old(Contents()), NewSym(kind, id, name, byteSize))
      ensures objects[..h] == old(objects) && fresh(objects[h]) && Repr == old(Repr) + {objects[h]}
    {
      h := |objects|;
      var symbol := new Symbol(kind, id, name, byteSize, h);
      objects, Repr := objects + [symbol], Repr + {symbol};
      symbolIDMap := symbolIDMap[id := h];
      assert Views(objects) == old(Views(objects)) + [symbol.View()];
    }

    method AddBaseType(name: string, h: Handle)
      requires Valid() && h < |objects|
      modifies this`baseTypeNameMap
      ensures Valid()
      ensures Contents() == old(Contents()).(names := SymbolTable.AddBaseType(old(NameTables()), name, h))
    {
      if name != "" {
        baseTypeNameMap :=
          baseTypeNameMap[name := (if name in baseTypeNameMap then baseTypeNameMap[name] else []) + [h]];
      }
    }

    method AddRefBaseType(name: string, h: Handle)
      requires Valid() && h < |objects|
      modifies this`refBaseTypeNameMap
      ensures Valid()
      ensures Contents() == old(Contents()).(names := SymbolTable.AddRefBaseType(old(NameTables()), name, h))
    {
      if name != "" {
        refBaseTypeNameMap := refBaseTypeNameMap[name := h];
      }
    }

    method AddFunction(name: string, h: Handle)
      requires Valid() && h < |objects|
      modifies this`functionNameMap, this`funcList
      ensures Valid()
      ensures Contents() == old(Contents()).(names := SymbolTable.AddFunction(old(NameTables()), name, h))
      ensures functionNameMap == if name == "" || name in old(functionNameMap) then old(functionNameMap)
                                 else old(functionNameMap)[name := h]
    {
      if name != "" && name !in functionNameMap {
        functionNameMap := functionNameMap[name := h];
      }
      funcList := funcList + [h];
    }

    method AddArray(h: Handle)
      requires Valid() && h < |objects|
      modifies this`arrayVector
      ensures Valid()
      ensures Contents() == old(Contents()).(names := SymbolTable.AddArray(old(NameTables()), h))
    {
      arrayVector := arrayVector + [h];
    }

    method AddVariable(name: string, h: Handle)
      requires Valid() && h < |objects|
      modifies this`variableNameMap
      ensures Valid()
      ensures Contents() == old(Contents()).(names := SymbolTable.AddVariable(old(NameTables()), name, h))
      ensures variableNameMap == if name == "" then old(variableNameMap) else old(variableNameMap)[name := h]
    {
      if name != "" {
        variableNameMap := variableNameMap[name := h];
      }
    }

    method AddAlternativeID(id: nat, newID: nat)
      modifies this`symbolIDAliasMap, this`symbolIDAliasReverseList
      ensures Aliases() == SymbolTable.AddAlternativeID(old(Aliases()), id, newID)
    {
      symbolIDAliasMap := symbolIDAliasMap[newID := id];
      symbolIDAliasReverseList :=
        symbolIDAliasReverseList[id :=
          (if id in symbolIDAliasReverseList then symbolIDAliasReverseList[id] else {}) + {newID}];
    }

    // Symbol::addAlternativeDwarfID
    method AddAlternativeDwarfID(h: Handle, key: Key)
      requires Valid() && h < |objects|
      modifies this`currentID, this`idMap, this`idRevMap, this`symbolIDAliasMap, this`symbolIDAliasReverseList
      ensures Valid()
      ensures Contents() == SymbolTable.AddAlternativeDwarfID(old(Contents()), h, key)
    {
      hide Intern;
      var internalID := GetID(key);
      AddAlternativeID(objects[h].id, internalID);
    }

    // ---- updates of one object ----

    method UpdateFunction(h: Handle, place: Place, die: Die)
      requires Valid() && h < |objects|
      modifies this`currentID, this`idMap, this`idRevMap, objects[h]
      ensures Valid()
      ensures Contents() == SymbolTable.UpdateFunction(old(Contents()), place, die, h)
    {
      objects[h].UpdateFunction(this, place, die);
      assert Views(objects) == old(Views(objects))[h := objects[h].View()];
    }

    method AddParam(h: Handle, place: Place, die: Die)
      requires Valid() && h < |objects|
      modifies this`currentID, this`idMap, this`idRevMap, objects[h]
      ensures Valid()
      ensures Contents() == SymbolTable.AddParam(old(Contents()), place, die, h)
    {
      objects[h].AddParam(this, place, die);
      assert Views(objects) == old(Views(objects))[h := objects[h].View()];
    }

    method UpdateArray(h: Handle, place: Place, die: Die)
      requires Valid() && h < |objects|
      modifies this`currentID, this`idMap, this`idRevMap, objects[h]
      ensures Valid()
      ensures Contents() == SymbolTable.UpdateArray(old(Contents()), place, die, h)
    {
      objects[h].UpdateArray(this, place, die);
      assert Views(objects) == old(Views(objects))[h := objects[h].View()];
    }

    method SetType(h: Handle, place: Place, die: Die)
      requires Valid() && h < |objects|
      modifies this`currentID, this`idMap, this`idRevMap, objects[h]
      ensures Valid()
      ensures Contents() == SymbolTable.SetType(old(Contents()), place, die, h)
    {
      objects[h].SetType(this, place, die);
      assert Views(objects) == old(Views(objects))[h := objects[h].View()];
    }

    method UpdateVariable(h: Handle, die: Die)
      requires Valid() && h < |objects|
      modifies objects[h]
      ensures Valid()
      ensures Contents() == SymbolTable.UpdateVariable(old(Contents()), die, h)
    {
      objects[h].UpdateVariable(die);
      assert Views(objects) == old(Views(objects))[h := objects[h].View()];
    }

    method AddEnum(h: Handle, name: string, value: nat)
      requires Valid() && h < |objects|
      modifies objects[h]
      ensures Valid()
      ensures Contents() == SymbolTable.AddEnum(old(Contents()), name, value, h)
    {
      objects[h].AddEnum(name, value);
      assert Views(objects) == old(Views(objects))[h := objects[h].View()];
    }

    method SetLocation(h: Handle, location: nat)
      requires Valid() && h < |objects|
      modifies objects[h]
      ensures Valid()
      ensures Contents() == SetSym(old(Contents()), h, old(Contents()).objects[h].(location := location))
    {
      objects[h].location := location;
      assert Views(objects) == old(Views(objects))[h := objects[h].View()];
    }

    method ReopenParams(h: Handle)
      requires Valid() && h < |objects|
      modifies objects[h]
      ensures Valid()
      ensures Contents() == SetSym(old(Contents()), h, old(Contents()).objects[h].(paramsFinal := false))
    {
      objects[h].paramsFinal := false;
      assert Views(objects) == old(Views(objects))[h := objects[h].View()];
    }

    // A further DIE of a known function: it is updated and gets an alias.
    method MergeFunction(h: Handle, place: Place, die: Die)
      requires Valid() && h < |objects|
      modifies this`currentID, this`idMap, this`idRevMap, this`symbolIDAliasMap, this`symbolIDAliasReverseList,
        objects[h]
      ensures Valid()
      ensures Contents() ==
              SymbolTable.AddAlternativeDwarfID(SymbolTable.UpdateFunction(old(Contents()), place, die, h), h,
                DieKey(place, die))
    {
      UpdateFunction(h, place, die);
      AddAlternativeDwarfID(h, DieKey(place, die));
    }

    // A further DIE of a known variable.
    method MergeVariable(h: Handle, place: Place, die: Die)
      requires Valid() && h < |objects|
      modifies this`currentID, this`idMap, this`idRevMap, this`symbolIDAliasMap, this`symbolIDAliasReverseList,
        objects[h]
      ensures Valid()
      ensures Contents() ==
              SymbolTable.AddAlternativeDwarfID(SymbolTable.UpdateVariable(old(Contents()), die, h), h,
                DieKey(place, die))
    {
      UpdateVariable(h, die);
      AddAlternativeDwarfID(h, DieKey(place, die));
    }

    // ---- construction ----

    // The constructors of Symbol, Pointer (which sets the size) and BaseType.
    method NewSymbol(place: Place, die: Die, kind: Kind) returns (h: Handle)
      requires Valid()
      modifies this`currentID, this`idMap, this`idRevMap, this`objects, this`Repr, this`symbolIDMap,
        this`baseTypeNameMap
      ensures Valid() && h == |old(objects)|
      ensures Contents() == SymbolTable.NewSymbol(old(Contents()), place, die, kind)
      ensures objects[..h] == old(objects) && fresh(objects[h]) && Repr == old(Repr) + {objects[h]}
    {
      hide Intern;
      var id := GetID(DieKey(place, die));
      assert Contents() == old(Contents()).(ids := Intern(old(IdTables()), DieKey(place, die)).0);
      h := AddSymbol(kind, id, die.name, if kind == Pointer || kind == Array then 8 else die.byteSize % U32);
      if IsBaseType(kind) {
        AddBaseType(die.name, h);
      }
    }

    // The constructors of Typedef, Pointer, ConstType and Array.
    method NewRefType(place: Place, die: Die, kind: Kind) returns (h: Handle)
      requires Valid()
      modifies this`currentID, this`idMap, this`idRevMap, this`objects, this`Repr, this`symbolIDMap,
        this`baseTypeNameMap,
               this`refBaseTypeNameMap, this`arrayVector
      ensures Valid() && h == |old(objects)|
      ensures Contents() == SymbolTable.NewRefType(old(Contents()), place, die, kind)
      ensures objects[..h] == old(objects) && fresh(objects[h]) && Repr == old(Repr) + {objects[h]}
    {
      h := NewSymbol(place, die, kind);
      SetType(h, place, die);
      AddRefBaseType(die.name, h);
      if kind == Array {
        AddArray(h);
      }
    }

    // Function's constructor.
    method NewFunction(place: Place, die: Die) returns (h: Handle)
      requires Valid()
      modifies this`currentID, this`idMap, this`idRevMap, this`objects, this`Repr, this`symbolIDMap,
        this`baseTypeNameMap,
               this`functionNameMap, this`funcList
      ensures Valid() && h == |old(objects)|
      ensures Contents() == SymbolTable.NewFunction(old(Contents()), place, die)
      ensures objects[..h] == old(objects) && fresh(objects[h]) && Repr == old(Repr) + {objects[h]}
    {
      h := NewSymbol(place, die, Func);
      UpdateFunction(h, place, die);
      AddFunction(die.name, h);
      ReopenParams(h);
    }

    // Variable's constructor.
    method NewVariable(place: Place, die: Die) returns (h: Handle)
      requires Valid()
      modifies this`currentID, this`idMap, this`idRevMap, this`objects, this`Repr, this`symbolIDMap,
        this`variableNameMap,
               this`baseTypeNameMap
      ensures Valid() && h == |old(objects)|
      ensures Contents() == SymbolTable.NewVariable(old(Contents()), place, die)
      ensures objects[..h] == old(objects) && fresh(objects[h]) && Repr == old(Repr) + {objects[h]}
    {
      h := NewSymbol(place, die, Var);
      SetType(h, place, die);
      AddVariable(die.name, h);
      if die.location.Some? {
        SetLocation(h, die.location.value);
      }
    }

    // StructuredMember's constructor.
    method NewMember(place: Place, die: Die) returns (h: Handle)
      requires Valid()
      modifies this`currentID, this`idMap, this`idRevMap, this`objects, this`Repr, this`symbolIDMap,
        this`baseTypeNameMap
      ensures Valid() && h == |old(objects)|
      ensures Contents() == SymbolTable.NewMember(old(Contents()), place, die)
      ensures objects[..h] == old(objects) && fresh(objects[h]) && Repr == old(Repr) + {objects[h]}
    {
      h := NewSymbol(place, die, Member);
      SetType(h, place, die);
      if die.memberLocation.Some? {
        SetLocation(h, die.memberLocation.value % U32);
      }
    }

    // Structured::addMember: the first member of a name wins.
    method AddMember(p: Handle, place: Place, die: Die) returns (member: Option<Handle>)
      requires Valid() && p < |objects|
      modifies this`currentID, this`idMap, this`idRevMap, this`objects, this`Repr, this`symbolIDMap,
        this`baseTypeNameMap,
               objects[p]
      ensures Valid()
      ensures Visited(Contents(), member) == SymbolTable.AddMember(old(Contents()), place, die, p)
      ensures fresh(Repr - old(Repr))
    {
      if die.name in objects[p].memberNameMap {
          return objects[p].memberNameMap[die.name];
      }
      var h := NewMember(place, die);
      member := Some(h);
      SetMember(p, die.name, member);
    }

    method SetMember(p: Handle, name: string, member: Option<Handle>)
      requires Valid() && p < |objects|
      modifies objects[p]
      ensures Valid()
      ensures var x := old(Contents()).objects[p];
              Contents() == SetSym(old(Contents()), p, x.(members := x.members[name := member]))
    {
      objects[p].memberNameMap := objects[p].memberNameMap[name := member];
      assert Views(objects) == old(Views(objects))[p := objects[p].View()];
    }

    // The lookup of a type by name reads no deleted object.
    ghost predicate NameAlive(name: string, kind: Kind)
      reads this, objects
    {
      forall h <- CastsTried(Contents().objects, BaseTypesNamed(NameTables(), name), kind) :: h !in deleted
    }

    // findBaseTypeByName<T>: the first object of the name that casts to T.
    method FindBaseTypeByName(name: string, kind: Kind) returns (found: Option<Handle>)
      requires Valid() && forall h <- BaseTypesNamed(NameTables(), name) :: h < |objects|
      requires NameAlive(name, kind)
      ensures found == FirstCast(Contents().objects, BaseTypesNamed(NameTables(), name), kind)
    {
      var range: seq<Handle> := if name in baseTypeNameMap then baseTypeNameMap[name] else [];
      assert range == BaseTypesNamed(NameTables(), name);
      ghost var views := Views(objects);
      var rest: seq<Handle> := range;
      while rest != []
        invariant forall h <- rest :: h < |objects|
        invariant FirstCast(views, range, kind) == FirstCast(views, rest, kind)
        invariant forall h <- CastsTried(views, rest, kind) :: h !in deleted
        decreases |rest|
      {
        assert rest[0] in rest && rest[0] !in deleted;
        if Casts(objects[rest[0]].kind, kind) {
          return Some(rest[0]);
        }
        assert forall h <- rest[1..] :: h in rest;
        rest := rest[1..];
      }
      return None;
    }

    // findSymbolByID, with its three searches; None is the failing assertion at its end.
    method FindSymbolByID(id: nat) returns (symbol: Option<Handle>)
      requires ThirdSearchDead(Contents())
      modifies this`symbolIDAliasReverseList
      ensures symbol == Find(old(Contents()), id)
      ensures symbol.Some? ==> symbolIDAliasReverseList == old(symbolIDAliasReverseList)
      ensures symbol.None? ==>
                Contents() == old(Contents()).(aliases := SymbolTable.GetAliases(old(Contents()).aliases, id).0)
    {
      if id in symbolIDMap {
        return Some(symbolIDMap[id]);
      }
      if id in symbolIDAliasMap {
        var newID := symbolIDAliasMap[id];
        if newID in symbolIDMap {
          return Some(symbolIDMap[newID]);
        }
      }
      var revList := if id in symbolIDAliasReverseList then symbolIDAliasReverseList[id] else {};
      symbolIDAliasReverseList := symbolIDAliasReverseList[id := revList];
      while revList != {}
        invariant forall n <- revList :: n !in symbolIDMap
        decreases revList
      {
        var n :| n in revList;
        if n in symbolIDMap {
          assert false;
        }
        revList := revList - {n};
      }
      return None;
    }

    // The manager resolves ids as the table `t` does.
    ghost predicate Resolves(t: Table)
      reads this
    {
      t.symbolIDMap == symbolIDMap && t.aliases == Aliases()
      && |t.objects| == |objects| && (forall h: nat | h < |objects| :: t.objects[h].id == objects[h].id)
      && ThirdSearchDead(t) && (forall k <- symbolIDMap :: symbolIDMap[k] < |objects|)
    }

    // The id of the symbol that an id resolves to.
    method CanonicalID(id: nat, ghost t: Table) returns (canonical: nat)
      requires Resolves(t) && id != 0 && Find(t, id).Some? && IsAlive(t, deleted, id)
      modifies this`symbolIDAliasReverseList
      ensures symbolIDAliasReverseList == old(symbolIDAliasReverseList)
      ensures canonical == Canonical(t, id)
    {
      var sym := FindSymbolByID(id);
      canonical := objects[sym.value].id;
    }

    // ---- runs ----

    // The manager's state is what its operations so far come to, and no clean-up has run yet.
    ghost predicate Traced()
      reads this, objects
    {
      Valid() && |trace| == |results| && Replay(START, trace) == Some(State(Contents(), results)) && deleted == []
    }

    // The run has come to the operations `ops`, and its results began with `earlier`.
    ghost predicate Reached(ops: seq<Op>, earlier: seq<Option<Handle>>)
      reads this, objects
    {
      Traced() && trace == ops && earlier <= results
    }

    // The operation `op`, whose effect the fields already have, becomes part of the run.
    ghost method Record(op: Op, result: Option<Handle>)
      requires Valid() && |trace| == |results| && deleted == []
      requires Replay(START, trace + [op]) == Some(State(Contents(), results + [result]))
      modifies this`trace, this`results
      ensures Traced() && trace == old(trace) + [op] && results == old(results) + [result]
      ensures Contents() == old(Contents())
    {
      trace, results := trace + [op], results + [result];
    }

    // A traced manager has no dangling handles.
    lemma TracedInRange()
      requires Traced()
      ensures HandlesInRange(Contents()) && StateInRange(State(Contents(), results))
    {
      ReplayInRange(START, trace);
    }

    // Lookups that leave a mark in the tables are operations of the run, too.
    method GetRevID(id: nat) returns (key: Key)
      requires Traced()
      modifies this`idRevMap, this`trace, this`results
      ensures Traced() && trace == old(trace) + [RevID(id)]
      ensures (IdTables(), key) == SymbolTable.GetRevID(old(IdTables()), id)
    {
      ReplaySnoc(START, trace, RevID(id));
      if id !in idRevMap {
        idRevMap := idRevMap[id := (0, 0)];
      }
      key := idRevMap[id];
      Record(RevID(id), None);
    }

    method GetAliases(id: nat) returns (aliases: set<nat>)
      requires Traced()
      modifies this`symbolIDAliasReverseList, this`trace, this`results
      ensures Traced() && trace == old(trace) + [Dwarf.Op.Aliases(id)]
      ensures (Aliases(), aliases) == SymbolTable.GetAliases(old(Aliases()), id)
      ensures aliases == if id in old(symbolIDAliasReverseList) then old(symbolIDAliasReverseList)[id] else {}
      ensures symbolIDAliasReverseList == old(symbolIDAliasReverseList)[id := aliases]
    {
      ReplaySnoc(START, trace, Dwarf.Op.Aliases(id));
      aliases := if id in symbolIDAliasReverseList then symbolIDAliasReverseList[id] else {};
      symbolIDAliasReverseList := symbolIDAliasReverseList[id := aliases];
      assert Contents() == old(Contents()).(aliases := SymbolTable.GetAliases(old(Aliases()), id).0);
      Record(Dwarf.Op.Aliases(id), None);
    }

    // RefBaseType::getBaseType: the type is resolved at the first call only.  None is a failing assertion.
    method ResolveBaseType(h: Handle) returns (base: Option<Handle>)
      requires Valid() && ThirdSearchDead(Contents()) && forall k <- symbolIDMap :: symbolIDMap[k] < |objects|
      requires h < |objects| && IsRefType(objects[h].kind) && IsAlive(Contents(), deleted, objects[h].typ)
      modifies this`symbolIDAliasReverseList, objects[h]
      ensures Valid()
      ensures match ResolveBase(old(Contents()), h)
              case None => base == None
              case Some(t) => Contents() == t && base.Some? && t.objects[h].base == base
    {
      if objects[h].base.None? {
        if objects[h].typ == 0 { return None; }
        var symbol := FindSymbolByID(objects[h].typ);
        if symbol.None? || !IsBaseType(objects[symbol.value].kind) { return None; }
        objects[h].base := symbol;
      }
      base := objects[h].base;
      assert Views(objects) == ResolveBase(old(Contents()), h).value.objects;
    }

    // The same as an operation of a run, which stops if the assertion fails.
    method GetBaseType(h: Handle) returns (base: Option<Handle>)
      requires Traced() && ThirdSearchDead(Contents()) && deleted == [] && h < |objects| && IsRefType(objects[h].kind)
      modifies this`symbolIDAliasReverseList, this`trace, this`results, objects[h]
      ensures if base.None? then Replay(START, old(trace) + [Resolve(h)]) == None
              else Traced() && trace == old(trace) + [Resolve(h)]
      ensures match ResolveBase(old(Contents()), h)
              case None => base == None
              case Some(t) => Contents() == t && base.Some? && t.objects[h].base == base
    {
      ResolveExtends(trace, State(Contents(), results), h);
      TracedInRange();
      base := ResolveBaseType(h);
      if base.None? { return; }
      Record(Resolve(h), None);
    }

    // Structured::memberByName: the lookup enters a null member under an unknown name.
    method LookUpMember(h: Handle, name: string) returns (member: Option<Handle>)
      requires Valid() && h < |objects| && IsStructured(objects[h].kind)
      modifies objects[h]
      ensures Valid() && Contents() == SymbolTable.MemberByName(old(Contents()), h, name)
      ensures name in objects[h].memberNameMap && member == objects[h].memberNameMap[name]
    {
      if name !in objects[h].memberNameMap {
        objects[h].memberNameMap := objects[h].memberNameMap[name := None];
      }
      member := objects[h].memberNameMap[name];
      assert Views(objects) == SymbolTable.MemberByName(old(Contents()), h, name).objects;
    }

    method MemberByName(h: Handle, name: string) returns (member: Option<Handle>)
      requires Traced() && h < |objects| && IsStructured(objects[h].kind)
      modifies this`trace, this`results, objects[h]
      ensures Traced() && trace == old(trace) + [MemberNamed(h, name)]
      ensures Contents() == SymbolTable.MemberByName(old(Contents()), h, name)
      ensures name in objects[h].memberNameMap && member == objects[h].memberNameMap[name]
    {
      MemberNamedExtends(trace, State(Contents(), results), h, name);
      member := LookUpMember(h, name);
      Record(MemberNamed(h, name), None);
    }

    // ---- clean-up ----

    // The first loop of cleanArrays: every array's element type becomes canonical.
    method UpdateAllArrayTypes(ghost t: Table)
      requires Valid() && t == Contents() && ArraysCleanable(t, deleted) && ThirdSearchDead(t)
      modifies this`symbolIDAliasReverseList, objects
      ensures symbolIDAliasReverseList == old(symbolIDAliasReverseList)
      ensures Views(objects) == ArrayObjects(t)
    {
      var i := 0;
      while i < |arrayVector|
        invariant 0 <= i <= |arrayVector| && Resolves(t)
        invariant symbolIDAliasReverseList == old(symbolIDAliasReverseList)
        invariant ArraysUpdated(t, arrayVector[..i])
      {
        ArrayIsCleanable(t, deleted, i);
        UpdateOneArray(t, arrayVector[..i], arrayVector[i]);
        i := i + 1;
      }
      AllArraysUpdated(t);
    }

    lemma AllArraysUpdated(t: Table)
      requires ArraysUpdated(t, t.names.arrays[..|t.names.arrays|])
      ensures Views(objects) == ArrayObjects(t)
    {
      assert t.names.arrays[..|t.names.arrays|] == t.names.arrays;
    }

    // The arrays listed in `done` have canonical types, the other objects are as in `t`.
    ghost predicate ArraysUpdated(t: Table, done: seq<Handle>)
      reads this, objects
    {
      |objects| == |t.objects| && forall h: nat | h < |objects| ::
       objects[h].View() == if h in done then UpdatedArrayTypes(t, t.objects[h]) else t.objects[h]
    }

    method UpdateOneArray(ghost t: Table, ghost done: seq<Handle>, h: Handle)
      requires Valid() && Resolves(t) && ArraysUpdated(t, done) && h < |objects| && h !in done
      requires t.objects[h].typ != 0 ==> Find(t, t.objects[h].typ).Some? && IsAlive(t, deleted, t.objects[h].typ)
      modifies this`symbolIDAliasReverseList, objects[h]
      ensures symbolIDAliasReverseList == old(symbolIDAliasReverseList)
      ensures ArraysUpdated(t, done + [h])
    {
      objects[h].UpdateArrayTypes(this, t);
      assert objects[h].View() == UpdatedArrayTypes(t, t.objects[h]);
    }

    // The manager, the head and the new list are as the sweep `w` has them.
    ghost predicate At(w: Swept, head: Handle, tmp: seq<Handle>, before: seq<Handle>)
      reads this
    {
      Aliases() == w.aliases && head == w.head && tmp == w.kept && deleted == before + w.deleted
    }

    // The body of the loop of Sweep: the object `h` is merged into `head`, or it is the new head.
    method MergeOrKeep(head: Handle, tmp: seq<Handle>, h: Handle, equal: (Sym, Sym) -> bool,
                       ghost views: seq<Sym>, ghost w: Swept, ghost before: seq<Handle>)
      returns (head1: Handle, tmp1: seq<Handle>)
      requires head < |objects| && h < |objects| && views == Views(objects) && At(w, head, tmp, before)
      modifies this`symbolIDAliasMap, this`symbolIDAliasReverseList, this`deleted
      ensures head1 < |objects| && At(SweepStep(views, w, h, equal), head1, tmp1, before)
    {
      head1, tmp1 := head, tmp;
      if equal(objects[head].View(), objects[h].View()) {
        AddAlternativeID(objects[head].id, objects[h].id);
        deleted := deleted + [h];
      } else {
        head1 := h;
        tmp1 := tmp1 + [h];
      }
    }

    // The second loop of cleanArrays and of cleanFunctions, over the sorted list `s`; `views` are the
    // objects as values and `w` is what the sweep comes to.
    method Sweep(s: seq<Handle>, equal: (Sym, Sym) -> bool, ghost views: seq<Sym>)
        returns (tmp: seq<Handle>, ghost w: Swept)
      requires s != [] && Within(s, |objects|) && views == Views(objects)
      modifies this`symbolIDAliasMap, this`symbolIDAliasReverseList, this`deleted
      ensures w == CleanupSpec.Sweep(views, old(Aliases()), s, |s|, equal)
      ensures Aliases() == w.aliases && tmp == w.kept && deleted == old(deleted) + w.deleted
    {
      hide SweepStep;
      var oldPtr: Handle, item: nat := s[0], 1;
      tmp := [];
      w := CleanupSpec.Sweep(views, Aliases(), s, 1, equal);
      while item < |s|
        invariant 1 <= item <= |s| && oldPtr < |objects| && At(w, oldPtr, tmp, old(deleted))
        invariant w == CleanupSpec.Sweep(views, old(Aliases()), s, item, equal)
      {
        oldPtr, tmp := MergeOrKeep(oldPtr, tmp, s[item], equal, views, w, old(deleted));
        w := SweepStep(views, w, s[item], equal);
        item := item + 1;
      }
    }

    // The last loop of cleanArrays: the vector is entered into the index by element type.
    method IndexArrayTypes()
      requires Valid() && Within(arrayVector, |objects|)
      modifies this`arrayTypeMap
      ensures Views(objects) == old(Views(objects))
      ensures arrayTypeMap == IndexArrays(old(arrayTypeMap), old(Views(objects)), arrayVector, |arrayVector|)
    {
      var i := 0;
      while i < |arrayVector|
        invariant 0 <= i <= |arrayVector|
        invariant arrayTypeMap == IndexArrays(old(arrayTypeMap), Views(objects), arrayVector, i)
      {
        arrayTypeMap := MultimapInsert(arrayTypeMap, objects[arrayVector[i]].typ, arrayVector[i]);
        i := i + 1;
      }
    }

    // std::sort with Array's comparison.
    method SortArrays(ghost t: Table)
      requires Within(t.names.arrays, |t.objects|) && arrayVector == t.names.arrays && Views(objects) == ArrayObjects(t)
      modifies this`arrayVector
      ensures arrayVector == SortedArrays(t)
    {
      arrayVector := Sort(Views(objects), arrayVector, ArrayLess);
    }

    // The manager holds the table `t` but for the objects `views` and the vector of arrays.
    ghost predicate HoldsBut(t: Table, views: seq<Sym>)
      reads this, objects
    {
      && IdTables() == t.ids && Views(objects) == views && symbolIDMap == t.symbolIDMap && Aliases() == t.aliases
      && NameTables() == t.names.(arrays := arrayVector)
    }

    // The sweep of the sorted vector; `t` is the table before the pass.
    method MergeArrays(ghost t: Table) returns (ghost w: Swept)
      requires Within(t.names.arrays, |t.objects|) && arrayVector == SortedArrays(t) && arrayVector != []
      requires Views(objects) == ArrayObjects(t) && Aliases() == t.aliases
      modifies this`symbolIDAliasMap, this`symbolIDAliasReverseList, this`deleted, this`arrayVector
      ensures w == CleanupSpec.Sweep(ArrayObjects(t), t.aliases, SortedArrays(t), |SortedArrays(t)|, ArrayEqual)
      ensures Aliases() == w.aliases && arrayVector == w.kept && deleted == old(deleted) + w.deleted
    {
      arrayVector, w := Sweep(arrayVector, ArrayEqual, ArrayObjects(t));
    }

    // The table after the sweep.
    method MergeSortedArrays(ghost t: Table)
      requires Within(t.names.arrays, |t.objects|) && arrayVector == SortedArrays(t) && arrayVector != []
      requires HoldsBut(t, ArrayObjects(t))
      modifies this`symbolIDAliasMap, this`symbolIDAliasReverseList, this`deleted, this`arrayVector
      ensures Contents() == CleanupSpec.CleanArrays(t).table
      ensures deleted == old(deleted) + CleanupSpec.CleanArrays(t).deleted
    {
      ghost var w := MergeArrays(t);
      assert Views(objects) == ArrayObjects(t);
      assert NameTables() == t.names.(arrays := w.kept);
      CleanArraysIs(t, Contents(), w);
    }

    // The sort and the sweep; an empty vector ends the pass.
    method SortAndMergeArrays(ghost t: Table) returns (empty: bool)
      requires Valid() && Within(t.names.arrays, |t.objects|) && arrayVector == t.names.arrays
      requires HoldsBut(t, ArrayObjects(t))
      modifies this`symbolIDAliasMap, this`symbolIDAliasReverseList, this`deleted, this`arrayVector
      ensures Within(arrayVector, |objects|) && (empty ==> arrayVector == [])
      ensures Contents() == CleanupSpec.CleanArrays(t).table
      ensures deleted == old(deleted) + CleanupSpec.CleanArrays(t).deleted
    {
      SortArrays(t);
      if arrayVector == [] {
        EmptyArrays(t);
        return true;
      }
      MergeSortedArrays(t);
      empty := false;
    }

    // cleanArrays after its first loop.
    method FinishArrays(ghost t: Table)
      requires Valid() && Within(t.names.arrays, |t.objects|) && arrayVector == t.names.arrays
      requires HoldsBut(t, ArrayObjects(t))
      modifies this`symbolIDAliasMap, this`symbolIDAliasReverseList, this`deleted, this`arrayVector, this`arrayTypeMap
      ensures Within(arrayVector, |objects|)
      ensures Contents() == CleanupSpec.CleanArrays(t).table
      ensures deleted == old(deleted) + CleanupSpec.CleanArrays(t).deleted
      ensures arrayTypeMap == IndexArrays(old(arrayTypeMap), Contents().objects, arrayVector, |arrayVector|)
    {
      var empty := SortAndMergeArrays(t);
      if empty { return; }
      IndexArrayTypes();
    }

    method CleanArrays()
      requires Valid() && ArraysCleanable(Contents(), deleted) && ThirdSearchDead(Contents())
      modifies this`symbolIDAliasMap, this`symbolIDAliasReverseList, this`deleted, this`arrayVector, this`arrayTypeMap,
        objects
      ensures Valid() && Within(arrayVector, |objects|)
      ensures Contents() == CleanupSpec.CleanArrays(old(Contents())).table
      ensures deleted == old(deleted) + CleanupSpec.CleanArrays(old(Contents())).deleted
      ensures arrayTypeMap == IndexArrays(old(arrayTypeMap), Contents().objects, arrayVector, |arrayVector|)
    {
      hide CleanupSpec.CleanArrays, ArrayObjects, IndexArrays;
      ghost var t := Contents();
      UpdateAllArrayTypes(t);
      FinishArrays(t);
    }

    // ---- cleanFunctions, the same way ----

    method UpdateAllFunctionTypes(ghost t: Table)
      requires Valid() && t == Contents() && FunctionsCleanable(t, deleted) && ThirdSearchDead(t)
      modifies this`symbolIDAliasReverseList, objects
      ensures symbolIDAliasReverseList == old(symbolIDAliasReverseList)
      ensures Views(objects) == FunctionObjects(t)
    {
      var i := 0;
      while i < |funcList|
        invariant 0 <= i <= |funcList| && Resolves(t)
        invariant symbolIDAliasReverseList == old(symbolIDAliasReverseList)
        invariant FunctionsUpdated(t, funcList[..i])
      {
        FunctionIsCleanable(t, deleted, i);
        UpdateOneFunction(t, funcList[..i], funcList[i]);
        i := i + 1;
      }
      AllFunctionsUpdated(t);
    }

    lemma AllFunctionsUpdated(t: Table)
      requires FunctionsUpdated(t, t.names.funcList[..|t.names.funcList|])
      ensures Views(objects) == FunctionObjects(t)
    {
      assert t.names.funcList[..|t.names.funcList|] == t.names.funcList;
    }

    // The functions listed in `done` have canonical types, the other objects are as in `t`.
    ghost predicate FunctionsUpdated(t: Table, done: seq<Handle>)
      reads this, objects
    {
      |objects| == |t.objects| && forall h: nat | h < |objects| ::
       objects[h].View() == if h in done then UpdatedFunctionTypes(t, t.objects[h]) else t.objects[h]
    }

    method UpdateOneFunction(ghost t: Table, ghost done: seq<Handle>, h: Handle)
      requires Valid() && Resolves(t) && FunctionsUpdated(t, done) && h < |objects| && h !in done
      requires t.objects[h].rettype != 0 ==>
                 Find(t, t.objects[h].rettype).Some? && IsAlive(t, deleted, t.objects[h].rettype)
      requires ParamsResolve(t, t.objects[h].params) && ParamsAlive(t, deleted, t.objects[h].params)
      modifies this`symbolIDAliasReverseList, objects[h]
      ensures symbolIDAliasReverseList == old(symbolIDAliasReverseList)
      ensures FunctionsUpdated(t, done + [h])
    {
      objects[h].UpdateFunctionTypes(this, t);
      assert objects[h].View() == UpdatedFunctionTypes(t, t.objects[h]);
    }

    method SortFunctions(ghost t: Table)
      requires Within(t.names.funcList, |t.objects|) && funcList == t.names.funcList
               && Views(objects) == FunctionObjects(t)
      modifies this`funcList
      ensures funcList == SortedFunctions(t)
    {
      funcList := Sort(Views(objects), funcList, FunctionLess);
    }

    method MergeFunctions(ghost t: Table) returns (ghost w: Swept)
      requires Within(t.names.funcList, |t.objects|) && funcList == SortedFunctions(t) && funcList != []
      requires Views(objects) == FunctionObjects(t) && Aliases() == t.aliases
      modifies this`symbolIDAliasMap, this`symbolIDAliasReverseList, this`deleted, this`funcList
      ensures w == CleanupSpec.Sweep(FunctionObjects(t), t.aliases, SortedFunctions(t), |SortedFunctions(t)|,
              FunctionEqual)
      ensures Aliases() == w.aliases && funcList == w.kept && deleted == old(deleted) + w.deleted
    {
      funcList, w := Sweep(funcList, FunctionEqual, FunctionObjects(t));
    }

    // The manager holds the table `t` but for the objects `views` and the list of functions.
    ghost predicate HoldsButFunctions(t: Table, views: seq<Sym>)
      reads this, objects
    {
      && IdTables() == t.ids && Views(objects) == views && symbolIDMap == t.symbolIDMap && Aliases() == t.aliases
      && NameTables() == t.names.(funcList := funcList)
    }

    method MergeSortedFunctions(ghost t: Table)
      requires Within(t.names.funcList, |t.objects|) && funcList == SortedFunctions(t) && funcList != []
      requires HoldsButFunctions(t, FunctionObjects(t))
      modifies this`symbolIDAliasMap, this`symbolIDAliasReverseList, this`deleted, this`funcList
      ensures Contents() == CleanupSpec.CleanFunctions(t).table
      ensures deleted == old(deleted) + CleanupSpec.CleanFunctions(t).deleted
    {
      ghost var w := MergeFunctions(t);
      assert Views(objects) == FunctionObjects(t);
      assert NameTables() == t.names.(funcList := w.kept);
      CleanFunctionsIs(t, Contents(), w);
    }

    method SortAndMergeFunctions(ghost t: Table)
      requires Valid() && Within(t.names.funcList, |t.objects|) && funcList == t.names.funcList
      requires HoldsButFunctions(t, FunctionObjects(t))
      modifies this`symbolIDAliasMap, this`symbolIDAliasReverseList, this`deleted, this`funcList
      ensures Contents() == CleanupSpec.CleanFunctions(t).table
      ensures deleted == old(deleted) + CleanupSpec.CleanFunctions(t).deleted
    {
      SortFunctions(t);
      if funcList == [] {
        EmptyFunctions(t);
        return;
      }
      MergeSortedFunctions(t);
    }

    method CleanFunctions()
      requires Valid() && FunctionsCleanable(Contents(), deleted) && ThirdSearchDead(Contents())
      modifies this`symbolIDAliasMap, this`symbolIDAliasReverseList, this`deleted, this`funcList, objects
      ensures Valid()
      ensures Contents() == CleanupSpec.CleanFunctions(old(Contents())).table
      ensures deleted == old(deleted) + CleanupSpec.CleanFunctions(old(Contents())).deleted
    {
      hide FunctionObjects, SortedFunctions, CleanupSpec.Sweep;
      ghost var t := Contents();
      UpdateAllFunctionTypes(t);
      SortAndMergeFunctions(t);
    }

    // ---- findArrayByTypeID ----

    // The scan of arrayTypeMap from the first entry of a key to its end.
    method ScanArrayTypes(key: nat, length: nat) returns (found: Option<Handle>)
      requires PairsWithin(arrayTypeMap, |objects|)
      ensures found == ScanFrom(arrayTypeMap, Views(objects), key, length)
    {
      var bt: nat := FirstKey(arrayTypeMap, key);
      while bt < |arrayTypeMap|
        invariant bt <= |arrayTypeMap|
        invariant ScanFrom(arrayTypeMap, Views(objects), key, length)
                  == ScanLength(arrayTypeMap, Views(objects), bt, length)
      {
        if objects[arrayTypeMap[bt].1].length == length {
          return Some(arrayTypeMap[bt].1);
        }
        bt := bt + 1;
      }
      return None;
    }

    method FindArrayByTypeID(id: nat, length: nat) returns (found: Option<Handle>)
      requires PairsWithin(arrayTypeMap, |objects|)
      modifies this`symbolIDAliasReverseList
      ensures found == FindArray(arrayTypeMap, Views(objects), AliasesOf(old(Aliases()), id), id, length)
      ensures symbolIDAliasReverseList == old(symbolIDAliasReverseList)
              || Aliases() == SymbolTable.GetAliases(old(Aliases()), id).0
    {
      found := ScanArrayTypes(id, length);
      if found.Some? { return; }
      var revList := if id in symbolIDAliasReverseList then symbolIDAliasReverseList[id] else {};
      symbolIDAliasReverseList := symbolIDAliasReverseList[id := revList];
      ghost var views := Views(objects);
      while revList != {}
        invariant Views(objects) == views && found.None? && ScanFrom(arrayTypeMap, views, id, length).None?
        invariant Aliases() == SymbolTable.GetAliases(old(Aliases()), id).0
        invariant ScanAliases(arrayTypeMap, views, AliasesOf(old(Aliases()), id), length)
                  == ScanAliases(arrayTypeMap, views, revList, length)
        decreases revList
      {
        var i := Least(revList);
        found := ScanArrayTypes(i, length);
        if found.Some? { return; }
        revList := revList - {i};
      }
    }
  }
}
