/**
 The invariant of the symbol table, what a step may change, and the proof that every visit of a DIE
 that was not visited before keeps the invariant.
 */
module Invariant {
  import opened Basics
  import opened Dwarf
  import opened SymbolTable

  // ---- the invariant ----

  // getID issues 1..current, each to one key, and getRevID inverts it; a default entry that
  // getRevID inserted belongs to an id that is not issued.
  ghost predicate IdsOk(ids: Ids) {
    && (forall k <- ids.byKey ::
          1 <= ids.byKey[k] <= ids.current && ids.byKey[k] in ids.byID && ids.byID[ids.byKey[k]] == k)
    && (forall i | 1 <= i <= ids.current ::
          i in ids.byID && ids.byID[i] in ids.byKey && ids.byKey[ids.byID[i]] == i)
    && (forall i <- ids.byID :: 1 <= i <= ids.current || ids.byID[i] == (0, 0))
  }

  // Every object is registered under its own id, and nothing else is registered.
  ghost predicate ObjectsOk(t: Table) {
    && (forall h: nat | h < |t.objects| ::
          t.objects[h].id in t.symbolIDMap && t.symbolIDMap[t.objects[h].id] == h)
    && (forall k <- t.symbolIDMap :: t.symbolIDMap[k] < |t.objects| && t.objects[t.symbolIDMap[k]].id == k)
  }

  // No id is both a symbol and an alias, and every alias points directly at a symbol.
  ghost predicate AliasesOk(t: Table) {
    forall n <- t.aliases.target :: n !in t.symbolIDMap && t.aliases.target[n] in t.symbolIDMap
  }

  // The reverse lists are the inverse of the alias map.
  ghost predicate ReverseOk(al: Aliasing) {
    && (forall n <- al.target :: n in AliasesOf(al, al.target[n]))
    && (forall i <- al.reverse :: forall n <- al.reverse[i] :: n in al.target && al.target[n] == i)
  }

  // The name index of base types lists exactly the named base types.
  ghost predicate BaseIndexOk(t: Table) {
    && (forall n <- t.names.baseTypes :: n != "" && forall h <- t.names.baseTypes[n] ::
          h < |t.objects| && IsBaseType(t.objects[h].kind) && t.objects[h].name == n)
    && (forall h: nat | h < |t.objects| && IsBaseType(t.objects[h].kind) && t.objects[h].name != "" ::
          h in BaseTypesNamed(t.names, t.objects[h].name))
  }

  // The base types of a name are listed in creation order, and a name's reference type is the youngest one.
  ghost predicate OrderOk(t: Table) {
    (forall n <- t.names.baseTypes :: IsAscending(t.names.baseTypes[n]))
    && forall h: nat | h < |t.objects| && IsRefType(t.objects[h].kind) && t.objects[h].name in t.names.refTypes ::
         h <= t.names.refTypes[t.objects[h].name]
  }

  ghost predicate IsAscending(list: seq<Handle>) {
    forall i, j | 0 <= i < j < |list| :: list[i] < list[j]
  }

  // An index that maps names to one handle covers exactly the names of the objects of a class.
  ghost predicate IndexOk(t: Table, index: map<string, Handle>, test: Kind -> bool) {
    && (forall n <- index :: n != "" && index[n] < |t.objects|
                             && test(t.objects[index[n]].kind) && t.objects[index[n]].name == n)
    && (forall h: nat | h < |t.objects| && test(t.objects[h].kind) && t.objects[h].name != "" ::
          t.objects[h].name in index)
  }

  // A list of handles holds exactly the objects of a class, in creation order.
  ghost predicate ListOk(t: Table, list: seq<Handle>, kind: Kind) {
    && (forall i, j | 0 <= i < j < |list| :: list[i] < list[j])
    && (forall h <- list :: h < |t.objects| && t.objects[h].kind == kind)
    && (forall h: nat | h < |t.objects| && t.objects[h].kind == kind :: h in list)
  }

  // Objects that are found by name before they are created do not share a name.
  ghost predicate MergedByName(t: Table, kind: Kind) {
    forall g: nat, h: nat | g < h < |t.objects| && t.objects[g].kind == kind && t.objects[h].kind == kind ::
      t.objects[g].name != t.objects[h].name || t.objects[h].name == ""
  }

  // The members of a struct or union are member objects.
  ghost predicate MembersOk(t: Table) {
    forall h: nat | h < |t.objects| :: forall n <- t.objects[h].members :: t.objects[h].members[n].Some? ==>
      var m := t.objects[h].members[n].value; m < |t.objects| && t.objects[m].kind == Member && t.objects[m].name == n
  }

  ghost predicate NamesOk(t: Table) {
    && BaseIndexOk(t)
    && OrderOk(t)
    && IndexOk(t, t.names.refTypes, IsRefType)
    && IndexOk(t, t.names.variables, IsVariable)
    && IndexOk(t, t.names.functions, IsFunction)
    && ListOk(t, t.names.funcList, Func)
    && ListOk(t, t.names.arrays, Array)
  }

  ghost predicate MergesOk(t: Table) {
    MergedByName(t, Func) && MergedByName(t, Var) && MergedByName(t, Struct) && MergedByName(t, Union)
      && MergedByName(t, Enum)
  }

  // Symbol ids and aliases were issued by getID.
  ghost predicate IssuedOk(t: Table) {
    && (forall id <- t.symbolIDMap :: 1 <= id <= t.ids.current)
    && (forall id <- t.aliases.target :: 1 <= id <= t.ids.current)
  }

  // The invariant.
  ghost predicate Inv(t: Table) {
    && IdsOk(t.ids) && IssuedOk(t) && ObjectsOk(t) && AliasesOk(t) && ReverseOk(t.aliases)
    && NamesOk(t) && MergesOk(t) && MembersOk(t)
  }

  // The id of `key` names neither a symbol nor an alias.
  ghost predicate Unseen(t: Table, key: Key) {
    key in t.ids.byKey ==> t.ids.byKey[key] !in t.symbolIDMap && t.ids.byKey[key] !in t.aliases.target
  }

  // Every symbol id and alias was issued to a key of `keys`.
  ghost predicate Known(t: Table, keys: set<Key>) {
    forall id | id in t.symbolIDMap || id in t.aliases.target ::
      id in t.ids.byID && t.ids.byID[id] in keys
  }

  lemma FreshKeyIsUnseen(t: Table, keys: set<Key>, key: Key)
    requires Inv(t) && Known(t, keys) && key !in keys
    ensures Unseen(t, key)
  {}

  // ---- what a step may change ----

  // The parts of an object that no visit changes.
  predicate SameIdentity(a: Sym, b: Sym) {
    a.kind == b.kind && a.id == b.id && a.name == b.name && a.typ == b.typ
  }

  // Objects keep their identity; nothing registered, aliased or interned is changed or dropped.
  ghost predicate Extends(t: Table, t1: Table) {
    && |t.objects| <= |t1.objects|
    && (forall h: nat | h < |t.objects| :: SameIdentity(t.objects[h], t1.objects[h]))
    && (forall k <- t.symbolIDMap :: k in t1.symbolIDMap && t1.symbolIDMap[k] == t.symbolIDMap[k])
    && (forall n <- t.aliases.target :: n in t1.aliases.target && t1.aliases.target[n] == t.aliases.target[n])
    && (forall k <- t.ids.byKey :: k in t1.ids.byKey && t1.ids.byKey[k] == t.ids.byKey[k])
  }

  // Only the id of `key` may become a symbol or an alias.
  ghost predicate OnlyAdds(t: Table, t1: Table, key: Key) {
    && (forall id <- t1.symbolIDMap :: id in t.symbolIDMap || (key in t1.ids.byKey && id == t1.ids.byKey[key]))
    && (forall id <- t1.aliases.target :: id in t.aliases.target || (key in t1.ids.byKey && id == t1.ids.byKey[key]))
  }

  ghost predicate KeptBy(t: Table, t1: Table, key: Key) {
    Inv(t1) && Extends(t, t1) && OnlyAdds(t, t1, key)
  }

  // A registered or aliased id resolves to the same object for ever.
  lemma FindIsStable(t: Table, t1: Table, id: nat)
    requires Inv(t) && Inv(t1) && Extends(t, t1) && Find(t, id).Some?
    ensures Find(t1, id) == Find(t, id)
  {}

  lemma ExtendsTransitive(t: Table, t1: Table, t2: Table)
    requires Extends(t, t1) && Extends(t1, t2)
    ensures Extends(t, t2)
  {}

  // ---- interning ----

  // What growing the interning tables may do.
  ghost predicate IdsGrow(ids: Ids, ids1: Ids) {
    && IdsOk(ids1)
    && ids.current <= ids1.current
    && (forall k <- ids.byKey :: k in ids1.byKey && ids1.byKey[k] == ids.byKey[k])
    && (forall k <- ids1.byKey :: k in ids.byKey || ids1.byKey[k] > ids.current)
  }

  lemma InternKeeps(ids: Ids, key: Key)
    requires IdsOk(ids)
    ensures IdsGrow(ids, Intern(ids, key).0)
    ensures key in Intern(ids, key).0.byKey && Intern(ids, key).0.byKey[key] == Intern(ids, key).1 > 0
  {}

  lemma InternTypeKeeps(ids: Ids, place: Place, ref: Option<u64>)
    requires IdsOk(ids)
    ensures IdsGrow(ids, InternType(ids, place, ref).0)
    ensures ref.Some? ==>
              && RefKey(place, ref.value) in InternType(ids, place, ref).0.byKey
              && InternType(ids, place, ref).0.byKey[RefKey(place, ref.value)] == InternType(ids, place, ref).1 > 0
  {
    if ref.Some? { InternKeeps(ids, RefKey(place, ref.value)); }
  }

  // ---- the three ways a table changes ----

  // Objects are updated without changing their identity or their members.
  ghost predicate Updates(t: Table, t1: Table) {
    && IdsGrow(t.ids, t1.ids)
    && SameIdentities(t, t1)
    && (forall h: nat | h < |t.objects| :: t1.objects[h].members == t.objects[h].members)
    && t1.symbolIDMap == t.symbolIDMap && t1.aliases == t.aliases && t1.names == t.names
  }

  // Objects keep the identity on which the indexes rest.
  ghost predicate SameIdentities(t: Table, t1: Table) {
    |t1.objects| == |t.objects| && forall h: nat | h < |t.objects| :: SameIdentity(t.objects[h], t1.objects[h])
  }

  lemma IdentityKeepsNames(t: Table, t1: Table)
    requires NamesOk(t) && SameIdentities(t, t1) && t1.names == t.names
    ensures NamesOk(t1)
  {
    IdentityKeepsOrder(t, t1);
    IdentityKeepsBaseIndex(t, t1);
    IdentityKeepsIndex(t, t1, t.names.refTypes, IsRefType);
    IdentityKeepsIndex(t, t1, t.names.variables, IsVariable);
    IdentityKeepsIndex(t, t1, t.names.functions, IsFunction);
  }

  lemma IdentityKeepsBaseIndex(t: Table, t1: Table)
    requires BaseIndexOk(t) && SameIdentities(t, t1) && t1.names == t.names
    ensures BaseIndexOk(t1)
  {}

  lemma IdentityKeepsIndex(t: Table, t1: Table, index: map<string, Handle>, test: Kind -> bool)
    requires IndexOk(t, index, test) && SameIdentities(t, t1)
    ensures IndexOk(t1, index, test)
  {}

  lemma IdentityKeepsOrder(t: Table, t1: Table)
    requires OrderOk(t) && SameIdentities(t, t1) && t1.names == t.names
    ensures OrderOk(t1)
  {}

  lemma IdentityKeepsMerges(t: Table, t1: Table)
    requires MergesOk(t) && SameIdentities(t, t1)
    ensures MergesOk(t1)
  {}

  lemma IdentityKeepsMaps(t: Table, t1: Table)
    requires IssuedOk(t) && ObjectsOk(t) && AliasesOk(t) && SameIdentities(t, t1) && IdsGrow(t.ids, t1.ids)
    requires t1.symbolIDMap == t.symbolIDMap && t1.aliases == t.aliases
    ensures IssuedOk(t1) && ObjectsOk(t1) && AliasesOk(t1) && Extends(t, t1) && forall key :: OnlyAdds(t, t1, key)
  {}

  lemma UpdatesKeeps(t: Table, t1: Table)
    requires Inv(t) && Updates(t, t1)
    ensures Inv(t1) && Extends(t, t1) && forall key :: OnlyAdds(t, t1, key)
  {
    IdentityKeepsNames(t, t1);
    IdentityKeepsMerges(t, t1);
    IdentityKeepsMaps(t, t1);
  }

  // The indexes after an object `s` with handle `h` has been entered.
  function Indexed(names: Names, s: Sym, h: Handle): Names {
    Names(
      if IsBaseType(s.kind) then AddBaseType(names, s.name, h).baseTypes else names.baseTypes,
      if IsRefType(s.kind) then AddRefBaseType(names, s.name, h).refTypes else names.refTypes,
      if IsVariable(s.kind) then AddVariable(names, s.name, h).variables else names.variables,
      if IsFunction(s.kind) then AddFunction(names, s.name, h).functions else names.functions,
      if s.kind == Func then names.funcList + [h] else names.funcList,
      if s.kind == Array then names.arrays + [h] else names.arrays)
  }

  // A new object `s` is entered for `key`.
  ghost predicate Enters(t: Table, t1: Table, key: Key, s: Sym) {
    && IdsGrow(t.ids, t1.ids)
    && key in t1.ids.byKey && t1.ids.byKey[key] == s.id
    && t1.objects == t.objects + [s]
    && t1.symbolIDMap == t.symbolIDMap[s.id := |t.objects|]
    && t1.aliases == t.aliases
    && t1.names == Indexed(t.names, s, |t.objects|)
  }

  // No object of the class of `s` already has its name, for the classes merged by name.
  ghost predicate NewName(t: Table, s: Sym) {
    s.name != "" && s.kind in {Func, Var, Struct, Union, Enum} ==>
      forall h: nat | h < |t.objects| && t.objects[h].kind == s.kind :: t.objects[h].name != s.name
  }

  lemma EntersBaseIndex(t: Table, t1: Table, s: Sym)
    requires BaseIndexOk(t)
    requires t1.objects == t.objects + [s]
    requires t1.names.baseTypes == Indexed(t.names, s, |t.objects|).baseTypes
    ensures BaseIndexOk(t1)
  {
    var h := |t.objects|;
    assert t1.names.baseTypes == if IsBaseType(s.kind) then AddBaseType(t.names, s.name, h).baseTypes
           else t.names.baseTypes;
    forall g: nat | g < |t1.objects| && IsBaseType(t1.objects[g].kind) && t1.objects[g].name != ""
      ensures g in BaseTypesNamed(t1.names, t1.objects[g].name)
    {
      if g < h {
        assert t1.objects[g] == t.objects[g];
        assert g in BaseTypesNamed(t.names, t.objects[g].name);
      } else {
        assert BaseTypesNamed(t1.names, s.name) == BaseTypesNamed(t.names, s.name) + [h];
        assert (BaseTypesNamed(t.names, s.name) + [h])[|BaseTypesNamed(t.names, s.name)|] == h;
      }
    }
  }

  lemma EntersOrder(t: Table, t1: Table, s: Sym)
    requires BaseIndexOk(t) && OrderOk(t) && IndexOk(t, t.names.refTypes, IsRefType)
    requires t1.objects == t.objects + [s] && t1.names == Indexed(t.names, s, |t.objects|)
    ensures OrderOk(t1)
  {
    var h := |t.objects|;
    forall n <- t1.names.baseTypes ensures IsAscending(t1.names.baseTypes[n]) {
      var was := BaseTypesNamed(t.names, n);
      assert forall g <- was :: g < h;
      assert IsAscending(was) by { if n in t.names.baseTypes { assert IsAscending(t.names.baseTypes[n]); } }
      AppendAscends(was, h);
      assert t1.names.baseTypes[n] == was || t1.names.baseTypes[n] == was + [h];
    }
  }

  lemma AppendAscends(list: seq<Handle>, h: Handle)
    requires IsAscending(list) && forall g <- list :: g < h
    ensures IsAscending(list + [h])
  {
    assert forall i | 0 <= i < |list| :: list[i] in list;
  }

  lemma EntersIndex(t: Table, t1: Table, index: map<string, Handle>, index1: map<string, Handle>, test: Kind -> bool,
                    s: Sym)
    requires IndexOk(t, index, test)
    requires t1.objects == t.objects + [s]
    requires if test(s.kind) && s.name != "" then index1 == index[s.name := |t.objects|]
             || (s.name in index && index1 == index)
             else index1 == index
    ensures IndexOk(t1, index1, test)
  {}

  lemma EntersIndexes(t: Table, t1: Table, s: Sym)
    requires NamesOk(t)
    requires t1.objects == t.objects + [s] && t1.names == Indexed(t.names, s, |t.objects|)
    ensures NamesOk(t1)
  {
    EntersBaseIndex(t, t1, s);
    EntersOrder(t, t1, s);
    EntersNameMaps(t, t1, s);
    ListGrows(t, t1, t.names.funcList, Func, s);
    ListGrows(t, t1, t.names.arrays, Array, s);
  }

  lemma EntersNameMaps(t: Table, t1: Table, s: Sym)
    requires IndexOk(t, t.names.refTypes, IsRefType) && IndexOk(t, t.names.variables, IsVariable)
    requires IndexOk(t, t.names.functions, IsFunction)
    requires t1.objects == t.objects + [s] && t1.names == Indexed(t.names, s, |t.objects|)
    ensures IndexOk(t1, t1.names.refTypes, IsRefType) && IndexOk(t1, t1.names.variables, IsVariable)
    ensures IndexOk(t1, t1.names.functions, IsFunction)
  {
    EntersIndex(t, t1, t.names.refTypes, t1.names.refTypes, IsRefType, s);
    EntersIndex(t, t1, t.names.variables, t1.names.variables, IsVariable, s);
    EntersIndex(t, t1, t.names.functions, t1.names.functions, IsFunction, s);
  }

  lemma ListGrows(t: Table, t1: Table, list: seq<Handle>, kind: Kind, s: Sym)
    requires ListOk(t, list, kind) && t1.objects == t.objects + [s]
    ensures ListOk(t1, if s.kind == kind then list + [|t.objects|] else list, kind)
  {
    var list1 := if s.kind == kind then list + [|t.objects|] else list;
    forall h: nat | h < |t1.objects| && t1.objects[h].kind == kind ensures h in list1 {
      if h < |t.objects| {
        assert h in list;
      } else {
        assert list1[|list1| - 1] == h;
      }
    }
    forall i | 0 <= i < |list| ensures list[i] < |t.objects| { assert list[i] in list; }
    assert forall h <- list1 :: h in list || h == |t.objects|;
  }

  // The id under which an unseen key is interned is not in use.
  lemma NewIdIsFree(t: Table, ids1: Ids, key: Key)
    requires IssuedOk(t) && Unseen(t, key) && IdsGrow(t.ids, ids1) && key in ids1.byKey
    ensures ids1.byKey[key] !in t.symbolIDMap && ids1.byKey[key] !in t.aliases.target
  {}

  lemma EntersMaps(t: Table, t1: Table, key: Key, s: Sym)
    requires IssuedOk(t) && ObjectsOk(t) && AliasesOk(t)
    requires Enters(t, t1, key, s) && Unseen(t, key)
    ensures IssuedOk(t1) && ObjectsOk(t1) && AliasesOk(t1) && Extends(t, t1) && OnlyAdds(t, t1, key)
  {
    NewIdIsFree(t, t1.ids, key);
  }

  lemma EntersMerges(t: Table, t1: Table, s: Sym)
    requires MergesOk(t) && NewName(t, s) && t1.objects == t.objects + [s]
    ensures MergesOk(t1)
  {
    EntersMerged(t, t1, s, Func);
    EntersMerged(t, t1, s, Var);
    EntersMerged(t, t1, s, Struct);
    EntersMerged(t, t1, s, Union);
    EntersMerged(t, t1, s, Enum);
  }

  lemma EntersMerged(t: Table, t1: Table, s: Sym, kind: Kind)
    requires MergedByName(t, kind) && kind in {Func, Var, Struct, Union, Enum} && NewName(t, s)
             && t1.objects == t.objects + [s]
    ensures MergedByName(t1, kind)
  {}

  lemma EntersMembers(t: Table, t1: Table, s: Sym)
    requires MembersOk(t) && s.members == map[] && t1.objects == t.objects + [s]
    ensures MembersOk(t1)
  {}

  lemma EntersKeeps(t: Table, t1: Table, key: Key, s: Sym)
    requires Inv(t) && Enters(t, t1, key, s) && Unseen(t, key) && NewName(t, s) && s.members == map[]
    ensures KeptBy(t, t1, key)
  {
    EntersIndexes(t, t1, s);
    EntersMaps(t, t1, key, s);
    EntersMerges(t, t1, s);
    EntersMembers(t, t1, s);
  }

  lemma AliasingKeeps(al: Aliasing, id: nat, n: nat)
    requires ReverseOk(al) && n !in al.target
    ensures ReverseOk(AddAlternativeID(al, id, n))
  {}

  lemma AliasMaps(t: Table, t1: Table, h: Handle, ids: Ids, n: nat)
    requires IssuedOk(t) && ObjectsOk(t) && AliasesOk(t) && h < |t.objects|
    requires IdsGrow(t.ids, ids) && 1 <= n <= ids.current && n !in t.symbolIDMap && n !in t.aliases.target
    requires t1.ids == ids && t1.objects == t.objects && t1.symbolIDMap == t.symbolIDMap
    requires t1.aliases.target == t.aliases.target[n := t.objects[h].id]
    ensures IssuedOk(t1) && ObjectsOk(t1) && AliasesOk(t1) && Extends(t, t1) && Find(t1, n) == Some(h)
  {}

  lemma SameObjects(t: Table, t1: Table)
    requires NamesOk(t) && MergesOk(t) && MembersOk(t) && t1.objects == t.objects && t1.names == t.names
    ensures NamesOk(t1) && MergesOk(t1) && MembersOk(t1)
  {}

  // The DIE of `key` becomes an alias of the object `h`.
  lemma AliasKeeps(t: Table, h: Handle, key: Key)
    requires Inv(t) && Unseen(t, key) && h < |t.objects|
    ensures KeptBy(t, AddAlternativeDwarfID(t, h, key), key)
    ensures Find(AddAlternativeDwarfID(t, h, key), AddAlternativeDwarfID(t, h, key).ids.byKey[key]) == Some(h)
  {
    var t1 := AddAlternativeDwarfID(t, h, key);
    var (ids, n) := Intern(t.ids, key);
    InternKeeps(t.ids, key);
    NewIdIsFree(t, ids, key);
    AliasingKeeps(t.aliases, t.objects[h].id, n);
    AliasMaps(t, t1, h, ids, n);
    SameObjects(t, t1);
  }
}
