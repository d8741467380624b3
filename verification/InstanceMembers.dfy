/**
 Instance::memberByName: on the heap, over the fields of the objects, and told from the DIEs of a run.
 */
module InstanceMembers {
  import opened Basics
  import opened Dwarf
  import opened SymbolTable
  import opened Invariant
  import opened Runs
  import opened Births
  import opened Symbols
  import opened TypeChains
  import opened Navigation
  import opened Instances
  import opened Containers
  import opened References
  import Classes

  // ---- what it gives ----

  // The struct or union `g` holds the member `m` under the name.
  predicate HoldsMember(t: Table, g: Handle, name: string, m: Handle) {
    && g < |t.objects| && t.objects[g].kind in {Struct, Union}
    && name in t.objects[g].members && t.objects[g].members[name] == Some(m) && m < |t.objects|
  }

  // The id resolves to the type `b`.
  predicate ResolvesToType(t: Table, id: nat, b: Handle) {
    Find(t, id) == Some(b) && b < |t.objects| && t.objects[b].kind !in {Var, Member}
  }

  // The type of `x` leads to a structure whose member of the name lies at `y`.
  ghost predicate IsMemberOf(t: Table, x: Instance, name: string, y: Instance) {
    exists g: Handle, m: Handle :: IsRealType(t, x.typ, g) && HoldsMember(t, g, name, m) && LiesAt(t, x, m, y)
  }

  predicate LiesAt(t: Table, x: Instance, m: Handle, y: Instance)
    requires m < |t.objects|
  {
    ResolvesToType(t, t.objects[m].typ, y.typ) && y.address == (x.address + t.objects[m].location) % U64
  }

  // Without `ptr` the call gives the member's type at the member's address, unless one of the addresses is null.
  lemma {:induction false} MemberByNameIff(t: Table, x: Instance, name: string, expectZeroPtr: bool, memory: Memory,
                                           y: Instance)
    requires ChainEnds(t, x.typ)
    ensures Instances.MemberByName(t, x, name, false, expectZeroPtr, memory) == Some(y)
            <==> x.address != 0 && y.address != 0 && IsMemberOf(t, x, name, y)
  {
    hide IsRealType, HasNoRealType, RealType, MemberInstance, LiesAt;
    RealTypeIff(t, x.typ);
    var s := RealType(t, x.typ);
    if s.Some? {
      assert IsRealType(t, x.typ, s.value);
      var m := Instances.MemberNamed(t, s.value, name);
      if m.Some? {
        assert HoldsMember(t, s.value, name, m.value);
        MemberInstanceIff(t, x, m.value, expectZeroPtr, memory, y);
      }
    }
  }

  lemma MemberInstanceIff(t: Table, x: Instance, m: Handle, expectZeroPtr: bool, memory: Memory, y: Instance)
    requires m < |t.objects|
    ensures MemberInstance(t, x.address, m, false, expectZeroPtr, memory) == Some(y)
            <==> y.address != 0 && LiesAt(t, x, m, y)
  {}

  // With `ptr` a member that is a pointer or array is followed to what memory holds there, which may be null only
  // if that is expected; any other member is as without.
  lemma MemberFollowed(t: Table, x: Instance, name: string, expectZeroPtr: bool, memory: Memory)
    requires ChainEnds(t, x.typ)
    ensures var plain := Instances.MemberByName(t, x, name, false, expectZeroPtr, memory);
            var followed := Instances.MemberByName(t, x, name, true, expectZeroPtr, memory);
            match plain
            case None => followed == None
            case Some(y) =>
              && y.typ < |t.objects|
              && if t.objects[y.typ].kind !in {Pointer, Array} then followed == plain
                 else forall z: Instance ::
                        followed == Some(z) <==>
                        && t.objects[y.typ].typ != 0 && ResolvesToType(t, t.objects[y.typ].typ, z.typ)
                        && z.address == memory(y.address) && (z.address != 0 || expectZeroPtr)
  {
    hide PointedTo, Find, RealType, Instances.MemberNamed;
    var plain := Instances.MemberByName(t, x, name, false, expectZeroPtr, memory);
    if plain.Some? {
      var y := plain.value;
      forall z: Instance { PointedToIff(t, y.typ, y.address, expectZeroPtr, memory, z); }
    }
  }

  lemma PointedToIff(t: Table, bt: Handle, address: u64, expectZeroPtr: bool, memory: Memory, z: Instance)
    requires bt < |t.objects|
    ensures PointedTo(t, bt, address, expectZeroPtr, memory) == Some(z) <==>
            && t.objects[bt].kind in {Typedef, Pointer, Const, Array}
            && t.objects[bt].typ != 0 && ResolvesToType(t, t.objects[bt].typ, z.typ)
            && z.address == memory(address) && (z.address != 0 || expectZeroPtr)
  {}

  // The oldest type of the name.
  ghost predicate IsOldestType(t: Table, name: string, g: Handle) {
    && g < |t.objects| && t.objects[g].kind !in {Var, Member} && t.objects[g].name == name
    && forall h: nat | h < g && t.objects[h].kind !in {Var, Member} :: t.objects[h].name != name
  }

  /**
   changeBaseType gives the oldest type of the name: at the same address, but from an instance of list_head, whose
   address is that of the type's member of the other name, at the address of the structure around it.
   */
  lemma {:induction false} ChangeBaseTypeIff(t: Table, x: Instance, newType: string, field: string, y: Instance)
    requires Inv(t) && newType != "" && x.typ < |t.objects|
    ensures ChangeBaseType(t, x, newType, field) == Some(y) <==>
            && IsOldestType(t, newType, y.typ)
            && if t.objects[x.typ].name != "list_head" then y.address == x.address
               else exists m: Handle ::
                      && HoldsMember(t, y.typ, field, m)
                      && y.address == (x.address - t.objects[m].location) % U64
  {
    hide Inv, FirstNamed, IsOldestType;
    OldestIsFirst(t, newType, y.typ);
    if t.objects[x.typ].name == "list_head" {
      var s := FirstNamed(t, newType);
      if s.Some? && Instances.MemberNamed(t, s.value, field).Some? {
        assert HoldsMember(t, s.value, field, Instances.MemberNamed(t, s.value, field).value);
      }
    }
  }

  lemma OldestIsFirst(t: Table, name: string, g: Handle)
    requires Inv(t) && name != ""
    ensures FirstNamed(t, name) == Some(g) <==> IsOldestType(t, name, g)
  {
    hide Inv, FirstNamed;
    FirstNamedIsOldest(t, name, g);
  }

  // ---- told from the DIEs ----

  lemma {:induction false} FirstReturned(ops: seq<Op>, syms: seq<Option<Handle>>, h: Handle, i: nat)
    requires i < |ops| == |syms| && ops[i].Visit? && syms[i] == Some(h)
    requires forall k | 0 <= k < i :: syms[k] != Some(h)
    ensures Birth(ops, syms, h) == Some(ops[i])
  {
    var n := |ops| - 1;
    if i < n {
      FirstReturned(ops[..n], syms[..n], h, i);
    } else {
      NotReturned(ops[..n], syms[..n], h);
    }
  }

  lemma {:induction false} NotReturned(ops: seq<Op>, syms: seq<Option<Handle>>, h: Handle)
    requires |ops| == |syms| && forall k | 0 <= k < |ops| :: syms[k] != Some(h)
    ensures Birth(ops, syms, h) == None
  {
    if ops != [] { NotReturned(ops[..|ops| - 1], syms[..|ops| - 1], h); }
  }

  // A member is where the DIE that created it says.
  lemma CreatedLocation(ops: seq<Op>, s: State, i: nat, m: Handle)
    requires RunsTo(ops, s) && Created(ops, s, i, m) && s.table.objects[m].kind == Member
    ensures s.table.objects[m].location == LocationOf(ops[i].die)
  {
    hide RunsTo;
    forall k: nat | k < i ensures s.syms[k] != Some(m) {
      if s.syms[k].Some? { CreationOrder(ops, s, i, m, k); }
    }
    FirstReturned(ops, s.syms, m, i);
    ObjectsAreAsBorn(ops, s, m);
  }

  function LocationOf(die: Die): nat {
    match die.memberLocation
    case None => 0
    case Some(l) => l % U32
  }

  // Operation `i` visits the first DIE of its name in the structure `h`, and operation `k` the DIE of its type.
  ghost predicate IsMemberWithType(ops: seq<Op>, s: State, i: nat, h: Handle, k: nat) {
    && h < |s.table.objects| && s.table.objects[h].kind in {Struct, Union} && IsFirstMember(ops, s.syms, i, h)
    && ops[i].die.typeRef.Some? && VisitsKey(ops, k, RefKey(ops[i].place, ops[i].die.typeRef.value))
    && ops[k].die.tag != VariableTag
  }

  lemma TypeOfMember(ops: seq<Op>, s: State, i: nat, h: Handle, k: nat) returns (m: Handle)
    requires RunsTo(ops, s) && IsMemberWithType(ops, s, i, h, k)
    ensures i < |ops| && ops[i].Visit? && k < |ops| == |s.syms| && s.syms[k].Some?
    ensures HoldsMember(s.table, h, ops[i].die.name, m)
    ensures ResolvesToType(s.table, s.table.objects[m].typ, s.syms[k].value)
    ensures s.table.objects[m].location == LocationOf(ops[i].die)
  {
    hide RunsTo, Inv;
    m := FirstMemberCreated(ops, s, i, h);
    CreatedLocation(ops, s, i, m);
    TypeAgrees(ops, s, i, m);
    KeyResolves(ops, s, RefKey(ops[i].place, ops[i].die.typeRef.value), k);
    Classes.ReturnedClass(ops, s, k);
  }

  /**
   After any run the member of an instance whose real type is the structure `h` has the type that the visit of
   the DIE it refers to returned, and lies where the structure's first member DIE of the name says.
   */
  lemma MemberFromDies(ops: seq<Op>, s: State, x: Instance, h: Handle, i: nat, k: nat, memory: Memory)
    requires RunsTo(ops, s) && ChainEnds(s.table, x.typ) && RealType(s.table, x.typ) == Some(h)
    requires IsMemberWithType(ops, s, i, h, k)
    ensures |s.syms| == |ops| && s.syms[k].Some?
    ensures var address := (x.address + LocationOf(ops[i].die)) % U64;
            Instances.MemberByName(s.table, x, ops[i].die.name, false, false, memory)
            == if x.address == 0 || address == 0 then None else Some(Instance(s.syms[k].value, address))
  {
    hide RunsTo, IsFirstMember, VisitsKey, RealType, Find;
    var m := TypeOfMember(ops, s, i, h, k);
    RealTypeIff(s.table, x.typ);
    var address := (x.address + LocationOf(ops[i].die)) % U64;
    var y := Instance(s.syms[k].value, address);
    assert LiesAt(s.table, x, m, y);
    MemberByNameIff(s.table, x, ops[i].die.name, false, memory, y);
    if address == 0 || x.address == 0 { NullMember(s.table, x, h, m, ops[i].die.name, memory); }
  }

  lemma {:induction false} NullMember(t: Table, x: Instance, h: Handle, m: Handle, name: string, memory: Memory)
    requires ChainEnds(t, x.typ) && RealType(t, x.typ) == Some(h) && HoldsMember(t, h, name, m)
    requires x.address == 0 || (x.address + t.objects[m].location) % U64 == 0
    ensures Instances.MemberByName(t, x, name, false, false, memory) == None
  {}

  // ---- on the heap ----

  // The structure's member of the name is an object, its type and what that refers to if it is a pointer are not
  // deleted.
  ghost predicate MemberAlive(t: Table, dead: seq<Handle>, s: Handle, name: string) {
    && s < |t.objects|
    && (name in t.objects[s].members && t.objects[s].members[name].Some? ==>
          t.objects[s].members[name].value < |t.objects|)
    && forall m: Handle, b: Handle | HoldsMember(t, s, name, m) && MemberType(t, m) == Some(b) ::
         TypeAlive(t, dead, b)
  }

  predicate TypeAlive(t: Table, dead: seq<Handle>, b: Handle) {
    b !in dead && b < |t.objects| && (Target(t, b).Some? ==> Target(t, b).value !in dead)
  }

  ghost predicate MemberOfTypeAlive(t: Table, dead: seq<Handle>, x: Instance, name: string)
    requires ChainEnds(t, x.typ)
  {
    match RealType(t, x.typ) case None => true case Some(s) => MemberAlive(t, dead, s, name)
  }

  // Instance::memberByName
  method GetMemberByName(manager: SymbolManager, x: Instance, name: string, ptr: bool, expectZeroPtr: bool,
                         memory: Memory)
    returns (r: Option<Instance>)
    requires manager.Valid() && Navigable(manager.Contents(), manager.deleted)
    requires ChainEnds(manager.Contents(), x.typ) && ChainAlive(manager.Contents(), manager.deleted, x.typ)
    requires MemberOfTypeAlive(manager.Contents(), manager.deleted, x, name)
    modifies manager`symbolIDAliasReverseList, manager.objects
    ensures r == Instances.MemberByName(old(manager.Contents()), x, name, ptr, expectZeroPtr, memory)
    ensures r.Some? ==>
              && manager.Valid() && Navigable(manager.Contents(), manager.deleted)
              && SameButCaches(old(manager.Contents()), manager.Contents())
  {
    hide Navigable, IsRealType, HasNoRealType, Instances.MemberNamed, MemberInstance, MemberType, TypeAlive,
      HoldsMember;
    ghost var t := manager.Contents();
    if x.address == 0 { return None; }
    var s := GetRealType(manager, x.typ);
    if s.None? { return None; }
    var m := FindMember(manager, s.value, name, t);
    if m.None? { return None; }
    r := GoToMember(manager, x.address, m.value, ptr, expectZeroPtr, memory, t);
  }

  // The member that the structure holds, if it is one; a name it does not hold is entered.
  method FindMember(manager: SymbolManager, s: Handle, name: string, ghost t: Table) returns (m: Option<Handle>)
    requires manager.Valid() && Navigable(manager.Contents(), manager.deleted) && SameButCaches(t, manager.Contents())
    requires MemberAlive(t, manager.deleted, s, name)
    modifies manager.objects
    ensures m == Instances.MemberNamed(t, s, name)
    ensures m.Some? ==>
              manager.Valid() && manager.Contents() == old(manager.Contents()) && HoldsMember(t, s, name, m.value)
  {
    if !IsStructured(manager.objects[s].kind) { return None; }
    m := manager.LookUpMember(s, name);
  }

  // From the structure at `address` to its member, and on to what it points at.
  method GoToMember(manager: SymbolManager, address: u64, m: Handle, ptr: bool, expectZeroPtr: bool, memory: Memory,
                    ghost t: Table)
    returns (r: Option<Instance>)
    requires manager.Valid() && Navigable(manager.Contents(), manager.deleted) && SameButCaches(t, manager.Contents())
    requires m < |t.objects| && forall b: Handle | MemberType(t, m) == Some(b) :: TypeAlive(t, manager.deleted, b)
    modifies manager`symbolIDAliasReverseList, manager.objects
    ensures r == MemberInstance(t, address, m, ptr, expectZeroPtr, memory)
    ensures r.Some? ==>
              manager.Valid() && Navigable(manager.Contents(), manager.deleted) && SameButCaches(t, manager.Contents())
  {
    hide Navigable, MemberType, PointedTo, Target;
    var bt := FindMemberType(manager, m, t);
    if bt.None? { return None; }
    var a: u64 := (address + manager.objects[m].location) % U64;
    if a == 0 { return None; }
    if ptr && Casts(manager.objects[bt.value].kind, Pointer) {
      r := FollowPointer(manager, bt.value, a, expectZeroPtr, memory, t);
      return;
    }
    r := Some(Instance(bt.value, a));
  }

  method FollowPointer(manager: SymbolManager, bt: Handle, address: u64, expectZeroPtr: bool, memory: Memory,
                       ghost t: Table)
    returns (r: Option<Instance>)
    requires manager.Valid() && Navigable(manager.Contents(), manager.deleted) && SameButCaches(t, manager.Contents())
    requires TypeAlive(t, manager.deleted, bt) && IsRefType(t.objects[bt].kind)
    modifies manager`symbolIDAliasReverseList, manager.objects
    ensures r == PointedTo(t, bt, address, expectZeroPtr, memory)
    ensures r.Some? ==>
              manager.Valid() && Navigable(manager.Contents(), manager.deleted) && SameButCaches(t, manager.Contents())
  {
    hide Navigable, TypeReferred;
    var b := StepToBase(manager, bt, t);
    if b.None? || (memory(address) == 0 && !expectZeroPtr) { return None; }
    r := Some(Instance(b.value, memory(address)));
  }

  method FindMemberType(manager: SymbolManager, m: Handle, ghost t: Table) returns (b: Option<Handle>)
    requires manager.Valid() && Navigable(manager.Contents(), manager.deleted) && SameButCaches(t, manager.Contents())
    requires m < |manager.objects|
    modifies manager`symbolIDAliasReverseList
    ensures b == MemberType(t, m)
    ensures b.Some? ==> manager.Contents() == old(manager.Contents())
  {
    CachesKeepLinks(t, manager.Contents(), m);
    b := manager.FindSymbolByID(manager.objects[m].typ);
    if b.Some? && !IsBaseType(manager.objects[b.value].kind) { b := None; }
  }

  // Instance::changeBaseType; a name that the structure does not hold is entered.
  method ChangeType(manager: SymbolManager, x: Instance, newType: string, field: string) returns (r: Option<Instance>)
    requires manager.Valid() && HandlesInRange(manager.Contents())
    requires x.typ < |manager.objects| && x.typ !in manager.deleted
    requires forall s: Handle | FirstNamed(manager.Contents(), newType) == Some(s) :: s !in manager.deleted
    modifies manager.objects
    ensures r == ChangeBaseType(old(manager.Contents()), x, newType, field)
    ensures r.Some? ==> manager.Valid() && manager.Contents() == old(manager.Contents())
  {
    ghost var t := manager.Contents();
    if newType !in manager.baseTypeNameMap || manager.baseTypeNameMap[newType] == [] { return None; }
    var s := manager.baseTypeNameMap[newType][0];
    FirstEntryInRange(t, newType);
    if manager.objects[x.typ].name != "list_head" { return Some(Instance(s, x.address)); }
    if !IsStructured(manager.objects[s].kind) { return None; }
    var m := manager.LookUpMember(s, field);
    if m.None? { return None; }
    r := Some(Instance(s, (x.address - manager.objects[m.value].location) % U64));
  }

  lemma FirstEntryInRange(t: Table, name: string)
    requires HandlesInRange(t) && name in t.names.baseTypes && t.names.baseTypes[name] != []
    ensures t.names.baseTypes[name][0] < |t.objects|
  {
    assert t.names.baseTypes[name][0] in t.names.baseTypes[name];
  }
}
