/**
 The symbol database as a value, and the effect of every operation on it.  The classes in
 Symbols.dfy and DwarfParser.dfy are proved to have exactly these effects; the lemmas in the
 other files are about these functions.

 A symbol object is denoted by its handle, its position in creation order.
 */
module SymbolTable {
  import opened Basics
  import opened Dwarf

  type Handle = nat

  // The dynamic class of a symbol object.
  datatype Kind = Base | Struct | Union | Enum | Func | Typedef | Pointer | Const | Array | Var | Member

  predicate IsBaseType(k: Kind) {
    k != Var && k != Member
  }

  predicate IsRefType(k: Kind) {
    k == Typedef || k == Pointer || k == Const || k == Array
  }

  predicate IsStructured(k: Kind) {
    k == Struct || k == Union
  }

  predicate IsFunction(k: Kind) {
    k == Func
  }

  predicate IsVariable(k: Kind) {
    k == Var
  }

  predicate IsArray(k: Kind) {
    k == Array
  }

  predicate IsEnum(k: Kind) {
    k == Enum
  }

  // dynamic_cast from an object of class `k` to the class `target` succeeds.
  predicate Casts(k: Kind, target: Kind) {
    k == target || (target == Base && IsBaseType(k)) || (target == Pointer && k == Array)
  }

  // The fields of a symbol object; a field its class does not have keeps its default.
  datatype Sym = Sym(
    kind: Kind,
    id: nat,
    name: string,
    byteSize: nat,
    typ: nat,
    base: Option<Handle>,
    rettype: nat,
    address: nat,
    params: seq<(string, nat)>,
    paramsFinal: bool,
    length: nat,
    lengthType: nat,
    location: nat,
    members: map<string, Option<Handle>>,
    enumValues: map<nat, string>)

  function NewSym(kind: Kind, id: nat, name: string, byteSize: nat): Sym {
    Sym(kind, id, name, byteSize, 0, None, 0, 0, [], false, 0, 0, 0, map[], map[])
  }

  // The interning of DIE keys: idMap and idRevMap.
  datatype Ids = Ids(current: nat, byKey: map<Key, nat>, byID: map<nat, Key>)

  // symbolIDAliasMap and symbolIDAliasReverseList.
  datatype Aliasing = Aliasing(target: map<nat, nat>, reverse: map<nat, set<nat>>)

  // The indexes by name and the two lists that the clean-ups work on.
  datatype Names = Names(
    baseTypes: map<string, seq<Handle>>,
    refTypes: map<string, Handle>,
    variables: map<string, Handle>,
    functions: map<string, Handle>,
    funcList: seq<Handle>,
    arrays: seq<Handle>)

  datatype Table = Table(
    ids: Ids,
    objects: seq<Sym>,
    symbolIDMap: map<nat, Handle>,
    aliases: Aliasing,
    names: Names)

  const EMPTY: Table :=
    Table(Ids(0, map[], map[]), [], map[], Aliasing(map[], map[]), Names(map[], map[], map[], map[], [], []))

  // ---- identifiers ----

  function Intern(ids: Ids, key: Key): (Ids, nat) {
    if key in ids.byKey && ids.byKey[key] != 0 then (ids, ids.byKey[key])
    else
      var id := ids.current + 1;
      (Ids(id, ids.byKey[key := id], ids.byID[id := key]), id)
  }

  // The id stored for a DW_AT_type attribute, 0 when there is none.
  function InternType(ids: Ids, place: Place, ref: Option<u64>): (Ids, nat) {
    match ref
    case None => (ids, 0)
    case Some(r) => Intern(ids, RefKey(place, r))
  }

  function GetRevID(ids: Ids, id: nat): (Ids, Key) {
    if id in ids.byID then (ids, ids.byID[id]) else (ids.(byID := ids.byID[id := (0, 0)]), (0, 0))
  }

  function AliasesOf(al: Aliasing, id: nat): set<nat> {
    if id in al.reverse then al.reverse[id] else {}
  }

  function GetAliases(al: Aliasing, id: nat): (Aliasing, set<nat>) {
    (al.(reverse := al.reverse[id := AliasesOf(al, id)]), AliasesOf(al, id))
  }

  // ---- lookup by id ----

  // The first two searches of findSymbolByID.
  function Find(t: Table, id: nat): Option<Handle> {
    if id in t.symbolIDMap then Some(t.symbolIDMap[id])
    else if id in t.aliases.target && t.aliases.target[id] in t.symbolIDMap
    then Some(t.symbolIDMap[t.aliases.target[id]])
    else None
  }

  // An alias in the reverse list of `id` that the third search of findSymbolByID would accept.
  predicate ThirdSearchHit(t: Table, id: nat, n: nat) {
    n in AliasesOf(t.aliases, id) && n in t.symbolIDMap
  }

  // A reverse list of an id that is no symbol holds no symbol: the third search never hits.
  ghost predicate ThirdSearchDead(t: Table) {
    forall i <- t.aliases.reverse :: i in t.symbolIDMap || forall n <- t.aliases.reverse[i] :: n !in t.symbolIDMap
  }

  // ---- registration ----

  // Symbol's constructor: the object is registered under its id.
  function AddSymbol(t: Table, s: Sym): Table {
    t.(objects := t.objects + [s], symbolIDMap := t.symbolIDMap[s.id := |t.objects|])
  }

  function BaseTypesNamed(names: Names, name: string): seq<Handle> {
    if name in names.baseTypes then names.baseTypes[name] else []
  }

  function AddBaseType(names: Names, name: string, h: Handle): Names {
    if name == "" then names
    else names.(baseTypes := names.baseTypes[name := BaseTypesNamed(names, name) + [h]])
  }

  function AddRefBaseType(names: Names, name: string, h: Handle): Names {
    if name == "" then names else names.(refTypes := names.refTypes[name := h])
  }

  function AddVariable(names: Names, name: string, h: Handle): Names {
    if name == "" then names else names.(variables := names.variables[name := h])
  }

  function AddFunction(names: Names, name: string, h: Handle): Names {
    names.(funcList := names.funcList + [h],
           functions := if name == "" || name in names.functions then names.functions
                        else names.functions[name := h])
  }

  function AddArray(names: Names, h: Handle): Names {
    names.(arrays := names.arrays + [h])
  }

  function AddAlternativeID(al: Aliasing, id: nat, newID: nat): Aliasing {
    Aliasing(al.target[newID := id], al.reverse[id := AliasesOf(al, id) + {newID}])
  }

  // Symbol::addAlternativeDwarfID for the object `h`.
  function AddAlternativeDwarfID(t: Table, h: Handle, key: Key): Table
    requires h < |t.objects|
  {
    var (ids, id) := Intern(t.ids, key);
    t.(ids := ids, aliases := AddAlternativeID(t.aliases, t.objects[h].id, id))
  }

  function SetSym(t: Table, h: Handle, s: Sym): Table
    requires h < |t.objects|
  {
    t.(objects := t.objects[h := s])
  }

  // ---- construction ----

  function FreshSym(kind: Kind, id: nat, die: Die): Sym {
    NewSym(kind, id, die.name, if kind == Pointer || kind == Array then 8 else die.byteSize % U32)
  }

  /**
   A new object of class `kind` for a DIE: it is interned, registered and, if it is a type,
   indexed by name.  `h` is its handle.
   */
  function NewSymbol(t: Table, place: Place, die: Die, kind: Kind): (t1: Table)
    ensures |t1.objects| == |t.objects| + 1
  {
    var (ids, id) := Intern(t.ids, DieKey(place, die));
    var t1 := AddSymbol(t.(ids := ids), FreshSym(kind, id, die));
    if IsBaseType(kind) then t1.(names := AddBaseType(t1.names, die.name, |t.objects|)) else t1
  }

  // Interns the DW_AT_type of a DIE and stores it as the type of the object `h`.
  function SetType(t: Table, place: Place, die: Die, h: Handle): (t1: Table)
    requires h < |t.objects|
    ensures |t1.objects| == |t.objects|
  {
    Apply(t, h, InternedType(t.ids, t.objects[h], place, die))
  }

  // Typedef, Pointer, ConstType and Array.
  function NewRefType(t: Table, place: Place, die: Die, kind: Kind): (t1: Table)
    ensures |t1.objects| == |t.objects| + 1
  {
    var h := |t.objects|;
    var t1 := SetType(NewSymbol(t, place, die, kind), place, die, h);
    var names := AddRefBaseType(t1.names, die.name, h);
    t1.(names := if kind == Array then AddArray(names, h) else names)
  }

  function NewFunction(t: Table, place: Place, die: Die): (t1: Table)
    ensures |t1.objects| == |t.objects| + 1
  {
    var h := |t.objects|;
    var t1 := UpdateFunction(NewSymbol(t, place, die, Func), place, die, h);
    SetSym(t1.(names := AddFunction(t1.names, die.name, h)), h, t1.objects[h].(paramsFinal := false))
  }

  function NewVariable(t: Table, place: Place, die: Die): (t1: Table)
    ensures |t1.objects| == |t.objects| + 1
  {
    var h := |t.objects|;
    var t1 := SetType(NewSymbol(t, place, die, Var), place, die, h);
    var t2 := t1.(names := AddVariable(t1.names, die.name, h));
    if die.location.Some? then SetSym(t2, h, t2.objects[h].(location := die.location.value)) else t2
  }

  function NewMember(t: Table, place: Place, die: Die): (t1: Table)
    ensures |t1.objects| == |t.objects| + 1
  {
    var h := |t.objects|;
    var t1 := SetType(NewSymbol(t, place, die, Member), place, die, h);
    if die.memberLocation.Some?
    then SetSym(t1, h, t1.objects[h].(location := die.memberLocation.value % U32)) else t1
  }

  // ---- updates ----

  // An update of one object that may intern ids.
  function Apply(t: Table, h: Handle, update: (Ids, Sym)): (t1: Table)
    requires h < |t.objects|
    ensures |t1.objects| == |t.objects|
  {
    SetSym(t.(ids := update.0), h, update.1)
  }

  function InternedType(ids: Ids, x: Sym, place: Place, die: Die): (Ids, Sym) {
    var (ids1, ty) := InternType(ids, place, die.typeRef);
    (ids1, x.(typ := ty))
  }

  // Function::update
  function UpdatedFunction(ids: Ids, f: Sym, place: Place, die: Die): (Ids, Sym) {
    var (ids1, ty) :=
      if f.rettype == 0 && die.typeRef.Some? then InternType(ids, place, die.typeRef) else (ids, f.rettype);
    var address := if f.address == 0 && die.lowPc.Some? then die.lowPc.value else f.address;
    (ids1, f.(rettype := ty, address := address, paramsFinal := true))
  }

  // Function::addParam
  function WithParam(ids: Ids, f: Sym, place: Place, die: Die): (Ids, Sym) {
    if f.paramsFinal || die.typeRef.None? then (ids, f)
    else
      var (ids1, ty) := InternType(ids, place, die.typeRef);
      (ids1, f.(params := f.params + [(die.name, ty)]))
  }

  // Array::update
  function UpdatedArray(ids: Ids, a: Sym, place: Place, die: Die): (Ids, Sym) {
    var (ids1, ty) := InternType(ids, place, die.typeRef);
    var lengthType := if die.typeRef.Some? then ty else a.lengthType;
    var length := if die.upperBound.Some? then (die.upperBound.value + 1) % U64 else a.length;
    (ids1, a.(lengthType := lengthType, length := length))
  }

  // Variable::update
  function UpdatedVariable(v: Sym, die: Die): Sym {
    if v.location == 0 && die.location.Some? then v.(location := die.location.value) else v
  }

  // Enum::addEnum
  function WithEnumerator(e: Sym, name: string, value: nat): Sym {
    e.(enumValues := e.enumValues[value % U32 := name])
  }

  function UpdateFunction(t: Table, place: Place, die: Die, h: Handle): (t1: Table)
    requires h < |t.objects|
    ensures |t1.objects| == |t.objects|
  {
    Apply(t, h, UpdatedFunction(t.ids, t.objects[h], place, die))
  }

  function AddParam(t: Table, place: Place, die: Die, h: Handle): Table
    requires h < |t.objects|
  {
    Apply(t, h, WithParam(t.ids, t.objects[h], place, die))
  }

  function UpdateArray(t: Table, place: Place, die: Die, h: Handle): Table
    requires h < |t.objects|
  {
    Apply(t, h, UpdatedArray(t.ids, t.objects[h], place, die))
  }

  function UpdateVariable(t: Table, die: Die, h: Handle): (t1: Table)
    requires h < |t.objects|
    ensures |t1.objects| == |t.objects|
  {
    SetSym(t, h, UpdatedVariable(t.objects[h], die))
  }

  function AddEnum(t: Table, name: string, value: nat, h: Handle): Table
    requires h < |t.objects|
  {
    SetSym(t, h, WithEnumerator(t.objects[h], name, value))
  }

  // ---- one DIE ----

  datatype Visited = Visited(table: Table, sym: Option<Handle>)

  // The first handle of `hs` whose object casts to `kind`.
  function FirstCast(objects: seq<Sym>, hs: seq<Handle>, kind: Kind): (r: Option<Handle>)
    ensures match r
            case Some(h) => h in hs && h < |objects| && Casts(objects[h].kind, kind)
            case None => forall h <- hs :: h < |objects| ==> !Casts(objects[h].kind, kind)
  {
    if hs == [] then None
    else if hs[0] < |objects| && Casts(objects[hs[0]].kind, kind) then Some(hs[0])
    else FirstCast(objects, hs[1..], kind)
  }

  // The objects that the search for the first cast reads: those up to the one it returns.
  function CastsTried(objects: seq<Sym>, hs: seq<Handle>, kind: Kind): (r: seq<Handle>)
    ensures r <= hs
    ensures match FirstCast(objects, hs, kind)
            case Some(h) => r != [] && r[|r| - 1] == h
            case None => r == hs
  {
    if hs == [] then []
    else if hs[0] < |objects| && Casts(objects[hs[0]].kind, kind) then [hs[0]]
    else [hs[0]] + CastsTried(objects, hs[1..], kind)
  }

  // The handle a name index holds for `name`.
  function Named(t: Table, index: map<string, Handle>, name: string): (r: Option<Handle>)
    ensures r.Some? ==> r.value < |t.objects|
  {
    if name in index && index[name] < |t.objects| then Some(index[name]) else None
  }

  // getTypeInstance<T> for BaseType, Struct, Union and Enum.
  function TypeInstance(t: Table, place: Place, die: Die, kind: Kind): Visited {
    match FirstCast(t.objects, BaseTypesNamed(t.names, die.name), kind)
    case None => Visited(NewSymbol(t, place, die, kind), Some(|t.objects|))
    case Some(h) => Visited(AddAlternativeDwarfID(t, h, DieKey(place, die)), Some(h))
  }

  // getTypeInstance<Function>
  function FunctionInstance(t: Table, place: Place, die: Die): Visited {
    match FirstCast(t.objects, BaseTypesNamed(t.names, die.name), Func)
    case None => Visited(NewFunction(t, place, die), Some(|t.objects|))
    case Some(h) =>
      Visited(AddAlternativeDwarfID(UpdateFunction(t, place, die, h), h, DieKey(place, die)), Some(h))
  }

  // getTypeInstance<Variable>
  function VariableInstance(t: Table, place: Place, die: Die): Visited {
    match Named(t, t.names.variables, die.name)
    case None => Visited(NewVariable(t, place, die), Some(|t.objects|))
    case Some(h) => Visited(AddAlternativeDwarfID(UpdateVariable(t, die, h), h, DieKey(place, die)), Some(h))
  }

  // getRefTypeInstance<T>
  function RefTypeInstance(t: Table, place: Place, die: Die, kind: Kind): Visited {
    match Named(t, t.names.refTypes, die.name)
    case None => Visited(NewRefType(t, place, die, kind), Some(|t.objects|))
    case Some(h) =>
      if !Casts(t.objects[h].kind, kind) then Visited(t, None)
      else Visited(AddAlternativeDwarfID(t, h, DieKey(place, die)), Some(h))
  }

  // Structured::addMember
  function AddMember(t: Table, place: Place, die: Die, p: Handle): Visited
    requires p < |t.objects|
  {
    if die.name in t.objects[p].members then Visited(t, t.objects[p].members[die.name])
    else
      var t1 := NewMember(t, place, die);
      var h := |t.objects|;
      Visited(SetSym(t1, p, t1.objects[p].(members := t1.objects[p].members[die.name := Some(h)])), Some(h))
  }

  // The parent symbol, when it is an object for which `test` holds.
  function ParentOf(t: Table, parent: Option<Handle>, test: Kind -> bool): (r: Option<Handle>)
    ensures r.Some? ==> r.value < |t.objects| && test(t.objects[r.value].kind)
  {
    if parent.Some? && parent.value < |t.objects| && test(t.objects[parent.value].kind) then parent else None
  }

  /**
   initSymbolFromDie.  None is a parse that stops: an enumerator or subrange without a parent
   symbol fails an assertion, an enumerator of an Enum without DW_AT_const_value throws.
   */
  function VisitDie(t: Table, place: Place, die: Die, parent: Option<Handle>): Option<Visited> {
    match die.tag
    case TypedefTag => Some(RefTypeInstance(t, place, die, Typedef))
    case PointerTag => Some(RefTypeInstance(t, place, die, Pointer))
    case ConstTag => Some(RefTypeInstance(t, place, die, Const))
    case StructTag => Some(TypeInstance(t, place, die, Struct))
    case UnionTag => Some(TypeInstance(t, place, die, Union))
    case BaseTag => Some(TypeInstance(t, place, die, Base))
    case EnumTag => Some(TypeInstance(t, place, die, Enum))
    case ArrayTag => Some(Visited(NewRefType(t, place, die, Array), Some(|t.objects|)))
    case SubprogramTag => Some(FunctionInstance(t, place, die))
    case VariableTag =>
      if die.specification then Some(Visited(t, None)) else Some(VariableInstance(t, place, die))
    case MemberTag =>
      (match ParentOf(t, parent, IsStructured)
       case None => Some(Visited(t, None))
       case Some(p) => Some(AddMember(t, place, die, p)))
    case EnumeratorTag =>
      if parent.None? then None
      else (match ParentOf(t, parent, IsEnum)
            case None => Some(Visited(t, None))
            case Some(p) =>
              if die.constValue.None? then None
              else Some(Visited(AddEnum(t, die.name, die.constValue.value, p), None)))
    case SubrangeTag =>
      if parent.None? then None
      else (match ParentOf(t, parent, IsArray)
            case None => Some(Visited(t, None))
            case Some(p) => Some(Visited(UpdateArray(t, place, die, p), None)))
    case FormalTag =>
      (match ParentOf(t, parent, IsFunction)
       case None => Some(Visited(t, None))
       case Some(p) => Some(Visited(AddParam(t, place, die, p), None)))
    case OtherTag => Some(Visited(t, None))
  }

  // Every handle that the table stores denotes an object.
  ghost predicate HandlesInRange(t: Table) {
    && (forall k <- t.symbolIDMap :: t.symbolIDMap[k] < |t.objects|)
    && (forall n <- t.names.baseTypes :: forall h <- t.names.baseTypes[n] :: h < |t.objects|)
    && (forall n <- t.names.refTypes :: t.names.refTypes[n] < |t.objects|)
    && (forall n <- t.names.variables :: t.names.variables[n] < |t.objects|)
    && (forall n <- t.names.functions :: t.names.functions[n] < |t.objects|)
    && (forall h <- t.names.funcList :: h < |t.objects|)
    && (forall h <- t.names.arrays :: h < |t.objects|)
    && (forall h: nat | h < |t.objects| :: SymInRange(t.objects[h], |t.objects|))
  }

  ghost predicate SymInRange(x: Sym, n: nat) {
    && (x.base.Some? ==> x.base.value < n)
    && (forall m <- x.members :: x.members[m].Some? ==> x.members[m].value < n)
  }

  // ---- lookups between visits ----

  // RefBaseType::getBaseType: fills the cache; None where the C++ fails an assertion.
  function ResolveBase(t: Table, h: Handle): Option<Table>
    requires h < |t.objects|
  {
    var s := t.objects[h];
    if !IsRefType(s.kind) then None
    else if s.base.Some? then Some(t)
    else
      match if s.typ == 0 then None else Find(t, s.typ)
      case None => None
      case Some(b) =>
        if b < |t.objects| && IsBaseType(t.objects[b].kind) then Some(SetSym(t, h, s.(base := Some(b)))) else None
  }

  // Structured::memberByName: an unknown name is entered with a null member.
  function MemberByName(t: Table, h: Handle, name: string): Table
    requires h < |t.objects|
  {
    var s := t.objects[h];
    if !IsStructured(s.kind) || name in s.members then t
    else SetSym(t, h, s.(members := s.members[name := None]))
  }

  // ---- runs ----

  // A run so far: the table, and for every operation the symbol its visit returned.
  datatype State = State(table: Table, syms: seq<Option<Handle>>)

  const START: State := State(EMPTY, [])

  function ParentSym(syms: seq<Option<Handle>>, parent: Option<nat>): Option<Handle> {
    if parent.Some? && parent.value < |syms| then syms[parent.value] else None
  }

  function Step(s: State, op: Op): Option<State> {
    match op
    case Visit(place, die, parent, _) =>
      (match VisitDie(s.table, place, die, ParentSym(s.syms, parent))
       case None => None
       case Some(v) => Some(State(v.table, s.syms + [v.sym])))
    case RevID(id) => Some(State(s.table.(ids := GetRevID(s.table.ids, id).0), s.syms + [None]))
    case Aliases(id) => Some(State(s.table.(aliases := GetAliases(s.table.aliases, id).0), s.syms + [None]))
    case Resolve(h) =>
      if h >= |s.table.objects| then None
      else (match ResolveBase(s.table, h)
            case None => None
            case Some(t) => Some(State(t, s.syms + [None])))
    case MemberNamed(h, name) =>
      if h >= |s.table.objects| then None
      else Some(State(MemberByName(s.table, h, name), s.syms + [None]))
  }

  function Replay(s: State, ops: seq<Op>): Option<State>
    decreases |ops|
  {
    if ops == [] then Some(s)
    else
      match Step(s, ops[0])
      case None => None
      case Some(s1) => Replay(s1, ops[1..])
  }

  // Replaying a concatenation is replaying its parts one after the other.
  lemma {:induction false} ReplayAppend(s: State, a: seq<Op>, b: seq<Op>)
    ensures Replay(s, a + b) ==
            match Replay(s, a) case None => None case Some(s1) => Replay(s1, b)
    decreases |a|
  {
    if a == [] {
      assert a + b == b;
    } else {
      assert (a + b)[0] == a[0] && (a + b)[1..] == a[1..] + b;
      match Step(s, a[0])
      case None =>
      case Some(s1) => ReplayAppend(s1, a[1..], b);
    }
  }

  lemma {:induction false} ReplaySnoc(s: State, ops: seq<Op>, op: Op)
    ensures Replay(s, ops + [op]) ==
            match Replay(s, ops) case None => None case Some(s1) => Step(s1, op)
  {
    ReplayAppend(s, ops, [op]);
    match Replay(s, ops)
    case None =>
    case Some(s1) => ReplayOne(s1, op);
  }

  lemma {:induction false} ReplayOne(s: State, op: Op)
    ensures Replay(s, [op]) == Step(s, op)
  {
    assert [op][1..] == [];
  }
}
