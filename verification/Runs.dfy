/**
 What holds after every run: an arbitrary interleaving of DIE visits, from any number of files and
 compilation units, and lookups.
 */
module Runs {
  import opened Basics
  import opened Dwarf
  import opened SymbolTable
  import opened Invariant
  import opened VisitKeeps

  // Objects that store the DW_AT_type of the DIE that created them in their type field.
  predicate IsTyped(k: Kind) {
    IsRefType(k) || k == Var || k == Member
  }

  // Operation `j` of the run visited the DIE under whose id the object `h` is registered.
  ghost predicate Created(hist: seq<Op>, s: State, j: nat, h: Handle) {
    && j < |hist| == |s.syms| && hist[j].Visit? && s.syms[j] == Some(h) && h < |s.table.objects|
    && DieKey(hist[j].place, hist[j].die) in s.table.ids.byKey
    && s.table.objects[h].id == s.table.ids.byKey[DieKey(hist[j].place, hist[j].die)]
  }

  // `x` is an object as a visit of `die` creates it, with the class and type that the DIE asks for.
  ghost predicate Describes(ids: Ids, place: Place, die: Die, x: Sym) {
    && x.name == die.name
    && (Wanted(die) == Some(x.kind) || (die.tag == MemberTag && x.kind == Member))
    && (IsTyped(x.kind) ==> TypeStored(ids, place, die, x.typ))
  }

  ghost predicate IsCreated(hist: seq<Op>, s: State, h: Handle) {
    exists j: nat :: Created(hist, s, j, h)
  }

  // The symbols that the visits so far returned are objects.
  ghost predicate SymsOk(hist: seq<Op>, s: State) {
    && |hist| == |s.syms|
    && forall i | 0 <= i < |hist| && s.syms[i].Some? :: hist[i].Visit? && s.syms[i].value < |s.table.objects|
  }

  // The operation, if it was a registering visit that returned a symbol, still resolves to it.
  ghost predicate ResolvedAt(t: Table, op: Op, sym: Option<Handle>) {
    op.Visit? && sym.Some? && Wanted(op.die).Some? ==>
      ResolvesTo(t, DieKey(op.place, op.die), op.die, sym.value)
  }

  ghost predicate ResolvedOk(hist: seq<Op>, s: State)
    requires |hist| == |s.syms|
  {
    forall i | 0 <= i < |hist| :: ResolvedAt(s.table, hist[i], s.syms[i])
  }

  // Every object was created by a visit of the run, and holds the type of that visit's DIE.
  ghost predicate CreatorsOk(hist: seq<Op>, s: State) {
    && (forall h: nat | h < |s.table.objects| :: IsCreated(hist, s, h))
    && (forall h: nat, j: nat | Created(hist, s, j, h) ::
          Describes(s.table.ids, hist[j].place, hist[j].die, s.table.objects[h]))
  }

  // The invariant of a run.
  ghost predicate RunOk(hist: seq<Op>, s: State) {
    && SymsOk(hist, s)
    && Inv(s.table)
    && Known(s.table, VisitedKeys(hist))
    && ResolvedOk(hist, s)
    && CreatorsOk(hist, s)
  }

  // ---- one visit ----

  // The object a visit creates, if it creates one, is the visit's result and stores its type.
  ghost predicate Creates(t: Table, v: Visited, place: Place, die: Die) {
    || |v.table.objects| == |t.objects|
    || (var h := |t.objects|;
        && |v.table.objects| == h + 1 && v.sym == Some(h)
        && DieKey(place, die) in v.table.ids.byKey
        && v.table.objects[h].id == v.table.ids.byKey[DieKey(place, die)]
        && Describes(v.table.ids, place, die, v.table.objects[h]))
  }

  lemma TypeCreates(t: Table, place: Place, die: Die, kind: Kind)
    requires IdsOk(t.ids) && kind in {Base, Struct, Union, Enum} && Wanted(die) == Some(kind)
    ensures Creates(t, TypeInstance(t, place, die, kind), place, die)
  {
    NewSymbolEnters(t, place, die, kind);
  }

  lemma NewRefCreates(t: Table, place: Place, die: Die, kind: Kind)
    requires IdsOk(t.ids) && IsRefType(kind) && Wanted(die) == Some(kind)
    ensures Creates(t, Visited(NewRefType(t, place, die, kind), Some(|t.objects|)), place, die)
  {
    NewRefTypeEnters(t, place, die, kind);
  }

  lemma RefCreates(t: Table, place: Place, die: Die, kind: Kind)
    requires IdsOk(t.ids) && IsRefType(kind) && Wanted(die) == Some(kind)
    ensures Creates(t, RefTypeInstance(t, place, die, kind), place, die)
  {
    NewRefCreates(t, place, die, kind);
  }

  lemma FunctionCreates(t: Table, place: Place, die: Die)
    requires IdsOk(t.ids) && Wanted(die) == Some(Func)
    ensures Creates(t, FunctionInstance(t, place, die), place, die)
  {
    NewFunctionEnters(t, place, die);
  }

  lemma VariableCreates(t: Table, place: Place, die: Die)
    requires IdsOk(t.ids) && Wanted(die) == Some(Var)
    ensures Creates(t, VariableInstance(t, place, die), place, die)
  {
    NewVariableEnters(t, place, die);
  }

  lemma MemberCreates(t: Table, place: Place, die: Die, p: Handle)
    requires IdsOk(t.ids) && p < |t.objects| && die.tag == MemberTag
    ensures Creates(t, AddMember(t, place, die, p), place, die)
  {
    NewMemberEnters(t, place, die);
  }

  lemma VisitCreates(t: Table, place: Place, die: Die, parent: Option<Handle>)
    requires IdsOk(t.ids)
    ensures match VisitDie(t, place, die, parent) case None => true case Some(v) => Creates(t, v, place, die)
  {
    match die.tag
    case TypedefTag => RefCreates(t, place, die, Typedef);
    case PointerTag => RefCreates(t, place, die, Pointer);
    case ConstTag => RefCreates(t, place, die, Const);
    case ArrayTag => NewRefCreates(t, place, die, Array);
    case StructTag => TypeCreates(t, place, die, Struct);
    case UnionTag => TypeCreates(t, place, die, Union);
    case BaseTag => TypeCreates(t, place, die, Base);
    case EnumTag => TypeCreates(t, place, die, Enum);
    case SubprogramTag => FunctionCreates(t, place, die);
    case VariableTag => if !die.specification { VariableCreates(t, place, die); }
    case MemberTag =>
      var p := ParentOf(t, parent, IsStructured);
      if p.Some? { MemberCreates(t, place, die, p.value); }
    case _ =>
  }

  // ---- lookups keep the invariant ----

  // What a lookup may change.
  ghost predicate Untouched(t: Table, t1: Table) {
    && Inv(t1) && Extends(t, t1)
    && |t1.objects| == |t.objects| && t1.ids.byKey == t.ids.byKey && t1.ids.current == t.ids.current
    && t1.symbolIDMap == t.symbolIDMap && t1.aliases.target == t.aliases.target
  }

  lemma RevIDKeeps(t: Table, id: nat)
    requires Inv(t)
    ensures Untouched(t, t.(ids := GetRevID(t.ids, id).0))
  {
    RevIDKeepsIds(t.ids, id);
    SameObjects(t, t.(ids := GetRevID(t.ids, id).0));
    SameMaps(t, t.(ids := GetRevID(t.ids, id).0));
  }

  lemma RevIDKeepsIds(ids: Ids, id: nat)
    requires IdsOk(ids)
    ensures var ids1 := GetRevID(ids, id).0;
            IdsOk(ids1) && ids1.byKey == ids.byKey && ids1.current == ids.current
  {}

  lemma SameMaps(t: Table, t1: Table)
    requires IssuedOk(t) && ObjectsOk(t) && AliasesOk(t) && t1.objects == t.objects && t1.symbolIDMap == t.symbolIDMap
    requires t1.aliases.target == t.aliases.target && t1.ids.byKey == t.ids.byKey && t1.ids.current == t.ids.current
    ensures IssuedOk(t1) && ObjectsOk(t1) && AliasesOk(t1) && Extends(t, t1)
  {}

  lemma AliasesKeeps(t: Table, id: nat)
    requires Inv(t)
    ensures Untouched(t, t.(aliases := GetAliases(t.aliases, id).0))
  {
    DefaultAliasesKeep(t.aliases, id);
    SameObjects(t, t.(aliases := GetAliases(t.aliases, id).0));
    SameMaps(t, t.(aliases := GetAliases(t.aliases, id).0));
  }

  lemma DefaultAliasesKeep(al: Aliasing, id: nat)
    requires ReverseOk(al)
    ensures ReverseOk(GetAliases(al, id).0)
  {}

  lemma ResolveUpdates(t: Table, h: Handle)
    requires IdsOk(t.ids) && h < |t.objects| && ResolveBase(t, h).Some?
    ensures Updates(t, ResolveBase(t, h).value) && ResolveBase(t, h).value.ids == t.ids
  {}

  lemma ResolveKeeps(t: Table, h: Handle)
    requires Inv(t) && h < |t.objects| && ResolveBase(t, h).Some?
    ensures Untouched(t, ResolveBase(t, h).value)
  {
    ResolveUpdates(t, h);
    UpdatesKeeps(t, ResolveBase(t, h).value);
  }

  lemma MemberNamedKeeps(t: Table, h: Handle, name: string)
    requires Inv(t) && h < |t.objects|
    ensures Untouched(t, MemberByName(t, h, name))
  {
    if IsStructured(t.objects[h].kind) && name !in t.objects[h].members { SetMemberKeeps(t, h, name, None); }
  }

  lemma LookupKeeps(s: State, op: Op)
    requires Inv(s.table) && !op.Visit? && Step(s, op).Some?
    ensures Untouched(s.table, Step(s, op).value.table) && Step(s, op).value.syms == s.syms + [None]
  {
    hide Untouched;
    match op
    case RevID(id) => RevIDKeeps(s.table, id);
    case Aliases(id) => AliasesKeeps(s.table, id);
    case Resolve(h) => ResolveKeeps(s.table, h);
    case MemberNamed(h, name) => MemberNamedKeeps(s.table, h, name);
  }

  // ---- every step keeps the run invariant ----

  // An operation that may come next: its visit, if it is one, is to a DIE not visited before.
  ghost predicate Fresh(hist: seq<Op>, op: Op) {
    op.Visit? ==> DieKey(op.place, op.die) !in VisitedKeys(hist)
  }

  lemma KeysGrow(hist: seq<Op>, op: Op)
    ensures VisitedKeys(hist + [op]) ==
            VisitedKeys(hist) + (if op.Visit? then {DieKey(op.place, op.die)} else {})
  {
    var h1 := hist + [op];
    assert forall i | 0 <= i < |hist| :: h1[i] == hist[i];
    assert h1[|hist|] == op;
    forall k | k in VisitedKeys(hist) ensures k in VisitedKeys(h1) {
      var i :| 0 <= i < |hist| && hist[i].Visit? && k == DieKey(hist[i].place, hist[i].die);
      assert h1[i].Visit? && k == DieKey(h1[i].place, h1[i].die);
    }
  }

  lemma KnownGrows(t: Table, t1: Table, keys: set<Key>, key: Key)
    requires IssuedOk(t) && Known(t, keys) && IdsOk(t.ids) && IdsOk(t1.ids)
    requires Extends(t, t1) && OnlyAdds(t, t1, key)
    ensures Known(t1, keys + {key})
  {
    forall id | id in t1.symbolIDMap || id in t1.aliases.target
      ensures id in t1.ids.byID && t1.ids.byID[id] in keys + {key}
    {
      if id in t.symbolIDMap || id in t.aliases.target {
        var k := t.ids.byID[id];
        assert t1.ids.byKey[k] == t.ids.byKey[k] == id;
      }
    }
  }

  // Results that hold of earlier visits hold after any further step.
  lemma ResolvedCarries(t: Table, t1: Table, key: Key, die: Die, h: Handle)
    requires Inv(t) && Inv(t1) && Extends(t, t1) && ResolvesTo(t, key, die, h)
    ensures ResolvesTo(t1, key, die, h)
  {
    FindIsStable(t, t1, t.ids.byKey[key]);
  }

  lemma ResolvedAtCarries(t: Table, t1: Table, op: Op, sym: Option<Handle>)
    requires Inv(t) && Inv(t1) && Extends(t, t1) && ResolvedAt(t, op, sym)
    ensures ResolvedAt(t1, op, sym)
  {
    if op.Visit? && sym.Some? && Wanted(op.die).Some? {
      ResolvedCarries(t, t1, DieKey(op.place, op.die), op.die, sym.value);
    }
  }

  lemma ResolvedGrows(hist: seq<Op>, s: State, op: Op, s1: State)
    requires SymsOk(hist, s) && ResolvedOk(hist, s) && Inv(s.table) && Inv(s1.table) && Extends(s.table, s1.table)
    requires |s1.syms| == |s.syms| + 1 && s1.syms[..|s.syms|] == s.syms
    requires var r := s1.syms[|s.syms|];
             (r.Some? ==> op.Visit? && r.value < |s1.table.objects|) && ResolvedAt(s1.table, op, r)
    ensures SymsOk(hist + [op], s1) && ResolvedOk(hist + [op], s1)
  {
    var h1 := hist + [op];
    assert forall i | 0 <= i < |hist| :: s1.syms[i] == s.syms[i];
    forall i | 0 <= i < |h1| ensures ResolvedAt(s1.table, h1[i], s1.syms[i]) {
      if i < |hist| {
        assert h1[i] == hist[i] && s1.syms[i] == s.syms[i];
        ResolvedAtCarries(s.table, s1.table, hist[i], s.syms[i]);
      } else {
        assert h1[i] == op && i == |s.syms|;
      }
    }
  }

  lemma CreatedCarries(hist: seq<Op>, s: State, op: Op, s1: State, j: nat, h: Handle)
    requires Created(hist, s, j, h) && Extends(s.table, s1.table)
    requires |s1.syms| == |s.syms| + 1 && s1.syms[..|s.syms|] == s.syms
    ensures Created(hist + [op], s1, j, h)
  {
    assert s1.syms[j] == s.syms[j];
  }

  lemma CreatedPersists(hist: seq<Op>, s: State, hist1: seq<Op>, s1: State, j: nat, h: Handle)
    requires Created(hist, s, j, h) && hist <= hist1 && s.syms <= s1.syms && |hist1| == |s1.syms|
    requires Extends(s.table, s1.table)
    ensures Created(hist1, s1, j, h) && SameIdentity(s.table.objects[h], s1.table.objects[h])
  {}

  // An object that existed before the step was not created by the step.
  lemma CreatedBefore(hist: seq<Op>, s: State, op: Op, s1: State, j: nat, h: Handle)
    requires |hist| == |s.syms| && Inv(s.table) && Inv(s1.table) && Extends(s.table, s1.table)
    requires Known(s.table, VisitedKeys(hist)) && Fresh(hist, op)
    requires |s1.syms| == |s.syms| + 1 && s1.syms[..|s.syms|] == s.syms
    requires Created(hist + [op], s1, j, h) && h < |s.table.objects|
    ensures j < |hist| && s.syms[j] == Some(h) && (hist + [op])[j] == hist[j]
  {
    hide Find;
    if j == |hist| {
      ObjectKeyIsKnown(s.table, s1.table, VisitedKeys(hist), h);
      assert false;
    }
    assert s1.syms[j] == s.syms[j];
  }

  // The key under which an object is registered was visited.
  lemma ObjectKeyIsKnown(t: Table, t1: Table, keys: set<Key>, h: Handle)
    requires Inv(t) && IdsOk(t1.ids) && Extends(t, t1) && Known(t, keys) && h < |t.objects|
    ensures forall k <- t1.ids.byKey | t1.ids.byKey[k] == t1.objects[h].id :: k in keys
  {
    assert SameIdentity(t.objects[h], t1.objects[h]);
    var id := t.objects[h].id;
    var k0 := t.ids.byID[id];
    assert id in t.symbolIDMap && k0 in keys;
    assert t1.ids.byKey[k0] == id;
  }

  lemma CreatorsExist(hist: seq<Op>, s: State, op: Op, s1: State, h: Handle)
    requires SymsOk(hist, s) && CreatorsOk(hist, s) && Extends(s.table, s1.table)
    requires |s1.syms| == |s.syms| + 1 && s1.syms[..|s.syms|] == s.syms
    requires || |s1.table.objects| == |s.table.objects|
             || (op.Visit? && s1.syms[|s.syms|].Some? &&
                 Creates(s.table, Visited(s1.table, s1.syms[|s.syms|]), op.place, op.die))
    requires h < |s1.table.objects|
    ensures IsCreated(hist + [op], s1, h)
  {
    if h < |s.table.objects| {
      assert IsCreated(hist, s, h);
      var j: nat :| Created(hist, s, j, h);
      CreatedCarries(hist, s, op, s1, j, h);
    } else {
      assert Created(hist + [op], s1, |hist|, h);
    }
  }

  lemma CreatorStores(hist: seq<Op>, s: State, op: Op, s1: State, j: nat, h: Handle)
    requires RunOk(hist, s) && Fresh(hist, op) && Inv(s1.table) && Extends(s.table, s1.table)
    requires |s1.syms| == |s.syms| + 1 && s1.syms[..|s.syms|] == s.syms
    requires || |s1.table.objects| == |s.table.objects|
             || (op.Visit? && s1.syms[|s.syms|].Some? &&
                 Creates(s.table, Visited(s1.table, s1.syms[|s.syms|]), op.place, op.die))
    requires Created(hist + [op], s1, j, h)
    ensures var o := (hist + [op])[j]; Describes(s1.table.ids, o.place, o.die, s1.table.objects[h])
  {
    if h < |s.table.objects| {
      CreatedBefore(hist, s, op, s1, j, h);
      assert SameIdentity(s.table.objects[h], s1.table.objects[h]);
      ObjectIdOf(s.table, s1.table, DieKey(hist[j].place, hist[j].die), h);
      assert Created(hist, s, j, h);
    } else {
      NewObjectCreator(hist, s, op, s1, j, h);
    }
  }

  // The key of an object's id was interned when the object was created.
  lemma ObjectIdOf(t: Table, t1: Table, key: Key, h: Handle)
    requires IdsOk(t.ids) && IssuedOk(t) && ObjectsOk(t) && IdsOk(t1.ids) && Extends(t, t1) && h < |t.objects|
    requires key in t1.ids.byKey && t1.ids.byKey[key] == t1.objects[h].id
    ensures key in t.ids.byKey && t.ids.byKey[key] == t.objects[h].id
  {
    assert SameIdentity(t.objects[h], t1.objects[h]);
    assert t.objects[h].id in t.symbolIDMap;
    var k := t.ids.byID[t.objects[h].id];
    assert t1.ids.byKey[k] == t.objects[h].id;
  }

  lemma CreatorsGrow(hist: seq<Op>, s: State, op: Op, s1: State)
    requires RunOk(hist, s) && Fresh(hist, op) && Inv(s1.table) && Extends(s.table, s1.table)
    requires |s1.syms| == |s.syms| + 1 && s1.syms[..|s.syms|] == s.syms
    requires || |s1.table.objects| == |s.table.objects|
             || (op.Visit? && s1.syms[|s.syms|].Some? &&
                 Creates(s.table, Visited(s1.table, s1.syms[|s.syms|]), op.place, op.die))
    ensures CreatorsOk(hist + [op], s1)
  {
    forall h: nat | h < |s1.table.objects| ensures IsCreated(hist + [op], s1, h) {
      CreatorsExist(hist, s, op, s1, h);
    }
    forall h: nat, j: nat | Created(hist + [op], s1, j, h)
      ensures var o := (hist + [op])[j]; Describes(s1.table.ids, o.place, o.die, s1.table.objects[h])
    {
      CreatorStores(hist, s, op, s1, j, h);
    }
  }

  lemma NewObjectCreator(hist: seq<Op>, s: State, op: Op, s1: State, j: nat, h: Handle)
    requires SymsOk(hist, s) && |s1.syms| == |s.syms| + 1 && s1.syms[..|s.syms|] == s.syms
    requires Created(hist + [op], s1, j, h) && h >= |s.table.objects|
    ensures j == |hist|
  {
    assert forall i | 0 <= i < |hist| :: s1.syms[i] == s.syms[i];
  }

  // What an operation does to the table, and what it returns.
  ghost predicate StepsRight(hist: seq<Op>, s: State, op: Op, s1: State) {
    && Inv(s1.table) && Extends(s.table, s1.table) && Known(s1.table, VisitedKeys(hist + [op]))
    && |s1.syms| == |s.syms| + 1 && s1.syms[..|s.syms|] == s.syms
    && (var r := s1.syms[|s.syms|];
        && (r.Some? ==> op.Visit? && r.value < |s1.table.objects|) && ResolvedAt(s1.table, op, r)
        && (|| |s1.table.objects| == |s.table.objects|
            || (op.Visit? && r.Some? && Creates(s.table, Visited(s1.table, r), op.place, op.die))))
  }

  lemma VisitStepsRight(hist: seq<Op>, s: State, op: Op)
    requires RunOk(hist, s) && Fresh(hist, op) && op.Visit? && Step(s, op).Some?
    ensures StepsRight(hist, s, op, Step(s, op).value)
  {
    hide VisitDie;
    var key := DieKey(op.place, op.die);
    var parent := ParentSym(s.syms, op.parent);
    KeysGrow(hist, op);
    FreshKeyIsUnseen(s.table, VisitedKeys(hist), key);
    VisitDieKeeps(s.table, op.place, op.die, parent);
    VisitCreates(s.table, op.place, op.die, parent);
    KnownGrows(s.table, Step(s, op).value.table, VisitedKeys(hist), key);
  }

  lemma LookupStepsRight(hist: seq<Op>, s: State, op: Op)
    requires RunOk(hist, s) && !op.Visit? && Step(s, op).Some?
    ensures StepsRight(hist, s, op, Step(s, op).value)
  {
    hide Step, Inv;
    KeysGrow(hist, op);
    LookupKeeps(s, op);
    assert VisitedKeys(hist) + {} == VisitedKeys(hist);
    LookupKnows(s.table, Step(s, op).value.table, VisitedKeys(hist));
  }

  lemma LookupKnows(t: Table, t1: Table, keys: set<Key>)
    requires Inv(t) && Known(t, keys) && Untouched(t, t1)
    ensures Known(t1, keys)
  {}

  // The invariant of the run is kept by every operation, whichever it is.
  lemma StepKeeps(hist: seq<Op>, s: State, op: Op)
    requires RunOk(hist, s) && Fresh(hist, op) && Step(s, op).Some?
    ensures RunOk(hist + [op], Step(s, op).value) && Extends(s.table, Step(s, op).value.table)
    ensures Step(s, op).value.syms[..|s.syms|] == s.syms && |Step(s, op).value.syms| == |s.syms| + 1
  {
    hide Step, Inv, Known, Creates, ResolvedAt;
    if op.Visit? { VisitStepsRight(hist, s, op); } else { LookupStepsRight(hist, s, op); }
    ResolvedGrows(hist, s, op, Step(s, op).value);
    CreatorsGrow(hist, s, op, Step(s, op).value);
  }

  // ---- runs ----

  // `s` is the state after the whole of `ops`, no DIE being visited twice.
  ghost predicate RunsTo(ops: seq<Op>, s: State) {
    Replay(START, ops) == Some(s) && DistinctKeys(ops)
  }

  lemma NewVisitIsFresh(hist: seq<Op>, op: Op, rest: seq<Op>)
    requires DistinctKeys(hist + [op] + rest)
    ensures Fresh(hist, op)
  {
    var all := hist + [op] + rest;
    assert all[|hist|] == op && forall i | 0 <= i < |hist| :: all[i] == hist[i];
  }

  // The later state satisfies the invariant and extends the earlier one.
  ghost predicate Leads(s: State, hist1: seq<Op>, s1: State) {
    RunOk(hist1, s1) && Extends(s.table, s1.table) && s.syms <= s1.syms
  }

  lemma LeadsTransitive(s: State, s1: State, hist2: seq<Op>, s2: State)
    requires Extends(s.table, s1.table) && s.syms <= s1.syms && Leads(s1, hist2, s2)
    ensures Leads(s, hist2, s2)
  {
    ExtendsTransitive(s.table, s1.table, s2.table);
  }

  lemma {:induction false} ReplayLeads(hist: seq<Op>, s: State, ops: seq<Op>)
    requires RunOk(hist, s) && DistinctKeys(hist + ops) && Replay(s, ops).Some?
    ensures Leads(s, hist + ops, Replay(s, ops).value)
    decreases |ops|
  {
    hide Step, RunOk;
    if ops == [] {
      assert hist + ops == hist;
    } else {
      assert hist + [ops[0]] + ops[1..] == hist + ops;
      NewVisitIsFresh(hist, ops[0], ops[1..]);
      StepKeeps(hist, s, ops[0]);
      var s1 := Step(s, ops[0]).value;
      ReplayLeads(hist + [ops[0]], s1, ops[1..]);
      LeadsTransitive(s, s1, hist + ops, Replay(s1, ops[1..]).value);
    }
  }

  lemma {:induction false} ReplayKeeps(hist: seq<Op>, s: State, ops: seq<Op>)
    requires RunOk(hist, s) && DistinctKeys(hist + ops) && Replay(s, ops).Some?
    ensures RunOk(hist + ops, Replay(s, ops).value)
    ensures Extends(s.table, Replay(s, ops).value.table)
    ensures s.syms <= Replay(s, ops).value.syms
  {
    ReplayLeads(hist, s, ops);
  }

  lemma EmptyIsOk()
    ensures RunOk([], START)
  {
    hide Inv;
    EmptyIsConsistent();
  }

  lemma EmptyIsConsistent()
    ensures Inv(EMPTY)
  {
    assert NamesOk(EMPTY) && MembersOk(EMPTY);
  }

  // The state at any point of a run: it satisfies the invariant, and later states extend it.
  lemma RunSplits(ops: seq<Op>, s: State, n: nat) returns (mid: State)
    requires RunsTo(ops, s) && n <= |ops|
    ensures RunsTo(ops[..n], mid) && RunOk(ops[..n], mid) && Replay(mid, ops[n..]) == Some(s)
    ensures RunOk(ops, s) && Extends(mid.table, s.table) && mid.syms == s.syms[..n]
  {
    hide Step;
    mid := PrefixRuns(ops, s, n);
    PrefixOk(ops[..n], mid);
    assert ops[..n] + ops[n..] == ops;
    ReplayKeeps(ops[..n], mid, ops[n..]);
  }

  lemma PrefixRuns(ops: seq<Op>, s: State, n: nat) returns (mid: State)
    requires RunsTo(ops, s) && n <= |ops|
    ensures RunsTo(ops[..n], mid) && Replay(mid, ops[n..]) == Some(s)
  {
    assert ops[..n] + ops[n..] == ops;
    ReplayAppend(START, ops[..n], ops[n..]);
    mid := Replay(START, ops[..n]).value;
  }

  lemma PrefixOk(ops: seq<Op>, s: State)
    requires RunsTo(ops, s)
    ensures RunOk(ops, s)
  {
    EmptyIsOk();
    assert [] + ops == ops;
    ReplayKeeps([], START, ops);
  }

  // The consistency of the table after every run.
  lemma RunKeepsTable(ops: seq<Op>, s: State)
    requires RunsTo(ops, s)
    ensures Inv(s.table) && RunOk(ops, s)
  {
    var _ := RunSplits(ops, s, 0);
  }

  /**
   In a consistent table findSymbolByID succeeds exactly on symbol ids and aliases, returns the
   object registered under the id or under the id it is an alias of, and the third search, over
   the reverse list, never hits.
   */
  lemma FindExact(t: Table, id: nat)
    requires Inv(t)
    ensures Find(t, id).Some? <==> id in t.symbolIDMap || id in t.aliases.target
    ensures forall h: nat :: Find(t, id) == Some(h) <==>
              h < |t.objects| && (t.objects[h].id == id
                                  || (id in t.aliases.target && t.aliases.target[id] == t.objects[h].id))
    ensures forall n :: !ThirdSearchHit(t, id, n)
  {
    forall n ensures !ThirdSearchHit(t, id, n) {
      if n in AliasesOf(t.aliases, id) { assert n in t.aliases.target; }
    }
  }

  // What an id resolves to at any point of a run it resolves to at the end.
  lemma ResolutionIsStable(ops: seq<Op>, s: State, n: nat, mid: State, id: nat)
    requires RunsTo(ops, s) && n <= |ops| && RunsTo(ops[..n], mid) && Find(mid.table, id).Some?
    ensures Find(s.table, id) == Find(mid.table, id)
  {
    var m := RunSplits(ops, s, n);
    FindIsStable(mid.table, s.table, id);
  }

  /**
   The id an object stores for a ref4 type attribute resolves, at the end of the run, to the symbol
   that the visit of the target DIE returned, whether that visit came before or after; the symbol
   has the target's name and a class the target asked for.
   */
  lemma ReferenceAgreement(ops: seq<Op>, s: State, j: nat, h: Handle, i: nat)
    requires RunsTo(ops, s) && Created(ops, s, j, h) && IsTyped(s.table.objects[h].kind)
    requires i < |ops| == |s.syms| && ops[i].Visit? && s.syms[i].Some? && Wanted(ops[i].die).Some?
    requires ops[j].die.typeRef.Some?
    requires DieKey(ops[i].place, ops[i].die) == RefKey(ops[j].place, ops[j].die.typeRef.value)
    ensures Find(s.table, s.table.objects[h].typ) == s.syms[i]
    ensures var g := s.syms[i].value;
            && g < |s.table.objects| && s.table.objects[g].name == ops[i].die.name
            && Casts(s.table.objects[g].kind, Wanted(ops[i].die).value)
  {
    RunKeepsTable(ops, s);
  }

  // An object created by a visit is younger than every symbol returned before that visit.
  lemma CreationOrder(ops: seq<Op>, s: State, j: nat, h: Handle, i: nat)
    requires RunsTo(ops, s) && Created(ops, s, j, h) && i < j && s.syms[i].Some?
    ensures s.syms[i].value < h
  {
    hide Replay, Find;
    var mid := RunSplits(ops, s, j);
    assert mid.syms[i] == s.syms[i];
    var key := DieKey(ops[j].place, ops[j].die);
    assert key !in VisitedKeys(ops[..j]);
    if h < |mid.table.objects| {
      ObjectKeyIsKnown(mid.table, s.table, VisitedKeys(ops[..j]), h);
      assert false;
    }
  }

  // ---- reference chains ----

  // The object `h` refers to nothing, or to an older type.
  ghost predicate RankedAt(t: Table, h: Handle)
    requires h < |t.objects|
  {
    IsRefType(t.objects[h].kind) && t.objects[h].typ != 0 ==>
      match Find(t, t.objects[h].typ)
      case None => false
      case Some(g) => g < h && IsBaseType(t.objects[g].kind)
  }

  // Every object that refers to a type refers to an older one, and that one is a type.
  ghost predicate Ranked(t: Table) {
    forall h: nat | h < |t.objects| :: RankedAt(t, h)
  }

  // Operation `i` visited the DIE that the DW_AT_type of operation `j` refers to, and it is a type.
  ghost predicate TypeTarget(ops: seq<Op>, s: State, i: nat, j: nat)
    requires j < |ops| && ops[j].Visit? && ops[j].die.typeRef.Some?
  {
    && i < |ops| == |s.syms| && ops[i].Visit? && s.syms[i].Some?
    && Wanted(ops[i].die).Some? && Wanted(ops[i].die) != Some(Var)
    && DieKey(ops[i].place, ops[i].die) == RefKey(ops[j].place, ops[j].die.typeRef.value)
  }

  // Every DW_AT_type of a referring DIE points at a DIE visited before.
  ghost predicate BackwardReferences(ops: seq<Op>, s: State) {
    forall j: nat | j < |ops| && ops[j].Visit? && ops[j].die.typeRef.Some?
                    && Wanted(ops[j].die).Some? && IsRefType(Wanted(ops[j].die).value) ::
      exists i: nat :: i < j && TypeTarget(ops, s, i, j)
  }

  lemma TargetOf(ops: seq<Op>, s: State, j: nat, h: Handle)
    requires CreatorsOk(ops, s) && BackwardReferences(ops, s) && Created(ops, s, j, h)
    requires IsRefType(s.table.objects[h].kind) && s.table.objects[h].typ != 0
    ensures ops[j].die.typeRef.Some? && exists i: nat :: i < j && TypeTarget(ops, s, i, j)
  {}

  lemma CastsToType(k: Kind, die: Die)
    requires Wanted(die).Some? && Wanted(die) != Some(Var) && Casts(k, Wanted(die).value)
    ensures IsBaseType(k)
  {}

  lemma BackwardReferenceRanks(ops: seq<Op>, s: State, j: nat, h: Handle)
    requires RunsTo(ops, s) && RunOk(ops, s) && BackwardReferences(ops, s) && Created(ops, s, j, h)
    requires IsRefType(s.table.objects[h].kind) && s.table.objects[h].typ != 0
    ensures RankedAt(s.table, h)
  {
    TargetOf(ops, s, j, h);
    var i: nat :| i < j && TypeTarget(ops, s, i, j);
    ReferenceAgreement(ops, s, j, h, i);
    CreationOrder(ops, s, j, h, i);
    CastsToType(s.table.objects[s.syms[i].value].kind, ops[i].die);
  }

  // Merging by name keeps the reference chains well-founded when references point backwards.
  lemma BackwardReferencesRank(ops: seq<Op>, s: State)
    requires RunsTo(ops, s) && BackwardReferences(ops, s)
    ensures Ranked(s.table)
  {
    RunKeepsTable(ops, s);
    forall h: nat | h < |s.table.objects| ensures RankedAt(s.table, h) {
      assert IsCreated(ops, s, h);
      var j: nat :| Created(ops, s, j, h);
      if IsRefType(s.table.objects[h].kind) && s.table.objects[h].typ != 0 { BackwardReferenceRanks(ops, s, j, h); }
    }
  }
}
