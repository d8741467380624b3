/**
 Where the ids that resolve come from: every one belongs to a DIE whose visit returned the object.
 */
module Registered {
  import opened Basics
  import opened Dwarf
  import opened SymbolTable
  import opened Invariant
  import opened VisitKeeps
  import opened Runs
  import opened Creators

  // Operation `i` visited the registering DIE of the id, and returned a symbol.
  ghost predicate IsOriginOf(hist: seq<Op>, s: State, i: nat, id: nat) {
    && i < |hist| == |s.syms| && Registers(hist[i]) && s.syms[i].Some? && id in s.table.ids.byID
    && DieKey(hist[i].place, hist[i].die) == s.table.ids.byID[id]
  }

  ghost predicate HasOrigin(hist: seq<Op>, s: State, id: nat) {
    exists i: nat :: IsOriginOf(hist, s, i, id)
  }

  ghost predicate AliasesHaveOrigins(hist: seq<Op>, s: State) {
    |hist| == |s.syms| && forall n <- s.table.aliases.target :: HasOrigin(hist, s, n)
  }

  // What a visit may alias: the id of its DIE, if it registers and returns a symbol.
  ghost predicate AliasesOwn(t: Table, v: Visited, place: Place, die: Die) {
    v.table.aliases.target == t.aliases.target
    || (v.sym.Some? && Wanted(die).Some? && DieKey(place, die) in v.table.ids.byKey
        && forall n <- v.table.aliases.target :: n in t.aliases.target || n == v.table.ids.byKey[DieKey(place, die)])
  }

  lemma AliasAddsOwn(t: Table, h: Handle, key: Key)
    requires h < |t.objects| && IdsOk(t.ids)
    ensures var t1 := AddAlternativeDwarfID(t, h, key);
            key in t1.ids.byKey && forall n <- t1.aliases.target :: n in t.aliases.target || n == t1.ids.byKey[key]
  {
    InternKeeps(t.ids, key);
  }

  lemma TypeAliases(t: Table, place: Place, die: Die, kind: Kind)
    requires IdsOk(t.ids) && Wanted(die).Some?
    ensures AliasesOwn(t, TypeInstance(t, place, die, kind), place, die)
  {
    var r := FirstCast(t.objects, BaseTypesNamed(t.names, die.name), kind);
    if r.Some? { AliasAddsOwn(t, r.value, DieKey(place, die)); }
  }

  lemma NewRefAliases(t: Table, place: Place, die: Die, kind: Kind)
    ensures AliasesOwn(t, Visited(NewRefType(t, place, die, kind), Some(|t.objects|)), place, die)
  {}

  lemma RefAliases(t: Table, place: Place, die: Die, kind: Kind)
    requires IdsOk(t.ids) && Wanted(die).Some?
    ensures AliasesOwn(t, RefTypeInstance(t, place, die, kind), place, die)
  {
    NewRefAliases(t, place, die, kind);
    var r := Named(t, t.names.refTypes, die.name);
    if r.Some? { AliasAddsOwn(t, r.value, DieKey(place, die)); }
  }

  lemma FunctionAliases(t: Table, place: Place, die: Die)
    requires IdsOk(t.ids) && Wanted(die).Some?
    ensures AliasesOwn(t, FunctionInstance(t, place, die), place, die)
  {
    var r := FirstCast(t.objects, BaseTypesNamed(t.names, die.name), Func);
    if r.Some? {
      UpdateFunctionMeans(t, place, die, r.value);
      AliasAddsOwn(UpdateFunction(t, place, die, r.value), r.value, DieKey(place, die));
    }
  }

  lemma VariableAliases(t: Table, place: Place, die: Die)
    requires IdsOk(t.ids) && Wanted(die).Some?
    ensures AliasesOwn(t, VariableInstance(t, place, die), place, die)
  {
    var r := Named(t, t.names.variables, die.name);
    if r.Some? { AliasAddsOwn(UpdateVariable(t, die, r.value), r.value, DieKey(place, die)); }
  }

  lemma MemberAliases(t: Table, place: Place, die: Die, p: Handle)
    requires p < |t.objects|
    ensures AliasesOwn(t, AddMember(t, place, die, p), place, die)
  {}

  lemma PartAliases(t: Table, place: Place, die: Die, value: nat, p: Handle)
    requires p < |t.objects|
    ensures AliasesOwn(t, Visited(t, None), place, die)
    ensures AliasesOwn(t, Visited(AddEnum(t, die.name, value, p), None), place, die)
    ensures AliasesOwn(t, Visited(UpdateArray(t, place, die, p), None), place, die)
    ensures AliasesOwn(t, Visited(AddParam(t, place, die, p), None), place, die)
  {}

  lemma VisitAliases(t: Table, place: Place, die: Die, parent: Option<Handle>)
    requires IdsOk(t.ids)
    ensures match VisitDie(t, place, die, parent) case None => true case Some(v) => AliasesOwn(t, v, place, die)
  {
    assert AliasesOwn(t, Visited(t, None), place, die);
    match die.tag
    case TypedefTag => RefAliases(t, place, die, Typedef);
    case PointerTag => RefAliases(t, place, die, Pointer);
    case ConstTag => RefAliases(t, place, die, Const);
    case ArrayTag => NewRefAliases(t, place, die, Array);
    case StructTag => TypeAliases(t, place, die, Struct);
    case UnionTag => TypeAliases(t, place, die, Union);
    case BaseTag => TypeAliases(t, place, die, Base);
    case EnumTag => TypeAliases(t, place, die, Enum);
    case SubprogramTag => FunctionAliases(t, place, die);
    case VariableTag => if !die.specification { VariableAliases(t, place, die); }
    case MemberTag =>
      var p := ParentOf(t, parent, IsStructured);
      if p.Some? { MemberAliases(t, place, die, p.value); }
    case EnumeratorTag =>
      var p := ParentOf(t, parent, IsEnum);
      if p.Some? && die.constValue.Some? { PartAliases(t, place, die, die.constValue.value, p.value); }
    case SubrangeTag =>
      var p := ParentOf(t, parent, IsArray);
      if p.Some? { PartAliases(t, place, die, 0, p.value); }
    case FormalTag =>
      var p := ParentOf(t, parent, IsFunction);
      if p.Some? { PartAliases(t, place, die, 0, p.value); }
    case OtherTag =>
  }

  // ---- over runs ----

  lemma OriginStays(hist: seq<Op>, s: State, op: Op, s1: State, n: nat)
    requires HasOrigin(hist, s, n) && IdsOk(s.table.ids) && IdsOk(s1.table.ids) && Extends(s.table, s1.table)
    requires |s1.syms| == |s.syms| + 1 && s1.syms[..|s.syms|] == s.syms && 1 <= n <= s.table.ids.current
    ensures HasOrigin(hist + [op], s1, n)
  {
    var i: nat :| IsOriginOf(hist, s, i, n);
    var k := s.table.ids.byID[n];
    assert s1.table.ids.byKey[k] == n;
    assert IsOriginOf(hist + [op], s1, i, n);
  }

  lemma OwnOrigin(hist: seq<Op>, s: State, op: Op, s1: State, n: nat)
    requires |hist| == |s.syms| && |s1.syms| == |s.syms| + 1 && Registers(op) && s1.syms[|s.syms|].Some?
    requires IdsOk(s1.table.ids) && DieKey(op.place, op.die) in s1.table.ids.byKey
    requires n == s1.table.ids.byKey[DieKey(op.place, op.die)]
    ensures HasOrigin(hist + [op], s1, n)
  {
    assert IsOriginOf(hist + [op], s1, |hist|, n);
  }

  lemma StepOrigins(hist: seq<Op>, s: State, op: Op)
    requires RunOk(hist, s) && Fresh(hist, op) && Step(s, op).Some? && AliasesHaveOrigins(hist, s)
    ensures AliasesHaveOrigins(hist + [op], Step(s, op).value)
  {
    var s1 := Step(s, op).value;
    StepKeeps(hist, s, op);
    forall n <- s1.table.aliases.target ensures HasOrigin(hist + [op], s1, n) { StepOrigin(hist, s, op, s1, n); }
  }

  lemma StepOrigin(hist: seq<Op>, s: State, op: Op, s1: State, n: nat)
    requires |hist| == |s.syms| && Inv(s.table) && Inv(s1.table) && Extends(s.table, s1.table)
             && Step(s, op) == Some(s1)
    requires |s1.syms| == |s.syms| + 1 && s1.syms[..|s.syms|] == s.syms
    requires AliasesHaveOrigins(hist, s) && n in s1.table.aliases.target
    ensures HasOrigin(hist + [op], s1, n)
  {
    if n in s.table.aliases.target {
      OriginStays(hist, s, op, s1, n);
    } else if op.Visit? {
      VisitAliases(s.table, op.place, op.die, ParentSym(s.syms, op.parent));
      OwnOrigin(hist, s, op, s1, n);
    } else {
      LookupKeeps(s, op);
    }
  }

  lemma {:induction false} ReplayOrigins(hist: seq<Op>, s: State, ops: seq<Op>)
    requires RunOk(hist, s) && DistinctKeys(hist + ops) && AliasesHaveOrigins(hist, s) && Replay(s, ops).Some?
    ensures AliasesHaveOrigins(hist + ops, Replay(s, ops).value)
    decreases |ops|
  {
    hide Step, AliasesHaveOrigins;
    if ops == [] {
      assert hist + ops == hist;
    } else {
      assert hist + [ops[0]] + ops[1..] == hist + ops;
      NewVisitIsFresh(hist, ops[0], ops[1..]);
      StepKeeps(hist, s, ops[0]);
      StepOrigins(hist, s, ops[0]);
      ReplayOrigins(hist + [ops[0]], Step(s, ops[0]).value, ops[1..]);
    }
  }

  lemma RunOrigins(ops: seq<Op>, s: State)
    requires RunsTo(ops, s)
    ensures AliasesHaveOrigins(ops, s)
  {
    EmptyIsOk();
    assert [] + ops == ops;
    ReplayOrigins([], START, ops);
  }

  /**
   An id that resolves is that of a DIE whose visit returned the object found: a registering DIE, or the
   member DIE that created the object.
   */
  lemma FoundFrom(ops: seq<Op>, s: State, key: Key, g: Handle) returns (i: nat)
    requires RunsTo(ops, s) && key in s.table.ids.byKey && Find(s.table, s.table.ids.byKey[key]) == Some(g)
    ensures i < |ops| == |s.syms| && ops[i].Visit? && DieKey(ops[i].place, ops[i].die) == key && g < |s.table.objects|
    ensures s.syms[i] == Some(g) && (Registers(ops[i]) || s.table.objects[g].kind == Member)
    ensures s.table.ids.byKey[key] in s.table.symbolIDMap || Registers(ops[i])
  {
    var id := s.table.ids.byKey[key];
    RunKeepsTable(ops, s);
    if id in s.table.symbolIDMap {
      assert IsCreated(ops, s, g);
      i :| Created(ops, s, i, g);
      SameKey(s.table.ids, key, DieKey(ops[i].place, ops[i].die));
    } else {
      RunOrigins(ops, s);
      assert HasOrigin(ops, s, id);
      i :| IsOriginOf(ops, s, i, id);
      assert ResolvedAt(s.table, ops[i], s.syms[i]);
    }
  }

  // ---- aliases ----

  // Operation `i` visited a DIE of the id `n` for which it returned the object `h` that another DIE created.
  ghost predicate MergedInto(ops: seq<Op>, s: State, i: nat, n: nat, h: Handle) {
    && i < |ops| == |s.syms| && Registers(ops[i]) && s.syms[i] == Some(h) && !Created(ops, s, i, h)
    && DieKey(ops[i].place, ops[i].die) in s.table.ids.byKey
    && s.table.ids.byKey[DieKey(ops[i].place, ops[i].die)] == n
  }

  // The answer of getAliases for the id of an object: the ids of the DIEs that were merged into it.
  lemma AliasesAreMerged(ops: seq<Op>, s: State, h: Handle, n: nat)
    requires RunsTo(ops, s) && h < |s.table.objects|
    ensures n in GetAliases(s.table.aliases, s.table.objects[h].id).1 <==>
            exists i: nat :: MergedInto(ops, s, i, n, h)
  {
    RunKeepsTable(ops, s);
    if n in GetAliases(s.table.aliases, s.table.objects[h].id).1 { var i := MergedFrom(ops, s, h, n); }
    if i: nat :| MergedInto(ops, s, i, n, h) { MergedIsAlias(ops, s, h, n, i); }
  }

  lemma MergedFrom(ops: seq<Op>, s: State, h: Handle, n: nat) returns (i: nat)
    requires RunsTo(ops, s) && Inv(s.table) && h < |s.table.objects|
    requires n in GetAliases(s.table.aliases, s.table.objects[h].id).1
    ensures MergedInto(ops, s, i, n, h)
  {
    hide RunsTo, GetAliases, Inv;
    AliasMeans(s.table, h, n);
    FoundUnder(s.table, n);
    i := FoundFrom(ops, s, s.table.ids.byID[n], h);
  }

  lemma MergedIsAlias(ops: seq<Op>, s: State, h: Handle, n: nat, i: nat)
    requires RunOk(ops, s) && h < |s.table.objects| && MergedInto(ops, s, i, n, h)
    ensures n in GetAliases(s.table.aliases, s.table.objects[h].id).1
  {
    hide GetAliases, Inv;
    AliasMeans(s.table, h, n);
    assert ResolvedAt(s.table, ops[i], s.syms[i]);
  }

  lemma FoundUnder(t: Table, n: nat)
    requires Inv(t) && n in t.aliases.target
    ensures n in t.ids.byID && t.ids.byID[n] in t.ids.byKey && t.ids.byKey[t.ids.byID[n]] == n
  {}

  // In a consistent table the aliases of an object are the other ids that resolve to it.
  lemma AliasMeans(t: Table, h: Handle, n: nat)
    requires Inv(t) && h < |t.objects|
    ensures n in GetAliases(t.aliases, t.objects[h].id).1 <==> Find(t, n) == Some(h) && n != t.objects[h].id
    ensures n in GetAliases(t.aliases, t.objects[h].id).1 ==> n in t.aliases.target && n !in t.symbolIDMap
  {
    FindExact(t, n);
  }
}
