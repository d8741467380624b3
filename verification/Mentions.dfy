/**
 The order in which ids are issued, told from the DIEs: a key gets its id when a DIE first mentions it, as its
 own or as that of its type, so that an id issued before a key is mentioned is smaller than that key's.
 */
module Mentions {
  import opened Basics
  import opened Dwarf
  import opened SymbolTable
  import opened Invariant
  import opened Runs
  import opened Creators

  // The keys that a DIE mentions: its own, and that of its DW_AT_type.
  function KeysOf(place: Place, die: Die): set<Key> {
    {DieKey(place, die)} + match die.typeRef case None => {} case Some(r) => {RefKey(place, r)}
  }

  function Mentioned(op: Op): set<Key> {
    if op.Visit? then KeysOf(op.place, op.die) else {}
  }

  // Some operation mentions the key.
  ghost predicate IsMentioned(ops: seq<Op>, key: Key) {
    exists op :: op in ops && key in Mentioned(op)
  }

  // The table has ids for no other new keys than those the DIE mentions.
  ghost predicate KnowsOnly(t: Table, t1: Table, place: Place, die: Die) {
    forall k <- t1.ids.byKey :: k in t.ids.byKey || k in KeysOf(place, die)
  }

  lemma SymbolKnows(t: Table, place: Place, die: Die, kind: Kind)
    ensures KnowsOnly(t, NewSymbol(t, place, die, kind), place, die)
  {}

  lemma TypedKnows(t: Table, t1: Table, place: Place, die: Die, h: Handle)
    requires KnowsOnly(t, t1, place, die) && h < |t1.objects|
    ensures KnowsOnly(t, SetType(t1, place, die, h), place, die)
  {}

  lemma FunctionKnows(t: Table, t1: Table, place: Place, die: Die, h: Handle)
    requires KnowsOnly(t, t1, place, die) && h < |t1.objects|
    ensures KnowsOnly(t, UpdateFunction(t1, place, die, h), place, die)
  {}

  lemma AliasKnows(t: Table, t1: Table, place: Place, die: Die, h: Handle)
    requires KnowsOnly(t, t1, place, die) && h < |t1.objects|
    ensures KnowsOnly(t, AddAlternativeDwarfID(t1, h, DieKey(place, die)), place, die)
  {}

  lemma TypeInstanceKnows(t: Table, place: Place, die: Die, kind: Kind)
    ensures KnowsOnly(t, TypeInstance(t, place, die, kind).table, place, die)
  {
    hide NewSymbol, AddAlternativeDwarfID, KeysOf;
    SymbolKnows(t, place, die, kind);
    var found := FirstCast(t.objects, BaseTypesNamed(t.names, die.name), kind);
    if found.Some? { AliasKnows(t, t, place, die, found.value); }
  }

  lemma NewRefTypeKnows(t: Table, place: Place, die: Die, kind: Kind)
    ensures KnowsOnly(t, NewRefType(t, place, die, kind), place, die)
  {
    hide NewSymbol, SetType, KeysOf;
    SymbolKnows(t, place, die, kind);
    TypedKnows(t, NewSymbol(t, place, die, kind), place, die, |t.objects|);
  }

  lemma RefTypeInstanceKnows(t: Table, place: Place, die: Die, kind: Kind)
    ensures KnowsOnly(t, RefTypeInstance(t, place, die, kind).table, place, die)
  {
    hide NewRefType, AddAlternativeDwarfID, KeysOf;
    NewRefTypeKnows(t, place, die, kind);
    var found := Named(t, t.names.refTypes, die.name);
    if found.Some? { AliasKnows(t, t, place, die, found.value); }
  }

  lemma FunctionInstanceKnows(t: Table, place: Place, die: Die)
    ensures KnowsOnly(t, FunctionInstance(t, place, die).table, place, die)
  {
    hide NewSymbol, UpdateFunction, AddAlternativeDwarfID, KeysOf;
    SymbolKnows(t, place, die, Func);
    FunctionKnows(t, NewSymbol(t, place, die, Func), place, die, |t.objects|);
    var found := FirstCast(t.objects, BaseTypesNamed(t.names, die.name), Func);
    if found.Some? {
      FunctionKnows(t, t, place, die, found.value);
      AliasKnows(t, UpdateFunction(t, place, die, found.value), place, die, found.value);
    }
  }

  lemma VariableInstanceKnows(t: Table, place: Place, die: Die)
    ensures KnowsOnly(t, VariableInstance(t, place, die).table, place, die)
  {
    hide NewSymbol, SetType, AddAlternativeDwarfID, KeysOf;
    SymbolKnows(t, place, die, Var);
    TypedKnows(t, NewSymbol(t, place, die, Var), place, die, |t.objects|);
    var found := Named(t, t.names.variables, die.name);
    if found.Some? { AliasKnows(t, UpdateVariable(t, die, found.value), place, die, found.value); }
  }

  lemma MemberKnows(t: Table, place: Place, die: Die, p: Handle)
    requires p < |t.objects|
    ensures KnowsOnly(t, AddMember(t, place, die, p).table, place, die)
  {
    hide NewSymbol, SetType, KeysOf;
    SymbolKnows(t, place, die, Member);
    TypedKnows(t, NewSymbol(t, place, die, Member), place, die, |t.objects|);
  }

  lemma PartKnows(t: Table, place: Place, die: Die, p: Handle)
    requires p < |t.objects|
    ensures KnowsOnly(t, UpdateArray(t, place, die, p), place, die)
            && KnowsOnly(t, AddParam(t, place, die, p), place, die)
  {}

  lemma VisitKnows(t: Table, place: Place, die: Die, parent: Option<Handle>)
    ensures match VisitDie(t, place, die, parent)
            case None => true
            case Some(v) => KnowsOnly(t, v.table, place, die)
  {
    hide TypeInstance, RefTypeInstance, FunctionInstance, VariableInstance, NewRefType, AddMember, UpdateArray,
      AddParam;
    match die.tag
    case TypedefTag => RefTypeInstanceKnows(t, place, die, Typedef);
    case PointerTag => RefTypeInstanceKnows(t, place, die, Pointer);
    case ConstTag => RefTypeInstanceKnows(t, place, die, Const);
    case ArrayTag => NewRefTypeKnows(t, place, die, Array);
    case StructTag => TypeInstanceKnows(t, place, die, Struct);
    case UnionTag => TypeInstanceKnows(t, place, die, Union);
    case BaseTag => TypeInstanceKnows(t, place, die, Base);
    case EnumTag => TypeInstanceKnows(t, place, die, Enum);
    case SubprogramTag => FunctionInstanceKnows(t, place, die);
    case VariableTag => VariableInstanceKnows(t, place, die);
    case MemberTag =>
      var p := ParentOf(t, parent, IsStructured);
      if p.Some? { MemberKnows(t, place, die, p.value); }
    case SubrangeTag =>
      var p := ParentOf(t, parent, IsArray);
      if p.Some? { PartKnows(t, place, die, p.value); }
    case FormalTag =>
      var p := ParentOf(t, parent, IsFunction);
      if p.Some? { PartKnows(t, place, die, p.value); }
    case _ =>
  }

  lemma StepKnows(s: State, op: Op, key: Key)
    requires Step(s, op).Some? && key in Step(s, op).value.table.ids.byKey
    ensures key in s.table.ids.byKey || key in Mentioned(op)
  {
    if op.Visit? { VisitKnows(s.table, op.place, op.die, ParentSym(s.syms, op.parent)); }
  }

  // Every key that has an id is mentioned.
  lemma {:induction false} KnownIsMentioned(ops: seq<Op>, s: State, key: Key)
    requires Replay(START, ops) == Some(s) && key in s.table.ids.byKey
    ensures IsMentioned(ops, key)
  {
    hide Step, Mentioned;
    if ops != [] {
      var n := |ops| - 1;
      assert ops == ops[..n] + [ops[n]];
      ReplaySnoc(START, ops[..n], ops[n]);
      var mid := Replay(START, ops[..n]).value;
      StepKnows(mid, ops[n], key);
      if key in mid.table.ids.byKey {
        KnownIsMentioned(ops[..n], mid, key);
        var op :| op in ops[..n] && key in Mentioned(op);
      } else {
        assert ops[n] in ops;
      }
    }
  }

  // The ids issued so far are those of the keys known so far.
  lemma IssuedBefore(ids: Ids, ids1: Ids, a: Key, b: Key)
    requires IdsOk(ids) && IdsOk(ids1) && forall k <- ids.byKey :: k in ids1.byKey && ids1.byKey[k] == ids.byKey[k]
    requires a in ids.byKey && b !in ids.byKey && b in ids1.byKey
    ensures ids1.byKey[a] < ids1.byKey[b]
  {
    var id := ids1.byKey[b];
    if id <= ids.current {
      SameId(ids, ids1, b, id);
      assert false;
    }
  }

  // The key of an id issued before is the same later.
  lemma SameId(ids: Ids, ids1: Ids, b: Key, id: nat)
    requires IdsOk(ids) && IdsOk(ids1) && forall k <- ids.byKey :: k in ids1.byKey && ids1.byKey[k] == ids.byKey[k]
    requires 1 <= id <= ids.current && b in ids1.byKey && ids1.byKey[b] == id
    ensures b in ids.byKey
  {
    assert ids.byID[id] in ids.byKey && ids1.byKey[ids.byID[id]] == id;
  }

  /**
   A key that has its id before operation `i`, and one that no operation before `i` mentions: the first has
   the smaller id.
   */
  lemma IdOrder(ops: seq<Op>, s: State, i: nat, mid: State, a: Key, b: Key)
    requires IsBefore(ops, s, i, mid) && a in mid.table.ids.byKey
    requires !IsMentioned(ops[..i], b) && b in s.table.ids.byKey
    ensures a in s.table.ids.byKey && s.table.ids.byKey[a] < s.table.ids.byKey[b]
  {
    if b in mid.table.ids.byKey { KnownIsMentioned(ops[..i], mid, b); }
    RunKeepsTable(ops, s);
    RunKeepsTable(ops[..i], mid);
    IssuedBefore(mid.table.ids, s.table.ids, a, b);
  }
}
