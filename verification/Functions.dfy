/**
 What a function object says about the DIEs it was built from: its parameters are the typed formal
 parameters seen while it had one subprogram DIE, its return type and its address the first ones that
 any of its subprogram DIEs gives.
 */
module Functions {
  import opened Basics
  import opened Dwarf
  import opened SymbolTable
  import opened Invariant
  import opened VisitKeeps
  import opened Runs

  // ---- the history of a function ----

  // An operation that visited a subprogram DIE and returned the object `h`.
  predicate IsDieOf(op: Op, sym: Option<Handle>, h: Handle) {
    op.Visit? && op.die.tag == SubprogramTag && sym == Some(h)
  }

  // The visits of the subprogram DIEs of `h`.
  function DiesOf(ops: seq<Op>, syms: seq<Option<Handle>>, h: Handle): (dies: seq<Op>)
    requires |ops| == |syms|
    ensures forall op <- dies :: op.Visit?
  {
    if ops == [] then []
    else
      var n := |ops| - 1;
      DiesOf(ops[..n], syms[..n], h) + (if IsDieOf(ops[n], syms[n], h) then [ops[n]] else [])
  }

  // A visit of a typed formal parameter DIE whose parent symbol is `h`, after visits that returned `syms`.
  predicate IsTypedFormalOf(op: Op, syms: seq<Option<Handle>>, h: Handle) {
    op.Visit? && op.die.tag == FormalTag && op.die.typeRef.Some? && ParentSym(syms, op.parent) == Some(h)
  }

  // The name of a parameter and the key of its type.
  function ParamOf(op: Op): (string, Key)
    requires op.Visit? && op.die.typeRef.Some?
  {
    (op.die.name, RefKey(op.place, op.die.typeRef.value))
  }

  // The typed formal parameters of `h` visited after its first and before its second subprogram DIE.
  function ParamsOf(ops: seq<Op>, syms: seq<Option<Handle>>, h: Handle): seq<(string, Key)>
    requires |ops| == |syms|
  {
    if ops == [] then []
    else
      var n := |ops| - 1;
      ParamsOf(ops[..n], syms[..n], h)
      + (if IsTypedFormalOf(ops[n], syms[..n], h) && |DiesOf(ops[..n], syms[..n], h)| == 1
         then [ParamOf(ops[n])] else [])
  }

  // The first type that a list of DIEs gives.
  function FirstType(dies: seq<Op>): Option<Key>
    requires forall op <- dies :: op.Visit?
  {
    if dies == [] then None
    else if dies[0].die.typeRef.Some? then Some(RefKey(dies[0].place, dies[0].die.typeRef.value))
    else FirstType(dies[1..])
  }

  // The first address other than zero that a list of DIEs gives, zero if none does.
  function FirstAddress(dies: seq<Op>): nat
    requires forall op <- dies :: op.Visit?
  {
    if dies == [] then 0
    else if dies[0].die.lowPc.Some? && dies[0].die.lowPc.value != 0 then dies[0].die.lowPc.value
    else FirstAddress(dies[1..])
  }

  lemma {:induction false} FirstsGrow(dies: seq<Op>, op: Op)
    requires op.Visit? && forall o <- dies :: o.Visit?
    ensures forall o <- dies + [op] :: o.Visit?
    ensures FirstType(dies + [op]) == if FirstType(dies).Some? then FirstType(dies)
                                      else if op.die.typeRef.Some? then Some(RefKey(op.place, op.die.typeRef.value))
                                        else None
    ensures FirstAddress(dies + [op]) == if FirstAddress(dies) != 0 then FirstAddress(dies)
                                         else if op.die.lowPc.Some? then op.die.lowPc.value else 0
    decreases |dies|
  {
    if dies == [] {
      assert [op][1..] == [];
    } else {
      assert dies + [op] == [dies[0]] + (dies[1..] + [op]);
      FirstsGrow(dies[1..], op);
    }
  }

  // ---- what an object stores ----

  // `id` is the id issued for the key, 0 if there is none.
  ghost predicate IsIdOf(ids: Ids, id: nat, key: Option<Key>) {
    match key
    case None => id == 0
    case Some(k) => k in ids.byKey && ids.byKey[k] == id > 0
  }

  ghost predicate ParamsStored(ids: Ids, params: seq<(string, nat)>, keys: seq<(string, Key)>) {
    |params| == |keys| && forall i | 0 <= i < |params| ::
      params[i].0 == keys[i].0 && IsIdOf(ids, params[i].1, Some(keys[i].1))
  }

  // The object `f` is what the DIEs and the parameters say.
  ghost predicate Agrees(ids: Ids, f: Sym, dies: seq<Op>, params: seq<(string, Key)>)
    requires forall op <- dies :: op.Visit?
  {
    && dies != [] && (f.paramsFinal <==> |dies| >= 2)
    && IsIdOf(ids, f.rettype, FirstType(dies)) && f.address == FirstAddress(dies)
    && ParamsStored(ids, f.params, params)
  }

  ghost predicate HistoryOk(hist: seq<Op>, s: State, h: Handle)
    requires |hist| == |s.syms| && h < |s.table.objects|
  {
    Agrees(s.table.ids, s.table.objects[h], DiesOf(hist, s.syms, h), ParamsOf(hist, s.syms, h))
  }

  // ---- one update ----

  lemma IdsStay(ids: Ids, ids1: Ids, f: Sym, dies: seq<Op>, params: seq<(string, Key)>)
    requires forall op <- dies :: op.Visit?
    requires Agrees(ids, f, dies, params) && forall k <- ids.byKey :: k in ids1.byKey && ids1.byKey[k] == ids.byKey[k]
    ensures Agrees(ids1, f, dies, params)
  {}

  lemma UpdateAgrees(t: Table, f: Sym, op: Op, dies: seq<Op>, params: seq<(string, Key)>)
    requires forall o <- dies :: o.Visit?
    requires IdsOk(t.ids) && op.Visit? && Agrees(t.ids, f, dies, params)
    ensures forall o <- dies + [op] :: o.Visit?
    ensures var (ids, g) := UpdatedFunction(t.ids, f, op.place, op.die); Agrees(ids, g, dies + [op], params)
  {
    FirstsGrow(dies, op);
    InternTypeKeeps(t.ids, op.place, op.die.typeRef);
  }

  lemma ParamAgrees(t: Table, f: Sym, op: Op, dies: seq<Op>, params: seq<(string, Key)>)
    requires forall o <- dies :: o.Visit?
    requires IdsOk(t.ids) && op.Visit? && Agrees(t.ids, f, dies, params)
    ensures var (ids, g) := WithParam(t.ids, f, op.place, op.die);
            Agrees(ids, g, dies, if |dies| == 1 && op.die.typeRef.Some? then params + [ParamOf(op)] else params)
  {
    InternTypeKeeps(t.ids, op.place, op.die.typeRef);
  }

  lemma OneDie(op: Op)
    requires op.Visit?
    ensures FirstType([op]) == if op.die.typeRef.Some? then Some(RefKey(op.place, op.die.typeRef.value)) else None
    ensures FirstAddress([op]) == if op.die.lowPc.Some? then op.die.lowPc.value else 0
  {
    assert [op][1..] == [];
  }

  lemma StoredIsId(ids: Ids, place: Place, die: Die, typ: nat)
    requires IdsOk(ids) && TypeStored(ids, place, die, typ)
    ensures IsIdOf(ids, typ, if die.typeRef.Some? then Some(RefKey(place, die.typeRef.value)) else None)
  {}

  lemma NewAgrees(t: Table, op: Op)
    requires IdsOk(t.ids) && op.Visit?
    ensures Agrees(NewFunction(t, op.place, op.die).ids, NewFunction(t, op.place, op.die).objects[|t.objects|], [op],
            [])
  {
    NewFunctionEnters(t, op.place, op.die);
    var t1 := NewFunction(t, op.place, op.die);
    StoredIsId(t1.ids, op.place, op.die, t1.objects[|t.objects|].rettype);
    OneDie(op);
  }

  // ---- what a visit does to a function object ----

  // The visit leaves the function object `g` alone.
  ghost predicate Leaves(t: Table, t1: Table, g: Handle) {
    g < |t.objects| && t.objects[g].kind == Func ==> g < |t1.objects| && t1.objects[g] == t.objects[g]
  }

  // The new object, if there is one, is no function.
  ghost predicate NoNewFunction(t: Table, t1: Table) {
    |t.objects| < |t1.objects| ==> t1.objects[|t.objects|].kind != Func
  }

  lemma TypesLeave(t: Table, place: Place, die: Die, kind: Kind, g: Handle)
    requires kind != Func
    ensures Leaves(t, TypeInstance(t, place, die, kind).table, g)
            && NoNewFunction(t, TypeInstance(t, place, die, kind).table)
  {}

  lemma RefTypesLeave(t: Table, place: Place, die: Die, kind: Kind, g: Handle)
    requires kind != Func
    ensures Leaves(t, RefTypeInstance(t, place, die, kind).table, g)
            && NoNewFunction(t, RefTypeInstance(t, place, die, kind).table)
    ensures Leaves(t, NewRefType(t, place, die, kind), g) && NoNewFunction(t, NewRefType(t, place, die, kind))
  {}

  lemma VariablesLeave(t: Table, place: Place, die: Die, g: Handle)
    requires IndexOk(t, t.names.variables, IsVariable)
    ensures Leaves(t, VariableInstance(t, place, die).table, g)
            && NoNewFunction(t, VariableInstance(t, place, die).table)
  {}

  lemma MembersLeave(t: Table, place: Place, die: Die, p: Handle, g: Handle)
    requires p < |t.objects| && IsStructured(t.objects[p].kind)
    ensures Leaves(t, AddMember(t, place, die, p).table, g) && NoNewFunction(t, AddMember(t, place, die, p).table)
  {}

  // A visit that is neither to a subprogram nor to a formal parameter changes no function.
  lemma OthersLeave(t: Table, place: Place, die: Die, parent: Option<Handle>, g: Handle)
    requires IndexOk(t, t.names.variables, IsVariable) && die.tag != SubprogramTag && die.tag != FormalTag
    ensures match VisitDie(t, place, die, parent)
            case None => true
            case Some(v) => Leaves(t, v.table, g) && NoNewFunction(t, v.table)
  {
    match die.tag
    case TypedefTag => RefTypesLeave(t, place, die, Typedef, g);
    case PointerTag => RefTypesLeave(t, place, die, Pointer, g);
    case ConstTag => RefTypesLeave(t, place, die, Const, g);
    case ArrayTag => RefTypesLeave(t, place, die, Array, g);
    case StructTag => TypesLeave(t, place, die, Struct, g);
    case UnionTag => TypesLeave(t, place, die, Union, g);
    case BaseTag => TypesLeave(t, place, die, Base, g);
    case EnumTag => TypesLeave(t, place, die, Enum, g);
    case VariableTag => VariablesLeave(t, place, die, g);
    case MemberTag =>
      var p := ParentOf(t, parent, IsStructured);
      if p.Some? { MembersLeave(t, place, die, p.value, g); }
    case _ =>
  }

  lemma LookupsLeave(s: State, op: Op, g: Handle)
    requires !op.Visit? && Step(s, op).Some?
    ensures Leaves(s.table, Step(s, op).value.table, g) && |Step(s, op).value.table.objects| == |s.table.objects|
  {}

  // ---- every step keeps the history ----

  // The history after one more operation.
  lemma {:induction false} HistoryGrows(hist: seq<Op>, syms: seq<Option<Handle>>, op: Op, sym: Option<Handle>,
                                        h: Handle)
    requires |hist| == |syms|
    ensures DiesOf(hist + [op], syms + [sym], h)
            == var dies := DiesOf(hist, syms, h); if IsDieOf(op, sym, h) then dies + [op] else dies
    ensures ParamsOf(hist + [op], syms + [sym], h)
            == var params := ParamsOf(hist, syms, h);
               if IsTypedFormalOf(op, syms, h) && |DiesOf(hist, syms, h)| == 1 then params + [ParamOf(op)] else params
  {
    assert (hist + [op])[..|hist|] == hist && (syms + [sym])[..|syms|] == syms;
  }

  // A handle that no visit returned has no history.
  lemma {:induction false} NoHistory(hist: seq<Op>, syms: seq<Option<Handle>>, h: Handle)
    requires |hist| == |syms| && forall i | 0 <= i < |syms| :: syms[i] != Some(h)
    ensures DiesOf(hist, syms, h) == [] && ParamsOf(hist, syms, h) == []
  {
    if hist != [] {
      NoHistory(hist[..|hist| - 1], syms[..|hist| - 1], h);
    }
  }

  lemma LeftAlone(hist: seq<Op>, s: State, op: Op, s1: State, sym: Option<Handle>, h: Handle)
    requires |hist| == |s.syms| && h < |s.table.objects| && HistoryOk(hist, s, h) && s1.syms == s.syms + [sym]
    requires Extends(s.table, s1.table) && s1.table.objects[h] == s.table.objects[h]
    requires !IsDieOf(op, sym, h) && !IsTypedFormalOf(op, s.syms, h)
    ensures HistoryOk(hist + [op], s1, h)
  {
    HistoryGrows(hist, s.syms, op, sym, h);
    IdsStay(s.table.ids, s1.table.ids, s.table.objects[h], DiesOf(hist, s.syms, h), ParamsOf(hist, s.syms, h));
  }

  // What the visit of a formal parameter DIE does to a function.
  lemma FormalVisit(s: State, op: Op, s1: State, h: Handle)
    requires op.Visit? && op.die.tag == FormalTag && Step(s, op) == Some(s1)
    requires h < |s.table.objects| && s.table.objects[h].kind == Func
    ensures s1.syms == s.syms + [None] && h < |s1.table.objects|
    ensures if ParentSym(s.syms, op.parent) == Some(h)
            then (s1.table.ids, s1.table.objects[h]) == WithParam(s.table.ids, s.table.objects[h], op.place, op.die)
            else s1.table.objects[h] == s.table.objects[h]
  {}

  lemma FormalStep(hist: seq<Op>, s: State, op: Op, s1: State, h: Handle)
    requires |hist| == |s.syms| && IdsOk(s.table.ids) && h < |s.table.objects| && HistoryOk(hist, s, h)
    requires s.table.objects[h].kind == Func && op.Visit? && op.die.tag == FormalTag
    requires Step(s, op) == Some(s1) && Extends(s.table, s1.table)
    ensures HistoryOk(hist + [op], s1, h)
  {
    FormalVisit(s, op, s1, h);
    if ParentSym(s.syms, op.parent) == Some(h) {
      var dies, params := DiesOf(hist, s.syms, h), ParamsOf(hist, s.syms, h);
      HistoryGrows(hist, s.syms, op, None, h);
      ParamAgrees(s.table, s.table.objects[h], op, dies, params);
    } else {
      LeftAlone(hist, s, op, s1, None, h);
    }
  }

  lemma MergedStep(hist: seq<Op>, s: State, op: Op, s1: State, h: Handle)
    requires |hist| == |s.syms| && IdsOk(s.table.ids) && h < |s.table.objects| && HistoryOk(hist, s, h)
    requires op.Visit? && op.die.tag == SubprogramTag
    requires s1 == State(AddAlternativeDwarfID(UpdateFunction(s.table, op.place, op.die, h), h,
             DieKey(op.place, op.die)),
                         s.syms + [Some(h)])
    ensures HistoryOk(hist + [op], s1, h)
  {
    var dies, params := DiesOf(hist, s.syms, h), ParamsOf(hist, s.syms, h);
    HistoryGrows(hist, s.syms, op, Some(h), h);
    UpdateAgrees(s.table, s.table.objects[h], op, dies, params);
    UpdateFunctionMeans(s.table, op.place, op.die, h);
    var t1 := UpdateFunction(s.table, op.place, op.die, h);
    InternKeeps(t1.ids, DieKey(op.place, op.die));
    IdsStay(t1.ids, s1.table.ids, t1.objects[h], dies + [op], params);
  }

  lemma NewStep(hist: seq<Op>, s: State, op: Op, s1: State)
    requires SymsOk(hist, s) && IdsOk(s.table.ids) && op.Visit? && op.die.tag == SubprogramTag
    requires s1 == State(NewFunction(s.table, op.place, op.die), s.syms + [Some(|s.table.objects|)])
    ensures HistoryOk(hist + [op], s1, |s.table.objects|)
  {
    var h := |s.table.objects|;
    NoHistory(hist, s.syms, h);
    HistoryGrows(hist, s.syms, op, Some(h), h);
    assert [] + [op] == [op];
    NewAgrees(s.table, op);
  }

  // Every function object agrees with its history.
  ghost predicate HistoriesOk(hist: seq<Op>, s: State) {
    |hist| == |s.syms| &&
    forall h: nat | h < |s.table.objects| && s.table.objects[h].kind == Func :: HistoryOk(hist, s, h)
  }

  lemma SubprogramStep(hist: seq<Op>, s: State, op: Op, s1: State, h: Handle)
    requires SymsOk(hist, s) && IdsOk(s.table.ids) && HistoriesOk(hist, s)
    requires op.Visit? && op.die.tag == SubprogramTag && Step(s, op) == Some(s1) && Extends(s.table, s1.table)
    requires h < |s1.table.objects| && s1.table.objects[h].kind == Func
    ensures HistoryOk(hist + [op], s1, h)
  {
    var found := FirstCast(s.table.objects, BaseTypesNamed(s.table.names, op.die.name), Func);
    if h == |s.table.objects| {
      NewStep(hist, s, op, s1);
    } else {
      assert SameIdentity(s.table.objects[h], s1.table.objects[h]);
      if found == Some(h) {
        MergedStep(hist, s, op, s1, h);
      } else {
        LeftAlone(hist, s, op, s1, if found.Some? then found else Some(|s.table.objects|), h);
      }
    }
  }

  lemma OtherStep(hist: seq<Op>, s: State, op: Op, s1: State, h: Handle)
    requires SymsOk(hist, s) && Inv(s.table) && HistoriesOk(hist, s)
    requires op.Visit? && op.die.tag != SubprogramTag && op.die.tag != FormalTag
    requires Step(s, op) == Some(s1) && Extends(s.table, s1.table)
    requires h < |s1.table.objects| && s1.table.objects[h].kind == Func
    ensures HistoryOk(hist + [op], s1, h)
  {
    hide VisitDie, HistoryOk;
    OthersLeave(s.table, op.place, op.die, ParentSym(s.syms, op.parent), h);
    VisitGrowsByOne(s.table, op.place, op.die, ParentSym(s.syms, op.parent));
    assert h < |s.table.objects| ==> SameIdentity(s.table.objects[h], s1.table.objects[h]);
    LeftAlone(hist, s, op, s1, s1.syms[|s.syms|], h);
  }

  lemma VisitGrowsByOne(t: Table, place: Place, die: Die, parent: Option<Handle>)
    requires IdsOk(t.ids)
    ensures match VisitDie(t, place, die, parent)
            case None => true
            case Some(v) => |v.table.objects| == |t.objects| || |v.table.objects| == |t.objects| + 1
  {
    VisitCreates(t, place, die, parent);
  }

  lemma LookupStep(hist: seq<Op>, s: State, op: Op, s1: State, h: Handle)
    requires SymsOk(hist, s) && HistoriesOk(hist, s) && !op.Visit? && Step(s, op) == Some(s1)
             && Extends(s.table, s1.table)
    requires h < |s1.table.objects| && s1.table.objects[h].kind == Func && s1.syms == s.syms + [None]
    ensures HistoryOk(hist + [op], s1, h)
  {
    LookupsLeave(s, op, h);
    assert SameIdentity(s.table.objects[h], s1.table.objects[h]);
    LeftAlone(hist, s, op, s1, None, h);
  }

  lemma StepHistory(hist: seq<Op>, s: State, op: Op, s1: State, h: Handle)
    requires SymsOk(hist, s) && Inv(s.table) && HistoriesOk(hist, s) && Step(s, op) == Some(s1)
             && Extends(s.table, s1.table)
    requires h < |s1.table.objects| && s1.table.objects[h].kind == Func
    ensures HistoryOk(hist + [op], s1, h)
  {
    if !op.Visit? {
      LookupKeeps(s, op);
      LookupStep(hist, s, op, s1, h);
    } else if op.die.tag == SubprogramTag {
      SubprogramStep(hist, s, op, s1, h);
    } else if op.die.tag == FormalTag {
      assert SameIdentity(s.table.objects[h], s1.table.objects[h]);
      FormalStep(hist, s, op, s1, h);
    } else {
      OtherStep(hist, s, op, s1, h);
    }
  }

  lemma StepHistories(hist: seq<Op>, s: State, op: Op)
    requires RunOk(hist, s) && Fresh(hist, op) && Step(s, op).Some? && HistoriesOk(hist, s)
    ensures HistoriesOk(hist + [op], Step(s, op).value)
  {
    var s1 := Step(s, op).value;
    StepKeeps(hist, s, op);
    forall h: nat | h < |s1.table.objects| && s1.table.objects[h].kind == Func ensures HistoryOk(hist + [op], s1, h) {
      StepHistory(hist, s, op, s1, h);
    }
  }

  lemma {:induction false} ReplayHistories(hist: seq<Op>, s: State, ops: seq<Op>)
    requires RunOk(hist, s) && DistinctKeys(hist + ops) && HistoriesOk(hist, s) && Replay(s, ops).Some?
    ensures HistoriesOk(hist + ops, Replay(s, ops).value)
    decreases |ops|
  {
    hide Step, RunOk, HistoriesOk;
    if ops == [] {
      assert hist + ops == hist;
    } else {
      assert hist + [ops[0]] + ops[1..] == hist + ops;
      NewVisitIsFresh(hist, ops[0], ops[1..]);
      StepKeeps(hist, s, ops[0]);
      StepHistories(hist, s, ops[0]);
      ReplayHistories(hist + [ops[0]], Step(s, ops[0]).value, ops[1..]);
    }
  }

  /**
   After any run every function object has the return type and the address that its subprogram DIEs give
   first, and for parameters the typed formal parameters seen while it had one subprogram DIE.
   */
  lemma FunctionsAgree(ops: seq<Op>, s: State, h: Handle)
    requires RunsTo(ops, s) && h < |s.table.objects| && s.table.objects[h].kind == Func
    ensures |ops| == |s.syms| && HistoryOk(ops, s, h)
  {
    EmptyIsOk();
    assert [] + ops == ops;
    ReplayHistories([], START, ops);
  }
}
