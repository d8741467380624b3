/**
 The type ids that objects store resolve to the symbols of the DIEs that were referred to; and a parse that
 visits the target of every DW_AT_type leaves no unresolved type in arrays and functions.
 */
module References {
  import opened Basics
  import opened Dwarf
  import opened SymbolTable
  import opened Runs
  import opened Sweeping
  import opened Creators
  import opened Functions
  import opened PartHistories
  import opened Liveness

  // Operation `i` visits the registering DIE of `key`, which has a creating DIE.
  ghost predicate VisitsKey(ops: seq<Op>, i: nat, key: Key) {
    && i < |ops| && Registers(ops[i]) && Creator(ops, i).Some?
    && DieKey(ops[i].place, ops[i].die) == key
  }

  ghost predicate IsVisited(ops: seq<Op>, key: Key) {
    exists i: nat :: VisitsKey(ops, i, key)
  }

  // The target of every DW_AT_type is visited, before or after.
  ghost predicate ReferencesVisited(ops: seq<Op>) {
    forall op <- ops | op.Visit? && op.die.typeRef.Some? :: IsVisited(ops, RefKey(op.place, op.die.typeRef.value))
  }

  // The id of a visited key resolves to the object that its creating DIE created.
  lemma KeyResolves(ops: seq<Op>, s: State, key: Key, i: nat)
    requires RunsTo(ops, s) && VisitsKey(ops, i, key)
    ensures key in s.table.ids.byKey && |s.syms| == |ops| && s.syms[i].Some?
    ensures Find(s.table, s.table.ids.byKey[key]) == s.syms[i]
    ensures Created(ops, s, Creator(ops, i).value, s.syms[i].value)
  {
    CreatorIsRight(ops, s, i);
    RunKeepsTable(ops, s);
    assert ResolvedAt(s.table, ops[i], s.syms[i]);
  }

  // The id resolves to the symbol of the DIE of `key`, wherever in the run that is visited.
  ghost predicate NamesKey(ops: seq<Op>, s: State, id: nat, key: Key) {
    forall i: nat | VisitsKey(ops, i, key) :: |s.syms| == |ops| && s.syms[i].Some? && Find(s.table, id) == s.syms[i]
  }

  lemma IdNamesKey(ops: seq<Op>, s: State, id: nat, key: Key)
    requires RunsTo(ops, s) && IsIdOf(s.table.ids, id, Some(key))
    ensures NamesKey(ops, s, id, key)
  {
    forall i: nat | VisitsKey(ops, i, key)
      ensures |s.syms| == |ops| && s.syms[i].Some? && Find(s.table, id) == s.syms[i] {
      KeyResolves(ops, s, key, i);
    }
  }

  // The return type and the parameter types of a function resolve to the symbols of the DIEs that its
  // DIEs and its parameters' DIEs refer to.
  lemma {:induction false} FunctionTypesAgree(ops: seq<Op>, s: State, h: Handle)
    requires RunsTo(ops, s) && h < |s.table.objects| && s.table.objects[h].kind == Func
    ensures |ops| == |s.syms|
    ensures var first := FirstType(DiesOf(ops, s.syms, h));
            if first.None? then s.table.objects[h].rettype == 0
            else NamesKey(ops, s, s.table.objects[h].rettype, first.value)
    ensures var params := ParamsOf(ops, s.syms, h);
            && |s.table.objects[h].params| == |params|
            && forall i | 0 <= i < |params| ::
                 && s.table.objects[h].params[i].0 == params[i].0
                 && NamesKey(ops, s, s.table.objects[h].params[i].1, params[i].1)
  {
    FunctionsAgree(ops, s, h);
    var f, params := s.table.objects[h], ParamsOf(ops, s.syms, h);
    var first := FirstType(DiesOf(ops, s.syms, h));
    if first.Some? { IdNamesKey(ops, s, f.rettype, first.value); }
    assert ParamsStored(s.table.ids, f.params, params);
    forall i | 0 <= i < |params| ensures NamesKey(ops, s, f.params[i].1, params[i].1) {
      IdNamesKey(ops, s, f.params[i].1, params[i].1);
    }
  }

  // The index type of an array resolves to the symbol of the DIE that its last typed subrange refers to.
  lemma {:induction false} IndexTypeAgrees(ops: seq<Op>, s: State, h: Handle)
    requires RunsTo(ops, s) && h < |s.table.objects| && s.table.objects[h].kind == Array
    ensures |ops| == |s.syms|
    ensures var last := LastIndexType(ops, s.syms, h);
            if last.None? then s.table.objects[h].lengthType == 0
            else NamesKey(ops, s, s.table.objects[h].lengthType, last.value)
  {
    ObjectsAgree(ops, s, h);
    var last := LastIndexType(ops, s.syms, h);
    if last.Some? { IdNamesKey(ops, s, s.table.objects[h].lengthType, last.value); }
  }

  // The type of a reference type, a variable or a member resolves to the symbol of the DIE that its
  // creating DIE refers to.
  lemma TypeAgrees(ops: seq<Op>, s: State, j: nat, h: Handle)
    requires RunsTo(ops, s) && Created(ops, s, j, h) && IsTyped(s.table.objects[h].kind)
    ensures if ops[j].die.typeRef.None? then s.table.objects[h].typ == 0
            else NamesKey(ops, s, s.table.objects[h].typ, RefKey(ops[j].place, ops[j].die.typeRef.value))
  {
    RunKeepsTable(ops, s);
    if ops[j].die.typeRef.Some? {
      IdNamesKey(ops, s, s.table.objects[h].typ, RefKey(ops[j].place, ops[j].die.typeRef.value));
    }
  }

  // ---- types that are present ----

  lemma VisitedResolves(ops: seq<Op>, s: State, key: Key)
    requires RunsTo(ops, s) && IsVisited(ops, key)
    ensures key in s.table.ids.byKey && Find(s.table, s.table.ids.byKey[key]).Some?
  {
    var i: nat :| VisitsKey(ops, i, key);
    KeyResolves(ops, s, key, i);
  }

  lemma ArrayResolves(ops: seq<Op>, s: State, h: Handle)
    requires RunsTo(ops, s) && ReferencesVisited(ops) && h < |s.table.objects| && s.table.objects[h].kind == Array
    ensures s.table.objects[h].typ == 0 || Find(s.table, s.table.objects[h].typ).Some?
  {
    RunKeepsTable(ops, s);
    assert IsCreated(ops, s, h);
    var j: nat :| Created(ops, s, j, h);
    assert ops[j] in ops;
    if ops[j].die.typeRef.Some? { VisitedResolves(ops, s, RefKey(ops[j].place, ops[j].die.typeRef.value)); }
  }

  // The keys of a function's history are those of typed DIEs of the run.
  ghost predicate IsRefOf(op: Op, key: Key) {
    op.Visit? && op.die.typeRef.Some? && key == RefKey(op.place, op.die.typeRef.value)
  }

  lemma {:induction false} ParamKeys(ops: seq<Op>, syms: seq<Option<Handle>>, h: Handle, i: nat)
    requires |ops| == |syms| && i < |ParamsOf(ops, syms, h)|
    ensures exists op :: op in ops && IsRefOf(op, ParamsOf(ops, syms, h)[i].1)
  {
    var n := |ops| - 1;
    if i < |ParamsOf(ops[..n], syms[..n], h)| {
      ParamKeys(ops[..n], syms[..n], h, i);
      var op :| op in ops[..n] && IsRefOf(op, ParamsOf(ops[..n], syms[..n], h)[i].1);
      assert op in ops && IsRefOf(op, ParamsOf(ops, syms, h)[i].1);
    } else {
      assert ops[n] in ops && IsRefOf(ops[n], ParamsOf(ops, syms, h)[i].1);
    }
  }

  lemma {:induction false} DiesAreVisits(ops: seq<Op>, syms: seq<Option<Handle>>, h: Handle)
    requires |ops| == |syms|
    ensures forall op <- DiesOf(ops, syms, h) :: op in ops
  {
    if ops != [] {
      DiesAreVisits(ops[..|ops| - 1], syms[..|ops| - 1], h);
    }
  }

  lemma {:induction false} FirstTypeKey(dies: seq<Op>)
    requires (forall op <- dies :: op.Visit?) && FirstType(dies).Some?
    ensures exists op :: op in dies && IsRefOf(op, FirstType(dies).value)
  {
    if dies[0].die.typeRef.Some? {
      assert dies[0] in dies && IsRefOf(dies[0], FirstType(dies).value);
    } else {
      FirstTypeKey(dies[1..]);
    }
  }

  lemma ReturnTypeResolves(ops: seq<Op>, s: State, h: Handle)
    requires RunsTo(ops, s) && ReferencesVisited(ops) && |ops| == |s.syms| && h < |s.table.objects|
             && HistoryOk(ops, s, h)
    ensures s.table.objects[h].rettype == 0 || Find(s.table, s.table.objects[h].rettype).Some?
  {
    var dies := DiesOf(ops, s.syms, h);
    if FirstType(dies).Some? {
      FirstTypeKey(dies);
      DiesAreVisits(ops, s.syms, h);
      VisitedResolves(ops, s, FirstType(dies).value);
    }
  }

  lemma ParamsAllResolve(ops: seq<Op>, s: State, h: Handle)
    requires RunsTo(ops, s) && ReferencesVisited(ops) && |ops| == |s.syms| && h < |s.table.objects|
             && HistoryOk(ops, s, h)
    ensures ParamsResolve(s.table, s.table.objects[h].params)
  {
    var params, keys := s.table.objects[h].params, ParamsOf(ops, s.syms, h);
    assert ParamsStored(s.table.ids, params, keys);
    forall i | 0 <= i < |params| ensures params[i].1 != 0 && Find(s.table, params[i].1).Some? {
      ParamKeys(ops, s.syms, h, i);
      assert IsIdOf(s.table.ids, params[i].1, Some(keys[i].1));
      VisitedResolves(ops, s, keys[i].1);
    }
  }

  // After such a parse either clean-up may run.
  lemma ParseSettles(ops: seq<Op>, s: State)
    requires RunsTo(ops, s) && ReferencesVisited(ops)
    ensures IsSettled(s.table, [])
  {
    RunKeepsTable(ops, s);
    forall h: nat | h < |s.table.objects| && s.table.objects[h].kind == Array
      ensures s.table.objects[h].typ == 0 || Find(s.table, s.table.objects[h].typ).Some?
    {
      ArrayResolves(ops, s, h);
    }
    forall h: nat | h < |s.table.objects| && s.table.objects[h].kind == Func
      ensures s.table.objects[h].rettype == 0 || Find(s.table, s.table.objects[h].rettype).Some?
      ensures ParamsResolve(s.table, s.table.objects[h].params)
    {
      FunctionsAgree(ops, s, h);
      ReturnTypeResolves(ops, s, h);
      ParamsAllResolve(ops, s, h);
    }
    RunSettles(ops, s);
  }
}
