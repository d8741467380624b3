/**
 Which ids a run issues and in which order, told from its DIEs and the symbols that the visits returned: the
 tables are those that the calls of getID and getRevID leave that the operations make one after the other.
 */
module Numbering {
  import opened Basics
  import opened Dwarf
  import opened SymbolTable
  import opened Invariant
  import opened Identifiers
  import opened Runs
  import opened Creators
  import opened Functions
  import Classes

  // ---- the calls of one visit ----

  function TypeCall(place: Place, die: Die): seq<IdCall> {
    match die.typeRef case None => [] case Some(r) => [Get(RefKey(place, r))]
  }

  // What the calls of a visit depend on besides its DIE: whether it returned a symbol and whether that is new, the
  // class of its parent symbol, whether the function it returned has a type, whether its parent takes parameters.
  datatype Outcome = Outcome(returned: bool, created: bool, parent: Option<Kind>, typed: bool, open: bool)

  /**
   A new symbol is numbered, then its type, if its class has one.  A known one is numbered again; a function
   without a type takes the type first.  Of the parts only new members are numbered, and index types and types of
   parameters that are taken.
   */
  function CallsOf(place: Place, die: Die, o: Outcome): seq<IdCall> {
    var own, ty := [Get(DieKey(place, die))], TypeCall(place, die);
    match die.tag
    case StructTag => own
    case UnionTag => own
    case BaseTag => own
    case EnumTag => own
    case ArrayTag => own + ty
    case SubprogramTag => if o.created then own + ty else (if o.typed then [] else ty) + own
    case MemberTag => if o.created then own + ty else []
    case SubrangeTag => if o.parent == Some(Array) then ty else []
    case FormalTag => if o.parent == Some(Func) && o.open then ty else []
    case EnumeratorTag => []
    case OtherTag => []
    case _ => if o.created then own + ty else if o.returned then own else []
  }

  // The tables after further calls.
  function Numbered(ids: Ids, calls: seq<IdCall>): Ids
    decreases |calls|
  {
    if calls == [] then ids else Numbered(IdsNext(ids, calls[0]), calls[1..])
  }

  lemma {:induction false} NumberedTwo(ids: Ids, a: IdCall, b: IdCall)
    ensures Numbered(ids, []) == ids && Numbered(ids, [a]) == IdsNext(ids, a)
    ensures Numbered(ids, [a] + [b]) == IdsNext(IdsNext(ids, a), b)
  {
    assert [a][1..] == [] && [b][1..] == [];
    assert ([a] + [b])[0] == a && ([a] + [b])[1..] == [b];
    assert Numbered(IdsNext(ids, a), [b]) == Numbered(IdsNext(IdsNext(ids, a), b), []);
  }

  lemma {:induction false} NumberedAfter(calls: seq<IdCall>, more: seq<IdCall>)
    ensures IdsAfter(calls + more) == Numbered(IdsAfter(calls), more)
    decreases |more|
  {
    if more == [] {
      assert calls + more == calls;
    } else {
      assert calls + more == calls + [more[0]] + more[1..];
      assert (calls + [more[0]])[..|calls|] == calls;
      NumberedAfter(calls + [more[0]], more[1..]);
    }
  }

  function KindOf(t: Table, sym: Option<Handle>): Option<Kind> {
    if sym.Some? && sym.value < |t.objects| then Some(t.objects[sym.value].kind) else None
  }

  // What a visit of the table came to.
  function OutcomeOf(t: Table, parent: Option<Handle>, v: Visited): Outcome {
    Outcome(v.sym.Some?, |v.table.objects| > |t.objects|, KindOf(t, parent),
            v.sym.Some? && v.sym.value < |t.objects| && t.objects[v.sym.value].rettype != 0,
            parent.Some? && parent.value < |t.objects| && !t.objects[parent.value].paramsFinal)
  }

  ghost predicate NumbersRight(t: Table, place: Place, die: Die, parent: Option<Handle>, v: Visited) {
    v.table.ids == Numbered(t.ids, CallsOf(place, die, OutcomeOf(t, parent, v)))
  }

  lemma {:induction false} OwnAndType(ids: Ids, place: Place, die: Die)
    ensures var own := [Get(DieKey(place, die))];
            && Numbered(ids, own) == Intern(ids, DieKey(place, die)).0
            && Numbered(ids, TypeCall(place, die)) == InternType(ids, place, die.typeRef).0
            && Numbered(ids, own + TypeCall(place, die))
               == InternType(Intern(ids, DieKey(place, die)).0, place, die.typeRef).0
            && Numbered(ids, TypeCall(place, die) + own)
               == Intern(InternType(ids, place, die.typeRef).0, DieKey(place, die)).0
            && Numbered(ids, []) == ids && [] + own == own && own + [] == own
  {
    var own := Get(DieKey(place, die));
    NumberedTwo(ids, own, own);
    assert [] + [own] == [own] && [own] + [] == [own];
    if die.typeRef.Some? {
      var ty := Get(RefKey(place, die.typeRef.value));
      NumberedTwo(ids, own, ty);
      NumberedTwo(ids, ty, own);
    }
  }

  lemma TypeNumbers(t: Table, place: Place, die: Die, kind: Kind, parent: Option<Handle>)
    requires die.tag in {StructTag, UnionTag, BaseTag, EnumTag}
    ensures NumbersRight(t, place, die, parent, TypeInstance(t, place, die, kind))
  {
    hide Intern, Numbered, TypeCall;
    OwnAndType(t.ids, place, die);
  }

  lemma NewRefNumbers(t: Table, place: Place, die: Die, kind: Kind)
    ensures NewRefType(t, place, die, kind).ids == Numbered(t.ids, [Get(DieKey(place, die))] + TypeCall(place, die))
  {
    OwnAndType(t.ids, place, die);
  }

  lemma RefNumbers(t: Table, place: Place, die: Die, kind: Kind, parent: Option<Handle>)
    requires die.tag in {TypedefTag, PointerTag, ConstTag}
    ensures NumbersRight(t, place, die, parent, RefTypeInstance(t, place, die, kind))
  {
    hide NewRefType, Numbered;
    OwnAndType(t.ids, place, die);
    NewRefNumbers(t, place, die, kind);
  }

  lemma NewFunctionNumbers(t: Table, place: Place, die: Die)
    ensures NewFunction(t, place, die).ids == Numbered(t.ids, [Get(DieKey(place, die))] + TypeCall(place, die))
  {
    OwnAndType(t.ids, place, die);
  }

  lemma FunctionNumbers(t: Table, place: Place, die: Die, parent: Option<Handle>)
    requires die.tag == SubprogramTag
    ensures NumbersRight(t, place, die, parent, FunctionInstance(t, place, die))
  {
    hide NewFunction, Numbered;
    OwnAndType(t.ids, place, die);
    NewFunctionNumbers(t, place, die);
  }

  lemma NewVariableNumbers(t: Table, place: Place, die: Die)
    ensures NewVariable(t, place, die).ids == Numbered(t.ids, [Get(DieKey(place, die))] + TypeCall(place, die))
  {
    OwnAndType(t.ids, place, die);
  }

  lemma VariableNumbers(t: Table, place: Place, die: Die, parent: Option<Handle>)
    requires die.tag == VariableTag
    ensures NumbersRight(t, place, die, parent, VariableInstance(t, place, die))
  {
    hide NewVariable, Numbered;
    OwnAndType(t.ids, place, die);
    NewVariableNumbers(t, place, die);
  }

  lemma NewMemberNumbers(t: Table, place: Place, die: Die)
    ensures NewMember(t, place, die).ids == Numbered(t.ids, [Get(DieKey(place, die))] + TypeCall(place, die))
  {
    OwnAndType(t.ids, place, die);
  }

  lemma MemberNumbers(t: Table, place: Place, die: Die, parent: Option<Handle>)
    requires die.tag == MemberTag && parent.Some? && parent.value < |t.objects|
    ensures NumbersRight(t, place, die, parent, AddMember(t, place, die, parent.value))
  {
    hide NewMember, Numbered;
    OwnAndType(t.ids, place, die);
    NewMemberNumbers(t, place, die);
  }

  lemma PartNumbers(t: Table, place: Place, die: Die, p: Handle)
    requires p < |t.objects|
    ensures UpdateArray(t, place, die, p).ids == Numbered(t.ids, TypeCall(place, die))
    ensures AddParam(t, place, die, p).ids
            == Numbered(t.ids, if t.objects[p].paramsFinal then [] else TypeCall(place, die))
  {
    OwnAndType(t.ids, place, die);
  }

  // Every visit numbers what its outcome says.
  lemma VisitNumbers(t: Table, place: Place, die: Die, parent: Option<Handle>)
    ensures match VisitDie(t, place, die, parent)
            case None => true
            case Some(v) => NumbersRight(t, place, die, parent, v)
  {
    hide TypeInstance, RefTypeInstance, FunctionInstance, VariableInstance, NewRefType, NumbersRight;
    match die.tag
    case TypedefTag => RefNumbers(t, place, die, Typedef, parent);
    case PointerTag => RefNumbers(t, place, die, Pointer, parent);
    case ConstTag => RefNumbers(t, place, die, Const, parent);
    case ArrayTag => ArrayNumbers(t, place, die, parent);
    case StructTag => TypeNumbers(t, place, die, Struct, parent);
    case UnionTag => TypeNumbers(t, place, die, Union, parent);
    case BaseTag => TypeNumbers(t, place, die, Base, parent);
    case EnumTag => TypeNumbers(t, place, die, Enum, parent);
    case SubprogramTag => FunctionNumbers(t, place, die, parent);
    case VariableTag =>
      if die.specification { NothingNumbers(t, place, die, parent); } else { VariableNumbers(t, place, die, parent); }
    case _ => PartVisitNumbers(t, place, die, parent);
  }

  lemma ArrayNumbers(t: Table, place: Place, die: Die, parent: Option<Handle>)
    requires die.tag == ArrayTag
    ensures NumbersRight(t, place, die, parent, Visited(NewRefType(t, place, die, Array), Some(|t.objects|)))
  {
    hide NewRefType, Numbered, TypeCall;
    NewRefNumbers(t, place, die, Array);
  }

  lemma NothingNumbers(t: Table, place: Place, die: Die, parent: Option<Handle>)
    requires die.tag == VariableTag && die.specification
    ensures NumbersRight(t, place, die, parent, Visited(t, None))
  {}

  lemma PartVisitNumbers(t: Table, place: Place, die: Die, parent: Option<Handle>)
    requires die.tag in {MemberTag, EnumeratorTag, SubrangeTag, FormalTag, OtherTag}
    ensures match VisitDie(t, place, die, parent)
            case None => true
            case Some(v) => NumbersRight(t, place, die, parent, v)
  {
    hide AddMember, UpdateArray, AddParam, Numbered, TypeCall;
    OwnAndType(t.ids, place, die);
    match die.tag
    case MemberTag =>
      var p := ParentOf(t, parent, IsStructured);
      if p.Some? { MemberNumbers(t, place, die, p); }
    case SubrangeTag =>
      var p := ParentOf(t, parent, IsArray);
      if p.Some? { PartNumbers(t, place, die, p.value); }
    case FormalTag =>
      var p := ParentOf(t, parent, IsFunction);
      if p.Some? { PartNumbers(t, place, die, p.value); }
    case _ =>
  }

  // ---- runs ----

  // The visit is the first to return its symbol.
  ghost predicate IsNew(syms: seq<Option<Handle>>, i: nat)
    requires i < |syms|
  {
    syms[i].Some? && forall k | 0 <= k < i :: syms[k] != syms[i]
  }

  // The outcome of operation `i`: its function has a type if an earlier DIE gave one, and its parent takes
  // parameters if it has had one DIE.
  ghost function OutcomeAt(ops: seq<Op>, s: State, i: nat): Outcome
    requires i < |ops| == |s.syms| && ops[i].Visit?
  {
    var earlier, syms := ops[..i], s.syms[..i];
    var parent := ParentSym(syms, ops[i].parent);
    Outcome(s.syms[i].Some?, IsNew(s.syms, i), KindOf(s.table, parent),
            s.syms[i].Some? && FirstType(DiesOf(earlier, syms, s.syms[i].value)).Some?,
            parent.Some? && |DiesOf(earlier, syms, parent.value)| == 1)
  }

  ghost function CallsAt(ops: seq<Op>, s: State, i: nat): seq<IdCall>
    requires i < |ops| == |s.syms|
  {
    match ops[i]
    case Visit(place, die, _, _) => CallsOf(place, die, OutcomeAt(ops, s, i))
    case RevID(id) => [Rev(id)]
    case _ => []
  }

  ghost function CallsUpTo(ops: seq<Op>, s: State, n: nat): seq<IdCall>
    requires n <= |ops| == |s.syms|
  {
    if n == 0 then [] else CallsUpTo(ops, s, n - 1) + CallsAt(ops, s, n - 1)
  }

  // A visit makes an object exactly if it is the first to return its symbol.
  lemma GrowsIffNew(ops: seq<Op>, s: State, i: nat, mid: State, next: State)
    requires i < |ops| && ops[i].Visit? && IsBefore(ops, s, i, mid) && IsBefore(ops, s, i + 1, next)
    requires Step(mid, ops[i]) == Some(next)
    ensures |next.table.objects| > |mid.table.objects| <==> IsNew(s.syms, i)
  {
    hide Step, Inv;
    if |next.table.objects| > |mid.table.objects| {
      NewIsCreated(ops, s, i, mid, next);
      forall k: nat | k < i ensures s.syms[k] != s.syms[i] { assert mid.syms[k] == s.syms[k]; }
    } else if s.syms[i].Some? {
      var h := s.syms[i].value;
      assert next.syms[i] == s.syms[i] && h < |next.table.objects|;
      assert IsCreated(ops[..i], mid, h);
      var j: nat :| Created(ops[..i], mid, j, h);
      assert mid.syms[j] == s.syms[j];
    }
  }

  lemma ParentKind(ops: seq<Op>, s: State, i: nat, mid: State)
    requires IsBefore(ops, s, i, mid) && i < |ops| && ops[i].Visit?
    ensures KindOf(mid.table, ParentSym(mid.syms, ops[i].parent)) == KindOf(s.table, ParentSym(mid.syms, ops[i].parent))
    ensures var p := ParentSym(mid.syms, ops[i].parent); p.Some? ==> p.value < |mid.table.objects|
  {
    var p := ParentSym(mid.syms, ops[i].parent);
    if p.Some? { assert SameIdentity(mid.table.objects[p.value], s.table.objects[p.value]); }
  }

  // A function has a type exactly if one of its DIEs gave one, and takes parameters while it has one DIE.
  lemma {:induction false} HistoryTells(ops: seq<Op>, s: State, i: nat, mid: State, h: Handle)
    requires IsBefore(ops, s, i, mid) && h < |mid.table.objects| && mid.table.objects[h].kind == Func
    ensures mid.table.objects[h].rettype != 0 <==> FirstType(DiesOf(ops[..i], s.syms[..i], h)).Some?
    ensures !mid.table.objects[h].paramsFinal <==> |DiesOf(ops[..i], s.syms[..i], h)| == 1
  {
    FunctionsAgree(ops[..i], mid, h);
  }

  // The calls depend on nothing else of the table.
  lemma CallsAgree(ops: seq<Op>, s: State, i: nat, mid: State, next: State)
    requires i < |ops| && ops[i].Visit? && IsBefore(ops, s, i, mid) && IsBefore(ops, s, i + 1, next)
    requires RunsTo(ops, s) && Step(mid, ops[i]) == Some(next)
    ensures var parent := ParentSym(mid.syms, ops[i].parent);
            CallsOf(ops[i].place, ops[i].die, OutcomeOf(mid.table, parent, Visited(next.table, next.syms[i])))
            == CallsAt(ops, s, i)
  {
    hide Step, Inv, RunsTo, RunOk, DiesOf, FirstType;
    var parent := ParentSym(mid.syms, ops[i].parent);
    assert next.syms[i] == s.syms[i];
    GrowsIffNew(ops, s, i, mid, next);
    ParentKind(ops, s, i, mid);
    if KindOf(mid.table, parent) == Some(Func) { HistoryTells(ops, s, i, mid, parent.value); }
    if ops[i].die.tag == SubprogramTag && s.syms[i].Some? && !IsNew(s.syms, i) {
      KnownFunction(ops, s, i, mid, next);
      HistoryTells(ops, s, i, mid, s.syms[i].value);
    }
  }

  lemma KnownFunction(ops: seq<Op>, s: State, i: nat, mid: State, next: State)
    requires i < |ops| && ops[i].Visit? && IsBefore(ops, s, i, mid) && IsBefore(ops, s, i + 1, next)
    requires RunsTo(ops, s) && ops[i].die.tag == SubprogramTag && s.syms[i].Some?
    requires |next.table.objects| <= |mid.table.objects|
    ensures s.syms[i].value < |mid.table.objects| && mid.table.objects[s.syms[i].value].kind == Func
  {
    var h := s.syms[i].value;
    Classes.ReturnedClass(ops, s, i);
    assert next.syms[i] == s.syms[i];
    assert SameIdentity(mid.table.objects[h], s.table.objects[h]);
  }

  lemma StepNumbers(ops: seq<Op>, s: State, i: nat, mid: State, next: State)
    requires i < |ops| && IsBefore(ops, s, i, mid) && IsBefore(ops, s, i + 1, next)
    requires RunsTo(ops, s) && Step(mid, ops[i]) == Some(next)
    ensures next.table.ids == Numbered(mid.table.ids, CallsAt(ops, s, i))
  {
    hide VisitDie, Inv, RunsTo, RunOk;
    if ops[i].Visit? {
      hide CallsAt, CallsOf, Numbered;
      VisitNumbers(mid.table, ops[i].place, ops[i].die, ParentSym(mid.syms, ops[i].parent));
      StepVisits(mid, ops[i], next);
      CallsAgree(ops, s, i, mid, next);
    } else {
      LookupNumbers(mid, ops[i], next, CallsAt(ops, s, i));
    }
  }

  lemma {:induction false} LookupNumbers(s: State, op: Op, s1: State, calls: seq<IdCall>)
    requires !op.Visit? && Step(s, op) == Some(s1) && calls == if op.RevID? then [Rev(op.id)] else []
    ensures s1.table.ids == Numbered(s.table.ids, calls)
  {
    if op.RevID? { NumberedTwo(s.table.ids, Rev(op.id), Rev(op.id)); }
  }

  lemma {:induction false} NumberedUpTo(ops: seq<Op>, s: State, n: nat, mid: State)
    requires RunsTo(ops, s) && IsBefore(ops, s, n, mid)
    ensures mid.table.ids == IdsAfter(CallsUpTo(ops, s, n))
  {
    hide Step, Inv, RunOk, Extends, CallsAt, Numbered;
    if n == 0 {
      assert ops[..0] == [];
    } else {
      var before, next := StepAt(ops, s, n - 1);
      NumberedUpTo(ops, s, n - 1, before);
      StepNumbers(ops, s, n - 1, before, next);
      NumberedAfter(CallsUpTo(ops, s, n - 1), CallsAt(ops, s, n - 1));
      SameState(ops, n, next, mid);
    }
  }

  lemma SameState(ops: seq<Op>, n: nat, s: State, s1: State)
    requires n <= |ops| && RunsTo(ops[..n], s) && RunsTo(ops[..n], s1)
    ensures s == s1
  {}

  // After any run the tables of ids are those that its calls leave: every key numbered when it is first asked for,
  // and no other.
  lemma {:induction false} RunNumbers(ops: seq<Op>, s: State)
    requires RunsTo(ops, s)
    ensures |s.syms| == |ops| && s.table.ids == IdsAfter(CallsUpTo(ops, s, |ops|))
    ensures s.table.ids.byKey.Keys == Identifiers.KeysOf(CallsUpTo(ops, s, |ops|))
  {
    var mid := StateBefore(ops, s, |ops|);
    assert ops[..|ops|] == ops;
    SameState(ops, |ops|, mid, s);
    NumberedUpTo(ops, s, |ops|, mid);
    IdsAreOk(CallsUpTo(ops, s, |ops|));
  }
}
