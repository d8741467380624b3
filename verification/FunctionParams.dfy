/**
 What the DIEs of a run alone say about a function, and its parameters in a parse: those of its first
 subprogram DIE, unless a base type DIE of its name has typed formal parameters, too.
 */
module FunctionParams {
  import opened Basics
  import opened Dwarf
  import opened SymbolTable
  import opened Invariant
  import opened VisitKeeps
  import opened Runs
  import opened Creators
  import opened Subtrees
  import opened Functions

  // ---- which visits return a function object ----

  // What the visit returns is no function object.
  ghost predicate NoFunction(v: Visited) {
    v.sym.Some? && v.sym.value < |v.table.objects| ==> v.table.objects[v.sym.value].kind != Func
  }

  lemma TypeIsNoFunction(t: Table, place: Place, die: Die, kind: Kind)
    requires kind in {Struct, Union, Enum}
    ensures NoFunction(TypeInstance(t, place, die, kind))
  {}

  lemma RefTypeIsNoFunction(t: Table, place: Place, die: Die, kind: Kind)
    requires IsRefType(kind)
    ensures NoFunction(RefTypeInstance(t, place, die, kind))
            && NoFunction(Visited(NewRefType(t, place, die, kind), Some(|t.objects|)))
  {}

  lemma VariableIsNoFunction(t: Table, place: Place, die: Die)
    requires IndexOk(t, t.names.variables, IsVariable)
    ensures NoFunction(VariableInstance(t, place, die))
  {}

  lemma MemberIsNoFunction(t: Table, place: Place, die: Die, p: Handle)
    requires MembersOk(t) && p < |t.objects|
    ensures NoFunction(AddMember(t, place, die, p))
  {}

  // Only subprogram and base type DIEs return function objects.
  lemma VisitReturns(t: Table, place: Place, die: Die, parent: Option<Handle>)
    requires IndexOk(t, t.names.variables, IsVariable) && MembersOk(t)
    requires VisitDie(t, place, die, parent).Some? && !NoFunction(VisitDie(t, place, die, parent).value)
    ensures die.tag == SubprogramTag || die.tag == BaseTag
  {
    match die.tag
    case TypedefTag => RefTypeIsNoFunction(t, place, die, Typedef);
    case PointerTag => RefTypeIsNoFunction(t, place, die, Pointer);
    case ConstTag => RefTypeIsNoFunction(t, place, die, Const);
    case ArrayTag => RefTypeIsNoFunction(t, place, die, Array);
    case StructTag => TypeIsNoFunction(t, place, die, Struct);
    case UnionTag => TypeIsNoFunction(t, place, die, Union);
    case EnumTag => TypeIsNoFunction(t, place, die, Enum);
    case VariableTag => VariableIsNoFunction(t, place, die);
    case MemberTag =>
      var p := ParentOf(t, parent, IsStructured);
      if p.Some? { MemberIsNoFunction(t, place, die, p.value); }
    case _ =>
  }

  lemma ReturnedSymIs(s: State, op: Op, s1: State)
    requires Step(s, op) == Some(s1) && |s1.syms| > |s.syms| && s1.syms[|s.syms|].Some?
    ensures op.Visit?
    ensures VisitDie(s.table, op.place, op.die, ParentSym(s.syms, op.parent))
            == Some(Visited(s1.table, s1.syms[|s.syms|]))
  {}

  lemma StepReturns(s: State, op: Op, s1: State, h: Handle)
    requires Inv(s.table) && Step(s, op) == Some(s1) && |s1.syms| > |s.syms| && s1.syms[|s.syms|] == Some(h)
    requires h < |s1.table.objects| && s1.table.objects[h].kind == Func
    ensures Registers(op) && (op.die.tag == SubprogramTag || op.die.tag == BaseTag)
  {
    ReturnedSymIs(s, op, s1);
    VisitReturns(s.table, op.place, op.die, ParentSym(s.syms, op.parent));
  }

  // A returned object is there from then on.
  lemma ReturnedKind(ops: seq<Op>, s: State, i: nat, next: State, h: Handle)
    requires i < |ops| && IsBefore(ops, s, i + 1, next) && next.syms[i] == Some(h)
    ensures h < |next.table.objects| && h < |s.table.objects| && next.table.objects[h].kind == s.table.objects[h].kind
  {
    assert SameIdentity(next.table.objects[h], s.table.objects[h]);
  }

  lemma FunctionTag(ops: seq<Op>, s: State, i: nat, h: Handle)
    requires RunsTo(ops, s) && i < |ops| == |s.syms| && s.syms[i] == Some(h)
    requires h < |s.table.objects| && s.table.objects[h].kind == Func
    ensures Registers(ops[i]) && (ops[i].die.tag == SubprogramTag || ops[i].die.tag == BaseTag)
  {
    var mid, next := StepAt(ops, s, i);
    ReturnedKind(ops, s, i, next, h);
    StepReturns(mid, ops[i], next, h);
  }

  // What a registering visit created has the DIE's name and class.
  lemma CreatedIs(ops: seq<Op>, s: State, j: nat, h: Handle)
    requires RunsTo(ops, s) && Created(ops, s, j, h) && Registers(ops[j])
    ensures s.table.objects[h].name == ops[j].die.name && Some(s.table.objects[h].kind) == Wanted(ops[j].die)
  {
    var end := StateBefore(ops, s, |ops|);
    assert ops[..|ops|] == ops;
    MadeBefore(ops, s, |ops|, end, j, h);
  }

  // A visit that returned a function object was to a DIE of its name.
  lemma FunctionReturned(ops: seq<Op>, s: State, i: nat, h: Handle)
    requires RunsTo(ops, s) && i < |ops| == |s.syms| && s.syms[i] == Some(h)
    requires h < |s.table.objects| && s.table.objects[h].kind == Func
    ensures ops[i].Visit? && (ops[i].die.tag == SubprogramTag || ops[i].die.tag == BaseTag)
    ensures ops[i].die.name == s.table.objects[h].name
  {
    FunctionTag(ops, s, i, h);
    CreatorIsRight(ops, s, i);
    CreatedIs(ops, s, Creator(ops, i).value, h);
  }

  // A subprogram DIE returns the function object of its name.
  lemma SubprogramReturns(ops: seq<Op>, s: State, i: nat)
    requires RunsTo(ops, s) && i < |ops| && ops[i].Visit? && ops[i].die.tag == SubprogramTag
    ensures |s.syms| == |ops| && s.syms[i].Some? && s.syms[i].value < |s.table.objects|
    ensures var f := s.table.objects[s.syms[i].value]; f.kind == Func && f.name == ops[i].die.name
  {
    CreatorIsRight(ops, s, i);
    CreatedIs(ops, s, Creator(ops, i).value, s.syms[i].value);
  }

  // There is one function object for each name that subprogram DIEs have, and all of them return it.
  lemma OneFunctionPerName(ops: seq<Op>, s: State, i: nat, h: Handle)
    requires RunsTo(ops, s) && i < |ops| && ops[i].Visit? && ops[i].die.tag == SubprogramTag && ops[i].die.name != ""
    requires h < |s.table.objects| && s.table.objects[h].kind == Func && s.table.objects[h].name == ops[i].die.name
    ensures |s.syms| == |ops| && s.syms[i] == Some(h)
  {
    SubprogramReturns(ops, s, i);
    RunKeepsTable(ops, s);
    NamedOnce(s.table, h, s.syms[i].value);
  }

  lemma NamedOnce(t: Table, g: Handle, h: Handle)
    requires Inv(t) && g < |t.objects| && h < |t.objects| && t.objects[g].kind == Func && t.objects[h].kind == Func
    requires t.objects[g].name == t.objects[h].name != ""
    ensures g == h
  {}

  // ---- what the DIEs alone say ----

  // For every operation the one that created the symbol of its DIE.
  function CreatorAt(ops: seq<Op>, i: nat): Option<nat>
    requires i < |ops|
  {
    if Registers(ops[i]) then Creator(ops, i) else None
  }

  function CreatorsOf(ops: seq<Op>): (creators: seq<Option<nat>>)
    ensures |creators| == |ops|
  {
    seq(|ops|, i requires 0 <= i < |ops| => CreatorAt(ops, i))
  }

  // The visits that return a function are those whose DIEs have its creator.
  lemma ReturnedIffCreator(ops: seq<Op>, s: State, k: nat, h: Handle, i: nat)
    requires RunsTo(ops, s) && Created(ops, s, k, h) && s.table.objects[h].kind == Func && i < |ops|
    ensures s.syms[i] == Some(h) <==> CreatorsOf(ops)[i] == Some(k)
  {
    if s.syms[i] == Some(h) { FunctionTag(ops, s, i, h); }
    if Registers(ops[i]) {
      CreatorIsRight(ops, s, i);
      var j := Creator(ops, i);
      if j.Some? && s.syms[i] == Some(h) { CreatedOnce(ops, s, j.value, k, h); }
    }
  }

  lemma {:induction false} SameHistory(ops: seq<Op>, a: seq<Option<Handle>>, h: Handle, b: seq<Option<nat>>, k: nat)
    requires |ops| == |a| == |b| && forall i | 0 <= i < |ops| :: a[i] == Some(h) <==> b[i] == Some(k)
    ensures DiesOf(ops, a, h) == DiesOf(ops, b, k) && ParamsOf(ops, a, h) == ParamsOf(ops, b, k)
  {
    if ops != [] {
      var n := |ops| - 1;
      SameHistory(ops[..n], a[..n], h, b[..n], k);
    }
  }

  /**
   After any run the type, the address and the parameters of a function are those that the DIEs alone say:
   everything follows from which DIEs have the DIE that created the function as their creator.
   */
  lemma {:induction false} FunctionFromDies(ops: seq<Op>, s: State, k: nat, h: Handle)
    requires RunsTo(ops, s) && Created(ops, s, k, h) && s.table.objects[h].kind == Func
    ensures Agrees(s.table.ids, s.table.objects[h], DiesOf(ops, CreatorsOf(ops), k), ParamsOf(ops, CreatorsOf(ops), k))
  {
    FunctionsAgree(ops, s, h);
    forall i: nat | i < |ops| ensures s.syms[i] == Some(h) <==> CreatorsOf(ops)[i] == Some(k) {
      ReturnedIffCreator(ops, s, k, h, i);
    }
    SameHistory(ops, s.syms, h, CreatorsOf(ops), k);
  }

  // ---- the first DIE of a function ----

  predicate IsSubprogramNamed(op: Op, name: string) {
    op.Visit? && op.die.tag == SubprogramTag && op.die.name == name
  }

  // Operation `q` visits a further subprogram DIE of the function of operation `k`.
  predicate IsFurther(ops: seq<Op>, k: nat, q: nat)
    requires k < |ops| && ops[k].Visit?
  {
    k < q < |ops| && ops[k].die.name != "" && IsSubprogramNamed(ops[q], ops[k].die.name)
  }

  // Operation `k` visits the first subprogram DIE of its name, or one without a name.
  ghost predicate IsFirstDie(ops: seq<Op>, k: nat) {
    && k < |ops| && ops[k].Visit? && ops[k].die.tag == SubprogramTag
    && (ops[k].die.name != "" ==> forall i | 0 <= i < k :: !IsSubprogramNamed(ops[i], ops[k].die.name))
  }

  // Operation `i` visits a typed formal parameter below a base type DIE of the function's name, before any
  // further DIE of the function.
  ghost predicate IsStray(ops: seq<Op>, k: nat, i: nat)
    requires k < |ops| && ops[k].Visit?
  {
    && i < |ops| && ops[i].Visit? && ops[i].die.tag == FormalTag && ops[i].die.typeRef.Some?
    && ops[i].parent.Some? && ops[i].parent.value < i && IsBaseOf(ops, k, ops[i].parent.value)
    && forall q | k < q < i :: !IsFurther(ops, k, q)
  }

  // Operation `b` visits a base type DIE for which the function of operation `k` is returned.
  predicate IsBaseOf(ops: seq<Op>, k: nat, b: nat) {
    b < |ops| && ops[b].Visit? && ops[b].die.tag == BaseTag && CreatorAt(ops, b) == Some(k)
  }

  lemma FirstDieCreates(ops: seq<Op>, k: nat)
    requires IsFirstDie(ops, k)
    ensures CreatorsOf(ops)[k] == Some(k)
  {}

  lemma DieIff(ops: seq<Op>, k: nat, q: nat)
    requires IsFirstDie(ops, k) && q < |ops|
    ensures IsDieOf(ops[q], CreatorsOf(ops)[q], k) <==> q == k || IsFurther(ops, k, q)
  {
    FirstDieCreates(ops, k);
    if IsFurther(ops, k, q) { FirstOfferIs(ops, k, q); }
  }

  // The first subprogram of a name is the one that a further one finds.
  lemma FirstOfferIs(ops: seq<Op>, k: nat, q: nat)
    requires IsFirstDie(ops, k) && IsFurther(ops, k, q)
    ensures Creator(ops, q) == Some(k)
  {
    assert Offers(ops[k], ops[k].die.name, Func);
    var j := FirstOffer(ops, q, ops[k].die.name, Func);
    if j.Some? && j.value < k { assert IsSubprogramNamed(ops[j.value], ops[k].die.name); }
  }

  // ---- how many DIEs the function has had ----

  lemma {:induction false} DiesUpTo(ops: seq<Op>, syms: seq<Option<Handle>>, h: Handle, lo: nat, hi: nat)
    requires lo <= hi <= |ops| == |syms| && forall i | lo <= i < hi :: !IsDieOf(ops[i], syms[i], h)
    ensures DiesOf(ops[..hi], syms[..hi], h) == DiesOf(ops[..lo], syms[..lo], h)
    decreases hi
  {
    if lo < hi {
      DiesUpTo(ops, syms, h, lo, hi - 1);
      assert ops[..hi][..hi - 1] == ops[..hi - 1] && syms[..hi][..hi - 1] == syms[..hi - 1];
    }
  }

  lemma {:induction false} DiesNext(ops: seq<Op>, syms: seq<Option<Handle>>, h: Handle, i: nat)
    requires i < |ops| == |syms| && IsDieOf(ops[i], syms[i], h)
    ensures DiesOf(ops[..i + 1], syms[..i + 1], h) == DiesOf(ops[..i], syms[..i], h) + [ops[i]]
  {
    assert ops[..i + 1][..i] == ops[..i] && syms[..i + 1][..i] == syms[..i];
  }

  lemma {:induction false} DiesOnlyGrow(ops: seq<Op>, syms: seq<Option<Handle>>, h: Handle, lo: nat, hi: nat)
    requires lo <= hi <= |ops| == |syms|
    ensures |DiesOf(ops[..lo], syms[..lo], h)| <= |DiesOf(ops[..hi], syms[..hi], h)|
    decreases hi
  {
    if lo < hi {
      DiesOnlyGrow(ops, syms, h, lo, hi - 1);
      assert ops[..hi][..hi - 1] == ops[..hi - 1] && syms[..hi][..hi - 1] == syms[..hi - 1];
    }
  }

  // Up to the second DIE of the function there is one.
  lemma {:induction false} OneDieIff(ops: seq<Op>, k: nat, i: nat)
    requires IsFirstDie(ops, k) && i <= |ops|
    ensures |DiesOf(ops[..i], CreatorsOf(ops)[..i], k)| == 1 <==> k < i && forall q | k < q < i :: !IsFurther(ops, k, q)
  {
    var c := CreatorsOf(ops);
    forall q: nat | q < |ops|
      ensures IsDieOf(ops[q], c[q], k) <==> q == k || IsFurther(ops, k, q) { DieIff(ops, k, q); }
    if i <= k {
      DiesUpTo(ops, c, k, 0, i);
    } else {
      OneDieAt(ops, c, k);
      if q: nat :| k < q < i && IsFurther(ops, k, q) {
        SecondDie(ops, c, k, q, i);
      } else {
        DiesUpTo(ops, c, k, k + 1, i);
      }
    }
  }

  lemma {:induction false} OneDieAt(ops: seq<Op>, syms: seq<Option<nat>>, k: nat)
    requires k < |ops| == |syms| && IsDieOf(ops[k], syms[k], k) && forall q | 0 <= q < k :: !IsDieOf(ops[q], syms[q], k)
    ensures |DiesOf(ops[..k + 1], syms[..k + 1], k)| == 1
  {
    DiesUpTo(ops, syms, k, 0, k);
    DiesNext(ops, syms, k, k);
  }

  lemma {:induction false} SecondDie(ops: seq<Op>, syms: seq<Option<nat>>, k: nat, q: nat, i: nat)
    requires k < q < i <= |ops| == |syms| && IsDieOf(ops[q], syms[q], k)
    requires |DiesOf(ops[..k + 1], syms[..k + 1], k)| == 1
    ensures |DiesOf(ops[..i], syms[..i], k)| > 1
  {
    DiesOnlyGrow(ops, syms, k, k + 1, q);
    DiesNext(ops, syms, k, q);
    DiesOnlyGrow(ops, syms, k, q + 1, i);
  }

  // ---- which operations add a parameter ----

  predicate Adds(ops: seq<Op>, syms: seq<Option<nat>>, k: nat, i: nat)
    requires i < |ops| == |syms|
    ensures Adds(ops, syms, k, i) ==> ops[i].Visit? && ops[i].die.typeRef.Some?
  {
    IsTypedFormalOf(ops[i], syms[..i], k) && |DiesOf(ops[..i], syms[..i], k)| == 1
  }

  // Operation `i` visits a typed formal parameter that is a child of the DIE of operation `k`.
  predicate IsDirect(ops: seq<Op>, k: nat, i: nat)
    requires i < |ops|
  {
    ops[i].Visit? && ops[i].die.tag == FormalTag && ops[i].die.typeRef.Some? && ops[i].parent == Some(k) && k < i
  }

  // One that is visited before any further DIE of the function.
  ghost predicate IsEarly(ops: seq<Op>, k: nat, i: nat)
    requires k < |ops| && ops[k].Visit? && i < |ops|
  {
    IsDirect(ops, k, i) && forall q | k < q < i :: !IsFurther(ops, k, q)
  }

  // Those, up to operation `n`.
  ghost function EarlyFormals(ops: seq<Op>, k: nat, n: nat): seq<(string, Key)>
    requires k < |ops| && ops[k].Visit? && n <= |ops|
  {
    if n == 0 then []
    else EarlyFormals(ops, k, n - 1) + (if IsEarly(ops, k, n - 1) then [ParamOf(ops[n - 1])] else [])
  }

  // The typed formal parameters among the children of operation `k`, from operation `lo` up to `hi`.
  function Direct(ops: seq<Op>, k: nat, lo: nat, hi: nat): seq<(string, Key)>
    requires lo <= hi <= |ops|
  {
    if lo == hi then []
    else Direct(ops, k, lo, hi - 1) + (if IsDirect(ops, k, hi - 1) then [ParamOf(ops[hi - 1])] else [])
  }

  lemma EarlyAdds(ops: seq<Op>, k: nat, i: nat)
    requires IsFirstDie(ops, k) && i < |ops| && IsEarly(ops, k, i)
    ensures Adds(ops, CreatorsOf(ops), k, i)
  {
    FirstDieCreates(ops, k);
    assert CreatorsOf(ops)[..i][k] == Some(k);
    OneDieIff(ops, k, i);
  }

  // What adds a parameter is an early child of the first DIE or a stray.
  lemma AddsIff(ops: seq<Op>, k: nat, i: nat)
    requires IsFirstDie(ops, k) && i < |ops|
    ensures Adds(ops, CreatorsOf(ops), k, i) <==> IsEarly(ops, k, i) || IsStray(ops, k, i)
    ensures !(IsEarly(ops, k, i) && IsStray(ops, k, i))
  {
    OneDieIff(ops, k, i);
    if IsEarly(ops, k, i) { EarlyAdds(ops, k, i); }
    if Adds(ops, CreatorsOf(ops), k, i) && !IsDirect(ops, k, i) { OtherAddsAreStray(ops, k, i); }
    if Adds(ops, CreatorsOf(ops), k, i) && IsDirect(ops, k, i) { assert IsEarly(ops, k, i); }
    if IsStray(ops, k, i) { assert CreatorsOf(ops)[..i][ops[i].parent.value] == Some(k); }
  }

  lemma OtherAddsAreStray(ops: seq<Op>, k: nat, i: nat)
    requires IsFirstDie(ops, k) && i < |ops| && Adds(ops, CreatorsOf(ops), k, i) && !IsDirect(ops, k, i)
    ensures IsStray(ops, k, i)
  {
    OneDieIff(ops, k, i);
    var b := ops[i].parent.value;
    assert CreatorsOf(ops)[..i][b] == CreatorAt(ops, b) == Some(k);
    assert Casts(Func, Wanted(ops[b].die).value);
    if ops[b].die.tag == SubprogramTag { DieIff(ops, k, b); }
  }

  // ---- the children of the first DIE ----

  // The typed formal parameters among the children of a DIE, in order.
  function TypedFormals(children: seq<Die>, place: Place): seq<(string, Key)> {
    if children == [] then []
    else
      (if children[0].tag == FormalTag && children[0].typeRef.Some?
       then [(children[0].name, RefKey(place, children[0].typeRef.value))] else [])
      + TypedFormals(children[1..], place)
  }

  lemma {:induction false} DirectSplits(ops: seq<Op>, k: nat, lo: nat, mid: nat, hi: nat)
    requires lo <= mid <= hi <= |ops|
    ensures Direct(ops, k, lo, hi) == Direct(ops, k, lo, mid) + Direct(ops, k, mid, hi)
    decreases hi
  {
    if mid < hi { DirectSplits(ops, k, lo, mid, hi - 1); }
  }

  lemma {:induction false} NothingDirect(ops: seq<Op>, k: nat, lo: nat, hi: nat)
    requires lo <= hi <= |ops| && forall i | lo <= i < hi :: !IsDirect(ops, k, i)
    ensures Direct(ops, k, lo, hi) == []
    decreases hi
  {
    if lo < hi { NothingDirect(ops, k, lo, hi - 1); }
  }

  // A child adds its parameter, those below it nothing.
  lemma {:induction false} ChildIsDirect(ops: seq<Op>, child: Die, place: Place, k: nat, level: nat, c: nat, hi: nat)
    requires k < c < hi && Below(ops, c, hi) && ops[c] == Visit(place, child, Some(k), level)
    ensures Direct(ops, k, c, hi) == TypedFormals([child], place)
  {
    NothingDirect(ops, k, c + 1, hi);
    DirectSplits(ops, k, c, c + 1, hi);
    assert Direct(ops, k, c, c) == [] && [child][1..] == [];
  }

  lemma {:induction false} ChildrenAreDirect(ops: seq<Op>, forest: seq<Die>, place: Place, k: nat, level: nat,
                                             start: nat)
    requires LaidOut(ops, forest, place, k, level, start) && k < start && start + Size(forest) <= |ops|
    ensures Direct(ops, k, start, start + Size(forest)) == TypedFormals(forest, place)
    decreases |forest|
  {
    if forest != [] {
      var next := start + 1 + Size(forest[0].children);
      ChildIsDirect(ops, forest[0], place, k, level, start, next);
      ChildrenAreDirect(ops, forest[1..], place, k, level, next);
      DirectSplits(ops, k, start, next, start + Size(forest));
      assert [forest[0]][0] == forest[0] && [forest[0]][1..] == [];
    }
  }

  // The visits of a DIE's children follow its own.
  lemma {:induction false} SubtreeIsLaidOut(ops: seq<Op>, k: nat)
    requires IsTree(ops, None, 0) && k < |ops| && ops[k].Visit?
    ensures LaidOut(ops, ops[k].die.children, ops[k].place, k, ops[k].level + 1, k + 1)
  {
    hide Preorder, LaidOut;
    assert IsSubtree(ops, 0, k);
    var op, n := ops[k], Size(ops[k].die.children);
    var below := Preorder(op.die.children, op.place, Some(k), op.level + 1, k + 1);
    PreorderTree([op.die], op.place, op.parent, op.level, k);
    assert ops[k..k + 1 + n] == [op] + below;
    SliceOfSlice(ops, k, k + 1 + n, 1, 1 + n);
    assert ([op] + below)[1..1 + n] == below;
    ForestIsLaidOut(ops, op.die.children, op.place, k, op.level + 1, k + 1);
  }

  // The children of the DIE are all its typed formal parameters.
  lemma {:induction false} DirectAreChildren(ops: seq<Op>, k: nat)
    requires IsTree(ops, None, 0) && k < |ops| && ops[k].Visit?
    ensures Direct(ops, k, 0, |ops|) == TypedFormals(ops[k].die.children, ops[k].place)
  {
    hide Size, TypedFormals;
    var end := k + 1 + Size(ops[k].die.children);
    assert IsSubtree(ops, 0, k);
    SubtreeIsLaidOut(ops, k);
    ChildrenAreDirect(ops, ops[k].die.children, ops[k].place, k, ops[k].level + 1, k + 1);
    NothingDirect(ops, k, 0, k + 1);
    forall i: nat | end <= i < |ops| ensures !IsDirect(ops, k, i) { assert IsNested(ops, None, 0, i); }
    NothingDirect(ops, k, end, |ops|);
    DirectSplits(ops, k, 0, k + 1, end);
    DirectSplits(ops, k, 0, end, |ops|);
  }

  // ---- strays ----

  ghost predicate HasStray(ops: seq<Op>, k: nat, n: nat)
    requires k < |ops| && ops[k].Visit?
  {
    exists i: nat :: i < n && IsStray(ops, k, i)
  }

  lemma StrayBefore(ops: seq<Op>, k: nat, n: nat)
    requires k < |ops| && ops[k].Visit?
    ensures HasStray(ops, k, n + 1) <==> HasStray(ops, k, n) || IsStray(ops, k, n)
  {
    if HasStray(ops, k, n) {
      var i: nat :| i < n && IsStray(ops, k, i);
      assert i < n + 1;
    }
  }

  lemma {:induction false} ParamsGrow(ops: seq<Op>, syms: seq<Option<nat>>, k: nat, n: nat)
    requires n < |ops| == |syms|
    ensures ParamsOf(ops[..n + 1], syms[..n + 1], k)
            == ParamsOf(ops[..n], syms[..n], k) + (if Adds(ops, syms, k, n) then [ParamOf(ops[n])] else [])
  {
    assert ops[..n + 1][..n] == ops[..n] && syms[..n + 1][..n] == syms[..n];
  }

  // The one list is longer, or the two are the same.
  predicate SameOrMore(a: seq<(string, Key)>, b: seq<(string, Key)>, more: bool) {
    if more then |a| > |b| else a == b
  }

  // Strays make the list of parameters longer.
  lemma {:induction false} StraysLengthen(ops: seq<Op>, k: nat, n: nat)
    requires IsFirstDie(ops, k) && n <= |ops|
    ensures SameOrMore(ParamsOf(ops[..n], CreatorsOf(ops)[..n], k), EarlyFormals(ops, k, n), HasStray(ops, k, n))
  {
    hide IsEarly, IsStray, HasStray;
    if n == 0 {
      NoStray(ops, k);
    } else {
      StraysLengthen(ops, k, n - 1);
      AddsIff(ops, k, n - 1);
      StrayBefore(ops, k, n - 1);
      ParamsGrow(ops, CreatorsOf(ops), k, n - 1);
    }
  }

  lemma NoStray(ops: seq<Op>, k: nat)
    requires k < |ops| && ops[k].Visit?
    ensures !HasStray(ops, k, 0)
  {}

  // A child of the DIE is a typed formal parameter that comes after a further DIE of the function.
  ghost predicate IsLate(ops: seq<Op>, k: nat, i: nat)
    requires k < |ops| && ops[k].Visit?
  {
    i < |ops| && IsDirect(ops, k, i) && !IsEarly(ops, k, i)
  }

  ghost predicate HasLate(ops: seq<Op>, k: nat, n: nat)
    requires k < |ops| && ops[k].Visit?
  {
    exists i: nat :: i < n && IsLate(ops, k, i)
  }

  lemma LateBefore(ops: seq<Op>, k: nat, n: nat)
    requires k < |ops| && ops[k].Visit?
    ensures HasLate(ops, k, n + 1) <==> HasLate(ops, k, n) || IsLate(ops, k, n)
  {
    if HasLate(ops, k, n) {
      var i: nat :| i < n && IsLate(ops, k, i);
      assert i < n + 1;
    }
  }

  // Late ones are missing from the early ones.
  lemma {:induction false} LateShorten(ops: seq<Op>, k: nat, n: nat)
    requires k < |ops| && ops[k].Visit? && n <= |ops|
    ensures SameOrMore(Direct(ops, k, 0, n), EarlyFormals(ops, k, n), HasLate(ops, k, n))
  {
    hide HasLate;
    if n == 0 {
      NoneLate(ops, k);
    } else {
      LateShorten(ops, k, n - 1);
      LateBefore(ops, k, n - 1);
    }
  }

  lemma NoneLate(ops: seq<Op>, k: nat)
    requires k < |ops| && ops[k].Visit?
    ensures !HasLate(ops, k, 0)
  {}

  // ---- the parameters of a parsed function ----

  /**
   In a parse the parameters of a function are the typed formal parameters among the children of its first
   subprogram DIE, in order, that come before any further DIE of the function, exactly if no base type DIE of
   the function's name has a typed formal parameter before that; and these are all of the first DIE's,
   exactly if no further DIE of the function is nested in it before one of them.
   */
  lemma {:induction false} ParamsAreThoseOfFirstDieIff(ops: seq<Op>, s: State, k: nat)
    requires RunsTo(ops, s) && IsTree(ops, None, 0) && IsFirstDie(ops, k)
    ensures |s.syms| == |ops| && s.syms[k].Some? && s.syms[k].value < |s.table.objects|
    ensures var f := s.table.objects[s.syms[k].value];
            && f.kind == Func && f.name == ops[k].die.name
            && (ParamsStored(s.table.ids, f.params, EarlyFormals(ops, k, |ops|)) <==> !HasStray(ops, k, |ops|))
    ensures EarlyFormals(ops, k, |ops|) == TypedFormals(ops[k].die.children, ops[k].place) <==> !HasLate(ops, k, |ops|)
  {
    hide Created, RunsTo, IsTree, HasStray, HasLate;
    SubprogramReturns(ops, s, k);
    FirstDieCreates(ops, k);
    CreatorIsRight(ops, s, k);
    FunctionFromDies(ops, s, k, s.syms[k].value);
    DirectAreChildren(ops, k);
    StraysLengthen(ops, k, |ops|);
    LateShorten(ops, k, |ops|);
    assert ops[..|ops|] == ops && CreatorsOf(ops)[..|ops|] == CreatorsOf(ops);
  }
}
