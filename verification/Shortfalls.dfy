/**
 Inputs on which the code falls short, one for each result that holds under a condition only.
 */
module Shortfalls {
  import opened Basics
  import opened Dwarf
  import opened Subtrees
  import opened SymbolTable
  import opened VisitKeeps
  import opened Runs
  import opened Creators
  import opened Links
  import opened TypeChains
  import opened References
  import opened FunctionParams
  import opened Invariant
  import opened CleanupSpec
  import opened Sweeping
  import opened Duplicates
  import opened Instances
  import opened Containers
  import opened Members
  import opened ElfSymbols

  const HERE: Place := Place(1, 0)

  // A DIE with a name, maybe a type and children, and no other attribute.
  function NamedDie(offset: u64, tag: Tag, name: string, typeRef: Option<u64>, children: seq<Die>): Die {
    Die(offset, tag, name, 0, typeRef, None, None, None, None, None, false, children)
  }

  // ---- merging by name can close a cycle ----

  // typedef b a; typedef a' b; typedef s a'; struct s -- where a' is a second typedef named a.
  const TYPEDEFS: seq<Op> := [
    Visit(HERE, NamedDie(10, TypedefTag, "a", Some(20), []), None, 1),
    Visit(HERE, NamedDie(20, TypedefTag, "b", Some(30), []), None, 1),
    Visit(HERE, NamedDie(30, TypedefTag, "a", Some(40), []), None, 1),
    Visit(HERE, NamedDie(40, StructTag, "s", None, []), None, 1)]

  // Operation `j` visits a typedef DIE whose DW_AT_type names the DIE of operation `i`.
  ghost predicate IsTypedefOf(ops: seq<Op>, j: nat, i: nat) {
    && j < |ops| && Registers(ops[j]) && Wanted(ops[j].die) == Some(Typedef) && ops[j].die.typeRef.Some?
    && VisitsKey(ops, i, RefKey(ops[j].place, ops[j].die.typeRef.value))
  }

  // The three typedefs refer to the DIE after their own.
  ghost predicate EachRefersToNext(ops: seq<Op>) {
    IsTypedefOf(ops, 0, 1) && IsTypedefOf(ops, 1, 2) && IsTypedefOf(ops, 2, 3)
  }

  // Two typedefs that create, the second naming a third one that is merged with the first.
  ghost predicate ClosesCycle(ops: seq<Op>) {
    && IsTypedefOf(ops, 0, 1) && IsTypedefOf(ops, 1, 2)
    && Creator(ops, 0) == Some(0) && Creator(ops, 1) == Some(1) && Creator(ops, 2) == Some(0)
  }

  lemma TypedefCreators()
    ensures Creator(TYPEDEFS, 0) == Some(0) && Creator(TYPEDEFS, 1) == Some(1) && Creator(TYPEDEFS, 2) == Some(0)
  {
    assert "a"[0] != "b"[0];
    var r := RefIndex(TYPEDEFS, 2, "a");
    assert IsRefNamed(TYPEDEFS[0], "a") && (r.Some? ==> r.value == 0);
  }

  lemma StructCreates()
    ensures Creator(TYPEDEFS, 3).Some?
  {}

  lemma TypedefsCloseCycle()
    ensures ClosesCycle(TYPEDEFS) && EachRefersToNext(TYPEDEFS)
  {
    hide Creator;
    TypedefCreators();
    StructCreates();
  }

  lemma TypedefsRun()
    ensures DistinctKeys(TYPEDEFS) && forall op <- TYPEDEFS :: CannotStop(op)
  {}

  // Two references that lead to each other never end.
  lemma NoEnd(links: Links, i: nat, j: nat)
    requires Next(links, i) == Some(j) && Next(links, j) == Some(i)
    ensures !Ends(links, i)
  {
    if Ends(links, i) {
      ChainLengthNext(links, i);
      ChainLengthNext(links, j);
    }
  }

  lemma CycleCloses(ops: seq<Op>, s: State) returns (a: Handle, b: Handle)
    requires RunsTo(ops, s) && ClosesCycle(ops)
    ensures Created(ops, s, 0, a) && Created(ops, s, 1, b) && a != b
    ensures Target(s.table, a) == Some(b) && Target(s.table, b) == Some(a)
  {
    a := CreatedBy(ops, s, 0);
    b := CreatedBy(ops, s, 1);
    CreatorIsRight(ops, s, 2);
    if a == b { CreatedOnce(ops, s, 0, 1, a); }
    ReferredIs(ops, s, 0, a, 1, b);
    ReferredIs(ops, s, 1, b, 2, a);
  }

  /**
   References between the DIEs form no cycle, every reference is to a visited DIE, and yet the two
   typedefs refer to each other after the run: the third DIE is merged with the first.
   */
  lemma MergingCanCloseCycle() returns (s: State, a: Handle, b: Handle)
    ensures RunsTo(TYPEDEFS, s) && EachRefersToNext(TYPEDEFS)
    ensures Created(TYPEDEFS, s, 0, a) && Created(TYPEDEFS, s, 1, b) && a != b
    ensures Target(s.table, a) == Some(b) && Target(s.table, b) == Some(a)
    ensures !ChainEnds(s.table, a) && !ChainEnds(s.table, b)
  {
    TypedefsCloseCycle();
    TypedefsRun();
    s := NeverStops(START, TYPEDEFS);
    a, b := CycleCloses(TYPEDEFS, s);
    NoEnd(TypeLinks(s.table), a, b);
    NoEnd(TypeLinks(s.table), b, a);
  }

  lemma CreatedBy(ops: seq<Op>, s: State, i: nat) returns (h: Handle)
    requires RunsTo(ops, s) && i < |ops| && Registers(ops[i]) && Creator(ops, i) == Some(i)
    ensures |s.syms| == |ops| && s.syms[i] == Some(h) && Created(ops, s, i, h)
    ensures s.table.objects[h].name == ops[i].die.name && Some(s.table.objects[h].kind) == Wanted(ops[i].die)
  {
    CreatorIsRight(ops, s, i);
    h := s.syms[i].value;
    CreatedIs(ops, s, i, h);
  }

  // The object of a typedef refers to the type that its target's visit returned.
  lemma ReferredIs(ops: seq<Op>, s: State, j: nat, h: Handle, i: nat, g: Handle)
    requires RunsTo(ops, s) && Created(ops, s, j, h) && s.table.objects[h].kind == Typedef && ops[j].die.typeRef.Some?
    requires VisitsKey(ops, i, RefKey(ops[j].place, ops[j].die.typeRef.value)) && |s.syms| == |ops|
             && s.syms[i] == Some(g)
    requires g < |s.table.objects| && IsBaseType(s.table.objects[g].kind)
    ensures Target(s.table, h) == Some(g)
  {
    TypeAgrees(ops, s, j, h);
    RunKeepsTable(ops, s);
  }

  // ---- a base type DIE of a function's name adds parameters to it ----

  // void f(void), then a base type named f with a typed formal parameter.
  const FORMAL: Die := NamedDie(30, FormalTag, "x", Some(20), [])
  const BASE_AND_FUNCTION: seq<Die> :=
    [NamedDie(10, SubprogramTag, "f", None, []), NamedDie(20, BaseTag, "f", None, [FORMAL])]
  const STRAY: seq<Op> := [
    Visit(HERE, BASE_AND_FUNCTION[0], None, 1), Visit(HERE, BASE_AND_FUNCTION[1], None, 1),
    Visit(HERE, FORMAL, Some(1), 2)]

  lemma StrayOpsAreTree()
    ensures IsTree(STRAY, None, 0)
  {
    PreorderIsTree(BASE_AND_FUNCTION, HERE, None, 1, 0);
    assert Preorder([FORMAL], HERE, Some(1), 2, 2) == [Visit(HERE, FORMAL, Some(1), 2)] by {
      assert [FORMAL][1..] == [] && FORMAL.children == [];
    }
    assert BASE_AND_FUNCTION[1..][1..] == [] && BASE_AND_FUNCTION[1..][0] == BASE_AND_FUNCTION[1];
    assert Preorder(BASE_AND_FUNCTION[1..], HERE, None, 1, 1)
           == [Visit(HERE, BASE_AND_FUNCTION[1], None, 1)] + Preorder([FORMAL], HERE, Some(1), 2, 2);
  }

  lemma TheStray()
    ensures IsFirstDie(STRAY, 0) && HasStray(STRAY, 0, |STRAY|) && STRAY[0].die.children == []
    ensures DistinctKeys(STRAY) && forall op <- STRAY :: CannotStop(op)
  {
    assert Offers(STRAY[0], "f", Base);
    var r := FirstOffer(STRAY, 1, "f", Base);
    assert r == Some(0);
    assert IsStray(STRAY, 0, 2);
  }

  lemma StraysAdd(ops: seq<Op>, s: State) returns (f: Handle)
    requires RunsTo(ops, s) && IsTree(ops, None, 0) && IsFirstDie(ops, 0) && HasStray(ops, 0, |ops|)
    requires ops[0].die.children == []
    ensures Created(ops, s, 0, f) && s.table.objects[f].kind == Func && s.table.objects[f].params != []
  {
    hide IsTree, HasStray, HasLate, EarlyFormals;
    FirstDieCreates(ops, 0);
    f := CreatedBy(ops, s, 0);
    ParamsAreThoseOfFirstDieIff(ops, s, 0);
    NoChildren(ops, 0);
  }

  lemma {:induction false} NoChildren(ops: seq<Op>, k: nat)
    requires IsTree(ops, None, 0) && k < |ops| && ops[k].Visit? && ops[k].die.children == []
    ensures EarlyFormals(ops, k, |ops|) == []
  {
    hide IsTree, HasLate, EarlyFormals;
    DirectAreChildren(ops, k);
    LateShorten(ops, k, |ops|);
  }

  // The function has a parameter although its only subprogram DIE has none.
  lemma StrayParameter() returns (s: State, f: Handle)
    ensures RunsTo(STRAY, s) && Created(STRAY, s, 0, f) && s.table.objects[f].kind == Func
    ensures STRAY[0].die.children == [] && s.table.objects[f].params != []
  {
    TheStray();
    StrayOpsAreTree();
    s := NeverStops(START, STRAY);
    f := StraysAdd(STRAY, s);
  }

  // ---- equal functions survive ----

  // void (void), void f(void), void (void): functions of one signature, the first and the last without a name.
  const FUNCTIONS: seq<Op> := [
    Visit(HERE, NamedDie(10, SubprogramTag, "", None, []), None, 1),
    Visit(HERE, NamedDie(20, SubprogramTag, "f", None, []), None, 1),
    Visit(HERE, NamedDie(30, SubprogramTag, "", None, []), None, 1)]

  // A function that takes and returns nothing.
  predicate IsPlain(x: Sym, id: nat, name: string) {
    x.kind == Func && x.id == id && x.name == name && x.rettype == 0 && x.params == []
  }

  // The table of a run that visited DIEs of plain functions only, of the names `names`.
  ghost predicate HoldsPlain(t: Table, names: seq<string>, keys: set<Key>) {
    IdsOk(t.ids) && |t.objects| == |t.names.funcList| == |names| == t.ids.current && t.ids.byKey.Keys == keys
    && (forall i: nat | i < |names| :: t.names.funcList[i] == i && IsPlain(t.objects[i], i + 1, names[i]))
    && "" !in t.names.baseTypes && forall n <- t.names.baseTypes :: n in names
  }

  predicate IsPlainVisit(op: Op, name: string, key: Key) {
    && op.Visit? && op.die.tag == SubprogramTag && op.die.typeRef == None && op.die.lowPc == None
    && op.die.name == name && DieKey(op.place, op.die) == key
  }

  lemma PlainEnters(t: Table, op: Op, name: string, key: Key)
    requires IdsOk(t.ids) && IsPlainVisit(op, name, key) && key !in t.ids.byKey
    ensures var t1 := NewFunction(t, op.place, op.die);
            && IdsOk(t1.ids) && t1.ids.current == t.ids.current + 1 && t1.ids.byKey.Keys == t.ids.byKey.Keys + {key}
            && t1.names == AddFunction(AddBaseType(t.names, name, |t.objects|), name, |t.objects|)
            && |t1.objects| == |t.objects| + 1 && t1.objects[..|t.objects|] == t.objects
            && IsPlain(t1.objects[|t.objects|], t.ids.current + 1, name)
  {
    NewFunctionEnters(t, op.place, op.die);
  }

  lemma PlainNext(t: Table, t1: Table, names: seq<string>, keys: set<Key>, name: string, key: Key)
    requires HoldsPlain(t, names, keys) && IdsOk(t1.ids) && (name == "" || name !in names)
    requires t1.ids.current == t.ids.current + 1 && t1.ids.byKey.Keys == t.ids.byKey.Keys + {key}
    requires t1.names == AddFunction(AddBaseType(t.names, name, |t.objects|), name, |t.objects|)
    requires |t1.objects| == |t.objects| + 1 && t1.objects[..|t.objects|] == t.objects
    requires IsPlain(t1.objects[|t.objects|], t.ids.current + 1, name)
    ensures HoldsPlain(t1, names + [name], keys + {key})
  {
    forall i: nat | i < |names| ensures IsPlain(t1.objects[i], i + 1, (names + [name])[i]) {
      assert t1.objects[i] == t1.objects[..|t.objects|][i];
    }
  }

  lemma PlainVisit(s: State, op: Op, name: string, key: Key)
    requires IsPlainVisit(op, name, key) && BaseTypesNamed(s.table.names, name) == []
    ensures Step(s, op) == Some(State(NewFunction(s.table, op.place, op.die), s.syms + [Some(|s.table.objects|)]))
  {}

  lemma PlainNames(t: Table, names: seq<string>, keys: set<Key>, name: string)
    requires HoldsPlain(t, names, keys) && (name == "" || name !in names)
    ensures BaseTypesNamed(t.names, name) == [] && IdsOk(t.ids) && t.ids.byKey.Keys == keys
  {}

  lemma PlainStep(s: State, op: Op, names: seq<string>, keys: set<Key>, name: string, key: Key) returns (s1: State)
    requires HoldsPlain(s.table, names, keys) && IsPlainVisit(op, name, key) && key !in keys
    requires name == "" || name !in names
    ensures Step(s, op) == Some(s1) && HoldsPlain(s1.table, names + [name], keys + {key})
  {
    PlainNames(s.table, names, keys, name);
    PlainVisit(s, op, name, key);
    s1 := Step(s, op).value;
    PlainEnters(s.table, op, name, key);
    PlainNext(s.table, s1.table, names, keys, name, key);
  }

  lemma PlainSecond(s1: State, b: Op, names: seq<string>, keys: set<Key>) returns (s: State)
    requires HoldsPlain(s1.table, names, keys) && names == [""] && keys == {(10, 1)} && IsPlainVisit(b, "f", (20, 1))
    ensures Step(s1, b) == Some(s) && HoldsPlain(s.table, names + ["f"], keys + {(20, 1)})
  {
    s := PlainStep(s1, b, names, keys, "f", (20, 1));
  }

  lemma PlainThird(s2: State, c: Op, names: seq<string>, keys: set<Key>) returns (s: State)
    requires HoldsPlain(s2.table, names, keys) && (30, 1) !in keys && IsPlainVisit(c, "", (30, 1))
    ensures Step(s2, c) == Some(s) && HoldsPlain(s.table, names + [""], keys + {(30, 1)})
  {
    s := PlainStep(s2, c, names, keys, "", (30, 1));
  }

  // Three names, the second one different.
  predicate IsSplit(names: seq<string>) {
    |names| == 3 && names[0] == names[2] != names[1]
  }

  lemma PlainTwo(a: Op, b: Op) returns (s1: State, s2: State, names: seq<string>, keys: set<Key>)
    requires IsPlainVisit(a, "", (10, 1)) && IsPlainVisit(b, "f", (20, 1))
    ensures Step(START, a) == Some(s1) && Step(s1, b) == Some(s2)
    ensures HoldsPlain(s2.table, names, keys) && (30, 1) !in keys && |names| == 2 && names[0] == "" && names[1] == "f"
  {
    assert HoldsPlain(START.table, [], {});
    s1 := PlainStep(START, a, [], {}, "", (10, 1));
    names, keys := [] + [""], {} + {(10, 1)};
    assert names == [""];
    s2 := PlainSecond(s1, b, names, keys);
    names, keys := names + ["f"], keys + {(20, 1)};
  }

  lemma PlainRun(a: Op, b: Op, c: Op) returns (s: State, names: seq<string>, keys: set<Key>)
    requires IsPlainVisit(a, "", (10, 1)) && IsPlainVisit(b, "f", (20, 1)) && IsPlainVisit(c, "", (30, 1))
    ensures Replay(START, [a, b, c]) == Some(s) && HoldsPlain(s.table, names, keys) && IsSplit(names)
  {
    var s1, s2, names2, keys2 := PlainTwo(a, b);
    s := PlainThird(s2, c, names2, keys2);
    names, keys := names2 + [""], keys2 + {(30, 1)};
    ReplayThree(START, a, b, c, s1, s2, s);
  }

  lemma {:induction false} ReplayThree(s: State, a: Op, b: Op, c: Op, s1: State, s2: State, s3: State)
    requires Step(s, a) == Some(s1) && Step(s1, b) == Some(s2) && Step(s2, c) == Some(s3)
    ensures Replay(s, [a, b, c]) == Some(s3)
  {
    ReplayOne(s2, c);
    assert [a, b, c][1..] == [b, c] && [b, c][1..] == [c];
  }

  // What the pass makes of the three functions.
  lemma PlainObjects(t: Table, names: seq<string>, keys: set<Key>)
    requires HoldsPlain(t, names, keys) && Listed(t, t.names.funcList)
    ensures Within(t.names.funcList, |t.objects|)
    ensures var objects := CleanFunctions(t).table.objects;
            |objects| == |t.names.funcList| == |names|
            && forall h: nat | h < |names| :: t.names.funcList[h] == h && IsPlain(objects[h], h + 1, names[h])
  {
    FunctionCleanup.PassObjects(t);
    var objects := CleanFunctions(t).table.objects;
    forall h: nat | h < |names| ensures t.names.funcList[h] == h && IsPlain(objects[h], h + 1, names[h]) {
      assert t.names.funcList[h] in t.names.funcList;
    }
  }

  lemma PlainSplit(objects: seq<Sym>, list: seq<Handle>, names: seq<string>)
    requires |objects| == |list| == |names| && IsSplit(names) && Within(list, |objects|)
    requires forall h: nat | h < 3 :: list[h] == h && IsPlain(objects[h], h + 1, names[h])
    ensures FunctionEqual(objects[0], objects[2])
    ensures !FunctionEqual(objects[0], objects[1]) && !FunctionEqual(objects[1], objects[2])
    ensures !FunctionCleanup.Contiguous(objects, list)
  {
    assert FunctionCleanup.Between(objects[list[0]], objects[list[1]], objects[list[2]]);
  }

  // Two of three functions are equal and stay.
  ghost predicate EqualStay(t: Table)
    requires Within(t.names.funcList, |t.objects|)
  {
    var c := CleanFunctions(t);
    |c.table.objects| == 3 && FunctionEqual(c.table.objects[0], c.table.objects[2]) && 0 !in c.deleted
      && 2 !in c.deleted
  }

  lemma PlainStay(t: Table, names: seq<string>, keys: set<Key>)
    requires HoldsPlain(t, names, keys) && IsSplit(names) && Inv(t)
    ensures Within(t.names.funcList, |t.objects|) && EqualStay(t)
  {
    InvLists(t);
    PlainObjects(t, names, keys);
    var objects := CleanFunctions(t).table.objects;
    PlainSplit(objects, t.names.funcList, names);
    PlainPair(t, objects, CleanFunctions(t).deleted);
  }

  // Of the three only the first and the last are equal, so that it is these that both stay.
  lemma PlainPair(t: Table, objects: seq<Sym>, deleted: seq<Handle>)
    requires Listed(t, t.names.funcList) && Within(t.names.funcList, |t.objects|) && |t.names.funcList| == 3
    requires objects == CleanFunctions(t).table.objects && deleted == CleanFunctions(t).deleted && |objects| == 3
    requires !FunctionEqual(objects[0], objects[1]) && !FunctionEqual(objects[1], objects[2])
    requires !FunctionCleanup.Contiguous(objects, t.names.funcList)
    ensures 0 !in deleted && 2 !in deleted
  {
    FunctionCleanup.AllSurvivorsDifferIff(t);
    var g, h := EqualPair(objects, t.names.funcList, deleted);
    OnlyPair(objects, g, h);
  }

  lemma EqualPair(objects: seq<Sym>, list: seq<Handle>, deleted: seq<Handle>) returns (g: Handle, h: Handle)
    requires Within(list, |objects|) && !FunctionCleanup.AllDiffer(objects, list, deleted)
    ensures g < |objects| && h < |objects| && g != h && g !in deleted && h !in deleted
            && FunctionEqual(objects[g], objects[h])
  {
    var i, j :| 0 <= i < |list| && 0 <= j < |list| && list[i] != list[j] && list[i] !in deleted && list[j] !in deleted
                && FunctionEqual(objects[list[i]], objects[list[j]]);
    g, h := list[i], list[j];
  }

  lemma OnlyPair(objects: seq<Sym>, g: nat, h: nat)
    requires |objects| == 3 && g < 3 && h < 3 && g != h && FunctionEqual(objects[g], objects[h])
    requires !FunctionEqual(objects[0], objects[1]) && !FunctionEqual(objects[1], objects[2])
    ensures (g == 0 && h == 2) || (g == 2 && h == 0)
  {
    FunctionCleanup.FunctionEqualIsEquivalence(objects[h], objects[g], objects[h]);
  }

  // The two functions without a name are equal, and neither is deleted: the other one stands between them.
  lemma EqualFunctionsSurvive() returns (s: State)
    ensures RunsTo(FUNCTIONS, s) && Within(s.table.names.funcList, |s.table.objects|) && EqualStay(s.table)
  {
    var names, keys;
    s, names, keys := PlainRun(FUNCTIONS[0], FUNCTIONS[1], FUNCTIONS[2]);
    assert FUNCTIONS == [FUNCTIONS[0], FUNCTIONS[1], FUNCTIONS[2]];
    RunKeepsTable(FUNCTIONS, s);
    PlainStay(s.table, names, keys);
  }

  // ---- changeBaseType misses a structure whose name a typedef took before ----

  // typedef struct s s, visited before struct s { struct list_head list; } and struct list_head.
  const LINK: Die := NamedDie(21, MemberTag, "list", Some(30), [])
  const HIDDEN: seq<Op> := [
    Visit(HERE, NamedDie(10, TypedefTag, "s", Some(20), []), None, 1),
    Visit(HERE, NamedDie(20, StructTag, "s", None, [LINK]), None, 1),
    Visit(HERE, LINK, Some(1), 2),
    Visit(HERE, NamedDie(30, StructTag, "list_head", None, []), None, 1)]

  // Operation `i` creates a structure of the name.
  predicate CreatesStruct(ops: seq<Op>, i: nat, name: string) {
    i < |ops| && Registers(ops[i]) && Wanted(ops[i].die) == Some(Struct) && ops[i].die.name == name
      && Creator(ops, i) == Some(i)
  }

  ghost predicate HidesStruct(ops: seq<Op>) {
    && CreatesStruct(ops, 1, "s") && CreatesStruct(ops, 3, "list_head")
    && FirstOffer(ops, |ops|, "s", Base) == Some(0) && Wanted(ops[0].die) == Some(Typedef)
    && ops[2].Visit? && ops[2].die.tag == MemberTag && ops[2].die.name == "list" && ops[2].parent == Some(1)
    && ops[2].die.typeRef.Some? && VisitsKey(ops, 3, RefKey(ops[2].place, ops[2].die.typeRef.value))
    && forall op <- ops[..2] :: op.Visit? && op.die.tag != MemberTag
  }

  lemma HiddenCreators()
    ensures Creator(HIDDEN, 1) == Some(1) && Creator(HIDDEN, 3) == Some(3)
  {
    var _ := FirstOffer(HIDDEN, 1, "s", Struct);
    assert "s"[0] != "l"[0];
    var _ := FirstOffer(HIDDEN, 3, "list_head", Struct);
  }

  lemma HiddenOffer()
    ensures FirstOffer(HIDDEN, |HIDDEN|, "s", Base) == Some(0)
  {
    assert Offers(HIDDEN[0], "s", Base);
  }

  lemma HiddenRun()
    ensures DistinctKeys(HIDDEN) && forall op <- HIDDEN :: CannotStop(op)
  {}

  lemma HiddenHides()
    ensures HidesStruct(HIDDEN)
  {
    HiddenCreators();
    HiddenOffer();
  }

  // The member of the structure, and its type.
  lemma TheLink(ops: seq<Op>, s: State, h: Handle, g: Handle) returns (m: Handle)
    requires RunsTo(ops, s) && HidesStruct(ops) && |s.syms| == |ops| && s.syms[1] == Some(h) && s.syms[3] == Some(g)
    requires h < |s.table.objects| && s.table.objects[h].kind == Struct
    requires g < |s.table.objects| && s.table.objects[g].kind == Struct
    ensures Instances.MemberNamed(s.table, h, "list") == Some(m) && MemberType(s.table, m) == Some(g)
  {
    NoEntryYet(ops[..2], s.syms[..2], h, "list");
    m := FirstMemberCreated(ops, s, 2, h);
    TypeAgrees(ops, s, 2, m);
  }

  // An instance of a structure whose member is not at address zero.
  lemma LinkFound(t: Table, h: Handle, m: Handle, g: Handle, memory: Memory) returns (x: Instance)
    requires h < |t.objects| && t.objects[h].kind == Struct && ChainEnds(t, h)
    requires Instances.MemberNamed(t, h, "list") == Some(m) && MemberType(t, m) == Some(g)
    ensures x.typ == h && Instances.MemberByName(t, x, "list", false, false, memory).Some?
    ensures Instances.MemberByName(t, x, "list", false, false, memory).value.typ == g
  {
    var d := t.objects[m].location % U64;
    x := Instance(h, if d == U64 - 1 then 2 else 1);
    assert (x.address + t.objects[m].location) % U64 != 0;
  }

  // The first type of the name is no structure: changeBaseType fails an assertion.
  lemma NoWayBack(t: Table, y: Instance, g: Handle)
    requires y.typ < |t.objects| && t.objects[y.typ].name == "list_head"
    requires FirstNamed(t, "s") == Some(g) && t.objects[g].kind == Typedef
    ensures ChangeBaseType(t, y, "s", "list") == None
  {}

  /**
   An instance of the structure has the member, but the way back from it fails: the type found under the
   structure's name is the typedef.
   */
  lemma TypedefHidesStruct(memory: Memory) returns (s: State, x: Instance)
    ensures RunsTo(HIDDEN, s) && x.typ < |s.table.objects| && s.table.objects[x.typ].kind == Struct
    ensures s.table.objects[x.typ].name == "s" && ChainEnds(s.table, x.typ)
    ensures Instances.MemberByName(s.table, x, "list", false, false, memory).Some?
    ensures var y := Instances.MemberByName(s.table, x, "list", false, false, memory).value;
            && y.typ < |s.table.objects| && s.table.objects[y.typ].name == "list_head"
            && ChangeBaseType(s.table, y, "s", "list") == None
  {
    HiddenHides();
    HiddenRun();
    s := NeverStops(START, HIDDEN);
    x := NoWayBackIn(HIDDEN, s, memory);
  }

  lemma NoWayBackIn(ops: seq<Op>, s: State, memory: Memory) returns (x: Instance)
    requires RunsTo(ops, s) && HidesStruct(ops)
    ensures x.typ < |s.table.objects| && s.table.objects[x.typ].kind == Struct
    ensures s.table.objects[x.typ].name == "s" && ChainEnds(s.table, x.typ)
    ensures Instances.MemberByName(s.table, x, "list", false, false, memory).Some?
    ensures var y := Instances.MemberByName(s.table, x, "list", false, false, memory).value;
            && y.typ < |s.table.objects| && s.table.objects[y.typ].name == "list_head"
            && ChangeBaseType(s.table, y, "s", "list") == None
  {
    var h := CreatedBy(ops, s, 1);
    var g := CreatedBy(ops, s, 3);
    var m := TheLink(ops, s, h, g);
    assert EndsWithin(TypeLinks(s.table), h, 0);
    x := LinkFound(s.table, h, m, g, memory);
    FirstNamedFromDies(ops, s, "s");
    CreatedIs(ops, s, 0, FirstNamed(s.table, "s").value);
    NoWayBack(s.table, Instances.MemberByName(s.table, x, "list", false, false, memory).value,
      FirstNamed(s.table, "s").value);
  }

  // ---- a reference type of another class takes the name ----

  // A typedef and a pointer of the same name.
  const MISMATCH: seq<Op> := [
    Visit(HERE, NamedDie(10, TypedefTag, "a", None, []), None, 1),
    Visit(HERE, NamedDie(20, PointerTag, "a", None, []), None, 1)]

  lemma MismatchHasNoCreator()
    ensures Registers(MISMATCH[1]) && Creator(MISMATCH, 1) == None
    ensures DistinctKeys(MISMATCH) && forall op <- MISMATCH :: CannotStop(op)
  {
    var r := RefIndex(MISMATCH, 1, "a");
    assert IsRefNamed(MISMATCH[0], "a") && (r.Some? ==> r.value == 0);
  }

  // The pointer gets no symbol.
  lemma MismatchGetsNoSymbol() returns (s: State)
    ensures RunsTo(MISMATCH, s) && |s.syms| == 2 && s.syms[0].Some? && s.syms[1] == None
  {
    hide Creator;
    MismatchHasNoCreator();
    s := NeverStops(START, MISMATCH);
    CreatorIsRight(MISMATCH, s, 1);
    FirstHasSymbol(MISMATCH, s);
  }

  lemma FirstHasSymbol(ops: seq<Op>, s: State)
    requires RunsTo(ops, s) && ops != [] && Registers(ops[0])
    ensures |s.syms| == |ops| && s.syms[0].Some?
  {
    var _ := CreatedBy(ops, s, 0);
  }

  // ---- a lookup enters a null member ----

  const ONE_STRUCT: Op := Visit(HERE, NamedDie(10, StructTag, "s", None, []), None, 1)

  lemma StructRun() returns (s: State, h: Handle)
    ensures RunsTo([ONE_STRUCT], s) && |s.syms| == 1 && h < |s.table.objects| && s.table.objects[h].kind == Struct
  {
    s := NeverStops(START, [ONE_STRUCT]);
    h := CreatedBy([ONE_STRUCT], s, 0);
  }

  // After the lookup of a member that the structure does not have it holds a null one, which the loops over
  // its members dereference.
  lemma LookupEntersNull() returns (ops: seq<Op>, s: State, h: Handle)
    ensures ops == [ONE_STRUCT, Op.MemberNamed(h, "x")] && RunsTo(ops, s) && !LooksUpOnlyKnown(ops)
    ensures h < |s.table.objects| && !MembersPresent(s.table, h)
    ensures "x" in s.table.objects[h].members && s.table.objects[h].members["x"] == None
  {
    var s1: State;
    s1, h := StructRun();
    ops := [ONE_STRUCT, Op.MemberNamed(h, "x")];
    assert ops == [ONE_STRUCT] + [ops[1]];
    ReplaySnoc(START, [ONE_STRUCT], ops[1]);
    s := Step(s1, ops[1]).value;
    NullEntered(s1, h, s, ops);
    MembersPresentIff(ops, s);
  }

  lemma NullEntered(s1: State, h: Handle, s: State, ops: seq<Op>)
    requires RunsTo([ONE_STRUCT], s1) && h < |s1.table.objects| && s1.table.objects[h].kind == Struct
    requires Step(s1, Op.MemberNamed(h, "x")) == Some(s) && |s1.syms| == 1
    ensures h < |s.table.objects| && "x" in s.table.objects[h].members && s.table.objects[h].members["x"] == None
  {
    EntriesOf([ONE_STRUCT], s1, h);
    NoEntryYet([ONE_STRUCT], s1.syms, h, "x");
    EntryIs([ONE_STRUCT], s1, h, "x");
  }

  // ---- the last symbol contains nothing ----

  // With one symbol, an address in it is in no symbol.
  method OneSymbolContainsNothing(name: string, address: u64, inside: u64) returns (start: u64)
    requires 0 < address <= inside
    ensures start == 0
  {
    var tables := new AddressTables();
    var duplicate := tables.AddSymbolAddress(name, address, false);
    tables.UpdateRevMaps();
    assert tables.elfSymbolMap.Values == {address} by { assert tables.elfSymbolMap.Keys == {Suffixed(name, 0)}; }
    start := tables.GetContainingSymbol(inside);
  }
}
