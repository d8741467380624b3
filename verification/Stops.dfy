/**
 When a run stops: told from the operations and the symbols returned so far, then from the DIEs alone.
 */
module Stops {
  import opened Basics
  import opened Dwarf
  import opened SymbolTable
  import opened Invariant
  import opened VisitKeeps
  import opened Runs
  import opened Parts
  import opened Caches
  import opened Creators
  import opened Members
  import opened DieChains

  // ---- one operation ----

  // The symbol is an object of the class.
  predicate IsObjectOf(t: Table, sym: Option<Handle>, kind: Kind) {
    sym.Some? && sym.value < |t.objects| && t.objects[sym.value].kind == kind
  }

  // An enumerator or subrange without a parent symbol, or an enumerator of an enumeration without a value.
  predicate VisitFails(t: Table, die: Die, parent: Option<Handle>) {
    || (die.tag in {EnumeratorTag, SubrangeTag} && parent == None)
    || (die.tag == EnumeratorTag && die.constValue == None && IsObjectOf(t, parent, Enum))
  }

  // The id denotes a type: a symbol that is neither a variable nor a member.
  predicate DenotesType(t: Table, id: nat) {
    id != 0 && Find(t, id).Some? && Find(t, id).value < |t.objects|
    && t.objects[Find(t, id).value].kind !in {Var, Member}
  }

  // The assertion of a lookup fails: getBaseType of what is no reference type, or has no type and no cached one.
  predicate LookupFails(t: Table, op: Op) {
    match op
    case Resolve(h) =>
      || h >= |t.objects| || t.objects[h].kind !in {Typedef, Pointer, Const, Array}
      || (t.objects[h].base == None && !DenotesType(t, t.objects[h].typ))
    case MemberNamed(h, _) => h >= |t.objects|
    case _ => false
  }

  predicate Fails(s: State, op: Op) {
    if op.Visit? then VisitFails(s.table, op.die, ParentSym(s.syms, op.parent)) else LookupFails(s.table, op)
  }

  lemma VisitFailsIff(t: Table, place: Place, die: Die, parent: Option<Handle>)
    ensures VisitDie(t, place, die, parent) == None <==> VisitFails(t, die, parent)
  {}

  lemma StepFailsIff(s: State, op: Op)
    ensures Step(s, op) == None <==> Fails(s, op)
  {
    if op.Visit? { VisitFailsIff(s.table, op.place, op.die, ParentSym(s.syms, op.parent)); }
  }

  // ---- runs ----

  // The run comes to operation `n`, which fails.
  ghost predicate StopsAt(ops: seq<Op>, n: nat) {
    n < |ops| && Replay(START, ops[..n]).Some? && Fails(Replay(START, ops[..n]).value, ops[n])
  }

  lemma PrefixNext(ops: seq<Op>, n: nat)
    requires n < |ops|
    ensures Replay(START, ops[..n + 1]) ==
            match Replay(START, ops[..n]) case None => None case Some(s) => Step(s, ops[n])
  {
    assert ops[..n + 1] == ops[..n] + [ops[n]];
    ReplaySnoc(START, ops[..n], ops[n]);
  }

  lemma {:induction false} StoppedBefore(ops: seq<Op>, n: nat)
    requires n <= |ops|
    ensures Replay(START, ops[..n]) == None <==> exists k: nat :: k < n && StopsAt(ops, k)
  {
    hide Replay, Step, Fails;
    if n == 0 {
      NothingStops(ops);
    } else {
      StoppedBefore(ops, n - 1);
      StopsNext(ops, n - 1);
    }
  }

  lemma NothingStops(ops: seq<Op>)
    ensures Replay(START, ops[..0]).Some?
  {}

  lemma StopsNext(ops: seq<Op>, n: nat)
    requires n < |ops|
    ensures Replay(START, ops[..n + 1]) == None <==> Replay(START, ops[..n]) == None || StopsAt(ops, n)
  {
    hide Replay, Step, Fails;
    PrefixNext(ops, n);
    if Replay(START, ops[..n]).Some? { StepFailsIff(Replay(START, ops[..n]).value, ops[n]); }
  }

  // A run stops exactly at the first operation that fails, and if it stops there is just one such.
  lemma {:induction false} StopsIff(ops: seq<Op>)
    ensures Replay(START, ops) == None <==> exists n: nat :: StopsAt(ops, n)
    ensures forall m: nat, n: nat | StopsAt(ops, m) && StopsAt(ops, n) :: m == n
  {
    assert ops[..|ops|] == ops;
    StoppedBefore(ops, |ops|);
    forall m: nat, n: nat | StopsAt(ops, m) && StopsAt(ops, n) ensures m == n {
      StoppedBefore(ops, m);
      StoppedBefore(ops, n);
    }
  }

  // With right caches getBaseType fails exactly on what is no reference type or refers to no type.
  lemma ResolveFailsIff(t: Table, h: Handle)
    requires Coherent(t) && h < |t.objects|
    ensures LookupFails(t, Resolve(h)) <==>
            t.objects[h].kind !in {Typedef, Pointer, Const, Array} || !DenotesType(t, t.objects[h].typ)
  {
    assert CoherentAt(t, h);
  }

  // ---- runs of visits, told from the DIEs ----

  ghost predicate OnlyVisits(ops: seq<Op>) {
    forall i | 0 <= i < |ops| :: ops[i].Visit?
  }

  // The class of the symbol that the visit of operation `i` returns, if it returns one: that of the creating
  // DIE, and for a member a member if its parent is a struct or union.
  function ClassAt(ops: seq<Op>, i: nat): Option<Kind>
    requires i < |ops|
    decreases i, 1
  {
    if !ops[i].Visit? then None
    else if Registers(ops[i]) then
      match Creator(ops, i)
      case None => None
      case Some(j) => Wanted(ops[j].die)
    else if ops[i].die.tag == MemberTag && ParentClass(ops, i) in {Some(Struct), Some(Union)} then Some(Member)
    else None
  }

  // The class of the parent symbol of operation `i`.
  function ParentClass(ops: seq<Op>, i: nat): Option<Kind>
    requires i < |ops| && ops[i].Visit?
    decreases i, 0
  {
    if ops[i].parent.Some? && ops[i].parent.value < i then ClassAt(ops, ops[i].parent.value) else None
  }

  // What operation `i` returned is as the DIEs say.
  ghost predicate ClassRight(ops: seq<Op>, s: State, i: nat)
    requires i < |ops| == |s.syms|
  {
    match ClassAt(ops, i)
    case None => s.syms[i] == None
    case Some(kind) => IsObjectOf(s.table, s.syms[i], kind)
  }

  lemma RegisteredClass(ops: seq<Op>, s: State, i: nat)
    requires RunsTo(ops, s) && i < |ops| && Registers(ops[i])
    ensures |s.syms| == |ops| && ClassRight(ops, s, i)
  {
    CreatorIsRight(ops, s, i);
    if Creator(ops, i).Some? { TypeOfCreated(ops, s, Creator(ops, i).value, s.syms[i].value); }
  }

  // A DIE that registers nothing returns a symbol exactly if it is a member of a struct or union.
  lemma PartClass(t: Table, place: Place, die: Die, parent: Option<Handle>, kind: Option<Kind>)
    requires Inv(t) && NoNullMembers(t) && Wanted(die).None? && VisitDie(t, place, die, parent).Some?
    requires if kind.None? then parent == None else IsObjectOf(t, parent, kind.value)
    ensures var v := VisitDie(t, place, die, parent).value;
            if die.tag == MemberTag && kind in {Some(Struct), Some(Union)} then IsObjectOf(v.table, v.sym, Member)
            else v.sym == None
  {
    hide Inv, NoNullMembers;
    if die.tag == MemberTag {
      if kind in {Some(Struct), Some(Union)} { MemberReturned(t, place, die, parent.value); }
    }
  }

  lemma MemberReturned(t: Table, place: Place, die: Die, p: Handle)
    requires Inv(t) && NoNullMembers(t) && p < |t.objects|
    ensures IsObjectOf(AddMember(t, place, die, p).table, AddMember(t, place, die, p).sym, Member)
  {
    assert die.name in t.objects[p].members ==> t.objects[p].members[die.name].Some?;
  }

  lemma {:induction false} VisitsLookUpNothing(ops: seq<Op>, n: nat, mid: State)
    requires OnlyVisits(ops) && n <= |ops| && Replay(START, ops[..n]) == Some(mid)
    ensures NoNullMembers(mid.table)
  {
    assert LooksUpOnlyKnown(ops);
    NoNullsUpTo(ops, n, mid);
  }

  // The class of the parent, seen from the state before the visit.
  lemma {:induction false} ParentBefore(ops: seq<Op>, s: State, i: nat, mid: State)
    requires IsBefore(ops, s, i, mid) && i < |ops| && ops[i].Visit?
    requires ops[i].parent.Some? && ops[i].parent.value < i ==> ClassRight(ops, s, ops[i].parent.value)
    ensures var parent := ParentSym(mid.syms, ops[i].parent);
            match ParentClass(ops, i) case None => parent == None case Some(kind) => IsObjectOf(mid.table, parent, kind)
  {
    if ops[i].parent.Some? && ops[i].parent.value < i {
      var p := ops[i].parent.value;
      assert mid.syms[p] == s.syms[p];
      if s.syms[p].Some? { assert SameIdentity(mid.table.objects[s.syms[p].value], s.table.objects[s.syms[p].value]); }
    }
  }

  // What the visit returned, seen from the end of the run.
  lemma ClassAfter(ops: seq<Op>, s: State, i: nat, next: State, kind: Option<Kind>)
    requires i < |ops| && IsBefore(ops, s, i + 1, next)
    requires if kind.None? then next.syms[i] == None else IsObjectOf(next.table, next.syms[i], kind.value)
    ensures if kind.None? then s.syms[i] == None else IsObjectOf(s.table, s.syms[i], kind.value)
  {
    assert next.syms[i] == s.syms[i];
    if kind.Some? { assert SameIdentity(next.table.objects[s.syms[i].value], s.table.objects[s.syms[i].value]); }
  }

  lemma UnregisteredClass(ops: seq<Op>, s: State, i: nat)
    requires RunsTo(ops, s) && OnlyVisits(ops) && i < |ops| == |s.syms| && !Registers(ops[i])
    requires ops[i].parent.Some? && ops[i].parent.value < i ==> ClassRight(ops, s, ops[i].parent.value)
    ensures ClassRight(ops, s, i)
  {
    hide VisitDie, Inv, Extends, NoNullMembers, RunOk;
    var mid, next := StepAt(ops, s, i);
    RunKeepsTable(ops[..i], mid);
    VisitsLookUpNothing(ops, i, mid);
    ParentBefore(ops, s, i, mid);
    StepVisits(mid, ops[i], next);
    PartClass(mid.table, ops[i].place, ops[i].die, ParentSym(mid.syms, ops[i].parent), ParentClass(ops, i));
    ClassAfter(ops, s, i, next, ClassAt(ops, i));
  }

  // After a run of visits every visit returned a symbol of the class that the DIEs say, or none.
  lemma {:induction false} ClassIsRight(ops: seq<Op>, s: State, i: nat)
    requires RunsTo(ops, s) && OnlyVisits(ops) && i < |ops|
    ensures |s.syms| == |ops| && ClassRight(ops, s, i)
    decreases i
  {
    RunKeepsTable(ops, s);
    if Registers(ops[i]) {
      RegisteredClass(ops, s, i);
    } else {
      if ops[i].parent.Some? && ops[i].parent.value < i { ClassIsRight(ops, s, ops[i].parent.value); }
      UnregisteredClass(ops, s, i);
    }
  }

  // A visit of an enumerator or subrange below a DIE without a symbol, or of an enumerator without a value below
  // one that returned an enumeration.
  predicate DieFails(ops: seq<Op>, i: nat) {
    i < |ops| && ops[i].Visit?
    && (|| (ops[i].die.tag in {EnumeratorTag, SubrangeTag} && ParentClass(ops, i) == None)
        || (ops[i].die.tag == EnumeratorTag && ops[i].die.constValue == None && ParentClass(ops, i) == Some(Enum)))
  }

  lemma FailsAsDie(ops: seq<Op>, s: State, i: nat, mid: State)
    requires RunsTo(ops, s) && OnlyVisits(ops) && IsBefore(ops, s, i, mid) && i < |ops|
    ensures Fails(mid, ops[i]) <==> DieFails(ops, i)
  {
    if ops[i].parent.Some? && ops[i].parent.value < i { ClassIsRight(ops, s, ops[i].parent.value); }
    ParentBefore(ops, s, i, mid);
  }

  // The first operations of a run determine their own creators and classes.
  lemma {:induction false} SearchesOfPrefix(ops: seq<Op>, n: nat, i: nat, name: string, kind: Kind)
    requires i <= n <= |ops|
    ensures FirstOffer(ops[..n], i, name, kind) == FirstOffer(ops, i, name, kind)
    ensures FirstRef(ops[..n], i, name) == FirstRef(ops, i, name)
    ensures LastArray(ops[..n], i, name) == LastArray(ops, i, name)
  {
    hide Offers, IsRefNamed, IsArrayNamed;
    if i > 0 { SearchesOfPrefix(ops, n, i - 1, name, kind); }
  }

  lemma {:induction false} CreatorOfPrefix(ops: seq<Op>, n: nat, i: nat)
    requires i < n <= |ops| && Registers(ops[i])
    ensures Creator(ops[..n], i) == Creator(ops, i)
  {
    SearchesOfPrefix(ops, n, i, ops[i].die.name, Wanted(ops[i].die).value);
  }

  lemma {:induction false} ClassOfPrefix(ops: seq<Op>, n: nat, i: nat)
    requires i < n <= |ops|
    ensures ClassAt(ops[..n], i) == ClassAt(ops, i)
    decreases i
  {
    if Registers(ops[i]) { CreatorOfPrefix(ops, n, i); }
    if ops[i].Visit? && ops[i].parent.Some? && ops[i].parent.value < i { ClassOfPrefix(ops, n, ops[i].parent.value); }
  }

  lemma {:induction false} StopsAtDie(ops: seq<Op>, n: nat)
    requires DistinctKeys(ops) && OnlyVisits(ops) && StopsAt(ops, n)
    ensures DieFails(ops, n)
  {
    var mid := Replay(START, ops[..n]).value;
    var p := ops[n].parent;
    RunKeepsTable(ops[..n], mid);
    if p.Some? && p.value < n {
      ClassIsRight(ops[..n], mid, p.value);
      ClassOfPrefix(ops, n, p.value);
    }
  }

  lemma DieStops(ops: seq<Op>, s: State, i: nat)
    requires RunsTo(ops, s) && OnlyVisits(ops)
    ensures !DieFails(ops, i)
  {
    if i < |ops| {
      var mid, next := StepAt(ops, s, i);
      StepFailsIff(mid, ops[i]);
      FailsAsDie(ops, s, i, mid);
    }
  }

  /**
   A run of visits stops exactly if it visits an enumerator or subrange whose parent DIE has no symbol, or an
   enumerator without a value whose parent DIE has an enumeration.
   */
  lemma {:induction false} VisitsStopIff(ops: seq<Op>)
    requires DistinctKeys(ops) && OnlyVisits(ops)
    ensures Replay(START, ops) == None <==> exists i: nat :: DieFails(ops, i)
  {
    hide DieFails, StopsAt;
    StopsIff(ops);
    if Replay(START, ops) == None {
      var n: nat :| StopsAt(ops, n);
      StopsAtDie(ops, n);
    } else {
      forall i: nat ensures !DieFails(ops, i) { DieStops(ops, Replay(START, ops).value, i); }
    }
  }
}
