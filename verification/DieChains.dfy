/**
 When the chains of reference types end, told from the DIEs alone: exactly when the references between
 creating DIEs form no cycle, a reference leading to the DIE that created the symbol of its target.
 */
module DieChains {
  import opened Basics
  import opened Dwarf
  import opened SymbolTable
  import opened Invariant
  import opened VisitKeeps
  import opened Runs
  import opened Creators
  import opened Registered
  import opened Links
  import opened TypeChains

  // A visit of a DIE of a type.
  predicate IsTypeDie(op: Op) {
    Registers(op) && Wanted(op.die) != Some(Var)
  }

  // The operation before `n` that visits the type DIE of the key.
  function VisitOfKey(ops: seq<Op>, n: nat, key: Key): (r: Option<nat>)
    requires n <= |ops|
    ensures match r
            case Some(i) => i < n && IsTypeDie(ops[i]) && DieKey(ops[i].place, ops[i].die) == key
            case None => forall i | 0 <= i < n && IsTypeDie(ops[i]) :: DieKey(ops[i].place, ops[i].die) != key
  {
    if n == 0 then None
    else if IsTypeDie(ops[n - 1]) && DieKey(ops[n - 1].place, ops[n - 1].die) == key then Some(n - 1)
    else VisitOfKey(ops, n - 1, key)
  }

  // A DIE with a type attribute that created a reference type.
  predicate CreatesRef(ops: seq<Op>, j: nat) {
    && j < |ops| && Registers(ops[j]) && IsRefType(Wanted(ops[j].die).value)
    && ops[j].die.typeRef.Some? && Creator(ops, j) == Some(j)
  }

  // The DIE that created the symbol of the target of the DIE of operation `j`.
  function DieTarget(ops: seq<Op>, j: nat): (r: Option<nat>)
    ensures r.Some? ==> r.value < |ops|
  {
    if !CreatesRef(ops, j) then None
    else
      match VisitOfKey(ops, |ops|, RefKey(ops[j].place, ops[j].die.typeRef.value))
      case None => None
      case Some(i) => Creator(ops, i)
  }

  function DieLinks(ops: seq<Op>): (links: Links)
    ensures |links| == |ops| && forall j: nat | j < |ops| :: Next(links, j) == DieTarget(ops, j)
  {
    seq(|ops|, j requires 0 <= j < |ops| => DieTarget(ops, j))
  }

  // ---- the references of objects are those of their creating DIEs ----

  // The object `h` refers to the object of the DIE that its creating DIE refers to.
  ghost predicate RefersAlike(ops: seq<Op>, s: State, j: nat, h: Handle)
    requires h < |s.table.objects|
  {
    match DieTarget(ops, j)
    case None => Target(s.table, h) == None
    case Some(p) => Target(s.table, h).Some? && Created(ops, s, p, Target(s.table, h).value)
  }

  lemma TypeOfCreated(ops: seq<Op>, s: State, j: nat, h: Handle)
    requires RunsTo(ops, s) && Created(ops, s, j, h) && Registers(ops[j])
    ensures Wanted(ops[j].die) == Some(s.table.objects[h].kind)
    ensures IsRefType(s.table.objects[h].kind) ==>
              TypeStored(s.table.ids, ops[j].place, ops[j].die, s.table.objects[h].typ) && IdsOk(s.table.ids)
  {
    RunKeepsTable(ops, s);
  }

  // A target whose visit returned nothing is not found.
  lemma {:induction false} UnregisteredTarget(ops: seq<Op>, s: State, key: Key)
    requires RunsTo(ops, s) && key in s.table.ids.byKey
    requires match VisitOfKey(ops, |ops|, key) case None => true case Some(i) => Creator(ops, i) == None
    ensures match Find(s.table, s.table.ids.byKey[key])
            case None => true
            case Some(g) => g < |s.table.objects| && !IsBaseType(s.table.objects[g].kind)
  {
    hide Inv, Replay;
    var found := Find(s.table, s.table.ids.byKey[key]);
    if found.Some? {
      var i := FoundFrom(ops, s, key, found.value);
      if Registers(ops[i]) {
        CreatorIsRight(ops, s, i);
        RunKeepsTable(ops, s);
        assert ResolvedAt(s.table, ops[i], s.syms[i]);
        if IsTypeDie(ops[i]) { VisitedOnce(ops, i, VisitOfKey(ops, |ops|, key).value); }
      }
    }
  }

  lemma VisitedOnce(ops: seq<Op>, i: nat, j: nat)
    requires DistinctKeys(ops) && i < |ops| && j < |ops| && ops[i].Visit? && ops[j].Visit?
    requires DieKey(ops[i].place, ops[i].die) == DieKey(ops[j].place, ops[j].die)
    ensures i == j
  {}

  // A target whose visit returned a symbol is found.
  lemma RegisteredTarget(ops: seq<Op>, s: State, j: nat, h: Handle, i: nat, p: nat)
    requires RunsTo(ops, s) && Created(ops, s, j, h) && CreatesRef(ops, j) && IsRefType(s.table.objects[h].kind)
    requires i < |ops| && IsTypeDie(ops[i])
    requires DieKey(ops[i].place, ops[i].die) == RefKey(ops[j].place, ops[j].die.typeRef.value)
    requires Creator(ops, i) == Some(p) && s.table.objects[h].typ != 0
    ensures Target(s.table, h).Some? && Created(ops, s, p, Target(s.table, h).value)
  {
    CreatorIsRight(ops, s, i);
    ReferenceAgreement(ops, s, j, h, i);
    CastsToType(s.table.objects[s.syms[i].value].kind, ops[i].die);
  }

  lemma LinksAgree(ops: seq<Op>, s: State, j: nat, h: Handle)
    requires RunsTo(ops, s) && Created(ops, s, j, h) && Registers(ops[j])
    ensures RefersAlike(ops, s, j, h)
  {
    TypeOfCreated(ops, s, j, h);
    CreatorIsRight(ops, s, j);
    CreatorIsItself(ops, s, j, h);
    if CreatesRef(ops, j) {
      var key := RefKey(ops[j].place, ops[j].die.typeRef.value);
      match VisitOfKey(ops, |ops|, key)
      case None => UnregisteredTarget(ops, s, key);
      case Some(i) =>
        match Creator(ops, i) {
          case None => UnregisteredTarget(ops, s, key);
          case Some(p) => RegisteredTarget(ops, s, j, h, i, p);
        }
    }
  }

  // ---- chains ----

  lemma {:induction false} SameEnds(ops: seq<Op>, s: State, j: nat, h: Handle, n: nat)
    requires RunsTo(ops, s) && Created(ops, s, j, h) && Registers(ops[j])
    ensures EndsWithin(TypeLinks(s.table), h, n) <==> EndsWithin(DieLinks(ops), j, n)
    decreases n
  {
    LinksAgree(ops, s, j, h);
    if n > 0 && DieTarget(ops, j).Some? {
      SameEnds(ops, s, DieTarget(ops, j).value, Target(s.table, h).value, n - 1);
    }
  }

  // The chain of a type ends exactly when that of its creating DIE does.
  lemma ChainEndsAlike(ops: seq<Op>, s: State, j: nat, h: Handle)
    requires RunsTo(ops, s) && Created(ops, s, j, h) && Registers(ops[j])
    ensures ChainEnds(s.table, h) <==> Ends(DieLinks(ops), j)
  {
    if ChainEnds(s.table, h) {
      var n: nat :| EndsWithin(TypeLinks(s.table), h, n);
      SameEnds(ops, s, j, h, n);
    }
    if Ends(DieLinks(ops), j) {
      var n: nat :| EndsWithin(DieLinks(ops), j, n);
      SameEnds(ops, s, j, h, n);
    }
  }

  // The chain of a type leads through the types that the DIEs on the chain of its creating DIE created.
  lemma {:induction false} FollowAlike(ops: seq<Op>, s: State, j: nat, h: Handle, n: nat)
    requires RunsTo(ops, s) && Created(ops, s, j, h) && Registers(ops[j])
    ensures match Follow(DieLinks(ops), j, n)
            case None => Follow(TypeLinks(s.table), h, n) == None
            case Some(k) =>
              && Follow(TypeLinks(s.table), h, n).Some? && k < |ops| && Registers(ops[k])
              && Created(ops, s, k, Follow(TypeLinks(s.table), h, n).value)
    decreases n
  {
    hide RunsTo;
    if n > 0 {
      LinksAgree(ops, s, j, h);
      if DieTarget(ops, j).Some? {
        TargetRegisters(ops, j);
        FollowAlike(ops, s, DieTarget(ops, j).value, Target(s.table, h).value, n - 1);
      }
    }
  }

  lemma TargetRegisters(ops: seq<Op>, j: nat)
    requires DieTarget(ops, j).Some?
    ensures Registers(ops[DieTarget(ops, j).value])
  {}

  // The DIE on the chain of the DIE of operation `j` that refers to no type by its tag.
  predicate LeadsToType(ops: seq<Op>, j: nat, n: nat, k: nat) {
    k < |ops| && Follow(DieLinks(ops), j, n) == Some(k) && ops[k].Visit?
    && ops[k].die.tag !in {TypedefTag, PointerTag, ConstTag, ArrayTag}
  }

  ghost predicate IsRealTypeOfDie(ops: seq<Op>, s: State, j: nat, g: Handle) {
    exists n: nat, k: nat :: LeadsToType(ops, j, n, k) && Created(ops, s, k, g)
  }

  // After any run the real type of a type is the one that the DIE at the end of its DIE's chain created.
  lemma {:induction false} RealTypeFromDies(ops: seq<Op>, s: State, j: nat, h: Handle, g: Handle)
    requires RunsTo(ops, s) && Created(ops, s, j, h) && Registers(ops[j]) && ChainEnds(s.table, h)
    ensures RealType(s.table, h) == Some(g) <==> IsRealTypeOfDie(ops, s, j, g)
  {
    hide RunsTo, DieLinks, Created;
    RealTypeIff(s.table, h);
    if n: nat :| LeadsIn(s.table, h, n, g) && !IsReferring(s.table.objects[g].kind) {
      FollowAlike(ops, s, j, h, n);
      var k := Follow(DieLinks(ops), j, n).value;
      ReferringTag(ops, s, k, g);
      assert LeadsToType(ops, j, n, k) && Created(ops, s, k, g);
    }
    if n: nat, k: nat :| LeadsToType(ops, j, n, k) && Created(ops, s, k, g) {
      FollowAlike(ops, s, j, h, n);
      var g1 := Follow(TypeLinks(s.table), h, n).value;
      SameCreator(ops, s, k, g, g1);
      ReferringTag(ops, s, k, g);
      assert LeadsIn(s.table, h, n, g);
    }
  }

  lemma SameCreator(ops: seq<Op>, s: State, k: nat, g: Handle, h: Handle)
    requires Created(ops, s, k, g) && Created(ops, s, k, h)
    ensures g == h
  {}

  lemma ReferringTag(ops: seq<Op>, s: State, k: nat, g: Handle)
    requires RunsTo(ops, s) && k < |ops| && Registers(ops[k]) && Created(ops, s, k, g)
    ensures g < |s.table.objects|
    ensures IsReferring(s.table.objects[g].kind) <==> ops[k].die.tag in {TypedefTag, PointerTag, ConstTag, ArrayTag}
  {
    TypeOfCreated(ops, s, k, g);
  }

  lemma ChainEndsIfAcyclic(ops: seq<Op>, s: State, h: Handle)
    requires RunsTo(ops, s) && h < |s.table.objects| && (forall j: nat :: Ends(DieLinks(ops), j))
    ensures ChainEnds(s.table, h)
  {
    RunKeepsTable(ops, s);
    if IsRefType(s.table.objects[h].kind) {
      assert IsCreated(ops, s, h);
      var j: nat :| Created(ops, s, j, h);
      ChainEndsAlike(ops, s, j, h);
    } else {
      assert EndsWithin(TypeLinks(s.table), h, 0);
    }
  }

  lemma DieChainEnds(ops: seq<Op>, s: State, j: nat)
    requires RunsTo(ops, s) && (forall h: nat | h < |s.table.objects| :: ChainEnds(s.table, h))
    ensures Ends(DieLinks(ops), j)
  {
    if CreatesRef(ops, j) {
      CreatorIsRight(ops, s, j);
      ChainEndsAlike(ops, s, j, s.syms[j].value);
    } else {
      assert EndsWithin(DieLinks(ops), j, 0);
    }
  }

  /**
   After any run every chain of reference types ends exactly when the references between creating DIEs form
   no cycle.
   */
  lemma ChainsEndIffAcyclic(ops: seq<Op>, s: State)
    requires RunsTo(ops, s)
    ensures (forall h: nat | h < |s.table.objects| :: ChainEnds(s.table, h)) <==> Acyclic(DieLinks(ops))
  {
    AllEndIffAcyclic(DieLinks(ops));
    if Acyclic(DieLinks(ops)) {
      forall h: nat | h < |s.table.objects| ensures ChainEnds(s.table, h) { ChainEndsIfAcyclic(ops, s, h); }
    }
    if forall h: nat | h < |s.table.objects| :: ChainEnds(s.table, h) {
      forall j: nat ensures Ends(DieLinks(ops), j) { DieChainEnds(ops, s, j); }
    }
  }

  // ---- ranks ----

  // Every creating DIE of a reference type refers to a type that an earlier DIE created.
  ghost predicate RefersBack(ops: seq<Op>) {
    forall j: nat | CreatesRef(ops, j) :: DieTarget(ops, j).Some? && DieTarget(ops, j).value < j
  }

  lemma RankedAlike(ops: seq<Op>, s: State, j: nat, h: Handle)
    requires RunsTo(ops, s) && Created(ops, s, j, h) && Registers(ops[j])
    ensures RankedAt(s.table, h) <==> (CreatesRef(ops, j) ==> DieTarget(ops, j).Some? && DieTarget(ops, j).value < j)
  {
    TypeOfCreated(ops, s, j, h);
    LinksAgree(ops, s, j, h);
    CreatorIsRight(ops, s, j);
    CreatorIsItself(ops, s, j, h);
    if DieTarget(ops, j).Some? { CreatedInOrder(ops, s, DieTarget(ops, j).value, Target(s.table, h).value, j, h); }
  }

  // After any run references point at older types exactly when those of the creating DIEs do.
  lemma RankedIffRefersBack(ops: seq<Op>, s: State)
    requires RunsTo(ops, s)
    ensures Ranked(s.table) <==> RefersBack(ops)
  {
    if Ranked(s.table) {
      forall j: nat | CreatesRef(ops, j) ensures DieTarget(ops, j).Some? && DieTarget(ops, j).value < j {
        CreatorIsRight(ops, s, j);
        RankedAlike(ops, s, j, s.syms[j].value);
      }
    }
    if RefersBack(ops) {
      forall h: nat | h < |s.table.objects| ensures RankedAt(s.table, h) { RankedIfBack(ops, s, h); }
    }
  }

  lemma RankedIfBack(ops: seq<Op>, s: State, h: Handle)
    requires RunsTo(ops, s) && RefersBack(ops) && h < |s.table.objects|
    ensures RankedAt(s.table, h)
  {
    RunKeepsTable(ops, s);
    if IsRefType(s.table.objects[h].kind) {
      assert IsCreated(ops, s, h);
      var j: nat :| Created(ops, s, j, h);
      RankedAlike(ops, s, j, h);
    }
  }
}
