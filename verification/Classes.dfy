/**
 What the visit of a DIE returns, told from tags and names alone: the class of the object, whether it is a
 new one, and which one it is if it is not.
 */
module Classes {
  import opened Basics
  import opened Dwarf
  import opened SymbolTable
  import opened Invariant
  import opened VisitKeeps
  import opened Runs
  import opened Creators

  // Tags of DIEs that register a symbol of a type or function.
  predicate IsTypeTag(tag: Tag) {
    tag in {TypedefTag, StructTag, UnionTag, BaseTag, PointerTag, ConstTag, EnumTag, ArrayTag, SubprogramTag}
  }

  predicate IsRefTag(tag: Tag) {
    tag in {TypedefTag, PointerTag, ConstTag, ArrayTag}
  }

  // A visit of such a DIE, or of one of a variable that is no initialiser of another.
  predicate IsRegistering(op: Op) {
    op.Visit? && (IsTypeTag(op.die.tag) || (op.die.tag == VariableTag && !op.die.specification))
  }

  // The class of a symbol that the visit of a DIE with the tag returns.
  predicate IsClassOf(tag: Tag, kind: Kind) {
    match tag
    case StructTag => kind == Struct
    case UnionTag => kind == Union
    case EnumTag => kind == Enum
    case SubprogramTag => kind == Func
    case VariableTag => kind == Var
    case TypedefTag => kind == Typedef
    case ConstTag => kind == Const
    case ArrayTag => kind == Array
    case PointerTag => kind == Pointer || kind == Array
    case BaseTag =>
      kind in {Base, Struct, Union, Enum, Func, Typedef, Pointer, Const, Array}
    case MemberTag => kind == Member
    case _ => false
  }

  lemma RegisteringIs(op: Op)
    ensures Registers(op) <==> IsRegistering(op)
  {}

  /**
   The object that the visit of a DIE returns has the DIE's name and exactly the class its tag asks for,
   where an array is a pointer, too, and every type is a base type; other DIEs return none.
   */
  lemma ReturnedClass(ops: seq<Op>, s: State, i: nat)
    requires RunsTo(ops, s) && i < |ops|
    ensures |s.syms| == |ops|
    ensures s.syms[i].Some? ==>
              && ops[i].Visit? && s.syms[i].value < |s.table.objects|
              && IsClassOf(ops[i].die.tag, s.table.objects[s.syms[i].value].kind)
              && s.table.objects[s.syms[i].value].name == ops[i].die.name
  {
    RunKeepsTable(ops, s);
    if s.syms[i].Some? {
      if Registers(ops[i]) {
        assert ResolvedAt(s.table, ops[i], s.syms[i]);
      } else {
        var mid, next := StepAt(ops, s, i);
        PartReturns(mid.table, ops[i].place, ops[i].die, ParentSym(mid.syms, ops[i].parent));
        assert next.syms[i] == s.syms[i];
        assert SameIdentity(next.table.objects[s.syms[i].value], s.table.objects[s.syms[i].value]);
      }
    }
  }

  // A DIE that registers nothing returns a symbol only if it is a member.
  lemma PartReturns(t: Table, place: Place, die: Die, parent: Option<Handle>)
    requires Inv(t) && Wanted(die).None?
    ensures match VisitDie(t, place, die, parent)
            case None => true
            case Some(v) =>
              v.sym.Some? ==>
                && die.tag == MemberTag && v.sym.value < |v.table.objects|
                && v.table.objects[v.sym.value].kind == Member && v.table.objects[v.sym.value].name == die.name
  {}

  // ---- new and old objects ----

  // A DIE with the tag `made` created an object that a DIE of the same name with the tag finds.
  predicate Serves(tag: Tag, made: Tag) {
    match tag
    case BaseTag => IsTypeTag(made)
    case TypedefTag => IsRefTag(made)
    case PointerTag => IsRefTag(made)
    case ConstTag => IsRefTag(made)
    case ArrayTag => false
    case _ => made == tag
  }

  // Operation `j` created such an object.
  ghost predicate MadeFor(ops: seq<Op>, s: State, j: nat, name: string, tag: Tag) {
    CreatedThere(ops, s, j) && ops[j].die.name == name && Serves(tag, ops[j].die.tag)
  }

  lemma CreatedIsItsCreator(ops: seq<Op>, s: State, i: nat)
    requires RunsTo(ops, s) && i < |ops| && Registers(ops[i])
    ensures |s.syms| == |ops| && (CreatedThere(ops, s, i) <==> Creator(ops, i) == Some(i))
  {
    CreatorIsRight(ops, s, i);
    if CreatedThere(ops, s, i) { CreatorIsItself(ops, s, i, s.syms[i].value); }
  }

  // A DIE that creates an object for a later one of its name offers that one's class.
  lemma ServesOffers(made: Op, op: Op)
    requires IsRegistering(op) && made.Visit? && Serves(op.die.tag, made.die.tag)
    requires made.die.tag == VariableTag ==> !made.die.specification
    ensures Registers(made) && Registers(op) && Wanted(op.die) != Some(Array)
    ensures IsRefTag(op.die.tag) <==> IsRefType(Wanted(op.die).value)
    ensures if IsRefTag(op.die.tag) then IsRefType(Wanted(made.die).value)
            else Casts(Wanted(made.die).value, Wanted(op.die).value)
  {}

  lemma OffersServes(made: Op, op: Op)
    requires Registers(op) && Registers(made) && Wanted(op.die) != Some(Array)
    requires if IsRefType(Wanted(op.die).value) then IsRefType(Wanted(made.die).value)
             else Casts(Wanted(made.die).value, Wanted(op.die).value)
    ensures Serves(op.die.tag, made.die.tag)
  {}

  // A variable that initialises another returns no object.
  lemma InitialiserReturnsNone(ops: seq<Op>, s: State, j: nat)
    requires RunsTo(ops, s) && j < |ops| == |s.syms| && s.syms[j].Some?
    ensures ops[j].Visit? && (ops[j].die.tag == VariableTag ==> !ops[j].die.specification)
  {
    hide RunOk, Inv, Extends, Created;
    ReturnedClass(ops, s, j);
    if ops[j].die.tag == VariableTag && ops[j].die.specification {
      var mid, next := StepAt(ops, s, j);
      InitialiserReturns(mid.table, ops[j].place, ops[j].die, ParentSym(mid.syms, ops[j].parent));
    }
  }

  lemma InitialiserReturns(t: Table, place: Place, die: Die, parent: Option<Handle>)
    requires die.tag == VariableTag && die.specification
    ensures VisitDie(t, place, die, parent) == Some(Visited(t, None))
  {}

  lemma MadeIsOffered(ops: seq<Op>, s: State, i: nat, j: nat)
    requires RunsTo(ops, s) && i < |ops| && IsRegistering(ops[i]) && MadeFor(ops, s, j, ops[i].die.name, ops[i].die.tag)
    ensures Registers(ops[j]) && Registers(ops[i]) && Wanted(ops[i].die) != Some(Array) && Creator(ops, j) == Some(j)
    ensures if IsRefTag(ops[i].die.tag) then IsRefNamed(ops[j], ops[i].die.name)
            else Offers(ops[j], ops[i].die.name, Wanted(ops[i].die).value)
  {
    hide RunsTo, Created, Creator, Serves, Casts, Wanted;
    InitialiserReturnsNone(ops, s, j);
    ServesOffers(ops[j], ops[i]);
    CreatedIsItsCreator(ops, s, j);
  }

  // The DIE whose object is found for a DIE that creates none.
  lemma FoundIsMade(ops: seq<Op>, s: State, i: nat) returns (j: nat)
    requires RunsTo(ops, s) && i < |ops| && Registers(ops[i]) && Creator(ops, i) != Some(i)
    ensures j < i && MadeFor(ops, s, j, ops[i].die.name, ops[i].die.tag)
  {
    var name, kind := ops[i].die.name, Wanted(ops[i].die).value;
    if IsRefType(kind) {
      j := RefIndex(ops, i, name).value;
      IndexedCreates(ops, i, name);
    } else {
      j := FirstOffer(ops, i, name, kind).value;
      FirstOfferCreates(ops, i, name, kind);
    }
    CreatedIsItsCreator(ops, s, j);
    OffersServes(ops[j], ops[i]);
  }

  /**
   A registering DIE creates an object exactly if it has no name or no earlier DIE of its name created one
   that it would find: for a base type any type, for a typedef, pointer or const any reference type, for an
   array none, and otherwise one of the same tag.
   */
  lemma CreatesIff(ops: seq<Op>, s: State, i: nat)
    requires RunsTo(ops, s) && i < |ops| && IsRegistering(ops[i])
    ensures CreatedThere(ops, s, i) <==>
            ops[i].die.name == "" || forall j: nat | j < i :: !MadeFor(ops, s, j, ops[i].die.name, ops[i].die.tag)
  {
    RegisteringIs(ops[i]);
    CreatedIsItsCreator(ops, s, i);
    if Creator(ops, i) == Some(i) && ops[i].die.name != "" {
      forall j: nat | j < i ensures !MadeFor(ops, s, j, ops[i].die.name, ops[i].die.tag) {
        if MadeFor(ops, s, j, ops[i].die.name, ops[i].die.tag) { MadeIsOffered(ops, s, i, j); }
      }
    }
    if Creator(ops, i) != Some(i) {
      var j := FoundIsMade(ops, s, i);
    }
  }

  // One that creates none and is no typedef, pointer or const returns the object of the first such DIE.
  lemma ReturnsFirst(ops: seq<Op>, s: State, i: nat, j: nat)
    requires RunsTo(ops, s) && i < |ops| && IsRegistering(ops[i]) && !IsRefTag(ops[i].die.tag)
    requires ops[i].die.name != "" && j < i && MadeFor(ops, s, j, ops[i].die.name, ops[i].die.tag)
    requires forall k: nat | k < j :: !MadeFor(ops, s, k, ops[i].die.name, ops[i].die.tag)
    ensures s.syms[j].Some? && s.syms[i] == s.syms[j]
  {
    hide Creator, RunsTo, Created;
    MadeIsOffered(ops, s, i, j);
    FirstMade(ops, s, i, j);
    CreatorIsRight(ops, s, i);
  }

  lemma FirstMade(ops: seq<Op>, s: State, i: nat, j: nat)
    requires RunsTo(ops, s) && i < |ops| && Registers(ops[i]) && !IsRefType(Wanted(ops[i].die).value)
    requires ops[i].die.name != "" && j < i && Offers(ops[j], ops[i].die.name, Wanted(ops[i].die).value)
    requires forall k: nat | k < j :: !MadeFor(ops, s, k, ops[i].die.name, ops[i].die.tag)
    ensures Creator(ops, i) == Some(j)
  {
    var k := FirstOffer(ops, i, ops[i].die.name, Wanted(ops[i].die).value).value;
    FirstOfferCreates(ops, i, ops[i].die.name, Wanted(ops[i].die).value);
    CreatedIsItsCreator(ops, s, k);
    OffersServes(ops[k], ops[i]);
    assert MadeFor(ops, s, k, ops[i].die.name, ops[i].die.tag);
  }

  // A typedef, pointer or const returns the object of the last such DIE if that has its tag, or is that of an
  // array and the DIE that of a pointer; otherwise it returns none.
  lemma ReturnsLast(ops: seq<Op>, s: State, i: nat, j: nat)
    requires RunsTo(ops, s) && i < |ops| && IsRegistering(ops[i]) && IsRefTag(ops[i].die.tag)
    requires ops[i].die.name != "" && j < i && MadeFor(ops, s, j, ops[i].die.name, ops[i].die.tag)
    requires forall k: nat | j < k < i :: !MadeFor(ops, s, k, ops[i].die.name, ops[i].die.tag)
    ensures s.syms[j].Some?
    ensures var made, tag := ops[j].die.tag, ops[i].die.tag;
            s.syms[i] == if made == tag || (made == ArrayTag && tag == PointerTag) then s.syms[j] else None
  {
    hide RunsTo, Created;
    MadeIsOffered(ops, s, i, j);
    LastMade(ops, s, i, j);
    CreatorIsRight(ops, s, i);
  }

  lemma LastMade(ops: seq<Op>, s: State, i: nat, j: nat)
    requires RunsTo(ops, s) && i < |ops| && Registers(ops[i]) && Wanted(ops[i].die) != Some(Array)
    requires IsRefType(Wanted(ops[i].die).value) && ops[i].die.name != ""
    requires j < i && IsRefNamed(ops[j], ops[i].die.name) && Creator(ops, j) == Some(j)
    requires forall k: nat | j < k < i :: !MadeFor(ops, s, k, ops[i].die.name, ops[i].die.tag)
    ensures RefIndex(ops, i, ops[i].die.name) == Some(j)
  {
    var k := RefIndex(ops, i, ops[i].die.name).value;
    IndexedCreates(ops, i, ops[i].die.name);
    CreatedIsItsCreator(ops, s, k);
    OffersServes(ops[k], ops[i]);
    assert MadeFor(ops, s, k, ops[i].die.name, ops[i].die.tag);
  }
}
