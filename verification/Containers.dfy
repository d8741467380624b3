/**
 The way back from a member to the structure that contains it, told from the DIEs of the run: which type
 changeBaseType finds by name, and which member a structure holds.
 */
module Containers {
  import opened Basics
  import opened Dwarf
  import opened SymbolTable
  import opened Invariant
  import opened Runs
  import opened Creators
  import opened PartHistories
  import opened Members
  import opened TypeChains
  import opened Instances

  // ---- the type found by name ----

  // Every entry of a name casts to a type.
  lemma {:induction false} FirstCastToBase(t: Table, name: string)
    requires BaseIndexOk(t) && name != ""
    ensures FirstNamed(t, name) == FirstCast(t.objects, BaseTypesNamed(t.names, name), Base)
  {
    var hs := BaseTypesNamed(t.names, name);
    if hs != [] { assert hs[0] in hs; }
  }

  lemma FirstNamedIs(t: Table, name: string)
    requires Inv(t) && name != ""
    ensures IsOldest(t, name, Base, FirstNamed(t, name))
  {
    OldestIsFound(t, name, Base);
    FirstCastToBase(t, name);
  }

  // The first type found by name is the one that the first type DIE of the name created.
  lemma {:induction false} FirstNamedFromDies(ops: seq<Op>, s: State, name: string)
    requires RunsTo(ops, s) && name != ""
    ensures match FirstOffer(ops, |ops|, name, Base)
            case None => FirstNamed(s.table, name) == None
            case Some(j) => FirstNamed(s.table, name).Some? && Created(ops, s, j, FirstNamed(s.table, name).value)
  {
    var end := StateBefore(ops, s, |ops|);
    assert ops[..|ops|] == ops;
    BeforeIsMade(ops, s, |ops|, end);
    RunKeepsTable(ops, s);
    FirstNamedIs(s.table, name);
    var found, first := FirstNamed(s.table, name), FirstOffer(ops, |ops|, name, Base);
    if first.None? {
      NothingIsFound(ops, s, |ops|, s.table, name, Base, found);
    } else {
      FirstOfferCreates(ops, |ops|, name, Base);
      CreatorIsRight(ops, s, first.value);
      OfferedIsFound(ops, s, |ops|, s.table, name, Base, first.value, found);
    }
  }

  /**
   From a structure to its list_head member and back: the structure is found again, at its address,
   exactly when its DIE is the first type DIE of its name.
   */
  lemma {:induction false} ContainerOfInRun(ops: seq<Op>, s: State, k: nat, x: Instance, field: string, memory: Memory)
    requires RunsTo(ops, s) && ChainEnds(s.table, x.typ) && RealType(s.table, x.typ).Some?
    requires Created(ops, s, k, RealType(s.table, x.typ).value) && ops[k].die.name != ""
    requires Instances.MemberByName(s.table, x, field, false, false, memory).Some?
    requires var y := Instances.MemberByName(s.table, x, field, false, false, memory).value;
             y.typ < |s.table.objects| && s.table.objects[y.typ].name == "list_head"
    ensures var y, h := Instances.MemberByName(s.table, x, field, false, false, memory).value,
            RealType(s.table, x.typ).value;
            ChangeBaseType(s.table, y, s.table.objects[h].name, field) == Some(Instance(h, x.address))
            <==> FirstOffer(ops, |ops|, ops[k].die.name, Base) == Some(k)
  {
    var h := RealType(s.table, x.typ).value;
    ContainerOf(s.table, x, field, memory);
    RunKeepsTable(ops, s);
    var name := s.table.objects[h].name;
    FirstNamedFromDies(ops, s, name);
    var first := FirstOffer(ops, |ops|, name, Base);
    if first.Some? { SameObject(ops, s, first.value, FirstNamed(s.table, name).value, k, h); }
  }

  lemma SameObject(ops: seq<Op>, s: State, j: nat, g: Handle, k: nat, h: Handle)
    requires RunsTo(ops, s) && Created(ops, s, j, g) && Created(ops, s, k, h)
    ensures j == k <==> g == h
  {
    CreatedInOrder(ops, s, j, g, k, h);
    CreatedInOrder(ops, s, k, h, j, g);
  }

  // ---- the member that a structure holds ----

  // Operation `i` visits the first member DIE of its name in the structure `h`, whose name nobody looked
  // up before.
  ghost predicate IsFirstMember(ops: seq<Op>, syms: seq<Option<Handle>>, i: nat, h: Handle) {
    && i < |ops| == |syms| && ops[i].Visit? && ops[i].die.tag == MemberTag
    && ParentSym(syms[..i], ops[i].parent) == Some(h)
    && FirstEntry(ops[..i], syms[..i], h, ops[i].die.name) == None
  }

  lemma MemberIsNew(t: Table, place: Place, die: Die, parent: Option<Handle>, h: Handle)
    requires die.tag == MemberTag && parent == Some(h) && h < |t.objects| && IsStructured(t.objects[h].kind)
    requires die.name !in t.objects[h].members
    ensures VisitDie(t, place, die, parent).Some?
    ensures |VisitDie(t, place, die, parent).value.table.objects| == |t.objects| + 1
  {}

  lemma {:induction false} EntryIs(hist: seq<Op>, s: State, h: Handle, name: string)
    requires |hist| == |s.syms| && h < |s.table.objects| && EntriesAgree(hist, s, h)
    ensures FirstEntry(hist, s.syms, h, name)
            == if name in s.table.objects[h].members then Some(s.table.objects[h].members[name]) else None
  {}

  lemma EntryBefore(ops: seq<Op>, s: State, i: nat, mid: State, h: Handle)
    requires IsBefore(ops, s, i, mid) && IsFirstMember(ops, s.syms, i, h)
    requires h < |s.table.objects| && IsStructured(s.table.objects[h].kind)
    ensures h < |mid.table.objects| && IsStructured(mid.table.objects[h].kind)
    ensures ops[i].die.name !in mid.table.objects[h].members
  {
    assert SameIdentity(mid.table.objects[h], s.table.objects[h]);
    EntriesOf(ops[..i], mid, h);
    EntryIs(ops[..i], mid, h, ops[i].die.name);
  }

  lemma {:induction false} EntryAt(ops: seq<Op>, syms: seq<Option<Handle>>, i: nat, h: Handle)
    requires IsFirstMember(ops, syms, i, h)
    ensures FirstEntry(ops, syms, h, ops[i].die.name) == Some(syms[i])
  {
    assert ops[..i + 1][..i] == ops[..i] && syms[..i + 1][..i] == syms[..i];
    FirstEntryStays(ops, syms, i + 1, h, ops[i].die.name);
  }

  // The visit created the member that the structure holds under the name.
  lemma FirstMemberCreated(ops: seq<Op>, s: State, i: nat, h: Handle) returns (m: Handle)
    requires RunsTo(ops, s) && IsFirstMember(ops, s.syms, i, h)
    requires h < |s.table.objects| && IsStructured(s.table.objects[h].kind)
    ensures Created(ops, s, i, m) && Instances.MemberNamed(s.table, h, ops[i].die.name) == Some(m)
    ensures s.table.objects[m].kind == Member
  {
    var mid, next := StepAt(ops, s, i);
    EntryBefore(ops, s, i, mid, h);
    MemberIsNew(mid.table, ops[i].place, ops[i].die, ParentSym(mid.syms, ops[i].parent), h);
    NewIsCreated(ops, s, i, mid, next);
    m := s.syms[i].value;
    EntriesOf(ops, s, h);
    EntryAt(ops, s.syms, i, h);
    MemberEntry(ops, s, h, ops[i].die.name, m);
  }

  lemma {:induction false} MemberEntry(ops: seq<Op>, s: State, h: Handle, name: string, m: Handle)
    requires RunsTo(ops, s) && |ops| == |s.syms| && h < |s.table.objects| && IsStructured(s.table.objects[h].kind)
    requires EntriesAgree(ops, s, h) && FirstEntry(ops, s.syms, h, name) == Some(Some(m)) && m < |s.table.objects|
    ensures Instances.MemberNamed(s.table, h, name) == Some(m) && s.table.objects[m].kind == Member
  {
    RunKeepsTable(ops, s);
    EntryIs(ops, s, h, name);
  }

  lemma {:induction false} NoEntryYet(ops: seq<Op>, syms: seq<Option<Handle>>, h: Handle, name: string)
    requires |ops| == |syms| && forall op <- ops :: op.Visit? && op.die.tag != MemberTag
    ensures FirstEntry(ops, syms, h, name) == None
  {
    if ops != [] {
      assert ops[|ops| - 1] in ops;
      NoEntryYet(ops[..|ops| - 1], syms[..|ops| - 1], h, name);
    }
  }
}
