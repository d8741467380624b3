/**
 The input of a parse: debugging information entries (DIEs), compilation units and files,
 together with the order in which the parser reaches the entries.

 A DIE is a record of the attribute values that libdwarf returns for it.  Every attribute is
 the number that getDieAttributeNumber returns, except DW_AT_type, which keeps its raw ref4
 value: the parser adds the offset of the current compilation unit to it.
 */
module Dwarf {
  import opened Basics

  datatype Tag =
    | TypedefTag | StructTag | UnionTag | MemberTag | BaseTag | PointerTag | ConstTag | EnumTag
    | EnumeratorTag | VariableTag | ArrayTag | SubrangeTag | SubprogramTag | FormalTag | OtherTag

  datatype Die = Die(
    offset: u64,
    tag: Tag,
    name: string,
    byteSize: u64,
    typeRef: Option<u64>,
    lowPc: Option<u64>,
    location: Option<u64>,
    upperBound: Option<u64>,
    memberLocation: Option<u64>,
    constValue: Option<u64>,
    specification: bool,
    children: seq<Die>)

  // A compilation unit: its length in bytes, header included, and its one top-level DIE.
  datatype Unit = Unit(length: u64, root: Die)

  // The key under which a DIE is interned: section offset and number of its file.
  type Key = (nat, nat)

  // Where the parser stands: the file it reads and the header offset of the current unit.
  datatype Place = Place(file: nat, cu: u64)

  function DieKey(place: Place, die: Die): Key {
    (die.offset, place.file)
  }

  // The key a ref4 value stands for; the sum is taken in 64 bits.
  function RefKey(place: Place, ref: u64): Key {
    ((ref + place.cu) % U64, place.file)
  }

  /**
   One operation on the symbol table: a DIE visit, or one of the lookups a client may issue
   between visits and that leave a trace in the table.  `parent` is the position, in the run,
   of the visit whose symbol is passed as the parent.
   */
  datatype Op =
    | Visit(place: Place, die: Die, parent: Option<nat>, level: nat)
    | RevID(id: nat)
    | Aliases(id: nat)
    | Resolve(handle: nat)
    | MemberNamed(handle: nat, name: string)

  // The number of DIEs in a forest.
  function Size(forest: seq<Die>): nat {
    if forest == [] then 0 else 1 + Size(forest[0].children) + Size(forest[1..])
  }

  // The visits of a forest in preorder, the first of them being operation `start` of the run.
  function Preorder(forest: seq<Die>, place: Place, parent: Option<nat>, level: nat, start: nat): (ops: seq<Op>)
    ensures |ops| == Size(forest)
  {
    if forest == [] then []
    else
      [Visit(place, forest[0], parent, level)]
      + Preorder(forest[0].children, place, Some(start), level + 1, start + 1)
      + Preorder(forest[1..], place, parent, level, start + 1 + Size(forest[0].children))
  }

  lemma Associative<T>(a: seq<T>, b: seq<T>, c: seq<T>)
    ensures a + (b + c) == (a + b) + c
  {}

  // The visits of the first tree of a forest, then those of its siblings.
  lemma PreorderTree(forest: seq<Die>, place: Place, parent: Option<nat>, level: nat, start: nat)
    requires forest != []
    ensures var tree := [Visit(place, forest[0], parent, level)]
                        + Preorder(forest[0].children, place, Some(start), level + 1, start + 1);
            && Preorder([forest[0]], place, parent, level, start) == tree
            && Preorder(forest, place, parent, level, start)
               == tree + Preorder(forest[1..], place, parent, level, start + |tree|)
  {
    assert [forest[0]][1..] == [];
  }

  // The visits of the units of a file; the first unit starts at section offset `cu`.
  function UnitOps(units: seq<Unit>, file: nat, cu: u64, start: nat): seq<Op> {
    if units == [] then []
    else
      Preorder([units[0].root], Place(file, cu), None, 0, start)
      + UnitOps(units[1..], file, (cu + units[0].length) % U64, start + Size([units[0].root]))
  }

  // The visits of a run over several files, numbered from `file` on.
  function RunOps(files: seq<seq<Unit>>, file: nat, start: nat): seq<Op> {
    if files == [] then []
    else
      var ops := UnitOps(files[0], file, 0, start);
      ops + RunOps(files[1..], file + 1, start + |ops|)
  }

  // One step of the definitions.
  lemma UnitOpsSplit(units: seq<Unit>, file: nat, cu: u64, start: nat)
    requires units != []
    ensures var unit := Preorder([units[0].root], Place(file, cu), None, 0, start);
            UnitOps(units, file, cu, start)
              == unit + UnitOps(units[1..], file, (cu + units[0].length) % U64, start + |unit|)
  {}

  lemma RunOpsSplit(files: seq<seq<Unit>>, file: nat, start: nat)
    requires files != []
    ensures var ops := UnitOps(files[0], file, 0, start);
            RunOps(files, file, start) == ops + RunOps(files[1..], file + 1, start + |ops|)
  {}

  // The keys visited by a run.
  function VisitedKeys(ops: seq<Op>): (keys: set<Key>) {
    set i | 0 <= i < |ops| && ops[i].Visit? :: DieKey(ops[i].place, ops[i].die)
  }

  // No two visits are to the same DIE.
  ghost predicate DistinctKeys(ops: seq<Op>) {
    forall i, j | 0 <= i < j < |ops| && ops[i].Visit? && ops[j].Visit? ::
      DieKey(ops[i].place, ops[i].die) != DieKey(ops[j].place, ops[j].die)
  }
}
