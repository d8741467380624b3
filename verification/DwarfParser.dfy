/**
 The parser: one object per file, which walks the compilation units and their DIEs and fills the
 symbol manager.
 */
module Parser {
  import opened Basics
  import opened Dwarf
  import opened SymbolTable
  import opened Symbols
  import opened Parses
  import opened ParseStops

  // The static counter from which every parser takes the number of its file.
  class FileNumbers {
    var nextFileID: nat

    constructor ()
      ensures nextFileID == 0
    {
      nextFileID := 0;
    }
  }

  class DwarfParser {
    const manager: SymbolManager
    const fileID: nat
    var curCUOffset: u64
    var nextCUOffset: u64

    constructor (manager: SymbolManager, numbers: FileNumbers)
      modifies numbers
      ensures this.manager == manager && curCUOffset == 0 && nextCUOffset == 0
      ensures fileID == numbers.nextFileID == old(numbers.nextFileID) + 1
    {
      numbers.nextFileID := numbers.nextFileID + 1;
      this.manager, this.fileID := manager, numbers.nextFileID;
      curCUOffset, nextCUOffset := 0, 0;
    }

    ghost function Here(): Place
      reads this
    {
      Place(fileID, curCUOffset)
    }

    // getTypeInstance<T> for BaseType, Struct, Union and Enum.
    method GetTypeInstance(die: Die, kind: Kind) returns (cursym: Handle)
      requires manager.Valid() && forall h <- BaseTypesNamed(manager.NameTables(), die.name) :: h < |manager.objects|
      requires manager.NameAlive(die.name, kind)
      modifies manager, manager.Repr
      ensures manager.Valid() && manager.trace == old(manager.trace) && manager.results == old(manager.results)
      ensures manager.deleted == old(manager.deleted)
      ensures Visited(manager.Contents(), Some(cursym)) == TypeInstance(old(manager.Contents()), Here(), die, kind)
      ensures fresh(manager.Repr - old(manager.Repr))
    {
      hide SymbolTable.NewSymbol, SymbolTable.AddAlternativeDwarfID, CastsTried, BaseTypesNamed, Casts;
      var place := Place(fileID, curCUOffset);
      var found := manager.FindBaseTypeByName(die.name, kind);
      if found.None? {
        cursym := manager.NewSymbol(place, die, kind);
      } else {
        cursym := found.value;
        manager.AddAlternativeDwarfID(cursym, DieKey(place, die));
      }
    }

    // getTypeInstance<Function>
    method GetFunctionInstance(die: Die) returns (cursym: Handle)
      requires manager.Valid() && forall h <- BaseTypesNamed(manager.NameTables(), die.name) :: h < |manager.objects|
      requires manager.NameAlive(die.name, Func)
      modifies manager, manager.Repr
      ensures manager.Valid() && manager.trace == old(manager.trace) && manager.results == old(manager.results)
      ensures manager.deleted == old(manager.deleted)
      ensures Visited(manager.Contents(), Some(cursym)) == FunctionInstance(old(manager.Contents()), Here(), die)
      ensures fresh(manager.Repr - old(manager.Repr))
    {
      hide SymbolTable.NewFunction, SymbolTable.UpdateFunction, SymbolTable.AddAlternativeDwarfID;
      hide CastsTried, BaseTypesNamed, Casts;
      var place := Place(fileID, curCUOffset);
      var found := manager.FindBaseTypeByName(die.name, Func);
      if found.None? {
        cursym := manager.NewFunction(place, die);
      } else {
        cursym := found.value;
        manager.MergeFunction(cursym, place, die);
      }
    }

    // getTypeInstance<Variable>
    method GetVariableInstance(die: Die) returns (cursym: Handle)
      requires manager.Valid() && forall n <- manager.variableNameMap :: manager.variableNameMap[n] < |manager.objects|
      modifies manager, manager.Repr
      ensures manager.Valid() && manager.trace == old(manager.trace) && manager.results == old(manager.results)
      ensures manager.deleted == old(manager.deleted)
      ensures Visited(manager.Contents(), Some(cursym)) == VariableInstance(old(manager.Contents()), Here(), die)
      ensures fresh(manager.Repr - old(manager.Repr))
    {
      hide SymbolTable.NewVariable, SymbolTable.UpdateVariable, SymbolTable.AddAlternativeDwarfID;
      var place := Place(fileID, curCUOffset);
      if die.name !in manager.variableNameMap {
        cursym := manager.NewVariable(place, die);
      } else {
        cursym := manager.variableNameMap[die.name];
        manager.MergeVariable(cursym, place, die);
      }
    }

    // getRefTypeInstance<T>
    method GetRefTypeInstance(die: Die, kind: Kind) returns (cursym: Option<Handle>)
      requires manager.Valid() && forall n <- manager.refBaseTypeNameMap ::
               manager.refBaseTypeNameMap[n] < |manager.objects|
      requires die.name in manager.refBaseTypeNameMap ==> manager.refBaseTypeNameMap[die.name] !in manager.deleted
      modifies manager, manager.Repr
      ensures manager.Valid() && manager.trace == old(manager.trace) && manager.results == old(manager.results)
      ensures manager.deleted == old(manager.deleted)
      ensures Visited(manager.Contents(), cursym) == RefTypeInstance(old(manager.Contents()), Here(), die, kind)
      ensures fresh(manager.Repr - old(manager.Repr))
    {
      hide NewRefType, AddAlternativeDwarfID;
      var place := Place(fileID, curCUOffset);
      if die.name !in manager.refBaseTypeNameMap {
        var h := manager.NewRefType(place, die, kind);
        return Some(h);
      }
      var rbt := manager.refBaseTypeNameMap[die.name];
      if !Casts(manager.objects[rbt].kind, kind) {
        return None;
      }
      manager.AddAlternativeDwarfID(rbt, DieKey(place, die));
      return Some(rbt);
    }

    // A DIE with a symbol of its own class: types, functions and variables.
    method InitRegistered(die: Die) returns (cursym: Option<Handle>)
      requires manager.Valid() && HandlesInRange(manager.Contents())
      requires die.tag !in {MemberTag, EnumeratorTag, SubrangeTag, FormalTag, OtherTag} && manager.deleted == []
      modifies manager, manager.Repr
      ensures manager.Valid() && manager.trace == old(manager.trace) && manager.results == old(manager.results)
      ensures manager.deleted == old(manager.deleted)
      ensures forall parent ::
                VisitDie(old(manager.Contents()), Here(), die, parent) == Some(Visited(manager.Contents(), cursym))
      ensures fresh(manager.Repr - old(manager.Repr))
    {
      hide TypeInstance, RefTypeInstance, FunctionInstance, VariableInstance, NewRefType;
      match die.tag
      case TypedefTag => cursym := GetRefTypeInstance(die, Typedef);
      case PointerTag => cursym := GetRefTypeInstance(die, Pointer);
      case ConstTag => cursym := GetRefTypeInstance(die, Const);
      case StructTag => var s := GetTypeInstance(die, Struct); cursym := Some(s);
      case UnionTag => var s := GetTypeInstance(die, Union); cursym := Some(s);
      case BaseTag => var s := GetTypeInstance(die, Base); cursym := Some(s);
      case EnumTag => var s := GetTypeInstance(die, Enum); cursym := Some(s);
      case ArrayTag => var s := manager.NewRefType(Place(fileID, curCUOffset), die, Array); cursym := Some(s);
      case SubprogramTag => var s := GetFunctionInstance(die); cursym := Some(s);
      case VariableTag =>
        if die.specification {
          cursym := None;
        } else {
          var s := GetVariableInstance(die);
          cursym := Some(s);
        }
    }

    // DW_TAG_member
    method InitMember(die: Die, parent: Option<Handle>) returns (cursym: Option<Handle>)
      requires manager.Valid() && (parent.Some? ==> parent.value < |manager.objects|)
      requires die.tag == MemberTag
      modifies manager, manager.Repr
      ensures manager.Valid() && manager.trace == old(manager.trace) && manager.results == old(manager.results)
      ensures manager.deleted == old(manager.deleted)
      ensures fresh(manager.Repr - old(manager.Repr))
      ensures VisitDie(old(manager.Contents()), Here(), die, parent) == Some(Visited(manager.Contents(), cursym))
    {
      cursym := None;
      if parent.Some? && IsStructured(manager.objects[parent.value].kind) {
        cursym := manager.AddMember(parent.value, Place(fileID, curCUOffset), die);
      }
    }

    // DW_TAG_enumerator; not `ok` is a failed assertion or a throw.
    method InitEnumerator(die: Die, parent: Option<Handle>) returns (ok: bool)
      requires manager.Valid() && (parent.Some? ==> parent.value < |manager.objects|)
      requires die.tag == EnumeratorTag
      modifies manager`currentID, manager`idMap, manager`idRevMap, manager.Repr
      ensures manager.Valid()
      ensures VisitDie(old(manager.Contents()), Here(), die, parent) ==
              if ok then Some(Visited(manager.Contents(), None)) else None
    {
      if parent.None? { return false; }
      if manager.objects[parent.value].kind == Enum {
        if die.constValue.None? { return false; }
        manager.AddEnum(parent.value, die.name, die.constValue.value);
      }
      return true;
    }

    // DW_TAG_subrange_type
    method InitSubrange(die: Die, parent: Option<Handle>) returns (ok: bool)
      requires manager.Valid() && (parent.Some? ==> parent.value < |manager.objects|)
      requires die.tag == SubrangeTag
      modifies manager`currentID, manager`idMap, manager`idRevMap, manager.Repr
      ensures manager.Valid()
      ensures VisitDie(old(manager.Contents()), Here(), die, parent) ==
              if ok then Some(Visited(manager.Contents(), None)) else None
    {
      if parent.None? { return false; }
      if manager.objects[parent.value].kind == Array {
        manager.UpdateArray(parent.value, Place(fileID, curCUOffset), die);
      }
      return true;
    }

    // DW_TAG_formal_parameter
    method InitFormal(die: Die, parent: Option<Handle>)
      requires manager.Valid() && (parent.Some? ==> parent.value < |manager.objects|)
      requires die.tag == FormalTag
      modifies manager`currentID, manager`idMap, manager`idRevMap, manager.Repr
      ensures manager.Valid()
      ensures VisitDie(old(manager.Contents()), Here(), die, parent) == Some(Visited(manager.Contents(), None))
    {
      if parent.Some? && manager.objects[parent.value].kind == Func {
        manager.AddParam(parent.value, Place(fileID, curCUOffset), die);
      }
    }

    // A DIE that describes a part of its parent's symbol.
    method InitPart(die: Die, parent: Option<Handle>) returns (ok: bool, cursym: Option<Handle>)
      requires manager.Valid() && (parent.Some? ==> parent.value < |manager.objects|)
      requires die.tag in {MemberTag, EnumeratorTag, SubrangeTag, FormalTag, OtherTag}
      modifies manager, manager.Repr
      ensures manager.Valid() && manager.trace == old(manager.trace) && manager.results == old(manager.results)
      ensures manager.deleted == old(manager.deleted)
      ensures fresh(manager.Repr - old(manager.Repr))
      ensures VisitDie(old(manager.Contents()), Here(), die, parent) ==
              if ok then Some(Visited(manager.Contents(), cursym)) else None
    {
      ok, cursym := true, None;
      match die.tag
      case MemberTag => cursym := InitMember(die, parent);
      case EnumeratorTag => ok := InitEnumerator(die, parent);
      case SubrangeTag => ok := InitSubrange(die, parent);
      case FormalTag => InitFormal(die, parent);
      case OtherTag =>
    }

    // initSymbolFromDie.  `parentOp` is the operation of the run that returned the parent.
    method InitSymbolFromDie(die: Die, parent: Option<Handle>, level: nat, ghost parentOp: Option<nat>)
      returns (ok: bool, cursym: Option<Handle>)
      requires manager.Traced() && ParentSym(manager.results, parentOp) == parent
      modifies manager, manager.Repr
      ensures ok ==> manager.Traced() && manager.trace == old(manager.trace) + [Visit(Here(), die, parentOp, level)]
      ensures ok ==> manager.results == old(manager.results) + [cursym]
      ensures !ok ==> Replay(START, old(manager.trace) + [Visit(Here(), die, parentOp, level)]) == None
      ensures fresh(manager.Repr - old(manager.Repr))
    {
      manager.TracedInRange();
      VisitExtends(manager.trace, State(manager.Contents(), manager.results), Here(), die, parentOp, level);
      if die.tag in {MemberTag, EnumeratorTag, SubrangeTag, FormalTag, OtherTag} {
        ok, cursym := InitPart(die, parent);
      } else {
        ok := true;
        cursym := InitRegistered(die);
      }
      if ok {
        manager.Record(Visit(Here(), die, parentOp, level), cursym);
      }
    }

    // One DIE and, if dwarf_child finds any, its children: the part of get_die_and_siblings between
    // one step to a sibling and the next.
    method GetDieAndChildren(die: Die, parent: Option<Handle>, level: nat, ghost parentOp: Option<nat>)
        returns (ok: bool)
      requires manager.Traced()
      requires ParentSym(manager.results, parentOp) == parent && (parentOp.Some? ==> parentOp.value < |manager.results|)
      modifies manager, manager.Repr
      ensures fresh(manager.Repr - old(manager.Repr))
      ensures var ops := old(manager.trace) + Preorder([die], Here(), parentOp, level, |old(manager.trace)|);
              if ok then manager.Reached(ops, old(manager.results)) else Replay(START, ops) == None
      decreases Size([die]), 0
    {
      hide Replay, Preorder;
      ghost var before := manager.trace;
      ghost var below := Preorder(die.children, Here(), Some(|before|), level + 1, |before| + 1);
      TreeExtends(before, die, Here(), parentOp, level);
      var cursym: Option<Handle>;
      ok, cursym := InitSymbolFromDie(die, parent, level, parentOp);
      if !ok {
        StaysStopped(before + [Visit(Here(), die, parentOp, level)], below);
        return;
      }
      if die.children == [] { return; }
      ok := GetDieAndSiblings(die.children, cursym, level + 1, Some(|before|));
    }

    // The run, once it has visited `forest`, will have come to `all`; its results began with `earlier`.
    ghost predicate ForestPending(all: seq<Op>, forest: seq<Die>, parentOp: Option<nat>, level: nat,
                                  earlier: seq<Option<Handle>>)
      reads this, manager, manager.objects
    {
      manager.Reached(manager.trace, earlier)
      && all == manager.trace + Preorder(forest, Here(), parentOp, level, |manager.trace|)
    }

    // The visit of one DIE and its children; the rest of `forest` are its siblings.
    method VisitFirst(forest: seq<Die>, parent: Option<Handle>, level: nat, ghost parentOp: Option<nat>,
                      ghost all: seq<Op>)
      returns (ok: bool)
      requires forest != [] && ForestPending(all, forest, parentOp, level, manager.results)
      requires ParentSym(manager.results, parentOp) == parent && (parentOp.Some? ==> parentOp.value < |manager.results|)
      modifies manager, manager.Repr
      ensures fresh(manager.Repr - old(manager.Repr))
      ensures if ok then ForestPending(all, forest[1..], parentOp, level, old(manager.results))
              else Replay(START, all) == None
      decreases Size(forest), 1
    {
      ghost var before := manager.trace;
      ForestExtends(before, forest, Here(), parentOp, level);
      ok := GetDieAndChildren(forest[0], parent, level, parentOp);
      if !ok {
        ghost var tree := before + Preorder([forest[0]], Here(), parentOp, level, |before|);
        StaysStopped(tree, Preorder(forest[1..], Here(), parentOp, level, |tree|));
      }
    }

    /**
     get_die_and_siblings for the first DIE of `forest`, whose siblings are the rest: every DIE of the
     forest is visited once, in preorder, with the symbol returned for its parent.  Not `ok` is a parse
     that the assertion or exception of some visit stopped.
     */
    method GetDieAndSiblings(forest: seq<Die>, parent: Option<Handle>, level: nat, ghost parentOp: Option<nat>)
      returns (ok: bool)
      requires forest != [] && manager.Traced()
      requires ParentSym(manager.results, parentOp) == parent && (parentOp.Some? ==> parentOp.value < |manager.results|)
      modifies manager, manager.Repr
      ensures fresh(manager.Repr - old(manager.Repr))
      ensures var ops := old(manager.trace) + Preorder(forest, Here(), parentOp, level, |old(manager.trace)|);
              if ok then manager.Reached(ops, old(manager.results)) else Replay(START, ops) == None
      decreases Size(forest), 2
    {
      hide Replay;
      ghost var all := manager.trace + Preorder(forest, Here(), parentOp, level, |manager.trace|);
      var rest := forest;
      ok := true;
      while rest != []
        invariant ok && Size(rest) <= Size(forest)
        invariant fresh(manager.Repr - old(manager.Repr))
        invariant ForestPending(all, rest, parentOp, level, old(manager.results))
        decreases |rest|
      {
        ok := VisitFirst(rest, parent, level, parentOp, all);
        if !ok { return; }
        rest := rest[1..];
      }
    }

    // The run, once it has visited `units`, will have come to `all`; its results began with `earlier`.
    ghost predicate Pending(all: seq<Op>, units: seq<Unit>, earlier: seq<Option<Handle>>)
      reads this, manager, manager.objects
    {
      manager.Reached(manager.trace, earlier)
      && all == manager.trace + UnitOps(units, fileID, nextCUOffset, |manager.trace|)
    }

    // The visit of one unit, whose header dwarf_next_cu_header has just returned.
    method ReadCU(units: seq<Unit>, ghost all: seq<Op>) returns (ok: bool)
      requires units != [] && curCUOffset == nextCUOffset && Pending(all, units, manager.results)
      modifies this`nextCUOffset, manager, manager.Repr
      ensures fresh(manager.Repr - old(manager.Repr))
      ensures if ok then Pending(all, units[1..], old(manager.results)) else Replay(START, all) == None
    {
      hide Replay, Preorder, UnitOps;
      nextCUOffset := (curCUOffset + units[0].length) % U64;
      ghost var before := manager.trace;
      UnitsExtend(before, units, fileID, curCUOffset);
      ok := GetDieAndSiblings([units[0].root], None, 0, None);
      if !ok {
        ghost var unit := before + Preorder([units[0].root], Here(), None, 0, |before|);
        StaysStopped(unit, UnitOps(units[1..], fileID, nextCUOffset, |unit|));
      }
    }

    // read_cu_list: `units` are the compilation units that dwarf_next_cu_header has yet to return.
    method ReadCUList(units: seq<Unit>) returns (ok: bool)
      requires manager.Traced()
      modifies this`curCUOffset, this`nextCUOffset, manager, manager.Repr
      ensures fresh(manager.Repr - old(manager.Repr))
      ensures var ops := old(manager.trace) + UnitOps(units, fileID, old(nextCUOffset), |old(manager.trace)|);
              if ok then manager.Reached(ops, old(manager.results)) else Replay(START, ops) == None
    {
      ghost var all := manager.trace + UnitOps(units, fileID, nextCUOffset, |manager.trace|);
      var rest := units;
      ok := true;
      while true
        invariant ok && fresh(manager.Repr - old(manager.Repr))
        invariant Pending(all, rest, old(manager.results))
        decreases |rest|
      {
        curCUOffset := nextCUOffset;
        if rest == [] { break; }
        ok := ReadCU(rest, all);
        if !ok { return; }
        rest := rest[1..];
      }
    }
  }

  // parseDwarfFromFD
  method ParseFile(units: seq<Unit>, manager: SymbolManager, numbers: FileNumbers) returns (ok: bool)
    requires manager.Traced()
    modifies manager, manager.Repr, numbers
    ensures fresh(manager.Repr - old(manager.Repr))
    ensures numbers.nextFileID == old(numbers.nextFileID) + 1
    ensures var ops := old(manager.trace) + UnitOps(units, numbers.nextFileID, 0, |old(manager.trace)|);
            if ok then manager.Reached(ops, old(manager.results)) else Replay(START, ops) == None
  {
    var parser := new DwarfParser(manager, numbers);
    ok := parser.ReadCUList(units);
  }

  // The run, once it has visited `files`, will have come to `all`; its results began with `earlier`.
  ghost predicate FilesPending(manager: SymbolManager, all: seq<Op>, files: seq<seq<Unit>>, next: nat,
                               earlier: seq<Option<Handle>>)
    reads manager, manager.objects
  {
    manager.Reached(manager.trace, earlier)
    && all == manager.trace + RunOps(files, next + 1, |manager.trace|)
  }

  method ParseNext(files: seq<seq<Unit>>, manager: SymbolManager, numbers: FileNumbers, ghost all: seq<Op>)
      returns (ok: bool)
    requires files != [] && FilesPending(manager, all, files, numbers.nextFileID, manager.results)
    modifies manager, manager.Repr, numbers
    ensures fresh(manager.Repr - old(manager.Repr))
    ensures if ok then FilesPending(manager, all, files[1..], numbers.nextFileID, old(manager.results))
            else Replay(START, all) == None
  {
    hide Replay, RunOps, UnitOps;
    ghost var before := manager.trace;
    FilesExtend(before, files, numbers.nextFileID + 1);
    ok := ParseFile(files[0], manager, numbers);
    if !ok {
      ghost var file := before + UnitOps(files[0], numbers.nextFileID, 0, |before|);
      StaysStopped(file, RunOps(files[1..], numbers.nextFileID + 1, |file|));
    }
  }

  // One file after the other.  A parse into a new manager succeeds exactly if no DIE of the files stops it.
  method ParseFiles(files: seq<seq<Unit>>, manager: SymbolManager, numbers: FileNumbers) returns (ok: bool)
    requires manager.Traced()
    modifies manager, manager.Repr, numbers
    ensures var ops := old(manager.trace) + RunOps(files, old(numbers.nextFileID) + 1, |old(manager.trace)|);
            if ok then manager.Reached(ops, old(manager.results)) else Replay(START, ops) == None
    ensures old(manager.trace) == [] && WellFormed(files) ==>
              (ok <==> !StopsSomewhere(files, old(numbers.nextFileID) + 1))
  {
    hide RunOps, StopsSomewhere, WellFormed;
    ghost var all := manager.trace + RunOps(files, numbers.nextFileID + 1, |manager.trace|);
    if manager.trace == [] && WellFormed(files) {
      ParseStopsIff(files, numbers.nextFileID + 1);
      assert all == RunOps(files, numbers.nextFileID + 1, 0);
    }
    var rest := files;
    ok := true;
    while rest != []
      invariant ok && fresh(manager.Repr - old(manager.Repr))
      invariant FilesPending(manager, all, rest, numbers.nextFileID, old(manager.results))
    {
      ok := ParseNext(rest, manager, numbers, all);
      if !ok { return; }
      rest := rest[1..];
    }
    NoFiles(numbers.nextFileID + 1, |manager.trace|);
  }

  // A tree is visited by a visit of its root and those of the forest of its children.
  lemma {:induction false} TreeExtends(before: seq<Op>, die: Die, place: Place, parent: Option<nat>, level: nat)
    ensures Size([die]) == 1 + Size(die.children)
    ensures var ops := before + [Visit(place, die, parent, level)];
            before + Preorder([die], place, parent, level, |before|)
            == ops + Preorder(die.children, place, Some(|before|), level + 1, |ops|)
  {
    PreorderTree([die], place, parent, level, |before|);
    Associative(before, [Visit(place, die, parent, level)],
                Preorder(die.children, place, Some(|before|), level + 1, |before| + 1));
  }

  lemma {:induction false} ForestExtends(before: seq<Op>, forest: seq<Die>, place: Place, parent: Option<nat>,
                                         level: nat)
    requires forest != []
    ensures Size([forest[0]]) <= Size(forest) && Size(forest[1..]) <= Size(forest)
    ensures var ops := before + Preorder([forest[0]], place, parent, level, |before|);
            before + Preorder(forest, place, parent, level, |before|)
            == ops + Preorder(forest[1..], place, parent, level, |ops|)
  {
    hide Preorder;
    var tree := Preorder([forest[0]], place, parent, level, |before|);
    PreorderTree(forest, place, parent, level, |before|);
    Associative(before, tree, Preorder(forest[1..], place, parent, level, |before| + |tree|));
  }

  lemma {:induction false} UnitsExtend(before: seq<Op>, units: seq<Unit>, file: nat, cu: u64)
    requires units != []
    ensures var ops := before + Preorder([units[0].root], Place(file, cu), None, 0, |before|);
            before + UnitOps(units, file, cu, |before|)
            == ops + UnitOps(units[1..], file, (cu + units[0].length) % U64, |ops|)
  {
    var unit := Preorder([units[0].root], Place(file, cu), None, 0, |before|);
    UnitOpsSplit(units, file, cu, |before|);
    Associative(before, unit, UnitOps(units[1..], file, (cu + units[0].length) % U64, |before| + |unit|));
  }

  lemma FilesExtend(before: seq<Op>, files: seq<seq<Unit>>, file: nat)
    requires files != []
    ensures var ops := before + UnitOps(files[0], file, 0, |before|);
            before + RunOps(files, file, |before|) == ops + RunOps(files[1..], file + 1, |ops|)
  {
    var ops := UnitOps(files[0], file, 0, |before|);
    RunOpsSplit(files, file, |before|);
    Associative(before, ops, RunOps(files[1..], file + 1, |before| + |ops|));
  }

  // A run that stops stops whatever would follow.
  lemma {:induction false} StaysStopped(ops: seq<Op>, rest: seq<Op>)
    requires Replay(START, ops) == None
    ensures Replay(START, ops + rest) == None
  {
    ReplayAppend(START, ops, rest);
  }

  lemma {:induction false} VisitExtends(trace: seq<Op>, s: State, place: Place, die: Die, parentOp: Option<nat>,
                                        level: nat)
    requires Replay(START, trace) == Some(s)
    ensures match VisitDie(s.table, place, die, ParentSym(s.syms, parentOp))
            case None => Replay(START, trace + [Visit(place, die, parentOp, level)]) == None
            case Some(v) =>
              Replay(START, trace + [Visit(place, die, parentOp, level)]) == Some(State(v.table, s.syms + [v.sym]))
  {
    ReplaySnoc(START, trace, Visit(place, die, parentOp, level));
  }
}
