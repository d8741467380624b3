/**
 When a parse of files stops, in terms of the files: exactly if some enumerator or subrange has no parent
 symbol, or some enumerator of an enumeration no value.
 */
module ParseStops {
  import opened Basics
  import opened Dwarf
  import opened Traversal
  import opened SymbolTable
  import opened Stops
  import opened Parses

  // The class of the symbol that the visit of the DIE returns, if it returns one.
  function ClassOfDie(files: seq<seq<Unit>>, file: nat, f: nat, p: seq<nat>): Option<Kind>
    requires IsDie(files, f, p)
  {
    VisitIs(files, file, f, p);
    ClassAt(RunOps(files, file, 0), VisitOf(files, f, p))
  }

  // The class of the symbol of its parent DIE; a top-level DIE has no parent.
  function ClassOfParent(files: seq<seq<Unit>>, file: nat, f: nat, p: seq<nat>): Option<Kind>
    requires IsDie(files, f, p)
  {
    if |p| == 1 then None
    else
      ParentPath(Roots(files[f]), p);
      ClassOfDie(files, file, f, p[..|p| - 1])
  }

  // The visit of the DIE fails an assertion or throws.
  ghost predicate StopsParse(files: seq<seq<Unit>>, file: nat, f: nat, p: seq<nat>) {
    IsDie(files, f, p)
    && (var die, parent := TheDie(files, f, p), ClassOfParent(files, file, f, p);
        || (die.tag in {EnumeratorTag, SubrangeTag} && parent == None)
        || (die.tag == EnumeratorTag && die.constValue == None && parent == Some(Enum)))
  }

  ghost predicate StopsSomewhere(files: seq<seq<Unit>>, file: nat) {
    exists f: nat, p: seq<nat> :: StopsParse(files, file, f, p)
  }

  // Every visit is to some DIE of some file.
  lemma {:induction false} DieOf(files: seq<seq<Unit>>, file: nat, start: nat, i: nat) returns (f: nat, p: seq<nat>)
    requires i < |RunOps(files, file, start)|
    ensures IsDie(files, f, p) && VisitOf(files, f, p) == i
    decreases |files|
  {
    hide UnitOps;
    var ops := UnitOps(files[0], file, 0, start);
    UnitOpsSize(files[0], file, 0, start);
    if i < |ops| {
      f := 0;
      p := PathOf(Roots(files[0]), i);
    } else {
      f, p := DieOf(files[1..], file + 1, start + |ops|, i - |ops|);
      f := f + 1;
      LaterFile(files, file, f, p);
    }
  }

  lemma {:induction false} ParentComesFirst(forest: seq<Die>, p: seq<nat>)
    requires IsPath(forest, p) && |p| > 1
    ensures IsPath(forest, p[..|p| - 1]) && Position(forest, p[..|p| - 1]) < Position(forest, p)
  {
    ParentPath(forest, p);
    PrefixIsBefore(p, |p| - 1);
    PositionIsMonotone(forest, p[..|p| - 1], p);
  }

  lemma {:induction false} PrefixIsBefore(p: seq<nat>, n: nat)
    requires n < |p|
    ensures Before(p[..n], p)
  {
    if n > 0 {
      PrefixIsBefore(p[1..], n - 1);
      assert p[..n][1..] == p[1..][..n - 1];
    }
  }

  lemma {:induction false} ParentClassIs(files: seq<seq<Unit>>, file: nat, f: nat, p: seq<nat>)
    requires IsDie(files, f, p)
    ensures VisitOf(files, f, p) < |RunOps(files, file, 0)| && RunOps(files, file, 0)[VisitOf(files, f, p)].Visit?
    ensures ParentClass(RunOps(files, file, 0), VisitOf(files, f, p)) == ClassOfParent(files, file, f, p)
  {
    hide RunOps, Size, Position, SizeBefore, TheDie, PlaceOf, ClassAt;
    FileVisitAt(files, file, 0, f, p);
    if |p| > 1 { ParentComesFirst(Roots(files[f]), p); }
  }

  lemma {:induction false} StopsAsDie(files: seq<seq<Unit>>, file: nat, f: nat, p: seq<nat>)
    requires IsDie(files, f, p)
    ensures StopsParse(files, file, f, p) <==> DieFails(RunOps(files, file, 0), VisitOf(files, f, p))
  {
    hide RunOps, VisitOf, ClassOfParent;
    VisitIs(files, file, f, p);
    ParentClassIs(files, file, f, p);
  }

  // A parse into a new manager stops exactly if some DIE of the files stops it.
  lemma {:induction false} ParseStopsIff(files: seq<seq<Unit>>, file: nat)
    requires WellFormed(files)
    ensures Replay(START, RunOps(files, file, 0)) == None <==> StopsSomewhere(files, file)
  {
    hide StopsParse, DieFails, RunOps;
    var ops := RunOps(files, file, 0);
    RunKeysWithin(files, file, 0);
    assert OnlyVisits(ops);
    VisitsStopIff(ops);
    if i: nat :| DieFails(ops, i) {
      FailsInRange(ops, i);
      var f, p := DieOf(files, file, 0, i);
      StopsAsDie(files, file, f, p);
    }
    if f: nat, p: seq<nat> :| StopsParse(files, file, f, p) {
      IsDieOf(files, file, f, p);
      StopsAsDie(files, file, f, p);
    }
  }

  lemma FailsInRange(ops: seq<Op>, i: nat)
    requires DieFails(ops, i)
    ensures i < |ops|
  {}

  lemma IsDieOf(files: seq<seq<Unit>>, file: nat, f: nat, p: seq<nat>)
    requires StopsParse(files, file, f, p)
    ensures IsDie(files, f, p)
  {}
}
