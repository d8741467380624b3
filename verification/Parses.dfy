/**
 What a parse of whole files leaves in the table, in terms of the files: every DIE is named by its file
 and its path in the forest of the file's top-level DIEs.
 */
module Parses {
  import opened Basics
  import opened Dwarf
  import opened Traversal
  import opened Subtrees
  import opened SymbolTable
  import opened Invariant
  import opened VisitKeeps
  import opened Runs
  import opened Caches
  import opened Creators
  import opened References
  import opened Functions
  import opened FunctionParams
  import opened Symbols

  // The DIEs of each file have different section offsets.
  ghost predicate WellFormed(files: seq<seq<Unit>>) {
    forall units <- files :: DistinctOffsets(Roots(units))
  }

  // `s` is the state after a parse of the files into a new manager, the first of them having the number `file`.
  ghost predicate ParsesTo(files: seq<seq<Unit>>, file: nat, s: State) {
    WellFormed(files) && Replay(START, RunOps(files, file, 0)) == Some(s)
  }

  // A parse is a run, in which every subtree is visited in one piece.
  lemma {:induction false} ParseIsRun(files: seq<seq<Unit>>, file: nat, s: State)
    requires ParsesTo(files, file, s)
    ensures RunsTo(RunOps(files, file, 0), s) && IsTree(RunOps(files, file, 0), None, 0)
  {
    RunKeysWithin(files, file, 0);
    RunIsTree(files, file, 0);
  }

  lemma {:induction false} NoFiles(file: nat, start: nat)
    ensures RunOps([], file, start) == []
  {}

  // One file, then others.
  lemma {:induction false} FileFirst(units: seq<Unit>, rest: seq<seq<Unit>>, file: nat, start: nat)
    ensures var ops := UnitOps(units, file, 0, start);
            RunOps([units] + rest, file, start) == ops + RunOps(rest, file + 1, start + |ops|)
  {
    hide UnitOps;
    assert ([units] + rest)[1..] == rest;
    RunOpsSplit([units] + rest, file, start);
  }

  // Parsing some files and then others into one manager is parsing them all.
  lemma {:induction false} ParsesAppend(a: seq<seq<Unit>>, b: seq<seq<Unit>>, file: nat, start: nat)
    ensures RunOps(a + b, file, start)
            == RunOps(a, file, start) + RunOps(b, file + |a|, start + |RunOps(a, file, start)|)
    decreases |a|
  {
    hide RunOps, UnitOps;
    if a == [] {
      assert a + b == b;
      NoFiles(file, start);
    } else {
      ParsesAppend(a[1..], b, file + 1, start + |UnitOps(a[0], file, 0, start)|);
      AppendStep(a[0], a[1..], b, file, start);
      assert a == [a[0]] + a[1..];
    }
  }

  lemma {:induction false} AppendStep(units: seq<Unit>, a: seq<seq<Unit>>, b: seq<seq<Unit>>, file: nat, start: nat)
    requires var next := start + |UnitOps(units, file, 0, start)|;
             RunOps(a + b, file + 1, next)
             == RunOps(a, file + 1, next) + RunOps(b, file + 1 + |a|, next + |RunOps(a, file + 1, next)|)
    ensures var all := [units] + a;
            RunOps(all + b, file, start)
            == RunOps(all, file, start) + RunOps(b, file + |all|, start + |RunOps(all, file, start)|)
  {
    hide UnitOps, RunOps;
    var ops := UnitOps(units, file, 0, start);
    var first := RunOps(a, file + 1, start + |ops|);
    FileFirst(units, a, file, start);
    FileFirst(units, a + b, file, start);
    assert [units] + a + b == [units] + (a + b);
    Associative(ops, first, RunOps(b, file + 1 + |a|, start + |ops| + |first|));
  }

  // The table that the parser leaves in a new symbol manager is consistent, its caches are right.
  lemma {:induction false} ParsedTableIsConsistent(files: seq<seq<Unit>>, file: nat, manager: SymbolManager)
    requires WellFormed(files) && manager.Reached(RunOps(files, file, 0), [])
    ensures Inv(manager.Contents()) && Coherent(manager.Contents())
  {
    var s := State(manager.Contents(), manager.results);
    ParseIsRun(files, file, s);
    RunKeepsTable(RunOps(files, file, 0), s);
    CachesAreCoherent(RunOps(files, file, 0), s);
  }

  // ---- where a DIE is visited ----

  // The number of DIEs in the files before file `f`.
  function SizeBefore(files: seq<seq<Unit>>, f: nat): nat
    requires f <= |files|
  {
    if f == 0 then 0 else Size(Roots(files[0])) + SizeBefore(files[1..], f - 1)
  }

  predicate IsDie(files: seq<seq<Unit>>, f: nat, p: seq<nat>) {
    f < |files| && IsPath(Roots(files[f]), p)
  }

  function VisitOf(files: seq<seq<Unit>>, f: nat, p: seq<nat>): nat
    requires IsDie(files, f, p)
  {
    SizeBefore(files, f) + Position(Roots(files[f]), p)
  }

  function TheDie(files: seq<seq<Unit>>, f: nat, p: seq<nat>): Die
    requires IsDie(files, f, p)
  {
    DieAt(Roots(files[f]), p)
  }

  // The file's number and the header offset of the DIE's own unit.
  function PlaceOf(files: seq<seq<Unit>>, file: nat, f: nat, p: seq<nat>): Place
    requires IsDie(files, f, p)
  {
    Place(file + f, Header(files[f], 0, p[0]))
  }

  lemma {:induction false} FileVisitAt(files: seq<seq<Unit>>, file: nat, start: nat, f: nat, p: seq<nat>)
    requires IsDie(files, f, p)
    ensures VisitsAt(RunOps(files, file, start), VisitOf(files, f, p), PlaceOf(files, file, f, p), TheDie(files, f, p),
                     ParentOp(Roots(files[f]), p, None, start + SizeBefore(files, f)), |p| - 1)
    decreases f
  {
    hide VisitsAt, RunOps, TheDie, ParentOp;
    if f == 0 {
      FirstFileVisitAt(files, file, start, p);
    } else {
      FileVisitAt(files[1..], file + 1, start + Size(Roots(files[0])), f - 1, p);
      LaterFileVisitAt(files, file, start, f, p);
    }
  }

  lemma {:induction false} FirstFileVisitAt(files: seq<seq<Unit>>, file: nat, start: nat, p: seq<nat>)
    requires IsDie(files, 0, p)
    ensures VisitsAt(RunOps(files, file, start), VisitOf(files, 0, p), PlaceOf(files, file, 0, p), TheDie(files, 0, p),
                     ParentOp(Roots(files[0]), p, None, start), |p| - 1)
  {
    var ops := UnitOps(files[0], file, 0, start);
    UnitVisitAt(files[0], file, 0, start, p);
    FirstFile(ops, RunOps(files[1..], file + 1, start + |ops|), VisitOf(files, 0, p), PlaceOf(files, file, 0, p),
              TheDie(files, 0, p), ParentOp(Roots(files[0]), p, None, start), |p| - 1);
  }

  lemma LaterFileVisitAt(files: seq<seq<Unit>>, file: nat, start: nat, f: nat, p: seq<nat>)
    requires IsDie(files, f, p) && f > 0
    requires var next := start + Size(Roots(files[0]));
             VisitsAt(RunOps(files[1..], file + 1, next), VisitOf(files[1..], f - 1, p),
               PlaceOf(files[1..], file + 1, f - 1, p),
                      TheDie(files[1..], f - 1, p),
                      ParentOp(Roots(files[1..][f - 1]), p, None, next + SizeBefore(files[1..], f - 1)), |p| - 1)
    ensures VisitsAt(RunOps(files, file, start), VisitOf(files, f, p), PlaceOf(files, file, f, p), TheDie(files, f, p),
                     ParentOp(Roots(files[f]), p, None, start + SizeBefore(files, f)), |p| - 1)
  {
    hide UnitOps, VisitsAt, TheDie, ParentOp;
    var ops := UnitOps(files[0], file, 0, start);
    UnitOpsSize(files[0], file, 0, start);
    LaterFile(files, file, f, p);
    OtherFile(ops, RunOps(files[1..], file + 1, start + |ops|), VisitOf(files[1..], f - 1, p),
      PlaceOf(files, file, f, p),
              TheDie(files, f, p), ParentOp(Roots(files[f]), p, None, start + SizeBefore(files, f)), |p| - 1);
  }

  // A DIE of a file after the first one, seen from the other files.
  lemma LaterFile(files: seq<seq<Unit>>, file: nat, f: nat, p: seq<nat>)
    requires IsDie(files, f, p) && f > 0
    ensures IsDie(files[1..], f - 1, p) && files[1..][f - 1] == files[f]
    ensures PlaceOf(files[1..], file + 1, f - 1, p) == PlaceOf(files, file, f, p)
    ensures TheDie(files[1..], f - 1, p) == TheDie(files, f, p)
    ensures SizeBefore(files, f) == Size(Roots(files[0])) + SizeBefore(files[1..], f - 1)
    ensures VisitOf(files, f, p) == Size(Roots(files[0])) + VisitOf(files[1..], f - 1, p)
  {}

  lemma FirstFile(a: seq<Op>, b: seq<Op>, k: nat, place: Place, die: Die, op: Option<nat>, depth: nat)
    requires VisitsAt(a, k, place, die, op, depth)
    ensures VisitsAt(a + b, k, place, die, op, depth)
  {}

  lemma OtherFile(a: seq<Op>, b: seq<Op>, k: nat, place: Place, die: Die, op: Option<nat>, depth: nat)
    requires VisitsAt(b, k, place, die, op, depth)
    ensures VisitsAt(a + b, |a| + k, place, die, op, depth)
  {}

  lemma {:induction false} VisitIs(files: seq<seq<Unit>>, file: nat, f: nat, p: seq<nat>)
    requires IsDie(files, f, p)
    ensures VisitOf(files, f, p) < |RunOps(files, file, 0)|
    ensures var op := RunOps(files, file, 0)[VisitOf(files, f, p)];
            op.Visit? && op.die == TheDie(files, f, p) && op.place == PlaceOf(files, file, f, p)
  {
    FileVisitAt(files, file, 0, f, p);
  }

  // ---- what became of a DIE ----

  // The symbol that the visit of the DIE returned.
  function SymbolOf(files: seq<seq<Unit>>, s: State, f: nat, p: seq<nat>): Option<Handle>
    requires IsDie(files, f, p)
  {
    if VisitOf(files, f, p) < |s.syms| then s.syms[VisitOf(files, f, p)] else None
  }

  // The operation that created the symbol of the DIE, told from the DIEs of the files.
  function CreatorOf(files: seq<seq<Unit>>, file: nat, f: nat, p: seq<nat>): Option<nat>
    requires IsDie(files, f, p)
  {
    var ops, i := RunOps(files, file, 0), VisitOf(files, f, p);
    if i < |ops| && Registers(ops[i]) then Creator(ops, i) else None
  }

  /**
   A DIE of one of the classes that register resolves to its symbol for the rest of the parse, and the
   symbol has the DIE's name and the class the DIE asks for; only a DIE without a creator has no symbol.
   */
  lemma {:induction false} DieResolves(files: seq<seq<Unit>>, file: nat, s: State, f: nat, p: seq<nat>)
    requires ParsesTo(files, file, s) && IsDie(files, f, p) && Wanted(TheDie(files, f, p)).Some?
    ensures SymbolOf(files, s, f, p).Some? <==> CreatorOf(files, file, f, p).Some?
    ensures SymbolOf(files, s, f, p).Some? ==>
              ResolvesTo(s.table, (TheDie(files, f, p).offset, file + f), TheDie(files, f, p),
                SymbolOf(files, s, f, p).value)
              && Created(RunOps(files, file, 0), s, CreatorOf(files, file, f, p).value, SymbolOf(files, s, f, p).value)
  {
    hide RunOps, ResolvesTo;
    ParseIsRun(files, file, s);
    VisitIs(files, file, f, p);
    VisitResolves(RunOps(files, file, 0), s, VisitOf(files, f, p));
  }

  lemma VisitResolves(ops: seq<Op>, s: State, i: nat)
    requires RunsTo(ops, s) && i < |ops| && Registers(ops[i])
    ensures |s.syms| == |ops| && (s.syms[i].Some? <==> Creator(ops, i).Some?)
    ensures s.syms[i].Some? ==>
              ResolvesTo(s.table, DieKey(ops[i].place, ops[i].die), ops[i].die, s.syms[i].value)
              && Created(ops, s, Creator(ops, i).value, s.syms[i].value)
  {
    CreatorIsRight(ops, s, i);
    RunKeepsTable(ops, s);
    assert ResolvedAt(s.table, ops[i], s.syms[i]);
  }

  // The DIE at `p` has a DW_AT_type, which is the offset of the DIE at `q` from the header of the first one's unit.
  ghost predicate NamesDie(files: seq<seq<Unit>>, f: nat, p: seq<nat>, q: seq<nat>)
    requires IsDie(files, f, p) && IsDie(files, f, q)
  {
    TheDie(files, f, p).typeRef.Some?
    && TheDie(files, f, q).offset == (TheDie(files, f, p).typeRef.value + Header(files[f], 0, p[0])) % U64
  }

  /**
   The DW_AT_type of a DIE, a ref4 value relative to the header of its own unit, names the DIE of the file
   at that offset: the object that the DIE created refers to the symbol of that DIE, whichever of the two
   was visited first.
   */
  lemma {:induction false} ReferenceIsTheTarget(files: seq<seq<Unit>>, file: nat, s: State, f: nat, p: seq<nat>,
                                                q: seq<nat>, h: Handle)
    requires ParsesTo(files, file, s) && IsDie(files, f, p) && IsDie(files, f, q)
    requires NamesDie(files, f, p, q)
    requires CreatorOf(files, file, f, q).Some? && Created(RunOps(files, file, 0), s, VisitOf(files, f, p), h)
    requires IsTyped(s.table.objects[h].kind)
    ensures SymbolOf(files, s, f, q).Some? && Find(s.table, s.table.objects[h].typ) == SymbolOf(files, s, f, q)
  {
    ParseIsRun(files, file, s);
    VisitIs(files, file, f, p);
    VisitIs(files, file, f, q);
    TargetKey(files, file, f, p, q);
    TypeAgrees(RunOps(files, file, 0), s, VisitOf(files, f, p), h);
    assert VisitsKey(RunOps(files, file, 0), VisitOf(files, f, q),
                     DieKey(PlaceOf(files, file, f, q), TheDie(files, f, q)));
  }

  // The key of a reference is that of the DIE it names.
  lemma TargetKey(files: seq<seq<Unit>>, file: nat, f: nat, p: seq<nat>, q: seq<nat>)
    requires IsDie(files, f, p) && IsDie(files, f, q) && NamesDie(files, f, p, q)
    ensures DieKey(PlaceOf(files, file, f, q), TheDie(files, f, q))
            == RefKey(PlaceOf(files, file, f, p), TheDie(files, f, p).typeRef.value)
  {}

  // The parent symbol of a visit is the symbol of the DIE's parent.
  lemma {:induction false} ParentSymbol(files: seq<seq<Unit>>, file: nat, s: State, f: nat, p: seq<nat>)
    requires ParsesTo(files, file, s) && IsDie(files, f, p) && |p| > 1
    ensures IsDie(files, f, p[..|p| - 1]) && VisitOf(files, f, p) < |RunOps(files, file, 0)|
    ensures var op := RunOps(files, file, 0)[VisitOf(files, f, p)];
            op.Visit? && ParentSym(s.syms, op.parent) == SymbolOf(files, s, f, p[..|p| - 1])
  {
    hide RunOps, Size, Position, SizeBefore, TheDie, PlaceOf;
    ParentPath(Roots(files[f]), p);
    FileVisitAt(files, file, 0, f, p);
  }

  /**
   The parameters of a function are those typed formal parameters of the first subprogram DIE of its name in
   the files that come before any further one, exactly if no base type DIE of that name has one before that;
   and these are all of the first DIE's, exactly if no further one is nested in it before one of them.
   */
  lemma {:induction false} ParsedParamsIff(files: seq<seq<Unit>>, file: nat, s: State, f: nat, p: seq<nat>)
    requires ParsesTo(files, file, s) && IsDie(files, f, p)
    requires IsFirstDie(RunOps(files, file, 0), VisitOf(files, f, p))
    ensures SymbolOf(files, s, f, p).Some? && SymbolOf(files, s, f, p).value < |s.table.objects|
    ensures var ops, k, x := RunOps(files, file, 0), VisitOf(files, f, p),
            s.table.objects[SymbolOf(files, s, f, p).value];
            && x.kind == Func && x.name == TheDie(files, f, p).name
            && (ParamsStored(s.table.ids, x.params, EarlyFormals(ops, k, |ops|)) <==> !HasStray(ops, k, |ops|))
            && (EarlyFormals(ops, k, |ops|) == TypedFormals(TheDie(files, f, p).children, PlaceOf(files, file, f, p))
                <==> !HasLate(ops, k, |ops|))
  {
    hide RunOps, IsFirstDie, RunsTo, IsTree, TypedFormals, EarlyFormals, HasStray, HasLate, ParamsStored;
    ParseIsRun(files, file, s);
    VisitIs(files, file, f, p);
    ParamsAreThoseOfFirstDieIff(RunOps(files, file, 0), s, VisitOf(files, f, p));
  }
}
