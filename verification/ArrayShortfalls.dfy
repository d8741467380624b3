/**
 Parses after which cleanArrays deletes an array that is still needed: as the element type of one that it
 keeps, and as what a lookup by name finds.
 */
module ArrayShortfalls {
  import opened Basics
  import opened Dwarf
  import opened SymbolTable
  import opened Invariant
  import opened VisitKeeps
  import opened Runs
  import opened Creators
  import opened Containers
  import opened Mentions
  import opened PartHistories
  import opened References
  import opened CleanupSpec
  import opened Sweeping
  import opened Duplicates
  import opened Liveness
  import opened Passes
  import opened NameLookups
  import opened Shortfalls

  // ---- runs with arrays do not stop ----

  predicate IsArrayDie(op: Op) {
    op.Visit? && op.die.tag == ArrayTag
  }

  // A visit that cannot stop, or one of a subrange below an array.
  predicate IsSafe(ops: seq<Op>, i: nat)
    requires i < |ops|
  {
    || CannotStop(ops[i])
    || (ops[i].Visit? && ops[i].die.tag == SubrangeTag && ops[i].parent.Some? && ops[i].parent.value < i
        && IsArrayDie(ops[ops[i].parent.value]))
  }

  // The visits of arrays returned symbols.
  ghost predicate ArraysReturned(ops: seq<Op>, s: State) {
    |s.syms| == |ops| && forall i: nat | i < |ops| && IsArrayDie(ops[i]) :: s.syms[i].Some?
  }

  lemma SafeStep(ops: seq<Op>, n: nat, s: State) returns (s1: State)
    requires n < |ops| && IsSafe(ops, n) && ArraysReturned(ops[..n], s)
    ensures Step(s, ops[n]) == Some(s1) && ArraysReturned(ops[..n + 1], s1)
  {
    if !CannotStop(ops[n]) { assert IsArrayDie(ops[..n][ops[n].parent.value]); }
    s1 := Step(s, ops[n]).value;
    forall i: nat | i < n + 1 && IsArrayDie(ops[..n + 1][i]) ensures s1.syms[i].Some? {
      if i < n { assert IsArrayDie(ops[..n][i]); }
    }
  }

  lemma {:induction false} SafeRuns(ops: seq<Op>, n: nat) returns (s: State)
    requires n <= |ops| && forall i: nat | i < |ops| :: IsSafe(ops, i)
    ensures Replay(START, ops[..n]) == Some(s) && ArraysReturned(ops[..n], s)
  {
    hide Step, IsSafe, ArraysReturned;
    if n == 0 {
      s := START;
      NoneReturned(ops);
    } else {
      var s0 := SafeRuns(ops, n - 1);
      s := SafeStep(ops, n - 1, s0);
      assert ops[..n] == ops[..n - 1] + [ops[n - 1]];
      ReplaySnoc(START, ops[..n - 1], ops[n - 1]);
    }
  }

  lemma NoneReturned(ops: seq<Op>)
    ensures ArraysReturned(ops[..0], START) && Replay(START, ops[..0]) == Some(START)
  {}

  // ---- arrays and their lengths ----

  // Operation `j` visits an array whose DW_AT_type names the DIE of operation `i`.
  ghost predicate IsArrayOf(ops: seq<Op>, j: nat, i: nat) {
    && j < |ops| && IsArrayDie(ops[j]) && ops[j].die.typeRef.Some?
    && VisitsKey(ops, i, RefKey(ops[j].place, ops[j].die.typeRef.value))
  }

  // Operation `b` visits the one subrange of the array of operation `j`, which gives it `length` elements.
  predicate IsBoundOf(ops: seq<Op>, b: nat, j: nat, length: nat) {
    && j < b < |ops| && ops[b].Visit? && ops[b].die.tag == SubrangeTag && ops[b].parent == Some(j)
    && ops[b].die.upperBound.Some? && (ops[b].die.upperBound.value + 1) % U64 == length
  }

  // No operation from `lo` up to `hi` is a subrange of `h`.
  ghost predicate NoBounds(ops: seq<Op>, syms: seq<Option<Handle>>, h: Handle, lo: nat, hi: nat) {
    hi <= |ops| == |syms| && forall i: nat | lo <= i < hi :: !IsPartOf(ops[i], syms[..i], h, SubrangeTag)
  }

  lemma {:induction false} LengthIs(ops: seq<Op>, syms: seq<Option<Handle>>, h: Handle, b: nat, n: nat)
    requires b < n <= |ops| == |syms| && IsPartOf(ops[b], syms[..b], h, SubrangeTag) && ops[b].die.upperBound.Some?
    requires NoBounds(ops, syms, h, b + 1, n)
    ensures LastLength(ops[..n], syms[..n], h) == (ops[b].die.upperBound.value + 1) % U64
  {
    var m := n - 1;
    assert ops[..n][..m] == ops[..m] && syms[..n][..m] == syms[..m];
    if b < m { LengthIs(ops, syms, h, b, m); }
  }

  lemma {:induction false} NoLength(ops: seq<Op>, syms: seq<Option<Handle>>, h: Handle)
    requires |ops| == |syms| && forall op <- ops :: op.Visit? ==> op.die.tag != SubrangeTag
    ensures LastLength(ops, syms, h) == 0
  {
    if ops != [] {
      assert ops[|ops| - 1] in ops;
      NoLength(ops[..|ops| - 1], syms[..|ops| - 1], h);
    }
  }

  // The object of an array that the run created: where it is listed and what its type resolves to.
  lemma ArrayIs(ops: seq<Op>, s: State, j: nat, i: nat) returns (h: Handle)
    requires RunsTo(ops, s) && IsArrayOf(ops, j, i)
    ensures |s.syms| == |ops| && s.syms[j] == Some(h) && Created(ops, s, j, h) && s.table.objects[h].kind == Array
    ensures h in s.table.names.arrays && s.table.objects[h].name == ops[j].die.name
    ensures s.syms[i].Some? && Find(s.table, s.table.objects[h].typ) == s.syms[i] && s.table.objects[h].typ != 0
  {
    h := CreatedBy(ops, s, j);
    ArrayIsListed(ops, s, h);
    TypeAgrees(ops, s, j, h);
    assert VisitsKey(ops, i, RefKey(ops[j].place, ops[j].die.typeRef.value));
  }

  lemma ArrayIsListed(ops: seq<Op>, s: State, h: Handle)
    requires RunsTo(ops, s) && h < |s.table.objects| && s.table.objects[h].kind == Array
    ensures h in s.table.names.arrays && Find(s.table, 0) == None
  {
    RunKeepsTable(ops, s);
  }

  // The array that the run made of its subrange.
  lemma BoundIs(ops: seq<Op>, s: State, j: nat, h: Handle, b: nat, length: nat)
    requires RunsTo(ops, s) && Created(ops, s, j, h) && s.table.objects[h].kind == Array && IsBoundOf(ops, b, j, length)
    requires NoBounds(ops, s.syms, h, b + 1, |ops|)
    ensures s.table.objects[h].length == length
  {
    assert s.syms[..b][j] == Some(h);
    LengthIs(ops, s.syms, h, b, |ops|);
    assert ops[..|ops|] == ops && s.syms[..|ops|] == s.syms;
    ObjectsAgree(ops, s, h);
  }

  // Subranges of other arrays.
  lemma OtherBound(ops: seq<Op>, s: State, b: nat, j: nat, length: nat, k: nat, h: Handle, g: Handle)
    requires RunsTo(ops, s) && IsBoundOf(ops, b, j, length) && Created(ops, s, j, g) && Created(ops, s, k, h) && j != k
    ensures |s.syms| == |ops| && !IsPartOf(ops[b], s.syms[..b], h, SubrangeTag)
  {
    assert s.syms[..b][j] == Some(g);
    if g == h { CreatedOnce(ops, s, j, k, h); }
  }

  // The array created by an operation that the first `i` come before has the greater id.
  lemma LaterId(ops: seq<Op>, s: State, i: nat, j: nat, g: Handle, k: nat, h: Handle)
    requires RunsTo(ops, s) && j < i <= |ops| && Created(ops, s, j, g) && Created(ops, s, k, h) && Registers(ops[j])
    requires Creator(ops[..i], j) == Some(j) && !IsMentioned(ops[..i], DieKey(ops[k].place, ops[k].die))
    ensures s.table.objects[g].id < s.table.objects[h].id
  {
    var mid := StateBefore(ops, s, i);
    CreatorIsRight(ops[..i], mid, j);
    IdOrder(ops, s, i, mid, DieKey(ops[j].place, ops[j].die), DieKey(ops[k].place, ops[k].die));
  }

  // ---- cleanArrays deletes an array that is still referred to ----

  function BoundedDie(offset: u64, bound: u64): Die {
    NamedDie(offset, SubrangeTag, "", None, []).(upperBound := Some(bound))
  }

  // int, two arrays of three, and an array of two whose elements have the second one's type.
  const ROWS: seq<Op> := [
    Visit(HERE, NamedDie(10, BaseTag, "int", None, []), None, 1),
    Visit(HERE, NamedDie(20, ArrayTag, "", Some(10), [BoundedDie(21, 2)]), None, 1),
    Visit(HERE, BoundedDie(21, 2), Some(1), 2),
    Visit(HERE, NamedDie(30, ArrayTag, "", Some(10), [BoundedDie(31, 2)]), None, 1),
    Visit(HERE, BoundedDie(31, 2), Some(3), 2),
    Visit(HERE, NamedDie(40, ArrayTag, "", Some(30), [BoundedDie(41, 1)]), None, 1),
    Visit(HERE, BoundedDie(41, 1), Some(5), 2)]

  // What the run of the operations needs to go on.
  ghost predicate Runs7(ops: seq<Op>) {
    |ops| == 7 && DistinctKeys(ops) && forall i: nat | i < |ops| :: IsSafe(ops, i)
  }

  ghost predicate HasRows(ops: seq<Op>) {
    && |ops| == 7 && IsArrayOf(ops, 1, 0) && IsArrayOf(ops, 3, 0) && IsArrayOf(ops, 5, 3)
    && IsBoundOf(ops, 2, 1, 3) && IsBoundOf(ops, 4, 3, 3) && IsBoundOf(ops, 6, 5, 2)
    && ops[0].Visit? && ops[0].die.tag == BaseTag && ReferencesVisited(ops)
  }

  // The second array is not mentioned before its own DIE.
  ghost predicate SecondIsNew(ops: seq<Op>) {
    && |ops| == 7 && ops[3].Visit? && !IsMentioned(ops[..1], DieKey(ops[3].place, ops[3].die))
    && !IsMentioned(ops[..3], DieKey(ops[3].place, ops[3].die))
  }

  lemma RowsRun()
    ensures Runs7(ROWS)
  {}

  lemma RowsCreators()
    ensures Creator(ROWS, 0).Some? && Creator(ROWS, 3).Some?
  {
    var _ := FirstOffer(ROWS, 0, "int", Base);
  }

  lemma RowsKeys()
    ensures IsArrayOf(ROWS, 1, 0) && IsArrayOf(ROWS, 3, 0) && IsArrayOf(ROWS, 5, 3)
  {
    hide Creator;
    RowsCreators();
  }

  lemma RowsVisited()
    ensures ReferencesVisited(ROWS)
  {
    RowsKeys();
    assert forall op <- ROWS | op.Visit? && op.die.typeRef.Some? :: op == ROWS[1] || op == ROWS[3] || op == ROWS[5];
  }

  lemma RowsHasRows()
    ensures HasRows(ROWS)
  {
    hide ReferencesVisited, VisitsKey;
    RowsKeys();
    RowsVisited();
  }

  lemma RowsSecondIsNew()
    ensures SecondIsNew(ROWS)
  {
    assert forall op <- ROWS[..1] :: op == ROWS[0];
    assert forall op <- ROWS[..3] :: op == ROWS[0] || op == ROWS[1] || op == ROWS[2];
  }

  // The table of such a run: the base type, the two arrays of three and the array of two.
  ghost predicate HoldsRows(t: Table, g: Handle, a: Handle, b: Handle, c: Handle) {
    && a < |t.objects| && b < |t.objects| && c < |t.objects| && g < |t.objects| && g != b
    && a in t.names.arrays && b in t.names.arrays && c in t.names.arrays
    && (forall h <- t.names.arrays :: h == a || h == b || h == c)
    && t.objects[a].typ != 0 && t.objects[b].typ != 0 && t.objects[c].typ != 0
    && Find(t, t.objects[a].typ) == Find(t, t.objects[b].typ) == Some(g) && Find(t, t.objects[c].typ) == Some(b)
    && t.objects[a].length == t.objects[b].length == 3 && t.objects[c].length == 2
    && t.objects[g].id < t.objects[b].id && t.objects[a].id < t.objects[b].id
  }

  // The visit that created a listed array.
  lemma ArrayMaker(ops: seq<Op>, s: State, h: Handle) returns (j: nat)
    requires RunsTo(ops, s) && h in s.table.names.arrays
    ensures j < |ops| && Created(ops, s, j, h) && IsArrayDie(ops[j])
  {
    hide Inv, Created, RunOk;
    RunKeepsTable(ops, s);
    var end := StateBefore(ops, s, |ops|);
    assert ops[..|ops|] == ops;
    ListedIsArray(s.table, h);
    j := MakerOf(ops, s, |ops|, end, h);
  }

  lemma ListedIsArray(t: Table, h: Handle)
    requires Inv(t) && h in t.names.arrays
    ensures h < |t.objects| && t.objects[h].kind == Array
  {}

  // The arrays of the table are those that the three visits created.
  lemma OnlyThree(ops: seq<Op>, s: State, a: Handle, b: Handle, c: Handle, h: Handle)
    requires RunsTo(ops, s) && HasRows(ops) && h in s.table.names.arrays
    requires Created(ops, s, 1, a) && Created(ops, s, 3, b) && Created(ops, s, 5, c)
    ensures h == a || h == b || h == c
  {
    hide RunsTo, Created, ReferencesVisited, VisitsKey;
    var j := ArrayMaker(ops, s, h);
    SameObject(ops, s, j, h, 1, a);
    SameObject(ops, s, j, h, 3, b);
    SameObject(ops, s, j, h, 5, c);
  }

  lemma RowLengths(ops: seq<Op>, s: State, a: Handle, b: Handle, c: Handle)
    requires RunsTo(ops, s) && HasRows(ops) && |s.syms| == |ops|
    requires Created(ops, s, 1, a) && Created(ops, s, 3, b) && Created(ops, s, 5, c)
    requires s.table.objects[a].kind == s.table.objects[b].kind == s.table.objects[c].kind == Array
    ensures s.table.objects[a].length == s.table.objects[b].length == 3 && s.table.objects[c].length == 2
  {
    hide ReferencesVisited, VisitsKey, RunsTo, Created;
    OtherBound(ops, s, 4, 3, 3, 1, a, b);
    OtherBound(ops, s, 6, 5, 2, 1, a, c);
    BoundIs(ops, s, 1, a, 2, 3);
    OtherBound(ops, s, 6, 5, 2, 3, b, c);
    BoundIs(ops, s, 3, b, 4, 3);
    BoundIs(ops, s, 5, c, 6, 2);
  }

  lemma RowIds(ops: seq<Op>, s: State, g: Handle, a: Handle, b: Handle)
    requires RunsTo(ops, s) && HasRows(ops) && SecondIsNew(ops)
    requires Created(ops, s, 0, g) && Created(ops, s, 1, a) && Created(ops, s, 3, b)
    ensures s.table.objects[g].id < s.table.objects[b].id && s.table.objects[a].id < s.table.objects[b].id
  {
    LaterId(ops, s, 1, 0, g, 3, b);
    LaterId(ops, s, 3, 1, a, 3, b);
  }

  lemma RowsTable(ops: seq<Op>, s: State) returns (g: Handle, a: Handle, b: Handle, c: Handle)
    requires RunsTo(ops, s) && HasRows(ops) && SecondIsNew(ops)
    ensures HoldsRows(s.table, g, a, b, c)
  {
    g := CreatedBy(ops, s, 0);
    a := ArrayIs(ops, s, 1, 0);
    b := ArrayIs(ops, s, 3, 0);
    c := ArrayIs(ops, s, 5, 3);
    RowLengths(ops, s, a, b, c);
    RowIds(ops, s, g, a, b);
    forall h | h in s.table.names.arrays ensures h == a || h == b || h == c { OnlyThree(ops, s, a, b, c, h); }
  }

  // ---- what cleanArrays makes of it ----

  lemma RowDuplicates(t: Table, g: Handle, a: Handle, b: Handle, c: Handle)
    requires HoldsRows(t, g, a, b, c) && Listed(t, t.names.arrays)
    ensures IsDuplicateArray(t, b) && !IsDuplicateArray(t, c)
  {
    assert SameArray(t, t.objects[a], t.objects[b]);
    forall m: nat | m < |t.objects| && m in t.names.arrays && SameArray(t, t.objects[m], t.objects[c])
      ensures t.objects[m].id >= t.objects[c].id
    {
      assert m != a && m != b;
    }
  }

  // The array of two stays in the vector: an array of three sorts before it.
  lemma RowIsKept(t: Table, g: Handle, a: Handle, b: Handle, c: Handle)
    requires HoldsRows(t, g, a, b, c) && Listed(t, t.names.arrays)
    ensures Within(t.names.arrays, |t.objects|) && c in CleanArrays(t).table.names.arrays
  {
    ArrayCleanup.KeptExactly(t, c);
    RowDuplicates(t, g, a, b, c);
    MinimalIsNoDuplicate(t, c);
    ArrayCleanup.PassObjects(t);
    var objects := CleanArrays(t).table.objects;
    assert objects[a].typ == t.objects[g].id && objects[c].typ == t.objects[b].id;
    assert !ArrayLess(objects[c], objects[a]) && a != c;
    var i: nat :| i < |t.names.arrays| && t.names.arrays[i] == a;
  }

  /**
   Of the two arrays of three the second is deleted, while the array of two, which is kept, still refers to
   it: the next cleanArrays would read freed memory.
   */
  lemma RowsPass(t: Table, g: Handle, a: Handle, b: Handle, c: Handle)
    requires HoldsRows(t, g, a, b, c) && IsSettled(t, [])
    ensures Within(t.names.arrays, |t.objects|) && |CleanArrays(t).table.objects| == |t.objects|
    ensures var r := CleanArrays(t);
            && b in r.deleted && c !in r.deleted && c in r.table.names.arrays
            && Find(r.table, r.table.objects[c].typ) == Some(b) && !ArraysCleanable(r.table, r.deleted)
  {
    SettledIsCleanable(t, []);
    RowDuplicates(t, g, a, b, c);
    RowIsKept(t, g, a, b, c);
    KeptRefersToDeleted(t, c, b);
    ArraysAfterCleanArraysIff(t, []);
    NoneBefore(CleanArrays(t).deleted);
    assert FindsDuplicateArray(t, t.objects[c].typ);
  }

  // The same at the end of a parse.
  lemma DeletedArrayIsReferredTo() returns (s: State, b: Handle, c: Handle)
    ensures RunsTo(ROWS, s) && IsSettled(s.table, []) && c < |s.table.objects|
    ensures Within(s.table.names.arrays, |s.table.objects|)
    ensures |CleanArrays(s.table).table.objects| == |s.table.objects|
    ensures var r := CleanArrays(s.table);
            && b in r.deleted && c !in r.deleted && c in r.table.names.arrays
            && Find(r.table, r.table.objects[c].typ) == Some(b) && !ArraysCleanable(r.table, r.deleted)
  {
    hide HasRows, SecondIsNew, HoldsRows, IsSettled, ArraysCleanable, CleanArrays, Runs7;
    RowsRun();
    RowsHasRows();
    RowsSecondIsNew();
    s := RunOf7(ROWS);
    b, c := RowsEnd(ROWS, s);
  }

  lemma RunOf7(ops: seq<Op>) returns (s: State)
    requires Runs7(ops)
    ensures RunsTo(ops, s)
  {
    s := SafeRuns(ops, |ops|);
    assert ops[..|ops|] == ops;
  }

  lemma RowsEnd(ops: seq<Op>, s: State) returns (b: Handle, c: Handle)
    requires RunsTo(ops, s) && HasRows(ops) && SecondIsNew(ops)
    ensures IsSettled(s.table, []) && c < |s.table.objects|
    ensures Within(s.table.names.arrays, |s.table.objects|)
    ensures |CleanArrays(s.table).table.objects| == |s.table.objects|
    ensures var r := CleanArrays(s.table);
            && b in r.deleted && c !in r.deleted && c in r.table.names.arrays
            && Find(r.table, r.table.objects[c].typ) == Some(b) && !ArraysCleanable(r.table, r.deleted)
  {
    hide IsSettled, ArraysCleanable, CleanArrays, RunsTo, SecondIsNew;
    ParseSettles(ops, s);
    var g, a: Handle;
    g, a, b, c := RowsTable(ops, s);
    RowsPass(s.table, g, a, b, c);
  }

  // ---- a lookup by name finds a deleted array ----

  // typedef b[] t, array a, array b, both named "a" with elements of type int: the typedef mentions the
  // second array before the first one is visited.
  const NAMESAKES: seq<Op> := [
    Visit(HERE, NamedDie(10, TypedefTag, "t", Some(30), []), None, 1),
    Visit(HERE, NamedDie(20, ArrayTag, "a", Some(40), []), None, 1),
    Visit(HERE, NamedDie(30, ArrayTag, "a", Some(40), []), None, 1),
    Visit(HERE, NamedDie(40, BaseTag, "int", None, []), None, 1)]

  ghost predicate HasNamesakes(ops: seq<Op>) {
    && |ops| == 4 && IsArrayOf(ops, 1, 3) && IsArrayOf(ops, 2, 3) && ops[1].die.name == ops[2].die.name == "a"
    && IsTypedefOf(ops, 0, 2) && Creator(ops[..1], 0) == Some(0)
    && !IsMentioned(ops[..1], DieKey(ops[1].place, ops[1].die))
    && forall op <- ops :: op.Visit? && op.die.tag != SubrangeTag
  }

  lemma NamesakesRun()
    ensures DistinctKeys(NAMESAKES) && forall op <- NAMESAKES :: CannotStop(op)
  {}

  lemma NamesakesKeys()
    ensures IsArrayOf(NAMESAKES, 1, 3) && IsArrayOf(NAMESAKES, 2, 3) && IsTypedefOf(NAMESAKES, 0, 2)
  {
    hide Creator;
    NamesakesCreators();
  }

  lemma NamesakesCreators()
    ensures Creator(NAMESAKES, 2).Some? && Creator(NAMESAKES, 3).Some?
  {
    var _ := FirstOffer(NAMESAKES, 3, "int", Base);
  }

  lemma NamesakesAre()
    ensures HasNamesakes(NAMESAKES)
  {
    hide VisitsKey;
    NamesakesKeys();
    assert forall op <- NAMESAKES[..1] :: op == NAMESAKES[0];
  }

  // The id of the second array is issued first.
  lemma SecondIsSmaller(ops: seq<Op>, s: State, p: Handle, q: Handle)
    requires RunsTo(ops, s) && HasNamesakes(ops) && Created(ops, s, 1, p) && Created(ops, s, 2, q)
    ensures s.table.objects[q].id < s.table.objects[p].id
  {
    hide Replay, Inv;
    var mid := StateBefore(ops, s, 1);
    var key := DieKey(ops[2].place, ops[2].die);
    TypedefKnows(ops[..1], mid);
    IdOrder(ops, s, 1, mid, key, DieKey(ops[1].place, ops[1].die));
  }

  lemma TypedefKnows(ops: seq<Op>, s: State)
    requires RunsTo(ops, s) && |ops| == 1 && Registers(ops[0]) && Wanted(ops[0].die) == Some(Typedef)
    requires ops[0].die.typeRef.Some? && Creator(ops, 0) == Some(0)
    ensures RefKey(ops[0].place, ops[0].die.typeRef.value) in s.table.ids.byKey
  {
    var h := CreatedBy(ops, s, 0);
    RunKeepsTable(ops, s);
  }

  lemma SecondOffers(ops: seq<Op>)
    requires HasNamesakes(ops)
    ensures |ops| == 4 && Offers(ops[1], "a", Array) && !Offers(ops[0], "a", Array)
  {}

  lemma TableIsEnd(ops: seq<Op>, s: State, end: State)
    requires IsBefore(ops, s, |ops|, end)
    ensures end == s
  {
    assert ops[..|ops|] == ops;
  }

  lemma ArrayLookedUp(t: Table)
    requires Inv(t)
    ensures IsOldest(t, "a", Array, FirstCast(t.objects, BaseTypesNamed(t.names, "a"), Array))
  {
    OldestIsFound(t, "a", Array);
  }

  // The first array is the oldest one of the name.
  lemma FirstIsFound(ops: seq<Op>, s: State, p: Handle)
    requires RunsTo(ops, s) && HasNamesakes(ops) && Created(ops, s, 1, p)
    ensures FirstCast(s.table.objects, BaseTypesNamed(s.table.names, "a"), Array) == Some(p)
  {
    hide Inv, RunOk, HasNamesakes, IsOldest, Offers, MadeFrom, RunsTo;
    SecondOffers(ops);
    var end := StateBefore(ops, s, |ops|);
    TableIsEnd(ops, s, end);
    BeforeIsMade(ops, s, |ops|, end);
    RunKeepsTable(ops, s);
    ArrayLookedUp(s.table);
    OfferedIsFound(ops, s, |ops|, s.table, "a", Array, 1,
      FirstCast(s.table.objects, BaseTypesNamed(s.table.names, "a"), Array));
  }

  lemma NamesakesEqual(ops: seq<Op>, s: State, p: Handle, q: Handle)
    requires RunsTo(ops, s) && HasNamesakes(ops) && Created(ops, s, 1, p) && Created(ops, s, 2, q)
    requires s.table.objects[p].kind == s.table.objects[q].kind == Array
    ensures s.table.objects[p].length == s.table.objects[q].length
  {
    NoLength(ops, s.syms, p);
    NoLength(ops, s.syms, q);
    ObjectsAgree(ops, s, p);
    ObjectsAgree(ops, s, q);
  }

  lemma NamesakeArrays(ops: seq<Op>, s: State) returns (p: Handle, q: Handle)
    requires RunsTo(ops, s) && HasNamesakes(ops)
    ensures Created(ops, s, 1, p) && Created(ops, s, 2, q)
    ensures s.table.objects[p].kind == s.table.objects[q].kind == Array
    ensures p in s.table.names.arrays && q in s.table.names.arrays
    ensures Find(s.table, s.table.objects[p].typ) == Find(s.table, s.table.objects[q].typ)
    ensures Find(s.table, s.table.objects[p].typ).Some? && s.table.objects[p].typ != 0 && s.table.objects[q].typ != 0
  {
    p := ArrayIs(ops, s, 1, 3);
    q := ArrayIs(ops, s, 2, 3);
  }

  lemma OlderIsDuplicate(t: Table, p: Handle, q: Handle)
    requires p < |t.objects| && q < |t.objects| && p in t.names.arrays && q in t.names.arrays
    requires Find(t, t.objects[p].typ) == Find(t, t.objects[q].typ) && Find(t, t.objects[p].typ).Some?
    requires t.objects[p].typ != 0 && t.objects[q].typ != 0 && Find(t, t.objects[p].typ).value < |t.objects|
    requires t.objects[p].length == t.objects[q].length && t.objects[q].id < t.objects[p].id
    ensures IsDuplicateArray(t, p)
  {
    assert SameArray(t, t.objects[q], t.objects[p]);
  }

  lemma FoundInRange(t: Table, id: nat)
    requires Inv(t) && Find(t, id).Some?
    ensures Find(t, id).value < |t.objects|
  {}

  lemma NamesakesEnd(ops: seq<Op>, s: State) returns (p: Handle)
    requires RunsTo(ops, s) && HasNamesakes(ops)
    ensures Listed(s.table, s.table.names.arrays) && IsDuplicateArray(s.table, p)
    ensures FirstCast(s.table.objects, BaseTypesNamed(s.table.names, "a"), Array) == Some(p)
  {
    hide HasNamesakes, Inv, RunsTo, RunOk, Find, IsDuplicateArray;
    var q: Handle;
    p, q := NamesakeArrays(ops, s);
    SecondIsSmaller(ops, s, p, q);
    NamesakesEqual(ops, s, p, q);
    FirstIsFound(ops, s, p);
    RunKeepsTable(ops, s);
    InvLists(s.table);
    FoundInRange(s.table, s.table.objects[p].typ);
    OlderIsDuplicate(s.table, p, q);
  }

  /**
   The first array of the name has the greater id, so that it is deleted; a lookup by the name still finds
   it.
   */
  lemma NameFindsDeletedArray() returns (s: State, p: Handle)
    ensures RunsTo(NAMESAKES, s) && Within(s.table.names.arrays, |s.table.objects|)
    ensures var c := CleanArrays(s.table);
            && FirstCast(c.table.objects, BaseTypesNamed(c.table.names, "a"), Array) == Some(p)
            && p in c.deleted && ReadsDeleted(c.table, c.deleted, "a", Array)
  {
    hide HasNamesakes, CleanArrays, CannotStop, IsDuplicateArray;
    NamesakesRun();
    NamesakesAre();
    s := NeverStops(START, NAMESAKES);
    p := NamesakesEnd(NAMESAKES, s);
    NameReadsDeletedArray(s.table, [], "a", Array);
    DeletedArrays(s.table, p);
    NoneBefore(CleanArrays(s.table).deleted);
    var c := CleanArrays(s.table);
    assert p in TriedFor(c.table, "a", Array);
  }
}
