/**
 cleanArrays removes exactly the arrays that are not the smallest-numbered one of their element
 type and length, and aliases each to that one.
 */
module ArrayCleanup {
  import opened SymbolTable
  import opened CleanupSpec
  import opened Sweeping

  lemma ArrayLessIsStrictTotal()
    ensures StrictTotal(ArrayLess)
  {}

  // ---- classes ----

  // Of the arrays in the list with its element type and length, `h` has the smallest id.
  ghost predicate IsMinimal(objects: seq<Sym>, list: seq<Handle>, h: Handle)
    requires Within(list, |objects|) && h < |objects|
  {
    forall i | 0 <= i < |list| && ArrayEqual(objects[list[i]], objects[h]) :: objects[h].id <= objects[list[i]].id
  }

  lemma {:induction false} HeadDiffersFromLast(objects: seq<Sym>, s: seq<Handle>, k: nat)
    requires 0 < k < |s| && Within(s, |objects|) && IsHead(objects, s, k, ArrayEqual)
    ensures !ArrayEqual(objects[s[k - 1]], objects[s[k]])
  {
    HeadIsHead(objects, s, k, ArrayEqual);
  }

  // In ascending order what differs from its neighbour is the first array of its class.
  lemma FirstOfClass(objects: seq<Sym>, s: seq<Handle>, k: nat, j: nat)
    requires j < k < |s| && Within(s, |objects|) && Ascending(objects, s, ArrayLess)
    requires !ArrayEqual(objects[s[k - 1]], objects[s[k]])
    ensures !ArrayEqual(objects[s[j]], objects[s[k]])
  {
    if j < k - 1 { assert ArrayLess(objects[s[j]], objects[s[k - 1]]); }
    assert ArrayLess(objects[s[k - 1]], objects[s[k]]);
  }

  // In ascending order the head of a run is the first array of its class.
  lemma HeadIsFirst(objects: seq<Sym>, s: seq<Handle>, i: nat)
    requires i < |s| && Within(s, |objects|) && Ascending(objects, s, ArrayLess)
    ensures var k := HeadIndex(objects, s, i + 1, ArrayEqual);
            && ArrayEqual(objects[s[k]], objects[s[i]])
            && forall j | 0 <= j < k :: !ArrayEqual(objects[s[j]], objects[s[k]])
  {
    var k := HeadIndex(objects, s, i + 1, ArrayEqual);
    HeadIsHead(objects, s, i + 1, ArrayEqual);
    forall j: nat | j < k ensures !ArrayEqual(objects[s[j]], objects[s[k]]) {
      HeadDiffersFromLast(objects, s, k);
      FirstOfClass(objects, s, k, j);
    }
  }

  // The heads are exactly the minimal arrays, and every array's head is the minimum of its class.
  lemma HeadsAreMinimal(objects: seq<Sym>, s: seq<Handle>, i: nat)
    requires i < |s| && Within(s, |objects|) && Ascending(objects, s, ArrayLess)
    ensures IsHead(objects, s, i, ArrayEqual) <==> IsMinimal(objects, s, s[i])
    ensures var k := HeadIndex(objects, s, i + 1, ArrayEqual);
            ArrayEqual(objects[s[k]], objects[s[i]]) && IsMinimal(objects, s, s[k])
  {
    HeadIsFirst(objects, s, i);
    var k := HeadIndex(objects, s, i + 1, ArrayEqual);
    forall j | 0 <= j < |s| && ArrayEqual(objects[s[j]], objects[s[k]]) ensures objects[s[k]].id <= objects[s[j]].id {
      if j > k { assert ArrayLess(objects[s[k]], objects[s[j]]); }
    }
    if k < i { assert ArrayLess(objects[s[k]], objects[s[i]]); }
  }

  // ---- the pass ----

  // The objects as the pass leaves them: canonical element types, nothing else changed.
  lemma PassObjects(t: Table)
    requires Listed(t, t.names.arrays)
    ensures Within(t.names.arrays, |t.objects|)
    ensures var c := CleanArrays(t);
            && c.table == t.(objects := c.table.objects, aliases := c.table.aliases,
                             names := t.names.(arrays := c.table.names.arrays))
            && |c.table.objects| == |t.objects|
            && (forall h: nat | h < |t.objects| :: c.table.objects[h] ==
                  if h in t.names.arrays then UpdatedArrayTypes(t, t.objects[h]) else t.objects[h])
  {}

  /**
   Exactly the arrays that are not the minimum of their class are deleted, a class being the arrays
   of one length whose element types resolved to the same symbol.
   */
  lemma DeletedExactly(t: Table, h: Handle)
    requires Listed(t, t.names.arrays) && h in t.names.arrays
    ensures h < |t.objects| && Within(t.names.arrays, |t.objects|)
    ensures h in CleanArrays(t).deleted <==> !IsMinimal(CleanArrays(t).table.objects, t.names.arrays, h)
  {
    var c := CleanArrays(t);
    PassObjects(t);
    ArrayLessIsStrictTotal();
    SortedList(t, t.names.arrays, c.table.objects, ArrayLess);
    var s := c.sorted;
    assert h in s;
    var i: nat :| i < |s| && s[i] == h;
    SweepDeletes(c.table.objects, t.aliases, s, |s|, ArrayEqual, i);
    HeadsAreMinimal(c.table.objects, s, i);
    MinimalIn(c.table.objects, s, t.names.arrays, h);
  }

  lemma MinimalIn(objects: seq<Sym>, s: seq<Handle>, list: seq<Handle>, h: Handle)
    requires Within(list, |objects|) && Within(s, |objects|) && h < |objects| && forall g :: g in s <==> g in list
    ensures IsMinimal(objects, s, h) <==> IsMinimal(objects, list, h)
  {
    assert forall i | 0 <= i < |list| :: list[i] in s;
    assert forall i | 0 <= i < |s| :: s[i] in list;
  }

  // Every deleted array is aliased straight to the minimum of its class.
  lemma DeletedIsAliased(t: Table, h: Handle) returns (m: Handle)
    requires Listed(t, t.names.arrays) && h in t.names.arrays && h in CleanArrays(t).deleted
    ensures Within(t.names.arrays, |t.objects|) && h < |t.objects|
    ensures m in t.names.arrays && m < |t.objects| && m !in CleanArrays(t).deleted
    ensures var c := CleanArrays(t);
            && ArrayEqual(c.table.objects[m], c.table.objects[h])
            && IsMinimal(c.table.objects, t.names.arrays, m)
            && t.objects[h].id in c.table.aliases.target
            && c.table.aliases.target[t.objects[h].id] == t.objects[m].id
  {
    var c := CleanArrays(t);
    PassObjects(t);
    ArrayLessIsStrictTotal();
    SortedList(t, t.names.arrays, c.table.objects, ArrayLess);
    var s := c.sorted;
    assert h in s;
    var i: nat :| i < |s| && s[i] == h;
    SweepDeletes(c.table.objects, t.aliases, s, |s|, ArrayEqual, i);
    SweepAliases(c.table.objects, t.aliases, s, |s|, ArrayEqual, i);
    HeadsAreMinimal(c.table.objects, s, i);
    m := s[HeadIndex(c.table.objects, s, i + 1, ArrayEqual)];
    assert m in s;
    MinimalIn(c.table.objects, s, t.names.arrays, m);
    DeletedExactly(t, m);
  }

  // The new vector holds exactly the minimal arrays but the one that sorts first.
  lemma KeptExactly(t: Table, h: Handle)
    requires Listed(t, t.names.arrays) && h in t.names.arrays
    ensures Within(t.names.arrays, |t.objects|) && h < |t.objects|
    ensures var c := CleanArrays(t);
            h in c.table.names.arrays <==>
            IsMinimal(c.table.objects, t.names.arrays, h) && !IsFirst(c.table.objects, t.names.arrays, h, ArrayLess)
  {
    var c := CleanArrays(t);
    var objects := c.table.objects;
    PassObjects(t);
    ArrayLessIsStrictTotal();
    SortedList(t, t.names.arrays, objects, ArrayLess);
    var s := c.sorted;
    assert h in s;
    var i: nat :| i < |s| && s[i] == h;
    HeadsAreMinimal(objects, s, i);
    MinimalIn(objects, s, t.names.arrays, h);
    KeptAtHeads(objects, s, |s|, ArrayEqual);
    SweepKeeps(objects, t.aliases, s, |s|, ArrayEqual);
    KeptPosition(objects, t.aliases, s, i, ArrayEqual);
    FirstIsPosition0(objects, s, t.names.arrays, i, ArrayLess);
  }

  lemma {:induction false} KeptAscendsAt(objects: seq<Sym>, al: Aliasing, s: seq<Handle>, k: nat, l: nat)
    requires s != [] && Within(s, |objects|) && Ascending(objects, s, ArrayLess)
    requires k < l < |Sweep(objects, al, s, |s|, ArrayEqual).kept|
    ensures var kept := Sweep(objects, al, s, |s|, ArrayEqual).kept;
            var a, b := objects[kept[k]], objects[kept[l]];
            a.typ < b.typ || (a.typ == b.typ && a.length < b.length)
  {
    SweepKeeps(objects, al, s, |s|, ArrayEqual);
    KeptAtHeads(objects, s, |s|, ArrayEqual);
    var r := KeptAt(objects, s, |s|, ArrayEqual);
    assert r[k] in r && r[l] in r;
    HeadIsFirst(objects, s, r[l]);
    assert ArrayLess(objects[s[r[k]]], objects[s[r[l]]]);
  }

  // The new vector is strictly increasing in element type and length.
  lemma KeptAscends(t: Table, k: nat, l: nat)
    requires Listed(t, t.names.arrays) && Within(t.names.arrays, |t.objects|)
    requires t.names.arrays != [] && k < l < |CleanArrays(t).table.names.arrays|
    ensures var c := CleanArrays(t);
            var a, b := c.table.objects[c.table.names.arrays[k]], c.table.objects[c.table.names.arrays[l]];
            a.typ < b.typ || (a.typ == b.typ && a.length < b.length)
  {
    var c := CleanArrays(t);
    PassObjects(t);
    ArrayLessIsStrictTotal();
    SortedList(t, t.names.arrays, c.table.objects, ArrayLess);
    assert t.names.arrays[0] in c.sorted;
    KeptAscendsAt(c.table.objects, t.aliases, c.sorted, k, l);
  }

  // Nothing is lost: the first of the sorted vector, the kept and the deleted arrays are all there were.
  lemma ArraysConserved(t: Table)
    requires Listed(t, t.names.arrays) && t.names.arrays != []
    ensures Within(t.names.arrays, |t.objects|)
    ensures var c := CleanArrays(t);
            && c.sorted != [] && IsFirst(c.table.objects, t.names.arrays, c.sorted[0], ArrayLess)
            && Conserved(t.names.arrays, c.sorted[0], c.table.names.arrays, c.deleted)
  {
    var c := CleanArrays(t);
    PassObjects(t);
    ArrayLessIsStrictTotal();
    SortedList(t, t.names.arrays, c.table.objects, ArrayLess);
    var s := c.sorted;
    assert t.names.arrays[0] in s;
    assert s[0] in t.names.arrays;
    SweepConservesAll(c.table.objects, t.aliases, t.names.arrays, s, ArrayEqual);
    FirstIsPosition0(c.table.objects, s, t.names.arrays, 0, ArrayLess);
  }

  // The pass changes neither what an id resolves to ...
  lemma CleanArraysKeepsFind(t: Table, id: nat)
    requires Listed(t, t.names.arrays)
    ensures Within(t.names.arrays, |t.objects|)
    ensures Find(CleanArrays(t).table, id) == Find(t, id)
  {
    var c := CleanArrays(t);
    PassObjects(t);
    ArrayLessIsStrictTotal();
    SortedList(t, t.names.arrays, c.table.objects, ArrayLess);
    if c.sorted != [] { SweepKeepsFind(t, c.table, c.sorted, ArrayEqual, id); }
  }

  // ... nor what an array's element type resolves to, and canonical types stay as they are.
  lemma CleanArraysKeepsTypes(t: Table, h: Handle)
    requires Listed(t, t.names.arrays) && h < |t.objects|
    requires t.objects[h].typ != 0 && Find(t, t.objects[h].typ).Some?
    ensures Within(t.names.arrays, |t.objects|)
    ensures var c := CleanArrays(t);
            && Find(c.table, c.table.objects[h].typ) == Find(t, t.objects[h].typ)
            && (h in t.names.arrays ==> UpdatedArrayTypes(c.table, c.table.objects[h]) == c.table.objects[h])
  {
    PassObjects(t);
    CanonicalResolvesSame(t, t.objects[h].typ);
    var c := CleanArrays(t);
    CleanArraysKeepsFind(t, t.objects[h].typ);
    CleanArraysKeepsFind(t, c.table.objects[h].typ);
  }
}
