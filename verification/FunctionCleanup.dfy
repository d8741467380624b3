/**
 cleanFunctions orders functions by signature and id but merges neighbours that also share the
 name; the survivors are pairwise different exactly when functions of one signature and name are
 contiguous in id order.
 */
module FunctionCleanup {
  import opened SymbolTable
  import opened CleanupSpec
  import opened Sweeping

  // ---- operator< is a strict total order ----

  lemma {:induction false} ParamsCompareSwaps(p: seq<(string, nat)>, q: seq<(string, nat)>, i: nat)
    requires |p| == |q| && i <= |p|
    ensures ParamsCompare(q, p, i) == -ParamsCompare(p, q, i)
    decreases |p| - i
  {
    if i < |p| { ParamsCompareSwaps(p, q, i + 1); }
  }

  lemma {:induction false} ParamsCompareChains(p: seq<(string, nat)>, q: seq<(string, nat)>, r: seq<(string, nat)>,
                                               i: nat)
    requires |p| == |q| == |r| && i <= |p|
    requires ParamsCompare(p, q, i) <= 0 && ParamsCompare(q, r, i) <= 0
    ensures ParamsCompare(p, r, i) <= 0
    ensures ParamsCompare(p, r, i) == 0 ==> ParamsCompare(p, q, i) == 0 && ParamsCompare(q, r, i) == 0
    decreases |p| - i
  {
    if i < |p| && p[i].1 == q[i].1 == r[i].1 { ParamsCompareChains(p, q, r, i + 1); }
  }

  lemma SignatureCompareSwaps(f: Sym, g: Sym)
    ensures SignatureCompare(g, f) == -SignatureCompare(f, g)
    ensures SignatureCompare(f, g) == 0 <==> SameSignature(f, g)
  {
    if f.rettype == g.rettype && |f.params| == |g.params| { ParamsCompareSwaps(f.params, g.params, 0); }
  }

  lemma SignatureCompareChains(f: Sym, g: Sym, h: Sym)
    requires SignatureCompare(f, g) <= 0 && SignatureCompare(g, h) <= 0
    ensures SignatureCompare(f, h) <= 0
    ensures SignatureCompare(f, h) == 0 ==> SignatureCompare(f, g) == 0 && SignatureCompare(g, h) == 0
  {
    if f.rettype == g.rettype == h.rettype && |f.params| == |g.params| == |h.params| {
      ParamsCompareChains(f.params, g.params, h.params, 0);
    }
  }

  lemma FunctionLessIsStrictTotal()
    ensures StrictTotal(FunctionLess)
  {
    forall a, b ensures FunctionLess(a, b) ==> !FunctionLess(b, a) {
      SignatureCompareSwaps(a, b);
    }
    forall a, b, c ensures FunctionLess(a, b) && FunctionLess(b, c) ==> FunctionLess(a, c) {
      if FunctionLess(a, b) && FunctionLess(b, c) { SignatureCompareChains(a, b, c); }
    }
    forall a: Sym, b: Sym ensures a.id == b.id || FunctionLess(a, b) || FunctionLess(b, a) {
      SignatureCompareSwaps(a, b);
    }
  }

  // The parameter types of `f` come before those of `g` at the first position at which they differ.
  ghost predicate ParamsBefore(p: seq<(string, nat)>, q: seq<(string, nat)>, i: nat) {
    |p| == |q| && exists k: nat :: i <= k < |p| && p[k].1 < q[k].1 && forall j | i <= j < k :: p[j].1 == q[j].1
  }

  // By return type, then number of parameters, then parameter types, then id; the name does not matter.
  ghost predicate FunctionBefore(f: Sym, g: Sym) {
    || f.rettype < g.rettype
    || (f.rettype == g.rettype && |f.params| < |g.params|)
    || (f.rettype == g.rettype && ParamsBefore(f.params, g.params, 0))
    || (f.rettype == g.rettype && f.id < g.id && |f.params| == |g.params|
        && forall k | 0 <= k < |f.params| :: f.params[k].1 == g.params[k].1)
  }

  lemma {:induction false} ParamsCompareIs(p: seq<(string, nat)>, q: seq<(string, nat)>, i: nat)
    requires |p| == |q| && i <= |p|
    ensures ParamsCompare(p, q, i) < 0 <==> ParamsBefore(p, q, i)
    decreases |p| - i
  {
    if i < |p| {
      if p[i].1 == q[i].1 {
        ParamsCompareIs(p, q, i + 1);
        if ParamsBefore(p, q, i) {
          var k: nat :| i <= k < |p| && p[k].1 < q[k].1 && forall j | i <= j < k :: p[j].1 == q[j].1;
          assert k > i;
        }
      }
    }
  }

  lemma FunctionLessIff(f: Sym, g: Sym)
    ensures FunctionLess(f, g) <==> FunctionBefore(f, g)
  {
    if |f.params| == |g.params| { ParamsCompareIs(f.params, g.params, 0); }
  }

  // operator== compares names, return types and parameter types, and is an equivalence.
  lemma FunctionEqualIsEquivalence(a: Sym, b: Sym, c: Sym)
    ensures FunctionEqual(a, b) <==>
            && a.name == b.name && a.rettype == b.rettype && |a.params| == |b.params|
            && forall k | 0 <= k < |a.params| :: a.params[k].1 == b.params[k].1
    ensures FunctionEqual(a, a) && (FunctionEqual(a, b) ==> FunctionEqual(b, a))
    ensures FunctionEqual(a, b) && FunctionEqual(b, c) ==> FunctionEqual(a, c)
  {}

  // In ascending order two positions of one signature have only that signature between them.
  lemma Sandwich(objects: seq<Sym>, s: seq<Handle>, i: nat, j: nat, k: nat)
    requires i < j < k < |s| && Within(s, |objects|) && Ascending(objects, s, FunctionLess)
    requires SameSignature(objects[s[i]], objects[s[k]])
    ensures SameSignature(objects[s[i]], objects[s[j]])
    ensures objects[s[i]].id < objects[s[j]].id < objects[s[k]].id
  {
    var a, b, c := objects[s[i]], objects[s[j]], objects[s[k]];
    assert FunctionLess(a, b) && FunctionLess(b, c);
    SignatureCompareChains(a, b, c);
    SignatureCompareSwaps(a, b);
    SignatureCompareSwaps(b, c);
    SignatureCompareSwaps(a, c);
  }

  lemma EarlierHasSmallerId(objects: seq<Sym>, s: seq<Handle>, i: nat, j: nat)
    requires i < |s| && j < |s| && i != j && Within(s, |objects|) && Ascending(objects, s, FunctionLess)
    requires SameSignature(objects[s[i]], objects[s[j]])
    ensures i < j <==> objects[s[i]].id < objects[s[j]].id
  {
    SignatureCompareSwaps(objects[s[i]], objects[s[j]]);
    if i < j {
      assert FunctionLess(objects[s[i]], objects[s[j]]);
    } else {
      assert FunctionLess(objects[s[j]], objects[s[i]]);
    }
  }

  // ---- survivors ----

  // Between two functions of one signature and name, by id, that signature has only that name.
  ghost predicate Contiguous(objects: seq<Sym>, list: seq<Handle>)
    requires Within(list, |objects|)
  {
    forall i, j, k | 0 <= i < |list| && 0 <= j < |list| && 0 <= k < |list| ::
      Between(objects[list[i]], objects[list[j]], objects[list[k]]) ==> objects[list[j]].name == objects[list[i]].name
  }

  predicate Between(f: Sym, g: Sym, h: Sym) {
    FunctionEqual(f, h) && SameSignature(f, g) && f.id < g.id < h.id
  }

  // No two positions that survive the sweep hold equal functions.
  ghost predicate SurvivorsDiffer(objects: seq<Sym>, s: seq<Handle>)
    requires Within(s, |objects|)
  {
    forall i: nat, j: nat | i < j < |s| && IsHead(objects, s, i, FunctionEqual)
      && IsHead(objects, s, j, FunctionEqual) ::
      !FunctionEqual(objects[s[i]], objects[s[j]])
  }

  // The head before a head is different from it.
  lemma {:induction false} PreviousHeadDiffers(objects: seq<Sym>, s: seq<Handle>, j: nat)
    requires 0 < j < |s| && Within(s, |objects|) && IsHead(objects, s, j, FunctionEqual)
    ensures !FunctionEqual(objects[s[HeadIndex(objects, s, j, FunctionEqual)]], objects[s[j]])
  {}

  lemma ContiguousDiffer(objects: seq<Sym>, s: seq<Handle>, i: nat, j: nat)
    requires Within(s, |objects|) && Ascending(objects, s, FunctionLess) && Contiguous(objects, s)
    requires i < j < |s| && IsHead(objects, s, i, FunctionEqual) && IsHead(objects, s, j, FunctionEqual)
    ensures !FunctionEqual(objects[s[i]], objects[s[j]])
  {
    var p := HeadIndex(objects, s, j, FunctionEqual);
    HeadIsHead(objects, s, j, FunctionEqual);
    PreviousHeadDiffers(objects, s, j);
    if FunctionEqual(objects[s[i]], objects[s[j]]) && p != i {
      assert i < p;
      Sandwich(objects, s, i, p, j);
      assert Between(objects[s[i]], objects[s[p]], objects[s[j]]);
    }
  }

  // A head cannot lie before a function of another name.
  lemma HeadIsAfter(objects: seq<Sym>, s: seq<Handle>, b: nat, c: nat)
    requires b < c < |s| && Within(s, |objects|) && objects[s[b]].name != objects[s[c]].name
    ensures var y := HeadIndex(objects, s, c + 1, FunctionEqual);
            b < y && IsHead(objects, s, y, FunctionEqual) && FunctionEqual(objects[s[y]], objects[s[c]])
  {
    HeadIsHead(objects, s, c + 1, FunctionEqual);
  }

  lemma HeadIsBefore(objects: seq<Sym>, s: seq<Handle>, a: nat)
    requires a < |s| && Within(s, |objects|)
    ensures var x := HeadIndex(objects, s, a + 1, FunctionEqual);
            x <= a && IsHead(objects, s, x, FunctionEqual) && FunctionEqual(objects[s[x]], objects[s[a]])
  {
    HeadIsHead(objects, s, a + 1, FunctionEqual);
  }

  lemma DifferContiguous(objects: seq<Sym>, s: seq<Handle>, a: nat, b: nat, c: nat)
    requires Within(s, |objects|) && Ascending(objects, s, FunctionLess) && SurvivorsDiffer(objects, s)
    requires a < |s| && b < |s| && c < |s| && Between(objects[s[a]], objects[s[b]], objects[s[c]])
    ensures objects[s[b]].name == objects[s[a]].name
  {
    hide FunctionLess, HeadIndex;
    EarlierHasSmallerId(objects, s, a, b);
    EarlierHasSmallerId(objects, s, b, c);
    if objects[s[b]].name != objects[s[a]].name {
      HeadIsBefore(objects, s, a);
      HeadIsAfter(objects, s, b, c);
      assert false;
    }
  }

  // The survivors are pairwise different exactly when equal functions are contiguous.
  lemma SurvivorsDifferIffContiguous(objects: seq<Sym>, s: seq<Handle>)
    requires Within(s, |objects|) && Ascending(objects, s, FunctionLess)
    ensures SurvivorsDiffer(objects, s) <==> Contiguous(objects, s)
  {
    if Contiguous(objects, s) {
      forall i: nat, j: nat | i < j < |s| && IsHead(objects, s, i, FunctionEqual)
        && IsHead(objects, s, j, FunctionEqual)
        ensures !FunctionEqual(objects[s[i]], objects[s[j]])
      {
        ContiguousDiffer(objects, s, i, j);
      }
    }
    if SurvivorsDiffer(objects, s) {
      forall a, b, c | 0 <= a < |s| && 0 <= b < |s| && 0 <= c < |s|
        && Between(objects[s[a]], objects[s[b]], objects[s[c]])
        ensures objects[s[b]].name == objects[s[a]].name
      {
        DifferContiguous(objects, s, a, b, c);
      }
    }
  }

  // ---- the pass ----

  // The objects as the pass leaves them: canonical types, nothing else changed.
  lemma PassObjects(t: Table)
    requires Listed(t, t.names.funcList)
    ensures Within(t.names.funcList, |t.objects|)
    ensures var c := CleanFunctions(t);
            && c.table == t.(objects := c.table.objects, aliases := c.table.aliases,
                             names := t.names.(funcList := c.table.names.funcList))
            && |c.table.objects| == |t.objects|
            && (forall h: nat | h < |t.objects| :: c.table.objects[h] ==
                  if h in t.names.funcList then UpdatedFunctionTypes(t, t.objects[h]) else t.objects[h])
  {}

  // What the sort gives the sweep.
  lemma Sorted(t: Table)
    requires Listed(t, t.names.funcList)
    ensures Within(t.names.funcList, |t.objects|)
    ensures var c := CleanFunctions(t);
            && Within(c.sorted, |t.objects|) && Within(c.sorted, |c.table.objects|)
            && Ascending(c.table.objects, c.sorted, FunctionLess) && DistinctIds(c.table.objects, c.sorted)
            && multiset(c.sorted) == multiset(t.names.funcList)
            && forall h :: h in c.sorted <==> h in t.names.funcList
  {
    hide FunctionLess, StrictTotal, Ascending;
    PassObjects(t);
    FunctionLessIsStrictTotal();
    SortedList(t, t.names.funcList, CleanFunctions(t).table.objects, FunctionLess);
  }

  // Nothing is lost: the first of the sorted list, the kept and the deleted functions are all there were.
  lemma FunctionsConserved(t: Table)
    requires Listed(t, t.names.funcList) && t.names.funcList != []
    ensures Within(t.names.funcList, |t.objects|)
    ensures var c := CleanFunctions(t);
            && c.sorted != [] && IsFirst(c.table.objects, t.names.funcList, c.sorted[0], FunctionLess)
            && Conserved(t.names.funcList, c.sorted[0], c.table.names.funcList, c.deleted)
  {
    Sorted(t);
    FunctionLessIsStrictTotal();
    var c := CleanFunctions(t);
    assert t.names.funcList[0] in c.sorted;
    FirstIsPosition0(c.table.objects, c.sorted, t.names.funcList, 0, FunctionLess);
    SweepConservesAll(c.table.objects, t.aliases, t.names.funcList, c.sorted, FunctionEqual);
  }

  // Every deleted function is aliased to an equal function of smaller id that is not deleted, the last such one.
  lemma DeletedFunctionIsAliased(t: Table, h: Handle) returns (m: Handle)
    requires Listed(t, t.names.funcList) && h in t.names.funcList
    requires Within(t.names.funcList, |t.objects|) && h in CleanFunctions(t).deleted
    ensures h < |t.objects| && m < |t.objects| && m in t.names.funcList && m !in CleanFunctions(t).deleted
    ensures var c := CleanFunctions(t);
            && FunctionEqual(c.table.objects[m], c.table.objects[h])
            && t.objects[m].id < t.objects[h].id
            && t.objects[h].id in c.table.aliases.target
            && c.table.aliases.target[t.objects[h].id] == t.objects[m].id
            && forall g: Handle | g < |t.objects| && g in t.names.funcList && g !in c.deleted
                                  && FunctionEqual(c.table.objects[g], c.table.objects[h]) ::
                 !(t.objects[m].id < t.objects[g].id < t.objects[h].id)
  {
    Sorted(t);
    PassObjects(t);
    var c := CleanFunctions(t);
    var s, objects := c.sorted, c.table.objects;
    assert h in s;
    var i: nat :| i < |s| && s[i] == h;
    var k := HeadIndex(objects, s, i + 1, FunctionEqual);
    m := s[k];
    assert m in s;
    HeadIsBefore(objects, s, i);
    SweepDeletes(objects, t.aliases, s, |s|, FunctionEqual, i);
    SweepDeletes(objects, t.aliases, s, |s|, FunctionEqual, k);
    SweepAliases(objects, t.aliases, s, |s|, FunctionEqual, i);
    EarlierHasSmallerId(objects, s, k, i);
    forall g: Handle | g < |t.objects| && g in t.names.funcList && g !in c.deleted
      && FunctionEqual(objects[g], objects[h])
      ensures !(t.objects[m].id < t.objects[g].id < t.objects[h].id)
    {
      if t.objects[m].id < t.objects[g].id < t.objects[h].id { NoneLeftBetween(t, objects, s, k, i, g); }
    }
  }

  // What lies between a head and an element of its run is deleted.
  lemma {:induction false} NoneLeftBetween(t: Table, objects: seq<Sym>, s: seq<Handle>, k: nat, i: nat, g: Handle)
    requires i < |s| && k < |s| && Within(s, |objects|) && Ascending(objects, s, FunctionLess) && g in s
             && g < |objects|
    requires DistinctIds(objects, s)
    requires k == HeadIndex(objects, s, i + 1, FunctionEqual) && SameSignature(objects[g], objects[s[i]])
    requires SameSignature(objects[s[k]], objects[g]) && objects[s[k]].id < objects[g].id < objects[s[i]].id
    ensures g in Sweep(objects, t.aliases, s, |s|, FunctionEqual).deleted
  {
    hide FunctionLess, FunctionEqual, SameSignature, Sweep, HeadIndex;
    var j: nat :| j < |s| && s[j] == g;
    EarlierHasSmallerId(objects, s, k, j);
    EarlierHasSmallerId(objects, s, j, i);
    HeadStays(objects, s, k, j, i);
    SweepDeletes(objects, t.aliases, s, |s|, FunctionEqual, j);
  }

  lemma {:induction false} HeadStays(objects: seq<Sym>, s: seq<Handle>, k: nat, j: nat, i: nat)
    requires k < j <= i < |s| && Within(s, |objects|) && k == HeadIndex(objects, s, i + 1, FunctionEqual)
    ensures !IsHead(objects, s, j, FunctionEqual)
  {
    if j < i { HeadStays(objects, s, k, j, i - 1); }
  }

  // No two neighbours in the list are equal.
  ghost predicate AdjacentDiffer(objects: seq<Sym>, list: seq<Handle>) {
    Within(list, |objects|) &&
    forall i, j | 0 <= i < j < |list| && j == i + 1 :: !FunctionEqual(objects[list[i]], objects[list[j]])
  }

  // Neighbours among the survivors, the first of the sorted list included, are different.
  lemma NeighboursDiffer(t: Table)
    requires Listed(t, t.names.funcList) && t.names.funcList != []
    ensures Within(t.names.funcList, |t.objects|)
    ensures var c := CleanFunctions(t);
            c.sorted != [] && AdjacentDiffer(c.table.objects, [c.sorted[0]] + c.table.names.funcList)
  {
    Sorted(t);
    var c := CleanFunctions(t);
    assert t.names.funcList[0] in c.sorted;
    SurvivorsAdjacent(c.table.objects, t.aliases, c.sorted);
  }

  lemma {:induction false} SurvivorsAdjacent(objects: seq<Sym>, al: Aliasing, s: seq<Handle>)
    requires s != [] && Within(s, |objects|)
    ensures AdjacentDiffer(objects, [s[0]] + Sweep(objects, al, s, |s|, FunctionEqual).kept)
  {
    var survivors := [s[0]] + Sweep(objects, al, s, |s|, FunctionEqual).kept;
    forall i: nat, j: nat | i < j < |survivors| && j == i + 1
      ensures !FunctionEqual(objects[survivors[i]], objects[survivors[j]]) {
      NeighbourHeads(objects, al, s, i);
    }
  }

  lemma {:induction false} NeighbourHeads(objects: seq<Sym>, al: Aliasing, s: seq<Handle>, k: nat)
    requires s != [] && Within(s, |objects|) && k < |Sweep(objects, al, s, |s|, FunctionEqual).kept|
    ensures var survivors := [s[0]] + Sweep(objects, al, s, |s|, FunctionEqual).kept;
            !FunctionEqual(objects[survivors[k]], objects[survivors[k + 1]])
  {
    hide Sweep, KeptAt, FunctionEqual;
    SweepKeeps(objects, al, s, |s|, FunctionEqual);
    KeptAtHeads(objects, s, |s|, FunctionEqual);
    var r := KeptAt(objects, s, |s|, FunctionEqual);
    assert r[k] in r;
    PreviousKept(objects, s, |s|, k);
    PreviousHeadDiffers(objects, s, r[k]);
  }

  // The head just before the kept position `k` is the kept position before it, or the first.
  lemma {:induction false} PreviousKept(objects: seq<Sym>, s: seq<Handle>, n: nat, k: nat)
    requires 1 <= n <= |s| && Within(s, |objects|) && k < |KeptAt(objects, s, n, FunctionEqual)|
    ensures var r := KeptAt(objects, s, n, FunctionEqual);
            HeadIndex(objects, s, r[k], FunctionEqual) == if k == 0 then 0 else r[k - 1]
  {
    if k < |KeptAt(objects, s, n - 1, FunctionEqual)| { PreviousKept(objects, s, n - 1, k); }
  }

  // No two functions of the list that are not deleted are equal.
  ghost predicate AllDiffer(objects: seq<Sym>, list: seq<Handle>, deleted: seq<Handle>)
    requires Within(list, |objects|)
  {
    forall i, j | 0 <= i < |list| && 0 <= j < |list| && list[i] != list[j] && list[i] !in deleted
      && list[j] !in deleted ::
      !FunctionEqual(objects[list[i]], objects[list[j]])
  }

  lemma ContiguousIn(objects: seq<Sym>, s: seq<Handle>, list: seq<Handle>)
    requires Within(s, |objects|) && Within(list, |objects|) && (forall h <- s :: h in list)
             && Contiguous(objects, list)
    ensures Contiguous(objects, s)
  {
    forall i, j, k | 0 <= i < |s| && 0 <= j < |s| && 0 <= k < |s|
      && Between(objects[s[i]], objects[s[j]], objects[s[k]])
      ensures objects[s[j]].name == objects[s[i]].name
    {
      assert s[i] in list && s[j] in list && s[k] in list;
      var a, b, c :| 0 <= a < |list| && 0 <= b < |list| && 0 <= c < |list| && list[a] == s[i] && list[b] == s[j]
        && list[c] == s[k];
      assert Between(objects[list[a]], objects[list[b]], objects[list[c]]);
    }
  }

  lemma {:induction false} AllDifferSurvivors(objects: seq<Sym>, al: Aliasing, s: seq<Handle>, list: seq<Handle>)
    requires s != [] && Within(s, |objects|) && Within(list, |objects|) && DistinctIds(objects, s)
    requires forall h <- s :: h in list
    requires AllDiffer(objects, list, Sweep(objects, al, s, |s|, FunctionEqual).deleted)
    ensures SurvivorsDiffer(objects, s)
  {
    forall i: nat, j: nat | i < j < |s| && IsHead(objects, s, i, FunctionEqual) && IsHead(objects, s, j, FunctionEqual)
      ensures !FunctionEqual(objects[s[i]], objects[s[j]])
    {
      SweepDeletes(objects, al, s, |s|, FunctionEqual, i);
      SweepDeletes(objects, al, s, |s|, FunctionEqual, j);
      assert s[i] in list && s[j] in list;
      var a, b :| 0 <= a < |list| && 0 <= b < |list| && list[a] == s[i] && list[b] == s[j];
    }
  }

  lemma {:induction false} SurvivorsAllDiffer(objects: seq<Sym>, al: Aliasing, s: seq<Handle>, list: seq<Handle>)
    requires s != [] && Within(s, |objects|) && Within(list, |objects|) && DistinctIds(objects, s)
    requires (forall h <- list :: h in s) && SurvivorsDiffer(objects, s)
    ensures AllDiffer(objects, list, Sweep(objects, al, s, |s|, FunctionEqual).deleted)
  {
    var deleted := Sweep(objects, al, s, |s|, FunctionEqual).deleted;
    forall i, j | 0 <= i < |list| && 0 <= j < |list| && list[i] != list[j] && list[i] !in deleted && list[j] !in deleted
      ensures !FunctionEqual(objects[list[i]], objects[list[j]])
    {
      var a := PlaceIn(s, list[i]);
      var b := PlaceIn(s, list[j]);
      SweepDeletes(objects, al, s, |s|, FunctionEqual, a);
      SweepDeletes(objects, al, s, |s|, FunctionEqual, b);
      HeadsDiffer(objects, s, a, b);
    }
  }

  lemma PlaceIn(s: seq<Handle>, h: Handle) returns (i: nat)
    requires h in s
    ensures i < |s| && s[i] == h
  {
    i :| i < |s| && s[i] == h;
  }

  lemma HeadsDiffer(objects: seq<Sym>, s: seq<Handle>, a: nat, b: nat)
    requires Within(s, |objects|) && SurvivorsDiffer(objects, s) && a < |s| && b < |s| && a != b
    requires IsHead(objects, s, a, FunctionEqual) && IsHead(objects, s, b, FunctionEqual)
    ensures !FunctionEqual(objects[s[a]], objects[s[b]])
  {
    if b < a {
      assert !FunctionEqual(objects[s[b]], objects[s[a]]);
    }
  }

  /**
   The functions that are not deleted are pairwise different exactly when, among the functions of a
   signature, those of one name are contiguous in id order.
   */
  lemma AllSurvivorsDifferIff(t: Table)
    requires Listed(t, t.names.funcList) && Within(t.names.funcList, |t.objects|)
    ensures var c := CleanFunctions(t);
            AllDiffer(c.table.objects, t.names.funcList, c.deleted)
            <==> Contiguous(FunctionObjects(t), t.names.funcList)
  {
    Sorted(t);
    var c := CleanFunctions(t);
    var objects, s, list := c.table.objects, c.sorted, t.names.funcList;
    if s == [] {
      assert |multiset(list)| == |list| && |multiset(s)| == 0;
    } else {
      SurvivorsDifferIffContiguous(objects, s);
      if Contiguous(objects, list) {
        ContiguousIn(objects, s, list);
        SurvivorsAllDiffer(objects, t.aliases, s, list);
      }
      if AllDiffer(objects, list, c.deleted) {
        AllDifferSurvivors(objects, t.aliases, s, list);
        ContiguousIn(objects, list, s);
      }
    }
  }
}
