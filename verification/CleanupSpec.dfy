/**
 The two clean-up passes as functions on the table: canonical types, a sort with the source's
 comparison, one sweep that merges adjacent equal objects, and the index of arrays by type.
 */
module CleanupSpec {
  import opened Basics
  import opened SymbolTable

  // ---- comparisons ----

  // Array::operator<
  predicate ArrayLess(a: Sym, b: Sym) {
    if a.typ != b.typ then a.typ < b.typ
    else if a.length != b.length then a.length < b.length
    else a.id < b.id
  }

  // Array::operator==
  predicate ArrayEqual(a: Sym, b: Sym) {
    a.typ == b.typ && a.length == b.length
  }

  // The comparison of two parameter lists of the same length, from position `i` on.
  function ParamsCompare(p: seq<(string, nat)>, q: seq<(string, nat)>, i: nat): (r: int)
    requires |p| == |q| && i <= |p|
    ensures -1 <= r <= 1
    ensures r == 0 <==> forall k | i <= k < |p| :: p[k].1 == q[k].1
    decreases |p| - i
  {
    if i == |p| then 0
    else if p[i].1 != q[i].1 then (if p[i].1 < q[i].1 then -1 else 1)
    else ParamsCompare(p, q, i + 1)
  }

  // Return types, then the numbers of parameters, then the parameter types.
  function SignatureCompare(f: Sym, g: Sym): (r: int)
    ensures -1 <= r <= 1
  {
    if f.rettype != g.rettype then (if f.rettype < g.rettype then -1 else 1)
    else if |f.params| != |g.params| then (if |f.params| < |g.params| then -1 else 1)
    else ParamsCompare(f.params, g.params, 0)
  }

  // Function::operator<, which does not look at the names.
  predicate FunctionLess(f: Sym, g: Sym) {
    if SignatureCompare(f, g) != 0 then SignatureCompare(f, g) < 0 else f.id < g.id
  }

  // The same return type and parameter types.
  predicate SameSignature(f: Sym, g: Sym) {
    f.rettype == g.rettype && |f.params| == |g.params| && forall k | 0 <= k < |f.params| ::
      f.params[k].1 == g.params[k].1
  }

  // Function::operator==, which does.
  predicate FunctionEqual(f: Sym, g: Sym) {
    SameSignature(f, g) && f.name == g.name
  }

  // ---- canonical types ----

  // The id of the object that a type id resolves to.
  function Canonical(t: Table, id: nat): nat {
    match if id == 0 then None else Find(t, id)
    case None => id
    case Some(h) => if h < |t.objects| then t.objects[h].id else id
  }

  // Array::updateTypes
  function UpdatedArrayTypes(t: Table, a: Sym): Sym {
    a.(typ := Canonical(t, a.typ))
  }

  // Function::updateTypes
  function UpdatedFunctionTypes(t: Table, f: Sym): Sym {
    f.(rettype := Canonical(t, f.rettype),
       params := seq(|f.params|, i requires 0 <= i < |f.params| => (f.params[i].0, Canonical(t, f.params[i].1))))
  }

  // The objects after every array of the table has updated its type.
  function ArrayObjects(t: Table): (r: seq<Sym>)
    ensures |r| == |t.objects|
    ensures forall h: nat | h < |r| ::
            r[h] == if h in t.names.arrays then UpdatedArrayTypes(t, t.objects[h]) else t.objects[h]
  {
    seq(|t.objects|, h requires 0 <= h < |t.objects| =>
      if h in t.names.arrays then UpdatedArrayTypes(t, t.objects[h]) else t.objects[h])
  }

  // The objects after every function of the table has updated its types.
  function FunctionObjects(t: Table): (r: seq<Sym>)
    ensures |r| == |t.objects|
    ensures forall h: nat | h < |r| ::
            r[h] == if h in t.names.funcList then UpdatedFunctionTypes(t, t.objects[h]) else t.objects[h]
  {
    seq(|t.objects|, h requires 0 <= h < |t.objects| =>
      if h in t.names.funcList then UpdatedFunctionTypes(t, t.objects[h]) else t.objects[h])
  }

  // ---- sorting ----

  // Every handle of the list denotes one of `n` objects.
  predicate Within(list: seq<Handle>, n: nat) {
    forall i | 0 <= i < |list| :: list[i] < n
  }

  function Insert(objects: seq<Sym>, h: Handle, sorted: seq<Handle>, less: (Sym, Sym) -> bool): (r: seq<Handle>)
    requires h < |objects| && Within(sorted, |objects|)
    ensures multiset(r) == multiset(sorted) + multiset{h}
    ensures Within(r, |objects|)
  {
    if sorted == [] then [h]
    else if less(objects[h], objects[sorted[0]]) then [h] + sorted
    else
      assert sorted == [sorted[0]] + sorted[1..];
      [sorted[0]] + Insert(objects, h, sorted[1..], less)
  }

  // The list in the order of `less`, as std::sort leaves it.
  function Sort(objects: seq<Sym>, list: seq<Handle>, less: (Sym, Sym) -> bool): (r: seq<Handle>)
    requires Within(list, |objects|)
    ensures multiset(r) == multiset(list) && Within(r, |objects|)
  {
    if list == [] then []
    else
      assert list == [list[0]] + list[1..];
      Insert(objects, list[0], Sort(objects, list[1..], less), less)
  }

  // The elements of a prefix one longer, in a list without repeats.
  lemma PrefixGrows(list: seq<Handle>, i: nat)
    requires i < |list| && forall j, k | 0 <= j < k < |list| :: list[j] != list[k]
    ensures list[i] !in list[..i] && list[i] in list && list[..i + 1] == list[..i] + [list[i]]
    ensures forall h :: h in list[..i + 1] <==> h in list[..i] || h == list[i]
  {
    assert list[..i + 1] == list[..i] + [list[i]];
  }

  // ---- the sweep ----

  // The sweep after `n` elements: the aliases so far, the object that later equal ones are merged
  // into, the objects pushed to the new list and the deleted ones.
  datatype Swept = Swept(aliases: Aliasing, head: Handle, kept: seq<Handle>, deleted: seq<Handle>)

  // The object `h` is merged into the head, or it becomes the new head.
  function SweepStep(objects: seq<Sym>, w: Swept, h: Handle, equal: (Sym, Sym) -> bool): Swept
    requires w.head < |objects| && h < |objects|
  {
    if equal(objects[w.head], objects[h])
    then Swept(AddAlternativeID(w.aliases, objects[w.head].id, objects[h].id), w.head, w.kept, w.deleted + [h])
    else Swept(w.aliases, h, w.kept + [h], w.deleted)
  }

  function Sweep(objects: seq<Sym>, al: Aliasing, s: seq<Handle>, n: nat, equal: (Sym, Sym) -> bool): (w: Swept)
    requires 1 <= n <= |s| && Within(s, |objects|)
    ensures w.head < |objects| && Within(w.kept, |objects|) && Within(w.deleted, |objects|)
  {
    if n == 1 then Swept(al, s[0], [], [])
    else SweepStep(objects, Sweep(objects, al, s, n - 1, equal), s[n - 1], equal)
  }

  // ---- the passes ----

  // arrayTypeMap: pairs ordered by key, those of one key in insertion order.
  function MultimapInsert(m: seq<(nat, Handle)>, key: nat, h: Handle): seq<(nat, Handle)> {
    if m == [] || key < m[0].0 then [(key, h)] + m else [m[0]] + MultimapInsert(m[1..], key, h)
  }

  function IndexArrays(m: seq<(nat, Handle)>, objects: seq<Sym>, list: seq<Handle>, n: nat): seq<(nat, Handle)>
    requires n <= |list| && Within(list, |objects|)
  {
    if n == 0 then m
    else MultimapInsert(IndexArrays(m, objects, list, n - 1), objects[list[n - 1]].typ, list[n - 1])
  }

  datatype Cleaned = Cleaned(table: Table, sorted: seq<Handle>, deleted: seq<Handle>)

  // The sorted vector of cleanArrays and the sorted list of cleanFunctions.
  function SortedArrays(t: Table): (s: seq<Handle>)
    requires Within(t.names.arrays, |t.objects|)
    ensures Within(s, |t.objects|)
  {
    Sort(ArrayObjects(t), t.names.arrays, ArrayLess)
  }

  function SortedFunctions(t: Table): (s: seq<Handle>)
    requires Within(t.names.funcList, |t.objects|)
    ensures Within(s, |t.objects|)
  {
    Sort(FunctionObjects(t), t.names.funcList, FunctionLess)
  }

  function CleanArrays(t: Table): (c: Cleaned)
    requires Within(t.names.arrays, |t.objects|)
    ensures |c.table.objects| == |t.objects| && Within(c.table.names.arrays, |t.objects|)
  {
    var s := SortedArrays(t);
    if s == [] then Cleaned(t.(objects := ArrayObjects(t)), s, [])
    else
      var w := Sweep(ArrayObjects(t), t.aliases, s, |s|, ArrayEqual);
      Cleaned(Table(t.ids, ArrayObjects(t), t.symbolIDMap, w.aliases, t.names.(arrays := w.kept)), s, w.deleted)
  }

  function CleanFunctions(t: Table): (c: Cleaned)
    requires Within(t.names.funcList, |t.objects|)
    ensures |c.table.objects| == |t.objects| && Within(c.table.names.funcList, |t.objects|)
  {
    var s := SortedFunctions(t);
    if s == [] then Cleaned(t.(objects := FunctionObjects(t)), s, [])
    else
      var w := Sweep(FunctionObjects(t), t.aliases, s, |s|, FunctionEqual);
      Cleaned(Table(t.ids, FunctionObjects(t), t.symbolIDMap, w.aliases, t.names.(funcList := w.kept)), s, w.deleted)
  }

  // The passes, one step after the other.
  lemma CleanArraysIs(t: Table, t1: Table, w: Swept)
    requires Within(t.names.arrays, |t.objects|) && SortedArrays(t) != []
    requires w == Sweep(ArrayObjects(t), t.aliases, SortedArrays(t), |SortedArrays(t)|, ArrayEqual)
    requires t1.ids == t.ids && t1.objects == ArrayObjects(t) && t1.symbolIDMap == t.symbolIDMap
    requires t1.aliases == w.aliases && t1.names == t.names.(arrays := w.kept)
    ensures CleanArrays(t) == Cleaned(t1, SortedArrays(t), w.deleted)
  {}

  lemma CleanFunctionsIs(t: Table, t1: Table, w: Swept)
    requires Within(t.names.funcList, |t.objects|) && SortedFunctions(t) != []
    requires w == Sweep(FunctionObjects(t), t.aliases, SortedFunctions(t), |SortedFunctions(t)|, FunctionEqual)
    requires t1.ids == t.ids && t1.objects == FunctionObjects(t) && t1.symbolIDMap == t.symbolIDMap
    requires t1.aliases == w.aliases && t1.names == t.names.(funcList := w.kept)
    ensures CleanFunctions(t) == Cleaned(t1, SortedFunctions(t), w.deleted)
  {}

  lemma EmptyArrays(t: Table)
    requires Within(t.names.arrays, |t.objects|) && SortedArrays(t) == []
    ensures t.names.arrays == [] && CleanArrays(t) == Cleaned(t, [], [])
  {
    assert |multiset(t.names.arrays)| == |t.names.arrays| && |multiset(SortedArrays(t))| == |SortedArrays(t)|;
    assert ArrayObjects(t) == t.objects;
  }

  lemma EmptyFunctions(t: Table)
    requires Within(t.names.funcList, |t.objects|) && SortedFunctions(t) == []
    ensures t.names.funcList == [] && CleanFunctions(t) == Cleaned(t, [], [])
  {
    assert |multiset(t.names.funcList)| == |t.names.funcList| && |multiset(SortedFunctions(t))| == |SortedFunctions(t)|;
    assert FunctionObjects(t) == t.objects;
  }

  // ---- lookup of an array by element type and length ----

  predicate PairsWithin(m: seq<(nat, Handle)>, n: nat) {
    forall i | 0 <= i < |m| :: m[i].1 < n
  }

  // The scan of the multimap from position `i` to its end, whatever the keys.
  function ScanLength(m: seq<(nat, Handle)>, objects: seq<Sym>, i: nat, length: nat): Option<Handle>
    requires i <= |m| && PairsWithin(m, |objects|)
    decreases |m| - i
  {
    if i == |m| then None
    else if objects[m[i].1].length == length then Some(m[i].1)
    else ScanLength(m, objects, i + 1, length)
  }

  // multimap::find: the first pair with the key, or the end.
  function FirstKey(m: seq<(nat, Handle)>, key: nat): (i: nat)
    ensures i <= |m|
    ensures i < |m| ==> m[i].0 == key
    ensures forall k | 0 <= k < i :: m[k].0 != key
  {
    if m == [] || m[0].0 == key then 0 else 1 + FirstKey(m[1..], key)
  }

  function ScanFrom(m: seq<(nat, Handle)>, objects: seq<Sym>, key: nat, length: nat): Option<Handle>
    requires PairsWithin(m, |objects|)
  {
    ScanLength(m, objects, FirstKey(m, key), length)
  }

  // The smallest element of a set of ids, where std::set iteration starts.
  function Least(ids: set<nat>): (i: nat)
    requires ids != {}
    ensures i in ids && forall j <- ids :: i <= j
  {
    HasLeast(ids);
    var i :| i in ids && forall j <- ids :: i <= j;
    i
  }

  lemma HasLeast(ids: set<nat>)
    requires ids != {}
    ensures exists i :: i in ids && forall j <- ids :: i <= j
  {
    var x :| x in ids;
    HasLeastUpTo(ids, x);
  }

  lemma HasLeastUpTo(ids: set<nat>, x: nat)
    requires x in ids
    ensures exists i :: i in ids && forall j <- ids :: i <= j
    decreases x
  {
    if j :| j in ids && j < x {
      HasLeastUpTo(ids, j);
    } else {
      assert forall j <- ids :: x <= j;
    }
  }

  // The scans for every alias, in increasing order.
  function ScanAliases(m: seq<(nat, Handle)>, objects: seq<Sym>, ids: set<nat>, length: nat): Option<Handle>
    requires PairsWithin(m, |objects|)
  {
    if ids == {} then None
    else
      var r := ScanFrom(m, objects, Least(ids), length);
      if r.Some? then r else ScanAliases(m, objects, ids - {Least(ids)}, length)
  }

  // findArrayByTypeID
  function FindArray(m: seq<(nat, Handle)>, objects: seq<Sym>, aliases: set<nat>, id: nat, length: nat): Option<Handle>
    requires PairsWithin(m, |objects|)
  {
    var r := ScanFrom(m, objects, id, length);
    if r.Some? then r else ScanAliases(m, objects, aliases, length)
  }
}
