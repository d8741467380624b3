/**
 Instances, that is, types at addresses: array elements, members by name, and the way back from a member
 to the structure that contains it.
 */
module Instances {
  import opened Basics
  import opened SymbolTable
  import opened Invariant
  import opened Symbols
  import opened TypeChains
  import opened Navigation

  datatype Instance = Instance(typ: Handle, address: u64)

  // ---- array elements ----

  function Length(t: Table, x: Instance): nat
    requires x.typ < |t.objects|
  {
    if t.objects[x.typ].kind == Array then t.objects[x.typ].length else 1
  }

  // The address of an element, in 64 bits.
  function ElementAddress(address: u64, element: u64, size: nat): u64 {
    (address + element * size % U64) % U64
  }

  // Instance::arrayElem; None is a failing assertion.  An array of length zero has elements everywhere.
  function ArrayElem(t: Table, x: Instance, element: u64): (r: Option<Instance>)
    requires SizeEnds(t, x.typ)
    ensures r.Some? ==> SizeEnds(t, r.value.typ)
  {
    if (element >= Length(t, x) && Length(t, x) != 0) || t.objects[x.typ].kind != Array then None
    else
      match Target(t, x.typ)
      case None => None
      case Some(child) =>
        SizeFollowsTypes(t, x.typ);
        SizeTargetEnds(t, x.typ);
        match ByteSize(t, child)
        case None => None
        case Some(n) => if n == 0 then None else Some(Instance(child, ElementAddress(x.address, element, n)))
  }

  // The array `h` has elements of the type `child`, of `n` bytes each.
  ghost predicate HasElements(t: Table, h: Handle, child: Handle, n: nat) {
    && h < |t.objects| && t.objects[h].kind == Array
    && t.objects[h].typ != 0 && Find(t, t.objects[h].typ) == Some(child)
    && child < |t.objects| && t.objects[child].kind !in {Var, Member}
    && SizeEnds(t, child) && ByteSize(t, child) == Some(n) && n > 0
  }

  // The element is below the length, or the array has none.
  predicate IsWithin(t: Table, h: Handle, element: nat) {
    h < |t.objects| && (t.objects[h].length == 0 || element < t.objects[h].length)
  }

  /**
   `r` is the element: there is one exactly for an array of elements of some size and for an element below its
   length, or for any element if that is 0, and then its address is that of its first byte in 64 bits.
   */
  ghost predicate IsElement(t: Table, x: Instance, element: u64, r: Option<Instance>) {
    && (r.Some? <==> IsWithin(t, x.typ, element) && exists c: Handle, n: nat :: HasElements(t, x.typ, c, n))
    && forall c: Handle, n: nat | IsWithin(t, x.typ, element) && HasElements(t, x.typ, c, n) ::
         r == Some(Instance(c, (x.address + element * n) % U64))
  }

  lemma {:induction false} ArrayElemIs(t: Table, x: Instance, element: u64)
    requires SizeEnds(t, x.typ)
    ensures IsElement(t, x, element, ArrayElem(t, x, element))
  {
    if t.objects[x.typ].kind == Array && Target(t, x.typ).Some? {
      var child := Target(t, x.typ).value;
      SizeFollowsTypes(t, x.typ);
      SizeTargetEnds(t, x.typ);
      if ByteSize(t, child).Some? && ByteSize(t, child).value > 0 {
        var n := ByteSize(t, child).value;
        assert HasElements(t, x.typ, child, n);
        AddModulo(x.address, element * n);
      }
    }
  }

  lemma AddModulo(a: nat, b: nat)
    ensures (a + b % U64) % U64 == (a + b) % U64
  {
    var q := b / U64;
    assert a + b == a + b % U64 + q * U64;
    DropMultiple(a + b % U64, q);
  }

  lemma DropMultiple(r: nat, q: nat)
    ensures (r + q * U64) % U64 == r % U64
  {}

  // An array without a length, as a subrange without an upper bound leaves it, has elements everywhere.
  lemma FlexibleArray(t: Table, x: Instance, child: Handle, n: nat, element: u64)
    requires SizeEnds(t, x.typ) && HasElements(t, x.typ, child, n) && t.objects[x.typ].length == 0
    ensures ArrayElem(t, x, element) == Some(Instance(child, (x.address + element * n) % U64))
  {
    ArrayElemIs(t, x, element);
  }

  method GetArrayElem(manager: SymbolManager, x: Instance, element: u64) returns (r: Option<Instance>)
    requires manager.Valid() && Navigable(manager.Contents(), manager.deleted)
    requires SizeEnds(manager.Contents(), x.typ) && SizeAlive(manager.Contents(), manager.deleted, x.typ)
    modifies manager`symbolIDAliasReverseList, manager.objects
    ensures r == ArrayElem(old(manager.Contents()), x, element)
    ensures IsElement(old(manager.Contents()), x, element, r)
    ensures r.Some? ==>
              && manager.Valid() && Navigable(manager.Contents(), manager.deleted)
              && SameButCaches(old(manager.Contents()), manager.Contents())
  {
    hide IsElement;
    ghost var t := manager.Contents();
    ArrayElemIs(t, x, element);
    if manager.objects[x.typ].kind != Array
      || (element >= manager.objects[x.typ].length && manager.objects[x.typ].length != 0) {
      return None;
    }
    SizeStep(t, manager.deleted, x.typ);
    var child := StepToBase(manager, x.typ, t);
    if child.None? { return None; }
    var size := GetByteSize(manager, child.value, t);
    if size.None? || size.value == 0 { return None; }
    r := Some(Instance(child.value, ElementAddress(x.address, element, size.value)));
  }

  // An array of `length` elements of type `child` and size `n` whose bytes are all in memory.
  ghost predicate IsArrayOf(t: Table, x: Instance, child: Handle, length: nat, n: nat) {
    && SizeEnds(t, x.typ) && SizeEnds(t, child)
    && t.objects[x.typ].kind == Array && Target(t, x.typ) == Some(child) && t.objects[x.typ].length == length > 0
    && ByteSize(t, child) == Some(n) && n > 0
    && length * n < U32 && x.address + length * n <= U64
  }

  lemma ProductGrows(a: nat, b: nat, n: nat)
    requires a <= b
    ensures a * n <= b * n
  {}

  // Where an element starts, without wrap-around.
  function ElementStart(a: nat, i: nat, n: nat): nat {
    a + i * n
  }

  // The size of the array, and where its elements are.
  lemma {:induction false} ElementAt(t: Table, x: Instance, child: Handle, length: nat, n: nat, i: nat)
    requires IsArrayOf(t, x, child, length, n) && i < length
    ensures ByteSize(t, x.typ) == Some(length * n)
    ensures ElementStart(x.address, i, n) + n <= ElementStart(x.address, length, n) <= U64
    ensures i < U64 && ElementStart(x.address, i, n) < U64
    ensures ArrayElem(t, x, i) == Some(Instance(child, ElementStart(x.address, i, n)))
  {
    ElementFits(x.address, i, length, n);
  }

  lemma ElementFits(a: u64, i: nat, length: nat, n: nat)
    requires i < length && n > 0 && length * n < U32 && a + length * n <= U64
    ensures ElementStart(a, i, n) + n <= ElementStart(a, length, n) <= U64
    ensures i < U64 && ElementAddress(a, i, n) == ElementStart(a, i, n) < U64
    ensures length * n % U64 % U32 == length * n
  {
    ProductGrows(i + 1, length, n);
    assert (i + 1) * n == i * n + n && i <= i * n;
    SmallProduct(length * n);
    SmallProduct(i * n);
  }

  lemma SmallProduct(p: nat)
    requires p < U32
    ensures p % U64 == p && p % U32 == p
  {}

  // The byte at `a` belongs to element `i`.
  ghost predicate Covers(t: Table, x: Instance, i: nat, a: nat)
    requires SizeEnds(t, x.typ)
  {
    && i < U64 && ArrayElem(t, x, i).Some?
    && (var e := ArrayElem(t, x, i).value;
        ByteSize(t, e.typ).Some? && e.address <= a < e.address + ByteSize(t, e.typ).value)
  }

  lemma ElementCovers(t: Table, x: Instance, child: Handle, length: nat, n: nat, i: nat, a: nat)
    requires IsArrayOf(t, x, child, length, n) && i < length
    ensures Covers(t, x, i, a) <==> ElementStart(x.address, i, n) <= a < ElementStart(x.address, i, n) + n
    ensures Covers(t, x, i, a) ==> x.address <= a < ElementStart(x.address, length, n) && i == (a - x.address) / n
  {
    CoversIff(t, x, child, length, n, i, a);
    if Covers(t, x, i, a) { IndexOf(x.address, i, length, n, a); }
  }

  lemma CoversIff(t: Table, x: Instance, child: Handle, length: nat, n: nat, i: nat, a: nat)
    requires IsArrayOf(t, x, child, length, n) && i < length
    ensures Covers(t, x, i, a) <==> ElementStart(x.address, i, n) <= a < ElementStart(x.address, i, n) + n
    ensures ElementStart(x.address, i, n) + n <= ElementStart(x.address, length, n)
  {
    ElementAt(t, x, child, length, n, i);
  }

  lemma IndexOf(a0: nat, i: nat, length: nat, n: nat, a: nat)
    requires n > 0 && ElementStart(a0, i, n) <= a < ElementStart(a0, i, n) + n <= ElementStart(a0, length, n)
    ensures a0 <= a < ElementStart(a0, length, n) && i == (a - a0) / n
  {
    QuotientIs(a - a0, n, i);
  }

  // The byte at `a` is one of the array's.
  ghost predicate IsInArray(x: Instance, length: nat, n: nat, a: nat) {
    x.address <= a < x.address + length * n
  }

  ghost predicate IsInSome(t: Table, x: Instance, length: nat, a: nat)
    requires SizeEnds(t, x.typ)
  {
    exists i: nat :: i < length && Covers(t, x, i, a)
  }

  lemma CoveredInside(t: Table, x: Instance, child: Handle, length: nat, n: nat, a: nat)
    requires IsArrayOf(t, x, child, length, n)
    ensures IsInSome(t, x, length, a) <==> IsInArray(x, length, n, a)
  {
    if IsInArray(x, length, n, a) {
      QuotientOf(a - x.address, n, length);
      ElementCovers(t, x, child, length, n, (a - x.address) / n, a);
    }
    if IsInSome(t, x, length, a) {
      var i: nat :| i < length && Covers(t, x, i, a);
      ElementCovers(t, x, child, length, n, i, a);
    }
  }

  // The elements tile the array: every byte of it belongs to one element, and no other byte to any.
  lemma {:induction false} ElementsTile(t: Table, x: Instance, child: Handle, length: nat, n: nat, a: nat)
    requires IsArrayOf(t, x, child, length, n)
    ensures ByteSize(t, x.typ) == Some(length * n)
    ensures IsInArray(x, length, n, a) <==> IsInSome(t, x, length, a)
    ensures forall i: nat, j: nat | i < length && j < length && Covers(t, x, i, a) && Covers(t, x, j, a) :: i == j
  {
    ElementAt(t, x, child, length, n, 0);
    CoveredInside(t, x, child, length, n, a);
    forall i: nat | i < length && Covers(t, x, i, a) ensures i == (a - x.address) / n {
      ElementCovers(t, x, child, length, n, i, a);
    }
  }

  lemma QuotientOf(d: nat, n: nat, length: nat)
    requires n > 0 && d < length * n
    ensures d / n < length && d / n * n <= d < d / n * n + n
  {
    if d / n >= length { ProductGrows(length, d / n, n); }
  }

  lemma QuotientIs(d: nat, n: nat, i: nat)
    requires n > 0 && i * n <= d < i * n + n
    ensures d / n == i
  {
    if d / n < i { ProductGrows(d / n + 1, i, n); }
    if d / n > i { ProductGrows(i + 1, d / n, n); }
  }

  // Row `i` and column `j` of rows of `m` elements of size `s` from address `a` on.
  function NestedAddress(a: nat, i: nat, j: nat, m: nat, s: nat): nat {
    a + (i * m + j) * s
  }

  // Elements of elements: row `i` of arrays of `m` elements of size `s`, and column `j`.
  lemma NestedElement(t: Table, x: Instance, row: Handle, rows: nat, size: nat, child: Handle, m: nat, s: nat, i: nat,
                      j: nat)
    requires i < rows && j < m
    requires IsArrayOf(t, x, row, rows, size) && IsArrayOf(t, Instance(row, x.address), child, m, s)
    ensures i < U64 && j < U64 && NestedAddress(x.address, i, j, m, s) < U64
    ensures match ArrayElem(t, x, i)
            case None => false
            case Some(y) => ArrayElem(t, y, j) == Some(Instance(child, NestedAddress(x.address, i, j, m, s)))
  {
    ElementAt(t, x, row, rows, size, i);
    var r := x.address + i * size;
    InnerElement(t, x.address, row, size, child, m, s, r, j);
    RowAndColumn(i, j, m, s);
  }

  // An element of the row at `r`, an array as the first row at `a`.
  lemma {:induction false} InnerElement(t: Table, a: u64, row: Handle, size: nat, child: Handle, m: nat, s: nat, r: u64,
                                        j: nat)
    requires IsArrayOf(t, Instance(row, a), child, m, s) && ByteSize(t, row) == Some(size) && r + size <= U64 && j < m
    ensures size == m * s && j < U64 && r + j * s < U64
    ensures ArrayElem(t, Instance(row, r), j) == Some(Instance(child, r + j * s))
  {
    ElementAt(t, Instance(row, a), child, m, s, 0);
    ElementAt(t, Instance(row, r), child, m, s, j);
  }

  lemma RowAndColumn(i: nat, j: nat, m: nat, s: nat)
    ensures i * (m * s) + j * s == (i * m + j) * s
  {
    assert i * (m * s) == i * m * s;
    assert (i * m + j) * s == i * m * s + j * s;
  }

  // ---- members by name ----

  type Memory = u64 -> u64

  // The type of a member object; None is a failing assertion.
  function MemberType(t: Table, m: Handle): (r: Option<Handle>)
    requires m < |t.objects|
    ensures r.Some? ==> r.value < |t.objects|
  {
    match Find(t, t.objects[m].typ)
    case None => None
    case Some(b) => if b < |t.objects| && IsBaseType(t.objects[b].kind) then Some(b) else None
  }

  // The member that a structure holds under a name.
  function MemberNamed(t: Table, s: Handle, name: string): (r: Option<Handle>)
    requires s < |t.objects|
    ensures r.Some? ==> r.value < |t.objects|
  {
    if !IsStructured(t.objects[s].kind) || name !in t.objects[s].members then None
    else
      match t.objects[s].members[name]
      case None => None
      case Some(m) => if m < |t.objects| then Some(m) else None
  }

  // What memory holds at `address`, as an instance of the type that the pointer `bt` refers to.
  function PointedTo(t: Table, bt: Handle, address: u64, expectZeroPtr: bool, memory: Memory): Option<Instance>
    requires bt < |t.objects|
  {
    match Target(t, bt)
    case None => None
    case Some(b) => if memory(address) == 0 && !expectZeroPtr then None else Some(Instance(b, memory(address)))
  }

  // The member `m` of the structure at `address`; with `ptr` a member that is a pointer is followed.
  function MemberInstance(t: Table, address: u64, m: Handle, ptr: bool, expectZeroPtr: bool,
                          memory: Memory): Option<Instance>
    requires m < |t.objects|
  {
    match MemberType(t, m)
    case None => None
    case Some(bt) =>
      var a := (address + t.objects[m].location) % U64;
      if a == 0 then None
      else if ptr && Casts(t.objects[bt].kind, Pointer) then PointedTo(t, bt, a, expectZeroPtr, memory)
      else Some(Instance(bt, a))
  }

  // Instance::memberByName
  function MemberByName(t: Table, x: Instance, name: string, ptr: bool, expectZeroPtr: bool,
                        memory: Memory): Option<Instance>
    requires ChainEnds(t, x.typ)
  {
    if x.address == 0 then None
    else
      match RealType(t, x.typ)
      case None => None
      case Some(s) =>
        match MemberNamed(t, s, name)
        case None => None
        case Some(m) => MemberInstance(t, x.address, m, ptr, expectZeroPtr, memory)
  }

  // findBaseTypeByName without a class: the first base type of the name.
  function FirstNamed(t: Table, name: string): (r: Option<Handle>)
    ensures r.Some? ==> r.value < |t.objects|
  {
    var hs := BaseTypesNamed(t.names, name);
    if hs != [] && hs[0] < |t.objects| then Some(hs[0]) else None
  }

  // In a consistent table that is the oldest one.
  lemma FirstNamedIsOldest(t: Table, name: string, h: Handle)
    requires Inv(t) && name != ""
    ensures FirstNamed(t, name) == Some(h) <==>
            && h < |t.objects| && IsBaseType(t.objects[h].kind) && t.objects[h].name == name
            && forall g: nat | g < |t.objects| && IsBaseType(t.objects[g].kind) && t.objects[g].name == name :: h <= g
  {
    var hs := BaseTypesNamed(t.names, name);
    if hs == [] {
      NoneNamed(t, name);
    } else {
      assert hs[0] in hs;
      forall g: nat | g < |t.objects| && IsBaseType(t.objects[g].kind) && t.objects[g].name == name ensures hs[0] <= g {
        FirstIsLeast(t, name, g);
      }
    }
  }

  lemma NoneNamed(t: Table, name: string)
    requires BaseIndexOk(t) && name != "" && BaseTypesNamed(t.names, name) == []
    ensures forall g: nat | g < |t.objects| && IsBaseType(t.objects[g].kind) :: t.objects[g].name != name
  {}

  lemma FirstIsLeast(t: Table, name: string, g: Handle)
    requires BaseIndexOk(t) && OrderOk(t) && name != ""
    requires g < |t.objects| && IsBaseType(t.objects[g].kind) && t.objects[g].name == name
    ensures BaseTypesNamed(t.names, name) != [] && BaseTypesNamed(t.names, name)[0] <= g
  {
    assert g in BaseTypesNamed(t.names, name) && IsAscending(BaseTypesNamed(t.names, name));
  }

  // Instance::changeBaseType
  function ChangeBaseType(t: Table, x: Instance, newType: string, field: string): Option<Instance>
    requires x.typ < |t.objects|
  {
    match FirstNamed(t, newType)
    case None => None
    case Some(s) =>
      if t.objects[x.typ].name != "list_head" then Some(Instance(s, x.address))
      else
        match MemberNamed(t, s, field)
        case None => None
        case Some(m) => Some(Instance(s, (x.address - t.objects[m].location) % U64))
  }

  /**
   From a structure to its list_head member and back: the structure is found again, at its address,
   exactly when it is the first base type of its name.
   */
  lemma {:induction false} ContainerOf(t: Table, x: Instance, field: string, memory: Memory)
    requires ChainEnds(t, x.typ)
    requires MemberByName(t, x, field, false, false, memory).Some?
    requires var y := MemberByName(t, x, field, false, false, memory).value;
             y.typ < |t.objects| && t.objects[y.typ].name == "list_head"
    ensures RealType(t, x.typ).Some?
    ensures var y := MemberByName(t, x, field, false, false, memory).value;
            var s := RealType(t, x.typ).value;
            ChangeBaseType(t, y, t.objects[s].name, field) == Some(Instance(s, x.address))
            <==> FirstNamed(t, t.objects[s].name) == Some(s)
  {
    var s := RealType(t, x.typ).value;
    var m := MemberNamed(t, s, field).value;
    ThereAndBack(x.address, t.objects[m].location);
  }

  lemma ThereAndBack(a: u64, d: nat)
    ensures ((a + d) % U64 - d) % U64 == a
  {
    var q := (a + d) / U64;
    assert (a + d) % U64 == a + d - q * U64;
    if q == 0 {
    } else {
      Wraps(a, q);
    }
  }

  lemma {:induction false} Wraps(a: u64, q: nat)
    ensures (a - q * U64) % U64 == a
  {}
}
