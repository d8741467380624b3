/**
 Following reference types: the real type at the end of a chain of typedefs, constants, pointers and
 arrays, and the byte size along it.  Both are told of every single chain that ends, whatever the rest of
 the table refers to.
 */
module TypeChains {
  import opened Basics
  import opened SymbolTable
  import opened Runs
  import opened Parts
  import opened Links

  // ---- the chain of types ----

  // The type that an object refers to by its type id: null, or the assertions of findBaseTypeByID, are none.
  function TypeReferred(t: Table, h: Handle): (r: Option<Handle>)
    requires h < |t.objects|
    ensures r.Some? ==> r.value < |t.objects| && IsBaseType(t.objects[r.value].kind)
  {
    match if t.objects[h].typ == 0 then None else Find(t, t.objects[h].typ)
    case None => None
    case Some(g) => if g < |t.objects| && IsBaseType(t.objects[g].kind) then Some(g) else None
  }

  // The type that a reference type refers to.
  function Target(t: Table, h: Handle): (r: Option<Handle>)
    requires h < |t.objects|
    ensures r.Some? ==> r.value < |t.objects| && IsBaseType(t.objects[r.value].kind)
  {
    if IsRefType(t.objects[h].kind) then TypeReferred(t, h) else None
  }

  function TypeLinks(t: Table): (links: Links)
    ensures |links| == |t.objects|
    ensures forall h: nat | h < |t.objects| :: links[h] == Target(t, h) && Next(links, h) == Target(t, h)
  {
    seq(|t.objects|, h requires 0 <= h < |t.objects| => Target(t, h))
  }

  // The chain of the type `h` ends.
  ghost predicate ChainEnds(t: Table, h: Handle) {
    h < |t.objects| && Ends(TypeLinks(t), h)
  }

  lemma TargetChainEnds(t: Table, h: Handle)
    requires ChainEnds(t, h) && Target(t, h).Some?
    ensures ChainEnds(t, Target(t, h).value)
    ensures ChainLength(TypeLinks(t), Target(t, h).value) < ChainLength(TypeLinks(t), h)
  {
    ChainLengthNext(TypeLinks(t), h);
  }

  // Instance::getRealType; none is a failing assertion.
  function RealType(t: Table, h: Handle): (r: Option<Handle>)
    requires ChainEnds(t, h)
    ensures r.Some? ==> r.value < |t.objects| && !IsRefType(t.objects[r.value].kind)
    ensures r.Some? && IsBaseType(t.objects[h].kind) ==> IsBaseType(t.objects[r.value].kind)
    decreases ChainLength(TypeLinks(t), h)
  {
    if !IsRefType(t.objects[h].kind) then Some(h)
    else
      match Target(t, h)
      case None => None
      case Some(g) =>
        TargetChainEnds(t, h);
        RealType(t, g)
  }

  // Classes of which the loop of getRealType leaves none.
  predicate IsReferring(k: Kind) {
    k in {Typedef, Pointer, Const, Array}
  }

  // The chain of the type `h` leads to the type `g` in `n` references.
  predicate LeadsIn(t: Table, h: Handle, n: nat, g: Handle) {
    g < |t.objects| && Follow(TypeLinks(t), h, n) == Some(g)
  }

  // The real type is the one type on the chain that refers to no other ...
  ghost predicate IsRealType(t: Table, h: Handle, g: Handle) {
    exists n: nat :: LeadsIn(t, h, n, g) && !IsReferring(t.objects[g].kind)
  }

  // ... and there is none if the chain ends at a reference type whose type is null or no type.
  ghost predicate HasNoRealType(t: Table, h: Handle) {
    exists n: nat, g: Handle :: LeadsIn(t, h, n, g) && IsDeadEnd(t, g)
  }

  predicate IsDeadEnd(t: Table, g: Handle)
    requires g < |t.objects|
  {
    IsReferring(t.objects[g].kind) && HasNoType(t, t.objects[g].typ)
  }

  // The id is null, resolves to nothing, or resolves to a symbol that is no type.
  predicate HasNoType(t: Table, id: nat) {
    id == 0 || match Find(t, id)
               case None => true
               case Some(b) => b >= |t.objects| || t.objects[b].kind in {Var, Member}
  }

  lemma {:induction false} LeadsOn(t: Table, h: Handle, n: nat, g: Handle)
    requires h < |t.objects| && Target(t, h).Some?
    ensures LeadsIn(t, h, n + 1, g) <==> LeadsIn(t, Target(t, h).value, n, g)
  {}

  lemma LeadsFrom(t: Table, h: Handle, n: nat, g: Handle)
    requires h < |t.objects|
    ensures LeadsIn(t, h, 0, g) <==> g == h
    ensures Target(t, h).None? && LeadsIn(t, h, n, g) ==> g == h
  {}

  // What holds at the end of the chain from its second type on.
  lemma RealTypeNext(t: Table, h: Handle)
    requires h < |t.objects| && Target(t, h).Some?
    ensures forall g: Handle :: IsRealType(t, h, g) <==> IsRealType(t, Target(t, h).value, g)
    ensures HasNoRealType(t, h) <==> HasNoRealType(t, Target(t, h).value)
  {
    var b := Target(t, h).value;
    forall n: nat, g: Handle ensures LeadsIn(t, h, n + 1, g) <==> LeadsIn(t, b, n, g) { LeadsOn(t, h, n, g); }
    forall g: Handle ensures IsRealType(t, h, g) <==> IsRealType(t, b, g) {
      if n: nat :| LeadsIn(t, h, n, g) && !IsReferring(t.objects[g].kind) {
        LeadsFrom(t, h, n, g);
        assert n > 0 && LeadsIn(t, b, n - 1, g);
      }
      if n: nat :| LeadsIn(t, b, n, g) && !IsReferring(t.objects[g].kind) {
        assert LeadsIn(t, h, n + 1, g);
      }
    }
    if n: nat, g: Handle :| LeadsIn(t, h, n, g) && IsDeadEnd(t, g) {
      LeadsFrom(t, h, n, g);
      assert n > 0 && LeadsIn(t, b, n - 1, g);
    }
    if n: nat, g: Handle :| LeadsIn(t, b, n, g) && IsDeadEnd(t, g) {
      assert LeadsIn(t, h, n + 1, g);
    }
  }

  /**
   getRealType gives the type at the end of the chain exactly if that is no reference type, and fails exactly
   if it is one, which then refers to no type.
   */
  lemma {:induction false} RealTypeIff(t: Table, h: Handle)
    requires ChainEnds(t, h)
    ensures forall g: Handle :: RealType(t, h) == Some(g) <==> IsRealType(t, h, g)
    ensures RealType(t, h) == None <==> HasNoRealType(t, h)
    decreases ChainLength(TypeLinks(t), h)
  {
    if Target(t, h).Some? {
      TargetChainEnds(t, h);
      RealTypeIff(t, Target(t, h).value);
      RealTypeNext(t, h);
    } else {
      forall n: nat, g: Handle ensures LeadsIn(t, h, n, g) ==> g == h { LeadsFrom(t, h, n, g); }
      LeadsFrom(t, h, 0, h);
    }
  }

  // The product of the lengths of the arrays on the chain.
  function Lengths(t: Table, h: Handle): nat
    requires ChainEnds(t, h)
    decreases ChainLength(TypeLinks(t), h)
  {
    match Target(t, h)
    case None => 1
    case Some(g) =>
      TargetChainEnds(t, h);
      (if t.objects[h].kind == Array then t.objects[h].length else 1) * Lengths(t, g)
  }

  // ---- the chain of sizes ----

  // Objects whose getByteSize asks another one.
  predicate AsksForSize(x: Sym) {
    IsRefType(x.kind) || (x.kind == Member && x.byteSize == 0)
  }

  // The object asked: an array asks whatever symbol its type id resolves to.
  function SizeTarget(t: Table, h: Handle): (r: Option<Handle>)
    requires h < |t.objects|
    ensures r.Some? ==> r.value < |t.objects|
  {
    if !AsksForSize(t.objects[h]) then None
    else if t.objects[h].kind != Array then TypeReferred(t, h)
    else
      match Find(t, t.objects[h].typ)
      case None => None
      case Some(g) => if g < |t.objects| then Some(g) else None
  }

  function SizeLinks(t: Table): (links: Links)
    ensures |links| == |t.objects|
    ensures forall h: nat | h < |t.objects| :: links[h] == SizeTarget(t, h) && Next(links, h) == SizeTarget(t, h)
  {
    seq(|t.objects|, h requires 0 <= h < |t.objects| => SizeTarget(t, h))
  }

  ghost predicate SizeEnds(t: Table, h: Handle) {
    h < |t.objects| && Ends(SizeLinks(t), h)
  }

  lemma SizeTargetEnds(t: Table, h: Handle)
    requires SizeEnds(t, h) && SizeTarget(t, h).Some?
    ensures SizeEnds(t, SizeTarget(t, h).value)
    ensures ChainLength(SizeLinks(t), SizeTarget(t, h).value) < ChainLength(SizeLinks(t), h)
  {
    ChainLengthNext(SizeLinks(t), h);
  }

  // getByteSize of Symbol, RefBaseType, Array and StructuredMember, truncated to 32 bits at every array.
  function ByteSize(t: Table, h: Handle): Option<nat>
    requires SizeEnds(t, h)
    decreases ChainLength(SizeLinks(t), h)
  {
    if !AsksForSize(t.objects[h]) then Some(t.objects[h].byteSize)
    else
      match SizeTarget(t, h)
      case None => None
      case Some(g) =>
        SizeTargetEnds(t, h);
        match ByteSize(t, g)
        case None => None
        case Some(n) => Some(if t.objects[h].kind == Array then t.objects[h].length * n % U64 % U32 else n)
  }

  // ---- the size is a product ----

  lemma ModTwice(x: nat)
    ensures x % U64 % U32 == x % U32
  {}

  lemma ModProduct(a: nat, b: nat)
    ensures a * (b % U32) % U32 == a * b % U32
  {
    var q := b / U32;
    assert a * b == a * (b % U32) + a * q * U32 by {
      assert b == b % U32 + q * U32;
      assert a * (b % U32 + q * U32) == a * (b % U32) + a * (q * U32);
    }
    AddMultiple(a * (b % U32), a * q);
  }

  lemma AddMultiple(r: nat, q: nat)
    ensures (r + q * U32) % U32 == r % U32
  {}

  lemma ProductStep(length: nat, lengths: nat, size: nat)
    ensures length * (lengths * size % U32) % U64 % U32 == length * lengths * size % U32
  {
    ModTwice(length * (lengths * size % U32));
    ModProduct(length, lengths * size);
    assert length * (lengths * size) == length * lengths * size;
  }

  // A chain whose types are all there is followed for its size in the same way.
  lemma SizeFollowsTypes(t: Table, h: Handle)
    requires h < |t.objects| && Target(t, h).Some?
    ensures SizeTarget(t, h) == Target(t, h)
  {}

  /**
   The size of a type that has a real type is the product of the array lengths on its chain and the size
   of the real type, modulo 2^32, although it is truncated at every array.
   */
  lemma {:induction false} ByteSizeIsProduct(t: Table, h: Handle)
    requires ChainEnds(t, h) && IsBaseType(t.objects[h].kind) && SizesOk(t) && RealType(t, h).Some?
    ensures SizeEnds(t, h)
    ensures ByteSize(t, h) == Some(Lengths(t, h) * t.objects[RealType(t, h).value].byteSize % U32)
    decreases ChainLength(TypeLinks(t), h)
  {
    if IsRefType(t.objects[h].kind) {
      var g := Target(t, h).value;
      TargetChainEnds(t, h);
      ByteSizeIsProduct(t, g);
      SizeFollowsTypes(t, h);
      EndsNext(SizeLinks(t), h);
      ProductStep(if t.objects[h].kind == Array then t.objects[h].length else 1, Lengths(t, g),
                  t.objects[RealType(t, h).value].byteSize);
    } else {
      assert EndsWithin(SizeLinks(t), h, 0);
    }
  }

  // The object at the end of the chain of sizes, and the product of the array lengths on it.
  ghost function SizeSource(t: Table, h: Handle): (g: Handle)
    requires SizeEnds(t, h)
    ensures g < |t.objects|
  {
    LastInRange(SizeLinks(t), h);
    Last(SizeLinks(t), h)
  }

  lemma {:induction false} LastInRange(links: Links, i: nat)
    requires Ends(links, i) && i < |links|
    ensures Last(links, i) < |links|
    decreases ChainLength(links, i)
  {
    if Next(links, i).Some? {
      ChainLengthNext(links, i);
      LastInRange(links, Next(links, i).value);
    }
  }

  function SizeFactor(t: Table, h: Handle): nat
    requires SizeEnds(t, h)
    decreases ChainLength(SizeLinks(t), h)
  {
    match SizeTarget(t, h)
    case None => 1
    case Some(g) =>
      SizeTargetEnds(t, h);
      (if t.objects[h].kind == Array then t.objects[h].length else 1) * SizeFactor(t, g)
  }

  /**
   getByteSize fails exactly if the chain of sizes ends at a reference type or at a member without a size, which
   then refers to no type, or as an array to no symbol; otherwise the size is the product of the array lengths on
   the chain and of the size at its end, modulo 2^32.
   */
  lemma {:induction false} ByteSizeIff(t: Table, h: Handle)
    requires SizeEnds(t, h) && SizesOk(t)
    ensures var x := t.objects[SizeSource(t, h)];
            ByteSize(t, h) == if IsReferring(x.kind) || (x.kind == Member && x.byteSize == 0) then None
                              else Some(SizeFactor(t, h) * x.byteSize % U32)
    ensures ByteSize(t, h) == None ==>
              var x := t.objects[SizeSource(t, h)];
              if x.kind == Array then Find(t, x.typ) == None || Find(t, x.typ).value >= |t.objects|
              else HasNoType(t, x.typ)
    decreases ChainLength(SizeLinks(t), h)
  {
    if SizeTarget(t, h).Some? {
      var g := SizeTarget(t, h).value;
      SizeTargetEnds(t, h);
      ByteSizeIff(t, g);
      ProductStep(if t.objects[h].kind == Array then t.objects[h].length else 1, SizeFactor(t, g),
                  t.objects[SizeSource(t, h)].byteSize);
    }
  }

  // ---- ranked tables ----

  // Where references point at older types only, every chain ends.
  lemma RankedChainsEnd(t: Table, h: Handle)
    requires Ranked(t) && h < |t.objects|
    ensures ChainEnds(t, h)
  {
    forall g: nat | g < |t.objects| && Next(TypeLinks(t), g).Some? ensures Next(TypeLinks(t), g).value < g {
      assert RankedAt(t, g);
    }
    DownwardEnds(TypeLinks(t), h);
  }
}
