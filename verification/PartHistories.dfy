/**
 What arrays, enumerations, variables and structures say about the DIEs they were built from, over any run.
 */
module PartHistories {
  import opened Basics
  import opened Dwarf
  import opened SymbolTable
  import opened Invariant
  import opened VisitKeeps
  import opened Runs
  import opened Functions

  // ---- what the DIEs say ----

  // A visit of a DIE of the class `tag` whose parent symbol is `h`, after visits that returned `syms`.
  predicate IsPartOf(op: Op, syms: seq<Option<Handle>>, h: Handle, tag: Tag) {
    op.Visit? && op.die.tag == tag && ParentSym(syms, op.parent) == Some(h)
  }

  // The length that the last subrange of `h` with an upper bound gives, 0 if there is none.
  function LastLength(ops: seq<Op>, syms: seq<Option<Handle>>, h: Handle): nat
    requires |ops| == |syms|
  {
    if ops == [] then 0
    else
      var n := |ops| - 1;
      if IsPartOf(ops[n], syms[..n], h, SubrangeTag) && ops[n].die.upperBound.Some?
      then (ops[n].die.upperBound.value + 1) % U64
      else LastLength(ops[..n], syms[..n], h)
  }

  // The index type that the last subrange of `h` with a type gives.
  function LastIndexType(ops: seq<Op>, syms: seq<Option<Handle>>, h: Handle): Option<Key>
    requires |ops| == |syms|
  {
    if ops == [] then None
    else
      var n := |ops| - 1;
      if IsPartOf(ops[n], syms[..n], h, SubrangeTag) && ops[n].die.typeRef.Some?
      then Some(RefKey(ops[n].place, ops[n].die.typeRef.value))
      else LastIndexType(ops[..n], syms[..n], h)
  }

  // The name of the last enumerator of `h` with the value `v`.
  function LastName(ops: seq<Op>, syms: seq<Option<Handle>>, h: Handle, v: nat): Option<string>
    requires |ops| == |syms|
  {
    if ops == [] then None
    else
      var n := |ops| - 1;
      if IsPartOf(ops[n], syms[..n], h, EnumeratorTag) && ops[n].die.constValue.Some?
        && ops[n].die.constValue.value % U32 == v
      then Some(ops[n].die.name)
      else LastName(ops[..n], syms[..n], h, v)
  }

  predicate IsVariableDie(op: Op, sym: Option<Handle>, h: Handle) {
    op.Visit? && op.die.tag == VariableTag && sym == Some(h)
  }

  // The first location other than zero that a variable DIE of `h` gives, zero if none does.
  function FirstLocation(ops: seq<Op>, syms: seq<Option<Handle>>, h: Handle): nat
    requires |ops| == |syms|
  {
    if ops == [] then 0
    else
      var n := |ops| - 1;
      var before := FirstLocation(ops[..n], syms[..n], h);
      if before == 0 && IsVariableDie(ops[n], syms[n], h) && ops[n].die.location.Some? then ops[n].die.location.value
      else before
  }

  // A member DIE of that name whose parent symbol is `h`.
  predicate IsMemberNamed(op: Op, syms: seq<Option<Handle>>, h: Handle, name: string) {
    IsPartOf(op, syms, h, MemberTag) && op.die.name == name
  }

  // The entry that a name first got in `h`: what the visit of its first member DIE returned, or null if
  // the name was looked up before.
  function FirstEntry(ops: seq<Op>, syms: seq<Option<Handle>>, h: Handle, name: string): Option<Option<Handle>>
    requires |ops| == |syms|
  {
    if ops == [] then None
    else
      var n := |ops| - 1;
      var before := FirstEntry(ops[..n], syms[..n], h, name);
      if before.Some? then before
      else if IsMemberNamed(ops[n], syms[..n], h, name) then Some(syms[n])
      else if ops[n] == MemberNamed(h, name) then Some(None)
      else None
  }

  // ---- what the objects store ----

  ghost predicate ArrayAgrees(hist: seq<Op>, s: State, h: Handle)
    requires |hist| == |s.syms| && h < |s.table.objects|
  {
    s.table.objects[h].length == LastLength(hist, s.syms, h)
    && IsIdOf(s.table.ids, s.table.objects[h].lengthType, LastIndexType(hist, s.syms, h))
  }

  ghost predicate EnumAgrees(hist: seq<Op>, s: State, h: Handle)
    requires |hist| == |s.syms| && h < |s.table.objects|
  {
    forall v: nat :: LastName(hist, s.syms, h, v)
                     == if v in s.table.objects[h].enumValues then Some(s.table.objects[h].enumValues[v]) else None
  }

  ghost predicate VariableAgrees(hist: seq<Op>, s: State, h: Handle)
    requires |hist| == |s.syms| && h < |s.table.objects|
  {
    s.table.objects[h].location == FirstLocation(hist, s.syms, h)
  }

  ghost predicate EntriesAgree(hist: seq<Op>, s: State, h: Handle)
    requires |hist| == |s.syms| && h < |s.table.objects|
  {
    forall n: string :: FirstEntry(hist, s.syms, h, n)
                        == if n in s.table.objects[h].members then Some(s.table.objects[h].members[n]) else None
  }

  ghost predicate PartsAgree(hist: seq<Op>, s: State, h: Handle)
    requires |hist| == |s.syms| && h < |s.table.objects|
  {
    && (s.table.objects[h].kind == Array ==> ArrayAgrees(hist, s, h))
    && (s.table.objects[h].kind == Enum ==> EnumAgrees(hist, s, h))
    && (s.table.objects[h].kind == Var ==> VariableAgrees(hist, s, h))
    && (IsStructured(s.table.objects[h].kind) ==> EntriesAgree(hist, s, h))
  }

  // ---- what a visit does ----

  // The parts of the objects of these classes.
  predicate SameParts(x: Sym, y: Sym) {
    (x.kind == Array ==> y.length == x.length && y.lengthType == x.lengthType)
    && (x.kind == Enum ==> y.enumValues == x.enumValues)
    && (x.kind == Var ==> y.location == x.location)
    && (IsStructured(x.kind) ==> y.members == x.members)
  }

  // The old objects keep their parts; a new one has none yet, unless it is a variable.
  ghost predicate PartsLeft(t: Table, t1: Table) {
    |t.objects| <= |t1.objects| <= |t.objects| + 1
    && (forall g: nat | g < |t.objects| :: SameParts(t.objects[g], t1.objects[g]))
    && (|t1.objects| > |t.objects| ==> NoParts(t1.objects[|t.objects|]))
  }

  predicate NoParts(x: Sym) {
    && (x.kind == Array ==> x.length == 0 && x.lengthType == 0)
    && (x.kind == Enum ==> x.enumValues == map[])
    && (IsStructured(x.kind) ==> x.members == map[])
    && x.kind != Var
  }

  lemma SameLeft(t: Table)
    ensures PartsLeft(t, t)
  {}

  lemma NewSymbolLeaves(t: Table, place: Place, die: Die, kind: Kind)
    requires kind != Var
    ensures PartsLeft(t, NewSymbol(t, place, die, kind))
  {}

  lemma TypeLeaves(t: Table, place: Place, die: Die, kind: Kind)
    requires kind != Var
    ensures PartsLeft(t, TypeInstance(t, place, die, kind).table)
  {
    SameLeft(t);
    NewSymbolLeaves(t, place, die, kind);
  }

  lemma NewRefLeaves(t: Table, place: Place, die: Die, kind: Kind)
    requires IsRefType(kind)
    ensures PartsLeft(t, NewRefType(t, place, die, kind))
  {}

  lemma RefLeaves(t: Table, place: Place, die: Die, kind: Kind)
    requires IsRefType(kind)
    ensures PartsLeft(t, RefTypeInstance(t, place, die, kind).table)
  {
    SameLeft(t);
    NewRefLeaves(t, place, die, kind);
  }

  lemma FunctionLeaves(t: Table, place: Place, die: Die)
    ensures PartsLeft(t, FunctionInstance(t, place, die).table)
  {}

  lemma FormalLeaves(t: Table, place: Place, die: Die, h: Handle)
    requires h < |t.objects|
    ensures PartsLeft(t, AddParam(t, place, die, h))
  {}

  lemma OtherVisitsLeave(t: Table, place: Place, die: Die, parent: Option<Handle>)
    requires die.tag !in {SubrangeTag, EnumeratorTag, VariableTag, MemberTag}
    ensures match VisitDie(t, place, die, parent) case None => true case Some(v) => PartsLeft(t, v.table)
  {
    SameLeft(t);
    match die.tag
    case TypedefTag => RefLeaves(t, place, die, Typedef);
    case PointerTag => RefLeaves(t, place, die, Pointer);
    case ConstTag => RefLeaves(t, place, die, Const);
    case ArrayTag => NewRefLeaves(t, place, die, Array);
    case StructTag => TypeLeaves(t, place, die, Struct);
    case UnionTag => TypeLeaves(t, place, die, Union);
    case BaseTag => TypeLeaves(t, place, die, Base);
    case EnumTag => TypeLeaves(t, place, die, Enum);
    case SubprogramTag => FunctionLeaves(t, place, die);
    case FormalTag =>
      var p := ParentOf(t, parent, IsFunction);
      if p.Some? { FormalLeaves(t, place, die, p.value); }
    case OtherTag =>
  }

  lemma LookupsLeaveParts(s: State, op: Op)
    requires !op.Visit? && !op.MemberNamed? && Step(s, op).Some?
    ensures PartsLeft(s.table, Step(s, op).value.table)
  {}

  // ---- the histories after one more operation ----

  lemma {:induction false} LengthGrows(hist: seq<Op>, syms: seq<Option<Handle>>, op: Op, sym: Option<Handle>, h: Handle)
    requires |hist| == |syms|
    ensures LastLength(hist + [op], syms + [sym], h)
            == if IsPartOf(op, syms, h, SubrangeTag) && op.die.upperBound.Some? then (op.die.upperBound.value + 1) % U64
               else LastLength(hist, syms, h)
    ensures LastIndexType(hist + [op], syms + [sym], h)
            == if IsPartOf(op, syms, h, SubrangeTag) && op.die.typeRef.Some?
               then Some(RefKey(op.place, op.die.typeRef.value))
               else LastIndexType(hist, syms, h)
  {
    assert (hist + [op])[..|hist|] == hist && (syms + [sym])[..|syms|] == syms;
  }

  lemma {:induction false} NameGrows(hist: seq<Op>, syms: seq<Option<Handle>>, op: Op, sym: Option<Handle>, h: Handle,
                                     v: nat)
    requires |hist| == |syms|
    ensures LastName(hist + [op], syms + [sym], h, v)
            == if IsPartOf(op, syms, h, EnumeratorTag) && op.die.constValue.Some? && op.die.constValue.value % U32 == v
               then Some(op.die.name) else LastName(hist, syms, h, v)
  {
    assert (hist + [op])[..|hist|] == hist && (syms + [sym])[..|syms|] == syms;
  }

  lemma {:induction false} LocationGrows(hist: seq<Op>, syms: seq<Option<Handle>>, op: Op, sym: Option<Handle>,
                                         h: Handle)
    requires |hist| == |syms|
    ensures FirstLocation(hist + [op], syms + [sym], h)
            == var before := FirstLocation(hist, syms, h);
               if before == 0 && IsVariableDie(op, sym, h) && op.die.location.Some? then op.die.location.value
               else before
  {
    assert (hist + [op])[..|hist|] == hist && (syms + [sym])[..|syms|] == syms;
  }

  lemma {:induction false} EntryGrows(hist: seq<Op>, syms: seq<Option<Handle>>, op: Op, sym: Option<Handle>, h: Handle,
                                      name: string)
    requires |hist| == |syms|
    ensures FirstEntry(hist + [op], syms + [sym], h, name)
            == var before := FirstEntry(hist, syms, h, name);
               if before.Some? then before else if IsMemberNamed(op, syms, h, name) then Some(sym)
               else if op == MemberNamed(h, name) then Some(None) else None
  {
    assert (hist + [op])[..|hist|] == hist && (syms + [sym])[..|syms|] == syms;
  }

  // Lookups concern objects that exist.
  ghost predicate LookupsBelow(hist: seq<Op>, h: Handle) {
    forall i | 0 <= i < |hist| && hist[i].MemberNamed? :: hist[i].handle < h
  }

  lemma {:induction false} NoEntries(hist: seq<Op>, syms: seq<Option<Handle>>, h: Handle, name: string)
    requires |hist| == |syms| && (forall i | 0 <= i < |syms| :: syms[i] != Some(h)) && LookupsBelow(hist, h)
    ensures FirstEntry(hist, syms, h, name) == None
  {
    if hist != [] {
      NoEntries(hist[..|hist| - 1], syms[..|syms| - 1], h, name);
    }
  }

  // A handle that no visit returned has no history.
  lemma {:induction false} NoPartHistory(hist: seq<Op>, syms: seq<Option<Handle>>, h: Handle)
    requires |hist| == |syms| && forall i | 0 <= i < |syms| :: syms[i] != Some(h)
    ensures LastLength(hist, syms, h) == 0 && LastIndexType(hist, syms, h) == None && FirstLocation(hist, syms, h) == 0
    ensures forall v: nat :: LastName(hist, syms, h, v) == None
  {
    if hist != [] {
      var n := |hist| - 1;
      NoPartHistory(hist[..n], syms[..n], h);
      forall v: nat ensures LastName(hist, syms, h, v) == None {
        assert LastName(hist[..n], syms[..n], h, v) == None;
      }
    }
  }

  // ---- every step keeps the agreement ----

  lemma IdStays(ids: Ids, ids1: Ids, id: nat, key: Option<Key>)
    requires IsIdOf(ids, id, key) && forall k <- ids.byKey :: k in ids1.byKey && ids1.byKey[k] == ids.byKey[k]
    ensures IsIdOf(ids1, id, key)
  {}

  lemma ArrayStays(hist: seq<Op>, s: State, op: Op, s1: State, sym: Option<Handle>, h: Handle)
    requires |hist| == |s.syms| && h < |s.table.objects| && ArrayAgrees(hist, s, h) && s1.syms == s.syms + [sym]
    requires Extends(s.table, s1.table) && s1.table.objects[h].length == s.table.objects[h].length
    requires s1.table.objects[h].lengthType == s.table.objects[h].lengthType && !IsPartOf(op, s.syms, h, SubrangeTag)
    ensures ArrayAgrees(hist + [op], s1, h)
  {
    LengthGrows(hist, s.syms, op, sym, h);
    IdStays(s.table.ids, s1.table.ids, s.table.objects[h].lengthType, LastIndexType(hist, s.syms, h));
  }

  lemma ArrayStep(hist: seq<Op>, s: State, op: Op, s1: State, h: Handle)
    requires |hist| == |s.syms| && IdsOk(s.table.ids) && h < |s.table.objects| && ArrayAgrees(hist, s, h)
    requires s.table.objects[h].kind == Array && Step(s, op) == Some(s1) && IsPartOf(op, s.syms, h, SubrangeTag)
    ensures s1.syms == s.syms + [None] && ArrayAgrees(hist + [op], s1, h)
  {
    LengthGrows(hist, s.syms, op, None, h);
    InternTypeKeeps(s.table.ids, op.place, op.die.typeRef);
    IdStays(s.table.ids, s1.table.ids, s.table.objects[h].lengthType, LastIndexType(hist, s.syms, h));
  }

  lemma EnumStays(hist: seq<Op>, s: State, op: Op, s1: State, sym: Option<Handle>, h: Handle)
    requires |hist| == |s.syms| && h < |s.table.objects| && EnumAgrees(hist, s, h) && s1.syms == s.syms + [sym]
    requires h < |s1.table.objects| && s1.table.objects[h].enumValues == s.table.objects[h].enumValues
    requires !IsPartOf(op, s.syms, h, EnumeratorTag)
    ensures EnumAgrees(hist + [op], s1, h)
  {
    forall v: nat ensures LastName(hist + [op], s1.syms, h, v) == LastName(hist, s.syms, h, v) {
      NameGrows(hist, s.syms, op, sym, h, v);
    }
  }

  lemma EnumStep(hist: seq<Op>, s: State, op: Op, s1: State, h: Handle)
    requires |hist| == |s.syms| && h < |s.table.objects| && EnumAgrees(hist, s, h)
    requires s.table.objects[h].kind == Enum && Step(s, op) == Some(s1) && IsPartOf(op, s.syms, h, EnumeratorTag)
    ensures s1.syms == s.syms + [None] && h < |s1.table.objects| && EnumAgrees(hist + [op], s1, h)
  {
    var values := s1.table.objects[h].enumValues;
    forall v: nat ensures LastName(hist + [op], s1.syms, h, v) == if v in values then Some(values[v]) else None {
      NameGrows(hist, s.syms, op, None, h, v);
      assert LastName(hist, s.syms, h, v)
             == if v in s.table.objects[h].enumValues then Some(s.table.objects[h].enumValues[v]) else None;
    }
  }

  lemma VariableStays(hist: seq<Op>, s: State, op: Op, s1: State, sym: Option<Handle>, h: Handle)
    requires |hist| == |s.syms| && h < |s.table.objects| && VariableAgrees(hist, s, h) && s1.syms == s.syms + [sym]
    requires h < |s1.table.objects| && s1.table.objects[h].location == s.table.objects[h].location
    requires !IsVariableDie(op, sym, h)
    ensures VariableAgrees(hist + [op], s1, h)
  {
    LocationGrows(hist, s.syms, op, sym, h);
  }

  // The operation enters nothing into `h`.
  ghost predicate EntersNothing(op: Op, syms: seq<Option<Handle>>, h: Handle) {
    !IsPartOf(op, syms, h, MemberTag) && !(op.MemberNamed? && op.handle == h)
  }

  lemma EntriesStay(hist: seq<Op>, s: State, op: Op, s1: State, sym: Option<Handle>, h: Handle)
    requires |hist| == |s.syms| && h < |s.table.objects| && EntriesAgree(hist, s, h) && s1.syms == s.syms + [sym]
    requires h < |s1.table.objects| && s1.table.objects[h].members == s.table.objects[h].members
    requires EntersNothing(op, s.syms, h)
    ensures EntriesAgree(hist + [op], s1, h)
  {
    forall n: string ensures FirstEntry(hist + [op], s1.syms, h, n) == FirstEntry(hist, s.syms, h, n) {
      EntryGrows(hist, s.syms, op, sym, h, n);
    }
  }

  // The entry of one name, if it is new, becomes what the operation returned.
  lemma EntryStep(hist: seq<Op>, s: State, op: Op, s1: State, sym: Option<Handle>, h: Handle, name: string)
    requires |hist| == |s.syms| && h < |s.table.objects| && EntriesAgree(hist, s, h) && s1.syms == s.syms + [sym]
    requires IsMemberNamed(op, s.syms, h, name) || (op == MemberNamed(h, name) && sym == None)
    requires h < |s1.table.objects|
    requires var members := s.table.objects[h].members;
             s1.table.objects[h].members == if name in members then members else members[name := sym]
    ensures EntriesAgree(hist + [op], s1, h)
  {
    var members := s1.table.objects[h].members;
    forall n: string ensures FirstEntry(hist + [op], s1.syms, h, n) == if n in members then Some(members[n]) else None {
      EntryGrows(hist, s.syms, op, sym, h, n);
      assert FirstEntry(hist, s.syms, h, n)
             == if n in s.table.objects[h].members then Some(s.table.objects[h].members[n]) else None;
    }
  }

  // An operation other than the visit of a part or a variable and the lookup of a member.
  predicate IsOther(op: Op) {
    !op.MemberNamed? && (op.Visit? ==> op.die.tag !in {SubrangeTag, EnumeratorTag, VariableTag, MemberTag})
  }

  // The parts of an object that the operation leaves alone.
  lemma PartsStay(hist: seq<Op>, s: State, op: Op, s1: State, sym: Option<Handle>, h: Handle)
    requires |hist| == |s.syms| && h < |s.table.objects| && PartsAgree(hist, s, h) && s1.syms == s.syms + [sym]
    requires Extends(s.table, s1.table) && SameParts(s.table.objects[h], s1.table.objects[h])
    requires IsOther(op)
    ensures PartsAgree(hist + [op], s1, h)
  {
    assert SameIdentity(s.table.objects[h], s1.table.objects[h]);
    match s.table.objects[h].kind
    case Array => ArrayStays(hist, s, op, s1, sym, h);
    case Enum => EnumStays(hist, s, op, s1, sym, h);
    case Var => VariableStays(hist, s, op, s1, sym, h);
    case Struct => EntriesStay(hist, s, op, s1, sym, h);
    case Union => EntriesStay(hist, s, op, s1, sym, h);
    case _ =>
  }

  lemma FreshParts(hist: seq<Op>, s: State, op: Op, s1: State, sym: Option<Handle>)
    requires SymsOk(hist, s) && s1.syms == s.syms + [sym] && |s1.table.objects| > |s.table.objects|
    requires NoParts(s1.table.objects[|s.table.objects|]) && LookupsBelow(hist, |s.table.objects|)
    requires IsOther(op) || (op.Visit? && op.die.tag == MemberTag
             && ParentSym(s.syms, op.parent) != Some(|s.table.objects|))
    ensures PartsAgree(hist + [op], s1, |s.table.objects|)
  {
    var h := |s.table.objects|;
    NoPartHistory(hist, s.syms, h);
    LengthGrows(hist, s.syms, op, sym, h);
    forall v: nat ensures LastName(hist + [op], s1.syms, h, v) == None { NameGrows(hist, s.syms, op, sym, h, v); }
    forall n: string ensures FirstEntry(hist + [op], s1.syms, h, n) == None {
      NoEntries(hist, s.syms, h, n);
      EntryGrows(hist, s.syms, op, sym, h, n);
    }
  }

  // An operation other than the visit of a subrange, an enumerator or a variable.
  lemma OtherOp(hist: seq<Op>, s: State, op: Op, s1: State, h: Handle)
    requires SymsOk(hist, s) && Step(s, op) == Some(s1) && Extends(s.table, s1.table)
    requires |s1.syms| == |s.syms| + 1 && s1.syms[..|s.syms|] == s.syms
    requires IsOther(op) && LookupsBelow(hist, |s.table.objects|)
    requires h < |s1.table.objects| && (h < |s.table.objects| ==> PartsAgree(hist, s, h))
    ensures PartsAgree(hist + [op], s1, h)
  {
    if op.Visit? {
      OtherVisitsLeave(s.table, op.place, op.die, ParentSym(s.syms, op.parent));
    } else {
      LookupsLeaveParts(s, op);
    }
    var sym := s1.syms[|s.syms|];
    assert s1.syms == s.syms + [sym];
    if h < |s.table.objects| {
      PartsStay(hist, s, op, s1, sym, h);
    } else {
      FreshParts(hist, s, op, s1, sym);
    }
  }

  lemma SubrangeOp(hist: seq<Op>, s: State, op: Op, s1: State, h: Handle)
    requires SymsOk(hist, s) && IdsOk(s.table.ids) && Step(s, op) == Some(s1) && Extends(s.table, s1.table)
    requires op.Visit? && op.die.tag == SubrangeTag && h < |s.table.objects| && PartsAgree(hist, s, h)
    ensures |s1.table.objects| == |s.table.objects| && |s1.syms| == |s.syms| + 1 && PartsAgree(hist + [op], s1, h)
  {
    assert SameIdentity(s.table.objects[h], s1.table.objects[h]);
    match s.table.objects[h].kind
    case Array =>
      if IsPartOf(op, s.syms, h, SubrangeTag) {
        ArrayStep(hist, s, op, s1, h);
      } else {
        ArrayStays(hist, s, op, s1, None, h);
      }
    case Enum => EnumStays(hist, s, op, s1, None, h);
    case Var => VariableStays(hist, s, op, s1, None, h);
    case Struct => EntriesStay(hist, s, op, s1, None, h);
    case Union => EntriesStay(hist, s, op, s1, None, h);
    case _ =>
  }

  lemma EnumeratorOp(hist: seq<Op>, s: State, op: Op, s1: State, h: Handle)
    requires SymsOk(hist, s) && Step(s, op) == Some(s1) && Extends(s.table, s1.table)
    requires op.Visit? && op.die.tag == EnumeratorTag && h < |s.table.objects| && PartsAgree(hist, s, h)
    ensures |s1.table.objects| == |s.table.objects| && |s1.syms| == |s.syms| + 1 && PartsAgree(hist + [op], s1, h)
  {
    assert SameIdentity(s.table.objects[h], s1.table.objects[h]);
    match s.table.objects[h].kind
    case Array => ArrayStays(hist, s, op, s1, None, h);
    case Enum =>
      if IsPartOf(op, s.syms, h, EnumeratorTag) {
        EnumStep(hist, s, op, s1, h);
      } else {
        EnumStays(hist, s, op, s1, None, h);
      }
    case Var => VariableStays(hist, s, op, s1, None, h);
    case Struct => EntriesStay(hist, s, op, s1, None, h);
    case Union => EntriesStay(hist, s, op, s1, None, h);
    case _ =>
  }

  // What the visit of a variable DIE does: nothing, a new variable, or one update.
  lemma VariableVisit(t: Table, place: Place, die: Die, g: Handle)
    requires IndexOk(t, t.names.variables, IsVariable) && g < |t.objects|
    ensures var v := VariableInstance(t, place, die);
            && |t.objects| <= |v.table.objects| <= |t.objects| + 1 && v.sym.Some?
            && (if v.sym == Some(g) then v.table.objects[g] == UpdatedVariable(t.objects[g], die)
                else v.table.objects[g] == t.objects[g])
            && (|v.table.objects| > |t.objects| ==>
                  v.sym == Some(|t.objects|) && v.table.objects[|t.objects|].kind == Var
                  && v.table.objects[|t.objects|].location == if die.location.Some? then die.location.value else 0)
  {}

  lemma VariableStep(s: State, op: Op, s1: State, h: Handle)
    requires IndexOk(s.table, s.table.names.variables, IsVariable) && h < |s.table.objects|
    requires op.Visit? && op.die.tag == VariableTag && Step(s, op) == Some(s1)
    ensures |s1.syms| == |s.syms| + 1 && s1.syms == s.syms + [s1.syms[|s.syms|]] && h < |s1.table.objects|
    ensures s1.table.objects[h] == if IsVariableDie(op, s1.syms[|s.syms|], h)
            then UpdatedVariable(s.table.objects[h], op.die)
                                   else s.table.objects[h]
  {
    VariableVisit(s.table, op.place, op.die, h);
  }

  // A variable DIE leaves everything but variables alone.
  lemma VariableLeaves(hist: seq<Op>, s: State, op: Op, s1: State, sym: Option<Handle>, h: Handle)
    requires |hist| == |s.syms| && h < |s.table.objects| && PartsAgree(hist, s, h) && s1.syms == s.syms + [sym]
    requires Extends(s.table, s1.table) && SameParts(s.table.objects[h], s1.table.objects[h])
    requires op.Visit? && op.die.tag == VariableTag && s.table.objects[h].kind != Var
    ensures PartsAgree(hist + [op], s1, h)
  {
    assert SameIdentity(s.table.objects[h], s1.table.objects[h]);
    match s.table.objects[h].kind
    case Array => ArrayStays(hist, s, op, s1, sym, h);
    case Enum => EnumStays(hist, s, op, s1, sym, h);
    case Struct => EntriesStay(hist, s, op, s1, sym, h);
    case Union => EntriesStay(hist, s, op, s1, sym, h);
    case _ =>
  }

  lemma VariableOp(hist: seq<Op>, s: State, op: Op, s1: State, h: Handle)
    requires SymsOk(hist, s) && Inv(s.table) && Step(s, op) == Some(s1) && Extends(s.table, s1.table)
    requires op.Visit? && op.die.tag == VariableTag && h < |s.table.objects| && PartsAgree(hist, s, h)
    ensures |s1.syms| == |s.syms| + 1 && PartsAgree(hist + [op], s1, h)
  {
    VariableStep(s, op, s1, h);
    var sym := s1.syms[|s.syms|];
    if s.table.objects[h].kind == Var {
      assert SameIdentity(s.table.objects[h], s1.table.objects[h]);
      LocationGrows(hist, s.syms, op, sym, h);
    } else {
      VariableLeaves(hist, s, op, s1, sym, h);
    }
  }

  lemma NewVariableOp(hist: seq<Op>, s: State, op: Op, s1: State)
    requires SymsOk(hist, s) && Inv(s.table) && Step(s, op) == Some(s1)
    requires op.Visit? && op.die.tag == VariableTag && |s1.table.objects| > |s.table.objects|
    ensures |s1.table.objects| == |s.table.objects| + 1 && |s1.syms| == |s.syms| + 1
    ensures PartsAgree(hist + [op], s1, |s.table.objects|)
  {
    var h := |s.table.objects|;
    NewVariableEnters(s.table, op.place, op.die);
    NoPartHistory(hist, s.syms, h);
    LocationGrows(hist, s.syms, op, Some(h), h);
  }

  // What the visit of a member DIE does: nothing, or an entry in its parent and perhaps a new member.
  lemma MemberVisit(t: Table, place: Place, die: Die, p: Handle, g: Handle)
    requires p < |t.objects| && g < |t.objects|
    ensures var v := AddMember(t, place, die, p);
            var x := t.objects[g];
            && |t.objects| <= |v.table.objects| <= |t.objects| + 1
            && (if g == p && die.name !in x.members
                then v.table.objects[g] == x.(members := x.members[die.name := v.sym])
                else v.table.objects[g] == x)
            && (die.name in t.objects[p].members ==> v.sym == t.objects[p].members[die.name])
            && (|v.table.objects| > |t.objects| ==> v.table.objects[|t.objects|].kind == Member)
  {}

  lemma MemberOp(hist: seq<Op>, s: State, op: Op, s1: State, h: Handle)
    requires SymsOk(hist, s) && Step(s, op) == Some(s1) && Extends(s.table, s1.table)
    requires |s1.syms| == |s.syms| + 1 && s1.syms[..|s.syms|] == s.syms
    requires op.Visit? && op.die.tag == MemberTag && h < |s.table.objects| && PartsAgree(hist, s, h)
    ensures PartsAgree(hist + [op], s1, h)
  {
    hide EntriesAgree, ArrayAgrees, EnumAgrees, VariableAgrees;
    var sym, p := s1.syms[|s.syms|], ParentOf(s.table, ParentSym(s.syms, op.parent), IsStructured);
    assert s1.syms == s.syms + [sym];
    assert SameIdentity(s.table.objects[h], s1.table.objects[h]);
    if p.Some? { MemberVisit(s.table, op.place, op.die, p.value, h); }
    match s.table.objects[h].kind
    case Array => ArrayStays(hist, s, op, s1, sym, h);
    case Enum => EnumStays(hist, s, op, s1, sym, h);
    case Var => VariableStays(hist, s, op, s1, sym, h);
    case Struct => EntryOp(hist, s, op, s1, sym, h);
    case Union => EntryOp(hist, s, op, s1, sym, h);
    case _ =>
  }

  lemma EntryOp(hist: seq<Op>, s: State, op: Op, s1: State, sym: Option<Handle>, h: Handle)
    requires |hist| == |s.syms| && h < |s.table.objects| && EntriesAgree(hist, s, h) && s1.syms == s.syms + [sym]
    requires op.Visit? && op.die.tag == MemberTag && h < |s1.table.objects|
    requires var members := s.table.objects[h].members;
             s1.table.objects[h].members == if ParentSym(s.syms, op.parent) == Some(h) && op.die.name !in members
                                            then members[op.die.name := sym] else members
    ensures EntriesAgree(hist + [op], s1, h)
  {
    if ParentSym(s.syms, op.parent) == Some(h) {
      EntryStep(hist, s, op, s1, sym, h, op.die.name);
    } else {
      EntriesStay(hist, s, op, s1, sym, h);
    }
  }

  lemma NewMemberOp(hist: seq<Op>, s: State, op: Op, s1: State)
    requires SymsOk(hist, s) && Step(s, op) == Some(s1) && LookupsBelow(hist, |s.table.objects|)
    requires |s1.syms| == |s.syms| + 1 && s1.syms[..|s.syms|] == s.syms
    requires op.Visit? && op.die.tag == MemberTag && |s1.table.objects| > |s.table.objects|
    ensures |s1.table.objects| == |s.table.objects| + 1 && PartsAgree(hist + [op], s1, |s.table.objects|)
  {
    var p := ParentOf(s.table, ParentSym(s.syms, op.parent), IsStructured);
    MemberVisit(s.table, op.place, op.die, p.value, p.value);
  }

  lemma LookUpOp(hist: seq<Op>, s: State, op: Op, s1: State, h: Handle)
    requires SymsOk(hist, s) && Step(s, op) == Some(s1) && Extends(s.table, s1.table)
    requires op.MemberNamed? && h < |s.table.objects| && PartsAgree(hist, s, h)
    ensures |s1.table.objects| == |s.table.objects| && s1.syms == s.syms + [None] && PartsAgree(hist + [op], s1, h)
  {
    assert SameIdentity(s.table.objects[h], s1.table.objects[h]);
    match s.table.objects[h].kind
    case Array => ArrayStays(hist, s, op, s1, None, h);
    case Enum => EnumStays(hist, s, op, s1, None, h);
    case Var => VariableStays(hist, s, op, s1, None, h);
    case Struct => LookUpEntry(hist, s, op, s1, h);
    case Union => LookUpEntry(hist, s, op, s1, h);
    case _ =>
  }

  lemma LookUpEntry(hist: seq<Op>, s: State, op: Op, s1: State, h: Handle)
    requires |hist| == |s.syms| && Step(s, op) == Some(s1) && op.MemberNamed? && h < |s.table.objects|
    requires IsStructured(s.table.objects[h].kind) && EntriesAgree(hist, s, h)
    ensures |s1.table.objects| == |s.table.objects| && s1.syms == s.syms + [None] && EntriesAgree(hist + [op], s1, h)
  {
    if op.handle == h {
      EntryStep(hist, s, op, s1, None, h, op.name);
    } else {
      EntriesStay(hist, s, op, s1, None, h);
    }
  }

  ghost predicate AllPartsAgree(hist: seq<Op>, s: State) {
    |hist| == |s.syms| && LookupsBelow(hist, |s.table.objects|)
    && forall h: nat | h < |s.table.objects| :: PartsAgree(hist, s, h)
  }

  // A step of a run from a consistent table.
  ghost predicate IsStep(hist: seq<Op>, s: State, op: Op, s1: State) {
    SymsOk(hist, s) && Inv(s.table) && Step(s, op) == Some(s1) && Extends(s.table, s1.table)
    && |s1.syms| == |s.syms| + 1 && s1.syms[..|s.syms|] == s.syms && LookupsBelow(hist, |s.table.objects|)
  }

  // The variable or member that a visit creates.
  lemma StepNewPart(hist: seq<Op>, s: State, op: Op, s1: State)
    requires IsStep(hist, s, op, s1) && |s1.table.objects| > |s.table.objects|
    requires op.Visit? && (op.die.tag == VariableTag || op.die.tag == MemberTag)
    ensures |s1.table.objects| == |s.table.objects| + 1 && |hist| + 1 == |s1.syms|
    ensures PartsAgree(hist + [op], s1, |s.table.objects|)
  {
    if op.die.tag == VariableTag { NewVariableOp(hist, s, op, s1); } else { NewMemberOp(hist, s, op, s1); }
  }

  // A variable or member DIE.
  lemma StepOldPart(hist: seq<Op>, s: State, op: Op, s1: State, h: Handle)
    requires IsStep(hist, s, op, s1) && h < |s.table.objects| && h < |s1.table.objects|
    requires |hist| == |s.syms| && PartsAgree(hist, s, h)
    requires op.Visit? && (op.die.tag == VariableTag || op.die.tag == MemberTag)
    ensures |hist| + 1 == |s1.syms| && PartsAgree(hist + [op], s1, h)
  {
    if op.die.tag == VariableTag { VariableOp(hist, s, op, s1, h); } else { MemberOp(hist, s, op, s1, h); }
  }

  // A DIE that changes its parent, or a lookup.
  lemma StepParentPart(hist: seq<Op>, s: State, op: Op, s1: State, h: Handle)
    requires IsStep(hist, s, op, s1) && h < |s1.table.objects|
    requires |hist| == |s.syms| && (h < |s.table.objects| ==> PartsAgree(hist, s, h))
    requires op.MemberNamed? || (op.Visit? && (op.die.tag == SubrangeTag || op.die.tag == EnumeratorTag))
    ensures |hist| + 1 == |s1.syms| && PartsAgree(hist + [op], s1, h)
  {
    NoNewObject(s, op, s1);
    if op.MemberNamed? {
      LookUpOp(hist, s, op, s1, h);
    } else if op.die.tag == SubrangeTag {
      SubrangeOp(hist, s, op, s1, h);
    } else {
      EnumeratorOp(hist, s, op, s1, h);
    }
  }

  lemma NoNewObject(s: State, op: Op, s1: State)
    requires Step(s, op) == Some(s1)
    requires op.MemberNamed? || (op.Visit? && (op.die.tag == SubrangeTag || op.die.tag == EnumeratorTag))
    ensures |s1.table.objects| == |s.table.objects|
  {}

  // Any other operation.
  lemma StepOther(hist: seq<Op>, s: State, op: Op, s1: State, h: Handle)
    requires IsStep(hist, s, op, s1) && h < |s1.table.objects| && IsOther(op)
    requires |hist| == |s.syms| && (h < |s.table.objects| ==> PartsAgree(hist, s, h))
    ensures |hist| + 1 == |s1.syms| && PartsAgree(hist + [op], s1, h)
  {
    OtherOp(hist, s, op, s1, h);
  }

  lemma StepPart(hist: seq<Op>, s: State, op: Op, s1: State, h: Handle)
    requires IsStep(hist, s, op, s1) && h < |s1.table.objects|
    requires |hist| == |s.syms| && (h < |s.table.objects| ==> PartsAgree(hist, s, h))
    ensures |hist| + 1 == |s1.syms| && PartsAgree(hist + [op], s1, h)
  {
    hide IsStep, PartsAgree, Step;
    if op.Visit? && (op.die.tag == VariableTag || op.die.tag == MemberTag) {
      if h < |s.table.objects| { StepOldPart(hist, s, op, s1, h); } else { StepNewPart(hist, s, op, s1); }
    } else if op.MemberNamed? || (op.Visit? && (op.die.tag == SubrangeTag || op.die.tag == EnumeratorTag)) {
      StepParentPart(hist, s, op, s1, h);
    } else {
      StepOther(hist, s, op, s1, h);
    }
  }

  lemma LookupsStayBelow(hist: seq<Op>, s: State, op: Op, s1: State)
    requires LookupsBelow(hist, |s.table.objects|) && Step(s, op) == Some(s1) && |s.table.objects| <= |s1.table.objects|
    ensures LookupsBelow(hist + [op], |s1.table.objects|)
  {}

  lemma RunStep(hist: seq<Op>, s: State, op: Op)
    requires RunOk(hist, s) && Fresh(hist, op) && Step(s, op).Some? && LookupsBelow(hist, |s.table.objects|)
    ensures IsStep(hist, s, op, Step(s, op).value) && LookupsBelow(hist + [op], |Step(s, op).value.table.objects|)
  {
    StepKeeps(hist, s, op);
    LookupsStayBelow(hist, s, op, Step(s, op).value);
  }

  lemma StepParts(hist: seq<Op>, s: State, op: Op)
    requires RunOk(hist, s) && Fresh(hist, op) && Step(s, op).Some? && AllPartsAgree(hist, s)
    ensures AllPartsAgree(hist + [op], Step(s, op).value)
  {
    var s1 := Step(s, op).value;
    RunStep(hist, s, op);
    AllStepParts(hist, s, op, s1);
  }

  lemma AllStepParts(hist: seq<Op>, s: State, op: Op, s1: State)
    requires IsStep(hist, s, op, s1) && AllPartsAgree(hist, s) && LookupsBelow(hist + [op], |s1.table.objects|)
    ensures AllPartsAgree(hist + [op], s1)
  {
    assert |s1.syms| == |hist| + 1;
    forall h: nat | h < |s1.table.objects| ensures PartsAgree(hist + [op], s1, h) { StepPart(hist, s, op, s1, h); }
  }

  lemma {:induction false} ReplayParts(hist: seq<Op>, s: State, ops: seq<Op>)
    requires RunOk(hist, s) && DistinctKeys(hist + ops) && AllPartsAgree(hist, s) && Replay(s, ops).Some?
    ensures AllPartsAgree(hist + ops, Replay(s, ops).value)
    decreases |ops|
  {
    hide Step, RunOk, AllPartsAgree;
    if ops == [] {
      assert hist + ops == hist;
    } else {
      assert hist + [ops[0]] + ops[1..] == hist + ops;
      NewVisitIsFresh(hist, ops[0], ops[1..]);
      StepKeeps(hist, s, ops[0]);
      StepParts(hist, s, ops[0]);
      ReplayParts(hist + [ops[0]], Step(s, ops[0]).value, ops[1..]);
    }
  }

  /**
   After any run an array has the length and the index type that its subranges gave last, an enumeration
   has for every value the name that its enumerators gave last, a variable has the location other than
   zero that its DIEs gave first, and a structure has for every name the entry that it got first.
   */
  lemma ObjectsAgree(ops: seq<Op>, s: State, h: Handle)
    requires RunsTo(ops, s) && h < |s.table.objects|
    ensures |ops| == |s.syms| && PartsAgree(ops, s, h)
  {
    hide RunOk, PartsAgree, Replay;
    StartAgrees();
    assert [] + ops == ops;
    ReplayParts([], START, ops);
  }

  lemma StartAgrees()
    ensures RunOk([], START) && AllPartsAgree([], START)
  {
    EmptyIsOk();
  }
}
