/**
 Looking up the members of a struct or union by offset and by name, for any order in which the hash map
 of its members is iterated.
 */
module Members {
  import opened Basics
  import opened Dwarf
  import opened SymbolTable
  import opened Invariant
  import opened Runs
  import opened Parts
  import opened Creators
  import opened PartHistories
  import opened Symbols

  // The members of the object are objects themselves: the loops dereference every one of them.
  predicate MembersPresent(t: Table, h: Handle) {
    h < |t.objects| && forall n <- t.objects[h].members ::
      t.objects[h].members[n].Some? && t.objects[h].members[n].value < |t.objects|
  }

  // Where a member is.
  function Location(t: Table, h: Handle, n: string): nat
    requires MembersPresent(t, h) && n in t.objects[h].members
  {
    t.objects[t.objects[h].members[n].value].location
  }

  // The members up to `offset` that are furthest on, if there are any.
  ghost predicate IsFloor(t: Table, h: Handle, offset: nat, r: Option<Handle>)
    requires MembersPresent(t, h)
  {
    match r
    case None => forall n <- t.objects[h].members :: Location(t, h, n) > offset
    case Some(m) =>
      exists n :: n in t.objects[h].members && t.objects[h].members[n] == Some(m) && Location(t, h, n) <= offset
                  && forall k <- t.objects[h].members | Location(t, h, k) <= offset ::
                    Location(t, h, k) <= Location(t, h, n)
  }

  // The same over the members visited so far.
  ghost predicate IsBestOf(t: Table, h: Handle, offset: nat, seen: set<string>, r: Option<Handle>)
    requires MembersPresent(t, h)
  {
    match r
    case None => forall n <- seen | n in t.objects[h].members :: Location(t, h, n) > offset
    case Some(m) =>
      exists n :: n in seen && n in t.objects[h].members && t.objects[h].members[n] == Some(m)
        && Location(t, h, n) < offset
                  && forall k <- seen | k in t.objects[h].members && Location(t, h, k) <= offset ::
                       Location(t, h, k) <= Location(t, h, n)
  }

  // Structured::memberByOffset
  method MemberByOffset(manager: SymbolManager, h: Handle, offset: nat) returns (r: Option<Handle>)
    requires manager.Valid() && MembersPresent(manager.Contents(), h)
    ensures IsFloor(manager.Contents(), h, offset, r)
  {
    ghost var t := manager.Contents();
    var rest := manager.objects[h].memberNameMap.Keys;
    ghost var seen: set<string> := {};
    r := None;
    while rest != {}
      invariant rest + seen == manager.objects[h].memberNameMap.Keys && rest !! seen
      invariant IsBestOf(t, h, offset, seen, r)
      decreases rest
    {
      var n :| n in rest;
      var i := manager.objects[h].memberNameMap[n].value;
      if manager.objects[i].location == offset {
        ExactIsFloor(t, h, offset, n);
        return Some(i);
      }
      NextBest(t, h, offset, seen, r, n);
      if manager.objects[i].location < offset
        && (r.None? || manager.objects[i].location > manager.objects[r.value].location) {
        r := Some(i);
      }
      rest, seen := rest - {n}, seen + {n};
    }
    BestIsFloor(t, h, offset, seen, r);
  }

  lemma ExactIsFloor(t: Table, h: Handle, offset: nat, n: string)
    requires MembersPresent(t, h) && n in t.objects[h].members && Location(t, h, n) == offset
    ensures IsFloor(t, h, offset, t.objects[h].members[n])
  {}

  lemma NextBest(t: Table, h: Handle, offset: nat, seen: set<string>, r: Option<Handle>, n: string)
    requires MembersPresent(t, h) && IsBestOf(t, h, offset, seen, r) && n in t.objects[h].members && n !in seen
    requires Location(t, h, n) != offset
    ensures r.Some? ==> r.value < |t.objects|
    ensures var next := Location(t, h, n) < offset && (r.None? || Location(t, h, n) > t.objects[r.value].location);
            IsBestOf(t, h, offset, seen + {n}, if next then t.objects[h].members[n] else r)
  {
    match r
    case None =>
    case Some(m) =>
      var b :| b in seen && b in t.objects[h].members && t.objects[h].members[b] == Some(m)
        && Location(t, h, b) < offset
               && forall k <- seen | k in t.objects[h].members && Location(t, h, k) <= offset ::
                    Location(t, h, k) <= Location(t, h, b);
      assert b in seen + {n};
  }

  lemma BestIsFloor(t: Table, h: Handle, offset: nat, seen: set<string>, r: Option<Handle>)
    requires MembersPresent(t, h) && IsBestOf(t, h, offset, seen, r) && seen == t.objects[h].members.Keys
    ensures IsFloor(t, h, offset, r)
  {}

  // Structured::memberNameByOffset
  method MemberNameByOffset(manager: SymbolManager, h: Handle, offset: nat) returns (name: string)
    requires manager.Valid() && MembersPresent(manager.Contents(), h)
    ensures var t := manager.Contents();
            if exists n :: n in t.objects[h].members && Location(t, h, n) == offset
            then name in t.objects[h].members && Location(t, h, name) == offset else name == ""
  {
    var rest := manager.objects[h].memberNameMap.Keys;
    while rest != {}
      invariant rest <= manager.objects[h].memberNameMap.Keys
      invariant forall n <- manager.objects[h].memberNameMap | n !in rest ::
                Location(manager.Contents(), h, n) != offset
      decreases rest
    {
      var n :| n in rest;
      if manager.objects[manager.objects[h].memberNameMap[n].value].location == offset {
        return n;
      }
      rest := rest - {n};
    }
    name := "";
  }

  // Structured::memberOffset: the largest 32-bit number if there is no such member.
  method MemberOffset(manager: SymbolManager, h: Handle, member: string) returns (offset: nat)
    requires manager.Valid() && MembersPresent(manager.Contents(), h) && MembersOk(manager.Contents())
    ensures var t := manager.Contents();
            offset == if member in t.objects[h].members then Location(t, h, member) else U32 - 1
  {
    var rest := manager.objects[h].memberNameMap.Keys;
    while rest != {}
      invariant rest <= manager.objects[h].memberNameMap.Keys
      invariant member in manager.objects[h].memberNameMap ==> member in rest
      decreases rest
    {
      var n :| n in rest;
      NameOfMember(manager.Contents(), h, n);
      var i := manager.objects[h].memberNameMap[n].value;
      if manager.objects[i].name == member {
        return manager.objects[i].location;
      }
      rest := rest - {n};
    }
    offset := U32 - 1;
  }

  lemma NameOfMember(t: Table, h: Handle, n: string)
    requires MembersPresent(t, h) && MembersOk(t) && n in t.objects[h].members
    ensures t.objects[t.objects[h].members[n].value].name == n
  {}

  // A member found at its own offset is the one that was asked for, if no other is there.
  lemma OffsetRoundTrip(t: Table, h: Handle, n: string, r: Option<Handle>)
    requires MembersPresent(t, h) && n in t.objects[h].members && IsFloor(t, h, Location(t, h, n), r)
    requires forall k <- t.objects[h].members | k != n :: Location(t, h, k) != Location(t, h, n)
    ensures r == t.objects[h].members[n]
  {}

  // Every lookup of a member by name in the run finds an entry.
  ghost predicate LooksUpOnlyKnown(ops: seq<Op>) {
    forall i, mid | 0 <= i < |ops| && Replay(START, ops[..i]) == Some(mid) :: LooksUpKnown(mid, ops[i])
  }

  // After a run the members of every structure are objects, each of its name, exactly when every lookup by
  // name found an entry.
  lemma MembersPresentIff(ops: seq<Op>, s: State)
    requires RunsTo(ops, s)
    ensures (forall h: nat | h < |s.table.objects| :: MembersPresent(s.table, h)) <==> LooksUpOnlyKnown(ops)
    ensures MembersOk(s.table)
  {
    RunKeepsTable(ops, s);
    if LooksUpOnlyKnown(ops) {
      assert ops[..|ops|] == ops;
      NoNullsUpTo(ops, |ops|, s);
      forall h: nat | h < |s.table.objects| ensures MembersPresent(s.table, h) { ArePresent(s.table, h); }
    }
    if forall h: nat | h < |s.table.objects| :: MembersPresent(s.table, h) {
      forall i, mid | 0 <= i < |ops| && Replay(START, ops[..i]) == Some(mid) ensures LooksUpKnown(mid, ops[i]) {
        if !LooksUpKnown(mid, ops[i]) { NullStays(ops, s, i, mid); }
      }
    }
  }

  // A first entry stays.
  lemma {:induction false} FirstEntryStays(ops: seq<Op>, syms: seq<Option<Handle>>, n: nat, h: Handle, name: string)
    requires n <= |ops| == |syms| && FirstEntry(ops[..n], syms[..n], h, name).Some?
    ensures FirstEntry(ops, syms, h, name) == FirstEntry(ops[..n], syms[..n], h, name)
    decreases |ops|
  {
    if n == |ops| {
      assert ops[..n] == ops && syms[..n] == syms;
    } else {
      var m := |ops| - 1;
      assert ops[..m][..n] == ops[..n] && syms[..m][..n] == syms[..n];
      FirstEntryStays(ops[..m], syms[..m], n, h, name);
    }
  }

  // The null entry that a lookup of an unknown name makes.
  lemma NullIsFirst(ops: seq<Op>, s: State, i: nat, mid: State) returns (h: Handle, name: string)
    requires RunsTo(ops, s) && i < |ops| && Replay(START, ops[..i]) == Some(mid) && !LooksUpKnown(mid, ops[i])
    ensures |s.syms| == |ops| && h < |s.table.objects| && IsStructured(s.table.objects[h].kind)
    ensures FirstEntry(ops[..i + 1], s.syms[..i + 1], h, name) == Some(None)
  {
    h, name := ops[i].handle, ops[i].name;
    var m, next := StepAt(ops, s, i);
    LookedUpNull(mid, ops[i], next);
    ObjectsAgree(ops[..i + 1], next, h);
    assert SameIdentity(next.table.objects[h], s.table.objects[h]);
    assert FirstEntry(ops[..i + 1], next.syms, h, name) == Some(None);
  }

  lemma LookedUpNull(s: State, op: Op, s1: State)
    requires !LooksUpKnown(s, op) && Step(s, op) == Some(s1)
    ensures op.handle < |s1.table.objects| && IsStructured(s1.table.objects[op.handle].kind)
    ensures op.name in s1.table.objects[op.handle].members && s1.table.objects[op.handle].members[op.name] == None
  {}

  lemma NullStays(ops: seq<Op>, s: State, i: nat, mid: State)
    requires RunsTo(ops, s) && i < |ops| && Replay(START, ops[..i]) == Some(mid) && !LooksUpKnown(mid, ops[i])
    ensures exists h: nat :: h < |s.table.objects| && !MembersPresent(s.table, h)
  {
    var h, name := NullIsFirst(ops, s, i, mid);
    FirstEntryStays(ops, s.syms, i + 1, h, name);
    EntriesOf(ops, s, h);
    EntryIsNull(ops, s, h, name);
  }

  lemma EntriesOf(ops: seq<Op>, s: State, h: Handle)
    requires RunsTo(ops, s) && h < |s.table.objects| && IsStructured(s.table.objects[h].kind)
    ensures |ops| == |s.syms| && EntriesAgree(ops, s, h)
  {
    ObjectsAgree(ops, s, h);
  }

  lemma {:induction false} EntryIsNull(ops: seq<Op>, s: State, h: Handle, name: string)
    requires |ops| == |s.syms| && h < |s.table.objects| && EntriesAgree(ops, s, h)
    requires FirstEntry(ops, s.syms, h, name) == Some(None)
    ensures !MembersPresent(s.table, h)
  {
    assert FirstEntry(ops, s.syms, h, name)
           == if name in s.table.objects[h].members then Some(s.table.objects[h].members[name]) else None;
  }

  lemma ArePresent(t: Table, h: Handle)
    requires Inv(t) && NoNullMembers(t) && h < |t.objects|
    ensures MembersPresent(t, h) && MembersOk(t)
  {}

  lemma {:induction false} NoNullsUpTo(ops: seq<Op>, n: nat, s: State)
    requires n <= |ops| && Replay(START, ops[..n]) == Some(s)
    requires LooksUpOnlyKnown(ops)
    ensures NoNullMembers(s.table)
  {
    if n > 0 {
      assert ops[..n] == ops[..n - 1] + [ops[n - 1]];
      ReplaySnoc(START, ops[..n - 1], ops[n - 1]);
      var mid := Replay(START, ops[..n - 1]).value;
      NoNullsUpTo(ops, n - 1, mid);
      NullMembersIff(mid, ops[n - 1]);
    }
  }
}
