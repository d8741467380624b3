/**
 The numbering of DIE keys over any interleaving of getID and getRevID calls, from however many parsers.
 */
module Identifiers {
  import opened Dwarf
  import opened SymbolTable
  import opened Invariant

  datatype IdCall = Get(key: Key) | Rev(id: nat)

  // The tables after one more call.
  function IdsNext(ids: Ids, call: IdCall): Ids {
    match call
    case Get(key) => Intern(ids, key).0
    case Rev(id) => GetRevID(ids, id).0
  }

  function IdsAfter(calls: seq<IdCall>): Ids {
    if calls == [] then EMPTY.ids else IdsNext(IdsAfter(calls[..|calls| - 1]), calls[|calls| - 1])
  }

  // The keys that the calls have asked for.
  function KeysOf(calls: seq<IdCall>): set<Key> {
    set c | c in calls && c.Get? :: c.key
  }

  lemma NextIsOk(ids: Ids, call: IdCall)
    requires IdsOk(ids)
    ensures IdsOk(IdsNext(ids, call))
    ensures forall k <- ids.byKey :: k in IdsNext(ids, call).byKey && IdsNext(ids, call).byKey[k] == ids.byKey[k]
    ensures IdsNext(ids, call).byKey.Keys == ids.byKey.Keys + (if call.Get? then {call.key} else {})
  {
    if call.Get? { InternKeeps(ids, call.key); }
  }

  lemma KeysNext(calls: seq<IdCall>)
    requires calls != []
    ensures var last := calls[|calls| - 1];
            KeysOf(calls) == KeysOf(calls[..|calls| - 1]) + (if last.Get? then {last.key} else {})
  {
    var last := calls[|calls| - 1];
    assert calls == calls[..|calls| - 1] + [last];
    assert forall c :: c in calls <==> c in calls[..|calls| - 1] || c == last;
  }

  /**
   getID numbers exactly the keys asked for, and getRevID inverts it: the default entries that getRevID
   inserts belong to ids that are not issued.
   */
  lemma {:induction false} IdsAreOk(calls: seq<IdCall>)
    ensures IdsOk(IdsAfter(calls)) && IdsAfter(calls).byKey.Keys == KeysOf(calls)
  {
    if calls == [] {
      assert KeysOf(calls) == {};
    } else {
      IdsAreOk(calls[..|calls| - 1]);
      NextIsOk(IdsAfter(calls[..|calls| - 1]), calls[|calls| - 1]);
      KeysNext(calls);
    }
  }

  lemma {:induction false} IdsPersist(calls: seq<IdCall>, more: seq<IdCall>, key: Key)
    requires key in IdsAfter(calls).byKey
    ensures key in IdsAfter(calls + more).byKey && IdsAfter(calls + more).byKey[key] == IdsAfter(calls).byKey[key]
    decreases |more|
  {
    if more == [] {
      assert calls + more == calls;
    } else {
      var n := |more| - 1;
      IdsPersist(calls, more[..n], key);
      IdsAreOk(calls + more[..n]);
      NextIsOk(IdsAfter(calls + more[..n]), more[n]);
      AfterMore(calls, more);
    }
  }

  lemma {:induction false} AfterMore(calls: seq<IdCall>, more: seq<IdCall>)
    requires more != []
    ensures IdsAfter(calls + more) == IdsNext(IdsAfter(calls + more[..|more| - 1]), more[|more| - 1])
  {
    assert (calls + more)[..|calls + more| - 1] == calls + more[..|more| - 1];
  }

  // An id once issued to a key stays that key's, and getRevID gives the key back, ever after.
  lemma {:induction false} IdsAreStable(calls: seq<IdCall>, more: seq<IdCall>, key: Key)
    requires key in KeysOf(calls)
    ensures key in IdsAfter(calls).byKey
    ensures var id := IdsAfter(calls).byKey[key];
            && Intern(IdsAfter(calls + more), key) == (IdsAfter(calls + more), id)
            && GetRevID(IdsAfter(calls + more), id) == (IdsAfter(calls + more), key)
  {
    IdsAreOk(calls);
    IdsPersist(calls, more, key);
    IdsAreOk(calls + more);
  }

  function UpTo(n: nat): (s: set<nat>)
    ensures forall i :: i in s <==> 1 <= i <= n
    ensures |s| == n
  {
    if n == 0 then {} else UpTo(n - 1) + {n}
  }

  // The numbers issued are 1, 2, and so on: as many as there are keys.
  lemma {:induction false} IdsAreDense(calls: seq<IdCall>)
    ensures IdsAfter(calls).current == |KeysOf(calls)|
    ensures IdsAfter(calls).byKey.Values == UpTo(IdsAfter(calls).current)
  {
    var ids := IdsAfter(calls);
    IdsAreOk(calls);
    forall i: nat | 1 <= i <= ids.current ensures i in ids.byKey.Values { assert ids.byKey[ids.byID[i]] == i; }
    assert ids.byKey.Values == UpTo(ids.current);
    SameSize(ids.byKey);
  }

  // An injective map has as many values as keys.
  lemma SameSize(m: map<Key, nat>)
    requires forall j, k | j in m && k in m && m[j] == m[k] :: j == k
    ensures |m.Values| == |m.Keys|
    decreases |m.Keys|
  {
    if m.Keys != {} {
      var k :| k in m.Keys;
      var rest := m - {k};
      assert rest.Keys == m.Keys - {k};
      SameSize(rest);
      forall v | v in m.Values ensures v in rest.Values + {m[k]} {
        var j :| j in m && m[j] == v;
        if j != k { assert rest[j] == v; }
      }
      assert m.Values == rest.Values + {m[k]};
    } else {
      assert m.Values == {};
    }
  }

  // The ids that getRevID was asked for.
  function AskedFor(calls: seq<IdCall>): set<nat> {
    set c | c in calls && c.Rev? :: c.id
  }

  // The entries are those of the issued ids and of the ids in `asked`; these have the default pair unless issued.
  ghost predicate HasEntries(ids: Ids, asked: set<nat>) {
    && (forall id :: id in ids.byID <==> 1 <= id <= ids.current || id in asked)
    && (forall id <- asked | !(1 <= id <= ids.current) :: id in ids.byID && ids.byID[id] == (0, 0))
  }

  lemma EntriesNext(ids: Ids, call: IdCall, asked: set<nat>)
    requires IdsOk(ids) && HasEntries(ids, asked)
    ensures HasEntries(IdsNext(ids, call), asked + (if call.Rev? then {call.id} else {}))
  {}

  // getRevID has an entry for exactly the ids that were issued and those it was asked for; one that was asked for
  // and is not issued has the default pair.
  lemma {:induction false} RevEntries(calls: seq<IdCall>)
    ensures HasEntries(IdsAfter(calls), AskedFor(calls))
  {
    hide HasEntries, IdsNext;
    if calls == [] {
      NoEntries();
    } else {
      var n := |calls| - 1;
      RevEntries(calls[..n]);
      IdsAreOk(calls[..n]);
      EntriesNext(IdsAfter(calls[..n]), calls[n], AskedFor(calls[..n]));
      AskedNext(calls);
    }
  }

  lemma NoEntries()
    ensures HasEntries(IdsAfter([]), AskedFor([]))
  {
    assert AskedFor([]) == {};
  }

  lemma AskedNext(calls: seq<IdCall>)
    requires calls != []
    ensures var last := calls[|calls| - 1];
            AskedFor(calls) == AskedFor(calls[..|calls| - 1]) + (if last.Rev? then {last.id} else {})
  {
    var last := calls[|calls| - 1];
    assert calls == calls[..|calls| - 1] + [last];
    assert forall c :: c in calls <==> c in calls[..|calls| - 1] || c == last;
  }
}
