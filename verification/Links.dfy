/**
 Chains of references, as a sequence that holds for every node the node it refers to, if it refers to one.
 */
module Links {
  import opened Basics

  type Links = seq<Option<nat>>

  // Where a node refers to; a reference out of the sequence is none.
  function Next(links: Links, i: nat): (r: Option<nat>)
    ensures r.Some? ==> r.value < |links|
  {
    if i < |links| && links[i].Some? && links[i].value < |links| then links[i] else None
  }

  // The chain from `i` ends within `n` references.
  predicate EndsWithin(links: Links, i: nat, n: nat)
    decreases n
  {
    Next(links, i).None? || (n > 0 && EndsWithin(links, Next(links, i).value, n - 1))
  }

  // The chain from `i` ends.
  ghost predicate Ends(links: Links, i: nat) {
    exists n: nat :: EndsWithin(links, i, n)
  }

  // The node that `n` references lead to.
  function Follow(links: Links, i: nat, n: nat): Option<nat>
    decreases n
  {
    if n == 0 then Some(i)
    else if Next(links, i).None? then None
    else Follow(links, Next(links, i).value, n - 1)
  }

  // ---- lengths of chains ----

  lemma {:induction false} EndsLater(links: Links, i: nat, n: nat, m: nat)
    requires EndsWithin(links, i, n) && n <= m
    ensures EndsWithin(links, i, m)
    decreases n
  {
    if Next(links, i).Some? { EndsLater(links, Next(links, i).value, n - 1, m - 1); }
  }

  lemma EndsNext(links: Links, i: nat)
    requires Next(links, i).Some?
    ensures Ends(links, i) <==> Ends(links, Next(links, i).value)
  {
    var j := Next(links, i).value;
    if Ends(links, i) {
      var n: nat :| EndsWithin(links, i, n);
      assert EndsWithin(links, j, n - 1);
    }
    if Ends(links, j) {
      var n: nat :| EndsWithin(links, j, n);
      assert EndsWithin(links, i, n + 1);
    }
  }

  // The number of references on a chain that ends.
  ghost function ChainLength(links: Links, i: nat): (n: nat)
    requires Ends(links, i)
    ensures EndsWithin(links, i, n) && forall m: nat | m < n :: !EndsWithin(links, i, m)
  {
    var n: nat :| EndsWithin(links, i, n);
    Shortest(links, i, n)
  }

  ghost function Shortest(links: Links, i: nat, n: nat): (m: nat)
    requires EndsWithin(links, i, n)
    ensures EndsWithin(links, i, m) && forall k: nat | k < m :: !EndsWithin(links, i, k)
  {
    if n > 0 && EndsWithin(links, i, n - 1) then Shortest(links, i, n - 1)
    else
      NotShorter(links, i, n);
      n
  }

  lemma NotShorter(links: Links, i: nat, n: nat)
    requires n == 0 || !EndsWithin(links, i, n - 1)
    ensures forall k: nat | k < n :: !EndsWithin(links, i, k)
  {
    forall k: nat | k < n ensures !EndsWithin(links, i, k) {
      if EndsWithin(links, i, k) { EndsLater(links, i, k, n - 1); }
    }
  }

  // A reference leads to a shorter chain.
  lemma ChainLengthNext(links: Links, i: nat)
    requires Ends(links, i) && Next(links, i).Some?
    ensures Ends(links, Next(links, i).value) && ChainLength(links, Next(links, i).value) < ChainLength(links, i)
  {
    var j := Next(links, i).value;
    EndsNext(links, i);
    assert EndsWithin(links, j, ChainLength(links, i) - 1);
  }

  // The node at the end of a chain.
  ghost function Last(links: Links, i: nat): nat
    requires Ends(links, i)
    decreases ChainLength(links, i)
  {
    if Next(links, i).None? then i
    else
      ChainLengthNext(links, i);
      Last(links, Next(links, i).value)
  }

  // It is the one node on the chain that refers to none.
  lemma {:induction false} LastIs(links: Links, i: nat)
    requires Ends(links, i)
    ensures Next(links, Last(links, i)) == None && exists n: nat :: Follow(links, i, n) == Some(Last(links, i))
    decreases ChainLength(links, i)
  {
    if Next(links, i).None? {
      assert Follow(links, i, 0) == Some(i);
    } else {
      ChainLengthNext(links, i);
      LastIs(links, Next(links, i).value);
      var n: nat :| Follow(links, Next(links, i).value, n) == Some(Last(links, i));
      assert Follow(links, i, n + 1) == Some(Last(links, i));
    }
  }

  // ---- chains end exactly when there is no cycle ----

  // No chain comes back to where it started.
  ghost predicate Acyclic(links: Links) {
    forall i: nat, n: nat :: n > 0 ==> Follow(links, i, n) != Some(i)
  }

  lemma {:induction false} FollowAdds(links: Links, i: nat, m: nat, n: nat)
    ensures Follow(links, i, m + n)
            == match Follow(links, i, m) case None => None case Some(j) => Follow(links, j, n)
    decreases m
  {
    if m > 0 && Next(links, i).Some? { FollowAdds(links, Next(links, i).value, m - 1, n); }
  }

  lemma {:induction false} EndsIsNone(links: Links, i: nat, n: nat)
    ensures EndsWithin(links, i, n) <==> Follow(links, i, n + 1) == None
    decreases n
  {
    if n > 0 && Next(links, i).Some? { EndsIsNone(links, Next(links, i).value, n - 1); }
    if n == 0 && Next(links, i).Some? {
      assert Follow(links, Next(links, i).value, 0) == Some(Next(links, i).value);
    }
  }

  lemma {:induction false} RoundAndRound(links: Links, i: nat, n: nat, k: nat)
    requires n > 0 && Follow(links, i, n) == Some(i)
    ensures Follow(links, i, n * k) == Some(i)
    decreases k
  {
    if k > 0 {
      RoundAndRound(links, i, n, k - 1);
      FollowAdds(links, i, n * (k - 1), n);
      assert n * k == n * (k - 1) + n;
    }
  }

  lemma {:induction false} FollowShorter(links: Links, i: nat, m: nat, n: nat)
    requires m <= n && Follow(links, i, n).Some?
    ensures Follow(links, i, m).Some?
  {
    FollowAdds(links, i, m, n - m);
  }

  // A node on a cycle has no end.
  lemma {:induction false} CycleNeverEnds(links: Links, i: nat, n: nat)
    requires n > 0 && Follow(links, i, n) == Some(i)
    ensures !Ends(links, i)
  {
    if Ends(links, i) {
      var k: nat :| EndsWithin(links, i, k);
      EndsIsNone(links, i, k);
      RoundAndRound(links, i, n, k + 1);
      assert k + 1 <= n * (k + 1);
      FollowShorter(links, i, k + 1, n * (k + 1));
    }
  }

  // The nodes that the first `n` references of a chain lead to.
  function Passes(links: Links, i: nat, n: nat): (path: seq<nat>)
    requires Follow(links, i, n).Some?
    ensures |path| == n
    decreases n
  {
    if n == 0 then [] else [Next(links, i).value] + Passes(links, Next(links, i).value, n - 1)
  }

  lemma {:induction false} PassesAt(links: Links, i: nat, n: nat, k: nat)
    requires Follow(links, i, n).Some? && k < n
    ensures Follow(links, i, k + 1) == Some(Passes(links, i, n)[k]) && Passes(links, i, n)[k] < |links|
    decreases n
  {
    var j := Next(links, i).value;
    if k > 0 {
      PassesAt(links, j, n - 1, k - 1);
    } else {
      assert Follow(links, j, 0) == Some(j);
    }
  }

  // More numbers below `n` than there are numbers below `n`: one comes twice.
  lemma {:induction false} Pigeonhole(list: seq<nat>, n: nat) returns (j: nat, k: nat)
    requires |list| > n && forall i | 0 <= i < |list| :: list[i] < n
    ensures j < k < |list| && list[j] == list[k]
    decreases n
  {
    assert list[0] < n;
    if m: nat, l: nat :| m < l < |list| && list[m] == n - 1 && list[l] == n - 1 {
      return m, l;
    }
    if m: nat :| m < |list| && list[m] == n - 1 {
      var rest := list[..m] + list[m + 1..];
      assert forall i | 0 <= i < |rest| :: rest[i] == if i < m then list[i] else list[i + 1];
      var a, b := Pigeonhole(rest, n - 1);
      j, k := if a < m then a else a + 1, if b < m then b else b + 1;
    } else {
      j, k := Pigeonhole(list[..|list| - 1], n - 1);
    }
  }

  // A chain of more references than there are nodes passes one node twice.
  lemma LongChainCycles(links: Links, i: nat)
    requires Follow(links, i, |links| + 1).Some?
    ensures !Acyclic(links)
  {
    var path := Passes(links, i, |links| + 1);
    forall k | 0 <= k < |path| ensures path[k] < |links| { PassesAt(links, i, |links| + 1, k); }
    var j, k := Pigeonhole(path, |links|);
    PassesAt(links, i, |links| + 1, j);
    PassesAt(links, i, |links| + 1, k);
    FollowAdds(links, i, j + 1, k - j);
    assert Follow(links, path[j], k - j) == Some(path[j]);
  }

  // Every chain ends exactly when the references form no cycle.
  lemma AllEndIffAcyclic(links: Links)
    ensures (forall i: nat :: Ends(links, i)) <==> Acyclic(links)
  {
    if Acyclic(links) {
      forall i: nat ensures Ends(links, i) {
        if Follow(links, i, |links| + 1).Some? { LongChainCycles(links, i); }
        EndsIsNone(links, i, |links|);
      }
    }
    if forall i: nat :: Ends(links, i) {
      forall i: nat, n: nat | n > 0 ensures Follow(links, i, n) != Some(i) {
        if Follow(links, i, n) == Some(i) { CycleNeverEnds(links, i, n); }
      }
    }
  }

  // References to lower nodes only form no cycle.
  lemma {:induction false} DownwardEnds(links: Links, i: nat)
    requires forall j: nat | j < |links| && Next(links, j).Some? :: Next(links, j).value < j
    ensures Ends(links, i)
  {
    if Next(links, i).Some? {
      DownwardEnds(links, Next(links, i).value);
      EndsNext(links, i);
    } else {
      assert EndsWithin(links, i, 0);
    }
  }

  // ---- nodes on a chain ----

  // No node on the chain from `i` is one of `bad`.
  ghost predicate Avoids(links: Links, i: nat, bad: seq<nat>) {
    forall n: nat | Follow(links, i, n).Some? :: Follow(links, i, n).value !in bad
  }

  lemma AvoidsNext(links: Links, i: nat, bad: seq<nat>)
    requires Avoids(links, i, bad)
    ensures i !in bad && (Next(links, i).Some? ==> Avoids(links, Next(links, i).value, bad))
  {
    assert Follow(links, i, 0) == Some(i);
    if Next(links, i).Some? {
      forall n: nat | Follow(links, Next(links, i).value, n).Some?
        ensures Follow(links, Next(links, i).value, n).value !in bad {
        assert Follow(links, i, n + 1) == Follow(links, Next(links, i).value, n);
      }
    }
  }

  lemma {:induction false} StaysAway(links: Links, i: nat, bad: seq<nat>, n: nat)
    requires forall j: nat | j !in bad && Next(links, j).Some? :: Next(links, j).value !in bad
    requires i !in bad && Follow(links, i, n).Some?
    ensures Follow(links, i, n).value !in bad
    decreases n
  {
    if n > 0 { StaysAway(links, Next(links, i).value, bad, n - 1); }
  }
}
