/**
 Over any sequence of additions, the map of suffixed names holds for every name the sequence of the
 addresses that were added for it: for addSymbolAddress the different ones in the order of their first
 arrival, for addFunctionAddress all of them.
 */
module ElfSymbolChains {
  import opened Basics
  import opened ElfSymbols

  // No name of the set is another one followed by underscores.
  ghost predicate Independent(names: iset<string>) {
    forall n: string, k: nat | n in names && k > 0 :: Suffixed(n, k) !in names
  }

  // Names with a common suffixed form are suffixed forms of each other.
  lemma CommonForm(n: string, j: nat, m: string, k: nat)
    requires Suffixed(n, j) == Suffixed(m, k) && j <= k
    ensures n == Suffixed(m, k - j)
  {
    assert |n| == |m| + (k - j);
    forall i | 0 <= i < |n| ensures n[i] == Suffixed(m, k - j)[i] {
      assert Suffixed(n, j)[i] == Suffixed(m, k)[i];
    }
  }

  lemma OneFamily(names: iset<string>, n: string, j: nat, m: string, k: nat)
    requires Independent(names) && n in names && m in names && Suffixed(n, j) == Suffixed(m, k)
    ensures n == m && j == k
  {
    if j <= k {
      CommonForm(n, j, m, k);
      SuffixedNext(m, 0);
    } else {
      CommonForm(m, k, n, j);
    }
  }

  // ---- the additions ----

  // The addresses added for a name, in order; with `once`, an address is counted the first time only.
  function Arrivals(calls: seq<(string, u64)>, name: string, once: bool): (r: seq<u64>)
    ensures once ==> forall i, j | 0 <= i < j < |r| :: r[i] != r[j]
    ensures forall i | 0 <= i < |r| :: (name, r[i]) in calls
  {
    if calls == [] then []
    else
      var n := |calls| - 1;
      var r := Arrivals(calls[..n], name, once);
      if calls[n].0 == name && !(once && calls[n].1 in r) then r + [calls[n].1] else r
  }

  // The map after calls of addSymbolAddress without replacement, or of addFunctionAddress.
  function Entered(calls: seq<(string, u64)>, once: bool): map<string, u64> {
    if calls == [] then map[]
    else
      var n := |calls| - 1;
      var m := Entered(calls[..n], once);
      if once then AddedSymbol(m, calls[n].0, calls[n].1, false).0 else AddedFunction(m, calls[n].0, calls[n].1)
  }

  // The `k`-th suffixed form of the name is entered if the name has had more arrivals, and then with that
  // arrival's address.
  ghost predicate KeyAgrees(m: map<string, u64>, calls: seq<(string, u64)>, once: bool, n: string, k: nat) {
    var arrivals := Arrivals(calls, n, once);
    && (Suffixed(n, k) in m <==> k < |arrivals|)
    && (Suffixed(n, k) in m ==> m[Suffixed(n, k)] == arrivals[k])
  }

  ghost predicate IsFormOf(names: iset<string>, key: string) {
    exists n: string, k: nat :: n in names && key == Suffixed(n, k)
  }

  // The keys are exactly those that the arrivals of the names account for.
  ghost predicate Refines(m: map<string, u64>, calls: seq<(string, u64)>, once: bool, names: iset<string>) {
    (forall n: string, k: nat | n in names :: KeyAgrees(m, calls, once, n, k))
    && forall key <- m :: IsFormOf(names, key)
  }

  // The calls are for names of the set.
  ghost predicate CallsOver(calls: seq<(string, u64)>, names: iset<string>) {
    forall c <- calls :: c.0 in names
  }

  lemma {:induction false} ChainIsArrivals(m: map<string, u64>, calls: seq<(string, u64)>, once: bool,
                                           names: iset<string>, n: string)
    requires Refines(m, calls, once, names) && n in names
    ensures Chain(m, n) == Arrivals(calls, n, once)
  {
    var c := Arrivals(calls, n, once);
    forall k: nat | k <= |c|
      ensures Suffixed(n, k) in m <==> k < |c|
      ensures k < |c| ==> m[Suffixed(n, k)] == c[k]
    {
      assert KeyAgrees(m, calls, once, n, k);
    }
    ChainIs(m, n, c);
  }

  lemma {:induction false} ArrivalsNext(calls: seq<(string, u64)>, name: string, address: u64, once: bool, n: string)
    ensures var r := Arrivals(calls, n, once);
            Arrivals(calls + [(name, address)], n, once)
            == if n == name && !(once && address in r) then r + [address] else r
  {
    assert (calls + [(name, address)])[..|calls|] == calls;
  }

  lemma RefinesNext(m: map<string, u64>, calls: seq<(string, u64)>, once: bool, names: iset<string>, name: string,
                    address: u64)
    requires Refines(m, calls, once, names) && Independent(names) && name in names
    requires !(once && address in Arrivals(calls, name, once))
    ensures Refines(m[Suffixed(name, |Chain(m, name)|) := address], calls + [(name, address)], once, names)
  {
    ChainIsArrivals(m, calls, once, names, name);
    var last := |Chain(m, name)|;
    var m1, calls1 := m[Suffixed(name, last) := address], calls + [(name, address)];
    forall n: string, k: nat | n in names ensures KeyAgrees(m1, calls1, once, n, k) {
      assert KeyAgrees(m, calls, once, n, k);
      ArrivalsNext(calls, name, address, once, n);
      if Suffixed(n, k) == Suffixed(name, last) { OneFamily(names, n, k, name, last); }
    }
    assert IsFormOf(names, Suffixed(name, last));
  }

  lemma {:induction false} RefinesSame(m: map<string, u64>, calls: seq<(string, u64)>, names: iset<string>,
                                       name: string, address: u64)
    requires Refines(m, calls, true, names) && address in Arrivals(calls, name, true)
    ensures Refines(m, calls + [(name, address)], true, names)
  {
    var calls1 := calls + [(name, address)];
    forall n: string, k: nat | n in names ensures KeyAgrees(m, calls1, true, n, k) {
      assert KeyAgrees(m, calls, true, n, k);
      ArrivalsNext(calls, name, address, true, n);
    }
  }

  // The refinement, for both maps, over any independent names.
  lemma {:induction false} EnteredRefines(calls: seq<(string, u64)>, once: bool, names: iset<string>)
    requires Independent(names) && CallsOver(calls, names)
    ensures Refines(Entered(calls, once), calls, once, names)
  {
    if calls == [] {
      assert forall n: string, k: nat | n in names :: KeyAgrees(map[], [], once, n, k);
    } else {
      var n := |calls| - 1;
      var m, name, address := Entered(calls[..n], once), calls[n].0, calls[n].1;
      EnteredRefines(calls[..n], once, names);
      assert calls == calls[..n] + [(name, address)] && calls[n] in calls;
      ChainIsArrivals(m, calls[..n], once, names, name);
      if once && address in Arrivals(calls[..n], name, once) {
        RefinesSame(m, calls[..n], names, name, address);
      } else {
        RefinesNext(m, calls[..n], once, names, name, address);
      }
    }
  }

  // Over any calls for the names the chain of every name is its sequence of arrivals.
  ghost predicate ChainsAreArrivals(names: iset<string>, once: bool) {
    forall calls: seq<(string, u64)>, n: string | CallsOver(calls, names) && n in names ::
      Chain(Entered(calls, once), n) == Arrivals(calls, n, once)
  }

  // Calls that enter the name and its first `k` suffixed forms.
  function Filling(n: string, k: nat): (calls: seq<(string, u64)>)
    requires k < U64
    ensures |calls| == k + 1 && forall c <- calls :: c.0 == n && c.1 <= k
  {
    (if k == 0 then [] else Filling(n, k - 1)) + [(n, k)]
  }

  lemma {:induction false} FillingArrives(n: string, k: nat, once: bool)
    requires k < U64
    ensures |Arrivals(Filling(n, k), n, once)| == k + 1
  {
    if k == 0 {
      FirstArrives(n, once);
    } else {
      FillingArrives(n, k - 1, once);
      NewArrives(Filling(n, k - 1), n, k, once);
    }
  }

  lemma {:induction false} FirstArrives(n: string, once: bool)
    ensures |Arrivals([] + [(n, 0)], n, once)| == 1
  {
    NewArrives([], n, 0, once);
  }

  lemma {:induction false} NewArrives(calls: seq<(string, u64)>, n: string, address: u64, once: bool)
    requires forall c <- calls :: c.1 != address
    ensures |Arrivals(calls + [(n, address)], n, once)| == |Arrivals(calls, n, once)| + 1
  {
    NotYet(calls, n, address, once);
    ArrivalsNext(calls, n, address, once, n);
  }

  lemma {:induction false} NotYet(calls: seq<(string, u64)>, n: string, address: u64, once: bool)
    requires forall c <- calls :: c.1 != address
    ensures address !in Arrivals(calls, n, once)
  {
    var r := Arrivals(calls, n, once);
    forall i | 0 <= i < |r| ensures r[i] != address {
      assert (n, r[i]) in calls;
    }
  }

  lemma {:induction false} NoArrivals(calls: seq<(string, u64)>, n: string, once: bool)
    requires forall c <- calls :: c.0 != n
    ensures Arrivals(calls, n, once) == []
  {
    if calls != [] { NoArrivals(calls[..|calls| - 1], n, once); }
  }

  // Enough calls for a name get into the chain of the name with underscores, for which there were none.
  lemma {:induction false} DependentCollide(n: string, k: nat, once: bool)
    requires 0 < k < U64
    ensures Chain(Entered(Filling(n, k), once), Suffixed(n, k)) != Arrivals(Filling(n, k), Suffixed(n, k), once)
  {
    var calls, m := Filling(n, k), Suffixed(n, k);
    var one := iset{n};
    assert forall j: nat | j > 0 :: |Suffixed(n, j)| > |n|;
    EnteredRefines(calls, once, one);
    FillingArrives(n, k, once);
    assert KeyAgrees(Entered(calls, once), calls, once, n, k);
    NoArrivals(calls, m, once);
  }

  /**
   For names of less than 2^64 characters, chains are the sequences of arrivals over all calls exactly when
   no name is another one followed by underscores.
   */
  lemma ArrivalsIffIndependent(names: iset<string>, once: bool)
    requires forall n <- names :: |n| < U64
    ensures ChainsAreArrivals(names, once) <==> Independent(names)
  {
    if Independent(names) {
      forall calls: seq<(string, u64)>, n: string | CallsOver(calls, names) && n in names
        ensures Chain(Entered(calls, once), n) == Arrivals(calls, n, once)
      {
        EnteredChains(calls, once, names, n);
      }
    }
    if ChainsAreArrivals(names, once) {
      forall n: string, k: nat | n in names && k > 0 ensures Suffixed(n, k) !in names {
        if Suffixed(n, k) in names {
          DependentCollide(n, k, once);
          assert CallsOver(Filling(n, k), names);
        }
      }
    }
  }

  lemma {:induction false} EnteredChains(calls: seq<(string, u64)>, once: bool, names: iset<string>, n: string)
    requires Independent(names) && CallsOver(calls, names) && n in names
    ensures Chain(Entered(calls, once), n) == Arrivals(calls, n, once)
  {
    EnteredRefines(calls, once, names);
    ChainIsArrivals(Entered(calls, once), calls, once, names, n);
  }

  // Names that do not end in an underscore are independent.
  lemma PlainAreIndependent(names: iset<string>)
    requires forall n <- names :: n == "" || n[|n| - 1] != '_'
    ensures Independent(names)
  {
    forall n: string, k: nat | n in names && k > 0 ensures Suffixed(n, k) !in names {
      assert Suffixed(n, k)[|Suffixed(n, k)| - 1] == '_';
    }
  }

  // Adding a pair again changes nothing.
  lemma {:induction false} AddingAgain(calls: seq<(string, u64)>, names: iset<string>, name: string, address: u64)
    requires Independent(names) && CallsOver(calls, names) && (name, address) in calls
    ensures AddedSymbol(Entered(calls, true), name, address, false) == (Entered(calls, true), false)
  {
    assert name in names;
    EnteredChains(calls, true, names, name);
    Arrived(calls, name, address);
  }

  lemma {:induction false} Arrived(calls: seq<(string, u64)>, name: string, address: u64)
    requires (name, address) in calls
    ensures address in Arrivals(calls, name, true)
  {
    var n := |calls| - 1;
    if (name, address) in calls[..n] { Arrived(calls[..n], name, address); }
  }

  // The address is under the name or under a suffixed form before the first free one.
  ghost predicate Occurs(m: map<string, u64>, name: string, address: u64) {
    exists k: nat :: (forall j: nat | j <= k :: Suffixed(name, j) in m) && m[Suffixed(name, k)] == address
  }

  // The first form of the name that is not entered.
  ghost predicate IsFirstFree(m: map<string, u64>, name: string, k: nat) {
    Suffixed(name, k) !in m && forall j: nat | j < k :: Suffixed(name, j) in m
  }

  lemma {:induction false} OccursInChain(m: map<string, u64>, name: string, address: u64)
    ensures Occurs(m, name, address) <==> address in Chain(m, name)
    ensures IsFirstFree(m, name, |Chain(m, name)|)
  {
    var c := Chain(m, name);
    ChainMeans(m, name);
    if k: nat :| (forall j: nat | j <= k :: Suffixed(name, j) in m) && m[Suffixed(name, k)] == address {
      assert c[k] == address;
    }
    if address in c {
      var k: nat :| k < |c| && c[k] == address;
      assert m[Suffixed(name, k)] == address;
    }
  }

  /**
   With replacement addSymbolAddress gives the name the address, and tells whether it had another one.
   Without, it enters the address under the first free form of the name unless it occurs before that, and tells
   whether it entered it beside another one.
   */
  lemma {:induction false} AddedSymbolIs(m: map<string, u64>, name: string, address: u64, replace: bool)
    ensures var r := AddedSymbol(m, name, address, replace);
            if replace then
              r.0 == m[name := address] && (r.1 <==> name in m && m[name] != address)
            else if Occurs(m, name, address) then r == (m, false)
            else
              && (r.1 <==> name in m)
              && exists k: nat :: IsFirstFree(m, name, k) && r.0 == m[Suffixed(name, k) := address]
  {
    OccursInChain(m, name, address);
    SuffixedNext(name, 0);
    if !replace && !Occurs(m, name, address) {
      assert IsFirstFree(m, name, |Chain(m, name)|);
    }
  }

  // One addFunctionAddress enters one new key, the first free one, and changes no other.
  lemma {:induction false} FunctionEntersFirstFree(m: map<string, u64>, name: string, address: u64)
    ensures var k := |Chain(m, name)|;
            && Suffixed(name, k) !in m && (forall j | 0 <= j < k :: Suffixed(name, j) in m)
            && AddedFunction(m, name, address) == m[Suffixed(name, k) := address]
  {
    ChainMeans(m, name);
  }

  // A name that ends in an underscore gets into the chain of another: "a" has the address of "a_".
  lemma UnderscoredNamesCollide()
    ensures var calls := [("a_", 2), ("a", 1), ("a", 3)];
            && Arrivals(calls, "a", true) == [1, 3]
            && Chain(Entered(calls, true), "a") == [1, 2, 3]
  {
    var calls: seq<(string, u64)> := [("a_", 2), ("a", 1), ("a", 3)];
    var c1, c2 := [calls[0]], [calls[0], calls[1]];
    assert calls[..2] == c2 && c2[..1] == c1 && c1[..0] == [];
    Suffixes("a");
    Suffixes("a_");
    assert "a" + "_" == "a_" && "a" + "__" == "a__" && |"a"| == 1 && |"a_"| == 2 && |"a__"| == 3;
    var m1: map<string, u64> := map["a_" := 2];
    var m2, m3 := m1["a" := 1], m1["a" := 1]["a__" := 3];
    ChainIs(map[], "a_", []);
    ChainIs(m1, "a", []);
    ChainIs(m2, "a", [1, 2]);
    ChainIs(m3, "a", [1, 2, 3]);
    assert Entered(c1, true) == m1 && Entered(c2, true) == m2 && Entered(calls, true) == m3;
    assert Arrivals(c1, "a", true) == [];
    assert Arrivals(c2, "a", true) == [1];
  }

  lemma Suffixes(name: string)
    ensures Suffixed(name, 0) == name && Suffixed(name, 1) == name + "_"
    ensures Suffixed(name, 2) == name + "__" && Suffixed(name, 3) == name + "___"
  {}
}
