/**
 The symbols of ELF files: names to addresses, a further address of a name being entered under the name
 with underscores appended, and the reverse index from addresses to names.
 */
module ElfSymbols {
  import opened Basics
  import opened CleanupSpec

  // ---- suffixes ----

  function Underscores(k: nat): (s: string)
    ensures |s| == k && forall i | 0 <= i < k :: s[i] == '_'
  {
    seq(k, _ => '_')
  }

  function Suffixed(name: string, k: nat): string {
    name + Underscores(k)
  }

  lemma SuffixedNext(name: string, k: nat)
    ensures Suffixed(name, 0) == name
    ensures Suffixed(name, k) + "_" == Suffixed(name, k + 1) && Suffixed(name + "_", k) == Suffixed(name, k + 1)
  {}

  // The keys that are at least as long as `name`.
  ghost function AsLong(m: map<string, u64>, name: string): set<string> {
    set n | n in m && |n| >= |name|
  }

  lemma FewerAsLong(m: map<string, u64>, name: string)
    requires name in m
    ensures |AsLong(m, name + "_")| < |AsLong(m, name)|
  {
    assert AsLong(m, name + "_") <= AsLong(m, name) - {name};
    SubsetSize(AsLong(m, name + "_"), AsLong(m, name) - {name});
  }

  lemma SubsetSize<T>(a: set<T>, b: set<T>)
    requires a <= b
    ensures |a| <= |b|
  {
    if a != {} {
      var x :| x in a;
      SubsetSize(a - {x}, b - {x});
    }
  }

  // The addresses under `name`, `name_`, `name__` and so on, up to the first name that is not entered.
  function Chain(m: map<string, u64>, name: string): seq<u64>
    decreases |AsLong(m, name)|
  {
    if name !in m then []
    else
      FewerAsLong(m, name);
      [m[name]] + Chain(m, name + "_")
  }

  // What the chain says of the map.
  lemma {:induction false} ChainMeans(m: map<string, u64>, name: string)
    ensures Suffixed(name, |Chain(m, name)|) !in m
    ensures forall k | 0 <= k < |Chain(m, name)| :: Suffixed(name, k) in m && m[Suffixed(name, k)] == Chain(m, name)[k]
    decreases |AsLong(m, name)|
  {
    SuffixedNext(name, 0);
    if name in m {
      FewerAsLong(m, name);
      ChainMeans(m, name + "_");
      var n := |Chain(m, name)|;
      SuffixedNext(name, n - 1);
      forall k: nat | 0 < k < n ensures Suffixed(name, k) in m && m[Suffixed(name, k)] == Chain(m, name)[k] {
        SuffixedNext(name, k - 1);
      }
    }
  }

  // The chain is determined by where its addresses are and where it ends.
  lemma {:induction false} ChainIs(m: map<string, u64>, name: string, c: seq<u64>)
    requires Suffixed(name, |c|) !in m
    requires forall k | 0 <= k < |c| :: Suffixed(name, k) in m && m[Suffixed(name, k)] == c[k]
    ensures Chain(m, name) == c
    decreases |c|
  {
    SuffixedNext(name, 0);
    if c != [] {
      forall k: nat | k < |c| ensures Suffixed(name + "_", k) == Suffixed(name, k + 1) { SuffixedNext(name, k); }
      ChainIs(m, name + "_", c[1..]);
    }
  }

  // ---- the fields and operations ----

  lemma HasGreatest(keys: set<u64>)
    requires keys != {}
    ensures exists a :: a in keys && forall b <- keys :: b <= a
  {
    var x :| x in keys;
    HasGreatestFrom(keys, x);
  }

  lemma HasGreatestFrom(keys: set<u64>, x: u64)
    requires x in keys
    ensures exists a :: a in keys && forall b <- keys :: b <= a
    decreases U64 - x
  {
    if y :| y in keys && y > x {
      HasGreatestFrom(keys, y);
    } else {
      assert forall b <- keys :: b <= x;
    }
  }

  function Greatest(keys: set<u64>): (a: u64)
    requires keys != {}
    ensures a in keys && forall b <- keys :: b <= a
  {
    HasGreatest(keys);
    var a :| a in keys && forall b <- keys :: b <= a;
    a
  }

  // Every address of the map is indexed by one of its names, and no other address is.
  ghost predicate IsReverse(rev: map<u64, string>, m: map<string, u64>) {
    && (forall n <- m :: m[n] in rev)
    && (forall a <- rev :: rev[a] in m && m[rev[a]] == a)
  }

  // addSymbolAddress as a function: the new map and what the call returns.
  function AddedSymbol(m: map<string, u64>, name: string, address: u64, replace: bool): (map<string, u64>, bool) {
    if replace then
      if name in m && m[name] == address then (m, false) else (m[name := address], name in m)
    else
      var c := Chain(m, name);
      if address in c then (m, false) else (m[Suffixed(name, |c|) := address], c != [])
  }

  // addFunctionAddress as a function.
  function AddedFunction(m: map<string, u64>, name: string, address: u64): map<string, u64> {
    m[Suffixed(name, |Chain(m, name)|) := address]
  }

  class AddressTables {
    var elfSymbolMap: map<string, u64>
    var functionSymbolMap: map<string, u64>
    var elfSymbolRevMap: map<u64, string>
    var functionSymbolRevMap: map<u64, string>

    constructor ()
      ensures elfSymbolMap == functionSymbolMap == map[]
      ensures elfSymbolRevMap == functionSymbolRevMap == map[]
    {
      elfSymbolMap, functionSymbolMap := map[], map[];
      elfSymbolRevMap, functionSymbolRevMap := map[], map[];
    }

    method AddSymbolAddress(name: string, address: u64, replace: bool) returns (duplicate: bool)
      modifies this`elfSymbolMap
      ensures (elfSymbolMap, duplicate) == AddedSymbol(old(elfSymbolMap), name, address, replace)
    {
      duplicate := false;
      var newName := name;
      ghost var passed: seq<u64> := [];
      SuffixedNext(name, 0);
      while newName in elfSymbolMap
        invariant newName == Suffixed(name, |passed|) && duplicate == (passed != [])
        invariant Chain(elfSymbolMap, name) == passed + Chain(elfSymbolMap, newName)
        invariant address !in passed && (replace ==> passed == [])
        invariant elfSymbolMap == old(elfSymbolMap)
        decreases |AsLong(elfSymbolMap, newName)|
      {
        if elfSymbolMap[newName] == address {
          return false;
        }
        duplicate := true;
        if replace { break; }
        FewerAsLong(elfSymbolMap, newName);
        SuffixedNext(name, |passed|);
        passed := passed + [elfSymbolMap[newName]];
        newName := newName + "_";
      }
      elfSymbolMap := elfSymbolMap[newName := address];
    }

    method AddFunctionAddress(name: string, address: u64)
      modifies this`functionSymbolMap
      ensures functionSymbolMap == AddedFunction(old(functionSymbolMap), name, address)
    {
      var newName := name;
      ghost var passed: nat := 0;
      SuffixedNext(name, 0);
      while newName in functionSymbolMap
        invariant newName == Suffixed(name, passed)
        invariant |Chain(functionSymbolMap, name)| == passed + |Chain(functionSymbolMap, newName)|
        invariant functionSymbolMap == old(functionSymbolMap)
        decreases |AsLong(functionSymbolMap, newName)|
      {
        FewerAsLong(functionSymbolMap, newName);
        SuffixedNext(name, passed);
        passed := passed + 1;
        newName := newName + "_";
      }
      functionSymbolMap := functionSymbolMap[newName := address];
    }

    // The loop of updateRevMaps over one map, for any order in which the hash map is iterated.
    static method Reversed(m: map<string, u64>) returns (rev: map<u64, string>)
      ensures IsReverse(rev, m)
    {
      rev := map[];
      var rest := m.Keys;
      while rest != {}
        invariant rest <= m.Keys
        invariant forall n <- m | n !in rest :: m[n] in rev
        invariant forall a <- rev :: rev[a] in m && m[rev[a]] == a
        decreases rest
      {
        var n :| n in rest;
        rev := rev[m[n] := n];
        rest := rest - {n};
      }
    }

    method UpdateRevMaps()
      modifies this`elfSymbolRevMap, this`functionSymbolRevMap
      ensures IsReverse(elfSymbolRevMap, elfSymbolMap)
      ensures IsReverse(functionSymbolRevMap, functionSymbolMap)
    {
      elfSymbolRevMap := Reversed(elfSymbolMap);
      functionSymbolRevMap := Reversed(functionSymbolMap);
    }

    function GetElfSymbolAddress(name: string): u64
      reads this
    {
      if name in elfSymbolMap then elfSymbolMap[name] else 0
    }

    function GetElfSymbolName(address: u64): string
      reads this
    {
      if address in elfSymbolRevMap then elfSymbolRevMap[address] else ""
    }

    // The name found for the address of a symbol has that address; other addresses have no name, and other names
    // the address 0.
    lemma AddressOfName(address: u64)
      requires IsReverse(elfSymbolRevMap, elfSymbolMap)
      ensures address in elfSymbolMap.Values ==> GetElfSymbolAddress(GetElfSymbolName(address)) == address
      ensures address !in elfSymbolMap.Values ==> GetElfSymbolName(address) == ""
      ensures forall name: string | name !in elfSymbolMap :: GetElfSymbolAddress(name) == 0
    {}

    // The name found for the address of a name need not be that name, but has the same address.
    lemma NameOfAddress(name: string)
      requires IsReverse(elfSymbolRevMap, elfSymbolMap) && name in elfSymbolMap
      ensures GetElfSymbolName(GetElfSymbolAddress(name)) in elfSymbolMap
      ensures GetElfSymbolAddress(GetElfSymbolName(GetElfSymbolAddress(name))) == GetElfSymbolAddress(name)
    {}

    method IsSymbol(address: u64) returns (r: bool)
      requires IsReverse(elfSymbolRevMap, elfSymbolMap)
      ensures r <==> address in elfSymbolMap.Values
    {
      r := address in elfSymbolRevMap;
    }

    /**
     getContainingSymbol: the greatest symbol address up to `address`, but 0 if no symbol has a larger
     address or none an address up to it.
     */
    method GetContainingSymbol(address: u64) returns (start: u64)
      requires IsReverse(elfSymbolRevMap, elfSymbolMap)
      ensures var all := elfSymbolMap.Values;
              if (exists a <- all :: a > address) && (exists a <- all :: a <= address)
              then start in all && start <= address && forall a <- all | a <= address :: a <= start
              else start == 0
    {
      assert elfSymbolRevMap.Keys == elfSymbolMap.Values;
      // upper_bound: the first key larger than `address`
      var larger := set a | a in elfSymbolRevMap && a > address;
      assert forall a <- elfSymbolMap.Values | a > address :: a in larger;
      if larger == {} { return 0; }
      var iter: u64 := Least(larger);
      var before := set a | a in elfSymbolRevMap && a < iter;
      assert forall a <- elfSymbolMap.Values :: a in before <==> a <= address;
      if before == {} { return 0; }
      start := Greatest(before);
    }
  }
}
