/**
 The order of the parse, stated without reference to the traversal: a DIE of a forest is named by its
 path, the positions among their siblings of its ancestors and of itself.
 */
module Traversal {
  import opened Basics
  import opened Dwarf

  // ---- paths ----

  predicate IsPath(forest: seq<Die>, p: seq<nat>) {
    p != [] && p[0] < |forest| && (|p| == 1 || IsPath(forest[p[0]].children, p[1..]))
  }

  function DieAt(forest: seq<Die>, p: seq<nat>): Die
    requires IsPath(forest, p)
  {
    if |p| == 1 then forest[p[0]] else DieAt(forest[p[0]].children, p[1..])
  }

  // Document order: an ancestor before its descendants, an earlier sibling before a later one.
  predicate Before(p: seq<nat>, q: seq<nat>) {
    if p == [] then q != []
    else q != [] && (p[0] < q[0] || (p[0] == q[0] && Before(p[1..], q[1..])))
  }

  lemma {:induction false} BeforeIsTotal(p: seq<nat>, q: seq<nat>)
    ensures p == q || Before(p, q) || Before(q, p)
  {
    if p != [] && q != [] && p[0] == q[0] {
      BeforeIsTotal(p[1..], q[1..]);
      assert p == [p[0]] + p[1..] && q == [q[0]] + q[1..];
    }
  }

  // The number of DIEs visited before the one at `p`.
  function Position(forest: seq<Die>, p: seq<nat>): (k: nat)
    requires IsPath(forest, p)
    ensures k < Size(forest)
    decreases |p|, if p == [] then 0 else p[0]
  {
    if p[0] > 0 then 1 + Size(forest[0].children) + Position(forest[1..], [p[0] - 1] + p[1..])
    else if |p| == 1 then 0
    else 1 + Position(forest[0].children, p[1..])
  }

  // The path of the first tree's next sibling's tree, seen from the rest of the forest.
  lemma SiblingPath(forest: seq<Die>, p: seq<nat>)
    requires IsPath(forest, p) && p[0] > 0
    ensures var q := [p[0] - 1] + p[1..];
            IsPath(forest[1..], q) && DieAt(forest[1..], q) == DieAt(forest, p) && q[1..] == p[1..]
  {
    var q := [p[0] - 1] + p[1..];
    assert q[1..] == p[1..] && forest[1..][q[0]] == forest[p[0]];
  }

  lemma {:induction false} ParentPath(forest: seq<Die>, p: seq<nat>)
    requires IsPath(forest, p) && |p| > 1
    ensures IsPath(forest, p[..|p| - 1])
  {
    if |p| > 2 {
      ParentPath(forest[p[0]].children, p[1..]);
      assert p[..|p| - 1][1..] == p[1..][..|p| - 2];
    }
  }

  // The operation that visits the DIE's parent: that of the parent path, or what was passed for the forest.
  function ParentOp(forest: seq<Die>, p: seq<nat>, parent: Option<nat>, start: nat): Option<nat>
    requires IsPath(forest, p)
  {
    if |p| == 1 then parent
    else
      ParentPath(forest, p);
      Some(start + Position(forest, p[..|p| - 1]))
  }

  // The same operation, seen from the children of the first DIE and from its siblings.
  lemma {:induction false} ParentOpBelow(forest: seq<Die>, p: seq<nat>, parent: Option<nat>, start: nat)
    requires IsPath(forest, p) && |p| > 1 && p[0] == 0
    ensures ParentOp(forest, p, parent, start) == ParentOp(forest[0].children, p[1..], Some(start), start + 1)
  {
    ParentPath(forest, p);
    assert p[..|p| - 1][1..] == p[1..][..|p| - 2];
  }

  lemma {:induction false} ParentOpBeside(forest: seq<Die>, p: seq<nat>, parent: Option<nat>, start: nat)
    requires IsPath(forest, p) && p[0] > 0
    ensures IsPath(forest[1..], [p[0] - 1] + p[1..])
    ensures ParentOp(forest, p, parent, start)
            == ParentOp(forest[1..], [p[0] - 1] + p[1..], parent, start + 1 + Size(forest[0].children))
  {
    SiblingPath(forest, p);
    if |p| > 1 {
      ParentPath(forest, p);
      SiblingPath(forest, p[..|p| - 1]);
      assert ([p[0] - 1] + p[1..])[..|p| - 1] == [p[..|p| - 1][0] - 1] + p[..|p| - 1][1..];
    }
  }

  // Operation `k` of `ops` is the visit of `die`.
  ghost predicate VisitsAt(ops: seq<Op>, k: nat, place: Place, die: Die, parent: Option<nat>, level: nat) {
    k < |ops| && ops[k] == Visit(place, die, parent, level)
  }

  /**
   The DIE at `p` is visited by exactly the operation its position says, at a level equal to its depth,
   with the symbol that the visit of its parent DIE returned.
   */
  lemma {:induction false} VisitAt(forest: seq<Die>, place: Place, parent: Option<nat>, level: nat, start: nat,
                                   p: seq<nat>)
    requires IsPath(forest, p)
    ensures VisitsAt(Preorder(forest, place, parent, level, start), Position(forest, p),
                     place, DieAt(forest, p), ParentOp(forest, p, parent, start), level + |p| - 1)
    decreases |p|, p[0]
  {
    if p[0] > 0 {
      var q, next := [p[0] - 1] + p[1..], start + 1 + Size(forest[0].children);
      SiblingPath(forest, p);
      VisitAt(forest[1..], place, parent, level, next, q);
      VisitAtBeside(forest, place, parent, level, start, p, q);
    } else if |p| > 1 {
      VisitAt(forest[0].children, place, Some(start), level + 1, start + 1, p[1..]);
      VisitAtBelow(forest, place, parent, level, start, p);
    } else {
      VisitFirst(forest, place, parent, level, start);
    }
  }

  lemma {:induction false} VisitFirst(forest: seq<Die>, place: Place, parent: Option<nat>, level: nat, start: nat)
    requires forest != []
    ensures VisitsAt(Preorder(forest, place, parent, level, start), 0, place, forest[0], parent, level)
  {}

  lemma VisitAtBeside(forest: seq<Die>, place: Place, parent: Option<nat>, level: nat, start: nat, p: seq<nat>,
                      q: seq<nat>)
    requires IsPath(forest, p) && p[0] > 0 && q == [p[0] - 1] + p[1..] && IsPath(forest[1..], q)
    requires var next := start + 1 + Size(forest[0].children);
             VisitsAt(Preorder(forest[1..], place, parent, level, next), Position(forest[1..], q),
                      place, DieAt(forest[1..], q), ParentOp(forest[1..], q, parent, next), level + |q| - 1)
    ensures VisitsAt(Preorder(forest, place, parent, level, start), Position(forest, p),
                     place, DieAt(forest, p), ParentOp(forest, p, parent, start), level + |p| - 1)
  {
    ParentOpBeside(forest, p, parent, start);
    SiblingPath(forest, p);
    VisitBeside(forest, place, parent, level, start, Position(forest[1..], q),
                DieAt(forest, p), ParentOp(forest, p, parent, start), level + |p| - 1);
  }

  lemma VisitAtBelow(forest: seq<Die>, place: Place, parent: Option<nat>, level: nat, start: nat, p: seq<nat>)
    requires IsPath(forest, p) && p[0] == 0 && |p| > 1
    requires VisitsAt(Preorder(forest[0].children, place, Some(start), level + 1, start + 1),
             Position(forest[0].children, p[1..]),
                      place, DieAt(forest, p), ParentOp(forest[0].children, p[1..], Some(start), start + 1),
                        level + |p| - 1)
    ensures VisitsAt(Preorder(forest, place, parent, level, start), Position(forest, p),
                     place, DieAt(forest, p), ParentOp(forest, p, parent, start), level + |p| - 1)
  {
    ParentOpBelow(forest, p, parent, start);
    VisitBelow(forest, place, parent, level, start, Position(forest[0].children, p[1..]),
               DieAt(forest, p), ParentOp(forest, p, parent, start), level + |p| - 1);
  }

  // The visits below the first DIE of a forest, and those beside it, in the visits of the forest.
  lemma VisitBelow(forest: seq<Die>, place: Place, parent: Option<nat>, level: nat, start: nat,
                   k: nat, die: Die, op: Option<nat>, depth: nat)
    requires forest != []
    requires VisitsAt(Preorder(forest[0].children, place, Some(start), level + 1, start + 1), k, place, die, op, depth)
    ensures VisitsAt(Preorder(forest, place, parent, level, start), 1 + k, place, die, op, depth)
  {}

  lemma VisitBeside(forest: seq<Die>, place: Place, parent: Option<nat>, level: nat, start: nat,
                    k: nat, die: Die, op: Option<nat>, depth: nat)
    requires forest != []
    requires var next := start + 1 + Size(forest[0].children);
             VisitsAt(Preorder(forest[1..], place, parent, level, next), k, place, die, op, depth)
    ensures VisitsAt(Preorder(forest, place, parent, level, start), 1 + Size(forest[0].children) + k, place, die, op,
            depth)
  {}

  // Document order is the order of the visits, so that no two DIEs share a position.
  lemma {:induction false} PositionIsMonotone(forest: seq<Die>, p: seq<nat>, q: seq<nat>)
    requires IsPath(forest, p) && IsPath(forest, q) && Before(p, q)
    ensures Position(forest, p) < Position(forest, q)
    decreases |p|, p[0]
  {
    if p[0] > 0 {
      SiblingPath(forest, p);
      SiblingPath(forest, q);
      PositionIsMonotone(forest[1..], [p[0] - 1] + p[1..], [q[0] - 1] + q[1..]);
    } else if q[0] == 0 && |p| > 1 {
      PositionIsMonotone(forest[0].children, p[1..], q[1..]);
    }
  }

  // Every visit of a forest is to some DIE of it.
  lemma {:induction false} PathOf(forest: seq<Die>, k: nat) returns (p: seq<nat>)
    requires k < Size(forest)
    ensures IsPath(forest, p) && Position(forest, p) == k
  {
    if k == 0 {
      p := [0];
    } else if k <= Size(forest[0].children) {
      var q := PathOf(forest[0].children, k - 1);
      p := [0] + q;
      assert p[1..] == q;
    } else {
      var q := PathOf(forest[1..], k - 1 - Size(forest[0].children));
      p := [q[0] + 1] + q[1..];
      assert forest[1..][q[0]] == forest[p[0]];
      assert [p[0] - 1] + p[1..] == q;
    }
  }

  // ---- units and files ----

  function Roots(units: seq<Unit>): (forest: seq<Die>)
    ensures |forest| == |units|
    ensures forall i | 0 <= i < |units| :: forest[i] == units[i].root
  {
    if units == [] then [] else [units[0].root] + Roots(units[1..])
  }

  // The section offset of the header of unit `k`, when the first unit starts at `cu`.
  function Header(units: seq<Unit>, cu: u64, k: nat): u64
    requires k <= |units|
  {
    if k == 0 then cu else Header(units[1..], (cu + units[0].length) % U64, k - 1)
  }

  /**
   The visits of a file are those of the forest of its units' top-level DIEs, every DIE of a unit being
   visited while curCUOffset is the offset of that unit's header.
   */
  lemma {:induction false} UnitVisitAt(units: seq<Unit>, file: nat, cu: u64, start: nat, p: seq<nat>)
    requires IsPath(Roots(units), p)
    ensures VisitsAt(UnitOps(units, file, cu, start), Position(Roots(units), p),
                     Place(file, Header(units, cu, p[0])), DieAt(Roots(units), p),
                       ParentOp(Roots(units), p, None, start), |p| - 1)
    decreases |units|
  {
    hide UnitOps, Preorder, VisitsAt;
    if p[0] > 0 {
      var q := [p[0] - 1] + p[1..];
      SiblingPath(Roots(units), p);
      UnitVisitAt(units[1..], file, (cu + units[0].length) % U64, start + 1 + Size(units[0].root.children), q);
      UnitVisitBeside(units, file, cu, start, p, q, Place(file, Header(units, cu, p[0])));
    } else {
      UnitVisitFirst(units, file, cu, start, p);
    }
  }

  lemma {:induction false} UnitVisitFirst(units: seq<Unit>, file: nat, cu: u64, start: nat, p: seq<nat>)
    requires IsPath(Roots(units), p) && p[0] == 0
    ensures VisitsAt(UnitOps(units, file, cu, start), Position(Roots(units), p),
                     Place(file, cu), DieAt(Roots(units), p), ParentOp(Roots(units), p, None, start), |p| - 1)
  {
    VisitAt(Roots(units), Place(file, cu), None, 0, start, p);
    FirstTree(Roots(units), p);
    FirstUnit(units, file, cu, start, Position(Roots(units), p));
  }

  // The visits of the first unit are those of the first tree of the roots.
  lemma {:induction false} FirstUnit(units: seq<Unit>, file: nat, cu: u64, start: nat, i: nat)
    requires units != [] && i <= Size(units[0].root.children)
    ensures i < |UnitOps(units, file, cu, start)| && i < Size(Roots(units))
    ensures UnitOps(units, file, cu, start)[i] == Preorder(Roots(units), Place(file, cu), None, 0, start)[i]
  {
    PreorderTree([units[0].root], Place(file, cu), None, 0, start);
    PreorderTree(Roots(units), Place(file, cu), None, 0, start);
  }

  lemma UnitVisitBeside(units: seq<Unit>, file: nat, cu: u64, start: nat, p: seq<nat>, q: seq<nat>, place: Place)
    requires IsPath(Roots(units), p) && p[0] > 0 && q == [p[0] - 1] + p[1..] && IsPath(Roots(units[1..]), q)
    requires var next := start + 1 + Size(units[0].root.children);
             VisitsAt(UnitOps(units[1..], file, (cu + units[0].length) % U64, next), Position(Roots(units[1..]), q),
                      place, DieAt(Roots(units[1..]), q), ParentOp(Roots(units[1..]), q, None, next), |p| - 1)
    ensures VisitsAt(UnitOps(units, file, cu, start), Position(Roots(units), p),
                     place, DieAt(Roots(units), p), ParentOp(Roots(units), p, None, start), |p| - 1)
  {
    UnitPath(units, cu, start, p, q);
    OtherUnits(units, file, cu, start, Position(Roots(units[1..]), q), place,
               DieAt(Roots(units), p), ParentOp(Roots(units), p, None, start), |p| - 1);
  }

  // A path into a unit after the first one, seen from the other units.
  lemma {:induction false} UnitPath(units: seq<Unit>, cu: u64, start: nat, p: seq<nat>, q: seq<nat>)
    requires IsPath(Roots(units), p) && p[0] > 0 && q == [p[0] - 1] + p[1..] && IsPath(Roots(units[1..]), q)
    ensures Position(Roots(units), p) == 1 + Size(units[0].root.children) + Position(Roots(units[1..]), q)
    ensures DieAt(Roots(units), p) == DieAt(Roots(units[1..]), q)
    ensures ParentOp(Roots(units), p, None, start)
            == ParentOp(Roots(units[1..]), q, None, start + 1 + Size(units[0].root.children))
  {
    assert Roots(units)[1..] == Roots(units[1..]);
    ParentOpBeside(Roots(units), p, None, start);
    SiblingPath(Roots(units), p);
  }

  lemma OtherUnits(units: seq<Unit>, file: nat, cu: u64, start: nat,
                   k: nat, place: Place, die: Die, op: Option<nat>, depth: nat)
    requires units != []
    requires VisitsAt(UnitOps(units[1..], file, (cu + units[0].length) % U64, start + 1 + Size(units[0].root.children)),
                      k, place, die, op, depth)
    ensures VisitsAt(UnitOps(units, file, cu, start), 1 + Size(units[0].root.children) + k, place, die, op, depth)
  {
    assert Size([units[0].root]) == 1 + Size(units[0].root.children);
  }

  lemma {:induction false} FirstTree(forest: seq<Die>, p: seq<nat>)
    requires IsPath(forest, p) && p[0] == 0
    ensures Position(forest, p) <= Size(forest[0].children)
  {}

  lemma {:induction false} UnitOpsSize(units: seq<Unit>, file: nat, cu: u64, start: nat)
    ensures |UnitOps(units, file, cu, start)| == Size(Roots(units))
  {
    if units != [] {
      var first := [units[0].root];
      PreorderTree(first, Place(file, cu), None, 0, start);
      assert Roots(units)[1..] == Roots(units[1..]);
      UnitOpsSize(units[1..], file, (cu + units[0].length) % U64, start + Size(first));
    }
  }

  // The DIEs of a file have different section offsets.
  ghost predicate DistinctOffsets(forest: seq<Die>) {
    forall p, q | IsPath(forest, p) && IsPath(forest, q) && p != q ::
      DieAt(forest, p).offset != DieAt(forest, q).offset
  }

  lemma UnitOpsAreVisits(units: seq<Unit>, file: nat, cu: u64, start: nat, i: nat) returns (p: seq<nat>)
    requires i < |UnitOps(units, file, cu, start)|
    ensures IsPath(Roots(units), p) && Position(Roots(units), p) == i
    ensures var op := UnitOps(units, file, cu, start)[i];
            op.Visit? && op.place.file == file && op.die == DieAt(Roots(units), p)
  {
    UnitOpsSize(units, file, cu, start);
    p := PathOf(Roots(units), i);
    UnitVisitAt(units, file, cu, start, p);
  }

  lemma {:induction false} UnitKeysDistinct(units: seq<Unit>, file: nat, cu: u64, start: nat)
    requires DistinctOffsets(Roots(units))
    ensures DistinctKeys(UnitOps(units, file, cu, start))
    ensures forall op <- UnitOps(units, file, cu, start) :: op.Visit? && op.place.file == file
  {
    var ops := UnitOps(units, file, cu, start);
    forall i: nat | i < |ops| ensures ops[i].Visit? && ops[i].place.file == file {
      var _ := UnitOpsAreVisits(units, file, cu, start, i);
    }
    forall i: nat, j: nat | i < j < |ops|
      ensures DieKey(ops[i].place, ops[i].die) != DieKey(ops[j].place, ops[j].die)
    {
      var p := UnitOpsAreVisits(units, file, cu, start, i);
      var q := UnitOpsAreVisits(units, file, cu, start, j);
    }
  }

  // The visits are to different DIEs of files numbered from `file` on, up to but without `end`.
  ghost predicate KeysWithin(ops: seq<Op>, file: nat, end: nat) {
    DistinctKeys(ops) && forall op <- ops :: op.Visit? && file <= op.place.file < end
  }

  lemma AppendKeysWithin(a: seq<Op>, b: seq<Op>, file: nat, mid: nat, end: nat)
    requires KeysWithin(a, file, mid) && KeysWithin(b, mid, end) && file <= mid <= end
    ensures KeysWithin(a + b, file, end)
  {
    var ops := a + b;
    assert forall i | 0 <= i < |a| :: ops[i] == a[i] && ops[i] in a;
    assert forall i | |a| <= i < |ops| :: ops[i] == b[i - |a|] && ops[i] in b;
  }

  lemma {:induction false} UnitKeysWithin(units: seq<Unit>, file: nat, cu: u64, start: nat)
    requires DistinctOffsets(Roots(units))
    ensures KeysWithin(UnitOps(units, file, cu, start), file, file + 1)
  {
    UnitKeysDistinct(units, file, cu, start);
  }

  lemma NoKeysWithin(file: nat)
    ensures KeysWithin([], file, file)
  {}

  // A run over any files, each numbered afresh, visits no DIE twice.
  lemma {:induction false} RunKeysWithin(files: seq<seq<Unit>>, file: nat, start: nat)
    requires forall units <- files :: DistinctOffsets(Roots(units))
    ensures KeysWithin(RunOps(files, file, start), file, file + |files|)
    decreases |files|
  {
    hide KeysWithin, DistinctOffsets, UnitOps;
    if files == [] {
      NoKeysWithin(file);
    } else {
      var ops := UnitOps(files[0], file, 0, start);
      assert files[0] in files;
      UnitKeysWithin(files[0], file, 0, start);
      RunKeysWithin(files[1..], file + 1, start + |ops|);
      AppendKeysWithin(ops, RunOps(files[1..], file + 1, start + |ops|), file, file + 1, file + |files|);
    }
  }
}
