/**
 The visits of a DIE and of everything below it are contiguous in a parse, and only they have the
 visit of the DIE, or of something below it, as their parent.
 */
module Subtrees {
  import opened Basics
  import opened Dwarf

  // Operation `k` of `ops` is a visit whose DIE's whole subtree follows; the first operation of `ops`
  // is operation `start` of the run.
  ghost predicate IsSubtree(ops: seq<Op>, start: nat, k: nat) {
    && k < |ops| && ops[k].Visit? && k + 1 + Size(ops[k].die.children) <= |ops|
    && (ops[k..k + 1 + Size(ops[k].die.children)]
        == Preorder([ops[k].die], ops[k].place, ops[k].parent, ops[k].level, start + k))
  }

  // The parent of operation `k` is `parent`, or an operation of `ops` whose subtree contains `k`.
  ghost predicate IsNested(ops: seq<Op>, parent: Option<nat>, start: nat, k: nat) {
    && k < |ops| && ops[k].Visit?
    && (ops[k].parent == parent
        || (ops[k].parent.Some?
            && var p := ops[k].parent.value - start;
               0 <= p < k && ops[p].Visit? && k <= p + Size(ops[p].die.children)))
  }

  ghost predicate IsTree(ops: seq<Op>, parent: Option<nat>, start: nat) {
    forall k: nat | k < |ops| :: IsSubtree(ops, start, k) && IsNested(ops, parent, start, k)
  }

  lemma SubtreeShifts(a: seq<Op>, b: seq<Op>, start: nat, k: nat)
    requires IsSubtree(b, start + |a|, k)
    ensures IsSubtree(a + b, start, |a| + k)
  {
    var n := k + 1 + Size(b[k].die.children);
    assert (a + b)[|a| + k..|a| + n] == b[k..n];
  }

  lemma SubtreeStays(a: seq<Op>, b: seq<Op>, start: nat, k: nat)
    requires IsSubtree(a, start, k)
    ensures IsSubtree(a + b, start, k)
  {
    var n := k + 1 + Size(a[k].die.children);
    assert (a + b)[k..n] == a[k..n];
  }

  // Two forests beside each other.
  lemma TreesAppend(a: seq<Op>, b: seq<Op>, parent: Option<nat>, start: nat)
    requires IsTree(a, parent, start) && IsTree(b, parent, start + |a|)
    ensures IsTree(a + b, parent, start)
  {
    hide IsSubtree;
    forall k: nat | k < |a + b| ensures IsSubtree(a + b, start, k) && IsNested(a + b, parent, start, k) {
      if k < |a| {
        assert IsSubtree(a, start, k) && IsNested(a, parent, start, k);
        SubtreeStays(a, b, start, k);
      } else {
        assert IsSubtree(b, start + |a|, k - |a|) && IsNested(b, parent, start + |a|, k - |a|);
        SubtreeShifts(a, b, start, k - |a|);
      }
    }
  }

  // A DIE on top of the forest of its children.
  lemma {:induction false} TreeOnTop(die: Die, place: Place, parent: Option<nat>, level: nat, start: nat)
    requires IsTree(Preorder(die.children, place, Some(start), level + 1, start + 1), Some(start), start + 1)
    ensures IsTree(Preorder([die], place, parent, level, start), parent, start)
  {
    PreorderTree([die], place, parent, level, start);
    RootOnTop(Visit(place, die, parent, level), Preorder(die.children, place, Some(start), level + 1, start + 1),
      start);
  }

  lemma {:induction false} RootOnTop(root: Op, below: seq<Op>, start: nat)
    requires root.Visit? && |below| == Size(root.die.children) && IsTree(below, Some(start), start + 1)
    requires [root] + below == Preorder([root.die], root.place, root.parent, root.level, start)
    ensures IsTree([root] + below, root.parent, start)
  {
    var ops := [root] + below;
    forall k: nat | k < |ops| ensures IsSubtree(ops, start, k) && IsNested(ops, root.parent, start, k) {
      if k == 0 {
        assert ops[..|ops|] == ops;
      } else {
        assert IsSubtree(below, start + 1, k - 1) && IsNested(below, Some(start), start + 1, k - 1);
        SubtreeShifts([root], below, start, k - 1);
        NestedOnTop(root, below, start, k - 1);
      }
    }
  }

  lemma NestedOnTop(root: Op, below: seq<Op>, start: nat, k: nat)
    requires root.Visit? && |below| == Size(root.die.children) && IsNested(below, Some(start), start + 1, k)
    ensures IsNested([root] + below, root.parent, start, k + 1)
  {}

  lemma {:induction false} PreorderIsTree(forest: seq<Die>, place: Place, parent: Option<nat>, level: nat, start: nat)
    ensures IsTree(Preorder(forest, place, parent, level, start), parent, start)
  {
    if forest != [] {
      PreorderIsTree(forest[0].children, place, Some(start), level + 1, start + 1);
      TreeOnTop(forest[0], place, parent, level, start);
      PreorderTree(forest, place, parent, level, start);
      var tree := Preorder([forest[0]], place, parent, level, start);
      PreorderIsTree(forest[1..], place, parent, level, start + |tree|);
      TreesAppend(tree, Preorder(forest[1..], place, parent, level, start + |tree|), parent, start);
    }
  }

  lemma {:induction false} UnitsAreTrees(units: seq<Unit>, file: nat, cu: u64, start: nat)
    ensures IsTree(UnitOps(units, file, cu, start), None, start)
    decreases |units|
  {
    if units != [] {
      var tree := Preorder([units[0].root], Place(file, cu), None, 0, start);
      var next := (cu + units[0].length) % U64;
      PreorderIsTree([units[0].root], Place(file, cu), None, 0, start);
      UnitsAreTrees(units[1..], file, next, start + |tree|);
      TreesAppend(tree, UnitOps(units[1..], file, next, start + |tree|), None, start);
    }
  }

  lemma {:induction false} RunIsTree(files: seq<seq<Unit>>, file: nat, start: nat)
    ensures IsTree(RunOps(files, file, start), None, start)
    decreases |files|
  {
    if files != [] {
      var ops := UnitOps(files[0], file, 0, start);
      UnitsAreTrees(files[0], file, 0, start);
      RunIsTree(files[1..], file + 1, start + |ops|);
      TreesAppend(ops, RunOps(files[1..], file + 1, start + |ops|), None, start);
    }
  }

  // ---- the children of a DIE ----

  // The operations from `start` on are the visits of `forest`, whose parent is operation `p`.
  ghost predicate VisitsForest(ops: seq<Op>, forest: seq<Die>, place: Place, p: nat, level: nat, start: nat) {
    && p < start && start + Size(forest) <= |ops|
    && ops[start..start + Size(forest)] == Preorder(forest, place, Some(p), level, start)
  }

  lemma ForestSplits(ops: seq<Op>, forest: seq<Die>, place: Place, p: nat, level: nat, start: nat)
    requires forest != [] && VisitsForest(ops, forest, place, p, level, start)
    ensures ops[start] == Visit(place, forest[0], Some(p), level)
    ensures VisitsForest(ops, forest[0].children, place, start, level + 1, start + 1)
    ensures VisitsForest(ops, forest[1..], place, p, level, start + 1 + Size(forest[0].children))
  {
    hide Preorder;
    var below := Preorder(forest[0].children, place, Some(start), level + 1, start + 1);
    var beside := Preorder(forest[1..], place, Some(p), level, start + 1 + |below|);
    PreorderTree(forest, place, Some(p), level, start);
    Slices(ops, start, Visit(place, forest[0], Some(p), level), below, beside);
  }

  lemma Slices(ops: seq<Op>, start: nat, first: Op, below: seq<Op>, beside: seq<Op>)
    requires start + 1 + |below| + |beside| <= |ops|
    requires ops[start..start + 1 + |below| + |beside|] == [first] + below + beside
    ensures ops[start] == first && ops[start + 1..start + 1 + |below|] == below
    ensures ops[start + 1 + |below|..start + 1 + |below| + |beside|] == beside
  {
    var end := start + 1 + |below| + |beside|;
    var all := ops[start..end];
    assert all[0] == first && all[1..1 + |below|] == below && all[1 + |below|..] == beside;
    SliceOfSlice(ops, start, end, 1, 1 + |below|);
    SliceOfSlice(ops, start, end, 1 + |below|, |all|);
  }

  lemma SliceOfSlice(ops: seq<Op>, lo: nat, hi: nat, i: nat, j: nat)
    requires lo <= hi <= |ops| && i <= j <= hi - lo
    ensures ops[lo..hi][i..j] == ops[lo + i..lo + j]
  {
    var a, b := ops[lo..hi][i..j], ops[lo + i..lo + j];
    forall k | 0 <= k < j - i ensures a[k] == b[k] {
      assert a[k] == ops[lo..hi][i + k];
    }
  }

  // The operations after `c` and before `hi` are visits whose parent is `c` or a later one.
  ghost predicate Below(ops: seq<Op>, c: nat, hi: nat) {
    hi <= |ops| && forall i | c < i < hi :: ops[i].Visit? && ops[i].parent.Some? && c <= ops[i].parent.value < i
  }

  // The visits of `forest` from `start` on: each DIE after all that is below the one before it.
  ghost predicate LaidOut(ops: seq<Op>, forest: seq<Die>, place: Place, p: nat, level: nat, start: nat)
    decreases |forest|
  {
    if forest == [] then start <= |ops|
    else
      var next := start + 1 + Size(forest[0].children);
      && next <= |ops| && ops[start] == Visit(place, forest[0], Some(p), level) && Below(ops, start, next)
      && LaidOut(ops, forest[1..], place, p, level, next)
  }

  lemma {:induction false} BelowForest(ops: seq<Op>, forest: seq<Die>, place: Place, p: nat, level: nat)
    requires VisitsForest(ops, forest, place, p, level, p + 1)
    ensures Below(ops, p, p + 1 + Size(forest))
  {
    var below := Preorder(forest, place, Some(p), level, p + 1);
    PreorderIsTree(forest, place, Some(p), level, p + 1);
    forall i: nat | p < i < p + 1 + Size(forest)
      ensures ops[i].Visit? && ops[i].parent.Some? && p <= ops[i].parent.value < i
    {
      assert ops[i] == ops[p + 1..p + 1 + Size(forest)][i - p - 1];
      assert IsNested(below, Some(p), p + 1, i - p - 1);
    }
  }

  lemma {:induction false} ForestIsLaidOut(ops: seq<Op>, forest: seq<Die>, place: Place, p: nat, level: nat, start: nat)
    requires VisitsForest(ops, forest, place, p, level, start)
    ensures LaidOut(ops, forest, place, p, level, start)
    decreases |forest|
  {
    if forest != [] {
      ForestSplits(ops, forest, place, p, level, start);
      BelowForest(ops, forest[0].children, place, start, level + 1);
      ForestIsLaidOut(ops, forest[1..], place, p, level, start + 1 + Size(forest[0].children));
    }
  }
}
