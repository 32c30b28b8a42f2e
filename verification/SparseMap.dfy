/**
 How a map comes to need more than the iterator's stack: adding keys level by level builds the
 sparsest tree of a height, without a single rotation.
 */
module SparseMaps {
  import opened Common
  import opened Bindings
  import opened AvlTrees
  import opened AvlMaps
  import opened AvlHeap
  import opened WordFMs

  // --- the levels of the sparsest tree ---

  // The number of nodes at depth d of the sparsest tree of height h.
  function Width(h: nat, d: nat): nat {
    if h == 0 then 0
    else if d == 0 then 1
    else if h == 1 then 0
    else Width(h - 1, d - 1) + Width(h - 2, d - 1)
  }

  lemma {:induction false} WidthPositive(h: nat, d: nat)
    ensures Width(h, d) > 0 <==> d < h
  {
    if h >= 2 && d > 0 {
      WidthPositive(h - 1, d - 1);
      WidthPositive(h - 2, d - 1);
    }
  }

  // The place of the root.
  function Middle(lo: nat, h: nat): (m: nat)
    requires h > 0
    ensures lo <= m < lo + MinSize(h) && (h > 1 ==> lo + MinSize(h) == m + 1 + MinSize(h - 2))
  {
    lo + MinSize(h - 1)
  }

  // The key of node p at depth d.
  function KeyAt(lo: nat, h: nat, d: nat, p: nat): (k: nat)
    requires p < Width(h, d)
    ensures lo <= k < lo + MinSize(h)
    decreases h
  {
    if d == 0 then Middle(lo, h)
    else if p < Width(h - 1, d - 1) then KeyAt(lo, h - 1, d - 1, p)
    else KeyAt(Middle(lo, h) + 1, h - 2, d - 1, p - Width(h - 1, d - 1))
  }

  // The tree with all levels above depth d and the first p nodes at depth d.
  ghost function Grown(nodes: seq<AvlNode>, lo: nat, h: nat, d: nat, p: nat): Tree
    requires lo + MinSize(h) <= |nodes| && p <= Width(h, d)
    decreases h
  {
    if h == 0 || (d == 0 && p == 0) then Leaf
    else if d == 0 || h == 1 then Node(nodes[Middle(lo, h)], Middle(lo, h), 0, 0, Leaf, Leaf)
    else
      var w := Width(h - 1, d - 1);
      var l := Grown(nodes, lo, h - 1, d - 1, Min(p, w));
      var r := Grown(nodes, Middle(lo, h) + 1, h - 2, d - 1, p - Min(p, w));
      Node(nodes[Middle(lo, h)], Middle(lo, h), 0, Height(r) - Height(l), l, r)
  }

  // How many of p nodes at depth d are to the left of the root.
  function OnLeft(h: nat, d: nat, p: nat): (q: nat)
    requires h >= 2 && d > 0 && p <= Width(h, d)
    ensures q <= Width(h - 1, d - 1) && q <= p && p - q <= Width(h - 2, d - 1)
    ensures p <= Width(h - 1, d - 1) ==> q == p
    ensures p >= Width(h - 1, d - 1) ==> q == Width(h - 1, d - 1)
  {
    Min(p, Width(h - 1, d - 1))
  }

  lemma GrownParts(nodes: seq<AvlNode>, lo: nat, h: nat, d: nat, p: nat)
    requires lo + MinSize(h) <= |nodes| && p <= Width(h, d) && h >= 2 && d > 0
    ensures lo + MinSize(h - 1) <= |nodes| && Middle(lo, h) + 1 + MinSize(h - 2) <= |nodes|
    ensures var q := OnLeft(h, d, p); var l := Grown(nodes, lo, h - 1, d - 1, q);
      var r := Grown(nodes, Middle(lo, h) + 1, h - 2, d - 1, p - q);
      Grown(nodes, lo, h, d, p) == Node(nodes[Middle(lo, h)], Middle(lo, h), 0, Height(r) - Height(l), l, r)
  {
    MinSizeParts(h);
    hide MinSize, Height;
  }

  lemma {:induction false} GrownHeight(nodes: seq<AvlNode>, lo: nat, h: nat, d: nat, p: nat)
    requires lo + MinSize(h) <= |nodes| && p <= Width(h, d)
    ensures Balanced(Grown(nodes, lo, h, d, p))
    ensures Height(Grown(nodes, lo, h, d, p)) == if h <= d then h else if p > 0 then d + 1 else d
    decreases h
  {
    WidthPositive(h, d);
    if h >= 2 && d > 0 {
      GrownHeightAt(nodes, lo, h, d, p);
    }
  }

  lemma {:induction false} GrownHeightAt(nodes: seq<AvlNode>, lo: nat, h: nat, d: nat, p: nat)
    requires lo + MinSize(h) <= |nodes| && p <= Width(h, d) && h >= 2 && d > 0
    ensures Balanced(Grown(nodes, lo, h, d, p))
    ensures Height(Grown(nodes, lo, h, d, p)) == if h <= d then h else if p > 0 then d + 1 else d
    decreases h, 0
  {
    hide MinSize, Grown, Width;
    var q := OnLeft(h, d, p);
    GrownParts(nodes, lo, h, d, p);
    WidthPositive(h, d);
    WidthPositive(h - 1, d - 1);
    WidthPositive(h - 2, d - 1);
    GrownHeight(nodes, lo, h - 1, d - 1, q);
    GrownHeight(nodes, Middle(lo, h) + 1, h - 2, d - 1, p - q);
  }

  // Only the nodes of its own places matter to a tree.
  lemma {:induction false} GrownLocal(nodes: seq<AvlNode>, k: nat, n: AvlNode, lo: nat, h: nat, d: nat, p: nat)
    requires lo + MinSize(h) <= |nodes| && p <= Width(h, d) && k < |nodes| && (k < lo || lo + MinSize(h) <= k)
    ensures Grown(nodes[k := n], lo, h, d, p) == Grown(nodes, lo, h, d, p)
    decreases h
  {
    if h >= 2 && d > 0 {
      GrownLocalAt(nodes, k, n, lo, h, d, p);
    }
  }

  lemma {:induction false} GrownLocalAt(nodes: seq<AvlNode>, k: nat, n: AvlNode, lo: nat, h: nat, d: nat, p: nat)
    requires lo + MinSize(h) <= |nodes| && p <= Width(h, d) && k < |nodes| && (k < lo || lo + MinSize(h) <= k)
    requires h >= 2 && d > 0
    ensures Grown(nodes[k := n], lo, h, d, p) == Grown(nodes, lo, h, d, p)
    decreases h, 0
  {
    hide MinSize, Grown, Width, Height;
    var q := OnLeft(h, d, p);
    MinSizeParts(h);
    GrownParts(nodes, lo, h, d, p);
    GrownParts(nodes[k := n], lo, h, d, p);
    GrownLocal(nodes, k, n, lo, h - 1, d - 1, q);
    GrownLocal(nodes, k, n, Middle(lo, h) + 1, h - 2, d - 1, p - q);
  }

  // Inserting k, on the node n, puts a leaf at place p of level d, and rotates nothing.
  ghost predicate Grows(nodes: seq<AvlNode>, lo: nat, h: nat, d: nat, p: nat, n: AvlNode, k: nat) {
    && lo + MinSize(h) <= |nodes| && p < Width(h, d) && k < |nodes|
    && var t := Grown(nodes, lo, h, d, p);
      Balanced(t) && Insert(ByPlace, t, n, k, 0) == Inserted(Grown(nodes[k := n], lo, h, d, p + 1), p == 0, None)
  }

  // A leaf that makes the left, or right, subtree grow, makes the tree grow.
  lemma {:induction false} GrowLeft(nodes: seq<AvlNode>, lo: nat, h: nat, d: nat, p: nat, n: AvlNode, k: nat)
    requires h >= 2 && d > 0 && lo + MinSize(h) <= |nodes| && k < Middle(lo, h) && Grows(nodes, lo, h - 1, d - 1, p, n, k)
    ensures Grows(nodes, lo, h, d, p, n, k)
  {
    hide MinSize, FixLeft, FixRight, Balanced, Height, Grown;
    var m := Middle(lo, h);
    MinSizeParts(h);
    GrownParts(nodes, lo, h, d, p);
    GrownParts(nodes[k := n], lo, h, d, p + 1);
    WidthPositive(h - 1, d - 1);
    GrownHeight(nodes, lo, h, d, p);
    GrownHeight(nodes, lo, h - 1, d - 1, p);
    GrownHeight(nodes[k := n], lo, h - 1, d - 1, p + 1);
    GrownHeight(nodes, m + 1, h - 2, d - 1, 0);
    GrownLocal(nodes, k, n, m + 1, h - 2, d - 1, 0);
  }

  lemma {:induction false} GrowRight(nodes: seq<AvlNode>, lo: nat, h: nat, d: nat, p: nat, n: AvlNode, k: nat)
    requires h >= 2 && d > 0 && lo + MinSize(h) <= |nodes| && Width(h - 1, d - 1) <= p && Middle(lo, h) < k
    requires Grows(nodes, Middle(lo, h) + 1, h - 2, d - 1, p - Width(h - 1, d - 1), n, k)
    ensures Grows(nodes, lo, h, d, p, n, k)
  {
    hide MinSize, FixLeft, FixRight, Balanced, Height, Grown;
    var m, w := Middle(lo, h), Width(h - 1, d - 1);
    MinSizeParts(h);
    GrownParts(nodes, lo, h, d, p);
    GrownParts(nodes[k := n], lo, h, d, p + 1);
    WidthPositive(h - 1, d - 1);
    WidthPositive(h - 2, d - 1);
    GrownHeight(nodes, lo, h, d, p);
    GrownHeight(nodes, lo, h - 1, d - 1, w);
    GrownHeight(nodes, m + 1, h - 2, d - 1, p - w);
    GrownHeight(nodes[k := n], m + 1, h - 2, d - 1, p - w + 1);
    GrownLocal(nodes, k, n, lo, h - 1, d - 1, w);
  }

  /** The next key of a level makes a leaf at the next place of that level. */
  lemma {:induction false} InsertGrows(nodes: seq<AvlNode>, lo: nat, h: nat, d: nat, p: nat, n: AvlNode)
    requires lo + MinSize(h) <= |nodes| && p < Width(h, d)
    ensures Grows(nodes, lo, h, d, p, n, KeyAt(lo, h, d, p))
    decreases h
  {
    hide MinSize, Grows;
    MinSizeParts(h);
    if d == 0 {
      InsertRoot(nodes, lo, h, n);
    } else {
      var w, m := Width(h - 1, d - 1), Middle(lo, h);
      if p < w {
        InsertGrows(nodes, lo, h - 1, d - 1, p, n);
        GrowLeft(nodes, lo, h, d, p, n, KeyAt(lo, h - 1, d - 1, p));
      } else {
        InsertGrows(nodes, m + 1, h - 2, d - 1, p - w, n);
        GrowRight(nodes, lo, h, d, p, n, KeyAt(m + 1, h - 2, d - 1, p - w));
      }
    }
  }

  lemma InsertRoot(nodes: seq<AvlNode>, lo: nat, h: nat, n: AvlNode)
    requires h > 0 && lo + MinSize(h) <= |nodes|
    ensures Grows(nodes, lo, h, 0, 0, n, KeyAt(lo, h, 0, 0))
  {
  }

  lemma {:induction false} NextLevel(nodes: seq<AvlNode>, lo: nat, h: nat, d: nat)
    requires lo + MinSize(h) <= |nodes|
    ensures Grown(nodes, lo, h, d, Width(h, d)) == Grown(nodes, lo, h, d + 1, 0)
    decreases h
  {
    if h >= 2 && d > 0 {
      NextLevelAt(nodes, lo, h, d);
    }
  }

  lemma {:induction false} NextLevelAt(nodes: seq<AvlNode>, lo: nat, h: nat, d: nat)
    requires lo + MinSize(h) <= |nodes| && h >= 2 && d > 0
    ensures Grown(nodes, lo, h, d, Width(h, d)) == Grown(nodes, lo, h, d + 1, 0)
    decreases h, 0
  {
    hide MinSize, Height, Grown;
    GrownParts(nodes, lo, h, d, Width(h, d));
    GrownParts(nodes, lo, h, d + 1, 0);
    NextLevel(nodes, lo, h - 1, d - 1);
    NextLevel(nodes, Middle(lo, h) + 1, h - 2, d - 1);
  }

  lemma {:induction false} AllLevels(nodes: seq<AvlNode>, lo: nat, h: nat, d: nat)
    requires lo + MinSize(h) <= |nodes| && h <= d
    ensures Grown(nodes, lo, h, d, 0) == Sparse(nodes, lo, h)
    decreases h
  {
    if h >= 2 {
      AllLevelsAt(nodes, lo, h, d);
    }
  }

  lemma {:induction false} AllLevelsAt(nodes: seq<AvlNode>, lo: nat, h: nat, d: nat)
    requires lo + MinSize(h) <= |nodes| && 2 <= h <= d
    ensures Grown(nodes, lo, h, d, 0) == Sparse(nodes, lo, h)
    decreases h, 0
  {
    hide MinSize, Grown, Sparse, Height, Balanced, Need;
    GrownParts(nodes, lo, h, d, 0);
    SparseParts(nodes, lo, h);
    AllLevels(nodes, lo, h - 1, d - 1);
    AllLevels(nodes, Middle(lo, h) + 1, h - 2, d - 1);
    SparseShape(nodes, lo, h - 1);
    SparseShape(nodes, Middle(lo, h) + 1, h - 2);
  }

  lemma SparseParts(nodes: seq<AvlNode>, lo: nat, h: nat)
    requires lo + MinSize(h) <= |nodes| && h >= 2
    ensures Sparse(nodes, lo, h)
      == Node(nodes[Middle(lo, h)], Middle(lo, h), 0, -1, Sparse(nodes, lo, h - 1), Sparse(nodes, Middle(lo, h) + 1, h - 2))
  {
  }

  lemma ByPlaceOrders()
    ensures Order(ByPlace)
  {
  }

  // One key more.
  method AddNext(m: WordFM, h: nat, d: nat, p: nat, ghost nodes: seq<AvlNode>) returns (ghost more: seq<AvlNode>)
    requires m.Valid() && m.kCmp == ByPlace && |nodes| == MinSize(h) && p < Width(h, d)
    requires m.tree == Grown(nodes, 0, h, d, p)
    modifies m, Nodes(m.tree)
    ensures m.Valid() && |more| == MinSize(h) && m.tree == Grown(more, 0, h, d, p + 1)
    ensures forall x :: x in Nodes(m.tree) ==> x in old(Nodes(m.tree)) || fresh(x)
  {
    hide MinSize, KeyAt, Grown, Insert, Order, Sorted, Balanced, Height, Distinct, Entries;
    var k := KeyAt(0, h, d, p);
    KeyInRange(h, d, p);
    ghost var n := m.AddTo(k, 0);
    InsertGrows(nodes, 0, h, d, p, n);
    more := nodes[k := n];
  }

  // One level more.
  method AddLevel(m: WordFM, h: nat, d: nat, ghost nodes: seq<AvlNode>) returns (ghost more: seq<AvlNode>)
    requires m.Valid() && m.kCmp == ByPlace && |nodes| == MinSize(h) && m.tree == Grown(nodes, 0, h, d, 0)
    modifies m, Nodes(m.tree)
    ensures m.Valid() && |more| == MinSize(h) && m.tree == Grown(more, 0, h, d + 1, 0)
    ensures forall x :: x in Nodes(m.tree) ==> x in old(Nodes(m.tree)) || fresh(x)
  {
    hide MinSize, Grown, Order, Sorted, Balanced, Height, Distinct, Entries, Shows;
    more := nodes;
    for p := 0 to Width(h, d)
      invariant m.Valid() && |more| == MinSize(h) && m.tree == Grown(more, 0, h, d, p)
      invariant forall x :: x in Nodes(m.tree) ==> x in old(Nodes(m.tree)) || fresh(x)
    {
      more := AddNext(m, h, d, p, more);
    }
    NextLevel(more, 0, h, d);
  }

  /**
   Adds MinSize(h) keys, level by level. Iterating over the map then fills h slots, which for
   h = 33 and 9227464 keys is more than there are.
   */
  method AddLevels(h: nat) returns (m: WordFM)
    ensures fresh(m) && m.Valid() && |m.Contents()| == MinSize(h)
    ensures WellFramed(After(m.tree)) && Peak(After(m.tree)) == Need(m.tree) == h
  {
    hide MinSize, Grown, Order, Sorted, Balanced, Height, Distinct, Entries, Need, Peak, Shows;
    ByPlaceOrders();
    m := new WordFM(ByPlace);
    var unused := new AvlNode(0, 0);
    ghost var nodes: seq<AvlNode> := Repeated(unused, MinSize(h));
    NothingGrown(nodes, h);
    assert Nodes(m.tree) == {};
    for d := 0 to h
      invariant fresh(m) && m.Valid() && |nodes| == MinSize(h) && (forall x :: x in Nodes(m.tree) ==> fresh(x))
      invariant m.kCmp == ByPlace && m.tree == Grown(nodes, 0, h, d, 0)
    {
      nodes := AddLevel(m, h, d, nodes);
    }
    AllLevels(nodes, 0, h, h);
    SparseEntries(nodes, 0, h);
    SparseShape(nodes, 0, h);
    PeakIsNeed(m.tree);
  }

  function Repeated(n: AvlNode, k: nat): (r: seq<AvlNode>)
    ensures |r| == k
  {
    seq(k, _ => n)
  }

  lemma NothingGrown(nodes: seq<AvlNode>, h: nat)
    requires MinSize(h) <= |nodes|
    ensures Grown(nodes, 0, h, 0, 0) == Leaf
  {
  }

  lemma KeyInRange(h: nat, d: nat, p: nat)
    requires p < Width(h, d)
    ensures KeyAt(0, h, d, p) < MinSize(h)
  {
  }
}
