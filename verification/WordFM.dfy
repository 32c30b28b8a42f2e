/**
 The finite map of cg_merge: a balanced tree of nodes and an iterator that keeps its own
 stack of at most 32 nodes.
 */
module WordFMs {
  import opened Common
  import opened Bindings
  import opened AvlTrees
  import opened AvlMaps
  import opened AvlHeap
  import opened AvlRemovals

  const WFM_STKMAX := 32

  // --- the smallest tree of a height ---

  function Count(t: Tree): nat {
    if t.Leaf? then 0 else 1 + Count(t.left) + Count(t.right)
  }

  function MinSize(h: nat): nat {
    if h == 0 then 0 else if h == 1 then 1 else 1 + MinSize(h - 1) + MinSize(h - 2)
  }

  lemma {:induction false} MinSizeGrows(h: nat, j: nat)
    requires h <= j
    ensures MinSize(h) <= MinSize(j)
    decreases j - h
  {
    if h < j {
      MinSizeGrows(h + 1, j);
    }
  }

  lemma {:induction false} HeightNeedsSize(t: Tree)
    requires Balanced(t)
    ensures Count(t) >= MinSize(Height(t))
  {
    if t.Node? {
      HeightNeedsSize(t.left);
      HeightNeedsSize(t.right);
      var h := Height(t);
      if h >= 2 {
        MinSizeGrows(h - 2, Height(t.left));
        MinSizeGrows(h - 2, Height(t.right));
      }
    }
  }

  // The Fibonacci numbers up to the first that does not fit the stack.
  lemma {:induction false} MinSize33()
    ensures MinSize(33) == 9227464
  {
    assert MinSize(3) == 4 && MinSize(4) == 7;
    assert MinSize(5) == 12 && MinSize(6) == 20;
    assert MinSize(7) == 33 && MinSize(8) == 54;
    assert MinSize(9) == 88 && MinSize(10) == 143;
    assert MinSize(11) == 232 && MinSize(12) == 376;
    assert MinSize(13) == 609 && MinSize(14) == 986;
    assert MinSize(15) == 1596 && MinSize(16) == 2583;
    assert MinSize(17) == 4180 && MinSize(18) == 6764;
    assert MinSize(19) == 10945 && MinSize(20) == 17710;
    assert MinSize(21) == 28656 && MinSize(22) == 46367;
    assert MinSize(23) == 75024 && MinSize(24) == 121392;
    assert MinSize(25) == 196417 && MinSize(26) == 317810;
    assert MinSize(27) == 514228 && MinSize(28) == 832039;
    assert MinSize(29) == 1346268 && MinSize(30) == 2178308;
    assert MinSize(31) == 3524577 && MinSize(32) == 5702886;
  }

  lemma {:induction false} CountIsLength(t: Tree)
    ensures Count(t) == |Entries(t)|
  {
    if t.Node? {
      CountIsLength(t.left);
      CountIsLength(t.right);
    }
  }

  // --- what the iterator has still to yield ---

  datatype Frame = Frame(tree: Tree, num: int)

  ghost function Pending(f: Frame): seq<Binding> {
    if f.tree.Leaf? then []
    else if f.num == 1 then Entries(f.tree)
    else if f.num == 2 then [(f.tree.key, f.tree.val)] + Entries(f.tree.right)
    else Entries(f.tree.right)
  }

  ghost function Rest(frames: seq<Frame>): seq<Binding> {
    if |frames| == 0 then [] else Pending(frames[|frames| - 1]) + Rest(frames[..|frames| - 1])
  }

  ghost function Visits(t: Tree): nat {
    if t.Leaf? then 0 else 3 + Visits(t.left) + Visits(t.right)
  }

  ghost function Work(frames: seq<Frame>): nat {
    if |frames| == 0 then 0
    else
      var f := frames[|frames| - 1];
      (if f.tree.Leaf? then 0
       else if f.num == 1 then Visits(f.tree)
       else if f.num == 2 then 2 + Visits(f.tree.right)
       else 1 + Visits(f.tree.right)) + Work(frames[..|frames| - 1])
  }

  lemma Pushed(fs: seq<Frame>, f: Frame)
    ensures Rest(fs + [f]) == Pending(f) + Rest(fs) && Work(fs + [f]) == Work([f]) + Work(fs)
  {
    assert (fs + [f])[..|fs|] == fs && [f][..0] == [];
  }

  // The frames that take the place of a popped one, for each of its three visits.
  ghost function Before(t: Tree): seq<Frame>
    requires t.Node?
  {
    [Frame(t, 2)] + After(t.left)
  }

  ghost function After(t: Tree): seq<Frame> {
    if t.Leaf? then [] else [Frame(t, 1)]
  }

  lemma AfterPushed(fs: seq<Frame>, t: Tree)
    ensures Rest(fs + After(t)) == Entries(t) + Rest(fs) && Work(fs + After(t)) == Visits(t) + Work(fs)
  {
    if t.Node? {
      Pushed(fs, Frame(t, 1));
      Pushed([], Frame(t, 1));
    } else {
      assert fs + After(t) == fs;
    }
  }

  lemma FrameWork(f: Frame)
    requires f.tree.Node? && 1 <= f.num <= 3
    ensures Work([f]) == if f.num == 1 then Visits(f.tree)
                         else if f.num == 2 then 2 + Visits(f.tree.right)
                         else 1 + Visits(f.tree.right)
  {
    assert [f][..0] == [];
  }

  lemma FirstVisit(fs: seq<Frame>, t: Tree)
    requires t.Node?
    ensures Rest(fs + Before(t)) == Rest(fs + [Frame(t, 1)]) && Work(fs + Before(t)) < Work(fs + [Frame(t, 1)])
  {
    hide Rest, Work, Pending, Visits, Entries;
    FrameParts(t);
    var e, l, r, rest := (t.key, t.val), Entries(t.left), Entries(t.right), Rest(fs);
    assert fs + Before(t) == fs + [Frame(t, 2)] + After(t.left);
    AfterPushed(fs + [Frame(t, 2)], t.left);
    Pushed(fs, Frame(t, 2));
    Pushed(fs, Frame(t, 1));
    assert l + (([e] + r) + rest) == (l + [e] + r) + rest;
  }

  lemma FrameParts(t: Tree)
    requires t.Node?
    ensures Pending(Frame(t, 1)) == Entries(t.left) + [(t.key, t.val)] + Entries(t.right)
    ensures Pending(Frame(t, 2)) == [(t.key, t.val)] + Entries(t.right)
    ensures Work([Frame(t, 1)]) == 3 + Visits(t.left) + Visits(t.right) && Work([Frame(t, 2)]) == 2 + Visits(t.right)
  {
    FrameWork(Frame(t, 1));
    FrameWork(Frame(t, 2));
  }

  lemma SecondVisit(fs: seq<Frame>, t: Tree)
    requires t.Node?
    ensures Rest(fs + [Frame(t, 2)]) == [(t.key, t.val)] + Rest(fs + [Frame(t, 3)])
    ensures Work(fs + [Frame(t, 3)]) < Work(fs + [Frame(t, 2)])
  {
    hide Rest, Work;
    Pushed(fs, Frame(t, 2));
    Pushed(fs, Frame(t, 3));
    FrameWork(Frame(t, 2));
    FrameWork(Frame(t, 3));
    assert [(t.key, t.val)] + Entries(t.right) + Rest(fs) == [(t.key, t.val)] + (Entries(t.right) + Rest(fs));
  }

  lemma ThirdVisit(fs: seq<Frame>, t: Tree)
    requires t.Node?
    ensures Rest(fs + After(t.right)) == Rest(fs + [Frame(t, 3)]) && Work(fs + After(t.right)) < Work(fs + [Frame(t, 3)])
  {
    AfterPushed(fs, t.right);
    Pushed(fs, Frame(t, 3));
  }

  ghost predicate Sub(s: Tree, t: Tree) {
    s == t || (t.Node? && (Sub(s, t.left) || Sub(s, t.right)))
  }

  lemma {:induction false} SubShown(s: Tree, t: Tree, n: AvlNode?)
    requires Sub(s, t) && Shows(n, t) && s.Node?
    ensures Shows(s.node, s)
  {
    if s != t {
      if Sub(s, t.left) {
        SubShown(s, t.left, t.node.left);
      } else {
        SubShown(s, t.right, t.node.right);
      }
    }
  }

  lemma {:induction false} SubChild(s: Tree, t: Tree)
    requires Sub(s, t) && s.Node?
    ensures Sub(s.left, t) && Sub(s.right, t)
  {
    if s != t {
      if Sub(s, t.left) {
        SubChild(s, t.left);
      } else {
        SubChild(s, t.right);
      }
    } else {
      assert Sub(t.left, t.left) && Sub(t.right, t.right);
    }
  }

  ghost predicate WellFramed(frames: seq<Frame>) {
    forall i :: 0 <= i < |frames| ==> frames[i].tree.Node? && 1 <= frames[i].num <= 3
  }

  ghost predicate Stacked(frames: seq<Frame>, t: Tree) {
    WellFramed(frames) && forall i :: 0 <= i < |frames| ==> Sub(frames[i].tree, t)
  }

  // --- how many slots an iteration uses ---

  // One turn of the iterator: the top frame is popped, and makes place for its next visit
  // and the first visit of a subtree.
  ghost function Turn(frames: seq<Frame>): (r: seq<Frame>)
    requires |frames| > 0 && WellFramed(frames)
    ensures WellFramed(r)
  {
    var fs, f := frames[..|frames| - 1], frames[|frames| - 1];
    fs + (if f.num == 1 then Before(f.tree) else if f.num == 2 then [Frame(f.tree, 3)] else After(f.tree.right))
  }

  lemma TurnOf(fs: seq<Frame>, f: Frame)
    requires WellFramed(fs) && f.tree.Node? && 1 <= f.num <= 3
    ensures WellFramed(fs + [f])
    ensures Turn(fs + [f])
      == fs + (if f.num == 1 then Before(f.tree) else if f.num == 2 then [Frame(f.tree, 3)] else After(f.tree.right))
  {
    hide Before, After;
    assert (fs + [f])[..|fs|] == fs;
  }

  lemma TopFrame(frames: seq<Frame>)
    requires |frames| > 0 && WellFramed(frames)
    ensures var fs, f := frames[..|frames| - 1], frames[|frames| - 1];
      frames == fs + [f] && WellFramed(fs) && f.tree.Node? && 1 <= f.num <= 3
  {
  }

  lemma TurnAdvances(frames: seq<Frame>)
    requires |frames| > 0 && WellFramed(frames)
    ensures Work(Turn(frames)) < Work(frames)
    ensures var f := frames[|frames| - 1];
      Rest(frames) == (if f.num == 2 then [(f.tree.key, f.tree.val)] else []) + Rest(Turn(frames))
  {
    hide Work, Rest, Visits, Pending, Turn, Before, After, Entries, WellFramed;
    var fs, f := frames[..|frames| - 1], frames[|frames| - 1];
    TopFrame(frames);
    TurnOf(fs, f);
    assert f == Frame(f.tree, f.num);
    if f.num == 1 {
      FirstVisit(fs, f.tree);
    } else if f.num == 2 {
      SecondVisit(fs, f.tree);
    } else {
      ThirdVisit(fs, f.tree);
    }
  }

  // The largest stack on the way to the next binding, and on the way to the end.
  ghost function NextPeak(frames: seq<Frame>): nat
    requires WellFramed(frames)
    decreases Work(frames)
  {
    if |frames| == 0 then 0
    else if frames[|frames| - 1].num == 2 then |frames|
    else
      TurnAdvances(frames);
      Max(|frames|, NextPeak(Turn(frames)))
  }

  ghost function Peak(frames: seq<Frame>): nat
    requires WellFramed(frames)
    decreases Work(frames)
  {
    if |frames| == 0 then 0
    else
      TurnAdvances(frames);
      Max(|frames|, Peak(Turn(frames)))
  }

  lemma {:induction false} NextWithinPeak(frames: seq<Frame>)
    requires WellFramed(frames)
    ensures |frames| <= Peak(frames) && NextPeak(frames) <= Peak(frames)
    decreases Work(frames)
  {
    hide Work, Turn, WellFramed;
    if |frames| > 0 {
      TurnAdvances(frames);
      NextWithinPeak(Turn(frames));
    }
  }

  // The slots a tree needs: a node keeps its own while its left subtree is walked, and has
  // given it up when its right subtree is.
  ghost function Need(t: Tree): nat {
    if t.Leaf? then 0 else Max(1 + Need(t.left), Need(t.right))
  }

  lemma {:induction false} PeakOnTop(fs: seq<Frame>, t: Tree)
    requires WellFramed(fs)
    ensures WellFramed(fs + After(t))
    ensures Peak(fs + After(t)) == if t.Leaf? then Peak(fs) else Max(|fs| + Need(t), Peak(fs))
    decreases t
  {
    hide Work, Peak, Turn, WellFramed;
    if t.Leaf? {
      assert fs + After(t) == fs;
    } else {
      PeakTurn(fs, Frame(t, 1));
      PeakTurn(fs, Frame(t, 2));
      PeakTurn(fs, Frame(t, 3));
      PeakOnTop(fs + [Frame(t, 2)], t.left);
      PeakOnTop(fs, t.right);
      assert fs + Before(t) == fs + [Frame(t, 2)] + After(t.left);
      NextWithinPeak(fs);
    }
  }

  lemma PeakTurn(fs: seq<Frame>, f: Frame)
    requires WellFramed(fs) && f.tree.Node? && 1 <= f.num <= 3
    ensures WellFramed(fs + [f])
    ensures Peak(fs + [f]) == Max(|fs| + 1, Peak(Turn(fs + [f])))
    ensures Turn(fs + [f])
      == fs + (if f.num == 1 then Before(f.tree) else if f.num == 2 then [Frame(f.tree, 3)] else After(f.tree.right))
  {
    hide Work, Turn, Max;
    TurnOf(fs, f);
  }

  /** Iterating over a map to the end fills as many slots as its tree needs, and no more. */
  lemma PeakIsNeed(t: Tree)
    ensures WellFramed(After(t)) && Peak(After(t)) == Need(t)
  {
    PeakOnTop([], t);
    assert [] + After(t) == After(t);
  }

  lemma {:induction false} NeedWithinHeight(t: Tree)
    ensures Need(t) <= Height(t)
  {
    if t.Node? {
      NeedWithinHeight(t.left);
      NeedWithinHeight(t.right);
    }
  }

  /** The stack is deep enough for every map of fewer than 9227464 bindings. */
  lemma StackSuffices(t: Tree)
    requires Balanced(t) && |Entries(t)| < 9227464
    ensures Need(t) <= WFM_STKMAX
  {
    hide MinSize, Height, Balanced, Count, Entries, Need;
    HeightNeedsSize(t);
    CountIsLength(t);
    MinSize33();
    NeedWithinHeight(t);
    if Height(t) > 32 {
      MinSizeGrows(33, Height(t));
    }
  }

  // --- a map for which it is not ---

  // The sparsest tree of a height, every left subtree one higher than the right one. Its
  // nodes are those from place lo on, and their keys are their places.
  ghost function Sparse(nodes: seq<AvlNode>, lo: nat, h: nat): Tree
    requires lo + MinSize(h) <= |nodes|
    decreases h
  {
    if h == 0 then Leaf
    else if h == 1 then Node(nodes[lo], lo, 0, 0, Leaf, Leaf)
    else
      var m := lo + MinSize(h - 1);
      Node(nodes[m], m, 0, -1, Sparse(nodes, lo, h - 1), Sparse(nodes, m + 1, h - 2))
  }

  ghost function Among(nodes: seq<AvlNode>, lo: nat, hi: nat): set<AvlNode>
    requires lo <= hi <= |nodes|
  {
    set i | lo <= i < hi :: nodes[i]
  }

  function ByPlace(a: int, b: int): int {
    a - b
  }

  lemma {:induction false} SparseShape(nodes: seq<AvlNode>, lo: nat, h: nat)
    requires lo + MinSize(h) <= |nodes|
    ensures var t := Sparse(nodes, lo, h); Balanced(t) && Height(t) == Need(t) == h
    decreases h
  {
    if h >= 2 {
      SparseShape(nodes, lo, h - 1);
      SparseShape(nodes, lo + MinSize(h - 1) + 1, h - 2);
    }
  }

  lemma {:induction false} SparseEntries(nodes: seq<AvlNode>, lo: nat, h: nat)
    requires lo + MinSize(h) <= |nodes|
    ensures |Entries(Sparse(nodes, lo, h))| == MinSize(h)
    ensures forall i :: 0 <= i < MinSize(h) ==> Entries(Sparse(nodes, lo, h))[i].0 == lo + i
    decreases h
  {
    hide MinSize;
    MinSizeParts(h);
    if h >= 2 {
      var m := lo + MinSize(h - 1);
      SparseEntries(nodes, lo, h - 1);
      SparseEntries(nodes, m + 1, h - 2);
    }
  }

  lemma {:induction false} SparseNodes(nodes: seq<AvlNode>, lo: nat, h: nat)
    requires lo + MinSize(h) <= |nodes|
    requires forall i, j :: 0 <= i < j < |nodes| ==> nodes[i] != nodes[j]
    ensures Nodes(Sparse(nodes, lo, h)) == Among(nodes, lo, lo + MinSize(h))
    ensures Distinct(Sparse(nodes, lo, h))
    decreases h
  {
    hide Among, MinSize;
    MinSizeParts(h);
    if h == 1 {
      AmongSplit(nodes, lo, lo, lo + 1);
    }
    AmongNone(nodes, lo);
    if h >= 2 {
      var m := lo + MinSize(h - 1);
      SparseNodes(nodes, lo, h - 1);
      SparseNodes(nodes, m + 1, h - 2);
      AmongSplit(nodes, lo, m, lo + MinSize(h));
    }
  }

  lemma MinSizeParts(h: nat)
    ensures MinSize(h) == if h == 0 then 0 else if h == 1 then 1 else 1 + MinSize(h - 1) + MinSize(h - 2)
  {
  }

  lemma AmongNone(nodes: seq<AvlNode>, lo: nat)
    ensures forall i :: lo <= i <= |nodes| ==> Among(nodes, i, i) == {}
  {
  }

  lemma AmongSplit(nodes: seq<AvlNode>, lo: nat, m: nat, hi: nat)
    requires lo <= m < hi <= |nodes|
    requires forall i, j :: 0 <= i < j < |nodes| ==> nodes[i] != nodes[j]
    ensures Among(nodes, lo, hi) == {nodes[m]} + Among(nodes, lo, m) + Among(nodes, m + 1, hi)
    ensures nodes[m] !in Among(nodes, lo, m) && nodes[m] !in Among(nodes, m + 1, hi)
    ensures Among(nodes, lo, m) !! Among(nodes, m + 1, hi)
  {
  }

  /** The bound is sharp: an ordered map of MinSize(h) bindings, all on nodes of their own, whose
      iteration fills h slots. At h = 33 that is one more than there are, for 9227464 bindings. */
  lemma SparseNeedsAll(nodes: seq<AvlNode>, h: nat)
    requires |nodes| == MinSize(h) && forall i, j :: 0 <= i < j < |nodes| ==> nodes[i] != nodes[j]
    ensures var t := Sparse(nodes, 0, h);
      && Distinct(t) && Ordered(ByPlace, t) && |Entries(t)| == MinSize(h)
      && WellFramed(After(t)) && Peak(After(t)) == h
    ensures h == 33 ==> |nodes| == 9227464 && Peak(After(Sparse(nodes, 0, h))) > WFM_STKMAX
  {
    hide Peak, Need, Balanced, Height, Distinct, Entries, MinSize, Nodes, Sparse;
    SparseShape(nodes, 0, h);
    SparseEntries(nodes, 0, h);
    SparseNodes(nodes, 0, h);
    PeakIsNeed(Sparse(nodes, 0, h));
    MinSize33();
  }

  // --- the map ---

  class WordFM {
    var root: AvlNode?
    const kCmp: KeyCmp
    const nodeStack: array<AvlNode?>
    const numStack: array<int>
    var stackTop: int
    ghost var tree: Tree
    ghost var frames: seq<Frame>

    ghost predicate Valid()
      reads this, Nodes(tree)
    {
      && Distinct(tree) && Shows(root, tree) && Ordered(kCmp, tree)
      && nodeStack.Length == WFM_STKMAX && numStack.Length == WFM_STKMAX
    }

    // The map's bindings in key order.
    ghost function Contents(): seq<Binding>
      reads this
    {
      Entries(tree)
    }

    ghost predicate Iterating()
      reads this, nodeStack, numStack
    {
      && nodeStack.Length == WFM_STKMAX && numStack.Length == WFM_STKMAX
      && 0 <= stackTop == |frames| <= WFM_STKMAX && Stacked(frames, tree)
      && forall i :: 0 <= i < stackTop ==> nodeStack[i] == frames[i].tree.node && numStack[i] == frames[i].num
    }

    constructor (kCmp: KeyCmp)
      requires Order(kCmp)
      ensures Valid() && tree == Leaf && Contents() == [] && fresh(nodeStack) && fresh(numStack) && this.kCmp == kCmp && stackTop == 0
    {
      root, this.kCmp, stackTop := null, kCmp, 0;
      nodeStack := new AvlNode?[WFM_STKMAX](_ => null);
      numStack := new int[WFM_STKMAX](_ => 0);
      tree, frames := Leaf, [];
    }

    // avl_find_node
    method FindNode(k: int) returns (n: AvlNode?)
      requires Valid()
      ensures n == null <==> Get(kCmp, Contents(), k) == None
      ensures n != null ==> n in Nodes(tree) && kCmp(n.key, k) == 0 && Get(kCmp, Contents(), k) == Some(n.val)
    {
      n := root;
      ghost var t := tree;
      FindIsGet(kCmp, tree, k);
      while n != null
        invariant Shows(n, t) && Nodes(t) <= Nodes(tree) && Find(kCmp, t, k) == Find(kCmp, tree, k)
        decreases t
      {
        var c := kCmp(n.key, k);
        if c > 0 {
          n, t := n.left, t.left;
        } else if c < 0 {
          n, t := n.right, t.right;
        } else {
          return;
        }
      }
    }

    /**
     addToFM: binds k to v. An equal key that is bound already stays, with the new value. The tree
     is the one that the insertion of some new node makes.
     */
    method AddTo(k: int, v: int) returns (ghost added: AvlNode)
      requires Valid()
      modifies this, Nodes(tree)
      ensures Valid() && fresh(Nodes(tree) - old(Nodes(tree)))
      ensures Contents() == Put(kCmp, old(Contents()), k, v)
      ensures fresh(added) && tree == Insert(kCmp, old(tree), added, k, v).tree
      ensures stackTop == old(stackTop)
    {
      hide Insert, Balanced, Height, Order, Sorted, Put, Get, Entries, Distinct, Remove;
      NodesAllocated(tree);
      var node := new AvlNode(k, v);
      InsertIsPut(kCmp, tree, node, k, v);
      OrderedKept(kCmp, tree, node, k, v);
      ghost var i := Insert(kCmp, tree, node, k, v);
      var grew, oldV;
      root, grew, oldV := InsertAt(kCmp, root, node, tree);
      tree, added := i.tree, node;
    }

    /** delFromFM: unbinds the key, and returns the value it was bound to. */
    method DelFrom(key: int) returns (oldV: Option<int>)
      requires Valid()
      modifies this, Nodes(tree)
      ensures Valid() && Nodes(tree) <= old(Nodes(tree))
      ensures oldV == Get(kCmp, old(Contents()), key)
      ensures Contents() == Del(kCmp, old(Contents()), key)
      ensures stackTop == old(stackTop)
    {
      hide Remove, Balanced, Height, Order, Sorted, Del, Get, Entries, Distinct, Insert;
      NodesAllocated(tree);
      var node := FindNode(key);
      if node != null {
        SameDel(kCmp, Contents(), node.key, key);
        RemoveIsDel(kCmp, tree, node.key);
        OrderedKept(kCmp, tree, node, node.key, 0);
        ghost var d := Remove(kCmp, tree, node.key);
        var shrank;
        root, shrank := RemoveAt(kCmp, root, node, tree);
        tree := d.tree;
        oldV := Some(node.val);
      } else {
        NoneDel(kCmp, Contents(), key);
        oldV := None;
      }
    }

    /** lookupFM */
    method Lookup(key: int) returns (val: Option<int>)
      requires Valid()
      ensures val == Get(kCmp, Contents(), key)
    {
      var node := FindNode(key);
      val := if node != null then Some(node.val) else None;
    }

    static method SizeAt(nd: AvlNode?, ghost t: Tree) returns (n: nat)
      requires Shows(nd, t)
      ensures n == |Entries(t)|
      decreases t
    {
      if nd == null {
        return 0;
      }
      NodesAllocated(t.right);
      var l := SizeAt(nd.left, t.left);
      var r := SizeAt(nd.right, t.right);
      n := 1 + l + r;
    }

    /** sizeFM */
    method Size() returns (n: nat)
      requires Valid()
      ensures n == |Contents()|
    {
      n := SizeAt(root, tree);
    }

    // --- iteration ---

    method StackClear()
      requires Valid()
      modifies this`stackTop, this`frames, nodeStack, numStack
      ensures Valid() && Iterating() && frames == []
    {
      for i := 0 to WFM_STKMAX
        invariant Valid()
      {
        nodeStack[i] := null;
        numStack[i] := 0;
      }
      stackTop, frames := 0, [];
    }

    method StackPush(n: AvlNode, i: int, ghost t: Tree)
      requires Valid() && Iterating() && stackTop < WFM_STKMAX && 1 <= i <= 3
      requires t.Node? && t.node == n && Sub(t, tree)
      modifies this`stackTop, this`frames, nodeStack, numStack
      ensures Valid() && Iterating() && frames == old(frames) + [Frame(t, i)]
    {
      hide Order, Sorted, Balanced, Entries, Sub;
      nodeStack[stackTop] := n;
      numStack[stackTop] := i;
      stackTop := stackTop + 1;
      frames := frames + [Frame(t, i)];
    }

    method StackPop() returns (ok: bool, n: AvlNode?, i: int)
      requires Valid() && Iterating()
      modifies this`stackTop, this`frames, nodeStack, numStack
      ensures Valid() && Iterating() && ok == (old(stackTop) > 0)
      ensures ok ==> frames == old(frames[..stackTop - 1])
      ensures ok ==> n == old(frames[stackTop - 1].tree.node) && i == old(frames[stackTop - 1].num)
      ensures !ok ==> frames == [] == old(frames)
    {
      if stackTop > 0 {
        stackTop := stackTop - 1;
        n := nodeStack[stackTop];
        i := numStack[stackTop];
        nodeStack[stackTop] := null;
        numStack[stackTop] := 0;
        frames := frames[..stackTop];
        ok := true;
      } else {
        ok, n, i := false, null, 0;
      }
    }

    /** initIterFM: everything is still to come. */
    method InitIter()
      requires Valid()
      modifies this`stackTop, this`frames, nodeStack, numStack
      ensures Valid() && Iterating() && Rest(frames) == Contents() && frames == After(tree)
    {
      StackClear();
      if root != null {
        StackPush(root, 1, tree);
      }
    }

    // One turn of nextIterFM: a node is popped and pushed back for its next visit. Only the
    // second visit yields its binding.
    method Visit() returns (found: bool, key: int, val: int)
      requires Valid() && Iterating() && stackTop > 0 && |Turn(frames)| <= WFM_STKMAX
      modifies this`stackTop, this`frames, nodeStack, numStack
      ensures Valid() && Iterating() && frames == Turn(old(frames))
      ensures var f := old(frames)[old(stackTop) - 1]; found == (f.num == 2) && (found ==> (key, val) == (f.tree.key, f.tree.val))
    {
      hide Rest, Work, Pending, Visits, Entries, Order, Sorted, Balanced, Distinct, Sub;
      ghost var before := frames;
      var _, n, i := StackPop();
      ghost var fs, t := frames, before[|before| - 1].tree;
      assert before == fs + [Frame(t, i)];
      SubShown(t, tree, root);
      SubChild(t, tree);
      found, key, val := false, 0, 0;
      if i == 1 {
        StackPush(n, 2, t);
        if n.left != null {
          StackPush(n.left, 1, t.left);
        }
        assert frames == fs + Before(t);
      } else if i == 2 {
        StackPush(n, 3, t);
        found, key, val := true, n.key, n.val;
      } else {
        if n.right != null {
          StackPush(n.right, 1, t.right);
        }
        assert frames == fs + After(t.right);
      }
    }

    /** nextIterFM: yields the first of the bindings still to come. */
    method NextIter() returns (ok: bool, key: int, val: int)
      requires Valid() && Iterating() && NextPeak(frames) <= WFM_STKMAX
      modifies this`stackTop, this`frames, nodeStack, numStack
      ensures Valid() && Iterating()
      ensures ok == (old(Rest(frames)) != [])
      ensures ok ==> old(Rest(frames)) == [(key, val)] + Rest(frames)
      ensures !ok ==> stackTop == 0
      ensures Peak(frames) <= old(Peak(frames))
    {
      hide Work, Pending, Entries, Order, Sorted, Balanced, Distinct, Turn;
      ok, key, val := false, 0, 0;
      while !ok && stackTop > 0
        invariant Valid() && Iterating() && Peak(frames) <= old(Peak(frames))
        invariant !ok ==> Rest(frames) == old(Rest(frames)) && NextPeak(frames) <= WFM_STKMAX
        invariant ok ==> old(Rest(frames)) == [(key, val)] + Rest(frames)
        decreases !ok, Work(frames)
      {
        TurnAdvances(frames);
        TurnFits(frames);
        ok, key, val := Visit();
      }
    }

    /** Iterating to the end yields every binding once, in increasing key order. */
    method Elements() returns (es: seq<Binding>)
      requires Valid() && Need(tree) <= WFM_STKMAX
      modifies this`stackTop, this`frames, nodeStack, numStack
      ensures Valid() && es == Contents() && stackTop == 0
    {
      hide Need, Peak, NextPeak, Order, Sorted, Balanced, Distinct, Entries, Rest;
      InitIter();
      PeakIsNeed(tree);
      es := [];
      NextWithinPeak(frames);
      var ok, key, val := NextIter();
      while ok
        invariant Valid() && Iterating() && (!ok ==> stackTop == 0) && Peak(frames) <= WFM_STKMAX
        invariant Contents() == es + (if ok then [(key, val)] + Rest(frames) else [])
        decreases ok, |Rest(frames)|
      {
        es := es + [(key, val)];
        NextWithinPeak(frames);
        ok, key, val := NextIter();
      }
    }
  }

  // A turn on the way to the next binding fits if the whole way does.
  lemma TurnFits(frames: seq<Frame>)
    requires |frames| > 0 && WellFramed(frames)
    ensures |Turn(frames)| <= NextPeak(frames) && Peak(Turn(frames)) <= Peak(frames)
    ensures frames[|frames| - 1].num != 2 ==> NextPeak(Turn(frames)) <= NextPeak(frames)
  {
    hide Work;
    if frames[|frames| - 1].num != 2 { NextAtLeast(Turn(frames)); }
  }

  lemma NextAtLeast(frames: seq<Frame>)
    requires WellFramed(frames)
    ensures |frames| <= NextPeak(frames)
  {
  }

  // Equal keys are deleted alike.
  lemma {:induction false} SameDel(cmp: KeyCmp, es: seq<Binding>, j: int, k: int)
    requires Order(cmp) && cmp(j, k) == 0
    ensures Del(cmp, es, j) == Del(cmp, es, k)
  {
    if |es| > 0 {
      Flip(cmp, j, k);
      Congruent(cmp, j, k, es[0].0);
      Flip(cmp, j, es[0].0);
      Flip(cmp, k, es[0].0);
      SameDel(cmp, es[1..], j, k);
    }
  }

  lemma {:induction false} NoneDel(cmp: KeyCmp, es: seq<Binding>, k: int)
    requires Get(cmp, es, k) == None
    ensures Del(cmp, es, k) == es
  {
    if |es| > 0 {
      NoneDel(cmp, es[1..], k);
    }
  }
}
