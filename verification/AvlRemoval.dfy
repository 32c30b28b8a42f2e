/**
 Removal from the trees of WordFM in place. avl_remove_wrk and avl_removeroot_wrk call each
 other: a node with two subtrees is replaced by its neighbour, which is removed first.
 */
module AvlRemovals {
  import opened Bindings
  import opened AvlTrees
  import opened AvlMaps
  import opened AvlHeap

  // --- where a node is ---

  lemma {:induction false} NodeEntry(n: AvlNode?, t: Tree, a: AvlNode)
    requires Shows(n, t) && a in Nodes(t)
    ensures (a.key, a.val) in Entries(t)
  {
    if a == t.node {
    } else if a in Nodes(t.left) {
      NodeEntry(t.node.left, t.left, a);
    } else {
      NodeEntry(t.node.right, t.right, a);
    }
  }

  // The comparison with the key of the root tells the subtree of a node.
  lemma Side(cmp: KeyCmp, root: AvlNode?, t: Tree, a: AvlNode)
    requires Ordered(cmp, t) && Shows(root, t) && a in Nodes(t)
    ensures cmp(t.key, a.key) > 0 ==> a in Nodes(t.left)
    ensures cmp(t.key, a.key) < 0 ==> a in Nodes(t.right)
    ensures cmp(t.key, a.key) == 0 ==> a == t.node
    ensures Distinct(t) && a in Nodes(t.left) ==> cmp(t.key, a.key) > 0
    ensures Distinct(t) && a in Nodes(t.right) ==> cmp(t.key, a.key) < 0
  {
    var l, e, r := Entries(t.left), (t.key, t.val), Entries(t.right);
    var s := l + [e] + r;
    assert s == Entries(t) && s[|l|] == e;
    if a in Nodes(t.left) {
      NodeEntry(t.node.left, t.left, a);
      var i :| 0 <= i < |l| && l[i] == (a.key, a.val);
      assert s[i] == l[i] && cmp(s[i].0, s[|l|].0) < 0;
      Flip(cmp, s[i].0, s[|l|].0);
    } else if a in Nodes(t.right) {
      NodeEntry(t.node.right, t.right, a);
      var i :| 0 <= i < |r| && r[i] == (a.key, a.val);
      assert s[|l| + 1 + i] == r[i] && cmp(s[|l|].0, s[|l| + 1 + i].0) < 0;
    } else {
      Reflexive(cmp, t.key);
    }
  }

  // --- putting the balance right ---

  // The subtree sub of t, beside other, has been made d by a removal.
  ghost predicate Removing(t: Tree, sub: Tree, other: Tree, d: Removed) {
    && t.Node? && Balanced(t) && Balanced(d.tree)
    && Height(d.tree) == Height(sub) - (if d.shrank then 1 else 0)
    && Apart(t.node, d.tree, other)
  }

  lemma LeftShrunk(t: Tree, d: Removed)
    requires t.Node? && Removing(t, t.left, t.right, d) && d.shrank && t.balance == 1
    ensures var n := t.(left := d.tree, balance := 2);
      && RightHeavy(n) && AfterLeftRemove(t, d) == Removed(FixRight(n), t.right.balance != 0)
      && Distinct(n) && Nodes(n) == {t.node} + Nodes(d.tree) + Nodes(t.right)
  {
  }

  lemma RightShrunk(t: Tree, d: Removed)
    requires t.Node? && Removing(t, t.right, t.left, d) && d.shrank && t.balance == -1
    ensures var n := t.(right := d.tree, balance := -2);
      && LeftHeavy(n) && AfterRightRemove(t, d) == Removed(FixLeft(n), t.left.balance != 0)
      && Distinct(n) && Nodes(n) == {t.node} + Nodes(t.left) + Nodes(d.tree)
  {
  }

  method LeftRemovedAt(root: AvlNode, ghost t: Tree, ghost d: Removed) returns (r: AvlNode, shrank: bool)
    requires t.Node? && Removing(t, t.left, t.right, d) && d.shrank && Shows(root, t.(left := d.tree))
    modifies {t.node} + Nodes(d.tree) + Nodes(t.right)
    ensures var u := AfterLeftRemove(t, d);
      && Distinct(u.tree) && Shows(r, u.tree) && shrank == u.shrank
      && Nodes(u.tree) == {t.node} + Nodes(d.tree) + Nodes(t.right)
  {
    hide FixRight, RightHeavy, Height;
    r := root;
    var b := root.balance;
    root.balance := b + 1;
    if b == -1 {
      shrank := true;
    } else if b == 0 {
      shrank := false;
    } else {
      LeftShrunk(t, d);
      assert t.right.Node? by { RightHeavyNode(t.(left := d.tree, balance := 2)); }
      shrank := root.right.balance != 0;
      r := FixRightAt(root, t.(left := d.tree, balance := 2));
    }
  }

  method RightRemovedAt(root: AvlNode, ghost t: Tree, ghost d: Removed) returns (r: AvlNode, shrank: bool)
    requires t.Node? && Removing(t, t.right, t.left, d) && d.shrank && Shows(root, t.(right := d.tree))
    modifies {t.node} + Nodes(d.tree) + Nodes(t.left)
    ensures var u := AfterRightRemove(t, d);
      && Distinct(u.tree) && Shows(r, u.tree) && shrank == u.shrank
      && Nodes(u.tree) == {t.node} + Nodes(d.tree) + Nodes(t.left)
  {
    hide FixLeft, LeftHeavy, Height;
    r := root;
    var b := root.balance;
    root.balance := b - 1;
    if b == 1 {
      shrank := true;
    } else if b == 0 {
      shrank := false;
    } else {
      RightShrunk(t, d);
      assert t.left.Node? by { LeftHeavyNode(t.(right := d.tree, balance := -2)); }
      shrank := root.left.balance != 0;
      r := FixLeftAt(root, t.(right := d.tree, balance := -2));
    }
  }

  lemma LeftHeavyNode(t: Tree)
    requires LeftHeavy(t)
    ensures t.left.Node?
  {
  }

  lemma RightHeavyNode(t: Tree)
    requires RightHeavy(t)
    ensures t.right.Node?
  {
  }

  lemma Unshrunk(t: Tree, d: Removed)
    requires t.Node? && Balanced(t) && Balanced(d.tree) && !d.shrank
    ensures Height(d.tree) == Height(t.left) ==> AfterLeftRemove(t, d) == Removed(t.(left := d.tree), false)
    ensures Height(d.tree) == Height(t.right) ==> AfterRightRemove(t, d) == Removed(t.(right := d.tree), false)
  {
  }

  // --- removal ---

  ghost predicate RemovedAt(r: AvlNode?, shrank: bool, a: AvlNode, t: Tree, d: Removed)
    reads Nodes(d.tree)
  {
    && Distinct(d.tree) && Shows(r, d.tree) && shrank == d.shrank
    && Nodes(d.tree) == Nodes(t) - {a}
  }

  method RemoveLeftAt(cmp: KeyCmp, root: AvlNode, a: AvlNode, ghost t: Tree) returns (r: AvlNode, shrank: bool)
    requires Ordered(cmp, t) && Distinct(t) && Shows(root, t) && a in Nodes(t) && cmp(root.key, a.key) > 0
    modifies Nodes(t)
    ensures a.key == old(a.key) && a.val == old(a.val)
    ensures RemovedAt(r, shrank, a, t, AfterLeftRemove(t, Remove(cmp, t.left, a.key)))
    decreases t, 0, 0
  {
    hide FixLeft, FixRight, LeftHeavy, RightHeavy, AfterLeftRemove, AfterRightRemove, RemoveRoot, Order, Sorted, Entries;
    NodesAllocated(t);
    OrderedParts(cmp, t);
    Side(cmp, root, t, a);
    ghost var d := Remove(cmp, t.left, a.key);
    r := root;
    root.left, shrank := RemoveAt(cmp, root.left, a, t.left);
    assert Shows(root, t.(left := d.tree));
    assert {t.node} + Nodes(d.tree) + Nodes(t.right) == Nodes(t) - {a};
    if shrank {
      r, shrank := LeftRemovedAt(root, t, d);
    } else {
      Unshrunk(t, d);
    }
  }

  method RemoveRightAt(cmp: KeyCmp, root: AvlNode, a: AvlNode, ghost t: Tree) returns (r: AvlNode, shrank: bool)
    requires Ordered(cmp, t) && Distinct(t) && Shows(root, t) && a in Nodes(t) && cmp(root.key, a.key) < 0
    modifies Nodes(t)
    ensures a.key == old(a.key) && a.val == old(a.val)
    ensures RemovedAt(r, shrank, a, t, AfterRightRemove(t, Remove(cmp, t.right, a.key)))
    decreases t, 0, 0
  {
    hide FixLeft, FixRight, LeftHeavy, RightHeavy, AfterLeftRemove, AfterRightRemove, RemoveRoot, Order, Sorted, Entries;
    NodesAllocated(t);
    OrderedParts(cmp, t);
    Side(cmp, root, t, a);
    ghost var d := Remove(cmp, t.right, a.key);
    r := root;
    root.right, shrank := RemoveAt(cmp, root.right, a, t.right);
    assert Shows(root, t.(right := d.tree));
    assert {t.node} + Nodes(d.tree) + Nodes(t.left) == Nodes(t) - {a};
    if shrank {
      r, shrank := RightRemovedAt(root, t, d);
    } else {
      Unshrunk(t, d);
    }
  }

  /** avl_remove_wrk: the node a, which must be in the tree, is taken out of it. */
  method RemoveAt(cmp: KeyCmp, root: AvlNode, a: AvlNode, ghost t: Tree) returns (r: AvlNode?, shrank: bool)
    requires Ordered(cmp, t) && Distinct(t) && Shows(root, t) && a in Nodes(t)
    modifies Nodes(t)
    ensures a.key == old(a.key) && a.val == old(a.val)
    ensures RemovedAt(r, shrank, a, t, Remove(cmp, t, a.key))
    decreases t, if a == t.node then 2 else 0, 1
  {
    hide FixLeft, FixRight, LeftHeavy, RightHeavy, AfterLeftRemove, AfterRightRemove, RemoveRoot, Order, Sorted, Entries;
    var c := cmp(root.key, a.key);
    if c > 0 {
      r, shrank := RemoveLeftAt(cmp, root, a, t);
    } else if c < 0 {
      r, shrank := RemoveRightAt(cmp, root, a, t);
    } else {
      Side(cmp, root, t, a);
      assert root == a;
      r, shrank := RemoveRootAt(cmp, root, t);
    }
  }

  lemma RemoveEnd(cmp: KeyCmp, t: Tree, a: Tree)
    requires Ordered(cmp, t) && t.Node? && t.left.Node? && t.right.Node?
    requires a == if t.balance < 0 then Last(t.left) else First(t.right)
    ensures var r := Remove(cmp, t, a.key);
      && RemoveRoot(cmp, t) == Removed(r.tree.(node := a.node, key := a.key, val := a.val), r.shrank)
      && r.tree.Node? && r.tree.node == t.node && r.tree.key == t.key && r.tree.val == t.val
      && (r.tree.balance != 0 ==> !r.shrank)
      && cmp(t.key, a.key) != 0
  {
    var l, e, r := Entries(t.left), (t.key, t.val), Entries(t.right);
    var s := l + [e] + r;
    assert s == Entries(t) && s[|l|] == e;
    if t.balance < 0 {
      LastEntry(t.left);
      assert s[|l| - 1] == l[|l| - 1] && cmp(s[|l| - 1].0, s[|l|].0) < 0;
      Flip(cmp, a.key, t.key);
      RootStays(t, Remove(cmp, t.left, a.key));
    } else {
      FirstEntry(t.right);
      assert s[|l| + 1] == r[0] && cmp(s[|l|].0, s[|l| + 1].0) < 0;
      RootStays(t, Remove(cmp, t.right, a.key));
    }
  }

  // The last node before the root, or the first one after it, whichever side is higher.
  method Neighbour(root: AvlNode, ghost t: Tree) returns (a: AvlNode, ghost s: Tree)
    requires Shows(root, t) && t.Node? && t.left.Node? && t.right.Node?
    ensures s == (if t.balance < 0 then Last(t.left) else First(t.right))
    ensures a == s.node && a.key == s.key && a.val == s.val
    ensures a in Nodes(t.left) + Nodes(t.right)
  {
    if root.balance < 0 {
      a, s := root.left, t.left;
      while a.right != null
        invariant s.Node? && Shows(a, s) && Last(s) == Last(t.left) && Nodes(s) <= Nodes(t.left)
        decreases s
      {
        a, s := a.right, s.right;
      }
    } else {
      a, s := root.right, t.right;
      while a.left != null
        invariant s.Node? && Shows(a, s) && First(s) == First(t.right) && Nodes(s) <= Nodes(t.right)
        decreases s
      {
        a, s := a.left, s.left;
      }
    }
  }

  // The node a is put in the place of the root of t.
  method TakePlace(root: AvlNode, a: AvlNode, ghost t: Tree)
    requires t.Node? && Distinct(t) && Shows(root, t) && a !in Nodes(t)
    modifies a`left, a`right, a`balance
    ensures var u := t.(node := a, key := a.key, val := a.val);
      Distinct(u) && Shows(a, u) && Nodes(u) == Nodes(t) - {root} + {a}
  {
    a.left, a.right, a.balance := root.left, root.right, root.balance;
  }

  /** avl_removeroot_wrk: the root is taken out. */
  method RemoveRootAt(cmp: KeyCmp, root: AvlNode, ghost t: Tree) returns (r: AvlNode?, shrank: bool)
    requires Ordered(cmp, t) && Distinct(t) && Shows(root, t)
    modifies Nodes(t)
    ensures root.key == old(root.key) && root.val == old(root.val)
    ensures RemovedAt(r, shrank, root, t, RemoveRoot(cmp, t))
    decreases t, 1
  {
    hide FixLeft, FixRight, LeftHeavy, RightHeavy, AfterLeftRemove, AfterRightRemove, Remove, Order, Sorted, Balanced, First, Last, Entries, Height;
    NodesAllocated(t);
    if root.left == null {
      if root.right == null {
        return null, true;
      }
      return root.right, true;
    }
    if root.right == null {
      return root.left, true;
    }
    var a, s := Neighbour(root, t);
    RemoveEnd(cmp, t, s);
    var r0, ch := RemoveAt(cmp, root, a, t);
    TakePlace(r0, a, Remove(cmp, t, a.key).tree);
    r, shrank := a, a.balance == 0 && ch;
  }
}
