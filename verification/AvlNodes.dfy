/**
 The trees of WordFM in memory: nodes rotated, inserted and removed in place. Each method
 is given the tree that the nodes show and leaves them showing the tree that the same
 operation on values makes.
 */
module AvlHeap {
  import opened Common
  import opened AvlTrees

  ghost function Nodes(t: Tree): set<AvlNode> {
    match t
    case Leaf => {}
    case Node(n, _, _, _, l, r) => {n} + Nodes(l) + Nodes(r)
  }

  ghost predicate Distinct(t: Tree) {
    match t
    case Leaf => true
    case Node(n, _, _, _, l, r) =>
      n !in Nodes(l) && n !in Nodes(r) && Nodes(l) !! Nodes(r) && Distinct(l) && Distinct(r)
  }

  // The nodes reachable from n hold exactly the tree t.
  ghost predicate Shows(n: AvlNode?, t: Tree)
    reads Nodes(t)
  {
    match t
    case Leaf => n == null
    case Node(m, k, v, b, l, r) =>
      n == m && m.key == k && m.val == v && m.balance == b && Shows(m.left, l) && Shows(m.right, r)
  }

  // The frame of a call protects allocated nodes only.
  lemma NodesAllocated(t: Tree)
    ensures forall x :: x in Nodes(t) ==> allocated(x)
  {
    if t.Node? {
      NodesAllocated(t.left);
      NodesAllocated(t.right);
    }
  }

  // --- rotations ---

  lemma SwingLeftNodes(t: Tree)
    requires t.Node? && t.right.Node? && Distinct(t)
    ensures Distinct(SwingLeft(t)) && Nodes(SwingLeft(t)) == Nodes(t)
  {
    var a := t.(right := t.right.left);
    assert Nodes(a) == {t.node} + Nodes(t.left) + Nodes(t.right.left);
    assert Distinct(a);
  }

  lemma SwingRightNodes(t: Tree)
    requires t.Node? && t.left.Node? && Distinct(t)
    ensures Distinct(SwingRight(t)) && Nodes(SwingRight(t)) == Nodes(t)
  {
    var a := t.(left := t.left.right);
    assert Nodes(a) == {t.node} + Nodes(t.left.right) + Nodes(t.right);
    assert Distinct(a);
  }

  method SwingLeftAt(a: AvlNode, ghost t: Tree) returns (b: AvlNode)
    requires t.Node? && t.right.Node? && Distinct(t) && Shows(a, t)
    modifies {t.node, t.right.node}
    ensures Distinct(SwingLeft(t)) && Nodes(SwingLeft(t)) == Nodes(t) && Shows(b, SwingLeft(t))
  {
    SwingLeftNodes(t);
    b := a.right;
    a.right := b.left;
    b.left := a;
  }

  method SwingRightAt(a: AvlNode, ghost t: Tree) returns (b: AvlNode)
    requires t.Node? && t.left.Node? && Distinct(t) && Shows(a, t)
    modifies {t.node, t.left.node}
    ensures Distinct(SwingRight(t)) && Nodes(SwingRight(t)) == Nodes(t) && Shows(b, SwingRight(t))
  {
    SwingRightNodes(t);
    b := a.left;
    a.left := b.right;
    b.right := a;
  }

  method NastyAt(a: AvlNode, ghost t: Tree)
    requires t.Node? && t.left.Node? && t.right.Node? && Distinct(t) && Shows(a, t)
    requires -1 <= t.balance <= 1
    modifies a`balance, t.left.node`balance, t.right.node`balance
    ensures Distinct(Nasty(t)) && Nodes(Nasty(t)) == Nodes(t) && Shows(a, Nasty(t))
  {
    if a.balance == -1 {
      a.left.balance := 0;
      a.right.balance := 1;
    } else if a.balance == 1 {
      a.left.balance := -1;
      a.right.balance := 0;
    } else {
      a.left.balance := 0;
      a.right.balance := 0;
    }
    a.balance := 0;
  }

  method SingleLeftAt(a: AvlNode, ghost t: Tree, rootBalance: int, leftBalance: int) returns (r: AvlNode)
    requires t.Node? && t.right.Node? && Distinct(t) && Shows(a, t)
    modifies {t.node, t.right.node}
    ensures var s := SwingLeft(t); var u := s.(balance := rootBalance, left := s.left.(balance := leftBalance));
      Distinct(u) && Nodes(u) == Nodes(t) && Shows(r, u)
  {
    r := SwingLeftAt(a, t);
    r.balance := rootBalance;
    r.left.balance := leftBalance;
  }

  method SingleRightAt(a: AvlNode, ghost t: Tree, rootBalance: int, rightBalance: int) returns (r: AvlNode)
    requires t.Node? && t.left.Node? && Distinct(t) && Shows(a, t)
    modifies {t.node, t.left.node}
    ensures var s := SwingRight(t); var u := s.(balance := rootBalance, right := s.right.(balance := rightBalance));
      Distinct(u) && Nodes(u) == Nodes(t) && Shows(r, u)
  {
    r := SwingRightAt(a, t);
    r.balance := rootBalance;
    r.right.balance := rightBalance;
  }

  method DoubleLeftAt(a: AvlNode, ghost t: Tree) returns (r: AvlNode)
    requires t.Node? && t.right.Node? && t.right.left.Node? && -1 <= t.right.left.balance <= 1
    requires Distinct(t) && Shows(a, t)
    modifies {t.node, t.right.node, t.right.left.node}
    ensures var u := Nasty(SwingLeft(t.(right := SwingRight(t.right))));
      Distinct(u) && Nodes(u) == Nodes(t) && Shows(r, u)
  {
    assert t.right.node in Nodes(t.right) && t.right.left.node in Nodes(t.right.left) && Nodes(t.right.left) <= Nodes(t.right);
    NodesAllocated(t.left);
    var b := SwingRightAt(a.right, t.right);
    assert Shows(a.left, t.left);
    a.right := b;
    ghost var s := t.(right := SwingRight(t.right));
    assert Distinct(s) && Shows(a, s);
    r := SwingLeftAt(a, s);
    NastyAt(r, SwingLeft(s));
  }

  method DoubleRightAt(a: AvlNode, ghost t: Tree) returns (r: AvlNode)
    requires t.Node? && t.left.Node? && t.left.right.Node? && -1 <= t.left.right.balance <= 1
    requires Distinct(t) && Shows(a, t)
    modifies {t.node, t.left.node, t.left.right.node}
    ensures var u := Nasty(SwingRight(t.(left := SwingLeft(t.left))));
      Distinct(u) && Nodes(u) == Nodes(t) && Shows(r, u)
  {
    assert t.left.node in Nodes(t.left) && t.left.right.node in Nodes(t.left.right) && Nodes(t.left.right) <= Nodes(t.left);
    NodesAllocated(t.right);
    var b := SwingLeftAt(a.left, t.left);
    assert Shows(a.right, t.right);
    a.left := b;
    ghost var s := t.(left := SwingLeft(t.left));
    assert Distinct(s) && Shows(a, s);
    r := SwingRightAt(a, s);
    NastyAt(r, SwingRight(s));
  }

  // The swings that restore the balance of a node with a left subtree two too high. The
  // left subtree can only be level after a removal.
  method FixLeftAt(a: AvlNode, ghost t: Tree) returns (r: AvlNode)
    requires LeftHeavy(t) && Distinct(t) && Shows(a, t)
    modifies Nodes(t)
    ensures Distinct(FixLeft(t)) && Nodes(FixLeft(t)) == Nodes(t) && Shows(r, FixLeft(t))
  {
    if a.left.balance < 0 {
      r := SingleRightAt(a, t, 0, 0);
    } else if a.left.balance == 0 {
      r := SingleRightAt(a, t, 1, -1);
    } else {
      assert Balanced(t.left.right);
      r := DoubleRightAt(a, t);
    }
  }

  method FixRightAt(a: AvlNode, ghost t: Tree) returns (r: AvlNode)
    requires RightHeavy(t) && Distinct(t) && Shows(a, t)
    modifies Nodes(t)
    ensures Distinct(FixRight(t)) && Nodes(FixRight(t)) == Nodes(t) && Shows(r, FixRight(t))
  {
    if a.right.balance > 0 {
      r := SingleLeftAt(a, t, 0, 0);
    } else if a.right.balance == 0 {
      r := SingleLeftAt(a, t, -1, 1);
    } else {
      assert Balanced(t.right.left);
      r := DoubleLeftAt(a, t);
    }
  }

  // --- insertion ---

  // The subtree sub of t, beside other, has been made i by an insertion.
  ghost predicate Inserting(t: Tree, sub: Tree, other: Tree, i: Inserted) {
    && t.Node? && Balanced(t) && Balanced(i.tree) && i.tree.Node?
    && Height(i.tree) == Height(sub) + (if i.grew then 1 else 0)
    && (i.grew ==> i.tree.balance != 0)
    && Apart(t.node, i.tree, other)
  }

  ghost predicate Apart(n: AvlNode, s: Tree, t: Tree) {
    Distinct(s) && Distinct(t) && Nodes(s) !! Nodes(t) && n !in Nodes(s) && n !in Nodes(t)
  }

  lemma LeftGrown(t: Tree, i: Inserted)
    requires t.Node? && Inserting(t, t.left, t.right, i) && i.grew && t.balance == -1
    ensures var n := t.(left := i.tree, balance := -2);
      && LeftHeavy(n) && AfterLeftInsert(t, i).tree == FixLeft(n)
      && Distinct(n) && Nodes(n) == {t.node} + Nodes(i.tree) + Nodes(t.right)
  {
  }

  lemma RightGrown(t: Tree, i: Inserted)
    requires t.Node? && Inserting(t, t.right, t.left, i) && i.grew && t.balance == 1
    ensures var n := t.(right := i.tree, balance := 2);
      && RightHeavy(n) && AfterRightInsert(t, i).tree == FixRight(n)
      && Distinct(n) && Nodes(n) == {t.node} + Nodes(t.left) + Nodes(i.tree)
  {
  }

  // After the insertion into the left subtree of root. A subtree that grew kept its root,
  // so that its parent's pointer is still good.
  method LeftInsertedAt(root: AvlNode, leftSubtree: AvlNode, grown: bool, ghost t: Tree, ghost i: Inserted)
    returns (r: AvlNode, grew: bool)
    requires t.Node? && Inserting(t, t.left, t.right, i) && grown == i.grew
    requires root == t.node && root.key == t.key && root.val == t.val && root.balance == t.balance
    requires Shows(leftSubtree, i.tree) && Shows(root.right, t.right) && (grown ==> root.left == leftSubtree)
    modifies {t.node} + Nodes(i.tree) + Nodes(t.right)
    ensures var u := AfterLeftInsert(t, i);
      && Distinct(u.tree) && Shows(r, u.tree) && grew == u.grew
      && Nodes(u.tree) == {t.node} + Nodes(i.tree) + Nodes(t.right)
  {
    hide FixLeft, LeftHeavy, Height;
    r, grew := root, false;
    if grown {
      var b := root.balance;
      root.balance := b - 1;
      if b == 1 {
      } else if b == 0 {
        grew := true;
      } else {
        LeftGrown(t, i);
        r := FixLeftAt(root, t.(left := i.tree, balance := -2));
      }
    } else {
      root.left := leftSubtree;
    }
  }

  method RightInsertedAt(root: AvlNode, rightSubtree: AvlNode, grown: bool, ghost t: Tree, ghost i: Inserted)
    returns (r: AvlNode, grew: bool)
    requires t.Node? && Inserting(t, t.right, t.left, i) && grown == i.grew
    requires root == t.node && root.key == t.key && root.val == t.val && root.balance == t.balance
    requires Shows(rightSubtree, i.tree) && Shows(root.left, t.left) && (grown ==> root.right == rightSubtree)
    modifies {t.node} + Nodes(i.tree) + Nodes(t.left)
    ensures var u := AfterRightInsert(t, i);
      && Distinct(u.tree) && Shows(r, u.tree) && grew == u.grew
      && Nodes(u.tree) == {t.node} + Nodes(i.tree) + Nodes(t.left)
  {
    hide FixRight, RightHeavy, Height;
    r, grew := root, false;
    if grown {
      var b := root.balance;
      root.balance := b + 1;
      if b == -1 {
      } else if b == 0 {
        grew := true;
      } else {
        RightGrown(t, i);
        r := FixRightAt(root, t.(right := i.tree, balance := 2));
      }
    } else {
      root.right := rightSubtree;
    }
  }

  // A node without a left, or right, child is no higher on that side.
  lemma Linked(t: Tree, a: AvlNode, k: int, v: int)
    requires t.Node? && Balanced(t) && Distinct(t) && a !in Nodes(t)
    ensures var i := Inserted(Node(a, k, v, 0, Leaf, Leaf), true, None);
      && (t.left.Leaf? ==>
        var u := t.(left := i.tree, balance := t.balance - 1);
        AfterLeftInsert(t, i) == Inserted(u, t.balance == 0, None)
          && Distinct(u) && Nodes(u) == Nodes(t) + {a})
      && (t.right.Leaf? ==>
        var u := t.(right := i.tree, balance := t.balance + 1);
        AfterRightInsert(t, i) == Inserted(u, t.balance == 0, None)
          && Distinct(u) && Nodes(u) == Nodes(t) + {a})
  {
    assert Nodes(Node(a, k, v, 0, Leaf, Leaf)) == {a} + Nodes(Leaf);
  }

  // The node a, empty but for its binding, stands ready outside the tree t at root.
  ghost predicate Fresh(root: AvlNode?, a: AvlNode, t: Tree)
    reads Nodes(t), a
  {
    && Balanced(t) && Distinct(t) && Shows(root, t)
    && a !in Nodes(t) && a.left == null && a.right == null && a.balance == 0
  }

  ghost predicate InsertedAt(r: AvlNode, grew: bool, oldV: Option<int>, a: AvlNode, t: Tree, i: Inserted)
    reads Nodes(i.tree)
  {
    && Distinct(i.tree) && Shows(r, i.tree) && grew == i.grew && oldV == i.oldV
    && Nodes(i.tree) == Nodes(t) + (if i.oldV == None then {a} else {})
  }

  // The new node becomes the left subtree.
  method LinkLeft(root: AvlNode, a: AvlNode, ghost t: Tree) returns (grew: bool)
    requires Fresh(root, a, t) && t.Node? && t.left.Leaf?
    modifies root`left, root`balance
    ensures InsertedAt(root, grew, None, a, t, AfterLeftInsert(t, Inserted(Node(a, a.key, a.val, 0, Leaf, Leaf), true, None)))
  {
    hide FixLeft, FixRight, LeftHeavy, RightHeavy, AfterLeftInsert, AfterRightInsert;
    Linked(t, a, a.key, a.val);
    root.left := a;
    grew := root.balance == 0;
    root.balance := root.balance - 1;
    assert Shows(a, Node(a, a.key, a.val, 0, Leaf, Leaf));
  }

  // The case of avl_insert_wrk in which the new key belongs to the left of root.
  method InsertLeftAt(cmp: KeyCmp, root: AvlNode, a: AvlNode, ghost t: Tree)
    returns (r: AvlNode, grew: bool, oldV: Option<int>)
    requires Fresh(root, a, t) && t.Node? && cmp(root.key, a.key) > 0
    modifies Nodes(t) + {a}
    ensures InsertedAt(r, grew, oldV, a, t, Insert(cmp, t, a, old(a.key), old(a.val)))
    decreases t, 0
  {
    hide FixLeft, FixRight, LeftHeavy, RightHeavy, AfterLeftInsert, AfterRightInsert;
    NodesAllocated(t);
    ghost var i := Insert(cmp, t.left, a, a.key, a.val);
    assert Insert(cmp, t, a, a.key, a.val) == AfterLeftInsert(t, i);
    if root.left != null {
      var leftSubtree, grown, o := InsertAt(cmp, root.left, a, t.left);
      oldV := o;
      r, grew := LeftInsertedAt(root, leftSubtree, grown, t, i);
    } else {
      assert Shows(root.left, t.left) && t.left.Leaf?;
      r, oldV := root, None;
      grew := LinkLeft(root, a, t);
    }
  }

  // The new node becomes the right subtree.
  method LinkRight(root: AvlNode, a: AvlNode, ghost t: Tree) returns (grew: bool)
    requires Fresh(root, a, t) && t.Node? && t.right.Leaf?
    modifies root`right, root`balance
    ensures InsertedAt(root, grew, None, a, t, AfterRightInsert(t, Inserted(Node(a, a.key, a.val, 0, Leaf, Leaf), true, None)))
  {
    hide FixLeft, FixRight, LeftHeavy, RightHeavy, AfterLeftInsert, AfterRightInsert;
    Linked(t, a, a.key, a.val);
    root.right := a;
    grew := root.balance == 0;
    root.balance := root.balance + 1;
    assert Shows(a, Node(a, a.key, a.val, 0, Leaf, Leaf));
  }

  // The case of avl_insert_wrk in which the new key belongs to the right of root.
  method InsertRightAt(cmp: KeyCmp, root: AvlNode, a: AvlNode, ghost t: Tree)
    returns (r: AvlNode, grew: bool, oldV: Option<int>)
    requires Fresh(root, a, t) && t.Node? && cmp(root.key, a.key) < 0
    modifies Nodes(t) + {a}
    ensures InsertedAt(r, grew, oldV, a, t, Insert(cmp, t, a, old(a.key), old(a.val)))
    decreases t, 0
  {
    hide FixLeft, FixRight, LeftHeavy, RightHeavy, AfterLeftInsert, AfterRightInsert;
    NodesAllocated(t);
    ghost var i := Insert(cmp, t.right, a, a.key, a.val);
    assert Insert(cmp, t, a, a.key, a.val) == AfterRightInsert(t, i);
    if root.right != null {
      var rightSubtree, grown, o := InsertAt(cmp, root.right, a, t.right);
      oldV := o;
      r, grew := RightInsertedAt(root, rightSubtree, grown, t, i);
    } else {
      assert Shows(root.right, t.right) && t.right.Leaf?;
      r, oldV := root, None;
      grew := LinkRight(root, a, t);
    }
  }

  /** avl_insert_wrk: a is linked in, unless its key is bound already: then only its value is taken. */
  method InsertAt(cmp: KeyCmp, root: AvlNode?, a: AvlNode, ghost t: Tree)
    returns (r: AvlNode, grew: bool, oldV: Option<int>)
    requires Balanced(t) && Distinct(t) && Shows(root, t) && a !in Nodes(t)
    modifies Nodes(t) + {a}
    ensures InsertedAt(r, grew, oldV, a, t, Insert(cmp, t, a, old(a.key), old(a.val)))
    decreases t, 1
  {
    hide FixLeft, FixRight, LeftHeavy, RightHeavy, AfterLeftInsert, AfterRightInsert;
    a.left, a.right, a.balance := null, null, 0;
    if root == null {
      return a, true, None;
    }
    var c := cmp(root.key, a.key);
    if c > 0 {
      r, grew, oldV := InsertLeftAt(cmp, root, a, t);
    } else if c < 0 {
      r, grew, oldV := InsertRightAt(cmp, root, a, t);
    } else {
      r, grew, oldV := root, false, Some(root.val);
      root.val := a.val;
    }
  }
}
