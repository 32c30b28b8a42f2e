module AvlTrees {
  // The balanced trees of WordFM as values: insertion and removal with the branches and
  // rotations of the code on nodes, and what they do to heights and balances. Every tree
  // node carries the heap node it stands for.

  import opened Common
  import opened Bindings

  type KeyCmp = Cmp<int>
  type Binding = Entry<int, int>

  // Keys and values are machine words. The fields change in place.
  class AvlNode {
    var key: int
    var val: int
    var left: AvlNode?
    var right: AvlNode?
    var balance: int

    constructor (key: int, val: int)
      ensures this.key == key && this.val == val && left == null && right == null && balance == 0
    {
      this.key, this.val, left, right, balance := key, val, null, null, 0;
    }
  }

  datatype Tree = Leaf | Node(node: AvlNode, key: int, val: int, balance: int, left: Tree, right: Tree)

  // --- trees ---

  function Entries(t: Tree): seq<Binding> {
    match t
    case Leaf => []
    case Node(_, k, v, _, l, r) => Entries(l) + [(k, v)] + Entries(r)
  }

  function Height(t: Tree): nat {
    match t
    case Leaf => 0
    case Node(_, _, _, _, l, r) => 1 + (if Height(l) < Height(r) then Height(r) else Height(l))
  }

  // Every balance field is the difference of the heights and at most one off zero.
  predicate Balanced(t: Tree) {
    match t
    case Leaf => true
    case Node(_, _, _, b, l, r) => -1 <= b <= 1 && b == Height(r) - Height(l) && Balanced(l) && Balanced(r)
  }

  // --- rotations ---

  function SwingLeft(t: Tree): Tree
    requires t.Node? && t.right.Node?
  {
    t.right.(left := t.(right := t.right.left))
  }

  function SwingRight(t: Tree): Tree
    requires t.Node? && t.left.Node?
  {
    t.left.(right := t.(left := t.left.right))
  }

  // The balances after a double rotation.
  function Nasty(t: Tree): Tree
    requires t.Node? && t.left.Node? && t.right.Node?
  {
    t.(balance := 0,
       left := t.left.(balance := if t.balance == 1 then -1 else 0),
       right := t.right.(balance := if t.balance == -1 then 1 else 0))
  }

  lemma Reassociate(l: seq<Binding>, e: Binding, m: seq<Binding>, f: Binding, r: seq<Binding>)
    ensures l + [e] + (m + [f] + r) == (l + [e] + m) + [f] + r
  {
  }

  lemma SwingLeftEntries(t: Tree)
    requires t.Node? && t.right.Node?
    ensures Entries(SwingLeft(t)) == Entries(t)
  {
    var e, f := (t.key, t.val), (t.right.key, t.right.val);
    var l, m, r := Entries(t.left), Entries(t.right.left), Entries(t.right.right);
    assert Entries(SwingLeft(t).left) == l + [e] + m;
    assert Entries(t.right) == m + [f] + r;
    Reassociate(l, e, m, f, r);
  }

  lemma SwingRightEntries(t: Tree)
    requires t.Node? && t.left.Node?
    ensures Entries(SwingRight(t)) == Entries(t)
  {
    var e, f := (t.left.key, t.left.val), (t.key, t.val);
    var l, m, r := Entries(t.left.left), Entries(t.left.right), Entries(t.right);
    assert Entries(SwingRight(t).right) == m + [f] + r;
    assert Entries(t.left) == l + [e] + m;
    Reassociate(l, e, m, f, r);
  }

  lemma SameEntries(s: Tree, t: Tree)
    requires s.Node? && t.Node? && s.key == t.key && s.val == t.val
    requires Entries(s.left) == Entries(t.left) && Entries(s.right) == Entries(t.right)
    ensures Entries(s) == Entries(t)
  {
  }

  lemma NastyEntries(t: Tree)
    requires t.Node? && t.left.Node? && t.right.Node?
    ensures Entries(Nasty(t)) == Entries(t)
  {
  }

  // --- putting the balance right ---

  // A node whose left subtree is two higher than its right one.
  ghost predicate LeftHeavy(t: Tree) {
    t.Node? && Balanced(t.left) && Balanced(t.right) && Height(t.left) == Height(t.right) + 2
  }

  ghost predicate RightHeavy(t: Tree) {
    t.Node? && Balanced(t.left) && Balanced(t.right) && Height(t.right) == Height(t.left) + 2
  }

  // Each of the swings leaves a balanced tree.
  lemma SingleRight(t: Tree)
    requires LeftHeavy(t) && t.left.balance < 0
    ensures var s := SwingRight(t); var r := s.(balance := 0, right := s.right.(balance := 0));
      Balanced(r) && Height(r) == Height(t) - 1
  {
  }

  lemma FlatRight(t: Tree)
    requires LeftHeavy(t) && t.left.balance == 0
    ensures var s := SwingRight(t); var r := s.(balance := 1, right := s.right.(balance := -1));
      Balanced(r) && Height(r) == Height(t)
  {
  }

  // The node m of height h + 1 has given its subtrees to a and b, whose other subtrees have height h.
  lemma BalancedPair(m: Tree, a: Tree, b: Tree, h: nat)
    requires Balanced(m) && m.Node? && Height(m) == h + 1 && a.Node? && b.Node?
    requires a.right == m.left && b.left == m.right && Balanced(a.left) && Balanced(b.right)
    requires Height(a.left) == Height(b.right) == h
    ensures var r := Nasty(m.(left := a, right := b)); Balanced(r) && Height(r) == h + 2
  {
    var r := Nasty(m.(left := a, right := b));
    assert Balanced(r.left) && Height(r.left) == h + 1;
    assert Balanced(r.right) && Height(r.right) == h + 1;
  }

  lemma DoubleRight(t: Tree)
    requires LeftHeavy(t) && t.left.balance > 0
    ensures t.left.right.Node?
    ensures var r := Nasty(SwingRight(t.(left := SwingLeft(t.left)))); Balanced(r) && Height(r) == Height(t) - 1
  {
    var l, m := t.left, t.left.right;
    assert Balanced(m) && Balanced(m.left) && Balanced(m.right);
    assert SwingRight(t.(left := SwingLeft(l))) == m.(left := l.(right := m.left), right := t.(left := m.right));
    BalancedPair(m, l.(right := m.left), t.(left := m.right), Height(l.left));
  }

  lemma SingleLeft(t: Tree)
    requires RightHeavy(t) && t.right.balance > 0
    ensures var s := SwingLeft(t); var r := s.(balance := 0, left := s.left.(balance := 0));
      Balanced(r) && Height(r) == Height(t) - 1
  {
  }

  lemma FlatLeft(t: Tree)
    requires RightHeavy(t) && t.right.balance == 0
    ensures var s := SwingLeft(t); var r := s.(balance := -1, left := s.left.(balance := 1));
      Balanced(r) && Height(r) == Height(t)
  {
  }

  lemma DoubleLeft(t: Tree)
    requires RightHeavy(t) && t.right.balance < 0
    ensures t.right.left.Node?
    ensures var r := Nasty(SwingLeft(t.(right := SwingRight(t.right)))); Balanced(r) && Height(r) == Height(t) - 1
  {
    var r, m := t.right, t.right.left;
    assert Balanced(m) && Balanced(m.left) && Balanced(m.right);
    assert SwingLeft(t.(right := SwingRight(r))) == m.(left := t.(right := m.left), right := r.(left := m.right));
    BalancedPair(m, t.(right := m.left), r.(left := m.right), Height(t.left));
  }

  ghost function FixLeft(t: Tree): (r: Tree)
    requires LeftHeavy(t)
    ensures Balanced(r) && r.Node?
    ensures Height(r) == (if t.left.balance == 0 then Height(t) else Height(t) - 1)
  {
    if t.left.balance < 0 then
      SingleRight(t);
      var s := SwingRight(t);
      s.(balance := 0, right := s.right.(balance := 0))
    else if t.left.balance == 0 then
      FlatRight(t);
      var s := SwingRight(t);
      s.(balance := 1, right := s.right.(balance := -1))
    else
      DoubleRight(t);
      Nasty(SwingRight(t.(left := SwingLeft(t.left))))
  }

  ghost function FixRight(t: Tree): (r: Tree)
    requires RightHeavy(t)
    ensures Balanced(r) && r.Node?
    ensures Height(r) == (if t.right.balance == 0 then Height(t) else Height(t) - 1)
  {
    if t.right.balance > 0 then
      SingleLeft(t);
      var s := SwingLeft(t);
      s.(balance := 0, left := s.left.(balance := 0))
    else if t.right.balance == 0 then
      FlatLeft(t);
      var s := SwingLeft(t);
      s.(balance := -1, left := s.left.(balance := 1))
    else
      DoubleLeft(t);
      Nasty(SwingLeft(t.(right := SwingRight(t.right))))
  }

  lemma FixLeftEntries(t: Tree)
    requires LeftHeavy(t)
    ensures Entries(FixLeft(t)) == Entries(t)
  {
    hide Entries;
    SwingRightEntries(t);
    if t.left.balance > 0 {
      SwingLeftEntries(t.left);
      var s := t.(left := SwingLeft(t.left));
      SwingRightEntries(s);
      NastyEntries(SwingRight(s));
      SameEntries(t, s);
    } else {
      SameEntries(SwingRight(t).right, FixLeft(t).right);
      SameEntries(SwingRight(t), FixLeft(t));
    }
  }

  lemma FixRightEntries(t: Tree)
    requires RightHeavy(t)
    ensures Entries(FixRight(t)) == Entries(t)
  {
    hide Entries;
    SwingLeftEntries(t);
    if t.right.balance < 0 {
      SwingRightEntries(t.right);
      var s := t.(right := SwingRight(t.right));
      SwingLeftEntries(s);
      NastyEntries(SwingLeft(s));
      SameEntries(t, s);
    } else {
      SameEntries(SwingLeft(t).left, FixRight(t).left);
      SameEntries(SwingLeft(t), FixRight(t));
    }
  }

  // --- insertion ---

  datatype Inserted = Inserted(tree: Tree, grew: bool, oldV: Option<int>)

  // The node t after an insertion into its left, or right, subtree.
  ghost function AfterLeftInsert(t: Tree, i: Inserted): (r: Inserted)
    requires t.Node? && Balanced(t) && Balanced(i.tree)
    requires Height(i.tree) == Height(t.left) + (if i.grew then 1 else 0)
    requires i.grew && t.left.Node? ==> i.tree.Node? && i.tree.balance != 0
    ensures Balanced(r.tree) && r.tree.Node? && r.oldV == i.oldV
    ensures Height(r.tree) == Height(t) + (if r.grew then 1 else 0)
    ensures r.grew ==> r.tree.balance != 0 && r.tree.node == t.node
  {
    var n := t.(left := i.tree);
    if !i.grew then Inserted(n, false, i.oldV)
    else if t.balance >= 0 then Inserted(n.(balance := t.balance - 1), t.balance == 0, i.oldV)
    else Inserted(FixLeft(n), false, i.oldV)
  }

  ghost function AfterRightInsert(t: Tree, i: Inserted): (r: Inserted)
    requires t.Node? && Balanced(t) && Balanced(i.tree)
    requires Height(i.tree) == Height(t.right) + (if i.grew then 1 else 0)
    requires i.grew && t.right.Node? ==> i.tree.Node? && i.tree.balance != 0
    ensures Balanced(r.tree) && r.tree.Node? && r.oldV == i.oldV
    ensures Height(r.tree) == Height(t) + (if r.grew then 1 else 0)
    ensures r.grew ==> r.tree.balance != 0 && r.tree.node == t.node
  {
    var n := t.(right := i.tree);
    if !i.grew then Inserted(n, false, i.oldV)
    else if t.balance <= 0 then Inserted(n.(balance := t.balance + 1), t.balance == 0, i.oldV)
    else Inserted(FixRight(n), false, i.oldV)
  }

  /** avl_insert_wrk: node a holds the new binding of k to v. */
  ghost function Insert(cmp: KeyCmp, t: Tree, a: AvlNode, k: int, v: int): (r: Inserted)
    requires Balanced(t)
    ensures Balanced(r.tree) && r.tree.Node?
    ensures Height(r.tree) == Height(t) + (if r.grew then 1 else 0)
    ensures r.grew && t.Node? ==> r.tree.balance != 0 && r.tree.node == t.node
  {
    match t
    case Leaf => Inserted(Node(a, k, v, 0, Leaf, Leaf), true, None)
    case Node(_, key, val, _, left, right) =>
      if cmp(key, k) > 0 then AfterLeftInsert(t, Insert(cmp, left, a, k, v))
      else if cmp(key, k) < 0 then AfterRightInsert(t, Insert(cmp, right, a, k, v))
      else Inserted(t.(val := v), false, Some(val))
  }

  // --- removal ---

  datatype Removed = Removed(tree: Tree, shrank: bool)

  ghost function AfterLeftRemove(t: Tree, d: Removed): (r: Removed)
    requires t.Node? && Balanced(t) && Balanced(d.tree)
    requires Height(d.tree) == Height(t.left) - (if d.shrank then 1 else 0)
    ensures Balanced(r.tree) && r.tree.Node?
    ensures Height(r.tree) == Height(t) - (if r.shrank then 1 else 0)
  {
    var n := t.(left := d.tree);
    if !d.shrank then Removed(n, false)
    else if t.balance <= 0 then Removed(n.(balance := t.balance + 1), t.balance < 0)
    else Removed(FixRight(n), t.right.balance != 0)
  }

  ghost function AfterRightRemove(t: Tree, d: Removed): (r: Removed)
    requires t.Node? && Balanced(t) && Balanced(d.tree)
    requires Height(d.tree) == Height(t.right) - (if d.shrank then 1 else 0)
    ensures Balanced(r.tree) && r.tree.Node?
    ensures Height(r.tree) == Height(t) - (if r.shrank then 1 else 0)
  {
    var n := t.(right := d.tree);
    if !d.shrank then Removed(n, false)
    else if t.balance >= 0 then Removed(n.(balance := t.balance - 1), t.balance > 0)
    else Removed(FixLeft(n), t.left.balance != 0)
  }

  // The rightmost and the leftmost node.
  function Last(t: Tree): (r: Tree)
    requires t.Node?
    ensures r.Node?
  {
    if t.right.Node? then Last(t.right) else t
  }

  function First(t: Tree): (r: Tree)
    requires t.Node?
    ensures r.Node?
  {
    if t.left.Node? then First(t.left) else t
  }

  /** avl_remove_wrk: the node whose key equals k is taken out. */
  ghost function Remove(cmp: KeyCmp, t: Tree, k: int): (r: Removed)
    requires Balanced(t)
    ensures Balanced(r.tree)
    ensures Height(r.tree) == Height(t) - (if r.shrank then 1 else 0)
    decreases t, 1
  {
    match t
    case Leaf => Removed(Leaf, false)
    case Node(_, key, _, _, left, right) =>
      if cmp(key, k) > 0 then AfterLeftRemove(t, Remove(cmp, left, k))
      else if cmp(key, k) < 0 then AfterRightRemove(t, Remove(cmp, right, k))
      else RemoveRoot(cmp, t)
  }

  /** avl_removeroot_wrk: a neighbour from the higher side takes the place of the root. */
  ghost function RemoveRoot(cmp: KeyCmp, t: Tree): (r: Removed)
    requires Balanced(t) && t.Node?
    ensures Balanced(r.tree)
    ensures Height(r.tree) == Height(t) - (if r.shrank then 1 else 0)
    decreases t, 0
  {
    if t.left.Leaf? then Removed(t.right, true)
    else if t.right.Leaf? then Removed(t.left, true)
    else
      var a := if t.balance < 0 then Last(t.left) else First(t.right);
      var r :=
        if t.balance < 0 then AfterLeftRemove(t, Remove(cmp, t.left, a.key))
        else AfterRightRemove(t, Remove(cmp, t.right, a.key));
      Removed(r.tree.(node := a.node, key := a.key, val := a.val), r.shrank)
  }
}
