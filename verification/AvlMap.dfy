module AvlMaps {
  // Insertion into and removal from a balanced tree are Put and Del on its ordered list of
  // bindings, double rotations and the replacement of a root by its neighbour included.

  import opened Common
  import opened Bindings
  import opened AvlTrees

  // A balanced tree whose keys are in order: what a WordFM keeps between calls.
  ghost predicate Ordered(cmp: KeyCmp, t: Tree) {
    Order(cmp) && Balanced(t) && Sorted(cmp, Entries(t))
  }

  lemma OrderedParts(cmp: KeyCmp, t: Tree)
    requires Ordered(cmp, t) && t.Node?
    ensures Ordered(cmp, t.left) && Ordered(cmp, t.right)
  {
    SortedParts(cmp, Entries(t.left), (t.key, t.val), Entries(t.right));
  }

  // --- insertion ---

  lemma {:induction false} LeftInsertEntries(t: Tree, i: Inserted)
    requires t.Node? && Balanced(t) && Balanced(i.tree)
    requires Height(i.tree) == Height(t.left) + (if i.grew then 1 else 0)
    requires i.grew && t.left.Node? ==> i.tree.Node? && i.tree.balance != 0
    ensures Entries(AfterLeftInsert(t, i).tree) == Entries(i.tree) + [(t.key, t.val)] + Entries(t.right)
  {
    if i.grew && t.balance < 0 {
      FixLeftEntries(t.(left := i.tree));
    }
  }

  lemma {:induction false} RightInsertEntries(t: Tree, i: Inserted)
    requires t.Node? && Balanced(t) && Balanced(i.tree)
    requires Height(i.tree) == Height(t.right) + (if i.grew then 1 else 0)
    requires i.grew && t.right.Node? ==> i.tree.Node? && i.tree.balance != 0
    ensures Entries(AfterRightInsert(t, i).tree) == Entries(t.left) + [(t.key, t.val)] + Entries(i.tree)
  {
    if i.grew && t.balance > 0 {
      FixRightEntries(t.(right := i.tree));
    }
  }

  /** Insertion binds k to v in the list, and reports the value that was bound before. */
  lemma {:induction false} InsertIsPut(cmp: KeyCmp, t: Tree, a: AvlNode, k: int, v: int)
    requires Ordered(cmp, t)
    ensures Entries(Insert(cmp, t, a, k, v).tree) == Put(cmp, Entries(t), k, v)
    ensures Insert(cmp, t, a, k, v).oldV == Get(cmp, Entries(t), k)
  {
    hide Order, Sorted, FixLeft, FixRight, LeftHeavy, RightHeavy, AfterLeftInsert, AfterRightInsert;
    if t.Node? {
      SplitAtEntry(cmp, Entries(t.left), (t.key, t.val), Entries(t.right), k, v);
      OrderedParts(cmp, t);
      if cmp(t.key, k) > 0 {
        InsertIsPut(cmp, t.left, a, k, v);
        LeftInsertEntries(t, Insert(cmp, t.left, a, k, v));
      } else if cmp(t.key, k) < 0 {
        InsertIsPut(cmp, t.right, a, k, v);
        RightInsertEntries(t, Insert(cmp, t.right, a, k, v));
      }
    }
  }

  // --- removal ---

  lemma {:induction false} LeftRemoveEntries(t: Tree, d: Removed)
    requires t.Node? && Balanced(t) && Balanced(d.tree)
    requires Height(d.tree) == Height(t.left) - (if d.shrank then 1 else 0)
    ensures Entries(AfterLeftRemove(t, d).tree) == Entries(d.tree) + [(t.key, t.val)] + Entries(t.right)
  {
    if d.shrank && t.balance > 0 {
      FixRightEntries(t.(left := d.tree));
    }
  }

  lemma {:induction false} RightRemoveEntries(t: Tree, d: Removed)
    requires t.Node? && Balanced(t) && Balanced(d.tree)
    requires Height(d.tree) == Height(t.right) - (if d.shrank then 1 else 0)
    ensures Entries(AfterRightRemove(t, d).tree) == Entries(t.left) + [(t.key, t.val)] + Entries(d.tree)
  {
    if d.shrank && t.balance < 0 {
      FixLeftEntries(t.(right := d.tree));
    }
  }

  lemma {:induction false} FirstEntry(t: Tree)
    requires t.Node?
    ensures |Entries(t)| > 0 && Entries(t)[0] == (First(t).key, First(t).val)
  {
    if t.left.Node? {
      FirstEntry(t.left);
    }
  }

  lemma {:induction false} LastEntry(t: Tree)
    requires t.Node?
    ensures |Entries(t)| > 0 && Entries(t)[|Entries(t)| - 1] == (Last(t).key, Last(t).val)
  {
    if t.right.Node? {
      LastEntry(t.right);
    }
  }

  lemma DelOnly(cmp: KeyCmp, e: Binding)
    requires Order(cmp)
    ensures Del(cmp, [e], e.0) == []
  {
    Reflexive(cmp, e.0);
  }

  lemma {:induction false} DelLast(cmp: KeyCmp, es: seq<Binding>)
    requires Order(cmp) && Sorted(cmp, es) && |es| > 0
    ensures Del(cmp, es, es[|es| - 1].0) == es[..|es| - 1]
  {
    hide Order, Del;
    var a, e := es[..|es| - 1], es[|es| - 1];
    assert es == a + [e];
    assert AllBelow(cmp, a, e.0);
    DelAfter(cmp, a, [e], e.0);
    DelOnly(cmp, e);
  }

  ghost predicate SameRoot(r: Tree, t: Tree, left: Tree, right: Tree)
    requires t.Node?
  {
    r.Node? && r.node == t.node && r.key == t.key && r.val == t.val && r.left == left && r.right == right
  }

  // With two subtrees, the side that gives up its end entry is never rotated away.
  lemma RootStays(t: Tree, d: Removed)
    requires t.Node? && Balanced(t) && Balanced(d.tree)
    ensures t.balance <= 0 && Height(d.tree) == Height(t.left) - (if d.shrank then 1 else 0) ==>
      SameRoot(AfterLeftRemove(t, d).tree, t, d.tree, t.right)
    ensures t.balance >= 0 && Height(d.tree) == Height(t.right) - (if d.shrank then 1 else 0) ==>
      SameRoot(AfterRightRemove(t, d).tree, t, t.left, d.tree)
  {
  }

  lemma {:induction false} RemoveRootEntries(cmp: KeyCmp, t: Tree)
    requires Ordered(cmp, t) && t.Node?
    ensures Entries(RemoveRoot(cmp, t).tree) == Entries(t.left) + Entries(t.right)
    decreases t, 0
  {
    hide Order, Sorted, Balanced, FixLeft, FixRight, LeftHeavy, RightHeavy, AfterLeftRemove, AfterRightRemove, Remove;
    if t.left.Node? && t.right.Node? {
      var l, r := Entries(t.left), Entries(t.right);
      OrderedParts(cmp, t);
      if t.balance < 0 {
        var a := Last(t.left);
        LastEntry(t.left);
        RemoveIsDel(cmp, t.left, a.key);
        DelLast(cmp, l);
        RootStays(t, Remove(cmp, t.left, a.key));
        assert l == l[..|l| - 1] + [(a.key, a.val)];
      } else {
        var a := First(t.right);
        FirstEntry(t.right);
        RemoveIsDel(cmp, t.right, a.key);
        Reflexive(cmp, a.key);
        RootStays(t, Remove(cmp, t.right, a.key));
        assert r == [(a.key, a.val)] + r[1..];
      }
    }
  }

  /** Removal deletes the binding of k, and leaves the list alone when there is none. */
  lemma {:induction false} RemoveIsDel(cmp: KeyCmp, t: Tree, k: int)
    requires Ordered(cmp, t)
    ensures Entries(Remove(cmp, t, k).tree) == Del(cmp, Entries(t), k)
    decreases t, 1
  {
    hide Order, Sorted, FixLeft, FixRight, LeftHeavy, RightHeavy, AfterLeftRemove, AfterRightRemove, RemoveRoot;
    if t.Node? {
      SplitAtEntry(cmp, Entries(t.left), (t.key, t.val), Entries(t.right), k, 0);
      OrderedParts(cmp, t);
      if cmp(t.key, k) > 0 {
        RemoveIsDel(cmp, t.left, k);
        LeftRemoveEntries(t, Remove(cmp, t.left, k));
      } else if cmp(t.key, k) < 0 {
        RemoveIsDel(cmp, t.right, k);
        RightRemoveEntries(t, Remove(cmp, t.right, k));
      } else {
        RemoveRootEntries(cmp, t);
      }
    }
  }

  /** Insertions and removals keep the keys in order and the tree balanced. */
  lemma {:induction false} OrderedKept(cmp: KeyCmp, t: Tree, a: AvlNode, k: int, v: int)
    requires Ordered(cmp, t)
    ensures Ordered(cmp, Insert(cmp, t, a, k, v).tree) && Ordered(cmp, Remove(cmp, t, k).tree)
  {
    InsertIsPut(cmp, t, a, k, v);
    RemoveIsDel(cmp, t, k);
    PutSorted(cmp, Entries(t), k, v);
    DelSorted(cmp, Entries(t), k);
  }

  // --- lookup ---

  // The subtree that avl_find_node stops at.
  function Find(cmp: KeyCmp, t: Tree, k: int): (r: Tree) {
    if t.Leaf? then Leaf
    else if cmp(t.key, k) > 0 then Find(cmp, t.left, k)
    else if cmp(t.key, k) < 0 then Find(cmp, t.right, k)
    else t
  }

  /** The search ends at a node exactly when the key is bound, and that node holds its value. */
  lemma {:induction false} FindIsGet(cmp: KeyCmp, t: Tree, k: int)
    requires Ordered(cmp, t)
    ensures Get(cmp, Entries(t), k) == var f := Find(cmp, t, k); if f.Node? then Some(f.val) else None
  {
    hide Order, Sorted;
    if t.Node? {
      SplitAtEntry(cmp, Entries(t.left), (t.key, t.val), Entries(t.right), k, 0);
      OrderedParts(cmp, t);
      FindIsGet(cmp, t.left, k);
      FindIsGet(cmp, t.right, k);
    }
  }
}
