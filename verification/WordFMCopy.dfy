/**
 Deep copies of a map: every node is copied, every key and value goes through a copying
 function that may fail by answering zero for a word that is not zero.
 */
module WordFMCopies {
  import opened Common
  import opened Bindings
  import opened AvlTrees
  import opened AvlHeap
  import opened WordFMs

  type Dopy = Option<int -> int>

  function Copied(f: Dopy, w: int): int {
    if f.None? then w else f.value(w)
  }

  // Out of memory: a word that is not zero whose copy is.
  predicate Fails(f: Dopy, w: int) {
    f.Some? && w != 0 && f.value(w) == 0
  }

  function CopiedEntry(fk: Dopy, fv: Dopy, e: Binding): Binding {
    (Copied(fk, e.0), Copied(fv, e.1))
  }

  function CopiedEntries(fk: Dopy, fv: Dopy, es: seq<Binding>): seq<Binding> {
    seq(|es|, i requires 0 <= i < |es| => CopiedEntry(fk, fv, es[i]))
  }

  ghost predicate Copyable(fk: Dopy, fv: Dopy, es: seq<Binding>) {
    forall i :: 0 <= i < |es| ==> !Fails(fk, es[i].0) && !Fails(fv, es[i].1)
  }

  // Copied keys compare as the keys do.
  ghost predicate KeepsOrder(cmp: KeyCmp, fk: Dopy) {
    forall a, b :: cmp(Copied(fk, a), Copied(fk, b)) < 0 <==> cmp(a, b) < 0
  }

  // The copy has the shape of the original.
  ghost predicate SameShape(fk: Dopy, fv: Dopy, u: Tree, t: Tree) {
    match t
    case Leaf => u.Leaf?
    case Node(_, k, v, b, l, r) =>
      && u.Node? && u.key == Copied(fk, k) && u.val == Copied(fv, v) && u.balance == b
      && SameShape(fk, fv, u.left, l) && SameShape(fk, fv, u.right, r)
  }

  lemma {:induction false} ShapeKeeps(fk: Dopy, fv: Dopy, u: Tree, t: Tree)
    requires SameShape(fk, fv, u, t)
    ensures Entries(u) == CopiedEntries(fk, fv, Entries(t))
    ensures Height(u) == Height(t) && (Balanced(t) ==> Balanced(u))
  {
    if t.Node? {
      ShapeKeeps(fk, fv, u.left, t.left);
      ShapeKeeps(fk, fv, u.right, t.right);
    }
  }

  lemma {:induction false} CopyableParts(fk: Dopy, fv: Dopy, t: Tree)
    requires t.Node?
    ensures Copyable(fk, fv, Entries(t)) <==>
      (&& !Fails(fk, t.key) && !Fails(fv, t.val)
       && Copyable(fk, fv, Entries(t.left)) && Copyable(fk, fv, Entries(t.right)))
  {
    var l, r, s := Entries(t.left), Entries(t.right), Entries(t);
    assert forall i :: 0 <= i < |l| ==> s[i] == l[i];
    assert s[|l|] == (t.key, t.val);
    assert forall i :: 0 <= i < |r| ==> s[|l| + 1 + i] == r[i];
    assert forall i :: |l| < i < |s| ==> s[i] == r[i - |l| - 1];
  }

  // The copy of a child, which may be absent.
  method DopyChild(nd: AvlNode?, dopyK: Dopy, dopyV: Dopy, ghost t: Tree)
    returns (ok: bool, nyu: AvlNode?, ghost u: Tree)
    requires Shows(nd, t)
    ensures ok <==> Copyable(dopyK, dopyV, Entries(t))
    ensures ok ==> SameShape(dopyK, dopyV, u, t) && Distinct(u) && Shows(nyu, u) && fresh(Nodes(u))
    decreases t, 1
  {
    hide Copyable, Entries;
    ok, nyu, u := true, null, Leaf;
    if nd != null {
      nyu, u := DopyAt(nd, dopyK, dopyV, t);
      ok := nyu != null;
    } else {
      NothingToCopy(dopyK, dopyV);
    }
  }

  // The part of avl_dopy that copies a node without its subtrees.
  method DopyNode(nd: AvlNode, dopyK: Dopy, dopyV: Dopy) returns (node: AvlNode?)
    ensures node == null <==> Fails(dopyK, nd.key) || Fails(dopyV, nd.val)
    ensures node != null ==> fresh(node) && node.balance == nd.balance
    ensures node != null ==> node.key == Copied(dopyK, nd.key) && node.val == Copied(dopyV, nd.val)
  {
    node := new AvlNode(0, 0);
    node.balance := nd.balance;
    node.key := Copied(dopyK, nd.key);
    if dopyK.Some? && nd.key != 0 && node.key == 0 {
      return null;
    }
    node.val := Copied(dopyV, nd.val);
    if dopyV.Some? && nd.val != 0 && node.val == 0 {
      return null;
    }
  }

  /** avl_dopy: null if and only if the copying of some key or value failed. */
  method DopyAt(nd: AvlNode, dopyK: Dopy, dopyV: Dopy, ghost t: Tree) returns (nyu: AvlNode?, ghost u: Tree)
    requires t.Node? && Shows(nd, t)
    ensures nyu != null <==> Copyable(dopyK, dopyV, Entries(t))
    ensures nyu != null ==> SameShape(dopyK, dopyV, u, t) && Distinct(u) && Shows(nyu, u) && fresh(Nodes(u))
    decreases t, 0
  {
    hide Copyable, Entries;
    CopyableParts(dopyK, dopyV, t);
    NodesAllocated(t.left);
    NodesAllocated(t.right);
    u := Leaf;
    var node := DopyNode(nd, dopyK, dopyV);
    if node == null {
      return null, Leaf;
    }
    var okL, left, ul := DopyChild(nd.left, dopyK, dopyV, t.left);
    if !okL {
      return null, Leaf;
    }
    NodesAllocated(ul);
    var okR, right, ur := DopyChild(nd.right, dopyK, dopyV, t.right);
    if !okR {
      return null, Leaf;
    }
    NodesAllocated(ur);
    node.left, node.right := left, right;
    nyu, u := node, Node(node, node.key, node.val, node.balance, ul, ur);
  }

  lemma NothingToCopy(fk: Dopy, fv: Dopy)
    ensures Copyable(fk, fv, Entries(Leaf))
  {
  }

  lemma CopySorted(cmp: KeyCmp, fk: Dopy, fv: Dopy, es: seq<Binding>)
    requires KeepsOrder(cmp, fk) && Sorted(cmp, es)
    ensures Sorted(cmp, CopiedEntries(fk, fv, es))
  {
    var cs := CopiedEntries(fk, fv, es);
    forall i, j | 0 <= i < j < |cs| ensures cmp(cs[i].0, cs[j].0) < 0 {
      assert cmp(es[i].0, es[j].0) < 0;
      assert cmp(Copied(fk, es[i].0), Copied(fk, es[j].0)) < 0;
    }
  }

  /** dopyFM: a map of its own with the copied bindings, or null when a copy failed. */
  method DopyFM(fm: WordFM, dopyK: Dopy, dopyV: Dopy) returns (nyu: WordFM?)
    requires fm.Valid() && fm.stackTop == 0 && KeepsOrder(fm.kCmp, dopyK)
    ensures nyu == null <==> !Copyable(dopyK, dopyV, fm.Contents())
    ensures nyu != null ==>
      && fresh(nyu) && fresh(Nodes(nyu.tree)) && nyu.Valid() && nyu.kCmp == fm.kCmp && nyu.stackTop == 0
      && nyu.Contents() == CopiedEntries(dopyK, dopyV, fm.Contents())
  {
    hide Copyable, Entries, Order, Sorted, KeepsOrder, CopiedEntries, Balanced;
    NodesAllocated(fm.tree);
    CopySorted(fm.kCmp, dopyK, dopyV, fm.Contents());
    nyu := new WordFM(fm.kCmp);
    if fm.root != null {
      var root, u := DopyAt(fm.root, dopyK, dopyV, fm.tree);
      if root == null {
        return null;
      }
      NodesAllocated(u);
      ShapeKeeps(dopyK, dopyV, u, fm.tree);
      nyu.root, nyu.tree := root, u;
    } else {
      NothingToCopy(dopyK, dopyV);
      ShapeKeeps(dopyK, dopyV, Leaf, Leaf);
    }
  }
}
