/** Rebuilding a binary tree from its preorder and inorder traversals (lc/binaryTree.cpp). */
module DeduceTree {
  import opened Common

  datatype Tree = Leaf | Node(val: int, left: Tree, right: Tree)

  function Preorder(t: Tree): seq<int> {
    match t
    case Leaf => []
    case Node(v, l, r) => [v] + Preorder(l) + Preorder(r)
  }

  function Inorder(t: Tree): seq<int> {
    match t
    case Leaf => []
    case Node(v, l, r) => Inorder(l) + [v] + Inorder(r)
  }

  function Size(t: Tree): nat {
    match t
    case Leaf => 0
    case Node(_, l, r) => 1 + Size(l) + Size(r)
  }

  /** The index of the first `v`, or the length. */
  function IndexOf(s: seq<int>, v: int): (i: nat)
    ensures i <= |s| && (i < |s| ==> s[i] == v) && forall j :: 0 <= j < i ==> s[j] != v
  {
    if s == [] || s[0] == v then 0 else 1 + IndexOf(s[1..], v)
  }

  function Cut(n: nat, s: seq<int>): nat { if n < |s| then n else |s| }

  /** What deduceTree builds; the root stays at the end of the left inorder part. */
  function Deduce(preorder: seq<int>, inorder: seq<int>): Tree
    decreases |preorder|
  {
    if preorder == [] || inorder == [] then Leaf
    else
      var mid := IndexOf(inorder, preorder[0]);
      var p, i := Cut(mid + 1, preorder), Cut(mid + 1, inorder);
      Node(preorder[0], Deduce(preorder[1..p], inorder[..i]), Deduce(preorder[p..], inorder[i..]))
  }

  lemma DeduceStep(preorder: seq<int>, inorder: seq<int>, mid: nat)
    requires preorder != [] && inorder != [] && mid == IndexOf(inorder, preorder[0])
    ensures var p, i := Cut(mid + 1, preorder), Cut(mid + 1, inorder);
      Deduce(preorder, inorder)
        == Node(preorder[0], Deduce(preorder[1..p], inorder[..i]), Deduce(preorder[p..], inorder[i..]))
  {
  }

  // ---------- when it inverts the traversals ----------

  /** No value occurs again in the left subtree under it. */
  predicate LeftFree(t: Tree) {
    t.Node? ==> t.val !in Inorder(t.left) && LeftFree(t.left) && LeftFree(t.right)
  }

  lemma {:induction false} Lengths(t: Tree)
    ensures |Preorder(t)| == |Inorder(t)| == Size(t)
  {
    if t.Node? { Lengths(t.left); Lengths(t.right); }
  }

  lemma {:induction false} DeduceSize(preorder: seq<int>, inorder: seq<int>)
    ensures Size(Deduce(preorder, inorder)) <= |preorder|
    decreases |preorder|
  {
    if preorder != [] && inorder != [] {
      var mid := IndexOf(inorder, preorder[0]);
      var p, i := Cut(mid + 1, preorder), Cut(mid + 1, inorder);
      var lp, rp, li, ri := preorder[1..p], preorder[p..], inorder[..i], inorder[i..];
      DeduceStep(preorder, inorder, mid);
      assert |lp| + |rp| + 1 == |preorder|;
      DeduceSize(lp, li);
      DeduceSize(rp, ri);
    }
  }

  lemma IndexOfFirst(s: seq<int>, v: int, rest: seq<int>)
    requires v !in s
    ensures IndexOf(s + [v] + rest, v) == |s|
  {
    var all := s + [v] + rest;
    assert all[|s|] == v && forall i :: 0 <= i < |s| ==> all[i] == s[i];
  }

  lemma IndexOfEarlier(s: seq<int>, v: int, rest: seq<int>)
    requires v in s
    ensures IndexOf(s + rest, v) < |s|
  {
    var j :| 0 <= j < |s| && s[j] == v;
    assert (s + rest)[j] == v;
  }

  /** deduceTree inverts the traversals of a tree exactly when no value occurs again in the left subtree
      under it.  `junk` is what the callers leave after a subtree's own inorder. */
  lemma {:induction false} DeduceInverts(t: Tree, junk: seq<int>)
    ensures Deduce(Preorder(t), Inorder(t) + junk) == t <==> LeftFree(t)
  {
    match t
    case Leaf =>
    case Node(v, l, r) =>
      Lengths(l);
      if v in Inorder(l) {
        TooEarly(v, l, r, junk);
      } else {
        SplitAtRoot(v, l, r, junk);
        DeduceInverts(l, [v]);
        DeduceInverts(r, junk);
      }
  }

  lemma SplitAtRoot(v: int, l: Tree, r: Tree, junk: seq<int>)
    requires v !in Inorder(l) && |Preorder(l)| == |Inorder(l)|
    ensures Deduce(Preorder(Node(v, l, r)), Inorder(Node(v, l, r)) + junk)
         == Node(v, Deduce(Preorder(l), Inorder(l) + [v]), Deduce(Preorder(r), Inorder(r) + junk))
  {
    var pre, ino := Preorder(Node(v, l, r)), Inorder(Node(v, l, r)) + junk;
    var n := |Inorder(l)|;
    assert ino == Inorder(l) + [v] + (Inorder(r) + junk);
    IndexOfFirst(Inorder(l), v, Inorder(r) + junk);
    assert pre[1..n + 1] == Preorder(l) && pre[n + 1..] == Preorder(r);
    assert ino[..n + 1] == Inorder(l) + [v] && ino[n + 1..] == Inorder(r) + junk;
  }

  /** The left part is never larger than the position of the root. */
  lemma LeftIsSmall(preorder: seq<int>, inorder: seq<int>)
    requires preorder != [] && inorder != []
    ensures var d := Deduce(preorder, inorder); d.Node? && Size(d.left) <= IndexOf(inorder, preorder[0])
  {
    var mid := IndexOf(inorder, preorder[0]);
    DeduceSize(preorder[1..Cut(mid + 1, preorder)], inorder[..Cut(mid + 1, inorder)]);
  }

  lemma TooEarly(v: int, l: Tree, r: Tree, junk: seq<int>)
    requires v in Inorder(l) && Size(l) == |Inorder(l)|
    ensures Deduce(Preorder(Node(v, l, r)), Inorder(Node(v, l, r)) + junk) != Node(v, l, r)
  {
    var pre, ino := Preorder(Node(v, l, r)), Inorder(Node(v, l, r)) + junk;
    assert ino == Inorder(l) + ([v] + Inorder(r) + junk);
    IndexOfEarlier(Inorder(l), v, [v] + Inorder(r) + junk);
    assert pre[0] == v;
    LeftIsSmall(pre, ino);
  }

  lemma {:induction false} DistinctIsLeftFree(t: Tree)
    requires Distinct(Inorder(t))
    ensures LeftFree(t)
  {
    if t.Node? {
      var s, n := Inorder(t), |Inorder(t.left)|;
      assert s[n] == t.val && s[..n] == Inorder(t.left) && s[n + 1..] == Inorder(t.right);
      forall i | 0 <= i < n
        ensures Inorder(t.left)[i] != t.val
      {
        assert s[i] == s[..n][i];
      }
      SubDistinct(s, 0, n);
      SubDistinct(s, n + 1, |s|);
      DistinctIsLeftFree(t.left);
      DistinctIsLeftFree(t.right);
    }
  }

  lemma SubDistinct(s: seq<int>, lo: nat, hi: nat)
    requires Distinct(s) && lo <= hi <= |s|
    ensures Distinct(s[lo..hi])
    ensures hi == |s| ==> Distinct(s[lo..])
  {
  }

  /** A tree with distinct values is rebuilt, so its two traversals determine it. */
  lemma TraversalsDetermineTree(t: Tree, u: Tree)
    requires Distinct(Inorder(t)) && Preorder(t) == Preorder(u) && Inorder(t) == Inorder(u)
    ensures Deduce(Preorder(t), Inorder(t)) == t && t == u
  {
    DistinctIsLeftFree(t);
    DistinctIsLeftFree(u);
    DeduceInverts(t, []);
    DeduceInverts(u, []);
    assert Inorder(t) + [] == Inorder(t);
  }

  /** A value that occurs again in the left subtree under it: the tree is not rebuilt. */
  lemma RepeatedLeftIsLost()
    ensures var t := Node(1, Node(1, Leaf, Leaf), Leaf); Deduce(Preorder(t), Inorder(t)) != t
  {
    var t := Node(1, Node(1, Leaf, Leaf), Leaf);
    assert 1 in Inorder(t.left);
    assert !LeftFree(t);
    DeduceInverts(t, []);
    assert Inorder(t) + [] == Inorder(t);
  }

  // ---------- other inputs ----------

  /** There is no tree exactly when one of the vectors is empty. */
  lemma EmptyIffLeaf(preorder: seq<int>, inorder: seq<int>)
    ensures Deduce(preorder, inorder) == Leaf <==> preorder == [] || inorder == []
  {
  }

  /** On any two nonempty vectors the first preorder value is the root.  If it does not occur in the inorder,
      the whole inorder goes to the left with as many preorder values, and the right side stays empty. */
  lemma AbsentRoot(preorder: seq<int>, inorder: seq<int>)
    requires preorder != [] && inorder != []
    ensures Deduce(preorder, inorder).Node? && Deduce(preorder, inorder).val == preorder[0]
    ensures preorder[0] !in inorder ==>
      Deduce(preorder, inorder) == Node(preorder[0], Deduce(preorder[1..Min(|inorder| + 1, |preorder|)], inorder), Leaf)
  {
    var mid := IndexOf(inorder, preorder[0]);
    DeduceStep(preorder, inorder, mid);
    if preorder[0] !in inorder {
      assert mid == |inorder|;
      assert inorder[..|inorder|] == inorder;
    }
  }

  // ---------- the code ----------

  class TreeNode {
    var val: int
    var left: TreeNode?
    var right: TreeNode?
    ghost var repr: set<object>

    constructor (x: int)
      ensures val == x && left == null && right == null && repr == {this}
    {
      val, left, right, repr := x, null, null, {this};
    }

    /** Lines 53-54: the subtrees, built from fresh nodes of their own, become this node's. */
    method Link(l: TreeNode?, r: TreeNode?)
      requires l != null ==> l.Valid() && this !in l.repr
      requires r != null ==> r.Valid() && this !in r.repr
      modifies this
      ensures Valid() && val == old(val)
      ensures repr == {this} + (if l == null then {} else old(l.repr)) + (if r == null then {} else old(r.repr))
      ensures Abs() == Node(val, if l == null then Leaf else old(l.Abs()), if r == null then Leaf else old(r.Abs()))
    {
      left := l;
      right := r;
      repr := {this} + (if l == null then {} else l.repr) + (if r == null then {} else r.repr);
    }

    ghost predicate Valid()
      reads this, repr
      decreases repr
    {
      && this in repr
      && (left != null ==> left in repr && left.repr <= repr && this !in left.repr && left.Valid())
      && (right != null ==> right in repr && right.repr <= repr && this !in right.repr && right.Valid())
    }

    ghost function Abs(): Tree
      requires Valid()
      reads this, repr
      decreases repr
    {
      Node(val, if left == null then Leaf else left.Abs(), if right == null then Leaf else right.Abs())
    }
  }

  /** The two loops of lines 37-51: the first elements go left, as far as `mid`. */
  method SplitAt(s: seq<int>, from: nat, mid: nat) returns (left: seq<int>, right: seq<int>)
    requires from <= 1 && from <= |s|
    ensures var c := Cut(mid + 1, s); left == s[from..c] && right == s[c..]
  {
    left, right := [], [];
    var i := from;
    while i < |s|
      invariant from <= i <= |s|
      invariant if i <= mid + 1 then left == s[from..i] && right == [] else left == s[from..mid + 1] && right == s[mid + 1..i]
    {
      if i <= mid { left := left + [s[i]]; } else { right := right + [s[i]]; }
      i := i + 1;
    }
  }

  /** Lines 24-28. */
  method FindRoot(inorder: seq<int>, v: int) returns (mid: nat)
    ensures mid == IndexOf(inorder, v)
  {
    mid := 0;
    while mid < |inorder| && inorder[mid] != v
      invariant 0 <= mid <= |inorder|
      invariant forall j :: 0 <= j < mid ==> inorder[j] != v
    {
      mid := mid + 1;
    }
  }

  /** Lines 24-51: the four vectors of the two calls to come. */
  method SplitAtRootOf(preorder: seq<int>, inorder: seq<int>)
    returns (leftPre: seq<int>, rightPre: seq<int>, leftIn: seq<int>, rightIn: seq<int>)
    requires preorder != [] && inorder != []
    ensures Deduce(preorder, inorder) == Node(preorder[0], Deduce(leftPre, leftIn), Deduce(rightPre, rightIn))
    ensures |leftPre| < |preorder| && |rightPre| < |preorder|
  {
    var mid := FindRoot(inorder, preorder[0]);
    leftPre, rightPre := SplitAt(preorder, 1, mid);
    leftIn, rightIn := SplitAt(inorder, 0, mid);
    DeduceStep(preorder, inorder, mid);
    assert inorder[0..Cut(mid + 1, inorder)] == inorder[..Cut(mid + 1, inorder)];
  }

  /** deduceTree, on any two vectors: the nodes are new and form the tree of `Deduce`. */
  method BuildTree(preorder: seq<int>, inorder: seq<int>) returns (root: TreeNode?)
    ensures root == null ==> Deduce(preorder, inorder) == Leaf
    ensures root != null ==> root.Valid() && fresh(root.repr) && root.Abs() == Deduce(preorder, inorder)
    decreases |preorder|
  {
    if |preorder| == 0 || |inorder| == 0 { return null; }
    var node := new TreeNode(preorder[0]);
    var leftPre, rightPre, leftIn, rightIn := SplitAtRootOf(preorder, inorder);
    var l := BuildTree(leftPre, leftIn);
    var r := BuildTree(rightPre, rightIn);
    node.Link(l, r);
    root := node;
  }
}
