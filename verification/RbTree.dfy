/** The linked red-black tree of app/rbtree.c: rotations, insert and erase fix-up,
    successor search and node replacement, on nodes with parent pointers.

    `Links` says that the heap holds a given tree below a node, `CtxLinks` that it holds a
    given context above it, and `Focus` both. Each heap operation moves a Focus from one
    shape to another; what the shapes have to do with each other (same nodes, same order,
    black heights) is proved about the shapes alone. */
module RbTree {
  import opened RbShape

  /** struct rb_root. */
  class RbRoot {
    var node: RbNode?
    ghost var tree: Tree

    ghost predicate Valid()
      reads this, Nodes(tree)
    {
      Links(node, null, tree) && Distinct(tree) && RedBlack(tree)
    }

    constructor ()
      ensures Valid() && tree == Leaf
    {
      node, tree := null, Leaf;
    }
  }

  function Parent(c: Ctx): RbNode? {
    if c.Top? then null else c.node
  }

  /** The linked nodes below `p` form `t`, and the parent of `p` is `par`. */
  ghost predicate Links(p: RbNode?, par: RbNode?, t: Tree)
    reads Nodes(t)
    decreases t
  {
    match t
    case Leaf => p == null
    case Node(l, n, red, r) =>
      && p == n && n.parent == par && n.red == red
      && Links(n.left, n, l) && Links(n.right, n, r)
  }

  /** The linked nodes around the link that holds `hole` form `c`. */
  ghost predicate CtxLinks(root: RbRoot, c: Ctx, hole: RbNode?)
    reads root, CtxNodes(c)
    decreases c
  {
    match c
    case Top => root.node == hole
    case InLeft(up, n, red, s) =>
      && n.left == hole && n.parent == Parent(up) && n.red == red
      && Links(n.right, n, s) && CtxLinks(root, up, n)
    case InRight(up, n, red, s) =>
      && n.right == hole && n.parent == Parent(up) && n.red == red
      && Links(n.left, n, s) && CtxLinks(root, up, n)
  }

  ghost predicate Apart(c: Ctx, t: Tree) {
    CtxDistinct(c) && Distinct(t) && CtxNodes(c) !! Nodes(t)
  }

  /** The whole linked tree is `c` with `t` in its hole, and `p` is the link there. */
  ghost predicate Focus(root: RbRoot, c: Ctx, p: RbNode?, t: Tree)
    reads root, CtxNodes(c), Nodes(t)
  {
    Apart(c, t) && CtxLinks(root, c, p) && Links(p, Parent(c), t)
  }

  /** One step up: the frame becomes part of the subtree. */
  lemma Up(root: RbRoot, c: Ctx, p: RbNode?, t: Tree)
    requires Focus(root, c, p, t) && !c.Top?
    ensures Focus(root, c.up, c.node, Fill(c, t))
    ensures CtxNodes(c) + Nodes(t) == CtxNodes(c.up) + Nodes(Fill(c, t))
  {
  }

  lemma DownLeft(root: RbRoot, c: Ctx, p: RbNode, t: Tree)
    requires Focus(root, c, p, t) && t.Node?
    ensures p == t.node && Focus(root, InLeft(c, p, t.red, t.right), p.left, t.left)
    ensures CtxNodes(c) + Nodes(t) == CtxNodes(InLeft(c, p, t.red, t.right)) + Nodes(t.left)
  {
  }

  lemma DownRight(root: RbRoot, c: Ctx, p: RbNode, t: Tree)
    requires Focus(root, c, p, t) && t.Node?
    ensures p == t.node && Focus(root, InRight(c, p, t.red, t.left), p.right, t.right)
    ensures CtxNodes(c) + Nodes(t) == CtxNodes(InRight(c, p, t.red, t.left)) + Nodes(t.right)
  {
  }

  /** All the way up: the links from the root form the plugged tree. */
  lemma {:induction false} UpToTop(root: RbRoot, c: Ctx, p: RbNode?, t: Tree)
    requires Focus(root, c, p, t)
    ensures Links(root.node, null, Plug(c, t)) && Distinct(Plug(c, t))
    ensures Nodes(Plug(c, t)) == CtxNodes(c) + Nodes(t)
    decreases c
  {
    if !c.Top? {
      Up(root, c, p, t);
      UpToTop(root, c.up, c.node, Fill(c, t));
    }
  }

  /** All the way down to any position. */
  lemma {:induction false} DownTo(root: RbRoot, c: Ctx, t: Tree) returns (p: RbNode?)
    requires Links(root.node, null, Plug(c, t)) && Distinct(Plug(c, t))
    ensures Focus(root, c, p, t)
    decreases c
  {
    if c.Top? {
      p := root.node;
    } else {
      var n := DownTo(root, c.up, Fill(c, t));
      if c.InLeft? {
        DownLeft(root, c.up, n, Fill(c, t));
        p := n.left;
      } else {
        DownRight(root, c.up, n, Fill(c, t));
        p := n.right;
      }
    }
  }

  /* Rotations and colour changes at the focus. */

  function RotatedLeft(t: Tree): Tree
    requires t.Node? && t.right.Node?
  {
    var r := t.right;
    Node(Node(t.left, t.node, t.red, r.left), r.node, r.red, r.right)
  }

  function RotatedRight(t: Tree): Tree
    requires t.Node? && t.left.Node?
  {
    var l := t.left;
    Node(l.left, l.node, l.red, Node(l.right, t.node, t.red, t.right))
  }

  lemma Regroup<T>(a: seq<T>, x: T, b: seq<T>, y: T, c: seq<T>)
    ensures a + [x] + (b + [y] + c) == (a + [x] + b) + [y] + c
  {
  }

  lemma RotatedLeftShape(t: Tree)
    requires t.Node? && t.right.Node? && Distinct(t)
    ensures Distinct(RotatedLeft(t)) && Nodes(RotatedLeft(t)) == Nodes(t)
    ensures InOrder(RotatedLeft(t)) == InOrder(t)
  {
    RotatedLeftNodes(t);
    Regroup(InOrder(t.left), t.node, InOrder(t.right.left), t.right.node, InOrder(t.right.right));
  }

  lemma RotatedLeftNodes(t: Tree)
    requires t.Node? && t.right.Node? && Distinct(t)
    ensures Distinct(RotatedLeft(t)) && Nodes(RotatedLeft(t)) == Nodes(t)
  {
    assert Distinct(t.right);
  }

  lemma RotatedRightShape(t: Tree)
    requires t.Node? && t.left.Node? && Distinct(t)
    ensures Distinct(RotatedRight(t)) && Nodes(RotatedRight(t)) == Nodes(t)
    ensures InOrder(RotatedRight(t)) == InOrder(t)
  {
    RotatedRightNodes(t);
    Regroup(InOrder(t.left.left), t.left.node, InOrder(t.left.right), t.node, InOrder(t.right));
  }

  lemma RotatedRightNodes(t: Tree)
    requires t.Node? && t.left.Node? && Distinct(t)
    ensures Distinct(RotatedRight(t)) && Nodes(RotatedRight(t)) == Nodes(t)
  {
    assert Distinct(t.left);
  }

  /** rb_set_parent on a subtree root. */
  method SetParent(n: RbNode?, par: RbNode?, ghost was: RbNode?, ghost t: Tree)
    requires Links(n, was, t) && Distinct(t)
    modifies Nodes(t)
    ensures Links(n, par, t)
  {
    if n != null {
      n.parent := par;
    }
  }

  /** Makes the link that holds `was` hold `now`. */
  method SetLink(was: RbNode, now: RbNode?, parent: RbNode?, root: RbRoot, ghost c: Ctx)
    requires CtxDistinct(c) && CtxLinks(root, c, was) && was !in CtxNodes(c) && parent == Parent(c)
    modifies root`node, parent
    ensures CtxLinks(root, c, now)
  {
    if parent != null {
      if was == parent.left {
        parent.left := now;
      } else {
        parent.right := now;
      }
    } else {
      root.node := now;
    }
  }

  /** The part of _rb_rotate_left below the link that holds `node`. */
  method LiftRight(node: RbNode, ghost par: RbNode?, ghost t: Tree) returns (right: RbNode)
    requires Links(node, par, t) && Distinct(t) && t.Node? && t.right.Node?
    modifies Nodes(t)
    ensures right == old(node.right) && Links(right, par, RotatedLeft(t))
  {
    right := node.right;
    var parent := node.parent;
    assert Links(right, node, t.right) && Distinct(t.right);
    TakeInnerLeft(node, right, t.left, t.right.left, t.right.right);
    HangLeft(node, right, parent, t.left, t.right.left, t.right.right);
  }

  /** `node` becomes the left child of `right`. */
  method HangLeft(node: RbNode, right: RbNode, parent: RbNode?, ghost a: Tree, ghost b: Tree, ghost e: Tree)
    requires Links(node.left, node, a) && Links(node.right, node, b) && Links(right.right, right, e) && node != right
    requires {node, right} !! Nodes(a) + Nodes(b) + Nodes(e)
    modifies node`parent, right`parent, right`left
    ensures Links(right, parent, Node(Node(a, node, node.red, b), right, right.red, e))
  {
    right.left := node;
    right.parent := parent;
    node.parent := right;
  }

  /** `node` takes over the inner subtree of its right child. */
  method TakeInnerLeft(node: RbNode, right: RbNode, ghost a: Tree, ghost b: Tree, ghost e: Tree)
    requires Links(node.left, node, a) && Links(right.left, right, b) && Links(right.right, right, e) && node != right
    requires Distinct(b) && Nodes(b) !! Nodes(a) && Nodes(b) !! Nodes(e) && {node, right} !! Nodes(a) + Nodes(b) + Nodes(e)
    modifies node`right, Nodes(b)
    ensures Links(node.left, node, a) && Links(node.right, node, b) && Links(right.right, right, e)
  {
    assert allocated(Nodes(a)) && allocated(Nodes(b)) && allocated(Nodes(e));
    node.right := right.left;
    SetParent(right.left, node, right, b);
  }

  /** _rb_rotate_left at the focus. */
  method RotateLeft(node: RbNode, root: RbRoot, ghost c: Ctx, ghost t: Tree)
    requires Focus(root, c, node, t) && t.Node? && t.right.Node?
    modifies root, CtxNodes(c), Nodes(t)
    ensures Focus(root, c, old(node.right), RotatedLeft(t))
    ensures root.tree == old(root.tree)
  {
    RotatedLeftShape(t);
    assert allocated(CtxNodes(c)) && allocated(Nodes(t));
    var parent := node.parent;
    var right := LiftRight(node, parent, t);
    SetLink(node, right, parent, root, c);
  }

  /** The part of _rb_rotate_right below the link that holds `node`. */
  method LiftLeft(node: RbNode, ghost par: RbNode?, ghost t: Tree) returns (left: RbNode)
    requires Links(node, par, t) && Distinct(t) && t.Node? && t.left.Node?
    modifies Nodes(t)
    ensures left == old(node.left) && Links(left, par, RotatedRight(t))
  {
    left := node.left;
    var parent := node.parent;
    assert Links(left, node, t.left) && Distinct(t.left);
    TakeInnerRight(node, left, t.right, t.left.right, t.left.left);
    HangRight(node, left, parent, t.right, t.left.right, t.left.left);
  }

  /** `node` becomes the right child of `left`. */
  method HangRight(node: RbNode, left: RbNode, parent: RbNode?, ghost a: Tree, ghost b: Tree, ghost e: Tree)
    requires Links(node.right, node, a) && Links(node.left, node, b) && Links(left.left, left, e) && node != left
    requires {node, left} !! Nodes(a) + Nodes(b) + Nodes(e)
    modifies node`parent, left`parent, left`right
    ensures Links(left, parent, Node(e, left, left.red, Node(b, node, node.red, a)))
  {
    left.right := node;
    left.parent := parent;
    node.parent := left;
  }

  /** `node` takes over the inner subtree of its left child. */
  method TakeInnerRight(node: RbNode, left: RbNode, ghost a: Tree, ghost b: Tree, ghost e: Tree)
    requires Links(node.right, node, a) && Links(left.right, left, b) && Links(left.left, left, e) && node != left
    requires Distinct(b) && Nodes(b) !! Nodes(a) && Nodes(b) !! Nodes(e) && {node, left} !! Nodes(a) + Nodes(b) + Nodes(e)
    modifies node`left, Nodes(b)
    ensures Links(node.right, node, a) && Links(node.left, node, b) && Links(left.left, left, e)
  {
    assert allocated(Nodes(a)) && allocated(Nodes(b)) && allocated(Nodes(e));
    node.left := left.right;
    SetParent(left.right, node, left, b);
  }

  /** _rb_rotate_right at the focus. */
  method RotateRight(node: RbNode, root: RbRoot, ghost c: Ctx, ghost t: Tree)
    requires Focus(root, c, node, t) && t.Node? && t.left.Node?
    modifies root, CtxNodes(c), Nodes(t)
    ensures Focus(root, c, old(node.left), RotatedRight(t))
    ensures root.tree == old(root.tree)
  {
    RotatedRightShape(t);
    assert allocated(CtxNodes(c)) && allocated(Nodes(t));
    var parent := node.parent;
    var left := LiftLeft(node, parent, t);
    SetLink(node, left, parent, root, c);
  }

  method SetColor(node: RbNode, red: bool, root: RbRoot, ghost c: Ctx, ghost t: Tree)
    requires Focus(root, c, node, t)
    modifies node`red
    ensures Focus(root, c, node, t.(red := red))
    ensures t.Node?
  {
    node.red := red;
  }

  method PaintLeft(parent: RbNode, red: bool, root: RbRoot, ghost up: Ctx, ghost t: Tree)
    requires Focus(root, up, parent, t) && t.Node? && t.left.Node?
    modifies t.left.node`red
    ensures Focus(root, up, parent, t.(left := t.left.(red := red)))
  {
    ghost var c := InLeft(up, parent, t.red, t.right);
    DownLeft(root, up, parent, t);
    SetColor(parent.left, red, root, c, t.left);
    Up(root, c, parent.left, t.left.(red := red));
  }

  method PaintRight(parent: RbNode, red: bool, root: RbRoot, ghost up: Ctx, ghost t: Tree)
    requires Focus(root, up, parent, t) && t.Node? && t.right.Node?
    modifies t.right.node`red
    ensures Focus(root, up, parent, t.(right := t.right.(red := red)))
  {
    ghost var c := InRight(up, parent, t.red, t.left);
    DownRight(root, up, parent, t);
    SetColor(parent.right, red, root, c, t.right);
    Up(root, c, parent.right, t.right.(red := red));
  }

  /* rb_insert_color. */

  /** Parent and uncle become black and the grandparent red. */
  function Recolored(t: Tree): Tree
    requires t.Node?
  {
    Node(Blacken(t.left), t.node, true, Blacken(t.right))
  }

  method Recolor(parent: RbNode, uncle: RbNode, gparent: RbNode, ghost par: RbNode?, ghost t: Tree)
    requires Links(gparent, par, t) && Distinct(t) && t.left.Node? && t.right.Node?
    requires {parent, uncle} == {t.left.node, t.right.node}
    modifies Nodes(t)
    ensures Links(gparent, par, Recolored(t))
  {
    assert Links(gparent.left, gparent, t.left) && Links(gparent.right, gparent, t.right);
    assert Distinct(t.left) && Distinct(t.right);
    uncle.red := false;
    parent.red := false;
    gparent.red := true;
    assert Links(gparent.left, gparent, Blacken(t.left)) && Links(gparent.right, gparent, Blacken(t.right));
  }

  /** The tree at the grandparent after the rotations for a left parent; `inner` says that the
      new node was the parent's right child. */
  function FixedLeft(t: Tree, inner: bool): Tree
    requires t.Node? && t.left.Node? && (inner ==> t.left.right.Node?)
  {
    var p := if inner then RotatedLeft(t.left) else t.left;
    RotatedRight(Node(Blacken(p), t.node, true, t.right))
  }

  function FixedRight(t: Tree, inner: bool): Tree
    requires t.Node? && t.right.Node? && (inner ==> t.right.left.Node?)
  {
    var p := if inner then RotatedRight(t.right) else t.right;
    RotatedLeft(Node(t.left, t.node, true, Blacken(p)))
  }

  method FixLeft(parent0: RbNode, gparent: RbNode, inner: bool, root: RbRoot, ghost up: Ctx, ghost t: Tree)
    requires Focus(root, up, gparent, t) && t.left.Node? && t.left.node == parent0
    requires if inner then t.left.right.Node? else t.left.left.Node?
    modifies root, CtxNodes(up), Nodes(t)
    ensures var f := FixedLeft(t, inner);
      Focus(root, InLeft(up, f.node, f.red, f.right), if inner then parent0 else t.left.left.node, f.left)
    ensures root.tree == old(root.tree)
  {
    var parent := parent0;
    DownLeft(root, up, gparent, t);
    ghost var c, p := InLeft(up, gparent, t.red, t.right), t.left;
    if inner {
      var node := parent.right;
      RotatedLeftShape(p);
      RotateLeft(parent, root, c, p);
      parent, p := node, RotatedLeft(p);
    }
    SetColor(parent, false, root, c, p);
    Up(root, c, parent, Blacken(p));
    SetColor(gparent, true, root, up, Fill(c, Blacken(p)));
    RotateRight(gparent, root, up, Node(Blacken(p), gparent, true, t.right));
    DownLeft(root, up, parent, FixedLeft(t, inner));
  }

  method FixRight(parent0: RbNode, gparent: RbNode, inner: bool, root: RbRoot, ghost up: Ctx, ghost t: Tree)
    requires Focus(root, up, gparent, t) && t.right.Node? && t.right.node == parent0
    requires if inner then t.right.left.Node? else t.right.right.Node?
    modifies root, CtxNodes(up), Nodes(t)
    ensures var f := FixedRight(t, inner);
      Focus(root, InRight(up, f.node, f.red, f.left), if inner then parent0 else t.right.right.node, f.right)
    ensures root.tree == old(root.tree)
  {
    var parent := parent0;
    DownRight(root, up, gparent, t);
    ghost var c, p := InRight(up, gparent, t.red, t.left), t.right;
    if inner {
      var node := parent.left;
      RotatedRightShape(p);
      RotateRight(parent, root, c, p);
      parent, p := node, RotatedRight(p);
    }
    SetColor(parent, false, root, c, p);
    Up(root, c, parent, Blacken(p));
    SetColor(gparent, true, root, up, Fill(c, Blacken(p)));
    RotateLeft(gparent, root, up, Node(t.left, gparent, true, Blacken(p)));
    DownRight(root, up, parent, FixedRight(t, inner));
  }

  lemma FixedLeftShape(t: Tree, inner: bool)
    requires t.Node? && t.left.Node? && (inner ==> t.left.right.Node?) && Distinct(t)
    ensures Nodes(FixedLeft(t, inner)) == Nodes(t) && InOrder(FixedLeft(t, inner)) == InOrder(t)
  {
    if inner {
      RotatedLeftShape(t.left);
    }
    var p := if inner then RotatedLeft(t.left) else t.left;
    RotatedRightShape(Node(Blacken(p), t.node, true, t.right));
  }

  lemma FixedRightShape(t: Tree, inner: bool)
    requires t.Node? && t.right.Node? && (inner ==> t.right.left.Node?) && Distinct(t)
    ensures Nodes(FixedRight(t, inner)) == Nodes(t) && InOrder(FixedRight(t, inner)) == InOrder(t)
  {
    if inner {
      RotatedRightShape(t.right);
    }
    var p := if inner then RotatedRight(t.right) else t.right;
    RotatedLeftShape(Node(t.left, t.node, true, Blacken(p)));
  }

  ghost function Sequence(c: Ctx, t: Tree): seq<RbNode> {
    Before(c) + InOrder(t) + After(c)
  }

  lemma FillSequence(c: Ctx, t: Tree)
    requires !c.Top?
    ensures Sequence(c, t) == Sequence(c.up, Fill(c, t))
  {
    if c.InLeft? {
      assert InOrder(Fill(c, t)) + After(c.up) == InOrder(t) + After(c);
    } else {
      assert Before(c.up) + InOrder(Fill(c, t)) == Before(c) + InOrder(t);
    }
  }

  /** The subtree two levels above the hole. */
  function Grand(c: Ctx, t: Tree): Tree
    requires !c.Top? && !c.up.Top?
  {
    Fill(c.up, Fill(c, t))
  }

  /** The shape of the insert loop's state: only the edge above the hole may join two red nodes. */
  ghost predicate Pending(c: Ctx, t: Tree, h: nat) {
    IsRed(t) && Balanced(t, h) && CtxOk(c, h)
  }

  lemma RecoloredShape(t: Tree)
    requires t.Node? && Distinct(t)
    ensures Distinct(Recolored(t)) && Nodes(Recolored(t)) == Nodes(t) && InOrder(Recolored(t)) == InOrder(t)
  {
  }

  lemma RecoloredPending(c: Ctx, t: Tree, h: nat)
    requires Pending(c, t, h) && !c.Top? && c.red && IsRed(c.up.sib)
    ensures Pending(c.up.up, Recolored(Grand(c, t)), h + 1)
  {
    assert CtxOk(c.up, h);
    assert Balanced(Blacken(Fill(c, t)), h + 1);
    assert Balanced(Blacken(c.up.sib), h + 1);
  }

  lemma FixedLeftPending(c: Ctx, t: Tree, h: nat)
    requires Pending(c, t, h) && !c.Top? && c.red && c.up.InLeft? && !IsRed(c.up.sib) && Distinct(Grand(c, t))
    ensures var f := FixedLeft(Grand(c, t), c.InRight?);
      var c' := InLeft(c.up.up, f.node, f.red, f.right);
      && f.left.Node? && Pending(c', f.left, h)
      && Sequence(c', f.left) == Sequence(c.up.up, Grand(c, t))
      && CtxNodes(c') + Nodes(f.left) == CtxNodes(c.up.up) + Nodes(Grand(c, t))
  {
    var f := FixedLeft(Grand(c, t), c.InRight?);
    FixedLeftShape(Grand(c, t), c.InRight?);
    FillSequence(InLeft(c.up.up, f.node, f.red, f.right), f.left);
    assert CtxOk(c.up, h);
    assert Balanced(f.left, h);
    assert Balanced(f.right, h);
  }

  lemma FixedRightPending(c: Ctx, t: Tree, h: nat)
    requires Pending(c, t, h) && !c.Top? && c.red && c.up.InRight? && !IsRed(c.up.sib) && Distinct(Grand(c, t))
    ensures var f := FixedRight(Grand(c, t), c.InLeft?);
      var c' := InRight(c.up.up, f.node, f.red, f.left);
      && f.right.Node? && Pending(c', f.right, h)
      && Sequence(c', f.right) == Sequence(c.up.up, Grand(c, t))
      && CtxNodes(c') + Nodes(f.right) == CtxNodes(c.up.up) + Nodes(Grand(c, t))
  {
    var f := FixedRight(Grand(c, t), c.InLeft?);
    FixedRightShape(Grand(c, t), c.InLeft?);
    FillSequence(InRight(c.up.up, f.node, f.red, f.left), f.right);
    assert CtxOk(c.up, h);
    assert Balanced(f.left, h);
    assert Balanced(f.right, h);
  }

  lemma UpTwice(root: RbRoot, c: Ctx, p: RbNode, t: Tree)
    requires Focus(root, c, p, t) && !c.Top? && !c.up.Top?
    ensures Focus(root, c.up.up, c.up.node, Grand(c, t))
    ensures Sequence(c, t) == Sequence(c.up.up, Grand(c, t))
    ensures CtxNodes(c) + Nodes(t) == CtxNodes(c.up.up) + Nodes(Grand(c, t))
  {
    Up(root, c, p, t);
    FillSequence(c, t);
    Up(root, c.up, c.node, Fill(c, t));
    FillSequence(c.up, Fill(c, t));
  }

  /** What the links above the focus say about its place. */
  lemma Kin(root: RbRoot, c: Ctx, node: RbNode, t: Tree)
    requires Focus(root, c, node, t) && !c.Top? && !c.up.Top?
    ensures c.node.parent == c.up.node
    ensures (c.up.node.left == c.node) == c.up.InLeft?
    ensures (c.node.left == node) == c.InLeft? && (c.node.right == node) == c.InRight?
    ensures var uncle := if c.up.InLeft? then c.up.node.right else c.up.node.left;
      (if uncle == null then c.up.sib.Leaf? else c.up.sib.Node? && uncle == c.up.sib.node && uncle.red == c.up.sib.red)
  {
    assert CtxLinks(root, c.up, c.node);
    assert CtxDistinct(c.up);
  }

  /** The round with a red uncle: the grandparent becomes the node to look at. */
  method RecolorStep(parent: RbNode, uncle: RbNode, gparent: RbNode, root: RbRoot, ghost c: Ctx, ghost t: Tree, ghost h: nat)
    requires !c.Top? && !c.up.Top? && Focus(root, c.up.up, gparent, Grand(c, t)) && Pending(c, t, h) && c.red
    requires c.node == parent && c.up.node == gparent && IsRed(c.up.sib) && uncle == c.up.sib.node
    modifies Nodes(Grand(c, t))
    ensures var g := Recolored(Grand(c, t)); Focus(root, c.up.up, gparent, g) && Pending(c.up.up, g, h + 1) && Nodes(g) == Nodes(Grand(c, t)) && InOrder(g) == InOrder(Grand(c, t))
  {
    RecoloredPending(c, t, h);
    RecoloredShape(Grand(c, t));
    assert allocated(CtxNodes(c.up.up));
    Recolor(parent, uncle, gparent, Parent(c.up.up), Grand(c, t));
  }

  /** One round of rb_insert_color's loop when the parent is a left child. */
  method InsertStepLeft(node0: RbNode, parent: RbNode, gparent: RbNode, root: RbRoot, ghost c0: Ctx, ghost t0: Tree, ghost h0: nat)
    returns (node: RbNode, ghost c: Ctx, ghost t: Tree, ghost h: nat)
    requires Focus(root, c0, node0, t0) && Pending(c0, t0, h0) && !c0.Top? && c0.red && c0.up.InLeft?
    requires c0.node == parent && c0.up.node == gparent
    modifies root, CtxNodes(c0), Nodes(t0)
    ensures Focus(root, c, node, t) && Pending(c, t, h) && Depth(c) < Depth(c0)
    ensures Sequence(c, t) == Sequence(c0, t0)
    ensures CtxNodes(c) + Nodes(t) == CtxNodes(c0) + Nodes(t0)
    ensures root.tree == old(root.tree)
  {
    ghost var up, g := c0.up.up, Grand(c0, t0);
    Kin(root, c0, node0, t0);
    UpTwice(root, c0, node0, t0);
    var uncle := gparent.right;
    if uncle != null && uncle.red {
      RecolorStep(parent, uncle, gparent, root, c0, t0, h0);
      node, c, t, h := gparent, up, Recolored(g), h0 + 1;
    } else {
      var inner := parent.right == node0;
      FixedLeftPending(c0, t0, h0);
      FixLeft(parent, gparent, inner, root, up, g);
      ghost var f := FixedLeft(g, inner);
      node, c, t, h := if inner then parent else node0, InLeft(up, f.node, f.red, f.right), f.left, h0;
    }
  }

  /** One round of rb_insert_color's loop when the parent is a right child. */
  method InsertStepRight(node0: RbNode, parent: RbNode, gparent: RbNode, root: RbRoot, ghost c0: Ctx, ghost t0: Tree, ghost h0: nat)
    returns (node: RbNode, ghost c: Ctx, ghost t: Tree, ghost h: nat)
    requires Focus(root, c0, node0, t0) && Pending(c0, t0, h0) && !c0.Top? && c0.red && c0.up.InRight?
    requires c0.node == parent && c0.up.node == gparent
    modifies root, CtxNodes(c0), Nodes(t0)
    ensures Focus(root, c, node, t) && Pending(c, t, h) && Depth(c) < Depth(c0)
    ensures Sequence(c, t) == Sequence(c0, t0)
    ensures CtxNodes(c) + Nodes(t) == CtxNodes(c0) + Nodes(t0)
    ensures root.tree == old(root.tree)
  {
    ghost var up, g := c0.up.up, Grand(c0, t0);
    Kin(root, c0, node0, t0);
    UpTwice(root, c0, node0, t0);
    var uncle := gparent.left;
    if uncle != null && uncle.red {
      RecolorStep(parent, uncle, gparent, root, c0, t0, h0);
      node, c, t, h := gparent, up, Recolored(g), h0 + 1;
    } else {
      var inner := parent.left == node0;
      FixedRightPending(c0, t0, h0);
      FixRight(parent, gparent, inner, root, up, g);
      ghost var f := FixedRight(g, inner);
      node, c, t, h := if inner then parent else node0, InRight(up, f.node, f.red, f.left), f.right, h0;
    }
  }

  method InsertColor(node0: RbNode, root: RbRoot, ghost c0: Ctx)
    requires Focus(root, c0, node0, Node(Leaf, node0, true, Leaf)) && CtxOk(c0, 0)
    modifies root, CtxNodes(c0), node0
    ensures root.Valid()
    ensures InOrder(root.tree) == Before(c0) + [node0] + After(c0)
    ensures Nodes(root.tree) == CtxNodes(c0) + {node0}
  {
    var node := node0;
    ghost var c, t, h := c0, Node(Leaf, node0, true, Leaf), 0;
    assert InOrder(t) == [node0];
    while node.parent != null && node.parent.red
      invariant Focus(root, c, node, t) && Pending(c, t, h)
      invariant Sequence(c, t) == Before(c0) + [node0] + After(c0)
      invariant CtxNodes(c) + Nodes(t) == CtxNodes(c0) + {node0}
      decreases Depth(c)
    {
      var parent := node.parent;
      var gparent := parent.parent;
      Kin(root, c, node, t);
      if parent == gparent.left {
        node, c, t, h := InsertStepLeft(node, parent, gparent, root, c, t, h);
      } else {
        node, c, t, h := InsertStepRight(node, parent, gparent, root, c, t, h);
      }
    }
    FinishInsert(node, root, c, t, h);
  }

  /** The end of rb_insert_color. */
  method FinishInsert(node: RbNode, root: RbRoot, ghost c: Ctx, ghost t: Tree, ghost h: nat)
    requires Focus(root, c, node, t) && Pending(c, t, h) && (node.parent == null || !node.parent.red)
    modifies root, CtxNodes(c), Nodes(t)
    ensures root.Valid() && InOrder(root.tree) == Sequence(c, t) && Nodes(root.tree) == CtxNodes(c) + Nodes(t)
  {
    UpToTop(root, c, node, t);
    InOrderPlug(c, t);
    if c.Top? {
      BalancedHeight(t, h);
    } else {
      PlugRedBlack(c, t, h);
    }
    root.node.red := false;
    root.tree := Blacken(Plug(c, t));
  }

  /* _rb_erase_color. */

  /** The shape of the erase loop's state: the hole of `c` is one black node short of what `c`
      expects, unless its root is red and can be blackened. */
  ghost predicate Short(c: Ctx, t: Tree, h: nat) {
    CtxOk(c, h + 1) && if IsRed(t) then Balanced(Blacken(t), h + 1) else Balanced(t, h)
  }

  lemma ColorShape(t: Tree, red: bool)
    requires t.Node?
    ensures Nodes(t.(red := red)) == Nodes(t) && InOrder(t.(red := red)) == InOrder(t)
    ensures Distinct(t.(red := red)) == Distinct(t)
  {
  }

  /** Black height expected one level up. */
  function Above(red: bool, h: nat): nat {
    if red then h + 1 else h + 2
  }

  /** `t` hangs below `up`, and its left subtree is one black node short. */
  ghost predicate ShortLeft(up: Ctx, t: Tree, h: nat) {
    && t.Node? && Balanced(t.left, h) && !IsRed(t.left) && Balanced(t.right, h + 1)
    && CtxOk(up, Above(t.red, h)) && (t.red ==> !IsRed(t.right) && !up.Top? && !up.red)
  }

  /** A red sibling is rotated above the parent. */
  method LowerRedSiblingLeft(parent: RbNode, root: RbRoot, ghost up: Ctx, ghost t: Tree)
    requires Focus(root, up, parent, t) && t.right.Node?
    modifies root, CtxNodes(up), Nodes(t)
    ensures Focus(root, InLeft(up, t.right.node, false, t.right.right), parent, Node(t.left, parent, true, t.right.left))
    ensures root.tree == old(root.tree)
  {
    var other := parent.right;
    ghost var c, b := InRight(up, parent, t.red, t.left), Blacken(t.right);
    DownRight(root, up, parent, t);
    SetColor(other, false, root, c, t.right);
    Up(root, c, other, b);
    SetColor(parent, true, root, up, Fill(c, b));
    ghost var t' := Node(t.left, parent, true, b);
    RotateLeft(parent, root, up, t');
    DownLeft(root, up, other, RotatedLeft(t'));
  }

  lemma LowerRedSiblingLeftShape(up: Ctx, t: Tree, h: nat)
    requires ShortLeft(up, t, h) && IsRed(t.right)
    ensures t.right.left.Node? && !IsRed(t.right.left)
    ensures var c, t' := InLeft(up, t.right.node, false, t.right.right), Node(t.left, t.node, true, t.right.left);
      ShortLeft(c, t', h) && Sequence(c, t') == Sequence(up, t) && CtxNodes(c) + Nodes(t') == CtxNodes(up) + Nodes(t)
  {
    var c, t' := InLeft(up, t.right.node, false, t.right.right), Node(t.left, t.node, true, t.right.left);
    FillSequence(c, t');
    assert Balanced(t.right.left, h + 1);
    Regroup(InOrder(t.left), t.node, InOrder(t.right.left), t.right.node, InOrder(t.right.right));
    assert InOrder(Fill(c, t')) == InOrder(t);
  }

  /** The sibling becomes red: the shortage moves up. */
  method RedSiblingLeft(parent: RbNode, root: RbRoot, ghost up: Ctx, ghost t: Tree)
    requires Focus(root, up, parent, t) && t.right.Node?
    modifies root, CtxNodes(up), Nodes(t)
    ensures Focus(root, up, parent, t.(right := t.right.(red := true)))
    ensures root.tree == old(root.tree)
  {
    PaintRight(parent, true, root, up, t);
  }

  lemma RedSiblingLeftShape(up: Ctx, t: Tree, h: nat)
    requires ShortLeft(up, t, h) && t.right.Node? && !t.right.red && !IsRed(t.right.left) && !IsRed(t.right.right)
    ensures var t' := t.(right := t.right.(red := true));
      && Short(up, t', if t.red then h else h + 1) && Nodes(t') == Nodes(t) && InOrder(t') == InOrder(t)
  {
    assert Balanced(t.right.(red := true), h);
  }

  /** A red near child of the sibling is rotated above it. */
  function NearLiftedLeft(o: Tree): Tree
    requires o.Node? && o.left.Node?
  {
    RotatedRight(o.(left := Blacken(o.left), red := true))
  }

  method LiftNearLeft(parent: RbNode, root: RbRoot, ghost up: Ctx, ghost t: Tree)
    requires Focus(root, up, parent, t) && t.right.Node? && t.right.left.Node?
    modifies root, CtxNodes(up), Nodes(t)
    ensures Focus(root, up, parent, t.(right := NearLiftedLeft(t.right)))
    ensures root.tree == old(root.tree)
  {
    var other := parent.right;
    ghost var c, o := InRight(up, parent, t.red, t.left), t.right;
    DownRight(root, up, parent, t);
    ghost var near := InLeft(c, other, o.red, o.right);
    DownLeft(root, c, other, o);
    SetColor(other.left, false, root, near, o.left);
    Up(root, near, other.left, Blacken(o.left));
    SetColor(other, true, root, c, Fill(near, Blacken(o.left)));
    RotateRight(other, root, c, o.(left := Blacken(o.left), red := true));
    Up(root, c, NearLiftedLeft(o).node, NearLiftedLeft(o));
  }

  lemma NearLiftedLeftShape(up: Ctx, t: Tree, h: nat)
    requires ShortLeft(up, t, h) && t.right.Node? && !t.right.red && IsRed(t.right.left) && !IsRed(t.right.right) && Distinct(t)
    ensures var o := NearLiftedLeft(t.right); var t' := t.(right := o);
      && ShortLeft(up, t', h) && !o.red && IsRed(o.right)
      && Nodes(t') == Nodes(t) && InOrder(t') == InOrder(t)
  {
    var o := t.right;
    ColorShape(o.left, false);
    assert Distinct(o) && Balanced(o.left, h) && Balanced(o.right, h);
    RotatedRightShape(o.(left := Blacken(o.left), red := true));
    assert Balanced(NearLiftedLeft(o).right, h) && Balanced(NearLiftedLeft(o).left, h);
  }

  /** The sibling's red far child pays for the shortage. */
  function PaidLeft(t: Tree): Tree
    requires t.Node? && t.right.Node?
  {
    RotatedLeft(t.(red := false, right := t.right.(red := t.red, right := Blacken(t.right.right))))
  }

  method PayLeft(parent: RbNode, root: RbRoot, ghost up: Ctx, ghost t: Tree)
    requires Focus(root, up, parent, t) && t.right.Node? && t.right.right.Node?
    modifies root, CtxNodes(up), Nodes(t)
    ensures Focus(root, up, t.right.node, PaidLeft(t))
    ensures root.tree == old(root.tree)
  {
    var other := parent.right;
    ghost var o := t.right.(red := t.red);
    PaintRight(parent, parent.red, root, up, t);
    SetColor(parent, false, root, up, t.(right := o));
    ghost var c := InRight(up, parent, false, t.left);
    DownRight(root, up, parent, t.(right := o, red := false));
    PaintRight(other, false, root, c, o);
    o := o.(right := Blacken(o.right));
    Up(root, c, other, o);
    RotateLeft(parent, root, up, t.(right := o, red := false));
  }

  lemma PaidLeftShape(up: Ctx, t: Tree, h: nat)
    requires ShortLeft(up, t, h) && t.right.Node? && !t.right.red && IsRed(t.right.right) && Distinct(t)
    ensures RedBlack(Plug(up, PaidLeft(t)))
    ensures Nodes(PaidLeft(t)) == Nodes(t) && InOrder(PaidLeft(t)) == InOrder(t)
  {
    var o := t.right;
    ColorShape(o.right, false);
    assert Distinct(o) && Balanced(o.left, h) && Balanced(o.right, h);
    var o' := o.(red := t.red, right := Blacken(o.right));
    assert Distinct(o') && Nodes(o') == Nodes(o) && InOrder(o') == InOrder(o);
    RotatedLeftShape(t.(red := false, right := o'));
    assert Balanced(Blacken(o.right), h + 1);
    PlugRedBlack(up, PaidLeft(t), Above(t.red, h));
  }

  /** `t` hangs below `up`, and its right subtree is one black node short. */
  ghost predicate ShortRight(up: Ctx, t: Tree, h: nat) {
    && t.Node? && Balanced(t.right, h) && !IsRed(t.right) && Balanced(t.left, h + 1)
    && CtxOk(up, Above(t.red, h)) && (t.red ==> !IsRed(t.left) && !up.Top? && !up.red)
  }

  /** A red sibling is rotated above the parent. */
  method LowerRedSiblingRight(parent: RbNode, root: RbRoot, ghost up: Ctx, ghost t: Tree)
    requires Focus(root, up, parent, t) && t.left.Node?
    modifies root, CtxNodes(up), Nodes(t)
    ensures Focus(root, InRight(up, t.left.node, false, t.left.left), parent, Node(t.left.right, parent, true, t.right))
    ensures root.tree == old(root.tree)
  {
    var other := parent.left;
    ghost var c, b := InLeft(up, parent, t.red, t.right), Blacken(t.left);
    DownLeft(root, up, parent, t);
    SetColor(other, false, root, c, t.left);
    Up(root, c, other, b);
    SetColor(parent, true, root, up, Fill(c, b));
    ghost var t' := Node(b, parent, true, t.right);
    RotateRight(parent, root, up, t');
    DownRight(root, up, other, RotatedRight(t'));
  }

  lemma LowerRedSiblingRightShape(up: Ctx, t: Tree, h: nat)
    requires ShortRight(up, t, h) && IsRed(t.left)
    ensures t.left.right.Node? && !IsRed(t.left.right)
    ensures var c, t' := InRight(up, t.left.node, false, t.left.left), Node(t.left.right, t.node, true, t.right);
      ShortRight(c, t', h) && Sequence(c, t') == Sequence(up, t) && CtxNodes(c) + Nodes(t') == CtxNodes(up) + Nodes(t)
  {
    var c, t' := InRight(up, t.left.node, false, t.left.left), Node(t.left.right, t.node, true, t.right);
    FillSequence(c, t');
    assert Balanced(t.left.right, h + 1);
    Regroup(InOrder(t.left.left), t.left.node, InOrder(t.left.right), t.node, InOrder(t.right));
    assert InOrder(Fill(c, t')) == InOrder(t);
  }

  /** The sibling becomes red: the shortage moves up. */
  method RedSiblingRight(parent: RbNode, root: RbRoot, ghost up: Ctx, ghost t: Tree)
    requires Focus(root, up, parent, t) && t.left.Node?
    modifies root, CtxNodes(up), Nodes(t)
    ensures Focus(root, up, parent, t.(left := t.left.(red := true)))
    ensures root.tree == old(root.tree)
  {
    PaintLeft(parent, true, root, up, t);
  }

  lemma RedSiblingRightShape(up: Ctx, t: Tree, h: nat)
    requires ShortRight(up, t, h) && t.left.Node? && !t.left.red && !IsRed(t.left.left) && !IsRed(t.left.right)
    ensures var t' := t.(left := t.left.(red := true));
      && Short(up, t', if t.red then h else h + 1) && Nodes(t') == Nodes(t) && InOrder(t') == InOrder(t)
  {
    assert Balanced(t.left.(red := true), h);
  }

  /** A red near child of the sibling is rotated above it. */
  function NearLiftedRight(o: Tree): Tree
    requires o.Node? && o.right.Node?
  {
    RotatedLeft(o.(right := Blacken(o.right), red := true))
  }

  method LiftNearRight(parent: RbNode, root: RbRoot, ghost up: Ctx, ghost t: Tree)
    requires Focus(root, up, parent, t) && t.left.Node? && t.left.right.Node?
    modifies root, CtxNodes(up), Nodes(t)
    ensures Focus(root, up, parent, t.(left := NearLiftedRight(t.left)))
    ensures root.tree == old(root.tree)
  {
    var other := parent.left;
    ghost var c, o := InLeft(up, parent, t.red, t.right), t.left;
    DownLeft(root, up, parent, t);
    ghost var near := InRight(c, other, o.red, o.left);
    DownRight(root, c, other, o);
    SetColor(other.right, false, root, near, o.right);
    Up(root, near, other.right, Blacken(o.right));
    SetColor(other, true, root, c, Fill(near, Blacken(o.right)));
    RotateLeft(other, root, c, o.(right := Blacken(o.right), red := true));
    Up(root, c, NearLiftedRight(o).node, NearLiftedRight(o));
  }

  lemma NearLiftedRightShape(up: Ctx, t: Tree, h: nat)
    requires ShortRight(up, t, h) && t.left.Node? && !t.left.red && IsRed(t.left.right) && !IsRed(t.left.left) && Distinct(t)
    ensures var o := NearLiftedRight(t.left); var t' := t.(left := o);
      && ShortRight(up, t', h) && !o.red && IsRed(o.left)
      && Nodes(t') == Nodes(t) && InOrder(t') == InOrder(t)
  {
    var o := t.left;
    ColorShape(o.right, false);
    assert Distinct(o) && Balanced(o.right, h) && Balanced(o.left, h);
    RotatedLeftShape(o.(right := Blacken(o.right), red := true));
    assert Balanced(NearLiftedRight(o).left, h) && Balanced(NearLiftedRight(o).right, h);
  }

  /** The sibling's red far child pays for the shortage. */
  function PaidRight(t: Tree): Tree
    requires t.Node? && t.left.Node?
  {
    RotatedRight(t.(red := false, left := t.left.(red := t.red, left := Blacken(t.left.left))))
  }

  method PayRight(parent: RbNode, root: RbRoot, ghost up: Ctx, ghost t: Tree)
    requires Focus(root, up, parent, t) && t.left.Node? && t.left.left.Node?
    modifies root, CtxNodes(up), Nodes(t)
    ensures Focus(root, up, t.left.node, PaidRight(t))
    ensures root.tree == old(root.tree)
  {
    var other := parent.left;
    ghost var o := t.left.(red := t.red);
    PaintLeft(parent, parent.red, root, up, t);
    SetColor(parent, false, root, up, t.(left := o));
    ghost var c := InLeft(up, parent, false, t.right);
    DownLeft(root, up, parent, t.(left := o, red := false));
    PaintLeft(other, false, root, c, o);
    o := o.(left := Blacken(o.left));
    Up(root, c, other, o);
    RotateRight(parent, root, up, t.(left := o, red := false));
  }

  lemma PaidRightShape(up: Ctx, t: Tree, h: nat)
    requires ShortRight(up, t, h) && t.left.Node? && !t.left.red && IsRed(t.left.left) && Distinct(t)
    ensures RedBlack(Plug(up, PaidRight(t)))
    ensures Nodes(PaidRight(t)) == Nodes(t) && InOrder(PaidRight(t)) == InOrder(t)
  {
    var o := t.left;
    ColorShape(o.left, false);
    assert Distinct(o) && Balanced(o.right, h) && Balanced(o.left, h);
    var o' := o.(red := t.red, left := Blacken(o.left));
    assert Distinct(o') && Nodes(o') == Nodes(o) && InOrder(o') == InOrder(o);
    RotatedRightShape(t.(red := false, left := o'));
    assert Balanced(Blacken(o.left), h + 1);
    PlugRedBlack(up, PaidRight(t), Above(t.red, h));
  }

  predicate BlackOrNull(p: RbNode?)
    reads p
  {
    p == null || !p.red
  }

  lemma LinkColor(p: RbNode?, par: RbNode?, t: Tree)
    requires Links(p, par, t)
    ensures BlackOrNull(p) == !IsRed(t) && (p == null) == t.Leaf? && (p != null ==> p == t.node)
  {
  }

  /** Termination of the erase loop: a red hole ends it. */
  ghost function EraseMeasure(c: Ctx, t: Tree): nat {
    if IsRed(t) then 0 else 1 + Depth(c)
  }

  /** What _rb_erase_color reads of the sibling. */
  lemma SiblingLeft(root: RbRoot, up: Ctx, parent: RbNode, t: Tree)
    requires Focus(root, up, parent, t) && t.right.Node?
    ensures parent.right == t.right.node && parent.right.red == t.right.red
    ensures BlackOrNull(parent.right.left) == !IsRed(t.right.left) && BlackOrNull(parent.right.right) == !IsRed(t.right.right)
  {
    assert Links(parent.right, parent, t.right);
    LinkColor(parent.right.left, parent.right, t.right.left);
    LinkColor(parent.right.right, parent.right, t.right.right);
  }

  /** One round of _rb_erase_color's loop when the short subtree is a left child. */
  method EraseStepLeft(parent0: RbNode, root: RbRoot, ghost up0: Ctx, ghost t0: Tree, ghost h0: nat)
    returns (node: RbNode?, parent: RbNode?, done: bool, ghost c: Ctx, ghost t: Tree, ghost h: nat)
    requires Focus(root, up0, parent0, t0) && ShortLeft(up0, t0, h0)
    modifies root, CtxNodes(up0), Nodes(t0)
    ensures Focus(root, c, node, t) && parent == Parent(c)
    ensures if done then RedBlack(Plug(c, t)) else Short(c, t, h) && EraseMeasure(c, t) <= 1 + Depth(up0)
    ensures Sequence(c, t) == Sequence(up0, t0) && CtxNodes(c) + Nodes(t) == CtxNodes(up0) + Nodes(t0)
    ensures root.tree == old(root.tree)
  {
    parent := parent0;
    c, t, h := up0, t0, h0;
    SiblingLeft(root, c, parent, t);
    if parent.right.red {
      LowerRedSiblingLeftShape(c, t, h);
      LowerRedSiblingLeft(parent, root, c, t);
      c, t := InLeft(c, t.right.node, false, t.right.right), Node(t.left, parent, true, t.right.left);
      SiblingLeft(root, c, parent, t);
    }
    var other := parent.right;
    if BlackOrNull(other.left) && BlackOrNull(other.right) {
      RedSiblingLeftShape(c, t, h);
      RedSiblingLeft(parent, root, c, t);
      h := if t.red then h else h + 1;
      t := t.(right := t.right.(red := true));
      node, parent, done := parent, parent.parent, false;
    } else {
      if BlackOrNull(other.right) {
        NearLiftedLeftShape(c, t, h);
        LiftNearLeft(parent, root, c, t);
        t := t.(right := NearLiftedLeft(t.right));
        SiblingLeft(root, c, parent, t);
        other := parent.right;
      }
      PaidLeftShape(c, t, h);
      PayLeft(parent, root, c, t);
      t := PaidLeft(t);
      node, parent, done := other, other.parent, true;
    }
  }

  /** What _rb_erase_color reads of the sibling. */
  lemma SiblingRight(root: RbRoot, up: Ctx, parent: RbNode, t: Tree)
    requires Focus(root, up, parent, t) && t.left.Node?
    ensures parent.left == t.left.node && parent.left.red == t.left.red
    ensures BlackOrNull(parent.left.left) == !IsRed(t.left.left) && BlackOrNull(parent.left.right) == !IsRed(t.left.right)
  {
    assert Links(parent.left, parent, t.left);
    LinkColor(parent.left.left, parent.left, t.left.left);
    LinkColor(parent.left.right, parent.left, t.left.right);
  }

  /** One round of _rb_erase_color's loop when the short subtree is a right child. */
  method EraseStepRight(parent0: RbNode, root: RbRoot, ghost up0: Ctx, ghost t0: Tree, ghost h0: nat)
    returns (node: RbNode?, parent: RbNode?, done: bool, ghost c: Ctx, ghost t: Tree, ghost h: nat)
    requires Focus(root, up0, parent0, t0) && ShortRight(up0, t0, h0)
    modifies root, CtxNodes(up0), Nodes(t0)
    ensures Focus(root, c, node, t) && parent == Parent(c)
    ensures if done then RedBlack(Plug(c, t)) else Short(c, t, h) && EraseMeasure(c, t) <= 1 + Depth(up0)
    ensures Sequence(c, t) == Sequence(up0, t0) && CtxNodes(c) + Nodes(t) == CtxNodes(up0) + Nodes(t0)
    ensures root.tree == old(root.tree)
  {
    parent := parent0;
    c, t, h := up0, t0, h0;
    SiblingRight(root, c, parent, t);
    if parent.left.red {
      LowerRedSiblingRightShape(c, t, h);
      LowerRedSiblingRight(parent, root, c, t);
      c, t := InRight(c, t.left.node, false, t.left.left), Node(t.left.right, parent, true, t.right);
      SiblingRight(root, c, parent, t);
    }
    var other := parent.left;
    if BlackOrNull(other.left) && BlackOrNull(other.right) {
      RedSiblingRightShape(c, t, h);
      RedSiblingRight(parent, root, c, t);
      h := if t.red then h else h + 1;
      t := t.(left := t.left.(red := true));
      node, parent, done := parent, parent.parent, false;
    } else {
      if BlackOrNull(other.left) {
        NearLiftedRightShape(c, t, h);
        LiftNearRight(parent, root, c, t);
        t := t.(left := NearLiftedRight(t.left));
        SiblingRight(root, c, parent, t);
        other := parent.left;
      }
      PaidRightShape(c, t, h);
      PayRight(parent, root, c, t);
      t := PaidRight(t);
      node, parent, done := other, other.parent, true;
    }
  }

  /** The root lies outside the focus unless the focus is the whole tree. */
  lemma {:induction false} RootAbove(root: RbRoot, c: Ctx, p: RbNode?, t: Tree)
    requires Focus(root, c, p, t)
    ensures c.Top? ==> root.node == p
    ensures !c.Top? ==> root.node != null && root.node in CtxNodes(c) && root.node != p
    decreases c
  {
    LinkColor(p, Parent(c), t);
    if !c.Top? {
      Up(root, c, p, t);
      RootAbove(root, c.up, c.node, Fill(c, t));
    }
  }

  method BlackenRoot(root: RbRoot, ghost t: Tree)
    requires Links(root.node, null, t) && Distinct(t) && RedBlack(t)
    modifies root, Nodes(t)
    ensures root.Valid() && root.tree == t
  {
    if root.node != null {
      root.node.red := false;
    }
    root.tree := t;
  }

  /** The end of _rb_erase_color: `node` is blackened, or the root after a rotation that settled it. */
  method EraseEnd(node: RbNode?, done: bool, root: RbRoot, ghost c: Ctx, ghost t: Tree, ghost h: nat)
    requires Focus(root, c, node, t)
    requires if done then RedBlack(Plug(c, t)) else Short(c, t, h) && (BlackOrNull(node) ==> node == root.node)
    modifies root, CtxNodes(c), Nodes(t)
    ensures root.Valid()
    ensures InOrder(root.tree) == Sequence(c, t) && Nodes(root.tree) == CtxNodes(c) + Nodes(t)
  {
    RootAbove(root, c, node, t);
    LinkColor(node, Parent(c), t);
    if !done && node != null && node.red {
      PlugRedBlack(c, Blacken(t), h + 1);
      SetColor(node, false, root, c, t);
      ColorShape(t, false);
      UpToTop(root, c, node, Blacken(t));
      InOrderPlug(c, Blacken(t));
      root.tree := Plug(c, Blacken(t));
    } else {
      if !done {
        BalancedHeight(t, h);
      }
      UpToTop(root, c, node, t);
      InOrderPlug(c, t);
      BlackenRoot(root, Plug(c, t));
    }
  }

  /** _rb_erase_color: makes up for the one black node that the hole of `c0` lacks. */
  method EraseColor(node0: RbNode?, parent0: RbNode?, root: RbRoot, ghost c0: Ctx, ghost t0: Tree, ghost h0: nat)
    requires Focus(root, c0, node0, t0) && Short(c0, t0, h0) && parent0 == Parent(c0)
    modifies root, CtxNodes(c0), Nodes(t0)
    ensures root.Valid()
    ensures InOrder(root.tree) == Sequence(c0, t0) && Nodes(root.tree) == CtxNodes(c0) + Nodes(t0)
  {
    var node, parent, done := node0, parent0, false;
    ghost var c, t, h := c0, t0, h0;
    while !done && BlackOrNull(node) && node != root.node
      invariant Focus(root, c, node, t) && parent == Parent(c)
      invariant if done then RedBlack(Plug(c, t)) else Short(c, t, h)
      invariant Sequence(c, t) == Sequence(c0, t0) && CtxNodes(c) + Nodes(t) == CtxNodes(c0) + Nodes(t0)
      decreases !done, EraseMeasure(c, t)
    {
      LinkColor(node, parent, t);
      ghost var up, f := c.up, Fill(c, t);
      Up(root, c, node, t);
      FillSequence(c, t);
      if parent.left == node {
        node, parent, done, c, t, h := EraseStepLeft(parent, root, up, f, h);
      } else {
        node, parent, done, c, t, h := EraseStepRight(parent, root, up, f, h);
      }
    }
    EraseEnd(node, done, root, c, t, h);
  }

  /* rb_replace_node. */

  /** Gives the two subtrees of `victim` the parent `now` and copies the fields of `victim`. */
  method TakeOver(victim: RbNode, now: RbNode, ghost par: RbNode?, ghost t: Tree)
    requires Links(victim, par, t) && Distinct(t) && now !in Nodes(t)
    modifies Nodes(t) - {victim}, now
    ensures Links(now, par, t.(node := now))
  {
    ghost var l, r := t.left, t.right;
    assert Links(victim.left, victim, l) && Links(victim.right, victim, r);
    assert allocated(Nodes(l)) && allocated(Nodes(r));
    SetParent(victim.left, now, victim, l);
    SetParent(victim.right, now, victim, r);
    now.parent, now.red, now.left, now.right := victim.parent, victim.red, victim.left, victim.right;
  }

  /** rb_replace_node at the focus. */
  method ReplaceNode(victim: RbNode, now: RbNode, root: RbRoot, ghost c: Ctx, ghost t: Tree)
    requires Focus(root, c, victim, t) && now !in CtxNodes(c) + Nodes(t)
    modifies root, CtxNodes(c), Nodes(t) - {victim}, now
    ensures Focus(root, c, now, t.(node := now))
    ensures root.tree == old(root.tree)
  {
    assert allocated(CtxNodes(c)) && allocated(Nodes(t));
    var parent := victim.parent;
    SetLink(victim, now, parent, root, c);
    TakeOver(victim, now, parent, t);
  }

  /* rb_erase. */

  /** Puts the subtree `t` of `child` in place of the node `gone`. */
  method Splice(gone: RbNode, child: RbNode?, parent: RbNode?, root: RbRoot, ghost c: Ctx, ghost t: Tree)
    requires CtxDistinct(c) && CtxLinks(root, c, gone) && parent == Parent(c)
    requires gone !in CtxNodes(c) && Distinct(t) && gone !in Nodes(t) && CtxNodes(c) !! Nodes(t)
    requires Links(child, gone, t)
    modifies root`node, parent, Nodes(t)
    ensures Focus(root, c, child, t)
  {
    assert allocated(CtxNodes(c)) && allocated(Nodes(t));
    SetParent(child, parent, gone, t);
    SetLink(gone, child, parent, root, c);
  }

  /** The context `d` placed in the hole of `base`. */
  ghost function Compose(d: Ctx, base: Ctx): Ctx {
    match d
    case Top => base
    case InLeft(up, n, red, s) => InLeft(Compose(up, base), n, red, s)
    case InRight(up, n, red, s) => InRight(Compose(up, base), n, red, s)
  }

  lemma {:induction false} UpBy(root: RbRoot, d: Ctx, base: Ctx, p: RbNode?, t: Tree) returns (q: RbNode?)
    requires Focus(root, Compose(d, base), p, t)
    ensures Focus(root, base, q, Plug(d, t))
    ensures CtxNodes(Compose(d, base)) + Nodes(t) == CtxNodes(base) + Nodes(Plug(d, t))
    decreases d
  {
    q := p;
    if !d.Top? {
      Up(root, Compose(d, base), p, t);
      q := UpBy(root, d.up, base, d.node, Fill(d, t));
    }
  }

  lemma {:induction false} DownBy(root: RbRoot, d: Ctx, base: Ctx, q: RbNode?, t: Tree) returns (p: RbNode?)
    requires Focus(root, base, q, Plug(d, t))
    ensures Focus(root, Compose(d, base), p, t)
    decreases d
  {
    p := q;
    if !d.Top? {
      var n := DownBy(root, d.up, base, q, Fill(d, t));
      if d.InLeft? {
        DownLeft(root, Compose(d.up, base), n, Fill(d, t));
        p := n.left;
      } else {
        DownRight(root, Compose(d.up, base), n, Fill(d, t));
        p := n.right;
      }
    }
  }

  /** Only the colour of the frame and the heights below it matter to the balance of a context. */
  lemma {:induction false} ComposeOk(d: Ctx, b1: Ctx, b2: Ctx, h: nat)
    requires CtxOk(Compose(d, b1), h)
    requires !b1.Top? && !b2.Top? && b2.up == b1.up && b2.red == b1.red && b2.sib == b1.sib
    ensures CtxOk(Compose(d, b2), h) && Compose(d, b2).red == Compose(d, b1).red && !Compose(d, b1).Top? && !Compose(d, b2).Top?
    decreases d
  {
    if !d.Top? {
      ComposeOk(d.up, b1, b2, if d.red then h else h + 1);
    }
  }

  lemma {:induction false} ComposeSequence(d: Ctx, base: Ctx, t: Tree)
    ensures Sequence(Compose(d, base), t) == Sequence(base, Plug(d, t))
    decreases d
  {
    if !d.Top? {
      FillSequence(Compose(d, base), t);
      ComposeSequence(d.up, base, Fill(d, t));
    }
  }

  /** The position of a node in a tree. */
  lemma {:induction false} Locate(c0: Ctx, t0: Tree, n: RbNode) returns (c: Ctx, t: Tree)
    requires n in Nodes(t0)
    ensures Plug(c, t) == Plug(c0, t0) && t.Node? && t.node == n
    decreases t0
  {
    if t0.node == n {
      c, t := c0, t0;
    } else if n in Nodes(t0.left) {
      c, t := Locate(InLeft(c0, t0.node, t0.red, t0.right), t0.left, n);
    } else {
      c, t := Locate(InRight(c0, t0.node, t0.red, t0.left), t0.right, n);
    }
  }

  /** Settles the colours after a node of colour `red` has been taken out of the hole of `c`. */
  method Settle(red: bool, child: RbNode?, parent: RbNode?, root: RbRoot, ghost c: Ctx, ghost t: Tree, ghost h: nat)
    requires Focus(root, c, child, t) && parent == Parent(c) && Balanced(t, h) 
    requires if red then CtxOk(c, h) && !IsRed(t) else CtxOk(c, h + 1)
    modifies root, CtxNodes(c), Nodes(t)
    ensures root.Valid()
    ensures InOrder(root.tree) == Sequence(c, t) && Nodes(root.tree) == CtxNodes(c) + Nodes(t)
  {
    if red {
      UpToTop(root, c, child, t);
      InOrderPlug(c, t);
      PlugRedBlack(c, t, h);
      root.tree := Plug(c, t);
    } else {
      EraseColor(child, parent, root, c, t, h);
    }
  }

  lemma OnlyChild(c: Ctx, t: Tree, ct: Tree)
    requires t.Node? && Apart(c, t) && (t.left.Leaf? || t.right.Leaf?) && ct == if t.left.Leaf? then t.right else t.left
    ensures InOrder(ct) == InOrder(t.left) + InOrder(t.right)
    ensures Nodes(ct) == Nodes(t) - {t.node} && CtxNodes(c) + Nodes(ct) == CtxNodes(c) + Nodes(t) - {t.node}
  {
  }

  /** rb_erase of a node with at most one child. */
  method EraseOuter(node: RbNode, root: RbRoot, ghost c: Ctx, ghost t: Tree)
    requires Focus(root, c, node, t) && RedBlack(Plug(c, t)) && (t.left.Leaf? || t.right.Leaf?)
    modifies root, CtxNodes(c), Nodes(t) - {node}
    ensures root.Valid()
    ensures InOrder(root.tree) == Before(c) + (InOrder(t.left) + InOrder(t.right)) + After(c)
    ensures Nodes(root.tree) == CtxNodes(c) + Nodes(t) - {node}
  {
    LinkColor(node.left, node, t.left);
    var child := if node.left == null then node.right else node.left;
    ghost var ct, h := if t.left.Leaf? then t.right else t.left, BlackHeight(t) - if t.red then 0 else 1;
    UnplugRedBlack(c, t);
    OnlyChild(c, t, ct);
    var parent, red := node.parent, node.red;
    Splice(node, child, parent, root, c, ct);
    Settle(red, child, parent, root, c, ct, h);
  }

  /** Follows left links down from `n`. */
  method Leftmost(n: RbNode, ghost root: RbRoot, ghost c: Ctx, ghost t: Tree)
    returns (s: RbNode, ghost d: Ctx, ghost ts: Tree)
    requires Focus(root, c, n, t)
    ensures Plug(d, ts) == t && Before(d) == [] && Focus(root, Compose(d, c), s, ts)
    ensures ts.Node? && ts.node == s && ts.left.Leaf?
    ensures InOrder(t) == [s] + InOrder(ts.right) + After(d)
  {
    s, d, ts := n, Top, t;
    LinkColor(s, Parent(c), ts);
    while s.left != null
      invariant Plug(d, ts) == t && Before(d) == [] && Focus(root, Compose(d, c), s, ts) && ts.Node?
      decreases ts
    {
      DownLeft(root, Compose(d, c), s, ts);
      LinkColor(s.left, s, ts.left);
      d, ts, s := InLeft(d, s, ts.red, ts.right), ts.left, s.left;
    }
    LinkColor(s.left, s, ts.left);
    InOrderPlug(d, ts);
    assert InOrder(ts) == [s] + InOrder(ts.right);
  }

  /** The right child `now`, which has no left child, takes over the left subtree of `victim`. */
  method AdoptLeft(victim: RbNode, now: RbNode, ghost par: RbNode?, ghost t: Tree)
    requires Links(victim, par, t) && Distinct(t) && t.right.Node? && t.right.left.Leaf? && t.right.node == now
    modifies Nodes(t) - {victim}
    ensures Links(now, par, Node(t.left, now, t.red, t.right.right))
    ensures now.right == old(now.right)
  {
    ghost var l, r := t.left, t.right.right;
    assert Links(victim.left, victim, l) && Links(victim.right, victim, t.right);
    assert Links(now.right, now, r) && Distinct(t.right);
    assert allocated(Nodes(l)) && allocated(Nodes(r));
    SetParent(victim.left, now, victim, l);
    now.parent, now.red, now.left := victim.parent, victim.red, victim.left;
  }

  /** The right child takes the place of `victim`. */
  method PutRightChild(victim: RbNode, now: RbNode, root: RbRoot, ghost c: Ctx, ghost t: Tree)
    requires Focus(root, c, victim, t) && t.right.Node? && t.right.left.Leaf? && t.right.node == now
    modifies root, CtxNodes(c), Nodes(t) - {victim}
    ensures Focus(root, InRight(c, now, t.red, t.left), now.right, t.right.right)
    ensures now.right == old(now.right)
    ensures root.tree == old(root.tree)
  {
    assert allocated(CtxNodes(c)) && allocated(Nodes(t));
    var parent := victim.parent;
    SetLink(victim, now, parent, root, c);
    AdoptLeft(victim, now, parent, t);
    ghost var t' := Node(t.left, now, t.red, t.right.right);
    assert Distinct(t.right);
    DownRight(root, c, now, t');
  }

  /** The successor `now`, already spliced out, takes the place of `victim`. */
  method PutSuccessor(victim: RbNode, now: RbNode, root: RbRoot, ghost c: Ctx, ghost t: Tree, ghost d: Ctx, ghost p: RbNode?, ghost ts: Tree)
    requires t.Node? && t.node == victim && now !in CtxNodes(c) + Nodes(t)
    requires Focus(root, Compose(d, InRight(c, victim, t.red, t.left)), p, ts) && t.right == Plug(d, ts)
    modifies root, CtxNodes(c), Nodes(t) - {victim}, now
    ensures Focus(root, Compose(d, InRight(c, now, t.red, t.left)), p, ts)
    ensures root.tree == old(root.tree)
  {
    ghost var base := InRight(c, victim, t.red, t.left);
    LinkColor(p, Parent(Compose(d, base)), ts);
    ghost var q := UpBy(root, d, base, p, ts);
    Up(root, base, q, t.right);
    ReplaceNode(victim, now, root, c, t);
    DownRight(root, c, now, t.(node := now));
    ghost var base' := InRight(c, now, t.red, t.left);
    ghost var p' := DownBy(root, d, base', now.right, ts);
    LinkColor(p', Parent(Compose(d, base')), ts);
  }

  lemma {:induction false} ComposeNodes(d: Ctx, base: Ctx)
    ensures CtxNodes(Compose(d, base)) == CtxNodes(d) + CtxNodes(base)
    decreases d
  {
    if !d.Top? {
      ComposeNodes(d.up, base);
    }
  }

  lemma {:induction false} ComposePlug(d: Ctx, base: Ctx, t: Tree)
    ensures Plug(Compose(d, base), t) == Plug(base, Plug(d, t))
    decreases d
  {
    if !d.Top? {
      ComposePlug(d.up, base, Fill(d, t));
    }
  }

  /** Nodes and order once the successor `ts.node` stands for `t.node`. */
  lemma SuccessorNodes(c: Ctx, t: Tree, d: Ctx, ts: Tree)
    requires Apart(c, t) && t.Node? && ts.Node? && ts.left.Leaf? && Plug(d, ts) == t.right
    requires Apart(Compose(d, InRight(c, t.node, t.red, t.left)), ts)
    ensures var c' := Compose(d, InRight(c, ts.node, t.red, t.left));
      CtxNodes(c') + Nodes(ts.right) == CtxNodes(c) + Nodes(t) - {t.node}
    ensures Nodes(Plug(d, ts.right)) == Nodes(t.right) - {ts.node}
    ensures CtxNodes(d) + Nodes(ts) == Nodes(t.right)
  {
    ComposeNodes(d, InRight(c, t.node, t.red, t.left));
    ComposeNodes(d, InRight(c, ts.node, t.red, t.left));
    NodesPlug(d, ts);
    NodesPlug(d, ts.right);
    assert Nodes(ts) == {ts.node} + Nodes(ts.right);
    MoveOne(CtxNodes(c), CtxNodes(d), Nodes(t.left), Nodes(ts.right), t.node, ts.node);
  }

  lemma MoveOne<T>(c: set<T>, d: set<T>, l: set<T>, r: set<T>, n: T, s: T)
    requires n !in c && n !in d && n !in l && n !in r && n != s && s !in d && s !in r
    ensures d + (c + {s} + l) + r == c + (l + {n} + (d + ({s} + r))) - {n}
    ensures d + r == d + ({s} + r) - {s}
  {
  }

  lemma SuccessorFirst(d: Ctx, ts: Tree)
    requires ts.Node? && ts.left.Leaf? && Before(d) == []
    ensures InOrder(Plug(d, ts)) == [ts.node] + InOrder(Plug(d, ts.right))
  {
    InOrderPlug(d, ts);
    InOrderPlug(d, ts.right);
    assert InOrder(ts) == [ts.node] + InOrder(ts.right);
    NothingBefore(ts.node, InOrder(ts.right), After(d));
  }

  lemma NothingBefore<T>(x: T, r: seq<T>, a: seq<T>)
    ensures [] + ([x] + r) + a == [x] + ([] + r + a)
  {
  }

  lemma SuccessorOrder(c: Ctx, t: Tree, d: Ctx, ts: Tree)
    requires t.Node? && ts.Node? && ts.left.Leaf? && Before(d) == [] && Plug(d, ts) == t.right
    ensures Sequence(Compose(d, InRight(c, ts.node, t.red, t.left)), ts.right) == Before(c) + (InOrder(t.left) + InOrder(t.right)) + After(c)
  {
    var base', w := InRight(c, ts.node, t.red, t.left), Plug(d, ts.right);
    ComposeSequence(d, base', ts.right);
    FillSequence(base', w);
    SuccessorFirst(d, ts);
    Put2(InOrder(t.left), ts.node, InOrder(w));
  }

  lemma Put2<T>(a: seq<T>, x: T, b: seq<T>)
    ensures a + [x] + b == a + ([x] + b)
  {
  }

  lemma SuccessorBalance(c: Ctx, t: Tree, d: Ctx, ts: Tree)
    requires t.Node? && ts.Node? && ts.left.Leaf? && Plug(d, ts) == t.right && RedBlack(Plug(c, t))
    ensures BlackHeight(ts) >= if ts.red then 0 else 1
    ensures var c', h := Compose(d, InRight(c, ts.node, t.red, t.left)), BlackHeight(ts) - if ts.red then 0 else 1;
      Balanced(ts.right, h) && if ts.red then CtxOk(c', h) && !IsRed(ts.right) else CtxOk(c', h + 1)
  {
    var base, base' := InRight(c, t.node, t.red, t.left), InRight(c, ts.node, t.red, t.left);
    ComposePlug(d, base, ts);
    assert Plug(base, t.right) == Plug(c, t);
    UnplugRedBlack(Compose(d, base), ts);
    ComposeOk(d, base, base', BlackHeight(ts));
  }

  /** The successor `s` of `node` leaves its place, which `child` takes, and goes to that of `node`. */
  method PromoteSuccessor(node: RbNode, s: RbNode, child: RbNode?, parent0: RbNode?, root: RbRoot, ghost c: Ctx, ghost t: Tree, ghost d: Ctx, ghost ts: Tree)
    returns (parent: RbNode?)
    requires t.Node? && t.node == node && Plug(d, ts) == t.right && Before(d) == []
    requires Focus(root, Compose(d, InRight(c, node, t.red, t.left)), s, ts) && ts.Node? && ts.left.Leaf? && child == s.right && parent0 == s.parent
    modifies root, CtxNodes(c), Nodes(t) - {node}
    ensures var c' := Compose(d, InRight(c, s, t.red, t.left)); Focus(root, c', child, ts.right) && parent == Parent(c')
  {
    parent := parent0;
    ghost var q := UpBy(root, d, InRight(c, node, t.red, t.left), s, ts);
    Up(root, InRight(c, node, t.red, t.left), q, t.right);
    SuccessorNodes(c, t, d, ts);
    if parent == node {
      PutRightChild(node, s, root, c, t);
      parent := s;
    } else {
      Splice(s, child, parent, root, Compose(d, InRight(c, node, t.red, t.left)), ts.right);
      PutSuccessor(node, s, root, c, t.(right := Plug(d, ts.right)), d, child, ts.right);
    }
  }

  /** rb_erase of a node with two children: its in-order successor takes its place. */
  method EraseInner(node: RbNode, root: RbRoot, ghost c: Ctx, ghost t: Tree)
    requires Focus(root, c, node, t) && RedBlack(Plug(c, t)) && t.left.Node? && t.right.Node?
    modifies root, CtxNodes(c), Nodes(t) - {node}
    ensures root.Valid()
    ensures InOrder(root.tree) == Before(c) + (InOrder(t.left) + InOrder(t.right)) + After(c)
    ensures Nodes(root.tree) == CtxNodes(c) + Nodes(t) - {node}
  {
    ghost var base := InRight(c, node, t.red, t.left);
    DownRight(root, c, node, t);
    LinkColor(node.right, node, t.right);
    ghost var d, ts;
    var s;
    s, d, ts := Leftmost(node.right, root, base, t.right);
    var child, parent, red := s.right, s.parent, s.red;
    ghost var base' := InRight(c, s, t.red, t.left);
    ghost var h := BlackHeight(ts) - if ts.red then 0 else 1;
    SuccessorNodes(c, t, d, ts);
    SuccessorOrder(c, t, d, ts);
    SuccessorBalance(c, t, d, ts);
    parent := PromoteSuccessor(node, s, child, parent, root, c, t, d, ts);
    Settle(red, child, parent, root, Compose(d, base'), ts.right, h);
  }

  /** Focus on a node of a valid tree. */
  lemma FocusOn(root: RbRoot, node: RbNode) returns (c: Ctx, t: Tree)
    requires root.Valid() && node in Nodes(root.tree)
    ensures Focus(root, c, node, t) && t.Node? && t.node == node && Plug(c, t) == root.tree
    ensures InOrder(root.tree) == Before(c) + InOrder(t) + After(c)
    ensures Nodes(root.tree) == CtxNodes(c) + Nodes(t)
  {
    c, t := Locate(Top, root.tree, node);
    var p := DownTo(root, c, t);
    InOrderPlug(c, t);
    NodesPlug(c, t);
  }

  lemma SplitOnce<T>(s: seq<T>, a: seq<T>, x: T, b: seq<T>)
    requires forall i, j :: 0 <= i < j < |s| ==> s[i] != s[j]
    requires s == a + [x] + b
    ensures x !in a && x !in b && s[|a|] == x
    ensures forall i :: 0 <= i < |s| && s[i] == x ==> i == |a|
  {
    forall i | 0 <= i < |a| ensures a[i] != x { assert s[i] == a[i] && s[|a|] == x; }
    forall i | 0 <= i < |b| ensures b[i] != x { assert s[|a| + 1 + i] == b[i] && s[|a|] == x; }
  }

  /** The order of a valid tree around one of its nodes. */
  lemma OrderAround(root: RbRoot, node: RbNode) returns (c: Ctx, t: Tree)
    requires root.Valid() && node in Nodes(root.tree)
    ensures Focus(root, c, node, t) && t.Node? && t.node == node && Plug(c, t) == root.tree
    ensures Nodes(root.tree) == CtxNodes(c) + Nodes(t)
    ensures (node.left == null) == t.left.Leaf? && (node.right == null) == t.right.Leaf?
    ensures var a, b := Before(c) + InOrder(t.left), InOrder(t.right) + After(c);
      && InOrder(root.tree) == a + [node] + b && node !in a && node !in b
      && forall i :: 0 <= i < |InOrder(root.tree)| && InOrder(root.tree)[i] == node ==> i == |a|
  {
    c, t := FocusOn(root, node);
    LinkColor(node.left, node, t.left);
    LinkColor(node.right, node, t.right);
    InOrderInjective(root.tree);
    var a, b := Before(c) + InOrder(t.left), InOrder(t.right) + After(c);
    assert InOrder(root.tree) == a + [node] + b;
    SplitOnce(InOrder(root.tree), a, node, b);
  }

  /** A sequence with every occurrence of one element left out. */
  function Without<T(==)>(s: seq<T>, x: T): seq<T> {
    if s == [] then [] else if s[0] == x then Without(s[1..], x) else [s[0]] + Without(s[1..], x)
  }

  lemma {:induction false} WithoutAbsent<T>(s: seq<T>, x: T)
    requires x !in s
    ensures Without(s, x) == s
  {
    if s != [] {
      WithoutAbsent(s[1..], x);
    }
  }

  lemma {:induction false} WithoutMiddle<T>(a: seq<T>, x: T, b: seq<T>)
    requires x !in a && x !in b
    ensures Without(a + [x] + b, x) == a + b
  {
    if a == [] {
      assert (a + [x] + b)[1..] == b;
      WithoutAbsent(b, x);
    } else {
      assert (a + [x] + b)[1..] == a[1..] + [x] + b;
      WithoutMiddle(a[1..], x, b);
    }
  }

  lemma Reassociate<T>(a: seq<T>, b: seq<T>, c: seq<T>, d: seq<T>)
    ensures (a + b) + (c + d) == a + (b + c) + d
  {
  }

  /** rb_erase: takes exactly `node` out of the order and keeps the tree red-black.
      The fields of `node` itself are left as they were. */
  method Erase(node: RbNode, root: RbRoot)
    requires root.Valid() && node in Nodes(root.tree)
    modifies root, Nodes(root.tree) - {node}
    ensures root.Valid()
    ensures InOrder(root.tree) == Without(old(InOrder(root.tree)), node)
    ensures Nodes(root.tree) == old(Nodes(root.tree)) - {node}
  {
    ghost var c, t := OrderAround(root, node);
    ghost var a, b := Before(c) + InOrder(t.left), InOrder(t.right) + After(c);
    WithoutMiddle(a, node, b);
    if node.left != null && node.right != null {
      EraseInner(node, root, c, t);
    } else {
      EraseOuter(node, root, c, t);
    }
    Reassociate(Before(c), InOrder(t.left), InOrder(t.right), After(c));
  }

  /* Iteration. */

  /** `r` comes directly after the position `i` of `s`, or is null at the end. */
  ghost predicate IsAt(s: seq<RbNode>, i: int, r: RbNode?) {
    if 0 <= i < |s| then r == s[i] else r == null
  }

  /** rb_first. */
  method First(root: RbRoot) returns (r: RbNode?)
    requires root.Valid()
    ensures IsAt(InOrder(root.tree), 0, r)
  {
    LinkColor(root.node, null, root.tree);
    if root.node == null {
      return null;
    }
    ghost var d, ts;
    r, d, ts := Leftmost(root.node, root, Top, root.tree);
  }

  /** Climbs until the node is a left child; its parent follows in order. */
  method Climb(node: RbNode, ghost root: RbRoot, ghost c0: Ctx, ghost t0: Tree) returns (r: RbNode?)
    requires Focus(root, c0, node, t0)
    ensures IsAt(After(c0), 0, r)
  {
    var n: RbNode := node;
    ghost var c, t := c0, t0;
    while n.parent != null && n == n.parent.right
      invariant Focus(root, c, n, t) && After(c) == After(c0)
      decreases Depth(c)
    {
      Up(root, c, n, t);
      n, c, t := n.parent, c.up, Fill(c, t);
    }
    LinkColor(n, Parent(c), t);
    r := n.parent;
  }

  /** RB_EMPTY_NODE is false on every node of a tree. */
  lemma NotEmptyNode(root: RbRoot, node: RbNode)
    requires root.Valid() && node in Nodes(root.tree)
    ensures node.parent != node
  {
    var c, t := FocusOn(root, node);
    assert c.Top? || Parent(c) in CtxNodes(c);
  }

  lemma EmptyNode(root: RbRoot, node: RbNode)
    requires root.Valid() && (node in Nodes(root.tree) || node.parent == node)
    ensures node.parent == node <==> node !in Nodes(root.tree)
  {
    if node in Nodes(root.tree) {
      NotEmptyNode(root, node);
    }
  }

  /** rb_next: the in-order successor, and null for a node that is in no tree. */
  method Next(node: RbNode, ghost root: RbRoot) returns (r: RbNode?)
    requires root.Valid() && (node in Nodes(root.tree) || node.parent == node)
    ensures forall i :: 0 <= i < |InOrder(root.tree)| && InOrder(root.tree)[i] == node ==> IsAt(InOrder(root.tree), i + 1, r)
    ensures node !in Nodes(root.tree) ==> r == null
  {
    EmptyNode(root, node);
    if node.parent == node {
      InOrderHas(root.tree, node);
      return null;
    }
    ghost var c, t := OrderAround(root, node);
    if node.right != null {
      DownRight(root, c, node, t);
      ghost var d, ts;
      r, d, ts := Leftmost(node.right, root, InRight(c, node, t.red, t.left), t.right);
    } else {
      r := Climb(node, root, c, t);
    }
    assert IsAt(InOrder(t.right) + After(c), 0, r);
  }

  /** Where rb_link_node stores a new node. */
  datatype Slot = AtRoot | LeftOf(node: RbNode) | RightOf(node: RbNode)

  ghost predicate SlotAt(slot: Slot, c: Ctx) {
    match slot
    case AtRoot => c.Top?
    case LeftOf(n) => c.InLeft? && c.node == n
    case RightOf(n) => c.InRight? && c.node == n
  }

  /** rb_link_node: a red leaf is stored in an empty link. */
  method LinkNode(node: RbNode, slot: Slot, root: RbRoot, ghost c: Ctx)
    requires Focus(root, c, null, Leaf) && SlotAt(slot, c) && node !in CtxNodes(c)
    modifies root`node, node, if slot.AtRoot? then {} else {slot.node}
    ensures Focus(root, c, node, Node(Leaf, node, true, Leaf))
  {
    node.parent, node.red := if slot.AtRoot? then null else slot.node, true;
    node.left, node.right := null, null;
    match slot
    case AtRoot => root.node := node;
    case LeftOf(n) => n.left := node;
    case RightOf(n) => n.right := node;
  }

  /** rb_link_node followed by rb_insert_color: `node` enters the order at the empty link. */
  method InsertLeaf(node: RbNode, slot: Slot, root: RbRoot, ghost c: Ctx)
    requires Focus(root, c, null, Leaf) && SlotAt(slot, c) && RedBlack(Plug(c, Leaf)) && node !in CtxNodes(c)
    modifies root, CtxNodes(c), node
    ensures root.Valid()
    ensures InOrder(root.tree) == Before(c) + [node] + After(c)
    ensures Nodes(root.tree) == CtxNodes(c) + {node}
  {
    UnplugRedBlack(c, Leaf);
    LinkNode(node, slot, root, c);
    InsertColor(node, root, c);
  }

  /** rb_replace_node on a valid tree: `now` stands where `victim` stood. */
  method Replace(victim: RbNode, now: RbNode, root: RbRoot, ghost i: nat)
    requires root.Valid() && now !in Nodes(root.tree)
    requires i < |InOrder(root.tree)| && InOrder(root.tree)[i] == victim
    modifies root, Nodes(root.tree) - {victim}, now
    ensures root.Valid()
    ensures InOrder(root.tree) == old(InOrder(root.tree))[i := now]
    ensures Nodes(root.tree) == old(Nodes(root.tree)) - {victim} + {now}
  {
    ghost var c, t := FocusToReplace(root, victim, now, i);
    ghost var t' := t.(node := now);
    ReplaceNode(victim, now, root, c, t);
    UpToTop(root, c, now, t');
    root.tree := Plug(c, t');
  }

  lemma FocusToReplace(root: RbRoot, victim: RbNode, now: RbNode, i: nat) returns (c: Ctx, t: Tree)
    requires root.Valid() && now !in Nodes(root.tree)
    requires i < |InOrder(root.tree)| && InOrder(root.tree)[i] == victim
    ensures Focus(root, c, victim, t) && t.Node? && t.node == victim && Nodes(root.tree) == CtxNodes(c) + Nodes(t)
    ensures var after := Plug(c, t.(node := now));
      && RedBlack(after) && InOrder(after) == InOrder(root.tree)[i := now]
      && Nodes(after) == Nodes(root.tree) - {victim} + {now}
  {
    InOrderNodes(root.tree);
    c, t := OrderAround(root, victim);
    ReplacedShape(c, t, now);
    ReplacedNodes(c, t, now);
  }

  /** rb_replace_node, after which the victim's node is cleared. */
  method ReplaceAndClear(victim: RbNode, now: RbNode, root: RbRoot, ghost i: nat)
    requires root.Valid() && now !in Nodes(root.tree)
    requires i < |InOrder(root.tree)| && InOrder(root.tree)[i] == victim
    modifies root, Nodes(root.tree), now
    ensures root.Valid() && victim.parent == victim
    ensures InOrder(root.tree) == old(InOrder(root.tree))[i := now]
    ensures Nodes(root.tree) == old(Nodes(root.tree)) - {victim} + {now}
  {
    InOrderHas(root.tree, victim);
    Replace(victim, now, root, i);
    victim.parent := victim;
  }

  lemma UpdateInside<T>(a: seq<T>, s: seq<T>, b: seq<T>, k: nat, x: T)
    requires k < |s|
    ensures a + s[k := x] + b == (a + s + b)[|a| + k := x]
  {
  }

  lemma ReplacedNodes(c: Ctx, t: Tree, now: RbNode)
    requires t.Node? && Apart(c, t) && now !in Nodes(t)
    ensures Nodes(t.(node := now)) == Nodes(t) - {t.node} + {now}
    ensures Nodes(Plug(c, t.(node := now))) == CtxNodes(c) + Nodes(t.(node := now))
  {
    NodesPlug(c, t.(node := now));
  }

  lemma ReplacedShape(c: Ctx, t: Tree, now: RbNode)
    requires t.Node? && RedBlack(Plug(c, t))
    ensures RedBlack(Plug(c, t.(node := now)))
    ensures var k, s := |Before(c)| + |InOrder(t.left)|, InOrder(Plug(c, t));
      k < |s| && InOrder(Plug(c, t.(node := now))) == s[k := now]
  {
    var t' := t.(node := now);
    assert InOrder(t') == InOrder(t)[|InOrder(t.left)| := now];
    InOrderPlug(c, t);
    InOrderPlug(c, t');
    UpdateInside(Before(c), InOrder(t), After(c), |InOrder(t.left)|, now);
    UnplugRedBlack(c, t);
    PlugRedBlack(c, t', BlackHeight(t));
  }
}
