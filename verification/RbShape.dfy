/** Red-black trees as values: the shape a linked tree has at one moment, and the
    zipper that names one position in it.

    The linked structure of app/rbtree.c is described by a `Tree` whose nodes carry
    the identity of the linked node. A position inside a tree is a context `Ctx`
    (everything around the position) and the subtree at the position. `Plug` puts the
    two together again, `PlugRedBlack` and `UnplugRedBlack` say what the red-black
    conditions of the whole mean for the two parts. */
module RbShape {
  import opened Tracks
  import Lists

  /** struct rb_node; `rb_parent_color` is kept as two fields. The node is embedded in a
      track in the source, so it stands for that track and carries its track info and the list
      node, which is embedded there as well. */
  class RbNode {
    const info: TrackInfo
    const link: Lists.ListHead
    var parent: RbNode?
    var red: bool
    var left: RbNode?
    var right: RbNode?

    /** simple_track_init: a fresh track's node is its own parent (RB_CLEAR_NODE). */
    constructor (info: TrackInfo)
      ensures this.info == info && parent == this && fresh(link) && link.container == this
    {
      this.info := info;
      link := new Lists.ListHead();
      parent := this;
      red, left, right := true, null, null;
      new;
      link.container := this;
    }
  }

  datatype Tree = Leaf | Node(left: Tree, node: RbNode, red: bool, right: Tree)

  /** A tree with a hole. The innermost frame comes first: `InLeft` says that the hole is the
      left child of `node`, whose right subtree is `sib`. */
  datatype Ctx =
    | Top
    | InLeft(up: Ctx, node: RbNode, red: bool, sib: Tree)
    | InRight(up: Ctx, node: RbNode, red: bool, sib: Tree)

  ghost function Nodes(t: Tree): set<RbNode> {
    match t
    case Leaf => {}
    case Node(l, n, _, r) => Nodes(l) + {n} + Nodes(r)
  }

  ghost function CtxNodes(c: Ctx): set<RbNode> {
    if c.Top? then {} else CtxNodes(c.up) + {c.node} + Nodes(c.sib)
  }

  ghost predicate Distinct(t: Tree) {
    t.Node? ==>
      && Distinct(t.left) && Distinct(t.right)
      && t.node !in Nodes(t.left) && t.node !in Nodes(t.right)
      && Nodes(t.left) !! Nodes(t.right)
  }

  ghost predicate CtxDistinct(c: Ctx) {
    !c.Top? ==>
      && CtxDistinct(c.up) && Distinct(c.sib)
      && c.node !in CtxNodes(c.up) && c.node !in Nodes(c.sib)
      && CtxNodes(c.up) !! Nodes(c.sib)
  }

  /** The frame with its hole filled. */
  function Fill(c: Ctx, t: Tree): Tree
    requires !c.Top?
  {
    if c.InLeft? then Node(t, c.node, c.red, c.sib) else Node(c.sib, c.node, c.red, t)
  }

  ghost function Plug(c: Ctx, t: Tree): Tree
    decreases c
  {
    if c.Top? then t else Plug(c.up, Fill(c, t))
  }

  ghost function Depth(c: Ctx): nat {
    if c.Top? then 0 else 1 + Depth(c.up)
  }

  /* In-order sequences. */

  ghost function InOrder(t: Tree): seq<RbNode> {
    match t
    case Leaf => []
    case Node(l, n, _, r) => InOrder(l) + [n] + InOrder(r)
  }

  /** What precedes the hole in order, and what follows it. */
  ghost function Before(c: Ctx): seq<RbNode> {
    match c
    case Top => []
    case InLeft(up, _, _, _) => Before(up)
    case InRight(up, n, _, s) => Before(up) + InOrder(s) + [n]
  }

  ghost function After(c: Ctx): seq<RbNode> {
    match c
    case Top => []
    case InLeft(up, n, _, s) => [n] + InOrder(s) + After(up)
    case InRight(up, _, _, _) => After(up)
  }

  lemma {:induction false} InOrderPlug(c: Ctx, t: Tree)
    ensures InOrder(Plug(c, t)) == Before(c) + InOrder(t) + After(c)
    decreases c
  {
    if !c.Top? {
      InOrderPlug(c.up, Fill(c, t));
    }
  }

  lemma {:induction false} NodesPlug(c: Ctx, t: Tree)
    ensures Nodes(Plug(c, t)) == CtxNodes(c) + Nodes(t)
    decreases c
  {
    if !c.Top? {
      NodesPlug(c.up, Fill(c, t));
    }
  }

  lemma InOrderNodes(t: Tree)
    ensures forall n :: n in Nodes(t) <==> n in InOrder(t)
    ensures forall i :: 0 <= i < |InOrder(t)| ==> InOrder(t)[i] in Nodes(t)
  {
  }

  lemma InOrderHas(t: Tree, n: RbNode)
    ensures n in Nodes(t) <==> n in InOrder(t)
  {
  }

  /** An in-order sequence never repeats a node. */
  lemma {:induction false} InOrderInjective(t: Tree)
    requires Distinct(t)
    ensures forall i, j :: 0 <= i < j < |InOrder(t)| ==> InOrder(t)[i] != InOrder(t)[j]
  {
    if t.Node? {
      InOrderInjective(t.left);
      InOrderInjective(t.right);
      InOrderNodes(t.left);
      InOrderNodes(t.right);
    }
  }

  /* Red-black invariants. */

  predicate IsRed(t: Tree) {
    t.Node? && t.red
  }

  function Blacken(t: Tree): Tree {
    if t.Node? then t.(red := false) else t
  }

  /** No red node has a red child, and every path to a leaf passes `h` black nodes. */
  ghost predicate Balanced(t: Tree, h: nat) {
    match t
    case Leaf => h == 0
    case Node(l, _, red, r) =>
      if red then Balanced(l, h) && Balanced(r, h) && !IsRed(l) && !IsRed(r)
      else h > 0 && Balanced(l, h - 1) && Balanced(r, h - 1)
  }

  ghost function BlackHeight(t: Tree): nat {
    if t.Leaf? then 0 else BlackHeight(t.left) + if t.red then 0 else 1
  }

  ghost predicate RedBlack(t: Tree) {
    !IsRed(t) && Balanced(t, BlackHeight(t))
  }

  /** The hole of `c` expects a tree of black height `h`. */
  ghost predicate CtxOk(c: Ctx, h: nat) {
    !c.Top? ==>
      && Balanced(c.sib, h)
      && if c.red then !IsRed(c.sib) && !c.up.Top? && !c.up.red && CtxOk(c.up, h)
         else CtxOk(c.up, h + 1)
  }

  /** The root of `t` may stand in the hole of `c` without a red-red edge or a red root. */
  ghost predicate Fits(c: Ctx, t: Tree) {
    IsRed(t) ==> !c.Top? && !c.red
  }

  lemma {:induction false} BalancedHeight(t: Tree, h: nat)
    requires Balanced(t, h)
    ensures h == BlackHeight(t)
    decreases t
  {
    if t.Node? {
      BalancedHeight(t.left, if t.red then h else h - 1);
    }
  }

  lemma {:induction false} PlugRedBlack(c: Ctx, t: Tree, h: nat)
    requires CtxOk(c, h) && Balanced(t, h) && Fits(c, t)
    ensures RedBlack(Plug(c, t))
    decreases c
  {
    if c.Top? {
      BalancedHeight(t, h);
    } else {
      PlugRedBlack(c.up, Fill(c, t), if c.red then h else h + 1);
    }
  }

  lemma {:induction false} UnplugRedBlack(c: Ctx, t: Tree)
    requires RedBlack(Plug(c, t))
    ensures Balanced(t, BlackHeight(t)) && CtxOk(c, BlackHeight(t)) && Fits(c, t)
    decreases c
  {
    if !c.Top? {
      var f := Fill(c, t);
      UnplugRedBlack(c.up, f);
      BalancedHeight(t, if c.red then BlackHeight(f) else BlackHeight(f) - 1);
    }
  }
}
