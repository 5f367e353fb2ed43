/** shuffle_insert of app/track.c: moves one track directly behind another in the shuffle
    order.

    The track is erased from the tree and linked again as the leftmost leaf of what
    follows the other one, or of the whole tree if there is no other one. `Placed` is the
    order that results. The comparison that orders the shuffle tree plays no part here:
    the function links by position alone, and so the order of all other tracks
    stays. */
module Shuffle {
  import opened Common
  import opened RbShape
  import opened RbTree

  function InsertAfter(s: seq<RbNode>, p: RbNode, n: RbNode): seq<RbNode> {
    if s == [] then [n] else if s[0] == p then [p, n] + s[1..] else [s[0]] + InsertAfter(s[1..], p, n)
  }

  lemma {:induction false} InsertAfterAt(a: seq<RbNode>, p: RbNode, b: seq<RbNode>, n: RbNode)
    requires p !in a
    ensures InsertAfter(a + [p] + b, p, n) == a + [p] + [n] + b
  {
    if a != [] {
      assert (a + [p] + b)[1..] == a[1..] + [p] + b;
      InsertAfterAt(a[1..], p, b, n);
    }
  }

  lemma {:induction false} ComposeSides(d: Ctx, base: Ctx)
    ensures Before(Compose(d, base)) == Before(base) + Before(d)
    ensures After(Compose(d, base)) == After(d) + After(base)
    decreases d
  {
    if !d.Top? {
      ComposeSides(d.up, base);
    }
  }

  /** The empty link at the far left below the focus. */
  method LeftmostLink(link: RbNode?, above: Slot, ghost root: RbRoot, ghost c: Ctx, ghost t: Tree) returns (slot: Slot, ghost c': Ctx)
    requires Focus(root, c, link, t) && SlotAt(above, c)
    ensures Focus(root, c', null, Leaf) && SlotAt(slot, c') && Plug(c', Leaf) == Plug(c, t)
    ensures Before(c') == Before(c) && After(c') == InOrder(t) + After(c)
  {
    LinkColor(link, Parent(c), t);
    if link == null {
      return above, c;
    }
    ghost var d, ts;
    var s;
    s, d, ts := Leftmost(link, root, c, t);
    DownLeft(root, Compose(d, c), s, ts);
    LinkColor(s.left, s, ts.left);
    slot, c' := LeftOf(s), InLeft(Compose(d, c), s, ts.red, ts.right);
    ComposePlug(d, c, ts);
    LinkSides(c, t, d, ts, c');
  }

  lemma LinkSides(c: Ctx, t: Tree, d: Ctx, ts: Tree, c': Ctx)
    requires ts.Node? && Before(d) == [] && InOrder(t) == [ts.node] + InOrder(ts.right) + After(d)
    requires c' == InLeft(Compose(d, c), ts.node, ts.red, ts.right)
    ensures Before(c') == Before(c) && After(c') == InOrder(t) + After(c)
  {
    ComposeSides(d, c);
    Assoc([ts.node] + InOrder(ts.right), After(d), After(c));
  }

  /** The order with `next` behind `previous`, or in front for null. */
  ghost function Placed(s: seq<RbNode>, previous: RbNode?, next: RbNode): seq<RbNode> {
    if previous == null then [next] + s else InsertAfter(s, previous, next)
  }

  /** The empty link at which a node comes directly behind `previous`. */
  method LinkBehind(previous: RbNode?, root: RbRoot, ghost next: RbNode) returns (slot: Slot, ghost c: Ctx)
    requires root.Valid() && (previous != null ==> previous in Nodes(root.tree))
    ensures Focus(root, c, null, Leaf) && SlotAt(slot, c) && Plug(c, Leaf) == root.tree
    ensures Before(c) + [next] + After(c) == Placed(InOrder(root.tree), previous, next)
  {
    if previous == null {
      slot, c := LeftmostLink(root.node, AtRoot, root, Top, root.tree);
      assert After(c) == InOrder(root.tree) && Before(c) + [next] == [next];
    } else {
      ghost var t;
      c, t := OrderAround(root, previous);
      ghost var a, b := Before(c) + InOrder(t.left), InOrder(t.right) + After(c);
      InsertAfterAt(a, previous, b, next);
      DownRight(root, c, previous, t);
      slot, c := LeftmostLink(previous.right, RightOf(previous), root, InRight(c, previous, t.red, t.left), t.right);
    }
  }

  /** shuffle_insert. */
  method ShuffleInsert(root: RbRoot, previous: RbNode?, next: RbNode)
    requires root.Valid() && next in Nodes(root.tree) && (previous != null ==> previous in Nodes(root.tree))
    modifies root, Nodes(root.tree)
    ensures root.Valid() && Nodes(root.tree) == old(Nodes(root.tree))
    ensures InOrder(root.tree) == if previous == next then old(InOrder(root.tree)) else Placed(Without(old(InOrder(root.tree)), next), previous, next)
  {
    if previous == next {
      return;
    }
    Erase(next, root);
    assert allocated(Nodes(root.tree));
    ghost var c;
    var slot;
    slot, c := LinkBehind(previous, root, next);
    NodesPlug(c, Leaf);
    InsertLeaf(next, slot, root, c);
  }
}
