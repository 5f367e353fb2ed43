/** The sorted track list of app/track.c: a list of tracks indexed by a red-black tree that
    holds only the first track of each run of equals.

    A track and its tree node are one object; its list node is an object of its own, and
    `ToTrack` is container_of. `Holds` says that the linked list at a head consists of
    given tracks, `Indexed` is the invariant of list and tree together, `Clear` says that
    a track outside the tree has a cleared node, which is how the source recognizes it.
    Rebuilding a list can break the last two; `Stale` keeps track of where nodes are not
    cleared. */
module TrackList {
  import opened Common
  import opened Tracks
  import opened RbShape
  import opened RbTree
  import opened SortedRuns
  import Lists

  type ListHead = Lists.ListHead

  ghost predicate Unique(s: seq<RbNode>) {
    forall i, j :: 0 <= i < j < |s| ==> Differ(s, i, j)
  }

  predicate Differ(s: seq<RbNode>, i: int, j: int)
    requires 0 <= i < j < |s|
  {
    s[i] != s[j]
  }

  lemma AllDiffer(s: seq<RbNode>)
    requires Unique(s)
    ensures forall i, j :: 0 <= i < j < |s| ==> s[i] != s[j]
  {
    forall i, j | 0 <= i < j < |s| ensures s[i] != s[j] {
      assert Differ(s, i, j);
    }
  }

  ghost predicate OutOf(s: seq<RbNode>, i: int, t: seq<RbNode>)
    requires 0 <= i < |s|
  {
    s[i] !in t
  }

  ghost predicate Disjoint(s: seq<RbNode>, t: seq<RbNode>) {
    forall i :: 0 <= i < |s| ==> OutOf(s, i, t)
  }

  lemma NotInBoth(s: seq<RbNode>, t: seq<RbNode>, n: RbNode)
    requires Disjoint(s, t) && n in t
    ensures n !in s
  {
    forall i | 0 <= i < |s| ensures s[i] != n {
      assert OutOf(s, i, t);
    }
  }

  /** The list nodes of some tracks. */
  ghost function Items(s: seq<RbNode>): seq<ListHead> {
    seq(|s|, i requires 0 <= i < |s| => s[i].link)
  }

  /** container_of finds the track of list node `i`. */
  ghost predicate MineAt(s: seq<RbNode>, i: int)
    requires 0 <= i < |s|
    reads Items(s)`container
  {
    assert Items(s)[i] == s[i].link;
    s[i].link.container == s[i]
  }

  ghost predicate Mine(s: seq<RbNode>)
    reads Items(s)`container
  {
    forall i :: 0 <= i < |s| ==> MineAt(s, i)
  }

  /** The list node in front of position `i`, and the one at it. */
  ghost function Left(head: ListHead, s: seq<RbNode>, i: nat): ListHead
    requires i <= |s|
  {
    if i == 0 then head else s[i - 1].link
  }

  ghost function Right(head: ListHead, s: seq<RbNode>, i: nat): ListHead
    requires i <= |s|
  {
    if i == |s| then head else s[i].link
  }

  ghost predicate LinkedAt(head: ListHead, s: seq<RbNode>, i: nat)
    requires i <= |s|
    reads head, Items(s)
  {
    assert i > 0 ==> Items(s)[i - 1] == s[i - 1].link;
    assert i < |s| ==> Items(s)[i] == s[i].link;
    Left(head, s, i).next == Right(head, s, i) && Right(head, s, i).prev == Left(head, s, i)
  }

  /** The linked list at `head` holds the tracks `s`: at each position the nodes on both sides are
      linked to each other. */
  ghost predicate Holds(head: ListHead, s: seq<RbNode>)
    reads head, Items(s)
  {
    head.container == null && Mine(s) && forall i :: 0 <= i <= |s| ==> LinkedAt(head, s, i)
  }

  twostate predicate SameItem(item: ListHead)
    reads item
  {
    item.next == old(item.next) && item.prev == old(item.prev) && item.container == old(item.container)
  }

  /** This is a well-formed circular list. */
  lemma HoldsIsRing(head: ListHead, s: seq<RbNode>)
    requires Unique(s) && Mine(s) && head.container == null
    ensures Holds(head, s) <==> Lists.Ring(head, Items(s))
  {
    HeadApart(head, s);
    AllDiffer(s);
    forall i, j | 0 <= i < j < |s| ensures Items(s)[i] != Items(s)[j] {
      assert MineAt(s, i) && MineAt(s, j);
    }
    if Holds(head, s) {
      assert LinkedAt(head, s, 0) && LinkedAt(head, s, |s|);
      forall i, j | 0 <= i < j < |s| && j == i + 1 ensures Items(s)[i].next == Items(s)[j] && Items(s)[j].prev == Items(s)[i] {
        assert LinkedAt(head, s, j);
      }
    }
    if Lists.Ring(head, Items(s)) {
      forall i | 0 <= i <= |s| ensures LinkedAt(head, s, i) {
        if 0 < i < |s| {
          assert Items(s)[i - 1].next == Items(s)[i];
        }
      }
    }
  }

  /** to_simple_track. */
  function ToTrack(item: ListHead): RbNode
    requires item.container is RbNode
    reads item`container
  {
    item.container as RbNode
  }

  lemma ItemOf(s: seq<RbNode>, n: RbNode)
    requires Mine(s)
    ensures n in s ==> n.link in Items(s) && n.link.container == n
    ensures n.link.container == n && n.link in Items(s) ==> n in s
  {
    if n in s {
      var i :| 0 <= i < |s| && s[i] == n;
      assert MineAt(s, i) && Items(s)[i] == n.link;
    }
    if n.link in Items(s) {
      var i :| 0 <= i < |s| && Items(s)[i] == n.link;
      assert MineAt(s, i);
    }
  }

  lemma HeadApart(head: ListHead, s: seq<RbNode>)
    requires Mine(s) && head.container == null
    ensures head !in Items(s)
  {
    forall i | 0 <= i < |s| ensures Items(s)[i] != head {
      assert MineAt(s, i);
    }
  }

  lemma ItemsApart(s: seq<RbNode>, t: seq<RbNode>)
    requires Mine(s) && Mine(t) && Disjoint(s, t)
    ensures forall i :: 0 <= i < |s| ==> Items(s)[i] !in Items(t)
    ensures forall i :: 0 <= i < |t| ==> Items(t)[i] !in Items(s)
  {
    forall i, j | 0 <= i < |s| && 0 <= j < |t| ensures Items(s)[i] != Items(t)[j] {
      assert MineAt(s, i) && MineAt(t, j) && OutOf(s, i, t) && t[j] in t;
    }
  }

  lemma ItemsWithin(s: seq<RbNode>, t: seq<RbNode>)
    requires forall i :: 0 <= i < |s| ==> s[i] in t
    ensures forall i :: 0 <= i < |s| ==> Items(s)[i] in Items(t)
  {
    forall i | 0 <= i < |s| ensures Items(s)[i] in Items(t) {
      assert s[i] in t;
      var j :| 0 <= j < |t| && t[j] == s[i];
      assert Items(t)[j] == s[i].link;
    }
  }

  lemma ItemsConcat(x: seq<RbNode>, y: seq<RbNode>)
    ensures Items(x + y) == Items(x) + Items(y)
  {
  }

  lemma ItemsAround(x: seq<RbNode>, n: RbNode, y: seq<RbNode>)
    ensures Items(x + [n] + y) == Items(x) + [n.link] + Items(y)
    ensures Lists.Without(Items(x + [n] + y), |x|) == Items(x + y) && Items(x + y) == Items(x) + Items(y)
  {
    assert Items([n]) == [n.link];
    ItemsConcat(x, [n]);
    ItemsConcat(x + [n], y);
    ItemsConcat(x, y);
  }

  lemma MineAround(x: seq<RbNode>, n: RbNode, y: seq<RbNode>)
    ensures Mine(x + [n] + y) <==> Mine(x + y) && n.link.container == n
  {
    var s, t := x + [n] + y, x + y;
    assert s[|x|] == n && MineAt(s, |x|) == (n.link.container == n);
    forall i | 0 <= i < |t| ensures MineAt(t, i) == MineAt(s, if i < |x| then i else i + 1) {
      assert t[i] == s[if i < |x| then i else i + 1];
    }
    if Mine(t) && n.link.container == n {
      forall i | 0 <= i < |s| ensures MineAt(s, i) {
        if i != |x| {
          assert MineAt(t, if i < |x| then i else i - 1);
        }
      }
    }
  }

  method PutInList(head: ListHead, track: RbNode, node: ListHead, ghost x: seq<RbNode>, ghost y: seq<RbNode>)
    requires Holds(head, x + y) && Unique(x + [track] + y) && track.link.container == track && node == Right(head, y, 0)
    modifies head`next, head`prev, Items(x + y)`next, Items(x + y)`prev, track.link`next, track.link`prev
    ensures Holds(head, x + [track] + y)
  {
    MineAround(x, track, y);
    PutFacts(head, track, node, x, y);
    Lists.ListAdd(track.link, node.prev, head, Items(x), Items(y));
    HoldsIsRing(head, x + [track] + y);
  }

  lemma PutFacts(head: ListHead, track: RbNode, node: ListHead, x: seq<RbNode>, y: seq<RbNode>)
    requires Holds(head, x + y) && Unique(x + [track] + y) && track.link.container == track && node == Right(head, y, 0)
    ensures Items(x + [track] + y) == Items(x) + [track.link] + Items(y) && Items(x + y) == Items(x) + Items(y)
    ensures Lists.Ring(head, Items(x) + Items(y))
    ensures track.link !in Items(x + y) && track.link != head && node == Lists.First(Items(y), head) && node.prev == Lists.Last(Items(x), head)
    ensures node == head || node in Items(x + y)
    ensures node.prev == head || node.prev in Items(x + y)
  {
    UniqueParts(x, track, y);
    HoldsIsRing(head, x + y);
    ItemsAround(x, track, y);
    ItemOf(x + y, track);
    Lists.SeamLinks(head, Items(x), Items(y));
    Lists.EndsInside(Items(x), head);
    Lists.EndsInside(Items(y), head);
  }

  method DropFromList(head: ListHead, track: RbNode, ghost x: seq<RbNode>, ghost y: seq<RbNode>)
    requires Holds(head, x + [track] + y) && Unique(x + [track] + y)
    modifies head`next, head`prev, Items(x + [track] + y)`next, Items(x + [track] + y)`prev
    ensures Holds(head, x + y) && track.link.container == track
  {
    UniqueParts(x, track, y);
    MineAround(x, track, y);
    ItemsAround(x, track, y);
    HoldsIsRing(head, x + [track] + y);
    assert (x + [track] + y)[|x|] == track;
    assert Items(x + [track] + y)[|x|] == track.link;
    Lists.ListDel(track.link, head, Items(x + [track] + y), |x|);
    HoldsIsRing(head, x + y);
  }

  /** The splice at the end of sorted_list_rebuild. */
  method SpliceTracks(head: ListHead, tmp: ListHead, ghost s: seq<RbNode>)
    requires Holds(tmp, s) && Unique(s) && head != tmp && head.container == null
    modifies head`next, head`prev, tmp`next, tmp`prev, Items(s)`next, Items(s)`prev
    ensures if s != [] then Holds(head, s) else !Holds(head, s) && head.next == head.prev == tmp && tmp.next == tmp.prev == head
  {
    HeadApart(head, s);
    HoldsIsRing(tmp, s);
    Lists.EndsInside(Items(s), tmp);
    Lists.SpliceOver(head, tmp, Items(s));
    HoldsIsRing(head, s);
    assert s == [] ==> Items(s) == [];
  }

  class SortedTracks {
    const head: ListHead
    const root: RbRoot
    ghost var tracks: seq<RbNode>

    constructor ()
      ensures fresh(head) && fresh(root) && tracks == [] && Holds(head, []) && root.Valid() && root.tree == Leaf
    {
      head := new Lists.ListHead();
      root := new RbRoot();
      tracks := [];
      new;
      HoldsIsRing(head, []);
      assert Items([]) == [];
    }

    /** The list is sorted and the tree holds exactly the first track of each run, in order. */
    ghost predicate Ordered(cmp: Compare)
      reads this, root, Nodes(root.tree)
    {
      InTree(tracks, cmp)
    }

    /** The invariant of linked list and tree. */
    ghost predicate Indexed(cmp: Compare)
      reads this, root, Nodes(root.tree), head, Items(tracks)
    {
      Ordered(cmp) && Holds(head, tracks)
    }

    /** The descent of sorted_list_add_track. */
    method Search(track: RbNode, cmp: Compare) returns (slot: Slot, found: RbNode?, ghost c: Ctx)
      requires Ordered(cmp)
      ensures found != null ==> found in Nodes(root.tree) && Cmp(cmp, track, found) == 0
      ensures found == null ==> Focus(root, c, null, Leaf) && SlotAt(slot, c) && Plug(c, Leaf) == root.tree
      ensures found == null ==> forall n :: n in Before(c) ==> Cmp(cmp, n, track) < 0
      ensures found == null ==> forall n :: n in After(c) ==> Cmp(cmp, track, n) < 0
    {
      var curr := root.node;
      slot := AtRoot;
      ghost var t;
      c, t := Top, root.tree;
      FirstsRise(tracks, cmp);
      while curr != null
        invariant Focus(root, c, curr, t) && SlotAt(slot, c) && Plug(c, t) == root.tree
        invariant Sequence(c, t) == InOrder(root.tree)
        invariant forall n :: n in Before(c) ==> Cmp(cmp, n, track) < 0
        invariant forall n :: n in After(c) ==> Cmp(cmp, track, n) < 0
        decreases t
      {
        var result := Cmp(cmp, track, curr);
        LinkColor(curr, Parent(c), t);
        DescentOrder(c, t, cmp, track);
        if result < 0 {
          DownLeft(root, c, curr, t);
          FillSequence(InLeft(c, curr, t.red, t.right), t.left);
          slot, c, t, curr := LeftOf(curr), InLeft(c, curr, t.red, t.right), t.left, curr.left;
        } else if result > 0 {
          DownRight(root, c, curr, t);
          FillSequence(InRight(c, curr, t.red, t.left), t.right);
          slot, c, t, curr := RightOf(curr), InRight(c, curr, t.red, t.left), t.right, curr.right;
        } else {
          NodesPlug(c, t);
          return slot, curr, c;
        }
      }
      LinkColor(curr, Parent(c), t);
      found := null;
    }

    /** The nodes of the tree are tracks of the list. */
    lemma TreeInList(cmp: Compare)
      requires Ordered(cmp)
      ensures forall n :: n in Nodes(root.tree) ==> n in tracks
    {
      FirstsInside(tracks, cmp);
      forall n | n in Nodes(root.tree) ensures n in tracks {
        InOrderHas(root.tree, n);
      }
    }

    /** The list node of a track, or the head for null. */
    function NodeOf(track: RbNode?): ListHead {
      if track == null then head else track.link
    }

    /** sorted_list_add_track when no equal track is present: the tree part. `node` is the list node
        in front of which the track goes, between `x` and `y`. */
    method AddNew(track: RbNode, cmp: Compare, last: bool, slot: Slot, ghost c: Ctx) returns (node: ListHead, ghost x: seq<RbNode>, ghost y: seq<RbNode>)
      requires Ordered(cmp) && track !in tracks
      requires Focus(root, c, null, Leaf) && SlotAt(slot, c) && Plug(c, Leaf) == root.tree
      requires forall n :: n in Before(c) ==> Cmp(cmp, n, track) < 0
      requires forall n :: n in After(c) ==> Cmp(cmp, track, n) < 0
      modifies root, Nodes(root.tree), track
      ensures Placed(track, cmp, last, node, x, y)
      ensures Nodes(root.tree) == old(Nodes(root.tree)) + {track}
    {
      x, y := PlaceNew(tracks, track, cmp, last, root.tree, c);
      TreeInList(cmp);
      var next := LinkNew(track, root, slot, c);
      node := NodeOf(next);
    }

    /** The tree holds the firsts of the list that it will be once `track` is in front of `node`. */
    ghost predicate Placed(track: RbNode, cmp: Compare, last: bool, node: ListHead, x: seq<RbNode>, y: seq<RbNode>)
      reads this, root, Nodes(root.tree)
    {
      && root.Valid() && InOrder(root.tree) == Firsts(x + [track] + y, cmp)
      && Goes(tracks, track, cmp, last, x, y) && node == Right(head, y, 0)
    }

    /** sorted_list_add_track in front of the equal track `found`, which leaves the tree. */
    method AddInFront(track: RbNode, cmp: Compare, found: RbNode) returns (node: ListHead, ghost x: seq<RbNode>, ghost y: seq<RbNode>)
      requires Ordered(cmp) && track !in tracks && found in Nodes(root.tree) && Cmp(cmp, track, found) == 0
      modifies root, Nodes(root.tree), track
      ensures Placed(track, cmp, false, node, x, y)
      ensures Nodes(root.tree) == old(Nodes(root.tree)) - {found} + {track} && found.parent == found
    {
      TreeInList(cmp);
      InOrderHas(root.tree, found);
      ghost var j :| 0 <= j < |InOrder(root.tree)| && InOrder(root.tree)[j] == found;
      x, y := GoesFirst(tracks, track, cmp, j);
      node := NodeOf(found);
      ReplaceAndClear(found, track, root, j);
    }

    /** sorted_list_add_track behind the tracks equal to `found`; the tree stays as it is. */
    method AddBehind(track: RbNode, cmp: Compare, found: RbNode) returns (node: ListHead, ghost x: seq<RbNode>, ghost y: seq<RbNode>)
      requires Ordered(cmp) && found in Nodes(root.tree) && Cmp(cmp, track, found) == 0
      ensures Placed(track, cmp, true, node, x, y)
    {
      InOrderHas(root.tree, found);
      ghost var j :| 0 <= j < |InOrder(root.tree)| && InOrder(root.tree)[j] == found;
      x, y := GoesLast(tracks, track, cmp, j);
      assert allocated(Nodes(root.tree));
      var next := Next(found, root);
      node := NodeOf(next);
    }

    /** The tree part of sorted_list_add_track: `x` and `y` are what will surround the track. */
    method AddToTree(track: RbNode, cmp: Compare, tiebreak: int) returns (node: ListHead, ghost x: seq<RbNode>, ghost y: seq<RbNode>)
      requires Ordered(cmp) && track !in tracks
      modifies root, Nodes(root.tree), track
      ensures InTree(x + [track] + y, cmp) && tracks == x + y && node == Right(head, y, 0)
      ensures x + [track] + y == Insert(tracks, track, cmp, tiebreak >= 0)
      ensures Nodes(root.tree) <= old(Nodes(root.tree)) + {track}
      ensures forall n :: n in old(Nodes(root.tree)) && n !in Nodes(root.tree) ==> n.parent == n
      ensures tiebreak >= 0 ==> old(Nodes(root.tree)) <= Nodes(root.tree)
      ensures track !in Nodes(root.tree) ==> track.parent == old(track.parent)
    {
      assert allocated(Nodes(root.tree));
      ghost var c;
      var slot, found;
      slot, found, c := Search(track, cmp);
      TreeInList(cmp);
      if found != null {
        if tiebreak < 0 {
          node, x, y := AddInFront(track, cmp, found);
        } else {
          node, x, y := AddBehind(track, cmp, found);
        }
      } else {
        node, x, y := AddNew(track, cmp, tiebreak >= 0, slot, c);
      }
      Added(tracks, track, cmp, tiebreak >= 0, x, y);
    }

    /** list_add(&track->node, node->prev), when the tree is up to date. */
    method AddToList(track: RbNode, ghost cmp: Compare, node: ListHead, ghost x: seq<RbNode>, ghost y: seq<RbNode>)
      requires InTree(x + [track] + y, cmp) && tracks == x + y && node == Right(head, y, 0)
      requires Holds(head, tracks) && track !in tracks && track.link.container == track
      modifies this`tracks, head, Items(tracks), track.link
      ensures Indexed(cmp) && tracks == x + [track] + y
    {
      assert allocated(Nodes(root.tree));
      tracks := x + [track] + y;
      label before:
      PutInList(head, track, node, x, y);
      OrderedStays@before(cmp);
    }

    /** The tree is the one for the list `s`. */
    ghost predicate InTree(s: seq<RbNode>, cmp: Compare)
      reads this, root, Nodes(root.tree)
    {
      root.Valid() && TotalPreorder(cmp) && Unique(s) && Sorted(s, cmp) && InOrder(root.tree) == Firsts(s, cmp)
    }

    /** sorted_list_add_track. The new track goes behind its equals for tiebreak >= 0 and in front
        of them otherwise. A track that leaves the tree is cleared; the node of a new track that
        does not enter the tree is left as it was. */
    method Add(track: RbNode, cmp: Compare, tiebreak: int)
      requires Indexed(cmp) && track !in tracks && track.link.container == track
      modifies this`tracks, root, Nodes(root.tree), track, head, Items(tracks), track.link
      ensures Indexed(cmp) && tracks == Insert(old(tracks), track, cmp, tiebreak >= 0)
      ensures Nodes(root.tree) <= old(Nodes(root.tree)) + {track}
      ensures forall n :: n in old(Nodes(root.tree)) && n !in Nodes(root.tree) ==> n.parent == n
      ensures tiebreak >= 0 ==> old(Nodes(root.tree)) <= Nodes(root.tree)
      ensures track !in Nodes(root.tree) ==> track.parent == old(track.parent)
    {
      assert allocated(Nodes(root.tree));
      var node;
      ghost var x, y;
      node, x, y := AddToTree(track, cmp, tiebreak);
      AddToList(track, cmp, node, x, y);
    }

    /** The same on a list whose other tracks outside the tree are all cleared, and a cleared track. */
    method AddCleared(track: RbNode, cmp: Compare, tiebreak: int)
      requires Indexed(cmp) && track !in tracks && track.link.container == track && Clear() && track.parent == track
      modifies this`tracks, root, Nodes(root.tree), track, head, Items(tracks), track.link
      ensures Indexed(cmp) && tracks == Insert(old(tracks), track, cmp, tiebreak >= 0) && Clear()
      ensures Nodes(root.tree) <= old(Nodes(root.tree)) + {track}
    {
      Add(track, cmp, tiebreak);
      InsertMembers(old(tracks), track, cmp, tiebreak >= 0);
    }

    /** The tree part of sorted_list_remove_track when the next track takes over as first. */
    method HandOver(track: RbNode, next: RbNode, ghost cmp: Compare, ghost x: seq<RbNode>, ghost y: seq<RbNode>)
      requires Ordered(cmp) && tracks == x + [track] + y && track in Nodes(root.tree)
      requires Seam(x, [track], cmp) && y != [] && y[0] == next && Cmp(cmp, track, next) == 0
      modifies root, Nodes(root.tree), next
      ensures root.Valid() && InOrder(root.tree) == Firsts(x + y, cmp)
      ensures Nodes(root.tree) == old(Nodes(root.tree)) - {track} + {next} && track.parent == track
    {
      DropFirst(x, track, y, cmp);
      UniqueParts(x, track, y);
      NextIsNotFirst(x, track, y, cmp);
      ghost var j := |Firsts(x, cmp)|;
      assert InOrder(root.tree)[j] == track;
      InOrderHas(root.tree, next);
      ReplaceAndClear(track, next, root, j);
      PutBetween(Firsts(x, cmp), track, Firsts(y, cmp), next);
    }

    /** The tree part of sorted_list_remove_track when a run disappears. */
    method DropRun(track: RbNode, ghost cmp: Compare, ghost x: seq<RbNode>, ghost y: seq<RbNode>)
      requires Ordered(cmp) && tracks == x + [track] + y && track in Nodes(root.tree)
      requires Seam(x, [track], cmp) && Seam([track], y, cmp)
      modifies root, Nodes(root.tree) - {track}
      ensures root.Valid() && InOrder(root.tree) == Firsts(x + y, cmp)
      ensures Nodes(root.tree) == old(Nodes(root.tree)) - {track}
    {
      DropOnly(x, track, y, cmp);
      UniqueParts(x, track, y);
      FirstsInside(x, cmp);
      FirstsInside(y, cmp);
      WithoutMiddle(Firsts(x, cmp), track, Firsts(y, cmp));
      Erase(track, root);
    }

    /** sorted_list_remove_track. `x` and `y` are what surrounds the track in the list. */
    method Remove(track: RbNode, ghost cmp: Compare, ghost x: seq<RbNode>, ghost y: seq<RbNode>)
      requires Indexed(cmp) && tracks == x + [track] + y
      requires track in Nodes(root.tree) || track.parent == track
      modifies this`tracks, root, tracks, head, Items(tracks)
      ensures Indexed(cmp) && tracks == x + y && track.link.container == track
      ensures old(Nodes(root.tree)) - {track} <= Nodes(root.tree)
      ensures forall n :: n in tracks && n !in Nodes(root.tree) ==> n.parent == old(n.parent)
      ensures track.parent == if y != [] && Cmp(cmp, track, y[0]) == 0 then track else old(track.parent)
      ensures old(Clear()) ==> Clear()
    {
      UniqueParts(x, track, y);
      RemovedSorted(x, track, y, cmp);
      RemoveFromTree(track, cmp, x, y);
      RemoveFromList(track, cmp, x, y);
    }

    /** list_del(&track->node), when the tree is up to date. */
    method RemoveFromList(track: RbNode, ghost cmp: Compare, ghost x: seq<RbNode>, ghost y: seq<RbNode>)
      requires Holds(head, tracks) && tracks == x + [track] + y && Unique(tracks) && InTree(x + y, cmp)
      modifies this`tracks, head, Items(tracks)
      ensures tracks == x + y && Indexed(cmp) && track.link.container == track
    {
      assert allocated(Nodes(root.tree));
      tracks := x + y;
      label before:
      DropFromList(head, track, x, y);
      OrderedStays@before(cmp);
    }

    /** The track behind `track` in the list, or null at the end. */
    method NextTrack(track: RbNode, ghost x: seq<RbNode>, ghost y: seq<RbNode>) returns (next: RbNode?)
      requires Holds(head, tracks) && tracks == x + [track] + y
      ensures IsAt(y, 0, next)
    {
      assert LinkedAt(head, tracks, |x| + 1) && Left(head, tracks, |x| + 1) == track.link;
      HeadApart(head, tracks);
      if y != [] {
        assert tracks[|x| + 1] == y[0] && Items(tracks)[|x| + 1] == y[0].link && MineAt(tracks, |x| + 1);
      }
      if track.link.next != head {
        next := ToTrack(track.link.next);
      } else {
        next := null;
      }
    }

    method RemoveFromTree(track: RbNode, ghost cmp: Compare, ghost x: seq<RbNode>, ghost y: seq<RbNode>)
      requires Indexed(cmp) && tracks == x + [track] + y
      requires track in Nodes(root.tree) || track.parent == track
      modifies root, tracks
      ensures root.Valid() && InOrder(root.tree) == Firsts(x + y, cmp)
      ensures old(Nodes(root.tree)) - {track} <= Nodes(root.tree)
      ensures forall n :: n in x + y && n !in Nodes(root.tree) ==> n.parent == old(n.parent)
      ensures track.parent == if y != [] && Cmp(cmp, track, y[0]) == 0 then track else old(track.parent)
    {
      TreeInList(cmp);
      UniqueParts(x, track, y);
      FirstOrNot(x, track, y, cmp);
      InOrderHas(root.tree, track);
      EmptyNode(root, track);
      assert y != [] ==> tracks[|x| + 1] == y[0];
      assert allocated(Nodes(root.tree));
      if track.parent != track {
        var nextTrack := NextTrack(track, x, y);
        var treeNext := Next(track, root);
        RunContinues(x, track, y, cmp, nextTrack, treeNext);
        if nextTrack != null && (treeNext == null || treeNext != nextTrack) {
          HandOver(track, nextTrack, cmp, x, y);
        } else {
          DropRun(track, cmp, x, y);
        }
      } else {
        DropEqual(x, track, y, cmp);
      }
    }

    /** Every track outside the tree has a cleared node. */
    ghost predicate Clear()
      reads this, root, tracks
    {
      forall n :: n in tracks && n !in Nodes(root.tree) ==> n.parent == n
    }

    /** Removing the first track: its node is cleared exactly if its run goes on. */
    method TakeFirst(track: RbNode, ghost was: Compare)
      requires Indexed(was) && Clear() && tracks != [] && track == tracks[0]
      modifies this`tracks, root, tracks, head, Items(tracks)
      ensures tracks == old(tracks)[1..] && track !in tracks && track.link.container == track
      ensures Indexed(was) && Clear()
      ensures track.parent == track <==> !EndsRun(old(tracks), 0, was)
    {
      ghost var rest := tracks[1..];
      FirstApart(tracks, track, rest);
      FirstInTree(was);
      NotEmptyNode(root, track);
      Remove(track, was, [], rest);
    }

    /** The state of sorted_list_rebuild after `k` of the tracks `all` have moved to `tmp`. */
    ghost predicate Moved(tmp: SortedTracks, cmp: Compare, was: Compare, all: seq<RbNode>, k: nat)
      reads this, root, Nodes(root.tree), head, Items(tracks), tracks
      reads tmp, tmp.root, Nodes(tmp.root.tree), tmp.head, Items(tmp.tracks), all
    {
      && k <= |all| && Unique(all) && tracks == all[k..] && Indexed(was) && Clear()
      && tmp.Indexed(cmp) && tmp.tracks == InsertAll(all[..k], cmp) && tmp.Stale(all, k, was)
    }

    /** Nothing is shared with another list. */
    ghost predicate Beside(tmp: SortedTracks) {
      this != tmp && root != tmp.root && head != tmp.head
    }

    /** First half of a round of sorted_list_rebuild: `tmp` is not touched. */
    method TakeNext(track: RbNode, ghost tmp: SortedTracks, ghost cmp: Compare, ghost was: Compare, ghost all: seq<RbNode>, ghost k: nat)
      requires Beside(tmp) && k < |all| && Moved(tmp, cmp, was, all, k) && track == all[k]
      modifies this`tracks, root, all, head, Items(all)
      ensures tracks == all[k + 1..] && Indexed(was) && Clear() && track.link.container == track
      ensures tmp.Indexed(cmp) && tmp.Stale(all, k, was)
      ensures track.parent == track <==> !EndsRun(all, k, was)
    {
      MovedApart(tmp, cmp, was, all, k);
      TakeBeside(track, was, tmp, cmp, all, k);
    }

    lemma MovedApart(tmp: SortedTracks, cmp: Compare, was: Compare, all: seq<RbNode>, k: nat)
      requires k < |all| && Moved(tmp, cmp, was, all, k)
      ensures forall i :: 0 <= i < k ==> all[i] !in tracks
      ensures Disjoint(tracks, tmp.tracks)
      ensures forall i :: 0 <= i < |tracks| ==> Items(tracks)[i] in Items(all)
      ensures tracks != [] && tracks[0] == all[k] && tracks[1..] == all[k + 1..] && EndsRun(tracks, 0, was) == EndsRun(all, k, was)
    {
      MovedDisjoint(all, k, cmp);
      PartsApart(all, k);
      EndsRunFrom(all, k, was);
      ItemsWithin(tracks, all);
    }

    method TakeBeside(track: RbNode, ghost was: Compare, ghost tmp: SortedTracks, ghost cmp: Compare, ghost all: seq<RbNode>, ghost k: nat)
      requires Indexed(was) && Clear() && tracks != [] && track == tracks[0]
      requires Beside(tmp) && tmp.Indexed(cmp) && Disjoint(tracks, tmp.tracks)
      requires k <= |all| && forall i :: 0 <= i < k ==> all[i] !in tracks
      modifies this`tracks, root, tracks, head, Items(tracks)
      ensures tracks == old(tracks)[1..] && track !in tracks && track.link.container == track
      ensures Indexed(was) && Clear() && tmp.Indexed(cmp)
      ensures track.parent == track <==> !EndsRun(old(tracks), 0, was)
      ensures forall i :: 0 <= i < k ==> all[i].parent == old(all[i].parent)
    {
      TreesApart(was, tmp, cmp);
      ListsApart(tmp);
      assert allocated(Nodes(tmp.root.tree)) by { assert allocated(tmp.tracks); }
      assert allocated(Items(tmp.tracks));
      label before:
      TakeFirst(track, was);
      assert forall i :: 0 <= i < |tmp.tracks| ==> SameItem@before(Items(tmp.tracks)[i]);
      tmp.IndexedStays@before(cmp);
    }

    lemma TreesApart(cmp: Compare, from: SortedTracks, was: Compare)
      requires Ordered(cmp) && from.Ordered(was) && Disjoint(tracks, from.tracks)
      ensures forall n :: n in Nodes(from.root.tree) ==> n in from.tracks && n !in tracks && n !in Nodes(root.tree)
      ensures forall n :: n in from.tracks ==> n !in Nodes(root.tree)
    {
      TreeInList(cmp);
      from.TreeInList(was);
      forall n | n in from.tracks ensures n !in tracks {
        NotInBoth(tracks, from.tracks, n);
      }
    }

    /** The list nodes of two lists without common tracks are different ones. */
    lemma ListsApart(tmp: SortedTracks)
      requires Holds(head, tracks) && Holds(tmp.head, tmp.tracks) && Disjoint(tracks, tmp.tracks)
      ensures tmp.head !in Items(tracks) && head !in Items(tmp.tracks)
      ensures forall i :: 0 <= i < |tmp.tracks| ==> Items(tmp.tracks)[i] !in Items(tracks) && Items(tmp.tracks)[i] != head
    {
      HeadApart(tmp.head, tracks);
      HeadApart(head, tmp.tracks);
      ItemsApart(tracks, tmp.tracks);
    }

    /** What another list does leaves this one alone. */
    twostate lemma IndexedStays(cmp: Compare)
      requires old(Indexed(cmp)) && old(allocated(Nodes(root.tree))) && old(allocated(Items(tracks))) && unchanged(this, root, old(Nodes(root.tree))) && SameItem(head)
      requires forall i :: 0 <= i < |old(tracks)| ==> SameItem(Items(old(tracks))[i])
      ensures Indexed(cmp)
    {
      forall i | 0 <= i < |tracks| ensures MineAt(tracks, i) && tracks[i].link in Items(tracks) {
        assert old(MineAt(tracks, i));
        assert Items(tracks)[i] == tracks[i].link && Items(tracks)[i] in Items(tracks);
      }
      forall i | 0 <= i <= |tracks| ensures LinkedAt(head, tracks, i) {
        assert old(LinkedAt(head, tracks, i));
      }
    }

    /** What the links of the list do leaves the tree alone. */
    twostate lemma OrderedStays(cmp: Compare)
      requires old(Ordered(cmp)) && old(allocated(Nodes(root.tree))) && unchanged(this, root, old(Nodes(root.tree)))
      ensures Ordered(cmp)
    {
    }

    twostate lemma ClearStays()
      requires old(Clear()) && unchanged(this, root, old(tracks))
      ensures Clear()
    {
    }

    lemma AddApart(track: RbNode, cmp: Compare, from: SortedTracks, was: Compare)
      requires Indexed(cmp) && from.Indexed(was) && track !in from.tracks && track.link.container == track && Disjoint(tracks, from.tracks)
      ensures forall n :: n in Nodes(from.root.tree) ==> n !in Nodes(root.tree) && n != track
      ensures forall n :: n in from.tracks ==> n !in Nodes(root.tree)
      ensures forall i :: 0 <= i < |from.tracks| ==> Items(from.tracks)[i] !in Items(tracks) && Items(from.tracks)[i] != head && Items(from.tracks)[i] != track.link
      ensures from.head !in Items(tracks) && from.head != track.link
    {
      TreesApart(cmp, from, was);
      ListsApart(from);
      ItemOf(from.tracks, track);
    }

    /** Adding a track, with the list it came from next to this one. */
    method AddBeside(track: RbNode, cmp: Compare, ghost from: SortedTracks, ghost was: Compare)
      requires Beside(from) && from.Indexed(was) && track !in from.tracks && Disjoint(tracks, from.tracks)
      requires Indexed(cmp) && track !in tracks && track.link.container == track
      modifies this`tracks, root, Nodes(root.tree), track, head, Items(tracks), track.link
      ensures Indexed(cmp) && tracks == Insert(old(tracks), track, cmp, true)
      ensures old(Nodes(root.tree)) <= Nodes(root.tree) <= old(Nodes(root.tree)) + {track}
      ensures track !in Nodes(root.tree) ==> track.parent == old(track.parent)
      ensures from.Indexed(was)
    {
      AddApart(track, cmp, from, was);
      assert allocated(from.tracks) && allocated(Nodes(from.root.tree)) && allocated(Items(from.tracks));
      label before:
      Add(track, cmp, 0);
      assert forall i :: 0 <= i < |from.tracks| ==> SameItem@before(Items(from.tracks)[i]);
      from.IndexedStays@before(was);
    }

    /** The other list's tracks outside its tree stay cleared. */
    method AddBesideClear(track: RbNode, cmp: Compare, ghost from: SortedTracks, ghost was: Compare)
      requires Beside(from) && from.Indexed(was) && from.Clear() && track !in from.tracks && Disjoint(tracks, from.tracks)
      requires Indexed(cmp) && track !in tracks && track.link.container == track
      modifies this`tracks, root, Nodes(root.tree), track, head, Items(tracks), track.link
      ensures Indexed(cmp) && tracks == Insert(old(tracks), track, cmp, true)
      ensures old(Nodes(root.tree)) <= Nodes(root.tree) <= old(Nodes(root.tree)) + {track}
      ensures track !in Nodes(root.tree) ==> track.parent == old(track.parent)
      ensures from.Indexed(was) && from.Clear()
    {
      TreesApart(cmp, from, was);
      label before:
      AddBeside(track, cmp, from, was);
      from.ClearStays@before();
    }

    /** The next of the tracks `all` is added behind its equals. */
    method AddMoved(track: RbNode, cmp: Compare, ghost from: SortedTracks, ghost was: Compare, ghost all: seq<RbNode>, ghost k: nat)
      requires Beside(from) && from.Indexed(was) && from.Clear() && track !in from.tracks && Disjoint(tracks, from.tracks)
      requires k < |all| && track == all[k] && track !in tracks && Unique(all) && track.link.container == track
      requires Indexed(cmp) && tracks == InsertAll(all[..k], cmp) && Stale(all, k, was)
      requires track.parent == track <==> !EndsRun(all, k, was)
      modifies this`tracks, root, Nodes(root.tree), track, head, Items(tracks), track.link
      ensures Indexed(cmp) && tracks == InsertAll(all[..k + 1], cmp) && Stale(all, k + 1, was)
      ensures from.Indexed(was) && from.Clear()
    {
      InsertAllMore(all, k, cmp);
      AddBesideClear(track, cmp, from, was);
    }

    /** Second half: the list it came from is not touched. */
    method PutNext(track: RbNode, ghost from: SortedTracks, cmp: Compare, ghost was: Compare, ghost all: seq<RbNode>, ghost k: nat)
      requires Beside(from) && Unique(all) && k < |all| && track == all[k] && track.link.container == track
      requires from.tracks == all[k + 1..] && from.Indexed(was) && from.Clear()
      requires Indexed(cmp) && tracks == InsertAll(all[..k], cmp) && Stale(all, k, was)
      requires track.parent == track <==> !EndsRun(all, k, was)
      modifies this`tracks, root, all, head, Items(tracks), track.link
      ensures from.Moved(this, cmp, was, all, k + 1)
    {
      MovedDisjoint(all, k, cmp);
      TreeInList(cmp);
      assert forall n :: n in Nodes(root.tree) ==> n in all;
      AddMoved(track, cmp, from, was, all, k);
    }

    lemma FirstInTree(cmp: Compare)
      requires Ordered(cmp) && tracks != []
      ensures tracks[0] in Nodes(root.tree)
    {
      FirstsInside(tracks, cmp);
      InOrderHas(root.tree, tracks[0]);
    }

    /** Of the tracks moved so far, those outside the tree are cleared unless they ended a run. */
    ghost predicate Stale(all: seq<RbNode>, k: nat, was: Compare)
      requires k <= |all|
      reads root, all
    {
      forall i {:trigger all[i]} :: 0 <= i < k && all[i] !in Nodes(root.tree) ==> (all[i].parent == all[i] <==> !EndsRun(all, i, was))
    }

    /** One round of sorted_list_rebuild. */
    method MoveNext(item: ListHead, tmp: SortedTracks, cmp: Compare, ghost was: Compare, ghost all: seq<RbNode>, ghost k: nat)
      requires Beside(tmp) && k < |all| && Moved(tmp, cmp, was, all, k) && item == all[k].link
      modifies this`tracks, root, all, head, Items(all), tmp`tracks, tmp.root, tmp.head
      ensures Moved(tmp, cmp, was, all, k + 1)
    {
      ItemOf(tracks, all[k]);
      var track := ToTrack(item);
      InsertAllWithin(all, k, cmp);
      TakeNext(track, tmp, cmp, was, all, k);
      tmp.PutNext(track, this, cmp, was, all, k);
    }

    /** Where the cursor of list_for_each_safe stands: at the first track left, or at the head. */
    lemma AtCursor(item: Lists.ListHead?, all: seq<RbNode>, k: nat)
      requires Holds(head, tracks) && k <= |all| && tracks == all[k..] && item == head.next
      ensures item != null && (item == head <==> k == |all|)
      ensures if k < |all| then item == all[k].link && item.next == (if k + 1 < |all| then all[k + 1].link else head) else item.next == head
    {
      HeadApart(head, tracks);
      assert LinkedAt(head, tracks, 0);
      if k < |all| {
        assert tracks[0] == all[k] && Items(tracks)[0] == all[k].link && LinkedAt(head, tracks, 1);
      }
    }

    /** The loop of sorted_list_rebuild. */
    method MoveAll(tmp: SortedTracks, cmp: Compare, ghost was: Compare, ghost all: seq<RbNode>)
      requires Beside(tmp) && Moved(tmp, cmp, was, all, 0)
      modifies this`tracks, root, all, head, Items(all), tmp`tracks, tmp.root, tmp.head
      ensures Moved(tmp, cmp, was, all, |all|)
    {
      ghost var k := 0;
      AtCursor(head.next, all, k);
      var item: ListHead := head.next;
      var n: ListHead := item.next;
      while item != head
        invariant 0 <= k <= |all| && Moved(tmp, cmp, was, all, k)
        invariant item == head.next && n == item.next
        decreases |all| - k
      {
        AtCursor(item, all, k);
        MoveNext(item, tmp, cmp, was, all, k);
        k := k + 1;
        AtCursor(head.next, all, k);
        item := n;
        n := item.next;
      }
      AtCursor(item, all, k);
    }

    /** sorted_list_rebuild up to its last two lines: a local tree and list take over the tracks. */
    method Collect(cmp: Compare, ghost was: Compare) returns (tmp: SortedTracks)
      requires Indexed(was) && Clear() && TotalPreorder(cmp)
      modifies this`tracks, root, tracks, head, Items(tracks)
      ensures fresh(tmp) && fresh(tmp.root) && fresh(tmp.head) && Moved(tmp, cmp, was, old(tracks), |old(tracks)|)
      ensures tmp.tracks == InsertAll(old(tracks), cmp) && |tmp.tracks| == |old(tracks)|
      ensures forall i :: 0 <= i < |tmp.tracks| ==> tmp.tracks[i] in old(tracks)
    {
      assert allocated(Nodes(root.tree)) && allocated(Items(tracks));
      ghost var all := tracks;
      assert all[..0] == [] && all[0..] == all && all[..|all|] == all;
      label before:
      tmp := new SortedTracks();
      IndexedStays@before(was);
      MoveAll(tmp, cmp, was, all);
      InsertAllHas(all, cmp);
      MembersWithin(tmp.tracks, all);
      assert |multiset(tmp.tracks)| == |multiset(all)|;
    }

    /** The end of sorted_list_rebuild: the new tree and list take the place of the old ones. The list
        is spliced in with _list_add, which goes wrong if there is none. */
    method Adopt(tmp: SortedTracks, ghost cmp: Compare, ghost was: Compare, ghost all: seq<RbNode>)
      requires tmp.Indexed(cmp) && tmp.Stale(all, |all|, was) && head != tmp.head && head.container == null
      requires forall i :: 0 <= i < |tmp.tracks| ==> tmp.tracks[i] in all
      modifies this`tracks, root, head, tmp.head, Items(all)
      ensures Ordered(cmp) && tracks == old(tmp.tracks) && Stale(all, |all|, was)
      ensures if tracks != [] then Holds(head, tracks) else !Holds(head, tracks) && head.next == head.prev == tmp.head && tmp.head.next == tmp.head.prev == head
    {
      root.node, root.tree := tmp.root.node, tmp.root.tree;
      tracks := tmp.tracks;
      assert allocated(Nodes(root.tree));
      ItemsWithin(tracks, all);
      label before:
      SpliceTracks(head, tmp.head, tracks);
      OrderedStays@before(cmp);
    }

    /** sorted_list_rebuild: the tracks are taken off one by one and sorted in anew. The linked list is
        right again exactly if there was a track; without one the head is left linked to the local
        list head `dead` of the function. The nodes of all tracks outside the tree are cleared exactly
        if no track that ended a run comes behind one that it now compares equal to. */
    method Rebuild(cmp: Compare, ghost was: Compare) returns (ghost dead: ListHead)
      requires Indexed(was) && Clear() && TotalPreorder(cmp)
      modifies this`tracks, root, tracks, head, Items(tracks)
      ensures Ordered(cmp) && tracks == InsertAll(old(tracks), cmp)
      ensures Holds(head, tracks) <==> old(tracks) != []
      ensures old(tracks) == [] ==> fresh(dead) && head.next == head.prev == dead && dead.next == dead.prev == head
      ensures Clear() <==> forall k :: 0 <= k < |old(tracks)| && EndsRun(old(tracks), k, was) ==> NoEqualBefore(old(tracks), k, cmp)
    {
      ghost var all := tracks;
      var tmp := Collect(cmp, was);
      dead := tmp.head;
      Adopt(tmp, cmp, was, all);
      StaleExactly(all, was, cmp);
    }

    /** editable_sort, whose test for at most one track keeps sorted_list_rebuild from an empty list. */
    method Sort(nrTracks: nat, cmp: Compare, ghost was: Compare)
      requires Indexed(was) && Clear() && TotalPreorder(cmp) && nrTracks == |tracks|
      modifies this`tracks, root, tracks, head, Items(tracks)
      ensures Indexed(cmp) && tracks == InsertAll(old(tracks), cmp)
    {
      if nrTracks <= 1 {
        AtMostOne(tracks, was, cmp);
        return;
      }
      ghost var _ := Rebuild(cmp, was);
    }

    /** Which tracks are not cleared after a rebuild, in terms of the list before it. */
    lemma StaleExactly(all: seq<RbNode>, was: Compare, cmp: Compare)
      requires Ordered(cmp) && Unique(all) && tracks == InsertAll(all, cmp) && Stale(all, |all|, was)
      ensures Clear() <==> forall k :: 0 <= k < |all| && EndsRun(all, k, was) ==> NoEqualBefore(all, k, cmp)
    {
      forall k | 0 <= k < |all| ensures all[k] in Nodes(root.tree) <==> NoEqualBefore(all, k, cmp) {
        InOrderHas(root.tree, all[k]);
        FirstAfterSort(all, k, cmp);
      }
      InsertAllHas(all, cmp);
      if Clear() {
        forall k | 0 <= k < |all| && EndsRun(all, k, was) ensures NoEqualBefore(all, k, cmp) {
          assert all[k] in tracks;
        }
      }
    }
  }

  lemma AtMostOne(s: seq<RbNode>, was: Compare, cmp: Compare)
    requires |s| <= 1
    ensures InsertAll(s, cmp) == s && Firsts(s, was) == Firsts(s, cmp)
  {
    if s != [] {
      assert s[..0] == [] && s == [s[0]];
    }
  }

  lemma FirstApart(s: seq<RbNode>, track: RbNode, rest: seq<RbNode>)
    requires Unique(s) && s != [] && track == s[0] && rest == s[1..]
    ensures s == [] + [track] + rest && [] + rest == rest && track !in rest && (rest != [] ==> rest[0] == s[1])
  {
    AllDiffer(s);
  }

  lemma PutBetween<T>(x: seq<T>, t: T, y: seq<T>, n: T)
    requires y != [] && y[0] == n
    ensures (x + [t] + y[1..])[|x| := n] == x + y
  {
  }

  lemma EndsRunFrom(all: seq<RbNode>, k: nat, was: Compare)
    requires k < |all|
    ensures EndsRun(all[k..], 0, was) == EndsRun(all, k, was)
  {
  }

  lemma PartsApart(all: seq<RbNode>, k: nat)
    requires Unique(all) && k < |all|
    ensures forall n :: n in all[..k] ==> n !in all[k..]
    ensures all[k] !in all[..k] && all[k] !in all[k + 1..]
    ensures all[..k + 1][..k] == all[..k] && all[..k + 1][k] == all[k] && all[k..][1..] == all[k + 1..]
    ensures forall i :: 0 <= i < k ==> all[i] !in all[k..]
  {
    AllDiffer(all);
  }

  lemma MovedDisjoint(all: seq<RbNode>, k: nat, cmp: Compare)
    requires Unique(all) && k < |all|
    ensures var s := InsertAll(all[..k], cmp);
      && Disjoint(s, all[k + 1..]) && Disjoint(all[k..], s) && all[k] !in s && all[k] !in all[k + 1..]
      && forall n :: n in s ==> n in all
  {
    InsertAllHas(all[..k], cmp);
    PartsApart(all, k);
    var s, rest, later := InsertAll(all[..k], cmp), all[k..], all[k + 1..];
    MembersWithin(s, all[..k]);
    forall i | 0 <= i < |s| ensures OutOf(s, i, later) {
      assert s[i] in all[..k];
      assert forall n :: n in later ==> n in rest;
    }
    forall i | 0 <= i < |rest| ensures OutOf(rest, i, s) {
      assert rest[i] in rest;
    }
  }

  lemma InsertAllWithin(all: seq<RbNode>, k: nat, cmp: Compare)
    requires k < |all|
    ensures forall i :: 0 <= i < |InsertAll(all[..k], cmp)| ==> Items(InsertAll(all[..k], cmp))[i] in Items(all)
    ensures all[k].link in Items(all)
  {
    InsertAllHas(all[..k], cmp);
    MembersWithin(InsertAll(all[..k], cmp), all[..k]);
    ItemsWithin(InsertAll(all[..k], cmp), all);
    assert Items(all)[k] == all[k].link;
  }

  lemma {:induction false} InsertHas(s: seq<RbNode>, n: RbNode, cmp: Compare, last: bool)
    ensures multiset(Insert(s, n, cmp, last)) == multiset(s) + multiset{n}
  {
    if s != [] {
      InsertHas(s[1..], n, cmp, last);
      assert s == [s[0]] + s[1..];
    }
  }

  /** Sorting keeps the tracks. */
  lemma InsertAllHas(s: seq<RbNode>, cmp: Compare)
    ensures multiset(InsertAll(s, cmp)) == multiset(s)
    ensures forall n :: n in InsertAll(s, cmp) <==> n in s
  {
    InsertAllKeeps(s, cmp);
    SameMembers(InsertAll(s, cmp), s);
  }

  lemma {:induction false} InsertAllKeeps(s: seq<RbNode>, cmp: Compare)
    ensures multiset(InsertAll(s, cmp)) == multiset(s)
  {
    if s != [] {
      var k := |s| - 1;
      InsertAllKeeps(s[..k], cmp);
      KeepsOne(s, s[..k], s[k], InsertAll(s[..k], cmp), cmp);
    }
  }

  lemma KeepsOne(s: seq<RbNode>, front: seq<RbNode>, n: RbNode, sorted: seq<RbNode>, cmp: Compare)
    requires s == front + [n] && multiset(sorted) == multiset(front)
    ensures multiset(Insert(sorted, n, cmp, true)) == multiset(s)
  {
    InsertHas(sorted, n, cmp, true);
  }

  lemma MembersWithin<T>(x: seq<T>, y: seq<T>)
    requires multiset(x) == multiset(y)
    ensures forall i :: 0 <= i < |x| ==> x[i] in y
  {
    forall i | 0 <= i < |x| ensures x[i] in y {
      assert x[i] in multiset(x);
    }
  }

  lemma SameMembers<T>(x: seq<T>, y: seq<T>)
    requires multiset(x) == multiset(y)
    ensures forall n :: n in x <==> n in y
  {
    forall n ensures n in x <==> n in y {
      assert n in x <==> n in multiset(x);
    }
  }

  /** The tracks of `s` that compare equal to `g`, in the order of `s`. */
  ghost function EqualTo(s: seq<RbNode>, g: TrackInfo, cmp: Compare): seq<RbNode> {
    if s == [] then [] else (if cmp(s[0].info, g) == 0 then [s[0]] else []) + EqualTo(s[1..], g, cmp)
  }

  lemma {:induction false} NoneEqual(s: seq<RbNode>, g: TrackInfo, cmp: Compare)
    requires forall i :: 0 <= i < |s| ==> cmp(g, s[i].info) < 0
    requires TotalPreorder(cmp)
    ensures EqualTo(s, g, cmp) == []
  {
    if s != [] {
      Flip(cmp, g, s[0].info);
      NoneEqual(s[1..], g, cmp);
    }
  }

  lemma AllAbove(s: seq<RbNode>, n: RbNode, g: TrackInfo, cmp: Compare)
    requires TotalPreorder(cmp) && Sorted(s, cmp) && s != [] && cmp(g, n.info) <= 0 && Cmp(cmp, n, s[0]) < 0
    ensures forall i :: 0 <= i < |s| ==> cmp(g, s[i].info) < 0
  {
    Chain(cmp, g, n.info, s[0].info);
    forall i | 0 <= i < |s| ensures cmp(g, s[i].info) < 0 {
      if i > 0 {
        assert Cmp(cmp, s[0], s[i]) <= 0;
        Chain(cmp, g, s[0].info, s[i].info);
      }
    }
  }

  /** Inserting behind equals keeps each class of equals in order of arrival. */
  lemma {:induction false} InsertStable(s: seq<RbNode>, n: RbNode, g: TrackInfo, cmp: Compare)
    requires TotalPreorder(cmp) && Sorted(s, cmp)
    ensures EqualTo(Insert(s, n, cmp, true), g, cmp) == EqualTo(s, g, cmp) + if cmp(n.info, g) == 0 then [n] else []
  {
    if s == [] {
      EqualToFirst(n, [], g, cmp);
    } else if Cmp(cmp, n, s[0]) < 0 {
      EqualToFirst(n, s, g, cmp);
      if cmp(n.info, g) == 0 {
        Flip(cmp, n.info, g);
        AllAbove(s, n, g, cmp);
        NoneEqual(s, g, cmp);
      }
    } else {
      InsertStable(s[1..], n, g, cmp);
      EqualToFirst(s[0], Insert(s[1..], n, cmp, true), g, cmp);
    }
  }

  lemma EqualToFirst(n: RbNode, s: seq<RbNode>, g: TrackInfo, cmp: Compare)
    ensures EqualTo([n] + s, g, cmp) == (if cmp(n.info, g) == 0 then [n] else []) + EqualTo(s, g, cmp)
  {
    assert ([n] + s)[1..] == s;
  }

  lemma {:induction false} InsertSorted(s: seq<RbNode>, n: RbNode, cmp: Compare)
    requires TotalPreorder(cmp) && Sorted(s, cmp)
    ensures Sorted(Insert(s, n, cmp, true), cmp)
  {
    if s != [] {
      var r := Insert(s, n, cmp, true);
      InsertHas(s[1..], n, cmp, true);
      Flip(cmp, n.info, s[0].info);
      if Cmp(cmp, n, s[0]) < 0 {
        forall i | 0 <= i < |s| ensures Cmp(cmp, n, s[i]) <= 0 {
          if i > 0 {
            assert Cmp(cmp, s[0], s[i]) <= 0;
            Chain(cmp, n.info, s[0].info, s[i].info);
          }
        }
      } else {
        var t := Insert(s[1..], n, cmp, true);
        InsertSorted(s[1..], n, cmp);
        forall i | 0 <= i < |t| ensures Cmp(cmp, s[0], t[i]) <= 0 {
          assert t[i] in multiset(t);
          assert t[i] in s[1..] || t[i] == n;
        }
      }
    }
  }

  lemma {:induction false} InsertMembers(s: seq<RbNode>, n: RbNode, cmp: Compare, last: bool)
    ensures forall m :: m in Insert(s, n, cmp, last) ==> m in s || m == n
  {
    if s != [] {
      InsertMembers(s[1..], n, cmp, last);
    }
  }

  /** sorted_list_rebuild's order is the stable sort of the old list. */
  lemma StableSort(s: seq<RbNode>, cmp: Compare)
    requires TotalPreorder(cmp)
    ensures Sorted(InsertAll(s, cmp), cmp) && multiset(InsertAll(s, cmp)) == multiset(s)
    ensures forall g :: EqualTo(InsertAll(s, cmp), g, cmp) == EqualTo(s, g, cmp)
  {
    InsertAllHas(s, cmp);
    InsertAllSorted(s, cmp);
    forall g ensures EqualTo(InsertAll(s, cmp), g, cmp) == EqualTo(s, g, cmp) {
      InsertAllStable(s, g, cmp);
    }
  }

  lemma {:induction false} InsertAllSorted(s: seq<RbNode>, cmp: Compare)
    requires TotalPreorder(cmp)
    ensures Sorted(InsertAll(s, cmp), cmp)
  {
    if s != [] {
      var k := |s| - 1;
      InsertAllSorted(s[..k], cmp);
      InsertSorted(InsertAll(s[..k], cmp), s[k], cmp);
    }
  }

  lemma {:induction false} InsertAllStable(s: seq<RbNode>, g: TrackInfo, cmp: Compare)
    requires TotalPreorder(cmp)
    ensures EqualTo(InsertAll(s, cmp), g, cmp) == EqualTo(s, g, cmp)
  {
    if s != [] {
      var k := |s| - 1;
      InsertAllStable(s[..k], g, cmp);
      InsertAllSorted(s[..k], cmp);
      StableMore(s[..k], s[k], s, InsertAll(s[..k], cmp), g, cmp);
    }
  }

  lemma StableMore(front: seq<RbNode>, n: RbNode, s: seq<RbNode>, sorted: seq<RbNode>, g: TrackInfo, cmp: Compare)
    requires TotalPreorder(cmp) && s == front + [n] && Sorted(sorted, cmp) && EqualTo(sorted, g, cmp) == EqualTo(front, g, cmp)
    ensures EqualTo(Insert(sorted, n, cmp, true), g, cmp) == EqualTo(s, g, cmp)
  {
    InsertStable(sorted, n, g, cmp);
    EqualToAppend(front, n, g, cmp);
  }

  lemma {:induction false} EqualToAppend(s: seq<RbNode>, n: RbNode, g: TrackInfo, cmp: Compare)
    ensures EqualTo(s + [n], g, cmp) == EqualTo(s, g, cmp) + if cmp(n.info, g) == 0 then [n] else []
  {
    if s != [] {
      assert (s + [n])[1..] == s[1..] + [n];
      EqualToAppend(s[1..], n, g, cmp);
    } else {
      assert ([] + [n])[1..] == [];
    }
  }

  /** No track in front of track `k` is equal to it. */
  ghost predicate NoEqualBefore(s: seq<RbNode>, k: nat, cmp: Compare)
    requires k < |s|
  {
    forall j :: 0 <= j < k ==> cmp(s[j].info, s[k].info) != 0
  }

  /** The first of the tracks equal to `g` is the one with none in front of it. */
  lemma {:induction false} FirstEqual(s: seq<RbNode>, k: nat, g: TrackInfo, cmp: Compare)
    requires Unique(s) && k < |s| && cmp(s[k].info, g) == 0
    ensures EqualTo(s, g, cmp) != []
    ensures EqualTo(s, g, cmp)[0] == s[k] <==> forall j :: 0 <= j < k ==> cmp(s[j].info, g) != 0
  {
    AllDiffer(s);
    if cmp(s[0].info, g) != 0 {
      FirstEqual(s[1..], k - 1, g, cmp);
      assert forall j :: 1 <= j < k ==> s[j] == s[1..][j - 1];
      if forall j :: 0 <= j < k - 1 ==> cmp(s[1..][j].info, g) != 0 {
        forall j | 0 <= j < k ensures cmp(s[j].info, g) != 0 {
          if j > 0 {
            assert s[j] == s[1..][j - 1];
          }
        }
      }
    }
  }

  /** In a sorted list the first tracks of the runs are those with no equal in front of them. */
  lemma {:induction false} FirstsAre(s: seq<RbNode>, i: nat, cmp: Compare)
    requires TotalPreorder(cmp) && Sorted(s, cmp) && Unique(s) && i < |s|
    ensures s[i] in Firsts(s, cmp) <==> NoEqualBefore(s, i, cmp)
    decreases |s|
  {
    var k := |s| - 1;
    AllButLast(s, s[..k], s[k], cmp);
    FirstsInside(s[..k], cmp);
    FirstsEnd(s[..k], s[k], s, cmp);
    if i < k {
      FirstsAre(s[..k], i, cmp);
      EarlierOnly(s[..k], s, i, cmp);
    } else {
      NewRun(s, k, cmp);
    }
  }

  lemma AllButLast(s: seq<RbNode>, front: seq<RbNode>, n: RbNode, cmp: Compare)
    requires Sorted(s, cmp) && Unique(s) && s == front + [n]
    ensures Sorted(front, cmp) && Unique(front) && n !in front && s == front + [n]
  {
    SortedParts(front, [n], cmp);
    AllDiffer(s);
    assert forall i :: 0 <= i < |front| ==> front[i] == s[i];
    assert s[|front|] == n;
  }

  lemma EarlierOnly(front: seq<RbNode>, s: seq<RbNode>, i: nat, cmp: Compare)
    requires i < |front| && front <= s
    ensures NoEqualBefore(front, i, cmp) <==> NoEqualBefore(s, i, cmp)
  {
  }

  lemma NewRun(s: seq<RbNode>, k: nat, cmp: Compare)
    requires TotalPreorder(cmp) && Sorted(s, cmp) && k < |s|
    ensures NoEqualBefore(s, k, cmp) <==> k == 0 || Cmp(cmp, s[k - 1], s[k]) != 0
  {
    if k > 0 && Cmp(cmp, s[k - 1], s[k]) != 0 {
      forall j | 0 <= j < k ensures cmp(s[j].info, s[k].info) != 0 {
        if j < k - 1 {
          assert Cmp(cmp, s[j], s[k - 1]) <= 0 && Cmp(cmp, s[k - 1], s[k]) <= 0;
          Chain(cmp, s[j].info, s[k - 1].info, s[k].info);
        }
      }
    }
  }

  /** Which tracks start a run of the sorted list. */
  lemma FirstAfterSort(all: seq<RbNode>, k: nat, cmp: Compare)
    requires TotalPreorder(cmp) && Unique(all) && k < |all| && Unique(InsertAll(all, cmp))
    ensures all[k] in Firsts(InsertAll(all, cmp), cmp) <==> NoEqualBefore(all, k, cmp)
  {
    var s, g := InsertAll(all, cmp), all[k].info;
    StableSort(all, cmp);
    assert all[k] in multiset(all);
    var i :| 0 <= i < |s| && s[i] == all[k];
    Flip(cmp, g, g);
    FirstEqual(all, k, g, cmp);
    FirstEqual(s, i, g, cmp);
    FirstsAre(s, i, cmp);
  }

  /** Two tracks in two runs that the new order makes one: the second keeps a stale node. */
  method RebuildLeavesStaleNode(a: TrackInfo, b: TrackInfo, was: Compare, cmp: Compare) returns (list: SortedTracks, ghost t: RbNode)
    requires TotalPreorder(was) && TotalPreorder(cmp) && was(a, b) < 0 && cmp(a, b) == 0
    ensures fresh(list) && list.Indexed(cmp) && t in list.tracks && t !in Nodes(list.root.tree) && t.parent != t
  {
    ghost var x, y;
    list, x, y := TwoTracks(a, b, was);
    ghost var _ := list.Rebuild(cmp, was);
    assert EndsRun([x, y], 1, was) && !NoEqualBefore([x, y], 1, cmp) by {
      assert cmp([x, y][0].info, [x, y][1].info) == 0;
    }
    t :| t in list.tracks && t !in Nodes(list.root.tree) && t.parent != t;
  }

  method TwoTracks(a: TrackInfo, b: TrackInfo, cmp: Compare) returns (list: SortedTracks, ghost x: RbNode, ghost y: RbNode)
    requires TotalPreorder(cmp) && cmp(a, b) < 0
    ensures fresh(list) && fresh(list.root) && fresh(list.head) && fresh(x) && fresh(y) && fresh(x.link) && fresh(y.link) && x.info == a && y.info == b
    ensures list.Indexed(cmp) && list.Clear() && list.tracks == [x, y]
  {
    list := new SortedTracks();
    var first := new RbNode(a);
    var second := new RbNode(b);
    InsertTwo(first, second, cmp);
    list.AddCleared(first, cmp, 0);
    list.AddCleared(second, cmp, 0);
    x, y := first, second;
  }

  lemma InsertTwo(a: RbNode, b: RbNode, cmp: Compare)
    requires TotalPreorder(cmp) && Cmp(cmp, a, b) < 0
    ensures Insert([], a, cmp, true) == [a] && Insert([a], b, cmp, true) == [a, b] && Items([a]) == [a.link] && Items([]) == []
  {
    Flip(cmp, a.info, b.info);
    assert [a][1..] == [];
  }

  /** A list without tracks: afterwards its head is linked to a list head that is gone. */
  method RebuildBreaksEmptyList(cmp: Compare) returns (list: SortedTracks, ghost dead: ListHead)
    requires TotalPreorder(cmp)
    ensures fresh(list) && list.tracks == [] && dead != list.head && list.head.next == list.head.prev == dead
  {
    list := new SortedTracks();
    dead := list.Rebuild(cmp, cmp);
  }

  /** The last track of a run. */
  ghost predicate EndsRun(s: seq<RbNode>, k: nat, cmp: Compare)
    requires k < |s|
  {
    k + 1 == |s| || Cmp(cmp, s[k], s[k + 1]) != 0
  }

  /** Sorting by inserting from left to right, each track behind its equals. */
  ghost function InsertAll(s: seq<RbNode>, cmp: Compare): seq<RbNode> {
    if s == [] then [] else Insert(InsertAll(s[..|s| - 1], cmp), s[|s| - 1], cmp, true)
  }

  lemma InsertAllMore(all: seq<RbNode>, k: nat, cmp: Compare)
    requires k < |all|
    ensures InsertAll(all[..k + 1], cmp) == Insert(InsertAll(all[..k], cmp), all[k], cmp, true)
  {
    assert all[..k + 1][..k] == all[..k];
  }

  /** The second track of a run is not the first of any. */
  lemma NextIsNotFirst(x: seq<RbNode>, t: RbNode, y: seq<RbNode>, cmp: Compare)
    requires TotalPreorder(cmp) && Unique(x + [t] + y) && y != [] && Cmp(cmp, t, y[0]) == 0
    ensures y[0] !in Firsts(x + [t] + y, cmp)
  {
    assert x + [t] + y == (x + [t]) + [y[0]] + y[1..];
    UniqueParts(x + [t], y[0], y[1..]);
    FirstOrNot(x + [t], y[0], y[1..], cmp);
  }

  /** Comparing the list successor with the tree successor tells whether the run goes on. */
  lemma RunContinues(x: seq<RbNode>, t: RbNode, y: seq<RbNode>, cmp: Compare, nextTrack: RbNode?, treeNext: RbNode?)
    requires TotalPreorder(cmp) && Unique(x + [t] + y) && Sorted(x + [t] + y, cmp) && Seam(x, [t], cmp)
    requires IsAt(y, 0, nextTrack)
    requires forall i :: 0 <= i < |Firsts(x + [t] + y, cmp)| && Firsts(x + [t] + y, cmp)[i] == t ==> IsAt(Firsts(x + [t] + y, cmp), i + 1, treeNext)
    ensures nextTrack != null && treeNext != nextTrack <==> y != [] && Cmp(cmp, t, y[0]) == 0
  {
    var f, j := Firsts(x + [t] + y, cmp), |Firsts(x, cmp)|;
    if y != [] {
      if Cmp(cmp, t, y[0]) == 0 {
        DropFirst(x, t, y, cmp);
        assert f[j] == t;
        NextIsNotFirst(x, t, y, cmp);
      } else {
        DropOnly(x, t, y, cmp);
        FirstsInside(y, cmp);
        assert f[j] == t && f[j + 1] == y[0];
      }
    }
  }

  lemma UniqueParts(x: seq<RbNode>, n: RbNode, y: seq<RbNode>)
    requires Unique(x + [n] + y)
    ensures n !in x && n !in y && Unique(x + y)
  {
    var s := x + [n] + y;
    AllDiffer(s);
    forall i | 0 <= i < |x| ensures x[i] != n { assert s[i] == x[i] && s[|x|] == n; }
    forall i | 0 <= i < |y| ensures y[i] != n { assert s[|x| + 1 + i] == y[i] && s[|x|] == n; }
    forall i, j | 0 <= i < j < |x + y| ensures Differ(x + y, i, j) {
      assert (x + y)[i] == s[if i < |x| then i else i + 1];
      assert (x + y)[j] == s[if j < |x| then j else j + 1];
    }
  }

  lemma RemovedSorted(x: seq<RbNode>, n: RbNode, y: seq<RbNode>, cmp: Compare)
    requires Sorted(x + [n] + y, cmp)
    ensures Sorted(x + y, cmp)
  {
    var s := x + [n] + y;
    forall i, j | 0 <= i < j < |x + y| ensures Cmp(cmp, (x + y)[i], (x + y)[j]) <= 0 {
      assert (x + y)[i] == s[if i < |x| then i else i + 1];
      assert (x + y)[j] == s[if j < |x| then j else j + 1];
    }
  }

  lemma PlaceNew(s: seq<RbNode>, n: RbNode, cmp: Compare, last: bool, t: Tree, c: Ctx) returns (x: seq<RbNode>, y: seq<RbNode>)
    requires TotalPreorder(cmp) && Sorted(s, cmp) && InOrder(t) == Firsts(s, cmp) && t == Plug(c, Leaf)
    requires (forall f :: f in Before(c) ==> Cmp(cmp, f, n) < 0) && (forall f :: f in After(c) ==> Cmp(cmp, n, f) < 0)
    ensures Goes(s, n, cmp, last, x, y) && Firsts(x + [n] + y, cmp) == Before(c) + [n] + After(c)
    ensures if After(c) == [] then y == [] else y != [] && y[0] == After(c)[0]
  {
    InOrderPlug(c, Leaf);
    assert InOrder(t) == Before(c) + After(c);
    x, y := GoesBetween(s, n, cmp, last, Before(c), After(c));
  }

  /** The list node in front of which a newly linked track goes; null stands for the list head. */
  method Follower(track: RbNode, slot: Slot, ghost root: RbRoot, ghost c: Ctx) returns (node: RbNode?)
    requires root.Valid() && SlotAt(slot, c) && InOrder(root.tree) == Before(c) + [track] + After(c)
    ensures IsAt(After(c), 0, node)
  {
    InOrderNodes(root.tree);
    assert InOrder(root.tree)[|Before(c)|] == track;
    match slot {
      case AtRoot => node := null;
      case LeftOf(parent) => node := parent;
      case RightOf(_) => node := Next(track, root);
    }
  }

  /** The tree part of adding a track without equals. */
  method LinkNew(track: RbNode, root: RbRoot, slot: Slot, ghost c: Ctx) returns (node: RbNode?)
    requires root.Valid() && track !in Nodes(root.tree)
    requires Focus(root, c, null, Leaf) && SlotAt(slot, c) && Plug(c, Leaf) == root.tree
    modifies root, Nodes(root.tree), track
    ensures root.Valid() && InOrder(root.tree) == Before(c) + [track] + After(c) && IsAt(After(c), 0, node)
    ensures Nodes(root.tree) == old(Nodes(root.tree)) + {track}
  {
    NodesPlug(c, Leaf);
    InsertLeaf(track, slot, root, c);
    assert allocated(Nodes(root.tree));
    node := Follower(track, slot, root, c);
  }

  lemma Added(s: seq<RbNode>, n: RbNode, cmp: Compare, last: bool, x: seq<RbNode>, y: seq<RbNode>)
    requires Goes(s, n, cmp, last, x, y) && Unique(s) && n !in s
    ensures x + [n] + y == Insert(s, n, cmp, last) && Unique(x + [n] + y) && Sorted(x + [n] + y, cmp)
  {
    var r := x + [n] + y;
    AllDiffer(s);
    forall i | 0 <= i < |s| ensures r[if i < |x| then i else i + 1] == s[i] != n {
      assert s[i] in s;
    }
    forall i, j | 0 <= i < j < |r| ensures Differ(r, i, j) {
      assert i != |x| ==> r[i] == s[if i < |x| then i else i - 1];
      assert j != |x| ==> r[j] == s[if j < |x| then j else j - 1];
    }
  }

  /** A track below the root of a subtree is below everything right of it, and likewise left. */
  lemma DescentOrder(c: Ctx, t: Tree, cmp: Compare, track: RbNode)
    requires TotalPreorder(cmp) && t.Node? && Rising(Sequence(c, t), cmp)
    ensures Cmp(cmp, track, t.node) < 0 ==> forall n :: n in InOrder(t.right) ==> Cmp(cmp, track, n) < 0
    ensures Cmp(cmp, track, t.node) > 0 ==> Cmp(cmp, t.node, track) < 0
    ensures Cmp(cmp, track, t.node) > 0 ==> forall n :: n in InOrder(t.left) ==> Cmp(cmp, n, track) < 0
  {
    var s, k := Sequence(c, t), |Before(c)| + |InOrder(t.left)|;
    assert s[k] == t.node;
    Flip(cmp, track.info, t.node.info);
    forall i | 0 <= i < |InOrder(t.right)| && Cmp(cmp, track, t.node) < 0
      ensures Cmp(cmp, track, InOrder(t.right)[i]) < 0
    {
      assert s[k + 1 + i] == InOrder(t.right)[i];
      Chain(cmp, track.info, t.node.info, InOrder(t.right)[i].info);
    }
    forall i | 0 <= i < |InOrder(t.left)| && Cmp(cmp, track, t.node) > 0
      ensures Cmp(cmp, InOrder(t.left)[i], track) < 0
    {
      assert s[|Before(c)| + i] == InOrder(t.left)[i];
      Chain(cmp, InOrder(t.left)[i].info, t.node.info, track.info);
    }
  }
}
