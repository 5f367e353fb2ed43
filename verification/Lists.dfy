/** The circular lists of app/list.h. A head and the nodes of its list are linked both ways; a
    node that was taken out has poisoned links, which are null here. */
module Lists {
  class ListHead {
    var next: ListHead?
    var prev: ListHead?
    /** What container_of gives: the object that the node is part of, if any. */
    var container: object?

    /** LIST_HEAD_INIT. */
    constructor ()
      ensures Ring(this, []) && container == null
    {
      next, prev, container := this, this, null;
    }
  }

  ghost predicate Distinct(s: seq<ListHead>) {
    forall i, j :: 0 <= i < j < |s| ==> s[i] != s[j]
  }

  /** The list at `head` is well formed and holds the nodes `s` in this order. */
  ghost predicate Ring(head: ListHead, s: seq<ListHead>)
    reads head, s
  {
    && Distinct(s) && head !in s
    && (if s == [] then head.next == head.prev == head
        else head.next == s[0] && s[0].prev == head && head.prev == s[|s| - 1] && s[|s| - 1].next == head)
    && forall i, j :: 0 <= i < j < |s| && j == i + 1 ==> s[i].next == s[j] && s[j].prev == s[i]
  }

  /** The first node, or the head if there is none. */
  ghost function First(s: seq<ListHead>, head: ListHead): ListHead {
    if s == [] then head else s[0]
  }

  /** The last node, or the head if there is none. */
  ghost function Last(s: seq<ListHead>, head: ListHead): ListHead {
    if s == [] then head else s[|s| - 1]
  }

  lemma EndsInside(s: seq<ListHead>, head: ListHead)
    ensures First(s, head) == head || First(s, head) in s
    ensures Last(s, head) == head || Last(s, head) in s
  {
  }

  lemma NextAt(head: ListHead, s: seq<ListHead>, i: nat)
    requires Ring(head, s) && i < |s|
    ensures s[i].next == First(s[i + 1..], head) && head.next == First(s, head)
    ensures s[i].prev == if i == 0 then head else s[i - 1]
  {
    if i + 1 < |s| {
      assert s[i + 1..][0] == s[i + 1];
    }
    if i > 0 {
      assert s[i - 1].next == s[i];
    }
  }

  /** Every link of a well-formed list stays inside it. */
  lemma Closed(head: ListHead, s: seq<ListHead>, n: ListHead)
    requires Ring(head, s) && n in [head] + s
    ensures n.next != null && n.prev != null && n.next in [head] + s && n.prev in [head] + s
  {
    if n != head {
      var i :| 0 <= i < |s| && s[i] == n;
      NextAt(head, s, i);
    }
  }

  /** What stands next to node `i`. */
  ghost function Before(head: ListHead, s: seq<ListHead>, i: nat): (r: ListHead)
    requires i < |s|
    ensures r == head || r in s
  {
    if i == 0 then head else s[i - 1]
  }

  ghost function After(head: ListHead, s: seq<ListHead>, i: nat): (r: ListHead)
    requires i < |s|
    ensures r == head || r in s
  {
    if i + 1 == |s| then head else s[i + 1]
  }

  ghost function Without(s: seq<ListHead>, i: nat): seq<ListHead>
    requires i < |s|
  {
    s[..i] + s[i + 1..]
  }

  /** list_del. */
  method ListDel(e: ListHead, ghost head: ListHead, ghost s: seq<ListHead>, ghost i: nat)
    requires Ring(head, s) && i < |s| && s[i] == e
    modifies e`next, e`prev, Before(head, s, i)`next, After(head, s, i)`prev
    ensures Ring(head, Without(s, i)) && e.next == null && e.prev == null
  {
    NextAt(head, s, i);
    var prev, next := e.prev, e.next;
    next.prev := prev;
    prev.next := next;
    e.next, e.prev := null, null;
  }

  /** _list_add. */
  method LinkBetween(e: ListHead, prev: ListHead, next: ListHead)
    requires e != prev && e != next
    modifies e`next, e`prev, prev`next, next`prev
    ensures prev.next == e && e.prev == prev && e.next == next && next.prev == e
  {
    next.prev := e;
    e.next := next;
    e.prev := prev;
    prev.next := e;
  }

  /** list_add behind `at`, which is the last node of `x` or the head. */
  method ListAdd(e: ListHead, at: ListHead, ghost head: ListHead, ghost x: seq<ListHead>, ghost y: seq<ListHead>)
    requires Ring(head, x + y) && at == Last(x, head) && e !in x + y && e != head
    modifies e`next, e`prev, at`next, First(y, head)`prev
    ensures Ring(head, x + [e] + y)
  {
    SeamLinks(head, x, y);
    RingParts(head, x, y);
    Distinct3(x, e, y);
    LinkBetween(e, at, at.next);
    JoinParts(head, x, e, y);
  }

  /** Neighbours in the sequence are linked both ways. */
  ghost predicate Linked(s: seq<ListHead>)
    reads s
  {
    forall i, j :: 0 <= i < j < |s| && j == i + 1 ==> s[i].next == s[j] && s[j].prev == s[i]
  }

  lemma RingParts(head: ListHead, x: seq<ListHead>, y: seq<ListHead>)
    requires Ring(head, x + y)
    ensures Linked(x) && Linked(y)
    ensures x != [] ==> head.next == x[0] && x[0].prev == head
    ensures y != [] ==> head.prev == y[|y| - 1] && y[|y| - 1].next == head
  {
    var s := x + y;
    forall i, j | 0 <= i < j < |x| && j == i + 1 ensures x[i].next == x[j] && x[j].prev == x[i] {
      assert s[i] == x[i] && s[j] == x[j];
    }
    forall i, j | 0 <= i < j < |y| && j == i + 1 ensures y[i].next == y[j] && y[j].prev == y[i] {
      assert s[|x| + i] == y[i] && s[|x| + j] == y[j];
    }
  }

  lemma Distinct3(x: seq<ListHead>, e: ListHead, y: seq<ListHead>)
    requires Distinct(x + y) && e !in x + y
    ensures Distinct(x + [e] + y) && e !in x && e !in y && (forall n :: n in x ==> n !in y)
    ensures Distinct(x) && Distinct(y)
  {
    var s := x + y;
    assert forall i :: 0 <= i < |x| ==> s[i] == x[i];
    assert forall i :: 0 <= i < |y| ==> s[|x| + i] == y[i];
  }

  lemma JoinParts(head: ListHead, x: seq<ListHead>, e: ListHead, y: seq<ListHead>)
    requires Distinct(x + [e] + y) && head !in x + [e] + y && Linked(x) && Linked(y)
    requires Last(x, head).next == e && e.prev == Last(x, head) && e.next == First(y, head) && First(y, head).prev == e
    requires x != [] ==> head.next == x[0] && x[0].prev == head
    requires y != [] ==> head.prev == y[|y| - 1] && y[|y| - 1].next == head
    ensures Ring(head, x + [e] + y)
  {
    var s := x + [e] + y;
    forall i, j | 0 <= i < j < |s| && j == i + 1 ensures s[i].next == s[j] && s[j].prev == s[i] {
      if j < |x| {
        assert s[i] == x[i] && s[j] == x[j];
      } else if i > |x| {
        assert s[i] == y[i - |x| - 1] && s[j] == y[j - |x| - 1];
      }
    }
  }

  lemma SeamLinks(head: ListHead, x: seq<ListHead>, y: seq<ListHead>)
    requires Ring(head, x + y)
    ensures Last(x, head).next == First(y, head) && First(y, head).prev == Last(x, head)
  {
    var s := x + y;
    if x != [] && y != [] {
      assert s[|x| - 1] == x[|x| - 1] && s[|x|] == y[0];
    }
  }

  /** list_add_tail. */
  method ListAddTail(e: ListHead, head: ListHead, ghost s: seq<ListHead>)
    requires Ring(head, s) && e !in s && e != head
    modifies e`next, e`prev, head`prev, Last(s, head)`next
    ensures Ring(head, s + [e])
  {
    LinkBetween(e, head.prev, head);
  }

  /** _list_add of a head between the ends of another list: the head takes the list over if there is
      one. If the list is empty, its own head becomes the only node of the caller's. */
  method SpliceOver(head: ListHead, tmp: ListHead, ghost s: seq<ListHead>)
    requires Ring(tmp, s) && head !in s && head != tmp
    modifies head`next, head`prev, Last(s, tmp)`next, First(s, tmp)`prev
    ensures s != [] ==> Ring(head, s)
    ensures s == [] ==> Ring(head, [tmp]) && !Ring(head, [])
  {
    LinkBetween(head, tmp.prev, tmp.next);
  }

  /** list_del next to another list. */
  method DelBeside(e: ListHead, ghost u: ListHead, ghost us: seq<ListHead>, ghost i: nat, ghost v: ListHead, ghost vs: seq<ListHead>)
    requires Ring(u, us) && i < |us| && us[i] == e && Ring(v, vs) && u != v && u !in vs && v !in us && forall n :: n in us ==> n !in vs
    modifies e`next, e`prev, Before(u, us, i)`next, After(u, us, i)`prev
    ensures Ring(u, Without(us, i)) && Ring(v, vs)
  {
    ListDel(e, u, us, i);
  }

  /** list_add_tail next to another list. */
  method AddBeside(e: ListHead, v: ListHead, ghost vs: seq<ListHead>, ghost u: ListHead, ghost us: seq<ListHead>)
    requires Ring(v, vs) && e !in vs && e != v && Ring(u, us) && u != v && u !in vs && v !in us && e != u && e !in us && forall n :: n in vs ==> n !in us
    modifies e`next, e`prev, v`prev, Last(vs, v)`next
    ensures Ring(v, vs + [e]) && Ring(u, us)
  {
    EndsInside(vs, v);
    ListAddTail(e, v, vs);
  }

  /** Two lists that share nothing, with all their nodes among `all`. */
  ghost predicate Apart(u: ListHead, us: seq<ListHead>, v: ListHead, vs: seq<ListHead>, all: set<ListHead>) {
    && u != v && u !in all && v !in all
    && (forall n :: n in us ==> n in all && n !in vs) && (forall n :: n in vs ==> n in all)
  }

  /** list_del from one list and list_add_tail to another. */
  method MoveTail(e: ListHead, ghost u: ListHead, ghost us: seq<ListHead>, ghost i: nat, v: ListHead, ghost vs: seq<ListHead>, ghost all: set<ListHead>)
    requires Ring(u, us) && Ring(v, vs) && Apart(u, us, v, vs, all) && i < |us| && us[i] == e
    modifies u, v, all
    ensures Ring(u, Without(us, i)) && Ring(v, vs + [e]) && Apart(u, Without(us, i), v, vs + [e], all)
  {
    WithoutApart(us, i);
    DelBeside(e, u, us, i, v, vs);
    AddBeside(e, v, vs, u, Without(us, i));
  }

  lemma WithoutApart(s: seq<ListHead>, i: nat)
    requires Distinct(s) && i < |s|
    ensures s[i] !in Without(s, i) && forall n :: n in Without(s, i) ==> n in s
  {
  }
}
