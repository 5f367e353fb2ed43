/** The bottom-up merge sort on circular lists of app/mergesort.c. */
module MergeSort {
  import opened Common
  import opened Lists

  /** The callback: it finds the element that a node is part of and compares what it finds there,
      which sorting does not change. */
  datatype Callback<!T, !K> = Callback(key: T -> K, cmp: Order<K>)

  function Compare<T, K>(o: Callback<T, K>, a: T, b: T): int {
    (o.cmp)(o.key(a), o.key(b))
  }

  ghost predicate Sorted<T, K(!new)>(s: seq<T>, o: Callback<T, K>) {
    forall i, j :: 0 <= i < j < |s| ==> Compare(o, s[i], s[j]) <= 0
  }

  /** The nodes that compare equal to `g`, in order. */
  ghost function EqualTo<T, K(!new)>(s: seq<T>, g: K, o: Callback<T, K>): seq<T> {
    if s == [] then [] else (if (o.cmp)(o.key(s[0]), g) == 0 then [s[0]] else []) + EqualTo(s[1..], g, o)
  }

  lemma {:induction false} EqualToBoth<T, K(!new)>(a: seq<T>, b: seq<T>, g: K, o: Callback<T, K>)
    ensures EqualTo(a + b, g, o) == EqualTo(a, g, o) + EqualTo(b, g, o)
  {
    if a == [] {
      assert a + b == b;
    } else {
      EqualToBoth(a[1..], b, g, o);
      assert (a + b)[0] == a[0] && (a + b)[1..] == a[1..] + b;
      Assoc(if (o.cmp)(o.key(a[0]), g) == 0 then [a[0]] else [], EqualTo(a[1..], g, o), EqualTo(b, g, o));
    }
  }

  /* Merging two runs. */

  ghost function Merge<T, K(!new)>(a: seq<T>, b: seq<T>, o: Callback<T, K>): (r: seq<T>)
    ensures multiset(r) == multiset(a) + multiset(b)
    decreases |a| + |b|
  {
    if a == [] then b
    else if b == [] then a
    else if Compare(o, a[0], b[0]) > 0 then
      assert b == [b[0]] + b[1..];
      [b[0]] + Merge(a, b[1..], o)
    else
      assert a == [a[0]] + a[1..];
      [a[0]] + Merge(a[1..], b, o)
  }

  ghost predicate AllFrom<T, K(!new)>(x: T, s: seq<T>, o: Callback<T, K>) {
    forall y :: y in s ==> Compare(o, x, y) <= 0
  }

  lemma MergeMembers<T, K(!new)>(a: seq<T>, b: seq<T>, o: Callback<T, K>, x: T)
    requires AllFrom(x, a, o) && AllFrom(x, b, o)
    ensures AllFrom(x, Merge(a, b, o), o)
  {
    forall y | y in Merge(a, b, o) ensures Compare(o, x, y) <= 0 {
      assert y in multiset(Merge(a, b, o));
      assert y in a || y in b;
    }
  }

  lemma SortedCons<T, K(!new)>(x: T, s: seq<T>, o: Callback<T, K>)
    requires Sorted(s, o) && AllFrom(x, s, o)
    ensures Sorted([x] + s, o)
  {
  }

  lemma FirstBelow<T, K(!new)>(x: T, s: seq<T>, o: Callback<T, K>)
    requires TotalPreorder(o.cmp) && Sorted(s, o) && s != [] && Compare(o, x, s[0]) <= 0
    ensures AllFrom(x, s, o) && Sorted(s[1..], o) && AllFrom(s[0], s[1..], o)
  {
    forall y | y in s ensures Compare(o, x, y) <= 0 {
      var i :| 0 <= i < |s| && s[i] == y;
      if i > 0 {
        assert Compare(o, s[0], s[i]) <= 0;
        Chain(o.cmp, o.key(x), o.key(s[0]), o.key(y));
      }
    }
  }

  lemma {:induction false} MergeSorted<T, K(!new)>(a: seq<T>, b: seq<T>, o: Callback<T, K>)
    requires TotalPreorder(o.cmp) && Sorted(a, o) && Sorted(b, o)
    ensures Sorted(Merge(a, b, o), o)
    decreases |a| + |b|
  {
    if a != [] && b != [] {
      if Compare(o, a[0], b[0]) > 0 {
        Flip(o.cmp, o.key(b[0]), o.key(a[0]));
        FirstBelow(b[0], a, o);
        FirstTail(b, o);
        MergeSorted(a, b[1..], o);
        MergeMembers(a, b[1..], o, b[0]);
        SortedCons(b[0], Merge(a, b[1..], o), o);
      } else {
        FirstBelow(a[0], b, o);
        FirstTail(a, o);
        MergeSorted(a[1..], b, o);
        MergeMembers(a[1..], b, o, a[0]);
        SortedCons(a[0], Merge(a[1..], b, o), o);
      }
    }
  }

  lemma FirstTail<T, K(!new)>(s: seq<T>, o: Callback<T, K>)
    requires Sorted(s, o) && s != []
    ensures Sorted(s[1..], o) && AllFrom(s[0], s[1..], o)
  {
  }

  /** Equal nodes keep their order, those of the first run in front. */
  lemma {:induction false} MergeStable<T, K(!new)>(a: seq<T>, b: seq<T>, g: K, o: Callback<T, K>)
    requires TotalPreorder(o.cmp) && Sorted(a, o)
    ensures EqualTo(Merge(a, b, o), g, o) == EqualTo(a, g, o) + EqualTo(b, g, o)
    decreases |a| + |b|
  {
    if a != [] && b != [] {
      if Compare(o, a[0], b[0]) > 0 {
        MergeStable(a, b[1..], g, o);
        var rest := Merge(a, b[1..], o);
        assert ([b[0]] + rest)[1..] == rest;
        if (o.cmp)(o.key(b[0]), g) == 0 {
          NoneEqual(a, b[0], g, o);
        }
      } else {
        FirstTail(a, o);
        MergeStable(a[1..], b, g, o);
        var rest := Merge(a[1..], b, o);
        assert ([a[0]] + rest)[1..] == rest;
      }
    }
  }

  lemma {:induction false} NoneEqual<T, K(!new)>(a: seq<T>, x: T, g: K, o: Callback<T, K>)
    requires TotalPreorder(o.cmp) && Sorted(a, o) && a != [] && Compare(o, a[0], x) > 0 && (o.cmp)(o.key(x), g) == 0
    ensures EqualTo(a, g, o) == []
  {
    Above(a[0], x, g, o);
    if |a| > 1 {
      assert Compare(o, a[0], a[1]) <= 0;
      AboveNext(a[0], a[1], x, o);
      FirstTail(a, o);
      NoneEqual(a[1..], x, g, o);
    }
  }

  lemma Above<T, K(!new)>(y: T, x: T, g: K, o: Callback<T, K>)
    requires TotalPreorder(o.cmp) && Compare(o, y, x) > 0 && (o.cmp)(o.key(x), g) == 0
    ensures (o.cmp)(o.key(y), g) != 0
  {
    Flip(o.cmp, g, o.key(x));
    assert Transitive(o.cmp, o.key(y), g, o.key(x));
  }

  lemma AboveNext<T, K(!new)>(y: T, z: T, x: T, o: Callback<T, K>)
    requires TotalPreorder(o.cmp) && Compare(o, y, x) > 0 && Compare(o, y, z) <= 0
    ensures Compare(o, z, x) > 0
  {
    assert Transitive(o.cmp, o.key(y), o.key(z), o.key(x));
  }

  /* One pass over the list. */

  function Min(a: nat, b: nat): nat {
    if a < b then a else b
  }

  ghost function Pass<T, K(!new)>(u: seq<T>, k: nat, o: Callback<T, K>): seq<T>
    requires k > 0
    decreases |u|
  {
    if u == [] then []
    else
      var i := Min(k, |u|);
      var j := Min(2 * k, |u|);
      Merge(u[..i], u[i..j], o) + Pass(u[j..], k, o)
  }

  /** Every block of `k` nodes is sorted. */
  ghost predicate Blocks<T, K(!new)>(u: seq<T>, k: nat, o: Callback<T, K>)
    requires k > 0
    decreases |u|
  {
    u == [] || (Sorted(u[..Min(k, |u|)], o) && Blocks(u[Min(k, |u|)..], k, o))
  }

  lemma {:induction false} PassStable<T, K(!new)>(u: seq<T>, k: nat, g: K, o: Callback<T, K>)
    requires TotalPreorder(o.cmp) && k > 0 && Blocks(u, k, o)
    ensures EqualTo(Pass(u, k, o), g, o) == EqualTo(u, g, o)
    decreases |u|
  {
    if u != [] {
      var i, j := Min(k, |u|), Min(2 * k, |u|);
      SecondBlock(u, k, o);
      PassStable(u[j..], k, g, o);
      TwoBlocksStable(u, i, j, Pass(u[j..], k, o), g, o);
    }
  }

  lemma TwoBlocksStable<T, K(!new)>(u: seq<T>, i: nat, j: nat, rest: seq<T>, g: K, o: Callback<T, K>)
    requires TotalPreorder(o.cmp) && i <= j <= |u| && Sorted(u[..i], o) && EqualTo(rest, g, o) == EqualTo(u[j..], g, o)
    ensures EqualTo(Merge(u[..i], u[i..j], o) + rest, g, o) == EqualTo(u, g, o)
  {
    MergeStable(u[..i], u[i..j], g, o);
    EqualToBoth(Merge(u[..i], u[i..j], o), rest, g, o);
    EqualToParts(u, i, j, g, o);
  }

  lemma EqualToParts<T, K(!new)>(u: seq<T>, i: nat, j: nat, g: K, o: Callback<T, K>)
    requires i <= j <= |u|
    ensures EqualTo(u, g, o) == EqualTo(u[..i], g, o) + EqualTo(u[i..j], g, o) + EqualTo(u[j..], g, o)
  {
    assert u[..i] + u[i..j] == u[..j];
    EqualToBoth(u[..i], u[i..j], g, o);
    assert u[..j] + u[j..] == u;
    EqualToBoth(u[..j], u[j..], g, o);
  }

  lemma {:induction false} PassPermutes<T, K(!new)>(u: seq<T>, k: nat, o: Callback<T, K>)
    requires k > 0
    ensures multiset(Pass(u, k, o)) == multiset(u)
    decreases |u|
  {
    if u != [] {
      var i, j := Min(k, |u|), Min(2 * k, |u|);
      PassPermutes(u[j..], k, o);
      PartsMultiset(u, i, j);
    }
  }

  lemma PartsMultiset<T>(u: seq<T>, i: nat, j: nat)
    requires i <= j <= |u|
    ensures multiset(u) == multiset(u[..i]) + multiset(u[i..j]) + multiset(u[j..])
  {
    assert u[..i] + u[i..j] == u[..j];
    assert u[..j] + u[j..] == u;
  }

  lemma SecondBlock<T, K(!new)>(u: seq<T>, k: nat, o: Callback<T, K>)
    requires k > 0 && Blocks(u, k, o) && u != []
    ensures var i, j := Min(k, |u|), Min(2 * k, |u|); Sorted(u[..i], o) && Sorted(u[i..j], o) && Blocks(u[j..], k, o)
  {
    var i, j := Min(k, |u|), Min(2 * k, |u|);
    var v := u[i..];
    if v != [] {
      assert v[..Min(k, |v|)] == u[i..j] && v[Min(k, |v|)..] == u[j..];
    } else {
      assert u[i..j] == [] && u[j..] == [];
    }
  }

  /** A pass doubles the length of the sorted blocks. */
  lemma {:induction false} PassSorts<T, K(!new)>(u: seq<T>, k: nat, o: Callback<T, K>)
    requires TotalPreorder(o.cmp) && k > 0 && Blocks(u, k, o)
    ensures Blocks(Pass(u, k, o), 2 * k, o) && |Pass(u, k, o)| == |u|
    decreases |u|
  {
    if u != [] {
      var i, j := Min(k, |u|), Min(2 * k, |u|);
      SecondBlock(u, k, o);
      PassSorts(u[j..], k, o);
      MergeSorted(u[..i], u[i..j], o);
      var m, rest := Merge(u[..i], u[i..j], o), Pass(u[j..], k, o);
      MergeLength(u[..i], u[i..j], o);
      assert (m + rest)[..j] == m && (m + rest)[j..] == rest;
    }
  }

  lemma MergeLength<T, K(!new)>(a: seq<T>, b: seq<T>, o: Callback<T, K>)
    ensures |Merge(a, b, o)| == |a| + |b|
  {
    assert |multiset(Merge(a, b, o))| == |multiset(a) + multiset(b)|;
  }

  lemma {:induction false} BlocksOfOne<T, K(!new)>(u: seq<T>, o: Callback<T, K>)
    ensures Blocks(u, 1, o)
    decreases |u|
  {
    if u != [] {
      BlocksOfOne(u[1..], o);
    }
  }

  /* The loops. The unsorted list is a run `a`, a run `b` and the rest; the cursor p is at the
     first node of `a` unless that is empty, q at the first node behind it. */

  /** Which node comes next in the merge of two runs. */
  lemma MergeQ<T, K(!new)>(done: seq<T>, a: seq<T>, b: seq<T>, o: Callback<T, K>)
    requires b != [] && (a == [] || Compare(o, a[0], b[0]) > 0)
    ensures done + [b[0]] + Merge(a, b[1..], o) == done + Merge(a, b, o)
  {
    if a == [] {
      assert [b[0]] + b[1..] == b;
    }
    Assoc(done, [b[0]], Merge(a, b[1..], o));
  }

  lemma MergeP<T, K(!new)>(done: seq<T>, a: seq<T>, b: seq<T>, o: Callback<T, K>)
    requires a != [] && (b == [] || Compare(o, a[0], b[0]) <= 0)
    ensures done + [a[0]] + Merge(a[1..], b, o) == done + Merge(a, b, o)
  {
    if b == [] {
      assert [a[0]] + a[1..] == a;
    }
    Assoc(done, [a[0]], Merge(a[1..], b, o));
  }

  /** The lists and cursors in the middle of a merge. */
  ghost predicate Merging(u: ListHead, a: seq<ListHead>, b: seq<ListHead>, rest: seq<ListHead>,
      v: ListHead, done: seq<ListHead>, all: set<ListHead>, p: ListHead?, q: ListHead?)
    reads u, v, a + (b + rest), done
  {
    && Ring(u, a + (b + rest)) && Ring(v, done) && Apart(u, a + (b + rest), v, done, all)
    && (a != [] ==> p == a[0]) && q == First(b + rest, u)
  }

  /** Takes the node at q. */
  method TakeQ(u: ListHead, ghost a: seq<ListHead>, ghost b: seq<ListHead>, ghost rest: seq<ListHead>,
      v: ListHead, ghost done: seq<ListHead>, ghost all: set<ListHead>, p: ListHead?, q: ListHead) returns (q': ListHead?)
    requires Merging(u, a, b, rest, v, done, all, p, q) && b != []
    modifies u, v, all
    ensures Merging(u, a, b[1..], rest, v, done + [q], all, p, q') && q == b[0]
  {
    QInside(a, b, rest);
    ghost var us := a + (b + rest);
    NextAt(u, us, |a|);
    q' := q.next;
    MoveTail(q, u, us, |a|, v, done, all);
  }

  lemma QInside(a: seq<ListHead>, b: seq<ListHead>, rest: seq<ListHead>)
    requires b != []
    ensures var us := a + (b + rest); us[|a|] == b[0] && us[|a| + 1..] == b[1..] + rest && Without(us, |a|) == a + (b[1..] + rest)
  {
    var us, c := a + (b + rest), b + rest;
    assert us[..|a|] == a && us[|a|..] == c && us[|a| + 1..] == c[1..];
    assert c[1..] == b[1..] + rest;
  }

  /** Takes the node at p. */
  method TakeP(u: ListHead, ghost a: seq<ListHead>, ghost b: seq<ListHead>, ghost rest: seq<ListHead>,
      v: ListHead, ghost done: seq<ListHead>, ghost all: set<ListHead>, p: ListHead, q: ListHead?) returns (p': ListHead?)
    requires Merging(u, a, b, rest, v, done, all, p, q) && a != []
    modifies u, v, all
    ensures Merging(u, a[1..], b, rest, v, done + [p], all, p', q) && p == a[0]
  {
    PInside(a, b + rest);
    ghost var us := a + (b + rest);
    NextAt(u, us, 0);
    p' := p.next;
    MoveTail(p, u, us, 0, v, done, all);
  }

  lemma PInside(a: seq<ListHead>, c: seq<ListHead>)
    requires a != []
    ensures var us := a + c; us[0] == a[0] && us[1..] == a[1..] + c && Without(us, 0) == a[1..] + c
    ensures |a| > 1 ==> (a + c)[1..] != [] && (a + c)[1..][0] == a[1..][0]
  {
    assert (a + c)[1..] == a[1..] + c;
    assert (a + c)[..0] == [];
  }

  /** The second inner loop: a node goes to the tail of the sorted list until both runs are used up. */
  method MergeLoop<K(!new)>(u: ListHead, ghost a0: seq<ListHead>, ghost b0: seq<ListHead>, ghost rest: seq<ListHead>,
      v: ListHead, ghost done0: seq<ListHead>, ghost all: set<ListHead>, p0: ListHead?, q0: ListHead?, n: nat, k: nat, o: Callback<ListHead, K>)
    returns (q: ListHead?, ghost done: seq<ListHead>)
    requires Merging(u, a0, b0, rest, v, done0, all, p0, q0) && n == |a0| && |b0| <= k && (rest != [] ==> |b0| == k)
    modifies u, v, all
    ensures Merging(u, [], [], rest, v, done, all, null, q) && done == done0 + Merge(a0, b0, o)
  {
    ghost var a, b := a0, b0;
    var p, psize, qsize := p0, n, k;
    q, done := q0, done0;
    while true
      invariant Merging(u, a, b, rest, v, done, all, p, q)
      invariant psize == |a| && |b| <= qsize && (rest != [] ==> |b| == qsize)
      invariant done + Merge(a, b, o) == done0 + Merge(a0, b0, o)
      decreases |a| + |b|
    {
      NotHead(u, a, b, rest);
      if q == u {
        qsize := 0;
      }
      if psize == 0 && qsize == 0 {
        break;
      }
      if psize == 0 || (qsize != 0 && Compare(o, p, q) > 0) {
        MergeQ(done, a, b, o);
        ghost var e := q;
        q := TakeQ(u, a, b, rest, v, done, all, p, q);
        qsize := qsize - 1;
        b, done := b[1..], done + [e];
      } else {
        MergeP(done, a, b, o);
        ghost var e := p;
        p := TakeP(u, a, b, rest, v, done, all, p, q);
        psize := psize - 1;
        a, done := a[1..], done + [e];
      }
    }
  }

  lemma NotHead(u: ListHead, a: seq<ListHead>, b: seq<ListHead>, rest: seq<ListHead>)
    requires u !in a + (b + rest)
    ensures (First(b + rest, u) == u <==> b == [] && rest == []) && (b != [] ==> First(b + rest, u) == b[0])
  {
    if b + rest != [] {
      assert (b + rest)[0] in a + (b + rest);
    }
  }

  /** Where the runs of the list `us` end. */
  ghost function RunA(us: seq<ListHead>, k: nat): seq<ListHead> {
    us[..Min(k, |us|)]
  }

  ghost function RunB(us: seq<ListHead>, k: nat): seq<ListHead> {
    us[Min(k, |us|)..Min(2 * k, |us|)]
  }

  ghost function Behind(us: seq<ListHead>, k: nat): seq<ListHead> {
    us[Min(2 * k, |us|)..]
  }

  /** The first inner loop: counts the first run and finds its end. */
  method FindQ(u: ListHead, ghost us: seq<ListHead>, p: ListHead?, k: nat) returns (q: ListHead?, psize: nat)
    requires Ring(u, us) && p == First(us, u)
    ensures psize == Min(k, |us|) && q == First(us[psize..], u)
  {
    q, psize := p, 0;
    assert us[0..] == us;
    while psize < k
      invariant psize <= Min(k, |us|) && q == First(us[psize..], u)
    {
      if psize < |us| {
        NextAt(u, us, psize);
      }
      if q == u {
        break;
      }
      psize := psize + 1;
      q := q.next;
    }
  }

  /** The body of the middle loop: merges the first two runs of the unsorted list into the sorted one. */
  method MergeRuns<K(!new)>(u: ListHead, ghost us: seq<ListHead>, v: ListHead, ghost done0: seq<ListHead>, ghost all: set<ListHead>,
      p: ListHead?, k: nat, o: Callback<ListHead, K>)
    returns (q: ListHead?, ghost done: seq<ListHead>)
    requires Ring(u, us) && Ring(v, done0) && Apart(u, us, v, done0, all) && p == First(us, u) && k > 0
    modifies u, v, all
    ensures var rest := Behind(us, k);
      && Ring(u, rest) && Ring(v, done) && Apart(u, rest, v, done, all) && q == First(rest, u)
      && done == done0 + Merge(RunA(us, k), RunB(us, k), o)
  {
    var psize;
    q, psize := FindQ(u, us, p, k);
    ghost var a, b, rest := RunA(us, k), RunB(us, k), Behind(us, k);
    Runs(us, k, psize);
    q, done := MergeLoop(u, a, b, rest, v, done0, all, p, q, psize, k, o);
    assert [] + ([] + rest) == rest && [] + rest == rest;
  }

  lemma Runs(us: seq<ListHead>, k: nat, n: nat)
    requires n == Min(k, |us|)
    ensures var a, b, rest := RunA(us, k), RunB(us, k), Behind(us, k);
      && us == a + (b + rest) && us[n..] == b + rest && |a| == n && |b| <= k && (rest != [] ==> |b| == k) && (a != [] ==> a[0] == us[0])
  {
  }

  /** One round of the outer loop; `count` is the number of merges. */
  method OnePass<K(!new)>(u: ListHead, ghost list: seq<ListHead>, v: ListHead, ghost all: set<ListHead>, k: nat, o: Callback<ListHead, K>)
    returns (count: nat)
    requires Ring(u, list) && Ring(v, []) && Apart(u, list, v, [], all) && k > 0 && list != []
    modifies u, v, all
    ensures var sorted := Pass(list, k, o); Ring(u, []) && Ring(v, sorted) && Apart(v, sorted, u, [], all)
    ensures count == 1 <==> |list| <= 2 * k
  {
    var p := u.next;
    count := 0;
    ghost var us: seq<ListHead>, done: seq<ListHead> := list, [];
    while true
      invariant Ring(u, us) && Ring(v, done) && Apart(u, us, v, done, all) && p == First(us, u)
      invariant (count == 0 ==> us == list) && (count > 0 ==> |list| > 2 * k && |us| < |list|)
      invariant us != [] && done + Pass(us, k, o) == Pass(list, k, o)
      decreases |us|
    {
      Assoc(done, Merge(RunA(us, k), RunB(us, k), o), Pass(Behind(us, k), k, o));
      p, done := MergeRuns(u, us, v, done, all, p, k, o);
      us := Behind(us, k);
      count := count + 1;
      if p == u {
        break;
      }
    }
    assert done + [] == done;
  }

  /** The end of list_mergesort: the sorted list is linked to the caller's head, which may be its
      head already. */
  method Splice(head: ListHead, sortedHead: ListHead, ghost sorted: seq<ListHead>)
    requires Ring(sortedHead, sorted) && sorted != [] && head !in sorted
    modifies head, sortedHead.prev, sortedHead.next
    ensures Ring(head, sorted)
  {
    head.next := sortedHead.next;
    head.prev := sortedHead.prev;
    sortedHead.prev.next := head;
    sortedHead.next.prev := head;
  }

  /** list_mergesort: the caller's list is well formed again and holds the stable sort of what it
      held; no link leads outside of it. */
  method ListMergeSort<K(!new)>(head: ListHead, ghost list: seq<ListHead>, o: Callback<ListHead, K>) returns (ghost sorted: seq<ListHead>)
    requires Ring(head, list) && TotalPreorder(o.cmp)
    modifies head, list
    ensures Ring(head, sorted) && Sorted(sorted, o) && multiset(sorted) == multiset(list)
    ensures forall g :: EqualTo(sorted, g, o) == EqualTo(list, g, o)
    ensures forall n :: n in [head] + list ==> n.next in [head] + list && n.prev in [head] + list
  {
    sorted := list;
    if head.next == head {
      return;
    }
    var empty := new ListHead();
    ghost var all := set n | n in list;
    var unsortedHead, sortedHead, k := head, empty, 1;
    BlocksOfOne(list, o);
    while true
      invariant fresh(empty) && ((unsortedHead == head && sortedHead == empty) || (unsortedHead == empty && sortedHead == head))
      invariant Ring(unsortedHead, sorted) && Ring(sortedHead, []) && Apart(unsortedHead, sorted, sortedHead, [], all)
      invariant k > 0 && |sorted| == |list| > 0 && (k == 1 || k < |list|)
      invariant Blocks(sorted, k, o) && SameNodes(sorted, list, o)
      decreases |list| - k
    {
      PassOnce(sorted, list, k, o);
      var count := OnePass(unsortedHead, sorted, sortedHead, all, k, o);
      sorted := Pass(sorted, k, o);
      if count == 1 {
        Splice(head, sortedHead, sorted);
        InsideList(head, sorted, list);
        return;
      }
      unsortedHead, sortedHead, k := sortedHead, unsortedHead, 2 * k;
    }
  }

  /** The same nodes, with equal ones in the same order. */
  ghost predicate SameNodes<T, K(!new)>(s: seq<T>, list: seq<T>, o: Callback<T, K>) {
    multiset(s) == multiset(list) && forall g :: EqualTo(s, g, o) == EqualTo(list, g, o)
  }

  lemma PassOnce<T, K(!new)>(s: seq<T>, list: seq<T>, k: nat, o: Callback<T, K>)
    requires TotalPreorder(o.cmp) && k > 0 && Blocks(s, k, o) && SameNodes(s, list, o)
    ensures Blocks(Pass(s, k, o), 2 * k, o) && |Pass(s, k, o)| == |s| && SameNodes(Pass(s, k, o), list, o)
    ensures |s| <= 2 * k ==> Sorted(Pass(s, k, o), o)
  {
    PassSorts(s, k, o);
    PassPermutes(s, k, o);
    forall g ensures EqualTo(Pass(s, k, o), g, o) == EqualTo(list, g, o) {
      PassStable(s, k, g, o);
    }
    var r := Pass(s, k, o);
    if |s| <= 2 * k {
      assert r[..Min(2 * k, |r|)] == r;
    }
  }

  lemma InsideList(head: ListHead, sorted: seq<ListHead>, list: seq<ListHead>)
    requires Ring(head, sorted) && multiset(sorted) == multiset(list)
    ensures forall n :: n in [head] + list ==> n.next in [head] + list && n.prev in [head] + list
  {
    forall n | n in [head] + list ensures n.next in [head] + list && n.prev in [head] + list {
      assert forall m :: m in sorted <==> m in multiset(sorted);
      assert forall m :: m in list <==> m in multiset(list);
      Closed(head, sorted, n);
    }
  }

  /* There is only one such list. */

  lemma {:induction false} EqualToMember<T, K(!new)>(s: seq<T>, g: K, o: Callback<T, K>, x: T)
    ensures x in EqualTo(s, g, o) <==> x in s && (o.cmp)(o.key(x), g) == 0
  {
    if s != [] {
      EqualToMember(s[1..], g, o, x);
    }
  }

  lemma FirstIsLeast<T, K(!new)>(x: seq<T>, y: seq<T>, o: Callback<T, K>)
    requires TotalPreorder(o.cmp) && Sorted(y, o) && x != []
    requires EqualTo(x, o.key(x[0]), o) == EqualTo(y, o.key(x[0]), o)
    ensures y != [] && Compare(o, y[0], x[0]) <= 0
  {
    var f := x[0];
    Flip(o.cmp, o.key(f), o.key(f));
    EqualToMember(x, o.key(f), o, f);
    EqualToMember(y, o.key(f), o, f);
    var i :| 0 <= i < |y| && y[i] == f;
    assert i > 0 ==> Compare(o, y[0], y[i]) <= 0;
  }

  /** Two sorted lists with the same order among equals are the same. */
  lemma {:induction false} StableSortUnique<T, K(!new)>(x: seq<T>, y: seq<T>, o: Callback<T, K>)
    requires TotalPreorder(o.cmp) && Sorted(x, o) && Sorted(y, o)
    requires forall g :: EqualTo(x, g, o) == EqualTo(y, g, o)
    ensures x == y
    decreases |x|
  {
    if x == [] {
      if y != [] {
        FirstIsLeast(y, x, o);
      }
    } else {
      FirstIsLeast(x, y, o);
      FirstIsLeast(y, x, o);
      Flip(o.cmp, o.key(y[0]), o.key(x[0]));
      Flip(o.cmp, o.key(x[0]), o.key(x[0]));
      assert EqualTo(x, o.key(x[0]), o)[0] == x[0] && EqualTo(y, o.key(x[0]), o)[0] == y[0];
      forall g ensures EqualTo(x[1..], g, o) == EqualTo(y[1..], g, o) {
        TailEqual(x, y, g, o);
      }
      FirstTail(x, o);
      FirstTail(y, o);
      StableSortUnique(x[1..], y[1..], o);
      assert x == [x[0]] + x[1..] && y == [y[0]] + y[1..];
    }
  }

  lemma TailEqual<T, K(!new)>(x: seq<T>, y: seq<T>, g: K, o: Callback<T, K>)
    requires x != [] && y != [] && x[0] == y[0] && EqualTo(x, g, o) == EqualTo(y, g, o)
    ensures EqualTo(x[1..], g, o) == EqualTo(y[1..], g, o)
  {
    var h := if (o.cmp)(o.key(x[0]), g) == 0 then [x[0]] else [];
    assert EqualTo(x[1..], g, o) == EqualTo(x, g, o)[|h|..];
    assert EqualTo(y[1..], g, o) == EqualTo(y, g, o)[|h|..];
  }
}
