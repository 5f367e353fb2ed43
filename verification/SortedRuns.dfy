/** Sorted sequences of tracks and the first track of each run of equals.

    These are the values behind app/track.c: `Firsts` is what the tree of a sorted list
    holds, `Insert` is where a new track belongs. The lemmas say how both change when a
    track is put in between or taken out, at the places where the tree search ends and
    where a run starts, goes on or stops, so that the list operations need no induction
    of their own. */
module SortedRuns {
  import opened Common
  import opened Tracks
  import opened RbShape

  function Cmp(cmp: Compare, a: RbNode, b: RbNode): int {
    cmp(a.info, b.info)
  }

  ghost predicate Sorted(s: seq<RbNode>, cmp: Compare) {
    forall i, j {:trigger Cmp(cmp, s[i], s[j])} :: 0 <= i < j < |s| ==> Cmp(cmp, s[i], s[j]) <= 0
  }

  /** No track compares equal to its neighbour across the seam. */
  ghost predicate Seam(x: seq<RbNode>, y: seq<RbNode>, cmp: Compare) {
    x != [] && y != [] ==> Cmp(cmp, x[|x| - 1], y[0]) != 0
  }

  /** The first track of each run of equal neighbours. */
  ghost function Firsts(s: seq<RbNode>, cmp: Compare): seq<RbNode> {
    if s == [] then []
    else
      var k := |s| - 1;
      Firsts(s[..k], cmp) + if k == 0 || Cmp(cmp, s[k - 1], s[k]) != 0 then [s[k]] else []
  }

  lemma {:induction false} FirstsConcat(x: seq<RbNode>, y: seq<RbNode>, cmp: Compare)
    requires Seam(x, y, cmp)
    ensures Firsts(x + y, cmp) == Firsts(x, cmp) + Firsts(y, cmp)
    decreases |y|
  {
    if y == [] {
      assert x + y == x;
    } else {
      var k := |y| - 1;
      EndOfConcat(x, y, y[..k], y[k]);
      FirstsConcat(x, y[..k], cmp);
      FirstsEnd(y[..k], y[k], y, cmp);
      FirstsEnd(x + y[..k], y[k], x + y, cmp);
      Assoc(Firsts(x, cmp), Firsts(y[..k], cmp), [y[k]]);
    }
  }

  lemma EndOfConcat<T>(x: seq<T>, y: seq<T>, z: seq<T>, n: T)
    requires y == z + [n]
    ensures x + y == x + z + [n] && (if z == [] then x + z == x else (x + z)[|x + z| - 1] == z[|z| - 1])
    ensures y == z + [n] && (z != [] ==> z[0] == y[0])
  {
  }

  lemma FirstsEnd(s: seq<RbNode>, n: RbNode, whole: seq<RbNode>, cmp: Compare)
    requires whole == s + [n]
    ensures Firsts(whole, cmp) == if s == [] || Cmp(cmp, s[|s| - 1], n) != 0 then Firsts(s, cmp) + [n] else Firsts(s, cmp)
  {
    assert whole[..|s|] == s;
  }

  lemma {:induction false} FirstsInside(s: seq<RbNode>, cmp: Compare)
    ensures |Firsts(s, cmp)| <= |s|
    ensures s != [] ==> Firsts(s, cmp) != [] && Firsts(s, cmp)[0] == s[0]
    ensures forall n :: n in Firsts(s, cmp) ==> n in s
  {
    if s != [] {
      FirstsInside(s[..|s| - 1], cmp);
    }
  }

  /** A sequence of equals has one run. */
  lemma {:induction false} FirstsOfRun(s: seq<RbNode>, cmp: Compare)
    requires s != [] && forall i, j :: 0 <= i < |s| && 0 <= j < |s| ==> Cmp(cmp, s[i], s[j]) == 0
    ensures Firsts(s, cmp) == [s[0]]
  {
    if |s| > 1 {
      FirstsOfRun(s[..|s| - 1], cmp);
    } else {
      assert s == [s[0]] && s[..0] == [];
    }
  }

  lemma Equals(cmp: Compare, a: TrackInfo, b: TrackInfo, c: TrackInfo)
    requires TotalPreorder(cmp) && cmp(a, b) == 0 && cmp(b, c) == 0
    ensures cmp(a, c) == 0
  {
    Flip(cmp, a, b);
    Flip(cmp, b, c);
    Chain(cmp, a, b, c);
    Chain(cmp, c, b, a);
  }

  /** The last track equals the first of its run. */
  lemma {:induction false} LastInRun(s: seq<RbNode>, cmp: Compare)
    requires TotalPreorder(cmp) && s != []
    ensures Firsts(s, cmp) != [] && Cmp(cmp, Firsts(s, cmp)[|Firsts(s, cmp)| - 1], s[|s| - 1]) == 0
  {
    var k := |s| - 1;
    Flip(cmp, s[k].info, s[k].info);
    if k > 0 && Cmp(cmp, s[k - 1], s[k]) == 0 {
      LastInRun(s[..k], cmp);
      var f := Firsts(s[..k], cmp);
      Equals(cmp, f[|f| - 1].info, s[k - 1].info, s[k].info);
    }
  }

  /** The sequence splits in front of the first of any run. */
  lemma {:induction false} SplitAtFirst(s: seq<RbNode>, cmp: Compare, j: nat) returns (x: seq<RbNode>, y: seq<RbNode>)
    requires j < |Firsts(s, cmp)|
    ensures s == x + y && y != [] && y[0] == Firsts(s, cmp)[j] && Seam(x, y, cmp)
    ensures Firsts(x, cmp) == Firsts(s, cmp)[..j] && Firsts(y, cmp) == Firsts(s, cmp)[j..]
  {
    var k := |s| - 1;
    var f := Firsts(s[..k], cmp);
    if j < |f| {
      var y0;
      x, y0 := SplitAtFirst(s[..k], cmp, j);
      y := y0 + [s[k]];
      assert s == s[..k] + [s[k]] == x + y;
      assert |Firsts(x, cmp)| == j;
    } else {
      x, y := s[..k], [s[k]];
      assert s == x + y;
    }
    SplitFacts(s, x, y, cmp, j);
  }

  lemma SplitFacts(s: seq<RbNode>, x: seq<RbNode>, y: seq<RbNode>, cmp: Compare, j: nat)
    requires s == x + y && y != [] && Seam(x, y, cmp) && |Firsts(x, cmp)| == j
    ensures j < |Firsts(s, cmp)| && y[0] == Firsts(s, cmp)[j]
    ensures Firsts(x, cmp) == Firsts(s, cmp)[..j] && Firsts(y, cmp) == Firsts(s, cmp)[j..]
  {
    FirstsConcat(x, y, cmp);
    FirstsInside(y, cmp);
    CutAt(Firsts(s, cmp), Firsts(x, cmp), Firsts(y, cmp), j);
  }

  lemma CutAt<T>(s: seq<T>, x: seq<T>, y: seq<T>, j: nat)
    requires s == x + y && |x| == j && y != []
    ensures s[..j] == x && s[j..] == y && s[j] == y[0]
  {
  }

  /** Firsts of a sorted sequence rise strictly. */
  ghost predicate Rising(s: seq<RbNode>, cmp: Compare) {
    forall i, j :: 0 <= i < j < |s| ==> Cmp(cmp, s[i], s[j]) < 0
  }

  lemma {:induction false} FirstsRise(s: seq<RbNode>, cmp: Compare)
    requires TotalPreorder(cmp) && Sorted(s, cmp)
    ensures Rising(Firsts(s, cmp), cmp)
    ensures s != [] ==> forall n :: n in Firsts(s, cmp) ==> Cmp(cmp, n, s[|s| - 1]) <= 0
  {
    if s != [] {
      var k := |s| - 1;
      FirstsRise(s[..k], cmp);
      Flip(cmp, s[k].info, s[k].info);
      if k > 0 {
        assert Cmp(cmp, s[k - 1], s[k]) <= 0;
        forall n | n in Firsts(s[..k], cmp) ensures Cmp(cmp, n, s[k]) <= 0 && (Cmp(cmp, s[k - 1], s[k]) < 0 ==> Cmp(cmp, n, s[k]) < 0) {
          assert Cmp(cmp, n, s[k - 1]) <= 0;
          Chain(cmp, n.info, s[k - 1].info, s[k].info);
        }
      }
    }
  }

  /** Where a new track belongs: behind its equals if `last`, in front of them otherwise. */
  ghost function Insert(s: seq<RbNode>, n: RbNode, cmp: Compare, last: bool): seq<RbNode> {
    if s == [] then [n]
    else if Cmp(cmp, n, s[0]) < 0 || (!last && Cmp(cmp, n, s[0]) == 0) then [n] + s
    else [s[0]] + Insert(s[1..], n, cmp, last)
  }

  lemma {:induction false} InsertAtSeam(x: seq<RbNode>, y: seq<RbNode>, n: RbNode, cmp: Compare, last: bool)
    requires forall i :: 0 <= i < |x| ==> if last then Cmp(cmp, n, x[i]) >= 0 else Cmp(cmp, n, x[i]) > 0
    requires y != [] ==> if last then Cmp(cmp, n, y[0]) < 0 else Cmp(cmp, n, y[0]) <= 0
    ensures Insert(x + y, n, cmp, last) == x + [n] + y
  {
    if x == [] {
      assert x + y == y;
    } else {
      assert (x + y)[1..] == x[1..] + y;
      InsertAtSeam(x[1..], y, n, cmp, last);
    }
  }

  /** A track above every first to the left of a seam is above everything there. */
  lemma LeftBelow(x: seq<RbNode>, cmp: Compare, n: RbNode, strict: bool)
    requires TotalPreorder(cmp) && Sorted(x, cmp)
    requires forall f :: f in Firsts(x, cmp) ==> Cmp(cmp, f, n) <= 0 && (strict ==> Cmp(cmp, f, n) < 0)
    ensures forall i :: 0 <= i < |x| ==> Cmp(cmp, n, x[i]) >= 0 && (strict ==> Cmp(cmp, n, x[i]) > 0)
  {
    if x != [] {
      LastInRun(x, cmp);
      var f := Last(Firsts(x, cmp));
      AllBelow(x, cmp, f, n, strict);
    }
  }

  function Last<T>(s: seq<T>): (r: T)
    requires s != []
    ensures r in s
  {
    s[|s| - 1]
  }

  lemma AllBelow(x: seq<RbNode>, cmp: Compare, f: RbNode, n: RbNode, strict: bool)
    requires TotalPreorder(cmp) && Sorted(x, cmp) && x != [] && Cmp(cmp, f, x[|x| - 1]) == 0
    requires Cmp(cmp, f, n) <= 0 && (strict ==> Cmp(cmp, f, n) < 0)
    ensures forall i :: 0 <= i < |x| ==> Cmp(cmp, n, x[i]) >= 0 && (strict ==> Cmp(cmp, n, x[i]) > 0)
  {
    var l := x[|x| - 1];
    forall i | 0 <= i < |x| ensures Cmp(cmp, n, x[i]) >= 0 && (strict ==> Cmp(cmp, n, x[i]) > 0) {
      assert i == |x| - 1 || Cmp(cmp, x[i], l) <= 0;
      OneBelow(cmp, x[i].info, l.info, f.info, n.info, strict);
    }
  }

  lemma OneBelow(cmp: Compare, x: TrackInfo, l: TrackInfo, f: TrackInfo, n: TrackInfo, strict: bool)
    requires TotalPreorder(cmp) && (x == l || cmp(x, l) <= 0) && cmp(f, l) == 0 && cmp(f, n) <= 0 && (strict ==> cmp(f, n) < 0)
    ensures cmp(n, x) >= 0 && (strict ==> cmp(n, x) > 0)
  {
    Flip(cmp, f, l);
    Chain(cmp, l, f, n);
    if x != l {
      Chain(cmp, x, l, n);
    }
  }

  lemma SortedAround(x: seq<RbNode>, y: seq<RbNode>, n: RbNode, cmp: Compare)
    requires TotalPreorder(cmp) && Sorted(x + y, cmp)
    requires forall i :: 0 <= i < |x| ==> Cmp(cmp, n, x[i]) >= 0
    requires y != [] ==> Cmp(cmp, n, y[0]) <= 0
    ensures Sorted(x + [n] + y, cmp)
  {
    var s := x + y;
    forall i | 0 <= i < |x| ensures Cmp(cmp, x[i], n) <= 0 { Flip(cmp, x[i].info, n.info); }
    forall j | 0 <= j < |y| ensures Cmp(cmp, n, y[j]) <= 0 {
      assert s[|x|] == y[0] && s[|x| + j] == y[j];
      if j > 0 {
        assert Cmp(cmp, y[0], y[j]) <= 0;
        Chain(cmp, n.info, y[0].info, y[j].info);
      }
    }
    forall i, j | 0 <= i < |x| && 0 <= j < |y| ensures Cmp(cmp, x[i], y[j]) <= 0 {
      assert s[i] == x[i] && s[|x| + j] == y[j];
    }
    SortedParts(x, y, cmp);
  }

  lemma SortedParts(x: seq<RbNode>, y: seq<RbNode>, cmp: Compare)
    requires Sorted(x + y, cmp)
    ensures Sorted(x, cmp) && Sorted(y, cmp)
  {
    var s := x + y;
    forall i, j | 0 <= i < j < |x| ensures Cmp(cmp, x[i], x[j]) <= 0 {
      assert s[i] == x[i] && s[j] == x[j];
    }
    forall i, j | 0 <= i < j < |y| ensures Cmp(cmp, y[i], y[j]) <= 0 {
      assert s[|x| + i] == y[i] && s[|x| + j] == y[j];
    }
  }

  /** `s` split at the place where `n` goes. */
  ghost predicate Goes(s: seq<RbNode>, n: RbNode, cmp: Compare, last: bool, x: seq<RbNode>, y: seq<RbNode>) {
    s == x + y && Insert(s, n, cmp, last) == x + [n] + y && Sorted(x + [n] + y, cmp)
  }

  lemma GoesAtSeam(x: seq<RbNode>, y: seq<RbNode>, n: RbNode, cmp: Compare, last: bool)
    requires TotalPreorder(cmp) && Sorted(x + y, cmp)
    requires forall f :: f in Firsts(x, cmp) ==> Cmp(cmp, f, n) < 0 || (last && Cmp(cmp, f, n) == 0)
    requires y != [] ==> Cmp(cmp, n, y[0]) < 0 || (!last && Cmp(cmp, n, y[0]) == 0)
    ensures Goes(x + y, n, cmp, last, x, y)
  {
    SortedParts(x, y, cmp);
    LeftBelow(x, cmp, n, !last);
    InsertAtSeam(x, y, n, cmp, last);
    SortedAround(x, y, n, cmp);
  }

  lemma FirstsOne(n: RbNode, cmp: Compare)
    ensures Firsts([n], cmp) == [n]
  {
    assert [n][..0] == [];
  }

  lemma {:induction false} FirstsPrepend(n: RbNode, y: seq<RbNode>, cmp: Compare)
    requires y != [] && Cmp(cmp, n, y[0]) == 0
    ensures Firsts(y, cmp) != [] && Firsts([n] + y, cmp) == [n] + Firsts(y, cmp)[1..]
    decreases |y|
  {
    var k, z := |y| - 1, [n] + y;
    assert z[..|z| - 1] == [n] + y[..k] && z[|z| - 1] == y[k];
    if k == 0 {
      assert [n] + y[..0] == [n] && y == [y[0]];
      FirstsOne(n, cmp);
      FirstsOne(y[0], cmp);
    } else {
      FirstsPrepend(n, y[..k], cmp);
      assert z[|z| - 2] == y[k - 1];
      var f := Firsts(y[..k], cmp);
      assert ([n] + f[1..]) + [y[k]] == [n] + (f + [y[k]])[1..];
    }
  }

  /** A track without equals goes between two runs and starts its own. */
  lemma GoesBetween(s: seq<RbNode>, n: RbNode, cmp: Compare, last: bool, b: seq<RbNode>, a: seq<RbNode>)
    returns (x: seq<RbNode>, y: seq<RbNode>)
    requires TotalPreorder(cmp) && Sorted(s, cmp) && Firsts(s, cmp) == b + a
    requires (forall f :: f in b ==> Cmp(cmp, f, n) < 0) && (forall f :: f in a ==> Cmp(cmp, n, f) < 0)
    ensures Goes(s, n, cmp, last, x, y) && Firsts(x + [n] + y, cmp) == b + [n] + a
    ensures if a == [] then y == [] else y != [] && y[0] == a[0]
  {
    if a == [] {
      x, y := s, [];
      assert s == x + y && b + a == b;
    } else {
      x, y := SplitAtFirst(s, cmp, |b|);
      assert (b + a)[..|b|] == b && (b + a)[|b|..] == a && a[0] in a;
    }
    GoesAtSeam(x, y, n, cmp, last);
    FirstsBetween(x, y, n, cmp);
  }

  lemma FirstsBetween(x: seq<RbNode>, y: seq<RbNode>, n: RbNode, cmp: Compare)
    requires TotalPreorder(cmp) && (forall f :: f in Firsts(x, cmp) ==> Cmp(cmp, f, n) < 0)
    requires y != [] ==> Cmp(cmp, n, y[0]) < 0
    ensures Firsts(x + [n] + y, cmp) == Firsts(x, cmp) + [n] + Firsts(y, cmp)
  {
    if x != [] {
      LastInRun(x, cmp);
      var l, f := x[|x| - 1], Firsts(x, cmp)[|Firsts(x, cmp)| - 1];
      assert f in Firsts(x, cmp);
      Flip(cmp, f.info, l.info);
      Chain(cmp, l.info, f.info, n.info);
    }
    FirstsOne(n, cmp);
    FirstsConcat(x, [n], cmp);
    FirstsConcat(x + [n], y, cmp);
  }

  /** A track with equals goes in front of their first and takes over as first. */
  lemma GoesFirst(s: seq<RbNode>, n: RbNode, cmp: Compare, j: nat) returns (x: seq<RbNode>, y: seq<RbNode>)
    requires TotalPreorder(cmp) && Sorted(s, cmp) && j < |Firsts(s, cmp)| && Cmp(cmp, n, Firsts(s, cmp)[j]) == 0
    ensures Goes(s, n, cmp, false, x, y) && Firsts(x + [n] + y, cmp) == Firsts(s, cmp)[j := n]
    ensures y != [] && y[0] == Firsts(s, cmp)[j]
  {
    var f := Firsts(s, cmp);
    x, y := SplitAtFirst(s, cmp, j);
    FirstsRise(s, cmp);
    Flip(cmp, n.info, f[j].info);
    Below(f, j, n, cmp);
    GoesAtSeam(x, y, n, cmp, false);
    FirstsTakeOver(x, y, n, cmp);
    PutAt(f, j, n);
  }

  lemma Below(f: seq<RbNode>, j: nat, n: RbNode, cmp: Compare)
    requires TotalPreorder(cmp) && Rising(f, cmp) && j < |f| && Cmp(cmp, f[j], n) == 0
    ensures forall g :: g in f[..j] ==> Cmp(cmp, g, n) < 0
  {
    forall i | 0 <= i < j ensures Cmp(cmp, f[i], n) < 0 {
      Chain(cmp, f[i].info, f[j].info, n.info);
    }
  }

  lemma PutAt<T>(f: seq<T>, j: nat, n: T)
    requires j < |f|
    ensures f[..j] + ([n] + f[j..][1..]) == f[j := n]
  {
  }

  lemma FirstsTakeOver(x: seq<RbNode>, y: seq<RbNode>, n: RbNode, cmp: Compare)
    requires TotalPreorder(cmp) && y != [] && Cmp(cmp, n, y[0]) == 0 && Seam(x, y, cmp)
    ensures Firsts(y, cmp) != [] && Firsts(x + [n] + y, cmp) == Firsts(x, cmp) + ([n] + Firsts(y, cmp)[1..])
  {
    FirstsPrepend(n, y, cmp);
    if x != [] && Cmp(cmp, x[|x| - 1], n) == 0 {
      Equals(cmp, x[|x| - 1].info, n.info, y[0].info);
    }
    FirstsConcat(x, [n] + y, cmp);
    assert x + ([n] + y) == x + [n] + y;
  }

  /** A track with equals goes behind their last. */
  lemma GoesLast(s: seq<RbNode>, n: RbNode, cmp: Compare, j: nat) returns (x: seq<RbNode>, y: seq<RbNode>)
    requires TotalPreorder(cmp) && Sorted(s, cmp) && j < |Firsts(s, cmp)| && Cmp(cmp, n, Firsts(s, cmp)[j]) == 0
    ensures Goes(s, n, cmp, true, x, y) && Firsts(x + [n] + y, cmp) == Firsts(s, cmp)
    ensures if j + 1 == |Firsts(s, cmp)| then y == [] else y != [] && y[0] == Firsts(s, cmp)[j + 1]
  {
    var f := Firsts(s, cmp);
    FirstsRise(s, cmp);
    FirstsInside(s, cmp);
    Flip(cmp, n.info, f[j].info);
    UpTo(f, j, n, cmp);
    if j + 1 == |f| {
      x, y := s, [];
      assert s == x + y && f == f[..j + 1];
    } else {
      x, y := SplitAtFirst(s, cmp, j + 1);
      Chain(cmp, n.info, f[j].info, f[j + 1].info);
    }
    GoesAtSeam(x, y, n, cmp, true);
    LastOfCut(f, j, Firsts(x, cmp), Firsts(y, cmp));
    FirstsJoin(x, y, n, cmp);
  }

  lemma LastOfCut<T>(f: seq<T>, j: nat, x: seq<T>, y: seq<T>)
    requires j < |f| && x == f[..j + 1] && y == f[j + 1..]
    ensures x != [] && x[|x| - 1] == f[j] && f == x + y
  {
  }

  lemma UpTo(f: seq<RbNode>, j: nat, n: RbNode, cmp: Compare)
    requires TotalPreorder(cmp) && Rising(f, cmp) && j < |f| && Cmp(cmp, f[j], n) == 0
    ensures forall g :: g in f[..j + 1] ==> Cmp(cmp, g, n) <= 0
  {
    forall i | 0 <= i < j ensures Cmp(cmp, f[i], n) <= 0 {
      Chain(cmp, f[i].info, f[j].info, n.info);
    }
  }

  lemma FirstsJoin(x: seq<RbNode>, y: seq<RbNode>, n: RbNode, cmp: Compare)
    requires TotalPreorder(cmp) && x != [] && Firsts(x, cmp) != [] && Cmp(cmp, Firsts(x, cmp)[|Firsts(x, cmp)| - 1], n) == 0
    requires y != [] ==> Cmp(cmp, n, y[0]) < 0
    ensures Firsts(x + [n] + y, cmp) == Firsts(x, cmp) + Firsts(y, cmp)
  {
    LastInRun(x, cmp);
    var l, f := x[|x| - 1], Firsts(x, cmp)[|Firsts(x, cmp)| - 1];
    Flip(cmp, f.info, l.info);
    Equals(cmp, l.info, f.info, n.info);
    assert (x + [n])[..|x|] == x;
    assert Firsts(x + [n], cmp) == Firsts(x, cmp);
    FirstsConcat(x + [n], y, cmp);
  }

  /* Taking one track out of `x + [t] + y`. */

  /** A track that is not the first of its run leaves the firsts as they are. */
  lemma {:induction false} DropEqual(x: seq<RbNode>, t: RbNode, y: seq<RbNode>, cmp: Compare)
    requires TotalPreorder(cmp) && x != [] && Cmp(cmp, x[|x| - 1], t) == 0
    ensures Firsts(x + [t] + y, cmp) == Firsts(x + y, cmp)
    decreases |y|
  {
    if y == [] {
      assert x + [t] + y == x + [t] && x + y == x;
      FirstsEnd(x, t, x + [t], cmp);
    } else {
      var k := |y| - 1;
      DropEqual(x, t, y[..k], cmp);
      SameSide(x[|x| - 1], t, y[k], cmp);
      EndOfConcat(x + [t], y, y[..k], y[k]);
      EndOfConcat(x, y, y[..k], y[k]);
      FirstsEnd(x + [t] + y[..k], y[k], x + [t] + y, cmp);
      FirstsEnd(x + y[..k], y[k], x + y, cmp);
    }
  }

  lemma SameSide(l: RbNode, t: RbNode, n: RbNode, cmp: Compare)
    requires TotalPreorder(cmp) && Cmp(cmp, l, t) == 0
    ensures Cmp(cmp, t, n) == 0 <==> Cmp(cmp, l, n) == 0
  {
    Flip(cmp, l.info, t.info);
    if Cmp(cmp, t, n) == 0 {
      Equals(cmp, l.info, t.info, n.info);
    } else if Cmp(cmp, l, n) == 0 {
      Equals(cmp, t.info, l.info, n.info);
    }
  }

  /** The first of a longer run hands over to the next track. */
  lemma DropFirst(x: seq<RbNode>, t: RbNode, y: seq<RbNode>, cmp: Compare)
    requires TotalPreorder(cmp) && Seam(x, [t], cmp) && y != [] && Cmp(cmp, t, y[0]) == 0
    ensures Firsts(y, cmp) != [] && Firsts(y, cmp)[0] == y[0]
    ensures Firsts(x + [t] + y, cmp) == Firsts(x, cmp) + [t] + Firsts(y, cmp)[1..]
    ensures Firsts(x + y, cmp) == Firsts(x, cmp) + Firsts(y, cmp)
  {
    FirstsInside(y, cmp);
    Flip(cmp, t.info, y[0].info);
    if x != [] && Cmp(cmp, x[|x| - 1], y[0]) == 0 {
      Equals(cmp, x[|x| - 1].info, y[0].info, t.info);
    }
    FirstsTakeOver(x, y, t, cmp);
    Assoc(Firsts(x, cmp), [t], Firsts(y, cmp)[1..]);
    FirstsConcat(x, y, cmp);
  }

  /** A run of one track disappears. */
  lemma DropOnly(x: seq<RbNode>, t: RbNode, y: seq<RbNode>, cmp: Compare)
    requires TotalPreorder(cmp) && Sorted(x + [t] + y, cmp) && Seam(x, [t], cmp) && Seam([t], y, cmp)
    ensures Firsts(x + [t] + y, cmp) == Firsts(x, cmp) + [t] + Firsts(y, cmp)
    ensures Firsts(x + y, cmp) == Firsts(x, cmp) + Firsts(y, cmp)
  {
    var s := x + [t] + y;
    if x != [] && y != [] {
      assert s[|x| - 1] == x[|x| - 1] && s[|x|] == t && s[|x| + 1] == y[0];
      Chain(cmp, x[|x| - 1].info, t.info, y[0].info);
    }
    FirstsOne(t, cmp);
    FirstsConcat(x, [t], cmp);
    FirstsConcat(x + [t], y, cmp);
    FirstsConcat(x, y, cmp);
  }

  /** Whether the middle track is the first of its run. */
  lemma FirstOrNot(x: seq<RbNode>, t: RbNode, y: seq<RbNode>, cmp: Compare)
    requires TotalPreorder(cmp) && t !in x && t !in y
    ensures t in Firsts(x + [t] + y, cmp) <==> Seam(x, [t], cmp)
  {
    FirstsInside(x, cmp);
    FirstsInside(y, cmp);
    if Seam(x, [t], cmp) {
      FirstsConcat(x, [t] + y, cmp);
      FirstsInside([t] + y, cmp);
      assert x + ([t] + y) == x + [t] + y;
      assert t in Firsts([t] + y, cmp);
    } else {
      DropEqual(x, t, y, cmp);
      FirstsInside(x + y, cmp);
    }
  }
}
