/** The chunk ring between producer and consumer (app/buffer.c): a queue of bytes. */
module Buffer {
  import opened Common

  const CHUNK_SIZE := 60480

  datatype Chunk = Chunk(data: seq<byte>, l: nat, h: nat, filled: bool)

  /** data[lo..hi]. */
  function Region(data: seq<byte>, lo: nat, hi: nat): (r: seq<byte>)
    requires lo <= hi <= |data|
    ensures |r| == hi - lo
  {
    if lo == 0 then data[..hi] else data[lo..hi]
  }

  lemma RegionAt(data: seq<byte>, lo: nat, hi: nat)
    requires lo <= hi <= |data|
    ensures Region(data, lo, hi) == data[lo..hi]
  {
  }

  lemma RegionSplit(data: seq<byte>, lo: nat, mid: nat, hi: nat)
    requires lo <= mid <= hi <= |data|
    ensures Region(data, lo, hi) == Region(data, lo, mid) + Region(data, mid, hi)
    ensures Region(data, lo, hi)[..mid - lo] == Region(data, lo, mid)
  {
    RegionAt(data, lo, hi);
    RegionAt(data, lo, mid);
    RegionAt(data, mid, hi);
  }

  ghost predicate ChunkOk(c: Chunk) {
    && |c.data| == CHUNK_SIZE && c.l <= c.h <= CHUNK_SIZE
    && (if c.filled then c.l < c.h else c.l == 0 && CHUNK_SIZE - c.h >= 1024)
  }

  /** The bytes a chunk holds. */
  ghost function Bytes(c: Chunk): seq<byte>
    requires ChunkOk(c)
  {
    Region(c.data, c.l, c.h)
  }

  /** The index `k` places behind `r`. */
  function Pos(n: nat, r: nat, k: nat): (i: nat)
    requires r < n && k <= n
    ensures i < n
  {
    if r + k < n then r + k else r + k - n
  }

  /** How many places `i` is behind `r`. */
  function Dist(n: nat, r: nat, i: nat): (k: nat)
    requires r < n && i < n
    ensures k < n && Pos(n, r, k) == i
  {
    if r <= i then i - r else i + n - r
  }

  /** An index is advanced by one and taken modulo the number of chunks. */
  function Next(n: nat, r: nat): (i: nat)
    requires r < n
    ensures i == Pos(n, r, 1)
  {
    if r + 1 == n then 0 else r + 1
  }

  ghost predicate AllOk(chunks: seq<Chunk>) {
    forall i :: 0 <= i < |chunks| ==> ChunkOk(chunks[i])
  }

  /** The bytes of `k` chunks from `r` on. */
  ghost function Cyclic(chunks: seq<Chunk>, r: nat, k: nat): seq<byte>
    requires r < |chunks| && k <= |chunks| && AllOk(chunks)
    decreases k
  {
    if k == 0 then [] else Cyclic(chunks, r, k - 1) + Bytes(chunks[Pos(|chunks|, r, k - 1)])
  }

  lemma {:induction false} CyclicSame(a: seq<Chunk>, b: seq<Chunk>, r: nat, k: nat)
    requires r < |a| == |b| && k <= |a| && AllOk(a) && AllOk(b)
    requires forall i :: 0 <= i < |a| && Dist(|a|, r, i) < k ==> a[i] == b[i]
    ensures Cyclic(a, r, k) == Cyclic(b, r, k)
    decreases k
  {
    if k > 0 {
      CyclicSame(a, b, r, k - 1);
      assert Dist(|a|, r, Pos(|a|, r, k - 1)) == k - 1;
    }
  }

  /** The first chunk can be taken off. */
  lemma {:induction false} CyclicFirst(chunks: seq<Chunk>, r: nat, k: nat)
    requires r < |chunks| && 0 < k <= |chunks| && AllOk(chunks)
    ensures Cyclic(chunks, r, k) == Bytes(chunks[r]) + Cyclic(chunks, Pos(|chunks|, r, 1), k - 1)
    decreases k
  {
    var n := |chunks|;
    if k == 1 {
      assert Cyclic(chunks, r, 0) == [];
    } else {
      CyclicFirst(chunks, r, k - 1);
      assert Pos(n, r, k - 1) == Pos(n, Pos(n, r, 1), k - 2);
      Assoc(Bytes(chunks[r]), Cyclic(chunks, Pos(n, r, 1), k - 2), Bytes(chunks[Pos(n, r, k - 1)]));
    }
  }

  /** What the ring holds: the filled chunks, then what is in the chunk being written. */
  ghost function Held(chunks: seq<Chunk>, r: nat, k: nat): seq<byte>
    requires r < |chunks| && k <= |chunks| && AllOk(chunks)
  {
    Cyclic(chunks, r, k) + (if k < |chunks| then Bytes(chunks[Pos(|chunks|, r, k)]) else [])
  }

  /** The filled chunks are exactly the `k` chunks from `r` on, and only the next one holds bytes
      besides them. */
  ghost predicate Interval(chunks: seq<Chunk>, r: nat, k: nat)
    requires r < |chunks|
  {
    && k <= |chunks|
    && (forall i :: 0 <= i < |chunks| ==> (chunks[i].filled <==> Dist(|chunks|, r, i) < k))
    && forall i :: 0 <= i < |chunks| && Dist(|chunks|, r, i) > k ==> chunks[i].h == 0
  }

  ghost predicate RingOk(chunks: seq<Chunk>, r: nat, w: nat, k: nat, taken: seq<byte>, given: seq<byte>) {
    && r < |chunks| && k <= |chunks| && w == Pos(|chunks|, r, k)
    && AllOk(chunks) && Interval(chunks, r, k) && taken + Held(chunks, r, k) == given
  }

  /** A ring of empty chunks. */
  lemma BlankOk(chunks: seq<Chunk>)
    requires chunks != [] && forall i :: 0 <= i < |chunks| ==> ChunkOk(chunks[i]) && chunks[i].h == 0 && !chunks[i].filled
    ensures RingOk(chunks, 0, 0, 0, [], [])
  {
  }

  /* The calls as functions of the ring. */

  /** Chunks and indices, with the number of filled chunks and the bytes consumed and filled since
      the last reset. */
  datatype RingState = RingState(chunks: seq<Chunk>, ridx: nat, widx: nat, count: nat, taken: seq<byte>, given: seq<byte>)

  ghost predicate Ok(s: RingState) {
    RingOk(s.chunks, s.ridx, s.widx, s.count, s.taken, s.given)
  }

  /** buffer_get_wpos: the size of the free region. */
  function Space(s: RingState): int
    requires s.widx < |s.chunks|
  {
    if s.chunks[s.widx].filled then 0 else CHUNK_SIZE - s.chunks[s.widx].h
  }

  /** buffer_get_rpos: the bytes in the region to be read. */
  function Offered(s: RingState): seq<byte>
    requires s.ridx < |s.chunks| && s.chunks[s.ridx].l <= s.chunks[s.ridx].h <= |s.chunks[s.ridx].data|
  {
    var c := s.chunks[s.ridx];
    if c.filled then Region(c.data, c.l, c.h) else []
  }

  /** Bytes written into the free region. */
  function Written(s: RingState, bytes: seq<byte>): RingState
    requires s.widx < |s.chunks| && s.chunks[s.widx].h + |bytes| <= |s.chunks[s.widx].data|
  {
    var c := s.chunks[s.widx];
    s.(chunks := s.chunks[s.widx := Chunk(c.data[..c.h] + bytes + c.data[c.h + |bytes|..], c.l, c.h, c.filled)])
  }

  /** A chunk is passed on when less than 1024 bytes are free, or when nothing was added to what is
      in it. */
  predicate Fills(c: Chunk, n: nat) {
    CHUNK_SIZE - (c.h + n) < 1024 || (n == 0 && c.h + n > 0)
  }

  /** buffer_fill. */
  function Filled(s: RingState, n: nat): RingState
    requires s.widx < |s.chunks| && s.chunks[s.widx].h + n <= |s.chunks[s.widx].data|
  {
    var c := s.chunks[s.widx];
    var filled := Fills(c, n);
    RingState(s.chunks[s.widx := Chunk(c.data, c.l, c.h + n, filled)], s.ridx,
      if filled then Next(|s.chunks|, s.widx) else s.widx, if filled then s.count + 1 else s.count,
      s.taken, s.given + Region(c.data, c.h, c.h + n))
  }

  /** buffer_consume. */
  function Consumed(s: RingState, n: nat): RingState
    requires s.ridx < |s.chunks| && s.chunks[s.ridx].l + n <= s.chunks[s.ridx].h <= |s.chunks[s.ridx].data| && s.count > 0
  {
    var c := s.chunks[s.ridx];
    var taken := s.taken + Region(c.data, c.l, c.l + n);
    if c.l + n == c.h then
      RingState(s.chunks[s.ridx := Chunk(c.data, 0, 0, false)], Next(|s.chunks|, s.ridx), s.widx, s.count - 1, taken, s.given)
    else
      RingState(s.chunks[s.ridx := Chunk(c.data, c.l + n, c.h, c.filled)], s.ridx, s.widx, s.count, taken, s.given)
  }

  /** buffer_reset. */
  function ResetOf(s: RingState): (r: RingState)
    ensures |r.chunks| == |s.chunks| && forall i :: 0 <= i < |s.chunks| ==> r.chunks[i] == Chunk(s.chunks[i].data, 0, 0, false)
  {
    RingState(seq(|s.chunks|, i requires 0 <= i < |s.chunks| => Chunk(s.chunks[i].data, 0, 0, false)), 0, 0, 0, [], [])
  }

  class Ring {
    const chunks: array<Chunk>
    var ridx: nat
    var widx: nat
    /** The number of filled chunks, and the bytes filled and consumed since the last reset. */
    ghost var count: nat
    ghost var given: seq<byte>
    ghost var taken: seq<byte>

    ghost function Value(): RingState
      reads this, chunks
    {
      RingState(chunks[..], ridx, widx, count, taken, given)
    }

    ghost predicate Valid()
      reads this, chunks
    {
      Ok(Value())
    }

    /** buffer_init. */
    constructor (n: nat)
      requires n > 0
      ensures Valid() && fresh(chunks) && chunks.Length == n && given == [] && taken == []
    {
      var blank := Chunk(seq(CHUNK_SIZE, i => 0), 0, 0, false);
      chunks := new Chunk[n](i => blank);
      ridx, widx, count, given, taken := 0, 0, 0, [], [];
    }

    /** buffer_reset. */
    method Reset()
      requires Valid()
      modifies this, chunks
      ensures Valid() && ridx == widx == count == 0 && given == [] && taken == []
      ensures forall i :: 0 <= i < chunks.Length ==> chunks[i] == Chunk(old(chunks[i].data), 0, 0, false)
    {
      hide Cyclic, Region, Dist;
      ridx, widx := 0, 0;
      for i := 0 to chunks.Length
        invariant forall k :: 0 <= k < i ==> ChunkOk(chunks[k]) && chunks[k] == Chunk(old(chunks[k].data), 0, 0, false)
        invariant forall k :: i <= k < chunks.Length ==> chunks[k] == old(chunks[k])
        invariant ridx == widx == 0
      {
        assert ChunkOk(old(chunks[..])[i]);
        chunks[i] := Chunk(chunks[i].data, 0, 0, false);
      }
      count, given, taken := 0, [], [];
      BlankOk(chunks[..]);
    }

    /** buffer_get_rpos: the bytes to be consumed next. */
    method ReadSpace() returns (bytes: seq<byte>)
      requires Valid()
      ensures bytes == Offered(Value()) && taken + bytes <= given
      ensures bytes == [] <==> count == 0
      ensures bytes != [] ==> chunks[ridx].filled && bytes == Region(chunks[ridx].data, chunks[ridx].l, chunks[ridx].h)
    {
      bytes := [];
      var c := chunks[ridx];
      assert c == chunks[..][ridx];
      if c.filled {
        bytes := Region(c.data, c.l, c.h);
        CyclicFirst(chunks[..], ridx, count);
        Prefix(taken, bytes, chunks[..], ridx, count);
      }
    }

    /** buffer_get_wpos: none at all or at least 1024 bytes, and never in a filled chunk. */
    method WriteSpace() returns (size: nat)
      requires Valid()
      ensures size == Space(Value()) && (size == 0 <==> count == chunks.Length)
      ensures size != 0 ==> size >= 1024 && !chunks[widx].filled && size == CHUNK_SIZE - chunks[widx].h
    {
      size := 0;
      var c := chunks[widx];
      assert c == chunks[..][widx];
      if !c.filled {
        size := CHUNK_SIZE - c.h;
      }
    }

    /** The producer writes into the space it was given; no lock is held. */
    method Write(bytes: seq<byte>)
      requires Valid() && !chunks[widx].filled && |bytes| <= CHUNK_SIZE - chunks[widx].h
      modifies chunks
      ensures Valid() && Value() == Written(old(Value()), bytes)
      ensures chunks[widx].h == old(chunks[widx].h) && !chunks[widx].filled && |chunks[widx].data| == CHUNK_SIZE
      ensures Region(chunks[widx].data, chunks[widx].h, chunks[widx].h + |bytes|) == bytes
      ensures forall i :: 0 <= i < chunks.Length && i != widx ==> chunks[i] == old(chunks[i])
    {
      var c := chunks[widx];
      assert c == chunks[..][widx] && ChunkOk(c);
      ghost var next := Written(Value(), bytes);
      WrittenOk(Value(), bytes);
      var d := Chunk(c.data[..c.h] + bytes + c.data[c.h + |bytes|..], c.l, c.h, c.filled);
      WrittenRegion(c, bytes, d);
      Put(widx, d);
      assert Value() == next;
    }

    /** The fields of one chunk are stored. */
    method Put(i: nat, c: Chunk)
      requires i < chunks.Length
      modifies chunks
      ensures chunks[..] == old(chunks[..])[i := c]
    {
      chunks[i] := c;
    }

    /** buffer_fill. */
    method Fill(n: nat) returns (filled: bool)
      requires Valid() && !chunks[widx].filled && n <= CHUNK_SIZE - chunks[widx].h
      modifies this`widx, this`count, this`given, chunks
      ensures Value() == Filled(old(Value()), n) && Valid()
      ensures filled <==> old(Fills(chunks[widx], n))
    {
      var c := chunks[widx];
      assert c == chunks[..][widx] && ChunkOk(c);
      FilledOk(Value(), n);
      filled := Fills(c, n);
      Put(widx, Chunk(c.data, c.l, c.h + n, filled));
      given := given + Region(c.data, c.h, c.h + n);
      if filled {
        widx, count := Next(chunks.Length, widx), count + 1;
      }
      Same(Filled(old(Value()), n), chunks[..], ridx, widx, count, taken, given);
    }

    /** buffer_consume. */
    method Consume(n: nat)
      requires Valid() && chunks[ridx].filled && n <= chunks[ridx].h - chunks[ridx].l
      modifies this`ridx, this`count, this`taken, chunks
      ensures Value() == Consumed(old(Value()), n) && Valid()
    {
      var c := chunks[ridx];
      assert c == chunks[..][ridx] && ChunkOk(c);
      ConsumedOk(Value(), n);
      taken := taken + Region(c.data, c.l, c.l + n);
      if c.l + n == c.h {
        Put(ridx, Chunk(c.data, 0, 0, false));
        ridx, count := Next(chunks.Length, ridx), count - 1;
      } else {
        Put(ridx, Chunk(c.data, c.l + n, c.h, c.filled));
      }
      Same(Consumed(old(Value()), n), chunks[..], ridx, widx, count, taken, given);
    }

    /** buffer_get_filled_chunks. */
    method FilledChunks() returns (c: nat)
      requires Valid()
      ensures c == count
    {
      if ridx < widx {
        c := widx - ridx;
      } else if ridx > widx {
        c := chunks.Length - ridx + widx;
      } else if chunks[ridx].filled {
        assert chunks[..][ridx].filled;
        c := chunks.Length;
      } else {
        assert !chunks[..][ridx].filled;
        c := 0;
      }
    }
  }

  lemma Prefix(taken: seq<byte>, first: seq<byte>, chunks: seq<Chunk>, r: nat, k: nat)
    requires r < |chunks| && 0 < k <= |chunks| && AllOk(chunks) && first == Bytes(chunks[r])
    ensures taken + first <= taken + Held(chunks, r, k)
  {
    CyclicFirst(chunks, r, k);
    var rest := Cyclic(chunks, Pos(|chunks|, r, 1), k - 1);
    var last := if k < |chunks| then Bytes(chunks[Pos(|chunks|, r, k)]) else [];
    Assoc(first, rest, last);
    Assoc(taken, first, rest + last);
  }

  /** A change beyond the end of the chunk being written. */
  lemma Rewritten(a: seq<Chunk>, b: seq<Chunk>, r: nat, k: nat)
    requires r < |a| == |b| && k < |a| && AllOk(a) && AllOk(b) && Interval(a, r, k)
    requires forall i :: 0 <= i < |a| && Dist(|a|, r, i) != k ==> a[i] == b[i]
    requires var w := Pos(|a|, r, k); Bytes(a[w]) == Bytes(b[w]) && !b[w].filled
    ensures Interval(b, r, k) && Held(b, r, k) == Held(a, r, k)
  {
    CyclicSame(a, b, r, k);
  }

  /** More bytes in the chunk being written. */
  lemma Grown(a: seq<Chunk>, b: seq<Chunk>, r: nat, k: nat, more: seq<byte>, taken: seq<byte>, given: seq<byte>)
    requires r < |a| == |b| && k < |a| && AllOk(a) && AllOk(b) && taken + Held(a, r, k) == given
    requires forall i :: 0 <= i < |a| && Dist(|a|, r, i) != k ==> a[i] == b[i]
    requires var w := Pos(|a|, r, k); Bytes(b[w]) == Bytes(a[w]) + more
    ensures taken + Held(b, r, k) == given + more
  {
    CyclicSame(a, b, r, k);
    Assoc(Cyclic(a, r, k), Bytes(a[Pos(|a|, r, k)]), more);
    Assoc(taken, Held(a, r, k), more);
  }

  lemma Stays(a: seq<Chunk>, b: seq<Chunk>, r: nat, k: nat)
    requires r < |a| == |b| && k < |a| && AllOk(a) && AllOk(b) && Interval(a, r, k)
    requires forall i :: 0 <= i < |a| && Dist(|a|, r, i) != k ==> a[i] == b[i]
    requires !b[Pos(|a|, r, k)].filled
    ensures Interval(b, r, k)
  {
  }

  /** The chunk being written becomes the last filled one. */
  lemma Advance(a: seq<Chunk>, b: seq<Chunk>, r: nat, k: nat)
    requires r < |a| == |b| && k < |a| && AllOk(a) && AllOk(b) && Interval(a, r, k)
    requires forall i :: 0 <= i < |a| && Dist(|a|, r, i) != k ==> a[i] == b[i]
    requires b[Pos(|a|, r, k)].filled
    ensures Interval(b, r, k + 1) && Held(b, r, k + 1) == Held(b, r, k)
    ensures Pos(|a|, Pos(|a|, r, k), 1) == Pos(|a|, r, k + 1)
  {
    if k + 1 < |a| {
      assert Dist(|a|, r, Pos(|a|, r, k + 1)) == k + 1;
    }
  }

  /** Fewer bytes in the first chunk. */
  lemma Shrunk(a: seq<Chunk>, b: seq<Chunk>, r: nat, k: nat, piece: seq<byte>, taken: seq<byte>, given: seq<byte>)
    requires r < |a| == |b| && 0 < k <= |a| && AllOk(a) && AllOk(b) && Interval(a, r, k) && taken + Held(a, r, k) == given
    requires forall i :: 0 <= i < |a| && i != r ==> a[i] == b[i]
    requires Bytes(a[r]) == piece + Bytes(b[r]) && b[r].filled
    ensures Interval(b, r, k) && (taken + piece) + Held(b, r, k) == given
  {
    var n := |a|;
    CyclicFirst(a, r, k);
    CyclicFirst(b, r, k);
    RestSame(a, b, r, k);
    Assoc(piece, Bytes(b[r]), Cyclic(b, Pos(n, r, 1), k - 1));
    Assoc(piece, Cyclic(b, r, k), if k < n then Bytes(b[Pos(n, r, k)]) else []);
    Assoc(taken, piece, Held(b, r, k));
  }

  lemma RestSame(a: seq<Chunk>, b: seq<Chunk>, r: nat, k: nat)
    requires r < |a| == |b| && 0 < k <= |a| && AllOk(a) && AllOk(b)
    requires forall i :: 0 <= i < |a| && i != r ==> a[i] == b[i]
    ensures Cyclic(a, Pos(|a|, r, 1), k - 1) == Cyclic(b, Pos(|a|, r, 1), k - 1)
  {
    CyclicSame(a, b, Pos(|a|, r, 1), k - 1);
  }

  /** The first chunk was used up. */
  lemma Emptied(a: seq<Chunk>, b: seq<Chunk>, r: nat, k: nat, taken: seq<byte>, given: seq<byte>)
    requires r < |a| == |b| && 0 < k <= |a| && AllOk(a) && AllOk(b) && Interval(a, r, k) && taken + Held(a, r, k) == given
    requires forall i :: 0 <= i < |a| && i != r ==> a[i] == b[i]
    requires b[r].h == 0 && !b[r].filled
    ensures var r' := Pos(|a|, r, 1);
            && Interval(b, r', k - 1) && Pos(|a|, r', k - 1) == Pos(|a|, r, k)
            && (taken + Bytes(a[r])) + Held(b, r', k - 1) == given
  {
    var n := |a|;
    var r' := Pos(n, r, 1);
    CyclicFirst(a, r, k);
    RestSame(a, b, r, k);
    var last := Bytes(b[Pos(n, r', k - 1)]);
    Assoc(Bytes(a[r]), Cyclic(b, r', k - 1), last);
    Assoc(taken, Bytes(a[r]), Held(b, r', k - 1));
    EmptiedInterval(a, b, r, k);
    if k == n {
      assert last == [] && Held(a, r, k) == Cyclic(a, r, k);
    }
  }

  lemma EmptiedInterval(a: seq<Chunk>, b: seq<Chunk>, r: nat, k: nat)
    requires r < |a| == |b| && 0 < k <= |a| && Interval(a, r, k)
    requires forall i :: 0 <= i < |a| && i != r ==> a[i] == b[i]
    requires b[r].h == 0 && !b[r].filled
    ensures Interval(b, Pos(|a|, r, 1), k - 1)
  {
    var r' := Pos(|a|, r, 1);
    forall i | 0 <= i < |a| ensures Dist(|a|, r', i) == if i == r then |a| - 1 else Dist(|a|, r, i) - 1 {
    }
  }

  lemma Filling(a: seq<Chunk>, b: seq<Chunk>, r: nat, w: nat, w': nat, k: nat, k': nat,
      taken: seq<byte>, given: seq<byte>, given': seq<byte>, n: nat, filled: bool)
    requires RingOk(a, r, w, k, taken, given) && !a[w].filled && n <= CHUNK_SIZE - a[w].h
    requires filled <==> Fills(a[w], n)
    requires b == a[w := Chunk(a[w].data, a[w].l, a[w].h + n, filled)] && given' == given + Region(a[w].data, a[w].h, a[w].h + n)
    requires if filled then w' == Next(|a|, w) && k' == k + 1 else w' == w && k' == k
    ensures RingOk(b, r, w', k', taken, given')
  {
    var c := a[w];
    var more := Region(c.data, c.h, c.h + n);
    assert Dist(|a|, r, w) == k && ChunkOk(c);
    MoreBytes(c, n, filled);
    AllOkWith(a, w, b[w]);
    FilledInto(a, b, r, w', k, k', more, taken, given, given', filled);
  }

  lemma FilledInto(a: seq<Chunk>, b: seq<Chunk>, r: nat, w': nat, k: nat, k': nat, more: seq<byte>,
      taken: seq<byte>, given: seq<byte>, given': seq<byte>, filled: bool)
    requires r < |a| == |b| && k < |a| && AllOk(a) && AllOk(b) && Interval(a, r, k) && taken + Held(a, r, k) == given && given' == given + more
    requires forall i :: 0 <= i < |a| && Dist(|a|, r, i) != k ==> a[i] == b[i]
    requires var w := Pos(|a|, r, k); Bytes(b[w]) == Bytes(a[w]) + more && b[w].filled == filled
    requires var w := Pos(|a|, r, k); if filled then w' == Next(|a|, w) && k' == k + 1 else w' == w && k' == k
    ensures RingOk(b, r, w', k', taken, given')
  {
    hide Cyclic, Held, Interval, AllOk, ChunkOk, Dist;
    if filled {
      FilledUp(a, b, r, k, more, taken, given);
    } else {
      Stays(a, b, r, k);
      Grown(a, b, r, k, more, taken, given);
    }
  }

  lemma FilledUp(a: seq<Chunk>, b: seq<Chunk>, r: nat, k: nat, more: seq<byte>, taken: seq<byte>, given: seq<byte>)
    requires r < |a| == |b| && k < |a| && AllOk(a) && AllOk(b) && Interval(a, r, k) && taken + Held(a, r, k) == given
    requires forall i :: 0 <= i < |a| && Dist(|a|, r, i) != k ==> a[i] == b[i]
    requires var w := Pos(|a|, r, k); Bytes(b[w]) == Bytes(a[w]) + more && b[w].filled
    ensures RingOk(b, r, Next(|a|, Pos(|a|, r, k)), k + 1, taken, given + more)
  {
    Grown(a, b, r, k, more, taken, given);
    Advance(a, b, r, k);
  }

  lemma AllOkWith(a: seq<Chunk>, i: nat, c: Chunk)
    requires AllOk(a) && i < |a| && ChunkOk(c)
    ensures AllOk(a[i := c])
  {
  }

  lemma MoreBytes(c: Chunk, n: nat, filled: bool)
    requires ChunkOk(c) && !c.filled && n <= CHUNK_SIZE - c.h && (filled <==> Fills(c, n))
    ensures var d := Chunk(c.data, c.l, c.h + n, filled); ChunkOk(d) && Bytes(d) == Bytes(c) + Region(c.data, c.h, c.h + n)
  {
    RegionSplit(c.data, c.l, c.h, c.h + n);
  }

  lemma ConsumingAll(a: seq<Chunk>, b: seq<Chunk>, r: nat, r': nat, w: nat, k: nat, k': nat,
      taken: seq<byte>, taken': seq<byte>, given: seq<byte>)
    requires RingOk(a, r, w, k, taken, given) && a[r].filled
    requires b == a[r := Chunk(a[r].data, 0, 0, false)] && r' == Next(|a|, r) && k == k' + 1
    requires taken' == taken + Region(a[r].data, a[r].l, a[r].h)
    ensures RingOk(b, r', w, k', taken', given)
  {
    assert ChunkOk(a[r]) && taken' == taken + Bytes(a[r]);
    AllOkWith(a, r, b[r]);
    Emptied(a, b, r, k, taken, given);
  }

  lemma ConsumingSome(a: seq<Chunk>, b: seq<Chunk>, r: nat, w: nat, k: nat,
      taken: seq<byte>, taken': seq<byte>, given: seq<byte>, n: nat)
    requires RingOk(a, r, w, k, taken, given) && a[r].filled && a[r].l + n < a[r].h
    requires b == a[r := Chunk(a[r].data, a[r].l + n, a[r].h, true)]
    requires taken' == taken + Region(a[r].data, a[r].l, a[r].l + n)
    ensures RingOk(b, r, w, k, taken', given)
  {
    var c := a[r];
    var piece := Region(c.data, c.l, c.l + n);
    RegionSplit(c.data, c.l, c.l + n, c.h);
    assert ChunkOk(c) && ChunkOk(b[r]);
    Shrunk(a, b, r, k, piece, taken, given);
  }

  /** The filled region is not empty, and there is one exactly if the count says so. */
  lemma FilledCount(s: RingState)
    requires Ok(s)
    ensures s.chunks[s.ridx].filled <==> s.count > 0
    ensures s.chunks[s.widx].filled <==> s.count == |s.chunks|
    ensures ChunkOk(s.chunks[s.ridx]) && ChunkOk(s.chunks[s.widx])
  {
    assert Dist(|s.chunks|, s.ridx, s.ridx) == 0;
  }

  lemma Same(s: RingState, chunks: seq<Chunk>, r: nat, w: nat, k: nat, taken: seq<byte>, given: seq<byte>)
    requires Ok(s) && s.chunks == chunks && s.ridx == r && s.widx == w && s.count == k && s.taken == taken && s.given == given
    ensures RingState(chunks, r, w, k, taken, given) == s && Ok(RingState(chunks, r, w, k, taken, given))
  {
  }

  lemma WrittenRegion(c: Chunk, bytes: seq<byte>, d: Chunk)
    requires c.h + |bytes| <= |c.data| && d.data == c.data[..c.h] + bytes + c.data[c.h + |bytes|..]
    ensures |d.data| == |c.data| && Region(d.data, c.h, c.h + |bytes|) == bytes
  {
  }

  lemma WrittenOk(s: RingState, bytes: seq<byte>)
    requires Ok(s) && !s.chunks[s.widx].filled && |bytes| <= CHUNK_SIZE - s.chunks[s.widx].h
    ensures Ok(Written(s, bytes))
  {
    var c, t := s.chunks[s.widx], Written(s, bytes);
    FilledCount(s);
    assert Dist(|s.chunks|, s.ridx, s.widx) == s.count;
    assert Bytes(t.chunks[s.widx]) == Bytes(c);
    Rewritten(s.chunks, t.chunks, s.ridx, s.count);
  }

  lemma FilledOk(s: RingState, n: nat)
    requires Ok(s) && !s.chunks[s.widx].filled && n <= CHUNK_SIZE - s.chunks[s.widx].h
    ensures Ok(Filled(s, n))
  {
    var t := Filled(s, n);
    Filling(s.chunks, t.chunks, s.ridx, s.widx, t.widx, s.count, t.count, s.taken, s.given, t.given, n, Fills(s.chunks[s.widx], n));
  }

  /** Nothing is held back in the chunk being written: it is empty, or has been passed on. */
  predicate PassedOn(c: Chunk) {
    c.filled || c.h == 0
  }

  /** buffer_fill leaves the chunk at the read position alone if it is filled; without bytes it passes on
      what is there. */
  lemma FillStays(s: RingState, n: nat)
    requires Ok(s) && !s.chunks[s.widx].filled && n <= CHUNK_SIZE - s.chunks[s.widx].h
    ensures ChunkOk(s.chunks[s.widx]) && |s.chunks| > s.ridx
    ensures var t := Filled(s, n);
      && t.widx < |t.chunks| && t.ridx == s.ridx && t.taken == s.taken && (n == 0 ==> PassedOn(t.chunks[t.widx]))
      && t.given == s.given + Region(s.chunks[s.widx].data, s.chunks[s.widx].h, s.chunks[s.widx].h + n)
      && (s.chunks[s.ridx].filled ==> t.chunks[s.ridx] == s.chunks[s.ridx])
  {
    hide Cyclic, Held;
    FilledCount(s);
    FilledOk(s, n);
    var t := Filled(s, n);
    if n == 0 && Fills(s.chunks[s.widx], 0) {
      if s.count + 1 < |s.chunks| {
        assert Dist(|s.chunks|, s.ridx, t.widx) == s.count + 1;
      } else {
        FilledCount(t);
      }
    }
  }

  /** Where everything is passed on and no chunk is filled, all bytes have been consumed. */
  lemma NothingLeft(s: RingState)
    requires Ok(s) && s.count == 0 && PassedOn(s.chunks[s.widx])
    ensures s.taken == s.given
  {
    FilledCount(s);
    assert Held(s.chunks, s.ridx, 0) == [];
  }

  lemma ConsumedOk(s: RingState, n: nat)
    requires Ok(s) && s.chunks[s.ridx].filled && n <= s.chunks[s.ridx].h - s.chunks[s.ridx].l
    ensures s.count > 0 && Ok(Consumed(s, n))
  {
    FilledCount(s);
    var c, t := s.chunks[s.ridx], Consumed(s, n);
    if c.l + n == c.h {
      ConsumingAll(s.chunks, t.chunks, s.ridx, t.ridx, s.widx, s.count, t.count, s.taken, t.taken, s.given);
    } else {
      ConsumingSome(s.chunks, t.chunks, s.ridx, s.widx, s.count, s.taken, t.taken, s.given, n);
    }
  }

  lemma ResetOk(s: RingState)
    requires Ok(s)
    ensures Ok(ResetOf(s))
  {
    var t := ResetOf(s);
    forall i | 0 <= i < |t.chunks| ensures ChunkOk(t.chunks[i]) {
      assert ChunkOk(s.chunks[i]);
    }
  }

  /** What is offered comes next in the stream. */
  lemma OfferedNext(s: RingState)
    requires Ok(s)
    ensures ChunkOk(s.chunks[s.ridx]) && s.taken + Offered(s) <= s.given
  {
    FilledCount(s);
    if s.count > 0 {
      Prefix(s.taken, Bytes(s.chunks[s.ridx]), s.chunks, s.ridx, s.count);
    }
  }
}
