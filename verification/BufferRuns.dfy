/** Producer and consumer on the chunk ring (app/buffer.c), as a transition system. A step is one
    call, which holds buffer_mutex, or the producer's write into the region it was given, which
    holds nothing. Each thread may keep a region in hand between its calls while the other one
    goes on. */
module BufferRuns {
  import opened Common
  import opened Buffer

  /** The producer between buffer_get_wpos and buffer_fill: with a region of some size, and then
      with bytes written into it. */
  datatype Writer = Away | Given(size: int) | Wrote(bytes: seq<byte>)

  /** The consumer between buffer_get_rpos and buffer_consume. */
  datatype Reader = Resting | Holding(bytes: seq<byte>)

  datatype State = State(ring: RingState, writer: Writer, reader: Reader)

  /** GiveBack and Drop: a thread goes on without the second call (the decoder has nothing yet, or
      the device reported an error). Reset happens under both player locks. */
  datatype Action = GetWpos | Write(bytes: seq<byte>) | Fill | GiveBack | GetRpos | Consume(n: nat) | Drop | Reset

  /** The BUG_ON checks of buffer_fill and buffer_consume, and accesses outside the chunk. */
  ghost predicate Allowed(s: RingState, a: Action, w: Writer) {
    && s.ridx < |s.chunks| && s.widx < |s.chunks|
    && (a.Write? ==> s.chunks[s.widx].h + |a.bytes| <= |s.chunks[s.widx].data|)
    && (a.Fill? && w.Wrote? ==> !s.chunks[s.widx].filled && s.chunks[s.widx].h + |w.bytes| <= |s.chunks[s.widx].data|)
    && (a.GetRpos? ==> s.chunks[s.ridx].l <= s.chunks[s.ridx].h <= |s.chunks[s.ridx].data|)
    && (a.Consume? ==> s.chunks[s.ridx].filled && s.chunks[s.ridx].l + a.n <= s.chunks[s.ridx].h <= |s.chunks[s.ridx].data| && s.count > 0)
  }

  datatype Result = Next(state: State) | Blocked | Bug

  /** One step. */
  ghost function Do(s: State, a: Action): Result {
    var r := s.ring;
    if !Enabled(s, a) then Blocked
    else if !Allowed(r, a, s.writer) then Bug
    else Next(
      match a
      case GetWpos => if Space(r) == 0 then s else s.(writer := Given(Space(r)))
      case Write(bytes) => s.(ring := Written(r, bytes), writer := Wrote(bytes))
      case Fill => s.(ring := Filled(r, |s.writer.bytes|), writer := Away)
      case GiveBack => s.(writer := Away)
      case GetRpos => if Offered(r) == [] then s else s.(reader := Holding(Offered(r)))
      case Consume(n) => s.(ring := Consumed(r, n), reader := Resting)
      case Drop => s.(reader := Resting)
      case Reset => s.(ring := ResetOf(r)))
  }

  /** What each thread does next, as its own locals say. */
  predicate Enabled(s: State, a: Action) {
    match a
    case GetWpos => s.writer.Away?
    case Write(bytes) => s.writer.Given? && |bytes| <= s.writer.size
    case Fill => s.writer.Wrote?
    case GiveBack => s.writer.Given?
    case GetRpos => s.reader.Resting?
    case Consume(n) => s.reader.Holding? && n <= |s.reader.bytes|
    case Drop => s.reader.Holding?
    case Reset => s.writer.Away? && s.reader.Resting?
  }

  ghost predicate Step(s: State, t: State) {
    exists a :: Do(s, a) == Next(t)
  }

  ghost predicate Init(s: State) {
    Ok(s.ring) && s.ring.given == [] && s.writer.Away? && s.reader.Resting?
  }

  ghost predicate Run(run: seq<State>) {
    && run != [] && Init(run[0])
    && forall i :: 0 < i < |run| ==> StepAt(run, i)
  }

  ghost predicate StepAt(run: seq<State>, i: int)
    requires 0 < i < |run|
  {
    Step(run[i - 1], run[i])
  }

  /** There is a run for any number of chunks, and it goes on with each call that can be made. */
  lemma Beginning(n: nat) returns (run: seq<State>)
    requires n > 0
    ensures Run(run) && |run| == 1 && |run[0].ring.chunks| == n
  {
    var empty := Chunk(seq(CHUNK_SIZE, i => 0), 0, 0, false);
    run := [State(RingState(seq(n, i => empty), 0, 0, 0, [], []), Away, Resting)];
  }

  lemma RunGoesOn(run: seq<State>, a: Action, next: State)
    requires Run(run) && Do(run[|run| - 1], a) == Next(next)
    ensures Run(run + [next])
  {
    hide Do, Init;
    var more := run + [next];
    forall i | 0 < i < |more| ensures StepAt(more, i) {
      if i < |run| {
        assert StepAt(run, i);
      } else {
        assert more[i - 1] == run[|run| - 1] && more[i] == next;
      }
    }
  }

  /* The invariant. */

  /** The region given to the producer is still free, and what it wrote there is still there. */
  ghost predicate WriterOk(r: RingState, w: Writer)
    requires r.widx < |r.chunks|
  {
    var c := r.chunks[r.widx];
    match w
    case Away => true
    case Given(size) => !c.filled && size == CHUNK_SIZE - c.h
    case Wrote(bytes) => !c.filled && |bytes| <= CHUNK_SIZE - c.h && |c.data| == CHUNK_SIZE && Region(c.data, c.h, c.h + |bytes|) == bytes
  }

  /** The region given to the consumer still holds the bytes it was given. */
  ghost predicate ReaderOk(s: State)
    requires Ok(s.ring)
  {
    var c := s.ring.chunks[s.ring.ridx];
    s.reader.Holding? ==> c.filled && ChunkOk(c) && s.reader.bytes == Region(c.data, c.l, c.h)
  }

  ghost predicate Inv(s: State) {
    Ok(s.ring) && WriterOk(s.ring, s.writer) && ReaderOk(s)
  }

  /** Where one thread has a chunk in hand, the other has not. */
  lemma RegionsApart(s: State)
    requires Inv(s) && !s.writer.Away? && s.reader.Holding?
    ensures s.ring.ridx != s.ring.widx
  {
  }

  lemma NoBug(s: State, a: Action)
    requires Inv(s) && Enabled(s, a)
    ensures Allowed(s.ring, a, s.writer)
  {
    FilledCount(s.ring);
  }

  lemma WriteStep(s: State, bytes: seq<byte>, t: State)
    requires Inv(s) && Do(s, Write(bytes)) == Next(t)
    ensures Inv(t)
  {
    FilledCount(s.ring);
    WrittenOk(s.ring, bytes);
    var c, d := s.ring.chunks[s.ring.widx], t.ring.chunks[t.ring.widx];
    assert Region(d.data, d.h, d.h + |bytes|) == bytes;
  }

  /** buffer_fill appends what the producer wrote, and leaves the consumer's region alone. */
  lemma FillStep(s: State, t: State)
    requires Inv(s) && Do(s, Fill) == Next(t)
    ensures Inv(t) && t.ring.given == s.ring.given + s.writer.bytes && t.ring.taken == s.ring.taken
  {
    FilledCount(s.ring);
    FilledOk(s.ring, |s.writer.bytes|);
    if s.reader.Holding? {
      RegionsApart(s);
    }
  }

  /** Consuming leaves the producer's region alone. */
  lemma WriterStays(r: RingState, w: Writer, n: nat)
    requires Ok(r) && WriterOk(r, w) && r.chunks[r.ridx].filled && n <= r.chunks[r.ridx].h - r.chunks[r.ridx].l
    ensures r.count > 0 && ChunkOk(r.chunks[r.ridx]) && Consumed(r, n).widx == r.widx && WriterOk(Consumed(r, n), w)
    ensures PassedOn(r.chunks[r.widx]) ==> PassedOn(Consumed(r, n).chunks[r.widx])
  {
    FilledCount(r);
  }

  /** buffer_consume takes the bytes the consumer was given, and leaves the producer's region alone. */
  lemma ConsumeStep(s: State, n: nat, t: State)
    requires Inv(s) && Do(s, Consume(n)) == Next(t)
    ensures Inv(t) && t.ring.taken == s.ring.taken + s.reader.bytes[..n] && t.ring.given == s.ring.given
  {
    FilledCount(s.ring);
    ConsumedOk(s.ring, n);
    var c := s.ring.chunks[s.ring.ridx];
    RegionSplit(c.data, c.l, c.l + n, c.h);
    if !s.writer.Away? {
      RegionsApart(s);
    }
  }

  lemma OtherStep(s: State, a: Action, t: State)
    requires Inv(s) && Do(s, a) == Next(t) && !a.Write? && !a.Fill? && !a.Consume?
    ensures Inv(t)
  {
    FilledCount(s.ring);
    if a.Reset? {
      ResetOk(s.ring);
    }
  }

  lemma StepKeepsInv(s: State, a: Action, t: State)
    requires Inv(s) && Do(s, a) == Next(t)
    ensures Inv(t)
  {
    match a
    case Write(bytes) => WriteStep(s, bytes, t);
    case Fill => FillStep(s, t);
    case Consume(n) => ConsumeStep(s, n, t);
    case _ => OtherStep(s, a, t);
  }

  lemma InitInv(s: State)
    requires Init(s)
    ensures Inv(s)
  {
  }

  /* What holds in every run. */

  lemma {:induction false} RunInv(run: seq<State>, i: nat)
    requires Run(run) && i < |run|
    ensures Inv(run[i])
    decreases i, 0
  {
    if i == 0 {
      InitInv(run[0]);
    } else {
      RunInvNext(run, i);
    }
  }

  lemma {:induction false} RunInvNext(run: seq<State>, i: nat)
    requires Run(run) && 0 < i < |run|
    ensures Inv(run[i])
    decreases i - 1, 1
  {
    RunInv(run, i - 1);
    assert StepAt(run, i);
    NextKeepsInv(run[i - 1], run[i]);
  }

  lemma NextKeepsInv(s: State, t: State)
    requires Inv(s) && Step(s, t)
    ensures Inv(t)
  {
    var a :| Do(s, a) == Next(t);
    StepKeepsInv(s, a, t);
  }

  /** For any interleaving of the calls: no check fires, the bytes consumed since the last reset are
      a prefix of the bytes filled, the bytes the consumer has in hand are those that come next,
      the producer's region is free and at least 1024 bytes long when it is handed out, and the
      threads never have the same chunk in hand. */
  lemma AnyInterleaving(run: seq<State>, i: nat)
    requires Run(run) && i < |run|
    ensures var s := run[i];
      && (forall a :: Do(s, a) != Bug)
      && s.ring.taken <= s.ring.given
      && (s.reader.Holding? ==> s.ring.taken + s.reader.bytes <= s.ring.given)
      && (s.writer.Given? ==> s.writer.size >= 1024)
      && (!s.writer.Away? && s.reader.Holding? ==> s.ring.ridx != s.ring.widx)
  {
    RunInv(run, i);
    var s := run[i];
    forall a ensures Do(s, a) != Bug {
      if Enabled(s, a) {
        NoBug(s, a);
      }
    }
    FilledCount(s.ring);
    OfferedNext(s.ring);
    if !s.writer.Away? && s.reader.Holding? {
      RegionsApart(s);
    }
  }

  /** In every state each thread can make its next call, the decoder may fill any part of the region it
      was given and the device may take any part of the bytes it was offered. */
  lemma AnyAnswer(run: seq<State>, i: nat, bytes: seq<byte>, n: nat)
    requires Run(run) && i < |run|
    ensures var s := run[i];
      && (s.writer.Away? ==> Do(s, GetWpos).Next?)
      && (s.writer.Given? && |bytes| <= s.writer.size ==> Do(s, Write(bytes)).Next? && Do(s, GiveBack).Next?)
      && (s.writer.Wrote? ==> Do(s, Fill).Next?)
      && (s.reader.Resting? ==> Do(s, GetRpos).Next?)
      && (s.reader.Holding? && n <= |s.reader.bytes| ==> Do(s, Consume(n)).Next? && Do(s, Drop).Next?)
      && (s.writer.Away? && s.reader.Resting? ==> Do(s, Reset).Next?)
  {
    hide Run, Allowed;
    AnyInterleaving(run, i);
    var s := run[i];
    assert Do(s, GetWpos) != Bug && Do(s, Write(bytes)) != Bug && Do(s, GiveBack) != Bug && Do(s, Fill) != Bug;
    assert Do(s, GetRpos) != Bug && Do(s, Consume(n)) != Bug && Do(s, Drop) != Bug && Do(s, Reset) != Bug;
  }
}
