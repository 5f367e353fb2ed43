/** Software volume of app/player.c: the sample scalers, and the bookkeeping by which the consumer
    scales every sample once although the device takes only part of what it is offered. */
module Scaler {
  /** SOFT_VOL_SCALE. */
  const UNIT := 65536

  /** A sample width: 16 bits computed in 32, or 24 and 32 bits computed in 64. */
  datatype Width = S16 | S24 | S32

  function Top(w: Width): (r: int)
    ensures r > 0
  {
    match w
    case S16 => 0x8000
    case S24 => 0x80_0000
    case S32 => 0x8000_0000
  }

  predicate IsSample(s: int, w: Width) {
    -Top(w) <= s < Top(w)
  }

  /** C division. */
  function Trunc(a: int, b: int): int
    requires b > 0
  {
    if a >= 0 then a / b else -((-a) / b)
  }

  /** The products that the scaler computes. */
  function Product(s: int, vol: int): int {
    if s < 0 then s * vol - UNIT / 2 else s * vol + UNIT / 2
  }

  /** scale_sample_*. */
  function Scaled(s: int, vol: int, w: Width): int {
    var v := Trunc(Product(s, vol), UNIT);
    if s < 0 then if v < -Top(w) then -Top(w) else v
    else if v > Top(w) - 1 then Top(w) - 1 else v
  }

  /** `x` is the product in units, rounded to the nearest one, a half away from zero. */
  predicate Nearest(s: int, vol: int, x: int) {
    if s < 0 then -(UNIT / 2) <= UNIT * x - s * vol < UNIT / 2 else -(UNIT / 2) < UNIT * x - s * vol <= UNIT / 2
  }

  /** Whatever the factor, the result is the nearest unit, or the end of the range of samples where
      that is outside. */
  lemma Clamps(s: int, vol: nat, w: Width, x: int)
    requires IsSample(s, w) && Nearest(s, vol, x)
    ensures Scaled(s, vol, w) == if x < -Top(w) then -Top(w) else if x >= Top(w) then Top(w) - 1 else x
  {
    if s < 0 {
      Times(s, 0, vol);
    } else {
      Times(0, s, vol);
    }
    assert x == Trunc(Product(s, vol), UNIT);
  }

  /** The product is rounded to the nearest multiple of the unit, a half away from zero, and the
      clamps are not needed. */
  lemma Rounds(s: int, vol: int, w: Width)
    requires IsSample(s, w) && 0 <= vol <= UNIT
    ensures var r := Scaled(s, vol, w);
            && IsSample(r, w)
            && (s >= 0 ==> 0 <= r <= s && -(UNIT / 2) < UNIT * r - s * vol <= UNIT / 2)
            && (s < 0 ==> s <= r <= 0 && -(UNIT / 2) <= UNIT * r - s * vol < UNIT / 2)
  {
    Shrinks(if s < 0 then -s else s, vol);
    if s < 0 {
      assert -(s * vol - UNIT / 2) == (-s) * vol + UNIT / 2;
    }
  }

  lemma StaysSample(s: int, vol: int, w: Width)
    requires IsSample(s, w) && 0 <= vol <= UNIT
    ensures IsSample(Scaled(s, vol, w), w)
  {
    Rounds(s, vol, w);
  }

  lemma Shrinks(s: nat, vol: nat)
    requires vol <= UNIT
    ensures 0 <= s * vol <= s * UNIT && (s * vol + UNIT / 2) / UNIT <= s
  {
    assert s * UNIT - s * vol == s * (UNIT - vol);
  }

  lemma Times(a: int, b: int, c: nat)
    requires a <= b
    ensures a * c <= b * c
  {
  }

  lemma Monotone(s: int, t: int, vol: nat, w: Width)
    requires IsSample(s, w) && IsSample(t, w) && s <= t && vol <= UNIT
    ensures Scaled(s, vol, w) <= Scaled(t, vol, w)
  {
    Rounds(s, vol, w);
    Rounds(t, vol, w);
    Times(s, t, vol);
    Ordered(s * vol, t * vol, Scaled(s, vol, w), Scaled(t, vol, w), s < 0, t < 0);
  }

  /** Rounding keeps the order of the products. */
  lemma Ordered(p: int, q: int, x: int, y: int, below: bool, below': bool)
    requires p <= q && (below' ==> below)
    requires if below then x <= 0 && -(UNIT / 2) <= UNIT * x - p < UNIT / 2 else 0 <= x && -(UNIT / 2) < UNIT * x - p <= UNIT / 2
    requires if below' then y <= 0 && -(UNIT / 2) <= UNIT * y - q < UNIT / 2 else 0 <= y && -(UNIT / 2) < UNIT * y - q <= UNIT / 2
    ensures x <= y
  {
  }

  lemma MonotoneVolume(s: int, u: nat, v: nat, w: Width)
    requires IsSample(s, w) && u <= v <= UNIT
    ensures s >= 0 ==> Scaled(s, u, w) <= Scaled(s, v, w)
    ensures s < 0 ==> Scaled(s, u, w) >= Scaled(s, v, w)
  {
    Rounds(s, u, w);
    Rounds(s, v, w);
    if s >= 0 {
      Times(u, v, s);
      Ordered(s * u, s * v, Scaled(s, u, w), Scaled(s, v, w), false, false);
    } else {
      Times(u, v, -s);
      assert u * -s == -(s * u) && v * -s == -(s * v);
      Ordered(s * v, s * u, Scaled(s, v, w), Scaled(s, u, w), true, true);
    }
  }

  /** At full volume the formula is the identity. */
  lemma FullVolume(s: int, w: Width)
    requires IsSample(s, w)
    ensures Scaled(s, UNIT, w) == s
  {
  }

  predicate FitsIn32(v: int) {
    -0x8000_0000 <= v < 0x8000_0000
  }

  /** The 16-bit scaler stays within 32 bits exactly for factors below the unit; this is why the
      loops leave a channel at full volume alone. */
  lemma NoOverflow(vol: nat)
    ensures (forall s :: IsSample(s, S16) ==> FitsIn32(Product(s, vol))) <==> vol < UNIT
  {
    if vol < UNIT {
      forall s | IsSample(s, S16) ensures FitsIn32(Product(s, vol)) {
        Times(-0x8000, s, vol);
        Times(s, 0x7fff, vol);
        if s < 0 {
          Times(s, 0, vol);
        } else {
          Times(0, s, vol);
        }
      }
    } else {
      assert IsSample(-0x8000, S16) && !FitsIn32(Product(-0x8000, vol));
    }
  }

  /** The 24- and 32-bit scalers stay within 64 bits. */
  lemma NoOverflow64(s: int, vol: nat, w: Width)
    requires IsSample(s, w) && vol <= 0x7fff_ffff
    ensures -0x8000_0000_0000_0000 <= Product(s, vol) < 0x8000_0000_0000_0000
  {
    Times(-0x8000_0000, s, vol);
    Times(s, 0x8000_0000, vol);
    if s < 0 {
      Times(s, 0, vol);
    } else {
      Times(0, s, vol);
    }
  }

  /* The in-place loops. */

  datatype Volume = Volume(l: int, r: int)

  predicate VolumeOk(v: Volume) {
    0 <= v.l <= UNIT && 0 <= v.r <= UNIT
  }

  /** Sample `i` of a two-channel stream. */
  function Scale(s: int, i: int, v: Volume, w: Width): int {
    Scaled(s, if i % 2 == 0 then v.l else v.r, w)
  }

  predicate AllSamples(s: seq<int>, w: Width) {
    forall i :: 0 <= i < |s| ==> IsSample(s[i], w)
  }

  /** SCALE_SAMPLES and scale_samples_s24le on the samples lo..hi. */
  method ScaleInPlace(buf: array<int>, lo: nat, hi: nat, v: Volume, w: Width)
    requires lo <= hi <= buf.Length && lo % 2 == 0 && hi % 2 == 0 && VolumeOk(v) && AllSamples(buf[..], w)
    modifies buf
    ensures AllSamples(buf[..], w)
    ensures forall i :: lo <= i < hi ==> buf[i] == Scale(old(buf[i]), i, v, w)
    ensures forall i :: 0 <= i < buf.Length && !(lo <= i < hi) ==> buf[i] == old(buf[i])
  {
    var i := lo;
    while i < hi
      invariant lo <= i <= hi && i % 2 == 0 && AllSamples(buf[..], w)
      invariant forall k :: 0 <= k < buf.Length ==> buf[k] == if lo <= k < i then Scale(old(buf[k]), k, v, w) else old(buf[k])
    {
      ScaleFrame(buf, i, v, w);
      i := i + 2;
    }
  }

  /** One frame; a channel at full volume is left alone. */
  method ScaleFrame(buf: array<int>, i: nat, v: Volume, w: Width)
    requires i + 1 < buf.Length && i % 2 == 0 && VolumeOk(v) && AllSamples(buf[..], w)
    modifies buf
    ensures AllSamples(buf[..], w)
    ensures buf[i] == Scale(old(buf[i]), i, v, w) && buf[i + 1] == Scale(old(buf[i + 1]), i + 1, v, w)
    ensures forall k :: 0 <= k < buf.Length && k != i && k != i + 1 ==> buf[k] == old(buf[k])
  {
    assert forall k :: 0 <= k < buf.Length ==> IsSample(buf[k], w) by {
      assert forall k :: 0 <= k < buf.Length ==> buf[k] == buf[..][k];
    }
    ScaleOne(buf[i], i, v, w);
    ScaleOne(buf[i + 1], i + 1, v, w);
    if v.l != UNIT {
      buf[i] := Scaled(buf[i], v.l, w);
    }
    if v.r != UNIT {
      buf[i + 1] := Scaled(buf[i + 1], v.r, w);
    }
  }

  lemma ScaleOne(s: int, i: int, v: Volume, w: Width)
    requires IsSample(s, w) && VolumeOk(v)
    ensures IsSample(Scale(s, i, v, w), w) && ((if i % 2 == 0 then v.l else v.r) == UNIT ==> Scale(s, i, v, w) == s)
  {
    StaysSample(s, if i % 2 == 0 then v.l else v.r, w);
    FullVolume(s, w);
  }

  /* The consumer. */

  /** What sample `i` becomes when it is scaled with each of `vols` in turn. */
  ghost function Applied(s: int, i: int, vols: seq<Volume>, w: Width): int
    decreases |vols|
  {
    if vols == [] then s else Scale(Applied(s, i, vols[..|vols| - 1], w), i, vols[|vols| - 1], w)
  }

  lemma AppliedOnce(s: int, i: int, vols: seq<Volume>, v: Volume, w: Width)
    ensures Applied(s, i, vols + [v], w) == Scale(Applied(s, i, vols, w), i, v, w)
  {
    assert (vols + [v])[..|vols|] == vols;
  }

  lemma AppliedMark(s: int, i: int, vols: seq<Volume>, w: Width)
    requires |vols| == 1
    ensures Applied(s, i, vols, w) == Scale(s, i, vols[0], w)
  {
    AppliedOnce(s, i, [], vols[0], w);
    assert vols == [] + [vols[0]];
  }

  lemma AppliedTwice(s: int, i: int, v: Volume, w: Width)
    ensures Applied(s, i, [v, v], w) == Scale(Scale(s, i, v, w), i, v, w)
  {
    AppliedOnce(s, i, [v], v, w);
    AppliedMark(s, i, [v], w);
    assert [v] + [v] == [v, v];
  }

  function Max(a: int, b: int): int {
    if a > b then a else b
  }

  /** The marks after the samples lo..hi were scaled once more. */
  ghost function Marked(marks: seq<seq<Volume>>, lo: int, hi: int, v: Volume): seq<seq<Volume>> {
    seq(|marks|, i requires 0 <= i < |marks| => if lo <= i < hi then marks[i] + [v] else marks[i])
  }

  /** The buffered samples in playing order, and the two positions in them. Everything is frame
      aligned, so positions count samples rather than bytes; two samples make a frame. */
  class Consumer {
    const w: Width
    const stream: array<int>
    var rpos: nat
    var given: nat
    var consumerPos: int
    var scalePos: int
    var on: bool
    var volume: Volume
    /** The samples as they were decoded, the volumes applied to each so far, what the device has
        been given, and how far scaling had come when it was last switched off. */
    ghost var source: seq<int>
    ghost var marks: seq<seq<Volume>>
    ghost var written: seq<int>
    ghost var scaledUpTo: int

    /** The sample that the scaling position stands for. */
    ghost function Scaling(): int
      reads this
    {
      rpos + (scalePos - consumerPos)
    }

    /** The memory holds the decoded samples with their volumes applied. */
    ghost predicate Consistent()
      reads this, stream
    {
      && |source| == |marks| == stream.Length && AllSamples(stream[..], w) && VolumeOk(volume)
      && rpos == |written| <= given <= stream.Length
      && rpos % 2 == 0 && given % 2 == 0
      && (forall i :: 0 <= i < stream.Length ==> stream[i] == Applied(source[i], i, marks[i], w))
      && (forall i :: 0 <= i < |written| ==> written[i] == stream[i])
    }

    /** The samples still in the buffer have been scaled once up to `top` and not at all beyond. */
    ghost predicate ScaledTo(top: int)
      reads this
    {
      && (forall i :: rpos <= i < |marks| && i < top ==> |marks[i]| == 1)
      && forall i :: rpos <= i < |marks| && top <= i ==> marks[i] == []
    }

    /** The scaling position can be used: it is not behind the consumer (the BUG_ON of scale_samples). */
    ghost predicate Placed()
      reads this
    {
      rpos <= Scaling() <= given && Scaling() % 2 == 0
    }

    /** While scaling is on, the scaling position tells which samples have been scaled; while it is
        off, it means nothing and the place where it was switched off does. */
    ghost predicate Valid()
      reads this, stream
    {
      Consistent() && if on then Placed() && ScaledTo(Scaling()) else scaledUpTo <= given && ScaledTo(scaledUpTo)
    }

    /** The state after reset_buffer or a seek to `pos`, with the samples decoded from there on. */
    constructor (w: Width, stream: array<int>, pos: int, volume: Volume, on: bool)
      requires AllSamples(stream[..], w) && VolumeOk(volume)
      ensures Valid() && written == [] && this.stream == stream && source == stream[..] && this.on == on && this.w == w
      ensures given == 0 && this.volume == volume && Scaling() == 0 && scaledUpTo == 0 && forall i :: 0 <= i < |marks| ==> marks[i] == []
    {
      this.w, this.stream, this.rpos, this.given, this.volume, this.on := w, stream, 0, 0, volume, on;
      consumerPos, scalePos := pos, pos;
      source, marks, written, scaledUpTo := stream[..], seq(stream.Length, i => []), [], 0;
    }

    /** The producer has filled in more samples. */
    method Fill(n: nat)
      requires Valid() && n % 2 == 0 && given + n <= stream.Length
      modifies this`given
      ensures Valid() && given == old(given) + n
    {
      given := given + n;
    }

    /** player_set_soft_volume. */
    method SetVolume(v: Volume)
      requires Valid() && VolumeOk(v)
      modifies this`volume
      ensures Valid() && volume == v
    {
      volume := v;
    }

    /** player_set_soft_vol and player_set_rg: scaling is switched on or off. Switching it on is safe
        exactly when the consumer has passed the samples scaled before it was switched off. */
    method SetScaling(enable: bool)
      requires Valid()
      modifies this`scalePos, this`on, this`scaledUpTo
      ensures Consistent() && on == enable && (old(on) || !enable ==> Valid())
      ensures old(on) && !enable ==> scaledUpTo == old(Scaling())
      ensures !old(on) ==> Scaling() == rpos && scaledUpTo == old(scaledUpTo)
      ensures !old(on) && enable ==> (Valid() <==> scaledUpTo <= rpos)
    {
      if on && !enable {
        scaledUpTo := Scaling();
      }
      if !on {
        scalePos := consumerPos;
      }
      on := enable;
      assert !old(on) && enable && rpos < scaledUpTo && rpos < |marks| ==> |marks[rpos]| == 1;
    }

    /** scale_samples on the `size` samples at the read position: exactly those beyond the scaling
        position are scaled. */
    method ScaleSamples(size: nat)
      requires Consistent() && on && Placed() && size % 2 == 0 && rpos + size <= given
      modifies this`scalePos, this`marks, stream
      ensures Consistent() && Placed() && Scaling() == Max(old(Scaling()), rpos + size)
      ensures marks == Marked(old(marks), old(Scaling()), rpos + size, volume)
      ensures old(Valid()) ==> Valid()
    {
      assert scalePos >= consumerPos;
      var offs := scalePos - consumerPos;
      ghost var before := marks;
      marks := Marked(marks, rpos + offs, rpos + size, volume);
      if offs >= size {
        assert marks == before;
        return;
      }
      scalePos := scalePos + (size - offs);
      ScaleInPlace(stream, rpos + offs, rpos + size, volume, w);
      forall i | 0 <= i < stream.Length ensures stream[i] == Applied(source[i], i, marks[i], w) {
        AppliedOnce(source[i], i, before[i], volume, w);
      }
    }

    /** One round of the consumer loop: `size` samples are offered and the device takes `rc` of
        them, or none after an error. In a valid state with scaling on, each sample it takes was
        scaled once. */
    method WriteOut(size: nat, rc: nat)
      requires Consistent() && (on ==> Placed()) && size % 2 == 0 && rc % 2 == 0 && rc <= size && rpos + size <= given
      modifies this`rpos, this`consumerPos, this`scalePos, this`marks, this`written, stream
      ensures Consistent() && |written| == old(|written|) + rc && old(written) <= written && (old(Valid()) ==> Valid()) && (on ==> Placed())
      ensures marks == if on then Marked(old(marks), old(Scaling()), old(rpos) + size, volume) else old(marks)
      ensures forall i :: old(|written|) <= i < |written| ==> written[i] == Applied(source[i], i, marks[i], w)
      ensures on && old(Valid()) ==> forall i :: old(|written|) <= i < |written| ==>
                |marks[i]| == 1 && written[i] == Scale(source[i], i, marks[i][0], w)
      ensures !on ==> stream[..] == old(stream[..])
      ensures Scaling() == if on then Max(old(Scaling()), old(rpos) + size) else old(Scaling())
    {
      if on {
        ScaleSamples(size);
      }
      forall i | rpos <= i < rpos + rc && |marks[i]| == 1 ensures stream[i] == Scale(source[i], i, marks[i][0], w) {
        AppliedMark(source[i], i, marks[i], w);
      }
      HandOver(rc);
    }

    /** The device takes the next `rc` samples as they are in memory. */
    method HandOver(rc: nat)
      requires Consistent() && rc % 2 == 0 && rpos + rc <= given
      modifies this`rpos, this`consumerPos, this`written
      ensures Consistent() && rpos == old(rpos) + rc && Scaling() == old(Scaling()) && |written| == old(|written|) + rc && old(written) <= written
      ensures forall i :: old(rpos) <= i < rpos ==> written[i] == stream[i]
    {
      written := written + stream[rpos..rpos + rc];
      rpos := rpos + rc;
      consumerPos := consumerPos + rc;
    }
  }

  /** What the device got was scaled once, each sample with some volume. */
  ghost predicate Once(written: seq<int>, source: seq<int>, marks: seq<seq<Volume>>, w: Width) {
    && |written| <= |marks| == |source|
    && forall i :: 0 <= i < |written| ==> |marks[i]| == 1 && written[i] == Scale(source[i], i, marks[i][0], w)
  }

  lemma OnceMore(written: seq<int>, marks: seq<seq<Volume>>, written': seq<int>, marks': seq<seq<Volume>>, source: seq<int>, w: Width, lo: int, hi: int, v: Volume)
    requires Once(written, source, marks, w) && written <= written' && |written'| <= |marks| && |written| <= lo && marks' == Marked(marks, lo, hi, v)
    requires forall i :: |written| <= i < |written'| ==> |marks'[i]| == 1 && written'[i] == Scale(source[i], i, marks'[i][0], w)
    ensures Once(written', source, marks', w)
  {
  }

  /** Every run with scaling on: chunks arrive, the volume changes and the device takes what it
      likes, in any order; all it gets was scaled exactly once. */
  method PlayScaled(c: Consumer, steps: nat)
    requires c.Valid() && c.on && c.written == []
    modifies c, c.stream
    ensures c.Valid() && c.on && Once(c.written, c.source, c.marks, c.w)
  {
    for k := 0 to steps
      invariant c.Valid() && c.on && Once(c.written, c.source, c.marks, c.w)
    {
      var step: int, n: nat, rc: nat, v: Volume := *, *, *, *;
      if step == 0 {
        if n % 2 == 0 && c.given + n <= c.stream.Length {
          c.Fill(n);
        }
      } else if step == 1 {
        if VolumeOk(v) {
          c.SetVolume(v);
        }
      } else if n % 2 == 0 && rc % 2 == 0 && rc <= n && c.rpos + n <= c.given {
        ghost var written, marks, lo := c.written, c.marks, c.Scaling();
        ghost var hi := c.rpos + n;
        c.WriteOut(n, rc);
        OnceMore(written, marks, c.written, c.marks, c.source, c.w, lo, hi, c.volume);
      }
    }
  }

  /** The device takes one frame of two, scaling is switched off and on again, and the second frame
      reaches the device scaled twice. */
  method ScaledTwice(stream: array<int>, v: Volume, w: Width) returns (c: Consumer)
    requires stream.Length == 4 && AllSamples(stream[..], w) && VolumeOk(v)
    modifies stream
    ensures fresh(c) && c.stream == stream && |c.written| == 4 && |c.marks| == |c.source| == 4 && c.marks[2] == [v, v]
    ensures c.written[2] == Scale(Scale(old(stream[2]), 2, v, w), 2, v, w)
  {
    c := new Consumer(w, stream, 0, v, true);
    c.Fill(4);
    c.WriteOut(4, 2);
    c.SetScaling(false);
    c.SetScaling(true);
    c.WriteOut(2, 2);
    AppliedTwice(c.source[2], 2, v, w);
    assert [v] + [v] == [v, v] && [] + [v] == [v];
  }
}
