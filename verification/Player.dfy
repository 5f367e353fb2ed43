/** The player of app/player.c: the commands, which hold both locks, and the critical sections of the
    producer and consumer threads. Files, decoders and the device answer as they like. */
module Player {
  import opened Common
  import opened Buffer
  import BufferRuns

  datatype ProducerStatus = Unloaded | Producing | Idle | Held
  datatype ConsumerStatus = Stopped | Playing | Paused

  /** A file as the player sees it: remote or local, and its sample format. */
  datatype File = File(remote: bool, format: int)

  /** The input plugin for a file; `eof` says that a read has come to the end. */
  datatype Input = Input(file: File, open: bool, eof: bool)

  /** One call of ip_read or op_write: what was asked for or offered, and the answer. */
  datatype Read = Read(size: nat, got: Option<seq<byte>>)
  datatype Write = Write(offered: seq<byte>, rc: int)

  /** The number of calls of ip_read and the last one; `late` says that one has delivered bytes behind the
      end of a file. */
  datatype Delivery = Delivery(calls: nat, last: Option<Read>, late: bool)

  /** All calls of op_write and the number of bytes the device has taken. */
  datatype Playback = Playback(calls: seq<Write>, count: nat)

  /** How much an answer of op_write says that the device has taken. */
  function Count(rc: int): nat {
    if rc < 0 then 0 else rc
  }

  /** After one more call of op_write. */
  function OneMore(p: Playback, offered: seq<byte>, rc: int): Playback {
    Playback(p.calls + [Write(offered, rc)], p.count + Count(rc))
  }

  function Least(a: nat, b: nat): nat {
    if a < b then a else b
  }

  /** How often the device was to be opened, and how often it or a file could not be opened or a seek
      failed. */
  datatype Fails = Fails(devices: nat, opens: nat, seeks: nat)

  /** After one more call of ip_open, op_open or ip_seek. */
  function FileAsked(f: Fails, ok: bool): Fails {
    if ok then f else f.(opens := f.opens + 1)
  }

  function DeviceAsked(f: Fails, ok: bool): Fails {
    FileAsked(f.(devices := f.devices + 1), ok)
  }

  function SeekAsked(f: Fails, ok: bool): Fails {
    if ok then f else f.(seeks := f.seeks + 1)
  }

  /** The output device: whether it is open and paused, whether it may hold bytes that it has not played,
      and how often what it held has been dropped. */
  datatype Device = Device(open: bool, paused: bool, held: bool, drops: nat)

  /** After op_drop, op_close and op_open. */
  function Dropped(d: Device): Device {
    d.(held := false, drops := d.drops + 1)
  }

  function Closed(d: Device): Device {
    Device(false, false, false, d.drops)
  }

  function Opened(d: Device, ok: bool): Device {
    Device(ok, false, false, d.drops)
  }

  function BytesOf(got: Option<seq<byte>>): seq<byte> {
    if got.Some? then got.value else []
  }

  /** What the plugins were asked for and have answered. `delivered` and `played` are the bytes that the
      decoder has delivered and the device has taken since the last reset of the buffer. */
  class History {
    ghost var delivery: Delivery
    ghost var playback: Playback
    ghost var fails: Fails
    ghost var delivered: seq<byte>
    ghost var played: seq<byte>

    constructor ()
      ensures delivery == Delivery(0, None, false) && playback == Playback([], 0) && fails == Fails(0, 0, 0) && delivered == played == []
    {
      delivery, playback, fails := Delivery(0, None, false), Playback([], 0), Fails(0, 0, 0);
      delivered, played := [], [];
    }
  }

  /** The last read has come to the end of the file. */
  predicate AtEnd(d: Delivery) {
    d.last.Some? && d.last.value.got == Some([])
  }

  /** What the producer has read but not yet filled in. */
  function InTransit(w: BufferRuns.Writer): seq<byte> {
    if w.Wrote? then w.bytes else []
  }

  /** The number of chunks _prebuffer fills for a local file. */
  function LocalLimit(second: nat): (r: nat)
    ensures r >= 1
  {
    var limit := 250 * second / 1000 / CHUNK_SIZE;
    if limit < 1 then 1 else limit
  }

  /** The number of chunks for the buffer_seconds option. */
  function BufferChunks(seconds: nat): nat {
    (seconds * 176400 + CHUNK_SIZE / 2) / CHUNK_SIZE
  }

  /** A buffer of `seconds` seconds can be too small for the 250 ms that _prebuffer asks for: with
      one second this happens from 967680 bytes a second on. */
  lemma PrebufferFits(seconds: nat, second: nat)
    requires seconds >= 1
    ensures LocalLimit(second) <= BufferChunks(seconds) <==> 250 * second / 1000 < (BufferChunks(seconds) + 1) * CHUNK_SIZE
    ensures BufferChunks(1) == 3 && (LocalLimit(second) <= 3 <==> second < 967680)
  {
    var size, n := 250 * second / 1000, BufferChunks(seconds);
    assert n >= 2 by {
      assert seconds * 176400 >= 176400;
    }
    assert size / CHUNK_SIZE <= n <==> size < (n + 1) * CHUNK_SIZE;
  }

  /** What player_seek makes of its arguments: nothing, a jump to the next track, or a seek. */
  datatype Target = Refuse | NextTrack | To(pos: real)

  function SeekTarget(offset: real, relative: bool, pos: real, duration: real): Target {
    if duration < 0.0 then Refuse
    else if relative then
      var p := if pos + offset < 0.0 then 0.0 else pos + offset;
      if offset > 0.0 && p > duration then NextTrack
      else if offset > 0.0 && p < pos - 0.5 then Refuse
      else To(p)
    else if offset < 0.0 then Refuse
    else To(if offset > duration - 5.0 then (if duration - 5.0 < 0.0 then 0.0 else duration - 5.0) else offset)
  }

  function MaxReal(a: real, b: real): real {
    if a > b then a else b
  }

  function MinReal(a: real, b: real): real {
    if a < b then a else b
  }

  /** A seek ends inside the file (a relative one from behind its end at least does not go further),
      a relative one as far from here as asked for unless that is in front of the start, an absolute
      one where it was asked to, but not in the last five seconds of the file. The test that refuses
      short steps forward never does: nothing but a negative absolute position or an unknown
      duration is refused. */
  lemma SeekInside(offset: real, relative: bool, pos: real, duration: real)
    ensures var t := SeekTarget(offset, relative, pos, duration);
      && (t.Refuse? <==> duration < 0.0 || (!relative && offset < 0.0))
      && (t.NextTrack? <==> duration >= 0.0 && relative && offset > 0.0 && pos + offset > duration)
      && (t.To? ==> 0.0 <= t.pos <= if relative && pos > duration then pos else duration)
      && (t.To? && relative ==> t.pos == MaxReal(0.0, pos + offset))
      && (t.To? && !relative ==> t.pos == MinReal(offset, MaxReal(0.0, duration - 5.0)))
  {
  }

  class Player {
    var producer: ProducerStatus
    var consumer: ConsumerStatus
    var input: Option<Input>
    var device: Device
    var format: int
    var ring: Ring
    /** What the producer thread has in hand inside its critical section. */
    var writer: BufferRuns.Writer
    /** A BUG_ON has ended the program. */
    var aborted: bool
    /** LocalLimit for the bytes per second of a format. */
    const limit: int -> nat
    const history: History

    constructor (second: int -> nat)
      ensures Valid() && !aborted && fresh(ring) && fresh(ring.chunks) && fresh(history) && producer == Unloaded && consumer == Stopped
      ensures forall f :: limit(f) == LocalLimit(second(f))
    {
      producer, consumer, input, device, format := Unloaded, Stopped, None, Device(false, false, false, 0), 0;
      ring := new Ring(29);
      writer, aborted := BufferRuns.Away, false;
      limit := f => LocalLimit(second(f));
      history := new History();
    }

    /** The chunks that _prebuffer waits for never exceed the buffer. */
    predicate Fits(file: File, n: nat) {
      file.remote || limit(file.format) <= n
    }

    /** What the plugins have to do with each status: a file is there unless the producer is
        unloaded, it is open while producing or held, the device is open unless the consumer is
        stopped, and it is paused exactly while the consumer is. */
    ghost predicate Devices()
      reads this`producer, this`consumer, this`input, this`device
    {
      && (input.Some? <==> producer != Unloaded)
      && (input.Some? ==> (input.value.open <==> producer.Producing? || producer.Held?))
      && (device.open <==> consumer != Stopped) && (device.paused <==> consumer == Paused) && (device.held ==> device.open)
    }

    /** What the buffer has to do with it: no byte outlives the file it came from. */
    ghost predicate Buffered()
      reads this`producer, this`input, this`ring, ring, ring.chunks
    {
      && ring.Valid()
      && (producer.Unloaded? || producer.Idle? ==> ring.given == [] && ring.count == 0)
    }

    /** The bytes filled and consumed are those that the decoder has delivered and the device has
        taken. */
    ghost predicate Flow()
      reads this`ring, this`writer, ring, history
    {
      history.played == ring.taken && history.delivered == ring.given + InTransit(writer)
    }

    /** Behind the end of the file the producer asks for no more, and what it has read before is passed
        on to the consumer, unless the decoder has delivered bytes behind the end. */
    ghost predicate Ending()
      reads this`input, this`ring, this`writer, ring, ring.chunks, history`delivery
    {
      && (writer.Given? ==> input.Some? && !input.value.eof)
      && (input.Some? && input.value.eof && !history.delivery.late ==>
            writer == BufferRuns.Wrote([]) || (writer.Away? && ring.widx < ring.chunks.Length && PassedOn(ring.chunks[ring.widx])))
    }

    /** What holds for who has both locks. */
    ghost predicate Core()
      reads this`producer, this`consumer, this`input, this`device, this`ring, this`writer, ring, ring.chunks, history
    {
      Devices() && Buffered() && writer.Away? && Flow() && Ending()
    }

    ghost predicate Statuses()
      reads this`producer, this`consumer
    {
      (consumer == Playing ==> producer == Producing) && (consumer == Paused <==> producer == Held)
    }

    /** What holds whenever the locks are free. */
    ghost predicate Valid()
      reads this`producer, this`consumer, this`input, this`device, this`ring, this`writer, ring, ring.chunks, history
    {
      Core() && Statuses()
    }

    /** The producer, in the middle of its critical section, has a free region of the ring in hand
        and what it has written is still there. */
    ghost predicate InHand()
      reads this`producer, this`ring, this`writer, ring, ring.chunks
    {
      ring.widx < ring.chunks.Length && BufferRuns.WriterOk(ring.Value(), writer) && (!writer.Away? ==> producer == Producing)
    }

    /** What holds at any time while no command is being carried out. */
    ghost predicate Running()
      reads this`producer, this`consumer, this`input, this`device, this`ring, this`writer, ring, ring.chunks, history
    {
      Devices() && Buffered() && Statuses() && InHand() && Flow() && Ending()
    }

    /* The plugins; the requires clauses are what their BUG_ON checks demand. */

    method IpOpen() returns (ok: bool)
      requires input.Some? && !input.value.open
      modifies this`input, history`fails
      ensures input == Some(Input(old(input.value.file), ok, false)) && history.fails == FileAsked(old(history.fails), ok)
    {
      ok := *;
      input := Some(Input(input.value.file, ok, false));
      history.fails := FileAsked(history.fails, ok);
    }

    method IpClose()
      requires input.Some? && input.value.open
      modifies this`input
      ensures input == Some(Input(old(input.value.file), false, false))
    {
      input := Some(Input(input.value.file, false, false));
    }

    method IpSeek() returns (ok: bool)
      requires input.Some? && input.value.open
      modifies this`input, history`fails
      ensures input == Some(old(input.value).(eof := old(input.value.eof) && !ok)) && history.fails == SeekAsked(old(history.fails), ok)
    {
      ok := *;
      input := Some(input.value.(eof := input.value.eof && !ok));
      history.fails := SeekAsked(history.fails, ok);
    }

    /** Nothing read is the end of the file or an error, which mostly counts as the end, too. */
    method IpRead(size: nat) returns (got: Option<seq<byte>>)
      requires input.Some? && input.value.open && size > 0
      modifies this`input, history`delivery, history`delivered
      ensures |BytesOf(got)| <= size && input.Some? && input == Some(old(input.value).(eof := input.value.eof)) && (old(input.value.eof) ==> input.value.eof)
      ensures input.value.eof ==> old(input.value.eof) || got == Some([])
      ensures var d := old(history.delivery);
              history.delivery == Delivery(d.calls + 1, Some(Read(size, got)), d.late || (old(input.value.eof) && BytesOf(got) != []))
      ensures history.delivered == old(history.delivered) + BytesOf(got)
    {
      var again: bool, end: bool, bytes: seq<byte> := *, *, *;
      got := if again then None else Some(if |bytes| <= size then bytes else []);
      ghost var d := history.delivery;
      history.delivery := Delivery(d.calls + 1, Some(Read(size, got)), d.late || (input.value.eof && BytesOf(got) != []));
      history.delivered := history.delivered + BytesOf(got);
      input := Some(input.value.(eof := input.value.eof || (got == Some([]) && end)));
    }

    method OpOpen() returns (ok: bool)
      requires !device.open
      modifies this`device, history`fails
      ensures device == Opened(old(device), ok) && history.fails == DeviceAsked(old(history.fails), ok)
    {
      ok := *;
      device := Opened(device, ok);
      history.fails := DeviceAsked(history.fails, ok);
    }

    /** The device plays what it holds first. */
    method OpClose()
      requires device.open
      modifies this`device
      ensures device == Closed(old(device))
    {
      device := Closed(device);
    }

    method OpDrop()
      requires device.open
      modifies this`device
      ensures device == Dropped(old(device))
    {
      device := Dropped(device);
    }

    method OpPause()
      requires device.open && !device.paused
      modifies this`device
      ensures device == old(device).(paused := true)
    {
      device := device.(paused := true);
    }

    method OpUnpause()
      requires device.open && device.paused
      modifies this`device
      ensures device == old(device).(paused := false)
    {
      device := device.(paused := false);
    }

    /** op_write of `size` bytes from the read position on: the device takes some of them, or fails. */
    method OpWrite(size: nat) returns (rc: int)
      requires device.open && !device.paused && ring.ridx < ring.chunks.Length
      requires var c := ring.chunks[ring.ridx]; c.l + size <= c.h <= |c.data|
      modifies this`device, history`playback, history`played
      ensures rc <= size && device == old(device).(held := old(device.held) || rc > 0)
      ensures var c := ring.chunks[ring.ridx];
              var taken := if rc < 0 then [] else Region(c.data, c.l, c.l + rc);
              && history.playback == OneMore(old(history.playback), Region(c.data, c.l, c.l + size), rc)
              && history.played == old(history.played) + taken
    {
      rc := *;
      rc := if rc > size then size else rc;
      ghost var c := ring.chunks[ring.ridx];
      device := device.(held := device.held || rc > 0);
      history.playback := OneMore(history.playback, Region(c.data, c.l, c.l + size), rc);
      history.played := history.played + if rc < 0 then [] else Region(c.data, c.l, c.l + rc);
    }

    method SetFormat()
      requires input.Some? && input.value.open
      modifies this`format
      ensures format == input.value.file.format
    {
      format := input.value.file.format;
    }

    /** reset_buffer. */
    method ResetBuffer()
      requires ring.Valid()
      modifies ring, ring.chunks, history`delivered, history`played
      ensures ring.Valid() && ring.given == ring.taken == [] && ring.count == 0
      ensures history.delivered == history.played == []
      ensures ring.widx < ring.chunks.Length && PassedOn(ring.chunks[ring.widx])
    {
      ring.Reset();
      history.delivered, history.played := [], [];
    }

    /* The producer. */

    /** _producer_play; `next` is what cmus_get_next_track would return. */
    method ProducerPlay(next: Option<File>)
      requires Core()
      modifies this`producer, this`input, ring, ring.chunks, history`delivered, history`played, history`fails
      ensures Core() && ring == old(ring) && (producer == Producing || producer == Unloaded)
      ensures old(producer.Unloaded?) && next.None? ==> producer == Unloaded && history.fails == old(history.fails)
      ensures old(producer.Idle?) || (old(producer.Unloaded?) && next.Some?) ==> history.fails == FileAsked(old(history.fails), producer == Producing)
      ensures old(producer.Producing?) ==> producer == Producing && history.fails == SeekAsked(old(history.fails), history.fails == old(history.fails))
      ensures old(producer.Producing?) ==> if history.fails == old(history.fails) then ring.given == [] else ring.Value() == old(ring.Value())
      ensures old(producer.Held?) ==> producer == Producing && history.fails == old(history.fails) && ring.Value() == old(ring.Value())
      ensures input.Some? ==> if old(input.Some?) then input.value.file == old(input.value.file) else next == Some(input.value.file)
    {
      hide Buffer.RingOk;
      match producer {
        case Unloaded =>
          if next.Some? {
            input := Some(Input(next.value, false, false));
            var ok := IpOpen();
            if ok {
              producer := Producing;
            } else {
              input := None;
            }
          }
        case Producing =>
          var ok := IpSeek();
          if ok {
            ResetBuffer();
          }
        case Idle =>
          var ok := IpOpen();
          if ok {
            producer := Producing;
          } else {
            input := None;
            producer := Unloaded;
          }
        case Held =>
          producer := Producing;
      }
    }

    /** _producer_stop. */
    method ProducerStop()
      requires Core()
      modifies this`producer, this`input, ring, ring.chunks, history`delivered, history`played
      ensures Core() && ring == old(ring)
      ensures producer == if old(producer) == Unloaded then Unloaded else Idle
      ensures input.Some? ==> input.value.file == old(input.value.file)
    {
      if producer == Producing || producer == Held {
        IpClose();
        producer := Idle;
        ResetBuffer();
      }
    }

    /** _producer_unload. */
    method ProducerUnload()
      requires Core()
      modifies this`producer, this`input, ring, ring.chunks, history`delivered, history`played
      ensures Core() && ring == old(ring) && producer == Unloaded
    {
      ProducerStop();
      if producer == Idle {
        input := None;
        producer := Unloaded;
      }
    }

    /** _producer_pause. */
    method ProducerPause()
      requires Core()
      modifies this`producer
      ensures Core()
      ensures producer == match old(producer) case Producing => Held case Held => Producing case p => p
    {
      if producer == Producing {
        producer := Held;
      } else if producer == Held {
        producer := Producing;
      }
    }

    /** _producer_set_file. */
    method ProducerSetFile(file: File)
      requires Core()
      modifies this`producer, this`input, ring, ring.chunks, history`delivered, history`played
      ensures Core() && ring == old(ring) && producer == Idle && input == Some(Input(file, false, false))
    {
      ProducerUnload();
      input := Some(Input(file, false, false));
      producer := Idle;
    }

    /* The consumer. */

    /** _consumer_play. */
    method ConsumerPlay()
      requires Devices() && (consumer == Stopped ==> producer.Producing? || producer.Held?)
      modifies this`consumer, this`device, this`format, history`fails
      ensures Devices() && (consumer == Playing || (consumer == Stopped && old(consumer) == Stopped))
      ensures history.fails == if old(consumer) == Stopped then DeviceAsked(old(history.fails), consumer == Playing) else old(history.fails)
      ensures format == if old(consumer) == Stopped then input.value.file.format else old(format)
      ensures device == DeviceFor(old(consumer), old(device), consumer == Playing)
    {
      match consumer {
        case Playing =>
          OpDrop();
        case Stopped =>
          SetFormat();
          var ok := OpOpen();
          if ok {
            consumer := Playing;
          }
        case Paused =>
          OpUnpause();
          consumer := Playing;
      }
    }

    /** What _consumer_play makes of a device: what a playing one holds is dropped, a paused one goes on
        with what it holds. */
    function DeviceFor(was: ConsumerStatus, d: Device, ok: bool): Device {
      match was
      case Playing => Dropped(d)
      case Stopped => Opened(d, ok)
      case Paused => d.(paused := false)
    }

    /** _consumer_stop. */
    method ConsumerStop()
      requires Devices()
      modifies this`consumer, this`device
      ensures Devices() && consumer == Stopped && device == Closed(if old(consumer) == Stopped then old(device) else Dropped(old(device)))
    {
      if consumer != Stopped {
        OpDrop();
        OpClose();
        consumer := Stopped;
      }
    }

    /** _consumer_drain_and_stop: nothing is dropped. */
    method ConsumerDrainAndStop()
      requires Devices()
      modifies this`consumer, this`device
      ensures Devices() && consumer == Stopped && device == Closed(old(device))
    {
      if consumer != Stopped {
        OpClose();
        consumer := Stopped;
      }
    }

    /** _consumer_pause. */
    method ConsumerPause()
      requires Devices()
      modifies this`consumer, this`device
      ensures Devices() && device == old(device).(paused := consumer == Paused)
      ensures consumer == match old(consumer) case Playing => Paused case Paused => Playing case c => c
    {
      if consumer == Playing {
        OpPause();
        consumer := Paused;
      } else if consumer == Paused {
        OpUnpause();
        consumer := Playing;
      }
    }

    /** change_sf: the device is opened again if and only if the format is another one. */
    method ChangeFormat(drop: bool) returns (ok: bool)
      requires Core() && producer == Producing && consumer != Stopped
      modifies this`producer, this`consumer, this`input, this`device, this`format, ring, ring.chunks, history`delivered, history`played, history`fails
      ensures Core() && ring == old(ring)
      ensures if ok then consumer == Playing && producer == Producing else consumer == Stopped && producer == Idle
      ensures input.value.file == old(input.value.file) && format == input.value.file.format
      ensures history.fails == if format == old(format) then old(history.fails) else DeviceAsked(old(history.fails), ok)
      ensures format == old(format) ==> ok
      ensures device == Changed(old(device), format == old(format), drop, ok)
    {
      hide Buffer.RingOk;
      var was := format;
      SetFormat();
      ok := true;
      if format != was {
        ok := OpenAgain(drop);
        if !ok {
          ProducerStop();
        }
      } else {
        ConsumerPlays();
      }
    }

    /** What change_sf makes of a device: one that is paused and stays open is dropped. */
    function Changed(d: Device, same: bool, drop: bool, ok: bool): Device {
      if same then if d.paused then Dropped(d).(paused := false) else d
      else Opened(if drop then Dropped(d) else d, ok)
    }

    /** The device is closed and opened. */
    method OpenAgain(drop: bool) returns (ok: bool)
      requires Core() && consumer != Stopped
      modifies this`consumer, this`device, history`fails
      ensures Core() && consumer == (if ok then Playing else Stopped) && history.fails == DeviceAsked(old(history.fails), ok)
      ensures device == Changed(old(device), false, drop, ok)
    {
      hide Buffer.RingOk;
      if drop {
        OpDrop();
      }
      OpClose();
      ok := OpOpen();
      consumer := if ok then Playing else Stopped;
    }

    method ConsumerPlays()
      requires Core() && consumer != Stopped
      modifies this`consumer, this`device
      ensures Core() && consumer == Playing && device == Changed(old(device), true, false, true)
    {
      if consumer == Paused {
        OpDrop();
        OpUnpause();
      }
      consumer := Playing;
    }

    /** The end of player_play, player_pause and player_seek: starts the device behind a producer. */
    method ConsumerFollows()
      requires Core() && producer == Producing
      modifies this`consumer, this`device, this`format, this`producer, this`input, ring, ring.chunks, history`delivered, history`played, history`fails
      ensures Core() && ring == old(ring)
      ensures (consumer == Playing && producer == Producing) || (consumer == Stopped && producer == Idle && old(consumer) == Stopped)
      ensures history.fails == if old(consumer) == Stopped then DeviceAsked(old(history.fails), consumer == Playing) else old(history.fails)
      ensures input.value.file == old(input.value.file)
      ensures consumer == Playing && old(consumer) == Stopped ==> format == input.value.file.format
      ensures device == DeviceFor(old(consumer), old(device), consumer == Playing)
    {
      ConsumerPlay();
      if consumer != Playing {
        ProducerStop();
      }
    }

    /** The limit of _prebuffer exceeds the buffer, which is full. */
    ghost predicate Overrun()
      reads this`input, this`ring, ring, ring.chunks
    {
      input.Some? && !Fits(input.value.file, ring.chunks.Length) && ring.count == ring.chunks.Length
    }

    /** The number of filled chunks that _prebuffer waits for. */
    function Enough(): nat
      requires input.Some?
      reads this`input, this`ring
    {
      if input.value.file.remote then ring.chunks.Length else limit(input.value.file.format)
    }

    /** _prebuffer has gone on from read number `k` until there were enough chunks or the end of the file,
        or for `rounds` reads. */
    ghost predicate Primed(k: nat, rounds: nat)
      reads this`input, this`ring, this`aborted, ring, history`delivery
    {
      && k <= history.delivery.calls <= k + rounds
      && (aborted || (input.Some? && ring.count >= Enough()) || history.delivery.calls == k + rounds || (k < history.delivery.calls && AtEnd(history.delivery)))
    }

    /** _prebuffer, for any number of rounds of its loop. It reads only into free space; where there is
        none, the BUG_ON of ip_read ends the program. */
    method Prebuffer(rounds: nat)
      requires Valid() && consumer == Playing && format == input.value.file.format && !aborted
      modifies this`aborted, this`input, ring, ring.chunks, history`delivery, history`delivered
      ensures Valid() && input.value.file == old(input.value.file) && (aborted ==> Overrun())
      ensures Primed(old(history.delivery.calls), rounds)
    {
      hide Buffer.RingOk;
      ghost var k := history.delivery.calls;
      var most := if input.value.file.remote then ring.chunks.Length else limit(format);
      for i := 0 to rounds
        invariant Core() && !aborted && input.value.file == old(input.value.file)
        invariant history.delivery.calls == k + i
      {
        var more := PrebufferRound(most);
        if !more {
          return;
        }
      }
    }

    /** One round of the loop; `more` says whether it goes on. */
    method PrebufferRound(most: nat) returns (more: bool)
      requires Core() && producer == Producing && !aborted && most == Enough()
      modifies this`aborted, this`input, ring, ring.chunks, history`delivery, history`delivered
      ensures Core() && input.value.file == old(input.value.file) && (aborted ==> Overrun() && !more)
      ensures if old(ring.count) >= most || aborted then !more && history.delivery == old(history.delivery)
              else history.delivery.calls == old(history.delivery.calls) + 1 && more == !AtEnd(history.delivery)
      ensures old(ring.count) >= most ==> ring.count >= most
    {
      more := false;
      var filled := ring.FilledChunks();
      if filled >= most {
        return;
      }
      var size := ring.WriteSpace();
      if size == 0 {
        aborted := true;
        return;
      }
      var got := ReadChunk(size);
      more := got != Some([]);
    }

    /** One round: ip_read into the free region, and buffer_fill unless there is nothing yet. */
    method ReadChunk(size: nat) returns (got: Option<seq<byte>>)
      requires Core() && producer == Producing && size == Space(ring.Value()) && size > 0 && !ring.chunks[ring.widx].filled
      modifies this`input, ring, ring.chunks, history`delivery, history`delivered
      ensures Core() && input.value.file == old(input.value.file)
      ensures history.delivery.calls == old(history.delivery.calls) + 1 && history.delivery.last == Some(Read(size, got))
    {
      FilledCount(ring.Value());
      hide Buffer.RingOk;
      got := IpRead(size);
      if got.Some? {
        FillChunk(got.value);
      }
    }

    method FillChunk(bytes: seq<byte>)
      requires Devices() && Buffered() && writer.Away? && producer == Producing && !ring.chunks[ring.widx].filled && |bytes| <= CHUNK_SIZE - ring.chunks[ring.widx].h
      requires history.played == ring.taken && history.delivered == ring.given + bytes
      requires input.value.eof && !history.delivery.late ==> bytes == []
      modifies ring, ring.chunks
      ensures Core()
    {
      ring.Write(bytes);
      FillStays(ring.Value(), |bytes|);
      var _ := ring.Fill(|bytes|);
    }

    /* The commands. */

    /** player_stop. */
    method Stop()
      requires Valid()
      modifies this`producer, this`consumer, this`input, this`device, ring, ring.chunks, history`delivered, history`played
      ensures Valid() && ring == old(ring) && consumer == Stopped && producer == if old(producer) == Unloaded then Unloaded else Idle
      ensures input.Some? ==> input.value.file == old(input.value.file)
      ensures device.drops == old(device.drops) + if old(consumer) == Stopped then 0 else 1
    {
      ConsumerStop();
      ProducerStop();
    }

    /** player_play. A remote stream that is being read is left alone. Otherwise both sides play, unless
        there is no file or a file or the device could not be opened; a player that was stopped has
        filled its buffer first. */
    method Play(next: Option<File>, rounds: nat)
      requires !aborted && Valid()
      modifies this, ring, ring.chunks, history`delivered, history`played, history`fails, history`delivery
      ensures aborted ==> Overrun()
      ensures Valid() && ring == old(ring)
      ensures if old(producer == Producing && input.value.file.remote) then
                consumer == old(consumer) && producer == Producing && ring.Value() == old(ring.Value()) && history.fails == old(history.fails) && history.delivery == old(history.delivery)
                && device == old(device)
              else Started(old(producer == Unloaded) && next.None?, old(history.fails)) && device == DeviceFor(old(consumer), old(device), consumer == Playing)
      ensures consumer == Playing && old(consumer) == Stopped ==> Primed(old(history.delivery.calls), rounds)
      ensures old(consumer) != Stopped ==> history.delivery == old(history.delivery)
      ensures input.Some? ==> if old(input.Some?) then input.value.file == old(input.value.file) else next == Some(input.value.file)
    {
      hide Buffer.RingOk;
      if producer == Producing && input.value.file.remote {
        return;
      }
      var prebuffer := consumer == Stopped;
      StartBoth(next);
      if consumer == Playing && prebuffer {
        Prebuffer(rounds);
      }
    }

    /** Both sides play, or none does because there was nothing to play or something could not be
        opened. */
    ghost predicate Started(nothing: bool, before: Fails)
      reads this`producer, this`consumer, history`fails
    {
      if nothing || history.fails.opens > before.opens then consumer == Stopped && (producer == Unloaded || producer == Idle)
      else consumer == Playing && producer == Producing
    }

    method StartBoth(next: Option<File>)
      requires Valid()
      modifies this`producer, this`consumer, this`input, this`device, this`format, ring, ring.chunks, history`delivered, history`played, history`fails
      ensures Valid() && ring == old(ring) && Started(old(producer == Unloaded) && next.None?, old(history.fails))
      ensures history.fails.seeks >= old(history.fails.seeks)
      ensures consumer == Playing && old(consumer) == Stopped ==> format == input.value.file.format
      ensures input.Some? ==> if old(input.Some?) then input.value.file == old(input.value.file) else next == Some(input.value.file)
      ensures device == DeviceFor(old(consumer), old(device), consumer == Playing)
    {
      ProducerPlay(next);
      if producer == Producing {
        ConsumerFollows();
      } else {
        ConsumerStop();
      }
    }

    /** player_pause; whether the input is remote is read before the locks are taken. */
    method Pause(remote: bool, next: Option<File>, rounds: nat)
      requires !aborted && Valid()
      modifies this, ring, ring.chunks, history`delivered, history`played, history`fails, history`delivery
      ensures aborted ==> Overrun()
      ensures Valid() && ring == old(ring)
      ensures old(consumer) == Playing && remote ==> consumer == Stopped && producer == Idle
      ensures old(consumer) == Playing && !remote ==> consumer == Paused && producer == Held && ring.Value() == old(ring.Value())
      ensures old(consumer) == Paused ==> consumer == Playing && producer == Producing && ring.Value() == old(ring.Value())
      ensures old(consumer) == Stopped ==> Started(old(producer == Unloaded) && next.None?, old(history.fails))
      ensures old(consumer) == Stopped && consumer == Playing ==> Primed(old(history.delivery.calls), rounds)
      ensures old(consumer) != Stopped ==> history.fails == old(history.fails) && history.delivery == old(history.delivery)
      ensures device.drops == old(device.drops) + if old(consumer) == Playing && remote then 1 else 0
      ensures old(consumer) != Stopped && consumer != Stopped ==> device.held == old(device.held)
    {
      hide Buffer.RingOk;
      if remote && consumer == Playing {
        Stop();
        return;
      }
      if consumer == Stopped {
        StartFilled(next, rounds);
      } else {
        Toggle();
      }
    }

    method StartFilled(next: Option<File>, rounds: nat)
      requires !aborted && Valid() && consumer == Stopped
      modifies this`producer, this`consumer, this`input, this`device, this`format, this`aborted, ring, ring.chunks, history`delivered, history`played, history`fails, history`delivery
      ensures Valid() && Started(old(producer == Unloaded) && next.None?, old(history.fails)) && (aborted ==> Overrun())
      ensures consumer == Playing ==> Primed(old(history.delivery.calls), rounds)
      ensures device.drops == old(device.drops)
    {
      StartStopped(next);
      if consumer == Playing {
        Prebuffer(rounds);
      }
    }

    method Toggle()
      requires Valid() && consumer != Stopped
      modifies this`producer, this`consumer, this`device
      ensures Valid() && consumer == (if old(consumer) == Playing then Paused else Playing) && device == old(device).(paused := consumer == Paused)
      ensures producer == if old(consumer) == Playing then Held else Producing
    {
      ProducerPause();
      ConsumerPause();
    }

    method StartStopped(next: Option<File>)
      requires Valid() && consumer == Stopped
      modifies this`producer, this`consumer, this`input, this`device, this`format, ring, ring.chunks, history`delivered, history`played, history`fails
      ensures Valid() && ring == old(ring) && Started(old(producer == Unloaded) && next.None?, old(history.fails))
      ensures history.fails.seeks >= old(history.fails.seeks)
      ensures consumer == Playing ==> format == input.value.file.format
      ensures device == Opened(old(device), consumer == Playing)
    {
      ProducerPlay(next);
      if producer == Producing {
        ConsumerFollows();
      }
    }

    /** player_set_file. A stopped player stays stopped, any other goes on playing unless the file or the
        device could not be opened. */
    method SetFile(file: File, rounds: nat)
      requires !aborted && Valid()
      modifies this, ring, ring.chunks, history`delivered, history`played, history`fails, history`delivery
      ensures aborted ==> Overrun()
      ensures Valid() && ring == old(ring)
      ensures old(consumer) == Stopped ==> consumer == Stopped && producer == Idle && history.fails == old(history.fails)
      ensures old(consumer) != Stopped ==> Started(false, old(history.fails)) && (consumer == Playing ==> Primed(old(history.delivery.calls), rounds))
      ensures producer != Unloaded ==> input.value.file == file
      ensures !device.held && (old(consumer) == Stopped <==> device.drops == old(device.drops))
    {
      hide Buffer.RingOk;
      SwitchFile(file);
      if producer == Producing {
        Prebuffer(rounds);
      }
    }

    method SwitchFile(file: File)
      requires Valid()
      modifies this`producer, this`consumer, this`input, this`device, this`format, ring, ring.chunks, history`delivered, history`played, history`fails
      ensures Valid() && ring == old(ring) && (producer != Unloaded ==> input.value.file == file)
      ensures old(consumer) == Stopped ==> consumer == Stopped && producer == Idle && history.fails == old(history.fails)
      ensures old(consumer) != Stopped ==> Started(false, old(history.fails))
      ensures if producer == Producing then consumer == Playing && format == input.value.file.format else consumer == Stopped
      ensures !device.held && (old(consumer) == Stopped <==> device.drops == old(device.drops))
    {
      hide Buffer.RingOk;
      ProducerSetFile(file);
      if consumer != Stopped {
        OpDrop();
        ProducerPlay(None);
        if producer == Unloaded {
          ConsumerStop();
        } else {
          var _ := ChangeFormat(true);
        }
      }
    }

    /** player_play_file. It plays unless the file or the device could not be opened. */
    method PlayFile(file: File, rounds: nat)
      requires !aborted && Valid()
      modifies this, ring, ring.chunks, history`delivered, history`played, history`fails, history`delivery
      ensures aborted ==> Overrun()
      ensures Valid() && ring == old(ring) && Started(false, old(history.fails))
      ensures consumer == Playing ==> Primed(old(history.delivery.calls), rounds)
      ensures producer != Unloaded ==> input.value.file == file
      ensures !device.held && (old(consumer) == Stopped <==> device.drops == old(device.drops))
    {
      StartFile(file);
      if producer == Producing {
        Prebuffer(rounds);
      }
    }

    method StartFile(file: File)
      requires Valid()
      modifies this`producer, this`consumer, this`input, this`device, this`format, ring, ring.chunks, history`delivered, history`played, history`fails
      ensures Valid() && ring == old(ring) && (producer != Unloaded ==> input.value.file == file) && Started(false, old(history.fails))
      ensures producer == Producing ==> format == input.value.file.format
      ensures !device.held && (old(consumer) == Stopped <==> device.drops == old(device.drops))
    {
      hide Buffer.RingOk;
      ProducerSetFile(file);
      ProducerPlay(None);
      if producer == Unloaded {
        ConsumerStop();
      } else {
        ConsumerTakesOver();
      }
    }

    method ConsumerTakesOver()
      requires Core() && producer == Producing
      modifies this`producer, this`consumer, this`input, this`device, this`format, ring, ring.chunks, history`delivered, history`played, history`fails
      ensures Core() && ring == old(ring) && input.Some? && input.value.file == old(input.value.file) && Started(false, old(history.fails))
      ensures producer == Producing ==> format == input.value.file.format
      ensures !device.held && (old(consumer) == Stopped <==> device.drops == old(device.drops))
    {
      if consumer == Stopped {
        ConsumerFollows();
      } else {
        OpDrop();
        var _ := ChangeFormat(true);
      }
    }

    /** player_seek, by or to `offset` seconds in a file of which `pos` seconds have been consumed.
        `sought` is the position in force afterwards if the seek was carried out. A stopped player is
        started first. A seek is carried out exactly if there is something to play, the position can
        be sought and the plugin does not fail. */
    method Seek(next: Option<File>, offset: real, relative: bool, startPlaying: bool, pos: real, duration: real) returns (sought: Option<real>)
      requires Valid()
      modifies this`producer, this`consumer, this`input, this`device, this`format, ring, ring.chunks, history`delivered, history`played, history`fails
      ensures Valid() && ring == old(ring)
      ensures old(consumer) != Stopped ==> consumer == old(consumer) && producer == old(producer) && history.fails.opens == old(history.fails.opens)
      ensures old(consumer) == Stopped ==>
                if (old(producer == Unloaded) && next.None?) || history.fails.opens > old(history.fails.opens) then consumer == Stopped
                else consumer == if sought.Some? && !startPlaying then Paused else Playing
      ensures sought.Some? ==> consumer != Stopped && ring.given == [] && SeekTarget(offset, relative, pos, duration) == To(sought.value)
      ensures sought.None? ==> consumer == Stopped || !SeekTarget(offset, relative, pos, duration).To? || history.fails.seeks > old(history.fails.seeks)
      ensures sought.None? && old(consumer) != Stopped ==> ring.Value() == old(ring.Value()) && device == old(device)
      ensures device.drops == old(device.drops) + (if sought.Some? then 1 else 0) && (sought.Some? ==> !device.held)
    {
      hide Buffer.RingOk;
      sought := None;
      var stopped := consumer == Stopped;
      if stopped {
        StartStopped(next);
      }
      var target := SeekTarget(offset, relative, pos, duration);
      if consumer == Stopped || !target.To? {
        return;
      }
      var ok := SeekTo(stopped && !startPlaying);
      if ok {
        sought := Some(target.pos);
      }
    }

    /** The end of player_seek: drops what is buffered and pauses a player that was stopped before. */
    method SeekTo(pause: bool) returns (ok: bool)
      requires Valid() && consumer != Stopped && (pause ==> consumer == Playing)
      modifies this`producer, this`consumer, this`input, this`device, ring, ring.chunks, history`delivered, history`played, history`fails
      ensures Valid() && ring == old(ring) && history.fails == SeekAsked(old(history.fails), ok)
      ensures device == if ok then Dropped(old(device)).(paused := consumer == Paused) else old(device)
      ensures consumer == (if pause && ok then Paused else old(consumer)) && producer == if pause && ok then Held else old(producer)
      ensures if ok then ring.given == [] else ring.Value() == old(ring.Value())
    {
      hide Buffer.RingOk;
      ok := IpSeek();
      if ok {
        OpDrop();
        ResetBuffer();
        if pause {
          ProducerPause();
          ConsumerPause();
        }
      }
    }

    /** The device is closed, and opened with the format of the file. */
    method OpenOther() returns (ok: bool)
      requires device.open && input.Some? && input.value.open
      modifies this`device, this`format, history`fails
      ensures device == Opened(old(device), ok) && history.fails == DeviceAsked(old(history.fails), ok) && format == input.value.file.format
    {
      hide Buffer.RingOk;
      OpClose();
      SetFormat();
      ok := OpOpen();
    }

    /** player_set_op. The device is opened again in a player that is not stopped; if that fails, both
        sides stop. */
    method SetOutput()
      requires Valid()
      modifies this`producer, this`consumer, this`input, this`device, this`format, ring, ring.chunks, history`delivered, history`played, history`fails
      ensures Valid() && ring == old(ring)
      ensures history.fails == if old(consumer) == Stopped then old(history.fails) else DeviceAsked(old(history.fails), history.fails.opens == old(history.fails.opens))
      ensures if history.fails.opens == old(history.fails.opens) then consumer == old(consumer) && producer == old(producer) && ring.Value() == old(ring.Value())
              else consumer == Stopped && producer == Idle
      ensures consumer != Stopped ==> format == input.value.file.format
      ensures !device.held && device.drops == old(device.drops) + if old(consumer) == Paused then 1 else 0
    {
      hide Buffer.RingOk;
      if consumer != Stopped {
        if consumer == Paused {
          OpDrop();
        }
        var ok := OpenOther();
        if !ok {
          consumer := Stopped;
          ProducerStop();
        } else if consumer == Paused {
          OpPause();
        }
      }
    }

    /** player_set_buffer_chunks. */
    method SetBufferChunks(n: nat)
      requires Valid() && n > 0
      modifies this`producer, this`consumer, this`input, this`device, this`format, this`ring, ring, ring.chunks, history`delivered, history`played
      ensures Valid() && fresh(ring) && fresh(ring.chunks) && ring.chunks.Length == n && consumer == Stopped
      ensures producer == if old(producer) == Unloaded then Unloaded else Idle
    {
      hide Buffer.RingOk;
      ProducerStop();
      ConsumerStop();
      NothingTaken();
      NewRing(n);
    }

    /** buffer_init. */
    method NewRing(n: nat)
      requires Devices() && writer.Away? && n > 0 && history.played == history.delivered == []
      modifies this`ring
      ensures fresh(ring) && fresh(ring.chunks) && ring.chunks.Length == n && Buffered() && Flow() && Ending()
    {
      ring := new Ring(n);
      FilledCount(ring.Value());
      OfferedNext(ring.Value());
    }

    /** A stopped producer leaves nothing behind. */
    lemma NothingTaken()
      requires Core() && (producer == Unloaded || producer == Idle)
      ensures ring.taken == [] && history.played == history.delivered == []
    {
      OfferedNext(ring.Value());
    }

    /* The threads. */

    /** The file is the same one as before; only its end may have been seen. */
    twostate predicate SameFile()
      reads this`input
    {
      old(input).Some? == input.Some? && (input.Some? ==> input.value.file == old(input).value.file && input.value.open == old(input).value.open)
    }

    /** The next step of the producer thread: buffer_get_wpos, ip_read into the region, or
        buffer_fill. The consumer may be anywhere in its own section; the bytes it has in hand stay
        as they are. */
    method ProducerStep()
      requires Running()
      modifies this`writer, this`input, ring, ring.chunks, history`delivery, history`delivered
      ensures Running() && SameFile() && ring.taken == old(ring.taken) && ring.ridx == old(ring.ridx)
      ensures old(ring.chunks[ring.ridx].filled) ==> ring.chunks[ring.ridx] == old(ring.chunks[ring.ridx])
      ensures old(!writer.Away?) ==> Rank(writer) < old(Rank(writer))
      ensures old(writer.Away?) ==> ring.Value() == old(ring.Value()) && history.delivery == old(history.delivery)
      ensures old(writer.Away?) ==> writer == if producer == Producing && !input.value.eof && Space(ring.Value()) > 0 then BufferRuns.Given(Space(ring.Value())) else BufferRuns.Away
      ensures old(writer.Given?) ==> ring.given == old(ring.given) && history.delivery.calls == old(history.delivery.calls) + 1
      ensures old(writer.Given?) ==> history.delivery.last.Some? && history.delivery.last.value.size == old(writer).size
      ensures old(writer.Wrote?) ==> ring.given == old(ring.given + writer.bytes) && history.delivery == old(history.delivery)
    {
      match writer {
        case Away =>
          if producer == Producing && !input.value.eof {
            var size := ring.WriteSpace();
            if size > 0 {
              writer := BufferRuns.Given(size);
            }
          }
        case Given(size) =>
          ReadInto(size);
        case Wrote(bytes) =>
          FillIn(bytes);
      }
    }

    /** ip_read writes into the region in hand, or has nothing yet. */
    method ReadInto(size: int)
      requires Running() && writer == BufferRuns.Given(size)
      modifies this`writer, this`input, ring.chunks, history`delivery, history`delivered
      ensures Running() && SameFile() && (writer.Away? || writer.Wrote?)
      ensures old(ring.chunks[ring.ridx].filled) ==> ring.chunks[ring.ridx] == old(ring.chunks[ring.ridx])
      ensures history.delivery.calls == old(history.delivery.calls) + 1 && history.delivery.last.Some? && history.delivery.last.value.size == size
    {
      FilledCount(ring.Value());
      hide Buffer.RingOk;
      var got := IpRead(size);
      if got.None? {
        writer := BufferRuns.Away;
      } else {
        WriteInto(got.value);
      }
    }

    /** The bytes read are in the region, and the producer still has them in hand. */
    method WriteInto(bytes: seq<byte>)
      requires Devices() && Buffered() && Statuses() && producer == Producing
      requires !ring.chunks[ring.widx].filled && |bytes| <= CHUNK_SIZE - ring.chunks[ring.widx].h
      requires history.played == ring.taken && history.delivered == ring.given + bytes
      requires input.value.eof && !history.delivery.late ==> bytes == []
      modifies this`writer, ring.chunks
      ensures Running() && writer == BufferRuns.Wrote(bytes)
      ensures old(ring.chunks[ring.ridx].filled) ==> ring.chunks[ring.ridx] == old(ring.chunks[ring.ridx])
    {
      FilledCount(ring.Value());
      ring.Write(bytes);
      writer := BufferRuns.Wrote(bytes);
    }

    /** buffer_fill with the bytes read; with none it marks the chunk filled. */
    method FillIn(bytes: seq<byte>)
      requires Running() && writer == BufferRuns.Wrote(bytes)
      modifies this`writer, ring, ring.chunks
      ensures Running() && writer.Away? && ring.taken == old(ring.taken) && ring.ridx == old(ring.ridx) && ring.given == old(ring.given) + bytes
      ensures old(ring.chunks[ring.ridx].filled) ==> ring.chunks[ring.ridx] == old(ring.chunks[ring.ridx])
    {
      hide Buffer.RingOk, Buffer.Filled, Buffer.Region;
      FillStays(ring.Value(), |bytes|);
      ghost var next := Filled(ring.Value(), |bytes|);
      var _ := ring.Fill(|bytes|);
      writer := BufferRuns.Away;
      assert ring.chunks[ring.ridx] == next.chunks[ring.ridx] && ring.chunks[ring.widx] == next.chunks[ring.widx];
      assert Buffered() && Flow() && Ending();
    }

    /** Any number of producer steps. */
    method ProducerSteps(n: nat)
      requires Running()
      modifies this`writer, this`input, ring, ring.chunks, history`delivery, history`delivered
      ensures Running() && SameFile() && ring.taken == old(ring.taken) && ring.ridx == old(ring.ridx)
      ensures old(ring.chunks[ring.ridx].filled) ==> ring.chunks[ring.ridx] == old(ring.chunks[ring.ridx])
    {
      for i := 0 to n
        invariant Running() && SameFile() && ring.taken == old(ring.taken) && ring.ridx == old(ring.ridx)
        invariant old(ring.chunks[ring.ridx].filled) ==> ring.chunks[ring.ridx] == old(ring.chunks[ring.ridx])
      {
        ProducerStep();
      }
    }

    /** How many steps the producer has left in its section. */
    function Rank(w: BufferRuns.Writer): nat {
      match w
      case Away => 0
      case Given(_) => 2
      case Wrote(_) => 1
    }

    /** producer_lock, from the consumer: the producer leaves its section first. */
    method LockProducer()
      requires Running()
      modifies this`writer, this`input, ring, ring.chunks, history`delivery, history`delivered
      ensures Valid() && SameFile()
    {
      while !writer.Away?
        invariant Running() && SameFile()
        decreases Rank(writer)
      {
        ProducerStep();
      }
    }

    /** Reopens the device after an error of op_buffer_space or op_write. */
    method Reopen()
      requires Running() && consumer == Playing
      modifies this`consumer, this`device, this`format, history`fails
      ensures Running() && (consumer == Playing || consumer == Stopped)
      ensures history.fails == DeviceAsked(old(history.fails), consumer == Playing)
      ensures device == Opened(old(device), consumer == Playing)
    {
      hide Buffer.RingOk;
      OpClose();
      consumer := Stopped;
      ConsumerPlay();
    }

    /** The consumer's critical section, for any number of rounds of its inner loop. The device gets no
        more than it has room for. */
    method ConsumerTurn(space0: int, rounds: nat, repeat: bool, cont: bool, same: bool, next: Option<File>, prebuffer: nat)
      requires !aborted && Running()
      modifies this, ring, ring.chunks, history
      ensures aborted ==> Overrun()
      ensures Running() && ring == old(ring)
      ensures old(consumer) != Playing ==> consumer == old(consumer) && producer == old(producer) && history.playback == old(history.playback)
      ensures old(consumer) == Playing && space0 < 0 ==> history.playback == old(history.playback) && history.fails == DeviceAsked(old(history.fails), consumer == Playing)
      ensures space0 >= 0 ==> 0 <= history.playback.count - old(history.playback.count) <= space0
    {
      hide Buffer.RingOk;
      if consumer != Playing {
        return;
      }
      if space0 < 0 {
        Reopen();
        return;
      }
      var space := space0;
      var go := true;
      for i := 0 to rounds
        invariant Running() && ring == old(ring) && space >= 0 && (go ==> consumer == Playing)
        invariant aborted ==> Overrun() && !go
        invariant history.playback.count == old(history.playback.count) + (space0 - space) && space <= space0
      {
        if go {
          go, space := ConsumerRound(space, repeat, cont, same, next, prebuffer);
        }
      }
    }

    /** One round of the inner loop, with any number of producer steps between its own; `go` says
        whether there is another one. If there are bytes and room for them, they are offered to the
        device. */
    method ConsumerRound(space: int, repeat: bool, cont: bool, same: bool, next: Option<File>, prebuffer: nat) returns (go: bool, left: int)
      requires !aborted && Running() && consumer == Playing && space >= 0
      modifies this, ring, ring.chunks, history
      ensures aborted ==> Overrun() && !go
      ensures Running() && ring == old(ring) && 0 <= left <= space && (go ==> consumer == Playing)
      ensures history.playback.count == old(history.playback.count) + (space - left)
      ensures go ==> |history.playback.calls| == |old(history.playback.calls)| + 1
      ensures space > 0 && old(ring.chunks[ring.ridx].filled) ==> |history.playback.calls| == |old(history.playback.calls)| + 1
    {
      hide Buffer.RingOk;
      go, left := false, space;
      if space == 0 {
        return;
      }
      var bytes := Obtain(repeat, cont, same, next, prebuffer);
      if bytes == [] {
        return;
      }
      var rc := WriteOut(bytes, space);
      if rc >= 0 {
        go, left := true, space - rc;
      }
    }

    /** The bytes at the read position, if there are any after some steps of the producer. */
    method Obtain(repeat: bool, cont: bool, same: bool, next: Option<File>, prebuffer: nat) returns (bytes: seq<byte>)
      requires !aborted && Running() && consumer == Playing
      modifies this, ring, ring.chunks, history`delivered, history`played, history`fails, history`delivery
      ensures Running() && ring == old(ring) && (aborted ==> Overrun() && bytes == [])
      ensures bytes != [] ==> consumer == Playing && ring.chunks[ring.ridx].filled && bytes == Offered(ring.Value())
      ensures old(ring.chunks[ring.ridx].filled) ==> bytes != []
    {
      var steps: nat := *;
      ProducerSteps(steps);
      bytes := ring.ReadSpace();
      FilledCount(ring.Value());
      if bytes == [] {
        var ended;
        bytes, ended := Recheck(repeat, cont, same, next, prebuffer);
      }
    }

    /** The recheck of the read position with the producer locked out, and what happens at the end of
        the file: it is handled exactly if it has been seen and there are no bytes. */
    method Recheck(repeat: bool, cont: bool, same: bool, next: Option<File>, prebuffer: nat) returns (bytes: seq<byte>, ended: bool)
      requires !aborted && Running() && consumer == Playing
      modifies this, ring, ring.chunks, history`delivered, history`played, history`fails, history`delivery
      ensures Running() && ring == old(ring) && (aborted ==> Overrun() && bytes == [])
      ensures bytes != [] ==> consumer == Playing && ring.chunks[ring.ridx].filled && bytes == Offered(ring.Value())
      ensures !ended ==> consumer == Playing && producer == Producing && SameFile() && (bytes == [] <==> ring.count == 0) && (bytes == [] ==> !input.value.eof)
      ensures ended ==> bytes == [] && AfterEof(old(input.value.file), repeat, cont, same, next, old(history.fails.opens))
    {
      LockProducer();
      bytes := ring.ReadSpace();
      FilledCount(ring.Value());
      ended := bytes == [] && input.value.eof;
      if ended {
        EverythingPlayed();
        HandleEof(repeat, cont, same, next, prebuffer);
      }
    }

    /** The device has taken everything that the decoder has delivered since the last reset. */
    ghost predicate AllPlayed()
      reads history
    {
      !history.delivery.late ==> history.played == history.delivered
    }

    lemma EverythingPlayed()
      requires Core() && ring.count == 0 && input.Some? && input.value.eof
      ensures AllPlayed()
    {
      if !history.delivery.late {
        NothingLeft(ring.Value());
      }
    }

    /** op_write takes part of the bytes at the read position, or fails; the producer goes on
        meanwhile. As many as it takes are consumed, and no others. */
    method WriteOut(bytes: seq<byte>, space: int) returns (rc: int)
      requires Running() && consumer == Playing && space > 0 && ring.chunks[ring.ridx].filled && bytes == Offered(ring.Value())
      modifies this`consumer, this`input, this`device, this`format, this`writer, ring, ring.chunks, history`delivery, history`delivered, history`playback, history`played, history`fails
      ensures Running() && ring == old(ring) && rc <= |bytes| && rc <= space
      ensures history.playback == OneMore(old(history.playback), bytes[..Least(|bytes|, space)], rc)
      ensures ring.taken == old(ring.taken) + bytes[..Count(rc)]
      ensures device == if rc < 0 then Opened(old(device), consumer == Playing) else old(device).(held := old(device.held) || rc > 0)
      ensures if rc >= 0 then consumer == Playing && history.fails == old(history.fails) else history.fails == DeviceAsked(old(history.fails), consumer == Playing)
    {
      hide Buffer.RingOk;
      var size := Least(|bytes|, space);
      var steps: nat := *;
      Meanwhile(bytes, steps);
      rc := OfferBytes(bytes, size);
      if rc < 0 {
        Reopen();
      }
    }

    /** op_write and buffer_consume. */
    method OfferBytes(bytes: seq<byte>, size: nat) returns (rc: int)
      requires Running() && consumer == Playing && ring.chunks[ring.ridx].filled && bytes == Offered(ring.Value()) && size <= |bytes|
      modifies this`device, ring, ring.chunks, history`playback, history`played
      ensures device == old(device).(held := old(device.held) || rc > 0)
      ensures Running() && rc <= size && history.playback == OneMore(old(history.playback), bytes[..size], rc)
      ensures ring.taken == old(ring.taken) + bytes[..Count(rc)]
    {
      hide Buffer.RingOk, Buffer.Region;
      OfferedPart(bytes, size);
      rc := OpWrite(size);
      if rc >= 0 {
        OfferedPart(bytes, rc);
        ConsumeBytes(bytes, rc);
      }
    }

    lemma OfferedPart(bytes: seq<byte>, n: nat)
      requires ring.Valid() && ring.chunks[ring.ridx].filled && bytes == Offered(ring.Value()) && n <= |bytes|
      ensures ring.ridx < ring.chunks.Length
      ensures var c := ring.chunks[ring.ridx]; c.l + n <= c.h <= |c.data| && Region(c.data, c.l, c.l + n) == bytes[..n]
    {
      var c := ring.chunks[ring.ridx];
      FilledCount(ring.Value());
      hide Buffer.RingOk;
      RegionSplit(c.data, c.l, c.l + n, c.h);
    }

    /** Producer steps while the consumer has bytes in hand. */
    method Meanwhile(ghost bytes: seq<byte>, steps: nat)
      requires Running() && ring.chunks[ring.ridx].filled && bytes == Offered(ring.Value())
      modifies this`writer, this`input, ring, ring.chunks, history`delivery, history`delivered
      ensures Running() && ring.chunks[ring.ridx].filled && bytes == Offered(ring.Value()) && ring.taken == old(ring.taken)
    {
      ProducerSteps(steps);
    }

    /** buffer_consume of bytes in hand that the device has just taken: they are still there, and the
        producer's region stays. */
    method ConsumeBytes(bytes: seq<byte>, n: nat)
      requires Devices() && Buffered() && Statuses() && InHand() && Ending()
      requires history.delivered == ring.given + InTransit(writer) && n <= |bytes| && history.played == ring.taken + bytes[..n]
      requires ring.chunks[ring.ridx].filled && bytes == Offered(ring.Value())
      modifies ring, ring.chunks
      ensures Running() && ring.taken == old(ring.taken) + bytes[..n]
    {
      ghost var c := ring.chunks[ring.ridx];
      BufferRuns.WriterStays(ring.Value(), writer, n);
      RegionSplit(c.data, c.l, c.l + n, c.h);
      ring.Consume(n);
    }

    /** The part of _consumer_handle_eof that takes up the next file. */
    method GoOn(file: File, play: bool) returns (ok: bool)
      requires Valid() && consumer == Playing
      modifies this`producer, this`consumer, this`input, this`device, this`format, ring, ring.chunks, history`delivered, history`played, history`fails
      ensures Valid() && ring == old(ring) && (ok ==> input.Some? && format == input.value.file.format)
      ensures ok == (consumer == Playing) && Started(!play, old(history.fails)) && (!play ==> producer == Idle)
      ensures producer != Unloaded ==> input.value.file == file
      ensures Kept(old(device), old(format), producer == Unloaded)
    {
      hide Buffer.RingOk;
      ok := false;
      ProducerUnload();
      input := Some(Input(file, false, false));
      producer := Idle;
      if play {
        ProducerPlay(None);
        if producer == Unloaded {
          ConsumerStop();
        } else {
          ok := ChangeFormat(false);
        }
      } else {
        ConsumerDrainAndStop();
      }
    }

    /** Nothing that the device holds is dropped, but where the next file could not be opened; and the
        device goes on without a break if it goes on with the same format. */
    ghost predicate Kept(d: Device, was: int, unopened: bool)
      reads this`consumer, this`device, this`format
    {
      device.drops == d.drops + (if unopened then 1 else 0) && (consumer == Playing && format == was ==> device == d)
    }

    method TakeUp(file: File, play: bool, rounds: nat)
      requires !aborted && Valid() && consumer == Playing
      modifies this`producer, this`consumer, this`input, this`device, this`format, this`aborted, ring, ring.chunks, history`delivered, history`played, history`fails, history`delivery
      ensures Valid() && Started(!play, old(history.fails)) && (!play ==> producer == Idle) && (producer != Unloaded ==> input.value.file == file)
      ensures consumer == Playing ==> Primed(old(history.delivery.calls), rounds)
      ensures aborted ==> Overrun()
      ensures Kept(old(device), old(format), producer == Unloaded)
    {
      hide Buffer.RingOk;
      var ok := GoOn(file, play);
      if ok {
        Prebuffer(rounds);
      }
    }

    /** What is to happen at the end of `file`, with `opens` failures to open something before it:
        a lost stream stops; a file that repeats begins anew, or stops; the next file is played if
        playing goes on and it can be opened, and waits otherwise. */
    ghost predicate AfterEof(file: File, repeat: bool, cont: bool, same: bool, next: Option<File>, opens: nat)
      reads this`producer, this`consumer, this`input, history`fails
    {
      if file.remote || (repeat && !cont) then consumer == Stopped && producer == Idle && input.Some? && input.value.file == file
      else if repeat then consumer == Playing && producer == Producing && input.Some? && input.value.file == file
      else if next.None? then consumer == Stopped && producer == Unloaded
      else if !cont || !same then consumer == Stopped && producer == Idle && input.Some? && input.value.file == next.value
      else if history.fails.opens > opens then consumer == Stopped && (producer == Unloaded || producer == Idle)
      else consumer == Playing && producer == Producing && input.Some? && input.value.file == next.value
    }

    /** The part of _consumer_handle_eof that repeats the file. */
    method Repeat(cont: bool)
      requires Valid() && consumer == Playing
      modifies this`producer, this`consumer, this`input, this`device, ring, ring.chunks, history`delivered, history`played, history`fails
      ensures Valid() && input.Some? && input.value.file == old(input.value.file) && ring.given == []
      ensures if cont then consumer == Playing && producer == Producing else consumer == Stopped && producer == Idle
      ensures device == if cont then old(device) else Closed(old(device))
    {
      hide Buffer.RingOk;
      if cont {
        var _ := IpSeek();
        ResetBuffer();
      } else {
        ProducerStop();
        ConsumerDrainAndStop();
      }
    }

    /** _consumer_handle_eof. All that was read of the file has been played. */
    method HandleEof(repeat: bool, cont: bool, same: bool, next: Option<File>, rounds: nat)
      requires !aborted && Valid() && consumer == Playing && input.value.eof && AllPlayed()
      modifies this, ring, ring.chunks, history`delivered, history`played, history`fails, history`delivery
      ensures aborted ==> Overrun()
      ensures Valid() && ring == old(ring) && AfterEof(old(input.value.file), repeat, cont, same, next, old(history.fails.opens))
      ensures repeat && cont && !old(input.value.file.remote) ==> ring.given == []
      ensures consumer == Playing && !repeat ==> Primed(old(history.delivery.calls), rounds)
      ensures Kept(old(device), old(format), next.Some? && producer == Unloaded)
    {
      hide Buffer.RingOk;
      if input.value.file.remote {
        ProducerStop();
        ConsumerDrainAndStop();
        return;
      }
      if repeat {
        Repeat(cont);
        return;
      }
      if next.Some? {
        TakeUp(next.value, cont && same, rounds);
      } else {
        ProducerUnload();
        ConsumerDrainAndStop();
      }
    }
  }

  /** Where a file does not fit: with a decoder that always delivers, the loop of _prebuffer comes to
      a full buffer below its limit and goes on to ask for 0 bytes. */
  method PrebufferOverruns(ring: Ring, limit: nat) returns (size: nat)
    requires ring.Valid() && limit > ring.chunks.Length
    modifies ring, ring.chunks
    ensures ring.Valid() && ring.count < limit && size == 0
  {
    size := ring.WriteSpace();
    while size != 0
      invariant ring.Valid() && (size == 0 <==> ring.count == ring.chunks.Length)
      invariant size != 0 ==> !ring.chunks[ring.widx].filled && size == CHUNK_SIZE - ring.chunks[ring.widx].h
      decreases ring.chunks.Length - ring.count
    {
      ring.Write(seq(size, i => 0));
      var _ := ring.Fill(size);
      size := ring.WriteSpace();
    }
  }

  /** Every run: commands and turns of the threads in any order, with any outcome. What the device has
      taken since the last reset of the buffer is what the decoder has delivered since then, as far
      as it has come. A run may end with the BUG_ON of ip_read, but only for a file that does not fit
      the buffer. */
  method Session(p: Player, steps: nat)
    requires p.Running() && !p.aborted
    modifies p, p.ring, p.ring.chunks, p.history
    ensures p.Running() && (p.aborted ==> p.Overrun())
    ensures p.history.played <= p.history.delivered
  {
    for i := 0 to steps
      invariant p.Running() && (p.ring == old(p.ring) || fresh(p.ring)) && (p.ring.chunks == old(p.ring.chunks) || fresh(p.ring.chunks))
      invariant p.aborted ==> p.Overrun()
    {
      if !p.aborted {
        Choose(p);
      }
    }
    OfferedNext(p.ring.Value());
  }

  method Choose(p: Player)
    requires p.Running() && !p.aborted
    modifies p, p.ring, p.ring.chunks, p.history
    ensures p.Running() && (p.ring == old(p.ring) || (fresh(p.ring) && fresh(p.ring.chunks)))
    ensures p.aborted ==> p.Overrun()
  {
    var step: int, file: File, some: bool, a: bool, b: bool, c: bool, n: nat, space: int := *, *, *, *, *, *, *, *;
    var next := if some then Some(file) else None;
    if step == 8 {
      p.ProducerStep();
    } else if step == 9 {
      p.ConsumerTurn(space, n, a, b, c, next, n);
    } else if !p.writer.Away? {
      // a command waits for the producer to leave its section
    } else if step == 0 {
      p.Stop();
    } else if step == 1 {
      p.Play(next, n);
    } else if step == 2 {
      p.Pause(a, next, n);
    } else if step == 3 {
      p.SetFile(file, n);
    } else if step == 4 {
      p.PlayFile(file, n);
    } else if step == 5 {
      var offset: real, pos: real, duration: real := *, *, *;
      var _ := p.Seek(next, offset, a, b, pos, duration);
    } else if step == 6 {
      p.SetOutput();
    } else if step == 7 {
      if n > 0 {
        p.SetBufferChunks(n);
      }
    }
  }
}
