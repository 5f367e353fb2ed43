/** The track cache of app/cache.c: the bytes that cache_close writes and read_cache reads. */
module Cache {
  import opened Common

  type Bytes = seq<byte>

  datatype Pair = Pair(key: Bytes, val: Bytes)

  /** What the cache keeps of a track_info. */
  datatype Info = Info(filename: Bytes, codec: Option<Bytes>, profile: Option<Bytes>, comments: seq<Pair>,
    playCount: int, mtime: int, duration: int, bitrate: int, bpm: int)

  /** Offsets in struct cache_entry. */
  const ENTRY := 80
  const RESERVED := 52
  /** "CTC", the version, and the flags of a little-endian machine with 64-bit longs. */
  const HEADER: Bytes := [67, 84, 67, 0x0d, 0, 0, 0, 1]

  /* Numbers in memory. */

  function Pow(n: nat): (r: nat)
    ensures r > 0
  {
    if n == 0 then 1 else 256 * Pow(n - 1)
  }

  function Put(v: nat, n: nat): (r: Bytes)
    ensures |r| == n
  {
    if n == 0 then [] else [v % 256] + Put(v / 256, n - 1)
  }

  function Get(s: Bytes): (r: nat)
    ensures r < Pow(|s|)
  {
    if s == [] then 0 else s[0] + 256 * Get(s[1..])
  }

  predicate Fits(v: int, n: nat) {
    0 <= 2 * v + Pow(n) && 2 * v < Pow(n)
  }

  /** The numbers that fit are those of the fields of four and eight bytes, all of them. */
  lemma FieldRange(v: int)
    ensures Fits(v, 4) <==> -0x8000_0000 <= v < 0x8000_0000
    ensures Fits(v, 8) <==> -0x8000_0000_0000_0000 <= v < 0x8000_0000_0000_0000
  {
    assert Pow(2) == 0x1_0000 && Pow(4) == 0x1_0000_0000;
    assert Pow(6) == 0x1_0000_0000_0000 && Pow(8) == 0x1_0000_0000_0000_0000;
  }

  /** Two's complement, cut off at `n` bytes. */
  function PutSigned(v: int, n: nat): (r: Bytes)
    ensures |r| == n
  {
    Put(v % Pow(n), n)
  }

  function GetSigned(s: Bytes): int {
    var u := Get(s);
    if 2 * u >= Pow(|s|) then u - Pow(|s|) else u
  }

  lemma {:induction false} GetPut(v: nat, n: nat)
    requires v < Pow(n)
    ensures Get(Put(v, n)) == v
  {
    if n > 0 {
      GetPut(v / 256, n - 1);
    }
  }

  lemma Times(q: int, p: int)
    requires p >= 0
    ensures (q >= 0 ==> q * p >= 0) && (q >= 1 ==> q * p >= p) && (q <= -1 ==> q * p <= -p) && (q <= -2 ==> q * p <= -2 * p)
  {
  }

  lemma ModSmall(v: int, p: int)
    requires -p <= v < p
    ensures v % p == if v < 0 then v + p else v
  {
    var q, r := v / p, v % p;
    var m := q * p;
    assert v == m + r;
    Times(q, p);
    assert q == if v < 0 then -1 else 0;
  }

  lemma GetPutSigned(v: int, n: nat)
    requires Fits(v, n)
    ensures GetSigned(PutSigned(v, n)) == v
  {
    ModSmall(v, Pow(n));
    GetPut(v % Pow(n), n);
  }

  /* Strings. */

  function Or(s: Option<Bytes>): Bytes {
    if s.Some? then s.value else []
  }

  function PairStrings(kv: seq<Pair>): (r: seq<Bytes>)
    ensures |r| == 2 * |kv|
  {
    if kv == [] then [] else [kv[0].key, kv[0].val] + PairStrings(kv[1..])
  }

  function Strings(t: Info): seq<Bytes> {
    [t.filename, Or(t.codec), Or(t.profile)] + PairStrings(t.comments)
  }

  function Terminated(strs: seq<Bytes>): Bytes {
    if strs == [] then [] else strs[0] + [0] + Terminated(strs[1..])
  }

  predicate NoNul(s: Bytes) {
    0 !in s
  }

  predicate AllNoNul(strs: seq<Bytes>) {
    forall i :: 0 <= i < |strs| ==> NoNul(strs[i])
  }

  function Nuls(s: Bytes): nat {
    if s == [] then 0 else (if s[0] == 0 then 1 else 0) + Nuls(s[1..])
  }

  /* The file. */

  function Fixed(t: Info, size: nat): (r: Bytes)
    ensures |r| == ENTRY
  {
    Put(size, 4) + (PutSigned(t.playCount, 4) + (PutSigned(t.mtime, 8) + (PutSigned(t.duration, 4) +
    (PutSigned(t.bitrate, 4) + (PutSigned(t.bpm, 4) + Fill(0xff, RESERVED))))))
  }

  function Entry(t: Info): (r: Bytes)
    ensures |r| == ENTRY + |Terminated(Strings(t))|
  {
    var strs := Terminated(Strings(t));
    Fixed(t, ENTRY + |strs|) + strs
  }

  /** ALIGN. */
  function Align(n: nat): (r: nat)
    ensures r % 8 == 0 && n <= r < n + 8
  {
    (n + 7) / 8 * 8
  }

  function Fill(b: byte, n: nat): (r: Bytes)
    ensures |r| == n
  {
    seq(n, i => b)
  }

  /** Entries one after the other; every one but the last is padded. */
  function Layout(entries: seq<Bytes>): (r: Bytes)
    ensures |r| >= 8
  {
    if entries == [] then HEADER
    else
      var before := Layout(entries[..|entries| - 1]);
      before + Fill(0, Align(|before|) - |before|) + entries[|entries| - 1]
  }

  function Entries(ts: seq<Info>): (r: seq<Bytes>)
    ensures |r| == |ts| && forall i :: 0 <= i < |ts| ==> r[i] == Entry(ts[i])
  {
    seq(|ts|, i requires 0 <= i < |ts| => Entry(ts[i]))
  }

  /** The file for a list of tracks. */
  function Image(ts: seq<Info>): Bytes {
    Layout(Entries(ts))
  }

  /* Reading, as functions of the mapped file. Bytes behind its end read as 0. */

  function At(buf: Bytes, p: nat): byte {
    if p < |buf| then buf[p] else 0
  }

  /** The string at `p`. */
  function StringAt(buf: Bytes, p: nat): (r: Bytes)
    decreases |buf| - p
  {
    if p >= |buf| || buf[p] == 0 then [] else [buf[p]] + StringAt(buf, p + 1)
  }

  function SizeAt(buf: Bytes, o: nat): nat
    requires o + ENTRY <= |buf|
  {
    Get(buf[o..o + 4])
  }

  function Optional(s: Bytes): Option<Bytes> {
    if s == [] then None else Some(s)
  }

  function PairsAt(buf: Bytes, p: nat, n: int): seq<Pair>
    decreases n
  {
    if n <= 0 then []
    else
      var key := StringAt(buf, p);
      var val := StringAt(buf, p + |key| + 1);
      [Pair(key, val)] + PairsAt(buf, p + |key| + 1 + |val| + 1, n - 1)
  }

  predicate ValidEntry(buf: Bytes, o: nat)
    requires o <= |buf|
  {
    && o + ENTRY <= |buf| && ENTRY <= SizeAt(buf, o) <= |buf| - o
    && Nuls(buf[o + ENTRY..o + SizeAt(buf, o)]) % 2 == 1
    && buf[o + SizeAt(buf, o) - 1] == 0
  }

  /** The number of key/value pairs behind the first three strings, with C division: -1 for an entry
      with a single string. */
  function PairCount(nuls: nat): int {
    if nuls >= 3 then (nuls - 3) / 2 else -((3 - nuls) / 2)
  }

  datatype Texts = Texts(filename: Bytes, codec: Bytes, profile: Bytes, comments: seq<Pair>)

  /** The strings from `p` on, with `n` pairs. */
  function TextsAt(buf: Bytes, p: nat, n: int): Texts {
    var filename := StringAt(buf, p);
    var q := p + |filename| + 1;
    var codec := StringAt(buf, q);
    var r := q + |codec| + 1;
    var profile := StringAt(buf, r);
    Texts(filename, codec, profile, PairsAt(buf, r + |profile| + 1, n))
  }

  function InfoAt(buf: Bytes, o: nat): Info
    requires o <= |buf| && ValidEntry(buf, o)
  {
    var x := TextsAt(buf, o + ENTRY, PairCount(Nuls(buf[o + ENTRY..o + SizeAt(buf, o)])));
    Info(x.filename, Optional(x.codec), Optional(x.profile), x.comments,
      GetSigned(buf[o + 4..o + 8]), GetSigned(buf[o + 8..o + 16]), GetSigned(buf[o + 16..o + 20]),
      GetSigned(buf[o + 20..o + 24]), GetSigned(buf[o + 24..o + 28]))
  }

  function Prepend(t: Info, rest: Option<seq<Info>>): Option<seq<Info>> {
    if rest.None? then None else Some([t] + rest.value)
  }

  /** The entries from offset `o` on, or None when one of them is corrupt. */
  function EntriesFrom(buf: Bytes, o: nat): Option<seq<Info>>
    decreases |buf| - o
  {
    if o >= |buf| then Some([])
    else if !ValidEntry(buf, o) then None
    else Prepend(InfoAt(buf, o), EntriesFrom(buf, o + Align(SizeAt(buf, o))))
  }

  function ReadImage(buf: Bytes): Option<seq<Info>> {
    if |buf| < 8 || buf[..8] != HEADER then None else EntriesFrom(buf, 8)
  }

  /* The round trip. */

  predicate Storable(t: Info) {
    && AllNoNul(Strings(t))
    && Fits(t.playCount, 4) && Fits(t.mtime, 8) && Fits(t.duration, 4) && Fits(t.bitrate, 4) && Fits(t.bpm, 4)
  }

  /** What is left of a track: an empty codec or profile is read back as absent. */
  function Stored(t: Info): Info {
    t.(codec := Optional(Or(t.codec)), profile := Optional(Or(t.profile)))
  }

  function AllStored(ts: seq<Info>): (r: seq<Info>)
    ensures |r| == |ts| && forall i :: 0 <= i < |ts| ==> r[i] == Stored(ts[i])
  {
    if ts == [] then [] else [Stored(ts[0])] + AllStored(ts[1..])
  }

  /** `part` stands in `buf` at `o`. */
  ghost predicate HasAt(buf: Bytes, o: nat, part: Bytes) {
    o + |part| <= |buf| && forall i :: 0 <= i < |part| ==> buf[o + i] == part[i]
  }

  lemma HasBoth(buf: Bytes, o: nat, a: Bytes, b: Bytes)
    requires HasAt(buf, o, a + b)
    ensures HasAt(buf, o, a) && HasAt(buf, o + |a|, b)
  {
    forall i | 0 <= i < |a| ensures buf[o + i] == a[i] {
      assert (a + b)[i] == a[i];
    }
    forall i | 0 <= i < |b| ensures buf[o + |a| + i] == b[i] {
      assert (a + b)[|a| + i] == b[i];
    }
  }

  lemma {:induction false} StringThere(buf: Bytes, o: nat, s: Bytes)
    requires HasAt(buf, o, s + [0]) && NoNul(s)
    ensures StringAt(buf, o) == s
    decreases |s|
  {
    if s == [] {
      assert buf[o + 0] == (s + [0])[0];
    } else {
      FirstThere(buf, o, s);
      StringThere(buf, o + 1, s[1..]);
    }
  }

  lemma FirstThere(buf: Bytes, o: nat, s: Bytes)
    requires HasAt(buf, o, s + [0]) && NoNul(s) && s != []
    ensures o < |buf| && buf[o] == s[0] != 0 && HasAt(buf, o + 1, s[1..] + [0]) && NoNul(s[1..]) && s == [s[0]] + s[1..]
  {
    assert s + [0] == [s[0]] + (s[1..] + [0]);
    HasBoth(buf, o, [s[0]], s[1..] + [0]);
    assert buf[o + 0] == [s[0]][0];
    assert s[0] in s;
  }

  lemma NextString(buf: Bytes, o: nat, strs: seq<Bytes>)
    requires HasAt(buf, o, Terminated(strs)) && AllNoNul(strs) && strs != []
    ensures StringAt(buf, o) == strs[0] && HasAt(buf, o + |strs[0]| + 1, Terminated(strs[1..])) && AllNoNul(strs[1..])
  {
    HasBoth(buf, o, strs[0] + [0], Terminated(strs[1..]));
    assert NoNul(strs[0]);
    StringThere(buf, o, strs[0]);
  }

  lemma {:induction false} PairsThere(buf: Bytes, o: nat, kv: seq<Pair>)
    requires HasAt(buf, o, Terminated(PairStrings(kv))) && AllNoNul(PairStrings(kv))
    ensures PairsAt(buf, o, |kv|) == kv
    decreases |kv|
  {
    if kv != [] {
      var q := o + |kv[0].key| + 1;
      FirstPair(buf, o, kv);
      PairStep(buf, o, |kv|);
      PairsThere(buf, q + |kv[0].val| + 1, kv[1..]);
      assert [Pair(kv[0].key, kv[0].val)] + kv[1..] == kv;
    }
  }

  lemma PairStep(buf: Bytes, o: nat, n: nat)
    requires n > 0
    ensures var q := o + |StringAt(buf, o)| + 1;
      PairsAt(buf, o, n) == [Pair(StringAt(buf, o), StringAt(buf, q))] + PairsAt(buf, q + |StringAt(buf, q)| + 1, n - 1)
  {
  }

  lemma FirstPair(buf: Bytes, o: nat, kv: seq<Pair>)
    requires HasAt(buf, o, Terminated(PairStrings(kv))) && AllNoNul(PairStrings(kv)) && kv != []
    ensures var q := o + |kv[0].key| + 1; var r := q + |kv[0].val| + 1;
      && StringAt(buf, o) == kv[0].key && StringAt(buf, q) == kv[0].val
      && HasAt(buf, r, Terminated(PairStrings(kv[1..]))) && AllNoNul(PairStrings(kv[1..]))
  {
    var strs := PairStrings(kv);
    NextString(buf, o, strs);
    NextString(buf, o + |strs[0]| + 1, strs[1..]);
    assert strs[1..][1..] == PairStrings(kv[1..]);
  }

  lemma {:induction false} NulsOfBoth(a: Bytes, b: Bytes)
    ensures Nuls(a + b) == Nuls(a) + Nuls(b)
  {
    if a == [] {
      assert a + b == b;
    } else {
      NulsOfBoth(a[1..], b);
      assert (a + b)[1..] == a[1..] + b;
    }
  }

  lemma {:induction false} NoNuls(s: Bytes)
    requires NoNul(s)
    ensures Nuls(s) == 0
  {
    if s != [] {
      assert s[0] in s;
      NoNuls(s[1..]);
    }
  }

  lemma {:induction false} NulsOfStrings(strs: seq<Bytes>)
    requires AllNoNul(strs)
    ensures Nuls(Terminated(strs)) == |strs|
    ensures strs != [] ==> Terminated(strs) != [] && Terminated(strs)[|Terminated(strs)| - 1] == 0
  {
    if strs != [] {
      var rest := Terminated(strs[1..]);
      NulsOfBoth(strs[0] + [0], rest);
      NulsOfBoth(strs[0], [0]);
      assert NoNul(strs[0]);
      NoNuls(strs[0]);
      assert Nuls([0]) == 1 + Nuls([]);
      NulsOfStrings(strs[1..]);
    }
  }

  lemma FieldThere(buf: Bytes, o: nat, v: int, n: nat, rest: Bytes)
    requires HasAt(buf, o, PutSigned(v, n) + rest) && Fits(v, n)
    ensures GetSigned(buf[o..o + n]) == v && HasAt(buf, o + n, rest)
  {
    HasBoth(buf, o, PutSigned(v, n), rest);
    assert buf[o..o + n] == PutSigned(v, n);
    GetPutSigned(v, n);
  }

  lemma FieldsThere(buf: Bytes, o: nat, t: Info, size: nat)
    requires HasAt(buf, o, Fixed(t, size)) && Storable(t) && size < Pow(4)
    ensures SizeAt(buf, o) == size
    ensures GetSigned(buf[o + 4..o + 8]) == t.playCount && GetSigned(buf[o + 8..o + 16]) == t.mtime
    ensures GetSigned(buf[o + 16..o + 20]) == t.duration && GetSigned(buf[o + 20..o + 24]) == t.bitrate
    ensures GetSigned(buf[o + 24..o + 28]) == t.bpm
  {
    var r6 := Fill(0xff, RESERVED);
    var r5 := PutSigned(t.bpm, 4) + r6;
    var r4 := PutSigned(t.bitrate, 4) + r5;
    var r3 := PutSigned(t.duration, 4) + r4;
    var r2 := PutSigned(t.mtime, 8) + r3;
    var r1 := PutSigned(t.playCount, 4) + r2;
    HasBoth(buf, o, Put(size, 4), r1);
    assert buf[o..o + 4] == Put(size, 4);
    GetPut(size, 4);
    FieldThere(buf, o + 4, t.playCount, 4, r2);
    FieldThere(buf, o + 8, t.mtime, 8, r3);
    FieldThere(buf, o + 16, t.duration, 4, r4);
    FieldThere(buf, o + 20, t.bitrate, 4, r5);
    FieldThere(buf, o + 24, t.bpm, 4, r6);
  }

  lemma StringsThere(buf: Bytes, o: nat, t: Info)
    requires HasAt(buf, o, Terminated(Strings(t))) && AllNoNul(Strings(t))
    ensures TextsAt(buf, o, |t.comments|) == Texts(t.filename, Or(t.codec), Or(t.profile), t.comments)
  {
    var strs := Strings(t);
    NextString(buf, o, strs);
    var q := o + |strs[0]| + 1;
    NextString(buf, q, strs[1..]);
    var r := q + |strs[1]| + 1;
    assert strs[1..][1..] == strs[2..];
    NextString(buf, r, strs[2..]);
    assert strs[2..][1..] == PairStrings(t.comments);
    PairsThere(buf, r + |strs[2]| + 1, t.comments);
  }

  lemma StringsValid(buf: Bytes, o: nat, strs: seq<Bytes>)
    requires HasAt(buf, o, Terminated(strs)) && AllNoNul(strs) && strs != []
    ensures var n := |Terminated(strs)|; n > 0 && Nuls(buf[o..o + n]) == |strs| && buf[o + n - 1] == 0
  {
    var all := Terminated(strs);
    NulsOfStrings(strs);
    assert buf[o..o + |all|] == all;
    assert buf[o + (|all| - 1)] == all[|all| - 1];
  }

  /** An entry reads back wherever it stands. */
  lemma EntryThere(buf: Bytes, o: nat, t: Info)
    requires HasAt(buf, o, Entry(t)) && Storable(t) && |Entry(t)| < Pow(4)
    ensures ValidEntry(buf, o) && SizeAt(buf, o) == |Entry(t)| && InfoAt(buf, o) == Stored(t)
  {
    EntryParts(buf, o, t);
    FieldsThere(buf, o, t, |Entry(t)|);
    PartsThere(buf, o, t, |Entry(t)|);
  }

  lemma PartsThere(buf: Bytes, o: nat, t: Info, size: nat)
    requires o + ENTRY <= |buf| && HasAt(buf, o + ENTRY, Terminated(Strings(t)))
    requires Storable(t) && SizeAt(buf, o) == size == ENTRY + |Terminated(Strings(t))|
    requires GetSigned(buf[o + 4..o + 8]) == t.playCount && GetSigned(buf[o + 8..o + 16]) == t.mtime
    requires GetSigned(buf[o + 16..o + 20]) == t.duration && GetSigned(buf[o + 20..o + 24]) == t.bitrate
    requires GetSigned(buf[o + 24..o + 28]) == t.bpm
    ensures ValidEntry(buf, o) && InfoAt(buf, o) == Stored(t)
  {
    PartsValid(buf, o, size, Strings(t));
    StringsThere(buf, o + ENTRY, t);
    Combined(buf, o, t, size);
  }

  lemma Combined(buf: Bytes, o: nat, t: Info, size: nat)
    requires o + ENTRY <= |buf| && ValidEntry(buf, o) && SizeAt(buf, o) == size && Nuls(buf[o + ENTRY..o + size]) == 3 + 2 * |t.comments|
    requires GetSigned(buf[o + 4..o + 8]) == t.playCount && GetSigned(buf[o + 8..o + 16]) == t.mtime
    requires GetSigned(buf[o + 16..o + 20]) == t.duration && GetSigned(buf[o + 20..o + 24]) == t.bitrate
    requires GetSigned(buf[o + 24..o + 28]) == t.bpm
    requires TextsAt(buf, o + ENTRY, |t.comments|) == Texts(t.filename, Or(t.codec), Or(t.profile), t.comments)
    ensures InfoAt(buf, o) == Stored(t)
  {
  }

  lemma PartsValid(buf: Bytes, o: nat, size: nat, strs: seq<Bytes>)
    requires o + ENTRY <= |buf| && SizeAt(buf, o) == size == ENTRY + |Terminated(strs)| && HasAt(buf, o + ENTRY, Terminated(strs))
    requires AllNoNul(strs) && |strs| % 2 == 1
    ensures ValidEntry(buf, o) && Nuls(buf[o + ENTRY..o + size]) == |strs|
  {
    StringsValid(buf, o + ENTRY, strs);
  }

  lemma EntryParts(buf: Bytes, o: nat, t: Info)
    requires HasAt(buf, o, Entry(t))
    ensures HasAt(buf, o, Fixed(t, |Entry(t)|)) && HasAt(buf, o + ENTRY, Terminated(Strings(t)))
  {
    var all := Terminated(Strings(t));
    HasBoth(buf, o, Fixed(t, ENTRY + |all|), all);
  }

  /** Where entry `k` starts. */
  function Start(es: seq<Bytes>, k: nat): (r: nat)
    requires k <= |es|
    ensures r % 8 == 0
  {
    Align(|Layout(es[..k])|)
  }

  lemma LayoutStep(es: seq<Bytes>, k: nat)
    requires k < |es|
    ensures var before := Layout(es[..k]);
            Layout(es[..k + 1]) == before + Fill(0, Align(|before|) - |before|) + es[k]
  {
    assert es[..k + 1][..k] == es[..k];
  }

  lemma {:induction false} LayoutGrows(es: seq<Bytes>, k: nat)
    requires k <= |es|
    ensures HasAt(Layout(es), 0, Layout(es[..k]))
    decreases |es| - k
  {
    if k == |es| {
      assert es[..k] == es;
    } else {
      LayoutStep(es, k);
      LayoutGrows(es, k + 1);
      var before := Layout(es[..k]);
      HasThree(Layout(es), before, Fill(0, Align(|before|) - |before|), es[k]);
    }
  }

  lemma HasThree(buf: Bytes, a: Bytes, b: Bytes, c: Bytes)
    requires HasAt(buf, 0, a + b + c)
    ensures HasAt(buf, 0, a) && HasAt(buf, |a| + |b|, c)
  {
    HasBoth(buf, 0, a + b, c);
    HasBoth(buf, 0, a, b);
  }

  lemma AlignSum(a: nat, n: nat)
    requires a % 8 == 0
    ensures Align(a + n) == a + Align(n)
  {
  }

  lemma EntryAtStart(es: seq<Bytes>, k: nat)
    requires k < |es|
    ensures HasAt(Layout(es), Start(es, k), es[k])
  {
    LayoutGrows(es, k + 1);
    LayoutStep(es, k);
    Placed(Layout(es), Layout(es[..k + 1]), Layout(es[..k]), es[k], Start(es, k));
  }

  lemma Placed(buf: Bytes, upto: Bytes, before: Bytes, entry: Bytes, o: nat)
    requires HasAt(buf, 0, upto) && upto == before + Fill(0, Align(|before|) - |before|) + entry && o == Align(|before|)
    ensures HasAt(buf, o, entry)
  {
    HasThree(buf, before, Fill(0, Align(|before|) - |before|), entry);
  }

  lemma StartNext(es: seq<Bytes>, k: nat)
    requires k < |es|
    ensures Start(es, k + 1) == Start(es, k) + Align(|es[k]|)
  {
    LayoutStep(es, k);
    AlignSum(Start(es, k), |es[k]|);
  }

  lemma {:induction false} ReadsFrom(ts: seq<Info>, es: seq<Bytes>, buf: Bytes, k: nat)
    requires k <= |ts| && (forall i :: 0 <= i < |ts| ==> Storable(ts[i])) && |buf| < Pow(4)
    requires |es| == |ts| && (forall i :: 0 <= i < |ts| ==> es[i] == Entry(ts[i])) && buf == Layout(es)
    ensures EntriesFrom(buf, Start(es, k)) == Some(AllStored(ts[k..]))
    decreases |ts| - k
  {
    if k == |ts| {
      assert es[..k] == es;
    } else {
      EntryAtStart(es, k);
      StartNext(es, k);
      ReadsFrom(ts, es, buf, k + 1);
      ReadsOne(buf, Start(es, k), Start(es, k + 1), ts[k], AllStored(ts[k + 1..]));
      assert ts[k..][0] == ts[k] && ts[k..][1..] == ts[k + 1..];
    }
  }

  lemma ReadsOne(buf: Bytes, o: nat, next: nat, t: Info, rest: seq<Info>)
    requires HasAt(buf, o, Entry(t)) && Storable(t) && |buf| < Pow(4)
    requires next == o + Align(|Entry(t)|) && EntriesFrom(buf, next) == Some(rest)
    ensures EntriesFrom(buf, o) == Some([Stored(t)] + rest)
  {
    EntryThere(buf, o, t);
    EntriesStep(buf, o, next);
  }

  lemma {:induction false} EntriesStep(buf: Bytes, o: nat, next: nat)
    requires o < |buf| && ValidEntry(buf, o) && next == o + Align(SizeAt(buf, o))
    ensures EntriesFrom(buf, o) == Prepend(InfoAt(buf, o), EntriesFrom(buf, next))
  {
    hide InfoAt, Align;
    assert EntriesFrom(buf, o) == Prepend(InfoAt(buf, o), EntriesFrom(buf, o + Align(SizeAt(buf, o))));
  }

  /** Reading what was written gives back every track, in order. */
  lemma RoundTrip(ts: seq<Info>)
    requires (forall i :: 0 <= i < |ts| ==> Storable(ts[i])) && |Image(ts)| < Pow(4)
    ensures ReadImage(Image(ts)) == Some(AllStored(ts))
  {
    var es := Entries(ts);
    ReadsFrom(ts, es, Image(ts), 0);
    LayoutGrows(es, 0);
    assert es[..0] == [] && ts[0..] == ts;
    assert Image(ts)[..8] == HEADER;
  }

  lemma SameEntry(t: Info)
    ensures Entry(Stored(t)) == Entry(t)
  {
    assert Strings(Stored(t)) == Strings(t);
  }

  /** Nothing else is lost: the tracks read back give the same file. */
  lemma SameImage(ts: seq<Info>)
    ensures Image(AllStored(ts)) == Image(ts)
  {
    var ss := AllStored(ts);
    forall i | 0 <= i < |ts| ensures Entry(ss[i]) == Entry(ts[i]) {
      SameEntry(ts[i]);
    }
    assert Entries(ss) == Entries(ts);
  }

  /* Which accepted entries can be decoded. */

  ghost predicate PairsInside(buf: Bytes, p: nat, n: int, e: nat)
    decreases n
  {
    if n <= 0 then p <= e
    else
      var q := p + |StringAt(buf, p)| + 1;
      p < e && q < e && PairsInside(buf, q + |StringAt(buf, q)| + 1, n - 1, e)
  }

  /** Every string that cache_entry_to_ti reads starts and ends before `e`, and there is room for the
      pair that ends the list. */
  ghost predicate DecodesInside(buf: Bytes, p: nat, n: int, e: nat) {
    var q := p + |StringAt(buf, p)| + 1;
    var r := q + |StringAt(buf, q)| + 1;
    n >= 0 && p < e && q < e && r < e && PairsInside(buf, r + |StringAt(buf, r)| + 1, n, e)
  }

  /** Reading a string uses up one NUL. */
  lemma {:induction false} NextInside(buf: Bytes, p: nat, e: nat)
    requires p <= e <= |buf| && Nuls(buf[p..e]) > 0
    ensures p < e && p + |StringAt(buf, p)| + 1 <= e && Nuls(buf[p + |StringAt(buf, p)| + 1..e]) == Nuls(buf[p..e]) - 1
    decreases e - p
  {
    assert buf[p..e][1..] == buf[p + 1..e];
    if buf[p] != 0 {
      NextInside(buf, p + 1, e);
    }
  }

  lemma {:induction false} PairsStayInside(buf: Bytes, p: nat, n: nat, e: nat)
    requires p <= e <= |buf| && Nuls(buf[p..e]) == 2 * n
    ensures PairsInside(buf, p, n, e)
    decreases n
  {
    if n > 0 {
      NextInside(buf, p, e);
      var q := p + |StringAt(buf, p)| + 1;
      NextInside(buf, q, e);
      PairsStayInside(buf, q + |StringAt(buf, q)| + 1, n - 1, e);
    }
  }

  /** Decoding an accepted entry stays inside it exactly from three strings on; valid_cache_entry
      lets an entry with a single one through. */
  lemma DecodingStaysInside(buf: Bytes, o: nat)
    requires o <= |buf| && ValidEntry(buf, o)
    ensures var p, e := o + ENTRY, o + SizeAt(buf, o); var nuls := Nuls(buf[p..e]);
      DecodesInside(buf, p, PairCount(nuls), e) <==> nuls >= 3
  {
    var p, e := o + ENTRY, o + SizeAt(buf, o);
    var nuls := Nuls(buf[p..e]);
    if nuls >= 3 {
      ThreeInside(buf, p, e, PairCount(nuls));
    }
  }

  /** Any file name as the only string makes such an entry: it is accepted, and decoding leaves it. */
  lemma SingleString(t: Info, buf: Bytes)
    requires Storable(t) && ENTRY + |t.filename| + 1 < Pow(4)
    requires buf == Fixed(t, ENTRY + |t.filename| + 1) + (t.filename + [0])
    ensures ValidEntry(buf, 0) && SizeAt(buf, 0) == |buf|
    ensures Nuls(buf[ENTRY..|buf|]) == 1 && PairCount(1) == -1 && !DecodesInside(buf, ENTRY, PairCount(1), |buf|)
  {
    assert Strings(t)[0] == t.filename;
    HasBoth(buf, 0, Fixed(t, |buf|), t.filename + [0]);
    FieldsThere(buf, 0, t, |buf|);
    SingleAccepted(buf, t.filename);
    DecodingStaysInside(buf, 0);
  }

  lemma SingleAccepted(buf: Bytes, name: Bytes)
    requires |buf| == ENTRY + |name| + 1 && SizeAt(buf, 0) == |buf| && HasAt(buf, ENTRY, name + [0]) && NoNul(name)
    ensures ValidEntry(buf, 0) && Nuls(buf[ENTRY..|buf|]) == 1
  {
    var strs := [name];
    assert Terminated(strs) == name + [0] && strs[0] == name;
    PartsValid(buf, 0, |buf|, strs);
  }

  lemma ThreeInside(buf: Bytes, p: nat, e: nat, n: nat)
    requires p <= e <= |buf| && Nuls(buf[p..e]) == 3 + 2 * n
    ensures DecodesInside(buf, p, n, e)
  {
    hide Nuls, StringAt, PairsInside;
    NextInside(buf, p, e);
    var q := p + |StringAt(buf, p)| + 1;
    NextInside(buf, q, e);
    var r := q + |StringAt(buf, q)| + 1;
    NextInside(buf, r, e);
    PairsStayInside(buf, r + |StringAt(buf, r)| + 1, n, e);
  }

  /* Writing. */

  /** The output file and the buffer in front of it. */
  class Output {
    var file: Bytes
    var buf: Bytes
    var alloc: nat

    /** The buffer is allocated in steps of 64 bytes, with room for a NUL behind what is in it. */
    predicate Room()
      reads this
    {
      alloc % 64 == 0 && if alloc == 0 then buf == [] else |buf| < alloc
    }

    /** gbuf_avail. */
    function Avail(): nat
      requires Room()
      reads this
    {
      if alloc == 0 then 0 else alloc - |buf| - 1
    }

    constructor ()
      ensures file == [] && buf == [] && alloc == 0
    {
      file, buf, alloc := [], [], 0;
    }

    /** gbuf_grow. */
    method Grow(more: nat)
      requires Room()
      modifies this`alloc
      ensures Room() && alloc > |buf| + more && (old(alloc) > |buf| + more ==> alloc == old(alloc))
    {
      var need := (|buf| + more + 1 + 63) / 64 * 64;
      if need > alloc {
        alloc := need;
      }
    }

    /** gbuf_add_bytes and gbuf_set. */
    method AddBytes(data: Bytes)
      requires Room()
      modifies this`buf, this`alloc
      ensures Room() && buf == old(buf) + data && (old(alloc) > |buf| ==> alloc == old(alloc))
    {
      Grow(|data|);
      buf := buf + data;
    }

    /** flush_buffer. */
    method Flush()
      requires Room()
      modifies this`buf, this`file
      ensures Room() && buf == [] && file == old(file + buf)
    {
      if |buf| > 0 {
        file := file + buf;
        buf := [];
      }
    }

    /** write_ti. The buffer goes to the file exactly if the entry does not fit behind it, so that it
        only grows for an entry that is larger than all of it. */
    method WriteTrack(t: Info, offset: nat) returns (next: nat)
      requires offset == |file + buf| && Room()
      modifies this
      ensures var need := Align(offset) - offset + |Entry(t)|;
              Room() && file == (if old(Avail()) < need then old(file + buf) else old(file)) && (old(alloc) > need ==> alloc == old(alloc))
      ensures file + buf == old(file + buf) + Fill(0, Align(offset) - offset) + Entry(t)
      ensures next == |file + buf|
    {
      var size := EntrySize(t);
      var pad := Align(offset) - offset;
      if Avail() < pad + size {
        Flush();
        assert file + buf == file;
      }
      if pad > 0 {
        Pad(pad);
      } else {
        assert file + buf + Fill(0, pad) == file + buf;
      }
      Assoc(file, buf, Entry(t));
      AddEntry(t, size);
      next := offset + pad + size;
    }

    method Pad(pad: nat)
      requires Room()
      modifies this`buf, this`alloc
      ensures Room() && buf == old(buf) + Fill(0, pad) && file + buf == old(file + buf) + Fill(0, pad) && (old(alloc) > |buf| ==> alloc == old(alloc))
    {
      Assoc(file, buf, Fill(0, pad));
      AddBytes(Fill(0, pad));
    }

    method AddEntry(t: Info, size: nat)
      requires size == |Entry(t)| && Room()
      modifies this`buf, this`alloc
      ensures Room() && buf == old(buf) + Entry(t) && (old(alloc) > |buf| ==> alloc == old(alloc))
    {
      ghost var a, b, c := t.filename + [0], Or(t.codec) + [0], Or(t.profile) + [0];
      ghost var rest := Terminated(PairStrings(t.comments));
      AddBytes(Fixed(t, size));
      AddBytes(t.filename + [0]);
      AddBytes(Or(t.codec) + [0]);
      AddBytes(Or(t.profile) + [0]);
      AddPairs(t.comments);
      WholeEntry(t, size);
      Regroup(old(buf), Fixed(t, size), a, b, c, rest);
    }

    method AddPairs(kv: seq<Pair>)
      requires Room()
      modifies this`buf, this`alloc
      ensures Room() && buf == old(buf) + Terminated(PairStrings(kv)) && (old(alloc) > |buf| ==> alloc == old(alloc))
    {
      for i := 0 to |kv|
        invariant Room() && (old(alloc) > |buf| ==> alloc == old(alloc))
        invariant buf + Terminated(PairStrings(kv[i..])) == old(buf) + Terminated(PairStrings(kv))
      {
        PairFirst(kv, i);
        AddBytes(kv[i].key + [0]);
        AddBytes(kv[i].val + [0]);
      }
    }
  }

  lemma Regroup(z: Bytes, f: Bytes, a: Bytes, b: Bytes, c: Bytes, rest: Bytes)
    ensures z + f + a + b + c + rest == z + (f + (a + (b + (c + rest))))
  {
  }

  lemma PairFirst(kv: seq<Pair>, i: nat)
    requires i < |kv|
    ensures Terminated(PairStrings(kv[i..])) == (kv[i].key + [0]) + ((kv[i].val + [0]) + Terminated(PairStrings(kv[i + 1..])))
  {
    var strs := PairStrings(kv[i..]);
    assert kv[i..][1..] == kv[i + 1..];
    assert strs[1..][1..] == PairStrings(kv[i + 1..]);
  }

  lemma WholeEntry(t: Info, size: nat)
    requires size == |Entry(t)|
    ensures Entry(t) == Fixed(t, size) + ((t.filename + [0]) + ((Or(t.codec) + [0]) + ((Or(t.profile) + [0]) + Terminated(PairStrings(t.comments)))))
  {
    var strs := Strings(t);
    assert strs[1..][1..] == strs[2..] && strs[2..][1..] == PairStrings(t.comments);
    assert Terminated(strs[2..]) == (Or(t.profile) + [0]) + Terminated(PairStrings(t.comments));
    assert Terminated(strs[1..]) == (Or(t.codec) + [0]) + Terminated(strs[2..]);
  }

  /** The lengths that write_ti adds up. */
  method EntrySize(t: Info) returns (size: nat)
    ensures size == |Entry(t)|
  {
    size := ENTRY + (|t.filename| + 1) + (|Or(t.codec)| + 1) + (|Or(t.profile)| + 1);
    for i := 0 to |t.comments|
      invariant size + |Terminated(PairStrings(t.comments[i..]))| == ENTRY + |t.filename| + |Or(t.codec)| + |Or(t.profile)| + 3 + |Terminated(PairStrings(t.comments))|
    {
      PairFirst(t.comments, i);
      size := size + (|t.comments[i].key| + 1) + (|t.comments[i].val| + 1);
    }
    WholeEntry(t, |Entry(t)|);
  }

  lemma LayoutOfNone()
    ensures Layout([]) == HEADER
  {
  }

  /** cache_close. */
  method Close(ts: seq<Info>) returns (file: Bytes)
    ensures file == Image(ts)
  {
    hide Layout, Entry;
    assert Layout([]) == HEADER by {
      LayoutOfNone();
    }
    var out := new Output();
    out.Grow(64 * 1024 - 1);
    out.AddBytes(HEADER);
    var offset := 8;
    for i := 0 to |ts|
      invariant fresh(out) && out.Room() && out.file + out.buf == Layout(Entries(ts)[..i]) && offset == |Layout(Entries(ts)[..i])|
    {
      LayoutStep(Entries(ts), i);
      offset := out.WriteTrack(ts[i], offset);
    }
    assert Entries(ts)[..|ts|] == Entries(ts);
    out.Flush();
    file := out.file;
  }

  /* Reading. */

  /** The first `n` bytes of the string at `p` have been passed. */
  ghost predicate Passed(buf: Bytes, p: nat, n: nat) {
    && (n > 0 ==> p + n <= |buf|)
    && (if n == 0 then [] else buf[p..p + n]) + StringAt(buf, p + n) == StringAt(buf, p)
  }

  lemma PassOne(buf: Bytes, p: nat, n: nat, m: nat)
    requires Passed(buf, p, n) && At(buf, p + n) != 0 && m == n + 1
    ensures Passed(buf, p, m)
  {
    assert buf[p..p + m] == buf[p..p + n] + [buf[p + n]];
  }

  method StrLen(buf: Bytes, p: nat) returns (n: nat)
    ensures n == |StringAt(buf, p)| && (n > 0 ==> p + n <= |buf| && buf[p..p + n] == StringAt(buf, p))
  {
    n := 0;
    assert Passed(buf, p, 0);
    while At(buf, p + n) != 0
      invariant Passed(buf, p, n)
      decreases |buf| - (p + n)
    {
      PassOne(buf, p, n, n + 1);
      n := n + 1;
    }
    assert StringAt(buf, p + n) == [];
  }

  method CopyString(buf: Bytes, p: nat) returns (s: Bytes)
    ensures s == StringAt(buf, p)
  {
    var n := StrLen(buf, p);
    s := if n == 0 then [] else buf[p..p + n];
  }

  method CountNuls(buf: Bytes, lo: nat, hi: nat) returns (count: nat)
    requires lo <= hi <= |buf|
    ensures count == Nuls(buf[lo..hi])
  {
    count := 0;
    for i := lo to hi
      invariant count + Nuls(buf[i..hi]) == Nuls(buf[lo..hi])
    {
      assert buf[i..hi][1..] == buf[i + 1..hi];
      if buf[i] == 0 {
        count := count + 1;
      }
    }
  }

  /** valid_cache_entry. */
  method CheckEntry(buf: Bytes, o: nat) returns (valid: bool)
    requires o <= |buf|
    ensures valid <==> ValidEntry(buf, o)
  {
    if |buf| - o < ENTRY {
      return false;
    }
    var size := SizeAt(buf, o);
    if size < ENTRY || size > |buf| - o {
      return false;
    }
    var count := CountNuls(buf, o + ENTRY, o + size);
    if count % 2 == 0 {
      return false;
    }
    valid := buf[o + size - 1] == 0;
  }

  /** cache_entry_to_ti. */
  method EntryToInfo(buf: Bytes, o: nat) returns (t: Info)
    requires o <= |buf| && ValidEntry(buf, o)
    ensures t == InfoAt(buf, o)
  {
    var size := SizeAt(buf, o);
    var nuls := CountNuls(buf, o + ENTRY, o + size);
    var count := PairCount(nuls);
    var x := CopyTexts(buf, o + ENTRY, count);
    t := Info(x.filename, Optional(x.codec), Optional(x.profile), x.comments,
      GetSigned(buf[o + 4..o + 8]), GetSigned(buf[o + 8..o + 16]), GetSigned(buf[o + 16..o + 20]),
      GetSigned(buf[o + 20..o + 24]), GetSigned(buf[o + 24..o + 28]));
  }

  method CopyTexts(buf: Bytes, p: nat, count: int) returns (x: Texts)
    ensures x == TextsAt(buf, p, count)
  {
    var filename := CopyString(buf, p);
    var pos := p + |filename| + 1;
    var codec := CopyString(buf, pos);
    pos := pos + |codec| + 1;
    var profile := CopyString(buf, pos);
    pos := pos + |profile| + 1;
    var comments := CopyPairs(buf, pos, count);
    x := Texts(filename, codec, profile, comments);
  }

  method CopyPairs(buf: Bytes, p: nat, count: int) returns (kv: seq<Pair>)
    ensures kv == PairsAt(buf, p, count)
  {
    kv := [];
    var pos: nat, i := p, 0;
    while i < count
      invariant 0 <= i && (count >= 0 ==> i <= count) && PairsAt(buf, p, count) == kv + PairsAt(buf, pos, count - i)
    {
      var key := CopyString(buf, pos);
      var val := CopyString(buf, pos + |key| + 1);
      ghost var after := pos + |key| + 1 + |val| + 1;
      assert PairsAt(buf, pos, count - i) == [Pair(key, val)] + PairsAt(buf, after, count - i - 1);
      Assoc(kv, [Pair(key, val)], PairsAt(buf, after, count - i - 1));
      pos := pos + |key| + 1;
      pos := pos + |val| + 1;
      kv := kv + [Pair(key, val)];
      i := i + 1;
    }
  }

  /** The entries already read and those still to come make up the whole. */
  ghost predicate SoFar(whole: Option<seq<Info>>, got: seq<Info>, rest: Option<seq<Info>>) {
    if rest.None? then whole.None? else whole == Some(got + rest.value)
  }

  lemma ReadStep(buf: Bytes, o: nat, whole: Option<seq<Info>>, got: seq<Info>)
    requires o < |buf| && SoFar(whole, got, EntriesFrom(buf, o))
    ensures if ValidEntry(buf, o) then SoFar(whole, got + [InfoAt(buf, o)], EntriesFrom(buf, o + Align(SizeAt(buf, o)))) else whole == None
  {
    if ValidEntry(buf, o) {
      var rest := EntriesFrom(buf, o + Align(SizeAt(buf, o)));
      if rest.Some? {
        Assoc(got, [InfoAt(buf, o)], rest.value);
      }
    }
  }

  lemma ReadEnds(whole: Option<seq<Info>>, got: seq<Info>)
    ensures SoFar(whole, [], whole) && (SoFar(whole, got, Some([])) ==> whole == Some(got))
  {
    assert got + [] == got;
    if whole.Some? {
      assert [] + whole.value == whole.value;
    }
  }

  /** One round of the loop in read_cache. */
  method ReadNext(buf: Bytes, o: nat, ghost whole: Option<seq<Info>>, ghost got: seq<Info>) returns (t: Option<Info>, next: nat)
    requires o < |buf| && SoFar(whole, got, EntriesFrom(buf, o))
    ensures t.None? ==> whole == None
    ensures t.Some? ==> next > o && SoFar(whole, got + [t.value], EntriesFrom(buf, next))
  {
    ReadStep(buf, o, whole, got);
    var valid := CheckEntry(buf, o);
    if !valid {
      return None, o;
    }
    var info := EntryToInfo(buf, o);
    t, next := Some(info), o + Align(SizeAt(buf, o));
  }

  /** read_cache on the mapped file. */
  method Read(buf: Bytes) returns (ts: Option<seq<Info>>)
    ensures ts == ReadImage(buf)
  {
    if |buf| < 8 || buf[..8] != HEADER {
      return None;
    }
    ghost var whole := EntriesFrom(buf, 8);
    ReadEnds(whole, []);
    var offset: nat, got: seq<Info> := 8, [];
    while offset < |buf|
      invariant SoFar(whole, got, EntriesFrom(buf, offset))
      decreases |buf| - offset
    {
      var t, next := ReadNext(buf, offset, whole, got);
      if t.None? {
        return None;
      }
      got, offset := got + [t.value], next;
    }
    ReadEnds(whole, got);
    ts := Some(got);
  }
}
