/** Which files read_cache of app/cache.c takes, said of their bytes. */
module CacheFile {
  import opened Common
  import opened Cache

  /** The entry at `o` says a size that is in the file, and behind its fields stand `strs`, each of them
      closed by a NUL, and nothing else; their number is odd. */
  ghost predicate Holds(buf: Bytes, o: nat, strs: seq<Bytes>) {
    && o + ENTRY <= |buf| && ENTRY <= SizeAt(buf, o) <= |buf| - o
    && buf[o + ENTRY..o + SizeAt(buf, o)] == Terminated(strs) && AllNoNul(strs) && |strs| % 2 == 1
  }

  lemma {:induction false} SplitStrings(s: Bytes) returns (strs: seq<Bytes>)
    requires s == [] || s[|s| - 1] == 0
    ensures Terminated(strs) == s && AllNoNul(strs) && (s != [] ==> strs != [])
  {
    if s == [] {
      strs := [];
    } else {
      var rest := SplitStrings(s[1..]);
      assert s == [s[0]] + s[1..];
      if s[0] == 0 {
        strs := [[]] + rest;
        assert strs[1..] == rest;
      } else {
        strs := [[s[0]] + rest[0]] + rest[1..];
        assert strs[1..] == rest[1..];
        assert [s[0]] + (rest[0] + [0] + Terminated(rest[1..])) == [s[0]] + rest[0] + [0] + Terminated(rest[1..]);
      }
    }
  }

  /** valid_cache_entry accepts exactly such an entry. */
  lemma EntryExactly(buf: Bytes, o: nat)
    requires o <= |buf|
    ensures ValidEntry(buf, o) <==> exists strs :: Holds(buf, o, strs)
  {
    if ValidEntry(buf, o) {
      var text := buf[o + ENTRY..o + SizeAt(buf, o)];
      hide SizeAt;
      assert text != [] && text[|text| - 1] == 0;
      var strs := SplitStrings(text);
      NulsOfStrings(strs);
      assert Holds(buf, o, strs);
    }
    if strs :| Holds(buf, o, strs) {
      hide SizeAt;
      NulsOfStrings(strs);
    }
  }

  /** From `a` on stands the entry of a track, and the next one begins at `b`, a multiple of eight bytes
      behind it. */
  ghost predicate Between(buf: Bytes, a: nat, b: nat, t: Info) {
    a < |buf| && ValidEntry(buf, a) && b == a + Align(SizeAt(buf, a)) && t == InfoAt(buf, a)
  }

  /** From `o` to the end there is one entry behind the other, at these places. */
  ghost predicate Tiled(buf: Bytes, o: nat, places: seq<nat>, ts: seq<Info>) {
    && |places| == |ts| + 1 && places[0] == o && places[|ts|] >= |buf|
    && forall i :: 0 <= i < |ts| ==> Between(buf, places[i], places[i + 1], ts[i])
  }

  lemma TilesFirst(buf: Bytes, o: nat, next: nat, places: seq<nat>, t: Info, ts: seq<Info>)
    requires Between(buf, o, next, t) && Tiled(buf, next, places, ts)
    ensures Tiled(buf, o, [o] + places, [t] + ts)
  {
    hide Between;
    var all, tracks := [o] + places, [t] + ts;
    forall i | 0 <= i < |tracks| ensures Between(buf, all[i], all[i + 1], tracks[i]) {
      if i > 0 {
        assert Between(buf, places[i - 1], places[i - 1 + 1], ts[i - 1]);
      }
    }
  }

  lemma TilesRest(buf: Bytes, o: nat, places: seq<nat>, ts: seq<Info>)
    requires Tiled(buf, o, places, ts) && ts != []
    ensures Between(buf, o, places[1], ts[0]) && Tiled(buf, places[1], places[1..], ts[1..])
  {
    hide Between;
    assert Between(buf, places[0], places[0 + 1], ts[0]);
    forall i | 0 <= i < |ts[1..]| ensures Between(buf, places[1..][i], places[1..][i + 1], ts[1..][i]) {
      assert Between(buf, places[i + 1], places[i + 1 + 1], ts[i + 1]);
    }
  }

  lemma {:induction false} TilesFound(buf: Bytes, o: nat) returns (places: seq<nat>)
    requires EntriesFrom(buf, o).Some?
    ensures Tiled(buf, o, places, EntriesFrom(buf, o).value)
    decreases |buf| - o
  {
    if o < |buf| {
      var next := o + Align(SizeAt(buf, o));
      EntriesStep(buf, o, next);
      hide SizeAt, ValidEntry, InfoAt, Tiled, EntriesFrom;
      var rest := TilesFound(buf, next);
      TilesFirst(buf, o, next, rest, InfoAt(buf, o), EntriesFrom(buf, next).value);
      places := [o] + rest;
    } else {
      places := [o];
    }
  }

  lemma {:induction false} TilesRead(buf: Bytes, o: nat, places: seq<nat>, ts: seq<Info>)
    requires Tiled(buf, o, places, ts)
    ensures EntriesFrom(buf, o) == Some(ts)
    decreases |ts|
  {
    if ts != [] {
      hide SizeAt, ValidEntry, InfoAt, EntriesFrom;
      TilesRest(buf, o, places, ts);
      EntriesStep(buf, o, places[1]);
      TilesRead(buf, places[1], places[1..], ts[1..]);
      assert [ts[0]] + ts[1..] == ts;
    }
  }

  /** read_cache takes exactly the files that begin with the header and are entries from there on, and
      gives a track for each of them. */
  lemma ReadExactly(buf: Bytes, ts: seq<Info>)
    ensures ReadImage(buf) == Some(ts) <==> |buf| >= 8 && buf[..8] == HEADER && exists places :: Tiled(buf, 8, places, ts)
  {
    hide EntriesFrom, Tiled;
    if ReadImage(buf) == Some(ts) {
      var places := TilesFound(buf, 8);
    }
    if places :| Tiled(buf, 8, places, ts) {
      TilesRead(buf, 8, places, ts);
    }
  }
}
