/** Plain-text matching of tracks: get_words of app/misc.c and track_info_matches of
    app/track_info.c, and the narrowing argument behind the live filter of app/lib.c. */
module Words {
  import opened Glob

  /** A maximal run of characters other than blanks. */
  predicate IsWord(text: string, s: int, e: int) {
    && 0 <= s < e <= |text| && (forall i :: s <= i < e ==> text[i] != ' ')
    && (s == 0 || text[s - 1] == ' ') && (e == |text| || text[e] == ' ')
  }

  /** `w` is a word of `text` that starts before `i`. */
  ghost predicate WordBefore(w: string, text: string, i: int) {
    exists s, e :: IsWord(text, s, e) && s < i && w == text[s..e]
  }

  ghost predicate WordIn(w: string, text: string) {
    WordBefore(w, text, |text|)
  }

  /** get_words. */
  method GetWords(text: string) returns (words: seq<string>)
    ensures forall w :: w in words <==> WordIn(w, text)
  {
    words := [];
    var i := 0;
    while i < |text| && text[i] == ' '
      invariant 0 <= i <= |text| && forall k :: 0 <= k < i ==> text[k] == ' '
    {
      i := i + 1;
    }
    forall w ensures !WordBefore(w, text, i) {
      forall s, e | IsWord(text, s, e) ensures s >= i {
        assert text[s] != ' ';
      }
    }
    while i < |text|
      invariant 0 <= i <= |text| && (0 < i < |text| ==> text[i - 1] == ' ') && (i < |text| ==> text[i] != ' ')
      invariant forall w :: w in words <==> WordBefore(w, text, i)
      decreases |text| - i
    {
      var start := i;
      while i < |text| && text[i] != ' '
        invariant start <= i <= |text| && forall k :: start <= k < i ==> text[k] != ' '
      {
        i := i + 1;
      }
      ghost var end := i;
      words := words + [text[start..i]];
      while i < |text| && text[i] == ' '
        invariant end <= i <= |text| && forall k :: end <= k < i ==> text[k] == ' '
      {
        i := i + 1;
      }
      forall w ensures WordBefore(w, text, i) <==> WordBefore(w, text, start) || w == text[start..end] {
        NextWord(w, text, start, end, i);
      }
    }
  }

  /** Passing one word and the blanks behind it adds that word. */
  lemma NextWord(w: string, text: string, start: int, end: int, i: int)
    requires IsWord(text, start, end) && end <= i <= |text| && forall k :: end <= k < i ==> text[k] == ' '
    ensures WordBefore(w, text, i) <==> WordBefore(w, text, start) || w == text[start..end]
  {
    if s, e :| IsWord(text, s, e) && s < i && w == text[s..e] {
      assert text[s] != ' ';
      if s >= start {
        OneWord(text, start, end, s, e);
      }
    }
  }

  /** Two words that overlap are the same. */
  lemma OneWord(text: string, s: int, e: int, s': int, e': int)
    requires IsWord(text, s, e) && IsWord(text, s', e')
    ensures (s <= s' < e ==> s' == s && e' == e) && (s' < e && s < e' ==> s' == s && e' == e)
  {
  }

  /* Matching. */

  /** A track, reduced to what plain-text filters look at: the artist, album, title and album
      artist it has, and its file name without the path. */
  datatype Tags = Tags(filename: string, texts: seq<string>)

  /** A track_info; two with the same tags are still two. */
  class Track {
    const tags: Tags

    constructor (tags: Tags)
      ensures this.tags == tags
    {
      this.tags := tags;
    }
  }

  /** u_strcasestr_base finds the word. */
  ghost predicate Contains(text: string, word: string, fold: Fold) {
    exists p :: 0 <= p <= |text| && EqualAt(text, p, word, fold)
  }

  ghost predicate WordMatches(t: Track, word: string, fold: Fold) {
    exists i :: 0 <= i < |t.tags.texts| && Contains(t.tags.texts[i], word, fold)
  }

  /** track_info_matches: the text has words and the track matches all of them. */
  ghost predicate TextMatches(t: Track, text: string, fold: Fold) {
    && (exists w :: WordIn(w, text))
    && (forall w :: WordIn(w, text) ==> WordMatches(t, w, fold))
  }

  method MatchWord(t: Track, word: string, fold: Fold) returns (matched: bool)
    ensures matched <==> WordMatches(t, word, fold)
  {
    matched := false;
    for i := 0 to |t.tags.texts|
      invariant matched <==> exists k :: 0 <= k < i && Contains(t.tags.texts[k], word, fold)
    {
      var p := Find(t.tags.texts[i], word, fold);
      if p >= 0 {
        matched := true;
      }
    }
  }

  /** track_info_matches_full with all words required and nothing excluded. */
  method TrackMatches(t: Track, text: string, fold: Fold) returns (matched: bool)
    ensures matched <==> TextMatches(t, text, fold)
  {
    matched := false;
    var words := GetWords(text);
    for i := 0 to |words|
      invariant matched <==> i > 0
      invariant forall k :: 0 <= k < i ==> WordMatches(t, words[k], fold)
    {
      matched := MatchWord(t, words[i], fold);
      if !matched {
        assert words[i] in words;
        return;
      }
    }
    if words != [] {
      assert words[0] in words;
    }
  }

  /* Narrowing. */

  /** strstr finds `part` in `text`. */
  ghost predicate HasPart(text: string, part: string) {
    exists p :: PartAt(text, p, part)
  }

  predicate PartAt(text: string, p: int, part: string) {
    0 <= p && p + |part| <= |text| && text[p..p + |part|] == part
  }

  lemma {:induction false} ExtendLeft(text: string, s: int, e: int) returns (s': int)
    requires 0 <= s < e <= |text| && forall i :: s <= i < e ==> text[i] != ' '
    ensures 0 <= s' <= s && (forall i :: s' <= i < e ==> text[i] != ' ') && (s' == 0 || text[s' - 1] == ' ')
    decreases s
  {
    s' := s;
    if s > 0 && text[s - 1] != ' ' {
      s' := ExtendLeft(text, s - 1, e);
    }
  }

  lemma {:induction false} ExtendRight(text: string, s: int, e: int) returns (e': int)
    requires 0 <= s < e <= |text| && forall i :: s <= i < e ==> text[i] != ' '
    ensures e <= e' <= |text| && (forall i :: s <= i < e' ==> text[i] != ' ') && (e' == |text| || text[e'] == ' ')
    decreases |text| - e
  {
    e' := e;
    if e < |text| && text[e] != ' ' {
      e' := ExtendRight(text, s, e + 1);
    }
  }

  predicate NoBlank(text: string) {
    forall i :: 0 <= i < |text| ==> text[i] != ' '
  }

  /** A stretch without blanks lies inside a word. */
  lemma WordAround(text: string, s: int, e: int) returns (s': int, e': int)
    requires 0 <= s < e <= |text| && NoBlank(text[s..e])
    ensures IsWord(text, s', e') && s' <= s && e <= e'
  {
    assert forall i :: s <= i < e ==> text[i] == text[s..e][i - s];
    s' := ExtendLeft(text, s, e);
    e' := ExtendRight(text, s', e);
  }

  lemma SliceOfSlice(text: string, p: int, q: int, s: int, e: int)
    requires 0 <= p <= q <= |text| && 0 <= s <= e <= q - p
    ensures text[p..q][s..e] == text[p + s..p + e]
  {
    forall i | 0 <= i < e - s ensures text[p..q][s..e][i] == text[p + s..p + e][i] {
    }
  }

  lemma WordNoBlank(part: string, s: int, e: int)
    requires IsWord(part, s, e)
    ensures NoBlank(part[s..e])
  {
  }

  lemma PartSlice(text: string, p: int, part: string, s: int, e: int)
    requires PartAt(text, p, part) && 0 <= s <= e <= |part|
    ensures text[p + s..p + e] == part[s..e]
  {
    SliceOfSlice(text, p, p + |part|, s, e);
  }

  /** Every word of a part lies inside a word of the whole. */
  lemma WordOfPart(text: string, part: string, w: string) returns (v: string, d: nat)
    requires HasPart(text, part) && WordIn(w, part)
    ensures WordIn(v, text) && d + |w| <= |v| && v[d..d + |w|] == w
  {
    var p :| PartAt(text, p, part);
    var s, e :| IsWord(part, s, e) && s < |part| && w == part[s..e];
    WordNoBlank(part, s, e);
    PartSlice(text, p, part, s, e);
    v, d := WordWith(text, p + s, p + e, w);
  }

  /** The word around a stretch without blanks. */
  lemma WordWith(text: string, s: int, e: int, w: string) returns (v: string, d: nat)
    requires 0 <= s < e <= |text| && w == text[s..e] && NoBlank(w)
    ensures WordIn(v, text) && d + |w| <= |v| && v[d..d + |w|] == w
  {
    var s', e' := WordAround(text, s, e);
    v, d := text[s'..e'], s - s';
    SliceAround(text, s', e', s, e, v, d, w);
  }

  lemma SliceAround(text: string, s': int, e': int, s: int, e: int, v: string, d: nat, w: string)
    requires 0 <= s' <= s <= e <= e' <= |text| && v == text[s'..e'] && d == s - s' && w == text[s..e]
    ensures d + |w| <= |v| && v[d..d + |w|] == w
  {
    SliceOfSlice(text, s', e', s - s', e - s');
  }

  lemma ContainsPart(text: string, v: string, w: string, d: nat, fold: Fold)
    requires Contains(text, v, fold) && d + |w| <= |v| && v[d..d + |w|] == w
    ensures Contains(text, w, fold)
  {
    var p :| 0 <= p <= |text| && EqualAt(text, p, v, fold);
    forall i | 0 <= i < |w| ensures fold(w[i]) == fold(text[(p + d) + i]) {
      assert v[d..d + |w|][i] == v[d + i];
      assert fold(v[d + i]) == fold(text[p + (d + i)]);
    }
    assert EqualAt(text, p + d, w, fold);
  }

  /** A longer text that contains a text with words matches no more tracks. */
  lemma Narrows(t: Track, text: string, part: string, fold: Fold)
    requires HasPart(text, part) && (exists w :: WordIn(w, part)) && TextMatches(t, text, fold)
    ensures TextMatches(t, part, fold)
  {
    forall w | WordIn(w, part) ensures WordMatches(t, w, fold) {
      var v, d := WordOfPart(text, part, w);
      var i :| 0 <= i < |t.tags.texts| && Contains(t.tags.texts[i], v, fold);
      ContainsPart(t.tags.texts[i], v, w, d, fold);
    }
  }
}
