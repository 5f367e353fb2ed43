/** What the patterns of app/glob.c say: every list of wildcards and characters can be written as one,
    and a text matches if it can be cut into pieces for them. */
module GlobPatterns {
  import opened Glob

  /* Writing. */

  function Spelled(toks: seq<Token>): string {
    if toks == [] then ""
    else
      (match toks[0]
       case AnySeq => "*"
       case AnyOne => "?"
       case Lit(c) => if c == '*' || c == '?' || c == '\\' then ['\\', c] else [c]) + Spelled(toks[1..])
  }

  /** What is written is read back. */
  lemma {:induction false} SpelledReads(toks: seq<Token>)
    ensures Tokens(Spelled(toks)) == toks
  {
    if toks != [] {
      var all, rest := Spelled(toks), Spelled(toks[1..]);
      SpelledReads(toks[1..]);
      if toks[0].Lit? && (toks[0].c == '*' || toks[0].c == '?' || toks[0].c == '\\') {
        assert all == ['\\', toks[0].c] + rest && all[2..] == rest;
      } else {
        assert all[1..] == rest;
      }
      assert [toks[0]] + toks[1..] == toks;
    }
  }

  /** A backslash takes any character behind it literally; the last character of a pattern can be a
      backslash that stands for itself. */
  lemma Backslash(c: char, rest: string)
    ensures Tokens(['\\', c] + rest) == [Lit(c)] + Tokens(rest)
    ensures Tokens("\\") == [Lit('\\')]
  {
    assert (['\\', c] + rest)[2..] == rest;
    assert "\\"[1..] == "";
  }

  /* Matching. */

  /** One token stands for a piece of text. */
  predicate Covers(t: Token, piece: string, fold: Fold) {
    match t
    case AnySeq => true
    case AnyOne => |piece| == 1
    case Lit(c) => |piece| == 1 && fold(piece[0]) == fold(c)
  }

  function Joined(pieces: seq<string>): string {
    if pieces == [] then "" else pieces[0] + Joined(pieces[1..])
  }

  /** The pieces are the text, and those for the tokens, one by one. */
  ghost predicate PiecesFor(toks: seq<Token>, text: string, pieces: seq<string>, fold: Fold) {
    Joined(pieces) == text && |pieces| == |toks| && forall i :: 0 <= i < |toks| ==> Covers(toks[i], pieces[i], fold)
  }

  lemma {:induction false} PiecesMatch(toks: seq<Token>, text: string, pieces: seq<string>, fold: Fold)
    requires PiecesFor(toks, text, pieces, fold)
    ensures Matches(toks, text, fold)
    decreases |toks|
  {
    if toks != [] {
      var k := |pieces[0]|;
      assert text[k..] == Joined(pieces[1..]) && Covers(toks[0], pieces[0], fold);
      PiecesMatch(toks[1..], text[k..], pieces[1..], fold);
    }
  }

  lemma {:induction false} MatchPieces(toks: seq<Token>, text: string, fold: Fold) returns (pieces: seq<string>)
    requires Matches(toks, text, fold)
    ensures PiecesFor(toks, text, pieces, fold)
    decreases |toks|
  {
    if toks == [] {
      pieces := [];
    } else {
      var k: nat := 1;
      if toks[0].AnySeq? {
        k :| k <= |text| && Matches(toks[1..], text[k..], fold);
      }
      var rest := MatchPieces(toks[1..], text[k..], fold);
      pieces := [text[..k]] + rest;
      assert pieces[1..] == rest && text[..k] + text[k..] == text;
    }
  }

  /** A text matches if and only if it can be cut into a piece for each token. */
  lemma MatchesIsCut(toks: seq<Token>, text: string, fold: Fold)
    ensures Matches(toks, text, fold) <==> exists pieces :: PiecesFor(toks, text, pieces, fold)
  {
    hide Matches, PiecesFor;
    if Matches(toks, text, fold) {
      var pieces := MatchPieces(toks, text, fold);
    }
    if pieces :| PiecesFor(toks, text, pieces, fold) {
      PiecesMatch(toks, text, pieces, fold);
    }
  }
}
