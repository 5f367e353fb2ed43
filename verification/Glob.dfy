/** Wildcard patterns of app/glob.c: compiling, simplifying and matching.

    Characters are single bytes. `fold` stands for the case folding and base-character lookup
    that the comparison applies to both sides. */
module Glob {
  type Fold = char -> int

  /** struct glob_item. */
  datatype Item = Star | Qmark | Text(text: string)

  /* The meaning of a pattern, one character at a time. */

  datatype Token = AnySeq | AnyOne | Lit(c: char)

  /** A backslash takes the next character literally; a trailing backslash stands for itself. */
  function Tokens(pattern: string): seq<Token> {
    if pattern == [] then []
    else if pattern[0] == '*' then [AnySeq] + Tokens(pattern[1..])
    else if pattern[0] == '?' then [AnyOne] + Tokens(pattern[1..])
    else if pattern[0] == '\\' && |pattern| > 1 then [Lit(pattern[1])] + Tokens(pattern[2..])
    else [Lit(pattern[0])] + Tokens(pattern[1..])
  }

  ghost predicate Matches(toks: seq<Token>, text: string, fold: Fold)
    decreases |toks|
  {
    if toks == [] then text == []
    else
      match toks[0]
      case AnySeq => exists k :: 0 <= k <= |text| && Matches(toks[1..], text[k..], fold)
      case AnyOne => text != [] && Matches(toks[1..], text[1..], fold)
      case Lit(c) => text != [] && fold(c) == fold(text[0]) && Matches(toks[1..], text[1..], fold)
  }

  /** What a compiled pattern stands for. */
  function Lits(text: string): seq<Token> {
    seq(|text|, i requires 0 <= i < |text| => Lit(text[i]))
  }

  function Flatten(items: seq<Item>): seq<Token> {
    if items == [] then []
    else
      (match items[0]
       case Star => [AnySeq]
       case Qmark => [AnyOne]
       case Text(t) => Lits(t)) + Flatten(items[1..])
  }

  lemma {:induction false} FlattenConcat(a: seq<Item>, b: seq<Item>)
    ensures Flatten(a + b) == Flatten(a) + Flatten(b)
  {
    if a == [] {
      assert a + b == b;
    } else {
      assert (a + b)[1..] == a[1..] + b;
      FlattenConcat(a[1..], b);
    }
  }

  /* glob_compile. */

  /** What the character at `i` stands for, and the position behind it. */
  function TextChar(pattern: string, i: nat): (r: (char, nat))
    requires i < |pattern|
    ensures i < r.1 <= |pattern|
  {
    if pattern[i] == '\\' && i + 1 < |pattern| then (pattern[i + 1], i + 2) else (pattern[i], i + 1)
  }

  lemma TextToken(pattern: string, i: nat)
    requires i < |pattern| && pattern[i] != '*' && pattern[i] != '?'
    ensures var (c, n) := TextChar(pattern, i); Tokens(pattern[i..]) == [Lit(c)] + Tokens(pattern[n..])
  {
    assert pattern[i..][1..] == pattern[i + 1..];
    if i + 1 < |pattern| {
      assert pattern[i..][2..] == pattern[i + 2..];
    }
  }

  lemma LitsMore(text: string, c: char, rest: seq<Token>)
    ensures Lits(text + [c]) + rest == Lits(text) + ([Lit(c)] + rest)
  {
    assert Lits(text + [c]) == Lits(text) + [Lit(c)];
  }

  /** The text up to the next unescaped wildcard, without its backslashes, and what follows. */
  method TakeText(pattern: string, start: nat) returns (text: string, i: nat)
    requires start < |pattern| && pattern[start] != '*' && pattern[start] != '?'
    ensures start < i <= |pattern| && text != []
    ensures Tokens(pattern[start..]) == Lits(text) + Tokens(pattern[i..])
  {
    i := start;
    text := [];
    assert Lits([]) + Tokens(pattern[start..]) == Tokens(pattern[start..]);
    while i < |pattern| && pattern[i] != '*' && pattern[i] != '?'
      invariant start <= i <= |pattern| && (i > start ==> text != [])
      invariant Tokens(pattern[start..]) == Lits(text) + Tokens(pattern[i..])
      decreases |pattern| - i
    {
      ghost var (c, n) := TextChar(pattern, i);
      TextToken(pattern, i);
      LitsMore(text, c, Tokens(pattern[n..]));
      if pattern[i] == '\\' {
        i := i + 1;
        if i < |pattern| {
          text := text + [pattern[i]];
          i := i + 1;
        } else {
          text := text + ['\\'];
        }
      } else {
        text := text + [pattern[i]];
        i := i + 1;
      }
    }
  }

  predicate NonEmpty(items: seq<Item>) {
    forall i :: 0 <= i < |items| && items[i].Text? ==> items[i].text != []
  }

  lemma WildToken(pattern: string, i: nat)
    requires i < |pattern| && (pattern[i] == '*' || pattern[i] == '?')
    ensures Tokens(pattern[i..]) == Flatten([if pattern[i] == '*' then Star else Qmark]) + Tokens(pattern[i + 1..])
  {
    assert pattern[i..][1..] == pattern[i + 1..];
  }

  lemma FlattenMore(items: seq<Item>, item: Item, rest: seq<Token>)
    ensures Flatten(items + [item]) + rest == Flatten(items) + (Flatten([item]) + rest)
  {
    FlattenConcat(items, [item]);
  }

  /** The loop of glob_compile before the call of simplify. */
  method Scan(pattern: string) returns (items: seq<Item>)
    ensures Flatten(items) == Tokens(pattern) && NonEmpty(items)
  {
    items := [];
    var i := 0;
    assert pattern[0..] == pattern;
    while i < |pattern|
      invariant 0 <= i <= |pattern| && NonEmpty(items)
      invariant Flatten(items) + Tokens(pattern[i..]) == Tokens(pattern)
      decreases |pattern| - i
    {
      var item, next := NextItem(pattern, i);
      FlattenMore(items, item, Tokens(pattern[next..]));
      items, i := items + [item], next;
    }
    assert pattern[i..] == [];
  }

  /** One round of that loop. */
  method NextItem(pattern: string, i: nat) returns (item: Item, next: nat)
    requires i < |pattern|
    ensures i < next <= |pattern| && Tokens(pattern[i..]) == Flatten([item]) + Tokens(pattern[next..]) && (item.Text? ==> item.text != [])
  {
    if pattern[i] == '*' {
      WildToken(pattern, i);
      item, next := Star, i + 1;
    } else if pattern[i] == '?' {
      WildToken(pattern, i);
      item, next := Qmark, i + 1;
    } else {
      var text;
      text, next := TakeText(pattern, i);
      item := Text(text);
      assert Flatten([item]) == Lits(text) + Flatten([]);
    }
  }

  /* simplify. */

  predicate Wild(items: seq<Item>) {
    forall i :: 0 <= i < |items| ==> !items[i].Text?
  }

  function CountQ(items: seq<Item>): nat {
    if items == [] then 0 else CountQ(items[..|items| - 1]) + if items[|items| - 1].Qmark? then 1 else 0
  }

  function CountS(items: seq<Item>): nat {
    if items == [] then 0 else CountS(items[..|items| - 1]) + if items[|items| - 1].Star? then 1 else 0
  }

  function Repeat(item: Item, n: nat): seq<Item> {
    seq(n, _ => item)
  }

  /** A block of wildcards: its question marks, then one star if it has any. */
  function Block(w: seq<Item>): seq<Item> {
    Repeat(Qmark, CountQ(w)) + if CountS(w) > 0 then [Star] else []
  }

  /** Every star is followed by text or the end. */
  predicate Normal(items: seq<Item>) {
    forall i :: 0 <= i < |items| - 1 && items[i].Star? ==> items[i + 1].Text?
  }

  /** A block of wildcards skips at least its number of question marks, exactly that many if
      it has no star. */
  ghost predicate Skips(w: seq<Item>, k: int) {
    if CountS(w) > 0 then k >= CountQ(w) else k == CountQ(w)
  }

  lemma {:induction false} CountConcat(a: seq<Item>, b: seq<Item>)
    ensures CountQ(a + b) == CountQ(a) + CountQ(b) && CountS(a + b) == CountS(a) + CountS(b)
    decreases |b|
  {
    if b == [] {
      assert a + b == a;
    } else {
      assert (a + b)[..|a + b| - 1] == a + b[..|b| - 1];
      CountConcat(a, b[..|b| - 1]);
    }
  }

  lemma CountOne(i: Item)
    ensures CountQ([i]) == (if i.Qmark? then 1 else 0) && CountS([i]) == (if i.Star? then 1 else 0)
  {
    assert [i][..0] == [];
  }

  /** The meaning of a block of wildcards depends on the two counts only. */
  lemma {:induction false} BlockMeaning(w: seq<Item>, rest: seq<Token>, text: string, fold: Fold)
    requires Wild(w)
    ensures Matches(Flatten(w) + rest, text, fold) <==>
            exists k :: 0 <= k <= |text| && Skips(w, k) && Matches(rest, text[k..], fold)
    decreases |w|, 0
  {
    if w == [] {
      EmptyMeaning(w, rest, text, fold);
    } else {
      var v := w[1..];
      assert w == [w[0]] + v;
      CountConcat([w[0]], v);
      CountOne(w[0]);
      FirstToken(w, rest);
      if w[0].Qmark? {
        QmarkMeaning(w, v, rest, text, fold);
      } else {
        StarMeaning(w, v, rest, text, fold);
      }
    }
  }

  lemma FirstToken(w: seq<Item>, rest: seq<Token>)
    requires w != [] && !w[0].Text?
    ensures var toks := Flatten(w) + rest; toks[0] == (if w[0].Star? then AnySeq else AnyOne) && toks[1..] == Flatten(w[1..]) + rest
  {
    ConsTail(if w[0].Star? then AnySeq else AnyOne, Flatten(w[1..]), rest);
  }

  lemma ConsTail(x: Token, v: seq<Token>, rest: seq<Token>)
    ensures var toks := [x] + v + rest; toks[0] == x && toks[1..] == v + rest
  {
  }

  lemma EmptyMeaning(w: seq<Item>, rest: seq<Token>, text: string, fold: Fold)
    requires w == []
    ensures Matches(Flatten(w) + rest, text, fold) <==>
            exists k :: 0 <= k <= |text| && Skips(w, k) && Matches(rest, text[k..], fold)
  {
    assert Flatten(w) + rest == rest && text[0..] == text && Skips(w, 0);
  }

  lemma QmarkMeaning(w: seq<Item>, v: seq<Item>, rest: seq<Token>, text: string, fold: Fold)
    requires Wild(w) && w != [] && v == w[1..] && w[0].Qmark?
    requires CountQ(w) == CountQ(v) + 1 && CountS(w) == CountS(v)
    requires (Flatten(w) + rest)[1..] == Flatten(v) + rest && (Flatten(w) + rest)[0] == AnyOne
    ensures Matches(Flatten(w) + rest, text, fold) <==>
            exists k :: 0 <= k <= |text| && Skips(w, k) && Matches(rest, text[k..], fold)
    decreases |v|, 1
  {
    if text != [] {
      BlockMeaning(v, rest, text[1..], fold);
      forall k | 0 <= k < |text| ensures text[1..][k..] == text[k + 1..] {}
      if Matches(Flatten(v) + rest, text[1..], fold) {
        var k :| 0 <= k <= |text[1..]| && Skips(v, k) && Matches(rest, text[1..][k..], fold);
        assert Skips(w, k + 1) && Matches(rest, text[k + 1..], fold);
      }
      if k :| 0 <= k <= |text| && Skips(w, k) && Matches(rest, text[k..], fold) {
        assert Skips(v, k - 1) && text[1..][k - 1..] == text[k..];
      }
    }
  }

  lemma StarMeaning(w: seq<Item>, v: seq<Item>, rest: seq<Token>, text: string, fold: Fold)
    requires Wild(w) && w != [] && v == w[1..] && w[0].Star?
    requires CountQ(w) == CountQ(v) && CountS(w) == CountS(v) + 1
    requires (Flatten(w) + rest)[1..] == Flatten(v) + rest && (Flatten(w) + rest)[0] == AnySeq
    ensures Matches(Flatten(w) + rest, text, fold) <==>
            exists k :: 0 <= k <= |text| && Skips(w, k) && Matches(rest, text[k..], fold)
    decreases |v|, 1
  {
    if Matches(Flatten(w) + rest, text, fold) {
      var a :| 0 <= a <= |text| && Matches(Flatten(v) + rest, text[a..], fold);
      BlockMeaning(v, rest, text[a..], fold);
      var b :| 0 <= b <= |text[a..]| && Skips(v, b) && Matches(rest, text[a..][b..], fold);
      assert text[a..][b..] == text[a + b..] && Skips(w, a + b);
    }
    if k :| 0 <= k <= |text| && Skips(w, k) && Matches(rest, text[k..], fold) {
      var a := k - CountQ(v);
      BlockMeaning(v, rest, text[a..], fold);
      assert Skips(v, CountQ(v)) && text[a..][CountQ(v)..] == text[k..];
    }
  }

  lemma {:induction false} CountRepeat(n: nat)
    ensures CountQ(Repeat(Qmark, n)) == n && CountS(Repeat(Qmark, n)) == 0
  {
    if n > 0 {
      assert Repeat(Qmark, n)[..n - 1] == Repeat(Qmark, n - 1);
      CountRepeat(n - 1);
    }
  }

  lemma BlockCounts(w: seq<Item>)
    ensures CountQ(Block(w)) == CountQ(w) && (CountS(Block(w)) > 0 <==> CountS(w) > 0) && Wild(Block(w))
  {
    CountRepeat(CountQ(w));
    CountConcat(Repeat(Qmark, CountQ(w)), if CountS(w) > 0 then [Star] else []);
    CountOne(Star);
  }

  lemma BlockSame(w: seq<Item>, rest: seq<Token>, text: string, fold: Fold)
    requires Wild(w)
    ensures Matches(Flatten(Block(w)) + rest, text, fold) <==> Matches(Flatten(w) + rest, text, fold)
  {
    BlockCounts(w);
    BlockMeaning(w, rest, text, fold);
    BlockMeaning(Block(w), rest, text, fold);
    assert forall k :: Skips(w, k) <==> Skips(Block(w), k);
  }

  /** A change behind a fixed beginning that keeps the meaning keeps the meaning of the whole. */
  lemma {:induction false} SameBehind(pre: seq<Token>, a: seq<Token>, b: seq<Token>, text: string, fold: Fold)
    requires forall t :: Matches(a, t, fold) <==> Matches(b, t, fold)
    ensures Matches(pre + a, text, fold) <==> Matches(pre + b, text, fold)
    decreases |pre|
  {
    if pre == [] {
      assert pre + a == a && pre + b == b;
    } else {
      assert (pre + a)[1..] == pre[1..] + a && (pre + b)[1..] == pre[1..] + b;
      forall k | 0 <= k <= |text| ensures Matches(pre[1..] + a, text[k..], fold) <==> Matches(pre[1..] + b, text[k..], fold) {
        SameBehind(pre[1..], a, b, text[k..], fold);
      }
      if text != [] {
        SameBehind(pre[1..], a, b, text[1..], fold);
      }
    }
  }

  ghost predicate SameMeaning(a: seq<Item>, b: seq<Item>, fold: Fold) {
    forall t :: Matches(Flatten(a), t, fold) <==> Matches(Flatten(b), t, fold)
  }

  lemma FlattenThree(a: seq<Item>, b: seq<Item>, c: seq<Item>)
    ensures Flatten(a + b + c) == Flatten(a) + (Flatten(b) + Flatten(c))
  {
    FlattenConcat(a + b, c);
    FlattenConcat(a, b);
  }

  /** Replacing a block of wildcards inside a pattern by its normal form changes nothing. */
  lemma BlockInside(pre: seq<Item>, w: seq<Item>, post: seq<Item>, fold: Fold)
    requires Wild(w)
    ensures SameMeaning(pre + w + post, pre + Block(w) + post, fold)
  {
    FlattenThree(pre, w, post);
    FlattenThree(pre, Block(w), post);
    var f, a, b, r := Flatten(pre), Flatten(w), Flatten(Block(w)), Flatten(post);
    forall t ensures Matches(a + r, t, fold) <==> Matches(b + r, t, fold) {
      BlockSame(w, r, t, fold);
    }
    forall t ensures Matches(Flatten(pre + w + post), t, fold) <==> Matches(Flatten(pre + Block(w) + post), t, fold) {
      SameBehind(f, a + r, b + r, t, fold);
    }
  }

  lemma CountMore(items: seq<Item>, start: nat, end: nat, next: nat)
    requires start <= end < next == end + 1 <= |items| && Wild(items[start..end]) && !items[end].Text?
    ensures Wild(items[start..next])
    ensures CountQ(items[start..next]) == CountQ(items[start..end]) + if items[end].Qmark? then 1 else 0
    ensures CountS(items[start..next]) == CountS(items[start..end]) + if items[end].Star? then 1 else 0
  {
    assert items[start..next] == items[start..end] + [items[end]];
    CountConcat(items[start..end], [items[end]]);
    CountOne(items[end]);
  }

  /** Scans the wildcards from `start`: the two counts, and where the block ends. */
  method CountBlock(items: seq<Item>, start: nat) returns (qcount: nat, scount: nat, end: nat)
    requires start <= |items|
    ensures start <= end <= |items| && Wild(items[start..end]) && (end < |items| ==> items[end].Text?)
    ensures qcount == CountQ(items[start..end]) && scount == CountS(items[start..end])
  {
    qcount, scount, end := 0, 0, start;
    assert items[start..start] == [];
    while end < |items| && !items[end].Text?
      invariant start <= end <= |items| && Wild(items[start..end])
      invariant qcount == CountQ(items[start..end]) && scount == CountS(items[start..end])
    {
      CountMore(items, start, end, end + 1);
      if items[end].Star? {
        scount := scount + 1;
      } else {
        qcount := qcount + 1;
      }
      end := end + 1;
    }
  }

  lemma {:induction false} CountBound(w: seq<Item>)
    requires Wild(w)
    ensures CountQ(w) + CountS(w) == |w|
    ensures CountQ(w) == 0 ==> forall i :: 0 <= i < |w| ==> w[i].Star?
  {
    if w != [] {
      CountBound(w[..|w| - 1]);
    }
  }

  /** `items` with the block from `start` to `end` rearranged: `q` question marks, then stars. */
  ghost predicate Rearranged(items: seq<Item>, items0: seq<Item>, start: nat, q: nat, end: nat)
    requires start + q <= end <= |items0|
  {
    && |items| == |items0|
    && (forall k :: 0 <= k < start || end <= k < |items| ==> items[k] == items0[k])
    && (forall k :: start <= k < start + q ==> items[k].Qmark?)
    && (forall k :: start + q <= k < end ==> items[k].Star?)
  }

  lemma MovedFront(items: seq<Item>, items0: seq<Item>, start: nat, q: nat, i: nat)
    requires start + q <= i < |items0| && Rearranged(items, items0, start, q, i) && items[i].Qmark?
    ensures Rearranged(items[..start] + [items[i]] + items[start..i] + items[i + 1..], items0, start, q + 1, i + 1)
  {
  }

  /** Moves the question marks of the block `items0[start..end]` to its front. */
  method MoveQmarks(items0: seq<Item>, start: nat, end: nat, qcount0: nat) returns (items: seq<Item>)
    requires start <= end <= |items0| && Wild(items0[start..end]) && qcount0 == CountQ(items0[start..end])
    ensures start + qcount0 <= end && Rearranged(items, items0, start, qcount0, end)
  {
    items := items0;
    var i, qcount := start, qcount0;
    while qcount > 0
      invariant start <= i <= end && qcount == CountQ(items0[i..end]) && Wild(items0[i..end])
      invariant 0 <= qcount0 - qcount <= i - start && Rearranged(items, items0, start, qcount0 - qcount, i)
      decreases end - i
    {
      CountFirst(items0, i, end);
      assert items0[i] == items0[i..end][0] && items0[i + 1..end] == items0[i..end][1..];
      if items[i].Qmark? {
        MovedFront(items, items0, start, qcount0 - qcount, i);
        items := items[..start] + [items[i]] + items[start..i] + items[i + 1..];
        qcount := qcount - 1;
      }
      i := i + 1;
    }
    CountBound(items0[i..end]);
    assert forall k :: i <= k < end ==> items0[k] == items0[i..end][k - i];
  }

  lemma CountFirst(items: seq<Item>, i: nat, end: nat)
    requires i <= end <= |items| && CountQ(items[i..end]) > 0
    ensures i < end && CountQ(items[i..end]) == CountQ(items[i + 1..end]) + if items[i].Qmark? then 1 else 0
  {
    assert items[i..end] == [items[i]] + items[i + 1..end];
    CountConcat([items[i]], items[i + 1..end]);
    CountOne(items[i]);
  }

  /** Removes all but the last of the stars that fill `items0[from..end]`. */
  method DropStars(items0: seq<Item>, from: nat, end: nat, scount0: nat) returns (items: seq<Item>)
    requires from <= end <= |items0| && scount0 == end - from > 0
    requires forall k :: from <= k < end ==> items0[k].Star?
    ensures items == items0[..from] + [Star] + items0[end..]
  {
    items := items0;
    var scount := scount0;
    while scount > 1
      invariant 1 <= scount <= scount0 && items == items0[..from] + items0[end - scount..]
    {
      items := items[..from] + items[from + 1..];
      scount := scount - 1;
    }
    assert items0[end - 1..] == [Star] + items0[end..];
  }

  /** One round of simplify: the block of wildcards at `i` is put in normal form. */
  method SimplifyBlock(items0: seq<Item>, i: nat, end: nat, qcount: nat, scount: nat) returns (items: seq<Item>)
    requires i <= end <= |items0| && Wild(items0[i..end]) && scount > 0
    requires qcount == CountQ(items0[i..end]) && scount == CountS(items0[i..end])
    ensures items == items0[..i] + Block(items0[i..end]) + items0[end..]
  {
    CountBound(items0[i..end]);
    var moved := MoveQmarks(items0, i, end, qcount);
    items := DropStars(moved, i + qcount, end, scount);
    assert moved[..i + qcount] == items0[..i] + Repeat(Qmark, qcount);
    assert moved[end..] == items0[end..];
  }

  /** Question marks, possibly with one star at the end. */
  predicate NormalBlock(b: seq<Item>) {
    forall i :: 0 <= i < |b| ==> b[i].Qmark? || (i == |b| - 1 && b[i].Star?)
  }

  /** A normal beginning, a normal block and the text behind it are normal. */
  lemma NormalExtends(pre: seq<Item>, b: seq<Item>, post: seq<Item>)
    requires Normal(pre) && (pre != [] ==> pre[|pre| - 1].Text?) && NormalBlock(b)
    requires post != [] ==> post[0].Text?
    ensures Normal((pre + b + post)[..|pre| + |b| + if post == [] then 0 else 1])
  {
  }

  lemma BlockIsNormal(w: seq<Item>)
    requires Wild(w)
    ensures NormalBlock(Block(w)) && (CountS(w) == 0 ==> NormalBlock(w)) && |Block(w)| == CountQ(w) + if CountS(w) > 0 then 1 else 0
  {
    if CountS(w) == 0 {
      NoStars(w);
    }
  }

  /** One round of simplify: the block of wildcards at `i0` becomes normal. */
  method SimplifyStep(items0: seq<Item>, i0: nat, ghost fold: Fold) returns (items: seq<Item>, i: nat)
    requires i0 < |items0| && Normal(items0[..i0]) && (i0 > 0 ==> items0[i0 - 1].Text?) && NonEmpty(items0)
    ensures SameMeaning(items0, items, fold)
    ensures i <= |items| && |items| - i < |items0| - i0 && NonEmpty(items)
    ensures Normal(items[..i]) && (0 < i < |items| ==> items[i - 1].Text?)
  {
    var qcount, scount, end := CountBlock(items0, i0);
    ghost var w, pre, post := items0[i0..end], items0[..i0], items0[end..];
    assert items0 == pre + w + post && (post != [] ==> post[0].Text?);
    BlockIsNormal(w);
    CountBound(w);
    items := items0;
    ghost var b := w;
    if scount > 0 {
      items := SimplifyBlock(items0, i0, end, qcount, scount);
      BlockInside(pre, w, post, fold);
      b := Block(w);
      end := end - (scount - 1);
    }
    assert items == pre + b + post && end == |pre| + |b|;
    i := if end < |items| then end + 1 else end;
    Stepped(items0, items, pre, w, b, post, i);
  }

  lemma Stepped(items0: seq<Item>, items: seq<Item>, pre: seq<Item>, w: seq<Item>, b: seq<Item>, post: seq<Item>, i: nat)
    requires items0 == pre + w + post && items == pre + b + post && NonEmpty(items0) && NormalBlock(b) && |b| <= |w|
    requires Normal(pre) && (pre != [] ==> pre[|pre| - 1].Text?)
    requires i == |pre| + |b| + (if post == [] then 0 else 1) && (post != [] ==> post[0].Text?) && w + post != []
    ensures i <= |items| && |items| - i < |items0| - |pre| && NonEmpty(items) && (0 < i < |items| ==> items[i - 1].Text?)
    ensures Normal(items[..i])
  {
    NormalExtends(pre, b, post);
    forall k | 0 <= k < |items| && items[k].Text? ensures items[k].text != [] {
      if k < |pre| {
        assert items0[k] == items[k];
      } else {
        assert k >= |pre| + |b|;
        assert items0[k - |b| + |w|] == items[k];
      }
    }
  }

  /** simplify: the result matches the same texts and every star is followed by text or the end. */
  method Simplify(items0: seq<Item>, ghost fold: Fold) returns (items: seq<Item>)
    requires NonEmpty(items0)
    ensures SameMeaning(items0, items, fold) && Normal(items) && NonEmpty(items)
  {
    items := items0;
    var i := 0;
    while i < |items|
      invariant 0 <= i <= |items| && SameMeaning(items0, items, fold) && NonEmpty(items)
      invariant Normal(items[..i]) && (0 < i < |items| ==> items[i - 1].Text?)
      decreases |items| - i
    {
      items, i := SimplifyStep(items, i, fold);
    }
    assert items[..i] == items;
  }

  lemma NoStars(w: seq<Item>)
    requires Wild(w) && CountS(w) == 0
    ensures forall i :: 0 <= i < |w| ==> w[i].Qmark?
  {
    if w != [] {
      NoStars(w[..|w| - 1]);
    }
  }

  /** glob_compile. */
  method Compile(pattern: string, ghost fold: Fold) returns (items: seq<Item>)
    ensures Normal(items) && NonEmpty(items)
    ensures forall t :: Matches(Flatten(items), t, fold) <==> Matches(Tokens(pattern), t, fold)
  {
    items := Scan(pattern);
    items := Simplify(items, fold);
  }

  /* do_glob_match. */

  /** u_strncase_equal_base at a position of the text. */
  predicate EqualAt(text: string, p: nat, needle: string, fold: Fold) {
    p + |needle| <= |text| && forall i :: 0 <= i < |needle| ==> fold(needle[i]) == fold(text[p + i])
  }

  /** u_strcasestr_base: the first occurrence, or -1. */
  method Find(text: string, needle: string, fold: Fold) returns (p: int)
    ensures p >= 0 ==> EqualAt(text, p, needle, fold)
    ensures forall k :: 0 <= k <= |text| && (p < 0 || k < p) ==> !EqualAt(text, k, needle, fold)
  {
    p := 0;
    while p + |needle| <= |text|
      invariant 0 <= p && forall k :: 0 <= k < p ==> !EqualAt(text, k, needle, fold)
    {
      if EqualAt(text, p, needle, fold) {
        return;
      }
      p := p + 1;
    }
    p := -1;
  }

  lemma {:induction false} LitsMeaning(needle: string, rest: seq<Token>, text: string, fold: Fold)
    ensures Matches(Lits(needle) + rest, text, fold) <==> EqualAt(text, 0, needle, fold) && Matches(rest, text[|needle|..], fold)
    decreases |needle|
  {
    var toks := Lits(needle) + rest;
    if needle == [] {
      assert toks == rest && text[0..] == text;
    } else {
      assert toks[0] == Lit(needle[0]) && toks[1..] == Lits(needle[1..]) + rest;
      if text != [] {
        LitsMeaning(needle[1..], rest, text[1..], fold);
        if EqualAt(text, 0, needle, fold) {
          assert text[1..][|needle| - 1..] == text[|needle|..];
          forall i | 0 <= i < |needle[1..]| ensures fold(needle[1..][i]) == fold(text[1..][0 + i]) {
            assert fold(needle[i + 1]) == fold(text[0 + (i + 1)]);
          }
        }
        if EqualAt(text[1..], 0, needle[1..], fold) && fold(needle[0]) == fold(text[0]) {
          forall i | 0 <= i < |needle| ensures fold(needle[i]) == fold(text[0 + i]) {
            if i > 0 { assert fold(needle[1..][i - 1]) == fold(text[1..][0 + (i - 1)]); }
          }
          assert text[1..][|needle| - 1..] == text[|needle|..];
        }
      }
    }
  }

  lemma EqualShifted(text: string, k: nat, p: nat, needle: string, fold: Fold)
    requires k <= |text|
    ensures EqualAt(text[k..], p, needle, fold) <==> EqualAt(text, k + p, needle, fold)
  {
    if EqualAt(text[k..], p, needle, fold) {
      forall i | 0 <= i < |needle| ensures fold(needle[i]) == fold(text[k + p + i]) {
        assert text[k..][p + i] == text[k + p + i];
      }
    }
    if EqualAt(text, k + p, needle, fold) {
      forall i | 0 <= i < |needle| ensures fold(needle[i]) == fold(text[k..][p + i]) {
        assert text[k..][p + i] == text[k + p + i];
      }
    }
  }

  lemma LitsAt(needle: string, rest: seq<Token>, text: string, p: nat, fold: Fold)
    requires p <= |text|
    ensures Matches(Lits(needle) + rest, text[p..], fold) <==> EqualAt(text, p, needle, fold) && Matches(rest, text[p + |needle|..], fold)
  {
    LitsMeaning(needle, rest, text[p..], fold);
    EqualShifted(text, p, 0, needle, fold);
    if EqualAt(text, p, needle, fold) {
      assert text[p..][|needle|..] == text[p + |needle|..];
    }
  }

  /** The needle stands at `p` and the rest matches behind it. */
  ghost predicate FoundAt(text: string, p: int, needle: string, rest: seq<Token>, fold: Fold) {
    0 <= p <= |text| && EqualAt(text, p, needle, fold) && Matches(rest, text[p + |needle|..], fold)
  }

  /** A star in front of text: some occurrence of the text must be followed by a match. */
  lemma StarText(needle: string, rest: seq<Token>, text: string, fold: Fold)
    ensures Matches([AnySeq] + (Lits(needle) + rest), text, fold) <==> exists p :: FoundAt(text, p, needle, rest, fold)
  {
    var toks := [AnySeq] + (Lits(needle) + rest);
    assert toks[0] == AnySeq && toks[1..] == Lits(needle) + rest;
    if Matches(toks, text, fold) {
      var k :| 0 <= k <= |text| && Matches(toks[1..], text[k..], fold);
      LitsAt(needle, rest, text, k, fold);
      assert FoundAt(text, k, needle, rest, fold);
    }
    if p :| FoundAt(text, p, needle, rest, fold) {
      LitsAt(needle, rest, text, p, fold);
    }
  }

  lemma FoundShifted(needle: string, rest: seq<Token>, text: string, k: nat, p: int, fold: Fold)
    requires k <= |text| && 0 <= p
    ensures FoundAt(text[k..], p, needle, rest, fold) <==> FoundAt(text, k + p, needle, rest, fold)
  {
    EqualShifted(text, k, p, needle, fold);
    if k + p + |needle| <= |text| {
      assert text[k..][p + |needle|..] == text[k + p + |needle|..];
    }
  }

  lemma FoundBehind(needle: string, rest: seq<Token>, text: string, t: string, pos: nat, fold: Fold)
    requires pos < |text| && t == text[pos + 1..] && forall k :: 0 <= k <= pos ==> !FoundAt(text, k, needle, rest, fold)
    ensures (exists p :: FoundAt(text, p, needle, rest, fold)) <==> exists p :: FoundAt(t, p, needle, rest, fold)
  {
    if p :| FoundAt(text, p, needle, rest, fold) {
      FoundShifted(needle, rest, text, pos + 1, p - pos - 1, fold);
    }
    if p :| FoundAt(t, p, needle, rest, fold) {
      FoundShifted(needle, rest, text, pos + 1, p, fold);
    }
  }

  /** The search loop behind a star may go on behind a position that did not work out. */
  lemma StarSkips(needle: string, rest: seq<Token>, text: string, pos: nat, fold: Fold)
    requires pos < |text| && forall k :: 0 <= k <= pos ==> !FoundAt(text, k, needle, rest, fold)
    ensures Matches([AnySeq] + (Lits(needle) + rest), text, fold) <==> Matches([AnySeq] + (Lits(needle) + rest), text[pos + 1..], fold)
  {
    StarText(needle, rest, text, fold);
    StarText(needle, rest, text[pos + 1..], fold);
    FoundBehind(needle, rest, text, text[pos + 1..], pos, fold);
  }

  lemma TextStep(items: seq<Item>, item: nat, text: string, fold: Fold)
    requires item < |items| && items[item].Text?
    ensures var t := items[item].text;
            Matches(Flatten(items[item..]), text, fold) <==> EqualAt(text, 0, t, fold) && Matches(Flatten(items[item + 1..]), text[|t|..], fold)
  {
    assert items[item..][0] == items[item] && items[item..][1..] == items[item + 1..];
    LitsMeaning(items[item].text, Flatten(items[item + 1..]), text, fold);
  }

  lemma QmarkStep(items: seq<Item>, item: nat, text: string, fold: Fold)
    requires item < |items| && items[item].Qmark?
    ensures Matches(Flatten(items[item..]), text, fold) <==> text != [] && Matches(Flatten(items[item + 1..]), text[1..], fold)
  {
    assert items[item..][0] == items[item] && items[item..][1..] == items[item + 1..];
    assert Flatten(items[item..])[1..] == Flatten(items[item + 1..]);
  }

  /** do_glob_match on a normal pattern decides the declarative meaning. */
  method DoMatch(items: seq<Item>, first: nat, text0: string, fold: Fold) returns (matched: bool)
    requires Normal(items) && NonEmpty(items) && first <= |items|
    ensures matched <==> Matches(Flatten(items[first..]), text0, fold)
    decreases |items| - first
  {
    var item, text := first, text0;
    while item < |items|
      invariant first <= item <= |items|
      invariant Matches(Flatten(items[first..]), text0, fold) <==> Matches(Flatten(items[item..]), text, fold)
    {
      match items[item] {
        case Text(t) =>
          TextStep(items, item, text, fold);
          if !EqualAt(text, 0, t, fold) {
            return false;
          }
          text := text[|t|..];
        case Qmark =>
          QmarkStep(items, item, text, fold);
          if text == [] {
            return false;
          }
          text := text[1..];
        case Star =>
          matched := MatchStar(items, item, text, fold);
          return;
      }
      item := item + 1;
    }
    matched := text == [];
  }

  method MatchStar(items: seq<Item>, item: nat, text0: string, fold: Fold) returns (matched: bool)
    requires Normal(items) && NonEmpty(items) && item < |items| && items[item].Star?
    ensures matched <==> Matches(Flatten(items[item..]), text0, fold)
    decreases |items| - item, 0
  {
    var text := text0;
    var next := item + 1;
    if next == |items| {
      StarAtEnd(items, item, text0, fold);
      return true;
    }
    var t := items[next].text;
    ghost var rest := Flatten(items[next + 1..]);
    StarItems(items, item);
    while true
      invariant Matches(Flatten(items[item..]), text0, fold) <==> Matches([AnySeq] + (Lits(t) + rest), text, fold)
      decreases |text|
    {
      var pos := Find(text, t, fold);
      if pos < 0 {
        StarText(t, rest, text, fold);
        return false;
      }
      var found := DoMatch(items, next + 1, text[pos + |t|..], fold);
      StarRound(t, rest, text, pos, found, fold);
      if found {
        return true;
      }
      text := text[pos + 1..];
    }
  }

  lemma StarAtEnd(items: seq<Item>, item: nat, text: string, fold: Fold)
    requires item + 1 == |items| && items[item].Star?
    ensures Matches(Flatten(items[item..]), text, fold)
  {
    assert items[item..] == [Star] && [Star][1..] == [] && [AnySeq] + [] == [AnySeq];
    assert Flatten(items[item..]) == [AnySeq] && [AnySeq][1..] == [];
    assert Matches([], text[|text|..], fold);
  }

  /** A star and the text behind it. */
  lemma StarItems(items: seq<Item>, item: nat)
    requires item + 1 < |items| && items[item].Star? && items[item + 1].Text?
    ensures Flatten(items[item..]) == [AnySeq] + (Lits(items[item + 1].text) + Flatten(items[item + 2..]))
  {
    assert items[item..][1..] == items[item + 1..] && items[item + 1..][1..] == items[item + 2..];
  }

  /** What the first occurrence of the text decides. */
  lemma StarRound(t: string, rest: seq<Token>, text: string, pos: nat, found: bool, fold: Fold)
    requires t != [] && EqualAt(text, pos, t, fold) && forall k :: 0 <= k < pos ==> !EqualAt(text, k, t, fold)
    requires found <==> Matches(rest, text[pos + |t|..], fold)
    ensures found ==> Matches([AnySeq] + (Lits(t) + rest), text, fold)
    ensures !found ==> (Matches([AnySeq] + (Lits(t) + rest), text, fold) <==> Matches([AnySeq] + (Lits(t) + rest), text[pos + 1..], fold))
  {
    assert found <==> FoundAt(text, pos, t, rest, fold);
    if found {
      StarText(t, rest, text, fold);
    } else {
      StarSkips(t, rest, text, pos, fold);
    }
  }

  /** glob_compile followed by glob_match: exactly the texts the escaped pattern describes. */
  method GlobMatch(pattern: string, text: string, fold: Fold) returns (matched: bool)
    ensures matched <==> Matches(Tokens(pattern), text, fold)
  {
    var items := Compile(pattern, fold);
    matched := DoMatch(items, 0, text, fold);
    assert items[0..] == items;
  }
}
