/** The texts that format_skip_cond_expr of app/format_print.c passes over on its way to the next '?' or
    '}' of a conditional. */
module FormatScan {
  import opened Common
  import opened Formats

  /** The text `x` stands at `p`. */
  predicate Starts(f: string, p: nat, x: string) {
    p + |x| <= |f| && f[p..p + |x|] == x
  }

  lemma StartsBoth(f: string, p: nat, x: string, y: string)
    ensures Starts(f, p, x + y) <==> Starts(f, p, x) && Starts(f, p + |x|, y)
  {
    if p + |x| + |y| <= |f| {
      assert f[p..p + |x + y|] == f[p..p + |x|] + f[p + |x|..p + |x| + |y|];
      if f[p..p + |x + y|] == x + y {
        assert f[p..p + |x|] == (x + y)[..|x|] && f[p + |x|..p + |x| + |y|] == (x + y)[|x|..];
      }
    }
  }

  lemma StartsChar(f: string, p: nat, c: char)
    ensures Starts(f, p, [c]) <==> p < |f| && f[p] == c
  {
  }

  lemma StartsCons(f: string, p: nat, c: char, x: string)
    ensures Starts(f, p, [c] + x) <==> p < |f| && f[p] == c && Starts(f, p + 1, x)
  {
    StartsBoth(f, p, [c], x);
    StartsChar(f, p, c);
  }

  lemma StartsEmpty(f: string, p: nat)
    requires p <= |f|
    ensures Starts(f, p, "")
  {
  }

  lemma FirstOf(f: string, p: nat, x: string)
    requires Starts(f, p, x) && x != ""
    ensures p < |f| && f[p] == x[0]
  {
    assert f[p..p + |x|][0] == f[p];
  }

  lemma StartsSlice(f: string, p: nat, e: nat)
    requires p <= e <= |f|
    ensures Starts(f, p, f[p..e])
  {
  }

  function Flag(on: bool, c: char): string {
    if on then [c] else ""
  }

  lemma StartsFlag(f: string, p: nat, on: bool, c: char, x: string)
    requires c != '\0'
    ensures Starts(f, p, Flag(on, c) + x) <==> Starts(f, p + |Flag(on, c)|, x) && (on ==> At(f, p) == c)
  {
    if on {
      StartsCons(f, p, c, x);
    } else {
      assert "" + x == x;
    }
  }

  predicate AllDigits(s: string) {
    forall i :: 0 <= i < |s| ==> IsDigit(s[i])
  }

  /** An alignment, a dot and digits. */
  datatype Pad = Pad(left: bool, dot: bool, digits: string)

  function PadText(p: Pad): string {
    Flag(p.left, '-') + (Flag(p.dot, '.') + p.digits)
  }

  /** `c` behind it does not belong to it. */
  predicate Ends(p: Pad, c: char) {
    AllDigits(p.digits) && !IsDigit(c) && (p.digits == "" && !p.dot ==> c != '.' && (!p.left ==> c != '-'))
  }

  /** A text outside of braces is made of characters, escapes, fields of one letter, and braces with
      more of it in between. */
  datatype Item = Ch(c: char) | Esc(c: char) | Short(pad: Pad, c: char) | Braces(pad: Pad, inner: seq<Item>)

  /** The characters that stand for themselves; a question mark does so in braces only. */
  predicate ItemOk(i: Item, inside: bool) {
    match i
    case Ch(c) => c != '%' && c != '}' && (inside || c != '?')
    case Esc(c) => Escape(c)
    case Short(pad, c) => Ends(pad, c) && c != '{' && (PadText(pad) == "" ==> !Escape(c))
    case Braces(pad, inner) => Ends(pad, '{') && ItemsOk(inner, true)
  }

  predicate ItemsOk(items: seq<Item>, inside: bool) {
    items == [] || (ItemOk(items[0], inside) && ItemsOk(items[1..], inside))
  }

  function ItemText(i: Item): string {
    match i
    case Ch(c) => [c]
    case Esc(c) => ['%'] + [c]
    case Short(pad, c) => ['%'] + (PadText(pad) + [c])
    case Braces(pad, inner) => ['%'] + (PadText(pad) + (['{'] + (ItemsText(inner) + ['}'])))
  }

  function ItemsText(items: seq<Item>): string {
    if items == [] then "" else ItemText(items[0]) + ItemsText(items[1..])
  }

  /** In `x` every '?' and every '}' belongs to a field, an escape or a pair of braces. */
  ghost predicate Scannable(x: string) {
    exists items :: ItemsOk(items, false) && ItemsText(items) == x
  }

  predicate NoNul(f: string) {
    forall i :: 0 <= i < |f| ==> f[i] != '\0'
  }

  lemma {:induction false} StartsDigits(f: string, p: nat, digits: string)
    requires Starts(f, p, digits) && AllDigits(digits) && !IsDigit(At(f, p + |digits|))
    ensures Digits(f, p) == p + |digits|
    decreases |digits|
  {
    if digits != "" {
      assert digits == [digits[0]] + digits[1..];
      StartsCons(f, p, digits[0], digits[1..]);
      StartsDigits(f, p + 1, digits[1..]);
    }
  }

  /** An alignment, a dot and digits are skipped. */
  lemma PadPasses(f: string, p: nat, pad: Pad)
    requires Starts(f, p, PadText(pad)) && Ends(pad, At(f, p + |PadText(pad)|))
    ensures SkipWidth(f, p) == p + |PadText(pad)|
  {
    StartsFlag(f, p, pad.left, '-', Flag(pad.dot, '.') + pad.digits);
    var a := p + |Flag(pad.left, '-')|;
    StartsFlag(f, a, pad.dot, '.', pad.digits);
    var b := a + |Flag(pad.dot, '.')|;
    StartsDigits(f, b, pad.digits);
    if pad.digits != "" {
      FirstOf(f, b, pad.digits);
    }
    hide Starts, Digits;
  }

  /** And what is skipped is such a text. */
  lemma {:induction false} DigitsAre(f: string, p: nat)
    requires p <= |f|
    ensures AllDigits(f[p..Digits(f, p)])
    decreases |f| - p
  {
    if p < |f| && IsDigit(f[p]) {
      DigitsAre(f, p + 1);
      assert f[p..Digits(f, p)] == [f[p]] + f[p + 1..Digits(f, p + 1)];
    }
  }

  lemma PadAt(f: string, p: nat) returns (pad: Pad)
    requires p <= |f|
    ensures Starts(f, p, PadText(pad)) && p + |PadText(pad)| == SkipWidth(f, p) && Ends(pad, At(f, SkipWidth(f, p)))
  {
    var a := Past(f, p, '-');
    var b := Past(f, a, '.');
    DigitsAre(f, b);
    StartsSlice(f, b, Digits(f, b));
    hide Starts;
    pad := Pad(At(f, p) == '-', At(f, a) == '.', f[b..Digits(f, b)]);
    StartsFlag(f, a, pad.dot, '.', pad.digits);
    StartsFlag(f, p, pad.left, '-', Flag(pad.dot, '.') + pad.digits);
  }

  /** Behind '%' stand the padding and `c`, which is no part of it. */
  ghost predicate FieldStands(f: string, p: nat, pad: Pad, c: char) {
    var q := p + 1 + |PadText(pad)|;
    && q < |f| && f[p] == '%' && !Escape(f[p + 1]) && SkipWidth(f, p + 1) == q && f[q] == c
  }

  lemma FieldStarts(f: string, p: nat, pad: Pad, c: char, x: string)
    requires Starts(f, p, ['%'] + (PadText(pad) + ([c] + x))) && Ends(pad, c) && (PadText(pad) == "" ==> !Escape(c))
    ensures FieldStands(f, p, pad, c) && Starts(f, p + 2 + |PadText(pad)|, x)
  {
    hide Starts, SkipWidth;
    StartsCons(f, p, '%', PadText(pad) + ([c] + x));
    StartsBoth(f, p + 1, PadText(pad), [c] + x);
    StartsCons(f, p + 1 + |PadText(pad)|, c, x);
    PadPasses(f, p + 1, pad);
    if PadText(pad) != "" {
      FirstOf(f, p + 1, PadText(pad));
      PadNoEscape(pad);
    }
  }

  lemma PadNoEscape(pad: Pad)
    requires PadText(pad) != "" && AllDigits(pad.digits)
    ensures !Escape(PadText(pad)[0])
  {
  }

  lemma EscapeStarts(f: string, p: nat, c: char)
    ensures Starts(f, p, ['%'] + [c]) <==> p + 1 < |f| && f[p] == '%' && f[p + 1] == c
  {
    StartsCons(f, p, '%', [c]);
    StartsChar(f, p + 1, c);
  }

  lemma ShortStarts(f: string, p: nat, pad: Pad, c: char)
    requires Starts(f, p, ItemText(Short(pad, c))) && ItemOk(Short(pad, c), true)
    ensures FieldStands(f, p, pad, c)
  {
    assert [c] + "" == [c];
    FieldStarts(f, p, pad, c, "");
  }

  lemma BracesStart(f: string, p: nat, pad: Pad, inner: seq<Item>)
    requires Starts(f, p, ItemText(Braces(pad, inner))) && Ends(pad, '{')
    ensures FieldStands(f, p, pad, '{')
    ensures var q := p + 2 + |PadText(pad)|; Starts(f, q, ItemsText(inner)) && q + |ItemsText(inner)| < |f| && f[q + |ItemsText(inner)|] == '}'
  {
    hide Starts, SkipWidth;
    var q := p + 2 + |PadText(pad)|;
    FieldStarts(f, p, pad, '{', ItemsText(inner) + ['}']);
    StartsBoth(f, q, ItemsText(inner), ['}']);
    StartsChar(f, q + |ItemsText(inner)|, '}');
  }

  /** The loop that looks for a closing brace passes over everything that is made like that. */
  lemma {:induction false} UnbracePasses(f: string, p: nat, items: seq<Item>, level: nat)
    requires NoNul(f) && level > 0 && ItemsOk(items, true) && Starts(f, p, ItemsText(items))
    ensures Unbrace(f, p, level) == Unbrace(f, p + |ItemsText(items)|, level)
    decreases items, 0
  {
    hide Unbrace, Starts, ItemOk, ItemText;
    if items != [] {
      StartsBoth(f, p, ItemText(items[0]), ItemsText(items[1..]));
      UnbraceItem(f, p, items[0], level);
      UnbracePasses(f, p + |ItemText(items[0])|, items[1..], level);
    }
  }

  lemma {:induction false} UnbraceItem(f: string, p: nat, i: Item, level: nat)
    requires NoNul(f) && level > 0 && ItemOk(i, true) && Starts(f, p, ItemText(i))
    ensures Unbrace(f, p, level) == Unbrace(f, p + |ItemText(i)|, level)
    decreases i
  {
    match i
    case Ch(c) => StartsChar(f, p, c);
    case Esc(c) => EscapeStarts(f, p, c);
    case Short(pad, c) => ShortStarts(f, p, pad, c);
    case Braces(pad, inner) => UnbraceBraces(f, p, pad, inner, level);
  }

  lemma {:induction false} UnbraceBraces(f: string, p: nat, pad: Pad, inner: seq<Item>, level: nat)
    requires NoNul(f) && level > 0 && ItemOk(Braces(pad, inner), true) && Starts(f, p, ItemText(Braces(pad, inner)))
    ensures Unbrace(f, p, level) == Unbrace(f, p + |ItemText(Braces(pad, inner))|, level)
    decreases inner, 1
  {
    hide Starts, Unbrace;
    var q := p + 2 + |PadText(pad)|;
    BracesStart(f, p, pad, inner);
    UnbraceOpens(f, p, pad, level);
    UnbracePasses(f, q, inner, level + 1);
    UnbraceCloses(f, q + |ItemsText(inner)|, level + 1);
  }

  lemma UnbraceOpens(f: string, p: nat, pad: Pad, level: nat)
    requires NoNul(f) && level > 0 && FieldStands(f, p, pad, '{')
    ensures Unbrace(f, p, level) == Unbrace(f, p + 2 + |PadText(pad)|, level + 1)
  {
  }

  lemma UnbraceCloses(f: string, p: nat, level: nat)
    requires level > 0 && p < |f| && f[p] == '}'
    ensures Unbrace(f, p, level) == Unbrace(f, p + 1, level - 1)
  {
  }

  /** format_skip_cond_expr passes over such a text. */
  lemma {:induction false} SkipPasses(f: string, p: nat, items: seq<Item>)
    requires NoNul(f) && ItemsOk(items, false) && Starts(f, p, ItemsText(items))
    ensures SkipCond(f, p) == SkipCond(f, p + |ItemsText(items)|)
    decreases items
  {
    hide SkipCond, Starts, ItemOk, ItemText;
    if items != [] {
      StartsBoth(f, p, ItemText(items[0]), ItemsText(items[1..]));
      SkipItem(f, p, items[0]);
      SkipPasses(f, p + |ItemText(items[0])|, items[1..]);
    }
  }

  lemma SkipItem(f: string, p: nat, i: Item)
    requires NoNul(f) && ItemOk(i, false) && Starts(f, p, ItemText(i))
    ensures SkipCond(f, p) == SkipCond(f, p + |ItemText(i)|)
  {
    match i
    case Ch(c) => StartsChar(f, p, c);
    case Esc(c) => EscapeStarts(f, p, c);
    case Short(pad, c) => ShortStarts(f, p, pad, c);
    case Braces(pad, inner) => SkipBraces(f, p, pad, inner);
  }

  lemma SkipBraces(f: string, p: nat, pad: Pad, inner: seq<Item>)
    requires NoNul(f) && ItemOk(Braces(pad, inner), false) && Starts(f, p, ItemText(Braces(pad, inner)))
    ensures SkipCond(f, p) == SkipCond(f, p + |ItemText(Braces(pad, inner))|)
  {
    var q := p + 2 + |PadText(pad)|;
    BracesStart(f, p, pad, inner);
    hide Starts, Unbrace, ItemsText, ItemsOk;
    UnbracePasses(f, q, inner, 1);
    UnbraceCloses(f, q + |ItemsText(inner)|, 1);
    UnbraceDone(f, q + |ItemsText(inner)| + 1);
    SkipOpens(f, p, pad);
  }

  lemma UnbraceDone(f: string, p: nat)
    ensures Unbrace(f, p, 0) == Some(p)
  {
  }

  lemma SkipOpens(f: string, p: nat, pad: Pad)
    requires FieldStands(f, p, pad, '{') && Unbrace(f, p + 2 + |PadText(pad)|, 1).Some?
    ensures SkipCond(f, p) == SkipCond(f, Unbrace(f, p + 2 + |PadText(pad)|, 1).value)
  {
  }

  /* And what they pass over is such a text. */

  /** `items` stand at `p`, up to `e`. */
  ghost predicate Stand(f: string, p: nat, e: nat, items: seq<Item>, inside: bool) {
    Starts(f, p, ItemsText(items)) && p + |ItemsText(items)| == e && ItemsOk(items, inside)
  }

  lemma ItemFirst(f: string, p: nat, e: nat, i: Item, items: seq<Item>, inside: bool)
    requires Starts(f, p, ItemText(i)) && ItemOk(i, inside) && Stand(f, p + |ItemText(i)|, e, items, inside)
    ensures Stand(f, p, e, [i] + items, inside)
  {
    hide Starts, ItemOk, ItemText;
    assert ([i] + items)[1..] == items;
    StartsBoth(f, p, ItemText(i), ItemsText(items));
  }

  lemma CharFirst(f: string, p: nat, e: nat, items: seq<Item>, inside: bool) returns (all: seq<Item>)
    requires p < |f| && Stand(f, p + 1, e, items, inside) && f[p] != '%' && f[p] != '}' && (inside || f[p] != '?')
    ensures Stand(f, p, e, all, inside)
  {
    hide Stand;
    StartsChar(f, p, f[p]);
    ItemFirst(f, p, e, Ch(f[p]), items, inside);
    all := [Ch(f[p])] + items;
  }

  lemma EscapeFirst(f: string, p: nat, e: nat, items: seq<Item>, inside: bool) returns (all: seq<Item>)
    requires p + 1 < |f| && Stand(f, p + 2, e, items, inside) && f[p] == '%' && Escape(f[p + 1])
    ensures Stand(f, p, e, all, inside)
  {
    hide Stand;
    EscapeStarts(f, p, f[p + 1]);
    ItemFirst(f, p, e, Esc(f[p + 1]), items, inside);
    all := [Esc(f[p + 1])] + items;
  }

  lemma ShortFirst(f: string, p: nat, e: nat, items: seq<Item>, inside: bool) returns (all: seq<Item>)
    requires p + 1 < |f| && f[p] == '%' && !Escape(f[p + 1])
    requires var q := SkipWidth(f, p + 1); q < |f| && f[q] != '{' && Stand(f, q + 1, e, items, inside)
    ensures Stand(f, p, e, all, inside)
  {
    hide Stand, Starts;
    var q := SkipWidth(f, p + 1);
    var pad := PadAt(f, p + 1);
    hide SkipWidth;
    StartsChar(f, q, f[q]);
    StartsBoth(f, p + 1, PadText(pad), [f[q]]);
    StartsCons(f, p, '%', PadText(pad) + [f[q]]);
    ItemFirst(f, p, e, Short(pad, f[q]), items, inside);
    all := [Short(pad, f[q])] + items;
  }

  lemma BracesFirst(f: string, p: nat, m: nat, e: nat, inner: seq<Item>, items: seq<Item>, inside: bool) returns (all: seq<Item>)
    requires p + 1 < |f| && f[p] == '%' && 0 < m <= |f| && f[m - 1] == '}' && Stand(f, m, e, items, inside)
    requires var q := SkipWidth(f, p + 1); q < |f| && f[q] == '{' && Stand(f, q + 1, m - 1, inner, true)
    ensures Stand(f, p, e, all, inside)
  {
    hide Starts;
    var q := SkipWidth(f, p + 1);
    var pad := PadAt(f, p + 1);
    hide SkipWidth;
    StartsChar(f, m - 1, '}');
    StartsBoth(f, q + 1, ItemsText(inner), ['}']);
    StartsCons(f, q, '{', ItemsText(inner) + ['}']);
    StartsBoth(f, p + 1, PadText(pad), ['{'] + (ItemsText(inner) + ['}']));
    StartsCons(f, p, '%', PadText(pad) + (['{'] + (ItemsText(inner) + ['}'])));
    assert p + |ItemText(Braces(pad, inner))| == m;
    hide Stand;
    ItemFirst(f, p, e, Braces(pad, inner), items, inside);
    all := [Braces(pad, inner)] + items;
  }

  /** One step of the loop that looks for a closing brace. */
  lemma UnbraceStep(f: string, p: nat, level: nat)
    requires p <= |f| && level > 0 && Unbrace(f, p, level).Some?
    ensures p < |f|
    ensures f[p] == '}' ==> Unbrace(f, p, level) == Unbrace(f, p + 1, level - 1)
    ensures f[p] != '}' && f[p] != '%' ==> Unbrace(f, p, level) == Unbrace(f, p + 1, level)
    ensures f[p] == '%' ==> p + 1 < |f|
    ensures f[p] == '%' && Escape(f[p + 1]) ==> Unbrace(f, p, level) == Unbrace(f, p + 2, level)
    ensures f[p] == '%' && !Escape(f[p + 1]) ==> var q := SkipWidth(f, p + 1);
              q < |f| && Unbrace(f, p, level) == Unbrace(f, q + 1, if f[q] == '{' then level + 1 else level)
  {
  }

  /** What is closed by a brace is such a text. */
  lemma {:induction false} UnbraceSound(f: string, p: nat, level: nat) returns (items: seq<Item>, r: nat)
    requires p <= |f| && level > 0 && Unbrace(f, p, level).Some?
    ensures p < r <= |f| && f[r - 1] == '}' && Stand(f, p, r - 1, items, true)
    ensures Unbrace(f, p, level) == Unbrace(f, r, level - 1)
    decreases |f| - p, 1
  {
    UnbraceStep(f, p, level);
    if f[p] == '}' {
      items, r := [], p + 1;
      StartsEmpty(f, p);
    } else {
      hide Unbrace, Stand, SkipWidth;
      if f[p] != '%' {
        items, r := UnbraceSound(f, p + 1, level);
        items := CharFirst(f, p, r - 1, items, true);
      } else if Escape(f[p + 1]) {
        items, r := UnbraceSound(f, p + 2, level);
        items := EscapeFirst(f, p, r - 1, items, true);
      } else {
        items, r := UnbraceFieldSound(f, p, level);
      }
    }
  }

  lemma {:induction false} UnbraceFieldSound(f: string, p: nat, level: nat) returns (items: seq<Item>, r: nat)
    requires p + 1 < |f| && level > 0 && Unbrace(f, p, level).Some? && f[p] == '%' && !Escape(f[p + 1])
    ensures p < r <= |f| && f[r - 1] == '}' && Stand(f, p, r - 1, items, true)
    ensures Unbrace(f, p, level) == Unbrace(f, r, level - 1)
    decreases |f| - p, 0
  {
    hide Unbrace, Stand, SkipWidth;
    UnbraceStep(f, p, level);
    var q := SkipWidth(f, p + 1);
    if f[q] == '{' {
      var inner, m := UnbraceSound(f, q + 1, level + 1);
      items, r := UnbraceSound(f, m, level);
      items := BracesFirst(f, p, m, r - 1, inner, items, true);
    } else {
      items, r := UnbraceSound(f, q + 1, level);
      items := ShortFirst(f, p, r - 1, items, true);
    }
  }

  /** One step of format_skip_cond_expr. */
  lemma SkipStep(f: string, p: nat)
    requires p <= |f| && SkipCond(f, p).0 != '\0'
    ensures p < |f|
    ensures f[p] == '}' || f[p] == '?' ==> SkipCond(f, p) == (f[p], p + 1)
    ensures f[p] != '}' && f[p] != '?' && f[p] != '%' ==> SkipCond(f, p) == SkipCond(f, p + 1)
    ensures f[p] == '%' ==> p + 1 < |f|
    ensures f[p] == '%' && Escape(f[p + 1]) ==> SkipCond(f, p) == SkipCond(f, p + 2)
    ensures f[p] == '%' && !Escape(f[p + 1]) ==> var q := SkipWidth(f, p + 1);
              && q < |f| && (f[q] == '{' ==> Unbrace(f, q + 1, 1).Some?)
              && SkipCond(f, p) == SkipCond(f, if f[q] == '{' then Unbrace(f, q + 1, 1).value else q + 1)
  {
  }

  lemma {:induction false} SkipSound(f: string, p: nat) returns (items: seq<Item>)
    requires p <= |f| && SkipCond(f, p).0 != '\0'
    ensures Stand(f, p, SkipCond(f, p).1 - 1, items, false)
    decreases |f| - p, 1
  {
    var e := SkipCond(f, p).1 - 1;
    SkipStep(f, p);
    if f[p] == '}' || f[p] == '?' {
      items := [];
      StartsEmpty(f, p);
    } else {
      hide SkipCond, Stand, SkipWidth;
      if f[p] != '%' {
        items := SkipSound(f, p + 1);
        items := CharFirst(f, p, e, items, false);
      } else if Escape(f[p + 1]) {
        items := SkipSound(f, p + 2);
        items := EscapeFirst(f, p, e, items, false);
      } else {
        items := SkipFieldSound(f, p);
      }
    }
  }

  lemma {:induction false} SkipFieldSound(f: string, p: nat) returns (items: seq<Item>)
    requires p + 1 < |f| && SkipCond(f, p).0 != '\0' && f[p] == '%' && !Escape(f[p + 1])
    ensures Stand(f, p, SkipCond(f, p).1 - 1, items, false)
    decreases |f| - p, 0
  {
    hide SkipCond, Unbrace, Stand, SkipWidth;
    SkipStep(f, p);
    var q := SkipWidth(f, p + 1);
    if f[q] == '{' {
      var m := Unbrace(f, q + 1, 1).value;
      items := SkipSound(f, m);
      items := SkipBracesSound(f, p, SkipCond(f, p).1 - 1, items);
    } else {
      items := SkipSound(f, q + 1);
      items := ShortFirst(f, p, SkipCond(f, q + 1).1 - 1, items, false);
    }
  }

  lemma SkipBracesSound(f: string, p: nat, e: nat, items: seq<Item>) returns (all: seq<Item>)
    requires p + 1 < |f| && f[p] == '%' && !Escape(f[p + 1])
    requires var q := SkipWidth(f, p + 1); q < |f| && f[q] == '{' && Unbrace(f, q + 1, 1).Some? && Stand(f, Unbrace(f, q + 1, 1).value, e, items, false)
    ensures Stand(f, p, e, all, false)
  {
    hide Stand, SkipWidth, Unbrace;
    var inner, m := BracesSound(f, SkipWidth(f, p + 1) + 1);
    all := BracesFirst(f, p, m, e, inner, items, false);
  }

  lemma BracesSound(f: string, p: nat) returns (items: seq<Item>, r: nat)
    requires p <= |f| && Unbrace(f, p, 1).Some?
    ensures p < r <= |f| && f[r - 1] == '}' && Stand(f, p, r - 1, items, true) && Unbrace(f, p, 1) == Some(r)
  {
    items, r := UnbraceSound(f, p, 1);
  }

  /** format_skip_cond_expr finds the first '?' or '}' that belongs to no field, escape or pair of
      braces, nested ones included. */
  lemma SkipCondFinds(f: string, p: nat, c: char, r: nat)
    requires NoNul(f) && p <= |f| && c != '\0'
    ensures SkipCond(f, p) == (c, r) <==> p < r <= |f| && f[r - 1] == c && (c == '?' || c == '}') && Scannable(f[p..r - 1])
  {
    hide ItemsOk, ItemsText;
    if SkipCond(f, p) == (c, r) {
      var items := SkipSound(f, p);
    } else if p < r <= |f| && f[r - 1] == c && (c == '?' || c == '}') && Scannable(f[p..r - 1]) {
      var items :| ItemsOk(items, false) && ItemsText(items) == f[p..r - 1];
      SkipPasses(f, p, items);
    }
  }
}
