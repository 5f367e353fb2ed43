/** The language of format strings, as a grammar. The text of each part follows from the part and not
    from reading it; the reader of app/format_print.c accepts exactly these texts, with this meaning.
    A `hide` at the end of a proof keeps the predicates of its contract folded where it is called. */
module FormatGrammar {
  import opened Common
  import opened Formats
  import opened FormatScan

  /** The part between the percent sign and the field. */
  datatype Prefix = Prefix(left: bool, dot: bool, zero: bool, digits: string, percent: bool)

  function NumberText(pre: Prefix): string {
    Flag(pre.zero, '0') + (pre.digits + Flag(pre.percent, '%'))
  }

  function PrefixText(p: Prefix): string {
    Flag(p.left, '-') + (Flag(p.dot, '.') + NumberText(p))
  }

  /** The number that a text of digits stands for. */
  function Decimal(digits: string): nat
    requires AllDigits(digits)
  {
    if digits == "" then 0 else Decimal(digits[..|digits| - 1]) * 10 + (digits[|digits| - 1] as int - 48)
  }

  function SpecOf(p: Prefix): Spec
    requires AllDigits(p.digits)
  {
    Spec(p.left, !p.dot, p.zero, Decimal(p.digits), p.percent)
  }

  /** `c` may stand behind the prefix: it is no part of it, and with it the text is no escape. */
  predicate Before(p: Prefix, c: char) {
    && AllDigits(p.digits) && (!p.zero && p.digits != "" ==> p.digits[0] != '0')
    && (!p.percent ==> !IsDigit(c) && c != '%' && (p.digits == "" && !p.zero && !p.dot ==> c != '.' && (!p.left ==> c != '-')))
    && !Escape((PrefixText(p) + [c])[0])
  }

  /** Cut is a field or an escape that lacks its last character; what stands behind the format is taken
      for it. */
  datatype Part =
    | Raw(c: char) | Escaped(c: char)
    | ByLetter(pre: Prefix, c: char) | ByName(pre: Prefix, name: string)
    | Cond(pre: Prefix, cond: string, yes: seq<Part>, hasElse: bool, no: seq<Part>)
    | Cut(pre: Prefix)

  function PartText(part: Part): string {
    match part
    case Raw(c) => [c]
    case Escaped(c) => ['%'] + [c]
    case ByLetter(pre, c) => ['%'] + (PrefixText(pre) + [c])
    case ByName(pre, name) => ['%'] + (PrefixText(pre) + (['{'] + (name + ['}'])))
    case Cond(pre, cond, yes, hasElse, no) =>
      ['%'] + (PrefixText(pre) + (['{'] + (['?'] + CondText(cond, PartsText(yes), hasElse, PartsText(no)))))
    case Cut(pre) => ['%'] + PrefixText(pre)
  }

  function CondText(cond: string, yes: string, hasElse: bool, no: string): string {
    cond + (['?'] + (yes + if hasElse then ['?'] + (no + ['}']) else ['}']))
  }

  function PartsText(parts: seq<Part>): string {
    if parts == [] then "" else PartText(parts[0]) + PartsText(parts[1..])
  }

  /** What a part means, if it is in order. */
  ghost function Meaning(part: Part, t: Table): Option<Node> {
    match part
    case Raw(c) => if c == '%' then None else Some(Plain(c))
    case Escaped(c) => if Escape(c) then Some(Mark(c)) else None
    case ByLetter(pre, c) => if Before(pre, c) && c != '{' then Named(t.opts, c, "", SpecOf(pre)) else None
    case ByName(pre, name) =>
      if Before(pre, '{') && '}' !in name && (name != "" ==> name[0] != '?') then Named(t.opts, '}', name, SpecOf(pre)) else None
    case Cond(pre, cond, yes, hasElse, no) =>
      if !Before(pre, '{') || !Scannable(cond) || t.cond(cond).Null? || !Scannable(PartsText(yes)) || (hasElse && !Scannable(PartsText(no))) then None
      else
        var y := Meanings(yes, t, if hasElse then '?' else '}');
        var n := if hasElse then Meanings(no, t, '}') else Some([]);
        if y.None? || n.None? then None else Some(If(cond, y.value, n.value))
    case Cut(_) => None
  }

  /** What a cut part means in front of `next`. */
  function CutMeaning(pre: Prefix, t: Table, next: char): Option<Node> {
    if PrefixText(pre) == "" && Escape(next) then Some(Mark(next))
    else if Before(pre, next) then Named(t.opts, next, "", SpecOf(pre))
    else None
  }

  /** What a format means in front of `next`; only its last part may be cut. */
  ghost function Meanings(parts: seq<Part>, t: Table, next: char): Option<seq<Node>> {
    if parts == [] then Some([])
    else if parts[0].Cut? then
      if |parts| > 1 || CutMeaning(parts[0].pre, t, next).None? then None else Some([CutMeaning(parts[0].pre, t, next).value])
    else if Meaning(parts[0], t).None? then None
    else Cons(Meaning(parts[0], t).value, Meanings(parts[1..], t, next))
  }

  /** What stands behind a format: the end of the text, or what ends a part of a conditional. */
  predicate Closing(c: char) {
    c == '\0' || c == '?' || c == '}'
  }

  /* Prefixes. */

  lemma {:induction false} WidthUpTo(f: string, p: nat, digits: string, k: nat)
    requires Starts(f, p, digits) && AllDigits(digits) && k <= |digits|
    ensures Width(f, p, 0) == Width(f, p + k, Decimal(digits[..k]))
  {
    if k > 0 {
      WidthUpTo(f, p, digits, k - 1);
      assert digits[..k][..k - 1] == digits[..k - 1];
      assert f[p + (k - 1)] == f[p..p + |digits|][k - 1];
    }
    hide Starts, AllDigits;
  }

  lemma WidthIs(f: string, p: nat, digits: string)
    requires Starts(f, p, digits) && AllDigits(digits) && !IsDigit(At(f, p + |digits|))
    ensures Width(f, p, 0) == (Decimal(digits), p + |digits|)
  {
    WidthUpTo(f, p, digits, |digits|);
    assert digits[..|digits|] == digits;
    hide Starts, AllDigits;
  }

  lemma {:induction false} WidthEnd(f: string, p: nat, w: nat)
    requires p <= |f|
    ensures Width(f, p, w).1 == Digits(f, p)
    decreases |f| - p
  {
    if p < |f| && IsDigit(f[p]) {
      WidthEnd(f, p + 1, w * 10 + (f[p] as int - 48));
    }
  }

  /** The pieces of a prefix stand one behind the other. */
  ghost predicate PrefixStands(f: string, p: nat, pre: Prefix) {
    var a := p + |Flag(pre.left, '-')|;
    var b := a + |Flag(pre.dot, '.')|;
    (pre.left ==> At(f, p) == '-') && (pre.dot ==> At(f, a) == '.') && NumberStands(f, b, pre)
  }

  ghost predicate NumberStands(f: string, b: nat, pre: Prefix) {
    var c := b + |Flag(pre.zero, '0')|;
    var d := c + |pre.digits|;
    && (pre.zero ==> At(f, b) == '0') && Starts(f, c, pre.digits)
    && (pre.percent ==> At(f, d) == '%') && d + |Flag(pre.percent, '%')| <= |f|
  }

  lemma NumberStarts(f: string, b: nat, pre: Prefix)
    ensures Starts(f, b, NumberText(pre)) <==> NumberStands(f, b, pre)
  {
    var c := b + |Flag(pre.zero, '0')|;
    LastFlag(f, c + |pre.digits|, pre.percent, '%');
    hide Starts, Flag, At;
    StartsFlag(f, b, pre.zero, '0', pre.digits + Flag(pre.percent, '%'));
    StartsBoth(f, c, pre.digits, Flag(pre.percent, '%'));
    hide NumberStands;
  }

  lemma PrefixStarts(f: string, p: nat, pre: Prefix)
    ensures Starts(f, p, PrefixText(pre)) <==> PrefixStands(f, p, pre)
  {
    var a := p + |Flag(pre.left, '-')|;
    hide Starts, Flag, At, NumberStands, NumberText;
    StartsFlag(f, p, pre.left, '-', Flag(pre.dot, '.') + NumberText(pre));
    StartsFlag(f, a, pre.dot, '.', NumberText(pre));
    NumberStarts(f, a + |Flag(pre.dot, '.')|, pre);
    hide PrefixStands;
  }

  lemma PrefixLength(p: nat, pre: Prefix)
    ensures p + |PrefixText(pre)| == PrefixEnd(p, pre)
  {
    hide Flag;
  }

  lemma LastFlag(f: string, p: nat, on: bool, c: char)
    requires c != '\0'
    ensures Starts(f, p, Flag(on, c)) <==> p + |Flag(on, c)| <= |f| && (on ==> At(f, p) == c)
  {
  }

  lemma Bounded(f: string, p: nat, x: string)
    ensures Starts(f, p, x) ==> p + |x| <= |f| && (x != "" ==> At(f, p) == x[0])
  {
    if Starts(f, p, x) && x != "" {
      FirstOf(f, p, x);
    }
    hide Starts;
  }

  /** A prefix is read as what it says. */
  lemma PrefixReads(f: string, p: nat, pre: Prefix)
    requires Starts(f, p, PrefixText(pre)) && Before(pre, At(f, p + |PrefixText(pre)|))
    ensures ReadSpec(f, p) == (SpecOf(pre), p + |PrefixText(pre)|)
  {
    PrefixStarts(f, p, pre);
    PrefixLength(p, pre);
    hide Starts, Width, PrefixText;
    var c := p + |Flag(pre.left, '-')| + |Flag(pre.dot, '.')| + |Flag(pre.zero, '0')|;
    Bounded(f, c, pre.digits);
    WidthIs(f, c, pre.digits);
    hide Before;
  }

  /** And what is read is such a prefix; it does not go beyond what ends the format. */
  lemma PrefixAt(f: string, p: nat, e: nat) returns (pre: Prefix)
    requires p <= e <= |f| && Closing(At(f, e)) && !Escape(At(f, p))
    ensures Starts(f, p, PrefixText(pre)) && p + |PrefixText(pre)| == ReadSpec(f, p).1 <= e
    ensures Before(pre, At(f, ReadSpec(f, p).1)) && SpecOf(pre) == ReadSpec(f, p).0
  {
    pre := PrefixIn(f, p);
    PrefixInSpec(f, p, e);
    PrefixInStands(f, p);
    PrefixInEnds(f, p);
    PrefixStarts(f, p, pre);
    PrefixLength(p, pre);
    hide Starts, ReadSpec, PrefixStands, PrefixIn, PrefixEnd, Flag;
    if PrefixText(pre) != "" {
      FirstOf(f, p, PrefixText(pre));
    }
    hide Before, Closing, Escape;
  }

  function PrefixIn(f: string, p: nat): Prefix
    requires p <= |f|
  {
    var a := Past(f, p, '-');
    var b := Past(f, a, '.');
    var c := Past(f, b, '0');
    Prefix(At(f, p) == '-', At(f, a) == '.', At(f, b) == '0', f[c..Digits(f, c)], At(f, Digits(f, c)) == '%')
  }

  lemma PastFlag(f: string, p: nat, c: char)
    requires c != '\0'
    ensures Past(f, p, c) == p + |Flag(At(f, p) == c, c)|
  {
  }

  lemma PastUpTo(f: string, p: nat, c: char, e: nat)
    requires c != '\0' && p <= e <= |f| && Closing(At(f, e)) && !Closing(c)
    ensures Past(f, p, c) <= e
  {
  }

  function PrefixEnd(p: nat, pre: Prefix): nat {
    p + |Flag(pre.left, '-')| + |Flag(pre.dot, '.')| + |Flag(pre.zero, '0')| + |pre.digits| + |Flag(pre.percent, '%')|
  }

  lemma PrefixInStands(f: string, p: nat)
    requires p <= |f|
    ensures PrefixStands(f, p, PrefixIn(f, p))
  {
    var pre, b := PrefixIn(f, p), Past(f, Past(f, p, '-'), '.');
    PastFlag(f, p, '-');
    PastFlag(f, Past(f, p, '-'), '.');
    PastFlag(f, b, '0');
    DigitsStand(f, Past(f, b, '0'));
    NumberInStands(f, b, Past(f, b, '0'), pre);
    hide NumberStands, Past, Flag, At, Digits;
    hide PrefixStands;
  }

  lemma DigitsStand(f: string, c: nat)
    requires c <= |f|
    ensures Starts(f, c, f[c..Digits(f, c)]) && c + |f[c..Digits(f, c)]| == Digits(f, c)
  {
    StartsSlice(f, c, Digits(f, c));
    hide Starts;
  }

  lemma NumberInStands(f: string, b: nat, c: nat, pre: Prefix)
    requires c == b + |Flag(pre.zero, '0')| && (pre.zero ==> At(f, b) == '0') && Starts(f, c, pre.digits)
    requires c + |pre.digits| <= |f| && (pre.percent ==> At(f, c + |pre.digits|) == '%')
    ensures NumberStands(f, b, pre)
  {
    hide Starts;
  }

  lemma PrefixInSpec(f: string, p: nat, e: nat)
    requires p <= e <= |f| && Closing(At(f, e))
    ensures var pre := PrefixIn(f, p); AllDigits(pre.digits) && ReadSpec(f, p) == (SpecOf(pre), PrefixEnd(p, pre)) && PrefixEnd(p, pre) <= e
  {
    hide Width, Digits, AllDigits, Decimal, Past, Flag, At;
    var a := Past(f, p, '-');
    var b := Past(f, a, '.');
    var c := Past(f, b, '0');
    PastFlag(f, p, '-');
    PastFlag(f, a, '.');
    PastFlag(f, b, '0');
    PastUpTo(f, p, '-', e);
    PastUpTo(f, a, '.', e);
    PastUpTo(f, b, '0', e);
    NumberRead(f, c, e);
    PercentRead(f, Digits(f, c), e);
  }

  lemma PercentRead(f: string, d: nat, e: nat)
    requires d <= e <= |f| && Closing(At(f, e))
    ensures Past(f, d, '%') == d + |Flag(At(f, d) == '%', '%')| <= e
  {
  }

  lemma NumberRead(f: string, c: nat, e: nat)
    requires c <= e <= |f| && Closing(At(f, e))
    ensures var d := Digits(f, c); d <= e && AllDigits(f[c..d]) && Width(f, c, 0) == (Decimal(f[c..d]), d)
  {
    DigitsUpTo(f, c, e);
    DigitsAre(f, c);
    StartsSlice(f, c, Digits(f, c));
    WidthIs(f, c, f[c..Digits(f, c)]);
    hide AllDigits, Closing;
  }

  lemma PrefixInEnds(f: string, p: nat)
    requires p <= |f|
    ensures var pre := PrefixIn(f, p);
      var c := At(f, PrefixEnd(p, pre));
      && (!pre.zero && pre.digits != "" ==> pre.digits[0] != '0')
      && (!pre.percent ==> !IsDigit(c) && c != '%' && (pre.digits == "" && !pre.zero && !pre.dot ==> c != '.' && (!pre.left ==> c != '-')))
  {
    var a := Past(f, p, '-');
    var b := Past(f, a, '.');
    PastFlag(f, p, '-');
    PastFlag(f, a, '.');
    PastFlag(f, b, '0');
    PastFlag(f, Digits(f, Past(f, b, '0')), '%');
  }

  lemma {:induction false} DigitsUpTo(f: string, p: nat, e: nat)
    requires p <= e <= |f| && Closing(At(f, e))
    ensures Digits(f, p) <= e
    decreases e - p
  {
    if p < e && IsDigit(f[p]) {
      DigitsUpTo(f, p + 1, e);
    }
    hide Closing;
  }

  /* Conditionals. */

  /** The parts of a conditional are found where they stand. */
  lemma CondReads(f: string, s: nat, cond: string, yes: string, hasElse: bool, no: string)
    requires NoNul(f) && Starts(f, s, CondText(cond, yes, hasElse, no))
    requires Scannable(cond) && Scannable(yes) && (hasElse ==> Scannable(no))
    ensures TextsFound(f, s, cond, yes, hasElse, no)
  {
    hide Starts, SkipCond, Scannable;
    var a := s + |cond|;
    var b := a + 1 + |yes|;
    var behind := if hasElse then ['?'] + (no + ['}']) else ['}'];
    StartsBoth(f, s, cond, ['?'] + (yes + behind));
    StartsCons(f, a, '?', yes + behind);
    StartsBoth(f, a + 1, yes, behind);
    Slice(f, s, cond);
    Slice(f, a + 1, yes);
    SkipCondFinds(f, s, '?', a + 1);
    if hasElse {
      StartsCons(f, b, '?', no + ['}']);
      StartsBoth(f, b + 1, no, ['}']);
      StartsChar(f, b + 1 + |no|, '}');
      Slice(f, b + 1, no);
      SkipCondFinds(f, a + 1, '?', b + 1);
      SkipCondFinds(f, b + 1, '}', b + 2 + |no|);
    } else {
      StartsChar(f, b, '}');
      SkipCondFinds(f, a + 1, '}', b + 1);
    }
    hide TextsFound, NoNul;
  }

  ghost predicate CondStands(f: string, s: nat, cond: string, yes: string, hasElse: bool, no: string) {
    var a := s + |cond|;
    var b := a + 1 + |yes|;
    && b < |f| && f[s..a] == cond && f[a] == '?' && f[a + 1..b] == yes
    && (if !hasElse then f[b] == '}' else f[b] == '?' && b + 1 + |no| < |f| && f[b + 1..b + 1 + |no|] == no && f[b + 1 + |no|] == '}')
  }

  /** And format_read_cond finds them. */
  ghost predicate TextsFound(f: string, s: nat, cond: string, yes: string, hasElse: bool, no: string) {
    var a := s + |cond|;
    var b := a + 1 + |yes|;
    && CondStands(f, s, cond, yes, hasElse, no)
    && ReadCond(f, s) == Some(if hasElse then Parts(a, b, b + 1 + |no|) else Parts(a, -1, b))
  }

  lemma Slice(f: string, p: nat, x: string)
    requires Starts(f, p, x)
    ensures p + |x| <= |f| && f[p..p + |x|] == x
  {
  }

  /** What a conditional that is read is made of. */
  ghost predicate CondMade(f: string, s: nat, c: Parts) {
    PartsStand(f, s, c) && PartsScan(f, s, c)
  }

  predicate PartsStand(f: string, s: nat, c: Parts) {
    s <= c.yes < c.end < |f| && f[c.yes] == '?' && f[c.end] == '}' && (c.no == -1 || (c.yes < c.no < c.end && f[c.no] == '?'))
  }

  ghost predicate PartsScan(f: string, s: nat, c: Parts)
    requires PartsStand(f, s, c)
  {
    Scannable(f[s..c.yes]) && Scannable(f[c.yes + 1..YesEnd(c)]) && (c.no > 0 ==> Scannable(f[c.no + 1..c.end]))
  }

  lemma CondSound(f: string, s: nat)
    requires NoNul(f) && s <= |f| && ReadCond(f, s).Some?
    ensures CondMade(f, s, ReadCond(f, s).value)
  {
    var c := ReadCond(f, s).value;
    ReadCondSteps(f, s);
    hide SkipCond, Scannable, ReadCond, NoNul;
    TextTo(f, s, '?', c.yes);
    TextTo(f, c.yes + 1, if c.no > 0 then '?' else '}', YesEnd(c));
    if c.no > 0 {
      TextTo(f, c.no + 1, '}', c.end);
    }
    hide CondMade;
  }

  lemma TextTo(f: string, p: nat, c: char, e: nat)
    requires NoNul(f) && p <= |f| && SkipCond(f, p) == (c, e + 1) && c != '\0'
    ensures p <= e < |f| && f[e] == c && Scannable(f[p..e])
  {
    SkipCondFinds(f, p, c, e + 1);
    hide NoNul, Scannable;
  }

  lemma ReadCondSteps(f: string, s: nat)
    requires s <= |f| && ReadCond(f, s).Some?
    ensures var c := ReadCond(f, s).value;
      && SkipCond(f, s) == ('?', c.yes + 1) && SkipCond(f, c.yes + 1) == (if c.no > 0 then '?' else '}', YesEnd(c) + 1)
      && (c.no > 0 ==> SkipCond(f, c.no + 1) == ('}', c.end + 1))
  {
    hide SkipCond;
  }

  lemma CondStarts(f: string, s: nat, c: Parts)
    requires PartsStand(f, s, c)
    ensures Starts(f, s, CondText(f[s..c.yes], f[c.yes + 1..YesEnd(c)], c.no > 0, if c.no > 0 then f[c.no + 1..c.end] else ""))
  {
    var behind := if c.no > 0 then ['?'] + (f[c.no + 1..c.end] + ['}']) else ['}'];
    ElseStarts(f, s, c);
    Pieces(f, s, c.yes, YesEnd(c), behind);
    hide PartsStand, Starts;
  }

  lemma Pieces(f: string, s: nat, a: nat, b: nat, behind: string)
    requires s <= a < b <= |f| && f[a] == '?' && Starts(f, b, behind)
    ensures Starts(f, s, f[s..a] + (['?'] + (f[a + 1..b] + behind)))
  {
    StartsSlice(f, s, a);
    StartsSlice(f, a + 1, b);
    hide Starts;
    StartsBoth(f, a + 1, f[a + 1..b], behind);
    StartsCons(f, a, '?', f[a + 1..b] + behind);
    StartsBoth(f, s, f[s..a], ['?'] + (f[a + 1..b] + behind));
  }

  lemma ElseStarts(f: string, s: nat, c: Parts)
    requires PartsStand(f, s, c)
    ensures Starts(f, YesEnd(c), if c.no > 0 then ['?'] + (f[c.no + 1..c.end] + ['}']) else ['}'])
  {
    StartsChar(f, c.end, '}');
    if c.no > 0 {
      StartsSlice(f, c.no + 1, c.end);
      hide Starts;
      StartsBoth(f, c.no + 1, f[c.no + 1..c.end], ['}']);
      StartsCons(f, c.no, '?', f[c.no + 1..c.end] + ['}']);
    }
    hide PartsStand;
  }

  /* The reader, step by step. */

  lemma DocRaw(f: string, t: Table, p: nat, e: nat)
    requires p < e <= |f| && f[p] != '%'
    ensures Doc(f, t, p, e) == Cons(Plain(f[p]), Doc(f, t, p + 1, e))
  {
  }

  lemma DocEscape(f: string, t: Table, p: nat, e: nat)
    requires p < e <= |f| && f[p] == '%' && Escape(At(f, p + 1))
    ensures Doc(f, t, p, e) == Cons(Mark(At(f, p + 1)), Doc(f, t, p + 2, e))
  {
  }

  lemma DocBehind(f: string, t: Table, p: nat, e: nat)
    requires e <= |f| && p >= e
    ensures Doc(f, t, p, e) == Some([])
  {
  }

  /** Between the percent sign at `p` and the character `c` at `q` stands a prefix. */
  ghost predicate FieldBegins(f: string, p: nat, q: nat, pre: Prefix, c: char) {
    && AllDigits(pre.digits) && p < q < |f| && f[p] == '%' && !Escape(f[p + 1]) && f[q] == c && ReadSpec(f, p + 1) == (SpecOf(pre), q)
  }

  lemma FieldStarts(f: string, p: nat, q: nat, pre: Prefix, c: char, x: string)
    requires q == p + 1 + |PrefixText(pre)| && Starts(f, p, ['%'] + (PrefixText(pre) + ([c] + x))) && Before(pre, c)
    ensures FieldBegins(f, p, q, pre, c) && Starts(f, q + 1, x)
  {
    hide Starts, ReadSpec, PrefixText;
    StartsCons(f, p, '%', PrefixText(pre) + ([c] + x));
    StartsBoth(f, p + 1, PrefixText(pre), [c] + x);
    StartsCons(f, q, c, x);
    PrefixReads(f, p + 1, pre);
    if PrefixText(pre) != "" {
      FirstOf(f, p + 1, PrefixText(pre));
    }
    hide FieldBegins, Before;
  }

  lemma {:induction false} CloseIs(f: string, s: nat, name: string)
    requires Starts(f, s, name + ['}']) && '}' !in name
    ensures Close(f, s) == s + |name|
    decreases |name|
  {
    if name == "" {
      StartsChar(f, s, '}');
      assert name + ['}'] == ['}'];
    } else {
      assert name + ['}'] == [name[0]] + (name[1..] + ['}']);
      StartsCons(f, s, name[0], name[1..] + ['}']);
      CloseIs(f, s + 1, name[1..]);
    }
    hide Starts;
  }

  lemma DocField(f: string, t: Table, p: nat, e: nat)
    requires FieldAt(f, p, e) && !CondAt(f, p)
    ensures Doc(f, t, p, e) ==
            if (At(f, Formats.Letter(f, p)) == '{' && NameEnd(f, p) >= e) || FieldOf(f, t, p).None? then None
            else Cons(FieldOf(f, t, p).value, Doc(f, t, NameEnd(f, p) + 1, e))
  {
  }

  lemma DocCond(f: string, t: Table, p: nat, e: nat)
    requires FieldAt(f, p, e) && CondAt(f, p)
    ensures var q := Formats.Letter(f, p) + 2;
            Doc(f, t, p, e) ==
            if !ValidCond(f, t, q) || ReadCond(f, q).value.end >= e then None
            else Cons(CondNode(f, t, q), Doc(f, t, ReadCond(f, q).value.end + 1, e))
  {
    hide ReadCond;
  }

  lemma LetterReads(f: string, t: Table, p: nat, e: nat, pre: Prefix, c: char, node: Node)
    requires e <= |f| && Starts(f, p, PartText(ByLetter(pre, c))) && p + |PartText(ByLetter(pre, c))| <= e
    requires Meaning(ByLetter(pre, c), t) == Some(node)
    ensures Doc(f, t, p, e) == Cons(node, Doc(f, t, p + |PartText(ByLetter(pre, c))|, e))
  {
    var q := p + 1 + |PrefixText(pre)|;
    assert [c] + "" == [c];
    FieldStarts(f, p, q, pre, c, "");
    hide Starts, ReadSpec, PrefixText, Doc;
    DocField(f, t, p, e);
  }

  lemma NameReads(f: string, t: Table, p: nat, e: nat, pre: Prefix, name: string, node: Node)
    requires e <= |f| && Starts(f, p, PartText(ByName(pre, name))) && p + |PartText(ByName(pre, name))| <= e
    requires Meaning(ByName(pre, name), t) == Some(node)
    ensures Doc(f, t, p, e) == Cons(node, Doc(f, t, p + |PartText(ByName(pre, name))|, e))
  {
    hide Starts, ReadSpec, PrefixText, Doc, FieldOf, NameEnd, CondAt, FieldAt, Close, Before, At, FieldBegins;
    var q := p + 1 + |PrefixText(pre)|;
    FieldStarts(f, p, q, pre, '{', name + ['}']);
    NameIs(f, t, p, q, e, pre, name);
    DocField(f, t, p, e);
  }

  lemma NameIs(f: string, t: Table, p: nat, q: nat, e: nat, pre: Prefix, name: string)
    requires FieldBegins(f, p, q, pre, '{') && Starts(f, q + 1, name + ['}']) && q + 1 + |name| < e <= |f|
    requires '}' !in name && (name != "" ==> name[0] != '?')
    ensures FieldAt(f, p, e) && !CondAt(f, p) && At(f, Formats.Letter(f, p)) == '{'
    ensures NameEnd(f, p) == q + 1 + |name| && FieldOf(f, t, p) == Named(t.opts, '}', name, SpecOf(pre))
  {
    CloseIs(f, q + 1, name);
    NameStands(f, q + 1, name);
    hide ReadSpec, Close, PrefixText, Named, Starts, FieldBegins;
  }

  lemma NameStands(f: string, s: nat, name: string)
    requires Starts(f, s, name + ['}'])
    ensures s + |name| < |f| && f[s..s + |name|] == name && f[s + |name|] == '}' && (name != "" ==> f[s] == name[0])
  {
    StartsBoth(f, s, name, ['}']);
    StartsChar(f, s + |name|, '}');
    if name != "" {
      FirstOf(f, s, name);
    }
    hide Starts;
  }

  function CondTextOf(part: Part): string
    requires part.Cond?
  {
    CondText(part.cond, PartsText(part.yes), part.hasElse, PartsText(part.no))
  }

  lemma CondBegins(f: string, p: nat, q: nat, part: Part)
    requires part.Cond? && q == p + 1 + |PrefixText(part.pre)| && Starts(f, p, PartText(part)) && Before(part.pre, '{')
    ensures FieldBegins(f, p, q, part.pre, '{') && At(f, q + 1) == '?' && Starts(f, q + 2, CondTextOf(part))
  {
    hide Starts, Before, PrefixText, CondText, PartsText;
    FieldStarts(f, p, q, part.pre, '{', ['?'] + CondTextOf(part));
    StartsCons(f, q + 1, '?', CondTextOf(part));
    hide FieldBegins;
  }

  lemma CondStartsAt(f: string, p: nat, q: nat, part: Part)
    requires part.Cond? && CondOpens(f, p, q, part.pre) && Starts(f, q + 2, CondTextOf(part))
    ensures Starts(f, p, PartText(part))
  {
    hide Starts, PrefixText, CondText, PartsText;
    StartsCons(f, q + 1, '?', CondTextOf(part));
    StartsCons(f, q, '{', ['?'] + CondTextOf(part));
    StartsBoth(f, p + 1, PrefixText(part.pre), ['{'] + (['?'] + CondTextOf(part)));
    StartsCons(f, p, '%', PrefixText(part.pre) + (['{'] + (['?'] + CondTextOf(part))));
    hide CondOpens;
  }

  /** A prefix and the beginning of a conditional stand behind the percent sign at `p`. */
  ghost predicate CondOpens(f: string, p: nat, q: nat, pre: Prefix) {
    && q == p + 1 + |PrefixText(pre)| && q + 1 < |f| && f[p] == '%' && Starts(f, p + 1, PrefixText(pre)) && Before(pre, '{')
    && f[q] == '{' && f[q + 1] == '?'
  }

  /** How long the text of a conditional is. */
  lemma CondLength(p: nat, q: nat, part: Part)
    requires part.Cond? && q == p + 1 + |PrefixText(part.pre)|
    ensures p + |PartText(part)| == q + 2 + |CondTextOf(part)|
    ensures var b := |part.cond| + 1 + |PartsText(part.yes)|; |CondTextOf(part)| == if part.hasElse then b + 2 + |PartsText(part.no)| else b + 1
  {
    hide PartsText, PrefixText;
  }

  /** What the parts of a conditional have to be. */
  ghost predicate CondFine(part: Part, t: Table)
    requires part.Cond?
  {
    && Before(part.pre, '{') && Scannable(part.cond) && t.cond(part.cond).Node?
    && Scannable(PartsText(part.yes)) && Meanings(part.yes, t, if part.hasElse then '?' else '}').Some?
    && (part.hasElse ==> Scannable(PartsText(part.no)) && Meanings(part.no, t, '}').Some?)
  }

  lemma CondMeaning(part: Part, t: Table, node: Node)
    requires part.Cond?
    ensures Meaning(part, t) == Some(node) <==> CondFine(part, t) && node == CondValue(part, t)
  {
    hide Scannable, PartsText, Before, Meanings;
  }

  ghost function CondValue(part: Part, t: Table): Node
    requires part.Cond? && CondFine(part, t)
  {
    If(part.cond, Meanings(part.yes, t, if part.hasElse then '?' else '}').value, if part.hasElse then Meanings(part.no, t, '}').value else [])
  }

  /** Where the parts of a conditional are found. */
  ghost predicate CondFound(f: string, s: nat, part: Part)
    requires part.Cond?
  {
    TextsFound(f, s, part.cond, PartsText(part.yes), part.hasElse, PartsText(part.no))
  }

  /** A part in order is read as what it means. */
  lemma {:induction false} PartReads(f: string, t: Table, p: nat, e: nat, part: Part, node: Node)
    requires NoNul(f) && e <= |f| && Starts(f, p, PartText(part)) && p + |PartText(part)| <= e && Meaning(part, t) == Some(node)
    ensures Doc(f, t, p, e) == Cons(node, Doc(f, t, p + |PartText(part)|, e))
    decreases part
  {
    hide Doc, Starts;
    match part
    case Raw(c) =>
      StartsChar(f, p, c);
      DocRaw(f, t, p, e);
    case Escaped(c) =>
      EscapeStarts(f, p, c);
      DocEscape(f, t, p, e);
    case ByLetter(pre, c) => LetterReads(f, t, p, e, pre, c, node);
    case ByName(pre, name) => NameReads(f, t, p, e, pre, name, node);
    case Cond(_, _, _, _, _) => CondPartReads(f, t, p, e, part, node);
    hide NoNul;
  }

  lemma {:induction false} CondPartReads(f: string, t: Table, p: nat, e: nat, part: Part, node: Node)
    requires part.Cond? && NoNul(f) && e <= |f| && Starts(f, p, PartText(part)) && p + |PartText(part)| <= e && Meaning(part, t) == Some(node)
    ensures Doc(f, t, p, e) == Cons(node, Doc(f, t, p + |PartText(part)|, e))
    decreases part, 3
  {
    hide PartsText, CondText, Meanings, Starts, Doc, Meaning, PartText, PrefixText, NoNul, FieldBegins, CondTextOf, CondFound, CondHolds, CondFine, CondValue, At;
    var q := p + 1 + |PrefixText(part.pre)|;
    CondMeaning(part, t, node);
    CondOpened(f, t, p, q, part);
    CondLength(p, q, part);
    CondBranches(f, t, q + 2, part, node);
    CondIs(f, t, p, q, e, part.pre, p + |PartText(part)| - 1, node);
  }

  lemma CondOpened(f: string, t: Table, p: nat, q: nat, part: Part)
    requires part.Cond? && q == p + 1 + |PrefixText(part.pre)| && NoNul(f) && Starts(f, p, PartText(part)) && CondFine(part, t)
    ensures FieldBegins(f, p, q, part.pre, '{') && At(f, q + 1) == '?' && CondFound(f, q + 2, part)
  {
    hide Meanings, Scannable, Starts, PrefixText, ReadCond, PartText, FieldBegins, CondText, PartsText, Before, TextsFound, NoNul, At;
    CondBegins(f, p, q, part);
    CondReads(f, q + 2, part.cond, PartsText(part.yes), part.hasElse, PartsText(part.no));
    hide CondFound, CondFine;
  }

  /** The branches are read as what they mean. */
  ghost predicate BranchesRead(f: string, t: Table, s: nat, part: Part)
    requires part.Cond? && CondFound(f, s, part)
  {
    var c := ReadCond(f, s).value;
    && Doc(f, t, c.yes + 1, YesEnd(c)) == Meanings(part.yes, t, if part.hasElse then '?' else '}')
    && (part.hasElse ==> Doc(f, t, c.no + 1, c.end) == Meanings(part.no, t, '}'))
  }

  lemma {:induction false} CondBranches(f: string, t: Table, s: nat, part: Part, node: Node)
    requires part.Cond? && NoNul(f) && CondFound(f, s, part) && Meaning(part, t) == Some(node)
    ensures CondHolds(f, t, s, s + |CondTextOf(part)| - 1, node)
    decreases part, 2
  {
    BranchTexts(f, t, s, part, node);
    CondFoundEnd(f, t, s, part, node);
    CondLength(0, 1 + |PrefixText(part.pre)|, part);
    hide CondFound, CondHolds, NoNul;
  }

  lemma {:induction false} BranchTexts(f: string, t: Table, s: nat, part: Part, node: Node)
    requires part.Cond? && NoNul(f) && CondFound(f, s, part) && Meaning(part, t) == Some(node)
    ensures BranchesRead(f, t, s, part)
    decreases part, 1
  {
    hide Meanings, Doc, PartsText, Meaning, Scannable, ReadCond, Before, CondFound, NoNul, Starts, At;
    CondMeaning(part, t, node);
    CondTexts(f, s, part);
    var c := ReadCond(f, s).value;
    DocComplete(f, t, c.yes + 1, YesEnd(c), part.yes);
    if part.hasElse {
      DocComplete(f, t, c.no + 1, c.end, part.no);
    }
    hide BranchesRead;
  }

  lemma CondTexts(f: string, s: nat, part: Part)
    requires part.Cond? && CondFound(f, s, part)
    ensures ReadCond(f, s).Some?
    ensures var c := ReadCond(f, s).value;
      && Starts(f, c.yes + 1, PartsText(part.yes)) && c.yes + 1 + |PartsText(part.yes)| == YesEnd(c) && At(f, YesEnd(c)) == (if part.hasElse then '?' else '}')
      && At(f, c.end) == '}' && part.hasElse == (c.no > 0)
      && (part.hasElse ==> Starts(f, c.no + 1, PartsText(part.no)) && c.no + 1 + |PartsText(part.no)| == c.end)
  {
    hide PartsText, ReadCond;
  }

  lemma CondPlaces(f: string, s: nat, part: Part)
    requires part.Cond? && CondFound(f, s, part)
    ensures ReadCond(f, s).Some?
    ensures var c := ReadCond(f, s).value; var b := |part.cond| + 1 + |PartsText(part.yes)|;
      && s <= c.yes < |f| && f[s..c.yes] == part.cond && part.hasElse == (c.no > 0)
      && c.end == s + if part.hasElse then b + 1 + |PartsText(part.no)| else b
  {
    hide PartsText, ReadCond;
  }

  lemma CondFoundEnd(f: string, t: Table, s: nat, part: Part, node: Node)
    requires part.Cond? && CondFound(f, s, part) && BranchesRead(f, t, s, part) && Meaning(part, t) == Some(node)
    ensures var b := |part.cond| + 1 + |PartsText(part.yes)|; CondHolds(f, t, s, s + (if part.hasElse then b + 1 + |PartsText(part.no)| else b), node)
  {
    hide Meanings, Doc, PartsText, Meaning, Scannable, ReadCond, Before, CondFound;
    CondMeaning(part, t, node);
    CondPlaces(f, s, part);
  }

  /** Behind `s` stands a conditional up to `end`. */
  ghost predicate CondHolds(f: string, t: Table, s: nat, end: int, node: Node) {
    s <= |f| && ReadCond(f, s).Some? && ValidCond(f, t, s) && ReadCond(f, s).value.end == end && CondNode(f, t, s) == node
  }

  /** The conditional that begins at `p`. */
  lemma CondIs(f: string, t: Table, p: nat, q: nat, e: nat, pre: Prefix, end: nat, node: Node)
    requires FieldBegins(f, p, q, pre, '{') && At(f, q + 1) == '?' && p < e <= |f| && CondHolds(f, t, q + 2, end, node) && end < e
    ensures Doc(f, t, p, e) == Cons(node, Doc(f, t, end + 1, e))
  {
    hide ReadSpec, Doc, ReadCond, ValidCond, CondNode;
    DocCond(f, t, p, e);
    hide FieldBegins, CondHolds;
  }

  /** A format in order is read as what it means. */
  lemma {:induction false} DocComplete(f: string, t: Table, p: nat, e: nat, parts: seq<Part>)
    requires NoNul(f) && p <= e <= |f| && Closing(At(f, e)) && Starts(f, p, PartsText(parts)) && p + |PartsText(parts)| == e
    requires Meanings(parts, t, At(f, e)).Some?
    ensures Doc(f, t, p, e) == Meanings(parts, t, At(f, e))
    decreases parts, 0
  {
    hide Starts, Doc, PartText, Meaning, CutMeaning, NoNul, Closing, At;
    if parts == [] {
      DocBehind(f, t, p, e);
    } else {
      var rest := PartsText(parts[1..]);
      StartsBoth(f, p, PartText(parts[0]), rest);
      if parts[0].Cut? {
        CutReads(f, t, p, e, parts[0].pre);
      } else {
        PartReads(f, t, p, e, parts[0], Meaning(parts[0], t).value);
        DocComplete(f, t, p + |PartText(parts[0])|, e, parts[1..]);
      }
    }
  }

  /** The last character of a cut part is what stands behind the format. */
  lemma CutReads(f: string, t: Table, p: nat, e: nat, pre: Prefix)
    requires p <= e <= |f| && Closing(At(f, e)) && Starts(f, p, PartText(Cut(pre))) && p + |PartText(Cut(pre))| == e
    requires CutMeaning(pre, t, At(f, e)).Some?
    ensures Doc(f, t, p, e) == Some([CutMeaning(pre, t, At(f, e)).value])
  {
    StartsCons(f, p, '%', PrefixText(pre));
    if PrefixText(pre) == "" && Escape(At(f, e)) {
      DocEscape(f, t, p, e);
      DocBehind(f, t, p + 2, e);
      ConsLast(Mark(At(f, e)));
    } else {
      PrefixReads(f, p + 1, pre);
      if PrefixText(pre) != "" {
        FirstOf(f, p + 1, PrefixText(pre));
      }
      hide Starts, ReadSpec, PrefixText, Doc;
      DocField(f, t, p, e);
      DocBehind(f, t, e + 1, e);
      ConsLast(CutMeaning(pre, t, At(f, e)).value);
    }
    hide Closing;
  }

  lemma ConsLast(n: Node)
    ensures Cons(n, Some([])) == Some([n])
  {
    assert [n] + [] == [n];
  }

  /* And what is read is such a format. */

  /** `parts` stand at `p`, up to `e`, and mean `nodes`. */
  ghost predicate Made(f: string, t: Table, p: nat, e: nat, parts: seq<Part>, nodes: Option<seq<Node>>) {
    Starts(f, p, PartsText(parts)) && p + |PartsText(parts)| == e && Meanings(parts, t, At(f, e)) == nodes
  }

  /** One part stands at `p`, up to `m`, and means `node`. */
  ghost predicate OneMade(f: string, t: Table, p: nat, m: nat, part: Part, node: Option<Node>) {
    !part.Cut? && Starts(f, p, PartText(part)) && p + |PartText(part)| == m && Meaning(part, t) == node
  }

  lemma PartFirst(f: string, t: Table, p: nat, m: nat, e: nat, part: Part, node: Option<Node>, rest: seq<Part>, nodes: Option<seq<Node>>) returns (parts: seq<Part>)
    requires OneMade(f, t, p, m, part, node) && node.Some? && Made(f, t, m, e, rest, nodes)
    ensures Made(f, t, p, e, parts, Cons(node.value, nodes))
  {
    hide Starts, PartText, Meaning;
    parts := [part] + rest;
    assert parts[1..] == rest;
    StartsBoth(f, p, PartText(part), PartsText(rest));
    hide Made, OneMade;
  }

  lemma NothingMade(f: string, t: Table, p: nat)
    requires p <= |f|
    ensures Made(f, t, p, p, [], Some([]))
  {
    StartsEmpty(f, p);
    hide Made;
  }

  /** The prefix between `p` and `q`. */
  ghost predicate PrefixRead(f: string, p: nat, q: nat, pre: Prefix) {
    && p < |f| && f[p] == '%' && q == Formats.Letter(f, p) == p + 1 + |PrefixText(pre)| && Starts(f, p + 1, PrefixText(pre))
    && Before(pre, At(f, q)) && SpecOf(pre) == ReadSpec(f, p + 1).0
  }

  lemma LetterMade(f: string, t: Table, p: nat, q: nat, pre: Prefix) returns (part: Part)
    requires PrefixRead(f, p, q, pre) && q < |f| && f[q] != '{' && FieldOf(f, t, p).Some?
    ensures OneMade(f, t, p, q + 1, part, FieldOf(f, t, p))
  {
    hide Starts, PrefixText, Meaning, ReadSpec, FieldOf, At, Before, PrefixRead;
    part := ByLetter(pre, f[q]);
    LetterText(f, p, q, pre);
    LetterMeans(f, t, p, q, pre);
  }

  lemma LetterText(f: string, p: nat, q: nat, pre: Prefix)
    requires PrefixRead(f, p, q, pre) && q < |f|
    ensures Starts(f, p, PartText(ByLetter(pre, f[q]))) && p + |PartText(ByLetter(pre, f[q]))| == q + 1
  {
    hide Starts, Before, PrefixText, ReadSpec;
    StartsChar(f, q, f[q]);
    StartsBoth(f, p + 1, PrefixText(pre), [f[q]]);
    StartsCons(f, p, '%', PrefixText(pre) + [f[q]]);
    hide PrefixRead;
  }

  lemma LetterMeans(f: string, t: Table, p: nat, q: nat, pre: Prefix)
    requires PrefixRead(f, p, q, pre) && q < |f| && f[q] != '{' && FieldOf(f, t, p).Some?
    ensures Meaning(ByLetter(pre, f[q]), t) == FieldOf(f, t, p)
  {
    hide Starts, Named, PrefixText, ReadSpec;
    assert FieldOf(f, t, p) == Named(t.opts, f[q], "", SpecOf(pre));
    hide PrefixRead;
  }

  lemma NameMade(f: string, t: Table, p: nat, q: nat, pre: Prefix) returns (part: Part)
    requires PrefixRead(f, p, q, pre) && q < |f| && f[q] == '{' && At(f, q + 1) != '?' && NameEnd(f, p) < |f| && FieldOf(f, t, p).Some?
    ensures OneMade(f, t, p, NameEnd(f, p) + 1, part, FieldOf(f, t, p))
  {
    hide Starts, PrefixText, PartText, Meaning, ReadSpec, Close, FieldOf, At, Before, NameEnd;
    NameBehind(f, p, q, pre);
    part := ByName(pre, f[q + 1..NameEnd(f, p)]);
    NameText(f, p, q, NameEnd(f, p), pre);
    NameMeans(f, t, p, q, pre);
    hide PrefixRead, OneMade;
  }

  lemma NameBehind(f: string, p: nat, q: nat, pre: Prefix)
    requires PrefixRead(f, p, q, pre) && q < |f| && f[q] == '{' && NameEnd(f, p) < |f|
    ensures q + 1 <= NameEnd(f, p) && NameEnd(f, p) == Close(f, q + 1) && f[NameEnd(f, p)] == '}'
  {
    hide Starts, PrefixText, ReadSpec, Close, Before;
  }

  lemma NameMeans(f: string, t: Table, p: nat, q: nat, pre: Prefix)
    requires PrefixRead(f, p, q, pre) && q < |f| && f[q] == '{' && At(f, q + 1) != '?' && FieldOf(f, t, p).Some?
    requires q + 1 <= NameEnd(f, p) < |f| && NameEnd(f, p) == Close(f, q + 1) && f[NameEnd(f, p)] == '}'
    ensures Meaning(ByName(pre, f[q + 1..NameEnd(f, p)]), t) == FieldOf(f, t, p)
  {
    hide Starts, PrefixText, Close, NameEnd, At;
    NoBrace(f, q + 1);
    NameFirst(f, q, NameEnd(f, p));
    NameField(f, t, p, q, pre);
    hide PrefixRead, FieldOf;
  }

  lemma NameFirst(f: string, q: nat, r: nat)
    requires q < r <= |f| && At(f, q + 1) != '?'
    ensures f[q + 1..r] != "" ==> f[q + 1..r][0] != '?'
  {
  }

  lemma NameField(f: string, t: Table, p: nat, q: nat, pre: Prefix)
    requires PrefixRead(f, p, q, pre) && q < NameEnd(f, p) < |f| && f[q] == '{' && f[NameEnd(f, p)] == '}'
    ensures AllDigits(pre.digits) && FieldOf(f, t, p) == Named(t.opts, '}', f[q + 1..NameEnd(f, p)], SpecOf(pre))
  {
    hide Starts, PrefixText, NameEnd, Named, ReadSpec;
    assert At(f, NameEnd(f, p)) == '}' && At(f, q) == '{';
    hide PrefixRead;
  }

  lemma NameText(f: string, p: nat, q: nat, r: nat, pre: Prefix)
    requires p < |f| && f[p] == '%' && q == p + 1 + |PrefixText(pre)| && Starts(f, p + 1, PrefixText(pre)) && q < r < |f| && f[q] == '{' && f[r] == '}'
    ensures Starts(f, p, PartText(ByName(pre, f[q + 1..r]))) && p + |PartText(ByName(pre, f[q + 1..r]))| == r + 1
  {
    hide PrefixText, Starts;
    var name := f[q + 1..r];
    StartsSlice(f, q + 1, r);
    StartsChar(f, r, '}');
    StartsBoth(f, q + 1, name, ['}']);
    StartsCons(f, q, '{', name + ['}']);
    StartsBoth(f, p + 1, PrefixText(pre), ['{'] + (name + ['}']));
    StartsCons(f, p, '%', PrefixText(pre) + (['{'] + (name + ['}'])));
  }

  lemma {:induction false} NoBrace(f: string, s: nat)
    requires s <= |f|
    ensures '}' !in f[s..Close(f, s)]
    decreases |f| - s
  {
    if s < |f| && f[s] != '}' {
      NoBrace(f, s + 1);
      assert f[s..Close(f, s)] == [f[s]] + f[s + 1..Close(f, s + 1)];
    }
  }

  /** The branches of the conditional behind `s`. */
  ghost predicate BranchesMade(f: string, t: Table, s: nat, yes: seq<Part>, no: seq<Part>)
    requires ValidCond(f, t, s)
  {
    var c := ReadCond(f, s).value;
    && Made(f, t, c.yes + 1, YesEnd(c), yes, Doc(f, t, c.yes + 1, YesEnd(c)))
    && (c.no > 0 ==> Made(f, t, c.no + 1, c.end, no, Doc(f, t, c.no + 1, c.end)))
  }

  lemma CondPartMade(f: string, t: Table, p: nat, q: nat, pre: Prefix, yes: seq<Part>, no: seq<Part>) returns (part: Part)
    requires NoNul(f) && CondOpens(f, p, q, pre) && ValidCond(f, t, q + 2) && BranchesMade(f, t, q + 2, yes, no)
    ensures OneMade(f, t, p, ReadCond(f, q + 2).value.end + 1, part, Some(CondNode(f, t, q + 2)))
  {
    hide Starts, PrefixText, Doc, ReadCond, Scannable, PartsText, Meanings, CondText, Meaning, CondTextOf, PartText, CondNode, BranchesMade, Before, NoNul;
    var c := ReadCond(f, q + 2).value;
    CondSound(f, q + 2);
    part := Cond(pre, f[q + 2..c.yes], yes, c.no > 0, no);
    CondTextStands(f, t, q + 2, yes, no, part);
    CondMeans(f, t, q + 2, part);
    CondStartsAt(f, p, q, part);
    CondLength(p, q, part);
  }

  lemma CondTextStands(f: string, t: Table, s: nat, yes: seq<Part>, no: seq<Part>, part: Part)
    requires s <= |f| && ValidCond(f, t, s) && BranchesMade(f, t, s, yes, no) && CondMade(f, s, ReadCond(f, s).value)
    requires var c := ReadCond(f, s).value; part.Cond? && part.cond == f[s..c.yes] && part.yes == yes && part.no == no && part.hasElse == (c.no > 0)
    ensures Starts(f, s, CondTextOf(part)) && s + |CondTextOf(part)| == ReadCond(f, s).value.end + 1
  {
    hide Starts, Doc, ReadCond, Scannable, PartsText, Meanings, Made;
    var c := ReadCond(f, s).value;
    CondStarts(f, s, c);
    MadeText(f, t, c.yes + 1, YesEnd(c), yes, Doc(f, t, c.yes + 1, YesEnd(c)));
    if c.no > 0 {
      MadeText(f, t, c.no + 1, c.end, no, Doc(f, t, c.no + 1, c.end));
    }
  }

  lemma CondMeans(f: string, t: Table, s: nat, part: Part)
    requires s <= |f| && part.Cond? && Before(part.pre, '{') && ValidCond(f, t, s) && BranchesMade(f, t, s, part.yes, part.no) && CondMade(f, s, ReadCond(f, s).value)
    requires var c := ReadCond(f, s).value; part.cond == f[s..c.yes] && part.hasElse == (c.no > 0) && f[YesEnd(c)] == (if c.no > 0 then '?' else '}')
    ensures Meaning(part, t) == Some(CondNode(f, t, s))
  {
    hide Starts, Doc, ReadCond, Scannable, PartsText, Before, Meanings, Meaning, Made;
    var c := ReadCond(f, s).value;
    CondMeaning(part, t, CondNode(f, t, s));
    MadeText(f, t, c.yes + 1, YesEnd(c), part.yes, Doc(f, t, c.yes + 1, YesEnd(c)));
    if c.no > 0 {
      MadeText(f, t, c.no + 1, c.end, part.no, Doc(f, t, c.no + 1, c.end));
    }
  }

  lemma MadeText(f: string, t: Table, p: nat, e: nat, parts: seq<Part>, nodes: Option<seq<Node>>)
    requires Made(f, t, p, e, parts, nodes)
    ensures p <= e <= |f| && f[p..e] == PartsText(parts) && Meanings(parts, t, At(f, e)) == nodes
  {
    assert f[p..e] == PartsText(parts);
    hide Made;
  }

  /** The fields and conditionals that are read are parts in order. */
  lemma {:induction false} FieldSound(f: string, t: Table, p: nat, e: nat) returns (parts: seq<Part>)
    requires NoNul(f) && FieldAt(f, p, e) && Closing(At(f, e)) && Doc(f, t, p, e).Some?
    ensures Made(f, t, p, e, parts, Doc(f, t, p, e))
    decreases |f| - p, 1
  {
    hide PrefixRead, ReadSpec, Starts, Made, Doc, FieldOf, NoNul, Closing, OneMade;
    var q, pre := FieldPrefix(f, p, e);
    if CondAt(f, p) {
      parts := CondSoundAt(f, t, p, q, e, pre);
    } else {
      DocField(f, t, p, e);
      if At(f, q) == '{' {
        var rest := DocSound(f, t, NameEnd(f, p) + 1, e);
        var part := NameMade(f, t, p, q, pre);
        parts := PartFirst(f, t, p, NameEnd(f, p) + 1, e, part, FieldOf(f, t, p), rest, Doc(f, t, NameEnd(f, p) + 1, e));
      } else if q < e {
        var rest := DocSound(f, t, q + 1, e);
        var part := LetterMade(f, t, p, q, pre);
        parts := PartFirst(f, t, p, q + 1, e, part, FieldOf(f, t, p), rest, Doc(f, t, q + 1, e));
      } else {
        parts := CutSound(f, t, p, e, pre);
      }
    }
  }

  lemma FieldPrefix(f: string, p: nat, e: nat) returns (q: nat, pre: Prefix)
    requires FieldAt(f, p, e) && Closing(At(f, e))
    ensures PrefixRead(f, p, q, pre) && q == Formats.Letter(f, p) && p < q <= e
  {
    q := Formats.Letter(f, p);
    pre := PrefixAt(f, p + 1, e);
    hide ReadSpec, PrefixText, Starts, Before, Closing;
  }

  lemma CutSound(f: string, t: Table, p: nat, e: nat, pre: Prefix) returns (parts: seq<Part>)
    requires FieldAt(f, p, e) && !CondAt(f, p) && Closing(At(f, e)) && PrefixRead(f, p, e, pre) && FieldOf(f, t, p).Some?
    ensures Made(f, t, p, e, parts, Doc(f, t, p, e))
  {
    var n := FieldOf(f, t, p).value;
    parts := [Cut(pre)];
    DocField(f, t, p, e);
    DocBehind(f, t, e + 1, e);
    ConsLast(n);
    StartsCons(f, p, '%', PrefixText(pre));
    hide Starts, PrefixText, Doc, ReadSpec, Named;
    assert CutMeaning(pre, t, At(f, e)) == Some(n);
    CutMade(f, t, p, e, pre);
    hide PrefixRead, Made, FieldAt, CondAt, Closing;
  }

  lemma CutMade(f: string, t: Table, p: nat, e: nat, pre: Prefix)
    requires p < e <= |f| && Starts(f, p, PartText(Cut(pre))) && p + |PartText(Cut(pre))| == e && CutMeaning(pre, t, At(f, e)).Some?
    ensures Made(f, t, p, e, [Cut(pre)], Some([CutMeaning(pre, t, At(f, e)).value]))
  {
    var parts := [Cut(pre)];
    assert parts[1..] == [] && PartsText([]) == "";
    assert PartText(Cut(pre)) + "" == PartText(Cut(pre));
    hide Starts, PartText, CutMeaning;
    assert PartsText(parts) == PartText(Cut(pre));
    hide Made;
  }

  lemma {:induction false} CondSoundAt(f: string, t: Table, p: nat, q: nat, e: nat, pre: Prefix) returns (parts: seq<Part>)
    requires NoNul(f) && FieldAt(f, p, e) && Closing(At(f, e)) && CondAt(f, p) && Doc(f, t, p, e).Some? && PrefixRead(f, p, q, pre)
    ensures Made(f, t, p, e, parts, Doc(f, t, p, e))
    decreases |f| - p, 0
  {
    hide Starts, Doc, Made, OneMade, PrefixRead, CondAt, FieldAt, CondOpens, CondHolds, NoNul, At, Closing;
    var end, node := CondRead(f, t, p, q, e, pre);
    var part := BranchesSound(f, t, p, q, pre, end, node);
    var rest := DocSound(f, t, end + 1, e);
    parts := PartFirst(f, t, p, end + 1, e, part, Some(node), rest, Doc(f, t, end + 1, e));
    hide NoNul, Closing;
  }

  lemma CondRead(f: string, t: Table, p: nat, q: nat, e: nat, pre: Prefix) returns (end: nat, node: Node)
    requires FieldAt(f, p, e) && CondAt(f, p) && Doc(f, t, p, e).Some? && PrefixRead(f, p, q, pre)
    ensures p < q && q + 2 <= |f| && CondOpens(f, p, q, pre) && CondHolds(f, t, q + 2, end, node)
    ensures p < end < e <= |f| && Doc(f, t, end + 1, e).Some? && Doc(f, t, p, e) == Cons(node, Doc(f, t, end + 1, e))
  {
    hide Doc, ReadCond, ReadSpec, CondNode, CondOpens, PrefixRead, CondAt;
    CondOpening(f, p, q, e, pre);
    DocCond(f, t, p, e);
    end := ReadCond(f, q + 2).value.end;
    node := CondNode(f, t, q + 2);
  }

  lemma CondOpening(f: string, p: nat, q: nat, e: nat, pre: Prefix)
    requires FieldAt(f, p, e) && CondAt(f, p) && PrefixRead(f, p, q, pre)
    ensures p < q && q + 2 <= |f| && q == Formats.Letter(f, p) && CondOpens(f, p, q, pre)
  {
    hide Starts, PrefixText, Before, ReadSpec;
  }

  lemma {:induction false} BranchesSound(f: string, t: Table, p: nat, q: nat, pre: Prefix, end: nat, node: Node) returns (part: Part)
    requires NoNul(f) && CondOpens(f, p, q, pre) && p < q && CondHolds(f, t, q + 2, end, node)
    ensures OneMade(f, t, p, end + 1, part, Some(node))
    decreases |f| - q, 3
  {
    hide Doc, Made, ReadCond, Scannable, NoNul, OneMade, CondOpens, CondNode, CondMade, ValidCond, At, Closing;
    CondSound(f, q + 2);
    CondEnds(f, t, q + 2);
    var c := ReadCond(f, q + 2).value;
    var yes := DocSound(f, t, c.yes + 1, YesEnd(c));
    var no := [];
    if c.no > 0 {
      no := DocSound(f, t, c.no + 1, c.end);
    }
    part := CondPartMade(f, t, p, q, pre, yes, no);
  }

  lemma CondEnds(f: string, t: Table, s: nat)
    requires s <= |f| && ValidCond(f, t, s) && CondMade(f, s, ReadCond(f, s).value)
    ensures var c := ReadCond(f, s).value;
      s <= c.yes < YesEnd(c) <= c.end < |f| && Closing(At(f, YesEnd(c))) && Closing(At(f, c.end)) && (c.no > 0 ==> c.no < c.end)
      && Doc(f, t, c.yes + 1, YesEnd(c)).Some? && (c.no > 0 ==> Doc(f, t, c.no + 1, c.end).Some?)
  {
    hide ReadCond, Doc, Scannable;
  }

  lemma {:induction false} DocSound(f: string, t: Table, p: nat, e: nat) returns (parts: seq<Part>)
    requires NoNul(f) && p <= e <= |f| && Closing(At(f, e)) && Doc(f, t, p, e).Some?
    ensures Made(f, t, p, e, parts, Doc(f, t, p, e))
    decreases |f| - p, 2
  {
    if p == e {
      parts := [];
      DocBehind(f, t, p, e);
      NothingMade(f, t, p);
    } else if f[p] != '%' {
      DocRaw(f, t, p, e);
      hide Doc, Made, Starts;
      var rest := DocSound(f, t, p + 1, e);
      StartsChar(f, p, f[p]);
      parts := PartFirst(f, t, p, p + 1, e, Raw(f[p]), Some(Plain(f[p])), rest, Doc(f, t, p + 1, e));
    } else if Escape(At(f, p + 1)) {
      parts := EscapeSound(f, t, p, e);
    } else {
      parts := FieldSound(f, t, p, e);
    }
    hide NoNul, Closing;
  }

  lemma {:induction false} EscapeSound(f: string, t: Table, p: nat, e: nat) returns (parts: seq<Part>)
    requires NoNul(f) && p < e <= |f| && Closing(At(f, e)) && Doc(f, t, p, e).Some? && f[p] == '%' && Escape(At(f, p + 1))
    ensures Made(f, t, p, e, parts, Doc(f, t, p, e))
    decreases |f| - p, 0
  {
    DocEscape(f, t, p, e);
    if p + 1 < e {
      hide Doc, Made, Starts;
      var rest := DocSound(f, t, p + 2, e);
      EscapeStarts(f, p, f[p + 1]);
      parts := PartFirst(f, t, p, p + 2, e, Escaped(f[p + 1]), Some(Mark(f[p + 1])), rest, Doc(f, t, p + 2, e));
    } else {
      DocBehind(f, t, p + 2, e);
      ConsLast(Mark(At(f, e)));
      var none := Prefix(false, false, false, "", false);
      parts := [Cut(none)];
      StartsCons(f, p, '%', "");
      StartsEmpty(f, p + 1);
      assert PrefixText(none) == "" && PartText(Cut(none)) == ['%'] + "";
      CutMade(f, t, p, e, none);
    }
    hide NoNul, Closing, Escape;
  }

  /** format_valid accepts exactly the texts that are made of such parts, and format_parse prints what
      the parts mean. */
  lemma FormatIsGrammar(f: string, t: Table, nodes: seq<Node>)
    requires NoNul(f)
    ensures Doc(f, t, 0, |f|) == Some(nodes) <==> exists parts :: PartsText(parts) == f && Meanings(parts, t, '\0') == Some(nodes)
  {
    if Doc(f, t, 0, |f|) == Some(nodes) {
      var parts := DocSound(f, t, 0, |f|);
      MadeText(f, t, 0, |f|, parts, Doc(f, t, 0, |f|));
      assert f[0..|f|] == f;
    }
    if parts :| PartsText(parts) == f && Meanings(parts, t, '\0') == Some(nodes) {
      assert f[0..|f|] == f;
      DocComplete(f, t, 0, |f|, parts);
    }
    hide NoNul;
  }
}
