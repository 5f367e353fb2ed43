/** Formats that can be nested: which parts may stand in a branch of a conditional of
    app/format_print.c, and how a meaning is spelled. */
module FormatSpelling {
  import opened Common
  import opened Formats
  import opened FormatScan
  import opened FormatGrammar

  /* Parts that may stand in a conditional. */

  /** The scanner for conditionals passes over the part: it reads no percent sign behind a width, and
      sees the braces of a name or of a conditional. */
  ghost predicate Tame(part: Part) {
    match part
    case Raw(c) => c != '%' && c != '?' && c != '}'
    case Escaped(c) => Escape(c)
    case ByLetter(pre, c) => !pre.percent && Before(pre, c) && c != '{'
    case ByName(pre, name) => !pre.percent && Before(pre, '{') && '%' !in name && '}' !in name
    case Cond(pre, cond, yes, hasElse, no) =>
      !pre.percent && Before(pre, '{') && Scannable(cond) && AllTame(yes) && (hasElse ==> AllTame(no))
    case Cut(_) => false
  }

  ghost predicate AllTame(parts: seq<Part>) {
    parts == [] || (Tame(parts[0]) && AllTame(parts[1..]))
  }

  lemma {:induction false} ItemsBoth(a: seq<Item>, b: seq<Item>, inside: bool)
    requires ItemsOk(a, inside) && ItemsOk(b, inside)
    ensures ItemsOk(a + b, inside) && ItemsText(a + b) == ItemsText(a) + ItemsText(b)
  {
    hide ItemOk, ItemText;
    if a == [] {
      assert a + b == b;
    } else {
      assert (a + b)[1..] == a[1..] + b;
      ItemsBoth(a[1..], b, inside);
    }
  }

  lemma {:induction false} ItemsInside(items: seq<Item>)
    requires ItemsOk(items, false)
    ensures ItemsOk(items, true)
  {
    if items != [] {
      ItemsInside(items[1..]);
    }
  }

  lemma OneChar(c: char)
    requires c != '%' && c != '}'
    ensures ItemsOk([Ch(c)], true) && ItemsText([Ch(c)]) == [c]
  {
    assert ItemsText([Ch(c)][1..]) == "" && ItemsOk([Ch(c)][1..], true);
  }

  lemma {:induction false} NameItems(name: string) returns (items: seq<Item>)
    requires '%' !in name && '}' !in name
    ensures ItemsOk(items, true) && ItemsText(items) == name
  {
    if name == "" {
      items := [];
    } else {
      var rest := NameItems(name[1..]);
      OneChar(name[0]);
      ItemsBoth([Ch(name[0])], rest, true);
      items := [Ch(name[0])] + rest;
    }
  }

  lemma PadOf(pre: Prefix, c: char) returns (pad: Pad)
    requires !pre.percent && Before(pre, c)
    ensures PadText(pad) == PrefixText(pre) && Ends(pad, c) && (PadText(pad) == "" ==> !Escape(c))
  {
    pad := Pad(pre.left, pre.dot, Flag(pre.zero, '0') + pre.digits);
    assert pre.digits + "" == pre.digits;
    assert PrefixText(pre) == "" ==> (PrefixText(pre) + [c])[0] == c;
  }

  /** The text behind the '?' that opens a conditional. */
  lemma BranchItems(first: seq<Item>, second: seq<Item>, last: seq<Item>, hasElse: bool) returns (items: seq<Item>)
    requires ItemsOk(first, true) && ItemsOk(second, true) && ItemsOk(last, true)
    ensures ItemsOk(items, true)
    ensures ItemsText(items) + ['}'] == ['?'] + CondText(ItemsText(first), ItemsText(second), hasElse, ItemsText(last))
  {
    hide ItemsOk, ItemsText;
    var mark := [Ch('?')];
    OneChar('?');
    ItemsBoth(mark, last, true);
    var behind := if hasElse then mark + last else [];
    EmptyItems();
    ItemsBoth(second, behind, true);
    ItemsBoth(mark, second + behind, true);
    ItemsBoth(first, mark + (second + behind), true);
    ItemsBoth(mark, first + (mark + (second + behind)), true);
    items := mark + (first + (mark + (second + behind)));
    Joined(ItemsText(first), ItemsText(second), ItemsText(last), hasElse);
  }

  lemma EmptyItems()
    ensures ItemsOk([], true) && ItemsText([]) == ""
  {
  }

  lemma Joined(first: string, second: string, last: string, hasElse: bool)
    ensures (['?'] + (first + (['?'] + (second + if hasElse then ['?'] + last else "")))) + ['}'] == ['?'] + CondText(first, second, hasElse, last)
  {
  }

  lemma {:induction false} TameItem(part: Part) returns (i: Item)
    requires Tame(part)
    ensures ItemOk(i, false) && ItemText(i) == PartText(part)
    decreases part
  {
    hide Before, PrefixText, PadText, Ends, Escape, Scannable, CondText;
    match part
    case Raw(c) => i := Ch(c);
    case Escaped(c) => i := Esc(c);
    case ByLetter(pre, c) =>
      var pad := PadOf(pre, c);
      i := Short(pad, c);
    case ByName(pre, name) =>
      var pad := PadOf(pre, '{');
      var inner := NameItems(name);
      i := Braces(pad, inner);
    case Cond(_, _, _, _, _) => i := TameCond(part);
  }

  lemma {:induction false} TameCond(part: Part) returns (i: Item)
    requires Tame(part) && part.Cond?
    ensures ItemOk(i, false) && ItemText(i) == PartText(part)
    decreases part, 2
  {
    hide Before, PrefixText, PadText, Ends, Scannable, CondText, ItemsOk, ItemsText, PartsText;
    var pad := PadOf(part.pre, '{');
    var first := ScannedItems(part.cond);
    var second := TameItems(part.yes);
    var last := [];
    if part.hasElse {
      last := TameItems(part.no);
    } else {
      EmptyItems();
      NoElse(part.cond, PartsText(part.yes), PartsText(part.no));
    }
    var inner := BranchItems(first, second, last, part.hasElse);
    i := Braces(pad, inner);
  }

  lemma NoElse(cond: string, yes: string, no: string)
    ensures CondText(cond, yes, false, no) == CondText(cond, yes, false, "")
  {
  }

  lemma ScannedItems(x: string) returns (items: seq<Item>)
    requires Scannable(x)
    ensures ItemsOk(items, true) && ItemsText(items) == x
  {
    items :| ItemsOk(items, false) && ItemsText(items) == x;
    ItemsInside(items);
  }

  lemma {:induction false} TameItems(parts: seq<Part>) returns (items: seq<Item>)
    requires AllTame(parts)
    ensures ItemsOk(items, false) && ItemsOk(items, true) && ItemsText(items) == PartsText(parts)
    decreases parts, 1
  {
    hide Tame, ItemOk, ItemText, PartText;
    if parts == [] {
      items := [];
    } else {
      var first := TameItem(parts[0]);
      var rest := TameItems(parts[1..]);
      items := [first] + rest;
      assert items[1..] == rest;
    }
    ItemsInside(items);
  }

  /** Such parts may stand in a branch of a conditional, however deeply they are nested. */
  lemma TameScans(parts: seq<Part>)
    requires AllTame(parts)
    ensures Scannable(PartsText(parts))
  {
    var items := TameItems(parts);
  }

  /* How a meaning is spelled. */

  /** A width in digits; none for no width. */
  function Digital(n: nat): string {
    if n == 0 then "" else Digital(n / 10) + [(48 + n % 10) as char]
  }

  lemma {:induction false} DigitalIs(n: nat)
    ensures AllDigits(Digital(n)) && Decimal(Digital(n)) == n && (n > 0 ==> Digital(n) != "" && Digital(n)[0] != '0')
  {
    if n > 0 {
      DigitalIs(n / 10);
      var all := Digital(n);
      assert all[..|all| - 1] == Digital(n / 10);
    }
  }

  function PrefixFor(s: Spec): Prefix {
    Prefix(s.left, !s.exact, s.zero, Digital(s.width), s.percent)
  }

  lemma PrefixForIs(s: Spec)
    ensures AllDigits(PrefixFor(s).digits) && SpecOf(PrefixFor(s)) == s
  {
    DigitalIs(s.width);
  }

  /** The option's name, if that finds it, and its letter otherwise. */
  predicate ByItsName(t: Table, i: nat) {
    i < |t.opts| && t.opts[i].name != "" && Find(t.opts, '}', t.opts[i].name) == i
  }

  function SpelledField(i: nat, spec: Spec, t: Table): Part
    requires i < |t.opts|
  {
    if ByItsName(t, i) then ByName(PrefixFor(spec), t.opts[i].name) else ByLetter(PrefixFor(spec), t.opts[i].ch)
  }

  /** A field can be written if the option can be found and a percent sign stands behind a width. */
  predicate FieldFine(i: nat, spec: Spec, t: Table) {
    && i < |t.opts| && (spec.zero ==> t.opts[i].padZero)
    && if ByItsName(t, i) then
         Before(PrefixFor(spec), '{') && '%' !in t.opts[i].name && '}' !in t.opts[i].name && t.opts[i].name[0] != '?' && NoNul(t.opts[i].name)
       else
         Before(PrefixFor(spec), t.opts[i].ch) && t.opts[i].ch != '{' && t.opts[i].ch != '\0' && Find(t.opts, t.opts[i].ch, "") == i
  }

  /** What can be written, in a branch of a conditional or outside of any. */
  ghost predicate Fine(n: Node, t: Table, inside: bool) {
    match n
    case Plain(c) => c != '\0' && (inside ==> c != '}')
    case Middle => true
    case Right => true
    case Field(i, spec) => FieldFine(i, spec, t) && (inside ==> !spec.percent)
    case If(cond, yes, no) => NoNul(cond) && Scannable(cond) && t.cond(cond).Node? && AllFine(yes, t, true) && AllFine(no, t, true)
  }

  ghost predicate AllFine(nodes: seq<Node>, t: Table, inside: bool) {
    nodes == [] || (Fine(nodes[0], t, inside) && AllFine(nodes[1..], t, inside))
  }

  function Spelled(n: Node, t: Table): Part {
    match n
    case Plain(c) => if c == '%' || c == '?' then Escaped(c) else Raw(c)
    case Middle => Escaped('!')
    case Right => Escaped('=')
    case Field(i, spec) => if i < |t.opts| then SpelledField(i, spec, t) else Raw(' ')
    case If(cond, yes, no) => Cond(Prefix(false, false, false, "", false), cond, AllSpelled(yes, t), no != [], AllSpelled(no, t))
  }

  function AllSpelled(nodes: seq<Node>, t: Table): seq<Part> {
    if nodes == [] then [] else [Spelled(nodes[0], t)] + AllSpelled(nodes[1..], t)
  }

  lemma FieldSpelled(i: nat, spec: Spec, t: Table)
    requires FieldFine(i, spec, t)
    ensures Meaning(SpelledField(i, spec, t), t) == Some(Field(i, spec))
    ensures !spec.percent ==> Tame(SpelledField(i, spec, t))
  {
    hide Before, Find;
    PrefixForIs(spec);
  }

  /** A spelling means what was spelled, and may be nested if that may. */
  lemma {:induction false} SpelledMeans(n: Node, t: Table, inside: bool)
    requires Fine(n, t, inside)
    ensures Meaning(Spelled(n, t), t) == Some(n) && !Spelled(n, t).Cut? && (inside ==> Tame(Spelled(n, t)))
    decreases n
  {
    match n
    case Field(i, spec) =>
      hide FieldFine, SpelledField, Meaning, Tame;
      FieldSpelled(i, spec, t);
    case If(cond, yes, no) => IfSpelled(n, t);
    case _ =>
  }

  lemma {:induction false} IfSpelled(n: Node, t: Table)
    requires n.If? && Fine(n, t, true)
    ensures Meaning(Spelled(n, t), t) == Some(n) && Tame(Spelled(n, t))
    decreases n, 2
  {
    hide AllSpelled, AllTame, Scannable, Meanings, PartsText, AllFine, NoNul;
    var next := if n.no != [] then '?' else '}';
    SpellingMeans(n.yes, t, true, next);
    SpellingMeans(n.no, t, true, '}');
    TameScans(AllSpelled(n.yes, t));
    TameScans(AllSpelled(n.no, t));
    PlainBefore();
  }

  lemma PlainBefore()
    ensures Before(Prefix(false, false, false, "", false), '{')
  {
    assert PrefixText(Prefix(false, false, false, "", false)) + ['{'] == "{";
  }

  lemma {:induction false} SpellingMeans(nodes: seq<Node>, t: Table, inside: bool, next: char)
    requires AllFine(nodes, t, inside)
    ensures Meanings(AllSpelled(nodes, t), t, next) == Some(nodes) && (inside ==> AllTame(AllSpelled(nodes, t)))
    decreases nodes, 1
  {
    hide Meaning, Spelled, Fine, Tame;
    if nodes != [] {
      SpelledMeans(nodes[0], t, inside);
      SpellingMeans(nodes[1..], t, inside, next);
      var all := AllSpelled(nodes, t);
      assert all[0] == Spelled(nodes[0], t) && all[1..] == AllSpelled(nodes[1..], t);
      assert [nodes[0]] + nodes[1..] == nodes;
    }
  }

  /* No NUL is written. */

  lemma NoNulBoth(a: string, b: string)
    requires NoNul(a) && NoNul(b)
    ensures NoNul(a + b)
  {
  }

  lemma PrefixNoNul(pre: Prefix)
    requires AllDigits(pre.digits)
    ensures NoNul(PrefixText(pre))
  {
    hide AllDigits;
    DigitsNoNul(pre.digits);
    hide NoNul, Flag;
    FlagNoNul(pre.left, '-');
    FlagNoNul(pre.dot, '.');
    FlagNoNul(pre.zero, '0');
    FlagNoNul(pre.percent, '%');
    NoNulBoth(pre.digits, Flag(pre.percent, '%'));
    NoNulBoth(Flag(pre.zero, '0'), pre.digits + Flag(pre.percent, '%'));
    NoNulBoth(Flag(pre.dot, '.'), NumberText(pre));
    NoNulBoth(Flag(pre.left, '-'), Flag(pre.dot, '.') + NumberText(pre));
  }

  lemma DigitsNoNul(digits: string)
    requires AllDigits(digits)
    ensures NoNul(digits)
  {
  }

  lemma FlagNoNul(on: bool, c: char)
    requires c != '\0'
    ensures NoNul(Flag(on, c))
  {
  }

  lemma {:induction false} PartNoNul(n: Node, t: Table, inside: bool)
    requires Fine(n, t, inside)
    ensures NoNul(PartText(Spelled(n, t)))
    decreases n
  {
    hide Scannable, Meanings, Find, PrefixText, Digital, CondText, Before;
    match n
    case Field(i, spec) =>
      PrefixForIs(spec);
      PrefixNoNul(PrefixFor(spec));
    case If(cond, yes, no) =>
      hide AllSpelled, PartsText;
      PrefixNoNul(Prefix(false, false, false, "", false));
      PartsNoNul(yes, t, true);
      PartsNoNul(no, t, true);
      CondNoNul(cond, PartsText(AllSpelled(yes, t)), no != [], PartsText(AllSpelled(no, t)));
    case _ =>
  }

  lemma CondNoNul(cond: string, yes: string, hasElse: bool, no: string)
    requires NoNul(cond) && NoNul(yes) && NoNul(no)
    ensures NoNul(CondText(cond, yes, hasElse, no))
  {
  }

  lemma {:induction false} PartsNoNul(nodes: seq<Node>, t: Table, inside: bool)
    requires AllFine(nodes, t, inside)
    ensures NoNul(PartsText(AllSpelled(nodes, t)))
    decreases nodes, 1
  {
    hide NoNul, Spelled, PartText, Fine;
    if nodes == [] {
      assert PartsText(AllSpelled(nodes, t)) == "";
      NoNulEmpty();
    } else {
      PartNoNul(nodes[0], t, inside);
      PartsNoNul(nodes[1..], t, inside);
      var all := AllSpelled(nodes, t);
      assert all[0] == Spelled(nodes[0], t) && all[1..] == AllSpelled(nodes[1..], t);
      NoNulBoth(PartText(all[0]), PartsText(all[1..]));
    }
  }

  lemma NoNulEmpty()
    ensures NoNul("")
  {
  }

  /** What is spelled is read back, conditionals nested to any depth included. */
  lemma SpellingReads(nodes: seq<Node>, t: Table)
    requires AllFine(nodes, t, false)
    ensures var f := PartsText(AllSpelled(nodes, t)); Doc(f, t, 0, |f|) == Some(nodes)
  {
    hide AllFine, AllSpelled, PartsText, Doc, Meanings, NoNul;
    SpellingMeans(nodes, t, false, '\0');
    PartsNoNul(nodes, t, false);
    FormatIsGrammar(PartsText(AllSpelled(nodes, t)), t, nodes);
  }

  /* A percent sign behind a width. */

  lemma OneField(f: string, t: Table)
    requires f == "%5%{t}" && Find(t.opts, '}', "t") < |t.opts|
    ensures Doc(f, t, 0, |f|).Some?
  {
    assert Width(f, 2, 5) == (5, 2) && Width(f, 1, 0) == (5, 2);
    assert ReadSpec(f, 1) == (Spec(false, true, false, 5, true), 3);
    assert Close(f, 5) == 5 && Close(f, 4) == 5;
    assert NameEnd(f, 0) == 5 && f[4..5] == "t";
    assert FieldAt(f, 0, 6) && !CondAt(f, 0) && FieldOf(f, t, 0).Some?;
    hide FieldOf, ReadSpec, CondAt, Close;
    FormatGrammar.DocField(f, t, 0, 6);
    DocBehind(f, t, 6, 6);
  }

  /** A field with a width in percent is read on its own. In a branch of a conditional its name in
      braces is not passed over, whatever the options and conditions, so that the conditional ends at
      the brace of the name. */
  lemma PercentInside(t: Table)
    requires Find(t.opts, '}', "t") < |t.opts|
    ensures Doc("%5%{t}", t, 0, 6).Some? && Doc("%{?a?%5%{t}}", t, 0, 12).None?
  {
    OneField("%5%{t}", t);
    InBranch("%{?a?%5%{t}}", t);
  }

  lemma BranchFound(f: string)
    requires f == "%{?a?%5%{t}}"
    ensures Formats.Letter(f, 0) == 1 && CondAt(f, 0) && ReadCond(f, 3) == Some(Parts(4, -1, 10))
  {
    assert Width(f, 1, 0) == (0, 1);
    assert SkipCond(f, 4) == ('?', 5) && SkipCond(f, 3) == ('?', 5);
    assert Digits(f, 7) == 7 && SkipWidth(f, 6) == 7;
    assert SkipCond(f, 10) == ('}', 11) && SkipCond(f, 9) == ('}', 11) && SkipCond(f, 8) == ('}', 11) && SkipCond(f, 5) == ('}', 11);
  }

  lemma NoBranch(f: string, t: Table)
    requires f == "%{?a?%5%{t}}"
    ensures Doc(f, t, 5, 10).None?
  {
    assert Width(f, 7, 5) == (5, 7) && Width(f, 6, 0) == (5, 7);
    assert ReadSpec(f, 6).1 == 8 && Formats.Letter(f, 5) == 8;
    assert Close(f, 10) == 10 && Close(f, 9) == 10;
    assert NameEnd(f, 5) == 10;
    assert FieldAt(f, 5, 10) && !CondAt(f, 5);
    hide FieldOf, ReadSpec, CondAt, Close;
    FormatGrammar.DocField(f, t, 5, 10);
  }

  lemma InBranch(f: string, t: Table)
    requires f == "%{?a?%5%{t}}"
    ensures Doc(f, t, 0, |f|).None?
  {
    hide ReadCond, CondAt, Doc, SkipCond, ReadSpec;
    BranchFound(f);
    NoBranch(f, t);
    assert !ValidCond(f, t, 3);
    FormatGrammar.DocCond(f, t, 0, |f|);
  }
}
