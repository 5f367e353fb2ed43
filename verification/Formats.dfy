/** Format strings of app/format_print.c: the validator and the printer scan the same text with two
    separate loops; every format that the first accepts is printed by the second without running
    into one of its BUG_ON checks. */
module Formats {
  import opened Common
  import ExprParser
  import Filters

  /** An entry of an option table; unnamed ones have an empty name, those without letter a NUL. */
  datatype Opt = Opt(ch: char, name: string, padZero: bool)

  /** The part between the percent sign and the field. */
  datatype Spec = Spec(left: bool, exact: bool, zero: bool, width: nat, percent: bool)

  datatype Node =
    | Plain(c: char) | Middle | Right
    | Field(opt: nat, spec: Spec)
    | If(cond: string, yes: seq<Node>, no: seq<Node>)

  /* Conditions. */

  /** format_parse_cond, for any way of splitting a text into tokens. */
  function CondTree(cond: string, lex: string -> Option<seq<ExprParser.Token>>): ExprParser.Tree {
    var toks := lex(cond);
    if toks.None? then ExprParser.Null
    else
      var r := ExprParser.Parse(ExprParser.Null, toks.value, false);
      if r.Ok? then r.tree else ExprParser.Null
  }

  /** It only returns complete trees. */
  lemma ParsedComplete(cond: string, lex: string -> Option<seq<ExprParser.Token>>)
    ensures CondTree(cond, lex).Node? ==> ExprParser.Complete(CondTree(cond, lex))
  {
    if lex(cond).Some? {
      ExprParser.ParseComplete(ExprParser.Null, lex(cond).value, false);
    }
  }

  /** What a format is read against: the option table and the parser for conditions, which gives Null
      for what does not parse. */
  datatype Table = Table(opts: seq<Opt>, cond: string -> ExprParser.Tree)

  /** format_eval_cond, with C truth values; a null expression is -1. */
  function EvalCond(e: ExprParser.Tree, ev: Filters.LeafEval): (res: int)
    ensures res < 0 <==> e.Null?
  {
    if e.Null? then -1
    else if e.left.Node? then
      var left := EvalCond(e.left, ev);
      if e.kind.AND? then (if left != 0 && EvalCond(e.right, ev) != 0 then 1 else 0)
      else if e.kind.OR? then (if left != 0 || EvalCond(e.right, ev) != 0 then 1 else 0)
      else if left == 0 then 1 else 0
    else if e.kind.LeafKind? && ev(e.kind.leaf) then 1 else 0
  }

  /** On a complete expression it is the truth value. */
  lemma {:induction false} EvalCondIsEval(e: ExprParser.Tree, ev: Filters.LeafEval)
    requires ExprParser.Complete(e)
    ensures EvalCond(e, ev) == if Filters.Eval(e, ev) then 1 else 0
  {
    match e.kind
    case LeafKind(_) =>
    case NOT => EvalCondIsEval(e.left, ev);
    case _ =>
      EvalCondIsEval(e.left, ev);
      EvalCondIsEval(e.right, ev);
  }

  /** A condition that parses evaluates to its truth value. */
  lemma CondEvaluates(cond: string, lex: string -> Option<seq<ExprParser.Token>>, ev: Filters.LeafEval)
    requires CondTree(cond, lex).Node?
    ensures ExprParser.Complete(CondTree(cond, lex))
    ensures EvalCond(CondTree(cond, lex), ev) == if Filters.Eval(CondTree(cond, lex), ev) then 1 else 0
  {
    ParsedComplete(cond, lex);
    EvalCondIsEval(CondTree(cond, lex), ev);
  }

  /** u_get_char for characters of one byte; at and behind the end it reads 0. */
  function At(f: string, p: int): char
    requires 0 <= p
  {
    if p < |f| then f[p] else '\0'
  }

  predicate IsDigit(c: char) {
    '0' <= c <= '9'
  }

  predicate Escape(c: char) {
    c == '%' || c == '?' || c == '!' || c == '='
  }

  /* Finding the parts of a conditional. */

  /** The position of the first character from `p` on that is no digit. */
  function Digits(f: string, p: nat): (r: nat)
    ensures p <= r && (p <= |f| ==> r <= |f|) && !IsDigit(At(f, r))
    decreases |f| - p
  {
    if p < |f| && IsDigit(f[p]) then Digits(f, p + 1) else p
  }

  /** Past the character `c`, if it stands at `p`. */
  function Past(f: string, p: nat, c: char): (r: nat)
    requires c != '\0'
    ensures p <= r && (p <= |f| ==> r <= |f|)
  {
    if At(f, p) == c then p + 1 else p
  }

  /** Past an alignment, a dot and digits. */
  function SkipWidth(f: string, p: nat): (r: nat)
    ensures p <= r && (p <= |f| ==> r <= |f|)
  {
    Digits(f, Past(f, Past(f, p, '-'), '.'))
  }

  /** Past the brace that closes the `level`th one, if there is one. */
  function Unbrace(f: string, p: nat, level: nat): (r: Option<nat>)
    ensures r.Some? ==> p <= r.value <= |f| || level == 0
    ensures r.Some? && level == 0 ==> r.value == p
    decreases |f| - p
  {
    if level == 0 then Some(p)
    else if p >= |f| || f[p] == '\0' then None
    else if f[p] == '}' then Unbrace(f, p + 1, level - 1)
    else if f[p] != '%' then Unbrace(f, p + 1, level)
    else if Escape(At(f, p + 1)) then Unbrace(f, p + 2, level)
    else
      var q := SkipWidth(f, p + 1);
      if At(f, q) == '\0' then None
      else Unbrace(f, q + 1, if At(f, q) == '{' then level + 1 else level)
  }

  /** format_skip_cond_expr: the '?' or '}' found and the position behind it, or 0. */
  function SkipCond(f: string, p: nat): (r: (char, nat))
    ensures r.0 != '\0' ==> (r.0 == '?' || r.0 == '}') && p < r.1 <= |f| && f[r.1 - 1] == r.0
    decreases |f| - p
  {
    if At(f, p) == '\0' then ('\0', p)
    else if f[p] == '}' || f[p] == '?' then (f[p], p + 1)
    else if f[p] != '%' then SkipCond(f, p + 1)
    else if Escape(At(f, p + 1)) then SkipCond(f, p + 2)
    else
      var q := SkipWidth(f, p + 1);
      if At(f, q) == '{' then
        var close := Unbrace(f, q + 1, 1);
        if close.None? then ('\0', p) else SkipCond(f, close.value)
      else SkipCond(f, q + 1)
  }

  /** Where the then, the else (or -1) and the end of a conditional are. */
  datatype Parts = Parts(yes: nat, no: int, end: nat)

  function YesEnd(c: Parts): nat {
    if c.no > 0 then c.no else c.end
  }

  /** format_read_cond. */
  function ReadCond(f: string, p: nat): (r: Option<Parts>)
    ensures r.Some? ==> var c := r.value;
              p <= c.yes < c.end < |f| && f[c.yes] == '?' && f[c.end] == '}' && (c.no == -1 || c.yes < c.no < c.end)
  {
    var (t, q) := SkipCond(f, p);
    if t != '?' then None
    else
      var (t', q') := SkipCond(f, q);
      if t' == '\0' then None
      else if t' == '?' then
        var (t'', q'') := SkipCond(f, q');
        if t'' != '}' then None else Some(Parts(q - 1, q' - 1, q'' - 1))
      else Some(Parts(q - 1, -1, q' - 1))
  }

  /* The meaning of a format. */

  /** The number that goes on at `p` with `w` already read, and the position behind it. */
  function Width(f: string, p: nat, w: nat): (r: (nat, nat))
    ensures p <= r.1 && (p <= |f| ==> r.1 <= |f|)
    decreases |f| - p
  {
    if p < |f| && IsDigit(f[p]) then Width(f, p + 1, w * 10 + (f[p] as int - 48)) else (w, p)
  }

  /** The part from `p` on and the position of the field's letter or brace. */
  function ReadSpec(f: string, p: nat): (r: (Spec, nat))
    ensures p <= r.1 && (p <= |f| ==> r.1 <= |f|)
  {
    var a := Past(f, p, '-');
    var b := Past(f, a, '.');
    var (w, d) := Width(f, Past(f, b, '0'), 0);
    (Spec(At(f, p) == '-', At(f, a) != '.', At(f, b) == '0', w, At(f, d) == '%'), Past(f, d, '%'))
  }

  /** The next closing brace from `p` on. */
  function Close(f: string, p: nat): (r: nat)
    ensures p <= r && (p <= |f| ==> r <= |f|) && (r < |f| ==> f[r] == '}')
    decreases |f| - p
  {
    if p < |f| && f[p] != '}' then Close(f, p + 1) else p
  }

  /** A field is named by its letter, or by a name in braces; empty braces name the letter '}'. */
  predicate Names(o: Opt, ch: char, name: string) {
    if name != "" then o.name == name else o.ch == ch
  }

  /** The first option of that name, or the number of options. */
  function Find(opts: seq<Opt>, ch: char, name: string): (r: nat)
    ensures r <= |opts| && (r < |opts| ==> Names(opts[r], ch, name)) && forall i :: 0 <= i < r ==> !Names(opts[i], ch, name)
  {
    if opts == [] || Names(opts[0], ch, name) then 0 else 1 + Find(opts[1..], ch, name)
  }

  function Cons(first: Node, rest: Option<seq<Node>>): Option<seq<Node>> {
    if rest.None? then None else Some([first] + rest.value)
  }

  function Named(opts: seq<Opt>, ch: char, name: string, spec: Spec): Option<Node> {
    var i := Find(opts, ch, name);
    if i == |opts| || (spec.zero && !opts[i].padZero) then None else Some(Field(i, spec))
  }

  /** At `p` stands a percent sign that starts a field or a conditional. */
  predicate FieldAt(f: string, p: nat, e: nat) {
    p < e <= |f| && f[p] == '%' && !Escape(At(f, p + 1))
  }

  /** The position of the letter or brace of the field at `p`. */
  function Letter(f: string, p: nat): (q: nat)
    ensures p < q && (p < |f| ==> q <= |f|)
  {
    ReadSpec(f, p + 1).1
  }

  predicate CondAt(f: string, p: nat) {
    At(f, Letter(f, p)) == '{' && At(f, Letter(f, p) + 1) == '?'
  }

  /** Where the name of the field at `p` ends. */
  function NameEnd(f: string, p: nat): (r: nat)
    ensures p < r
  {
    var q := Letter(f, p);
    if At(f, q) == '{' then Close(f, q + 1) else q
  }

  /** The option that the field at `p` names. */
  function FieldOf(f: string, t: Table, p: nat): Option<Node>
    requires p < |f|
  {
    var q := Letter(f, p);
    Named(t.opts, At(f, NameEnd(f, p)), if At(f, q) == '{' then f[q + 1..NameEnd(f, p)] else "", ReadSpec(f, p + 1).0)
  }

  /** What the character behind a percent sign stands for. */
  function Mark(u: char): Node {
    if u == '!' then Middle else if u == '=' then Right else Plain(u)
  }

  /** The contents of f[p..e], or None if it is no valid format. */
  function Doc(f: string, t: Table, p: nat, e: nat): (r: Option<seq<Node>>)
    requires e <= |f|
    decreases |f| - p
  {
    if p >= e then Some([])
    else if f[p] != '%' then Cons(Plain(f[p]), Doc(f, t, p + 1, e))
    else if Escape(At(f, p + 1)) then Cons(Mark(At(f, p + 1)), Doc(f, t, p + 2, e))
    else if CondAt(f, p) then
      var q := Letter(f, p) + 2;
      var parts := ReadCond(f, q);
      if parts.None? || t.cond(f[q..parts.value.yes]).Null? || parts.value.end >= e then None
      else
        var c := parts.value;
        var yes := Doc(f, t, c.yes + 1, YesEnd(c));
        var no := if c.no > 0 then Doc(f, t, c.no + 1, c.end) else Some([]);
        if yes.None? || no.None? then None
        else Cons(If(f[q..c.yes], yes.value, no.value), Doc(f, t, c.end + 1, e))
    else if At(f, Letter(f, p)) == '{' && NameEnd(f, p) >= e then None
    else if FieldOf(f, t, p).None? then None
    else Cons(FieldOf(f, t, p).value, Doc(f, t, NameEnd(f, p) + 1, e))
  }

  /** What is printed, field by field. */
  datatype Piece = Text(c: char) | ToMiddle | ToRight | Value(opt: nat, spec: Spec)

  function Shown(n: Node, t: Table, ev: Filters.LeafEval): seq<Piece> {
    match n
    case Plain(c) => [Text(c)]
    case Middle => [ToMiddle]
    case Right => [ToRight]
    case Field(i, spec) => [Value(i, spec)]
    case If(cond, yes, no) => if EvalCond(t.cond(cond), ev) != 0 then Output(yes, t, ev) else Output(no, t, ev)
  }

  function Output(nodes: seq<Node>, t: Table, ev: Filters.LeafEval): seq<Piece> {
    if nodes == [] then [] else Shown(nodes[0], t, ev) + Output(nodes[1..], t, ev)
  }

  /** A conditional prints its first branch exactly if its condition is true. */
  lemma BranchPrinted(cond: string, yes: seq<Node>, no: seq<Node>, t: Table, ev: Filters.LeafEval)
    requires ExprParser.Complete(t.cond(cond))
    ensures Output([If(cond, yes, no)], t, ev) == Output(if Filters.Eval(t.cond(cond), ev) then yes else no, t, ev)
  {
    EvalCondIsEval(t.cond(cond), ev);
    var shown := Shown(If(cond, yes, no), t, ev);
    assert shown + [] == shown && [If(cond, yes, no)][1..] == [];
  }

  /* The scanners. */

  /** Reads an optional '-', an optional '.' and digits; `u` is the character behind them. */
  method PassWidth(f: string, s0: nat) returns (u: char, s: nat)
    ensures u == At(f, SkipWidth(f, s0)) && s == SkipWidth(f, s0) + 1
  {
    u, s := At(f, s0), s0 + 1;
    if u == '-' {
      u, s := At(f, s), s + 1;
    }
    if u == '.' {
      u, s := At(f, s), s + 1;
    }
    while IsDigit(u)
      invariant s > 0 && u == At(f, s - 1) && Digits(f, s - 1) == SkipWidth(f, s0)
      decreases |f| - s
    {
      u, s := At(f, s), s + 1;
    }
  }

  /** The inner loop of format_skip_cond_expr. */
  method PassBraces(f: string, s0: nat) returns (ok: bool, s: nat)
    ensures ok <==> Unbrace(f, s0, 1).Some?
    ensures ok ==> s == Unbrace(f, s0, 1).value
  {
    s := s0;
    var level: nat := 1;
    while level != 0
      invariant Unbrace(f, s, level) == Unbrace(f, s0, 1)
      decreases |f| - s + (if level == 0 then 0 else 1)
    {
      var u := At(f, s);
      s := s + 1;
      if u == '\0' {
        return false, s;
      }
      if u == '}' {
        level := level - 1;
      }
      if u != '%' {
        continue;
      }
      if Escape(At(f, s)) {
        s := s + 1;
        continue;
      }
      u, s := PassWidth(f, s);
      if u == '\0' {
        return false, s;
      }
      if u == '{' {
        level := level + 1;
      }
    }
    ok := true;
  }

  predicate SameEnd(a: (char, nat), b: (char, nat)) {
    a.0 == b.0 && (a.0 != '\0' ==> a.1 == b.1)
  }

  /** format_skip_cond_expr. */
  method SkipCondExpr(f: string, s0: nat) returns (t: char, s: nat)
    ensures SameEnd((t, s), SkipCond(f, s0))
  {
    s := s0;
    while At(f, s) != '\0'
      invariant SameEnd(SkipCond(f, s), SkipCond(f, s0))
      decreases |f| - s
    {
      var u := At(f, s);
      s := s + 1;
      if u == '}' || u == '?' {
        return u, s;
      }
      if u != '%' {
        continue;
      }
      if Escape(At(f, s)) {
        s := s + 1;
        continue;
      }
      u, s := PassWidth(f, s);
      if u == '{' {
        var ok;
        ok, s := PassBraces(f, s);
        if !ok {
          return '\0', s;
        }
      }
    }
    t := '\0';
  }

  /** format_read_cond; 0 is success. */
  method ReadCondition(f: string, s0: nat) returns (rc: int, yes: int, no: int, end: int)
    ensures if rc == 0 then ReadCond(f, s0).Some? && yes >= 0 && end >= 0 && ReadCond(f, s0).value == Parts(yes, no, end) else ReadCond(f, s0).None?
  {
    yes, no, end := -1, -1, -1;
    var t, s := SkipCondExpr(f, s0);
    if t != '?' {
      return 1, yes, no, end;
    }
    yes := s - 1;
    t, s := SkipCondExpr(f, s);
    if t == '\0' {
      return 1, yes, no, end;
    }
    if t == '?' {
      no := s - 1;
      t, s := SkipCondExpr(f, s);
      if t != '}' {
        return 1, yes, no, end;
      }
    }
    end := s - 1;
    rc := 0;
  }

  /* The validator. */

  /** Reads the part in front of a field; only zero padding matters. */
  method ValidSpec(f: string, s0: nat) returns (u: char, zero: bool, s: nat)
    ensures var (spec, q) := ReadSpec(f, s0); u == At(f, q) && s == q + 1 && zero == spec.zero
  {
    u, s, zero := At(f, s0), s0 + 1, false;
    if u == '-' {
      u, s := At(f, s), s + 1;
    }
    if u == '.' {
      u, s := At(f, s), s + 1;
    }
    if u == '0' {
      zero, u, s := true, At(f, s), s + 1;
    }
    ghost var w: nat, d := 0, s - 1;
    while IsDigit(u)
      invariant s > 0 && u == At(f, s - 1) && Width(f, s - 1, w) == Width(f, d, 0)
      decreases |f| - s
    {
      w := w * 10 + (u as int - 48);
      u, s := At(f, s), s + 1;
    }
    if u == '%' {
      u, s := At(f, s), s + 1;
    }
  }

  /** Reads a name up to its closing brace. */
  method ValidName(f: string, s0: nat, e: nat) returns (ok: bool, len: nat, s: nat)
    requires e <= |f|
    ensures ok <==> Close(f, s0) < e
    ensures ok ==> s == Close(f, s0) + 1 && len == Close(f, s0) - s0
  {
    s, len := s0, 0;
    while true
      invariant s == s0 + len && Close(f, s) == Close(f, s0)
      decreases |f| - s
    {
      if s >= e {
        return false, len, s;
      }
      var u := At(f, s);
      s := s + 1;
      if u == '}' {
        return true, len, s;
      }
      len := len + 1;
    }
  }

  method ValidOption(opts: seq<Opt>, ch: char, name: string, zero: bool) returns (ok: bool)
    ensures ok <==> Find(opts, ch, name) < |opts| && (zero ==> opts[Find(opts, ch, name)].padZero)
  {
    var i := 0;
    while i < |opts|
      invariant 0 <= i <= |opts| && forall k :: 0 <= k < i ==> !Names(opts[k], ch, name)
    {
      if Names(opts[i], ch, name) {
        return !zero || opts[i].padZero;
      }
      i := i + 1;
    }
    ok := false;
  }

  /** format_valid_if. */
  method ValidIf(f: string, t: Table, s0: nat, e: nat) returns (ok: bool, s: nat)
    requires e <= |f|
    ensures ok <==> ValidCond(f, t, s0)
    ensures ok ==> s == ReadCond(f, s0).value.end + 1
    decreases |f| - s0, 3
  {
    var rc, yes, no, end := ReadCondition(f, s0);
    if rc != 0 {
      return false, s0;
    }
    if t.cond(f[s0..yes]).Null? {
      return false, s0;
    }
    ok := ValidSub(f, t, yes + 1, if no > 0 then no else end);
    if !ok {
      return false, s0;
    }
    if no > 0 {
      ok := ValidSub(f, t, no + 1, end);
      if !ok {
        return false, s0;
      }
    }
    s := end + 1;
  }

  ghost predicate ValidCond(f: string, t: Table, p: nat) {
    var parts := ReadCond(f, p);
    && parts.Some? && t.cond(f[p..parts.value.yes]).Node?
    && Doc(f, t, parts.value.yes + 1, YesEnd(parts.value)).Some?
    && (parts.value.no > 0 ==> Doc(f, t, parts.value.no + 1, parts.value.end).Some?)
  }

  lemma DocCond(f: string, t: Table, p: nat, e: nat)
    requires FieldAt(f, p, e) && CondAt(f, p)
    ensures var q := Letter(f, p) + 2;
            Doc(f, t, p, e).Some? <==> ValidCond(f, t, q) && ReadCond(f, q).value.end < e && Doc(f, t, ReadCond(f, q).value.end + 1, e).Some?
  {
  }

  /** One field or conditional. */
  method ValidField(f: string, t: Table, s0: nat, e: nat) returns (ok: bool, s: nat)
    requires FieldAt(f, s0, e)
    ensures ok ==> s0 < s && (Doc(f, t, s, e).Some? <==> Doc(f, t, s0, e).Some?)
    ensures !ok ==> Doc(f, t, s0, e).None?
    decreases |f| - s0, 1
  {
    var u, zero;
    u, zero, s := ValidSpec(f, s0 + 1);
    if u == '{' && At(f, s) == '?' {
      DocCond(f, t, s0, e);
      ok, s := ValidIf(f, t, s + 1, e);
      if ok && s > e {
        ok := false;
      }
    } else {
      ok, s := ValidFieldAt(f, t, s0, s, e, u, zero);
    }
  }

  method ValidFieldAt(f: string, t: Table, s0: nat, s1: nat, e: nat, u0: char, zero: bool) returns (ok: bool, s: nat)
    requires FieldAt(f, s0, e) && !CondAt(f, s0)
    requires s1 == Letter(f, s0) + 1 && u0 == At(f, s1 - 1) && zero == ReadSpec(f, s0 + 1).0.zero
    ensures ok ==> s0 < s && (Doc(f, t, s, e).Some? <==> Doc(f, t, s0, e).Some?)
    ensures !ok ==> Doc(f, t, s0, e).None?
  {
    FieldDecides(f, t, s0, e);
    ok, s := ValidNamed(f, t, s0, s1, e, u0, zero);
  }

  /** The name of the field, if it has one, and the search for its option. */
  method ValidNamed(f: string, t: Table, s0: nat, s1: nat, e: nat, u0: char, zero: bool) returns (ok: bool, s: nat)
    requires e <= |f| && s0 < |f| && s1 == Letter(f, s0) + 1 && u0 == At(f, s1 - 1) && zero == ReadSpec(f, s0 + 1).0.zero
    ensures ok <==> (u0 == '{' ==> NameEnd(f, s0) < e) && FieldOf(f, t, s0).Some?
    ensures ok ==> s == NameEnd(f, s0) + 1
  {
    hide ReadSpec, Find;
    var u, name, len := u0, "", 0;
    s := s1;
    if u == '{' {
      ok, len, s := ValidName(f, s1, e);
      if !ok {
        return;
      }
      u, name := '}', f[s1..s1 + len];
    }
    ok := ValidOption(t.opts, u, name, zero);
  }

  lemma FieldDecides(f: string, t: Table, p: nat, e: nat)
    requires FieldAt(f, p, e) && !CondAt(f, p)
    ensures Doc(f, t, p, e).Some? <==>
      (At(f, Letter(f, p)) == '{' ==> NameEnd(f, p) < e) && FieldOf(f, t, p).Some? && Doc(f, t, NameEnd(f, p) + 1, e).Some?
  {
  }

  /** format_valid_sub accepts exactly the texts that have a meaning. */
  method ValidSub(f: string, t: Table, s0: nat, e: nat) returns (ok: bool)
    requires e <= |f|
    ensures ok <==> Doc(f, t, s0, e).Some?
    decreases |f| - s0, 2
  {
    var s := s0;
    while s < e
      invariant s0 <= s && (Doc(f, t, s, e).Some? <==> Doc(f, t, s0, e).Some?)
      decreases |f| - s
    {
      if f[s] != '%' {
        s := s + 1;
      } else if Escape(At(f, s + 1)) {
        s := s + 2;
      } else {
        ok, s := ValidField(f, t, s, e);
        if !ok {
          return false;
        }
      }
    }
    ok := true;
  }

  /** format_valid. */
  method FormatValid(f: string, t: Table) returns (ok: bool)
    ensures ok <==> Doc(f, t, 0, |f|).Some?
  {
    ok := ValidSub(f, t, 0, |f|);
  }

  /* The printer. Its BUG_ON checks are the assert statements. */

  lemma OutputFirst(n: Node, rest: seq<Node>, t: Table, ev: Filters.LeafEval)
    ensures Output([n] + rest, t, ev) == Shown(n, t, ev) + Output(rest, t, ev)
  {
    assert ([n] + rest)[1..] == rest;
  }

  method ParseSpec(f: string, s0: nat) returns (u: char, spec: Spec, s: nat)
    ensures (spec, s - 1) == ReadSpec(f, s0) && s > 0 && u == At(f, s - 1)
  {
    var left, exact, zero, percent := false, true, false, false;
    u, s := At(f, s0), s0 + 1;
    if u == '-' {
      left, u, s := true, At(f, s), s + 1;
    }
    if u == '.' {
      exact, u, s := false, At(f, s), s + 1;
    }
    if u == '0' {
      zero, u, s := true, At(f, s), s + 1;
    }
    var width: nat := 0;
    ghost var d := s - 1;
    while IsDigit(u)
      invariant s > 0 && u == At(f, s - 1) && Width(f, s - 1, width) == Width(f, d, 0)
      decreases |f| - s
    {
      width := width * 10 + (u as int - 48);
      u, s := At(f, s), s + 1;
    }
    if u == '%' {
      percent, u, s := true, At(f, s), s + 1;
    }
    spec := Spec(left, exact, zero, width, percent);
  }

  method ParseName(f: string, s0: nat, e: nat) returns (len: nat, s: nat)
    requires e <= |f| && Close(f, s0) < e
    ensures s == Close(f, s0) + 1 && len == Close(f, s0) - s0
  {
    s, len := s0, 0;
    while true
      invariant s == s0 + len && Close(f, s) == Close(f, s0)
      decreases |f| - s
    {
      assert s < e;
      var u := At(f, s);
      s := s + 1;
      if u == '}' {
        break;
      }
      len := len + 1;
    }
  }

  method ParseOption(opts: seq<Opt>, ch: char, name: string) returns (i: nat)
    requires Find(opts, ch, name) < |opts|
    ensures i == Find(opts, ch, name)
  {
    i := 0;
    while true
      invariant 0 <= i <= Find(opts, ch, name)
      decreases |opts| - i
    {
      assert i < |opts|;
      if Names(opts[i], ch, name) {
        return;
      }
      i := i + 1;
    }
  }

  /** format_parse_if. */
  method ParseIf(f: string, t: Table, s0: nat, e: nat, ev: Filters.LeafEval) returns (out: seq<Piece>, s: nat)
    requires e <= |f| && ValidCond(f, t, s0)
    ensures s == ReadCond(f, s0).value.end + 1 && out == Shown(CondNode(f, t, s0), t, ev)
    decreases |f| - s0, 4
  {
    hide ReadCond, Doc;
    var rc, yes, no, end := ReadCondition(f, s0);
    assert rc == 0;
    assert t.cond(f[s0..yes]).Node?;
    ghost var c := ReadCond(f, s0).value;
    assert c == Parts(yes, no, end) && YesEnd(c) == if no > 0 then no else end;
    out := [];
    var condRes := EvalCond(t.cond(f[s0..yes]), ev);
    assert condRes >= 0;
    if condRes != 0 {
      out := ParseSub(f, t, yes + 1, if no > 0 then no else end, ev);
      assert out == Output(CondNode(f, t, s0).yes, t, ev);
    } else if no > 0 {
      out := ParseSub(f, t, no + 1, end, ev);
      assert out == Output(CondNode(f, t, s0).no, t, ev);
    }
    s := end + 1;
  }

  ghost function CondNode(f: string, t: Table, p: nat): Node
    requires ValidCond(f, t, p)
  {
    var c := ReadCond(f, p).value;
    If(f[p..c.yes], Doc(f, t, c.yes + 1, YesEnd(c)).value, if c.no > 0 then Doc(f, t, c.no + 1, c.end).value else [])
  }

  lemma DocIf(f: string, t: Table, p: nat, e: nat)
    requires FieldAt(f, p, e) && CondAt(f, p) && Doc(f, t, p, e).Some?
    ensures var q := Letter(f, p) + 2;
            && ValidCond(f, t, q) && ReadCond(f, q).value.end < e
            && Doc(f, t, p, e) == Cons(CondNode(f, t, q), Doc(f, t, ReadCond(f, q).value.end + 1, e))
  {
  }

  lemma DocField(f: string, t: Table, p: nat, e: nat)
    requires FieldAt(f, p, e) && !CondAt(f, p) && Doc(f, t, p, e).Some?
    ensures (At(f, Letter(f, p)) == '{' ==> NameEnd(f, p) < e) && FieldOf(f, t, p).Some?
    ensures Doc(f, t, p, e) == Cons(FieldOf(f, t, p).value, Doc(f, t, NameEnd(f, p) + 1, e))
  {
  }

  /** Finds the option for the field at `s0`, whose letter or brace `u` was just read. */
  method ParseNamed(f: string, t: Table, s0: nat, e: nat, u0: char, s1: nat) returns (i: nat, s: nat)
    requires e <= |f| && s0 < |f| && s1 == Letter(f, s0) + 1 && u0 == At(f, s1 - 1)
    requires (u0 == '{' ==> NameEnd(f, s0) < e) && FieldOf(f, t, s0).Some?
    ensures s == NameEnd(f, s0) + 1 && FieldOf(f, t, s0) == Some(Field(i, ReadSpec(f, s0 + 1).0))
  {
    hide ReadSpec, Find;
    var u, name := u0, "";
    s := s1;
    if u == '{' {
      var len;
      len, s := ParseName(f, s1, e);
      u, name := '}', f[s1..s1 + len];
    }
    i := ParseOption(t.opts, u, name);
  }

  /** One field or conditional. */
  method ParseField(f: string, t: Table, s0: nat, e: nat, ev: Filters.LeafEval) returns (out: seq<Piece>, s: nat, ghost node: Node)
    requires FieldAt(f, s0, e) && Doc(f, t, s0, e).Some?
    ensures s0 < s && Doc(f, t, s0, e) == Cons(node, Doc(f, t, s, e)) && out == Shown(node, t, ev)
    decreases |f| - s0, 1
  {
    var u, spec;
    u, spec, s := ParseSpec(f, s0 + 1);
    if u == '{' && At(f, s) == '?' {
      out, s, node := ParseCondAt(f, t, s0, s + 1, e, ev);
    } else {
      out, s, node := ParseFieldAt(f, t, s0, s, e, u, spec, ev);
    }
  }

  method ParseCondAt(f: string, t: Table, s0: nat, s1: nat, e: nat, ev: Filters.LeafEval) returns (out: seq<Piece>, s: nat, ghost node: Node)
    requires FieldAt(f, s0, e) && Doc(f, t, s0, e).Some? && CondAt(f, s0) && s1 == Letter(f, s0) + 2
    ensures s0 < s && Doc(f, t, s0, e) == Cons(node, Doc(f, t, s, e)) && out == Shown(node, t, ev)
    decreases |f| - s0, 0
  {
    hide Doc, ReadCond, CondNode, Shown, Output, ReadSpec;
    DocIf(f, t, s0, e);
    node := CondNode(f, t, s1);
    out, s := ParseIf(f, t, s1, e, ev);
    assert s <= e;
  }

  method ParseFieldAt(f: string, t: Table, s0: nat, s1: nat, e: nat, u: char, spec: Spec, ev: Filters.LeafEval)
    returns (out: seq<Piece>, s: nat, ghost node: Node)
    requires FieldAt(f, s0, e) && Doc(f, t, s0, e).Some? && !CondAt(f, s0)
    requires s1 == Letter(f, s0) + 1 && u == At(f, s1 - 1) && spec == ReadSpec(f, s0 + 1).0
    ensures s0 < s && Doc(f, t, s0, e) == Cons(node, Doc(f, t, s, e)) && out == Shown(node, t, ev)
  {
    DocField(f, t, s0, e);
    node := FieldOf(f, t, s0).value;
    var i;
    i, s := ParseNamed(f, t, s0, e, u, s1);
    out := [Value(i, spec)];
  }

  /** format_parse on an accepted text prints what the text means. */
  method ParseSub(f: string, t: Table, s0: nat, e: nat, ev: Filters.LeafEval) returns (out: seq<Piece>)
    requires e <= |f| && Doc(f, t, s0, e).Some?
    ensures out == Output(Doc(f, t, s0, e).value, t, ev)
    decreases |f| - s0, 3
  {
    out := [];
    var s := s0;
    while s < e
      invariant s0 <= s && Doc(f, t, s, e).Some?
      invariant Output(Doc(f, t, s0, e).value, t, ev) == out + Output(Doc(f, t, s, e).value, t, ev)
      decreases |f| - s
    {
      var more;
      more, s := ParseItem(f, t, s, e, ev, out);
      out := out + more;
    }
  }

  method ParseItem(f: string, t: Table, s0: nat, e: nat, ev: Filters.LeafEval, ghost out: seq<Piece>) returns (more: seq<Piece>, s: nat)
    requires s0 < e <= |f| && Doc(f, t, s0, e).Some?
    ensures s0 < s && Doc(f, t, s, e).Some?
    ensures out + Output(Doc(f, t, s0, e).value, t, ev) == (out + more) + Output(Doc(f, t, s, e).value, t, ev)
    decreases |f| - s0, 2
  {
    ghost var node;
    if f[s0] != '%' {
      more, s, node := [Text(f[s0])], s0 + 1, Plain(f[s0]);
    } else if Escape(At(f, s0 + 1)) {
      var u := At(f, s0 + 1);
      more, s, node := [if u == '!' then ToMiddle else if u == '=' then ToRight else Text(u)], s0 + 2, Mark(u);
    } else {
      more, s, node := ParseField(f, t, s0, e, ev);
    }
    ItemOutput(Doc(f, t, s0, e), node, Doc(f, t, s, e), out, more, t, ev);
  }

  lemma ItemOutput(whole: Option<seq<Node>>, node: Node, rest: Option<seq<Node>>, out: seq<Piece>, more: seq<Piece>, t: Table, ev: Filters.LeafEval)
    requires whole.Some? && whole == Cons(node, rest) && more == Shown(node, t, ev)
    ensures rest.Some? && out + Output(whole.value, t, ev) == (out + more) + Output(rest.value, t, ev)
  {
    OutputFirst(node, rest.value, t, ev);
    Assoc(out, more, Output(rest.value, t, ev));
  }

  /** format_read: what format_valid accepted is printed as it is meant. */
  method FormatPrint(f: string, t: Table, ev: Filters.LeafEval) returns (accepted: bool, out: seq<Piece>)
    ensures accepted <==> Doc(f, t, 0, |f|).Some?
    ensures accepted ==> out == Output(Doc(f, t, 0, |f|).value, t, ev)
  {
    out := [];
    accepted := FormatValid(f, t);
    if accepted {
      out := ParseSub(f, t, 0, |f|, ev);
    }
  }
}
