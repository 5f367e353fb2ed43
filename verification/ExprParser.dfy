/** The filter expression parser of app/expr.c, on token lists. */
module ExprParser {

  datatype Op = LT | LE | EQ | GE | GT | NE

  datatype Token =
    | TNot | TLt | TGt | TEq | TAnd | TOr | TLparen | TRparen | TNe | TLe | TGe
    | TKey(str: string) | TIntOrKey(str: string) | TStr(str: string)

  /** The operands of a comparison keep their text; see the glob matcher for patterns. */
  datatype Leaf =
    | Str(key: string, pattern: string, sop: Op)
    | Int(key: string, digits: string, iop: Op)
    | Id(key: string, other: string, kop: Op)
    | Bool(key: string)

  datatype Kind = AND | OR | NOT | LeafKind(leaf: Leaf)

  /** struct expr; Null stands for a null pointer. Parsing builds trees in which a binary
      operator still lacks its right operand. */
  datatype Tree = Null | Node(kind: Kind, left: Tree, right: Tree)

  predicate IsBinary(k: Kind) {
    k.AND? || k.OR?
  }

  predicate Complete(t: Tree) {
    t.Node? &&
    match t.kind
    case NOT => Complete(t.left) && t.right.Null?
    case LeafKind(_) => t.left.Null? && t.right.Null?
    case _ => Complete(t.left) && Complete(t.right)
  }

  datatype Result = Ok(tree: Tree, rest: seq<Token>) | Err | Bug

  /** tok_to_op. */
  function TokOp(t: Token): seq<Op> {
    match t
    case TLt => [LT]
    case TGt => [GT]
    case TEq => [EQ]
    case TNe => [NE]
    case TLe => [LE]
    case TGe => [GE]
    case _ => []
  }

  predicate IsKey(t: Token) {
    t.TKey? || t.TIntOrKey?
  }

  /** The part of parse_one that starts with a key. */
  function ParseKey(toks: seq<Token>): (r: Result)
    requires toks != [] && IsKey(toks[0])
    ensures r.Ok? ==> |r.rest| < |toks| && Complete(r.tree)
    ensures !r.Bug?
  {
    var key := toks[0].str;
    if |toks| == 1 || TokOp(toks[1]) == [] then Ok(Node(LeafKind(Bool(key)), Null, Null), toks[1..])
    else
      var op := TokOp(toks[1])[0];
      if |toks| == 2 then Err
      else
        match toks[2]
        case TStr(s) => if op.EQ? || op.NE? then Ok(Node(LeafKind(Str(key, s, op)), Null, Null), toks[3..]) else Err
        case TIntOrKey(s) => Ok(Node(LeafKind(Int(key, s, op)), Null, Null), toks[3..])
        case TKey(s) => Ok(Node(LeafKind(Id(key, s, op)), Null, Null), toks[3..])
        case _ => Err
  }

  /** The end of the right spine. */
  function Tail(t: Tree): (r: Tree)
    requires t.Node?
    ensures r.Node? && r.right.Null?
  {
    if t.right.Null? then t else Tail(t.right)
  }

  function AttachAtTail(t: Tree, e: Tree): Tree
    requires t.Node?
  {
    if t.right.Null? then t.(right := e) else t.(right := AttachAtTail(t.right, e))
  }

  datatype Added = Added(tree: Tree) | AddBug

  /** add; AddBug is its BUG_ON. */
  function Add(root: Tree, e: Tree): (r: Added)
    requires e.Node?
    ensures r.Added? ==> r.tree.Node?
  {
    if root.Null? then Added(e)
    else if IsBinary(Tail(root).kind) then Added(AttachAtTail(root, e))
    else if !IsBinary(e.kind) then AddBug
    else Added(e.(left := root))
  }

  /** parse_one. */
  function ParseOne(toks: seq<Token>): (r: Result)
    ensures r.Ok? ==> |r.rest| < |toks| && r.tree.Node?
    decreases |toks|, 0
  {
    if toks == [] then Err
    else if toks[0].TNot? then
      var r := ParseOne(toks[1..]);
      if r.Ok? then Ok(Node(NOT, r.tree, Null), r.rest) else r
    else if toks[0].TLparen? then Parse(Null, toks[1..], true)
    else if IsKey(toks[0]) then ParseKey(toks)
    else Err
  }

  /** parse from one round of its loop on; `nested` says level > 0. */
  function Parse(root: Tree, toks: seq<Token>, nested: bool): (r: Result)
    ensures r.Ok? ==> |r.rest| < |toks| && r.tree.Node?
    decreases |toks|, 1
  {
    var one := ParseOne(toks);
    if !one.Ok? then one
    else
      var a := Add(root, one.tree);
      if a.AddBug? then Bug
      else if one.rest == [] then if nested then Err else Ok(a.tree, [])
      else if one.rest[0].TRparen? then if nested then Ok(a.tree, one.rest[1..]) else Err
      else if one.rest[0].TAnd? || one.rest[0].TOr? then
        var b := Add(a.tree, Node(if one.rest[0].TAnd? then AND else OR, Null, Null));
        if b.AddBug? then Bug else Parse(b.tree, one.rest[1..], nested)
      else Err
  }

  /* The grammar.

     expr ::= atom { ('&' | '|') atom }
     atom ::= '!' atom | '(' expr ')' | leaf */

  /** Derivations. The key of a leaf may be a token of digits only; `digits` says which. */
  datatype Atom = Single(leaf: Leaf, digits: bool) | Negated(atom: Atom) | Paren(first: Atom, more: Chain)
  datatype Chain = End | Then(op: Kind, atom: Atom, more: Chain)

  predicate ValidAtom(a: Atom) {
    match a
    case Single(l, _) => l.Str? ==> l.sop.EQ? || l.sop.NE?
    case Negated(b) => ValidAtom(b)
    case Paren(f, m) => ValidAtom(f) && ValidChain(m)
  }

  predicate ValidChain(c: Chain) {
    c.Then? ==> IsBinary(c.op) && ValidAtom(c.atom) && ValidChain(c.more)
  }

  function OpTok(op: Op): Token {
    match op
    case LT => TLt
    case LE => TLe
    case EQ => TEq
    case GE => TGe
    case GT => TGt
    case NE => TNe
  }

  function BinTok(k: Kind): Token {
    if k.AND? then TAnd else TOr
  }

  /** The tokens of a derivation. */
  function Yield(a: Atom): seq<Token> {
    match a
    case Single(l, digits) =>
      var key := if digits then TIntOrKey(l.key) else TKey(l.key);
      (match l
       case Str(_, p, op) => [key, OpTok(op), TStr(p)]
       case Int(_, d, op) => [key, OpTok(op), TIntOrKey(d)]
       case Id(_, o, op) => [key, OpTok(op), TKey(o)]
       case Bool(_) => [key])
    case Negated(b) => [TNot] + Yield(b)
    case Paren(f, m) => [TLparen] + (Yield(f) + (YieldChain(m) + [TRparen]))
  }

  function YieldChain(c: Chain): seq<Token> {
    if c.End? then [] else [BinTok(c.op)] + (Yield(c.atom) + YieldChain(c.more))
  }

  /** The tree of a derivation: chains associate to the left, `&` and `|` alike. */
  function Value(a: Atom): (t: Tree)
    ensures ValidAtom(a) ==> Complete(t)
  {
    match a
    case Single(l, _) => Node(LeafKind(l), Null, Null)
    case Negated(b) => Node(NOT, Value(b), Null)
    case Paren(f, m) => FoldLeft(Value(f), m)
  }

  function FoldLeft(t: Tree, c: Chain): (r: Tree)
    ensures Complete(t) && ValidChain(c) ==> Complete(r)
    decreases c
  {
    if c.End? then t else FoldLeft(Node(c.op, t, Value(c.atom)), c.more)
  }

  /* add. */

  lemma {:induction false} CompleteTail(t: Tree)
    requires Complete(t)
    ensures !IsBinary(Tail(t).kind)
  {
    if !t.right.Null? {
      CompleteTail(t.right);
    }
  }

  /** What parse passes to add: nothing yet, or an operator that lacks its right operand. */
  predicate Open(root: Tree) {
    root.Node? ==> IsBinary(root.kind) && Complete(root.left) && root.right.Null?
  }

  function Closed(root: Tree, e: Tree): Tree {
    if root.Null? then e else Node(root.kind, root.left, e)
  }

  /** The BUG_ON of add does not trip: operands and operators alternate. */
  lemma AddOperand(root: Tree, e: Tree)
    requires Open(root) && Complete(e)
    ensures Add(root, e) == Added(Closed(root, e)) && Complete(Closed(root, e))
  {
  }

  lemma AddOperator(root: Tree, k: Kind)
    requires Complete(root) && IsBinary(k)
    ensures Add(root, Node(k, Null, Null)) == Added(Node(k, root, Null)) && Open(Node(k, root, Null))
  {
    CompleteTail(root);
  }

  /** Every tree the parser returns is complete, and no BUG_ON is reached, for any tokens. */
  lemma {:induction false} ParseOneComplete(toks: seq<Token>)
    ensures var r := ParseOne(toks); !r.Bug? && (r.Ok? ==> Complete(r.tree))
    decreases |toks|, 0
  {
    if toks != [] {
      if toks[0].TNot? {
        ParseOneComplete(toks[1..]);
      } else if toks[0].TLparen? {
        ParseComplete(Null, toks[1..], true);
      }
    }
  }

  lemma {:induction false} ParseComplete(root: Tree, toks: seq<Token>, nested: bool)
    requires Open(root)
    ensures var r := Parse(root, toks, nested); !r.Bug? && (r.Ok? ==> Complete(r.tree))
    decreases |toks|, 1
  {
    ParseOneComplete(toks);
    var one := ParseOne(toks);
    if one.Ok? {
      AddOperand(root, one.tree);
      var t := Closed(root, one.tree);
      if one.rest != [] && (one.rest[0].TAnd? || one.rest[0].TOr?) {
        var k := if one.rest[0].TAnd? then AND else OR;
        AddOperator(t, k);
        ParseComplete(Node(k, t, Null), one.rest[1..], nested);
      }
    }
  }

  /* Completeness: every sentence is parsed to the tree of its derivation. */

  /** What ends an expression, and what comes behind. */
  function Ending(nested: bool, rest: seq<Token>): seq<Token> {
    if nested then [TRparen] + rest else rest
  }

  lemma ChainConcat(c: Chain, e: seq<Token>)
    requires c.Then?
    ensures YieldChain(c) + e == [BinTok(c.op)] + (Yield(c.atom) + (YieldChain(c.more) + e))
  {
    var y, z := Yield(c.atom), YieldChain(c.more);
    assert (y + z) + e == y + (z + e);
  }

  /** What may follow an operand. */
  predicate Follow(rest: seq<Token>) {
    rest == [] || rest[0].TAnd? || rest[0].TOr? || rest[0].TRparen?
  }

  lemma {:induction false} AtomParses(a: Atom, rest: seq<Token>)
    requires ValidAtom(a) && Follow(rest)
    ensures ParseOne(Yield(a) + rest) == Ok(Value(a), rest)
    decreases |Yield(a)|, 0
  {
    var toks := Yield(a) + rest;
    match a
    case Single(l, _) =>
      SingleParses(a, rest);
    case Negated(b) =>
      assert toks[1..] == Yield(b) + rest;
      AtomParses(b, rest);
    case Paren(f, m) =>
      ParenConcat(f, m, rest);
      ChainParses(Null, f, m, true, rest);
  }

  lemma SingleParses(a: Atom, rest: seq<Token>)
    requires a.Single? && ValidAtom(a) && Follow(rest)
    ensures ParseOne(Yield(a) + rest) == Ok(Value(a), rest)
  {
    assert (Yield(a) + rest)[|Yield(a)|..] == rest;
  }

  lemma ParenConcat(f: Atom, m: Chain, rest: seq<Token>)
    ensures var toks := Yield(Paren(f, m)) + rest;
            toks[0] == TLparen && toks[1..] == Yield(f) + (YieldChain(m) + Ending(true, rest))
  {
    Regroup(TLparen, Yield(f), YieldChain(m), TRparen, rest);
  }

  lemma Regroup(l: Token, y: seq<Token>, z: seq<Token>, r: Token, rest: seq<Token>)
    ensures var toks := [l] + (y + (z + [r])) + rest;
            toks == [l] + (y + (z + ([r] + rest))) && toks[0] == l && toks[1..] == y + (z + ([r] + rest))
  {
    var tail := y + (z + ([r] + rest));
    assert z + [r] + rest == z + ([r] + rest);
    assert y + (z + [r]) + rest == tail;
    assert ([l] + tail)[1..] == tail;
  }

  lemma {:induction false} ChainParses(root: Tree, first: Atom, more: Chain, nested: bool, rest: seq<Token>)
    requires Open(root) && ValidAtom(first) && ValidChain(more) && (!nested ==> rest == [])
    ensures Parse(root, Yield(first) + (YieldChain(more) + Ending(nested, rest)), nested)
            == Ok(FoldLeft(Closed(root, Value(first)), more), rest)
    decreases |Yield(first)| + |YieldChain(more)|, 1
  {
    var after := YieldChain(more) + Ending(nested, rest);
    if more.Then? {
      ChainConcat(more, Ending(nested, rest));
    }
    AtomParses(first, after);
    AddOperand(root, Value(first));
    if more.Then? {
      var t := Closed(root, Value(first));
      AddOperator(t, more.op);
      assert after[1..] == Yield(more.atom) + (YieldChain(more.more) + Ending(nested, rest));
      ChainParses(Node(more.op, t, Null), more.atom, more.more, nested, rest);
    } else {
      assert after == Ending(nested, rest);
      assert nested ==> after[1..] == rest;
    }
  }

  /* Soundness: what is parsed is a sentence, and the tree is that of a derivation. */

  lemma {:induction false} AtomSound(toks: seq<Token>) returns (a: Atom)
    requires ParseOne(toks).Ok?
    ensures ValidAtom(a) && ParseOne(toks).tree == Value(a) && toks == Yield(a) + ParseOne(toks).rest
    decreases |toks|, 0
  {
    if toks[0].TNot? {
      var b := AtomSound(toks[1..]);
      a := Negated(b);
      assert toks == [TNot] + toks[1..];
    } else if toks[0].TLparen? {
      var first, more := ChainSound(Null, toks[1..], true);
      a := Paren(first, more);
      var rest := ParseOne(toks).rest;
      assert toks == [TLparen] + toks[1..];
      Regroup(TLparen, Yield(first), YieldChain(more), TRparen, rest);
    } else {
      a := Single(ParseOne(toks).tree.kind.leaf, toks[0].TIntOrKey?);
    }
  }

  lemma NextTokens(toks: seq<Token>, k: Kind, f: Atom, m: Chain, e: seq<Token>)
    requires toks != [] && (k.AND? || k.OR?) && toks[0] == BinTok(k) && toks[1..] == Yield(f) + (YieldChain(m) + e)
    ensures toks == YieldChain(Then(k, f, m)) + e
  {
    ChainConcat(Then(k, f, m), e);
    assert toks == [toks[0]] + toks[1..];
  }

  lemma {:induction false} ChainSound(root: Tree, toks: seq<Token>, nested: bool) returns (first: Atom, more: Chain)
    requires Open(root) && Parse(root, toks, nested).Ok?
    ensures ValidAtom(first) && ValidChain(more)
    ensures var r := Parse(root, toks, nested);
      && r.tree == FoldLeft(Closed(root, Value(first)), more)
      && toks == Yield(first) + (YieldChain(more) + Ending(nested, r.rest))
    ensures !nested ==> Parse(root, toks, nested).rest == []
    decreases |toks|, 1
  {
    first := AtomSound(toks);
    more := End;
    var one := ParseOne(toks);
    AddOperand(root, one.tree);
    var t := Closed(root, one.tree);
    if one.rest != [] && (one.rest[0].TAnd? || one.rest[0].TOr?) {
      var k := if one.rest[0].TAnd? then AND else OR;
      AddOperator(t, k);
      var f, m := ChainSound(Node(k, t, Null), one.rest[1..], nested);
      more := Then(k, f, m);
      NextTokens(one.rest, k, f, m, Ending(nested, Parse(root, toks, nested).rest));
    } else {
      assert one.rest == Ending(nested, Parse(root, toks, nested).rest);
    }
  }

  /** expr_parse_i's call of parse accepts exactly the sentences of the grammar and returns the
      tree of their derivation. */
  lemma ParserIsGrammar(toks: seq<Token>, t: Tree)
    ensures Parse(Null, toks, false) == Ok(t, []) <==>
            exists first, more :: ValidAtom(first) && ValidChain(more) && toks == Yield(first) + YieldChain(more) && t == FoldLeft(Value(first), more)
  {
    if Parse(Null, toks, false) == Ok(t, []) {
      var first, more := ChainSound(Null, toks, false);
      assert YieldChain(more) + [] == YieldChain(more);
    }
    if first, more :| ValidAtom(first) && ValidChain(more) && toks == Yield(first) + YieldChain(more) && t == FoldLeft(Value(first), more) {
      ChainParses(Null, first, more, false, []);
      assert YieldChain(more) + [] == YieldChain(more);
    }
  }

  /** The fully parenthesised spelling of a tree. */
  function Spelled(t: Tree): (a: Atom)
    requires Complete(t)
  {
    match t.kind
    case LeafKind(l) => Single(l, false)
    case NOT => Negated(Spelled(t.left))
    case k => Paren(Spelled(t.left), Then(k, Spelled(t.right), End))
  }

  predicate ValidTree(t: Tree)
    requires Complete(t)
  {
    match t.kind
    case LeafKind(l) => l.Str? ==> l.sop.EQ? || l.sop.NE?
    case NOT => ValidTree(t.left)
    case _ => ValidTree(t.left) && ValidTree(t.right)
  }

  lemma {:induction false} SpelledValue(t: Tree)
    requires Complete(t) && ValidTree(t)
    ensures ValidAtom(Spelled(t)) && Value(Spelled(t)) == t
  {
    if !t.kind.LeafKind? {
      SpelledValue(t.left);
      if !t.kind.NOT? {
        SpelledValue(t.right);
        var a := Spelled(t);
        assert a.more.more.End? && FoldLeft(Node(t.kind, t.left, t.right), End) == Node(t.kind, t.left, t.right);
      }
    }
  }

  /** Printing a tree with all parentheses and parsing it gives the tree back. */
  lemma RoundTrip(t: Tree)
    requires Complete(t) && ValidTree(t)
    ensures Parse(Null, Yield(Spelled(t)), false) == Ok(t, [])
  {
    SpelledValue(t);
    ChainParses(Null, Spelled(t), End, false, []);
    assert Yield(Spelled(t)) + (YieldChain(End) + []) == Yield(Spelled(t));
  }

  /* The parser as the source runs it: a cursor over the tokens and a tree that grows. */

  method ParseItem(toks: seq<Token>) returns (r: Result)
    ensures r == ParseOne(toks)
    decreases |toks|, 0
  {
    if toks == [] {
      return Err;
    }
    if toks[0].TNot? {
      r := ParseItem(toks[1..]);
      if r.Ok? {
        r := Ok(Node(NOT, r.tree, Null), r.rest);
      }
    } else if toks[0].TLparen? {
      r := ParseItems(toks[1..], true);
    } else if IsKey(toks[0]) {
      r := ParseKey(toks);
    } else {
      r := Err;
    }
  }

  method ParseItems(toks: seq<Token>, nested: bool) returns (r: Result)
    ensures r == Parse(Null, toks, nested)
    decreases |toks|, 1
  {
    var root, item := Null, toks;
    while true
      invariant |item| <= |toks| && Parse(root, item, nested) == Parse(Null, toks, nested)
      decreases |item|
    {
      var one := ParseItem(item);
      if !one.Ok? {
        return one;
      }
      var a := Add(root, one.tree);
      if a.AddBug? {
        return Bug;
      }
      if one.rest == [] {
        return if nested then Err else Ok(a.tree, []);
      }
      var tok := one.rest[0];
      if tok.TRparen? {
        return if nested then Ok(a.tree, one.rest[1..]) else Err;
      }
      if !tok.TAnd? && !tok.TOr? {
        return Err;
      }
      var b := Add(a.tree, Node(if tok.TAnd? then AND else OR, Null, Null));
      if b.AddBug? {
        return Bug;
      }
      root, item := b.tree, one.rest[1..];
    }
  }
}
