/** Live filters that are expressions, as app/lib.c and app/expr.c treat them. */
module LiveExprs {
  import opened ExprParser
  import Filters
  import Words

  type LiveExpr = t: Tree | Complete(t) witness Node(LeafKind(Bool("stream")), Null, Null)

  /** How a leaf evaluates for a track. */
  type LeafValue = (Leaf, Words.Tags) -> bool

  /** expr_eval. */
  predicate EvalOn(e: LiveExpr, tags: Words.Tags, value: LeafValue) {
    Filters.Eval(e, l => value(l, tags))
  }

  /** expr_is_short: such live filters are expressions, the others are plain text. */
  predicate IsShort(text: string) {
    exists i :: 0 <= i < |text| && text[i] == '~' && forall k :: 0 <= k < i ==> text[k] in ['!', '(', ' ']
  }

  method ExprIsShort(text: string) returns (short: bool)
    ensures short <==> IsShort(text)
  {
    for i := 0 to |text|
      invariant forall k :: 0 <= k < i ==> text[k] in ['!', '(', ' ']
    {
      if text[i] == '~' {
        return true;
      }
      if text[i] != '!' && text[i] != '(' && text[i] != ' ' {
        return false;
      }
    }
    short := false;
  }

  /** The end of expr_is_harmless, for the whole expression or the right operand of "and". */
  predicate HarmlessEnd(k: Kind) {
    !k.LeafKind? || (k.leaf.Int? && k.leaf.iop !in {LT, EQ, LE}) || k.leaf.Str? || k.leaf.Bool?
  }

  /** expr_is_harmless. */
  predicate Harmless(e: LiveExpr) {
    assert e.kind.AND? ==> Complete(e.right);
    !e.kind.OR? && !e.kind.NOT? && HarmlessEnd(if e.kind.AND? then e.right.kind else e.kind)
  }

  /** A comparison with '<', '<=' or '=', or of two keys: one more digit or letter behind it can let
      further tracks pass. */
  predicate MayGrow(l: Leaf) {
    l.Id? || (l.Int? && (l.iop.LT? || l.iop.LE? || l.iop.EQ?))
  }

  /** Expressions that are never taken for narrower: "or" and negations, comparisons that may grow,
      and "and" with such a comparison on the right. */
  predicate Cleared(e: LiveExpr) {
    match e.kind
    case OR => true
    case NOT => true
    case LeafKind(l) => MayGrow(l)
    case AND =>
      assert Complete(e.right);
      e.right.kind.LeafKind? && MayGrow(e.right.kind.leaf)
  }

  /** All others are harmless, whatever they are like inside. */
  lemma HarmlessExactly(e: LiveExpr)
    ensures Harmless(e) <==> !Cleared(e)
  {
    assert e.kind.AND? ==> Complete(e.right);
  }

  /** Every track that passes `b` passes `a`. */
  ghost predicate Entails(b: LiveExpr, a: LiveExpr, value: LeafValue) {
    forall tags :: EvalOn(b, tags, value) ==> EvalOn(a, tags, value)
  }

  /** Taking tracks out is enough to get from `a` to `b` in this library. */
  ghost predicate NoneMissed(library: set<Words.Tags>, a: LiveExpr, b: LiveExpr, value: LeafValue) {
    forall tags :: tags in library && EvalOn(b, tags, value) ==> EvalOn(a, tags, value)
  }

  /** It is enough in every library exactly if `b` narrows `a`. */
  lemma EveryLibrary(a: LiveExpr, b: LiveExpr, value: LeafValue)
    ensures (forall library :: NoneMissed(library, a, b, value)) <==> Entails(b, a, value)
  {
    if forall library :: NoneMissed(library, a, b, value) {
      forall tags | EvalOn(b, tags, value) ensures EvalOn(a, tags, value) {
        assert NoneMissed({tags}, a, b, value);
      }
    }
  }

  /** A term typed behind an expression narrows it. */
  lemma FurtherTerm(a: LiveExpr, term: LiveExpr, value: LeafValue)
    ensures Entails(Node(AND, a, term), a, value)
  {
    forall tags | EvalOn(Node(AND, a, term), tags, value) ensures EvalOn(a, tags, value) {
      Same(a, l => value(l, tags), l => value(l, tags));
    }
  }

  lemma Same(e: LiveExpr, f: Filters.LeafEval, g: Filters.LeafEval)
    requires forall l :: f(l) == g(l)
    ensures Filters.Eval(e, f) == Filters.Eval(e, g)
  {
  }

  function Single(leaf: Leaf): LiveExpr {
    Node(LeafKind(leaf), Null, Null)
  }

  function Without(leaf: Leaf): LiveExpr {
    assert Complete(Single(leaf));
    Node(NOT, Single(leaf), Null)
  }

  /** A pattern in a negated term: `terms` and not `leaf`. */
  function Excluding(terms: LiveExpr, leaf: Leaf): (e: LiveExpr)
    ensures !Cleared(e)
  {
    assert Complete(Without(leaf));
    Node(AND, terms, Without(leaf))
  }

  /** Such an expression narrows the one with another pattern exactly if, among the tracks that
      pass the other terms, those with the other pattern have this one; expr_is_harmless lets it
      through in any case. */
  lemma ExcludingNarrows(terms: LiveExpr, a: Leaf, b: Leaf, value: LeafValue)
    ensures Entails(Excluding(terms, b), Excluding(terms, a), value) <==>
            forall tags :: EvalOn(terms, tags, value) && value(a, tags) ==> value(b, tags)
  {
    forall tags ensures EvalOn(Excluding(terms, b), tags, value) <==> EvalOn(terms, tags, value) && !value(b, tags) {
      Negated(terms, b, tags, value);
    }
    forall tags ensures EvalOn(Excluding(terms, a), tags, value) <==> EvalOn(terms, tags, value) && !value(a, tags) {
      Negated(terms, a, tags, value);
    }
  }

  lemma Negated(terms: LiveExpr, a: Leaf, tags: Words.Tags, value: LeafValue)
    ensures EvalOn(Excluding(terms, a), tags, value) <==> EvalOn(terms, tags, value) && !value(a, tags)
  {
    var ev := l => value(l, tags);
    Same(terms, ev, l => value(l, tags));
    Same(Excluding(terms, a), ev, l => value(l, tags));
    assert Filters.Eval(Single(a), ev) == value(a, tags);
    assert Filters.Eval(Without(a), ev) == !Filters.Eval(Single(a), ev);
  }
}
