/** Named filters of app/filters.c and their expansion by expr_check_leaves of app/expr.c. */
module Filters {
  import opened Common
  import opened ExprParser

  /** The user's filters: each name with the tree its text parses to, or nothing if the text
      does not parse. */
  datatype Definition = Parsed(tree: Tree) | Unparsable
  /* The type each built-in key has. */

  datatype LeafType = StrType | IntType | BoolType

  const BUILTIN: map<string, LeafType> := map[
    "album" := StrType, "albumartist" := StrType, "artist" := StrType, "bitrate" := IntType,
    "bpm" := IntType, "codec" := StrType, "codec_profile" := StrType, "comment" := StrType,
    "date" := IntType, "discnumber" := IntType, "duration" := IntType, "filename" := StrType,
    "genre" := StrType, "media" := StrType, "originaldate" := IntType, "play_count" := IntType,
    "stream" := BoolType, "tag" := BoolType, "title" := StrType, "tracknumber" := IntType]

  /** The built-in keys and the user's filters. */
  datatype Table = Table(builtin: map<string, LeafType>, user: map<string, Definition>)

  predicate ValidTable(table: Table) {
    forall n :: n in table.user && table.user[n].Parsed? ==> Complete(table.user[n].tree)
  }

  /** builtin[i].type == expr->type. A comparison of two keys has a type of its own, which no
      built-in key has. */
  predicate TypeFits(l: Leaf, ty: LeafType) {
    match l
    case Str(_, _, _) => ty.StrType?
    case Int(_, _, _) => ty.IntType?
    case Bool(_) => ty.BoolType?
    case Id(_, _, _) => false
  }

  /** `recursive` says that recursive_filter was set, so that the user is told of a recursion. */
  datatype Expansion = Expanded(tree: Tree, visited: set<string>) | Failed(recursive: bool)

  /** expr_check_leaves with get_filter. `visited` holds the filters whose flag is set. */
  function CheckLeaves(t: Tree, table: Table, visited: set<string>): (r: Expansion)
    requires Complete(t) && ValidTable(table)
    ensures r.Expanded? ==> visited <= r.visited && Complete(r.tree)
    decreases |table.user.Keys - visited|, t
  {
    match t.kind
    case LeafKind(l) =>
      if l.key in table.builtin then if TypeFits(l, table.builtin[l.key]) then Expanded(t, visited) else Failed(false)
      else if !l.Bool? || l.key !in table.user then Failed(false)
      else if l.key in visited then Failed(true)
      else if table.user[l.key].Unparsable? then Failed(false)
      else
        Smaller(table.user.Keys - (visited + {l.key}), table.user.Keys - visited, l.key);
        CheckLeaves(table.user[l.key].tree, table, visited + {l.key})
    case NOT =>
      var r := CheckLeaves(t.left, table, visited);
      if r.Expanded? then Expanded(Node(NOT, r.tree, Null), r.visited) else r
    case k =>
      var a := CheckLeaves(t.left, table, visited);
      if a.Failed? then a
      else
        SmallerOrEqual(table.user.Keys - a.visited, table.user.Keys - visited);
        var b := CheckLeaves(t.right, table, a.visited);
        if b.Expanded? then Expanded(Node(k, a.tree, b.tree), b.visited) else b
  }

  lemma Smaller(a: set<string>, b: set<string>, x: string)
    requires a <= b && x in b && x !in a
    ensures |a| < |b|
  {
    SmallerOrEqual(a + {x}, b);
  }

  lemma SmallerOrEqual(a: set<string>, b: set<string>)
    requires a <= b
    ensures |a| <= |b|
  {
    assert b == a + (b - a);
  }

  /* The meaning of an expression with named filters. */

  type LeafEval = Leaf -> bool

  /** expr_eval; `ev` gives the value of the leaves for some track. */
  function Eval(t: Tree, ev: LeafEval): bool
    requires Complete(t)
  {
    match t.kind
    case LeafKind(l) => ev(l)
    case NOT => !Eval(t.left, ev)
    case AND => Eval(t.left, ev) && Eval(t.right, ev)
    case OR => Eval(t.left, ev) || Eval(t.right, ev)
  }

  /** The value with every name standing for its definition, unfolding at most `depth` deep. */
  function EvalNamed(t: Tree, table: Table, ev: LeafEval, depth: nat): Option<bool>
    requires Complete(t) && ValidTable(table)
    decreases depth, t
  {
    match t.kind
    case LeafKind(l) =>
      if l.key in table.builtin then Some(ev(l))
      else if l.key !in table.user || table.user[l.key].Unparsable? || depth == 0 then None
      else EvalNamed(table.user[l.key].tree, table, ev, depth - 1)
    case NOT =>
      var v := EvalNamed(t.left, table, ev, depth);
      if v.None? then None else Some(!v.value)
    case AND =>
      var v, w := EvalNamed(t.left, table, ev, depth), EvalNamed(t.right, table, ev, depth);
      if v.None? || w.None? then None else Some(v.value && w.value)
    case OR =>
      var v, w := EvalNamed(t.left, table, ev, depth), EvalNamed(t.right, table, ev, depth);
      if v.None? || w.None? then None else Some(v.value || w.value)
  }

  /** Every leaf is a built-in key of the right type. */
  predicate Typed(t: Tree, table: Table)
    requires Complete(t)
  {
    match t.kind
    case LeafKind(l) => l.key in table.builtin && TypeFits(l, table.builtin[l.key])
    case NOT => Typed(t.left, table)
    case _ => Typed(t.left, table) && Typed(t.right, table)
  }

  /** If the expansion succeeds, it has the value of the original with names replaced by definitions. */
  ghost predicate Means(t: Tree, table: Table, visited: set<string>, ev: LeafEval, depth: nat)
    requires Complete(t) && ValidTable(table)
  {
    var r := CheckLeaves(t, table, visited);
    r.Expanded? ==> Typed(r.tree, table) && EvalNamed(t, table, ev, depth) == Some(Eval(r.tree, ev))
  }

  /** A leaf that names a filter with a definition. */
  predicate Refers(t: Tree, table: Table) {
    t.Node? && t.kind.LeafKind? && t.kind.leaf.Bool? && t.kind.leaf.key !in table.builtin && t.kind.leaf.key in table.user
    && table.user[t.kind.leaf.key].Parsed?
  }

  lemma MeansLeaf(t: Tree, table: Table, visited: set<string>, ev: LeafEval, depth: nat)
    requires Complete(t) && ValidTable(table) && t.kind.LeafKind?
    requires var n := t.kind.leaf.key;
      Refers(t, table) && n !in visited ==> depth > 0 && Means(table.user[n].tree, table, visited + {n}, ev, depth - 1)
    ensures Means(t, table, visited, ev, depth)
  {
  }

  lemma MeansNot(t: Tree, table: Table, visited: set<string>, ev: LeafEval, depth: nat)
    requires Complete(t) && ValidTable(table) && t.kind.NOT? && Means(t.left, table, visited, ev, depth)
    ensures Means(t, table, visited, ev, depth)
  {
  }

  lemma MeansBoth(t: Tree, table: Table, visited: set<string>, ev: LeafEval, depth: nat)
    requires Complete(t) && ValidTable(table) && (t.kind.AND? || t.kind.OR?) && Means(t.left, table, visited, ev, depth)
    requires var a := CheckLeaves(t.left, table, visited); a.Expanded? ==> Means(t.right, table, a.visited, ev, depth)
    ensures Means(t, table, visited, ev, depth)
  {
  }

  lemma {:induction false} ExpansionMeaning(t: Tree, table: Table, visited: set<string>, ev: LeafEval, depth: nat)
    requires Complete(t) && ValidTable(table) && depth >= |table.user.Keys - visited|
    ensures Means(t, table, visited, ev, depth)
    decreases |table.user.Keys - visited|, t
  {
    match t.kind
    case LeafKind(l) =>
      if Refers(t, table) && l.key !in visited {
        Smaller(table.user.Keys - (visited + {l.key}), table.user.Keys - visited, l.key);
        ExpansionMeaning(table.user[l.key].tree, table, visited + {l.key}, ev, depth - 1);
      }
      MeansLeaf(t, table, visited, ev, depth);
    case NOT =>
      ExpansionMeaning(t.left, table, visited, ev, depth);
      MeansNot(t, table, visited, ev, depth);
    case _ =>
      ExpansionMeaning(t.left, table, visited, ev, depth);
      var a := CheckLeaves(t.left, table, visited);
      if a.Expanded? {
        SmallerOrEqual(table.user.Keys - a.visited, table.user.Keys - visited);
        ExpansionMeaning(t.right, table, a.visited, ev, depth);
      }
      MeansBoth(t, table, visited, ev, depth);
  }

  /* Exactly what is accepted. */

  /** The names that unfolding meets, from left to right, if all leaves are in order. */
  function Names(t: Tree, table: Table, depth: nat): Option<seq<string>>
    requires Complete(t) && ValidTable(table)
    decreases depth, t
  {
    match t.kind
    case LeafKind(l) =>
      if l.key in table.builtin then if TypeFits(l, table.builtin[l.key]) then Some([]) else None
      else if !l.Bool? || l.key !in table.user || table.user[l.key].Unparsable? || depth == 0 then None
      else
        var r := Names(table.user[l.key].tree, table, depth - 1);
        if r.None? then None else Some([l.key] + r.value)
    case NOT => Names(t.left, table, depth)
    case _ =>
      var a, b := Names(t.left, table, depth), Names(t.right, table, depth);
      if a.None? || b.None? then None else Some(a.value + b.value)
  }

  ghost predicate Fresh(names: seq<string>, visited: set<string>) {
    && (forall i :: 0 <= i < |names| ==> names[i] !in visited)
    && (forall i, j :: 0 <= i < j < |names| ==> names[i] != names[j])
  }

  function AsSet(names: seq<string>): set<string> {
    set n | n in names
  }

  /** What AcceptedExactly says about one tree. */
  ghost predicate Exact(r: Expansion, ns: Option<seq<string>>, visited: set<string>) {
    && (r.Expanded? <==> ns.Some? && Fresh(ns.value, visited))
    && (r.Expanded? ==> r.visited == visited + AsSet(ns.value))
    && (ns.Some? && r.Failed? ==> r.recursive)
  }

  /** An expression is accepted exactly if unfolding it meets no filter twice; where all leaves are in
      order, a recursion is what a refusal gives as its reason. */
  lemma {:induction false} AcceptedExactly(t: Tree, table: Table, visited: set<string>, depth: nat)
    requires Complete(t) && ValidTable(table) && depth >= |table.user.Keys - visited|
    ensures Exact(CheckLeaves(t, table, visited), Names(t, table, depth), visited)
    decreases |table.user.Keys - visited|, t
  {
    match t.kind
    case LeafKind(l) =>
      if Refers(t, table) && l.key !in visited {
        Smaller(table.user.Keys - (visited + {l.key}), table.user.Keys - visited, l.key);
        AcceptedExactly(table.user[l.key].tree, table, visited + {l.key}, depth - 1);
      }
      ExactLeaf(t, table, visited, depth);
    case NOT => AcceptedExactly(t.left, table, visited, depth);
    case _ =>
      AcceptedExactly(t.left, table, visited, depth);
      var a := CheckLeaves(t.left, table, visited);
      if a.Expanded? {
        SmallerOrEqual(table.user.Keys - a.visited, table.user.Keys - visited);
        AcceptedExactly(t.right, table, a.visited, depth);
      }
      ExactBoth(t, table, visited, depth);
  }

  lemma ExactLeaf(t: Tree, table: Table, visited: set<string>, depth: nat)
    requires Complete(t) && ValidTable(table) && t.kind.LeafKind?
    requires var n := t.kind.leaf.key;
      Refers(t, table) && n !in visited ==>
        depth > 0 && Exact(CheckLeaves(table.user[n].tree, table, visited + {n}), Names(table.user[n].tree, table, depth - 1), visited + {n})
    ensures Exact(CheckLeaves(t, table, visited), Names(t, table, depth), visited)
  {
    if Refers(t, table) && depth > 0 {
      var n := t.kind.leaf.key;
      ExactName(n, CheckLeaves(t, table, visited), Names(table.user[n].tree, table, depth - 1), visited);
    }
  }

  lemma ExactBoth(t: Tree, table: Table, visited: set<string>, depth: nat)
    requires Complete(t) && ValidTable(table) && (t.kind.AND? || t.kind.OR?)
    requires var a := CheckLeaves(t.left, table, visited);
      && Exact(a, Names(t.left, table, depth), visited)
      && (a.Expanded? ==> Exact(CheckLeaves(t.right, table, a.visited), Names(t.right, table, depth), a.visited))
    ensures Exact(CheckLeaves(t, table, visited), Names(t, table, depth), visited)
  {
    var na, nb := Names(t.left, table, depth), Names(t.right, table, depth);
    if na.Some? && nb.Some? {
      FreshConcat(na.value, nb.value, visited);
    }
  }

  lemma ExactName(n: string, r: Expansion, rest: Option<seq<string>>, visited: set<string>)
    requires if n in visited then r == Failed(true) else Exact(r, rest, visited + {n})
    ensures Exact(r, if rest.None? then None else Some([n] + rest.value), visited)
  {
    if rest.Some? {
      FreshConcat([n], rest.value, visited);
      assert AsSet([n]) == {n};
      assert Fresh([n], visited) <==> n !in visited by { assert [n][0] == n; }
    }
  }

  lemma FreshConcat(a: seq<string>, b: seq<string>, visited: set<string>)
    ensures Fresh(a + b, visited) <==> Fresh(a, visited) && Fresh(b, visited + AsSet(a))
    ensures AsSet(a + b) == AsSet(a) + AsSet(b)
  {
    var s := a + b;
    assert forall i :: 0 <= i < |a| ==> s[i] == a[i];
    assert forall i :: 0 <= i < |b| ==> s[|a| + i] == b[i];
  }

  /** parse_filter without a table entry met twice: the check starts with no filter visited. */
  lemma ParseFilter(t: Tree, table: Table, ev: LeafEval)
    requires Complete(t) && ValidTable(table)
    ensures var r, ns := CheckLeaves(t, table, {}), Names(t, table, |table.user|);
      && (r.Expanded? <==> ns.Some? && Fresh(ns.value, {}))
      && (r.Expanded? ==> Typed(r.tree, table) && EvalNamed(t, table, ev, |table.user|) == Some(Eval(r.tree, ev)))
      && (ns.Some? && r.Failed? ==> r.recursive)
  {
    assert table.user.Keys - {} == table.user.Keys;
    AcceptedExactly(t, table, {}, |table.user|);
    ExpansionMeaning(t, table, {}, ev, |table.user|);
  }

  /** A filter used twice is rejected as a recursion although its definition names no filter. */
  lemma SharedFilterRejected()
    ensures var use := Node(LeafKind(Bool("f")), Null, Null);
      var table := Table(BUILTIN, map["f" := Parsed(Node(LeafKind(Bool("stream")), Null, Null))]);
      && CheckLeaves(Node(AND, use, use), table, {}) == Failed(true)
      && EvalNamed(Node(AND, use, use), table, l => true, 1) == Some(true)
  {
    var use := Node(LeafKind(Bool("f")), Null, Null);
    var table := Table(BUILTIN, map["f" := Parsed(Node(LeafKind(Bool("stream")), Null, Null))]);
    assert "f" !in table.builtin && "stream" in table.builtin;
    var first := CheckLeaves(use, table, {});
    assert first == Expanded(Node(LeafKind(Bool("stream")), Null, Null), {"f"});
  }

  /** A comparison of two keys is never accepted. */
  lemma {:induction false} NoKeyComparison(t: Tree, table: Table, visited: set<string>)
    requires Complete(t) && ValidTable(table) && HasId(t)
    ensures CheckLeaves(t, table, visited).Failed?
    decreases t
  {
    if !t.kind.LeafKind? {
      if HasId(t.left) {
        NoKeyComparison(t.left, table, visited);
      } else {
        var a := CheckLeaves(t.left, table, visited);
        if a.Expanded? {
          NoKeyComparison(t.right, table, a.visited);
        }
      }
    }
  }

  predicate HasId(t: Tree)
    requires Complete(t)
  {
    match t.kind
    case LeafKind(l) => l.Id?
    case NOT => HasId(t.left)
    case _ => HasId(t.left) || HasId(t.right)
  }

  /* The flags in the filter list. */

  class FilterList {
    const table: Table
    /** The filters whose visited flag is set, and whether recursive_filter is. */
    var visited: set<string>
    var recursive: bool

    constructor (table: Table)
      ensures this.table == table
    {
      this.table, visited, recursive := table, {}, false;
    }

    /** get_filter: hands out a filter once. */
    method GetFilter(name: string) returns (d: Option<Definition>)
      modifies this
      ensures d == if name in table.user && name !in old(visited) then Some(table.user[name]) else None
      ensures visited == if d.Some? then old(visited) + {name} else old(visited)
      ensures recursive == (old(recursive) || (name in table.user && name in old(visited)))
    {
      d := None;
      if name in table.user {
        if name in visited {
          recursive := true;
          return;
        }
        visited := visited + {name};
        d := Some(table.user[name]);
      }
    }

    /** expr_check_leaves; on success the tree with the definitions in place of their names. */
    method Check(t: Tree) returns (r: Option<Tree>)
      requires Complete(t) && ValidTable(table)
      modifies this
      ensures var e := CheckLeaves(t, table, old(visited));
        if e.Expanded? then r == Some(e.tree) && visited == e.visited && recursive == old(recursive)
        else r == None && recursive == (old(recursive) || e.recursive)
      decreases |table.user.Keys - visited|, t
    {
      if !t.kind.LeafKind? {
        r := Check(t.left);
        if r.None? {
          return;
        }
        var left := r.value;
        if t.right.Null? {
          return Some(Node(t.kind, left, Null));
        }
        SmallerOrEqual(table.user.Keys - visited, table.user.Keys - old(visited));
        r := Check(t.right);
        if r.Some? {
          r := Some(Node(t.kind, left, r.value));
        }
        return;
      }
      var l := t.kind.leaf;
      if l.key in table.builtin {
        return if TypeFits(l, table.builtin[l.key]) then Some(t) else None;
      }
      if !l.Bool? {
        return None;
      }
      var d := GetFilter(l.key);
      if d.None? || d.value.Unparsable? {
        return None;
      }
      Smaller(table.user.Keys - visited, table.user.Keys - old(visited), l.key);
      r := Check(d.value.tree);
    }

    /** parse_filter on a parsed expression: accepted exactly if unfolding meets no filter twice,
        and then with the value of the original. */
    method Parse(t: Tree, ghost ev: LeafEval) returns (r: Option<Tree>)
      requires Complete(t) && ValidTable(table)
      modifies this
      ensures var ns := Names(t, table, |table.user|); r.Some? <==> ns.Some? && Fresh(ns.value, {})
      ensures r.Some? ==> !recursive
      ensures Names(t, table, |table.user|).Some? && r.None? ==> recursive
      ensures r.Some? ==> Complete(r.value) && Typed(r.value, table) && EvalNamed(t, table, ev, |table.user|) == Some(Eval(r.value, ev))
    {
      visited := {};
      recursive := false;
      ParseFilter(t, table, ev);
      r := Check(t);
    }
  }
}
