/** The library of app/lib.c: a hash table of all tracks and a view that is meant to hold those
    which pass the current filters, kept up to date incrementally. */
module Library {
  import opened Common
  import opened Glob
  import opened Words
  import opened LiveExprs
  import ExprParser
  import Commands

  type Filter = Tags -> bool

  /** FH_SIZE. */
  const SIZE := 1024

  ghost predicate Distinct(s: seq<Track>) {
    forall i, j :: 0 <= i < j < |s| ==> s[i] != s[j]
  }

  /** Taking the tracks out of the view is enough: either nothing was hidden by the old text, or
      the new text does not allow it (do_clear_before says so), or the old text has a word. */
  ghost predicate Narrowing(before: Option<string>, text: Option<string>) {
    before.Some? && text.Some? && before != text && HasPart(text.value, before.value) ==>
      exists w :: WordIn(w, before.value)
  }

  type Parser = string -> Option<LiveExpr>

  /** The expression that a live filter text is parsed to, if it is one. */
  function Parsed(parse: Parser, text: Option<string>): Option<LiveExpr> {
    if text.Some? && IsShort(text.value) then parse(text.value) else None
  }

  class Lib {
    const fold: Fold
    const hash: string -> nat
    const chains: array<seq<Track>>
    var view: seq<Track>
    var filter: Option<Filter>
    var addFilter: Option<Filter>
    /** lib_live_filter and live_filter_expr. */
    var live: Option<string>
    var liveExpr: Option<LiveExpr>
    /** expr_parse on a short expression, and the value of its leaves for a track. */
    const parse: Parser
    const value: LeafValue

    constructor (fold: Fold, hash: string -> nat, parse: Parser, value: LeafValue)
      ensures Valid() && fresh(chains) && Tracks() == {} && this.fold == fold && this.hash == hash && this.parse == parse && this.value == value
      ensures filter.None? && addFilter.None? && live.None? && liveExpr.None?
    {
      this.fold, this.hash, this.parse, this.value := fold, hash, parse, value;
      chains := new seq<Track>[SIZE](i => []);
      view, filter, addFilter, live, liveExpr := [], None, None, None, None;
    }

    function Slot(name: string): (r: nat)
      ensures r < SIZE
    {
      hash(name) % SIZE
    }

    /** Each chain holds the tracks that belong to it, at most one for each file name. */
    ghost predicate ChainOk(i: int)
      requires 0 <= i < chains.Length
      reads chains
    {
      && (forall t :: t in chains[i] ==> Slot(t.tags.filename) == i)
      && forall j, k :: 0 <= j < k < |chains[i]| ==> chains[i][j].tags.filename != chains[i][k].tags.filename
    }

    ghost predicate TableOk()
      reads chains
    {
      chains.Length == SIZE && forall i :: 0 <= i < SIZE ==> ChainOk(i)
    }

    ghost function Tracks(): set<Track>
      reads chains
    {
      set i, t | 0 <= i < chains.Length && t in chains[i] :: t
    }

    /** Not is_filtered. */
    ghost predicate Passes(t: Track)
      reads this`live, this`liveExpr, this`filter
    {
      && (if liveExpr.Some? then EvalOn(liveExpr.value, t.tags, value) else live.Some? ==> TextMatches(t, live.value, fold))
      && (filter.Some? ==> filter.value(t.tags))
    }

    ghost function Wanted(): set<Track>
      reads this`live, this`liveExpr, this`filter, chains
    {
      set t | t in Tracks() && Passes(t)
    }

    ghost function Shown(): set<Track>
      reads this`view
    {
      set t | t in view
    }

    /** What the tracks that pass the filter other than the live one look like. */
    ghost function TagsOf(): set<Tags>
      reads this`filter, chains
    {
      set t | t in Tracks() && (filter.Some? ==> filter.value(t.tags)) :: t.tags
    }

    /** The view holds exactly the tracks of the table that pass the filters, each once. */
    ghost predicate Valid()
      reads this, chains
    {
      TableOk() && Distinct(view) && Shown() == Wanted() && liveExpr == ExprOf(live)
    }

    /** hash_insert. */
    method HashInsert(t: Track) returns (inserted: bool)
      requires TableOk()
      modifies chains
      ensures TableOk()
      ensures inserted <==> forall u :: u in old(Tracks()) ==> u.tags.filename != t.tags.filename
      ensures inserted ==> Tracks() == old(Tracks()) + {t} && t !in old(Tracks())
      ensures !inserted ==> Tracks() == old(Tracks())
    {
      var pos := Slot(t.tags.filename);
      assert ChainOk(pos);
      var chain := chains[pos];
      for i := 0 to |chain|
        invariant forall k :: 0 <= k < i ==> chain[k].tags.filename != t.tags.filename
      {
        if chain[i].tags.filename == t.tags.filename {
          assert chain[i] in chains[pos];
          return false;
        }
      }
      assert forall u :: u in Tracks() && u.tags.filename == t.tags.filename ==> u in chain by {
        forall u | u in Tracks() && u.tags.filename == t.tags.filename ensures u in chain {
          var i :| 0 <= i < SIZE && u in chains[i];
          assert ChainOk(i);
        }
      }
      chains[pos] := [t] + chain;
      inserted := true;
      assert forall i {:trigger ChainOk(i)} :: 0 <= i < SIZE && i != pos ==> old(ChainOk(i)) && ChainOk(i);
      assert ChainOk(pos);
      forall u ensures u in Tracks() <==> u in old(Tracks()) + {t} {
        if u in old(Tracks()) {
          var i :| 0 <= i < SIZE && u in old(chains[i]);
          assert u in chains[i];
        }
        assert t in chains[pos];
      }
    }

    /** hash_remove; it runs off its chain when the file name is not there. */
    method HashRemove(t: Track)
      requires TableOk() && t in Tracks()
      modifies chains
      ensures TableOk() && Tracks() == old(Tracks()) - {t}
    {
      var pos := Slot(t.tags.filename);
      assert ChainOk(pos);
      var chain := chains[pos];
      assert t in chain by {
        var i :| 0 <= i < SIZE && t in chains[i];
        assert ChainOk(i);
      }
      var at := 0;
      while chain[at].tags.filename != t.tags.filename
        invariant 0 <= at < |chain|
        invariant t !in chain[..at]
        decreases |chain| - at
      {
        at := at + 1;
        assert t in chain[at..];
      }
      assert chain[at] == t;
      chains[pos] := chain[..at] + chain[at + 1..];
      assert forall i {:trigger ChainOk(i)} :: 0 <= i < SIZE && i != pos ==> old(ChainOk(i)) && ChainOk(i);
      assert ChainOk(pos);
      forall u ensures u in Tracks() <==> u in old(Tracks()) - {t} {
        if u in old(Tracks()) && u != t {
          var i :| 0 <= i < SIZE && u in old(chains[i]);
          assert u in chains[i];
        }
        if u in Tracks() {
          var i :| 0 <= i < SIZE && u in chains[i];
          assert ChainOk(i) && u in old(chains[i]);
        }
      }
    }

    /** is_filtered. */
    method IsFiltered(t: Track) returns (filtered: bool)
      ensures filtered <==> !Passes(t)
    {
      if liveExpr.Some? {
        if !EvalOn(liveExpr.value, t.tags, value) {
          return true;
        }
      } else if live.Some? {
        var matched := TrackMatches(t, live.value, fold);
        if !matched {
          return true;
        }
      }
      filtered := filter.Some? && !filter.value(t.tags);
    }

    /** lib_add_track. */
    method AddTrack(t: Track)
      requires Valid()
      modifies this`view, chains
      ensures Valid()
      ensures Tracks() == if (addFilter.Some? && !addFilter.value(t.tags)) || (exists u :: u in old(Tracks()) && u.tags.filename == t.tags.filename)
                          then old(Tracks()) else old(Tracks()) + {t}
    {
      if addFilter.Some? && !addFilter.value(t.tags) {
        return;
      }
      assert forall u :: u in view ==> u in Shown();
      var inserted := HashInsert(t);
      if !inserted {
        return;
      }
      var filtered := IsFiltered(t);
      if !filtered {
        assert t !in view;
        view := view + [t];
        assert Shown() == old(Shown()) + {t};
      }
      assert forall u :: u in Wanted() <==> u in old(Wanted()) || (u == t && !filtered);
    }

    /** lib_remove: only a track in the view can be found, and it leaves the table as well. */
    method Remove(t: Track) returns (removed: bool)
      requires Valid()
      modifies this`view, chains
      ensures Valid() && removed == (t in old(view))
      ensures Tracks() == if removed then old(Tracks()) - {t} else old(Tracks())
    {
      for i := 0 to |view|
        invariant t !in view[..i] && Valid() && view == old(view) && Tracks() == old(Tracks())
      {
        if view[i] == t {
          assert t in Shown();
          HashRemove(t);
          assert t !in view[..i] && t !in view[i + 1..];
          view := view[..i] + view[i + 1..];
          assert Shown() == old(Shown()) - {t};
          assert forall u :: u in Wanted() <==> u in old(Wanted()) && u != t;
          return true;
        }
      }
      removed := false;
    }

    /** hash_add_to_views on an empty view. */
    method AddAll()
      requires TableOk() && view == []
      modifies this`view
      ensures Distinct(view) && Shown() == Wanted()
    {
      for i := 0 to SIZE
        invariant Distinct(view)
        invariant forall t :: t in view <==> t in Wanted() && Slot(t.tags.filename) < i
      {
        AddChain(i);
      }
    }

    method AddChain(i: nat)
      requires TableOk() && i < SIZE && Distinct(view) && forall t :: t in view ==> Slot(t.tags.filename) < i
      modifies this`view
      ensures Distinct(view) && forall t :: t in view <==> t in old(view) || (t in Wanted() && Slot(t.tags.filename) == i)
    {
      assert ChainOk(i);
      var chain := chains[i];
      for j := 0 to |chain|
        invariant Distinct(view)
        invariant forall t :: t in view <==> t in old(view) || (t in chain[..j] && Passes(t))
      {
        var filtered := IsFiltered(chain[j]);
        assert chain[j] in chains[i] && chain[j] !in chain[..j];
        if !filtered {
          view := view + [chain[j]];
        }
      }
      assert chain[..|chain|] == chain;
      forall t | t in Wanted() && Slot(t.tags.filename) == i ensures t in chain {
        var k :| 0 <= k < SIZE && t in chains[k];
        assert ChainOk(k);
      }
    }

    /** editable_remove_matching_tracks with is_filtered. */
    method RemoveFiltered()
      requires Distinct(view)
      modifies this`view
      ensures Distinct(view) && forall t :: t in view <==> t in old(view) && Passes(t)
    {
      var i := 0;
      while i < |view|
        invariant 0 <= i <= |view| && Distinct(view)
        invariant forall k :: 0 <= k < i ==> Passes(view[k])
        invariant forall t :: t in view ==> t in old(view)
        invariant forall t :: t in old(view) && Passes(t) ==> t in view
        decreases |view| - i
      {
        var filtered := IsFiltered(view[i]);
        if filtered {
          view := view[..i] + view[i + 1..];
        } else {
          i := i + 1;
        }
      }
    }

    /** do_lib_filter. Without clearing, the view is right exactly when no track that passes the
        filters was missing from it. */
    method DoFilter(clearBefore: bool)
      requires TableOk() && Distinct(view) && Shown() <= Tracks() && liveExpr == ExprOf(live)
      modifies this`view
      ensures clearBefore ==> Valid()
      ensures Distinct(view) && (!clearBefore ==> forall t :: t in view <==> t in old(view) && Passes(t))
      ensures !clearBefore ==> (Valid() <==> Wanted() <= old(Shown()))
    {
      if clearBefore {
        view := [];
        AddAll();
      } else {
        RemoveFiltered();
      }
    }

    /** lib_set_filter. */
    method SetFilter(expr: Option<Filter>)
      requires Valid()
      modifies this`view, this`filter, this`live, this`liveExpr
      ensures Valid() && filter == expr && live == None
    {
      var clearBefore := live.Some? || filter.Some?;
      live, liveExpr := None, None;
      filter := expr;
      DoFilter(clearBefore);
    }

    function ExprOf(text: Option<string>): Option<LiveExpr> {
      Parsed(parse, text)
    }

    /** Nothing happens for the same text again or an expression that does not parse. */
    predicate Refused(text: Option<string>)
      reads this`live
    {
      text == live || (text.Some? && IsShort(text.value) && parse(text.value).None?)
    }

    /** do_clear_before. */
    ghost predicate Clears(text: Option<string>)
      reads this`live, this`liveExpr
    {
      var expr := ExprOf(text);
      live.Some? && (text.None? || expr.Some? != liveExpr.Some? || (expr.Some? && Cleared(expr.value)) || !HasPart(text.value, live.value))
    }

    method ClearBefore(text: Option<string>, expr: Option<LiveExpr>) returns (clear: bool)
      requires expr == ExprOf(text)
      ensures clear <==> Clears(text)
    {
      if live.None? {
        return false;
      }
      if text.None? {
        return true;
      }
      if (expr.None? && liveExpr.Some?) || (expr.Some? && liveExpr.None?) {
        return true;
      }
      if expr.Some? {
        HarmlessExactly(expr.value);
      }
      if expr.None? || Harmless(expr.value) {
        var found := StrStr(text.value, live.value);
        return !found;
      }
      return true;
    }

    /** lib_set_live_filter. Where the view is cleared first it is right; where it is not, it is right
        exactly if no track that passes now was missing. For plain text that is so exactly if the old
        text has a word (without one it had hidden everything) or no track passes. */
    method SetLiveFilter(text: Option<string>)
      requires Valid()
      modifies this`view, this`live, this`liveExpr
      ensures TableOk() && Distinct(view) && Shown() <= Wanted()
      ensures old(Refused(text)) ==> Valid() && live == old(live) && liveExpr == old(liveExpr) && view == old(view)
      ensures old(!Refused(text)) ==> live == text && liveExpr == ExprOf(text)
      ensures old(!Refused(text)) ==> (Valid() <==> old(Clears(text)) || Wanted() <= old(Shown()))
      ensures old(!Refused(text) && !Clears(text)) ==> forall t :: t in view <==> t in old(view) && Passes(t)
      ensures old(!Refused(text) && liveExpr.None?) && ExprOf(text).None? ==> (Valid() <==> Narrowing(old(live), text) || Wanted() == {})
    {
      if text == live {
        return;
      }
      var expr, short := None, false;
      if text.Some? {
        short := ExprIsShort(text.value);
      }
      if short {
        expr := parse(text.value);
        if expr.None? {
          return;
        }
      }
      ghost var before, plain := live, liveExpr.None? && expr.None?;
      ghost var cleared := Clears(text);
      assert plain ==> Shown() == Matching(before);
      NewLive(text, expr);
      if plain && !cleared {
        assert Wanted() == Matching(text);
        PlainNarrows(before, text);
      }
    }

    method NewLive(text: Option<string>, expr: Option<LiveExpr>)
      requires Valid() && expr == ExprOf(text)
      modifies this`view, this`live, this`liveExpr
      ensures TableOk() && Distinct(view) && Shown() <= Wanted() && live == text && liveExpr == expr
      ensures Valid() <==> old(Clears(text)) || Wanted() <= old(Shown())
      ensures old(!Clears(text)) ==> forall t :: t in view <==> t in old(view) && Passes(t)
    {
      var clearBefore := ClearBefore(text, expr);
      live, liveExpr := text, expr;
      DoFilter(clearBefore);
    }

    /** The tracks that pass with the plain text `text` for a live filter. */
    ghost function Matching(text: Option<string>): set<Track>
      reads this`filter, chains
    {
      set t | t in Tracks() && (text.Some? ==> TextMatches(t, text.value, fold)) && (filter.Some? ==> filter.value(t.tags))
    }

    /** A plain text that contains the old one lets no further track pass, exactly if the old one has
        a word or no track passes. */
    lemma PlainNarrows(before: Option<string>, text: Option<string>)
      requires before != text && (before.Some? ==> text.Some? && HasPart(text.value, before.value))
      ensures Matching(text) <= Matching(before) <==> Narrowing(before, text) || Matching(text) == {}
    {
      if before.Some? {
        if w :| WordIn(w, before.value) {
          forall t | t in Matching(text) ensures t in Matching(before) {
            Narrows(t, text.value, before.value, fold);
          }
        } else {
          assert Matching(before) == {};
        }
      }
    }
  }

  /** strstr. */
  method StrStr(text: string, part: string) returns (found: bool)
    ensures found <==> HasPart(text, part)
  {
    var p := 0;
    while p + |part| <= |text|
      invariant 0 <= p && forall k :: 0 <= k < p ==> !PartAt(text, k, part)
    {
      if text[p..p + |part|] == part {
        assert PartAt(text, p, part);
        return true;
      }
      p := p + 1;
    }
    found := false;
  }

  /* Whole runs. */

  datatype Op = Add(t: Track) | Drop(t: Track) | Filtered(expr: Option<Filter>) | Live(arg: Commands.Argument)

  /** What is stored and which filters are in force. */
  datatype Store = Store(tracks: set<Track>, filter: Option<Filter>, live: Option<string>)

  ghost function StoreOf(lib: Lib): Store
    reads lib`filter, lib`live, lib.chains
  {
    Store(lib.Tracks(), lib.filter, lib.live)
  }

  ghost predicate Visible(s: Store, t: Track, lib: Lib) {
    var expr := Parsed(lib.parse, s.live);
    && t in s.tracks && (s.filter.Some? ==> s.filter.value(t.tags))
    && if expr.Some? then EvalOn(expr.value, t.tags, lib.value) else s.live.Some? ==> TextMatches(t, s.live.value, lib.fold)
  }

  /** What an operation does to it: a file that is there or excluded is not added, only what is shown
      is removed, and a filter takes the live filter away. */
  ghost function After(s: Store, op: Op, lib: Lib, addFilter: Option<Filter>): Store {
    match op
    case Add(t) =>
      if (addFilter.Some? && !addFilter.value(t.tags)) || (exists u :: u in s.tracks && u.tags.filename == t.tags.filename) then s
      else s.(tracks := s.tracks + {t})
    case Drop(t) => if Visible(s, t, lib) then s.(tracks := s.tracks - {t}) else s
    case Filtered(expr) => s.(filter := expr, live := None)
    case Live(_) => s.(live := LiveAfter(s.live, op, lib.parse))
  }

  ghost function AfterAll(s: Store, ops: seq<Op>, lib: Lib, addFilter: Option<Filter>): Store
    decreases |ops|
  {
    if ops == [] then s else AfterAll(After(s, ops[0], lib, addFilter), ops[1..], lib, addFilter)
  }

  /** A plain live text has a word. */
  ghost predicate HasWord(lib: Lib)
    reads lib
  {
    lib.live.Some? && lib.liveExpr.None? ==> exists w :: WordIn(w, lib.live.value)
  }

  lemma FirstWord(text: string)
    requires text != [] && text[0] != ' '
    ensures exists w :: WordIn(w, text)
  {
    var s, e := WordAround(text, 0, 1);
    assert WordIn(text[s..e], text);
  }

  /** Where do_clear_before relies on expr_is_harmless, the new expression does narrow the old one. */
  ghost predicate Narrowed(live: Option<string>, text: Option<string>, parse: Parser, value: LeafValue) {
    var a, b := Parsed(parse, live), Parsed(parse, text);
    live != text && a.Some? && b.Some? && !Cleared(b.value) && HasPart(text.value, live.value) ==> Entails(b.value, a.value, value)
  }

  /** The live filter after an operation. */
  function LiveAfter(live: Option<string>, op: Op, parse: Parser): Option<string> {
    match op
    case Filtered(_) => None
    case Live(arg) => if arg.Some? && IsShort(arg.value) && parse(arg.value).None? then live else arg
    case _ => live
  }

  /** Every live filter of the sequence is narrower than the one before where it has to be. */
  ghost predicate AllNarrowed(live: Option<string>, ops: seq<Op>, parse: Parser, value: LeafValue)
    decreases |ops|
  {
    ops == [] ||
    ((ops[0].Live? ==> Narrowed(live, ops[0].arg, parse, value)) && AllNarrowed(LiveAfter(live, ops[0], parse), ops[1..], parse, value))
  }

  /** lib_set_live_filter with the argument of a command. */
  method TypeLive(lib: Lib, arg: Commands.Argument)
    requires lib.Valid() && HasWord(lib)
    modifies lib`view, lib`live, lib`liveExpr
    ensures lib.live == LiveAfter(old(lib.live), Live(arg), lib.parse)
    ensures Narrowed(old(lib.live), arg, lib.parse, lib.value) ==> lib.Valid() && HasWord(lib)
  {
    if arg.Some? {
      FirstWord(arg.value);
    }
    ghost var expr, shown := lib.liveExpr, lib.Shown();
    ghost var refused, cleared, before := lib.Refused(arg), lib.Clears(arg), lib.live;
    lib.SetLiveFilter(arg);
    if !refused && !cleared && lib.liveExpr.Some? && Narrowed(before, arg, lib.parse, lib.value) {
      assert forall t :: t in lib.Wanted() && expr.Some? ==> EvalOn(expr.value, t.tags, lib.value);
      assert lib.Wanted() <= shown;
    }
  }

  /** Where the tree of a new live expression is an "or" or a negation, a comparison that may grow, or
      an "and" with such a comparison on the right, the view is right in every library, whatever the
      live filter was before. */
  method TypeCleared(lib: Lib, text: string, e: LiveExpr)
    requires lib.Valid() && lib.ExprOf(Some(text)) == Some(e) && Cleared(e)
    modifies lib`view, lib`live, lib`liveExpr
    ensures lib.Valid() && lib.live == Some(text) && lib.liveExpr == Some(e) && lib.Tracks() == old(lib.Tracks())
  {
    lib.SetLiveFilter(Some(text));
  }

  /** From one live expression to any other that contains its text, tracks are only taken out. The view
      is right exactly if the tracks that pass the other filter have none that the old expression had
      taken out. With LiveExprs.EveryLibrary: it is right in every library exactly if the new
      expression narrows. */
  method TypeHarmless(lib: Lib, text: string)
    requires lib.Valid() && lib.liveExpr.Some? && lib.ExprOf(Some(text)).Some?
    requires Some(text) != lib.live && !Cleared(lib.ExprOf(Some(text)).value) && HasPart(text, lib.live.value)
    modifies lib`view, lib`live, lib`liveExpr
    ensures lib.live == Some(text) && lib.liveExpr == lib.ExprOf(Some(text)) && lib.TagsOf() == old(lib.TagsOf())
    ensures forall t :: t in lib.view <==> t in old(lib.view) && lib.Passes(t)
    ensures lib.Valid() <==> NoneMissed(lib.TagsOf(), old(lib.liveExpr.value), lib.liveExpr.value, lib.value)
  {
    ghost var a, shown := lib.liveExpr.value, lib.Shown();
    lib.SetLiveFilter(Some(text));
    if NoneMissed(lib.TagsOf(), a, lib.liveExpr.value, lib.value) {
      forall t | t in lib.Wanted() ensures t in shown {
        assert t.tags in lib.TagsOf();
      }
    } else {
      ghost var tags :| tags in lib.TagsOf() && EvalOn(lib.liveExpr.value, tags, lib.value) && !EvalOn(a, tags, lib.value);
      ghost var t :| t in lib.Tracks() && t.tags == tags && (lib.filter.Some? ==> lib.filter.value(t.tags));
      assert t in lib.Wanted() && t !in shown;
    }
  }

  /** The live-filter command. */
  method LiveFilterCommand(lib: Lib, line: string) returns (ok: bool, cmd: string, arg: Commands.Argument)
    requires lib.Valid() && HasWord(lib)
    modifies lib`view, lib`live, lib`liveExpr
    ensures ok ==> (Narrowed(old(lib.live), arg, lib.parse, lib.value) ==> lib.Valid() && HasWord(lib))
    ensures ok ==> lib.live == LiveAfter(old(lib.live), Live(arg), lib.parse)
    ensures ok ==> Commands.Splits(line, cmd, if arg.Some? then arg.value else "")
    ensures !ok ==> lib.Valid() && HasWord(lib) && lib.live == old(lib.live) && lib.view == old(lib.view)
  {
    ok, cmd, arg := Commands.ParseCommand(line);
    if ok {
      TypeLive(lib, arg);
    }
  }

  /** After every sequence of operations, with live filters as commands deliver them, the table and the
      filters are what the operations make of them, and the view is what filtering the table afresh
      gives, provided that no live expression counts as harmless without being narrower. */
  method Perform(lib: Lib, ops: seq<Op>)
    requires lib.Valid() && HasWord(lib) && AllNarrowed(lib.live, ops, lib.parse, lib.value)
    modifies lib`view, lib`filter, lib`live, lib`liveExpr, lib.chains
    ensures lib.Valid()
    ensures StoreOf(lib) == AfterAll(old(StoreOf(lib)), ops, lib, lib.addFilter)
    ensures forall t :: t in lib.view <==> Visible(StoreOf(lib), t, lib)
  {
    ghost var rest := ops;
    for i := 0 to |ops|
      invariant lib.Valid() && HasWord(lib) && rest == ops[i..] && AllNarrowed(lib.live, rest, lib.parse, lib.value)
      invariant AfterAll(StoreOf(lib), rest, lib, lib.addFilter) == AfterAll(old(StoreOf(lib)), ops, lib, lib.addFilter)
    {
      assert rest[0] == ops[i];
      PerformOne(lib, ops[i]);
      rest := rest[1..];
    }
    assert rest == [];
    ViewShows(lib);
  }

  lemma ViewShows(lib: Lib)
    requires lib.Valid()
    ensures forall t :: t in lib.view <==> Visible(StoreOf(lib), t, lib)
  {
    forall t ensures t in lib.view <==> Visible(StoreOf(lib), t, lib) {
      assert t in lib.view <==> t in lib.Shown();
      assert t in lib.Wanted() <==> t in lib.Tracks() && lib.Passes(t);
    }
  }

  method PerformOne(lib: Lib, op: Op)
    requires lib.Valid() && HasWord(lib) && (op.Live? ==> Narrowed(lib.live, op.arg, lib.parse, lib.value))
    modifies lib`view, lib`filter, lib`live, lib`liveExpr, lib.chains
    ensures lib.Valid() && HasWord(lib) && StoreOf(lib) == After(old(StoreOf(lib)), op, lib, lib.addFilter)
    ensures lib.live == LiveAfter(old(lib.live), op, lib.parse)
  {
    match op
    case Add(t) => lib.AddTrack(t);
    case Drop(t) =>
      ViewShows(lib);
      var _ := lib.Remove(t);
    case Filtered(expr) => lib.SetFilter(expr);
    case Live(arg) => TypeLive(lib, arg);
  }

  /** The condition is exact: whenever a harmless expression `b` contains the text of `a` and some
      tags tell that it does not narrow `a`, a library with such a track loses it. */
  method HarmlessLosesTracks(t: Track, a: string, b: string, fold: Fold, hash: string -> nat, parse: Parser, value: LeafValue) returns (lib: Lib)
    requires IsShort(a) && IsShort(b) && parse(a).Some? && parse(b).Some? && a != b && HasPart(b, a) && !Cleared(parse(b).value)
    requires EvalOn(parse(b).value, t.tags, value) && !EvalOn(parse(a).value, t.tags, value)
    ensures fresh(lib) && lib.live == Some(b) && lib.Tracks() == {t} && lib.Passes(t) && lib.Shown() == {}
  {
    lib := new Lib(fold, hash, parse, value);
    lib.AddTrack(t);
    lib.SetLiveFilter(Some(a));
    lib.SetLiveFilter(Some(b));
    assert t in lib.Wanted();
  }

  /** Typing one more letter of a negated term: `~lx!~aa`, then `~lx!~aab`. The album has an x, the
      artist an a but no ab, so the track passes in the end; it stays hidden. */
  method NegatedTermLosesTracks(t: Track, fold: Fold, hash: string -> nat, parse: Parser, value: LeafValue) returns (lib: Lib)
    requires var album, a, ab := ExprParser.Str("album", "*x*", ExprParser.EQ), ExprParser.Str("artist", "*a*", ExprParser.EQ), ExprParser.Str("artist", "*ab*", ExprParser.EQ);
      var terms := Single(album);
      && parse("~lx!~aa") == Some(Excluding(terms, a)) && parse("~lx!~aab") == Some(Excluding(terms, ab))
      && value(album, t.tags) && value(a, t.tags) && !value(ab, t.tags)
    ensures fresh(lib) && lib.live == Some("~lx!~aab") && lib.Tracks() == {t} && lib.Passes(t) && lib.Shown() == {}
  {
    var terms := Single(ExprParser.Str("album", "*x*", ExprParser.EQ));
    Negated(terms, ExprParser.Str("artist", "*a*", ExprParser.EQ), t.tags, value);
    Negated(terms, ExprParser.Str("artist", "*ab*", ExprParser.EQ), t.tags, value);
    assert PartAt("~lx!~aab", 0, "~lx!~aa");
    assert "~lx!~aa"[0] == '~' && "~lx!~aab"[0] == '~';
    lib := HarmlessLosesTracks(t, "~lx!~aa", "~lx!~aab", fold, hash, parse, value);
  }

  /* A text without a word. No command delivers one, but the resume file can. */

  lemma BlankHasNoWord(w: string)
    ensures !WordIn(w, " ")
  {
    forall s, e ensures !IsWord(" ", s, e) {
      assert 0 <= s < 1 ==> " "[s] == ' ';
    }
  }

  lemma WordsOfTwo(w: string)
    requires WordIn(w, "a b")
    ensures w == "a" || w == "b"
  {
    var text := "a b";
    var s, e :| IsWord(text, s, e) && s < |text| && w == text[s..e];
    assert IsWord(text, 0, 1) && IsWord(text, 2, 3) && text[1] == ' ' && text[s] != ' ';
    if s == 0 {
      OneWord(text, 0, 1, s, e);
    } else {
      OneWord(text, 2, 3, s, e);
    }
  }

  lemma TwoLetters(t: Track, fold: Fold)
    requires t.tags.texts == ["a b"]
    ensures TextMatches(t, "a b", fold) && !Narrowing(Some(" "), Some("a b"))
  {
    var text := "a b";
    assert IsWord(text, 0, 1) && WordIn(text[0..1], text);
    forall w | WordIn(w, text) ensures WordMatches(t, w, fold) {
      WordsOfTwo(w);
      assert EqualAt(t.tags.texts[0], if w == "a" then 0 else 2, w, fold);
      assert Contains(t.tags.texts[0], w, fold);
    }
    assert PartAt(text, 1, " ");
    forall w ensures !WordIn(w, " ") {
      BlankHasNoWord(w);
    }
  }

  lemma ResumeArgument()
    ensures Commands.Splits("live-filter \\ ", "live-filter", "\\ ") && Commands.Unescaped("\\ ", false) == " "
  {
    assert "\\ "[1..] == " " && " "[1..] == "";
    assert Commands.Unescaped(" ", true) == [' '] + Commands.Unescaped("", false);
    var line := "live-filter \\ ";
    assert line[11] == ' ' && line[0..11] == "live-filter" && line[12..] == "\\ ";
    Commands.SplitParts(line, 0, 11, 12);
  }

  /** A resume file with the line `live-filter \ ` hides every track. The live filter `a b`, typed
      afterwards, contains that blank, so nothing is added back, not even the track it matches. */
  method ResumedBlankLosesTracks(t: Track, fold: Fold, hash: string -> nat, parse: Parser, value: LeafValue) returns (lib: Lib, arg: string)
    requires t.tags.texts == ["a b"]
    ensures Commands.Splits("live-filter \\ ", "live-filter", "\\ ") && arg == Commands.Unescaped("\\ ", false) == " "
    ensures fresh(lib) && lib.live == Some("a b") && lib.Tracks() == {t} && lib.Passes(t) && lib.Shown() == {}
  {
    ResumeArgument();
    arg := Commands.Unescape("\\ ");
    lib := new Lib(fold, hash, parse, value);
    lib.AddTrack(t);
    lib.SetLiveFilter(Some(arg));
    TypeTwoLetters(lib, t);
  }

  method TypeTwoLetters(lib: Lib, t: Track)
    requires lib.Valid() && lib.Tracks() == {t} && t.tags.texts == ["a b"] && lib.live == Some(" ") && lib.filter.None?
    modifies lib`view, lib`live, lib`liveExpr
    ensures lib.live == Some("a b") && lib.Passes(t) && lib.Shown() == {}
  {
    lib.SetLiveFilter(Some("a b"));
    TwoLetters(t, lib.fold);
    assert lib.Wanted() == {t};
  }
}
