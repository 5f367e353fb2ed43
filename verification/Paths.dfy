/** Path normalization of app/path.c, which rewrites a terminated string in place. */
module Paths {
  import opened Common

  /** Where a path has led so far: directories below a root. The root of an absolute path is "/". That
      of a relative one is its first component with the slash behind it, which is never looked at. */
  datatype Place = Place(root: string, dirs: seq<string>)

  /* The reference: a path is resolved component by component. */

  /** A character in front of a list of components. */
  function Put(c: char, comps: seq<string>): (r: seq<string>)
    requires comps != []
    ensures r != []
  {
    if c == '/' then [[]] + comps else [[c] + comps[0]] + comps[1..]
  }

  /** The components between the slashes. */
  function Split(s: string): (r: seq<string>)
    ensures r != []
  {
    if s == [] then [[]] else Put(s[0], Split(s[1..]))
  }

  /** "..": out of the last directory. In the root of a relative path all but its first character is
      dropped, and what follows is joined to that character. */
  function Up(p: Place): Place {
    if p.dirs != [] then p.(dirs := p.dirs[..|p.dirs| - 1])
    else if |p.root| > 1 then p.(root := p.root[..1])
    else p
  }

  function Enter(p: Place, c: string): Place {
    if c == "" || c == "." then p
    else if c == ".." then Up(p)
    else p.(dirs := p.dirs + [c])
  }

  function Walk(p: Place, comps: seq<string>): Place
    decreases |comps|
  {
    if comps == [] then p else Walk(Enter(p, comps[0]), comps[1..])
  }

  /** The text of a place, with a slash behind each directory. */
  function Flat(p: Place): string
    decreases |p.dirs|
  {
    if p.dirs == [] then p.root else Flat(p.(dirs := p.dirs[..|p.dirs| - 1])) + (p.dirs[|p.dirs| - 1] + "/")
  }

  /** Without the slash at the end, unless that is all there is. */
  function Trim(s: string): string {
    if |s| > 1 && s[|s| - 1] == '/' then s[..|s| - 1] else s
  }

  function Show(p: Place): string {
    Trim(Flat(p))
  }

  /** The position of the first slash, or the end. */
  function FirstSlash(s: string): (r: nat)
    ensures r <= |s| && '/' !in s[..r] && (r < |s| ==> s[r] == '/')
  {
    if s == [] || s[0] == '/' then 0
    else
      assert s[..FirstSlash(s[1..]) + 1] == [s[0]] + s[1..][..FirstSlash(s[1..])];
      FirstSlash(s[1..]) + 1
  }

  /** How much of a path is its root. */
  function RootEnd(path: string): (r: nat)
    ensures r <= |path| && (path != [] ==> r > 0)
  {
    if path == [] then 0
    else if FirstSlash(path) < |path| then FirstSlash(path) + 1
    else |path|
  }

  /** Where a path leads. */
  function Resolved(path: string): Place {
    var r := RootEnd(path);
    Walk(Place(path[..r], []), Split(path[r..]))
  }

  /** The normal form of a path. */
  function Normal(path: string): string {
    Show(Resolved(path))
  }

  predicate Plain(c: string) {
    c != [] && '/' !in c && '\0' !in c && c != "." && c != ".."
  }

  predicate Clean(dirs: seq<string>) {
    forall i :: 0 <= i < |dirs| ==> Plain(dirs[i])
  }

  /** A root has a slash at most at its end, and one there unless it is a single character. */
  predicate RootOk(root: string) {
    root != [] && '/' !in root[..|root| - 1] && (|root| > 1 ==> root[|root| - 1] == '/')
  }

  predicate PlaceOk(p: Place) {
    RootOk(p.root) && Clean(p.dirs)
  }

  lemma {:induction false} SplitJoined(a: string, b: string)
    ensures Split(a + "/" + b) == Split(a) + Split(b)
  {
    if a == [] {
      assert a + "/" + b == "/" + b;
      assert ("/" + b)[1..] == b;
    } else {
      SplitJoined(a[1..], b);
      assert (a + "/" + b)[0] == a[0] && (a + "/" + b)[1..] == a[1..] + "/" + b;
      PutConcat(a[0], Split(a[1..]), Split(b));
    }
  }

  lemma PutConcat(c: char, x: seq<string>, y: seq<string>)
    requires x != []
    ensures Put(c, x + y) == Put(c, x) + y
  {
    assert (x + y)[0] == x[0] && (x + y)[1..] == x[1..] + y;
  }

  lemma {:induction false} SplitOne(c: string)
    requires '/' !in c
    ensures Split(c) == [c]
  {
    if c != [] {
      SplitOne(c[1..]);
      assert [c[0]] + c[1..] == c;
    }
  }

  lemma {:induction false} WalkBoth(p: Place, a: seq<string>, b: seq<string>)
    ensures Walk(p, a + b) == Walk(Walk(p, a), b)
    decreases |a|
  {
    if a == [] {
      assert a + b == b;
    } else {
      WalkBoth(Enter(p, a[0]), a[1..], b);
      assert (a + b)[1..] == a[1..] + b;
    }
  }

  /** One component in front of the rest. */
  lemma WalkStep(p: Place, c: string, rest: string)
    requires '/' !in c
    ensures Walk(p, Split(c + "/" + rest)) == Walk(Enter(p, c), Split(rest))
    ensures Walk(p, Split(c)) == Enter(p, c)
  {
    SplitJoined(c, rest);
    SplitOne(c);
    WalkBoth(p, [c], Split(rest));
    assert Walk(p, [c]) == Walk(Enter(p, c), []);
  }

  /* Resolving the normal form again changes nothing, and it is never longer. */

  lemma {:induction false} WalkClean(p: Place, more: seq<string>)
    requires Clean(more)
    ensures Walk(p, more) == p.(dirs := p.dirs + more)
    decreases |more|
  {
    if more == [] {
      assert p.dirs + more == p.dirs;
    } else {
      var q := p.(dirs := p.dirs + [more[0]]);
      WalkClean(q, more[1..]);
      assert q.dirs + more[1..] == p.dirs + more;
    }
  }

  /** The components with slashes between them. */
  function Join(dirs: seq<string>): string
    requires dirs != []
    decreases |dirs|
  {
    if |dirs| == 1 then dirs[0] else Join(dirs[..|dirs| - 1]) + "/" + dirs[|dirs| - 1]
  }

  lemma {:induction false} FlatJoin(p: Place)
    requires p.dirs != []
    ensures Flat(p) == p.root + Join(p.dirs) + "/"
    decreases |p.dirs|
  {
    var k := |p.dirs| - 1;
    if k > 0 {
      FlatJoin(p.(dirs := p.dirs[..k]));
    } else {
      assert Flat(p.(dirs := p.dirs[..0])) == p.root;
    }
  }

  lemma {:induction false} SplitJoin(dirs: seq<string>)
    requires Clean(dirs) && dirs != []
    ensures Split(Join(dirs)) == dirs && Join(dirs) != [] && Join(dirs)[0] != '/' && Join(dirs)[|Join(dirs)| - 1] != '/'
    decreases |dirs|
  {
    var k := |dirs| - 1;
    assert dirs[k][0] in dirs[k] && dirs[k][|dirs[k]| - 1] in dirs[k];
    SplitOne(dirs[k]);
    if k > 0 {
      SplitJoin(dirs[..k]);
      SplitJoined(Join(dirs[..k]), dirs[k]);
      assert dirs == dirs[..k] + [dirs[k]];
    } else {
      assert dirs == [dirs[0]];
    }
  }

  lemma {:induction false} SplitPlain(s: string, i: nat)
    requires '\0' !in s && i < |Split(s)|
    ensures '/' !in Split(s)[i] && '\0' !in Split(s)[i]
    decreases |s|
  {
    if s != [] {
      if s[0] == '/' {
        if i > 0 {
          SplitPlain(s[1..], i - 1);
        }
      } else {
        SplitPlain(s[1..], i);
      }
    }
  }

  lemma EnterOk(p: Place, c: string)
    requires PlaceOk(p) && '/' !in c && '\0' !in c
    ensures PlaceOk(Enter(p, c))
  {
    if c == ".." && p.dirs == [] && |p.root| > 1 {
      assert p.root[..1][..0] == [];
    }
  }

  lemma {:induction false} WalkStaysOk(p: Place, comps: seq<string>)
    requires PlaceOk(p) && forall i :: 0 <= i < |comps| ==> '/' !in comps[i] && '\0' !in comps[i]
    ensures PlaceOk(Walk(p, comps))
    decreases |comps|
  {
    if comps != [] {
      EnterOk(p, comps[0]);
      WalkStaysOk(Enter(p, comps[0]), comps[1..]);
    }
  }

  /** A path with a slash leads to a proper place; one without is its own root. */
  lemma ResolvedOk(path: string)
    requires path != [] && '\0' !in path
    ensures '/' in path ==> PlaceOk(Resolved(path))
    ensures '/' !in path ==> Resolved(path) == Place(path, [])
  {
    var e := RootEnd(path);
    if FirstSlash(path) < |path| {
      assert path[..e][..e - 1] == path[..FirstSlash(path)];
      forall i | 0 <= i < |Split(path[e..])| ensures '/' !in Split(path[e..])[i] && '\0' !in Split(path[e..])[i] {
        SplitPlain(path[e..], i);
      }
      WalkStaysOk(Place(path[..e], []), Split(path[e..]));
    } else {
      assert path[..FirstSlash(path)] == path && path[e..] == [];
      WalkStep(Place(path[..e], []), "", "");
    }
  }

  /** The text of a proper place leads there again, or to another one with the same text: a root of a
      single character other than the slash becomes part of the first component. */
  lemma ShowAgain(p: Place)
    requires PlaceOk(p)
    ensures Show(p) != [] && Normal(Show(p)) == Show(p)
  {
    var s := Show(p);
    if p.dirs == [] {
      if p.root == "/" {
        assert RootEnd(s) == 1 && s[..1] == "/" && s[1..] == "";
        WalkStep(p, "", "");
      } else {
        NoSlash(s);
      }
    } else {
      FlatJoin(p);
      SplitJoin(p.dirs);
      assert s == p.root + Join(p.dirs);
      if p.root[|p.root| - 1] == '/' {
        RootThere(p, s);
      } else {
        FirstJoins(p, s);
      }
    }
  }

  lemma NoSlash(s: string)
    requires '/' !in s
    ensures Normal(s) == s
  {
    assert s[..RootEnd(s)] == s && s[RootEnd(s)..] == [];
    WalkStep(Place(s, []), "", "");
  }

  lemma {:induction false} FirstSlashAt(s: string, k: nat)
    requires k < |s| && s[k] == '/' && '/' !in s[..k]
    ensures FirstSlash(s) == k
  {
    if k > 0 {
      assert s[0] in s[..k];
      assert s[1..][..k - 1] == s[..k][1..];
      FirstSlashAt(s[1..], k - 1);
    }
  }

  lemma RootThere(p: Place, s: string)
    requires PlaceOk(p) && p.dirs != [] && p.root[|p.root| - 1] == '/' && s == p.root + Join(p.dirs)
    ensures Resolved(s) == p
  {
    var k := |p.root| - 1;
    assert s[..k] == p.root[..k] && s[k] == '/';
    FirstSlashAt(s, k);
    assert s[..k + 1] == p.root && s[k + 1..] == Join(p.dirs);
    SplitJoin(p.dirs);
    WalkClean(Place(p.root, []), p.dirs);
    assert [] + p.dirs == p.dirs;
  }

  lemma FirstJoins(p: Place, s: string)
    requires PlaceOk(p) && p.dirs != [] && |p.root| == 1 && p.root != "/" && s == p.root + Join(p.dirs) && s == Show(p)
    ensures Normal(s) == s
  {
    var c := p.root[0];
    if |p.dirs| == 1 {
      assert '/' !in s;
      NoSlash(s);
    } else {
      var first, rest := p.dirs[0], p.dirs[1..];
      JoinFirst(p.dirs);
      var q := Place([c] + first + "/", rest);
      assert s == q.root + Join(rest);
      assert q.root[..|q.root| - 1] == [c] + first;
      RootThere(q, s);
      FlatJoin(q);
    }
  }

  lemma {:induction false} JoinFirst(dirs: seq<string>)
    requires |dirs| > 1
    ensures Join(dirs) == dirs[0] + "/" + Join(dirs[1..])
    decreases |dirs|
  {
    var k, rest := |dirs| - 1, dirs[1..];
    assert rest[..k - 1] == dirs[..k][1..] && rest[k - 1] == dirs[k];
    if k > 1 {
      JoinFirst(dirs[..k]);
      Assoc(dirs[0] + "/", Join(rest[..k - 1]), "/" + dirs[k]);
      assert Join(dirs) == Join(dirs[..k]) + ("/" + dirs[k]);
      assert Join(rest) == Join(rest[..k - 1]) + ("/" + dirs[k]);
    }
  }

  /** Normalizing is idempotent. */
  lemma Idempotent(path: string)
    requires '\0' !in path
    ensures Normal(Normal(path)) == Normal(path)
  {
    if '/' in path {
      ResolvedOk(path);
      ShowAgain(Resolved(path));
    } else {
      NoSlash(path);
    }
  }

  /** An absolute path stays absolute and is resolved from the root. */
  lemma AbsoluteFromRoot(path: string, rest: string)
    requires path == "/" + rest
    ensures Resolved(path) == Walk(Place("/", []), Split(rest))
  {
    assert RootEnd(path) == 1 && path[..1] == "/" && path[1..] == rest;
  }

  /** In an absolute path the root stays what it is. */
  lemma {:induction false} RootStays(p: Place, comps: seq<string>)
    requires |p.root| == 1
    ensures Walk(p, comps).root == p.root
    decreases |comps|
  {
    if comps != [] {
      RootStays(Enter(p, comps[0]), comps[1..]);
    }
  }

  /** ".." takes back the directory in front of it. */
  lemma UpTakesBack(p: Place, c: string)
    requires Plain(c)
    ensures Enter(Enter(p, c), "..") == p
  {
    assert (p.dirs + [c])[..|p.dirs|] == p.dirs;
  }

  /** It does not take back the first component of a relative path: the first character stays, and
      what follows is joined to it. */
  lemma UpSpoilsRelative(first: string, rest: string)
    requires first != [] && '/' !in first
    ensures Normal(first + "/" + (".." + "/" + rest)) == Show(Walk(Place(first[..1], []), Split(rest)))
  {
    var path, start := first + "/" + (".." + "/" + rest), Place(first + "/", []);
    assert path[..|first|] == first;
    FirstSlashAt(path, |first|);
    assert path[..|first| + 1] == first + "/" && path[|first| + 1..] == ".." + "/" + rest;
    WalkStep(start, "..", rest);
    assert (first + "/")[..1] == first[..1];
  }

  /** So "first/../name" becomes a name that begins with the letter that is left. */
  lemma SpoiledName(first: string, name: string)
    requires first != [] && '/' !in first && Plain(name)
    ensures Normal(first + "/" + (".." + "/" + name)) == first[..1] + name
  {
    UpSpoilsRelative(first, name);
    var p := Place(first[..1], [name]);
    WalkStep(Place(first[..1], []), name, "");
    assert [] + [name] == [name];
    FlatJoin(p);
    assert Flat(p) == first[..1] + name + "/";
  }

  /** A relative path goes on from where its directory leads. */
  lemma RelativeTo(cwd: string, src: string)
    requires cwd != [] && cwd[0] == '/'
    ensures Normal(cwd + "/" + src) == Show(Walk(Resolved(cwd), Split(src)))
  {
    var a := cwd[1..];
    assert cwd == "/" + a && cwd + "/" + src == "/" + (a + "/" + src);
    AbsoluteFromRoot(cwd, a);
    AbsoluteFromRoot(cwd + "/" + src, a + "/" + src);
    WalkOn(Place("/", []), a, src);
  }

  lemma WalkOn(p: Place, a: string, b: string)
    ensures Walk(p, Split(a + "/" + b)) == Walk(Walk(p, Split(a)), Split(b))
  {
    SplitJoined(a, b);
    WalkBoth(p, Split(a), Split(b));
  }

  /* The string in memory. */

  /** The buffer holds `text` with its terminator. */
  ghost predicate Holds(s: seq<char>, text: string) {
    |text| < |s| && s[..|text|] == text && s[|text|] == '\0' && '\0' !in text
  }

  lemma HoldsAt(s: seq<char>, text: string)
    requires Holds(s, text)
    ensures forall i :: 0 <= i < |text| ==> s[i] == text[i] && s[i] != '\0'
  {
    forall i | 0 <= i < |text| ensures s[i] == text[i] && s[i] != '\0' {
      assert s[..|text|][i] == text[i];
      assert text[i] in text;
    }
  }

  /** The copying loops: moves the end of the string from `s0` down to `d0`. */
  method MoveDown(str: array<char>, d0: nat, s0: nat, ghost text: string)
    requires Holds(str[..], text) && d0 <= s0 <= |text|
    modifies str
    ensures Holds(str[..], text[..d0] + text[s0..])
    ensures forall k :: |text| < k < str.Length ==> str[k] == old(str[k])
  {
    HoldsAt(str[..], text);
    var d, s := d0, s0;
    while str[s] != '\0'
      invariant s0 <= s <= |text| && d == d0 + (s - s0)
      invariant forall k :: 0 <= k < d0 ==> str[k] == text[k]
      invariant forall k :: d0 <= k < d ==> str[k] == text[k + (s0 - d0)]
      invariant forall k :: s <= k < str.Length ==> str[k] == old(str[k])
      decreases |text| - s
    {
      str[d] := str[s];
      d, s := d + 1, s + 1;
    }
    assert s == |text|;
    str[d] := '\0';
    assert text[..d0] + text[s0..] == str[..d];
  }

  /** What holds whenever the outer loop looks at position `i`: the stack is in front of it and
      the rest of the string is still to be walked. */
  ghost predicate Inv(s: seq<char>, cur: string, i: int, st: Place, text: string) {
    Holds(s, cur) && Mid(cur, i, st, text)
  }

  ghost predicate Mid(cur: string, i: int, st: Place, text: string) {
    && 1 <= i <= |cur| <= |text| && (i < |cur| ==> PlaceOk(st))
    && (cur[..i] == Flat(st) || (i == |cur| && cur[i - 1] != '/' && cur + "/" == Flat(st)))
    && Walk(st, Split(cur[i..])) == Resolved(text)
  }

  /** Cutting out what does not change where the walk leads. */
  lemma CutMid(cur: string, cur': string, d: nat, s: nat, st: Place, text: string)
    requires 1 <= d <= s <= |cur| <= |text| && cur' == cur[..d] + cur[s..] && PlaceOk(st) && cur[..d] == Flat(st)
    requires Walk(st, Split(cur[s..])) == Resolved(text)
    ensures Mid(cur', d, st, text) && |cur'| == |cur| - (s - d)
  {
    assert cur'[..d] == cur[..d] && cur'[d..] == cur[s..];
  }

  method SkipSlashes(str: array<char>, i: nat, ghost cur: string, ghost st: Place, ghost text: string) returns (ghost cur': string)
    requires Inv(str[..], cur, i, st, text) && i < |cur| && cur[i] == '/'
    modifies str
    ensures Inv(str[..], cur', i, st, text) && |cur'| < |cur|
    ensures forall k :: |cur| < k < str.Length ==> str[k] == old(str[k])
  {
    var s := EndOfSlashes(str, i, cur, st);
    cur' := cur[..i] + cur[s..];
    CutMid(cur, cur', i, s, st, text);
    MoveDown(str, i, s, cur);
  }

  method EndOfSlashes(str: array<char>, i: nat, ghost cur: string, ghost st: Place) returns (s: nat)
    requires Holds(str[..], cur) && i < |cur| && cur[i] == '/'
    ensures i < s <= |cur| && Walk(st, Split(cur[s..])) == Walk(st, Split(cur[i..]))
  {
    HoldsAt(str[..], cur);
    s := i + 1;
    EmptyFirst(st, cur, i);
    while str[s] == '/'
      invariant i < s <= |cur|
      invariant Walk(st, Split(cur[s..])) == Walk(st, Split(cur[i..]))
      decreases |cur| - s
    {
      EmptyFirst(st, cur, s);
      s := s + 1;
    }
  }

  lemma EmptyFirst(st: Place, cur: string, s: nat)
    requires s < |cur| && cur[s] == '/'
    ensures Walk(st, Split(cur[s + 1..])) == Walk(st, Split(cur[s..]))
  {
    WalkStep(st, "", cur[s + 1..]);
    assert "" + "/" + cur[s + 1..] == cur[s..];
  }

  /** A component and the slash behind it. */
  lemma FirstPart(st: Place, cur: string, i: nat, e: nat)
    requires i <= e < |cur| && cur[e] == '/' && '/' !in cur[i..e]
    ensures Walk(st, Split(cur[i..])) == Walk(Enter(st, cur[i..e]), Split(cur[e + 1..]))
  {
    WalkStep(st, cur[i..e], cur[e + 1..]);
    AroundSlash(cur, i, e);
  }

  lemma AroundSlash(cur: string, i: nat, e: nat)
    requires i <= e < |cur| && cur[e] == '/'
    ensures cur[i..e] + "/" + cur[e + 1..] == cur[i..]
  {
  }

  lemma DotStep(st: Place, cur: string, i: nat, s: nat)
    requires s == i + 2 <= |cur| && cur[i] == '.' && cur[i + 1] == '/'
    ensures Walk(st, Split(cur[i..])) == Walk(st, Split(cur[s..]))
  {
    assert cur[i..i + 1] == ".";
    FirstPart(st, cur, i, i + 1);
  }

  lemma DotCut(cur: string, cur': string, i: nat, s: nat, st: Place, text: string)
    requires 1 <= i < s == i + 2 <= |cur| <= |text| && cur[i] == '.' && cur[i + 1] == '/' && cur' == cur[..i] + cur[s..] && PlaceOk(st)
    requires cur[..i] == Flat(st) && Walk(st, Split(cur[i..])) == Resolved(text)
    ensures Mid(cur', i, st, text) && |cur'| < |cur|
  {
    DotStep(st, cur, i, s);
    CutMid(cur, cur', i, s, st, text);
  }

  lemma DotMid(cur: string, cur': string, i: nat, st: Place, text: string)
    requires Mid(cur, i, st, text) && i + 1 < |cur| && cur[i] == '.' && cur[i + 1] == '/' && cur' == cur[..i] + cur[i + 2..]
    ensures Mid(cur', i, st, text) && |cur'| < |cur|
  {
    assert cur[..i] == Flat(st);
    DotCut(cur, cur', i, i + 2, st, text);
  }

  /** "./" at position `i`. */
  method DropDot(str: array<char>, i: nat, ghost cur: string, ghost st: Place, ghost text: string) returns (ghost cur': string)
    requires Inv(str[..], cur, i, st, text) && i + 1 < |cur| && cur[i] == '.' && cur[i + 1] == '/'
    modifies str
    ensures Inv(str[..], cur', i, st, text) && |cur'| < |cur|
    ensures forall k :: |cur| < k < str.Length ==> str[k] == old(str[k])
  {
    cur' := cur[..i] + cur[i + 2..];
    DotMid(cur, cur', i, st, text);
    MoveDown(str, i, i + 2, cur);
  }

  /** "." at the end. */
  method EndDot(str: array<char>, i: nat, ghost cur: string, ghost st: Place, ghost text: string) returns (ghost cur': string)
    requires Inv(str[..], cur, i, st, text) && i + 1 == |cur| && cur[i] == '.'
    modifies str
    ensures Inv(str[..], cur', i, st, text) && |cur'| == i
    ensures forall k :: |cur| < k < str.Length ==> str[k] == old(str[k])
  {
    HoldsAt(str[..], cur);
    assert cur[i..] == ".";
    WalkStep(st, ".", "");
    WalkStep(st, "", "");
    cur' := cur[..i];
    assert cur'[i..] == "" && cur'[..i] == cur';
    str[i] := '\0';
    assert str[..][..i] == cur';
  }

  /** ".." at position `i`: goes back over the last component in front of it. */
  method GoUp(str: array<char>, i: nat, ghost cur: string, ghost st: Place, ghost text: string)
    returns (i': nat, ghost cur': string, ghost st': Place)
    requires Inv(str[..], cur, i, st, text) && i + 1 < |cur| && cur[i] == '.' && cur[i + 1] == '.'
    requires i + 2 == |cur| || cur[i + 2] == '/'
    modifies str
    ensures Inv(str[..], cur', i', st', text) && |cur'| - i' < |cur| - i && |cur'| < |cur|
    ensures forall k :: |cur| < k < str.Length ==> str[k] == old(str[k])
  {
    HoldsAt(str[..], cur);
    st' := Enter(st, "..");
    var s := if str[i + 2] != '\0' then i + 3 else i + 2;
    UpStep(st, cur, i, s);
    var d := LastStart(str, i, cur, st);
    i' := d;
    cur' := cur[..d] + cur[s..];
    EnterOk(st, "..");
    CutMid(cur, cur', d, s, st', text);
    MoveDown(str, d, s, cur);
  }

  lemma UpStep(st: Place, cur: string, i: nat, s: nat)
    requires i + 1 < |cur| && cur[i] == '.' && cur[i + 1] == '.'
    requires if i + 2 == |cur| then s == i + 2 else cur[i + 2] == '/' && s == i + 3
    ensures Walk(st, Split(cur[i..])) == Walk(Enter(st, ".."), Split(cur[s..]))
  {
    if s == i + 3 {
      assert cur[i..i + 2] == "..";
      FirstPart(st, cur, i, i + 2);
    } else {
      assert cur[i..] == ".." && cur[s..] == "";
      WalkStep(st, "..", "");
      WalkStep(Enter(st, ".."), "", "");
    }
  }

  /** The text of a place in which ".." ends: what lies behind it has no slash but the last character. */
  lemma UpText(p: Place)
    requires PlaceOk(p)
    ensures var k, n := |Flat(Up(p))|, |Flat(p)|;
      && 1 <= k <= n && Flat(Up(p)) == Flat(p)[..k] && (k > 1 ==> Flat(p)[k - 1] == '/') && (k == n ==> n == 1)
      && forall j :: k <= j < n - 1 ==> Flat(p)[j] != '/'
  {
    var f := Flat(p);
    if p.dirs != [] {
      var up, c := Up(p), p.dirs[|p.dirs| - 1];
      FlatEnds(up);
      assert f == Flat(up) + (c + "/");
      forall j | |Flat(up)| <= j < |f| - 1 ensures f[j] != '/' {
        assert f[j] == c[j - |Flat(up)|] && c[j - |Flat(up)|] in c;
      }
    } else if |p.root| > 1 {
      assert Flat(Up(p)) == p.root[..1];
      forall j | 1 <= j < |f| - 1 ensures f[j] != '/' {
        assert f[j] == p.root[..|p.root| - 1][j];
      }
    }
  }

  lemma FlatEnds(p: Place)
    requires PlaceOk(p)
    ensures Flat(p) != [] && (|Flat(p)| > 1 ==> Flat(p)[|Flat(p)| - 1] == '/')
  {
  }

  /** The loop that looks for the slash in front of the last component. */
  method LastStart(str: array<char>, i: nat, ghost cur: string, ghost st: Place) returns (d: nat)
    requires Holds(str[..], cur) && 1 <= i <= |cur| && PlaceOk(st) && cur[..i] == Flat(st)
    ensures 1 <= d <= i && cur[..d] == Flat(Enter(st, ".."))
  {
    HoldsAt(str[..], cur);
    UpText(st);
    ghost var k := |Flat(Up(st))|;
    assert forall j :: 0 <= j < i ==> cur[j] == Flat(st)[j];
    d := i - 1;
    while d != 0
      invariant k - 1 <= d < i && (d == k - 1 ==> d == 0)
    {
      d := d - 1;
      if str[d] == '/' {
        break;
      }
    }
    d := d + 1;
    assert cur[..d] == cur[..i][..d];
  }

  /** Any other component. */
  method Pass(str: array<char>, i: nat, ghost cur: string, ghost st: Place, ghost text: string)
    returns (i': nat, ghost st': Place)
    requires Inv(str[..], cur, i, st, text) && i < |cur| && cur[i] != '/'
    requires cur[i] == '.' ==> i + 1 < |cur| && cur[i + 1] != '/' && !(cur[i + 1] == '.' && (i + 2 == |cur| || cur[i + 2] == '/'))
    ensures Inv(str[..], cur, i', st', text) && i < i'
  {
    HoldsAt(str[..], cur);
    i' := i;
    while str[i'] != '\0' && str[i'] != '/'
      invariant i <= i' <= |cur| && '/' !in cur[i..i']
      decreases |cur| - i'
    {
      assert cur[i..i' + 1] == cur[i..i'] + [cur[i']];
      i' := i' + 1;
    }
    ghost var e := i';
    if str[i'] != '\0' {
      i' := i' + 1;
    }
    NotDots(cur, i, e);
    st' := st.(dirs := st.dirs + [cur[i..e]]);
    PassStep(st, st', cur, i, e, i', text);
  }

  lemma NotDots(cur: string, i: nat, e: nat)
    requires i < e <= |cur| && (e == |cur| || cur[e] == '/')
    requires cur[i] == '.' ==> i + 1 < |cur| && cur[i + 1] != '/' && !(cur[i + 1] == '.' && (i + 2 == |cur| || cur[i + 2] == '/'))
    ensures cur[i..e] != "." && cur[i..e] != ".."
  {
    var c := cur[i..e];
    assert c[0] == cur[i] && (|c| > 1 ==> c[1] == cur[i + 1]);
  }

  lemma PassStep(st: Place, st': Place, cur: string, i: nat, e: nat, n: nat, text: string)
    requires Mid(cur, i, st, text) && i < e <= |cur| && '/' !in cur[i..e] && '\0' !in cur && (e == |cur| || cur[e] == '/')
    requires cur[i..e] != "." && cur[i..e] != ".." && st' == st.(dirs := st.dirs + [cur[i..e]]) && n == (if e == |cur| then e else e + 1)
    ensures Mid(cur, n, st', text)
  {
    JoinPart(st, st', cur, i, e);
    CleanMore(st, st', cur, i, e);
    if e < |cur| {
      InnerPart(st, st', cur, i, e, n);
    } else {
      LastPart(st, st', cur, i, e);
    }
  }

  lemma InnerPart(st: Place, st': Place, cur: string, i: nat, e: nat, n: nat)
    requires i < e < |cur| && cur[e] == '/' && n == e + 1 && Plain(cur[i..e]) && st' == st.(dirs := st.dirs + [cur[i..e]])
    ensures Walk(st, Split(cur[i..])) == Walk(st', Split(cur[n..])) && cur[..n] == cur[..e] + "/"
  {
    FirstPart(st, cur, i, e);
    assert Enter(st, cur[i..e]) == st';
  }

  lemma CleanMore(st: Place, st': Place, cur: string, i: nat, e: nat)
    requires PlaceOk(st) && i < e <= |cur| && '/' !in cur[i..e] && '\0' !in cur && cur[i..e] != "." && cur[i..e] != ".." && st' == st.(dirs := st.dirs + [cur[i..e]])
    ensures Plain(cur[i..e]) && PlaceOk(st')
  {
  }

  lemma JoinPart(st: Place, st': Place, cur: string, i: nat, e: nat)
    requires i <= e <= |cur| && cur[..i] == Flat(st) && st' == st.(dirs := st.dirs + [cur[i..e]])
    ensures Flat(st') == cur[..e] + "/"
  {
    assert st'.dirs[..|st.dirs|] == st.dirs;
    assert st'.(dirs := st.dirs) == st;
    assert cur[..e] == cur[..i] + cur[i..e];
  }

  lemma LastPart(st: Place, st': Place, cur: string, i: nat, e: nat)
    requires i < e == |cur| && Plain(cur[i..e]) && st' == st.(dirs := st.dirs + [cur[i..e]])
    ensures Walk(st, Split(cur[i..])) == Walk(st', Split(cur[e..])) && cur[..e] == cur
  {
    assert cur[i..e] == cur[i..];
    WalkStep(st, cur[i..], "");
    WalkStep(st', "", "");
    assert cur[e..] == "";
  }

  /** One round of the outer loop. (The early exit behind a final "." leaves `i` at the end.) */
  method Round(str: array<char>, i: nat, ghost cur: string, ghost st: Place, ghost text: string)
    returns (i': nat, ghost cur': string, ghost st': Place)
    requires Inv(str[..], cur, i, st, text) && i < |cur|
    modifies str
    ensures Inv(str[..], cur', i', st', text) && |cur'| - i' < |cur| - i
    ensures forall k :: |text| < k < str.Length ==> str[k] == old(str[k])
  {
    HoldsAt(str[..], cur);
    i', cur', st' := i, cur, st;
    if str[i] == '/' {
      cur' := SkipSlashes(str, i, cur, st, text);
    } else if str[i] == '.' && str[i + 1] == '/' {
      cur' := DropDot(str, i, cur, st, text);
    } else if str[i] == '.' && str[i + 1] == '\0' {
      cur' := EndDot(str, i, cur, st, text);
    } else if str[i] == '.' && str[i + 1] == '.' && (str[i + 2] == '/' || str[i + 2] == '\0') {
      i', cur', st' := GoUp(str, i, cur, st, text);
    } else {
      i', st' := Pass(str, i, cur, st, text);
    }
  }

  lemma AtEnd(s: seq<char>, cur: string, i: int, st: Place, text: string)
    requires Inv(s, cur, i, st, text) && s[i] == '\0'
    ensures i == |cur| && Normal(text) == if i > 1 && s[i - 1] == '/' then s[..i - 1] else s[..i]
  {
    HoldsAt(s, cur);
    assert cur[i..] == "" && cur[..i] == cur == s[..i];
    WalkStep(st, "", "");
    if cur != Flat(st) {
      assert (cur + "/")[..|cur|] == cur;
    }
    assert cur[..i - 1] == s[..i - 1];
  }

  /** The first component of a relative path and the slash behind it are passed unseen. */
  method PassRoot(str: array<char>, ghost text: string) returns (i: nat)
    requires Holds(str[..], text) && text != [] && text[0] != '/'
    ensures Inv(str[..], text, i, Place(text[..RootEnd(text)], []), text)
  {
    HoldsAt(str[..], text);
    i := 0;
    while str[i] != '\0' && str[i] != '/'
      invariant i <= |text| && '/' !in text[..i]
      decreases |text| - i
    {
      assert text[..i + 1] == text[..i] + [text[i]];
      i := i + 1;
    }
    if str[i] != '\0' {
      FirstSlashAt(text, i);
      i := i + 1;
    } else {
      assert text[..i] == text;
    }
    RootAlone(text);
  }

  /** What is held once the root has been passed. */
  lemma RootAlone(text: string)
    requires text != [] && '\0' !in text
    ensures Mid(text, RootEnd(text), Place(text[..RootEnd(text)], []), text)
    ensures '/' !in text ==> RootEnd(text) == |text|
  {
    var e := RootEnd(text);
    assert text[..e][..e - 1] == text[..e - 1];
    if FirstSlash(text) < |text| {
      assert text[..e - 1] == text[..FirstSlash(text)];
    } else {
      assert text[..FirstSlash(text)] == text;
    }
  }

  /** path_strip: resolves the components of a path in place. */
  method PathStrip(str: array<char>, ghost text: string)
    requires Holds(str[..], text)
    modifies str
    ensures Holds(str[..], Normal(text)) && |Normal(text)| <= |text|
    ensures forall k :: |text| < k < str.Length ==> str[k] == old(str[k])
  {
    HoldsAt(str[..], text);
    var i := 0;
    ghost var cur, st := text, Place(text[..RootEnd(text)], []);
    if str[0] == '/' {
      i := 1;
      RootAlone(text);
    }
    while str[i] != '\0'
      invariant Inside(str[..], cur, i, st, text)
      invariant forall k :: |text| < k < str.Length ==> str[k] == old(str[k])
      decreases |cur| - i
    {
      HoldsAt(str[..], cur);
      if i == 0 {
        i := PassRoot(str, text);
      } else {
        i, cur, st := Round(str, i, cur, st, text);
      }
    }
    if i > 0 {
      DropSlash(str, i, cur, st, text);
    } else {
      NoSlash(text);
    }
  }

  /** The loop invariant: at 0 nothing has happened to a relative path. */
  ghost predicate Inside(s: seq<char>, cur: string, i: int, st: Place, text: string) {
    if i == 0 then cur == text && Holds(s, text) && (text == [] || text[0] != '/') && st == Place(text[..RootEnd(text)], [])
    else Inv(s, cur, i, st, text)
  }

  /** The last test of path_strip. */
  method DropSlash(str: array<char>, i: nat, ghost cur: string, ghost st: Place, ghost text: string)
    requires Inv(str[..], cur, i, st, text) && str[i] == '\0'
    modifies str
    ensures Holds(str[..], Normal(text)) && |Normal(text)| <= |text|
    ensures forall k :: |text| < k < str.Length ==> str[k] == old(str[k])
  {
    AtEnd(str[..], cur, i, st, text);
    assert '\0' !in cur[..i - 1];
    if i > 1 && str[i - 1] == '/' {
      str[i - 1] := '\0';
      assert str[..][..i - 1] == cur[..i - 1];
    }
  }

  /** path_absolute_cwd. */
  method PathAbsolute(src: string, cwd: string) returns (str: array<char>)
    requires '\0' !in src && '\0' !in cwd && cwd != [] && cwd[0] == '/'
    ensures fresh(str)
    ensures Holds(str[..], if src != [] && src[0] == '/' then Normal(src) else Show(Walk(Resolved(cwd), Split(src))))
  {
    var text := if src != [] && src[0] == '/' then src else cwd + "/" + src;
    str := new char[|text| + 1](i requires 0 <= i <= |text| => if i < |text| then text[i] else '\0');
    assert str[..][..|text|] == text;
    PathStrip(str, text);
    RelativeTo(cwd, src);
  }
}
