/** Command lines: parse_command of app/command_mode.c, and escape and unescape of app/misc.c, which
    the resume file uses for the arguments of the same kind of line. */
module Commands {
  import opened Common

  predicate Blank(s: string) {
    forall i :: 0 <= i < |s| ==> s[i] == ' '
  }

  predicate NoBlank(s: string) {
    forall i :: 0 <= i < |s| ==> s[i] != ' '
  }

  /** `line` is `cmd` and `arg` with blanks between them and maybe in front. */
  ghost predicate Splits(line: string, cmd: string, arg: string) {
    exists i, j :: 0 <= i <= |line| && 0 <= j && SplitsAt(line, cmd, arg, i, j)
  }

  predicate SplitsAt(line: string, cmd: string, arg: string, i: nat, j: nat) {
    && i + |cmd| + j + |arg| == |line| && line[i..i + |cmd|] == cmd && line[i + |cmd| + j..] == arg
    && Blank(line[..i]) && Blank(line[i + |cmd|..i + |cmd| + j]) && (arg != "" ==> j > 0)
  }

  /** What a command gets for an argument: nothing, or a text that does not start with a blank. */
  type Argument = a: Option<string> | a.Some? ==> a.value != [] && a.value[0] != ' ' witness None

  method SkipBlanks(line: string, start: nat) returns (i: nat)
    requires start <= |line|
    ensures start <= i <= |line| && Blank(line[start..i]) && (i < |line| ==> line[i] != ' ')
  {
    i := start;
    while i < |line| && line[i] == ' '
      invariant start <= i <= |line| && forall k :: start <= k < i ==> line[k] == ' '
    {
      i := i + 1;
    }
  }

  /** parse_command: the first word, and everything behind the blanks that follow it. */
  method ParseCommand(line: string) returns (ok: bool, cmd: string, arg: Argument)
    ensures ok ==> Splits(line, cmd, if arg.Some? then arg.value else "") && cmd != [] && cmd[0] != '#' && NoBlank(cmd)
    ensures !ok ==> Blank(line) || exists i :: 0 <= i < |line| && line[i] == '#' && Blank(line[..i])
  {
    ok, cmd, arg := false, "", None;
    var i := SkipBlanks(line, 0);
    assert line[0..i] == line[..i];
    if i < |line| && line[i] == '#' {
      return;
    }
    var start := i;
    while i < |line| && line[i] != ' '
      invariant start <= i <= |line| && forall k :: start <= k < i ==> line[k] != ' '
    {
      i := i + 1;
    }
    if i == start {
      assert line[..i] == line;
      return;
    }
    var end := i;
    i := SkipBlanks(line, i);
    ok, cmd := true, line[start..end];
    if i < |line| {
      arg := Some(line[i..]);
    }
    SplitParts(line, start, end, i);
  }

  lemma SplitParts(line: string, start: nat, end: nat, i: nat)
    requires start <= end <= i <= |line| && Blank(line[..start]) && Blank(line[end..i]) && (i < |line| ==> end < i)
    ensures Splits(line, line[start..end], line[i..])
  {
    assert SplitsAt(line, line[start..end], line[i..], start, i - end);
  }

  /** There is only one way to split a line into a word and an argument that does not start with a
      blank. */
  lemma OneSplit(line: string, cmd: string, arg: Argument, cmd': string, arg': Argument)
    requires Splits(line, cmd, if arg.Some? then arg.value else "") && cmd != [] && NoBlank(cmd)
    requires Splits(line, cmd', if arg'.Some? then arg'.value else "") && cmd' != [] && NoBlank(cmd')
    ensures cmd == cmd' && arg == arg'
  {
    hide SplitsAt, Blank, NoBlank;
    var a, a' := if arg.Some? then arg.value else "", if arg'.Some? then arg'.value else "";
    var i: nat, j: nat :| i <= |line| && SplitsAt(line, cmd, a, i, j);
    var i': nat, j': nat :| i' <= |line| && SplitsAt(line, cmd', a', i', j');
    SplitSays(line, cmd, a, i, j);
    SplitSays(line, cmd', a', i', j');
    assert i == i' && i + |cmd| == i' + |cmd'| && j == j';
  }

  lemma SplitSays(line: string, cmd: string, arg: string, i: nat, j: nat)
    requires i <= |line| && SplitsAt(line, cmd, arg, i, j) && cmd != [] && NoBlank(cmd) && (arg != "" ==> arg[0] != ' ')
    ensures var e := i + |cmd|;
      && e + j + |arg| == |line| && cmd == line[i..e] && arg == line[e + j..]
      && i < |line| && line[i] != ' ' && (e < |line| ==> line[e] == ' ') && (e + j < |line| ==> line[e + j] != ' ')
      && (forall k :: 0 <= k < i ==> line[k] == ' ') && (forall k :: i <= k < e ==> line[k] != ' ') && (forall k :: e <= k < e + j ==> line[k] == ' ')
  {
    var e := i + |cmd|;
    forall k | 0 <= k < i ensures line[k] == ' ' {
      assert line[k] == line[..i][k];
    }
    forall k | i <= k < e ensures line[k] != ' ' {
      assert line[k] == line[i..e][k - i];
    }
    forall k | e <= k < e + j ensures line[k] == ' ' {
      assert line[k] == line[e..e + j][k - e];
    }
    if arg != "" {
      assert line[e + j] == line[e + j..][0];
    }
  }

  /* Escaped arguments. */

  function Escaped(s: string): string {
    if s == [] then []
    else (if s[0] == '\\' then "\\\\" else if s[0] == '\n' then "\\n" else [s[0]]) + Escaped(s[1..])
  }

  /** `pending`: a backslash has just been read. */
  function Unescaped(s: string, pending: bool): string {
    if s == [] then []
    else if !pending && s[0] == '\\' then Unescaped(s[1..], true)
    else [if pending && s[0] == 'n' then '\n' else s[0]] + Unescaped(s[1..], false)
  }

  /** What is escaped stays on one line, and text without backslashes and line ends is left alone. */
  lemma {:induction false} EscapedOnOneLine(s: string)
    ensures '\n' !in Escaped(s)
    ensures '\\' !in s && '\n' !in s ==> Escaped(s) == s
  {
    if s != [] {
      EscapedOnOneLine(s[1..]);
      assert s == [s[0]] + s[1..];
    }
  }

  lemma {:induction false} EscapeRoundTrip(s: string)
    ensures Unescaped(Escaped(s), false) == s
  {
    if s != [] {
      EscapeRoundTrip(s[1..]);
      var rest := Escaped(s[1..]);
      if s[0] == '\\' || s[0] == '\n' {
        var c := if s[0] == '\\' then '\\' else 'n';
        assert Escaped(s) == ['\\', c] + rest;
        assert (['\\', c] + rest)[1..] == [c] + rest && ([c] + rest)[1..] == rest;
      } else {
        assert ([s[0]] + rest)[1..] == rest;
      }
    }
  }

  lemma UnescapedStep(s: string, i: nat, pending: bool)
    requires i < |s|
    ensures Unescaped(s[i..], pending) ==
      if !pending && s[i] == '\\' then Unescaped(s[i + 1..], true)
      else [if pending && s[i] == 'n' then '\n' else s[i]] + Unescaped(s[i + 1..], false)
  {
    assert s[i..][0] == s[i] && s[i..][1..] == s[i + 1..];
  }

  /** unescape. */
  method Unescape(s: string) returns (r: string)
    ensures r == Unescaped(s, false)
  {
    r := [];
    var pending := false;
    assert s[0..] == s && [] + Unescaped(s, false) == Unescaped(s, false);
    for i := 0 to |s|
      invariant r + Unescaped(s[i..], pending) == Unescaped(s, false)
    {
      UnescapedStep(s, i, pending);
      if !pending && s[i] == '\\' {
        pending := true;
      } else {
        ghost var c := if pending && s[i] == 'n' then '\n' else s[i];
        Assoc(r, [c], Unescaped(s[i + 1..], false));
        r := r + [if pending && s[i] == 'n' then '\n' else s[i]];
        pending := false;
      }
    }
  }
}
