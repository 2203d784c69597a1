/** Command lines: parse and getargs (student-distrib/system_call.c). Command
    strings are given without their terminator where they are specified. */
module Commands {
  import opened Bytes
  import opened Memory
  import opened Helpers

  const MAX_FILE_LEN: nat := 32
  const MAX_ARG_LEN: nat := 128

  /** The first place from i on that holds no space. */
  function SkipSpaces(s: seq<byte>, i: nat): (r: nat)
    requires i <= |s|
    ensures i <= r <= |s| && (r == |s| || s[r] != SPACE)
    ensures forall k :: i <= k < r ==> s[k] == SPACE
    decreases |s| - i
  {
    if i == |s| || s[i] != SPACE then i else SkipSpaces(s, i + 1)
  }

  /** The first place from i on that holds a space, or the end. */
  function WordEnd(s: seq<byte>, i: nat): (r: nat)
    requires i <= |s|
    ensures i <= r <= |s| && (r == |s| || s[r] == SPACE)
    ensures forall k :: i <= k < r ==> s[k] != SPACE
    decreases |s| - i
  {
    if i == |s| || s[i] == SPACE then i else WordEnd(s, i + 1)
  }

  datatype Command = Command(name: seq<byte>, argument: seq<byte>)

  /** The name and the argument of a command line, whatever their lengths. */
  function Split(s: seq<byte>): Command {
    var b := SkipSpaces(s, 0);
    var e := WordEnd(s, b);
    Command(s[b..e], s[SkipSpaces(s, e)..])
  }

  /** What parse accepts: the name fits 32 bytes, and the argument the 128 bytes
      less the name. */
  function ParseLine(s: seq<byte>): Option<Command> {
    var c := Split(s);
    if |c.name| <= MAX_FILE_LEN && |c.name| + |c.argument| <= MAX_ARG_LEN then Some(c) else None
  }

  /** A command line: spaces, a name, spaces, an argument. */
  function Line(i: nat, f: seq<byte>, j: nat, a: seq<byte>): seq<byte> {
    Repeat(SPACE, i) + f + Repeat(SPACE, j) + a
  }

  predicate IsArgument(a: seq<byte>) {
    a == [] || a[0] != SPACE
  }

  /** The parts of a line: the name has no space, the argument begins with none, and an
      argument is set off from a name. */
  predicate Parts(f: seq<byte>, j: nat, a: seq<byte>) {
    SPACE !in f && IsArgument(a) && (j > 0 || a == []) && (f != [] || (j == 0 && a == []))
  }

  /** A name and an argument written with spaces before and between them are
      found again, if and only if they keep the two length limits. A line of spaces
      only is accepted with an empty name. */
  lemma ParseFindsParts(i: nat, f: seq<byte>, j: nat, a: seq<byte>)
    requires Parts(f, j, a)
    ensures ParseLine(Line(i, f, j, a)) == if |f| <= 32 && |f| + |a| <= 128 then Some(Command(f, a)) else None
  {
    var s := Line(i, f, j, a);
    var e := i + |f|;
    assert f != [] ==> s[i] == f[0];
    assert SkipSpaces(s, 0) == i;
    assert forall k :: i <= k < e ==> s[k] == f[k - i] && f[k - i] in f;
    assert e < |s| ==> s[e] == SPACE;
    assert WordEnd(s, i) == e;
    assert s[i..e] == f;
    assert a != [] ==> s[e + j] == a[0];
    assert SkipSpaces(s, e) == e + j;
    assert s[e + j..] == a;
  }

  /** Conversely every line is a name and an argument with spaces before and between
      them. If it is accepted these are the two delivered, so nothing of it is lost. */
  lemma LineIsItsParts(s: seq<byte>) returns (i: nat, f: seq<byte>, j: nat, a: seq<byte>)
    ensures s == Line(i, f, j, a) && Parts(f, j, a)
    ensures ParseLine(s).Some? ==> ParseLine(s).value == Command(f, a)
  {
    i := SkipSpaces(s, 0);
    var e := WordEnd(s, i);
    var t := SkipSpaces(s, e);
    f, j, a := s[i..e], t - e, s[t..];
  }

  /** The bytes of command are those of s and a terminator. */
  predicate Holds(command: seq<byte>, s: seq<byte>) {
    |s| < |command| && command[|s|] == NUL && forall k :: 0 <= k < |s| ==> command[k] == s[k] != NUL
  }

  /** The loops of parse that pass over spaces. */
  method PassSpaces(command: seq<byte>, ghost s: seq<byte>, from: nat) returns (i: nat)
    requires Holds(command, s) && from <= |s|
    ensures i == SkipSpaces(s, from)
  {
    i := from;
    while command[i] == SPACE
      invariant i <= |s| && SkipSpaces(s, i) == SkipSpaces(s, from)
      decreases |s| - i
    {
      i := i + 1;
    }
  }

  /** parse. The name buffer of the callers has 32 bytes: byte 32 is written
      when an accepted name has 32 bytes, and only then. */
  method Parse(command: seq<byte>, filename: array<byte>, arg: array<byte>) returns (ok: bool)
    requires NUL in command && filename.Length > MAX_FILE_LEN && arg.Length >= MAX_ARG_LEN && filename != arg
    modifies filename, arg
    ensures var p := ParseLine(CString(command, |command|));
            && (ok <==> p.Some?)
            && (ok ==> filename[..] == Overlay(old(filename[..]), 0, p.value.name + [NUL]))
            && (ok ==> CString(arg[..], MAX_ARG_LEN) == p.value.argument)
  {
    ghost var s := CString(command, |command|);
    StringHeld(command);
    arg[0] := NUL;
    var b := PassSpaces(command, s, 0);
    var e;
    ok, e := TakeName(command, s, b, filename);
    if !ok {
      return;
    }
    if command[e] == SPACE {
      var i := PassSpaces(command, s, e);
      ok := TakeArgument(command, s, i, arg, MAX_ARG_LEN - (e - b));
    } else {
      CStringIs(arg[..], MAX_ARG_LEN, []);
    }
  }

  lemma StringHeld(command: seq<byte>)
    requires NUL in command
    ensures Holds(command, CString(command, |command|))
  {
    var s := CString(command, |command|);
    assert s == command[..|s|];
    assert forall k :: 0 <= k < |s| ==> s[k] in s;
    assert |s| < |command| by {
      assert command[..|command|] == command;
    }
  }

  /** The loop that stores the file name. */
  method TakeName(command: seq<byte>, ghost s: seq<byte>, b: nat, filename: array<byte>) returns (ok: bool, i: nat)
    requires Holds(command, s) && b <= |s| && filename.Length > MAX_FILE_LEN
    modifies filename
    ensures ok <==> WordEnd(s, b) - b <= MAX_FILE_LEN
    ensures ok ==> i == WordEnd(s, b) && filename[..] == Overlay(old(filename[..]), 0, s[b..i] + [NUL])
  {
    ghost var m := filename[..];
    var length: nat := 0;
    i := b;
    while command[i] != SPACE && command[i] != NUL
      invariant i == b + length <= |s| && length <= MAX_FILE_LEN && WordEnd(s, i) == WordEnd(s, b)
      invariant filename[..] == Overlay(m, 0, s[b..i])
      decreases |s| - i
    {
      if length == MAX_FILE_LEN {
        return false, i;
      }
      StoreBehind(filename, m, 0, s[b..i], length, command[i]);
      i, length := i + 1, length + 1;
      assert s[b..i] == s[b..i - 1] + [s[i - 1]];
    }
    StoreBehind(filename, m, 0, s[b..i], length, NUL);
    ok := true;
  }

  /** The loop that stores the argument; no store reaches byte `room`, except
      for the terminator. */
  method TakeArgument(command: seq<byte>, ghost s: seq<byte>, a: nat, arg: array<byte>, room: nat) returns (ok: bool)
    requires Holds(command, s) && a <= |s| && room < MAX_ARG_LEN <= arg.Length
    modifies arg
    ensures ok <==> |s| - a <= room
    ensures ok ==> CString(arg[..], MAX_ARG_LEN) == s[a..]
  {
    ghost var m := arg[..];
    var i, argLen: nat := a, 0;
    while command[i] != NUL
      invariant i == a + argLen <= |s| && argLen <= room
      invariant arg[..] == Overlay(m, 0, s[a..i])
      decreases |s| - i
    {
      if argLen == room {
        return false;
      }
      StoreBehind(arg, m, 0, s[a..i], argLen, command[i]);
      i, argLen := i + 1, argLen + 1;
      assert s[a..i] == s[a..i - 1] + [s[i - 1]];
    }
    StoreBehind(arg, m, 0, s[a..i], argLen, NUL);
    assert s[a..i] == s[a..] && forall k :: 0 <= k < |s| ==> s[k] != NUL;
    StoredString(s, a, m);
    ok := true;
  }

  lemma StoredString(s: seq<byte>, a: nat, m: seq<byte>)
    requires a <= |s| && NUL !in s && |s| - a < MAX_ARG_LEN <= |m|
    ensures CString(Overlay(m, 0, s[a..] + [NUL]), MAX_ARG_LEN) == s[a..]
  {
    var now, t := Overlay(m, 0, s[a..] + [NUL]), s[a..];
    assert forall k :: 0 <= k < |t| ==> t[k] == s[a + k];
    assert now[..|t|] == t && now[|t|] == NUL;
    CStringIs(now, MAX_ARG_LEN, t);
  }

  /** The string that the bytes of a hold. */
  function StringOf(a: seq<byte>): seq<byte> {
    CString(a, |a|)
  }

  lemma StringWithNul(a: seq<byte>, n: nat)
    ensures CString(a + [NUL], |a| + 1) == StringOf(a) && Padded(a + [NUL], n) == Padded(StringOf(a), n)
  {
    StringStored(a);
    StoredCut(a + [NUL], StringOf(a), |a| + 1, n);
  }

  lemma StringStored(a: seq<byte>)
    ensures var s, m := StringOf(a), a + [NUL];
            s <= m && NUL !in s && |s| < |m| && m[|s|] == NUL
  {
    var s := StringOf(a);
    assert (a + [NUL])[..|s|] == a[..|s|];
  }

  lemma StoredCut(m: seq<byte>, s: seq<byte>, k: nat, n: nat)
    requires s <= m && NUL !in s && |s| < |m| && m[|s|] == NUL && |s| <= k
    ensures CString(m, k) == s && Padded(m, n) == Padded(s, n)
  {
    CutString(m, s, k);
    CutString(m, s, n);
    CStringIs(s, n, Cut(s, n));
  }

  function Cut(s: seq<byte>, n: nat): seq<byte> {
    if |s| <= n then s else s[..n]
  }

  /** A string in memory read up to n bytes. */
  lemma CutString(m: seq<byte>, s: seq<byte>, n: nat)
    requires s <= m && NUL !in s && |s| < |m| && m[|s|] == NUL
    ensures CString(m, n) == Cut(s, n)
  {
    CStringIs(m, n, Cut(s, n));
  }

  /** getargs for a process whose argument is a, with `at` as the address of the
      buffer: it succeeds exactly when the string is not empty and fits the buffer
      with its terminator. A string that is not empty is stored, cut to n bytes or
      padded with NULs to n bytes, whether it fits or not. */
  method GetArgs(a: seq<byte>, buf: array?<byte>, at: nat, n: int) returns (r: int)
    requires buf != null && n > 0 ==> at + n <= buf.Length
    modifies buf
    ensures r == 0 || r == -1
    ensures r == 0 <==> buf != null && 0 < |StringOf(a)| < n
    ensures buf != null ==>
              buf[..] == if n > 0 && StringOf(a) != [] then Overlay(old(buf[..]), at, Padded(StringOf(a), n))
                         else old(buf[..])
  {
    if n <= 0 || buf == null {
      return -1;
    }
    var argument := a + [NUL];
    assert argument[|a|] == NUL;
    StringWithNul(a, n);
    var len := StrLen(argument);
    if len == 0 {
      return -1;
    }
    StrNCpy(buf, at, argument, n);
    r := ScanForNul(buf, at, n, StringOf(a));
  }

  /** The loop of getargs that looks for a terminator. */
  method ScanForNul(buf: array<byte>, at: nat, n: nat, ghost s: seq<byte>) returns (r: int)
    requires at + n <= buf.Length && buf[at..at + n] == Padded(s, n) && NUL !in s
    ensures r == if |s| < n then 0 else -1
  {
    CStringIs(s, n, Cut(s, n));
    for i := 0 to n
      invariant i <= |s|
    {
      assert buf[at + i] == Padded(s, n)[i];
      assert i < |s| ==> buf[at + i] == s[i] && s[i] in s;
      if buf[at + i] == NUL {
        return 0;
      }
    }
    return -1;
  }
}
