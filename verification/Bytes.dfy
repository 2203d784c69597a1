/** Machine bytes, the character constants of the kernel's headers, and
    NUL-terminated strings held in byte sequences. */
module Bytes {
  type byte = b: int | 0 <= b < 256

  const NUL: byte := 0
  const NEWLINE: byte := 10
  const CARRIAGE_RETURN: byte := 13
  const SPACE: byte := 32
  const PERIOD: byte := 46
  const ZERO_DIGIT: byte := 48

  /** Number of terminals. */
  const TERMINALS: nat := 3

  /** Number of values of a 32-bit word. */
  const WORD: nat := 0x1_0000_0000

  /** The C string that starts at s[0], reading at most n bytes: everything
      before the first NUL. */
  function CString(s: seq<byte>, n: nat): (r: seq<byte>)
    ensures |r| <= n && r <= s && NUL !in r
    ensures |r| < n && |r| < |s| ==> s[|r|] == NUL
    decreases |s|
  {
    if n == 0 || s == [] || s[0] == NUL then []
    else [s[0]] + CString(s[1..], n - 1)
  }

  /** s is n bytes long or ends in a NUL, so that reading it up to n bytes or
      to its NUL stays inside it. */
  predicate Readable(s: seq<byte>, n: nat) {
    |s| >= n || NUL in s
  }

  /** The bytes of a text. */
  function Ascii(text: string): (r: seq<byte>)
    ensures |r| == |text| && forall i :: 0 <= i < |text| ==> r[i] == text[i] as int % 256
  {
    seq(|text|, i requires 0 <= i < |text| => text[i] as int % 256)
  }

  /** n copies of b. */
  function Repeat(b: byte, n: nat): (r: seq<byte>)
    ensures |r| == n && forall i :: 0 <= i < n ==> r[i] == b
  {
    seq(n, _ => b)
  }

  /** m with the bytes from address at on replaced by s. */
  function Overlay(m: seq<byte>, at: nat, s: seq<byte>): (r: seq<byte>)
    requires at + |s| <= |m|
    ensures |r| == |m|
    ensures forall k :: 0 <= k < |m| ==> r[k] == if at <= k < at + |s| then s[k - at] else m[k]
  {
    seq(|m|, k requires 0 <= k < |m| => if at <= k < at + |s| then s[k - at] else m[k])
  }

  /** What an overlay holds where it was laid, and beside it. */
  lemma OverlaySlices(m: seq<byte>, at: nat, s: seq<byte>, b: nat, n: nat)
    requires at + |s| <= |m| && b + n <= |m|
    ensures Overlay(m, at, s)[at..at + |s|] == s
    ensures b + n <= at || at + |s| <= b ==> Overlay(m, at, s)[b..b + n] == m[b..b + n]
  {
  }

  /** An overlay directly behind an overlay is one overlay. */
  lemma OverlayJoin(m: seq<byte>, at: nat, s: seq<byte>, t: seq<byte>)
    requires at + |s| + |t| <= |m|
    ensures Overlay(Overlay(m, at, s), at + |s|, t) == Overlay(m, at, s + t)
  {
  }

  /** A C string is determined by where its first NUL stands. */
  lemma CStringIs(s: seq<byte>, n: nat, r: seq<byte>)
    requires |r| <= n && r <= s && NUL !in r
    requires |r| == n || |r| == |s| || s[|r|] == NUL
    ensures CString(s, n) == r
  {
    var c := CString(s, n);
    assert forall i :: 0 <= i < |r| ==> s[i] == r[i] != NUL;
    assert forall i :: 0 <= i < |c| ==> s[i] == c[i] != NUL;
    assert |c| == |r|;
    assert c == s[..|c|] && r == s[..|r|];
  }
}
