/** Number printing: itoa, strrev and the numeric conversions of printf
    (student-distrib/lib.c). */
module Numbers {
  import opened Bytes
  import opened Memory

  /** The digit character for a value below 36. */
  function Digit(i: nat): byte
    requires i < 36
  {
    if i < 10 then 48 + i else 55 + i
  }

  /** The value a digit character stands for, 36 for any other byte. */
  function DigitValue(c: byte): nat {
    if 48 <= c <= 57 then c - 48
    else if 65 <= c <= 90 then c - 55
    else 36
  }

  /** s is a numeral of the radix: at least one digit, each below the radix. */
  predicate Numeral(s: seq<byte>, radix: nat) {
    s != [] && forall i :: 0 <= i < |s| ==> DigitValue(s[i]) < radix
  }

  /** The number a numeral denotes, most significant digit first. */
  function Value(s: seq<byte>, radix: nat): nat {
    if s == [] then 0
    else Value(s[..|s| - 1], radix) * radix + DigitValue(s[|s| - 1])
  }

  predicate NoLeadingZero(s: seq<byte>) {
    |s| > 1 ==> s[0] != ZERO_DIGIT
  }

  /** s written backwards. */
  function Reversed(s: seq<byte>): (r: seq<byte>)
    ensures |r| == |s| && forall i :: 0 <= i < |s| ==> r[i] == s[|s| - 1 - i]
  {
    seq(|s|, i requires 0 <= i < |s| => s[|s| - 1 - i])
  }

  /** Unsigned division by a radix. */
  function Quot(v: nat, radix: nat): (q: nat)
    requires radix >= 2
    ensures v > 0 ==> q < v
  {
    QuotSmaller(v, radix);
    v / radix
  }

  lemma QuotSmaller(v: nat, radix: nat)
    requires radix >= 2
    ensures 0 <= v / radix && (v > 0 ==> v / radix < v)
  {
    var q := v / radix;
    assert v == q * radix + v % radix;
    assert q * radix == q + q * (radix - 1);
  }

  function Rem(v: nat, radix: nat): (d: nat)
    requires radix >= 2
    ensures d < radix
  {
    v % radix
  }

  /** The digits of v, least significant first, as the digit loop emits them. */
  function Emitted(v: nat, radix: nat): (r: seq<byte>)
    requires 2 <= radix <= 36
    ensures v > 0 ==> r != [] && r[|r| - 1] != ZERO_DIGIT
    ensures forall i :: 0 <= i < |r| ==> DigitValue(r[i]) < radix && r[i] != NUL
    decreases v
  {
    if v == 0 then [] else [Digit(Rem(v, radix))] + Emitted(Quot(v, radix), radix)
  }

  /** Division and remainder give a number back. */
  lemma DivMod(v: nat, radix: nat)
    requires radix >= 2
    ensures Quot(v, radix) * radix + Rem(v, radix) == v
  {
  }

  /** Read backwards, the emitted digits denote the number. */
  lemma {:induction false} EmittedValue(v: nat, radix: nat)
    requires 2 <= radix <= 36
    ensures Value(Reversed(Emitted(v, radix)), radix) == v
    decreases v
  {
    DivMod(v, radix);
    if v > 0 {
      var q := Quot(v, radix);
      var rest, d := Emitted(q, radix), Digit(Rem(v, radix));
      EmittedValue(q, radix);
      ReversedValue(d, rest, radix);
    }
  }

  lemma ReversedValue(d: byte, rest: seq<byte>, radix: nat)
    ensures Value(Reversed([d] + rest), radix) == Value(Reversed(rest), radix) * radix + DigitValue(d)
  {
    assert Reversed([d] + rest) == Reversed(rest) + [d];
    ValueOfOneMore(Reversed(rest), d, radix);
  }

  lemma ValueOfOneMore(s: seq<byte>, d: byte, radix: nat)
    ensures Value(s + [d], radix) == Value(s, radix) * radix + DigitValue(d)
  {
    assert (s + [d])[..|s|] == s;
  }

  function Power(b: nat, e: nat): nat {
    if e == 0 then 1 else b * Power(b, e - 1)
  }

  /** A number below radix^k has at most k digits. */
  lemma {:induction false} EmittedLength(v: nat, radix: nat, k: nat)
    requires 2 <= radix <= 36 && v < Power(radix, k)
    ensures |Emitted(v, radix)| <= k
    decreases k
  {
    DivMod(v, radix);
    if v > 0 {
      Quotient(v, radix, Power(radix, k - 1));
      EmittedLength(Quot(v, radix), radix, k - 1);
    }
  }

  lemma Quotient(v: nat, radix: nat, p: nat)
    requires radix >= 2 && v < radix * p
    ensures Quot(v, radix) < p
  {
    DivMod(v, radix);
    if Quot(v, radix) >= p {
      Monotone(radix, p, Quot(v, radix));
      assert false;
    }
  }

  lemma Monotone(radix: nat, p: nat, q: nat)
    requires p <= q
    ensures radix * p <= q * radix
  {
    assert q * radix == radix * p + (q - p) * radix;
  }

  /** The text of a number in a radix. */
  function Text(v: nat, radix: nat): (r: seq<byte>)
    requires 2 <= radix <= 36
  {
    if v == 0 then [ZERO_DIGIT] else Reversed(Emitted(v, radix))
  }

  /** The text is a numeral without a leading zero that denotes the number, and
      has at most k digits when the number is below radix^k. */
  lemma TextDenotes(v: nat, radix: nat, k: nat)
    requires 2 <= radix <= 36 && k > 0 && v < Power(radix, k)
    ensures var s := Text(v, radix);
            Numeral(s, radix) && NoLeadingZero(s) && Value(s, radix) == v && NUL !in s && |s| <= k
  {
    EmittedLength(v, radix, k);
    EmittedValue(v, radix);
    var e := Emitted(v, radix);
    assert v > 0 ==> Reversed(e)[0] == e[|e| - 1];
  }

  /** Every 32-bit number has at most 32 digits. */
  lemma Below32Digits(v: nat, radix: nat)
    requires 2 <= radix <= 36 && v < WORD
    ensures |Emitted(v, radix)| <= 32
  {
    PowerGrows(radix, 32);
    PowersOfTwo();
    EmittedLength(v, radix, 32);
  }

  lemma PowersOfTwo()
    ensures Power(2, 32) == WORD == Power(16, 8)
  {
    assert Power(2, 8) == 0x100;
    PowerAdds(2, 8, 8);
    PowerAdds(2, 16, 16);
    assert Power(16, 4) == 0x1_0000;
    PowerAdds(16, 4, 4);
  }

  lemma {:induction false} PowerAdds(b: nat, e: nat, f: nat)
    ensures Power(b, e + f) == Power(b, e) * Power(b, f)
  {
    if e > 0 {
      PowerAdds(b, e - 1, f);
      Associate(b, Power(b, e - 1), Power(b, f));
    }
  }

  lemma Associate(a: nat, b: nat, c: nat)
    ensures a * (b * c) == a * b * c
  {
  }

  lemma {:induction false} PowerGrows(radix: nat, k: nat)
    requires radix >= 2
    ensures Power(2, k) <= Power(radix, k)
  {
    if k > 0 {
      PowerGrows(radix, k - 1);
      var p := Power(radix, k - 1);
      assert radix * p == 2 * p + (radix - 2) * p;
    }
  }

  /** m with the outermost bytes of m[at..at + n], those below lo and their
      mirror images, exchanged. */
  function Exchanged(m: seq<byte>, at: nat, n: nat, lo: nat): (r: seq<byte>)
    requires at + n <= |m| && at <= lo
    ensures |r| == |m|
  {
    seq(|m|, k requires 0 <= k < |m| =>
        if at <= k < at + n && (k < lo || 2 * at + n - 1 - k < lo) then m[2 * at + n - 1 - k] else m[k])
  }

  lemma ExchangeStep(m: seq<byte>, at: nat, n: nat, lo: nat, hi: nat)
    requires at + n <= |m| && at <= lo < hi && lo + hi == 2 * at + n - 1
    ensures var now := Exchanged(m, at, n, lo);
            now[lo := now[hi]][hi := now[lo]] == Exchanged(m, at, n, lo + 1)
  {
  }

  lemma ExchangeDone(m: seq<byte>, at: nat, n: nat, lo: nat, hi: int)
    requires at + n <= |m| && at <= lo && hi <= lo && lo + hi == 2 * at + n - 1
    ensures Exchanged(m, at, n, lo) == Overlay(m, at, Reversed(m[at..at + n]))
  {
  }

  /** strrev on the n bytes before the terminator. */
  method StrRev(buf: array<byte>, at: nat, n: nat)
    requires at + n <= buf.Length
    modifies buf
    ensures buf[..] == Overlay(old(buf[..]), at, Reversed(old(buf[at..at + n])))
  {
    ghost var m := buf[..];
    var beg, end := at, at + n - 1;
    while beg < end
      invariant at <= beg && beg + end == 2 * at + n - 1
      invariant buf[..] == Exchanged(m, at, n, beg)
    {
      ExchangeStep(m, at, n, beg, end);
      buf[beg], buf[end] := buf[end], buf[beg];
      beg, end := beg + 1, end - 1;
    }
    ExchangeDone(m, at, n, beg, end);
  }

  /** itoa: writes the text of the value and a NUL at `at`, and nothing else. */
  method Itoa(value: nat, buf: array<byte>, at: nat, radix: nat) returns (n: nat)
    requires value < WORD && 2 <= radix <= 36 && at + 33 <= buf.Length
    modifies buf
    ensures n == |Text(value, radix)| <= 32
    ensures buf[..] == Overlay(old(buf[..]), at, Text(value, radix) + [NUL])
  {
    if value == 0 {
      buf[at], buf[at + 1] := ZERO_DIGIT, NUL;
      return 1;
    }
    n := ItoaPositive(value, buf, at, radix);
  }

  /** The general case of itoa: digit loop, terminator, reversal. */
  method ItoaPositive(value: nat, buf: array<byte>, at: nat, radix: nat) returns (n: nat)
    requires 0 < value < WORD && 2 <= radix <= 36 && at + 33 <= buf.Length
    modifies buf
    ensures n == |Emitted(value, radix)| <= 32
    ensures buf[..] == Overlay(old(buf[..]), at, Reversed(Emitted(value, radix)) + [NUL])
  {
    ghost var m, all := buf[..], Emitted(value, radix);
    Below32Digits(value, radix);
    n := EmitDigits(value, buf, at, radix);
    TerminateAndReverse(buf, at, n, m, all);
  }

  /** The end of itoa: the terminator is stored, and the digits are reversed. */
  method TerminateAndReverse(buf: array<byte>, at: nat, n: nat, ghost m: seq<byte>, ghost all: seq<byte>)
    requires n == |all| && at + n < buf.Length == |m| && buf[..] == Overlay(m, at, all)
    modifies buf
    ensures buf[..] == Overlay(m, at, Reversed(all) + [NUL])
  {
    StoreBehind(buf, m, at, all, n, NUL);
    ReverseBeforeNul(m, at, all);
    StrRev(buf, at, n);
  }

  lemma ReverseBeforeNul(m: seq<byte>, at: nat, s: seq<byte>)
    requires at + |s| + 1 <= |m|
    ensures var now := Overlay(m, at, s + [NUL]);
            now[at..at + |s|] == s && Overlay(now, at, Reversed(s)) == Overlay(m, at, Reversed(s) + [NUL])
  {
  }

  /** The digit loop of itoa. */
  method EmitDigits(value: nat, buf: array<byte>, at: nat, radix: nat) returns (n: nat)
    requires 2 <= radix <= 36 && at + |Emitted(value, radix)| <= buf.Length
    modifies buf
    ensures n == |Emitted(value, radix)|
    ensures buf[..] == Overlay(old(buf[..]), at, Emitted(value, radix))
  {
    ghost var m, all := buf[..], Emitted(value, radix);
    var newval: nat := value;
    n := 0;
    while newval > 0
      invariant n <= |all| && all[n..] == Emitted(newval, radix)
      invariant buf[..] == Overlay(m, at, all[..n])
    {
      EmittedTail(all, n, newval, radix);
      StoreBehind(buf, m, at, all[..n], n, Digit(Rem(newval, radix)));
      assert all[..n] + [all[n]] == all[..n + 1];
      n := n + 1;
      newval := Quot(newval, radix);
    }
    assert all[..n] == all;
  }

  lemma EmittedTail(all: seq<byte>, n: nat, v: nat, radix: nat)
    requires 2 <= radix <= 36 && n <= |all| && all[n..] == Emitted(v, radix) && v > 0
    ensures n < |all| && all[n] == Digit(Rem(v, radix)) && all[n + 1..] == Emitted(Quot(v, radix), radix)
  {
    assert all[n..][0] == all[n] && all[n..][1..] == all[n + 1..];
  }

  /** The string that %x prints. */
  method FormatHex(value: nat) returns (out: seq<byte>)
    requires value < WORD
    ensures out == Text(value, 16)
  {
    var convBuf := new byte[64](_ => 0);
    var n := Itoa(value, convBuf, 0, 16);
    out := convBuf[0..n];
    OverlaySlice(Repeat(0, 64), 0, Text(value, 16));
  }

  /** Eight digits, zero-padded on the left. */
  function PaddedHex(v: nat): (s: seq<byte>)
    requires v < WORD
  {
    HexFits(v);
    Repeat(ZERO_DIGIT, 8 - |Text(v, 16)|) + Text(v, 16)
  }

  /** Eight hexadecimal digits are enough for a 32-bit number. */
  lemma HexFits(v: nat)
    requires v < WORD
    ensures Numeral(Text(v, 16), 16) && Value(Text(v, 16), 16) == v && |Text(v, 16)| <= 8
  {
    PowersOfTwo();
    TextDenotes(v, 16, 8);
  }

  /** %#x prints exactly eight hexadecimal digits that denote the value. */
  lemma PaddedHexDenotes(v: nat)
    requires v < WORD
    ensures var s := PaddedHex(v); |s| == 8 && Numeral(s, 16) && Value(s, 16) == v
  {
    HexFits(v);
    LeadingZeros(8 - |Text(v, 16)|, Text(v, 16), 16);
  }

  /** The string that %#x prints: the digits are written from index 8 on and
      zeros are put before them so that eight digits stand before the NUL. */
  method FormatHexPadded(value: nat) returns (out: seq<byte>)
    requires value < WORD
    ensures out == PaddedHex(value)
  {
    var convBuf := new byte[64](_ => 0);
    HexFits(value);
    var start := Itoa(value, convBuf, 8, 16);
    out := PadAndTake(convBuf, start, Repeat(0, 64), Text(value, 16));
  }

  method PadAndTake(convBuf: array<byte>, start: nat, ghost z: seq<byte>, ghost digits: seq<byte>)
    returns (out: seq<byte>)
    requires convBuf.Length == |z| == 64 && start == |digits| <= 8 && convBuf[..] == Overlay(z, 8, digits + [NUL])
    modifies convBuf
    ensures out == Repeat(ZERO_DIGIT, 8 - |digits|) + digits
  {
    PadZeros(convBuf, start, 8);
    out := convBuf[start..8 + start];
    PaddedSlice(z, digits);
  }

  /** The padding loop of %#x. */
  method PadZeros(buf: array<byte>, from: nat, to: nat)
    requires from <= to <= buf.Length
    modifies buf
    ensures buf[..] == Overlay(old(buf[..]), from, Repeat(ZERO_DIGIT, to - from))
  {
    ghost var m := buf[..];
    for i := from to to
      invariant buf[..] == Overlay(m, from, Repeat(ZERO_DIGIT, i - from))
    {
      buf[i] := ZERO_DIGIT;
    }
  }

  /** The eight bytes before the NUL once the zeros are in place. */
  lemma PaddedSlice(z: seq<byte>, digits: seq<byte>)
    requires |z| == 64 && |digits| <= 8
    ensures var n := |digits|;
            Overlay(Overlay(z, 8, digits + [NUL]), n, Repeat(ZERO_DIGIT, 8 - n))[n..8 + n]
            == Repeat(ZERO_DIGIT, 8 - n) + digits
  {
  }

  /** Zeros in front do not change what a numeral denotes. */
  lemma {:induction false} LeadingZeros(k: nat, s: seq<byte>, radix: nat)
    ensures Value(Repeat(ZERO_DIGIT, k) + s, radix) == Value(s, radix)
    decreases |s|, k
  {
    var z := Repeat(ZERO_DIGIT, k);
    if s != [] {
      LeadingZeros(k, s[..|s| - 1], radix);
      assert (z + s)[..k + |s| - 1] == z + s[..|s| - 1];
    } else if k > 0 {
      LeadingZeros(k - 1, s, radix);
      assert (z + s)[..k - 1] == Repeat(ZERO_DIGIT, k - 1) + s;
    }
  }

  /** What the string of %d denotes: a minus sign negates. */
  function SignedValue(s: seq<byte>): int {
    if s != [] && s[0] == 45 then 0 - Value(s[1..], 10) else Value(s, 10)
  }

  /** Sign and digits of a signed number. */
  function SignedText(v: int): seq<byte> {
    Repeat(45, if v < 0 then 1 else 0) + Text(if v < 0 then -v else v, 10)
  }

  lemma SignedTextDenotes(v: int)
    requires -0x8000_0000 <= v < 0x8000_0000
    ensures var s := SignedText(v);
            && SignedValue(s) == v && (v < 0 <==> s[0] == 45)
            && Numeral(if v < 0 then s[1..] else s, 10) && NoLeadingZero(if v < 0 then s[1..] else s)
  {
    assert Power(10, 5) == 100_000;
    PowerAdds(10, 5, 5);
    TextDenotes(if v < 0 then -v else v, 10, 10);
    var s, t := SignedText(v), Text(if v < 0 then -v else v, 10);
    if v < 0 {
      assert s[1..] == t;
    } else {
      assert s == t && DigitValue(s[0]) < 10;
    }
  }

  /** The string that %d prints for a signed 32-bit value, the least included:
      its negation wraps to the same word, which itoa reads as unsigned. */
  method FormatSigned(value: int) returns (out: seq<byte>)
    requires -0x8000_0000 <= value < 0x8000_0000
    ensures out == SignedText(value)
  {
    if value < 0 {
      NegatedWord(value);
      out := FormatDecimal(-value % WORD, 1);
    } else {
      out := FormatDecimal(value, 0);
    }
  }

  /** Negating a negative 32-bit value, as an unsigned word. */
  lemma NegatedWord(value: int)
    requires -0x8000_0000 <= value < 0
    ensures -value % WORD == -value
  {
  }

  /** The conversion buffer of %d: a minus sign, if any, then the digits. */
  method FormatDecimal(magnitude: nat, at: nat) returns (out: seq<byte>)
    requires magnitude < WORD && at <= 1
    ensures out == Repeat(45, at) + Text(magnitude, 10)
  {
    var convBuf := new byte[36](_ => 45);
    var n := Itoa(magnitude, convBuf, at, 10);
    out := convBuf[0..at + n];
    OverlaySlice(Repeat(45, 36), at, Text(magnitude, 10));
  }

  lemma OverlaySlice(m: seq<byte>, at: nat, t: seq<byte>)
    requires at + |t| + 1 <= |m|
    ensures Overlay(m, at, t + [NUL])[0..at + |t|] == m[..at] + t
  {
  }
}
