/** The memory and string primitives of student-distrib/lib.c, over one
    byte-addressed memory whose address 0 is word-aligned. */
module Memory {
  import opened Bytes

  /** The bytes of a double word, lowest first. */
  function LittleEndian(w: nat): seq<byte>
    requires w < WORD
  {
    [w % 256, w / 0x100 % 256, w / 0x1_0000 % 256, w / 0x100_0000]
  }

  /** A double-word store. */
  method StoreDword(mem: array<byte>, a: nat, b: seq<byte>)
    requires a + 4 <= mem.Length && |b| == 4
    modifies mem
    ensures mem[..] == Overlay(old(mem[..]), a, b)
  {
    mem[a] := b[0];
    mem[a + 1] := b[1];
    mem[a + 2] := b[2];
    mem[a + 3] := b[3];
  }

  /** One more byte behind those stored so far. */
  method StoreBehind(mem: array<byte>, ghost m: seq<byte>, at: nat, ghost done: seq<byte>, n: nat, b: byte)
    requires n == |done| && at + n < mem.Length == |m| && mem[..] == Overlay(m, at, done)
    modifies mem
    ensures mem[..] == Overlay(m, at, done + [b])
  {
    mem[at + n] := b;
    OverlayJoin(m, at, done, [b]);
  }

  /** memset: bytes up to a word boundary, then `rep stosl`, then the rest. */
  method MemSet(mem: array<byte>, s: nat, c: int, n: nat)
    requires s + n <= mem.Length
    modifies mem
    ensures mem[..] == Overlay(old(mem[..]), s, Repeat(c % 256, n))
  {
    var al: byte := c % 256;
    ghost var m := mem[..];
    var edi: nat, ecx: nat := s, n;
    while ecx != 0 && edi % 4 != 0
      invariant edi + ecx == s + n && s <= edi
      invariant mem[..] == Overlay(m, s, Repeat(al, edi - s))
    {
      StoreBehind(mem, m, s, Repeat(al, edi - s), edi - s, al);
      assert Repeat(al, edi - s) + [al] == Repeat(al, edi + 1 - s);
      edi, ecx := edi + 1, ecx - 1;
    }
    if ecx != 0 {
      var edx := ecx % 4;
      ecx := ecx / 4;
      while ecx != 0
        invariant edi + 4 * ecx + edx == s + n && s <= edi
        invariant mem[..] == Overlay(m, s, Repeat(al, edi - s))
      {
        StoreDword(mem, edi, LittleEndian(al * 0x101_0101));
        FillWord(al);
        FillStep4(m, s, edi, al);
        edi, ecx := edi + 4, ecx - 1;
      }
      while edx != 0
        invariant 0 <= edx && edi + edx == s + n && s <= edi
        invariant mem[..] == Overlay(m, s, Repeat(al, edi - s))
      {
        StoreBehind(mem, m, s, Repeat(al, edi - s), edi - s, al);
        assert Repeat(al, edi - s) + [al] == Repeat(al, edi + 1 - s);
        edi, edx := edi + 1, edx - 1;
      }
    }
  }

  /** A double-word store of four equal bytes extends the filled range by four. */
  lemma FillStep4(m: seq<byte>, s: nat, edi: nat, al: byte)
    requires s <= edi && edi + 4 <= |m|
    ensures Overlay(Overlay(m, s, Repeat(al, edi - s)), edi, [al, al, al, al])
         == Overlay(m, s, Repeat(al, edi + 4 - s))
  {
    OverlayJoin(m, s, Repeat(al, edi - s), [al, al, al, al]);
    assert Repeat(al, edi - s) + [al, al, al, al] == Repeat(al, edi + 4 - s);
  }

  /** Every byte of the double word that memset stores is the fill byte. */
  lemma FillWord(al: byte)
    ensures LittleEndian(al * 0x101_0101) == [al, al, al, al]
  {
    var w, h, l := al * 0x101_0101, al * 0x1_0101, al * 0x101;
    assert w == 0x100 * h + al && h == 0x100 * l + al && l == 0x100 * al + al;
    assert w / 0x100 == h && h / 0x100 == l && l / 0x100 == al;
    assert w / 0x1_0000 == l && w / 0x100_0000 == al;
  }

  /** Where a byte-by-byte copy of m may go on reading: the source bytes
      still to be copied are not yet overwritten. */
  predicate Unread(dest: nat, src: nat, n: nat) {
    dest <= src || src + n <= dest
  }

  /** The next w source bytes are still the original ones, and storing them
      extends the copy. */
  lemma CopyWindow(m: seq<byte>, dest: nat, src: nat, n: nat, i: nat, w: nat)
    requires i + w <= n && dest + n <= |m| && src + n <= |m| && Unread(dest, src, n)
    ensures var now, b := Overlay(m, dest, m[src..src + i]), m[src + i..src + i + w];
            now[src + i..src + i + w] == b && Overlay(now, dest + i, b) == Overlay(m, dest, m[src..src + i + w])
  {
    OverlayJoin(m, dest, m[src..src + i], m[src + i..src + i + w]);
    assert m[src..src + i] + m[src + i..src + i + w] == m[src..src + i + w];
  }

  /** One byte of an upward copy. */
  method CopyByte(mem: array<byte>, ghost m: seq<byte>, dest: nat, src: nat, n: nat, i: nat)
    requires i < n && dest + n <= mem.Length == |m| && src + n <= mem.Length && Unread(dest, src, n)
    requires mem[..] == Overlay(m, dest, m[src..src + i])
    modifies mem
    ensures mem[..] == Overlay(m, dest, m[src..src + i + 1])
  {
    CopyOne(m, dest, src, n, i);
    assert mem[src + i] == mem[..][src + i];
    mem[dest + i] := mem[src + i];
  }

  /** The next source byte is still the original one, and storing it extends the
      copy. */
  lemma CopyOne(m: seq<byte>, dest: nat, src: nat, n: nat, i: nat)
    requires i < n && dest + n <= |m| && src + n <= |m| && Unread(dest, src, n)
    ensures var now := Overlay(m, dest, m[src..src + i]);
            now[src + i] == m[src + i]
            && now[dest + i := m[src + i]] == Overlay(m, dest, m[src..src + i + 1])
  {
    var now, next := Overlay(m, dest, m[src..src + i]), Overlay(m, dest, m[src..src + i + 1]);
    forall k | 0 <= k < |m| ensures now[dest + i := m[src + i]][k] == next[k] {
    }
  }

  /** One double word of an upward copy: four bytes read, then written. */
  method CopyDword(mem: array<byte>, ghost m: seq<byte>, dest: nat, src: nat, n: nat, i: nat)
    requires i + 4 <= n && dest + n <= mem.Length == |m| && src + n <= mem.Length && Unread(dest, src, n)
    requires mem[..] == Overlay(m, dest, m[src..src + i])
    modifies mem
    ensures mem[..] == Overlay(m, dest, m[src..src + i + 4])
  {
    CopyWindow(m, dest, src, n, i, 4);
    StoreDword(mem, dest + i, mem[src + i..src + i + 4]);
  }

  /** memcpy: bytes up to a word boundary of the destination, then
      `rep movsl`, then the rest. The C contract asks for ranges that do not
      overlap; a destination at or below the source is also handled. */
  method MemCpy(mem: array<byte>, dest: nat, src: nat, n: nat)
    requires dest + n <= mem.Length && src + n <= mem.Length && Unread(dest, src, n)
    modifies mem
    ensures mem[..] == Overlay(old(mem[..]), dest, old(mem[src..src + n]))
  {
    ghost var m := mem[..];
    var i: nat, ecx: nat := 0, n;
    while ecx != 0 && (dest + i) % 4 != 0
      invariant i + ecx == n && mem[..] == Overlay(m, dest, m[src..src + i])
    {
      CopyByte(mem, m, dest, src, n, i);
      i, ecx := i + 1, ecx - 1;
    }
    if ecx != 0 {
      MemCpyAligned(mem, m, dest, src, n, i);
    }
  }

  /** The aligned rest of memcpy, i bytes having been copied. */
  method MemCpyAligned(mem: array<byte>, ghost m: seq<byte>, dest: nat, src: nat, n: nat, from: nat)
    requires from <= n && dest + n <= mem.Length == |m| && src + n <= mem.Length && Unread(dest, src, n)
    requires mem[..] == Overlay(m, dest, m[src..src + from])
    modifies mem
    ensures mem[..] == Overlay(m, dest, m[src..src + n])
  {
    var i, ecx, edx := from, (n - from) / 4, (n - from) % 4;
    while ecx != 0
      invariant 0 <= ecx && from <= i && i + 4 * ecx + edx == n
      invariant mem[..] == Overlay(m, dest, m[src..src + i])
    {
      CopyDword(mem, m, dest, src, n, i);
      i, ecx := i + 4, ecx - 1;
    }
    while edx != 0
      invariant 0 <= edx && from <= i && i + edx == n
      invariant mem[..] == Overlay(m, dest, m[src..src + i])
    {
      CopyByte(mem, m, dest, src, n, i);
      i, edx := i + 1, edx - 1;
    }
  }

  /** Downwards, the byte below the copied ones is still the original one. */
  lemma MoveDown(m: seq<byte>, dest: nat, src: nat, n: nat, i: nat)
    requires i < n && src < dest && dest + n <= |m|
    ensures var now := Overlay(m, dest + i + 1, m[src + i + 1..src + n]);
            now[src + i] == m[src + i]
            && now[dest + i := m[src + i]] == Overlay(m, dest + i, m[src + i..src + n])
  {
  }

  /** memmove: upwards when the source is not below the destination,
      otherwise downwards from the last byte; right for every overlap. */
  method MemMove(mem: array<byte>, dest: nat, src: nat, n: nat)
    requires dest + n <= mem.Length && src + n <= mem.Length
    modifies mem
    ensures mem[..] == Overlay(old(mem[..]), dest, old(mem[src..src + n]))
  {
    ghost var m := mem[..];
    if src >= dest {
      for i := 0 to n
        invariant mem[..] == Overlay(m, dest, m[src..src + i])
      {
        CopyByte(mem, m, dest, src, n, i);
      }
    } else {
      for i := n downto 0
        invariant mem[..] == Overlay(m, dest + i, m[src + i..src + n])
      {
        MoveDown(m, dest, src, n, i);
        assert mem[src + i] == mem[..][src + i];
        mem[dest + i] := mem[src + i];
      }
    }
  }

  /** The value of a byte as the signed char the C code compares. */
  function SignedChar(b: byte): int {
    if b < 128 then b else b - 256
  }

  /** The first byte in which two strings differ, before either ends. */
  predicate DiffersAt(s1: seq<byte>, s2: seq<byte>, n: nat, i: nat) {
    && i < n && i < |s1| && i < |s2| && s1[i] != s2[i]
    && forall k :: 0 <= k < i ==> s1[k] == s2[k] != NUL
  }

  /** strncmp: 0 exactly when the two C strings agree in their first n bytes, and
      otherwise the difference of the first bytes that differ, as signed chars. */
  method StrNCmp(s1: seq<byte>, s2: seq<byte>, n: nat) returns (r: int)
    requires Readable(s1, n) && Readable(s2, n)
    ensures r == 0 <==> CString(s1, n) == CString(s2, n)
    ensures r != 0 ==> exists i: nat :: DiffersAt(s1, s2, n, i) && r == SignedChar(s1[i]) - SignedChar(s2[i])
  {
    var i := 0;
    assert s1[..|s1|] == s1 && s2[..|s2|] == s2;
    while i < n
      invariant 0 <= i <= n && i <= |s1| && i <= |s2| && s1[..i] == s2[..i] && NUL !in s1[..i]
    {
      if s1[i] != s2[i] || s1[i] == NUL {
        Decide(s1, s2, n, i);
        return SignedChar(s1[i]) - SignedChar(s2[i]);
      }
      i := i + 1;
    }
    CStringIs(s1, n, s1[..n]);
    CStringIs(s2, n, s2[..n]);
    return 0;
  }

  /** The first differing or terminating byte decides the comparison. */
  lemma Decide(s1: seq<byte>, s2: seq<byte>, n: nat, i: nat)
    requires i < n && i < |s1| && i < |s2| && s1[..i] == s2[..i] && NUL !in s1[..i]
    requires s1[i] != s2[i] || s1[i] == NUL
    ensures s1[i] == s2[i] <==> CString(s1, n) == CString(s2, n)
    ensures s1[i] != s2[i] ==> DiffersAt(s1, s2, n, i)
  {
    forall k | 0 <= k < i ensures s1[k] == s2[k] != NUL {
      assert s1[k] == s1[..i][k] == s2[..i][k] == s2[k];
    }
    if s1[i] == s2[i] {
      CStringIs(s1, n, s1[..i]);
      CStringIs(s2, n, s2[..i]);
    } else {
      var c1, c2 := CString(s1, n), CString(s2, n);
      assert forall k :: 0 <= k < i ==> s1[k] == s1[..i][k] != NUL && s2[k] == s2[..i][k] != NUL;
      assert |c1| >= i && |c2| >= i;
      assert |c1| > i ==> c1[i] == s1[i];
      assert |c2| > i ==> c2[i] == s2[i];
    }
  }

  /** The C string cut to n bytes and padded with NULs to n bytes. */
  function Padded(s: seq<byte>, n: nat): (r: seq<byte>)
    ensures |r| == n
  {
    CString(s, n) + Repeat(NUL, n - |CString(s, n)|)
  }

  /** strncpy, with `at` as the address of the destination. */
  method StrNCpy(dest: array<byte>, at: nat, src: seq<byte>, n: nat)
    requires at + n <= dest.Length && Readable(src, n)
    modifies dest
    ensures dest[..] == Overlay(old(dest[..]), at, Padded(src, n))
  {
    var i := 0;
    assert src[..|src|] == src;
    while i < n && src[i] != NUL
      invariant 0 <= i <= n && i <= |src| && NUL !in src[..i]
      invariant i < n ==> i < |src|
      invariant forall k :: 0 <= k < dest.Length ==> dest[k] == if at <= k < at + i then src[k - at] else old(dest[k])
    {
      dest[at + i] := src[i];
      i := i + 1;
    }
    CStringIs(src, n, src[..i]);
    ghost var c := |CString(src, n)|;
    while i < n
      invariant c <= i <= n
      invariant forall k :: 0 <= k < dest.Length ==>
                  dest[k] == if at <= k < at + c then src[k - at] else if at <= k < at + i then NUL else old(dest[k])
    {
      dest[at + i] := NUL;
      i := i + 1;
    }
  }

  /** strlen. */
  method StrLen(s: seq<byte>) returns (len: nat)
    requires NUL in s
    ensures len == |CString(s, |s|)| && len < |s|
  {
    len := 0;
    assert s[..|s|] == s;
    while s[len] != NUL
      invariant len < |s| && NUL !in s[..len]
      decreases |s| - len
    {
      len := len + 1;
    }
    CStringIs(s, |s|, s[..len]);
  }
}
