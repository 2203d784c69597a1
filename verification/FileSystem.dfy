/** The read-only file system image and the calls that read it
    (student-distrib/file_sys.c). */
module FileSystem {
  import opened Bytes
  import opened Helpers
  import opened Memory

  const BLOCK: nat := 4096
  const NAME: nat := 32
  const FILES: nat := 62
  /** Block numbers held by one inode block. */
  const INODE_BLOCKS: nat := 1023

  datatype Dentry = Dentry(name: seq<byte>, fileType: nat, inode: nat) {
    /** The file name: the bytes before a NUL, at most 32. */
    function FileName(): seq<byte> {
      CString(name, NAME)
    }
  }

  datatype Inode = Inode(length: nat, block: seq<nat>)

  datatype Image = Image(dirEntries: nat, dirDentry: Dentry, dentry: seq<Dentry>,
                         inode: seq<Inode>, data: seq<seq<byte>>) {
    /** Arrays have the sizes of the on-disk structures and block numbers name
        blocks that exist. */
    predicate Valid() {
      && |dentry| == FILES && dirEntries <= FILES + 1 && |dirDentry.name| == NAME
      && (forall i :: 0 <= i < FILES ==> |dentry[i].name| == NAME)
      && (forall i :: 0 <= i < |inode| ==> ValidInode(inode[i]))
      && (forall b :: 0 <= b < |data| ==> |data[b]| == BLOCK)
    }

    predicate ValidInode(n: Inode) {
      && |n.block| == INODE_BLOCKS && n.length <= INODE_BLOCKS * BLOCK
      && forall k :: 0 <= k < INODE_BLOCKS ==> n.block[k] < |data|
    }

    /** Byte k of the blocks of an inode, whatever the file's length. */
    function RawByte(i: nat, k: nat): byte
      requires Valid() && i < |inode| && k < INODE_BLOCKS * BLOCK
    {
      data[inode[i].block[k / BLOCK]][k % BLOCK]
    }

    function Raw(i: nat, from: nat, n: nat): (r: seq<byte>)
      requires Valid() && i < |inode| && from + n <= INODE_BLOCKS * BLOCK
      ensures |r| == n
    {
      seq<byte>(n, k requires 0 <= k < n => RawByte(i, from + k))
    }

    /** The flat contents of a file. */
    function FileBytes(i: nat): (r: seq<byte>)
      requires Valid() && i < |inode|
      ensures |r| == inode[i].length
    {
      Raw(i, 0, inode[i].length)
    }

    /** Number of blocks of an inode that read_data accepts: it stops at block
        index 1022 and at an index not below the number of data blocks. */
    function Limit(): nat {
      if |data| <= INODE_BLOCKS - 1 then |data| else INODE_BLOCKS - 1
    }

    /** How many bytes read_data delivers. The length of the file only decides
        whether anything is read; the one byte past the limit is there because
        the block index is tested before it advances. */
    function ReadCount(i: nat, offset: nat, length: nat): (n: nat)
      requires Valid() && i < |inode|
      ensures n <= length
      ensures n > 0 ==> offset + n <= INODE_BLOCKS * BLOCK
    {
      if offset >= inode[i].length || offset / BLOCK >= Limit() then 0
      else if offset + length <= BLOCK * Limit() + 1 then length
      else BLOCK * Limit() + 1 - offset
    }

    function ReadBytes(i: nat, offset: nat, length: nat): (r: seq<byte>)
      requires Valid() && i < |inode|
      ensures |r| == ReadCount(i, offset, length)
    {
      var n := ReadCount(i, offset, length);
      if n == 0 then [] else Raw(i, offset, n)
    }
  }

  /** read_data, for every inode number, offset and length: -1 for an invalid
      inode or a null buffer, otherwise the number of bytes stored at `at`. */
  method ReadData(img: Image, inode: nat, offset: nat, buf: array?<byte>, at: nat, length: nat)
    returns (r: int)
    requires img.Valid() && (buf != null ==> at + length <= buf.Length)
    modifies buf
    ensures r == -1 <==> inode >= |img.inode| || buf == null
    ensures r == -1 && buf != null ==> buf[..] == old(buf[..])
    ensures r != -1 ==> r == img.ReadCount(inode, offset, length)
    ensures r != -1 ==> buf[..] == Overlay(old(buf[..]), at, img.ReadBytes(inode, offset, length))
  {
    if inode >= |img.inode| || buf == null {
      return -1;
    }
    var blockIndex := offset / BLOCK;
    if offset >= img.inode[inode].length {
      assert buf[..] == Overlay(old(buf[..]), at, []);
      return 0;
    }
    r := ReadBlocks(img, inode, offset, buf, at, length, blockIndex);
  }

  /** Where the copy loop of read_data stands after `done` bytes. */
  predicate AtByte(offset: nat, done: nat, blockIndex: nat, off: nat) {
    && BLOCK * blockIndex + off == offset + done
    && off <= BLOCK && (off == BLOCK ==> done > 0) && (off == 0 ==> done == 0)
  }

  /** The copy loop of read_data. */
  method ReadBlocks(img: Image, inode: nat, offset: nat, buf: array<byte>, at: nat, length: nat, first: nat)
    returns (counter: nat)
    requires img.Valid() && inode < |img.inode| && offset < img.inode[inode].length
    requires at + length <= buf.Length && first == offset / BLOCK
    modifies buf
    ensures counter == img.ReadCount(inode, offset, length)
    ensures buf[..] == Overlay(old(buf[..]), at, img.ReadBytes(inode, offset, length))
  {
    ghost var m := buf[..];
    var blockIndex: nat, off: nat := first, offset - first * BLOCK;
    var cur := img.data[img.inode[inode].block[blockIndex]];
    counter := 0;
    while counter < length && blockIndex != INODE_BLOCKS - 1 && blockIndex < |img.data|
      invariant counter <= length && blockIndex <= INODE_BLOCKS - 1 && AtByte(offset, counter, blockIndex, off)
      invariant counter == 0 ==> blockIndex == offset / BLOCK
      invariant cur == img.data[img.inode[inode].block[blockIndex]]
      invariant offset + counter <= INODE_BLOCKS * BLOCK
      invariant counter > 0 ==> offset / BLOCK < img.Limit()
      invariant counter > 0 ==> blockIndex < img.Limit() || (blockIndex == img.Limit() && off == 1)
      invariant buf[..] == Overlay(m, at, img.Raw(inode, offset, counter))
      decreases length - counter
    {
      if off == BLOCK {
        off := 0;
        blockIndex := blockIndex + 1;
        cur := img.data[img.inode[inode].block[blockIndex]];
      }
      NextRawByte(img, inode, offset, counter, blockIndex, off);
      OverlayJoin(m, at, img.Raw(inode, offset, counter), [cur[off]]);
      buf[at + counter] := cur[off];
      counter := counter + 1;
      off := off + 1;
    }
    CountIs(img, inode, offset, length, counter, blockIndex, off);
  }

  lemma NextRawByte(img: Image, i: nat, offset: nat, n: nat, blockIndex: nat, off: nat)
    requires img.Valid() && i < |img.inode| && blockIndex < INODE_BLOCKS && off < BLOCK
    requires BLOCK * blockIndex + off == offset + n
    ensures img.Raw(i, offset, n + 1) == img.Raw(i, offset, n) + [img.data[img.inode[i].block[blockIndex]][off]]
  {
    BlockOf(blockIndex, off);
    assert img.RawByte(i, offset + n) == img.data[img.inode[i].block[blockIndex]][off];
  }

  lemma BlockOf(b: nat, off: nat)
    requires off < BLOCK
    ensures (BLOCK * b + off) / BLOCK == b && (BLOCK * b + off) % BLOCK == off
  {
  }

  /** Why the loop stops tells how many bytes it has read. */
  lemma CountIs(img: Image, i: nat, offset: nat, length: nat, n: nat, blockIndex: nat, off: nat)
    requires img.Valid() && i < |img.inode| && offset < img.inode[i].length
    requires AtByte(offset, n, blockIndex, off) && n <= length
    requires n == 0 ==> blockIndex == offset / BLOCK
    requires n > 0 ==> offset / BLOCK < img.Limit()
    requires n > 0 ==> blockIndex < img.Limit() || (blockIndex == img.Limit() && off == 1)
    requires n == length || blockIndex >= img.Limit()
    ensures n == img.ReadCount(i, offset, length)
  {
  }

  /** The file lies in blocks that read_data accepts. */
  predicate Fits(img: Image, i: nat)
    requires img.Valid() && i < |img.inode|
  {
    img.inode[i].length <= BLOCK * img.Limit()
  }

  /** A read inside a file that fits delivers exactly that slice of its flat
      contents, across any number of blocks. */
  lemma InsideReadIsSlice(img: Image, i: nat, offset: nat, length: nat)
    requires img.Valid() && i < |img.inode| && Fits(img, i) && offset + length <= img.inode[i].length
    ensures img.ReadBytes(i, offset, length) == img.FileBytes(i)[offset..offset + length]
  {
    assert length > 0 ==> offset / BLOCK < img.Limit();
  }

  /** What any read delivers, also across the end of the file: nothing from its end on,
      otherwise all that is asked for, up to one byte behind the blocks that are
      accepted, which are the first 1022 or as many as there are data blocks. */
  lemma ReadCountIs(img: Image, i: nat, offset: nat, n: nat)
    requires img.Valid() && i < |img.inode|
    ensures var most := if |img.data| <= 1022 then 4096 * |img.data| else 4096 * 1022;
            img.ReadCount(i, offset, n) ==
            if offset >= img.inode[i].length || offset >= most then 0
            else if offset + n <= most + 1 then n else most + 1 - offset
    ensures var b := img.ReadBytes(i, offset, n);
            forall k :: 0 <= k < |b| ==> b[k] == img.RawByte(i, offset + k)
  {
  }

  /** Every read inside a file is complete exactly when the file fits. */
  lemma InsideReadsCompleteIffFits(img: Image, i: nat)
    requires img.Valid() && i < |img.inode|
    ensures Fits(img, i) <==> img.inode[i].length <= 4096 * 1022 && img.inode[i].length <= 4096 * |img.data|
    ensures Fits(img, i) <==>
            forall offset: nat, length: nat :: offset + length <= img.inode[i].length ==>
              img.ReadCount(i, offset, length) == length
  {
    if Fits(img, i) {
      forall offset: nat, length: nat | offset + length <= img.inode[i].length
        ensures img.ReadCount(i, offset, length) == length
      {
        InsideReadIsSlice(img, i, offset, length);
      }
    } else {
      assert img.ReadCount(i, BLOCK * img.Limit(), 1) == 0;
    }
  }

  /** The file position after a read: the result is added as an unsigned word. */
  function Advanced(position: nat, count: int): nat {
    if 0 <= position + count < WORD then position + count else (position + count) % WORD
  }

  /** A descriptor that is read again and again: all bytes delivered and the
      final position. */
  function ReadAll(img: Image, i: nat, position: nat, sizes: seq<nat>): (seq<byte>, nat)
    requires img.Valid() && i < |img.inode|
    decreases |sizes|
  {
    if sizes == [] then ([], position)
    else
      var bytes := img.ReadBytes(i, position, sizes[0]);
      var rest := ReadAll(img, i, Advanced(position, |bytes|), sizes[1..]);
      (bytes + rest.0, rest.1)
  }

  function Sum(sizes: seq<nat>): nat {
    if sizes == [] then 0 else sizes[0] + Sum(sizes[1..])
  }

  /** Reads that stay inside the file deliver consecutive pieces: together they
      are the stretch of the file from the first position to the last. */
  lemma ReadsConcatenate(img: Image, i: nat, position: nat, sizes: seq<nat>, last: nat)
    requires img.Valid() && i < |img.inode| && Fits(img, i)
    requires last == position + Sum(sizes) && last <= img.inode[i].length
    ensures ReadAll(img, i, position, sizes) == (img.FileBytes(i)[position..last], last)
  {
    var f := img.FileBytes(i);
    forall offset: nat, length: nat | offset + length <= |f|
      ensures img.ReadBytes(i, offset, length) == f[offset..offset + length]
    {
      InsideReadIsSlice(img, i, offset, length);
    }
    Concatenate(img, i, f, position, sizes, last);
  }

  /** Reads that stay inside f deliver slices of f. */
  ghost predicate DeliversSlices(img: Image, i: nat, f: seq<byte>)
    requires img.Valid() && i < |img.inode|
  {
    |f| < WORD && forall offset: nat, length: nat :: offset + length <= |f| ==>
      img.ReadBytes(i, offset, length) == f[offset..offset + length]
  }

  lemma {:induction false} Concatenate(img: Image, i: nat, f: seq<byte>, position: nat, sizes: seq<nat>, last: nat)
    requires img.Valid() && i < |img.inode| && DeliversSlices(img, i, f) && last == position + Sum(sizes) && last <= |f|
    ensures ReadAll(img, i, position, sizes) == (f[position..last], last)
    decreases |sizes|
  {
    if sizes == [] {
      assert f[position..position] == [];
    } else {
      Concatenate(img, i, f, position + sizes[0], sizes[1..], last);
      ReadAllStep(img, i, position, sizes, f, position + sizes[0], last);
    }
  }

  lemma ReadAllStep(img: Image, i: nat, position: nat, sizes: seq<nat>, f: seq<byte>, next: nat, last: nat)
    requires img.Valid() && i < |img.inode| && sizes != [] && next <= last <= |f| < WORD
    requires next == position + sizes[0] && img.ReadBytes(i, position, sizes[0]) == f[position..next]
    requires ReadAll(img, i, next, sizes[1..]) == (f[next..last], last)
    ensures ReadAll(img, i, position, sizes) == (f[position..last], last)
  {
    assert Advanced(position, |f[position..next]|) == next;
    SlicesJoin(f, position, next, last);
  }

  lemma SlicesJoin(f: seq<byte>, a: nat, b: nat, c: nat)
    requires a <= b <= c <= |f|
    ensures f[a..b] + f[b..c] == f[a..c]
  {
  }

  /** A read that delivers something moves the position forward and began inside
      the file, so reading until 0 ends; at or behind the end every read
      delivers nothing and leaves the position. */
  lemma ReadAdvances(img: Image, i: nat, position: nat, n: nat)
    requires img.Valid() && i < |img.inode| && position < WORD
    ensures var count := img.ReadCount(i, position, n);
            && (count > 0 ==> position < img.inode[i].length && Advanced(position, count) == position + count)
            && (position >= img.inode[i].length ==> count == 0)
            && (count == 0 ==> Advanced(position, count) == position)
  {
  }

  /** read on a descriptor of an ordinary file: file_read, then the position. */
  method FileRead(img: Image, inode: nat, position: nat, buf: array?<byte>, n: nat)
    returns (count: int, position': nat)
    requires img.Valid() && position < WORD && (buf != null ==> n <= buf.Length)
    modifies buf
    ensures count == -1 <==> inode >= |img.inode| || buf == null
    ensures count != -1 ==> count == img.ReadCount(inode, position, n)
    ensures count != -1 ==> buf[..] == Overlay(old(buf[..]), 0, img.ReadBytes(inode, position, n))
    ensures position' == Advanced(position, count)
  {
    count := ReadData(img, inode, position, buf, 0, n);
    position' := (position + count) % WORD;
  }

  const CHUNK: nat := 1024

  function RoundedUp(n: nat): nat {
    (n + CHUNK - 1) / CHUNK * CHUNK
  }

  /** How much of a file cat prints: whole chunks, up to the blocks read_data accepts. */
  function CatSize(img: Image, i: nat): (n: nat)
    requires img.Valid() && i < |img.inode|
    ensures n <= INODE_BLOCKS * BLOCK && n <= BLOCK * img.Limit()
  {
    if Fits(img, i) then RoundedUp(img.inode[i].length) else BLOCK * img.Limit()
  }

  /** The copy loop of cat: it reads 1024 bytes at a time until a read gives 0.
      A read that starts inside the file is not cut at its end, so the output of a
      file that fits is the contents followed by the rest of the last 1024 bytes; of
      any other file it is the contents of the blocks that are accepted. */
  method Cat(img: Image, inode: nat) returns (out: seq<byte>)
    requires img.Valid() && inode < |img.inode|
    ensures out == img.Raw(inode, 0, CatSize(img, inode))
    ensures Fits(img, inode) ==>
              |out| == (img.inode[inode].length + 1023) / 1024 * 1024 && img.FileBytes(inode) <= out
    ensures !Fits(img, inode) ==> |out| == BLOCK * img.Limit() && out <= img.FileBytes(inode)
  {
    var buf := new byte[CHUNK](_ => NUL);
    var position: nat := 0;
    out := [];
    var cnt := CHUNK;
    while cnt != 0
      invariant 0 <= cnt && CatAt(img, inode, position, out)
      invariant position <= CatSize(img, inode) && (cnt == 0 ==> position == CatSize(img, inode))
      decreases CatSize(img, inode) - position + cnt
    {
      ChunkRead(img, inode, position, out);
      cnt, position := FileRead(img, inode, position, buf, CHUNK);
      if cnt != 0 {
        out := out + buf[..cnt];
      }
    }
    CatPrints(img, inode);
  }

  /** cat has printed so many bytes, in whole chunks. */
  predicate CatAt(img: Image, i: nat, position: nat, out: seq<byte>)
    requires img.Valid() && i < |img.inode|
  {
    position % CHUNK == 0 && position <= CatSize(img, i) && out == img.Raw(i, 0, position)
  }

  /** What of the contents is printed. */
  lemma CatPrints(img: Image, i: nat)
    requires img.Valid() && i < |img.inode|
    ensures Fits(img, i) ==> CatSize(img, i) == (img.inode[i].length + 1023) / 1024 * 1024
    ensures Fits(img, i) ==> img.inode[i].length <= CatSize(img, i)
                             && img.FileBytes(i) == img.Raw(i, 0, CatSize(img, i))[..img.inode[i].length]
    ensures !Fits(img, i) ==> CatSize(img, i) <= img.inode[i].length
                              && img.Raw(i, 0, CatSize(img, i)) == img.FileBytes(i)[..CatSize(img, i)]
  {
  }

  /** One read of cat: 0 at the end, else a full chunk inside one block. */
  lemma ChunkRead(img: Image, i: nat, position: nat, out: seq<byte>)
    requires img.Valid() && i < |img.inode| && CatAt(img, i, position, out)
    ensures var count, bytes := img.ReadCount(i, position, CHUNK), img.ReadBytes(i, position, CHUNK);
            && count == (if position < CatSize(img, i) then CHUNK else 0)
            && Advanced(position, count) == position + count <= CatSize(img, i)
            && CatAt(img, i, position + count, if count == 0 then out else out + bytes)
  {
    CatInChunks(img, i, position);
    if position < CatSize(img, i) {
      assert img.Raw(i, 0, position) + img.ReadBytes(i, position, CHUNK) == img.Raw(i, 0, position + CHUNK);
    }
  }

  lemma CatInChunks(img: Image, i: nat, position: nat)
    requires img.Valid() && i < |img.inode| && position % CHUNK == 0 && position <= CatSize(img, i)
    ensures position < CatSize(img, i) <==> position < img.inode[i].length && position < BLOCK * img.Limit()
    ensures position < CatSize(img, i) ==> position + CHUNK <= CatSize(img, i)
  {
  }

  // ---- Directory entries ----

  const DOT: seq<byte> := [PERIOD]

  /** The first entry whose file name is `name`, at index from or later. */
  function FirstNamed(entries: seq<Dentry>, name: seq<byte>, from: nat): (r: Option<Dentry>)
    requires from <= |entries|
    ensures r.Some? ==> r.value.FileName() == name
    ensures r.Some? ==> exists k :: from <= k < |entries| && entries[k] == r.value
                                    && forall i :: from <= i < k ==> entries[i].FileName() != name
    ensures r.None? <==> forall k :: from <= k < |entries| ==> entries[k].FileName() != name
    decreases |entries| - from
  {
    if from == |entries| then None
    else if entries[from].FileName() == name then Some(entries[from])
    else FirstNamed(entries, name, from + 1)
  }

  /** The entry a name denotes: "." is the directory itself. */
  function FindName(img: Image, name: seq<byte>): Option<Dentry>
    requires img.Valid()
  {
    if name == DOT then Some(img.dirDentry) else FirstNamed(img.dentry, name, 0)
  }

  /** read_dentry_by_name: all 62 entries are searched, used or not. */
  method ReadDentryByName(img: Image, fname: seq<byte>) returns (d: Option<Dentry>)
    requires img.Valid() && Readable(fname, NAME + 1)
    ensures d == FindName(img, CString(fname, NAME + 1))
  {
    var dot := StrNCmp(fname, [PERIOD, NUL], NAME);
    DotName(fname);
    if dot == 0 {
      return Some(img.dirDentry);
    }
    for i := 0 to FILES
      invariant FirstNamed(img.dentry, CString(fname, NAME + 1), i)
             == FirstNamed(img.dentry, CString(fname, NAME + 1), 0)
    {
      var same := HasName(img.dentry[i], fname);
      if same {
        return Some(img.dentry[i]);
      }
    }
    return None;
  }

  /** The comparison of one entry: its name is copied out, since a name of 32
      bytes has no terminator in the entry. */
  method HasName(d: Dentry, fname: seq<byte>) returns (same: bool)
    requires |d.name| == NAME && Readable(fname, NAME + 1)
    ensures same <==> d.FileName() == CString(fname, NAME + 1)
  {
    var temp := new byte[NAME + 1](_ => NUL);
    StrNCpy(temp, 0, d.name, NAME);
    temp[NAME] := NUL;
    TerminatedName(d, temp[..]);
    var r := StrNCmp(temp[..], fname, NAME + 1);
    same := r == 0;
  }

  /** Comparing 32 bytes is enough to recognise ".". */
  lemma DotName(fname: seq<byte>)
    requires Readable(fname, NAME + 1)
    ensures CString(fname, NAME) == CString([PERIOD, NUL], NAME) <==> CString(fname, NAME + 1) == DOT
  {
    CStringIs([PERIOD, NUL], NAME, DOT);
    if CString(fname, NAME) == DOT {
      CStringIs(fname, NAME + 1, DOT);
    } else if CString(fname, NAME + 1) == DOT {
      CStringIs(fname, NAME, DOT);
    }
  }

  /** The padded copy of a name, terminated behind 32 bytes, is that name. */
  lemma TerminatedName(d: Dentry, temp: seq<byte>)
    requires |d.name| == NAME && |temp| == NAME + 1 && temp[NAME] == NUL
    requires temp[..NAME] == d.FileName() + Repeat(NUL, NAME - |d.FileName()|)
    ensures CString(temp, NAME + 1) == d.FileName()
  {
    var n := d.FileName();
    assert temp[|n|] == if |n| == NAME then NUL else temp[..NAME][|n|];
    assert n == temp[..NAME][..|n|] == temp[..|n|];
    CStringIs(temp, NAME + 1, n);
  }

  /** read_dentry_by_index: 0 is the directory itself; with distinct names the entry
      is the one its name denotes. */
  method ReadDentryByIndex(img: Image, index: nat) returns (d: Option<Dentry>)
    requires img.Valid()
    ensures d == EntryAt(img, index) && (d.Some? <==> index < img.dirEntries)
    ensures DistinctNames(img) && d.Some? ==> FindName(img, d.value.FileName()) == d
  {
    if DistinctNames(img) && index < img.dirEntries {
      LookupOfIndexed(img, index);
    }
    if index >= img.dirEntries {
      return None;
    }
    if index == 0 {
      return Some(img.dirDentry);
    }
    return Some(img.dentry[index - 1]);
  }

  function EntryAt(img: Image, index: nat): Option<Dentry>
    requires img.Valid()
  {
    if index >= img.dirEntries then None
    else if index == 0 then Some(img.dirDentry) else Some(img.dentry[index - 1])
  }

  /** The entries in use have different names, and only the directory is ".". */
  ghost predicate DistinctNames(img: Image)
    requires img.Valid()
  {
    && img.dirDentry.FileName() == DOT
    && (forall k :: 0 <= k < img.dirEntries - 1 ==> img.dentry[k].FileName() != DOT && img.dentry[k].FileName() != [])
    && (forall j, k :: 0 <= j < k < img.dirEntries - 1 ==> img.dentry[j].FileName() != img.dentry[k].FileName())
  }

  /** Looking up, by its name, the entry found by an index gives that entry. */
  lemma LookupOfIndexed(img: Image, index: nat)
    requires img.Valid() && DistinctNames(img) && index < img.dirEntries
    ensures var e := EntryAt(img, index).value; FindName(img, e.FileName()) == Some(e)
  {
    if index > 0 {
      FirstIs(img.dentry, 0, index - 1);
    }
  }

  lemma {:induction false} FirstIs(entries: seq<Dentry>, from: nat, k: nat)
    requires from <= k < |entries|
    requires forall j :: from <= j < k ==> entries[j].FileName() != entries[k].FileName()
    ensures FirstNamed(entries, entries[k].FileName(), from) == Some(entries[k])
    decreases k - from
  {
    if from < k {
      FirstIs(entries, from + 1, k);
    }
  }

  /** directory_index after a dir_read: it wraps to -1 at the end. */
  function NextIndex(dirEntries: nat, index: int): int {
    if index >= dirEntries - 1 then -1 else index + 1
  }

  /** The name a dir_read delivers; at the end nothing. */
  function NameRead(img: Image, index: int): (name: Option<seq<byte>>)
    requires img.Valid() && -1 <= index
  {
    if index >= img.dirEntries - 1 then None
    else if index == -1 then Some(DOT) else Some(img.dentry[index].FileName())
  }

  /** The bytes a dir_read stores: "." and its terminator, or a name padded to 32
      bytes and a terminator; at the end nothing. */
  function DirBytes(img: Image, index: int): (r: seq<byte>)
    requires img.Valid() && -1 <= index
    ensures |r| <= NAME + 1
  {
    if index >= img.dirEntries - 1 then []
    else if index == -1 then [PERIOD, NUL] else Padded(img.dentry[index].name, NAME) + [NUL]
  }

  /** What it returns: the length of the name, 0 at the end. */
  function DirValue(img: Image, index: int): nat
    requires img.Valid() && -1 <= index
  {
    var name := NameRead(img, index);
    if name.None? then 0 else |name.value|
  }

  /** The stored bytes are the name as a C string. */
  lemma DirBytesHoldName(img: Image, index: int)
    requires img.Valid() && -1 <= index && NameRead(img, index).Some?
    ensures var b := DirBytes(img, index); CString(b, |b|) == NameRead(img, index).value && NUL in b
  {
    var b := DirBytes(img, index);
    if index == -1 {
      assert b[1] == NUL;
      CStringIs(b, |b|, DOT);
    } else {
      assert b[..NAME] == Padded(img.dentry[index].name, NAME) && b[NAME] == NUL;
      TerminatedName(img.dentry[index], b);
    }
  }

  /** The directory cursor, which the kernel shares among all descriptors. */
  class Directory {
    var index: int

    constructor ()
      ensures index == -1
    {
      index := -1;
    }

    /** dir_read, with `at` as the address of the buffer: the next name,
        NUL-terminated, whatever the requested size. */
    method DirRead(img: Image, buf: array?<byte>, at: nat) returns (r: int)
      requires img.Valid() && -1 <= index && (buf != null ==> at + |DirBytes(img, index)| <= buf.Length)
      modifies this, buf
      ensures index >= -1
      ensures buf == null ==> r == -1 && index == old(index)
      ensures buf != null ==> index == NextIndex(img.dirEntries, old(index)) && r == DirValue(img, old(index))
      ensures buf != null ==> buf[..] == Overlay(old(buf[..]), at, DirBytes(img, old(index)))
      ensures buf != null && old(index) < img.dirEntries - 1 ==>
                NUL in buf[at..] && r == |CString(buf[at..], buf.Length - at)|
      ensures buf != null && old(index) >= img.dirEntries - 1 ==> r == 0 && buf[..] == old(buf[..])
    {
      if buf == null {
        return -1;
      }
      if index >= img.dirEntries - 1 {
        index := -1;
        assert buf[..] == Overlay(old(buf[..]), at, []);
        return 0;
      }
      ghost var bytes := DirBytes(img, index);
      DirBytesHoldName(img, index);
      StringStoredAt(buf[..], at, bytes);
      StoreName(img, buf, at);
      index := index + 1;
      r := StrLen(buf[at..]);
    }

    /** The entry the cursor stands for, with its terminator. */
    method StoreName(img: Image, buf: array<byte>, at: nat)
      requires img.Valid() && -1 <= index < img.dirEntries - 1 && at + |DirBytes(img, index)| <= buf.Length
      modifies buf
      ensures buf[..] == Overlay(old(buf[..]), at, DirBytes(img, index))
    {
      if index == -1 {
        buf[at], buf[at + 1] := PERIOD, NUL;
      } else {
        StrNCpy(buf, at, img.dentry[index].name, NAME);
        buf[at + NAME] := NUL;
      }
    }
  }

  /** A string laid into memory reads the same from its address on. */
  lemma StringStoredAt(m: seq<byte>, at: nat, b: seq<byte>)
    requires at + |b| <= |m| && NUL in b
    ensures var now := Overlay(m, at, b)[at..]; CString(now, |now|) == CString(b, |b|) && NUL in now
  {
    var now, c := Overlay(m, at, b)[at..], CString(b, |b|);
    assert now[..|b|] == b;
    assert |c| < |b| by {
      assert b[..|b|] == b;
    }
    assert now[|c|] == b[|c|] == NUL && now[..|c|] == b[..|c|];
    CStringIs(now, |now|, c);
  }

  /** directory_index before call number k, counting from 0. */
  function IndexAfter(dirEntries: nat, k: nat): (index: int)
    ensures index >= -1
  {
    if k == 0 then -1 else NextIndex(dirEntries, IndexAfter(dirEntries, k - 1))
  }

  lemma {:induction false} IndexCycles(n: nat, k: nat)
    ensures IndexAfter(n, k) == k % (n + 1) - 1
  {
    if k > 0 {
      IndexCycles(n, k - 1);
      NextMod(k - 1, n + 1);
    }
  }

  /** dir_read cycles: with n entries in use, call number k delivers entry
      k mod (n + 1) in index order, and nothing on every (n + 1)-th call. It stores
      the name as a C string and returns its length. */
  lemma ListingCycles(img: Image, k: nat, j: nat)
    requires img.Valid() && img.dirDentry.FileName() == DOT
    requires j == k % (img.dirEntries + 1)
    ensures var index := IndexAfter(img.dirEntries, k);
            var b, r := DirBytes(img, index), DirValue(img, index);
            if j == img.dirEntries then NameRead(img, index) == None && b == [] && r == 0
            else
              var name := if j == 0 then DOT else img.dentry[j - 1].FileName();
              && NameRead(img, index) == Some(name) && EntryAt(img, j).value.FileName() == name
              && r == |name| < |b| <= NAME + 1 && b[..r] == name && b[r] == NUL
  {
    IndexCycles(img.dirEntries, k);
    if j != img.dirEntries {
      StoredName(img, IndexAfter(img.dirEntries, k));
    }
  }

  lemma StoredName(img: Image, index: int)
    requires img.Valid() && -1 <= index < img.dirEntries - 1
    ensures var b, name := DirBytes(img, index), NameRead(img, index).value;
            |name| < |b| && b[..|name|] == name && b[|name|] == NUL
  {
    DirBytesHoldName(img, index);
    var b := DirBytes(img, index);
    assert b[..|b|] == b;
  }

  const MAGIC: seq<byte> := [0x7F, 0x45, 0x4C, 0x46]

  /** isExe: the file exists and its first four bytes are the ELF magic. */
  predicate Executable(img: Image, name: seq<byte>)
    requires img.Valid()
  {
    var d := FindName(img, name);
    && d.Some? && d.value.inode < |img.inode|
    && img.ReadBytes(d.value.inode, 0, 4) == MAGIC
  }

  /** A name can be executed if and only if it is in the directory with an inode that
      exists, and the file is not empty and begins with 0x7F, "ELF". What lies behind
      the end of a shorter file counts too. */
  lemma ExecutableIff(img: Image, name: seq<byte>)
    requires img.Valid()
    ensures var d := FindName(img, name);
            Executable(img, name) <==>
            && d.Some? && d.value.inode < |img.inode| && img.inode[d.value.inode].length > 0 && |img.data| > 0
            && img.Raw(d.value.inode, 0, 4) == [0x7F, 0x45, 0x4C, 0x46]
    ensures var d := FindName(img, name);
            d.Some? && d.value.inode < |img.inode| && img.inode[d.value.inode].length >= 4 && |img.data| > 0 ==>
              (Executable(img, name) <==> img.FileBytes(d.value.inode)[..4] == [0x7F, 0x45, 0x4C, 0x46])
  {
    var d := FindName(img, name);
    if d.Some? && d.value.inode < |img.inode| && img.inode[d.value.inode].length >= 4 {
      assert img.FileBytes(d.value.inode)[..4] == img.Raw(d.value.inode, 0, 4);
    }
  }

  method IsExe(img: Image, fname: seq<byte>) returns (ok: bool)
    requires img.Valid() && Readable(fname, NAME + 1)
    ensures ok == Executable(img, CString(fname, NAME + 1))
  {
    var d := ReadDentryByName(img, fname);
    if d.None? {
      return false;
    }
    var buf := new byte[8](_ => NUL);
    var r := ReadData(img, d.value.inode, 0, buf, 0, 4);
    var cmp := StrNCmp(buf[..4], MAGIC, 4);
    MagicDecides(buf[..4]);
    ok := cmp == 0;
    if r != -1 {
      ghost var b := img.ReadBytes(d.value.inode, 0, 4);
      assert buf[..4] == b + Repeat(NUL, 4 - |b|);
    }
  }

  lemma MagicDecides(b: seq<byte>)
    requires |b| == 4
    ensures CString(b, 4) == CString(MAGIC, 4) <==> b == MAGIC
  {
    CStringIs(MAGIC, 4, MAGIC);
    assert b[..4] == b;
  }
}
