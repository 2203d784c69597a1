/** What each system call answers and leaves, told by the caller's open files and its
    memory (student-distrib/system_call.c). */
module Calls {
  import opened Bytes
  import opened FileSystem
  import opened Helpers
  import opened Commands
  import opened Processes
  import Chains
  import opened Jobs
  import opened System
  import opened Local
  import opened Refinement
  import opened Runs
  import opened Theorems
  import opened Isolation
  import opened Listing
  import opened Reading
  import PM = PrivateMachine
  import Console
  import Memory
  import Screens

  /** The open files of the running program. */
  function OwnFiles(s: System): seq<Option<OpenFile>>
    requires s.Sized()
  {
    var v := View(s.procs, s.procs.sched);
    if v == [] then [] else v[0].files
  }

  /** A step that leaves everything but one file of the running program. */
  ghost predicate OnlyFile(s: System, s': System, i: nat, f: Option<OpenFile>)
    requires s.Sized() && s'.Sized()
  {
    var v := View(s.procs, s.procs.sched);
    && s' == s.(procs := s'.procs) && v != [] && |v[0].files| == DESCRIPTORS && i < DESCRIPTORS
    && View(s'.procs, s.procs.sched) == v[0 := v[0].(files := v[0].files[i := f])]
    && s'.procs.sched == s.procs.sched
  }

  lemma OwnFilesAre(s: System)
    requires Good(s) && s.procs.Current().Some?
    ensures Ready(s) && Alive(s.procs) && OwnFiles(s) == Files(s.procs.pcb[s.procs.Current().value].fd)
    ensures |OwnFiles(s)| == DESCRIPTORS
  {
    GoodIsReady(s);
    RunningJob(s);
  }

  lemma FileSet(s: System, i: nat, d: Descriptor)
    requires Good(s) && s.procs.Current().Some? && i < DESCRIPTORS
    ensures OnlyFile(s, s.(procs := SetFd(s.procs, i, d)), i, FileOf(d))
  {
    SetFdIsLocal(s.procs, Chains.ChainsOf(s.procs), i, d, s.procs.sched);
  }

  // ---- open and close ----

  /** The file that open makes of a directory entry: an ordinary file with its inode, the
      directory or the RTC, each at position 0. */
  function FileFor(d: Dentry): Option<OpenFile> {
    match d.fileType
    case 0 => Some(OpenFile(RtcOps, 0, 0))
    case 1 => Some(OpenFile(DirOps, 0, 0))
    case 2 => Some(OpenFile(FileOps, d.inode, 0))
    case _ => None
  }

  /** No descriptor from 2 on is free. */
  predicate NoneFree(files: seq<Option<OpenFile>>) {
    forall i :: 2 <= i < |files| ==> files[i].Some?
  }

  /** What open answers: -1, and nothing has changed, exactly for an empty or unknown
      name, an unknown type, or no free descriptor; otherwise the lowest free descriptor
      from 2 on, which is now open on that entry. */
  ghost predicate Opens(img: Image, s: System, name: seq<byte>, s': System, r: Reply)
    requires img.Valid() && s.Sized() && s'.Sized()
  {
    var files, d := OwnFiles(s), FindName(img, name);
    if name == [] || d.None? || d.value.fileType > 2 || NoneFree(files) then s' == s && r == Result(-1)
    else
      && r.Result? && 2 <= r.value < |files| && files[r.value].None?
      && (forall i :: 2 <= i < r.value ==> files[i].Some?)
      && OnlyFile(s, s', r.value, FileFor(d.value))
  }

  lemma OpenGives(img: Image, s: System, name: seq<byte>)
    requires Bootable(img) && Good(s) && Ready(s) && s.procs.Current().Some?
    ensures Opens(img, s, name, Step(img, s, Open(name)).0, Step(img, s, Open(name)).1)
  {
    OwnFilesAre(s);
    StepIsOpen(img, s, name);
    if name != [] && FindName(img, name).Some? {
      OpenEntryGives(s, FindName(img, name).value);
    }
  }

  lemma StepIsOpen(img: Image, s: System, name: seq<byte>)
    requires Bootable(img) && Ready(s) && Alive(s.procs)
    ensures Step(img, s, Open(name)) == OpenNow(img, s, name)
  {
  }

  lemma OpenEntryGives(s: System, d: Dentry)
    requires Good(s) && s.procs.Current().Some?
    ensures var (p, r) := OpenEntry(s.procs, d); var files := OwnFiles(s);
            if d.fileType > 2 || NoneFree(files) then p == s.procs && r == -1
            else
              && 2 <= r < |files| && files[r].None? && (forall i :: 2 <= i < r ==> files[i].Some?)
              && OnlyFile(s, s.(procs := p), r, FileFor(d))
  {
    OwnFilesAre(s);
    var fd := s.procs.pcb[s.procs.Current().value].fd;
    FreeIs(fd);
    if FreeFd(fd, 2) != -1 && Opened(d).Some? {
      FileSet(s, FreeFd(fd, 2), Opened(d).value);
    }
  }

  lemma FreeIs(fd: seq<Descriptor>)
    requires |fd| == DESCRIPTORS
    ensures var i, files := FreeFd(fd, 2), Files(fd);
            && (i == -1 <==> NoneFree(files))
            && (i != -1 ==> 2 <= i < |files| && files[i].None? && forall k :: 2 <= k < i ==> files[k].Some?)
  {
    var i, files := FreeFd(fd, 2), Files(fd);
    if i == -1 {
      forall k | 2 <= k < |files| ensures files[k].Some? {
        assert fd[k].flags != 0;
      }
    } else {
      assert files[i] == FileOf(fd[i]);
    }
  }

  /** What close answers: 0, and the descriptor is free, exactly for one from 2 to 7 that
      is open; otherwise -1, and nothing has changed. */
  ghost predicate Closes(s: System, fd: int, s': System, r: Reply)
    requires s.Sized() && s'.Sized()
  {
    var files := OwnFiles(s);
    if 2 <= fd < |files| && files[fd].Some? then r == Result(0) && OnlyFile(s, s', fd, None)
    else s' == s && r == Result(-1)
  }

  lemma CloseGives(img: Image, s: System, fd: int)
    requires Bootable(img) && Good(s) && Ready(s) && s.procs.Current().Some?
    ensures Closes(s, fd, Step(img, s, Close(fd)).0, Step(img, s, Close(fd)).1)
  {
    OwnFilesAre(s);
    StepIsClose(img, s, fd);
    if 2 <= fd < DESCRIPTORS {
      FileSet(s, fd, Closed(s.procs.pcb[s.procs.Current().value].fd[fd]));
    }
  }

  lemma StepIsClose(img: Image, s: System, fd: int)
    requires Bootable(img) && Ready(s) && Alive(s.procs)
    ensures Step(img, s, Close(fd)) == CloseNow(s, fd)
  {
  }

  // ---- read, getargs and the program's own stores ----

  /** The bytes stand at a virtual address of the running program, and the rest of its
      frame is as before. */
  predicate Leaves(s: System, s': System, buf: nat, bytes: seq<byte>)
    requires s.Sized() && s'.Sized()
  {
    && s.procs.Current().Some? && s'.procs.Current() == s.procs.Current() && Reading.Holds(s', buf, bytes)
    && forall k :: 0 <= k < FOUR_MB && !(buf - USER_PAGE <= k < buf - USER_PAGE + |bytes|) ==>
         FrameOf(s'.user, s.procs.Current().value)[k] == FrameOf(s.user, s.procs.Current().value)[k]
  }

  lemma StoredLeaves(s: System, s': System, buf: nat, bytes: seq<byte>)
    requires s.Sized() && s'.Sized() && Alive(s.procs) && InPage(buf, |bytes|)
    requires s'.user == Stored(s, buf, bytes) && s'.procs.Current() == s.procs.Current()
    ensures Leaves(s, s', buf, bytes)
  {
    StoredHolds(s, buf, bytes);
    forall k | 0 <= k < FOUR_MB && !(buf - USER_PAGE <= k < buf - USER_PAGE + |bytes|)
      ensures FrameOf(s'.user, s.procs.Current().value)[k] == FrameOf(s.user, s.procs.Current().value)[k]
    {
      StoredInside(s, buf, bytes, k);
    }
  }

  /** A store of the program to its page leaves the bytes there and nothing else. */
  lemma StoreGives(img: Image, s: System, buf: nat, bytes: seq<byte>)
    requires Bootable(img) && Good(s) && Ready(s) && s.procs.Current().Some?
    ensures var (s', r) := Step(img, s, Store(buf, bytes));
            if 0x800_0000 <= buf && buf + |bytes| <= 0x840_0000
            then r == Result(0) && s' == s.(user := s'.user) && Leaves(s, s', buf, bytes)
            else r == Fault && s' == s
  {
    OwnFilesAre(s);
    StepIsStore(img, s, buf, bytes);
    if InPage(buf, |bytes|) {
      StoredLeaves(s, StoreNow(s, buf, bytes).0, buf, bytes);
    }
  }

  lemma StepIsStore(img: Image, s: System, buf: nat, bytes: seq<byte>)
    requires Bootable(img) && Ready(s) && Alive(s.procs)
    ensures Step(img, s, Store(buf, bytes)) == StoreNow(s, buf, bytes)
  {
  }

  /** What a file delivers to a read of n bytes: value and bytes. */
  function Content(img: Image, s: System, f: OpenFile, n: nat, device: Delivery): Delivery
    requires img.Valid() && s.Sized()
  {
    match f.ops
    case FileOps =>
      if f.inode >= |img.inode| then Delivery(-1, [])
      else var bytes := img.ReadBytes(f.inode, f.position, n); Delivery(|bytes|, bytes)
    case DirOps =>
      var name := NameRead(img, s.cursor);
      Delivery(if name.None? then 0 else |name.value|, DirBytes(img, s.cursor))
    case StdoutOps => Delivery(-1, [])
    case _ => device
  }

  /** A read is refused, and nothing has changed, exactly for a bad size, descriptor or
      buffer or a descriptor that is not open. */
  predicate CanRead(s: System, fd: int, buf: nat, n: int)
    requires s.Sized()
  {
    n >= 0 && 0 <= fd < |OwnFiles(s)| && buf != 0 && OwnFiles(s)[fd].Some?
  }

  /** What read answers: what the file delivers is in the program's frame, the value is
      returned, and the position moves by it as an unsigned word. */
  ghost predicate ReadsFrom(img: Image, s: System, fd: nat, buf: nat, n: nat, device: Delivery, s': System, r: Reply)
    requires img.Valid() && s.Sized() && s'.Sized() && fd < |OwnFiles(s)| && OwnFiles(s)[fd].Some?
  {
    var f := OwnFiles(s)[fd].value;
    var got := Content(img, s, f, n, device);
    if 0x800_0000 <= buf && buf + n <= 0x840_0000 && buf + |got.bytes| <= 0x840_0000 then
      && r == Result(got.value) && Leaves(s, s', buf, got.bytes)
      && s' == s.(procs := s'.procs, user := s'.user, cursor := s'.cursor)
      && OnlyFile(s, s.(procs := s'.procs), fd, Some(f.(position := (f.position + got.value) % 0x1_0000_0000)))
    else r == Fault && s' == s
  }

  lemma ReadGives(img: Image, s: System, fd: int, buf: nat, n: int, device: Delivery)
    requires Bootable(img) && Good(s) && Ready(s) && s.procs.Current().Some?
    ensures var (s', r) := Step(img, s, Read(fd, buf, n, device));
            if CanRead(s, fd, buf, n) then ReadsFrom(img, s, fd, buf, n, device, s', r)
            else s' == s && r == Result(-1)
  {
    OwnFilesAre(s);
    StepIsRead(img, s, fd, buf, n, device);
    if CanRead(s, fd, buf, n) {
      OpenRead(img, s, fd, buf, n, device);
    }
  }

  lemma OpenRead(img: Image, s: System, fd: nat, buf: nat, n: nat, device: Delivery)
    requires Bootable(img) && Good(s) && s.procs.Current().Some? && Alive(s.procs) && CanRead(s, fd, buf, n)
    ensures var (s', r) := ReadNow(img, s, fd, buf, n, device); ReadsFrom(img, s, fd, buf, n, device, s', r)
  {
    OwnFilesAre(s);
    var d := CurrentFd(s.procs, fd);
    var f := OwnFiles(s)[fd].value;
    var got := Content(img, s, f, n, device);
    assert FileOf(d) == Some(f);
    DeliversContent(img, s, d, f, n, device);
    ReadNowIs(img, s, fd, buf, n, device, got);
    if Reaches(buf, n, got) {
      AdvancedIs(f.position, got.value);
      var position := (f.position + got.value) % 0x1_0000_0000;
      ReachedRead(s, ReadNow(img, s, fd, buf, n, device).0, fd, d.(position := position), f.(position := position),
                  buf, got.bytes, CursorBehind(img, d, s.cursor));
    }
    Answered(img, s, fd, buf, n, device, ReadNow(img, s, fd, buf, n, device).0, ReadNow(img, s, fd, buf, n, device).1);
  }

  lemma Answered(img: Image, s: System, fd: nat, buf: nat, n: nat, device: Delivery, s': System, r: Reply)
    requires img.Valid() && s.Sized() && s'.Sized() && fd < |OwnFiles(s)| && OwnFiles(s)[fd].Some?
    requires var f := OwnFiles(s)[fd].value;
             var got := Content(img, s, f, n, device);
             if Reaches(buf, n, got) then
               && r == Result(got.value) && Leaves(s, s', buf, got.bytes)
               && s' == s.(procs := s'.procs, user := s'.user, cursor := s'.cursor)
               && OnlyFile(s, s.(procs := s'.procs), fd,
                           Some(f.(position := (f.position + got.value) % 0x1_0000_0000)))
             else r == Fault && s' == s
    ensures ReadsFrom(img, s, fd, buf, n, device, s', r)
  {
  }

  /** A read that reaches its buffer. */
  lemma ReachedRead(s: System, s': System, fd: nat, d: Descriptor, f: OpenFile, buf: nat, bytes: seq<byte>, cursor: int)
    requires Good(s) && s.procs.Current().Some? && Alive(s.procs) && fd < DESCRIPTORS && InPage(buf, |bytes|)
    requires cursor >= -1 && FileOf(d) == Some(f)
    requires s' == s.(procs := SetFd(s.procs, fd, d), user := Stored(s, buf, bytes), cursor := cursor)
    ensures s'.Sized() && s' == s.(procs := s'.procs, user := s'.user, cursor := s'.cursor)
    ensures Leaves(s, s', buf, bytes) && OnlyFile(s, s.(procs := s'.procs), fd, Some(f))
  {
    FileSet(s, fd, d);
    StoredLeaves(s, s', buf, bytes);
  }

  lemma ReadNowIs(img: Image, s: System, fd: nat, buf: nat, n: nat, device: Delivery, got: Delivery)
    requires img.Valid() && s.Sized() && Alive(s.procs) && fd < DESCRIPTORS && !ReadRefused(s.procs, fd, buf, n)
    requires got == Delivered(img, CurrentFd(s.procs, fd), n, device, s.cursor)
    ensures var d := CurrentFd(s.procs, fd);
            ReadNow(img, s, fd, buf, n, device) ==
            if !Reaches(buf, n, got) then (s, Fault)
            else
              (s.(procs := SetFd(s.procs, fd, d.(position := Advanced(d.position, got.value))),
                  user := Stored(s, buf, got.bytes), cursor := CursorBehind(img, d, s.cursor)), Result(got.value))
  {
  }

  lemma DeliversContent(img: Image, s: System, d: Descriptor, f: OpenFile, n: nat, device: Delivery)
    requires img.Valid() && s.Sized() && FileOf(d) == Some(f)
    ensures Delivered(img, d, n, device, s.cursor) == Content(img, s, f, n, device)
  {
  }

  lemma AdvancedIs(position: nat, count: int)
    ensures Advanced(position, count) == (position + count) % 0x1_0000_0000
  {
  }

  /** getargs is refused, and nothing has changed, for a size that is not positive, a null
      buffer, or a program without an argument. */
  lemma GetArgsRefused(img: Image, s: System, buf: nat, n: int)
    requires Bootable(img) && Good(s) && Ready(s) && s.procs.Current().Some?
    requires n <= 0 || buf == 0 || StringOf(View(s.procs, s.procs.sched)[0].argument) == []
    ensures Step(img, s, GetArgs(buf, n)) == (s, Result(-1))
  {
    RunningJob(s);
    StepIsGetArgs(img, s, buf, n);
  }

  lemma StepIsGetArgs(img: Image, s: System, buf: nat, n: int)
    requires Bootable(img) && Ready(s) && Alive(s.procs)
    ensures Step(img, s, GetArgs(buf, n)) == GetArgsNow(s, buf, n)
  {
  }

  // ---- From open to the contents ----

  /** What open has opened is the file that was named: from open on, over every interleaved
      run in which the process keeps the descriptor, its reads inside the file put the
      file's contents in its frame from the first byte on. */
  lemma OpenedFileIsRead(img: Image, s: System, name: seq<byte>, s1: System, fd: nat, es: seq<Event>, t: nat, d: nat)
    returns (last: nat)
    requires Bootable(img) && Good(s) && Ready(s) && s.procs.Current().Some? && Good(s1)
    requires t == s.procs.sched && d + 1 == |View(s.procs, t)|
    requires Step(img, s, Open(name)) == (s1, Result(fd)) && FindName(img, name).Some?
    requires var e := FindName(img, name).value; e.fileType == 2 && e.inode < |img.inode| && Fits(img, e.inode)
    requires CanRun(img, s1, es) && Keeps(img, s1, es, t, d, fd)
    requires Sum(Sizes(img, s1, es, t, d, fd)) <= img.inode[FindName(img, name).value.inode].length
    ensures var i := FindName(img, name).value.inode;
            && HasFile(s1, t, d, fd, OpenFile(FileOps, i, 0))
            && last == Sum(Sizes(img, s1, es, t, d, fd)) <= img.inode[i].length
            && Received(img, s1, es, t, d, fd) == img.FileBytes(i)[..last]
            && HasFile(Run(img, s1, es), t, d, fd, OpenFile(FileOps, i, last))
  {
    var i := FindName(img, name).value.inode;
    OpenedHasFile(img, s, name, s1, fd, d);
    last := InterleavedReadsConcatenate(img, s1, es, t, d, fd, OpenFile(FileOps, i, 0));
    FromTheStart(img, i, last);
  }

  lemma FromTheStart(img: Image, i: nat, last: nat)
    requires img.Valid() && i < |img.inode| && last <= img.inode[i].length
    ensures Slice(img, i, 0, last) == img.FileBytes(i)[..last]
  {
  }

  lemma OpenedHasFile(img: Image, s: System, name: seq<byte>, s1: System, fd: nat, d: nat)
    requires Bootable(img) && Good(s) && Ready(s) && s.procs.Current().Some? && s1.Sized()
    requires Step(img, s, Open(name)) == (s1, Result(fd)) && FindName(img, name).Some?
    requires FindName(img, name).value.fileType == 2 && d + 1 == |View(s.procs, s.procs.sched)|
    ensures HasFile(s1, s.procs.sched, d, fd, OpenFile(FileOps, FindName(img, name).value.inode, 0))
  {
    OpenGives(img, s, name);
    OwnFilesAre(s);
  }

  /** Closing what open has opened leaves the program's files as they were. */
  lemma CloseUndoesOpen(img: Image, s: System, name: seq<byte>, fd: nat)
    requires Bootable(img) && Good(s) && Ready(s) && s.procs.Current().Some?
    requires Step(img, s, Open(name)).1 == Result(fd)
    ensures var s1 := Step(img, s, Open(name)).0;
            && Good(s1) && Ready(s1) && Step(img, s1, Close(fd)).1 == Result(0)
            && View(Step(img, s1, Close(fd)).0.procs, s.procs.sched) == View(s.procs, s.procs.sched)
  {
    var s1 := OpenedState(img, s, name, fd);
    CloseGives(img, s1, fd);
    var t := s.procs.sched;
    FilesRestored(View(s.procs, t), View(s1.procs, t), View(Step(img, s1, Close(fd)).0.procs, t), fd);
  }

  lemma OpenedState(img: Image, s: System, name: seq<byte>, fd: nat) returns (s1: System)
    requires Bootable(img) && Good(s) && Ready(s) && s.procs.Current().Some?
    requires Step(img, s, Open(name)).1 == Result(fd)
    ensures s1 == Step(img, s, Open(name)).0 && Good(s1) && Ready(s1) && s1.procs.Current().Some?
    ensures s1.procs.sched == s.procs.sched && 2 <= fd < DESCRIPTORS
    ensures Gained(View(s.procs, s.procs.sched), View(s1.procs, s.procs.sched), fd)
  {
    OwnFilesAre(s);
    OpenGives(img, s, name);
    StepKeepsGood(img, s, Open(name));
    SchedOfStep(img, s, Open(name));
    s1 := Step(img, s, Open(name)).0;
    GoodIsReady(s1);
    GainedFile(s, s1, fd, FileFor(FindName(img, name).value));
  }

  /** The running program has one more file open. */
  predicate Gained(v: seq<Job>, v1: seq<Job>, fd: nat) {
    && v != [] && v1 != [] && |v[0].files| == |v1[0].files| == DESCRIPTORS && fd < DESCRIPTORS
    && v[0].files[fd] == None && v1[0].files[fd].Some?
    && v1 == v[0 := v[0].(files := v[0].files[fd := v1[0].files[fd]])]
  }

  lemma GainedFile(s: System, s1: System, fd: nat, f: Option<OpenFile>)
    requires s.Sized() && s1.Sized() && OnlyFile(s, s1, fd, f) && f.Some? && OwnFiles(s)[fd].None?
    ensures Gained(View(s.procs, s.procs.sched), View(s1.procs, s.procs.sched), fd)
  {
  }

  lemma FilesRestored(v: seq<Job>, v1: seq<Job>, v2: seq<Job>, fd: nat)
    requires Gained(v, v1, fd)
    requires v2 == v1[0 := v1[0].(files := v1[0].files[fd := None])]
    ensures v2 == v
  {
    assert v1[0].files[fd := None] == v[0].files;
  }

  // ---- execute ----

  /** The two names that execute knows. */
  lemma Names()
    ensures SHELL == Ascii("shell") && EXIT == Ascii("exit")
  {
  }

  /** What execute answers for a program on a terminal that has one: -1 for a line that is
      no command; with six processes and a name other than "exit", -1 and a message on the
      terminal's screen; -1 for a name that cannot be executed; otherwise the program is
      started, or with six processes no pid is found. Whatever answers -1 changes nothing
      else. */
  lemma ExecuteGives(img: Image, s: System, line: seq<byte>, registers: Context, t: nat)
    requires Bootable(img) && Good(s) && Ready(s) && s.procs.Current().Some? && t < TERMINALS
    ensures var (s', r) := Step(img, s, Execute(line, registers)); var c := ParseLine(line);
            if c.None? then s' == s && r == Result(-1)
            else if s.procs.counter + 1 == 6 && c.value.name != EXIT then
              && r == Result(-1) && s' == s.(screens := s'.screens)
              && s'.screens.Screen(t) == if t == s.procs.sched then Console.PutAll(s.screens.Screen(t), LIMIT_MESSAGE)
                                         else s.screens.Screen(t)
            else if !Executable(img, c.value.name) then s' == s && r == Result(-1)
            else if s.procs.counter + 1 == 6 then r == NoSlot
            else r.Started? && View(s'.procs, s.procs.sched) ==
                               [Job(c.value.argument, NewFiles(s.procs), Some(registers))]
                               + View(s.procs, s.procs.sched)
  {
    var c, ch := ParseLine(line), Chains.ChainsOf(s.procs);
    OwnFilesAre(s);
    StepIsExecute(img, s, line, registers);
    NoSlotIff(img, s, Execute(line, registers));
    if c.Some? && LimitHit(s.procs, c.value.name) {
      Screens.PutsIsPrivate(s.screens, s.procs.sched, LIMIT_MESSAGE, t);
    } else if c.Some? && Executable(img, c.value.name) && s.procs.counter != MAX_PID {
      ExecuteStarts(img, s, line, registers);
    }
  }

  lemma ExecuteStarts(img: Image, s: System, line: seq<byte>, registers: Context)
    requires Bootable(img) && Good(s) && s.procs.Current().Some? && s.procs.counter != MAX_PID
    requires ParseLine(line).Some? && Executable(img, ParseLine(line).value.name)
    ensures var (s', r) := ExecuteLine(img, s, line, registers); var v := View(s.procs, s.procs.sched);
            r.Started? && View(s'.procs, s.procs.sched) ==
                          [Job(ParseLine(line).value.argument, NewFiles(s.procs), Some(registers))] + v
  {
    var c, ch := ParseLine(line).value, Chains.ChainsOf(s.procs);
    ExecuteKeeps(img, s, ch, line, registers);
    CurrentHeads(s.procs, ch);
    ViewIs(s.procs, ch, s.procs.sched);
    StartFacts(img, s, ch, c.name, c.argument, registers, s.procs.sched);
  }
}
