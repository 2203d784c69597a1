/** The kernel's variables and the calls that change them, proved against the
    steps of System (student-distrib/system_call.c, student-distrib/pit.c). */
module Kernel {
  import opened Bytes
  import opened FileSystem
  import opened Helpers
  import opened Commands
  import opened Processes
  import opened System
  import Memory
  import Console
  import Screens

  class Kernel {
    const img: Image
    const terminals: Screens.Terminals
    const pid: array<int>
    const pcb: array<Pcb>
    const top: array<Option<nat>>
    const user: array<byte>
    const directory: Directory
    var sched: nat
    var counter: int
    var page: int
    var esp0: int
    var video: int

    ghost predicate Valid()
      reads this, terminals, terminals.mem, terminals.screenX, terminals.screenY, pid, pcb, top, user, directory
    {
      && terminals.Valid() && Bootable(img)
      && terminals.mem != user && pid as object != user && pid as object != terminals.mem
      && pid as object != terminals.screenX && pid as object != terminals.screenY
      && user as object != terminals.screenX && user as object != terminals.screenY
      && Abs().Sized()
    }

    ghost function Procs(): State
      reads this, pid, pcb, top
    {
      State(sched, pid[..], counter, pcb[..], top[..], page, esp0)
    }

    ghost function Abs(): System
      reads this, terminals, terminals.mem, terminals.screenX, terminals.screenY, pid, pcb, top, user, directory
    {
      System(Procs(), terminals.Abs(), user[..], video, directory.index)
    }

    /** Power-on. */
    constructor (img: Image, contents: seq<byte>, memory: seq<byte>)
      requires Bootable(img) && |contents| == Console.PAGE * (TERMINALS + 1) && |memory| == USER_SIZE
      ensures Valid() && this.img == img
      ensures Abs() == PowerOn(Screens.State(contents, [0, 0, 0], [0, 0, 0], 0, 0), memory)
    {
      this.img := img;
      var b := ZeroBlock();
      terminals := new Screens.Terminals(contents);
      pid := new int[PIDS](_ => VACANT);
      pcb := new Pcb[PIDS](_ => b);
      top := new Option<nat>[TERMINALS](_ => None);
      directory := new Directory();
      user := new byte[USER_SIZE](i requires 0 <= i < USER_SIZE => memory[i]);
      sched, counter, page, esp0, video := 0, -1, 0, 0, 0;
      new;
      assert pid[..] == [VACANT, VACANT, VACANT, VACANT, VACANT, VACANT];
      assert pcb[..] == [b, b, b, b, b, b];
      assert top[..] == [None, None, None];
      assert user[..] == memory;
      PowerOnSized(terminals.Abs(), memory);
    }

    /** putc of the scheduled terminal. */
    method PutC(c: byte)
      requires Valid()
      modifies terminals, terminals.mem, terminals.screenX, terminals.screenY
      ensures Valid() && Abs() == old(Abs()).(screens := Screens.Putc(old(Abs()).screens, old(sched), c))
    {
      terminals.PutC(sched, c);
    }

    /** The message of execute, character by character. */
    method Complain()
      requires Valid()
      modifies terminals, terminals.mem, terminals.screenX, terminals.screenY
      ensures Valid()
      ensures Abs() == old(Abs()).(screens := Screens.Puts(old(Abs()).screens, old(sched), LIMIT_MESSAGE))
    {
      ghost var s := terminals.Abs();
      for i := 0 to |LIMIT_MESSAGE|
        invariant terminals.Valid() && terminals.Abs() == Screens.Puts(s, sched, LIMIT_MESSAGE[..i])
      {
        terminals.PutC(sched, LIMIT_MESSAGE[i]);
        assert LIMIT_MESSAGE[..i + 1][..i] == LIMIT_MESSAGE[..i];
      }
      assert LIMIT_MESSAGE[..|LIMIT_MESSAGE|] == LIMIT_MESSAGE;
    }

    /** terminal_switch. */
    method TerminalSwitch(next: nat)
      requires Valid() && next < TERMINALS
      modifies this`video, terminals, terminals.mem
      ensures Valid()
      ensures Abs() == old(Abs()).(screens := Screens.Switch(old(Abs()).screens, next),
                                   video := VideoEntry(sched, next))
    {
      terminals.TerminalSwitch(next);
      if sched == terminals.visible {
        video := VID_MEM_FLAG + VIDEO;
      } else {
        video := VID_MEM_FLAG + VIDEO + Console.PAGE * (sched + 1);
      }
    }

    /** find_pid. */
    method FindVacant() returns (r: int)
      requires pid.Length == PIDS
      ensures r == FindPid(pid[..], 0)
    {
      for i := 0 to PIDS
        invariant FindPid(pid[..], i) == FindPid(pid[..], 0)
      {
        if pid[i] == VACANT {
          return i;
        }
      }
      return -1;
    }

    /** init_pcb for the block at slot p, which becomes the current process. */
    method InitBlock(p: nat, argument: seq<byte>)
      requires pid.Length == PIDS && pcb.Length == PIDS && top.Length == TERMINALS && Procs().Sized() && p < PIDS
      modifies pid, pcb, top
      ensures pid[..] == old(pid[..])[p := OCCUPIED]
      ensures top[..] == old(top[..])[sched := Some(p)]
      ensures var parent := old(top[sched]);
              var parentPid := if parent.Some? then old(pcb[..])[parent.value].pid else -1;
              pcb[..] == old(pcb[..])[p := InitPcb(old(pcb[..])[p], p, argument, parent, parentPid)]
    {
      var parent := top[sched];
      assert InRange(top[..][sched]);
      var b := pcb[p];
      assert |pcb[..][p].fd| == DESCRIPTORS;
      if parent.None? {
        b := b.(parent := None, pid := p, parentPid := -1);
      } else {
        b := b.(parent := parent, pid := p, parentPid := pcb[parent.value].pid);
      }
      pid[p] := OCCUPIED;
      b := b.(argument := argument);
      top[sched] := Some(p);
      b := b.(fd := b.fd[0 := Descriptor(StdinOps, 0, 0, 1)][1 := Descriptor(StdoutOps, 0, 0, 1)]);
      ghost var c := b;
      for i := 2 to DESCRIPTORS - 1
        invariant b == c.(fd := b.fd) && |b.fd| == DESCRIPTORS
        invariant forall k :: 0 <= k < DESCRIPTORS ==> b.fd[k] == if 2 <= k < i then c.fd[k].(flags := 0) else c.fd[k]
      {
        b := b.(fd := b.fd[i := b.fd[i].(flags := 0)]);
      }
      assert b.fd == InitFds(pcb[p].fd);
      pcb[p] := b;
    }

    /** execute from the counter to the saved registers of the caller: the new
        process is entered in the tables. */
    method Enter(argument: seq<byte>, registers: Context) returns (p: Option<nat>)
      requires pid.Length == PIDS && pcb.Length == PIDS && top.Length == TERMINALS && Procs().Sized()
      modifies this`counter, this`page, this`esp0, pid, pcb, top
      ensures (Procs(), p) == Launch(old(Procs()), argument, registers)
    {
      counter := counter + 1;
      var thisPid := FindVacant();
      if thisPid == -1 {
        return None;
      }
      page := PageEntry(thisPid);
      var parent := top[sched];
      assert InRange(top[..][sched]);
      InitBlock(thisPid, argument);
      esp0 := KernelStack(thisPid);
      if parent.Some? {
        pcb[parent.value] := pcb[parent.value].(halted := registers);
      }
      p := Some(thisPid);
    }

    /** execute behind its checks, for a program known to be executable. */
    method StartProgram(ghost name: seq<byte>, inode: nat, argument: seq<byte>, registers: Context)
      returns (reply: Reply)
      requires Valid() && Executable(img, name) && inode == FindName(img, name).value.inode
      modifies this`counter, this`page, this`esp0, pid, pcb, top, user
      ensures Valid() && (Abs(), reply) == Start(img, old(Abs()), name, argument, registers)
    {
      var p := Enter(argument, registers);
      if p.None? {
        return NoSlot;
      }
      var entry := LoadProgram(inode);
      reply := Started(p.value, entry);
    }

    /** The two reads of execute: entry point and program image. The image goes to
        the frame that the user page entry maps. */
    method LoadProgram(inode: nat) returns (entry: seq<byte>)
      requires Bootable(img) && inode < |img.inode| && user.Length == USER_SIZE
      requires 0 <= Frame(page) && Frame(page) + IMAGE_OFFSET + img.inode[inode].length <= USER_SIZE
      modifies user
      ensures user[..] == Overlay(old(user[..]), Frame(page) + IMAGE_OFFSET,
                                  img.ReadBytes(inode, 0, img.inode[inode].length))
      ensures entry == img.ReadBytes(inode, ENTRY_INDEX, 4)
    {
      var entryPoint := new byte[4](_ => 0);
      var r := ReadData(img, inode, ENTRY_INDEX, entryPoint, 0, 4);
      entry := entryPoint[..r];
      var _ := ReadData(img, inode, 0, user, page - PAGING_USER_ON - EIGHT_MB + IMAGE_OFFSET, img.inode[inode].length);
    }

    /** execute: parse, the limit check, the two lookups, then the start. The name
        buffer has one byte more than the source's 32 for the terminator of a name
        of 32 bytes. */
    method Execute(command: seq<byte>, registers: Context) returns (reply: Reply)
      requires Valid() && NUL in command
      modifies this`counter, this`page, this`esp0, pid, pcb, top, user
      modifies terminals, terminals.mem, terminals.screenX, terminals.screenY
      ensures Valid()
      ensures (Abs(), reply) == ExecuteLine(img, old(Abs()), CString(command, |command|), registers)
    {
      var ok, filename, argument := ParseCommand(command);
      if !ok {
        return Result(-1);
      }
      var full := LimitReached(filename);
      if full {
        Complain();
        return Result(-1);
      }
      reply := ExecuteNamed(filename, argument, registers);
    }

    /** The limit check of execute. */
    method LimitReached(filename: seq<byte>) returns (full: bool)
      requires Valid() && Readable(filename, NAME + 1)
      ensures full <==> LimitHit(Procs(), CString(filename, NAME + 1))
    {
      var exit := Memory.StrNCmp(filename, EXIT + [NUL], 5);
      ExitName(filename);
      full := top[sched].Some? && counter == MAX_PID && exit != 0;
    }

    /** execute from the lookups on. */
    method ExecuteNamed(filename: seq<byte>, argument: seq<byte>, registers: Context) returns (reply: Reply)
      requires Valid() && Readable(filename, NAME + 1)
      modifies this`counter, this`page, this`esp0, pid, pcb, top, user
      ensures Valid()
      ensures var name := CString(filename, NAME + 1);
              (Abs(), reply) == if Executable(img, name) then Start(img, old(Abs()), name, argument, registers)
                                else (old(Abs()), Result(-1))
    {
      var d := ReadDentryByName(img, filename);
      if d.None? {
        return Result(-1);
      }
      var exe := IsExe(img, filename);
      if !exe {
        return Result(-1);
      }
      reply := StartProgram(CString(filename, NAME + 1), d.value.inode, argument, registers);
    }

    /** parse into fresh buffers, as execute calls it. */
    method ParseCommand(command: seq<byte>) returns (ok: bool, filename: seq<byte>, argument: seq<byte>)
      requires NUL in command
      ensures var p := ParseLine(CString(command, |command|));
              && (ok <==> p.Some?)
              && (ok ==> Readable(filename, NAME + 1) && CString(filename, NAME + 1) == p.value.name
                         && argument == p.value.argument)
    {
      var nameBuf := new byte[MAX_FILE_LEN + 1](_ => NUL);
      var arg := new byte[MAX_ARG_LEN](_ => NUL);
      ok := Parse(command, nameBuf, arg);
      filename := nameBuf[..];
      if ok {
        ghost var s := CString(command, |command|);
        NameHasNoNul(s);
        NameIs(filename, ParseLine(s).value.name);
        argument := CString(arg[..], MAX_ARG_LEN);
      } else {
        argument := [];
      }
    }

    lemma NameIs(filename: seq<byte>, n: seq<byte>)
      requires |n| < |filename| == NAME + 1 && filename[..|n|] == n && filename[|n|] == NUL && NUL !in n
      ensures Readable(filename, NAME + 1) && CString(filename, NAME + 1) == n
    {
      CStringIs(filename, NAME + 1, n);
    }

    lemma NameHasNoNul(s: seq<byte>)
      requires NUL !in s && ParseLine(s).Some?
      ensures NUL !in ParseLine(s).value.name
    {
    }

    /** Comparing five bytes recognises the name "exit" and no other. */
    lemma ExitName(filename: seq<byte>)
      requires Readable(filename, NAME + 1)
      ensures Readable(filename, 5) && CString(EXIT + [NUL], 5) == EXIT
      ensures CString(filename, 5) == EXIT <==> CString(filename, NAME + 1) == EXIT
    {
      CStringIs(EXIT + [NUL], 5, EXIT);
      if CString(filename, 5) == EXIT {
        CStringIs(filename, NAME + 1, EXIT);
      } else if CString(filename, NAME + 1) == EXIT {
        CStringIs(filename, 5, EXIT);
      }
    }

    /** One descriptor of process p, as close treats it. */
    method CloseIn(p: nat, fd: int) returns (code: int)
      requires pcb.Length == PIDS && p < PIDS && |pcb[p].fd| == DESCRIPTORS
      modifies pcb
      ensures var d := old(pcb[p].fd);
              if fd < 2 || fd >= DESCRIPTORS || d[fd].flags == 0 then code == -1 && pcb[..] == old(pcb[..])
              else code == 0 && pcb[..] == old(pcb[..])[p := old(pcb[p]).(fd := d[fd := Processes.Closed(d[fd])])]
    {
      if fd < 2 || fd > DESCRIPTORS - 1 {
        return -1;
      }
      var b := pcb[p];
      if b.fd[fd].flags == 0 {
        return -1;
      }
      pcb[p] := b.(fd := b.fd[fd := b.fd[fd].(inode := 0, position := 0, flags := 0)]);
      return 0;
    }

    /** The loop of halt over the descriptors of process p. */
    method CloseInUse(p: nat)
      requires pcb.Length == PIDS && p < PIDS && |pcb[p].fd| == DESCRIPTORS
      modifies pcb
      ensures pcb[..] == old(pcb[..])[p := old(pcb[p]).(fd := CloseAll(old(pcb[p].fd)))]
    {
      ghost var m, b := pcb[..], pcb[p];
      assert b.(fd := b.fd) == b;
      for i := 0 to DESCRIPTORS
        invariant |pcb[p].fd| == DESCRIPTORS && pcb[..] == m[p := b.(fd := pcb[p].fd)]
        invariant forall k :: 0 <= k < DESCRIPTORS ==> pcb[p].fd[k] == if k < i then CloseAll(b.fd)[k] else b.fd[k]
      {
        if pcb[p].fd[i].flags == 1 {
          var _ := CloseIn(p, i);
        }
      }
      assert pcb[p].fd == CloseAll(b.fd);
    }

    /** execute of "shell", as the scheduler and halt call it. */
    method ExecuteShell(registers: Context) returns (reply: Reply)
      requires Valid()
      modifies this`counter, this`page, this`esp0, pid, pcb, top, user
      modifies terminals, terminals.mem, terminals.screenX, terminals.screenY
      ensures Valid() && (Abs(), reply) == ExecuteLine(img, old(Abs()), SHELL, registers)
    {
      ShellCommand();
      reply := Execute(SHELL + [NUL], registers);
    }

    lemma ShellCommand()
      ensures NUL in SHELL + [NUL] && CString(SHELL + [NUL], |SHELL + [NUL]|) == SHELL
    {
      CStringIs(SHELL + [NUL], |SHELL + [NUL]|, SHELL);
      assert (SHELL + [NUL])[|SHELL|] == NUL;
    }

    /** halt: a root shell is replaced by a new one, any other process returns to
        its parent with its descriptors closed. */
    method Halt(registers: Context) returns (reply: Reply)
      requires Valid() && Alive(Procs())
      modifies this`counter, this`page, this`esp0, pid, pcb, top, user
      modifies terminals, terminals.mem, terminals.screenX, terminals.screenY
      ensures Valid() && (Abs(), reply) == HaltNow(img, old(Abs()), registers)
    {
      var p := top[sched].value;
      if pcb[p].parentPid == -1 {
        LeaveRoot(p);
        reply := ExecuteShell(registers);
      } else {
        var resumed := LeaveChild(p);
        reply := Resumed(resumed);
      }
    }

    /** The part of halt for a root shell: its pid is vacant, its terminal empty. */
    method LeaveRoot(p: nat)
      requires pid.Length == PIDS && pcb.Length == PIDS && top.Length == TERMINALS && Alive(Procs())
      requires top[sched] == Some(p) && pcb[p].parentPid == -1
      modifies this`counter, pid, top
      ensures Procs() == DropRoot(old(Procs()))
    {
      pid[pcb[p].pid] := VACANT;
      top[sched] := None;
      counter := counter - 1;
    }

    /** The part of halt for a process with a parent. */
    method LeaveChild(p: nat) returns (resumed: Context)
      requires pid.Length == PIDS && pcb.Length == PIDS && top.Length == TERMINALS && Alive(Procs())
      requires top[sched] == Some(p) && pcb[p].parentPid != -1
      modifies this`counter, this`page, this`esp0, pid, pcb, top
      ensures Procs() == ReturnToParent(old(Procs()))
      ensures resumed == old(pcb[..])[old(pcb[p]).parent.value].halted
    {
      assert |pcb[..][p].fd| == DESCRIPTORS && InRange(pcb[..][p].parent);
      pid[pcb[p].pid] := VACANT;
      page := PageEntry(pcb[p].parentPid);
      esp0 := KernelStack(pcb[p].parentPid);
      var parent := pcb[p].parent;
      resumed := pcb[parent.value].halted;
      CloseInUse(p);
      top[sched] := parent;
      counter := counter - 1;
    }

    /** scheduler. */
    method Tick(registers: Context) returns (reply: Reply)
      requires Valid() && Ready(Abs())
      modifies this`sched, this`counter, this`page, this`esp0, this`video, pid, pcb, top, user
      modifies terminals, terminals.mem, terminals.screenX, terminals.screenY
      ensures Valid()
      ensures (Abs(), reply) == if old(top[sched]).None? then BootTick(img, old(Abs()), registers)
                                else TickNow(img, old(Abs()), registers)
    {
      if sched == 0 && top[sched].None? {
        terminals.ClearScreen();
        reply := ExecuteShell(registers);
        return;
      }
      SaveAndAdvance(registers);
      if top[sched].None? {
        reply := ExecuteShell(registers);
        return;
      }
      reply := ResumeScheduled();
    }

    /** The first half of scheduler. */
    method SaveAndAdvance(registers: Context)
      requires pid.Length == PIDS && pcb.Length == PIDS && top.Length == TERMINALS && Procs().Sized()
      requires top[sched].Some?
      modifies this`sched, pcb
      ensures Procs() == Preempt(old(Procs()), registers)
    {
      assert InRange(top[..][sched]);
      var p := top[sched].value;
      pcb[p] := pcb[p].(saved := registers);
      sched := (sched + 1) % TERMINALS;
    }

    /** The second half of scheduler: pages, stack and registers of the process. */
    method ResumeScheduled() returns (reply: Reply)
      requires pid.Length == PIDS && pcb.Length == PIDS && top.Length == TERMINALS && Procs().Sized()
      requires top[sched].Some?
      modifies this`page, this`esp0, this`video
      ensures Procs() == Remap(old(Procs())) && video == VideoEntry(sched, terminals.visible)
      ensures reply == Resumed(pcb[..][top[..][sched].value].saved)
    {
      if sched == terminals.visible {
        video := VID_MEM_FLAG + VIDEO;
      } else {
        video := VID_MEM_FLAG + VIDEO + Console.PAGE * (sched + 1);
      }
      assert InRange(top[..][sched]);
      var q := top[sched].value;
      page := PageEntry(pcb[q].pid);
      esp0 := KernelStack(pcb[q].pid);
      reply := Resumed(pcb[q].saved);
    }

    /** open. */
    method Open(filename: seq<byte>) returns (r: int)
      requires Valid() && Procs().Current().Some? && filename != [] && Readable(filename, NAME + 1)
      modifies pcb
      ensures Valid() && (Abs(), Result(r)) == OpenNow(img, old(Abs()), CString(filename, NAME + 1))
    {
      if filename[0] == NUL {
        return -1;
      }
      var d := ReadDentryByName(img, filename);
      if d.None? {
        return -1;
      }
      r := Enlist(d.value);
    }

    /** The search for a free descriptor. */
    method FirstFree(fds: seq<Descriptor>) returns (fd: int)
      requires |fds| == DESCRIPTORS
      ensures fd == FreeFd(fds, 2)
    {
      for i := 2 to DESCRIPTORS
        invariant FreeFd(fds, i) == FreeFd(fds, 2)
      {
        if fds[i].flags == 0 {
          return i;
        }
      }
      return -1;
    }

    /** The part of open behind the lookup. */
    method Enlist(d: Dentry) returns (fd: int)
      requires pid.Length == PIDS && pcb.Length == PIDS && top.Length == TERMINALS && Procs().Sized()
      requires top[sched].Some?
      modifies pcb
      ensures (Procs(), fd) == OpenEntry(old(Procs()), d)
    {
      assert InRange(top[..][sched]);
      var p := top[sched].value;
      assert |pcb[..][p].fd| == DESCRIPTORS;
      fd := FirstFree(pcb[p].fd);
      if fd == -1 {
        return;
      }
      var made;
      match d.fileType {
        case 0 => made := Descriptor(RtcOps, 0, 0, 1);
        case 1 => made := Descriptor(DirOps, 0, 0, 1);
        case 2 => made := Descriptor(FileOps, d.inode, 0, 1);
        case _ => return -1;
      }
      pcb[p] := pcb[p].(fd := pcb[p].fd[fd := made]);
    }

    /** close. */
    method Close(fd: int) returns (r: int)
      requires Valid() && Procs().Current().Some?
      modifies pcb
      ensures Valid() && (Abs(), Result(r)) == CloseNow(old(Abs()), fd)
    {
      assert InRange(top[..][sched]);
      var p := top[sched].value;
      assert |pcb[..][p].fd| == DESCRIPTORS;
      r := CloseIn(p, fd);
    }

    /** Bytes stored one behind the other in user memory. */
    method StoreBytes(at: nat, bytes: seq<byte>)
      requires at + |bytes| <= user.Length
      modifies user
      ensures user[..] == Overlay(old(user[..]), at, bytes)
    {
      for i := 0 to |bytes|
        invariant user[..] == Overlay(old(user[..]), at, bytes[..i])
      {
        OverlayJoin(old(user[..]), at, bytes[..i], [bytes[i]]);
        assert bytes[..i] + [bytes[i]] == bytes[..i + 1];
        user[at + i] := bytes[i];
      }
      assert bytes[..|bytes|] == bytes;
    }

    /** The read function of a descriptor, with the buffer at an address of user
        memory; what a device delivers is given. */
    method Deliver(d: Descriptor, at: nat, n: nat, device: Delivery) returns (r: int)
      requires Bootable(img) && directory.index >= -1 && at + n <= user.Length
      requires at + |Delivered(img, d, n, device, directory.index).bytes| <= user.Length
      modifies user, directory
      ensures var got := Delivered(img, d, n, device, old(directory.index));
              r == got.value && user[..] == Overlay(old(user[..]), at, got.bytes)
      ensures directory.index == CursorBehind(img, d, old(directory.index))
    {
      match d.ops {
        case FileOps =>
          r := ReadData(img, d.inode, d.position, user, at, n);
        case DirOps =>
          r := directory.DirRead(img, user, at);
        case StdoutOps => r := -1;
        case _ =>
          StoreBytes(at, device.bytes);
          r := device.value;
      }
    }

    /** read. */
    method Read(fd: int, buf: nat, n: int, device: Delivery) returns (reply: Reply)
      requires Valid() && Alive(Procs())
      modifies pcb, user, directory
      ensures Valid() && (Abs(), reply) == ReadNow(img, old(Abs()), fd, buf, n, device)
    {
      if n < 0 || fd < 0 || fd > DESCRIPTORS - 1 || buf == 0 {
        return Result(-1);
      }
      var p := top[sched].value;
      assert |pcb[..][p].fd| == DESCRIPTORS;
      var d := pcb[p].fd[fd];
      if d.flags == 0 {
        return Result(-1);
      }
      if !Reaches(buf, n, Delivered(img, d, n, device, directory.index)) {
        return Fault;
      }
      var r := Deliver(d, page - PAGING_USER_ON - EIGHT_MB + buf - USER_PAGE, n, device);
      pcb[p] := pcb[p].(fd := pcb[p].fd[fd := d.(position := Advanced(d.position, r))]);
      reply := Result(r);
    }

    /** A buffer in the program's page lies in user memory. */
    lemma BufferInside(p: State, buf: nat, n: nat)
      requires Alive(p) && InPage(buf, n)
      ensures 0 <= Frame(p.page) + buf - USER_PAGE && Frame(p.page) + buf - USER_PAGE + n <= USER_SIZE
    {
    }

    /** getargs. */
    method ProgramArgument(buf: nat, n: int) returns (reply: Reply)
      requires Valid() && Alive(Procs())
      modifies user
      ensures Valid() && (Abs(), reply) == GetArgsNow(old(Abs()), buf, n)
    {
      var a := pcb[top[sched].value].argument;
      if n <= 0 || buf == 0 || StringOf(a) == [] {
        return Result(-1);
      }
      if !InPage(buf, n) {
        return Fault;
      }
      BufferInside(Procs(), buf, n);
      var r := Commands.GetArgs(a, user, page - PAGING_USER_ON - EIGHT_MB + buf - USER_PAGE, n);
      reply := Result(r);
    }

    /** A store of the running program through its page. */
    method UserStore(buf: nat, bytes: seq<byte>) returns (reply: Reply)
      requires Valid() && Alive(Procs())
      modifies user
      ensures Valid() && (Abs(), reply) == StoreNow(old(Abs()), buf, bytes)
    {
      if !InPage(buf, |bytes|) {
        return Fault;
      }
      StoreBytes(page - PAGING_USER_ON - EIGHT_MB + buf - USER_PAGE, bytes);
      reply := Result(0);
    }

    /** Ctrl+L: clear and clear_set. */
    method ClearScreen()
      requires Valid()
      modifies terminals, terminals.mem, terminals.screenX, terminals.screenY
      ensures Valid() && Abs() == old(Abs()).(screens := Screens.ClearVisible(old(Abs()).screens))
    {
      terminals.ClearScreen();
    }
  }
}
