/** The memory of programs: what a start loads, what a read delivers, and that no
    process ever writes the memory of another. */
module Isolation {
  import opened Bytes
  import opened FileSystem
  import opened Helpers
  import opened Commands
  import opened Processes
  import opened Chains
  import opened Jobs
  import opened System
  import opened Local
  import opened Refinement
  import opened Runs
  import opened Theorems
  import Memory
  import Screens

  /** The 4 MB frame of a pid. */
  function FrameOf(user: seq<byte>, p: nat): seq<byte>
    requires |user| == USER_SIZE && p < PIDS
  {
    user[p * FOUR_MB..(p + 1) * FOUR_MB]
  }

  /** A start writes the program's bytes behind the image offset of the frame of
      the pid it found, and no other frame. */
  lemma StartWrites(img: Image, s: System, name: seq<byte>, argument: seq<byte>, r: Context, q: nat)
    requires Bootable(img) && Executable(img, name) && s.Sized() && q < PIDS
    requires Start(img, s, name, argument, r).1.Started?
    ensures var (s', e) := Start(img, s, name, argument, r); var i := FindName(img, name).value.inode;
            && e.pid < PIDS && s.procs.pid[e.pid] == VACANT
            && Frame(s'.procs.page) == e.pid * FOUR_MB
            && e.entry == img.ReadBytes(i, ENTRY_INDEX, 4)
            && (q != e.pid ==> FrameOf(s'.user, q) == FrameOf(s.user, q))
            && var b := img.ReadBytes(i, 0, img.inode[i].length);
               IMAGE_OFFSET + |b| <= FOUR_MB
               && s'.user[e.pid * FOUR_MB + IMAGE_OFFSET..e.pid * FOUR_MB + IMAGE_OFFSET + |b|] == b
  {
    var e, i := Start(img, s, name, argument, r).1, FindName(img, name).value.inode;
    StartStores(img, s, name, argument, r);
    StoredInFrame(s.user, e.pid, img.ReadBytes(i, 0, img.inode[i].length), q);
  }

  /** Where a start stores the image. */
  lemma StartStores(img: Image, s: System, name: seq<byte>, argument: seq<byte>, r: Context)
    requires Bootable(img) && Executable(img, name) && s.Sized() && Start(img, s, name, argument, r).1.Started?
    ensures var (s', e) := Start(img, s, name, argument, r); var i := FindName(img, name).value.inode;
            var b := img.ReadBytes(i, 0, img.inode[i].length);
            && e.pid < PIDS && s.procs.pid[e.pid] == VACANT && Frame(s'.procs.page) == e.pid * FOUR_MB
            && e.entry == img.ReadBytes(i, ENTRY_INDEX, 4) && IMAGE_OFFSET + |b| <= FOUR_MB
            && s'.user == Overlay(s.user, e.pid * FOUR_MB + IMAGE_OFFSET, b)
  {
  }

  lemma StoredInFrame(user: seq<byte>, p: nat, b: seq<byte>, q: nat)
    requires |user| == USER_SIZE && p < PIDS && q < PIDS && IMAGE_OFFSET + |b| <= FOUR_MB
    ensures var at, user' := p * FOUR_MB + IMAGE_OFFSET, Overlay(user, p * FOUR_MB + IMAGE_OFFSET, b);
            && (q != p ==> FrameOf(user', q) == FrameOf(user, q))
            && user'[at..at + |b|] == b
  {
    OverlaySlices(user, p * FOUR_MB + IMAGE_OFFSET, b, q * FOUR_MB, FOUR_MB);
  }

  /** execute loads a program image byte-equal to its file, through the page entry
      it has just set, into the frame of a pid that no process has; the entry
      point is read from the file. */
  lemma ExecuteLoadsFile(img: Image, s: System, line: seq<byte>, r: Context)
    requires Bootable(img) && s.Sized() && ExecuteLine(img, s, line, r).1.Started?
    requires Fits(img, FindName(img, ParseLine(line).value.name).value.inode)
    ensures var (s', e) := ExecuteLine(img, s, line, r);
            var f := img.FileBytes(FindName(img, ParseLine(line).value.name).value.inode);
            && e.pid < PIDS && s.procs.pid[e.pid] == VACANT && Frame(s'.procs.page) == e.pid * FOUR_MB
            && 0x4_8000 + |f| <= 0x40_0000
            && s'.user[e.pid * 0x40_0000 + 0x4_8000..e.pid * 0x40_0000 + 0x4_8000 + |f|] == f
            && (|f| >= 28 ==> e.entry == f[24..28])
  {
    var c := ParseLine(line).value;
    StartLoadsFile(img, s, c.name, c.argument, r);
  }

  lemma StartLoadsFile(img: Image, s: System, name: seq<byte>, argument: seq<byte>, r: Context)
    requires Bootable(img) && Executable(img, name) && s.Sized() && Start(img, s, name, argument, r).1.Started?
    requires Fits(img, FindName(img, name).value.inode)
    ensures var (s', e) := Start(img, s, name, argument, r); var f := img.FileBytes(FindName(img, name).value.inode);
            && e.pid < PIDS && s.procs.pid[e.pid] == VACANT && Frame(s'.procs.page) == e.pid * FOUR_MB
            && IMAGE_OFFSET + |f| <= FOUR_MB
            && s'.user[e.pid * FOUR_MB + IMAGE_OFFSET..e.pid * FOUR_MB + IMAGE_OFFSET + |f|] == f
            && (|f| >= ENTRY_INDEX + 4 ==> e.entry == f[ENTRY_INDEX..ENTRY_INDEX + 4])
  {
    StartWrites(img, s, name, argument, r, 0);
    WholeRead(img, FindName(img, name).value.inode);
  }

  /** The two reads of the loader deliver the file and its entry point. */
  lemma WholeRead(img: Image, i: nat)
    requires img.Valid() && i < |img.inode| && Fits(img, i)
    ensures img.ReadBytes(i, 0, img.inode[i].length) == img.FileBytes(i)
    ensures img.inode[i].length >= ENTRY_INDEX + 4 ==>
              img.ReadBytes(i, ENTRY_INDEX, 4) == img.FileBytes(i)[ENTRY_INDEX..ENTRY_INDEX + 4]
  {
    InsideReadIsSlice(img, i, 0, img.inode[i].length);
    assert img.FileBytes(i)[0..img.inode[i].length] == img.FileBytes(i);
    if img.inode[i].length >= ENTRY_INDEX + 4 {
      InsideReadIsSlice(img, i, ENTRY_INDEX, 4);
    }
  }

  lemma ExecuteFrames(img: Image, s: System, line: seq<byte>, r: Context, q: nat)
    requires Bootable(img) && s.Sized() && q < PIDS
    requires !ExecuteLine(img, s, line, r).1.Started? || ExecuteLine(img, s, line, r).1.pid != q
    ensures FrameOf(ExecuteLine(img, s, line, r).0.user, q) == FrameOf(s.user, q)
  {
    var c := ParseLine(line);
    if ExecuteLine(img, s, line, r).1.Started? {
      StartWrites(img, s, c.value.name, c.value.argument, r, q);
    }
  }

  lemma StoredElsewhere(s: System, buf: nat, bytes: seq<byte>, q: nat)
    requires s.Sized() && Alive(s.procs) && InPage(buf, |bytes|) && q < PIDS && s.procs.Current() != Some(q)
    ensures FrameOf(Stored(s, buf, bytes), q) == FrameOf(s.user, q)
  {
    OverlaySlices(s.user, Frame(s.procs.page) + buf - USER_PAGE, bytes, q * FOUR_MB, FOUR_MB);
  }

  lemma ReadFrames(img: Image, s: System, fd: int, buf: nat, n: int, device: Delivery, q: nat)
    requires Bootable(img) && s.Sized() && Alive(s.procs) && q < PIDS && s.procs.Current() != Some(q)
    ensures FrameOf(ReadNow(img, s, fd, buf, n, device).0.user, q) == FrameOf(s.user, q)
  {
    if !ReadRefused(s.procs, fd, buf, n) {
      var got := Delivered(img, CurrentFd(s.procs, fd), n, device, s.cursor);
      if Reaches(buf, n, got) {
        StoredElsewhere(s, buf, got.bytes, q);
      }
    }
  }

  lemma MinorFrames(img: Image, s: System, e: Event, q: nat)
    requires Bootable(img) && s.Sized() && Alive(s.procs) && Minor(e) && q < PIDS && s.procs.Current() != Some(q)
    ensures FrameOf(Call(img, s, e).0.user, q) == FrameOf(s.user, q)
  {
    if e.Read? {
      ReadFrames(img, s, e.fd, e.buf, e.n, e.device, q);
    } else if e.GetArgs? {
      var a := StringOf(s.procs.pcb[s.procs.Current().value].argument);
      if e.n > 0 && InPage(e.buf, e.n) {
        StoredElsewhere(s, e.buf, Memory.Padded(a, e.n), q);
      }
    } else if e.Store? && InPage(e.buf, |e.bytes|) {
      StoredElsewhere(s, e.buf, e.bytes, q);
    }
  }

  /** A step writes the frame of no process but the one it starts and the one that
      runs; the stores of a program itself are such steps. */
  lemma StepFrames(img: Image, s: System, e: Event, q: nat)
    requires Bootable(img) && Ready(s) && q < PIDS
    requires !Step(img, s, e).1.Started? || Step(img, s, e).1.pid != q
    requires s.procs.Current() != Some(q)
    ensures FrameOf(Step(img, s, e).0.user, q) == FrameOf(s.user, q)
  {
    if e.Tick? {
      StepIsTick(img, s, e.registers);
      if s.procs.Current().None? {
        ExecuteFrames(img, s.(screens := Screens.ClearVisible(s.screens)), SHELL, e.registers, q);
      } else {
        TickFrames(img, s, e.registers, q);
      }
    } else if s.procs.Current().Some? && !e.Putc? && !e.Clear? && !e.Switch? {
      CallFrames(img, s, e, q);
    }
  }

  lemma CallFrames(img: Image, s: System, e: Event, q: nat)
    requires Bootable(img) && s.Sized() && Alive(s.procs) && q < PIDS && s.procs.Current() != Some(q)
    requires !Call(img, s, e).1.Started? || Call(img, s, e).1.pid != q
    ensures FrameOf(Call(img, s, e).0.user, q) == FrameOf(s.user, q)
  {
    if e.Execute? {
      ExecuteFrames(img, s, e.line, e.registers, q);
    } else if e.Halt? {
      HaltFrames(img, s, e.registers, q);
    } else if Minor(e) {
      MinorFrames(img, s, e, q);
    }
  }

  lemma TickFrames(img: Image, s: System, r: Context, q: nat)
    requires Bootable(img) && s.Sized() && s.procs.Current().Some? && q < PIDS
    requires !TickNow(img, s, r).1.Started? || TickNow(img, s, r).1.pid != q
    ensures FrameOf(TickNow(img, s, r).0.user, q) == FrameOf(s.user, q)
  {
    if Preempt(s.procs, r).Current().None? {
      ExecuteFrames(img, s.(procs := Preempt(s.procs, r)), SHELL, r, q);
    }
  }

  lemma HaltFrames(img: Image, s: System, r: Context, q: nat)
    requires Bootable(img) && s.Sized() && Alive(s.procs) && q < PIDS
    requires !HaltNow(img, s, r).1.Started? || HaltNow(img, s, r).1.pid != q
    ensures FrameOf(HaltNow(img, s, r).0.user, q) == FrameOf(s.user, q)
  {
    if IsRoot(s.procs) {
      ExecuteFrames(img, s.(procs := DropRoot(s.procs)), SHELL, r, q);
    }
  }

  // ---- Memory over runs ----

  function StartedPid(r: Reply): Option<nat> {
    if r.Started? then Some(r.pid) else None
  }

  /** What one step may do to a parent chain: nothing, or a pop on the scheduled
      terminal; where it starts a process, a push, or on the scheduled terminal the
      replacement of a root. */
  predicate Moves(c: seq<nat>, c': seq<nat>, mine: bool, started: Option<nat>) {
    if started.None? then c' == c || (mine && c != [] && c' == c[1..])
    else c' == [started.value] + c || (mine && |c| == 1 && c' == [started.value])
  }

  /** The process a step starts on terminal t, which it then leaves scheduled. */
  function StartedOn(s': System, r: Reply, t: nat): Option<nat> {
    if t == s'.procs.sched then StartedPid(r) else None
  }

  /** A step moves each chain so. */
  ghost predicate Moved(s: System, ch: seq<seq<nat>>, s': System, ch': seq<seq<nat>>, r: Reply)
    requires s.Sized() && s'.Sized()
  {
    && InvOf(s'.procs, ch') && |ch| == |ch'| == TERMINALS
    && forall t :: 0 <= t < TERMINALS ==> Moves(ch[t], ch'[t], t == s.procs.sched, StartedOn(s', r, t))
  }

  lemma StepMoves(img: Image, s: System, e: Event, ch: seq<seq<nat>>) returns (ch': seq<seq<nat>>)
    requires Bootable(img) && Good(s) && Ready(s) && InvOf(s.procs, ch) && !Step(img, s, e).1.NoSlot?
    ensures Moved(s, ch, Step(img, s, e).0, ch', Step(img, s, e).1)
  {
    if s.procs.Current().None? {
      ch' := BootMoves(img, s, e, ch);
    } else if e.Tick? {
      StepOfTick(img, s, e.registers);
      ch' := TickMoves(img, s, e.registers, ch);
    } else if e.Putc? || e.Clear? || e.Switch? {
      ch' := ch;
    } else {
      CallerAlive(s);
      ch' := CallMoves(img, s, e, ch);
    }
  }

  lemma BootMoves(img: Image, s: System, e: Event, ch: seq<seq<nat>>) returns (ch': seq<seq<nat>>)
    requires Bootable(img) && Good(s) && Ready(s) && InvOf(s.procs, ch) && !Step(img, s, e).1.NoSlot?
    requires s.procs.Current().None?
    ensures Moved(s, ch, Step(img, s, e).0, ch', Step(img, s, e).1)
  {
    ch' := ch;
    if e.Tick? {
      BootTickKeeps(img, s, ch, e.registers);
      StepIsTick(img, s, e.registers);
      ch' := ch[s.procs.sched := [BootTick(img, s, e.registers).1.pid]];
      TickPushes(s, ch, Step(img, s, e).0, ch', Step(img, s, e).1);
    }
  }

  lemma TickMoves(img: Image, s: System, r: Context, ch: seq<seq<nat>>) returns (ch': seq<seq<nat>>)
    requires Bootable(img) && Good(s) && InvOf(s.procs, ch) && s.procs.Current().Some?
    requires !TickNow(img, s, r).1.NoSlot?
    ensures Moved(s, ch, TickNow(img, s, r).0, ch', TickNow(img, s, r).1)
  {
    TickKeeps(img, s, ch, r);
    var (s', reply) := TickNow(img, s, r);
    if reply.Started? {
      ch' := ch[s'.procs.sched := [reply.pid]];
      TickPushes(s, ch, s', ch', reply);
    } else {
      ch' := ch;
      NothingMoves(s, ch, s', reply);
    }
  }

  lemma NothingMoves(s: System, ch: seq<seq<nat>>, s': System, r: Reply)
    requires s.Sized() && s'.Sized() && InvOf(s'.procs, ch) && !r.Started?
    ensures Moved(s, ch, s', ch, r)
  {
  }

  lemma TickPushes(s: System, ch: seq<seq<nat>>, s': System, ch': seq<seq<nat>>, r: Reply)
    requires s.Sized() && s'.Sized() && |ch| == TERMINALS && InvOf(s'.procs, ch') && r.Started?
    requires ch[s'.procs.sched] == [] && ch' == ch[s'.procs.sched := [r.pid]]
    ensures Moved(s, ch, s', ch', r)
  {
    assert [r.pid] + [] == [r.pid];
  }

  lemma CallMoves(img: Image, s: System, e: Event, ch: seq<seq<nat>>) returns (ch': seq<seq<nat>>)
    requires Bootable(img) && Good(s) && InvOf(s.procs, ch) && Alive(s.procs) && !Call(img, s, e).1.NoSlot?
    ensures Moved(s, ch, Call(img, s, e).0, ch', Call(img, s, e).1)
  {
    ch' := ch;
    if e.Execute? {
      ch' := ExecuteMoves(img, s, e.line, e.registers, ch);
    } else if e.Halt? {
      ch' := HaltMoves(img, s, e.registers, ch);
    } else if Minor(e) {
      MinorMoves(img, s, e, ch);
    }
  }

  lemma ExecuteMoves(img: Image, s: System, line: seq<byte>, r: Context, ch: seq<seq<nat>>) returns (ch': seq<seq<nat>>)
    requires Bootable(img) && Good(s) && InvOf(s.procs, ch) && Alive(s.procs)
    requires !ExecuteLine(img, s, line, r).1.NoSlot?
    ensures Moved(s, ch, ExecuteLine(img, s, line, r).0, ch', ExecuteLine(img, s, line, r).1)
  {
    ExecuteKeeps(img, s, ch, line, r);
    var (s', reply) := ExecuteLine(img, s, line, r);
    if reply.Started? {
      ch' := ch[s.procs.sched := [reply.pid] + ch[s.procs.sched]];
      OnePush(s, ch, s', ch', reply);
    } else {
      ch' := ch;
      NothingMoves(s, ch, s', reply);
    }
  }

  lemma OnePush(s: System, ch: seq<seq<nat>>, s': System, ch': seq<seq<nat>>, r: Reply)
    requires s.Sized() && s'.Sized() && |ch| == TERMINALS && InvOf(s'.procs, ch') && r.Started?
    requires s'.procs.sched == s.procs.sched && ch' == ch[s.procs.sched := [r.pid] + ch[s.procs.sched]]
    ensures Moved(s, ch, s', ch', r)
  {
  }

  lemma MinorMoves(img: Image, s: System, e: Event, ch: seq<seq<nat>>)
    requires Bootable(img) && Good(s) && InvOf(s.procs, ch) && Alive(s.procs) && Minor(e)
    ensures Moved(s, ch, Call(img, s, e).0, ch, Call(img, s, e).1)
  {
    FdSteps(img, s, e);
    var c := FdChange(img, s, e);
    if c.Some? {
      SetFdKeeps(s.procs, ch, c.value.0, c.value.1);
    }
  }

  lemma HaltMoves(img: Image, s: System, r: Context, ch: seq<seq<nat>>) returns (ch': seq<seq<nat>>)
    requires Bootable(img) && Good(s) && InvOf(s.procs, ch) && Alive(s.procs)
    ensures Moved(s, ch, HaltNow(img, s, r).0, ch', HaltNow(img, s, r).1)
  {
    var t := s.procs.sched;
    CurrentHeads(s.procs, ch);
    if |ch[t]| == 1 {
      RootHaltKeeps(img, s, ch, r);
      ch' := ch[t := [HaltNow(img, s, r).1.pid]];
    } else {
      ch' := ChildHaltMoves(img, s, r, ch);
    }
  }

  lemma ChildHaltMoves(img: Image, s: System, r: Context, ch: seq<seq<nat>>) returns (ch': seq<seq<nat>>)
    requires Bootable(img) && Good(s) && InvOf(s.procs, ch) && Alive(s.procs) && |ch[s.procs.sched]| > 1
    ensures Moved(s, ch, HaltNow(img, s, r).0, ch', HaltNow(img, s, r).1)
  {
    ViewIs(s.procs, ch, s.procs.sched);
    ChildHaltKeeps(img, s, ch, r);
    ch' := ch[s.procs.sched := ch[s.procs.sched][1..]];
  }

  /** The d processes of a chain that were started first. */
  function Bottom(c: seq<nat>, d: nat): (r: seq<nat>)
    requires d <= |c|
    ensures |r| == d
  {
    c[|c| - d..]
  }

  /** None of the bottom d processes runs. */
  predicate Asleep(c: seq<nat>, d: nat, mine: bool) {
    d <= |c| && (mine ==> d < |c|)
  }

  lemma MovesKeepBottom(c: seq<nat>, c': seq<nat>, mine: bool, started: Option<nat>, d: nat)
    requires Moves(c, c', mine, started) && Asleep(c, d, mine)
    ensures d <= |c'| && Bottom(c', d) == Bottom(c, d)
  {
  }

  /** A process asleep at the bottom of a chain is neither the one that runs nor the
      one a step starts. */
  lemma AsleepIsOther(s: System, ch: seq<seq<nat>>, s': System, ch': seq<seq<nat>>, r: Reply, t: nat, d: nat, q: nat)
    requires s.Sized() && s'.Sized() && InvOf(s.procs, ch) && Moved(s, ch, s', ch', r) && t < TERMINALS
    requires Asleep(ch[t], d, t == s.procs.sched) && q in Bottom(ch[t], d)
    ensures q < PIDS && s.procs.Current() != Some(q) && StartedPid(r) != Some(q)
  {
    InChain(ch, s.procs.pid, t, q);
    CurrentHeads(s.procs, ch);
    if ch[s.procs.sched] != [] {
      HeadIsAbove(ch, s.procs.pid, s.procs.sched, t, d, q);
    }
    MovesKeepBottom(ch[t], ch'[t], t == s.procs.sched, StartedOn(s', r, t), d);
    if r.Started? {
      var u := s'.procs.sched;
      assert Moves(ch[u], ch'[u], u == s.procs.sched, StartedPid(r));
      HeadIsAbove(ch', s'.procs.pid, u, t, d, q);
    }
  }

  lemma HeadIsAbove(ch: seq<seq<nat>>, pid: seq<int>, u: nat, t: nat, d: nat, q: nat)
    requires |ch| == TERMINALS && u < TERMINALS && t < TERMINALS && Census(ch) == multiset(OccupiedPids(pid))
    requires ch[u] != [] && Asleep(ch[t], d, t == u) && q in Bottom(ch[t], d)
    ensures q != ch[u][0]
  {
    HeadOnce(ch, pid, u);
    if t == u {
      var k :| 0 <= k < d && q == Bottom(ch[t], d)[k];
      assert q == ch[t][1..][|ch[t]| - d + k - 1];
    }
  }

  /** One step: the bottom d processes of terminal t, asleep, stay where they are
      with their memory. */
  lemma StepKeepsAsleep(img: Image, s: System, e: Event, t: nat, d: nat)
    requires Bootable(img) && Good(s) && Ready(s) && !Step(img, s, e).1.NoSlot? && t < TERMINALS
    requires Asleep(Chain(s.procs, t), d, t == s.procs.sched)
    ensures SameBottom(s, Step(img, s, e).0, t, d)
  {
    var ch := ChainsOf(s.procs);
    ChainsAre(s.procs, ch);
    var s', r := Step(img, s, e).0, Step(img, s, e).1;
    var ch' := StepMoves(img, s, e, ch);
    ChainsAre(s'.procs, ch');
    MovesKeepBottom(ch[t], ch'[t], t == s.procs.sched, StartedOn(s', r, t), d);
    forall q | q in Bottom(ch[t], d) ensures q < PIDS ==> FrameOf(s'.user, q) == FrameOf(s.user, q) {
      AsleepIsOther(s, ch, s', ch', r, t, d, q);
      StepFrames(img, s, e, q);
    }
    SameFrames(s.user, s'.user, Bottom(ch[t], d));
  }

  lemma SameFrames(user: seq<byte>, user': seq<byte>, c: seq<nat>)
    requires |user| == |user'| == USER_SIZE
    requires forall q :: q in c && q < PIDS ==> FrameOf(user', q) == FrameOf(user, q)
    ensures Frames(user', c) == Frames(user, c)
  {
    forall i | 0 <= i < |c| ensures Frames(user', c)[i] == Frames(user, c)[i] {
      assert c[i] in c;
    }
  }

  /** The bottom d processes of terminal t are the same in both states, and so is
      the memory of each. */
  predicate SameBottom(s: System, s': System, t: nat, d: nat)
    requires s.Sized() && s'.Sized() && t < TERMINALS
  {
    var c, c' := Chain(s.procs, t), Chain(s'.procs, t);
    && d <= |c| && d <= |c'| && Bottom(c', d) == Bottom(c, d)
    && Frames(s'.user, Bottom(c', d)) == Frames(s.user, Bottom(c, d))
  }

  /** The frames of the processes of a chain, or of a part of it. */
  function Frames(user: seq<byte>, c: seq<nat>): seq<seq<byte>>
    requires |user| == USER_SIZE
  {
    seq(|c|, i requires 0 <= i < |c| => if c[i] < PIDS then FrameOf(user, c[i]) else [])
  }

  /** None of the bottom d processes of terminal t runs in the run. */
  ghost predicate AllAsleep(img: Image, s: System, es: seq<Event>, t: nat, d: nat)
    requires Bootable(img) && Good(s) && CanRun(img, s, es) && t < TERMINALS
    decreases |es|
  {
    es == [] || (Asleep(Chain(s.procs, t), d, t == s.procs.sched) &&
                 (GoodIsReady(s); StepKeepsGood(img, s, es[0]); AllAsleep(img, Step(img, s, es[0]).0, es[1..], t, d)))
  }

  /** The memory of a process is its own: over every run in which it does not run,
      whatever programs, reads and starts the run holds, on its terminal above it
      or on the others, its frame keeps every byte. */
  lemma {:induction false} MemoryIsPrivate(img: Image, s: System, es: seq<Event>, t: nat, d: nat)
    requires Bootable(img) && Good(s) && CanRun(img, s, es) && t < TERMINALS
    requires d <= |Chain(s.procs, t)| && AllAsleep(img, s, es, t, d)
    ensures SameBottom(s, Run(img, s, es), t, d)
    decreases |es|
  {
    if es != [] {
      GoodIsReady(s);
      var s' := Step(img, s, es[0]).0;
      StepKeepsGood(img, s, es[0]);
      StepKeepsAsleep(img, s, es[0], t, d);
      MemoryIsPrivate(img, s', es[1..], t, d);
      SameBottomTwice(s, s', Run(img, s', es[1..]), t, d);
    }
  }

  lemma SameBottomTwice(s: System, s': System, s'': System, t: nat, d: nat)
    requires s.Sized() && s'.Sized() && s''.Sized() && t < TERMINALS
    requires SameBottom(s, s', t, d) && SameBottom(s', s'', t, d)
    ensures SameBottom(s, s'', t, d)
  {
  }

  /** In particular, while a terminal is not scheduled the memory of all its
      processes stays. */
  lemma {:induction false} AwayIsAsleep(img: Image, s: System, es: seq<Event>, t: nat, d: nat)
    requires Bootable(img) && Good(s) && CanRun(img, s, es) && t < TERMINALS
    requires Away(img, s, es, t) && d <= |Chain(s.procs, t)|
    ensures AllAsleep(img, s, es, t, d)
    decreases |es|
  {
    if es != [] {
      GoodIsReady(s);
      StepKeepsGood(img, s, es[0]);
      StepKeepsAsleep(img, s, es[0], t, d);
      AwayIsAsleep(img, Step(img, s, es[0]).0, es[1..], t, d);
    }
  }

  /** Likewise, while a program runs above a stack of depth d, the memory of the
      programs in that stack stays, so its caller finds it as it left it. */
  lemma {:induction false} DeeperIsAsleep(img: Image, s: System, es: seq<Event>, t: nat, d: nat)
    requires Bootable(img) && Good(s) && CanRun(img, s, es) && t < TERMINALS && Deeper(img, s, es, t, d)
    ensures d <= |Chain(s.procs, t)| && AllAsleep(img, s, es, t, d)
    decreases |es|
  {
    if es != [] {
      GoodIsReady(s);
      StepKeepsGood(img, s, es[0]);
      DeeperIsAsleep(img, Step(img, s, es[0]).0, es[1..], t, d);
    }
  }

  /** A read inside a file puts exactly that slice of the file where the program
      asked for it in its frame, and changes no other byte of the frame. */
  lemma ReadDelivers(img: Image, s: System, fd: int, buf: nat, n: nat, device: Delivery, k: nat)
    requires Bootable(img) && s.Sized() && Alive(s.procs) && k < FOUR_MB
    requires 0 <= fd < DESCRIPTORS && s.procs.pcb[s.procs.Current().value].fd[fd].flags != 0
    requires USER_PAGE <= buf && buf + n <= USER_PAGE + FOUR_MB
    requires var d := s.procs.pcb[s.procs.Current().value].fd[fd];
             && d.ops == FileOps && d.inode < |img.inode| && Fits(img, d.inode)
             && d.position + n <= img.inode[d.inode].length
    ensures var d, p := s.procs.pcb[s.procs.Current().value].fd[fd], s.procs.Current().value;
            var (s', r) := ReadNow(img, s, fd, buf, n, device);
            && r == Result(n)
            && FrameOf(s'.user, p)[k] ==
               (if buf - USER_PAGE <= k < buf - USER_PAGE + n
                then img.FileBytes(d.inode)[d.position + (k - (buf - USER_PAGE))] else FrameOf(s.user, p)[k])
            && s'.procs.pcb[p].fd[fd].position == d.position + n
  {
    var d := s.procs.pcb[s.procs.Current().value].fd[fd];
    InsideReadNow(img, s, fd, buf, n, device);
    StoredInside(s, buf, img.FileBytes(d.inode)[d.position..d.position + n], k);
  }

  /** read on an ordinary file, inside the file. */
  lemma InsideReadNow(img: Image, s: System, fd: int, buf: nat, n: nat, device: Delivery)
    requires Bootable(img) && s.Sized() && Alive(s.procs) && !ReadRefused(s.procs, fd, buf, n) && InPage(buf, n)
    requires var d := CurrentFd(s.procs, fd);
             && d.ops == FileOps && d.inode < |img.inode| && Fits(img, d.inode)
             && d.position + n <= img.inode[d.inode].length
    ensures var d := CurrentFd(s.procs, fd);
            var bytes := img.FileBytes(d.inode)[d.position..d.position + n];
            ReadNow(img, s, fd, buf, n, device)
            == (s.(procs := Processes.Moved(s.procs, fd, n), user := Stored(s, buf, bytes)), Result(n))
  {
    var d := CurrentFd(s.procs, fd);
    InsideReadIsSlice(img, d.inode, d.position, n);
  }

  lemma StoredInside(s: System, buf: nat, bytes: seq<byte>, k: nat)
    requires s.Sized() && Alive(s.procs) && InPage(buf, |bytes|) && k < FOUR_MB
    ensures FrameOf(Stored(s, buf, bytes), s.procs.Current().value)[k] ==
            if buf - USER_PAGE <= k < buf - USER_PAGE + |bytes| then bytes[k - (buf - USER_PAGE)]
            else FrameOf(s.user, s.procs.Current().value)[k]
  {
  }

  /** The address of the process control block of a pid. */
  function BlockAddress(p: int): int {
    0x80_0000 - 0x2000 * (p + 1)
  }

  /** A kernel stack and the process control block at its lower end fill one 8 KB slot
      below 8 MB: the stack starts in the slot's last double word. */
  lemma StackTopsSlot(p: nat)
    requires p < PIDS
    ensures BlockAddress(p) < KernelStack(p) && KernelStack(p) + 4 == BlockAddress(p) + 0x2000 <= 0x80_0000
    ensures BlockAddress(p) >= 0x40_0000
    ensures forall q: nat :: q < PIDS ==> (BlockAddress(q) < KernelStack(p) < BlockAddress(q) + 0x2000 <==> p == q)
  {
    forall q: nat | q < PIDS ensures BlockAddress(q) < KernelStack(p) < BlockAddress(q) + 0x2000 <==> p == q {
      assert KernelStack(p) + 4 == 0x80_0000 - 0x2000 * p;
    }
  }

  /** Between steps esp0 lies in the slot of the process that runs, above its block, and
      in the slot of no other pid. */
  lemma StackIsOwn(s: System, q: nat)
    requires Good(s) && s.procs.Current().Some? && q < PIDS
    ensures BlockAddress(q) < s.procs.esp0 < BlockAddress(q) + 0x2000 <==> s.procs.Current() == Some(q)
    ensures s.procs.esp0 + 4 == BlockAddress(s.procs.Current().value) + 0x2000
  {
    MappedIsCurrent(s);
    StackTopsSlot(s.procs.Current().value);
  }

  /** The user page entry names, between steps, the frame of the process that runs, and
      of no other pid. */
  lemma PageIsOwn(s: System, q: nat)
    requires Good(s) && s.procs.Current().Some? && q < PIDS
    ensures s.procs.page / 0x40_0000 * 0x40_0000 == 0x80_0000 + q * 0x40_0000 <==> s.procs.Current() == Some(q)
    ensures s.procs.page % 0x40_0000 == 0x87
  {
    MappedIsCurrent(s);
    PageEntryMaps(s.procs.Current().value);
  }

  /** Frames and kernel stacks of different pids do not overlap. */
  lemma RegionsDisjoint(p: nat, q: nat)
    requires p < q < PIDS
    ensures PageEntry(p) - PAGING_USER_ON + FOUR_MB <= PageEntry(q) - PAGING_USER_ON
    ensures KernelStack(q) + 4 <= BlockAddress(p)
    ensures EIGHT_MB <= PageEntry(p) - PAGING_USER_ON && KernelStack(p) + 4 <= EIGHT_MB
  {
  }

  /** The user page entry as the processor reads it (section 4.3 of the Intel SDM,
      volume 3A): present, writable, open to user code, a 4 MB page, and in its
      upper ten bits the number of the frame of the pid. */
  lemma PageEntryMaps(p: nat)
    requires p < PIDS
    ensures var e := PageEntry(p);
            && e % 2 == 1 && e / 2 % 2 == 1 && e / 4 % 2 == 1 && e / 128 % 2 == 1
            && e / FOUR_MB * FOUR_MB == EIGHT_MB + p * FOUR_MB
  {
  }

  /** Between steps the user page entry and the kernel stack are those of the
      process of the scheduled terminal, whose block heads its chain. */
  lemma MappedIsCurrent(s: System)
    requires Good(s) && s.procs.Current().Some?
    ensures var p := s.procs.Current().value;
            && Chain(s.procs, s.procs.sched) != [] && Chain(s.procs, s.procs.sched)[0] == p
            && s.procs.pcb[p].pid == p && s.procs.pid[p] == OCCUPIED
            && s.procs.page == PageEntry(p) && s.procs.esp0 == KernelStack(p)
  {
    CurrentHeads(s.procs, ChainsOf(s.procs));
    ViewIs(s.procs, ChainsOf(s.procs), s.procs.sched);
  }
}
