/** The kernel invariant over every step, and the refinement of the kernel to
    three private machines, one a terminal. */
module Local {
  import opened Bytes
  import opened FileSystem
  import opened Helpers
  import opened Commands
  import opened Processes
  import opened Chains
  import opened Jobs
  import opened System
  import Screens

  /** The invariant of the kernel from power-on. */
  ghost predicate Good(s: System) {
    && s.Sized() && Inv(s.procs) && Mapped(s.procs) && FlagsOk(s.procs)
    && (s.procs.Current().Some? || s.procs.sched == 0)
  }

  lemma GoodIsReady(s: System)
    requires Good(s)
    ensures Ready(s) && (s.procs.Current().Some? ==> Alive(s.procs))
  {
    CurrentHeads(s.procs, ChainsOf(s.procs));
  }

  /** "shell" is a command line without an argument. */
  lemma ShellLine()
    ensures ParseLine(SHELL) == Some(Command(SHELL, []))
  {
    ParseFindsParts(0, SHELL, 0, []);
    assert Line(0, SHELL, 0, []) == SHELL;
  }

  /** On a terminal without a process, executing "shell" starts it. */
  lemma ShellStarts(img: Image, s: System, registers: Context)
    requires Bootable(img) && s.Sized() && s.procs.Current().None?
    ensures ExecuteLine(img, s, SHELL, registers) == Start(img, s, SHELL, [], registers)
  {
    ShellLine();
  }

  /** A start that finds a pid pushes it on the chain of the scheduled terminal. */
  lemma StartKeeps(img: Image, s: System, ch: seq<seq<nat>>, name: seq<byte>, argument: seq<byte>, registers: Context)
    requires Bootable(img) && Executable(img, name) && s.Sized() && InvOf(s.procs, ch) && FlagsOk(s.procs)
    requires Start(img, s, name, argument, registers).1.Started?
    ensures var (s', r) := Start(img, s, name, argument, registers);
            && InvOf(s'.procs, ch[s.procs.sched := [r.pid] + ch[s.procs.sched]])
            && r.pid < PIDS && s.procs.pid[r.pid] == VACANT
            && s'.procs.Current() == Some(r.pid) && Good(s')
            && (Clean(s.procs) ==> Clean(s'.procs))
  {
    var (s', r) := Start(img, s, name, argument, registers);
    LaunchKeeps(s.procs, ch, argument, registers);
    LaunchKeepsClean(s.procs, argument, registers);
    InvFromChains(s'.procs, ch[s.procs.sched := [r.pid] + ch[s.procs.sched]]);
  }

  /** find_pid cannot fail when halt restarts a root shell: a pid has just been
      vacated. */
  lemma RestartFindsPid(img: Image, s: System, ch: seq<seq<nat>>, registers: Context)
    requires Bootable(img) && s.Sized() && InvOf(s.procs, ch) && FlagsOk(s.procs)
    requires |ch[s.procs.sched]| == 1 && Alive(s.procs)
    ensures var s1 := s.(procs := DropRoot(s.procs));
            && InvOf(s1.procs, ch[s.procs.sched := []]) && FlagsOk(s1.procs)
            && HaltNow(img, s, registers) == Start(img, s1, SHELL, [], registers)
            && HaltNow(img, s, registers).1.Started?
  {
    var s1 := s.(procs := DropRoot(s.procs));
    CurrentHeads(s.procs, ch);
    DropRootKeeps(s.procs, ch);
    ShellStarts(img, s1, registers);
    AtMostSix(s.procs.pid);
    LaunchFailsIffFull(s1.procs, ch[s.procs.sched := []], [], registers);
  }

  /** halt of a root shell leaves a new root shell. */
  lemma RootHaltKeeps(img: Image, s: System, ch: seq<seq<nat>>, registers: Context)
    requires Bootable(img) && s.Sized() && InvOf(s.procs, ch) && FlagsOk(s.procs) && Alive(s.procs)
    requires |ch[s.procs.sched]| == 1
    ensures var (s', r) := HaltNow(img, s, registers); var t := s.procs.sched;
            && r.Started? && Good(s') && s'.procs.sched == t && InvOf(s'.procs, ch[t := [r.pid]])
  {
    var t, s1 := s.procs.sched, s.(procs := DropRoot(s.procs));
    RestartFindsPid(img, s, ch, registers);
    StartOnEmpty(img, s1, ch[t := []], registers);
    UpdatedTwice(ch, t, [], [Start(img, s1, SHELL, [], registers).1.pid]);
  }

  lemma UpdatedTwice(ch: seq<seq<nat>>, t: nat, a: seq<nat>, b: seq<nat>)
    requires t < |ch|
    ensures ch[t := a][t := b] == ch[t := b]
  {
  }

  lemma StartOnEmpty(img: Image, s: System, ch: seq<seq<nat>>, registers: Context)
    requires Bootable(img) && s.Sized() && InvOf(s.procs, ch) && FlagsOk(s.procs) && ch[s.procs.sched] == []
    requires Start(img, s, SHELL, [], registers).1.Started?
    ensures var (s', r) := Start(img, s, SHELL, [], registers);
            Good(s') && s'.procs.sched == s.procs.sched && InvOf(s'.procs, ch[s.procs.sched := [r.pid]])
  {
    StartKeeps(img, s, ch, SHELL, [], registers);
    var p := Start(img, s, SHELL, [], registers).1.pid;
    assert [p] + [] == [p];
  }

  /** halt of a child leaves its parent, which continues with the registers saved
      when it executed the child. */
  lemma ChildHaltKeeps(img: Image, s: System, ch: seq<seq<nat>>, registers: Context)
    requires Bootable(img) && s.Sized() && InvOf(s.procs, ch) && FlagsOk(s.procs) && Alive(s.procs)
    requires |ch[s.procs.sched]| > 1 && ch[s.procs.sched][1] < PIDS
    ensures var (s', r) := HaltNow(img, s, registers); var t := s.procs.sched;
            && r == Resumed(s.procs.pcb[ch[t][1]].halted)
            && s'.procs == ReturnToParent(s.procs) && s'.screens == s.screens && s'.user == s.user
            && Good(s') && s'.procs.sched == t && InvOf(s'.procs, ch[t := ch[t][1..]])
  {
    CurrentHeads(s.procs, ch);
    ReturnKeeps(s.procs, ch);
    ReturnKeepsClean(s.procs);
    InvFromChains(ReturnToParent(s.procs), ch[s.procs.sched := ch[s.procs.sched][1..]]);
  }

  /** The process table is full, and execute goes on all the same: the line
      names a program, and the limit check does not apply to it. */
  predicate NoPidFor(img: Image, s: System, line: seq<byte>)
    requires img.Valid() && s.Sized()
  {
    var c := ParseLine(line);
    && c.Some? && Executable(img, c.value.name) && s.procs.counter == MAX_PID
    && (s.procs.Current().None? || c.value.name == EXIT)
  }

  /** execute either refuses and changes no process, or starts a program, or finds
      no pid; the last exactly when the table is full and the limit check was
      skipped. */
  lemma ExecuteKeeps(img: Image, s: System, ch: seq<seq<nat>>, line: seq<byte>, registers: Context)
    requires Bootable(img) && Good(s) && InvOf(s.procs, ch)
    ensures var (s', r) := ExecuteLine(img, s, line, registers); var t := s.procs.sched;
            && (r.Result? ==> s'.procs == s.procs && s'.user == s.user && Good(s'))
            && (r.Started? ==> Good(s') && InvOf(s'.procs, ch[t := [r.pid] + ch[t]]))
            && !r.Resumed?
            && (r.NoSlot? <==> NoPidFor(img, s, line))
  {
    var c := ParseLine(line);
    if c.Some? && !LimitHit(s.procs, c.value.name) && Executable(img, c.value.name) {
      LaunchFailsIffFull(s.procs, ch, c.value.argument, registers);
      if Start(img, s, c.value.name, c.value.argument, registers).1.Started? {
        StartKeeps(img, s, ch, c.value.name, c.value.argument, registers);
      }
    }
  }

  /** Starting the shell on a terminal without a process, as the scheduler does
      for each terminal once; no pid is left exactly when the table is full. */
  lemma ShellKeeps(img: Image, s: System, ch: seq<seq<nat>>, registers: Context)
    requires Bootable(img) && s.Sized() && InvOf(s.procs, ch) && FlagsOk(s.procs) && s.procs.Current().None?
    ensures var (s', r) := ExecuteLine(img, s, SHELL, registers); var t := s.procs.sched;
            && ch[t] == [] && s'.procs.sched == t
            && (r.NoSlot? <==> s.procs.counter == MAX_PID) && (r.NoSlot? || r.Started?)
            && (r.Started? ==> Good(s') && InvOf(s'.procs, ch[t := [r.pid]]))
  {
    CurrentHeads(s.procs, ch);
    ShellStarts(img, s, registers);
    StartFindsPid(img, s, ch, registers);
    if Start(img, s, SHELL, [], registers).1.Started? {
      StartOnEmpty(img, s, ch, registers);
    }
  }

  lemma StartFindsPid(img: Image, s: System, ch: seq<seq<nat>>, registers: Context)
    requires Bootable(img) && s.Sized() && InvOf(s.procs, ch)
    ensures var (s', r) := Start(img, s, SHELL, [], registers);
            (r.NoSlot? <==> s.procs.counter == MAX_PID) && (r.NoSlot? || r.Started?)
  {
    LaunchFailsIffFull(s.procs, ch, [], registers);
  }

  /** The state in which the scheduler has just advanced. */
  lemma PreemptedKeeps(s: System, ch: seq<seq<nat>>, registers: Context)
    requires Good(s) && InvOf(s.procs, ch) && s.procs.Current().Some?
    ensures var p := Preempt(s.procs, registers);
            InvOf(p, ch) && FlagsOk(p) && p.sched == NextTerminal(s.procs.sched)
            && p.counter == s.procs.counter && (p.Current().None? <==> ch[p.sched] == [])
  {
    PreemptKeeps(s.procs, ch, registers);
    CurrentHeads(Preempt(s.procs, registers), ch);
  }

  /** scheduler resumes the next terminal, or starts its first shell. */
  lemma TickKeeps(img: Image, s: System, ch: seq<seq<nat>>, registers: Context)
    requires Bootable(img) && Good(s) && InvOf(s.procs, ch) && s.procs.Current().Some?
    ensures var (s', r) := TickNow(img, s, registers); var n := NextTerminal(s.procs.sched);
            && s'.procs.sched == n && !r.Result?
            && (r.NoSlot? <==> ch[n] == [] && s.procs.counter == MAX_PID)
            && (r.Resumed? <==> ch[n] != [])
            && (r.Started? ==> Good(s') && InvOf(s'.procs, ch[n := [r.pid]]))
            && (r.Resumed? ==> Good(s') && InvOf(s'.procs, ch))
  {
    var p := Preempt(s.procs, registers);
    PreemptedKeeps(s, ch, registers);
    if p.Current().None? {
      ShellKeeps(img, s.(procs := p), ch, registers);
    } else {
      RemapKeeps(p, ch);
      InvFromChains(Remap(p), ch);
    }
  }

  /** The first tick starts the first shell. */
  lemma BootTickKeeps(img: Image, s: System, ch: seq<seq<nat>>, registers: Context)
    requires Bootable(img) && Good(s) && InvOf(s.procs, ch) && s.procs.Current().None?
    ensures var (s', r) := BootTick(img, s, registers); var t := s.procs.sched;
            && (r.NoSlot? <==> s.procs.counter == MAX_PID) && (r.NoSlot? || r.Started?)
            && s'.procs.sched == t && ch[t] == []
            && (r.Started? ==> Good(s') && InvOf(s'.procs, ch[t := [r.pid]]))
  {
    ShellKeeps(img, s.(screens := Screens.ClearVisible(s.screens)), ch, registers);
  }

  /** A step that replaces a descriptor. */
  lemma FdStepKeeps(s: System, ch: seq<seq<nat>>, i: nat, d: Descriptor)
    requires Good(s) && InvOf(s.procs, ch) && s.procs.Current().Some? && i < DESCRIPTORS && d.flags <= 1
    ensures var s' := s.(procs := SetFd(s.procs, i, d));
            Good(s') && InvOf(s'.procs, ch) && (Clean(s.procs) ==> Clean(s'.procs))
  {
    CurrentHeads(s.procs, ch);
    SetFdKeeps(s.procs, ch, i, d);
    SetFdKeepsClean(s.procs, i, d);
    InvFromChains(SetFd(s.procs, i, d), ch);
  }

  /** The descriptor a step other than execute, halt and tick replaces, if any. */
  function FdChange(img: Image, s: System, e: Event): (r: Option<(nat, Descriptor)>)
    requires img.Valid() && s.Sized() && s.procs.Current().Some?
    ensures r.Some? ==> r.value.0 < DESCRIPTORS
  {
    var fds := s.procs.pcb[s.procs.Current().value].fd;
    match e
    case Open(name) =>
      var d := if name == [] then None else FindName(img, name);
      var i := FreeFd(fds, 2);
      if d.None? || i == -1 || Opened(d.value).None? then None else Some((i, Opened(d.value).value))
    case Close(fd) =>
      if fd < 2 || fd >= DESCRIPTORS || fds[fd].flags == 0 then None else Some((fd, Closed(fds[fd])))
    case Read(fd, buf, n, device) =>
      if ReadRefused(s.procs, fd, buf, n) then None
      else
        var got := Delivered(img, fds[fd], n, device, s.cursor);
        if !Reaches(buf, n, got) then None
        else Some((fd, fds[fd].(position := Advanced(fds[fd].position, got.value))))
    case _ => None
  }

  /** The processes with that descriptor replaced. */
  function FdChanged(img: Image, s: System, e: Event): (p: State)
    requires img.Valid() && s.Sized() && s.procs.Current().Some?
    ensures p.Sized()
  {
    var c := FdChange(img, s, e);
    if c.None? then s.procs else SetFd(s.procs, c.value.0, c.value.1)
  }

  /** open, close, read, getargs and the program's own stores change at most that
      descriptor, user memory and the directory cursor. */
  lemma FdSteps(img: Image, s: System, e: Event)
    requires Bootable(img) && s.Sized() && Alive(s.procs) && Minor(e)
    ensures var (s', r) := Call(img, s, e);
            && (r.Result? || r.Fault?)
            && s' == s.(procs := FdChanged(img, s, e), user := s'.user, cursor := s'.cursor)
    ensures FlagsOk(s.procs) && FdChange(img, s, e).Some? ==> FdChange(img, s, e).value.1.flags <= 1
  {
    if e.Open? {
      OpenSteps(img, s, e);
    }
  }

  lemma OpenSteps(img: Image, s: System, e: Event)
    requires Bootable(img) && s.Sized() && Alive(s.procs) && e.Open?
    ensures var (s', r) := Call(img, s, e);
            r.Result? && s' == s.(procs := FdChanged(img, s, e), user := s'.user, cursor := s'.cursor)
    ensures FlagsOk(s.procs) && FdChange(img, s, e).Some? ==> FdChange(img, s, e).value.1.flags <= 1
  {
  }
}
