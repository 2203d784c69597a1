/** Three private machines. The kernel shares one video page, one pid table, one
    pool of process control blocks and one scheduler among its terminals; each
    terminal behaves all the same as a machine of its own. */
module PrivateMachine {
  import opened Bytes
  import opened Helpers
  import opened Processes
  import opened Jobs
  import Console

  /** A terminal by itself: its console, its stack of jobs, and the registers it
      continues with while it is not scheduled. */
  datatype Machine = Machine(con: Console.Console, jobs: seq<Job>, resume: Option<Context>)

  datatype Event =
    | Print(text: seq<byte>)
    | Blank
    | Push(argument: seq<byte>, files: seq<Option<OpenFile>>, caller: Context)
    | Pop
    | SetFile(fd: nat, file: Option<OpenFile>)
    | Suspend(registers: Context)
    | Dispatch

  function Apply(m: Machine, e: Event): (r: Machine)
    requires m.con.Valid()
    ensures r.con.Valid()
  {
    match e
    case Print(text) => m.(con := Console.PutAll(m.con, text))
    case Blank => m.(con := Console.Clear(m.con))
    case Push(a, files, caller) =>
      m.(jobs := [Job(a, files, if m.jobs == [] then None else Some(caller))] + m.jobs)
    case Pop => if m.jobs == [] then m else m.(jobs := m.jobs[1..])
    case SetFile(fd, file) =>
      if m.jobs == [] || fd >= |m.jobs[0].files| then m
      else m.(jobs := m.jobs[0 := m.jobs[0].(files := m.jobs[0].files[fd := file])])
    case Suspend(registers) => m.(resume := Some(registers))
    case Dispatch => m.(resume := None)
  }

  function ApplyAll(m: Machine, es: seq<Event>): (r: Machine)
    requires m.con.Valid()
    ensures r.con.Valid()
    decreases |es|
  {
    if es == [] then m else ApplyAll(Apply(m, es[0]), es[1..])
  }

  lemma {:induction false} ApplyAppended(m: Machine, es: seq<Event>, fs: seq<Event>)
    requires m.con.Valid()
    ensures ApplyAll(m, es + fs) == ApplyAll(ApplyAll(m, es), fs)
    decreases |es|
  {
    if es == [] {
      assert es + fs == fs;
    } else {
      assert (es + fs)[1..] == es[1..] + fs;
      ApplyAppended(Apply(m, es[0]), es[1..], fs);
    }
  }

  lemma ApplyOne(m: Machine, e: Event)
    requires m.con.Valid()
    ensures ApplyAll(m, [e]) == Apply(m, e)
  {
    assert ApplyAll(Apply(m, e), [e][1..]) == Apply(m, e);
  }

  lemma ApplyTwo(m: Machine, e: Event, f: Event)
    requires m.con.Valid()
    ensures ApplyAll(m, [e, f]) == Apply(Apply(m, e), f)
  {
    ApplyOne(Apply(m, e), f);
    assert [e, f][1..] == [f];
  }
}

/** Every step of the kernel is a step of the private machines. */
module Refinement {
  import opened Bytes
  import opened FileSystem
  import opened Helpers
  import opened Commands
  import opened Processes
  import opened Chains
  import opened Jobs
  import opened System
  import opened Local
  import PM = PrivateMachine
  import Console
  import Screens

  /** The job stack of terminal t. */
  function View(p: State, t: nat): seq<Job>
    requires p.Sized() && t < TERMINALS
  {
    JobsOf(p.pcb, Chain(p, t))
  }

  /** The registers saved for a terminal that is not scheduled. */
  function Resume(p: State, t: nat): Option<Context>
    requires p.Sized() && t < TERMINALS
  {
    if t == p.sched || p.top[t].None? then None else Some(p.pcb[p.top[t].value].saved)
  }

  /** The private machine of terminal t. */
  function MachineOf(s: System, t: nat): (m: PM.Machine)
    requires s.Sized() && t < TERMINALS
    ensures m.con.Valid()
  {
    PM.Machine(s.screens.Screen(t), View(s.procs, t), Resume(s.procs, t))
  }

  /** The open files of the next process, as init_pcb will leave them in the block
      that find_pid gives it. */
  function NewFiles(p: State): seq<Option<OpenFile>>
    requires p.Sized()
  {
    var q := FindPid(p.pid, 0);
    if q == -1 then [] else Files(InitFds(p.pcb[q].fd))
  }

  /** What a step of the kernel means to terminal t. */
  function EventsFor(img: Image, s: System, e: Event, t: nat): seq<PM.Event>
    requires Bootable(img) && Ready(s) && t < TERMINALS
  {
    var mine := t == s.procs.sched;
    match e
    case Putc(c) => if mine then [PM.Print([c])] else []
    case Clear => if t == s.screens.visible then [PM.Blank] else []
    case Switch(_) => []
    case Tick(registers) =>
      if s.procs.Current().None? then
        (if t == s.screens.visible then [PM.Blank] else [])
        + (if mine then [PM.Push([], NewFiles(s.procs), registers)] else [])
      else
        var n := NextTerminal(s.procs.sched);
        TickEvents(mine, t == n, s.procs.top[n].None?, NewFiles(s.procs), registers)
    case Execute(line, registers) =>
      if !mine || s.procs.Current().None? || ParseLine(line).None? then []
      else if LimitHit(s.procs, ParseLine(line).value.name) then [PM.Print(LIMIT_MESSAGE)]
      else if !Executable(img, ParseLine(line).value.name) then []
      else [PM.Push(ParseLine(line).value.argument, NewFiles(s.procs), registers)]
    case Halt(registers) =>
      if !mine || s.procs.Current().None? then []
      else if IsRoot(s.procs) then [PM.Pop, PM.Push([], NewFiles(DropRoot(s.procs)), registers)] else [PM.Pop]
    case _ =>
      if !mine || s.procs.Current().None? || FdChange(img, s, e).None? then []
      else [PM.SetFile(FdChange(img, s, e).value.0, FileOf(FdChange(img, s, e).value.1))]
  }

  lemma ViewIs(p: State, ch: seq<seq<nat>>, t: nat)
    requires InvOf(p, ch) && t < TERMINALS
    ensures View(p, t) == JobsOf(p.pcb, ch[t])
    ensures p.top[t] == if ch[t] == [] then None else Some(ch[t][0])
    ensures forall i :: 0 <= i < |ch[t]| ==> ch[t][i] < PIDS
  {
    ChainsAre(p, ch);
    ChainBounds(p, ch);
  }

  /** A terminal whose blocks a step leaves alone keeps its stack, and its saved
      registers while it is scheduled neither before nor after. */
  lemma KeptBlocks(p: State, p': State, ch: seq<seq<nat>>, ch': seq<seq<nat>>, u: nat)
    requires InvOf(p, ch) && InvOf(p', ch') && u < TERMINALS && ch'[u] == ch[u] && SameBlocks(p.pcb, p'.pcb, ch[u])
    ensures View(p', u) == View(p, u)
    ensures (u == p.sched <==> u == p'.sched) ==> Resume(p', u) == Resume(p, u)
  {
    ViewIs(p, ch, u);
    ViewIs(p', ch', u);
    forall i | 0 <= i < |ch[u]| ensures p'.pcb[ch[u][i]] == p.pcb[ch[u][i]] {
      assert ch[u][i] in ch[u];
    }
    JobsKept(p.pcb, p'.pcb, ch[u]);
  }

  /** Stack and saved registers of one terminal. */
  predicate SameProcess(p: State, p': State, u: nat)
    requires p.Sized() && p'.Sized() && u < TERMINALS
  {
    View(p', u) == View(p, u) && Resume(p', u) == Resume(p, u)
  }

  /** Starting a program pushes a job on the scheduled terminal's stack. */
  lemma StartIsPush(img: Image, s: System, ch: seq<seq<nat>>, name: seq<byte>, argument: seq<byte>, registers: Context)
    requires Bootable(img) && Executable(img, name) && s.Sized() && InvOf(s.procs, ch) && FlagsOk(s.procs)
    requires Start(img, s, name, argument, registers).1.Started?
    ensures var s' := Start(img, s, name, argument, registers).0; var v := View(s.procs, s.procs.sched);
            View(s'.procs, s.procs.sched)
            == [Job(argument, NewFiles(s.procs), if v == [] then None else Some(registers))] + v
  {
    var (s', r) := Start(img, s, name, argument, registers);
    var t := s.procs.sched;
    StartKeeps(img, s, ch, name, argument, registers);
    ViewIs(s.procs, ch, t);
    ViewIs(s'.procs, ch[t := [r.pid] + ch[t]], t);
    LaunchJobs(s.procs, ch, argument, registers);
  }

  lemma StartElsewhere(img: Image, s: System, ch: seq<seq<nat>>, name: seq<byte>, argument: seq<byte>,
                       registers: Context, u: nat)
    requires Bootable(img) && Executable(img, name) && s.Sized() && InvOf(s.procs, ch) && FlagsOk(s.procs)
    requires Start(img, s, name, argument, registers).1.Started? && u < TERMINALS && u != s.procs.sched
    ensures SameProcess(s.procs, Start(img, s, name, argument, registers).0.procs, u)
  {
    var (s', r) := Start(img, s, name, argument, registers);
    StartKeeps(img, s, ch, name, argument, registers);
    LaunchElsewhere(s.procs, ch, argument, registers, u);
    KeptBlocks(s.procs, s'.procs, ch, ch[s.procs.sched := [r.pid] + ch[s.procs.sched]], u);
  }

  /** Dropping a root shell empties its terminal's stack and keeps the others. */
  lemma DropRootIsPop(s: State, ch: seq<seq<nat>>, u: nat)
    requires InvOf(s, ch) && |ch[s.sched]| == 1 && CanHalt(s) && IsRoot(s) && u < TERMINALS
    ensures u == s.sched ==> |View(s, u)| == 1 && View(DropRoot(s), u) == []
    ensures u != s.sched ==> SameProcess(s, DropRoot(s), u)
  {
    DropRootKeeps(s, ch);
    ViewIs(s, ch, u);
    ViewIs(DropRoot(s), ch[s.sched := []], u);
    if u != s.sched {
      KeptBlocks(s, DropRoot(s), ch, ch[s.sched := []], u);
    }
  }

  /** A child's halt pops its job and keeps the other terminals. */
  lemma ReturnIsPop(s: State, ch: seq<seq<nat>>, u: nat)
    requires InvOf(s, ch) && |ch[s.sched]| > 1 && CanHalt(s) && !IsRoot(s) && u < TERMINALS
    ensures u == s.sched ==> View(s, u) != [] && View(ReturnToParent(s), u) == View(s, u)[1..]
    ensures u != s.sched ==> SameProcess(s, ReturnToParent(s), u)
  {
    ReturnKeeps(s, ch);
    ViewIs(s, ch, u);
    ViewIs(ReturnToParent(s), ch[s.sched := ch[s.sched][1..]], u);
    if u == s.sched {
      ReturnJobs(s, ch);
    } else {
      CurrentBlockOnly(s, ch, ReturnToParent(s).pcb);
      KeptBlocks(s, ReturnToParent(s), ch, ch[s.sched := ch[s.sched][1..]], u);
    }
  }

  /** The registers a halted child's caller continues with. */
  lemma ReturnCaller(s: State, ch: seq<seq<nat>>)
    requires InvOf(s, ch) && |ch[s.sched]| > 1 && CanHalt(s) && ch[s.sched][1] < PIDS
    ensures View(s, s.sched) != [] && View(s, s.sched)[0].caller == Some(s.pcb[ch[s.sched][1]].halted)
  {
    ViewIs(s, ch, s.sched);
    ReturnJobs(s, ch);
  }

  /** Replacing a descriptor changes one file of the current job. */
  lemma SetFdIsLocal(s: State, ch: seq<seq<nat>>, i: nat, d: Descriptor, u: nat)
    requires InvOf(s, ch) && s.Current().Some? && i < DESCRIPTORS && u < TERMINALS
    ensures u == s.sched ==>
              && View(s, u) != [] && |View(s, u)[0].files| == DESCRIPTORS
              && View(SetFd(s, i, d), u)
                 == View(s, u)[0 := View(s, u)[0].(files := View(s, u)[0].files[i := FileOf(d)])]
              && Resume(SetFd(s, i, d), u) == Resume(s, u)
    ensures u != s.sched ==> SameProcess(s, SetFd(s, i, d), u)
  {
    SetFdKeeps(s, ch, i, d);
    ViewIs(s, ch, u);
    ViewIs(SetFd(s, i, d), ch, u);
    CurrentHeads(s, ch);
    if u == s.sched {
      SetFdJobs(s, ch, i, d);
    } else {
      CurrentBlockOnly(s, ch, SetFd(s, i, d).pcb);
      KeptBlocks(s, SetFd(s, i, d), ch, ch, u);
    }
  }

  /** The first half of a tick saves the registers of the interrupted terminal;
      stacks and the third terminal's registers stay. */
  lemma PreemptIsLocal(s: State, ch: seq<seq<nat>>, registers: Context, u: nat)
    requires InvOf(s, ch) && s.Current().Some? && u < TERMINALS
    ensures View(Preempt(s, registers), u) == View(s, u)
    ensures Resume(Preempt(s, registers), u) ==
            if u == s.sched then Some(registers) else if u == NextTerminal(s.sched) then None else Resume(s, u)
  {
    var p := Preempt(s, registers);
    PreemptKeeps(s, ch, registers);
    CurrentHeads(s, ch);
    if u == s.sched {
      ViewIs(s, ch, u);
      ViewIs(p, ch, u);
      JobsKept(s.pcb, p.pcb, ch[u]);
    } else {
      CurrentBlockOnly(s, ch, p.pcb);
      KeptBlocks(s, p, ch, ch, u);
    }
  }

  lemma RemapIsLocal(s: State, u: nat)
    requires s.Sized() && s.Current().Some? && u < TERMINALS
    ensures SameProcess(s, Remap(s), u)
  {
  }

  /** A root shell halts with descriptor 7 open. */
  predicate Leaks(s: System, e: Event)
    requires Ready(s)
  {
    e.Halt? && s.procs.Current().Some? && IsRoot(s.procs) && s.procs.pcb[s.procs.Current().value].fd[7].flags != 0
  }

  /** putc, Ctrl+L and the terminal switch change consoles only. */
  lemma ScreenStepIsLocal(img: Image, s: System, e: Event, t: nat)
    requires Bootable(img) && Ready(s) && t < TERMINALS && (e.Putc? || e.Clear? || e.Switch?)
    ensures Step(img, s, e).0.procs == s.procs
    ensures MachineOf(Step(img, s, e).0, t) == PM.ApplyAll(MachineOf(s, t), EventsFor(img, s, e, t))
  {
    var m := MachineOf(s, t);
    match e
    case Putc(c) =>
      Screens.PutcIsPrivate(s.screens, s.procs.sched, c, t);
      PM.ApplyOne(m, PM.Print([c]));
      assert Console.PutAll(m.con, [c]) == Console.Put(Console.PutAll(m.con, [c][..0]), c);
    case Clear =>
      Screens.ClearIsPrivate(s.screens, t);
      PM.ApplyOne(m, PM.Blank);
    case Switch(next) =>
      if next < TERMINALS {
        Screens.SwitchKeepsScreens(s.screens, next, t);
      }
  }

  lemma FdStepIsLocal(img: Image, s: System, ch: seq<seq<nat>>, e: Event, t: nat)
    requires Bootable(img) && s.Sized() && InvOf(s.procs, ch) && Ready(s) && t < TERMINALS
    requires Minor(e) && s.procs.Current().Some?
    ensures MachineOf(Call(img, s, e).0, t) == PM.ApplyAll(MachineOf(s, t), EventsFor(img, s, e, t))
  {
    FdSteps(img, s, e);
    FdEventsAre(img, s, e, t);
    var c := FdChange(img, s, e);
    if c.Some? {
      FdChangeIsLocal(s, ch, c.value.0, c.value.1, t);
      PM.ApplyOne(MachineOf(s, t), PM.SetFile(c.value.0, FileOf(c.value.1)));
    }
  }

  lemma FdEventsAre(img: Image, s: System, e: Event, t: nat)
    requires Bootable(img) && Ready(s) && t < TERMINALS
    requires Minor(e) && s.procs.Current().Some?
    ensures var c := FdChange(img, s, e);
            EventsFor(img, s, e, t)
            == if t == s.procs.sched && c.Some? then [PM.SetFile(c.value.0, FileOf(c.value.1))] else []
  {
  }

  lemma FdChangeIsLocal(s: System, ch: seq<seq<nat>>, i: nat, d: Descriptor, t: nat)
    requires s.Sized() && InvOf(s.procs, ch) && s.procs.Current().Some? && i < DESCRIPTORS && t < TERMINALS
    ensures MachineOf(s.(procs := SetFd(s.procs, i, d)), t)
         == if t == s.procs.sched then PM.Apply(MachineOf(s, t), PM.SetFile(i, FileOf(d))) else MachineOf(s, t)
  {
    SetFdIsLocal(s.procs, ch, i, d, t);
  }

  /** What starting a program does to the process view of terminal t. */
  lemma StartFacts(img: Image, s: System, ch: seq<seq<nat>>, name: seq<byte>, argument: seq<byte>,
                   registers: Context, t: nat)
    requires Bootable(img) && Executable(img, name) && s.Sized() && InvOf(s.procs, ch) && FlagsOk(s.procs)
    requires Start(img, s, name, argument, registers).1.Started? && t < TERMINALS
    ensures var s' := Start(img, s, name, argument, registers).0; var v := View(s.procs, t);
            && s'.screens == s.screens && s'.procs.sched == s.procs.sched
            && View(s'.procs, t) == (if t == s.procs.sched
                 then [Job(argument, NewFiles(s.procs), if v == [] then None else Some(registers))] + v else v)
            && Resume(s'.procs, t) == Resume(s.procs, t)
  {
    StartKeeps(img, s, ch, name, argument, registers);
    if t == s.procs.sched {
      StartIsPush(img, s, ch, name, argument, registers);
    } else {
      StartElsewhere(img, s, ch, name, argument, registers, t);
    }
  }

  lemma StartIsLocal(img: Image, s: System, ch: seq<seq<nat>>, name: seq<byte>, argument: seq<byte>,
                     registers: Context, t: nat)
    requires Bootable(img) && Executable(img, name) && s.Sized() && InvOf(s.procs, ch) && FlagsOk(s.procs)
    requires Start(img, s, name, argument, registers).1.Started? && t < TERMINALS
    ensures MachineOf(Start(img, s, name, argument, registers).0, t)
         == if t == s.procs.sched then PM.Apply(MachineOf(s, t), PM.Push(argument, NewFiles(s.procs), registers))
            else MachineOf(s, t)
  {
    StartFacts(img, s, ch, name, argument, registers, t);
  }

  lemma ExecuteIsLocal(img: Image, s: System, ch: seq<seq<nat>>, line: seq<byte>, registers: Context, t: nat)
    requires Bootable(img) && s.Sized() && InvOf(s.procs, ch) && FlagsOk(s.procs) && Ready(s)
    requires t < TERMINALS && s.procs.Current().Some? && !ExecuteLine(img, s, line, registers).1.NoSlot?
    ensures MachineOf(ExecuteLine(img, s, line, registers).0, t)
         == PM.ApplyAll(MachineOf(s, t), EventsFor(img, s, Execute(line, registers), t))
  {
    var c, m := ParseLine(line), MachineOf(s, t);
    ExecuteEventsAre(img, s, line, registers, t);
    if c.Some? && LimitHit(s.procs, c.value.name) {
      PutsIsLocal(s, LIMIT_MESSAGE, t);
      PM.ApplyOne(m, PM.Print(LIMIT_MESSAGE));
    } else if c.Some? && Executable(img, c.value.name) {
      StartIsLocal(img, s, ch, c.value.name, c.value.argument, registers, t);
      PM.ApplyOne(m, PM.Push(c.value.argument, NewFiles(s.procs), registers));
    }
  }

  lemma ExecuteEventsAre(img: Image, s: System, line: seq<byte>, registers: Context, t: nat)
    requires Bootable(img) && Ready(s) && s.procs.Current().Some? && t < TERMINALS
    ensures var c := ParseLine(line);
            EventsFor(img, s, Execute(line, registers), t)
            == if t != s.procs.sched || c.None? then []
               else if LimitHit(s.procs, c.value.name) then [PM.Print(LIMIT_MESSAGE)]
               else if Executable(img, c.value.name) then [PM.Push(c.value.argument, NewFiles(s.procs), registers)]
               else []
  {
  }

  lemma PutsIsLocal(s: System, text: seq<byte>, t: nat)
    requires s.Sized() && t < TERMINALS
    ensures MachineOf(s.(screens := Screens.Puts(s.screens, s.procs.sched, text)), t)
         == if t == s.procs.sched then PM.Apply(MachineOf(s, t), PM.Print(text)) else MachineOf(s, t)
  {
    Screens.PutsIsPrivate(s.screens, s.procs.sched, text, t);
  }

  /** A root shell that halts is replaced by a new one. */
  lemma RootHaltIsLocal(img: Image, s: System, ch: seq<seq<nat>>, registers: Context, t: nat)
    requires Bootable(img) && s.Sized() && InvOf(s.procs, ch) && FlagsOk(s.procs) && Alive(s.procs)
    requires IsRoot(s.procs) && t < TERMINALS
    ensures MachineOf(HaltNow(img, s, registers).0, t) ==
            if t != s.procs.sched then MachineOf(s, t)
            else PM.Apply(PM.Apply(MachineOf(s, t), PM.Pop), PM.Push([], NewFiles(DropRoot(s.procs)), registers))
  {
    var s1 := s.(procs := DropRoot(s.procs));
    CurrentHeads(s.procs, ch);
    RestartFindsPid(img, s, ch, registers);
    DropRootIsLocal(s, s1, ch, t);
    StartIsLocal(img, s1, ch[s.procs.sched := []], SHELL, [], registers, t);
  }

  lemma DropRootIsLocal(s: System, s1: System, ch: seq<seq<nat>>, t: nat)
    requires s.Sized() && InvOf(s.procs, ch) && CanHalt(s.procs) && IsRoot(s.procs) && t < TERMINALS
    requires |ch[s.procs.sched]| == 1 && s1 == s.(procs := DropRoot(s.procs))
    ensures MachineOf(s1, t) == if t == s.procs.sched then PM.Apply(MachineOf(s, t), PM.Pop) else MachineOf(s, t)
    ensures Clean(s.procs) && s.procs.pcb[s.procs.Current().value].fd[7].flags == 0 ==> Clean(s1.procs)
  {
    DropRootIsPop(s.procs, ch, t);
  }

  lemma RootHaltEvents(img: Image, s: System, r: Context)
    requires Bootable(img) && Ready(s) && s.procs.Current().Some? && IsRoot(s.procs)
    ensures EventsFor(img, s, Halt(r), s.procs.sched) == [PM.Pop, PM.Push([], NewFiles(DropRoot(s.procs)), r)]
  {
  }

  lemma ChildHaltEvents(img: Image, s: System, r: Context)
    requires Bootable(img) && Ready(s) && s.procs.Current().Some? && !IsRoot(s.procs)
    ensures EventsFor(img, s, Halt(r), s.procs.sched) == [PM.Pop]
  {
  }

  /** Any other process that halts leaves its caller. */
  lemma ChildHaltIsLocal(img: Image, s: System, ch: seq<seq<nat>>, registers: Context, t: nat)
    requires Bootable(img) && s.Sized() && InvOf(s.procs, ch) && FlagsOk(s.procs) && Alive(s.procs)
    requires !IsRoot(s.procs) && |ch[s.procs.sched]| > 1 && t < TERMINALS
    ensures MachineOf(HaltNow(img, s, registers).0, t) ==
            if t == s.procs.sched then PM.Apply(MachineOf(s, t), PM.Pop) else MachineOf(s, t)
  {
    ReturnIsPop(s.procs, ch, t);
  }

  lemma HaltIsLocal(img: Image, s: System, ch: seq<seq<nat>>, registers: Context, t: nat)
    requires Bootable(img) && s.Sized() && InvOf(s.procs, ch) && FlagsOk(s.procs) && Ready(s)
    requires t < TERMINALS && s.procs.Current().Some?
    ensures MachineOf(HaltNow(img, s, registers).0, t)
         == PM.ApplyAll(MachineOf(s, t), EventsFor(img, s, Halt(registers), t))
  {
    CurrentHeads(s.procs, ch);
    if IsRoot(s.procs) {
      RootHaltIsLocal(img, s, ch, registers, t);
      RootHaltMeans(img, s, registers, t);
    } else {
      ChildHaltIsLocal(img, s, ch, registers, t);
      ChildHaltMeans(img, s, registers, t);
    }
  }

  lemma RootHaltMeans(img: Image, s: System, r: Context, t: nat)
    requires Bootable(img) && Ready(s) && s.procs.Current().Some? && IsRoot(s.procs) && t < TERMINALS
    ensures PM.ApplyAll(MachineOf(s, t), EventsFor(img, s, Halt(r), t)) ==
            if t != s.procs.sched then MachineOf(s, t)
            else PM.Apply(PM.Apply(MachineOf(s, t), PM.Pop), PM.Push([], NewFiles(DropRoot(s.procs)), r))
  {
    RootHaltEvents(img, s, r);
    PM.ApplyTwo(MachineOf(s, t), PM.Pop, PM.Push([], NewFiles(DropRoot(s.procs)), r));
  }

  lemma ChildHaltMeans(img: Image, s: System, r: Context, t: nat)
    requires Bootable(img) && Ready(s) && s.procs.Current().Some? && !IsRoot(s.procs) && t < TERMINALS
    ensures PM.ApplyAll(MachineOf(s, t), EventsFor(img, s, Halt(r), t)) ==
            if t == s.procs.sched then PM.Apply(MachineOf(s, t), PM.Pop) else MachineOf(s, t)
  {
    ChildHaltEvents(img, s, r);
    PM.ApplyOne(MachineOf(s, t), PM.Pop);
  }

  /** What a tick does to the process view of terminal t. */
  lemma TickFacts(img: Image, s: System, ch: seq<seq<nat>>, registers: Context, t: nat)
    requires Bootable(img) && Good(s) && InvOf(s.procs, ch) && t < TERMINALS
    requires s.procs.Current().Some? && !TickNow(img, s, registers).1.NoSlot?
    ensures var s' := TickNow(img, s, registers).0; var n := NextTerminal(s.procs.sched);
            && s'.screens == s.screens
            && (t == n && s.procs.top[n].None? ==> View(s.procs, t) == [])
            && View(s'.procs, t) ==
               (if t == n && s.procs.top[n].None? then [Job([], NewFiles(s.procs), None)] else View(s.procs, t))
            && Resume(s'.procs, t) ==
               (if t == s.procs.sched then Some(registers) else if t == n then None else Resume(s.procs, t))
  {
    if s.procs.top[NextTerminal(s.procs.sched)].None? {
      TickToEmpty(img, s, ch, registers, t);
    } else {
      TickToJob(img, s, ch, registers, t);
    }
  }

  lemma TickToEmpty(img: Image, s: System, ch: seq<seq<nat>>, registers: Context, t: nat)
    requires Bootable(img) && Good(s) && InvOf(s.procs, ch) && t < TERMINALS
    requires s.procs.Current().Some? && !TickNow(img, s, registers).1.NoSlot?
    requires s.procs.top[NextTerminal(s.procs.sched)].None?
    ensures var s' := TickNow(img, s, registers).0; var n := NextTerminal(s.procs.sched);
            && s'.screens == s.screens
            && (t == n ==> View(s.procs, t) == [])
            && View(s'.procs, t) == (if t == n then [Job([], NewFiles(s.procs), None)] else View(s.procs, t))
            && Resume(s'.procs, t) ==
               (if t == s.procs.sched then Some(registers) else if t == n then None else Resume(s.procs, t))
  {
    var s1 := s.(procs := Preempt(s.procs, registers));
    PreemptedKeeps(s, ch, registers);
    PreemptIsLocal(s.procs, ch, registers, t);
    PreemptNewFiles(s.procs, registers);
    FirstShellFacts(img, s1, ch, registers, t);
  }

  lemma PreemptNewFiles(p: State, registers: Context)
    requires p.Sized() && p.Current().Some?
    ensures NewFiles(Preempt(p, registers)) == NewFiles(p)
  {
    var q := FindPid(p.pid, 0);
    assert q != -1 ==> Preempt(p, registers).pcb[q].fd == p.pcb[q].fd;
  }

  lemma TickToJob(img: Image, s: System, ch: seq<seq<nat>>, registers: Context, t: nat)
    requires Bootable(img) && Good(s) && InvOf(s.procs, ch) && t < TERMINALS
    requires s.procs.Current().Some? && s.procs.top[NextTerminal(s.procs.sched)].Some?
    ensures var s' := TickNow(img, s, registers).0;
            && s'.screens == s.screens
            && View(s'.procs, t) == View(s.procs, t)
            && Resume(s'.procs, t) ==
               (if t == s.procs.sched then Some(registers) else if t == NextTerminal(s.procs.sched) then None
                else Resume(s.procs, t))
  {
    PreemptIsLocal(s.procs, ch, registers, t);
    RemapIsLocal(Preempt(s.procs, registers), t);
  }

  /** A terminal without a process gets a shell. */
  lemma FirstShellFacts(img: Image, s: System, ch: seq<seq<nat>>, registers: Context, t: nat)
    requires Bootable(img) && s.Sized() && InvOf(s.procs, ch) && FlagsOk(s.procs) && t < TERMINALS
    requires s.procs.Current().None? && !ExecuteLine(img, s, SHELL, registers).1.NoSlot?
    ensures var s' := ExecuteLine(img, s, SHELL, registers).0;
            && s'.screens == s.screens
            && (t == s.procs.sched ==> View(s.procs, t) == [])
            && View(s'.procs, t) ==
               (if t == s.procs.sched then [Job([], NewFiles(s.procs), None)] else View(s.procs, t))
            && Resume(s'.procs, t) == Resume(s.procs, t)
  {
    ShellStarts(img, s, registers);
    StartFacts(img, s, ch, SHELL, [], registers, t);
    CurrentHeads(s.procs, ch);
    ViewIs(s.procs, ch, s.procs.sched);
  }

  function TickEvents(mine: bool, next: bool, empty: bool, files: seq<Option<OpenFile>>, registers: Context)
    : seq<PM.Event>
  {
    if mine then [PM.Suspend(registers)]
    else if !next then []
    else if empty then [PM.Dispatch, PM.Push([], files, registers)] else [PM.Dispatch]
  }

  lemma TickMachine(m: PM.Machine, m': PM.Machine, mine: bool, next: bool, empty: bool,
                    files: seq<Option<OpenFile>>, registers: Context)
    requires m.con.Valid() && m'.con == m.con && !(mine && next)
    requires next && empty ==> m.jobs == []
    requires m'.jobs == if next && empty then [Job([], files, None)] else m.jobs
    requires m'.resume == if mine then Some(registers) else if next then None else m.resume
    ensures m' == PM.ApplyAll(m, TickEvents(mine, next, empty, files, registers))
  {
    if mine {
      PM.ApplyOne(m, PM.Suspend(registers));
    } else if next && empty {
      PM.ApplyTwo(m, PM.Dispatch, PM.Push([], files, registers));
    } else if next {
      PM.ApplyOne(m, PM.Dispatch);
    }
  }

  lemma TickIsLocal(img: Image, s: System, ch: seq<seq<nat>>, registers: Context, t: nat)
    requires Bootable(img) && Good(s) && Ready(s) && InvOf(s.procs, ch) && t < TERMINALS
    requires s.procs.Current().Some? && !TickNow(img, s, registers).1.NoSlot?
    ensures MachineOf(TickNow(img, s, registers).0, t)
         == PM.ApplyAll(MachineOf(s, t), EventsFor(img, s, Tick(registers), t))
  {
    TickFacts(img, s, ch, registers, t);
    TickEventsAre(img, s, registers, t);
    TickAssembled(s, TickNow(img, s, registers).0, t, registers);
  }

  lemma TickEventsAre(img: Image, s: System, registers: Context, t: nat)
    requires Bootable(img) && Ready(s) && s.procs.Current().Some? && t < TERMINALS
    ensures var n := NextTerminal(s.procs.sched);
            EventsFor(img, s, Tick(registers), t)
            == TickEvents(t == s.procs.sched, t == n, s.procs.top[n].None?, NewFiles(s.procs), registers)
  {
  }

  lemma TickAssembled(s: System, s': System, t: nat, registers: Context)
    requires s.Sized() && s'.Sized() && t < TERMINALS && s'.screens == s.screens
    requires var n, v := NextTerminal(s.procs.sched), View(s.procs, t);
             && (t == n && s.procs.top[n].None? ==> v == [])
             && View(s'.procs, t) ==
                (if t == n && s.procs.top[n].None? then [Job([], NewFiles(s.procs), None)] else v)
             && Resume(s'.procs, t) ==
                (if t == s.procs.sched then Some(registers) else if t == n then None else Resume(s.procs, t))
    ensures var n := NextTerminal(s.procs.sched);
            MachineOf(s', t)
            == PM.ApplyAll(MachineOf(s, t), TickEvents(t == s.procs.sched, t == n, s.procs.top[n].None?,
                                                       NewFiles(s.procs), registers))
  {
    var n := NextTerminal(s.procs.sched);
    TickMachine(MachineOf(s, t), MachineOf(s', t), t == s.procs.sched, t == n, s.procs.top[n].None?,
                NewFiles(s.procs), registers);
  }

  lemma BootTickIsLocal(img: Image, s: System, ch: seq<seq<nat>>, registers: Context, t: nat)
    requires Bootable(img) && s.Sized() && InvOf(s.procs, ch) && FlagsOk(s.procs) && Ready(s)
    requires t < TERMINALS && s.procs.Current().None? && !BootTick(img, s, registers).1.NoSlot?
    ensures MachineOf(BootTick(img, s, registers).0, t)
         == PM.ApplyAll(MachineOf(s, t), EventsFor(img, s, Tick(registers), t))
  {
    var s1 := s.(screens := Screens.ClearVisible(s.screens));
    BlankIsLocal(s, s1, t);
    BootStart(img, s, s1, ch, registers, t);
    BlankPush(MachineOf(s, t), t == s.screens.visible, t == s.procs.sched, NewFiles(s.procs), registers);
    BootEventsAre(img, s, registers, t);
  }

  lemma BootStart(img: Image, s: System, s1: System, ch: seq<seq<nat>>, registers: Context, t: nat)
    requires Bootable(img) && s.Sized() && InvOf(s.procs, ch) && FlagsOk(s.procs)
    requires t < TERMINALS && s.procs.Current().None? && !BootTick(img, s, registers).1.NoSlot?
    requires s1 == s.(screens := Screens.ClearVisible(s.screens))
    ensures MachineOf(BootTick(img, s, registers).0, t)
         == if t == s.procs.sched then PM.Apply(MachineOf(s1, t), PM.Push([], NewFiles(s.procs), registers))
            else MachineOf(s1, t)
  {
    ShellStarts(img, s1, registers);
    StartIsLocal(img, s1, ch, SHELL, [], registers, t);
  }

  lemma BootEventsAre(img: Image, s: System, registers: Context, t: nat)
    requires Bootable(img) && Ready(s) && s.procs.Current().None? && t < TERMINALS
    ensures EventsFor(img, s, Tick(registers), t)
         == (if t == s.screens.visible then [PM.Blank] else [])
            + (if t == s.procs.sched then [PM.Push([], NewFiles(s.procs), registers)] else [])
  {
  }

  lemma BlankIsLocal(s: System, s1: System, t: nat)
    requires s.Sized() && t < TERMINALS && s1 == s.(screens := Screens.ClearVisible(s.screens))
    ensures MachineOf(s1, t) == if t == s.screens.visible then PM.Apply(MachineOf(s, t), PM.Blank) else MachineOf(s, t)
  {
    Screens.ClearIsPrivate(s.screens, t);
  }

  lemma BlankPush(m: PM.Machine, blank: bool, push: bool, files: seq<Option<OpenFile>>, registers: Context)
    requires m.con.Valid()
    ensures PM.ApplyAll(m, (if blank then [PM.Blank] else []) + (if push then [PM.Push([], files, registers)] else []))
         == var m1 := if blank then PM.Apply(m, PM.Blank) else m;
            if push then PM.Apply(m1, PM.Push([], files, registers)) else m1
  {
    var es, fs := if blank then [PM.Blank] else [], if push then [PM.Push([], files, registers)] else [];
    PM.ApplyAppended(m, es, fs);
    if blank {
      PM.ApplyOne(m, PM.Blank);
    }
    if push {
      PM.ApplyOne(PM.ApplyAll(m, es), PM.Push([], files, registers));
    }
  }
}
