/** Whole runs of the kernel. */
module Runs {
  import opened Bytes
  import opened FileSystem
  import opened Helpers
  import opened Commands
  import opened Processes
  import opened Chains
  import opened Jobs
  import opened System
  import opened Local
  import opened Refinement
  import PM = PrivateMachine
  import Screens

  /** Every step that finds a pid keeps the invariant. */
  lemma StepKeepsGood(img: Image, s: System, e: Event)
    requires Bootable(img) && Good(s) && Ready(s) && !Step(img, s, e).1.NoSlot?
    ensures Good(Step(img, s, e).0)
  {
    if e.Tick? {
      TickKeepsGood(img, s, ChainsOf(s.procs), e.registers);
    } else if s.procs.Current().Some? && !e.Putc? && !e.Clear? && !e.Switch? {
      CallerAlive(s);
      CallKeepsGood(img, s, ChainsOf(s.procs), e);
    }
  }

  lemma TickKeepsGood(img: Image, s: System, ch: seq<seq<nat>>, registers: Context)
    requires Bootable(img) && Good(s) && Ready(s) && InvOf(s.procs, ch) && !Step(img, s, Tick(registers)).1.NoSlot?
    ensures Good(Step(img, s, Tick(registers)).0)
  {
    StepIsTick(img, s, registers);
    if s.procs.Current().None? {
      BootKeepsGood(img, s, ch, registers);
    } else {
      LaterKeepsGood(img, s, ch, registers);
    }
  }

  lemma BootKeepsGood(img: Image, s: System, ch: seq<seq<nat>>, registers: Context)
    requires Bootable(img) && Good(s) && InvOf(s.procs, ch) && s.procs.Current().None?
    requires !BootTick(img, s, registers).1.NoSlot?
    ensures Good(BootTick(img, s, registers).0)
  {
    BootTickKeeps(img, s, ch, registers);
  }

  lemma LaterKeepsGood(img: Image, s: System, ch: seq<seq<nat>>, registers: Context)
    requires Bootable(img) && Good(s) && InvOf(s.procs, ch) && s.procs.Current().Some?
    requires !TickNow(img, s, registers).1.NoSlot?
    ensures Good(TickNow(img, s, registers).0)
  {
    TickKeeps(img, s, ch, registers);
  }

  lemma CallKeepsGood(img: Image, s: System, ch: seq<seq<nat>>, e: Event)
    requires Bootable(img) && Good(s) && InvOf(s.procs, ch) && Alive(s.procs) && !Call(img, s, e).1.NoSlot?
    ensures Good(Call(img, s, e).0)
  {
    match e
    case Execute(line, registers) => ExecuteKeepsGood(img, s, ch, line, registers);
    case Halt(registers) => HaltKeepsGood(img, s, ch, registers);
    case _ =>
      if Minor(e) {
        FdStepKeepsGood(img, s, e);
      }
  }

  lemma ExecuteKeepsGood(img: Image, s: System, ch: seq<seq<nat>>, line: seq<byte>, r: Context)
    requires Bootable(img) && Good(s) && InvOf(s.procs, ch) && !ExecuteLine(img, s, line, r).1.NoSlot?
    ensures Good(ExecuteLine(img, s, line, r).0)
  {
    ExecuteKeeps(img, s, ch, line, r);
    assert !ExecuteLine(img, s, line, r).1.Fault? by {
      ExecuteFaultsNot(img, s, line, r);
    }
  }

  lemma CallerAlive(s: System)
    requires Good(s) && s.procs.Current().Some?
    ensures Alive(s.procs)
  {
    GoodIsReady(s);
  }

  lemma HaltKeepsGood(img: Image, s: System, ch: seq<seq<nat>>, registers: Context)
    requires Bootable(img) && s.Sized() && InvOf(s.procs, ch) && FlagsOk(s.procs) && Alive(s.procs)
    ensures Good(HaltNow(img, s, registers).0)
  {
    CurrentHeads(s.procs, ch);
    if |ch[s.procs.sched]| == 1 {
      RootHaltKeeps(img, s, ch, registers);
    } else {
      ViewIs(s.procs, ch, s.procs.sched);
      ChildHaltKeeps(img, s, ch, registers);
    }
  }

  lemma FdStepKeepsGood(img: Image, s: System, e: Event)
    requires Bootable(img) && Good(s) && Alive(s.procs) && Minor(e)
    ensures Good(Call(img, s, e).0) && (Clean(s.procs) ==> Clean(Call(img, s, e).0.procs))
  {
    FdSteps(img, s, e);
    var c := FdChange(img, s, e);
    if c.Some? {
      FdStepKeeps(s, ChainsOf(s.procs), c.value.0, c.value.1);
    }
  }

  /** Every step keeps slot 7 of the vacant pids free, unless a root shell halts
      with descriptor 7 open. */
  lemma StepKeepsClean(img: Image, s: System, e: Event)
    requires Bootable(img) && Good(s) && Ready(s) && !Step(img, s, e).1.NoSlot?
    requires Clean(s.procs) && !Leaks(s, e)
    ensures Clean(Step(img, s, e).0.procs)
  {
    if s.procs.Current().None? {
      if e.Tick? {
        ShellKeepsClean(img, s.(screens := Screens.ClearVisible(s.screens)), ChainsOf(s.procs), e.registers);
      }
    } else if e.Tick? {
      TickKeepsClean(img, s, ChainsOf(s.procs), e.registers);
    } else if !e.Putc? && !e.Clear? && !e.Switch? {
      CallerAlive(s);
      CallKeepsClean(img, s, ChainsOf(s.procs), e);
    }
  }

  lemma CallKeepsClean(img: Image, s: System, ch: seq<seq<nat>>, e: Event)
    requires Bootable(img) && Good(s) && InvOf(s.procs, ch) && Alive(s.procs) && !Call(img, s, e).1.NoSlot?
    requires Ready(s) && Clean(s.procs) && !Leaks(s, e)
    ensures Clean(Call(img, s, e).0.procs)
  {
    match e
    case Execute(line, registers) => ExecuteKeepsClean(img, s, ch, line, registers);
    case Halt(registers) => HaltKeepsClean(img, s, ch, registers);
    case _ =>
      if Minor(e) {
        FdStepKeepsGood(img, s, e);
      }
  }

  lemma ShellKeepsClean(img: Image, s: System, ch: seq<seq<nat>>, registers: Context)
    requires Bootable(img) && s.Sized() && InvOf(s.procs, ch) && FlagsOk(s.procs) && Clean(s.procs)
    requires s.procs.Current().None? && !ExecuteLine(img, s, SHELL, registers).1.NoSlot?
    ensures Clean(ExecuteLine(img, s, SHELL, registers).0.procs)
  {
    ShellStarts(img, s, registers);
    StartKeeps(img, s, ch, SHELL, [], registers);
  }

  lemma TickKeepsClean(img: Image, s: System, ch: seq<seq<nat>>, registers: Context)
    requires Bootable(img) && Good(s) && InvOf(s.procs, ch) && s.procs.Current().Some? && Clean(s.procs)
    requires !TickNow(img, s, registers).1.NoSlot?
    ensures Clean(TickNow(img, s, registers).0.procs)
  {
    PreemptedKeeps(s, ch, registers);
    PreemptKeepsClean(s.procs, registers);
    if Preempt(s.procs, registers).Current().None? {
      ShellKeepsClean(img, s.(procs := Preempt(s.procs, registers)), ch, registers);
    }
  }

  lemma PreemptKeepsClean(p: State, registers: Context)
    requires p.Sized() && p.Current().Some? && Clean(p)
    ensures Clean(Preempt(p, registers))
  {
  }

  lemma ExecuteKeepsClean(img: Image, s: System, ch: seq<seq<nat>>, line: seq<byte>, registers: Context)
    requires Bootable(img) && s.Sized() && InvOf(s.procs, ch) && FlagsOk(s.procs) && Clean(s.procs)
    requires !ExecuteLine(img, s, line, registers).1.NoSlot?
    ensures Clean(ExecuteLine(img, s, line, registers).0.procs)
  {
    var c := ParseLine(line);
    if c.Some? && !LimitHit(s.procs, c.value.name) && Executable(img, c.value.name) {
      StartKeeps(img, s, ch, c.value.name, c.value.argument, registers);
    }
  }

  lemma HaltKeepsClean(img: Image, s: System, ch: seq<seq<nat>>, registers: Context)
    requires Bootable(img) && s.Sized() && InvOf(s.procs, ch) && FlagsOk(s.procs) && Alive(s.procs)
    requires Clean(s.procs) && (IsRoot(s.procs) ==> s.procs.pcb[s.procs.Current().value].fd[7].flags == 0)
    ensures Clean(HaltNow(img, s, registers).0.procs)
  {
    CurrentHeads(s.procs, ch);
    if IsRoot(s.procs) {
      var s1 := s.(procs := DropRoot(s.procs));
      RestartFindsPid(img, s, ch, registers);
      DropRootIsLocal(s, s1, ch, 0);
      StartKeeps(img, s1, ch[s.procs.sched := []], SHELL, [], registers);
    } else {
      ReturnKeepsClean(s.procs);
    }
  }

  /** The refinement: every step of the kernel is, for every terminal, the step
      of its private machine that EventsFor names. */
  lemma StepIsLocal(img: Image, s: System, e: Event, t: nat)
    requires Bootable(img) && Good(s) && Ready(s) && t < TERMINALS && !Step(img, s, e).1.NoSlot?
    ensures MachineOf(Step(img, s, e).0, t) == PM.ApplyAll(MachineOf(s, t), EventsFor(img, s, e, t))
  {
    var ch := ChainsOf(s.procs);
    if e.Putc? || e.Clear? || e.Switch? {
      ScreenStepIsLocal(img, s, e, t);
    } else if s.procs.Current().None? {
      if e.Tick? {
        BootTickIsLocal(img, s, ch, e.registers, t);
      }
    } else {
      CallerAlive(s);
      match e
      case Tick(registers) => TickIsLocal(img, s, ch, registers, t);
      case Execute(line, registers) => ExecuteIsLocal(img, s, ch, line, registers, t);
      case Halt(registers) => HaltIsLocal(img, s, ch, registers, t);
      case _ => FdStepIsLocal(img, s, ch, e, t);
    }
  }

  /** Steps of one terminal's process are nothing to the others. */
  lemma OthersSeeNothing(img: Image, s: System, e: Event, t: nat)
    requires Bootable(img) && Ready(s) && s.procs.Current().Some? && t < TERMINALS
    requires t != s.procs.sched && !e.Tick? && !e.Clear?
    ensures EventsFor(img, s, e, t) == []
  {
  }

  /** They leave their stacks alone. */
  lemma OthersKeepViews(img: Image, s: System, e: Event, t: nat)
    requires Bootable(img) && Good(s) && Ready(s) && s.procs.Current().Some? && t < TERMINALS
    requires t != s.procs.sched && !e.Tick? && !e.Clear? && !Step(img, s, e).1.NoSlot?
    ensures SameProcess(s.procs, Step(img, s, e).0.procs, t)
  {
    StepIsLocal(img, s, e, t);
    OthersSeeNothing(img, s, e, t);
  }

  // ---- Runs ----

  /** No step of the run is left without a pid, or gets a buffer outside the page of
      its program. */
  ghost predicate CanRun(img: Image, s: System, es: seq<Event>)
    requires Bootable(img) && Good(s)
    decreases |es|
  {
    es == [] || (GoodIsReady(s); !Stops(Step(img, s, es[0]).1) &&
                 (StepKeepsGood(img, s, es[0]); CanRun(img, Step(img, s, es[0]).0, es[1..])))
  }

  /** The state after a run. */
  ghost function Run(img: Image, s: System, es: seq<Event>): (r: System)
    requires Bootable(img) && Good(s) && CanRun(img, s, es)
    ensures Good(r)
    decreases |es|
  {
    if es == [] then s
    else
      GoodIsReady(s);
      StepKeepsGood(img, s, es[0]);
      Run(img, Step(img, s, es[0]).0, es[1..])
  }

  /** No root shell halts with descriptor 7 open in the run. */
  ghost predicate LeakFree(img: Image, s: System, es: seq<Event>)
    requires Bootable(img) && Good(s) && CanRun(img, s, es)
    decreases |es|
  {
    es == [] || (GoodIsReady(s); !Leaks(s, es[0]) &&
                 (StepKeepsGood(img, s, es[0]); LeakFree(img, Step(img, s, es[0]).0, es[1..])))
  }

  /** What a run means to terminal t. */
  ghost function Trace(img: Image, s: System, es: seq<Event>, t: nat): seq<PM.Event>
    requires Bootable(img) && Good(s) && CanRun(img, s, es) && t < TERMINALS
    decreases |es|
  {
    if es == [] then []
    else
      GoodIsReady(s);
      StepKeepsGood(img, s, es[0]);
      EventsFor(img, s, es[0], t) + Trace(img, Step(img, s, es[0]).0, es[1..], t)
  }

  /** Over every run and every interleaving, each terminal's console, stack of
      jobs and saved registers are those of its private machine. */
  lemma {:induction false} RunIsLocal(img: Image, s: System, es: seq<Event>, t: nat)
    requires Bootable(img) && Good(s) && CanRun(img, s, es) && t < TERMINALS
    ensures MachineOf(Run(img, s, es), t) == PM.ApplyAll(MachineOf(s, t), Trace(img, s, es, t))
    decreases |es|
  {
    if es != [] {
      GoodIsReady(s);
      var s' := Step(img, s, es[0]).0;
      StepKeepsGood(img, s, es[0]);
      StepIsLocal(img, s, es[0], t);
      RunIsLocal(img, s', es[1..], t);
      PM.ApplyAppended(MachineOf(s, t), EventsFor(img, s, es[0], t), Trace(img, s', es[1..], t));
    }
  }

  // ---- Fresh descriptors ----

  /** With a pid to find and the vacant blocks clean, the next process starts with
      the terminal on descriptors 0 and 1 and the others free. */
  lemma NewFilesFresh(p: State)
    requires p.Sized() && Clean(p) && FindPid(p.pid, 0) != -1
    ensures NewFiles(p) == FreshFiles()
  {
    FreshIff(p.pcb[FindPid(p.pid, 0)].fd);
  }

  /** Every process among the events starts with fresh descriptors. */
  predicate AllFresh(es: seq<PM.Event>) {
    forall i :: 0 <= i < |es| && es[i].Push? ==> es[i].files == FreshFiles()
  }

  lemma StepIsFresh(img: Image, s: System, e: Event, t: nat)
    requires Bootable(img) && Good(s) && Ready(s) && t < TERMINALS
    requires Clean(s.procs) && !Leaks(s, e) && !Step(img, s, e).1.NoSlot?
    ensures AllFresh(EventsFor(img, s, e, t))
  {
    NextIsFresh(s.procs);
    if e.Tick? {
      TickIsFresh(img, s, e.registers, t);
    } else if s.procs.Current().None? || (!e.Halt? && !e.Execute?) {
      OthersStartNothing(img, s, e, t);
    } else if e.Halt? {
      HaltIsFresh(img, s, e.registers, t);
    } else {
      CallerAlive(s);
      ExecuteIsFresh(img, s, e.line, e.registers, t);
    }
  }

  lemma NextIsFresh(p: State)
    requires p.Sized() && Clean(p)
    ensures FindPid(p.pid, 0) != -1 ==> NewFiles(p) == FreshFiles()
  {
    if FindPid(p.pid, 0) != -1 {
      NewFilesFresh(p);
    }
  }

  lemma OthersStartNothing(img: Image, s: System, e: Event, t: nat)
    requires Bootable(img) && Ready(s) && t < TERMINALS && !e.Tick?
    requires s.procs.Current().None? || (!e.Halt? && !e.Execute?)
    ensures AllFresh(EventsFor(img, s, e, t))
  {
  }

  lemma ExecuteIsFresh(img: Image, s: System, line: seq<byte>, r: Context, t: nat)
    requires Bootable(img) && Ready(s) && s.procs.Current().Some? && t < TERMINALS
    requires !ExecuteLine(img, s, line, r).1.NoSlot?
    requires FindPid(s.procs.pid, 0) != -1 ==> NewFiles(s.procs) == FreshFiles()
    ensures AllFresh(EventsFor(img, s, Execute(line, r), t))
  {
    ExecuteEventsAre(img, s, line, r, t);
  }

  lemma TickIsFresh(img: Image, s: System, r: Context, t: nat)
    requires Bootable(img) && Ready(s) && t < TERMINALS && !Step(img, s, Tick(r)).1.NoSlot?
    requires FindPid(s.procs.pid, 0) != -1 ==> NewFiles(s.procs) == FreshFiles()
    ensures AllFresh(EventsFor(img, s, Tick(r), t))
  {
    StepIsTick(img, s, r);
    if s.procs.Current().None? {
      BootFindsPid(img, s, r);
      BootIsFresh(img, s, r, t);
    } else {
      TickFindsPid(img, s, r);
      LaterTickIsFresh(img, s, r, t);
    }
  }

  lemma BootIsFresh(img: Image, s: System, r: Context, t: nat)
    requires Bootable(img) && Ready(s) && t < TERMINALS && s.procs.Current().None?
    requires NewFiles(s.procs) == FreshFiles()
    ensures AllFresh(EventsFor(img, s, Tick(r), t))
  {
    BootEventsAre(img, s, r, t);
  }

  lemma LaterTickIsFresh(img: Image, s: System, r: Context, t: nat)
    requires Bootable(img) && Ready(s) && t < TERMINALS && s.procs.Current().Some?
    requires s.procs.top[NextTerminal(s.procs.sched)].None? ==> NewFiles(s.procs) == FreshFiles()
    ensures AllFresh(EventsFor(img, s, Tick(r), t))
  {
    TickEventsAre(img, s, r, t);
  }

  /** The first tick has found a pid if it went on. */
  lemma BootFindsPid(img: Image, s: System, r: Context)
    requires Bootable(img) && s.Sized() && s.procs.Current().None? && !BootTick(img, s, r).1.NoSlot?
    ensures FindPid(s.procs.pid, 0) != -1
  {
    ShellStarts(img, s.(screens := Screens.ClearVisible(s.screens)), r);
  }

  /** A tick to a terminal without a process has found a pid if it went on. */
  lemma TickFindsPid(img: Image, s: System, r: Context)
    requires Bootable(img) && s.Sized() && s.procs.Current().Some? && !TickNow(img, s, r).1.NoSlot?
    ensures s.procs.top[NextTerminal(s.procs.sched)].None? ==> FindPid(s.procs.pid, 0) != -1
  {
    if s.procs.top[NextTerminal(s.procs.sched)].None? {
      ShellStarts(img, s.(procs := Preempt(s.procs, r)), r);
    }
  }

  lemma HaltIsFresh(img: Image, s: System, r: Context, t: nat)
    requires Bootable(img) && Ready(s) && s.procs.Current().Some? && t < TERMINALS
    requires Clean(s.procs) && !Leaks(s, Halt(r))
    ensures AllFresh(EventsFor(img, s, Halt(r), t))
  {
    if IsRoot(s.procs) {
      DroppedIsFresh(s.procs);
    }
  }

  lemma DroppedIsFresh(p: State)
    requires CanHalt(p) && Clean(p) && p.pcb[p.Current().value].fd[7].flags == 0
    ensures NewFiles(DropRoot(p)) == FreshFiles()
  {
    assert DropRoot(p).pid[p.Current().value] == VACANT;
    NewFilesFresh(DropRoot(p));
  }

  /** If the vacant blocks start clean and no root shell halts with descriptor 7
      open, every process of the run starts with descriptors 2 to 7 free. */
  lemma {:induction false} ProcessesStartFresh(img: Image, s: System, es: seq<Event>, t: nat)
    requires Bootable(img) && Good(s) && Clean(s.procs) && CanRun(img, s, es) && LeakFree(img, s, es) && t < TERMINALS
    ensures AllFresh(Trace(img, s, es, t)) && Clean(Run(img, s, es).procs)
    decreases |es|
  {
    if es != [] {
      GoodIsReady(s);
      var s' := Step(img, s, es[0]).0;
      StepKeepsGood(img, s, es[0]);
      StepKeepsClean(img, s, es[0]);
      StepIsFresh(img, s, es[0], t);
      ProcessesStartFresh(img, s', es[1..], t);
      FreshBoth(EventsFor(img, s, es[0], t), Trace(img, s', es[1..], t));
    }
  }

  lemma FreshBoth(es: seq<PM.Event>, fs: seq<PM.Event>)
    requires AllFresh(es) && AllFresh(fs)
    ensures AllFresh(es + fs)
  {
  }

  // ---- Boot ----

  /** Every terminal has a process. */
  predicate Booted(s: System)
    requires s.Sized()
  {
    forall t :: 0 <= t < TERMINALS ==> s.procs.top[t].Some?
  }

  /** When find_pid fails in a step: only with the process table full, and then
      only for a program named "exit" or for a terminal without a process. */
  lemma NoSlotIff(img: Image, s: System, e: Event)
    requires Bootable(img) && Good(s) && Ready(s)
    ensures Step(img, s, e).1.NoSlot? <==>
            s.procs.counter == MAX_PID &&
            match e
            case Tick(_) => s.procs.Current().None? || s.procs.top[NextTerminal(s.procs.sched)].None?
            case Execute(line, _) => s.procs.Current().Some? && NoPidFor(img, s, line)
            case _ => false
  {
    var ch := ChainsOf(s.procs);
    if s.procs.Current().None? {
      if e.Tick? {
        BootTickKeeps(img, s, ch, e.registers);
      }
    } else {
      CallerAlive(s);
      match e
      case Tick(registers) =>
        TickKeeps(img, s, ch, registers);
        ViewIs(s.procs, ch, NextTerminal(s.procs.sched));
      case Execute(line, registers) => ExecuteKeeps(img, s, ch, line, registers);
      case Halt(registers) => HaltFindsPid(img, s, ch, registers);
      case _ =>
        if Minor(e) {
          FdSteps(img, s, e);
        }
    }
  }

  lemma HaltFindsPid(img: Image, s: System, ch: seq<seq<nat>>, registers: Context)
    requires Bootable(img) && s.Sized() && InvOf(s.procs, ch) && FlagsOk(s.procs) && Alive(s.procs)
    ensures !HaltNow(img, s, registers).1.NoSlot?
  {
    CurrentHeads(s.procs, ch);
    if |ch[s.procs.sched]| == 1 {
      RootHaltKeeps(img, s, ch, registers);
    }
  }

  /** process_counter + 1 is the summed length of the parent chains. */
  lemma CounterIs(p: State, ch: seq<seq<nat>>)
    requires InvOf(p, ch)
    ensures p.counter + 1 == |ch[0]| + |ch[1]| + |ch[2]|
  {
    assert |Census(ch)| == |ch[0]| + |ch[1]| + |ch[2]|;
  }

  /** After boot no terminal is ever again without a process. */
  lemma StepKeepsBooted(img: Image, s: System, e: Event)
    requires Bootable(img) && Good(s) && Ready(s) && Booted(s) && !Step(img, s, e).1.NoSlot?
    ensures Booted(Step(img, s, e).0)
  {
    CallerAlive(s);
    if e.Tick? {
      TickKeepsBooted(img, s, ChainsOf(s.procs), e.registers);
    } else if !e.Putc? && !e.Clear? && !e.Switch? {
      CallKeepsBooted(img, s, ChainsOf(s.procs), e);
    }
  }

  lemma CallKeepsBooted(img: Image, s: System, ch: seq<seq<nat>>, e: Event)
    requires Bootable(img) && s.Sized() && InvOf(s.procs, ch) && FlagsOk(s.procs) && Alive(s.procs) && Booted(s)
    ensures Booted(Call(img, s, e).0)
  {
    if e.Execute? {
      ExecuteKeepsBooted(img, s, e.line, e.registers);
    } else if e.Halt? {
      HaltKeepsBooted(img, s, ch, e.registers);
    } else if Minor(e) {
      FdKeepsBooted(img, s, e);
    }
  }

  lemma FdKeepsBooted(img: Image, s: System, e: Event)
    requires Bootable(img) && s.Sized() && Alive(s.procs) && Booted(s) && Minor(e)
    ensures Booted(Call(img, s, e).0)
  {
    FdSteps(img, s, e);
  }

  lemma ExecuteKeepsBooted(img: Image, s: System, line: seq<byte>, registers: Context)
    requires Bootable(img) && s.Sized() && Booted(s)
    ensures Booted(ExecuteLine(img, s, line, registers).0)
  {
    var c := ParseLine(line);
    if c.Some? && !LimitHit(s.procs, c.value.name) && Executable(img, c.value.name) {
      LaunchTop(s.procs, c.value.argument, registers);
    }
  }

  lemma LaunchTop(p: State, argument: seq<byte>, registers: Context)
    requires p.Sized()
    ensures var r := Launch(p, argument, registers); r.0.top == if r.1.Some? then p.top[p.sched := r.1] else p.top
  {
  }

  lemma TickKeepsBooted(img: Image, s: System, ch: seq<seq<nat>>, registers: Context)
    requires Bootable(img) && Good(s) && InvOf(s.procs, ch) && Booted(s)
    ensures Booted(TickNow(img, s, registers).0)
  {
    ViewIs(s.procs, ch, NextTerminal(s.procs.sched));
    TickKeeps(img, s, ch, registers);
  }

  lemma HaltKeepsBooted(img: Image, s: System, ch: seq<seq<nat>>, registers: Context)
    requires Bootable(img) && s.Sized() && InvOf(s.procs, ch) && FlagsOk(s.procs) && Alive(s.procs) && Booted(s)
    ensures Booted(HaltNow(img, s, registers).0)
  {
    CurrentHeads(s.procs, ch);
    if |ch[s.procs.sched]| == 1 {
      RootHaltKeepsBooted(img, s, ch, registers);
    } else {
      ChildHaltKeepsBooted(img, s, registers);
    }
  }

  lemma RootHaltKeepsBooted(img: Image, s: System, ch: seq<seq<nat>>, registers: Context)
    requires Bootable(img) && s.Sized() && InvOf(s.procs, ch) && FlagsOk(s.procs) && Alive(s.procs) && Booted(s)
    requires |ch[s.procs.sched]| == 1
    ensures Booted(HaltNow(img, s, registers).0)
  {
    RestartFindsPid(img, s, ch, registers);
    StartFills(img, s.(procs := DropRoot(s.procs)), registers);
  }

  lemma StartFills(img: Image, s: System, registers: Context)
    requires Bootable(img) && s.Sized() && Start(img, s, SHELL, [], registers).1.Started?
    requires forall t :: 0 <= t < TERMINALS && t != s.procs.sched ==> s.procs.top[t].Some?
    ensures Booted(Start(img, s, SHELL, [], registers).0)
  {
    LaunchTop(s.procs, [], registers);
  }

  lemma ChildHaltKeepsBooted(img: Image, s: System, registers: Context)
    requires Bootable(img) && s.Sized() && Alive(s.procs) && Booted(s) && !IsRoot(s.procs)
    ensures Booted(HaltNow(img, s, registers).0)
  {
  }

  /** The buffers a program passes, and its own stores, are in its page, the buffer of
      a read also for a directory entry. */
  predicate Sound(e: Event) {
    match e
    case Read(_, buf, n, device) =>
      n >= 0 && buf != 0 ==> InPage(buf, n) && InPage(buf, |device.bytes|) && InPage(buf, NAME + 1)
    case GetArgs(buf, n) => n > 0 && buf != 0 ==> InPage(buf, n)
    case Store(buf, bytes) => InPage(buf, |bytes|)
    case _ => true
  }

  lemma SoundFaultsNot(img: Image, s: System, e: Event)
    requires Bootable(img) && Good(s) && Ready(s) && Sound(e)
    ensures !Step(img, s, e).1.Fault?
  {
    if e.Tick? {
      TickFaultsNot(img, s, e.registers);
    } else if s.procs.Current().Some? && e.Execute? {
      StepIsExecute(img, s, e.line, e.registers);
      ExecuteFaultsNot(img, s, e.line, e.registers);
    } else if s.procs.Current().Some? && e.Halt? {
      HaltFaultsNot(img, s, ChainsOf(s.procs), e.registers);
    } else if s.procs.Current().Some? && Minor(e) {
      MinorFaultsNot(img, s, e);
    }
  }

  lemma ExecuteFaultsNot(img: Image, s: System, line: seq<byte>, r: Context)
    requires Bootable(img) && s.Sized()
    ensures !ExecuteLine(img, s, line, r).1.Fault?
  {
  }

  lemma TickFaultsNot(img: Image, s: System, registers: Context)
    requires Bootable(img) && Ready(s)
    ensures !Step(img, s, Tick(registers)).1.Fault?
  {
    StepIsTick(img, s, registers);
    if s.procs.Current().None? {
      ExecuteFaultsNot(img, s.(screens := Screens.ClearVisible(s.screens)), SHELL, registers);
    } else if Preempt(s.procs, registers).Current().None? {
      ExecuteFaultsNot(img, s.(procs := Preempt(s.procs, registers)), SHELL, registers);
    }
  }

  lemma MinorFaultsNot(img: Image, s: System, e: Event)
    requires Bootable(img) && s.Sized() && Alive(s.procs) && Minor(e) && Sound(e)
    ensures !Call(img, s, e).1.Fault?
  {
  }

  lemma HaltFaultsNot(img: Image, s: System, ch: seq<seq<nat>>, registers: Context)
    requires Bootable(img) && s.Sized() && InvOf(s.procs, ch) && FlagsOk(s.procs) && Ready(s)
    requires s.procs.Current().Some?
    ensures !HaltNow(img, s, registers).1.Fault?
  {
    CurrentHeads(s.procs, ch);
    if |ch[s.procs.sched]| == 1 {
      RootHaltKeeps(img, s, ch, registers);
    }
  }

  /** After boot, without a program named "exit", and with programs that pass buffers
      in their page, find_pid never fails: every sequence of steps is a run. */
  lemma {:induction false} BootedCanRun(img: Image, s: System, es: seq<Event>)
    requires Bootable(img) && Good(s) && Booted(s) && !Executable(img, EXIT) && AllSound(es)
    ensures StaysBooted(img, s, es)
    decreases |es|
  {
    if es != [] {
      var s' := BootedStep(img, s, es[0]);
      BootedCanRun(img, s', es[1..]);
      BootedCons(img, s, es, s');
    }
  }

  predicate AllSound(es: seq<Event>)
    decreases |es|
  {
    es == [] || (Sound(es[0]) && AllSound(es[1..]))
  }

  /** The steps are a run, and behind it every terminal has a process. */
  ghost predicate StaysBooted(img: Image, s: System, es: seq<Event>)
    requires Bootable(img) && Good(s)
  {
    CanRun(img, s, es) && Booted(Run(img, s, es))
  }

  lemma BootedCons(img: Image, s: System, es: seq<Event>, s': System)
    requires Bootable(img) && Good(s) && Good(s') && es != [] && StaysBooted(img, s', es[1..])
    requires Ready(s) && Step(img, s, es[0]).0 == s' && !Stops(Step(img, s, es[0]).1)
    ensures StaysBooted(img, s, es)
  {
  }

  lemma BootedStep(img: Image, s: System, e: Event) returns (s': System)
    requires Bootable(img) && Good(s) && Booted(s) && !Executable(img, EXIT) && Sound(e)
    ensures Ready(s) && !Stops(Step(img, s, e).1) && s' == Step(img, s, e).0 && Good(s') && Booted(s')
  {
    GoodIsReady(s);
    NoSlotIff(img, s, e);
    SoundFaultsNot(img, s, e);
    StepKeepsGood(img, s, e);
    StepKeepsBooted(img, s, e);
    s' := Step(img, s, e).0;
  }

  lemma StepIsTick(img: Image, s: System, r: Context)
    requires Bootable(img) && Ready(s)
    ensures Step(img, s, Tick(r)) == if s.procs.Current().None? then BootTick(img, s, r) else TickNow(img, s, r)
  {
  }

  lemma StepIsExecute(img: Image, s: System, line: seq<byte>, r: Context)
    requires Bootable(img) && Ready(s) && s.procs.Current().Some?
    ensures Step(img, s, Execute(line, r)) == ExecuteLine(img, s, line, r)
  {
  }

  lemma StepOfTick(img: Image, s: System, r: Context)
    requires Bootable(img) && Good(s) && s.procs.Current().Some?
    ensures Ready(s) && Step(img, s, Tick(r)) == TickNow(img, s, r)
  {
    GoodIsReady(s);
    StepIsTick(img, s, r);
  }

  lemma RunCons(img: Image, s: System, e: Event, es: seq<Event>, s': System)
    requires Bootable(img) && Good(s) && Good(s') && CanRun(img, s', es)
    requires Ready(s) && Step(img, s, e).0 == s' && !Stops(Step(img, s, e).1)
    ensures CanRun(img, s, [e] + es) && Run(img, s, [e] + es) == Run(img, s', es)
  {
    assert ([e] + es)[1..] == es;
  }

  /** Number of ticks in a run. */
  function Ticks(es: seq<Event>): nat {
    if es == [] then 0 else (if es[0].Tick? then 1 else 0) + Ticks(es[1..])
  }

  lemma SchedOfStep(img: Image, s: System, e: Event)
    requires Bootable(img) && Good(s) && Ready(s) && !Step(img, s, e).1.NoSlot? && s.procs.Current().Some?
    ensures var s' := Step(img, s, e).0;
            && s'.procs.sched == (if e.Tick? then NextTerminal(s.procs.sched) else s.procs.sched)
            && s'.procs.Current().Some?
  {
    CallerAlive(s);
    if e.Tick? {
      SchedOfTick(img, s, ChainsOf(s.procs), e.registers);
    } else if !e.Putc? && !e.Clear? && !e.Switch? {
      SchedOfCall(img, s, ChainsOf(s.procs), e);
    }
  }

  lemma SchedOfTick(img: Image, s: System, ch: seq<seq<nat>>, r: Context)
    requires Bootable(img) && Good(s) && InvOf(s.procs, ch) && s.procs.Current().Some?
    requires !TickNow(img, s, r).1.NoSlot?
    ensures TickNow(img, s, r).0.procs.sched == NextTerminal(s.procs.sched)
    ensures TickNow(img, s, r).0.procs.Current().Some?
  {
    TickKeeps(img, s, ch, r);
    var (s', e) := TickNow(img, s, r);
    if e.Started? {
      CurrentHeads(s'.procs, ch[s'.procs.sched := [e.pid]]);
    } else {
      CurrentHeads(s'.procs, ch);
    }
  }

  lemma SchedOfCall(img: Image, s: System, ch: seq<seq<nat>>, e: Event)
    requires Bootable(img) && Good(s) && InvOf(s.procs, ch) && Alive(s.procs) && !Call(img, s, e).1.NoSlot?
    ensures Call(img, s, e).0.procs.sched == s.procs.sched && Call(img, s, e).0.procs.Current().Some?
  {
    if e.Execute? {
      ExecuteKeeps(img, s, ch, e.line, e.registers);
    } else if e.Halt? {
      HaltStaysScheduled(img, s, ch, e.registers);
    } else if Minor(e) {
      FdSteps(img, s, e);
    }
  }

  lemma HaltStaysScheduled(img: Image, s: System, ch: seq<seq<nat>>, registers: Context)
    requires Bootable(img) && s.Sized() && InvOf(s.procs, ch) && FlagsOk(s.procs) && Alive(s.procs)
    ensures HaltNow(img, s, registers).0.procs.sched == s.procs.sched
    ensures HaltNow(img, s, registers).0.procs.Current().Some?
  {
    CurrentHeads(s.procs, ch);
    if |ch[s.procs.sched]| == 1 {
      RootHaltKeeps(img, s, ch, registers);
      RestartFindsPid(img, s, ch, registers);
    }
  }

  /** The terminal scheduled k turns after t. */
  function Later(t: nat, k: nat): (n: nat)
    requires t < TERMINALS
    ensures n < TERMINALS
    decreases k
  {
    if k == 0 then t else Later(NextTerminal(t), k - 1)
  }

  lemma {:induction false} LaterIsMod(t: nat, k: nat)
    requires t < TERMINALS
    ensures Later(t, k) == (t + k) % TERMINALS
    decreases k
  {
    if k > 0 {
      LaterIsMod(NextTerminal(t), k - 1);
    }
  }

  /** The scheduler is round robin: whatever else happens, after a run with k
      ticks the terminal k places further is scheduled. */
  lemma {:induction false} SchedOfRun(img: Image, s: System, es: seq<Event>)
    requires Bootable(img) && Good(s) && CanRun(img, s, es) && s.procs.Current().Some?
    ensures Run(img, s, es).procs.sched == Later(s.procs.sched, Ticks(es))
    ensures Run(img, s, es).procs.Current().Some?
    decreases |es|
  {
    if es != [] {
      GoodIsReady(s);
      SchedOfStep(img, s, es[0]);
      StepKeepsGood(img, s, es[0]);
      SchedOfRun(img, Step(img, s, es[0]).0, es[1..]);
    }
  }

  /** Of the terminals scheduled behind any three consecutive ticks of a run exactly
      one is terminal u, whatever else the run holds between the ticks. */
  lemma ThreeTicks(img: Image, s: System, a: seq<Event>, b: seq<Event>, c: seq<Event>, u: nat)
    requires Bootable(img) && Good(s) && s.procs.Current().Some? && u < TERMINALS
    requires CanRun(img, s, a) && CanRun(img, Run(img, s, a), b) && CanRun(img, Run(img, Run(img, s, a), b), c)
    requires Ticks(a) == Ticks(b) == Ticks(c) == 1
    ensures var s1 := Run(img, s, a); var s2 := Run(img, s1, b); var s3 := Run(img, s2, c);
            multiset{s1.procs.sched, s2.procs.sched, s3.procs.sched}[u] == 1
  {
    SchedAfterTick(img, s, a);
    SchedAfterTick(img, Run(img, s, a), b);
    SchedAfterTick(img, Run(img, Run(img, s, a), b), c);
    OnceAround(s.procs.sched, u);
  }

  lemma SchedAfterTick(img: Image, s: System, es: seq<Event>)
    requires Bootable(img) && Good(s) && CanRun(img, s, es) && s.procs.Current().Some? && Ticks(es) == 1
    ensures Run(img, s, es).procs.sched == NextTerminal(s.procs.sched) && Run(img, s, es).procs.Current().Some?
  {
    SchedOfRun(img, s, es);
    LaterIsMod(s.procs.sched, Ticks(es));
  }

  lemma OnceAround(t: nat, u: nat)
    requires t < TERMINALS && u < TERMINALS
    ensures var t1 := NextTerminal(t); var t2 := NextTerminal(t1);
            multiset{t1, t2, NextTerminal(t2)}[u] == 1
  {
  }
}
