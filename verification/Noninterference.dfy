/** What a terminal's private machine does depends on nothing but what reaches that
    terminal: its own steps, the hand-over of the processor to it, and Ctrl+L while
    it is visible. */
module Noninterference {
  import opened Bytes
  import opened FileSystem
  import opened Helpers
  import opened Commands
  import opened Processes
  import Chains
  import opened Jobs
  import opened System
  import opened Local
  import opened Refinement
  import opened Runs
  import opened Listing
  import PM = PrivateMachine

  /** What a terminal sees of a step. A read of a directory also sees the directory
      cursor, which all terminals share. */
  datatype Input = Own(e: Event, entry: int) | HandedOver | Wiped

  function EntrySeen(s: System, e: Event): (c: int)
    requires s.Sized()
    ensures c >= -1
  {
    if ReadsDirectory(s, e) then s.cursor else -1
  }

  function Seen(s: System, e: Event, t: nat): seq<Input>
    requires s.Sized() && t < TERMINALS
  {
    if e.Clear? then (if t == s.screens.visible then [Wiped] else [])
    else if t == s.procs.sched then [Own(e, EntrySeen(s, e))]
    else if e.Tick? && t == NextTerminal(s.procs.sched) then [HandedOver]
    else []
  }

  /** The lowest free file from i on, or -1. */
  function FreeFile(files: seq<Option<OpenFile>>, i: nat): (r: int)
    requires i <= |files|
    ensures r == -1 || i <= r < |files|
    decreases |files| - i
  {
    if i == |files| then -1 else if files[i].None? then i else FreeFile(files, i + 1)
  }

  /** The file that open, close or read changes, from the open files alone. */
  function FileChange(img: Image, files: seq<Option<OpenFile>>, e: Event, entry: int): Option<(nat, Option<OpenFile>)>
    requires img.Valid() && |files| == DESCRIPTORS && entry >= -1
  {
    match e
    case Open(name) =>
      var d := if name == [] then None else FindName(img, name);
      var i := FreeFile(files, 2);
      if d.None? || i == -1 || Opened(d.value).None? then None else Some((i, FileOf(Opened(d.value).value)))
    case Close(fd) =>
      if fd < 2 || fd >= DESCRIPTORS || files[fd].None? then None else Some((fd, None))
    case Read(fd, buf, n, device) =>
      if n < 0 || fd < 0 || fd >= DESCRIPTORS || buf == 0 || files[fd].None? then None
      else
        var f := files[fd].value;
        var got := Delivered(img, Descriptor(f.ops, f.inode, f.position, 1), n, device, entry);
        if !Reaches(buf, n, got) then None else Some((fd, Some(f.(position := Advanced(f.position, got.value)))))
    case _ => None
  }

  /** One input to a private machine, which knows its own state and the file system
      image only. */
  function React(img: Image, m: PM.Machine, i: Input): (r: PM.Machine)
    requires img.Valid() && m.con.Valid()
    ensures r.con.Valid()
  {
    match i
    case Wiped => PM.Apply(m, PM.Blank)
    case HandedOver =>
      var d := PM.Apply(m, PM.Dispatch);
      if m.jobs == [] then d.(jobs := [Job([], FreshFiles(), None)]) else d
    case Own(e, entry) => ReactOwn(img, m, e, entry)
  }

  function ReactOwn(img: Image, m: PM.Machine, e: Event, entry: int): (r: PM.Machine)
    requires img.Valid() && m.con.Valid()
    ensures r.con.Valid()
  {
    match e
    case Putc(c) => PM.Apply(m, PM.Print([c]))
    case Clear => m
    case Switch(_) => m
    case Tick(registers) => PM.Apply(m, PM.Suspend(registers))
    case Execute(line, registers) =>
      var c := ParseLine(line);
      if c.None? || !Executable(img, c.value.name) then m
      else PM.Apply(m, PM.Push(c.value.argument, FreshFiles(), registers))
    case Halt(registers) =>
      var popped := PM.Apply(m, PM.Pop);
      if |m.jobs| == 1 then PM.Apply(popped, PM.Push([], FreshFiles(), registers)) else popped
    case _ =>
      if m.jobs == [] || |m.jobs[0].files| != DESCRIPTORS || entry < -1
         || FileChange(img, m.jobs[0].files, e, entry).None? then m
      else
        var c := FileChange(img, m.jobs[0].files, e, entry).value;
        PM.Apply(m, PM.SetFile(c.0, c.1))
  }

  function ReactAll(img: Image, m: PM.Machine, us: seq<Input>): (r: PM.Machine)
    requires img.Valid() && m.con.Valid()
    ensures r.con.Valid()
    decreases |us|
  {
    if us == [] then m else ReactAll(img, React(img, m, us[0]), us[1..])
  }

  // ---- One step ----

  lemma {:induction false} FreeSame(fd: seq<Descriptor>, i: nat)
    requires i <= |fd|
    ensures FreeFile(Files(fd), i) == FreeFd(fd, i)
    decreases |fd| - i
  {
    if i < |fd| {
      FreeSame(fd, i + 1);
    }
  }

  /** The descriptor a step changes is the file a private machine changes. */
  lemma SameChange(img: Image, s: System, e: Event)
    requires Bootable(img) && s.Sized() && s.procs.Current().Some? && Minor(e)
    ensures var fd := s.procs.pcb[s.procs.Current().value].fd;
            var c, f := FdChange(img, s, e), FileChange(img, Files(fd), e, EntrySeen(s, e));
            (c.None? <==> f.None?) && (c.Some? ==> f.value == (c.value.0, FileOf(c.value.1)))
  {
    var fd := s.procs.pcb[s.procs.Current().value].fd;
    FreeSame(fd, 2);
  }

  lemma CurrentFiles(s: System)
    requires Good(s) && s.procs.Current().Some?
    ensures var v := View(s.procs, s.procs.sched);
            && v != [] && v[0].files == Files(s.procs.pcb[s.procs.Current().value].fd)
            && CanHalt(s.procs) && (IsRoot(s.procs) <==> |v| == 1)
  {
    var ch := Chains.ChainsOf(s.procs);
    ViewIs(s.procs, ch, s.procs.sched);
    CurrentHeads(s.procs, ch);
  }

  lemma MinorReacts(img: Image, s: System, e: Event)
    requires Bootable(img) && Good(s) && Ready(s) && s.procs.Current().Some? && Minor(e)
    ensures var t := s.procs.sched; var m := MachineOf(s, t);
            PM.ApplyAll(m, EventsFor(img, s, e, t)) == ReactOwn(img, m, e, EntrySeen(s, e))
  {
    var m := MachineOf(s, s.procs.sched);
    FdEventsAre(img, s, e, s.procs.sched);
    SameChange(img, s, e);
    CurrentFiles(s);
    var c := FdChange(img, s, e);
    if c.Some? {
      PM.ApplyOne(m, PM.SetFile(c.value.0, FileOf(c.value.1)));
    }
  }

  lemma HaltReacts(img: Image, s: System, r: Context)
    requires Bootable(img) && Good(s) && Ready(s) && s.procs.Current().Some?
    requires Clean(s.procs) && !Leaks(s, Halt(r))
    ensures var t := s.procs.sched; var m := MachineOf(s, t);
            PM.ApplyAll(m, EventsFor(img, s, Halt(r), t)) == ReactOwn(img, m, Halt(r), -1)
  {
    CurrentFiles(s);
    if IsRoot(s.procs) {
      DroppedIsFresh(s.procs);
      RootHaltEvents(img, s, r);
      RootHaltReacts(img, MachineOf(s, s.procs.sched), NewFiles(DropRoot(s.procs)), r);
    } else {
      ChildHaltEvents(img, s, r);
      ChildHaltReacts(img, MachineOf(s, s.procs.sched), r);
    }
  }

  lemma RootHaltReacts(img: Image, m: PM.Machine, files: seq<Option<OpenFile>>, r: Context)
    requires img.Valid() && m.con.Valid() && |m.jobs| == 1 && files == FreshFiles()
    ensures PM.ApplyAll(m, [PM.Pop, PM.Push([], files, r)]) == ReactOwn(img, m, Halt(r), -1)
  {
    PM.ApplyTwo(m, PM.Pop, PM.Push([], files, r));
  }

  lemma ChildHaltReacts(img: Image, m: PM.Machine, r: Context)
    requires img.Valid() && m.con.Valid() && |m.jobs| != 1
    ensures PM.ApplyAll(m, [PM.Pop]) == ReactOwn(img, m, Halt(r), -1)
  {
    PM.ApplyOne(m, PM.Pop);
  }

  lemma ExecuteReacts(img: Image, s: System, line: seq<byte>, r: Context)
    requires Bootable(img) && Ready(s) && s.procs.Current().Some? && Clean(s.procs) && s.procs.counter < MAX_PID
    requires !ExecuteLine(img, s, line, r).1.NoSlot?
    ensures var t := s.procs.sched; var m := MachineOf(s, t);
            PM.ApplyAll(m, EventsFor(img, s, Execute(line, r), t)) == ReactOwn(img, m, Execute(line, r), -1)
  {
    var m, c := MachineOf(s, s.procs.sched), ParseLine(line);
    ExecuteEventsAre(img, s, line, r, s.procs.sched);
    NextIsFresh(s.procs);
    if c.Some? && Executable(img, c.value.name) {
      PM.ApplyOne(m, PM.Push(c.value.argument, FreshFiles(), r));
    }
  }

  lemma TickReacts(img: Image, s: System, r: Context, t: nat)
    requires Bootable(img) && Good(s) && Ready(s) && s.procs.Current().Some? && Clean(s.procs) && t < TERMINALS
    requires !TickNow(img, s, r).1.NoSlot?
    ensures PM.ApplyAll(MachineOf(s, t), EventsFor(img, s, Tick(r), t))
         == ReactAll(img, MachineOf(s, t), Seen(s, Tick(r), t))
  {
    TickEventsAre(img, s, r, t);
    TickStartsFresh(img, s, r, t);
    TickIsSeen(s, r, t);
    TickSeen(img, MachineOf(s, t), t == s.procs.sched, t == NextTerminal(s.procs.sched),
             s.procs.top[NextTerminal(s.procs.sched)].None?, NewFiles(s.procs), r);
  }

  lemma TickIsSeen(s: System, r: Context, t: nat)
    requires s.Sized() && t < TERMINALS
    ensures Seen(s, Tick(r), t) == TickInputs(t == s.procs.sched, t == NextTerminal(s.procs.sched), r)
  {
  }

  function TickInputs(mine: bool, next: bool, r: Context): seq<Input> {
    if mine then [Own(Tick(r), -1)] else if next then [HandedOver] else []
  }

  /** A tick starts a shell exactly where there is no job, and the shell is fresh. */
  lemma TickStartsFresh(img: Image, s: System, r: Context, t: nat)
    requires Bootable(img) && Good(s) && s.procs.Current().Some? && Clean(s.procs) && t < TERMINALS
    requires !TickNow(img, s, r).1.NoSlot?
    ensures t == NextTerminal(s.procs.sched) ==> (s.procs.top[t].None? <==> MachineOf(s, t).jobs == [])
    ensures s.procs.top[NextTerminal(s.procs.sched)].None? ==> NewFiles(s.procs) == FreshFiles()
  {
    ViewIs(s.procs, Chains.ChainsOf(s.procs), t);
    TickFindsPid(img, s, r);
    NextIsFresh(s.procs);
  }

  /** The hand-over of a tick to a machine, whoever takes it. */
  lemma TickSeen(img: Image, m: PM.Machine, mine: bool, next: bool, empty: bool,
                 files: seq<Option<OpenFile>>, r: Context)
    requires img.Valid() && m.con.Valid() && !(mine && next)
    requires next ==> (empty <==> m.jobs == [])
    requires empty ==> files == FreshFiles()
    ensures PM.ApplyAll(m, TickEvents(mine, next, empty, files, r))
         == ReactAll(img, m, TickInputs(mine, next, r))
  {
    if mine {
      PM.ApplyOne(m, PM.Suspend(r));
      ReactOnce(img, m, Own(Tick(r), -1));
    } else if next {
      HandOver(m, empty, files, r);
      ReactOnce(img, m, HandedOver);
    }
  }

  lemma HandOver(m: PM.Machine, empty: bool, files: seq<Option<OpenFile>>, r: Context)
    requires m.con.Valid() && (empty <==> m.jobs == [])
    ensures PM.ApplyAll(m, TickEvents(false, true, empty, files, r)) ==
            var d := PM.Apply(m, PM.Dispatch); if empty then d.(jobs := [Job([], files, None)]) else d
  {
    if empty {
      PM.ApplyTwo(m, PM.Dispatch, PM.Push([], files, r));
    } else {
      PM.ApplyOne(m, PM.Dispatch);
    }
  }

  lemma ReactOnce(img: Image, m: PM.Machine, i: Input)
    requires img.Valid() && m.con.Valid()
    ensures ReactAll(img, m, [i]) == React(img, m, i)
  {
    assert [i][1..] == [];
  }

  lemma OwnReacts(img: Image, s: System, e: Event)
    requires Bootable(img) && Good(s) && Ready(s) && s.procs.Current().Some? && !e.Tick? && !e.Clear?
    requires Clean(s.procs) && !Leaks(s, e) && !Step(img, s, e).1.NoSlot?
    requires e.Execute? ==> s.procs.counter < MAX_PID
    ensures var t := s.procs.sched; var m := MachineOf(s, t);
            PM.ApplyAll(m, EventsFor(img, s, e, t)) == ReactOwn(img, m, e, EntrySeen(s, e))
  {
    var m := MachineOf(s, s.procs.sched);
    if e.Putc? {
      PM.ApplyOne(m, PM.Print([e.c]));
    } else if e.Execute? {
      StepIsExecute(img, s, e.line, e.registers);
      ExecuteReacts(img, s, e.line, e.registers);
    } else if e.Halt? {
      HaltReacts(img, s, e.registers);
    } else if Minor(e) {
      MinorReacts(img, s, e);
    }
  }

  lemma WipeReacts(img: Image, s: System, t: nat)
    requires Bootable(img) && Ready(s) && t < TERMINALS
    ensures PM.ApplyAll(MachineOf(s, t), EventsFor(img, s, Clear, t))
         == ReactAll(img, MachineOf(s, t), Seen(s, Clear, t))
  {
    PM.ApplyOne(MachineOf(s, t), PM.Blank);
    ReactOnce(img, MachineOf(s, t), Wiped);
  }

  /** A step changes a terminal's machine as that machine, knowing only itself, reacts
      to what it sees. */
  lemma StepIsPrivate(img: Image, s: System, e: Event, t: nat)
    requires Bootable(img) && Good(s) && Ready(s) && s.procs.Current().Some? && t < TERMINALS
    requires Clean(s.procs) && !Leaks(s, e) && !Step(img, s, e).1.NoSlot?
    requires t == s.procs.sched && e.Execute? ==> s.procs.counter < MAX_PID
    ensures MachineOf(Step(img, s, e).0, t) == ReactAll(img, MachineOf(s, t), Seen(s, e, t))
  {
    StepIsLocal(img, s, e, t);
    if e.Clear? {
      WipeReacts(img, s, t);
    } else if e.Tick? {
      StepOfTick(img, s, e.registers);
      TickReacts(img, s, e.registers, t);
    } else if t == s.procs.sched {
      OwnReacts(img, s, e);
      ReactOnce(img, MachineOf(s, t), Own(e, EntrySeen(s, e)));
    } else {
      OthersSeeNothing(img, s, e, t);
    }
  }

  // ---- Runs ----

  /** All that terminal t sees of a run. */
  ghost function SeenAll(img: Image, s: System, es: seq<Event>, t: nat): seq<Input>
    requires Bootable(img) && Good(s) && CanRun(img, s, es) && t < TERMINALS
    decreases |es|
  {
    if es == [] then []
    else
      GoodIsReady(s);
      StepKeepsGood(img, s, es[0]);
      Seen(s, es[0], t) + SeenAll(img, Step(img, s, es[0]).0, es[1..], t)
  }

  /** Whenever terminal t executes a program in the run, the table is not full. */
  ghost predicate Roomy(img: Image, s: System, es: seq<Event>, t: nat)
    requires Bootable(img) && Good(s) && CanRun(img, s, es) && t < TERMINALS
    decreases |es|
  {
    es == [] || ((t == s.procs.sched && es[0].Execute? ==> s.procs.counter < MAX_PID) &&
                 (GoodIsReady(s); StepKeepsGood(img, s, es[0]); Roomy(img, Step(img, s, es[0]).0, es[1..], t)))
  }

  lemma {:induction false} ReactBoth(img: Image, m: PM.Machine, us: seq<Input>, vs: seq<Input>)
    requires img.Valid() && m.con.Valid()
    ensures ReactAll(img, m, us + vs) == ReactAll(img, ReactAll(img, m, us), vs)
    decreases |us|
  {
    if us == [] {
      assert us + vs == vs;
    } else {
      assert (us + vs)[1..] == us[1..] + vs;
      ReactBoth(img, React(img, m, us[0]), us[1..], vs);
    }
  }

  /** Over a run the machine of a terminal is a function of what the terminal sees. */
  lemma {:induction false} RunIsPrivate(img: Image, s: System, es: seq<Event>, t: nat)
    requires Bootable(img) && Good(s) && Clean(s.procs) && CanRun(img, s, es) && LeakFree(img, s, es)
    requires s.procs.Current().Some? && t < TERMINALS && Roomy(img, s, es, t)
    ensures MachineOf(Run(img, s, es), t) == ReactAll(img, MachineOf(s, t), SeenAll(img, s, es, t))
    decreases |es|
  {
    if es != [] {
      GoodIsReady(s);
      var s' := Step(img, s, es[0]).0;
      StepKeepsGood(img, s, es[0]);
      StepKeepsClean(img, s, es[0]);
      SchedOfStep(img, s, es[0]);
      StepIsPrivate(img, s, es[0], t);
      RunIsPrivate(img, s', es[1..], t);
      ReactBoth(img, MachineOf(s, t), Seen(s, es[0], t), SeenAll(img, s', es[1..], t));
    }
  }

  /** Noninterference: two runs, from any two states and with any other steps of the
      other terminals, in which a terminal starts the same and sees the same leave it
      the same screen, programs, files and registers. */
  lemma SameInputsSameMachine(img: Image, s: System, es: seq<Event>, s': System, es': seq<Event>, t: nat)
    requires Bootable(img) && t < TERMINALS
    requires Good(s) && Clean(s.procs) && CanRun(img, s, es) && LeakFree(img, s, es) && s.procs.Current().Some?
    requires Good(s') && Clean(s'.procs) && CanRun(img, s', es') && LeakFree(img, s', es') && s'.procs.Current().Some?
    requires Roomy(img, s, es, t) && Roomy(img, s', es', t)
    requires MachineOf(s, t) == MachineOf(s', t) && SeenAll(img, s, es, t) == SeenAll(img, s', es', t)
    ensures MachineOf(Run(img, s, es), t) == MachineOf(Run(img, s', es'), t)
  {
    RunIsPrivate(img, s, es, t);
    RunIsPrivate(img, s', es', t);
  }
}
