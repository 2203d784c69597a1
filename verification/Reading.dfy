/** What a process finds when it runs again and again among others: its open files
    and its argument, over interleaved runs (student-distrib/system_call.c). */
module Reading {
  import opened Bytes
  import opened FileSystem
  import opened Helpers
  import opened Commands
  import opened Processes
  import Chains
  import opened Jobs
  import opened System
  import opened Local
  import opened Refinement
  import opened Runs
  import opened Theorems
  import opened Isolation
  import opened Listing
  import PM = PrivateMachine
  import Memory

  // ---- One job ----

  /** The job of a stack that has d jobs below it. */
  function JobAt(v: seq<Job>, d: nat): Job
    requires d < |v|
  {
    v[|v| - 1 - d]
  }

  /** The job with d jobs below it on terminal t is the running program. */
  predicate Active(s: System, t: nat, d: nat)
    requires s.Sized() && t < TERMINALS
  {
    t == s.procs.sched && s.procs.Current().Some? && |View(s.procs, t)| == d + 1
  }

  /** That job halts in the step. */
  predicate Ends(s: System, e: Event, t: nat, d: nat)
    requires s.Sized() && t < TERMINALS
  {
    e.Halt? && Active(s, t, d)
  }

  lemma ApplyAt(m: PM.Machine, e: PM.Event, d: nat)
    requires m.con.Valid() && d < |m.jobs| && (e.Pop? ==> d + 1 < |m.jobs|)
    ensures var v, v' := m.jobs, PM.Apply(m, e).jobs;
            && d < |v'|
            && JobAt(v', d) == if e.SetFile? && |v| == d + 1 && e.fd < |v[0].files|
                               then v[0].(files := v[0].files[e.fd := e.file]) else JobAt(v, d)
  {
  }

  /** Which private step a step is for a terminal with a job. */
  predicate Shape(img: Image, s: System, e: Event, t: nat, d: nat)
    requires Bootable(img) && Ready(s) && t < TERMINALS
  {
    var es := EventsFor(img, s, e, t);
    && |es| <= 1
    && (|es| == 1 && es[0].Pop? ==> |View(s.procs, t)| > d + 1)
    && (|es| == 1 && es[0].SetFile? ==> Minor(e) && t == s.procs.sched && s.procs.Current().Some?)
    && (Minor(e) && t == s.procs.sched && s.procs.Current().Some? ==>
          var c := FdChange(img, s, e); es == if c.None? then [] else [PM.SetFile(c.value.0, FileOf(c.value.1))])
  }

  lemma StepShape(img: Image, s: System, e: Event, t: nat, d: nat)
    requires Bootable(img) && Good(s) && Ready(s) && t < TERMINALS && d < |View(s.procs, t)| && !Ends(s, e, t, d)
    ensures Shape(img, s, e, t, d)
  {
    var ch := Chains.ChainsOf(s.procs);
    ViewIs(s.procs, ch, t);
    CurrentHeads(s.procs, ch);
    ShapeFrom(img, s, e, t, d);
  }

  lemma ShapeFrom(img: Image, s: System, e: Event, t: nat, d: nat)
    requires Bootable(img) && Ready(s) && t < TERMINALS && d < |View(s.procs, t)| && !Ends(s, e, t, d)
    requires s.procs.top[t].Some?
    requires t == s.procs.sched ==> CanHalt(s.procs) && (IsRoot(s.procs) <==> |View(s.procs, t)| == 1)
    ensures Shape(img, s, e, t, d)
  {
  }

  /** A job behind the step, which changes it only while it runs and opens, closes or
      reads a file. */
  function JobBehind(img: Image, s: System, e: Event, t: nat, d: nat): Job
    requires img.Valid() && s.Sized() && t < TERMINALS && d < |View(s.procs, t)|
  {
    var j := JobAt(View(s.procs, t), d);
    if Active(s, t, d) && Minor(e) then Changed(j, FdChange(img, s, e)) else j
  }

  function Changed(j: Job, c: Option<(nat, Descriptor)>): Job {
    if c.None? || c.value.0 >= |j.files| then j else j.(files := j.files[c.value.0 := FileOf(c.value.1)])
  }

  lemma StepAt(img: Image, s: System, e: Event, t: nat, d: nat)
    requires Bootable(img) && Good(s) && Ready(s) && t < TERMINALS && !Step(img, s, e).1.NoSlot?
    requires d < |View(s.procs, t)| && !Ends(s, e, t, d)
    ensures var v' := View(Step(img, s, e).0.procs, t);
            d < |v'| && JobAt(v', d) == JobBehind(img, s, e, t, d)
  {
    StepIsLocal(img, s, e, t);
    StepShape(img, s, e, t, d);
    EventsAt(img, s, e, t, d);
  }

  lemma EventsAt(img: Image, s: System, e: Event, t: nat, d: nat)
    requires Bootable(img) && Ready(s) && t < TERMINALS && d < |View(s.procs, t)| && Shape(img, s, e, t, d)
    ensures var v' := PM.ApplyAll(MachineOf(s, t), EventsFor(img, s, e, t)).jobs;
            d < |v'| && JobAt(v', d) == JobBehind(img, s, e, t, d)
  {
    var m, es := MachineOf(s, t), EventsFor(img, s, e, t);
    if es != [] {
      assert es == [es[0]];
      PM.ApplyOne(m, es[0]);
      ApplyAt(m, es[0], d);
    }
  }

  // ---- Arguments ----

  /** The job does not halt in the run. */
  ghost predicate Lives(img: Image, s: System, es: seq<Event>, t: nat, d: nat)
    requires Bootable(img) && Good(s) && CanRun(img, s, es) && t < TERMINALS
    decreases |es|
  {
    es == [] || (!Ends(s, es[0], t, d) &&
                 (GoodIsReady(s); StepKeepsGood(img, s, es[0]); Lives(img, Step(img, s, es[0]).0, es[1..], t, d)))
  }

  /** The job with d jobs below it has this argument. */
  predicate HasArgument(s: System, t: nat, d: nat, argument: seq<byte>)
    requires s.Sized() && t < TERMINALS
  {
    d < |View(s.procs, t)| && JobAt(View(s.procs, t), d).argument == argument
  }

  lemma StepArgument(img: Image, s: System, e: Event, t: nat, d: nat, a: seq<byte>)
    requires Bootable(img) && Good(s) && Ready(s) && t < TERMINALS && !Step(img, s, e).1.NoSlot?
    requires HasArgument(s, t, d, a) && !Ends(s, e, t, d)
    ensures HasArgument(Step(img, s, e).0, t, d, a)
  {
    StepAt(img, s, e, t, d);
  }

  /** As long as it lives, a job keeps its argument. */
  lemma {:induction false} ArgumentStays(img: Image, s: System, es: seq<Event>, t: nat, d: nat, a: seq<byte>)
    requires Bootable(img) && Good(s) && CanRun(img, s, es) && t < TERMINALS
    requires HasArgument(s, t, d, a) && Lives(img, s, es, t, d)
    ensures HasArgument(Run(img, s, es), t, d, a)
    decreases |es|
  {
    if es != [] {
      GoodIsReady(s);
      StepKeepsGood(img, s, es[0]);
      StepArgument(img, s, es[0], t, d, a);
      ArgumentStays(img, Step(img, s, es[0]).0, es[1..], t, d, a);
    }
  }

  /** The block of the running program and its job say the same. */
  lemma RunningJob(s: System)
    requires Good(s) && s.procs.Current().Some?
    ensures Alive(s.procs)
    ensures var v, b := View(s.procs, s.procs.sched), s.procs.pcb[s.procs.Current().value];
            v != [] && v[0].argument == b.argument && v[0].files == Files(b.fd)
  {
    var ch := Chains.ChainsOf(s.procs);
    CallerAlive(s);
    ViewIs(s.procs, ch, s.procs.sched);
    CurrentHeads(s.procs, ch);
  }

  /** The running program's getargs: refused without an argument, and otherwise the
      argument, padded with NULs, in the program's own frame. */
  predicate GetsArgument(s: System, buf: nat, n: nat, argument: seq<byte>)
    requires s.Sized() && Alive(s.procs)
  {
    var (s', r) := GetArgsNow(s, buf, n);
    var a := StringOf(argument);
    if a == [] then s' == s && r == Result(-1)
    else Holds(s', buf, Memory.Padded(a, n)) && r == Result(if |a| < n then 0 else -1)
  }

  /** getargs delivers the argument of the execute that started the process: whatever
      its terminal and the others have done since, as long as it has not halted. */
  lemma GetArgsDelivers(img: Image, s: System, line: seq<byte>, r: Context, s1: System, es: seq<Event>,
                        buf: nat, n: nat)
    requires Bootable(img) && Good(s) && Ready(s) && s.procs.Current().Some?
    requires Step(img, s, Execute(line, r)).1.Started? && s1 == Step(img, s, Execute(line, r)).0 && Good(s1)
    requires CanRun(img, s1, es) && Lives(img, s1, es, s.procs.sched, |View(s.procs, s.procs.sched)|)
    requires Active(Run(img, s1, es), s.procs.sched, |View(s.procs, s.procs.sched)|)
    requires n > 0 && buf != 0 && InPage(buf, n)
    ensures ParseLine(line).Some? && Alive(Run(img, s1, es).procs)
    ensures GetsArgument(Run(img, s1, es), buf, n, ParseLine(line).value.argument)
  {
    var t, d := s.procs.sched, |View(s.procs, s.procs.sched)|;
    StartedArgument(img, s, line, r);
    var a := ParseLine(line).value.argument;
    ArgumentStays(img, s1, es, t, d, a);
    RunningArgument(Run(img, s1, es), t, d, a);
    ArgumentLands(Run(img, s1, es), buf, n, a);
  }

  lemma StartedArgument(img: Image, s: System, line: seq<byte>, r: Context)
    requires Bootable(img) && Good(s) && Ready(s) && s.procs.Current().Some?
    requires Step(img, s, Execute(line, r)).1.Started?
    ensures var s1, t := Step(img, s, Execute(line, r)).0, s.procs.sched;
            ParseLine(line).Some? && HasArgument(s1, t, |View(s.procs, t)|, ParseLine(line).value.argument)
  {
    StepIsExecute(img, s, line, r);
    ExecuteCalls(img, s, line, r);
  }

  lemma RunningArgument(s: System, t: nat, d: nat, a: seq<byte>)
    requires Good(s) && t < TERMINALS && Active(s, t, d) && HasArgument(s, t, d, a)
    ensures Alive(s.procs) && s.procs.pcb[s.procs.Current().value].argument == a
  {
    RunningJob(s);
  }

  /** The bytes stand at a virtual address of the running program, in its frame. */
  predicate Holds(s: System, buf: nat, bytes: seq<byte>)
    requires s.Sized()
  {
    && s.procs.Current().Some? && InPage(buf, |bytes|)
    && FrameOf(s.user, s.procs.Current().value)[buf - USER_PAGE..buf - USER_PAGE + |bytes|] == bytes
  }

  lemma StoredHolds(s: System, buf: nat, bytes: seq<byte>)
    requires s.Sized() && Alive(s.procs) && InPage(buf, |bytes|)
    ensures Holds(s.(user := Stored(s, buf, bytes)), buf, bytes)
  {
    var p, at := s.procs.Current().value, Frame(s.procs.page) + buf - USER_PAGE;
    var user := Stored(s, buf, bytes);
    assert FrameOf(user, p)[buf - USER_PAGE..buf - USER_PAGE + |bytes|] == user[at..at + |bytes|];
    OverlaySlices(s.user, at, bytes, 0, 0);
  }

  lemma ArgumentLands(s: System, buf: nat, n: nat, argument: seq<byte>)
    requires s.Sized() && Alive(s.procs) && s.procs.pcb[s.procs.Current().value].argument == argument
    requires n > 0 && buf != 0 && InPage(buf, n)
    ensures GetsArgument(s, buf, n, argument)
  {
    StoredHolds(s, buf, Memory.Padded(StringOf(argument), n));
  }

  // ---- Open files ----

  /** The job with d jobs below it has this file open as descriptor fd. */
  predicate HasFile(s: System, t: nat, d: nat, fd: nat, f: OpenFile)
    requires s.Sized() && t < TERMINALS
  {
    && d < |View(s.procs, t)| && fd < DESCRIPTORS && |JobAt(View(s.procs, t), d).files| == DESCRIPTORS
    && JobAt(View(s.procs, t), d).files[fd] == Some(f)
  }

  /** The job itself reads from the descriptor. */
  predicate Takes(s: System, e: Event, t: nat, d: nat, fd: nat)
    requires s.Sized() && t < TERMINALS
  {
    e.Read? && e.fd == fd && Active(s, t, d) && e.n >= 0 && e.buf != 0
  }

  /** The job itself closes the descriptor, or halts. */
  predicate GivesUp(s: System, e: Event, t: nat, d: nat, fd: nat)
    requires s.Sized() && t < TERMINALS
  {
    Ends(s, e, t, d) || (e.Close? && e.fd == fd && Active(s, t, d))
  }

  /** The file behind a step: reads of its own move the position. */
  function FileBehind(img: Image, s: System, e: Event, t: nat, d: nat, fd: nat, f: OpenFile): OpenFile
    requires img.Valid() && s.Sized() && t < TERMINALS && f.ops.FileOps? && f.inode < |img.inode|
  {
    if Takes(s, e, t, d, fd) then f.(position := Advanced(f.position, img.ReadCount(f.inode, f.position, e.n))) else f
  }

  lemma RunningFile(s: System, t: nat, d: nat, fd: nat, f: OpenFile)
    requires Good(s) && t < TERMINALS && Active(s, t, d) && HasFile(s, t, d, fd, f)
    ensures Alive(s.procs) && FileOf(CurrentFd(s.procs, fd)) == Some(f)
  {
    RunningJob(s);
  }

  /** What the running program's steps do to a descriptor in use. */
  lemma OwnChange(img: Image, s: System, e: Event, t: nat, d: nat, fd: nat, f: OpenFile)
    requires Bootable(img) && Good(s) && Ready(s) && t < TERMINALS && Active(s, t, d) && HasFile(s, t, d, fd, f)
    requires f.ops.FileOps? && f.inode < |img.inode| && !GivesUp(s, e, t, d, fd) && Minor(e)
    requires !Step(img, s, e).1.Fault?
    ensures JobBehind(img, s, e, t, d).files[fd]
         == Some(FileBehind(img, s, e, t, d, fd, f))
  {
    RunningFile(s, t, d, fd, f);
    var c := FdChange(img, s, e);
    if e.Read? && e.fd == fd {
      OwnRead(img, s, e, fd, f);
    } else {
      OtherFd(img, s, e, fd);
    }
    ChangedFile(JobAt(View(s.procs, t), d), c, fd);
  }

  lemma ChangedFile(j: Job, c: Option<(nat, Descriptor)>, fd: nat)
    requires fd < |j.files|
    ensures |Changed(j, c).files| == |j.files|
    ensures Changed(j, c).files[fd] == if c.Some? && c.value.0 == fd then FileOf(c.value.1) else j.files[fd]
  {
  }

  /** Opening, or closing or reading another descriptor, changes another one. */
  lemma OtherFd(img: Image, s: System, e: Event, fd: nat)
    requires Bootable(img) && s.Sized() && s.procs.Current().Some? && fd < DESCRIPTORS && Minor(e)
    requires CurrentFd(s.procs, fd).flags != 0 && !(e.Close? && e.fd == fd) && !(e.Read? && e.fd == fd)
    ensures FdChange(img, s, e).Some? ==> FdChange(img, s, e).value.0 != fd
  {
  }

  lemma OwnRead(img: Image, s: System, e: Event, fd: nat, f: OpenFile)
    requires Bootable(img) && Ready(s) && Alive(s.procs)
    requires fd < DESCRIPTORS && FileOf(CurrentFd(s.procs, fd)) == Some(f)
    requires f.ops.FileOps? && f.inode < |img.inode| && e.Read? && e.fd == fd && !Step(img, s, e).1.Fault?
    ensures FdChange(img, s, e) ==
            if ReadRefused(s.procs, e.fd, e.buf, e.n) then None
            else
              var count := img.ReadCount(f.inode, f.position, e.n);
              Some((fd, CurrentFd(s.procs, fd).(position := Advanced(f.position, count))))
  {
  }

  lemma StepFile(img: Image, s: System, e: Event, t: nat, d: nat, fd: nat, f: OpenFile)
    requires Bootable(img) && Good(s) && Ready(s) && t < TERMINALS && !Stops(Step(img, s, e).1)
    requires HasFile(s, t, d, fd, f) && f.ops.FileOps? && f.inode < |img.inode| && !GivesUp(s, e, t, d, fd)
    ensures HasFile(Step(img, s, e).0, t, d, fd, FileBehind(img, s, e, t, d, fd, f))
  {
    StepAt(img, s, e, t, d);
    if Active(s, t, d) && Minor(e) {
      OwnChange(img, s, e, t, d, fd, f);
    }
  }

  // ---- Reads of a process over a run ----

  /** The job keeps the descriptor over the run. */
  ghost predicate Keeps(img: Image, s: System, es: seq<Event>, t: nat, d: nat, fd: nat)
    requires Bootable(img) && Good(s) && CanRun(img, s, es) && t < TERMINALS
    decreases |es|
  {
    es == [] || (!GivesUp(s, es[0], t, d, fd) &&
                 (GoodIsReady(s); StepKeepsGood(img, s, es[0]); Keeps(img, Step(img, s, es[0]).0, es[1..], t, d, fd)))
  }

  /** The size of the step's read, if it is one of them. */
  function SizeOf(s: System, e: Event, t: nat, d: nat, fd: nat): seq<nat>
    requires s.Sized() && t < TERMINALS
  {
    if Takes(s, e, t, d, fd) then [e.n] else []
  }

  /** The sizes of its reads, in their order. */
  ghost function Sizes(img: Image, s: System, es: seq<Event>, t: nat, d: nat, fd: nat): seq<nat>
    requires Bootable(img) && Good(s) && CanRun(img, s, es) && t < TERMINALS
    decreases |es|
  {
    if es == [] then []
    else
      GoodIsReady(s);
      StepKeepsGood(img, s, es[0]);
      SizeOf(s, es[0], t, d, fd) + Sizes(img, Step(img, s, es[0]).0, es[1..], t, d, fd)
  }

  /** The bytes of the running program's frame behind a read: as many as the value it
      returned, from its buffer on. */
  function Landed(s: System, s': System, e: Event, r: Reply): seq<byte>
    requires s.Sized() && s'.Sized() && e.Read?
  {
    if s.procs.Current().Some? && r.Result? && r.value >= 0 && InPage(e.buf, r.value)
    then FrameOf(s'.user, s.procs.Current().value)[e.buf - USER_PAGE..e.buf - USER_PAGE + r.value] else []
  }

  /** What the step's read puts in its frame, if it is one of them. */
  function Piece(img: Image, s: System, e: Event, t: nat, d: nat, fd: nat): seq<byte>
    requires Bootable(img) && Ready(s) && t < TERMINALS
  {
    if Takes(s, e, t, d, fd) then Landed(s, Step(img, s, e).0, e, Step(img, s, e).1) else []
  }

  /** All that its reads put in its frame, one behind the other. */
  ghost function Received(img: Image, s: System, es: seq<Event>, t: nat, d: nat, fd: nat): seq<byte>
    requires Bootable(img) && Good(s) && CanRun(img, s, es) && t < TERMINALS
    decreases |es|
  {
    if es == [] then []
    else
      GoodIsReady(s);
      StepKeepsGood(img, s, es[0]);
      Piece(img, s, es[0], t, d, fd) + Received(img, Step(img, s, es[0]).0, es[1..], t, d, fd)
  }

  lemma ReadLands(img: Image, s: System, e: Event, t: nat, d: nat, fd: nat, f: OpenFile)
    requires Bootable(img) && Good(s) && Ready(s) && t < TERMINALS && HasFile(s, t, d, fd, f)
    requires f.ops.FileOps? && f.inode < |img.inode| && Takes(s, e, t, d, fd) && !Step(img, s, e).1.Fault?
    ensures Landed(s, Step(img, s, e).0, e, Step(img, s, e).1) == img.ReadBytes(f.inode, f.position, e.n)
  {
    RunningFile(s, t, d, fd, f);
    StepIsRead(img, s, e.fd, e.buf, e.n, e.device);
    FileReadLands(img, s, e.fd, e.buf, e.n, e.device, f);
  }

  lemma FileReadLands(img: Image, s: System, fd: nat, buf: nat, n: nat, device: Delivery, f: OpenFile)
    requires Bootable(img) && s.Sized() && Alive(s.procs)
    requires fd < DESCRIPTORS && FileOf(CurrentFd(s.procs, fd)) == Some(f)
    requires f.ops.FileOps? && f.inode < |img.inode| && !ReadRefused(s.procs, fd, buf, n)
    requires !ReadNow(img, s, fd, buf, n, device).1.Fault?
    ensures var (s', r) := ReadNow(img, s, fd, buf, n, device);
            Landed(s, s', Read(fd, buf, n, device), r) == img.ReadBytes(f.inode, f.position, n)
  {
    StoredHolds(s, buf, img.ReadBytes(f.inode, f.position, n));
  }

  /** A descriptor and what was received through it agree with a descriptor read by
      itself. */
  ghost predicate AsAlone(img: Image, s: System, es: seq<Event>, t: nat, d: nat, fd: nat, f: OpenFile)
    requires Bootable(img) && Good(s) && CanRun(img, s, es) && t < TERMINALS && f.inode < |img.inode|
  {
    var alone := ReadAll(img, f.inode, f.position, Sizes(img, s, es, t, d, fd));
    Received(img, s, es, t, d, fd) == alone.0 && HasFile(Run(img, s, es), t, d, fd, f.(position := alone.1))
  }

  lemma AloneCons(img: Image, s: System, es: seq<Event>, t: nat, d: nat, fd: nat, f: OpenFile)
    requires Bootable(img) && Good(s) && Ready(s) && es != [] && CanRun(img, s, es) && t < TERMINALS
    requires HasFile(s, t, d, fd, f) && f.ops.FileOps? && f.inode < |img.inode| && !GivesUp(s, es[0], t, d, fd)
    requires Good(Step(img, s, es[0]).0) && CanRun(img, Step(img, s, es[0]).0, es[1..])
    requires AsAlone(img, Step(img, s, es[0]).0, es[1..], t, d, fd, FileBehind(img, s, es[0], t, d, fd, f))
    ensures AsAlone(img, s, es, t, d, fd, f)
  {
    PieceIsRead(img, s, es[0], t, d, fd, f);
    ReadAllCons(img, f.inode, f.position, SizeOf(s, es[0], t, d, fd),
                Sizes(img, Step(img, s, es[0]).0, es[1..], t, d, fd));
  }

  /** One step reads as if it were alone. */
  lemma PieceIsRead(img: Image, s: System, e: Event, t: nat, d: nat, fd: nat, f: OpenFile)
    requires Bootable(img) && Good(s) && Ready(s) && t < TERMINALS && !Step(img, s, e).1.Fault?
    requires HasFile(s, t, d, fd, f) && f.ops.FileOps? && f.inode < |img.inode|
    ensures (Piece(img, s, e, t, d, fd), FileBehind(img, s, e, t, d, fd, f).position)
         == ReadAll(img, f.inode, f.position, SizeOf(s, e, t, d, fd))
  {
    if Takes(s, e, t, d, fd) {
      ReadLands(img, s, e, t, d, fd, f);
      assert [e.n][1..] == [];
      assert img.ReadBytes(f.inode, f.position, e.n) + [] == img.ReadBytes(f.inode, f.position, e.n);
    }
  }

  lemma ReadAllCons(img: Image, i: nat, position: nat, first: seq<nat>, sizes: seq<nat>)
    requires img.Valid() && i < |img.inode| && |first| <= 1
    ensures var now := ReadAll(img, i, position, first); var rest := ReadAll(img, i, now.1, sizes);
            ReadAll(img, i, position, first + sizes) == (now.0 + rest.0, rest.1)
  {
    if first == [] {
      var rest := ReadAll(img, i, position, sizes).0;
      assert first + sizes == sizes && [] + rest == rest;
    } else {
      var b := img.ReadBytes(i, position, first[0]);
      assert (first + sizes)[1..] == sizes && (first + sizes)[0] == first[0] && first[1..] == [];
      assert ReadAll(img, i, position, first) == (b + [], Advanced(position, |b|)) && b + [] == b;
    }
  }

  /** Over every interleaved run in which a process keeps a file open, its own reads
      receive in its frame exactly what they would if it were alone, and leave the
      position where they would. */
  lemma {:induction false} ReadsAsAlone(img: Image, s: System, es: seq<Event>, t: nat, d: nat, fd: nat, f: OpenFile)
    requires Bootable(img) && Good(s) && CanRun(img, s, es) && t < TERMINALS
    requires HasFile(s, t, d, fd, f) && f.ops.FileOps? && f.inode < |img.inode| && Keeps(img, s, es, t, d, fd)
    ensures AsAlone(img, s, es, t, d, fd, f)
    decreases |es|
  {
    if es != [] {
      GoodIsReady(s);
      StepKeepsGood(img, s, es[0]);
      StepFile(img, s, es[0], t, d, fd, f);
      ReadsAsAlone(img, Step(img, s, es[0]).0, es[1..], t, d, fd, FileBehind(img, s, es[0], t, d, fd, f));
      AloneCons(img, s, es, t, d, fd, f);
    }
  }

  /** So its successive reads inside a file that fits deliver consecutive slices of the
      file: together the stretch from the first position to the last. */
  lemma InterleavedReadsConcatenate(img: Image, s: System, es: seq<Event>, t: nat, d: nat, fd: nat, f: OpenFile)
    returns (last: nat)
    requires Bootable(img) && Good(s) && CanRun(img, s, es) && t < TERMINALS
    requires HasFile(s, t, d, fd, f) && f.ops.FileOps? && f.inode < |img.inode| && Keeps(img, s, es, t, d, fd)
    requires Fits(img, f.inode) && f.position + Sum(Sizes(img, s, es, t, d, fd)) <= img.inode[f.inode].length
    ensures last == f.position + Sum(Sizes(img, s, es, t, d, fd))
    ensures f.position <= last && Received(img, s, es, t, d, fd) == Slice(img, f.inode, f.position, last)
    ensures HasFile(Run(img, s, es), t, d, fd, f.(position := last))
  {
    var sizes := Sizes(img, s, es, t, d, fd);
    last := f.position + Sum(sizes);
    ReadsAsAlone(img, s, es, t, d, fd, f);
    ReadsConcatenate(img, f.inode, f.position, sizes, last);
    AloneIs(img, s, es, t, d, fd, f, last);
  }

  lemma AloneIs(img: Image, s: System, es: seq<Event>, t: nat, d: nat, fd: nat, f: OpenFile, last: nat)
    requires Bootable(img) && Good(s) && CanRun(img, s, es) && t < TERMINALS && f.inode < |img.inode|
    requires AsAlone(img, s, es, t, d, fd, f) && f.position <= last <= img.inode[f.inode].length
    requires ReadAll(img, f.inode, f.position, Sizes(img, s, es, t, d, fd))
          == (Slice(img, f.inode, f.position, last), last)
    ensures Received(img, s, es, t, d, fd) == Slice(img, f.inode, f.position, last)
    ensures HasFile(Run(img, s, es), t, d, fd, f.(position := last))
  {
  }

  /** A stretch of a file. */
  function Slice(img: Image, i: nat, first: nat, last: nat): seq<byte>
    requires img.Valid() && i < |img.inode| && first <= last <= img.inode[i].length
  {
    img.FileBytes(i)[first..last]
  }
}
