/** The whole kernel state as a value, and each system call, tick and keyboard
    switch as one step (student-distrib/system_call.c, pit.c, keyboard.c). */
module System {
  import opened Bytes
  import opened FileSystem
  import opened Helpers
  import opened Commands
  import opened Processes
  import opened Chains
  import opened Jobs
  import opened Memory
  import Console
  import Screens

  /** User memory: six frames of 4 MB from 8 MB on. */
  const USER_SIZE: nat := PIDS * FOUR_MB
  /** Start of the 4 MB page of a program: 128 MB. */
  const USER_PAGE: nat := 0x800_0000
  /** Offset of the program image in its frame: 0x08048000 - 128 MB. */
  const IMAGE_OFFSET: nat := 0x4_8000
  const ENTRY_INDEX: nat := 24
  const VIDEO: nat := 0xB_8000
  const VID_MEM_FLAG: nat := 7

  const SHELL: seq<byte> := [115, 104, 101, 108, 108]
  const EXIT: seq<byte> := [101, 120, 105, 116]

  /** What execute prints when the process table is full. */
  const LIMIT_MESSAGE: seq<byte> := Ascii("Maximum number of process reached. Exit please\n")

  datatype System = System(procs: State, screens: Screens.State, user: seq<byte>, video: int, cursor: int) {
    /** `cursor` is directory_index, which all processes share. */
    predicate Sized() {
      procs.Sized() && screens.Valid() && |user| == USER_SIZE && cursor >= -1
    }
  }

  /** What a device or a directory delivers to a read: the value returned and the
      bytes stored. */
  datatype Delivery = Delivery(value: int, bytes: seq<byte>)

  /** One atomic step: a step of the kernel, or a store of the running program
      itself. Buffers are virtual addresses; registers are those of the interrupted
      or calling process. */
  datatype Event =
    | Putc(c: byte)
    | Clear
    | Switch(next: nat)
    | Tick(registers: Context)
    | Execute(line: seq<byte>, registers: Context)
    | Halt(registers: Context)
    | Open(name: seq<byte>)
    | Close(fd: int)
    | Read(fd: int, buf: nat, n: int, device: Delivery)
    | GetArgs(buf: nat, n: int)
    | Store(buf: nat, bytes: seq<byte>)

  /** How a step ends: with a value, a new program entered at the address in the
      entry bytes, another context resumed, no pid left for a program, or a buffer
      that is not in the page of the program. The model goes no further behind the
      last two. */
  datatype Reply =
    | Result(value: int)
    | Started(pid: nat, entry: seq<byte>)
    | Resumed(registers: Context)
    | NoSlot
    | Fault

  predicate Stops(r: Reply) {
    r.NoSlot? || r.Fault?
  }

  /** Programs fit their frame behind the image offset. */
  predicate Loadable(img: Image)
    requires img.Valid()
  {
    forall i :: 0 <= i < |img.inode| && img.ReadBytes(i, 0, 4) == MAGIC ==>
      img.inode[i].length + IMAGE_OFFSET <= FOUR_MB
  }

  /** The image the kernel boots from: it has a shell that can be executed. */
  predicate Bootable(img: Image) {
    img.Valid() && Loadable(img) && Executable(img, SHELL)
  }

  /** The kernel is where a process of the scheduled terminal can enter it. */
  predicate Alive(p: State) {
    CanHalt(p) && Named(p.pcb, p.Current().value) && Mapped(p)
  }

  /** Start of the frame that a user page entry maps, in user memory. */
  function Frame(page: int): int {
    page - PAGING_USER_ON - EIGHT_MB
  }

  /** page_table_video[0] for a scheduled and a visible terminal. */
  function VideoEntry(sched: nat, visible: nat): int {
    VID_MEM_FLAG + VIDEO + if sched == visible then 0 else Console.PAGE * (sched + 1)
  }

  /** execute behind its checks: the launch, the program image loaded through
      the new page entry, and the entry point read. */
  function Start(img: Image, s: System, name: seq<byte>, argument: seq<byte>, registers: Context): (r: (System, Reply))
    requires Bootable(img) && Executable(img, name) && s.Sized()
    ensures r.0.Sized() && r.0.procs.sched == s.procs.sched
  {
    var (p, pid) := Launch(s.procs, argument, registers);
    if pid.None? then (s.(procs := p), NoSlot)
    else
      var i := FindName(img, name).value.inode;
      (s.(procs := p, user := Overlay(s.user, Frame(p.page) + IMAGE_OFFSET, img.ReadBytes(i, 0, img.inode[i].length))),
       Started(pid.value, img.ReadBytes(i, ENTRY_INDEX, 4)))
  }

  /** The limit check of execute applies. */
  predicate LimitHit(p: State, name: seq<byte>)
    requires p.Sized()
  {
    p.Current().Some? && p.counter == MAX_PID && name != EXIT
  }

  /** execute. */
  function ExecuteLine(img: Image, s: System, line: seq<byte>, registers: Context): (r: (System, Reply))
    requires Bootable(img) && s.Sized()
    ensures r.0.Sized() && r.0.procs.sched == s.procs.sched
  {
    var c := ParseLine(line);
    if c.None? then (s, Result(-1))
    else if LimitHit(s.procs, c.value.name) then
      (s.(screens := Screens.Puts(s.screens, s.procs.sched, LIMIT_MESSAGE)), Result(-1))
    else if !Executable(img, c.value.name) then (s, Result(-1))
    else Start(img, s, c.value.name, c.value.argument, registers)
  }

  /** halt. */
  function HaltNow(img: Image, s: System, registers: Context): (r: (System, Reply))
    requires Bootable(img) && s.Sized() && Alive(s.procs)
    ensures r.0.Sized()
  {
    if IsRoot(s.procs) then ExecuteLine(img, s.(procs := DropRoot(s.procs)), SHELL, registers)
    else (s.(procs := ReturnToParent(s.procs)),
          Resumed(s.procs.pcb[s.procs.pcb[s.procs.Current().value].parent.value].halted))
  }

  /** scheduler, when a process was interrupted. */
  function TickNow(img: Image, s: System, registers: Context): (r: (System, Reply))
    requires Bootable(img) && s.Sized() && s.procs.Current().Some?
    ensures r.0.Sized()
  {
    var p := Preempt(s.procs, registers);
    if p.Current().None? then ExecuteLine(img, s.(procs := p), SHELL, registers)
    else (s.(procs := Remap(p), video := VideoEntry(p.sched, s.screens.visible)),
          Resumed(p.pcb[p.Current().value].saved))
  }

  /** The first tick after power-on. */
  function BootTick(img: Image, s: System, registers: Context): (r: (System, Reply))
    requires Bootable(img) && s.Sized()
    ensures r.0.Sized()
  {
    ExecuteLine(img, s.(screens := Screens.ClearVisible(s.screens)), SHELL, registers)
  }

  /** The n bytes from a virtual address on lie in the program's page. */
  predicate InPage(buf: nat, n: nat) {
    USER_PAGE <= buf && buf + n <= USER_PAGE + FOUR_MB
  }

  /** User memory after bytes are stored at a virtual address, through the page
      entry of the current process. */
  function Stored(s: System, buf: nat, bytes: seq<byte>): (r: seq<byte>)
    requires s.Sized() && Alive(s.procs) && InPage(buf, |bytes|)
    ensures |r| == |s.user|
  {
    Overlay(s.user, Frame(s.procs.page) + buf - USER_PAGE, bytes)
  }

  /** What the read function of a descriptor delivers, with the directory cursor at
      the given place. */
  function Delivered(img: Image, d: Descriptor, n: nat, device: Delivery, cursor: int): Delivery
    requires img.Valid() && cursor >= -1
  {
    match d.ops
    case FileOps =>
      if d.inode >= |img.inode| then Delivery(-1, [])
      else Delivery(img.ReadCount(d.inode, d.position, n), img.ReadBytes(d.inode, d.position, n))
    case DirOps => Delivery(DirValue(img, cursor), DirBytes(img, cursor))
    case StdoutOps => Delivery(-1, [])
    case _ => device
  }

  /** The directory cursor behind a read of a descriptor. */
  function CursorBehind(img: Image, d: Descriptor, cursor: int): (c: int)
    requires cursor >= -1
    ensures c >= -1
  {
    if d.ops.DirOps? then NextIndex(img.dirEntries, cursor) else cursor
  }

  /** read refuses a bad size, descriptor or buffer. */
  predicate ReadRefused(p: State, fd: int, buf: nat, n: int)
    requires p.Sized() && p.Current().Some?
  {
    n < 0 || fd < 0 || fd >= DESCRIPTORS || buf == 0 || p.pcb[p.Current().value].fd[fd].flags == 0
  }

  /** The buffer of a read is the program's own, for the n bytes asked for and for
      what is stored. */
  predicate Reaches(buf: nat, n: nat, got: Delivery) {
    InPage(buf, n) && InPage(buf, |got.bytes|)
  }

  /** The descriptor of the current process. */
  function CurrentFd(p: State, fd: int): Descriptor
    requires p.Sized() && p.Current().Some? && 0 <= fd < DESCRIPTORS
  {
    p.pcb[p.Current().value].fd[fd]
  }

  /** read: what is delivered is stored in the buffer, and the position moves by
      the value returned. */
  function ReadNow(img: Image, s: System, fd: int, buf: nat, n: int, device: Delivery): (r: (System, Reply))
    requires img.Valid() && s.Sized() && Alive(s.procs)
    ensures r.0.Sized()
  {
    if ReadRefused(s.procs, fd, buf, n) then (s, Result(-1))
    else
      var d := CurrentFd(s.procs, fd);
      var got := Delivered(img, d, n, device, s.cursor);
      if !Reaches(buf, n, got) then (s, Fault)
      else
        (s.(procs := Moved(s.procs, fd, got.value), user := Stored(s, buf, got.bytes),
            cursor := CursorBehind(img, d, s.cursor)), Result(got.value))
  }

  /** getargs. */
  function GetArgsNow(s: System, buf: nat, n: int): (r: (System, Reply))
    requires s.Sized() && Alive(s.procs)
    ensures r.0.Sized()
  {
    var a := StringOf(s.procs.pcb[s.procs.Current().value].argument);
    if n <= 0 || buf == 0 || a == [] then (s, Result(-1))
    else if !InPage(buf, n) then (s, Fault)
    else (s.(user := Stored(s, buf, Padded(a, n))), Result(if |a| < n then 0 else -1))
  }

  /** A store of the program itself. */
  function StoreNow(s: System, buf: nat, bytes: seq<byte>): (r: (System, Reply))
    requires s.Sized() && Alive(s.procs)
    ensures r.0.Sized()
  {
    if !InPage(buf, |bytes|) then (s, Fault) else (s.(user := Stored(s, buf, bytes)), Result(0))
  }

  function OpenNow(img: Image, s: System, name: seq<byte>): (r: (System, Reply))
    requires img.Valid() && s.Sized() && s.procs.Current().Some?
    ensures r.0.Sized()
  {
    if name == [] || FindName(img, name).None? then (s, Result(-1))
    else
      var (p, fd) := OpenEntry(s.procs, FindName(img, name).value);
      (s.(procs := p), Result(fd))
  }

  function CloseNow(s: System, fd: int): (r: (System, Reply))
    requires s.Sized() && s.procs.Current().Some?
    ensures r.0.Sized()
  {
    var (p, code) := Processes.Close(s.procs, fd);
    (s.(procs := p), Result(code))
  }

  /** The kernel can take a step: a process runs, or the machine was just
      switched on. */
  predicate Ready(s: System) {
    s.Sized() && (Alive(s.procs) || (s.procs.sched == 0 && s.procs.Current().None?))
  }

  /** One step of the kernel. Before the first tick there is no process that
      could call it. */
  function Step(img: Image, s: System, e: Event): (r: (System, Reply))
    requires Bootable(img) && Ready(s)
    ensures r.0.Sized()
  {
    match e
    case Putc(c) => (s.(screens := Screens.Putc(s.screens, s.procs.sched, c)), Result(0))
    case Clear => (s.(screens := Screens.ClearVisible(s.screens)), Result(0))
    case Switch(next) =>
      if next >= TERMINALS then (s, Result(-1))
      else (s.(screens := Screens.Switch(s.screens, next), video := VideoEntry(s.procs.sched, next)), Result(0))
    case Tick(registers) =>
      if s.procs.Current().None? then BootTick(img, s, registers) else TickNow(img, s, registers)
    case _ =>
      if s.procs.Current().None? then (s, Result(-1)) else Call(img, s, e)
  }

  /** The step leaves every process where it is. */
  predicate Minor(e: Event) {
    e.Open? || e.Close? || e.Read? || e.GetArgs? || e.Store?
  }

  /** A system call of the current process, or a store of its program. */
  function Call(img: Image, s: System, e: Event): (r: (System, Reply))
    requires Bootable(img) && s.Sized() && Alive(s.procs)
    ensures r.0.Sized()
  {
    match e
    case Execute(line, registers) => ExecuteLine(img, s, line, registers)
    case Halt(registers) => HaltNow(img, s, registers)
    case Open(name) => OpenNow(img, s, name)
    case Close(fd) => CloseNow(s, fd)
    case Read(fd, buf, n, device) => ReadNow(img, s, fd, buf, n, device)
    case GetArgs(buf, n) => GetArgsNow(s, buf, n)
    case Store(buf, bytes) => StoreNow(s, buf, bytes)
    case _ => (s, Result(-1))
  }

  function ZeroBlock(): Pcb {
    var d := Descriptor(NoOps, 0, 0, 0);
    Pcb(0, 0, Context(0, 0), Context(0, 0), [], [d, d, d, d, d, d, d, d], None)
  }

  /** The kernel when the machine is switched on: no process, blocks zeroed. */
  function PowerOn(screens: Screens.State, user: seq<byte>): System {
    var b := ZeroBlock();
    System(State(0, [VACANT, VACANT, VACANT, VACANT, VACANT, VACANT], -1, [b, b, b, b, b, b],
                 [None, None, None], 0, 0), screens, user, 0, -1)
  }

  lemma PowerOnSized(screens: Screens.State, user: seq<byte>)
    requires screens.Valid() && |user| == USER_SIZE
    ensures PowerOn(screens, user).Sized()
  {
  }
}
