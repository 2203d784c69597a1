/** The directory cursor that all processes share (directory_index in
    student-distrib/file_sys.c): what listings on several terminals do to each other. */
module Listing {
  import opened Bytes
  import opened FileSystem
  import opened Helpers
  import opened Processes
  import Chains
  import opened Jobs
  import opened System
  import opened Local
  import opened Refinement
  import opened Runs
  import opened Theorems
  import opened Boot
  import PM = PrivateMachine
  import Screens

  /** The step reads a directory. */
  predicate ReadsDirectory(s: System, e: Event)
    requires s.Sized()
  {
    e.Read? && s.procs.Current().Some? && 0 <= e.fd < DESCRIPTORS && e.buf != 0 && e.n >= 0
    && CurrentFd(s.procs, e.fd).flags != 0 && CurrentFd(s.procs, e.fd).ops.DirOps?
  }

  /** A step moves the cursor if and only if it reads a directory. */
  lemma StepCursor(img: Image, s: System, e: Event)
    requires Bootable(img) && Ready(s) && !Step(img, s, e).1.Fault?
    ensures Step(img, s, e).0.cursor == if ReadsDirectory(s, e) then NextIndex(img.dirEntries, s.cursor) else s.cursor
  {
    if e.Tick? {
      StepIsTick(img, s, e.registers);
      TickCursor(img, s, e.registers);
    } else if s.procs.Current().Some? && e.Execute? {
      StepIsExecute(img, s, e.line, e.registers);
    } else if s.procs.Current().Some? && e.Halt? {
      HaltCursor(img, s, e.registers);
    } else if s.procs.Current().Some? && Minor(e) {
      MinorCursor(img, s, e);
    }
  }

  lemma TickCursor(img: Image, s: System, r: Context)
    requires Bootable(img) && s.Sized()
    ensures s.procs.Current().None? ==> BootTick(img, s, r).0.cursor == s.cursor
    ensures s.procs.Current().Some? ==> TickNow(img, s, r).0.cursor == s.cursor
  {
    if s.procs.Current().None? {
      ExecuteCursor(img, s.(screens := Screens.ClearVisible(s.screens)), SHELL, r);
    } else if Preempt(s.procs, r).Current().None? {
      ExecuteCursor(img, s.(procs := Preempt(s.procs, r)), SHELL, r);
    }
  }

  lemma ExecuteCursor(img: Image, s: System, line: seq<byte>, r: Context)
    requires Bootable(img) && s.Sized()
    ensures ExecuteLine(img, s, line, r).0.cursor == s.cursor
  {
  }

  lemma HaltCursor(img: Image, s: System, r: Context)
    requires Bootable(img) && s.Sized() && Alive(s.procs)
    ensures HaltNow(img, s, r).0.cursor == s.cursor
  {
    if IsRoot(s.procs) {
      ExecuteCursor(img, s.(procs := DropRoot(s.procs)), SHELL, r);
    }
  }

  lemma MinorCursor(img: Image, s: System, e: Event)
    requires Bootable(img) && s.Sized() && Alive(s.procs) && Minor(e) && !Call(img, s, e).1.Fault?
    ensures Call(img, s, e).0.cursor == if ReadsDirectory(s, e) then NextIndex(img.dirEntries, s.cursor) else s.cursor
  {
  }

  /** How many directory reads a step is. */
  function Reads(s: System, e: Event): nat
    requires s.Sized()
  {
    if ReadsDirectory(s, e) then 1 else 0
  }

  /** How often a run reads a directory. */
  ghost function AllListings(img: Image, s: System, es: seq<Event>): nat
    requires Bootable(img) && Good(s) && CanRun(img, s, es)
    decreases |es|
  {
    if es == [] then 0
    else
      GoodIsReady(s);
      StepKeepsGood(img, s, es[0]);
      Reads(s, es[0]) + AllListings(img, Step(img, s, es[0]).0, es[1..])
  }

  /** How often while terminal t is scheduled. */
  ghost function ListingsBy(img: Image, s: System, es: seq<Event>, t: nat): (k: nat)
    requires Bootable(img) && Good(s) && CanRun(img, s, es)
    ensures k <= AllListings(img, s, es)
    decreases |es|
  {
    if es == [] then 0
    else
      GoodIsReady(s);
      StepKeepsGood(img, s, es[0]);
      (if s.procs.sched == t then Reads(s, es[0]) else 0)
      + ListingsBy(img, Step(img, s, es[0]).0, es[1..], t)
  }

  /** The cursor after so many further directory reads. */
  function Forward(dirEntries: nat, cursor: int, count: nat): int
    decreases count
  {
    if count == 0 then cursor else Forward(dirEntries, NextIndex(dirEntries, cursor), count - 1)
  }

  /** In every state of a run the cursor tells how often the directory was read, by
      whichever terminal. */
  lemma {:induction false} CursorCounts(img: Image, s: System, es: seq<Event>)
    requires Bootable(img) && Good(s) && CanRun(img, s, es)
    ensures Counted(img, s, es)
    decreases |es|
  {
    if es != [] {
      GoodIsReady(s);
      StepKeepsGood(img, s, es[0]);
      CursorCounts(img, Step(img, s, es[0]).0, es[1..]);
      CountedCons(img, s, es, Step(img, s, es[0]).0);
    }
  }

  ghost predicate Counted(img: Image, s: System, es: seq<Event>)
    requires Bootable(img) && Good(s) && CanRun(img, s, es)
  {
    Run(img, s, es).cursor == Forward(img.dirEntries, s.cursor, AllListings(img, s, es))
  }

  lemma CountedCons(img: Image, s: System, es: seq<Event>, s': System)
    requires Bootable(img) && Good(s) && Good(s') && Ready(s) && es != [] && CanRun(img, s, es)
    requires s' == Step(img, s, es[0]).0 && CanRun(img, s', es[1..]) && Counted(img, s', es[1..])
    ensures Counted(img, s, es)
  {
    StepCursor(img, s, es[0]);
    FirstOfRun(img, s, es, s');
    ForwardOne(img.dirEntries, s.cursor, s'.cursor, Reads(s, es[0]), AllListings(img, s', es[1..]));
  }

  lemma FirstOfRun(img: Image, s: System, es: seq<Event>, s': System)
    requires Bootable(img) && Good(s) && Good(s') && Ready(s) && es != [] && CanRun(img, s, es)
    requires s' == Step(img, s, es[0]).0 && CanRun(img, s', es[1..])
    ensures Run(img, s, es) == Run(img, s', es[1..])
    ensures AllListings(img, s, es) == Reads(s, es[0]) + AllListings(img, s', es[1..])
  {
  }

  lemma ForwardOne(n: nat, c: int, c': int, one: nat, count: nat)
    requires one <= 1 && c' == if one == 1 then NextIndex(n, c) else c
    ensures Forward(n, c, one + count) == Forward(n, c', count)
  {
  }

  /** The cursor stands where k directory reads from power-on leave it: at -1 before
      the first and after every (n + 1)-th, n entries being in use. */
  predicate At(img: Image, s: System, k: nat) {
    s.cursor + 1 == k % (img.dirEntries + 1)
  }

  lemma {:induction false} ForwardIs(n: nat, cursor: int, k: nat, count: nat, last: nat)
    requires cursor + 1 == k % (n + 1) && last == k + count
    ensures Forward(n, cursor, count) + 1 == last % (n + 1)
    decreases count
  {
    if count > 0 {
      NextMod(k, n + 1);
      ForwardIs(n, NextIndex(n, cursor), k + 1, count - 1, last);
    }
  }

  /** A terminal that had read k entries and `own` more finds the next one of its own
      listing if and only if the other terminals have meanwhile read the directory a
      multiple of n + 1 times, n entries being in use: no time at all, or whole
      listings with the end of each. */
  lemma ListingIsOwnIff(img: Image, s: System, es: seq<Event>, t: nat, k: nat) returns (own: nat, others: nat)
    requires Bootable(img) && Good(s) && CanRun(img, s, es) && At(img, s, k)
    ensures own == ListingsBy(img, s, es, t) && others == AllListings(img, s, es) - own
    ensures At(img, Run(img, s, es), k + own) <==> others % (img.dirEntries + 1) == 0
  {
    own := ListingsBy(img, s, es, t);
    others := AllListings(img, s, es) - own;
    CursorCounts(img, s, es);
    SameIndexIff(img, s, Run(img, s, es), k, own, others);
  }

  lemma SameIndexIff(img: Image, s: System, s': System, k: nat, own: nat, others: nat)
    requires At(img, s, k) && s'.cursor == Forward(img.dirEntries, s.cursor, own + others)
    ensures At(img, s', k + own) <==> others % (img.dirEntries + 1) == 0
  {
    ForwardIs(img.dirEntries, s.cursor, k, own + others, k + own + others);
    SameRemainder(k + own, others, img.dirEntries + 1);
  }

  lemma SameRemainder(a: nat, b: nat, m: nat)
    requires m > 0
    ensures (a + b) % m == a % m <==> b % m == 0
  {
    var q, q' := a / m, (a + b) / m;
    assert a == m * q + a % m && a + b == m * q' + (a + b) % m;
    if (a + b) % m == a % m {
      assert b == m * (q' - q) + 0 by {
        assert m * (q' - q) == m * q' - m * q;
      }
      ModIs(b, m, q' - q, 0);
    } else if b % m == 0 {
      assert a + b == m * (q + b / m) + a % m by {
        assert b == m * (b / m);
        assert m * (q + b / m) == m * q + m * (b / m);
      }
      ModIs(a + b, m, q + b / m, a % m);
    }
  }

  /** What the next directory read stores there, and the value it returns: the name of
      an entry and its length, or nothing and 0. */
  lemma NextEntry(img: Image, s: System, k: nat)
    requires img.Valid() && img.dirDentry.FileName() == DOT && At(img, s, k)
    ensures s.cursor >= -1
    ensures var j, b, r := k % (img.dirEntries + 1), DirBytes(img, s.cursor), DirValue(img, s.cursor);
            if j == img.dirEntries then b == [] && r == 0
            else var name := EntryAt(img, j).value.FileName(); r == |name| < |b| && b[..r] == name && b[r] == NUL
  {
    IndexCycles(img.dirEntries, k);
    ListingCycles(img, k, k % (img.dirEntries + 1));
  }

  // ---- Two terminals ----

  /** A fresh shell alone on the scheduled terminal. */
  ghost predicate Fresh(s: System) {
    Good(s) && View(s.procs, s.procs.sched) == [FreshShell()]
  }

  /** The current process has the directory open as descriptor 2. */
  ghost predicate HasListing(s: System) {
    Good(s) && s.procs.Current().Some? && CurrentFd(s.procs, 2) == Descriptor(DirOps, 0, 0, 1)
  }

  lemma OpensListing(img: Image, s: System, name: seq<byte>, u: nat) returns (s': System)
    requires Bootable(img) && Fresh(s) && u < TERMINALS
    requires name != [] && FindName(img, name).Some? && FindName(img, name).value.fileType == 1
    ensures Ready(s) && s' == Step(img, s, Open(name)).0 && !Stops(Step(img, s, Open(name)).1)
    ensures HasListing(s') && s'.cursor == s.cursor && s'.procs.sched == s.procs.sched
    ensures u != s.procs.sched ==> View(s'.procs, u) == View(s.procs, u)
  {
    FreshIsFilled(s);
    CallerAlive(s);
    StepOpens(img, s, name);
    s' := Step(img, s, Open(name)).0;
    StepKeepsGood(img, s, Open(name));
    FreeFdIs(s.procs.pcb[s.procs.Current().value].fd, 0, 2);
    if u != s.procs.sched {
      OthersKeepViews(img, s, Open(name), u);
    }
  }

  /** What a read of an open directory does. */
  lemma ReadsEntry(img: Image, s: System, buf: nat, n: nat, device: Delivery)
    requires Bootable(img) && HasListing(s) && buf != 0 && InPage(buf, n) && InPage(buf, NAME + 1)
    ensures Ready(s) && Alive(s.procs)
    ensures var (s', r) := Step(img, s, Read(2, buf, n, device));
            && r == Result(DirValue(img, s.cursor)) && s'.cursor == NextIndex(img.dirEntries, s.cursor)
            && InPage(buf, |DirBytes(img, s.cursor)|) && s'.user == Stored(s, buf, DirBytes(img, s.cursor))
            && s'.procs.sched == s.procs.sched && s'.procs.top == s.procs.top
  {
    CallerAlive(s);
    StepIsRead(img, s, 2, buf, n, device);
    DirectoryRead(img, s, 2, buf, n, device);
  }

  lemma StepIsRead(img: Image, s: System, fd: int, buf: nat, n: int, device: Delivery)
    requires Bootable(img) && Ready(s) && Alive(s.procs)
    ensures Step(img, s, Read(fd, buf, n, device)) == ReadNow(img, s, fd, buf, n, device)
  {
  }

  lemma DirectoryRead(img: Image, s: System, fd: int, buf: nat, n: nat, device: Delivery)
    requires Bootable(img) && s.Sized() && Alive(s.procs) && !ReadRefused(s.procs, fd, buf, n)
    requires CurrentFd(s.procs, fd).ops.DirOps? && InPage(buf, n) && InPage(buf, NAME + 1)
    ensures var (s', r) := ReadNow(img, s, fd, buf, n, device);
            && r == Result(DirValue(img, s.cursor)) && s'.cursor == NextIndex(img.dirEntries, s.cursor)
            && InPage(buf, |DirBytes(img, s.cursor)|) && s'.user == Stored(s, buf, DirBytes(img, s.cursor))
            && s'.procs.sched == s.procs.sched && s'.procs.top == s.procs.top
  {
  }

  lemma ReadsListing(img: Image, s: System, buf: nat, n: nat, device: Delivery, u: nat) returns (s': System)
    requires Bootable(img) && HasListing(s) && buf != 0 && InPage(buf, n) && InPage(buf, NAME + 1) && u < TERMINALS
    ensures Ready(s) && s' == Step(img, s, Read(2, buf, n, device)).0 && !Stops(Step(img, s, Read(2, buf, n, device)).1)
    ensures Good(s') && s'.cursor == NextIndex(img.dirEntries, s.cursor) && s'.procs.sched == s.procs.sched
    ensures s'.procs.Current().Some?
    ensures u != s.procs.sched ==> View(s'.procs, u) == View(s.procs, u)
  {
    ReadsEntry(img, s, buf, n, device);
    s' := Step(img, s, Read(2, buf, n, device)).0;
    StepKeepsGood(img, s, Read(2, buf, n, device));
    if u != s.procs.sched {
      OthersKeepViews(img, s, Read(2, buf, n, device), u);
    }
  }

  lemma TicksToFresh(img: Image, s: System, r: Context) returns (s': System)
    requires Bootable(img) && Good(s) && s.procs.Current().Some?
    requires View(s.procs, NextTerminal(s.procs.sched)) == [FreshShell()]
    ensures Ready(s) && s' == Step(img, s, Tick(r)).0 && !Stops(Step(img, s, Tick(r)).1)
    ensures Fresh(s') && s'.procs.sched == NextTerminal(s.procs.sched) && s'.cursor == s.cursor
  {
    var n := NextTerminal(s.procs.sched);
    StepOfTick(img, s, r);
    ViewIs(s.procs, Chains.ChainsOf(s.procs), n);
    NoSlotIff(img, s, Tick(r));
    SoundFaultsNot(img, s, Tick(r));
    StepKeepsGood(img, s, Tick(r));
    TickFacts(img, s, Chains.ChainsOf(s.procs), r, n);
    SchedOfStep(img, s, Tick(r));
    StepCursor(img, s, Tick(r));
    s' := Step(img, s, Tick(r)).0;
  }

  /** A run in which terminal 2 opens the directory and reads it once, and terminal 0,
      at its turn, opens it too. */
  lemma TwoOpens(img: Image, s: System, name: seq<byte>, buf: nat, n: nat, device: Delivery, r: Context)
    returns (s': System)
    requires Bootable(img) && Shells(s, TERMINALS)
    requires name != [] && FindName(img, name).Some? && FindName(img, name).value.fileType == 1
    requires buf != 0 && InPage(buf, n) && InPage(buf, NAME + 1)
    ensures RunsTo(img, s, [Open(name), Read(2, buf, n, device), Tick(r), Open(name)], s')
    ensures HasListing(s') && s'.procs.sched == 0 && s'.cursor == NextIndex(img.dirEntries, s.cursor)
  {
    var s1 := OpensListing(img, s, name, 0);
    var s2 := ReadsListing(img, s1, buf, n, device, 0);
    var s3 := TicksToFresh(img, s2, r);
    s' := OpensListing(img, s3, name, 0);
    RunOfFour(img, s, Open(name), s1, Read(2, buf, n, device), s2, Tick(r), s3, Open(name), s');
  }

  ghost predicate Leads(img: Image, s: System, e: Event, s': System)
    requires Bootable(img)
  {
    Good(s) && Good(s') && Ready(s) && Step(img, s, e).0 == s' && !Stops(Step(img, s, e).1)
  }

  /** From one state to another. */
  ghost predicate RunsTo(img: Image, s: System, es: seq<Event>, s': System)
    requires Bootable(img)
  {
    Good(s) && CanRun(img, s, es) && Run(img, s, es) == s'
  }

  lemma LeadsThenRuns(img: Image, s: System, e: Event, s1: System, es: seq<Event>, s': System)
    requires Bootable(img) && Leads(img, s, e, s1) && RunsTo(img, s1, es, s')
    ensures RunsTo(img, s, [e] + es, s')
  {
    RunCons(img, s, e, es, s1);
  }

  lemma RunOfFour(img: Image, s: System, e1: Event, s1: System, e2: Event, s2: System,
                  e3: Event, s3: System, e4: Event, s4: System)
    requires Bootable(img) && Leads(img, s, e1, s1) && Leads(img, s1, e2, s2)
    requires Leads(img, s2, e3, s3) && Leads(img, s3, e4, s4)
    ensures RunsTo(img, s, [e1, e2, e3, e4], s4)
  {
    FourAre(e1, e2, e3, e4);
    LeadsThenRuns(img, s3, e4, s4, [], s4);
    LeadsThenRuns(img, s2, e3, s3, [e4], s4);
    LeadsThenRuns(img, s1, e2, s2, [e3, e4], s4);
    LeadsThenRuns(img, s, e1, s1, [e2, e3, e4], s4);
  }

  lemma FourAre(e1: Event, e2: Event, e3: Event, e4: Event)
    ensures [e4] == [e4] + [] && [e3, e4] == [e3] + [e4] && [e2, e3, e4] == [e2] + [e3, e4]
    ensures [e1, e2, e3, e4] == [e1] + [e2, e3, e4]
  {
  }

  /** Ticks leave the cursor. */
  lemma {:induction false} TicksKeepCursor(img: Image, s: System, rs: seq<Context>)
    requires Bootable(img) && Good(s) && CanRun(img, s, TicksWith(rs))
    ensures Run(img, s, TicksWith(rs)).cursor == s.cursor
    decreases |rs|
  {
    if rs != [] {
      GoodIsReady(s);
      StepCursor(img, s, Tick(rs[0]));
      StepKeepsGood(img, s, Tick(rs[0]));
      assert TicksWith(rs)[1..] == TicksWith(rs[1..]);
      TicksKeepCursor(img, Step(img, s, Tick(rs[0])).0, rs[1..]);
    }
  }

  /** From power-on: three ticks, a listing begun on terminal 2, and the directory opened
      on terminal 0. The first directory read of terminal 0 delivers what follows ".",
      the name of the first file if there is one, and not ".". */
  lemma SecondListingSkips(img: Image, screens: Screens.State, user: seq<byte>, rs: seq<Context>,
                           name: seq<byte>, buf: nat, n: nat, device: Delivery, r: Context)
    requires Bootable(img) && screens.Valid() && |user| == USER_SIZE && |rs| == TERMINALS
    requires name != [] && FindName(img, name).Some? && FindName(img, name).value.fileType == 1
    requires buf != 0 && InPage(buf, n) && InPage(buf, NAME + 1) && img.dirEntries > 0
    ensures var s, read := PowerOn(screens, user), Read(2, buf, n, device);
            var es := TicksWith(rs) + [Open(name), read, Tick(r), Open(name)];
            && Good(s) && CanRun(img, s, es)
            && var s' := Run(img, s, es);
               && s'.procs.sched == 0 && Alive(s'.procs)
               && Step(img, s', read).1 == Result(DirValue(img, 0))
               && InPage(buf, |DirBytes(img, 0)|) && Step(img, s', read).0.user == Stored(s', buf, DirBytes(img, 0))
  {
    var s, fs := PowerOn(screens, user), [Open(name), Read(2, buf, n, device), Tick(r), Open(name)];
    BootSequence(img, screens, user, rs);
    var s3 := Run(img, s, TicksWith(rs));
    TicksKeepCursor(img, s, rs);
    var s' := TwoOpens(img, s3, name, buf, n, device, r);
    ReadsEntry(img, s', buf, n, device);
    RunAppended(img, s, TicksWith(rs), fs, TicksWith(rs) + fs);
  }
}
