/** From power-on to three shells, and two runs from there on which the kernel does
    not do what it should. */
module Boot {
  import opened Bytes
  import opened FileSystem
  import opened Helpers
  import opened Commands
  import opened Processes
  import opened Chains
  import opened Jobs
  import opened System
  import opened Local
  import opened Refinement
  import opened Runs
  import opened Theorems
  import Screens

  lemma PowerOnIsGood(screens: Screens.State, user: seq<byte>)
    requires screens.Valid() && |user| == USER_SIZE
    ensures var s := PowerOn(screens, user);
            Good(s) && Clean(s.procs) && InvOf(s.procs, [[], [], []])
  {
    var s := PowerOn(screens, user);
    assert OccupiedPids(s.procs.pid) == {};
    assert Census([[], [], []]) == multiset{};
    InvFromChains(s.procs, [[], [], []]);
  }

  /** A root shell as it should start. */
  function FreshShell(): Job {
    Job([], FreshFiles(), None)
  }

  /** The state behind the first n ticks: n fresh shells and nothing else. */
  ghost predicate Shells(s: System, n: nat) {
    && Good(s) && Clean(s.procs) && n <= TERMINALS
    && s.procs.sched == (if n == 0 then 0 else n - 1)
    && (forall t :: 0 <= t < TERMINALS ==> View(s.procs, t) == if t < n then [FreshShell()] else [])
    && FirstPids(s.procs, n) && (n > 0 ==> s.procs.Current() == Some(n - 1))
  }

  /** Exactly the first n pids are taken. */
  predicate FirstPids(p: State, n: nat)
    requires p.Sized()
  {
    forall q :: 0 <= q < PIDS ==> p.pid[q] == if q < n then OCCUPIED else VACANT
  }

  lemma FirstVacant(p: State, n: nat)
    requires p.Sized() && FirstPids(p, n) && n < PIDS
    ensures FindPid(p.pid, 0) == n
  {
    assert p.pid[n] == VACANT;
  }

  /** A shell started on a terminal without a process takes the next pid. */
  lemma ShellTakes(img: Image, s: System, n: nat, r: Context)
    requires Bootable(img) && s.Sized() && s.procs.Current().None? && FirstPids(s.procs, n) && n < PIDS
    ensures var s' := ExecuteLine(img, s, SHELL, r).0; FirstPids(s'.procs, n + 1) && s'.procs.Current() == Some(n)
  {
    FirstVacant(s.procs, n);
    ShellStarts(img, s, r);
  }

  lemma TickTakes(img: Image, s: System, n: nat, r: Context)
    requires Bootable(img) && Shells(s, n) && n < TERMINALS && Ready(s)
    requires s.procs.Current().None? <==> n == 0
    requires n > 0 ==> s.procs.top[n].None?
    ensures var s' := Step(img, s, Tick(r)).0; FirstPids(s'.procs, n + 1) && s'.procs.Current() == Some(n)
  {
    StepIsTick(img, s, r);
    if n == 0 {
      ShellTakes(img, s.(screens := Screens.ClearVisible(s.screens)), n, r);
    } else {
      ShellTakes(img, s.(procs := Preempt(s.procs, r)), n, r);
    }
  }

  /** The number of processes is the summed size of the stacks. */
  lemma CounterOfViews(s: System)
    requires Good(s)
    ensures s.procs.counter + 1 == |View(s.procs, 0)| + |View(s.procs, 1)| + |View(s.procs, 2)|
    ensures forall t :: 0 <= t < TERMINALS ==> (s.procs.top[t].None? <==> View(s.procs, t) == [])
  {
    var ch := ChainsOf(s.procs);
    CounterIs(s.procs, ch);
    forall t | 0 <= t < TERMINALS ensures |View(s.procs, t)| == |ch[t]| && (s.procs.top[t].None? <==> ch[t] == []) {
      ViewIs(s.procs, ch, t);
    }
  }

  lemma ShellsTick(img: Image, s: System, n: nat, r: Context) returns (s': System)
    requires Bootable(img) && Shells(s, n) && n < TERMINALS
    ensures Ready(s) && s' == Step(img, s, Tick(r)).0 && !Stops(Step(img, s, Tick(r)).1) && Shells(s', n + 1)
  {
    GoodIsReady(s);
    CounterOfViews(s);
    NoSlotIff(img, s, Tick(r));
    SoundFaultsNot(img, s, Tick(r));
    StepKeepsGood(img, s, Tick(r));
    StepKeepsClean(img, s, Tick(r));
    s' := Step(img, s, Tick(r)).0;
    NextIsFresh(s.procs);
    TickGivesShell(img, s, n, r);
    TickTakes(img, s, n, r);
  }

  lemma TickGivesShell(img: Image, s: System, n: nat, r: Context)
    requires Bootable(img) && Shells(s, n) && n < TERMINALS && Ready(s) && !Step(img, s, Tick(r)).1.NoSlot?
    requires FindPid(s.procs.pid, 0) != -1 ==> NewFiles(s.procs) == FreshFiles()
    ensures var s' := Step(img, s, Tick(r)).0;
            && s'.procs.sched == n
            && forall t :: 0 <= t < TERMINALS ==> View(s'.procs, t) == if t < n + 1 then [FreshShell()] else []
  {
    CounterOfViews(s);
    StepIsTick(img, s, r);
    forall t | 0 <= t < TERMINALS
      ensures var s' := Step(img, s, Tick(r)).0;
              s'.procs.sched == n && View(s'.procs, t) == if t < n + 1 then [FreshShell()] else []
    {
      if n == 0 {
        BootFindsPid(img, s, r);
        BootGivesShell(img, s, r, t);
      } else {
        TickFindsPid(img, s, r);
        LaterGivesShell(img, s, n, r, t);
      }
    }
  }

  lemma BootGivesShell(img: Image, s: System, r: Context, t: nat)
    requires Bootable(img) && Shells(s, 0) && s.procs.Current().None? && t < TERMINALS
    requires NewFiles(s.procs) == FreshFiles() && !BootTick(img, s, r).1.NoSlot?
    ensures var s' := BootTick(img, s, r).0;
            s'.procs.sched == 0 && View(s'.procs, t) == if t < 1 then [FreshShell()] else []
  {
    FirstShellFacts(img, s.(screens := Screens.ClearVisible(s.screens)), ChainsOf(s.procs), r, t);
    BootTickKeeps(img, s, ChainsOf(s.procs), r);
  }

  lemma LaterGivesShell(img: Image, s: System, n: nat, r: Context, t: nat)
    requires Bootable(img) && Shells(s, n) && 0 < n < TERMINALS && s.procs.Current().Some? && t < TERMINALS
    requires NewFiles(s.procs) == FreshFiles() && s.procs.top[n].None? && !TickNow(img, s, r).1.NoSlot?
    ensures var s' := TickNow(img, s, r).0;
            s'.procs.sched == n && View(s'.procs, t) == if t < n + 1 then [FreshShell()] else []
  {
    TickFacts(img, s, ChainsOf(s.procs), r, t);
    TickKeeps(img, s, ChainsOf(s.procs), r);
  }

  /** Ticks that interrupt with the given registers. */
  function TicksWith(rs: seq<Context>): seq<Event>
    decreases |rs|
  {
    if rs == [] then [] else [Tick(rs[0])] + TicksWith(rs[1..])
  }

  /** A run to n fresh shells. */
  ghost predicate RunsToShells(img: Image, s: System, es: seq<Event>, n: nat)
    requires Bootable(img) && Good(s)
  {
    CanRun(img, s, es) && Shells(Run(img, s, es), n)
  }

  lemma ShellsCons(img: Image, s: System, e: Event, es: seq<Event>, s': System, n: nat)
    requires Bootable(img) && Good(s) && Good(s') && RunsToShells(img, s', es, n)
    requires Ready(s) && Step(img, s, e).0 == s' && !Stops(Step(img, s, e).1)
    ensures RunsToShells(img, s, [e] + es, n)
  {
    RunCons(img, s, e, es, s');
  }

  lemma {:induction false} TicksGiveShells(img: Image, s: System, n: nat, rs: seq<Context>, m: nat)
    requires Bootable(img) && Shells(s, n) && n + |rs| == m <= TERMINALS
    ensures RunsToShells(img, s, TicksWith(rs), m)
    decreases |rs|
  {
    if rs != [] {
      var s' := ShellsTick(img, s, n, rs[0]);
      TicksGiveShells(img, s', n + 1, rs[1..], m);
      ShellsCons(img, s, Tick(rs[0]), TicksWith(rs[1..]), s', m);
    }
  }

  /** The first three ticks give each terminal its root shell, fresh, and leave the
      vacant blocks clean. */
  lemma BootSequence(img: Image, screens: Screens.State, user: seq<byte>, rs: seq<Context>)
    requires Bootable(img) && screens.Valid() && |user| == USER_SIZE && |rs| == TERMINALS
    ensures var s := PowerOn(screens, user);
            && Good(s) && CanRun(img, s, TicksWith(rs))
            && Shells(Run(img, s, TicksWith(rs)), TERMINALS) && Booted(Run(img, s, TicksWith(rs)))
  {
    var s := PowerOn(screens, user);
    PowerOnIsShells(screens, user);
    TicksGiveShells(img, s, 0, rs, TERMINALS);
    CounterOfViews(Run(img, s, TicksWith(rs)));
  }

  lemma PowerOnIsShells(screens: Screens.State, user: seq<byte>)
    requires screens.Valid() && |user| == USER_SIZE
    ensures Shells(PowerOn(screens, user), 0)
  {
    var s := PowerOn(screens, user);
    PowerOnIsGood(screens, user);
    forall t | 0 <= t < TERMINALS ensures View(s.procs, t) == [] {
      ViewIs(s.procs, [[], [], []], t);
    }
  }

  // ---- A leak from boot ----

  lemma {:induction false} RunAppended(img: Image, s: System, es: seq<Event>, fs: seq<Event>, all: seq<Event>)
    requires Bootable(img) && Good(s) && CanRun(img, s, es) && CanRun(img, Run(img, s, es), fs) && all == es + fs
    ensures CanRun(img, s, all) && Run(img, s, all) == Run(img, Run(img, s, es), fs)
    decreases |es|
  {
    if es == [] {
      assert all == fs;
    } else {
      GoodIsReady(s);
      StepKeepsGood(img, s, es[0]);
      TailOfBoth(es, fs, all);
      RunAppended(img, Step(img, s, es[0]).0, es[1..], fs, all[1..]);
    }
  }

  lemma TailOfBoth(es: seq<Event>, fs: seq<Event>, all: seq<Event>)
    requires es != [] && all == es + fs
    ensures all[0] == es[0] && all[1..] == es[1..] + fs
  {
  }

  /** A fresh shell alone on its terminal is a root with nothing open. */
  lemma FreshIsFilled(s: System)
    requires Good(s) && View(s.procs, s.procs.sched) == [FreshShell()]
    ensures s.procs.Current().Some? && Filled(s.procs, 0)
  {
    var ch, t := ChainsOf(s.procs), s.procs.sched;
    ViewIs(s.procs, ch, t);
    CurrentHeads(s.procs, ch);
    var fd := s.procs.pcb[ch[t][0]].fd;
    assert View(s.procs, t)[0].files == Files(fd);
    forall i | 2 <= i < DESCRIPTORS ensures fd[i].flags == 0 {
      assert Files(fd)[i] == FreshFiles()[i] == None;
    }
  }

  /** From power-on: three ticks, six opens by the last shell, and its halt. The
      shell that replaces it takes the same pid and starts with descriptor 7 open. */
  lemma BootedHaltLeaks(img: Image, screens: Screens.State, user: seq<byte>, rs: seq<Context>,
                        name: seq<byte>, r: Context)
    requires Bootable(img) && screens.Valid() && |user| == USER_SIZE && |rs| == TERMINALS
    requires name != [] && FindName(img, name).Some? && FindName(img, name).value.fileType <= 2
    ensures var s, es := PowerOn(screens, user), TicksWith(rs) + Opens(name, 6);
            && Good(s) && CanRun(img, s, es) && Alive(Run(img, s, es).procs)
            && StartsWithSeven(img, Run(img, s, es), r)
  {
    var s, ticks := PowerOn(screens, user), TicksWith(rs);
    BootSequence(img, screens, user, rs);
    var s3 := Run(img, s, ticks);
    FreshIsFilled(s3);
    OpensThenHalt(img, s3, name, r);
    RunAppended(img, s, ticks, Opens(name, 6), ticks + Opens(name, 6));
  }

  /** After a halt the shell that follows has descriptor 7 open. */
  ghost predicate StartsWithSeven(img: Image, s: System, r: Context)
    requires Bootable(img) && s.Sized() && Alive(s.procs)
  {
    var v := View(HaltNow(img, s, r).0.procs, s.procs.sched);
    v != [] && |v[0].files| == DESCRIPTORS && v[0].files[7].Some?
  }

  lemma OpensThenHalt(img: Image, s: System, name: seq<byte>, r: Context)
    requires Bootable(img) && Shells(s, TERMINALS) && Filled(s.procs, 0)
    requires name != [] && FindName(img, name).Some? && FindName(img, name).value.fileType <= 2
    ensures CanRun(img, s, Opens(name, 6)) && Alive(Run(img, s, Opens(name, 6)).procs)
    ensures StartsWithSeven(img, Run(img, s, Opens(name, 6)), r)
  {
    OpensFill(img, s, name, 0, 6);
    var s6 := Run(img, s, Opens(name, 6));
    CallerAlive(s6);
    FilledPassesOn(img, s6, r);
  }

  /** The shell on the last of the first three pids, with every descriptor open, halts. */
  lemma FilledPassesOn(img: Image, s: System, r: Context)
    requires Bootable(img) && Good(s) && Alive(s.procs) && Filled(s.procs, 6) && FirstPids(s.procs, TERMINALS)
    requires s.procs.Current() == Some(TERMINALS - 1)
    ensures StartsWithSeven(img, s, r)
  {
    HaltPassesOn(img, s, r);
  }

  // ---- No pid from boot ----

  /** k shells, one above the other, on terminal 0, and nothing else. */
  ghost predicate Tower(s: System, k: nat) {
    && Good(s) && s.procs.sched == 0 && |View(s.procs, 0)| == k && View(s.procs, 1) == [] && View(s.procs, 2) == []
  }

  lemma TowerGrows(img: Image, s: System, k: nat, r: Context) returns (s': System)
    requires Bootable(img) && Tower(s, k) && 0 < k <= MAX_PID
    ensures Ready(s) && s' == Step(img, s, Execute(SHELL, r)).0 && !Stops(Step(img, s, Execute(SHELL, r)).1)
    ensures Tower(s', k + 1)
  {
    GoodIsReady(s);
    CounterOfViews(s);
    ShellLine();
    StepIsExecute(img, s, SHELL, r);
    ShellGrows(img, s, k, r);
    s' := Step(img, s, Execute(SHELL, r)).0;
  }

  lemma ShellGrows(img: Image, s: System, k: nat, r: Context)
    requires Bootable(img) && Tower(s, k) && 0 < k && s.procs.counter < MAX_PID
    requires ParseLine(SHELL) == Some(Command(SHELL, []))
    ensures ExecuteLine(img, s, SHELL, r).1.Started? && Tower(ExecuteLine(img, s, SHELL, r).0, k + 1)
  {
    ExecuteKeeps(img, s, ChainsOf(s.procs), SHELL, r);
    ShellIsStarted(img, s, r);
    TowerOnTop(s, ChainsOf(s.procs), k, ExecuteLine(img, s, SHELL, r).0, ExecuteLine(img, s, SHELL, r).1.pid);
  }

  lemma TowerOnTop(s: System, ch: seq<seq<nat>>, k: nat, s': System, p: nat)
    requires Tower(s, k) && InvOf(s.procs, ch) && Good(s') && InvOf(s'.procs, ch[0 := [p] + ch[0]])
    requires s'.procs.sched == 0
    ensures Tower(s', k + 1)
  {
    ViewSizes(s, ch);
    ViewSizes(s', ch[0 := [p] + ch[0]]);
  }

  lemma ViewSizes(s: System, ch: seq<seq<nat>>)
    requires InvOf(s.procs, ch)
    ensures |View(s.procs, 0)| == |ch[0]| && |View(s.procs, 1)| == |ch[1]| && |View(s.procs, 2)| == |ch[2]|
  {
    ViewIs(s.procs, ch, 0);
    ViewIs(s.procs, ch, 1);
    ViewIs(s.procs, ch, 2);
  }

  lemma ShellIsStarted(img: Image, s: System, r: Context)
    requires Bootable(img) && s.Sized() && s.procs.counter < MAX_PID
    requires ParseLine(SHELL) == Some(Command(SHELL, []))
    ensures ExecuteLine(img, s, SHELL, r) == Start(img, s, SHELL, [], r)
    ensures !ExecuteLine(img, s, SHELL, r).1.Result? && !ExecuteLine(img, s, SHELL, r).1.Fault?
  {
  }

  function Executes(r: Context, n: nat): seq<Event>
    decreases n
  {
    if n == 0 then [] else [Execute(SHELL, r)] + Executes(r, n - 1)
  }

  /** A run to a tower of m shells. */
  ghost predicate RunsToTower(img: Image, s: System, es: seq<Event>, m: nat)
    requires Bootable(img) && Good(s)
  {
    CanRun(img, s, es) && Tower(Run(img, s, es), m)
  }

  lemma TowerCons(img: Image, s: System, e: Event, es: seq<Event>, s': System, m: nat)
    requires Bootable(img) && Good(s) && Good(s') && RunsToTower(img, s', es, m)
    requires Ready(s) && Step(img, s, e).0 == s' && !Stops(Step(img, s, e).1)
    ensures RunsToTower(img, s, [e] + es, m)
  {
    RunCons(img, s, e, es, s');
  }

  lemma {:induction false} TowerOf(img: Image, s: System, k: nat, n: nat, r: Context, m: nat)
    requires Bootable(img) && Tower(s, k) && 0 < k && k + n == m <= PIDS
    ensures RunsToTower(img, s, Executes(r, n), m)
    decreases n
  {
    if n > 0 {
      var s' := TowerGrows(img, s, k, r);
      TowerOf(img, s', k + 1, n - 1, r, m);
      TowerCons(img, s, Execute(SHELL, r), Executes(r, n - 1), s', m);
    }
  }

  /** From power-on: a tick, five times "shell" from the first shell, and a tick.
      The second terminal has no process, and find_pid fails for its shell. */
  lemma BootedTickFindsNoPid(img: Image, screens: Screens.State, user: seq<byte>, a: Context, b: Context, r: Context)
    requires Bootable(img) && screens.Valid() && |user| == USER_SIZE
    ensures var s, es := PowerOn(screens, user), TicksWith([a]) + Executes(r, 5);
            && Good(s) && CanRun(img, s, es) && Ready(Run(img, s, es))
            && Step(img, Run(img, s, es), Tick(b)).1 == NoSlot
  {
    var s := PowerOn(screens, user);
    PowerOnIsShells(screens, user);
    TicksGiveShells(img, s, 0, [a], 1);
    var s1 := Run(img, s, TicksWith([a]));
    TowerOf(img, s1, 1, 5, r, PIDS);
    RunAppended(img, s, TicksWith([a]), Executes(r, 5), TicksWith([a]) + Executes(r, 5));
    TowerIsFull(img, Run(img, s1, Executes(r, 5)), b);
  }

  lemma TowerIsFull(img: Image, s: System, b: Context)
    requires Bootable(img) && Tower(s, PIDS)
    ensures Ready(s) && Step(img, s, Tick(b)).1 == NoSlot
  {
    GoodIsReady(s);
    CounterOfViews(s);
    NoSlotIff(img, s, Tick(b));
  }
}
