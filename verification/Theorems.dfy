/** What the private machines give for whole runs: screens, contexts, calls and
    returns, memory, and the descriptor that halt forgets. */
module Theorems {
  import opened Bytes
  import opened FileSystem
  import opened Helpers
  import opened Commands
  import opened Processes
  import opened Chains
  import opened Jobs
  import opened System
  import opened Local
  import opened Refinement
  import opened Runs
  import PM = PrivateMachine
  import Console
  import Layout
  import Screens

  // ---- Screens ----

  /** The text a trace prints. */
  function Printed(es: seq<PM.Event>): seq<byte> {
    if es == [] then [] else (if es[0].Print? then es[0].text else []) + Printed(es[1..])
  }

  predicate NeverBlanked(es: seq<PM.Event>) {
    forall i :: 0 <= i < |es| ==> !es[i].Blank?
  }

  lemma {:induction false} ConsoleOfTrace(m: PM.Machine, es: seq<PM.Event>)
    requires m.con.Valid() && NeverBlanked(es)
    ensures PM.ApplyAll(m, es).con == Console.PutAll(m.con, Printed(es))
    decreases |es|
  {
    if es != [] {
      var m' := PM.Apply(m, es[0]);
      assert !es[0].Blank?;
      ConsoleOfTrace(m', es[1..]);
      var p := if es[0].Print? then es[0].text else [];
      assert m'.con == Console.PutAll(m.con, p);
      Console.PutAllAppends(m.con, p, Printed(es[1..]));
    }
  }

  /** For every interleaving of output, ticks, switches and process calls, the
      logical screen of a terminal is that of a private console fed only the text
      printed on that terminal; from the top left it shows the last 25 rows of
      the 80-column layout of that text. */
  lemma ScreenIsPrivate(img: Image, s: System, es: seq<Event>, t: nat)
    requires Bootable(img) && Good(s) && CanRun(img, s, es) && t < TERMINALS
    requires NeverBlanked(Trace(img, s, es, t))
    ensures var text, con := Printed(Trace(img, s, es, t)), Run(img, s, es).screens.Screen(t);
            && con == Console.PutAll(s.screens.Screen(t), text)
            && (s.screens.x[t] == 0 && s.screens.y[t] == 0 ==> Layout.Shows(con, text, s.screens.Screen(t).page))
  {
    RunIsLocal(img, s, es, t);
    ConsoleOfTrace(MachineOf(s, t), Trace(img, s, es, t));
    if s.screens.x[t] == 0 && s.screens.y[t] == 0 {
      Layout.ScreenShowsLayout(Printed(Trace(img, s, es, t)), s.screens.Screen(t).page);
    }
  }

  /** After the last Ctrl+L, which the i-th event of the trace is, the screen shows
      on a blank page the layout of the text printed since. */
  lemma ScreenAfterBlank(img: Image, s: System, es: seq<Event>, t: nat, i: nat, page: seq<byte>)
    requires Bootable(img) && Good(s) && CanRun(img, s, es) && t < TERMINALS && Layout.IsBlank(page)
    requires i < |Trace(img, s, es, t)| && Trace(img, s, es, t)[i].Blank? && NeverBlanked(Trace(img, s, es, t)[i + 1..])
    ensures Layout.Shows(Run(img, s, es).screens.Screen(t), Printed(Trace(img, s, es, t)[i + 1..]), page)
  {
    RunIsLocal(img, s, es, t);
    ShownSinceBlank(MachineOf(s, t), Trace(img, s, es, t), i, page);
  }

  lemma ShownSinceBlank(m: PM.Machine, es: seq<PM.Event>, i: nat, page: seq<byte>)
    requires m.con.Valid() && i < |es| && es[i].Blank? && NeverBlanked(es[i + 1..]) && Layout.IsBlank(page)
    ensures Layout.Shows(PM.ApplyAll(m, es).con, Printed(es[i + 1..]), page)
  {
    var m1 := PM.ApplyAll(m, es[..i]);
    SplitAt(m, es, i);
    ConsoleOfTrace(PM.Apply(m1, es[i]), es[i + 1..]);
    Layout.ClearedShows(m1.con, Printed(es[i + 1..]), page);
  }

  lemma SplitAt(m: PM.Machine, es: seq<PM.Event>, i: nat)
    requires m.con.Valid() && i < |es|
    ensures PM.ApplyAll(m, es) == PM.ApplyAll(PM.Apply(PM.ApplyAll(m, es[..i]), es[i]), es[i + 1..])
  {
    assert es[..i] + es[i..] == es && es[i..][1..] == es[i + 1..];
    PM.ApplyAppended(m, es[..i], es[i..]);
  }

  // ---- Contexts ----

  /** Terminal t is not scheduled at any moment of the run. */
  ghost predicate Away(img: Image, s: System, es: seq<Event>, t: nat)
    requires Bootable(img) && Good(s) && CanRun(img, s, es)
    decreases |es|
  {
    s.procs.sched != t &&
    (es == [] || (GoodIsReady(s); StepKeepsGood(img, s, es[0]); Away(img, Step(img, s, es[0]).0, es[1..], t)))
  }

  /** A step of another terminal that does not hand over to t leaves t's jobs and
      saved registers. */
  lemma StepAway(img: Image, s: System, e: Event, t: nat)
    requires Bootable(img) && Good(s) && Ready(s) && t < TERMINALS && !Step(img, s, e).1.NoSlot?
    requires s.procs.sched != t && Step(img, s, e).0.procs.sched != t && s.procs.Current().Some?
    ensures SameProcess(s.procs, Step(img, s, e).0.procs, t)
  {
    SchedOfStep(img, s, e);
    StepIsLocal(img, s, e, t);
    AwayEvents(img, s, e, t);
    PM.ApplyOne(MachineOf(s, t), PM.Blank);
  }

  lemma AwayEvents(img: Image, s: System, e: Event, t: nat)
    requires Bootable(img) && Ready(s) && t < TERMINALS && s.procs.sched != t && s.procs.Current().Some?
    requires e.Tick? ==> t != NextTerminal(s.procs.sched)
    ensures EventsFor(img, s, e, t) == [] || EventsFor(img, s, e, t) == [PM.Blank]
  {
  }

  lemma {:induction false} RunAway(img: Image, s: System, es: seq<Event>, t: nat)
    requires Bootable(img) && Good(s) && CanRun(img, s, es) && t < TERMINALS
    requires Away(img, s, es, t) && s.procs.Current().Some?
    ensures SameProcess(s.procs, Run(img, s, es).procs, t)
    decreases |es|
  {
    if es != [] {
      GoodIsReady(s);
      var s' := Step(img, s, es[0]).0;
      StepKeepsGood(img, s, es[0]);
      SchedOfStep(img, s, es[0]);
      StepAway(img, s, es[0], t);
      RunAway(img, s', es[1..], t);
    }
  }

  /** A tick resumes the next terminal with the registers saved for it. */
  lemma TickReply(img: Image, s: System, registers: Context)
    requires Bootable(img) && Good(s) && s.procs.Current().Some?
    requires s.procs.top[NextTerminal(s.procs.sched)].Some?
    ensures TickNow(img, s, registers).1 == Resumed(Resume(s.procs, NextTerminal(s.procs.sched)).value)
  {
    var ch, n := ChainsOf(s.procs), NextTerminal(s.procs.sched);
    ViewIs(s.procs, ch, n);
    CurrentHeads(s.procs, ch);
    CurrentBlockOnly(s.procs, ch, Preempt(s.procs, registers).pcb);
    assert ch[n][0] in ch[n];
  }

  /** While terminal t is away its saved registers wait for the tick that hands
      over to it. */
  lemma ResumedAfterAway(img: Image, s: System, es: seq<Event>, t: nat, r: Context, r': Context)
    requires Bootable(img) && Good(s) && CanRun(img, s, es) && t < TERMINALS
    requires Away(img, s, es, t) && s.procs.Current().Some? && Resume(s.procs, t) == Some(r)
    requires NextTerminal(Run(img, s, es).procs.sched) == t
    ensures Ready(Run(img, s, es)) && Step(img, Run(img, s, es), Tick(r')).1 == Resumed(r)
  {
    RunAway(img, s, es, t);
    SchedOfRun(img, s, es);
    StepOfTick(img, Run(img, s, es), r');
    TickReply(img, Run(img, s, es), r');
  }

  /** A tick saves the registers of the terminal it interrupts. */
  lemma TickSaves(img: Image, s: System, r: Context)
    requires Bootable(img) && Good(s) && Ready(s) && s.procs.Current().Some?
    requires !Step(img, s, Tick(r)).1.NoSlot?
    ensures var s' := Step(img, s, Tick(r)).0;
            && Good(s') && s'.procs.Current().Some?
            && Resume(s'.procs, s.procs.sched) == Some(r)
  {
    StepOfTick(img, s, r);
    StepKeepsGood(img, s, Tick(r));
    TickFacts(img, s, ChainsOf(s.procs), r, s.procs.sched);
    SchedOfStep(img, s, Tick(r));
  }

  /** A terminal preempted with some registers is resumed with exactly those,
      whatever the other terminals do meanwhile. */
  lemma TickResumesAsPreempted(img: Image, s: System, s1: System, r: Context, es: seq<Event>, r': Context)
    requires Bootable(img) && Good(s) && Ready(s) && s.procs.Current().Some?
    requires !Step(img, s, Tick(r)).1.NoSlot? && s1 == Step(img, s, Tick(r)).0 && Good(s1)
    requires CanRun(img, s1, es) && Away(img, s1, es, s.procs.sched)
    requires NextTerminal(Run(img, s1, es).procs.sched) == s.procs.sched
    ensures Ready(Run(img, s1, es)) && Step(img, Run(img, s1, es), Tick(r')).1 == Resumed(r)
  {
    TickSaves(img, s, r);
    ResumedAfterAway(img, s1, es, s.procs.sched, r, r');
  }

  // ---- The process table ----

  /** In every state of every run each occupied pid stands exactly once in exactly
      one of the three parent chains and the other pids in none, process_counter + 1
      is the number of occupied pids and the summed length of the chains, and
      parent pids agree with parent pointers. */
  lemma RunKeepsTable(img: Image, s: System, es: seq<Event>, p: nat)
    requires Bootable(img) && Good(s) && CanRun(img, s, es)
    ensures var q := Run(img, s, es).procs;
            && multiset(Chain(q, 0))[p] + multiset(Chain(q, 1))[p] + multiset(Chain(q, 2))[p]
               == (if p < PIDS && q.pid[p] == OCCUPIED then 1 else 0)
            && q.counter + 1 == |OccupiedPids(q.pid)| == |Chain(q, 0)| + |Chain(q, 1)| + |Chain(q, 2)|
            && (p < PIDS && q.pid[p] == OCCUPIED ==> Named(q.pcb, p))
  {
    var q := Run(img, s, es).procs;
    OccupiedOnce(q, p);
    CounterIs(q, ChainsOf(q));
  }

  // ---- Calls and returns ----

  /** The stack v stands on the stack base, and the job right above base was
      called with registers r. */
  predicate Above(v: seq<Job>, base: seq<Job>, r: Context) {
    |v| > |base| && v[|v| - |base|..] == base && v[|v| - |base| - 1].caller == Some(r)
  }

  lemma ApplyKeepsAbove(m: PM.Machine, e: PM.Event, base: seq<Job>, r: Context)
    requires m.con.Valid() && Above(m.jobs, base, r) && |PM.Apply(m, e).jobs| > |base|
    ensures Above(PM.Apply(m, e).jobs, base, r)
  {
    AboveStays(m.jobs, PM.Apply(m, e).jobs, base, r, if e.Push? then 1 else if e.Pop? then -1 else 0);
  }

  /** A stack that grew or shrank by d at its front keeps what lies deeper. */
  lemma AboveStays(v: seq<Job>, w: seq<Job>, base: seq<Job>, r: Context, d: int)
    requires Above(v, base, r) && |w| == |v| + d && |w| > |base|
    requires forall i :: 0 < i < |v| && 0 <= i + d < |w| ==> w[i + d] == v[i]
    requires 0 <= d < |w| ==> w[d].caller == v[0].caller
    ensures Above(w, base, r)
  {
    forall k | 0 <= k < |base| ensures w[|w| - |base|..][k] == base[k] {
      assert v[|v| - |base|..][k] == v[|v| - |base| + k];
      assert w[(|v| - |base| + k) + d] == v[|v| - |base| + k];
    }
    assert w[|w| - |base|..] == base;
    var i := |v| - |base| - 1;
    assert i > 0 ==> w[i + d] == v[i];
  }

  /** Terminal t has more than `depth` jobs at every moment of the run. */
  ghost predicate Deeper(img: Image, s: System, es: seq<Event>, t: nat, depth: nat)
    requires Bootable(img) && Good(s) && CanRun(img, s, es) && t < TERMINALS
    decreases |es|
  {
    |View(s.procs, t)| > depth &&
    (es == [] || (GoodIsReady(s); StepKeepsGood(img, s, es[0]); Deeper(img, Step(img, s, es[0]).0, es[1..], t, depth)))
  }

  /** With two jobs or more, a step means at most one private step. */
  lemma OneEvent(img: Image, s: System, e: Event, t: nat)
    requires Bootable(img) && Good(s) && Ready(s) && t < TERMINALS && |View(s.procs, t)| > 1
    ensures |EventsFor(img, s, e, t)| <= 1
  {
    DeepIsNoRoot(s, t);
    OneEventFrom(img, s, e, t);
  }

  lemma DeepIsNoRoot(s: System, t: nat)
    requires Good(s) && t < TERMINALS && |View(s.procs, t)| > 1
    ensures s.procs.top[t].Some? && (t == s.procs.sched ==> CanHalt(s.procs) && !IsRoot(s.procs))
  {
    var ch := ChainsOf(s.procs);
    ViewIs(s.procs, ch, t);
    CurrentHeads(s.procs, ch);
  }

  lemma OneEventFrom(img: Image, s: System, e: Event, t: nat)
    requires Bootable(img) && Ready(s) && t < TERMINALS && s.procs.top[t].Some?
    requires t == s.procs.sched ==> CanHalt(s.procs) && !IsRoot(s.procs)
    ensures |EventsFor(img, s, e, t)| <= 1
  {
  }

  lemma StepKeepsAbove(img: Image, s: System, e: Event, t: nat, base: seq<Job>, r: Context)
    requires Bootable(img) && Good(s) && Ready(s) && t < TERMINALS
    requires !Step(img, s, e).1.NoSlot? && base != []
    requires Above(View(s.procs, t), base, r) && |View(Step(img, s, e).0.procs, t)| > |base|
    ensures Above(View(Step(img, s, e).0.procs, t), base, r)
  {
    var es, m := EventsFor(img, s, e, t), MachineOf(s, t);
    StepIsLocal(img, s, e, t);
    OneEvent(img, s, e, t);
    EventsKeepAbove(m, es, base, r);
  }

  lemma EventsKeepAbove(m: PM.Machine, es: seq<PM.Event>, base: seq<Job>, r: Context)
    requires m.con.Valid() && |es| <= 1 && Above(m.jobs, base, r) && |PM.ApplyAll(m, es).jobs| > |base|
    ensures Above(PM.ApplyAll(m, es).jobs, base, r)
  {
    if es != [] {
      assert es == [es[0]];
      PM.ApplyOne(m, es[0]);
      ApplyKeepsAbove(m, es[0], base, r);
    }
  }

  lemma {:induction false} RunKeepsAbove(img: Image, s: System, es: seq<Event>, t: nat, base: seq<Job>, r: Context)
    requires Bootable(img) && Good(s) && CanRun(img, s, es) && t < TERMINALS
    requires base != [] && Above(View(s.procs, t), base, r) && Deeper(img, s, es, t, |base|)
    ensures Above(View(Run(img, s, es).procs, t), base, r)
    decreases |es|
  {
    if es != [] {
      GoodIsReady(s);
      var s' := Step(img, s, es[0]).0;
      StepKeepsGood(img, s, es[0]);
      assert |View(s'.procs, t)| > |base|;
      StepKeepsAbove(img, s, es[0], t, base, r);
      RunKeepsAbove(img, s', es[1..], t, base, r);
    }
  }

  /** What halt of a child resumes is what its job remembers of its caller. */
  lemma HaltReply(img: Image, s: System, registers: Context)
    requires Bootable(img) && Good(s) && Alive(s.procs) && |View(s.procs, s.procs.sched)| > 1
    ensures View(s.procs, s.procs.sched)[0].caller.Some?
    ensures HaltNow(img, s, registers).1 == Resumed(View(s.procs, s.procs.sched)[0].caller.value)
  {
    var ch := ChainsOf(s.procs);
    ViewIs(s.procs, ch, s.procs.sched);
    ReturnCaller(s.procs, ch);
    ChildHaltKeeps(img, s, ch, registers);
  }

  /** When the job right above base halts, its caller continues with the
      registers of its execute, over whatever happened since. */
  lemma HaltReturnsToCaller(img: Image, s: System, es: seq<Event>, base: seq<Job>, r: Context, r': Context)
    requires Bootable(img) && Good(s) && CanRun(img, s, es)
    requires var t := s.procs.sched; base != [] && Above(View(s.procs, t), base, r) && Deeper(img, s, es, t, |base|)
    requires Run(img, s, es).procs.sched == s.procs.sched && s.procs.Current().Some?
    requires |View(Run(img, s, es).procs, s.procs.sched)| == |base| + 1
    ensures Alive(Run(img, s, es).procs) && HaltNow(img, Run(img, s, es), r').1 == Resumed(r)
  {
    RunKeepsAbove(img, s, es, s.procs.sched, base, r);
    SchedOfRun(img, s, es);
    CallerAlive(Run(img, s, es));
    HaltReply(img, Run(img, s, es), r');
  }

  /** execute of a program puts its job above the caller's stack and remembers
      the caller's registers. */
  lemma ExecuteCalls(img: Image, s: System, line: seq<byte>, r: Context)
    requires Bootable(img) && Good(s) && s.procs.Current().Some?
    requires ExecuteLine(img, s, line, r).1.Started?
    ensures var s', t := ExecuteLine(img, s, line, r).0, s.procs.sched;
            && Good(s') && s'.procs.sched == t
            && View(s.procs, t) != [] && Above(View(s'.procs, t), View(s.procs, t), r)
            && View(s'.procs, t)[1..] == View(s.procs, t) && ParseLine(line).Some?
            && View(s'.procs, t)[0].argument == ParseLine(line).value.argument
            && View(s'.procs, t)[0].files == NewFiles(s.procs)
  {
    var ch, c := ChainsOf(s.procs), ParseLine(line).value;
    ExecuteKeeps(img, s, ch, line, r);
    StartFacts(img, s, ch, c.name, c.argument, r, s.procs.sched);
    CurrentHeads(s.procs, ch);
    ViewIs(s.procs, ch, s.procs.sched);
  }

  // ---- The user video page ----

  /** page_table_video[0] names the page that backs the screen of the scheduled
      terminal. */
  predicate VideoRight(s: System)
    requires s.Sized()
  {
    s.video == VID_MEM_FLAG + VIDEO + s.screens.Base(s.procs.sched)
  }

  /** The user video entry as the processor reads it: present, writable, open to user code, and in
      its upper twenty bits the page that backs the scheduled terminal's screen. */
  lemma VideoEntryMaps(s: System)
    requires s.Sized() && VideoRight(s)
    ensures s.video % 2 == 1 && s.video / 2 % 2 == 1 && s.video / 4 % 2 == 1
    ensures s.video / Console.PAGE * Console.PAGE == VIDEO + s.screens.Base(s.procs.sched)
  {
  }

  /** After every tick and every terminal switch the user video page is that of
      the scheduled terminal's screen; the other steps keep it so. */
  lemma StepKeepsVideo(img: Image, s: System, e: Event)
    requires Bootable(img) && Good(s) && Ready(s) && Booted(s) && !Step(img, s, e).1.NoSlot?
    ensures VideoRight(s) || (e.Switch? && e.next < TERMINALS) || e.Tick? ==> VideoRight(Step(img, s, e).0)
  {
    CallerAlive(s);
    if e.Switch? {
      if e.next < TERMINALS {
        Screens.SwitchKeepsScreens(s.screens, e.next, 0);
      }
    } else if e.Tick? {
      TickVideo(img, s, e.registers);
    } else if !e.Putc? && !e.Clear? {
      CallScreens(img, s, e);
      SchedOfCall(img, s, ChainsOf(s.procs), e);
    }
  }

  /** Once right after boot, the user video page is right in every state of every
      run. */
  lemma {:induction false} RunKeepsVideo(img: Image, s: System, es: seq<Event>)
    requires Bootable(img) && Good(s) && Booted(s) && VideoRight(s) && CanRun(img, s, es)
    ensures VideoRight(Run(img, s, es))
    decreases |es|
  {
    if es != [] {
      GoodIsReady(s);
      StepKeepsGood(img, s, es[0]);
      StepKeepsBooted(img, s, es[0]);
      StepKeepsVideo(img, s, es[0]);
      RunKeepsVideo(img, Step(img, s, es[0]).0, es[1..]);
    }
  }

  /** Every step keeps the hardware cursor on that of the visible terminal. */
  lemma StepKeepsCursor(img: Image, s: System, e: Event)
    requires Bootable(img) && Ready(s) && s.screens.CursorRight()
    ensures Step(img, s, e).0.screens.CursorRight()
  {
    if e.Putc? {
      Screens.PutcIsPrivate(s.screens, s.procs.sched, e.c, 0);
    } else if e.Clear? {
      Screens.ClearIsPrivate(s.screens, 0);
    } else if e.Switch? {
      if e.next < TERMINALS {
        Screens.SwitchKeepsScreens(s.screens, e.next, 0);
      }
    } else if e.Tick? {
      StepIsTick(img, s, e.registers);
      TickScreens(img, s, e.registers);
    } else if s.procs.Current().Some? {
      CallScreens(img, s, e);
    }
  }

  lemma TickScreens(img: Image, s: System, r: Context)
    requires Bootable(img) && s.Sized() && s.screens.CursorRight()
    ensures s.procs.Current().None? ==> BootTick(img, s, r).0.screens.CursorRight()
    ensures s.procs.Current().Some? ==> TickNow(img, s, r).0.screens.CursorRight()
  {
    if s.procs.Current().None? {
      Screens.ClearIsPrivate(s.screens, 0);
      ExecuteScreens(img, s.(screens := Screens.ClearVisible(s.screens)), SHELL, r);
    } else if Preempt(s.procs, r).Current().None? {
      ExecuteScreens(img, s.(procs := Preempt(s.procs, r)), SHELL, r);
    }
  }

  /** A program that a step starts finds the user video entry and the visible terminal as
      they were: the scheduler, too, does not come back to set the entry. */
  lemma StartKeepsVideo(img: Image, s: System, e: Event)
    requires Bootable(img) && Ready(s) && Step(img, s, e).1.Started?
    ensures Step(img, s, e).0.video == s.video && Step(img, s, e).0.screens.visible == s.screens.visible
  {
    if e.Tick? {
      StepIsTick(img, s, e.registers);
      TickStartsShell(img, s, e.registers);
    } else if s.procs.Current().Some? {
      CallScreens(img, s, e);
    }
  }

  lemma TickStartsShell(img: Image, s: System, r: Context)
    requires Bootable(img) && s.Sized()
    ensures s.procs.Current().None? ==> var s' := BootTick(img, s, r).0;
              s'.video == s.video && s'.screens.visible == s.screens.visible
    ensures s.procs.Current().Some? && TickNow(img, s, r).1.Started? ==> var s' := TickNow(img, s, r).0;
              s'.video == s.video && s'.screens.visible == s.screens.visible
  {
    if s.procs.Current().None? {
      ExecuteScreens(img, s.(screens := Screens.ClearVisible(s.screens)), SHELL, r);
    } else if Preempt(s.procs, r).Current().None? {
      ExecuteScreens(img, s.(procs := Preempt(s.procs, r)), SHELL, r);
    }
  }

  lemma CallScreens(img: Image, s: System, e: Event)
    requires Bootable(img) && s.Sized() && Alive(s.procs)
    ensures var s' := Call(img, s, e).0;
            && s'.video == s.video && s'.screens.visible == s.screens.visible
            && (s.screens.CursorRight() ==> s'.screens.CursorRight())
  {
    if e.Execute? {
      ExecuteScreens(img, s, e.line, e.registers);
    } else if e.Halt? {
      HaltScreens(img, s, e.registers);
    } else if Minor(e) {
      FdSteps(img, s, e);
    }
  }

  lemma TickVideo(img: Image, s: System, r: Context)
    requires Bootable(img) && Good(s) && Booted(s)
    ensures VideoRight(TickNow(img, s, r).0) && TickNow(img, s, r).0.screens == s.screens
  {
  }

  lemma ExecuteScreens(img: Image, s: System, line: seq<byte>, r: Context)
    requires Bootable(img) && s.Sized()
    ensures var s' := ExecuteLine(img, s, line, r).0;
            && s'.video == s.video && s'.screens.visible == s.screens.visible
            && (s.screens.CursorRight() ==> s'.screens.CursorRight())
  {
    Screens.PutsIsPrivate(s.screens, s.procs.sched, LIMIT_MESSAGE, 0);
  }

  lemma HaltScreens(img: Image, s: System, r: Context)
    requires Bootable(img) && s.Sized() && Alive(s.procs)
    ensures var s' := HaltNow(img, s, r).0;
            && s'.video == s.video && s'.screens.visible == s.screens.visible
            && (s.screens.CursorRight() ==> s'.screens.CursorRight())
  {
    if IsRoot(s.procs) {
      ExecuteScreens(img, s.(procs := DropRoot(s.procs)), SHELL, r);
    }
  }

  // ---- The descriptor that halt forgets ----

  /** The files of the shell that replaces a root shell, and the blocks left. */
  lemma RestartFiles(img: Image, s: System, ch: seq<seq<nat>>, r: Context)
    requires Bootable(img) && s.Sized() && InvOf(s.procs, ch) && FlagsOk(s.procs) && Alive(s.procs) && IsRoot(s.procs)
    ensures var (s', e) := HaltNow(img, s, r); var v := View(s'.procs, s.procs.sched);
            && e.Started? && e.pid < PIDS && v != []
            && (s.procs.pid[e.pid] == VACANT || e.pid == s.procs.Current().value)
            && v[0].files == Files(InitFds(s.procs.pcb[e.pid].fd))
            && s'.procs.pid == s.procs.pid[s.procs.Current().value := VACANT][e.pid := OCCUPIED]
            && s'.procs.pcb == s.procs.pcb[e.pid := s'.procs.pcb[e.pid]]
            && e.pid == FindPid(DropRoot(s.procs).pid, 0)
  {
    var s1, u := s.(procs := DropRoot(s.procs)), s.procs.sched;
    CurrentHeads(s.procs, ch);
    RestartFindsPid(img, s, ch, r);
    RootHaltKeeps(img, s, ch, r);
    var (s', e) := HaltNow(img, s, r);
    ViewIs(s'.procs, ch[u := [e.pid]], u);
  }

  /** When a root shell halts, the new shell starts with fresh descriptors and the
      vacant pids stay clean if and only if descriptor 7 was not open: init_pcb
      does not clear it, and halt of a root process closes nothing. */
  lemma RootHaltCleanIff(img: Image, s: System, r: Context)
    requires Bootable(img) && Good(s) && Alive(s.procs) && Clean(s.procs) && IsRoot(s.procs)
    ensures var s' := HaltNow(img, s, r).0; var v := View(s'.procs, s.procs.sched);
            v != [] && (Clean(s'.procs) && v[0].files == FreshFiles() <==>
                        s.procs.pcb[s.procs.Current().value].fd[7].flags == 0)
  {
    RestartFiles(img, s, ChainsOf(s.procs), r);
    var (s', e) := HaltNow(img, s, r);
    CurrentHeads(s.procs, ChainsOf(s.procs));
    RecycledClean(s.procs, s'.procs, s.procs.Current().value, e.pid, View(s'.procs, s.procs.sched)[0].files);
  }

  /** Vacating p and occupying q for a process with the given files: whether the
      files are fresh and the vacant pids clean. */
  lemma RecycledClean(s: State, s': State, p: nat, q: nat, files: seq<Option<OpenFile>>)
    requires s.Sized() && s'.Sized() && p < PIDS && q < PIDS && Clean(s) && s.pid[p] == OCCUPIED
    requires s.pid[q] == VACANT || q == p
    requires s'.pid == s.pid[p := VACANT][q := OCCUPIED] && s'.pcb == s.pcb[q := s'.pcb[q]]
    requires files == Files(InitFds(s.pcb[q].fd))
    ensures Clean(s') && files == FreshFiles() <==> s.pcb[p].fd[7].flags == 0
  {
    FreshIff(s.pcb[q].fd);
    if q != p {
      assert s'.pid[p] == VACANT && s'.pcb[p] == s.pcb[p];
    }
  }

  /** The first n descriptors from 2 on are open and the others free. */
  predicate FilledFd(fd: seq<Descriptor>, n: nat) {
    |fd| == DESCRIPTORS && n <= 6 && forall i :: 2 <= i < DESCRIPTORS ==> fd[i].flags == if i < 2 + n then 1 else 0
  }

  /** A root process with n descriptors open behind the terminal's two. */
  predicate Filled(s: State, n: nat) {
    CanHalt(s) && IsRoot(s) && FilledFd(s.pcb[s.Current().value].fd, n)
  }

  lemma {:induction false} FreeFdIs(fd: seq<Descriptor>, n: nat, i: nat)
    requires FilledFd(fd, n) && n < 6 && 2 <= i <= 2 + n
    ensures FreeFd(fd, i) == 2 + n
    decreases 2 + n - i
  {
    if i < 2 + n {
      FreeFdIs(fd, n, i + 1);
    }
  }

  lemma OpenEntryFills(s: State, d: Dentry, n: nat)
    requires Filled(s, n) && n < 6 && d.fileType <= 2
    ensures Filled(OpenEntry(s, d).0, n + 1) && OpenEntry(s, d).1 == 2 + n
  {
    var fd := s.pcb[s.Current().value].fd;
    FreeFdIs(fd, n, 2);
    assert FilledFd(fd[2 + n := Opened(d).value], n + 1);
  }

  lemma OpenFills(img: Image, s: System, name: seq<byte>, n: nat)
    requires Bootable(img) && Good(s) && Clean(s.procs) && s.procs.Current().Some? && n < 6 && Filled(s.procs, n)
    requires name != [] && FindName(img, name).Some? && FindName(img, name).value.fileType <= 2
    ensures Ready(s)
    ensures var (s', r) := Step(img, s, Open(name));
            Good(s') && Clean(s'.procs) && s'.procs.Current().Some? && Filled(s'.procs, n + 1) && r == Result(2 + n)
  {
    CallerAlive(s);
    FdStepKeepsGood(img, s, Open(name));
    StepOpens(img, s, name);
    OpenEntryFills(s.procs, FindName(img, name).value, n);
  }

  lemma StepOpens(img: Image, s: System, name: seq<byte>)
    requires Bootable(img) && s.Sized() && Alive(s.procs) && name != [] && FindName(img, name).Some?
    ensures var o := OpenEntry(s.procs, FindName(img, name).value);
            && Call(img, s, Open(name)) == (s.(procs := o.0), Result(o.1))
            && Step(img, s, Open(name)) == Call(img, s, Open(name))
  {
  }

  function Opens(name: seq<byte>, n: nat): seq<Event>
    decreases n
  {
    if n == 0 then [] else [Open(name)] + Opens(name, n - 1)
  }

  lemma OpenOne(img: Image, s: System, name: seq<byte>, n: nat) returns (s': System)
    requires Bootable(img) && Good(s) && Clean(s.procs) && s.procs.Current().Some? && n < 6 && Filled(s.procs, n)
    requires name != [] && FindName(img, name).Some? && FindName(img, name).value.fileType <= 2
    ensures Ready(s) && s' == Step(img, s, Open(name)).0 && !Stops(Step(img, s, Open(name)).1)
    ensures Good(s') && Clean(s'.procs) && Filled(s'.procs, n + 1) && SameProcesses(s.procs, s'.procs)
  {
    OpenFills(img, s, name, n);
    s' := Step(img, s, Open(name)).0;
    CallerAlive(s);
    StepOpens(img, s, name);
  }

  /** The same pids are taken, and the same process is current. */
  predicate SameProcesses(p: State, p': State) {
    p'.pid == p.pid && p'.top == p.top && p'.sched == p.sched
  }

  /** A run to a state in which the same process has every descriptor open. */
  ghost predicate FillsAll(img: Image, s: System, es: seq<Event>)
    requires Bootable(img) && Good(s)
  {
    CanRun(img, s, es) &&
    var s' := Run(img, s, es); Clean(s'.procs) && Filled(s'.procs, 6) && SameProcesses(s.procs, s'.procs)
  }

  lemma FillsCons(img: Image, s: System, e: Event, es: seq<Event>, s': System)
    requires Bootable(img) && Good(s) && Good(s') && FillsAll(img, s', es) && SameProcesses(s.procs, s'.procs)
    requires Ready(s) && Step(img, s, e).0 == s' && !Stops(Step(img, s, e).1)
    ensures FillsAll(img, s, [e] + es)
  {
    RunCons(img, s, e, es, s');
  }

  lemma {:induction false} OpensFill(img: Image, s: System, name: seq<byte>, n: nat, k: nat)
    requires Bootable(img) && Good(s) && Clean(s.procs) && s.procs.Current().Some? && n + k == 6 && Filled(s.procs, n)
    requires name != [] && FindName(img, name).Some? && FindName(img, name).value.fileType <= 2
    ensures FillsAll(img, s, Opens(name, k))
    decreases k
  {
    if k > 0 {
      var s' := OpenOne(img, s, name, n);
      OpensFill(img, s', name, n + 1, k - 1);
      FillsCons(img, s, Open(name), Opens(name, k - 1), s');
    }
  }

  /** After a halt the shell that follows does not start fresh, or a vacant block is
      left with descriptor 7 in use. */
  ghost predicate HaltLeaks(img: Image, s: System, r: Context)
    requires Bootable(img) && s.Sized() && Alive(s.procs)
  {
    var s' := HaltNow(img, s, r).0;
    var v := View(s'.procs, s.procs.sched);
    !(Clean(s'.procs) && v != [] && v[0].files == FreshFiles())
  }

  /** If every lower pid is taken, the shell that follows a root shell gets its pid,
      and with it whatever it had open as descriptor 7. */
  lemma HaltPassesOn(img: Image, s: System, r: Context)
    requires Bootable(img) && Good(s) && Alive(s.procs) && IsRoot(s.procs)
    requires forall q :: 0 <= q < s.procs.Current().value ==> s.procs.pid[q] == OCCUPIED
    ensures var v := View(HaltNow(img, s, r).0.procs, s.procs.sched);
            v != [] && |v[0].files| == DESCRIPTORS
            && v[0].files[7] == FileOf(s.procs.pcb[s.procs.Current().value].fd[7])
  {
    RestartFiles(img, s, ChainsOf(s.procs), r);
    LowestIsOwn(s.procs);
  }

  lemma LowestIsOwn(p: State)
    requires CanHalt(p) && forall q :: 0 <= q < p.Current().value ==> p.pid[q] == OCCUPIED
    ensures FindPid(DropRoot(p).pid, 0) == p.Current().value
  {
    assert DropRoot(p).pid[p.Current().value] == VACANT;
  }

  /** A run that shows it: a root shell with nothing open opens a file six times
      and halts. The shell that replaces it does not start fresh, or a vacant pid
      is left with descriptor 7 in use. */
  lemma SixOpensThenHaltLeaks(img: Image, s: System, name: seq<byte>, r: Context)
    requires Bootable(img) && Good(s) && Clean(s.procs) && s.procs.Current().Some? && Filled(s.procs, 0)
    requires name != [] && FindName(img, name).Some? && FindName(img, name).value.fileType <= 2
    ensures FillsAll(img, s, Opens(name, 6)) && Alive(Run(img, s, Opens(name, 6)).procs)
    ensures HaltLeaks(img, Run(img, s, Opens(name, 6)), r)
  {
    OpensFill(img, s, name, 0, 6);
    var s6 := Run(img, s, Opens(name, 6));
    CallerAlive(s6);
    RootHaltCleanIff(img, s6, r);
  }
}
