/** What each step does to the invariant, and the processes of a terminal seen
    as a private stack of jobs. */
module Jobs {
  import opened Bytes
  import opened Helpers
  import opened Processes
  import opened Chains

  /** Page entry and kernel stack are those of the scheduled terminal's process. */
  predicate Mapped(s: State)
    requires s.Sized()
  {
    s.Current().Some? ==> s.page == PageEntry(s.Current().value) && s.esp0 == KernelStack(s.Current().value)
  }

  /** The current process heads the chain of the scheduled terminal, and its
      block names its pid and its parent. */
  lemma CurrentHeads(s: State, ch: seq<seq<nat>>)
    requires InvOf(s, ch)
    ensures s.Current().None? <==> ch[s.sched] == []
    ensures ch[s.sched] != [] ==>
              && s.Current() == Some(ch[s.sched][0]) && CanHalt(s)
              && s.pid[s.Current().value] == OCCUPIED && Named(s.pcb, s.Current().value)
              && (IsRoot(s) <==> |ch[s.sched]| == 1)
              && s.pcb[ch[s.sched][0]].parent == if |ch[s.sched]| == 1 then None else Some(ch[s.sched][1])
  {
    var t := s.sched;
    if ch[t] != [] {
      InChain(ch, s.pid, t, ch[t][0]);
      assert IsChain(s.pcb, s.pcb[ch[t][0]].parent, ch[t][1..]);
    }
  }

  /** find_pid fails for a launch exactly when process_counter stands at its
      maximum of 5. */
  lemma LaunchFailsIffFull(s: State, ch: seq<seq<nat>>, argument: seq<byte>, caller: Context)
    requires InvOf(s, ch)
    ensures Launch(s, argument, caller).1.None? <==> s.counter == MAX_PID
  {
    AtMostSix(s.pid);
  }

  /** A launch pushes a vacant pid on the chain of the scheduled terminal. */
  lemma LaunchKeeps(s: State, ch: seq<seq<nat>>, argument: seq<byte>, caller: Context)
    requires InvOf(s, ch) && Launch(s, argument, caller).1.Some?
    ensures var (s', p) := Launch(s, argument, caller);
            && s.pid[p.value] == VACANT
            && InvOf(s', ch[s.sched := [p.value] + ch[s.sched]]) && Mapped(s')
  {
    var (s', p) := Launch(s, argument, caller);
    CurrentHeads(s, ch);
    PushKeeps(s, ch, s', s.sched, p.value);
  }

  lemma DropRootKeeps(s: State, ch: seq<seq<nat>>)
    requires InvOf(s, ch) && ch[s.sched] != [] && CanHalt(s) && IsRoot(s)
    ensures InvOf(DropRoot(s), ch[s.sched := []])
  {
    CurrentHeads(s, ch);
    PopKeeps(s, ch, DropRoot(s), s.sched);
    assert ch[s.sched][1..] == [];
  }

  lemma ReturnKeeps(s: State, ch: seq<seq<nat>>)
    requires InvOf(s, ch) && ch[s.sched] != [] && CanHalt(s) && !IsRoot(s)
    ensures InvOf(ReturnToParent(s), ch[s.sched := ch[s.sched][1..]]) && Mapped(ReturnToParent(s))
  {
    CurrentHeads(s, ch);
    PopKeeps(s, ch, ReturnToParent(s), s.sched);
  }

  lemma PreemptKeeps(s: State, ch: seq<seq<nat>>, registers: Context)
    requires InvOf(s, ch) && s.Current().Some?
    ensures InvOf(Preempt(s, registers), ch)
  {
    LinksKeep(s, ch, Preempt(s, registers));
  }

  lemma RemapKeeps(s: State, ch: seq<seq<nat>>)
    requires InvOf(s, ch) && s.Current().Some?
    ensures InvOf(Remap(s), ch) && Mapped(Remap(s))
  {
    CurrentHeads(s, ch);
    LinksKeep(s, ch, Remap(s));
  }

  lemma SetFdKeeps(s: State, ch: seq<seq<nat>>, i: nat, d: Descriptor)
    requires InvOf(s, ch) && s.Current().Some? && i < DESCRIPTORS
    ensures InvOf(SetFd(s, i, d), ch) && (Mapped(s) ==> Mapped(SetFd(s, i, d)))
  {
    LinksKeep(s, ch, SetFd(s, i, d));
  }

  // ---- Views ----

  datatype OpenFile = OpenFile(ops: Ops, inode: nat, position: nat)

  /** One process of a terminal: its argument, its open files, and the registers
      with which its caller continues when it halts. */
  datatype Job = Job(argument: seq<byte>, files: seq<Option<OpenFile>>, caller: Option<Context>)

  function FileOf(d: Descriptor): Option<OpenFile> {
    if d.flags == 0 then None else Some(OpenFile(d.ops, d.inode, d.position))
  }

  function Files(fd: seq<Descriptor>): (r: seq<Option<OpenFile>>)
    ensures |r| == |fd|
  {
    seq(|fd|, i requires 0 <= i < |fd| => FileOf(fd[i]))
  }

  /** The open files of a new process: the terminal for 0 and 1. */
  function FreshFiles(): seq<Option<OpenFile>> {
    [Some(OpenFile(StdinOps, 0, 0)), Some(OpenFile(StdoutOps, 0, 0)), None, None, None, None, None, None]
  }

  /** The block of a process; pids in chains always name one. */
  function Block(pcb: seq<Pcb>, x: nat): Pcb
    requires pcb != []
  {
    if x < |pcb| then pcb[x] else pcb[0]
  }

  /** The jobs of a chain, the current one first. */
  function JobsOf(pcb: seq<Pcb>, c: seq<nat>): (r: seq<Job>)
    requires pcb != []
    ensures |r| == |c|
  {
    seq(|c|, i requires 0 <= i < |c| =>
        Job(Block(pcb, c[i]).argument, Files(Block(pcb, c[i]).fd),
             if i + 1 < |c| then Some(Block(pcb, c[i + 1]).halted) else None))
  }

  /** The blocks of a chain are unchanged. */
  predicate SameBlocks(pcb: seq<Pcb>, pcb': seq<Pcb>, c: seq<nat>) {
    |pcb| == |pcb'| && forall x :: x in c && x < |pcb| ==> pcb'[x] == pcb[x]
  }

  /** In a chain no pid stands twice. */
  lemma HeadOnce(ch: seq<seq<nat>>, pid: seq<int>, t: nat)
    requires |ch| == TERMINALS && t < TERMINALS && Census(ch) == multiset(OccupiedPids(pid)) && ch[t] != []
    ensures ch[t][0] !in ch[t][1..]
    ensures forall u :: 0 <= u < TERMINALS && u != t ==> ch[t][0] !in ch[u]
  {
    var c := ch[t];
    InChain(ch, pid, t, c[0]);
    assert c == [c[0]] + c[1..];
    assert multiset(c)[c[0]] == 1 + multiset(c[1..])[c[0]];
  }

  lemma ChainBounds(s: State, ch: seq<seq<nat>>)
    requires InvOf(s, ch)
    ensures forall t, i :: 0 <= t < TERMINALS && 0 <= i < |ch[t]| ==> ch[t][i] < PIDS && s.pid[ch[t][i]] == OCCUPIED
  {
    forall t, i | 0 <= t < TERMINALS && 0 <= i < |ch[t]| ensures ch[t][i] < PIDS && s.pid[ch[t][i]] == OCCUPIED {
      InChain(ch, s.pid, t, ch[t][i]);
    }
  }

  /** Every vacant pid's slot 7 is free, which init_pcb relies on. */
  predicate Clean(s: State)
    requires s.Sized()
  {
    forall p :: 0 <= p < PIDS && s.pid[p] == VACANT ==> s.pcb[p].fd[7].flags == 0
  }

  /** flags_ is 0 or 1 in every descriptor. */
  predicate FlagsOk(s: State)
    requires s.Sized()
  {
    forall p, i :: 0 <= p < PIDS && 0 <= i < DESCRIPTORS ==> s.pcb[p].fd[i].flags <= 1
  }

  lemma JobsPushed(pcb: seq<Pcb>, x: nat, c: seq<nat>)
    requires x < |pcb| && forall i :: 0 <= i < |c| ==> c[i] < |pcb|
    ensures JobsOf(pcb, [x] + c) ==
            [Job(pcb[x].argument, Files(pcb[x].fd), if c == [] then None else Some(pcb[c[0]].halted))] + JobsOf(pcb, c)
  {
  }

  lemma JobsKept(pcb: seq<Pcb>, pcb': seq<Pcb>, c: seq<nat>)
    requires pcb != [] && |pcb| == |pcb'| && forall i :: 0 <= i < |c| ==> c[i] < |pcb|
    requires forall i :: 0 <= i < |c| ==>
               pcb'[c[i]].argument == pcb[c[i]].argument && pcb'[c[i]].fd == pcb[c[i]].fd
    requires forall i :: 1 <= i < |c| ==> pcb'[c[i]].halted == pcb[c[i]].halted
    ensures JobsOf(pcb', c) == JobsOf(pcb, c)
  {
  }

  /** A launch pushes one job: the new program's argument, its descriptors as
      init_pcb leaves them, and the caller's registers. */
  lemma LaunchJobs(s: State, ch: seq<seq<nat>>, argument: seq<byte>, caller: Context)
    requires InvOf(s, ch) && Launch(s, argument, caller).1.Some?
    requires forall i :: 0 <= i < |ch[s.sched]| ==> ch[s.sched][i] < PIDS
    ensures var (s', p) := Launch(s, argument, caller); var c := ch[s.sched];
            JobsOf(s'.pcb, [p.value] + c) ==
            [Job(argument, Files(InitFds(s.pcb[p.value].fd)), if c == [] then None else Some(caller))]
            + JobsOf(s.pcb, c)
  {
    var (s', p) := Launch(s, argument, caller);
    var c := ch[s.sched];
    CurrentHeads(s, ch);
    forall i | 0 <= i < |c| ensures c[i] != p.value && (i > 0 ==> c[i] != c[0]) {
      InChain(ch, s.pid, s.sched, c[i]);
      HeadOnce(ch, s.pid, s.sched);
      assert i > 0 ==> c[i] == c[1..][i - 1];
    }
    JobsKept(s.pcb, s'.pcb, c);
    JobsPushed(s'.pcb, p.value, c);
  }

  /** A launch touches no block of another terminal. */
  lemma LaunchElsewhere(s: State, ch: seq<seq<nat>>, argument: seq<byte>, caller: Context, u: nat)
    requires InvOf(s, ch) && u < TERMINALS && u != s.sched
    ensures SameBlocks(s.pcb, Launch(s, argument, caller).0.pcb, ch[u])
  {
    CurrentHeads(s, ch);
    forall x | x in ch[u] ensures x < PIDS && s.pid[x] == OCCUPIED && (ch[s.sched] != [] ==> x != ch[s.sched][0]) {
      InChain(ch, s.pid, u, x);
      if ch[s.sched] != [] {
        HeadOnce(ch, s.pid, s.sched);
      }
    }
  }

  /** Changing only the current block of terminal t leaves the others' blocks and
      the rest of its own chain. */
  lemma CurrentBlockOnly(s: State, ch: seq<seq<nat>>, pcb': seq<Pcb>)
    requires InvOf(s, ch) && ch[s.sched] != []
    requires |pcb'| == PIDS && forall q :: 0 <= q < PIDS && q != ch[s.sched][0] ==> pcb'[q] == s.pcb[q]
    ensures forall u :: 0 <= u < TERMINALS && u != s.sched ==> SameBlocks(s.pcb, pcb', ch[u])
    ensures SameBlocks(s.pcb, pcb', ch[s.sched][1..])
  {
    HeadOnce(ch, s.pid, s.sched);
  }

  lemma JobsTail(pcb: seq<Pcb>, pcb': seq<Pcb>, c: seq<nat>)
    requires pcb != [] && c != [] && SameBlocks(pcb, pcb', c[1..]) && forall i :: 0 <= i < |c| ==> c[i] < |pcb|
    ensures JobsOf(pcb', c[1..]) == JobsOf(pcb, c)[1..]
  {
    forall i | 0 <= i < |c| - 1 ensures c[1..][i] == c[i + 1] && pcb'[c[i + 1]] == pcb[c[i + 1]] {
      assert c[1..][i] in c[1..];
    }
  }

  /** Halting pops one job, and its caller's registers are in the parent. */
  lemma ReturnJobs(s: State, ch: seq<seq<nat>>)
    requires InvOf(s, ch) && |ch[s.sched]| > 1 && CanHalt(s)
    requires forall i :: 0 <= i < |ch[s.sched]| ==> ch[s.sched][i] < PIDS
    ensures JobsOf(ReturnToParent(s).pcb, ch[s.sched][1..]) == JobsOf(s.pcb, ch[s.sched])[1..]
    ensures JobsOf(s.pcb, ch[s.sched])[0].caller == Some(s.pcb[ch[s.sched][1]].halted)
  {
    CurrentHeads(s, ch);
    CurrentBlockOnly(s, ch, ReturnToParent(s).pcb);
    JobsTail(s.pcb, ReturnToParent(s).pcb, ch[s.sched]);
  }

  lemma HeadFdJobs(pcb: seq<Pcb>, c: seq<nat>, i: nat, d: Descriptor)
    requires c != [] && c[0] !in c[1..] && (forall k :: 0 <= k < |c| ==> c[k] < |pcb|) && i < |pcb[c[0]].fd|
    ensures var v, pcb' := JobsOf(pcb, c), pcb[c[0] := pcb[c[0]].(fd := pcb[c[0]].fd[i := d])];
            |v[0].files| == |pcb[c[0]].fd|
            && JobsOf(pcb', c) == v[0 := v[0].(files := v[0].files[i := FileOf(d)])]
  {
    forall k | 1 <= k < |c| ensures c[k] != c[0] {
      assert c[k] == c[1..][k - 1];
    }
    var fd := pcb[c[0]].fd;
    assert Files(fd[i := d]) == Files(fd)[i := FileOf(d)];
  }

  /** Changing a descriptor changes the files of the current job only. */
  lemma SetFdJobs(s: State, ch: seq<seq<nat>>, i: nat, d: Descriptor)
    requires InvOf(s, ch) && s.Current().Some? && i < DESCRIPTORS
    requires forall k :: 0 <= k < |ch[s.sched]| ==> ch[s.sched][k] < PIDS
    ensures ch[s.sched] != []
    ensures var v := JobsOf(s.pcb, ch[s.sched]);
            |v[0].files| == DESCRIPTORS
            && JobsOf(SetFd(s, i, d).pcb, ch[s.sched]) == v[0 := v[0].(files := v[0].files[i := FileOf(d)])]
  {
    CurrentHeads(s, ch);
    HeadOnce(ch, s.pid, s.sched);
    HeadFdJobs(s.pcb, ch[s.sched], i, d);
  }

  /** The descriptors a new process starts with are the fresh ones exactly when
      slot 7 of its block was free. */
  lemma FreshIff(fd: seq<Descriptor>)
    requires |fd| == DESCRIPTORS
    ensures Files(InitFds(fd)) == FreshFiles() <==> fd[7].flags == 0
  {
    var f := Files(InitFds(fd));
    assert f[7] == FileOf(fd[7]);
    assert fd[7].flags == 0 ==> f == FreshFiles();
  }

  lemma LaunchKeepsClean(s: State, argument: seq<byte>, caller: Context)
    requires s.Sized() && FlagsOk(s) && PidTable(s.pid)
    ensures FlagsOk(Launch(s, argument, caller).0)
    ensures Clean(s) ==> Clean(Launch(s, argument, caller).0)
  {
  }

  /** halt leaves no descriptor above 1 open in the block of a process with a
      parent, so its pid can be used again. */
  lemma ReturnKeepsClean(s: State)
    requires CanHalt(s) && FlagsOk(s)
    ensures FlagsOk(ReturnToParent(s))
    ensures Clean(s) ==> Clean(ReturnToParent(s))
    ensures forall i :: 2 <= i < DESCRIPTORS ==> ReturnToParent(s).pcb[s.Current().value].fd[i].flags == 0
  {
  }

  lemma SetFdKeepsClean(s: State, i: nat, d: Descriptor)
    requires s.Sized() && s.Current().Some? && i < DESCRIPTORS && d.flags <= 1 && FlagsOk(s)
    requires s.pid[s.Current().value] == OCCUPIED
    ensures FlagsOk(SetFd(s, i, d)) && (Clean(s) ==> Clean(SetFd(s, i, d)))
  {
  }
}
