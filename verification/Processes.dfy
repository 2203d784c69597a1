/** Processes of the three terminals: pid table, process control blocks linked
    by parent pointers, user page and kernel stack, and descriptor tables
    (student-distrib/system_call.c, student-distrib/pit.c). A process control
    block lies at an address fixed by its pid, so pointers to them are pids. */
module Processes {
  import opened Bytes
  import opened FileSystem
  import opened Helpers

  const PIDS: nat := 6
  const MAX_PID: nat := 5
  const VACANT: int := -1
  const OCCUPIED: int := 1
  const DESCRIPTORS: nat := 8
  const EIGHT_MB: nat := 0x80_0000
  const FOUR_MB: nat := 0x40_0000
  const EIGHT_KB: nat := 0x2000
  const PAGING_USER_ON: nat := 0x87

  /** The register values that resume a process: ebp and esp. */
  datatype Context = Context(ebp: int, esp: int)

  datatype Ops = NoOps | StdinOps | StdoutOps | RtcOps | DirOps | FileOps

  datatype Descriptor = Descriptor(ops: Ops, inode: nat, position: nat, flags: nat)

  datatype Pcb = Pcb(pid: int, parentPid: int, halted: Context, saved: Context,
                     argument: seq<byte>, fd: seq<Descriptor>, parent: Option<nat>)

  datatype State = State(sched: nat, pid: seq<int>, counter: int, pcb: seq<Pcb>,
                         top: seq<Option<nat>>, page: int, esp0: int) {
    /** Arrays have their sizes and pointers name blocks. */
    predicate Sized() {
      && sched < TERMINALS && |pid| == PIDS && |pcb| == PIDS && |top| == TERMINALS
      && (forall p :: 0 <= p < PIDS ==> |pcb[p].fd| == DESCRIPTORS)
      && (forall t :: 0 <= t < TERMINALS ==> InRange(top[t]))
      && (forall p :: 0 <= p < PIDS ==> InRange(pcb[p].parent))
    }

    /** The process of the scheduled terminal. */
    function Current(): Option<nat>
      requires Sized()
    {
      top[sched]
    }
  }

  predicate InRange(p: Option<nat>) {
    p.Some? ==> p.value < PIDS
  }

  /** Page directory entry 32 while process p runs: its 4 MB frame, present,
      writable, user, large (section 4.3 of the Intel SDM, volume 3A). */
  function PageEntry(p: int): int {
    EIGHT_MB + p * FOUR_MB + PAGING_USER_ON
  }

  /** Top of the kernel stack of process p. */
  function KernelStack(p: int): int {
    EIGHT_MB - p * EIGHT_KB - 4
  }

  /** find_pid from index `from` on: the lowest vacant pid, or -1. */
  function FindPid(pid: seq<int>, from: nat): (r: int)
    requires from <= |pid|
    ensures r == -1 || from <= r < |pid|
    ensures r == -1 <==> forall p :: from <= p < |pid| ==> pid[p] != VACANT
    ensures r != -1 ==> pid[r] == VACANT && forall p :: from <= p < r ==> pid[p] != VACANT
    decreases |pid| - from
  {
    if from == |pid| then -1 else if pid[from] == VACANT then from else FindPid(pid, from + 1)
  }

  /** The descriptor table init_pcb leaves: 0 and 1 are the terminal, 2 to 6 are
      marked free, 7 is left as it was. */
  function InitFds(fd: seq<Descriptor>): (r: seq<Descriptor>)
    requires |fd| == DESCRIPTORS
    ensures |r| == DESCRIPTORS
  {
    [Descriptor(StdinOps, 0, 0, 1), Descriptor(StdoutOps, 0, 0, 1),
     fd[2].(flags := 0), fd[3].(flags := 0), fd[4].(flags := 0), fd[5].(flags := 0), fd[6].(flags := 0), fd[7]]
  }

  /** What init_pcb leaves in the block of a new process. */
  function InitPcb(old_: Pcb, pid: int, argument: seq<byte>, parent: Option<nat>, parentPid: int): (r: Pcb)
    requires |old_.fd| == DESCRIPTORS
    ensures |r.fd| == DESCRIPTORS
  {
    old_.(pid := pid, parentPid := parentPid, argument := argument, parent := parent, fd := InitFds(old_.fd))
  }

  /** execute once the program is known to be good: pid, page, block, stack, and
      the caller's registers saved in its block. With no vacant pid the source
      goes on with pid -1; the model stops there. */
  function Launch(s: State, argument: seq<byte>, caller: Context): (r: (State, Option<nat>))
    requires s.Sized()
    ensures r.0.Sized() && InRange(r.1) && r.0.sched == s.sched
  {
    var counted := s.(counter := s.counter + 1);
    var p := FindPid(s.pid, 0);
    if p == -1 then (counted, None)
    else
      var parent := s.Current();
      var parentPid := if parent.Some? then s.pcb[parent.value].pid else -1;
      var made := s.pcb[p := InitPcb(s.pcb[p], p, argument, parent, parentPid)];
      var linked := if parent.Some? then made[parent.value := made[parent.value].(halted := caller)] else made;
      (counted.(pid := s.pid[p := OCCUPIED], pcb := linked, top := s.top[s.sched := Some(p)],
                page := PageEntry(p), esp0 := KernelStack(p)), Some(p))
  }

  /** close on one descriptor entry. */
  function Closed(d: Descriptor): Descriptor {
    d.(inode := 0, position := 0, flags := 0)
  }

  /** The loop of halt that closes the descriptors in use; 0 and 1 are refused
      by close. */
  function CloseAll(fd: seq<Descriptor>): (r: seq<Descriptor>)
    requires |fd| == DESCRIPTORS
    ensures |r| == DESCRIPTORS
  {
    seq(DESCRIPTORS, i requires 0 <= i < DESCRIPTORS =>
        if i >= 2 && fd[i].flags == 1 then Closed(fd[i]) else fd[i])
  }

  /** The current process can halt: its block names its own pid. */
  predicate CanHalt(s: State) {
    s.Sized() && s.Current().Some? && s.pcb[s.Current().value].pid == s.Current().value
  }

  predicate IsRoot(s: State)
    requires CanHalt(s)
  {
    s.pcb[s.Current().value].parentPid == -1
  }

  /** halt of a root shell, up to the execution of a new one: nothing is closed. */
  function DropRoot(s: State): (r: State)
    requires CanHalt(s)
    ensures r.Sized() && r.sched == s.sched
  {
    s.(pid := s.pid[s.Current().value := VACANT], top := s.top[s.sched := None], counter := s.counter - 1)
  }

  /** halt of a process with a parent, which becomes current. */
  function ReturnToParent(s: State): (r: State)
    requires CanHalt(s)
    ensures r.Sized() && r.sched == s.sched
  {
    var p := s.Current().value;
    var b := s.pcb[p];
    s.(pid := s.pid[p := VACANT], pcb := s.pcb[p := b.(fd := CloseAll(b.fd))], top := s.top[s.sched := b.parent],
       counter := s.counter - 1, page := PageEntry(b.parentPid), esp0 := KernelStack(b.parentPid))
  }

  /** Round robin. */
  function NextTerminal(t: nat): (n: nat)
    requires t < TERMINALS
    ensures n == if t == TERMINALS - 1 then 0 else t + 1
  {
    (t + 1) % TERMINALS
  }

  /** The first half of scheduler: save the registers, advance the terminal. */
  function Preempt(s: State, registers: Context): (r: State)
    requires s.Sized() && s.Current().Some?
    ensures r.Sized()
  {
    var p := s.Current().value;
    s.(pcb := s.pcb[p := s.pcb[p].(saved := registers)], sched := NextTerminal(s.sched))
  }

  /** The second half, when the next terminal has a process. */
  function Remap(s: State): (r: State)
    requires s.Sized() && s.Current().Some?
    ensures r.Sized()
  {
    var pid := s.pcb[s.Current().value].pid;
    s.(page := PageEntry(pid), esp0 := KernelStack(pid))
  }

  /** The state with one descriptor of the current process replaced. */
  function SetFd(s: State, i: nat, d: Descriptor): (r: State)
    requires s.Sized() && s.Current().Some? && i < DESCRIPTORS
    ensures r.Sized()
  {
    var p := s.Current().value;
    s.(pcb := s.pcb[p := s.pcb[p].(fd := s.pcb[p].fd[i := d])])
  }

  /** The lowest free descriptor from i on, or -1. */
  function FreeFd(fd: seq<Descriptor>, i: nat): (r: int)
    requires i <= |fd|
    ensures r == -1 || (i <= r < |fd| && fd[r].flags == 0)
    ensures r == -1 ==> forall k :: i <= k < |fd| ==> fd[k].flags != 0
    ensures r != -1 ==> forall k :: i <= k < r ==> fd[k].flags != 0
    decreases |fd| - i
  {
    if i == |fd| then -1 else if fd[i].flags == 0 then i else FreeFd(fd, i + 1)
  }

  /** The descriptor open stores for a directory entry, by its type. */
  function Opened(d: Dentry): Option<Descriptor> {
    if d.fileType == 0 then Some(Descriptor(RtcOps, 0, 0, 1))
    else if d.fileType == 1 then Some(Descriptor(DirOps, 0, 0, 1))
    else if d.fileType == 2 then Some(Descriptor(FileOps, d.inode, 0, 1))
    else None
  }

  /** open, once the directory entry is found. */
  function OpenEntry(s: State, d: Dentry): (r: (State, int))
    requires s.Sized() && s.Current().Some?
    ensures r.0.Sized()
  {
    var i := FreeFd(s.pcb[s.Current().value].fd, 2);
    if i == -1 || Opened(d).None? then (s, -1) else (SetFd(s, i, Opened(d).value), i)
  }

  function Close(s: State, i: int): (r: (State, int))
    requires s.Sized() && s.Current().Some?
    ensures r.0.Sized()
  {
    if i < 2 || i >= DESCRIPTORS || s.pcb[s.Current().value].fd[i].flags == 0 then (s, -1)
    else (SetFd(s, i, Closed(s.pcb[s.Current().value].fd[i])), 0)
  }

  /** read, once the device has delivered `count`: the position moves by it. */
  function Moved(s: State, i: nat, count: int): (r: State)
    requires s.Sized() && s.Current().Some? && i < DESCRIPTORS
    ensures r.Sized()
  {
    var d := s.pcb[s.Current().value].fd[i];
    SetFd(s, i, d.(position := Advanced(d.position, count)))
  }
}

/** The invariant of the process table over parent chains. */
module Chains {
  import opened Bytes
  import opened Helpers
  import opened Processes

  /** The pids met from p on along the parent pointers, at most `fuel` of them. */
  function Follow(pcb: seq<Pcb>, p: Option<nat>, fuel: nat): seq<nat>
    decreases fuel
  {
    if p.None? || p.value >= |pcb| || fuel == 0 then []
    else [p.value] + Follow(pcb, pcb[p.value].parent, fuel - 1)
  }

  /** c is the whole chain from p: it ends at a process without a parent. */
  predicate IsChain(pcb: seq<Pcb>, p: Option<nat>, c: seq<nat>)
    decreases c
  {
    if c == [] then p.None?
    else p == Some(c[0]) && c[0] < |pcb| && IsChain(pcb, pcb[c[0]].parent, c[1..])
  }

  /** The process chain of terminal t, the current process first. */
  function Chain(s: State, t: nat): seq<nat>
    requires s.Sized() && t < TERMINALS
  {
    Follow(s.pcb, s.top[t], |s.pcb|)
  }

  /** The three chains. */
  function ChainsOf(s: State): (r: seq<seq<nat>>)
    requires s.Sized()
    ensures |r| == TERMINALS
  {
    [Chain(s, 0), Chain(s, 1), Chain(s, 2)]
  }

  /** How often each pid stands in the chains. */
  function Census(ch: seq<seq<nat>>): multiset<nat>
    requires |ch| == TERMINALS
  {
    multiset(ch[0]) + multiset(ch[1]) + multiset(ch[2])
  }

  function OccupiedPids(pid: seq<int>): (r: set<nat>) {
    set p: nat | p < |pid| && pid[p] == OCCUPIED
  }

  /** Every block in a chain names its pid and its parent's pid. */
  predicate Named(pcb: seq<Pcb>, p: nat)
    requires p < |pcb|
  {
    && pcb[p].pid == p
    && pcb[p].parentPid == if pcb[p].parent.Some? then pcb[p].parent.value else -1
  }

  /** ch are the parent chains; their blocks are exactly the occupied pids, each
      once; process_counter + 1 is their number. */
  ghost predicate InvOf(s: State, ch: seq<seq<nat>>) {
    && s.Sized() && |ch| == TERMINALS
    && (forall t :: 0 <= t < TERMINALS ==> IsChain(s.pcb, s.top[t], ch[t]))
    && Census(ch) == multiset(OccupiedPids(s.pid))
    && PidTable(s.pid)
    && (forall p :: 0 <= p < PIDS && s.pid[p] == OCCUPIED ==> Named(s.pcb, p))
    && s.counter + 1 == |OccupiedPids(s.pid)|
  }

  predicate PidTable(pid: seq<int>) {
    |pid| == PIDS && forall p :: 0 <= p < PIDS ==> pid[p] == OCCUPIED || pid[p] == VACANT
  }

  /** The invariant: the chains that the parent pointers spell are finite, and
      the pid table and the counter agree with them. */
  ghost predicate Inv(s: State) {
    s.Sized() && InvOf(s, ChainsOf(s))
  }

  lemma {:induction false} ChainIsFollowed(pcb: seq<Pcb>, p: Option<nat>, c: seq<nat>, fuel: nat)
    requires IsChain(pcb, p, c) && |c| <= fuel
    ensures Follow(pcb, p, fuel) == c
    decreases fuel
  {
    if c != [] {
      ChainIsFollowed(pcb, pcb[c[0]].parent, c[1..], fuel - 1);
    }
  }

  /** A chain depends only on the parent pointers of its blocks. */
  lemma {:induction false} ChainKept(pcb: seq<Pcb>, pcb': seq<Pcb>, p: Option<nat>, c: seq<nat>)
    requires IsChain(pcb, p, c) && |pcb| == |pcb'|
    requires forall x :: x in c && x < |pcb| ==> pcb'[x].parent == pcb[x].parent
    ensures IsChain(pcb', p, c)
    decreases c
  {
    if c != [] {
      ChainKept(pcb, pcb', pcb[c[0]].parent, c[1..]);
    }
  }

  lemma SubsetSize(a: set<nat>, b: set<nat>)
    requires a <= b
    ensures |a| <= |b| && (|a| == |b| ==> a == b)
  {
    assert b == a + (b - a);
  }

  /** No more than six blocks stand in the chains. */
  lemma AtMostSix(pid: seq<int>)
    requires |pid| == PIDS
    ensures |OccupiedPids(pid)| <= PIDS
    ensures |OccupiedPids(pid)| == PIDS <==> forall p :: 0 <= p < PIDS ==> pid[p] == OCCUPIED
  {
    var all := {0, 1, 2, 3, 4, 5};
    SubsetSize(OccupiedPids(pid), all);
    if forall p :: 0 <= p < PIDS ==> pid[p] == OCCUPIED {
      assert OccupiedPids(pid) == all;
    } else {
      var p :| 0 <= p < PIDS && pid[p] != OCCUPIED;
      assert p in all && p !in OccupiedPids(pid);
    }
  }

  /** A chain holds no more than six blocks. */
  lemma ShortChain(ch: seq<seq<nat>>, pid: seq<int>, t: nat)
    requires |pid| == PIDS && |ch| == TERMINALS && t < TERMINALS && Census(ch) == multiset(OccupiedPids(pid))
    ensures |ch[t]| <= PIDS
  {
    AtMostSix(pid);
    assert |multiset(ch[t])| <= |Census(ch)|;
  }

  lemma ChainsAre(s: State, ch: seq<seq<nat>>)
    requires InvOf(s, ch)
    ensures ChainsOf(s) == ch && forall t :: 0 <= t < TERMINALS ==> Chain(s, t) == ch[t]
  {
    forall t | 0 <= t < TERMINALS ensures |ch[t]| <= PIDS {
      ShortChain(ch, s.pid, t);
    }
    ChainsFollowed(s, ch);
  }

  lemma ChainsFollowed(s: State, ch: seq<seq<nat>>)
    requires s.Sized() && |ch| == TERMINALS
    requires forall t :: 0 <= t < TERMINALS ==> IsChain(s.pcb, s.top[t], ch[t]) && |ch[t]| <= PIDS
    ensures ChainsOf(s) == ch && forall t :: 0 <= t < TERMINALS ==> Chain(s, t) == ch[t]
  {
    forall t | 0 <= t < TERMINALS ensures Chain(s, t) == ch[t] {
      ChainIsFollowed(s.pcb, s.top[t], ch[t], |s.pcb|);
    }
  }

  /** To re-establish the invariant it is enough to name the chains. */
  lemma InvFromChains(s: State, ch: seq<seq<nat>>)
    requires InvOf(s, ch)
    ensures Inv(s) && ChainsOf(s) == ch
  {
    ChainsAre(s, ch);
  }

  /** Every occupied pid stands exactly once in exactly one chain, and the other
      pids in none. */
  lemma OccupiedOnce(s: State, p: nat)
    requires Inv(s)
    ensures multiset(Chain(s, 0))[p] + multiset(Chain(s, 1))[p] + multiset(Chain(s, 2))[p]
         == if p < PIDS && s.pid[p] == OCCUPIED then 1 else 0
  {
    CensusAt(ChainsOf(s), s.pid, p);
  }

  lemma CensusAt(ch: seq<seq<nat>>, pid: seq<int>, p: nat)
    requires |ch| == TERMINALS && Census(ch) == multiset(OccupiedPids(pid))
    ensures multiset(ch[0])[p] + multiset(ch[1])[p] + multiset(ch[2])[p]
         == if p < |pid| && pid[p] == OCCUPIED then 1 else 0
  {
    assert Census(ch)[p] == multiset(ch[0])[p] + multiset(ch[1])[p] + multiset(ch[2])[p];
    assert multiset(OccupiedPids(pid))[p] == if p in OccupiedPids(pid) then 1 else 0;
  }

  /** What stands in a chain is occupied. */
  lemma InChain(ch: seq<seq<nat>>, pid: seq<int>, t: nat, x: nat)
    requires |ch| == TERMINALS && t < TERMINALS && Census(ch) == multiset(OccupiedPids(pid)) && x in ch[t]
    ensures x < |pid| && pid[x] == OCCUPIED
    ensures multiset(ch[t])[x] == 1 && forall u :: 0 <= u < TERMINALS && u != t ==> x !in ch[u]
  {
    CensusAt(ch, pid, x);
    assert x in multiset(ch[t]);
    forall u | 0 <= u < TERMINALS && u != t ensures x !in ch[u] {
      assert x in ch[u] <==> x in multiset(ch[u]);
    }
  }

  // ---- The three steps that change the chains ----

  /** Parent pointers of all blocks but p are as before. */
  predicate SameParentsBut(pcb: seq<Pcb>, pcb': seq<Pcb>, p: nat) {
    |pcb| == |pcb'| && forall q :: 0 <= q < |pcb| && q != p ==>
      pcb'[q].parent == pcb[q].parent && pcb'[q].pid == pcb[q].pid && pcb'[q].parentPid == pcb[q].parentPid
  }

  /** Pushing a vacant pid on the chain of terminal t. */
  lemma PushKeeps(s: State, ch: seq<seq<nat>>, s': State, t: nat, p: nat)
    requires InvOf(s, ch) && s'.Sized() && t < TERMINALS && p < PIDS && s.pid[p] == VACANT
    requires s'.pid == s.pid[p := OCCUPIED] && s'.counter == s.counter + 1
    requires SameParentsBut(s.pcb, s'.pcb, p) && Named(s'.pcb, p)
    requires s'.top == s.top[t := Some(p)] && s'.pcb[p].parent == s.top[t]
    ensures InvOf(s', ch[t := [p] + ch[t]])
  {
    var ch' := ch[t := [p] + ch[t]];
    forall u | 0 <= u < TERMINALS ensures IsChain(s'.pcb, s'.top[u], ch'[u]) {
      PushedChain(s, ch, s', t, p, u);
    }
    OccupiedPush(s.pid, s'.pid, p);
    CensusPush(ch, t, p);
  }

  lemma OccupiedPush(pid: seq<int>, pid': seq<int>, p: nat)
    requires |pid| == PIDS && p < PIDS && pid[p] == VACANT && pid' == pid[p := OCCUPIED]
    ensures OccupiedPids(pid') == OccupiedPids(pid) + {p} && p !in OccupiedPids(pid)
    ensures multiset(OccupiedPids(pid')) == multiset(OccupiedPids(pid)) + multiset{p}
  {
    assert OccupiedPids(pid') == OccupiedPids(pid) + {p};
  }

  lemma PushedChain(s: State, ch: seq<seq<nat>>, s': State, t: nat, p: nat, u: nat)
    requires InvOf(s, ch) && s'.Sized() && t < TERMINALS && u < TERMINALS && p < PIDS && s.pid[p] == VACANT
    requires SameParentsBut(s.pcb, s'.pcb, p) && s'.pcb[p].parent == s.top[t]
    requires s'.top == s.top[t := Some(p)]
    ensures IsChain(s'.pcb, s'.top[u], if u == t then [p] + ch[t] else ch[u])
  {
    forall x | x in ch[u] ensures x != p {
      InChain(ch, s.pid, u, x);
    }
    ChainKept(s.pcb, s'.pcb, s.top[u], ch[u]);
    assert ([p] + ch[t])[1..] == ch[t];
  }

  lemma CensusPush(ch: seq<seq<nat>>, t: nat, p: nat)
    requires |ch| == TERMINALS && t < TERMINALS
    ensures Census(ch[t := [p] + ch[t]]) == Census(ch) + multiset{p}
  {
    assert multiset([p] + ch[t]) == multiset{p} + multiset(ch[t]);
  }

  lemma CensusPop(ch: seq<seq<nat>>, t: nat)
    requires |ch| == TERMINALS && t < TERMINALS && ch[t] != []
    ensures Census(ch[t := ch[t][1..]]) == Census(ch) - multiset{ch[t][0]}
  {
    var ch' := ch[t := ch[t][1..]];
    assert [ch[t][0]] + ch[t][1..] == ch[t];
    assert ch'[t := [ch[t][0]] + ch'[t]] == ch;
    CensusPush(ch', t, ch[t][0]);
  }

  /** Popping the current process off the chain of terminal t. */
  lemma PopKeeps(s: State, ch: seq<seq<nat>>, s': State, t: nat)
    requires InvOf(s, ch) && s'.Sized() && t < TERMINALS && ch[t] != []
    requires s'.pid == s.pid[ch[t][0] := VACANT] && s'.counter == s.counter - 1
    requires SameParentsBut(s.pcb, s'.pcb, PIDS)
    requires s'.top == s.top[t := s.pcb[ch[t][0]].parent]
    ensures InvOf(s', ch[t := ch[t][1..]])
  {
    var ch' := ch[t := ch[t][1..]];
    forall u | 0 <= u < TERMINALS ensures IsChain(s'.pcb, s'.top[u], ch'[u]) {
      PoppedChain(s, ch, s', t, u);
    }
    PoppedCensus(s.pid, ch, t);
    assert forall q :: 0 <= q < PIDS && s'.pid[q] == OCCUPIED ==> s.pid[q] == OCCUPIED;
  }

  lemma PoppedCensus(pid: seq<int>, ch: seq<seq<nat>>, t: nat)
    requires |ch| == TERMINALS && t < TERMINALS && ch[t] != [] && Census(ch) == multiset(OccupiedPids(pid))
    ensures ch[t][0] < |pid|
    ensures var pid' := pid[ch[t][0] := VACANT];
            && Census(ch[t := ch[t][1..]]) == multiset(OccupiedPids(pid'))
            && |OccupiedPids(pid')| == |OccupiedPids(pid)| - 1
  {
    var p := ch[t][0];
    InChain(ch, pid, t, p);
    assert OccupiedPids(pid[p := VACANT]) == OccupiedPids(pid) - {p};
    CensusPop(ch, t);
  }

  lemma PoppedChain(s: State, ch: seq<seq<nat>>, s': State, t: nat, u: nat)
    requires InvOf(s, ch) && s'.Sized() && t < TERMINALS && u < TERMINALS && ch[t] != []
    requires SameParentsBut(s.pcb, s'.pcb, PIDS) && s'.top == s.top[t := s.pcb[ch[t][0]].parent]
    ensures IsChain(s'.pcb, s'.top[u], if u == t then ch[t][1..] else ch[u])
  {
    ChainKept(s.pcb, s'.pcb, s.top[u], ch[u]);
  }

  /** Steps that leave pids and parent pointers keep the chains. */
  lemma LinksKeep(s: State, ch: seq<seq<nat>>, s': State)
    requires InvOf(s, ch) && s'.Sized() && s'.pid == s.pid && s'.counter == s.counter && s'.top == s.top
    requires SameParentsBut(s.pcb, s'.pcb, PIDS)
    ensures InvOf(s', ch)
  {
    forall u | 0 <= u < TERMINALS ensures IsChain(s'.pcb, s'.top[u], ch[u]) {
      ChainKept(s.pcb, s'.pcb, s.top[u], ch[u]);
    }
  }
}
