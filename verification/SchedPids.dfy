/** Process ids over a run: no two slots ever carry the same one, so that joining waits for the
    process that is meant, and for no other. */
module SchedPids {
  import opened SchedSpec
  import opened SchedInvariant
  import opened SchedReady
  import opened SchedCalls
  import opened SchedBoot

  /** All ids given out so far are below the next one, slots in use have one, and no two slots
      carry the same, in use or not. */
  ghost predicate PidsOk(s: State) {
    && (forall p :: 0 <= p < |s.procs| ==> s.procs[p].pid < s.nextPid && (s.procs[p].used ==> s.procs[p].pid > 0))
    && (forall p, q :: 0 <= p < q < |s.procs| && s.procs[p].pid == s.procs[q].pid ==> s.procs[p].pid == 0)
  }

  // ---- one step

  /** No id changes and no slot comes into use. */
  ghost predicate SamePids(s: State, s1: State) {
    && |s1.procs| == |s.procs| && s1.nextPid == s.nextPid
    && forall p :: 0 <= p < |s.procs| ==> s1.procs[p].pid == s.procs[p].pid && (s1.procs[p].used ==> s.procs[p].used)
  }

  lemma SamePidsOk(s: State, s1: State)
    requires PidsOk(s) && SamePids(s, s1)
    ensures PidsOk(s1)
  {
  }

  lemma DispatchPids(s: State)
    requires !Dispatch(s).Crash?
    ensures SamePids(s, Dispatch(s).s)
  {
  }

  lemma SchedulerPids(s: State, eax: int)
    requires !DoScheduler(s, eax).Crash?
    ensures SamePids(s, DoScheduler(s, eax).s)
  {
  }

  lemma {:induction false} WalkPids(s: State, i: nat)
    ensures SamePids(s, Walk(s, i))
    decreases |s.sleepers| - i
  {
    if i < |s.sleepers| {
      WalkPids(Charged(s, i), if Expires(s, s.sleepers[i]) then i else i + 1);
    }
  }

  lemma TimerPids(s: State)
    ensures SamePids(s, DoTimer(s))
  {
    var c := ProcAt(s, s.current);
    WalkPids(SetProc(s.(tick := More(s.tick)), s.current, c.(timeslice := More(c.timeslice))), 0);
  }

  lemma CallPids(s: State, c: Call)
    requires c != SysSpawn && !DoSyscall(s, c).Crash?
    ensures SamePids(s, DoSyscall(s, c).s)
  {
    hide Dispatch, Spawn, Exit, Exec, Join, SemWait, SemPost;
    match c
    case SysExec(loaded) => ExecPids(s, loaded, 1900);
    case SysExit => ExitPids(s);
    case SysJoin(pid) => JoinPids(s, pid, 1506);
    case SysSemWait(j) => SemPids(s, j, 1603);
    case SysSemPost(j) => SemPids(s, j, 1602);
    case _ =>
  }

  lemma ExecPids(s: State, loaded: bool, eax: int)
    requires !Exec(s, loaded, eax).Crash?
    ensures SamePids(s, Exec(s, loaded, eax).s)
  {
    hide Dispatch;
    if loaded {
      DispatchPids(SetProc(s, s.current, ProcAt(s, s.current).(tt := USER)).(ready := s.ready + [s.current], current := NONE));
    }
  }

  lemma ExitPids(s: State)
    requires !Exit(s).Crash?
    ensures SamePids(s, Exit(s).s)
  {
    hide Dispatch, Alive;
    DispatchPids(Exited(s));
  }

  lemma JoinPids(s: State, pid: int, eax: int)
    requires !Join(s, pid, eax).Crash?
    ensures SamePids(s, Join(s, pid, eax).s)
  {
  }

  lemma SemPids(s: State, j: int, eax: int)
    ensures !SemWait(s, j, eax).Crash? ==> SamePids(s, SemWait(s, j, eax).s)
    ensures !SemPost(s, j, eax).Crash? ==> SamePids(s, SemPost(s, j, eax).s)
  {
  }

  lemma StepPids(s: State, ev: Event)
    requires ev != Syscall(SysSpawn) && !Handle(s, ev).Crash?
    ensures SamePids(s, Handle(s, ev).s)
  {
    hide DoTimer, DoSyscall, DoScheduler;
    match ev
    case Timer => TimerPids(s); SchedulerPids(DoTimer(s), 0);
    case Key(ctrlC) =>
      if ctrlC && ProcAt(s, s.current).tt != KERNEL {
        CallPids(s, SysExit);
      }
    case Syscall(call) =>
      CallPids(s, call);
      var out := DoSyscall(s, call);
      if out.Back? && out.eax != SYS_PRINT_CHAR {
        SchedulerPids(out.s, out.eax);
      }
    case OtherIrq =>
  }

  lemma SpawnPids(s: State, i: int)
    requires Inv(s) && Running(s) && PidsOk(s) && 0 < s.nextPid < TWO_32 - 1
    requires 0 <= i < POOL && !s.procs[i].used && forall k :: 0 <= k < i ==> s.procs[k].used
    ensures Handle(s, Syscall(SysSpawn)).Back?
    ensures PidsOk(Handle(s, Syscall(SysSpawn)).s) && Handle(s, Syscall(SysSpawn)).s.nextPid == s.nextPid + 1
  {
    hide Inv, Running, Handle;
    SpawnMakes(s, i);
    InvShape(s);
  }

  /** Each step keeps the ids apart, as long as a fork does not wrap the counter. */
  lemma StepApart(s: State, ev: Event)
    requires Inv(s) && Running(s) && PidsOk(s) && 0 < s.nextPid && !Handle(s, ev).Crash?
    requires ev == Syscall(SysSpawn) ==> s.nextPid < TWO_32 - 1
    ensures PidsOk(Handle(s, ev).s) && Handle(s, ev).s.nextPid == s.nextPid + if ev == Syscall(SysSpawn) then 1 else 0
  {
    hide Inv, Running, Handle, PidsOk;
    if ev == Syscall(SysSpawn) {
      InvShape(s);
      var i := FreeSlot(s.procs, 0);
      FreeSlotRange(s.procs, 0);
      if i == POOL {
        SpawnFull(s);
      } else {
        SpawnPids(s, i);
      }
    } else {
      StepPids(s, ev);
      SamePidsOk(s, Handle(s, ev).s);
    }
  }

  // ---- runs

  /** After boot the idle task is process 1 of the kernel and the shell process 2, a user's. */
  lemma BootPids(s: State)
    requires Fresh(s) && forall i :: 0 <= i < POOL ==> s.procs[i].pid == 0
    ensures Boot(s).Switched? && PidsOk(Boot(s).s) && Boot(s).s.nextPid == 3
    ensures ProcAt(Boot(s).s, IDLE).pid == 1 && ProcAt(Boot(s).s, IDLE).tt == KERNEL
    ensures ProcAt(Boot(s).s, SHELL).pid == 2 && ProcAt(Boot(s).s, SHELL).tt == USER && ProcAt(Boot(s).s, SHELL).ts == RUNNING
  {
    FreeSlotRange(s.procs, 0);
    FreeSlotRange(Created(s, KERNEL).procs, 0);
  }

  lemma {:induction false} RunApart(trace: seq<State>, evs: seq<Event>, n: nat)
    requires IsRun(trace, evs) && Inv(trace[0]) && Running(trace[0]) && PidsOk(trace[0]) && n <= |evs|
    requires 0 < trace[0].nextPid && trace[0].nextPid + Spawns(evs[..n]) < TWO_32
    ensures PidsOk(trace[n]) && trace[n].nextPid == trace[0].nextPid + Spawns(evs[..n])
  {
    hide Inv, Running, Handle, Allowed, PidsOk;
    if n == 0 {
      assert evs[..0] == [];
    } else {
      assert evs[..n][..n - 1] == evs[..n - 1] && evs[..n][n - 1] == evs[n - 1];
      RunApart(trace, evs, n - 1);
      RunKeeps(trace, evs, n - 1);
      RunStep(trace, evs, n - 1);
      StepApart(trace[n - 1], evs[n - 1]);
    }
  }

  /** With the ids apart, a process in use is the first with its id. */
  lemma FirstIsIt(s: State, t: int)
    requires PidsOk(s) && 0 <= t < |s.procs| && s.procs[t].used
    ensures s.procs[t].pid != 0 && FirstWith(s, s.procs[t].pid, t)
  {
  }

  lemma FirstUnused(s: State, pid: U32)
    requires PidsOk(s) && forall t :: 0 <= t < |s.procs| && s.procs[t].used ==> s.procs[t].pid != pid
    ensures forall t :: pid != 0 && FirstWith(s, pid, t) ==> !s.procs[t].used
  {
  }

  /** Join means what it says, in every state of every run from boot in which fewer than 2^32 ids
      are given out: join(pid) waits for the process in use that has this id, if there is one,
      and otherwise, whoever had it before, returns at once. */
  lemma JoinExact(s0: State, trace: seq<State>, evs: seq<Event>, n: nat, pid: U32)
    requires KernelRun(s0, trace, evs) && n <= |evs| && 3 + Spawns(evs[..n]) < TWO_32
    requires forall i :: 0 <= i < POOL ==> s0.procs[i].pid == 0
    ensures |trace[n].procs| == POOL == |trace[n].joins|
    ensures forall t :: 0 <= t < POOL && trace[n].procs[t].used && trace[n].procs[t].pid == pid ==>
      Turn(trace[n].(joins := trace[n].joins[t := trace[n].joins[t] + [trace[n].current]]), Handle(trace[n], Syscall(SysJoin(pid))))
    ensures (forall t :: 0 <= t < POOL && trace[n].procs[t].used ==> trace[n].procs[t].pid != pid) ==>
      GoesOn(trace[n], Handle(trace[n], Syscall(SysJoin(pid))), 1506)
  {
    hide Inv, Running, Handle, Allowed, PidsOk, Boot, Fresh, Turn, GoesOn, FirstWith;
    BootRuns(s0);
    BootPids(s0);
    RunKeeps(trace, evs, n);
    RunApart(trace, evs, n);
    var s := trace[n];
    Basics(s);
    forall t | 0 <= t < POOL && s.procs[t].used && s.procs[t].pid == pid
      ensures Turn(s.(joins := s.joins[t := s.joins[t] + [s.current]]), Handle(s, Syscall(SysJoin(pid))))
    {
      FirstIsIt(s, t);
      JoinWaits(s, pid, t);
    }
    if forall t :: 0 <= t < POOL && s.procs[t].used ==> s.procs[t].pid != pid {
      FirstUnused(s, pid);
      JoinReturns(s, pid);
    }
  }
}
