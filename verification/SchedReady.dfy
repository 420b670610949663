/** The ready list over a run: nobody in it is overtaken except by newly created processes,
    so everybody gets the processor in bounded time, and it never runs empty. */
module SchedReady {
  import opened SchedSpec
  import opened SchedInvariant

  // ---- how one step changes the ready list

  ghost predicate IsSpawn(ev: Event) { ev == Syscall(SysSpawn) }

  /** A step either switches to the head of the ready list after appending `app` to it, or
      keeps the current process and appends, or puts one new process in front. */
  ghost predicate ReadyEffect(s: State, ev: Event, out: Outcome, app: seq<int>) {
    match out
    case Crash(_) => true
    case Switched(s1) => [s1.current] + s1.ready == s.ready + app && ProcAt(s1, s1.current).timeslice == 0 && !IsSpawn(ev)
    case Back(s1, _) =>
      && s1.current == s.current
      && ProcAt(s1, s.current).timeslice == ProcAt(s, s.current).timeslice + (if ev == Timer then 1 else 0)
      && (if IsSpawn(ev) then |s1.ready| == |s.ready| + 1 && s1.ready[1..] == s.ready else s1.ready == s.ready + app)
  }

  lemma DispatchEffect(s: State, ready: seq<int>, app: seq<int>)
    requires s.current == NONE && s.ready == ready + app && s.ready != [] && 0 <= s.ready[0] < |s.procs|
    ensures Dispatch(s).Switched?
    ensures [Dispatch(s).s.current] + Dispatch(s).s.ready == ready + app
    ensures ProcAt(Dispatch(s).s, Dispatch(s).s.current).timeslice == 0
  {
  }

  lemma ReadyInRange(s: State)
    requires Inv(s)
    ensures forall i :: 0 <= i < |s.ready| ==> 0 <= s.ready[i] < |s.procs|
  {
    forall i | 0 <= i < |s.ready|
      ensures 0 <= s.ready[i] < |s.procs|
    {
      assert s.ready[i] in multiset(s.ready);
      assert s.ready[i] in Lists(s);
      ListedIsLive(s, s.ready[i]);
    }
  }

  /** do_scheduler, from a state whose ready list is ready + app. */
  lemma DoSchedulerEffect(s: State, eax: int, ready: seq<int>, app: seq<int>) returns (app2: seq<int>)
    requires Inv(s) && s.current != NONE && s.ready == ready + app
    ensures DoScheduler(s, eax).Switched? ==>
        [DoScheduler(s, eax).s.current] + DoScheduler(s, eax).s.ready == ready + app2
        && ProcAt(DoScheduler(s, eax).s, DoScheduler(s, eax).s.current).timeslice == 0
    ensures DoScheduler(s, eax).Back? ==> app2 == app && DoScheduler(s, eax).s == s
  {
    hide Inv, Dispatch;
    var c := ProcAt(s, s.current);
    app2 := app;
    if c.ts == SLEEPING {
      var s1 := s.(sleepers := s.sleepers + [s.current], current := NONE);
      SetProcSame(s);
      ParkKeeps(s, s1, c);
      ReadyInRange(s1);
      if s1.ready != [] {
        DispatchEffect(s1, ready, app);
      }
      assert s1.ready == [] ==> Dispatch(s1).Crash? by { DispatchCase(s1); }
    } else if c.timeslice > 2 || c.ts == STOP {
      var s1 := SetProc(s, s.current, c.(ts := READY)).(ready := s.ready + [s.current], current := NONE);
      ParkKeeps(s, s1, c.(ts := READY));
      ReadyInRange(s1);
      app2 := app + [s.current];
      assert s1.ready == ready + app2;
      DispatchEffect(s1, ready, app2);
    }
  }

  lemma {:induction false} WalkAppends(s: State, i: nat) returns (app: seq<int>)
    ensures Walk(s, i).ready == s.ready + app
    decreases |s.sleepers| - i
  {
    if i < |s.sleepers| {
      var p := s.sleepers[i];
      if Expires(s, p) {
        var more := WalkAppends(Charged(s, i), i);
        app := [p] + more;
        assert s.ready + [p] + more == s.ready + app;
      } else {
        app := WalkAppends(Charged(s, i), i + 1);
      }
    } else {
      app := [];
    }
  }

  /** A call that switches does so from the ready list with something appended; one that
      returns has at most appended to the ready list or put a new process in front. */
  lemma CallEffect(s: State, c: Call) returns (app: seq<int>)
    requires Inv(s) && Running(s) && Allowed(Syscall(c))
    ensures DoSyscall(s, c).Switched? ==>
        [DoSyscall(s, c).s.current] + DoSyscall(s, c).s.ready == s.ready + app
        && ProcAt(DoSyscall(s, c).s, DoSyscall(s, c).s.current).timeslice == 0 && c != SysSpawn
    ensures DoSyscall(s, c).Back? && c != SysSpawn ==> DoSyscall(s, c).s.ready == s.ready + app
  {
    hide Inv, Dispatch, Spawn;
    app := [];
    match c
    case SysExec(loaded) =>
      if loaded {
        var x := ProcAt(s, s.current).(tt := USER);
        var s1 := SetProc(s, s.current, x).(ready := s.ready + [s.current], current := NONE);
        app := [s.current];
        ParkKeeps(s, s1, x);
        SwitchEffect(s, s1, app);
      }
    case SysSemWait(j) =>
      if SemAt(s, j).used && SemAt(s, j).count - 1 < 0 {
        BlockKeeps(s, j);
        SwitchEffect(s, Blocked(s, j), []);
      }
    case SysSemPost(j) =>
      if SemAt(s, j).used && SemAt(s, j).count + 1 <= 0 && ListAt(s.blocked, j) != [] {
        app := [ListAt(s.blocked, j)[0]];
      }
    case SysSemClose(j) =>
      if SemAt(s, j).used {
        app := ListAt(s.blocked, j);
      }
    case SysJoin(pid) =>
      var t := FindPid(s.procs, pid, 0);
      FindPidRange(s.procs, pid, 0);
      if pid != 0 && t < |s.procs| && s.procs[t].used {
        InvShape(s);
        JoinKeeps(s, t);
        SwitchEffect(s, Joined(s, t), []);
      }
    case SysExit =>
      app := ListAt(s.joins, s.current);
      ExitKeeps(s);
      SwitchEffect(s, Exited(s), app);
    case _ =>
  }

  lemma InvShape(s: State)
    requires Inv(s)
    ensures |s.procs| == POOL
  {
  }

  lemma SwitchEffect(s: State, s1: State, app: seq<int>)
    requires Inv(s1) && s1.current == NONE && s1.ready == s.ready + app
    ensures Dispatch(s1).Switched? ==>
        [Dispatch(s1).s.current] + Dispatch(s1).s.ready == s.ready + app
        && ProcAt(Dispatch(s1).s, Dispatch(s1).s.current).timeslice == 0
  {
    ReadyInRange(s1);
    if s1.ready != [] {
      DispatchEffect(s1, s.ready, app);
    }
  }

  lemma SpawnEffect(s: State)
    requires Inv(s) && Running(s) && Spawn(s).Back?
    ensures |Spawn(s).s.ready| == |s.ready| + 1 && Spawn(s).s.ready[1..] == s.ready
    ensures Inv(Spawn(s).s) && Running(Spawn(s).s) && Spawn(s).s.current == s.current
    ensures ProcAt(Spawn(s).s, s.current) == ProcAt(s, s.current)
  {
    SpawnRuns(s);
  }

  /** How every step changes the ready list. */
  lemma StepEffect(s: State, ev: Event) returns (app: seq<int>)
    requires Inv(s) && Running(s) && Allowed(ev)
    ensures ReadyEffect(s, ev, Handle(s, ev), app)
  {
    hide Inv, DoTimer, DoSyscall, DoScheduler, Dispatch;
    app := [];
    match ev
    case Timer =>
      TimerKeeps(s);
      var w := TimerAppends(s);
      app := DoSchedulerEffect(DoTimer(s), 0, s.ready, w);
    case Key(ctrlC) =>
      app := CallEffect(s, SysExit);
      NoExitBack(s);
      if !ctrlC || ProcAt(s, s.current).tt == KERNEL {
        app := [];
      }
    case Syscall(call) =>
      app := SyscallEffect(s, call);
    case OtherIrq =>
  }

  lemma TimerAppends(s: State) returns (app: seq<int>)
    ensures DoTimer(s).ready == s.ready + app
  {
    var c := ProcAt(s, s.current);
    app := WalkAppends(SetProc(s.(tick := More(s.tick)), s.current, c.(timeslice := More(c.timeslice))), 0);
  }

  lemma SyscallEffect(s: State, call: Call) returns (app: seq<int>)
    requires Inv(s) && Running(s) && Allowed(Syscall(call))
    ensures ReadyEffect(s, Syscall(call), Handle(s, Syscall(call)), app)
  {
    hide Inv, DoSyscall, DoScheduler, Dispatch;
    var out := DoSyscall(s, call);
    app := CallEffect(s, call);
    CallKeeps(s, call);
    if out.Back? {
      BackRuns(s, call);
      if call == SysSpawn {
        SpawnBack(s);
        SpawnEffect(s);
        RunningStays(out.s, out.eax);
      } else if Running(out.s) {
        CallTimeslice(s, call);
        RunningStays(out.s, out.eax);
      } else {
        app := DoSchedulerEffect(out.s, out.eax, s.ready, app);
        NotRunningLeaves(out.s, out.eax);
      }
    }
  }

  lemma SpawnBack(s: State)
    ensures DoSyscall(s, SysSpawn) == Spawn(s)
  {
  }

  lemma RunningStays(s: State, eax: int)
    requires Running(s)
    ensures DoScheduler(s, eax) == Back(s, eax)
  {
  }

  lemma NotRunningLeaves(s: State, eax: int)
    requires s.current != NONE && ProcAt(s, s.current).ts in {STOP, SLEEPING}
    ensures !DoScheduler(s, eax).Back?
  {
  }

  /** A call that leaves its caller running does not touch its turn. */
  lemma CallTimeslice(s: State, c: Call)
    requires Inv(s) && Running(s) && Allowed(Syscall(c)) && DoSyscall(s, c).Back? && Running(DoSyscall(s, c).s)
    ensures ProcAt(DoSyscall(s, c).s, s.current) == ProcAt(s, s.current)
  {
    hide Inv, Dispatch, Spawn;
    ListedIsLive(s, s.current);
    match c
    case SysSpawn => SpawnRuns(s);
    case SysSleep(units) =>
    case SysHandout =>
    case _ =>
  }

  // ---- runs

  /** trace lists the states of a run that does not crash. */
  ghost predicate IsRun(trace: seq<State>, evs: seq<Event>) {
    && |trace| == |evs| + 1
    && (forall i :: 0 <= i < |evs| ==> Allowed(evs[i]) && !Handle(trace[i], evs[i]).Crash? && trace[i + 1] == Handle(trace[i], evs[i]).s)
  }

  lemma RunStep(trace: seq<State>, evs: seq<Event>, i: nat)
    requires IsRun(trace, evs) && i < |evs|
    ensures Allowed(evs[i]) && !Handle(trace[i], evs[i]).Crash? && trace[i + 1] == Handle(trace[i], evs[i]).s
  {
  }

  lemma {:induction false} RunKeeps(trace: seq<State>, evs: seq<Event>, n: nat)
    requires IsRun(trace, evs) && Inv(trace[0]) && Running(trace[0]) && n <= |evs|
    ensures Inv(trace[n]) && Running(trace[n])
  {
    hide Inv, Running, Handle, Allowed;
    if n > 0 {
      RunKeeps(trace, evs, n - 1);
      RunStep(trace, evs, n - 1);
      StepKeeps(trace[n - 1], evs[n - 1]);
    }
  }

  function Ticks(evs: seq<Event>): nat {
    if evs == [] then 0 else Ticks(evs[..|evs| - 1]) + (if evs[|evs| - 1] == Timer then 1 else 0)
  }

  function Spawns(evs: seq<Event>): nat {
    if evs == [] then 0 else Spawns(evs[..|evs| - 1]) + (if evs[|evs| - 1] == Syscall(SysSpawn) then 1 else 0)
  }

  // ---- bounded waiting

  /** An upper bound on the ticks until position k of the ready list reaches the processor. */
  function Bound(s: State, k: nat): int { 3 * k + 3 - ProcAt(s, s.current).timeslice }

  /** One step: the process at position k becomes current, or keeps a place in the ready
      list with a smaller bound after a tick and a bound at most 3 larger after a spawn. */
  lemma WaitStep(s: State, ev: Event, k: nat) returns (k2: nat)
    requires Inv(s) && Running(s) && Allowed(ev) && !Handle(s, ev).Crash? && k < |s.ready|
    ensures var s1 := Handle(s, ev).s;
      s1.current == s.ready[k] ||
      (k2 < |s1.ready| && s1.ready[k2] == s.ready[k]
       && Bound(s1, k2) <= Bound(s, k) - (if ev == Timer then 1 else 0) + (if IsSpawn(ev) then 3 else 0))
  {
    hide Inv, Handle;
    var app := StepEffect(s, ev);
    var out := Handle(s, ev);
    var s1 := out.s;
    k2 := 0;
    if out.Switched? {
      assert ([s1.current] + s1.ready)[k] == (s.ready + app)[k];
      if k > 0 {
        k2 := k - 1;
      }
    } else if IsSpawn(ev) {
      k2 := k + 1;
      assert s1.ready[1..][k] == s.ready[k];
    } else {
      k2 := k;
      assert (s.ready + app)[k] == s.ready[k];
    }
  }

  lemma {:induction false} WaitRun(trace: seq<State>, evs: seq<Event>, k: nat, n: nat) returns (kn: nat)
    requires IsRun(trace, evs) && Inv(trace[0]) && Running(trace[0]) && n <= |evs| && k < |trace[0].ready|
    requires forall i :: 1 <= i <= n ==> trace[i].current != trace[0].ready[k]
    ensures kn < |trace[n].ready| && trace[n].ready[kn] == trace[0].ready[k]
    ensures Bound(trace[n], kn) <= Bound(trace[0], k) - Ticks(evs[..n]) + 3 * Spawns(evs[..n])
  {
    hide Inv, Running, Handle, Allowed, Bound;
    if n == 0 {
      kn := k;
      assert evs[..0] == [];
    } else {
      var k1 := WaitRun(trace, evs, k, n - 1);
      RunKeeps(trace, evs, n - 1);
      RunStep(trace, evs, n - 1);
      kn := WaitStep(trace[n - 1], evs[n - 1], k1);
      assert evs[..n][..n - 1] == evs[..n - 1] && evs[..n][n - 1] == evs[n - 1];
    }
  }

  /** A process at position k of the ready list becomes current within 3 * (k + 1) ticks,
      plus at most 3 for each process created meanwhile: a run in which it never becomes
      current has fewer ticks than that. */
  lemma BoundedWait(trace: seq<State>, evs: seq<Event>, k: nat)
    requires IsRun(trace, evs) && Inv(trace[0]) && Running(trace[0]) && k < |trace[0].ready|
    requires Ticks(evs) >= 3 * (k + 1) + 3 * Spawns(evs)
    ensures exists i :: 1 <= i <= |evs| && trace[i].current == trace[0].ready[k]
  {
    hide Inv, Handle, Allowed, Running, Bound;
    assert evs[..|evs|] == evs;
    RunKeeps(trace, evs, |evs|);
    BoundRange(trace[0], k);
    if forall i :: 1 <= i <= |evs| ==> trace[i].current != trace[0].ready[k] {
      var kn := WaitRun(trace, evs, k, |evs|);
      BoundRange(trace[|evs|], kn);
    }
  }

  lemma BoundRange(s: State, k: nat)
    requires Running(s)
    ensures 1 <= Bound(s, k) <= 3 * (k + 1)
  {
  }

  // ---- the idle task

  /** The idle task is a kernel task and waits in the ready list whenever it is not current. */
  ghost predicate IdleOk(s: State, idle: int) {
    && 0 <= idle < |s.procs| && s.procs[idle].tt == KERNEL
    && (idle == s.current || idle in s.ready)
  }

  /** The only call idle ever makes is to yield. */
  ghost predicate IdleEvent(s: State, idle: int, ev: Event) {
    s.current == idle ==> ev == Timer || ev.Key? || ev == OtherIrq || ev == Syscall(SysHandout)
  }

  /** No call changes the type of a task other than the one that makes it. */
  lemma TypeKept(s: State, c: Call, p: int)
    requires Inv(s) && Running(s) && Allowed(Syscall(c)) && p != s.current && 0 <= p < |s.procs| && s.procs[p].used
    requires !DoSyscall(s, c).Crash?
    ensures p < |DoSyscall(s, c).s.procs| && DoSyscall(s, c).s.procs[p].tt == s.procs[p].tt
  {
    match c
    case SysSpawn => FreeSlotRange(s.procs, 0);
    case SysExit => JoinersAlive(s, s.current);
    case _ =>
  }

  lemma CrashEmptyCall(s: State, c: Call)
    requires Inv(s) && Running(s) && Allowed(Syscall(c)) && DoSyscall(s, c) == Crash(EmptyReadyList)
    ensures s.ready == [] && c != SysHandout
  {
    hide SemsOk, JoinsOk, Partition;
    match c
    case SysSemPost(j) => SemPostKeeps(s, j, 1602);
    case SysExit => JoinersAlive(s, s.current);
    case _ =>
  }

  /** do_scheduler crashes only with an empty ready list and a current process that goes to
      sleep, since a process that yields is in the list itself. */
  lemma CrashEmptyScheduler(s: State, eax: int)
    requires s.current != NONE && DoScheduler(s, eax).Crash?
    ensures s.ready == [] && ProcAt(s, s.current).ts == SLEEPING
  {
  }

  lemma CrashEmpty(s: State, ev: Event)
    requires Inv(s) && Running(s) && Allowed(ev) && Handle(s, ev) == Crash(EmptyReadyList)
    ensures s.ready == [] && ev != Timer && ev != OtherIrq && ev != Syscall(SysHandout)
    ensures ev.Key? ==> ProcAt(s, s.current).tt != KERNEL
  {
    hide Inv, DoTimer, DoSyscall, DoScheduler, Dispatch;
    match ev
    case Timer =>
      TimerKeeps(s);
      CrashEmptyScheduler(DoTimer(s), 0);
    case Key(ctrlC) => CrashEmptyCall(s, SysExit);
    case Syscall(call) =>
      var out := DoSyscall(s, call);
      if out.Back? {
        CallKeeps(s, call);
        CrashEmptyScheduler(out.s, out.eax);
        var app := CallEffect(s, call);
        if call == SysSpawn {
          SpawnBack(s);
          SpawnEffect(s);
        }
        HandoutTs(s);
      } else {
        CrashEmptyCall(s, call);
      }
    case OtherIrq =>
  }

  lemma HandoutTs(s: State)
    requires Inv(s) && Running(s)
    ensures DoSyscall(s, SysHandout).Back? && ProcAt(DoSyscall(s, SysHandout).s, s.current).ts == STOP
  {
    ListedIsLive(s, s.current);
  }

  /** The step keeps the idle task where it must be, and do_scheduler finds the ready list
      non-empty. */
  lemma IdleStep(s: State, ev: Event, idle: int)
    requires Inv(s) && Running(s) && Allowed(ev) && IdleOk(s, idle) && IdleEvent(s, idle, ev)
    ensures Handle(s, ev) != Crash(EmptyReadyList)
    ensures !Handle(s, ev).Crash? ==> IdleOk(Handle(s, ev).s, idle)
  {
    hide Inv, Handle, Running;
    if Handle(s, ev) == Crash(EmptyReadyList) {
      CrashEmpty(s, ev);
    }
    if !Handle(s, ev).Crash? {
      StepKeeps(s, ev);
      IdleType(s, ev, idle);
      if idle in s.ready {
        var k :| 0 <= k < |s.ready| && s.ready[k] == idle;
        var k2 := WaitStep(s, ev, k);
      } else {
        IdleYields(s, ev);
      }
    }
  }

  lemma IdleType(s: State, ev: Event, idle: int)
    requires Inv(s) && Running(s) && Allowed(ev) && IdleOk(s, idle) && IdleEvent(s, idle, ev) && !Handle(s, ev).Crash?
    ensures idle < |Handle(s, ev).s.procs| && Handle(s, ev).s.procs[idle].tt == KERNEL
  {
    hide Inv, DoTimer, DoSyscall, Dispatch;
    IdleLive(s, idle);
    match ev
    case Timer => TimerTypes(s, idle); SchedulerTypes(DoTimer(s), 0, idle);
    case Key(ctrlC) =>
      if ctrlC && ProcAt(s, s.current).tt != KERNEL {
        TypeKept(s, SysExit, idle);
      }
    case Syscall(call) =>
      var out := DoSyscall(s, call);
      if s.current == idle {
        HandoutType(s, idle);
      } else {
        TypeKept(s, call, idle);
      }
      if out.Back? && out.eax != SYS_PRINT_CHAR {
        SchedulerTypes(out.s, out.eax, idle);
      }
    case OtherIrq =>
  }

  lemma IdleLive(s: State, idle: int)
    requires Inv(s) && IdleOk(s, idle)
    ensures idle < |s.procs| && s.procs[idle].used
  {
    if idle in s.ready {
      assert idle in multiset(s.ready);
      assert idle in Lists(s);
    }
    ListedIsLive(s, idle);
  }

  lemma HandoutType(s: State, idle: int)
    requires 0 <= idle < |s.procs|
    ensures idle < |DoSyscall(s, SysHandout).s.procs| && DoSyscall(s, SysHandout).s.procs[idle].tt == s.procs[idle].tt
  {
  }

  lemma SchedulerTypes(s: State, eax: int, p: int)
    requires 0 <= p < |s.procs| && !DoScheduler(s, eax).Crash?
    ensures p < |DoScheduler(s, eax).s.procs| && DoScheduler(s, eax).s.procs[p].tt == s.procs[p].tt
  {
  }

  lemma {:induction false} WalkTypes(s: State, i: nat, p: int)
    requires 0 <= p < |s.procs|
    ensures p < |Walk(s, i).procs| && Walk(s, i).procs[p].tt == s.procs[p].tt
    decreases |s.sleepers| - i
  {
    if i < |s.sleepers| {
      WalkTypes(Charged(s, i), if Expires(s, s.sleepers[i]) then i else i + 1, p);
    }
  }

  lemma TimerTypes(s: State, p: int)
    requires 0 <= p < |s.procs|
    ensures p < |DoTimer(s).procs| && DoTimer(s).procs[p].tt == s.procs[p].tt
  {
    var c := ProcAt(s, s.current);
    WalkTypes(SetProc(s.(tick := More(s.tick)), s.current, c.(timeslice := More(c.timeslice))), 0, p);
  }

  /** A step of the idle task leaves it current or puts it into the ready list. */
  lemma IdleYields(s: State, ev: Event)
    requires Inv(s) && Running(s) && !Handle(s, ev).Crash?
    requires ProcAt(s, s.current).tt == KERNEL
    requires ev == Timer || ev.Key? || ev == OtherIrq || ev == Syscall(SysHandout)
    ensures s.current == Handle(s, ev).s.current || s.current in Handle(s, ev).s.ready
  {
    hide Inv, DoTimer, DoSyscall, Dispatch;
    match ev
    case Timer => TimerKeeps(s); YieldStays(DoTimer(s), 0);
    case Syscall(call) =>
      HandoutTs(s);
      HandoutCurrent(s);
      YieldStays(DoSyscall(s, SysHandout).s, DoSyscall(s, SysHandout).eax);
    case _ =>
  }

  lemma HandoutCurrent(s: State)
    ensures DoSyscall(s, SysHandout).s.current == s.current
  {
  }

  lemma YieldStays(s: State, eax: int)
    requires s.current != NONE && ProcAt(s, s.current).ts != SLEEPING
    ensures !DoScheduler(s, eax).Crash?
    ensures s.current == DoScheduler(s, eax).s.current || s.current in DoScheduler(s, eax).s.ready
  {
    assert (s.ready + [s.current])[|s.ready|] == s.current;
    if s.ready != [] {
      assert (s.ready + [s.current])[1..][|s.ready| - 1] == s.current;
    }
  }

  /** Along a run in which idle only yields, do_scheduler never pops an empty ready list. */
  lemma {:induction false} IdleRun(trace: seq<State>, evs: seq<Event>, idle: int, n: nat)
    requires IsRun(trace, evs) && Inv(trace[0]) && Running(trace[0]) && IdleOk(trace[0], idle) && n <= |evs|
    requires forall i :: 0 <= i < |evs| ==> IdleEvent(trace[i], idle, evs[i])
    ensures IdleOk(trace[n], idle)
    ensures forall ev :: Allowed(ev) && IdleEvent(trace[n], idle, ev) ==> Handle(trace[n], ev) != Crash(EmptyReadyList)
  {
    hide Inv, Running, Handle, Allowed, IdleOk, IdleEvent;
    RunKeeps(trace, evs, n);
    if n > 0 {
      IdleRun(trace, evs, idle, n - 1);
      RunKeeps(trace, evs, n - 1);
      RunStep(trace, evs, n - 1);
      IdleStep(trace[n - 1], evs[n - 1], idle);
    }
    forall ev | Allowed(ev) && IdleEvent(trace[n], idle, ev)
      ensures Handle(trace[n], ev) != Crash(EmptyReadyList)
    {
      IdleStep(trace[n], ev, idle);
    }
  }
}
