/** Join lists, semaphores and sleep over whole runs: nobody waiting is lost or overtaken. */
module SchedQueues {
  import opened Sequences
  import opened SchedSpec
  import opened SchedInvariant
  import opened SchedReady

  // ---- lists that a step does not touch

  lemma SchedulerLists(s: State, eax: int)
    requires !DoScheduler(s, eax).Crash?
    ensures DoScheduler(s, eax).s.joins == s.joins && DoScheduler(s, eax).s.blocked == s.blocked
    ensures DoScheduler(s, eax).s.sems == s.sems
  {
  }

  lemma {:induction false} WalkLists(s: State, i: nat)
    ensures Walk(s, i).joins == s.joins && Walk(s, i).blocked == s.blocked && Walk(s, i).sems == s.sems
    decreases |s.sleepers| - i
  {
    if i < |s.sleepers| {
      WalkLists(Charged(s, i), if Expires(s, s.sleepers[i]) then i else i + 1);
    }
  }

  lemma TimerLists(s: State)
    ensures DoTimer(s).joins == s.joins && DoTimer(s).blocked == s.blocked && DoTimer(s).sems == s.sems
  {
    var c := ProcAt(s, s.current);
    WalkLists(SetProc(s.(tick := More(s.tick)), s.current, c.(timeslice := More(c.timeslice))), 0);
  }

  // ---- join

  /** What a step may do to the list of those who wait for t: nothing, append its caller, or,
      when t itself exits, hand the whole list in order to the ready list. */
  ghost predicate JoinEffect(s: State, s1: State, t: int) {
    || ListAt(s1.joins, t) == ListAt(s.joins, t)
    || (ListAt(s1.joins, t) == ListAt(s.joins, t) + [s.current] && s1.current != s.current)
    || (t == s.current && !ProcAt(s1, t).used && ListAt(s1.joins, t) == []
        && [s1.current] + s1.ready == s.ready + ListAt(s.joins, t))
  }

  lemma ExitEffect(s: State, t: int)
    requires Inv(s) && Running(s) && !Exit(s).Crash?
    ensures JoinEffect(s, Exit(s).s, t)
  {
    hide Inv, Dispatch, Exit;
    ListedIsLive(s, s.current);
    ExitShape(s);
    ExitKeeps(s);
    ExitJoins(s);
    DispatchCase(Exited(s));
    SwitchEffect(s, Exited(s), ListAt(s.joins, s.current));
  }

  lemma ExitShape(s: State)
    requires Inv(s)
    ensures |s.procs| == |s.joins|
  {
  }

  lemma ExitJoins(s: State)
    requires 0 <= s.current < |s.procs| == |s.joins| && !Exit(s).Crash?
    ensures Exit(s).s.joins == SetList(s.joins, s.current, [])
    ensures !ProcAt(Exit(s).s, s.current).used
  {
  }

  lemma SpawnJoins(s: State)
    requires Spawn(s).Back?
    ensures Spawn(s).s.joins == s.joins && Spawn(s).s.blocked == s.blocked && Spawn(s).s.sems == s.sems
  {
  }

  lemma JoinCallEffect(s: State, pid: int, eax: int, t: int)
    requires Inv(s) && Running(s) && !Join(s, pid, eax).Crash?
    ensures JoinEffect(s, Join(s, pid, eax).s, t)
  {
    hide Inv, Dispatch;
    var i := FindPid(s.procs, pid, 0);
    FindPidRange(s.procs, pid, 0);
    if pid != 0 && i < |s.procs| && s.procs[i].used {
      ExitShape(s);
      InvShape(s);
      JoinKeeps(s, i);
      DispatchCase(Joined(s, i));
      DispatchLists(Joined(s, i));
      CurrentAwake(s);
    }
  }

  lemma DispatchLists(s: State)
    requires !Dispatch(s).Crash?
    ensures Dispatch(s).s.joins == s.joins && Dispatch(s).s.blocked == s.blocked && Dispatch(s).s.sems == s.sems
    ensures Dispatch(s).s.current in s.ready
  {
  }

  lemma CallJoins(s: State, c: Call, t: int)
    requires Inv(s) && Running(s) && Allowed(Syscall(c)) && !DoSyscall(s, c).Crash?
    ensures JoinEffect(s, DoSyscall(s, c).s, t)
  {
    hide Inv, Spawn, Exit, Join;
    match c
    case SysSpawn => SpawnJoins(s);
    case SysExit => ExitEffect(s, t);
    case SysJoin(pid) => JoinCallEffect(s, pid, 1506, t);
    case _ =>
  }

  /** A process leaves a join list only in the step its target exits, and then everybody in
      the list goes to the ready list in the order they joined, none left behind. */
  lemma JoinStep(s: State, ev: Event, t: int)
    requires Inv(s) && Running(s) && Allowed(ev) && !Handle(s, ev).Crash?
    ensures JoinEffect(s, Handle(s, ev).s, t)
  {
    hide Inv, DoTimer, DoSyscall, DoScheduler;
    match ev
    case Timer => TimerLists(s); SchedulerLists(DoTimer(s), 0);
    case Key(ctrlC) =>
      if ctrlC && ProcAt(s, s.current).tt != KERNEL {
        CallJoins(s, SysExit, t);
      }
    case Syscall(call) =>
      CallJoins(s, call, t);
      var out := DoSyscall(s, call);
      if out.Back? && out.eax != SYS_PRINT_CHAR {
        BackJoins(s, call, t);
        SchedulerLists(out.s, out.eax);
      }
    case OtherIrq =>
  }

  /** A call that returns has not changed any join list. */
  lemma BackJoins(s: State, c: Call, t: int)
    requires Allowed(Syscall(c)) && DoSyscall(s, c).Back?
    ensures DoSyscall(s, c).s.joins == s.joins
  {
  }

  /** Over a run: p stays in the list of t, and keeps its place, until the step in which t
      exits. */
  lemma {:induction false} JoinRun(trace: seq<State>, evs: seq<Event>, t: int, k: nat, n: nat)
    requires IsRun(trace, evs) && Inv(trace[0]) && Running(trace[0]) && n <= |evs|
    requires k < |ListAt(trace[0].joins, t)|
    requires forall i :: 0 <= i < n && trace[i].current == t ==> ProcAt(trace[i + 1], t).used
    ensures k < |ListAt(trace[n].joins, t)| && ListAt(trace[n].joins, t)[k] == ListAt(trace[0].joins, t)[k]
  {
    hide Inv, Running, Handle, Allowed;
    if n > 0 {
      JoinRun(trace, evs, t, k, n - 1);
      RunKeeps(trace, evs, n - 1);
      RunStep(trace, evs, n - 1);
      JoinStep(trace[n - 1], evs[n - 1], t);
    }
  }

  // ---- semaphores

  function Max0(x: int): nat { if x > 0 then x else 0 }

  /** Who blocks on semaphore j in this step, and whom it releases. */
  function Blocks(s: State, ev: Event, j: int): seq<int> {
    if ev == Syscall(SysSemWait(j)) && SemAt(s, j).used && SemAt(s, j).count - 1 < 0 then [s.current] else []
  }

  function Releases(s: State, ev: Event, j: int): seq<int> {
    if ev == Syscall(SysSemPost(j)) && SemAt(s, j).used && SemAt(s, j).count + 1 <= 0 && ListAt(s.blocked, j) != []
    then [ListAt(s.blocked, j)[0]] else []
  }

  /** Completed acquisitions: a wait that does not block, a try that succeeds, and a post
      that lets a waiter go on. */
  function Acquires(s: State, ev: Event, j: int): nat {
    if ev == Syscall(SysSemWait(j)) && SemAt(s, j).count - 1 >= 0 then 1
    else if ev == Syscall(SysSemTryWait(j)) && SemAt(s, j).count > 0 then 1
    else |Releases(s, ev, j)|
  }

  function Posts(ev: Event, j: int): nat { if ev == Syscall(SysSemPost(j)) then 1 else 0 }

  ghost predicate SemEffect(s: State, ev: Event, s1: State, j: int) {
    && SemAt(s1, j).used
    && Releases(s, ev, j) + ListAt(s1.blocked, j) == ListAt(s.blocked, j) + Blocks(s, ev, j)
    && Acquires(s, ev, j) + Max0(SemAt(s1, j).count) == Max0(SemAt(s, j).count) + Posts(ev, j)
  }

  lemma SemPostEffect(s: State, i: int, j: int)
    requires Inv(s) && 0 <= i < NR_SEMS && 0 <= j < NR_SEMS && SemAt(s, j).used
    ensures SemPost(s, i, 1602).Back? && SemEffect(s, Syscall(SysSemPost(i)), SemPost(s, i, 1602).s, j)
  {
    hide Partition, JoinsOk;
    SemPostKeeps(s, i, 1602);
    InvSem(s, j);
    var q := ListAt(s.blocked, j);
    if i == j && q != [] {
      assert [q[0]] + q[1..] == q;
    }
  }

  lemma SemWaitEffect(s: State, i: int, j: int)
    requires Inv(s) && Running(s) && 0 <= i < NR_SEMS && 0 <= j < NR_SEMS && SemAt(s, j).used
    requires !SemWait(s, i, 1603).Crash?
    ensures SemEffect(s, Syscall(SysSemWait(i)), SemWait(s, i, 1603).s, j)
  {
    hide Partition, JoinsOk, Dispatch;
    InvSem(s, j);
    if SemAt(s, i).used && SemAt(s, i).count - 1 < 0 {
      DispatchLists(Blocked(s, i));
    }
  }

  lemma CallSems(s: State, c: Call, j: int)
    requires Inv(s) && Running(s) && Allowed(Syscall(c)) && !DoSyscall(s, c).Crash?
    requires 0 <= j < NR_SEMS && SemAt(s, j).used && c != SysSemClose(j)
    ensures SemEffect(s, Syscall(c), DoSyscall(s, c).s, j)
  {
    hide Inv, Spawn, Exit, Join, SemPost, SemWait;
    match c
    case SysSpawn => SpawnJoins(s);
    case SysSemPost(i) => SemPostEffect(s, i, j);
    case SysSemWait(i) => SemWaitEffect(s, i, j);
    case SysExit => ExitSems(s);
    case SysJoin(pid) => JoinSems(s, pid, 1506);
    case SysSemTryWait(i) => SemShape(s);
    case SysSemOpen(i, count) => SemShape(s);
    case SysSemClose(i) => SemShape(s);
    case _ =>
  }

  lemma SemShape(s: State)
    requires Inv(s)
    ensures |s.sems| == NR_SEMS && |s.blocked| == NR_SEMS
  {
  }

  lemma ExitSems(s: State)
    requires !Exit(s).Crash?
    ensures Exit(s).s.blocked == s.blocked && Exit(s).s.sems == s.sems
  {
  }

  lemma JoinSems(s: State, pid: int, eax: int)
    requires !Join(s, pid, eax).Crash?
    ensures Join(s, pid, eax).s.blocked == s.blocked && Join(s, pid, eax).s.sems == s.sems
  {
  }

  /** One step, seen from an open semaphore that the step does not close: waiters leave from
      the front and arrive at the back, and the count accounts for all acquisitions. */
  lemma SemStep(s: State, ev: Event, j: int)
    requires Inv(s) && Running(s) && Allowed(ev) && !Handle(s, ev).Crash?
    requires 0 <= j < NR_SEMS && SemAt(s, j).used && ev != Syscall(SysSemClose(j))
    ensures SemEffect(s, ev, Handle(s, ev).s, j)
  {
    hide Inv, DoTimer, DoSyscall, DoScheduler;
    match ev
    case Timer => TimerLists(s); SchedulerLists(DoTimer(s), 0);
    case Key(ctrlC) =>
      if ctrlC && ProcAt(s, s.current).tt != KERNEL {
        CallSems(s, SysExit, j);
      }
    case Syscall(call) =>
      CallSems(s, call, j);
      var out := DoSyscall(s, call);
      if out.Back? && out.eax != SYS_PRINT_CHAR {
        SchedulerLists(out.s, out.eax);
      }
    case OtherIrq =>
  }

  // the same quantities over the first n steps of a run

  function AllBlocks(trace: seq<State>, evs: seq<Event>, j: int, n: nat): seq<int>
    requires n <= |evs| && n <= |trace|
  {
    if n == 0 then [] else AllBlocks(trace, evs, j, n - 1) + Blocks(trace[n - 1], evs[n - 1], j)
  }

  function AllReleases(trace: seq<State>, evs: seq<Event>, j: int, n: nat): seq<int>
    requires n <= |evs| && n <= |trace|
  {
    if n == 0 then [] else AllReleases(trace, evs, j, n - 1) + Releases(trace[n - 1], evs[n - 1], j)
  }

  function AllAcquires(trace: seq<State>, evs: seq<Event>, j: int, n: nat): nat
    requires n <= |evs| && n <= |trace|
  {
    if n == 0 then 0 else AllAcquires(trace, evs, j, n - 1) + Acquires(trace[n - 1], evs[n - 1], j)
  }

  function AllPosts(evs: seq<Event>, j: int, n: nat): nat
    requires n <= |evs|
  {
    if n == 0 then 0 else AllPosts(evs, j, n - 1) + Posts(evs[n - 1], j)
  }

  /** Over any run that does not close semaphore j: waiters are released in the order they
      blocked, a negative count is the number of waiters, and the acquisitions completed are
      exactly the initial count plus the posts minus the count that is left. */
  lemma {:induction false} SemRun(trace: seq<State>, evs: seq<Event>, j: int, n: nat)
    requires IsRun(trace, evs) && Inv(trace[0]) && Running(trace[0]) && n <= |evs|
    requires 0 <= j < NR_SEMS && SemAt(trace[0], j).used
    requires forall i :: 0 <= i < n ==> evs[i] != Syscall(SysSemClose(j))
    ensures SemAt(trace[n], j).used && SemOk(SemAt(trace[n], j), ListAt(trace[n].blocked, j))
    ensures AllReleases(trace, evs, j, n) + ListAt(trace[n].blocked, j)
         == ListAt(trace[0].blocked, j) + AllBlocks(trace, evs, j, n)
    ensures AllAcquires(trace, evs, j, n) + Max0(SemAt(trace[n], j).count)
         == Max0(SemAt(trace[0], j).count) + AllPosts(evs, j, n)
  {
    hide Inv, Running, Handle, Allowed, Blocks, Releases, Acquires;
    if n > 0 {
      SemRun(trace, evs, j, n - 1);
      RunKeeps(trace, evs, n - 1);
      RunStep(trace, evs, n - 1);
      SemStep(trace[n - 1], evs[n - 1], j);
      QueueJoin(AllReleases(trace, evs, j, n - 1), ListAt(trace[n - 1].blocked, j), ListAt(trace[0].blocked, j),
                AllBlocks(trace, evs, j, n - 1), Releases(trace[n - 1], evs[n - 1], j), ListAt(trace[n].blocked, j),
                Blocks(trace[n - 1], evs[n - 1], j));
    }
    RunKeeps(trace, evs, n);
    InvSem(trace[n], j);
  }

  lemma QueueJoin(r: seq<int>, q: seq<int>, q0: seq<int>, b: seq<int>, r1: seq<int>, q1: seq<int>, b1: seq<int>)
    requires r + q == q0 + b && r1 + q1 == q + b1
    ensures (r + r1) + q1 == q0 + (b + b1)
  {
    calc {
      (r + r1) + q1;
      r + (r1 + q1);
      r + (q + b1);
      (r + q) + b1;
      (q0 + b) + b1;
      q0 + (b + b1);
    }
  }

  /** Opening an unused semaphore gives it the count asked for; nobody waits on it. */
  lemma OpenStep(s: State, j: int, count: int)
    requires Inv(s) && Running(s) && 0 <= j < NR_SEMS && count >= 0 && !SemAt(s, j).used
    ensures !Handle(s, Syscall(SysSemOpen(j, count))).Crash?
    ensures SemAt(Handle(s, Syscall(SysSemOpen(j, count))).s, j) == Sem(true, count)
    ensures ListAt(Handle(s, Syscall(SysSemOpen(j, count))).s.blocked, j) == []
  {
    hide Partition, JoinsOk;
    InvSem(s, j);
    SemInitKeeps(s, j, count);
    RunningStays(SemInit(s, j, count), 1601);
  }

  // ---- sleep

  /** The ticks a sleeper still has to wait: its time slice, where 0 stands for a full turn
      of the 32-bit counter. */
  function Remaining(q: Proc): int { if q.timeslice == 0 then TWO_32 else q.timeslice }

  function Stay(procs: seq<Proc>, q: seq<int>): seq<int> {
    if q == [] then [] else (if Ends(procs, q[0]) then [] else [q[0]]) + Stay(procs, q[1..])
  }

  function Woken(procs: seq<Proc>, q: seq<int>): seq<int> {
    if q == [] then [] else (if Ends(procs, q[0]) then [q[0]] else []) + Woken(procs, q[1..])
  }

  predicate Ends(procs: seq<Proc>, p: int) {
    Less((if 0 <= p < |procs| then procs[p] else Proc(false, 0, 0, READY, KERNEL, 0)).timeslice) == 0
  }

  lemma {:induction false} StaySame(procs: seq<Proc>, procs1: seq<Proc>, q: seq<int>)
    requires |procs1| == |procs| && forall i :: 0 <= i < |q| && 0 <= q[i] < |procs| ==> procs1[q[i]] == procs[q[i]]
    ensures Stay(procs1, q) == Stay(procs, q) && Woken(procs1, q) == Woken(procs, q)
  {
    if q != [] {
      StaySame(procs, procs1, q[1..]);
    }
  }

  lemma WalkUnfold(s: State, i: nat)
    requires i < |s.sleepers| && Distinct(s.sleepers)
    ensures Walk(s, i) == Walk(Charged(s, i), if Ends(s.procs, s.sleepers[i]) then i else i + 1)
    ensures Charged(s, i).sleepers == if Ends(s.procs, s.sleepers[i]) then s.sleepers[..i] + s.sleepers[i + 1..] else s.sleepers
    ensures Charged(s, i).ready == if Ends(s.procs, s.sleepers[i]) then s.ready + [s.sleepers[i]] else s.ready
    ensures Distinct(Charged(s, i).sleepers)
    ensures Stay(Charged(s, i).procs, s.sleepers[i + 1..]) == Stay(s.procs, s.sleepers[i + 1..])
    ensures Woken(Charged(s, i).procs, s.sleepers[i + 1..]) == Woken(s.procs, s.sleepers[i + 1..])
  {
    hide Charge, Less;
    StaySame(s.procs, Charged(s, i).procs, s.sleepers[i + 1..]);
    WalkDistinct(s.sleepers, i);
  }

  lemma {:induction false} WalkOrder(s: State, i: nat)
    requires i <= |s.sleepers| && Distinct(s.sleepers)
    ensures Walk(s, i).sleepers == s.sleepers[..i] + Stay(s.procs, s.sleepers[i..])
    ensures Walk(s, i).ready == s.ready + Woken(s.procs, s.sleepers[i..])
    decreases |s.sleepers| - i
  {
    hide Ends, Charged, Distinct;
    if i < |s.sleepers| {
      var x, s1, rest := s.sleepers[i], Charged(s, i), s.sleepers[i + 1..];
      assert s.sleepers[i..] == [x] + rest;
      WalkUnfold(s, i);
      hide Walk;
      if Ends(s.procs, x) {
        assert s1.sleepers[i..] == rest && s1.sleepers[..i] == s.sleepers[..i];
        WalkOrder(s1, i);
        Assoc(s.ready, [x], Woken(s.procs, rest));
      } else {
        WalkOrder(s1, i + 1);
        assert s.sleepers[..i + 1] == s.sleepers[..i] + [x];
        Assoc(s.sleepers[..i], [x], Stay(s.procs, rest));
      }
    } else {
      assert s.sleepers[i..] == [];
    }
  }

  lemma Assoc(a: seq<int>, b: seq<int>, c: seq<int>)
    ensures (a + b) + c == a + (b + c)
  {
  }

  lemma {:induction false} WalkCharges(s: State, i: nat, p: int)
    requires i <= |s.sleepers| && Distinct(s.sleepers) && 0 <= p < |s.procs|
    ensures ProcAt(Walk(s, i), p) == (if p in s.sleepers[i..] then Charge(ProcAt(s, p)) else ProcAt(s, p))
    decreases |s.sleepers| - i
  {
    hide Charge, Less;
    if i < |s.sleepers| {
      var x, s1, rest := s.sleepers[i], Charged(s, i), s.sleepers[i + 1..];
      assert s.sleepers[i..] == [x] + rest;
      if Expires(s, x) {
        assert s1.sleepers[i..] == rest;
        WalkDistinct(s.sleepers, i);
        WalkCharges(s1, i, p);
      } else {
        WalkCharges(s1, i + 1, p);
      }
      assert x !in rest;
    }
  }

  lemma WalkDistinct(q: seq<int>, i: nat)
    requires Distinct(q) && i < |q|
    ensures Distinct(q[..i] + q[i + 1..])
  {
  }

  lemma SleepersDistinct(s: State)
    requires Inv(s)
    ensures Distinct(s.sleepers)
  {
    forall i, k | 0 <= i < k < |s.sleepers|
      ensures s.sleepers[i] != s.sleepers[k]
    {
      var q, x := s.sleepers, s.sleepers[k];
      assert q == q[..k] + [x] + q[k + 1..];
      if q[i] == x {
        assert q[..k][i] == x;
        assert x in multiset(q[..k]);
        assert multiset(q)[x] >= 2;
        OncePlaced(s, x);
      }
    }
  }

  /** The state do_timer hands to its walk. */
  function Ticked(s: State): State {
    var c := ProcAt(s, s.current);
    SetProc(s.(tick := More(s.tick)), s.current, c.(timeslice := More(c.timeslice)))
  }

  /** The walk of do_timer, although it deletes from the list it follows, charges each
      sleeper exactly once and nobody else, keeps the sleepers that stay in order, and
      appends those that expire to the ready list in order. */
  lemma TimerStep(s: State, p: int)
    requires Inv(s) && Running(s) && 0 <= p < POOL && p != s.current
    ensures DoTimer(s).sleepers == Stay(s.procs, s.sleepers)
    ensures DoTimer(s).ready == s.ready + Woken(s.procs, s.sleepers)
    ensures ProcAt(DoTimer(s), p) == (if p in s.sleepers then Charge(ProcAt(s, p)) else ProcAt(s, p))
  {
    hide Partition, JoinsOk, SemsOk, Walk, Charge;
    var s1 := Ticked(s);
    SleepersDistinct(s);
    CurrentAwake(s);
    WalkOrder(s1, 0);
    WalkCharges(s1, 0, p);
    StaySame(s.procs, s1.procs, s.sleepers);
    assert s.sleepers[0..] == s.sleepers && s.sleepers[..0] == [];
  }

  lemma {:induction false} StayIn(procs: seq<Proc>, q: seq<int>, p: int)
    ensures p in Stay(procs, q) <==> p in q && !Ends(procs, p)
    ensures p in Woken(procs, q) <==> p in q && Ends(procs, p)
  {
    if q != [] {
      StayIn(procs, q[1..], p);
    }
  }

  /** do_scheduler leaves the sleepers and their time alone. */
  lemma SchedulerSleepers(s: State, eax: int, p: int)
    requires Inv(s) && s.current != NONE && p != s.current && 0 <= p < |s.procs| && !DoScheduler(s, eax).Crash?
    ensures p in DoScheduler(s, eax).s.sleepers <==> p in s.sleepers
    ensures p in s.ready ==> p in DoScheduler(s, eax).s.ready || p == DoScheduler(s, eax).s.current
    ensures p in s.sleepers ==> ProcAt(DoScheduler(s, eax).s, p) == ProcAt(s, p)
  {
    SleeperNotReady(s, p);
    if p in s.ready {
      var k :| 0 <= k < |s.ready| && s.ready[k] == p;
      if k > 0 {
        assert s.ready[1..][k - 1] == p;
        assert (s.ready + [s.current])[1..][k - 1] == p;
      }
    }
  }

  lemma SleeperNotReady(s: State, p: int)
    requires Inv(s)
    ensures p in s.sleepers ==> p !in s.ready
  {
    OncePlaced(s, p);
    assert p in s.sleepers ==> multiset(s.sleepers)[p] >= 1;
    assert p in s.ready ==> multiset(s.ready)[p] >= 1;
  }

  lemma DispatchSleeper(s: State, p: int)
    requires p !in s.ready && !Dispatch(s).Crash?
    ensures Dispatch(s).s.sleepers == s.sleepers && ProcAt(Dispatch(s).s, p) == ProcAt(s, p)
  {
  }

  /** No call of another process touches a sleeper. */
  lemma CallSleeper(s: State, c: Call, p: int)
    requires Inv(s) && Running(s) && Allowed(Syscall(c)) && !DoSyscall(s, c).Crash? && p in s.sleepers
    ensures p in DoSyscall(s, c).s.sleepers && ProcAt(DoSyscall(s, c).s, p) == ProcAt(s, p)
  {
    hide Inv, Dispatch, Spawn, Exit;
    SleeperLive(s, p);
    CurrentAwake(s);
    SleeperNotReady(s, p);
    match c
    case SysSpawn => SpawnSleeper(s, p);
    case SysExit => ExitSleeper(s, p);
    case SysExec(loaded) => if loaded {
      DispatchSleeper(SetProc(s, s.current, ProcAt(s, s.current).(tt := USER)).(ready := s.ready + [s.current], current := NONE), p); }
    case SysSemWait(j) => if SemWait(s, j, 1603).Switched? { DispatchSleeper(Blocked(s, j), p); }
    case SysJoin(pid) =>
      if Join(s, pid, 1506).Switched? {
        DispatchSleeper(Joined(s, FindPid(s.procs, pid, 0)), p);
      }
    case _ =>
  }

  lemma SleeperLive(s: State, p: int)
    requires Inv(s) && p in s.sleepers
    ensures 0 <= p < |s.procs| && s.procs[p].used
  {
    assert p in multiset(s.sleepers);
    assert p in Lists(s);
    ListedIsLive(s, p);
  }

  lemma SpawnSleeper(s: State, p: int)
    requires Spawn(s).Back? && 0 <= p < |s.procs| && s.procs[p].used
    ensures Spawn(s).s.sleepers == s.sleepers && ProcAt(Spawn(s).s, p) == ProcAt(s, p)
  {
    FreeSlotRange(s.procs, 0);
  }

  lemma ExitSleeper(s: State, p: int)
    requires Inv(s) && Running(s) && !Exit(s).Crash? && p in s.sleepers && p !in s.ready && p != s.current
    ensures Exit(s).s.sleepers == s.sleepers && ProcAt(Exit(s).s, p) == ProcAt(s, p)
  {
    hide SemsOk, JoinsOk, Partition, Dispatch;
    ListedIsLive(s, s.current);
    SleeperNotJoining(s, p);
    JoinersAlive(s, s.current);
    DispatchSleeper(Exited(s), p);
  }

  lemma SleeperNotJoining(s: State, p: int)
    requires Inv(s) && p in s.sleepers && 0 <= s.current < POOL
    ensures p !in ListAt(s.joins, s.current)
  {
    OncePlaced(s, p);
    SumSet(s.joins, s.current, []);
    assert multiset(s.sleepers)[p] >= 1;
    assert p in ListAt(s.joins, s.current) ==> multiset(ListAt(s.joins, s.current))[p] >= 1;
    assert multiset(ListAt(s.joins, s.current))[p] <= Sum(s.joins)[p];
  }

  /** One step, seen from a sleeper: only a tick changes its remaining time, by one, and the
      tick that uses it up moves it to the ready list, from which it may be dispatched at once. */
  lemma SleepStep(s: State, ev: Event, p: int)
    requires Inv(s) && Running(s) && Allowed(ev) && !Handle(s, ev).Crash? && p in s.sleepers
    ensures var s1 := Handle(s, ev).s; var r := Remaining(ProcAt(s, p));
      if ev != Timer then p in s1.sleepers && Remaining(ProcAt(s1, p)) == r
      else if r > 1 then p in s1.sleepers && Remaining(ProcAt(s1, p)) == r - 1
      else p !in s1.sleepers && (p in s1.ready || p == s1.current)
  {
    hide Inv, DoTimer, DoSyscall, DoScheduler, Running;
    assert p in multiset(s.sleepers);
    assert p in Lists(s);
    ListedIsLive(s, p);
    SleeperAwake(s, p);
    match ev
    case Timer => SleepTick(s, p);
    case Key(ctrlC) =>
      if ctrlC && ProcAt(s, s.current).tt != KERNEL {
        CallSleeper(s, SysExit, p);
      }
    case Syscall(call) =>
      CallSleeper(s, call, p);
      var out := DoSyscall(s, call);
      if out.Back? && out.eax != SYS_PRINT_CHAR {
        CallKeeps(s, call);
        BackRuns(s, call);
        ProcShape(out.s);
        SchedulerSleepers(out.s, out.eax, p);
      }
    case OtherIrq =>
  }

  lemma ProcShape(s: State)
    requires Inv(s)
    ensures |s.procs| == POOL
  {
  }

  lemma SleeperAwake(s: State, p: int)
    requires Inv(s) && Running(s) && p in s.sleepers
    ensures p != s.current && s.current != NONE
  {
    CurrentAwake(s);
  }

  lemma SleepTick(s: State, p: int)
    requires Inv(s) && Running(s) && p in s.sleepers && 0 <= p < POOL && p != s.current
    requires !DoScheduler(DoTimer(s), 0).Crash?
    ensures var s1 := DoScheduler(DoTimer(s), 0).s; var r := Remaining(ProcAt(s, p));
      if r > 1 then p in s1.sleepers && Remaining(ProcAt(s1, p)) == r - 1
      else p !in s1.sleepers && (p in s1.ready || p == s1.current)
  {
    hide Inv, DoTimer, DoScheduler, Running;
    TimerStep(s, p);
    TimerKeeps(s);
    ProcShape(s);
    ProcShape(DoTimer(s));
    StayIn(s.procs, s.sleepers, p);
    assert DoTimer(s).current != NONE by { SleeperAwake(s, p); }
    SchedulerSleepers(DoTimer(s), 0, p);
  }

  /** Over a run: a sleeper sleeps on while fewer ticks pass than remain to it, and the tick
      that completes them wakes it. */
  lemma {:induction false} SleepRun(trace: seq<State>, evs: seq<Event>, p: int, n: nat)
    requires IsRun(trace, evs) && Inv(trace[0]) && Running(trace[0]) && n <= |evs| && p in trace[0].sleepers
    ensures Ticks(evs[..n]) < Remaining(ProcAt(trace[0], p)) ==>
        p in trace[n].sleepers && Remaining(ProcAt(trace[n], p)) == Remaining(ProcAt(trace[0], p)) - Ticks(evs[..n])
    ensures Ticks(evs[..n]) == Remaining(ProcAt(trace[0], p)) && n > 0 && evs[n - 1] == Timer ==>
        p !in trace[n].sleepers && (p in trace[n].ready || p == trace[n].current)
  {
    hide Inv, Running, Handle, Allowed, Remaining;
    if n == 0 {
      assert evs[..0] == [];
    } else {
      assert evs[..n][..n - 1] == evs[..n - 1] && evs[..n][n - 1] == evs[n - 1];
      SleepRun(trace, evs, p, n - 1);
      RunKeeps(trace, evs, n - 1);
      RunStep(trace, evs, n - 1);
      if p in trace[n - 1].sleepers {
        SleepStep(trace[n - 1], evs[n - 1], p);
      }
    }
  }

  /** The system call itself: sleep(units) puts its caller to sleep for units * 200 ticks,
      reduced modulo 2^32, where 0 stands for 2^32. */
  lemma SleepCall(s: State, units: U32)
    requires Inv(s) && Running(s) && !Handle(s, Syscall(SysSleep(units))).Crash?
    ensures s.current in Handle(s, Syscall(SysSleep(units))).s.sleepers
    ensures Remaining(ProcAt(Handle(s, Syscall(SysSleep(units))).s, s.current)) ==
        if units * TICKS_PER_UNIT % TWO_32 == 0 then TWO_32 else units * TICKS_PER_UNIT % TWO_32
  {
    hide SemsOk, JoinsOk, Partition;
    ListedIsLive(s, s.current);
    CurrentAwake(s);
    assert (s.sleepers + [s.current])[|s.sleepers|] == s.current;
  }

  /** A sleep of n >= 1 units without wrap ends at exactly the 200 * n-th later tick. */
  lemma SleepExact(trace: seq<State>, evs: seq<Event>, units: U32, n: nat)
    requires IsRun(trace, evs) && Inv(trace[0]) && Running(trace[0]) && 1 <= n <= |evs|
    requires evs[0] == Syscall(SysSleep(units)) && 1 <= units && units * TICKS_PER_UNIT < TWO_32
    ensures var p, t := trace[0].current, Ticks(evs[1..][..n - 1]);
      && (t < TICKS_PER_UNIT * units ==> p in trace[n].sleepers)
      && (t == TICKS_PER_UNIT * units && n > 1 && evs[n - 1] == Timer ==>
            p !in trace[n].sleepers && (p in trace[n].ready || p == trace[n].current))
  {
    hide Inv, Running, Handle, Allowed, Remaining;
    RunStep(trace, evs, 0);
    StepKeeps(trace[0], evs[0]);
    SleepCall(trace[0], units);
    assert IsRun(trace[1..], evs[1..]);
    SleepRun(trace[1..], evs[1..], trace[0].current, n - 1);
  }
}
