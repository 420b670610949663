/** Boot, and the main results about every run from it. */
module SchedBoot {
  import opened SchedSpec
  import opened SchedInvariant
  import opened SchedReady
  import opened SchedQueues

  /** The static data of the kernel: no process, no list, no semaphore. */
  ghost predicate Fresh(s: State) {
    && Shape(s) && s.current == NONE && s.nextPid == 1
    && (forall i :: 0 <= i < POOL ==> !s.procs[i].used)
    && s.ready == [] && s.sleepers == []
    && (forall t :: 0 <= t < POOL ==> s.joins[t] == [])
    && (forall j :: 0 <= j < NR_SEMS ==> !s.sems[j].used && s.blocked[j] == [])
  }

  /** pcb_create, a loader that sets the task type, and enready_pcb. */
  function Created(s: State, tt: TaskType): State {
    var i := FreeSlot(s.procs, 0);
    SetProc(s, i, ProcAt(s, i).(used := true, pid := s.nextPid, timeslice := 0, tt := tt)).(
      ready := [i] + s.ready, nextPid := More(s.nextPid))
  }

  const IDLE := 0
  const SHELL := 1

  /** main in kernel/src/kernel.c: the idle task, the shell, and the first dispatch. */
  function Boot(s: State): Outcome { Dispatch(Created(Created(s, KERNEL), USER)) }

  lemma {:induction false} SumEmpty(ls: seq<seq<int>>)
    requires forall i :: 0 <= i < |ls| ==> ls[i] == []
    ensures Sum(ls) == multiset{}
  {
    if ls != [] {
      SumEmpty(ls[1..]);
    }
  }

  lemma FreshKeeps(s: State)
    requires Fresh(s)
    ensures Inv(s)
  {
    SumEmpty(s.joins);
    SumEmpty(s.blocked);
    assert Live(s.procs) == {};
  }

  lemma CreatedKeeps(s: State, tt: TaskType)
    requires Inv(s) && FreeSlot(s.procs, 0) < POOL
    ensures Inv(Created(s, tt))
  {
    FreeSlotRange(s.procs, 0);
    var i := FreeSlot(s.procs, 0);
    LiveMore(s.procs, i, Created(s, tt).procs[i]);
  }

  /** After boot the shell runs, the idle task is ready, and the invariant holds. */
  lemma BootRuns(s: State)
    requires Fresh(s)
    ensures Boot(s).Switched? && Inv(Boot(s).s) && Running(Boot(s).s)
    ensures Boot(s).s.current == SHELL && Boot(s).s.ready == [IDLE] && IdleOk(Boot(s).s, IDLE)
  {
    hide Inv;
    FreshKeeps(s);
    FreeSlotRange(s.procs, 0);
    CreatedKeeps(s, KERNEL);
    var s1 := Created(s, KERNEL);
    FreeSlotRange(s1.procs, 0);
    CreatedKeeps(s1, USER);
    DispatchKeeps(Created(s1, USER));
  }

  /** A run of the machine: from boot, with semaphores used as the kernel offers them and
      an idle task that only yields. */
  ghost predicate KernelRun(s0: State, trace: seq<State>, evs: seq<Event>) {
    && Fresh(s0) && IsRun(trace, evs) && Boot(s0).Switched? && trace[0] == Boot(s0).s
    && (forall i :: 0 <= i < |evs| ==> IdleEvent(trace[i], IDLE, evs[i]))
  }

  /** How many places hold process p: `current`, and every occurrence in any list. */
  ghost function Places(s: State, p: int): nat { (Lists(s) + Cur(s))[p] }

  /** The main result: in every state of every run from boot, a process is in exactly one
      place if it is live and in none otherwise, nobody waits for an unused slot, every
      semaphore's count tells its waiters, a process runs, and do_scheduler will not find the
      ready list empty whatever happens next. */
  lemma EveryRun(s0: State, trace: seq<State>, evs: seq<Event>, n: nat, p: int)
    requires KernelRun(s0, trace, evs) && n <= |evs| && 0 <= p < POOL
    ensures Places(trace[n], p) == if ProcAt(trace[n], p).used then 1 else 0
    ensures !ProcAt(trace[n], p).used ==> ListAt(trace[n].joins, p) == []
    ensures SemsOk(trace[n]) && Running(trace[n])
    ensures forall ev :: Allowed(ev) && IdleEvent(trace[n], IDLE, ev) ==>
        !Handle(trace[n], ev).Crash? || Handle(trace[n], ev).why == PoolFull
  {
    hide Inv, Running, Handle, Allowed, IdleOk, IdleEvent, Boot, Fresh;
    BootRuns(s0);
    RunKeeps(trace, evs, n);
    IdleRun(trace, evs, IDLE, n);
    InvPlaces(trace[n], p);
    forall ev | Allowed(ev) && IdleEvent(trace[n], IDLE, ev)
      ensures !Handle(trace[n], ev).Crash? || Handle(trace[n], ev).why == PoolFull
    {
      StepKeeps(trace[n], ev);
    }
  }

  lemma InvPlaces(s: State, p: int)
    requires Inv(s) && 0 <= p < POOL
    ensures Places(s, p) == if ProcAt(s, p).used then 1 else 0
    ensures !ProcAt(s, p).used ==> ListAt(s.joins, p) == []
    ensures SemsOk(s)
  {
    hide Lists;
    assert p in Live(s.procs) <==> s.procs[p].used;
  }
}
