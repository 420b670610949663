/** Processes, scheduling, semaphores, sleep and join, as one transition function.

    Interrupts are off while the kernel runs, so each interrupt or system call is one
    atomic step of irq_handle (kernel/src/irq/irq_handle.c).  A process is the index of its
    PCB in PCBPool; the intrusive lists are sequences here, and pointers in module Kernel. */
module SchedSpec {

  const POOL := 1000           // PCBPOOLMAX
  const NR_SEMS := 1000
  const TWO_32 := 0x1_0000_0000
  const SYS_PRINT_CHAR := 1000
  const TICKS_PER_UNIT := 200  // SYS_SLEEP counts units of 200 ticks

  type U32 = x: int | 0 <= x < TWO_32

  const NONE := -1

  datatype TaskState = READY | RUNNING | STOP | SLEEPING
  datatype TaskType = KERNEL | USER | THREAD

  datatype Proc = Proc(used: bool, pid: U32, ppid: U32, ts: TaskState, tt: TaskType, timeslice: U32)

  datatype Sem = Sem(used: bool, count: int)

  /** `joins[t]` are the processes waiting for process t to exit, `blocked[j]` those waiting
      on semaphore j; all lists are in the order of arrival. */
  datatype State = State(procs: seq<Proc>, current: int,
                         ready: seq<int>, sleepers: seq<int>, joins: seq<seq<int>>,
                         sems: seq<Sem>, blocked: seq<seq<int>>, nextPid: U32, tick: U32)

  datatype Fault = EmptyReadyList | PoolFull | NobodyBlocked

  /** How a kernel function ends: with a dereference outside its data, by switching to
      another process and never returning, or by returning to its caller. */
  datatype Outcome = Crash(why: Fault) | Switched(s: State) | Back(s: State, eax: int)

  // ---- updates

  function SetProc(s: State, p: int, q: Proc): State {
    if 0 <= p < |s.procs| then s.(procs := s.procs[p := q]) else s
  }

  function ProcAt(s: State, p: int): Proc {
    if 0 <= p < |s.procs| then s.procs[p] else Proc(false, 0, 0, READY, KERNEL, 0)
  }

  function ListAt(ls: seq<seq<int>>, i: int): seq<int> {
    if 0 <= i < |ls| then ls[i] else []
  }

  function SetList(ls: seq<seq<int>>, i: int, q: seq<int>): seq<seq<int>> {
    if 0 <= i < |ls| then ls[i := q] else ls
  }

  function SemAt(s: State, j: int): Sem {
    if 0 <= j < |s.sems| then s.sems[j] else Sem(false, 0)
  }

  function SetSem(s: State, j: int, x: Sem): State {
    if 0 <= j < |s.sems| then s.(sems := s.sems[j := x]) else s
  }

  // ---- kernel/src/scheduler.c

  /** do_scheduler with no current process. */
  function Dispatch(s: State): (out: Outcome)
    ensures !out.Back?
  {
    if s.ready == [] then Crash(EmptyReadyList) else
    var p := s.ready[0];
    Switched(SetProc(s.(current := p, ready := s.ready[1..]), p, ProcAt(s, p).(ts := RUNNING, timeslice := 0)))
  }

  function DoScheduler(s: State, eax: int): Outcome {
    if s.current == NONE then Dispatch(s)
    else if ProcAt(s, s.current).ts == SLEEPING then
      Dispatch(s.(sleepers := s.sleepers + [s.current], current := NONE))
    else if ProcAt(s, s.current).timeslice > 2 || ProcAt(s, s.current).ts == STOP then
      Dispatch(SetProc(s, s.current, ProcAt(s, s.current).(ts := READY)).(ready := s.ready + [s.current], current := NONE))
    else Back(s, eax)
  }

  // ---- kernel/src/timer.c

  function Less(x: U32): U32 { (x + TWO_32 - 1) % TWO_32 }

  function More(x: U32): U32 { (x + 1) % TWO_32 }

  /** One sleeper is charged one tick; it expires when its time reaches zero. */
  function Charge(q: Proc): Proc {
    if Less(q.timeslice) > 0 then q.(timeslice := Less(q.timeslice))
    else q.(timeslice := Less(q.timeslice), ts := READY)
  }

  predicate Expires(s: State, p: int) { Less(ProcAt(s, p).timeslice) == 0 }

  /** The walk over the sleepers from position i: those that expire move to the tail of the
      ready list, in order. */
  function Walk(s: State, i: nat): State
    decreases |s.sleepers| - i
  {
    if i >= |s.sleepers| then s else
    var p := s.sleepers[i];
    var s1 := SetProc(s, p, Charge(ProcAt(s, p)));
    if Expires(s, p) then Walk(s1.(sleepers := s.sleepers[..i] + s.sleepers[i + 1..], ready := s.ready + [p]), i)
    else Walk(s1, i + 1)
  }

  function DoTimer(s: State): State {
    var c := ProcAt(s, s.current);
    Walk(SetProc(s.(tick := More(s.tick)), s.current, c.(timeslice := More(c.timeslice))), 0)
  }

  // ---- kernel/src/process.c

  /** The first unused slot of the pool, or POOL. */
  function FreeSlot(procs: seq<Proc>, i: nat): nat
    decreases |procs| - i
  {
    if i >= |procs| then i else if !procs[i].used then i else FreeSlot(procs, i + 1)
  }

  /** The first slot with the given process id, or the length of the pool. */
  function FindPid(procs: seq<Proc>, pid: int, i: nat): nat
    decreases |procs| - i
  {
    if i >= |procs| then i else if procs[i].pid == pid then i else FindPid(procs, pid, i + 1)
  }

  /** fork_current, and thread_current as far as lists and PCBs are concerned: the son gets
      the first unused slot and goes to the front of the ready list. */
  function Spawn(s: State): (out: Outcome)
    ensures !out.Switched?
  {
    var i := FreeSlot(s.procs, 0);
    if i >= |s.procs| then Crash(PoolFull) else
    var c, was := ProcAt(s, s.current), s.procs[i];
    var son := Proc(true, s.nextPid, c.pid, if c.tt == KERNEL then c.ts else was.ts, c.tt, c.timeslice);
    Back(SetProc(s, i, son).(ready := [i] + s.ready, nextPid := More(s.nextPid)), s.nextPid)
  }

  function Alive(procs: seq<Proc>, q: seq<int>): seq<int> {
    if q == [] then [] else
    (if 0 <= q[0] < |procs| && procs[q[0]].used then [q[0]] else []) + Alive(procs, q[1..])
  }

  /** exit_current */
  function Exit(s: State): Outcome {
    var c := s.current;
    Dispatch(SetProc(s.(ready := s.ready + Alive(s.procs, ListAt(s.joins, c)), joins := SetList(s.joins, c, []), current := NONE),
                     c, ProcAt(s, c).(used := false)))
  }

  /** join_current */
  function Join(s: State, pid: int, eax: int): Outcome {
    if pid == 0 then Back(s, eax) else
    var i := FindPid(s.procs, pid, 0);
    if i >= |s.procs| || !s.procs[i].used then Back(s, eax) else
    Dispatch(s.(joins := SetList(s.joins, i, ListAt(s.joins, i) + [s.current]), current := NONE))
  }

  /** exec_current; `loaded` says whether the file was executable. */
  function Exec(s: State, loaded: bool, eax: int): Outcome {
    if !loaded then Back(s, eax)
    else Dispatch(SetProc(s, s.current, ProcAt(s, s.current).(tt := USER)).(ready := s.ready + [s.current], current := NONE))
  }

  // ---- kernel/src/semaphore.c

  function SemInit(s: State, j: int, count: int): State {
    if SemAt(s, j).used then s else SetSem(s, j, Sem(true, count))
  }

  function SemClose(s: State, j: int): State {
    if !SemAt(s, j).used then s else
    SetSem(s, j, SemAt(s, j).(used := false)).(ready := s.ready + ListAt(s.blocked, j), blocked := SetList(s.blocked, j, []))
  }

  function SemPost(s: State, j: int, eax: int): Outcome {
    if !SemAt(s, j).used then Back(s, eax) else
    var s1 := SetSem(s, j, Sem(true, SemAt(s, j).count + 1));
    if SemAt(s, j).count + 1 > 0 then Back(s1, eax)
    else if ListAt(s.blocked, j) == [] then Crash(NobodyBlocked)
    else Back(s1.(ready := s.ready + [ListAt(s.blocked, j)[0]], blocked := SetList(s.blocked, j, ListAt(s.blocked, j)[1..])), eax)
  }

  function SemWait(s: State, j: int, eax: int): Outcome {
    if !SemAt(s, j).used then Back(s, eax) else
    var s1 := SetSem(s, j, Sem(true, SemAt(s, j).count - 1));
    if SemAt(s, j).count - 1 >= 0 then Back(s1, eax)
    else Dispatch(s1.(blocked := SetList(s.blocked, j, ListAt(s.blocked, j) + [s.current]), current := NONE))
  }

  function SemTryWait(s: State, j: int): Outcome {
    if !SemAt(s, j).used then Back(s, -1)
    else if SemAt(s, j).count <= 0 then Back(s, 0)
    else Back(SetSem(s, j, Sem(true, SemAt(s, j).count - 1)), 1)
  }

  // ---- kernel/src/do_syscall.c

  /** The system calls; `Other` are those that touch no process state and return `eax`. */
  datatype Call =
    | SysExec(loaded: bool)
    | SysSemOpen(j: int, count: int) | SysSemPost(j: int) | SysSemWait(j: int)
    | SysSemTryWait(j: int) | SysSemClose(j: int) | SysSemGet(j: int)
    | SysSpawn | SysJoin(pid: U32) | SysSleep(units: U32) | SysHandout | SysExit
    | SysPrintChar | Other(eax: int)

  /** &sems[j], which SYS_SEM_OPEN returns; where the linker puts the array does not matter, as
      long as it is in the kernel's half of the address space. */
  const SEMS := 0xC010_0000
  const SEM_SIZE := 12

  function SemAddress(j: int): int { SEMS + SEM_SIZE * j }

  /** The call number, which stays in eax when the call returns no value. */
  function Number(c: Call): int {
    match c
    case SysExec(_) => 1900
    case SysSemOpen(_, _) => 1601
    case SysSemPost(_) => 1602
    case SysSemWait(_) => 1603
    case SysSemTryWait(_) => 1606
    case SysSemClose(_) => 1604
    case SysSemGet(_) => 1605
    case SysSpawn => 1504
    case SysJoin(_) => 1506
    case SysSleep(_) => 1502
    case SysHandout => 1500
    case SysExit => 1503
    case SysPrintChar => SYS_PRINT_CHAR
    case Other(eax) => eax
  }

  function DoSyscall(s: State, c: Call): Outcome {
    var cur := ProcAt(s, s.current);
    match c
    case SysExec(loaded) => Exec(s, loaded, Number(c))
    case SysSemOpen(j, count) => Back(SemInit(s, j, count), SemAddress(j))
    case SysSemPost(j) => SemPost(s, j, Number(c))
    case SysSemWait(j) => SemWait(s, j, Number(c))
    case SysSemTryWait(j) => SemTryWait(s, j)
    case SysSemClose(j) => Back(SemClose(s, j), Number(c))
    case SysSemGet(j) => Back(s, if SemAt(s, j).used then SemAt(s, j).count else 0)
    case SysSpawn => Spawn(s)
    case SysJoin(pid) => Join(s, pid, Number(c))
    case SysSleep(units) =>
      Back(SetProc(s, s.current, cur.(ts := SLEEPING, timeslice := units * TICKS_PER_UNIT % TWO_32)), Number(c))
    case SysHandout => Back(SetProc(s, s.current, cur.(ts := STOP)), Number(c))
    case SysExit => Exit(s)
    case SysPrintChar => Back(s, Number(c))
    case Other(eax) => Back(s, eax)
  }

  // ---- kernel/src/irq/irq_handle.c

  /** A timer tick, a key (with or without ctrl-c held), a system call, or any other vector. */
  datatype Event = Timer | Key(ctrlC: bool) | Syscall(call: Call) | OtherIrq

  function Handle(s: State, ev: Event): Outcome {
    match ev
    case Timer => DoScheduler(DoTimer(s), 0)
    case Key(ctrlC) => if ctrlC && ProcAt(s, s.current).tt != KERNEL then DoSyscall(s, SysExit) else Back(s, 0)
    case Syscall(call) =>
      var out := DoSyscall(s, call);
      if out.Back? && out.eax != SYS_PRINT_CHAR then DoScheduler(out.s, out.eax) else out
    case OtherIrq => Back(s, 0)
  }

  /** The state after a step that did not crash. */
  function Next(s: State, ev: Event): State {
    var out := Handle(s, ev);
    if out.Crash? then s else out.s
  }
}
