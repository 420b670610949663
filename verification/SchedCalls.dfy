/** What every interrupt and system call does, seen from outside irq_handle: the whole next
    state, who runs, and what the caller is answered. */
module SchedCalls {
  import opened Sequences
  import opened SchedSpec
  import opened SchedInvariant
  import opened SchedReady
  import opened SchedQueues

  /** The head of t's ready list runs next, with a new turn; nothing else differs from t. */
  ghost predicate Turn(t: State, out: Outcome) {
    if t.ready == [] then out == Crash(EmptyReadyList)
    else
      var p := t.ready[0];
      && 0 <= p < |t.procs|
      && out == Switched(t.(current := p, ready := t.ready[1..], procs := t.procs[p := t.procs[p].(ts := RUNNING, timeslice := 0)]))
  }

  /** The caller goes on with this answer, and the state is t. */
  predicate GoesOn(t: State, out: Outcome, answer: int) { out == Back(t, answer) }

  lemma Basics(s: State)
    requires Inv(s) && Running(s)
    ensures |s.procs| == POOL && |s.joins| == POOL && |s.sems| == NR_SEMS && |s.blocked| == NR_SEMS
    ensures 0 <= s.current < POOL && s.procs[s.current].used && s.procs[s.current].ts == RUNNING && s.procs[s.current].timeslice <= 2
    ensures forall i :: 0 <= i < |s.ready| ==> 0 <= s.ready[i] < POOL
  {
    ListedIsLive(s, s.current);
    ReadyInRange(s);
  }

  lemma Dispatched(t: State)
    requires t.ready == [] || 0 <= t.ready[0] < |t.procs|
    ensures Turn(t, Dispatch(t))
  {
  }

  /** Whatever was current before, the outcome is the same but for the field `current`. */
  lemma TurnFrom(t: State, c: int, out: Outcome)
    requires Turn(t.(current := c), out)
    ensures Turn(t, out)
  {
  }

  // ---- join

  /** t is the least slot with this process id. */
  predicate FirstWith(s: State, pid: int, t: int) {
    0 <= t < |s.procs| && s.procs[t].pid == pid && forall k :: 0 <= k < t ==> s.procs[k].pid != pid
  }

  lemma {:induction false} FindPidLeast(procs: seq<Proc>, pid: int, i: nat)
    requires i <= |procs|
    ensures forall k :: i <= k < FindPid(procs, pid, i) && k < |procs| ==> procs[k].pid != pid
    decreases |procs| - i
  {
    if i < |procs| && procs[i].pid != pid {
      FindPidLeast(procs, pid, i + 1);
    }
  }

  /** Joining a process that is in use: the caller goes to the end of its list and gives up the
      processor to the head of the ready list; no other list changes. */
  lemma JoinWaits(s: State, pid: U32, t: int)
    requires Inv(s) && Running(s) && pid != 0 && FirstWith(s, pid, t) && s.procs[t].used
    ensures t < |s.joins| && Turn(s.(joins := s.joins[t := s.joins[t] + [s.current]]), Handle(s, Syscall(SysJoin(pid))))
  {
    hide Inv, Running, Dispatch;
    Basics(s);
    FindPidRange(s.procs, pid, 0);
    FindPidLeast(s.procs, pid, 0);
    assert FindPid(s.procs, pid, 0) == t;
    var s1 := s.(joins := s.joins[t := s.joins[t] + [s.current]], current := NONE);
    Dispatched(s1);
    TurnFrom(s.(joins := s1.joins), NONE, Dispatch(s1));
  }

  /** Joining number 0, a number that no slot has, or one whose slot is not in use: nothing. */
  lemma JoinReturns(s: State, pid: U32)
    requires Inv(s) && Running(s)
    requires forall t :: pid != 0 && FirstWith(s, pid, t) ==> !s.procs[t].used
    ensures GoesOn(s, Handle(s, Syscall(SysJoin(pid))), 1506)
  {
    hide Inv;
    FindPidRange(s.procs, pid, 0);
    FindPidLeast(s.procs, pid, 0);
    var t := FindPid(s.procs, pid, 0);
    assert t < |s.procs| ==> FirstWith(s, pid, t);
    RunningStays(s, 1506);
  }

  /** Over a run: who has joined a process does not run again before that process exits. */
  lemma JoinBlocks(trace: seq<State>, evs: seq<Event>, pid: U32, t: int, n: nat)
    requires IsRun(trace, evs) && Inv(trace[0]) && Running(trace[0]) && 1 <= n <= |evs|
    requires evs[0] == Syscall(SysJoin(pid)) && pid != 0 && FirstWith(trace[0], pid, t) && trace[0].procs[t].used
    requires forall i :: 1 <= i < n && trace[i].current == t ==> ProcAt(trace[i + 1], t).used
    ensures trace[n].current != trace[0].current && trace[0].current in ListAt(trace[n].joins, t)
  {
    hide Inv, Running, Handle, Allowed, FirstWith;
    var s, p := trace[0], trace[0].current;
    JoinWaits(s, pid, t);
    RunStep(trace, evs, 0);
    RunKeeps(trace, evs, 1);
    var q := ListAt(trace[1].joins, t);
    assert 0 <= t by { FirstRange(s, pid, t); }
    assert q == s.joins[t] + [p];
    var tr, es := trace[1..], evs[1..];
    assert IsRun(tr, es);
    assert ListAt(tr[0].joins, t)[|s.joins[t]|] == p;
    JoinRun(tr, es, t, |s.joins[t]|, n - 1);
    assert tr[n - 1] == trace[n];
    RunKeeps(trace, evs, n);
    JoinerAway(trace[n], t, p);
  }

  lemma FirstRange(s: State, pid: int, t: int)
    requires FirstWith(s, pid, t)
    ensures 0 <= t < |s.procs|
  {
  }

  /** Who is in a join list is not current. */
  lemma JoinerAway(s: State, t: int, p: int)
    requires Inv(s) && Running(s) && p in ListAt(s.joins, t)
    ensures s.current != p
  {
    hide Running;
    OncePlaced(s, p);
    SumSet(s.joins, t, []);
    assert multiset(ListAt(s.joins, t))[p] >= 1;
    assert Sum(s.joins)[p] >= 1;
    assert s.current == p ==> s.current != NONE by { if p == NONE { assert p in Lists(s); ListedIsLive(s, p); } }
  }

  /** The exit wakes them: each is running or ready right after it. */
  lemma ExitWakes(s: State, ev: Event, t: int, p: int)
    requires Inv(s) && Running(s) && Allowed(ev) && !Handle(s, ev).Crash? && p in ListAt(s.joins, t)
    requires t == s.current && !ProcAt(Handle(s, ev).s, t).used
    ensures p == Handle(s, ev).s.current || p in Handle(s, ev).s.ready
  {
    hide Inv, Running, Handle, Allowed;
    var s1 := Handle(s, ev).s;
    JoinStep(s, ev, t);
    StepKeeps(s, ev);
    UnusedList(s1, t);
    assert p in s.ready + ListAt(s.joins, t);
    assert p in [s1.current] + s1.ready;
  }

  lemma UnusedList(s: State, t: int)
    requires Inv(s) && !ProcAt(s, t).used
    ensures ListAt(s.joins, t) == []
  {
  }

  // ---- exit and the keyboard

  /** Ctrl-c is an exit for a process that is not the kernel's. */
  predicate Exits(s: State, ev: Event) {
    ev == Syscall(SysExit) || (ev == Key(true) && ProcAt(s, s.current).tt != KERNEL)
  }

  /** An exit releases the slot, hands all joiners to the ready list in order, and dispatches. */
  lemma ExitGoes(s: State, ev: Event)
    requires Inv(s) && Running(s) && Exits(s, ev)
    ensures 0 <= s.current < |s.procs| == |s.joins|
    ensures var c := s.current;
      Turn(s.(procs := s.procs[c := s.procs[c].(used := false)], joins := s.joins[c := []], ready := s.ready + s.joins[c]), Handle(s, ev))
  {
    hide Inv, Running, Dispatch;
    Basics(s);
    var c := s.current;
    JoinersAlive(s, c);
    ExitKeeps(s);
    ReadyInRange(Exited(s));
    var t := s.(procs := s.procs[c := s.procs[c].(used := false)], joins := s.joins[c := []], ready := s.ready + s.joins[c]);
    assert Exited(s) == t.(current := NONE);
    Dispatched(Exited(s));
    TurnFrom(t, NONE, Dispatch(Exited(s)));
  }

  /** Any other key, and any other vector, changes nothing. */
  lemma NothingElse(s: State, ev: Event)
    requires ev == OtherIrq || (ev.Key? && !Exits(s, ev))
    ensures GoesOn(s, Handle(s, ev), 0)
  {
  }

  // ---- fork, exec, sleep, yield

  /** The child takes the least free slot and the next process id, which is the answer; it has
      its parent's id, type and time slice, and stands in front of the ready list. */
  lemma SpawnMakes(s: State, i: int)
    requires Inv(s) && Running(s) && 0 <= i < POOL && !s.procs[i].used && forall k :: 0 <= k < i ==> s.procs[k].used
    ensures 0 <= s.current < |s.procs|
    ensures var c := s.procs[s.current];
      var child := Proc(true, s.nextPid, c.pid, if c.tt == KERNEL then RUNNING else s.procs[i].ts, c.tt, c.timeslice);
      GoesOn(s.(procs := s.procs[i := child], ready := [i] + s.ready, nextPid := (s.nextPid + 1) % 0x1_0000_0000),
             Handle(s, Syscall(SysSpawn)), s.nextPid)
  {
    hide Inv;
    Basics(s);
    FreeSlotRange(s.procs, 0);
    assert FreeSlot(s.procs, 0) == i;
    RunningStays(Spawn(s).s, s.nextPid);
  }

  /** Without a free slot the source runs past the end of the pool. */
  lemma SpawnFull(s: State)
    requires Inv(s) && Running(s) && forall k :: 0 <= k < POOL ==> s.procs[k].used
    ensures Handle(s, Syscall(SysSpawn)) == Crash(PoolFull)
  {
    hide Inv;
    Basics(s);
    FreeSlotRange(s.procs, 0);
  }

  /** exec of a file that loads: a user process, at the end of the ready list; of one that does
      not: the caller goes on. */
  lemma ExecGoes(s: State)
    requires Inv(s) && Running(s)
    ensures 0 <= s.current < |s.procs|
    ensures Turn(s.(procs := s.procs[s.current := s.procs[s.current].(tt := USER)], ready := s.ready + [s.current]),
                 Handle(s, Syscall(SysExec(true))))
    ensures GoesOn(s, Handle(s, Syscall(SysExec(false))), 1900)
  {
    hide Inv, Dispatch;
    Basics(s);
    var t := s.(procs := s.procs[s.current := s.procs[s.current].(tt := USER)], ready := s.ready + [s.current]);
    Dispatched(t.(current := NONE));
    TurnFrom(t, NONE, Dispatch(t.(current := NONE)));
  }

  /** SYS_SLEEP: the caller goes to the end of the sleepers, with 200 ticks a unit. */
  lemma SleepGoes(s: State, units: U32)
    requires Inv(s) && Running(s)
    ensures 0 <= s.current < |s.procs|
    ensures var x := s.procs[s.current].(ts := SLEEPING, timeslice := 200 * units % 0x1_0000_0000);
      Turn(s.(procs := s.procs[s.current := x], sleepers := s.sleepers + [s.current]), Handle(s, Syscall(SysSleep(units))))
  {
    hide Inv, Dispatch;
    Basics(s);
    var x := s.procs[s.current].(ts := SLEEPING, timeslice := 200 * units % 0x1_0000_0000);
    var t := s.(procs := s.procs[s.current := x], sleepers := s.sleepers + [s.current]);
    Dispatched(t.(current := NONE));
    TurnFrom(t, NONE, Dispatch(t.(current := NONE)));
  }

  /** SYS_HANDOUT: the caller goes to the end of the ready list. */
  lemma HandoutGoes(s: State)
    requires Inv(s) && Running(s)
    ensures 0 <= s.current < |s.procs|
    ensures Turn(s.(procs := s.procs[s.current := s.procs[s.current].(ts := READY)], ready := s.ready + [s.current]),
                 Handle(s, Syscall(SysHandout)))
  {
    hide Inv, Dispatch;
    Basics(s);
    var t := s.(procs := s.procs[s.current := s.procs[s.current].(ts := READY)], ready := s.ready + [s.current]);
    Dispatched(t.(current := NONE));
    TurnFrom(t, NONE, Dispatch(t.(current := NONE)));
    var y := s.procs[s.current];
    assert s.procs[s.current := y.(ts := STOP)][s.current := y.(ts := READY)] == t.procs;
  }

  /** The other calls answer and change no process. */
  lemma OtherGoes(s: State, answer: int)
    requires Inv(s) && Running(s)
    ensures GoesOn(s, Handle(s, Syscall(Other(answer))), answer) && GoesOn(s, Handle(s, Syscall(SysPrintChar)), 1000)
  {
    hide Inv;
  }

  // ---- semaphores

  /** Opening sets the count of an unused semaphore only; the answer is its address. */
  lemma SemOpens(s: State, j: int, count: int)
    requires Inv(s) && Running(s) && 0 <= j < NR_SEMS
    ensures j < |s.sems|
    ensures GoesOn(if s.sems[j].used then s else s.(sems := s.sems[j := Sem(true, count)]),
                   Handle(s, Syscall(SysSemOpen(j, count))), 0xC010_0000 + 12 * j)
  {
    hide Inv;
    Basics(s);
  }

  /** A post counts up; while processes wait, it hands the first of them to the ready list. */
  lemma SemPosts(s: State, j: int)
    requires Inv(s) && Running(s) && 0 <= j < NR_SEMS
    ensures j < |s.sems| == |s.blocked| && (s.sems[j].used && s.sems[j].count < 0 ==> s.blocked[j] != [])
    ensures var x, q := s.sems[j], s.blocked[j]; var s1 := s.(sems := s.sems[j := x.(count := x.count + 1)]);
      GoesOn(if !x.used then s else if x.count >= 0 then s1 else s1.(ready := s.ready + [q[0]], blocked := s.blocked[j := q[1..]]),
             Handle(s, Syscall(SysSemPost(j))), 1602)
  {
    hide Inv;
    Basics(s);
    InvSem(s, j);
  }

  /** A wait counts down; below zero the caller goes to the end of the list and gives up the
      processor. */
  lemma SemWaits(s: State, j: int)
    requires Inv(s) && Running(s) && 0 <= j < NR_SEMS
    ensures j < |s.sems| == |s.blocked|
    ensures var x := s.sems[j]; var s1 := s.(sems := s.sems[j := x.(count := x.count - 1)]);
      var out := Handle(s, Syscall(SysSemWait(j)));
      if !x.used then GoesOn(s, out, 1603)
      else if x.count > 0 then GoesOn(s1, out, 1603)
      else Turn(s1.(blocked := s.blocked[j := s.blocked[j] + [s.current]]), out)
  {
    hide Inv, Dispatch;
    Basics(s);
    var t := s.(sems := s.sems[j := s.sems[j].(count := s.sems[j].count - 1)], blocked := s.blocked[j := s.blocked[j] + [s.current]]);
    Dispatched(t.(current := NONE));
    TurnFrom(t, NONE, Dispatch(t.(current := NONE)));
  }

  /** A try never waits: -1 for an unused semaphore, 0 without success, 1 with. */
  lemma SemTries(s: State, j: int)
    requires Inv(s) && Running(s) && 0 <= j < NR_SEMS
    ensures j < |s.sems|
    ensures var x := s.sems[j]; var out := Handle(s, Syscall(SysSemTryWait(j)));
      if !x.used then GoesOn(s, out, -1)
      else if x.count <= 0 then GoesOn(s, out, 0)
      else GoesOn(s.(sems := s.sems[j := x.(count := x.count - 1)]), out, 1)
  {
    hide Inv;
    Basics(s);
  }

  /** Closing hands all who wait to the ready list, in order, and leaves nobody behind. */
  lemma SemCloses(s: State, j: int)
    requires Inv(s) && Running(s) && 0 <= j < NR_SEMS
    ensures j < |s.sems| == |s.blocked|
    ensures GoesOn(if !s.sems[j].used then s
                   else s.(sems := s.sems[j := s.sems[j].(used := false)], ready := s.ready + s.blocked[j], blocked := s.blocked[j := []]),
                   Handle(s, Syscall(SysSemClose(j))), 1604)
  {
    hide Inv;
    Basics(s);
  }

  lemma SemGets(s: State, j: int)
    requires Inv(s) && Running(s) && 0 <= j < NR_SEMS
    ensures j < |s.sems| && GoesOn(s, Handle(s, Syscall(SysSemGet(j))), if s.sems[j].used then s.sems[j].count else 0)
  {
    hide Inv;
    Basics(s);
  }

  // ---- the timer

  /** A tick: the sleepers are charged and those that expire follow the ready list in order;
      a turn of three ticks is over, and only then the processor goes to the next. */
  lemma TickGoes(s: State)
    requires Inv(s) && Running(s)
    ensures 0 <= s.current < |s.procs|
    ensures var c, out, ready := s.procs[s.current], Handle(s, Timer), s.ready + Woken(s.procs, s.sleepers);
      && !out.Crash? && out.s.sleepers == Stay(s.procs, s.sleepers)
      && out.s.joins == s.joins && out.s.blocked == s.blocked && out.s.sems == s.sems && out.s.nextPid == s.nextPid
      && out.s.tick == (s.tick + 1) % 0x1_0000_0000
      && (if c.timeslice < 2
          then out.Back? && out.eax == 0 && out.s.current == s.current && out.s.ready == ready
               && ProcAt(out.s, s.current) == c.(timeslice := c.timeslice + 1)
          else out.Switched? && [out.s.current] + out.s.ready == ready + [s.current]
               && (out.s.current != s.current ==> ProcAt(out.s, s.current) == c.(timeslice := c.timeslice + 1, ts := READY)))
  {
    hide Inv, Woken, Stay;
    Basics(s);
    TimerStepCurrent(s);
    TimerKeeps(s);
    TimerLists(s);
    TimerNumbers(s);
    var t := DoTimer(s);
    InvShape(t);
    ReadyInRange(t);
    hide DoTimer;
    if s.procs[s.current].timeslice >= 2 {
      assert t.ready + [s.current] == [(t.ready + [s.current])[0]] + (t.ready + [s.current])[1..];
    }
  }

  /** A sleeper with one tick left wakes: it is ready, or it runs at once. */
  lemma TickWakes(s: State, p: int)
    requires Inv(s) && Running(s) && p in s.sleepers && ProcAt(s, p).timeslice == 1
    ensures var out := Handle(s, Timer);
      && !out.Crash? && p !in out.s.sleepers
      && (if p == out.s.current then ProcAt(out.s, p).ts == RUNNING else p in out.s.ready && ProcAt(out.s, p).ts == READY)
  {
    hide Inv, Woken, Stay, DoTimer;
    TickGoes(s);
    SleepStep(s, Timer, p);
    SleeperLive(s, p);
    SleeperAwake(s, p);
    InvShape(s);
    TimerStep(s, p);
    TimerKeeps(s);
    StepKeeps(s, Timer);
  }

  lemma TimerStepCurrent(s: State)
    requires Inv(s) && Running(s)
    ensures DoTimer(s).sleepers == Stay(s.procs, s.sleepers) && DoTimer(s).ready == s.ready + Woken(s.procs, s.sleepers)
  {
    hide Inv, DoTimer, Woken, Stay;
    Basics(s);
    TimerStep(s, if s.current == 0 then 1 else 0);
  }

  lemma {:induction false} WalkNumbers(s: State, i: nat)
    ensures Walk(s, i).tick == s.tick && Walk(s, i).nextPid == s.nextPid
    decreases |s.sleepers| - i
  {
    if i < |s.sleepers| {
      WalkNumbers(Charged(s, i), if Expires(s, s.sleepers[i]) then i else i + 1);
    }
  }

  lemma TimerNumbers(s: State)
    ensures DoTimer(s).tick == (s.tick + 1) % 0x1_0000_0000 && DoTimer(s).nextPid == s.nextPid
  {
    WalkNumbers(Ticked(s), 0);
  }
}
