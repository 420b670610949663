/** In every reachable state each live process is in exactly one place: current, the ready
    list, the sleep list, one semaphore's list, or one process's join list. */
module SchedInvariant {
  import opened SchedSpec

  // ---- all the places a process can be in

  ghost function Sum(ls: seq<seq<int>>): multiset<int> {
    if ls == [] then multiset{} else multiset(ls[0]) + Sum(ls[1..])
  }

  ghost function Lists(s: State): multiset<int> {
    multiset(s.ready) + multiset(s.sleepers) + Sum(s.joins) + Sum(s.blocked)
  }

  ghost function Cur(s: State): multiset<int> {
    if s.current == NONE then multiset{} else multiset{s.current}
  }

  ghost function Live(procs: seq<Proc>): set<int> {
    set i | 0 <= i < |procs| && procs[i].used
  }

  ghost predicate Shape(s: State) {
    |s.procs| == POOL && |s.joins| == POOL && |s.sems| == NR_SEMS && |s.blocked| == NR_SEMS
  }

  /** The live processes, each once, are what the lists and `current` hold. */
  ghost predicate Partition(s: State) {
    Lists(s) + Cur(s) == multiset(Live(s.procs))
  }

  /** Nobody waits for a slot that is not in use. */
  ghost predicate JoinsOk(s: State) {
    forall t :: 0 <= t < |s.procs| && !s.procs[t].used ==> ListAt(s.joins, t) == []
  }

  /** A negative count is the number of waiters, and otherwise nobody waits. */
  ghost predicate SemOk(x: Sem, q: seq<int>) {
    if x.used && x.count < 0 then |q| == -x.count else q == []
  }

  ghost predicate SemsOk(s: State) {
    forall j :: 0 <= j < NR_SEMS ==> SemOk(SemAt(s, j), ListAt(s.blocked, j))
  }

  ghost predicate Inv(s: State) {
    Shape(s) && Partition(s) && JoinsOk(s) && SemsOk(s)
  }

  /** Between two steps a process runs, and it has used at most two ticks of its turn. */
  ghost predicate Running(s: State) {
    s.current != NONE && ProcAt(s, s.current).ts == RUNNING && ProcAt(s, s.current).timeslice <= 2
  }

  // ---- sums of lists

  lemma {:induction false} SumHolds(ls: seq<seq<int>>, i: nat)
    requires i < |ls|
    ensures multiset(ls[i]) <= Sum(ls)
  {
    if i > 0 {
      SumHolds(ls[1..], i - 1);
    }
  }

  lemma {:induction false} SumReplaced(ls: seq<seq<int>>, i: nat, q: seq<int>)
    requires i < |ls|
    ensures Sum(ls[i := q]) + multiset(ls[i]) == Sum(ls) + multiset(q)
  {
    if i == 0 {
      assert ls[0 := q][1..] == ls[1..];
    } else {
      SumReplaced(ls[1..], i - 1, q);
      assert ls[i := q][1..] == ls[1..][i - 1 := q];
      var tail := ls[1..][i - 1 := q];
      assert Sum(ls[i := q]) == multiset(ls[0]) + Sum(tail);
      assert Sum(tail) + multiset(ls[i]) == Sum(ls[1..]) + multiset(q);
      calc {
        Sum(ls[i := q]) + multiset(ls[i]);
        multiset(ls[0]) + (Sum(tail) + multiset(ls[i]));
        multiset(ls[0]) + (Sum(ls[1..]) + multiset(q));
        Sum(ls) + multiset(q);
      }
    }
  }

  lemma SumUpdate(ls: seq<seq<int>>, i: nat, q: seq<int>)
    requires i < |ls|
    ensures multiset(ls[i]) <= Sum(ls)
    ensures Sum(ls[i := q]) == Sum(ls) - multiset(ls[i]) + multiset(q)
  {
    hide Sum;
    SumHolds(ls, i);
    SumReplaced(ls, i, q);
    assert Sum(ls[i := q]) == Sum(ls[i := q]) + multiset(ls[i]) - multiset(ls[i]);
  }

  lemma SumSet(ls: seq<seq<int>>, i: int, q: seq<int>)
    requires 0 <= i < |ls|
    ensures multiset(ListAt(ls, i)) <= Sum(ls)
    ensures Sum(SetList(ls, i, q)) == Sum(ls) - multiset(ListAt(ls, i)) + multiset(q)
  {
    SumUpdate(ls, i, q);
  }

  lemma SplitFirst(q: seq<int>)
    requires q != []
    ensures multiset(q) == multiset{q[0]} + multiset(q[1..])
  {
    assert q == [q[0]] + q[1..];
  }

  // ---- the live set

  lemma LiveSame(procs: seq<Proc>, p: int, x: Proc)
    requires 0 <= p < |procs| && x.used == procs[p].used
    ensures Live(procs[p := x]) == Live(procs)
  {
  }

  lemma LiveLess(procs: seq<Proc>, p: int, x: Proc)
    requires 0 <= p < |procs| && procs[p].used && !x.used
    ensures multiset(Live(procs[p := x])) == multiset(Live(procs)) - multiset{p} && p in Live(procs)
  {
    assert Live(procs[p := x]) == Live(procs) - {p};
  }

  lemma LiveMore(procs: seq<Proc>, p: int, x: Proc)
    requires 0 <= p < |procs| && !procs[p].used && x.used
    ensures multiset(Live(procs[p := x])) == multiset(Live(procs)) + multiset{p}
  {
    assert Live(procs[p := x]) == Live(procs) + {p};
  }

  // ---- what the partition says about one process

  /** A process in a list, or current, is live. */
  lemma ListedIsLive(s: State, p: int)
    requires Inv(s) && (p in Lists(s) || (p == s.current && p != NONE))
    ensures 0 <= p < POOL && s.procs[p].used && 0 <= p < |s.procs|
  {
    assert p in Lists(s) + Cur(s);
    assert p in multiset(Live(s.procs));
  }

  /** Two different places never hold the same process, and one list holds it once. */
  lemma OncePlaced(s: State, p: int)
    requires Inv(s)
    ensures Lists(s)[p] <= 1
    ensures s.current != NONE ==> Lists(s)[s.current] == 0
  {
    assert (Lists(s) + Cur(s))[p] == multiset(Live(s.procs))[p] <= 1;
    assert (Lists(s) + Cur(s))[s.current] == multiset(Live(s.procs))[s.current] <= 1;
  }

  // ---- do_scheduler

  lemma DispatchKeeps(s: State)
    requires Inv(s) && s.current == NONE && s.ready != []
    ensures Dispatch(s).Switched? && Inv(Dispatch(s).s) && Running(Dispatch(s).s)
    ensures Dispatch(s).s.current == s.ready[0] && Dispatch(s).s.ready == s.ready[1..]
  {
    var p := s.ready[0];
    SplitFirst(s.ready);
    assert p in Lists(s);
    ListedIsLive(s, p);
    LiveSame(s.procs, p, ProcAt(s, p).(ts := RUNNING, timeslice := 0));
  }

  /** The current process moves to the tail of the ready or the sleep list. */
  lemma ParkKeeps(s: State, s1: State, x: Proc)
    requires Inv(s) && s.current != NONE && x.used == ProcAt(s, s.current).used
    requires s1 == SetProc(s, s.current, x).(ready := s.ready + [s.current], current := NONE)
          || s1 == SetProc(s, s.current, x).(sleepers := s.sleepers + [s.current], current := NONE)
    ensures Inv(s1) && s1.current == NONE
  {
    ListedIsLive(s, s.current);
    LiveSame(s.procs, s.current, x);
  }

  /** do_scheduler either leaves the current process running or switches to the head of the
      ready list; it crashes only when that list is empty. */
  lemma DoSchedulerKeeps(s: State, eax: int)
    requires Inv(s) && s.current != NONE
    ensures var out := DoScheduler(s, eax);
      && (out.Switched? ==> Inv(out.s) && Running(out.s))
      && (out.Back? ==> out.s == s && ProcAt(s, s.current).ts != SLEEPING && ProcAt(s, s.current).ts != STOP
                        && ProcAt(s, s.current).timeslice <= 2)
      && (out.Crash? ==> out.why == EmptyReadyList)
  {
    hide Inv, Dispatch;
    var c := ProcAt(s, s.current);
    if c.ts == SLEEPING {
      var s1 := s.(sleepers := s.sleepers + [s.current], current := NONE);
      SetProcSame(s);
      ParkKeeps(s, s1, c);
      DispatchCase(s1);
    } else if c.timeslice > 2 || c.ts == STOP {
      var s1 := SetProc(s, s.current, c.(ts := READY)).(ready := s.ready + [s.current], current := NONE);
      ParkKeeps(s, s1, c.(ts := READY));
      DispatchCase(s1);
    }
  }

  lemma SetProcSame(s: State)
    ensures SetProc(s, s.current, ProcAt(s, s.current)) == s
  {
    if 0 <= s.current < |s.procs| {
      assert s.procs[s.current := s.procs[s.current]] == s.procs;
    }
  }

  lemma DispatchCase(s: State)
    requires Inv(s) && s.current == NONE
    ensures if s.ready == [] then Dispatch(s) == Crash(EmptyReadyList)
            else Dispatch(s).Switched? && Inv(Dispatch(s).s) && Running(Dispatch(s).s)
  {
    if s.ready != [] {
      DispatchKeeps(s);
    }
  }

  // ---- exit, join, exec, fork

  lemma {:induction false} AliveAll(procs: seq<Proc>, q: seq<int>)
    requires forall i :: 0 <= i < |q| ==> 0 <= q[i] < |procs| && procs[q[i]].used
    ensures Alive(procs, q) == q
  {
    if q != [] {
      AliveAll(procs, q[1..]);
      assert q == [q[0]] + q[1..];
    }
  }

  /** The processes that wait for t are all live, so exit_current drops none of them. */
  lemma JoinersAlive(s: State, t: int)
    requires Inv(s) && 0 <= t < POOL
    ensures Alive(s.procs, ListAt(s.joins, t)) == ListAt(s.joins, t)
  {
    var q := ListAt(s.joins, t);
    SumSet(s.joins, t, q);
    forall i | 0 <= i < |q|
      ensures 0 <= q[i] < |s.procs| && s.procs[q[i]].used
    {
      assert q[i] in multiset(q);
      ListedIsLive(s, q[i]);
    }
    AliveAll(s.procs, q);
  }

  /** The state exit_current hands to the scheduler. */
  function Exited(s: State): State {
    var c := s.current;
    SetProc(s.(ready := s.ready + Alive(s.procs, ListAt(s.joins, c)), joins := SetList(s.joins, c, []), current := NONE),
            c, ProcAt(s, c).(used := false))
  }

  lemma ExitKeeps(s: State)
    requires Inv(s) && s.current != NONE
    ensures Inv(Exited(s)) && Exited(s).current == NONE && Exit(s) == Dispatch(Exited(s))
    ensures Exited(s).ready == s.ready + ListAt(s.joins, s.current)
  {
    hide Lists, Live;
    var c := s.current;
    ListedIsLive(s, c);
    JoinersAlive(s, c);
    ExitLists(s);
    LiveLess(s.procs, c, ProcAt(s, c).(used := false));
  }

  lemma ExitLists(s: State)
    requires Shape(s) && 0 <= s.current < POOL
    requires Alive(s.procs, ListAt(s.joins, s.current)) == ListAt(s.joins, s.current)
    ensures Lists(Exited(s)) == Lists(s)
  {
    var q := ListAt(s.joins, s.current);
    SumSet(s.joins, s.current, []);
    assert multiset(s.ready + q) == multiset(s.ready) + multiset(q);
  }

  lemma {:induction false} FindPidRange(procs: seq<Proc>, pid: int, i: nat)
    requires i <= |procs|
    ensures i <= FindPid(procs, pid, i) <= |procs|
    ensures FindPid(procs, pid, i) < |procs| ==> procs[FindPid(procs, pid, i)].pid == pid
    decreases |procs| - i
  {
    if i < |procs| && procs[i].pid != pid {
      FindPidRange(procs, pid, i + 1);
    }
  }

  function Joined(s: State, t: int): State {
    s.(joins := SetList(s.joins, t, ListAt(s.joins, t) + [s.current]), current := NONE)
  }

  lemma JoinKeeps(s: State, t: int)
    requires Inv(s) && s.current != NONE && 0 <= t < POOL && s.procs[t].used
    ensures Inv(Joined(s, t))
  {
    hide Lists, Live;
    JoinLists(s, t);
  }

  lemma JoinLists(s: State, t: int)
    requires Shape(s) && 0 <= t < POOL
    ensures Lists(Joined(s, t)) == Lists(s) + multiset{s.current}
  {
    SumSet(s.joins, t, ListAt(s.joins, t) + [s.current]);
  }

  lemma {:induction false} FreeSlotRange(procs: seq<Proc>, i: nat)
    requires i <= |procs|
    ensures i <= FreeSlot(procs, i) <= |procs|
    ensures FreeSlot(procs, i) < |procs| ==> !procs[FreeSlot(procs, i)].used
    ensures forall k :: i <= k < FreeSlot(procs, i) ==> procs[k].used
    decreases |procs| - i
  {
    if i < |procs| && procs[i].used {
      FreeSlotRange(procs, i + 1);
    }
  }

  lemma SpawnKeeps(s: State)
    requires Inv(s) && s.current != NONE && Spawn(s).Back?
    ensures Inv(Spawn(s).s) && Spawn(s).s.current == s.current
  {
    var i := FreeSlot(s.procs, 0);
    FreeSlotRange(s.procs, 0);
    LiveMore(s.procs, i, Spawn(s).s.procs[i]);
  }

  // ---- semaphores

  lemma SemsUpdate(s: State, s1: State, j: int, x: Sem, q: seq<int>)
    requires Shape(s) && SemsOk(s) && 0 <= j < NR_SEMS && SemOk(x, q)
    requires s1.sems == s.sems[j := x] && s1.blocked == s.blocked[j := q]
    ensures SemsOk(s1)
  {
    forall k | 0 <= k < NR_SEMS
      ensures SemOk(SemAt(s1, k), ListAt(s1.blocked, k))
    {
      assert SemOk(SemAt(s, k), ListAt(s.blocked, k));
    }
  }

  function Blocked(s: State, j: int): State {
    SetSem(s, j, Sem(true, SemAt(s, j).count - 1)).(blocked := SetList(s.blocked, j, ListAt(s.blocked, j) + [s.current]), current := NONE)
  }

  lemma BlockKeeps(s: State, j: int)
    requires Inv(s) && s.current != NONE && 0 <= j < NR_SEMS && SemAt(s, j).used && SemAt(s, j).count - 1 < 0
    ensures Inv(Blocked(s, j))
  {
    hide Lists, SemsOk, Live;
    var q := ListAt(s.blocked, j);
    assert SemOk(SemAt(s, j), q) by { SemAtOk(s, j); }
    SemsUpdate(s, Blocked(s, j), j, Sem(true, SemAt(s, j).count - 1), q + [s.current]);
    BlockLists(s, j);
  }

  lemma SemAtOk(s: State, j: int)
    requires SemsOk(s) && 0 <= j < NR_SEMS
    ensures SemOk(SemAt(s, j), ListAt(s.blocked, j))
  {
  }

  lemma BlockLists(s: State, j: int)
    requires Shape(s) && 0 <= j < NR_SEMS
    ensures Lists(Blocked(s, j)) == Lists(s) + multiset{s.current}
  {
    SumSet(s.blocked, j, ListAt(s.blocked, j) + [s.current]);
  }

  /** The state after a post that released the first waiter. */
  function Released(s: State, j: int): State {
    var q := ListAt(s.blocked, j);
    SetSem(s, j, Sem(true, SemAt(s, j).count + 1)).(
      ready := s.ready + (if q == [] then [] else [q[0]]),
      blocked := SetList(s.blocked, j, if q == [] then [] else q[1..]))
  }

  lemma ReleaseKeeps(s: State, j: int)
    requires Inv(s) && 0 <= j < NR_SEMS && SemAt(s, j).used && SemAt(s, j).count < 0
    ensures ListAt(s.blocked, j) != [] && Inv(Released(s, j))
  {
    hide Lists, SemsOk, Live;
    var q := ListAt(s.blocked, j);
    SemAtOk(s, j);
    SemsUpdate(s, Released(s, j), j, Sem(true, SemAt(s, j).count + 1), q[1..]);
    ReleaseLists(s, j);
  }

  lemma ReleaseLists(s: State, j: int)
    requires Shape(s) && 0 <= j < NR_SEMS && ListAt(s.blocked, j) != []
    ensures Lists(Released(s, j)) == Lists(s)
  {
    var q := ListAt(s.blocked, j);
    SplitFirst(q);
    SumSet(s.blocked, j, q[1..]);
    assert multiset(s.ready + [q[0]]) == multiset(s.ready) + multiset{q[0]};
  }

  /** sem_post_kr never finds its list empty when it needs a waiter. */
  lemma SemPostKeeps(s: State, j: int, eax: int)
    requires Inv(s) && 0 <= j < NR_SEMS
    ensures SemPost(s, j, eax).Back? && Inv(SemPost(s, j, eax).s) && SemPost(s, j, eax).s.current == s.current
    ensures SemPost(s, j, eax).s.procs == s.procs
  {
    hide Lists, SemsOk, Live, Inv;
    if SemAt(s, j).used {
      InvSem(s, j);
      if SemAt(s, j).count < 0 {
        ReleaseKeeps(s, j);
      } else {
        CountKeeps(s, j, Sem(true, SemAt(s, j).count + 1));
      }
    }
  }

  lemma InvSem(s: State, j: int)
    requires Inv(s) && 0 <= j < NR_SEMS
    ensures SemOk(SemAt(s, j), ListAt(s.blocked, j))
  {
  }

  /** A semaphore without waiters may take any count that is not negative. */
  lemma CountKeeps(s: State, j: int, x: Sem)
    requires Inv(s) && 0 <= j < NR_SEMS && ListAt(s.blocked, j) == [] && (x.used ==> x.count >= 0)
    ensures Inv(SetSem(s, j, x))
  {
    hide Live;
    assert s.blocked[j := []] == s.blocked;
    SemsUpdate(s, SetSem(s, j, x), j, x, []);
  }

  lemma SemCloseKeeps(s: State, j: int)
    requires Inv(s) && 0 <= j < NR_SEMS
    ensures Inv(SemClose(s, j)) && SemClose(s, j).current == s.current && SemClose(s, j).procs == s.procs
  {
    hide Lists, SemsOk, Live;
    if SemAt(s, j).used {
      SemsUpdate(s, SemClose(s, j), j, SemAt(s, j).(used := false), []);
      CloseLists(s, j);
    }
  }

  lemma CloseLists(s: State, j: int)
    requires Shape(s) && 0 <= j < NR_SEMS
    ensures Lists(SemClose(s, j)) == Lists(s)
  {
    SumSet(s.blocked, j, []);
    assert multiset(s.ready + ListAt(s.blocked, j)) == multiset(s.ready) + multiset(ListAt(s.blocked, j));
  }

  // ---- one tick

  /** Changing a PCB but not whether it is in use. */
  lemma SetProcKeeps(s: State, p: int, x: Proc)
    requires Inv(s) && x.used == ProcAt(s, p).used
    ensures Inv(SetProc(s, p, x))
  {
    hide Lists, SemOk;
    if 0 <= p < |s.procs| {
      LiveSame(s.procs, p, x);
      assert Lists(SetProc(s, p, x)) == Lists(s) by { ListsSame(s, SetProc(s, p, x)); }
    }
  }

  lemma ListsSame(s: State, s1: State)
    requires s1.ready == s.ready && s1.sleepers == s.sleepers && s1.joins == s.joins && s1.blocked == s.blocked
    ensures Lists(s1) == Lists(s)
  {
  }

  /** The state after sleeper i was charged and, if it expired, moved. */
  function Charged(s: State, i: nat): State {
    if i >= |s.sleepers| then s else
    var p := s.sleepers[i];
    var s1 := SetProc(s, p, Charge(ProcAt(s, p)));
    if Expires(s, p) then s1.(sleepers := s.sleepers[..i] + s.sleepers[i + 1..], ready := s.ready + [p]) else s1
  }

  lemma ChargedKeeps(s: State, i: nat)
    requires Inv(s) && i < |s.sleepers|
    ensures Inv(Charged(s, i)) && Charged(s, i).current == s.current
  {
    hide Lists, Live, SemOk;
    var p := s.sleepers[i];
    var s1 := SetProc(s, p, Charge(ProcAt(s, p)));
    SetProcKeeps(s, p, Charge(ProcAt(s, p)));
    if Expires(s, p) {
      MoveLists(s1, Charged(s, i), i);
    }
  }

  lemma MoveLists(s: State, s1: State, i: nat)
    requires i < |s.sleepers|
    requires s1.sleepers == s.sleepers[..i] + s.sleepers[i + 1..] && s1.ready == s.ready + [s.sleepers[i]]
    requires s1.joins == s.joins && s1.blocked == s.blocked
    ensures Lists(s1) == Lists(s)
  {
    assert s.sleepers == s.sleepers[..i] + [s.sleepers[i]] + s.sleepers[i + 1..];
  }

  lemma {:induction false} WalkKeeps(s: State, i: nat)
    requires Inv(s)
    ensures Inv(Walk(s, i)) && Walk(s, i).current == s.current
    decreases |s.sleepers| - i
  {
    hide Inv;
    if i < |s.sleepers| {
      ChargedKeeps(s, i);
      if Expires(s, s.sleepers[i]) {
        WalkKeeps(Charged(s, i), i);
      } else {
        WalkKeeps(Charged(s, i), i + 1);
      }
    }
  }

  /** The walk charges sleepers only, so it leaves a process that does not sleep as it was. */
  lemma {:induction false} WalkLeaves(s: State, i: nat, p: int)
    requires p !in s.sleepers
    ensures ProcAt(Walk(s, i), p) == ProcAt(s, p) && p !in Walk(s, i).sleepers
    decreases |s.sleepers| - i
  {
    if i < |s.sleepers| {
      assert s.sleepers[i] in s.sleepers;
      if Expires(s, s.sleepers[i]) {
        WalkLeaves(Charged(s, i), i, p);
      } else {
        WalkLeaves(Charged(s, i), i + 1, p);
      }
    }
  }

  lemma CurrentAwake(s: State)
    requires Inv(s) && s.current != NONE
    ensures s.current !in s.sleepers && s.current !in s.ready
  {
    OncePlaced(s, s.current);
    assert Lists(s)[s.current] == 0;
    assert multiset(s.sleepers)[s.current] == 0 && multiset(s.ready)[s.current] == 0;
  }

  lemma TimerKeeps(s: State)
    requires Inv(s) && Running(s)
    ensures Inv(DoTimer(s)) && DoTimer(s).current == s.current
    ensures ProcAt(DoTimer(s), s.current) == ProcAt(s, s.current).(timeslice := ProcAt(s, s.current).timeslice + 1)
  {
    hide Partition, JoinsOk, SemsOk;
    var c := ProcAt(s, s.current);
    ListedIsLive(s, s.current);
    CurrentAwake(s);
    var s1 := SetProc(s.(tick := More(s.tick)), s.current, c.(timeslice := More(c.timeslice)));
    TickKeeps(s);
    SetProcKeeps(s.(tick := More(s.tick)), s.current, c.(timeslice := More(c.timeslice)));
    WalkKeeps(s1, 0);
    WalkLeaves(s1, 0, s.current);
  }

  lemma TickKeeps(s: State)
    requires Inv(s)
    ensures Inv(s.(tick := More(s.tick)))
  {
    ListsSame(s, s.(tick := More(s.tick)));
  }

  // ---- one step

  /** Semaphores are reached by an index in range and opened with a count that is not negative. */
  predicate Allowed(ev: Event) {
    match ev
    case Syscall(SysSemOpen(j, count)) => 0 <= j < NR_SEMS && count >= 0
    case Syscall(SysSemPost(j)) => 0 <= j < NR_SEMS
    case Syscall(SysSemWait(j)) => 0 <= j < NR_SEMS
    case Syscall(SysSemTryWait(j)) => 0 <= j < NR_SEMS
    case Syscall(SysSemClose(j)) => 0 <= j < NR_SEMS
    case Syscall(SysSemGet(j)) => 0 <= j < NR_SEMS
    case _ => true
  }

  /** What a system call leaves: a running process elsewhere, the same process running, or
      the same process marked to sleep or to give up its turn. */
  ghost predicate SyscallOk(s: State, out: Outcome) {
    match out
    case Crash(why) => why != NobodyBlocked
    case Switched(s1) => Inv(s1) && Running(s1)
    case Back(s1, eax) => Inv(s1) && s1.current == s.current && (Running(s1) || eax == 1500 || eax == 1502)
  }

  lemma CallKeeps(s: State, c: Call)
    requires Inv(s) && Running(s) && Allowed(Syscall(c))
    ensures SyscallOk(s, DoSyscall(s, c))
  {
    hide Inv, Dispatch, Spawn, SemPost, SemInit, SemClose;
    ListedIsLive(s, s.current);
    match c
    case SysExec(loaded) => ExecKeeps(s, loaded, 1900);
    case SysSemOpen(j, count) => SemInitKeeps(s, j, count);
    case SysSemPost(j) => SemPostKeeps(s, j, 1602);
    case SysSemWait(j) => SemWaitKeeps(s, j, 1603);
    case SysSemTryWait(j) => TryWaitKeeps(s, j);
    case SysSemClose(j) => SemCloseKeeps(s, j);
    case SysSpawn => SpawnRuns(s);
    case SysJoin(pid) => JoinCallKeeps(s, pid, 1506);
    case SysSleep(units) =>
      SetProcKeeps(s, s.current, ProcAt(s, s.current).(ts := SLEEPING, timeslice := units * TICKS_PER_UNIT % TWO_32));
    case SysHandout => SetProcKeeps(s, s.current, ProcAt(s, s.current).(ts := STOP));
    case SysExit => ExitKeeps(s); DispatchCase(Exited(s));
    case _ =>
  }

  lemma ExecKeeps(s: State, loaded: bool, eax: int)
    requires Inv(s) && Running(s)
    ensures SyscallOk(s, Exec(s, loaded, eax))
  {
    hide Inv, Dispatch;
    if loaded {
      var x := ProcAt(s, s.current).(tt := USER);
      var s1 := SetProc(s, s.current, x).(ready := s.ready + [s.current], current := NONE);
      ParkKeeps(s, s1, x);
      DispatchCase(s1);
    }
  }

  lemma SemInitKeeps(s: State, j: int, count: int)
    requires Inv(s) && 0 <= j < NR_SEMS && count >= 0
    ensures Inv(SemInit(s, j, count)) && SemInit(s, j, count).current == s.current && SemInit(s, j, count).procs == s.procs
  {
    hide Inv;
    if !SemAt(s, j).used {
      InvSem(s, j);
      CountKeeps(s, j, Sem(true, count));
    }
  }

  lemma SemWaitKeeps(s: State, j: int, eax: int)
    requires Inv(s) && Running(s) && 0 <= j < NR_SEMS
    ensures SyscallOk(s, SemWait(s, j, eax))
  {
    hide Inv, Dispatch;
    if SemAt(s, j).used {
      InvSem(s, j);
      if SemAt(s, j).count - 1 < 0 {
        BlockKeeps(s, j);
        DispatchCase(Blocked(s, j));
      } else {
        CountKeeps(s, j, Sem(true, SemAt(s, j).count - 1));
      }
    }
  }

  lemma TryWaitKeeps(s: State, j: int)
    requires Inv(s) && Running(s) && 0 <= j < NR_SEMS
    ensures SyscallOk(s, SemTryWait(s, j))
  {
    hide Inv;
    if SemAt(s, j).used && SemAt(s, j).count > 0 {
      InvSem(s, j);
      CountKeeps(s, j, Sem(true, SemAt(s, j).count - 1));
    }
  }

  lemma SpawnRuns(s: State)
    requires Inv(s) && Running(s)
    ensures SyscallOk(s, Spawn(s))
    ensures Spawn(s).Back? ==> ProcAt(Spawn(s).s, s.current) == ProcAt(s, s.current)
  {
    if Spawn(s).Back? {
      SpawnKeeps(s);
      FreeSlotRange(s.procs, 0);
      ListedIsLive(s, s.current);
    }
  }

  lemma JoinCallKeeps(s: State, pid: int, eax: int)
    requires Inv(s) && Running(s)
    ensures SyscallOk(s, Join(s, pid, eax))
  {
    hide Partition, JoinsOk, SemsOk, Dispatch;
    FindPidRange(s.procs, pid, 0);
    var t := FindPid(s.procs, pid, 0);
    if pid != 0 && t < |s.procs| && s.procs[t].used {
      JoinKeeps(s, t);
      DispatchCase(Joined(s, t));
    }
  }

  /** The main invariant, step by step. */
  lemma StepKeeps(s: State, ev: Event)
    requires Inv(s) && Running(s) && Allowed(ev)
    ensures Handle(s, ev).Crash? ==> Handle(s, ev).why == EmptyReadyList || Handle(s, ev).why == PoolFull
    ensures !Handle(s, ev).Crash? ==> Inv(Handle(s, ev).s) && Running(Handle(s, ev).s)
  {
    hide Inv, DoTimer, DoSyscall, Dispatch;
    match ev
    case Timer =>
      TimerKeeps(s);
      DoSchedulerKeeps(DoTimer(s), 0);
      assert ProcAt(DoTimer(s), s.current).ts == RUNNING;
    case Key(ctrlC) => CallKeeps(s, SysExit); NoExitBack(s);
    case Syscall(call) =>
      CallKeeps(s, call);
      var out := DoSyscall(s, call);
      if out.Back? && out.eax != SYS_PRINT_CHAR {
        DoSchedulerKeeps(out.s, out.eax);
        BackRuns(s, call);
      } else if out.Back? {
        BackRuns(s, call);
      }
    case OtherIrq =>
  }

  lemma NoExitBack(s: State)
    ensures !DoSyscall(s, SysExit).Back?
  {
  }

  /** A call that returns leaves its caller running, unless it asked to sleep or to yield. */
  lemma BackRuns(s: State, c: Call)
    requires Inv(s) && Running(s) && Allowed(Syscall(c)) && DoSyscall(s, c).Back?
    ensures Running(DoSyscall(s, c).s)
      || (DoSyscall(s, c).eax != SYS_PRINT_CHAR && ProcAt(DoSyscall(s, c).s, s.current).ts in {STOP, SLEEPING})
    ensures DoSyscall(s, c).s.current == s.current
  {
    hide Inv, Dispatch, Spawn, SemPost, SemInit, SemClose;
    ListedIsLive(s, s.current);
    match c
    case SysSemOpen(j, count) => SemInitKeeps(s, j, count);
    case SysSemPost(j) => SemPostKeeps(s, j, 1602);
    case SysSemWait(j) => SemWaitKeeps(s, j, 1603);
    case SysSemTryWait(j) => TryWaitKeeps(s, j);
    case SysSemClose(j) => SemCloseKeeps(s, j);
    case SysSpawn => SpawnRuns(s);
    case SysJoin(pid) => JoinCallKeeps(s, pid, 1506);
    case _ =>
  }
}
