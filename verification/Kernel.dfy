/** The process part of the kernel in its own form: an array of PCBs linked through `next`,
    list heads, and loops.  Every method is proved to do what SchedSpec says. */
module Kernel {
  import opened Sequences
  import opened SchedSpec
  import opened SchedInvariant
  import opened SchedReady
  import opened KernelLists
  import opened SchedBoot

  /** How a kernel function ends; see SchedSpec.Outcome. */
  datatype Ret = Crashed(why: Fault) | SwitchedAway | Returned

  class Machine {
    const pool: array<Pcb>          // PCBPool
    const sems: array<SemRec>
    var current: int
    var readyList: int
    var sleepList: int
    var pid: U32
    var tick: U32

    ghost var abs: State            // the lists as sequences

    ghost function H(): Heap
      reads this, pool, sems
    {
      Heap(pool[..], sems[..], readyList, sleepList)
    }

    ghost predicate Ok()
      reads this, pool, sems
    {
      && pool.Length == POOL && sems.Length == NR_SEMS
      && Rep(H(), abs)
      && abs.current == current && abs.nextPid == pid && abs.tick == tick
    }

    ghost predicate Agrees(out: Outcome, r: Ret)
      reads this
    {
      match out
      case Crash(why) => r == Crashed(why)
      case Switched(s1) => r == SwitchedAway && abs == s1
      case Back(s1, _) => r == Returned && abs == s1
    }

    /** The static data before main: all zero. */
    constructor ()
      ensures Ok() && Fresh(abs) && fresh(pool) && fresh(sems)
    {
      pool := new Pcb[POOL](_ => Pcb(Proc(false, 0, 0, READY, KERNEL, 0), NULL, NULL));
      sems := new SemRec[NR_SEMS](_ => SemRec(false, 0, NULL));
      current, readyList, sleepList, pid, tick := SchedSpec.NONE, NULL, NULL, 1, 0;
      new;
      abs := State(Procs(pool[..]), SchedSpec.NONE, [], [], EmptyLists(POOL), Sems(sems[..]), EmptyLists(NR_SEMS), 1, 0);
      FreshRep(H(), abs);
    }

    // ---- list heads: a key stands for the address of a head

    function Head(k: Key): int
      requires ValidKey(k) && pool.Length == POOL && sems.Length == NR_SEMS
      reads this, pool, sems
      ensures Head(k) == HeadOf(H(), k)
    {
      match k
      case KReady => readyList
      case KSleep => sleepList
      case KJoin(t) => pool[t].joinList
      case KBlock(j) => sems[j].blockList
    }

    method SetHead(k: Key, p: int)
      requires ValidKey(k) && pool.Length == POOL && sems.Length == NR_SEMS
      modifies this`readyList, this`sleepList, pool, sems
      ensures H() == WithHead(old(H()), k, p)
    {
      match k
      case KReady => readyList := p;
      case KSleep => sleepList := p;
      case KJoin(t) => pool[t] := pool[t].(joinList := p);
      case KBlock(j) => sems[j] := sems[j].(blockList := p);
    }

    // ---- kernel/src/process.c, the list functions

    /** ll_entail: walk to the end of the list and append p. */
    method LlEntail(k: Key, p: int)
      requires Ok() && ValidKey(k) && InNoList(abs, p) && 0 <= p < POOL
      modifies this, pool, sems
      ensures Ok() && abs == WithList(old(abs), k, ListOf(old(abs), k) + [p])
    {
      hide Rep, InNoList, Chain, Distinct, Relink, EntailPool, WithList, ListOf;
      ghost var q := ListOf(abs, k);
      RepEntail(H(), abs, k, p);
      ListChain(H(), abs, k, p);
      LinkLast(k, p, q);
      abs := WithList(abs, k, q + [p]);
      WithListRest(old(abs), k, q + [p]);
    }

    /** The pointer part of ll_entail. */
    method LinkLast(k: Key, p: int, ghost q: seq<int>)
      requires ValidKey(k) && pool.Length == POOL && sems.Length == NR_SEMS && 0 <= p < POOL
      requires Chain(pool[..], HeadOf(H(), k), q) && Distinct(q) && p !in q
      modifies this`readyList, this`sleepList, pool, sems
      ensures H() == Relink(old(H()), EntailPool(old(pool[..]), q, p), k, First(q + [p]))
    {
      hide WithHead, HeadOf;
      ghost var h0 := H();
      var h := Head(k);
      pool[p] := pool[p].(next := NULL);
      assert pool[..] == SetNext(h0.pool, p, NULL);
      if h == NULL {
        assert q == [] by { NullIsEmpty(h0.pool, h, q); }
        SetHead(k, p);
      } else {
        ghost var i := 0;
        while pool[h].next != NULL
          invariant 0 <= i < |q| && h == q[i] && 0 <= h < POOL
          invariant pool[..] == SetNext(h0.pool, p, NULL) && H() == h0.(pool := pool[..])
          decreases |q| - i
        {
          assert q[i] in q;
          h := pool[h].next;
          i := i + 1;
        }
        assert q[i] in q;
        assert i == |q| - 1 by { LastIsNull(h0.pool, HeadOf(h0, k), q, i); }
        pool[h] := pool[h].(next := p);
        assert pool[..] == EntailPool(h0.pool, q, p);
        SameHead(h0, pool[..], k, {p, q[|q| - 1]});
      }
    }

    /** ll_push: p becomes the first of the list. */
    method LlPush(k: Key, p: int)
      requires Ok() && ValidKey(k) && InNoList(abs, p) && 0 <= p < POOL
      modifies this, pool, sems
      ensures Ok() && abs == WithList(old(abs), k, [p] + ListOf(old(abs), k))
    {
      hide Rep, InNoList, Chain, Distinct, Relink, WithHead, WithList, HeadOf, ListOf;
      ghost var h0, q := H(), ListOf(abs, k);
      RepPush(h0, abs, k, p);
      ListChain(h0, abs, k, p);
      PushCommutes(h0, q, k, p);
      var h := Head(k);
      assert h == NULL <==> q == [] by { NullIsEmpty(h0.pool, h, q); }
      SetHead(k, p);
      if h != NULL {
        pool[p] := pool[p].(next := h);
      }
      assert pool[..] == PushPool(WithHead(h0, k, p).pool, q, p);
      abs := WithList(abs, k, [p] + q);
      WithListRest(old(abs), k, [p] + q);
    }

    /** ll_delete: find p in the list and take it out; false if it is not there. */
    method LlDelete(k: Key, p: int, ghost i: nat) returns (found: bool)
      requires Ok() && ValidKey(k) && i <= |ListOf(abs, k)|
      requires if i < |ListOf(abs, k)| then p == ListOf(abs, k)[i] else p !in ListOf(abs, k)
      modifies this, pool, sems
      ensures Ok() && found == (i < |ListOf(old(abs), k)|)
      ensures abs == if found then WithList(old(abs), k, Without(ListOf(old(abs), k), i)) else old(abs)
      ensures found ==> InNoList(abs, p) && 0 <= p < POOL
    {
      hide Rep, InNoList, Chain, Distinct, Relink, WithList, ListOf, DeletePool, Without;
      ghost var q := ListOf(abs, k);
      KeyChain(H(), abs, k);
      if i < |q| {
        RepDelete(H(), abs, k, i);
        ChainRange(H().pool, HeadOf(H(), k), q, i);
      }
      found := Unlink(k, p, q, i);
      if found {
        abs := WithList(abs, k, Without(q, i));
        WithListRest(old(abs), k, Without(q, i));
      }
    }

    /** The pointer part of ll_delete. */
    method Unlink(k: Key, p: int, ghost q: seq<int>, ghost i: nat) returns (found: bool)
      requires ValidKey(k) && pool.Length == POOL && sems.Length == NR_SEMS
      requires Chain(pool[..], HeadOf(H(), k), q) && Distinct(q) && i <= |q|
      requires if i < |q| then p == q[i] else p !in q
      modifies this`readyList, this`sleepList, pool, sems
      ensures found == (i < |q|)
      ensures H() == if found then Relink(old(H()), DeletePool(old(pool[..]), q, i), k, First(Without(q, i))) else old(H())
    {
      hide WithHead, HeadOf, DeletePool, Relink, Without;
      ghost var h0 := H();
      var sleep, pre := Head(k), NULL;
      ghost var j := 0;
      while true
        invariant 0 <= j <= i && sleep == (if j < |q| then q[j] else NULL)
        invariant pre == (if j == 0 then NULL else q[j - 1]) && H() == h0
        decreases |q| - j
      {
        if sleep == NULL {
          assert j == |q| by { ChainNonNull(h0.pool, HeadOf(h0, k), q, j); }
          return false;
        }
        assert j < |q|;
        if sleep == p {
          break;
        }
        assert j < i;
        pre := sleep;
        sleep := pool[sleep].next;
        j := j + 1;
      }
      assert j == i;
      if pre == NULL {
        assert i == 0 by { ChainNonNull(h0.pool, HeadOf(h0, k), q, if j > 0 then j - 1 else 0); }
        SetHead(k, pool[sleep].next);
      } else {
        pool[pre] := pool[pre].(next := pool[sleep].next);
      }
      pool[sleep] := pool[sleep].(next := NULL);
      DeleteCommutes(h0, q, k, i);
      found := true;
    }

    /** ll_pop: the first of the list, taken out, or NULL. */
    method LlPop(k: Key) returns (p: int)
      requires Ok() && ValidKey(k)
      modifies this, pool, sems
      ensures Ok()
      ensures ListOf(old(abs), k) == [] ==> p == NULL && abs == old(abs)
      ensures ListOf(old(abs), k) != [] ==> p == ListOf(old(abs), k)[0] && 0 <= p < POOL && InNoList(abs, p)
      ensures ListOf(old(abs), k) != [] ==> abs == WithList(old(abs), k, ListOf(old(abs), k)[1..])
    {
      hide Rep, InNoList, Distinct, WithList, ListOf, HeadOf;
      KeyChain(H(), abs, k);
      ghost var q := ListOf(abs, k);
      p := Head(k);
      var found := LlDelete(k, p, 0);
      assert q != [] ==> Without(q, 0) == q[1..];
    }

    // ---- field updates

    /** Stores new process data in PCB p. */
    method SetData(p: int, x: Proc)
      requires Ok() && 0 <= p < POOL
      modifies this`abs, pool
      ensures Ok() && abs == SetProc(old(abs), p, x)
    {
      hide Rep;
      RepData(H(), abs, p, x);
      PoolSize(H(), abs);
      pool[p] := pool[p].(p := x);
      abs := SetProc(abs, p, x);
    }

    method SetSemData(j: int, x: Sem)
      requires Ok() && 0 <= j < NR_SEMS
      modifies this`abs, sems
      ensures Ok() && abs == SetSem(old(abs), j, x)
    {
      hide Rep;
      RepSem(H(), abs, j, x);
      PoolSize(H(), abs);
      sems[j] := sems[j].(used := x.used, count := x.count);
      abs := SetSem(abs, j, x);
    }

    method SetCurrent(p: int)
      requires Ok()
      modifies this`current, this`abs
      ensures Ok() && abs == old(abs).(current := p)
    {
      hide Rep;
      RepOther(H(), abs, abs.(current := p));
      current := p;
      abs := abs.(current := p);
    }

    /** The data of PCB p. */
    function Data(p: int): Proc
      requires Ok() && 0 <= p < POOL
      reads this, pool, sems
      ensures Data(p) == ProcAt(abs, p)
    {
      pool[p].p
    }

    function SemData(j: int): Sem
      requires Ok() && 0 <= j < NR_SEMS
      reads this, pool, sems
      ensures SemData(j) == SemAt(abs, j)
    {
      Sem(sems[j].used, sems[j].count)
    }

    // ---- kernel/src/scheduler.c

    /** do_scheduler when nobody is current: the head of the ready list runs next. */
    method DispatchNext() returns (r: Ret)
      requires Ok() && Inv(abs) && current == SchedSpec.NONE
      modifies this, pool, sems
      ensures Agrees(Dispatch(old(abs)), r)
      ensures r.SwitchedAway? ==> Ok()
    {
      hide Rep, Inv, InNoList, SetProc;
      var p := LlPop(KReady);
      if p == NULL {
        return Crashed(EmptyReadyList);
      }
      SetCurrent(p);
      SetData(p, Data(p).(ts := RUNNING, timeslice := 0));
      r := SwitchedAway;
    }

    /** do_scheduler */
    method DoScheduler(ghost eax: int) returns (r: Ret)
      requires Ok() && Inv(abs) && current != SchedSpec.NONE
      modifies this, pool, sems
      ensures Agrees(SchedSpec.DoScheduler(old(abs), eax), r)
      ensures !r.Crashed? ==> Ok()
    {
      hide Rep, Inv, InNoList, SetProc, Dispatch;
      CurrentInNoList(abs);
      var cur := current;
      if Data(cur).ts == SLEEPING {
        SetProcSame(abs);
        ParkKeeps(abs, abs.(sleepers := abs.sleepers + [cur], current := SchedSpec.NONE), Data(cur));
        LlEntail(KSleep, cur);
        SetCurrent(SchedSpec.NONE);
        r := DispatchNext();
        return;
      }
      if Data(cur).timeslice > 2 || Data(cur).ts == STOP {
        ghost var x := Data(cur).(ts := READY);
        ParkKeeps(abs, SetProc(abs, cur, x).(ready := abs.ready + [cur], current := SchedSpec.NONE), x);
        DataKeepsLists(abs, cur, x);
        SetData(cur, Data(cur).(ts := READY));
        LlEntail(KReady, cur);
        SetCurrent(SchedSpec.NONE);
        r := DispatchNext();
        return;
      }
      r := Returned;
    }

    // ---- kernel/src/timer.c

    /** do_timer */
    method DoTimer()
      requires Ok() && Inv(abs) && Running(abs)
      modifies this, pool, sems
      ensures Ok() && abs == SchedSpec.DoTimer(old(abs))
    {
      hide Rep, Inv, InNoList, Walk, Charge, More;
      CurrentInNoList(abs);
      ghost var s0 := abs;
      SetTick(More(tick));
      SetData(current, Data(current).(timeslice := More(Data(current).timeslice)));
      TickedKeeps(s0);
      ghost var s1 := abs;
      var sleep := sleepList;
      ghost var i := 0;
      SleepHead(H(), abs);
      while sleep != NULL
        invariant Ok() && Inv(abs) && 0 <= i <= |abs.sleepers|
        invariant sleep == (if i < |abs.sleepers| then abs.sleepers[i] else NULL)
        invariant Walk(abs, i) == Walk(s1, 0)
        decreases |abs.sleepers| - i
      {
        sleep, i := ChargeSleeper(sleep, i);
      }
      SleepEnd(H(), abs, i);
    }

    method SetTick(t: U32)
      requires Ok()
      modifies this`tick, this`abs
      ensures Ok() && abs == old(abs).(tick := t)
    {
      hide Rep;
      RepOther(H(), abs, abs.(tick := t));
      tick := t;
      abs := abs.(tick := t);
    }

    /** The body of the loop of do_timer: charge one sleeper and wake it if its time is up;
        the next sleeper is read before the list changes. */
    method ChargeSleeper(sleep: int, ghost i: nat) returns (next: int, ghost i1: nat)
      requires Ok() && Inv(abs) && i < |abs.sleepers| && sleep == abs.sleepers[i]
      modifies this, pool, sems
      ensures Ok() && Inv(abs) && Walk(abs, i1) == Walk(old(abs), i)
      ensures i1 <= |abs.sleepers| && |abs.sleepers| - i1 < |old(abs).sleepers| - i
      ensures next == (if i1 < |abs.sleepers| then abs.sleepers[i1] else NULL)
    {
      hide Rep, Inv, InNoList, Walk, Less, SetProc;
      ghost var s0 := abs;
      ChargedKeeps(s0, i);
      WalkOnce(s0, i);
      SleepNext(H(), s0, i);
      var cur := sleep;
      var slept := Data(cur).(timeslice := Less(Data(cur).timeslice));
      DataKeepsLists(s0, cur, slept);
      SetData(cur, slept);
      SleepNext(H(), abs, i);
      next := pool[cur].next;
      if Data(cur).timeslice > 0 {
        i1 := i + 1;
        return;
      }
      DataTwice(s0, cur, slept, slept.(ts := READY));
      DataKeepsLists(abs, cur, slept.(ts := READY));
      SetData(cur, Data(cur).(ts := READY));
      assert abs == SetProc(s0, cur, Charge(ProcAt(s0, cur)));
      var found := LlDelete(KSleep, cur, i);
      LlEntail(KReady, cur);
      i1 := i;
    }

    // ---- kernel/src/kernel.c

    /** pcb_create with a free slot, and the task type its loader sets. */
    method PcbCreate(tt: TaskType) returns (i: int)
      requires Ok() && Inv(abs) && FreeSlot(abs.procs, 0) < POOL
      modifies this, pool, sems
      ensures Ok() && i == FreeSlot(old(abs).procs, 0) && 0 <= i < POOL
      ensures abs == SetProc(old(abs), i, ProcAt(old(abs), i).(used := true, pid := old(abs).nextPid, timeslice := 0, tt := tt))
          .(nextPid := More(old(abs).nextPid))
      ensures InNoList(abs, i)
    {
      hide Rep, Inv, InNoList, SetProc;
      i := FindFree();
      UnusedInNoList(abs, i);
      var x := Data(i).(used := true, pid := pid, timeslice := 0, tt := tt);
      DataKeepsLists(abs, i, x);
      SetData(i, x);
      SetPid(More(pid));
      PidInNoList(old(abs), abs, i);
    }

    /** enready_pcb */
    method EnreadyPcb(p: int)
      requires Ok() && InNoList(abs, p) && 0 <= p < POOL
      modifies this, pool, sems
      ensures Ok() && abs == old(abs).(ready := [p] + old(abs).ready)
    {
      hide Rep, InNoList;
      LlPush(KReady, p);
    }

    /** main, as far as processes go. */
    method BootUp() returns (r: Ret)
      requires Ok() && Fresh(abs)
      modifies this, pool, sems
      ensures Agrees(Boot(old(abs)), r) && r.SwitchedAway? && Ok() && Inv(abs) && Running(abs)
    {
      hide Rep, Inv, InNoList, SetProc, Fresh, Dispatch;
      ghost var s0 := abs;
      BootRuns(s0);
      BootSlots(s0);
      var idle := PcbCreate(KERNEL);
      EnreadyPcb(idle);
      CreatedIs(s0, abs, KERNEL);
      var shell := PcbCreate(USER);
      EnreadyPcb(shell);
      CreatedIs(Created(s0, KERNEL), abs, USER);
      r := DispatchNext();
    }

    // ---- kernel/src/process.c, the system calls

    /** fork_current: pcb_create finds an unused slot, copy_pcb fills it. */
    method ForkCurrent() returns (r: Ret)
      requires Ok() && Inv(abs) && Running(abs)
      modifies this, pool, sems
      ensures Agrees(Spawn(old(abs)), r)
      ensures !r.Crashed? ==> Ok()
    {
      hide Rep, Inv, InNoList, SetProc;
      CurrentInNoList(abs);
      SizesOf(H(), abs);
      var i := FindFree();
      if i >= POOL {
        return Crashed(PoolFull);
      }
      UnusedInNoList(abs, i);
      var c, was := Data(current), Data(i);
      var son := was.(used := true, pid := pid, timeslice := 0);
      DataKeepsLists(abs, i, son);
      SetData(i, son);
      SetPid(More(pid));
      var son1 := son.(ppid := c.pid, timeslice := c.timeslice, tt := c.tt, ts := if c.tt == KERNEL then c.ts else was.ts);
      DataKeepsLists(abs, i, son1);
      PidCommutes(old(abs), i, son, son1);
      SetData(i, son1);
      PidInNoList(old(abs), abs, i);
      LlPush(KReady, i);
      r := Returned;
    }

    /** The search loop of pcb_create. */
    method FindFree() returns (i: nat)
      requires Ok()
      ensures i == FreeSlot(abs.procs, 0)
      ensures i < POOL ==> i < |abs.procs| && !abs.procs[i].used
    {
      SizesOf(H(), abs);
      FreeSlotRange(abs.procs, 0);
      i := 0;
      while i < POOL && pool[i].p.used
        invariant 0 <= i <= POOL && FreeSlot(abs.procs, i) == FreeSlot(abs.procs, 0)
      {
        i := i + 1;
      }
    }

    method SetPid(x: U32)
      requires Ok()
      modifies this`pid, this`abs
      ensures Ok() && abs == old(abs).(nextPid := x)
    {
      hide Rep;
      RepOther(H(), abs, abs.(nextPid := x));
      pid := x;
      abs := abs.(nextPid := x);
    }

    /** exit_current: wake everybody who joined, give the slot back, and schedule. */
    method ExitCurrent() returns (r: Ret)
      requires Ok() && Inv(abs) && Running(abs)
      modifies this, pool, sems
      ensures Agrees(Exit(old(abs)), r)
      ensures !r.Crashed? ==> Ok()
    {
      hide Rep, Inv, InNoList, SetProc;
      CurrentInNoList(abs);
      ExitKeeps(abs);
      ghost var s0 := abs;
      SizesOf(H(), s0);
      WakeJoiners(current);
      ExitedIs(s0);
      SetData(current, Data(current).(used := false));
      SetCurrent(SchedSpec.NONE);
      r := DispatchNext();
    }

    /** The loop of exit_current. */
    method WakeJoiners(t: int)
      requires Ok() && Inv(abs) && 0 <= t < POOL && current == t
      modifies this, pool, sems
      ensures Ok() && current == t
      ensures abs == old(abs).(ready := old(abs).ready + Alive(old(abs).procs, ListAt(old(abs).joins, t)),
                               joins := SetList(old(abs).joins, t, []))
    {
      hide Rep, Inv, InNoList, Alive;
      ghost var s0, q := abs, ListAt(abs.joins, t);
      SizesOf(H(), abs);
      ghost var n := 0;
      assert q[0..] == q;
      assert s0.joins[t := q] == s0.joins;
      NoneAlive(s0.procs);
      while true
        invariant Ok() && current == t && 0 <= n <= |q|
        invariant ListAt(abs.joins, t) == q[n..] && |abs.joins| == POOL
        invariant abs == s0.(ready := abs.ready, joins := SetList(s0.joins, t, q[n..]))
        invariant abs.ready + Alive(s0.procs, q[n..]) == s0.ready + Alive(s0.procs, q)
        decreases |q| - n
      {
        ghost var ready := abs.ready;
        var p := LlPop(KJoin(t));
        if p == NULL {
          NullJoiner(q, n, p);
          break;
        }
        assert q[n..][1..] == q[n + 1..];
        assert s0.joins[t := q[n..]][t := q[n + 1..]] == s0.joins[t := q[n + 1..]];
        AliveFirst(s0.procs, q, n, ready);
        n := n + 1;
        if !Data(p).used {
          continue;
        }
        LlEntail(KReady, p);
      }
    }

    /** join_current */
    method JoinCurrent(id: int, ghost eax: int) returns (r: Ret)
      requires Ok() && Inv(abs) && Running(abs)
      modifies this, pool, sems
      ensures Agrees(Join(old(abs), id, eax), r)
      ensures !r.Crashed? ==> Ok()
    {
      hide Rep, Inv, InNoList, Dispatch;
      if id == 0 {
        return Returned;
      }
      var i := FindProcess(id);
      SizesOf(H(), abs);
      if i == POOL {
        return Returned;
      }
      if !Data(i).used {
        return Returned;
      }
      CurrentInNoList(abs);
      JoinKeeps(abs, i);
      LlEntail(KJoin(i), current);
      SetCurrent(SchedSpec.NONE);
      r := DispatchNext();
    }

    /** The search loop of join_current. */
    method FindProcess(id: int) returns (i: nat)
      requires Ok()
      ensures i == FindPid(abs.procs, id, 0) && i <= POOL && |abs.procs| == POOL
    {
      SizesOf(H(), abs);
      FindPidRange(abs.procs, id, 0);
      i := 0;
      while i < POOL && pool[i].p.pid != id
        invariant 0 <= i <= POOL && FindPid(abs.procs, id, i) == FindPid(abs.procs, id, 0)
      {
        i := i + 1;
      }
    }

    /** exec_current; `loaded` is what loader_file answers. */
    method ExecCurrent(loaded: bool, ghost eax: int) returns (r: Ret)
      requires Ok() && Inv(abs) && Running(abs)
      modifies this, pool, sems
      ensures Agrees(Exec(old(abs), loaded, eax), r)
      ensures !r.Crashed? ==> Ok()
    {
      hide Rep, Inv, InNoList, SetProc, Dispatch;
      if !loaded {
        return Returned;
      }
      CurrentInNoList(abs);
      ghost var x := Data(current).(tt := USER);
      ParkKeeps(abs, SetProc(abs, current, x).(ready := abs.ready + [current], current := SchedSpec.NONE), x);
      DataKeepsLists(abs, current, x);
      SetData(current, Data(current).(tt := USER));
      LlEntail(KReady, current);
      SetCurrent(SchedSpec.NONE);
      r := DispatchNext();
    }

    // ---- kernel/src/semaphore.c

    /** sem_init_kr and sem_open_kr */
    method SemOpen(j: int, count: int)
      requires Ok() && 0 <= j < NR_SEMS
      modifies this`abs, sems
      ensures Ok() && abs == SemInit(old(abs), j, count)
    {
      hide Rep, SetSem;
      if !SemData(j).used {
        SetSemData(j, Sem(true, count));
      }
    }

    /** sem_post_kr */
    method SemPost(j: int, ghost eax: int) returns (r: Ret)
      requires Ok() && Inv(abs) && 0 <= j < NR_SEMS
      modifies this, pool, sems
      ensures Agrees(SchedSpec.SemPost(old(abs), j, eax), r) && r == Returned && Ok()
    {
      hide Rep, Inv, InNoList, SetSem;
      if !SemData(j).used {
        return Returned;
      }
      ghost var s0 := abs;
      InvSem(s0, j);
      SemKeepsLists(s0, j, Sem(true, SemData(j).count + 1));
      SizesOf(H(), s0);
      SetSemData(j, Sem(true, SemData(j).count + 1));
      if SemData(j).count <= 0 {
        var p := LlPop(KBlock(j));
        LlEntail(KReady, p);
      }
      r := Returned;
    }

    /** sem_wait_kr */
    method SemWait(j: int, ghost eax: int) returns (r: Ret)
      requires Ok() && Inv(abs) && Running(abs) && 0 <= j < NR_SEMS
      modifies this, pool, sems
      ensures Agrees(SchedSpec.SemWait(old(abs), j, eax), r)
      ensures !r.Crashed? ==> Ok()
    {
      hide Rep, Inv, InNoList, SetSem, Dispatch;
      if !SemData(j).used {
        return Returned;
      }
      ghost var s0 := abs;
      CurrentInNoList(s0);
      SemKeepsLists(s0, j, Sem(true, SemData(j).count - 1));
      SizesOf(H(), s0);
      SetSemData(j, Sem(true, SemData(j).count - 1));
      if SemData(j).count < 0 {
        PidInNoList(s0, abs, current);
        BlockKeeps(s0, j);
        LlEntail(KBlock(j), current);
        SetCurrent(SchedSpec.NONE);
        r := DispatchNext();
        return;
      }
      r := Returned;
    }

    /** sem_trywait_kr */
    method SemTryWait(j: int) returns (eax: int)
      requires Ok() && 0 <= j < NR_SEMS
      modifies this`abs, sems
      ensures Ok() && SchedSpec.SemTryWait(old(abs), j) == Back(abs, eax)
    {
      hide Rep, SetSem;
      if !SemData(j).used {
        return -1;
      }
      if SemData(j).count <= 0 {
        return 0;
      }
      SetSemData(j, Sem(true, SemData(j).count - 1));
      eax := 1;
    }

    /** sem_close_kr: the semaphore goes, and its list moves to the ready list. */
    method SemClose(j: int)
      requires Ok() && 0 <= j < NR_SEMS
      modifies this, pool, sems
      ensures Ok() && abs == SchedSpec.SemClose(old(abs), j)
    {
      hide Rep, InNoList, SetSem;
      if SemData(j).used {
        ghost var s0 := abs;
        ghost var x := SemData(j).(used := false);
        SemKeepsLists(s0, j, x);
        SizesOf(H(), s0);
        SetSemData(j, SemData(j).(used := false));
        DrainBlocked(j);
      }
    }

    /** The loop of sem_close_kr. */
    method DrainBlocked(j: int)
      requires Ok() && 0 <= j < NR_SEMS
      modifies this, pool, sems
      ensures Ok()
      ensures abs == old(abs).(ready := old(abs).ready + ListAt(old(abs).blocked, j), blocked := SetList(old(abs).blocked, j, []))
    {
      hide Rep, InNoList;
      ghost var s0, q := abs, ListAt(abs.blocked, j);
      SizesOf(H(), abs);
      ghost var n := 0;
      assert q[0..] == q && q[..0] == [];
      assert s0.blocked[j := q] == s0.blocked;
      while true
        invariant Ok() && 0 <= n <= |q|
        invariant ListAt(abs.blocked, j) == q[n..] && |abs.blocked| == NR_SEMS
        invariant abs == s0.(ready := s0.ready + q[..n], blocked := SetList(s0.blocked, j, q[n..]))
        decreases |q| - n
      {
        var p := LlPop(KBlock(j));
        if p == NULL {
          NullJoiner(q, n, p);
          assert q[..n] == q;
          break;
        }
        assert q[n..][1..] == q[n + 1..];
        assert s0.blocked[j := q[n..]][j := q[n + 1..]] == s0.blocked[j := q[n + 1..]];
        LlEntail(KReady, p);
        assert q[..n + 1] == q[..n] + [p];
        assert (s0.ready + q[..n]) + [p] == s0.ready + q[..n + 1];
        n := n + 1;
      }
    }

    // ---- kernel/src/do_syscall.c and kernel/src/irq/irq_handle.c

    /** do_syscall; eax is what the call leaves in that register when it returns. */
    method DoSyscall(c: Call) returns (r: Ret, eax: int)
      requires Ok() && Inv(abs) && Running(abs) && Allowed(Syscall(c))
      modifies this, pool, sems
      ensures Agrees(SchedSpec.DoSyscall(old(abs), c), r)
      ensures !r.Crashed? ==> Ok()
      ensures r == Returned ==> SchedSpec.DoSyscall(old(abs), c).Back? && eax == SchedSpec.DoSyscall(old(abs), c).eax
    {
      hide Rep, Inv, InNoList, SetProc, Dispatch, Exit, Spawn, Join, Exec, SchedSpec.SemPost, SchedSpec.SemWait, SchedSpec.SemTryWait, SchedSpec.SemClose, SemInit;
      r, eax := Returned, Number(c);
      CurrentInNoList(abs);
      BackEax(abs, c);
      match c
      case SysExec(loaded) => r := ExecCurrent(loaded, 1900);
      case SysSemOpen(j, count) =>
        SemOpen(j, count);
        eax := SemAddress(j);
      case SysSemPost(j) => r := SemPost(j, 1602);
      case SysSemWait(j) => r := SemWait(j, 1603);
      case SysSemTryWait(j) => eax := SemTryWait(j);
      case SysSemClose(j) => SemClose(j);
      case SysSemGet(j) => eax := if SemData(j).used then SemData(j).count else 0;
      case SysSpawn => eax := pid; r := ForkCurrent();
      case SysJoin(id) => r := JoinCurrent(id, 1506);
      case SysSleep(units) => SetData(current, Data(current).(ts := SLEEPING, timeslice := units * TICKS_PER_UNIT % TWO_32));
      case SysHandout => SetData(current, Data(current).(ts := STOP));
      case SysExit => r := ExitCurrent();
      case _ =>
    }

    /** irq_handle: one atomic step of the kernel. */
    method IrqHandle(ev: Event) returns (r: Ret)
      requires Ok() && Inv(abs) && Running(abs) && Allowed(ev)
      modifies this, pool, sems
      ensures Agrees(Handle(old(abs), ev), r)
      ensures !r.Crashed? ==> Ok() && Inv(abs) && Running(abs)
    {
      hide Rep, Inv, InNoList, SchedSpec.DoTimer, SchedSpec.DoSyscall, SchedSpec.DoScheduler, Running;
      StepKeeps(abs, ev);
      AwakeNow(abs);
      r := Returned;
      match ev
      case Timer =>
        TimerKeeps(abs);
        DoTimer();
        r := DoScheduler(0);
      case Key(ctrlC) =>
        if ctrlC && Data(current).tt != KERNEL {
          ghost var eax;
          r, eax := DoSyscall(SysExit);
        }
      case Syscall(call) =>
        CallKeeps(abs, call);
        var eax;
        r, eax := DoSyscall(call);
        if r == Returned && eax != SYS_PRINT_CHAR {
          r := DoScheduler(eax);
        }
      case OtherIrq =>
    }
  }

  lemma AwakeNow(s: State)
    requires Inv(s) && Running(s)
    ensures s.current != SchedSpec.NONE && 0 <= s.current < POOL
  {
    ListedIsLive(s, s.current);
  }

  /** What a call leaves in eax when it returns. */
  lemma BackEax(s: State, c: Call)
    ensures SchedSpec.DoSyscall(s, c).Back? ==>
        match c
        case SysSemTryWait(j) => SchedSpec.SemTryWait(s, j) == SchedSpec.DoSyscall(s, c)
        case SysSemGet(j) => SchedSpec.DoSyscall(s, c).eax == if SemAt(s, j).used then SemAt(s, j).count else 0
        case SysSemOpen(j, _) => SchedSpec.DoSyscall(s, c).eax == SemAddress(j)
        case SysSpawn => SchedSpec.DoSyscall(s, c).eax == s.nextPid
        case _ => SchedSpec.DoSyscall(s, c).eax == Number(c)
  {
  }

  lemma SemKeepsLists(s: State, j: int, x: Sem)
    requires 0 <= j < |s.sems|
    ensures SetSem(s, j, x).ready == s.ready && SetSem(s, j, x).sleepers == s.sleepers
    ensures SetSem(s, j, x).joins == s.joins && SetSem(s, j, x).blocked == s.blocked
    ensures SetSem(s, j, x).current == s.current && SetSem(s, j, x).procs == s.procs
    ensures SemAt(SetSem(s, j, x), j) == x
  {
  }

  function EmptyLists(n: nat): (r: seq<seq<int>>)
    ensures |r| == n && forall i :: 0 <= i < n ==> r[i] == []
  {
    if n == 0 then [] else EmptyLists(n - 1) + [[]]
  }

  lemma FreshRep(h: Heap, s: State)
    requires Sizes(h, s) && h.readyList == NULL && h.sleepList == NULL && s.ready == [] && s.sleepers == []
    requires forall i :: 0 <= i < POOL ==> h.pool[i].next == NULL && h.pool[i].joinList == NULL && s.joins[i] == []
    requires forall j :: 0 <= j < NR_SEMS ==> h.sems[j].blockList == NULL && s.blocked[j] == []
    ensures Rep(h, s)
  {
    assert forall k :: ValidKey(k) ==> ListOf(s, k) == [] && HeadOf(h, k) == NULL;
  }

  lemma BootSlots(s: State)
    requires Fresh(s)
    ensures Inv(s) && FreeSlot(s.procs, 0) < POOL
    ensures Inv(Created(s, KERNEL)) && FreeSlot(Created(s, KERNEL).procs, 0) < POOL
    ensures Inv(Created(Created(s, KERNEL), USER)) && Created(Created(s, KERNEL), USER).current == SchedSpec.NONE
    ensures s.current == SchedSpec.NONE
  {
    hide Inv;
    FreshKeeps(s);
    FreeSlotRange(s.procs, 0);
    CreatedKeeps(s, KERNEL);
    FreeSlotRange(Created(s, KERNEL).procs, 0);
    CreatedKeeps(Created(s, KERNEL), USER);
  }

  lemma CreatedIs(s: State, s1: State, tt: TaskType)
    requires var i := FreeSlot(s.procs, 0);
      var x := SetProc(s, i, ProcAt(s, i).(used := true, pid := s.nextPid, timeslice := 0, tt := tt));
      s1 == x.(nextPid := More(s.nextPid)).(ready := [i] + x.ready)
    ensures s1 == Created(s, tt)
  {
  }

  lemma SizesOf(h: Heap, s: State)
    requires Rep(h, s)
    ensures |s.procs| == POOL && |s.joins| == POOL && |s.blocked| == NR_SEMS && |s.sems| == NR_SEMS
    ensures s.procs == Procs(h.pool) && |h.pool| == POOL
  {
  }

  lemma NoneAlive(procs: seq<Proc>)
    ensures Alive(procs, []) == []
  {
  }

  lemma AliveFirst(procs: seq<Proc>, q: seq<int>, n: nat, ready: seq<int>)
    requires n < |q| && 0 <= q[n] < |procs|
    ensures ready + Alive(procs, q[n..]) == (if procs[q[n]].used then ready + [q[n]] else ready) + Alive(procs, q[n + 1..])
  {
    hide Alive;
    AliveStep(procs, q, n);
    if procs[q[n]].used {
      Regroup(ready, [q[n]], Alive(procs, q[n + 1..]));
    }
  }

  /** One joiner at a time. */
  lemma AliveStep(procs: seq<Proc>, q: seq<int>, n: nat)
    requires n < |q| && 0 <= q[n] < |procs|
    ensures Alive(procs, q[n..]) == (if procs[q[n]].used then [q[n]] else []) + Alive(procs, q[n + 1..])
  {
    assert q[n..][0] == q[n] && q[n..][1..] == q[n + 1..];
  }

  lemma Regroup(a: seq<int>, b: seq<int>, c: seq<int>)
    ensures a + (b + c) == (a + b) + c
  {
  }

  lemma NullJoiner(q: seq<int>, n: nat, p: int)
    requires n <= |q|
    requires q[n..] != [] ==> p == q[n..][0] && 0 <= p
    requires p == NULL
    ensures n == |q| && q[n..] == []
  {
  }

  lemma PidCommutes(s: State, i: int, x: Proc, y: Proc)
    ensures SetProc(SetProc(s, i, x).(nextPid := More(s.nextPid)), i, y) == SetProc(s, i, y).(nextPid := More(s.nextPid))
  {
    DataTwice(s, i, x, y);
  }

  lemma PidInNoList(s: State, s1: State, i: int)
    requires InNoList(s, i)
    requires s1.ready == s.ready && s1.sleepers == s.sleepers && s1.joins == s.joins && s1.blocked == s.blocked
    ensures InNoList(s1, i)
  {
    assert forall k :: ListOf(s1, k) == ListOf(s, k);
  }

  lemma ExitedIs(s: State)
    requires 0 <= s.current < |s.procs|
    ensures var s1 := s.(ready := s.ready + Alive(s.procs, ListAt(s.joins, s.current)), joins := SetList(s.joins, s.current, []));
      Exited(s) == SetProc(s1, s.current, ProcAt(s1, s.current).(used := false)).(current := SchedSpec.NONE)
  {
  }

  lemma TickedKeeps(s: State)
    requires Inv(s) && Running(s)
    ensures var c := ProcAt(s, s.current);
      var s1 := SetProc(s.(tick := More(s.tick)), s.current, c.(timeslice := More(c.timeslice)));
      Inv(s1) && SchedSpec.DoTimer(s) == Walk(s1, 0) && 0 <= s.current < POOL
  {
    hide Inv, Walk;
    var c := ProcAt(s, s.current);
    ListedIsLive(s, s.current);
    TickKeeps(s);
    SetProcKeeps(s.(tick := More(s.tick)), s.current, c.(timeslice := More(c.timeslice)));
  }

  lemma SleepHead(h: Heap, s: State)
    requires Rep(h, s)
    ensures h.sleepList == First(s.sleepers)
  {
    KeyChain(h, s, KSleep);
  }

  lemma SleepNext(h: Heap, s: State, i: nat)
    requires Rep(h, s) && i < |s.sleepers|
    ensures 0 <= s.sleepers[i] < POOL && |s.procs| == POOL && h.pool[s.sleepers[i]].next == After(s.sleepers, i)
  {
    KeyChain(h, s, KSleep);
  }

  lemma SleepEnd(h: Heap, s: State, i: nat)
    requires Rep(h, s) && i <= |s.sleepers| && (i < |s.sleepers| ==> s.sleepers[i] == NULL)
    ensures Walk(s, i) == s
  {
    if i < |s.sleepers| {
      SleepNext(h, s, i);
    }
  }

  /** One round of the walk. */
  lemma WalkOnce(s: State, i: nat)
    requires i < |s.sleepers|
    ensures var p := s.sleepers[i]; var s1 := SetProc(s, p, Charge(ProcAt(s, p)));
      if Less(ProcAt(s, p).timeslice) == 0
      then Charged(s, i) == s1.(sleepers := Without(s.sleepers, i), ready := s.ready + [p]) && Walk(s, i) == Walk(Charged(s, i), i)
      else Charged(s, i) == s1 && Walk(s, i) == Walk(s1, i + 1)
    ensures |Without(s.sleepers, i)| == |s.sleepers| - 1
    ensures i < |s.sleepers| - 1 ==> Without(s.sleepers, i)[i] == s.sleepers[i + 1]
  {
    hide Charge;
  }

  lemma DataTwice(s: State, p: int, x: Proc, y: Proc)
    ensures SetProc(SetProc(s, p, x), p, y) == SetProc(s, p, y)
  {
    if 0 <= p < |s.procs| {
      assert s.procs[p := x][p := y] == s.procs[p := y];
    }
  }

  lemma PoolSize(h: Heap, s: State)
    requires Rep(h, s)
    ensures |h.pool| == POOL && |h.sems| == NR_SEMS
  {
  }

  lemma DataKeepsLists(s: State, p: int, x: Proc)
    ensures SetProc(s, p, x).ready == s.ready && SetProc(s, p, x).sleepers == s.sleepers
    ensures SetProc(s, p, x).joins == s.joins && SetProc(s, p, x).blocked == s.blocked
    ensures InNoList(s, p) ==> InNoList(SetProc(s, p, x), p)
    ensures SetProc(s, p, x).current == s.current && |SetProc(s, p, x).procs| == |s.procs|
    ensures 0 <= p < |s.procs| ==> ProcAt(SetProc(s, p, x), p) == x
  {
    assert forall k :: ListOf(SetProc(s, p, x), k) == ListOf(s, k);
  }

  lemma KeyChain(h: Heap, s: State, k: Key)
    requires Rep(h, s) && ValidKey(k)
    ensures Chain(h.pool, HeadOf(h, k), ListOf(s, k)) && Distinct(ListOf(s, k))
    ensures |h.pool| == POOL && |h.sems| == NR_SEMS
  {
  }

  lemma ChainRange(pool: seq<Pcb>, head: int, q: seq<int>, i: nat)
    requires Chain(pool, head, q) && i < |q|
    ensures 0 <= q[i] < |pool|
  {
  }

  lemma ChainNonNull(pool: seq<Pcb>, head: int, q: seq<int>, i: nat)
    requires Chain(pool, head, q) && i <= |q|
    ensures i < |q| ==> q[i] != NULL
  {
  }

  lemma NullIsEmpty(pool: seq<Pcb>, head: int, q: seq<int>)
    requires Chain(pool, head, q)
    ensures head == NULL <==> q == []
  {
  }

  lemma LastIsNull(pool: seq<Pcb>, head: int, q: seq<int>, i: nat)
    requires Chain(pool, head, q) && i < |q| && pool[q[i]].next == NULL
    ensures i == |q| - 1
  {
    assert forall x :: 0 <= x < |q| ==> 0 <= q[x];
  }

  lemma WithListRest(s: State, k: Key, q: seq<int>)
    ensures WithList(s, k, q).current == s.current && WithList(s, k, q).nextPid == s.nextPid && WithList(s, k, q).tick == s.tick
  {
  }

  /** Storing the head that is there already changes nothing. */
  lemma SameHead(h: Heap, m: seq<Pcb>, k: Key, touched: set<int>)
    requires ValidKey(k) && |h.pool| == POOL && |h.sems| == NR_SEMS && NextOnly(h.pool, m, touched)
    ensures h.(pool := m) == Relink(h, m, k, HeadOf(h, k))
  {
    match k
    case KJoin(t) => assert m[t := m[t].(joinList := HeadOf(h, k))] == m;
    case KBlock(j) => assert h.sems[j := h.sems[j].(blockList := HeadOf(h, k))] == h.sems;
    case _ =>
  }

  lemma ListChain(h: Heap, s: State, k: Key, p: int)
    requires Rep(h, s) && ValidKey(k) && InNoList(s, p)
    ensures Chain(h.pool, HeadOf(h, k), ListOf(s, k)) && Distinct(ListOf(s, k)) && p !in ListOf(s, k)
    ensures |h.pool| == POOL && |h.sems| == NR_SEMS && HeadOf(h, k) == First(ListOf(s, k))
  {
  }

  lemma PushCommutes(h: Heap, q: seq<int>, k: Key, p: int)
    requires |h.pool| == POOL && 0 <= p < POOL && ValidKey(k)
    ensures var h1 := WithHead(h, k, p);
      h1.(pool := PushPool(h1.pool, q, p)) == Relink(h, PushPool(h.pool, q, p), k, p)
  {
    var h1 := WithHead(h, k, p);
    assert PushPool(h1.pool, q, p) == Relink(h, PushPool(h.pool, q, p), k, p).pool;
  }

  lemma DeleteFirstCommutes(h: Heap, q: seq<int>, k: Key)
    requires |h.pool| == POOL && |h.sems| == NR_SEMS && ValidKey(k) && q != []
    ensures var h1 := WithHead(h, k, After(q, 0));
      h1.(pool := SetNext(h1.pool, q[0], NULL)) == Relink(h, DeletePool(h.pool, q, 0), k, First(Without(q, 0)))
  {
    assert First(Without(q, 0)) == After(q, 0);
    var h1 := WithHead(h, k, After(q, 0));
    assert SetNext(h1.pool, q[0], NULL) == Relink(h, DeletePool(h.pool, q, 0), k, After(q, 0)).pool;
  }

  lemma DeleteCommutes(h: Heap, q: seq<int>, k: Key, i: nat)
    requires |h.pool| == POOL && |h.sems| == NR_SEMS && ValidKey(k) && i < |q|
    requires HeadOf(h, k) == First(q)
    ensures var h1 := if i == 0 then WithHead(h, k, After(q, 0)) else h.(pool := SetNext(h.pool, q[i - 1], After(q, i)));
      h1.(pool := SetNext(h1.pool, q[i], NULL)) == Relink(h, DeletePool(h.pool, q, i), k, First(Without(q, i)))
  {
    hide WithHead, Relink, HeadOf, NextOnly;
    if i == 0 {
      DeleteFirstCommutes(h, q, k);
    } else {
      assert First(Without(q, i)) == First(q);
      DeleteOnly(h.pool, q, i);
      SameHead(h, DeletePool(h.pool, q, i), k, {q[i - 1], q[i]});
    }
  }
}
