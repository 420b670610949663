/** The intrusive lists of kernel/src/process.c: one `next` field per PCB serves the ready,
    sleep, join and semaphore lists.  Here the pointers are values, and each list operation
    is shown to change one list and leave all others as they are. */
module KernelLists {
  import opened Sequences
  import opened SchedSpec
  import opened SchedInvariant

  const NULL := -1

  /** A PCB is its process data, its place in at most one list, and the head of the list of
      those that wait for it. */
  datatype Pcb = Pcb(p: Proc, next: int, joinList: int)

  datatype SemRec = SemRec(used: bool, count: int, blockList: int)

  /** The pointer part of the kernel: PCBPool, sems, ready_list and sleep_list. */
  datatype Heap = Heap(pool: seq<Pcb>, sems: seq<SemRec>, readyList: int, sleepList: int)

  /** The names of the lists. */
  datatype Key = KReady | KSleep | KJoin(t: int) | KBlock(j: int)

  predicate ValidKey(k: Key) {
    match k
    case KJoin(t) => 0 <= t < POOL
    case KBlock(j) => 0 <= j < NR_SEMS
    case _ => true
  }

  function ListOf(s: State, k: Key): seq<int> {
    match k
    case KReady => s.ready
    case KSleep => s.sleepers
    case KJoin(t) => ListAt(s.joins, t)
    case KBlock(j) => ListAt(s.blocked, j)
  }

  function WithList(s: State, k: Key, q: seq<int>): State {
    match k
    case KReady => s.(ready := q)
    case KSleep => s.(sleepers := q)
    case KJoin(t) => s.(joins := SetList(s.joins, t, q))
    case KBlock(j) => s.(blocked := SetList(s.blocked, j, q))
  }

  function HeadOf(h: Heap, k: Key): int {
    match k
    case KReady => h.readyList
    case KSleep => h.sleepList
    case KJoin(t) => if 0 <= t < |h.pool| then h.pool[t].joinList else NULL
    case KBlock(j) => if 0 <= j < |h.sems| then h.sems[j].blockList else NULL
  }

  function WithHead(h: Heap, k: Key, p: int): Heap {
    match k
    case KReady => h.(readyList := p)
    case KSleep => h.(sleepList := p)
    case KJoin(t) => if 0 <= t < |h.pool| then h.(pool := h.pool[t := h.pool[t].(joinList := p)]) else h
    case KBlock(j) => if 0 <= j < |h.sems| then h.(sems := h.sems[j := h.sems[j].(blockList := p)]) else h
  }

  // ---- the process and semaphore data without pointers

  function Procs(pool: seq<Pcb>): (r: seq<Proc>)
    ensures |r| == |pool|
    ensures forall i :: 0 <= i < |pool| ==> r[i] == pool[i].p
  {
    if pool == [] then [] else [pool[0].p] + Procs(pool[1..])
  }

  function Sems(sems: seq<SemRec>): (r: seq<Sem>)
    ensures |r| == |sems|
    ensures forall i :: 0 <= i < |sems| ==> r[i] == Sem(sems[i].used, sems[i].count)
  {
    if sems == [] then [] else [Sem(sems[0].used, sems[0].count)] + Sems(sems[1..])
  }

  // ---- one list

  function First(q: seq<int>): int { if q == [] then NULL else q[0] }

  function After(q: seq<int>, i: nat): int { if i + 1 < |q| then q[i + 1] else NULL }

  /** Following `next` from `head` visits exactly q. */
  ghost predicate Chain(pool: seq<Pcb>, head: int, q: seq<int>) {
    && head == First(q)
    && (forall i :: 0 <= i < |q| ==> 0 <= q[i] < |pool| && pool[q[i]].next == After(q, i))
  }

  function SetNext(pool: seq<Pcb>, p: int, n: int): seq<Pcb> {
    if 0 <= p < |pool| then pool[p := pool[p].(next := n)] else pool
  }

  /** The pool after ll_entail of p to list q. */
  function EntailPool(pool: seq<Pcb>, q: seq<int>, p: int): seq<Pcb> {
    var m := SetNext(pool, p, NULL);
    if q == [] then m else SetNext(m, q[|q| - 1], p)
  }

  /** The pool after ll_push of p to list q. */
  function PushPool(pool: seq<Pcb>, q: seq<int>, p: int): seq<Pcb> {
    if q == [] then pool else SetNext(pool, p, q[0])
  }

  /** The pool after ll_delete of the i-th process of list q. */
  function DeletePool(pool: seq<Pcb>, q: seq<int>, i: nat): seq<Pcb> {
    if i >= |q| then pool else
    SetNext(if i == 0 then pool else SetNext(pool, q[i - 1], After(q, i)), q[i], NULL)
  }

  function Without(q: seq<int>, i: nat): seq<int> {
    if i >= |q| then q else q[..i] + q[i + 1..]
  }

  lemma ChainEntail(pool: seq<Pcb>, head: int, q: seq<int>, p: int)
    requires Chain(pool, head, q) && Distinct(q) && p !in q && 0 <= p < |pool|
    ensures Chain(EntailPool(pool, q, p), First(q + [p]), q + [p]) && Distinct(q + [p])
  {
    var m, q1 := EntailPool(pool, q, p), q + [p];
    forall i | 0 <= i < |q1|
      ensures 0 <= q1[i] < |m| && m[q1[i]].next == After(q1, i)
    {
      if i < |q| {
        assert q[i] in q;
      }
    }
  }

  lemma ChainPush(pool: seq<Pcb>, head: int, q: seq<int>, p: int)
    requires Chain(pool, head, q) && Distinct(q) && p !in q && 0 <= p < |pool| && pool[p].next == NULL
    ensures Chain(PushPool(pool, q, p), p, [p] + q) && Distinct([p] + q)
  {
    var m, q1 := PushPool(pool, q, p), [p] + q;
    forall i | 0 <= i < |q1|
      ensures 0 <= q1[i] < |m| && m[q1[i]].next == After(q1, i)
    {
      if i > 0 {
        assert q[i - 1] in q;
        assert After(q1, i) == After(q, i - 1);
      }
    }
  }

  lemma DeleteNext(pool: seq<Pcb>, q: seq<int>, i: nat, k: nat)
    requires Distinct(q) && i < |q| && k < |q| && forall j :: 0 <= j < |q| ==> 0 <= q[j] < |pool|
    ensures |DeletePool(pool, q, i)| == |pool|
    ensures DeletePool(pool, q, i)[q[k]].next ==
        if k == i then NULL else if k + 1 == i then After(q, i) else pool[q[k]].next
  {
    assert k != i ==> q[k] != q[i];
    assert i > 0 && k != i - 1 ==> q[k] != q[i - 1];
  }

  lemma WithoutAt(q: seq<int>, i: nat)
    requires i < |q|
    ensures |Without(q, i)| == |q| - 1
    ensures forall k :: 0 <= k < |q| - 1 ==> Without(q, i)[k] == q[if k < i then k else k + 1]
    ensures Distinct(q) ==> Distinct(Without(q, i)) && (forall x :: x in Without(q, i) <==> x != q[i] && x in q)
  {
    if Distinct(q) {
      forall x | x in q && x != q[i]
        ensures x in Without(q, i)
      {
        var k :| 0 <= k < |q| && q[k] == x;
        assert Without(q, i)[if k < i then k else k - 1] == x;
      }
    }
  }

  lemma ChainDelete(pool: seq<Pcb>, head: int, q: seq<int>, i: nat)
    requires Chain(pool, head, q) && Distinct(q) && i < |q|
    ensures Chain(DeletePool(pool, q, i), First(Without(q, i)), Without(q, i))
    ensures 0 <= q[i] < |pool| && |DeletePool(pool, q, i)| == |pool| && DeletePool(pool, q, i)[q[i]].next == NULL
  {
    hide DeletePool, Without;
    var m, q1 := DeletePool(pool, q, i), Without(q, i);
    WithoutAt(q, i);
    DeleteNext(pool, q, i, i);
    forall k | 0 <= k < |q1|
      ensures 0 <= q1[k] < |m| && m[q1[k]].next == After(q1, k)
    {
      DeleteNext(pool, q, i, if k < i then k else k + 1);
    }
  }

  // ---- all lists together

  ghost predicate InNoList(s: State, p: int) {
    forall k :: ValidKey(k) ==> p !in ListOf(s, k)
  }

  ghost predicate Apart(s: State) {
    && (forall k :: ValidKey(k) ==> Distinct(ListOf(s, k)))
    && (forall k1, k2, p :: ValidKey(k1) && ValidKey(k2) && p in ListOf(s, k1) && p in ListOf(s, k2) ==> k1 == k2)
  }

  ghost predicate Chains(h: Heap, s: State) {
    forall k :: ValidKey(k) ==> Chain(h.pool, HeadOf(h, k), ListOf(s, k))
  }

  /** A PCB in no list has a null `next`, as ll_push relies on. */
  ghost predicate Loose(h: Heap, s: State) {
    forall p :: 0 <= p < |h.pool| && InNoList(s, p) ==> h.pool[p].next == NULL
  }

  ghost predicate Sizes(h: Heap, s: State) {
    && |h.pool| == POOL && |h.sems| == NR_SEMS && |s.joins| == POOL && |s.blocked| == NR_SEMS
    && s.procs == Procs(h.pool) && s.sems == Sems(h.sems)
  }

  /** The pointers represent the lists of s. */
  ghost predicate Rep(h: Heap, s: State) {
    Sizes(h, s) && Chains(h, s) && Apart(s) && Loose(h, s)
  }

  // ---- changing one list

  lemma WithListOf(s: State, k: Key, q: seq<int>, k2: Key)
    requires |s.joins| == POOL && |s.blocked| == NR_SEMS && ValidKey(k) && ValidKey(k2)
    ensures ListOf(WithList(s, k, q), k2) == if k2 == k then q else ListOf(s, k2)
  {
  }

  /** m differs from pool in `next` fields only, and only for the PCBs in `touched`. */
  ghost predicate NextOnly(pool: seq<Pcb>, m: seq<Pcb>, touched: set<int>) {
    && |m| == |pool|
    && (forall i :: 0 <= i < |pool| ==> m[i].p == pool[i].p && m[i].joinList == pool[i].joinList)
    && (forall i :: 0 <= i < |pool| && i !in touched ==> m[i].next == pool[i].next)
  }

  /** The heap after the pool became m and the head of list k became p. */
  function Relink(h: Heap, m: seq<Pcb>, k: Key, p: int): Heap { WithHead(h.(pool := m), k, p) }

  lemma RelinkPool(h: Heap, m: seq<Pcb>, k: Key, p: int, touched: set<int>)
    requires NextOnly(h.pool, m, touched) && |h.pool| == POOL && |h.sems| == NR_SEMS && ValidKey(k)
    ensures |Relink(h, m, k, p).pool| == POOL && |Relink(h, m, k, p).sems| == NR_SEMS
    ensures forall i :: 0 <= i < POOL ==> Relink(h, m, k, p).pool[i].next == m[i].next
    ensures Procs(Relink(h, m, k, p).pool) == Procs(h.pool) && Sems(Relink(h, m, k, p).sems) == Sems(h.sems)
    ensures forall k2 :: ValidKey(k2) ==> HeadOf(Relink(h, m, k, p), k2) == if k2 == k then p else HeadOf(h, k2)
  {
    assert Procs(Relink(h, m, k, p).pool) == Procs(h.pool);
    assert Sems(Relink(h, m, k, p).sems) == Sems(h.sems);
  }

  /** Chains of other lists survive when no PCB of theirs is touched. */
  lemma RelinkChains(h: Heap, s: State, m: seq<Pcb>, k: Key, q1: seq<int>, touched: set<int>)
    requires Sizes(h, s) && Chains(h, s) && ValidKey(k) && NextOnly(h.pool, m, touched)
    requires Chain(m, First(q1), q1)
    requires forall k2, x :: ValidKey(k2) && k2 != k && x in ListOf(s, k2) ==> x !in touched
    ensures Chains(Relink(h, m, k, First(q1)), WithList(s, k, q1))
  {
    var h1, s1 := Relink(h, m, k, First(q1)), WithList(s, k, q1);
    RelinkPool(h, m, k, First(q1), touched);
    forall k2 | ValidKey(k2)
      ensures Chain(h1.pool, HeadOf(h1, k2), ListOf(s1, k2))
    {
      WithListOf(s, k, q1, k2);
      if k2 != k {
        ChainSame(h.pool, h1.pool, HeadOf(h, k2), ListOf(s, k2), touched);
      }
    }
  }

  lemma ChainSame(pool: seq<Pcb>, m: seq<Pcb>, head: int, q: seq<int>, touched: set<int>)
    requires Chain(pool, head, q) && |m| == |pool|
    requires forall i :: 0 <= i < |pool| && i !in touched ==> m[i].next == pool[i].next
    requires forall x :: x in q ==> x !in touched
    ensures Chain(m, head, q)
  {
    forall i | 0 <= i < |q|
      ensures 0 <= q[i] < |m| && m[q[i]].next == After(q, i)
    {
      assert q[i] in q;
    }
  }

  /** Putting p, which is in no list, into list k keeps the lists apart. */
  lemma AddApart(s: State, k: Key, q1: seq<int>, p: int)
    requires |s.joins| == POOL && |s.blocked| == NR_SEMS && Apart(s) && ValidKey(k) && InNoList(s, p) && Distinct(q1)
    requires forall x :: x in q1 <==> x == p || x in ListOf(s, k)
    ensures Apart(WithList(s, k, q1))
    ensures forall x :: InNoList(WithList(s, k, q1), x) <==> InNoList(s, x) && x != p
  {
    var s1 := WithList(s, k, q1);
    forall k2 | ValidKey(k2)
      ensures ListOf(s1, k2) == if k2 == k then q1 else ListOf(s, k2)
    {
      WithListOf(s, k, q1, k2);
    }
    assert forall x :: InNoList(s1, x) ==> x !in ListOf(s1, k);
    forall x | InNoList(s1, x)
      ensures InNoList(s, x) && x != p
    {
      forall k2 | ValidKey(k2)
        ensures x !in ListOf(s, k2)
      {
        assert x !in ListOf(s1, k2);
      }
    }
  }

  /** Taking p out of list k keeps the lists apart, and leaves p in none. */
  lemma RemoveApart(s: State, k: Key, q1: seq<int>, p: int)
    requires |s.joins| == POOL && |s.blocked| == NR_SEMS && Apart(s) && ValidKey(k) && p in ListOf(s, k) && Distinct(q1)
    requires forall x :: x in q1 <==> x != p && x in ListOf(s, k)
    ensures Apart(WithList(s, k, q1))
    ensures forall x :: InNoList(WithList(s, k, q1), x) <==> InNoList(s, x) || x == p
  {
    var s1 := WithList(s, k, q1);
    forall k2 | ValidKey(k2)
      ensures ListOf(s1, k2) == if k2 == k then q1 else ListOf(s, k2)
    {
      WithListOf(s, k, q1, k2);
    }
    forall x | InNoList(s1, x) && x != p
      ensures InNoList(s, x)
    {
      forall k2 | ValidKey(k2)
        ensures x !in ListOf(s, k2)
      {
        assert x !in ListOf(s1, k2);
      }
    }
  }

  // ---- the list operations on the whole heap

  lemma EntailNext(pool: seq<Pcb>, q: seq<int>, p: int)
    ensures NextOnly(pool, EntailPool(pool, q, p), if q == [] then {p} else {p, q[|q| - 1]})
  {
  }

  lemma PushNext(pool: seq<Pcb>, q: seq<int>, p: int)
    ensures NextOnly(pool, PushPool(pool, q, p), {p})
  {
  }

  lemma DeleteOnly(pool: seq<Pcb>, q: seq<int>, i: nat)
    requires i < |q|
    ensures NextOnly(pool, DeletePool(pool, q, i), if i == 0 then {q[0]} else {q[i - 1], q[i]})
  {
  }

  /** ll_entail puts p, which is in no list, at the end of list k. */
  lemma RepEntail(h: Heap, s: State, k: Key, p: int)
    requires Rep(h, s) && ValidKey(k) && InNoList(s, p) && 0 <= p < POOL
    ensures var q := ListOf(s, k);
      Rep(Relink(h, EntailPool(h.pool, q, p), k, First(q + [p])), WithList(s, k, q + [p]))
  {
    hide EntailPool, NextOnly, Chain, Distinct;
    var q := ListOf(s, k);
    assert Chain(h.pool, HeadOf(h, k), q);
    assert p !in q;
    ChainEntail(h.pool, HeadOf(h, k), q, p);
    EntailNext(h.pool, q, p);
    RepAdd(h, s, k, q + [p], p, EntailPool(h.pool, q, p), if q == [] then {p} else {p, q[|q| - 1]});
  }

  /** ll_push puts p, which is in no list, at the front of list k. */
  lemma RepPush(h: Heap, s: State, k: Key, p: int)
    requires Rep(h, s) && ValidKey(k) && InNoList(s, p) && 0 <= p < POOL
    ensures var q := ListOf(s, k);
      Rep(Relink(h, PushPool(h.pool, q, p), k, p), WithList(s, k, [p] + q))
  {
    hide PushPool, NextOnly, Chain, Distinct;
    var q := ListOf(s, k);
    assert Chain(h.pool, HeadOf(h, k), q);
    assert p !in q;
    ChainPush(h.pool, HeadOf(h, k), q, p);
    PushNext(h.pool, q, p);
    RepAdd(h, s, k, [p] + q, p, PushPool(h.pool, q, p), {p});
  }

  lemma RepAdd(h: Heap, s: State, k: Key, q1: seq<int>, p: int, m: seq<Pcb>, touched: set<int>)
    requires Rep(h, s) && ValidKey(k) && InNoList(s, p)
    requires Chain(m, First(q1), q1) && Distinct(q1) && (forall x :: x in q1 <==> x == p || x in ListOf(s, k))
    requires NextOnly(h.pool, m, touched) && (forall x :: x in touched ==> x in q1)
    ensures Rep(Relink(h, m, k, First(q1)), WithList(s, k, q1))
  {
    hide Chain, Distinct;
    forall k2, x | ValidKey(k2) && k2 != k && x in ListOf(s, k2)
      ensures x !in touched
    {
      assert x !in ListOf(s, k);
      assert x != p;
    }
    AddApart(s, k, q1, p);
    RelinkChains(h, s, m, k, q1, touched);
    RelinkPool(h, m, k, First(q1), touched);
    RelinkLoose(h, s, m, k, q1, touched);
    WithListSizes(s, k, q1);
  }

  lemma WithListSizes(s: State, k: Key, q: seq<int>)
    ensures |WithList(s, k, q).joins| == |s.joins| && |WithList(s, k, q).blocked| == |s.blocked|
    ensures WithList(s, k, q).procs == s.procs && WithList(s, k, q).sems == s.sems
  {
  }

  lemma RelinkLoose(h: Heap, s: State, m: seq<Pcb>, k: Key, q1: seq<int>, touched: set<int>)
    requires Sizes(h, s) && Loose(h, s) && ValidKey(k) && NextOnly(h.pool, m, touched)
    requires forall x :: InNoList(WithList(s, k, q1), x) && 0 <= x < POOL ==>
        m[x].next == NULL || (InNoList(s, x) && x !in touched)
    ensures Loose(Relink(h, m, k, First(q1)), WithList(s, k, q1))
  {
    RelinkPool(h, m, k, First(q1), touched);
  }

  /** ll_delete takes the i-th process out of list k and clears its `next`. */
  lemma RepDelete(h: Heap, s: State, k: Key, i: nat)
    requires Rep(h, s) && ValidKey(k) && i < |ListOf(s, k)|
    ensures var q := ListOf(s, k);
      Rep(Relink(h, DeletePool(h.pool, q, i), k, First(Without(q, i))), WithList(s, k, Without(q, i)))
    ensures InNoList(WithList(s, k, Without(ListOf(s, k), i)), ListOf(s, k)[i])
  {
    hide DeletePool, NextOnly, Chain, Distinct, Without;
    var q := ListOf(s, k);
    assert Chain(h.pool, HeadOf(h, k), q);
    assert Distinct(q);
    WithoutAt(q, i);
    ChainDelete(h.pool, HeadOf(h, k), q, i);
    DeleteOnly(h.pool, q, i);
    RemoveApart(s, k, Without(q, i), q[i]);
    RepRemove(h, s, k, Without(q, i), q[i], DeletePool(h.pool, q, i), if i == 0 then {q[0]} else {q[i - 1], q[i]});
  }

  lemma RepRemove(h: Heap, s: State, k: Key, q1: seq<int>, p: int, m: seq<Pcb>, touched: set<int>)
    requires Rep(h, s) && ValidKey(k) && p in ListOf(s, k) && Apart(WithList(s, k, q1))
    requires forall x :: InNoList(WithList(s, k, q1), x) <==> InNoList(s, x) || x == p
    requires Chain(m, First(q1), q1) && 0 <= p < |m| && m[p].next == NULL
    requires NextOnly(h.pool, m, touched) && (forall x :: x in touched ==> x in ListOf(s, k))
    ensures Rep(Relink(h, m, k, First(q1)), WithList(s, k, q1))
  {
    hide Chain, Distinct;
    RelinkChains(h, s, m, k, q1, touched);
    RelinkPool(h, m, k, First(q1), touched);
    RelinkLoose(h, s, m, k, q1, touched);
    WithListSizes(s, k, q1);
  }

  // ---- data changes

  /** Rep depends on sizes and data, list heads, `next` fields and the lists. */
  lemma RepSame(h: Heap, s: State, h1: Heap, s1: State)
    requires Rep(h, s) && Sizes(h1, s1)
    requires s1.ready == s.ready && s1.sleepers == s.sleepers && s1.joins == s.joins && s1.blocked == s.blocked
    requires forall i :: 0 <= i < POOL ==> h1.pool[i].next == h.pool[i].next
    requires forall k :: ValidKey(k) ==> HeadOf(h1, k) == HeadOf(h, k)
    ensures Rep(h1, s1)
  {
    assert forall k :: ListOf(s1, k) == ListOf(s, k);
    forall k | ValidKey(k)
      ensures Chain(h1.pool, HeadOf(h1, k), ListOf(s1, k))
    {
      ChainSame(h.pool, h1.pool, HeadOf(h, k), ListOf(s, k), {});
    }
    assert forall q :: InNoList(s1, q) ==> InNoList(s, q);
  }

  /** Changing process data leaves the lists represented. */
  lemma RepData(h: Heap, s: State, p: int, x: Proc)
    requires Rep(h, s) && 0 <= p < POOL
    ensures Rep(h.(pool := h.pool[p := h.pool[p].(p := x)]), SetProc(s, p, x))
  {
    hide Chains, Apart, Loose;
    var h1, s1 := h.(pool := h.pool[p := h.pool[p].(p := x)]), SetProc(s, p, x);
    assert Procs(h1.pool) == Procs(h.pool)[p := x];
    RepSame(h, s, h1, s1);
  }

  /** Changing a semaphore's flag and count does, too. */
  lemma RepSem(h: Heap, s: State, j: int, x: Sem)
    requires Rep(h, s) && 0 <= j < NR_SEMS
    ensures Rep(h.(sems := h.sems[j := h.sems[j].(used := x.used, count := x.count)]), SetSem(s, j, x))
  {
    hide Chains, Apart, Loose;
    var h1, s1 := h.(sems := h.sems[j := h.sems[j].(used := x.used, count := x.count)]), SetSem(s, j, x);
    assert Sems(h1.sems) == Sems(h.sems)[j := x];
    RepSame(h, s, h1, s1);
  }

  /** The lists do not depend on the current process, the next id or the clock. */
  lemma RepOther(h: Heap, s: State, s1: State)
    requires Rep(h, s)
    requires s1.procs == s.procs && s1.sems == s.sems && s1.ready == s.ready && s1.sleepers == s.sleepers
    requires s1.joins == s.joins && s1.blocked == s.blocked
    ensures Rep(h, s1)
  {
    hide Chains, Apart, Loose;
    RepSame(h, s, h, s1);
  }

  // ---- what the partition of the live processes says about the lists

  lemma {:induction false} InSum(ls: seq<seq<int>>, i: nat, p: int)
    requires i < |ls| && p in ls[i]
    ensures p in Sum(ls)
  {
    SumHolds(ls, i);
    assert p in multiset(ls[i]);
  }

  lemma ListedInLists(s: State, k: Key, p: int)
    requires |s.joins| == POOL && |s.blocked| == NR_SEMS && ValidKey(k) && p in ListOf(s, k)
    ensures p in Lists(s)
  {
    match k
    case KReady => assert p in multiset(s.ready);
    case KSleep => assert p in multiset(s.sleepers);
    case KJoin(t) => InSum(s.joins, t, p);
    case KBlock(j) => InSum(s.blocked, j, p);
  }

  /** A process that no list of the abstract state holds is in no list. */
  lemma UnlistedInNoList(s: State, p: int)
    requires |s.joins| == POOL && |s.blocked| == NR_SEMS && p !in Lists(s)
    ensures InNoList(s, p)
  {
    forall k | ValidKey(k)
      ensures p !in ListOf(s, k)
    {
      if p in ListOf(s, k) {
        ListedInLists(s, k, p);
      }
    }
  }

  lemma CurrentInNoList(s: State)
    requires Inv(s) && s.current != SchedSpec.NONE
    ensures InNoList(s, s.current) && 0 <= s.current < POOL
  {
    OncePlaced(s, s.current);
    ListedIsLive(s, s.current);
    UnlistedInNoList(s, s.current);
  }

  lemma UnusedInNoList(s: State, p: int)
    requires Inv(s) && 0 <= p < |s.procs| && !s.procs[p].used
    ensures InNoList(s, p)
  {
    if p in Lists(s) {
      ListedIsLive(s, p);
    }
    UnlistedInNoList(s, p);
  }
}
